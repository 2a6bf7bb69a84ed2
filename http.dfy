/**
 * The responses the handlers return: a status code, the one header that
 * differs between handlers (`Cache-Control`), and a JSON body. The CORS and
 * `Content-Type` headers every response carries are not modelled.
 */
module Http {
  import opened Wrappers
  import opened Store

  datatype Body =
    | ItemBody(item: Item)                                   // the created or updated item
    | ErrorBody(error: string, message: Option<string>)     // `{error, message?}`
    | ListBody(listName: string, items: seq<Item>, count: nat)  // `{<listName>: [...], count}`
    | UploadBody(uploadUrl: string, fileId: string, fileKey: string, instructions: string)  // `instructions` is sent as `message`
    | DownloadBody(downloadUrl: string, fileName: Js.Value, mimeType: Js.Value, fileSize: Js.Value)

  datatype Response = Response(status: int, cacheControl: Option<string>, body: Body)

  function BadRequest(error: string): Response {
    Response(400, None, ErrorBody(error, None))
  }

  function NotFound(error: string): Response {
    Response(404, None, ErrorBody(error, None))
  }

  /** The catch-all: a summary and the thrown error's own message. */
  function ServerError(error: string, message: string): Response {
    Response(500, None, ErrorBody(error, Some(message)))
  }

  function Created(item: Item): Response {
    Response(201, None, ItemBody(item))
  }

  function OkItem(item: Item): Response {
    Response(200, None, ItemBody(item))
  }

  /** A query result: the items and `count`, the number of items returned. */
  function Listing(listName: string, items: seq<Item>): Response {
    Response(200, None, ListBody(listName, items, |items|))
  }
}
