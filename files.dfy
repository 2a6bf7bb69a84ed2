/**
 * Course files: `uploadFile`, `getFiles` and `getFileUrl`. File metadata
 * lives in the files table under `PK = COURSE#<courseId>`, `SK = FILE#<fileId>`;
 * the file's bytes live in object storage under its `fileKey`, reached
 * through presigned URLs.
 */
module Files {
  import opened Wrappers
  import opened Js
  import opened Store
  import opened Http

  /**
   * What the handlers ask the URL presigner for: a `PutObjectCommand` with
   * a content type, or a `GetObjectCommand`, and the URL's lifetime in
   * seconds. The presigner itself is a parameter of the handlers: it
   * returns the URL, or the message of the error it throws.
   */
  datatype SignRequest =
    | PutObject(key: string, contentType: Value, expiresIn: nat)
    | GetObject(storedKey: Value, expiresIn: nat)  // the `fileKey` attribute as stored

  /** Both handlers ask for URLs that stay valid for one hour. */
  const UrlExpiry: nat := 3600

  function FileItemKey(courseId: string, fileId: string): Key {
    Key("COURSE#" + courseId, "FILE#" + fileId)
  }

  /** The query `getFiles` runs: `PK = COURSE#<courseId> AND begins_with(SK, 'FILE#')`. */
  function CourseFiles(courseId: string): Condition {
    KeyBeginsWith("COURSE#" + courseId, "FILE#")
  }

  /** The scan filter `getFileUrl` runs: `fileId = :fileId`, over the whole table. */
  function WithFileId(fileId: string): Condition {
    AttrEquals("fileId", Str(fileId))
  }

  // ---------------------------------------------------------------------
  // uploadFile

  /** `!body.fileName || !body.fileType` rejects the request. */
  predicate UploadRequestValid(body: Object) {
    Truthy(Prop(body, "fileName")) && Truthy(Prop(body, "fileType"))
  }

  /**
   * The object key `courses/<courseId>/<fileId>-<fileName>`: it lies under
   * the course's folder, names the file id right after it, and ends with
   * the file name.
   */
  function FileKey(courseId: string, fileId: string, fileName: Value): (k: string)
    ensures "courses/" + courseId + "/" + fileId + "-" <= k
    ensures |ToString(fileName)| <= |k| && k[|k| - |ToString(fileName)|..] == ToString(fileName)
    ensures |k| == |"courses/" + courseId + "/" + fileId + "-"| + |ToString(fileName)|
  {
    var prefix := "courses/" + courseId + "/" + fileId + "-";
    var k := prefix + ToString(fileName);
    assert k[..|prefix|] == prefix;
    assert k[|prefix|..] == ToString(fileName);
    k
  }

  /**
   * Two uploads to the same course with different file ids get different
   * object keys, whatever their file names, provided the ids have the same
   * length, as the generated 36-character UUIDs do. Ids of different
   * lengths can collide: `FileKey("c", "y-z", Str("w"))` and
   * `FileKey("c", "y", Str("z-w"))` are both `courses/c/y-z-w`.
   */
  lemma FileKeysDistinct(courseId: string, fileId1: string, fileId2: string, fileName1: Value, fileName2: Value)
    requires |fileId1| == |fileId2| && fileId1 != fileId2
    ensures FileKey(courseId, fileId1, fileName1) != FileKey(courseId, fileId2, fileName2)
  {
    var folder := "courses/" + courseId + "/";
    var k1 := FileKey(courseId, fileId1, fileName1);
    var k2 := FileKey(courseId, fileId2, fileName2);
    assert k1[|folder|..|folder| + |fileId1|] == fileId1;
    assert k2[|folder|..|folder| + |fileId2|] == fileId2;
  }

  /** The two keys named in the comment above: ids of different lengths can share an object key. */
  lemma FileKeysCollideForUnequalIdLengths()
    ensures FileKey("c", "y-z", Str("w")) == FileKey("c", "y", Str("z-w"))
  {
  }

  /** The metadata item `uploadFile` writes, for a generated id and the current time. */
  function NewFileMetadata(courseId: string, fileId: string, timestamp: string, body: Object): (m: Item)
    ensures HasKey(m) && KeyOf(m) == FileItemKey(courseId, fileId)
    ensures Prop(m, "fileId") == Str(fileId)
    ensures Prop(m, "fileKey") == Str(FileKey(courseId, fileId, Prop(body, "fileName")))
  {
    map[
      "PK" := Str("COURSE#" + courseId),
      "SK" := Str("FILE#" + fileId),
      "fileId" := Str(fileId),
      "courseId" := Str(courseId),
      "fileName" := Prop(body, "fileName"),
      "fileKey" := Str(FileKey(courseId, fileId, Prop(body, "fileName"))),
      "fileSize" := Or(Prop(body, "fileSize"), Num(0)),
      "mimeType" := Prop(body, "fileType"),
      "uploadedAt" := Str(timestamp)
    ]
  }

  /**
   * The metadata keeps the name and type the client gave, a falsy size
   * becomes 0, and the upload time is recorded.
   */
  lemma NewFileMetadataFields(courseId: string, fileId: string, timestamp: string, body: Object)
    ensures var m := NewFileMetadata(courseId, fileId, timestamp, body);
            && Prop(m, "courseId") == Str(courseId)
            && Prop(m, "fileName") == Prop(body, "fileName")
            && Prop(m, "mimeType") == Prop(body, "fileType")
            && Prop(m, "fileSize") == (if Truthy(Prop(body, "fileSize")) then Prop(body, "fileSize") else Num(0))
            && Prop(m, "uploadedAt") == Str(timestamp)
  {
  }

  /** The presigned `PUT` `uploadFile` asks for: the new object key and the declared type. */
  function UploadRequest(courseId: string, fileId: string, body: Object): SignRequest {
    PutObject(FileKey(courseId, fileId, Prop(body, "fileName")), Prop(body, "fileType"), UrlExpiry)
  }

  /**
   * The `uploadFile` handler. `fileId` and `timestamp` stand for the
   * generated UUID and the current time, `sign` for the presigner, and
   * `failure` for the error the store throws, if any. The URL is minted
   * before the metadata is written, so a presigner error writes nothing.
   */
  method UploadFile(t: Table, courseId: string, fileId: string, timestamp: string, body: Object,
                    sign: SignRequest -> Result<string>, failure: Option<string>) returns (r: Response)
    requires t.Valid()
    modifies t
    ensures t.Valid()
    ensures !UploadRequestValid(body) ==>
              r == BadRequest("Missing required fields: fileName and fileType") && t.rows == old(t.rows)
    ensures UploadRequestValid(body) && sign(UploadRequest(courseId, fileId, body)).Err? ==>
              r == ServerError("Failed to generate upload URL", sign(UploadRequest(courseId, fileId, body)).message)
              && t.rows == old(t.rows)
    ensures UploadRequestValid(body) && sign(UploadRequest(courseId, fileId, body)).Ok? && failure.Some? ==>
              r == ServerError("Failed to generate upload URL", failure.value) && t.rows == old(t.rows)
    ensures UploadRequestValid(body) && sign(UploadRequest(courseId, fileId, body)).Ok? && failure.None? ==>
              var m := NewFileMetadata(courseId, fileId, timestamp, body);
              && r == Response(200, None, UploadBody(sign(UploadRequest(courseId, fileId, body)).value, fileId,
                                                    FileKey(courseId, fileId, Prop(body, "fileName")),
                                                    "Use the uploadUrl to PUT your file"))
              && t.rows == Upsert(old(t.rows), m)
  {
    if !UploadRequestValid(body) {
      return BadRequest("Missing required fields: fileName and fileType");
    }
    var fileKey := FileKey(courseId, fileId, Prop(body, "fileName"));
    var uploadUrl := sign(PutObject(fileKey, Prop(body, "fileType"), UrlExpiry));
    if uploadUrl.Err? {
      return ServerError("Failed to generate upload URL", uploadUrl.message);
    }
    var metadata := NewFileMetadata(courseId, fileId, timestamp, body);
    var err := t.Put(metadata, failure);
    if err.Some? {
      return ServerError("Failed to generate upload URL", err.value);
    }
    r := Response(200, None, UploadBody(uploadUrl.value, fileId, fileKey, "Use the uploadUrl to PUT your file"));
  }

  // ---------------------------------------------------------------------
  // getFiles

  /**
   * The `getFiles` handler over a snapshot of the files table: every file
   * of the course and nothing else, with its count.
   */
  function GetFiles(rows: seq<Item>, courseId: string, failure: Option<string>): (r: Response)
    ensures failure.Some? ==> r == ServerError("Failed to get files", failure.value)
    ensures failure.None? ==> r.status == 200 && r.body.ListBody? && r.body.listName == "files"
    ensures failure.None? ==> r.body.count == |r.body.items|
    ensures failure.None? ==> forall x :: x in r.body.items ==>
              x in rows && Prop(x, "PK") == Str("COURSE#" + courseId)
              && Prop(x, "SK").Str? && "FILE#" <= Prop(x, "SK").s
    ensures failure.None? ==> forall i :: 0 <= i < |rows| && Matches(rows[i], CourseFiles(courseId)) ==>
              rows[i] in r.body.items
  {
    match failure
    case Some(msg) => ServerError("Failed to get files", msg)
    case None => Listing("files", Select(rows, CourseFiles(courseId)))
  }

  // ---------------------------------------------------------------------
  // getFileUrl

  /** The presigned `GET` for a stored metadata item: whatever its `fileKey` attribute holds. */
  function DownloadRequest(m: Item): SignRequest {
    GetObject(Prop(m, "fileKey"), UrlExpiry)
  }

  /**
   * The `getFileUrl` handler over a snapshot of the files table: the first
   * item, in store order, whose `fileId` is the requested one, in whichever
   * course it lies; 404 when there is none.
   */
  function GetFileUrl(rows: seq<Item>, fileId: string, sign: SignRequest -> Result<string>,
                      failure: Option<string>): (r: Response)
    ensures r.status == 404 <==>
              failure.None? && forall i :: 0 <= i < |rows| ==> Prop(rows[i], "fileId") != Str(fileId)
    ensures r.status == 404 ==> r == NotFound("File not found")
    ensures failure.Some? ==> r == ServerError("Failed to get file URL", failure.value)
    ensures forall i :: 0 <= i < |rows| && Prop(rows[i], "fileId") == Str(fileId)
                        && (forall j :: 0 <= j < i ==> Prop(rows[j], "fileId") != Str(fileId))
                        && failure.None? ==>
              r == match sign(DownloadRequest(rows[i]))
                   case Err(msg) => ServerError("Failed to get file URL", msg)
                   case Ok(url) =>
                     Response(200, None, DownloadBody(url, Prop(rows[i], "fileName"),
                                                      Prop(rows[i], "mimeType"), Prop(rows[i], "fileSize")))
  {
    if failure.Some? then ServerError("Failed to get file URL", failure.value)
    else
      var items := Select(rows, WithFileId(fileId));
      if items == [] then
        NotFound("File not found")
      else
        var metadata := items[0];
        assert metadata in items;
        assert forall i :: 0 <= i < |rows| && Prop(rows[i], "fileId") == Str(fileId)
                           && (forall j :: 0 <= j < i ==> Prop(rows[j], "fileId") != Str(fileId)) ==>
                             rows[i] == metadata by {
          forall i | 0 <= i < |rows| && Prop(rows[i], "fileId") == Str(fileId)
                     && (forall j :: 0 <= j < i ==> Prop(rows[j], "fileId") != Str(fileId))
            ensures rows[i] == metadata
          {
            SelectFirst(rows, WithFileId(fileId), i);
          }
        }
        match sign(DownloadRequest(metadata))
        case Err(msg) => ServerError("Failed to get file URL", msg)
        case Ok(downloadUrl) =>
          Response(200, None, DownloadBody(downloadUrl, Prop(metadata, "fileName"),
                                           Prop(metadata, "mimeType"), Prop(metadata, "fileSize")))
  }

  // ---------------------------------------------------------------------
  // Across handlers

  /**
   * Files and assignments share the `COURSE#<courseId>` partition scheme,
   * but the `FILE#` prefix keeps assignment items out of a file listing.
   */
  lemma FilesNeverListAssignments(rows: seq<Item>, courseId: string, x: Item)
    requires Prop(x, "SK").Str? && "ASSIGNMENT#" <= Prop(x, "SK").s
    ensures x !in GetFiles(rows, courseId, None).body.items
  {
    var sk := Prop(x, "SK").s;
    assert sk[0] == 'A';
    assert !("FILE#" <= sk);
  }

  /** Once an upload is visible to the query, the course's file listing contains the metadata it wrote. */
  lemma UploadedFileIsListed(rows: seq<Item>, courseId: string, fileId: string, timestamp: string, body: Object)
    requires WellKeyed(rows)
    ensures var m := NewFileMetadata(courseId, fileId, timestamp, body);
            m in GetFiles(Upsert(rows, m), courseId, None).body.items
  {
    var m := NewFileMetadata(courseId, fileId, timestamp, body);
    var after := Upsert(rows, m);
    var i :| 0 <= i < |after| && after[i] == m;
    assert "FILE#" <= "FILE#" + fileId;
    assert Matches(after[i], CourseFiles(courseId));
  }

  /**
   * Once the put of a fresh file id is visible to the scan, `getFileUrl` finds the metadata it
   * wrote: the download URL is asked for the very object key the upload URL
   * was minted for, and the name, type and size are the uploaded ones.
   */
  lemma UploadedFileIsFound(rows: seq<Item>, courseId: string, fileId: string, timestamp: string, body: Object,
                            sign: SignRequest -> Result<string>)
    requires WellKeyed(rows)
    requires forall i :: 0 <= i < |rows| ==> Prop(rows[i], "fileId") != Str(fileId)
    ensures var m := NewFileMetadata(courseId, fileId, timestamp, body);
            && DownloadRequest(m) == GetObject(Str(UploadRequest(courseId, fileId, body).key), UrlExpiry)
            && GetFileUrl(Upsert(rows, m), fileId, sign, None) ==
               match sign(DownloadRequest(m))
               case Err(msg) => ServerError("Failed to get file URL", msg)
               case Ok(url) =>
                 Response(200, None, DownloadBody(url, Prop(body, "fileName"), Prop(body, "fileType"),
                                                  Or(Prop(body, "fileSize"), Num(0))))
  {
    var m := NewFileMetadata(courseId, fileId, timestamp, body);
    NewFileMetadataFields(courseId, fileId, timestamp, body);
    OnlyMatchIsFirst(rows, m, fileId, sign);
  }

  /**
   * A put item that alone carries `fileId` is what the scan for that id
   * finds first, so `getFileUrl` answers from it.
   */
  lemma OnlyMatchIsFirst(rows: seq<Item>, m: Item, fileId: string, sign: SignRequest -> Result<string>)
    requires WellKeyed(rows) && HasKey(m) && Prop(m, "fileId") == Str(fileId)
    requires forall i :: 0 <= i < |rows| ==> Prop(rows[i], "fileId") != Str(fileId)
    ensures var items := Select(Upsert(rows, m), WithFileId(fileId));
            items != [] && items[0] == m
    ensures GetFileUrl(Upsert(rows, m), fileId, sign, None) ==
              match sign(DownloadRequest(m))
              case Err(msg) => ServerError("Failed to get file URL", msg)
              case Ok(url) =>
                Response(200, None, DownloadBody(url, Prop(m, "fileName"), Prop(m, "mimeType"), Prop(m, "fileSize")))
  {
    var after := Upsert(rows, m);
    var items := Select(after, WithFileId(fileId));
    var i :| 0 <= i < |after| && after[i] == m;
    assert Matches(after[i], WithFileId(fileId));
    assert items[0] in items;
  }
}
