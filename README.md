# Course study planner backend, modelled in Dafny

This project models the request handlers of the course study planner's
serverless backend: the AWS Lambda functions that create and partially
update courses and assignments, list a course's assignments and files,
mint presigned upload and download URLs for course files, and serve the
public course catalog. Each handler is modelled with the same branches,
error messages, status codes, defaults and key scheme as the JavaScript.
The lemmas then relate the handlers to one another. What a create handler
writes is exactly what the update handler addresses and what the list and
lookup handlers return.

The files, in dependency order:

- `wrappers.dfy`: `Option` and `Result`.
- `js.dfy`: the JavaScript values a parsed request body holds. Also JS
  truthiness, `a || b`, `v ? 'true' : 'false'`, and string conversion
  inside template literals.
- `update_expressions.dfy`: the `SET #f = :f, ...` instruction an update
  handler builds. It covers the attribute-name and attribute-value maps,
  what the store demands of them, what they write, and the one-step push
  (`With`) both builders use.
- `store.dfy`: an in-memory DynamoDB table (`Store.Table`) of items keyed
  by `PK`/`SK`.
  - `PutCommand` is an upsert.
  - `UpdateCommand` without a condition is an upsert as well.
  - Key-prefix queries, index equality queries and filtered scans are all
    `Select`.
- `http.dfy`: the responses (status, `Cache-Control`, JSON body).
- `courses.dfy`, `assignments.dfy`, `files.dfy`, `catalog.dfy`: the
  handlers, and the properties that tie them together.

Nondeterminism and I/O are parameters of the handlers:

- the generated UUID (`courseId`, `assignmentId`, `fileId`);
- the current time (`timestamp`, `now`);
- the error a store call throws (`failure`);
- the S3 presigner `sign`, a function from the requested object command
  to the URL or the error message.

The table's row order stands for the order the store returns items in.
"The first matching item" in `getFileUrl` refers to that order.

The two update builders push one `#f = :f` clause per optional field, in a
chain of `if` blocks over a fixed list of fields. The model writes that
chain as a loop over the same list of fields, in the same order. Each
iteration performs exactly one of the source's `if` blocks.

Two consequences of the code that the lemmas make explicit:

- An update of a key that does not exist is not rejected. Both update
  handlers send an unconditional `UpdateCommand`, which the store turns
  into an insert, so the model stores a fragment item.
  `UpdateOfMissingCourseCreatesFragment` and
  `UpdateOfMissingAssignmentCreatesFragment` state what that item lacks.
- `updateCourse` pushes `updatedAt` before its emptiness test, so its
  "No fields to update" branch is dead and an empty body succeeds,
  writing only `updatedAt` (`EmptyCourseUpdate`). `updateAssignment` does
  reject an empty update.

## Model

| member | source | states |
|---|---|---|
| Js.BoolString | backend/functions/courses/createCourse.js:47 | `isPublic` is stored as "true" or "false" and nothing else, and it is "true" exactly when the body's value is truthy |
| Js.ArrayToString | backend/functions/assignments/updateAssignment.js:64 | inside a template literal a one-element array reads as its element (`${["c1"]}` is "c1") and the empty array reads as "" |
| UpdateExpressions.AssignFirst | backend/functions/courses/updateCourse.js:73 | every attribute named by one of the first `n` clauses is written; when no clause names a key attribute, `PK` and `SK` are not written |
| UpdateExpressions.With | backend/functions/courses/updateCourse.js:20-24 | pushing `#attr = :attr` with both placeholders defined keeps the instruction consistent (one name and one value per clause, no key attribute, no attribute twice); it now writes `v` to `attr` as well; it grows by one clause; every other attribute that could be added still can |
| UpdateExpressions.PushKeepsConsistent | backend/functions/courses/updateCourse.js:20-54 | one push of a fresh attribute keeps every clause's `#name`/`:value` pair defined, unique and unused elsewhere |
| UpdateExpressions.PushKeepsAssigned | backend/functions/courses/updateCourse.js:20-54 | a push leaves what the earlier clauses write unchanged |
| UpdateExpressions.PushAssigns | backend/functions/courses/updateCourse.js:20-54 | after a push the expression writes what it wrote before and, in addition, the new value to the pushed attribute |
| UpdateExpressions.WithKeepsReady | backend/functions/courses/updateCourse.js:20-49 | whether or not a field's `if` block pushes it, every later field in the list can still be pushed, each once |
| Store.Lookup | backend/functions/courses/updateCourse.js:69-72 | the item found under a key has that key; when none is found, no row has it |
| Store.Upsert | backend/functions/courses/createCourse.js:52-55 | a put keeps keys unique and stores the item; it drops only the row with the same key and keeps every other row |
| Store.LookupUpsert | backend/functions/courses/createCourse.js:52-55 | after a put, the item's key finds that item and every other key finds what it found before |
| Store.Select | backend/functions/assignments/getAssignments.js:13-20 | a query returns only matching rows of the table, and all of them |
| Store.SelectMultiplicity | backend/functions/assignments/getAssignments.js:13-31 | a query result holds each matching row exactly as often as the table does and nothing else, so `count` is the number of matching rows |
| Store.SelectFirst | backend/functions/files/getFileUrl.js:35 | the first item of a query result is the first matching row in store order |
| Store.Base | backend/functions/courses/updateCourse.js:67-77 | an update starts from an item with the addressed key: the stored one, or a bare key |
| Store.Updated | backend/functions/courses/updateCourse.js:67-77 | the `ALL_NEW` item keeps the addressed key and carries every written attribute with its new value |
| Store.Table.Put | backend/functions/courses/createCourse.js:52-55 | the error the store throws is reported and the table is unchanged; otherwise the table is the upsert of the item |
| Store.Table.Update | backend/functions/courses/updateCourse.js:67-77 | a thrown error or an instruction the store rejects leaves the table unchanged; otherwise the returned item is the update of the addressed key, and it replaces or adds that key's row |
| Courses.NewCourse | backend/functions/courses/createCourse.js:37-50 | the new course is keyed `USER#<userId>`/`COURSE#<courseId>`, its `userId` and `courseId` attributes match the key, and `isPublic` is "true" or "false" |
| Courses.NewCourseFields | backend/functions/courses/createCourse.js:34-50 | `userId`, `courseId`, `title` and `semester` are stored as given, and `createdAt` equals `updatedAt`, both being the creation time |
| Courses.NewCourseDefaults | backend/functions/courses/createCourse.js:43-47 | a falsy `description` or `instructor` becomes "", a falsy `credits` becomes 0, and `isPublic` is "true" exactly when the body's value is truthy |
| Courses.CreateCourse | backend/functions/courses/createCourse.js:19-83 | a falsy `title` or `semester` gives 400 "Missing required fields: title and semester" and stores nothing; a store error gives 500 "Failed to create course" with its message; otherwise the response is 201 with exactly the stored course |
| Courses.BuildCourseUpdate | backend/functions/courses/updateCourse.js:15-54 | the built expression is consistent and non-empty, and writes exactly the listed fields the body does not leave `undefined` (`isPublic` normalised), plus `updatedAt` |
| Courses.CourseAttrsReady | backend/functions/courses/updateCourse.js:15-17 | the empty expression can take every listed field and `updatedAt`, each once |
| Courses.CourseSetsSnoc | backend/functions/courses/updateCourse.js:20-49 | each `if` block adds its field exactly when the body's value is not `undefined` |
| Courses.CourseChangesDomain | backend/functions/courses/updateCourse.js:20-54 | `updatedAt` is always written; a listed field is written exactly when the body carries it, even with a falsy value such as ""; nothing outside the list and `updatedAt` is written |
| Courses.EmptyCourseUpdate | backend/functions/courses/updateCourse.js:51-65 | an empty body writes `updatedAt` and nothing else, so it is not rejected |
| Courses.UpdateCourse | backend/functions/courses/updateCourse.js:15-101 | the status is only ever 200 or 500 (the "No fields to update" branch is dead); a store error gives 500 "Failed to update course" and changes nothing; otherwise the response is 200 with the post-update item under `USER#<userId>`/`COURSE#<courseId>`, and the table holds it |
| Courses.UpdateKeepsCourseShape | backend/functions/courses/updateCourse.js:19-54 | an update keeps a course's key, owner and id consistent and `isPublic` "true" or "false" |
| Courses.UpdateKeepsUnlistedAttributes | backend/functions/courses/updateCourse.js:19-54 | every attribute outside the list and `updatedAt` (the key, `userId`, `courseId`, `createdAt`) keeps its value |
| Courses.UpdateAddressesCreatedCourse | backend/functions/courses/updateCourse.js:69-72 | the key the update uses is the one `createCourse` wrote, so an update after a create changes that very course |
| Courses.UpdateOfMissingCourseCreatesFragment | backend/functions/courses/updateCourse.js:67-77 | updating a course that was never created stores an item without `userId`, `courseId` or `createdAt`, which is not a well-formed course |
| Assignments.NewAssignment | backend/functions/assignments/createAssignment.js:31-41 | the new assignment is keyed `COURSE#<courseId>`/`ASSIGNMENT#<assignmentId>` and records the course id from the path |
| Assignments.NewAssignmentFields | backend/functions/assignments/createAssignment.js:31-41 | `assignmentId`, `title` and `dueDate` are stored as given, `createdAt` is the creation time, and there is no `updatedAt` |
| Assignments.NewAssignmentDefaults | backend/functions/assignments/createAssignment.js:37-39 | a falsy `description` becomes "" and a falsy `status` becomes "pending" |
| Assignments.CreateAssignment | backend/functions/assignments/createAssignment.js:15-70 | a falsy `title` or `dueDate` gives 400 "Missing required fields: title and dueDate" and stores nothing; a store error gives 500 "Failed to create assignment"; otherwise the response is 201 with exactly the stored assignment |
| Assignments.BuildAssignmentUpdate | backend/functions/assignments/updateAssignment.js:25-48 | the built expression is consistent, writes exactly the four listed fields the body carries, and is empty exactly when the body carries none of them |
| Assignments.AssignmentFieldsReady | backend/functions/assignments/updateAssignment.js:25-27 | the empty expression can take every listed field, each once |
| Assignments.AssignmentSetsSnoc | backend/functions/assignments/updateAssignment.js:29-48 | each `if` block adds its field exactly when the body's value is not `undefined` |
| Assignments.UpdateAssignment | backend/functions/assignments/updateAssignment.js:14-95 | a falsy `courseId` gives 400 "courseId required in body" before anything else; no listed field gives 400 "No fields to update"; both leave the table unchanged; a store error gives 500 "Failed to update assignment"; otherwise the response is 200 with the post-update item under `COURSE#<body.courseId>`/`ASSIGNMENT#<assignmentId>` |
| Assignments.GetAssignments | backend/functions/assignments/getAssignments.js:13-47 | the response is 200 with only items under `COURSE#<courseId>` whose `SK` begins with `ASSIGNMENT#`, all of them, and `count` equal to their number (an empty list when none match); a store error gives 500 "Failed to get assignments" |
| Assignments.UpdateTouchesOnlyListedFields | backend/functions/assignments/updateAssignment.js:25-48 | an update writes only listed fields, never `courseId` and no timestamp, and every other attribute keeps its value |
| Assignments.UpdateAddressesCreatedAssignment | backend/functions/assignments/updateAssignment.js:63-66 | given the same course and assignment ids, the update addresses the very item `createAssignment` wrote |
| Assignments.CreatedAssignmentIsListed | backend/functions/assignments/getAssignments.js:13-20 | once the create has propagated to the listing's read, the created assignment appears in its course's listing |
| Assignments.UpdateOfMissingAssignmentCreatesFragment | backend/functions/assignments/updateAssignment.js:61-71 | updating an assignment that does not exist stores a fragment: the bare key plus the written fields, without `createdAt` or `courseId` |
| Assignments.ArrayCourseIdAddressesSameKey | backend/functions/assignments/updateAssignment.js:14-23 | a `courseId` sent as `["c1"]` passes the guard and addresses the same key, `COURSE#c1`, as the string "c1" |
| Files.FileKey | backend/functions/files/uploadFile.js:32 | the object key starts with `courses/<courseId>/<fileId>-`, ends with the file name, and is exactly as long as those two parts together |
| Files.FileKeysDistinct | backend/functions/files/uploadFile.js:31-32 | two uploads to the same course whose file ids differ but have the same length (as generated UUIDs do) get different object keys, whatever their file names |
| Files.FileKeysCollideForUnequalIdLengths | backend/functions/files/uploadFile.js:32 | ids of different lengths can share an object key: file id `y-z` with name `w` and file id `y` with name `z-w` both give `courses/c/y-z-w` |
| Files.NewFileMetadata | backend/functions/files/uploadFile.js:42-52 | the metadata is keyed `COURSE#<courseId>`/`FILE#<fileId>` and records the file id and the object key |
| Files.NewFileMetadataFields | backend/functions/files/uploadFile.js:46-51 | `courseId`, `fileName` and the upload time are stored; `mimeType` is the request's `fileType`; a falsy `fileSize` becomes 0 |
| Files.UploadFile | backend/functions/files/uploadFile.js:18-86 | a falsy `fileName` or `fileType` gives 400 and writes nothing; a presigner error gives 500 "Failed to generate upload URL" and writes nothing; a store error gives the same 500; otherwise the response carries the URL minted for the object key and `fileType`, with a 3600-second expiry, and the same file id and key the stored metadata holds |
| Files.GetFiles | backend/functions/files/getFiles.js:13-47 | the response is 200 with only items under `COURSE#<courseId>` whose `SK` begins with `FILE#`, all of them, and `count` equal to their number; a store error gives 500 "Failed to get files" |
| Files.GetFileUrl | backend/functions/files/getFileUrl.js:16-71 | 404 "File not found" exactly when no item in the whole table has the `fileId`; otherwise the first such item in store order is used: its `fileKey` is presigned for an hour, and its `fileName`, `mimeType` and `fileSize` are copied unchanged; a presigner or store error gives 500 "Failed to get file URL" |
| Files.FilesNeverListAssignments | backend/functions/files/getFiles.js:15-19 | an item whose `SK` begins with `ASSIGNMENT#` never appears in a file listing |
| Files.UploadedFileIsListed | backend/functions/files/getFiles.js:15-19 | once the put has propagated to the listing's read, the metadata an upload wrote appears in its course's file listing |
| Files.UploadedFileIsFound | backend/functions/files/getFileUrl.js:16-55 | once the upload's put of a fresh file id has propagated to the scan, `getFileUrl` presigns the very object key the upload URL was minted for, and returns the uploaded name, type and size |
| Files.OnlyMatchIsFirst | backend/functions/files/getFileUrl.js:16-55 | when the stored item is the only one with the `fileId`, the scan finds it first and `getFileUrl` answers with its `fileKey`, `fileName`, `mimeType` and `fileSize` |
| Catalog.GetPublicCatalog | backend/functions/public/getPublicCatalog.js:11-46 | the response is 200 with `Cache-Control: public, max-age=10`, every course whose `isPublic` is the string "true" and no other, and `count` equal to their number; a store error gives 500 "Failed to get public catalog" |
| Catalog.ListedIffPublic | backend/functions/public/getPublicCatalog.js:14-17 | a stored course is listed exactly when its `isPublic` is "true" |
| Catalog.CreatedCourseListedIffPublic | backend/functions/public/getPublicCatalog.js:14-17 | once the create has propagated to the index, the course is listed exactly when the request's `isPublic` was truthy |
| Catalog.UpdatedCourseListedIffPublic | backend/functions/public/getPublicCatalog.js:14-17 | once the update has propagated to the index, a course is listed exactly when the update's `isPublic` was truthy or, when the update left it out, the course was already public; an update that sets it falsy hides the course |
| Catalog.FragmentCanBeListed | backend/functions/public/getPublicCatalog.js:11-18 | once the write has propagated, updating a course that was never created, with a truthy `isPublic`, puts an item that is not a well-formed course (no owner, id or creation time) into the public catalog |

## Left out

- Request parsing: `JSON.parse` failures, and a missing `pathParameters` or authorizer claim. In the source these throw into the handler's catch and become the 500 response. The model starts from the parsed body and the path values.
- Request bodies that are not JSON objects. The body is always an attribute map.
- The CORS and `Content-Type` headers. Only `Cache-Control`, the one header that differs between handlers, is modelled.
- Floating-point numbers, `NaN` and `-0`. Numbers are integers.
- The contents of nested objects. A non-array object is one always-truthy value whose string form is "[object Object]". Arrays keep their elements, and `${array}` joins them with ",". Nested arrays and objects inside an array are converted the same way. The cycle check `join` performs on self-containing arrays is left out: a parsed JSON body cannot contain a cycle.
- Read consistency. The list and lookup handlers use DynamoDB's default eventually consistent reads, and `PublicCoursesIndex`, a global secondary index, allows no other kind. In the model every read sees every completed write. The lemmas that follow a write with a read (`CreatedAssignmentIsListed`, `UploadedFileIsListed`, `UploadedFileIsFound`, `CreatedCourseListedIffPublic`, `UpdatedCourseListedIffPublic`, `FragmentCanBeListed`) therefore describe the table after the write has propagated. A read issued at once may still miss a new item or list a course just made private.
- The string form of numbers in the object key covers integers only.
- DynamoDB pagination, the 1 MB page limit and scan cost. Every query and scan returns one complete page.
- Any ordering a sort key imposes. The result order is the table's row order.
- The index projection of `PublicCoursesIndex`. The index returns whole items.
- The SDK's marshalling.
- Concurrent invocations and last-writer-wins between them.
- How the presigner builds URLs, and S3's enforcement of the one-hour expiry. The presigner is a function parameter; only the request passed to it is modelled.
- The format of UUIDs and ISO timestamps. Both are opaque string parameters.
- Files.FileKeysDistinct: object keys are proved distinct only for file ids of equal length. That `randomUUID()` always yields 36 characters, and that it never repeats, are assumptions about the generator, which is not modelled.
- Logging (`console.log` / `console.error`).
- The React frontend and its API and auth service wrappers. These are not part of this model.
- Course deletion, assignment deletion and course listing, which the frontend calls. No handler for them exists in the code modelled here.
- Courses.BuildCourseUpdate, Assignments.BuildAssignmentUpdate: the clause order and the text of the joined `SET` string are not stated. The contract states what the expression writes, not how it is spelled.
