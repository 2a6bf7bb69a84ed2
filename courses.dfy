/**
 * Courses: `createCourse` and `updateCourse`. A course lives in the courses
 * table under `PK = USER#<owner>`, `SK = COURSE#<courseId>`; `isPublic` is
 * kept as the string "true" or "false" because the public catalog index is
 * keyed on that string.
 */
module Courses {
  import opened Wrappers
  import opened Js
  import opened UpdateExpressions
  import opened Store
  import opened Http

  /** The body fields `updateCourse` copies into the item when present. */
  const CourseFields: seq<string> := ["title", "description", "instructor", "semester", "credits", "isPublic"]

  function CourseKey(userId: string, courseId: string): Key {
    Key("USER#" + userId, "COURSE#" + courseId)
  }

  /**
   * What every stored course keeps: its key is built from its own `userId`
   * and `courseId` attributes, and `isPublic` is exactly "true" or "false".
   */
  predicate CourseShape(item: Item) {
    && HasKey(item)
    && Prop(item, "userId").Str? && Prop(item, "courseId").Str?
    && KeyOf(item) == CourseKey(item["userId"].s, item["courseId"].s)
    && (Prop(item, "isPublic") == Str("true") || Prop(item, "isPublic") == Str("false"))
  }

  // ---------------------------------------------------------------------
  // createCourse

  /** `!body.title || !body.semester` rejects the request. */
  predicate CourseRequestValid(body: Object) {
    Truthy(Prop(body, "title")) && Truthy(Prop(body, "semester"))
  }

  /** The course item `createCourse` writes, for a generated id and the current time. */
  function NewCourse(userId: string, courseId: string, timestamp: string, body: Object): (c: Item)
    ensures CourseShape(c) && KeyOf(c) == CourseKey(userId, courseId)
  {
    map[
      "PK" := Str("USER#" + userId),
      "SK" := Str("COURSE#" + courseId),
      "courseId" := Str(courseId),
      "userId" := Str(userId),
      "title" := Prop(body, "title"),
      "description" := Or(Prop(body, "description"), Str("")),
      "instructor" := Or(Prop(body, "instructor"), Str("")),
      "semester" := Prop(body, "semester"),
      "credits" := Or(Prop(body, "credits"), Num(0)),
      "isPublic" := Str(BoolString(Prop(body, "isPublic"))),
      "createdAt" := Str(timestamp),
      "updatedAt" := Str(timestamp)
    ]
  }

  /**
   * The new course records its owner and id as the key does, carries the
   * required fields as given, and is created and updated at the same time.
   */
  lemma NewCourseFields(userId: string, courseId: string, timestamp: string, body: Object)
    ensures var c := NewCourse(userId, courseId, timestamp, body);
            && Prop(c, "userId") == Str(userId) && Prop(c, "courseId") == Str(courseId)
            && Prop(c, "title") == Prop(body, "title") && Prop(c, "semester") == Prop(body, "semester")
            && Prop(c, "createdAt") == Prop(c, "updatedAt") == Str(timestamp)
  {
  }

  /**
   * The optional fields of a new course: a falsy `description` or
   * `instructor` becomes "", a falsy `credits` becomes 0, and `isPublic` is
   * "true" exactly when the body's value is truthy.
   */
  lemma NewCourseDefaults(userId: string, courseId: string, timestamp: string, body: Object)
    ensures var c := NewCourse(userId, courseId, timestamp, body);
            && Prop(c, "description") == (if Truthy(Prop(body, "description")) then Prop(body, "description") else Str(""))
            && Prop(c, "instructor") == (if Truthy(Prop(body, "instructor")) then Prop(body, "instructor") else Str(""))
            && Prop(c, "credits") == (if Truthy(Prop(body, "credits")) then Prop(body, "credits") else Num(0))
            && (Prop(c, "isPublic") == Str("true") <==> Truthy(Prop(body, "isPublic")))
  {
  }

  /**
   * The `createCourse` handler. `courseId` and `timestamp` stand for the
   * generated UUID and the current time; `failure` is the error the store
   * throws, if any.
   */
  method CreateCourse(t: Table, userId: string, courseId: string, timestamp: string, body: Object,
                      failure: Option<string>) returns (r: Response)
    requires t.Valid()
    modifies t
    ensures t.Valid()
    ensures !CourseRequestValid(body) ==>
              r == BadRequest("Missing required fields: title and semester") && t.rows == old(t.rows)
    ensures CourseRequestValid(body) && failure.Some? ==>
              r == ServerError("Failed to create course", failure.value) && t.rows == old(t.rows)
    ensures CourseRequestValid(body) && failure.None? ==>
              var c := NewCourse(userId, courseId, timestamp, body);
              r == Created(c) && t.rows == Upsert(old(t.rows), c)
  {
    if !CourseRequestValid(body) {
      return BadRequest("Missing required fields: title and semester");
    }
    var course := NewCourse(userId, courseId, timestamp, body);
    var err := t.Put(course, failure);
    if err.Some? {
      return ServerError("Failed to create course", err.value);
    }
    r := Created(course);
  }

  // ---------------------------------------------------------------------
  // updateCourse

  /** The value a present field is stored as: `isPublic` normalised, the rest as given. */
  function CourseValue(field: string, v: Value): Value {
    if field == "isPublic" then Str(BoolString(v)) else v
  }

  /** The fields of `fs` the body does not leave `undefined`, with the values they are stored as. */
  function CourseSets(body: Object, fs: seq<string>): map<string, Value> {
    map f | f in fs && Prop(body, f) != Undefined :: CourseValue(f, Prop(body, f))
  }

  /** What an update of a course writes: the fields present in the body, and always `updatedAt`. */
  function CourseChanges(body: Object, now: string): map<string, Value> {
    CourseSets(body, CourseFields)["updatedAt" := Str(now)]
  }

  /** Every attribute the course update may write, in the order it pushes them. */
  const CourseAttrs: seq<string> := CourseFields + ["updatedAt"]

  /**
   * The `SET` expression `updateCourse` builds from a sparse body: one
   * `#f = :f` clause per listed field the body carries, in list order, then
   * `#updatedAt = :updatedAt`. The store accepts it, and it writes exactly
   * `CourseChanges`.
   */
  method BuildCourseUpdate(body: Object, now: string) returns (u: UpdateInstruction)
    ensures Accepted(u)
    ensures Assigned(u) == CourseChanges(body, now)
  {
    u := EmptyUpdate;
    CourseAttrsReady();
    for k := 0 to |CourseFields|
      invariant ReadyFrom(u, CourseAttrs, k)
      invariant Assigned(u) == CourseSets(body, CourseFields[..k])
    {
      var f := CourseFields[k];
      assert CourseAttrs[k] == f;
      CourseSetsSnoc(body, CourseFields, k);
      WithKeepsReady(u, CourseAttrs, k, CourseValue(f, Prop(body, f)));
      if Prop(body, f) != Undefined {
        u := With(u, f, CourseValue(f, Prop(body, f)));
      }
    }
    assert CourseFields[..|CourseFields|] == CourseFields;
    assert CourseAttrs[|CourseFields|] == "updatedAt";
    u := With(u, "updatedAt", Str(now));
  }

  /** Before the first push every attribute of the course update can be added. */
  lemma CourseAttrsReady()
    ensures ReadyFrom(EmptyUpdate, CourseAttrs, 0)
  {
  }

  /** Taking one more field of the list into account adds it when the body carries it. */
  lemma CourseSetsSnoc(body: Object, fs: seq<string>, k: nat)
    requires k < |fs|
    ensures CourseSets(body, fs[..k + 1]) ==
              if Prop(body, fs[k]) != Undefined then CourseSets(body, fs[..k])[fs[k] := CourseValue(fs[k], Prop(body, fs[k]))]
              else CourseSets(body, fs[..k])
  {
    assert fs[..k + 1] == fs[..k] + [fs[k]];
  }

  /** The update always names `updatedAt`, and names a listed field exactly when the body carries it. */
  lemma CourseChangesDomain(body: Object, now: string)
    ensures "updatedAt" in CourseChanges(body, now)
    ensures forall f :: f in CourseFields ==> (f in CourseChanges(body, now) <==> Prop(body, f) != Undefined)
    ensures forall f :: f in CourseChanges(body, now) ==> f in CourseAttrs
  {
  }

  /** An empty body still makes an update: it writes `updatedAt` and nothing else. */
  lemma EmptyCourseUpdate(now: string)
    ensures CourseChanges(map[], now) == map["updatedAt" := Str(now)]
  {
    assert CourseSets(map[], CourseFields) == map[];
  }

  /**
   * The `updateCourse` handler. The "No fields to update" branch is kept as
   * the source has it; `BuildCourseUpdate` always pushes `updatedAt`, so it
   * is never taken and the handler never answers 400.
   */
  method UpdateCourse(t: Table, userId: string, courseId: string, body: Object, now: string,
                      failure: Option<string>) returns (r: Response)
    requires t.Valid()
    modifies t
    ensures t.Valid()
    ensures r.status == 200 || r.status == 500
    ensures failure.Some? ==> r == ServerError("Failed to update course", failure.value) && t.rows == old(t.rows)
    ensures failure.None? ==>
              var item := Updated(old(t.rows), CourseKey(userId, courseId), CourseChanges(body, now));
              r == OkItem(item) && t.rows == Upsert(old(t.rows), item)
  {
    var u := BuildCourseUpdate(body, now);
    if |u.clauses| == 0 {
      return BadRequest("No fields to update");
    }
    var res := t.Update(CourseKey(userId, courseId), u, failure);
    match res
    case Err(msg) =>
      r := ServerError("Failed to update course", msg);
    case Ok(item) =>
      r := OkItem(item);
  }

  /** An update keeps a course's key, owner and id consistent and `isPublic` "true" or "false". */
  lemma UpdateKeepsCourseShape(c: Item, body: Object, now: string)
    requires CourseShape(c)
    ensures CourseShape(c + CourseChanges(body, now))
  {
    var changes := CourseChanges(body, now);
    CourseChangesDomain(body, now);
    assert "PK" !in changes && "SK" !in changes && "userId" !in changes && "courseId" !in changes;
    var n := c + changes;
    assert n["PK"] == c["PK"] && n["SK"] == c["SK"] && n["userId"] == c["userId"] && n["courseId"] == c["courseId"];
    assert "isPublic" in changes ==> n["isPublic"] == Str(BoolString(Prop(body, "isPublic")));
  }

  /**
   * An update leaves every attribute it does not list (the key, `userId`,
   * `courseId`, `createdAt`, ...) as it was.
   */
  lemma UpdateKeepsUnlistedAttributes(c: Item, body: Object, now: string)
    ensures forall a :: a in c && a !in CourseFields && a != "updatedAt" ==> (c + CourseChanges(body, now))[a] == c[a]
  {
    CourseChangesDomain(body, now);
  }

  /**
   * The key `updateCourse` addresses is the one `createCourse` wrote: after
   * a create, an update of the same owner and id changes that very item.
   */
  lemma UpdateAddressesCreatedCourse(rows: seq<Item>, userId: string, courseId: string, timestamp: string,
                                     body: Object, update: Object, now: string)
    requires WellKeyed(rows)
    ensures var c := NewCourse(userId, courseId, timestamp, body);
            Updated(Upsert(rows, c), CourseKey(userId, courseId), CourseChanges(update, now))
            == c + CourseChanges(update, now)
  {
    var c := NewCourse(userId, courseId, timestamp, body);
    LookupUpsert(rows, c, CourseKey(userId, courseId));
  }

  /**
   * Updating a course that does not exist creates a fragment instead of
   * failing: an item holding only the key, the written fields and
   * `updatedAt`, without the owner and id attributes a course carries.
   */
  lemma UpdateOfMissingCourseCreatesFragment(rows: seq<Item>, userId: string, courseId: string,
                                             body: Object, now: string)
    requires WellKeyed(rows) && Lookup(rows, CourseKey(userId, courseId)).None?
    ensures var item := Updated(rows, CourseKey(userId, courseId), CourseChanges(body, now));
            && "userId" !in item && "courseId" !in item && "createdAt" !in item
            && !CourseShape(item)
  {
    var changes := CourseChanges(body, now);
    CourseChangesDomain(body, now);
    assert "userId" !in changes && "courseId" !in changes && "createdAt" !in changes;
  }
}
