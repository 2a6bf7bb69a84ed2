/**
 * The public catalog: `getPublicCatalog` reads the courses table through
 * its `PublicCoursesIndex`, whose key is the `isPublic` string, and lists
 * every course stored with `isPublic = "true"`.
 */
module Catalog {
  import opened Wrappers
  import opened Js
  import opened Store
  import opened Http
  import opened Courses

  /** The index query `isPublic = :isPublic` with `:isPublic` bound to "true". */
  const PublicCourses: Condition := AttrEquals("isPublic", Str("true"))

  /**
   * The `getPublicCatalog` handler over a snapshot of the courses table:
   * every public course and nothing else, with its count, cacheable for ten
   * seconds.
   */
  function GetPublicCatalog(rows: seq<Item>, failure: Option<string>): (r: Response)
    ensures failure.Some? ==> r == ServerError("Failed to get public catalog", failure.value)
    ensures failure.None? ==>
              && r.status == 200 && r.cacheControl == Some("public, max-age=10")
              && r.body.ListBody? && r.body.listName == "courses" && r.body.count == |r.body.items|
    ensures failure.None? ==> forall x :: x in r.body.items ==> x in rows && Prop(x, "isPublic") == Str("true")
    ensures failure.None? ==> forall i :: 0 <= i < |rows| && Prop(rows[i], "isPublic") == Str("true") ==>
              rows[i] in r.body.items
  {
    match failure
    case Some(msg) => ServerError("Failed to get public catalog", msg)
    case None =>
      var courses := Select(rows, PublicCourses);
      Response(200, Some("public, max-age=10"), ListBody("courses", courses, |courses|))
  }

  /** A stored course is in the catalog exactly when its `isPublic` is the string "true". */
  lemma ListedIffPublic(rows: seq<Item>, i: nat)
    requires i < |rows|
    ensures rows[i] in GetPublicCatalog(rows, None).body.items <==> Prop(rows[i], "isPublic") == Str("true")
  {
  }

  /** Once the create is visible to the index read, the course is listed exactly when the request's `isPublic` was truthy. */
  lemma CreatedCourseListedIffPublic(rows: seq<Item>, userId: string, courseId: string, timestamp: string,
                                     body: Object)
    requires WellKeyed(rows)
    ensures var c := NewCourse(userId, courseId, timestamp, body);
            c in GetPublicCatalog(Upsert(rows, c), None).body.items <==> Truthy(Prop(body, "isPublic"))
  {
    var c := NewCourse(userId, courseId, timestamp, body);
    NewCourseDefaults(userId, courseId, timestamp, body);
    var after := Upsert(rows, c);
    var i :| 0 <= i < |after| && after[i] == c;
    ListedIffPublic(after, i);
  }

  /**
   * Once the update is visible to the index read, the course is listed exactly when it was public and the
   * update left `isPublic` out, or the update's `isPublic` was truthy: an
   * update that sets it falsy hides the course.
   */
  lemma UpdatedCourseListedIffPublic(rows: seq<Item>, userId: string, courseId: string, body: Object, now: string)
    requires WellKeyed(rows)
    ensures var k := CourseKey(userId, courseId);
            var c := Updated(rows, k, CourseChanges(body, now));
            c in GetPublicCatalog(Upsert(rows, c), None).body.items <==>
              if Prop(body, "isPublic") == Undefined then Prop(Base(rows, k), "isPublic") == Str("true")
              else Truthy(Prop(body, "isPublic"))
  {
    var k := CourseKey(userId, courseId);
    var changes := CourseChanges(body, now);
    CourseChangesDomain(body, now);
    var c := Updated(rows, k, changes);
    assert Prop(c, "isPublic") == if "isPublic" in changes then changes["isPublic"] else Prop(Base(rows, k), "isPublic");
    var after := Upsert(rows, c);
    var i :| 0 <= i < |after| && after[i] == c;
    ListedIffPublic(after, i);
  }

  /**
   * Updating a course that was never created, with a truthy `isPublic`,
   * puts into the public catalog an item that is not a well-formed course:
   * it has no owner, id or creation time.
   */
  lemma FragmentCanBeListed(rows: seq<Item>, userId: string, courseId: string, body: Object, now: string)
    requires WellKeyed(rows) && Lookup(rows, CourseKey(userId, courseId)).None?
    requires Truthy(Prop(body, "isPublic"))
    ensures var c := Updated(rows, CourseKey(userId, courseId), CourseChanges(body, now));
            c in GetPublicCatalog(Upsert(rows, c), None).body.items && !CourseShape(c)
  {
    UpdatedCourseListedIffPublic(rows, userId, courseId, body, now);
    UpdateOfMissingCourseCreatesFragment(rows, userId, courseId, body, now);
  }
}
