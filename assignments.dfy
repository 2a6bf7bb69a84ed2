/**
 * Assignments: `createAssignment`, `updateAssignment` and `getAssignments`.
 * An assignment lives in the assignments table under `PK = COURSE#<courseId>`,
 * `SK = ASSIGNMENT#<assignmentId>`.
 */
module Assignments {
  import opened Wrappers
  import opened Js
  import opened UpdateExpressions
  import opened Store
  import opened Http

  /** The body fields `updateAssignment` copies into the item when present. */
  const AssignmentFields: seq<string> := ["title", "description", "dueDate", "status"]

  function AssignmentKey(courseId: string, assignmentId: string): Key {
    Key("COURSE#" + courseId, "ASSIGNMENT#" + assignmentId)
  }

  /** The query `getAssignments` runs: `PK = COURSE#<courseId> AND begins_with(SK, 'ASSIGNMENT#')`. */
  function CourseAssignments(courseId: string): Condition {
    KeyBeginsWith("COURSE#" + courseId, "ASSIGNMENT#")
  }

  // ---------------------------------------------------------------------
  // createAssignment

  /** `!body.title || !body.dueDate` rejects the request. */
  predicate AssignmentRequestValid(body: Object) {
    Truthy(Prop(body, "title")) && Truthy(Prop(body, "dueDate"))
  }

  /** The assignment item `createAssignment` writes, for a generated id and the current time. */
  function NewAssignment(courseId: string, assignmentId: string, timestamp: string, body: Object): (a: Item)
    ensures HasKey(a) && KeyOf(a) == AssignmentKey(courseId, assignmentId)
    ensures Prop(a, "courseId") == Str(courseId)
  {
    map[
      "PK" := Str("COURSE#" + courseId),
      "SK" := Str("ASSIGNMENT#" + assignmentId),
      "assignmentId" := Str(assignmentId),
      "courseId" := Str(courseId),
      "title" := Prop(body, "title"),
      "description" := Or(Prop(body, "description"), Str("")),
      "dueDate" := Prop(body, "dueDate"),
      "status" := Or(Prop(body, "status"), Str("pending")),
      "createdAt" := Str(timestamp)
    ]
  }

  /**
   * The new assignment records its id, carries the required fields as
   * given, and has a creation time but no update time.
   */
  lemma NewAssignmentFields(courseId: string, assignmentId: string, timestamp: string, body: Object)
    ensures var a := NewAssignment(courseId, assignmentId, timestamp, body);
            && Prop(a, "assignmentId") == Str(assignmentId)
            && Prop(a, "title") == Prop(body, "title") && Prop(a, "dueDate") == Prop(body, "dueDate")
            && Prop(a, "createdAt") == Str(timestamp) && "updatedAt" !in a
  {
  }

  /** A falsy `description` becomes "" and a falsy `status` becomes "pending". */
  lemma NewAssignmentDefaults(courseId: string, assignmentId: string, timestamp: string, body: Object)
    ensures var a := NewAssignment(courseId, assignmentId, timestamp, body);
            && Prop(a, "description") == (if Truthy(Prop(body, "description")) then Prop(body, "description") else Str(""))
            && Prop(a, "status") == (if Truthy(Prop(body, "status")) then Prop(body, "status") else Str("pending"))
  {
  }

  /**
   * The `createAssignment` handler. `assignmentId` and `timestamp` stand for
   * the generated UUID and the current time; `failure` is the error the
   * store throws, if any.
   */
  method CreateAssignment(t: Table, courseId: string, assignmentId: string, timestamp: string, body: Object,
                          failure: Option<string>) returns (r: Response)
    requires t.Valid()
    modifies t
    ensures t.Valid()
    ensures !AssignmentRequestValid(body) ==>
              r == BadRequest("Missing required fields: title and dueDate") && t.rows == old(t.rows)
    ensures AssignmentRequestValid(body) && failure.Some? ==>
              r == ServerError("Failed to create assignment", failure.value) && t.rows == old(t.rows)
    ensures AssignmentRequestValid(body) && failure.None? ==>
              var a := NewAssignment(courseId, assignmentId, timestamp, body);
              r == Created(a) && t.rows == Upsert(old(t.rows), a)
  {
    if !AssignmentRequestValid(body) {
      return BadRequest("Missing required fields: title and dueDate");
    }
    var assignment := NewAssignment(courseId, assignmentId, timestamp, body);
    var err := t.Put(assignment, failure);
    if err.Some? {
      return ServerError("Failed to create assignment", err.value);
    }
    r := Created(assignment);
  }

  // ---------------------------------------------------------------------
  // updateAssignment

  /** The fields of `fs` the body does not leave `undefined`, with the body's values. */
  function AssignmentSets(body: Object, fs: seq<string>): map<string, Value> {
    map f | f in fs && Prop(body, f) != Undefined :: Prop(body, f)
  }

  /** What an update of an assignment writes: the listed fields present in the body, and nothing else. */
  function AssignmentChanges(body: Object): map<string, Value> {
    AssignmentSets(body, AssignmentFields)
  }

  /** No listed field is present: the update would be empty. */
  predicate NothingToUpdate(body: Object) {
    forall j :: 0 <= j < |AssignmentFields| ==> Prop(body, AssignmentFields[j]) == Undefined
  }

  /**
   * The `SET` expression `updateAssignment` builds from a sparse body: one
   * `#f = :f` clause per listed field the body carries, in list order. It is
   * consistent, writes exactly `AssignmentChanges`, and has no clause
   * exactly when no listed field is present.
   */
  method BuildAssignmentUpdate(body: Object) returns (u: UpdateInstruction)
    ensures Consistent(u)
    ensures Assigned(u) == AssignmentChanges(body)
    ensures |u.clauses| == 0 <==> NothingToUpdate(body)
  {
    u := EmptyUpdate;
    AssignmentFieldsReady();
    for k := 0 to |AssignmentFields|
      invariant ReadyFrom(u, AssignmentFields, k)
      invariant Assigned(u) == AssignmentSets(body, AssignmentFields[..k])
      invariant |u.clauses| == 0 <==> forall j :: 0 <= j < k ==> Prop(body, AssignmentFields[j]) == Undefined
    {
      var f := AssignmentFields[k];
      AssignmentSetsSnoc(body, AssignmentFields, k);
      WithKeepsReady(u, AssignmentFields, k, Prop(body, f));
      if Prop(body, f) != Undefined {
        u := With(u, f, Prop(body, f));
      }
    }
    assert AssignmentFields[..|AssignmentFields|] == AssignmentFields;
  }

  /** Before the first push every listed field can be added. */
  lemma AssignmentFieldsReady()
    ensures ReadyFrom(EmptyUpdate, AssignmentFields, 0)
  {
  }

  /** Taking one more field of the list into account adds it when the body carries it. */
  lemma AssignmentSetsSnoc(body: Object, fs: seq<string>, k: nat)
    requires k < |fs|
    ensures AssignmentSets(body, fs[..k + 1]) ==
              if Prop(body, fs[k]) != Undefined then AssignmentSets(body, fs[..k])[fs[k] := Prop(body, fs[k])]
              else AssignmentSets(body, fs[..k])
  {
    assert fs[..k + 1] == fs[..k] + [fs[k]];
  }

  /**
   * The `updateAssignment` handler: a falsy `courseId` in the body is
   * rejected first, then an update with no listed field; otherwise the
   * update is applied under the key built from the body's `courseId`.
   */
  method UpdateAssignment(t: Table, assignmentId: string, body: Object, failure: Option<string>)
    returns (r: Response)
    requires t.Valid()
    modifies t
    ensures t.Valid()
    ensures !Truthy(Prop(body, "courseId")) ==>
              r == BadRequest("courseId required in body") && t.rows == old(t.rows)
    ensures Truthy(Prop(body, "courseId")) && NothingToUpdate(body) ==>
              r == BadRequest("No fields to update") && t.rows == old(t.rows)
    ensures Truthy(Prop(body, "courseId")) && !NothingToUpdate(body) && failure.Some? ==>
              r == ServerError("Failed to update assignment", failure.value) && t.rows == old(t.rows)
    ensures Truthy(Prop(body, "courseId")) && !NothingToUpdate(body) && failure.None? ==>
              var k := AssignmentKey(ToString(Prop(body, "courseId")), assignmentId);
              var item := Updated(old(t.rows), k, AssignmentChanges(body));
              r == OkItem(item) && t.rows == Upsert(old(t.rows), item)
  {
    if !Truthy(Prop(body, "courseId")) {
      return BadRequest("courseId required in body");
    }
    var u := BuildAssignmentUpdate(body);
    if |u.clauses| == 0 {
      return BadRequest("No fields to update");
    }
    var res := t.Update(AssignmentKey(ToString(Prop(body, "courseId")), assignmentId), u, failure);
    match res
    case Err(msg) =>
      r := ServerError("Failed to update assignment", msg);
    case Ok(item) =>
      r := OkItem(item);
  }

  // ---------------------------------------------------------------------
  // getAssignments

  /**
   * The `getAssignments` handler over a snapshot of the assignments table:
   * every assignment of the course and nothing else, with its count.
   */
  function GetAssignments(rows: seq<Item>, courseId: string, failure: Option<string>): (r: Response)
    ensures failure.Some? ==> r == ServerError("Failed to get assignments", failure.value)
    ensures failure.None? ==> r.status == 200 && r.body.ListBody? && r.body.listName == "assignments"
    ensures failure.None? ==> r.body.count == |r.body.items|
    ensures failure.None? ==> forall x :: x in r.body.items ==>
              x in rows && Prop(x, "PK") == Str("COURSE#" + courseId)
              && Prop(x, "SK").Str? && "ASSIGNMENT#" <= Prop(x, "SK").s
    ensures failure.None? ==> forall i :: 0 <= i < |rows| && Matches(rows[i], CourseAssignments(courseId)) ==>
              rows[i] in r.body.items
  {
    match failure
    case Some(msg) => ServerError("Failed to get assignments", msg)
    case None => Listing("assignments", Select(rows, CourseAssignments(courseId)))
  }

  // ---------------------------------------------------------------------
  // Properties across handlers

  /** An update only writes listed fields: `courseId`, the key and `createdAt` keep their values. */
  lemma UpdateTouchesOnlyListedFields(a: Item, body: Object)
    ensures forall f :: f in AssignmentChanges(body) ==> f in AssignmentFields
    ensures forall f :: f in a && f !in AssignmentFields ==> (a + AssignmentChanges(body))[f] == a[f]
    ensures "updatedAt" !in AssignmentChanges(body) && "courseId" !in AssignmentChanges(body)
  {
  }

  /**
   * The key `updateAssignment` addresses, given the same course and
   * assignment ids, is the one `createAssignment` wrote: the update changes
   * that very item and keeps its key, `courseId` and `createdAt`.
   */
  lemma UpdateAddressesCreatedAssignment(rows: seq<Item>, courseId: string, assignmentId: string,
                                         timestamp: string, body: Object, update: Object)
    requires WellKeyed(rows)
    requires Prop(update, "courseId") == Str(courseId)
    ensures var a := NewAssignment(courseId, assignmentId, timestamp, body);
            var k := AssignmentKey(ToString(Prop(update, "courseId")), assignmentId);
            Updated(Upsert(rows, a), k, AssignmentChanges(update)) == a + AssignmentChanges(update)
  {
    var a := NewAssignment(courseId, assignmentId, timestamp, body);
    LookupUpsert(rows, a, AssignmentKey(courseId, assignmentId));
  }

  /** Once a create is visible to the query, the assignment is listed for its course. */
  lemma CreatedAssignmentIsListed(rows: seq<Item>, courseId: string, assignmentId: string,
                                  timestamp: string, body: Object)
    requires WellKeyed(rows)
    ensures NewAssignment(courseId, assignmentId, timestamp, body) in
              GetAssignments(Upsert(rows, NewAssignment(courseId, assignmentId, timestamp, body)), courseId, None).body.items
  {
    var a := NewAssignment(courseId, assignmentId, timestamp, body);
    var r := Upsert(rows, a);
    var i :| 0 <= i < |r| && r[i] == a;
    assert "ASSIGNMENT#" <= "ASSIGNMENT#" + assignmentId;
    assert Matches(r[i], CourseAssignments(courseId));
  }

  /**
   * Updating an assignment that does not exist creates a fragment: an item
   * holding only the key and the written fields. The store's update has no
   * condition that would make it fail instead.
   */
  lemma UpdateOfMissingAssignmentCreatesFragment(rows: seq<Item>, k: Key, body: Object)
    requires WellKeyed(rows) && Lookup(rows, k).None?
    ensures var item := Updated(rows, k, AssignmentChanges(body));
            item == map["PK" := Str(k.pk), "SK" := Str(k.sk)] + AssignmentChanges(body)
            && "createdAt" !in item && "courseId" !in item
  {
  }

  /**
   * A `courseId` sent as a one-element array passes the guard and, read
   * through the template literal, addresses the same key as the bare string.
   */
  lemma ArrayCourseIdAddressesSameKey(body: Object, courseId: string, assignmentId: string)
    requires Prop(body, "courseId") == Arr([Str(courseId)])
    ensures Truthy(Prop(body, "courseId"))
    ensures AssignmentKey(ToString(Prop(body, "courseId")), assignmentId) == AssignmentKey(courseId, assignmentId)
  {
    ArrayToString(Str(courseId));
  }
}
