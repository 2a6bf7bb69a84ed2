/**
 * An in-memory stand-in for one DynamoDB table as the handlers use it:
 * items keyed by a string partition key `PK` and sort key `SK`, written by
 * `PutCommand` (overwrite or create), changed by `UpdateCommand` with a
 * `SET #f = :f, ...` expression, and read back by key-prefix query,
 * secondary-index equality query or filtered scan.
 *
 * The table is a sequence of rows; its order stands for whatever order the
 * store returns items in, and is the order "the first matching item" refers to.
 */
module Store {
  import opened Wrappers
  import opened Js
  import opened UpdateExpressions

  /** A schemaless item: attribute name to value. */
  type Item = map<string, Value>

  datatype Key = Key(pk: string, sk: string)

  /** The item carries a primary key: string `PK` and `SK` attributes. */
  predicate HasKey(item: Item) {
    "PK" in item && item["PK"].Str? && "SK" in item && item["SK"].Str?
  }

  function KeyOf(item: Item): Key
    requires HasKey(item)
  {
    Key(item["PK"].s, item["SK"].s)
  }

  predicate AllKeyed(rows: seq<Item>) {
    forall i :: 0 <= i < |rows| ==> HasKey(rows[i])
  }

  /** Every row is keyed and no two rows share a key: a map from (PK, SK) to item. */
  predicate WellKeyed(rows: seq<Item>) {
    && AllKeyed(rows)
    && forall i, j :: 0 <= i < j < |rows| ==> KeyOf(rows[i]) != KeyOf(rows[j])
  }

  /** The item stored under key `k`, if any. */
  function Lookup(rows: seq<Item>, k: Key): (r: Option<Item>)
    requires AllKeyed(rows)
    ensures r.Some? ==> r.value in rows && KeyOf(r.value) == k
    ensures r.None? ==> forall i :: 0 <= i < |rows| ==> KeyOf(rows[i]) != k
  {
    if rows == [] then None
    else if KeyOf(rows[0]) == k then Some(rows[0])
    else Lookup(rows[1..], k)
  }

  /** `PutCommand`: replace the item with the same key, or add it. */
  function Upsert(rows: seq<Item>, item: Item): (r: seq<Item>)
    requires WellKeyed(rows) && HasKey(item)
    ensures WellKeyed(r)
    ensures item in r
    ensures forall x :: x in r ==> x == item || (x in rows && KeyOf(x) != KeyOf(item))
    ensures forall x :: x in rows && KeyOf(x) != KeyOf(item) ==> x in r
  {
    if rows == [] then [item]
    else if KeyOf(rows[0]) == KeyOf(item) then
      assert forall x :: x in rows[1..] ==> KeyOf(x) != KeyOf(item) by {
        forall x | x in rows[1..] ensures KeyOf(x) != KeyOf(item) {
          var j :| 0 <= j < |rows[1..]| && rows[1..][j] == x;
          assert rows[j + 1] == x;
        }
      }
      [item] + rows[1..]
    else
      var rest := Upsert(rows[1..], item);
      assert forall x :: x in rest ==> KeyOf(x) != KeyOf(rows[0]) by {
        forall x | x in rest ensures KeyOf(x) != KeyOf(rows[0]) {
          if x != item {
            var j :| 0 <= j < |rows[1..]| && rows[1..][j] == x;
            assert rows[j + 1] == x;
          }
        }
      }
      [rows[0]] + rest
  }

  /** After a put, the key of the item addresses that item and every other key is untouched. */
  lemma {:induction false} LookupUpsert(rows: seq<Item>, item: Item, k: Key)
    requires WellKeyed(rows) && HasKey(item)
    ensures Lookup(Upsert(rows, item), k) == if k == KeyOf(item) then Some(item) else Lookup(rows, k)
  {
    var r := Upsert(rows, item);
    if k == KeyOf(item) {
      var i :| 0 <= i < |r| && r[i] == item;
    } else if Lookup(rows, k).Some? {
      var v := Lookup(rows, k).value;
      assert v in r;
    }
  }

  // ---------------------------------------------------------------------
  // Queries

  /** The conditions the handlers query with. */
  datatype Condition =
    | KeyBeginsWith(pk: string, skPrefix: string)  // `PK = :pk AND begins_with(SK, :sk)`
    | AttrEquals(attr: string, value: Value)       // index key or scan filter `attr = :v`

  predicate Matches(item: Item, c: Condition) {
    match c
    case KeyBeginsWith(pk, pre) =>
      Prop(item, "PK") == Str(pk) && Prop(item, "SK").Str? && pre <= Prop(item, "SK").s
    case AttrEquals(a, v) => Prop(item, a) == v
  }

  /**
   * The items of a query or filtered scan, in store order, as one complete
   * page: exactly the matching rows (each as often as the table holds it,
   * `SelectMultiplicity`).
   */
  function Select(rows: seq<Item>, c: Condition): (r: seq<Item>)
    ensures |r| <= |rows|
    ensures forall x :: x in r ==> x in rows && Matches(x, c)
    ensures forall i :: 0 <= i < |rows| && Matches(rows[i], c) ==> rows[i] in r
  {
    if rows == [] then []
    else
      var rest := Select(rows[1..], c);
      assert forall i :: 1 <= i < |rows| ==> rows[i] == rows[1..][i - 1];
      if Matches(rows[0], c) then [rows[0]] + rest else rest
  }

  /**
   * A selection holds each matching row as often as the table does and no
   * other row, so its length is the number of matching rows.
   */
  lemma {:induction false} SelectMultiplicity(rows: seq<Item>, c: Condition)
    ensures forall x :: multiset(Select(rows, c))[x] == if Matches(x, c) then multiset(rows)[x] else 0
  {
    if rows != [] {
      SelectMultiplicity(rows[1..], c);
      assert rows == [rows[0]] + rows[1..];
      assert multiset(rows) == multiset([rows[0]]) + multiset(rows[1..]);
      if Matches(rows[0], c) {
        var rest := Select(rows[1..], c);
        assert multiset([rows[0]] + rest) == multiset([rows[0]]) + multiset(rest);
      }
    }
  }

  /** The first item of a selection is the first matching row. */
  lemma {:induction false} SelectFirst(rows: seq<Item>, c: Condition, i: nat)
    requires i < |rows| && Matches(rows[i], c)
    requires forall j :: 0 <= j < i ==> !Matches(rows[j], c)
    ensures Select(rows, c) != [] && Select(rows, c)[0] == rows[i]
  {
    if i > 0 {
      assert !Matches(rows[0], c);
      assert forall j :: 0 <= j < i - 1 ==> rows[1..][j] == rows[j + 1];
      SelectFirst(rows[1..], c, i - 1);
    }
  }

  /** The item an update starts from: the stored one, or a bare key when there is none. */
  function Base(rows: seq<Item>, k: Key): (b: Item)
    requires AllKeyed(rows)
    ensures HasKey(b) && KeyOf(b) == k
  {
    match Lookup(rows, k)
    case Some(item) => item
    case None => map["PK" := Str(k.pk), "SK" := Str(k.sk)]
  }

  /** The item after setting `changes` on key `k` (`ReturnValues: 'ALL_NEW'`). */
  function Updated(rows: seq<Item>, k: Key, changes: map<string, Value>): (item: Item)
    requires AllKeyed(rows)
    requires "PK" !in changes && "SK" !in changes
    ensures HasKey(item) && KeyOf(item) == k
    ensures forall a :: a in changes ==> a in item && item[a] == changes[a]
  {
    Base(rows, k) + changes
  }

  // ---------------------------------------------------------------------
  // The table

  class Table {
    var rows: seq<Item>

    ghost predicate Valid()
      reads this
    {
      WellKeyed(rows)
    }

    constructor ()
      ensures Valid() && rows == []
    {
      rows := [];
    }

    /** `PutCommand`; `failure` is the error the store throws, if it throws one. */
    method Put(item: Item, failure: Option<string>) returns (err: Option<string>)
      requires Valid() && HasKey(item)
      modifies this
      ensures Valid() && err == failure
      ensures rows == if failure.Some? then old(rows) else Upsert(old(rows), item)
    {
      err := failure;
      if failure.None? {
        rows := Upsert(rows, item);
      }
    }

    /**
     * `UpdateCommand` with `ReturnValues: 'ALL_NEW'` and no condition: an
     * instruction the store accepts is applied to the item under `k`,
     * creating that item when there is none.
     */
    method Update(k: Key, u: UpdateInstruction, failure: Option<string>) returns (r: Result<Item>)
      requires Valid()
      modifies this
      ensures Valid()
      ensures failure.Some? ==> r == Err(failure.value) && rows == old(rows)
      ensures failure.None? && !Accepted(u) ==> r == Err(ValidationError) && rows == old(rows)
      ensures failure.None? && Accepted(u) ==>
                r == Ok(Updated(old(rows), k, Assigned(u))) && rows == Upsert(old(rows), r.value)
    {
      if failure.Some? {
        r := Err(failure.value);
      } else if !Accepted(u) {
        r := Err(ValidationError);
      } else {
        var item := Updated(rows, k, Assigned(u));
        rows := Upsert(rows, item);
        r := Ok(item);
      }
    }
  }
}
