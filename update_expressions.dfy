/**
 * The partial-update instruction the update handlers build: the clauses of a
 * `SET #f = :f, ...` expression together with its `ExpressionAttributeNames`
 * and `ExpressionAttributeValues`, what the store requires of them, and what
 * they write.
 */
module UpdateExpressions {
  import opened Js

  /** One `#name = :value` element of a `SET` expression. */
  datatype SetClause = SetClause(nameRef: string, valueRef: string)

  /**
   * The arguments of an `UpdateCommand`: the clauses of `UpdateExpression`,
   * `ExpressionAttributeNames` and `ExpressionAttributeValues`.
   */
  datatype UpdateInstruction = UpdateInstruction(
    clauses: seq<SetClause>,
    names: map<string, string>,
    values: map<string, Value>)

  const EmptyUpdate := UpdateInstruction([], map[], map[])

  /** Every placeholder a clause uses is defined. */
  predicate Resolves(u: UpdateInstruction) {
    forall i :: 0 <= i < |u.clauses| ==> u.clauses[i].nameRef in u.names && u.clauses[i].valueRef in u.values
  }

  /** The attribute clause `i` writes. */
  function Target(u: UpdateInstruction, i: nat): string
    requires Resolves(u) && i < |u.clauses|
  {
    u.names[u.clauses[i].nameRef]
  }

  /**
   * Placeholders and clauses correspond one to one (each clause has its own
   * `#name` and `:value`, and no placeholder is left unused), no key
   * attribute is set, and no attribute is set twice.
   */
  predicate Consistent(u: UpdateInstruction) {
    && Resolves(u)
    && |u.names| == |u.clauses| && |u.values| == |u.clauses|
    && (forall i, j :: 0 <= i < j < |u.clauses| ==>
          u.clauses[i].nameRef != u.clauses[j].nameRef && u.clauses[i].valueRef != u.clauses[j].valueRef)
    && (forall i :: 0 <= i < |u.clauses| ==> Target(u, i) != "PK" && Target(u, i) != "SK")
    && (forall i, j :: 0 <= i < j < |u.clauses| ==> Target(u, i) != Target(u, j))
  }

  /** What the store accepts; anything else is rejected with a validation error. */
  predicate Accepted(u: UpdateInstruction) {
    Consistent(u) && |u.clauses| > 0
  }

  const ValidationError := "ValidationException"

  /** The attributes the first `n` clauses write, and their values; a later clause wins. */
  function AssignFirst(u: UpdateInstruction, n: nat): (m: map<string, Value>)
    requires Resolves(u) && n <= |u.clauses|
    ensures forall i :: 0 <= i < n ==> Target(u, i) in m
    ensures (forall i :: 0 <= i < n ==> Target(u, i) != "PK" && Target(u, i) != "SK") ==> "PK" !in m && "SK" !in m
  {
    if n == 0 then map[]
    else AssignFirst(u, n - 1)[Target(u, n - 1) := u.values[u.clauses[n - 1].valueRef]]
  }

  /** The attributes a `SET` expression writes and the values it gives them. */
  function Assigned(u: UpdateInstruction): map<string, Value>
    requires Resolves(u)
  {
    AssignFirst(u, |u.clauses|)
  }

  /** The instruction after pushing `#attr = :attr` and defining both placeholders. */
  function Push(u: UpdateInstruction, attr: string, v: Value): UpdateInstruction {
    UpdateInstruction(u.clauses + [SetClause("#" + attr, ":" + attr)],
                      u.names["#" + attr := attr], u.values[":" + attr := v])
  }

  /** `attr` can still be added: neither placeholder is defined and no clause writes it. */
  predicate Fresh(u: UpdateInstruction, attr: string)
    requires Resolves(u)
  {
    "#" + attr !in u.names && ":" + attr !in u.values && attr !in Assigned(u) && attr != "PK" && attr != "SK"
  }

  /**
   * One step of the builder: push `#attr = :attr`, define `#attr` as `attr`
   * and `:attr` as `v`. A consistent instruction stays consistent and now
   * also writes `v` to `attr`; every other attribute that could be added
   * still can.
   */
  function With(u: UpdateInstruction, attr: string, v: Value): (r: UpdateInstruction)
    requires Consistent(u) && Fresh(u, attr)
    ensures Consistent(r)
    ensures Assigned(r) == Assigned(u)[attr := v]
    ensures |r.clauses| == |u.clauses| + 1
    ensures forall a :: a != attr && Fresh(u, a) ==> Fresh(r, a)
  {
    var r := Push(u, attr, v);
    PushKeepsConsistent(u, attr, v, r);
    PushAssigns(u, attr, v, r);
    forall a | a != attr && Fresh(u, a) ensures Fresh(r, a) {
      assert ("#" + a)[1..] == a && ("#" + attr)[1..] == attr;
      assert (":" + a)[1..] == a && (":" + attr)[1..] == attr;
    }
    r
  }

  /**
   * `u` is consistent, the attributes of `fs` from index `k` on are
   * distinct, and each of them can still be added.
   */
  predicate ReadyFrom(u: UpdateInstruction, fs: seq<string>, k: nat) {
    && Consistent(u) && k <= |fs|
    && (forall j :: k <= j < |fs| ==> Fresh(u, fs[j]))
    && (forall i, j :: k <= i < j < |fs| ==> fs[i] != fs[j])
  }

  /** Pushing the next attribute of `fs` keeps the rest of `fs` ready; skipping it does too. */
  lemma WithKeepsReady(u: UpdateInstruction, fs: seq<string>, k: nat, v: Value)
    requires ReadyFrom(u, fs, k) && k < |fs|
    ensures ReadyFrom(With(u, fs[k], v), fs, k + 1)
    ensures ReadyFrom(u, fs, k + 1)
  {
  }

  lemma PushKeepsConsistent(u: UpdateInstruction, attr: string, v: Value, r: UpdateInstruction)
    requires Consistent(u)
    requires "#" + attr !in u.names && ":" + attr !in u.values
    requires attr !in Assigned(u) && attr != "PK" && attr != "SK"
    requires r == Push(u, attr, v)
    ensures Consistent(r)
  {
    var n := |u.clauses|;
    assert forall i :: 0 <= i < n ==> r.clauses[i] == u.clauses[i];
    assert Resolves(r);
    assert forall i :: 0 <= i < n ==> Target(r, i) == Target(u, i);
    assert forall i :: 0 <= i < n ==> Target(u, i) in Assigned(u);
  }

  /** The old clauses still write what they wrote before the push. */
  lemma {:induction false} PushKeepsAssigned(u: UpdateInstruction, attr: string, v: Value, r: UpdateInstruction, n: nat)
    requires Resolves(u) && Resolves(r)
    requires "#" + attr !in u.names && ":" + attr !in u.values
    requires r == Push(u, attr, v) && n <= |u.clauses|
    ensures AssignFirst(r, n) == AssignFirst(u, n)
  {
    if n > 0 {
      PushKeepsAssigned(u, attr, v, r, n - 1);
      var c := u.clauses[n - 1];
      assert r.clauses[n - 1] == c;
      assert r.names[c.nameRef] == u.names[c.nameRef];
      assert r.values[c.valueRef] == u.values[c.valueRef];
    }
  }

  /** After the push, the instruction writes what it wrote before and `v` to `attr`. */
  lemma PushAssigns(u: UpdateInstruction, attr: string, v: Value, r: UpdateInstruction)
    requires Resolves(u) && Resolves(r)
    requires "#" + attr !in u.names && ":" + attr !in u.values
    requires r == Push(u, attr, v)
    ensures Assigned(r) == Assigned(u)[attr := v]
  {
    var n := |u.clauses|;
    PushKeepsAssigned(u, attr, v, r, n);
    assert r.clauses[n] == SetClause("#" + attr, ":" + attr);
    assert Target(r, n) == attr;
  }
}
