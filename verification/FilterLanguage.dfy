/** The Boolean filter language of a resource: its normal form, its reading, and the
    conjunction of two filters. */
module FilterLanguage {
  import opened Common

  /** A JSON value; the entries of an object keep their order. */
  datatype Json =
    | Null
    | Bool(b: bool)
    | Num(n: real)
    | Str(s: string)
    | Arr(items: seq<Json>)
    | Obj(entries: seq<Entry>)

  datatype Entry = Entry(key: string, value: Json)

  datatype Operator =
    | Exact | Ne | Gt | Gte | Lt | Lte | InList | NotInList | IsNull
    | Contains | IContains | StartsWith | IStartsWith | EndsWith | IEndsWith
    | Like | ILike | NotLike | NotILike | Similar | NotSimilar
    | Regex | IRegex | NotRegex | NotIRegex
    | JsonContains | JsonContainedIn | HasKey | HasKeysAny | HasKeysAll

  /** A filterable field: its name, its wire path (segments joined by dots) and the
      operators it supports, in declaration order. */
  datatype Field = Field(name: string, wire: string, operators: seq<Operator>)

  datatype Filter = Filter(clauses: seq<Clause>)

  /** One key of a filter object. */
  datatype Clause =
    | All(branches: seq<Filter>)
    | Any(branches: seq<Filter>)
    | Not(negated: Filter)
    | Compare(field: Field, tests: seq<Test>)

  datatype Test = Test(op: Operator, operand: Json)

  /** The truth of each comparison on the row at hand. */
  type Reading = Truths<(Field, Operator, Json)>

  /** The evaluation of a filter: every key must hold. */
  predicate Holds(f: Filter, r: Reading) {
    forall c :: c in f.clauses ==> ClauseHolds(c, r)
  }

  predicate ClauseHolds(c: Clause, r: Reading) {
    match c
    case All(branches) => forall f :: f in branches ==> Holds(f, r)
    case Any(branches) => exists f :: f in branches && Holds(f, r)
    case Not(f) => !Holds(f, Opposite(r))
    case Compare(field, tests) => forall t :: t in tests ==> Is(r, (field, t.op, t.operand))
  }

  // ---- Normal filters ------------------------------------------------------------

  /** The declared fields, and what their operand validator makes of a raw operand. */
  datatype Contract = Contract(fields: seq<Field>, operand: (Field, Operator, Json) -> Option<Json>)

  /** The key a clause has in its filter object. */
  datatype Key = AndKey | OrKey | NotKey | FieldKey(name: string)

  function KeyOf(c: Clause): Key {
    match c
    case All(_) => AndKey
    case Any(_) => OrKey
    case Not(_) => NotKey
    case Compare(field, _) => FieldKey(field.name)
  }

  ghost predicate DistinctKeys(clauses: seq<Clause>) {
    forall i, j :: 0 <= i < j < |clauses| ==> KeyOf(clauses[i]) != KeyOf(clauses[j])
  }

  /** A filter as validation leaves it: object keys are unique, fields are declared,
      operators supported, operands canonical. */
  ghost predicate Valid(c: Contract, f: Filter) {
    DistinctKeys(f.clauses) && forall cl :: cl in f.clauses ==> ValidClause(c, cl)
  }

  ghost predicate ValidClause(c: Contract, cl: Clause) {
    match cl
    case All(branches) => forall f :: f in branches ==> Valid(c, f)
    case Any(branches) => forall f :: f in branches ==> Valid(c, f)
    case Not(f) => Valid(c, f)
    case Compare(field, tests) => field in c.fields && tests != [] && forall t :: t in tests ==> ValidTest(c, field, t)
  }

  predicate ValidTest(c: Contract, field: Field, t: Test) {
    t.op in field.operators && c.operand(field, t.op, t.operand) == Some(t.operand)
  }

  // ---- Conjunction ----------------------------------------------------------------

  /** The clause of `f` under a key, if it has one. */
  function Find(clauses: seq<Clause>, key: Key): (r: Option<Clause>)
    ensures r.Some? ==> r.value in clauses && KeyOf(r.value) == key
    ensures r.None? ==> forall c :: c in clauses ==> KeyOf(c) != key
  {
    if clauses == [] then None
    else if KeyOf(clauses[0]) == key then Some(clauses[0])
    else Find(clauses[1..], key)
  }

  /** The keys of `right` added to `result`, or nothing when one of them differs there. */
  function Absorb(result: seq<Clause>, right: seq<Clause>): Option<seq<Clause>>
    decreases |right|
  {
    if right == [] then Some(result)
    else match Find(result, KeyOf(right[0]))
      case None => Absorb(result + [right[0]], right[1..])
      case Some(present) => if present == right[0] then Absorb(result, right[1..]) else None
  }

  function Conjoin(left: Filter, right: Filter): Filter {
    if right.clauses == [] then left
    else if left.clauses == [] then right
    else if left == right then left
    else match Absorb(left.clauses, right.clauses)
      case Some(clauses) => Filter(clauses)
      case None => Filter([All([left, right])])
  }

  /** The same by a loop over the keys of `right`. */
  method And(left: Filter, right: Filter) returns (both: Filter)
    ensures both == Conjoin(left, right)
  {
    if right.clauses == [] { return left; }
    if left.clauses == [] { return right; }
    if left == right { return left; }
    var result, conflict := left.clauses, false;
    for k := 0 to |right.clauses|
      invariant !conflict ==> Absorb(left.clauses, right.clauses) == Absorb(result, right.clauses[k..])
      invariant conflict ==> Absorb(left.clauses, right.clauses) == None
    {
      var present := Find(result, KeyOf(right.clauses[k]));
      assert right.clauses[k..][1..] == right.clauses[k + 1..];
      if present.None? {
        result := result + [right.clauses[k]];
      } else if present.value != right.clauses[k] {
        conflict := true;
      }
    }
    both := if conflict then Filter([All([left, right])]) else Filter(result);
  }

  /** The two filters agree on every key they share. */
  ghost predicate Agree(left: seq<Clause>, right: seq<Clause>) {
    forall a, b :: a in left && b in right && KeyOf(a) == KeyOf(b) ==> a == b
  }

  /** The keys of one filter are added to the other exactly when they agree on the shared ones; then
      what was there stays in front, and each clause of the two is there. */
  lemma {:induction false} AbsorbsExactlyWhen(result: seq<Clause>, right: seq<Clause>)
    requires DistinctKeys(result) && DistinctKeys(right)
    ensures Absorb(result, right).Some? <==> Agree(result, right)
    ensures Absorb(result, right).Some? ==>
              var both := Absorb(result, right).value;
              result <= both && DistinctKeys(both) && forall c :: c in both <==> c in result || c in right
    decreases |right|
  {
    if right != [] {
      var head, tail := right[0], right[1..];
      assert right == [head] + tail;
      assert DistinctKeys(tail) by { assert forall k :: 0 <= k < |tail| ==> tail[k] == right[k + 1]; }
      forall c | c in tail ensures KeyOf(c) != KeyOf(head) {
        var k :| 0 <= k < |tail| && tail[k] == c;
        assert right[k + 1] == c;
      }
      match Find(result, KeyOf(head))
      case None =>
        AbsorbsExactlyWhen(result + [head], tail);
        assert Agree(result + [head], tail) <==> Agree(result, tail);
      case Some(present) =>
        OneUnderKey(result, KeyOf(head), present);
        if present == head { AbsorbsExactlyWhen(result, tail); }
    }
  }

  lemma OneUnderKey(clauses: seq<Clause>, key: Key, present: Clause)
    requires DistinctKeys(clauses) && present in clauses && KeyOf(present) == key
    ensures forall c :: c in clauses && KeyOf(c) == key ==> c == present
  {
    var i :| 0 <= i < |clauses| && clauses[i] == present;
    forall c | c in clauses && KeyOf(c) == key ensures c == present {
      var j :| 0 <= j < |clauses| && clauses[j] == c;
    }
  }

  lemma {:induction false} AbsorbMeans(result: seq<Clause>, right: seq<Clause>, r: Reading)
    requires Absorb(result, right).Some?
    ensures Holds(Filter(Absorb(result, right).value), r) <==> Holds(Filter(result), r) && Holds(Filter(right), r)
    decreases |right|
  {
    if right != [] {
      var head := right[0];
      assert Holds(Filter(right), r) <==> ClauseHolds(head, r) && Holds(Filter(right[1..]), r) by {
        assert right == [head] + right[1..];
      }
      match Find(result, KeyOf(head))
      case None =>
        AbsorbMeans(result + [head], right[1..], r);
        assert Holds(Filter(result + [head]), r) <==> Holds(Filter(result), r) && ClauseHolds(head, r) by {
          if Holds(Filter(result + [head]), r) {
            assert forall c :: c in result ==> c in result + [head];
            assert head in result + [head];
          }
        }
      case Some(present) =>
        AbsorbMeans(result, right[1..], r);
        assert head in result;
    }
  }

  /** The conjunction means both filters, whatever each comparison means. */
  lemma ConjoinMeansBoth(left: Filter, right: Filter, r: Reading)
    ensures Holds(Conjoin(left, right), r) <==> Holds(left, r) && Holds(right, r)
  {
    if right.clauses != [] && left.clauses != [] && left != right {
      match Absorb(left.clauses, right.clauses)
      case Some(clauses) =>
        AbsorbMeans(left.clauses, right.clauses, r);
      case None =>
        var both := All([left, right]);
        assert ClauseHolds(both, r) <==> Holds(left, r) && Holds(right, r) by {
          assert left in [left, right] && right in [left, right];
        }
        assert Holds(Filter([both]), r) <==> ClauseHolds(both, r) by { assert both in [both]; }
    }
  }

  lemma {:induction false} AbsorbValid(c: Contract, result: seq<Clause>, right: seq<Clause>)
    requires Valid(c, Filter(result)) && Valid(c, Filter(right)) && Absorb(result, right).Some?
    ensures Valid(c, Filter(Absorb(result, right).value))
    decreases |right|
  {
    if right != [] {
      var head, tail := right[0], right[1..];
      assert Valid(c, Filter(tail)) by {
        assert forall k :: 0 <= k < |tail| ==> tail[k] == right[k + 1];
        assert forall cl :: cl in tail ==> cl in right;
      }
      match Find(result, KeyOf(head))
      case None => AbsorbValid(c, result + [head], tail);
      case Some(present) => AbsorbValid(c, result, tail);
    }
  }

  lemma ConjoinValid(c: Contract, left: Filter, right: Filter)
    requires Valid(c, left) && Valid(c, right)
    ensures Valid(c, Conjoin(left, right))
  {
    if Absorb(left.clauses, right.clauses).Some? {
      AbsorbValid(c, left.clauses, right.clauses);
    }
  }
}
