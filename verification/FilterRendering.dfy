/** A decoded filter is written out as an object and passed through parsing once more: that pass
    accepts it and keeps what it says, so the decoder as a whole is as good as its first half. */
module FilterRendering {
  import opened Common
  import opened FilterLanguage
  import opened FilterParsing
  import opened FilterPipeline
  import opened WireConditions
  import opened WireDecoding
  import opened WireRoundTrip

  lemma OperatorNames(op: Operator)
    ensures OperatorNamed(OperatorName(op)) == Some(op) && IsOperator(OperatorName(op))
  {
    OperatorIsNamed(op);
  }

  /** Names are told apart a few operators at a time. */
  function Group(op: Operator): nat {
    match op
    case Exact => 0 case Ne => 0 case Gt => 0 case Gte => 0 case Lt => 0 case Lte => 0
    case InList => 1 case NotInList => 1 case IsNull => 1 case Contains => 1 case IContains => 1
    case StartsWith => 2 case IStartsWith => 2 case EndsWith => 2 case IEndsWith => 2
    case Like => 3 case ILike => 3 case NotLike => 3 case NotILike => 3
    case Similar => 4 case NotSimilar => 4 case Regex => 4 case IRegex => 4
    case NotRegex => 5 case NotIRegex => 5 case JsonContains => 5
    case JsonContainedIn => 6 case HasKey => 6 case HasKeysAny => 7 case HasKeysAll => 7
  }

  lemma OperatorIsNamed(op: Operator)
    ensures OperatorNamed(OperatorName(op)) == Some(op)
  {
    match Group(op)
    case 0 => Group0(op);
    case 1 => Group1(op);
    case 2 => Group2(op);
    case 3 => Group3(op);
    case 4 => Group4(op);
    case 5 => Group5(op);
    case 6 => Group6(op);
    case _ => Group7(op);
  }

  lemma Group0(op: Operator)
    requires Group(op) == 0
    ensures OperatorNamed(OperatorName(op)) == Some(op)
  {
  }

  lemma Group1(op: Operator)
    requires Group(op) == 1
    ensures OperatorNamed(OperatorName(op)) == Some(op)
  {
  }

  lemma Group2(op: Operator)
    requires Group(op) == 2
    ensures OperatorNamed(OperatorName(op)) == Some(op)
  {
  }

  lemma Group3(op: Operator)
    requires Group(op) == 3
    ensures OperatorNamed(OperatorName(op)) == Some(op)
  {
  }

  lemma Group4(op: Operator)
    requires Group(op) == 4
    ensures OperatorNamed(OperatorName(op)) == Some(op)
  {
  }

  lemma Group5(op: Operator)
    requires Group(op) == 5
    ensures OperatorNamed(OperatorName(op)) == Some(op)
  {
  }

  lemma Group6(op: Operator)
    requires Group(op) == 6
    ensures OperatorNamed(OperatorName(op)) == Some(op)
  {
  }

  lemma Group7(op: Operator)
    requires Group(op) == 7
    ensures OperatorNamed(OperatorName(op)) == Some(op)
  {
  }

  // ---- Writing a filter out ---------------------------------------------------------------------

  function Rendered(f: Filter): Json
    decreases f, 1
  {
    Obj(RenderedClauses(f.clauses))
  }

  function RenderedClauses(clauses: seq<Clause>): seq<Entry>
    decreases clauses, 0
  {
    if clauses == [] then [] else [RenderedClause(clauses[0])] + RenderedClauses(clauses[1..])
  }

  function RenderedClause(cl: Clause): Entry
    decreases cl, 0
  {
    match cl
    case All(branches) => Entry("AND", Arr(RenderedAll(branches)))
    case Any(branches) => Entry("OR", Arr(RenderedAll(branches)))
    case Not(f) => Entry("NOT", Rendered(f))
    case Compare(field, tests) => Entry(field.name, Obj(RenderedTests(tests)))
  }

  function RenderedAll(branches: seq<Filter>): (r: seq<Json>)
    ensures |r| == |branches|
    decreases branches, 0
  {
    if branches == [] then [] else [Rendered(branches[0])] + RenderedAll(branches[1..])
  }

  function RenderedTests(tests: seq<Test>): (r: seq<Entry>)
    ensures |r| == |tests|
  {
    if tests == [] then [] else [Entry(OperatorName(tests[0].op), tests[0].operand)] + RenderedTests(tests[1..])
  }

  // ---- What the contract must be like ---------------------------------------------------------------

  /** Fields are found by their names, which are no Boolean keys. */
  ghost predicate NamesFields(c: Contract) {
    forall f :: f in c.fields ==> f.name != "AND" && f.name != "OR" && f.name != "NOT" && FieldNamed(c.fields, f.name) == Some(f)
  }

  /** Validation makes the same of an operand whatever the order of its keys. */
  ghost predicate Orderless(c: Contract, le: KeyOrder) {
    forall field, op, v :: c.operand(field, op, Canon(le, v)) == c.operand(field, op, v)
  }

  lemma OrderlessReadings(c: Contract, le: KeyOrder, r: Reading)
    requires Orderless(c, le)
    ensures IgnoresKeyOrder(le, ByName(c, r))
  {
    var w := ByName(c, r);
    forall name, op, v, sure ensures w.holds((name, op, Canon(le, v)), sure) == w.holds((name, op, v), sure) {
      var field, operator := FieldNamed(c.fields, name), OperatorNamed(op);
      if field.Some? && operator.Some? {
        assert c.operand(field.value, operator.value, Canon(le, v)) == c.operand(field.value, operator.value, v);
      }
    }
  }

  // ---- It says the same -------------------------------------------------------------------------------

  lemma {:induction false} TestsSay(c: Contract, field: Field, tests: seq<Test>, r: Reading)
    requires NamesFields(c) && field in c.fields && forall t :: t in tests ==> ValidTest(c, field, t)
    ensures (forall e :: e in RenderedTests(tests) ==> Is(ByName(c, r), (field.name, e.key, e.value)))
            <==> (forall t :: t in tests ==> Is(r, (field, t.op, t.operand)))
  {
    if tests != [] {
      var entries := RenderedTests(tests);
      assert tests[0] in tests;
      OperatorNames(tests[0].op);
      TestsSay(c, field, tests[1..], r);
      assert entries[1..] == RenderedTests(tests[1..]);
      AllSplit(tests, (t: Test) => Is(r, (field, t.op, t.operand)));
      AllSplit(entries, (e: Entry) => Is(ByName(c, r), (field.name, e.key, e.value)));
    }
  }

  lemma {:induction false} RenderedSays(c: Contract, f: Filter, r: Reading)
    requires NamesFields(c) && Valid(c, f)
    ensures Says(Rendered(f), ByName(c, r)) <==> Holds(f, r)
    decreases f, 1
  {
    ClausesSay(c, f.clauses, r);
  }

  lemma {:induction false} ClausesSay(c: Contract, clauses: seq<Clause>, r: Reading)
    requires NamesFields(c) && forall cl :: cl in clauses ==> ValidClause(c, cl)
    ensures (forall e :: e in RenderedClauses(clauses) ==> EntrySays(e.key, e.value, ByName(c, r)))
            <==> (forall cl :: cl in clauses ==> ClauseHolds(cl, r))
    decreases clauses, 0
  {
    if clauses != [] {
      var entries := RenderedClauses(clauses);
      assert clauses[0] in clauses;
      ClauseSays(c, clauses[0], r);
      ClausesSay(c, clauses[1..], r);
      assert entries[1..] == RenderedClauses(clauses[1..]);
      AllSplit(clauses, (cl: Clause) => ClauseHolds(cl, r));
      AllSplit(entries, (e: Entry) => EntrySays(e.key, e.value, ByName(c, r)));
    }
  }

  lemma {:induction false} ClauseSays(c: Contract, cl: Clause, r: Reading)
    requires NamesFields(c) && ValidClause(c, cl)
    ensures EntrySays(RenderedClause(cl).key, RenderedClause(cl).value, ByName(c, r)) <==> ClauseHolds(cl, r)
    decreases cl, 0
  {
    match cl
    case All(branches) => BranchesSay(c, branches, r);
    case Any(branches) => BranchesSay(c, branches, r);
    case Not(f) => RenderedSays(c, f, Opposite(r));
    case Compare(field, tests) => TestsSay(c, field, tests, r);
  }

  lemma {:induction false} BranchesSay(c: Contract, branches: seq<Filter>, r: Reading)
    requires NamesFields(c) && forall f :: f in branches ==> Valid(c, f)
    ensures var items := RenderedAll(branches);
            && ((forall x :: x in items ==> Says(x, ByName(c, r))) <==> (forall f :: f in branches ==> Holds(f, r)))
            && ((exists x :: x in items && Says(x, ByName(c, r))) <==> (exists f :: f in branches && Holds(f, r)))
    decreases branches, 0
  {
    if branches != [] {
      var items := RenderedAll(branches);
      assert branches[0] in branches;
      RenderedSays(c, branches[0], r);
      BranchesSay(c, branches[1..], r);
      assert items[1..] == RenderedAll(branches[1..]);
      AllSplit(branches, f => Holds(f, r));
      AllSplit(items, x => Says(x, ByName(c, r)));
    }
  }

  // ---- It is accepted ----------------------------------------------------------------------------------

  lemma {:induction false} ResolveTestsSome(c: Contract, field: Field, entries: seq<Entry>)
    ensures ResolveTests(c, field, entries).Some? <==> forall e :: e in entries ==> ResolveTest(c, field, e).Some?
  {
    if entries != [] {
      ResolveTestsSome(c, field, entries[1..]);
      AllSplit(entries, (e: Entry) => ResolveTest(c, field, e).Some?);
    }
  }

  lemma {:induction false} ResolveClausesSome(c: Contract, entries: seq<Entry>)
    ensures ResolveClauses(c, entries).Some? <==> forall e :: e in entries ==> ResolveClause(c, e.key, e.value).Some?
  {
    if entries != [] {
      ResolveClausesSome(c, entries[1..]);
      AllSplit(entries, (e: Entry) => ResolveClause(c, e.key, e.value).Some?);
    }
  }

  lemma {:induction false} TestsAccepted(c: Contract, le: KeyOrder, field: Field, tests: seq<Test>)
    requires Orderless(c, le) && forall t :: t in tests ==> ValidTest(c, field, t)
    ensures KnownOperators(RenderedTests(tests))
    ensures forall e :: e in CanonEntries(le, RenderedTests(tests)) ==> ResolveTest(c, field, e).Some?
  {
    if tests != [] {
      var test := tests[0];
      assert test in tests;
      OperatorNames(test.op);
      TestsAccepted(c, le, field, tests[1..]);
      var e := Entry(OperatorName(test.op), Canon(le, test.operand));
      assert c.operand(field, test.op, Canon(le, test.operand)) == c.operand(field, test.op, test.operand);
      assert ResolveTest(c, field, e).Some?;
      assert RenderedTests(tests)[1..] == RenderedTests(tests[1..]);
      assert CanonEntries(le, RenderedTests(tests)) == [e] + CanonEntries(le, RenderedTests(tests[1..]));
    }
  }

  /** Both passes of parsing accept a rendered filter. */
  lemma {:induction false} RenderedAccepted(c: Contract, le: KeyOrder, f: Filter)
    requires NamesFields(c) && Orderless(c, le) && Valid(c, f)
    ensures Normalise(le, Rendered(f)).Some? && Resolve(c, Normalise(le, Rendered(f)).value).Some?
    decreases f, 1
  {
    ClausesAccepted(c, le, f.clauses);
    var entries := NormaliseEntries(le, RenderedClauses(f.clauses)).value;
    ResolveClausesSome(c, Sort(le, entries));
  }

  lemma {:induction false} ClausesAccepted(c: Contract, le: KeyOrder, clauses: seq<Clause>)
    requires NamesFields(c) && Orderless(c, le) && forall cl :: cl in clauses ==> ValidClause(c, cl)
    ensures NormaliseEntries(le, RenderedClauses(clauses)).Some?
    ensures forall e :: e in NormaliseEntries(le, RenderedClauses(clauses)).value ==> ResolveClause(c, e.key, e.value).Some?
    decreases clauses, 0
  {
    if clauses != [] {
      assert clauses[0] in clauses;
      ClauseAccepted(c, le, clauses[0]);
      ClausesAccepted(c, le, clauses[1..]);
      assert RenderedClauses(clauses)[1..] == RenderedClauses(clauses[1..]);
    }
  }

  lemma {:induction false} ClauseAccepted(c: Contract, le: KeyOrder, cl: Clause)
    requires NamesFields(c) && Orderless(c, le) && ValidClause(c, cl)
    ensures var e := RenderedClause(cl);
            NormaliseEntry(le, e.key, e.value).Some? && ResolveClause(c, e.key, NormaliseEntry(le, e.key, e.value).value).Some?
    decreases cl, 0
  {
    match cl
    case All(branches) => BranchesAccepted(c, le, branches);
    case Any(branches) => BranchesAccepted(c, le, branches);
    case Not(f) => RenderedAccepted(c, le, f);
    case Compare(field, tests) => CompareAccepted(c, le, field, tests);
  }

  lemma CompareAccepted(c: Contract, le: KeyOrder, field: Field, tests: seq<Test>)
    requires NamesFields(c) && Orderless(c, le) && ValidClause(c, Compare(field, tests))
    ensures var v := Obj(RenderedTests(tests));
            && NormaliseEntry(le, field.name, v).Some?
            && ResolveClause(c, field.name, NormaliseEntry(le, field.name, v).value).Some?
  {
    var entries := Sort(le, CanonEntries(le, RenderedTests(tests)));
    TestsAccepted(c, le, field, tests);
    LookupNormalises(le, field.name, RenderedTests(tests));
    ResolveTestsSome(c, field, entries);
    FieldResolves(c, field, entries);
  }

  lemma LookupNormalises(le: KeyOrder, key: string, entries: seq<Entry>)
    requires key != "AND" && key != "OR" && key != "NOT" && entries != [] && KnownOperators(entries)
    ensures NormaliseEntry(le, key, Obj(entries)) == Some(Obj(Sort(le, CanonEntries(le, entries))))
  {
  }

  lemma FieldResolves(c: Contract, field: Field, entries: seq<Entry>)
    requires NamesFields(c) && field in c.fields && entries != [] && ResolveTests(c, field, entries).Some?
    ensures ResolveClause(c, field.name, Obj(entries)).Some?
  {
  }

  lemma {:induction false} BranchesAccepted(c: Contract, le: KeyOrder, branches: seq<Filter>)
    requires NamesFields(c) && Orderless(c, le) && forall f :: f in branches ==> Valid(c, f)
    ensures NormaliseAll(le, RenderedAll(branches)).Some?
    ensures ResolveAll(c, NormaliseAll(le, RenderedAll(branches)).value).Some?
    decreases branches, 0
  {
    if branches != [] {
      assert branches[0] in branches;
      RenderedAccepted(c, le, branches[0]);
      BranchesAccepted(c, le, branches[1..]);
      assert RenderedAll(branches)[1..] == RenderedAll(branches[1..]);
      var items := NormaliseAll(le, RenderedAll(branches)).value;
      assert items[1..] == NormaliseAll(le, RenderedAll(branches[1..])).value;
    }
  }

  /** A valid filter, written out and parsed, is accepted and says the same. */
  lemma RenderedParses(c: Contract, le: KeyOrder, f: Filter, r: Reading)
    requires NamesFields(c) && Orderless(c, le) && Valid(c, f)
    ensures FilterFrom(c, le, Rendered(f)).Some?
    ensures Holds(FilterFrom(c, le, Rendered(f)).value, r) <==> Holds(f, r)
  {
    RenderedAccepted(c, le, f);
    OrderlessReadings(c, le, r);
    NormaliseMeansTheSame(le, Rendered(f), ByName(c, r));
    ResolveMeans(c, Normalise(le, Rendered(f)).value, r);
    RenderedSays(c, f, r);
  }

  // ---- The whole decoder ---------------------------------------------------------------------------------

  /** Decode a condition, and parse what was decoded. */
  function FromCondition(c: Contract, le: KeyOrder, j: Json): Option<Filter> {
    match FromWhere(c, j)
    case None => None
    case Some(f) => FilterFrom(c, le, Rendered(f))
  }

  /** The whole decoder accepts exactly what its first half does, and says the same. */
  lemma FromConditionMeans(c: Contract, le: KeyOrder, j: Json, r: Reading)
    requires Idempotent(c) && NamesFields(c) && Orderless(c, le)
    ensures FromCondition(c, le, j).Some? <==> FromWhere(c, j).Some?
    ensures FromCondition(c, le, j).Some? ==> (Holds(FromCondition(c, le, j).value, r) <==> Holds(FromWhere(c, j).value, r))
  {
    if FromWhere(c, j).Some? {
      DecodeValid(c, j, "", 0);
      RenderedParses(c, le, FromWhere(c, j).value, r);
    }
  }

  /** The round trip through the whole decoder: accepted exactly when the compiled condition is
      narrow and within the depth limit, and then equivalent under every truth assignment. */
  lemma WholeRoundTrip(c: Contract, le: KeyOrder, filters: seq<Filter>, t: Truth)
    requires Invertible(c) && NamesFields(c) && Orderless(c, le) && forall f :: f in filters ==> Valid(c, f)
    ensures FromCondition(c, le, ToWhere(filters)).Some? <==>
            Narrow(c, ToWhere(filters)) && Nest(c, ToWhere(filters)) <= 32
    ensures FromCondition(c, le, ToWhere(filters)).Some? ==>
              (Holds(FromCondition(c, le, ToWhere(filters)).value, AsSent(t)) <==> forall f :: f in filters ==> Holds(f, AsSent(t)))
  {
    RoundTrip(c, filters);
    FromConditionMeans(c, le, ToWhere(filters), AsSent(t));
  }
}
