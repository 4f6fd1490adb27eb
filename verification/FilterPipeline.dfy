/** From a raw filter to a compiled condition: the parsing loops, the check against a
    resource's declared fields, and the meaning of the whole pipeline. */
module FilterPipeline {
  import opened Common
  import opened FilterLanguage
  import opened FilterParsing
  import opened WireConditions
  import opened WireDecoding

  // ---- The parsing loops -----------------------------------------------------------------------

  lemma {:induction false} CanonInsert(le: KeyOrder, e: Entry, s: seq<Entry>)
    ensures CanonEntries(le, Insert(le, e, s)) == Insert(le, Entry(e.key, Canon(le, e.value)), CanonEntries(le, s))
  {
    if s == [] {
      assert [e][1..] == [];
    } else if le(e.key, s[0].key) {
      assert ([e] + s)[1..] == s;
    } else {
      CanonInsert(le, e, s[1..]);
      assert ([s[0]] + Insert(le, e, s[1..]))[1..] == Insert(le, e, s[1..]);
      assert CanonEntries(le, s)[1..] == CanonEntries(le, s[1..]);
    }
  }

  lemma {:induction false} CanonSort(le: KeyOrder, s: seq<Entry>)
    ensures CanonEntries(le, Sort(le, s)) == Sort(le, CanonEntries(le, s))
  {
    if s != [] {
      CanonSort(le, s[1..]);
      CanonInsert(le, s[0], Sort(le, s[1..]));
      assert CanonEntries(le, s)[1..] == CanonEntries(le, s[1..]);
    }
  }

  lemma {:induction false} NormaliseInsert(le: KeyOrder, e: Entry, s: seq<Entry>)
    requires NormaliseEntry(le, e.key, e.value).Some? && NormaliseEntries(le, s).Some?
    ensures NormaliseEntries(le, Insert(le, e, s)) ==
            Some(Insert(le, Entry(e.key, NormaliseEntry(le, e.key, e.value).value), NormaliseEntries(le, s).value))
  {
    if s == [] {
      assert [e][1..] == [] && NormaliseEntries(le, []) == Some([]);
      var entry := Entry(e.key, NormaliseEntry(le, e.key, e.value).value);
      assert [entry] + [] == [entry];
    } else if le(e.key, s[0].key) {
      assert ([e] + s)[1..] == s;
    } else {
      NormaliseInsert(le, e, s[1..]);
      assert ([s[0]] + Insert(le, e, s[1..]))[1..] == Insert(le, e, s[1..]);
      assert NormaliseEntries(le, s).value[1..] == NormaliseEntries(le, s[1..]).value;
    }
  }

  lemma {:induction false} NormaliseSort(le: KeyOrder, s: seq<Entry>)
    ensures NormaliseEntries(le, Sort(le, s)) ==
            if NormaliseEntries(le, s).Some? then Some(Sort(le, NormaliseEntries(le, s).value)) else None
  {
    if NormaliseEntries(le, s).None? {
      var any := Entry("", Null);
      NormaliseEntriesMember(le, s, any);
      NormaliseEntriesMember(le, Sort(le, s), any);
    } else if s != [] {
      NormaliseSort(le, s[1..]);
      NormaliseInsert(le, s[0], Sort(le, s[1..]));
      assert NormaliseEntries(le, s).value[1..] == NormaliseEntries(le, s[1..]).value;
    }
  }

  /** The loop over one field's comparisons: in key order, each operator known. */
  method ParseLookup(le: KeyOrder, lookup: seq<Entry>) returns (r: Option<Json>)
    ensures r == if lookup == [] || !KnownOperators(lookup) then None else Some(Obj(Sort(le, CanonEntries(le, lookup))))
  {
    if lookup == [] { return None; }
    var sorted := Sort(le, lookup);
    var parsed: seq<Entry> := [];
    for k := 0 to |sorted|
      invariant CanonEntries(le, sorted) == parsed + CanonEntries(le, sorted[k..])
      invariant forall i :: 0 <= i < k ==> IsOperator(sorted[i].key)
    {
      if !IsOperator(sorted[k].key) {
        assert sorted[k] in lookup;
        return None;
      }
      assert sorted[k..][1..] == sorted[k + 1..];
      parsed := parsed + [Entry(sorted[k].key, Canon(le, sorted[k].value))];
    }
    CanonSort(le, lookup);
    assert sorted[|sorted|..] == [] && parsed + [] == parsed;
    forall e | e in lookup ensures IsOperator(e.key) { assert e in sorted; }
    r := Some(Obj(parsed));
  }

  /** The loop over a filter's keys, in key order. */
  method ParseFilter(le: KeyOrder, input: Json) returns (r: Option<Json>)
    ensures r == Normalise(le, input)
    decreases input, 2
  {
    if !input.Obj? { return None; }
    var sorted := Sort(le, input.entries);
    NormaliseSort(le, input.entries);
    var result: seq<Entry> := [];
    assert sorted[0..] == sorted;
    AfterNothing(NormaliseEntries(le, sorted));
    for k := 0 to |sorted|
      invariant NormaliseEntries(le, sorted) == After(result, NormaliseEntries(le, sorted[k..]))
    {
      var e := sorted[k];
      assert e in input.entries && sorted[k..][0] == e && sorted[k..][1..] == sorted[k + 1..];
      var value := ParseEntry(le, e.key, e.value);
      if value.None? { return None; }
      AfterOne(result, Entry(e.key, value.value), NormaliseEntries(le, sorted[k + 1..]));
      result := result + [Entry(e.key, value.value)];
    }
    assert sorted[|sorted|..] == [] && result + [] == result;
    r := Some(Obj(result));
  }

  method ParseEntry(le: KeyOrder, key: string, value: Json) returns (r: Option<Json>)
    ensures r == NormaliseEntry(le, key, value)
    decreases value, 3
  {
    if key == "AND" || key == "OR" {
      if value.Arr? {
        var branches: seq<Json> := [];
        assert value.items[0..] == value.items;
        AfterNothing(NormaliseAll(le, value.items));
        for k := 0 to |value.items|
          invariant NormaliseAll(le, value.items) == After(branches, NormaliseAll(le, value.items[k..]))
        {
          assert value.items[k..][1..] == value.items[k + 1..];
          var branch := ParseFilter(le, value.items[k]);
          if branch.None? { return None; }
          AfterOne(branches, branch.value, NormaliseAll(le, value.items[k + 1..]));
          branches := branches + [branch.value];
        }
        assert value.items[|value.items|..] == [] && branches + [] == branches;
        r := Some(Arr(branches));
      } else {
        var branch := ParseFilter(le, value);
        r := if branch.None? then None else Some(Arr([branch.value]));
      }
    } else if key == "NOT" {
      r := ParseFilter(le, value);
    } else {
      r := ParseLookup(le, Lookup(value));
    }
  }

  // ---- Against the declared fields --------------------------------------------------------------

  function OperatorNamed(name: string): Option<Operator> {
    if name == "exact" then Some(Exact) else if name == "ne" then Some(Ne)
    else if name == "gt" then Some(Gt) else if name == "gte" then Some(Gte)
    else if name == "lt" then Some(Lt) else if name == "lte" then Some(Lte)
    else if name == "inList" then Some(InList) else if name == "notInList" then Some(NotInList)
    else if name == "isNull" then Some(IsNull)
    else if name == "contains" then Some(Contains) else if name == "iContains" then Some(IContains)
    else if name == "startsWith" then Some(StartsWith) else if name == "iStartsWith" then Some(IStartsWith)
    else if name == "endsWith" then Some(EndsWith) else if name == "iEndsWith" then Some(IEndsWith)
    else if name == "like" then Some(Operator.Like) else if name == "iLike" then Some(ILike)
    else if name == "notLike" then Some(NotLike) else if name == "notILike" then Some(NotILike)
    else if name == "similar" then Some(Similar) else if name == "notSimilar" then Some(NotSimilar)
    else if name == "regex" then Some(Regex) else if name == "iRegex" then Some(IRegex)
    else if name == "notRegex" then Some(NotRegex) else if name == "notIRegex" then Some(NotIRegex)
    else if name == "jsonContains" then Some(JsonContains) else if name == "jsonContainedIn" then Some(JsonContainedIn)
    else if name == "hasKey" then Some(HasKey) else if name == "hasKeysAny" then Some(HasKeysAny)
    else if name == "hasKeysAll" then Some(HasKeysAll)
    else None
  }

  function FieldNamed(fields: seq<Field>, name: string): (r: Option<Field>)
    ensures r.Some? ==> r.value in fields && r.value.name == name
  {
    if fields == [] then None
    else if fields[0].name == name then Some(fields[0])
    else FieldNamed(fields[1..], name)
  }

  function ResolveTest(c: Contract, field: Field, e: Entry): Option<Test> {
    match OperatorNamed(e.key)
    case None => None
    case Some(op) =>
      if op !in field.operators then None
      else match c.operand(field, op, e.value)
        case None => None
        case Some(operand) => Some(Test(op, operand))
  }

  function ResolveTests(c: Contract, field: Field, entries: seq<Entry>): Option<seq<Test>> {
    if entries == [] then Some([])
    else
      var first := ResolveTest(c, field, entries[0]);
      if first.None? then None else After([first.value], ResolveTests(c, field, entries[1..]))
  }

  /** A normal filter is in key order already, so the second sort changes nothing. */
  function Resolve(c: Contract, v: Json): Option<Filter>
    decreases v, 2
  {
    if !v.Obj? then None
    else match ResolveClauses(c, v.entries)
      case None => None
      case Some(clauses) => Some(Filter(clauses))
  }

  function ResolveClauses(c: Contract, entries: seq<Entry>): Option<seq<Clause>>
    decreases entries, 0
  {
    if entries == [] then Some([])
    else
      var first := ResolveClause(c, entries[0].key, entries[0].value);
      if first.None? then None else After([first.value], ResolveClauses(c, entries[1..]))
  }

  function ResolveClause(c: Contract, key: string, v: Json): Option<Clause>
    decreases v, 3
  {
    if key == "AND" || key == "OR" then
      if !v.Arr? then None
      else match ResolveAll(c, v.items)
        case None => None
        case Some(branches) => Some(if key == "AND" then All(branches) else Any(branches))
    else if key == "NOT" then
      match Resolve(c, v)
      case None => None
      case Some(f) => Some(Not(f))
    else
      var field := FieldNamed(c.fields, key);
      if field.None? || !v.Obj? || v.entries == [] then None
      else match ResolveTests(c, field.value, v.entries)
        case None => None
        case Some(tests) => Some(Compare(field.value, tests))
  }

  function ResolveAll(c: Contract, items: seq<Json>): Option<seq<Filter>>
    decreases items, 0
  {
    if items == [] then Some([])
    else
      var first := Resolve(c, items[0]);
      if first.None? then None else After([first.value], ResolveAll(c, items[1..]))
  }

  function FilterFrom(c: Contract, le: KeyOrder, raw: Json): Option<Filter> {
    match Normalise(le, raw)
    case None => None
    case Some(n) => Resolve(c, n)
  }

  // ---- What it means ------------------------------------------------------------------------------

  /** A comparison of declared fields, by their names. */
  function ByName(c: Contract, r: Reading): Words {
    Truths(NamedHolds(c, r.holds), r.sure)
  }

  function NamedHolds(c: Contract, holds: ((Field, Operator, Json), bool) -> bool): ((string, string, Json), bool) -> bool {
    (a: (string, string, Json), sure: bool) =>
      var field := FieldNamed(c.fields, a.0);
      var operator := OperatorNamed(a.1);
      field.Some? && operator.Some? &&
      var operand := c.operand(field.value, operator.value, a.2);
      operand.Some? && holds((field.value, operator.value, operand.value), sure)
  }

  lemma {:induction false} TestsMean(c: Contract, field: Field, entries: seq<Entry>, r: Reading)
    requires FieldNamed(c.fields, field.name) == Some(field) && ResolveTests(c, field, entries).Some?
    ensures (forall t :: t in ResolveTests(c, field, entries).value ==> Is(r, (field, t.op, t.operand)))
            <==> (forall e :: e in entries ==> Is(ByName(c, r), (field.name, e.key, e.value)))
  {
    if entries != [] {
      var tests := ResolveTests(c, field, entries).value;
      TestsMean(c, field, entries[1..], r);
      assert tests[1..] == ResolveTests(c, field, entries[1..]).value;
      AllSplit(entries, (e: Entry) => Is(ByName(c, r), (field.name, e.key, e.value)));
      AllSplit(tests, (t: Test) => Is(r, (field, t.op, t.operand)));
    }
  }

  lemma {:induction false} ResolveMeans(c: Contract, v: Json, r: Reading)
    requires Resolve(c, v).Some?
    ensures Holds(Resolve(c, v).value, r) <==> Says(v, ByName(c, r))
    decreases v, 2
  {
    ClausesMean(c, v.entries, r);
  }

  lemma {:induction false} ClausesMean(c: Contract, entries: seq<Entry>, r: Reading)
    requires ResolveClauses(c, entries).Some?
    ensures (forall cl :: cl in ResolveClauses(c, entries).value ==> ClauseHolds(cl, r))
            <==> (forall e :: e in entries ==> EntrySays(e.key, e.value, ByName(c, r)))
    decreases entries, 0
  {
    if entries != [] {
      var clauses := ResolveClauses(c, entries).value;
      ClauseMeans(c, entries[0].key, entries[0].value, r);
      ClausesMean(c, entries[1..], r);
      assert clauses[1..] == ResolveClauses(c, entries[1..]).value;
      AllSplit(entries, (e: Entry) => EntrySays(e.key, e.value, ByName(c, r)));
      AllSplit(clauses, (cl: Clause) => ClauseHolds(cl, r));
    }
  }

  lemma {:induction false} ClauseMeans(c: Contract, key: string, v: Json, r: Reading)
    requires ResolveClause(c, key, v).Some?
    ensures ClauseHolds(ResolveClause(c, key, v).value, r) <==> EntrySays(key, v, ByName(c, r))
    decreases v, 3
  {
    if key == "AND" || key == "OR" {
      BranchesMean(c, v.items, r);
    } else if key == "NOT" {
      ResolveMeans(c, v, Opposite(r));
    } else {
      TestsMean(c, FieldNamed(c.fields, key).value, v.entries, r);
    }
  }

  lemma {:induction false} BranchesMean(c: Contract, items: seq<Json>, r: Reading)
    requires ResolveAll(c, items).Some?
    ensures var branches := ResolveAll(c, items).value;
            && ((forall f :: f in branches ==> Holds(f, r)) <==> (forall x :: x in items ==> Says(x, ByName(c, r))))
            && ((exists f :: f in branches && Holds(f, r)) <==> (exists x :: x in items && Says(x, ByName(c, r))))
    decreases items, 0
  {
    if items != [] {
      var branches := ResolveAll(c, items).value;
      ResolveMeans(c, items[0], r);
      BranchesMean(c, items[1..], r);
      assert branches[1..] == ResolveAll(c, items[1..]).value;
      AllSplit(items, x => Says(x, ByName(c, r)));
      AllSplit(branches, f => Holds(f, r));
    }
  }

  // ---- What it leaves is valid ---------------------------------------------------------------------

  function KeyNamed(name: string): Key {
    if name == "AND" then AndKey else if name == "OR" then OrKey else if name == "NOT" then NotKey else FieldKey(name)
  }

  lemma {:induction false} ResolvedTestsValid(c: Contract, field: Field, entries: seq<Entry>)
    requires Idempotent(c) && ResolveTests(c, field, entries).Some?
    ensures |ResolveTests(c, field, entries).value| == |entries|
    ensures forall t :: t in ResolveTests(c, field, entries).value ==> ValidTest(c, field, t)
  {
    if entries != [] {
      ResolvedTestsValid(c, field, entries[1..]);
    }
  }

  lemma {:induction false} ResolvedIsValid(c: Contract, v: Json)
    requires Idempotent(c) && Unique(v) && Resolve(c, v).Some?
    ensures Valid(c, Resolve(c, v).value)
    decreases v, 2
  {
    ResolvedClausesValid(c, v.entries);
    var clauses := ResolveClauses(c, v.entries).value;
    assert DistinctKeys(clauses) by { ResolvedKeysDistinct(c, v.entries); }
  }

  lemma {:induction false} ResolvedKeys(c: Contract, entries: seq<Entry>)
    requires ResolveClauses(c, entries).Some?
    ensures |ResolveClauses(c, entries).value| == |entries|
    ensures forall i :: 0 <= i < |entries| ==> KeyOf(ResolveClauses(c, entries).value[i]) == KeyNamed(entries[i].key)
  {
    if entries != [] {
      ResolvedKeys(c, entries[1..]);
      var clauses := ResolveClauses(c, entries).value;
      forall i | 0 <= i < |entries| ensures KeyOf(clauses[i]) == KeyNamed(entries[i].key) {
        if i > 0 { assert clauses[i] == ResolveClauses(c, entries[1..]).value[i - 1] && entries[i] == entries[1..][i - 1]; }
      }
    }
  }

  lemma {:induction false} UniqueKeysApart(entries: seq<Entry>, i: nat, j: nat)
    requires UniqueKeys(entries) && i < j < |entries|
    ensures entries[i].key != entries[j].key
  {
    if i == 0 {
      assert entries[j] == entries[1..][j - 1];
    } else {
      UniqueKeysApart(entries[1..], i - 1, j - 1);
    }
  }

  lemma ResolvedKeysDistinct(c: Contract, entries: seq<Entry>)
    requires UniqueKeys(entries) && ResolveClauses(c, entries).Some?
    ensures DistinctKeys(ResolveClauses(c, entries).value)
  {
    ResolvedKeys(c, entries);
    var clauses := ResolveClauses(c, entries).value;
    forall i, j | 0 <= i < j < |clauses| ensures KeyOf(clauses[i]) != KeyOf(clauses[j]) {
      UniqueKeysApart(entries, i, j);
    }
  }

  lemma {:induction false} ResolvedClausesValid(c: Contract, entries: seq<Entry>)
    requires Idempotent(c) && (forall e :: e in entries ==> Unique(e.value)) && ResolveClauses(c, entries).Some?
    ensures forall cl :: cl in ResolveClauses(c, entries).value ==> ValidClause(c, cl)
    decreases entries, 0
  {
    if entries != [] {
      assert entries[0] in entries;
      ResolvedClauseValid(c, entries[0].key, entries[0].value);
      ResolvedClausesValid(c, entries[1..]);
    }
  }

  lemma {:induction false} ResolvedClauseValid(c: Contract, key: string, v: Json)
    requires Idempotent(c) && Unique(v) && ResolveClause(c, key, v).Some?
    ensures ValidClause(c, ResolveClause(c, key, v).value)
    decreases v, 3
  {
    if key == "AND" || key == "OR" {
      ResolvedBranchesValid(c, v.items);
    } else if key == "NOT" {
      ResolvedIsValid(c, v);
    } else {
      ResolvedTestsValid(c, FieldNamed(c.fields, key).value, v.entries);
    }
  }

  lemma {:induction false} ResolvedBranchesValid(c: Contract, items: seq<Json>)
    requires Idempotent(c) && (forall x :: x in items ==> Unique(x)) && ResolveAll(c, items).Some?
    ensures forall f :: f in ResolveAll(c, items).value ==> Valid(c, f)
    decreases items, 0
  {
    if items != [] {
      assert items[0] in items;
      ResolvedIsValid(c, items[0]);
      ResolvedBranchesValid(c, items[1..]);
    }
  }

  // ---- Normal filters have unique keys ---------------------------------------------------------------

  lemma {:induction false} CanonUnique(le: KeyOrder, v: Json)
    requires Unique(v)
    ensures Unique(Canon(le, v))
    decreases v
  {
    match v {
      case Arr(items) => CanonAllUnique(le, items);
      case Obj(entries) => SortedCanonUnique(le, entries);
      case _ =>
    }
  }

  lemma {:induction false} CanonAllUnique(le: KeyOrder, items: seq<Json>)
    requires forall x :: x in items ==> Unique(x)
    ensures forall x :: x in CanonAll(le, items) ==> Unique(x)
    decreases items
  {
    if items != [] {
      assert items[0] in items;
      CanonUnique(le, items[0]);
      CanonAllUnique(le, items[1..]);
    }
  }

  lemma {:induction false} CanonValuesUnique(le: KeyOrder, entries: seq<Entry>)
    requires forall e :: e in entries ==> Unique(e.value)
    ensures forall e :: e in CanonEntries(le, entries) ==> Unique(e.value)
    decreases entries, 0
  {
    if entries != [] {
      assert entries[0] in entries;
      CanonUnique(le, entries[0].value);
      CanonValuesUnique(le, entries[1..]);
    }
  }

  lemma {:induction false} SortedCanonUnique(le: KeyOrder, entries: seq<Entry>)
    requires UniqueKeys(entries) && forall e :: e in entries ==> Unique(e.value)
    ensures Unique(Obj(Sort(le, CanonEntries(le, entries))))
    decreases entries, 1
  {
    CanonValuesUnique(le, entries);
    CanonEntriesUnique(le, entries);
    SortUnique(le, CanonEntries(le, entries));
  }

  lemma {:induction false} NormaliseKeepsUnique(le: KeyOrder, v: Json)
    requires Unique(v) && Normalise(le, v).Some?
    ensures Unique(Normalise(le, v).value)
    decreases v, 2
  {
    EntriesKeepUnique(le, v.entries);
    NormaliseEntriesUnique(le, v.entries);
    SortUnique(le, NormaliseEntries(le, v.entries).value);
  }

  lemma {:induction false} EntriesKeepUnique(le: KeyOrder, entries: seq<Entry>)
    requires (forall e :: e in entries ==> Unique(e.value)) && NormaliseEntries(le, entries).Some?
    ensures forall e :: e in NormaliseEntries(le, entries).value ==> Unique(e.value)
    decreases entries, 0
  {
    if entries != [] {
      assert entries[0] in entries;
      EntryKeepsUnique(le, entries[0].key, entries[0].value);
      EntriesKeepUnique(le, entries[1..]);
    }
  }

  lemma {:induction false} EntryKeepsUnique(le: KeyOrder, key: string, v: Json)
    requires Unique(v) && NormaliseEntry(le, key, v).Some?
    ensures Unique(NormaliseEntry(le, key, v).value)
    decreases v, 3
  {
    if key == "AND" || key == "OR" {
      if v.Arr? { BranchesKeepUnique(le, v.items); } else { NormaliseKeepsUnique(le, v); }
    } else if key == "NOT" {
      NormaliseKeepsUnique(le, v);
    } else {
      SortedCanonUnique(le, Lookup(v));
    }
  }

  lemma {:induction false} BranchesKeepUnique(le: KeyOrder, items: seq<Json>)
    requires (forall x :: x in items ==> Unique(x)) && NormaliseAll(le, items).Some?
    ensures forall x :: x in NormaliseAll(le, items).value ==> Unique(x)
    decreases items, 0
  {
    if items != [] {
      assert items[0] in items;
      NormaliseKeepsUnique(le, items[0]);
      BranchesKeepUnique(le, items[1..]);
    }
  }

  // ---- The whole pipeline ----------------------------------------------------------------------------

  /** A raw filter that is accepted becomes a valid filter that says the same. */
  lemma AcceptedFilterMeansRaw(c: Contract, le: KeyOrder, raw: Json, r: Reading)
    requires Idempotent(c) && Unique(raw) && IgnoresKeyOrder(le, ByName(c, r)) && FilterFrom(c, le, raw).Some?
    ensures Valid(c, FilterFrom(c, le, raw).value)
    ensures Holds(FilterFrom(c, le, raw).value, r) <==> Says(raw, ByName(c, r))
  {
    NormaliseKeepsUnique(le, raw);
    NormaliseMeansTheSame(le, raw, ByName(c, r));
    ResolvedIsValid(c, Normalise(le, raw).value);
    ResolveMeans(c, Normalise(le, raw).value, r);
  }

  ghost predicate Accepted(c: Contract, le: KeyOrder, raws: seq<Json>, filters: seq<Filter>) {
    |filters| == |raws| && forall i :: 0 <= i < |raws| ==> Unique(raws[i]) && FilterFrom(c, le, raws[i]) == Some(filters[i])
  }

  /** Compilation end to end: the wire condition compiled from raw filters is true exactly when
      each of them, as written, is. */
  lemma CompiledMeansRaw(c: Contract, le: KeyOrder, raws: seq<Json>, filters: seq<Filter>, t: Truth)
    requires ProperContract(c) && Idempotent(c) && IgnoresKeyOrder(le, ByName(c, AsSent(t)))
    requires Accepted(c, le, raws, filters)
    ensures Meaning(ToWhere(filters), "", t) <==> forall raw :: raw in raws ==> Says(raw, ByName(c, AsSent(t)))
  {
    forall i | 0 <= i < |raws|
      ensures Valid(c, filters[i]) && (Holds(filters[i], AsSent(t)) <==> Says(raws[i], ByName(c, AsSent(t))))
    {
      AcceptedFilterMeansRaw(c, le, raws[i], AsSent(t));
    }
    ToWhereMeansAll(c, filters, t);
    AllPairs(filters, raws, f => Holds(f, AsSent(t)), raw => Says(raw, ByName(c, AsSent(t))));
  }
}
