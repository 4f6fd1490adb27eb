/** Persisted wire conditions decoded back to filters through the declared fields. */
module WireDecoding {
  import opened Common
  import opened FilterLanguage
  import opened WireConditions

  const MAX_DEPTH: nat := 32

  // ---- Choosing an operator ----------------------------------------------------------

  /** Native patterns keep arbitrary wildcards... */
  function NativePattern(operators: seq<Operator>, key: string): (r: Option<Operator>)
    ensures r.Some? ==> r.value in operators && WireOperator(r.value) == key && FormOf(r.value).None?
  {
    if operators == [] then None
    else if WireOperator(operators[0]) == key && (operators[0].Like? || operators[0].ILike?) then Some(operators[0])
    else NativePattern(operators[1..], key)
  }

  /** ...and a search form is chosen only when its operand round trips. */
  function Recoverable(operators: seq<Operator>, key: string, value: Json): (r: Option<Operator>)
    ensures r.Some? ==> r.value in operators && WireOperator(r.value) == key && FromWireOperand(r.value, value).Some?
    ensures r.None? ==> forall op :: op in operators && WireOperator(op) == key ==> FromWireOperand(op, value).None?
  {
    if operators == [] then None
    else if WireOperator(operators[0]) == key && FromWireOperand(operators[0], value).Some? then Some(operators[0])
    else Recoverable(operators[1..], key, value)
  }

  function OperatorFor(field: Field, key: string, value: Json): (r: Option<Operator>)
    ensures r.Some? ==> r.value in field.operators && WireOperator(r.value) == key && FromWireOperand(r.value, value).Some?
  {
    match NativePattern(field.operators, key)
    case Some(op) => Some(op)
    case None => Recoverable(field.operators, key, value)
  }

  // ---- Decoding ----------------------------------------------------------------------------

  function Matching(fields: seq<Field>, wire: string): (r: seq<Field>)
    ensures forall f :: f in r <==> f in fields && f.wire == wire
  {
    if fields == [] then []
    else (if fields[0].wire == wire then [fields[0]] else []) + Matching(fields[1..], wire)
  }

  lemma {:induction false} NoneMatching(fields: seq<Field>, wire: string)
    requires forall f :: f in fields ==> f.wire != wire
    ensures Matching(fields, wire) == []
  {
    if fields != [] {
      NoneMatching(fields[1..], wire);
    }
  }

  predicate LeadsSomewhere(fields: seq<Field>, wire: string) {
    exists f :: f in fields && wire + "." <= f.wire
  }

  function DecodeTest(c: Contract, field: Field, e: Entry): Option<Test> {
    match OperatorFor(field, e.key, e.value)
    case None => None
    case Some(op) =>
      (match c.operand(field, op, FromWireOperand(op, e.value).value)
       case None => None
       case Some(operand) => Some(Test(op, operand)))
  }

  function DecodeTests(c: Contract, field: Field, entries: seq<Entry>): Option<seq<Test>> {
    if entries == [] then Some([])
    else match (DecodeTest(c, field, entries[0]), DecodeTests(c, field, entries[1..]))
      case (Some(head), Some(tail)) => Some([head] + tail)
      case _ => None
  }

  /** No clause, one clause, or the conjunction of several. */
  function Combined(clauses: seq<Filter>): Filter {
    if clauses == [] then Filter([]) else if |clauses| == 1 then clauses[0] else Filter([All(clauses)])
  }

  function Decode(c: Contract, j: Json, prefix: string, depth: nat): Option<Filter>
    decreases j
  {
    if depth > MAX_DEPTH || !j.Obj? then None
    else if prefix != "" && (|j.entries| != 1 || j.entries[0].key in BOOLEAN_KEYS) then None
    else match DecodeEntries(c, j.entries, prefix, depth)
      case None => None
      case Some(clauses) => Some(Combined(clauses))
  }

  function DecodeEntries(c: Contract, entries: seq<Entry>, prefix: string, depth: nat): Option<seq<Filter>>
    decreases entries
  {
    if entries == [] then Some([])
    else match (DecodeEntry(c, entries[0], prefix, depth), DecodeEntries(c, entries[1..], prefix, depth))
      case (Some(head), Some(tail)) => Some([head] + tail)
      case _ => None
  }

  function DecodeEntry(c: Contract, e: Entry, prefix: string, depth: nat): Option<Filter>
    decreases e
  {
    if e.key == "_and" || e.key == "_or" then
      if !e.value.Arr? then None
      else match DecodeBranches(c, e.value.items, prefix, depth + 1)
        case None => None
        case Some(branches) => Some(Filter([if e.key == "_and" then All(branches) else Any(branches)]))
    else if e.key == "_not" then
      match Decode(c, e.value, prefix, depth + 1)
      case None => None
      case Some(f) => Some(Filter([Not(f)]))
    else
      var wire := Extend(prefix, e.key);
      var matching := Matching(c.fields, wire);
      if |matching| > 1 then None
      else if matching == [] then
        if LeadsSomewhere(c.fields, wire) then Decode(c, e.value, wire, depth + 1) else None
      else if !e.value.Obj? || e.value.entries == [] then None
      else match DecodeTests(c, matching[0], e.value.entries)
        case None => None
        case Some(tests) => Some(Filter([Compare(matching[0], tests)]))
  }

  function DecodeBranches(c: Contract, items: seq<Json>, prefix: string, depth: nat): (r: Option<seq<Filter>>)
    ensures r.Some? ==> |r.value| == |items|
    decreases items
  {
    if items == [] then Some([])
    else match (Decode(c, items[0], prefix, depth), DecodeBranches(c, items[1..], prefix, depth))
      case (Some(head), Some(tail)) => Some([head] + tail)
      case _ => None
  }

  function FromWhere(c: Contract, j: Json): Option<Filter> {
    Decode(c, j, "", 0)
  }

  // ---- The same by loops ------------------------------------------------------------------------

  /** What the entries still to be read add to the clauses decoded so far. */
  function After<T>(done: seq<T>, rest: Option<seq<T>>): Option<seq<T>> {
    match rest
    case None => None
    case Some(more) => Some(done + more)
  }

  lemma AfterNothing<T>(rest: Option<seq<T>>)
    ensures After([], rest) == rest
  {
    if rest.Some? { assert [] + rest.value == rest.value; }
  }

  lemma AfterOne<T>(done: seq<T>, head: T, rest: Option<seq<T>>)
    ensures After(done, After([head], rest)) == After(done + [head], rest)
  {
    if rest.Some? { assert done + ([head] + rest.value) == done + [head] + rest.value; }
  }

  method DecodeLoop(c: Contract, j: Json, prefix: string, depth: nat) returns (r: Option<Filter>)
    ensures r == Decode(c, j, prefix, depth)
    decreases j
  {
    if depth > MAX_DEPTH || !j.Obj? { return None; }
    if prefix != "" && (|j.entries| != 1 || j.entries[0].key in BOOLEAN_KEYS) { return None; }
    var clauses: seq<Filter> := [];
    AfterNothing(DecodeEntries(c, j.entries, prefix, depth));
    assert j.entries[0..] == j.entries;
    for k := 0 to |j.entries|
      invariant DecodeEntries(c, j.entries, prefix, depth) ==
                After(clauses, DecodeEntries(c, j.entries[k..], prefix, depth))
    {
      assert j.entries[k..][0] == j.entries[k] && j.entries[k..][1..] == j.entries[k + 1..];
      var clause := DecodeEntryLoop(c, j.entries[k], prefix, depth);
      if clause.None? { return None; }
      AfterOne(clauses, clause.value, DecodeEntries(c, j.entries[k + 1..], prefix, depth));
      clauses := clauses + [clause.value];
    }
    assert j.entries[|j.entries|..] == [] && clauses + [] == clauses;
    r := Some(Combined(clauses));
  }

  method DecodeEntryLoop(c: Contract, e: Entry, prefix: string, depth: nat) returns (r: Option<Filter>)
    ensures r == DecodeEntry(c, e, prefix, depth)
    decreases e
  {
    if e.key == "_and" || e.key == "_or" {
      if !e.value.Arr? { return None; }
      var items, branches: seq<Filter> := e.value.items, [];
      AfterNothing(DecodeBranches(c, items, prefix, depth + 1));
      assert items[0..] == items;
      for k := 0 to |items|
        invariant DecodeBranches(c, items, prefix, depth + 1) ==
                  After(branches, DecodeBranches(c, items[k..], prefix, depth + 1))
      {
        assert items[k..][0] == items[k] && items[k..][1..] == items[k + 1..];
        var branch := DecodeLoop(c, items[k], prefix, depth + 1);
        if branch.None? { return None; }
        AfterOne(branches, branch.value, DecodeBranches(c, items[k + 1..], prefix, depth + 1));
        branches := branches + [branch.value];
      }
      assert items[|items|..] == [] && branches + [] == branches;
      r := Some(Filter([if e.key == "_and" then All(branches) else Any(branches)]));
    } else if e.key == "_not" {
      var f := DecodeLoop(c, e.value, prefix, depth + 1);
      r := if f.None? then None else Some(Filter([Not(f.value)]));
    } else {
      var wire := Extend(prefix, e.key);
      var matching := Matching(c.fields, wire);
      if |matching| > 1 { return None; }
      if matching == [] {
        if !LeadsSomewhere(c.fields, wire) { return None; }
        r := DecodeLoop(c, e.value, wire, depth + 1);
      } else if !e.value.Obj? || e.value.entries == [] {
        r := None;
      } else {
        r := DecodeComparisons(c, matching[0], e.value.entries);
      }
    }
  }

  method DecodeComparisons(c: Contract, field: Field, entries: seq<Entry>) returns (r: Option<Filter>)
    ensures r == match DecodeTests(c, field, entries)
                 case None => None
                 case Some(tests) => Some(Filter([Compare(field, tests)]))
  {
    var tests: seq<Test> := [];
    AfterNothing(DecodeTests(c, field, entries));
    assert entries[0..] == entries;
    for k := 0 to |entries|
      invariant DecodeTests(c, field, entries) == After(tests, DecodeTests(c, field, entries[k..]))
    {
      assert entries[k..][0] == entries[k] && entries[k..][1..] == entries[k + 1..];
      var test := DecodeTest(c, field, entries[k]);
      if test.None? { return None; }
      AfterOne(tests, test.value, DecodeTests(c, field, entries[k + 1..]));
      tests := tests + [test.value];
    }
    assert entries[|entries|..] == [] && tests + [] == tests;
    r := Some(Filter([Compare(field, tests)]));
  }

  // ---- Decoding is sound -----------------------------------------------------------------------

  /** A comparison as it is sent. */
  function TestEntry(test: Test): Entry {
    Entry(WireOperator(test.op), WireOperand(test.op, test.operand))
  }

  /** What may be asked of a comparison on the wire and the test it decodes to. */
  type Relation = (Field, Entry, Test) -> bool

  /** The decoded comparison is sent as the one it was decoded from. */
  function Unchanged(): Relation {
    (field: Field, e: Entry, test: Test) => TestEntry(test) == e
  }

  /** The wire reads the decoded comparison as it reads the one it was decoded from. */
  function ReadAlike(t: Truth): Relation {
    AlikeUnder(t.holds)
  }

  function AlikeUnder(holds: ((string, string, Json), bool) -> bool): Relation {
    (field: Field, e: Entry, test: Test) =>
      var read, sent := (field.wire, e.key, e.value), (field.wire, TestEntry(test).key, TestEntry(test).value);
      holds(read, true) == holds(sent, true) && holds(read, false) == holds(sent, false)
  }

  /** Every comparison of a condition that decodes is so related to its test. */
  ghost predicate Everywhere(c: Contract, j: Json, prefix: string, rel: Relation)
    decreases j
  {
    j.Obj? ==> forall e :: e in j.entries ==> EntryEverywhere(c, e, prefix, rel)
  }

  ghost predicate EntryEverywhere(c: Contract, e: Entry, prefix: string, rel: Relation)
    decreases e
  {
    if e.key == "_and" || e.key == "_or" then
      e.value.Arr? ==> forall x :: x in e.value.items ==> Everywhere(c, x, prefix, rel)
    else if e.key == "_not" then Everywhere(c, e.value, prefix, rel)
    else
      var wire := Extend(prefix, e.key);
      if Matching(c.fields, wire) == [] then Everywhere(c, e.value, wire, rel)
      else e.value.Obj? ==> forall field :: field in Matching(c.fields, wire) ==> TestsEverywhere(c, field, e.value.entries, rel)
  }

  ghost predicate TestsEverywhere(c: Contract, field: Field, entries: seq<Entry>, rel: Relation) {
    forall x :: x in entries && DecodeTest(c, field, x).Some? ==> rel(field, x, DecodeTest(c, field, x).value)
  }

  /** One relation implies another, for the comparisons the contract decodes. */
  ghost predicate Implies(c: Contract, a: Relation, b: Relation) {
    forall field, x :: field in c.fields && DecodeTest(c, field, x).Some? && a(field, x, DecodeTest(c, field, x).value) ==>
      b(field, x, DecodeTest(c, field, x).value)
  }

  lemma {:induction false} EverywhereImplies(c: Contract, j: Json, prefix: string, a: Relation, b: Relation)
    requires Implies(c, a, b) && Everywhere(c, j, prefix, a)
    ensures Everywhere(c, j, prefix, b)
    decreases j
  {
    if j.Obj? {
      forall e | e in j.entries ensures EntryEverywhere(c, e, prefix, b) {
        EntryEverywhereImplies(c, e, prefix, a, b);
      }
    }
  }

  lemma {:induction false} EntryEverywhereImplies(c: Contract, e: Entry, prefix: string, a: Relation, b: Relation)
    requires Implies(c, a, b) && EntryEverywhere(c, e, prefix, a)
    ensures EntryEverywhere(c, e, prefix, b)
    decreases e
  {
    var wire := Extend(prefix, e.key);
    if e.key == "_and" || e.key == "_or" {
      if e.value.Arr? {
        forall x | x in e.value.items ensures Everywhere(c, x, prefix, b) { EverywhereImplies(c, x, prefix, a, b); }
      }
    } else if e.key == "_not" {
      EverywhereImplies(c, e.value, prefix, a, b);
    } else if Matching(c.fields, wire) == [] {
      EverywhereImplies(c, e.value, wire, a, b);
    } else if e.value.Obj? {
      forall field | field in Matching(c.fields, wire) ensures TestsEverywhere(c, field, e.value.entries, b) {
        assert TestsEverywhere(c, field, e.value.entries, a);
      }
    }
  }

  /** Operands are canonical: decoding a comparison and sending it again gives it back. */
  ghost predicate Canonical(c: Contract, j: Json) {
    Everywhere(c, j, "", Unchanged())
  }

  /** Canonical operands are read alike under every truth assignment. */
  lemma CanonicalReadsAlike(c: Contract, j: Json, t: Truth)
    requires Canonical(c, j)
    ensures Everywhere(c, j, "", ReadAlike(t))
  {
    EverywhereImplies(c, j, "", Unchanged(), ReadAlike(t));
  }

  lemma {:induction false} SplitHead(key: string, rest: string)
    requires '.' !in key && (rest == "" || rest[0] == '.')
    ensures Split(key + rest)[0] == key
  {
    if key == "" {
      assert key + rest == rest;
    } else {
      assert (key + rest)[1..] == key[1..] + rest;
      SplitHead(key[1..], rest);
    }
  }

  /** A key between a dot and a dot, or the end, is a segment of the path. */
  lemma {:induction false} SegmentOccurs(prefix: string, key: string, rest: string)
    requires '.' !in key && (rest == "" || rest[0] == '.')
    ensures exists k :: 0 < k < |Split(prefix + "." + key + rest)| && Split(prefix + "." + key + rest)[k] == key
  {
    var path := prefix + "." + key + rest;
    if prefix == "" {
      assert path[1..] == key + rest;
      SplitHead(key, rest);
      assert Split(path)[1] == key;
    } else {
      assert path[1..] == prefix[1..] + "." + key + rest;
      SegmentOccurs(prefix[1..], key, rest);
      var tail := Split(path[1..]);
      var k :| 0 < k < |tail| && tail[k] == key;
      if path[0] == '.' {
        assert Split(path)[k + 1] == key;
      } else {
        assert Split(path)[k] == key;
      }
    }
  }

  lemma {:induction false} ProperSegmentAt(prefix: string, segments: seq<string>, k: nat)
    requires ProperSegments(prefix, segments) && k < |segments|
    requires prefix != "" || (k > 0 && segments[0] != "")
    ensures segments[k] !in BOOLEAN_KEYS && segments[k] !in WIRE_KEYS
    decreases |segments|
  {
    if k > 0 { ProperSegmentAt(Extend(prefix, segments[0]), segments[1..], k - 1); }
  }

  /** No proper path goes through a comparison key below its first segment. */
  lemma NotBelow(path: string, prefix: string, key: string, rest: string)
    requires ProperPath(path) && '.' !in key && path == prefix + "." + key + rest && (rest == "" || rest[0] == '.')
    ensures key !in WIRE_KEYS
  {
    SegmentOccurs(prefix, key, rest);
    var k :| 0 < k < |Split(path)| && Split(path)[k] == key;
    ProperSegmentAt("", Split(path), k);
  }

  lemma WireKeyHasNoDot(key: string)
    requires key in WIRE_KEYS
    ensures '.' !in key
  {
  }

  /** Below a prefix, no declared path goes through a comparison key. */
  lemma ComparisonKeyLeadsNowhere(c: Contract, prefix: string, key: string)
    requires ProperContract(c) && prefix != "" && key in WIRE_KEYS
    ensures Matching(c.fields, Extend(prefix, key)) == [] && !LeadsSomewhere(c.fields, Extend(prefix, key))
  {
    WireKeyHasNoDot(key);
    var wire := prefix + "." + key;
    forall f | f in c.fields ensures f.wire != wire && !(wire + "." <= f.wire) {
      assert ProperPath(f.wire);
      if f.wire == wire {
        assert wire + "" == f.wire;
        NotBelow(f.wire, prefix, key, "");
      } else if wire + "." <= f.wire {
        var rest := f.wire[|wire|..];
        assert rest[0] == f.wire[|wire|] == (wire + ".")[|wire|];
        assert wire + rest == f.wire;
        NotBelow(f.wire, prefix, key, rest);
      }
    }
    NoneMatching(c.fields, wire);
  }

  lemma ProperPathIsNotEmpty(path: string)
    requires ProperPath(path)
    ensures path != ""
  {
  }

  lemma {:induction false} TestsSound(c: Contract, field: Field, entries: seq<Entry>, t: Truth)
    requires TestsEverywhere(c, field, entries, ReadAlike(t)) && field.wire != ""
    requires DecodeTests(c, field, entries).Some?
    ensures AllMean(entries, field.wire, t) <==>
            forall x :: x in DecodeTests(c, field, entries).value ==> Is(AsSent(t), (field, x.op, x.operand))
  {
    if entries != [] {
      var e, tail := entries[0], entries[1..];
      var head := DecodeTest(c, field, e).value;
      var rest := DecodeTests(c, field, tail).value;
      TestsSound(c, field, tail, t);
      WireOperatorIsKey(head.op);
      assert EntryMeaning(e, field.wire, t) <==> Is(AsSent(t), (field, head.op, head.operand)) by {
        assert e in entries && ReadAlike(t)(field, e, head);
        var sent := TestEntry(head);
        assert Is(t, (field.wire, e.key, e.value)) == Is(t, (field.wire, sent.key, sent.value));
        assert EntryMeaning(e, field.wire, t) == Is(t, (field.wire, e.key, e.value));
      }
      assert entries == [e] + tail;
      AllMeanConcat([e], tail, field.wire, t);
      assert AllMean([e], field.wire, t) <==> EntryMeaning(e, field.wire, t) by { assert e in [e]; }
      assert DecodeTests(c, field, entries).value == [head] + rest;
    }
  }

  lemma CombinedHolds(clauses: seq<Filter>, r: Reading)
    ensures Holds(Combined(clauses), r) <==> forall f :: f in clauses ==> Holds(f, r)
  {
    if |clauses| == 1 {
      assert clauses[0] in clauses;
    } else if |clauses| > 1 {
      SingleClauseHolds(All(clauses), r);
    }
  }

  lemma SingleClauseHolds(cl: Clause, r: Reading)
    ensures Holds(Filter([cl]), r) <==> ClauseHolds(cl, r)
  {
    assert cl in [cl];
  }

  /** An accepted condition and its decoded filter have the same truth value. */
  lemma {:induction false} DecodeSound(c: Contract, j: Json, prefix: string, depth: nat, t: Truth)
    requires ProperContract(c) && Everywhere(c, j, prefix, ReadAlike(t)) && Decode(c, j, prefix, depth).Some?
    ensures Holds(Decode(c, j, prefix, depth).value, AsSent(t)) <==> Meaning(j, prefix, t)
    decreases j
  {
    EntriesSound(c, j.entries, prefix, depth, t);
    CombinedHolds(DecodeEntries(c, j.entries, prefix, depth).value, AsSent(t));
  }

  lemma {:induction false} EntriesSound(c: Contract, entries: seq<Entry>, prefix: string, depth: nat, t: Truth)
    requires ProperContract(c) && DecodeEntries(c, entries, prefix, depth).Some?
    requires forall e :: e in entries ==> EntryEverywhere(c, e, prefix, ReadAlike(t))
    requires prefix != "" ==> forall e :: e in entries ==> e.key !in BOOLEAN_KEYS
    ensures AllMean(entries, prefix, t) <==>
            forall f :: f in DecodeEntries(c, entries, prefix, depth).value ==> Holds(f, AsSent(t))
    decreases entries
  {
    if entries != [] {
      var e, tail := entries[0], entries[1..];
      var head := DecodeEntry(c, e, prefix, depth).value;
      var rest := DecodeEntries(c, tail, prefix, depth).value;
      EntrySound(c, e, prefix, depth, t);
      EntriesSound(c, tail, prefix, depth, t);
      assert entries == [e] + tail;
      AllMeanConcat([e], tail, prefix, t);
      assert AllMean([e], prefix, t) <==> EntryMeaning(e, prefix, t) by { assert e in [e]; }
      assert DecodeEntries(c, entries, prefix, depth).value == [head] + rest;
    }
  }

  lemma {:induction false} EntrySound(c: Contract, e: Entry, prefix: string, depth: nat, t: Truth)
    requires ProperContract(c) && EntryEverywhere(c, e, prefix, ReadAlike(t)) && DecodeEntry(c, e, prefix, depth).Some?
    ensures EntryMeaning(e, prefix, t) <==> Holds(DecodeEntry(c, e, prefix, depth).value, AsSent(t))
    decreases e
  {
    if e.key == "_and" || e.key == "_or" {
      var branches := DecodeBranches(c, e.value.items, prefix, depth + 1).value;
      BranchesSound(c, e.value.items, prefix, depth + 1, t);
      SingleClauseHolds(if e.key == "_and" then All(branches) else Any(branches), AsSent(t));
    } else if e.key == "_not" {
      DecodeSound(c, e.value, prefix, depth + 1, Opposite(t));
      SingleClauseHolds(Not(Decode(c, e.value, prefix, depth + 1).value), AsSent(t));
    } else {
      FieldSound(c, e, prefix, depth, t);
    }
  }

  lemma {:induction false} FieldSound(c: Contract, e: Entry, prefix: string, depth: nat, t: Truth)
    requires ProperContract(c) && EntryEverywhere(c, e, prefix, ReadAlike(t)) && DecodeEntry(c, e, prefix, depth).Some?
    requires e.key !in BOOLEAN_KEYS
    ensures EntryMeaning(e, prefix, t) <==> Holds(DecodeEntry(c, e, prefix, depth).value, AsSent(t))
    decreases e, 0
  {
    if prefix != "" && e.key in WIRE_KEYS {
      ComparisonKeyLeadsNowhere(c, prefix, e.key);
    } else {
      var wire := Extend(prefix, e.key);
      var matching := Matching(c.fields, wire);
      if matching == [] {
        DecodeSound(c, e.value, wire, depth + 1, t);
      } else {
        var field := matching[0];
        assert field in matching;
        assert ProperPath(field.wire);
        ProperPathIsNotEmpty(field.wire);
        assert TestsEverywhere(c, field, e.value.entries, ReadAlike(t));
        TestsSound(c, field, e.value.entries, t);
        SingleClauseHolds(Compare(field, DecodeTests(c, field, e.value.entries).value), AsSent(t));
      }
    }
  }

  lemma {:induction false} BranchesSound(c: Contract, items: seq<Json>, prefix: string, depth: nat, t: Truth)
    requires ProperContract(c) && DecodeBranches(c, items, prefix, depth).Some?
    requires forall x :: x in items ==> Everywhere(c, x, prefix, ReadAlike(t))
    ensures var branches := DecodeBranches(c, items, prefix, depth).value;
            && ((forall x :: x in items ==> Meaning(x, prefix, t)) <==> forall f :: f in branches ==> Holds(f, AsSent(t)))
            && ((exists x :: x in items && Meaning(x, prefix, t)) <==> exists f :: f in branches && Holds(f, AsSent(t)))
    decreases items
  {
    if items != [] {
      var x, tail := items[0], items[1..];
      DecodeSound(c, x, prefix, depth, t);
      BranchesSound(c, tail, prefix, depth, t);
      var head, rest := Decode(c, x, prefix, depth).value, DecodeBranches(c, tail, prefix, depth).value;
      var branches := DecodeBranches(c, items, prefix, depth).value;
      assert branches == [head] + rest && items == [x] + tail;
      assert forall y :: y in items <==> y == x || y in tail;
      assert forall f :: f in branches <==> f == head || f in rest;
    }
  }

  // ---- Decoded filters are valid, so encoding them again is equivalent -----------------------------

  /** Normalising a normal operand changes nothing. */
  ghost predicate Idempotent(c: Contract) {
    forall field, op, raw :: c.operand(field, op, raw).Some? ==>
      c.operand(field, op, c.operand(field, op, raw).value) == c.operand(field, op, raw)
  }

  lemma {:induction false} TestsValid(c: Contract, field: Field, entries: seq<Entry>)
    requires Idempotent(c) && DecodeTests(c, field, entries).Some?
    ensures |DecodeTests(c, field, entries).value| == |entries|
    ensures forall x :: x in DecodeTests(c, field, entries).value ==> ValidTest(c, field, x)
  {
    if entries != [] {
      TestsValid(c, field, entries[1..]);
    }
  }

  lemma CombinedValid(c: Contract, clauses: seq<Filter>)
    requires forall f :: f in clauses ==> Valid(c, f)
    ensures Valid(c, Combined(clauses))
  {
    if |clauses| == 1 {
      assert clauses[0] in clauses;
    }
  }

  lemma {:induction false} DecodeValid(c: Contract, j: Json, prefix: string, depth: nat)
    requires Idempotent(c) && Decode(c, j, prefix, depth).Some?
    ensures Valid(c, Decode(c, j, prefix, depth).value)
    decreases j
  {
    EntriesValid(c, j.entries, prefix, depth);
    CombinedValid(c, DecodeEntries(c, j.entries, prefix, depth).value);
  }

  lemma {:induction false} EntriesValid(c: Contract, entries: seq<Entry>, prefix: string, depth: nat)
    requires Idempotent(c) && DecodeEntries(c, entries, prefix, depth).Some?
    ensures forall f :: f in DecodeEntries(c, entries, prefix, depth).value ==> Valid(c, f)
    decreases entries
  {
    if entries != [] {
      EntryValid(c, entries[0], prefix, depth);
      EntriesValid(c, entries[1..], prefix, depth);
    }
  }

  lemma {:induction false} EntryValid(c: Contract, e: Entry, prefix: string, depth: nat)
    requires Idempotent(c) && DecodeEntry(c, e, prefix, depth).Some?
    ensures Valid(c, DecodeEntry(c, e, prefix, depth).value)
    decreases e
  {
    if e.key == "_and" || e.key == "_or" {
      BranchesValid(c, e.value.items, prefix, depth + 1);
    } else if e.key == "_not" {
      DecodeValid(c, e.value, prefix, depth + 1);
    } else {
      var wire := Extend(prefix, e.key);
      var matching := Matching(c.fields, wire);
      if matching == [] {
        DecodeValid(c, e.value, wire, depth + 1);
      } else {
        assert matching[0] in matching;
        TestsValid(c, matching[0], e.value.entries);
      }
    }
  }

  lemma {:induction false} BranchesValid(c: Contract, items: seq<Json>, prefix: string, depth: nat)
    requires Idempotent(c) && DecodeBranches(c, items, prefix, depth).Some?
    ensures forall f :: f in DecodeBranches(c, items, prefix, depth).value ==> Valid(c, f)
    decreases items
  {
    if items != [] {
      DecodeValid(c, items[0], prefix, depth);
      BranchesValid(c, items[1..], prefix, depth);
    }
  }

  /** Whenever a condition with canonical operands is accepted, encoding the decoded filter
      gives an equivalent condition, under every truth assignment. */
  lemma ReencodingIsEquivalent(c: Contract, j: Json, t: Truth)
    requires ProperContract(c) && Idempotent(c) && Canonical(c, j) && FromWhere(c, j).Some?
    ensures Meaning(ToWhere([FromWhere(c, j).value]), "", t) <==> Meaning(j, "", t)
  {
    CanonicalReadsAlike(c, j, t);
    ReencodingReadAlike(c, j, t);
  }

  /** With other operands it is equivalent under the assignments that read each of them as its
      canonical form. */
  lemma ReencodingReadAlike(c: Contract, j: Json, t: Truth)
    requires ProperContract(c) && Idempotent(c) && Everywhere(c, j, "", ReadAlike(t)) && FromWhere(c, j).Some?
    ensures Meaning(ToWhere([FromWhere(c, j).value]), "", t) <==> Meaning(j, "", t)
  {
    var f := FromWhere(c, j).value;
    DecodeSound(c, j, "", 0, t);
    DecodeValid(c, j, "", 0);
    ToWhereMeansAll(c, [f], t);
    assert f in [f];
  }
}
