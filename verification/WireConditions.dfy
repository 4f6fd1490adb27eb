/** Filters compiled to nested wire conditions, and what a wire condition means. */
module WireConditions {
  import opened Common
  import opened FilterLanguage
  import L = LikePatterns

  // ---- Operators and operands --------------------------------------------------------

  function WireOperator(op: Operator): string {
    match op
    case Exact => "_eq" case Ne => "_neq" case Gt => "_gt" case Gte => "_gte"
    case Lt => "_lt" case Lte => "_lte" case InList => "_in" case NotInList => "_nin"
    case IsNull => "_is_null"
    case Contains => "_like" case IContains => "_ilike" case StartsWith => "_like"
    case IStartsWith => "_ilike" case EndsWith => "_like" case IEndsWith => "_ilike"
    case Like => "_like" case ILike => "_ilike" case NotLike => "_nlike" case NotILike => "_nilike"
    case Similar => "_similar" case NotSimilar => "_nsimilar"
    case Regex => "_regex" case IRegex => "_iregex" case NotRegex => "_nregex" case NotIRegex => "_niregex"
    case JsonContains => "_contains" case JsonContainedIn => "_contained_in" case HasKey => "_has_key"
    case HasKeysAny => "_has_keys_any" case HasKeysAll => "_has_keys_all"
  }

  const BOOLEAN_KEYS: set<string> := {"_and", "_or", "_not"}

  const WIRE_KEYS: set<string> := {
    "_eq", "_neq", "_gt", "_gte", "_lt", "_lte", "_in", "_nin", "_is_null",
    "_like", "_ilike", "_nlike", "_nilike", "_similar", "_nsimilar",
    "_regex", "_iregex", "_nregex", "_niregex",
    "_contains", "_contained_in", "_has_key", "_has_keys_any", "_has_keys_all"}

  lemma WireOperatorIsKey(op: Operator)
    ensures WireOperator(op) in WIRE_KEYS && WireOperator(op) !in BOOLEAN_KEYS
  {
  }

  /** The search forms whose operand becomes a LIKE pattern. */
  function FormOf(op: Operator): Option<L.Form> {
    match op
    case Contains => Some(L.Contains) case IContains => Some(L.Contains)
    case StartsWith => Some(L.StartsWith) case IStartsWith => Some(L.StartsWith)
    case EndsWith => Some(L.EndsWith) case IEndsWith => Some(L.EndsWith)
    case _ => None
  }

  function WireOperand(op: Operator, value: Json): Json {
    match FormOf(op)
    case Some(form) => if value.Str? then Str(L.ToPattern(form, value.s)) else value
    case None => value
  }

  function FromWireOperand(op: Operator, value: Json): (r: Option<Json>)
    ensures r.Some? ==> WireOperand(op, r.value) == value
  {
    match FormOf(op)
    case Some(form) =>
      if !value.Str? then None
      else (match L.FromPattern(form, value.s)
            case Term(term) => Some(Str(term))
            case NoTerm => None)
    case None => Some(value)
  }

  /** Text operands round trip, for every operator and every string. */
  lemma OperandRoundTrip(op: Operator, s: string)
    ensures FromWireOperand(op, WireOperand(op, Str(s))) == Some(Str(s))
  {
    match FormOf(op)
    case Some(form) => L.OperandRoundTrip(form, s);
    case None =>
  }

  // ---- Paths ------------------------------------------------------------------------------

  /** `path.split(".")`. */
  function Split(path: string): (r: seq<string>)
    ensures r != []
  {
    if path == "" then [""]
    else
      var rest := Split(path[1..]);
      if path[0] == '.' then [""] + rest
      else [[path[0]] + rest[0]] + rest[1..]
  }

  /** One more segment; the empty prefix adds no dot. */
  function Extend(prefix: string, segment: string): string {
    if prefix == "" then segment else prefix + "." + segment
  }

  function ExtendAll(prefix: string, segments: seq<string>): string
    decreases |segments|
  {
    if segments == [] then prefix else ExtendAll(Extend(prefix, segments[0]), segments[1..])
  }

  function Joined(segments: seq<string>): string
    requires segments != []
  {
    if |segments| == 1 then segments[0] else segments[0] + "." + Joined(segments[1..])
  }

  lemma {:induction false} SplitJoined(path: string)
    ensures Joined(Split(path)) == path
  {
    if path != "" {
      SplitJoined(path[1..]);
      var rest := Split(path[1..]);
      if path[0] == '.' {
        assert ([""] + rest)[1..] == rest;
      } else {
        var first := [path[0]] + rest[0];
        assert ([first] + rest[1..])[1..] == rest[1..];
      }
      assert path == [path[0]] + path[1..];
    }
  }

  lemma {:induction false} ExtendAllJoins(prefix: string, segments: seq<string>)
    requires segments != [] && segments[0] != ""
    ensures ExtendAll(prefix, segments) == Extend(prefix, Joined(segments))
    decreases |segments|
  {
    if |segments| == 1 {
      assert segments[1..] == [];
    } else {
      var next := Extend(prefix, segments[0]);
      assert next != "";
      ExtendAllJoinsNonempty(next, segments[1..]);
      assert prefix + "." + (segments[0] + "." + Joined(segments[1..])) ==
             prefix + "." + segments[0] + "." + Joined(segments[1..]);
    }
  }

  lemma {:induction false} ExtendAllJoinsNonempty(prefix: string, segments: seq<string>)
    requires prefix != "" && segments != []
    ensures ExtendAll(prefix, segments) == prefix + "." + Joined(segments)
    decreases |segments|
  {
    if |segments| == 1 {
      assert segments[1..] == [];
    } else {
      ExtendAllJoinsNonempty(prefix + "." + segments[0], segments[1..]);
      assert prefix + "." + (segments[0] + "." + Joined(segments[1..])) ==
             prefix + "." + segments[0] + "." + Joined(segments[1..]);
    }
  }

  /** A path that says where it leads: it does not start with a dot, no segment is a Boolean
      key, and no segment after the first is a comparison key. */
  predicate ProperPath(path: string) {
    Split(path)[0] != "" && ProperSegments("", Split(path))
  }

  predicate ProperSegments(prefix: string, segments: seq<string>)
    decreases |segments|
  {
    segments == [] ||
    (segments[0] !in BOOLEAN_KEYS && (prefix != "" ==> segments[0] !in WIRE_KEYS) &&
     ProperSegments(Extend(prefix, segments[0]), segments[1..]))
  }

  ghost predicate ProperContract(c: Contract) {
    && (forall f :: f in c.fields ==> ProperPath(f.wire))
    && (forall i, j :: 0 <= i < j < |c.fields| ==> c.fields[i].name != c.fields[j].name)
  }

  // ---- The meaning of a condition ------------------------------------------------------------

  /** The truth of each wire comparison: path, wire operator, operand. */
  type Truth = Truths<(string, string, Json)>

  predicate Meaning(j: Json, path: string, t: Truth)
    decreases j
  {
    j.Obj? && AllMean(j.entries, path, t)
  }

  predicate AllMean(entries: seq<Entry>, path: string, t: Truth)
    decreases entries
  {
    forall e :: e in entries ==> EntryMeaning(e, path, t)
  }

  predicate EntryMeaning(e: Entry, path: string, t: Truth)
    decreases e
  {
    if e.key == "_and" then e.value.Arr? && forall x :: x in e.value.items ==> Meaning(x, path, t)
    else if e.key == "_or" then e.value.Arr? && exists x :: x in e.value.items && Meaning(x, path, t)
    else if e.key == "_not" then !Meaning(e.value, path, Opposite(t))
    else if e.key in WIRE_KEYS && path != "" then Is(t, (path, e.key, e.value))
    else Meaning(e.value, Extend(path, e.key), t)
  }

  /** Where no comparison is both true and false, no condition is. */
  lemma {:induction false} TrueIsNotFalse(j: Json, path: string, holds: ((string, string, Json), bool) -> bool)
    requires forall a :: holds(a, true) ==> holds(a, false)
    ensures Meaning(j, path, Truths(holds, true)) ==> Meaning(j, path, Truths(holds, false))
    decreases j
  {
    if Meaning(j, path, Truths(holds, true)) {
      assert AllMean(j.entries, path, Truths(holds, true));
      forall e | e in j.entries ensures EntryMeaning(e, path, Truths(holds, false)) {
        TrueEntryIsNotFalse(e, path, holds);
      }
    }
  }

  lemma {:induction false} TrueEntryIsNotFalse(e: Entry, path: string, holds: ((string, string, Json), bool) -> bool)
    requires forall a :: holds(a, true) ==> holds(a, false)
    ensures EntryMeaning(e, path, Truths(holds, true)) ==> EntryMeaning(e, path, Truths(holds, false))
    decreases e
  {
    if (e.key == "_and" || e.key == "_or") && e.value.Arr? {
      forall x | x in e.value.items
        ensures Meaning(x, path, Truths(holds, true)) ==> Meaning(x, path, Truths(holds, false))
      {
        TrueIsNotFalse(x, path, holds);
      }
    } else if e.key == "_not" {
      TrueIsNotFalse(e.value, path, holds);
    } else {
      TrueIsNotFalse(e.value, Extend(path, e.key), holds);
    }
  }

  /** A filter comparison read as the wire comparison it is sent as. */
  function AsSent(t: Truth): Reading {
    Truths(SentHolds(t.holds), t.sure)
  }

  function SentHolds(holds: ((string, string, Json), bool) -> bool): ((Field, Operator, Json), bool) -> bool {
    (a: (Field, Operator, Json), sure: bool) => holds((a.0.wire, WireOperator(a.1), WireOperand(a.1, a.2)), sure)
  }

  // ---- Compilation -----------------------------------------------------------------------------

  function Single(key: string, value: Json): Json {
    Obj([Entry(key, value)])
  }

  function Nested(segments: seq<string>, value: Json): Json
    requires segments != []
  {
    Single(segments[0], if |segments| == 1 then value else Nested(segments[1..], value))
  }

  function TestCondition(field: Field, t: Test): Json {
    Nested(Split(field.wire), Single(WireOperator(t.op), WireOperand(t.op, t.operand)))
  }

  function ClauseConditions(cl: Clause): seq<Json>
    decreases cl, 0
  {
    match cl
    case All(branches) =>
      [Single("_and", Arr(seq(|branches|, i requires 0 <= i < |branches| => Where(branches[i]))))]
    case Any(branches) =>
      [Single("_or", Arr(seq(|branches|, i requires 0 <= i < |branches| => Where(branches[i]))))]
    case Not(f) => [Single("_not", Where(f))]
    case Compare(field, tests) => seq(|tests|, i requires 0 <= i < |tests| => TestCondition(field, tests[i]))
  }

  function Conditions(f: Filter, k: nat): seq<Json>
    requires k <= |f.clauses|
    decreases f, k
  {
    if k == 0 then [] else Conditions(f, k - 1) + ClauseConditions(f.clauses[k - 1])
  }

  function Where(f: Filter): (r: Json)
    ensures r.Obj?
    decreases f, |f.clauses| + 1
  {
    MergeConditions(Conditions(f, |f.clauses|))
  }

  // ---- Fusing conditions -------------------------------------------------------------------------

  function IndexOf(entries: seq<Entry>, key: string): (r: Option<nat>)
    ensures r.Some? ==> r.value < |entries| && entries[r.value].key == key
    ensures r.None? ==> forall e :: e in entries ==> e.key != key
  {
    if entries == [] then None
    else if entries[0].key == key then Some(0)
    else match IndexOf(entries[1..], key)
      case None => None
      case Some(i) => Some(i + 1)
  }

  predicate SharesKey(a: seq<Entry>, b: seq<Entry>) {
    exists e :: e in b && IndexOf(a, e.key).Some?
  }

  /** One entry fused into the object under construction, unless it clashes. */
  function Fuse(merged: seq<Entry>, e: Entry): Option<seq<Entry>> {
    match IndexOf(merged, e.key)
    case None => Some(merged + [e])
    case Some(i) =>
      var present := merged[i].value;
      if e.value.Obj? && present.Obj? && !SharesKey(present.entries, e.value.entries)
      then Some(merged[i := Entry(e.key, Obj(present.entries + e.value.entries))])
      else None
  }

  function FuseAll(merged: seq<Entry>, entries: seq<Entry>): Option<seq<Entry>>
    decreases |entries|
  {
    if entries == [] then Some(merged)
    else match Fuse(merged, entries[0])
      case None => None
      case Some(next) => FuseAll(next, entries[1..])
  }

  function Entries(conditions: seq<Json>): seq<Entry> {
    if conditions == [] then []
    else (if conditions[0].Obj? then conditions[0].entries else []) + Entries(conditions[1..])
  }

  function MergeConditions(conditions: seq<Json>): (r: Json)
    ensures r.Obj?
  {
    match FuseAll([], Entries(conditions))
    case Some(merged) => Obj(merged)
    case None => Single("_and", Arr(conditions))
  }

  method MergeConditionsLoop(conditions: seq<Json>) returns (result: Json)
    ensures result == MergeConditions(conditions)
  {
    var merged: seq<Entry> := [];
    for c := 0 to |conditions|
      invariant FuseAll([], Entries(conditions)) == FuseAll(merged, Entries(conditions[c..]))
    {
      var entries := if conditions[c].Obj? then conditions[c].entries else [];
      ghost var later := Entries(conditions[c + 1..]);
      assert conditions[c..][1..] == conditions[c + 1..];
      for k := 0 to |entries|
        invariant FuseAll([], Entries(conditions)) == FuseAll(merged, entries[k..] + later)
      {
        assert (entries[k..] + later)[1..] == entries[k + 1..] + later;
        var next := Fuse(merged, entries[k]);
        if next.None? {
          return Single("_and", Arr(conditions));
        }
        merged := next.value;
      }
      assert entries[|entries|..] + later == later;
    }
    result := Obj(merged);
  }

  // ---- Fusing preserves meaning ------------------------------------------------------------------

  lemma AllMeanConcat(a: seq<Entry>, b: seq<Entry>, path: string, t: Truth)
    ensures AllMean(a + b, path, t) <==> AllMean(a, path, t) && AllMean(b, path, t)
  {
    if AllMean(a + b, path, t) {
      assert forall e :: e in a ==> e in a + b;
      assert forall e :: e in b ==> e in a + b;
    }
  }

  lemma SingleMeans(key: string, value: Json, path: string, t: Truth)
    ensures Meaning(Single(key, value), path, t) <==> EntryMeaning(Entry(key, value), path, t)
  {
    assert Entry(key, value) in [Entry(key, value)];
  }

  /** Under one key other than `_not`, two objects say together what their union says. */
  lemma UnionMeans(key: string, a: seq<Entry>, b: seq<Entry>, t: Truth)
    requires key != "_not"
    ensures EntryMeaning(Entry(key, Obj(a + b)), "", t) <==>
            EntryMeaning(Entry(key, Obj(a)), "", t) && EntryMeaning(Entry(key, Obj(b)), "", t)
  {
    AllMeanConcat(a, b, Extend("", key), t);
    ObjectMeans(key, a, t);
    ObjectMeans(key, b, t);
    ObjectMeans(key, a + b, t);
  }

  /** What an object says under a key: nothing holds of it under `_and` and `_or`, which take lists. */
  lemma ObjectMeans(key: string, entries: seq<Entry>, t: Truth)
    requires key != "_not"
    ensures EntryMeaning(Entry(key, Obj(entries)), "", t) <==>
            key != "_and" && key != "_or" && AllMean(entries, Extend("", key), t)
  {
    if key != "_and" && key != "_or" {
      assert EntryMeaning(Entry(key, Obj(entries)), "", t) == Meaning(Obj(entries), Extend("", key), t);
    }
  }

  lemma AllMeanUpdate(entries: seq<Entry>, i: nat, e: Entry, path: string, t: Truth)
    requires i < |entries|
    ensures AllMean(entries[i := e], path, t) <==>
            AllMean(entries[..i], path, t) && EntryMeaning(e, path, t) && AllMean(entries[i + 1..], path, t)
  {
    assert entries[i := e] == entries[..i] + ([e] + entries[i + 1..]);
    AllMeanConcat(entries[..i], [e] + entries[i + 1..], path, t);
    AllMeanConcat([e], entries[i + 1..], path, t);
    assert AllMean([e], path, t) <==> EntryMeaning(e, path, t) by { assert e in [e]; }
  }

  lemma FuseMeans(merged: seq<Entry>, e: Entry, t: Truth)
    requires Fuse(merged, e).Some?
    requires e.key == "_not" ==> IndexOf(merged, "_not").None?
    ensures AllMean(Fuse(merged, e).value, "", t) <==> AllMean(merged, "", t) && EntryMeaning(e, "", t)
  {
    match IndexOf(merged, e.key)
    case None =>
      AllMeanConcat(merged, [e], "", t);
      assert AllMean([e], "", t) <==> EntryMeaning(e, "", t) by { assert e in [e]; }
    case Some(i) =>
      var a, b := merged[i].value.entries, e.value.entries;
      UnionMeans(e.key, a, b, t);
      AllMeanUpdate(merged, i, Entry(e.key, Obj(a + b)), "", t);
      AllMeanUpdate(merged, i, merged[i], "", t);
      assert merged[i := merged[i]] == merged;
      assert merged[i] == Entry(e.key, Obj(a)) && e == Entry(e.key, Obj(b));
  }

  /** At most one `_not` among what is merged and what is still to come. */
  predicate NotOnce(merged: seq<Entry>, entries: seq<Entry>) {
    entries != [] ==>
      && (entries[0].key == "_not" ==> IndexOf(merged, "_not").None? && IndexOf(entries[1..], "_not").None?)
      && (IndexOf(merged, "_not").Some? ==> IndexOf(entries, "_not").None?)
      && NotOnce(merged, entries[1..])
  }

  lemma {:induction false} NotOnceGrows(merged: seq<Entry>, next: seq<Entry>, entries: seq<Entry>)
    requires NotOnce(merged, entries)
    requires IndexOf(next, "_not").Some? ==> IndexOf(merged, "_not").Some? || IndexOf(entries, "_not").None?
    ensures NotOnce(next, entries)
    decreases |entries|
  {
    if entries != [] {
      NotOnceGrows(merged, next, entries[1..]);
    }
  }

  lemma FuseKeepsNot(merged: seq<Entry>, e: Entry)
    requires Fuse(merged, e).Some?
    ensures IndexOf(Fuse(merged, e).value, "_not").Some? ==> IndexOf(merged, "_not").Some? || e.key == "_not"
  {
    var next := Fuse(merged, e).value;
    if IndexOf(next, "_not").Some? && IndexOf(merged, "_not").None? {
      var i := IndexOf(next, "_not").value;
      assert next[i].key == "_not";
      if i < |merged| {
        assert merged[i] in merged;
      }
    }
  }

  lemma {:induction false} FuseAllMeans(merged: seq<Entry>, entries: seq<Entry>, t: Truth)
    requires NotOnce(merged, entries) && FuseAll(merged, entries).Some?
    ensures AllMean(FuseAll(merged, entries).value, "", t) <==> AllMean(merged, "", t) && AllMean(entries, "", t)
    decreases |entries|
  {
    if entries != [] {
      var next := Fuse(merged, entries[0]).value;
      FuseMeans(merged, entries[0], t);
      FuseKeepsNot(merged, entries[0]);
      NotOnceGrows(merged, next, entries[1..]);
      FuseAllMeans(next, entries[1..], t);
      assert entries == [entries[0]] + entries[1..];
      AllMeanConcat([entries[0]], entries[1..], "", t);
      assert AllMean([entries[0]], "", t) <==> EntryMeaning(entries[0], "", t) by { assert entries[0] in [entries[0]]; }
    }
  }

  lemma {:induction false} EntriesMean(conditions: seq<Json>, t: Truth)
    requires forall c :: c in conditions ==> c.Obj?
    ensures AllMean(Entries(conditions), "", t) <==> forall c :: c in conditions ==> Meaning(c, "", t)
  {
    if conditions != [] {
      var head, tail := conditions[0], conditions[1..];
      EntriesMean(tail, t);
      AllMeanConcat(head.entries, Entries(tail), "", t);
      assert conditions == [head] + tail;
      assert Meaning(head, "", t) <==> AllMean(head.entries, "", t) by { assert head in conditions; }
      assert (forall c :: c in conditions ==> Meaning(c, "", t)) <==>
             Meaning(head, "", t) && forall c :: c in tail ==> Meaning(c, "", t);
    }
  }

  /** Merging means the conjunction, as long as at most one clause is a negation. */
  lemma MergeMeansAll(conditions: seq<Json>, t: Truth)
    requires forall c :: c in conditions ==> c.Obj?
    requires NotOnce([], Entries(conditions))
    ensures Meaning(MergeConditions(conditions), "", t) <==> forall c :: c in conditions ==> Meaning(c, "", t)
  {
    match FuseAll([], Entries(conditions))
    case Some(merged) =>
      FuseAllMeans([], Entries(conditions), t);
      EntriesMean(conditions, t);
    case None =>
      SingleMeans("_and", Arr(conditions), "", t);
  }

  /** Fusing two negations would be wrong: not a, and not b, is not the same as not both. */
  lemma MergingTwoNegationsChangesMeaning()
    ensures exists a: Json, b: Json, t: Truth ::
              && Meaning(MergeConditions([Single("_not", a), Single("_not", b)]), "", t)
              && !Meaning(Single("_not", a), "", t)
  {
    var t: Truth := Truths((a: (string, string, Json), sure: bool) => a.0 == "x", true);
    var a := Single("x", Single("_eq", Null));
    var b := Single("y", Single("_eq", Null));
    var negations := [Single("_not", a), Single("_not", b)];
    var both := Obj(a.entries + b.entries);
    var merged := MergeConditions(negations);
    assert Entries(negations[1..]) == [Entry("_not", b)] by { assert negations[1..][1..] == []; }
    assert Entries(negations) == [Entry("_not", a), Entry("_not", b)];
    assert Fuse([], Entry("_not", a)) == Some([Entry("_not", a)]) by {
      assert [] + [Entry("_not", a)] == [Entry("_not", a)];
    }
    assert !SharesKey(a.entries, b.entries);
    assert Fuse([Entry("_not", a)], Entry("_not", b)) == Some([Entry("_not", both)]) by {
      assert [Entry("_not", a)][0 := Entry("_not", both)] == [Entry("_not", both)];
    }
    assert [Entry("_not", a), Entry("_not", b)][1..] == [Entry("_not", b)];
    assert [Entry("_not", b)][1..] == [];
    assert FuseAll([Entry("_not", a)], [Entry("_not", b)]) == FuseAll([Entry("_not", both)], []);
    assert merged == Single("_not", both);
    var x, y := Entry("x", Single("_eq", Null)), Entry("y", Single("_eq", Null));
    SingleMeans("_eq", Null, "x", Opposite(t));
    SingleMeans("_eq", Null, "y", Opposite(t));
    assert EntryMeaning(x, "", Opposite(t)) && !EntryMeaning(y, "", Opposite(t));
    SingleMeans("x", x.value, "", Opposite(t));
    SingleMeans("_not", a, "", t);
    SingleMeans("_not", both, "", t);
    assert y in both.entries && !Meaning(both, "", Opposite(t));
  }

  // ---- Compilation preserves meaning ----------------------------------------------------------------

  /** A nested clause means its comparison at the joined path. */
  lemma {:induction false} NestedMeans(segments: seq<string>, value: Json, path: string, t: Truth)
    requires segments != [] && ProperSegments(path, segments)
    ensures Meaning(Nested(segments, value), path, t) <==> Meaning(value, ExtendAll(path, segments), t)
    decreases |segments|
  {
    var inner := if |segments| == 1 then value else Nested(segments[1..], value);
    SingleMeans(segments[0], inner, path, t);
    if |segments| == 1 {
      assert segments[1..] == [];
    } else {
      NestedMeans(segments[1..], value, Extend(path, segments[0]), t);
    }
  }

  lemma TestMeans(field: Field, test: Test, t: Truth)
    requires ProperPath(field.wire)
    ensures Meaning(TestCondition(field, test), "", t) <==> Is(AsSent(t), (field, test.op, test.operand))
    ensures TestCondition(field, test).Obj?
  {
    var segments := Split(field.wire);
    var leaf := Single(WireOperator(test.op), WireOperand(test.op, test.operand));
    NestedMeans(segments, leaf, "", t);
    ExtendAllJoins("", segments);
    SplitJoined(field.wire);
    assert field.wire != "";
    WireOperatorIsKey(test.op);
    SingleMeans(WireOperator(test.op), WireOperand(test.op, test.operand), field.wire, t);
  }

  /** What the clauses of a valid filter compile to: single entries, at most one a negation. */
  predicate IsNegation(c: Json) {
    c.Obj? && |c.entries| == 1 && c.entries[0].key == "_not"
  }

  ghost predicate Merges(conditions: seq<Json>) {
    && (forall c :: c in conditions ==> c.Obj? && |c.entries| == 1)
    && (forall i, j :: 0 <= i < j < |conditions| ==> !IsNegation(conditions[i]) || !IsNegation(conditions[j]))
  }

  lemma {:induction false} MergesNotOnce(merged: seq<Entry>, conditions: seq<Json>)
    requires Merges(conditions)
    requires IndexOf(merged, "_not").Some? ==> forall c :: c in conditions ==> !IsNegation(c)
    ensures NotOnce(merged, Entries(conditions))
    ensures (forall c :: c in conditions ==> !IsNegation(c)) ==> IndexOf(Entries(conditions), "_not").None?
    decreases |conditions|
  {
    if conditions != [] {
      var head, tail := conditions[0], conditions[1..];
      var e := head.entries[0];
      assert head in conditions;
      assert forall k :: 0 <= k < |tail| ==> tail[k] == conditions[k + 1];
      assert forall c :: c in tail ==> c in conditions;
      assert Merges(tail);
      MergesNotOnce(merged, tail);
      assert head.entries == [e];
      assert Entries(conditions) == [e] + Entries(tail);
      assert ([e] + Entries(tail))[1..] == Entries(tail);
      if e.key == "_not" {
        assert IsNegation(conditions[0]);
        assert forall c :: c in tail ==> !IsNegation(c);
      }
    }
  }

  lemma ClauseConditionsShape(cl: Clause)
    requires cl.Compare? ==> ProperPath(cl.field.wire)
    ensures Merges(ClauseConditions(cl))
    ensures !cl.Not? ==> forall c :: c in ClauseConditions(cl) ==> !IsNegation(c)
  {
    if cl.Compare? {
      var segments := Split(cl.field.wire);
      assert segments[0] in segments;
    }
  }

  lemma {:induction false} ConditionsMerge(c: Contract, f: Filter, k: nat)
    requires ProperContract(c) && Valid(c, f) && k <= |f.clauses|
    ensures Merges(Conditions(f, k))
    ensures (forall i :: 0 <= i < k ==> !f.clauses[i].Not?) ==> forall x :: x in Conditions(f, k) ==> !IsNegation(x)
    decreases k
  {
    if k > 0 {
      var cl := f.clauses[k - 1];
      assert ValidClause(c, cl);
      ConditionsMerge(c, f, k - 1);
      ClauseConditionsShape(cl);
      if cl.Not? {
        forall i | 0 <= i < k - 1 ensures !f.clauses[i].Not? {
          assert KeyOf(f.clauses[i]) != KeyOf(f.clauses[k - 1]);
        }
      }
    }
  }

  lemma {:induction false} ConditionsMean(c: Contract, f: Filter, k: nat, t: Truth)
    requires ProperContract(c) && Valid(c, f) && k <= |f.clauses|
    ensures (forall x :: x in Conditions(f, k) ==> Meaning(x, "", t)) <==>
            forall i :: 0 <= i < k ==> ClauseHolds(f.clauses[i], AsSent(t))
    decreases f, k
  {
    if k > 0 {
      var cl := f.clauses[k - 1];
      assert ValidClause(c, cl);
      ConditionsMean(c, f, k - 1, t);
      ClauseMeans(c, cl, t);
      var before, last := Conditions(f, k - 1), ClauseConditions(cl);
      BothHold(before, last, x => Meaning(x, "", t));
      assert Conditions(f, k) == before + last;
    }
  }

  lemma BothHold(a: seq<Json>, b: seq<Json>, p: Json -> bool)
    ensures (forall x :: x in a + b ==> p(x)) <==> (forall x :: x in a ==> p(x)) && (forall x :: x in b ==> p(x))
  {
    if forall x :: x in a + b ==> p(x) {
      assert forall x :: x in a ==> x in a + b;
      assert forall x :: x in b ==> x in a + b;
    }
  }

  lemma {:induction false} ClauseMeans(c: Contract, cl: Clause, t: Truth)
    requires ProperContract(c) && ValidClause(c, cl)
    ensures (forall x :: x in ClauseConditions(cl) ==> Meaning(x, "", t)) <==> ClauseHolds(cl, AsSent(t))
    decreases cl, 0
  {
    match cl
    case All(branches) =>
      BranchesMean(c, cl, branches, t);
      OneCondition("_and", cl, t);
    case Any(branches) =>
      BranchesMean(c, cl, branches, t);
      OneCondition("_or", cl, t);
    case Not(f) =>
      WhereMeans(c, f, Opposite(t));
      SingleMeans("_not", Where(f), "", t);
      var conditions := ClauseConditions(cl);
      assert conditions[0] in conditions;
    case Compare(field, tests) =>
      TestsMean(c, cl, t);
  }

  /** A condition per branch, holding together and apart as the branches do. */
  lemma {:induction false} BranchesMean(c: Contract, cl: Clause, branches: seq<Filter>, t: Truth)
    requires ProperContract(c) && (cl == All(branches) || cl == Any(branches)) && ValidClause(c, cl)
    ensures |ClauseConditions(cl)| == 1 && |ClauseConditions(cl)[0].entries| == 1 && ClauseConditions(cl)[0].entries[0].value.Arr?
    ensures var items := ClauseConditions(cl)[0].entries[0].value.items;
            && ((forall x :: x in items ==> Meaning(x, "", t)) <==> forall f :: f in branches ==> Holds(f, AsSent(t)))
            && ((exists x :: x in items && Meaning(x, "", t)) <==> exists f :: f in branches && Holds(f, AsSent(t)))
    decreases branches, 1
  {
    var items := ClauseConditions(cl)[0].entries[0].value.items;
    forall i | 0 <= i < |branches|
      ensures items[i] == Where(branches[i]) && (Meaning(items[i], "", t) <==> Holds(branches[i], AsSent(t)))
    {
      WhereMeans(c, branches[i], t);
    }
    AllPairs(items, branches, x => Meaning(x, "", t), f => Holds(f, AsSent(t)));
    AllPairs(items, branches, x => !Meaning(x, "", t), f => !Holds(f, AsSent(t)));
  }

  lemma AllPairs<A, B>(s: seq<A>, u: seq<B>, p: A -> bool, q: B -> bool)
    requires |s| == |u| && forall i :: 0 <= i < |s| ==> p(s[i]) == q(u[i])
    ensures (forall x :: x in s ==> p(x)) <==> (forall y :: y in u ==> q(y))
  {
    if forall x :: x in s ==> p(x) {
      forall y | y in u ensures q(y) {
        var i :| 0 <= i < |u| && u[i] == y;
        assert s[i] in s;
      }
    }
    if forall y :: y in u ==> q(y) {
      forall x | x in s ensures p(x) {
        var i :| 0 <= i < |s| && s[i] == x;
        assert u[i] in u;
      }
    }
  }

  lemma OneCondition(key: string, cl: Clause, t: Truth)
    requires (cl.All? && key == "_and") || (cl.Any? && key == "_or")
    ensures var items := ClauseConditions(cl)[0].entries[0].value.items;
            (forall x :: x in ClauseConditions(cl) ==> Meaning(x, "", t)) <==>
            if cl.All? then forall x :: x in items ==> Meaning(x, "", t) else exists x :: x in items && Meaning(x, "", t)
  {
    var conditions := ClauseConditions(cl);
    assert conditions[0] in conditions;
    SingleMeans(key, Arr(conditions[0].entries[0].value.items), "", t);
  }

  lemma TestsMean(c: Contract, cl: Clause, t: Truth)
    requires ProperContract(c) && cl.Compare? && ValidClause(c, cl)
    ensures (forall x :: x in ClauseConditions(cl) ==> Meaning(x, "", t)) <==> ClauseHolds(cl, AsSent(t))
  {
    var conditions := ClauseConditions(cl);
    forall i | 0 <= i < |cl.tests|
      ensures Meaning(conditions[i], "", t) <==> Is(AsSent(t), (cl.field, cl.tests[i].op, cl.tests[i].operand))
    {
      TestMeans(cl.field, cl.tests[i], t);
    }
    if forall x :: x in conditions ==> Meaning(x, "", t) {
      forall x | x in cl.tests ensures Is(AsSent(t), (cl.field, x.op, x.operand)) {
        var i :| 0 <= i < |cl.tests| && cl.tests[i] == x;
        assert conditions[i] in conditions;
      }
      assert ClauseHolds(cl, AsSent(t));
    }
    if ClauseHolds(cl, AsSent(t)) {
      forall x | x in conditions ensures Meaning(x, "", t) {
        var i :| 0 <= i < |conditions| && conditions[i] == x;
        assert cl.tests[i] in cl.tests;
      }
    }
  }

  /** A valid filter and the condition it compiles to have the same truth value, whatever
      the truth of each wire comparison. */
  lemma {:induction false} WhereMeans(c: Contract, f: Filter, t: Truth)
    requires ProperContract(c) && Valid(c, f)
    ensures Meaning(Where(f), "", t) <==> Holds(f, AsSent(t))
    decreases f, |f.clauses| + 1
  {
    var conditions := Conditions(f, |f.clauses|);
    ConditionsMerge(c, f, |f.clauses|);
    MergesNotOnce([], conditions);
    MergeMeansAll(conditions, t);
    ConditionsMean(c, f, |f.clauses|, t);
  }

  // ---- The whole where clause ----------------------------------------------------------------------

  /** One Boolean operator at the root when there are several predicates. */
  function HasuraRoot(where: Json): Json
    requires where.Obj?
  {
    if |where.entries| <= 1 then where
    else Single("_and", Arr(seq(|where.entries|, i requires 0 <= i < |where.entries| =>
                                                   Single(where.entries[i].key, where.entries[i].value))))
  }

  function Parts(filters: seq<Filter>): (r: seq<Json>)
    ensures forall p :: p in r ==> p.Obj?
  {
    if filters == [] then []
    else (if Where(filters[0]) == Obj([]) then [] else [Where(filters[0])]) + Parts(filters[1..])
  }

  function ToWhere(filters: seq<Filter>): Json {
    var parts := Parts(filters);
    HasuraRoot(if |parts| == 0 then Obj([]) else if |parts| == 1 then parts[0] else Single("_and", Arr(parts)))
  }

  lemma HasuraRootMeans(where: Json, t: Truth)
    requires where.Obj?
    ensures Meaning(HasuraRoot(where), "", t) <==> Meaning(where, "", t)
  {
    if |where.entries| > 1 {
      var items := HasuraRoot(where).entries[0].value.items;
      SingleMeans("_and", Arr(items), "", t);
      forall i | 0 <= i < |items| ensures Meaning(items[i], "", t) <==> EntryMeaning(where.entries[i], "", t) {
        SingleMeans(where.entries[i].key, where.entries[i].value, "", t);
      }
      if forall x :: x in items ==> Meaning(x, "", t) {
        forall e | e in where.entries ensures EntryMeaning(e, "", t) {
          var i :| 0 <= i < |where.entries| && where.entries[i] == e;
          assert items[i] in items;
        }
      }
    }
  }

  lemma {:induction false} PartsMean(c: Contract, filters: seq<Filter>, t: Truth)
    requires ProperContract(c) && forall f :: f in filters ==> Valid(c, f)
    ensures (forall p :: p in Parts(filters) ==> Meaning(p, "", t)) <==>
            forall f :: f in filters ==> Holds(f, AsSent(t))
  {
    if filters != [] {
      var head, tail := filters[0], filters[1..];
      assert head in filters;
      assert forall f :: f in tail ==> f in filters;
      PartsMean(c, tail, t);
      WhereMeans(c, head, t);
      assert filters == [head] + tail;
      assert (forall f :: f in filters ==> Holds(f, AsSent(t))) <==>
             Holds(head, AsSent(t)) && forall f :: f in tail ==> Holds(f, AsSent(t));
      if Where(head) != Obj([]) {
        assert Parts(filters) == [Where(head)] + Parts(tail);
        assert (forall p :: p in Parts(filters) ==> Meaning(p, "", t)) <==>
               Meaning(Where(head), "", t) && forall p :: p in Parts(tail) ==> Meaning(p, "", t);
      } else {
        assert Parts(filters) == Parts(tail);
      }
    }
  }

  /** Compilation preserves meaning: the condition holds exactly when every filter does. */
  lemma ToWhereMeansAll(c: Contract, filters: seq<Filter>, t: Truth)
    requires ProperContract(c) && forall f :: f in filters ==> Valid(c, f)
    ensures Meaning(ToWhere(filters), "", t) <==> forall f :: f in filters ==> Holds(f, AsSent(t))
  {
    var parts := Parts(filters);
    PartsMean(c, filters, t);
    if |parts| == 0 {
      HasuraRootMeans(Obj([]), t);
    } else if |parts| == 1 {
      HasuraRootMeans(parts[0], t);
      assert parts[0] in parts;
    } else {
      HasuraRootMeans(Single("_and", Arr(parts)), t);
      SingleMeans("_and", Arr(parts), "", t);
    }
  }

  // ---- The same by loops ---------------------------------------------------------------------------

  method WritePath(segments: seq<string>, value: Json) returns (clause: Json)
    requires segments != []
    ensures clause == Nested(segments, value)
  {
    clause := Single(segments[|segments| - 1], value);
    for k := |segments| - 1 downto 0
      invariant clause == Nested(segments[k..], value)
    {
      assert segments[k..][1..] == segments[k + 1..];
      clause := Single(segments[k], clause);
    }
  }

  method CompileWhere(f: Filter) returns (where: Json)
    ensures where == Where(f)
    decreases f, 1
  {
    var conditions: seq<Json> := [];
    for k := 0 to |f.clauses|
      invariant conditions == Conditions(f, k)
    {
      var more := CompileClause(f.clauses[k]);
      conditions := conditions + more;
    }
    where := MergeConditionsLoop(conditions);
  }

  method CompileClause(cl: Clause) returns (conditions: seq<Json>)
    ensures conditions == ClauseConditions(cl)
    decreases cl, 1
  {
    match cl
    case All(branches) =>
      var items := CompileBranches(cl, branches);
      assert items == ClauseConditions(cl)[0].entries[0].value.items;
      conditions := [Single("_and", Arr(items))];
    case Any(branches) =>
      var items := CompileBranches(cl, branches);
      assert items == ClauseConditions(cl)[0].entries[0].value.items;
      conditions := [Single("_or", Arr(items))];
    case Not(f) =>
      var where := CompileWhere(f);
      conditions := [Single("_not", where)];
    case Compare(field, tests) =>
      conditions := [];
      for k := 0 to |tests|
        invariant |conditions| == k && forall i :: 0 <= i < k ==> conditions[i] == TestCondition(field, tests[i])
      {
        var leaf := Single(WireOperator(tests[k].op), WireOperand(tests[k].op, tests[k].operand));
        var clause := WritePath(Split(field.wire), leaf);
        conditions := conditions + [clause];
      }
  }

  method CompileBranches(ghost cl: Clause, branches: seq<Filter>) returns (items: seq<Json>)
    requires forall f :: f in branches ==> f < cl
    ensures |items| == |branches| && forall i :: 0 <= i < |items| ==> items[i] == Where(branches[i])
    decreases cl, 0
  {
    items := [];
    for k := 0 to |branches|
      invariant |items| == k && forall i :: 0 <= i < k ==> items[i] == Where(branches[i])
    {
      assert branches[k] in branches;
      var where := CompileWhere(branches[k]);
      items := items + [where];
    }
  }
}
