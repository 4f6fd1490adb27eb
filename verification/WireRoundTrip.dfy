/** When a compiled condition can be decoded again: exactly when it is narrow and nests within
    the depth limit; and then nothing of its meaning is lost. */
module WireRoundTrip {
  import opened Common
  import opened FilterLanguage
  import opened WireConditions
  import opened WireDecoding

  /** The operators that share a LIKE key. */
  predicate IsPattern(op: Operator) {
    WireOperator(op) == "_like" || WireOperator(op) == "_ilike"
  }

  lemma OtherKeysAreUnique(a: Operator, b: Operator)
    requires WireOperator(a) == WireOperator(b) && !IsPattern(a)
    ensures a == b
  {
  }

  /** One wire path per field, none continuing another, and text operands kept as they are. */
  ghost predicate Invertible(c: Contract) {
    ProperContract(c) && Idempotent(c) && DistinctWires(c.fields) && NoneContinues(c.fields) && KeepsText(c)
  }

  ghost predicate DistinctWires(fields: seq<Field>) {
    fields == [] || (DistinctWires(fields[1..]) && forall f :: f in fields[1..] ==> f.wire != fields[0].wire)
  }

  ghost predicate NoneContinues(fields: seq<Field>) {
    forall f :: f in fields ==> !LeadsSomewhere(fields, f.wire)
  }

  ghost predicate KeepsText(c: Contract) {
    forall field, op, v :: IsPattern(op) ==> c.operand(field, op, v) == if v.Str? then Some(v) else None
  }

  predicate IsField(c: Contract, wire: string) {
    exists f :: f in c.fields && f.wire == wire
  }

  lemma FieldMatches(c: Contract, wire: string)
    ensures IsField(c, wire) <==> Matching(c.fields, wire) != []
  {
    if IsField(c, wire) {
      var f :| f in c.fields && f.wire == wire;
      assert f in Matching(c.fields, wire);
    }
    if Matching(c.fields, wire) != [] {
      var f := Matching(c.fields, wire)[0];
      assert f in Matching(c.fields, wire);
    }
  }

  // ---- Shapes that can be decoded ----------------------------------------------------------------

  /** The conditions that compilation produces: Boolean operators above, relation keys below
      them, and at each field's path comparisons that decode to themselves. */
  ghost predicate Shaped(c: Contract, j: Json)
    decreases j
  {
    j.Obj? && forall e :: e in j.entries ==> ShapedEntry(c, e)
  }

  ghost predicate ShapedEntry(c: Contract, e: Entry)
    decreases e, 1
  {
    if e.key == "_and" || e.key == "_or" then e.value.Arr? && forall x :: x in e.value.items ==> Shaped(c, x)
    else if e.key == "_not" then Shaped(c, e.value)
    else ShapedPath(c, e, "")
  }

  ghost predicate ShapedPath(c: Contract, e: Entry, prefix: string)
    decreases e, 0
  {
    var wire := Extend(prefix, e.key);
    && e.key !in BOOLEAN_KEYS && e.value.Obj? && e.value.entries != []
    && if IsField(c, wire) then exists field :: field in c.fields && field.wire == wire && AllDecode(c, field, e.value.entries)
       else wire != "" && LeadsSomewhere(c.fields, wire) && forall x :: x in e.value.entries ==> ShapedPath(c, x, wire)
  }

  ghost predicate AllDecode(c: Contract, field: Field, entries: seq<Entry>) {
    forall x :: x in entries ==> DecodesToItself(c, field, x)
  }

  predicate DecodesToItself(c: Contract, field: Field, x: Entry) {
    DecodeTest(c, field, x).Some? && TestEntry(DecodeTest(c, field, x).value) == x
  }

  // ---- Narrowness and nesting ----------------------------------------------------------------------

  /** Below a relation key there is one key. */
  predicate Narrow(c: Contract, j: Json)
    decreases j
  {
    j.Obj? ==> forall e :: e in j.entries ==> NarrowEntry(c, e)
  }

  predicate NarrowEntry(c: Contract, e: Entry)
    decreases e, 1
  {
    if e.key == "_and" || e.key == "_or" then e.value.Arr? ==> forall x :: x in e.value.items ==> Narrow(c, x)
    else if e.key == "_not" then Narrow(c, e.value)
    else NarrowPath(c, e, "")
  }

  predicate NarrowPath(c: Contract, e: Entry, prefix: string)
    decreases e, 0
  {
    var wire := Extend(prefix, e.key);
    IsField(c, wire) || (e.value.Obj? && |e.value.entries| == 1 && NarrowPath(c, e.value.entries[0], wire))
  }

  /** How deep a condition nests: Boolean operators, and relation keys above a field. */
  function Nest(c: Contract, j: Json): nat
    decreases j
  {
    if j.Obj? then NestEntries(c, j.entries) else 0
  }

  function NestEntries(c: Contract, entries: seq<Entry>): nat
    decreases entries, 2
  {
    if entries == [] then 0 else Max(NestEntry(c, entries[0]), NestEntries(c, entries[1..]))
  }

  function NestEntry(c: Contract, e: Entry): nat
    decreases e, 1
  {
    if e.key == "_and" || e.key == "_or" then
      if e.value.Arr? && e.value.items != [] then 1 + NestItems(c, e.value.items) else 0
    else if e.key == "_not" then 1 + Nest(c, e.value)
    else NestPath(c, e, "")
  }

  function NestPath(c: Contract, e: Entry, prefix: string): nat
    decreases e, 0
  {
    var wire := Extend(prefix, e.key);
    if IsField(c, wire) || !e.value.Obj? || e.value.entries == [] then 0
    else 1 + NestPath(c, e.value.entries[0], wire)
  }

  function NestItems(c: Contract, items: seq<Json>): nat
    decreases items
  {
    if items == [] then 0 else Max(Nest(c, items[0]), NestItems(c, items[1..]))
  }

  function Max(a: nat, b: nat): nat {
    if a < b then b else a
  }

  // ---- What decodes ----------------------------------------------------------------------------------

  lemma {:induction false} AllDecodeTests(c: Contract, field: Field, entries: seq<Entry>)
    requires AllDecode(c, field, entries)
    ensures DecodeTests(c, field, entries).Some?
  {
    if entries != [] {
      assert entries[0] in entries;
      AllDecodeTests(c, field, entries[1..]);
    }
  }

  lemma {:induction false} MatchingUnique(fields: seq<Field>, field: Field)
    requires field in fields && DistinctWires(fields)
    ensures Matching(fields, field.wire) == [field]
  {
    var tail := fields[1..];
    assert forall k :: 0 <= k < |tail| ==> tail[k] == fields[k + 1];
    if fields[0] == field {
      NoneMatching(tail, field.wire);
    } else {
      MatchingUnique(tail, field);
      var k :| 0 <= k < |fields| && fields[k] == field;
      assert fields[0].wire != fields[k].wire;
    }
  }

  /** A shaped condition is accepted exactly when it is narrow and its nesting fits under the
      depth limit. */
  lemma {:induction false} ShapedDecodes(c: Contract, j: Json, depth: nat)
    requires Invertible(c) && Shaped(c, j)
    ensures Decode(c, j, "", depth).Some? <==> Narrow(c, j) && depth + Nest(c, j) <= MAX_DEPTH
    decreases j
  {
    if depth <= MAX_DEPTH {
      ShapedEntriesDecode(c, j.entries, depth);
    }
  }

  lemma {:induction false} ShapedEntriesDecode(c: Contract, entries: seq<Entry>, depth: nat)
    requires Invertible(c) && depth <= MAX_DEPTH && forall e :: e in entries ==> ShapedEntry(c, e)
    ensures DecodeEntries(c, entries, "", depth).Some? <==>
            (forall e :: e in entries ==> NarrowEntry(c, e)) && depth + NestEntries(c, entries) <= MAX_DEPTH
    decreases entries, 2
  {
    if entries != [] {
      ShapedEntryDecodes(c, entries[0], depth);
      ShapedEntriesDecode(c, entries[1..], depth);
      assert forall e :: e in entries <==> e == entries[0] || e in entries[1..];
    }
  }

  lemma {:induction false} ShapedEntryDecodes(c: Contract, e: Entry, depth: nat)
    requires Invertible(c) && depth <= MAX_DEPTH && ShapedEntry(c, e)
    ensures DecodeEntry(c, e, "", depth).Some? <==> NarrowEntry(c, e) && depth + NestEntry(c, e) <= MAX_DEPTH
    decreases e, 1
  {
    if e.key == "_and" || e.key == "_or" {
      ShapedItemsDecode(c, e.value.items, depth + 1);
    } else if e.key == "_not" {
      ShapedDecodes(c, e.value, depth + 1);
    } else {
      ShapedPathDecodes(c, e, "", depth);
    }
  }

  lemma {:induction false} ShapedPathDecodes(c: Contract, e: Entry, prefix: string, depth: nat)
    requires DistinctWires(c.fields) && depth <= MAX_DEPTH && ShapedPath(c, e, prefix)
    ensures DecodeEntry(c, e, prefix, depth).Some? <==> NarrowPath(c, e, prefix) && depth + NestPath(c, e, prefix) <= MAX_DEPTH
    decreases e, 0
  {
    var wire := Extend(prefix, e.key);
    if IsField(c, wire) {
      FieldDecodes(c, e, prefix, depth);
    } else {
      RelationCase(c, e, prefix, depth);
      if depth + 1 <= MAX_DEPTH { ShapedPathDecodes(c, e.value.entries[0], wire, depth + 1); }
    }
  }

  /** A path through a relation decodes when there is one path below it and that decodes, one
      level deeper. */
  lemma RelationCase(c: Contract, e: Entry, prefix: string, depth: nat)
    requires ShapedPath(c, e, prefix) && !IsField(c, Extend(prefix, e.key))
    ensures var wire, x := Extend(prefix, e.key), e.value.entries[0];
            && ShapedPath(c, x, wire) && NestPath(c, e, prefix) == 1 + NestPath(c, x, wire)
            && (NarrowPath(c, e, prefix) <==> |e.value.entries| == 1 && NarrowPath(c, x, wire))
            && (DecodeEntry(c, e, prefix, depth).Some? <==>
                depth + 1 <= MAX_DEPTH && |e.value.entries| == 1 && DecodeEntry(c, x, wire, depth + 1).Some?)
  {
    assert e.value.entries[0] in e.value.entries;
    RelationDecodes(c, e, prefix, depth);
  }

  lemma FieldDecodes(c: Contract, e: Entry, prefix: string, depth: nat)
    requires DistinctWires(c.fields) && ShapedPath(c, e, prefix) && IsField(c, Extend(prefix, e.key))
    ensures DecodeEntry(c, e, prefix, depth).Some? && NarrowPath(c, e, prefix) && NestPath(c, e, prefix) == 0
  {
    var wire := Extend(prefix, e.key);
    var field :| field in c.fields && field.wire == wire && AllDecode(c, field, e.value.entries);
    MatchingUnique(c.fields, field);
    AllDecodeTests(c, field, e.value.entries);
  }

  /** Below a relation one key is decoded, one level deeper; more are refused. */
  lemma RelationDecodes(c: Contract, e: Entry, prefix: string, depth: nat)
    requires ShapedPath(c, e, prefix) && !IsField(c, Extend(prefix, e.key))
    ensures DecodeEntry(c, e, prefix, depth).Some? <==>
            depth + 1 <= MAX_DEPTH && |e.value.entries| == 1 &&
            DecodeEntry(c, e.value.entries[0], Extend(prefix, e.key), depth + 1).Some?
  {
    var wire, x := Extend(prefix, e.key), e.value.entries[0];
    FieldMatches(c, wire);
    assert x in e.value.entries;
    assert x.key !in BOOLEAN_KEYS by { assert ShapedPath(c, x, wire); }
    OneEntryDecodes(c, x, wire, depth + 1);
    assert |e.value.entries| == 1 ==> e.value.entries == [x];
    assert DecodeEntry(c, e, prefix, depth) == Decode(c, e.value, wire, depth + 1);
  }

  lemma OneEntryDecodes(c: Contract, x: Entry, prefix: string, depth: nat)
    ensures DecodeEntries(c, [x], prefix, depth).Some? <==> DecodeEntry(c, x, prefix, depth).Some?
  {
    assert [x][1..] == [];
    assert DecodeEntries(c, [], prefix, depth) == Some([]);
  }

  lemma {:induction false} ShapedItemsDecode(c: Contract, items: seq<Json>, depth: nat)
    requires Invertible(c) && forall x :: x in items ==> Shaped(c, x)
    ensures DecodeBranches(c, items, "", depth).Some? <==>
            (forall x :: x in items ==> Narrow(c, x)) && (items == [] || depth + NestItems(c, items) <= MAX_DEPTH)
    decreases items
  {
    if items != [] {
      ShapedDecodes(c, items[0], depth);
      ShapedItemsDecode(c, items[1..], depth);
      assert forall x :: x in items <==> x == items[0] || x in items[1..];
    }
  }

  // ---- Shaped conditions have canonical operands ---------------------------------------------------

  lemma {:induction false} ShapedIsCanonical(c: Contract, j: Json)
    requires Invertible(c) && Shaped(c, j)
    ensures Everywhere(c, j, "", Unchanged())
    decreases j
  {
    forall e | e in j.entries ensures EntryEverywhere(c, e, "", Unchanged()) {
      ShapedEntryIsCanonical(c, e);
    }
  }

  lemma {:induction false} ShapedEntryIsCanonical(c: Contract, e: Entry)
    requires Invertible(c) && ShapedEntry(c, e)
    ensures EntryEverywhere(c, e, "", Unchanged())
    decreases e, 1
  {
    if e.key == "_and" || e.key == "_or" {
      forall x | x in e.value.items ensures Everywhere(c, x, "", Unchanged()) { ShapedIsCanonical(c, x); }
    } else if e.key == "_not" {
      ShapedIsCanonical(c, e.value);
    } else {
      ShapedPathIsCanonical(c, e, "");
    }
  }

  lemma {:induction false} ShapedPathIsCanonical(c: Contract, e: Entry, prefix: string)
    requires DistinctWires(c.fields) && ShapedPath(c, e, prefix)
    ensures EntryEverywhere(c, e, prefix, Unchanged())
    decreases e, 0
  {
    var wire := Extend(prefix, e.key);
    if IsField(c, wire) {
      var field :| field in c.fields && field.wire == wire && AllDecode(c, field, e.value.entries);
      MatchingUnique(c.fields, field);
      assert TestsEverywhere(c, field, e.value.entries, Unchanged());
    } else {
      forall x | x in e.value.entries ensures EntryEverywhere(c, x, wire, Unchanged()) {
        ShapedPathIsCanonical(c, x, wire);
      }
    }
  }

  // ---- Compiled conditions are shaped ------------------------------------------------------------------

  /** Every valid comparison decodes again, possibly to another operator of the same key, which
      is sent the same. */
  lemma TestDecodes(c: Contract, field: Field, test: Test)
    requires KeepsText(c) && field in c.fields && ValidTest(c, field, test)
    ensures DecodesToItself(c, field, TestEntry(test))
  {
    var key, value := WireOperator(test.op), WireOperand(test.op, test.operand);
    if test.operand.Str? {
      OperandRoundTrip(test.op, test.operand.s);
    }
    assert FromWireOperand(test.op, value).Some? by {
      if FormOf(test.op).Some? {
        assert IsPattern(test.op);
        assert test.operand.Str?;
      }
    }
    var op := OperatorFor(field, key, value).value;
    var raw := FromWireOperand(op, value).value;
    assert WireOperand(op, raw) == value;
    if IsPattern(op) {
      assert IsPattern(test.op) && test.operand.Str? && value.Str? && raw.Str?;
      assert c.operand(field, op, raw) == Some(raw);
    } else {
      OtherKeysAreUnique(op, test.op);
      assert FormOf(op).None? && raw == test.operand;
    }
  }

  lemma FieldLeadsNowhere(c: Contract, wire: string)
    requires NoneContinues(c.fields)
    ensures IsField(c, wire) ==> !LeadsSomewhere(c.fields, wire)
  {
  }

  lemma {:induction false} NestedShaped(c: Contract, field: Field, prefix: string, segments: seq<string>, leaf: Entry)
    requires NoneContinues(c.fields) && field in c.fields && DecodesToItself(c, field, leaf)
    requires segments != [] && ProperSegments(prefix, segments) && ExtendAll(prefix, segments) == field.wire
    requires prefix != "" || segments[0] != ""
    ensures ShapedPath(c, Nested(segments, Obj([leaf])).entries[0], prefix)
    decreases |segments|
  {
    var e := Nested(segments, Obj([leaf])).entries[0];
    var wire := Extend(prefix, segments[0]);
    if |segments| == 1 {
      assert segments[1..] == [];
      assert wire == field.wire && field in Matching(c.fields, wire);
      assert AllDecode(c, field, e.value.entries);
    } else {
      var rest := segments[1..];
      ExtendAllJoinsNonempty(wire, rest);
      assert wire + "." <= field.wire by { assert field.wire == (wire + ".") + Joined(rest); }
      assert LeadsSomewhere(c.fields, wire);
      FieldLeadsNowhere(c, wire);
      NestedShaped(c, field, wire, rest, leaf);
      assert e.value.entries == [Nested(rest, Obj([leaf])).entries[0]];
    }
  }

  lemma TestConditionShaped(c: Contract, field: Field, test: Test)
    requires Invertible(c) && field in c.fields && ValidTest(c, field, test)
    ensures Shaped(c, TestCondition(field, test))
  {
    var segments, leaf := Split(field.wire), TestEntry(test);
    TestDecodes(c, field, test);
    assert ProperPath(field.wire);
    ExtendAllJoins("", segments);
    SplitJoined(field.wire);
    NestedShaped(c, field, "", segments, leaf);
    assert TestCondition(field, test) == Nested(segments, Obj([leaf]));
    var e := Nested(segments, Obj([leaf])).entries[0];
    assert Nested(segments, Obj([leaf])).entries == [e];
  }

  lemma FusedShaped(c: Contract, key: string, a: seq<Entry>, b: seq<Entry>)
    requires Invertible(c) && ShapedEntry(c, Entry(key, Obj(a))) && ShapedEntry(c, Entry(key, Obj(b)))
    ensures ShapedEntry(c, Entry(key, Obj(a + b)))
  {
    if key == "_not" {
      assert Shaped(c, Obj(a)) && Shaped(c, Obj(b));
      assert Shaped(c, Obj(a + b));
    } else if IsField(c, key) {
      var left :| left in c.fields && left.wire == key && AllDecode(c, left, a);
      var right :| right in c.fields && right.wire == key && AllDecode(c, right, b);
      MatchingUnique(c.fields, left);
      MatchingUnique(c.fields, right);
      assert AllDecode(c, left, a + b);
    } else {
      assert ShapedPath(c, Entry(key, Obj(a)), "") && ShapedPath(c, Entry(key, Obj(b)), "");
      assert forall x :: x in a + b ==> ShapedPath(c, x, key);
    }
  }

  lemma FuseShaped(c: Contract, merged: seq<Entry>, e: Entry)
    requires Invertible(c) && Fuse(merged, e).Some?
    requires ShapedEntry(c, e) && forall x :: x in merged ==> ShapedEntry(c, x)
    ensures forall x :: x in Fuse(merged, e).value ==> ShapedEntry(c, x)
  {
    match IndexOf(merged, e.key)
    case None =>
    case Some(i) =>
      var a, b := merged[i].value.entries, e.value.entries;
      assert merged[i] in merged && merged[i] == Entry(e.key, Obj(a)) && e == Entry(e.key, Obj(b));
      FusedShaped(c, e.key, a, b);
  }

  lemma {:induction false} FuseAllShaped(c: Contract, merged: seq<Entry>, entries: seq<Entry>)
    requires Invertible(c) && FuseAll(merged, entries).Some?
    requires forall x :: x in merged + entries ==> ShapedEntry(c, x)
    ensures forall x :: x in FuseAll(merged, entries).value ==> ShapedEntry(c, x)
    decreases |entries|
  {
    if entries != [] {
      assert entries[0] in merged + entries;
      assert forall x :: x in merged ==> x in merged + entries;
      assert forall x :: x in entries[1..] ==> x in merged + entries;
      FuseShaped(c, merged, entries[0]);
      FuseAllShaped(c, Fuse(merged, entries[0]).value, entries[1..]);
    }
  }

  lemma {:induction false} EntriesShaped(c: Contract, conditions: seq<Json>)
    requires forall x :: x in conditions ==> Shaped(c, x)
    ensures forall e :: e in Entries(conditions) ==> ShapedEntry(c, e)
  {
    if conditions != [] {
      assert conditions[0] in conditions;
      EntriesShaped(c, conditions[1..]);
    }
  }

  lemma MergeShaped(c: Contract, conditions: seq<Json>)
    requires Invertible(c) && forall x :: x in conditions ==> Shaped(c, x)
    ensures Shaped(c, MergeConditions(conditions))
  {
    EntriesShaped(c, conditions);
    if FuseAll([], Entries(conditions)).Some? {
      FuseAllShaped(c, [], Entries(conditions));
    }
  }

  lemma {:induction false} ClauseShaped(c: Contract, cl: Clause)
    requires Invertible(c) && ValidClause(c, cl)
    ensures forall x :: x in ClauseConditions(cl) ==> Shaped(c, x)
    decreases cl, 0
  {
    match cl
    case All(branches) =>
      forall i | 0 <= i < |branches| ensures Shaped(c, Where(branches[i])) { WhereShaped(c, branches[i]); }
    case Any(branches) =>
      forall i | 0 <= i < |branches| ensures Shaped(c, Where(branches[i])) { WhereShaped(c, branches[i]); }
    case Not(f) => WhereShaped(c, f);
    case Compare(field, tests) =>
      forall i | 0 <= i < |tests| ensures Shaped(c, TestCondition(field, tests[i])) {
        TestConditionShaped(c, field, tests[i]);
      }
  }

  lemma {:induction false} ConditionsShaped(c: Contract, f: Filter, k: nat)
    requires Invertible(c) && Valid(c, f) && k <= |f.clauses|
    ensures forall x :: x in Conditions(f, k) ==> Shaped(c, x)
    decreases f, k
  {
    if k > 0 {
      assert ValidClause(c, f.clauses[k - 1]);
      ConditionsShaped(c, f, k - 1);
      ClauseShaped(c, f.clauses[k - 1]);
    }
  }

  lemma {:induction false} WhereShaped(c: Contract, f: Filter)
    requires Invertible(c) && Valid(c, f)
    ensures Shaped(c, Where(f))
    decreases f, |f.clauses| + 1
  {
    ConditionsShaped(c, f, |f.clauses|);
    MergeShaped(c, Conditions(f, |f.clauses|));
  }

  lemma {:induction false} PartsShaped(c: Contract, filters: seq<Filter>)
    requires Invertible(c) && forall f :: f in filters ==> Valid(c, f)
    ensures forall p :: p in Parts(filters) ==> Shaped(c, p)
  {
    if filters != [] {
      WhereShaped(c, filters[0]);
      PartsShaped(c, filters[1..]);
    }
  }

  lemma HasuraRootShaped(c: Contract, where: Json)
    requires Shaped(c, where)
    ensures Shaped(c, HasuraRoot(where))
  {
    if |where.entries| > 1 {
      var root := HasuraRoot(where).entries[0];
      forall x | x in root.value.items ensures Shaped(c, x) {
        var i :| 0 <= i < |where.entries| && x == Single(where.entries[i].key, where.entries[i].value);
        assert where.entries[i] in where.entries;
      }
      assert ShapedEntry(c, root);
    }
  }

  lemma ToWhereShaped(c: Contract, filters: seq<Filter>)
    requires Invertible(c) && forall f :: f in filters ==> Valid(c, f)
    ensures Shaped(c, ToWhere(filters))
  {
    PartsShaped(c, filters);
    var parts := Parts(filters);
    if |parts| == 0 {
      HasuraRootShaped(c, Obj([]));
    } else if |parts| == 1 {
      assert parts[0] in parts;
      HasuraRootShaped(c, parts[0]);
    } else {
      assert ShapedEntry(c, Entry("_and", Arr(parts)));
      HasuraRootShaped(c, Single("_and", Arr(parts)));
    }
  }

  // ---- The round trip ----------------------------------------------------------------------------------

  /** What an invertible contract compiles is decoded exactly when it is narrow and nests no
      deeper than the limit, and then to a filter that means all the filters compiled, under
      every truth assignment. */
  lemma RoundTrip(c: Contract, filters: seq<Filter>)
    requires Invertible(c) && forall f :: f in filters ==> Valid(c, f)
    ensures FromWhere(c, ToWhere(filters)).Some? <==>
            Narrow(c, ToWhere(filters)) && Nest(c, ToWhere(filters)) <= 32
    ensures FromWhere(c, ToWhere(filters)).Some? ==>
              forall t :: Holds(FromWhere(c, ToWhere(filters)).value, AsSent(t)) <==>
                          forall f :: f in filters ==> Holds(f, AsSent(t))
  {
    var where := ToWhere(filters);
    ToWhereShaped(c, filters);
    ShapedDecodes(c, where, 0);
    if FromWhere(c, where).Some? {
      forall t ensures Holds(FromWhere(c, where).value, AsSent(t)) <==> forall f :: f in filters ==> Holds(f, AsSent(t)) {
        ShapedIsCanonical(c, where);
        CanonicalReadsAlike(c, where, t);
        DecodeSound(c, where, "", 0, t);
        ToWhereMeansAll(c, filters, t);
      }
    }
  }

  /** Without dots every compiled condition is narrow. */
  ghost predicate Undotted(c: Contract) {
    forall f :: f in c.fields ==> '.' !in f.wire
  }

  lemma UndottedLeadsNowhere(c: Contract, wire: string)
    requires Undotted(c)
    ensures !LeadsSomewhere(c.fields, wire)
  {
    forall f | f in c.fields ensures !(wire + "." <= f.wire) {
      if |wire| < |f.wire| { assert f.wire[|wire|] in f.wire; }
    }
  }

  lemma {:induction false} UndottedIsNarrow(c: Contract, j: Json)
    requires Undotted(c) && Shaped(c, j)
    ensures Narrow(c, j)
    decreases j
  {
    forall e | e in j.entries ensures NarrowEntry(c, e) { UndottedEntryIsNarrow(c, e); }
  }

  lemma {:induction false} UndottedEntryIsNarrow(c: Contract, e: Entry)
    requires Undotted(c) && ShapedEntry(c, e)
    ensures NarrowEntry(c, e)
    decreases e, 1
  {
    if e.key == "_and" || e.key == "_or" {
      forall x | x in e.value.items ensures Narrow(c, x) { UndottedIsNarrow(c, x); }
    } else if e.key == "_not" {
      UndottedIsNarrow(c, e.value);
    } else {
      UndottedLeadsNowhere(c, e.key);
    }
  }

  /** Over undotted wire names only the depth limit refuses. */
  lemma UndottedRoundTrip(c: Contract, filters: seq<Filter>)
    requires Invertible(c) && Undotted(c) && forall f :: f in filters ==> Valid(c, f)
    ensures FromWhere(c, ToWhere(filters)).Some? <==> Nest(c, ToWhere(filters)) <= 32
  {
    RoundTrip(c, filters);
    ToWhereShaped(c, filters);
    UndottedIsNarrow(c, ToWhere(filters));
  }

  lemma {:induction false} UndottedSplit(path: string)
    requires '.' !in path
    ensures Split(path) == [path]
  {
    if path != "" {
      UndottedSplit(path[1..]);
      assert path == [path[0]] + path[1..];
    }
  }

  lemma TwoSegments(a: char, b: char)
    requires a != '.' && b != '.'
    ensures Split([a, '.', b]) == [[a], [b]]
  {
    var whole, dotted, last := [a, '.', b], ['.', b], [b];
    assert whole[1..] == dotted && dotted[1..] == last && last[1..] == [];
    UndottedSplit(last);
    assert Split(dotted) == ["", last];
    assert [a] + "" == [a];
  }

  function SiblingTests(left: Field, right: Field, a: Json, b: Json): Filter {
    Filter([Compare(left, [Test(Exact, a)]), Compare(right, [Test(Exact, b)])])
  }

  function SiblingEntries(a: Json, b: Json): seq<Entry> {
    [Entry("a", Single("_eq", a)), Entry("b", Single("_eq", b))]
  }

  lemma SiblingConditions(left: Field, right: Field, a: Json, b: Json)
    requires left.wire == "r.a" && right.wire == "r.b"
    ensures var es := SiblingEntries(a, b);
            Conditions(SiblingTests(left, right, a, b), 2) == [Single("r", Obj([es[0]])), Single("r", Obj([es[1]]))]
  {
    var f, es := SiblingTests(left, right, a, b), SiblingEntries(a, b);
    TwoSegments('r', 'a');
    TwoSegments('r', 'b');
    assert left.wire == ['r', '.', 'a'] && right.wire == ['r', '.', 'b'];
    assert ["r", "a"][1..] == ["a"] && ["r", "b"][1..] == ["b"];
    assert Nested(["a"], Single("_eq", a)) == Obj([es[0]]) && Nested(["b"], Single("_eq", b)) == Obj([es[1]]);
    assert ClauseConditions(f.clauses[0]) == [Single("r", Obj([es[0]]))];
    assert ClauseConditions(f.clauses[1]) == [Single("r", Obj([es[1]]))];
    assert Conditions(f, 1) == [Single("r", Obj([es[0]]))] by { assert Conditions(f, 0) == []; }
  }

  lemma SiblingsFuse(x: Entry, y: Entry)
    requires x.key != y.key
    ensures MergeConditions([Single("r", Obj([x])), Single("r", Obj([y]))]) == Single("r", Obj([x, y]))
  {
    var p, q, fused := Single("r", Obj([x])), Single("r", Obj([y])), Entry("r", Obj([x, y]));
    assert Entries([p, q]) == p.entries + q.entries by {
      assert [p, q][1..] == [q] && [q][1..] == [];
      assert Entries([q]) == q.entries;
    }
    assert Fuse([], p.entries[0]) == Some(p.entries) by { assert [] + p.entries == p.entries; }
    assert !SharesKey([x], [y]) && [x] + [y] == [x, y];
    assert Fuse(p.entries, q.entries[0]) == Some([fused]) by { assert p.entries[0 := fused] == [fused]; }
    assert (p.entries + q.entries)[1..] == q.entries && q.entries[1..] == [];
    assert FuseAll(p.entries, q.entries) == FuseAll([fused], []);
  }

  /** Two fields below one relation fuse into an object with two keys, which is not narrow and
      is refused. */
  lemma SiblingPathsAreRefused(c: Contract, left: Field, right: Field, a: Json, b: Json)
    requires c.fields == [left, right] && left.wire == "r.a" && right.wire == "r.b"
    ensures FromWhere(c, ToWhere([SiblingTests(left, right, a, b)])).None?
  {
    var f, es := SiblingTests(left, right, a, b), SiblingEntries(a, b);
    SiblingConditions(left, right, a, b);
    SiblingsFuse(es[0], es[1]);
    assert Where(f) == Single("r", Obj(es)) by { assert [es[0], es[1]] == es; }
    assert Parts([f]) == [Where(f)] by { assert [f][1..] == []; }
    var fused := Entry("r", Obj(es));
    NoneMatching(c.fields, "r");
    assert Decode(c, fused.value, "r", 1).None?;
    assert DecodeEntry(c, fused, "", 0).None?;
    assert DecodeEntries(c, [fused], "", 0).None?;
  }
}
