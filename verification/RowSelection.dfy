/** From raw filters to rows: which filters are accepted, and that the server selects the rows on
    which they hold as the client reads them, by the names of fields and operators. */
module RowSelection {
  import opened Common
  import opened FilterLanguage
  import opened FilterParsing
  import opened FilterPipeline
  import opened FilterRendering
  import opened WireConditions
  import opened WireDecoding
  import opened RowTests
  import L = LikePatterns

  // ---- Which filters are accepted ---------------------------------------------------------

  /** A declared field's operator, by its name, with an operand it validates. */
  predicate TakesTest(c: Contract, field: Field, name: string, v: Json) {
    var op := OperatorNamed(name);
    op.Some? && op.value in field.operators && c.operand(field, op.value, v).Some?
  }

  /** An object of branches, negations and declared fields, each field with a value that stands for
      comparisons it takes. */
  ghost predicate Acceptable(c: Contract, v: Json)
    decreases v, 2
  {
    v.Obj? && forall e :: e in v.entries ==> AcceptableEntry(c, e.key, e.value)
  }

  ghost predicate AcceptableEntry(c: Contract, key: string, v: Json)
    decreases v, 3
  {
    if key == "AND" || key == "OR" then
      if v.Arr? then forall x :: x in v.items ==> Acceptable(c, x) else Acceptable(c, v)
    else if key == "NOT" then Acceptable(c, v)
    else
      var field := FieldNamed(c.fields, key);
      field.Some? &&
      match v
      case Null => TakesTest(c, field.value, "isNull", Bool(true))
      case Arr(_) => TakesTest(c, field.value, "inList", v)
      case Obj(tests) => tests != [] && forall t :: t in tests ==> TakesTest(c, field.value, t.key, t.value)
      case _ => TakesTest(c, field.value, "exact", v)
  }

  lemma KnownIsOperator(name: string)
    ensures OperatorNamed(name).Some? ==> IsOperator(name)
  {
    if OperatorNamed(name).Some? {
      NamedBack(name);
      assert OperatorName(OperatorNamed(name).value) == name;
    }
  }

  /** A name stands for one operator. */
  lemma NamedBack(name: string)
    requires OperatorNamed(name).Some?
    ensures OperatorName(OperatorNamed(name).value) == name
  {
    match Group(OperatorNamed(name).value)
    case 0 =>
      var op := OperatorNamed(name).value;
      if op.Exact? || op.Ne? || op.Gt? { Back0(name); } else { Back0Rest(name); }
    case 1 => Back1(name);
    case 2 => Back2(name);
    case 3 => Back3(name);
    case 4 => Back4(name);
    case 5 => Back5(name);
    case 6 => Back6(name);
    case _ => Back7(name);
  }

  lemma Back0Rest(name: string)
    requires OperatorNamed(name).Some?
    requires var op := OperatorNamed(name).value; op.Gte? || op.Lt? || op.Lte?
    ensures OperatorName(OperatorNamed(name).value) == name
  {
  }

  lemma Back0(name: string)
    requires OperatorNamed(name).Some?
    requires var op := OperatorNamed(name).value; op.Exact? || op.Ne? || op.Gt?
    ensures OperatorName(OperatorNamed(name).value) == name
  {
  }

  lemma Back1(name: string)
    requires OperatorNamed(name).Some? && Group(OperatorNamed(name).value) == 1
    ensures OperatorName(OperatorNamed(name).value) == name
  {
  }

  lemma Back2(name: string)
    requires OperatorNamed(name).Some? && Group(OperatorNamed(name).value) == 2
    ensures OperatorName(OperatorNamed(name).value) == name
  {
  }

  lemma Back3(name: string)
    requires OperatorNamed(name).Some? && Group(OperatorNamed(name).value) == 3
    ensures OperatorName(OperatorNamed(name).value) == name
  {
  }

  lemma Back4(name: string)
    requires OperatorNamed(name).Some? && Group(OperatorNamed(name).value) == 4
    ensures OperatorName(OperatorNamed(name).value) == name
  {
  }

  lemma Back5(name: string)
    requires OperatorNamed(name).Some? && Group(OperatorNamed(name).value) == 5
    ensures OperatorName(OperatorNamed(name).value) == name
  {
  }

  lemma Back6(name: string)
    requires OperatorNamed(name).Some? && Group(OperatorNamed(name).value) == 6
    ensures OperatorName(OperatorNamed(name).value) == name
  {
  }

  lemma Back7(name: string)
    requires OperatorNamed(name).Some? && Group(OperatorNamed(name).value) == 7
    ensures OperatorName(OperatorNamed(name).value) == name
  {
  }

  lemma TestsAcceptable(c: Contract, le: KeyOrder, field: Field, tests: seq<Entry>)
    requires Orderless(c, le)
    ensures (forall t :: t in tests ==> TakesTest(c, field, t.key, t.value)) <==>
            forall x :: x in CanonEntries(le, tests) ==> ResolveTest(c, field, x).Some?
  {
    forall t | t in tests ensures TakesTest(c, field, t.key, t.value) <==> ResolveTest(c, field, Entry(t.key, Canon(le, t.value))).Some? {
      var op := OperatorNamed(t.key);
      if op.Some? { assert c.operand(field, op.value, Canon(le, t.value)) == c.operand(field, op.value, t.value); }
    }
    forall t | t in tests ensures Entry(t.key, Canon(le, t.value)) in CanonEntries(le, tests) {
      CanonEntriesMember(le, tests, Entry(t.key, Canon(le, t.value)));
    }
    forall x | x in CanonEntries(le, tests) ensures exists t :: t in tests && x == Entry(t.key, Canon(le, t.value)) {
      CanonEntriesMember(le, tests, x);
    }
  }

  lemma LookupAcceptable(c: Contract, le: KeyOrder, key: string, v: Json)
    requires Orderless(c, le) && key != "AND" && key != "OR" && key != "NOT"
    ensures AcceptableEntry(c, key, v) <==>
            NormaliseEntry(le, key, v).Some? && ResolveClause(c, key, NormaliseEntry(le, key, v).value).Some?
  {
    var field, tests := FieldNamed(c.fields, key), Lookup(v);
    assert !v.Obj? ==> tests == [tests[0]];
    if field.Some? {
      TestsAcceptable(c, le, field.value, tests);
      forall t | t in tests && TakesTest(c, field.value, t.key, t.value) ensures IsOperator(t.key) { KnownIsOperator(t.key); }
      var sorted := Sort(le, CanonEntries(le, tests));
      ResolveTestsSome(c, field.value, sorted);
    }
  }

  /** A raw filter is accepted exactly when it is built of branches, negations and declared fields with
      comparisons they take. */
  lemma {:induction false} AcceptedExactlyWhen(c: Contract, le: KeyOrder, raw: Json)
    requires Orderless(c, le)
    ensures FilterFrom(c, le, raw).Some? <==> Acceptable(c, raw)
    decreases raw, 2
  {
    if raw.Obj? {
      forall e | e in raw.entries
        ensures AcceptableEntry(c, e.key, e.value) <==>
                NormaliseEntry(le, e.key, e.value).Some? && ResolveClause(c, e.key, NormaliseEntry(le, e.key, e.value).value).Some?
      {
        EntryAcceptedExactlyWhen(c, le, e.key, e.value);
      }
      EntriesAccepted(c, le, raw.entries);
    }
  }

  lemma EntriesAccepted(c: Contract, le: KeyOrder, entries: seq<Entry>)
    ensures Normalise(le, Obj(entries)).Some? && Resolve(c, Normalise(le, Obj(entries)).value).Some? <==>
            forall e :: e in entries ==>
              NormaliseEntry(le, e.key, e.value).Some? && ResolveClause(c, e.key, NormaliseEntry(le, e.key, e.value).value).Some?
  {
    NormaliseEntriesMember(le, entries, Entry("", Null));
    if NormaliseEntries(le, entries).Some? {
      var inner := NormaliseEntries(le, entries).value;
      ResolveClausesSome(c, Sort(le, inner));
      forall e | e in entries ensures Entry(e.key, NormaliseEntry(le, e.key, e.value).value) in inner {
        NormaliseEntriesMember(le, entries, Entry(e.key, NormaliseEntry(le, e.key, e.value).value));
      }
      forall x | x in inner ensures exists e :: e in entries && NormaliseEntry(le, e.key, e.value) == Some(x.value) && e.key == x.key {
        NormaliseEntriesMember(le, entries, x);
      }
    }
  }

  lemma {:induction false} EntryAcceptedExactlyWhen(c: Contract, le: KeyOrder, key: string, v: Json)
    requires Orderless(c, le)
    ensures AcceptableEntry(c, key, v) <==>
            NormaliseEntry(le, key, v).Some? && ResolveClause(c, key, NormaliseEntry(le, key, v).value).Some?
    decreases v, 3
  {
    if key == "AND" || key == "OR" {
      if v.Arr? {
        BranchesAccepted(c, le, v.items);
      } else {
        AcceptedExactlyWhen(c, le, v);
        if Normalise(le, v).Some? {
          var one := [Normalise(le, v).value];
          assert one[1..] == [];
          assert ResolveAll(c, []) == Some([]);
        }
      }
    } else if key == "NOT" {
      AcceptedExactlyWhen(c, le, v);
    } else {
      LookupAcceptable(c, le, key, v);
    }
  }

  lemma {:induction false} BranchesAccepted(c: Contract, le: KeyOrder, items: seq<Json>)
    requires Orderless(c, le)
    ensures (forall x :: x in items ==> Acceptable(c, x)) <==>
            NormaliseAll(le, items).Some? && ResolveAll(c, NormaliseAll(le, items).value).Some?
    decreases items, 0
  {
    if items != [] {
      AcceptedExactlyWhen(c, le, items[0]);
      BranchesAccepted(c, le, items[1..]);
      assert forall x :: x in items <==> x == items[0] || x in items[1..];
      if NormaliseAll(le, items).Some? {
        assert NormaliseAll(le, items).value[1..] == NormaliseAll(le, items[1..]).value;
      }
    }
  }

  // ---- The client's comparison, by the operator's name ---------------------------------------------

  /** The client's checks one after the other, as it looks the operator up by name. */
  ghost predicate ClientNamed(h: Host, path: string, v: Json, name: string, o: Json) {
    if name == "isNull" then o == Bool(v.Null?)
    else if name == "exact" then Equal(h, path, v, o)
    else if name == "ne" then !Equal(h, path, v, o)
    else if name == "inList" then o.Arr? && exists x :: x in o.items && Equal(h, path, v, x)
    else if name == "notInList" then !(o.Arr? && exists x :: x in o.items && Equal(h, path, v, x))
    else if name == "jsonContains" then h.contains(v, o)
    else if name == "jsonContainedIn" then h.contains(o, v)
    else if name == "hasKey" then o.Str? && HoldsKey(v, o.s)
    else if name == "hasKeysAny" then o.Arr? && exists x :: x in o.items && x.Str? && HoldsKey(v, x.s)
    else if name == "hasKeysAll" then o.Arr? && forall x :: x in o.items ==> x.Str? && HoldsKey(v, x.s)
    else if name == "gt" then !v.Null? && h.order(path, v, o) > 0
    else if name == "gte" then !v.Null? && h.order(path, v, o) >= 0
    else if name == "lt" then !v.Null? && h.order(path, v, o) < 0
    else if name == "lte" then !v.Null? && h.order(path, v, o) <= 0
    else ClientTextNamed(h, v, name, if o.Str? then o.s else h.text(o))
  }

  ghost predicate ClientTextNamed(h: Host, v: Json, name: string, operand: string) {
    var text := TextOf(h, v);
    if name == "similar" || name == "notSimilar" then false
    else if name == "like" then !v.Null? && L.ClientLike(operand, text)
    else if name == "notLike" then !(!v.Null? && L.ClientLike(operand, text))
    else if name == "iLike" then !v.Null? && h.ilike(text, operand)
    else if name == "notILike" then !(!v.Null? && h.ilike(text, operand))
    else if name == "regex" then !v.Null? && h.regex(text, operand)
    else if name == "notRegex" then !(!v.Null? && h.regex(text, operand))
    else if name == "iRegex" then !v.Null? && h.iregex(text, operand)
    else if name == "notIRegex" then !(!v.Null? && h.iregex(text, operand))
    else if name == "contains" then !v.Null? && L.Matches(L.Contains, L.Units(operand), L.Units(text))
    else if name == "startsWith" then !v.Null? && L.Matches(L.StartsWith, L.Units(operand), L.Units(text))
    else if name == "endsWith" then !v.Null? && L.Matches(L.EndsWith, L.Units(operand), L.Units(text))
    else if name == "iContains" then !v.Null? && h.finds(L.Contains, operand, text)
    else if name == "iStartsWith" then !v.Null? && h.finds(L.StartsWith, operand, text)
    else name == "iEndsWith" && !v.Null? && h.finds(L.EndsWith, operand, text)
  }

  predicate ValueName(name: string) {
    name == "isNull" || name == "exact" || name == "ne" || name == "inList" || name == "notInList" ||
    name == "jsonContains" || name == "jsonContainedIn" || name == "hasKey" || name == "hasKeysAny" || name == "hasKeysAll" ||
    name == "gt" || name == "gte" || name == "lt" || name == "lte"
  }

  /** By its name it makes the operator's comparison. */
  lemma AsNamed(h: Host, path: string, v: Json, op: Operator, o: Json)
    ensures ClientTest(h, path, v, op, o) <==> ClientNamed(h, path, v, OperatorName(op), o)
  {
    if TakesText(op) && !op.HasKey? {
      TextName(op);
      TextAsNamed(h, v, op, if o.Str? then o.s else h.text(o));
    } else if Group(op) == 0 {
      OrderAsNamed(h, path, v, op, o);
    } else {
      OtherAsNamed(h, path, v, op, o);
    }
  }

  lemma OrderAsNamed(h: Host, path: string, v: Json, op: Operator, o: Json)
    requires Group(op) == 0
    ensures ClientTest(h, path, v, op, o) <==> ClientNamed(h, path, v, OperatorName(op), o)
  {
  }

  lemma OtherAsNamed(h: Host, path: string, v: Json, op: Operator, o: Json)
    requires (!TakesText(op) && Group(op) != 0) || op.HasKey?
    ensures ClientTest(h, path, v, op, o) <==> ClientNamed(h, path, v, OperatorName(op), o)
  {
  }

  lemma TextName(op: Operator)
    requires TakesText(op) && !op.HasKey?
    ensures !ValueName(OperatorName(op))
  {
    match Group(op)
    case 1 => TextName1(op);
    case 2 => TextName2(op);
    case 3 => TextName3(op);
    case 4 => TextName4(op);
    case _ => TextName5(op);
  }

  lemma TextAsNamed(h: Host, v: Json, op: Operator, operand: string)
    requires TakesText(op) && !op.HasKey?
    ensures ClientText(h, v, op, operand) <==> ClientTextNamed(h, v, OperatorName(op), operand)
  {
    match Group(op)
    case 1 => TextAsNamed1(h, v, op, operand);
    case 2 => TextAsNamed2(h, v, op, operand);
    case 3 => TextAsNamed3(h, v, op, operand);
    case 4 => TextAsNamed4(h, v, op, operand);
    case _ => TextAsNamed5(h, v, op, operand);
  }

  lemma TextName1(op: Operator)
    requires TakesText(op) && !op.HasKey? && Group(op) == 1
    ensures !ValueName(OperatorName(op))
  {
  }

  lemma TextAsNamed1(h: Host, v: Json, op: Operator, operand: string)
    requires TakesText(op) && !op.HasKey? && Group(op) == 1
    ensures ClientText(h, v, op, operand) <==> ClientTextNamed(h, v, OperatorName(op), operand)
  {
  }

  lemma TextName2(op: Operator)
    requires TakesText(op) && !op.HasKey? && Group(op) == 2
    ensures !ValueName(OperatorName(op))
  {
  }

  lemma TextAsNamed2(h: Host, v: Json, op: Operator, operand: string)
    requires TakesText(op) && !op.HasKey? && Group(op) == 2
    ensures ClientText(h, v, op, operand) <==> ClientTextNamed(h, v, OperatorName(op), operand)
  {
  }

  lemma TextName3(op: Operator)
    requires TakesText(op) && !op.HasKey? && Group(op) == 3
    ensures !ValueName(OperatorName(op))
  {
  }

  lemma TextAsNamed3(h: Host, v: Json, op: Operator, operand: string)
    requires TakesText(op) && !op.HasKey? && Group(op) == 3
    ensures ClientText(h, v, op, operand) <==> ClientTextNamed(h, v, OperatorName(op), operand)
  {
  }

  lemma TextName4(op: Operator)
    requires TakesText(op) && !op.HasKey? && Group(op) == 4
    ensures !ValueName(OperatorName(op))
  {
  }

  lemma TextAsNamed4(h: Host, v: Json, op: Operator, operand: string)
    requires TakesText(op) && !op.HasKey? && Group(op) == 4
    ensures ClientText(h, v, op, operand) <==> ClientTextNamed(h, v, OperatorName(op), operand)
  {
  }

  lemma TextName5(op: Operator)
    requires TakesText(op) && !op.HasKey? && Group(op) == 5
    ensures !ValueName(OperatorName(op))
  {
  }

  lemma TextAsNamed5(h: Host, v: Json, op: Operator, operand: string)
    requires TakesText(op) && !op.HasKey? && Group(op) == 5
    ensures ClientText(h, v, op, operand) <==> ClientTextNamed(h, v, OperatorName(op), operand)
  {
  }

  // ---- The rows selected --------------------------------------------------------------------------

  /** What the client asks of a row for a field and an operator by their names, once the operand was
      validated. */
  ghost function AsksRow(c: Contract, h: Host, row: Row): ((string, string, Json), bool) -> bool {
    (a: (string, string, Json), sure: bool) =>
      var field := FieldNamed(c.fields, a.0);
      var op := OperatorNamed(a.1);
      field.Some? && op.Some? &&
      var operand := c.operand(field.value, op.value, a.2);
      operand.Some? && ClientNamed(h, field.value.wire, row(field.value.wire), a.1, operand.value)
  }

  lemma AsksAlike(c: Contract, h: Host, row: Row, name: string, op: string, v: Json, sure: bool)
    ensures AsksRow(c, h, row)((name, op, v), sure) <==> NamedHolds(c, ClientHolds(h, row))((name, op, v), sure)
  {
    var field, operator := FieldNamed(c.fields, name), OperatorNamed(op);
    if field.Some? && operator.Some? {
      NamedBack(op);
      var operand := c.operand(field.value, operator.value, v);
      if operand.Some? { AsNamed(h, field.value.wire, row(field.value.wire), operator.value, operand.value); }
    }
  }

  lemma {:induction false} SaysAlike(v: Json, a: Words, b: Words)
    requires a.sure == b.sure && forall name, op, o, sure :: a.holds((name, op, o), sure) == b.holds((name, op, o), sure)
    ensures Says(v, a) <==> Says(v, b)
    decreases v, 2
  {
    if v.Obj? {
      forall e | e in v.entries ensures EntrySays(e.key, e.value, a) <==> EntrySays(e.key, e.value, b) {
        EntrySaysAlike(e.key, e.value, a, b);
      }
    }
  }

  lemma {:induction false} EntrySaysAlike(key: string, v: Json, a: Words, b: Words)
    requires a.sure == b.sure && forall name, op, o, sure :: a.holds((name, op, o), sure) == b.holds((name, op, o), sure)
    ensures EntrySays(key, v, a) <==> EntrySays(key, v, b)
    decreases v, 3
  {
    if key == "AND" || key == "OR" {
      if v.Arr? {
        forall x | x in v.items ensures Says(x, a) <==> Says(x, b) { SaysAlike(x, a, b); }
      } else {
        SaysAlike(v, a, b);
      }
    } else if key == "NOT" {
      SaysAlike(v, Opposite(a), Opposite(b));
    } else {
      assert forall t :: t in Lookup(v) ==> a.holds((key, t.key, t.value), a.sure) == b.holds((key, t.key, t.value), a.sure);
    }
  }

  /** The client's evaluation of an accepted filter is what the filter, as written, says of the row. */
  lemma MatchedAsWritten(c: Contract, le: KeyOrder, h: Host, row: Row, raw: Json)
    requires Idempotent(c) && Orderless(c, le) && Unique(raw) && FilterFrom(c, le, raw).Some?
    ensures Matched(h, row, FilterFrom(c, le, raw).value) <==> Says(raw, Truths(AsksRow(c, h, row), true))
  {
    var r: Reading := Truths(ClientHolds(h, row), true);
    OrderlessReadings(c, le, r);
    AcceptedFilterMeansRaw(c, le, raw, r);
    forall name, op, v, sure
      ensures AsksRow(c, h, row)((name, op, v), sure) == NamedHolds(c, ClientHolds(h, row))((name, op, v), sure)
    {
      AsksAlike(c, h, row, name, op, v, sure);
    }
    SaysAlike(raw, Truths(AsksRow(c, h, row), true), ByName(c, r));
  }

  /** From end to end: the server selects a row by what accepted filters compile to exactly when each
      of them, as written, says so of the row to the client. */
  lemma SelectsAsWritten(c: Contract, le: KeyOrder, h: Host, row: Row, raws: seq<Json>, filters: seq<Filter>)
    requires ProperContract(c) && Idempotent(c) && Orderless(c, le) && Searches(h)
    requires Accepted(c, le, raws, filters)
    requires forall f :: f in filters ==> RunsAll(f) && Guarded(h, row, f, true)
    ensures Meaning(ToWhere(filters), "", Server(h, row)) <==>
            forall raw :: raw in raws ==> Says(raw, Truths(AsksRow(c, h, row), true))
  {
    forall i | 0 <= i < |raws|
      ensures Valid(c, filters[i]) && (Matched(h, row, filters[i]) <==> Says(raws[i], Truths(AsksRow(c, h, row), true)))
    {
      OrderlessReadings(c, le, Truths(ClientHolds(h, row), true));
      AcceptedFilterMeansRaw(c, le, raws[i], Truths(ClientHolds(h, row), true));
      MatchedAsWritten(c, le, h, row, raws[i]);
    }
    forall f | f in filters ensures Valid(c, f) { var i :| 0 <= i < |filters| && filters[i] == f; }
    ServerSelectsWhatClientMatches(c, h, row, filters);
    AllPairs(filters, raws, f => Matched(h, row, f), raw => Says(raw, Truths(AsksRow(c, h, row), true)));
  }
}
