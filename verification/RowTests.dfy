/** What a comparison asks of a row: on the server, by the wire operator it is sent as and with
    SQL's unknown for null, and in the client's own row model. */
module RowTests {
  import opened Common
  import opened FilterLanguage
  import opened WireConditions
  import L = LikePatterns

  /** What the database and the client's runtime decide alike: equality and order of the values of
      a column, the text of a value, JSON containment, and text matching that depends on them. */
  datatype Host = Host(
    same: (string, Json, Json) -> bool,
    order: (string, Json, Json) -> int,
    text: Json -> string,
    contains: (Json, Json) -> bool,
    finds: (L.Form, string, string) -> bool,
    ilike: (string, string) -> bool,
    similar: (string, string) -> bool,
    regex: (string, string) -> bool,
    iregex: (string, string) -> bool)

  /** Searching without case is ILIKE with the escaped term. */
  ghost predicate Searches(h: Host) {
    forall form, term, value :: h.ilike(value, L.ToPattern(form, term)) == h.finds(form, term, value)
  }

  function TextOf(h: Host, v: Json): string {
    if v.Str? then v.s else h.text(v)
  }

  /** A top-level key of an object, or a string among the items of a list. */
  predicate HoldsKey(v: Json, key: string) {
    match v
    case Obj(entries) => exists e :: e in entries && e.key == key
    case Arr(items) => Str(key) in items
    case _ => false
  }

  predicate Among(h: Host, path: string, v: Json, items: seq<Json>) {
    exists x :: x in items && h.same(path, v, x)
  }

  // ---- On the server ---------------------------------------------------------------------

  /** The native comparison of a value that is not null. */
  predicate Compares(h: Host, path: string, v: Json, key: string, o: Json) {
    if key == "_eq" then h.same(path, v, o)
    else if key == "_neq" then !h.same(path, v, o)
    else if key == "_gt" then h.order(path, v, o) > 0
    else if key == "_gte" then h.order(path, v, o) >= 0
    else if key == "_lt" then h.order(path, v, o) < 0
    else if key == "_lte" then h.order(path, v, o) <= 0
    else if key == "_in" then o.Arr? && Among(h, path, v, o.items)
    else if key == "_nin" then o.Arr? && !Among(h, path, v, o.items)
    else if key == "_contains" then h.contains(v, o)
    else if key == "_contained_in" then h.contains(o, v)
    else if key == "_has_key" then o.Str? && HoldsKey(v, o.s)
    else if key == "_has_keys_any" then o.Arr? && exists x :: x in o.items && x.Str? && HoldsKey(v, x.s)
    else if key == "_has_keys_all" then o.Arr? && forall x :: x in o.items ==> x.Str? && HoldsKey(v, x.s)
    else o.Str? && TextCompares(h, TextOf(h, v), key, o.s)
  }

  predicate TextCompares(h: Host, text: string, key: string, pattern: string) {
    if key == "_like" then L.Like(pattern, text)
    else if key == "_nlike" then !L.Like(pattern, text)
    else if key == "_ilike" then h.ilike(text, pattern)
    else if key == "_nilike" then !h.ilike(text, pattern)
    else if key == "_similar" then h.similar(text, pattern)
    else if key == "_nsimilar" then !h.similar(text, pattern)
    else if key == "_regex" then h.regex(text, pattern)
    else if key == "_nregex" then !h.regex(text, pattern)
    else if key == "_iregex" then h.iregex(text, pattern)
    else if key == "_niregex" then !h.iregex(text, pattern)
    else false
  }

  /** A row gives the value at each wire path; null compares to nothing. */
  type Row = string -> Json

  function ServerHolds(h: Host, row: Row): ((string, string, Json), bool) -> bool {
    (a: (string, string, Json), sure: bool) =>
      var v := row(a.0);
      if a.1 == "_is_null" then a.2 == Bool(v.Null?)
      else if v.Null? then !sure
      else Compares(h, a.0, v, a.1, a.2)
  }

  function Server(h: Host, row: Row): Truth {
    Truths(ServerHolds(h, row), true)
  }

  // ---- In the client -----------------------------------------------------------------------

  predicate Equal(h: Host, path: string, v: Json, o: Json) {
    if v.Null? then o.Null? else h.same(path, v, o)
  }

  /** The client's comparison; it refuses to run SIMILAR. */
  ghost predicate ClientTest(h: Host, path: string, v: Json, op: Operator, o: Json) {
    match op
    case IsNull => o == Bool(v.Null?)
    case Exact => Equal(h, path, v, o)
    case Ne => !Equal(h, path, v, o)
    case InList => o.Arr? && exists x :: x in o.items && Equal(h, path, v, x)
    case NotInList => !(o.Arr? && exists x :: x in o.items && Equal(h, path, v, x))
    case JsonContains => h.contains(v, o)
    case JsonContainedIn => h.contains(o, v)
    case HasKey => o.Str? && HoldsKey(v, o.s)
    case HasKeysAny => o.Arr? && exists x :: x in o.items && x.Str? && HoldsKey(v, x.s)
    case HasKeysAll => o.Arr? && forall x :: x in o.items ==> x.Str? && HoldsKey(v, x.s)
    case Gt => !v.Null? && h.order(path, v, o) > 0
    case Gte => !v.Null? && h.order(path, v, o) >= 0
    case Lt => !v.Null? && h.order(path, v, o) < 0
    case Lte => !v.Null? && h.order(path, v, o) <= 0
    case _ => ClientText(h, v, op, if o.Str? then o.s else h.text(o))
  }

  ghost predicate ClientText(h: Host, v: Json, op: Operator, operand: string) {
    var text := TextOf(h, v);
    match op
    case Like => !v.Null? && L.ClientLike(operand, text)
    case NotLike => !(!v.Null? && L.ClientLike(operand, text))
    case ILike => !v.Null? && h.ilike(text, operand)
    case NotILike => !(!v.Null? && h.ilike(text, operand))
    case Regex => !v.Null? && h.regex(text, operand)
    case NotRegex => !(!v.Null? && h.regex(text, operand))
    case IRegex => !v.Null? && h.iregex(text, operand)
    case NotIRegex => !(!v.Null? && h.iregex(text, operand))
    case Contains => !v.Null? && L.Matches(L.Contains, L.Units(operand), L.Units(text))
    case StartsWith => !v.Null? && L.Matches(L.StartsWith, L.Units(operand), L.Units(text))
    case EndsWith => !v.Null? && L.Matches(L.EndsWith, L.Units(operand), L.Units(text))
    case IContains => !v.Null? && h.finds(L.Contains, operand, text)
    case IStartsWith => !v.Null? && h.finds(L.StartsWith, operand, text)
    case IEndsWith => !v.Null? && h.finds(L.EndsWith, operand, text)
    case _ => false
  }

  ghost function ClientHolds(h: Host, row: Row): ((Field, Operator, Json), bool) -> bool {
    (a: (Field, Operator, Json), sure: bool) => ClientTest(h, a.0.wire, row(a.0.wire), a.1, a.2)
  }

  /** The client's evaluation of a filter on a row. */
  ghost predicate Matched(h: Host, row: Row, f: Filter) {
    Holds(f, Truths(ClientHolds(h, row), true))
  }

  // ---- One comparison ------------------------------------------------------------------------

  predicate TakesText(op: Operator) {
    op.Contains? || op.IContains? || op.StartsWith? || op.IStartsWith? || op.EndsWith? || op.IEndsWith? ||
    op.Like? || op.ILike? || op.NotLike? || op.NotILike? || op.Similar? || op.NotSimilar? ||
    op.Regex? || op.IRegex? || op.NotRegex? || op.NotIRegex? || op.HasKey?
  }

  /** The operands validation leaves an operator. */
  predicate WellTyped(op: Operator, o: Json) {
    if op.IsNull? then o.Bool?
    else if op.InList? || op.NotInList? then o.Arr? && Null !in o.items
    else if op.HasKeysAny? || op.HasKeysAll? then o.Arr? && forall x :: x in o.items ==> x.Str?
    else if TakesText(op) then o.Str?
    else if op.JsonContains? || op.JsonContainedIn? then true
    else !o.Null?
  }

  /** A comparison the client runs, and whose pattern it matches as SQL does. */
  ghost predicate Runs(op: Operator, o: Json) {
    && WellTyped(op, o) && !op.Similar? && !op.NotSimilar?
    && (op.Like? || op.NotLike? ==> L.HasSpecial(o.s) && !L.Dangling(o.s) && L.Loose(L.Tokens(o.s, false)))
  }

  /** On a value that is not null, the comparison the server makes of what was sent is the client's. */
  lemma ComparesAlike(h: Host, path: string, v: Json, op: Operator, o: Json)
    requires Searches(h) && Runs(op, o) && !v.Null? && !op.IsNull?
    ensures Compares(h, path, v, WireOperator(op), WireOperand(op, o)) <==> ClientTest(h, path, v, op, o)
  {
    if TakesText(op) && !op.HasKey? {
      SentAsText(h, path, v, op, o);
      TextAlike(h, v, op, o.s);
    } else if op.HasKey? || op.HasKeysAny? || op.HasKeysAll? || op.JsonContains? || op.JsonContainedIn? {
      KeysAlike(h, path, v, op, o);
    } else {
      ValuesAlike(h, path, v, op, o);
    }
  }

  lemma ValuesAlike(h: Host, path: string, v: Json, op: Operator, o: Json)
    requires !v.Null? && WellTyped(op, o)
    requires op.Exact? || op.Ne? || op.InList? || op.NotInList? || op.Gt? || op.Gte? || op.Lt? || op.Lte?
    ensures Compares(h, path, v, WireOperator(op), WireOperand(op, o)) <==> ClientTest(h, path, v, op, o)
  {
    if op.InList? || op.NotInList? {
      assert forall x :: x in o.items ==> (Equal(h, path, v, x) <==> h.same(path, v, x));
    }
  }

  lemma KeysAlike(h: Host, path: string, v: Json, op: Operator, o: Json)
    requires op.HasKey? || op.HasKeysAny? || op.HasKeysAll? || op.JsonContains? || op.JsonContainedIn?
    ensures Compares(h, path, v, WireOperator(op), WireOperand(op, o)) <==> ClientTest(h, path, v, op, o)
  {
  }

  lemma SentAsText(h: Host, path: string, v: Json, op: Operator, o: Json)
    requires TakesText(op) && !op.HasKey? && o.Str?
    ensures var sent := WireOperand(op, o);
            sent.Str? && (Compares(h, path, v, WireOperator(op), sent) <==> TextCompares(h, TextOf(h, v), WireOperator(op), sent.s))
  {
    IsTextKey(op);
  }

  lemma IsTextKey(op: Operator)
    requires TakesText(op) && !op.HasKey?
    ensures var key := WireOperator(op);
            && key != "_eq" && key != "_neq" && key != "_gt" && key != "_gte" && key != "_lt" && key != "_lte"
            && key != "_in" && key != "_nin" && key != "_contains" && key != "_contained_in" && key != "_has_key"
            && key != "_has_keys_any" && key != "_has_keys_all"
  {
  }

  lemma TextAlike(h: Host, v: Json, op: Operator, s: string)
    requires Searches(h) && Runs(op, Str(s)) && !v.Null? && TakesText(op) && !op.HasKey?
    ensures WireOperand(op, Str(s)).Str?
    ensures TextCompares(h, TextOf(h, v), WireOperator(op), WireOperand(op, Str(s)).s) <==> ClientText(h, v, op, s)
  {
    var text := TextOf(h, v);
    if op.Like? || op.NotLike? {
      L.ClientLikeIsLikeExactlyWhen(s);
      assert L.SqlLike(s, text) == Some(L.ClientLike(s, text));
    } else if op.Contains? {
      L.PatternMeansForm(L.Contains, s, text);
    } else if op.StartsWith? {
      L.PatternMeansForm(L.StartsWith, s, text);
    } else if op.EndsWith? {
      L.PatternMeansForm(L.EndsWith, s, text);
    }
  }

  /** The comparisons the client takes to hold of null. */
  predicate TrueOnNull(h: Host, op: Operator, o: Json) {
    || op.Ne? || op.NotInList? || op.NotLike? || op.NotILike? || op.NotRegex? || op.NotIRegex?
    || (op.HasKeysAll? && o == Arr([]))
    || (op.JsonContains? && h.contains(Null, o)) || (op.JsonContainedIn? && h.contains(o, Null))
  }

  lemma NullAnswers(h: Host, path: string, op: Operator, o: Json)
    requires Runs(op, o) && !op.IsNull?
    ensures ClientTest(h, path, Null, op, o) <==> TrueOnNull(h, op, o)
  {
    if op.HasKeysAll? && o.items != [] {
      assert o.items[0] in o.items;
    }
  }

  /** What the server is asked of a field's comparison on a row. */
  predicate Asked(h: Host, row: Row, path: string, op: Operator, o: Json, sure: bool) {
    ServerHolds(h, row)((path, WireOperator(op), WireOperand(op, o)), sure)
  }

  lemma OnlyIsNull(op: Operator)
    ensures WireOperator(op) == "_is_null" <==> op.IsNull?
    ensures op.IsNull? ==> FormOf(op).None?
  {
  }

  lemma AskedAlike(h: Host, row: Row, path: string, op: Operator, o: Json, sure: bool)
    requires Searches(h) && Runs(op, o)
    ensures !row(path).Null? || op.IsNull? ==> (Asked(h, row, path, op, o, sure) <==> ClientTest(h, path, row(path), op, o))
    ensures row(path).Null? && !op.IsNull? ==>
              Asked(h, row, path, op, o, sure) == !sure && (ClientTest(h, path, row(path), op, o) <==> TrueOnNull(h, op, o))
  {
    OnlyIsNull(op);
    if row(path).Null? {
      if !op.IsNull? { NullAnswers(h, path, op, o); }
    } else if !op.IsNull? {
      ComparesAlike(h, path, row(path), op, o);
    }
  }

  /** A comparison selects the rows the client matches exactly when it is not one the client takes
      to hold of null; its negation does exactly when it is. */
  lemma TestSelectsExactlyWhen(h: Host, path: string, op: Operator, o: Json)
    requires Searches(h) && Runs(op, o)
    ensures (forall row: Row :: Asked(h, row, path, op, o, true) <==> ClientTest(h, path, row(path), op, o)) <==>
            op.IsNull? || !TrueOnNull(h, op, o)
    ensures (forall row: Row :: !Asked(h, row, path, op, o, false) <==> !ClientTest(h, path, row(path), op, o)) <==>
            op.IsNull? || TrueOnNull(h, op, o)
  {
    forall row: Row
      ensures !row(path).Null? || op.IsNull? || !TrueOnNull(h, op, o) ==>
                (Asked(h, row, path, op, o, true) <==> ClientTest(h, path, row(path), op, o))
      ensures !row(path).Null? || op.IsNull? || TrueOnNull(h, op, o) ==>
                (Asked(h, row, path, op, o, false) <==> ClientTest(h, path, row(path), op, o))
    {
      AskedAlike(h, row, path, op, o, true);
      AskedAlike(h, row, path, op, o, false);
    }
    var empty: Row := (p: string) => Null;
    AskedAlike(h, empty, path, op, o, true);
    AskedAlike(h, empty, path, op, o, false);
  }

  // ---- A filter --------------------------------------------------------------------------------

  ghost predicate RunsAll(f: Filter) {
    forall cl :: cl in f.clauses ==> RunsClause(cl)
  }

  ghost predicate RunsClause(cl: Clause) {
    match cl
    case All(branches) => forall f :: f in branches ==> RunsAll(f)
    case Any(branches) => forall f :: f in branches ==> RunsAll(f)
    case Not(f) => RunsAll(f)
    case Compare(_, tests) => forall t :: t in tests ==> Runs(t.op, t.operand)
  }

  /** Of a null cell a comparison asks nothing, or what the client answers anyway: no where it must
      be true, yes where it must not be false. */
  ghost predicate Guarded(h: Host, row: Row, f: Filter, sure: bool) {
    forall cl :: cl in f.clauses ==> GuardedClause(h, row, cl, sure)
  }

  ghost predicate GuardedClause(h: Host, row: Row, cl: Clause, sure: bool) {
    match cl
    case All(branches) => forall f :: f in branches ==> Guarded(h, row, f, sure)
    case Any(branches) => forall f :: f in branches ==> Guarded(h, row, f, sure)
    case Not(f) => Guarded(h, row, f, !sure)
    case Compare(field, tests) => forall t :: t in tests ==> GuardedTest(h, row, field, t, sure)
  }

  predicate GuardedTest(h: Host, row: Row, field: Field, t: Test, sure: bool) {
    !row(field.wire).Null? || t.op.IsNull? || (TrueOnNull(h, t.op, t.operand) <==> !sure)
  }

  lemma {:induction false} FilterAlike(h: Host, row: Row, f: Filter, sure: bool)
    requires Searches(h) && RunsAll(f) && Guarded(h, row, f, sure)
    ensures Holds(f, AsSent(Truths(ServerHolds(h, row), sure))) <==> Holds(f, Truths(ClientHolds(h, row), sure))
    decreases f
  {
    forall cl | cl in f.clauses
      ensures ClauseHolds(cl, AsSent(Truths(ServerHolds(h, row), sure))) <==> ClauseHolds(cl, Truths(ClientHolds(h, row), sure))
    {
      ClauseAlike(h, row, cl, sure);
    }
  }

  lemma {:induction false} ClauseAlike(h: Host, row: Row, cl: Clause, sure: bool)
    requires Searches(h) && RunsClause(cl) && GuardedClause(h, row, cl, sure)
    ensures ClauseHolds(cl, AsSent(Truths(ServerHolds(h, row), sure))) <==> ClauseHolds(cl, Truths(ClientHolds(h, row), sure))
    decreases cl
  {
    var server, client := AsSent(Truths(ServerHolds(h, row), sure)), Truths(ClientHolds(h, row), sure);
    match cl
    case All(branches) =>
      forall f | f in branches ensures Holds(f, server) <==> Holds(f, client) { FilterAlike(h, row, f, sure); }
    case Any(branches) =>
      forall f | f in branches ensures Holds(f, server) <==> Holds(f, client) { FilterAlike(h, row, f, sure); }
    case Not(f) =>
      FilterAlike(h, row, f, !sure);
    case Compare(field, tests) =>
      forall t | t in tests ensures Is(server, (field, t.op, t.operand)) <==> Is(client, (field, t.op, t.operand)) {
        assert GuardedTest(h, row, field, t, sure);
        AskedAlike(h, row, field.wire, t.op, t.operand, sure);
      }
  }

  /** The server selects a row by the compiled condition exactly when the client's evaluation of
      every filter matches it. */
  lemma ServerSelectsWhatClientMatches(c: Contract, h: Host, row: Row, filters: seq<Filter>)
    requires ProperContract(c) && Searches(h)
    requires forall f :: f in filters ==> Valid(c, f) && RunsAll(f) && Guarded(h, row, f, true)
    ensures Meaning(ToWhere(filters), "", Server(h, row)) <==> forall f :: f in filters ==> Matched(h, row, f)
  {
    ToWhereMeansAll(c, filters, Server(h, row));
    forall f | f in filters ensures Holds(f, AsSent(Server(h, row))) <==> Matched(h, row, f) {
      FilterAlike(h, row, f, true);
    }
  }

  /** So it does on every row none of whose cells is null. */
  lemma {:induction false} NoNullsGuard(h: Host, row: Row, f: Filter, sure: bool)
    requires forall path :: !row(path).Null?
    ensures Guarded(h, row, f, sure)
    decreases f
  {
    forall cl | cl in f.clauses ensures GuardedClause(h, row, cl, sure) {
      match cl
      case All(branches) => forall b | b in branches ensures Guarded(h, row, b, sure) { NoNullsGuard(h, row, b, sure); }
      case Any(branches) => forall b | b in branches ensures Guarded(h, row, b, sure) { NoNullsGuard(h, row, b, sure); }
      case Not(g) => NoNullsGuard(h, row, g, !sure);
      case Compare(_, _) =>
    }
  }

  lemma NoNullsSelected(c: Contract, h: Host, row: Row, filters: seq<Filter>)
    requires ProperContract(c) && Searches(h) && forall path :: !row(path).Null?
    requires forall f :: f in filters ==> Valid(c, f) && RunsAll(f)
    ensures Meaning(ToWhere(filters), "", Server(h, row)) <==> forall f :: f in filters ==> Matched(h, row, f)
  {
    forall f | f in filters ensures Guarded(h, row, f, true) { NoNullsGuard(h, row, f, true); }
    ServerSelectsWhatClientMatches(c, h, row, filters);
  }

  /** On a null cell the client takes "not equal" to hold, and equality to fail, so that its
      negation holds; the server selects the row for neither. */
  lemma NullRowsDiffer(c: Contract, h: Host, field: Field, o: Json)
    requires ProperContract(c) && field in c.fields && !o.Null?
    requires ValidTest(c, field, Test(Ne, o)) && ValidTest(c, field, Test(Exact, o))
    ensures var unequal, equal := Filter([Compare(field, [Test(Ne, o)])]), Filter([Compare(field, [Test(Exact, o)])]);
            var row: Row := (path: string) => Null;
            && Matched(h, row, unequal) && !Meaning(ToWhere([unequal]), "", Server(h, row))
            && Matched(h, row, Filter([Not(equal)])) && !Meaning(ToWhere([Filter([Not(equal)])]), "", Server(h, row))
  {
    var row: Row := (path: string) => Null;
    OneTestMeans(c, h, row, field, Test(Ne, o));
    OneTestMeans(c, h, row, field, Test(Exact, o));
  }

  lemma OneTestMeans(c: Contract, h: Host, row: Row, field: Field, t: Test)
    requires ProperContract(c) && field in c.fields && ValidTest(c, field, t)
    ensures var f := Filter([Compare(field, [t])]);
            && (Matched(h, row, f) <==> ClientTest(h, field.wire, row(field.wire), t.op, t.operand))
            && (Matched(h, row, Filter([Not(f)])) <==> !ClientTest(h, field.wire, row(field.wire), t.op, t.operand))
            && (Meaning(ToWhere([f]), "", Server(h, row)) <==> Asked(h, row, field.wire, t.op, t.operand, true))
            && (Meaning(ToWhere([Filter([Not(f)])]), "", Server(h, row)) <==> !Asked(h, row, field.wire, t.op, t.operand, false))
  {
    var f := Filter([Compare(field, [t])]);
    OneTestReads(field, t, Truths(ClientHolds(h, row), true));
    OneTestReads(field, t, AsSent(Server(h, row)));
    assert ValidClause(c, Compare(field, [t]));
    assert Valid(c, f);
    assert ValidClause(c, Not(f));
    assert Valid(c, Filter([Not(f)]));
    OneFilterSent(c, f, Server(h, row));
    OneFilterSent(c, Filter([Not(f)]), Server(h, row));
  }

  lemma OneFilterSent(c: Contract, f: Filter, t: Truth)
    requires ProperContract(c) && Valid(c, f)
    ensures Meaning(ToWhere([f]), "", t) <==> Holds(f, AsSent(t))
  {
    ToWhereMeansAll(c, [f], t);
    assert f in [f];
  }

  lemma OneTestReads(field: Field, t: Test, r: Reading)
    ensures var f := Filter([Compare(field, [t])]);
            && (Holds(f, r) <==> Is(r, (field, t.op, t.operand)))
            && (Holds(Filter([Not(f)]), r) <==> !Is(Opposite(r), (field, t.op, t.operand)))
  {
    var f := Filter([Compare(field, [t])]);
    assert t in [t];
    OneClause(Compare(field, [t]), r);
    OneClause(Compare(field, [t]), Opposite(r));
    OneClause(Not(f), r);
  }

  lemma OneClause(cl: Clause, r: Reading)
    ensures Holds(Filter([cl]), r) <==> ClauseHolds(cl, r)
  {
    assert cl in [cl];
  }
}
