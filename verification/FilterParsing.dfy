/** The normal form of a raw filter: objects rebuilt in key order, shorthands written out,
    single branches wrapped. Raw and normal filters are JSON values; `le` is the order in
    which a rebuilt object lists its keys. */
module FilterParsing {
  import opened Common
  import opened FilterLanguage

  type KeyOrder = (string, string) -> bool

  function OperatorName(op: Operator): string {
    match op
    case Exact => "exact" case Ne => "ne" case Gt => "gt" case Gte => "gte" case Lt => "lt" case Lte => "lte"
    case InList => "inList" case NotInList => "notInList" case IsNull => "isNull"
    case Contains => "contains" case IContains => "iContains" case StartsWith => "startsWith"
    case IStartsWith => "iStartsWith" case EndsWith => "endsWith" case IEndsWith => "iEndsWith"
    case Like => "like" case ILike => "iLike" case NotLike => "notLike" case NotILike => "notILike"
    case Similar => "similar" case NotSimilar => "notSimilar"
    case Regex => "regex" case IRegex => "iRegex" case NotRegex => "notRegex" case NotIRegex => "notIRegex"
    case JsonContains => "jsonContains" case JsonContainedIn => "jsonContainedIn"
    case HasKey => "hasKey" case HasKeysAny => "hasKeysAny" case HasKeysAll => "hasKeysAll"
  }

  /** One of the known comparison operators. */
  predicate IsOperator(name: string) {
    exists op: Operator {:trigger OperatorName(op)} :: OperatorName(op) == name
  }

  /** Any two keys compare, transitively; distinct keys may tie. */
  ghost predicate Preorder(le: KeyOrder) {
    && (forall a, b :: le(a, b) || le(b, a))
    && (forall a, b, c :: le(a, b) && le(b, c) ==> le(a, c))
  }

  predicate Tie(le: KeyOrder, a: string, b: string) {
    le(a, b) && le(b, a)
  }

  ghost function Keys(s: seq<Entry>): set<string> {
    set e | e in s :: e.key
  }

  /** No two of these keys tie. */
  ghost predicate NoTies(le: KeyOrder, keys: set<string>) {
    forall a, b :: a in keys && b in keys && Tie(le, a, b) ==> a == b
  }

  // ---- Stable sorting by key -----------------------------------------------------------------

  function Insert(le: KeyOrder, e: Entry, s: seq<Entry>): (r: seq<Entry>)
    ensures |r| == |s| + 1
    ensures forall x :: x in r <==> x == e || x in s
  {
    if s == [] then [e]
    else if le(e.key, s[0].key) then [e] + s
    else
      var r := [s[0]] + Insert(le, e, s[1..]);
      assert forall x :: x in s <==> x == s[0] || x in s[1..];
      r
  }

  function Sort(le: KeyOrder, s: seq<Entry>): (r: seq<Entry>)
    ensures |r| == |s|
    ensures forall x :: x in r <==> x in s
  {
    if s == [] then []
    else
      assert forall x :: x in s <==> x == s[0] || x in s[1..];
      Insert(le, s[0], Sort(le, s[1..]))
  }

  /** Each key is at most every later key. */
  ghost predicate Sorted(le: KeyOrder, s: seq<Entry>) {
    s == [] || (Sorted(le, s[1..]) && forall x :: x in s[1..] ==> le(s[0].key, x.key))
  }

  lemma {:induction false} InsertSorted(le: KeyOrder, e: Entry, s: seq<Entry>)
    requires Preorder(le) && Sorted(le, s)
    ensures Sorted(le, Insert(le, e, s))
  {
    if s != [] {
      var r := Insert(le, e, s);
      if le(e.key, s[0].key) {
        assert r[1..] == s;
        assert forall x :: x in s <==> x == s[0] || x in s[1..];
      } else {
        InsertSorted(le, e, s[1..]);
        assert r[1..] == Insert(le, e, s[1..]);
      }
    }
  }

  lemma {:induction false} SortSorted(le: KeyOrder, s: seq<Entry>)
    requires Preorder(le)
    ensures Sorted(le, Sort(le, s))
  {
    if s != [] {
      SortSorted(le, s[1..]);
      InsertSorted(le, s[0], Sort(le, s[1..]));
    }
  }

  lemma {:induction false} SortedIsFixed(le: KeyOrder, s: seq<Entry>)
    requires Sorted(le, s)
    ensures Sort(le, s) == s
  {
    if s != [] {
      SortedIsFixed(le, s[1..]);
      if s[1..] != [] { assert s[1] == s[1..][0]; }
    }
  }

  /** No key occurs twice, as in any object. */
  ghost predicate UniqueKeys(s: seq<Entry>) {
    s == [] || (UniqueKeys(s[1..]) && forall x :: x in s[1..] ==> x.key != s[0].key)
  }

  ghost predicate SameEntries(s: seq<Entry>, t: seq<Entry>) {
    forall x :: x in s <==> x in t
  }

  lemma {:induction false} InsertUnique(le: KeyOrder, e: Entry, s: seq<Entry>)
    requires UniqueKeys(s) && forall x :: x in s ==> x.key != e.key
    ensures UniqueKeys(Insert(le, e, s))
  {
    if s != [] {
      var r := Insert(le, e, s);
      if le(e.key, s[0].key) {
        assert r[1..] == s;
      } else {
        assert forall x :: x in s <==> x == s[0] || x in s[1..];
        InsertUnique(le, e, s[1..]);
        assert r[1..] == Insert(le, e, s[1..]);
      }
    }
  }

  lemma {:induction false} SortUnique(le: KeyOrder, s: seq<Entry>)
    requires UniqueKeys(s)
    ensures UniqueKeys(Sort(le, s))
  {
    if s != [] {
      SortUnique(le, s[1..]);
      InsertUnique(le, s[0], Sort(le, s[1..]));
    }
  }

  /** Two sorted lists of the same entries are the same list. */
  lemma {:induction false} SortedSame(le: KeyOrder, s: seq<Entry>, t: seq<Entry>)
    requires Preorder(le) && NoTies(le, Keys(s)) && Sorted(le, s) && Sorted(le, t)
    requires UniqueKeys(s) && UniqueKeys(t) && SameEntries(s, t)
    ensures s == t
  {
    assert forall x :: x in s ==> x == s[0] || x in s[1..];
    assert forall x :: x in t ==> x == t[0] || x in t[1..];
    if t != [] { assert t[0] in s; }
    if s != [] {
      assert s[0] in s && s[0] in t && t[0] in t && t[0] in s;
      assert s[0].key in Keys(s) && t[0].key in Keys(s) && Tie(le, s[0].key, t[0].key);
      assert s[0] == t[0];
      assert Keys(s[1..]) <= Keys(s);
      assert SameEntries(s[1..], t[1..]);
      SortedSame(le, s[1..], t[1..]);
    }
  }

  lemma SortSame(le: KeyOrder, s: seq<Entry>, t: seq<Entry>)
    requires Preorder(le) && NoTies(le, Keys(s)) && UniqueKeys(s) && UniqueKeys(t) && SameEntries(s, t)
    ensures Sort(le, s) == Sort(le, t)
  {
    SortSorted(le, s);
    SortSorted(le, t);
    SortUnique(le, s);
    SortUnique(le, t);
    assert Keys(Sort(le, s)) == Keys(s);
    SortedSame(le, Sort(le, s), Sort(le, t));
  }

  // ---- Normal forms --------------------------------------------------------------------------------

  /** A JSON value with every object in key order. */
  function Canon(le: KeyOrder, v: Json): Json
    decreases v
  {
    match v
    case Arr(items) => Arr(CanonAll(le, items))
    case Obj(entries) => Obj(Sort(le, CanonEntries(le, entries)))
    case _ => v
  }

  function CanonAll(le: KeyOrder, items: seq<Json>): (r: seq<Json>)
    ensures |r| == |items|
    decreases items
  {
    if items == [] then [] else [Canon(le, items[0])] + CanonAll(le, items[1..])
  }

  function CanonEntries(le: KeyOrder, entries: seq<Entry>): (r: seq<Entry>)
    ensures |r| == |entries|
    decreases entries
  {
    if entries == [] then []
    else [Entry(entries[0].key, Canon(le, entries[0].value))] + CanonEntries(le, entries[1..])
  }

  /** The comparisons a field's value stands for: null, a list and a scalar are shorthands. */
  function Lookup(v: Json): seq<Entry> {
    match v
    case Obj(entries) => entries
    case Null => [Entry("isNull", Bool(true))]
    case Arr(_) => [Entry("inList", v)]
    case _ => [Entry("exact", v)]
  }

  predicate KnownOperators(entries: seq<Entry>) {
    forall e :: e in entries ==> IsOperator(e.key)
  }

  function Normalise(le: KeyOrder, v: Json): Option<Json>
    decreases v, 2
  {
    if !v.Obj? then None
    else match NormaliseEntries(le, v.entries)
      case None => None
      case Some(entries) => Some(Obj(Sort(le, entries)))
  }

  function NormaliseEntries(le: KeyOrder, entries: seq<Entry>): Option<seq<Entry>>
    decreases entries, 0
  {
    if entries == [] then Some([])
    else
      var value := NormaliseEntry(le, entries[0].key, entries[0].value);
      var rest := NormaliseEntries(le, entries[1..]);
      if value.None? || rest.None? then None
      else Some([Entry(entries[0].key, value.value)] + rest.value)
  }

  function NormaliseEntry(le: KeyOrder, key: string, v: Json): Option<Json>
    decreases v, 3
  {
    if key == "AND" || key == "OR" then
      if v.Arr? then
        match NormaliseAll(le, v.items)
        case None => None
        case Some(branches) => Some(Arr(branches))
      else
        match Normalise(le, v)
        case None => None
        case Some(branch) => Some(Arr([branch]))
    else if key == "NOT" then Normalise(le, v)
    else if Lookup(v) == [] || !KnownOperators(Lookup(v)) then None
    else Some(Obj(Sort(le, CanonEntries(le, Lookup(v)))))
  }

  function NormaliseAll(le: KeyOrder, items: seq<Json>): Option<seq<Json>>
    decreases items, 0
  {
    if items == [] then Some([])
    else
      var first := Normalise(le, items[0]);
      var rest := NormaliseAll(le, items[1..]);
      if first.None? || rest.None? then None else Some([first.value] + rest.value)
  }

  // ---- Normalising twice ------------------------------------------------------------------------------

  /** Every object inside in key order. */
  ghost predicate Settled(le: KeyOrder, v: Json)
    decreases v
  {
    match v
    case Arr(items) => forall x :: x in items ==> Settled(le, x)
    case Obj(entries) => Sorted(le, entries) && forall e :: e in entries ==> Settled(le, e.value)
    case _ => true
  }

  /** Written out: keys in order, branches in lists, comparisons in objects. */
  ghost predicate Normal(le: KeyOrder, v: Json)
    decreases v
  {
    v.Obj? && Sorted(le, v.entries) && forall e :: e in v.entries ==> NormalEntry(le, e)
  }

  ghost predicate NormalEntry(le: KeyOrder, e: Entry)
    decreases e
  {
    if e.key == "AND" || e.key == "OR" then
      e.value.Arr? && forall x :: x in e.value.items ==> Normal(le, x)
    else if e.key == "NOT" then Normal(le, e.value)
    else e.value.Obj? && e.value.entries != [] && KnownOperators(e.value.entries) && Settled(le, e.value)
  }

  lemma {:induction false} CanonSettled(le: KeyOrder, v: Json)
    requires Preorder(le)
    ensures Settled(le, Canon(le, v))
    decreases v
  {
    match v {
      case Arr(items) => CanonAllSettled(le, items);
      case Obj(entries) =>
        CanonEntriesSettled(le, entries);
        SortSorted(le, CanonEntries(le, entries));
      case _ =>
    }
  }

  lemma {:induction false} CanonAllSettled(le: KeyOrder, items: seq<Json>)
    requires Preorder(le)
    ensures forall x :: x in CanonAll(le, items) ==> Settled(le, x)
    decreases items
  {
    if items != [] {
      CanonSettled(le, items[0]);
      CanonAllSettled(le, items[1..]);
    }
  }

  lemma {:induction false} CanonEntriesSettled(le: KeyOrder, entries: seq<Entry>)
    requires Preorder(le)
    ensures forall e :: e in CanonEntries(le, entries) ==> Settled(le, e.value)
    decreases entries
  {
    if entries != [] {
      CanonSettled(le, entries[0].value);
      CanonEntriesSettled(le, entries[1..]);
    }
  }

  lemma {:induction false} CanonKeys(le: KeyOrder, entries: seq<Entry>)
    requires KnownOperators(entries)
    ensures KnownOperators(CanonEntries(le, entries))
  {
    if entries != [] {
      assert entries[0] in entries;
      CanonKeys(le, entries[1..]);
    }
  }

  lemma {:induction false} SettledIsFixed(le: KeyOrder, v: Json)
    requires Settled(le, v)
    ensures Canon(le, v) == v
    decreases v
  {
    match v {
      case Arr(items) => SettledAllFixed(le, items);
      case Obj(entries) =>
        SettledEntriesFixed(le, entries);
        SortedIsFixed(le, entries);
      case _ =>
    }
  }

  lemma {:induction false} SettledAllFixed(le: KeyOrder, items: seq<Json>)
    requires forall x :: x in items ==> Settled(le, x)
    ensures CanonAll(le, items) == items
    decreases items
  {
    if items != [] {
      assert items[0] in items;
      SettledIsFixed(le, items[0]);
      SettledAllFixed(le, items[1..]);
    }
  }

  lemma {:induction false} SettledEntriesFixed(le: KeyOrder, entries: seq<Entry>)
    requires forall e :: e in entries ==> Settled(le, e.value)
    ensures CanonEntries(le, entries) == entries
    decreases entries
  {
    if entries != [] {
      assert entries[0] in entries;
      SettledIsFixed(le, entries[0].value);
      SettledEntriesFixed(le, entries[1..]);
    }
  }

  /** What normalisation accepts it leaves in normal form... */
  lemma {:induction false} NormaliseIsNormal(le: KeyOrder, v: Json)
    requires Preorder(le)
    ensures Normalise(le, v).Some? ==> Normal(le, Normalise(le, v).value)
    decreases v, 2
  {
    if v.Obj? && NormaliseEntries(le, v.entries).Some? {
      EntriesAreNormal(le, v.entries);
      SortSorted(le, NormaliseEntries(le, v.entries).value);
    }
  }

  lemma {:induction false} EntriesAreNormal(le: KeyOrder, entries: seq<Entry>)
    requires Preorder(le) && NormaliseEntries(le, entries).Some?
    ensures forall e :: e in NormaliseEntries(le, entries).value ==> NormalEntry(le, e)
    decreases entries, 0
  {
    if entries != [] {
      EntryIsNormal(le, entries[0].key, entries[0].value);
      EntriesAreNormal(le, entries[1..]);
    }
  }

  lemma {:induction false} EntryIsNormal(le: KeyOrder, key: string, v: Json)
    requires Preorder(le) && NormaliseEntry(le, key, v).Some?
    ensures NormalEntry(le, Entry(key, NormaliseEntry(le, key, v).value))
    decreases v, 3
  {
    if key == "AND" || key == "OR" {
      if v.Arr? { BranchesAreNormal(le, v.items); } else { NormaliseIsNormal(le, v); }
    } else if key == "NOT" {
      NormaliseIsNormal(le, v);
    } else {
      CanonEntriesSettled(le, Lookup(v));
      CanonKeys(le, Lookup(v));
      SortSorted(le, CanonEntries(le, Lookup(v)));
    }
  }

  lemma {:induction false} BranchesAreNormal(le: KeyOrder, items: seq<Json>)
    requires Preorder(le) && NormaliseAll(le, items).Some?
    ensures forall x :: x in NormaliseAll(le, items).value ==> Normal(le, x)
    decreases items, 0
  {
    if items != [] {
      NormaliseIsNormal(le, items[0]);
      BranchesAreNormal(le, items[1..]);
    }
  }

  /** ...and a filter in normal form is left as it is. */
  lemma {:induction false} NormalIsFixed(le: KeyOrder, v: Json)
    requires Normal(le, v)
    ensures Normalise(le, v) == Some(v)
    decreases v, 2
  {
    NormalEntriesFixed(le, v.entries);
    SortedIsFixed(le, v.entries);
  }

  lemma {:induction false} NormalEntriesFixed(le: KeyOrder, entries: seq<Entry>)
    requires forall e :: e in entries ==> NormalEntry(le, e)
    ensures NormaliseEntries(le, entries) == Some(entries)
    decreases entries, 0
  {
    if entries != [] {
      var e := entries[0];
      assert e in entries;
      if e.key == "AND" || e.key == "OR" {
        NormalAllFixed(le, e.value.items);
      } else if e.key == "NOT" {
        NormalIsFixed(le, e.value);
      } else {
        SettledIsFixed(le, e.value);
      }
      NormalEntriesFixed(le, entries[1..]);
      assert entries == [Entry(e.key, e.value)] + entries[1..];
    }
  }

  lemma {:induction false} NormalAllFixed(le: KeyOrder, items: seq<Json>)
    requires forall x :: x in items ==> Normal(le, x)
    ensures NormaliseAll(le, items) == Some(items)
    decreases items, 0
  {
    if items != [] {
      assert items[0] in items;
      NormalIsFixed(le, items[0]);
      NormalAllFixed(le, items[1..]);
      assert items == [items[0]] + items[1..];
    }
  }

  /** So the normal filters are exactly the results, and normalising twice is normalising once. */
  lemma NormaliseTwice(le: KeyOrder, v: Json)
    requires Preorder(le)
    ensures Normalise(le, v).Some? ==> Normalise(le, Normalise(le, v).value) == Normalise(le, v)
    ensures Normal(le, v) <==> Normalise(le, v) == Some(v)
  {
    NormaliseIsNormal(le, v);
    if Normalise(le, v).Some? { NormalIsFixed(le, Normalise(le, v).value); }
    if Normal(le, v) { NormalIsFixed(le, v); }
  }

  // ---- Meaning --------------------------------------------------------------------------------------

  /** The truth of a comparison, by field name and operator name. */
  type Words = Truths<(string, string, Json)>

  /** Comparisons do not depend on the key order inside their operands. */
  ghost predicate IgnoresKeyOrder(le: KeyOrder, w: Words) {
    forall field, op, v, sure :: w.holds((field, op, Canon(le, v)), sure) == w.holds((field, op, v), sure)
  }

  /** The reading of a raw filter, shorthands included. */
  predicate Says(v: Json, w: Words)
    decreases v, 2
  {
    v.Obj? && forall e :: e in v.entries ==> EntrySays(e.key, e.value, w)
  }

  predicate EntrySays(key: string, v: Json, w: Words)
    decreases v, 3
  {
    if key == "AND" then if v.Arr? then forall x :: x in v.items ==> Says(x, w) else Says(v, w)
    else if key == "OR" then if v.Arr? then exists x :: x in v.items && Says(x, w) else Says(v, w)
    else if key == "NOT" then !Says(v, Opposite(w))
    else forall t :: t in Lookup(v) ==> Is(w, (key, t.key, t.value))
  }

  /** What the shorthands of a field's value say: null that it is null, a list that it is among its
      items, a scalar that it equals it, an object each of its comparisons. */
  lemma ShorthandSays(name: string, v: Json, w: Words)
    requires name != "AND" && name != "OR" && name != "NOT"
    ensures Says(Obj([Entry(name, v)]), w) <==>
            match v
            case Null => Is(w, (name, "isNull", Bool(true)))
            case Arr(_) => Is(w, (name, "inList", v))
            case Obj(tests) => forall t :: t in tests ==> Is(w, (name, t.key, t.value))
            case _ => Is(w, (name, "exact", v))
  {
    var entries := [Entry(name, v)];
    assert Entry(name, v) in entries;
    assert Says(Obj(entries), w) <==> EntrySays(name, v, w);
    if !v.Obj? {
      var test := Lookup(v)[0];
      assert Lookup(v) == [test] && test in Lookup(v);
    }
  }

  lemma {:induction false} CanonEntriesSay(le: KeyOrder, key: string, entries: seq<Entry>, w: Words)
    requires IgnoresKeyOrder(le, w)
    ensures (forall t :: t in CanonEntries(le, entries) ==> Is(w, (key, t.key, t.value)))
            <==> (forall t :: t in entries ==> Is(w, (key, t.key, t.value)))
  {
    if entries != [] {
      var head, tail := entries[0], entries[1..];
      CanonEntriesSay(le, key, tail, w);
      AllSplit(entries, (t: Entry) => Is(w, (key, t.key, t.value)));
      AllSplit(CanonEntries(le, entries), (t: Entry) => Is(w, (key, t.key, t.value)));
      assert CanonEntries(le, entries)[1..] == CanonEntries(le, tail);
      assert w.holds((key, head.key, Canon(le, head.value)), w.sure) == w.holds((key, head.key, head.value), w.sure);
    }
  }

  lemma AllSplit<T>(s: seq<T>, p: T -> bool)
    requires s != []
    ensures (forall x :: x in s ==> p(x)) <==> p(s[0]) && forall x :: x in s[1..] ==> p(x)
    ensures (exists x :: x in s && p(x)) <==> p(s[0]) || exists x :: x in s[1..] && p(x)
  {
    assert forall x :: x in s <==> x == s[0] || x in s[1..];
  }

  /** Normalisation does not change what a filter says. */
  lemma {:induction false} NormaliseMeansTheSame(le: KeyOrder, v: Json, w: Words)
    requires IgnoresKeyOrder(le, w) && Normalise(le, v).Some?
    ensures Says(Normalise(le, v).value, w) <==> Says(v, w)
    decreases v, 2
  {
    EntriesMeanTheSame(le, v.entries, w);
    var n := Normalise(le, v).value;
    var inner := NormaliseEntries(le, v.entries).value;
    assert Says(n, w) <==> forall e :: e in inner ==> EntrySays(e.key, e.value, w);
  }

  lemma {:induction false} EntriesMeanTheSame(le: KeyOrder, entries: seq<Entry>, w: Words)
    requires IgnoresKeyOrder(le, w) && NormaliseEntries(le, entries).Some?
    ensures (forall e :: e in NormaliseEntries(le, entries).value ==> EntrySays(e.key, e.value, w))
            <==> (forall e :: e in entries ==> EntrySays(e.key, e.value, w))
    decreases entries, 0
  {
    if entries != [] {
      var inner := NormaliseEntries(le, entries).value;
      EntryMeansTheSame(le, entries[0].key, entries[0].value, w);
      EntriesMeanTheSame(le, entries[1..], w);
      assert inner[1..] == NormaliseEntries(le, entries[1..]).value;
      AllSplit(entries, (e: Entry) => EntrySays(e.key, e.value, w));
      AllSplit(inner, (e: Entry) => EntrySays(e.key, e.value, w));
    }
  }

  lemma {:induction false} EntryMeansTheSame(le: KeyOrder, key: string, v: Json, w: Words)
    requires IgnoresKeyOrder(le, w) && NormaliseEntry(le, key, v).Some?
    ensures EntrySays(key, NormaliseEntry(le, key, v).value, w) <==> EntrySays(key, v, w)
    decreases v, 3
  {
    if key == "AND" || key == "OR" {
      if v.Arr? {
        BranchesMeanTheSame(le, v.items, w);
      } else {
        NormaliseMeansTheSame(le, v, w);
        var branch := Normalise(le, v).value;
        assert branch in [branch];
      }
    } else if key == "NOT" {
      NormaliseMeansTheSame(le, v, Opposite(w));
    } else {
      CanonEntriesSay(le, key, Lookup(v), w);
      var entries := CanonEntries(le, Lookup(v));
      assert forall t :: t in Sort(le, entries) <==> t in entries;
    }
  }

  lemma {:induction false} BranchesMeanTheSame(le: KeyOrder, items: seq<Json>, w: Words)
    requires IgnoresKeyOrder(le, w) && NormaliseAll(le, items).Some?
    ensures var branches := NormaliseAll(le, items).value;
            && ((forall x :: x in branches ==> Says(x, w)) <==> (forall x :: x in items ==> Says(x, w)))
            && ((exists x :: x in branches && Says(x, w)) <==> (exists x :: x in items && Says(x, w)))
    decreases items, 0
  {
    if items != [] {
      var branches := NormaliseAll(le, items).value;
      NormaliseMeansTheSame(le, items[0], w);
      BranchesMeanTheSame(le, items[1..], w);
      assert branches[1..] == NormaliseAll(le, items[1..]).value;
      AllSplit(items, x => Says(x, w));
      AllSplit(branches, x => Says(x, w));
    }
  }

  // ---- Key order does not matter ------------------------------------------------------------------------

  /** Keys unique in every object inside. */
  ghost predicate Unique(v: Json)
    decreases v
  {
    match v
    case Arr(items) => forall x :: x in items ==> Unique(x)
    case Obj(entries) => UniqueKeys(entries) && forall e :: e in entries ==> Unique(e.value)
    case _ => true
  }

  /** No object inside has two keys that tie. */
  ghost predicate Untied(le: KeyOrder, v: Json)
    decreases v
  {
    match v
    case Arr(items) => forall x :: x in items ==> Untied(le, x)
    case Obj(entries) => NoTies(le, Keys(entries)) && forall e :: e in entries ==> Untied(le, e.value)
    case _ => true
  }

  /** The same value but for the order of keys in the objects inside. */
  ghost predicate Shuffled(a: Json, b: Json)
    decreases a
  {
    if a.Arr? && b.Arr? then
      |a.items| == |b.items| && forall i :: 0 <= i < |a.items| ==> Shuffled(a.items[i], b.items[i])
    else if a.Obj? && b.Obj? then
      && Keys(a.entries) == Keys(b.entries)
      && forall e, f :: e in a.entries && f in b.entries && e.key == f.key ==> Shuffled(e.value, f.value)
    else a == b
  }

  lemma {:induction false} CanonEntriesMember(le: KeyOrder, entries: seq<Entry>, x: Entry)
    ensures x in CanonEntries(le, entries) <==> exists e :: e in entries && x == Entry(e.key, Canon(le, e.value))
  {
    if entries != [] {
      CanonEntriesMember(le, entries[1..], x);
      AllSplit(entries, (e: Entry) => x == Entry(e.key, Canon(le, e.value)));
      assert CanonEntries(le, entries)[1..] == CanonEntries(le, entries[1..]);
      assert x in CanonEntries(le, entries) <==>
             x == Entry(entries[0].key, Canon(le, entries[0].value)) || x in CanonEntries(le, entries[1..]);
    }
  }

  lemma {:induction false} CanonEntriesUnique(le: KeyOrder, entries: seq<Entry>)
    requires UniqueKeys(entries)
    ensures UniqueKeys(CanonEntries(le, entries))
  {
    if entries != [] {
      CanonEntriesUnique(le, entries[1..]);
      assert CanonEntries(le, entries)[1..] == CanonEntries(le, entries[1..]);
      forall x | x in CanonEntries(le, entries[1..]) ensures x.key != entries[0].key {
        CanonEntriesMember(le, entries[1..], x);
      }
    }
  }

  lemma CanonEntriesKeys(le: KeyOrder, entries: seq<Entry>)
    ensures Keys(CanonEntries(le, entries)) == Keys(entries)
  {
    forall x ensures x in CanonEntries(le, entries) ==> x.key in Keys(entries) { CanonEntriesMember(le, entries, x); }
    forall e | e in entries ensures e.key in Keys(CanonEntries(le, entries)) {
      var x := Entry(e.key, Canon(le, e.value));
      CanonEntriesMember(le, entries, x);
      assert x.key == e.key;
    }
  }

  lemma {:induction false} CanonShuffled(le: KeyOrder, a: Json, b: Json)
    requires Preorder(le) && Untied(le, a) && Unique(a) && Unique(b) && Shuffled(a, b)
    ensures Canon(le, a) == Canon(le, b)
    decreases a
  {
    if a.Arr? && b.Arr? {
      CanonAllShuffled(le, a.items, b.items);
    } else if a.Obj? && b.Obj? {
      forall e, f | e in a.entries && f in b.entries && e.key == f.key ensures Canon(le, e.value) == Canon(le, f.value) {
        CanonShuffled(le, e.value, f.value);
      }
      CanonEntriesShuffled(le, a.entries, b.entries);
    }
  }

  lemma {:induction false} CanonAllShuffled(le: KeyOrder, s: seq<Json>, t: seq<Json>)
    requires Preorder(le) && |s| == |t| && forall x :: x in s ==> Untied(le, x)
    requires (forall x :: x in s ==> Unique(x)) && (forall x :: x in t ==> Unique(x))
    requires forall i :: 0 <= i < |s| ==> Shuffled(s[i], t[i])
    ensures CanonAll(le, s) == CanonAll(le, t)
    decreases s
  {
    if s != [] {
      assert s[0] in s && t[0] in t;
      CanonShuffled(le, s[0], t[0]);
      CanonAllShuffled(le, s[1..], t[1..]);
    }
  }

  lemma CanonEntriesShuffled(le: KeyOrder, s: seq<Entry>, t: seq<Entry>)
    requires Preorder(le) && NoTies(le, Keys(s)) && UniqueKeys(s) && UniqueKeys(t) && Keys(s) == Keys(t)
    requires forall e, f :: e in s && f in t && e.key == f.key ==> Canon(le, e.value) == Canon(le, f.value)
    ensures Sort(le, CanonEntries(le, s)) == Sort(le, CanonEntries(le, t))
  {
    CanonEntriesUnique(le, s);
    CanonEntriesUnique(le, t);
    forall x ensures x in CanonEntries(le, s) <==> x in CanonEntries(le, t) {
      CanonEntriesMember(le, s, x);
      CanonEntriesMember(le, t, x);
      if e :| e in s && x == Entry(e.key, Canon(le, e.value)) {
        assert e.key in Keys(t);
        var f :| f in t && f.key == e.key;
        assert x == Entry(f.key, Canon(le, f.value));
      }
      if f :| f in t && x == Entry(f.key, Canon(le, f.value)) {
        assert f.key in Keys(s);
        var e :| e in s && e.key == f.key;
        assert x == Entry(e.key, Canon(le, e.value));
      }
    }
    CanonEntriesKeys(le, s);
    SortSame(le, CanonEntries(le, s), CanonEntries(le, t));
  }

  /** What normalisation makes of an object, entry by entry. */
  lemma {:induction false} NormaliseEntriesMember(le: KeyOrder, entries: seq<Entry>, x: Entry)
    ensures NormaliseEntries(le, entries).Some? <==> forall e :: e in entries ==> NormaliseEntry(le, e.key, e.value).Some?
    ensures NormaliseEntries(le, entries).Some? ==>
              (x in NormaliseEntries(le, entries).value <==>
               exists e :: e in entries && NormaliseEntry(le, e.key, e.value) == Some(x.value) && e.key == x.key)
  {
    if entries != [] {
      NormaliseEntriesMember(le, entries[1..], x);
      AllSplit(entries, (e: Entry) => NormaliseEntry(le, e.key, e.value).Some?);
      AllSplit(entries, (e: Entry) => NormaliseEntry(le, e.key, e.value) == Some(x.value) && e.key == x.key);
    }
  }

  lemma {:induction false} NormaliseEntriesKeys(le: KeyOrder, entries: seq<Entry>)
    requires NormaliseEntries(le, entries).Some?
    ensures Keys(NormaliseEntries(le, entries).value) == Keys(entries)
  {
    if entries != [] {
      var rest := NormaliseEntries(le, entries[1..]).value;
      NormaliseEntriesKeys(le, entries[1..]);
      KeysSplit(entries);
      KeysSplit(NormaliseEntries(le, entries).value);
      assert NormaliseEntries(le, entries).value[1..] == rest;
    }
  }

  lemma KeysSplit(s: seq<Entry>)
    requires s != []
    ensures Keys(s) == {s[0].key} + Keys(s[1..])
  {
    assert forall x :: x in s <==> x == s[0] || x in s[1..];
  }

  lemma {:induction false} NormaliseEntriesUnique(le: KeyOrder, entries: seq<Entry>)
    requires UniqueKeys(entries) && NormaliseEntries(le, entries).Some?
    ensures UniqueKeys(NormaliseEntries(le, entries).value)
  {
    if entries != [] {
      NormaliseEntriesUnique(le, entries[1..]);
      var rest := NormaliseEntries(le, entries[1..]).value;
      assert NormaliseEntries(le, entries).value[1..] == rest;
      forall x | x in rest ensures x.key != entries[0].key {
        NormaliseEntriesMember(le, entries[1..], x);
      }
    }
  }

  /** Two spellings of one filter that differ in key order have one normal form, or are both
      refused; so comparing normal forms as text compares filters. */
  lemma {:induction false} KeyOrderDoesNotMatter(le: KeyOrder, a: Json, b: Json)
    requires Preorder(le) && Untied(le, a) && Unique(a) && Unique(b) && Shuffled(a, b)
    ensures Normalise(le, a) == Normalise(le, b)
    decreases a, 2
  {
    if a.Obj? && b.Obj? {
      forall e, f | e in a.entries && f in b.entries && e.key == f.key
        ensures NormaliseEntry(le, e.key, e.value) == NormaliseEntry(le, f.key, f.value)
      {
        EntryOrderDoesNotMatter(le, e.key, e.value, f.value);
      }
      NormaliseEntriesShuffled(le, a.entries, b.entries);
    }
  }

  lemma {:induction false} EntryOrderDoesNotMatter(le: KeyOrder, key: string, a: Json, b: Json)
    requires Preorder(le) && Untied(le, a) && Unique(a) && Unique(b) && Shuffled(a, b)
    ensures NormaliseEntry(le, key, a) == NormaliseEntry(le, key, b)
    decreases a, 3
  {
    if key == "AND" || key == "OR" {
      if a.Arr? && b.Arr? { BranchOrderDoesNotMatter(le, a.items, b.items); } else { KeyOrderDoesNotMatter(le, a, b); }
    } else if key == "NOT" {
      KeyOrderDoesNotMatter(le, a, b);
    } else {
      CanonShuffled(le, a, b);
      LookupShuffled(le, a, b);
    }
  }

  lemma SameKeysKnown(s: seq<Entry>, t: seq<Entry>)
    requires Keys(s) == Keys(t)
    ensures s == [] <==> t == []
    ensures KnownOperators(s) <==> KnownOperators(t)
  {
    assert KnownOperators(s) <==> forall key :: key in Keys(s) ==> IsOperator(key);
    assert KnownOperators(t) <==> forall key :: key in Keys(t) ==> IsOperator(key);
    if s != [] { assert s[0].key in Keys(t); }
    if t != [] { assert t[0].key in Keys(s); }
  }

  lemma LookupShuffled(le: KeyOrder, a: Json, b: Json)
    requires Shuffled(a, b) && Canon(le, a) == Canon(le, b)
    ensures Lookup(a) == [] <==> Lookup(b) == []
    ensures KnownOperators(Lookup(a)) <==> KnownOperators(Lookup(b))
    ensures Sort(le, CanonEntries(le, Lookup(a))) == Sort(le, CanonEntries(le, Lookup(b)))
  {
    if a.Obj? && b.Obj? {
      SameKeysKnown(a.entries, b.entries);
    } else if a.Arr? && b.Arr? {
      assert CanonEntries(le, Lookup(a)) == [Entry("inList", Canon(le, a))] + CanonEntries(le, Lookup(a)[1..]);
      assert CanonEntries(le, Lookup(b)) == [Entry("inList", Canon(le, b))] + CanonEntries(le, Lookup(b)[1..]);
      assert Lookup(a)[1..] == [] == Lookup(b)[1..];
    }
  }

  lemma {:induction false} BranchOrderDoesNotMatter(le: KeyOrder, s: seq<Json>, t: seq<Json>)
    requires Preorder(le) && |s| == |t| && forall x :: x in s ==> Untied(le, x)
    requires (forall x :: x in s ==> Unique(x)) && (forall x :: x in t ==> Unique(x))
    requires forall i :: 0 <= i < |s| ==> Shuffled(s[i], t[i])
    ensures NormaliseAll(le, s) == NormaliseAll(le, t)
    decreases s, 0
  {
    if s != [] {
      assert s[0] in s && t[0] in t;
      KeyOrderDoesNotMatter(le, s[0], t[0]);
      BranchOrderDoesNotMatter(le, s[1..], t[1..]);
    }
  }

  lemma NormaliseEntriesWithin(le: KeyOrder, s: seq<Entry>, t: seq<Entry>)
    requires Keys(s) == Keys(t)
    requires forall e, f :: e in s && f in t && e.key == f.key ==>
               NormaliseEntry(le, e.key, e.value) == NormaliseEntry(le, f.key, f.value)
    ensures NormaliseEntries(le, s).Some? ==> NormaliseEntries(le, t).Some?
    ensures NormaliseEntries(le, s).Some? ==>
              forall x :: x in NormaliseEntries(le, s).value ==> x in NormaliseEntries(le, t).value
  {
    if NormaliseEntries(le, s).Some? {
      var any := Entry("", Null);
      NormaliseEntriesMember(le, s, any);
      NormaliseEntriesMember(le, t, any);
      forall f | f in t ensures NormaliseEntry(le, f.key, f.value).Some? {
        assert f.key in Keys(s);
        var e :| e in s && e.key == f.key;
      }
      forall x | x in NormaliseEntries(le, s).value ensures x in NormaliseEntries(le, t).value {
        NormaliseEntriesMember(le, s, x);
        NormaliseEntriesMember(le, t, x);
        var e :| e in s && NormaliseEntry(le, e.key, e.value) == Some(x.value) && e.key == x.key;
        assert e.key in Keys(t);
        var f :| f in t && f.key == e.key;
        assert NormaliseEntry(le, f.key, f.value) == Some(x.value);
      }
    }
  }

  lemma NormaliseEntriesShuffled(le: KeyOrder, s: seq<Entry>, t: seq<Entry>)
    requires Preorder(le) && NoTies(le, Keys(s)) && UniqueKeys(s) && UniqueKeys(t) && Keys(s) == Keys(t)
    requires forall e, f :: e in s && f in t && e.key == f.key ==>
               NormaliseEntry(le, e.key, e.value) == NormaliseEntry(le, f.key, f.value)
    ensures NormaliseEntries(le, s).Some? <==> NormaliseEntries(le, t).Some?
    ensures NormaliseEntries(le, s).Some? ==>
              Sort(le, NormaliseEntries(le, s).value) == Sort(le, NormaliseEntries(le, t).value)
  {
    NormaliseEntriesWithin(le, s, t);
    NormaliseEntriesWithin(le, t, s);
    if NormaliseEntries(le, s).Some? {
      NormaliseEntriesUnique(le, s);
      NormaliseEntriesUnique(le, t);
      NormaliseEntriesKeys(le, s);
      SortSame(le, NormaliseEntries(le, s).value, NormaliseEntries(le, t).value);
    }
  }

  /** A filter on one field whose operand is an object with these two keys. */
  function Operand(x: Entry, y: Entry): Json {
    Obj([Entry("f", Obj([Entry("exact", Obj([x, y]))]))])
  }

  lemma OneEntry(x: Entry)
    requires Unique(x.value)
    ensures Unique(Obj([x]))
  {
    assert [x][1..] == [];
    assert UniqueKeys([x][1..]);
  }

  lemma OperandUnique(x: Entry, y: Entry)
    requires x.key != y.key && x.value == Bool(true) == y.value
    ensures Unique(Operand(x, y))
  {
    assert [x, y][1..] == [y] && [y][1..] == [];
    assert UniqueKeys([]) && UniqueKeys([y]) && UniqueKeys([x, y]);
    OneEntry(Entry("exact", Obj([x, y])));
    OneEntry(Entry("f", Obj([Entry("exact", Obj([x, y]))])));
  }

  lemma OneShuffled(key: string, a: Json, b: Json)
    requires Shuffled(a, b)
    ensures Shuffled(Obj([Entry(key, a)]), Obj([Entry(key, b)]))
  {
    assert Entry(key, a) in [Entry(key, a)] && Entry(key, b) in [Entry(key, b)];
    assert Keys([Entry(key, a)]) == {key} == Keys([Entry(key, b)]);
  }

  lemma OperandShuffled(x: Entry, y: Entry)
    requires x.key != y.key && x.value == Bool(true) == y.value
    ensures Shuffled(Operand(x, y), Operand(y, x))
  {
    var s, t := [x, y], [y, x];
    assert x in s && y in s && x in t && y in t;
    assert Keys(s) == {x.key, y.key} == Keys(t);
    assert Shuffled(Obj(s), Obj(t));
    OneShuffled("exact", Obj(s), Obj(t));
    OneShuffled("f", Obj([Entry("exact", Obj(s))]), Obj([Entry("exact", Obj(t))]));
  }

  lemma OperandNormal(le: KeyOrder, x: Entry, y: Entry)
    requires le(x.key, y.key) && x.value == Bool(true) == y.value
    ensures Normalise(le, Operand(x, y)) == Some(Operand(x, y))
  {
    TiedPair(le, x, y);
    var test := Entry("exact", Obj([x, y]));
    var field := Entry("f", Obj([test]));
    assert [test][1..] == [] && [field][1..] == [];
    assert CanonEntries(le, [test]) == [test];
    assert Sort(le, [test]) == [test] && Sort(le, [field]) == [field];
    assert OperatorName(Exact) == "exact";
    assert KnownOperators([test]);
    assert NormaliseEntry(le, "f", field.value) == Some(field.value);
    assert NormaliseEntries(le, []) == Some([]);
    assert [Entry(field.key, field.value)] + [] == [field];
    assert NormaliseEntries(le, [field]) == Some([field]);
  }

  /** When two distinct keys tie, two spellings of one filter keep two normal forms. */
  lemma TiedKeysMatter(le: KeyOrder, a: string, b: string)
    requires a != b && le(a, b) && le(b, a)
    ensures var x, y := Entry(a, Bool(true)), Entry(b, Bool(true));
            && Unique(Operand(x, y)) && Unique(Operand(y, x)) && Shuffled(Operand(x, y), Operand(y, x))
            && Normalise(le, Operand(x, y)) != Normalise(le, Operand(y, x))
  {
    var x, y := Entry(a, Bool(true)), Entry(b, Bool(true));
    OperandUnique(x, y);
    OperandUnique(y, x);
    OperandShuffled(x, y);
    OperandNormal(le, x, y);
    OperandNormal(le, y, x);
  }

  lemma TiedPair(le: KeyOrder, x: Entry, y: Entry)
    requires le(x.key, y.key) && x.value == Bool(true) == y.value
    ensures Sort(le, CanonEntries(le, [x, y])) == [x, y]
  {
    assert [x, y][1..] == [y] && [y][1..] == [];
    assert CanonEntries(le, [y]) == [y];
    assert CanonEntries(le, [x, y]) == [x, y];
    assert Sort(le, [y]) == [y];
  }

  // ---- A stable sort keeps tied keys apart -----------------------------------------------------------

  /** The entries whose keys tie with a key, in order. */
  function Class(le: KeyOrder, key: string, s: seq<Entry>): (r: seq<Entry>)
    ensures forall x :: x in r <==> x in s && Tie(le, x.key, key)
  {
    if s == [] then []
    else
      assert forall x :: x in s <==> x == s[0] || x in s[1..];
      if Tie(le, s[0].key, key) then [s[0]] + Class(le, key, s[1..]) else Class(le, key, s[1..])
  }

  lemma {:induction false} ClassAppend(le: KeyOrder, key: string, s: seq<Entry>, t: seq<Entry>)
    ensures Class(le, key, s + t) == Class(le, key, s) + Class(le, key, t)
  {
    if s == [] {
      assert s + t == t;
    } else {
      assert (s + t)[1..] == s[1..] + t;
      ClassAppend(le, key, s[1..], t);
    }
  }

  lemma {:induction false} InsertStable(le: KeyOrder, key: string, e: Entry, s: seq<Entry>)
    requires Preorder(le)
    ensures Class(le, key, Insert(le, e, s)) == Class(le, key, [e]) + Class(le, key, s)
  {
    ClassAppend(le, key, [e], s);
    if s != [] && !le(e.key, s[0].key) {
      var r := Insert(le, e, s);
      assert r[0] == s[0] && r[1..] == Insert(le, e, s[1..]);
      InsertStable(le, key, e, s[1..]);
      assert !(Tie(le, e.key, key) && Tie(le, s[0].key, key));
      assert [e][1..] == [];
    }
  }

  /** Sorting is stable: entries with tied keys keep their order. */
  lemma {:induction false} SortStable(le: KeyOrder, key: string, s: seq<Entry>)
    requires Preorder(le)
    ensures Class(le, key, Sort(le, s)) == Class(le, key, s)
  {
    if s != [] {
      SortStable(le, key, s[1..]);
      InsertStable(le, key, s[0], Sort(le, s[1..]));
      ClassAppend(le, key, [s[0]], s[1..]);
      assert [s[0]] + s[1..] == s;
    }
  }

  lemma MovedApart(le: KeyOrder, p: seq<Entry>, y: Entry, q: seq<Entry>, x: Entry)
    requires x in p && Tie(le, x.key, y.key) && Tie(le, y.key, y.key) && y !in p
    ensures Class(le, y.key, p + [y] + q) != Class(le, y.key, [y] + p + q)
  {
    FirstOfClass(le, y.key, p, [y] + q, x);
    FirstOfClass(le, y.key, [y], p + q, y);
    assert p + [y] + q == p + ([y] + q) && [y] + p + q == [y] + (p + q);
  }

  /** So moving an entry before one that ties with it changes the sorted list. */
  lemma SortTellsApart(le: KeyOrder, p: seq<Entry>, y: Entry, q: seq<Entry>, x: Entry)
    requires Preorder(le) && x in p && Tie(le, x.key, y.key) && y !in p
    ensures Sort(le, p + [y] + q) != Sort(le, [y] + p + q)
  {
    MovedApart(le, p, y, q, x);
    SortStable(le, y.key, p + [y] + q);
    SortStable(le, y.key, [y] + p + q);
  }

  lemma FirstOfClass(le: KeyOrder, key: string, p: seq<Entry>, q: seq<Entry>, x: Entry)
    requires x in p && Tie(le, x.key, key)
    ensures Class(le, key, p + q) != [] && Class(le, key, p + q)[0] in p
  {
    ClassAppend(le, key, p, q);
    assert x in Class(le, key, p);
    assert Class(le, key, p)[0] in Class(le, key, p);
  }

  // ---- Another spelling of a tied filter ----------------------------------------------------------------

  lemma {:induction false} ShuffledSelf(v: Json)
    requires Unique(v)
    ensures Shuffled(v, v)
    decreases v
  {
    match v {
      case Arr(items) => forall i | 0 <= i < |items| ensures Shuffled(items[i], items[i]) { ShuffledSelf(items[i]); }
      case Obj(entries) =>
        forall e, f | e in entries && f in entries && e.key == f.key ensures Shuffled(e.value, f.value) {
          OneOfKey(entries, e, f);
          ShuffledSelf(e.value);
        }
      case _ =>
    }
  }

  lemma {:induction false} OneOfKey(s: seq<Entry>, e: Entry, f: Entry)
    requires UniqueKeys(s) && e in s && f in s && e.key == f.key
    ensures e == f
  {
    if e != s[0] && f != s[0] { OneOfKey(s[1..], e, f); }
  }

  lemma {:induction false} SameKeysUnique(s: seq<Entry>, t: seq<Entry>)
    requires UniqueKeys(s) && |s| == |t| && forall i :: 0 <= i < |s| ==> s[i].key == t[i].key
    ensures UniqueKeys(t)
  {
    if s != [] {
      SameKeysUnique(s[1..], t[1..]);
      forall x | x in t[1..] ensures x.key != t[0].key {
        var i :| 0 <= i < |t[1..]| && t[1..][i] == x;
        assert s[1..][i] in s[1..];
      }
    }
  }

  lemma {:induction false} MovedUnique(p: seq<Entry>, y: Entry, q: seq<Entry>)
    requires UniqueKeys(p + [y] + q)
    ensures UniqueKeys([y] + p + q) && y !in p
  {
    var s := p + [y] + q;
    var moved := [y] + p + q;
    assert moved[1..] == p + q;
    if p == [] {
      assert s == moved;
    } else {
      assert s[1..] == p[1..] + [y] + q;
      MovedUnique(p[1..], y, q);
      assert ([y] + p[1..] + q)[1..] == p[1..] + q == (p + q)[1..];
      assert y in s[1..];
      assert forall x :: x in p[1..] + q ==> x in s[1..];
      assert forall x :: x in p + q <==> x == p[0] || x in p[1..] + q;
    }
  }

  /** Another value in place of the `i`-th. */
  function Replaced(entries: seq<Entry>, i: nat, v: Json): seq<Entry>
    requires i < |entries|
  {
    entries[i := Entry(entries[i].key, v)]
  }

  lemma ReplacedShuffled(entries: seq<Entry>, i: nat, v: Json)
    requires i < |entries| && Unique(Obj(entries)) && Unique(v) && Shuffled(entries[i].value, v)
    ensures Unique(Obj(Replaced(entries, i, v))) && Shuffled(Obj(entries), Obj(Replaced(entries, i, v)))
  {
    var after := Replaced(entries, i, v);
    SameKeysUnique(entries, after);
    forall f | f in after ensures Unique(f.value) && f.key in Keys(entries) {
      var k :| 0 <= k < |after| && after[k] == f;
      assert entries[k] in entries;
    }
    forall e | e in entries ensures e.key in Keys(after) {
      var k :| 0 <= k < |entries| && entries[k] == e;
      assert after[k] in after;
    }
    assert Keys(entries) == Keys(after);
    forall e, f | e in entries && f in after && e.key == f.key ensures Shuffled(e.value, f.value) {
      var k :| 0 <= k < |after| && after[k] == f;
      OneOfKey(entries, e, entries[k]);
      ShuffledSelf(e.value);
    }
  }

  lemma MovedShuffled(p: seq<Entry>, y: Entry, q: seq<Entry>)
    requires Unique(Obj(p + [y] + q))
    ensures Unique(Obj([y] + p + q)) && Shuffled(Obj(p + [y] + q), Obj([y] + p + q))
  {
    var s, t := p + [y] + q, [y] + p + q;
    MovedUnique(p, y, q);
    assert SameEntries(s, t);
    assert Keys(s) == Keys(t);
    forall e, f | e in s && f in t && e.key == f.key ensures Shuffled(e.value, f.value) {
      OneOfKey(s, e, f);
      ShuffledSelf(e.value);
    }
  }

  lemma ItemShuffled(items: seq<Json>, i: nat, v: Json)
    requires i < |items| && Unique(Arr(items)) && Unique(v) && Shuffled(items[i], v)
    ensures Unique(Arr(items[i := v])) && Shuffled(Arr(items), Arr(items[i := v]))
  {
    forall k | 0 <= k < |items| ensures Shuffled(items[k], items[i := v][k]) { ShuffledSelf(items[k]); }
  }

  /** Two entries with tied keys, and what is around them. */
  lemma TiedEntries(le: KeyOrder, entries: seq<Entry>) returns (p: seq<Entry>, y: Entry, q: seq<Entry>, x: Entry)
    requires !NoTies(le, Keys(entries))
    ensures entries == p + [y] + q && x in p && x.key != y.key && Tie(le, x.key, y.key)
  {
    var a, b :| a in Keys(entries) && b in Keys(entries) && Tie(le, a, b) && a != b;
    var i :| 0 <= i < |entries| && entries[i].key == a;
    var j :| 0 <= j < |entries| && entries[j].key == b;
    var first, second := if i < j then i else j, if i < j then j else i;
    p, y, q, x := entries[..second], entries[second], entries[second + 1..], entries[first];
    assert p[first] == x;
  }

  lemma {:induction false} CanonEntriesAppend(le: KeyOrder, s: seq<Entry>, t: seq<Entry>)
    ensures CanonEntries(le, s + t) == CanonEntries(le, s) + CanonEntries(le, t)
  {
    if s == [] {
      assert s + t == t;
    } else {
      assert (s + t)[1..] == s[1..] + t;
      CanonEntriesAppend(le, s[1..], t);
    }
  }

  lemma {:induction false} CanonAllAt(le: KeyOrder, items: seq<Json>, i: nat)
    requires i < |items|
    ensures CanonAll(le, items)[i] == Canon(le, items[i])
  {
    if i > 0 { CanonAllAt(le, items[1..], i - 1); }
  }

  lemma CanonMoved(le: KeyOrder, p: seq<Entry>, y: Entry, q: seq<Entry>, x: Entry)
    requires Preorder(le) && UniqueKeys(p + [y] + q) && x in p && Tie(le, x.key, y.key)
    ensures Sort(le, CanonEntries(le, p + [y] + q)) != Sort(le, CanonEntries(le, [y] + p + q))
  {
    var p', y', q' := CanonEntries(le, p), Entry(y.key, Canon(le, y.value)), CanonEntries(le, q);
    assert [y][1..] == [];
    assert CanonEntries(le, [y]) == [y'];
    CanonEntriesAppend(le, p + [y], q);
    CanonEntriesAppend(le, p, [y]);
    CanonEntriesAppend(le, [y] + p, q);
    CanonEntriesAppend(le, [y], p);
    CanonEntriesUnique(le, p + [y] + q);
    MovedUnique(p', y', q');
    var x' := Entry(x.key, Canon(le, x.value));
    CanonEntriesMember(le, p, x');
    SortTellsApart(le, p', y', q', x');
  }

  lemma CanonReplaced(le: KeyOrder, entries: seq<Entry>, i: nat, v: Json)
    requires i < |entries| && UniqueKeys(entries) && Canon(le, v) != Canon(le, entries[i].value)
    ensures Sort(le, CanonEntries(le, entries)) != Sort(le, CanonEntries(le, Replaced(entries, i, v)))
  {
    var after := Replaced(entries, i, v);
    var x := Entry(entries[i].key, Canon(le, entries[i].value));
    CanonEntriesMember(le, entries, x);
    CanonEntriesMember(le, after, x);
    if e :| e in after && x == Entry(e.key, Canon(le, e.value)) {
      SameKeysUnique(entries, after);
      OneOfKey(after, e, after[i]);
    }
  }

  /** A tied value has another spelling with another canonical form... */
  lemma {:induction false} RespellValue(le: KeyOrder, a: Json) returns (b: Json)
    requires Preorder(le) && Unique(a) && !Untied(le, a)
    ensures Unique(b) && Shuffled(a, b) && Canon(le, a) != Canon(le, b)
    decreases a
  {
    if a.Arr? {
      var i :| 0 <= i < |a.items| && !Untied(le, a.items[i]);
      var item := RespellValue(le, a.items[i]);
      ItemShuffled(a.items, i, item);
      b := Arr(a.items[i := item]);
      CanonAllAt(le, a.items, i);
      CanonAllAt(le, b.items, i);
    } else if !NoTies(le, Keys(a.entries)) {
      var p, y, q, x := TiedEntries(le, a.entries);
      MovedShuffled(p, y, q);
      b := Obj([y] + p + q);
      CanonMoved(le, p, y, q, x);
    } else {
      var i :| 0 <= i < |a.entries| && !Untied(le, a.entries[i].value);
      var v := RespellValue(le, a.entries[i].value);
      ReplacedShuffled(a.entries, i, v);
      b := Obj(Replaced(a.entries, i, v));
      CanonReplaced(le, a.entries, i, v);
    }
  }

  lemma {:induction false} NormaliseEntriesAppend(le: KeyOrder, s: seq<Entry>, t: seq<Entry>)
    ensures var both, one, other := NormaliseEntries(le, s + t), NormaliseEntries(le, s), NormaliseEntries(le, t);
            && (both.Some? <==> one.Some? && other.Some?)
            && (both.Some? ==> both.value == one.value + other.value)
  {
    if s == [] {
      assert s + t == t;
    } else {
      assert (s + t)[1..] == s[1..] + t;
      NormaliseEntriesAppend(le, s[1..], t);
    }
  }

  lemma {:induction false} NormaliseAllAt(le: KeyOrder, items: seq<Json>, i: nat)
    requires i < |items| && NormaliseAll(le, items).Some?
    ensures |NormaliseAll(le, items).value| == |items| && Some(NormaliseAll(le, items).value[i]) == Normalise(le, items[i])
  {
    if i > 0 { NormaliseAllAt(le, items[1..], i - 1); }
    else if |items| > 1 { NormaliseAllAt(le, items[1..], 0); }
  }

  lemma NormaliseMoved(le: KeyOrder, p: seq<Entry>, y: Entry, q: seq<Entry>, x: Entry)
    requires Preorder(le) && UniqueKeys(p + [y] + q) && x in p && Tie(le, x.key, y.key)
    requires NormaliseEntries(le, p + [y] + q).Some?
    ensures Normalise(le, Obj(p + [y] + q)) != Normalise(le, Obj([y] + p + q))
  {
    NormaliseEntriesAppend(le, p + [y], q);
    NormaliseEntriesAppend(le, p, [y]);
    NormaliseEntriesAppend(le, [y] + p, q);
    NormaliseEntriesAppend(le, [y], p);
    var p', q' := NormaliseEntries(le, p).value, NormaliseEntries(le, q).value;
    assert [y][1..] == [];
    var y' := Entry(y.key, NormaliseEntry(le, y.key, y.value).value);
    assert NormaliseEntries(le, []) == Some([]) && [y'] + [] == [y'];
    assert NormaliseEntries(le, [y]) == Some([y']);
    NormaliseEntriesUnique(le, p + [y] + q);
    MovedUnique(p', y', q');
    NormaliseEntriesKeys(le, p);
    assert x.key in Keys(p');
    var x' :| x' in p' && x'.key == x.key;
    SortTellsApart(le, p', y', q', x');
  }

  lemma NormaliseReplaced(le: KeyOrder, entries: seq<Entry>, i: nat, v: Json)
    requires i < |entries| && UniqueKeys(entries) && NormaliseEntries(le, entries).Some?
    requires NormaliseEntry(le, entries[i].key, v) != NormaliseEntry(le, entries[i].key, entries[i].value)
    ensures Normalise(le, Obj(entries)) != Normalise(le, Obj(Replaced(entries, i, v)))
  {
    var after := Replaced(entries, i, v);
    NormaliseEntriesMember(le, entries, entries[i]);
    var x := Entry(entries[i].key, NormaliseEntry(le, entries[i].key, entries[i].value).value);
    NormaliseEntriesMember(le, entries, x);
    NormaliseEntriesMember(le, after, x);
    if NormaliseEntries(le, after).Some? && x in NormaliseEntries(le, after).value {
      var e :| e in after && NormaliseEntry(le, e.key, e.value) == Some(x.value) && e.key == x.key;
      SameKeysUnique(entries, after);
      OneOfKey(after, e, after[i]);
    }
  }

  /** ...and an accepted tied filter has another spelling with another normal form. */
  lemma {:induction false} Respell(le: KeyOrder, a: Json) returns (b: Json)
    requires Preorder(le) && Unique(a) && Normalise(le, a).Some? && !Untied(le, a)
    ensures Unique(b) && Shuffled(a, b) && Normalise(le, b) != Normalise(le, a)
    decreases a, 2
  {
    if !NoTies(le, Keys(a.entries)) {
      var p, y, q, x := TiedEntries(le, a.entries);
      MovedShuffled(p, y, q);
      b := Obj([y] + p + q);
      NormaliseMoved(le, p, y, q, x);
    } else {
      var i :| 0 <= i < |a.entries| && !Untied(le, a.entries[i].value);
      var e := a.entries[i];
      NormaliseEntriesMember(le, a.entries, e);
      var v := RespellEntry(le, e.key, e.value);
      ReplacedShuffled(a.entries, i, v);
      b := Obj(Replaced(a.entries, i, v));
      NormaliseReplaced(le, a.entries, i, v);
    }
  }

  lemma {:induction false} RespellEntry(le: KeyOrder, key: string, a: Json) returns (b: Json)
    requires Preorder(le) && Unique(a) && NormaliseEntry(le, key, a).Some? && !Untied(le, a)
    ensures Unique(b) && Shuffled(a, b) && NormaliseEntry(le, key, b) != NormaliseEntry(le, key, a)
    decreases a, 3
  {
    if (key == "AND" || key == "OR") && a.Arr? {
      var i :| 0 <= i < |a.items| && !Untied(le, a.items[i]);
      NormaliseAllAt(le, a.items, i);
      var item := Respell(le, a.items[i]);
      ItemShuffled(a.items, i, item);
      b := Arr(a.items[i := item]);
      if NormaliseAll(le, b.items).Some? { NormaliseAllAt(le, b.items, i); }
    } else if key == "AND" || key == "OR" || key == "NOT" {
      b := Respell(le, a);
    } else {
      b := RespellValue(le, a);
      if a.Arr? {
        assert [Entry("inList", a)][1..] == [] == [Entry("inList", b)][1..];
        assert CanonEntries(le, Lookup(a)) == [Entry("inList", Canon(le, a))];
        assert CanonEntries(le, Lookup(b)) == [Entry("inList", Canon(le, b))];
        assert Sort(le, CanonEntries(le, Lookup(a))) == CanonEntries(le, Lookup(a));
        assert Sort(le, CanonEntries(le, Lookup(b))) == CanonEntries(le, Lookup(b));
      }
    }
  }

  /** Whatever the order of its keys, an accepted filter has one normal form exactly when no object
      inside it has two keys that tie. */
  lemma OneNormalFormExactlyWhen(le: KeyOrder, a: Json)
    requires Preorder(le) && Unique(a) && Normalise(le, a).Some?
    ensures (forall b :: Unique(b) && Shuffled(a, b) ==> Normalise(le, b) == Normalise(le, a)) <==> Untied(le, a)
  {
    if Untied(le, a) {
      forall b | Unique(b) && Shuffled(a, b) ensures Normalise(le, b) == Normalise(le, a) {
        KeyOrderDoesNotMatter(le, a, b);
      }
    } else {
      var b := Respell(le, a);
    }
  }
}
