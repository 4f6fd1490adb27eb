/** Layered composition: the transitive dependencies of each layer, and which layer's setting
    of a field stands. */
module Layers {
  import opened Common

  /** Direct dependencies by layer id. */
  type Graph = map<string, seq<string>>

  /** A dependency path: at least one step, each along a declared dependency. */
  predicate IsPath(g: Graph, p: seq<string>) {
    |p| >= 2 && forall i :: 0 <= i < |p| - 1 ==> p[i] in g && p[i + 1] in g[p[i]]
  }

  ghost predicate DependsOn(g: Graph, a: string, b: string) {
    exists p :: IsPath(g, p) && p[0] == a && p[|p| - 1] == b
  }

  predicate AllKnown(g: Graph) {
    forall id :: id in g ==> forall d :: d in g[id] ==> d in g
  }

  ghost predicate Cyclic(g: Graph) {
    exists id :: id in g && DependsOn(g, id, id)
  }

  ghost predicate IsClosure(g: Graph, id: string, ancestors: set<string>) {
    forall b :: b in ancestors <==> DependsOn(g, id, b)
  }

  // ---- Paths --------------------------------------------------------------------------

  lemma DirectDependency(g: Graph, a: string, b: string)
    requires a in g && b in g[a]
    ensures DependsOn(g, a, b)
  {
    assert IsPath(g, [a, b]);
  }

  lemma DependsTransitive(g: Graph, a: string, b: string, c: string)
    requires DependsOn(g, a, b) && DependsOn(g, b, c)
    ensures DependsOn(g, a, c)
  {
    var p :| IsPath(g, p) && p[0] == a && p[|p| - 1] == b;
    var q :| IsPath(g, q) && q[0] == b && q[|q| - 1] == c;
    var r := p + q[1..];
    forall i | 0 <= i < |r| - 1 ensures r[i] in g && r[i + 1] in g[r[i]] {
      if i >= |p| - 1 {
        assert r[i] == q[i - (|p| - 1)] && r[i + 1] == q[i + 1 - (|p| - 1)];
      }
    }
    assert IsPath(g, r);
  }

  /** A dependency is direct, or goes through a direct one. */
  lemma FirstStep(g: Graph, a: string, b: string)
    requires DependsOn(g, a, b)
    ensures a in g && exists d :: d in g[a] && (d == b || DependsOn(g, d, b))
  {
    var p :| IsPath(g, p) && p[0] == a && p[|p| - 1] == b;
    assert p[1] in g[a];
    if |p| > 2 {
      var rest := p[1..];
      forall i | 0 <= i < |rest| - 1 ensures rest[i] in g && rest[i + 1] in g[rest[i]] {
        assert rest[i] == p[i + 1] && rest[i + 1] == p[i + 2];
      }
      assert IsPath(g, rest);
    }
  }

  function After(path: seq<string>, id: string, i: nat): string
    requires i < |path|
  {
    if i + 1 < |path| then path[i + 1] else id
  }

  /** Distinct declared ids, each depending on the next, the last on `id`. */
  ghost predicate Trail(g: Graph, path: seq<string>, id: string) {
    && id in g
    && (forall i :: 0 <= i < |path| ==> path[i] in g && After(path, id, i) in g[path[i]])
    && (forall i, j :: 0 <= i < j < |path| ==> path[i] != path[j])
  }

  lemma TrailGoesOn(g: Graph, path: seq<string>, id: string, next: string)
    requires AllKnown(g) && Trail(g, path, id) && id !in path && next in g[id]
    ensures Trail(g, path + [id], next)
  {
    var longer := path + [id];
    forall i | 0 <= i < |longer| ensures longer[i] in g && After(longer, next, i) in g[longer[i]] {
      if i < |path| {
        assert longer[i] == path[i] && After(longer, next, i) == After(path, id, i);
      }
    }
  }

  lemma TrailCloses(g: Graph, path: seq<string>, id: string)
    requires Trail(g, path, id) && id in path
    ensures DependsOn(g, id, id)
  {
    var k :| 0 <= k < |path| && path[k] == id;
    var p := path[k..] + [id];
    forall i | 0 <= i < |p| - 1 ensures p[i] in g && p[i + 1] in g[p[i]] {
      assert p[i] == path[k + i] && p[i + 1] == After(path, id, k + i);
    }
    assert IsPath(g, p);
  }

  ghost predicate Extends(before: map<string, set<string>>, after: map<string, set<string>>) {
    forall k :: k in before ==> k in after && after[k] == before[k]
  }

  ghost predicate NoneIn(path: seq<string>, closures: map<string, set<string>>) {
    forall i :: 0 <= i < |path| ==> path[i] !in closures
  }

  ghost predicate AllVisited(deps: seq<string>, closures: map<string, set<string>>) {
    forall d :: d in deps ==> d in closures
  }

  /** The dependencies and everything below them. */
  ghost function Gathered(deps: seq<string>, closures: map<string, set<string>>): set<string>
    requires AllVisited(deps, closures)
  {
    if deps == [] then {}
    else Gathered(deps[..|deps| - 1], closures) + {deps[|deps| - 1]} + closures[deps[|deps| - 1]]
  }

  lemma {:induction false} GatheredStable(deps: seq<string>, before: map<string, set<string>>, after: map<string, set<string>>)
    requires AllVisited(deps, before) && Extends(before, after)
    ensures AllVisited(deps, after) && Gathered(deps, after) == Gathered(deps, before)
  {
    if deps != [] { GatheredStable(deps[..|deps| - 1], before, after); }
  }

  lemma GatheredStep(deps: seq<string>, n: nat, before: map<string, set<string>>, after: map<string, set<string>>)
    requires n < |deps| && AllVisited(deps[..n], before) && Extends(before, after) && deps[n] in after
    ensures AllVisited(deps[..n + 1], after)
    ensures Gathered(deps[..n + 1], after) == Gathered(deps[..n], before) + {deps[n]} + after[deps[n]]
  {
    GatheredStable(deps[..n], before, after);
    assert deps[..n + 1] == deps[..n] + [deps[n]];
    assert deps[..n + 1][..n] == deps[..n];
  }

  lemma {:induction false} GatheredMember(deps: seq<string>, closures: map<string, set<string>>, b: string)
    requires AllVisited(deps, closures)
    ensures b in Gathered(deps, closures) <==> exists d :: d in deps && (b == d || b in closures[d])
  {
    if deps != [] {
      var n := |deps| - 1;
      GatheredMember(deps[..n], closures, b);
      assert deps == deps[..n] + [deps[n]];
      assert deps[n] in deps;
    }
  }

  /** What a node gathers from its visited dependencies is its closure. */
  lemma GatheredIsClosure(g: Graph, closures: map<string, set<string>>, id: string)
    requires id in g && AllVisited(g[id], closures)
    requires forall d :: d in g[id] ==> IsClosure(g, d, closures[d])
    ensures IsClosure(g, id, Gathered(g[id], closures))
  {
    var deps := g[id];
    forall b ensures b in Gathered(deps, closures) <==> DependsOn(g, id, b) {
      GatheredMember(deps, closures, b);
      if b in Gathered(deps, closures) {
        var d :| d in deps && (b == d || b in closures[d]);
        DirectDependency(g, id, d);
        if b != d { DependsTransitive(g, id, d, b); }
      }
      if DependsOn(g, id, b) {
        FirstStep(g, id, b);
      }
    }
  }

  /** Memoised closures: exact, closed under themselves, and acyclic. */
  ghost predicate Memo(g: Graph, closures: map<string, set<string>>) {
    && closures.Keys <= g.Keys
    && forall id :: id in closures ==>
         IsClosure(g, id, closures[id]) && closures[id] <= closures.Keys && id !in closures[id]
  }

  lemma MemoGrows(g: Graph, closures: map<string, set<string>>, id: string)
    requires Memo(g, closures) && id in g && id !in closures && AllVisited(g[id], closures)
    ensures Memo(g, closures[id := Gathered(g[id], closures)])
    ensures Extends(closures, closures[id := Gathered(g[id], closures)])
  {
    var reached := Gathered(g[id], closures);
    GatheredIsClosure(g, closures, id);
    forall b | b in reached ensures b in closures {
      GatheredMember(g[id], closures, b);
      var d :| d in g[id] && (b == d || b in closures[d]);
      assert closures[d] <= closures.Keys;
    }
  }

  // ---- The memoised visit ------------------------------------------------------------------

  class Ancestry {
    const direct: Graph
    var closures: map<string, set<string>>

    ghost predicate Valid()
      reads this
    {
      AllKnown(direct) && Memo(direct, closures)
    }

    constructor (direct: Graph)
      requires AllKnown(direct)
      ensures Valid() && this.direct == direct && closures == map[]
    {
      this.direct := direct;
      closures := map[];
    }

    /** The transitive dependencies of `id`, or failure on a cycle; the ids of `path` are
        being visited. */
    method Visit(id: string, path: seq<string>) returns (ok: bool)
      requires Valid() && Trail(direct, path, id) && NoneIn(path, closures)
      modifies `closures
      ensures Valid() && NoneIn(path, closures) && Extends(old(closures), closures)
      ensures ok ==> id in closures
      ensures !ok ==> Cyclic(direct)
      decreases |direct.Keys| - |path|, 2
    {
      if id in closures {
        return true;
      }
      if id in path {
        TrailCloses(direct, path, id);
        return false;
      }
      ok := VisitAll(id, path);
    }

    /** The dependencies of a layer met for the first time. */
    method VisitAll(id: string, path: seq<string>) returns (ok: bool)
      requires Valid() && Trail(direct, path, id) && id !in path && id !in closures && NoneIn(path, closures)
      modifies `closures
      ensures Valid() && NoneIn(path, closures) && Extends(old(closures), closures)
      ensures ok ==> id in closures
      ensures !ok ==> Cyclic(direct)
      decreases |direct.Keys| - |path|, 1
    {
      var reached: set<string> := {};
      var deps := direct[id];
      for n := 0 to |deps|
        invariant Valid() && id !in closures && NoneIn(path, closures) && Extends(old(closures), closures)
        invariant AllVisited(deps[..n], closures) && reached == Gathered(deps[..n], closures)
      {
        ghost var before := closures;
        ok := VisitOne(id, path, deps[n]);
        if !ok { return; }
        GatheredStep(deps, n, before, closures);
        reached := reached + {deps[n]} + closures[deps[n]];
      }
      assert deps[..|deps|] == deps;
      MemoGrows(direct, closures, id);
      closures := closures[id := reached];
      ok := true;
    }

    method VisitOne(id: string, path: seq<string>, dependency: string) returns (ok: bool)
      requires Valid() && Trail(direct, path, id) && id !in path && id !in closures && NoneIn(path, closures)
      requires dependency in direct[id]
      modifies `closures
      ensures Valid() && id !in closures && NoneIn(path, closures) && Extends(old(closures), closures)
      ensures ok ==> dependency in closures
      ensures !ok ==> Cyclic(direct)
      decreases |direct.Keys| - |path|, 0
    {
      DistinctFits(path + [id], direct.Keys);
      TrailGoesOn(direct, path, id, dependency);
      ok := Visit(dependency, path + [id]);
      assert (path + [id])[|path|] == id;
      assert forall i :: 0 <= i < |path| ==> (path + [id])[i] == path[i];
    }
  }

  datatype Ancestors = Unknown | Cycle | Composed(closures: map<string, set<string>>)

  /** Succeeds with exactly the transitive dependencies, and fails exactly on an undeclared
      dependency or a cycle. */
  method LayerAncestry(direct: Graph) returns (r: Ancestors)
    ensures r.Unknown? <==> !AllKnown(direct)
    ensures r.Cycle? <==> AllKnown(direct) && Cyclic(direct)
    ensures r.Composed? ==> r.closures.Keys == direct.Keys
    ensures r.Composed? ==> forall id :: id in direct ==> IsClosure(direct, id, r.closures[id])
  {
    if !AllKnown(direct) {
      return Unknown;
    }
    var ancestry := new Ancestry(direct);
    var left := direct.Keys;
    while left != {}
      invariant ancestry.Valid() && ancestry.direct == direct && left <= direct.Keys
      invariant forall id :: id in direct && id !in left ==> id in ancestry.closures
      decreases left
    {
      var id :| id in left;
      var ok := ancestry.Visit(id, []);
      if !ok {
        return Cycle;
      }
      left := left - {id};
    }
    r := Composed(ancestry.closures);
  }

  // ---- Which setting stands -----------------------------------------------------------------

  /** Composed ancestors: transitive, and no layer depends on itself. */
  ghost predicate Layered(ancestors: map<string, set<string>>) {
    && (forall a, b :: a in ancestors && b in ancestors[a] ==> b in ancestors && ancestors[b] <= ancestors[a])
    && (forall a :: a in ancestors ==> a !in ancestors[a])
  }

  lemma AncestryIsLayered(direct: Graph, ancestors: map<string, set<string>>)
    requires AllKnown(direct) && !Cyclic(direct) && ancestors.Keys == direct.Keys
    requires forall id :: id in direct ==> IsClosure(direct, id, ancestors[id])
    ensures Layered(ancestors)
  {
    forall a, b | a in ancestors && b in ancestors[a] ensures b in ancestors && ancestors[b] <= ancestors[a] {
      DependencyIsKnown(direct, a, b);
      forall c | c in ancestors[b] ensures c in ancestors[a] {
        DependsTransitive(direct, a, b, c);
      }
    }
  }

  lemma DependencyIsKnown(g: Graph, a: string, b: string)
    requires AllKnown(g) && DependsOn(g, a, b)
    ensures b in g
  {
    var p :| IsPath(g, p) && p[0] == a && p[|p| - 1] == b;
    assert p[|p| - 2] in g && p[|p| - 1] in g[p[|p| - 2]];
  }

  datatype Setting<V> = Setting(layer: string, value: V)

  datatype Slot<V> = Unset | Held(setting: Setting<V>)

  datatype Decision = Overrides | Leaves | Clashes

  predicate Above(ancestors: map<string, set<string>>, layer: string, other: string) {
    layer in ancestors && other in ancestors[layer]
  }

  function OverridesField(ancestors: map<string, set<string>>, previous: string, layer: string): Decision {
    if previous == layer || Above(ancestors, layer, previous) then Overrides
    else if Above(ancestors, previous, layer) then Leaves
    else Clashes
  }

  datatype Outcome<V> = Refused | Settled(slot: Slot<V>)

  function SetField<V>(ancestors: map<string, set<string>>, slot: Slot<V>, s: Setting<V>): Outcome<V> {
    match slot
    case Unset => Settled(Held(s))
    case Held(last) =>
      (match OverridesField(ancestors, last.layer, s.layer)
       case Overrides => Settled(Held(s))
       case Leaves => Settled(slot)
       case Clashes => Refused)
  }

  function SetAll<V>(ancestors: map<string, set<string>>, settings: seq<Setting<V>>): Outcome<V> {
    if settings == [] then Settled(Unset)
    else match SetAll(ancestors, settings[..|settings| - 1])
      case Refused => Refused
      case Settled(slot) => SetField(ancestors, slot, settings[|settings| - 1])
  }

  // ---- When a series of settings succeeds -------------------------------------------------------

  /** The ancestors are the dependencies of an acyclic graph. */
  ghost predicate ComposedFrom(g: Graph, ancestors: map<string, set<string>>) {
    && AllKnown(g) && !Cyclic(g) && ancestors.Keys == g.Keys
    && forall id :: id in g ==> IsClosure(g, id, ancestors[id])
  }

  lemma AboveIsDependsOn(g: Graph, ancestors: map<string, set<string>>, layer: string, other: string)
    requires ComposedFrom(g, ancestors)
    ensures Above(ancestors, layer, other) <==> DependsOn(g, layer, other)
  {
    if DependsOn(g, layer, other) { FirstStep(g, layer, other); }
  }

  lemma NotBothWays(g: Graph, a: string, b: string)
    requires !Cyclic(g) && DependsOn(g, a, b)
    ensures a != b && !DependsOn(g, b, a)
  {
    FirstStep(g, a, b);
    if DependsOn(g, b, a) { DependsTransitive(g, a, b, a); }
  }

  /** The first setting gives way to the second: the same layer set it later, or a layer that
      depends on the first one did, before or after. */
  ghost predicate GivesWay<V>(g: Graph, settings: seq<Setting<V>>, j: nat, i: nat)
    requires j < |settings| && i < |settings|
  {
    (settings[j].layer == settings[i].layer && j <= i) || DependsOn(g, settings[i].layer, settings[j].layer)
  }

  /** Every setting gives way to the `i`-th. */
  ghost predicate Tops<V>(g: Graph, settings: seq<Setting<V>>, i: nat) {
    i < |settings| && forall j {:trigger GivesWay(g, settings, j, i)} :: 0 <= j < |settings| ==> GivesWay(g, settings, j, i)
  }

  /** Same layer, or one depends on the other. */
  ghost predicate Related(g: Graph, a: string, b: string) {
    a == b || DependsOn(g, a, b) || DependsOn(g, b, a)
  }

  lemma NextTops<V>(g: Graph, settings: seq<Setting<V>>, i: nat)
    requires settings != [] && !Cyclic(g)
    requires Tops(g, settings[..|settings| - 1], i)
    ensures var n := |settings| - 1;
            var same := settings[n].layer == settings[i].layer;
            && (same || DependsOn(g, settings[n].layer, settings[i].layer) ==> Tops(g, settings, n))
            && (DependsOn(g, settings[i].layer, settings[n].layer) ==> Tops(g, settings, i))
            && (!Related(g, settings[n].layer, settings[i].layer) ==> forall t :: !Tops(g, settings, t))
  {
    var n := |settings| - 1;
    var before := settings[..n];
    if settings[n].layer == settings[i].layer || DependsOn(g, settings[n].layer, settings[i].layer) {
      forall j | 0 <= j < |settings| ensures GivesWay(g, settings, j, n) {
        if j < n { PassesOn(g, settings, j, i, n); }
      }
    }
    if DependsOn(g, settings[i].layer, settings[n].layer) {
      forall j | 0 <= j < |settings| ensures GivesWay(g, settings, j, i) {
        if j < n { assert GivesWay(g, before, j, i); }
      }
    }
    if !Related(g, settings[n].layer, settings[i].layer) {
      forall t | Tops(g, settings, t) ensures false { OneTop(g, settings, i, t); }
    }
  }

  lemma PassesOn<V>(g: Graph, settings: seq<Setting<V>>, j: nat, i: nat, n: nat)
    requires n == |settings| - 1 && j < n && i < n && GivesWay(g, settings[..n], j, i)
    requires settings[n].layer == settings[i].layer || DependsOn(g, settings[n].layer, settings[i].layer)
    ensures GivesWay(g, settings, j, n)
  {
    if DependsOn(g, settings[n].layer, settings[i].layer) && DependsOn(g, settings[i].layer, settings[j].layer) {
      DependsTransitive(g, settings[n].layer, settings[i].layer, settings[j].layer);
    }
  }

  /** Above everything together with a new setting stands only what relates that setting to what
      was above everything before. */
  lemma OneTop<V>(g: Graph, settings: seq<Setting<V>>, i: nat, t: nat)
    requires settings != [] && !Cyclic(g) && Tops(g, settings[..|settings| - 1], i) && Tops(g, settings, t)
    ensures Related(g, settings[|settings| - 1].layer, settings[i].layer)
  {
    var n := |settings| - 1;
    assert GivesWay(g, settings, i, t) && GivesWay(g, settings, n, t);
    if t < n {
      assert GivesWay(g, settings[..n], t, i);
      if DependsOn(g, settings[t].layer, settings[i].layer) { NotBothWays(g, settings[t].layer, settings[i].layer); }
    }
  }

  lemma TopsAreOne<V>(g: Graph, settings: seq<Setting<V>>, i: nat, t: nat)
    requires !Cyclic(g) && Tops(g, settings, i) && Tops(g, settings, t)
    ensures i == t
  {
    assert GivesWay(g, settings, i, t) && GivesWay(g, settings, t, i);
    if DependsOn(g, settings[t].layer, settings[i].layer) { NotBothWays(g, settings[t].layer, settings[i].layer); }
  }

  /** In each prefix of the series one setting is such that every other gives way to it. */
  ghost predicate AlwaysTopped<V>(g: Graph, settings: seq<Setting<V>>) {
    settings == [] || (AlwaysTopped(g, settings[..|settings| - 1]) && exists i :: Tops(g, settings, i))
  }

  /** A series of settings succeeds exactly when in each of its prefixes one setting is such that
      every other gives way to it; and then it ends with that setting. */
  lemma {:induction false} SucceedsExactlyWhen<V>(g: Graph, ancestors: map<string, set<string>>, settings: seq<Setting<V>>)
    requires ComposedFrom(g, ancestors)
    ensures SetAll(ancestors, settings).Settled? <==> AlwaysTopped(g, settings)
    ensures forall i: nat :: Tops(g, settings, i) && AlwaysTopped(g, settings) ==>
              SetAll(ancestors, settings) == Settled(Held(settings[i]))
  {
    if settings != [] {
      var n := |settings| - 1;
      var before := settings[..n];
      SucceedsExactlyWhen(g, ancestors, before);
      if n == 0 {
        assert GivesWay(g, settings, 0, 0);
        assert Tops(g, settings, 0);
      } else if AlwaysTopped(g, before) {
        var i: nat :| Tops(g, before, i);
        NextTops(g, settings, i);
        TopIsHeld(g, ancestors, settings, i);
      }
    }
  }

  /** What stands after one more setting. */
  lemma TopIsHeld<V>(g: Graph, ancestors: map<string, set<string>>, settings: seq<Setting<V>>, i: nat)
    requires ComposedFrom(g, ancestors) && |settings| > 1 && Tops(g, settings[..|settings| - 1], i)
    requires SetAll(ancestors, settings[..|settings| - 1]) == Settled(Held(settings[i]))
    ensures SetAll(ancestors, settings).Settled? <==> Related(g, settings[|settings| - 1].layer, settings[i].layer)
    ensures forall t: nat :: Tops(g, settings, t) ==> SetAll(ancestors, settings) == Settled(Held(settings[t]))
  {
    var n := |settings| - 1;
    var last := settings[n];
    NextTops(g, settings, i);
    SetAlike(g, ancestors, settings[i], last);
    if Related(g, last.layer, settings[i].layer) {
      var top := if DependsOn(g, settings[i].layer, last.layer) then i else n;
      forall t: nat | Tops(g, settings, t) ensures t == top { TopsAreOne(g, settings, t, top); }
    }
  }

  lemma SetAlike<V>(g: Graph, ancestors: map<string, set<string>>, held: Setting<V>, s: Setting<V>)
    requires ComposedFrom(g, ancestors)
    ensures SetField(ancestors, Held(held), s) ==
            if s.layer == held.layer || DependsOn(g, s.layer, held.layer) then Settled(Held(s))
            else if DependsOn(g, held.layer, s.layer) then Settled(Held(held))
            else Refused
    ensures DependsOn(g, held.layer, s.layer) ==> s.layer != held.layer && !DependsOn(g, s.layer, held.layer)
  {
    AboveIsDependsOn(g, ancestors, s.layer, held.layer);
    AboveIsDependsOn(g, ancestors, held.layer, s.layer);
    if DependsOn(g, held.layer, s.layer) { NotBothWays(g, held.layer, s.layer); }
  }

  /** One more setting succeeds exactly when its layer is related to that of the setting that stood. */
  lemma NextSucceedsExactlyWhen<V>(g: Graph, ancestors: map<string, set<string>>, settings: seq<Setting<V>>, i: nat)
    requires ComposedFrom(g, ancestors) && |settings| > 1
    requires SetAll(ancestors, settings[..|settings| - 1]).Settled? && Tops(g, settings[..|settings| - 1], i)
    ensures SetAll(ancestors, settings).Settled? <==> Related(g, settings[|settings| - 1].layer, settings[i].layer)
  {
    SucceedsExactlyWhen(g, ancestors, settings[..|settings| - 1]);
    TopIsHeld(g, ancestors, settings, i);
  }

  /** Settings in dependency order, each by the layer of the one before or by one that depends on
      it, succeed and end with the last. */
  lemma {:induction false} DependencyOrderSucceeds<V>(g: Graph, ancestors: map<string, set<string>>, settings: seq<Setting<V>>)
    requires ComposedFrom(g, ancestors) && settings != []
    requires forall k :: 0 < k < |settings| ==>
               settings[k].layer == settings[k - 1].layer || DependsOn(g, settings[k].layer, settings[k - 1].layer)
    ensures SetAll(ancestors, settings) == Settled(Held(settings[|settings| - 1]))
  {
    var n := |settings| - 1;
    if n > 0 {
      DependencyOrderSucceeds(g, ancestors, settings[..n]);
      AboveIsDependsOn(g, ancestors, settings[n].layer, settings[n - 1].layer);
    } else {
      assert settings[..0] == [];
    }
  }

  /** Two settings alone are refused exactly when neither layer depends on the other. */
  lemma UnrelatedAreRefused<V>(g: Graph, ancestors: map<string, set<string>>, a: Setting<V>, b: Setting<V>)
    requires ComposedFrom(g, ancestors)
    ensures SetAll(ancestors, [a, b]).Refused? <==> !Related(g, a.layer, b.layer)
  {
    assert [a, b][..1] == [a] && [a][..0] == [];
    assert SetAll(ancestors, [a]) == Settled(Held(a));
    AboveIsDependsOn(g, ancestors, a.layer, b.layer);
    AboveIsDependsOn(g, ancestors, b.layer, a.layer);
  }

  /** Success depends on the order: two unrelated settings pass once a layer above both has set. */
  lemma OrderMattersForSuccess<V>(g: Graph, ancestors: map<string, set<string>>, a: Setting<V>, b: Setting<V>, top: Setting<V>)
    requires ComposedFrom(g, ancestors) && !Related(g, a.layer, b.layer)
    requires DependsOn(g, top.layer, a.layer) && DependsOn(g, top.layer, b.layer)
    ensures SetAll(ancestors, [a, b, top]).Refused? && SetAll(ancestors, [a, top, b]) == Settled(Held(top))
  {
    UnrelatedAreRefused(g, ancestors, a, b);
    assert [a, b, top][..2] == [a, b];
    assert [a, top, b][..2] == [a, top] && [a, top][..1] == [a] && [a][..0] == [];
    assert SetAll(ancestors, [a]) == Settled(Held(a));
    AboveIsDependsOn(g, ancestors, top.layer, a.layer);
    AboveIsDependsOn(g, ancestors, top.layer, b.layer);
    AboveIsDependsOn(g, ancestors, b.layer, top.layer);
    NotBothWays(g, top.layer, b.layer);
    assert SetAll(ancestors, [a, top]) == Settled(Held(top));
  }

  /** Whenever a series of settings succeeds, its final setter equals or depends on every setter. */
  lemma {:induction false} FinalSetterDependsOnAll<V>(ancestors: map<string, set<string>>, settings: seq<Setting<V>>)
    requires Layered(ancestors) && settings != [] && SetAll(ancestors, settings).Settled?
    ensures var slot := SetAll(ancestors, settings).slot;
            && slot.Held? && slot.setting in settings
            && forall s :: s in settings ==> s.layer == slot.setting.layer || Above(ancestors, slot.setting.layer, s.layer)
  {
    var n := |settings| - 1;
    assert settings == settings[..n] + [settings[n]];
    if n > 0 {
      FinalSetterDependsOnAll(ancestors, settings[..n]);
    }
  }

  /** Two successful orders of the same settings, one per layer, end with the same value. */
  lemma OrderDoesNotMatter<V>(ancestors: map<string, set<string>>, first: seq<Setting<V>>, second: seq<Setting<V>>)
    requires Layered(ancestors) && multiset(first) == multiset(second)
    requires forall i, j :: 0 <= i < j < |first| ==> first[i].layer != first[j].layer
    requires SetAll(ancestors, first).Settled? && SetAll(ancestors, second).Settled?
    ensures SetAll(ancestors, first) == SetAll(ancestors, second)
  {
    assert |first| == |multiset(first)| == |multiset(second)| == |second|;
    if first != [] {
      FinalSetterDependsOnAll(ancestors, first);
      FinalSetterDependsOnAll(ancestors, second);
      var a, b := SetAll(ancestors, first).slot.setting, SetAll(ancestors, second).slot.setting;
      assert b in multiset(second) && b in first;
      assert a in multiset(first) && a in second;
      var i :| 0 <= i < |first| && first[i] == a;
      var j :| 0 <= j < |first| && first[j] == b;
      assert a.layer == b.layer;
    }
  }
}
