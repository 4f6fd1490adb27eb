/** Menu resolution: parent cycles, structural removal, the logical tree and the navigation
    tree with flattened apps lifted into their aggregators. */
module Menus {
  import opened Common

  datatype Node = Node(parent: Option<string>, flatten: bool, remove: bool)

  type Nodes = map<string, Node>

  predicate ParentsKnown(nodes: Nodes) {
    forall id {:trigger nodes[id].parent} :: id in nodes && nodes[id].parent.Some? ==> nodes[id].parent.value in nodes
  }

  // ---- The cycle check --------------------------------------------------------------------

  /** The ancestor `k` levels up, if there is one. */
  function Walk(nodes: Nodes, id: string, k: nat): (r: Option<string>)
    requires ParentsKnown(nodes) && id in nodes
    ensures r.Some? ==> r.value in nodes
  {
    if k == 0 then Some(id)
    else match Walk(nodes, id, k - 1)
      case None => None
      case Some(x) => nodes[x].parent
  }

  ghost predicate HasCycle(nodes: Nodes)
    requires ParentsKnown(nodes)
  {
    exists id, k :: id in nodes && k > 0 && Walk(nodes, id, k) == Some(id)
  }

  lemma {:induction false} WalkFrom(nodes: Nodes, id: string, j: nat, k: nat)
    requires ParentsKnown(nodes) && id in nodes && j <= k && Walk(nodes, id, j).Some?
    ensures Walk(nodes, id, k) == Walk(nodes, Walk(nodes, id, j).value, k - j)
    decreases k
  {
    if j < k { WalkFrom(nodes, id, j, k - 1); }
  }

  lemma WalkRepeats(nodes: Nodes, id: string, j: nat, k: nat)
    requires ParentsKnown(nodes) && id in nodes && j < k
    requires Walk(nodes, id, j).Some? && Walk(nodes, id, k) == Walk(nodes, id, j)
    ensures HasCycle(nodes)
  {
    var x := Walk(nodes, id, j).value;
    WalkFrom(nodes, id, j, k);
    assert Walk(nodes, x, k - j) == Some(x);
  }

  /** The number of ancestors of every node whose ancestors end at a root: a root has none, a child
      one more than its parent. */
  ghost predicate Ranked(nodes: Nodes, depth: map<string, nat>) {
    && ParentsKnown(nodes) && depth.Keys <= nodes.Keys
    && forall id {:trigger nodes[id].parent} :: id in nodes ==>
         && (id in depth <==> nodes[id].parent.None? || nodes[id].parent.value in depth)
         && (id in depth ==> depth[id] == (if nodes[id].parent.Some? then depth[nodes[id].parent.value] + 1 else 0))
  }

  lemma {:induction false} RankedWalk(nodes: Nodes, depth: map<string, nat>, id: string, k: nat)
    requires Ranked(nodes, depth) && id in depth && Walk(nodes, id, k).Some?
    ensures Walk(nodes, id, k).value in depth && depth[Walk(nodes, id, k).value] == depth[id] - k
  {
    if k > 0 { RankedWalk(nodes, depth, id, k - 1); }
  }

  lemma RankedHasNoCycle(nodes: Nodes, depth: map<string, nat>)
    requires Ranked(nodes, depth) && depth.Keys == nodes.Keys
    ensures !HasCycle(nodes)
  {
    forall id, k | id in nodes && k > 0 ensures Walk(nodes, id, k) != Some(id) {
      if Walk(nodes, id, k).Some? { RankedWalk(nodes, depth, id, k); }
    }
  }

  /** Walking up from a node either ends at its depth or comes back to a node seen before. */
  lemma DepthOrCycle(nodes: Nodes, id: string) returns (depth: nat)
    requires ParentsKnown(nodes) && id in nodes
    ensures HasDepth(nodes, id, depth) || HasCycle(nodes)
  {
    var seen: seq<string> := [];
    depth := 0;
    while Walk(nodes, id, |seen|).Some?
      invariant Trodden(nodes, id, seen)
      decreases |nodes.Keys| - |seen|
    {
      var current := Walk(nodes, id, |seen|).value;
      if current in seen {
        var j :| 0 <= j < |seen| && seen[j] == current;
        TroddenAt(nodes, id, seen, j);
        WalkRepeats(nodes, id, j, |seen|);
        return;
      }
      TroddenGrows(nodes, id, seen);
      seen := seen + [current];
    }
    assert Walk(nodes, id, 0) == Some(id);
    depth := |seen| - 1;
  }

  /** The nodes as the cycle check sees them: its loop runs while the id is truthy, so the
      node whose id is the empty string ends every walk. */
  function Seen(nodes: Nodes): (r: Nodes)
    ensures r.Keys == nodes.Keys
    ensures forall x :: x in nodes && x != "" ==> r[x] == nodes[x]
    ensures "" in nodes ==> r[""].parent == None
    ensures ParentsKnown(nodes) ==> ParentsKnown(r)
  {
    if "" in nodes then nodes["" := nodes[""].(parent := None)] else nodes
  }

  /** The walk from one node stops at a root, at the empty id, or at a node it has seen. */
  method WalkUp(nodes: Nodes, id: string) returns (ok: bool, ghost depth: nat)
    requires ParentsKnown(nodes) && id in nodes
    ensures ok ==> HasDepth(Seen(nodes), id, depth)
    ensures !ok ==> HasCycle(Seen(nodes))
  {
    ghost var shown := Seen(nodes);
    var seen: seq<string> := [];
    var current := Some(id);
    while current.Some? && current.value != ""
      invariant current == Walk(shown, id, |seen|) && Trodden(shown, id, seen)
      decreases |nodes.Keys| - |seen|
    {
      if current.value in seen {
        ghost var j :| 0 <= j < |seen| && seen[j] == current.value;
        TroddenAt(shown, id, seen, j);
        WalkRepeats(shown, id, j, |seen|);
        return false, 0;
      }
      TroddenGrows(shown, id, seen);
      seen := seen + [current.value];
      current := nodes[current.value].parent;
    }
    ok := true;
    if current.Some? {
      depth := |seen|;
    } else {
      depth := |seen| - 1;
    }
  }

  /** The nodes walked so far, all different. */
  ghost predicate Trodden(nodes: Nodes, id: string, seen: seq<string>)
    requires ParentsKnown(nodes) && id in nodes
    decreases |seen|
  {
    seen == [] || (
      var n := |seen| - 1;
      Trodden(nodes, id, seen[..n]) && Walk(nodes, id, n) == Some(seen[n]) && seen[n] !in seen[..n])
  }

  lemma {:induction false} TroddenAt(nodes: Nodes, id: string, seen: seq<string>, j: nat)
    requires ParentsKnown(nodes) && id in nodes && Trodden(nodes, id, seen) && j < |seen|
    ensures Walk(nodes, id, j) == Some(seen[j])
    decreases |seen|
  {
    if j < |seen| - 1 { TroddenAt(nodes, id, seen[..|seen| - 1], j); }
  }

  lemma {:induction false} TroddenApart(nodes: Nodes, id: string, seen: seq<string>, i: nat, j: nat)
    requires ParentsKnown(nodes) && id in nodes && Trodden(nodes, id, seen) && i < j < |seen|
    ensures seen[i] != seen[j]
    decreases |seen|
  {
    var n := |seen| - 1;
    if j < n { TroddenApart(nodes, id, seen[..n], i, j); } else { assert seen[i] in seen[..n]; }
  }

  /** One more step, if it meets no node again, is one of finitely many. */
  lemma TroddenGrows(nodes: Nodes, id: string, seen: seq<string>)
    requires ParentsKnown(nodes) && id in nodes && Trodden(nodes, id, seen)
    requires Walk(nodes, id, |seen|).Some? && Walk(nodes, id, |seen|).value !in seen
    ensures Trodden(nodes, id, seen + [Walk(nodes, id, |seen|).value]) && |seen| < |nodes.Keys|
  {
    var more := seen + [Walk(nodes, id, |seen|).value];
    assert more[..|seen|] == seen;
    forall i | 0 <= i < |more| ensures more[i] in nodes.Keys { TroddenAt(nodes, id, more, i); }
    forall i, j | 0 <= i < j < |more| ensures more[i] != more[j] { TroddenApart(nodes, id, more, i, j); }
    DistinctFits(more, nodes.Keys);
  }

  /** `d` is the number of ancestors of `id`. */
  ghost predicate HasDepth(nodes: Nodes, id: string, d: nat)
    requires ParentsKnown(nodes) && id in nodes
  {
    Walk(nodes, id, d).Some? && Walk(nodes, id, d + 1).None?
  }

  lemma RootDepth(nodes: Nodes, id: string, d: nat)
    requires ParentsKnown(nodes) && id in nodes && nodes[id].parent.None? && HasDepth(nodes, id, d)
    ensures d == 0
  {
    assert Walk(nodes, id, 0) == Some(id);
    WalkEnds(nodes, id, 1, d);
  }

  lemma ChildDepth(nodes: Nodes, id: string, p: string, d: nat, e: nat)
    requires ParentsKnown(nodes) && id in nodes && nodes[id].parent == Some(p)
    requires HasDepth(nodes, id, d) && HasDepth(nodes, p, e)
    ensures d == e + 1
  {
    assert Walk(nodes, id, 0) == Some(id);
    assert Walk(nodes, id, 1) == Some(p);
    WalkFrom(nodes, id, 1, e + 1);
    WalkFrom(nodes, id, 1, e + 2);
    WalkEnds(nodes, id, e + 2, d);
    WalkEnds(nodes, id, d + 1, e + 1);
  }

  /** The walk up from a node ends. */
  ghost predicate Rooted(nodes: Nodes, id: string)
    requires ParentsKnown(nodes)
  {
    id in nodes && exists d :: HasDepth(nodes, id, d)
  }

  lemma {:induction false} WalkOn(nodes: Nodes, id: string, k: nat)
    requires ParentsKnown(nodes) && id in nodes && nodes[id].parent.Some?
    ensures Walk(nodes, id, k + 1) == Walk(nodes, nodes[id].parent.value, k)
  {
    assert Walk(nodes, id, 0) == Some(id);
    if k > 0 { WalkOn(nodes, id, k - 1); }
  }

  /** A node's walk ends when its parent's does, or it has none. */
  lemma RootedByParent(nodes: Nodes, id: string)
    requires ParentsKnown(nodes) && id in nodes
    ensures Rooted(nodes, id) <==> nodes[id].parent.None? || Rooted(nodes, nodes[id].parent.value)
  {
    assert Walk(nodes, id, 0) == Some(id);
    if nodes[id].parent.None? {
      assert HasDepth(nodes, id, 0);
    } else {
      var p := nodes[id].parent.value;
      if e: nat :| HasDepth(nodes, p, e) {
        WalkOn(nodes, id, e);
        WalkOn(nodes, id, e + 1);
        assert HasDepth(nodes, id, e + 1);
      }
      if d: nat :| HasDepth(nodes, id, d) {
        assert Walk(nodes, id, 1) == Some(p);
        WalkOn(nodes, id, d - 1);
        WalkOn(nodes, id, d);
        assert HasDepth(nodes, p, d - 1);
      }
    }
  }

  /** The depths of the nodes whose walks end. */
  lemma DepthsRank(nodes: Nodes, depth: map<string, nat>)
    requires ParentsKnown(nodes) && (forall id :: id in depth <==> Rooted(nodes, id))
    requires forall id :: id in nodes && id in depth ==> HasDepth(nodes, id, depth[id])
    ensures Ranked(nodes, depth)
  {
    forall id | id in nodes
      ensures id in depth <==> nodes[id].parent.None? || nodes[id].parent.value in depth
      ensures id in depth ==> depth[id] == (if nodes[id].parent.Some? then depth[nodes[id].parent.value] + 1 else 0)
    {
      RootedByParent(nodes, id);
      if id in depth {
        if nodes[id].parent.None? {
          RootDepth(nodes, id, depth[id]);
        } else {
          ChildDepth(nodes, id, nodes[id].parent.value, depth[id], depth[nodes[id].parent.value]);
        }
      }
    }
  }

  lemma {:induction false} WalkEnds(nodes: Nodes, id: string, j: nat, k: nat)
    requires ParentsKnown(nodes) && id in nodes && Walk(nodes, id, j).None?
    ensures Walk(nodes, id, k).Some? ==> k < j
    decreases k
  {
    if k > j { WalkEnds(nodes, id, j, k - 1); }
  }

  /** Resolution goes on exactly when no walk the check makes comes back to a node it passed. */
  method CheckCycles(nodes: Nodes) returns (ok: bool)
    requires ParentsKnown(nodes)
    ensures ok <==> !HasCycle(Seen(nodes))
  {
    ghost var depth: map<string, nat> := map[];
    var left := nodes.Keys;
    while left != {}
      invariant left <= nodes.Keys && depth.Keys == nodes.Keys - left
      invariant forall id :: id in depth ==> HasDepth(Seen(nodes), id, depth[id])
      decreases left
    {
      var id :| id in left;
      ghost var d;
      ok, d := WalkUp(nodes, id);
      if !ok {
        return;
      }
      depth := depth[id := d];
      left := left - {id};
    }
    forall id ensures id in depth <==> Rooted(Seen(nodes), id) { }
    DepthsRank(Seen(nodes), depth);
    RankedHasNoCycle(Seen(nodes), depth);
    ok := true;
  }

  /** The empty id is its own ancestor. */
  ghost predicate EmptyOnCycle(nodes: Nodes)
    requires ParentsKnown(nodes)
  {
    "" in nodes && exists k :: k > 0 && Walk(nodes, "", k) == Some("")
  }

  lemma {:induction false} SeenWalk(nodes: Nodes, id: string, k: nat)
    requires ParentsKnown(nodes) && id in nodes
    ensures Walk(Seen(nodes), id, k).Some? ==> Walk(nodes, id, k) == Walk(Seen(nodes), id, k)
    ensures (forall j :: 0 <= j < k ==> Walk(nodes, id, j) != Some("")) ==> Walk(nodes, id, k) == Walk(Seen(nodes), id, k)
  {
    if k > 0 { SeenWalk(nodes, id, k - 1); }
  }

  lemma CycleThroughEmpty(nodes: Nodes, id: string, j: nat, k: nat)
    requires ParentsKnown(nodes) && id in nodes && j < k
    requires Walk(nodes, id, k) == Some(id) && Walk(nodes, id, j) == Some("")
    ensures EmptyOnCycle(nodes)
  {
    WalkFrom(nodes, id, j, j + k);
    WalkFrom(nodes, id, k, j + k);
    assert Walk(nodes, "", k) == Some("");
  }

  /** What the check refuses is a cycle, and the only cycles it lets through pass through the
      empty id: an accepted menu is acyclic exactly when the empty id is not on a cycle. */
  lemma CheckedExactlyWhen(nodes: Nodes)
    requires ParentsKnown(nodes)
    ensures HasCycle(nodes) <==> HasCycle(Seen(nodes)) || EmptyOnCycle(nodes)
  {
    if HasCycle(Seen(nodes)) {
      var id, k :| id in nodes && k > 0 && Walk(Seen(nodes), id, k) == Some(id);
      SeenWalk(nodes, id, k);
    }
    if id, k :| id in nodes && k > 0 && Walk(nodes, id, k) == Some(id) {
      if j :| 0 <= j < k && Walk(nodes, id, j) == Some("") {
        CycleThroughEmpty(nodes, id, j, k);
      } else {
        SeenWalk(nodes, id, k);
        assert Walk(Seen(nodes), id, k) == Some(id);
      }
    }
  }

  /** A menu item whose id is the empty string and which is its own parent is accepted. */
  lemma EmptyCycleIsMissed()
    ensures var nodes := map["" := Node(Some(""), false, false)];
            ParentsKnown(nodes) && HasCycle(nodes) && !HasCycle(Seen(nodes))
  {
    var nodes := map["" := Node(Some(""), false, false)];
    assert Walk(nodes, "", 0) == Some("");
    assert Walk(nodes, "", 1) == Some("");
    RankedHasNoCycle(Seen(nodes), map["" := 0]);
  }

  /** The depths of all nodes whose walks end, and a bound on them. */
  lemma RootedAreRanked(nodes: Nodes) returns (depth: map<string, nat>, bound: nat)
    requires ParentsKnown(nodes)
    ensures Ranked(nodes, depth) && forall id :: id in depth <==> Rooted(nodes, id)
    ensures forall id :: id in depth ==> depth[id] <= bound
  {
    depth, bound := map[], 0;
    var left := nodes.Keys;
    while left != {}
      invariant left <= nodes.Keys && depth.Keys <= nodes.Keys - left
      invariant forall id :: id in nodes.Keys - left ==> (id in depth <==> Rooted(nodes, id))
      invariant forall id :: id in depth ==> HasDepth(nodes, id, depth[id]) && depth[id] <= bound
      decreases left
    {
      var id :| id in left;
      if d: nat :| HasDepth(nodes, id, d) {
        depth := depth[id := d];
        bound := if d > bound then d else bound;
      }
      left := left - {id};
    }
    DepthsRank(nodes, depth);
  }

  // ---- Below a cycle that the check lets through ------------------------------------------------

  lemma {:induction false} CycleGoesOn(nodes: Nodes, id: string, k: nat, times: nat)
    requires ParentsKnown(nodes) && id in nodes && Walk(nodes, id, k) == Some(id)
    ensures Walk(nodes, id, times * k) == Some(id)
  {
    if times > 0 {
      CycleGoesOn(nodes, id, k, times - 1);
      WalkFrom(nodes, id, (times - 1) * k, times * k);
    }
  }

  /** The walk of a node on a cycle does not end. */
  lemma CycleIsNotRooted(nodes: Nodes, id: string, k: nat)
    requires ParentsKnown(nodes) && id in nodes && k > 0 && Walk(nodes, id, k) == Some(id)
    ensures !Rooted(nodes, id)
  {
    if d: nat :| HasDepth(nodes, id, d) {
      CycleGoesOn(nodes, id, k, d + 1);
      assert (d + 1) * k >= d + 1;
      WalkEnds(nodes, id, d + 1, (d + 1) * k);
    }
  }

  lemma {:induction false} RootedAlong(nodes: Nodes, id: string, k: nat)
    requires ParentsKnown(nodes) && id in nodes && Walk(nodes, id, k).Some?
    ensures Rooted(nodes, id) <==> Rooted(nodes, Walk(nodes, id, k).value)
  {
    if k > 0 {
      RootedAlong(nodes, id, k - 1);
      RootedByParent(nodes, Walk(nodes, id, k - 1).value);
    }
  }

  /** In an accepted menu a walk either meets the empty id or ends. */
  lemma MeetsEmptyOrEnds(nodes: Nodes, id: string)
    requires ParentsKnown(nodes) && !HasCycle(Seen(nodes)) && id in nodes
    ensures Rooted(nodes, id) || exists k :: Walk(nodes, id, k) == Some("")
  {
    var d := DepthOrCycle(Seen(nodes), id);
    EndsAlike(nodes, id, d);
  }

  lemma EndsAlike(nodes: Nodes, id: string, d: nat)
    requires ParentsKnown(nodes) && id in nodes && HasDepth(Seen(nodes), id, d)
    ensures HasDepth(nodes, id, d) || exists k :: Walk(nodes, id, k) == Some("")
  {
    SeenWalk(nodes, id, d);
    SeenWalk(nodes, id, d + 1);
  }

  /** In an accepted menu the walks that do not end are those that meet the empty id on its cycle. */
  lemma UnrootedExactlyWhen(nodes: Nodes, id: string)
    requires ParentsKnown(nodes) && !HasCycle(Seen(nodes)) && id in nodes
    ensures !Rooted(nodes, id) <==> EmptyOnCycle(nodes) && exists k :: Walk(nodes, id, k) == Some("")
  {
    MeetsEmptyOrEnds(nodes, id);
    if k: nat :| Walk(nodes, id, k) == Some("") {
      RootedAlong(nodes, id, k);
      if EmptyOnCycle(nodes) {
        var n :| n > 0 && Walk(nodes, "", n) == Some("");
        CycleIsNotRooted(nodes, "", n);
      } else if !Rooted(nodes, "") {
        EmptyIsRooted(nodes);
      }
    }
  }

  lemma EmptyIsRooted(nodes: Nodes)
    requires ParentsKnown(nodes) && !HasCycle(Seen(nodes)) && "" in nodes
    ensures Rooted(nodes, "") || EmptyOnCycle(nodes)
  {
    RootedByParent(nodes, "");
    if nodes[""].parent.Some? {
      var p := nodes[""].parent.value;
      MeetsEmptyOrEnds(nodes, p);
      if k: nat :| Walk(nodes, p, k) == Some("") {
        WalkOn(nodes, "", k);
      }
    }
  }

  // ---- Forests ---------------------------------------------------------------------------------

  /** Checked nodes: their ids in declaration order, the depths of those whose walk up ends at a
      root, and a bound on them. */
  datatype Forest = Forest(nodes: Nodes, ids: seq<string>, ghost depth: map<string, nat>, ghost bound: nat)

  ghost predicate Distinct(s: seq<string>) {
    forall i, j :: 0 <= i < j < |s| ==> s[i] != s[j]
  }

  ghost predicate Valid(f: Forest) {
    && Ranked(f.nodes, f.depth)
    && Distinct(f.ids) && (forall id {:trigger id in f.ids} :: id in f.ids <==> id in f.nodes)
    && (forall id :: id in f.depth ==> f.depth[id] <= f.bound)
  }

  /** The ancestor `k` levels above `x`. */
  ghost function Up(f: Forest, x: string, k: nat): (r: string)
    requires Valid(f) && x in f.depth && k <= f.depth[x]
    ensures r in f.depth && f.depth[r] == f.depth[x] - k
    decreases k
  {
    if k == 0 then x else Up(f, f.nodes[x].parent.value, k - 1)
  }

  /** `a` is `x` or an ancestor of `x`. */
  ghost predicate Under(f: Forest, a: string, x: string)
    requires Valid(f)
  {
    a in f.depth && x in f.depth && f.depth[a] <= f.depth[x] && Up(f, x, f.depth[x] - f.depth[a]) == a
  }

  /** What lies above a node is what walking up from it reaches. */
  lemma UnderIsWalked(f: Forest, a: string, x: string) returns (k: nat)
    requires Valid(f) && Under(f, a, x)
    ensures Walk(f.nodes, x, k) == Some(a)
  {
    k := f.depth[x] - f.depth[a];
    UpIsWalk(f, x, k);
  }

  lemma WalkedIsUnder(f: Forest, x: string, k: nat)
    requires Valid(f) && x in f.depth && Walk(f.nodes, x, k).Some?
    ensures Under(f, Walk(f.nodes, x, k).value, x)
  {
    RankedWalk(f.nodes, f.depth, x, k);
    UpIsWalk(f, x, k);
  }

  lemma {:induction false} UpIsWalk(f: Forest, x: string, k: nat)
    requires Valid(f) && x in f.depth && k <= f.depth[x]
    ensures Walk(f.nodes, x, k) == Some(Up(f, x, k))
    decreases k
  {
    if k > 0 {
      var p := f.nodes[x].parent.value;
      UpIsWalk(f, p, k - 1);
      assert Walk(f.nodes, x, 0) == Some(x);
      assert Walk(f.nodes, x, 1) == Some(p);
      WalkFrom(f.nodes, x, 1, k);
    }
  }

  lemma {:induction false} UpUp(f: Forest, x: string, j: nat, k: nat)
    requires Valid(f) && x in f.depth && j + k <= f.depth[x]
    ensures Up(f, Up(f, x, j), k) == Up(f, x, j + k)
    decreases j
  {
    if j > 0 { UpUp(f, f.nodes[x].parent.value, j - 1, k); }
  }

  lemma UnderTransitive(f: Forest, a: string, b: string, c: string)
    requires Valid(f) && Under(f, a, b) && Under(f, b, c)
    ensures Under(f, a, c)
  {
    UpUp(f, c, f.depth[c] - f.depth[b], f.depth[b] - f.depth[a]);
  }

  /** Two ancestors of one node at the same depth are the same. */
  lemma UnderUnique(f: Forest, a: string, b: string, x: string)
    requires Valid(f) && Under(f, a, x) && Under(f, b, x) && f.depth[a] == f.depth[b]
    ensures a == b
  {
  }

  /** Of two ancestors of one node, the shallower is an ancestor of the other. */
  lemma UnderChain(f: Forest, a: string, b: string, x: string)
    requires Valid(f) && Under(f, a, x) && Under(f, b, x) && f.depth[a] <= f.depth[b]
    ensures Under(f, a, b)
  {
    UpUp(f, x, f.depth[x] - f.depth[b], f.depth[b] - f.depth[a]);
  }

  /** The child of `a` on the way down to `x`. */
  lemma Toward(f: Forest, a: string, x: string) returns (c: string)
    requires Valid(f) && Under(f, a, x) && a != x
    ensures Under(f, c, x) && f.nodes[c].parent == Some(a) && f.depth[c] == f.depth[a] + 1
  {
    var k := f.depth[x] - f.depth[a];
    c := Up(f, x, k - 1);
    UpUp(f, x, k - 1, 1);
    assert Up(f, c, 1) == a;
    assert Up(f, c, 1) == Up(f, f.nodes[c].parent.value, 0);
  }

  lemma ParentIsAbove(f: Forest, c: string)
    requires Valid(f) && c in f.depth && f.nodes[c].parent.Some?
    ensures Under(f, f.nodes[c].parent.value, c)
  {
    assert Up(f, c, 1) == Up(f, f.nodes[c].parent.value, 0);
  }

  // ---- Removal ------------------------------------------------------------------------------------

  ghost predicate RemovedAbove(f: Forest, x: string)
    requires Valid(f)
  {
    exists a :: Under(f, a, x) && f.nodes[a].remove
  }

  /** Some node on the way up from `x`, or `x`, is flagged for removal. */
  ghost predicate Flagged(nodes: Nodes, x: string)
    requires ParentsKnown(nodes)
  {
    x in nodes && exists k :: Walk(nodes, x, k).Some? && nodes[Walk(nodes, x, k).value].remove
  }

  function WithParent(nodes: Nodes, ids: seq<string>, parent: Option<string>): (r: seq<string>)
    requires Distinct(ids) && forall id :: id in ids ==> id in nodes
    ensures forall c {:trigger c in r} :: c in r <==> c in ids && nodes[c].parent == parent
    ensures Distinct(r)
  {
    if ids == [] then []
    else
      var n := |ids| - 1;
      var before := WithParent(nodes, ids[..n], parent);
      assert ids == ids[..n] + [ids[n]] && ids[n] !in ids[..n];
      assert ids[n] !in before;
      if nodes[ids[n]].parent == parent then before + [ids[n]] else before
  }

  /** Nodes in declaration order whose parent is `parent`. */
  function ChildrenOf(f: Forest, parent: Option<string>): (r: seq<string>)
    requires Valid(f) && (parent.Some? ==> parent.value in f.depth)
    ensures forall c {:trigger c in r} :: c in r <==> c in f.depth && f.nodes[c].parent == parent
    ensures Distinct(r)
  {
    var r := WithParent(f.nodes, f.ids, parent);
    assert forall c {:trigger c in r} :: c in f.nodes && f.nodes[c].parent == parent ==> c in f.depth;
    r
  }

  /** The node and everything whose walk up meets it. */
  ghost function Subtree(nodes: Nodes, id: string): set<string>
    requires ParentsKnown(nodes)
  {
    set x | x in nodes && exists k :: Walk(nodes, x, k) == Some(id)
  }

  lemma SubtreeStep(nodes: Nodes, id: string, c: string)
    requires ParentsKnown(nodes) && c in nodes && nodes[c].parent == Some(id)
    ensures Subtree(nodes, c) <= Subtree(nodes, id)
  {
    forall x | x in Subtree(nodes, c) ensures x in Subtree(nodes, id) {
      var k: nat :| Walk(nodes, x, k) == Some(c);
      assert Walk(nodes, x, k + 1) == Some(id);
    }
  }

  lemma SubtreeSelf(nodes: Nodes, id: string)
    requires ParentsKnown(nodes) && id in nodes
    ensures id in Subtree(nodes, id)
  {
    assert Walk(nodes, id, 0) == Some(id);
  }

  /** The children of these nodes, except of those in `but`, are there. */
  ghost predicate Closed(nodes: Nodes, s: set<string>, but: set<string>) {
    forall c {:trigger nodes[c].parent} :: c in nodes && nodes[c].parent.Some? && nodes[c].parent.value in s - but ==> c in s
  }

  lemma {:induction false} ClosedHolds(nodes: Nodes, s: set<string>, x: string, k: nat)
    requires ParentsKnown(nodes) && Closed(nodes, s, {}) && x in nodes
    requires Walk(nodes, x, k).Some? && Walk(nodes, x, k).value in s
    ensures x in s
  {
    if k > 0 { ClosedHolds(nodes, s, x, k - 1); }
  }

  /** Collect a node and its subtree, unless it is collected already. */
  method CollectRemoved(nodes: Nodes, ids: seq<string>, id: string, removed: set<string>) returns (r: set<string>)
    requires ParentsKnown(nodes) && Distinct(ids) && (forall x {:trigger x in ids} :: x in ids <==> x in nodes)
    requires id in nodes && removed <= nodes.Keys
    ensures removed + {id} <= r <= removed + Subtree(nodes, id) && Closed(nodes, r, removed)
    ensures Closed(nodes, removed, {}) ==> Closed(nodes, r, {}) && r == removed + Subtree(nodes, id)
    decreases nodes.Keys - removed
  {
    SubtreeSelf(nodes, id);
    if id in removed {
      r := removed;
    } else {
      r := removed + {id};
      var children := WithParent(nodes, ids, Some(id));
      for k := 0 to |children|
        invariant removed + {id} <= r <= removed + Subtree(nodes, id)
        invariant Closed(nodes, r, removed + {id})
        invariant forall i :: 0 <= i < k ==> children[i] in r
      {
        assert children[k] in children;
        SubtreeStep(nodes, id, children[k]);
        ghost var before := r;
        r := CollectRemoved(nodes, ids, children[k], r);
        ClosedOn(nodes, removed + {id}, before, r);
      }
      ClosedAtLast(nodes, removed, id, children, r);
    }
    if Closed(nodes, removed, {}) {
      forall x | x in Subtree(nodes, id) ensures x in r {
        var k: nat :| Walk(nodes, x, k) == Some(id);
        ClosedHolds(nodes, r, x, k);
      }
    }
  }

  lemma ClosedOn(nodes: Nodes, but: set<string>, before: set<string>, after: set<string>)
    requires but <= before <= after && Closed(nodes, before, but) && Closed(nodes, after, before)
    ensures Closed(nodes, after, but)
  {
  }

  lemma ClosedAtLast(nodes: Nodes, removed: set<string>, id: string, children: seq<string>, r: set<string>)
    requires removed + {id} <= r && Closed(nodes, r, removed + {id})
    requires forall c :: c in nodes && nodes[c].parent == Some(id) ==> c in children
    requires forall i :: 0 <= i < |children| ==> children[i] in r
    ensures Closed(nodes, r, removed)
    ensures Closed(nodes, removed, {}) ==> Closed(nodes, r, {})
  {
  }

  /** The removed nodes are exactly those with a remove-flagged ancestor or self. */
  method RemovedNodes(nodes: Nodes, ids: seq<string>) returns (removed: set<string>)
    requires ParentsKnown(nodes) && Distinct(ids) && (forall x {:trigger x in ids} :: x in ids <==> x in nodes)
    ensures forall x :: x in removed <==> Flagged(nodes, x)
  {
    removed := {};
    for k := 0 to |ids|
      invariant removed <= nodes.Keys && Closed(nodes, removed, {}) && OnlyFlagged(nodes, removed)
      invariant FlagsFollowed(nodes, ids[..k], removed)
    {
      assert ids[k] in ids;
      assert ids[..k + 1] == ids[..k] + [ids[k]];
      if nodes[ids[k]].remove {
        ghost var before := removed;
        removed := CollectRemoved(nodes, ids, ids[k], removed);
        FlaggedBelow(nodes, before, ids[k]);
      }
    }
    assert ids[..|ids|] == ids;
    forall x | Flagged(nodes, x) ensures x in removed { FlaggedCollected(nodes, ids, removed, x); }
  }

  ghost predicate FlagsFollowed(nodes: Nodes, ids: seq<string>, removed: set<string>) {
    forall a {:trigger a in ids} :: a in ids && a in nodes && nodes[a].remove ==> a in removed
  }

  ghost predicate OnlyFlagged(nodes: Nodes, removed: set<string>)
    requires ParentsKnown(nodes)
  {
    forall x :: x in removed ==> Flagged(nodes, x)
  }

  lemma FlaggedBelow(nodes: Nodes, removed: set<string>, id: string)
    requires ParentsKnown(nodes) && id in nodes && nodes[id].remove && OnlyFlagged(nodes, removed)
    ensures OnlyFlagged(nodes, removed + Subtree(nodes, id))
  {
    forall x | x in Subtree(nodes, id) ensures Flagged(nodes, x) {
      var k: nat :| Walk(nodes, x, k) == Some(id);
    }
  }

  lemma FlaggedCollected(nodes: Nodes, ids: seq<string>, removed: set<string>, x: string)
    requires ParentsKnown(nodes) && (forall x {:trigger x in ids} :: x in ids <==> x in nodes)
    requires Closed(nodes, removed, {}) && FlagsFollowed(nodes, ids, removed)
    requires Flagged(nodes, x)
    ensures x in removed
  {
    var k: nat :| Walk(nodes, x, k).Some? && nodes[Walk(nodes, x, k).value].remove;
    assert Walk(nodes, x, k).value in ids;
    ClosedHolds(nodes, removed, x, k);
  }

  /** An accepted menu keeps every node that is not removed reachable exactly when the empty id is on
      no cycle or its cycle is removed. */
  lemma AllRootedExactlyWhen(nodes: Nodes)
    requires ParentsKnown(nodes) && !HasCycle(Seen(nodes))
    ensures (forall x :: x in nodes && !Flagged(nodes, x) ==> Rooted(nodes, x)) <==> !EmptyOnCycle(nodes) || Flagged(nodes, "")
  {
    if EmptyOnCycle(nodes) {
      var n :| n > 0 && Walk(nodes, "", n) == Some("");
      CycleIsNotRooted(nodes, "", n);
    }
    if !EmptyOnCycle(nodes) || Flagged(nodes, "") {
      forall x | x in nodes && !Flagged(nodes, x) ensures Rooted(nodes, x) {
        UnrootedExactlyWhen(nodes, x);
        if k: nat :| Walk(nodes, x, k) == Some("") {
          if Flagged(nodes, "") { FlaggedAlong(nodes, x, k); }
        }
      }
    }
  }

  lemma FlaggedAlong(nodes: Nodes, x: string, k: nat)
    requires ParentsKnown(nodes) && x in nodes && Walk(nodes, x, k).Some? && Flagged(nodes, Walk(nodes, x, k).value)
    ensures Flagged(nodes, x)
  {
    var a := Walk(nodes, x, k).value;
    var j: nat :| Walk(nodes, a, j).Some? && nodes[Walk(nodes, a, j).value].remove;
    WalkFrom(nodes, x, k, k + j);
    assert Walk(nodes, x, k + j) == Walk(nodes, a, j);
  }
}
