/** The logical tree keeps every surviving node once; the navigation tree keeps every surviving
    node except flattened apps once, under its nearest unflattened ancestor. */
module MenuTrees {
  import opened Common
  import opened Menus

  datatype Item = Item(id: string, children: seq<Item>)

  function Occurrences(item: Item, x: string): nat
    decreases item
  {
    (if item.id == x then 1 else 0) + OccurrencesAll(item.children, x)
  }

  function OccurrencesAll(items: seq<Item>, x: string): nat
    decreases items
  {
    if items == [] then 0 else Occurrences(items[0], x) + OccurrencesAll(items[1..], x)
  }

  lemma {:induction false} NoneOccurs(items: seq<Item>, x: string)
    requires forall i :: 0 <= i < |items| ==> Occurrences(items[i], x) == 0
    ensures OccurrencesAll(items, x) == 0
  {
    if items != [] { NoneOccurs(items[1..], x); }
  }

  lemma {:induction false} OneOccurs(items: seq<Item>, x: string, k: nat)
    requires k < |items| && Occurrences(items[k], x) == 1
    requires forall i :: 0 <= i < |items| && i != k ==> Occurrences(items[i], x) == 0
    ensures OccurrencesAll(items, x) == 1
  {
    if k == 0 { NoneOccurs(items[1..], x); } else { OneOccurs(items[1..], x, k - 1); }
  }

  // ---- Siblings ---------------------------------------------------------------------------

  /** Positioning siblings is some permutation of them. */
  type Arrange = seq<string> -> seq<string>

  ghost predicate Arranges(arrange: Arrange) {
    forall s {:trigger arrange(s)} :: Distinct(s) ==> Distinct(arrange(s)) && forall x :: x in arrange(s) <==> x in s
  }

  /** The nodes removed are those with a remove-flagged ancestor or self. */
  ghost predicate Exact(f: Forest, removed: set<string>)
    requires Valid(f)
  {
    forall x {:trigger RemovedAbove(f, x)} :: x in f.depth ==> (x in removed <==> RemovedAbove(f, x))
  }

  lemma SurvivorsAbove(f: Forest, removed: set<string>, a: string, x: string)
    requires Valid(f) && Exact(f, removed) && Under(f, a, x) && x !in removed
    ensures a !in removed
  {
    assert !RemovedAbove(f, x);
    if RemovedAbove(f, a) {
      var b :| Under(f, b, a) && f.nodes[b].remove;
      UnderTransitive(f, b, a, x);
    }
  }

  function Surviving(ids: seq<string>, removed: set<string>): (r: seq<string>)
    requires Distinct(ids)
    ensures Distinct(r) && forall x :: x in r <==> x in ids && x !in removed
  {
    if ids == [] then []
    else
      var n := |ids| - 1;
      assert ids == ids[..n] + [ids[n]] && ids[n] !in ids[..n];
      Surviving(ids[..n], removed) + if ids[n] in removed then [] else [ids[n]]
  }

  function Placed(f: Forest, removed: set<string>, arrange: Arrange, parent: Option<string>): (r: seq<string>)
    requires Valid(f) && Arranges(arrange) && (parent.Some? ==> parent.value in f.depth)
    ensures Distinct(r) && forall c {:trigger c in r} :: c in r <==> c in f.depth && f.nodes[c].parent == parent && c !in removed
  {
    arrange(Surviving(ChildrenOf(f, parent), removed))
  }

  // ---- The logical tree ----------------------------------------------------------------------

  function Logical(f: Forest, removed: set<string>, arrange: Arrange, id: string): (r: Item)
    requires Valid(f) && Arranges(arrange) && id in f.depth
    ensures r.id == id
    decreases f.bound - f.depth[id]
  {
    var kids := Placed(f, removed, arrange, Some(id));
    Item(id, seq(|kids|, i requires 0 <= i < |kids| =>
                   assert kids[i] in kids;
                   Logical(f, removed, arrange, kids[i])))
  }

  function LogicalTree(f: Forest, removed: set<string>, arrange: Arrange): seq<Item>
    requires Valid(f) && Arranges(arrange)
  {
    var roots := Placed(f, removed, arrange, None);
    seq(|roots|, i requires 0 <= i < |roots| =>
          assert roots[i] in roots;
          Logical(f, removed, arrange, roots[i]))
  }

  /** Items for distinct nodes at one depth hold a node once if one of them is above it. */
  lemma BranchesOnce(f: Forest, items: seq<Item>, ids: seq<string>, x: string, survives: bool)
    requires Valid(f) && |items| == |ids| && Distinct(ids)
    requires forall i, j :: 0 <= i < |ids| && 0 <= j < |ids| && Under(f, ids[i], x) && Under(f, ids[j], x) ==> i == j
    requires forall i :: 0 <= i < |ids| ==>
               Occurrences(items[i], x) == if Under(f, ids[i], x) && survives then 1 else 0
    ensures OccurrencesAll(items, x) ==
            if survives && exists i :: 0 <= i < |ids| && Under(f, ids[i], x) then 1 else 0
  {
    if survives && exists i :: 0 <= i < |ids| && Under(f, ids[i], x) {
      var i :| 0 <= i < |ids| && Under(f, ids[i], x);
      OneOccurs(items, x, i);
    } else {
      NoneOccurs(items, x);
    }
  }

  /** Distinct nodes at one depth: at most one is above `x`. */
  lemma SameDepthUnique(f: Forest, ids: seq<string>, d: nat, x: string)
    requires Valid(f) && Distinct(ids) && forall c :: c in ids ==> c in f.depth && f.depth[c] == d
    ensures forall i, j :: 0 <= i < |ids| && 0 <= j < |ids| && Under(f, ids[i], x) && Under(f, ids[j], x) ==> i == j
  {
    forall i, j | 0 <= i < |ids| && 0 <= j < |ids| && Under(f, ids[i], x) && Under(f, ids[j], x) ensures i == j {
      assert ids[i] in ids && ids[j] in ids;
      UnderUnique(f, ids[i], ids[j], x);
    }
  }

  /** The children that survive lead exactly to what survives below. */
  lemma KidsLead(f: Forest, removed: set<string>, id: string, kids: seq<string>, x: string)
    requires Valid(f) && Exact(f, removed) && id in f.depth && x !in removed
    requires forall c {:trigger c in kids} :: c in kids <==> c in f.depth && f.nodes[c].parent == Some(id) && c !in removed
    ensures (exists i :: 0 <= i < |kids| && Under(f, kids[i], x)) <==> Under(f, id, x) && x != id
  {
    if i :| 0 <= i < |kids| && Under(f, kids[i], x) {
      assert kids[i] in kids;
      ParentIsAbove(f, kids[i]);
      UnderTransitive(f, id, kids[i], x);
    }
    if Under(f, id, x) && x != id {
      var c := Toward(f, id, x);
      SurvivorsAbove(f, removed, c, x);
      assert c in kids;
    }
  }

  lemma {:induction false} LogicalOnce(f: Forest, removed: set<string>, arrange: Arrange, id: string, x: string)
    requires Valid(f) && Arranges(arrange) && Exact(f, removed) && id in f.depth && id !in removed
    ensures Occurrences(Logical(f, removed, arrange, id), x) == if Under(f, id, x) && x !in removed then 1 else 0
    decreases f.bound - f.depth[id]
  {
    var kids := Placed(f, removed, arrange, Some(id));
    var items := Logical(f, removed, arrange, id).children;
    forall c | c in kids ensures f.depth[c] == f.depth[id] + 1 {
      assert f.nodes[c].parent == Some(id);
    }
    forall i | 0 <= i < |kids|
      ensures Occurrences(items[i], x) == if Under(f, kids[i], x) && x !in removed then 1 else 0
    {
      assert kids[i] in kids;
      LogicalOnce(f, removed, arrange, kids[i], x);
    }
    SameDepthUnique(f, kids, f.depth[id] + 1, x);
    BranchesOnce(f, items, kids, x, x !in removed);
    if x !in removed { KidsLead(f, removed, id, kids, x); }
    assert Under(f, id, id);
  }

  lemma RootOf(f: Forest, x: string) returns (root: string)
    requires Valid(f) && x in f.depth
    ensures Under(f, root, x) && f.nodes[root].parent == None
  {
    root := Up(f, x, f.depth[x]);
    assert f.depth[root] == 0;
  }

  /** Every surviving node is below a surviving root. */
  lemma RootsLead(f: Forest, removed: set<string>, roots: seq<string>, x: string)
    requires Valid(f) && Exact(f, removed) && x !in removed
    requires forall c {:trigger c in roots} :: c in roots <==> c in f.depth && f.nodes[c].parent == None && c !in removed
    ensures (exists i :: 0 <= i < |roots| && Under(f, roots[i], x)) <==> x in f.depth
  {
    if x in f.depth {
      var root := RootOf(f, x);
      SurvivorsAbove(f, removed, root, x);
      assert root in roots;
      var i :| 0 <= i < |roots| && roots[i] == root;
      assert Under(f, roots[i], x);
    }
  }

  /** Every surviving node occurs exactly once in the logical tree, and no other node does. */
  lemma LogicalTreeConserves(f: Forest, removed: set<string>, arrange: Arrange, x: string)
    requires Valid(f) && Arranges(arrange) && Exact(f, removed)
    ensures OccurrencesAll(LogicalTree(f, removed, arrange), x) == if x in f.depth && x !in removed then 1 else 0
  {
    var roots := Placed(f, removed, arrange, None);
    var items := LogicalTree(f, removed, arrange);
    forall c | c in roots ensures f.depth[c] == 0 {
      assert f.nodes[c].parent == None;
    }
    forall i | 0 <= i < |roots|
      ensures Occurrences(items[i], x) == if Under(f, roots[i], x) && x !in removed then 1 else 0
    {
      assert roots[i] in roots;
      LogicalOnce(f, removed, arrange, roots[i], x);
    }
    SameDepthUnique(f, roots, 0, x);
    BranchesOnce(f, items, roots, x, x !in removed);
    if x !in removed { RootsLead(f, removed, roots, x); }
  }

  // ---- Navigation ------------------------------------------------------------------------------

  /** `m` lies strictly between `a` and `k`. */
  ghost predicate Between(f: Forest, a: string, m: string, k: string)
    requires Valid(f)
  {
    Under(f, a, m) && Under(f, m, k) && m != a && m != k
  }

  ghost predicate FlatBetween(f: Forest, a: string, k: string)
    requires Valid(f)
  {
    forall m {:trigger Between(f, a, m, k)} :: Between(f, a, m, k) ==> f.nodes[m].flatten
  }

  /** `k` shows directly under `id`: it is not flattened, and everything between is. */
  ghost predicate ShowsIn(f: Forest, removed: set<string>, id: string, k: string)
    requires Valid(f)
  {
    && Under(f, id, k) && k != id && k !in removed && !f.nodes[k].flatten
    && FlatBetween(f, id, k)
  }

  /** What one child contributes: itself, or what shows in it when it is flattened. */
  ghost predicate ShowsVia(f: Forest, removed: set<string>, c: string, k: string)
    requires Valid(f) && c in f.depth
  {
    if f.nodes[c].flatten then ShowsIn(f, removed, c, k) else k == c
  }

  lemma ViaChildShows(f: Forest, removed: set<string>, id: string, c: string, k: string)
    requires Valid(f) && c in f.depth && f.nodes[c].parent == Some(id) && c !in removed
    requires ShowsVia(f, removed, c, k)
    ensures ShowsIn(f, removed, id, k) && Under(f, c, k)
  {
    ParentIsAbove(f, c);
    assert Under(f, c, c);
    UnderTransitive(f, id, c, k);
    forall m | Between(f, id, m, k) ensures f.nodes[m].flatten {
      StrictlyBelow(f, id, m);
      if m != c {
        if f.depth[m] == f.depth[c] { UnderUnique(f, m, c, k); }
        UnderChain(f, c, m, k);
        assert m == k || Between(f, c, m, k);
      }
    }
  }

  lemma StrictlyBelow(f: Forest, a: string, m: string)
    requires Valid(f) && Under(f, a, m) && m != a
    ensures f.depth[a] < f.depth[m]
  {
  }

  lemma ShowsViaChild(f: Forest, removed: set<string>, id: string, k: string) returns (c: string)
    requires Valid(f) && Exact(f, removed) && ShowsIn(f, removed, id, k)
    ensures c in f.depth && f.nodes[c].parent == Some(id) && c !in removed && ShowsVia(f, removed, c, k)
  {
    c := Toward(f, id, k);
    SurvivorsAbove(f, removed, c, k);
    ParentIsAbove(f, c);
    if c != k {
      assert Between(f, id, c, k);
      forall m | Between(f, c, m, k) ensures f.nodes[m].flatten {
        UnderTransitive(f, id, c, m);
        StrictlyBelow(f, c, m);
        assert Between(f, id, m, k);
      }
    }
  }

  /** The navigation children of a node: its surviving children, each flattened one replaced
      by its own navigation children, positioned together. */
  function NavigationChildren(f: Forest, removed: set<string>, arrange: Arrange, id: string): (r: seq<string>)
    requires Valid(f) && Arranges(arrange) && Exact(f, removed) && id in f.depth
    ensures Distinct(r) && forall k {:trigger k in r} :: k in r <==> ShowsIn(f, removed, id, k)
    decreases f.bound - f.depth[id], 1, 0
  {
    var children := Surviving(ChildrenOf(f, Some(id)), removed);
    var lifted := Lifted(f, removed, arrange, id, children);
    LiftedIsShown(f, removed, id, children, lifted);
    arrange(lifted)
  }

  function Lifted(f: Forest, removed: set<string>, arrange: Arrange, id: string, children: seq<string>): (r: seq<string>)
    requires Valid(f) && Arranges(arrange) && Exact(f, removed) && id in f.depth && Distinct(children)
    requires forall c :: c in children ==> c in f.depth && f.nodes[c].parent == Some(id) && c !in removed
    ensures Gathers(f, removed, children, r)
    decreases f.bound - f.depth[id], 0, |children|
  {
    if children == [] then []
    else
      var n := |children| - 1;
      var c := children[n];
      assert children == children[..n] + [c] && c !in children[..n] && f.nodes[c].parent == Some(id);
      var before := Lifted(f, removed, arrange, id, children[..n]);
      var last := Contribution(f, removed, arrange, c);
      GathersMore(f, removed, id, children[..n], c, before, last);
      before + last
  }

  function Contribution(f: Forest, removed: set<string>, arrange: Arrange, c: string): (r: seq<string>)
    requires Valid(f) && Arranges(arrange) && Exact(f, removed) && c in f.depth
    ensures Gathers(f, removed, [c], r)
    decreases f.bound - f.depth[c], 2, 0
  {
    var r := if f.nodes[c].flatten then NavigationChildren(f, removed, arrange, c) else [c];
    GathersOne(f, removed, c, r);
    r
  }

  /** `r` lists once each what the children contribute. */
  ghost predicate Gathers(f: Forest, removed: set<string>, children: seq<string>, r: seq<string>)
    requires Valid(f) && forall c :: c in children ==> c in f.depth
  {
    Distinct(r) && forall k {:trigger k in r} :: k in r <==> exists c :: c in children && ShowsVia(f, removed, c, k)
  }

  lemma GathersOne(f: Forest, removed: set<string>, c: string, last: seq<string>)
    requires Valid(f) && c in f.depth && Distinct(last)
    requires if f.nodes[c].flatten then forall k :: k in last <==> ShowsIn(f, removed, c, k) else last == [c]
    ensures Gathers(f, removed, [c], last)
  {
    forall k ensures k in last <==> exists s :: s in [c] && ShowsVia(f, removed, s, k) {
      assert c in [c];
      assert k in last <==> ShowsVia(f, removed, c, k);
    }
  }

  lemma GathersMore(f: Forest, removed: set<string>, id: string, siblings: seq<string>, c: string, before: seq<string>, last: seq<string>)
    requires Valid(f) && c in f.depth && f.nodes[c].parent == Some(id) && c !in siblings && c !in removed
    requires forall s :: s in siblings ==> s in f.depth && f.nodes[s].parent == Some(id) && s !in removed
    requires Gathers(f, removed, siblings, before) && Gathers(f, removed, [c], last)
    ensures Gathers(f, removed, siblings + [c], before + last)
  {
    assert c in [c];
    SiblingsApart(f, removed, id, siblings, c, before, last);
    DistinctJoin(before, last);
    var all := siblings + [c];
    forall k ensures k in before + last <==> exists s :: s in all && ShowsVia(f, removed, s, k) {
      if k in before { var s :| s in siblings && ShowsVia(f, removed, s, k); assert s in all; }
      if k in last { assert c in all; }
    }
  }

  lemma DistinctJoin(s: seq<string>, t: seq<string>)
    requires Distinct(s) && Distinct(t) && forall k :: k in t ==> k !in s
    ensures Distinct(s + t)
  {
    forall i, j | 0 <= i < j < |s + t| ensures (s + t)[i] != (s + t)[j] {
      if i < |s| <= j { assert s[i] in s && t[j - |s|] in t; }
    }
  }

  lemma SiblingsApart(f: Forest, removed: set<string>, id: string, siblings: seq<string>, c: string, before: seq<string>, last: seq<string>)
    requires Valid(f) && c in f.depth && f.nodes[c].parent == Some(id) && c !in siblings && c !in removed
    requires forall s :: s in siblings ==> s in f.depth && f.nodes[s].parent == Some(id) && s !in removed
    requires forall k :: k in before <==> exists s :: s in siblings && ShowsVia(f, removed, s, k)
    requires forall k :: k in last ==> ShowsVia(f, removed, c, k)
    ensures forall k :: k in last ==> k !in before
  {
    forall k | k in last && k in before ensures false {
      var s :| s in siblings && ShowsVia(f, removed, s, k);
      ViaChildShows(f, removed, id, s, k);
      ViaChildShows(f, removed, id, c, k);
      UnderUnique(f, s, c, k);
    }
  }

  lemma LiftedIsShown(f: Forest, removed: set<string>, id: string, children: seq<string>, lifted: seq<string>)
    requires Valid(f) && Exact(f, removed) && id in f.depth
    requires forall c {:trigger c in children} :: c in children <==> c in f.depth && f.nodes[c].parent == Some(id) && c !in removed
    requires forall k {:trigger k in lifted} :: k in lifted <==> exists c :: c in children && ShowsVia(f, removed, c, k)
    ensures forall k {:trigger k in lifted} :: k in lifted <==> ShowsIn(f, removed, id, k)
  {
    forall k ensures k in lifted <==> ShowsIn(f, removed, id, k) {
      if k in lifted {
        var c :| c in children && ShowsVia(f, removed, c, k);
        ViaChildShows(f, removed, id, c, k);
      }
      if ShowsIn(f, removed, id, k) {
        var c := ShowsViaChild(f, removed, id, k);
      }
    }
  }

  function Navigation(f: Forest, removed: set<string>, arrange: Arrange, id: string): (r: Item)
    requires Valid(f) && Arranges(arrange) && Exact(f, removed) && id in f.depth
    ensures r.id == id
    decreases f.bound - f.depth[id]
  {
    var kids := NavigationChildren(f, removed, arrange, id);
    Item(id, seq(|kids|, i requires 0 <= i < |kids| =>
                   assert kids[i] in kids;
                   Navigation(f, removed, arrange, kids[i])))
  }

  function NavigationTree(f: Forest, removed: set<string>, arrange: Arrange): seq<Item>
    requires Valid(f) && Arranges(arrange) && Exact(f, removed)
  {
    var roots := Placed(f, removed, arrange, None);
    seq(|roots|, i requires 0 <= i < |roots| =>
          assert roots[i] in roots;
          Navigation(f, removed, arrange, roots[i]))
  }

  /** On the way down to an unflattened node there is a first unflattened one. */
  lemma {:induction false} FirstShown(f: Forest, removed: set<string>, id: string, x: string) returns (k: string)
    requires Valid(f) && Exact(f, removed) && Under(f, id, x) && x != id && x !in removed && !f.nodes[x].flatten
    ensures ShowsIn(f, removed, id, k) && Under(f, k, x)
    decreases f.bound - f.depth[id]
  {
    var c := Toward(f, id, x);
    SurvivorsAbove(f, removed, c, x);
    if f.nodes[c].flatten {
      k := FirstShown(f, removed, c, x);
    } else {
      k := c;
    }
    ViaChildShows(f, removed, id, c, k);
  }

  lemma NestedShownSame(f: Forest, removed: set<string>, id: string, k: string, l: string)
    requires Valid(f) && ShowsIn(f, removed, id, k) && ShowsIn(f, removed, id, l) && Under(f, k, l)
    ensures k == l
  {
    assert Between(f, id, k, l) <==> k != l;
  }

  lemma ShownUnique(f: Forest, removed: set<string>, id: string, k: string, l: string, x: string)
    requires Valid(f) && ShowsIn(f, removed, id, k) && ShowsIn(f, removed, id, l) && Under(f, k, x) && Under(f, l, x)
    ensures k == l
  {
    if f.depth[k] <= f.depth[l] {
      UnderChain(f, k, l, x);
      NestedShownSame(f, removed, id, k, l);
    } else {
      UnderChain(f, l, k, x);
      NestedShownSame(f, removed, id, l, k);
    }
  }

  lemma {:induction false} NavigationOnce(f: Forest, removed: set<string>, arrange: Arrange, id: string, x: string)
    requires Valid(f) && Arranges(arrange) && Exact(f, removed) && id in f.depth && id !in removed
    ensures Occurrences(Navigation(f, removed, arrange, id), x) ==
            if Under(f, id, x) && x !in removed && (x == id || !f.nodes[x].flatten) then 1 else 0
    decreases f.bound - f.depth[id]
  {
    var kids := NavigationChildren(f, removed, arrange, id);
    var items := Navigation(f, removed, arrange, id).children;
    forall i | 0 <= i < |kids|
      ensures Occurrences(items[i], x) ==
              if Under(f, kids[i], x) && x !in removed && !f.nodes[x].flatten then 1 else 0
    {
      var k := kids[i];
      assert k in kids;
      StrictlyBelow(f, id, k);
      NavigationOnce(f, removed, arrange, kids[i], x);
    }
    NavigationBranches(f, removed, id, kids, items, x);
  }

  /** A node's own occurrence and those in its navigation children. */
  lemma NavigationBranches(f: Forest, removed: set<string>, id: string, kids: seq<string>, items: seq<Item>, x: string)
    requires Valid(f) && Exact(f, removed) && id in f.depth && id !in removed
    requires Distinct(kids) && (forall k {:trigger k in kids} :: k in kids <==> ShowsIn(f, removed, id, k)) && |items| == |kids|
    requires forall i :: 0 <= i < |kids| ==>
               Occurrences(items[i], x) ==
               if Under(f, kids[i], x) && x !in removed && !f.nodes[x].flatten then 1 else 0
    ensures Occurrences(Item(id, items), x) ==
            if Under(f, id, x) && x !in removed && (x == id || !f.nodes[x].flatten) then 1 else 0
  {
    ShownKidsUnique(f, removed, id, kids, x);
    BranchesOnce(f, items, kids, x, x in f.depth && x !in removed && !f.nodes[x].flatten);
    NavigationLeads(f, removed, id, kids, x);
    assert Under(f, id, id);
  }

  lemma ShownKidsUnique(f: Forest, removed: set<string>, id: string, kids: seq<string>, x: string)
    requires Valid(f) && Distinct(kids) && forall k :: k in kids ==> ShowsIn(f, removed, id, k)
    ensures forall i, j :: 0 <= i < |kids| && 0 <= j < |kids| && Under(f, kids[i], x) && Under(f, kids[j], x) ==> i == j
  {
    forall i, j | 0 <= i < |kids| && 0 <= j < |kids| && Under(f, kids[i], x) && Under(f, kids[j], x) ensures i == j {
      assert kids[i] in kids && kids[j] in kids;
      ShownUnique(f, removed, id, kids[i], kids[j], x);
    }
  }


  lemma NavigationLeads(f: Forest, removed: set<string>, id: string, kids: seq<string>, x: string)
    requires Valid(f) && Exact(f, removed) && id in f.depth
    requires forall k {:trigger k in kids} :: k in kids <==> ShowsIn(f, removed, id, k)
    ensures (exists i :: 0 <= i < |kids| && Under(f, kids[i], x)) ==> Under(f, id, x) && x != id
    ensures Under(f, id, x) && x != id && x !in removed && !f.nodes[x].flatten ==>
              exists i :: 0 <= i < |kids| && Under(f, kids[i], x)
  {
    if i :| 0 <= i < |kids| && Under(f, kids[i], x) {
      assert kids[i] in kids;
      UnderTransitive(f, id, kids[i], x);
      StrictlyBelow(f, id, kids[i]);
    }
    if Under(f, id, x) && x != id && x !in removed && !f.nodes[x].flatten {
      var k := FirstShown(f, removed, id, x);
      assert k in kids;
    }
  }

  /** Every surviving node occurs exactly once in navigation, except flattened non-roots,
      which do not occur. */
  lemma NavigationTreeConserves(f: Forest, removed: set<string>, arrange: Arrange, x: string)
    requires Valid(f) && Arranges(arrange) && Exact(f, removed)
    ensures OccurrencesAll(NavigationTree(f, removed, arrange), x) ==
            if x in f.depth && x !in removed && (f.nodes[x].parent.None? || !f.nodes[x].flatten) then 1 else 0
  {
    var roots := Placed(f, removed, arrange, None);
    var items := NavigationTree(f, removed, arrange);
    var shown := x in f.depth && x !in removed && (f.nodes[x].parent.None? || !f.nodes[x].flatten);
    forall c | c in roots ensures f.depth[c] == 0 {
      assert f.nodes[c].parent == None;
    }
    forall i | 0 <= i < |roots| ensures Occurrences(items[i], x) == if Under(f, roots[i], x) && shown then 1 else 0 {
      assert roots[i] in roots;
      NavigationOnce(f, removed, arrange, roots[i], x);
      RootAbove(f, roots[i], x);
    }
    SameDepthUnique(f, roots, 0, x);
    BranchesOnce(f, items, roots, x, shown);
    if x !in removed { RootsLead(f, removed, roots, x); }
  }

  /** Only a root itself is a root below a root. */
  lemma RootAbove(f: Forest, root: string, x: string)
    requires Valid(f) && root in f.depth && f.depth[root] == 0
    ensures Under(f, root, x) ==> (x == root <==> f.nodes[x].parent.None?)
  {
    if Under(f, root, x) {
      assert f.nodes[x].parent.None? <==> f.depth[x] == 0;
    }
  }

  // ---- What hangs below what ------------------------------------------------------------------------

  /** `x` is at the top of a forest of items. */
  ghost predicate IsTop(items: seq<Item>, x: string) {
    exists i :: 0 <= i < |items| && items[i].id == x
  }

  /** Somewhere in the item, `c` is a direct child of `p`. */
  ghost predicate HasChild(item: Item, p: string, c: string)
    decreases item
  {
    (item.id == p && IsTop(item.children, c)) || ChildIn(item.children, p, c)
  }

  ghost predicate ChildIn(items: seq<Item>, p: string, c: string)
    decreases items
  {
    exists i :: 0 <= i < |items| && HasChild(items[i], p, c)
  }

  /** `c` survives below its parent `p`. */
  predicate SurvivesBelow(nodes: Nodes, removed: set<string>, p: string, c: string) {
    c in nodes && c !in removed && nodes[c].parent == Some(p)
  }

  lemma TopIds(items: seq<Item>, ids: seq<string>, x: string)
    requires |items| == |ids| && forall i :: 0 <= i < |ids| ==> items[i].id == ids[i]
    ensures IsTop(items, x) <==> x in ids
  {
    if x in ids {
      var i :| 0 <= i < |ids| && ids[i] == x;
      assert items[i].id == x;
    }
  }

  /** Branches that hold a child exactly when they are above its parent. */
  lemma BranchesHold(f: Forest, items: seq<Item>, ids: seq<string>, p: string, c: string, related: bool)
    requires Valid(f) && |items| == |ids|
    requires forall i :: 0 <= i < |ids| ==> (HasChild(items[i], p, c) <==> Under(f, ids[i], p) && related)
    ensures ChildIn(items, p, c) <==> related && exists i :: 0 <= i < |ids| && Under(f, ids[i], p)
  {
    if related && exists i :: 0 <= i < |ids| && Under(f, ids[i], p) {
      var i :| 0 <= i < |ids| && Under(f, ids[i], p);
      assert HasChild(items[i], p, c);
    }
  }

  lemma ParentSurvives(f: Forest, removed: set<string>, p: string, c: string)
    requires Valid(f) && Exact(f, removed) && SurvivesBelow(f.nodes, removed, p, c) && c in f.depth
    ensures p in f.depth && p !in removed
  {
    ParentIsAbove(f, c);
    SurvivorsAbove(f, removed, p, c);
  }

  lemma {:induction false} LogicalNests(f: Forest, removed: set<string>, arrange: Arrange, id: string, p: string, c: string)
    requires Valid(f) && Arranges(arrange) && Exact(f, removed) && id in f.depth && id !in removed
    ensures HasChild(Logical(f, removed, arrange, id), p, c) <==> Under(f, id, p) && SurvivesBelow(f.nodes, removed, p, c)
    decreases f.bound - f.depth[id]
  {
    var kids := Placed(f, removed, arrange, Some(id));
    var items := Logical(f, removed, arrange, id).children;
    var related := SurvivesBelow(f.nodes, removed, p, c);
    forall i | 0 <= i < |kids| ensures HasChild(items[i], p, c) <==> Under(f, kids[i], p) && related {
      var k := kids[i];
      assert k in kids;
      assert f.nodes[k].parent == Some(id);
      LogicalNests(f, removed, arrange, k, p, c);
      assert items[i] == Logical(f, removed, arrange, k);
    }
    LogicalHolds(f, removed, id, kids, items, p, c);
  }

  lemma LogicalHolds(f: Forest, removed: set<string>, id: string, kids: seq<string>, items: seq<Item>, p: string, c: string)
    requires Valid(f) && Exact(f, removed) && id in f.depth && |items| == |kids|
    requires forall k {:trigger k in kids} :: k in kids <==> k in f.depth && f.nodes[k].parent == Some(id) && k !in removed
    requires forall i :: 0 <= i < |kids| ==> items[i].id == kids[i]
    requires forall i :: 0 <= i < |kids| ==>
               (HasChild(items[i], p, c) <==> Under(f, kids[i], p) && SurvivesBelow(f.nodes, removed, p, c))
    ensures HasChild(Item(id, items), p, c) <==> Under(f, id, p) && SurvivesBelow(f.nodes, removed, p, c)
  {
    var related := SurvivesBelow(f.nodes, removed, p, c);
    BranchesHold(f, items, kids, p, c, related);
    TopIds(items, kids, c);
    assert Under(f, id, id);
    if related && c in f.depth {
      ParentSurvives(f, removed, p, c);
      KidsLead(f, removed, id, kids, p);
    }
  }

  /** In the logical tree each survivor hangs below its parent, and nothing else hangs anywhere;
      the surviving roots are at the top. */
  lemma LogicalTreeNests(f: Forest, removed: set<string>, arrange: Arrange, p: string, c: string)
    requires Valid(f) && Arranges(arrange) && Exact(f, removed)
    ensures ChildIn(LogicalTree(f, removed, arrange), p, c) <==> SurvivesBelow(f.nodes, removed, p, c) && c in f.depth
    ensures IsTop(LogicalTree(f, removed, arrange), c) <==> c in f.depth && c !in removed && f.nodes[c].parent.None?
  {
    var roots := Placed(f, removed, arrange, None);
    var items := LogicalTree(f, removed, arrange);
    var related := SurvivesBelow(f.nodes, removed, p, c);
    forall i | 0 <= i < |roots| ensures HasChild(items[i], p, c) <==> Under(f, roots[i], p) && related {
      assert roots[i] in roots;
      LogicalNests(f, removed, arrange, roots[i], p, c);
    }
    BranchesHold(f, items, roots, p, c, related);
    TopIds(items, roots, c);
    if related && c in f.depth {
      ParentSurvives(f, removed, p, c);
      RootsLead(f, removed, roots, p);
    }
  }

  /** `c` shows directly under `p` when `p` itself shows. */
  ghost predicate NavigatesBelow(f: Forest, removed: set<string>, p: string, c: string)
    requires Valid(f)
  {
    p in f.depth && p !in removed && ShowsIn(f, removed, p, c)
  }

  lemma ShownParentSurvives(f: Forest, removed: set<string>, p: string, c: string)
    requires Valid(f) && Exact(f, removed) && ShowsIn(f, removed, p, c)
    ensures p !in removed
  {
    SurvivorsAbove(f, removed, p, c);
  }

  lemma {:induction false} NavigationNests(f: Forest, removed: set<string>, arrange: Arrange, id: string, p: string, c: string)
    requires Valid(f) && Arranges(arrange) && Exact(f, removed) && id in f.depth && id !in removed
    ensures HasChild(Navigation(f, removed, arrange, id), p, c) <==>
            Under(f, id, p) && (p == id || !f.nodes[p].flatten) && NavigatesBelow(f, removed, p, c)
    decreases f.bound - f.depth[id]
  {
    var kids := NavigationChildren(f, removed, arrange, id);
    var items := Navigation(f, removed, arrange, id).children;
    var related := p in f.depth && !f.nodes[p].flatten && NavigatesBelow(f, removed, p, c);
    forall i | 0 <= i < |kids| ensures HasChild(items[i], p, c) <==> Under(f, kids[i], p) && related {
      var k := kids[i];
      assert k in kids;
      StrictlyBelow(f, id, k);
      NavigationNests(f, removed, arrange, k, p, c);
      assert items[i] == Navigation(f, removed, arrange, k);
    }
    NavigationHolds(f, removed, id, kids, items, p, c);
  }

  lemma NavigationHolds(f: Forest, removed: set<string>, id: string, kids: seq<string>, items: seq<Item>, p: string, c: string)
    requires Valid(f) && Exact(f, removed) && id in f.depth && id !in removed && |items| == |kids|
    requires forall k {:trigger k in kids} :: k in kids <==> ShowsIn(f, removed, id, k)
    requires forall i :: 0 <= i < |kids| ==> items[i].id == kids[i]
    requires var related := p in f.depth && !f.nodes[p].flatten && NavigatesBelow(f, removed, p, c);
             forall i :: 0 <= i < |kids| ==> (HasChild(items[i], p, c) <==> Under(f, kids[i], p) && related)
    ensures HasChild(Item(id, items), p, c) <==>
            Under(f, id, p) && (p == id || !f.nodes[p].flatten) && NavigatesBelow(f, removed, p, c)
  {
    var related := p in f.depth && !f.nodes[p].flatten && NavigatesBelow(f, removed, p, c);
    BranchesHold(f, items, kids, p, c, related);
    TopIds(items, kids, c);
    NavigationLeads(f, removed, id, kids, p);
    assert Under(f, id, id);
  }

  /** In navigation each shown node below the roots hangs under the nearest ancestor that shows. */
  lemma NavigationTreeNests(f: Forest, removed: set<string>, arrange: Arrange, p: string, c: string)
    requires Valid(f) && Arranges(arrange) && Exact(f, removed)
    ensures ChildIn(NavigationTree(f, removed, arrange), p, c) <==>
            NavigatesBelow(f, removed, p, c) && (f.nodes[p].parent.None? || !f.nodes[p].flatten)
    ensures IsTop(NavigationTree(f, removed, arrange), c) <==> c in f.depth && c !in removed && f.nodes[c].parent.None?
  {
    var roots := Placed(f, removed, arrange, None);
    var items := NavigationTree(f, removed, arrange);
    var related := NavigatesBelow(f, removed, p, c) && (f.nodes[p].parent.None? || !f.nodes[p].flatten);
    forall i | 0 <= i < |roots| ensures HasChild(items[i], p, c) <==> Under(f, roots[i], p) && related {
      assert roots[i] in roots;
      assert f.nodes[roots[i]].parent == None;
      NavigationNests(f, removed, arrange, roots[i], p, c);
      RootAbove(f, roots[i], p);
    }
    BranchesHold(f, items, roots, p, c, related);
    TopIds(items, roots, c);
    if related { RootsLead(f, removed, roots, p); }
  }

  /** Walking up from `c`, `p` is the first node that is a root or not flattened. */
  ghost predicate NearestShown(nodes: Nodes, c: string, p: string)
    requires ParentsKnown(nodes) && c in nodes
  {
    && p in nodes && (nodes[p].parent.None? || !nodes[p].flatten)
    && exists k :: k > 0 && Walk(nodes, c, k) == Some(p) && FlatBelow(nodes, c, k)
  }

  /** The nodes strictly between `c` and its `k`-th ancestor are flattened. */
  ghost predicate FlatBelow(nodes: Nodes, c: string, k: nat)
    requires ParentsKnown(nodes) && c in nodes
  {
    forall j :: 0 < j < k && Walk(nodes, c, j).Some? ==> nodes[Walk(nodes, c, j).value].flatten
  }

  lemma WalkedBetween(f: Forest, p: string, c: string, j: nat, k: nat)
    requires Valid(f) && c in f.depth && 0 < j < k && Walk(f.nodes, c, k) == Some(p) && Walk(f.nodes, c, j).Some?
    ensures var m := Walk(f.nodes, c, j).value; Between(f, p, m, c)
  {
    var m := Walk(f.nodes, c, j).value;
    WalkedIsUnder(f, c, j);
    WalkFrom(f.nodes, c, j, k);
    WalkedIsUnder(f, m, k - j);
    RankedWalk(f.nodes, f.depth, c, j);
    RankedWalk(f.nodes, f.depth, c, k);
  }

  lemma ShowsInWalks(f: Forest, removed: set<string>, p: string, c: string)
    requires Valid(f) && ShowsIn(f, removed, p, c) && (f.nodes[p].parent.None? || !f.nodes[p].flatten)
    ensures NearestShown(f.nodes, c, p) && f.nodes[c].parent.Some?
  {
    var k := UnderIsWalked(f, p, c);
    assert Walk(f.nodes, c, 0) == Some(c);
    forall j | 0 < j < k && Walk(f.nodes, c, j).Some? ensures f.nodes[Walk(f.nodes, c, j).value].flatten {
      WalkedBetween(f, p, c, j, k);
    }
    assert FlatBelow(f.nodes, c, k);
    StrictlyBelow(f, p, c);
  }

  lemma WalksShowsIn(f: Forest, removed: set<string>, p: string, c: string)
    requires Valid(f) && c in f.depth && c !in removed && !f.nodes[c].flatten && NearestShown(f.nodes, c, p)
    ensures ShowsIn(f, removed, p, c)
  {
    var k :| k > 0 && Walk(f.nodes, c, k) == Some(p) && FlatBelow(f.nodes, c, k);
    WalkedIsUnder(f, c, k);
    RankedWalk(f.nodes, f.depth, c, k);
    forall m | Between(f, p, m, c) ensures f.nodes[m].flatten {
      var j := UnderIsWalked(f, m, c);
      RankedWalk(f.nodes, f.depth, c, j);
      StrictlyBelow(f, p, m);
      StrictlyBelow(f, m, c);
    }
  }

  /** What the tree says of `p` and `c` in terms of the declared nodes alone. */
  lemma NavigatesExactlyWhen(f: Forest, removed: set<string>, p: string, c: string)
    requires Valid(f) && Exact(f, removed)
    ensures NavigatesBelow(f, removed, p, c) && (f.nodes[p].parent.None? || !f.nodes[p].flatten) <==>
            c in f.depth && c !in removed && f.nodes[c].parent.Some? && !f.nodes[c].flatten && NearestShown(f.nodes, c, p)
  {
    if NavigatesBelow(f, removed, p, c) && (f.nodes[p].parent.None? || !f.nodes[p].flatten) {
      ShowsInWalks(f, removed, p, c);
    }
    if c in f.depth && c !in removed && f.nodes[c].parent.Some? && !f.nodes[c].flatten && NearestShown(f.nodes, c, p) {
      WalksShowsIn(f, removed, p, c);
      ShownParentSurvives(f, removed, p, c);
    }
  }

  // ---- The parent a node shows under -------------------------------------------------------------

  /** Every node above `id` is flattened and has a parent, so that looking for the one it shows under
      does not end. */
  ghost predicate NeverShown(nodes: Nodes, id: string)
    requires ParentsKnown(nodes) && id in nodes
  {
    forall k {:trigger Walk(nodes, id, k)} :: k > 0 ==> Walk(nodes, id, k).Some? && nodes[Walk(nodes, id, k).value].flatten
  }

  method FindShownUnder(nodes: Nodes, id: string) returns (parent: Option<string>)
    requires ParentsKnown(nodes) && id in nodes && !NeverShown(nodes, id)
    ensures ReportsUnder(nodes, id, parent)
  {
    ghost var end :| end > 0 && !(Walk(nodes, id, end).Some? && nodes[Walk(nodes, id, end).value].flatten);
    ghost var k := 1;
    assert Walk(nodes, id, 0) == Some(id);
    parent := nodes[id].parent;
    while parent.Some? && nodes[parent.value].flatten && nodes[parent.value].parent.Some?
      invariant 0 < k <= end && parent == Walk(nodes, id, k) && FlatBelow(nodes, id, k)
      invariant parent.Some? <==> nodes[id].parent.Some?
      decreases end - k
    {
      parent := nodes[parent.value].parent;
      k := k + 1;
    }
  }

  /** A root shows under nothing, any other node under its nearest ancestor that is unflattened or
      a root. */
  ghost predicate ReportsUnder(nodes: Nodes, id: string, parent: Option<string>)
    requires ParentsKnown(nodes) && id in nodes
  {
    (parent.Some? <==> nodes[id].parent.Some?) && (parent.Some? ==> NearestShown(nodes, id, parent.value))
  }

  /** A surviving unflattened node below the roots is a navigation child of the node it is
      reported to show under. */
  lemma NavigationParent(f: Forest, removed: set<string>, arrange: Arrange, k: string, parent: Option<string>)
    requires Valid(f) && Arranges(arrange) && Exact(f, removed)
    requires k in f.depth && k !in removed && !f.nodes[k].flatten && f.nodes[k].parent.Some? && ReportsUnder(f.nodes, k, parent)
    ensures parent.Some? && parent.value in f.depth && k in NavigationChildren(f, removed, arrange, parent.value)
  {
    WalksShowsIn(f, removed, parent.value, k);
  }

  /** An item of empty id that is its own parent, flattened and removed: the check lets it through,
      and reporting where it showed does not end. */
  lemma ReportNeverEnds()
    ensures var nodes := map["" := Node(Some(""), true, true)];
            ParentsKnown(nodes) && !HasCycle(Seen(nodes)) && Flagged(nodes, "") && NeverShown(nodes, "")
  {
    var nodes := map["" := Node(Some(""), true, true)];
    RankedHasNoCycle(Seen(nodes), map["" := 0]);
    assert Walk(nodes, "", 0) == Some("");
    forall k | k > 0 ensures Walk(nodes, "", k) == Some("") { EmptyRepeats(nodes, k); }
  }

  lemma {:induction false} EmptyRepeats(nodes: Nodes, k: nat)
    requires ParentsKnown(nodes) && "" in nodes && nodes[""].parent == Some("")
    ensures Walk(nodes, "", k) == Some("")
  {
    if k > 0 { EmptyRepeats(nodes, k - 1); }
  }

  // ---- Resolution ----------------------------------------------------------------------------------

  /** The removed nodes with the parent each showed under, and the two trees. */
  datatype Resolution =
    | UnknownParent
    | ParentCycle
    | Resolved(removed: map<string, Option<string>>, logical: seq<Item>, navigation: seq<Item>)

  lemma FlaggedIsRemovedAbove(f: Forest, x: string)
    requires Valid(f)
    ensures RemovedAbove(f, x) <==> x in f.depth && Flagged(f.nodes, x)
  {
    if a :| Under(f, a, x) && f.nodes[a].remove {
      var k := UnderIsWalked(f, a, x);
    }
    if x in f.depth && Flagged(f.nodes, x) {
      var k: nat :| Walk(f.nodes, x, k).Some? && f.nodes[Walk(f.nodes, x, k).value].remove;
      WalkedIsUnder(f, x, k);
    }
  }

  /** Kept: not removed, and its ancestors end at a root. */
  ghost predicate Kept(nodes: Nodes, x: string)
    requires ParentsKnown(nodes)
  {
    x in nodes && !Flagged(nodes, x) && Rooted(nodes, x)
  }

  /** Shown in navigation: kept, and a root or not flattened. */
  ghost predicate Shown(nodes: Nodes, x: string)
    requires ParentsKnown(nodes)
  {
    Kept(nodes, x) && (nodes[x].parent.None? || !nodes[x].flatten)
  }

  /** Each tree has exactly the kept roots at the top. */
  ghost predicate TopWhenRoot(nodes: Nodes, items: seq<Item>, x: string)
    requires ParentsKnown(nodes)
  {
    IsTop(items, x) <==> Kept(nodes, x) && nodes[x].parent.None?
  }

  /** The logical tree: every kept node once, each below its parent. */
  ghost predicate IsLogical(nodes: Nodes, items: seq<Item>)
    requires ParentsKnown(nodes)
  {
    && (forall x :: OccurrencesAll(items, x) == if Kept(nodes, x) then 1 else 0)
    && (forall x :: TopWhenRoot(nodes, items, x))
    && (forall p, c :: ChildIn(items, p, c) <==> Kept(nodes, c) && nodes[c].parent == Some(p))
  }

  /** The navigation tree: every shown node once, each below the nearest ancestor that is unflattened
      or a root. */
  ghost predicate IsNavigation(nodes: Nodes, items: seq<Item>)
    requires ParentsKnown(nodes)
  {
    && (forall x :: OccurrencesAll(items, x) == if Shown(nodes, x) then 1 else 0)
    && (forall x :: TopWhenRoot(nodes, items, x))
    && (forall p, c :: ChildIn(items, p, c) <==> Shown(nodes, c) && nodes[c].parent.Some? && NearestShown(nodes, c, p))
  }

  /** Resolution refuses exactly unknown parents and the cycles its check sees; otherwise it removes
      exactly the flagged subtrees and keeps every other node whose ancestors end at a root. */
  method Resolve(nodes: Nodes, ids: seq<string>, arrange: Arrange) returns (r: Resolution)
    requires Distinct(ids) && (forall id {:trigger id in ids} :: id in ids <==> id in nodes) && Arranges(arrange)
    requires ParentsKnown(nodes) && !HasCycle(Seen(nodes)) ==> forall x :: Flagged(nodes, x) ==> !NeverShown(nodes, x)
    ensures r.UnknownParent? <==> !ParentsKnown(nodes)
    ensures ParentsKnown(nodes) ==> (r.ParentCycle? <==> HasCycle(Seen(nodes)))
    ensures r.Resolved? ==> forall x :: x in r.removed <==> Flagged(nodes, x)
    ensures r.Resolved? ==> forall x :: x in r.removed ==> x in nodes && ReportsUnder(nodes, x, r.removed[x])
    ensures r.Resolved? ==> IsLogical(nodes, r.logical) && IsNavigation(nodes, r.navigation)
  {
    if exists id :: id in nodes && nodes[id].parent.Some? && nodes[id].parent.value !in nodes {
      return UnknownParent;
    }
    var ok := CheckCycles(nodes);
    if !ok {
      return ParentCycle;
    }
    ghost var depth, bound := RootedAreRanked(nodes);
    var f := Forest(nodes, ids, depth, bound);
    var removed := RemovedNodes(nodes, ids);
    forall x ensures x in depth ==> (x in removed <==> RemovedAbove(f, x)) { FlaggedIsRemovedAbove(f, x); }
    forall x ensures x in depth && x !in removed <==> Kept(nodes, x) { }
    var report := Report(nodes, removed);
    r := Resolved(report, LogicalTree(f, removed, arrange), NavigationTree(f, removed, arrange));
    LogicalIsLogical(f, removed, arrange);
    NavigationIsNavigation(f, removed, arrange);
  }

  method Report(nodes: Nodes, removed: set<string>) returns (report: map<string, Option<string>>)
    requires ParentsKnown(nodes) && removed <= nodes.Keys && forall x :: x in removed ==> !NeverShown(nodes, x)
    ensures report.Keys == removed && forall x :: x in removed ==> ReportsUnder(nodes, x, report[x])
  {
    report := map[];
    var left := removed;
    while left != {}
      invariant left <= removed && report.Keys == removed - left
      invariant forall x :: x in report ==> ReportsUnder(nodes, x, report[x])
      decreases left
    {
      var x :| x in left;
      var parent := FindShownUnder(nodes, x);
      report := report[x := parent];
      left := left - {x};
    }
  }

  lemma LogicalIsLogical(f: Forest, removed: set<string>, arrange: Arrange)
    requires Valid(f) && Arranges(arrange) && Exact(f, removed)
    requires forall x :: x in f.depth && x !in removed <==> Kept(f.nodes, x)
    ensures IsLogical(f.nodes, LogicalTree(f, removed, arrange))
  {
    var items := LogicalTree(f, removed, arrange);
    forall x ensures OccurrencesAll(items, x) == if Kept(f.nodes, x) then 1 else 0 {
      LogicalTreeConserves(f, removed, arrange, x);
    }
    forall x ensures TopWhenRoot(f.nodes, items, x) {
      LogicalTreeNests(f, removed, arrange, x, x);
    }
    forall p, c ensures ChildIn(items, p, c) <==> Kept(f.nodes, c) && f.nodes[c].parent == Some(p) {
      LogicalTreeNests(f, removed, arrange, p, c);
    }
  }

  lemma NavigationIsNavigation(f: Forest, removed: set<string>, arrange: Arrange)
    requires Valid(f) && Arranges(arrange) && Exact(f, removed)
    requires forall x :: x in f.depth && x !in removed <==> Kept(f.nodes, x)
    ensures IsNavigation(f.nodes, NavigationTree(f, removed, arrange))
  {
    var items := NavigationTree(f, removed, arrange);
    forall x ensures OccurrencesAll(items, x) == if Shown(f.nodes, x) then 1 else 0 {
      NavigationTreeConserves(f, removed, arrange, x);
    }
    forall x ensures TopWhenRoot(f.nodes, items, x) {
      NavigationTreeNests(f, removed, arrange, x, x);
    }
    forall p, c ensures ChildIn(items, p, c) <==>
                        Shown(f.nodes, c) && f.nodes[c].parent.Some? && NearestShown(f.nodes, c, p) {
      NavigationTreeNests(f, removed, arrange, p, c);
      NavigatesExactlyWhen(f, removed, p, c);
    }
  }

  /** The trees together with what is removed are the whole menu exactly when the empty id is on no
      parent cycle, or the nodes of its cycle are removed: what is on or below that cycle is in no
      tree otherwise. */
  lemma NothingVanishesExactlyWhen(nodes: Nodes, items: seq<Item>)
    requires ParentsKnown(nodes) && !HasCycle(Seen(nodes)) && IsLogical(nodes, items)
    ensures (forall x :: x in nodes && !Flagged(nodes, x) ==> OccurrencesAll(items, x) == 1) <==>
            !EmptyOnCycle(nodes) || Flagged(nodes, "")
  {
    AllRootedExactlyWhen(nodes);
    forall x | x in nodes && !Flagged(nodes, x) ensures OccurrencesAll(items, x) == 1 <==> Rooted(nodes, x) { }
  }
}
