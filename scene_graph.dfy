// The engine's scene graph as the highlight components see it: every node's
// parent, and every parent's ordered list of children. A node's sibling
// index is its position in its parent's list, so moving one node shifts its
// siblings.
module SceneGraph {
  import opened Common

  /** Parents, and each parent's children in order. A parent without
      children has no entry. */
  datatype Graph = Graph(parent: map<NodeId, NodeId>, children: map<NodeId, seq<NodeId>>)

  /** The children of `p`, in order. */
  function Kids(g: Graph, p: NodeId): seq<NodeId> {
    if p in g.children then g.children[p] else []
  }

  function ParentIn(g: Graph, n: NodeId): Option<NodeId> {
    if n in g.parent then Some(g.parent[n]) else None
  }

  /** The two tables agree: a node is in a list exactly when the list's
      owner is its parent, lists do not repeat nodes, and no list is
      empty. */
  ghost predicate Wf(g: Graph) {
    ListsOk(g) && ListedOk(g) && ParentedOk(g)
  }

  ghost predicate ListsOk(g: Graph) {
    forall p :: p in g.children ==> g.children[p] != [] && NoDup(g.children[p])
  }

  /** Every listed node has the list's owner as its parent. */
  ghost predicate ListedOk(g: Graph) {
    forall p, n :: p in g.children && n in g.children[p] ==> n in g.parent && g.parent[n] == p
  }

  /** Every node with a parent is in that parent's list. */
  ghost predicate ParentedOk(g: Graph) {
    forall n :: n in g.parent ==> g.parent[n] in g.children && n in g.children[g.parent[n]]
  }

  /** `s` without `n`. */
  function Without(s: seq<NodeId>, n: NodeId): (r: seq<NodeId>)
    ensures forall x :: x in r <==> x in s && x != n
    ensures |r| <= |s|
  {
    if s == [] then [] else (if s[0] == n then [] else [s[0]]) + Without(s[1..], n)
  }

  /** The position of the first `n` in `s`; `|s|` when there is none. */
  function Pos(s: seq<NodeId>, n: NodeId): (k: nat)
    ensures k <= |s| && (k < |s| <==> n in s)
    ensures k < |s| ==> s[k] == n && n !in s[..k]
  {
    if s == [] then 0
    else if s[0] == n then 0
    else
      var k := 1 + Pos(s[1..], n);
      assert k < |s| ==> s[..k] == [s[0]] + s[1..][..k - 1];
      k
  }

  /** `s` with `n` put at position `k`, or at the end when `k` is past it. */
  function InsertAt(s: seq<NodeId>, n: NodeId, k: nat): (r: seq<NodeId>)
    ensures |r| == |s| + 1 && r[if k < |s| then k else |s|] == n
  {
    if k < |s| then s[..k] + [n] + s[k..] else s + [n]
  }

  /** The graph with `p`'s children replaced by `s`. */
  function WithKids(g: Graph, p: NodeId, s: seq<NodeId>): Graph {
    Graph(g.parent, if s == [] then g.children - {p} else g.children[p := s])
  }

  /** Taking `n` out of its parent's list; the later siblings move up. */
  function Detach(g: Graph, n: NodeId): Graph {
    if n in g.parent then
      var p := g.parent[n];
      var d := WithKids(g, p, Without(Kids(g, p), n));
      d.(parent := d.parent - {n})
    else g
  }

  /** Giving a parentless `n` the parent `p`: it becomes the last child. */
  function Append(g: Graph, n: NodeId, p: NodeId): Graph {
    Graph(g.parent[n := p], g.children[p := Kids(g, p) + [n]])
  }

  /** Removing `n` from its parent, then setting its parent to `p` (none
      leaves it detached). */
  function Reparent(g: Graph, n: NodeId, p: Option<NodeId>): Graph {
    var d := Detach(g, n);
    if p.Some? then Append(d, n, p.value) else d
  }

  /** The sibling index of `n`; a node without a parent reads -1. */
  function IndexOf(g: Graph, n: NodeId): int {
    if n in g.parent then Pos(Kids(g, g.parent[n]), n) else -1
  }

  /** Where a node asked to move to index `k` lands among `len` other
      siblings: -1 and any index past the end mean last, and an index
      below -1 counts back from the end. */
  function Slot(len: nat, k: int): (at: nat)
    ensures at <= len
    ensures 0 <= k < len ==> at == k
  {
    if k == -1 || k >= len then len
    else if k >= 0 then k
    else if len + k < 0 then 0 else len + k
  }

  /** Moving `n` among its siblings to the slot index `k` names; nothing
      happens to a node without a parent. */
  function MoveTo(g: Graph, n: NodeId, k: int): Graph {
    if n in g.parent then
      var p := g.parent[n];
      var w := Without(Kids(g, p), n);
      WithKids(g, p, InsertAt(w, n, Slot(|w|, k)))
    else g
  }

  /** The nodes of `s` outside `gone`, in order. */
  function Keep(s: seq<NodeId>, gone: set<NodeId>): seq<NodeId> {
    if s == [] then [] else (if s[0] in gone then [] else [s[0]]) + Keep(s[1..], gone)
  }

  /** The nodes of `ns`, as a set. */
  function Nodes(ns: seq<NodeId>): set<NodeId> {
    set n | n in ns
  }

  /** Taking every node of `ns` out of its parent, last to first. */
  function DetachAll(g: Graph, ns: seq<NodeId>): Graph
    decreases |ns|
  {
    if ns == [] then g else DetachAll(Detach(g, ns[|ns| - 1]), ns[..|ns| - 1])
  }

  // ---- Facts about the lists ----

  lemma {:induction false} WithoutNoDup(s: seq<NodeId>, n: NodeId)
    requires NoDup(s)
    ensures NoDup(Without(s, n))
  {
    if s != [] {
      assert NoDup(s[1..]);
      WithoutNoDup(s[1..], n);
      if s[0] != n {
        assert s[0] !in s[1..];
        NoDupCons(s[0], Without(s[1..], n));
      }
    }
  }

  lemma NoDupCons(x: NodeId, t: seq<NodeId>)
    requires NoDup(t) && x !in t
    ensures NoDup([x] + t)
  {
    var r := [x] + t;
    forall i, j | 0 <= i < j < |r| ensures r[i] != r[j] {
      assert r[j] == t[j - 1];
      if i > 0 {
        assert r[i] == t[i - 1];
      }
    }
  }

  /** In a list without repetitions, removing a node closes the gap it
      leaves. */
  lemma {:induction false} WithoutAt(s: seq<NodeId>, n: NodeId, k: nat)
    requires NoDup(s) && k < |s| && s[k] == n
    ensures Without(s, n) == s[..k] + s[k + 1..]
    decreases k
  {
    if k == 0 {
      WithoutAbsent(s[1..], n);
    } else {
      WithoutAt(s[1..], n, k - 1);
      assert s[1..][..k - 1] == s[1..k];
      assert s[..k] == [s[0]] + s[1..k];
    }
  }

  lemma {:induction false} WithoutAbsent(s: seq<NodeId>, n: NodeId)
    requires n !in s
    ensures Without(s, n) == s
  {
    if s != [] {
      WithoutAbsent(s[1..], n);
      assert s == [s[0]] + s[1..];
    }
  }

  lemma {:induction false} WithoutAppend(s: seq<NodeId>, n: NodeId)
    requires n !in s
    ensures Without(s + [n], n) == s
  {
    if s == [] {
    } else {
      assert (s + [n])[1..] == s[1..] + [n];
      WithoutAppend(s[1..], n);
      assert s == [s[0]] + s[1..];
    }
  }

  /** Removing `n` and putting it back where it was gives the list back. */
  lemma InsertAtPos(s: seq<NodeId>, n: NodeId)
    requires NoDup(s) && n in s
    ensures InsertAt(Without(s, n), n, Pos(s, n)) == s
  {
    var k := Pos(s, n);
    WithoutAt(s, n, k);
    SplitAround(s, k);
    InsertBetween(s[..k], s[k + 1..], n);
  }

  lemma SplitAround(s: seq<NodeId>, k: nat)
    requires k < |s|
    ensures s == s[..k] + [s[k]] + s[k + 1..] && |s[..k]| == k
  {
    assert s == s[..k] + s[k..];
    assert s[k..] == [s[k]] + s[k + 1..];
  }

  lemma InsertBetween(a: seq<NodeId>, b: seq<NodeId>, n: NodeId)
    ensures InsertAt(a + b, n, |a|) == a + [n] + b
  {
    var w := a + b;
    if |a| < |w| {
      assert w[..|a|] == a && w[|a|..] == b;
    } else {
      assert b == [];
    }
  }

  lemma InsertAtNoDup(s: seq<NodeId>, n: NodeId, k: nat)
    requires NoDup(s) && n !in s
    ensures NoDup(InsertAt(s, n, k)) && forall x :: x in InsertAt(s, n, k) <==> x in s || x == n
  {
    var r := InsertAt(s, n, k);
    if k < |s| {
      assert r == s[..k] + [n] + s[k..];
      assert s == s[..k] + s[k..];
      forall i, j | 0 <= i < j < |r| ensures r[i] != r[j] {
        if j < k || i > k {
          var i', j' := if i < k then i else i - 1, if j < k then j else j - 1;
          assert r[i] == s[i'] && r[j] == s[j'];
        } else if i == k {
          assert r[j] == s[j - 1];
        } else if j == k {
          assert r[i] == s[i];
        } else {
          assert r[i] == s[i] && r[j] == s[j - 1];
        }
      }
      forall x ensures x in r <==> x in s || x == n {
        if x in s {
          var i :| 0 <= i < |s| && s[i] == x;
          assert r[if i < k then i else i + 1] == x;
        }
      }
    } else {
      NoDupAppend(s, n);
    }
  }

  // ---- The operations keep the tables in agreement ----

  /** Taking `n` out changes each list only by removing `n`. */
  lemma DetachKids(g: Graph, n: NodeId)
    requires ListedOk(g)
    ensures forall q :: Kids(Detach(g, n), q) == Without(Kids(g, q), n)
  {
    forall q ensures Kids(Detach(g, n), q) == Without(Kids(g, q), n) {
      if !(n in g.parent && q == g.parent[n]) {
        if n in Kids(g, q) {
          assert false;
        }
        WithoutAbsent(Kids(g, q), n);
      }
    }
  }

  lemma DetachWf(g: Graph, n: NodeId)
    requires Wf(g)
    ensures Wf(Detach(g, n)) && n !in Detach(g, n).parent
    ensures Detach(g, n).parent == g.parent - {n}
    ensures forall p :: Kids(Detach(g, n), p) == Without(Kids(g, p), n)
  {
    DetachKids(g, n);
    DetachLists(g, n);
    DetachListed(g, n);
    DetachParented(g, n);
  }

  lemma DetachLists(g: Graph, n: NodeId)
    requires ListsOk(g)
    ensures ListsOk(Detach(g, n))
  {
    var r := Detach(g, n);
    forall q | q in r.children ensures r.children[q] != [] && NoDup(r.children[q]) {
      if n in g.parent && q == g.parent[n] {
        WithoutNoDup(Kids(g, q), n);
      }
    }
  }

  lemma DetachListed(g: Graph, n: NodeId)
    requires ListedOk(g)
    ensures ListedOk(Detach(g, n))
  {
    var r := Detach(g, n);
    DetachKids(g, n);
    forall q, x | q in r.children && x in r.children[q] ensures x in r.parent && r.parent[x] == q {
      assert r.children[q] == Kids(r, q);
      assert x in Kids(g, q) && x != n;
    }
  }

  lemma DetachParented(g: Graph, n: NodeId)
    requires ListedOk(g) && ParentedOk(g)
    ensures ParentedOk(Detach(g, n))
  {
    var r := Detach(g, n);
    DetachKids(g, n);
    forall x | x in r.parent ensures r.parent[x] in r.children && x in r.children[r.parent[x]] {
      var q := g.parent[x];
      assert x != n && x in Kids(g, q);
      assert x in Kids(r, q);
    }
  }

  lemma AppendWf(g: Graph, n: NodeId, p: NodeId)
    requires Wf(g) && n !in g.parent
    ensures Wf(Append(g, n, p))
    ensures Kids(Append(g, n, p), p) == Kids(g, p) + [n]
  {
    assert n !in Kids(g, p);
    if p in g.children {
      NoDupAppend(g.children[p], n);
    }
  }

  lemma MoveToWf(g: Graph, n: NodeId, k: int)
    requires Wf(g)
    ensures Wf(MoveTo(g, n, k)) && MoveTo(g, n, k).parent == g.parent
  {
    if n in g.parent {
      var p := g.parent[n];
      var w := Without(Kids(g, p), n);
      WithoutNoDup(Kids(g, p), n);
      InsertAtNoDup(w, n, Slot(|w|, k));
    }
  }

  /** Reparenting: the node ends up the last child of its new parent (or
      with no parent), the siblings it leaves close up, and every other
      node keeps its parent. */
  lemma ReparentMeaning(g: Graph, n: NodeId, p: Option<NodeId>)
    requires Wf(g)
    ensures var r := Reparent(g, n, p);
      Wf(r) && ParentIn(r, n) == p
      && (p.Some? ==> Kids(r, p.value) == Without(Kids(g, p.value), n) + [n])
      && (forall q: NodeId :: p != Some(q) ==> Kids(r, q) == Without(Kids(g, q), n))
      && (forall x :: x != n ==> ParentIn(r, x) == ParentIn(g, x))
  {
    DetachWf(g, n);
    if p.Some? {
      AppendWf(Detach(g, n), n, p.value);
    }
  }

  /** Moving a child: its parent's list is the list without it, with it
      put in the slot `k` names, where it then sits; nothing else
      changes. */
  lemma MoveToMeaning(g: Graph, n: NodeId, k: int)
    requires Wf(g) && n in g.parent
    ensures var r := MoveTo(g, n, k);
      var s := Kids(g, g.parent[n]);
      Wf(r) && r.parent == g.parent
      && Kids(r, g.parent[n]) == InsertAt(Without(s, n), n, Slot(|s| - 1, k))
      && IndexOf(r, n) == Slot(|s| - 1, k)
      && (forall q: NodeId :: q != g.parent[n] ==> Kids(r, q) == Kids(g, q))
  {
    MoveToWf(g, n, k);
    var s := Kids(g, g.parent[n]);
    assert n in s && NoDup(s);
    MoveToList(g, n, k);
  }

  /** The list facts of a move, from the node's own list alone. */
  lemma MoveToList(g: Graph, n: NodeId, k: int)
    requires n in g.parent && n in Kids(g, g.parent[n]) && NoDup(Kids(g, g.parent[n]))
    ensures var r := MoveTo(g, n, k);
      var s := Kids(g, g.parent[n]);
      r.parent == g.parent
      && Kids(r, g.parent[n]) == InsertAt(Without(s, n), n, Slot(|s| - 1, k))
      && IndexOf(r, n) == Slot(|s| - 1, k)
      && (forall q: NodeId :: q != g.parent[n] ==> Kids(r, q) == Kids(g, q))
  {
    var s := Kids(g, g.parent[n]);
    var w := Without(s, n);
    WithoutAt(s, n, Pos(s, n));
    assert |w| == |s| - 1 && n !in w;
    PosInsertAt(w, n, Slot(|w|, k));
  }

  /** A node put into a list that lacks it is found where it was put. */
  lemma PosInsertAt(w: seq<NodeId>, n: NodeId, i: nat)
    requires n !in w && i <= |w|
    ensures Pos(InsertAt(w, n, i), n) == i
  {
    var r := InsertAt(w, n, i);
    assert r[i] == n;
    assert r[..i] == w[..i];
    assert n !in w[..i];
  }

  /** Lifting a node under a layer and taking it out again leaves the
      graph as taking it out at once does. */
  lemma LiftThenDetach(g: Graph, n: NodeId, layer: NodeId)
    requires Wf(g)
    ensures Detach(Reparent(g, n, Some(layer)), n) == Detach(g, n)
  {
    var d := Detach(g, n);
    DetachWf(g, n);
    assert n !in Kids(d, layer);
    AppendDetach(d, n, layer);
  }

  /** Appending a node that is nowhere and taking it out again changes
      nothing. */
  lemma AppendDetach(d: Graph, n: NodeId, layer: NodeId)
    requires n !in d.parent && n !in Kids(d, layer) && (layer in d.children ==> d.children[layer] != [])
    ensures Detach(Append(d, n, layer), n) == d
  {
    WithoutAppend(Kids(d, layer), n);
    var e := Detach(Append(d, n, layer), n);
    assert e.parent == d.parent;
    if Kids(d, layer) == [] {
      assert e.children == d.children;
    } else {
      assert e.children == d.children[layer := Kids(d, layer)];
    }
  }

  /** Taking a node out, appending it to the same parent, and moving it to
      the index it had gives the graph back. */
  lemma AppendMoveBack(g: Graph, n: NodeId)
    requires Wf(g) && n in g.parent
    ensures MoveTo(Append(Detach(g, n), n, g.parent[n]), n, IndexOf(g, n)) == g
  {
    var p := g.parent[n];
    var s := Kids(g, p);
    var w := Without(s, n);
    var b := Append(Detach(g, n), n, p);
    AppendBack(g, n);
    WithoutAt(s, n, Pos(s, n));
    WithoutAppend(w, n);
    InsertAtPos(s, n);
    assert Slot(|w|, IndexOf(g, n)) == IndexOf(g, n);
    assert Without(Kids(b, p), n) == w;
    assert MoveTo(b, n, IndexOf(g, n)) == WithKids(b, p, s);
  }

  /** Taking a node out and appending it to the same parent gives the
      graph back except that the node is now last. */
  lemma AppendBack(g: Graph, n: NodeId)
    requires n in g.parent
    ensures var p := g.parent[n];
      var b := Append(Detach(g, n), n, p);
      b.parent == g.parent && b.children == g.children[p := Without(Kids(g, p), n) + [n]]
  {
    var p := g.parent[n];
    var w := Without(Kids(g, p), n);
    var d := Detach(g, n);
    assert d.parent == g.parent - {n};
    assert d.parent[n := p] == g.parent;
    if w == [] {
      assert d.children == g.children - {p};
    } else {
      assert d.children == g.children[p := w];
    }
    assert Kids(d, p) == w;
  }

  /** The undo of one lift: a node taken from its parent (and put under
      `layer`, when there is one), then put back under that parent and
      moved to the index it had, leaves the whole graph as it was. */
  lemma PutBackUndoes(g: Graph, n: NodeId, layer: Option<NodeId>)
    requires Wf(g) && n in g.parent
    ensures var lifted := if layer.Some? then Reparent(g, n, layer) else g;
      MoveTo(Reparent(lifted, n, Some(g.parent[n])), n, IndexOf(g, n)) == g
  {
    if layer.Some? {
      LiftThenDetach(g, n, layer.value);
    }
    AppendMoveBack(g, n);
  }

  // ---- Taking several nodes out ----

  lemma {:induction false} KeepIn(s: seq<NodeId>, gone: set<NodeId>)
    ensures forall x :: x in Keep(s, gone) <==> x in s && x !in gone
  {
    if s != [] {
      KeepIn(s[1..], gone);
      assert s == [s[0]] + s[1..];
    }
  }

  lemma {:induction false} KeepNoDup(s: seq<NodeId>, gone: set<NodeId>)
    requires NoDup(s)
    ensures NoDup(Keep(s, gone))
  {
    if s != [] {
      assert NoDup(s[1..]);
      KeepNoDup(s[1..], gone);
      if s[0] !in gone {
        assert s[0] !in s[1..];
        KeepIn(s[1..], gone);
        NoDupCons(s[0], Keep(s[1..], gone));
      }
    }
  }

  lemma KeepCons(x: NodeId, t: seq<NodeId>, gone: set<NodeId>)
    ensures Keep([x] + t, gone) == (if x in gone then [] else [x]) + Keep(t, gone)
  {
    assert ([x] + t)[0] == x && ([x] + t)[1..] == t;
  }

  lemma WithoutCons(x: NodeId, t: seq<NodeId>, n: NodeId)
    ensures Without([x] + t, n) == (if x == n then [] else [x]) + Without(t, n)
  {
    assert ([x] + t)[0] == x && ([x] + t)[1..] == t;
  }

  lemma {:induction false} WithoutKeep(s: seq<NodeId>, gone: set<NodeId>, n: NodeId)
    ensures Without(Keep(s, gone), n) == Keep(s, gone + {n})
  {
    if s != [] {
      var k1 := Keep(s[1..], gone);
      WithoutKeep(s[1..], gone, n);
      assert Keep(s, gone + {n}) == (if s[0] == n || s[0] in gone then [] else [s[0]]) + Keep(s[1..], gone + {n});
      if s[0] !in gone {
        assert Keep(s, gone) == [s[0]] + k1;
        WithoutCons(s[0], k1, n);
      } else {
        assert Keep(s, gone) == k1;
      }
    }
  }

  lemma {:induction false} KeepNothing(s: seq<NodeId>)
    ensures Keep(s, {}) == s
  {
    if s != [] {
      KeepNothing(s[1..]);
      assert s == [s[0]] + s[1..];
    }
  }

  /** Two agreeing graphs with the same parents and the same lists are the
      same graph. */
  lemma SameGraph(a: Graph, b: Graph)
    requires Wf(a) && Wf(b) && a.parent == b.parent
    requires forall q :: Kids(a, q) == Kids(b, q)
    ensures a == b
  {
    assert a.children.Keys == b.children.Keys by {
      forall q ensures q in a.children <==> q in b.children {
        assert Kids(a, q) == Kids(b, q);
      }
    }
    forall q | q in a.children ensures a.children[q] == b.children[q] {
      assert Kids(a, q) == Kids(b, q);
    }
  }

  lemma SetOfSnoc(ns: seq<NodeId>, init: seq<NodeId>, last: NodeId)
    requires ns == init + [last]
    ensures Nodes(ns) == Nodes(init) + {last}
  {
  }

  /** Taking the nodes `ns` out leaves every other node's parent, and
      every list without those nodes, in its order. */
  lemma DetachAllMeaning(g: Graph, ns: seq<NodeId>)
    requires Wf(g)
    ensures var r := DetachAll(g, ns);
      Wf(r) && r.parent == g.parent - Nodes(ns)
      && forall q :: Kids(r, q) == Keep(Kids(g, q), Nodes(ns))
  {
    DetachAllWf(g, ns);
    DetachAllParents(g, ns);
    DetachAllKids(g, ns);
  }

  lemma {:induction false} DetachAllWf(g: Graph, ns: seq<NodeId>)
    requires Wf(g)
    ensures Wf(DetachAll(g, ns))
    decreases |ns|
  {
    if ns != [] {
      DetachWf(g, ns[|ns| - 1]);
      DetachAllWf(Detach(g, ns[|ns| - 1]), ns[..|ns| - 1]);
    }
  }

  lemma {:induction false} DetachAllParents(g: Graph, ns: seq<NodeId>)
    ensures DetachAll(g, ns).parent == g.parent - Nodes(ns)
    decreases |ns|
  {
    var S := Nodes(ns);
    if ns == [] {
      assert S == {};
    } else {
      var init, last := ns[..|ns| - 1], ns[|ns| - 1];
      DetachAllParents(Detach(g, last), init);
      assert Detach(g, last).parent == g.parent - {last};
      assert ns == init + [last];
      SetOfSnoc(ns, init, last);
      assert (g.parent - {last}) - Nodes(init) == g.parent - S;
    }
  }

  lemma {:induction false} DetachAllKids(g: Graph, ns: seq<NodeId>)
    requires ListedOk(g)
    ensures forall q :: Kids(DetachAll(g, ns), q) == Keep(Kids(g, q), Nodes(ns))
    decreases |ns|
  {
    var S := Nodes(ns);
    if ns == [] {
      assert S == {};
      forall q ensures Kids(g, q) == Keep(Kids(g, q), S) {
        KeepNothing(Kids(g, q));
      }
    } else {
      var init, last := ns[..|ns| - 1], ns[|ns| - 1];
      var d := Detach(g, last);
      var I := Nodes(init);
      DetachKids(g, last);
      DetachListed(g, last);
      DetachAllKids(d, init);
      assert ns == init + [last];
      SetOfSnoc(ns, init, last);
      forall q ensures Kids(DetachAll(g, ns), q) == Keep(Kids(g, q), S) {
        assert Kids(DetachAll(d, init), q) == Keep(Without(Kids(g, q), last), I);
        KeepCommute(Kids(g, q), last, I);
      }
    }
  }

  lemma {:induction false} KeepCommute(s: seq<NodeId>, n: NodeId, gone: set<NodeId>)
    ensures Keep(Without(s, n), gone) == Keep(s, gone + {n})
  {
    if s != [] {
      var w1 := Without(s[1..], n);
      KeepCommute(s[1..], n, gone);
      assert Keep(s, gone + {n}) == (if s[0] == n || s[0] in gone then [] else [s[0]]) + Keep(s[1..], gone + {n});
      if s[0] != n {
        assert Without(s, n) == [s[0]] + w1;
        KeepCons(s[0], w1, gone);
      } else {
        assert Without(s, n) == w1;
      }
    }
  }

  /** Taking the same nodes out again changes nothing. */
  lemma DetachAllTwice(g: Graph, ns: seq<NodeId>)
    requires Wf(g)
    ensures DetachAll(DetachAll(g, ns), ns) == DetachAll(g, ns)
  {
    var S := Nodes(ns);
    var r := DetachAll(g, ns);
    DetachAllMeaning(g, ns);
    DetachAllMeaning(r, ns);
    var rr := DetachAll(r, ns);
    assert rr.parent == r.parent;
    forall q ensures Kids(rr, q) == Kids(r, q) {
      KeepTwice(Kids(g, q), S);
    }
    SameGraph(rr, r);
  }

  lemma {:induction false} KeepTwice(s: seq<NodeId>, gone: set<NodeId>)
    ensures Keep(Keep(s, gone), gone) == Keep(s, gone)
  {
    if s != [] {
      var k1 := Keep(s[1..], gone);
      KeepTwice(s[1..], gone);
      if s[0] !in gone {
        assert Keep(s, gone) == [s[0]] + k1;
        KeepCons(s[0], k1, gone);
      } else {
        assert Keep(s, gone) == k1;
      }
    }
  }

  /** The nodes of the engine scene that the highlight components touch. */
  class Scene {
    var graph: Graph

    function GetParent(n: NodeId): Option<NodeId> reads this {
      ParentIn(graph, n)
    }

    function GetSiblingIndex(n: NodeId): int reads this {
      IndexOf(graph, n)
    }

    /** `removeFromParent` followed by assigning the parent. */
    method SetParent(n: NodeId, p: Option<NodeId>)
      modifies this
      ensures graph == Reparent(old(graph), n, p)
    {
      graph := Reparent(graph, n, p);
    }

    method SetSiblingIndex(n: NodeId, k: int)
      modifies this
      ensures graph == MoveTo(old(graph), n, k)
    {
      graph := MoveTo(graph, n, k);
    }
  }
}
