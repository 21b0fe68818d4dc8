// The highlight bookkeeping of the finger and camera tutorial components:
// when a step starts, every highlight node's parent and sibling index are
// saved in two parallel lists and the node is lifted onto the tutorial
// layer; when the step completes, the step id is struck from the widget's
// bindings and every node goes back to its saved parent and index.
module GuideHighlight {
  import opened Common
  import SG = SceneGraph
  import GS = GuideSearch
  import GG = GuideGroup
  import GU = GuideUtils

  // ---- Lifting and restoring ----

  /** `addChildToGuideLayer`: with a tutorial layer the node leaves its
      parent and becomes the layer's last child; without one nothing
      happens. */
  function Lift(g: SG.Graph, n: NodeId, layer: Option<NodeId>): SG.Graph {
    if layer.Some? then SG.Reparent(g, n, layer) else g
  }

  /** The scene after lifting the nodes `ns` one after the other. */
  function LiftAll(g: SG.Graph, ns: seq<NodeId>, layer: Option<NodeId>): SG.Graph
    decreases |ns|
  {
    if ns == [] then g
    else Lift(LiftAll(g, ns[..|ns| - 1], layer), ns[|ns| - 1], layer)
  }

  /** The sibling indices read while lifting `ns`: each node's index just
      before its own lift, after the earlier lifts have closed up the
      lists. */
  function SavedIndices(g: SG.Graph, ns: seq<NodeId>, layer: Option<NodeId>): (zs: seq<int>)
    decreases |ns|
    ensures |zs| == |ns|
  {
    if ns == [] then []
    else SavedIndices(g, ns[..|ns| - 1], layer) + [SG.IndexOf(LiftAll(g, ns[..|ns| - 1], layer), ns[|ns| - 1])]
  }

  /** The parents read while lifting `ns`, in the same way. */
  function SavedParents(g: SG.Graph, ns: seq<NodeId>, layer: Option<NodeId>): (ps: seq<Option<NodeId>>)
    decreases |ns|
    ensures |ps| == |ns|
  {
    if ns == [] then []
    else SavedParents(g, ns[..|ns| - 1], layer) + [SG.ParentIn(LiftAll(g, ns[..|ns| - 1], layer), ns[|ns| - 1])]
  }

  /** Entry `k` of a saved list; reading past its end gives nothing. */
  function SavedParentAt(ps: seq<Option<NodeId>>, k: nat): Option<NodeId> {
    if k < |ps| then ps[k] else None
  }

  function SavedOrderAt(zs: seq<int>, k: nat): Option<int> {
    if k < |zs| then Some(zs[k]) else None
  }

  /** The restore as the components write it: node `ns[k]` goes back with
      the `k`-th saved entries, first node first. */
  function RestoredForward(g: SG.Graph, ns: seq<NodeId>, zs: seq<int>, ps: seq<Option<NodeId>>): SG.Graph
    decreases |ns|
  {
    if ns == [] then g
    else
      var k := |ns| - 1;
      GU.Restore(RestoredForward(g, ns[..k], zs, ps), ns[k], SavedOrderAt(zs, k), SavedParentAt(ps, k))
  }

  /** The restore in the order that undoes the lifts: last node first. */
  function RestoredBackward(g: SG.Graph, ns: seq<NodeId>, zs: seq<int>, ps: seq<Option<NodeId>>): SG.Graph
    decreases |ns|
  {
    if ns == [] then g
    else
      var k := |ns| - 1;
      RestoredBackward(GU.Restore(g, ns[k], SavedOrderAt(zs, k), SavedParentAt(ps, k)), ns[..k], zs, ps)
  }

  /** One more lift, read off the scene the earlier lifts left. */
  lemma LiftStep(g: SG.Graph, ns: seq<NodeId>, i: nat, layer: Option<NodeId>)
    requires i < |ns|
    ensures var h := LiftAll(g, ns[..i], layer);
      && LiftAll(g, ns[..i + 1], layer) == Lift(h, ns[i], layer)
      && SavedIndices(g, ns[..i + 1], layer) == SavedIndices(g, ns[..i], layer) + [SG.IndexOf(h, ns[i])]
      && SavedParents(g, ns[..i + 1], layer) == SavedParents(g, ns[..i], layer) + [SG.ParentIn(h, ns[i])]
  {
    assert ns[..i + 1][..i] == ns[..i];
  }

  lemma LiftWf(g: SG.Graph, n: NodeId, layer: Option<NodeId>)
    requires SG.Wf(g)
    ensures SG.Wf(Lift(g, n, layer))
    ensures forall x :: x != n ==> SG.ParentIn(Lift(g, n, layer), x) == SG.ParentIn(g, x)
  {
    if layer.Some? {
      SG.ReparentMeaning(g, n, layer);
    }
  }

  lemma {:induction false} LiftAllWf(g: SG.Graph, ns: seq<NodeId>, layer: Option<NodeId>)
    requires SG.Wf(g)
    ensures SG.Wf(LiftAll(g, ns, layer))
    decreases |ns|
  {
    if ns != [] {
      LiftAllWf(g, ns[..|ns| - 1], layer);
      LiftWf(LiftAll(g, ns[..|ns| - 1], layer), ns[|ns| - 1], layer);
    }
  }

  /** Lifting others leaves a node's parent alone. */
  lemma {:induction false} LiftAllOutside(g: SG.Graph, ns: seq<NodeId>, layer: Option<NodeId>, n: NodeId)
    requires SG.Wf(g) && n !in ns
    ensures SG.ParentIn(LiftAll(g, ns, layer), n) == SG.ParentIn(g, n)
    decreases |ns|
  {
    if ns != [] {
      LiftAllOutside(g, ns[..|ns| - 1], layer, n);
      LiftAllWf(g, ns[..|ns| - 1], layer);
      LiftWf(LiftAll(g, ns[..|ns| - 1], layer), ns[|ns| - 1], layer);
    }
  }

  /** Without repetitions, each saved parent is the node's parent before
      any lift. */
  lemma {:induction false} SavedParentsAt(g: SG.Graph, ns: seq<NodeId>, layer: Option<NodeId>)
    requires SG.Wf(g) && NoDup(ns)
    ensures forall k :: 0 <= k < |ns| ==> SavedParents(g, ns, layer)[k] == SG.ParentIn(g, ns[k])
    decreases |ns|
  {
    if ns != [] {
      var init := ns[..|ns| - 1];
      NoDupPrefix(ns, |ns| - 1);
      SavedParentsAt(g, init, layer);
      assert ns[|ns| - 1] !in init;
      LiftAllOutside(g, init, layer, ns[|ns| - 1]);
    }
  }

  /** One step undone: a node lifted and then restored with the index and
      parent it had just before the lift is back where it was, and the
      whole scene with it. */
  lemma RestoreAfterLift(g: SG.Graph, n: NodeId, layer: Option<NodeId>)
    requires SG.Wf(g)
    ensures GU.Restore(Lift(g, n, layer), n, Some(SG.IndexOf(g, n)), SG.ParentIn(g, n)) == g
  {
    if n in g.parent {
      SG.PutBackUndoes(g, n, layer);
    } else if layer.Some? {
      SG.LiftThenDetach(g, n, layer.value);
    }
  }

  /** The round trip of a step: lifting nodes one after the other and then
      restoring them last to first from what the lifts saved gives back the
      scene exactly, sibling order included. */
  lemma {:induction false} ReverseRestoreUndoesLift(g: SG.Graph, ns: seq<NodeId>, layer: Option<NodeId>, zs: seq<int>, ps: seq<Option<NodeId>>)
    requires SG.Wf(g)
    requires |ns| <= |zs| && |ns| <= |ps|
    requires zs[..|ns|] == SavedIndices(g, ns, layer) && ps[..|ns|] == SavedParents(g, ns, layer)
    ensures RestoredBackward(LiftAll(g, ns, layer), ns, zs, ps) == g
    decreases |ns|
  {
    if ns != [] {
      var k := |ns| - 1;
      var init, last := ns[..k], ns[k];
      var before := LiftAll(g, init, layer);
      LiftAllWf(g, init, layer);
      assert zs[k] == zs[..|ns|][k] == SG.IndexOf(before, last);
      assert ps[k] == ps[..|ns|][k] == SG.ParentIn(before, last);
      RestoreAfterLift(before, last, layer);
      assert zs[..k] == zs[..|ns|][..k] && ps[..k] == ps[..|ns|][..k];
      ReverseRestoreUndoesLift(g, init, layer, zs, ps);
    }
  }

  /** The restore as written does not undo the lifts. Under a parent with
      children [1, 2, 3], lifting 1 and then 2 saves index 0 for both (2
      moved up when 1 left). Putting 1 back at 0 and then 2 at 0 leaves
      [2, 1, 3]. */
  lemma ForwardRestoreSwaps(g: SG.Graph)
    requires g == SG.Graph(map[1 := 0, 2 := 0, 3 := 0], map[0 := [1, 2, 3]])
    ensures var ns, layer := [1, 2], Some(9);
      SG.Wf(g) && SG.Kids(g, 0) == [1, 2, 3]
      && SavedIndices(g, ns, layer) == [0, 0]
      && SG.Kids(RestoredForward(LiftAll(g, ns, layer), ns, SavedIndices(g, ns, layer), SavedParents(g, ns, layer)), 0) == [2, 1, 3]
  {
    SwapLifts(g);
    SwapRestores(LiftAll(g, [1, 2], Some(9)));
  }

  // The steps of that run.

  lemma SwapLifts(g: SG.Graph)
    requires g == SG.Graph(map[1 := 0, 2 := 0, 3 := 0], map[0 := [1, 2, 3]])
    ensures SG.Wf(g) && SG.Kids(g, 0) == [1, 2, 3]
    ensures SavedIndices(g, [1, 2], Some(9)) == [0, 0] && SavedParents(g, [1, 2], Some(9)) == [Some(0), Some(0)]
    ensures var l := LiftAll(g, [1, 2], Some(9));
      SG.Kids(l, 0) == [3] && SG.Kids(l, 9) == [1, 2] && 1 in l.parent && l.parent[1] == 9 && 2 in l.parent && l.parent[2] == 9
  {
    var layer := Some(9);
    var l1 := Lift(g, 1, layer);
    SwapStart(g);
    SwapLiftFirst(g);
    SwapLiftSecond(l1);
    LiftTwo(g, 1, 2, layer);
  }

  /** Lifting two nodes, spelled out. */
  lemma LiftTwo(g: SG.Graph, a: NodeId, b: NodeId, layer: Option<NodeId>)
    ensures LiftAll(g, [a, b], layer) == Lift(Lift(g, a, layer), b, layer)
    ensures SavedIndices(g, [a, b], layer) == [SG.IndexOf(g, a), SG.IndexOf(Lift(g, a, layer), b)]
    ensures SavedParents(g, [a, b], layer) == [SG.ParentIn(g, a), SG.ParentIn(Lift(g, a, layer), b)]
  {
    assert [a, b][..1] == [a] && [a][..0] == [];
    assert LiftAll(g, [a], layer) == Lift(g, a, layer);
  }

  lemma SwapRestores(h: SG.Graph)
    requires SG.Kids(h, 0) == [3] && SG.Kids(h, 9) == [1, 2] && 1 in h.parent && h.parent[1] == 9 && 2 in h.parent && h.parent[2] == 9
    ensures SG.Kids(RestoredForward(h, [1, 2], [0, 0], [Some(0), Some(0)]), 0) == [2, 1, 3]
  {
    var r1 := GU.Restore(h, 1, Some(0), Some(0));
    assert [1, 2][..1] == [1] && [1][..0] == [];
    assert RestoredForward(h, [1], [0, 0], [Some(0), Some(0)]) == r1;
    SwapRestoreFirst(h);
    SwapRestoreSecond(r1);
  }

  lemma SwapStart(g: SG.Graph)
    requires g == SG.Graph(map[1 := 0, 2 := 0, 3 := 0], map[0 := [1, 2, 3]])
    ensures SG.Wf(g) && SG.Kids(g, 0) == [1, 2, 3]
  {
    assert SG.ListsOk(g);
    forall p, n | p in g.children && n in g.children[p] ensures n in g.parent && g.parent[n] == p {
      assert p == 0 && n in [1, 2, 3];
    }
    forall n | n in g.parent ensures g.parent[n] in g.children && n in g.children[g.parent[n]] {
      assert n in {1, 2, 3};
    }
  }

  lemma SwapLiftFirst(g: SG.Graph)
    requires g == SG.Graph(map[1 := 0, 2 := 0, 3 := 0], map[0 := [1, 2, 3]])
    ensures SG.IndexOf(g, 1) == 0
    ensures var l := Lift(g, 1, Some(9));
      SG.Kids(l, 0) == [2, 3] && 2 in l.parent && l.parent[2] == 0 && 1 in l.parent && l.parent[1] == 9
      && SG.Kids(l, 9) == [1]
  {
    assert SG.Without([1, 2, 3], 1) == [2, 3];
  }

  lemma SwapLiftSecond(h: SG.Graph)
    requires SG.Kids(h, 0) == [2, 3] && 2 in h.parent && h.parent[2] == 0 && 1 in h.parent && h.parent[1] == 9
    requires SG.Kids(h, 9) == [1]
    ensures SG.IndexOf(h, 2) == 0
    ensures var l := Lift(h, 2, Some(9));
      SG.Kids(l, 0) == [3] && SG.Kids(l, 9) == [1, 2] && 1 in l.parent && l.parent[1] == 9 && 2 in l.parent && l.parent[2] == 9
  {
    assert SG.Without([2, 3], 2) == [3];
  }

  lemma SwapRestoreFirst(h: SG.Graph)
    requires SG.Kids(h, 0) == [3] && SG.Kids(h, 9) == [1, 2] && 1 in h.parent && h.parent[1] == 9 && 2 in h.parent && h.parent[2] == 9
    ensures var r := GU.Restore(h, 1, Some(0), Some(0));
      SG.Kids(r, 0) == [1, 3] && SG.Kids(r, 9) == [2] && 2 in r.parent && r.parent[2] == 9
  {
    assert SG.Without([1, 2], 1) == [2];
    var a := SG.Reparent(h, 1, Some(0));
    assert SG.Kids(a, 0) == [3, 1] && SG.Kids(a, 9) == [2] && a.parent[1] == 0 && a.parent[2] == 9;
    assert SG.Without([3, 1], 1) == [3];
  }

  lemma SwapRestoreSecond(h: SG.Graph)
    requires SG.Kids(h, 0) == [1, 3] && SG.Kids(h, 9) == [2] && 2 in h.parent && h.parent[2] == 9
    ensures SG.Kids(GU.Restore(h, 2, Some(0), Some(0)), 0) == [2, 1, 3]
  {
    assert SG.Without([2], 2) == [];
    var a := SG.Reparent(h, 2, Some(0));
    assert SG.Kids(a, 0) == [1, 3, 2] && a.parent[2] == 0;
    assert SG.Without([1, 3, 2], 2) == [1, 3];
  }

  /** Restoring changes no parent outside the restored nodes, and keeps
      the scene consistent. */
  lemma {:induction false} RestoredOff(g: SG.Graph, ns: seq<NodeId>, zs: seq<int>, ps: seq<Option<NodeId>>)
    requires SG.Wf(g)
    ensures SG.Wf(RestoredBackward(g, ns, zs, ps))
    ensures forall x :: x !in ns ==> SG.ParentIn(RestoredBackward(g, ns, zs, ps), x) == SG.ParentIn(g, x)
    decreases |ns|
  {
    if ns != [] {
      var k := |ns| - 1;
      GU.RestoreMeaning(g, ns[k], SavedOrderAt(zs, k), SavedParentAt(ps, k));
      RestoredOff(GU.Restore(g, ns[k], SavedOrderAt(zs, k), SavedParentAt(ps, k)), ns[..k], zs, ps);
      forall x | x !in ns ensures x !in ns[..k] && x != ns[k] {
      }
    }
  }

  /** Without repetitions, the restore puts each node under its own saved
      parent. */
  lemma {:induction false} RestoredAt(g: SG.Graph, ns: seq<NodeId>, zs: seq<int>, ps: seq<Option<NodeId>>)
    requires SG.Wf(g) && NoDup(ns)
    ensures forall k :: 0 <= k < |ns| ==> SG.ParentIn(RestoredBackward(g, ns, zs, ps), ns[k]) == SavedParentAt(ps, k)
    decreases |ns|
  {
    if ns != [] {
      var k := |ns| - 1;
      var init := ns[..k];
      var g' := GU.Restore(g, ns[k], SavedOrderAt(zs, k), SavedParentAt(ps, k));
      GU.RestoreMeaning(g, ns[k], SavedOrderAt(zs, k), SavedParentAt(ps, k));
      NoDupPrefix(ns, k);
      RestoredAt(g', init, zs, ps);
      assert ns[k] !in init;
      RestoredOff(g', init, zs, ps);
    }
  }

  /** Restoring from emptied lists takes every node out of its parent. */
  lemma {:induction false} RestoredFromNothing(g: SG.Graph, ns: seq<NodeId>)
    ensures RestoredBackward(g, ns, [], []) == SG.DetachAll(g, ns)
    decreases |ns|
  {
    if ns != [] {
      var k := |ns| - 1;
      RestoredFromNothing(SG.Detach(g, ns[k]), ns[..k]);
    }
  }


  // ---- Widget bindings ----

  /** `ids` with its first occurrence of `id` taken out (unchanged when it
      has none). */
  function RemoveFirst(ids: seq<string>, id: string): seq<string> {
    if ids == [] then []
    else if ids[0] == id then ids[1..]
    else [ids[0]] + RemoveFirst(ids[1..], id)
  }

  /** Striking takes out exactly one copy of `id` when there is one, and
      nothing otherwise. */
  lemma {:induction false} RemoveFirstCounts(ids: seq<string>, id: string)
    ensures id in ids ==> multiset(RemoveFirst(ids, id)) == multiset(ids) - multiset{id} && |RemoveFirst(ids, id)| == |ids| - 1
    ensures id !in ids ==> RemoveFirst(ids, id) == ids
  {
    if ids != [] {
      assert ids == [ids[0]] + ids[1..];
      RemoveFirstCounts(ids[1..], id);
    }
  }

  /** Cutting at the first occurrence is the same as `RemoveFirst`. */
  lemma {:induction false} RemoveFirstAt(ids: seq<string>, id: string, i: nat)
    requires i < |ids| && ids[i] == id && id !in ids[..i]
    ensures RemoveFirst(ids, id) == ids[..i] + ids[i + 1..]
    decreases i
  {
    if i > 0 {
      assert ids[1..][i - 1] == id && ids[1..][..i - 1] == ids[..i][1..];
      RemoveFirstAt(ids[1..], id, i - 1);
      assert ids[..i] == [ids[0]] + ids[1..][..i - 1];
      assert ids[i + 1..] == ids[1..][i..];
    }
  }

  /** Striking `id` once from the binding of each of the first `j` widgets
      of `ks` in turn: the bindings afterwards and how many of them held
      `id`. */
  function Splice(g: map<string, GS.GuideTarget>, ks: seq<string>, id: string, j: nat): (r: (map<string, GS.GuideTarget>, nat))
    requires j <= |ks| && forall k :: k in ks ==> k in g
    ensures r.0.Keys == g.Keys && r.1 <= j
  {
    if j == 0 then (g, 0)
    else
      var prev := Splice(g, ks, id, j - 1);
      var t := prev.0[ks[j - 1]];
      if id in t.guideIds then (prev.0[ks[j - 1] := t.(guideIds := RemoveFirst(t.guideIds, id))], prev.1 + 1)
      else prev
  }

  /** The keys, in order, under which the widgets `ws` of a step are bound:
      the same bindings the group hands out for its current step. */
  function BoundKeys(ws: seq<string>, m: map<string, GS.GuideTarget>): (ks: seq<string>)
    ensures forall k :: k in ks ==> k in m
    ensures var ts := GG.TargetsFor(ws, m); |ks| == |ts| && forall i :: 0 <= i < |ks| ==> m[ks[i]] == ts[i]
  {
    if ws == [] then []
    else (if ws[0] in m then [ws[0]] else []) + BoundKeys(ws[1..], m)
  }

  // ---- The components ----

  /** The part of the state a completion restores: the scene, the saved
      lists and whether the component shows. */
  datatype Marks = Marks(graph: SG.Graph, zIndex: seq<int>, parents: seq<Option<NodeId>>, active: bool)

  /** The state of a completion's loop once it has handled the first `j`
      widgets of `ks`, starting from bindings `g0` and marks `m0`: the
      bindings `g` are struck that far, and the marks `m` are restored and
      cleared once for every binding that held the step. */
  ghost predicate Struck(g: map<string, GS.GuideTarget>, m: Marks, g0: map<string, GS.GuideTarget>, m0: Marks,
                         ks: seq<string>, id: string, ns: seq<NodeId>, j: nat, resolved: bool)
  {
    j <= |ks| && (forall k :: k in ks ==> k in g0)
    && g == Splice(g0, ks, id, j).0
    && (resolved <==> Splice(g0, ks, id, j).1 > 0)
    && m == ClearedN(m0, ns, Splice(g0, ks, id, j).1)
  }

  /** Restoring the nodes `ns` from the saved lists, emptying the lists and
      hiding the component. */
  function Cleared(m: Marks, ns: seq<NodeId>): (r: Marks)
    ensures r.zIndex == [] && r.parents == [] && !r.active
  {
    Marks(RestoredBackward(m.graph, ns, m.zIndex, m.parents), [], [], false)
  }

  /** The marks after `h` restores in a row. */
  function ClearedN(m: Marks, ns: seq<NodeId>, h: nat): Marks {
    if h == 0 then m else Cleared(ClearedN(m, ns, h - 1), ns)
  }

  /** One restore puts the nodes back from the saved lists; any further
      one finds the lists empty, so it takes the nodes out of their
      parents. The scene stays consistent throughout. */
  lemma {:induction false} ClearedNMeaning(m: Marks, ns: seq<NodeId>, h: nat)
    requires h >= 1 && SG.Wf(m.graph)
    ensures SG.Wf(ClearedN(m, ns, h).graph)
    ensures h == 1 ==> ClearedN(m, ns, h) == Cleared(m, ns)
    ensures h >= 2 ==> ClearedN(m, ns, h) == Marks(SG.DetachAll(RestoredBackward(m.graph, ns, m.zIndex, m.parents), ns), [], [], false)
    decreases h
  {
    var r := RestoredBackward(m.graph, ns, m.zIndex, m.parents);
    RestoredOff(m.graph, ns, m.zIndex, m.parents);
    if h >= 2 {
      var prev := ClearedN(m, ns, h - 1);
      ClearedNMeaning(m, ns, h - 1);
      RestoredFromNothing(prev.graph, ns);
      SG.DetachAllMeaning(prev.graph, ns);
      if h > 2 {
        SG.DetachAllTwice(r, ns);
      }
    }
  }

  /** The two components that share this bookkeeping. */
  datatype Kind = Finger | Camera

  /** How a completion settles: it resolves, rejects, or never settles. */
  datatype Outcome = Resolved | Rejected | Pending

  /** What a component asks of the tutorial manager afterwards. */
  datatype Then = Nothing | Continue | SkipAll

  class GuideComponent {
    const kind: Kind
    const scene: SG.Scene
    /** Whether the component's node is shown. */
    var active: bool
    /** The id of the step stored at its start. */
    var guideId: Option<string>
    /** The widgets of the step, as keys of the target index; absent until
        a step is stored. */
    var targets: Option<seq<string>>
    /** The step's highlight nodes; absent when none were collected. */
    var lights: Option<seq<NodeId>>
    /** Saved sibling indices and parents, one pair per lifted node. */
    var zIndex: seq<int>
    var parents: seq<Option<NodeId>>
    /** Finger only: the completion has run for this step. */
    var clicked: bool
    /** Finger only: a click is accepted. */
    var canClick: bool
    /** Finger only: how many times the pointing animation has ended. */
    var repeatCount: nat

    ghost predicate Valid() reads this, scene {
      |zIndex| == |parents| && (targets.Some? ==> guideId.Some?) && SG.Wf(scene.graph)
    }

    /** The state after loading: nothing saved, no click pending. */
    constructor (kind: Kind, scene: SG.Scene, active: bool)
      requires SG.Wf(scene.graph)
      ensures Valid() && this.kind == kind && this.scene == scene && this.active == active
      ensures zIndex == [] && parents == [] && !clicked && !canClick && repeatCount == 0
      ensures guideId == None && targets == None && lights == None
    {
      this.kind := kind;
      this.scene := scene;
      this.active := active;
      guideId := None;
      targets := None;
      lights := None;
      zIndex := [];
      parents := [];
      clicked := false;
      canClick := false;
      repeatCount := 0;
    }

    /** Whether a completion rejects at once. */
    predicate Rejects() reads this {
      (kind == Finger && clicked) || targets.None? || lights.None?
    }

    /** Every stored widget is still bound in the index. */
    predicate Bound(search: GS.GuideSearch) reads this, search {
      targets.Some? ==> forall k :: k in targets.value ==> k in search.guideTargets
    }

    /** The number of stored widgets whose binding holds the stored step. */
    function Hits(search: GS.GuideSearch): nat
      reads this, scene, search
      requires Valid() && Bound(search) && targets.Some?
    {
      Splice(search.guideTargets, targets.value, guideId.value, |targets.value|).1
    }

    /** A completion resolves. */
    predicate WouldResolve(search: GS.GuideSearch)
      reads this, scene, search
      requires Valid() && Bound(search)
    {
      !Rejects() && Hits(search) > 0
    }

    /** How a completion started now settles. */
    function OutcomeOf(search: GS.GuideSearch): Outcome
      reads this, scene, search
      requires Valid() && Bound(search)
    {
      if Rejects() then Rejected else if WouldResolve(search) then Resolved else Pending
    }

    /** What a completion leaves behind, from the state it started in:
        it rejects exactly when the finger already ran or nothing is
        stored, and then nothing changes; otherwise the step is struck once
        from every stored binding that holds it, and it resolves exactly
        when one did. Resolving empties the saved lists; with one such
        binding the nodes go back from the lists, and with more the later
        restores find the lists empty and take the nodes out of their
        parents. A completion that does not resolve leaves the scene and
        the lists alone. */
    twostate predicate Completed(search: GS.GuideSearch, outcome: Outcome)
      reads this, scene, search
      requires old(Valid() && Bound(search))
    {
      (outcome == Rejected <==> old(Rejects()))
      && (outcome == Resolved <==> old(WouldResolve(search)))
      && (outcome == Rejected ==> clicked == old(clicked) && search.guideTargets == old(search.guideTargets))
      && (outcome != Rejected ==>
            (kind == Finger ==> clicked) && (kind == Camera ==> clicked == old(clicked))
            && search.guideTargets == Splice(old(search.guideTargets), old(targets).value, old(guideId).value, |old(targets).value|).0)
      && (outcome == Resolved ==> zIndex == [] && parents == [])
      && (outcome == Resolved && old(Hits(search)) == 1 ==>
            scene.graph == RestoredBackward(old(scene.graph), old(lights).value, old(zIndex), old(parents)))
      && (outcome == Resolved && old(Hits(search)) >= 2 ==>
            scene.graph == SG.DetachAll(RestoredBackward(old(scene.graph), old(lights).value, old(zIndex), old(parents)), old(lights).value))
      && (outcome != Resolved ==> scene.graph == old(scene.graph) && zIndex == old(zIndex) && parents == old(parents))
    }

    /** Starting a step: the finger clears its click state, then the step's
        id, widgets and highlight nodes are stored and the nodes lifted. */
    method ExecGuide(id: string, ws: seq<string>, ls: Option<seq<NodeId>>, layer: Option<NodeId>)
      requires Valid() && (ws != [] ==> ls.Some?)
      modifies this, scene
      ensures Valid() && guideId == Some(id) && targets == Some(ws) && lights == ls
      ensures kind == Finger ==> !clicked && !canClick && repeatCount == 0
      ensures kind == Camera ==> clicked == old(clicked) && canClick == old(canClick) && repeatCount == old(repeatCount)
      ensures var ns := if ws != [] then ls.value else [];
        zIndex == old(zIndex) + SavedIndices(old(scene.graph), ns, layer)
        && parents == old(parents) + SavedParents(old(scene.graph), ns, layer)
        && scene.graph == LiftAll(old(scene.graph), ns, layer)
      ensures active == old(active)
    {
      if kind == Finger {
        repeatCount := 0;
        canClick := false;
        clicked := false;
      }
      guideId := Some(id);
      targets := Some(ws);
      lights := ls;
      AddLightTargetsToGuideLayer(layer);
      LiftAllWf(old(scene.graph), if ws != [] then ls.value else [], layer);
    }

    /** Saves each highlight node's parent and sibling index, in order, and
        lifts it onto the layer; only when the step has widgets. */
    method AddLightTargetsToGuideLayer(layer: Option<NodeId>)
      requires |zIndex| == |parents| && targets.Some? && (targets.value != [] ==> lights.Some?)
      modifies this`zIndex, this`parents, scene
      ensures |zIndex| == |parents|
      ensures var ns := if targets.value != [] then lights.value else [];
        zIndex == old(zIndex) + SavedIndices(old(scene.graph), ns, layer)
        && parents == old(parents) + SavedParents(old(scene.graph), ns, layer)
        && scene.graph == LiftAll(old(scene.graph), ns, layer)
    {
      if targets.value != [] {
        var ns := lights.value;
        ghost var g0, z0, p0 := scene.graph, zIndex, parents;
        var i := 0;
        while i < |ns|
          invariant 0 <= i <= |ns| && Lifted(g0, z0, p0, ns, i, layer)
        {
          LiftNext(g0, z0, p0, ns, i, layer);
          i := i + 1;
        }
        assert ns[..|ns|] == ns;
      }
    }

    /** The lifting loop after `i` nodes of `ns`, from scene `g0` and
        saved lists `z0` and `p0`. */
    ghost predicate Lifted(g0: SG.Graph, z0: seq<int>, p0: seq<Option<NodeId>>, ns: seq<NodeId>, i: nat, layer: Option<NodeId>)
      reads this, scene
      requires i <= |ns|
    {
      && zIndex == z0 + SavedIndices(g0, ns[..i], layer)
      && parents == p0 + SavedParents(g0, ns[..i], layer)
      && scene.graph == LiftAll(g0, ns[..i], layer)
    }

    /** One round of the lifting loop: node `ns[i]`'s parent and sibling
        index are saved, then it is lifted. */
    method LiftNext(ghost g0: SG.Graph, ghost z0: seq<int>, ghost p0: seq<Option<NodeId>>, ns: seq<NodeId>, i: nat, layer: Option<NodeId>)
      requires i < |ns| && Lifted(g0, z0, p0, ns, i, layer)
      modifies this`zIndex, this`parents, scene
      ensures Lifted(g0, z0, p0, ns, i + 1, layer)
    {
      var n := ns[i];
      LiftStep(g0, ns, i, layer);
      ghost var sz, sp := SavedIndices(g0, ns[..i], layer), SavedParents(g0, ns[..i], layer);
      parents := parents + [scene.GetParent(n)];
      zIndex := zIndex + [scene.GetSiblingIndex(n)];
      assert parents == p0 + (sp + [SG.ParentIn(old(scene.graph), n)]);
      assert zIndex == z0 + (sz + [SG.IndexOf(old(scene.graph), n)]);
      if layer.Some? {
        scene.SetParent(n, layer);
      }
    }

    /** Strikes the first occurrence of `id` from the binding of widget `k`
        and tells whether there was one. */
    method SpliceGuideId(search: GS.GuideSearch, k: string, id: string) returns (hit: bool)
      requires k in search.guideTargets
      modifies search`guideTargets
      ensures hit <==> id in old(search.guideTargets[k].guideIds)
      ensures var t := old(search.guideTargets[k]);
        search.guideTargets == if hit then old(search.guideTargets)[k := t.(guideIds := RemoveFirst(t.guideIds, id))]
                               else old(search.guideTargets)
    {
      var t := search.guideTargets[k];
      var ids := t.guideIds;
      var i := 0;
      hit := false;
      while i < |ids| && !hit
        invariant 0 <= i <= |ids|
        invariant !hit ==> id !in ids[..i]
        invariant hit ==> i < |ids| && ids[i] == id && id !in ids[..i]
        invariant search.guideTargets == old(search.guideTargets)
        decreases |ids| - i, !hit
      {
        if ids[i] == id {
          hit := true;
        } else {
          assert ids[..i + 1] == ids[..i] + [ids[i]];
          i := i + 1;
        }
      }
      if hit {
        RemoveFirstAt(ids, id, i);
        search.guideTargets := search.guideTargets[k := t.(guideIds := ids[..i] + ids[i + 1..])];
      } else {
        assert ids[..|ids|] == ids;
      }
    }

    /** Puts the saved pairs back, last node first: node `ns[k]` under
        `parents[k]` at index `zIndex[k]`; a node past the end of the lists
        is taken out of its parent. */
    method RestoreLights(ns: seq<NodeId>)
      modifies scene
      ensures scene.graph == RestoredBackward(old(scene.graph), ns, zIndex, parents)
    {
      var i := |ns|;
      assert ns[..i] == ns;
      while i > 0
        invariant 0 <= i <= |ns|
        invariant RestoredBackward(scene.graph, ns[..i], zIndex, parents) == RestoredBackward(old(scene.graph), ns, zIndex, parents)
      {
        assert ns[..i][..i - 1] == ns[..i - 1];
        GU.RestoreParent(scene, ns[i - 1], SavedOrderAt(zIndex, i - 1), SavedParentAt(parents, i - 1));
        i := i - 1;
      }
    }

    /** Completing the stored step: see `Completed`; a resolving completion
        also hides the component. */
    method CurrentGuideComplete(search: GS.GuideSearch) returns (outcome: Outcome)
      requires Valid() && Bound(search)
      modifies this`clicked, this`zIndex, this`parents, this`active, scene, search`guideTargets
      ensures Valid() && Bound(search)
      ensures Completed(search, outcome)
      ensures active == (old(active) && outcome != Resolved)
    {
      if Rejects() {
        return Rejected;
      }
      if kind == Finger {
        clicked := true;
      }
      ghost var m0 := Marking();
      ghost var h := Hits(search);
      var resolved := StrikeAll(search, targets.value, guideId.value, lights.value);
      if resolved {
        ClearedNMeaning(m0, lights.value, h);
      }
      outcome := if resolved then Resolved else Pending;
    }

    /** What a completion changes besides the bindings. */
    function Marking(): Marks reads this, scene {
      Marks(scene.graph, zIndex, parents, active)
    }

    /** The loop of a completion over the widgets `ks`: each is struck, and
        each whose binding held the step restores the nodes. */
    method StrikeAll(search: GS.GuideSearch, ks: seq<string>, id: string, ns: seq<NodeId>) returns (resolved: bool)
      requires forall k :: k in ks ==> k in search.guideTargets
      requires |zIndex| == |parents|
      modifies this`zIndex, this`parents, this`active, scene, search`guideTargets
      ensures |zIndex| == |parents|
      ensures search.guideTargets == Splice(old(search.guideTargets), ks, id, |ks|).0
      ensures resolved <==> Splice(old(search.guideTargets), ks, id, |ks|).1 > 0
      ensures Marking() == ClearedN(old(Marking()), ns, Splice(old(search.guideTargets), ks, id, |ks|).1)
    {
      ghost var g0, m0 := search.guideTargets, Marking();
      resolved := false;
      var j := 0;
      while j < |ks|
        invariant 0 <= j <= |ks|
        invariant |zIndex| == |parents| && Struck(search.guideTargets, Marking(), g0, m0, ks, id, ns, j, resolved)
      {
        resolved := StrikeOne(search, g0, m0, ks, id, ns, j, resolved);
        j := j + 1;
      }
    }

    /** One widget of a completion: strikes the step from the binding of
        `ks[j]` and, when the binding held it, restores the nodes `ns`,
        empties the saved lists and hides the component. */
    method StrikeOne(search: GS.GuideSearch, ghost g0: map<string, GS.GuideTarget>, ghost m0: Marks, ks: seq<string>, id: string, ns: seq<NodeId>, j: nat, resolved: bool)
      returns (resolved': bool)
      requires j < |ks| && |zIndex| == |parents| && Struck(search.guideTargets, Marking(), g0, m0, ks, id, ns, j, resolved)
      modifies this`zIndex, this`parents, this`active, scene, search`guideTargets
      ensures |zIndex| == |parents| && Struck(search.guideTargets, Marking(), g0, m0, ks, id, ns, j + 1, resolved')
    {
      var hit := SpliceGuideId(search, ks[j], id);
      if hit {
        RestoreLights(ns);
        zIndex := [];
        parents := [];
        active := false;
      }
      resolved' := resolved || hit;
    }

    /** A click on the highlighted widget: ignored until clicks are
        accepted; otherwise clicks stop being accepted and the step is
        completed, the manager continuing when it resolves. */
    method OnClicked(search: GS.GuideSearch) returns (next: Then)
      requires kind == Finger && Valid() && Bound(search)
      modifies this`canClick, this`clicked, this`zIndex, this`parents, this`active, scene, search`guideTargets
      ensures Valid() && Bound(search)
      ensures !old(canClick) ==>
        (next == Nothing && canClick == old(canClick) && clicked == old(clicked)
         && zIndex == old(zIndex) && parents == old(parents) && active == old(active)
         && scene.graph == old(scene.graph) && search.guideTargets == old(search.guideTargets))
      ensures old(canClick) ==>
        !canClick && Completed(search, old(OutcomeOf(search)))
        && active == (old(active) && !old(WouldResolve(search)))
        && (next == Continue <==> old(WouldResolve(search))) && next != SkipAll
    {
      next := Nothing;
      if canClick {
        canClick := false;
        var outcome := CurrentGuideComplete(search);
        if outcome == Resolved {
          next := Continue;
        }
      }
    }

    /** The end of one round of the finger's pointing animation: the first
        one lifts the input blocker and starts accepting clicks. */
    method FingerTweenDone() returns (hideBlock: bool)
      requires kind == Finger
      modifies this`repeatCount, this`canClick
      ensures repeatCount == old(repeatCount) + 1
      ensures hideBlock <==> old(repeatCount) == 0
      ensures canClick == (old(canClick) || old(repeatCount) == 0)
    {
      repeatCount := repeatCount + 1;
      hideBlock := repeatCount == 1;
      if hideBlock {
        canClick := true;
      }
    }

    /** The end of the camera's move: the input blocker goes and the step
        completes, the manager continuing when it resolves. */
    method CameraTweenDone(search: GS.GuideSearch) returns (hideBlock: bool, next: Then)
      requires kind == Camera && Valid() && Bound(search)
      modifies this`clicked, this`zIndex, this`parents, this`active, scene, search`guideTargets
      ensures Valid() && Bound(search)
      ensures hideBlock
      ensures Completed(search, old(OutcomeOf(search)))
      ensures active == (old(active) && !old(WouldResolve(search)))
      ensures next == Continue <==> old(WouldResolve(search))
      ensures next != SkipAll
    {
      hideBlock := true;
      var outcome := CurrentGuideComplete(search);
      next := if outcome == Resolved then Continue else Nothing;
    }

    /** The finger's own completion event, which does not wait for clicks. */
    method OnFingerEvent(search: GS.GuideSearch) returns (next: Then)
      requires kind == Finger && Valid() && Bound(search)
      modifies this`clicked, this`zIndex, this`parents, this`active, scene, search`guideTargets
      ensures Valid() && Bound(search)
      ensures Completed(search, old(OutcomeOf(search)))
      ensures active == (old(active) && !old(WouldResolve(search)))
      ensures next == Continue <==> old(WouldResolve(search))
      ensures next != SkipAll
    {
      var outcome := CurrentGuideComplete(search);
      next := if outcome == Resolved then Continue else Nothing;
    }

    /** Skipping the tutorial: the component hides, the step completes, and
        the manager skips everything whether the completion resolved or
        rejected; a completion that never settles skips nothing. */
    method DoGuideSkip(search: GS.GuideSearch) returns (next: Then)
      requires Valid() && Bound(search)
      modifies this`clicked, this`zIndex, this`parents, this`active, scene, search`guideTargets
      ensures Valid() && Bound(search)
      ensures !active
      ensures Completed(search, old(OutcomeOf(search)))
      ensures next == SkipAll <==> old(Rejects()) || old(WouldResolve(search))
      ensures next != Continue
    {
      active := false;
      var outcome := CurrentGuideComplete(search);
      next := if outcome == Pending then Nothing else SkipAll;
    }
  }

  /** Striking more widgets never lowers the count. */
  lemma {:induction false} SpliceBound(g: map<string, GS.GuideTarget>, ks: seq<string>, id: string, i: nat, j: nat)
    requires i <= j <= |ks| && forall k :: k in ks ==> k in g
    ensures Splice(g, ks, id, i).1 <= Splice(g, ks, id, j).1
    decreases j
  {
    if i < j {
      SpliceBound(g, ks, id, i, j - 1);
    }
  }
}
