// The tutorial target index: screens registered for tutorials, the widgets
// inside them bound to the steps that point at them, and the nodes to
// highlight for each step.
module GuideSearch {
  import opened Common
  import opened GuideAction
  import ST = Stage

  /** A node as a walk sees it: its handle, the id of its widget-id component
      (if it carries one) and its children in sibling order. */
  datatype Tree = Tree(node: NodeId, widget: Option<string>, children: seq<Tree>)

  /** A registered screen: its root node and its highlight scope. */
  datatype Panel = Panel(target: Tree, scope: Scope)

  /** Whether screen `uiId` is registered with the whole screen highlighted. */
  predicate ParentIn(panels: map<string, Panel>, uiId: Option<string>) {
    uiId.Some? && uiId.value in panels && panels[uiId.value].scope == EntirePanel
  }

  /** One callback of a walk: the node, its widget id, its sibling index. */
  datatype Visit = Visit(node: NodeId, widget: Option<string>, index: nat)

  /** The visits of the recursive child walk of `p`, starting at its child
      `i`: each child with its sibling index, then that child's own walk,
      then the next sibling. */
  function Walk(p: Tree, i: nat): seq<Visit>
    decreases p, |p.children| - i
  {
    if i >= |p.children| then []
    else [Visit(p.children[i].node, p.children[i].widget, i)] + Walk(p.children[i], 0) + Walk(p, i + 1)
  }

  function NodesOf(vs: seq<Visit>): (ns: seq<NodeId>)
    ensures |ns| == |vs| && forall k :: 0 <= k < |vs| ==> ns[k] == vs[k].node
  {
    seq(|vs|, k requires 0 <= k < |vs| => vs[k].node)
  }

  /** A widget bound to steps: the node carrying it, its widget id and the
      ids of the steps that list it among their targets, in step order. */
  datatype GuideTarget = GuideTarget(target: Option<NodeId>, targetId: string, guideIds: seq<string>)

  /** What a walk does at each node besides setting its sibling order:
      bind widgets to steps, or collect the highlight nodes of one step. */
  datatype Visitor = StoreTargets(steps: seq<GuideInfo>) | StoreLights(guideId: string, targets: seq<string>)

  /** The index as values: sibling orders, widget bindings, highlight lists. */
  datatype IndexState = IndexState(priority: map<NodeId, int>, bindings: map<string, GuideTarget>, lights: map<string, seq<NodeId>>)

  /** Ids of the steps (in order) whose target list contains `w`. */
  function BoundIds(steps: seq<GuideInfo>, w: string): seq<string>
    decreases |steps|
  {
    if steps == [] then []
    else
      var last := steps[|steps| - 1];
      BoundIds(steps[..|steps| - 1], w) + (if w in last.data.targetId then [last.guideId] else [])
  }

  /** Binding the widget of one node: only a non-empty widget id that some
      step targets and that is not bound yet is added. */
  function BindTarget(b: map<string, GuideTarget>, node: NodeId, widget: Option<string>, steps: seq<GuideInfo>): map<string, GuideTarget> {
    if widget.None? then b
    else
      var ids := BoundIds(steps, widget.value);
      if ids != [] && widget.value !in b && |widget.value| > 0 then b[widget.value := GuideTarget(Some(node), widget.value, ids)]
      else b
  }

  /** Adding a highlight node to the list of step `g`, without repetition. */
  function AddLight(l: map<string, seq<NodeId>>, g: string, n: NodeId): map<string, seq<NodeId>> {
    if g !in l then l[g := [n]]
    else if n in l[g] then l
    else l[g := l[g] + [n]]
  }

  ghost predicate LightsOk(l: map<string, seq<NodeId>>) {
    forall g :: g in l ==> l[g] != [] && NoDup(l[g])
  }

  /** The callback of a walk at one node. */
  function Callback(st: IndexState, node: NodeId, widget: Option<string>, vis: Visitor): IndexState {
    match vis
    case StoreTargets(steps) => st.(bindings := BindTarget(st.bindings, node, widget, steps))
    case StoreLights(g, targets) =>
      if widget.Some? && widget.value in targets then st.(lights := AddLight(st.lights, g, node)) else st
  }

  /** One visit: set the sibling order, then run the callback. */
  function Apply(st: IndexState, v: Visit, vis: Visitor): IndexState {
    Callback(st.(priority := st.priority[v.node := v.index]), v.node, v.widget, vis)
  }

  function ApplyAll(st: IndexState, vs: seq<Visit>, vis: Visitor): IndexState
    decreases |vs|
  {
    if vs == [] then st else ApplyAll(Apply(st, vs[0], vis), vs[1..], vis)
  }

  /** The walk from child `i` on: that child's visit, the walk below it,
      then the walk from the next child. */
  lemma WalkStep(st: IndexState, p: Tree, i: nat, vis: Visitor)
    requires i < |p.children|
    ensures var c := p.children[i];
      ApplyAll(st, Walk(p, i), vis)
        == ApplyAll(ApplyAll(Apply(st, Visit(c.node, c.widget, i), vis), Walk(c, 0), vis), Walk(p, i + 1), vis)
  {
    var c := p.children[i];
    var v := Visit(c.node, c.widget, i);
    var rest := Walk(c, 0) + Walk(p, i + 1);
    assert Walk(p, i) == [v] + rest;
    assert ([v] + rest)[0] == v && ([v] + rest)[1..] == rest;
    ApplyAllAppend(Apply(st, v, vis), Walk(c, 0), Walk(p, i + 1), vis);
  }

  /** The walk still reaches `goal` once child `i` and its subtree are done. */
  lemma WalkGoal(before: IndexState, after: IndexState, p: Tree, i: nat, vis: Visitor, goal: IndexState)
    requires i < |p.children| && ApplyAll(before, Walk(p, i), vis) == goal
    requires var c := p.children[i];
      after == ApplyAll(Apply(before, Visit(c.node, c.widget, i), vis), Walk(c, 0), vis)
    ensures ApplyAll(after, Walk(p, i + 1), vis) == goal
  {
    WalkStep(before, p, i, vis);
  }

  lemma {:induction false} ApplyAllAppend(st: IndexState, a: seq<Visit>, b: seq<Visit>, vis: Visitor)
    ensures ApplyAll(st, a + b, vis) == ApplyAll(ApplyAll(st, a, vis), b, vis)
    decreases |a|
  {
    if a != [] {
      assert (a + b)[0] == a[0];
      assert (a + b)[1..] == a[1..] + b;
      ApplyAllAppend(Apply(st, a[0], vis), a[1..], b, vis);
    } else {
      assert a + b == b;
    }
  }

  /** The walk is a pre-order walk over sibling order: child `i` is visited
      with index `i`, immediately followed by the visits of its own subtree,
      and the visits from child `i` on are a suffix of the whole walk. */
  lemma {:induction false} WalkPreOrder(p: Tree, i: nat)
    requires i < |p.children|
    ensures var w := Walk(p, 0); var k := |w| - |Walk(p, i)|;
      0 <= k < |w| && w[k] == Visit(p.children[i].node, p.children[i].widget, i)
      && w[k + 1..k + 1 + |Walk(p.children[i], 0)|] == Walk(p.children[i], 0)
      && w[k..] == Walk(p, i)
  {
    WalkSuffix(p, i);
  }

  lemma {:induction false} WalkSuffix(p: Tree, i: nat)
    requires i <= |p.children|
    ensures |Walk(p, i)| <= |Walk(p, 0)|
    ensures Walk(p, 0)[|Walk(p, 0)| - |Walk(p, i)|..] == Walk(p, i)
    decreases i
  {
    if i > 0 {
      WalkSuffix(p, i - 1);
      var c := p.children[i - 1];
      assert Walk(p, i - 1) == [Visit(c.node, c.widget, i - 1)] + Walk(c, 0) + Walk(p, i);
    }
  }

  /** After a walk over distinct nodes, every visited node's sibling order is
      its index among its siblings; nodes not visited keep theirs. */
  lemma {:induction false} WalkStampsIndices(st: IndexState, vs: seq<Visit>, vis: Visitor)
    requires NoDup(NodesOf(vs))
    ensures var r := ApplyAll(st, vs, vis).priority;
      (forall k :: 0 <= k < |vs| ==> vs[k].node in r && r[vs[k].node] == vs[k].index)
      && (forall n :: n !in NodesOf(vs) ==> (n in r <==> n in st.priority) && (n in r ==> r[n] == st.priority[n]))
    decreases |vs|
  {
    if vs != [] {
      var st1 := Apply(st, vs[0], vis);
      assert NodesOf(vs[1..]) == NodesOf(vs)[1..];
      assert NoDup(NodesOf(vs[1..]));
      WalkStampsIndices(st1, vs[1..], vis);
      var r := ApplyAll(st, vs, vis).priority;
      assert vs[0].node !in NodesOf(vs[1..]) by {
        forall k | 0 <= k < |vs[1..]| ensures NodesOf(vs[1..])[k] != vs[0].node {
          assert NodesOf(vs)[k + 1] == vs[1..][k].node;
        }
      }
      forall k | 0 <= k < |vs| ensures vs[k].node in r && r[vs[k].node] == vs[k].index {
        if k > 0 {
          assert vs[k] == vs[1..][k - 1];
        }
      }
      forall n | n !in NodesOf(vs) ensures (n in r <==> n in st.priority) && (n in r ==> r[n] == st.priority[n]) {
        assert n != vs[0].node;
      }
    }
  }

  /** A step id is bound to widget `w` exactly when that step lists `w`. */
  lemma {:induction false} BoundIdsMeaning(steps: seq<GuideInfo>, w: string, x: string)
    ensures x in BoundIds(steps, w) <==> exists s :: s in steps && s.guideId == x && w in s.data.targetId
    decreases |steps|
  {
    if steps != [] {
      var init := steps[..|steps| - 1];
      BoundIdsMeaning(init, w, x);
      assert steps == init + [steps[|steps| - 1]];
      if exists s :: s in steps && s.guideId == x && w in s.data.targetId {
        var s :| s in steps && s.guideId == x && w in s.data.targetId;
        if s != steps[|steps| - 1] {
          assert s in init;
        }
      }
    }
  }

  /** Some visit of `vs` meets widget id `w`. */
  ghost predicate MeetsWidget(vs: seq<Visit>, w: string) {
    exists k :: 0 <= k < |vs| && vs[k].widget == Some(w)
  }

  lemma MeetsWidgetCons(vs: seq<Visit>, w: string)
    requires vs != []
    ensures MeetsWidget(vs, w) <==> vs[0].widget == Some(w) || MeetsWidget(vs[1..], w)
  {
    if MeetsWidget(vs, w) && vs[0].widget != Some(w) {
      var k :| 0 <= k < |vs| && vs[k].widget == Some(w);
      assert vs[1..][k - 1] == vs[k];
    }
    if MeetsWidget(vs[1..], w) {
      var k :| 0 <= k < |vs[1..]| && vs[1..][k].widget == Some(w);
      assert vs[k + 1] == vs[1..][k];
    }
  }

  /** The node of the first visit that meets widget id `w`. */
  ghost function FirstNodeWith(vs: seq<Visit>, w: string): NodeId
    requires MeetsWidget(vs, w)
    decreases |vs|
  {
    MeetsWidgetCons(vs, w);
    if vs[0].widget == Some(w) then vs[0].node else FirstNodeWith(vs[1..], w)
  }

  /** Binding targets during a walk: the highlight lists do not change and an
      existing binding is never replaced; a widget id not bound before is
      bound afterwards exactly when it is non-empty, some step lists it and
      the walk meets it, and then to the first node met with it and to the
      ids of all the steps that list it. */
  lemma {:induction false} WalkBindings(st: IndexState, vs: seq<Visit>, steps: seq<GuideInfo>)
    ensures var r := ApplyAll(st, vs, StoreTargets(steps));
      r.lights == st.lights
      && (forall w :: w in st.bindings ==> w in r.bindings && r.bindings[w] == st.bindings[w])
      && (forall w :: w !in st.bindings ==>
            (w in r.bindings <==> |w| > 0 && BoundIds(steps, w) != [] && MeetsWidget(vs, w)))
      && (forall w :: w !in st.bindings && w in r.bindings ==>
            MeetsWidget(vs, w) && r.bindings[w] == GuideTarget(Some(FirstNodeWith(vs, w)), w, BoundIds(steps, w)))
    decreases |vs|
  {
    var vis := StoreTargets(steps);
    if vs != [] {
      var st1 := Apply(st, vs[0], vis);
      WalkBindings(st1, vs[1..], steps);
      var r := ApplyAll(st, vs, vis);
      assert r == ApplyAll(st1, vs[1..], vis);
      forall w | w !in st.bindings
        ensures w in r.bindings <==> |w| > 0 && BoundIds(steps, w) != [] && MeetsWidget(vs, w)
        ensures w in r.bindings ==>
          MeetsWidget(vs, w) && r.bindings[w] == GuideTarget(Some(FirstNodeWith(vs, w)), w, BoundIds(steps, w))
      {
        MeetsWidgetCons(vs, w);
      }
    }
  }

  /** Step `g` lists node `n` among its highlight nodes. */
  ghost predicate LightIn(l: map<string, seq<NodeId>>, g: string, n: NodeId) {
    g in l && n in l[g]
  }

  /** Some visit of `vs` meets node `n` carrying a widget id in `targets`. */
  ghost predicate MeetsTarget(vs: seq<Visit>, n: NodeId, targets: seq<string>) {
    exists k :: 0 <= k < |vs| && vs[k].node == n && vs[k].widget.Some? && vs[k].widget.value in targets
  }

  lemma MeetsTargetCons(vs: seq<Visit>, n: NodeId, targets: seq<string>)
    requires vs != []
    ensures MeetsTarget(vs, n, targets) <==>
      (vs[0].node == n && vs[0].widget.Some? && vs[0].widget.value in targets) || MeetsTarget(vs[1..], n, targets)
  {
    if MeetsTarget(vs, n, targets) && !(vs[0].node == n && vs[0].widget.Some? && vs[0].widget.value in targets) {
      var k :| 0 <= k < |vs| && vs[k].node == n && vs[k].widget.Some? && vs[k].widget.value in targets;
      assert vs[1..][k - 1] == vs[k];
    }
    if MeetsTarget(vs[1..], n, targets) {
      var k :| 0 <= k < |vs[1..]| && vs[1..][k].node == n && vs[1..][k].widget.Some? && vs[1..][k].widget.value in targets;
      assert vs[k + 1] == vs[1..][k];
    }
  }

  /** Adding a highlight node keeps the lists free of repetition, touches only
      the list of its step, extends that list and adds exactly that node. */
  lemma AddLightMeaning(l: map<string, seq<NodeId>>, g: string, n: NodeId)
    requires LightsOk(l)
    ensures var r := AddLight(l, g, n);
      LightsOk(r)
      && (forall h :: h != g ==> (h in r <==> h in l) && (h in r ==> r[h] == l[h]))
      && g in r && (g in l ==> l[g] <= r[g])
      && (forall m :: LightIn(r, g, m) <==> LightIn(l, g, m) || m == n)
  {
    if g in l && n !in l[g] {
      NoDupAppend(l[g], n);
    }
  }

  /** Collecting the highlight nodes of step `g` during a walk: lists stay
      free of repetition, the bindings and every other step's list stay as
      they were, and a node is in the list of `g` afterwards exactly when it
      was before or the walk met it carrying a widget id that `g` targets. */
  lemma {:induction false} WalkLights(st: IndexState, vs: seq<Visit>, g: string, targets: seq<string>)
    requires LightsOk(st.lights)
    ensures var r := ApplyAll(st, vs, StoreLights(g, targets));
      LightsOk(r.lights) && r.bindings == st.bindings
      && (forall h :: h != g ==> (h in r.lights <==> h in st.lights) && (h in r.lights ==> r.lights[h] == st.lights[h]))
      && (g in st.lights ==> g in r.lights && st.lights[g] <= r.lights[g])
      && (forall n :: LightIn(r.lights, g, n) <==> LightIn(st.lights, g, n) || MeetsTarget(vs, n, targets))
    decreases |vs|
  {
    var vis := StoreLights(g, targets);
    if vs != [] {
      var st1 := Apply(st, vs[0], vis);
      var hit := vs[0].widget.Some? && vs[0].widget.value in targets;
      if hit {
        AddLightMeaning(st.lights, g, vs[0].node);
      }
      WalkLights(st1, vs[1..], g, targets);
      var r := ApplyAll(st, vs, vis);
      assert r == ApplyAll(st1, vs[1..], vis);
      forall n ensures LightIn(r.lights, g, n) <==> LightIn(st.lights, g, n) || MeetsTarget(vs, n, targets) {
        MeetsTargetCons(vs, n, targets);
      }
    }
  }

  class GuideSearch {
    const stage: ST.Stage
    var guideGroup: StepMap?
    var panels: map<string, Panel>
    var guideTargets: map<string, GuideTarget>
    var lightTargets: map<string, seq<NodeId>>

    ghost predicate Valid() reads this {
      LightsOk(lightTargets)
    }

    constructor (stage: ST.Stage)
      ensures Valid() && this.stage == stage && guideGroup == null
      ensures panels == map[] && guideTargets == map[] && lightTargets == map[]
    {
      this.stage := stage;
      guideGroup := null;
      panels := map[];
      guideTargets := map[];
      lightTargets := map[];
    }

    /** The index as values. */
    function State(): IndexState
      reads this, stage
    {
      IndexState(stage.priority, guideTargets, lightTargets)
    }

    predicate IsViewOpen(uiId: Option<string>) reads this {
      uiId.Some? && uiId.value in panels
    }

    predicate IsParentPanel(uiId: Option<string>) reads this {
      ParentIn(panels, uiId)
    }

    method Clear()
      requires Valid()
      modifies this
      ensures Valid() && guideGroup == old(guideGroup)
      ensures panels == map[] && guideTargets == map[] && lightTargets == map[]
    {
      panels := map[];
      guideTargets := map[];
      lightTargets := map[];
    }

    method SetGuideGroup(group: StepMap)
      modifies this
      ensures guideGroup == group
      ensures panels == old(panels) && guideTargets == old(guideTargets) && lightTargets == old(lightTargets)
    {
      guideGroup := group;
    }

    /** Registers a screen and binds the widgets inside it; an already
        registered screen is walked again only for partial highlighting. */
    method AddGuideView(uiId: string, target: Tree, scope: Scope)
      requires Valid() && guideGroup != null && guideGroup.Valid()
      modifies this, stage
      ensures Valid() && guideGroup == old(guideGroup)
      ensures panels == if uiId in old(panels) then old(panels) else old(panels)[uiId := Panel(target, scope)]
      ensures State() == if uiId !in old(panels) || scope == PartialPanel
                         then ApplyAll(old(State()), Walk(target, 0), StoreTargets(guideGroup.Steps()))
                         else old(State())
    {
      if uiId !in panels {
        panels := panels[uiId := Panel(target, scope)];
        assert State() == old(State());
        TraversalChild(target, StoreTargets(guideGroup.Steps()));
      } else if scope == PartialPanel {
        TraversalChild(target, StoreTargets(guideGroup.Steps()));
      }
    }

    /** Unregisters a screen, but only when it is fully highlighted. */
    method RemoveGuideView(uiId: string, scope: Scope)
      modifies this
      ensures panels == if scope == EntirePanel then old(panels) - {uiId} else old(panels)
      ensures guideGroup == old(guideGroup) && guideTargets == old(guideTargets) && lightTargets == old(lightTargets)
    {
      if scope == EntirePanel {
        panels := panels - {uiId};
      }
    }

    /** Collects the highlight nodes of step `guideId`: the screen root for a
        fully highlighted screen, otherwise every node below the root whose
        widget id the step targets. */
    method SearchLightTarget(guideId: string)
      requires Valid() && guideGroup != null && guideGroup.Valid() && guideId in guideGroup.records
      requires IsViewOpen(guideGroup.records[guideId].info.data.uiId)
      modifies this, stage
      ensures Valid() && guideGroup == old(guideGroup) && panels == old(panels)
      ensures var data := guideGroup.records[guideId].info.data;
              var panel := panels[data.uiId.value];
              State() == if panel.scope == EntirePanel
                         then old(State()).(lights := AddLight(old(lightTargets), guideId, panel.target.node))
                         else ApplyAll(old(State()), Walk(panel.target, 0), StoreLights(guideId, data.targetId))
    {
      var data := guideGroup.records[guideId].info.data;
      var panel := panels[data.uiId.value];
      if panel.scope == EntirePanel {
        var _ := AddLightTarget(guideId, Some(panel.target.node));
      } else {
        TraversalChild(panel.target, StoreLights(guideId, data.targetId));
      }
    }

    /** Stores a binding under its widget id unless that id is empty or
        already bound; refuses a missing binding or one without a node. */
    method AddGuideTarget(target: Option<GuideTarget>) returns (ok: bool)
      modifies this
      ensures ok == (target.Some? && target.value.target.Some?)
      ensures guideTargets == if ok && target.value.targetId !in old(guideTargets) && |target.value.targetId| > 0
                              then old(guideTargets)[target.value.targetId := target.value] else old(guideTargets)
      ensures guideGroup == old(guideGroup) && panels == old(panels) && lightTargets == old(lightTargets)
    {
      if target.None? || target.value.target.None? {
        return false;
      }
      var t := target.value;
      if t.targetId !in guideTargets && |t.targetId| > 0 {
        guideTargets := guideTargets[t.targetId := t];
      }
      return true;
    }

    /** Adds a node to the highlight list of a step, without repetition;
        refuses a missing node. */
    method AddLightTarget(guideId: string, target: Option<NodeId>) returns (ok: bool)
      requires Valid()
      modifies this
      ensures Valid() && ok == target.Some?
      ensures lightTargets == if ok then AddLight(old(lightTargets), guideId, target.value) else old(lightTargets)
      ensures guideGroup == old(guideGroup) && panels == old(panels) && guideTargets == old(guideTargets)
    {
      if target.None? {
        return false;
      }
      if guideId !in lightTargets {
        lightTargets := lightTargets[guideId := [target.value]];
      } else {
        var nodes := lightTargets[guideId];
        if target.value !in nodes {
          NoDupAppend(nodes, target.value);
          lightTargets := lightTargets[guideId := nodes + [target.value]];
        }
      }
      return true;
    }

    ghost predicate Fits(vis: Visitor)
      reads this, guideGroup, if guideGroup != null then guideGroup.records.Values else {}
    {
      guideGroup != null && guideGroup.Valid() &&
      match vis
      case StoreTargets(steps) => steps == guideGroup.Steps()
      case StoreLights(g, targets) => g in guideGroup.records && targets == guideGroup.records[g].info.data.targetId
    }

    /** Visits the children of `parent` in sibling order: each gets its index
        as sibling order, then the callback, then the same walk below it. */
    method TraversalChild(parent: Tree, vis: Visitor)
      requires Valid() && Fits(vis)
      modifies this, stage
      ensures Valid() && Fits(vis)
      ensures guideGroup == old(guideGroup) && panels == old(panels)
      ensures State() == ApplyAll(old(State()), Walk(parent, 0), vis)
      decreases parent, 2
    {
      ghost var goal := ApplyAll(State(), Walk(parent, 0), vis);
      var i := 0;
      while i < |parent.children|
        invariant Walking(parent, i, vis, goal)
        invariant guideGroup == old(guideGroup) && panels == old(panels)
      {
        VisitNext(parent, i, vis, goal);
        i := i + 1;
      }
      assert Walk(parent, i) == [];
    }

    /** The loop state of a walk over the children of `parent`: children
        before `i` are done and the rest of the walk still reaches `goal`. */
    ghost predicate Walking(parent: Tree, i: nat, vis: Visitor, goal: IndexState)
      reads this, stage, guideGroup, if guideGroup != null then guideGroup.records.Values else {}
    {
      i <= |parent.children| && Valid() && Fits(vis) && ApplyAll(State(), Walk(parent, i), vis) == goal
    }

    /** One round of the walk over the children of `parent`. */
    method VisitNext(parent: Tree, i: nat, vis: Visitor, ghost goal: IndexState)
      requires i < |parent.children| && Walking(parent, i, vis, goal)
      modifies this, stage
      ensures Walking(parent, i + 1, vis, goal)
      ensures guideGroup == old(guideGroup) && panels == old(panels)
      decreases parent, 1
    {
      ghost var before := State();
      VisitSubtree(parent, i, vis);
      WalkGoal(before, State(), parent, i, vis, goal);
    }

    /** Child `i` of `parent`: its sibling order and callback, then the walk
        below it. */
    method VisitSubtree(parent: Tree, i: nat, vis: Visitor)
      requires i < |parent.children|
      requires Valid() && Fits(vis)
      modifies this, stage
      ensures Valid() && Fits(vis)
      ensures guideGroup == old(guideGroup) && panels == old(panels)
      ensures var c := parent.children[i];
              State() == ApplyAll(Apply(old(State()), Visit(c.node, c.widget, i), vis), Walk(c, 0), vis)
      decreases parent, 0
    {
      var child := parent.children[i];
      VisitChild(child, i, vis);
      TraversalChild(child, vis);
    }

    /** One step of the walk: the sibling order, then the callback. */
    method VisitChild(child: Tree, i: nat, vis: Visitor)
      requires Valid() && Fits(vis)
      modifies this, stage
      ensures Valid() && Fits(vis)
      ensures guideGroup == old(guideGroup) && panels == old(panels)
      ensures State() == Apply(old(State()), Visit(child.node, child.widget, i), vis)
    {
      ghost var st0 := State();
      stage.SetPriority(child.node, i);
      assert Fits(vis);
      assert State() == st0.(priority := st0.priority[child.node := i]);
      if vis.StoreTargets? {
        StorageGuideTarget(child, vis.steps);
      } else {
        StorageLightTarget(vis.guideId, child);
      }
    }

    /** Binds the widget of `node` to every step (in step order) whose
        target list contains its widget id. */
    method StorageGuideTarget(node: Tree, ghost steps: seq<GuideInfo>)
      requires guideGroup != null && guideGroup.Valid() && steps == guideGroup.Steps()
      modifies this
      ensures guideGroup == old(guideGroup) && panels == old(panels) && lightTargets == old(lightTargets)
      ensures guideTargets == BindTarget(old(guideTargets), node.node, node.widget, steps)
    {
      if node.widget.None? {
        return;
      }
      var w := node.widget.value;
      var ids := MatchingSteps(w, steps);
      var flag := ids != [];
      if flag {
        var _ := AddGuideTarget(Some(GuideTarget(Some(node.node), w, ids)));
      }
    }

    /** The ids of the steps, in step order, whose target list contains the
        widget id `w`. */
    method MatchingSteps(w: string, ghost steps: seq<GuideInfo>) returns (ids: seq<string>)
      requires guideGroup != null && guideGroup.Valid() && steps == guideGroup.Steps()
      ensures ids == BoundIds(steps, w)
    {
      var keys := guideGroup.keys;
      ids := [];
      var j := 0;
      assert |steps| == |keys|;
      while j < |keys|
        invariant 0 <= j <= |keys|
        invariant ids == BoundIds(steps[..j], w)
      {
        var action := guideGroup.records[keys[j]];
        assert steps[j] == action.info;
        assert steps[..j + 1][..j] == steps[..j] && steps[..j + 1][j] == steps[j];
        if w in action.info.data.targetId {
          ids := ids + [action.info.guideId];
        }
        j := j + 1;
      }
      assert steps[..|keys|] == steps;
    }

    /** Adds `node` to the highlight list of step `guideId` when its widget id
        is one of the step's targets. */
    method StorageLightTarget(guideId: string, node: Tree)
      requires Valid() && guideGroup != null && guideGroup.Valid() && guideId in guideGroup.records
      modifies this
      ensures Valid() && guideGroup == old(guideGroup) && panels == old(panels) && guideTargets == old(guideTargets)
      ensures State() == Callback(old(State()), node.node, node.widget,
                                  StoreLights(guideId, guideGroup.records[guideId].info.data.targetId))
    {
      if node.widget.None? {
        return;
      }
      var targets := guideGroup.records[guideId].info.data.targetId;
      var j := 0;
      while j < |targets|
        invariant 0 <= j <= |targets|
        invariant unchanged(this)
        invariant node.widget.value !in targets[..j]
      {
        if targets[j] == node.widget.value {
          var _ := AddLightTarget(guideId, Some(node.node));
          return;
        }
        assert targets[..j + 1] == targets[..j] + [targets[j]];
        j := j + 1;
      }
      assert targets[..j] == targets;
    }
  }
}
