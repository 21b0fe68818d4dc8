// The tutorial step sequencer of one tutorial group: its records, its
// flags, the pool of spare records, and the events it emits. Both engine
// variants are modelled; they differ only in when a step may start.
module GuideGroup {
  import opened Common
  import opened GuideAction
  import opened ObjectPool
  import GS = GuideSearch
  import ST = Stage

  /** Which start rule the group follows. `Zest`: dialogue, image and
      animation steps start at once, other steps when their screen is open,
      and a step on the same screen as the previous one starts at once.
      `Cck`: every step starts only when its screen is open. */
  datatype StartRule = Zest | Cck

  /** Events the group emits, in emission order. */
  datatype Event =
    | ShowGuideView
    | ShowGuideMask(arg: Option<string>)
    | SyncToStorage(id: string)
    | GuideComplete(id: string)
    | GuideStart(id: string)
    | HideGuideMask
    | GuideOver(overId: Option<string>)

  /** One entry of a group's configuration object, in key order. */
  datatype Entry = Entry(key: string, info: GuideInfo)

  ghost predicate DistinctKeys(data: seq<Entry>) {
    forall i, j :: 0 <= i < j < |data| ==> data[i].key != data[j].key
  }

  function KeysOf(data: seq<Entry>): (ks: seq<string>)
    ensures |ks| == |data| && forall i :: 0 <= i < |data| ==> ks[i] == data[i].key
  {
    seq(|data|, i requires 0 <= i < |data| => data[i].key)
  }

  /** The argument of the mask event when `info` starts. */
  function MaskArg(rule: StartRule, info: GuideInfo): Option<string> {
    match rule
    case Zest => info.data.uiId
    case Cck => if |info.data.targetId| > 0 then Some(info.data.targetId[0]) else None
  }

  /** The events of a step start: show the mask, then announce the step. */
  function StartEvents(rule: StartRule, info: GuideInfo): seq<Event> {
    [ShowGuideMask(MaskArg(rule, info)), GuideStart(info.guideId)]
  }

  /** No event of `es` asks to store a recovery id. */
  predicate SyncFree(es: seq<Event>) {
    forall i :: 0 <= i < |es| ==> !es[i].SyncToStorage?
  }

  /** Whether a start attempt starts `info` now; `open` tells whether its
      screen is registered. */
  predicate CanStart(rule: StartRule, info: GuideInfo, open: bool) {
    (rule.Zest? && NeedsNoScreen(info.guideType)) || open
  }

  /** Whether the next step runs on another screen than the last one. The
      second variant reads a missing screen id like an empty one. */
  predicate Switched(rule: StartRule, last: Option<string>, ui: Option<string>) {
    match rule
    case Zest => last.Some? && last != ui
    case Cck => last.Some? && |last.value| > 0 && last != ui
  }

  /** What continuing to a valid next step does. */
  datatype Decision = Start | Defer | Stall

  function ContinueDecision(rule: StartRule, last: Option<string>, info: GuideInfo, open: bool): (d: Decision)
    ensures d == Start ==> (!Switched(rule, last, info.data.uiId) && rule.Zest?) || CanStart(rule, info, open)
    ensures d == Stall ==> rule.Cck? && !open
  {
    match rule
    case Zest =>
      if !Switched(rule, last, info.data.uiId) then Start
      else if CanStart(rule, info, open) then Start else Defer
    case Cck =>
      if !Switched(rule, last, info.data.uiId) then (if open then Start else Stall)
      else if open then Start else Defer
  }

  /** On the same screen the first variant never defers and the second only
      starts when the screen is open; after a screen switch both defer
      exactly when the step could not start. */
  lemma {:induction false} ContinueDecisionRules(rule: StartRule, last: Option<string>, info: GuideInfo, open: bool)
    ensures var d := ContinueDecision(rule, last, info, open);
      (!Switched(rule, last, info.data.uiId) ==> d != Defer && (rule.Zest? ==> d == Start) && (rule.Cck? ==> (d == Start <==> open)))
      && (Switched(rule, last, info.data.uiId) ==> (d == Defer <==> !CanStart(rule, info, open)) && d != Stall)
  {
    match rule
    case Zest =>
    case Cck =>
  }

  /** The first variant compares with any previous screen id, the second
      ignores an empty one; otherwise they agree. */
  lemma SwitchedAgree(last: Option<string>, ui: Option<string>)
    ensures Switched(Cck, last, ui) ==> Switched(Zest, last, ui)
    ensures Switched(Zest, last, ui) && last != Some("") ==> Switched(Cck, last, ui)
  {
  }

  /** The flags and fields of a group, as one value. */
  datatype Flags = Flags(close: bool, launched: bool, guiding: bool, againExecute: bool,
                         lastUiId: Option<string>, current: GuideAction?, trace: seq<Event>)

  /** How a launch from a recovery id proceeds. */
  datatype LaunchPlan = Ignored | FinishAt | ResumeAfter(next: string) | StartFirst

  class GuideGroup {
    const rule: StartRule
    const search: GS.GuideSearch
    const group: StepMap
    const pool: CCObjectPool<GuideAction>
    var close: bool
    var launched: bool
    var guiding: bool
    var againExecute: bool
    var lastUiId: Option<string>
    var current: GuideAction?
    var trace: seq<Event>

    ghost predicate Valid()
      reads group, pool, search
    {
      group.Valid() && pool.Valid() && search.Valid()
      && NoDup(pool.elems + group.Values())
      && (search.guideGroup == null || search.guideGroup == group)
    }

    /** Whether the group holds steps. The flag of the source is set to
        exactly this whenever the group changes, so it is derived here. */
    predicate IsValid() reads group {
      |group.keys| > 0
    }

    /** The records the group owns: the pooled ones and the group's. */
    ghost function Repr(): seq<GuideAction>
      reads group, pool
      requires group.Valid()
    {
      pool.elems + group.Values()
    }

    ghost function St(): Flags reads this {
      Flags(close, launched, guiding, againExecute, lastUiId, current, trace)
    }

    constructor (rule: StartRule, search: GS.GuideSearch)
      requires search.Valid() && search.guideGroup == null
      ensures Valid() && fresh(group) && fresh(pool)
      ensures this.rule == rule && this.search == search && group.keys == [] && pool.elems == []
      ensures St() == Flags(false, false, false, false, Some(""), null, [])
    {
      this.rule := rule;
      this.search := search;
      close := false;
      launched := false;
      againExecute := false;
      lastUiId := Some("");
      guiding := false;
      current := null;
      trace := [];
      group := new StepMap();
      pool := new CCObjectPool(false);
    }

    /** Whether the screen of record `a` is registered. */
    predicate ViewOpen(a: GuideAction) reads search, a {
      search.IsViewOpen(a.info.data.uiId)
    }

    /** The first record in key order, if any. */
    function FirstGuideAction(): (a: GuideAction?)
      reads group
      requires group.Valid()
      ensures a == null <==> |group.keys| == 0
      ensures a != null ==> a == group.records[group.keys[0]] && a in group.Values()
    {
      if |group.keys| == 0 then null else group.records[group.keys[0]]
    }

    /** Whether a launch or an open from recovery id `id` has a step to run:
        yes for no recovery id, for a known step that has a next step, and
        for an unknown id when the group has steps. */
    function HasGuideAction(id: string): bool
      reads group, group.records.Values
      requires group.Valid()
    {
      if |id| == 0 then true
      else if id in group.records then |group.records[id].info.syncId| != 0
      else |group.keys| > 0
    }

    ghost function PlanLaunch(id: string): LaunchPlan
      reads this, group, group.records.Values
    {
      if !IsValid() || close then Ignored
      else if id in group.records then
        (if |group.records[id].info.syncId| > 0 then ResumeAfter(group.records[id].info.syncId) else FinishAt)
      else StartFirst
    }

    /** For a non-empty id on an open tutorial, the query answers whether a
        launch from that id starts a step rather than finishing the group or
        doing nothing. */
    lemma HasGuideActionPredictsLaunch(id: string)
      requires Valid() && !close && |id| > 0
      ensures HasGuideAction(id) <==> (PlanLaunch(id).ResumeAfter? || PlanLaunch(id).StartFirst?)
    {
      if id in group.records {
        assert id in group.keys;
      }
    }

    /** The bindings of the current step's widget ids that the index holds,
        in the step's order. */
    function GuideTargets(): (ts: seq<GS.GuideTarget>)
      reads this, current, search
      requires current != null
      ensures forall t :: t in ts ==> exists w :: w in current.info.data.targetId && w in search.guideTargets && search.guideTargets[w] == t
      ensures forall w :: w in current.info.data.targetId && w in search.guideTargets ==> search.guideTargets[w] in ts
      ensures (forall w :: w in current.info.data.targetId ==> w in search.guideTargets) ==>
        |ts| == |current.info.data.targetId| && forall i :: 0 <= i < |ts| ==> ts[i] == search.guideTargets[current.info.data.targetId[i]]
    {
      TargetsFor(current.info.data.targetId, search.guideTargets)
    }

    /** The highlight nodes collected for the current step, if any. */
    function LightTargets(): (ns: Option<seq<NodeId>>)
      reads this, current, search
      requires current != null
      ensures ns.Some? <==> current.info.guideId in search.lightTargets
      ensures ns.Some? ==> ns.value == search.lightTargets[current.info.guideId]
    {
      if current.info.guideId in search.lightTargets then Some(search.lightTargets[current.info.guideId]) else None
    }

    /** Puts every record back into the pool and forgets the group. */
    method ReleaseAll()
      requires group.Valid() && pool.Valid() && NoDup(pool.elems + group.Values())
      modifies group, pool
      ensures group.Valid() && group.keys == [] && group.records == map[]
      ensures pool.Valid() && pool.elems == old(pool.elems) + old(group.Values())
      ensures pool.handlerActive == old(pool.handlerActive)
    {
      if group.Size() == 0 {
        return;
      }
      var vals := group.Values();
      ghost var p0 := pool.elems;
      var i := 0;
      while i < |vals|
        invariant 0 <= i <= |vals|
        invariant pool.Valid() && pool.elems == p0 + vals[..i]
        invariant pool.handlerActive == old(pool.handlerActive)
        invariant group.Valid() && group.Values() == vals
      {
        NoDupNext(p0, vals, i);
        pool.Put(Some(vals[i]));
        assert vals[..i + 1] == vals[..i] + [vals[i]];
        i := i + 1;
      }
      assert vals[..i] == vals;
      group.Clear();
    }

    /** Replaces the current record, invalidating the one it replaces. */
    method SetCurrentGuide(a: GuideAction?)
      modifies this, current
      ensures current == a
      ensures old(current) != null ==> !old(current).valid && old(current).info == old(current.info)
      ensures close == old(close) && launched == old(launched) && guiding == old(guiding)
      ensures againExecute == old(againExecute) && lastUiId == old(lastUiId) && trace == old(trace)
    {
      if current != null {
        current.SetIsValid(false);
      }
      current := a;
    }

    /** Whether the current record exists and is still valid. */
    predicate JudgeCurrentGuide() reads this, current {
      current != null && current.valid
    }

    /** Loads a group configuration: the previous records go back to the pool,
        each entry reuses the most recently pooled record or gets a new one,
        and every record of the new group holds its entry and is valid. */
    method InitGuideGroup(data: seq<Entry>)
      requires Valid() && DistinctKeys(data)
      modifies this, group, pool, search, Repr()
      ensures Valid()
      ensures IsValid() == (|data| > 0)
      ensures St() == old(St()).(close := false, launched := false, againExecute := false, lastUiId := Some(""))
      ensures search.guideGroup == group && search.panels == old(search.panels)
      ensures search.guideTargets == old(search.guideTargets) && search.lightTargets == old(search.lightTargets)
      ensures Loaded(data, old(pool.elems) + old(group.Values()))
      ensures forall i :: |old(pool.elems) + old(group.Values())| <= i < |group.Values()| ==> fresh(group.Values()[i])
    {
      Reset();
      ghost var p1 := pool.elems + group.Values();
      Reload(data);
      assert Loaded(data, p1);
    }

    /** Clears the per-run flags; the last screen becomes the empty id. */
    method Reset()
      modifies this`close, this`launched, this`againExecute, this`lastUiId
      ensures St() == old(St()).(close := false, launched := false, againExecute := false, lastUiId := Some(""))
    {
      close := false;
      launched := false;
      againExecute := false;
      lastUiId := Some("");
    }

    /** The part of `InitGuideGroup` that moves records. */
    method Reload(data: seq<Entry>)
      requires Valid() && DistinctKeys(data)
      modifies group, pool, search, Repr()
      ensures Valid()
      ensures search.guideGroup == group && search.panels == old(search.panels)
      ensures search.guideTargets == old(search.guideTargets) && search.lightTargets == old(search.lightTargets)
      ensures Loaded(data, old(pool.elems) + old(group.Values()))
      ensures forall i :: |old(pool.elems) + old(group.Values())| <= i < |group.Values()| ==> fresh(group.Values()[i])
    {
      ghost var p1 := pool.elems + group.Values();
      // The index is handed the same map object whether this happens
      // before or after refilling it.
      search.SetGuideGroup(group);
      ghost var lights := search.lightTargets;
      ReleaseAll();
      assert pool.elems == p1;
      Refill(data);
      assert search.lightTargets == lights;
      assert forall i :: |p1| <= i < |group.Values()| ==> fresh(group.Values()[i]);
    }

    /** The refilling loop of `InitGuideGroup`. */
    method Refill(data: seq<Entry>)
      requires group.Valid() && group.keys == [] && pool.Valid() && DistinctKeys(data)
      modifies group, pool, pool.elems
      ensures group.Valid() && pool.Valid() && NoDup(pool.elems + group.Values())
      ensures Loaded(data, old(pool.elems))
      ensures forall i :: |old(pool.elems)| <= i < |group.Values()| ==> fresh(group.Values()[i])
      ensures pool.handlerActive == old(pool.handlerActive)
    {
      ghost var p1 := pool.elems;
      ghost var vs: seq<GuideAction> := [];
      var j := 0;
      assert KeysOf(data)[..0] == [];
      while j < |data|
        invariant RefillInv(data, j, p1, vs)
        invariant forall i :: |p1| <= i < |vs| ==> fresh(vs[i])
        invariant forall r :: r in pool.elems ==> r in p1
        invariant pool.handlerActive == old(pool.handlerActive)
      {
        vs := RefillStep(data, j, p1, vs);
        j := j + 1;
      }
      RefillDone(data, p1, vs);
    }

    /** The finished loop has loaded the whole configuration. */
    lemma RefillDone(data: seq<Entry>, p1: seq<GuideAction>, vs: seq<GuideAction>)
      requires RefillInv(data, |data|, p1, vs)
      ensures Loaded(data, p1)
    {
      assert KeysOf(data)[..|data|] == KeysOf(data);
      assert AllValid(vs);
      assert InfosOf(vs) == EntryInfos(data);
    }

    /** The group holds the entries of `data` under their keys, in order,
        in valid records that were taken from the top of pool `p1` while it
        lasted. */
    ghost predicate Loaded(data: seq<Entry>, p1: seq<GuideAction>)
      reads group, pool, group.records.Values
      requires group.Valid()
    {
      group.keys == KeysOf(data) && group.Steps() == EntryInfos(data)
      && AllValid(group.Values()) && Reused(p1, pool.elems, group.Values())
    }

    /** The state of the refilling loop after `j` entries: the group holds
        the first `j` entries in records `vs`, taken from the top of pool
        `p1` while it lasted. */
    ghost predicate RefillInv(data: seq<Entry>, j: nat, p1: seq<GuideAction>, vs: seq<GuideAction>)
      reads group, pool, vs
    {
      j <= |data| && DistinctKeys(data) && group.Valid() && pool.Valid()
      && group.keys == KeysOf(data)[..j]
      && group.Values() == vs && NoDup(pool.elems + vs)
      && |vs| == j && (forall i :: 0 <= i < j ==> vs[i].info == data[i].info && vs[i].valid)
      && Reused(p1, pool.elems, vs)
    }

    /** One round of the refilling loop. */
    method RefillStep(data: seq<Entry>, j: nat, ghost p1: seq<GuideAction>, ghost vs: seq<GuideAction>)
      returns (ghost vs': seq<GuideAction>)
      requires RefillInv(data, j, p1, vs) && j < |data|
      modifies group, pool, if |pool.elems| > 0 then {pool.elems[|pool.elems| - 1]} else {}
      ensures RefillInv(data, j + 1, p1, vs')
      ensures vs' == vs + [vs'[j]] && (j >= |p1| ==> fresh(vs'[j]))
      ensures forall r :: r in pool.elems ==> r in old(pool.elems) && unchanged(r)
      ensures pool.handlerActive == old(pool.handlerActive)
    {
      var e := data[j];
      ghost var ks := KeysOf(data);
      assert e.key !in group.keys by {
        forall i | 0 <= i < j ensures group.keys[i] != e.key {
          assert group.keys[i] == ks[i] == data[i].key;
          assert data[i].key != data[j].key;
        }
      }
      ghost var before := pool.elems;
      NoDupDisjoint(before, vs);
      ghost var top: GuideAction? := null;
      if |before| > 0 {
        top := before[|before| - 1];
        assert top in before;
      }
      assert top !in vs;
      var r := PlaceEntry(e, vs);
      if |before| > 0 {
        ReusedStep(p1, before, vs, j);
      } else {
        ReusedFresh(p1, vs, r);
      }
      vs' := vs + [r];
      forall i | 0 <= i < j
        ensures vs[i].info == data[i].info && vs[i].valid
      {
        assert vs[i] in vs;
      }
      PrefixSnoc(ks, j);
      RefillStepped(data, j, p1, vs, r);
    }

    /** The loop state after placing entry `j` in record `r`. */
    lemma RefillStepped(data: seq<Entry>, j: nat, p1: seq<GuideAction>, vs: seq<GuideAction>, r: GuideAction)
      requires j < |data| && DistinctKeys(data) && group.Valid() && pool.Valid()
      requires group.keys == KeysOf(data)[..j] + [data[j].key]
      requires group.Values() == vs + [r] && NoDup(pool.elems + (vs + [r]))
      requires |vs| == j && forall i :: 0 <= i < j ==> vs[i].info == data[i].info && vs[i].valid
      requires r.info == data[j].info && r.valid
      requires Reused(p1, pool.elems, vs + [r])
      ensures RefillInv(data, j + 1, p1, vs + [r])
    {
      PrefixSnoc(KeysOf(data), j);
    }

    /** Stores entry `e` under its key in a record taken from the top of the
        pool, or in a new record when the pool is empty. */
    method PlaceEntry(e: Entry, ghost vs: seq<GuideAction>) returns (r: GuideAction)
      requires group.Valid() && pool.Valid() && e.key !in group.keys
      requires group.Values() == vs && NoDup(pool.elems + vs)
      modifies group, pool, if |pool.elems| > 0 then {pool.elems[|pool.elems| - 1]} else {}
      ensures group.Valid() && pool.Valid() && group.keys == old(group.keys) + [e.key]
      ensures group.Values() == vs + [r] && NoDup(pool.elems + (vs + [r]))
      ensures r.info == e.info && r.valid
      ensures old(|pool.elems|) == 0 ==> pool.elems == [] && fresh(r)
      ensures old(|pool.elems|) > 0 ==> old(pool.elems) == pool.elems + [r]
      ensures pool.handlerActive == old(pool.handlerActive)
      ensures forall x :: x in vs ==> unchanged(x)
    {
      r := TakeRecord(e.info, vs);
      ValuesAppend(group.keys, group.records, e.key, r);
      group.Set(e.key, r);
    }

    /** Pops the most recently pooled record and reconfigures it, or makes a
        new record when the pool is empty. */
    method TakeRecord(info: GuideInfo, ghost vs: seq<GuideAction>) returns (r: GuideAction)
      requires pool.Valid() && NoDup(pool.elems + vs)
      modifies pool, if |pool.elems| > 0 then {pool.elems[|pool.elems| - 1]} else {}
      ensures pool.Valid() && NoDup(pool.elems + (vs + [r]))
      ensures r.info == info && r.valid
      ensures old(|pool.elems|) == 0 ==> pool.elems == [] && fresh(r)
      ensures old(|pool.elems|) > 0 ==> old(pool.elems) == pool.elems + [r]
      ensures pool.handlerActive == old(pool.handlerActive)
      ensures forall x :: x in vs ==> unchanged(x)
    {
      if pool.Has() {
        ghost var before := pool.elems;
        var a := pool.Get();
        r := a.value;
        assert before == pool.elems + [r];
        assert pool.elems + [r] + vs == before + vs;
        NoDupMoveLast(pool.elems, r, vs);
        NoDupDisjoint(pool.elems + [r], vs);
        assert r in pool.elems + [r];
        r.SetGuideConfig(info);
      } else {
        r := new GuideAction(info);
        assert r !in pool.elems + vs;
        NoDupAppend(pool.elems + vs, r);
        assert pool.elems + (vs + [r]) == (pool.elems + vs) + [r];
      }
    }

    /** Regresses the current step to the step `id`, if the group has it. */
    method GuideRollBack(id: string)
      requires Valid()
      modifies this, current
      ensures Valid()
      ensures id in group.records ==>
        St() == old(St()).(current := group.records[id])
        && (old(current) != null ==> !old(current).valid && old(current).info == old(current.info))
      ensures id !in group.records ==> St() == old(St()) && (old(current) != null ==> unchanged(old(current)))
    {
      if id in group.records {
        SetCurrentGuide(group.records[id]);
      }
    }

    /** Pauses the tutorial. */
    method GuidePause()
      modifies this
      ensures St() == old(St()).(close := true, launched := false, guiding := false)
    {
      close := true;
      launched := false;
      guiding := false;
    }

    /** Reopens the tutorial; asks for the tutorial view when there is no
        valid current step and a launch from `id` has a step to run. */
    method GuideOpen(id: string)
      requires Valid()
      modifies this
      ensures Valid()
      ensures St() == old(St()).(close := false,
                                 trace := if !old(JudgeCurrentGuide()) && HasGuideAction(id)
                                          then old(trace) + [ShowGuideView] else old(trace))
    {
      close := false;
      if !JudgeCurrentGuide() || close {
        if HasGuideAction(id) {
          if !close {
            trace := trace + [ShowGuideView];
          }
        }
      }
    }

    /** Emits the completion events of the current step. */
    method GuideCompleteEvents()
      requires current != null
      modifies this`trace
      ensures trace == old(trace) + [SyncToStorage(current.info.guideId), GuideComplete(current.info.guideId)]
    {
      trace := trace + [SyncToStorage(current.info.guideId), GuideComplete(current.info.guideId)];
    }

    /** Starts the current step now. */
    method NewStepGuide()
      requires current != null
      modifies this`guiding, this`againExecute, this`trace
      ensures guiding && !againExecute && trace == old(trace) + StartEvents(rule, current.info)
    {
      guiding := true;
      againExecute := false;
      trace := trace + StartEvents(rule, current.info);
    }

    /** Attempts to start the current step: it starts when the start rule
        allows; otherwise the first variant asks for a later attempt and the
        second does nothing. */
    method GuideStart()
      requires Valid() && current != null
      modifies this`guiding, this`againExecute, this`trace
      ensures Valid()
      ensures St() == if old(CanStart(rule, current.info, ViewOpen(current)))
                      then old(St()).(guiding := true, againExecute := false, trace := old(trace) + StartEvents(rule, current.info))
                      else if rule.Zest? then old(St()).(againExecute := true)
                      else old(St())
    {
      match rule
      case Zest =>
        if NeedsNoScreen(current.info.guideType) {
          NewStepGuide();
        } else if search.IsViewOpen(current.info.data.uiId) {
          NewStepGuide();
        } else {
          againExecute := true;
        }
      case Cck =>
        if search.IsViewOpen(current.info.data.uiId) {
          NewStepGuide();
        }
    }

    /** The group ends: no step is running, the records go back to the pool,
        the index is cleared, the mask is hidden and the end is announced
        with the current step's id (none when there is no current record). */
    method GuideOverStep()
      requires Valid()
      modifies this, group, pool, search
      ensures Valid()
      ensures St() == old(St()).(guiding := false,
                                 trace := old(trace) + [HideGuideMask, GuideOver(OverId(old(current)))])
      ensures group.keys == [] && pool.elems == old(pool.elems) + old(group.Values())
      ensures search.panels == map[] && search.guideTargets == map[] && search.lightTargets == map[]
      ensures search.guideGroup == old(search.guideGroup)
    {
      guiding := false;
      ReleaseAll();
      search.Clear();
      trace := trace + [HideGuideMask, GuideOver(OverId(current))];
    }

    /** Launches the tutorial from recovery id `id`: resumes after a known
        step, finishes the group at its last step, or starts the first step
        for an unknown id. Nothing happens on a paused or empty group. */
    method GuideLaunch(id: string)
      requires Valid()
      requires PlanLaunch(id).ResumeAfter? ==> PlanLaunch(id).next in group.records
      modifies this, group, pool, search, current
      ensures Valid()
      ensures old(PlanLaunch(id)) == Ignored ==> St() == old(St()) && unchanged(group) && unchanged(pool) && unchanged(search)
      ensures old(PlanLaunch(id)) == Ignored && old(current) != null ==> unchanged(old(current))
      ensures old(PlanLaunch(id)) == FinishAt ==>
        St() == old(St()).(guiding := false,
                           trace := old(trace) + [HideGuideMask, GuideOver(OverId(old(current)))])
        && group.keys == [] && pool.elems == old(pool.elems) + old(group.Values())
      ensures old(PlanLaunch(id)).ResumeAfter? ==>
        launched && lastUiId == old(group.records[id].info.data.uiId)
        && current == old(group.records[PlanLaunch(id).next])
      ensures old(PlanLaunch(id)).StartFirst? ==>
        launched && current == old(group.records[group.keys[0]]) && lastUiId == old(lastUiId)
      ensures (old(PlanLaunch(id)).ResumeAfter? || old(PlanLaunch(id)).StartFirst?) ==>
        group.keys == old(group.keys) && group.records == old(group.records) && pool.elems == old(pool.elems)
        && close == old(close)
        && (old(current) != null ==> !old(current).valid)
        && (if CanStart(rule, current.info, ViewOpen(current))
            then guiding && !againExecute && trace == old(trace) + StartEvents(rule, current.info)
            else guiding == old(guiding) && trace == old(trace)
                 && againExecute == (old(againExecute) || rule.Zest?))
    {
      if IsValid() && !close {
        if id in group.records {
          var action := group.records[id];
          if |action.info.syncId| > 0 {
            launched := true;
            lastUiId := action.info.data.uiId;
            var next := group.records[action.info.syncId];
            SetCurrentGuide(next);
            GuideStart();
          } else {
            GuideOverStep();
          }
        } else {
          launched := true;
          var first := FirstGuideAction();
          SetCurrentGuide(first);
          GuideStart();
        }
      }
    }

    /** Resumes a paused tutorial and continues after the current step. */
    method GuideResume()
      requires Valid() && current != null
      modifies this, group, pool, search, current
      ensures Valid()
      ensures !close && launched
      ensures old(current) == current || (old(current).info == old(current.info) && !old(current).valid)
      ensures old(trace) + [SyncToStorage(old(current.info.guideId)), GuideComplete(old(current.info.guideId))] <= trace
      ensures SyncFree(trace[|old(trace)| + 2..])
      ensures old(|current.info.syncId|) == 0 ==>
        !guiding && group.keys == [] && pool.elems == old(pool.elems) + old(group.Values())
        && trace == old(trace) + [SyncToStorage(old(current.info.guideId)), GuideComplete(old(current.info.guideId)),
                                  HideGuideMask, GuideOver(Some(old(current.info.guideId)))]
      ensures old(|current.info.syncId|) > 0 ==>
        lastUiId == old(current.info.data.uiId) && !old(current).valid
        && current == (if old(current.info.syncId) in old(group.records) then old(group.records[current.info.syncId]) else null)
        && group.keys == old(group.keys) && group.records == old(group.records) && pool.elems == old(pool.elems)
      ensures old(|current.info.syncId|) > 0 && !(current != null && current.valid) ==>
        guiding && againExecute == old(againExecute)
        && trace == old(trace) + [SyncToStorage(old(current.info.guideId)), GuideComplete(old(current.info.guideId))]
      ensures old(|current.info.syncId|) > 0 && current != null && current.valid ==>
        var done := old(trace) + [SyncToStorage(old(current.info.guideId)), GuideComplete(old(current.info.guideId))];
        match ContinueDecision(rule, lastUiId, current.info, ViewOpen(current))
        case Start => guiding && !againExecute && trace == done + StartEvents(rule, current.info)
        case Defer => againExecute && guiding && trace == done
        case Stall => guiding && againExecute == old(againExecute) && trace == done
    {
      close := false;
      launched := true;
      guiding := true;
      GuideContinue();
    }

    /** The current step is done: report it, then move to the next step or
        end the group. Does nothing unless a step is running and the
        tutorial is open. */
    method GuideContinue()
      requires Valid()
      requires guiding && !close ==> current != null
      modifies this, group, pool, search, current
      ensures Valid() && close == old(close)
      ensures launched == old(launched)
      ensures !old(guiding && !close) ==> St() == old(St()) && unchanged(group) && unchanged(pool) && unchanged(search)
      ensures !old(guiding && !close) && old(current) != null ==> unchanged(old(current))
      ensures old(guiding && !close) ==>
        old(trace) + [SyncToStorage(old(current.info.guideId)), GuideComplete(old(current.info.guideId))] <= trace
        && SyncFree(trace[|old(trace)| + 2..])
      ensures old(guiding && !close) && old(|current.info.syncId|) == 0 ==>
        !guiding && group.keys == [] && pool.elems == old(pool.elems) + old(group.Values())
        && trace == old(trace) + [SyncToStorage(old(current.info.guideId)), GuideComplete(old(current.info.guideId)),
                                  HideGuideMask, GuideOver(Some(old(current.info.guideId)))]
      ensures old(guiding && !close) && old(|current.info.syncId|) > 0 ==>
        lastUiId == old(current.info.data.uiId) && !old(current).valid
        && current == (if old(current.info.syncId) in old(group.records) then old(group.records[current.info.syncId]) else null)
        && group.keys == old(group.keys) && group.records == old(group.records) && pool.elems == old(pool.elems)
      ensures old(guiding && !close) && old(|current.info.syncId|) > 0 && !(current != null && current.valid) ==>
        guiding && againExecute == old(againExecute)
        && trace == old(trace) + [SyncToStorage(old(current.info.guideId)), GuideComplete(old(current.info.guideId))]
      ensures old(guiding && !close) && old(|current.info.syncId|) > 0 && current != null && current.valid ==>
        var done := old(trace) + [SyncToStorage(old(current.info.guideId)), GuideComplete(old(current.info.guideId))];
        match ContinueDecision(rule, lastUiId, current.info, ViewOpen(current))
        case Start => guiding && !againExecute && trace == done + StartEvents(rule, current.info)
        case Defer => againExecute && guiding && trace == done
        case Stall => guiding && againExecute == old(againExecute) && trace == done
      ensures old(current) == current || (old(current).info == old(current.info) && !old(current).valid)
    {
      if guiding && !close {
        GuideCompleteEvents();
        if |current.info.syncId| > 0 {
          Advance();
        } else {
          GuideOverStep();
        }
      }
    }

    /** Moves to the next step of the current one and starts it according
        to the start rule. */
    method Advance()
      requires Valid() && current != null && |current.info.syncId| > 0 && !close
      modifies this, current
      ensures Valid()
      ensures close == old(close) && launched == old(launched)
      ensures lastUiId == old(current.info.data.uiId) && !old(current).valid && old(current).info == old(current.info)
      ensures current == (if old(current.info.syncId) in group.records then group.records[old(current.info.syncId)] else null)
      ensures !(current != null && current.valid) ==>
        guiding == old(guiding) && againExecute == old(againExecute) && trace == old(trace)
      ensures current != null && current.valid ==>
        match ContinueDecision(rule, lastUiId, current.info, ViewOpen(current))
        case Start => guiding && !againExecute && trace == old(trace) + StartEvents(rule, current.info)
        case Defer => againExecute && guiding == old(guiding) && trace == old(trace)
        case Stall => guiding == old(guiding) && againExecute == old(againExecute) && trace == old(trace)
    {
      lastUiId := current.info.data.uiId;
      var next: GuideAction? := null;
      if current.info.syncId in group.records {
        next := group.records[current.info.syncId];
      }
      SetCurrentGuide(next);
      if JudgeCurrentGuide() && !close {
        StartNext();
      }
    }

    /** Starts the new current step, which is valid, by the continuation
        rule of the variant. */
    method StartNext()
      requires Valid() && current != null
      modifies this`guiding, this`againExecute, this`trace
      ensures Valid()
      ensures match ContinueDecision(rule, lastUiId, current.info, ViewOpen(current))
        case Start => guiding && !againExecute && trace == old(trace) + StartEvents(rule, current.info)
        case Defer => againExecute && guiding == old(guiding) && trace == old(trace)
        case Stall => guiding == old(guiding) && againExecute == old(againExecute) && trace == old(trace)
    {
      var switched := SwitchUI();
      match rule
      case Zest =>
        if !switched {
          NewStepGuide();
        } else {
          GuideStart();
        }
      case Cck =>
        if !switched {
          GuideStart();
        } else if search.IsViewOpen(current.info.data.uiId) {
          GuideStart();
        } else {
          againExecute := true;
        }
    }

    /** Whether the current step runs on another screen than the last one. */
    method SwitchUI() returns (switched: bool)
      requires current != null
      ensures switched == Switched(rule, lastUiId, current.info.data.uiId)
    {
      match rule
      case Zest =>
        if lastUiId.None? {
          return false;
        }
        return lastUiId != current.info.data.uiId;
      case Cck =>
        if lastUiId.None? || |lastUiId.value| == 0 {
          return false;
        }
        return lastUiId != current.info.data.uiId;
    }
  }

  /** The configurations of `data`, in order. */
  function EntryInfos(data: seq<Entry>): (s: seq<GuideInfo>)
    ensures |s| == |data| && forall i :: 0 <= i < |data| ==> s[i] == data[i].info
  {
    seq(|data|, i requires 0 <= i < |data| => data[i].info)
  }

  /** Every record of `vs` is valid. */
  ghost predicate AllValid(vs: seq<GuideAction>)
    reads vs
  {
    forall i :: 0 <= i < |vs| ==> vs[i].valid
  }

  /** Records `vs` took their first entries from the top of pool `p1`, one
      per entry while it lasted, leaving `rest` in the pool. */
  ghost predicate Reused<T>(p1: seq<T>, rest: seq<T>, vs: seq<T>) {
    var t := if |vs| < |p1| then |vs| else |p1|;
    rest == p1[..|p1| - t] && forall i :: 0 <= i < t ==> vs[i] == p1[|p1| - 1 - i]
  }

  lemma ReusedStep<T>(p1: seq<T>, before: seq<T>, vs: seq<T>, j: nat)
    requires Reused(p1, before, vs) && |before| > 0 && |vs| == j
    ensures Reused(p1, before[..|before| - 1], vs + [before[|before| - 1]])
  {
  }

  lemma PrefixSnoc<T>(s: seq<T>, j: nat)
    requires j < |s|
    ensures s[..j + 1] == s[..j] + [s[j]]
  {
  }

  /** Once the pool is empty, new records take nothing from it. */
  lemma ReusedFresh<T>(p1: seq<T>, vs: seq<T>, x: T)
    requires Reused(p1, [], vs)
    ensures Reused(p1, [], vs + [x])
  {
  }

  /** The id the end-of-group event carries: the current step's, and none
      when no step has been current yet. */
  function OverId(current: GuideAction?): Option<string>
    reads current
  {
    if current == null then None else Some(current.info.guideId)
  }

  /** Reading a field of a record that may be absent. */
  datatype Read<T> = Value(v: T) | TypeError

  /** The id `guideOver` reads for the end-of-group event as written: the
      current step's id, which throws when there is no current step. It
      agrees with `OverId` whenever a step is current. */
  function OverIdAsWritten(current: GuideAction?): (r: Read<string>)
    reads current
    ensures r == TypeError <==> current == null
    ensures r.Value? ==> OverId(current) == Some(r.v)
  {
    if current == null then TypeError else Value(current.info.guideId)
  }

  /** A new group loaded with a single final step and launched from that
      step ends the run before any step was current: as written the end of
      the group throws, while the model emits the over event without an id. */
  method LaunchFromLastStep() returns (asWritten: Read<string>, events: seq<Event>)
    ensures asWritten == TypeError
    ensures events == [HideGuideMask, GuideOver(None)]
  {
    var stage := new ST.Stage();
    var search := new GS.GuideSearch(stage);
    var g := new GuideGroup(Zest, search);
    var info := GuideInfo("1", 0, "", StepData(None, [], EntirePanel));
    g.InitGuideGroup([Entry("1", info)]);
    assert g.group.Values() == [g.group.records["1"]];
    assert g.group.Steps()[0] == info;
    assert g.PlanLaunch("1") == FinishAt;
    asWritten := OverIdAsWritten(g.current);
    g.GuideLaunch("1");
    events := g.trace;
  }

  /** The bindings of the ids `ws` that `m` holds, in the order of `ws`. */
  function TargetsFor(ws: seq<string>, m: map<string, GS.GuideTarget>): (ts: seq<GS.GuideTarget>)
    ensures forall t :: t in ts ==> exists w :: w in ws && w in m && m[w] == t
    ensures forall w :: w in ws && w in m ==> m[w] in ts
    ensures |ts| <= |ws|
    ensures (forall w :: w in ws ==> w in m) ==> |ts| == |ws| && forall i :: 0 <= i < |ws| ==> ts[i] == m[ws[i]]
  {
    if ws == [] then []
    else (if ws[0] in m then [m[ws[0]]] else []) + TargetsFor(ws[1..], m)
  }

  /** Collecting the bindings keeps the widgets' order: the bindings of a
      concatenation are those of its first part followed by those of its
      second. */
  lemma {:induction false} TargetsForAppend(ws: seq<string>, vs: seq<string>, m: map<string, GS.GuideTarget>)
    ensures TargetsFor(ws + vs, m) == TargetsFor(ws, m) + TargetsFor(vs, m)
    decreases |ws|
  {
    if ws == [] {
      assert ws + vs == vs;
    } else {
      var head := if ws[0] in m then [m[ws[0]]] else [];
      assert (ws + vs)[0] == ws[0];
      assert (ws + vs)[1..] == ws[1..] + vs;
      calc {
        TargetsFor(ws + vs, m);
        head + TargetsFor(ws[1..] + vs, m);
        { TargetsForAppend(ws[1..], vs, m); }
        head + (TargetsFor(ws[1..], m) + TargetsFor(vs, m));
        (head + TargetsFor(ws[1..], m)) + TargetsFor(vs, m);
      }
    }
  }

  /** One widget yields its binding, or nothing when it is unbound. */
  lemma TargetsForOne(w: string, m: map<string, GS.GuideTarget>)
    ensures TargetsFor([w], m) == if w in m then [m[w]] else []
  {
    assert [w][1..] == [];
  }

  lemma NoDupNext<T>(p: seq<T>, vals: seq<T>, i: nat)
    requires NoDup(p + vals) && i < |vals|
    ensures NoDup(p + vals[..i]) && vals[i] !in p + vals[..i]
  {
    assert p + vals[..i] == (p + vals)[..|p| + i];
    NoDupPrefix(p + vals, |p| + i);
    forall k | 0 <= k < |p| + i ensures (p + vals[..i])[k] != vals[i] {
      assert (p + vals[..i])[k] == (p + vals)[k];
      assert (p + vals)[|p| + i] == vals[i];
    }
  }

  lemma NoDupDisjoint<T>(a: seq<T>, b: seq<T>)
    requires NoDup(a + b)
    ensures forall x :: x in a ==> x !in b
  {
    forall i, k | 0 <= i < |a| && 0 <= k < |b| ensures a[i] != b[k] {
      assert (a + b)[i] == a[i] && (a + b)[|a| + k] == b[k];
    }
  }

  lemma ValuesAppend(ks: seq<string>, m: map<string, GuideAction>, k: string, v: GuideAction)
    requires forall x :: x in ks ==> x in m
    requires k !in ks
    ensures ValuesOf(ks + [k], m[k := v]) == ValuesOf(ks, m) + [v]
  {
    assert (ks + [k])[..|ks|] == ks;
    var a := ValuesOf(ks, m[k := v]);
    var b := ValuesOf(ks, m);
    assert |a| == |b|;
    forall i | 0 <= i < |a| ensures a[i] == b[i] {
      assert ks[i] != k;
    }
  }

  /** Moving the top of the pool to the end of the group's records keeps
      every record distinct. */
  lemma NoDupMoveLast<T>(rest: seq<T>, x: T, vals: seq<T>)
    requires NoDup(rest + [x] + vals)
    ensures NoDup(rest + (vals + [x]))
  {
    var a := rest + [x] + vals;
    var b := rest + (vals + [x]);
    forall i, j | 0 <= i < j < |b| ensures b[i] != b[j] {
      var ia := if i < |rest| then i else if i < |b| - 1 then i + 1 else |rest|;
      var ja := if j < |rest| then j else if j < |b| - 1 then j + 1 else |rest|;
      assert b[i] == a[ia] && b[j] == a[ja];
      assert ia != ja;
    }
  }
}
