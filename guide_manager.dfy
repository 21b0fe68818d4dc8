// The tutorial facade: it keeps the recovery cursor (the id of the last
// completed step), forwards the player's commands to its group, and listens
// to the group's events to update the cursor, the dimmer and the tutorial
// window.
module GuideManager {
  import opened Common
  import opened GuideAction
  import ST = Stage
  import GS = GuideSearch
  import GG = GuideGroup

  /** A request to the window system for the tutorial window `window`
      (unset until the host names it). */
  datatype WindowCall = OpenWindow(window: Option<string>) | CloseWindow(window: Option<string>)

  /** What the facade's own listeners keep: the recovery cursor, the dimmer
      (absent until the host hands one over, else whether it is shown) and
      the window requests made so far. */
  datatype Heard = Heard(syncGuideId: string, mask: Option<bool>, windowCalls: seq<WindowCall>)

  /** The effect of one group event on the facade: opening the window,
      showing the dimmer unless the step's screen is fully highlighted,
      moving the cursor to a completed step, closing the window. The other
      events are for the game's own listeners. */
  function Hear(h: Heard, e: GG.Event, window: Option<string>, panels: map<string, GS.Panel>): Heard {
    match e
    case ShowGuideView => h.(windowCalls := h.windowCalls + [OpenWindow(window)])
    case ShowGuideMask(uiId) => if h.mask.Some? then h.(mask := Some(!GS.ParentIn(panels, uiId))) else h
    case SyncToStorage(id) => h.(syncGuideId := id)
    case HideGuideMask => h.(windowCalls := h.windowCalls + [CloseWindow(window)])
    case _ => h
  }

  /** The events `es`, heard in order. */
  function HearAll(h: Heard, es: seq<GG.Event>, window: Option<string>, panels: map<string, GS.Panel>): Heard
    decreases |es|
  {
    if es == [] then h else HearAll(Hear(h, es[0], window, panels), es[1..], window, panels)
  }

  /** The id of the last completion in `es`, or `d` when there is none. */
  function LastSynced(es: seq<GG.Event>, d: string): string {
    if es == [] then d
    else if es[|es| - 1].SyncToStorage? then es[|es| - 1].id
    else LastSynced(es[..|es| - 1], d)
  }

  /** The window requests `es` makes, in order. */
  function WindowCallsOf(es: seq<GG.Event>, window: Option<string>): seq<WindowCall> {
    if es == [] then []
    else
      (match es[0]
       case ShowGuideView => [OpenWindow(window)]
       case HideGuideMask => [CloseWindow(window)]
       case _ => [])
      + WindowCallsOf(es[1..], window)
  }

  /** The cursor after hearing `es` is the last completed step of `es`, the
      window requests are those of `es` appended to the earlier ones, and a
      dimmer is present afterwards exactly when it was before. */
  lemma {:induction false} HearAllMeaning(h: Heard, es: seq<GG.Event>, window: Option<string>, panels: map<string, GS.Panel>)
    ensures HearAll(h, es, window, panels).syncGuideId == LastSynced(es, h.syncGuideId)
    ensures HearAll(h, es, window, panels).windowCalls == h.windowCalls + WindowCallsOf(es, window)
    ensures HearAll(h, es, window, panels).mask.Some? == h.mask.Some?
    decreases |es|
  {
    if es != [] {
      var h' := Hear(h, es[0], window, panels);
      var rest := es[1..];
      HearAllMeaning(h', rest, window, panels);
      LastSyncedCons(es[0], rest, h.syncGuideId);
      assert [es[0]] + rest == es;
    }
  }

  lemma {:induction false} LastSyncedCons(e: GG.Event, rest: seq<GG.Event>, d: string)
    ensures LastSynced([e] + rest, d) == LastSynced(rest, if e.SyncToStorage? then e.id else d)
    decreases |rest|
  {
    if rest != [] {
      var es := [e] + rest;
      assert es[..|es| - 1] == [e] + rest[..|rest| - 1];
      LastSyncedCons(e, rest[..|rest| - 1], d);
    } else {
      assert ([e] + rest)[..0] == [];
    }
  }

  /** The window requests of two events. */
  lemma WindowCallsPair(e: GG.Event, f: GG.Event, window: Option<string>)
    ensures WindowCallsOf([e, f], window) == WindowCallsOf([e], window) + WindowCallsOf([f], window)
  {
    assert [e, f][1..] == [f];
  }

  /** The window requests of consecutive events are consecutive. */
  lemma {:induction false} WindowCallsAppend(a: seq<GG.Event>, b: seq<GG.Event>, window: Option<string>)
    ensures WindowCallsOf(a + b, window) == WindowCallsOf(a, window) + WindowCallsOf(b, window)
    decreases |a|
  {
    if a != [] {
      assert (a + b)[1..] == a[1..] + b;
      WindowCallsAppend(a[1..], b, window);
    } else {
      assert a + b == b;
    }
  }

  /** Hearing a start attempt shows the dimmer, when there is one, exactly
      when the step starts on a screen that is not fully highlighted. */
  lemma HearStartMask(h: Heard, es: seq<GG.Event>, window: Option<string>, panels: map<string, GS.Panel>)
    requires es == [] || (|es| == 2 && es[0].ShowGuideMask? && es[1].GuideStart?)
    ensures HearAll(h, es, window, panels).mask
         == if h.mask.Some? && es != [] then Some(!GS.ParentIn(panels, es[0].arg)) else h.mask
  {
    if es != [] {
      var h1 := Hear(h, es[0], window, panels);
      assert es[1..] == [es[1]] && es[1..][1..] == [];
      var h2 := Hear(h1, es[1], window, panels);
      assert HearAll(h1, es[1..], window, panels) == HearAll(h2, es[1..][1..], window, panels) == h2;
      assert HearAll(h, es, window, panels) == h2;
    }
  }

  /** Hearing the completion of step `done` followed by events that
      complete nothing moves the cursor to `done`; when the group then ends,
      the window is closed and nothing else is asked of the window system. */
  lemma HearCompletion(h: Heard, rest: seq<GG.Event>, done: string, over: bool,
                       window: Option<string>, panels: map<string, GS.Panel>)
    requires GG.SyncFree(rest)
    requires over ==> rest == [GG.HideGuideMask, GG.GuideOver(Some(done))]
    ensures HearAll(h, [GG.SyncToStorage(done), GG.GuideComplete(done)] + rest, window, panels).syncGuideId == done
    ensures over ==> HearAll(h, [GG.SyncToStorage(done), GG.GuideComplete(done)] + rest, window, panels).windowCalls
                     == h.windowCalls + [CloseWindow(window)]
  {
    var head := [GG.SyncToStorage(done), GG.GuideComplete(done)];
    HearAllMeaning(h, head + rest, window, panels);
    LastSyncedSyncFree(head, rest, h.syncGuideId);
    assert head[..1] == [GG.SyncToStorage(done)];
    if over {
      WindowCallsAppend(head, rest, window);
      WindowCallsPair(head[0], head[1], window);
      WindowCallsPair(rest[0], rest[1], window);
      assert head == [head[0], head[1]] && rest == [rest[0], rest[1]];
    }
  }

  /** Events after the last completion do not move the cursor. */
  lemma {:induction false} LastSyncedSyncFree(a: seq<GG.Event>, b: seq<GG.Event>, d: string)
    requires GG.SyncFree(b)
    ensures LastSynced(a + b, d) == LastSynced(a, d)
    decreases |b|
  {
    if b != [] {
      assert (a + b)[..|a + b| - 1] == a + b[..|b| - 1];
      LastSyncedSyncFree(a, b[..|b| - 1], d);
    } else {
      assert a + b == a;
    }
  }

  /** The finger speed for a requested speed: the request capped at 10,
      times 200. */
  function FingerSpeed(speed: int): (v: int)
    ensures v <= 2000
    ensures speed <= 10 ==> v == 200 * speed
    ensures speed >= 10 ==> v == 2000
  {
    (if speed > 10 then 10 else speed) * 200
  }

  /** Configuration files map a group id to that group's steps; the keys of
      one group are the properties of one object, so they are distinct. */
  ghost predicate FileOk(file: map<string, seq<GG.Entry>>) {
    forall g :: g in file ==> GG.DistinctKeys(file[g])
  }

  type GuideFile = file: map<string, seq<GG.Entry>> | FileOk(file) witness map[]

  /** The events of a launch or a start attempt: none, a start, or the end
      of the group. */
  ghost predicate StartOrOver(es: seq<GG.Event>) {
    es == [] || (|es| == 2 && ((es[0].HideGuideMask? && es[1].GuideOver?) || (es[0].ShowGuideMask? && es[1].GuideStart?)))
  }

  /** Hearing a launch or a start attempt leaves the cursor alone, shows
      the dimmer (when there is one) exactly when a step starts, and closes
      the window exactly when the group ends. */
  lemma HearStartOrOver(h: Heard, es: seq<GG.Event>, window: Option<string>, panels: map<string, GS.Panel>)
    requires StartOrOver(es)
    ensures HearAll(h, es, window, panels).syncGuideId == h.syncGuideId
    ensures HearAll(h, es, window, panels).windowCalls
         == h.windowCalls + (if es != [] && es[0].HideGuideMask? then [CloseWindow(window)] else [])
    ensures HearAll(h, es, window, panels).mask
         == if h.mask.Some? && es != [] && es[0].ShowGuideMask? then Some(!GS.ParentIn(panels, es[0].arg)) else h.mask
  {
    HearAllMeaning(h, es, window, panels);
    if es != [] {
      assert es == [es[0], es[1]];
      WindowCallsPair(es[0], es[1], window);
      assert [es[0]][1..] == [] && [es[1]][1..] == [];
      assert es[..1] == [es[0]] && [es[0]][..0] == [];
      assert LastSynced(es, h.syncGuideId) == LastSynced([es[0]], h.syncGuideId) == h.syncGuideId;
      var h1 := Hear(h, es[0], window, panels);
      assert es[1..] == [es[1]] && es[1..][1..] == [];
      var h2 := Hear(h1, es[1], window, panels);
      assert HearAll(h1, es[1..], window, panels) == HearAll(h2, es[1..][1..], window, panels) == h2;
    }
  }

  /** Hearing the completion of step `done` followed by a start attempt or
      the end of the group: the cursor moves to `done`, the dimmer is shown
      as for the start, and the window is closed exactly when the group
      ends. */
  lemma HearAdvance(h: Heard, rest: seq<GG.Event>, done: string, window: Option<string>, panels: map<string, GS.Panel>)
    requires StartOrOver(rest)
    ensures var h' := HearAll(h, [GG.SyncToStorage(done), GG.GuideComplete(done)] + rest, window, panels);
      h'.syncGuideId == done
      && h'.windowCalls == h.windowCalls + (if rest != [] && rest[0].HideGuideMask? then [CloseWindow(window)] else [])
      && h'.mask == if h.mask.Some? && rest != [] && rest[0].ShowGuideMask? then Some(!GS.ParentIn(panels, rest[0].arg)) else h.mask
  {
    var es := [GG.SyncToStorage(done), GG.GuideComplete(done)] + rest;
    var h1 := Hear(h, es[0], window, panels);
    var h2 := Hear(h1, es[1..][0], window, panels);
    assert es[1..][0] == GG.GuideComplete(done) && es[1..][1..] == rest;
    assert HearAll(h, es, window, panels) == HearAll(h2, rest, window, panels);
    assert h2 == h.(syncGuideId := done);
    HearStartOrOver(h2, rest, window, panels);
  }

  class GuideManager {
    const search: GS.GuideSearch
    const group: GG.GuideGroup
    var syncGuideId: string
    var fingerSpeed: int
    var guideWindow: Option<string>
    var fileData: Option<GuideFile>
    var mask: Option<bool>
    var windowCalls: seq<WindowCall>

    ghost predicate Valid()
      reads group.group, group.pool, group.search, search
    {
      group.Valid() && group.search == search && group.rule == GG.Zest
    }

    /** The facade's listener state, as one value. */
    function Listening(): Heard reads this {
      Heard(syncGuideId, mask, windowCalls)
    }

    constructor (stage: ST.Stage)
      ensures Valid() && fresh(group) && fresh(search) && fresh(group.group) && fresh(group.pool)
      ensures syncGuideId == "" && fileData == None && mask == None && windowCalls == []
      ensures group.St() == GG.Flags(false, false, false, false, Some(""), null, [])
    {
      syncGuideId := "";
      fingerSpeed := 0;
      guideWindow := None;
      fileData := None;
      mask := None;
      windowCalls := [];
      var s := new GS.GuideSearch(stage);
      search := s;
      group := new GG.GuideGroup(GG.Zest, s);
    }

    /** Hands the group events emitted since position `n` of its trace to
        the facade's listeners. */
    method Listen(n: nat)
      requires n <= |group.trace|
      modifies this`syncGuideId, this`mask, this`windowCalls
      ensures Listening() == HearAll(old(Listening()), group.trace[n..], guideWindow, search.panels)
    {
      var h := HearAll(Listening(), group.trace[n..], guideWindow, search.panels);
      syncGuideId := h.syncGuideId;
      mask := h.mask;
      windowCalls := h.windowCalls;
    }

    method SetGuideView(accessId: string)
      modifies this`guideWindow
      ensures guideWindow == Some(accessId)
    {
      guideWindow := Some(accessId);
    }

    /** Registers the dimmer node; `active` is its current visibility. The
        tutorial layer node only serves geometry. */
    method AddGuideMaskAndLayer(active: bool)
      modifies this`mask
      ensures mask == Some(active)
    {
      mask := Some(active);
    }

    method SetGuideFile(file: GuideFile)
      modifies this`fileData
      ensures fileData == Some(file)
    {
      fileData := Some(file);
    }

    /** Stores the capped finger speed. */
    method SetFingerSpeed(speed: int)
      modifies this`fingerSpeed
      ensures fingerSpeed == FingerSpeed(speed)
    {
      fingerSpeed := (if speed > 10 then 10 else speed) * 200;
    }

    /** Registers a screen with the index. */
    method AddGuideView(uiId: string, target: GS.Tree, scope: Scope)
      requires Valid() && search.guideGroup != null && search.guideGroup.Valid()
      modifies search, search.stage
      ensures search.Valid() && search.guideGroup == old(search.guideGroup)
      ensures search.panels == if uiId in old(search.panels) then old(search.panels)
                               else old(search.panels)[uiId := GS.Panel(target, scope)]
      ensures search.State() == if uiId !in old(search.panels) || scope == PartialPanel
                                then GS.ApplyAll(old(search.State()), GS.Walk(target, 0), GS.StoreTargets(search.guideGroup.Steps()))
                                else old(search.State())
    {
      search.AddGuideView(uiId, target, scope);
    }

    /** Unregisters a screen from the index. */
    method RemoveGuideView(uiId: string, scope: Scope)
      modifies search
      ensures search.panels == if scope == EntirePanel then old(search.panels) - {uiId} else old(search.panels)
      ensures search.guideGroup == old(search.guideGroup) && search.guideTargets == old(search.guideTargets)
      ensures search.lightTargets == old(search.lightTargets)
    {
      search.RemoveGuideView(uiId, scope);
    }

    /** Collects the highlight nodes of step `guideId` and tells whether
        the current step has any. */
    method SearchLightTarget(guideId: string) returns (found: bool)
      requires Valid() && search.guideGroup != null && search.guideGroup.Valid()
      requires guideId in search.guideGroup.records
      requires search.IsViewOpen(search.guideGroup.records[guideId].info.data.uiId)
      requires group.current != null
      modifies search, search.stage
      ensures search.Valid() && search.guideGroup == old(search.guideGroup) && search.panels == old(search.panels)
      ensures found <==> group.current.info.guideId in search.lightTargets
                         && |search.lightTargets[group.current.info.guideId]| > 0
    {
      search.SearchLightTarget(guideId);
      var lights := group.LightTargets();
      found := lights.Some? && |lights.value| > 0;
    }

    /** Removes the binding of widget `targetId` and tells whether it
        existed. */
    method DelGuideTarget(targetId: string) returns (existed: bool)
      modifies search`guideTargets
      ensures existed == (targetId in old(search.guideTargets))
      ensures search.guideTargets == old(search.guideTargets) - {targetId}
    {
      existed := targetId in search.guideTargets;
      search.guideTargets := search.guideTargets - {targetId};
    }

    /** Whether a launch from the recovery cursor has a step to run. */
    function HasGuideAction(): (b: bool)
      reads this, group, group.group, group.group.records.Values
      requires group.group.Valid()
      ensures b == group.HasGuideAction(syncGuideId)
    {
      group.HasGuideAction(syncGuideId)
    }

    /** Loads group `groupId` of the configuration file, when a file is set
        and has it, and moves the recovery cursor to `guideId` when one is
        given. */
    method SyncGuideGroup(groupId: string, guideId: Option<string>)
      requires Valid()
      modifies this`syncGuideId, group, group.group, group.pool, search, group.Repr()
      ensures Valid() && fileData == old(fileData)
      ensures fileData.Some? && groupId in fileData.value ==>
        group.Loaded(fileData.value[groupId], old(group.pool.elems) + old(group.group.Values()))
        && group.IsValid() == (|fileData.value[groupId]| > 0)
        && syncGuideId == (if guideId.Some? then guideId.value else old(syncGuideId))
      ensures !(fileData.Some? && groupId in fileData.value) ==>
        syncGuideId == old(syncGuideId) && unchanged(group) && unchanged(group.group) && unchanged(group.pool)
    {
      if fileData.Some? {
        if groupId in fileData.value {
          group.InitGuideGroup(fileData.value[groupId]);
          if guideId.Some? {
            syncGuideId := guideId.value;
          }
        }
      }
    }

    /** Regresses the group to the recovery cursor's step. */
    method GuideRollBack()
      requires Valid()
      modifies group, group.current
      ensures Valid() && group.trace == old(group.trace)
      ensures group.current == if syncGuideId in group.group.records then group.group.records[syncGuideId]
                               else old(group.current)
    {
      group.GuideRollBack(syncGuideId);
    }

    method GuidePause()
      requires Valid()
      modifies group
      ensures Valid()
      ensures group.St() == old(group.St()).(close := true, launched := false, guiding := false)
    {
      group.GuidePause();
    }

    /** Reopens the tutorial from the recovery cursor; the group's request
        for the tutorial window reaches the window system. */
    method GuideOpen()
      requires Valid()
      modifies this`syncGuideId, this`mask, this`windowCalls, group
      ensures Valid() && !group.close && syncGuideId == old(syncGuideId)
      ensures windowCalls == old(windowCalls)
        + (if !old(group.JudgeCurrentGuide()) && group.HasGuideAction(syncGuideId) then [OpenWindow(guideWindow)] else [])
    {
      var n := |group.trace|;
      group.GuideOpen(syncGuideId);
      ghost var es := group.trace[n..];
      assert es == [] || es == [GG.ShowGuideView];
      assert WindowCallsOf([GG.ShowGuideView], guideWindow) == [OpenWindow(guideWindow)];
      Listen(n);
      HearAllMeaning(old(Listening()), es, guideWindow, search.panels);
      LastSyncedSyncFree([], es, old(syncGuideId));
    }

    /** Launches the tutorial from the recovery cursor. No step is
        completed, so the cursor stays. */
    method GuideLaunch()
      requires Valid()
      requires group.PlanLaunch(syncGuideId).ResumeAfter? ==> group.PlanLaunch(syncGuideId).next in group.group.records
      modifies this`syncGuideId, this`mask, this`windowCalls
      modifies group, group.group, group.pool, search, group.current
      ensures Valid() && syncGuideId == old(syncGuideId)
      ensures windowCalls == old(windowCalls)
        + (if old(group.PlanLaunch(syncGuideId)) == GG.FinishAt then [CloseWindow(guideWindow)] else [])
      ensures mask == if old(mask).Some? && (old(group.PlanLaunch(syncGuideId)).ResumeAfter? || old(group.PlanLaunch(syncGuideId)).StartFirst?)
                         && group.current != null && GG.CanStart(GG.Zest, group.current.info, group.ViewOpen(group.current))
                      then Some(!search.IsParentPanel(group.current.info.data.uiId)) else old(mask)
    {
      var n := |group.trace|;
      ghost var h0 := Listening();
      ghost var plan := group.PlanLaunch(syncGuideId);
      group.GuideLaunch(syncGuideId);
      ghost var es := group.trace[n..];
      assert StartOrOver(es) && (es != [] && es[0].HideGuideMask? <==> plan == GG.FinishAt);
      assert es != [] && es[0].ShowGuideMask? ==> es[0].arg == group.current.info.data.uiId;
      Listen(n);
      HearStartOrOver(h0, es, guideWindow, search.panels);
    }

    /** Reattempts to start the current step, once its screen may be open. */
    method AgainExecute()
      requires Valid() && group.current != null
      modifies this`syncGuideId, this`mask, this`windowCalls, group`guiding, group`againExecute, group`trace
      ensures Valid() && syncGuideId == old(syncGuideId) && windowCalls == old(windowCalls)
      ensures group.guiding <==> old(group.guiding) || GG.CanStart(GG.Zest, group.current.info, group.ViewOpen(group.current))
      ensures mask == if old(mask).Some? && GG.CanStart(GG.Zest, group.current.info, group.ViewOpen(group.current))
                      then Some(!search.IsParentPanel(group.current.info.data.uiId)) else old(mask)
    {
      var n := |group.trace|;
      ghost var h0 := Listening();
      group.GuideStart();
      ghost var es := group.trace[n..];
      assert es == [] || (|es| == 2 && es[0].ShowGuideMask? && es[1].GuideStart?);
      Listen(n);
      HearStartOrOver(h0, es, guideWindow, search.panels);
      HearStartMask(h0, es, guideWindow, search.panels);
    }

    /** Completes the current step and moves on: the recovery cursor
        becomes the completed step. */
    method GuideContinue()
      requires Valid()
      requires group.guiding && !group.close ==> group.current != null
      modifies this`syncGuideId, this`mask, this`windowCalls
      modifies group, group.group, group.pool, search, group.current
      ensures Valid()
      ensures old(group.guiding && !group.close) ==> syncGuideId == old(group.current.info.guideId)
      ensures !old(group.guiding && !group.close) ==> Listening() == old(Listening())
      ensures old(group.guiding && !group.close) && old(|group.current.info.syncId|) == 0 ==>
        windowCalls == old(windowCalls) + [CloseWindow(guideWindow)] && mask == old(mask)
      ensures old(group.guiding && !group.close) && old(|group.current.info.syncId|) > 0 ==>
        windowCalls == old(windowCalls)
        && mask == if old(mask).Some? && group.current != null && group.current.valid
                      && GG.ContinueDecision(GG.Zest, group.lastUiId, group.current.info, group.ViewOpen(group.current)) == GG.Start
                   then Some(!search.IsParentPanel(group.current.info.data.uiId)) else old(mask)
    {
      var n := |group.trace|;
      ghost var h0 := Listening();
      ghost var running := group.guiding && !group.close;
      ghost var done := if running then group.current.info.guideId else "";
      group.GuideContinue();
      ghost var es := group.trace[n..];
      Listen(n);
      if running {
        assert es == [GG.SyncToStorage(done), GG.GuideComplete(done)] + es[2..];
        assert StartOrOver(es[2..]);
        HearAdvance(h0, es[2..], done, guideWindow, search.panels);
      } else {
        assert es == [];
      }
    }

    /** Resumes the tutorial and completes the current step. */
    method GuideResume()
      requires Valid() && group.current != null
      modifies this`syncGuideId, this`mask, this`windowCalls
      modifies group, group.group, group.pool, search, group.current
      ensures Valid() && !group.close && group.launched
      ensures syncGuideId == old(group.current.info.guideId)
      ensures old(|group.current.info.syncId|) == 0 ==>
        windowCalls == old(windowCalls) + [CloseWindow(guideWindow)] && mask == old(mask)
      ensures old(|group.current.info.syncId|) > 0 ==>
        windowCalls == old(windowCalls)
        && mask == if old(mask).Some? && group.current != null && group.current.valid
                      && GG.ContinueDecision(GG.Zest, group.lastUiId, group.current.info, group.ViewOpen(group.current)) == GG.Start
                   then Some(!search.IsParentPanel(group.current.info.data.uiId)) else old(mask)
    {
      var n := |group.trace|;
      ghost var h0 := Listening();
      ghost var done := group.current.info.guideId;
      group.GuideResume();
      ghost var es := group.trace[n..];
      Listen(n);
      assert es == [GG.SyncToStorage(done), GG.GuideComplete(done)] + es[2..];
      assert StartOrOver(es[2..]);
      HearAdvance(h0, es[2..], done, guideWindow, search.panels);
    }
  }
}
