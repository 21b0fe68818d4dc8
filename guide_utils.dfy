// Helpers of the tutorial layer: which step comes next for the recovery
// cursor, registering a screen when that step needs it, putting a
// highlighted node back where it was, and the list of ever shorter prefixes
// that drives the typewriter effect of a tutorial text.
module GuideUtils {
  import opened Common
  import opened GuideAction
  import CGA = CckGuideAction
  import SG = SceneGraph
  import GS = GuideSearch
  import GG = GuideGroup
  import GM = GuideManager

  /** The fields of a step record that the helpers read; both record
      layouts have them. */
  datatype StepView = StepView(guideId: string, syncId: string, uiId: Option<string>, showType: Scope)

  function ViewsOf(records: map<string, GuideAction>): (vs: map<string, StepView>)
    reads records.Values
    ensures vs.Keys == records.Keys
  {
    map k | k in records :: StepView(records[k].info.guideId, records[k].info.syncId,
                                     records[k].info.data.uiId, records[k].info.data.showType)
  }

  function FlatViewsOf(records: map<string, CGA.CckGuideAction>): (vs: map<string, StepView>)
    reads records.Values
    ensures vs.Keys == records.Keys
  {
    map k | k in records :: StepView(records[k].info.guideId, records[k].info.syncId,
                                     records[k].info.uiId, records[k].info.showType)
  }

  /** The id of the step to run next: the successor of the cursor's step
      when the group has it, else the first step itself before a launch and
      its successor after one; nothing for an empty group. */
  function NextId(keys: seq<string>, views: map<string, StepView>, cursor: string, launched: bool): Option<string>
    requires forall k :: k in keys ==> k in views
  {
    if cursor in views then Some(views[cursor].syncId)
    else if keys == [] then None
    else if launched then Some(views[keys[0]].syncId)
    else Some(views[keys[0]].guideId)
  }

  /** For a group that a launch would act on, the next id names the step the
      launch makes current when it resumes after the cursor, is empty when
      the launch ends the group, and before any launch names the first step
      when the cursor is unknown. */
  lemma NextIdAgreesWithLaunch(g: GG.GuideGroup, cursor: string, launched: bool)
    requires g.Valid() && !g.close && g.IsValid()
    ensures var n := NextId(g.group.keys, ViewsOf(g.group.records), cursor, launched);
      n.Some?
      && (g.PlanLaunch(cursor).ResumeAfter? ==> n == Some(g.PlanLaunch(cursor).next))
      && (g.PlanLaunch(cursor) == GG.FinishAt ==> n == Some(""))
      && (g.PlanLaunch(cursor).StartFirst? && !launched ==> n == Some(g.group.records[g.group.keys[0]].info.guideId))
  {
    assert g.group.keys[0] in g.group.keys;
  }

  /** `getNextGuideId`: the lookup, with its loops that stop at the first
      key. */
  method GetNextGuideId(keys: seq<string>, views: map<string, StepView>, cursor: string, launched: bool)
    returns (id: Option<string>)
    requires forall k :: k in keys ==> k in views
    ensures id == NextId(keys, views, cursor, launched)
  {
    if cursor in views {
      return Some(views[cursor].syncId);
    }
    id := None;
    var i := 0;
    var found := false;
    while i < |keys| && !found
      invariant i <= 1 && i <= |keys| && (found <==> i == 1)
      invariant id == if found then NextId(keys, views, cursor, launched) else None
    {
      id := Some(if launched then views[keys[i]].syncId else views[keys[i]].guideId);
      found := true;
      i := i + 1;
    }
  }

  /** The highlight scope a screen `uiId` is registered with when it is
      added: that of the next step, when the next id is not empty, the
      group has it, and it runs on that screen. */
  function Registration(keys: seq<string>, views: map<string, StepView>, cursor: string, launched: bool,
                        uiId: string): (sc: Option<Scope>)
    requires forall k :: k in keys ==> k in views
    requires NextId(keys, views, cursor, launched).Some?
    ensures sc.Some? <==> var id := NextId(keys, views, cursor, launched).value;
                          |id| > 0 && id in views && views[id].uiId == Some(uiId)
    ensures sc.Some? ==> sc.value == views[NextId(keys, views, cursor, launched).value].showType
  {
    var id := NextId(keys, views, cursor, launched).value;
    if |id| > 0 && id in views && views[id].uiId == Some(uiId) then Some(views[id].showType) else None
  }

  /** Registers screen `uiId` with the index when the next step runs on it. */
  method AddGuideElement(m: GM.GuideManager, uiId: string, target: GS.Tree)
    requires m.Valid() && m.search.guideGroup != null && m.search.guideGroup.Valid()
    requires NextId(m.group.group.keys, ViewsOf(m.group.group.records), m.syncGuideId, m.group.launched).Some?
    modifies m.search, m.search.stage
    ensures m.search.Valid() && m.search.guideGroup == old(m.search.guideGroup)
    ensures var sc := old(Registration(m.group.group.keys, ViewsOf(m.group.group.records), m.syncGuideId,
                                       m.group.launched, uiId));
      if sc.Some?
      then m.search.panels == (if uiId in old(m.search.panels) then old(m.search.panels)
                               else old(m.search.panels)[uiId := GS.Panel(target, sc.value)])
           && m.search.State() == (if uiId !in old(m.search.panels) || sc.value == PartialPanel
                                   then GS.ApplyAll(old(m.search.State()), GS.Walk(target, 0), GS.StoreTargets(m.search.guideGroup.Steps()))
                                   else old(m.search.State()))
      else unchanged(m.search) && unchanged(m.search.stage)
  {
    var group := m.group.group;
    ghost var sc := Registration(group.keys, ViewsOf(group.records), m.syncGuideId, m.group.launched, uiId);
    var id := GetNextGuideId(group.keys, ViewsOf(group.records), m.syncGuideId, m.group.launched);
    if |id.value| > 0 {
      if id.value in group.records {
        var action := group.records[id.value];
        if action.info.data.uiId == Some(uiId) {
          assert sc == Some(action.info.data.showType);
          m.AddGuideView(uiId, target, action.info.data.showType);
          return;
        }
      }
    }
    assert sc.None?;
  }

  /** The same registration over records of the flat layout. */
  method AddGuideElementFlat(search: GS.GuideSearch, keys: seq<string>, records: map<string, CGA.CckGuideAction>,
                             cursor: string, launched: bool, uiId: string, target: GS.Tree)
    requires search.Valid() && search.guideGroup != null && search.guideGroup.Valid()
    requires forall k :: k in keys ==> k in records
    requires NextId(keys, FlatViewsOf(records), cursor, launched).Some?
    modifies search, search.stage
    ensures search.Valid() && search.guideGroup == old(search.guideGroup)
    ensures var sc := old(Registration(keys, FlatViewsOf(records), cursor, launched, uiId));
      if sc.Some?
      then search.panels == (if uiId in old(search.panels) then old(search.panels)
                             else old(search.panels)[uiId := GS.Panel(target, sc.value)])
           && search.State() == (if uiId !in old(search.panels) || sc.value == PartialPanel
                                 then GS.ApplyAll(old(search.State()), GS.Walk(target, 0), GS.StoreTargets(search.guideGroup.Steps()))
                                 else old(search.State()))
      else unchanged(search) && unchanged(search.stage)
  {
    ghost var sc := Registration(keys, FlatViewsOf(records), cursor, launched, uiId);
    var id := GetNextGuideId(keys, FlatViewsOf(records), cursor, launched);
    if |id.value| > 0 {
      if id.value in records {
        var action := records[id.value];
        if action.UiId() == Some(uiId) {
          assert sc == Some(action.ShowType());
          search.AddGuideView(uiId, target, action.ShowType());
          return;
        }
      }
    }
    assert sc.None?;
  }

  /** What `restoreParent` does to the scene: `target` leaves its parent
      and becomes the last child of `parent` (or stays detached when there
      is none), then moves to sibling index `zIndex`. An absent index (read
      past the end of a saved list) leaves it where it landed. */
  function Restore(g: SG.Graph, target: NodeId, zIndex: Option<int>, parent: Option<NodeId>): SG.Graph {
    var r := SG.Reparent(g, target, parent);
    if zIndex.Some? then SG.MoveTo(r, target, zIndex.value) else r
  }

  /** A restore ends with the node under the given parent, at the slot the
      index names among its new siblings, and every other node under the
      parent it had. */
  lemma RestoreMeaning(g: SG.Graph, target: NodeId, zIndex: Option<int>, parent: Option<NodeId>)
    requires SG.Wf(g)
    ensures var r := Restore(g, target, zIndex, parent);
      SG.Wf(r) && SG.ParentIn(r, target) == parent
      && (forall x :: x != target ==> SG.ParentIn(r, x) == SG.ParentIn(g, x))
      && (parent.Some? ==> var others := SG.Without(SG.Kids(g, parent.value), target);
            SG.Kids(r, parent.value) == SG.InsertAt(others, target, if zIndex.Some? then SG.Slot(|others|, zIndex.value) else |others|))
  {
    var m := SG.Reparent(g, target, parent);
    SG.ReparentMeaning(g, target, parent);
    if zIndex.Some? && parent.Some? {
      SG.MoveToMeaning(m, target, zIndex.value);
      var others := SG.Without(SG.Kids(g, parent.value), target);
      SG.WithoutAppend(others, target);
    }
  }

  /** Puts node `target` back under `parent` at sibling index `zIndex`. */
  method RestoreParent(scene: SG.Scene, target: NodeId, zIndex: Option<int>, parent: Option<NodeId>)
    modifies scene
    ensures scene.graph == Restore(old(scene.graph), target, zIndex, parent)
  {
    scene.SetParent(target, parent);
    if zIndex.Some? {
      scene.SetSiblingIndex(target, zIndex.value);
    }
  }

  // ---- The typewriter prefixes ----

  /** Characters that end a line; the pattern's `.` does not match them. */
  predicate LineTerminator(c: char) {
    c == '\n' || c == '\r' || c == '\U{2028}' || c == '\U{2029}'
  }

  /** The end of a markup tag opened just before position `j`: the first
      `>` at or after `first`, found before any line end. */
  function TagClose(s: string, j: nat, first: nat): (r: Option<nat>)
    decreases |s| - j
    ensures r.Some? ==> j <= r.value < |s| && r.value >= first && s[r.value] == '>'
  {
    if j >= |s| then None
    else if LineTerminator(s[j]) then None
    else if s[j] == '>' && j >= first then Some(j)
    else TagClose(s, j + 1, first)
  }

  /** `s` from position `i` on with its markup tags removed: a `<`, at
      least one character, and the next `>` on the same line. */
  function StripTags(s: string, i: nat): (r: string)
    requires i <= |s|
    decreases |s| - i
    ensures |r| <= |s| - i
  {
    if i >= |s| then ""
    else if s[i] == '<' && TagClose(s, i + 1, i + 2).Some? then StripTags(s, TagClose(s, i + 1, i + 2).value + 1)
    else [s[i]] + StripTags(s, i + 1)
  }

  /** Without `<` there is no tag to remove. */
  lemma {:induction false} StripTagsPlain(s: string, i: nat)
    requires i <= |s| && '<' !in s
    ensures StripTags(s, i) == s[i..]
    decreases |s| - i
  {
    if i < |s| {
      assert s[i] in s;
      StripTagsPlain(s, i + 1);
    }
  }

  /** The last position of `c` in `s`, or -1. */
  function LastIndexOf(s: string, c: char): (r: int)
    ensures -1 <= r < |s|
  {
    if s == [] then -1
    else if s[|s| - 1] == c then |s| - 1
    else LastIndexOf(s[..|s| - 1], c)
  }

  /** The position found holds `c` and none after it does; -1 means `c`
      does not occur. */
  lemma {:induction false} LastIndexOfSpec(s: string, c: char)
    ensures var r := LastIndexOf(s, c);
      && (r >= 0 ==> s[r] == c && forall k :: r < k < |s| ==> s[k] != c)
      && (r == -1 ==> c !in s)
  {
    if s != [] && s[|s| - 1] != c {
      LastIndexOfSpec(s[..|s| - 1], c);
      assert s == s[..|s| - 1] + [s[|s| - 1]];
    }
  }

  /** `String.prototype.slice(0, e)` for `-1 <= e`: a negative end counts
      from the back. */
  function SliceTo(s: string, e: int): string
    requires -1 <= e <= |s|
  {
    if e >= 0 then s[..e] else if |s| > 0 then s[..|s| - 1] else ""
  }

  /** The string one round of the loop pushes: the string `arr[|chars| - i]`
      without the last occurrence of character `i - 1`. */
  function Shorten(arr: seq<string>, chars: seq<char>, i: nat): string
    requires 1 <= i <= |chars| && |chars| - i < |arr|
  {
    var cur := arr[|chars| - i];
    var last := LastIndexOf(cur, chars[i - 1]);
    SliceTo(cur, last) + cur[last + 1..]
  }

  /** The array after the rounds `i` down to 2 of the loop. */
  function Rounds(arr: seq<string>, chars: seq<char>, i: nat): (r: seq<string>)
    requires i <= |chars| && |chars| - i < |arr|
    decreases i
  {
    if i <= 1 then arr else Rounds(arr + [Shorten(arr, chars, i)], chars, i - 1)
  }

  /** What `curText(str, arr)` leaves in `arr`. */
  function CurTextOf(str: string, arr: seq<string>): seq<string> {
    var chars := StripTags(str, 0);
    Rounds(arr + [str], chars, |chars|)
  }

  /** `curText`: pushes `str`, then for each visible character from the
      last to the second removes its last occurrence from the string pushed
      that many rounds earlier. */
  method CurText(str: string, arr: seq<string>) returns (out: seq<string>)
    ensures out == CurTextOf(str, arr)
  {
    var chars := StripTags(str, 0);
    out := arr + [str];
    var i: nat := |chars|;
    ghost var goal := Rounds(out, chars, i);
    while i > 1
      invariant i <= |chars| && |chars| - i < |out|
      invariant Rounds(out, chars, i) == goal
    {
      var cur := out[|chars| - i];
      var last := LastIndexOf(cur, chars[i - 1]);
      var prev := SliceTo(cur, last);
      var next := cur[last + 1..];
      assert prev + next == Shorten(out, chars, i);
      out := out + [prev + next];
      i := i - 1;
    }
  }

  /** On an empty array and a tag-free text of `n` characters the rounds
      leave the text and its prefixes of lengths `n - 1` down to 1. */
  lemma {:induction false} RoundsPlain(s: string, arr: seq<string>, i: nat)
    requires 1 <= i <= |s| && |arr| == |s| - i + 1
    requires forall k :: 0 <= k < |arr| ==> arr[k] == s[..|s| - k]
    ensures var r := Rounds(arr, s, i);
      |r| == |s| && forall k :: 0 <= k < |s| ==> r[k] == s[..|s| - k]
    decreases i
  {
    if i > 1 {
      var cur := arr[|s| - i];
      assert cur == s[..i];
      assert LastIndexOf(cur, s[i - 1]) == i - 1;
      assert Shorten(arr, s, i) == s[..i - 1];
      var arr' := arr + [s[..i - 1]];
      forall k | 0 <= k < |arr'| ensures arr'[k] == s[..|s| - k] {
        if k == |arr| {
          assert |s| - k == i - 1;
        }
      }
      RoundsPlain(s, arr', i - 1);
    }
  }

  /** For a text without markup, `curText` on an empty array leaves the
      text followed by its ever shorter prefixes down to the first
      character; for the empty text it leaves just the empty text. */
  lemma CurTextPlain(s: string)
    requires '<' !in s
    ensures |s| == 0 ==> CurTextOf(s, []) == [""]
    ensures |s| > 0 ==> |CurTextOf(s, [])| == |s|
                        && forall k :: 0 <= k < |s| ==> CurTextOf(s, [])[k] == s[..|s| - k]
  {
    StripTagsPlain(s, 0);
    assert s[0..] == s && [] + [s] == [s];
    assert CurTextOf(s, []) == Rounds([s], s, |s|);
    if |s| > 0 {
      RoundsPlain(s, [s], |s|);
    }
  }
}
