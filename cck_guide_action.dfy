// The step record of the second engine variant, whose configuration keeps
// every field at the top level.
module CckGuideAction {
  import opened Common
  import GA = GuideAction
  import GG = GuideGroup

  /** A flat step configuration. */
  datatype CckGuideInfo = CckGuideInfo(
    guideId: string, guideType: int, targetId: seq<string>, descript: string,
    uiId: Option<string>, syncId: string, showType: GA.Scope, npc: bool)

  class CckGuideAction {
    var info: CckGuideInfo
    var valid: bool

    constructor (info: CckGuideInfo)
      ensures this.info == info && valid
    {
      this.info := info;
      valid := true;
    }

    function GuideId(): string reads this { info.guideId }
    function GuideType(): int reads this { info.guideType }
    function TargetId(): seq<string> reads this { info.targetId }
    function Descript(): string reads this { info.descript }
    function UiId(): Option<string> reads this { info.uiId }
    function SyncId(): string reads this { info.syncId }
    function ShowType(): GA.Scope reads this { info.showType }
    function Npc(): bool reads this { info.npc }

    method SetIsValid(isValid: bool)
      modifies this
      ensures valid == isValid && info == old(info)
    {
      valid := isValid;
    }

    method SetGuideConfig(info: CckGuideInfo)
      modifies this
      ensures this.info == info && valid
    {
      this.info := info;
      valid := true;
    }
  }

  /** The nested-layout configuration carrying the same step: the kind-specific
      fields move under `data`; the description and the NPC flag are read by
      the rendering components only. */
  function Nested(c: CckGuideInfo): (g: GA.GuideInfo)
    ensures g.guideId == c.guideId && g.guideType == c.guideType && g.syncId == c.syncId
    ensures g.data.uiId == c.uiId && g.data.targetId == c.targetId && g.data.showType == c.showType
  {
    GA.GuideInfo(c.guideId, c.guideType, c.syncId, GA.StepData(c.uiId, c.targetId, c.showType))
  }

  /** The flat configuration carrying nested step `g`, with the two fields
      only the flat layout has. */
  function Flatten(g: GA.GuideInfo, descript: string, npc: bool): (c: CckGuideInfo)
    ensures Nested(c) == g && c.descript == descript && c.npc == npc
  {
    CckGuideInfo(g.guideId, g.guideType, g.data.targetId, descript, g.data.uiId, g.syncId, g.data.showType, npc)
  }

  /** Nesting loses nothing but the description and the NPC flag: flattening
      back with those two restores the flat configuration. */
  lemma FlattenNested(c: CckGuideInfo)
    ensures Flatten(Nested(c), c.descript, c.npc) == c
  {
  }

  /** A record of either variant carrying the same step answers every getter
      the sequencer uses alike. */
  lemma GettersAgree(a: GA.GuideAction, b: CckGuideAction)
    requires a.info == Nested(b.info)
    ensures a.GuideId() == b.GuideId() && a.GuideType() == b.GuideType() && a.SyncId() == b.SyncId()
    ensures a.GetData().uiId == b.UiId() && a.GetData().targetId == b.TargetId() && a.GetData().showType == b.ShowType()
  {
  }

  /** How the second variant's sequencer continues to a valid next step `c`,
      read on the flat record: with no screen switch it starts the step when
      the screen is open and otherwise does nothing; after a switch it starts
      the step on an open screen and otherwise asks to be run again. An
      absent or empty previous screen id means no switch. */
  function FlatDecision(last: Option<string>, c: CckGuideInfo, open: bool): (d: GG.Decision)
    ensures d == GG.Start <==> open
  {
    if last.None? || |last.value| == 0 || last == c.uiId then (if open then GG.Start else GG.Stall)
    else if open then GG.Start else GG.Defer
  }

  /** The sequencer, which reads the nested layout, takes the decision the
      flat record calls for, tests the same step kind and masks the same
      first widget. */
  lemma LayoutsAgree(last: Option<string>, c: CckGuideInfo, open: bool)
    ensures GG.ContinueDecision(GG.Cck, last, Nested(c), open) == FlatDecision(last, c, open)
    ensures GA.NeedsNoScreen(Nested(c).guideType) <==> GA.NeedsNoScreen(c.guideType)
    ensures GG.MaskArg(GG.Cck, Nested(c)) == if |c.targetId| > 0 then Some(c.targetId[0]) else None
  {
  }
}
