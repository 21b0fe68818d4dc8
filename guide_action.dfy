// Step configuration records of the tutorial engine and the step map that a
// tutorial group keeps them in.
module GuideAction {
  import opened Common

  /** Highlight scope of a registered screen. */
  datatype Scope = EntirePanel | PartialPanel

  /** Step kinds, as numbered by the engine. */
  const FINGER := 0
  const DIALOGUE := 1
  const TEXT := 2
  const IMAGE := 3
  const ANIMATION := 4

  /** Step kinds that may start without their screen being open. */
  predicate NeedsNoScreen(guideType: int) {
    guideType == DIALOGUE || guideType == IMAGE || guideType == ANIMATION
  }

  /** The kind-specific payload of a step; `uiId` is `None` when the
      configuration does not give one. */
  datatype StepData = StepData(uiId: Option<string>, targetId: seq<string>, showType: Scope)

  /** One step of a tutorial group as configured; `syncId` is the id of the
      next step, empty for the last one. */
  datatype GuideInfo = GuideInfo(guideId: string, guideType: int, syncId: string, data: StepData)

  /** A pooled, reusable holder of one step configuration and a validity flag. */
  class GuideAction {
    var info: GuideInfo
    var valid: bool

    constructor (info: GuideInfo)
      ensures this.info == info && valid
    {
      this.info := info;
      valid := true;
    }

    function GuideId(): string reads this { info.guideId }
    function GuideType(): int reads this { info.guideType }
    function SyncId(): string reads this { info.syncId }
    function GetData(): StepData reads this { info.data }

    method SetIsValid(isValid: bool)
      modifies this
      ensures valid == isValid && info == old(info)
    {
      valid := isValid;
    }

    /** Reuses the holder for another step: the new configuration, valid again. */
    method SetGuideConfig(info: GuideInfo)
      modifies this
      ensures this.info == info && valid
    {
      this.info := info;
      valid := true;
    }
  }

  /** The records of `ks`, in that order. */
  function ValuesOf(ks: seq<string>, m: map<string, GuideAction>): (vs: seq<GuideAction>)
    requires forall k :: k in ks ==> k in m
    ensures |vs| == |ks| && forall i :: 0 <= i < |ks| ==> vs[i] == m[ks[i]]
  {
    if ks == [] then [] else ValuesOf(ks[..|ks| - 1], m) + [m[ks[|ks| - 1]]]
  }

  /** The configurations held by `vs`, in that order. */
  function InfosOf(vs: seq<GuideAction>): (s: seq<GuideInfo>)
    reads vs
    ensures |s| == |vs| && forall i :: 0 <= i < |vs| ==> s[i] == vs[i].info
  {
    if vs == [] then [] else InfosOf(vs[..|vs| - 1]) + [vs[|vs| - 1].info]
  }

  /** A string-keyed map that remembers insertion order, holding step records. */
  class StepMap {
    var keys: seq<string>
    var records: map<string, GuideAction>

    ghost predicate Valid() reads this {
      NoDup(keys) && forall k :: k in records <==> k in keys
    }

    constructor ()
      ensures Valid() && keys == [] && records == map[]
    {
      keys := [];
      records := map[];
    }

    function Size(): nat reads this { |keys| }

    /** Records in insertion order of their keys. */
    function Values(): seq<GuideAction>
      reads this
      requires Valid()
    {
      ValuesOf(keys, records)
    }

    /** Step configurations in insertion order. */
    function Steps(): seq<GuideInfo>
      reads this, records.Values
      requires Valid()
    {
      InfosOf(Values())
    }

    method Set(k: string, v: GuideAction)
      requires Valid()
      modifies this
      ensures Valid()
      ensures records == old(records)[k := v]
      ensures keys == if k in old(keys) then old(keys) else old(keys) + [k]
    {
      if k !in keys {
        keys := keys + [k];
      }
      records := records[k := v];
    }

    method Clear()
      modifies this
      ensures Valid() && keys == [] && records == map[]
    {
      keys := [];
      records := map[];
    }
  }
}
