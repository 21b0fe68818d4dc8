# CCSpark tutorial core, networking codec and registries, in Dafny

This project models the core of CCSpark, a TypeScript framework for Cocos Creator games.

**The tutorial sequencer ("guide group").** A tutorial is a group of steps loaded from a configuration object. Each step has:
- an id;
- the id of its successor (empty for the last step);
- the screen it runs on;
- the widget ids it points at;
- a highlight scope (the whole screen, or only its matching widgets).

The group keeps:
- a pool of step records, reused from one group to the next;
- a current step;
- the flags closed, launched, guiding and "try again";
- the last screen id.

It emits events (show the tutorial window, show the dimmer, store the recovery id, step started, step done, hide, group over). The code base ships two variants of the group:
- `cczest`: a step that needs no screen starts at once, and a step whose screen is closed asks to be tried again;
- `cck`: a step only starts on an open screen, and an empty last screen id never counts as a switch.

Both are one class with a `rule` field (`GuideGroup.StartRule`).

**The other parts modelled:**
- **Target index** (`GuideSearch`): registered screens; bindings from widget ids to the node that carries them and the steps that list them; each step's highlight nodes, collected by a recursive pre-order walk of the screen.
- **Highlight bookkeeping** (`GuideHighlight`): the finger and camera components lift a step's highlight nodes onto the tutorial layer, strike the step from every widget binding on completion, and put the nodes back.
- **Facade** (`GuideManager`): it keeps the recovery cursor (the id of the last completed step) and reacts to the group's events.
- **Helpers** (`GuideUtils`): the next-step lookup, screen registration and the typewriter prefixes of a text.
- **Pools**: the object pool (`ObjectPool`) and the camera pool (`CameraPool`).
- **Binary protocol** (`BinaryProtocol`): UTF-16 code units to UTF-8 bytes, as in section 3 of RFC 3629, one code unit at a time.
- **Socket messages** (`SocketMessage` for the pure framing, `Socket` for the message objects and the socket): `name|payload` frames out, `name|code|payload` frames in.
- **Socket connection state**: reconnection counting, the timeout and heartbeat counters, and the queue of unsent frames.
- **Scene manager** (`SceneManager`): the current scene, the stack of scenes run, and going back over interim scenes.
- **Class decorator** (`Decorator`): the registries of system classes and red-dot action classes.

**How the source's parts are modelled:**
- Objects whose fields the source updates in place are classes. These include the group, the index, the components, the pools, the socket, the message objects and the scene manager.
- The loops of the source are methods proved against functions on values. Examples: the pool refill, the tree walk, the completion loop, the UTF-8 encoder and decoder, and the scene stack unwinding.
- Events, signals and engine calls that the source sends to listeners become appended entries of a trace (`trace`, `signals`, `calls`, `log`, `windowCalls`).
- The engine's scene is the `SceneGraph.Scene` class over a `SceneGraph.Graph` value: each node's parent, and each parent's ordered list of children. `Scene.GetParent`, `Scene.GetSiblingIndex`, `Scene.SetParent` and `Scene.SetSiblingIndex` are the engine's `parent`, `getSiblingIndex`, `removeFromParent` followed by a parent assignment, and `setSiblingIndex`. They are what `getPriority`/`setPriority` (`code/cczest/util.ts:11-46`), `addChildToGuideLayer` and `removeToParent` (`code/cczest/guide/GuideManager.ts:123-143`) call.
- The index's walk over a screen (`GuideSearch.Tree`, a value) stamps each visited node's sibling order in the `Stage` class, a separate order table (`Stage.SetPriority`).
- A step record is a `GuideAction.GuideAction` class: its getters `GuideId`, `GuideType`, `SyncId` and `GetData` are the getters of `code/cczest/guide/GuideAction.ts:13-18`, and return a field each. The flat-layout record `CckGuideAction.CckGuideAction` has the eight getters of `code/cck/guide/GuideAction.ts:13-27`. `CckGuideAction.GettersAgree` states that the two kinds agree on the same step.
- A group's JavaScript `Map` of steps is the `GuideAction.StepMap` class: its key order and its records. `Values` and `Steps` read it in insertion order, as the source's `forEach` and `keys()` do.

## Model

| member | source | states |
|---|---|---|
| GuideAction.GuideAction.constructor | code/cczest/guide/GuideAction.ts:7-10 | a new record holds the configuration it was given and is valid |
| GuideAction.GuideAction.SetIsValid | code/cczest/guide/GuideAction.ts:21-23 | only the validity flag changes, the configuration stays |
| GuideAction.GuideAction.SetGuideConfig | code/cczest/guide/GuideAction.ts:25-28 | reconfiguring a (pooled) record installs the new configuration and makes it valid again |
| GuideAction.ValuesOf | code/cczest/guide/GuideGroup.ts:60-62 | the records of a map of steps, listed key by key in the key order given |
| GuideAction.InfosOf | code/cczest/guide/GuideGroup.ts:66-76 | the configurations the records hold, one for one and in order |
| GuideAction.StepMap.constructor | code/cczest/guide/GuideGroup.ts:28 | a new map of steps is empty |
| GuideAction.StepMap.Set | code/cczest/guide/GuideGroup.ts:71-75 | the key maps to the record; a new key goes to the end of the key order, an existing one keeps its place |
| GuideAction.StepMap.Clear | code/cczest/guide/GuideGroup.ts:64 | the map is emptied |
| CckGuideAction.CckGuideAction.constructor | code/cck/guide/GuideAction.ts:7-10 | a new flat-layout record holds its configuration and is valid |
| CckGuideAction.CckGuideAction.SetIsValid | code/cck/guide/GuideAction.ts:31-33 | only the validity flag changes |
| CckGuideAction.CckGuideAction.SetGuideConfig | code/cck/guide/GuideAction.ts:35-38 | the new configuration is installed and the record is valid |
| CckGuideAction.Nested | code/cck/guide/GuideAction.ts:12-27 | the flat layout's id, type, successor, screen, widget ids and scope are the nested layout's fields of the same meaning; `Flatten` undoes it |
| CckGuideAction.Flatten | code/cck/guide/GuideAction.ts:12-27 | the flat record built from a nested step and the two flat-only fields nests back to that step and keeps those fields |
| CckGuideAction.FlattenNested | code/cck/guide/GuideAction.ts:12-27 | nesting loses only the description and the NPC flag: flattening back with them restores the flat record |
| CckGuideAction.GettersAgree | code/cck/guide/GuideAction.ts:12-27 | a record of each variant carrying the same step answers id, type, successor, screen, widget ids and scope alike |
| CckGuideAction.FlatDecision | code/cck/guide/GuideGroup.ts:160-169 | read on the flat record, a valid next step starts exactly when its screen is open; otherwise it waits with no switch and asks to be run again after one |
| CckGuideAction.LayoutsAgree | code/cck/guide/GuideGroup.ts:151-227 | the sequencer's decision on the nested form is the flat record's decision, and the step kind and masked widget are read alike |
| GuideGroup.ContinueDecision | code/cczest/guide/GuideGroup.ts:161-170 | a continuation starts the next step only if the variant allows it (same screen in the first variant, or the step can start now), and stalls only in the second variant on a closed screen |
| GuideGroup.ContinueDecisionRules | code/cck/guide/GuideGroup.ts:156-170 | on the same screen the first variant always starts and the second starts exactly when the screen is open; after a switch both defer exactly when the step cannot start, and never stall |
| GuideGroup.SwitchedAgree | code/cck/guide/GuideGroup.ts:212-219 | the two variants' screen-switch tests agree except that the second ignores an empty last screen id |
| GuideGroup.GuideGroup.constructor | code/cczest/guide/GuideGroup.ts:24-30 | a new group has no steps, an empty pool, no current step and an empty trace; every flag is cleared and the last screen id is empty |
| GuideGroup.GuideGroup.FirstGuideAction | code/cczest/guide/GuideGroup.ts:264-271 | the first record in key order, and none exactly when the group is empty |
| GuideGroup.GuideGroup.HasGuideActionPredictsLaunch | code/cczest/guide/GuideGroup.ts:176-191 | for a non-empty recovery id on an open group, the query is true exactly when a launch from that id would start a step rather than end the group or do nothing |
| GuideGroup.GuideGroup.GuideTargets | code/cczest/guide/GuideGroup.ts:37-46 | every binding returned is the index's binding of a widget id the current step lists, and every such bound widget's binding is returned; when every listed id is bound, binding `i` is that of id `i`; in `code/cck/guide/GuideGroup.ts:36-44`, the cck copy, does the same over records read through `CckGuideAction.Nested` |
| GuideGroup.GuideGroup.LightTargets | code/cczest/guide/GuideGroup.ts:47 | the highlight list is present exactly when the index holds one for the current step's id, and it is that list |
| GuideGroup.GuideGroup.ReleaseAll | code/cczest/guide/GuideGroup.ts:60-65 | every record goes back to the pool, in key order after the pooled ones, and the group is emptied |
| GuideGroup.GuideGroup.SetCurrentGuide | code/cczest/guide/GuideGroup.ts:201-206 | the replaced record is invalidated with its configuration untouched; no flag changes |
| GuideGroup.GuideGroup.InitGuideGroup | code/cczest/guide/GuideGroup.ts:58-80 | flags are reset; the group holds exactly the configuration's entries under their keys in order, each in a valid record; records come first from the top of the pool, then fresh; the group is valid exactly when the configuration is non-empty; in `code/cck/guide/GuideGroup.ts:56-78`, the cck copy, does the same |
| GuideGroup.GuideGroup.Reset | code/cczest/guide/GuideGroup.ts:51-56 | closed, launched and try-again are cleared, and the last screen id becomes empty; nothing else changes |
| GuideGroup.GuideGroup.Reload | code/cczest/guide/GuideGroup.ts:60-79 | the records move from the group to the pool and back, so that the group holds the configuration (as `Loaded` states) |
| GuideGroup.GuideGroup.Refill | code/cczest/guide/GuideGroup.ts:66-79 | the refill loop leaves the group holding every entry in order, reusing the pooled records from the top, and the pool and group records stay distinct |
| GuideGroup.GuideGroup.RefillDone | code/cczest/guide/GuideGroup.ts:66-79 | the loop state after the last entry is the loaded configuration |
| GuideGroup.GuideGroup.RefillStep | code/cczest/guide/GuideGroup.ts:67-78 | one round places entry `j` and keeps the loop state |
| GuideGroup.GuideGroup.PlaceEntry | code/cczest/guide/GuideGroup.ts:67-78 | the entry's key is appended and its record holds the entry, valid; the record is the old top of the pool, or fresh when the pool was empty |
| GuideGroup.GuideGroup.TakeRecord | code/cczest/guide/GuideGroup.ts:68-75 | pops the pool's top record and reconfigures it, or makes a fresh record when the pool is empty |
| GuideGroup.GuideGroup.GuideRollBack | code/cczest/guide/GuideGroup.ts:83-88 | a known id becomes the current step (the old one invalidated); an unknown id changes nothing |
| GuideGroup.GuideGroup.GuidePause | code/cczest/guide/GuideGroup.ts:122-126 | closed, not launched and not guiding; nothing else changes |
| GuideGroup.GuideGroup.GuideOpen | code/cczest/guide/GuideGroup.ts:129-139 | the group is reopened, and the tutorial window is requested exactly when there is no valid current step and a launch from the id has a step to run |
| GuideGroup.GuideGroup.GuideCompleteEvents | code/cczest/guide/GuideGroup.ts:245-248 | a completion stores the step's id for recovery and then announces the step done |
| GuideGroup.GuideGroup.NewStepGuide | code/cczest/guide/GuideGroup.ts:236-242 | a step start sets guiding, clears try-again and emits the dimmer then the start event |
| GuideGroup.GuideGroup.GuideStart | code/cczest/guide/GuideGroup.ts:219-234 | the step starts exactly when the start rule allows; otherwise the first variant sets try-again and changes nothing else; in `code/cck/guide/GuideGroup.ts:222-230`, the cck copy, a step that cannot start changes nothing |
| GuideGroup.GuideGroup.GuideOverStep | code/cczest/guide/GuideGroup.ts:251-262 | guiding stops, every record returns to the pool, the index is cleared, and the dimmer is hidden before the end is announced with the current step's id; in `code/cck/guide/GuideGroup.ts:239-250`, the cck copy, does the same |
| GuideGroup.GuideGroup.GuideLaunch | code/cczest/guide/GuideGroup.ts:91-119 | a launch on a paused or empty group changes nothing; from a last step it ends the group; from a step with a successor it makes the successor current, remembering the step's screen; from an unknown id it makes the first step current; then the new step starts exactly when the start rule allows; in `code/cck/guide/GuideGroup.ts:89-117`, the cck copy, does the same with its start rule |
| GuideGroup.GuideGroup.GuideResume | code/cczest/guide/GuideGroup.ts:144-149 | the group is reopened and launched, and the current step is completed: its recovery and done events come first, no later event stores a recovery id, and the old current record is kept or invalidated; with no successor the records return to the pool and the hide and group-over events follow; with one, the last screen id becomes the step's, the old record is invalidated and the successor's record becomes current, and it then starts, waits for its screen or stalls as `ContinueDecision` says |
| GuideGroup.GuideGroup.GuideContinue | code/cczest/guide/GuideGroup.ts:152-174 | nothing happens unless a step is running on an open group; otherwise the step's completion events are emitted, then the group ends (last step) or the successor becomes current with the step's screen remembered and starts, waits or stalls as `ContinueDecision` says; in `code/cck/guide/GuideGroup.ts:152-171`, the cck copy, does the same |
| GuideGroup.GuideGroup.Advance | code/cczest/guide/GuideGroup.ts:156-171 | the successor becomes current (none if unknown) and starts, defers or stalls as `ContinueDecision` says |
| GuideGroup.GuideGroup.StartNext | code/cczest/guide/GuideGroup.ts:161-170 | the new current step starts, defers or stalls exactly as `ContinueDecision` says; in `code/cck/guide/GuideGroup.ts:161-170`, the cck copy, defers on a closed new screen and tries a start otherwise |
| GuideGroup.GuideGroup.SwitchUI | code/cczest/guide/GuideGroup.ts:209-216 | the result is true exactly when a last screen id is set and differs from the current step's screen; in `code/cck/guide/GuideGroup.ts:212-219`, the cck copy, an empty last screen id never counts as a switch |
| GuideGroup.OverIdAsWritten | code/cczest/guide/GuideGroup.ts:251-262 | the end-of-group read of the current step's id fails exactly when there is no current record, and otherwise agrees with `OverId` |
| GuideGroup.LaunchFromLastStep | code/cczest/guide/GuideGroup.ts:91-104 | the finding's witness: on a fresh group launched from its single final step, the id read as written fails, while the corrected end event carries no id |
| GuideGroup.TargetsFor | code/cczest/guide/GuideGroup.ts:40-44 | the collected bindings are exactly the bindings of the listed ids that exist, at most one per id; when every listed id is bound, binding `i` is that of id `i` |
| GuideGroup.TargetsForAppend | code/cczest/guide/GuideGroup.ts:40-44 | collecting keeps the listed order: the bindings of two runs of ids one after the other are those of the first run followed by those of the second |
| GuideSearch.GuideSearch.constructor | code/cck/guide/GuideSearch.ts:22-26 | a new index has no screens, bindings or highlight lists and no group |
| GuideSearch.GuideSearch.Clear | code/cck/guide/GuideSearch.ts:40-44 | screens, bindings and highlight lists are emptied; the group link stays |
| GuideSearch.GuideSearch.SetGuideGroup | code/cck/guide/GuideSearch.ts:50-52 | only the group link changes |
| GuideSearch.GuideSearch.AddGuideView | code/cck/guide/GuideSearch.ts:54-62 | a new screen is registered with its root and scope, and an already registered one is kept; the widgets below a new or partially highlighted screen are bound by the walk |
| GuideSearch.GuideSearch.RemoveGuideView | code/cck/guide/GuideSearch.ts:64-68 | a screen is unregistered only when it is fully highlighted; the bindings and lists stay |
| GuideSearch.GuideSearch.SearchLightTarget | code/cck/guide/GuideSearch.ts:74-86 | for a fully highlighted screen the root is added to the step's list; otherwise the walk adds every node whose widget id the step targets |
| GuideSearch.GuideSearch.AddGuideTarget | code/cck/guide/GuideSearch.ts:88-102 | a missing binding or one without a node is refused; a non-empty, not yet bound widget id is bound, and an existing binding is never replaced |
| GuideSearch.GuideSearch.AddLightTarget | code/cck/guide/GuideSearch.ts:104-120 | a missing node is refused; otherwise the node is added to the step's list unless already there |
| GuideSearch.GuideSearch.TraversalChild | code/cck/guide/GuideSearch.ts:126-135 | the walk updates the index exactly as applying the callback to each visit of the pre-order walk `Walk` |
| GuideSearch.GuideSearch.VisitSubtree | code/cck/guide/GuideSearch.ts:127-133 | child `i` is visited with its sibling index, then its own subtree is walked |
| GuideSearch.GuideSearch.VisitNext | code/cck/guide/GuideSearch.ts:127-133 | one round of the loop over the children: once child `i` and its subtree are walked, the rest of the walk from child `i + 1` still reaches the same final index |
| GuideSearch.GuideSearch.VisitChild | code/cck/guide/GuideSearch.ts:128-132 | a node gets its sibling order, then the callback runs on it |
| GuideSearch.GuideSearch.StorageGuideTarget | code/cck/guide/GuideSearch.ts:138-162 | a node's widget is bound to the ids of every step listing it, in step order, when there are any and the id is not bound yet |
| GuideSearch.GuideSearch.MatchingSteps | code/cck/guide/GuideSearch.ts:146-157 | the ids, in step order, of the steps whose target list contains the widget id |
| GuideSearch.GuideSearch.StorageLightTarget | code/cck/guide/GuideSearch.ts:164-175 | a node is added to the step's highlight list exactly when its widget id is one the step targets |
| GuideSearch.WalkPreOrder | code/cck/guide/GuideSearch.ts:126-135 | child `i` is visited with index `i`, immediately followed by the visits of its subtree, and the visits from child `i` on are a suffix of the whole walk |
| GuideSearch.WalkStampsIndices | code/cck/guide/GuideSearch.ts:128 | after a walk over distinct nodes every visited node's sibling order is its index among its siblings; other nodes keep theirs |
| GuideSearch.BoundIdsMeaning | code/cck/guide/GuideSearch.ts:146-157 | a step id is bound to a widget exactly when that step lists the widget |
| GuideSearch.WalkBindings | code/cck/guide/GuideSearch.ts:138-162 | during a walk, existing bindings are never replaced, and a new widget id is bound exactly when it is non-empty, some step lists it and the walk meets it; it is bound to the first node met and to all those steps |
| GuideSearch.AddLightMeaning | code/cck/guide/GuideSearch.ts:104-120 | adding a highlight node keeps lists free of repetition, touches only its step's list, extends it, and adds exactly that node |
| GuideSearch.WalkLights | code/cck/guide/GuideSearch.ts:164-175 | after a walk a node is in the step's list exactly when it was before or the walk met it with a targeted widget id; other lists and the bindings stay |
| SceneGraph.Slot | code/cczest/util.ts:11-19 | where `setSiblingIndex(k)` puts a node among `len` other siblings: never past the end, and exactly at `k` when `k` is a valid index |
| SceneGraph.Scene.SetParent | code/cczest/guide/GuideManager.ts:138-143 | the scene becomes `Reparent` of the old one: the node leaves its parent's list and becomes the last child of the new parent, or has none |
| SceneGraph.Scene.SetSiblingIndex | code/cczest/util.ts:11-19 | the scene becomes `MoveTo` of the old one: the node moves within its parent's list to the slot the index names |
| SceneGraph.ReparentMeaning | code/cczest/guide/GuideManager.ts:123-143 | reparenting keeps the scene consistent, gives the node its new parent, appends it to that parent's list, closes up the list it left, and changes no other node's parent |
| SceneGraph.MoveToMeaning | code/cczest/util.ts:11-19 | moving a child keeps every parent; its parent's list is the list without it, with it inserted at the slot, where its sibling index then is; no other list changes |
| SceneGraph.PutBackUndoes | code/cczest/guide/guide_utils.ts:43-46 | a node taken from its parent (and put under the layer, if any), then put back under that parent and moved to the index it had, leaves the whole scene as it was |
| SceneGraph.DetachAllMeaning | code/cczest/guide/GuideManager.ts:138-143 | taking nodes out of their parents removes exactly their parent entries and leaves every list in its order without them |
| SceneGraph.DetachAllTwice | code/cczest/guide/GuideManager.ts:138-143 | taking the same nodes out again changes nothing |
| GuideHighlight.SavedIndices | code/cczest/guide/component/GuideFinger.ts:130-133 | one saved sibling index per lifted node, read just before its own lift |
| GuideHighlight.SavedParents | code/cczest/guide/component/GuideFinger.ts:130-133 | one saved parent per lifted node, read just before its own lift |
| GuideHighlight.LiftAllOutside | code/cczest/guide/component/GuideFinger.ts:130-133 | lifting other nodes never changes a node's parent |
| GuideHighlight.RestoreAfterLift | code/cczest/guide/guide_utils.ts:43-46 | a node lifted onto the layer and then restored with the index and parent read just before the lift gives back the whole scene |
| GuideHighlight.ReverseRestoreUndoesLift | code/cczest/guide/component/GuideFinger.ts:269-272 | the corrected restore: lifting nodes one after the other and restoring them last to first from the saved lists gives back the scene exactly, sibling order included |
| GuideHighlight.ForwardRestoreSwaps | code/cczest/guide/component/GuideFinger.ts:269-272 | the restore as written, first node first, does not give the scene back: children [1, 2, 3] with nodes 1 and 2 lifted save index 0 twice and come back as [2, 1, 3] |
| GuideHighlight.SavedParentsAt | code/cczest/guide/component/GuideFinger.ts:130-132 | for distinct nodes, each saved parent is the node's parent before any lifting |
| GuideHighlight.RestoredAt | code/cczest/guide/component/GuideFinger.ts:269-272 | restoring puts each distinct node under its own saved parent, or none past the saved lists |
| GuideHighlight.RestoredOff | code/cczest/guide/component/GuideFinger.ts:269-272 | restoring keeps the scene consistent and changes the parents of the restored nodes only |
| GuideHighlight.RestoredFromNothing | code/cczest/guide/component/GuideFinger.ts:269-274 | restoring from emptied lists takes every node out of its parent, as `SceneGraph.DetachAll` |
| GuideHighlight.Cleared | code/cczest/guide/component/GuideFinger.ts:269-275 | after a restore the saved lists are empty and the component hidden |
| GuideHighlight.ClearedNMeaning | code/cczest/guide/component/GuideFinger.ts:263-280 | the scene stays consistent; one hit restores from the saved lists and clears them; two or more restore once, then take every node out of its parent (other lists keep their order), with the lists empty and the component hidden |
| GuideHighlight.RemoveFirstCounts | code/cczest/guide/component/GuideFinger.ts:266-268 | striking a step id removes exactly one copy when there is one, and nothing otherwise |
| GuideHighlight.SpliceBound | code/cczest/guide/component/GuideFinger.ts:263-280 | striking more widgets never lowers the number of widgets that held the step |
| GuideHighlight.GuideComponent.constructor | code/cczest/guide/component/GuideFinger.ts:72-78 | a loaded component over a consistent scene has nothing saved and no click pending |
| GuideHighlight.GuideComponent.ExecGuide | code/cczest/guide/component/GuideFinger.ts:110-120 | the finger clears its click state; the step's id, widgets and highlight nodes are stored; when the step has widgets, the saved lists grow by `SavedIndices` and `SavedParents` and the scene becomes `LiftAll` of the old one, and stays consistent; in `code/cczest/guide/component/GuideCamera.ts:53-58`, the camera does the same without touching click state |
| GuideHighlight.GuideComponent.AddLightTargetsToGuideLayer | code/cczest/guide/component/GuideFinger.ts:128-136 | only when the step has widgets: the saved lists grow by each node's parent and sibling index read just before its lift, and the scene becomes `LiftAll` of the old one |
| GuideHighlight.GuideComponent.LiftNext | code/cczest/guide/component/GuideFinger.ts:130-133 | one round of that loop: node `i`'s parent and sibling index, read before it moves, are appended to the saved lists, and the scene becomes `LiftAll` over the first `i + 1` nodes |
| GuideHighlight.GuideComponent.SpliceGuideId | code/cczest/guide/component/GuideFinger.ts:264-268 | the step is struck once from one widget's binding, and the result says whether it was there |
| GuideHighlight.GuideComponent.RestoreLights | code/cczest/guide/component/GuideFinger.ts:269-272 | the loop leaves the scene as `RestoredBackward`: last node first, each back under its saved parent at its saved index; a node past the saved lists is taken out of its parent |
| GuideHighlight.GuideComponent.CurrentGuideComplete | code/cczest/guide/component/GuideFinger.ts:257-286 | the completion satisfies `Completed`: it rejects exactly when the finger already completed or nothing is stored, and then nothing changes; otherwise it strikes the step once from every stored binding and resolves exactly when some binding held it; resolving empties the saved lists and hides; with one such binding the scene is the restore's result, with more every node ends out of its parent; a completion that does not resolve leaves the scene alone; in `code/cczest/guide/component/GuideCamera.ts:124-152`, the camera completes the same way without the click guard |
| GuideHighlight.GuideComponent.StrikeAll | code/cczest/guide/component/GuideFinger.ts:263-280 | the loop over the widgets strikes the step from each binding once, and restores exactly when some binding held it |
| GuideHighlight.GuideComponent.StrikeOne | code/cczest/guide/component/GuideFinger.ts:264-279 | one round of that loop keeps its invariant |
| GuideHighlight.GuideComponent.OnClicked | code/cczest/guide/component/GuideFinger.ts:153-159 | a click is ignored, changing nothing, until clicks are accepted; otherwise clicks stop being accepted, the step completes as `Completed` says, and the manager continues exactly when it resolves |
| GuideHighlight.GuideComponent.FingerTweenDone | code/cczest/guide/component/GuideFinger.ts:214-223 | each round counts; exactly the first lifts the input blocker, and it starts accepting clicks |
| GuideHighlight.GuideComponent.CameraTweenDone | code/cczest/guide/component/GuideCamera.ts:118-121 | the camera's move ends by hiding the input blocker and completing the step as `Completed` says; the manager continues exactly when it resolves |
| GuideHighlight.GuideComponent.OnFingerEvent | code/cczest/guide/component/GuideFinger.ts:68-70 | the finger's own event completes the step as `Completed` says, without waiting for a click; the manager continues exactly when it resolves |
| GuideHighlight.GuideComponent.DoGuideSkip | code/cczest/guide/component/GuideFinger.ts:104-107 | the component hides and the step completes as `Completed` says; everything is skipped exactly when the completion resolves or rejects; in `code/cczest/guide/component/GuideCamera.ts:48-51`, the camera does the same |
| GuideManager.HearAllMeaning | code/cczest/guide/GuideManager.ts:64-82 | after hearing a run of events the cursor is the last stored recovery id, the window requests are those of the run appended, and the dimmer's presence is unchanged |
| GuideManager.HearStartMask | code/cczest/guide/GuideManager.ts:68-72 | hearing a step start shows the dimmer (when there is one) exactly when the step's screen is not fully highlighted |
| GuideManager.HearCompletion | code/cczest/guide/GuideManager.ts:80-82 | hearing a completion moves the cursor to the completed step; when the group ends too, the window is closed and nothing else is requested |
| GuideManager.HearStartOrOver | code/cczest/guide/GuideManager.ts:74-77 | a launch or start attempt leaves the cursor alone and closes the window exactly when the group ends |
| GuideManager.HearAdvance | code/cczest/guide/GuideManager.ts:68-82 | hearing a completion followed by a start or the group's end moves the cursor to the completed step, closes the window exactly when the group ends, and shows the dimmer as for a start |
| GuideManager.FingerSpeed | code/cczest/guide/GuideManager.ts:168-170 | the speed is 200 per unit requested, capped at 10 units (2000) |
| GuideManager.GuideManager.constructor | code/cczest/guide/GuideManager.ts:32-41 | a new facade has an empty cursor, no file, no dimmer and no window requests, and a fresh group in its initial state over a fresh index |
| GuideManager.GuideManager.Listen | code/cczest/guide/GuideManager.ts:37-40 | the listeners' state becomes the result of hearing the new events |
| GuideManager.GuideManager.SetGuideView | code/cczest/guide/GuideManager.ts:88-90 | the tutorial window's id is stored |
| GuideManager.GuideManager.AddGuideMaskAndLayer | code/cczest/guide/GuideManager.ts:115-118 | the dimmer is registered with its visibility |
| GuideManager.GuideManager.SetGuideFile | code/cczest/guide/GuideManager.ts:176-178 | the configuration file is stored |
| GuideManager.GuideManager.SetFingerSpeed | code/cczest/guide/GuideManager.ts:168-170 | the stored speed is the capped `FingerSpeed` |
| GuideManager.GuideManager.AddGuideView | code/cczest/guide/GuideManager.ts:97-99 | registers a screen with the index, as `GuideSearch.AddGuideView` says |
| GuideManager.GuideManager.RemoveGuideView | code/cczest/guide/GuideManager.ts:106-108 | unregisters a fully highlighted screen only |
| GuideManager.GuideManager.SearchLightTarget | code/cczest/guide/GuideManager.ts:154-157 | true exactly when the current step has a non-empty highlight list afterwards |
| GuideManager.GuideManager.DelGuideTarget | code/cczest/guide/GuideManager.ts:265-267 | the binding is removed, and the result says whether it existed |
| GuideManager.GuideManager.HasGuideAction | code/cczest/guide/GuideManager.ts:201-203 | the group's query for the recovery cursor |
| GuideManager.GuideManager.SyncGuideGroup | code/cczest/guide/GuideManager.ts:224-236 | with a file holding the group, the group is loaded from it and the cursor takes the given id; otherwise nothing changes |
| GuideManager.GuideManager.GuideRollBack | code/cczest/guide/GuideManager.ts:160-162 | the group rolls back to the cursor's step when it has it |
| GuideManager.GuideManager.GuidePause | code/cczest/guide/GuideManager.ts:210-212 | the group is paused |
| GuideManager.GuideManager.GuideOpen | code/cczest/guide/GuideManager.ts:241-243 | the group reopens; the window is opened exactly when there is no valid current step and a launch from the cursor has a step; the cursor stays |
| GuideManager.GuideManager.GuideLaunch | code/cczest/guide/GuideManager.ts:255-257 | a launch from the cursor keeps the cursor, closes the window exactly when it ends the group, and shows the dimmer (when there is one) unless the started step's screen is fully highlighted; the dimmer is untouched when no step starts |
| GuideManager.GuideManager.AgainExecute | code/cczest/guide/GuideManager.ts:250-252 | retrying the start sets guiding exactly when the step can start, and then shows the dimmer unless the screen is fully highlighted |
| GuideManager.GuideManager.GuideContinue | code/cczest/guide/GuideManager.ts:260-262 | when a step was running the cursor becomes that step; on the last step the window closes and the dimmer stays, otherwise the window stays and the dimmer is shown as for a start exactly when the successor starts; when no step was running the listeners' state is unchanged |
| GuideManager.GuideManager.GuideResume | code/cczest/guide/GuideManager.ts:215-217 | the group is reopened and launched, the cursor becomes the step that was current; the window closes exactly when that was the last step, and the dimmer is shown as for a start exactly when the successor starts |
| GuideUtils.NextIdAgreesWithLaunch | code/cczest/guide/guide_utils.ts:49-73 | the next id names the successor a launch resumes with, is empty when a launch ends the group, and before any launch names the first step for an unknown cursor |
| GuideUtils.GetNextGuideId | code/cczest/guide/guide_utils.ts:49-73 | the loop over the keys returns the lookup `NextId`: the cursor's successor, else the first step (before a launch) or its successor (after one), none for an empty group; in `code/ccspark/guide/guide_utils.ts:47-71`, the ccspark copy, is the same lookup over flat-layout records |
| GuideUtils.Registration | code/cczest/guide/guide_utils.ts:75-83 | a screen is registered exactly when the next id is non-empty, the group has it and it runs on that screen, and then with that step's scope |
| GuideUtils.AddGuideElement | code/cczest/guide/guide_utils.ts:75-83 | the screen is registered with the scope `Registration` gives, and the index state becomes what `GuideSearch.AddGuideView` gives (the walk's bindings and lists for a new or partially highlighted screen); the index is untouched when `Registration` gives none |
| GuideUtils.AddGuideElementFlat | code/ccspark/guide/guide_utils.ts:73-81 | the same over flat-layout records, index state included |
| GuideUtils.RestoreMeaning | code/cczest/guide/guide_utils.ts:43-46 | a restore keeps the scene consistent, gives the node the parent (or none), changes no other parent, and puts it in the parent's list at the slot the index names, or last without an index |
| GuideUtils.RestoreParent | code/cczest/guide/guide_utils.ts:43-46 | the scene becomes `Restore` of the old one: `removeToParent`, then `setPriority` when there is an index |
| Stage.Stage.constructor | code/cczest/util.ts:32-38 | a new order table gives no node an order |
| Stage.Stage.SetPriority | code/cczest/util.ts:32-38 | the walk's stamp: the node gets the order, and no other node's order changes |
| GuideUtils.StripTagsPlain | code/cczest/guide/guide_utils.ts:86 | markup removal leaves a text without `<` unchanged |
| GuideUtils.LastIndexOfSpec | code/cczest/guide/guide_utils.ts:91 | the position found holds the character and no later one does; -1 means it does not occur |
| GuideUtils.CurText | code/cczest/guide/guide_utils.ts:85-96 | the loop leaves the array as `CurTextOf` |
| GuideUtils.CurTextPlain | code/cczest/guide/guide_utils.ts:85-96 | for a markup-free text on an empty array, the result is the text then its prefixes down to one character; the empty text gives just itself |
| ObjectPool.PoolGet | code/cczest/tools/CCObjectPool.ts:31-33 | taking gives the last element put and removes it; an empty pool gives none |
| ObjectPool.PutKeepsNoDup | code/cczest/tools/CCObjectPool.ts:35-39 | putting keeps the pool free of repetition, only appends, and grows by one exactly for a present element not yet pooled |
| ObjectPool.PutThenGet | code/cczest/tools/CCObjectPool.ts:31-39 | taking right after putting a new element gives it back and restores the pool |
| ObjectPool.PutAllAppends | code/cczest/tools/CCObjectPool.ts:35-39 | putting distinct new elements appends them in order |
| ObjectPool.PutAllKeepsNoDup | code/cczest/tools/CCObjectPool.ts:35-39 | putting many keeps the pool free of repetition and contains them all |
| ObjectPool.CCObjectPool.constructor | code/cczest/tools/CCObjectPool.ts:6-8 | a new pool is empty |
| ObjectPool.CCObjectPool.Size | code/cczest/tools/CCObjectPool.ts:11 | the number of pooled elements, zero exactly when empty |
| ObjectPool.CCObjectPool.Has | code/cczest/tools/CCObjectPool.ts:12 | true exactly when a take would give an element |
| ObjectPool.CCObjectPool.Get | code/cczest/tools/CCObjectPool.ts:31-33 | the pool changes as `PoolGet` says |
| ObjectPool.CCObjectPool.Put | code/cczest/tools/CCObjectPool.ts:35-39 | the pool changes as `PoolPut` says |
| ObjectPool.CCObjectPool.Clear | code/cczest/tools/CCObjectPool.ts:20-29 | the pool is emptied; its elements are dispatched, in order, exactly when the clear handler is active |
| CameraPool.GuideCameraPool.constructor | code/cczest/guide/GuideCameraPool.ts:9-11 | a new pool is empty |
| CameraPool.GuideCameraPool.Has | code/cczest/guide/GuideCameraPool.ts:31-33 | true exactly when a camera is stored under the key |
| CameraPool.GuideCameraPool.Get | code/cczest/guide/GuideCameraPool.ts:27-29 | the stored camera, present exactly when `Has` holds |
| CameraPool.GuideCameraPool.Set | code/cczest/guide/GuideCameraPool.ts:21-25 | the first camera stored under a key wins, and no other key changes |
| CameraPool.GuideCameraPool.Clear | code/cczest/guide/GuideCameraPool.ts:35-40 | afterwards no key is stored |
| CameraPool.HasAsWritten | code/cczest/guide/GuideCameraPool.ts:31-33 | the `in` test as written: true for stored keys and for names every object inherits |
| CameraPool.SetAsWritten | code/cczest/guide/GuideCameraPool.ts:21-25 | the store as written: an inherited name is never stored, other keys keep their first camera |
| CameraPool.InheritedNameIsNeverStored | code/cczest/guide/GuideCameraPool.ts:21-33 | the finding's witness: `"toString"` is reported present in an empty pool and cannot be stored |
| BinaryProtocol.ViewRoundTrip | code/cczest/network/BianryProtocol.ts:99-110 | bytes stored through the signed array read back unchanged through the unsigned view |
| BinaryProtocol.EncodeUnit | code/cczest/network/BianryProtocol.ts:80-96 | a unit below 0x80 is one byte, below 0x800 two (`110xxxxx 10xxxxxx`), otherwise three (`1110xxxx 10xxxxxx 10xxxxxx`) |
| BinaryProtocol.StringToArrayBuffer | code/cczest/network/BianryProtocol.ts:76-104 | the new signed array holds the encoding of the string, byte by byte |
| BinaryProtocol.DecodeSkips | code/cczest/network/BianryProtocol.ts:43-71 | a lead byte 0x80-0xBF or 0xF0-0xFF is consumed without output |
| BinaryProtocol.Unit2Inverse | code/cczest/network/BianryProtocol.ts:57-60 | the two-byte layout reassembles the unit |
| BinaryProtocol.Unit3Inverse | code/cczest/network/BianryProtocol.ts:61-68 | the three-byte layout reassembles the unit |
| BinaryProtocol.DecodeUnit | code/cczest/network/BianryProtocol.ts:43-71 | decoding undoes the encoding of one unit, whatever follows |
| BinaryProtocol.DecodeEncode | code/cczest/network/BianryProtocol.ts:37-104 | decoding the encoding of any string of code units gives the string back |
| BinaryProtocol.Uint8ArrayToString | code/cczest/network/BianryProtocol.ts:37-73 | the decoding loop returns `Decode` of the bytes |
| BinaryProtocol.ArrayBufferToString | code/cczest/network/BianryProtocol.ts:107-110 | a received buffer decodes as its unsigned bytes |
| BinaryProtocol.WireRoundTrip | code/cczest/network/BianryProtocol.ts:25-35 | what one end encodes into a buffer, the other end decodes unchanged |
| SocketMessage.SplitJoin | code/cczest/network/SocketMessage.ts:64 | splitting at `\|` gives fields without `\|` that join back into the frame |
| SocketMessage.Field | code/cczest/network/SocketMessage.ts:65-66 | field `i` is present exactly when the frame has more than `i` fields |
| SocketMessage.JoinSplit | code/cczest/network/SocketMessage.ts:44-66 | fields without `\|`, joined with `\|` and split again, come back as they were |
| SocketMessage.FieldOfJoin | code/cczest/network/SocketMessage.ts:44-66 | the field a receiver reads at `i` from a frame of joined fields is the field put there, and nothing past the last one |
| SocketMessage.ParseIntShow | code/cczest/network/SocketMessage.ts:65 | the decimal text of any integer parses back to it |
| SocketMessage.Serialise | code/cczest/network/SocketMessage.ts:46-58 | a boolean payload is `"true"` or `"false"`; object and array payloads are their JSON text; others their text |
| SocketMessage.Frame | code/cczest/network/SocketMessage.ts:44-60 | an outgoing frame starts with the message name followed by `\|` |
| SocketMessage.FrameName | code/cczest/network/SocketMessage.ts:44-60 | the first field of an outgoing frame is the message name |
| SocketMessage.Parse | code/cczest/network/SocketMessage.ts:63-95 | an incoming frame carries data exactly when its code field parses to 0, and otherwise an error with the parsed code |
| SocketMessage.ParseServer | code/cczest/network/SocketMessage.ts:63-95 | a server frame `name\|code\|payload` is judged by its code field alone |
| SocketMessage.StringRoundTrip | code/cczest/network/SocketMessage.ts:65-90 | a string payload without `\|` arrives unchanged with code 0 |
| SocketMessage.StringTruncated | code/cczest/network/SocketMessage.ts:86-87 | a string payload is cut at its first `\|` |
| SocketMessage.BooleanBody | code/cczest/network/SocketMessage.ts:72-79 | a boolean payload is true exactly when it is the text `"true"` |
| SocketMessage.BooleanEcho | code/cczest/network/SocketMessage.ts:46-79 | a boolean sent comes back as the same boolean |
| SocketMessage.IntEcho | code/cczest/network/SocketMessage.ts:80-82 | an integer sent as its decimal text comes back as the same number |
| SocketMessage.ErrorCode | code/cczest/network/SocketMessage.ts:92-94 | a non-zero code is reported as an error carrying that code |
| SocketMessage.MissingCode | code/cczest/network/SocketMessage.ts:65-66 | a frame without a code field is an error without a code |
| Socket.HandleCloseBounded | code/cczest/network/Socket.ts:266-276 | a close keeps the reconnection count within its maximum, and a normal closure changes nothing |
| Socket.RetriesThenGiveUp | code/cczest/network/Socket.ts:266-293 | abnormal closes make one reconnection attempt per remaining retry, then report a poor network and reset the count |
| Socket.CCSocketMessage.constructor | code/cczest/network/SocketMessage.ts:9-16 | a message object needs a data type other than null and starts with nothing received |
| Socket.NewMessage | code/cczest/network/SocketMessage.ts:9-16 | creation fails exactly for the null data type |
| Socket.CCSocketMessage.Send | code/cczest/network/SocketMessage.ts:44-60 | the frame of the payload is sent (after the queued ones) on an open socket and queued otherwise, and the timeout timer is armed |
| Socket.CCSocketMessage.Dispatch | code/cczest/network/SocketMessage.ts:63-95 | code 0 stores the payload and passes it to the message callback; any other code goes to the error callback and keeps the stored payload |
| Socket.Socket.constructor | code/cczest/network/Socket.ts:85-110 | counters at zero, a 5 s timeout and 10 s heartbeat, empty queue and message table, no timers armed |
| Socket.Socket.SetTimeoutInterval | code/cczest/network/Socket.ts:139-142 | the heartbeat interval is twice the timeout interval |
| Socket.Socket.EncodingData | code/cczest/network/Socket.ts:193-205 | on an open socket the queue is flushed in order before the frame; otherwise the frame is queued; the timeout timer is armed |
| Socket.Socket.RetrieveMsg | code/cczest/network/Socket.ts:334-345 | an existing message object is returned; otherwise one is created and remembered when its class has a data type; none otherwise |
| Socket.Socket.DispatchData | code/cczest/network/Socket.ts:216-220 | a frame goes to the message object named by its first field, which handles it as `Dispatch` says; other message objects are untouched |
| Socket.Socket.HandleDisconnect | code/cczest/network/Socket.ts:278-293 | a poor or absent network is reported and the count reset; otherwise a reconnection is attempted |
| Socket.Socket.HandleCloseCode | code/cczest/network/Socket.ts:266-276 | the connection state changes as `HandleClose` says |
| Socket.Socket.OnClose | code/cczest/network/Socket.ts:255-264 | the heartbeat stops and the close is handled with the reason looked up for its code |
| Socket.Socket.OnError | code/cczest/network/Socket.ts:249-253 | the heartbeat stops, the count resets, and a missing network is reported |
| Socket.Socket.ResetTimeoutStatus | code/cczest/network/Socket.ts:296-313 | the timeout timer stops, the delay is reported, a restored connection is reported exactly when there were exceptions, and the exception count resets |
| Socket.Socket.SendHeartbeat | code/cczest/network/Socket.ts:315-318 | the heartbeat message's frame is sent or queued |
| Socket.Socket.InitHeartbeat | code/cczest/network/Socket.ts:135-137 | the heartbeat becomes the stored message object of the name, or a fresh one of its class (then stored), or nothing when no class has the name; a class declaring no data type throws in the message constructor (code/cczest/network/SocketMessage.ts:13-15), so the heartbeat and the table keep their old values |
| Socket.Socket.OnOpen | code/cczest/network/Socket.ts:229-239 | the count resets, the connection is reported, a first heartbeat goes out, the heartbeat timer starts, and the timeout state is reset |
| Socket.Socket.OnMessage | code/cczest/network/Socket.ts:241-247 | the frame is routed, then the timeout state is reset |
| Socket.Socket.OnTimeoutCheck | code/cczest/network/Socket.ts:320-332 | the first expiry sends a heartbeat and reports an exception; the one at the maximum closes the connection as timed out; others only count |
| Socket.Socket.TimeoutElapsed | code/cczest/network/Socket.ts:43-50 | the timer's running count goes up by one per expiry: an exception is reported on the first, a timed-out close on the second |
| Socket.Socket.HeartbeatElapsed | code/cczest/network/Socket.ts:315-318 | one more heartbeat is sent or queued, arming the timeout timer, and the heartbeat timer is not started again |
| SceneManager.UnwindSpec | code/cczest/app/SceneManager.ts:124-126 | the popping loop leaves a prefix of the stack; everything popped past is interim; an interim scene is reached only when the stack ran out |
| SceneManager.SetSceneSame | code/cczest/app/SceneManager.ts:101-103 | setting the current scene again changes nothing |
| SceneManager.FirstSceneNotLoaded | code/cczest/app/SceneManager.ts:106-111 | the first scene is created, initialised, started and pushed, and never loaded |
| SceneManager.SwitchEndsAndPushes | code/cczest/app/SceneManager.ts:83-100 | a switch ends the scene left, destroys it exactly when it is ordinary, and pushes the scene switched to: the new one when it has a class, the old one otherwise |
| SceneManager.BackShortStack | code/cczest/app/SceneManager.ts:119-133 | with fewer than two scenes on the stack, going back changes nothing |
| SceneManager.BackLandsOnNormal | code/cczest/app/SceneManager.ts:118-130 | going back lands on the last ordinary scene below the current entry, the stack cut just below it and that scene pushed again; with only interim scenes below, the stack empties and the scene stays |
| SceneManager.SceneManagerState.constructor | code/cczest/app/SceneManager.ts:21-24 | no scene, an empty stack |
| SceneManager.SceneManagerState.CreateScene | code/cczest/app/SceneManager.ts:177-185 | the state changes as `Create` says: a known class gives a registered new current scene |
| SceneManager.SceneManagerState.RunScene | code/cczest/app/SceneManager.ts:194-199 | the current scene is pushed and run |
| SceneManager.SceneManagerState.SetSceneNamed | code/cczest/app/SceneManager.ts:81-112 | the state changes as `SetScene` says |
| SceneManager.SceneManagerState.BackScene | code/cczest/app/SceneManager.ts:118-134 | the popping loop leaves the state `Back` describes |
| Decorator.AddClassName | code/cczest/decorator/Decorator.ts:23-29 | fails exactly on a duplicate name, and otherwise appends the name |
| Decorator.AddClassNameNoDup | code/cczest/decorator/Decorator.ts:23-29 | appending keeps a name list free of duplicates |
| Decorator.Registry.constructor | code/cczest/decorator/Decorator.ts:15-21 | empty lists and no base classes registered |
| Decorator.Registry.GetSystemClassNames | code/cczest/decorator/Decorator.ts:35-37 | the system class names, free of duplicates |
| Decorator.Registry.GetRedDotActionClassNames | code/cczest/decorator/Decorator.ts:31-33 | the red-dot action class names, free of duplicates |
| Decorator.Registry.SetParentType | code/cczest/decorator/Decorator.ts:39-41 | registers the base class for one key |
| Decorator.Registry.Declare | code/cczest/decorator/Decorator.ts:72-85 | a game world class becomes the startup class; else a system class, else a red-dot class, has its name appended, failing on a duplicate; on success the class table maps the name to the class |
| Decorator.Registry.ZestClassNamed | code/cczest/decorator/Decorator.ts:63-86 | nothing happens in the editor; an empty name fails; otherwise the declaration's effects (`Declared`): a game world class becomes the startup class, a system class, else a red-dot class, has its name appended unless it is a duplicate, which fails, and on success the class table maps the name to the class |
| Decorator.Registry.ZestClass | code/cczest/decorator/Decorator.ts:87-105 | the same, under the class's own name: in the editor nothing, an empty own name fails, otherwise the declaration's effects (`Declared`) on the lists, the startup class and the class table |

## Left out

- Rendering, tweens, positions, the finger's turn and animation, the text and dialogue components, and the tutorial window: they are engine drawing. The cck variant's components (`GuideFinger`, `GuidePage`, `GuideText`) are not part of this model.
- `GuideSearch` exists in two copies. The cczest copy, which cczest `GuideManager.ts` imports, is not part of this model. The facade uses the cck index, which is.
- Step records use the nested (cczest) layout throughout. The flat (cck) layout is modelled by `CckGuideAction`, and `CckGuideAction.Nested` maps it to the nested one.
- cck's `_lastUiId.length` on a step without a screen would read `undefined`. The model reads an absent screen id as no switch.
- Reads of fields of absent records (crashes in the source) are preconditions. Examples: `guideTargets` with no current step, and `searchLightTarget` for an unknown step. `getNextGuideId`'s `undefined` for an empty group is `None`.
- GuideGroup.GuideGroup.InitGuideGroup: does not state that records left in the pool keep their fields.
- GuideGroup.GuideGroup.Reload: does not state that records left in the pool keep their fields.
- GuideGroup.GuideGroup.Refill: does not state that records left in the pool keep their fields.
- Event dispatch is synchronous in the source. The facade's listeners are applied to the group's trace after each group operation (`GuideManager.Listen`). The game's own listeners only see the trace.
- Promises of a completion are the `Outcome` value. `then`/`catch` are what the callers do with it.
- `TimerTask` timers are an armed flag each, plus the methods `TimeoutElapsed` and `HeartbeatElapsed` for an expiry. Real time and `setTimeout` are left out.
- `tools.Queue`'s capacity of 10 is not modelled: that class is not part of this model.
- Signals are always recorded, whether `active` or not.
- The close reasons (`errMsg`) and the `SocketEnum` codes are symbolic.
- The socket's protocol choice, `connect`, `reconnect`, `close`, `sendData` and timestamps are left out.
- `JSON.parse` and `parseFloat` are symbolic. `parseInt` is modelled, hexadecimal prefix included.
- The ccspark copies of the binary protocol and the socket message (built on `TextEncoder` and JSON) are left out.
- Scene loading is asynchronous in the source and synchronous here. Scene arguments, the mask, the wait screen and the touch effect are left out. Scene types are Normal and Interim only.
- The other decorators, `Decorator_setup.ts` and `convertToEntity` are left out. The engine's class table (`js.setClassName`) is a map from names to classes.
- `SyncGuideGroup`'s `guideId` absent stands for a non-string argument. An omitted argument is the default empty string.
- Socket.Socket.RetrieveMsg: the message table is a map, so only names stored in it count as present. The source's `in` on a plain object also sees inherited names such as `"toString"`; such a name would return an inherited function instead of a message object, and this is not modelled.
- GuideManager.GuideManager.SyncGuideGroup: the configuration file is a map, so only its own group ids count. The source's `in` on the parsed object also sees inherited names, which would hand an inherited function to the group loader; this is not modelled.
- GuideUtils.CurText: a text is a sequence of Unicode scalar values. The source's `split('')`, `lastIndexOf` and `slice` work on UTF-16 code units, so a character outside the Basic Multilingual Plane counts as two there and as one here.
- GuideUtils.CurTextPlain: states its prefixes over Unicode scalar values, as `GuideUtils.CurText` does.
- GuideUtils.StripTagsPlain: markup removal (`GuideUtils.StripTags`) reads the text as Unicode scalar values, not UTF-16 code units.
- Decorator.Registry.GetSystemClassNames: returns the list as a value. The source returns its live array, so a caller that changes that array changes the registry; that aliasing is not modelled.
- Decorator.Registry.GetRedDotActionClassNames: returns the list as a value, not the live array, as for `GetSystemClassNames`.
- GuideManager.FingerSpeed: the requested speed is an integer. The source takes any JavaScript number, fractions and `NaN` included; those are not modelled.
- GuideManager.GuideManager.SetFingerSpeed: the stored speed is an integer, as for `FingerSpeed`.
- GuideHighlight.GuideComponent.CurrentGuideComplete: a restore after the saved lists were emptied reads missing entries. The model takes each node out of its parent. The position conversion of `removeToParent` (`utils.EngineUtil.convertPosition`) is not part of this model. If the engine throws there instead, the source's loop stops early, after the promise has already resolved; that early stop is not modelled.
- GuideHighlight.GuideComponent.RestoreLights: puts the nodes back last to first, the corrected order (see Findings); the order as written, first node first, is `GuideHighlight.RestoredForward`. The engine's guard that ignores `setSiblingIndex` on a node being deactivated is not modelled.
- Stage.Stage.SetPriority: the walk's order stamp is kept in its own table, not in the scene's child lists. In the engine it sets the index a child already has, so it moves nothing; the model does not tie the table to `SceneGraph`.
- SocketMessage.ParseIntShow: integers are unbounded. The source's `parseInt` returns a JavaScript number, which loses precision above 2^53 - 1, so the round trip holds there only up to that bound.
- SocketMessage.IntEcho: holds for unbounded integers; in the source an integer beyond 2^53 - 1 in magnitude does not come back exactly.
- SocketMessage.Show: the decimal text of an unbounded integer; a JavaScript number beyond 2^53 - 1 is printed rounded, or in exponent form from 10^21 up.

## Findings

| source | as written | input that shows it | evidently intended | confidence | as-written member | corrected member |
|---|---|---|---|---|---|---|
| code/cczest/guide/GuideGroup.ts:251-262 | the end of a group reads `_currentGuide.guideId`; when a launch from a last step ends the group, no record has been made current yet | a new group whose only entry has an empty successor, launched from that entry's id | announce the end without a step id when there is no current record | not executed | GuideGroup.LaunchFromLastStep | GuideGroup.GuideGroup.GuideOverStep |
| code/cczest/guide/GuideCameraPool.ts:21-33 | `key in this._pool` on a plain object also sees inherited property names, so such a key is reported present and never stored | the key `"toString"` | only keys stored in the pool count | not executed | CameraPool.InheritedNameIsNeverStored | CameraPool.GuideCameraPool.Set |
| code/cczest/guide/component/GuideFinger.ts:269-272 | the lifted nodes are put back first node first, each at the sibling index read just before its own lift; those indices were read after the earlier lifts closed up the list, so an earlier node put back shifts the later ones (the camera does the same, `code/cczest/guide/component/GuideCamera.ts:136-138`) | a parent with children [a, b, c], highlight nodes [a, b]: both save index 0, and the restore gives [b, a, c] | put the nodes back last to first, which gives the children back exactly | not executed | GuideHighlight.ForwardRestoreSwaps | GuideHighlight.ReverseRestoreUndoesLift |
