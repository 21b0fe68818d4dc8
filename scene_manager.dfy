// The scene manager: the current scene, the stack of scenes run so far,
// and going back to the last ordinary scene on that stack.
module SceneManager {
  import opened Common

  /** How a scene is treated when it is left and when going back:
      ordinary scenes are destroyed when left and can be gone back to;
      interim scenes (loading screens and the like) are kept and skipped. */
  datatype SceneType = Normal | Interim

  /** A scene, known by its name; its type is the one its class sets. */
  datatype Scene = Scene(name: string, kind: SceneType)

  /** The scene lifecycle calls the manager makes, in order. */
  datatype Event =
    | Created(name: string)
    | InitView(name: string)
    | OnLoad(name: string)
    | OnEnd(name: string)
    | Destroyed(name: string)
    | Loaded(name: string)
    | Ran(name: string)

  /** The manager's state: the current scene, the stack, the scene names
      registered with the game world, and the lifecycle calls so far. */
  datatype Scenes = Scenes(current: Option<Scene>, stack: seq<Scene>, registered: set<string>, log: seq<Event>)

  /** The scene of `name` as its class makes it. */
  function SceneOf(classes: map<string, SceneType>, name: string): Scene
    requires name in classes
  {
    Scene(name, classes[name])
  }

  /** Creating a scene of a class that exists makes it current and registers
      it; a name without a class leaves everything as it was. */
  function Create(s: Scenes, classes: map<string, SceneType>, name: string): Scenes {
    if name in classes then
      Scenes(Some(SceneOf(classes, name)), s.stack, s.registered + {name}, s.log + [Created(name)])
    else s
  }

  /** Running the current scene pushes it. */
  function Run(s: Scenes): Scenes
    requires s.current.Some?
  {
    Scenes(s.current, s.stack + [s.current.value], s.registered, s.log + [Ran(s.current.value.name)])
  }

  /** Switching to the scene `name`, as `setScene` does: nothing when it is
      already current; otherwise the current scene ends (and is destroyed
      when ordinary), the new one is taken from the world or created, then
      loaded and run. The very first scene is created, initialised and run
      without loading. */
  function SetScene(s: Scenes, classes: map<string, SceneType>, name: string): Scenes
    requires s.current.Some? || name in classes
    requires s.current.Some? ==> s.current.value.name in classes
    requires s.registered <= classes.Keys
  {
    match s.current
    case Some(cur) =>
      if cur.name == name then s
      else
        var ended := s.log + [OnEnd(cur.name)] + (if cur.kind == Normal then [Destroyed(cur.name)] else []);
        var s1 := Scenes(s.current, s.stack, s.registered, ended);
        var s2 := if name in s.registered then Scenes(Some(SceneOf(classes, name)), s1.stack, s1.registered, s1.log)
                  else Create(s1, classes, name);
        Run(Scenes(s2.current, s2.stack, s2.registered, s2.log + [Loaded(s2.current.value.name)]))
    case None =>
      var s1 := Create(s, classes, name);
      Run(Scenes(s1.current, s1.stack, s1.registered, s1.log + [InitView(name), OnLoad(name)]))
  }

  /** The popping loop of `backScene`: while the stack is not empty and the
      scene in hand is interim, the next one is popped. */
  function Unwind(stack: seq<Scene>, scene: Scene): (r: (seq<Scene>, Scene))
    decreases |stack|
  {
    if stack != [] && scene.kind == Interim then Unwind(stack[..|stack| - 1], stack[|stack| - 1])
    else (stack, scene)
  }

  /** The stack left is a prefix; the scene reached is the one in hand or the
      entry just above that prefix; everything popped past is interim; and the
      scene reached is ordinary unless the whole stack was used up. */
  lemma {:induction false} UnwindSpec(stack: seq<Scene>, scene: Scene)
    ensures var (rest, target) := Unwind(stack, scene);
      && |rest| <= |stack| && rest == stack[..|rest|]
      && (rest == stack ==> target == scene)
      && (rest != stack ==> target == stack[|rest|] && scene.kind == Interim)
      && (forall k :: |rest| < k < |stack| ==> stack[k].kind == Interim)
      && (target.kind == Interim ==> rest == [])
    decreases |stack|
  {
    if stack != [] && scene.kind == Interim {
      var init := stack[..|stack| - 1];
      UnwindSpec(init, stack[|stack| - 1]);
      var (rest, target) := Unwind(init, stack[|stack| - 1]);
      assert init[..|rest|] == stack[..|rest|];
    }
  }

  /** Going back, as `backScene` does: with fewer than two scenes on the
      stack nothing happens; otherwise the current entry and the one below
      are popped, interim scenes are skipped, and the scene reached is set
      when it is ordinary. */
  function Back(s: Scenes, classes: map<string, SceneType>): Scenes
    requires s.current.Some? ==> s.current.value.name in classes
    requires s.registered <= classes.Keys
    requires forall k :: 0 <= k < |s.stack| ==> s.stack[k].name in classes
  {
    var n := |s.stack|;
    if n <= 1 then s
    else
      var (rest, target) := Unwind(s.stack[..n - 2], s.stack[n - 2]);
      UnwindSpec(s.stack[..n - 2], s.stack[n - 2]);
      var s1 := Scenes(s.current, rest, s.registered, s.log);
      if target.kind == Normal then SetScene(s1, classes, target.name) else s1
  }

  /** Setting the scene that is already current changes nothing. */
  lemma SetSceneSame(s: Scenes, classes: map<string, SceneType>)
    requires s.current.Some? && s.current.value.name in classes && s.registered <= classes.Keys
    ensures SetScene(s, classes, s.current.value.name) == s
  {
  }

  /** The first scene is created, initialised and run, and never loaded. */
  lemma FirstSceneNotLoaded(s: Scenes, classes: map<string, SceneType>, name: string)
    requires s.current.None? && name in classes && s.registered <= classes.Keys
    ensures var r := SetScene(s, classes, name);
      && r.current == Some(SceneOf(classes, name))
      && r.stack == s.stack + [SceneOf(classes, name)]
      && r.log == s.log + [Created(name), InitView(name), OnLoad(name), Ran(name)]
      && forall k :: |s.log| <= k < |r.log| ==> !r.log[k].Loaded?
  {
  }

  /** Switching scenes ends the scene left, destroys it only when it is
      ordinary, and pushes the scene switched to on top of the stack. */
  lemma SwitchEndsAndPushes(s: Scenes, classes: map<string, SceneType>, name: string)
    requires s.current.Some? && s.current.value.name in classes && s.registered <= classes.Keys
    requires name != s.current.value.name
    ensures var r := SetScene(s, classes, name);
      var cur := s.current.value;
      && r.current.Some?
      && r.stack == s.stack + [r.current.value]
      && r.log[|s.log|] == OnEnd(cur.name)
      && (Destroyed(cur.name) in r.log[|s.log|..] <==> cur.kind == Normal)
      && (name in classes ==> r.current == Some(SceneOf(classes, name)))
      && (name !in classes ==> r.current == s.current)
  {
    var r := SetScene(s, classes, name);
    var cur := s.current.value;
    var tail := r.log[|s.log|..];
    if cur.kind == Normal {
      assert tail[1] == Destroyed(cur.name);
    } else {
      assert forall k :: 0 <= k < |tail| ==> tail[k] != Destroyed(cur.name);
    }
  }

  /** Going back with fewer than two scenes on the stack changes nothing. */
  lemma BackShortStack(s: Scenes, classes: map<string, SceneType>)
    requires s.current.Some? ==> s.current.value.name in classes
    requires s.registered <= classes.Keys
    requires forall k :: 0 <= k < |s.stack| ==> s.stack[k].name in classes
    requires |s.stack| <= 1
    ensures Back(s, classes) == s
  {
  }

  /** Going back lands on the last ordinary scene below the current entry,
      with the stack cut to just below it and that scene pushed again; when
      only interim scenes lie below, the stack is emptied and no scene is
      set. */
  lemma BackLandsOnNormal(s: Scenes, classes: map<string, SceneType>)
    requires s.current.Some? && s.current.value.name in classes
    requires s.registered <= classes.Keys
    requires forall k :: 0 <= k < |s.stack| ==> s.stack[k].name in classes
    requires |s.stack| >= 2
    ensures var r := Back(s, classes);
      var below := s.stack[..|s.stack| - 1];
      || (exists i :: 0 <= i < |below| && below[i].kind == Normal
           && (forall k :: i < k < |below| ==> below[k].kind == Interim)
           && (below[i].name != s.current.value.name ==> r.stack == below[..i] + [r.current.value])
           && (below[i].name == s.current.value.name ==> r.stack == below[..i] && r.current == s.current))
      || ((forall k :: 0 <= k < |below| ==> below[k].kind == Interim) && r.stack == [] && r.current == s.current)
  {
    var n := |s.stack|;
    var below := s.stack[..n - 1];
    var init := s.stack[..n - 2];
    UnwindSpec(init, s.stack[n - 2]);
    var (rest, target) := Unwind(init, s.stack[n - 2]);
    var i := |rest|;
    assert target == below[i] by {
      if rest == init {
        assert i == n - 2;
      }
    }
    assert forall k :: i < k < |below| ==> below[k].kind == Interim by {
      forall k | i < k < |below|
        ensures below[k].kind == Interim
      {
        if k < n - 2 {
          assert below[k] == init[k];
        }
      }
    }
    assert rest == below[..i];
    var s1 := Scenes(s.current, rest, s.registered, s.log);
    if target.kind == Normal {
      if target.name != s.current.value.name {
        SwitchEndsAndPushes(s1, classes, target.name);
      }
    } else {
      assert rest == [];
      assert forall k :: 0 <= k < |below| ==> below[k].kind == Interim;
    }
  }

  class SceneManagerState {
    /** The scene classes that exist, by name, with the type each sets. */
    const classes: map<string, SceneType>
    var current: Option<Scene>
    var stack: seq<Scene>
    var registered: set<string>
    var log: seq<Event>

    ghost predicate Valid()
      reads this
    {
      && registered <= classes.Keys
      && (current.Some? ==> current.value.name in classes)
      && (forall k :: 0 <= k < |stack| ==> stack[k].name in classes)
    }

    function State(): Scenes
      reads this
    {
      Scenes(current, stack, registered, log)
    }

    constructor (classes: map<string, SceneType>)
      ensures Valid() && this.classes == classes
      ensures State() == Scenes(None, [], {}, [])
    {
      this.classes := classes;
      current := None;
      stack := [];
      registered := {};
      log := [];
    }

    method CreateScene(name: string)
      requires Valid()
      modifies this
      ensures Valid()
      ensures State() == Create(old(State()), classes, name)
    {
      if name in classes {
        current := Some(Scene(name, classes[name]));
        registered := registered + {name};
        log := log + [Created(name)];
      }
    }

    method RunScene()
      requires Valid() && current.Some?
      modifies this
      ensures Valid()
      ensures State() == Run(old(State()))
    {
      stack := stack + [current.value];
      log := log + [Ran(current.value.name)];
    }

    /** Switches to the scene `name`; see `SetScene`. */
    method SetSceneNamed(name: string)
      requires Valid() && (current.Some? || name in classes)
      modifies this
      ensures Valid()
      ensures State() == SetScene(old(State()), classes, name)
    {
      if current.Some? {
        var cur := current.value;
        if cur.name != name {
          log := log + [OnEnd(cur.name)];
          if cur.kind == Normal {
            log := log + [Destroyed(cur.name)];
          }
          if name in registered {
            current := Some(Scene(name, classes[name]));
          } else {
            CreateScene(name);
          }
          log := log + [Loaded(current.value.name)];
          RunScene();
        }
      } else {
        CreateScene(name);
        log := log + [InitView(name), OnLoad(name)];
        RunScene();
      }
    }

    /** Goes back to the last ordinary scene; see `Back`. */
    method BackScene()
      requires Valid()
      modifies this
      ensures Valid()
      ensures State() == Back(old(State()), classes)
    {
      if |stack| > 1 {
        ghost var s0 := State();
        ghost var n := |stack|;
        ghost var goal := Unwind(stack[..n - 2], stack[n - 2]);
        stack := stack[..|stack| - 1];
        var scene := stack[|stack| - 1];
        stack := stack[..|stack| - 1];
        assert stack == s0.stack[..n - 2] && scene == s0.stack[n - 2];
        while |stack| > 0 && scene.kind == Interim
          invariant Valid() && scene.name in classes
          invariant State() == Scenes(s0.current, stack, s0.registered, s0.log)
          invariant Unwind(stack, scene) == goal
          decreases |stack|
        {
          scene := stack[|stack| - 1];
          stack := stack[..|stack| - 1];
        }
        assert goal == (stack, scene);
        assert State() == Scenes(s0.current, stack, s0.registered, s0.log);
        if scene.kind == Normal {
          SetSceneNamed(scene.name);
        }
      }
    }
  }
}
