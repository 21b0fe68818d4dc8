// The class decorator's registries: class names declared through the
// decorator, with the names of system classes and red-dot action classes
// kept in duplicate-free lists in declaration order.
module Decorator {
  import opened Common

  /** The framework base classes a decorated class can derive from. */
  datatype ParentKey = SystemBase | RedDotBase | GameWorldBase

  /** A class, as the decorator sees it: its own name and the identities of
      the classes it is, or derives from. */
  datatype Ctor = Ctor(name: string, bases: set<string>)

  /** Why a decoration fails. */
  datatype Failure = EmptyName | Duplicate(name: string)

  /** The list with `className` appended, or `None` (the duplicate error)
      when it is already there. */
  function AddClassName(names: seq<string>, className: string): (r: Option<seq<string>>)
    ensures r.None? <==> className in names
    ensures r.Some? ==> |r.value| == |names| + 1 && r.value[..|names|] == names && r.value[|names|] == className
  {
    if className in names then None else Some(names + [className])
  }

  /** Appending keeps a list free of duplicates. */
  lemma AddClassNameNoDup(names: seq<string>, className: string)
    requires NoDup(names)
    ensures AddClassName(names, className).Some? ==> NoDup(AddClassName(names, className).value)
  {
    if className !in names {
      NoDupAppend(names, className);
    }
  }

  class Registry {
    /** Whether the code runs inside the editor, where decorators do
        nothing. */
    const editor: bool
    var systemClassNames: seq<string>
    var redDotActionClassNames: seq<string>
    /** The base class registered for each key. */
    var parentMap: map<ParentKey, string>
    /** The name of the game world class, once one is declared. */
    var startupName: Option<string>
    /** The engine's class table: classes by declared name. */
    var classNames: map<string, Ctor>

    ghost predicate Valid()
      reads this
    {
      NoDup(systemClassNames) && NoDup(redDotActionClassNames)
    }

    constructor (editor: bool)
      ensures Valid() && this.editor == editor
      ensures systemClassNames == [] && redDotActionClassNames == []
      ensures parentMap == map[] && startupName == None && classNames == map[]
    {
      this.editor := editor;
      systemClassNames := [];
      redDotActionClassNames := [];
      parentMap := map[];
      startupName := None;
      classNames := map[];
    }

    /** The names of the system classes declared so far. */
    function GetSystemClassNames(): (r: seq<string>)
      reads this
      ensures Valid() ==> NoDup(r)
    {
      systemClassNames
    }

    /** The names of the red-dot action classes declared so far. */
    function GetRedDotActionClassNames(): (r: seq<string>)
      reads this
      ensures Valid() ==> NoDup(r)
    {
      redDotActionClassNames
    }

    method SetParentType(key: ParentKey, base: string)
      modifies this`parentMap
      ensures parentMap == old(parentMap)[key := base]
    {
      parentMap := parentMap[key := base];
    }

    /** Whether `c` derives from the base class registered for `key`; no
        class does while none is registered. */
    function IsChildOf(c: Ctor, key: ParentKey): bool
      reads this
    {
      key in parentMap && parentMap[key] in c.bases
    }

    /** What declaring `c` under `className` did, between the state before
        and now, with outcome `r`: a game world class became the startup
        class; otherwise a system class, else a red-dot action class, had
        its name appended to its list, failing on a duplicate; any other
        class touched no list; on success the class is in the class table,
        and on failure the table is as it was. */
    twostate predicate Declared(className: string, c: Ctor, new r: Option<Failure>)
      reads this
    {
      && (r.None? ==> classNames == old(classNames)[className := c])
      && (r.Some? ==> classNames == old(classNames))
      && (IsChildOf(c, GameWorldBase) ==>
        r.None? && startupName == Some(className)
        && systemClassNames == old(systemClassNames) && redDotActionClassNames == old(redDotActionClassNames))
      && (!IsChildOf(c, GameWorldBase) && IsChildOf(c, SystemBase) ==>
        && startupName == old(startupName) && redDotActionClassNames == old(redDotActionClassNames)
        && (r.Some? <==> className in old(systemClassNames))
        && (r.Some? ==> r.value == Duplicate(className) && systemClassNames == old(systemClassNames))
        && (r.None? ==> systemClassNames == old(systemClassNames) + [className]))
      && (!IsChildOf(c, GameWorldBase) && !IsChildOf(c, SystemBase) && IsChildOf(c, RedDotBase) ==>
        && startupName == old(startupName) && systemClassNames == old(systemClassNames)
        && (r.Some? <==> className in old(redDotActionClassNames))
        && (r.Some? ==> r.value == Duplicate(className) && redDotActionClassNames == old(redDotActionClassNames))
        && (r.None? ==> redDotActionClassNames == old(redDotActionClassNames) + [className]))
      && (!IsChildOf(c, GameWorldBase) && !IsChildOf(c, SystemBase) && !IsChildOf(c, RedDotBase) ==>
        && r.None? && startupName == old(startupName)
        && systemClassNames == old(systemClassNames) && redDotActionClassNames == old(redDotActionClassNames))
    }

    /** Declares `c` under `className`. */
    method Declare(className: string, c: Ctor) returns (r: Option<Failure>)
      requires Valid()
      modifies this`systemClassNames, this`redDotActionClassNames, this`startupName, this`classNames
      ensures Valid()
      ensures Declared(className, c, r)
    {
      r := None;
      if IsChildOf(c, GameWorldBase) {
        startupName := Some(className);
      } else if IsChildOf(c, SystemBase) {
        match AddClassName(systemClassNames, className)
        case None =>
          return Some(Duplicate(className));
        case Some(names) =>
          AddClassNameNoDup(systemClassNames, className);
          systemClassNames := names;
      } else if IsChildOf(c, RedDotBase) {
        match AddClassName(redDotActionClassNames, className)
        case None =>
          return Some(Duplicate(className));
        case Some(names) =>
          AddClassNameNoDup(redDotActionClassNames, className);
          redDotActionClassNames := names;
      }
      classNames := classNames[className := c];
    }

    /** The decorator with an explicit class name: nothing in the editor, a
        failure for an empty name, otherwise the declaration. */
    method ZestClassNamed(className: string, c: Ctor) returns (r: Option<Failure>)
      requires Valid()
      modifies this`systemClassNames, this`redDotActionClassNames, this`startupName, this`classNames
      ensures Valid()
      ensures (editor || className == []) ==>
        && systemClassNames == old(systemClassNames) && redDotActionClassNames == old(redDotActionClassNames)
        && startupName == old(startupName) && classNames == old(classNames)
      ensures editor ==> r.None?
      ensures !editor && className == [] ==> r == Some(EmptyName)
      ensures !editor && className != [] ==> Declared(className, c, r)
      ensures r.Some? ==> classNames == old(classNames)
    {
      if editor {
        return None;
      }
      if |className| == 0 {
        return Some(EmptyName);
      }
      r := Declare(className, c);
    }

    /** The decorator applied directly to a class: the class's own name is
        used, and must not be empty. */
    method ZestClass(c: Ctor) returns (r: Option<Failure>)
      requires Valid()
      modifies this`systemClassNames, this`redDotActionClassNames, this`startupName, this`classNames
      ensures Valid()
      ensures (editor || c.name == []) ==>
        && systemClassNames == old(systemClassNames) && redDotActionClassNames == old(redDotActionClassNames)
        && startupName == old(startupName) && classNames == old(classNames)
      ensures editor ==> r.None?
      ensures !editor && c.name == [] ==> r == Some(EmptyName)
      ensures !editor && c.name != [] ==> Declared(c.name, c, r)
      ensures r.Some? ==> classNames == old(classNames)
    {
      if editor {
        return None;
      }
      var className := c.name;
      if |className| == 0 {
        return Some(EmptyName);
      }
      r := Declare(className, c);
    }
  }
}
