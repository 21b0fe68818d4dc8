// The registry of tutorial cameras: camera nodes by id, where the first
// node registered under an id stays.
module CameraPool {
  import opened Common

  /** The property names every plain script object inherits from the
      object prototype; the `in` test on such an object sees them too. */
  const InheritedNames: set<string> := {
    "constructor", "hasOwnProperty", "isPrototypeOf", "propertyIsEnumerable",
    "toLocaleString", "toString", "valueOf", "__proto__",
    "__defineGetter__", "__defineSetter__", "__lookupGetter__", "__lookupSetter__"
  }

  /** `has` as written: the `in` test on the backing object, which also
      holds for the inherited names. */
  function HasAsWritten(pool: map<string, NodeId>, key: string): (b: bool)
    ensures key in pool ==> b
    ensures key in InheritedNames ==> b
  {
    key in pool || key in InheritedNames
  }

  /** `set` as written: stores only when the `in` test fails. */
  function SetAsWritten(pool: map<string, NodeId>, key: string, node: NodeId): (r: map<string, NodeId>)
    ensures key in InheritedNames ==> r == pool
    ensures key !in InheritedNames ==> key in r && r[key] == (if key in pool then pool[key] else node)
  {
    if HasAsWritten(pool, key) then pool else pool[key := node]
  }

  /** A camera registered under an inherited name is never stored, and an
      empty registry still claims to have it. */
  lemma InheritedNameIsNeverStored(node: NodeId)
    ensures SetAsWritten(map[], "toString", node) == map[]
    ensures HasAsWritten(map[], "toString")
  {
    assert "toString" in InheritedNames;
  }

  class GuideCameraPool {
    /** The cameras registered so far, by id. */
    var pool: map<string, NodeId>

    constructor ()
      ensures pool == map[]
    {
      pool := map[];
    }

    /** Whether a camera is registered under `key`. */
    function Has(key: string): (b: bool)
      reads this
      ensures b <==> key in pool
    {
      key in pool
    }

    /** The camera registered under `key`, if any. */
    function Get(key: string): (r: Option<NodeId>)
      reads this
      ensures r.Some? <==> Has(key)
      ensures r.Some? ==> r.value == pool[key]
    {
      if key in pool then Some(pool[key]) else None
    }

    /** Registers `node` under `key` unless a camera is already there: the
        first registration wins and no other id is touched. */
    method Set(key: string, node: NodeId)
      modifies this
      ensures Has(key)
      ensures Get(key) == if old(Has(key)) then old(Get(key)) else Some(node)
      ensures forall k :: k != key ==> Get(k) == old(Get(k))
    {
      if key !in pool {
        pool := pool[key := node];
      }
    }

    /** Deletes every registration, one id at a time. */
    method Clear()
      modifies this
      ensures pool == map[]
      ensures forall k :: !Has(k)
    {
      while pool != map[]
        decreases |pool.Keys|
      {
        var k :| k in pool;
        pool := pool - {k};
      }
    }
  }
}
