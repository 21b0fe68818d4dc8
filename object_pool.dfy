// The generic object pool: a stack of spare objects without repetition.
module ObjectPool {
  import opened Common

  /** What `put` does to the stored sequence: a present, not yet pooled
      element goes on top; `None` stands for a falsy argument. */
  function PoolPut<T(==)>(s: seq<T>, e: Option<T>): seq<T> {
    if e.Some? && e.value !in s then s + [e.value] else s
  }

  /** Putting every element of `rs` in order. */
  function PutAll<T(==)>(s: seq<T>, rs: seq<T>): seq<T>
    decreases |rs|
  {
    if rs == [] then s else PoolPut(PutAll(s, rs[..|rs| - 1]), Some(rs[|rs| - 1]))
  }

  /** `get`: the top element and the rest, or nothing for an empty pool. */
  function PoolGet<T>(s: seq<T>): (r: (Option<T>, seq<T>))
    ensures |s| == 0 ==> r == (None, s)
    ensures |s| > 0 ==> r.0 == Some(s[|s| - 1]) && s == r.1 + [s[|s| - 1]]
  {
    if |s| == 0 then (None, s) else (Some(s[|s| - 1]), s[..|s| - 1])
  }

  /** `put` never introduces a duplicate and always keeps what was stored. */
  lemma PutKeepsNoDup<T>(s: seq<T>, e: Option<T>)
    requires NoDup(s)
    ensures NoDup(PoolPut(s, e))
    ensures s <= PoolPut(s, e)
    ensures e.Some? ==> e.value in PoolPut(s, e)
    ensures |PoolPut(s, e)| == |s| + (if e.Some? && e.value !in s then 1 else 0)
  {
  }

  /** Last in, first out: a `get` right after a successful `put` returns the
      element just put and restores the pool. */
  lemma PutThenGet<T>(s: seq<T>, x: T)
    requires x !in s
    ensures PoolGet(PoolPut(s, Some(x))) == (Some(x), s)
  {
    assert (s + [x])[..|s|] == s;
  }

  /** When no element would be refused, putting a batch appends it in order. */
  lemma {:induction false} PutAllAppends<T>(s: seq<T>, rs: seq<T>)
    requires NoDup(s + rs)
    ensures PutAll(s, rs) == s + rs
    decreases |rs|
  {
    if rs != [] {
      var init := rs[..|rs| - 1];
      assert s + rs == (s + init) + [rs[|rs| - 1]];
      assert NoDup(s + init) by {
        assert s + init == (s + rs)[..|s| + |init|];
        NoDupPrefix(s + rs, |s| + |init|);
      }
      PutAllAppends(s, init);
      assert rs[|rs| - 1] !in s + init by {
        var x := rs[|rs| - 1];
        assert (s + rs)[|s + rs| - 1] == x;
        forall k | 0 <= k < |s + init| ensures (s + init)[k] != x {
          assert (s + init)[k] == (s + rs)[k];
        }
      }
    }
  }

  /** Putting a batch keeps the pool free of duplicates. */
  lemma {:induction false} PutAllKeepsNoDup<T>(s: seq<T>, rs: seq<T>)
    requires NoDup(s)
    ensures NoDup(PutAll(s, rs))
    ensures s <= PutAll(s, rs)
    ensures forall x :: x in rs ==> x in PutAll(s, rs)
    decreases |rs|
  {
    if rs != [] {
      var init := rs[..|rs| - 1];
      PutAllKeepsNoDup(s, init);
      PutKeepsNoDup(PutAll(s, init), Some(rs[|rs| - 1]));
      forall x | x in rs ensures x in PutAll(s, rs) {
        if x != rs[|rs| - 1] {
          var k :| 0 <= k < |rs| && rs[k] == x;
          assert init[k] == x;
        }
      }
    }
  }

  /** The object pool of the framework's tool set. */
  class CCObjectPool<T(==)> {
    /** Pooled elements, bottom first; `get` takes the last one. */
    var elems: seq<T>
    /** Whether a clear handler is registered and active. */
    var handlerActive: bool

    ghost predicate Valid() reads this {
      NoDup(elems)
    }

    constructor (handlerActive: bool)
      ensures Valid() && elems == [] && this.handlerActive == handlerActive
    {
      elems := [];
      this.handlerActive := handlerActive;
    }

    function Size(): (n: nat)
      reads this
      ensures n == |elems|
      ensures n == 0 <==> elems == []
    {
      |elems|
    }

    /** `has` tells whether the pool holds anything at all. */
    function Has(): (r: bool)
      reads this
      ensures r <==> PoolGet(elems).0.Some?
    {
      |elems| > 0
    }

    method Get() returns (e: Option<T>)
      requires Valid()
      modifies this
      ensures Valid()
      ensures (e, elems) == PoolGet(old(elems))
      ensures handlerActive == old(handlerActive)
    {
      if |elems| == 0 {
        e := None;
      } else {
        e := Some(elems[|elems| - 1]);
        elems := elems[..|elems| - 1];
      }
    }

    method Put(e: Option<T>)
      requires Valid()
      modifies this
      ensures Valid()
      ensures elems == PoolPut(old(elems), e)
      ensures handlerActive == old(handlerActive)
    {
      PutKeepsNoDup(elems, e);
      if e.Some? && e.value !in elems {
        elems := elems + [e.value];
      }
    }

    /** Empties the pool; returns the elements handed to the clear handler,
        in pool order (none when no active handler is registered). */
    method Clear() returns (dispatched: seq<T>)
      requires Valid()
      modifies this
      ensures Valid() && elems == [] && handlerActive == old(handlerActive)
      ensures dispatched == if old(handlerActive) then old(elems) else []
    {
      dispatched := [];
      if handlerActive {
        var i := 0;
        while i < |elems|
          invariant 0 <= i <= |elems|
          invariant dispatched == elems[..i]
        {
          dispatched := dispatched + [elems[i]];
          i := i + 1;
        }
      }
      elems := [];
    }
  }
}
