/**
 * queue.js: a first-in first-out queue over the array `elems`, with a
 * capacity `length`; capacity 0 means unbounded. Pushing past the capacity
 * drops the oldest entries from the front.
 */
module Queues {
  import opened Wrappers

  /**
   * The contents after pushing `v` onto `s` with capacity `cap`: `v` at the
   * back, then as many entries dropped from the front as needed to get back
   * to `cap` (none when `cap` is 0).
   */
  function Pushed<T>(s: seq<T>, cap: nat, v: T): (r: seq<T>)
    ensures |r| >= 1 && r[|r| - 1] == v
    ensures cap != 0 ==> |r| <= cap
    ensures cap == 0 ==> r == s + [v]
  {
    var t := s + [v];
    if cap != 0 && |t| > cap then t[|t| - cap..] else t
  }

  /**
   * A push always leaves the pushed value last and keeps the newest entries
   * of the old contents, in order, in front of it.
   */
  lemma PushedKeepsNewest<T>(s: seq<T>, cap: nat, v: T)
    ensures var r := Pushed(s, cap, v);
      && 1 <= |r| <= |s| + 1
      && r[|r| - 1] == v
      && r[..|r| - 1] == s[|s| + 1 - |r|..]
  {
  }

  /**
   * With a capacity, a push bounds the queue by it, whatever the size
   * before (so a capacity lowered from outside is restored by the next
   * push); it drops entries only when the capacity is exceeded.
   */
  lemma PushedBounded<T>(s: seq<T>, cap: nat, v: T)
    requires cap != 0
    ensures |Pushed(s, cap, v)| <= cap
    ensures |Pushed(s, cap, v)| == if |s| + 1 <= cap then |s| + 1 else cap
    ensures |s| < cap ==> Pushed(s, cap, v) == s + [v]
  {
  }

  /** Without a capacity nothing is ever dropped. */
  lemma PushedUnbounded<T>(s: seq<T>, v: T)
    ensures Pushed(s, 0, v) == s + [v]
  {
  }

  /** After a push, a value is queued only if it was queued before or is the pushed one. */
  lemma PushedMembers<T>(s: seq<T>, cap: nat, v: T, x: T)
    ensures x in Pushed(s, cap, v) ==> x in s || x == v
    ensures v in Pushed(s, cap, v)
  {
    var t := s + [v];
    if x in Pushed(s, cap, v) && cap != 0 && |t| > cap {
      var k :| |t| - cap <= k < |t| && t[k] == x;
      assert x in t;
    }
    assert Pushed(s, cap, v)[|Pushed(s, cap, v)| - 1] == v;
  }

  class Queue<T(==)> {
    /** The capacity; 0 means unbounded. Callers may reassign it. */
    var length: nat
    /** The queued values, oldest first. */
    var elems: seq<T>

    constructor (size: nat := 0)
      ensures length == size && elems == []
    {
      length := size;
      elems := [];
    }

    /** `empty()`: there is nothing queued. */
    function Empty(): (r: bool)
      reads this
      ensures r <==> elems == []
    {
      |elems| == 0
    }

    /** `includes(value)`: some queued entry equals `value`. */
    function Includes(value: T): (r: bool)
      reads this
      ensures r <==> exists i :: 0 <= i < |elems| && elems[i] == value
    {
      value in elems
    }

    /**
     * `push(value)`: append at the back, then, when there is a capacity,
     * pop from the front until it holds. Returns the pushed value.
     */
    method Push(value: T) returns (r: T)
      modifies this
      ensures r == value && length == old(length)
      ensures elems == Pushed(old(elems), length, value)
    {
      ghost var t := elems + [value];
      elems := elems + [value];
      if length != 0 {
        while |elems| > length
          invariant length == old(length)
          invariant |elems| <= |t| && elems == t[|t| - |elems|..]
          invariant |t| > length ==> |elems| >= length
          invariant |t| <= length ==> elems == t
          decreases |elems|
        {
          var dropped := Pop();
        }
      }
      r := value;
    }

    /**
     * `pop()`: remove and return the front entry; on an empty queue return
     * nothing and change nothing.
     */
    method Pop() returns (r: Option<T>)
      modifies this
      ensures length == old(length)
      ensures old(elems) == [] ==> r == None && elems == []
      ensures old(elems) != [] ==> r == Some(old(elems)[0]) && elems == old(elems)[1..]
    {
      if elems == [] {
        r := None;
      } else {
        r := Some(elems[0]);
        elems := elems[1..];
      }
    }

    /** `clear()`: drop every entry; the capacity stays. */
    method Clear()
      modifies this
      ensures elems == [] && length == old(length)
    {
      elems := [];
    }
  }
}
