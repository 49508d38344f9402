/** Slots read in ring order from a head: the shape of the event queue and of the diagnostics buffer. */
module Rings {
  /** The slot a position less than two turns of the ring falls on. */
  function Around(i: nat, length: nat): (k: nat)
    requires i < 2 * length
    ensures k < length
  {
    if i < length then i else i - length
  }

  /** The `count` slots from `head` on, in ring order. */
  function Window<T>(slots: seq<T>, head: nat, count: nat): (q: seq<T>)
    requires head < |slots| && count <= |slots|
    ensures |q| == count && forall k :: 0 <= k < count ==> q[k] == slots[Around(head + k, |slots|)]
  {
    seq(count, k requires 0 <= k < count => slots[Around(head + k, |slots|)])
  }

  lemma Pushed<T>(slots: seq<T>, head: nat, count: nat, e: T)
    requires head < |slots| && count < |slots|
    ensures Window(slots[Around(head + count, |slots|) := e], head, count + 1) == Window(slots, head, count) + [e]
  {
  }

  lemma Popped<T>(slots: seq<T>, head: nat, count: nat)
    requires head < |slots| && 0 < count <= |slots|
    ensures Window(slots, head, count)[0] == slots[head]
    ensures Window(slots, Around(head + 1, |slots|), count - 1) == Window(slots, head, count)[1..]
  {
  }

  lemma WrapsAround(i: nat, length: nat)
    requires i < 2 * length
    ensures i % length == Around(i, length)
  {
    if i >= length {
      assert (i - length) % length == i - length;
      assert i == 1 * length + (i - length);
    }
  }
}
