/**
Generation-checked handles, shared by the Yoga node table and the three span-feed tables.
A handle packs a 16-bit generation above a 16-bit slot index; a slot's generation moves on every
time the slot is allocated, skipping 0 when it wraps.
*/
module Handles {
  const SLOT_LIMIT: nat := 0x1_0000
  const GENERATIONS: nat := 0xffff

  /** (generation << 16) | index, for an index and a generation of 16 bits each. */
  function Handle(index: nat, generation: nat): nat {
    generation * SLOT_LIMIT + index
  }

  function Index(handle: nat): (i: nat)
    ensures i < SLOT_LIMIT
  {
    handle % SLOT_LIMIT
  }

  function Generation(handle: nat): nat {
    handle / SLOT_LIMIT
  }

  /** Packing and unpacking are inverse, and packing is injective on 16-bit indices. */
  lemma HandleRoundTrip(index: nat, generation: nat)
    requires index < SLOT_LIMIT
    ensures Index(Handle(index, generation)) == index
    ensures Generation(Handle(index, generation)) == generation
  {
  }

  lemma HandleRebuilds(handle: nat)
    ensures Handle(Index(handle), Generation(handle)) == handle
  {
  }

  /** The 16-bit successor that skips 0. */
  function NextGeneration(generation: nat): nat {
    if generation == GENERATIONS then 1 else generation + 1
  }

  /** The generation an allocation gives to a slot whose generation was `generation`. */
  function AllocatedGeneration(generation: nat): nat {
    if generation == 0 then 1 else NextGeneration(generation)
  }

  /** The generation after `n` further allocations. */
  function GenerationAfter(generation: nat, n: nat): nat {
    if n == 0 then generation else AllocatedGeneration(GenerationAfter(generation, n - 1))
  }

  lemma {:induction false} GenerationAfterAdds(generation: nat, m: nat, n: nat)
    ensures GenerationAfter(GenerationAfter(generation, m), n) == GenerationAfter(generation, m + n)
    decreases n
  {
    if n > 0 {
      GenerationAfterAdds(generation, m, n - 1);
    }
  }

  lemma NextRemainder(m: nat)
    ensures (m + 1) % GENERATIONS == if m % GENERATIONS == GENERATIONS - 1 then 0 else m % GENERATIONS + 1
  {
  }

  /** After n > 0 allocations a fresh slot has generation ((n - 1) mod 65535) + 1: never 0. */
  lemma {:induction false} GenerationClosedForm(n: nat)
    ensures GenerationAfter(0, n) == if n == 0 then 0 else (n - 1) % GENERATIONS + 1
  {
    if n > 1 {
      GenerationClosedForm(n - 1);
      NextRemainder(n - 2);
    }
  }

  lemma {:induction false} GenerationFrom(generation: nat, n: nat)
    requires 1 <= generation <= GENERATIONS
    ensures GenerationAfter(generation, n) == (generation - 1 + n) % GENERATIONS + 1
  {
    if n > 0 {
      GenerationFrom(generation, n - 1);
      NextRemainder(generation - 2 + n);
    }
  }

  /** A generation recurs exactly every 65535 allocations of its slot. */
  lemma GenerationRecurs(generation: nat, n: nat)
    requires 1 <= generation <= GENERATIONS
    ensures GenerationAfter(generation, n) == generation <==> n % GENERATIONS == 0
  {
    GenerationFrom(generation, n);
    ModRecurs(generation - 1, n, GENERATIONS);
  }

  lemma ModRecurs(a: nat, n: nat, m: nat)
    requires a < m
    ensures (a + n) % m == a <==> n % m == 0
  {
    var q, r := n / m, n % m;
    assert n == q * m + r;
    if a + r < m {
      ModUnique(a + n, m, q, a + r);
    } else {
      assert a + n == (q + 1) * m + (a + r - m);
      ModUnique(a + n, m, q + 1, a + r - m);
    }
  }

  lemma ModUnique(x: int, m: nat, q: int, r: nat)
    requires r < m && x == q * m + r
    ensures x % m == r
  {
    var q', r' := x / m, x % m;
    var d := q - q';
    assert d * m == r' - r by {
      assert x == q' * m + r';
      assert d * m == q * m - q' * m;
    }
    MulAtLeast(d, m);
    assert d == 0;
  }

  lemma MulAtLeast(d: int, m: nat)
    ensures d >= 1 ==> d * m >= m
    ensures d <= -1 ==> d * m + m <= 0
  {
    assert d * m == m + (d - 1) * m;
    assert d * m == (d + 1) * m - m;
  }
}
