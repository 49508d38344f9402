/**
The diagnostics buffer: the newest lines pushed by any thread, drained oldest first a few at a time. One
mutex makes every push and every drain a single step, so a run is any interleaving of them.
*/
module DiagnosticsRing {
  import opened Lists
  import opened Rings
  import opened Words

  const LINE_SIZE: nat := 256
  const SLOT_LIMIT: nat := 0x3fff_ffff

  // ---- Lines and sizes ----

  /** What fits a line buffer: the bytes before the first zero, at most one less than the buffer holds. */
  function Line(text: Bytes, room: nat): (line: Bytes)
    ensures |line| <= room && line <= text && 0 !in line
    ensures |line| < room && |line| < |text| ==> text[|line|] == 0
  {
    if text == [] || room == 0 || text[0] == 0 then []
    else
      var rest := Line(text[1..], room - 1);
      assert text == [text[0]] + text[1..];
      [text[0]] + rest
  }

  /** The C remainder, which takes the sign of the dividend. */
  function Remainder(a: int, b: nat): int
    requires b > 0
  {
    if a >= 0 then a % b else -(-a % b)
  }

  // ---- Steps ----

  datatype Op = Push(text: Bytes) | Drain(max: int, raises: bool)

  /** The newest `capacity` lines are kept. */
  function PushStep(capacity: nat, kept: seq<Bytes>, text: Bytes): (r: seq<Bytes>)
    requires capacity > 0
    ensures |kept| <= capacity ==> |r| <= capacity
  {
    var line := Line(text, LINE_SIZE - 1);
    if |kept| < capacity then kept + [line] else kept[1..] + [line]
  }

  /** How many lines a drain takes. */
  function Taking(kept: seq<Bytes>, max: int): (n: nat)
    ensures n <= |kept|
  {
    if AsInt32(max) <= 0 then 0 else if AsInt32(max) < |kept| then AsInt32(max) else |kept|
  }

  function Step(capacity: nat, kept: seq<Bytes>, op: Op): seq<Bytes>
    requires capacity > 0
  {
    match op
    case Push(text) => PushStep(capacity, kept, text)
    case Drain(max, _) => kept[Taking(kept, max)..]
  }

  function Run(capacity: nat, kept: seq<Bytes>, ops: seq<Op>): seq<Bytes>
    requires capacity > 0
    decreases |ops|
  {
    if ops == [] then kept else Run(capacity, Step(capacity, kept, ops[0]), ops[1..])
  }

  /** Every line pushed by the run, as a line buffer holds it. */
  function Lines(ops: seq<Op>): seq<Bytes> {
    if ops == [] then []
    else (if ops[0].Push? then [Line(ops[0].text, LINE_SIZE - 1)] else []) + Lines(ops[1..])
  }

  /** The lines the drains take out, in order. */
  function Taken(capacity: nat, kept: seq<Bytes>, ops: seq<Op>): seq<Bytes>
    requires capacity > 0
    decreases |ops|
  {
    if ops == [] then []
    else (if ops[0].Drain? then kept[..Taking(kept, ops[0].max)] else [])
         + Taken(capacity, Step(capacity, kept, ops[0]), ops[1..])
  }

  /** Those that reach the caller: a drain that cannot allocate its answer delivers nothing. */
  function Delivered(capacity: nat, kept: seq<Bytes>, ops: seq<Op>): seq<Bytes>
    requires capacity > 0
    decreases |ops|
  {
    if ops == [] then []
    else (if ops[0].Drain? && !ops[0].raises then kept[..Taking(kept, ops[0].max)] else [])
         + Delivered(capacity, Step(capacity, kept, ops[0]), ops[1..])
  }

  /** The position, among all lines, of each line taken; `first` is that of the oldest one kept. */
  function TakenAt(capacity: nat, first: nat, kept: seq<Bytes>, ops: seq<Op>): seq<nat>
    requires capacity > 0
    decreases |ops|
  {
    if ops == [] then []
    else
      match ops[0]
      case Push(text) =>
        TakenAt(capacity, if |kept| < capacity then first else first + 1, PushStep(capacity, kept, text), ops[1..])
      case Drain(max, _) =>
        var n := Taking(kept, max);
        Positions(first, n) + TakenAt(capacity, first + n, kept[n..], ops[1..])
  }

  /**
  A push keeps the text up to its first zero byte, and at most 255 bytes of it; it loses the oldest line
  exactly when the ring is full.
  */
  lemma PushedExactly(capacity: nat, kept: seq<Bytes>, text: Bytes)
    requires 0 < capacity && |kept| <= capacity
    ensures var r := PushStep(capacity, kept, text);
            && |r| > 0 && r[..|r| - 1] == (if |kept| < capacity then kept else kept[1..])
            && var line := r[|r| - 1];
               && line <= text && 0 !in line && |line| <= 255
               && (|line| < 255 && |line| < |text| ==> text[|line|] == 0)
    ensures |text| <= 255 && 0 !in text ==> PushStep(capacity, kept, text)[|PushStep(capacity, kept, text)| - 1] == text
  {
    var line := Line(text, 255);
    hide Line;
    if |line| < |text| && |text| <= 255 {
      assert text[|line|] in text;
    }
  }

  // ---- What every interleaving guarantees ----

  /**
  Of the lines `all`, numbered from `first`, those taken stand at increasing positions, each once; those
  left are the newest; and of the newest `capacity` lines every one has been taken or is left.
  */
  ghost predicate Orderly(capacity: nat, first: nat, all: seq<Bytes>, at: seq<nat>, taken: seq<Bytes>, left: seq<Bytes>) {
    && |left| <= capacity && |left| <= |all| && left == all[|all| - |left|..]
    && |at| == |taken|
    && (forall i :: 0 <= i < |at| ==> first <= at[i] < first + |all| - |left| && taken[i] == all[at[i] - first])
    && (forall i, j :: 0 <= i < j < |at| ==> at[i] < at[j])
    && (forall a: nat :: first <= a && first + |all| - capacity <= a < first + |all| - |left| ==> a in at)
  }

  lemma {:induction false} NewestNeverLost(capacity: nat, first: nat, kept: seq<Bytes>, ops: seq<Op>)
    requires 0 < capacity && |kept| <= capacity
    ensures Orderly(capacity, first, kept + Lines(ops), TakenAt(capacity, first, kept, ops), Taken(capacity, kept, ops),
                    Run(capacity, kept, ops))
    decreases |ops|
  {
    hide Line, Orderly, PushStep, AsInt32, Positions;
    var all := kept + Lines(ops);
    if ops == [] {
      OrderlyStart(capacity, first, kept);
      assert all == kept;
    } else {
      var next := Step(capacity, kept, ops[0]);
      var d := if ops[0].Drain? then Taking(kept, ops[0].max) else if |kept| < capacity then 0 else 1;
      StepLines(capacity, kept, ops);
      NewestNeverLost(capacity, first + d, next, ops[1..]);
      var at, taken := TakenAt(capacity, first + d, next, ops[1..]), Taken(capacity, next, ops[1..]);
      if ops[0].Push? {
        OrderlyAfterPush(capacity, first, d, all, at, taken, Run(capacity, kept, ops));
        assert [] + taken == taken;
      } else {
        OrderlyAfterDrain(capacity, first, d, all, at, taken, Run(capacity, kept, ops));
      }
    }
  }

  lemma StepLines(capacity: nat, kept: seq<Bytes>, ops: seq<Op>)
    requires 0 < capacity && |kept| <= capacity && ops != []
    ensures var d := if ops[0].Drain? then Taking(kept, ops[0].max) else if |kept| < capacity then 0 else 1;
            var all := kept + Lines(ops);
            && d <= |kept| && Step(capacity, kept, ops[0]) + Lines(ops[1..]) == all[d..] && all[..d] == kept[..d]
            && (ops[0].Push? && d > 0 ==> capacity <= |all| - d)
  {
    hide Line, Taking;
    var rest := Lines(ops[1..]);
    if ops[0].Push? {
      Shifted(kept, [Line(ops[0].text, LINE_SIZE - 1)], rest, if |kept| < capacity then 0 else 1);
    } else {
      Shifted(kept, [], rest, Taking(kept, ops[0].max));
    }
  }

  lemma Shifted(kept: seq<Bytes>, pushed: seq<Bytes>, rest: seq<Bytes>, d: nat)
    requires d <= |kept|
    ensures (kept[d..] + pushed) + rest == (kept + (pushed + rest))[d..] && kept[d..] + rest == (kept + rest)[d..]
    ensures kept[0..] == kept && [] + rest == rest && (kept + (pushed + rest))[..d] == kept[..d] == (kept + rest)[..d]
  {
  }

  lemma OrderlyStart(capacity: nat, first: nat, kept: seq<Bytes>)
    requires |kept| <= capacity
    ensures Orderly(capacity, first, kept, [], [], kept)
  {
  }

  lemma OrderlyAfterPush(capacity: nat, first: nat, d: nat, all: seq<Bytes>, at: seq<nat>, taken: seq<Bytes>,
                         left: seq<Bytes>)
    requires d <= |all| && (d > 0 ==> capacity <= |all| - d)
    requires Orderly(capacity, first + d, all[d..], at, taken, left)
    ensures Orderly(capacity, first, all, at, taken, left)
  {
  }

  lemma OrderlyAfterDrain(capacity: nat, first: nat, n: nat, all: seq<Bytes>, at: seq<nat>, taken: seq<Bytes>,
                          left: seq<Bytes>)
    requires n <= |all| && Orderly(capacity, first + n, all[n..], at, taken, left)
    ensures Orderly(capacity, first, all, Positions(first, n) + at, all[..n] + taken, left)
  {
    var at' := Positions(first, n) + at;
    assert at'[n..] == at;
    forall a: nat | first <= a && first + |all| - capacity <= a < first + |all| - |left|
      ensures a in at'
    {
      if a < first + n {
        assert at'[a - first] == a;
      } else {
        assert a in at;
      }
    }
  }

  function Positions(first: nat, n: nat): (at: seq<nat>)
    ensures |at| == n && forall k :: 0 <= k < n ==> at[k] == first + k
  {
    seq(n, k requires 0 <= k < n => first + k)
  }

  /** As long as the buffer never overflows, the lines taken and kept are exactly those pushed. */
  lemma {:induction false} NothingLost(capacity: nat, kept: seq<Bytes>, ops: seq<Op>)
    requires 0 < capacity && |kept| + |Lines(ops)| <= capacity
    ensures Taken(capacity, kept, ops) + Run(capacity, kept, ops) == kept + Lines(ops)
    decreases |ops|
  {
    hide Line;
    if ops != [] {
      var next := Step(capacity, kept, ops[0]);
      NothingLost(capacity, next, ops[1..]);
      var pushed: seq<Bytes> := if ops[0].Push? then [Line(ops[0].text, LINE_SIZE - 1)] else [];
      var out: seq<Bytes> := if ops[0].Drain? then kept[..Taking(kept, ops[0].max)] else [];
      StepSplits(capacity, kept, ops[0]);
      hide Step, Taking;
      Regroup(kept, pushed, Lines(ops[1..]), out, Taken(capacity, next, ops[1..]), Run(capacity, kept, ops), next);
    } else {
      assert kept + Lines(ops) == kept && Taken(capacity, kept, ops) + kept == kept;
    }
  }

  /** What was kept and what is pushed is what is drained, overwritten or kept. */
  lemma StepSplits(capacity: nat, kept: seq<Bytes>, op: Op)
    requires 0 < capacity
    ensures var pushed: seq<Bytes> := if op.Push? then [Line(op.text, LINE_SIZE - 1)] else [];
            var out: seq<Bytes> := if op.Drain? then kept[..Taking(kept, op.max)] else [];
            var next := Step(capacity, kept, op);
            && (op.Drain? || |kept| < capacity ==> kept + pushed == out + next)
            && (op.Push? && |kept| >= capacity ==> (kept + pushed)[1..] == next)
  {
    hide Line;
  }

  /** A drain whose answer cannot be allocated takes lines that no one ever sees. */
  predicate LosesLines(capacity: nat, kept: seq<Bytes>, ops: seq<Op>)
    requires capacity > 0
    decreases |ops|
  {
    ops != []
    && ((ops[0].Drain? && ops[0].raises && Taking(kept, ops[0].max) > 0)
        || LosesLines(capacity, Step(capacity, kept, ops[0]), ops[1..]))
  }

  /** All lines taken reach the caller exactly when no drain that took some failed to allocate its answer. */
  lemma {:induction false} DeliveredExactly(capacity: nat, kept: seq<Bytes>, ops: seq<Op>)
    requires capacity > 0
    ensures |Delivered(capacity, kept, ops)| <= |Taken(capacity, kept, ops)|
    ensures LosesLines(capacity, kept, ops) ==> |Delivered(capacity, kept, ops)| < |Taken(capacity, kept, ops)|
    ensures Delivered(capacity, kept, ops) == Taken(capacity, kept, ops) <==> !LosesLines(capacity, kept, ops)
    decreases |ops|
  {
    if ops != [] {
      DeliveredExactly(capacity, Step(capacity, kept, ops[0]), ops[1..]);
    }
  }

  /** A drain that cannot allocate its list loses a line; one with a limit of 2^32 takes none. */
  lemma LostLineExample(line: Bytes)
    ensures Taken(1, [line], [Op.Drain(1, true)]) == [line] && Delivered(1, [line], [Op.Drain(1, true)]) == []
    ensures Taking([line], 0x1_0000_0000) == 0
  {
    var op := Op.Drain(1, true);
    assert Taking([line], 1) == 1 && [line][..1] == [line] && [op][1..] == [];
  }

  /**
  A limit drains as many lines as it says, whatever is kept, exactly when the C int it is cut to is the
  same, or is not below what can be kept, or stays at most 0 with it.
  */
  lemma LimitHonouredExactly(capacity: nat, max: int)
    requires 0 < capacity <= SLOT_LIMIT
    ensures (forall kept: seq<Bytes> | |kept| <= capacity ::
               Taking(kept, max) == if max <= 0 then 0 else if max < |kept| then max else |kept|)
            <==> if max > 0 then AsInt32(max) == max || AsInt32(max) >= capacity else AsInt32(max) <= 0
  {
    hide AsInt32;
    var full: seq<Bytes> := seq(capacity, _ => []);
    if forall kept: seq<Bytes> | |kept| <= capacity ::
         Taking(kept, max) == if max <= 0 then 0 else if max < |kept| then max else |kept| {
      assert Taking(full, max) == if max <= 0 then 0 else if max < |full| then max else |full|;
    }
  }

  /** The largest limit an OCaml caller can name, 2^62 - 1, is cut to -1 and drains nothing. */
  lemma LargestLimitDrainsNothing(kept: seq<Bytes>)
    ensures Taking(kept, 0x3fff_ffff_ffff_ffff) == 0
  {
    assert AsInt32(0x3fff_ffff_ffff_ffff) == -1;
  }

  // ---- The ring ----

  class Diagnostics {
    const lines: array<Bytes>
    var head: nat
    var count: nat

    ghost predicate Valid()
      reads this
    {
      0 < lines.Length <= SLOT_LIMIT && head < lines.Length && count <= lines.Length
    }

    ghost function Kept(): (kept: seq<Bytes>)
      requires Valid()
      reads this, lines
      ensures |kept| == count
    {
      Window(lines[..], Oldest(head, count, lines.Length), count)
    }

    constructor (capacity: nat)
      requires 0 < capacity <= SLOT_LIMIT
      ensures Valid() && fresh(lines) && lines.Length == capacity && Kept() == []
    {
      lines := new Bytes[capacity](_ => []);
      head, count := 0, 0;
    }

    method Push(text: Bytes)
      requires Valid()
      modifies this, lines
      ensures Valid() && Kept() == PushStep(lines.Length, old(Kept()), text)
    {
      hide Line, Window, Oldest, Around, After, PushStep;
      var line := Line(text, LINE_SIZE - 1);
      ghost var was := lines[..];
      PushedInPlace(was, head, count, text);
      lines[head] := line;
      assert lines[..] == was[head := line];
      head := After(head, lines.Length);
      if count < lines.Length {
        count := count + 1;
      }
    }

    /** The lines taken, or none when the answer cannot be allocated; by then they have left the ring. */
    method Drain(max: int, raises: bool) returns (list: seq<Bytes>, raised: bool)
      requires Valid()
      modifies this
      ensures Valid() && Kept() == Step(lines.Length, old(Kept()), Op.Drain(max, raises))
      ensures raised == (raises && Taking(old(Kept()), max) > 0)
      ensures list == if raised then [] else old(Kept())[..Taking(old(Kept()), max)]
    {
      hide Window, Oldest, Around, Remainder, AsInt32;
      ghost var kept := Kept();
      var remaining := AsInt32(max);
      var drained := new Bytes[lines.Length];
      var taken := 0;
      while taken < count && remaining > 0
        invariant 0 <= taken <= count && remaining == AsInt32(max) - taken
        invariant Valid() && Kept() == kept
        invariant forall k :: 0 <= k < taken ==> drained[k] == kept[k]
        invariant taken > 0 ==> remaining >= 0
      {
        var position := head - count + taken + lines.Length;
        assert position >= 0;
        DrainedSlot(head, count, taken, lines.Length);
        drained[taken] := lines[Remainder(position, lines.Length)];
        taken := taken + 1;
        remaining := remaining - 1;
      }
      assert taken == Taking(kept, max);
      if taken == count {
        head, count := 0, 0;
      } else {
        OldestMoves(lines[..], head, count, taken);
        count := count - taken;
      }
      list, raised := [], false;
      if raises && taken > 0 {
        raised := true;
        return;
      }
      for i := taken downto 0
        invariant list == kept[i..taken]
      {
        list := [drained[i]] + list;
      }
    }
  }

  /** The next slot to write, by the wrapping remainder. */
  function After(head: nat, length: nat): (k: nat)
    requires head < length
    ensures k < length && k == Around(head + 1, length)
  {
    WrapsAround(head + 1, length);
    (head + 1) % length
  }

  /** The slot of the oldest line, when `head` is the next one to write. */
  function Oldest(head: nat, count: nat, length: nat): (k: nat)
    requires head < length && count <= length
    ensures k < length
  {
    Around(head + length - count, length)
  }

  lemma Overwritten(lines: seq<Bytes>, head: nat, count: nat, line: Bytes)
    requires head < |lines| && count <= |lines|
    ensures var l, h := lines[head := line], Around(head + 1, |lines|);
            if count < |lines| then
              Window(l, Oldest(h, count + 1, |lines|), count + 1)
              == Window(lines, Oldest(head, count, |lines|), count) + [line]
            else
              Window(l, Oldest(h, count, |lines|), count)
              == Window(lines, Oldest(head, count, |lines|), count)[1..] + [line]
  {
  }

  /** Writing the line at the head makes the window that of the pushed queue. */
  lemma PushedInPlace(lines: seq<Bytes>, head: nat, count: nat, text: Bytes)
    requires head < |lines| && count <= |lines|
    ensures var l, h := lines[head := Line(text, LINE_SIZE - 1)], After(head, |lines|);
            var c := if count < |lines| then count + 1 else count;
            Window(l, Oldest(h, c, |lines|), c)
            == PushStep(|lines|, Window(lines, Oldest(head, count, |lines|), count), text)
  {
    hide Line, Window, Oldest, Around, After;
    Overwritten(lines, head, count, Line(text, LINE_SIZE - 1));
  }

  /** The drain's index expression is never negative and finds the oldest line not yet copied. */
  lemma DrainedSlot(head: nat, count: nat, taken: nat, length: nat)
    requires head < length && taken < count <= length
    ensures Remainder(head - count + taken + length, length) == Around(Oldest(head, count, length) + taken, length)
  {
    WrapsAround(head - count + taken + length, length);
  }

  lemma OldestMoves(lines: seq<Bytes>, head: nat, count: nat, taken: nat)
    requires head < |lines| && taken <= count <= |lines|
    ensures Window(lines, Oldest(head, count - taken, |lines|), count - taken)
         == Window(lines, Oldest(head, count, |lines|), count)[taken..]
  {
  }
}
