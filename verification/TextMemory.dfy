/**
The byte arrays behind a text buffer. The native registry only borrows them, so each one must stay
reachable from the OCaml side for as long as a registry slot points to it.
*/
module TextMemory {
  import opened Statuses
  import opened Words

  const CR: bv8 := 13
  const LF: bv8 := 10

  // ---- Registry and roots ----

  /** The native slots, and the fields that keep arrays alive: `retained`, `text_storage`, `text_memory_id`. */
  datatype Memory<B> = Memory(registry: map<nat, B>, retained: seq<B>, storage: Option<B>, id: Option<nat>)

  ghost predicate Rooted<B>(m: Memory<B>, block: B) {
    block in m.retained || m.storage == Some(block)
  }

  /** Every borrowed array is rooted. */
  ghost predicate Covered<B>(m: Memory<B>) {
    forall k :: k in m.registry ==> Rooted(m, m.registry[k])
  }

  /** What the next call relies on: only the slot named by the current id may depend on `storage` alone. */
  ghost predicate SlotOk<B>(m: Memory<B>, k: nat)
    requires k in m.registry
  {
    m.registry[k] in m.retained || (m.id == Some(k) && m.storage == Some(m.registry[k]))
  }

  ghost predicate Sound<B>(m: Memory<B>) {
    forall k :: k in m.registry ==> SlotOk(m, k)
  }

  ghost predicate Unused<B>(m: Memory<B>, block: B) {
    !Rooted(m, block) && block !in m.registry.Values
  }

  // ---- Steps ----

  /** The native answers to a set: replace, register with its slot, and the size the text has afterwards. */
  datatype Native = Native(replaced: Status, registered: Status, slot: nat, size: nat)

  /** How far a set gets before an allocation raises: the stores that follow are not made. */
  datatype Reach = BeforeNative | AfterNative | AfterRetaining | AfterStoring | Whole

  datatype Answer = Fine | Refused(status: Status) | Raised | Closed

  function AnswerOf(status: Status): Answer {
    if status == Success then Fine else Refused(status)
  }

  /** The slot a set ends up using, if the native side takes the array. */
  function SlotFor(id: Option<nat>, n: Native): Option<nat> {
    match id
    case Some(k) =>
      if n.replaced == Success then Some(k)
      else if n.replaced == NativeFailure && n.registered == Success then Some(n.slot) else None
    case None => if n.registered == Success then Some(n.slot) else None
  }

  function Refusal(id: Option<nat>, n: Native): Status {
    if id.Some? && n.replaced != NativeFailure then n.replaced else n.registered
  }

  /** The final setter answers by the size of the text it left, compared as an unsigned 32-bit number. */
  function SetterStatus(slot: nat, size: nat, expected: int): Status {
    if slot > 0xff then InvalidArgument else if size != expected % 0x1_0000_0000 then NativeFailure else Success
  }

  /** The old array moves to the retained ones when its slot keeps borrowing it. */
  function Retain<B>(m: Memory<B>, k: nat): Memory<B> {
    if m.id.Some? && m.id != Some(k) && m.storage.Some? then m.(retained := [m.storage.value] + m.retained) else m
  }

  function SetStep<B>(m: Memory<B>, block: B, n: Native, expected: int, reach: Reach): (Memory<B>, Answer) {
    var slot := SlotFor(m.id, n);
    if reach.BeforeNative? then (m, Raised)
    else if slot == None then (m, if reach.Whole? then Refused(Refusal(m.id, n)) else Raised)
    else
      var k := slot.value;
      var m1 := m.(registry := m.registry[k := block]);
      var m2 := Retain(m1, k);
      var m3 := m2.(storage := Some(block));
      match reach
      case AfterNative => (m1, Raised)
      case AfterRetaining => (m2, Raised)
      case AfterStoring => (m3, Raised)
      case _ => (m3.(id := Some(k)), AnswerOf(SetterStatus(k, n.size, expected)))
  }

  /** `slot`: where the native side registers the array, if it does; that may be so even when it reports failure. */
  function AppendStep<B>(m: Memory<B>, block: B, slot: Option<nat>): Memory<B> {
    m.(retained := [block] + m.retained, registry := if slot.Some? then m.registry[slot.value := block] else m.registry)
  }

  /** A reset, and the destruction at close, end every borrow. */
  function ResetStep<B>(m: Memory<B>): Memory<B> {
    Memory(map[], [], None, None)
  }

  /**
  A whole set answers fine exactly when the native side took the array - replacing the old one, or registering
  it anew if there is none or its slot is gone - in a slot below 256, and then has the expected size. Slot,
  storage and id then all name the new array, and the old one is retained when its slot is another.
  */
  lemma SetFineExactly<B>(m: Memory<B>, block: B, n: Native, expected: int)
    ensures var (m', answer) := SetStep(m, block, n, expected, Whole);
            var replaced := m.id.Some? && n.replaced == Success;
            var registered := (m.id.None? || n.replaced == NativeFailure) && n.registered == Success;
            && (answer == Fine
                <==> && (replaced || registered) && (if replaced then m.id.value else n.slot) < 256
                     && n.size == expected % 0x1_0000_0000)
            && (!replaced && !registered ==> m' == m)
            && (replaced || registered ==>
                  var k := if replaced then m.id.value else n.slot;
                  && m'.registry.Keys == m.registry.Keys + {k} && m'.registry[k] == block
                  && (forall j :: j in m.registry && j != k ==> m'.registry[j] == m.registry[j])
                  && m'.storage == Some(block) && m'.id == Some(k)
                  && m'.retained == if m.id.Some? && m.id.value != k && m.storage.Some?
                                    then [m.storage.value] + m.retained else m.retained)
  {
  }

  /** What a buffer starts with. */
  function New<B>(): Memory<B> {
    Memory(map[], [], None, None)
  }

  /** After a reset nothing is borrowed, retained or stored, and the next set is that of a new buffer. */
  lemma ResetIsNew<B>(m: Memory<B>, block: B, n: Native, expected: int, reach: Reach)
    ensures var r := ResetStep(m);
            && r.registry == map[] && r.retained == [] && r.storage == None && r.id == None
            && SetStep(r, block, n, expected, reach) == SetStep(New(), block, n, expected, reach)
  {
  }

  // ---- The borrow property ----

  lemma SoundCovers<B>(m: Memory<B>)
    requires Sound(m)
    ensures Covered(m)
  {
    forall k | k in m.registry
      ensures Rooted(m, m.registry[k])
    {
      assert SlotOk(m, k);
    }
  }

  /** Whether a native slot was given to the new array but the fields that should root it were not all set. */
  predicate CutShort<B>(m: Memory<B>, n: Native, reach: Reach) {
    var slot := SlotFor(m.id, n);
    slot.Some? && (reach.AfterNative? || reach.AfterRetaining? || (reach.AfterStoring? && m.id != slot))
  }

  /**
  A set keeps the borrow property for good exactly unless an allocation raises between the native
  registration and the stores that root the new array.
  */
  lemma SetKeepsSoundExactly<B>(m: Memory<B>, block: B, n: Native, expected: int, reach: Reach)
    requires Sound(m) && Unused(m, block)
    ensures Sound(SetStep(m, block, n, expected, reach).0) <==> !CutShort(m, n, reach)
  {
    var m' := SetStep(m, block, n, expected, reach).0;
    var slot := SlotFor(m.id, n);
    if CutShort(m, n, reach) {
      assert slot.value in m'.registry && m'.registry[slot.value] == block;
      assert !SlotOk(m', slot.value);
    } else {
      forall k | k in m'.registry
        ensures SlotOk(m', k)
      {
        if k in m.registry {
          assert SlotOk(m, k);
        }
      }
    }
  }

  /** Right after the call, the new array is borrowed but unrooted exactly when neither store was made. */
  lemma SetUncoversExactly<B>(m: Memory<B>, block: B, n: Native, expected: int, reach: Reach)
    requires Sound(m) && Unused(m, block)
    ensures Covered(SetStep(m, block, n, expected, reach).0)
            <==> !(SlotFor(m.id, n).Some? && (reach.AfterNative? || reach.AfterRetaining?))
  {
    var m' := SetStep(m, block, n, expected, reach).0;
    var slot := SlotFor(m.id, n);
    if slot.Some? && (reach.AfterNative? || reach.AfterRetaining?) {
      assert slot.value in m'.registry && m'.registry[slot.value] == block;
    } else {
      forall k | k in m'.registry
        ensures Rooted(m', m'.registry[k])
      {
        if k in m.registry {
          assert SlotOk(m, k);
        }
      }
    }
  }

  /** A cut-short set that leaves every array rooted still loses one: the next plain set uncovers it. */
  lemma NextSetUncovers<B>(m: Memory<B>, block: B, n: Native, expected: int)
    requires Covered(m) && !Sound(m) && Unused(m, block)
    requires if m.id.Some? then n.replaced == Success else n.registered == Success && n.slot !in m.registry
    ensures !Covered(SetStep(m, block, n, expected, Whole).0)
  {
    var k :| k in m.registry && !SlotOk(m, k);
    var m' := SetStep(m, block, n, expected, Whole).0;
    assert Rooted(m, m.registry[k]);
    assert k in m'.registry && m'.registry[k] == m.registry[k];
    assert !Rooted(m', m'.registry[k]);
  }

  /** The first set of an empty buffer, cut short right after the native side registered the array in slot 0. */
  lemma UncoveredExample<B>(block: B)
    ensures var m: Memory<B> := Memory(map[], [], None, None);
            Sound(m) && !Covered(SetStep(m, block, Native(Success, Success, 0, 0), 0, AfterNative).0)
  {
    var m: Memory<B> := Memory(map[], [], None, None);
    SetUncoversExactly(m, block, Native(Success, Success, 0, 0), 0, AfterNative);
  }

  // ---- Runs ----

  datatype Op<B> =
    | Append(block: B, slot: Option<nat>)
    | SetText(block: B, native: Native, expected: int, reach: Reach)
    | Clear
    | Reset

  function Step<B>(m: Memory<B>, op: Op<B>): Memory<B> {
    match op
    case Append(block, slot) => AppendStep(m, block, slot)
    case SetText(block, native, expected, reach) => SetStep(m, block, native, expected, reach).0
    case Clear => m
    case Reset => ResetStep(m)
  }

  /** Each set brings an array of its own and is not cut short. */
  ghost predicate Expected<B>(m: Memory<B>, op: Op<B>) {
    match op
    case Append(_, _) => true
    case SetText(block, native, _, reach) => Unused(m, block) && !CutShort(m, native, reach)
    case Clear => true
    case Reset => true
  }

  lemma StepKeepsSound<B>(m: Memory<B>, op: Op<B>)
    requires Sound(m) && Expected(m, op)
    ensures Sound(Step(m, op))
  {
    match op
    case Append(block, slot) =>
      forall k | k in Step(m, op).registry
        ensures SlotOk(Step(m, op), k)
      {
        if k in m.registry {
          assert SlotOk(m, k);
        }
      }
    case SetText(block, native, expected, reach) => SetKeepsSoundExactly(m, block, native, expected, reach);
    case Clear =>
    case Reset =>
  }

  ghost predicate ExpectedRun<B>(m: Memory<B>, ops: seq<Op<B>>)
    decreases |ops|
  {
    ops == [] || (Expected(m, ops[0]) && ExpectedRun(Step(m, ops[0]), ops[1..]))
  }

  function Run<B>(m: Memory<B>, ops: seq<Op<B>>): Memory<B>
    decreases |ops|
  {
    if ops == [] then m else Run(Step(m, ops[0]), ops[1..])
  }

  /** Over every run of append, set, clear and reset, each borrowed array stays rooted. */
  lemma {:induction false} RunCovered<B>(m: Memory<B>, ops: seq<Op<B>>)
    requires Sound(m) && ExpectedRun(m, ops)
    ensures Sound(Run(m, ops)) && Covered(Run(m, ops))
    decreases |ops|
  {
    if ops == [] {
      SoundCovers(m);
    } else {
      StepKeepsSound(m, ops[0]);
      RunCovered(Step(m, ops[0]), ops[1..]);
    }
  }

  // ---- Line ends ----

  predicate PairAt(text: Bytes, i: int) {
    0 <= i && i + 1 < |text| && text[i] == CR && text[i + 1] == LF
  }

  /** The text with every CR LF pair replaced by LF. */
  function Collapse(text: Bytes): Bytes {
    if text == [] then []
    else if PairAt(text, 0) then [LF] + Collapse(text[2..])
    else [text[0]] + Collapse(text[1..])
  }

  /** The number of CR LF pairs from position i on. */
  function Pairs(text: Bytes, i: nat): nat
    decreases |text| - i
  {
    if i >= |text| then 0 else (if PairAt(text, i) then 1 else 0) + Pairs(text, i + 1)
  }

  /** Collapsing removes one byte for each CR LF pair. */
  lemma {:induction false} CollapseLength(text: Bytes)
    ensures |Collapse(text)| == |text| - Pairs(text, 0)
    decreases |text|
  {
    if text != [] {
      var d := if PairAt(text, 0) then 2 else 1;
      CollapseLength(text[d..]);
      PairsShift(text, d, 0);
    }
  }

  lemma {:induction false} PairsShift(text: Bytes, d: nat, i: nat)
    requires d <= |text|
    ensures Pairs(text[d..], i) == Pairs(text, i + d)
    decreases |text| - i
  {
    if i < |text| {
      PairsShift(text, d, i + 1);
    }
  }

  /** A pair survives collapsing exactly where a CR stood before a CR LF pair. */
  predicate DoubledAt(text: Bytes, i: int) {
    0 <= i && PairAt(text, i + 1) && text[i] == CR
  }

  lemma CollapseLeavesPair(text: Bytes)
    ensures (exists i :: PairAt(Collapse(text), i)) <==> exists i :: DoubledAt(text, i)
  {
    if i :| PairAt(Collapse(text), i) {
      var k := DoubledBehind(text, i);
    }
    if k :| DoubledAt(text, k) {
      var i := PairLeft(text, k);
    }
  }

  lemma {:induction false} DoubledBehind(text: Bytes, i: int) returns (k: int)
    requires PairAt(Collapse(text), i)
    ensures DoubledAt(text, k)
    decreases |text|
  {
    var d := if PairAt(text, 0) then 2 else 1;
    assert Collapse(text)[1..] == Collapse(text[d..]);
    if i == 0 {
      FirstCollapsed(text[d..]);
      k := 0;
    } else {
      k := DoubledBehind(text[d..], i - 1);
      k := k + d;
    }
  }

  lemma {:induction false} PairLeft(text: Bytes, k: int) returns (i: int)
    requires DoubledAt(text, k)
    ensures PairAt(Collapse(text), i)
    decreases |text|
  {
    var d := if PairAt(text, 0) then 2 else 1;
    assert Collapse(text)[1..] == Collapse(text[d..]);
    if k < d {
      FirstCollapsed(text[d..]);
      i := 0;
    } else {
      assert DoubledAt(text[d..], k - d);
      i := PairLeft(text[d..], k - d);
      i := i + 1;
    }
  }

  lemma FirstCollapsed(text: Bytes)
    ensures Collapse(text) == [] <==> text == []
    ensures text != [] ==> Collapse(text)[0] == if PairAt(text, 0) then LF else text[0]
  {
  }

  /** A text the native side collapses the same way is accepted, whatever its length. */
  lemma NormalizedSizeAccepted(text: Bytes, slot: nat)
    requires slot <= 0xff
    ensures forall size: nat | size < 0x1_0000_0000 ::
              SetterStatus(slot, size, AsInt32(|Collapse(text)|)) == Success
              <==> size == (|text| - Pairs(text, 0)) % 0x1_0000_0000
  {
    CollapseLength(text);
    hide Collapse, Pairs;
    CutKeepsRemainder(|Collapse(text)|);
  }

  lemma CutKeepsRemainder(n: int)
    ensures AsInt32(n) % 0x1_0000_0000 == n % 0x1_0000_0000
  {
  }

  method NormalizedByteSize(bytes: Bytes) returns (size: int)
    ensures size == AsInt32(|Collapse(bytes)|)
  {
    var removed, index := 0, 0;
    while index < |bytes|
      invariant 0 <= index <= |bytes| && 0 <= removed <= index
      invariant |Collapse(bytes)| == index - removed + |Collapse(bytes[index..])|
    {
      if bytes[index] == CR && index + 1 < |bytes| && bytes[index + 1] == LF {
        assert bytes[index..][2..] == bytes[index + 2..];
        removed := removed + 1;
        index := index + 2;
      } else {
        assert bytes[index..][1..] == bytes[index + 1..];
        index := index + 1;
      }
    }
    size := AsInt32(|bytes| - removed);
  }

  // ---- The buffer ----

  method StableCopy(bytes: Bytes) returns (result: array<bv8>)
    ensures fresh(result) && result[..] == bytes
  {
    result := new bv8[|bytes|];
    for index := 0 to |bytes|
      invariant result[..index] == bytes[..index]
    {
      result[index] := bytes[index];
    }
  }

  /** A text buffer, as far as its byte arrays go. */
  class ByteStore {
    var open: bool
    var retained: seq<array<bv8>>
    var textStorage: Option<array<bv8>>
    var textMemoryId: Option<nat>
    var openViews: nat
    /** The arrays the native registry points to, by slot. */
    ghost var registry: map<nat, array<bv8>>

    ghost function State(): Memory<array<bv8>>
      reads this
    {
      Memory(registry, retained, textStorage, textMemoryId)
    }

    constructor ()
      ensures open && openViews == 0 && Sound(State()) && State() == New()
    {
      open, openViews := true, 0;
      retained, textStorage, textMemoryId := [], None, None;
      registry := map[];
    }

    method Append(bytes: Bytes, status: Status, ghost slot: Option<nat>, raises: bool) returns (answer: Answer)
      modifies this`retained, this`registry
      ensures !open ==> answer == Closed && State() == old(State())
      ensures open && (bytes == [] || raises) ==>
                answer == (if bytes == [] then Fine else Raised) && State() == old(State())
      ensures open && bytes != [] && !raises ==>
                && answer == AnswerOf(status) && retained != []
                && fresh(retained[0]) && retained[0][..] == bytes
                && State() == AppendStep(old(State()), retained[0], slot)
      ensures old(Sound(State())) ==> Sound(State())
    {
      ghost var before := State();
      if !open {
        return Closed;
      }
      if |bytes| == 0 {
        return Fine;
      }
      if raises {
        return Raised;
      }
      var stable := StableCopy(bytes);
      retained := [stable] + retained;
      registry := if slot.Some? then registry[slot.value := stable] else registry;
      if Sound(before) {
        StepKeepsSound(before, Op.Append(stable, slot));
      }
      answer := AnswerOf(status);
    }

    method SetText(bytes: Bytes, n: Native, reach: Reach) returns (answer: Answer, ghost block: Option<array<bv8>>)
      modifies this`retained, this`textStorage, this`textMemoryId, this`registry
      ensures !open ==> answer == Closed && State() == old(State())
      ensures open && reach.BeforeNative? ==> answer == Raised && State() == old(State())
      ensures open && !reach.BeforeNative? ==>
                && block.Some? && fresh(block.value) && block.value[..] == bytes
                && (State(), answer) == SetStep(old(State()), block.value, n, AsInt32(|Collapse(bytes)|), reach)
      ensures old(Sound(State())) ==> (Sound(State()) <==> !(open && CutShort(old(State()), n, reach)))
    {
      hide Sound, Collapse;
      ghost var before := State();
      block := None;
      if !open {
        return Closed, None;
      }
      if reach.BeforeNative? {
        return Raised, None;
      }
      var stable := StableCopy(bytes);
      block := Some(stable);
      if Sound(before) {
        SetKeepsSoundExactly(before, stable, n, AsInt32(|Collapse(bytes)|), reach);
      }
      var slot: Option<nat>, status := None, n.registered;
      match textMemoryId {
        case Some(id) =>
          if n.replaced == Success {
            slot := Some(id);
          } else if n.replaced == NativeFailure {
            slot := if n.registered == Success then Some(n.slot) else None;
          } else {
            status := n.replaced;
          }
        case None =>
          slot := if n.registered == Success then Some(n.slot) else None;
      }
      if slot == None {
        return if reach.Whole? then Refused(status) else Raised, block;
      }
      registry := registry[slot.value := stable];
      if reach.AfterNative? {
        return Raised, block;
      }
      if textMemoryId.Some? && textMemoryId.value != slot.value && textStorage.Some? {
        retained := [textStorage.value] + retained;
      }
      if reach.AfterRetaining? {
        return Raised, block;
      }
      textStorage := Some(stable);
      if reach.AfterStoring? {
        return Raised, block;
      }
      textMemoryId := Some(slot.value);
      var expected := NormalizedByteSize(bytes);
      answer := AnswerOf(SetterStatus(slot.value, n.size, expected));
    }

    /** Removing the text leaves the registry alone, and what it borrows stays rooted whatever is answered. */
    method ClearText(status: Status) returns (answer: Answer)
      ensures answer == Closed <==> !open
      ensures open ==> (answer == Fine <==> status == Success)
      ensures Sound(State()) ==> forall k :: k in registry ==> Rooted(State(), registry[k])
    {
      if Sound(State()) {
        SoundCovers(State());
      }
      if !open {
        return Closed;
      }
      answer := AnswerOf(status);
    }

    method Reset(status: Status) returns (answer: Answer)
      modifies this`retained, this`textStorage, this`textMemoryId, this`registry
      ensures answer == if open then AnswerOf(status) else Closed
      ensures State() == if answer == Fine then ResetStep(old(State())) else old(State())
      ensures answer == Fine ==> retained == [] && textStorage == None && textMemoryId == None
    {
      if !open {
        return Closed;
      }
      if status == Success {
        registry := map[];
        retained, textStorage, textMemoryId := [], None, None;
      }
      answer := AnswerOf(status);
    }

    method RegisterView()
      modifies this`openViews
      ensures openViews == old(openViews) + 1
    {
      openViews := openViews + 1;
    }

    method UnregisterView()
      modifies this`openViews
      ensures openViews == if old(openViews) > 0 then old(openViews) - 1 else 0
    {
      if openViews > 0 {
        openViews := openViews - 1;
      }
    }

    method Close() returns (answer: Answer)
      modifies this
      ensures openViews == old(openViews)
      ensures !old(open) ==> answer == Fine && !open && State() == old(State())
      ensures old(open) && openViews != 0 ==> answer == Refused(InvalidArgument) && open && State() == old(State())
      ensures old(open) && openViews == 0 ==> answer == Fine && !open && State() == ResetStep(old(State()))
    {
      if !open {
        return Fine;
      }
      if openViews != 0 {
        return Refused(InvalidArgument);
      }
      registry := map[];
      retained, textStorage, textMemoryId := [], None, None;
      open := false;
      answer := Fine;
    }
  }
}
