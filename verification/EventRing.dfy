/**
The event queue as a ring of slots with a head and a count, updated in place; every entry point is
proved equal to its step in EventQueue. On top of it, the typed sink with its own open flag.
*/
module EventRing {
  import opened Statuses
  import opened EventQueue
  import opened Rings

  /** Twice the capacity fits a 32-bit counter, so the tail index never wraps around. */
  const CAPACITY_LIMIT: nat := 0x7fff_ffff

  class Ring {
    const slots: array<Event>
    var head: nat
    var count: nat
    var overflow: bool
    var sink: nat

    ghost predicate Valid()
      reads this
    {
      0 < slots.Length <= CAPACITY_LIMIT && head < slots.Length && count <= slots.Length
    }

    ghost function Queue(): (q: seq<Event>)
      requires Valid()
      reads this, slots
      ensures |q| == count
    {
      Window(slots[..], head, count)
    }

    ghost function State(): State
      requires Valid()
      reads this, slots
    {
      EventQueue.State(Queue(), overflow, sink)
    }

    constructor (capacity: nat)
      requires 0 < capacity <= CAPACITY_LIMIT
      ensures Valid() && fresh(slots) && slots.Length == capacity && State() == EMPTY
    {
      slots := new Event[capacity](_ => Event([], []));
      head, count, overflow, sink := 0, 0, false, 0;
    }

    method Reset()
      requires Valid()
      modifies this`head, this`count, this`overflow
      ensures Valid() && Queue() == [] && !overflow
    {
      head, count, overflow := 0, 0, false;
    }

    /** The native side emits an event. */
    method Callback(e: Event)
      requires Valid()
      modifies this`overflow, this`count, slots
      ensures Valid() && State() == EmitStep(slots.Length, old(State()), e)
    {
      if sink == 0 {
        return;
      }
      if |e.name| > NAME_CAPACITY || |e.data| > DATA_CAPACITY || count == slots.Length {
        overflow := true;
        return;
      }
      WrapsAround(head + count, slots.Length);
      Pushed(slots[..], head, count, e);
      var tail := (head + count) % slots.Length;
      slots[tail] := e;
      count := count + 1;
    }

    method Create(handle: nat, raises: bool) returns (reply: Reply)
      requires Valid()
      modifies this
      ensures Valid() && Outcome(State(), reply) == CreateStep(old(State()), handle, raises)
    {
      if sink != 0 {
        return if raises then Raised else Sink(InvalidArgument, 0);
      }
      Reset();
      if handle == 0 {
        return if raises then Raised else Sink(NativeFailure, 0);
      }
      sink := handle;
      return if raises then Raised else Sink(Success, handle);
    }

    method Destroy(handle: nat)
      requires Valid()
      modifies this
      ensures Valid() && State() == Step(slots.Length, old(State()), EventQueue.Destroy(handle)).state
    {
      if handle != 0 && handle == sink {
        sink := 0;
        Reset();
      }
    }

    method Poll(handle: nat, raises: bool) returns (reply: Reply)
      requires Valid()
      modifies this
      ensures Valid() && Outcome(State(), reply) == PollStep(old(State()), handle, raises)
    {
      if handle == 0 || handle != sink {
        return if raises then Raised else Answer(StaleHandle, None);
      }
      if count == 0 && overflow {
        overflow := false;
        return if raises then Raised else Answer(QueueOverflow, None);
      }
      if count == 0 {
        return if raises then Raised else Answer(Success, None);
      }
      if raises {
        return Raised;
      }
      reply := Answer(Success, Some(slots[head]));
      WrapsAround(head + 1, slots.Length);
      Popped(slots[..], head, count);
      head := (head + 1) % slots.Length;
      count := count - 1;
    }
  }

  // ---- The typed sink ----

  datatype PollResult = Polled(event: Event) | Empty | Failed(status: Status) | Closed | OutOfMemory

  class EventSink {
    const ring: Ring
    const handle: nat
    var open: bool

    /** An open sink is the active one. */
    ghost predicate Good()
      reads this, ring
    {
      ring.Valid() && handle != 0 && (open ==> ring.sink == handle)
    }

    constructor (ring: Ring, handle: nat)
      requires ring.Valid() && ring.sink == handle && handle != 0
      ensures Good() && open && this.ring == ring && this.handle == handle
    {
      this.ring := ring;
      this.handle := handle;
      open := true;
    }

    /** Closing again does nothing: a sink created later keeps its queue. */
    method Close()
      requires Good()
      modifies this`open, ring
      ensures Good() && !open
      ensures ring.State() == if old(open) then EMPTY else old(ring.State())
    {
      if open {
        ring.Destroy(handle);
        open := false;
      }
    }

    /** An open sink is never stale. */
    method Poll(raises: bool) returns (answer: PollResult)
      requires Good()
      modifies ring
      ensures Good()
      ensures !open ==> answer == Closed && ring.State() == old(ring.State())
      ensures open ==>
                var s := old(ring.State());
                && ring.State() == PollStep(s, handle, raises).state
                && (raises <==> answer == OutOfMemory)
                && (!raises ==>
                      && (answer == Empty <==> s.queue == [] && !s.overflow)
                      && (answer == Failed(QueueOverflow) <==> s.queue == [] && s.overflow)
                      && (s.queue != [] <==> answer.Polled?)
                      && (s.queue != [] ==> answer == PollResult.Polled(s.queue[0])))
    {
      if !open {
        return Closed;
      }
      var reply := ring.Poll(handle, raises);
      if reply.Raised? {
        return OutOfMemory;
      }
      if reply.status != Success {
        return Failed(reply.status);
      }
      answer := if reply.event.None? then Empty else PollResult.Polled(reply.event.value);
    }
  }

  method CreateSink(ring: Ring, handle: nat, raises: bool) returns (answer: Status, sink: EventSink?, raised: bool)
    requires ring.Valid()
    modifies ring
    ensures ring.Valid() && ring.State() == CreateStep(old(ring.State()), handle, raises).state
    ensures raised == raises
    ensures sink != null <==> old(ring.sink) == 0 && handle != 0 && !raises
    ensures sink != null ==> fresh(sink) && sink.Good() && sink.open && sink.ring == ring && sink.handle == handle
    ensures !raised ==> answer == if old(ring.sink) != 0 then InvalidArgument
                                  else if handle == 0 then NativeFailure else Success
  {
    sink, raised, answer := null, false, Success;
    var reply := ring.Create(handle, raises);
    if reply.Raised? {
      raised := true;
      return;
    }
    answer := reply.status;
    if reply.status == Success {
      sink := new EventSink(ring, reply.handle);
    }
  }
}
