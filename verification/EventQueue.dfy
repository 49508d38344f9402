/**
The bounded queue between the native event callback and the polling caller: what each entry point does
to the queue, the overflow flag and the active sink, and what a run of them guarantees. The newest
event is dropped when there is no room, and the flag remembers that until it is reported.
*/
module EventQueue {
  import opened Lists
  import opened Statuses
  import opened Words

  const NAME_CAPACITY: nat := 256
  const DATA_CAPACITY: nat := 4096

  datatype Event = Event(name: Bytes, data: Bytes)

  datatype State = State(queue: seq<Event>, overflow: bool, sink: nat)

  /** `raises`: the allocation of the answer fails. */
  datatype Op =
    | Emit(event: Event)
    | Create(handle: nat, raises: bool)
    | Destroy(handle: nat)
    | Poll(handle: nat, raises: bool)

  datatype Reply = Silent | Raised | Sink(status: Status, handle: nat) | Answer(status: Status, event: Option<Event>)

  datatype Outcome = Outcome(state: State, reply: Reply)

  const EMPTY := State([], false, 0)

  predicate Fits(e: Event) {
    |e.name| <= NAME_CAPACITY && |e.data| <= DATA_CAPACITY
  }

  function EmitStep(capacity: nat, s: State, e: Event): State {
    if s.sink == 0 then s
    else if !Fits(e) || |s.queue| == capacity then s.(overflow := true)
    else s.(queue := s.queue + [e])
  }

  function CreateStep(s: State, handle: nat, raises: bool): Outcome {
    if s.sink != 0 then Outcome(s, if raises then Raised else Sink(InvalidArgument, 0))
    else if handle == 0 then Outcome(EMPTY, if raises then Raised else Sink(NativeFailure, 0))
    else Outcome(State([], false, handle), if raises then Raised else Sink(Success, handle))
  }

  function PollStep(s: State, handle: nat, raises: bool): Outcome {
    if handle == 0 || handle != s.sink then Outcome(s, if raises then Raised else Answer(StaleHandle, None))
    else if s.queue == [] && s.overflow then
      Outcome(s.(overflow := false), if raises then Raised else Answer(QueueOverflow, None))
    else if s.queue == [] then Outcome(s, if raises then Raised else Answer(Success, None))
    else if raises then Outcome(s, Raised)
    else Outcome(s.(queue := s.queue[1..]), Answer(Success, Some(s.queue[0])))
  }

  function Step(capacity: nat, s: State, op: Op): Outcome {
    match op
    case Emit(e) => Outcome(EmitStep(capacity, s, e), Silent)
    case Create(handle, raises) => CreateStep(s, handle, raises)
    case Destroy(handle) => Outcome(if handle != 0 && handle == s.sink then EMPTY else s, Silent)
    case Poll(handle, raises) => PollStep(s, handle, raises)
  }

  function Run(capacity: nat, s: State, ops: seq<Op>): State
    decreases |ops|
  {
    if ops == [] then s else Run(capacity, Step(capacity, s, ops[0]).state, ops[1..])
  }

  function Replies(capacity: nat, s: State, ops: seq<Op>): (r: seq<Reply>)
    ensures |r| == |ops|
    decreases |ops|
  {
    if ops == [] then []
    else [Step(capacity, s, ops[0]).reply] + Replies(capacity, Step(capacity, s, ops[0]).state, ops[1..])
  }

  // ---- What a run looks like from outside ----

  /** The events the native side emitted, in order. */
  function Emitted(ops: seq<Op>): seq<Event> {
    if ops == [] then []
    else (if ops[0].Emit? then [ops[0].event] else []) + Emitted(ops[1..])
  }

  /** The events the polls handed out, in order. */
  function Polled(replies: seq<Reply>): seq<Event> {
    if replies == [] then []
    else (if replies[0].Answer? && replies[0].event.Some? then [replies[0].event.value] else []) + Polled(replies[1..])
  }

  predicate Reported(replies: seq<Reply>) {
    exists k :: 0 <= k < |replies| && replies[k] == Answer(QueueOverflow, None)
  }

  /** Any calls by anyone, while nobody destroys sink h. */
  predicate Session(ops: seq<Op>, h: nat) {
    forall k :: 0 <= k < |ops| ==> ops[k] != Destroy(h)
  }

  // ---- What happened inside ----

  predicate Drops(capacity: nat, s: State, op: Op) {
    op.Emit? && s.sink != 0 && (!Fits(op.event) || |s.queue| == capacity)
  }

  /** The poll clears a raised flag, whether or not its answer arrives. */
  predicate Clears(s: State, op: Op) {
    op.Poll? && op.handle != 0 && op.handle == s.sink && s.queue == [] && s.overflow
  }

  /** The events that found room. */
  function Accepted(capacity: nat, s: State, ops: seq<Op>): seq<Event>
    decreases |ops|
  {
    if ops == [] then []
    else (if ops[0].Emit? && s.sink != 0 && !Drops(capacity, s, ops[0]) then [ops[0].event] else [])
         + Accepted(capacity, Step(capacity, s, ops[0]).state, ops[1..])
  }

  /** Events dropped since the flag was last clear. */
  function Unreported(capacity: nat, s: State, ops: seq<Op>, already: nat): nat
    decreases |ops|
  {
    if ops == [] then already
    else Unreported(capacity, Step(capacity, s, ops[0]).state, ops[1..],
                    if Drops(capacity, s, ops[0]) then already + 1 else if Clears(s, ops[0]) then 0 else already)
  }

  function Dropped(capacity: nat, s: State, ops: seq<Op>): nat
    decreases |ops|
  {
    if ops == [] then 0
    else (if Drops(capacity, s, ops[0]) then 1 else 0)
         + Dropped(capacity, Step(capacity, s, ops[0]).state, ops[1..])
  }

  /** An overflow report was cleared by a poll whose answer could not be allocated. */
  predicate ReportLost(capacity: nat, s: State, ops: seq<Op>)
    decreases |ops|
  {
    ops != []
    && ((Clears(s, ops[0]) && ops[0].raises) || ReportLost(capacity, Step(capacity, s, ops[0]).state, ops[1..]))
  }

  // ---- Guarantees ----

  /** The queue is a bounded FIFO: what was waiting and what was accepted is what was polled and what waits. */
  lemma {:induction false} RunIsFifo(capacity: nat, s: State, ops: seq<Op>, h: nat)
    requires Session(ops, h) && s.sink == h && h != 0 && |s.queue| <= capacity
    ensures s.queue + Accepted(capacity, s, ops)
         == Polled(Replies(capacity, s, ops)) + Run(capacity, s, ops).queue
    ensures |Run(capacity, s, ops).queue| <= capacity && Run(capacity, s, ops).sink == h
    decreases |ops|
  {
    if ops != [] {
      var n := Step(capacity, s, ops[0]);
      RunIsFifo(capacity, n.state, ops[1..], h);
      FirstReply(capacity, s, ops);
      var first: seq<Event> := if n.reply.Answer? && n.reply.event.Some? then [n.reply.event.value] else [];
      var taken: seq<Event> := if ops[0].Emit? && !Drops(capacity, s, ops[0]) then [ops[0].event] else [];
      assert s.queue + taken == first + n.state.queue;
      Regroup(s.queue, taken, Accepted(capacity, n.state, ops[1..]),
              first, Polled(Replies(capacity, n.state, ops[1..])), Run(capacity, s, ops).queue, n.state.queue);
    }
  }

  /** An active sink queues an event exactly when its name and data fit the slot and a slot is free. */
  lemma QueuedExactly(capacity: nat, s: State, e: Event)
    requires s.sink != 0 && |s.queue| <= capacity
    ensures var s' := Step(capacity, s, Emit(e)).state;
            && s'.sink == s.sink
            && if |e.name| <= 256 && |e.data| <= 4096 && |s.queue| < capacity
               then s'.queue == s.queue + [e] && s'.overflow == s.overflow
               else s'.queue == s.queue && s'.overflow
  {
  }

  lemma {:induction false} AcceptedSplits(capacity: nat, s: State, ops: seq<Op>, i: nat)
    requires i <= |ops|
    ensures Accepted(capacity, s, ops)
         == Accepted(capacity, s, ops[..i]) + Accepted(capacity, Run(capacity, s, ops[..i]), ops[i..])
    decreases |ops|
  {
    if i == 0 {
      assert ops[..i] == [] && ops[i..] == ops;
    } else {
      AcceptedSplits(capacity, Step(capacity, s, ops[0]).state, ops[1..], i - 1);
      assert ops[..i][1..] == ops[1..][..i - 1] && ops[1..][i - 1..] == ops[i..];
    }
  }

  /**
  An event of at most 256 name bytes and 4096 data bytes that arrives while a slot is free is not lost: it
  has its place among the events polled and waiting, and was polled once nothing waits.
  */
  lemma ArrivedIsPolled(capacity: nat, s: State, ops: seq<Op>, h: nat, i: nat)
    requires Session(ops, h) && s.sink == h && h != 0 && |s.queue| <= capacity && i < |ops| && ops[i].Emit?
    requires |ops[i].event.name| <= 256 && |ops[i].event.data| <= 4096
    requires |Run(capacity, s, ops[..i]).queue| < capacity
    ensures var at := |s.queue| + |Accepted(capacity, s, ops[..i])|;
            var out := Polled(Replies(capacity, s, ops)) + Run(capacity, s, ops).queue;
            at < |out| && out[at] == ops[i].event
    ensures Run(capacity, s, ops).queue == [] ==> ops[i].event in Polled(Replies(capacity, s, ops))
  {
    RunIsFifo(capacity, s, ops, h);
    RunIsFifo(capacity, s, ops[..i], h);
    AcceptedSplits(capacity, s, ops, i);
    assert ops[i..][0] == ops[i];
    var all := s.queue + Accepted(capacity, s, ops);
    assert all[|s.queue| + |Accepted(capacity, s, ops[..i])|] == ops[i].event;
  }

  lemma FirstReply(capacity: nat, s: State, ops: seq<Op>)
    requires ops != []
    ensures var n := Step(capacity, s, ops[0]);
            Polled(Replies(capacity, s, ops))
            == (if n.reply.Answer? && n.reply.event.Some? then [n.reply.event.value] else [])
               + Polled(Replies(capacity, n.state, ops[1..]))
    ensures Reported(Replies(capacity, s, ops))
            <==> Step(capacity, s, ops[0]).reply == Answer(QueueOverflow, None)
                 || Reported(Replies(capacity, Step(capacity, s, ops[0]).state, ops[1..]))
  {
    var n, all := Step(capacity, s, ops[0]), Replies(capacity, s, ops);
    var rest := Replies(capacity, n.state, ops[1..]);
    assert all[1..] == rest && all[0] == n.reply;
    if Reported(rest) {
      var k :| 0 <= k < |rest| && rest[k] == Answer(QueueOverflow, None);
      assert all[k + 1] == rest[k];
    }
    if Reported(all) && all[0] != Answer(QueueOverflow, None) {
      var k :| 0 <= k < |all| && all[k] == Answer(QueueOverflow, None);
      assert rest[k - 1] == all[k];
    }
  }

  /** The flag is up exactly when something was dropped since it was last clear. */
  lemma {:induction false} FlagIsExact(capacity: nat, s: State, ops: seq<Op>, h: nat, already: nat)
    requires Session(ops, h) && s.sink == h && h != 0 && (s.overflow <==> already > 0)
    ensures Run(capacity, s, ops).overflow <==> Unreported(capacity, s, ops, already) > 0
    decreases |ops|
  {
    if ops != [] {
      FlagIsExact(capacity, Step(capacity, s, ops[0]).state, ops[1..], h,
                  if Drops(capacity, s, ops[0]) then already + 1 else if Clears(s, ops[0]) then 0 else already);
    }
  }

  /** Every emitted event is accepted or dropped; when none is dropped, the accepted ones are the emitted ones. */
  lemma {:induction false} EmittedSplits(capacity: nat, s: State, ops: seq<Op>, h: nat)
    requires Session(ops, h) && s.sink == h && h != 0
    ensures |Emitted(ops)| == |Accepted(capacity, s, ops)| + Dropped(capacity, s, ops)
    ensures Dropped(capacity, s, ops) == 0 ==> Accepted(capacity, s, ops) == Emitted(ops)
    decreases |ops|
  {
    if ops != [] {
      EmittedSplits(capacity, Step(capacity, s, ops[0]).state, ops[1..], h);
    }
  }

  /** Something was dropped exactly when the flag is still up, was reported, or its report was lost. */
  lemma {:induction false} DropsLeaveTraces(capacity: nat, s: State, ops: seq<Op>, h: nat)
    requires Session(ops, h) && s.sink == h && h != 0
    ensures s.overflow || Dropped(capacity, s, ops) > 0
            <==> Run(capacity, s, ops).overflow || Reported(Replies(capacity, s, ops)) || ReportLost(capacity, s, ops)
    decreases |ops|
  {
    if ops != [] {
      FirstReply(capacity, s, ops);
      DropsLeaveTraces(capacity, Step(capacity, s, ops[0]).state, ops[1..], h);
    }
  }

  /**
  From an empty queue with the flag clear, a session that ends in an "empty" answer and saw no overflow
  report has polled exactly what was emitted, unless an overflow report was lost to a failed allocation.
  */
  lemma EmptyCertifies(capacity: nat, s: State, ops: seq<Op>, h: nat)
    requires Session(ops, h) && s.sink == h && h != 0 && s.queue == [] && !s.overflow
    requires var e := Run(capacity, s, ops); PollStep(e, h, false).reply == Answer(Success, None)
    requires !Reported(Replies(capacity, s, ops))
    ensures Polled(Replies(capacity, s, ops)) == Emitted(ops) <==> !ReportLost(capacity, s, ops)
  {
    RunIsFifo(capacity, s, ops, h);
    EmittedSplits(capacity, s, ops, h);
    DropsLeaveTraces(capacity, s, ops, h);
    Unpadded(Accepted(capacity, s, ops), Polled(Replies(capacity, s, ops)));
  }

  /** The report of an event too long to queue, lost to a failed allocation: the queue then answers "empty". */
  lemma LostReportExample(capacity: nat, e: Event)
    requires !Fits(e)
    ensures var s, ops := State([], false, 1), [Emit(e), Poll(1, true)];
            && Run(capacity, s, ops) == s && PollStep(s, 1, false).reply == Answer(Success, None)
            && Replies(capacity, s, ops) == [Silent, Raised] && ReportLost(capacity, s, ops)
            && Polled([Silent, Raised]) == [] && Emitted(ops) == [e]
  {
    var s, t, ops := State([], false, 1), State([], true, 1), [Emit(e), Poll(1, true)];
    assert Step(capacity, s, ops[0]) == Outcome(t, Silent) && ops[1..] == [Poll(1, true)];
    assert Step(capacity, t, Poll(1, true)) == Outcome(s, Raised) && [Poll(1, true)][1..] == [];
    assert Run(capacity, t, [Poll(1, true)]) == s && Replies(capacity, t, [Poll(1, true)]) == [Raised];
    assert ReportLost(capacity, t, [Poll(1, true)]) && Emitted([Poll(1, true)]) == [];
    assert [Silent, Raised][1..] == [Raised] && [Raised][1..] == [] && Polled([Raised]) == [];
  }

  /** An overflow report means that something emitted since the flag was last clear was dropped. */
  lemma ReportIsTrue(capacity: nat, s: State, ops: seq<Op>, h: nat)
    requires Session(ops, h) && s.sink == h && h != 0 && s.queue == [] && !s.overflow
    requires PollStep(Run(capacity, s, ops), h, false).reply == Answer(QueueOverflow, None)
    ensures Polled(Replies(capacity, s, ops)) == Accepted(capacity, s, ops)
    ensures |Polled(Replies(capacity, s, ops))| < |Emitted(ops)|
  {
    RunIsFifo(capacity, s, ops, h);
    EmittedSplits(capacity, s, ops, h);
    DropsLeaveTraces(capacity, s, ops, h);
    Unpadded(Accepted(capacity, s, ops), Polled(Replies(capacity, s, ops)));
  }

  lemma Unpadded<T>(a: seq<T>, b: seq<T>)
    ensures [] + a == b + [] <==> a == b
  {
    assert [] + a == a && b + [] == b;
  }

  // ---- The one active sink ----

  /** A create starts an empty queue exactly when no sink is active; a destroy ends the active sink and no other. */
  lemma SinkChangesExactly(capacity: nat, s: State, h: nat, raises: bool)
    requires h != 0
    ensures var o := Step(capacity, s, Create(h, raises));
            && (o.state == State([], false, h) || s.sink != 0) && (s.sink != 0 ==> o.state == s)
            && (o.reply == Sink(Success, h) <==> s.sink == 0 && !raises)
    ensures Step(capacity, s, Destroy(h)).state == if s.sink == h then State([], false, 0) else s
  {
  }

  /** A sink stays active until its own destroy: until then every create is refused, delivered or not. */
  lemma {:induction false} SinkStaysActive(capacity: nat, s: State, ops: seq<Op>)
    requires s.sink != 0 && forall k :: 0 <= k < |ops| ==> ops[k] != Destroy(s.sink)
    ensures Run(capacity, s, ops).sink == s.sink
    ensures forall k :: 0 <= k < |ops| && ops[k].Create? ==>
              Replies(capacity, s, ops)[k] in {Raised, Sink(InvalidArgument, 0)}
    decreases |ops|
  {
    if ops != [] {
      var n := Step(capacity, s, ops[0]);
      assert forall k :: 0 <= k < |ops[1..]| ==> ops[1..][k] == ops[k + 1];
      SinkStaysActive(capacity, n.state, ops[1..]);
    }
  }

  /** The create at position i made sink h, and no call after it destroyed h. */
  predicate Made(capacity: nat, s: State, ops: seq<Op>, i: nat, h: nat)
    requires i < |ops|
  {
    && h != 0 && ops[i].Create? && ops[i].handle == h
    && Run(capacity, s, ops[..i]).sink == 0
    && Session(ops[i + 1..], h)
  }

  /** From any state without a sink, the sink active after a run was made by one create of that run. */
  lemma {:induction false} SinkWasMade(capacity: nat, s: State, ops: seq<Op>) returns (i: nat)
    requires s.sink == 0 || !Session(ops, s.sink)
    requires Run(capacity, s, ops).sink != 0
    ensures i < |ops| && Made(capacity, s, ops, i, Run(capacity, s, ops).sink)
    decreases |ops|
  {
    var n := Step(capacity, s, ops[0]).state;
    if n.sink == 0 || !Session(ops[1..], n.sink) {
      i := SinkWasMade(capacity, n, ops[1..]);
      assert ops[..i + 1][1..] == ops[1..][..i] && ops[i + 1 + 1..] == ops[1..][i + 1..];
      i := i + 1;
    } else {
      i := 0;
      SinkStaysActive(capacity, n, ops[1..]);
      assert s.sink == 0;
    }
  }

  /**
  The handle of the active sink reached a caller exactly when the create that made it did not raise; and
  that create is the only one since whose answer can tell it.
  */
  lemma ActiveSinkDelivered(capacity: nat, s: State, ops: seq<Op>, i: nat)
    requires i < |ops| && Made(capacity, s, ops, i, Run(capacity, s, ops).sink)
    ensures var h, r := Run(capacity, s, ops).sink, Replies(capacity, s, ops);
            && (r[i] == Sink(Success, h) <==> !ops[i].raises)
            && forall k :: i < k < |ops| ==> !(r[k].Sink? && r[k].status == Success)
  {
    var b := Run(capacity, s, ops[..i]);
    ReplyAt(capacity, s, ops, i);
    var h, n := ops[i].handle, Step(capacity, b, ops[i]).state;
    SinkStaysActive(capacity, n, ops[i + 1..]);
    forall k | i < k < |ops|
      ensures !(Replies(capacity, s, ops)[k].Sink? && Replies(capacity, s, ops)[k].status == Success)
    {
      assert ops[i + 1..][k - i - 1] == ops[k];
      OnlyCreatesTell(capacity, n, ops[i + 1..], k - i - 1);
    }
  }

  lemma {:induction false} OnlyCreatesTell(capacity: nat, s: State, ops: seq<Op>, k: nat)
    requires k < |ops|
    ensures Replies(capacity, s, ops)[k].Sink? ==> ops[k].Create?
    decreases |ops|
  {
    if k > 0 {
      OnlyCreatesTell(capacity, Step(capacity, s, ops[0]).state, ops[1..], k - 1);
    }
  }

  /** The answer at one position, and the rest of a run seen from there. */
  lemma {:induction false} ReplyAt(capacity: nat, s: State, ops: seq<Op>, i: nat)
    requires i < |ops|
    ensures var o := Step(capacity, Run(capacity, s, ops[..i]), ops[i]);
            && Replies(capacity, s, ops)[i] == o.reply
            && Run(capacity, s, ops) == Run(capacity, o.state, ops[i + 1..])
            && Replies(capacity, s, ops)[i + 1..] == Replies(capacity, o.state, ops[i + 1..])
    decreases |ops|
  {
    if i > 0 {
      var n := Step(capacity, s, ops[0]).state;
      ReplyAt(capacity, n, ops[1..], i - 1);
      assert ops[..i][1..] == ops[1..][..i - 1] && ops[1..][i..] == ops[i + 1..];
    }
  }

  /** A create whose answer could not be allocated: its sink is active, nobody was told, and no create succeeds. */
  lemma UndeliveredSinkExample(capacity: nat, h: nat, raises: bool)
    requires h != 0
    ensures var o := Step(capacity, EMPTY, Create(h, true));
            && o == Outcome(State([], false, h), Raised)
            && Step(capacity, o.state, Create(h, raises)).reply == if raises then Raised else Sink(InvalidArgument, 0)
  {
  }
}
