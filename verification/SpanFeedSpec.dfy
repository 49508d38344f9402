/**
The span-feed tables and what each entry point does to them, to the native feed and to the record of
where every drained span went. Native statuses and allocation failures are parameters of each call.
*/
module SpanFeedSpec {
  import opened Handles
  import opened Statuses
  import opened Slots
  import opened Words

  const POINTER_MAX: nat := 0xffff_ffff_ffff_ffff

  /** A span as the native feed describes it; `id` tells one native span from every other. */
  datatype Info = Info(id: nat, pointer: nat, offset: nat, len: nat, payload: Bytes)

  datatype Feed = Feed(
    stream: nat,
    pendingSpan: bool,
    spanHandle: nat,
    pendingInfo: Info,
    pendingReservation: bool,
    reservationHandle: nat)

  datatype Span = Span(feed: nat, info: Info)

  /** `id` tells one native reservation from every other. */
  datatype Reservation = Reservation(feed: nat, id: nat, pointer: nat, len: nat)

  /** A native feed: the spans it will hand out, in order, and its active reservation. */
  datatype Stream = Stream(queue: seq<Info>, active: Option<nat>)

  /** One call of the native consume: of which span, its answer, and whether it came from cleanup. */
  datatype Offer = Offer(id: nat, accepted: bool, cleanup: bool)

  /** Who asks the native side to end a reservation. */
  datatype Ender = Commit | Cancel | Cleanup

  /**
  One native call that would end a reservation: the reservation of the slot it was made for, who made it,
  how many bytes were copied into that reservation first, and the answer.
  */
  datatype EndCall = EndCall(id: nat, ender: Ender, copied: nat, accepted: bool)

  /** Where a drained span is: pending on a feed slot, held by a span slot, offered back, or dropped. */
  datatype Place = Pending(feed: nat) | Held(slot: nat) | Retired | Dropped

  datatype State = State(
    feeds: Table<Feed>,
    spans: Table<Span>,
    reservations: Table<Reservation>,
    native: map<nat, Stream>,
    issued: set<nat>,
    place: map<nat, Place>,
    offers: seq<Offer>,
    reserved: nat,
    ended: seq<nat>,
    calls: seq<EndCall>)

  const NO_INFO := Info(0, 0, 0, 0, [])
  const NO_FEED := Feed(0, false, 0, NO_INFO, false, 0)

  // ---- Helpers ----

  function StreamOf(s: State, f: nat): Stream
    requires f < |s.feeds|
  {
    var p := s.feeds[f].content.stream;
    if p in s.native then s.native[p] else Stream([], None)
  }

  function SetStream(s: State, f: nat, stream: Stream): map<nat, Stream>
    requires f < |s.feeds|
  {
    s.native[s.feeds[f].content.stream := stream]
  }

  function SetFeed(s: State, f: nat, feed: Feed): State
    requires f < |s.feeds|
  {
    s.(feeds := Write(s.feeds, f, feed))
  }

  function KillSpan(s: State, j: nat): Table<Span>
    requires j < |s.spans|
  {
    Kill(s.spans, j, s.spans[j].content.(feed := 0))
  }

  function KillReservation(s: State, j: nat): Table<Reservation>
    requires j < |s.reservations|
  {
    Kill(s.reservations, j, s.reservations[j].content.(feed := 0))
  }

  /** The native side ends its active reservation. */
  function EndActive(s: State, f: nat): State
    requires f < |s.feeds|
  {
    match StreamOf(s, f).active
    case None => s
    case Some(id) => s.(native := SetStream(s, f, StreamOf(s, f).(active := None)), ended := s.ended + [id])
  }

  // ---- Cleanup of what an allocation failure left pending ----

  function ClearSpan(s: State, f: nat, accepted: bool): State
    requires f < |s.feeds|
  {
    var feed := s.feeds[f].content;
    if !feed.pendingSpan then s
    else
      var id := feed.pendingInfo.id;
      var spans := if feed.spanHandle != 0 && Resolves(s.spans, feed.spanHandle)
                   then KillSpan(s, Index(feed.spanHandle)) else s.spans;
      SetFeed(s, f, feed.(pendingSpan := false, spanHandle := 0))
      .(spans := spans, place := s.place[id := Retired], offers := s.offers + [Offer(id, accepted, true)])
  }

  /** The reservation that the feed has pending: that of its slot, or the active one before it has a slot. */
  function PendingReservation(s: State, f: nat): nat
    requires f < |s.feeds|
  {
    var h := s.feeds[f].content.reservationHandle;
    if h != 0 && Resolves(s.reservations, h) then At(s.reservations, h).id
    else if StreamOf(s, f).active.Some? then StreamOf(s, f).active.value else 0
  }

  function ClearReservation(s: State, f: nat, cancelled: bool): State
    requires f < |s.feeds|
  {
    var feed := s.feeds[f].content;
    if !feed.pendingReservation then s
    else
      var s1 := if cancelled then EndActive(s, f) else s;
      var reservations := if feed.reservationHandle != 0 && Resolves(s.reservations, feed.reservationHandle)
                          then KillReservation(s, Index(feed.reservationHandle)) else s.reservations;
      s1.(feeds := Write(s.feeds, f, feed.(pendingReservation := false, reservationHandle := 0)),
          reservations := reservations,
          calls := s.calls + [EndCall(PendingReservation(s, f), Cleanup, 0, cancelled)])
  }

  /** The native answers to the two cleanup calls. */
  datatype Answers = Answers(accepted: bool, cancelled: bool)

  function CleanUp(s: State, f: nat, a: Answers): State
    requires f < |s.feeds|
    ensures |CleanUp(s, f, a).feeds| == |s.feeds|
  {
    ClearReservation(ClearSpan(s, f, a.accepted), f, a.cancelled)
  }

  // ---- The entry points ----

  datatype Reply = Raised | Reply(status: Status, token: Option<nat>, bytes: Bytes)

  function Just(status: Status): Reply {
    Reply(status, None, [])
  }

  datatype Outcome = Outcome(state: State, reply: Reply)

  function WhenFed(raises: bool, reply: Reply): Reply {
    if raises then Raised else reply
  }

  /** The native feed may put further spans in its queue whenever it writes or commits. */
  function Produce(s: State, f: nat, added: seq<Info>): State
    requires f < |s.feeds|
  {
    s.(native := SetStream(s, f, StreamOf(s, f).(queue := StreamOf(s, f).queue + added)),
       issued := s.issued + set k | 0 <= k < |added| :: added[k].id)
  }

  function CreateStep(s: State, valid: bool, stream: nat, attach: Status, raises: bool): Outcome {
    var i := FirstFree(s.feeds, 1);
    if !valid then Outcome(s, WhenFed(raises, Just(InvalidArgument)))
    else if stream == 0 || i >= |s.feeds| then Outcome(s, WhenFed(raises, Just(NativeFailure)))
    else
      var feeds := Allocate(s.feeds, i, NO_FEED.(stream := stream));
      if attach != Success
      then Outcome(s.(feeds := Kill(feeds, i, NO_FEED)), WhenFed(raises, Just(attach)))
      else Outcome(s.(feeds := feeds, native := s.native[stream := Stream([], None)]),
                   WhenFed(raises, Reply(Success, Some(Token(feeds, i)), [])))
  }

  /** Spans of the feed that are still out, dropped as the feed closes. */
  function DropSpans(s: State, token: nat): State {
    s.(spans := seq(|s.spans|, j requires 0 <= j < |s.spans| =>
                  if Live(s.spans, j) && s.spans[j].content.feed == token
                  then s.spans[j].(alive := false, content := s.spans[j].content.(feed := 0)) else s.spans[j]),
       place := map id | id in s.place ::
                  if s.place[id].Held? && Live(s.spans, s.place[id].slot)
                     && s.spans[s.place[id].slot].content.feed == token
                  then Dropped else s.place[id])
  }

  function DropReservations(s: State, token: nat): State {
    s.(reservations := seq(|s.reservations|, j requires 0 <= j < |s.reservations| =>
         if Live(s.reservations, j) && s.reservations[j].content.feed == token
         then s.reservations[j].(alive := false, content := s.reservations[j].content.(feed := 0))
         else s.reservations[j]))
  }

  function CloseStep(s: State, token: nat, a: Answers, native: Status): Outcome {
    if !Resolves(s.feeds, token) then Outcome(s, Just(StaleHandle))
    else
      var f := Index(token);
      var c := CleanUp(s, f, a);
      if native != Success then Outcome(c, Just(native))
      else
        var d := DropReservations(DropSpans(c, token), token);
        Outcome(d.(feeds := Kill(d.feeds, f, d.feeds[f].content.(stream := 0)),
                   native := d.native - {c.feeds[f].content.stream}), Just(Success))
  }

  /** Write, commit and stats: cleanup, then one native call that may produce spans. */
  function ProduceStep(s: State, token: nat, a: Answers, rejected: bool, native: Status, added: seq<Info>): Outcome {
    if !Resolves(s.feeds, token) then Outcome(s, Just(StaleHandle))
    else
      var c := CleanUp(s, Index(token), a);
      if rejected then Outcome(c, Just(InvalidArgument))
      else Outcome(Produce(c, Index(token), added), Just(native))
  }

  /** What a reserve does once the native side has begun a reservation. */
  function BegunOutcome(c: State, f: nat, token: nat, pointer: nat, len: nat, again: bool, raises: bool): Outcome
    requires f < |c.feeds|
  {
    var r := BegunFeed(c, f);
    var feed := r.feeds[f].content;
    var j := FirstFree(c.reservations, 1);
    if j >= |c.reservations| then
      var e := if again then EndActive(r, f) else r;
      Outcome(e.(calls := c.calls + [EndCall(c.reserved, Cleanup, 0, again)]), WhenFed(raises, Just(NativeFailure)))
    else
      var reservations := Allocate(c.reservations, j, Reservation(token, c.reserved, pointer, len));
      var t := Token(reservations, j);
      if raises then
        Outcome(SetFeed(r, f, feed.(pendingReservation := true, reservationHandle := t))
                .(reservations := reservations), Raised)
      else Outcome(r.(reservations := reservations), Reply(Success, Some(t), []))
  }

  function BegunFeed(c: State, f: nat): State
    requires f < |c.feeds|
  {
    SetFeed(c, f, c.feeds[f].content.(pendingReservation := false, reservationHandle := 0))
    .(native := SetStream(c, f, StreamOf(c, f).(active := Some(c.reserved))), reserved := c.reserved + 1)
  }

  /** What a drain does with the span the native feed has handed out. */
  function TakenOutcome(c: State, f: nat, token: nat, again: bool, raises: bool): Outcome
    requires f < |c.feeds| && StreamOf(c, f).queue != []
  {
    var queue := StreamOf(c, f).queue;
    var info := queue[0];
    var d := c.(native := SetStream(c, f, StreamOf(c, f).(queue := queue[1..])));
    var feed := d.feeds[f].content.(pendingInfo := info, pendingSpan := false, spanHandle := 0);
    var j := FirstFree(c.spans, 1);
    if !SourceOk(info) || j >= |c.spans| then
      Outcome(d.(place := d.place[info.id := Retired], offers := d.offers + [Offer(info.id, again, true)],
                 feeds := Write(d.feeds, f, feed)),
              WhenFed(raises, Just(NativeFailure)))
    else
      var spans := Allocate(c.spans, j, Span(token, info));
      var t := Token(spans, j);
      if raises then
        Outcome(SetFeed(d, f, feed.(pendingSpan := true, spanHandle := t))
                .(spans := spans, place := d.place[info.id := Pending(f)]), Raised)
      else
        Outcome(SetFeed(d, f, feed).(spans := spans, place := d.place[info.id := Held(j)]),
                Reply(Success, Some(t), info.payload))
  }

  function ReserveStep(s: State, token: nat, minimum: int, a: Answers, native: Status, pointer: nat, len: nat,
                       again: bool, raises: bool): Outcome {
    if minimum < 0 then Outcome(s, WhenFed(raises, Just(InvalidArgument)))
    else if !Resolves(s.feeds, token) then Outcome(s, WhenFed(raises, Just(StaleHandle)))
    else
      var f := Index(token);
      var c := CleanUp(s, f, a);
      if native != Success then Outcome(c, WhenFed(raises, Just(native)))
      else BegunOutcome(c, f, token, pointer, len, again, raises)
  }

  /** Commit (`commits`) or cancel of a reservation token. */
  function FinishStep(s: State, token: nat, commits: bool, used: int, dataLength: nat, a: Answers, native: Status,
                      added: seq<Info>): Outcome {
    if !Resolves(s.reservations, token) then Outcome(s, Just(StaleHandle))
    else
      var j := Index(token);
      var r := s.reservations[j].content;
      if commits && (used < 0 || used > r.len || dataLength < used) then Outcome(s, Just(InvalidArgument))
      else if !Resolves(s.feeds, r.feed) then Outcome(s, Just(StaleHandle))
      else
        var f := Index(r.feed);
        var c := CleanUp(s, f, a);
        if commits && used != 0 && r.pointer == 0 then Outcome(c, Just(NativeFailure))
        else
          var call := EndCall(r.id, if commits then Commit else Cancel, if commits then used else 0, native == Success);
          var p := if commits then Produce(c, f, added) else c;
          if native != Success then Outcome(p.(calls := c.calls + [call]), Just(native))
          else
            var e := EndActive(p, f);
            Outcome(e.(reservations := Kill(e.reservations, j, e.reservations[j].content.(feed := 0)),
                       calls := c.calls + [call]), Just(Success))
  }

  /** The C pointer arithmetic for a span's bytes does not overflow. */
  predicate SourceOk(info: Info) {
    info.len == 0
    || (info.pointer != 0 && info.offset <= POINTER_MAX - info.pointer
        && info.len <= POINTER_MAX - (info.pointer + info.offset))
  }

  function DrainStep(s: State, token: nat, a: Answers, again: bool, raises: bool): Outcome {
    if !Resolves(s.feeds, token) then Outcome(s, WhenFed(raises, Just(StaleHandle)))
    else
      var f := Index(token);
      var c := CleanUp(s, f, a);
      var queue := StreamOf(c, f).queue;
      if queue == [] then Outcome(c, WhenFed(raises, Just(Success)))
      else TakenOutcome(c, f, token, again, raises)
  }

  function ReleaseStep(s: State, token: nat, a: Answers, native: Status): Outcome {
    if !Resolves(s.spans, token) then Outcome(s, Just(StaleHandle))
    else
      var j := Index(token);
      var span := s.spans[j].content;
      if !Resolves(s.feeds, span.feed) then Outcome(s, Just(StaleHandle))
      else
        var c := CleanUp(s, Index(span.feed), a);
        var id := span.info.id;
        var o := c.(offers := c.offers + [Offer(id, native == Success, false)]);
        if native != Success then Outcome(o, Just(native))
        else Outcome(o.(spans := KillSpan(o, j), place := o.place[id := Retired]), Just(Success))
  }

  datatype Op =
    | Create(valid: bool, stream: nat, attach: Status, raises: bool)
    | Close(token: nat, a: Answers, native: Status)
    | Produces(token: nat, a: Answers, rejected: bool, native: Status, added: seq<Info>)
    | Reserve(token: nat, minimum: int, a: Answers, native: Status, pointer: nat, len: nat, again: bool, raises: bool)
    | Finish(token: nat, commits: bool, used: int, dataLength: nat, a: Answers, native: Status, added: seq<Info>)
    | Drain(token: nat, a: Answers, again: bool, raises: bool)
    | Release(token: nat, a: Answers, native: Status)

  function Step(s: State, op: Op): Outcome {
    match op
    case Create(valid, stream, attach, raises) => CreateStep(s, valid, stream, attach, raises)
    case Close(token, a, native) => CloseStep(s, token, a, native)
    case Produces(token, a, rejected, native, added) => ProduceStep(s, token, a, rejected, native, added)
    case Reserve(token, minimum, a, native, pointer, len, again, raises) =>
      ReserveStep(s, token, minimum, a, native, pointer, len, again, raises)
    case Finish(token, commits, used, dataLength, a, native, added) =>
      FinishStep(s, token, commits, used, dataLength, a, native, added)
    case Drain(token, a, again, raises) => DrainStep(s, token, a, again, raises)
    case Release(token, a, native) => ReleaseStep(s, token, a, native)
  }
}
