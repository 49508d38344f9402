/**
When each entry point of the span feed succeeds, in numbers and table slots, and what a success delivers or
ends; what a rejected call and what any call leaves alone.
*/
module SpanFeedEffects {
  import opened Handles
  import opened Statuses
  import opened Slots
  import opened SpanFeedSpec
  import opened SpanFeedProofs
  import opened SpanFeedRuns
  import opened SpanFeedTokens
  import opened SpanFeedCalls
  import opened SpanFeedStranding

  // ---- Room ----

  /** The usable slots that are free. */
  ghost function FreeSlots<T>(t: Table<T>): set<nat> {
    set j: nat | 0 < j < |t| && !t[j].alive
  }

  /** The span slots that a drain of the feed can choose from: its cleanup frees the one that is pending. */
  ghost function SpanRoom(s: State, f: nat): nat
    requires f < |s.feeds|
  {
    |FreeSlots(s.spans)| + if s.feeds[f].content.pendingSpan then 1 else 0
  }

  ghost function ReservationRoom(s: State, f: nat): nat
    requires f < |s.feeds|
  {
    |FreeSlots(s.reservations)| + if s.feeds[f].content.pendingReservation then 1 else 0
  }

  lemma FreeSlotFound<T>(t: Table<T>)
    requires WellFormed(t)
    ensures FirstFree(t, 1) < |t| <==> |FreeSlots(t)| > 0
  {
    var i := FirstFree(t, 1);
    if i < |t| {
      assert i in FreeSlots(t);
    } else {
      assert FreeSlots(t) == {};
    }
  }

  lemma SlotTaken<T>(t: Table<T>, i: nat, content: T)
    requires 0 < i < |t| && !t[i].alive
    ensures |FreeSlots(Allocate(t, i, content))| == |FreeSlots(t)| - 1
  {
    assert i in FreeSlots(t);
    assert FreeSlots(Allocate(t, i, content)) == FreeSlots(t) - {i};
  }

  lemma SlotFreed<T>(t: Table<T>, i: nat, content: T)
    requires Live(t, i)
    ensures |FreeSlots(Kill(t, i, content))| == |FreeSlots(t)| + 1
  {
    assert i !in FreeSlots(t);
    assert FreeSlots(Kill(t, i, content)) == FreeSlots(t) + {i};
  }

  /** After cleanup the room of the feed is all in free slots. */
  lemma RoomAfterCleanUp(s: State, f: nat, a: Answers)
    requires Inv(s) && Live(s.feeds, f)
    ensures var c := CleanUp(s, f, a);
            && SpanRoom(c, f) == |FreeSlots(c.spans)| == SpanRoom(s, f)
            && ReservationRoom(c, f) == |FreeSlots(c.reservations)| == ReservationRoom(s, f)
  {
    var feed := s.feeds[f].content;
    assert FeedSpanOk(s, f) && FeedReservationOk(s, f);
    hide Inv, FreeSlots, EndActive;
    if feed.pendingSpan {
      ResolvedToken(s.spans, feed.spanHandle);
      SlotFreed(s.spans, Index(feed.spanHandle), s.spans[Index(feed.spanHandle)].content.(feed := 0));
    }
    if feed.pendingReservation {
      EndActiveTables(ClearSpan(s, f, a.accepted), f);
      ResolvedToken(s.reservations, feed.reservationHandle);
      SlotFreed(s.reservations, Index(feed.reservationHandle),
                s.reservations[Index(feed.reservationHandle)].content.(feed := 0));
    }
  }

  // ---- Drain ----

  lemma TakenExactly(c: State, f: nat, token: nat, again: bool, raises: bool)
    requires f < |c.feeds| && StreamOf(c, f).queue != [] && WellFormed(c.spans)
    ensures var o, j := TakenOutcome(c, f, token, again, raises), FirstFree(c.spans, 1);
            var info := StreamOf(c, f).queue[0];
            var fits := j < |c.spans|
                        && (info.len == 0
                            || (info.pointer != 0 && info.pointer + info.offset + info.len <= 0xffff_ffff_ffff_ffff));
            && (if raises then o.reply.Raised?
                else if fits then o.reply.Reply? && o.reply.status == Success else o.reply == Just(NativeFailure))
            && info.id in o.state.place && |o.state.feeds| == |c.feeds|
            && (!fits ==> o.state.place[info.id] == Retired)
            && (fits && raises ==> o.state.place[info.id] == Pending(f))
            && (fits && !raises ==>
                  && o.reply.token.Some? && o.state.place[info.id] == Held(Index(o.reply.token.value))
                  && SpanRoom(o.state, f) == |FreeSlots(c.spans)| - 1)
  {
    hide FreeSlots;
    var j, info := FirstFree(c.spans, 1), StreamOf(c, f).queue[0];
    AllocateFresh(c.spans, Span(token, info));
    if j < |c.spans| {
      SlotTaken(c.spans, j, Span(token, info));
    }
    hide Handle, Index, Generation, Resolves, WellFormed;
  }

  /**
  A drain with a span to take delivers it exactly when its answer can be allocated, there is room for it,
  and it is empty or its bytes lie inside the 64-bit address space and do not start at 0. It then takes
  one slot. Otherwise the span is offered back at once, with a native failure for an answer; or it waits on
  the feed, when only the answer cannot be allocated.
  */
  lemma DrainExactly(s: State, token: nat, a: Answers, again: bool, raises: bool)
    requires Inv(s) && Resolves(s.feeds, token) && StreamOf(s, Index(token)).queue != []
    ensures var f, o := Index(token), DrainStep(s, token, a, again, raises);
            var info := StreamOf(s, f).queue[0];
            var fits := SpanRoom(s, f) > 0
                        && (info.len == 0
                            || (info.pointer != 0 && info.pointer + info.offset + info.len <= 0xffff_ffff_ffff_ffff));
            && (o.reply.Reply? && o.reply.status == Success <==> fits && !raises)
            && info.id in o.state.place
            && (!fits ==> o.state.place[info.id] == Retired)
            && (fits && raises ==> o.state.place[info.id] == Pending(f))
            && (fits && !raises ==>
                  o.reply.token.Some? && o.state.place[info.id] == Held(Index(o.reply.token.value)))
            && (o.reply.Raised? <==> raises)
            && (o.reply.Reply? && o.reply.status != Success ==> o.reply == Just(NativeFailure))
            && Index(token) < |o.state.feeds|
            && (fits && !raises ==> SpanRoom(o.state, f) == SpanRoom(s, f) - 1)
  {
    var f := Index(token);
    CleanUpKeepsInv(s, f, a);
    RoomAfterCleanUp(s, f, a);
    CleanUpGrowsOffers(s, f, a);
    var c := CleanUp(s, f, a);
    SpansWellFormed(c);
    hide Inv, CleanUp, FreeSlots, TakenOutcome;
    FreeSlotFound(c.spans);
    TakenExactly(c, f, token, again, raises);
  }

  lemma SpansWellFormed(s: State)
    requires Inv(s)
    ensures WellFormed(s.feeds) && WellFormed(s.spans) && WellFormed(s.reservations)
  {
  }

  /** The bytes of a span can be read: there are none, or they lie inside the address space and do not start at 0. */
  predicate Addressable(info: Info) {
    info.len == 0 || (info.pointer != 0 && info.pointer + info.offset + info.len <= 0xffff_ffff_ffff_ffff)
  }

  // ---- Reserve ----

  /**
  A reserve succeeds exactly on a live feed, for a length that is not negative, when the native side
  agrees, the answer can be allocated and there is room; it delivers what the native side began. When only
  the answer cannot be allocated, the new reservation is left pending on the feed.
  */
  lemma ReserveExactly(s: State, token: nat, minimum: int, a: Answers, native: Status, pointer: nat, len: nat,
                       again: bool, raises: bool)
    requires Inv(s)
    ensures var o := ReserveStep(s, token, minimum, a, native, pointer, len, again, raises);
            var asked := minimum >= 0 && Resolves(s.feeds, token);
            var begun := asked && native == Success && ReservationRoom(s, Index(token)) > 0;
            && (o.reply.Reply? && o.reply.status == Success <==> begun && !raises)
            && (o.reply.Raised? <==> raises)
            && (asked && !begun && !raises ==> o.reply == Just(if native == Success then NativeFailure else native))
            && (begun && raises ==>
                  && Index(token) < |o.state.feeds| && o.state.feeds[Index(token)].content.pendingReservation
                  && var t := o.state.feeds[Index(token)].content.reservationHandle;
                     Resolves(o.state.reservations, t)
                     && At(o.state.reservations, t) == Reservation(token, s.reserved, pointer, len))
            && (o.reply.Reply? && o.reply.status == Success ==>
                  && o.reply.token.Some? && Resolves(o.state.reservations, o.reply.token.value)
                  && At(o.state.reservations, o.reply.token.value) == Reservation(token, s.reserved, pointer, len)
                  && StreamOf(o.state, Index(token)).active == Some(s.reserved) && o.state.reserved == s.reserved + 1)
  {
    if Resolves(s.feeds, token) {
      var f := Index(token);
      CleanUpKeepsInv(s, f, a);
      RoomAfterCleanUp(s, f, a);
      CleanUpCalls(s, f, a);
      var c := CleanUp(s, f, a);
      SpansWellFormed(c);
      hide Inv, CleanUp, FreeSlots, EndActive;
      FreeSlotFound(c.reservations);
      AllocateFresh(c.reservations, Reservation(token, c.reserved, pointer, len));
    }
  }

  // ---- Commit and cancel ----

  /**
  A commit or cancel succeeds exactly on a live token when the native side agrees, and a commit only of a
  length in range, of what fits and was staged, into memory that is there; that length is then copied.
  */
  lemma FinishExactly(s: State, op: Op)
    requires Inv(s) && op.Finish?
    ensures var o := Step(s, op);
            && (o.reply == Just(Success)
                <==> && Resolves(s.reservations, op.token) && op.native == Success
                     && (op.commits ==>
                           && 0 <= op.used <= At(s.reservations, op.token).len && op.used <= op.dataLength
                           && (op.used == 0 || At(s.reservations, op.token).pointer != 0)))
            && (Reaches(s, op) ==> o.reply == Just(op.native))
            && (Cleaned(s, op).Some? && !Reaches(s, op) ==> o.reply == Just(NativeFailure))
            && (o.reply == Just(Success) ==>
                  && !Resolves(o.state.reservations, op.token) && |o.state.calls| > 0
                  && o.state.calls[|o.state.calls| - 1]
                     == EndCall(At(s.reservations, op.token).id, if op.commits then Commit else Cancel,
                                if op.commits then op.used else 0, true))
  {
    FeedNeverStale(s, op.token);
    hide Inv, CleanUp, EndActive, Produce;
    if Step(s, op).reply == Just(Success) {
      FinishEndsOwn(s, op.token, op.commits, op.used, op.dataLength, op.a, op.native, op.added);
    }
  }

  // ---- Release ----

  /** A release succeeds exactly on a live token when the native side agrees; span and token are then done with. */
  lemma ReleaseExactly(s: State, token: nat, a: Answers, native: Status)
    requires Inv(s)
    ensures var o := ReleaseStep(s, token, a, native);
            && (o.reply == Just(Success) <==> Resolves(s.spans, token) && native == Success)
            && (Resolves(s.spans, token) ==> o.reply == Just(native))
            && (o.reply == Just(Success) ==>
                  var id := At(s.spans, token).info.id;
                  && !Resolves(o.state.spans, token) && id in o.state.place && o.state.place[id] == Retired
                  && |o.state.offers| > 0 && o.state.offers[|o.state.offers| - 1] == Offer(id, true, false))
  {
    FeedNeverStale(s, token);
    hide Inv, CleanUp;
    if Resolves(s.spans, token) {
      CleanUpSlots(s, Index(At(s.spans, token).feed), a, Index(token));
    }
  }

  // ---- Write, commit of a write, statistics ----

  /** A producing call succeeds exactly on a live feed, not rejected and granted natively; its spans queue up. */
  lemma ProduceExactly(s: State, token: nat, a: Answers, rejected: bool, native: Status, added: seq<Info>)
    requires Inv(s)
    ensures var o := ProduceStep(s, token, a, rejected, native, added);
            && (o.reply == Just(Success) <==> Resolves(s.feeds, token) && !rejected && native == Success)
            && (Resolves(s.feeds, token) ==> o.reply == Just(if rejected then InvalidArgument else native))
            && (Resolves(s.feeds, token) ==>
                  && Resolves(o.state.feeds, token)
                  && StreamOf(o.state, Index(token)).queue
                     == StreamOf(s, Index(token)).queue + if rejected then [] else added)
  {
    if Resolves(s.feeds, token) {
      CleanUpGrowsOffers(s, Index(token), a);
      CleanUpKeepsFeeds(s, Index(token), a);
    }
    hide Inv, CleanUp;
  }

  // ---- Create and close ----

  /**
  A feed is made exactly from valid options, a native stream, an accepted attachment and a free slot; it
  starts with an empty queue and nothing pending, and its token is delivered when the answer can be allocated.
  */
  lemma CreateExactly(s: State, valid: bool, stream: nat, attach: Status, raises: bool)
    requires Inv(s)
    ensures var o := CreateStep(s, valid, stream, attach, raises);
            var made := valid && stream != 0 && attach == Success && |FreeSlots(s.feeds)| > 0;
            && (o.reply.Raised? <==> raises)
            && (o.reply.Reply? && o.reply.status == Success <==> made && !raises)
            && (o.reply.Reply? && !made ==>
                  o.reply == Just(if !valid then InvalidArgument
                                  else if stream == 0 || |FreeSlots(s.feeds)| == 0 then NativeFailure else attach))
            && o.state.(feeds := s.feeds, native := s.native) == s && |o.state.feeds| == |s.feeds|
            && (!made ==>
                  && o.state.native == s.native
                  && forall g :: 0 <= g < |s.feeds| ==>
                       && o.state.feeds[g].alive == s.feeds[g].alive
                       && (s.feeds[g].alive ==> o.state.feeds[g] == s.feeds[g]))
            && (made ==>
                  && o.state.native.Keys == s.native.Keys + {stream} && o.state.native[stream] == Stream([], None)
                  && (forall p :: p in s.native && p != stream ==> o.state.native[p] == s.native[p])
                  && exists f :: 0 < f < |s.feeds| && !s.feeds[f].alive && o.state.feeds[f].alive
                                 && o.state.feeds[f].content == Feed(stream, false, 0, NO_INFO, false, 0)
                                 && (forall g :: 0 <= g < |s.feeds| && g != f ==> o.state.feeds[g] == s.feeds[g])
                                 && (!raises ==> o.reply.token == Some(Token(o.state.feeds, f))))
  {
    hide Inv, FreeSlots, Handle, Index, Generation, WellFormed;
    SpansWellFormed(s);
    FreeSlotFound(s.feeds);
  }

  /** A close succeeds exactly on a live feed when the native side agrees; its slot and stream are then gone. */
  lemma CloseExactly(s: State, token: nat, a: Answers, native: Status)
    requires Inv(s)
    ensures var o := CloseStep(s, token, a, native);
            && (o.reply == Just(Success) <==> Resolves(s.feeds, token) && native == Success)
            && (Resolves(s.feeds, token) ==> o.reply == Just(native))
            && (o.reply == Just(Success) ==>
                  && !Resolves(o.state.feeds, token) && |o.state.feeds| == |s.feeds|
                  && (forall g: nat :: g < |s.feeds| && g != Index(token) ==> o.state.feeds[g] == s.feeds[g])
                  && o.state.native.Keys == s.native.Keys - {s.feeds[Index(token)].content.stream})
  {
    if Resolves(s.feeds, token) {
      CleanUpElsewhere(s, Index(token), a);
    }
    hide Inv, CleanUp, DropSpans, DropReservations;
  }

  // ---- What a call leaves alone ----

  /** Only feed slot f and its stream differ. */
  ghost predicate OnlyFeed(s: State, s': State, f: nat)
    requires f < |s.feeds|
  {
    && |s'.feeds| == |s.feeds| && (forall g: nat :: g < |s.feeds| && g != f ==> s'.feeds[g] == s.feeds[g])
    && forall q :: q in s.native && q != s.feeds[f].content.stream ==> q in s'.native && s'.native[q] == s.native[q]
  }

  lemma CleanUpElsewhere(s: State, f: nat, a: Answers)
    requires Inv(s) && Live(s.feeds, f)
    ensures var c, p := CleanUp(s, f, a), s.feeds[f].content.stream;
            && OnlyFeed(s, c, f) && c.native.Keys == s.native.Keys
            && c.feeds[f].alive && c.feeds[f].generation == s.feeds[f].generation && c.feeds[f].content.stream == p
  {
  }

  lemma ReserveElsewhere(c: State, f: nat, token: nat, pointer: nat, len: nat, again: bool, raises: bool)
    requires f < |c.feeds|
    ensures OnlyFeed(c, BegunOutcome(c, f, token, pointer, len, again, raises).state, f)
  {
  }

  lemma DrainElsewhere(c: State, f: nat, token: nat, again: bool, raises: bool)
    requires f < |c.feeds| && StreamOf(c, f).queue != []
    ensures OnlyFeed(c, TakenOutcome(c, f, token, again, raises).state, f)
  {
  }

  lemma NativeElsewhere(c: State, f: nat, added: seq<Info>)
    requires f < |c.feeds|
    ensures OnlyFeed(c, Produce(c, f, added), f) && Produce(c, f, added).feeds == c.feeds
    ensures OnlyFeed(c, EndActive(c, f), f) && EndActive(c, f).feeds == c.feeds
  {
  }

  /** A call that reaches no feed's cleanup - its token is dead, or its arguments out of range - changes nothing. */
  lemma RejectedChangesNothing(s: State, op: Op)
    requires Inv(s) && !op.Create? && Cleaned(s, op).None?
    ensures Step(s, op).state == s
    ensures Step(s, op).reply.Reply? ==>
              Step(s, op).reply
              == Just(if (op.Reserve? && op.minimum < 0) || (op.Finish? && Resolves(s.reservations, op.token))
                      then InvalidArgument else StaleHandle)
  {
    FeedNeverStale(s, op.token);
    hide Inv, CleanUp;
  }

  /** The call made on the cleaned-up tables touches no other feed either. */
  lemma StepElsewhere(s: State, op: Op)
    requires Inv(s) && Cleaned(s, op).Some? && Resolves(s.feeds, Cleaned(s, op).value)
    ensures var f := Index(Cleaned(s, op).value); OnlyFeed(CleanUp(s, f, op.a), Step(s, op).state, f)
  {
    hide Inv, CleanUp, EndActive, Produce, BegunOutcome, TakenOutcome, DropSpans, DropReservations;
    var f := Index(Cleaned(s, op).value);
    var c := CleanUp(s, f, op.a);
    match op
    case Close(_, _, _) => CloseElsewhere(s, op);
    case Produces(_, _, _, _, added) => NativeElsewhere(c, f, added);
    case Reserve(token, _, _, _, pointer, len, again, raises) =>
      ReserveElsewhere(c, f, token, pointer, len, again, raises);
    case Finish(_, _, _, _, _, _, added) =>
      NativeElsewhere(c, f, added);
      NativeElsewhere(Produce(c, f, added), f, added);
    case Drain(token, _, again, raises) =>
      if StreamOf(c, f).queue != [] {
        DrainElsewhere(c, f, token, again, raises);
      }
    case Release(_, _, _) => FeedNeverStale(s, op.token);
  }

  lemma CloseElsewhere(s: State, op: Op)
    requires Inv(s) && op.Close? && Resolves(s.feeds, op.token)
    ensures OnlyFeed(CleanUp(s, Index(op.token), op.a), Step(s, op).state, Index(op.token))
  {
    hide Inv, CleanUp;
  }

  /** A call leaves every feed but the one it is made for as it was, with its stream. */
  lemma OtherFeedsUntouched(s: State, op: Op, g: nat)
    requires Inv(s) && !op.Create? && Live(s.feeds, g)
    requires Cleaned(s, op).Some? ==> Index(Cleaned(s, op).value) != g
    ensures g < |Step(s, op).state.feeds| && Step(s, op).state.feeds[g] == s.feeds[g]
    ensures StreamOf(Step(s, op).state, g) == StreamOf(s, g)
  {
    hide Inv, CleanUp, Step;
    if Cleaned(s, op).None? {
      RejectedChangesNothing(s, op);
    } else {
      CleanedLive(s, op);
      var f := Index(Cleaned(s, op).value);
      CleanUpElsewhere(s, f, op.a);
      StepElsewhere(s, op);
      StreamsApart(s, f, g);
      hide Cleaned;
    }
  }

  lemma CleanedLive(s: State, op: Op)
    requires Inv(s) && Cleaned(s, op).Some?
    ensures Resolves(s.feeds, Cleaned(s, op).value)
  {
    FeedNeverStale(s, op.token);
  }

  lemma StreamsApart(s: State, f: nat, g: nat)
    requires Inv(s) && Live(s.feeds, f) && Live(s.feeds, g)
    ensures s.feeds[g].content.stream in s.native
    ensures f != g ==> s.feeds[f].content.stream != s.feeds[g].content.stream
  {
  }
}
