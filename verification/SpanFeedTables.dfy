/**
The three slot tables themselves, scanned and updated in place around the native calls. Every entry
point is proved equal to its step in SpanFeedSpec.
*/
module SpanFeedTables {
  import opened Handles
  import opened Statuses
  import opened Slots
  import opened SpanFeedSpec
  import opened SpanFeedProofs
  import opened SpanFeedRuns

  class Tables {
    const feeds: array<Slot<Feed>>
    const spans: array<Slot<Span>>
    const reservations: array<Slot<Reservation>>
    /** The native feeds and the record of what was drained, offered and ended. */
    ghost var record: State

    ghost predicate Shaped()
      reads this
    {
      && feeds.Length > 1 && spans.Length > 1 && reservations.Length > 1
      && feeds as object != spans && feeds as object != reservations && spans as object != reservations
    }

    ghost function State(): State
      reads this, feeds, spans, reservations
    {
      record.(feeds := feeds[..], spans := spans[..], reservations := reservations[..])
    }

    constructor (feedCapacity: nat, spanCapacity: nat, reservationCapacity: nat)
      requires feedCapacity > 1 && spanCapacity > 1 && reservationCapacity > 1
      ensures Shaped() && fresh(feeds) && fresh(spans) && fresh(reservations)
      ensures State() == Initial(feedCapacity, spanCapacity, reservationCapacity)
    {
      feeds := new Slot<Feed>[feedCapacity](_ => Slot(0, false, NO_FEED));
      spans := new Slot<Span>[spanCapacity](_ => Slot(0, false, Span(0, NO_INFO)));
      reservations := new Slot<Reservation>[reservationCapacity](_ => Slot(0, false, Reservation(0, 0, 0, 0)));
      record := Initial(feedCapacity, spanCapacity, reservationCapacity);
      new;
      assert feeds[..] == Zeroed(feedCapacity, NO_FEED);
      assert spans[..] == Zeroed(spanCapacity, Span(0, NO_INFO));
      assert reservations[..] == Zeroed(reservationCapacity, Reservation(0, 0, 0, 0));
    }

    // ---- Lookup and allocation ----

    /** The index a token names in a table, 0 for none. */
    method FromToken<T>(table: array<Slot<T>>, token: nat) returns (index: nat)
      ensures index == if Resolves(table[..], token) then Index(token) else 0
      ensures index != 0 ==> index < table.Length
    {
      index := Index(token);
      if index == 0 || index >= table.Length {
        return 0;
      }
      if !table[index].alive || table[index].generation != Generation(token) {
        return 0;
      }
    }

    /** Takes the first free slot; token 0 when there is none. */
    method AllocateSlot<T>(table: array<Slot<T>>, content: T) returns (index: nat, token: nat)
      requires table.Length > 1
      modifies table
      ensures index == FirstFree(old(table[..]), 1)
      ensures if index == table.Length then token == 0 && table[..] == old(table[..])
              else index < table.Length
                   && table[..] == Allocate(old(table[..]), index, content)
                   && token == Token(table[..], index)
    {
      index := 1;
      while index < table.Length
        invariant 1 <= index <= table.Length
        invariant FirstFree(table[..], 1) == FirstFree(table[..], index)
        invariant table[..] == old(table[..])
      {
        if !table[index].alive {
          var generation := if table[index].generation == 0 then 1 else NextGeneration(table[index].generation);
          table[index] := Slot(generation, true, content);
          return index, Handle(index, generation);
        }
        index := index + 1;
      }
      token := 0;
    }

    method ReleaseSpanSlot(j: nat)
      requires Shaped() && j < spans.Length
      modifies spans
      ensures spans[..] == KillSpan(old(State()), j)
    {
      spans[j] := spans[j].(alive := false, content := spans[j].content.(feed := 0));
    }

    method ReleaseReservationSlot(j: nat)
      requires Shaped() && j < reservations.Length
      modifies reservations
      ensures reservations[..] == KillReservation(old(State()), j)
    {
      reservations[j] := reservations[j].(alive := false, content := reservations[j].content.(feed := 0));
    }

    // ---- Cleanup ----

    method ClearPendingSpan(f: nat, ghost accepted: bool)
      requires Shaped() && f < feeds.Length
      modifies this, feeds, spans
      ensures State() == ClearSpan(old(State()), f, accepted)
    {
      var feed := feeds[f].content;
      if feed.pendingSpan {
        ghost var before := State();
        record := record.(offers := record.offers + [Offer(feed.pendingInfo.id, accepted, true)],
                          place := record.place[feed.pendingInfo.id := Retired]);
        if feed.spanHandle != 0 {
          var j := FromToken(spans, feed.spanHandle);
          if j != 0 {
            ReleaseSpanSlot(j);
          }
        }
        feeds[f] := feeds[f].(content := feed.(pendingSpan := false, spanHandle := 0));
        assert State() == ClearSpan(before, f, accepted);
      }
    }

    method ClearPendingReservation(f: nat, ghost cancelled: bool)
      requires Shaped() && f < feeds.Length
      modifies this, feeds, reservations
      ensures State() == ClearReservation(old(State()), f, cancelled)
    {
      var feed := feeds[f].content;
      if feed.pendingReservation {
        ghost var before := State();
        record := (if cancelled then EndActive(before, f) else record)
                  .(calls := record.calls + [EndCall(PendingReservation(before, f), Cleanup, 0, cancelled)]);
        if feed.reservationHandle != 0 {
          var j := FromToken(reservations, feed.reservationHandle);
          if j != 0 {
            ReleaseReservationSlot(j);
          }
        }
        feeds[f] := feeds[f].(content := feed.(pendingReservation := false, reservationHandle := 0));
        assert State() == ClearReservation(before, f, cancelled);
      }
    }

    /** Offers back or cancels what an earlier allocation failure left pending on the feed. */
    method CleanupFeedPending(f: nat, ghost a: Answers)
      requires Shaped() && f < feeds.Length
      modifies this, feeds, spans, reservations
      ensures State() == CleanUp(old(State()), f, a)
    {
      hide ClearSpan, ClearReservation;
      ClearPendingSpan(f, a.accepted);
      ClearPendingReservation(f, a.cancelled);
    }

    // ---- Create and close ----

    method Create(valid: bool, stream: nat, attach: Status, raises: bool) returns (reply: Reply)
      requires Shaped()
      modifies this, feeds
      ensures Outcome(State(), reply) == CreateStep(old(State()), valid, stream, attach, raises)
    {
      ghost var before := State();
      if !valid {
        return WhenFed(raises, Just(InvalidArgument));
      }
      if stream == 0 {
        return WhenFed(raises, Just(NativeFailure));
      }
      var index, token := AllocateSlot(feeds, NO_FEED);
      if token == 0 {
        AllocatedToken(before.feeds, NO_FEED, index);
        return WhenFed(raises, Just(NativeFailure));
      }
      feeds[index] := feeds[index].(content := NO_FEED.(stream := stream));
      if attach != Success {
        feeds[index] := feeds[index].(alive := false, content := NO_FEED);
        assert State() == CreateStep(before, valid, stream, attach, raises).state;
        return WhenFed(raises, Just(attach));
      }
      record := record.(native := record.native[stream := Stream([], None)]);
      assert State() == CreateStep(before, valid, stream, attach, raises).state;
      reply := WhenFed(raises, Reply(Success, Some(token), []));
    }

    /** Frees every span slot of the feed and records its spans as dropped. */
    method InvalidateFeedSpans(token: nat)
      requires Shaped()
      modifies this, spans
      ensures State() == DropSpans(old(State()), token)
    {
      ghost var before := State();
      ghost var dropped := DropSpans(before, token);
      var index := 1;
      while index < spans.Length
        invariant 1 <= index <= spans.Length && record == old(record)
        invariant forall j :: 0 <= j < index ==> spans[j] == dropped.spans[j]
        invariant forall j :: index <= j < spans.Length ==> spans[j] == before.spans[j]
      {
        if spans[index].alive && spans[index].content.feed == token {
          ReleaseSpanSlot(index);
        }
        index := index + 1;
      }
      assert spans[..] == dropped.spans;
      record := record.(place := dropped.place);
    }

    method ReleaseFeedReservations(token: nat)
      requires Shaped()
      modifies reservations
      ensures State() == DropReservations(old(State()), token)
    {
      ghost var before := State();
      ghost var dropped := DropReservations(before, token);
      var index := 1;
      while index < reservations.Length
        invariant 1 <= index <= reservations.Length
        invariant forall j :: 0 <= j < index ==> reservations[j] == dropped.reservations[j]
        invariant forall j :: index <= j < reservations.Length ==> reservations[j] == before.reservations[j]
      {
        if reservations[index].alive && reservations[index].content.feed == token {
          ReleaseReservationSlot(index);
        }
        index := index + 1;
      }
      assert reservations[..] == dropped.reservations;
    }

    method Close(token: nat, ghost a: Answers, native: Status) returns (reply: Reply)
      requires Shaped()
      modifies this, feeds, spans, reservations
      ensures Outcome(State(), reply) == CloseStep(old(State()), token, a, native)
    {
      hide CleanUp, DropSpans, DropReservations;
      ghost var before := State();
      var f := FromToken(feeds, token);
      if f == 0 {
        return Just(StaleHandle);
      }
      CleanupFeedPending(f, a);
      if native != Success {
        return Just(native);
      }
      ghost var c := State();
      InvalidateFeedSpans(token);
      ReleaseFeedReservations(token);
      DropsKeepFeeds(c, token);
      record := record.(native := record.native - {feeds[f].content.stream});
      feeds[f] := feeds[f].(alive := false, content := feeds[f].content.(stream := 0));
      reply := Just(Success);
      assert State().feeds == CloseStep(before, token, a, native).state.feeds;
    }

    // ---- Writing, committing, statistics ----

    /** Cleanup and one native call; `rejected` is the length test of a write. */
    method CallNative(token: nat, ghost a: Answers, rejected: bool, native: Status, ghost added: seq<Info>)
      returns (reply: Reply)
      requires Shaped()
      modifies this, feeds, spans, reservations
      ensures Outcome(State(), reply) == ProduceStep(old(State()), token, a, rejected, native, added)
    {
      hide CleanUp;
      var f := FromToken(feeds, token);
      if f == 0 {
        return Just(StaleHandle);
      }
      CleanupFeedPending(f, a);
      if rejected {
        return Just(InvalidArgument);
      }
      record := Produce(State(), f, added);
      reply := Just(native);
    }

    // ---- Reservations ----

    /** `pointer`, `len` and `id` describe the reservation a successful native reserve begins. */
    method Reserve(token: nat, minimum: int, ghost a: Answers, native: Status, pointer: nat, len: nat, id: nat,
                   ghost again: bool, raises: bool) returns (reply: Reply)
      requires Shaped() && id == record.reserved
      modifies this, feeds, spans, reservations
      ensures Outcome(State(), reply)
           == ReserveStep(old(State()), token, minimum, a, native, pointer, len, again, raises)
    {
      hide CleanUp, EndActive;
      ghost var before := State();
      if minimum < 0 {
        return WhenFed(raises, Just(InvalidArgument));
      }
      var f := FromToken(feeds, token);
      if f == 0 {
        return WhenFed(raises, Just(StaleHandle));
      }
      CleanUpCounts(before, f, a);
      CleanupFeedPending(f, a);
      if native != Success {
        return WhenFed(raises, Just(native));
      }
      reply := BeginReservation(f, token, pointer, len, id, again, raises);
    }

    /** Journals the native reservation as pending, gives it a slot, and clears the journal once delivered. */
    method BeginReservation(f: nat, token: nat, pointer: nat, len: nat, id: nat, ghost again: bool, raises: bool)
      returns (reply: Reply)
      requires Shaped() && f < feeds.Length && id == record.reserved
      modifies this, feeds, spans, reservations
      ensures Outcome(State(), reply) == BegunOutcome(old(State()), f, token, pointer, len, again, raises)
    {
      ghost var c := State();
      BegunCases(c, f, token, pointer, len, again, raises);
      hide EndActive, BegunOutcome, BegunFeed;
      record := record.(native := SetStream(c, f, StreamOf(c, f).(active := Some(id))), reserved := id + 1);
      var feed := feeds[f].content;
      feeds[f] := feeds[f].(content := feed.(pendingReservation := true, reservationHandle := 0));
      var j, t := AllocateSlot(reservations, Reservation(token, id, pointer, len));
      AllocatedToken(c.reservations, Reservation(token, id, pointer, len), j);
      if t == 0 {
        ghost var p := State();
        assert p == BegunJournal(c, f, 0);
        ClearPendingReservation(f, again);
        return WhenFed(raises, Just(NativeFailure));
      }
      feeds[f] := feeds[f].(content := feed.(pendingReservation := true, reservationHandle := t));
      if raises {
        assert State() == BegunJournal(c, f, t).(reservations := reservations[..]);
        return Raised;
      }
      feeds[f] := feeds[f].(content := feed.(pendingReservation := false, reservationHandle := 0));
      assert State().feeds == BegunFeed(c, f).feeds by {
        BegunFeeds(c, f);
      }
      reply := Reply(Success, Some(t), []);
    }

    /** Commit, when `commits`, or cancel. */
    method Finish(token: nat, commits: bool, used: int, dataLength: nat, ghost a: Answers, native: Status,
                  ghost added: seq<Info>) returns (reply: Reply)
      requires Shaped()
      modifies this, feeds, spans, reservations
      ensures Outcome(State(), reply) == FinishStep(old(State()), token, commits, used, dataLength, a, native, added)
    {
      hide CleanUp, EndActive;
      ghost var before := State();
      var j := FromToken(reservations, token);
      if j == 0 {
        return Just(StaleHandle);
      }
      var r := reservations[j].content;
      if commits && (used < 0 || used > r.len || dataLength < used) {
        return Just(InvalidArgument);
      }
      var f := FromToken(feeds, r.feed);
      if f == 0 {
        return Just(StaleHandle);
      }
      CleanUpSlots(before, f, a, j);
      CleanupFeedPending(f, a);
      ghost var c := State();
      if commits && used != 0 && r.pointer == 0 {
        return Just(NativeFailure);
      }
      if commits {
        record := Produce(c, f, added);
      }
      ghost var p := State();
      ghost var call := EndCall(r.id, if commits then Commit else Cancel, if commits then used else 0, native == Success);
      if native != Success {
        record := record.(calls := c.calls + [call]);
        return Just(native);
      }
      EndActiveTables(p, f);
      record := EndActive(p, f).(calls := c.calls + [call]);
      ReleaseReservationSlot(j);
      reply := Just(Success);
    }

    // ---- Spans ----

    /** `drained` is what the native feed hands out: the head of its queue, if any. */
    method Drain(token: nat, drained: Option<Info>, ghost a: Answers, ghost again: bool, raises: bool)
      returns (reply: Reply)
      requires Shaped()
      requires Resolves(feeds[..], token) ==>
                 var queue := StreamOf(CleanUp(State(), Index(token), a), Index(token)).queue;
                 drained == if queue == [] then None else Some(queue[0])
      modifies this, feeds, spans, reservations
      ensures Outcome(State(), reply) == DrainStep(old(State()), token, a, again, raises)
    {
      hide CleanUp;
      ghost var before := State();
      var f := FromToken(feeds, token);
      if f == 0 {
        return WhenFed(raises, Just(StaleHandle));
      }
      CleanupFeedPending(f, a);
      if drained == None {
        return WhenFed(raises, Just(Success));
      }
      reply := TakeSpan(f, token, drained.value, again, raises);
    }

    /** Journals the drained span as pending, copies it out, and clears the journal once delivered. */
    method TakeSpan(f: nat, token: nat, info: Info, ghost again: bool, raises: bool) returns (reply: Reply)
      requires Shaped() && f < feeds.Length
      requires StreamOf(State(), f).queue != [] && info == StreamOf(State(), f).queue[0]
      modifies this, feeds, spans, reservations
      ensures Outcome(State(), reply) == TakenOutcome(old(State()), f, token, again, raises)
    {
      ghost var c := State();
      record := record.(native := SetStream(c, f, StreamOf(c, f).(queue := StreamOf(c, f).queue[1..])),
                        place := record.place[info.id := Pending(f)]);
      var feed := feeds[f].content;
      feeds[f] := feeds[f].(content := feed.(pendingSpan := true, spanHandle := 0, pendingInfo := info));
      if !SourceOk(info) {
        ClearPendingSpan(f, again);
        assert State() == TakenOutcome(c, f, token, again, raises).state;
        return WhenFed(raises, Just(NativeFailure));
      }
      reply := DeliverSpan(f, token, info, c, again, raises);
    }

    /** The slot, the copy and the answer for a span journalled as pending. */
    method DeliverSpan(f: nat, token: nat, info: Info, ghost c: State, ghost again: bool, raises: bool)
      returns (reply: Reply)
      requires Shaped() && f < feeds.Length && f < |c.feeds| && SourceOk(info)
      requires StreamOf(c, f).queue != [] && info == StreamOf(c, f).queue[0]
      requires State() == Journalled(c, f)
      modifies this, feeds, spans
      ensures Outcome(State(), reply) == TakenOutcome(c, f, token, again, raises)
    {
      TakenCases(c, f, token, again, raises);
      hide TakenOutcome, ClearSpan, StreamOf;
      var feed := feeds[f].content;
      var j, t := AllocateSlot(spans, Span(token, info));
      AllocatedToken(c.spans, Span(token, info), j);
      if t == 0 {
        ClearPendingSpan(f, again);
        reply := WhenFed(raises, Just(NativeFailure));
      } else if raises {
        feeds[f] := feeds[f].(content := feed.(spanHandle := t));
        reply := Raised;
      } else {
        feeds[f] := feeds[f].(content := feed.(pendingSpan := false, spanHandle := 0));
        record := record.(place := record.place[info.id := Held(j)]);
        reply := Reply(Success, Some(t), info.payload);
      }
    }

    method Release(token: nat, ghost a: Answers, native: Status) returns (reply: Reply)
      requires Shaped()
      modifies this, feeds, spans, reservations
      ensures Outcome(State(), reply) == ReleaseStep(old(State()), token, a, native)
    {
      hide CleanUp;
      ghost var before := State();
      var j := FromToken(spans, token);
      if j == 0 {
        return Just(StaleHandle);
      }
      var span := spans[j].content;
      var f := FromToken(feeds, span.feed);
      if f == 0 {
        return Just(StaleHandle);
      }
      CleanUpSlots(before, f, a, j);
      CleanupFeedPending(f, a);
      record := record.(offers := record.offers + [Offer(span.info.id, native == Success, false)]);
      if native == Success {
        ReleaseSpanSlot(j);
        record := record.(place := record.place[span.info.id := Retired]);
      }
      reply := Just(native);
    }
  }

  /** The drained span recorded as pending, before it has a slot. */
  function Journalled(c: State, f: nat): State
    requires f < |c.feeds| && StreamOf(c, f).queue != []
  {
    var info := StreamOf(c, f).queue[0];
    SetFeed(c, f, c.feeds[f].content.(pendingSpan := true, spanHandle := 0, pendingInfo := info))
    .(native := SetStream(c, f, StreamOf(c, f).(queue := StreamOf(c, f).queue[1..])),
      place := c.place[info.id := Pending(f)])
  }

  /** The native reservation begun and recorded as pending under the token `handle`, 0 for none yet. */
  function BegunJournal(c: State, f: nat, handle: nat): State
    requires f < |c.feeds|
  {
    c.(feeds := Write(c.feeds, f, c.feeds[f].content.(pendingReservation := true, reservationHandle := handle)),
       native := SetStream(c, f, StreamOf(c, f).(active := Some(c.reserved))),
       reserved := c.reserved + 1)
  }

  /** How the reserve step goes on from there: no slot, a raised answer, or delivery. */
  lemma BegunCases(c: State, f: nat, token: nat, pointer: nat, len: nat, again: bool, raises: bool)
    requires f < |c.feeds|
    ensures var o, j := BegunOutcome(c, f, token, pointer, len, again, raises), FirstFree(c.reservations, 1);
            if j >= |c.reservations| then
              o == Outcome(ClearReservation(BegunJournal(c, f, 0), f, again), WhenFed(raises, Just(NativeFailure)))
            else
              var reservations := Allocate(c.reservations, j, Reservation(token, c.reserved, pointer, len));
              var t := Token(reservations, j);
              if raises then o == Outcome(BegunJournal(c, f, t).(reservations := reservations), Raised)
              else o == Outcome(BegunFeed(c, f).(reservations := reservations), Reply(Success, Some(t), []))
  {
    var p, r := BegunJournal(c, f, 0), BegunFeed(c, f);
    EndActiveLocal(p, r, f);
    EndActiveTables(r, f);
    assert p.feeds[f].content.(pendingReservation := false, reservationHandle := 0) == r.feeds[f].content;
    assert Write(p.feeds, f, r.feeds[f].content) == r.feeds;
    hide EndActive;
    if FirstFree(c.reservations, 1) < |c.reservations| && raises {
      var t := Token(Allocate(c.reservations, FirstFree(c.reservations, 1),
                              Reservation(token, c.reserved, pointer, len)), FirstFree(c.reservations, 1));
      assert Write(r.feeds, f, r.feeds[f].content.(pendingReservation := true, reservationHandle := t))
          == BegunJournal(c, f, t).feeds;
    }
  }

  lemma BegunFeeds(c: State, f: nat)
    requires f < |c.feeds|
    ensures BegunFeed(c, f)
         == c.(feeds := Write(c.feeds, f, c.feeds[f].content.(pendingReservation := false, reservationHandle := 0)),
               native := SetStream(c, f, StreamOf(c, f).(active := Some(c.reserved))), reserved := c.reserved + 1)
  {
  }

  /** How the drain step goes on from there: no slot, a raised answer, or delivery. */
  lemma TakenCases(c: State, f: nat, token: nat, again: bool, raises: bool)
    requires f < |c.feeds| && StreamOf(c, f).queue != [] && SourceOk(StreamOf(c, f).queue[0])
    ensures var o, d := TakenOutcome(c, f, token, again, raises), Journalled(c, f);
            var info, feed, j := StreamOf(c, f).queue[0], d.feeds[f].content, FirstFree(c.spans, 1);
            if j >= |c.spans| then
              o == Outcome(ClearSpan(d, f, again), WhenFed(raises, Just(NativeFailure)))
            else
              var spans := Allocate(c.spans, j, Span(token, info));
              if raises then
                o == Outcome(SetFeed(d, f, feed.(spanHandle := Token(spans, j))).(spans := spans), Raised)
              else
                o == Outcome(SetFeed(d, f, feed.(pendingSpan := false, spanHandle := 0))
                             .(spans := spans, place := d.place[info.id := Held(j)]),
                             Reply(Success, Some(Token(spans, j)), info.payload))
  {
    var o, d := TakenOutcome(c, f, token, again, raises), Journalled(c, f);
    assert o.state.place.Keys == d.place.Keys;
    assert o.state.feeds == if FirstFree(c.spans, 1) >= |c.spans| then ClearSpan(d, f, again).feeds else o.state.feeds;
  }

  lemma CleanUpCounts(s: State, f: nat, a: Answers)
    requires f < |s.feeds|
    ensures CleanUp(s, f, a).reserved == s.reserved
  {
  }

  /** Ending a native reservation reads and changes nothing of the slot's own pending fields. */
  lemma EndActiveLocal(p: State, r: State, f: nat)
    requires f < |p.feeds| == |r.feeds| && p == r.(feeds := p.feeds)
    requires p.feeds[f].content.stream == r.feeds[f].content.stream
    ensures EndActive(p, f) == EndActive(r, f).(feeds := p.feeds)
  {
  }

  lemma AllocatedToken<T>(t: Table<T>, content: T, index: nat)
    requires |t| > 1 && index == FirstFree(t, 1)
    ensures index < |t| ==> Token(Allocate(t, index, content), index) != 0
  {
  }

  lemma DropsKeepFeeds(s: State, token: nat)
    ensures DropReservations(DropSpans(s, token), token).feeds == s.feeds
    ensures DropReservations(DropSpans(s, token), token).native == s.native
  {
  }
}
