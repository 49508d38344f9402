/**
How long a delivered token stays good. Whatever other calls are made, the token of a held span, of a
standing reservation or of an open feed keeps naming the same thing until its own release, commit,
cancel or close succeeds.
*/
module SpanFeedTokens {
  import opened Handles
  import opened Statuses
  import opened Slots
  import opened SpanFeedSpec
  import opened SpanFeedProofs
  import opened SpanFeedRuns

  /** A delivered span that has not been given back. */
  predicate HeldToken(s: State, t: nat) {
    Resolves(s.spans, t) && !Undelivered(s.feeds, s.spans, Index(t))
  }

  /** A delivered reservation that has been neither committed nor cancelled. */
  predicate Standing(s: State, t: nat) {
    && Resolves(s.reservations, t)
    && Resolves(s.feeds, At(s.reservations, t).feed)
    && !s.feeds[Index(At(s.reservations, t).feed)].content.pendingReservation
  }

  lemma CleanUpKeepsHeld(s: State, g: nat, a: Answers, t: nat)
    requires Inv(s) && Live(s.feeds, g) && HeldToken(s, t)
    ensures HeldToken(CleanUp(s, g, a), t)
    ensures CleanUp(s, g, a).spans[Index(t)] == s.spans[Index(t)]
  {
    ResolvedToken(s.spans, t);
    assert SpanOk(s, Index(t)) && FeedSpanOk(s, g);
    ResolvedToken(s.feeds, At(s.spans, t).feed);
    TokenResolves(s.feeds, g);
  }

  lemma CleanUpKeepsStanding(s: State, g: nat, a: Answers, t: nat)
    requires Inv(s) && Live(s.feeds, g) && Standing(s, t)
    ensures Standing(CleanUp(s, g, a), t)
    ensures CleanUp(s, g, a).reservations[Index(t)] == s.reservations[Index(t)]
  {
    ResolvedToken(s.reservations, t);
    assert ReservationOk(s, Index(t)) && FeedReservationOk(s, g);
    ResolvedToken(s.feeds, At(s.reservations, t).feed);
    TokenResolves(s.feeds, g);
  }

  /** The feeds keep their tokens through cleanup. */
  lemma CleanUpKeepsFeeds(s: State, g: nat, a: Answers)
    requires g < |s.feeds|
    ensures forall t: nat :: Resolves(CleanUp(s, g, a).feeds, t) <==> Resolves(s.feeds, t)
  {
  }

  // ---- Spans ----

  /** The calls that end a held span: its own release, and the close of its feed. */
  predicate EndsSpan(s: State, op: Op, t: nat)
    requires Resolves(s.spans, t)
  {
    || (op.Release? && op.token == t && op.native == Success)
    || (op.Close? && op.token == At(s.spans, t).feed && op.native == Success)
  }

  lemma StepKeepsHeld(s: State, op: Op, t: nat)
    requires Inv(s) && Admissible(s, op) && HeldToken(s, t) && !EndsSpan(s, op, t)
    ensures HeldToken(Step(s, op).state, t) && At(Step(s, op).state.spans, t) == At(s.spans, t)
  {
    hide Inv, CleanUp, Admissible, CreateStep, CloseStep, ReserveStep, FinishStep, DrainStep, ReleaseStep, Produce;
    match op
    case Create(_, _, _, _) => CreateKeepsHeld(s, op, t);
    case Close(_, _, _) => CloseKeepsHeld(s, op, t);
    case Produces(token, a, _, _, added) =>
      if Resolves(s.feeds, token) {
        CleanUpKeepsHeld(s, Index(token), a, t);
        ProduceSpans(CleanUp(s, Index(token), a), Index(token), added);
      }
    case Reserve(_, _, _, _, _, _, _, _) => ReserveKeepsHeld(s, op, t);
    case Finish(_, _, _, _, _, _, _) => FinishKeepsHeld(s, op, t);
    case Drain(_, _, _, _) => DrainKeepsHeld(s, op, t);
    case Release(_, _, _) => ReleaseKeepsHeld(s, op, t);
  }

  lemma HeldFeed(s: State, t: nat)
    requires Inv(s) && HeldToken(s, t)
    ensures Resolves(s.feeds, At(s.spans, t).feed) && Token(s.feeds, Index(At(s.spans, t).feed)) == At(s.spans, t).feed
  {
    FeedNeverStale(s, t);
    ResolvedToken(s.feeds, At(s.spans, t).feed);
  }

  lemma CreateKeepsHeld(s: State, op: Op, t: nat)
    requires Inv(s) && op.Create? && HeldToken(s, t)
    ensures HeldToken(Step(s, op).state, t) && At(Step(s, op).state.spans, t) == At(s.spans, t)
  {
    HeldFeed(s, t);
  }

  lemma CloseKeepsHeld(s: State, op: Op, t: nat)
    requires Inv(s) && Admissible(s, op) && op.Close? && HeldToken(s, t) && !EndsSpan(s, op, t)
    ensures HeldToken(Step(s, op).state, t) && At(Step(s, op).state.spans, t) == At(s.spans, t)
  {
    hide Inv, CleanUp, DropReservations;
    HeldFeed(s, t);
    if Resolves(s.feeds, op.token) {
      var g := Index(op.token);
      CleanUpKeepsHeld(s, g, op.a, t);
      CleanUpKeepsInv(s, g, op.a);
      CloseKeepsInv(s, op.token, op.a, op.native);
      HeldFeed(CleanUp(s, g, op.a), t);
      ResolvedToken(s.feeds, op.token);
    }
  }

  lemma ReserveKeepsHeld(s: State, op: Op, t: nat)
    requires Inv(s) && op.Reserve? && HeldToken(s, t)
    ensures HeldToken(Step(s, op).state, t) && At(Step(s, op).state.spans, t) == At(s.spans, t)
  {
    hide Inv, CleanUp, EndActive;
    if op.minimum >= 0 && Resolves(s.feeds, op.token) {
      var g := Index(op.token);
      CleanUpKeepsHeld(s, g, op.a, t);
      EndActiveTables(BegunFeed(CleanUp(s, g, op.a), g), g);
    }
  }

  lemma FinishKeepsHeld(s: State, op: Op, t: nat)
    requires Inv(s) && op.Finish? && HeldToken(s, t)
    ensures HeldToken(Step(s, op).state, t) && At(Step(s, op).state.spans, t) == At(s.spans, t)
  {
    hide Inv, CleanUp, EndActive, Produce;
    FeedNeverStale(s, op.token);
    if Resolves(s.reservations, op.token) {
      var g := Index(At(s.reservations, op.token).feed);
      CleanUpKeepsHeld(s, g, op.a, t);
      var c := CleanUp(s, g, op.a);
      ProduceSpans(c, g, op.added);
      EndActiveTables(c, g);
      EndActiveTables(Produce(c, g, op.added), g);
    }
  }

  lemma DrainKeepsHeld(s: State, op: Op, t: nat)
    requires Inv(s) && op.Drain? && HeldToken(s, t)
    ensures HeldToken(Step(s, op).state, t) && At(Step(s, op).state.spans, t) == At(s.spans, t)
  {
    hide Inv, CleanUp;
    if Resolves(s.feeds, op.token) {
      var g := Index(op.token);
      CleanUpKeepsHeld(s, g, op.a, t);
      CleanUpKeepsInv(s, g, op.a);
      NewTokenDiffers(CleanUp(s, g, op.a), t);
    }
  }

  /** The token a table gives out next is not one that resolves now. */
  lemma NewTokenDiffers(s: State, t: nat)
    requires Inv(s) && Resolves(s.spans, t)
    ensures var j := FirstFree(s.spans, 1);
            j < |s.spans| ==>
              j != Index(t) && forall span: Span :: Token(Allocate(s.spans, j, span), j) != t
  {
    forall span: Span
      ensures FirstFree(s.spans, 1) < |s.spans| ==>
                Token(Allocate(s.spans, FirstFree(s.spans, 1), span), FirstFree(s.spans, 1)) != t
    {
      AllocateFresh(s.spans, span);
    }
  }

  lemma ReleaseKeepsHeld(s: State, op: Op, t: nat)
    requires Inv(s) && op.Release? && HeldToken(s, t) && !EndsSpan(s, op, t)
    ensures HeldToken(Step(s, op).state, t) && At(Step(s, op).state.spans, t) == At(s.spans, t)
  {
    hide Inv, CleanUp;
    FeedNeverStale(s, op.token);
    if Resolves(s.spans, op.token) {
      CleanUpKeepsHeld(s, Index(At(s.spans, op.token).feed), op.a, t);
      ResolvedToken(s.spans, t);
      ResolvedToken(s.spans, op.token);
      assert Index(op.token) == Index(t) ==> op.token == t;
      assert Index(t) < |CleanUp(s, Index(At(s.spans, op.token).feed), op.a).spans|;
      CleanUpSlots(s, Index(At(s.spans, op.token).feed), op.a, Index(op.token));
    }
  }

  // ---- Reservations ----

  predicate EndsReservation(op: Op, t: nat) {
    op.Finish? && op.token == t && op.native == Success
  }

  lemma StandingActive(s: State, t: nat)
    requires Inv(s) && Standing(s, t)
    ensures StreamOf(s, Index(At(s.reservations, t).feed)).active.Some?
    ensures Token(s.feeds, Index(At(s.reservations, t).feed)) == At(s.reservations, t).feed
  {
    assert ReservationOk(s, Index(t));
    ResolvedToken(s.feeds, At(s.reservations, t).feed);
  }

  /** A standing reservation ends only by its own commit or cancel: not even a close can end it. */
  lemma StepKeepsStanding(s: State, op: Op, t: nat)
    requires Inv(s) && Admissible(s, op) && Standing(s, t) && !EndsReservation(op, t)
    ensures Standing(Step(s, op).state, t) && At(Step(s, op).state.reservations, t) == At(s.reservations, t)
  {
    hide Inv, CleanUp, Admissible, CreateStep, CloseStep, ReserveStep, FinishStep, DrainStep, Produce;
    match op
    case Create(_, _, _, _) => CreateKeepsStanding(s, op, t);
    case Close(_, _, _) => CloseKeepsStanding(s, op, t);
    case Produces(token, a, _, _, added) =>
      if Resolves(s.feeds, token) {
        CleanUpKeepsStanding(s, Index(token), a, t);
        ProduceSpans(CleanUp(s, Index(token), a), Index(token), added);
      }
    case Reserve(_, _, _, _, _, _, _, _) => ReserveKeepsStanding(s, op, t);
    case Finish(_, _, _, _, _, _, _) => FinishKeepsStanding(s, op, t);
    case Drain(_, _, _, _) => DrainKeepsStanding(s, op, t);
    case Release(token, a, _) =>
      FeedNeverStale(s, token);
      if Resolves(s.spans, token) {
        CleanUpKeepsStanding(s, Index(At(s.spans, token).feed), a, t);
      }
  }

  lemma CreateKeepsStanding(s: State, op: Op, t: nat)
    requires Inv(s) && op.Create? && Standing(s, t)
    ensures Standing(Step(s, op).state, t) && At(Step(s, op).state.reservations, t) == At(s.reservations, t)
  {
  }

  lemma CloseKeepsStanding(s: State, op: Op, t: nat)
    requires Inv(s) && Admissible(s, op) && op.Close? && Standing(s, t)
    ensures Standing(Step(s, op).state, t) && At(Step(s, op).state.reservations, t) == At(s.reservations, t)
  {
    hide Inv, CleanUp;
    if Resolves(s.feeds, op.token) {
      var g := Index(op.token);
      var c := CleanUp(s, g, op.a);
      CleanUpKeepsStanding(s, g, op.a, t);
      CleanUpKeepsInv(s, g, op.a);
      CloseKeepsInv(s, op.token, op.a, op.native);
      StandingActive(c, t);
      ResolvedToken(s.feeds, op.token);
    }
  }

  lemma ReserveKeepsStanding(s: State, op: Op, t: nat)
    requires Inv(s) && Admissible(s, op) && op.Reserve? && Standing(s, t)
    ensures Standing(Step(s, op).state, t) && At(Step(s, op).state.reservations, t) == At(s.reservations, t)
  {
    hide Inv, CleanUp, EndActive;
    if op.minimum >= 0 && Resolves(s.feeds, op.token) {
      var g := Index(op.token);
      var c := CleanUp(s, g, op.a);
      CleanUpKeepsStanding(s, g, op.a, t);
      CleanUpKeepsInv(s, g, op.a);
      StandingActive(c, t);
      EndActiveTables(BegunFeed(c, g), g);
    }
  }

  lemma FinishKeepsStanding(s: State, op: Op, t: nat)
    requires Inv(s) && op.Finish? && Standing(s, t) && !EndsReservation(op, t)
    ensures Standing(Step(s, op).state, t) && At(Step(s, op).state.reservations, t) == At(s.reservations, t)
  {
    hide Inv, CleanUp, EndActive, Produce;
    FeedNeverStale(s, op.token);
    if Resolves(s.reservations, op.token) {
      var g := Index(At(s.reservations, op.token).feed);
      CleanUpKeepsStanding(s, g, op.a, t);
      var c := CleanUp(s, g, op.a);
      ProduceSpans(c, g, op.added);
      EndActiveTables(c, g);
      EndActiveTables(Produce(c, g, op.added), g);
      ResolvedToken(s.reservations, t);
      ResolvedToken(s.reservations, op.token);
      assert Index(op.token) == Index(t) ==> op.token == t;
      CleanUpSlots(s, g, op.a, Index(op.token));
    }
  }

  lemma DrainKeepsStanding(s: State, op: Op, t: nat)
    requires Inv(s) && op.Drain? && Standing(s, t)
    ensures Standing(Step(s, op).state, t) && At(Step(s, op).state.reservations, t) == At(s.reservations, t)
  {
    hide Inv, CleanUp;
    if Resolves(s.feeds, op.token) {
      CleanUpKeepsStanding(s, Index(op.token), op.a, t);
    }
  }

  // ---- Feeds ----

  /** A feed token dies only by its own successful close. */
  lemma StepKeepsFeed(s: State, op: Op, t: nat)
    requires Inv(s) && Admissible(s, op) && Resolves(s.feeds, t)
    requires !(op.Close? && op.token == t && op.native == Success)
    ensures Resolves(Step(s, op).state.feeds, t)
  {
    hide Inv, CleanUp, EndActive, DropSpans, DropReservations, FinishStep, Handle, Generation;
    match op
    case Create(_, _, _, _) =>
    case Close(token, a, native) =>
      if Resolves(s.feeds, token) {
        CleanUpKeepsFeeds(s, Index(token), a);
        CloseKeepsInv(s, token, a, native);
        ResolvedToken(s.feeds, t);
        ResolvedToken(s.feeds, token);
      }
    case Produces(token, a, _, _, _) =>
      if Resolves(s.feeds, token) {
        CleanUpKeepsFeeds(s, Index(token), a);
      }
    case Reserve(token, _, a, _, _, _, _, _) =>
      if Resolves(s.feeds, token) {
        CleanUpKeepsFeeds(s, Index(token), a);
        EndActiveTables(BegunFeed(CleanUp(s, Index(token), a), Index(token)), Index(token));
      }
    case Finish(_, _, _, _, _, _, _) => FinishKeepsFeed(s, op, t);
    case Drain(token, a, _, _) =>
      if Resolves(s.feeds, token) {
        CleanUpKeepsFeeds(s, Index(token), a);
      }
    case Release(token, a, _) =>
      FeedNeverStale(s, token);
      if Resolves(s.spans, token) {
        CleanUpKeepsFeeds(s, Index(At(s.spans, token).feed), a);
      }
  }

  lemma FinishKeepsFeed(s: State, op: Op, t: nat)
    requires Inv(s) && op.Finish? && Resolves(s.feeds, t)
    ensures Resolves(Step(s, op).state.feeds, t)
  {
    hide Inv, CleanUp, EndActive, Produce;
    FeedNeverStale(s, op.token);
    if Resolves(s.reservations, op.token) {
      var g := Index(At(s.reservations, op.token).feed);
      CleanUpKeepsFeeds(s, g, op.a);
      var c := CleanUp(s, g, op.a);
      ProduceSpans(c, g, op.added);
      EndActiveTables(c, g);
      EndActiveTables(Produce(c, g, op.added), g);
    }
  }

  // ---- Accounting for drained spans ----

  /** The native consume was called for this span. */
  ghost predicate Attempted(s: State, id: nat) {
    exists k :: 0 <= k < |s.offers| && s.offers[k].id == id
  }

  /** The span went back: it was offered, or its feed's next cleanup will offer it. */
  ghost predicate Returned(s: State, id: nat) {
    id in s.place && (s.place[id].Pending? || Attempted(s, id))
  }

  /** A span that went back stays gone back. */
  lemma StepKeepsReturned(s: State, op: Op, id: nat)
    requires Inv(s) && Admissible(s, op) && Returned(s, id)
    ensures Returned(Step(s, op).state, id)
  {
    hide Inv, Admissible, Step;
    var s' := Step(s, op).state;
    StepMoves(s, op, id);
    StepGrowsOffers(s, op);
    StepKeepsInv(s, op);
    if s'.place[id].Retired? {
      RetiredAttempted(s', id);
    }
    if Attempted(s, id) {
      var k :| 0 <= k < |s.offers| && s.offers[k].id == id;
      assert s'.offers[k] == s.offers[k];
    }
  }

  lemma RetiredAttempted(s: State, id: nat)
    requires Inv(s) && id in s.place && s.place[id].Retired?
    ensures Attempted(s, id)
  {
    assert PlaceOk(s, id);
  }

  /** Releasing a held token calls the native consume for its span, whatever it answers. */
  lemma ReleaseAttempts(s: State, t: nat, a: Answers, native: Status)
    requires Inv(s) && HeldToken(s, t)
    ensures Attempted(ReleaseStep(s, t, a, native).state, At(s.spans, t).info.id)
    ensures At(s.spans, t).info.id in s.place
  {
    FeedNeverStale(s, t);
    HeldSlot(s, Index(t));
    hide Inv, CleanUp;
    var c := CleanUp(s, Index(At(s.spans, t).feed), a);
    var s' := ReleaseStep(s, t, a, native).state;
    assert s'.offers[|c.offers|].id == At(s.spans, t).info.id;
  }

  // ---- One native drain ----

  /** What one drain call does with the head of the queue. */
  lemma DrainFacts(s: State, token: nat, a: Answers, again: bool, raises: bool)
    requires Inv(s) && Resolves(s.feeds, token)
    ensures var f, o := Index(token), DrainStep(s, token, a, again, raises);
            var queue := StreamOf(s, f).queue;
            && StreamOf(CleanUp(s, f, a), f).queue == queue
            && Resolves(o.state.feeds, token)
            && if queue == [] then
                 o.reply == WhenFed(raises, Just(Success)) && StreamOf(o.state, f).queue == []
               else
                 && StreamOf(o.state, f).queue == queue[1..]
                 && (o.reply.Reply? && o.reply.status == Success ==> Delivered(s, o, token, queue[0]))
                 && (!(o.reply.Reply? && o.reply.status == Success) ==> Returned(o.state, queue[0].id))
                 && (if raises then o.reply.Raised?
                     else o.reply == Just(NativeFailure) || (o.reply.Reply? && o.reply.status == Success))
  {
    var f, queue := Index(token), StreamOf(s, Index(token)).queue;
    ResolvedToken(s.feeds, token);
    CleanUpGrowsOffers(s, f, a);
    CleanUpKeepsInv(s, f, a);
    var c := CleanUp(s, f, a);
    hide Inv, CleanUp;
    if queue != [] {
      TakenFacts(c, f, token, again, raises);
      var o := TakenOutcome(c, f, token, again, raises);
      if o.reply.Reply? && o.reply.status == Success {
        forall t | HeldToken(s, t)
          ensures t != o.reply.token.value
        {
          CleanUpKeepsHeld(s, f, a, t);
        }
      }
    }
  }

  /** A successful drain delivers the head of the queue under a token nobody holds. */
  ghost predicate Delivered(s: State, o: Outcome, token: nat, info: Info) {
    && o.reply.Reply? && o.reply.token.Some? && o.reply.bytes == info.payload
    && HeldToken(o.state, o.reply.token.value)
    && At(o.state.spans, o.reply.token.value) == Span(token, info)
    && forall t: nat :: HeldToken(s, t) ==> t != o.reply.token.value
  }

  lemma TakenFacts(c: State, f: nat, token: nat, again: bool, raises: bool)
    requires Inv(c) && Clear(c, f) && token == Token(c.feeds, f) && Index(token) == f
    requires StreamOf(c, f).queue != [] && Resolves(c.feeds, token)
    ensures var o := TakenOutcome(c, f, token, again, raises);
            var queue := StreamOf(c, f).queue;
            && Resolves(o.state.feeds, token)
            && StreamOf(o.state, f).queue == queue[1..]
            && (o.reply.Reply? && o.reply.status == Success ==> Delivered(c, o, token, queue[0]))
            && (!(o.reply.Reply? && o.reply.status == Success) ==> Returned(o.state, queue[0].id))
            && (if raises then o.reply.Raised?
                else o.reply == Just(NativeFailure) || (o.reply.Reply? && o.reply.status == Success))
  {
    var o, queue, j := TakenOutcome(c, f, token, again, raises), StreamOf(c, f).queue, FirstFree(c.spans, 1);
    AllocateFresh(c.spans, Span(token, queue[0]));
    hide Inv;
    if !SourceOk(queue[0]) || j >= |c.spans| {
      assert o.state.offers[|c.offers|].id == queue[0].id;
    }
  }

  /** After a release the span has gone back, whatever the native answer was. */
  lemma ReleaseReturns(s: State, t: nat, a: Answers, native: Status)
    requires Inv(s) && HeldToken(s, t)
    ensures Returned(ReleaseStep(s, t, a, native).state, At(s.spans, t).info.id)
  {
    hide Inv, HeldToken, ReleaseStep, Attempted;
    GoodToken(s, t);
    ReleaseAttempts(s, t, a, native);
    StepMoves(s, Op.Release(t, a, native), At(s.spans, t).info.id);
    assert Step(s, Op.Release(t, a, native)).state == ReleaseStep(s, t, a, native).state;
  }

  lemma GoodToken(s: State, t: nat)
    requires HeldToken(s, t)
    ensures Resolves(s.spans, t) && !Undelivered(s.feeds, s.spans, Index(t))
  {
  }

  /** A release leaves the spans still queued in every open feed. */
  lemma ReleaseKeepsQueues(s: State, t: nat, a: Answers, native: Status, token: nat)
    requires Inv(s) && Resolves(s.feeds, token)
    ensures Resolves(ReleaseStep(s, t, a, native).state.feeds, token)
    ensures StreamOf(ReleaseStep(s, t, a, native).state, Index(token)).queue == StreamOf(s, Index(token)).queue
  {
    FeedNeverStale(s, t);
    if Resolves(s.spans, t) {
      CleanUpGrowsOffers(s, Index(At(s.spans, t).feed), a);
      CleanUpKeepsFeeds(s, Index(At(s.spans, t).feed), a);
      hide Inv, CleanUp;
      assert Live(s.feeds, Index(token));
    }
  }

  // ---- One native reserve ----

  /** A reserve that succeeds delivers a standing reservation under a token nobody holds. */
  lemma ReserveFacts(s: State, token: nat, minimum: int, a: Answers, native: Status, pointer: nat, len: nat,
                     again: bool, raises: bool)
    requires Inv(s) && Resolves(s.feeds, token) && minimum >= 0
    ensures var o := ReserveStep(s, token, minimum, a, native, pointer, len, again, raises);
            o.reply.Reply? && o.reply.status == Success ==>
              && o.reply.token.Some? && Standing(o.state, o.reply.token.value)
              && At(o.state.reservations, o.reply.token.value).feed == token
              && At(o.state.reservations, o.reply.token.value).len == len
              && forall t: nat :: Standing(s, t) ==> t != o.reply.token.value
  {
    var f := Index(token);
    ResolvedToken(s.feeds, token);
    CleanUpKeepsInv(s, f, a);
    CleanUpKeepsFeeds(s, f, a);
    var c := CleanUp(s, f, a);
    forall t: nat | Standing(s, t)
      ensures Resolves(c.reservations, t)
    {
      CleanUpKeepsStanding(s, f, a, t);
    }
    AllocateFresh(c.reservations, Reservation(token, c.reserved, pointer, len));
    hide Inv, CleanUp, EndActive;
  }

  // ---- A reservation without its object ----

  /**
  When the object for a new reservation cannot be made, its token is cancelled; the reservation is left
  standing, with no object to end it, exactly when the native side refuses that cancel.
  */
  lemma LostReservation(s: State, t: nat, a: Answers, cancelled: Status)
    requires Inv(s) && Standing(s, t)
    ensures Standing(FinishStep(s, t, false, 0, 0, a, cancelled, []).state, t) <==> cancelled != Success
  {
    assert ReservationOk(s, Index(t));
    ResolvedToken(s.feeds, At(s.reservations, t).feed);
    CleanUpKeepsStanding(s, Index(At(s.reservations, t).feed), a, t);
    hide CleanUp, Inv, EndActive;
    EndActiveTables(CleanUp(s, Index(At(s.reservations, t).feed), a), Index(At(s.reservations, t).feed));
  }
}
