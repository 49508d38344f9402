/** What holds over every run of the span-feed entry points. */
module SpanFeedRuns {
  import opened Handles
  import opened Statuses
  import opened Slots
  import opened SpanFeedSpec
  import opened SpanFeedProofs

  /** The native feed has no active reservation once f is cleaned up. */
  predicate IdleAfterCleanUp(s: State, token: nat, a: Answers) {
    Resolves(s.feeds, token) ==> StreamOf(CleanUp(s, Index(token), a), Index(token)).active.None?
  }

  /**
  What the native feed owes: new streams and spans are new; a reserve succeeds only with no reservation
  active, and so does a close.
  */
  ghost predicate Admissible(s: State, op: Op) {
    match op
    case Create(_, stream, _, _) => stream == 0 || stream !in s.native
    case Close(token, a, native) => native == Success ==> IdleAfterCleanUp(s, token, a)
    case Produces(_, _, _, _, added) => FreshSpans(s.issued, added)
    case Reserve(token, _, a, native, _, _, _, _) => native == Success ==> IdleAfterCleanUp(s, token, a)
    case Finish(_, _, _, _, _, _, added) => FreshSpans(s.issued, added)
    case Drain(_, _, _, _) => true
    case Release(_, _, _) => true
  }

  lemma ProducesKeepsInv(s: State, token: nat, a: Answers, rejected: bool, native: Status, added: seq<Info>)
    requires Inv(s) && FreshSpans(s.issued, added)
    ensures Inv(ProduceStep(s, token, a, rejected, native, added).state)
  {
    hide Inv, CleanUp;
    if Resolves(s.feeds, token) {
      var f := Index(token);
      CleanUpKeepsInv(s, f, a);
      CleanUpIssues(s, f, a);
      if !rejected {
        ProduceKeepsInv(CleanUp(s, f, a), f, added);
      }
    }
  }

  lemma StepKeepsInv(s: State, op: Op)
    requires Inv(s) && Admissible(s, op)
    ensures Inv(Step(s, op).state)
  {
    hide Inv, CreateStep, CloseStep, ProduceStep, ReserveStep, FinishStep, DrainStep, ReleaseStep;
    match op
    case Create(valid, stream, attach, raises) => CreateKeepsInv(s, valid, stream, attach, raises);
    case Close(token, a, native) => CloseKeepsInv(s, token, a, native);
    case Produces(token, a, rejected, native, added) => ProducesKeepsInv(s, token, a, rejected, native, added);
    case Reserve(token, minimum, a, native, pointer, len, again, raises) =>
      ReserveKeepsInv(s, token, minimum, a, native, pointer, len, again, raises);
    case Finish(token, commits, used, dataLength, a, native, added) =>
      FinishKeepsInv(s, token, commits, used, dataLength, a, native, added);
    case Drain(token, a, again, raises) => DrainKeepsInv(s, token, a, again, raises);
    case Release(token, a, native) => ReleaseKeepsInv(s, token, a, native);
  }

  function Zeroed<T>(capacity: nat, content: T): Table<T> {
    seq(capacity, _ => Slot(0, false, content))
  }

  function Initial(feeds: nat, spans: nat, reservations: nat): State {
    State(Zeroed(feeds, NO_FEED), Zeroed(spans, Span(0, NO_INFO)), Zeroed(reservations, Reservation(0, 0, 0, 0)),
          map[], {}, map[], [], 0, [], [])
  }

  lemma InitialInv(feeds: nat, spans: nat, reservations: nat)
    requires 1 < feeds <= SLOT_LIMIT && 1 < spans <= SLOT_LIMIT && 1 < reservations <= SLOT_LIMIT
    ensures Inv(Initial(feeds, spans, reservations))
  {
  }

  // ---- No span is offered again once it is retired ----

  /** After an accepted offer, or one made by cleanup, the same span is never offered again. */
  ghost predicate OffersOnce(offers: seq<Offer>) {
    forall i, k :: 0 <= i < k < |offers| && offers[i].id == offers[k].id ==> !Retires(offers[i])
  }

  /** A release token is proper when it is not one that a feed still has pending. */
  predicate Proper(s: State, op: Op) {
    op.Release? && Resolves(s.spans, op.token) ==> !Undelivered(s.feeds, s.spans, Index(op.token))
  }

  lemma OfferStaysOnce(place: map<nat, Place>, offers: seq<Offer>, o: Offer)
    requires OffersOk(place, offers) && OffersOnce(offers)
    requires o.id in place ==> place[o.id] != Retired
    ensures OffersOnce(offers + [o])
  {
  }

  lemma CleanUpOffersOnce(s: State, f: nat, a: Answers)
    requires Inv(s) && OffersOnce(s.offers) && Live(s.feeds, f)
    ensures OffersOnce(CleanUp(s, f, a).offers)
  {
    var feed := s.feeds[f].content;
    if feed.pendingSpan {
      assert FeedSpanOk(s, f);
      ResolvedToken(s.spans, feed.spanHandle);
      TokenResolves(s.feeds, f);
      assert SpanOk(s, Index(feed.spanHandle));
      hide ReservationSide, QueuesOk, StreamsOk, PlacesOk;
      OfferStaysOnce(s.place, s.offers, Offer(feed.pendingInfo.id, a.accepted, true));
    }
  }

  lemma DrainOffersOnce(s: State, token: nat, a: Answers, again: bool, raises: bool)
    requires Inv(s) && OffersOnce(s.offers)
    ensures OffersOnce(DrainStep(s, token, a, again, raises).state.offers)
  {
    if Resolves(s.feeds, token) {
      var f := Index(token);
      CleanUpOffersOnce(s, f, a);
      CleanUpKeepsInv(s, f, a);
      var c := CleanUp(s, f, a);
      hide CleanUp;
      if StreamOf(c, f).queue != [] {
        PopKeepsQueues(c, f);
        OfferStaysOnce(c.place, c.offers, Offer(StreamOf(c, f).queue[0].id, again, true));
      }
    }
  }

  /** A release offers a retired span again exactly when its token was never delivered. */
  lemma ReleaseOffersOnceExactly(s: State, token: nat, a: Answers, native: Status)
    requires Inv(s) && OffersOnce(s.offers)
    ensures OffersOnce(ReleaseStep(s, token, a, native).state.offers) <==> Proper(s, Release(token, a, native))
  {
    hide Inv, CleanUp, OffersOnce;
    if Resolves(s.spans, token) {
      var j := Index(token);
      var f := Index(s.spans[j].content.feed);
      FeedNeverStale(s, token);
      CleanUpOffersOnce(s, f, a);
      CleanUpKeepsInv(s, f, a);
      CleanUpSpan(s, f, a, j);
      var c, o := CleanUp(s, f, a), Offer(s.spans[j].content.info.id, native == Success, false);
      OfferOnceExactly(c, o);
    }
  }

  lemma OfferOnceExactly(s: State, o: Offer)
    requires Inv(s) && OffersOnce(s.offers) && o.id in s.place
    ensures OffersOnce(s.offers + [o]) <==> s.place[o.id] != Retired
  {
    if s.place[o.id] == Retired {
      assert PlaceOk(s, o.id);
      var k :| 0 <= k < |s.offers| && s.offers[k].id == o.id && Retires(s.offers[k]);
      var offers := s.offers + [o];
      assert offers[k].id == offers[|s.offers|].id && Retires(offers[k]);
    } else {
      OfferStaysOnce(s.place, s.offers, o);
    }
  }

  /** A live span or reservation slot always names a live feed: the staleness tests never fire. */
  lemma FeedNeverStale(s: State, token: nat)
    requires Inv(s)
    ensures Resolves(s.spans, token) ==> Resolves(s.feeds, At(s.spans, token).feed)
    ensures Resolves(s.reservations, token) ==> Resolves(s.feeds, At(s.reservations, token).feed)
  {
    if Resolves(s.spans, token) {
      assert SpanOk(s, Index(token));
    }
    if Resolves(s.reservations, token) {
      assert ReservationOk(s, Index(token));
    }
  }

  /** A call keeps every retired span from being offered again exactly when it is proper. */
  lemma StepOffersOnceExactly(s: State, op: Op)
    requires Inv(s) && OffersOnce(s.offers)
    ensures OffersOnce(Step(s, op).state.offers) <==> Proper(s, op)
  {
    hide Inv, CleanUp;
    match op
    case Create(_, _, _, _) =>
    case Close(token, a, _) =>
      if Resolves(s.feeds, token) {
        CleanUpOffersOnce(s, Index(token), a);
      }
    case Produces(token, a, _, _, _) =>
      if Resolves(s.feeds, token) {
        CleanUpOffersOnce(s, Index(token), a);
      }
    case Reserve(token, _, a, _, _, _, _, _) =>
      if Resolves(s.feeds, token) {
        CleanUpOffersOnce(s, Index(token), a);
      }
    case Finish(token, _, _, _, a, _, _) =>
      if Resolves(s.reservations, token) {
        FeedNeverStale(s, token);
        CleanUpOffersOnce(s, Index(At(s.reservations, token).feed), a);
      }
    case Drain(token, a, again, raises) => DrainOffersOnce(s, token, a, again, raises);
    case Release(token, a, native) => ReleaseOffersOnceExactly(s, token, a, native);
  }

  // ---- Offers are only added ----

  lemma ProduceSpans(s: State, g: nat, added: seq<Info>)
    requires g < |s.feeds|
    ensures Produce(s, g, added).spans == s.spans && Produce(s, g, added).feeds == s.feeds
    ensures Produce(s, g, added).reservations == s.reservations
  {
  }

  lemma CleanUpGrowsOffers(s: State, g: nat, a: Answers)
    requires g < |s.feeds|
    ensures s.offers <= CleanUp(s, g, a).offers
    ensures forall f :: f < |s.feeds| && StreamsOk(s.feeds, s.native) && Live(s.feeds, f) && Live(s.feeds, g) ==>
              StreamOf(CleanUp(s, g, a), f).queue == StreamOf(s, f).queue
  {
  }

  lemma StepGrowsOffers(s: State, op: Op)
    ensures s.offers <= Step(s, op).state.offers
  {
    hide CleanUp, EndActive, Produce;
    match op
    case Create(_, _, _, _) =>
    case Close(token, a, _) =>
      if Resolves(s.feeds, token) {
        CleanUpGrowsOffers(s, Index(token), a);
      }
    case Produces(token, a, _, _, added) =>
      if Resolves(s.feeds, token) {
        CleanUpGrowsOffers(s, Index(token), a);
        QuietOffers(CleanUp(s, Index(token), a), Index(token), added);
      }
    case Reserve(token, _, a, _, _, _, _, _) =>
      if Resolves(s.feeds, token) {
        CleanUpGrowsOffers(s, Index(token), a);
        QuietOffers(BegunFeed(CleanUp(s, Index(token), a), Index(token)), Index(token), []);
      }
    case Finish(token, _, _, _, a, _, added) =>
      if Resolves(s.reservations, token) && Resolves(s.feeds, At(s.reservations, token).feed) {
        var g := Index(At(s.reservations, token).feed);
        CleanUpGrowsOffers(s, g, a);
        QuietOffers(CleanUp(s, g, a), g, added);
        ProduceSpans(CleanUp(s, g, a), g, added);
        QuietOffers(Produce(CleanUp(s, g, a), g, added), g, added);
      }
    case Drain(token, a, _, _) =>
      if Resolves(s.feeds, token) {
        CleanUpGrowsOffers(s, Index(token), a);
      }
    case Release(token, a, _) =>
      if Resolves(s.spans, token) && Resolves(s.feeds, At(s.spans, token).feed) {
        CleanUpGrowsOffers(s, Index(At(s.spans, token).feed), a);
      }
  }

  lemma QuietOffers(s: State, g: nat, added: seq<Info>)
    requires g < |s.feeds|
    ensures Produce(s, g, added).offers == s.offers && EndActive(s, g).offers == s.offers
  {
  }

  // ---- Runs ----

  ghost predicate Feasible(s: State, ops: seq<Op>)
    decreases |ops|
  {
    ops == [] || (Admissible(s, ops[0]) && Feasible(Step(s, ops[0]).state, ops[1..]))
  }

  ghost function Run(s: State, ops: seq<Op>): State
    decreases |ops|
  {
    if ops == [] then s else Run(Step(s, ops[0]).state, ops[1..])
  }

  lemma {:induction false} RunKeepsInv(s: State, ops: seq<Op>)
    requires Inv(s) && Feasible(s, ops)
    ensures Inv(Run(s, ops)) && s.offers <= Run(s, ops).offers
    decreases |ops|
  {
    hide Inv, Step, Admissible;
    if ops != [] {
      StepKeepsInv(s, ops[0]);
      StepGrowsOffers(s, ops[0]);
      RunKeepsInv(Step(s, ops[0]).state, ops[1..]);
    }
  }

  /** No release of the run names a token that is pending when it is made. */
  ghost predicate AllProper(s: State, ops: seq<Op>)
    decreases |ops|
  {
    ops == [] || (Proper(s, ops[0]) && AllProper(Step(s, ops[0]).state, ops[1..]))
  }

  /** Over any run no retired span is offered again exactly when no release names a pending token. */
  lemma {:induction false} RunOffersOnceExactly(s: State, ops: seq<Op>)
    requires Inv(s) && OffersOnce(s.offers) && Feasible(s, ops)
    ensures OffersOnce(Run(s, ops).offers) <==> AllProper(s, ops)
    decreases |ops|
  {
    hide Inv, OffersOnce, Step, Proper, Admissible;
    if ops != [] {
      var n := Step(s, ops[0]).state;
      StepKeepsInv(s, ops[0]);
      StepOffersOnceExactly(s, ops[0]);
      if Proper(s, ops[0]) {
        RunOffersOnceExactly(n, ops[1..]);
      } else {
        RunKeepsInv(n, ops[1..]);
        PrefixOffersOnce(n.offers, Run(n, ops[1..]).offers);
      }
    }
  }

  lemma PrefixOffersOnce(offers: seq<Offer>, more: seq<Offer>)
    requires offers <= more
    ensures OffersOnce(more) ==> OffersOnce(offers)
  {
    assert forall i :: 0 <= i < |offers| ==> offers[i] == more[i];
  }

  // ---- Conservation ----

  ghost predicate PendingOn(s: State, id: nat, f: int) {
    Live(s.feeds, f) && s.feeds[f].content.pendingSpan && s.feeds[f].content.pendingInfo.id == id
  }

  ghost predicate HeldIn(s: State, id: nat, j: int) {
    Live(s.spans, j) && s.spans[j].content.info.id == id && !Undelivered(s.feeds, s.spans, j)
  }

  ghost predicate OfferedBack(s: State, id: nat) {
    exists k :: 0 <= k < |s.offers| && s.offers[k].id == id && Retires(s.offers[k])
  }

  /**
  Every drained span is in exactly one place: pending on one feed, held in one delivered slot, offered
  back for good, or dropped with its feed. Read off the tables and the record of native calls.
  */
  lemma SpanConserved(s: State, id: nat)
    requires Inv(s) && id in s.place
    ensures (exists f :: PendingOn(s, id, f)) <==> s.place[id].Pending?
    ensures (exists j :: HeldIn(s, id, j)) <==> s.place[id].Held?
    ensures OfferedBack(s, id) <==> s.place[id].Retired?
    ensures forall f, g :: PendingOn(s, id, f) && PendingOn(s, id, g) ==> f == g
    ensures forall j, k :: HeldIn(s, id, j) && HeldIn(s, id, k) ==> j == k
  {
    assert PlaceOk(s, id);
    if s.place[id].Pending? {
      assert PendingOn(s, id, s.place[id].feed);
    }
    if s.place[id].Held? {
      assert HeldIn(s, id, s.place[id].slot);
    }
    forall f | PendingOn(s, id, f)
      ensures s.place[id] == Pending(f)
    {
      PendingPlaced(s, f);
    }
    forall j | HeldIn(s, id, j)
      ensures s.place[id] == Held(j)
    {
      assert SpanOk(s, j);
    }
  }

  lemma PendingPlaced(s: State, f: nat)
    requires SpanSide(s) && Live(s.feeds, f) && s.feeds[f].content.pendingSpan
    ensures s.feeds[f].content.pendingInfo.id in s.place
    ensures s.place[s.feeds[f].content.pendingInfo.id] == Pending(f)
  {
    assert FeedSpanOk(s, f);
    ResolvedToken(s.spans, s.feeds[f].content.spanHandle);
    TokenResolves(s.feeds, f);
    assert SpanOk(s, Index(s.feeds[f].content.spanHandle));
  }

  /** A feed's pending reservation is its only live one: none is delivered beside it. */
  lemma NeverPendingAndDelivered(s: State, f: nat, j: nat)
    requires Inv(s) && Live(s.feeds, f) && s.feeds[f].content.pendingReservation
    requires Live(s.reservations, j) && s.reservations[j].content.feed == Token(s.feeds, f)
    ensures s.feeds[f].content.reservationHandle == Token(s.reservations, j)
  {
    assert FeedReservationOk(s, f);
    ResolvedToken(s.reservations, s.feeds[f].content.reservationHandle);
    TokenResolves(s.feeds, f);
  }

  /** How one span's place may change in one call. */
  ghost predicate Moves(s: State, op: Op, was: Place, now: Place) {
    || now == was
    || (was.Pending? && now == Retired)
    || (was.Held? && now == Retired && op.Release? && op.native == Success
        && Resolves(s.spans, op.token) && was == Held(Index(op.token)))
    || (was.Held? && now == Dropped && op.Close? && op.native == Success)
  }

  lemma CleanUpMoves(s: State, f: nat, a: Answers, id: nat)
    requires Inv(s) && Live(s.feeds, f)
    ensures CleanUp(s, f, a).place.Keys == s.place.Keys
    ensures id in s.place ==>
              var now := CleanUp(s, f, a).place[id];
              now == s.place[id] || (s.place[id].Pending? && now == Retired)
  {
    if s.feeds[f].content.pendingSpan {
      PendingPlaced(s, f);
    }
  }

  lemma DrainMoves(s: State, token: nat, a: Answers, again: bool, raises: bool, id: nat)
    requires Inv(s) && id in s.place
    ensures id in DrainStep(s, token, a, again, raises).state.place
    ensures Moves(s, Drain(token, a, again, raises), s.place[id], DrainStep(s, token, a, again, raises).state.place[id])
  {
    hide Inv, CleanUp;
    if Resolves(s.feeds, token) {
      CleanUpMoves(s, Index(token), a, id);
      CleanUpKeepsInv(s, Index(token), a);
      NextUndrained(CleanUp(s, Index(token), a), Index(token));
    }
  }

  lemma NextUndrained(s: State, f: nat)
    requires Inv(s) && Live(s.feeds, f)
    ensures StreamOf(s, f).queue != [] ==> StreamOf(s, f).queue[0].id !in s.place
  {
    if StreamOf(s, f).queue != [] {
      PopKeepsQueues(s, f);
    }
  }

  lemma ReleaseMoves(s: State, token: nat, a: Answers, native: Status, id: nat)
    requires Inv(s) && id in s.place
    ensures id in ReleaseStep(s, token, a, native).state.place
    ensures Moves(s, Release(token, a, native), s.place[id], ReleaseStep(s, token, a, native).state.place[id])
  {
    hide Inv, CleanUp;
    if Resolves(s.spans, token) {
      var f, j := Index(At(s.spans, token).feed), Index(token);
      FeedNeverStale(s, token);
      CleanUpMoves(s, f, a, id);
      CleanUpSpan(s, f, a, j);
      SlotPlace(s, j);
    }
  }

  /** The place of a slot's span: pending when its token was never delivered, else held. */
  lemma SlotPlace(s: State, j: nat)
    requires Inv(s) && Live(s.spans, j)
    ensures var id := s.spans[j].content.info.id;
            && id in s.place
            && s.place[id] == if Undelivered(s.feeds, s.spans, j) then Pending(Index(s.spans[j].content.feed)) else Held(j)
  {
    assert SpanOk(s, j);
  }

  lemma HeldSlot(s: State, j: nat)
    requires Inv(s) && Live(s.spans, j) && !Undelivered(s.feeds, s.spans, j)
    ensures s.spans[j].content.info.id in s.place && s.place[s.spans[j].content.info.id] == Held(j)
  {
    assert SpanOk(s, j);
  }

  /** A span once retired or dropped stays so, and no drained span is forgotten. */
  lemma StepMoves(s: State, op: Op, id: nat)
    requires Inv(s) && Admissible(s, op) && id in s.place
    ensures id in Step(s, op).state.place
    ensures Moves(s, op, s.place[id], Step(s, op).state.place[id])
  {
    hide Inv, CleanUp, Admissible, DrainStep, ReleaseStep;
    match op
    case Create(_, _, _, _) =>
    case Close(token, a, native) =>
      if Resolves(s.feeds, token) {
        CleanUpMoves(s, Index(token), a, id);
      }
    case Produces(token, a, _, _, _) =>
      if Resolves(s.feeds, token) {
        CleanUpMoves(s, Index(token), a, id);
      }
    case Reserve(token, _, a, _, _, _, _, _) =>
      if Resolves(s.feeds, token) {
        CleanUpMoves(s, Index(token), a, id);
      }
    case Finish(token, _, _, _, a, _, _) =>
      if Resolves(s.reservations, token) {
        FeedNeverStale(s, token);
        CleanUpMoves(s, Index(At(s.reservations, token).feed), a, id);
      }
    case Drain(token, a, again, raises) => DrainMoves(s, token, a, again, raises, id);
    case Release(token, a, native) => ReleaseMoves(s, token, a, native, id);
  }

  /** Over any run, a drained span stays accounted for, and retired or dropped is for ever. */
  lemma {:induction false} RunRemembers(s: State, ops: seq<Op>, id: nat)
    requires Inv(s) && Feasible(s, ops) && id in s.place
    ensures id in Run(s, ops).place
    ensures s.place[id].Retired? || s.place[id].Dropped? ==> Run(s, ops).place[id] == s.place[id]
    decreases |ops|
  {
    hide Inv, Step, Admissible;
    if ops != [] {
      StepMoves(s, ops[0], id);
      StepKeepsInv(s, ops[0]);
      RunRemembers(Step(s, ops[0]).state, ops[1..], id);
    }
  }

  // ---- After a close ----

  /** A closed feed's tokens are dead: the feed's own, and every span and reservation of it. */
  lemma CloseKillsTokens(s: State, token: nat, a: Answers, native: Status)
    requires Inv(s) && Admissible(s, Close(token, a, native))
    requires CloseStep(s, token, a, native).reply == Just(Success)
    ensures var s' := CloseStep(s, token, a, native).state;
            && !Resolves(s'.feeds, token)
            && (forall t: nat :: Resolves(s.spans, t) && At(s.spans, t).feed == token ==> !Resolves(s'.spans, t))
            && (forall t: nat :: Resolves(s.reservations, t) && At(s.reservations, t).feed == token ==>
                  !Resolves(s'.reservations, t))
  {
    hide Inv, CleanUp, Closed;
    var f, s' := Index(token), CloseStep(s, token, a, native).state;
    CloseKeepsInv(s, token, a, native);
    CleanUpKeepsInv(s, f, a);
    ResolvedToken(s.feeds, token);
    ClosedSlots(CleanUp(s, f, a), f);
    forall t: nat
      ensures Resolves(s.spans, t) && At(s.spans, t).feed == token ==> !Resolves(s'.spans, t)
      ensures Resolves(s.reservations, t) && At(s.reservations, t).feed == token ==> !Resolves(s'.reservations, t)
    {
      FeedNeverStale(s', t);
      CleanUpSlots(s, f, a, Index(t));
    }
  }

  /** Cleanup changes a slot only by freeing it. */
  lemma CleanUpSlots(s: State, f: nat, a: Answers, i: nat)
    requires f < |s.feeds|
    ensures var c := CleanUp(s, f, a);
            && |c.spans| == |s.spans| && |c.reservations| == |s.reservations|
            && (Live(c.spans, i) ==> c.spans[i] == s.spans[i])
            && (Live(c.reservations, i) ==> c.reservations[i] == s.reservations[i])
  {
  }

  lemma ClosedSlots(s: State, f: nat)
    requires Inv(s) && Live(s.feeds, f)
    ensures var s' := Closed(s, f);
            && !Resolves(s'.feeds, Token(s.feeds, f))
            && |s'.spans| == |s.spans| && s'.reservations == s.reservations
            && forall i :: Live(s'.spans, i) ==> Live(s.spans, i) && s'.spans[i] == s.spans[i]
  {
    TokenResolves(s.feeds, f);
  }
}
