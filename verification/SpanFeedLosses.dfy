/**
Which offers each call makes, and the spans that are lost: offered back for good although the native side
never took them back.
*/
module SpanFeedLosses {
  import opened Handles
  import opened Statuses
  import opened Slots
  import opened SpanFeedSpec
  import opened SpanFeedProofs
  import opened SpanFeedRuns
  import opened SpanFeedStranding

  // ---- The offers of one call ----

  /** The offer that the cleanup before a call makes. */
  function CleanUpOffers(s: State, op: Op): seq<Offer> {
    var t := Cleaned(s, op);
    if t.Some? && Resolves(s.feeds, t.value) && s.feeds[Index(t.value)].content.pendingSpan
    then [Offer(s.feeds[Index(t.value)].content.pendingInfo.id, op.a.accepted, true)] else []
  }

  /** A drain takes a span that it cannot give a slot. */
  predicate DrainsNowhere(s: State, op: Op) {
    && op.Drain? && Resolves(s.feeds, op.token)
    && var f := Index(op.token);
       && StreamOf(s, f).queue != []
       && (!SourceOk(StreamOf(s, f).queue[0]) || FirstFree(CleanUp(s, f, op.a).spans, 1) >= |s.spans|)
  }

  /** The offer that a call itself makes: a release of its span, a drain of one it cannot keep. */
  function OwnOffers(s: State, op: Op): seq<Offer> {
    if op.Release? && Resolves(s.spans, op.token)
    then [Offer(At(s.spans, op.token).info.id, op.native == Success, false)]
    else if DrainsNowhere(s, op)
    then [Offer(StreamOf(s, Index(op.token)).queue[0].id, op.again, true)]
    else []
  }

  lemma CleanUpOffered(s: State, g: nat, a: Answers)
    requires Inv(s) && Live(s.feeds, g)
    ensures var c, feed := CleanUp(s, g, a), s.feeds[g].content;
            && c.offers == s.offers + (if feed.pendingSpan then [Offer(feed.pendingInfo.id, a.accepted, true)] else [])
            && StreamOf(c, g).queue == StreamOf(s, g).queue
            && |c.spans| == |s.spans|
            && c.place.Keys == s.place.Keys
            && (feed.pendingSpan ==> c.place == s.place[feed.pendingInfo.id := Retired])
            && (!feed.pendingSpan ==> c.place == s.place)
  {
    CleanUpGrowsOffers(s, g, a);
    if s.feeds[g].content.pendingSpan {
      PendingPlaced(s, g);
    }
  }

  /** A create, write, commit, reserve, commit or cancel of a reservation does to spans what its cleanup does. */
  lemma QuietCall(s: State, op: Op)
    requires Inv(s) && !op.Close? && !op.Drain? && !op.Release?
    ensures var t, s' := Cleaned(s, op), Step(s, op).state;
            && (t.Some? ==> Resolves(s.feeds, t.value))
            && var c := if t.Some? then CleanUp(s, Index(t.value), op.a) else s;
               s'.offers == c.offers && s'.place == c.place
  {
    hide Inv, CleanUp, EndActive, Produce, ReserveStep, FinishStep;
    match op
    case Create(_, _, _, _) =>
    case Produces(token, a, _, _, added) =>
      if Resolves(s.feeds, token) {
        QuietOffers(CleanUp(s, Index(token), a), Index(token), added);
        QuietPlaces(CleanUp(s, Index(token), a), Index(token), added);
      }
    case Reserve(_, _, _, _, _, _, _, _) => QuietReserve(s, op);
    case Finish(_, _, _, _, _, _, _) =>
      FeedNeverStale(s, op.token);
      QuietFinish(s, op);
  }

  lemma QuietReserve(s: State, op: Op)
    requires op.Reserve?
    ensures var s' := Step(s, op).state;
            var c := if op.minimum >= 0 && Resolves(s.feeds, op.token) then CleanUp(s, Index(op.token), op.a) else s;
            s'.offers == c.offers && s'.place == c.place
  {
    hide CleanUp, EndActive;
    if Resolves(s.feeds, op.token) {
      QuietOffers(BegunFeed(CleanUp(s, Index(op.token), op.a), Index(op.token)), Index(op.token), []);
      QuietPlaces(BegunFeed(CleanUp(s, Index(op.token), op.a), Index(op.token)), Index(op.token), []);
    }
  }

  lemma QuietFinish(s: State, op: Op)
    requires op.Finish? && (Resolves(s.reservations, op.token) ==> Resolves(s.feeds, At(s.reservations, op.token).feed))
    ensures var s' := Step(s, op).state;
            var c := if Cleaned(s, op).Some? then CleanUp(s, Index(Cleaned(s, op).value), op.a) else s;
            (Cleaned(s, op).Some? ==> Index(Cleaned(s, op).value) < |s.feeds|)
            && s'.offers == c.offers && s'.place == c.place
  {
    hide CleanUp, EndActive, Produce;
    if Resolves(s.reservations, op.token) {
      var g := Index(At(s.reservations, op.token).feed);
      var c := CleanUp(s, g, op.a);
      ProduceSpans(c, g, op.added);
      QuietOffers(c, g, op.added);
      QuietOffers(Produce(c, g, op.added), g, op.added);
      QuietPlaces(c, g, op.added);
      QuietPlaces(Produce(c, g, op.added), g, op.added);
    }
  }

  lemma QuietPlaces(s: State, g: nat, added: seq<Info>)
    requires g < |s.feeds|
    ensures Produce(s, g, added).place == s.place && EndActive(s, g).place == s.place
  {
  }

  lemma DrainOffers(c: State, g: nat, token: nat, again: bool, raises: bool)
    requires g < |c.feeds|
    ensures StreamOf(c, g).queue != [] ==>
              var info := StreamOf(c, g).queue[0];
              TakenOutcome(c, g, token, again, raises).state.offers
              == if !SourceOk(info) || FirstFree(c.spans, 1) >= |c.spans|
                 then c.offers + [Offer(info.id, again, true)] else c.offers
  {
  }

  lemma DrainCallOffers(s: State, op: Op)
    requires Inv(s) && op.Drain?
    ensures Step(s, op).state.offers == s.offers + CleanUpOffers(s, op) + OwnOffers(s, op)
  {
    hide Inv, CleanUp, TakenOutcome;
    if Resolves(s.feeds, op.token) {
      CleanUpOffered(s, Index(op.token), op.a);
      DrainOffers(CleanUp(s, Index(op.token), op.a), Index(op.token), op.token, op.again, op.raises);
    }
  }

  lemma ReleaseCallOffers(s: State, op: Op)
    requires Inv(s) && op.Release?
    ensures Step(s, op).state.offers == s.offers + CleanUpOffers(s, op) + OwnOffers(s, op)
  {
    hide Inv, CleanUp;
    FeedNeverStale(s, op.token);
    if Resolves(s.spans, op.token) {
      CleanUpOffered(s, Index(At(s.spans, op.token).feed), op.a);
    }
  }

  /** The complete list of offers a call makes, in order. */
  lemma StepOffers(s: State, op: Op)
    requires Inv(s)
    ensures Step(s, op).state.offers == s.offers + CleanUpOffers(s, op) + OwnOffers(s, op)
  {
    hide Inv, CleanUp, DrainStep, ReleaseStep, FinishStep, ReserveStep, ProduceStep;
    match op
    case Drain(_, _, _, _) => DrainCallOffers(s, op);
    case Release(_, _, _) => ReleaseCallOffers(s, op);
    case Close(token, a, _) =>
      if Resolves(s.feeds, token) {
        CleanUpOffered(s, Index(token), a);
      }
    case Create(_, _, _, _) => QuietCall(s, op);
    case _ =>
      QuietCall(s, op);
      hide Step;
      if Cleaned(s, op).Some? {
        CleanUpOffered(s, Index(Cleaned(s, op).value), op.a);
      }
  }

  // ---- The places after one call ----

  /** Cleanup for the call offers back the pending span id. */
  predicate OffersPending(s: State, op: Op, id: nat) {
    var t := Cleaned(s, op);
    && t.Some? && Resolves(s.feeds, t.value)
    && s.feeds[Index(t.value)].content.pendingSpan && s.feeds[Index(t.value)].content.pendingInfo.id == id
  }

  /** A pending span is retired by a call exactly when the call cleans up its feed. */
  lemma PendingRetires(s: State, op: Op, id: nat)
    requires Inv(s) && Admissible(s, op) && id in s.place && s.place[id].Pending?
    ensures id in Step(s, op).state.place
    ensures Step(s, op).state.place[id] == if OffersPending(s, op, id) then Retired else s.place[id]
  {
    hide Inv, CleanUp, Admissible;
    match op
    case Close(token, a, _) =>
      if Resolves(s.feeds, token) {
        PendingCleaned(s, Index(token), a, id);
      }
    case Drain(token, a, _, _) =>
      if Resolves(s.feeds, token) {
        PendingCleaned(s, Index(token), a, id);
        CleanUpKeepsInv(s, Index(token), a);
        CleanUpOffered(s, Index(token), a);
        NextUndrained(CleanUp(s, Index(token), a), Index(token));
      }
    case Release(token, a, _) =>
      FeedNeverStale(s, token);
      if Resolves(s.spans, token) {
        PendingCleaned(s, Index(At(s.spans, token).feed), a, id);
        if At(s.spans, token).info.id == id {
          ReleasedPlace(s, token, a, id);
        }
      }
    case Create(_, _, _, _) => QuietCall(s, op);
    case _ =>
      QuietCall(s, op);
      hide Step;
      if Cleaned(s, op).Some? {
        PendingCleaned(s, Index(Cleaned(s, op).value), op.a, id);
      }
  }

  lemma PendingCleaned(s: State, g: nat, a: Answers, id: nat)
    requires Inv(s) && Live(s.feeds, g) && id in s.place && s.place[id].Pending?
    ensures var c, feed := CleanUp(s, g, a), s.feeds[g].content;
            && id in c.place
            && c.place[id] == if feed.pendingSpan && feed.pendingInfo.id == id then Retired else s.place[id]
  {
    CleanUpOffered(s, g, a);
  }

  /** The span of a released token that was never delivered is the one its feed has pending. */
  lemma ReleasedPlace(s: State, token: nat, a: Answers, id: nat)
    requires Inv(s) && Resolves(s.spans, token) && id in s.place && s.place[id].Pending?
    requires At(s.spans, token).info.id == id
    ensures var f := s.feeds[Index(At(s.spans, token).feed)].content; f.pendingSpan && f.pendingInfo.id == id
  {
    SlotPlace(s, Index(token));
    FeedNeverStale(s, token);
    assert PlaceOk(s, id);
  }

  /** Only a drain puts a new span anywhere: retired when it can give it no slot. */
  lemma NewPlace(s: State, op: Op, id: nat)
    requires Inv(s) && Admissible(s, op) && id !in s.place
    ensures id in Step(s, op).state.place && Step(s, op).state.place[id].Retired?
            <==> DrainsNowhere(s, op) && StreamOf(s, Index(op.token)).queue[0].id == id
  {
    hide Inv, CleanUp, Admissible;
    match op
    case Close(token, a, _) =>
      if Resolves(s.feeds, token) {
        CleanUpOffered(s, Index(token), a);
      }
    case Drain(token, a, _, _) =>
      if Resolves(s.feeds, token) {
        CleanUpOffered(s, Index(token), a);
      }
    case Release(token, a, _) =>
      FeedNeverStale(s, token);
      if Resolves(s.spans, token) {
        CleanUpOffered(s, Index(At(s.spans, token).feed), a);
        SlotPlace(s, Index(token));
      }
    case Create(_, _, _, _) => QuietCall(s, op);
    case _ =>
      QuietCall(s, op);
      hide Step;
      if Cleaned(s, op).Some? {
        CleanUpOffered(s, Index(Cleaned(s, op).value), op.a);
      }
  }

  // ---- Lost spans ----

  /** The native side took the span back. */
  ghost predicate TakenBack(offers: seq<Offer>, id: nat) {
    exists k :: 0 <= k < |offers| && offers[k].id == id && offers[k].accepted
  }

  /** Offered back for good, and never taken back: the native feed still waits for it. */
  ghost predicate Lost(s: State, id: nat) {
    id in s.place && s.place[id].Retired? && !TakenBack(s.offers, id)
  }

  /** The cleanup for the call is refused the pending span, and the call is not itself a granted release of it. */
  predicate CleanUpLoses(s: State, op: Op, id: nat) {
    && OffersPending(s, op, id) && !op.a.accepted
    && !(op.Release? && Resolves(s.spans, op.token) && At(s.spans, op.token).info.id == id && op.native == Success)
  }

  /** The drain of a span that it cannot give a slot is refused its return. */
  predicate DrainLoses(s: State, op: Op, id: nat) {
    DrainsNowhere(s, op) && StreamOf(s, Index(op.token)).queue[0].id == id && !op.again
  }

  lemma AppendedOffers(offers: seq<Offer>, more: seq<Offer>, id: nat)
    ensures TakenBack(offers + more, id) <==> TakenBack(offers, id) || TakenBack(more, id)
  {
    var all := offers + more;
    if k :| 0 <= k < |offers| && offers[k].id == id && offers[k].accepted {
      assert all[k] == offers[k];
    }
    if k :| 0 <= k < |more| && more[k].id == id && more[k].accepted {
      assert all[|offers| + k] == more[k];
    }
  }

  lemma OneOffer(o: Offer, id: nat)
    ensures TakenBack([o], id) <==> o.id == id && o.accepted
    ensures !TakenBack([], id)
  {
    assert [o][0] == o;
  }

  /** Which spans the offers of a call take back. */
  lemma StepTakesBack(s: State, op: Op, id: nat)
    requires Inv(s)
    ensures TakenBack(Step(s, op).state.offers, id)
            <==> || TakenBack(s.offers, id)
                 || (OffersPending(s, op, id) && op.a.accepted)
                 || (OwnOffers(s, op) != [] && OwnOffers(s, op)[0].id == id && OwnOffers(s, op)[0].accepted)
  {
    StepOffers(s, op);
    hide Inv, Step, TakenBack, DrainsNowhere;
    var pending, own := CleanUpOffers(s, op), OwnOffers(s, op);
    AppendedOffers(s.offers + pending, own, id);
    AppendedOffers(s.offers, pending, id);
    if pending != [] {
      OneOffer(pending[0], id);
    } else {
      OneOffer(Offer(id, false, false), id);
    }
    if own != [] {
      OneOffer(own[0], id);
    } else {
      OneOffer(Offer(id, false, false), id);
    }
  }

  /** A span that is neither pending nor held is offered by no call. */
  lemma SettledNotOffered(s: State, op: Op, id: nat)
    requires Inv(s) && id in s.place && (s.place[id].Retired? || s.place[id].Dropped?)
    ensures !OffersPending(s, op, id)
    ensures OwnOffers(s, op) != [] ==> OwnOffers(s, op)[0].id != id
  {
    hide CleanUp;
    var t := Cleaned(s, op);
    if t.Some? && Resolves(s.feeds, t.value) && s.feeds[Index(t.value)].content.pendingSpan {
      PendingPlaced(s, Index(t.value));
    }
    if op.Release? && Resolves(s.spans, op.token) {
      SlotPlace(s, Index(op.token));
    }
    if DrainsNowhere(s, op) {
      NextUndrained(s, Index(op.token));
    }
  }

  lemma NotYetTakenBack(s: State, id: nat)
    requires Inv(s)
    ensures TakenBack(s.offers, id) ==> id in s.place && s.place[id].Retired?
  {
  }

  /**
  A call leaves a span lost exactly when it was lost before, or the cleanup for the call is refused it while
  it is pending and the call is not itself a granted release of it, or the call drains it, can give it no
  slot and is refused its return. This holds for every call, of a pending token too.
  */
  lemma StepLosesExactly(s: State, op: Op, id: nat)
    requires Inv(s) && Admissible(s, op)
    ensures Lost(Step(s, op).state, id) <==> Lost(s, id) || CleanUpLoses(s, op, id) || DrainLoses(s, op, id)
  {
    hide Inv, Admissible, Step, TakenBack, DrainsNowhere;
    StepTakesBack(s, op, id);
    NotYetTakenBack(s, id);
    if id !in s.place {
      NewLost(s, op, id);
    } else {
      StepMoves(s, op, id);
      OldNotDrained(s, op, id);
      match s.place[id]
      case Pending(_) => PendingRetires(s, op, id); PendingOwn(s, op, id);
      case Held(_) => HeldLost(s, op, id);
      case Retired => SettledNotOffered(s, op, id);
      case Dropped => SettledNotOffered(s, op, id);
    }
  }

  /** A span that was never drained is pending nowhere and is in no slot. */
  lemma NewNotOffered(s: State, op: Op, id: nat)
    requires Inv(s) && id !in s.place
    ensures !OffersPending(s, op, id)
    ensures op.Release? && Resolves(s.spans, op.token) ==> At(s.spans, op.token).info.id != id
  {
    var t := Cleaned(s, op);
    if t.Some? && Resolves(s.feeds, t.value) && s.feeds[Index(t.value)].content.pendingSpan {
      PendingPlaced(s, Index(t.value));
    }
    if op.Release? && Resolves(s.spans, op.token) {
      SlotPlace(s, Index(op.token));
    }
  }

  lemma NewLost(s: State, op: Op, id: nat)
    requires Inv(s) && Admissible(s, op) && id !in s.place
    ensures !CleanUpLoses(s, op, id) && (Lost(Step(s, op).state, id) <==> DrainLoses(s, op, id))
  {
    NewPlace(s, op, id);
    NewNotOffered(s, op, id);
    StepTakesBack(s, op, id);
    NotYetTakenBack(s, id);
    hide Inv, Admissible, Step, TakenBack, CleanUp;
  }

  lemma OldNotDrained(s: State, op: Op, id: nat)
    requires Inv(s) && id in s.place
    ensures DrainsNowhere(s, op) ==> StreamOf(s, Index(op.token)).queue[0].id != id
  {
    hide CleanUp;
    if DrainsNowhere(s, op) {
      NextUndrained(s, Index(op.token));
    }
  }

  /** A release of a pending span finds it pending on the feed it cleans up. */
  lemma PendingOwn(s: State, op: Op, id: nat)
    requires Inv(s) && id in s.place && s.place[id].Pending?
    ensures op.Release? && Resolves(s.spans, op.token) && At(s.spans, op.token).info.id == id ==>
              OffersPending(s, op, id)
  {
    if op.Release? && Resolves(s.spans, op.token) && At(s.spans, op.token).info.id == id {
      ReleasedPlace(s, op.token, op.a, id);
      FeedNeverStale(s, op.token);
    }
  }

  /** A held span leaves its slot retired only by an accepted release, and is pending nowhere. */
  lemma HeldLost(s: State, op: Op, id: nat)
    requires Inv(s) && Admissible(s, op) && id in s.place && s.place[id].Held?
    ensures !OffersPending(s, op, id)
    ensures id in Step(s, op).state.place && Step(s, op).state.place[id].Retired? ==>
              TakenBack(Step(s, op).state.offers, id)
  {
    var t := Cleaned(s, op);
    if t.Some? && Resolves(s.feeds, t.value) && s.feeds[Index(t.value)].content.pendingSpan {
      PendingPlaced(s, Index(t.value));
    }
    assert PlaceOk(s, id);
    StepMoves(s, op, id);
    StepTakesBack(s, op, id);
    hide Inv, Admissible, Step, TakenBack;
  }

  // ---- Over a run ----

  /**
  A span that has been offered back for good or dropped before a call is made is never offered again, over
  every run; so a lost span stays lost.
  */
  lemma {:induction false} SettledForEver(s: State, ops: seq<Op>, id: nat)
    requires Inv(s) && Feasible(s, ops) && id in s.place && (s.place[id].Retired? || s.place[id].Dropped?)
    ensures s.offers <= Run(s, ops).offers
    ensures forall k :: |s.offers| <= k < |Run(s, ops).offers| ==> Run(s, ops).offers[k].id != id
    ensures Lost(s, id) <==> Lost(Run(s, ops), id)
    decreases |ops|
  {
    hide Inv, Step, Admissible, TakenBack;
    if ops != [] {
      var n := Step(s, ops[0]).state;
      StepMoves(s, ops[0], id);
      StepKeepsInv(s, ops[0]);
      StepOffers(s, ops[0]);
      StepTakesBack(s, ops[0], id);
      SettledNotOffered(s, ops[0], id);
      hide DrainsNowhere;
      SettledForEver(n, ops[1..], id);
    }
  }

  /** Some call of the run loses the span, in the state it is made in. */
  ghost predicate LosesSomewhere(s: State, ops: seq<Op>, id: nat)
    decreases |ops|
  {
    ops != []
    && (CleanUpLoses(s, ops[0], id) || DrainLoses(s, ops[0], id) || LosesSomewhere(Step(s, ops[0]).state, ops[1..], id))
  }

  lemma {:induction false} RunLosesExactly(s: State, ops: seq<Op>, id: nat)
    requires Inv(s) && Feasible(s, ops)
    ensures Lost(Run(s, ops), id) <==> Lost(s, id) || LosesSomewhere(s, ops, id)
    decreases |ops|
  {
    hide Inv, Step, Admissible, TakenBack, CleanUpLoses, DrainLoses;
    if ops != [] {
      var n := Step(s, ops[0]).state;
      StepKeepsInv(s, ops[0]);
      StepLosesExactly(s, ops[0], id);
      RunLosesExactly(n, ops[1..], id);
    }
  }
}
