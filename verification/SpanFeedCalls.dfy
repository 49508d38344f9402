/**
Every native call that would end a reservation, by commit, cancel or cleanup: none is made for one that
an earlier call has already ended, unless a commit or cancel names a token its feed still has pending.
*/
module SpanFeedCalls {
  import opened Handles
  import opened Statuses
  import opened Slots
  import opened SpanFeedSpec
  import opened SpanFeedProofs
  import opened SpanFeedRuns

  /** After an accepted call nothing is asked of, or copied into, the same reservation. */
  ghost predicate EndsOnce(calls: seq<EndCall>) {
    forall i, k :: 0 <= i < k < |calls| && calls[i].id == calls[k].id ==> !calls[i].accepted
  }

  ghost predicate EndedBy(calls: seq<EndCall>, id: nat) {
    exists k :: 0 <= k < |calls| && calls[k].id == id && calls[k].accepted
  }

  /** Calls are about reservations begun so far, and one that stands in a slot has not been ended. */
  ghost predicate CallsOk(s: State) {
    && (forall k :: 0 <= k < |s.calls| ==> s.calls[k].id < s.reserved)
    && (forall j :: Live(s.reservations, j) ==> !EndedBy(s.calls, s.reservations[j].content.id))
  }

  /** The token was allocated for a reservation that its feed still has pending: it was never delivered. */
  predicate PendingToken(s: State, t: nat) {
    && Resolves(s.reservations, t)
    && Resolves(s.feeds, At(s.reservations, t).feed)
    && s.feeds[Index(At(s.reservations, t).feed)].content.pendingReservation
  }

  /** The commit or cancel passes its tests and calls the native side. */
  predicate Reaches(s: State, op: Op) {
    && op.Finish? && Resolves(s.reservations, op.token)
    && var r := At(s.reservations, op.token);
       op.commits ==> 0 <= op.used <= r.len && op.used <= op.dataLength && (op.used == 0 || r.pointer != 0)
  }

  // ---- Identities ----

  lemma SlotIds(s: State, j: nat, k: nat)
    requires Inv(s) && Live(s.reservations, j)
    ensures s.reservations[j].content.id < s.reserved
    ensures Live(s.reservations, k) && s.reservations[k].content.id == s.reservations[j].content.id ==> j == k
  {
    assert ReservationOk(s, j);
    ResolvedToken(s.feeds, s.reservations[j].content.feed);
    if Live(s.reservations, k) {
      assert ReservationOk(s, k);
      ResolvedToken(s.feeds, s.reservations[k].content.feed);
    }
  }

  lemma AppendedCall(calls: seq<EndCall>, call: EndCall)
    ensures EndsOnce(calls + [call]) <==> EndsOnce(calls) && !EndedBy(calls, call.id)
    ensures forall id: nat ::
              EndedBy(calls + [call], id) <==> EndedBy(calls, id) || (call.id == id && call.accepted)
  {
    var all := calls + [call];
    if EndsOnce(all) {
      assert forall i, k :: 0 <= i < k < |calls| ==> all[i] == calls[i] && all[k] == calls[k];
      assert forall i :: 0 <= i < |calls| && calls[i].id == call.id ==> all[i].id == all[|calls|].id;
    }
    forall id: nat
      ensures EndedBy(all, id) <==> EndedBy(calls, id) || (call.id == id && call.accepted)
    {
      if call.id == id && call.accepted {
        assert all[|calls|] == call;
      }
      if k :| 0 <= k < |calls| && calls[k].id == id && calls[k].accepted {
        assert all[k] == calls[k];
      }
    }
  }

  // ---- Cleanup ----

  /** Cleanup asks to end the pending reservation of the feed, if there is one, and nothing else. */
  lemma CleanUpCalls(s: State, f: nat, a: Answers)
    requires Inv(s) && Live(s.feeds, f)
    ensures var feed := s.feeds[f].content;
            && (feed.pendingReservation ==> Resolves(s.reservations, feed.reservationHandle))
            && CleanUp(s, f, a).calls
               == if feed.pendingReservation
                  then s.calls + [EndCall(At(s.reservations, feed.reservationHandle).id, Cleanup, 0, a.cancelled)]
                  else s.calls
    ensures CleanUp(s, f, a).reserved == s.reserved
  {
    assert FeedReservationOk(s, f);
    if s.feeds[f].content.pendingReservation {
      ResolvedToken(s.reservations, s.feeds[f].content.reservationHandle);
    }
  }

  lemma CleanUpKeepsCalls(s: State, f: nat, a: Answers)
    requires Inv(s) && CallsOk(s) && Live(s.feeds, f)
    ensures CallsOk(CleanUp(s, f, a))
    ensures EndsOnce(s.calls) ==> EndsOnce(CleanUp(s, f, a).calls)
  {
    var feed, c := s.feeds[f].content, CleanUp(s, f, a);
    CleanUpCalls(s, f, a);
    if feed.pendingReservation {
      var p := Index(feed.reservationHandle);
      AppendedCall(s.calls, EndCall(s.reservations[p].content.id, Cleanup, 0, a.cancelled));
      CleanUpFreesPending(s, f, a);
      SlotIds(s, p, p);
    }
    hide Inv, CleanUp, EndsOnce, EndedBy;
    forall j | Live(c.reservations, j)
      ensures !EndedBy(c.calls, c.reservations[j].content.id)
    {
      CleanUpSlots(s, f, a, j);
      if feed.pendingReservation {
        SlotIds(s, Index(feed.reservationHandle), j);
      }
    }
  }

  lemma CleanUpFreesPending(s: State, f: nat, a: Answers)
    requires Inv(s) && Live(s.feeds, f) && s.feeds[f].content.pendingReservation
    ensures !Live(CleanUp(s, f, a).reservations, Index(s.feeds[f].content.reservationHandle))
  {
    assert FeedReservationOk(s, f);
    ResolvedToken(s.reservations, s.feeds[f].content.reservationHandle);
  }

  // ---- Commit and cancel ----

  /**
  A commit or cancel calls the native side for a reservation that has already been ended exactly when its
  token is still pending on its feed and the cleanup before the call was granted the cancel.
  */
  lemma FinishCallsOnceExactly(s: State, op: Op)
    requires Inv(s) && CallsOk(s) && EndsOnce(s.calls) && op.Finish?
    ensures EndsOnce(Step(s, op).state.calls) <==> AsksOnce(s, op)
  {
    hide Inv, CleanUp, Produce, EndActive, EndsOnce, EndedBy;
    FeedNeverStale(s, op.token);
    if Resolves(s.reservations, op.token) {
      var r := At(s.reservations, op.token);
      var g := Index(r.feed);
      CleanUpKeepsCalls(s, g, op.a);
      CleanUpCalls(s, g, op.a);
      var c := CleanUp(s, g, op.a);
      FinishQuiet(c, g, op.added);
      if s.feeds[g].content.pendingReservation {
        PendingIsOwn(s, op.token);
        AppendedCall(s.calls, EndCall(r.id, Cleanup, 0, op.a.cancelled));
      }
      if Reaches(s, op) {
        AppendedCall(c.calls, FinishCall(r, op));
      }
    }
  }

  function FinishCall(r: Reservation, op: Op): EndCall
    requires op.Finish? && (op.commits ==> op.used >= 0)
  {
    EndCall(r.id, if op.commits then Commit else Cancel, if op.commits then op.used else 0, op.native == Success)
  }

  lemma FinishQuiet(c: State, g: nat, added: seq<Info>)
    requires g < |c.feeds|
    ensures var p := Produce(c, g, added);
            && p.reservations == c.reservations && p.calls == c.calls && p.reserved == c.reserved && p.feeds == c.feeds
            && EndActive(c, g).reservations == c.reservations && EndActive(c, g).reserved == c.reserved
            && EndActive(p, g).reservations == c.reservations && EndActive(p, g).reserved == c.reserved
            && EndActive(c, g).calls == c.calls && EndActive(p, g).calls == c.calls
  {
  }

  /** The reservation a feed has pending is the only one of that feed. */
  lemma PendingIsOwn(s: State, t: nat)
    requires Inv(s) && PendingToken(s, t)
    ensures Index(s.feeds[Index(At(s.reservations, t).feed)].content.reservationHandle) == Index(t)
    ensures s.feeds[Index(At(s.reservations, t).feed)].content.reservationHandle == t
  {
    ResolvedToken(s.feeds, At(s.reservations, t).feed);
    ResolvedToken(s.reservations, t);
    NeverPendingAndDelivered(s, Index(At(s.reservations, t).feed), Index(t));
  }

  lemma FinishKeepsCalls(s: State, op: Op)
    requires Inv(s) && CallsOk(s) && op.Finish?
    ensures CallsOk(Step(s, op).state)
  {
    hide Inv, CleanUp, Produce, EndActive, EndedBy;
    FeedNeverStale(s, op.token);
    if Resolves(s.reservations, op.token) {
      var r := At(s.reservations, op.token);
      var g := Index(r.feed);
      CleanUpKeepsCalls(s, g, op.a);
      CleanUpCalls(s, g, op.a);
      var c, s' := CleanUp(s, g, op.a), Step(s, op).state;
      FinishQuiet(c, g, op.added);
      SlotIds(s, Index(op.token), Index(op.token));
      CleanUpSlots(s, g, op.a, Index(op.token));
      if Reaches(s, op) {
        AppendedCall(c.calls, FinishCall(r, op));
        forall j | Live(s'.reservations, j)
          ensures !EndedBy(s'.calls, s'.reservations[j].content.id)
        {
          CleanUpSlots(s, g, op.a, j);
          SlotIds(s, Index(op.token), j);
        }
      }
    }
  }

  // ---- Every call ----

  lemma ReserveKeepsCalls(s: State, op: Op)
    requires Inv(s) && CallsOk(s) && op.Reserve?
    ensures CallsOk(Step(s, op).state)
    ensures EndsOnce(s.calls) ==> EndsOnce(Step(s, op).state.calls)
  {
    hide Inv, CleanUp, EndActive, EndsOnce;
    if op.minimum >= 0 && Resolves(s.feeds, op.token) {
      var f := Index(op.token);
      CleanUpKeepsCalls(s, f, op.a);
      CleanUpKeepsInv(s, f, op.a);
      var c := CleanUp(s, f, op.a);
      FinishQuiet(BegunFeed(c, f), f, []);
      AppendedCall(c.calls, EndCall(c.reserved, Cleanup, 0, op.again));
      forall j | Live(c.reservations, j)
        ensures c.reservations[j].content.id < c.reserved
      {
        SlotIds(c, j, j);
      }
      NewIdNotEnded(c);
    }
  }

  lemma NewIdNotEnded(c: State)
    requires CallsOk(c)
    ensures !EndedBy(c.calls, c.reserved)
  {
  }

  lemma CallsFrame(s: State, s': State)
    requires CallsOk(s) && s'.calls == s.calls && s'.reserved == s.reserved
    requires forall j :: Live(s'.reservations, j) ==> Live(s.reservations, j) && s'.reservations[j] == s.reservations[j]
    ensures CallsOk(s')
  {
    hide EndedBy;
  }

  lemma StepKeepsCalls(s: State, op: Op)
    requires Inv(s) && CallsOk(s)
    ensures CallsOk(Step(s, op).state)
    ensures EndsOnce(s.calls) && !op.Finish? ==> EndsOnce(Step(s, op).state.calls)
  {
    hide Inv, CleanUp, CallsOk, EndsOnce, EndActive, Produce, ReserveStep, FinishStep;
    var s' := Step(s, op).state;
    match op
    case Create(_, _, _, _) => CallsFrame(s, s');
    case Close(token, a, _) =>
      if Resolves(s.feeds, token) {
        CleanUpKeepsCalls(s, Index(token), a);
        CallsFrame(CleanUp(s, Index(token), a), s');
      }
    case Produces(token, a, _, _, added) =>
      if Resolves(s.feeds, token) {
        CleanUpKeepsCalls(s, Index(token), a);
        FinishQuiet(CleanUp(s, Index(token), a), Index(token), added);
        CallsFrame(CleanUp(s, Index(token), a), s');
      }
    case Reserve(_, _, _, _, _, _, _, _) => ReserveKeepsCalls(s, op);
    case Finish(_, _, _, _, _, _, _) => FinishKeepsCalls(s, op);
    case Drain(token, a, _, _) =>
      if Resolves(s.feeds, token) {
        CleanUpKeepsCalls(s, Index(token), a);
        CallsFrame(CleanUp(s, Index(token), a), s');
      }
    case Release(token, a, _) =>
      FeedNeverStale(s, token);
      if Resolves(s.spans, token) {
        CleanUpKeepsCalls(s, Index(At(s.spans, token).feed), a);
        CallsFrame(CleanUp(s, Index(At(s.spans, token).feed), a), s');
      }
  }

  /**
  The call makes no commit or cancel for a reservation that its own cleanup has just ended: one whose token
  is still pending on its feed, with the cleanup granted the cancel.
  */
  predicate AsksOnce(s: State, op: Op) {
    !(Reaches(s, op) && PendingToken(s, op.token) && op.a.cancelled)
  }

  lemma StepEndsOnceExactly(s: State, op: Op)
    requires Inv(s) && CallsOk(s) && EndsOnce(s.calls)
    ensures CallsOk(Step(s, op).state)
    ensures EndsOnce(Step(s, op).state.calls) <==> AsksOnce(s, op)
  {
    StepKeepsCalls(s, op);
    if op.Finish? {
      FinishCallsOnceExactly(s, op);
    }
    hide Inv, CallsOk, EndsOnce, Step;
  }

  lemma BegunGrowsCalls(c: State, f: nat, token: nat, pointer: nat, len: nat, again: bool, raises: bool)
    requires f < |c.feeds|
    ensures c.calls <= BegunOutcome(c, f, token, pointer, len, again, raises).state.calls
  {
    hide EndActive;
    FinishQuiet(BegunFeed(c, f), f, []);
  }

  /** Draining ends no reservation. */
  lemma TakenKeepsCalls(c: State, f: nat, token: nat, again: bool, raises: bool)
    requires f < |c.feeds| && StreamOf(c, f).queue != []
    ensures TakenOutcome(c, f, token, again, raises).state.calls == c.calls
  {
  }

  lemma FinishGrowsCalls(s: State, op: Op)
    requires Inv(s) && op.Finish?
    ensures s.calls <= Step(s, op).state.calls
  {
    hide Inv, CleanUp, EndActive, Produce;
    FeedNeverStale(s, op.token);
    if Resolves(s.reservations, op.token) {
      var g := Index(At(s.reservations, op.token).feed);
      CleanUpCalls(s, g, op.a);
      FinishQuiet(CleanUp(s, g, op.a), g, op.added);
    }
  }

  /** Calls are only added. */
  lemma StepGrowsCalls(s: State, op: Op)
    requires Inv(s)
    ensures s.calls <= Step(s, op).state.calls
  {
    hide Inv, CleanUp, EndActive, Produce, BegunOutcome, TakenOutcome, FinishStep;
    match op
    case Create(_, _, _, _) =>
    case Close(token, a, _) =>
      if Resolves(s.feeds, token) {
        CleanUpCalls(s, Index(token), a);
      }
    case Produces(token, a, _, _, added) =>
      if Resolves(s.feeds, token) {
        CleanUpCalls(s, Index(token), a);
        FinishQuiet(CleanUp(s, Index(token), a), Index(token), added);
      }
    case Reserve(token, _, a, _, pointer, len, again, raises) =>
      if Resolves(s.feeds, token) {
        CleanUpCalls(s, Index(token), a);
        BegunGrowsCalls(CleanUp(s, Index(token), a), Index(token), token, pointer, len, again, raises);
      }
    case Finish(_, _, _, _, _, _, _) =>
      FinishGrowsCalls(s, op);
    case Drain(token, a, again, raises) =>
      if Resolves(s.feeds, token) {
        var c := CleanUp(s, Index(token), a);
        CleanUpCalls(s, Index(token), a);
        if StreamOf(c, Index(token)).queue != [] {
          TakenKeepsCalls(c, Index(token), token, again, raises);
        }
      }
    case Release(token, a, _) =>
      FeedNeverStale(s, token);
      if Resolves(s.spans, token) {
        CleanUpCalls(s, Index(At(s.spans, token).feed), a);
      }
  }

  // ---- The record is true of the native side ----

  /** The reservations that the native side has ended are those of which it accepted a call. */
  ghost predicate Truthful(s: State) {
    forall id: nat :: id in s.ended <==> EndedBy(s.calls, id)
  }

  /** Cleanup that is granted the cancel ends the pending reservation natively; nothing else of the kind changes. */
  lemma CleanUpEnds(s: State, f: nat, a: Answers)
    requires Inv(s) && Live(s.feeds, f)
    ensures s.feeds[f].content.pendingReservation ==> Resolves(s.reservations, s.feeds[f].content.reservationHandle)
    ensures CleanUp(s, f, a).ended
         == if s.feeds[f].content.pendingReservation && a.cancelled
            then s.ended + [At(s.reservations, s.feeds[f].content.reservationHandle).id] else s.ended
    ensures StreamOf(CleanUp(s, f, a), f).active
         == if s.feeds[f].content.pendingReservation && a.cancelled then None else StreamOf(s, f).active
  {
    assert FeedReservationOk(s, f);
    if s.feeds[f].content.pendingReservation {
      var h := s.feeds[f].content.reservationHandle;
      ResolvedToken(s.reservations, h);
      TokenResolves(s.feeds, f);
      assert ReservationOk(s, Index(h));
    }
  }

  /**
  A successful commit or cancel of any reservation token, delivered or not, ends exactly its own native
  reservation, which had not ended before, and uses the token up.
  */
  lemma FinishEndsOwn(s: State, t: nat, commits: bool, used: int, length: nat, a: Answers, native: Status,
                      added: seq<Info>)
    requires Inv(s) && Resolves(s.reservations, t)
    requires FinishStep(s, t, commits, used, length, a, native, added).reply == Just(Success)
    ensures var s' := FinishStep(s, t, commits, used, length, a, native, added).state;
            && s'.ended == s.ended + [At(s.reservations, t).id] && At(s.reservations, t).id !in s.ended
            && !Resolves(s'.reservations, t)
  {
    FeedNeverStale(s, t);
    var f := Index(At(s.reservations, t).feed);
    StandsNatively(s, t);
    CleanUpEnds(s, f, a);
    CleanUpSlots(s, f, a, Index(t));
    if s.feeds[f].content.pendingReservation {
      PendingIsOwn(s, t);
    }
    hide CleanUp, Inv;
    ProduceActive(CleanUp(s, f, a), f, added);
  }

  lemma StandsNatively(s: State, t: nat)
    requires Inv(s) && Resolves(s.reservations, t)
    ensures Resolves(s.feeds, At(s.reservations, t).feed)
    ensures StreamOf(s, Index(At(s.reservations, t).feed)).active == Some(At(s.reservations, t).id)
    ensures At(s.reservations, t).id !in s.ended
  {
    assert ReservationOk(s, Index(t));
    ResolvedToken(s.feeds, At(s.reservations, t).feed);
  }

  lemma ProduceActive(s: State, f: nat, added: seq<Info>)
    requires f < |s.feeds|
    ensures StreamOf(Produce(s, f, added), f).active == StreamOf(s, f).active
    ensures Produce(s, f, added).ended == s.ended
  {
  }

  lemma CleanUpKeepsTruth(s: State, f: nat, a: Answers)
    requires Inv(s) && Truthful(s) && Live(s.feeds, f)
    ensures Truthful(CleanUp(s, f, a))
  {
    CleanUpEnds(s, f, a);
    CleanUpCalls(s, f, a);
    if s.feeds[f].content.pendingReservation {
      AppendedCall(s.calls, EndCall(At(s.reservations, s.feeds[f].content.reservationHandle).id, Cleanup, 0, a.cancelled));
    }
    hide Inv, CleanUp, EndedBy;
  }

  lemma FinishKeepsTruth(s: State, op: Op)
    requires Inv(s) && Truthful(s) && op.Finish?
    ensures Truthful(Step(s, op).state)
  {
    hide Inv, CleanUp, EndedBy, Produce, EndActive;
    FeedNeverStale(s, op.token);
    if Resolves(s.reservations, op.token) {
      var r := At(s.reservations, op.token);
      var g := Index(r.feed);
      CleanUpKeepsTruth(s, g, op.a);
      CleanUpCalls(s, g, op.a);
      CleanUpEnds(s, g, op.a);
      var c := CleanUp(s, g, op.a);
      FinishQuiet(c, g, op.added);
      ProduceActive(c, g, op.added);
      CleanUpSlots(s, g, op.a, Index(op.token));
      if Reaches(s, op) {
        AppendedCall(c.calls, FinishCall(r, op));
        if s.feeds[g].content.pendingReservation {
          PendingIsOwn(s, op.token);
          AppendedCall(s.calls, EndCall(r.id, Cleanup, 0, op.a.cancelled));
        }
        if op.native == Success {
          FinishEndsOwn(s, op.token, op.commits, op.used, op.dataLength, op.a, op.native, op.added);
        }
      }
    }
  }

  lemma ReserveKeepsTruth(s: State, op: Op)
    requires Inv(s) && Truthful(s) && op.Reserve?
    ensures Truthful(Step(s, op).state)
  {
    hide Inv, CleanUp, EndedBy;
    if op.minimum >= 0 && Resolves(s.feeds, op.token) {
      var f := Index(op.token);
      CleanUpKeepsTruth(s, f, op.a);
      var c := CleanUp(s, f, op.a);
      AppendedCall(c.calls, EndCall(c.reserved, Cleanup, 0, op.again));
    }
  }

  lemma StepKeepsTruth(s: State, op: Op)
    requires Inv(s) && Truthful(s)
    ensures Truthful(Step(s, op).state)
  {
    hide Inv, CleanUp, EndedBy, Truthful, ReserveStep, FinishStep;
    var s' := Step(s, op).state;
    match op
    case Create(_, _, _, _) => SameRecord(s, s');
    case Close(token, a, _) =>
      if Resolves(s.feeds, token) {
        CleanUpKeepsTruth(s, Index(token), a);
        SameRecord(CleanUp(s, Index(token), a), s');
      }
    case Produces(token, a, _, _, added) =>
      if Resolves(s.feeds, token) {
        CleanUpKeepsTruth(s, Index(token), a);
        SameRecord(CleanUp(s, Index(token), a), s');
      }
    case Reserve(_, _, _, _, _, _, _, _) => ReserveKeepsTruth(s, op);
    case Finish(_, _, _, _, _, _, _) => FinishKeepsTruth(s, op);
    case Drain(token, a, _, _) =>
      if Resolves(s.feeds, token) {
        CleanUpKeepsTruth(s, Index(token), a);
        SameRecord(CleanUp(s, Index(token), a), s');
      }
    case Release(token, a, _) =>
      FeedNeverStale(s, token);
      if Resolves(s.spans, token) {
        CleanUpKeepsTruth(s, Index(At(s.spans, token).feed), a);
        SameRecord(CleanUp(s, Index(At(s.spans, token).feed), a), s');
      }
  }

  lemma SameRecord(s: State, s': State)
    requires Truthful(s) && s'.ended == s.ended && s'.calls == s.calls
    ensures Truthful(s')
  {
  }

  // ---- Runs ----

  /** Every call of the run asks once, in the state it is made in. */
  ghost predicate AllAskOnce(s: State, ops: seq<Op>)
    decreases |ops|
  {
    ops == [] || (AsksOnce(s, ops[0]) && AllAskOnce(Step(s, ops[0]).state, ops[1..]))
  }

  lemma InitialCalls(feeds: nat, spans: nat, reservations: nat)
    ensures var s := Initial(feeds, spans, reservations); CallsOk(s) && EndsOnce(s.calls) && Truthful(s)
  {
  }

  /** Over every run no reservation that stands in a slot has been ended, and calls are only added. */
  lemma {:induction false} RunKeepsCalls(s: State, ops: seq<Op>)
    requires Inv(s) && CallsOk(s) && Feasible(s, ops)
    ensures CallsOk(Run(s, ops)) && s.calls <= Run(s, ops).calls
    decreases |ops|
  {
    hide Inv, CallsOk, Step, Admissible;
    if ops != [] {
      StepKeepsInv(s, ops[0]);
      StepKeepsCalls(s, ops[0]);
      StepGrowsCalls(s, ops[0]);
      RunKeepsCalls(Step(s, ops[0]).state, ops[1..]);
    }
  }

  /** Over every run the native side has ended exactly the reservations of which it accepted a call. */
  lemma {:induction false} RunKeepsTruth(s: State, ops: seq<Op>)
    requires Inv(s) && Truthful(s) && Feasible(s, ops)
    ensures Truthful(Run(s, ops))
    decreases |ops|
  {
    hide Inv, Truthful, Step, Admissible;
    if ops != [] {
      StepKeepsInv(s, ops[0]);
      StepKeepsTruth(s, ops[0]);
      RunKeepsTruth(Step(s, ops[0]).state, ops[1..]);
    }
  }

  /**
  Over every run, whatever the native side answers and whatever allocations fail, no commit, cancel or
  cleanup follows an accepted one of the same reservation exactly when every call asks once.
  */
  lemma {:induction false} RunEndsOnceExactly(s: State, ops: seq<Op>)
    requires Inv(s) && CallsOk(s) && EndsOnce(s.calls) && Feasible(s, ops)
    ensures EndsOnce(Run(s, ops).calls) <==> AllAskOnce(s, ops)
    decreases |ops|
  {
    hide Inv, CallsOk, EndsOnce, Step, AsksOnce, Admissible;
    if ops != [] {
      var n := Step(s, ops[0]).state;
      StepKeepsInv(s, ops[0]);
      StepEndsOnceExactly(s, ops[0]);
      if AsksOnce(s, ops[0]) {
        RunEndsOnceExactly(n, ops[1..]);
      } else {
        RunKeepsCalls(n, ops[1..]);
        PrefixEndsOnce(n.calls, Run(n, ops[1..]).calls);
      }
    }
  }

  lemma PrefixEndsOnce(calls: seq<EndCall>, more: seq<EndCall>)
    requires calls <= more
    ensures EndsOnce(more) ==> EndsOnce(calls)
  {
    assert forall i :: 0 <= i < |calls| ==> calls[i] == more[i];
  }
}
