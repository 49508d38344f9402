/**
Feeds whose native reservation is active with no slot left to end it: which calls strand a feed, exactly,
and that a stranded feed stays so.
*/
module SpanFeedStranding {
  import opened Handles
  import opened Lists
  import opened Statuses
  import opened Slots
  import opened SpanFeedSpec
  import opened SpanFeedProofs
  import opened SpanFeedRuns
  import opened SpanFeedCalls

  // ---- A refused cleanup cancel ----

  /** The native reservation of feed f is active, but no slot stands for it any more. */
  ghost predicate Stranded(s: State, token: nat) {
    && Resolves(s.feeds, token)
    && StreamOf(s, Index(token)).active.Some?
    && forall j :: Live(s.reservations, j) ==> s.reservations[j].content.feed != token
  }

  /** Cleanup strands a feed exactly when it had a pending reservation that the native side would not cancel. */
  lemma CleanUpStrands(s: State, token: nat, a: Answers)
    requires Inv(s) && Resolves(s.feeds, token) && !Stranded(s, token)
    ensures Stranded(CleanUp(s, Index(token), a), token)
            <==> s.feeds[Index(token)].content.pendingReservation && !a.cancelled
  {
    var f := Index(token);
    ResolvedToken(s.feeds, token);
    assert FeedReservationOk(s, f);
    if s.feeds[f].content.pendingReservation {
      var j := Index(s.feeds[f].content.reservationHandle);
      ResolvedToken(s.reservations, s.feeds[f].content.reservationHandle);
      assert ReservationOk(s, j);
      OneReservation(s, f, j);
    }
  }

  lemma CleanUpKeepsStranded(s: State, token: nat, g: nat, a: Answers)
    requires Inv(s) && Stranded(s, token) && Live(s.feeds, g)
    ensures Stranded(CleanUp(s, g, a), token)
  {
    var f := Index(token);
    ResolvedToken(s.feeds, token);
    assert FeedReservationOk(s, f);
    ClearSpanStranded(s, token, g, a.accepted);
    hide SpanSide, EndedOk, ReservationsOk, FeedReservationsOk, ClearSpan;
    EndActiveElsewhere(ClearSpan(s, g, a.accepted), g, f);
  }

  lemma ClearSpanStranded(s: State, token: nat, g: nat, accepted: bool)
    requires Stranded(s, token) && Live(s.feeds, g) && StreamsOk(s.feeds, s.native)
    ensures var c := ClearSpan(s, g, accepted);
            && Stranded(c, token) && StreamsOk(c.feeds, c.native)
            && c.native == s.native && c.reservations == s.reservations && |c.feeds| == |s.feeds|
            && (forall f :: 0 <= f < |s.feeds| ==>
                  && c.feeds[f].alive == s.feeds[f].alive && c.feeds[f].generation == s.feeds[f].generation
                  && c.feeds[f].content.stream == s.feeds[f].content.stream
                  && c.feeds[f].content.pendingReservation == s.feeds[f].content.pendingReservation
                  && c.feeds[f].content.reservationHandle == s.feeds[f].content.reservationHandle)
  {
  }

  lemma EndActiveElsewhere(s: State, g: nat, f: nat)
    requires Live(s.feeds, g) && Live(s.feeds, f) && StreamsOk(s.feeds, s.native)
    ensures g != f ==> StreamOf(EndActive(s, g), f) == StreamOf(s, f)
  {
  }

  /**
  One call leaves a stranded feed stranded, and is no successful reserve or close of it.
  */
  lemma StrandedStays(s: State, op: Op, token: nat)
    requires Inv(s) && Admissible(s, op) && Stranded(s, token)
    ensures Stranded(Step(s, op).state, token)
    ensures op.Close? && op.token == token ==> Step(s, op).reply.Reply? && Step(s, op).reply.status != Success
    ensures op.Reserve? && op.token == token ==>
              (Step(s, op).reply.Reply? ==> Step(s, op).reply.status != Success)
  {
    hide Inv, Stranded, CreateStep, CloseStep, ProduceStep, ReserveStep, FinishStep, DrainStep, ReleaseStep;
    match op
    case Create(_, _, _, _) => CreateKeepsStranded(s, op, token);
    case Close(_, _, _) => CloseKeepsStranded(s, op, token);
    case Produces(_, _, _, _, _) => ProducesKeepsStranded(s, op, token);
    case Reserve(_, _, _, _, _, _, _, _) => ReserveKeepsStranded(s, op, token);
    case Finish(_, _, _, _, _, _, _) => FinishKeepsStranded(s, op, token);
    case Drain(_, _, _, _) => DrainKeepsStranded(s, op, token);
    case Release(_, _, _) => ReleaseKeepsStranded(s, op, token);
  }

  /** Over every run a stranded feed stays stranded, and no reserve and no close of it ever succeeds. */
  lemma {:induction false} StrandedForEver(s: State, ops: seq<Op>, token: nat)
    requires Inv(s) && Feasible(s, ops) && Stranded(s, token)
    ensures Stranded(Run(s, ops), token) && NeverReserved(s, ops, token)
    decreases |ops|
  {
    hide Inv, Stranded, Step, Admissible;
    if ops != [] {
      StrandedStays(s, ops[0], token);
      StepKeepsInv(s, ops[0]);
      StrandedForEver(Step(s, ops[0]).state, ops[1..], token);
    }
  }

  /** No reserve and no close of the feed in the run is answered with success. */
  ghost predicate NeverReserved(s: State, ops: seq<Op>, token: nat)
    decreases |ops|
  {
    ops == []
    || (&& ((ops[0].Close? || ops[0].Reserve?) && ops[0].token == token ==>
              Step(s, ops[0]).reply.Raised? || Step(s, ops[0]).reply.status != Success)
        && NeverReserved(Step(s, ops[0]).state, ops[1..], token))
  }

  lemma ProducesKeepsStranded(s: State, op: Op, token: nat)
    requires Inv(s) && Stranded(s, token) && op.Produces?
    ensures Stranded(Step(s, op).state, token)
  {
    hide Inv, CleanUp, Stranded, Produce;
    if Resolves(s.feeds, op.token) {
      var g := Index(op.token);
      CleanUpKeepsStranded(s, token, g, op.a);
      CleanUpKeepsInv(s, g, op.a);
      ProduceKeepsStranded(CleanUp(s, g, op.a), g, op.added, token);
    }
  }

  lemma DrainKeepsStranded(s: State, op: Op, token: nat)
    requires Inv(s) && Stranded(s, token) && op.Drain?
    ensures Stranded(Step(s, op).state, token)
  {
    hide Inv, CleanUp;
    if Resolves(s.feeds, op.token) {
      CleanUpKeepsStranded(s, token, Index(op.token), op.a);
      CleanUpKeepsInv(s, Index(op.token), op.a);
    }
  }

  lemma ReleaseKeepsStranded(s: State, op: Op, token: nat)
    requires Inv(s) && Stranded(s, token) && op.Release?
    ensures Stranded(Step(s, op).state, token)
  {
    hide Inv, CleanUp;
    FeedNeverStale(s, op.token);
    if Resolves(s.spans, op.token) {
      CleanUpKeepsStranded(s, token, Index(At(s.spans, op.token).feed), op.a);
    }
  }

  lemma ProduceKeepsStranded(s: State, g: nat, added: seq<Info>, token: nat)
    requires Live(s.feeds, g) && Stranded(s, token)
    ensures Stranded(Produce(s, g, added), token)
  {
  }

  lemma CreateKeepsStranded(s: State, op: Op, token: nat)
    requires Inv(s) && Admissible(s, op) && Stranded(s, token) && op.Create?
    ensures Stranded(Step(s, op).state, token)
  {
    ResolvedToken(s.feeds, token);
    hide SpanSide, EndedOk, ReservationsOk, FeedReservationsOk;
    assert s.feeds[Index(token)].content.stream in s.native;
  }

  lemma CloseKeepsStranded(s: State, op: Op, token: nat)
    requires Inv(s) && Admissible(s, op) && Stranded(s, token) && op.Close?
    ensures Stranded(Step(s, op).state, token)
    ensures op.token == token ==> Step(s, op).reply.Reply? && Step(s, op).reply.status != Success
  {
    hide Inv, CleanUp, Closed;
    if Resolves(s.feeds, op.token) {
      var f, g := Index(token), Index(op.token);
      ResolvedToken(s.feeds, token);
      ResolvedToken(s.feeds, op.token);
      CleanUpKeepsStranded(s, token, g, op.a);
      CleanUpKeepsInv(s, g, op.a);
      CloseKeepsInv(s, op.token, op.a, op.native);
      if op.native == Success {
        ClosedKeepsStranded(CleanUp(s, g, op.a), g, token);
      }
    }
  }

  lemma ClosedKeepsStranded(s: State, g: nat, token: nat)
    requires Inv(s) && Live(s.feeds, g) && Stranded(s, token) && StreamOf(s, g).active.None?
    ensures g != Index(token) && Stranded(Closed(s, g), token)
  {
    StreamsApart(s, g, Index(token));
    hide Inv;
    ResolvedToken(s.feeds, token);
  }

  lemma StreamsApart(s: State, g: nat, f: nat)
    requires Inv(s) && Live(s.feeds, g)
    ensures Live(s.feeds, f) ==>
              s.feeds[f].content.stream in s.native
              && (g != f ==> s.feeds[f].content.stream != s.feeds[g].content.stream)
  {
  }

  lemma ReserveKeepsStranded(s: State, op: Op, token: nat)
    requires Inv(s) && Admissible(s, op) && Stranded(s, token) && op.Reserve?
    ensures Stranded(Step(s, op).state, token)
    ensures op.token == token ==> (Step(s, op).reply.Reply? ==> Step(s, op).reply.status != Success)
  {
    hide Inv, CleanUp;
    if op.minimum >= 0 && Resolves(s.feeds, op.token) {
      var f, g := Index(token), Index(op.token);
      ResolvedToken(s.feeds, token);
      ResolvedToken(s.feeds, op.token);
      CleanUpKeepsStranded(s, token, g, op.a);
      CleanUpKeepsInv(s, g, op.a);
      var c := CleanUp(s, g, op.a);
      StreamsApart(c, g, f);
      if op.native == Success {
        assert g != f;
      }
    }
  }

  lemma EndKeepsStranded(s: State, g: nat, j: nat, token: nat)
    requires Inv(s) && Live(s.feeds, g) && j < |s.reservations| && Stranded(s, token) && g != Index(token)
    ensures var e := EndActive(s, g);
            Stranded(e.(reservations := Kill(e.reservations, j, e.reservations[j].content.(feed := 0))), token)
  {
    StreamsApart(s, g, Index(token));
  }

  lemma FinishKeepsStranded(s: State, op: Op, token: nat)
    requires Inv(s) && Admissible(s, op) && Stranded(s, token) && op.Finish?
    ensures Stranded(Step(s, op).state, token)
  {
    hide Inv, CleanUp, Stranded, Produce, EndActive;
    FeedNeverStale(s, op.token);
    if Resolves(s.reservations, op.token) {
      var g := Index(At(s.reservations, op.token).feed);
      ReservedElsewhere(s, op.token, token);
      CleanUpKeepsStranded(s, token, g, op.a);
      CleanUpKeepsInv(s, g, op.a);
      CleanUpSlots(s, g, op.a, Index(op.token));
      CleanUpIssues(s, g, op.a);
      var c := CleanUp(s, g, op.a);
      if op.commits {
        ProduceKeepsInv(c, g, op.added);
        ProduceKeepsStranded(c, g, op.added, token);
        ProduceTables(c, g, op.added);
      }
      var p, j := if op.commits then Produce(c, g, op.added) else c, Index(op.token);
      EndKeepsStranded(p, g, j, token);
      EndActiveTables(p, g);
      var e, calls := EndActive(p, g), Step(s, op).state.calls;
      StrandedUnread(p, calls, token);
      StrandedUnread(e.(reservations := Kill(e.reservations, j, e.reservations[j].content.(feed := 0))), calls, token);
    }
  }

  lemma StrandedUnread(s: State, calls: seq<EndCall>, token: nat)
    ensures Stranded(s.(calls := calls), token) <==> Stranded(s, token)
  {
  }

  lemma ProduceTables(s: State, g: nat, added: seq<Info>)
    requires g < |s.feeds|
    ensures Produce(s, g, added).reservations == s.reservations && Produce(s, g, added).feeds == s.feeds
  {
  }

  lemma ReservedElsewhere(s: State, t: nat, token: nat)
    requires Inv(s) && Stranded(s, token) && Resolves(s.reservations, t)
    ensures Resolves(s.feeds, At(s.reservations, t).feed) && Index(At(s.reservations, t).feed) != Index(token)
  {
    FeedNeverStale(s, t);
    ResolvedToken(s.feeds, token);
    ResolvedToken(s.feeds, At(s.reservations, t).feed);
  }

  // ---- Which calls strand a feed ----

  /** The feed that a call cleans up, by its token. */
  function Cleaned(s: State, op: Op): (t: Option<nat>)
    ensures t.Some? ==> !op.Create?
  {
    match op
    case Create(_, _, _, _) => None
    case Close(token, _, _) => if Resolves(s.feeds, token) then Some(token) else None
    case Produces(token, _, _, _, _) => if Resolves(s.feeds, token) then Some(token) else None
    case Reserve(token, minimum, _, _, _, _, _, _) =>
      if minimum >= 0 && Resolves(s.feeds, token) then Some(token) else None
    case Finish(token, commits, used, dataLength, _, _, _) =>
      if Resolves(s.reservations, token)
         && (commits ==> 0 <= used <= At(s.reservations, token).len && used <= dataLength)
      then Some(At(s.reservations, token).feed) else None
    case Drain(token, _, _, _) => if Resolves(s.feeds, token) then Some(token) else None
    case Release(token, _, _) => if Resolves(s.spans, token) then Some(At(s.spans, token).feed) else None
  }

  /** The cleanup before the call is refused the cancel of this feed's pending reservation. */
  predicate CancelRefused(s: State, op: Op, token: nat) {
    Cleaned(s, op) == Some(token) && Resolves(s.feeds, token)
    && s.feeds[Index(token)].content.pendingReservation && !op.a.cancelled
  }

  /** The call is a commit or cancel that the native side then grants. */
  predicate Settles(s: State, op: Op) {
    Reaches(s, op) && op.native == Success
  }

  /** A reserve on this feed succeeds natively, finds no slot, and is refused the cancel. */
  predicate NoRoom(s: State, op: Op, token: nat) {
    && op.Reserve? && Cleaned(s, op) == Some(token) && token == op.token
    && op.native == Success && !op.again
    && FirstFree(CleanUp(s, Index(token), op.a).reservations, 1) >= |s.reservations|
  }

  /** Stranding reads the feeds' identities, the active reservations and the reservation slots. */
  lemma StrandingFrame(c: State, s': State, token: nat)
    requires s'.reservations == c.reservations && SameActive(c.native, s'.native) && |s'.feeds| == |c.feeds|
    requires forall f :: 0 <= f < |c.feeds| ==>
               && s'.feeds[f].alive == c.feeds[f].alive && s'.feeds[f].generation == c.feeds[f].generation
               && s'.feeds[f].content.stream == c.feeds[f].content.stream
    ensures Stranded(s', token) <==> Stranded(c, token)
  {
  }

  /** Cleanup strands the feed whose pending reservation it fails to cancel, and no other; it unstrands none. */
  lemma CleanUpStrandsExactly(s: State, g: nat, a: Answers, token: nat)
    requires Inv(s) && Live(s.feeds, g)
    ensures Stranded(CleanUp(s, g, a), token)
            <==> Stranded(s, token)
                 || (token == Token(s.feeds, g) && s.feeds[g].content.pendingReservation && !a.cancelled)
  {
    TokenResolves(s.feeds, g);
    if Stranded(s, token) {
      CleanUpKeepsStranded(s, token, g, a);
    } else if token == Token(s.feeds, g) {
      CleanUpStrands(s, token, a);
    } else if Stranded(CleanUp(s, g, a), token) {
      CleanUpStrandsNoOther(s, g, a, token);
    }
  }

  lemma CleanUpStrandsNoOther(s: State, g: nat, a: Answers, token: nat)
    requires Inv(s) && Live(s.feeds, g) && token != Token(s.feeds, g) && Stranded(CleanUp(s, g, a), token)
    ensures Stranded(s, token)
  {
    var c := CleanUp(s, g, a);
    ResolvedToken(c.feeds, token);
    CleanUpActive(s, g, a, Index(token));
    CleanUpIdentities(s, g, a);
    assert FeedReservationOk(s, g);
    hide SpanSide, EndedOk, CleanUp;
    forall j | Live(s.reservations, j)
      ensures s.reservations[j].content.feed != token
    {
      CleanUpFreesOwn(s, g, a, j);
    }
  }

  lemma CleanUpIdentities(s: State, g: nat, a: Answers)
    requires g < |s.feeds|
    ensures var c := CleanUp(s, g, a);
            |c.feeds| == |s.feeds| && forall f :: 0 <= f < |s.feeds| ==>
              && c.feeds[f].alive == s.feeds[f].alive && c.feeds[f].generation == s.feeds[f].generation
              && c.feeds[f].content.stream == s.feeds[f].content.stream
  {
  }

  /** Cleanup frees only reservation slots of its own feed. */
  lemma CleanUpFreesOwn(s: State, g: nat, a: Answers, j: nat)
    requires Inv(s) && Live(s.feeds, g) && Live(s.reservations, j)
    ensures s.reservations[j].content.feed != Token(s.feeds, g) ==>
              Live(CleanUp(s, g, a).reservations, j) && CleanUp(s, g, a).reservations[j] == s.reservations[j]
  {
    assert FeedReservationOk(s, g);
  }

  lemma CleanUpActive(s: State, g: nat, a: Answers, f: nat)
    requires Inv(s) && Live(s.feeds, g) && Live(s.feeds, f) && f != g
    ensures StreamOf(CleanUp(s, g, a), f) == StreamOf(s, f)
  {
  }

  lemma ReservedFeed(s: State, t: nat)
    requires Inv(s) && Resolves(s.reservations, t)
    ensures var token := At(s.reservations, t).feed;
            && Resolves(s.feeds, token) && Token(s.feeds, Index(token)) == token
            && !Stranded(s, token)
  {
    FeedNeverStale(s, t);
    ResolvedToken(s.feeds, At(s.reservations, t).feed);
  }

  lemma QuietStrands(c: State, g: nat, added: seq<Info>, token: nat)
    requires g < |c.feeds| && c.feeds[g].content.stream in c.native
    ensures Stranded(Produce(c, g, added), token) <==> Stranded(c, token)
  {
    StrandingFrame(c, Produce(c, g, added), token);
  }

  lemma CloseStrands(c: State, g: nat, token: nat)
    requires Inv(c) && Live(c.feeds, g) && StreamOf(c, g).active.None?
    ensures Stranded(Closed(c, g), token) <==> Stranded(c, token)
  {
    if Stranded(c, token) {
      ClosedKeepsStranded(c, g, token);
    }
    if Stranded(Closed(c, g), token) {
      ResolvedToken(Closed(c, g).feeds, token);
      StreamsApart(c, g, Index(token));
    }
  }

  lemma CreateStrands(s: State, op: Op, token: nat)
    requires Inv(s) && Admissible(s, op) && op.Create?
    ensures Stranded(Step(s, op).state, token) <==> Stranded(s, token)
  {
    if Stranded(s, token) {
      CreateKeepsStranded(s, op, token);
    }
    var s' := Step(s, op).state;
    if Stranded(s', token) {
      ResolvedToken(s'.feeds, token);
    }
  }

  lemma ReserveStrands(c: State, op: Op, token: nat)
    requires Inv(c) && op.Reserve? && Resolves(c.feeds, op.token) && Clear(c, Index(op.token))
    requires StreamOf(c, Index(op.token)).active.None?
    ensures var s' := BegunOutcome(c, Index(op.token), op.token, op.pointer, op.len, op.again, op.raises).state;
            Stranded(s', token)
            <==> Stranded(c, token)
                 || (token == op.token && !op.again && FirstFree(c.reservations, 1) >= |c.reservations|)
  {
    var g := Index(op.token);
    var s' := BegunOutcome(c, g, op.token, op.pointer, op.len, op.again, op.raises).state;
    ResolvedToken(c.feeds, op.token);
    BegunElsewhere(c, g, op, Index(token));
    var i := FirstFree(c.reservations, 1);
    if Resolves(c.feeds, token) {
      ResolvedToken(c.feeds, token);
    }
    IdleHasNoReservation(c, g);
    if i < |c.reservations| {
      assert Live(s'.reservations, i) && s'.reservations[i].content.feed == op.token;
    }
    hide Inv, BegunOutcome;
    assert Resolves(s'.feeds, token) <==> Resolves(c.feeds, token);
  }

  /** A reserve begun on one feed leaves every other feed's active reservation and slots alone. */
  lemma BegunElsewhere(c: State, g: nat, op: Op, f: nat)
    requires Inv(c) && op.Reserve? && Live(c.feeds, g)
    ensures var s' := BegunOutcome(c, g, op.token, op.pointer, op.len, op.again, op.raises).state;
            var i := FirstFree(c.reservations, 1);
            && |s'.feeds| == |c.feeds|
            && (f < |c.feeds| ==> s'.feeds[f].alive == c.feeds[f].alive && s'.feeds[f].generation == c.feeds[f].generation)
            && (Live(c.feeds, f) && f != g ==> StreamOf(s', f) == StreamOf(c, f))
            && (i < |c.reservations| ==>
                  |s'.reservations| == |c.reservations|
                  && forall j :: 0 <= j < |c.reservations| && j != i ==> s'.reservations[j] == c.reservations[j])
            && (i >= |c.reservations| ==>
                  s'.reservations == c.reservations && StreamOf(s', g).active == if op.again then None else Some(c.reserved))
  {
    if Live(c.feeds, f) {
      StreamsApart(c, g, f);
    }
  }

  /** A granted commit or cancel leaves its feed idle, and every other feed alone. */
  lemma SettledStrands(p: State, g: nat, j: nat, calls: seq<EndCall>, token: nat)
    requires Inv(p) && Live(p.feeds, g) && j < |p.reservations|
    requires Live(p.reservations, j) ==> p.reservations[j].content.feed == Token(p.feeds, g)
    ensures var e := EndActive(p, g);
            && j < |e.reservations|
            && (Stranded(e.(reservations := Kill(e.reservations, j, e.reservations[j].content.(feed := 0)),
                            calls := calls), token)
                <==> Stranded(p, token) && token != Token(p.feeds, g))
  {
    TokenResolves(p.feeds, g);
    EndActiveTables(p, g);
    if Resolves(p.feeds, token) {
      ResolvedToken(p.feeds, token);
      StreamsApart(p, g, Index(token));
      EndActiveElsewhere(p, g, Index(token));
      EndedHere(p, g);
    }
    hide Inv, EndActive;
    var e := EndActive(p, g);
    var s' := e.(reservations := Kill(e.reservations, j, e.reservations[j].content.(feed := 0)), calls := calls);
    assert forall k :: Live(s'.reservations, k) <==> Live(p.reservations, k) && k != j;
    assert forall k :: Live(s'.reservations, k) ==> s'.reservations[k] == p.reservations[k];
    if Stranded(s', token) && token != Token(p.feeds, g) {
      forall k | Live(p.reservations, k)
        ensures p.reservations[k].content.feed != token
      {
        assert k != j ==> Live(s'.reservations, k);
      }
    }
  }

  lemma EndedHere(p: State, g: nat)
    requires Inv(p) && Live(p.feeds, g)
    ensures StreamOf(EndActive(p, g), g).active.None?
    ensures EndActive(p, g).feeds == p.feeds
  {
  }

  lemma FinishStrands(s: State, op: Op, token: nat)
    requires Inv(s) && Admissible(s, op) && op.Finish?
    ensures Stranded(Step(s, op).state, token)
            <==> Stranded(s, token) || (CancelRefused(s, op, token) && !Settles(s, op))
  {
    hide Inv, CleanUp, Stranded, Produce, EndActive;
    FeedNeverStale(s, op.token);
    if Resolves(s.reservations, op.token) && Cleaned(s, op).Some? {
      var t, j := At(s.reservations, op.token).feed, Index(op.token);
      var g := Index(t);
      ReservedFeed(s, op.token);
      CleanUpStrandsExactly(s, g, op.a, token);
      CleanUpKeepsInv(s, g, op.a);
      CleanUpSlots(s, g, op.a, j);
      CleanUpIssues(s, g, op.a);
      var c, calls := CleanUp(s, g, op.a), Step(s, op).state.calls;
      StreamsKnown(c, g);
      QuietStrands(c, g, op.added, token);
      ProduceTables(c, g, op.added);
      CleanUpIdentities(s, g, op.a);
      var p := if op.commits then Produce(c, g, op.added) else c;
      if op.commits {
        ProduceKeepsInv(c, g, op.added);
      }
      StrandedUnread(p, calls, token);
      SettledStrands(p, g, j, calls, token);
    }
  }

  lemma StreamsKnown(s: State, f: nat)
    requires Inv(s) && Live(s.feeds, f)
    ensures s.feeds[f].content.stream in s.native
  {
  }

  /**
  A call leaves a feed stranded exactly when it was so before, or the cleanup made for the call is refused
  the cancel of the feed's pending reservation and the call is not itself a granted commit or cancel, or a
  reserve finds the reservation table full and is refused the cancel.
  */
  lemma StepStrandsExactly(s: State, op: Op, token: nat)
    requires Inv(s) && Admissible(s, op)
    ensures Stranded(Step(s, op).state, token)
            <==> || Stranded(s, token)
                 || (CancelRefused(s, op, token) && !Settles(s, op))
                 || NoRoom(s, op, token)
  {
    hide Inv, CleanUp, Stranded, Closed, Produce, CloseStep, ReserveStep, FinishStep, BegunOutcome;
    match op
    case Create(_, _, _, _) => CreateStrands(s, op, token);
    case Close(t, a, native) =>
      CloseCases(s, op);
      if Resolves(s.feeds, t) {
        Cleans(s, t, a, token);
        if native == Success {
          CloseStrands(CleanUp(s, Index(t), a), Index(t), token);
          SettledFirst(s, t, a);
        }
      }
    case Produces(t, a, _, _, added) =>
      if Resolves(s.feeds, t) {
        Cleans(s, t, a, token);
        StreamsKnown(CleanUp(s, Index(t), a), Index(t));
        QuietStrands(CleanUp(s, Index(t), a), Index(t), added, token);
      }
    case Reserve(t, minimum, a, native, _, _, _, _) =>
      ReserveCases(s, op);
      if minimum >= 0 && Resolves(s.feeds, t) {
        Cleans(s, t, a, token);
        if native == Success {
          ReserveStrands(CleanUp(s, Index(t), a), op, token);
          SettledFirst(s, t, a);
        }
      }
    case Finish(_, _, _, _, _, _, _) => FinishStrands(s, op, token);
    case Drain(t, a, again, raises) =>
      if Resolves(s.feeds, t) {
        Cleans(s, t, a, token);
        DrainStrands(CleanUp(s, Index(t), a), Index(t), t, again, raises, token);
      }
    case Release(t, a, native) =>
      FeedNeverStale(s, t);
      if Resolves(s.spans, t) {
        Cleans(s, At(s.spans, t).feed, a, token);
        ReleaseStrands(s, op, token);
      }
  }

  lemma Cleans(s: State, t: nat, a: Answers, token: nat)
    requires Inv(s) && Resolves(s.feeds, t)
    ensures var c := CleanUp(s, Index(t), a);
            && Inv(c) && Clear(c, Index(t)) && Resolves(c.feeds, t) && Live(c.feeds, Index(t))
            && |c.reservations| == |s.reservations| && Token(s.feeds, Index(t)) == t
            && (Stranded(c, token)
                <==> Stranded(s, token)
                     || (token == t && s.feeds[Index(t)].content.pendingReservation && !a.cancelled))
  {
    ResolvedToken(s.feeds, t);
    CleanUpKeepsInv(s, Index(t), a);
    CleanUpStrandsExactly(s, Index(t), a, token);
    CleanUpIdentities(s, Index(t), a);
    CleanUpSlots(s, Index(t), a, 0);
  }

  /** A feed that is idle after cleanup was not refused a cancel. */
  lemma SettledFirst(s: State, t: nat, a: Answers)
    requires Inv(s) && Resolves(s.feeds, t) && IdleAfterCleanUp(s, t, a)
    ensures s.feeds[Index(t)].content.pendingReservation ==> a.cancelled
  {
    ResolvedToken(s.feeds, t);
    CleanUpEnds(s, Index(t), a);
    if s.feeds[Index(t)].content.pendingReservation {
      var h := s.feeds[Index(t)].content.reservationHandle;
      StandsNatively(s, h);
      PendingFeed(s, Index(t));
    }
  }

  lemma PendingFeed(s: State, f: nat)
    requires Inv(s) && Live(s.feeds, f) && s.feeds[f].content.pendingReservation
    ensures Resolves(s.reservations, s.feeds[f].content.reservationHandle)
    ensures At(s.reservations, s.feeds[f].content.reservationHandle).feed == Token(s.feeds, f)
    ensures Index(Token(s.feeds, f)) == f
  {
    assert FeedReservationOk(s, f);
    TokenResolves(s.feeds, f);
  }

  lemma CloseCases(s: State, op: Op)
    requires Inv(s) && Admissible(s, op) && op.Close?
    ensures var s' := Step(s, op).state;
            if !Resolves(s.feeds, op.token) then s' == s
            else if op.native != Success then s' == CleanUp(s, Index(op.token), op.a)
            else s' == Closed(CleanUp(s, Index(op.token), op.a), Index(op.token))
  {
    hide Inv, CleanUp, Closed;
    CloseKeepsInv(s, op.token, op.a, op.native);
  }

  lemma ReserveCases(s: State, op: Op)
    requires op.Reserve?
    ensures var s' := Step(s, op).state;
            if op.minimum < 0 || !Resolves(s.feeds, op.token) then s' == s
            else
              var c := CleanUp(s, Index(op.token), op.a);
              if op.native != Success then s' == c
              else s' == BegunOutcome(c, Index(op.token), op.token, op.pointer, op.len, op.again, op.raises).state
  {
    hide CleanUp, BegunOutcome;
  }

  lemma DrainStrands(c: State, g: nat, t: nat, again: bool, raises: bool, token: nat)
    requires g < |c.feeds| && c.feeds[g].alive
    requires Inv(c)
    ensures StreamOf(c, g).queue != [] ==>
              (Stranded(TakenOutcome(c, g, t, again, raises).state, token) <==> Stranded(c, token))
  {
    if StreamOf(c, g).queue != [] {
      if g > 0 {
        StreamsKnown(c, g);
      }
      StrandingFrame(c, TakenOutcome(c, g, t, again, raises).state, token);
    }
  }

  lemma ReleaseStrands(s: State, op: Op, token: nat)
    requires op.Release? && Resolves(s.spans, op.token) && Resolves(s.feeds, At(s.spans, op.token).feed)
    ensures Stranded(Step(s, op).state, token)
            <==> Stranded(CleanUp(s, Index(At(s.spans, op.token).feed), op.a), token)
  {
    hide CleanUp;
    CleanUpSlots(s, Index(At(s.spans, op.token).feed), op.a, Index(op.token));
    StrandingFrame(CleanUp(s, Index(At(s.spans, op.token).feed), op.a), Step(s, op).state, token);
  }

  // ---- Room for every reservation ----

  /**
  With at least as many reservation slots as feed slots an idle feed always finds a free one: every live
  reservation stands for the one active reservation of its own live feed.
  */
  lemma RoomToReserve(s: State, f: nat)
    requires Inv(s) && Live(s.feeds, f) && StreamOf(s, f).active.None? && |s.reservations| >= |s.feeds|
    ensures FirstFree(s.reservations, 1) < |s.reservations|
  {
    var n := |s.reservations|;
    AllocateFresh(s.reservations, Reservation(0, 0, 0, 0));
    if FirstFree(s.reservations, 1) >= n {
      var feeds: seq<nat> := seq(n, j requires 0 <= j < n => if j == 0 then f else Index(s.reservations[j].content.feed));
      forall j | 0 <= j < n
        ensures 1 <= feeds[j] < |s.feeds|
        ensures j > 0 ==> feeds[j] != f
      {
        if j > 0 {
          assert ReservationOk(s, j);
        }
      }
      forall i, j | 0 <= i < j < n
        ensures feeds[i] != feeds[j]
      {
        if i > 0 {
          assert ReservationOk(s, i) && ReservationOk(s, j);
          ResolvedToken(s.feeds, s.reservations[i].content.feed);
          ResolvedToken(s.feeds, s.reservations[j].content.feed);
        }
      }
      Pigeonhole(feeds, |s.feeds|);
    }
  }

  /** So the full-table exit of reserve is unreachable then, and only a refused cancel strands a feed. */
  lemma NoRoomUnreachable(s: State, op: Op, token: nat)
    requires Inv(s) && Admissible(s, op) && |s.reservations| >= |s.feeds|
    ensures !NoRoom(s, op, token)
  {
    if op.Reserve? && Cleaned(s, op) == Some(token) && op.native == Success {
      var g := Index(token);
      Cleans(s, token, op.a, token);
      CleanUpIdentities(s, g, op.a);
      hide Inv, CleanUp;
      RoomToReserve(CleanUp(s, g, op.a), g);
    }
  }
}
