/**
How long a dead token stays dead. Over any run a slot's generation counts its allocations, so a token
whose slot was freed is rejected through the next 65534 allocations of that slot.
*/
module SpanFeedHandles {
  import opened Handles
  import opened Statuses
  import opened Slots
  import opened SpanFeedSpec
  import opened SpanFeedProofs
  import opened SpanFeedRuns

  // ---- One slot over a history of tables ----

  /** A slot keeps its generation: it is written at most, or freed. */
  predicate LeftOrFreed<T>(t: Table<T>, t': Table<T>, i: nat) {
    i < |t| && i < |t'| && t'[i].generation == t[i].generation && (t'[i].alive ==> t[i].alive)
  }

  /** In one call a slot is left or freed, or allocated once, perhaps freed before and perhaps freed again after. */
  predicate SlotMoves<T>(t: Table<T>, t': Table<T>, i: nat) {
    || LeftOrFreed(t, t', i)
    || (i < |t| && i < |t'| && t'[i].generation == AllocatedGeneration(t[i].generation))
  }

  ghost predicate Moving<T>(ts: seq<Table<T>>, i: nat)
    decreases |ts|
  {
    |ts| > 1 ==> SlotMoves(ts[0], ts[1], i) && Moving(ts[1..], i)
  }

  /** How often slot i is allocated along a history. */
  ghost function Turns<T>(ts: seq<Table<T>>, i: nat): nat
    requires Moving(ts, i)
    decreases |ts|
  {
    if |ts| <= 1 then 0 else (if LeftOrFreed(ts[0], ts[1], i) then 0 else 1) + Turns(ts[1..], i)
  }

  lemma {:induction false} TurnsCount<T>(ts: seq<Table<T>>, i: nat)
    requires ts != [] && Moving(ts, i) && i < |ts[0]|
    ensures i < |ts[|ts| - 1]|
    ensures ts[|ts| - 1][i].generation == GenerationAfter(ts[0][i].generation, Turns(ts, i))
    ensures Turns(ts, i) == 0 && ts[|ts| - 1][i].alive ==> ts[0][i].alive
    decreases |ts|
  {
    if |ts| > 1 {
      TurnsCount(ts[1..], i);
      if !LeftOrFreed(ts[0], ts[1], i) {
        var n := Turns(ts[1..], i);
        GenerationAfterAdds(ts[0][i].generation, 1, n);
        assert GenerationAfter(ts[0][i].generation, 0) == ts[0][i].generation;
        assert GenerationAfter(ts[0][i].generation, 1) == ts[1][i].generation;
      }
    }
  }

  /** A token resolves again only after its dead slot has been allocated 65535 times, or a multiple of that. */
  lemma DeadUntilWrapped<T>(ts: seq<Table<T>>, token: nat)
    requires ts != [] && Moving(ts, Index(token)) && 1 <= Generation(token) <= GENERATIONS
    requires 0 < Index(token) < |ts[0]|
    requires !ts[0][Index(token)].alive && ts[0][Index(token)].generation == Generation(token)
    ensures Resolves(ts[|ts| - 1], token)
            <==> Live(ts[|ts| - 1], Index(token)) && Turns(ts, Index(token)) % GENERATIONS == 0
    ensures Resolves(ts[|ts| - 1], token) ==> Turns(ts, Index(token)) >= GENERATIONS
  {
    TurnsCount(ts, Index(token));
    GenerationRecurs(Generation(token), Turns(ts, Index(token)));
  }

  /** At the end of the history the token is rejected, unless its slot was allocated 65535 times or more. */
  ghost predicate StaysDead<T>(ts: seq<Table<T>>, token: nat)
    requires ts != []
  {
    Moving(ts, Index(token)) && (Resolves(ts[|ts| - 1], token) ==> Turns(ts, Index(token)) >= GENERATIONS)
  }

  // ---- The tables over a run ----

  ghost function States(s: State, ops: seq<Op>): (r: seq<State>)
    ensures |r| == |ops| + 1 && r[0] == s && r[|ops|] == Run(s, ops)
    decreases |ops|
  {
    if ops == [] then [s] else [s] + States(Step(s, ops[0]).state, ops[1..])
  }

  ghost function FeedTables(s: State, ops: seq<Op>): (r: seq<Table<Feed>>)
    ensures |r| == |ops| + 1
  {
    var states := States(s, ops);
    seq(|states|, k requires 0 <= k < |states| => states[k].feeds)
  }

  ghost function SpanTables(s: State, ops: seq<Op>): (r: seq<Table<Span>>)
    ensures |r| == |ops| + 1
  {
    var states := States(s, ops);
    seq(|states|, k requires 0 <= k < |states| => states[k].spans)
  }

  ghost function ReservationTables(s: State, ops: seq<Op>): (r: seq<Table<Reservation>>)
    ensures |r| == |ops| + 1
  {
    var states := States(s, ops);
    seq(|states|, k requires 0 <= k < |states| => states[k].reservations)
  }

  lemma CleanUpFrees(s: State, g: nat, a: Answers, i: nat)
    requires g < |s.feeds|
    ensures |CleanUp(s, g, a).spans| == |s.spans| && |CleanUp(s, g, a).reservations| == |s.reservations|
    ensures i < |s.feeds| ==> LeftOrFreed(s.feeds, CleanUp(s, g, a).feeds, i)
    ensures i < |s.spans| ==> LeftOrFreed(s.spans, CleanUp(s, g, a).spans, i)
    ensures i < |s.reservations| ==> LeftOrFreed(s.reservations, CleanUp(s, g, a).reservations, i)
  {
    ClearSpanFrees(s, g, a.accepted, i);
    ClearReservationFrees(ClearSpan(s, g, a.accepted), g, a.cancelled, i);
    hide ClearSpan, ClearReservation;
  }

  lemma ClearSpanFrees(s: State, g: nat, accepted: bool, i: nat)
    requires g < |s.feeds|
    ensures var c := ClearSpan(s, g, accepted);
            && |c.spans| == |s.spans| && c.reservations == s.reservations
            && (i < |s.feeds| ==> LeftOrFreed(s.feeds, c.feeds, i))
            && (i < |s.spans| ==> LeftOrFreed(s.spans, c.spans, i))
  {
  }

  lemma ClearReservationFrees(s: State, g: nat, cancelled: bool, i: nat)
    requires g < |s.feeds|
    ensures var c := ClearReservation(s, g, cancelled);
            && c.spans == s.spans && |c.reservations| == |s.reservations|
            && (i < |s.feeds| ==> LeftOrFreed(s.feeds, c.feeds, i))
            && (i < |s.reservations| ==> LeftOrFreed(s.reservations, c.reservations, i))
  {
  }

  /** Every entry point moves each slot by at most one allocation. */
  lemma StepSlots(s: State, op: Op, i: nat)
    ensures AllMove(s, Step(s, op).state, i)
  {
    hide CleanUp, CreateStep, CloseStep, ReserveStep, FinishStep, DrainStep, ReleaseStep, Produce;
    match op
    case Create(_, _, _, _) => CreateSlots(s, op, i);
    case Close(_, _, _) => CloseSlots(s, op, i);
    case Produces(token, a, _, _, added) =>
      if Resolves(s.feeds, token) {
        CleanUpFrees(s, Index(token), a, i);
        QuietTables(CleanUp(s, Index(token), a), Index(token), added);
      }
    case Reserve(_, _, _, _, _, _, _, _) => ReserveSlots(s, op, i);
    case Finish(_, _, _, _, _, _, _) => FinishSlots(s, op, i);
    case Drain(_, _, _, _) => DrainSlots(s, op, i);
    case Release(_, _, _) => ReleaseSlots(s, op, i);
  }

  /** Slot i of each table, where it exists, moves as in one call. */
  predicate AllMove(s: State, s': State, i: nat) {
    && (i < |s.feeds| ==> SlotMoves(s.feeds, s'.feeds, i))
    && (i < |s.spans| ==> SlotMoves(s.spans, s'.spans, i))
    && (i < |s.reservations| ==> SlotMoves(s.reservations, s'.reservations, i))
  }

  lemma CreateSlots(s: State, op: Op, i: nat)
    requires op.Create?
    ensures AllMove(s, Step(s, op).state, i)
  {
  }

  lemma CloseSlots(s: State, op: Op, i: nat)
    requires op.Close?
    ensures AllMove(s, Step(s, op).state, i)
  {
    hide CleanUp;
    if Resolves(s.feeds, op.token) {
      CleanUpFrees(s, Index(op.token), op.a, i);
    }
  }

  lemma ReserveSlots(s: State, op: Op, i: nat)
    requires op.Reserve?
    ensures AllMove(s, Step(s, op).state, i)
  {
    hide CleanUp, BegunOutcome;
    if Resolves(s.feeds, op.token) {
      var c := CleanUp(s, Index(op.token), op.a);
      CleanUpFrees(s, Index(op.token), op.a, i);
      BegunSlots(c, Index(op.token), op.token, op.pointer, op.len, op.again, op.raises, i);
    }
  }

  lemma DrainSlots(s: State, op: Op, i: nat)
    requires op.Drain?
    ensures AllMove(s, Step(s, op).state, i)
  {
    hide CleanUp, TakenOutcome;
    if Resolves(s.feeds, op.token) {
      var c := CleanUp(s, Index(op.token), op.a);
      CleanUpFrees(s, Index(op.token), op.a, i);
      if StreamOf(c, Index(op.token)).queue != [] {
        TakenSlots(c, Index(op.token), op.token, op.again, op.raises, i);
      }
    }
  }

  lemma ReleaseSlots(s: State, op: Op, i: nat)
    requires op.Release?
    ensures AllMove(s, Step(s, op).state, i)
  {
    hide CleanUp;
    if Resolves(s.spans, op.token) && Resolves(s.feeds, At(s.spans, op.token).feed) {
      CleanUpFrees(s, Index(At(s.spans, op.token).feed), op.a, i);
    }
  }

  lemma FinishSlots(s: State, op: Op, i: nat)
    requires op.Finish?
    ensures AllMove(s, Step(s, op).state, i)
  {
    hide CleanUp, EndActive, Produce;
    if Resolves(s.reservations, op.token) && Resolves(s.feeds, At(s.reservations, op.token).feed) {
      var g := Index(At(s.reservations, op.token).feed);
      CleanUpFrees(s, g, op.a, i);
      QuietTables(CleanUp(s, g, op.a), g, op.added);
      QuietTables(Produce(CleanUp(s, g, op.a), g, op.added), g, op.added);
    }
  }

  lemma BegunSlots(c: State, f: nat, token: nat, pointer: nat, len: nat, again: bool, raises: bool, i: nat)
    requires f < |c.feeds|
    ensures var s' := BegunOutcome(c, f, token, pointer, len, again, raises).state;
            && s'.spans == c.spans && (i < |c.feeds| ==> LeftOrFreed(c.feeds, s'.feeds, i))
            && (i < |c.reservations| ==> SlotMoves(c.reservations, s'.reservations, i))
  {
    hide EndActive;
    QuietTables(BegunFeed(c, f), f, []);
  }

  lemma TakenSlots(c: State, f: nat, token: nat, again: bool, raises: bool, i: nat)
    requires f < |c.feeds| && StreamOf(c, f).queue != []
    ensures var s' := TakenOutcome(c, f, token, again, raises).state;
            && s'.reservations == c.reservations && (i < |c.feeds| ==> LeftOrFreed(c.feeds, s'.feeds, i))
            && (i < |c.spans| ==> SlotMoves(c.spans, s'.spans, i))
  {
    hide SourceOk;
  }

  lemma QuietTables(s: State, g: nat, added: seq<Info>)
    requires g < |s.feeds|
    ensures var p, e := Produce(s, g, added), EndActive(s, g);
            && p.spans == s.spans && p.reservations == s.reservations && p.feeds == s.feeds
            && e.spans == s.spans && e.reservations == s.reservations && e.feeds == s.feeds
  {
  }

  lemma {:induction false} RunMoves(s: State, ops: seq<Op>, i: nat)
    ensures i < |s.feeds| ==> Moving(FeedTables(s, ops), i)
    ensures i < |s.spans| ==> Moving(SpanTables(s, ops), i)
    ensures i < |s.reservations| ==> Moving(ReservationTables(s, ops), i)
    decreases |ops|
  {
    hide Step, States;
    if ops != [] {
      var n := Step(s, ops[0]).state;
      StepSlots(s, ops[0], i);
      RunMoves(n, ops[1..], i);
      TracesTail(s, ops);
    }
  }

  lemma TracesTail(s: State, ops: seq<Op>)
    requires ops != []
    ensures FeedTables(s, ops)[0] == s.feeds && FeedTables(s, ops)[1] == Step(s, ops[0]).state.feeds
    ensures FeedTables(s, ops)[1..] == FeedTables(Step(s, ops[0]).state, ops[1..])
    ensures SpanTables(s, ops)[0] == s.spans && SpanTables(s, ops)[1] == Step(s, ops[0]).state.spans
    ensures ReservationTables(s, ops)[0] == s.reservations
    ensures ReservationTables(s, ops)[1] == Step(s, ops[0]).state.reservations
    ensures SpanTables(s, ops)[1..] == SpanTables(Step(s, ops[0]).state, ops[1..])
    ensures ReservationTables(s, ops)[1..] == ReservationTables(Step(s, ops[0]).state, ops[1..])
  {
    hide Step;
    assert States(s, ops)[1..] == States(Step(s, ops[0]).state, ops[1..]);
  }

  /** The generation of every feed, span and reservation slot counts its allocations since the start. */
  lemma FreshTablesGeneration(feeds: nat, spans: nat, reservations: nat, ops: seq<Op>, i: nat)
    ensures var s := Initial(feeds, spans, reservations);
            && (i < feeds ==> Moving(FeedTables(s, ops), i) && i < |Run(s, ops).feeds|
                              && Run(s, ops).feeds[i].generation == Counted(Turns(FeedTables(s, ops), i)))
            && (i < spans ==> Moving(SpanTables(s, ops), i) && i < |Run(s, ops).spans|
                              && Run(s, ops).spans[i].generation == Counted(Turns(SpanTables(s, ops), i)))
            && (i < reservations ==>
                  Moving(ReservationTables(s, ops), i) && i < |Run(s, ops).reservations|
                  && Run(s, ops).reservations[i].generation == Counted(Turns(ReservationTables(s, ops), i)))
  {
    var s := Initial(feeds, spans, reservations);
    RunMoves(s, ops, i);
    TracesEnd(s, ops);
    hide Run, Moving, Turns, FeedTables, SpanTables, ReservationTables;
    if i < feeds {
      TurnsCount(FeedTables(s, ops), i);
      GenerationClosedForm(Turns(FeedTables(s, ops), i));
    }
    if i < spans {
      TurnsCount(SpanTables(s, ops), i);
      GenerationClosedForm(Turns(SpanTables(s, ops), i));
    }
    if i < reservations {
      TurnsCount(ReservationTables(s, ops), i);
      GenerationClosedForm(Turns(ReservationTables(s, ops), i));
    }
  }

  /** The generation after n allocations of a fresh slot. */
  function Counted(n: nat): nat {
    if n == 0 then 0 else (n - 1) % GENERATIONS + 1
  }

  /**
  After a successful close neither the feed's own token nor a span or reservation token of it resolves
  again until the slot of that token has been allocated 65535 more times, whatever feeds are opened in the meantime.
  */
  lemma ClosedTokensStayDead(s: State, feed: nat, a: Answers, ops: seq<Op>, t: nat)
    requires Inv(s) && Resolves(s.feeds, feed) && IdleAfterCleanUp(s, feed, a)
    ensures var s' := CloseStep(s, feed, a, Success).state;
            && StaysDead(FeedTables(s', ops), feed)
            && (Resolves(s.spans, t) && At(s.spans, t).feed == feed ==> StaysDead(SpanTables(s', ops), t))
            && (Resolves(s.reservations, t) && At(s.reservations, t).feed == feed ==>
                  StaysDead(ReservationTables(s', ops), t))
  {
    var s', i := CloseStep(s, feed, a, Success).state, Index(t);
    CloseKillsTokens(s, feed, a, Success);
    CloseAllocatesNothing(s, feed, a, i);
    RunMoves(s', ops, i);
    RunMoves(s', ops, Index(feed));
    CloseAllocatesNothing(s, feed, a, Index(feed));
    TracesEnd(s', ops);
    hide Inv, CloseStep, Run, Moving, LeftOrFreed, Step, IdleAfterCleanUp, WellFormed, StaysDead;
    hide FeedTables, SpanTables, ReservationTables;
    FreedStaysDead(s.feeds, FeedTables(s', ops), feed);
    if Resolves(s.spans, t) && At(s.spans, t).feed == feed {
      FreedStaysDead(s.spans, SpanTables(s', ops), t);
    }
    if Resolves(s.reservations, t) && At(s.reservations, t).feed == feed {
      FreedStaysDead(s.reservations, ReservationTables(s', ops), t);
    }
  }

  lemma TracesEnd(s: State, ops: seq<Op>)
    ensures FeedTables(s, ops)[0] == s.feeds && FeedTables(s, ops)[|ops|] == Run(s, ops).feeds
    ensures SpanTables(s, ops)[0] == s.spans && SpanTables(s, ops)[|ops|] == Run(s, ops).spans
    ensures ReservationTables(s, ops)[0] == s.reservations
    ensures ReservationTables(s, ops)[|ops|] == Run(s, ops).reservations
  {
  }

  lemma FreedStaysDead<T>(t: Table<T>, ts: seq<Table<T>>, token: nat)
    requires WellFormed(t) && Resolves(t, token) && ts != []
    requires LeftOrFreed(t, ts[0], Index(token)) && !Resolves(ts[0], token) && Moving(ts, Index(token))
    ensures StaysDead(ts, token)
  {
    DeadUntilWrapped(ts, token);
  }

  lemma CloseAllocatesNothing(s: State, feed: nat, a: Answers, i: nat)
    requires Inv(s) && Resolves(s.feeds, feed)
    ensures WellFormed(s.feeds) && WellFormed(s.spans) && WellFormed(s.reservations)
    ensures i < |s.feeds| ==> LeftOrFreed(s.feeds, CloseStep(s, feed, a, Success).state.feeds, i)
    ensures i < |s.spans| ==> LeftOrFreed(s.spans, CloseStep(s, feed, a, Success).state.spans, i)
    ensures i < |s.reservations| ==> LeftOrFreed(s.reservations, CloseStep(s, feed, a, Success).state.reservations, i)
  {
    CleanUpFrees(s, Index(feed), a, i);
    hide CleanUp;
  }
}
