/** Short runs on the smallest tables, one for each way the span-feed tables can go wrong. */
module SpanFeedExamples {
  import opened Statuses
  import opened Slots
  import opened SpanFeedSpec
  import opened SpanFeedProofs
  import opened SpanFeedRuns
  import opened SpanFeedCalls
  import opened SpanFeedStranding
  import opened SpanFeedLosses

  const YES := Answers(true, true)
  const NO := Answers(true, false)
  const SPAN := Info(5, 0, 0, 0, [])
  /** The token of slot 1 in its first generation. */
  const TOKEN: nat := 0x1_0001

  /** One open feed, after one span was produced. */
  function Opened(): State {
    Step(Step(Initial(2, 2, 2), Op.Create(true, 7, Success, false)).state,
         Op.Produces(TOKEN, YES, false, Success, [SPAN])).state
  }

  function OpenFeed(feed: Feed): Table<Feed> {
    [Slot(0, false, NO_FEED), Slot(1, true, feed)]
  }

  lemma OpenedIs()
    ensures var s := Opened();
            && s == Initial(2, 2, 2).(feeds := OpenFeed(NO_FEED.(stream := 7)),
                                      native := map[7 := Stream([SPAN], None)], issued := {5})
            && Resolves(s.feeds, TOKEN)
  {
    var c := Step(Initial(2, 2, 2), Op.Create(true, 7, Success, false)).state;
    assert FirstFree(Initial(2, 2, 2).feeds, 1) == 1;
    assert c.feeds == OpenFeed(NO_FEED.(stream := 7));
    assert Resolves(c.feeds, TOKEN);
    assert (set k | 0 <= k < |[SPAN]| :: [SPAN][k].id) == {5} by {
      assert [SPAN][0].id == 5;
    }
    assert c.native == map[7 := Stream([], None)] && StreamOf(c, 1) == Stream([], None);
    assert [] + [SPAN] == [SPAN];
    assert CleanUp(c, 1, YES) == c;
    assert Opened().native == map[7 := Stream([SPAN], None)];
  }

  /** After a drain whose answer could not be allocated: the span is in its slot and pending. */
  lemma DrainedIs()
    ensures var s := Step(Opened(), Op.Drain(TOKEN, YES, true, true)).state;
            && s.spans == [Slot(0, false, Span(0, NO_INFO)), Slot(1, true, Span(TOKEN, SPAN))]
            && s.feeds == OpenFeed(Feed(7, true, TOKEN, SPAN, false, 0))
            && s.offers == [] && s.place == map[5 := Pending(1)]
            && Resolves(s.spans, TOKEN) && Resolves(s.feeds, TOKEN)
  {
    OpenedIs();
    var o := Opened();
    assert FirstFree(o.spans, 1) == 1;
    var s := Step(o, Op.Drain(TOKEN, YES, true, true)).state;
    assert s.spans == [Slot(0, false, Span(0, NO_INFO)), Slot(1, true, Span(TOKEN, SPAN))];
  }

  /** A drain whose answer could not be allocated, and a release of the token it never delivered. */
  lemma PendingReleaseOffersTwice()
    ensures var s := Step(Opened(), Op.Drain(TOKEN, YES, true, true)).state;
            && !Proper(s, Op.Release(TOKEN, YES, Success))
            && Step(s, Op.Release(TOKEN, YES, Success)).state.offers == [Offer(5, true, true), Offer(5, true, false)]
            && !OffersOnce(Step(s, Op.Release(TOKEN, YES, Success)).state.offers)
  {
    OpenedIs();
    var o := Opened();
    DrainedIs();
    var s := Step(o, Op.Drain(TOKEN, YES, true, true)).state;
    assert Resolves(s.spans, TOKEN) && Resolves(s.feeds, TOKEN) && s.offers == [];
    var offers := Step(s, Op.Release(TOKEN, YES, Success)).state.offers;
    assert offers == [Offer(5, true, true), Offer(5, true, false)];
    assert offers[0].id == offers[1].id && Retires(offers[0]);
  }

  /** A drain whose answer could not be allocated, and a next call whose cleanup is refused the span. */
  lemma RefusedCleanUpLosesSpan()
    ensures var s := Step(Opened(), Op.Drain(TOKEN, YES, true, true)).state;
            var op := Op.Produces(TOKEN, Answers(false, true), true, Success, []);
            !Lost(s, 5) && CleanUpLoses(s, op, 5) && Lost(Step(s, op).state, 5)
  {
    OpenedIs();
    var o := Opened();
    DrainedIs();
    var s := Step(o, Op.Drain(TOKEN, YES, true, true)).state;
    assert Resolves(s.feeds, TOKEN) && s.place[5] == Pending(1);
    var n := Step(s, Op.Produces(TOKEN, Answers(false, true), true, Success, [])).state;
    assert n.offers == [Offer(5, false, true)] && n.place[5] == Retired;
  }

  /** A reserve whose answer could not be allocated, and a next call whose cleanup is refused the cancel. */
  lemma RefusedCancelStrands()
    ensures var s := Step(Opened(), Op.Reserve(TOKEN, 1, YES, Success, 9, 4, true, true)).state;
            !Stranded(s, TOKEN) && Stranded(Step(s, Op.Produces(TOKEN, NO, true, Success, [])).state, TOKEN)
  {
    OpenedIs();
    var o := Opened();
    assert FirstFree(o.reservations, 1) == 1;
    var s := Step(o, Op.Reserve(TOKEN, 1, YES, Success, 9, 4, true, true)).state;
    assert s.reservations == [Slot(0, false, Reservation(0, 0, 0, 0)), Slot(1, true, Reservation(TOKEN, 0, 9, 4))];
    assert s.feeds == OpenFeed(Feed(7, false, 0, NO_INFO, true, TOKEN));
    assert Live(s.reservations, 1) && s.reservations[1].content.feed == TOKEN;
    assert s.native[7].active == Some(0);
    var n := Step(s, Op.Produces(TOKEN, NO, true, Success, [])).state;
    assert n.reservations[1] == Slot(1, false, Reservation(0, 0, 9, 4));
    assert n.native == s.native && Resolves(n.feeds, TOKEN);
  }

  /**
  A reserve whose answer could not be allocated, and a commit of the token it never delivered: cleanup
  cancels the reservation, then four bytes are copied into it and the native commit is called for it.
  */
  lemma PendingCommitFollowsCleanup()
    ensures var s := Step(Opened(), Op.Reserve(TOKEN, 1, YES, Success, 9, 4, true, true)).state;
            var op := Op.Finish(TOKEN, true, 4, 4, YES, Success, []);
            && Admissible(s, op) && Proper(s, op) && !AsksOnce(s, op)
            && Step(s, op).state.calls == [EndCall(0, Cleanup, 0, true), EndCall(0, Commit, 4, true)]
            && !EndsOnce(Step(s, op).state.calls) && Step(s, op).state.ended == [0]
  {
    OpenedIs();
    var o := Opened();
    assert FirstFree(o.reservations, 1) == 1;
    var s := Step(o, Op.Reserve(TOKEN, 1, YES, Success, 9, 4, true, true)).state;
    assert s.reservations == [Slot(0, false, Reservation(0, 0, 0, 0)), Slot(1, true, Reservation(TOKEN, 0, 9, 4))];
    assert s.feeds == OpenFeed(Feed(7, false, 0, NO_INFO, true, TOKEN));
    assert s.native[7].active == Some(0) && s.calls == [] && s.ended == [];
    assert Resolves(s.reservations, TOKEN) && Resolves(s.feeds, TOKEN);
    var c := CleanUp(s, 1, YES);
    assert c.calls == [EndCall(0, Cleanup, 0, true)] && c.ended == [0] && StreamOf(c, 1).active.None?;
    var calls := Step(s, Op.Finish(TOKEN, true, 4, 4, YES, Success, [])).state.calls;
    assert calls == [EndCall(0, Cleanup, 0, true), EndCall(0, Commit, 4, true)];
    assert calls[0].id == calls[1].id && calls[0].accepted;
  }
}
