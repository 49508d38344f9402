/** The invariant of the span-feed tables, kept by every entry point, and the life of a drained span. */
module SpanFeedProofs {
  import opened Handles
  import opened Statuses
  import opened Slots
  import opened SpanFeedSpec

  // ---- The span side ----

  /** Span slot j is the one its feed still has pending: its token was never delivered. */
  predicate Undelivered(feeds: Table<Feed>, spans: Table<Span>, j: int)
    requires Live(spans, j)
  {
    var f := Index(spans[j].content.feed);
    f < |feeds| && feeds[f].content.pendingSpan && feeds[f].content.spanHandle == Token(spans, j)
  }

  ghost predicate FeedSpanOk(s: State, f: int)
    requires 0 <= f < |s.feeds|
  {
    var c := s.feeds[f].content;
    if !s.feeds[f].alive then !c.pendingSpan
    else c.pendingSpan ==>
           && Resolves(s.spans, c.spanHandle)
           && At(s.spans, c.spanHandle) == Span(Token(s.feeds, f), c.pendingInfo)
  }

  ghost predicate SpanOk(s: State, j: int)
    requires Live(s.spans, j)
  {
    var c := s.spans[j].content;
    && Resolves(s.feeds, c.feed)
    && c.info.id in s.place
    && s.place[c.info.id] == if Undelivered(s.feeds, s.spans, j) then Pending(Index(c.feed)) else Held(j)
  }

  predicate Retires(o: Offer) {
    o.accepted || o.cleanup
  }

  ghost predicate PlaceOk(s: State, id: nat)
    requires id in s.place
  {
    match s.place[id]
    case Pending(f) => Live(s.feeds, f) && s.feeds[f].content.pendingSpan && s.feeds[f].content.pendingInfo.id == id
    case Held(j) =>
      Live(s.spans, j) && s.spans[j].content.info.id == id && !Undelivered(s.feeds, s.spans, j)
    case Retired => exists k :: 0 <= k < |s.offers| && s.offers[k].id == id && Retires(s.offers[k])
    case Dropped => true
  }

  /** Every offer is of a drained span, and a retiring one leaves it retired. */
  ghost predicate OffersOk(place: map<nat, Place>, offers: seq<Offer>) {
    forall k :: 0 <= k < |offers| ==>
      offers[k].id in place && (Retires(offers[k]) ==> place[offers[k].id] == Retired)
  }

  /** Spans still queued have never been drained, and no two queued spans are the same. */
  ghost predicate QueuesOk(native: map<nat, Stream>, issued: set<nat>, drained: set<nat>) {
    && drained <= issued
    && (forall p, i :: p in native && 0 <= i < |native[p].queue| ==>
          native[p].queue[i].id in issued && native[p].queue[i].id !in drained)
    && (forall p, i, q, k ::
          (p in native && q in native && 0 <= i < |native[p].queue| && 0 <= k < |native[q].queue|
           && native[p].queue[i].id == native[q].queue[k].id) ==> p == q && i == k)
  }

  ghost predicate StreamsOk(feeds: Table<Feed>, native: map<nat, Stream>) {
    && (forall f :: Live(feeds, f) ==> feeds[f].content.stream != 0 && feeds[f].content.stream in native)
    && (forall f, g :: Live(feeds, f) && Live(feeds, g) && feeds[f].content.stream == feeds[g].content.stream ==> f == g)
  }

  ghost predicate FeedSpansOk(s: State) {
    forall f :: 0 <= f < |s.feeds| ==> FeedSpanOk(s, f)
  }

  ghost predicate SpansOk(s: State) {
    forall j :: Live(s.spans, j) ==> SpanOk(s, j)
  }

  ghost predicate PlacesOk(s: State) {
    forall id :: id in s.place ==> PlaceOk(s, id)
  }

  ghost predicate SpanSide(s: State) {
    && WellFormed(s.feeds) && WellFormed(s.spans)
    && StreamsOk(s.feeds, s.native)
    && FeedSpansOk(s)
    && SpansOk(s)
    && PlacesOk(s)
    && OffersOk(s.place, s.offers)
    && QueuesOk(s.native, s.issued, s.place.Keys)
  }

  // ---- The reservation side ----

  ghost predicate FeedReservationOk(s: State, f: int)
    requires 0 <= f < |s.feeds|
  {
    var c := s.feeds[f].content;
    if !s.feeds[f].alive then !c.pendingReservation
    else c.pendingReservation ==>
           && Resolves(s.reservations, c.reservationHandle)
           && At(s.reservations, c.reservationHandle).feed == Token(s.feeds, f)
  }

  /** A live reservation slot stands for the native reservation that is active on its live feed. */
  ghost predicate ReservationOk(s: State, j: int)
    requires Live(s.reservations, j)
  {
    var c := s.reservations[j].content;
    Resolves(s.feeds, c.feed) && StreamOf(s, Index(c.feed)).active == Some(c.id)
  }

  ghost predicate FeedReservationsOk(s: State) {
    forall f :: 0 <= f < |s.feeds| ==> FeedReservationOk(s, f)
  }

  ghost predicate ReservationsOk(s: State) {
    && (forall j :: Live(s.reservations, j) ==> ReservationOk(s, j))
    && (forall j, k ::
          (Live(s.reservations, j) && Live(s.reservations, k)
           && s.reservations[j].content.feed == s.reservations[k].content.feed) ==> j == k)
  }

  /** No native reservation has ended twice, and an active one has not ended. */
  ghost predicate EndedOk(native: map<nat, Stream>, reserved: nat, ended: seq<nat>) {
    && (forall k :: 0 <= k < |ended| ==> ended[k] < reserved)
    && (forall i, k :: 0 <= i < k < |ended| ==> ended[i] != ended[k])
    && (forall p :: p in native && native[p].active.Some? ==>
          native[p].active.value < reserved && native[p].active.value !in ended)
    && (forall p, q :: p in native && q in native && native[p].active.Some? && native[p].active == native[q].active ==>
          p == q)
  }

  ghost predicate ReservationSide(s: State) {
    && WellFormed(s.feeds) && WellFormed(s.reservations)
    && StreamsOk(s.feeds, s.native)
    && FeedReservationsOk(s)
    && ReservationsOk(s)
    && EndedOk(s.native, s.reserved, s.ended)
  }

  ghost predicate Inv(s: State) {
    SpanSide(s) && ReservationSide(s)
  }

  // ---- Changes that leave one side alone ----

  /** The feed slots agree on everything the span side reads. */
  ghost predicate SameSpanFields(feeds: Table<Feed>, feeds': Table<Feed>) {
    && |feeds| == |feeds'|
    && forall f :: 0 <= f < |feeds| ==>
         && feeds[f].generation == feeds'[f].generation && feeds[f].alive == feeds'[f].alive
         && feeds'[f].content == feeds[f].content.(
              pendingReservation := feeds'[f].content.pendingReservation,
              reservationHandle := feeds'[f].content.reservationHandle)
  }

  ghost predicate SameQueues(native: map<nat, Stream>, native': map<nat, Stream>) {
    native.Keys == native'.Keys && forall p :: p in native ==> native'[p].queue == native[p].queue
  }

  lemma SpanSideFrame(s: State, s': State)
    requires SpanSide(s)
    requires SameSpanFields(s.feeds, s'.feeds) && SameQueues(s.native, s'.native)
    requires s'.spans == s.spans && s'.place == s.place && s'.offers == s.offers && s'.issued == s.issued
    ensures SpanSide(s')
  {
    assert forall t: nat :: Resolves(s'.feeds, t) <==> Resolves(s.feeds, t);
    forall f | 0 <= f < |s'.feeds|
      ensures FeedSpanOk(s', f)
    {
      assert FeedSpanOk(s, f);
    }
    forall j | Live(s'.spans, j)
      ensures SpanOk(s', j)
    {
      assert SpanOk(s, j);
    }
    forall id | id in s'.place
      ensures PlaceOk(s', id)
    {
      assert PlaceOk(s, id);
    }
  }

  ghost predicate SameReservationFields(feeds: Table<Feed>, feeds': Table<Feed>) {
    && |feeds| == |feeds'|
    && forall f :: 0 <= f < |feeds| ==>
         && feeds[f].generation == feeds'[f].generation && feeds[f].alive == feeds'[f].alive
         && feeds[f].content.stream == feeds'[f].content.stream
         && feeds[f].content.pendingReservation == feeds'[f].content.pendingReservation
         && feeds[f].content.reservationHandle == feeds'[f].content.reservationHandle
  }

  ghost predicate SameActive(native: map<nat, Stream>, native': map<nat, Stream>) {
    native.Keys == native'.Keys && forall p :: p in native ==> native'[p].active == native[p].active
  }

  lemma ReservationSideFrame(s: State, s': State)
    requires ReservationSide(s) && WellFormed(s'.feeds)
    requires SameReservationFields(s.feeds, s'.feeds) && SameActive(s.native, s'.native)
    requires s'.reservations == s.reservations && s'.reserved == s.reserved && s'.ended == s.ended
    ensures ReservationSide(s')
  {
    assert forall t: nat :: Resolves(s'.feeds, t) <==> Resolves(s.feeds, t);
    forall f | 0 <= f < |s'.feeds|
      ensures FeedReservationOk(s', f)
    {
      assert FeedReservationOk(s, f);
    }
    forall j | Live(s'.reservations, j)
      ensures ReservationOk(s', j)
    {
      assert ReservationOk(s, j);
    }
  }

  /** The record of end calls is read by nothing here. */
  lemma CallsUnread(s: State, calls: seq<EndCall>)
    requires Inv(s)
    ensures Inv(s.(calls := calls))
  {
    SpanSideFrame(s, s.(calls := calls));
    ReservationSideFrame(s, s.(calls := calls));
  }

  // ---- Cleanup ----

  lemma ClearSpanKeepsSpanSide(s: State, f: nat, accepted: bool)
    requires SpanSide(s) && Live(s.feeds, f)
    ensures SpanSide(ClearSpan(s, f, accepted))
  {
    var s' := ClearSpan(s, f, accepted);
    var feed := s.feeds[f].content;
    if feed.pendingSpan {
      assert FeedSpanOk(s, f);
      var j, id := Index(feed.spanHandle), feed.pendingInfo.id;
      ResolvedToken(s.spans, feed.spanHandle);
      TokenResolves(s.feeds, f);
      assert SpanOk(s, j) && Undelivered(s.feeds, s.spans, j) && s.place[id] == Pending(f);
      assert s'.offers[|s.offers|] == Offer(id, accepted, true);
      assert forall t: nat :: Resolves(s'.feeds, t) <==> Resolves(s.feeds, t);
      ClearSpanOthers(s, f, accepted);
    }
  }

  lemma ClearSpanOthers(s: State, f: nat, accepted: bool)
    requires SpanSide(s) && Live(s.feeds, f) && s.feeds[f].content.pendingSpan
    ensures var s' := ClearSpan(s, f, accepted);
            FeedSpansOk(s') && SpansOk(s') && PlacesOk(s')
  {
    var s' := ClearSpan(s, f, accepted);
    var feed := s.feeds[f].content;
    assert FeedSpanOk(s, f);
    var j, id := Index(feed.spanHandle), feed.pendingInfo.id;
    ResolvedToken(s.spans, feed.spanHandle);
    TokenResolves(s.feeds, f);
    assert SpanOk(s, j) && s.place[id] == Pending(f);
    hide QueuesOk, StreamsOk, OffersOk, PlacesOk;
    forall g | 0 <= g < |s'.feeds|
      ensures FeedSpanOk(s', g)
    {
      assert FeedSpanOk(s, g);
      if g != f && s.feeds[g].alive && s.feeds[g].content.pendingSpan {
        TokenResolves(s.feeds, g);
      }
    }
    forall k | Live(s'.spans, k)
      ensures SpanOk(s', k)
    {
      assert SpanOk(s, k) && k != j;
    }
    ClearSpanPlaces(s, f, accepted);
  }

  lemma ClearSpanPlaces(s: State, f: nat, accepted: bool)
    requires SpanSide(s) && Live(s.feeds, f) && s.feeds[f].content.pendingSpan
    ensures PlacesOk(ClearSpan(s, f, accepted))
  {
    var s' := ClearSpan(s, f, accepted);
    var feed := s.feeds[f].content;
    assert FeedSpanOk(s, f);
    var j, id := Index(feed.spanHandle), feed.pendingInfo.id;
    ResolvedToken(s.spans, feed.spanHandle);
    TokenResolves(s.feeds, f);
    assert SpanOk(s, j) && s.place[id] == Pending(f);
    hide QueuesOk, StreamsOk, OffersOk, SpansOk, FeedSpansOk;
    forall i | i in s'.place
      ensures PlaceOk(s', i)
    {
      if i == id {
        assert s'.offers[|s.offers|] == Offer(id, accepted, true);
      } else {
        assert PlaceOk(s, i);
        if s.place[i].Retired? {
          var k :| 0 <= k < |s.offers| && s.offers[k].id == i && Retires(s.offers[k]);
          assert s'.offers[k] == s.offers[k];
        }
      }
    }
  }

  lemma ClearSpanKeepsReservations(s: State, f: nat, accepted: bool)
    requires ReservationSide(s) && Live(s.feeds, f)
    ensures ReservationSide(ClearSpan(s, f, accepted))
  {
    ReservationSideFrame(s, ClearSpan(s, f, accepted));
  }

  lemma EndActiveKeepsEnded(s: State, f: nat)
    requires Live(s.feeds, f) && EndedOk(s.native, s.reserved, s.ended) && StreamsOk(s.feeds, s.native)
    ensures EndedOk(EndActive(s, f).native, s.reserved, EndActive(s, f).ended)
    ensures StreamsOk(s.feeds, EndActive(s, f).native)
    ensures SameQueues(s.native, EndActive(s, f).native)
    ensures StreamOf(EndActive(s, f), f).active == None
    ensures forall g :: Live(s.feeds, g) && g != f ==> StreamOf(EndActive(s, f), g) == StreamOf(s, g)
  {
  }

  /** The reservation of feed f ended, or not, with its slot j freed and nothing pending any more. */
  function Freed(s: State, f: nat, ended: bool, reservations: Table<Reservation>): State
    requires f < |s.feeds|
  {
    (if ended then EndActive(s, f) else s).(
      feeds := Write(s.feeds, f, s.feeds[f].content.(pendingReservation := false, reservationHandle := 0)),
      reservations := reservations)
  }

  /** Slot j is free, and was the feed's own if it was live. */
  predicate SlotFreed(s: State, f: nat, j: nat, reservations: Table<Reservation>)
    requires f < |s.feeds|
  {
    && j < |s.reservations| == |reservations|
    && (s.reservations[j].alive ==> s.reservations[j].content.feed == Token(s.feeds, f))
    && reservations == s.reservations[j := reservations[j]]
    && !reservations[j].alive && reservations[j].generation == s.reservations[j].generation
    && (s.feeds[f].content.pendingReservation ==> s.feeds[f].content.reservationHandle == Token(s.reservations, j))
  }

  lemma FreedFeeds(s: State, f: nat, j: nat, ended: bool, reservations: Table<Reservation>)
    requires ReservationSide(s) && Live(s.feeds, f) && SlotFreed(s, f, j, reservations)
    ensures FeedReservationsOk(Freed(s, f, ended, reservations))
  {
    hide EndedOk, ReservationsOk, StreamsOk;
    var s' := Freed(s, f, ended, reservations);
    TokenResolves(s.feeds, f);
    forall g | 0 <= g < |s'.feeds|
      ensures FeedReservationOk(s', g)
    {
      assert FeedReservationOk(s, g);
      if g != f && s.feeds[g].alive && s.feeds[g].content.pendingReservation {
        TokenResolves(s.feeds, g);
      }
    }
  }

  lemma FreedReservations(s: State, f: nat, j: nat, ended: bool, reservations: Table<Reservation>)
    requires ReservationSide(s) && Live(s.feeds, f) && SlotFreed(s, f, j, reservations)
    requires ended ==> forall k :: Live(s.reservations, k) && Index(s.reservations[k].content.feed) == f ==> k == j
    ensures ReservationsOk(Freed(s, f, ended, reservations))
  {
    EndActiveKeepsEnded(s, f);
    hide EndedOk, FeedReservationsOk, EndActive;
    EndActiveTables(s, f);
    var s' := Freed(s, f, ended, reservations);
    TokenResolves(s.feeds, f);
    forall k | Live(s'.reservations, k)
      ensures ReservationOk(s', k)
    {
      assert ReservationOk(s, k);
      ResolvedToken(s.feeds, s.reservations[k].content.feed);
    }
  }

  lemma EndActiveTables(s: State, f: nat)
    requires f < |s.feeds|
    ensures var e := EndActive(s, f); e.feeds == s.feeds && e.spans == s.spans && e.reservations == s.reservations
    ensures EndActive(s, f).reserved == s.reserved
  {
  }

  /** Ending the active reservation of f and freeing the slot j that stands for it. */
  lemma EndKeepsReservations(s: State, f: nat, j: nat, ended: bool, reservations: Table<Reservation>)
    requires ReservationSide(s) && Live(s.feeds, f) && SlotFreed(s, f, j, reservations)
    requires ended ==> forall k :: Live(s.reservations, k) && Index(s.reservations[k].content.feed) == f ==> k == j
    ensures ReservationSide(Freed(s, f, ended, reservations))
  {
    EndActiveKeepsEnded(s, f);
    EndActiveTables(s, f);
    FreedFeeds(s, f, j, ended, reservations);
    FreedReservations(s, f, j, ended, reservations);
    hide EndedOk, FeedReservationsOk, ReservationsOk, EndActive;
  }

  /** Every live reservation of feed f is the one slot. */
  lemma OneReservation(s: State, f: nat, j: nat)
    requires ReservationSide(s) && Live(s.feeds, f) && Live(s.reservations, j)
    requires s.reservations[j].content.feed == Token(s.feeds, f)
    ensures forall k :: Live(s.reservations, k) && Index(s.reservations[k].content.feed) == f ==> k == j
  {
    hide EndedOk, FeedReservationsOk;
    TokenResolves(s.feeds, f);
    forall k | Live(s.reservations, k) && Index(s.reservations[k].content.feed) == f
      ensures k == j
    {
      assert ReservationOk(s, k);
      ResolvedToken(s.feeds, s.reservations[k].content.feed);
    }
  }

  lemma ClearReservationKeepsInv(s: State, f: nat, cancelled: bool)
    requires Inv(s) && Live(s.feeds, f)
    ensures Inv(ClearReservation(s, f, cancelled))
  {
    hide Handle, Generation, EndedOk, StreamsOk;
    var s' := ClearReservation(s, f, cancelled);
    var feed := s.feeds[f].content;
    if feed.pendingReservation {
      EndActiveKeepsEnded(s, f);
      assert FeedReservationOk(s, f);
      var j := Index(feed.reservationHandle);
      ResolvedToken(s.reservations, feed.reservationHandle);
      OneReservation(s, f, j);
      EndKeepsReservations(s, f, j, cancelled, KillReservation(s, j));
      hide SpanSide, ReservationSide;
      var freed := Freed(s, f, cancelled, KillReservation(s, j));
      SpanSideFrame(s, freed);
      CallsUnread(freed, s'.calls);
    }
  }

  /** A feed slot with nothing pending. */
  predicate Clear(s: State, f: int) {
    Live(s.feeds, f) && !s.feeds[f].content.pendingSpan && !s.feeds[f].content.pendingReservation
  }

  /** Cleanup keeps the invariant and leaves the feed live, itself, and with nothing pending. */
  lemma CleanUpKeepsInv(s: State, f: nat, a: Answers)
    requires Inv(s) && Live(s.feeds, f)
    ensures Inv(CleanUp(s, f, a)) && Clear(CleanUp(s, f, a), f)
    ensures Token(CleanUp(s, f, a).feeds, f) == Token(s.feeds, f)
    ensures CleanUp(s, f, a).feeds[f].content.stream == s.feeds[f].content.stream
  {
    ClearSpanKeepsSpanSide(s, f, a.accepted);
    ClearSpanKeepsReservations(s, f, a.accepted);
    hide SpanSide, ReservationSide;
    ClearReservationKeepsInv(ClearSpan(s, f, a.accepted), f, a.cancelled);
  }

  // ---- Producing spans ----

  /** What the native feed owes: new spans, each different from every other ever produced. */
  ghost predicate FreshSpans(issued: set<nat>, added: seq<Info>) {
    && (forall k :: 0 <= k < |added| ==> added[k].id !in issued)
    && (forall i, k :: 0 <= i < k < |added| ==> added[i].id != added[k].id)
  }

  lemma ProduceKeepsInv(s: State, f: nat, added: seq<Info>)
    requires Inv(s) && Live(s.feeds, f) && FreshSpans(s.issued, added)
    ensures Inv(Produce(s, f, added))
    ensures forall g :: Live(s.feeds, g) ==> StreamOf(Produce(s, f, added), g).active == StreamOf(s, g).active
  {
    var s' := Produce(s, f, added);
    assert QueuesOk(s'.native, s'.issued, s'.place.Keys);
    hide QueuesOk;
    forall g | 0 <= g < |s'.feeds|
      ensures FeedSpanOk(s', g)
    {
      assert FeedSpanOk(s, g);
    }
    forall j | Live(s'.spans, j)
      ensures SpanOk(s', j)
    {
      assert SpanOk(s, j);
    }
    forall id | id in s'.place
      ensures PlaceOk(s', id)
    {
      assert PlaceOk(s, id);
    }
    ReservationSideFrame(s, s');
  }

  // ---- Draining ----

  lemma PopKeepsQueues(s: State, f: nat)
    requires Live(s.feeds, f) && StreamsOk(s.feeds, s.native) && QueuesOk(s.native, s.issued, s.place.Keys)
    requires StreamOf(s, f).queue != []
    ensures var st := StreamOf(s, f);
            && st.queue[0].id in s.issued && st.queue[0].id !in s.place
            && QueuesOk(SetStream(s, f, st.(queue := st.queue[1..])), s.issued, s.place.Keys + {st.queue[0].id})
            && StreamsOk(s.feeds, SetStream(s, f, st.(queue := st.queue[1..])))
  {
  }

  /** The state after a popped span that cannot be delivered is offered back at once. */
  function Rejected(s: State, f: nat, accepted: bool): State
    requires f < |s.feeds| && StreamOf(s, f).queue != []
  {
    var st := StreamOf(s, f);
    var id := st.queue[0].id;
    s.(native := SetStream(s, f, st.(queue := st.queue[1..])), place := s.place[id := Retired],
       offers := s.offers + [Offer(id, accepted, true)],
       feeds := Write(s.feeds, f, s.feeds[f].content.(pendingInfo := st.queue[0], pendingSpan := false, spanHandle := 0)))
  }

  lemma RejectKeepsInv(s: State, f: nat, accepted: bool)
    requires Inv(s) && Clear(s, f) && StreamOf(s, f).queue != []
    ensures Inv(Rejected(s, f, accepted))
  {
    var s' := Rejected(s, f, accepted);
    PopKeepsQueues(s, f);
    ReservationSideFrame(s, s');
    RejectKeepsSpans(s, f, accepted);
    RejectKeepsPlaces(s, f, accepted);
    assert s'.place.Keys == s.place.Keys + {StreamOf(s, f).queue[0].id};
  }

  lemma RejectKeepsSpans(s: State, f: nat, accepted: bool)
    requires Inv(s) && Clear(s, f) && StreamOf(s, f).queue != [] && StreamOf(s, f).queue[0].id !in s.place
    ensures FeedSpansOk(Rejected(s, f, accepted)) && SpansOk(Rejected(s, f, accepted))
  {
    var s' := Rejected(s, f, accepted);
    hide QueuesOk, ReservationSide, StreamsOk, PlacesOk, OffersOk;
    forall g | 0 <= g < |s'.feeds|
      ensures FeedSpanOk(s', g)
    {
      assert FeedSpanOk(s, g);
    }
    forall j | Live(s'.spans, j)
      ensures SpanOk(s', j)
    {
      assert SpanOk(s, j);
    }
  }

  lemma RejectKeepsPlaces(s: State, f: nat, accepted: bool)
    requires Inv(s) && Clear(s, f) && StreamOf(s, f).queue != [] && StreamOf(s, f).queue[0].id !in s.place
    ensures PlacesOk(Rejected(s, f, accepted)) && OffersOk(Rejected(s, f, accepted).place, Rejected(s, f, accepted).offers)
  {
    var s', id := Rejected(s, f, accepted), StreamOf(s, f).queue[0].id;
    hide QueuesOk, ReservationSide, StreamsOk, FeedSpansOk, SpansOk;
    assert s'.offers[|s.offers|] == Offer(id, accepted, true);
    forall i | i in s'.place
      ensures PlaceOk(s', i)
    {
      if i != id {
        assert PlaceOk(s, i);
        RejectKeepsPlace(s, s', id, i);
      }
    }
  }

  lemma RejectKeepsPlace(s: State, s': State, id: nat, i: nat)
    requires i in s.place && i in s'.place && s'.place[i] == s.place[i] && PlaceOk(s, i)
    requires s'.spans == s.spans && |s'.feeds| == |s.feeds| && s.offers <= s'.offers
    requires forall g :: 0 <= g < |s.feeds| ==>
               s'.feeds[g] == s.feeds[g] || (!s.feeds[g].content.pendingSpan && !s'.feeds[g].content.pendingSpan)
    ensures PlaceOk(s', i)
  {
    if s.place[i].Retired? {
      var k :| 0 <= k < |s.offers| && s.offers[k].id == i && Retires(s.offers[k]);
      assert s'.offers[k] == s.offers[k];
    }
  }

  /** The state after the popped span is given a slot: pending when an allocation failed, else held. */
  function Taken(s: State, f: nat, token: nat, pending: bool): State
    requires f < |s.feeds| && StreamOf(s, f).queue != [] && FirstFree(s.spans, 1) < |s.spans|
  {
    var st, j := StreamOf(s, f), FirstFree(s.spans, 1);
    var info := st.queue[0];
    var spans := Allocate(s.spans, j, Span(token, info));
    var feed := s.feeds[f].content.(pendingInfo := info, pendingSpan := false, spanHandle := 0);
    s.(native := SetStream(s, f, st.(queue := st.queue[1..])), spans := spans,
       feeds := Write(s.feeds, f, if pending then feed.(pendingSpan := true, spanHandle := Token(spans, j)) else feed),
       place := s.place[info.id := if pending then Pending(f) else Held(j)])
  }

  lemma TakeKeepsInv(s: State, f: nat, token: nat, pending: bool)
    requires Inv(s) && Clear(s, f) && token == Token(s.feeds, f)
    requires StreamOf(s, f).queue != [] && FirstFree(s.spans, 1) < |s.spans|
    ensures Inv(Taken(s, f, token, pending))
  {
    var s', st, j := Taken(s, f, token, pending), StreamOf(s, f), FirstFree(s.spans, 1);
    var id := st.queue[0].id;
    PopKeepsQueues(s, f);
    ReservationSideFrame(s, s');
    AllocateFresh(s.spans, Span(token, st.queue[0]));
    TokenResolves(s.feeds, f);
    assert s'.place.Keys == s.place.Keys + {id};
    TakeKeepsSpans(s, f, token, pending);
    TakeKeepsPlaces(s, f, token, pending);
  }

  lemma TakeKeepsSpans(s: State, f: nat, token: nat, pending: bool)
    requires Inv(s) && Clear(s, f) && token == Token(s.feeds, f)
    requires StreamOf(s, f).queue != [] && FirstFree(s.spans, 1) < |s.spans|
    requires StreamOf(s, f).queue[0].id !in s.place
    ensures FeedSpansOk(Taken(s, f, token, pending)) && SpansOk(Taken(s, f, token, pending))
    ensures WellFormed(Taken(s, f, token, pending).spans)
  {
    var s', j := Taken(s, f, token, pending), FirstFree(s.spans, 1);
    AllocateFresh(s.spans, Span(token, StreamOf(s, f).queue[0]));
    TokenResolves(s.feeds, f);
    hide QueuesOk, ReservationSide, StreamsOk, PlacesOk, OffersOk;
    assert forall t: nat :: Resolves(s'.feeds, t) <==> Resolves(s.feeds, t);
    forall g | 0 <= g < |s'.feeds|
      ensures FeedSpanOk(s', g)
    {
      assert FeedSpanOk(s, g);
      if g != f && s.feeds[g].alive && s.feeds[g].content.pendingSpan {
        ResolvedToken(s.spans, s.feeds[g].content.spanHandle);
      }
    }
    forall k | Live(s'.spans, k)
      ensures SpanOk(s', k)
    {
      if k != j {
        assert SpanOk(s, k);
        TokenResolves(s'.spans, k);
      }
    }
  }

  lemma TakeKeepsPlaces(s: State, f: nat, token: nat, pending: bool)
    requires Inv(s) && Clear(s, f) && token == Token(s.feeds, f)
    requires StreamOf(s, f).queue != [] && FirstFree(s.spans, 1) < |s.spans|
    requires StreamOf(s, f).queue[0].id !in s.place
    ensures PlacesOk(Taken(s, f, token, pending))
    ensures OffersOk(Taken(s, f, token, pending).place, s.offers)
  {
    var s', j := Taken(s, f, token, pending), FirstFree(s.spans, 1);
    AllocateFresh(s.spans, Span(token, StreamOf(s, f).queue[0]));
    TokenResolves(s.feeds, f);
    hide QueuesOk, ReservationSide, StreamsOk;
    forall i | i in s'.place
      ensures PlaceOk(s', i)
    {
      if i in s.place {
        assert PlaceOk(s, i);
        if s.place[i].Held? {
          TokenResolves(s.spans, s.place[i].slot);
        }
      }
    }
  }

  lemma DrainKeepsInv(s: State, token: nat, a: Answers, again: bool, raises: bool)
    requires Inv(s)
    ensures Inv(DrainStep(s, token, a, again, raises).state)
  {
    if Resolves(s.feeds, token) {
      var f := Index(token);
      ResolvedToken(s.feeds, token);
      CleanUpKeepsInv(s, f, a);
      var c := CleanUp(s, f, a);
      hide Inv, CleanUp;
      if StreamOf(c, f).queue != [] {
        if !SourceOk(StreamOf(c, f).queue[0]) || FirstFree(c.spans, 1) >= |c.spans| {
          RejectKeepsInv(c, f, again);
        } else {
          TakeKeepsInv(c, f, token, raises);
        }
      }
    }
  }

  // ---- Releasing ----

  /** Offering the span of slot j; accepted, its slot is freed and it is retired. */
  function Offered(s: State, j: nat, accepted: bool): State
    requires j < |s.spans|
  {
    var id := s.spans[j].content.info.id;
    var o := s.(offers := s.offers + [Offer(id, accepted, false)]);
    if accepted then o.(spans := KillSpan(o, j), place := o.place[id := Retired]) else o
  }

  lemma OfferKeepsInv(s: State, j: nat, accepted: bool)
    requires Inv(s) && j < |s.spans| && Offerable(s, j)
    ensures Inv(Offered(s, j, accepted))
  {
    var s' := Offered(s, j, accepted);
    OfferKeepsPlaces(s, j, accepted);
    OfferKeepsSpans(s, j, accepted);
    ReservationSideFrame(s, s');
    assert s'.place.Keys == s.place.Keys;
    assert s'.offers[|s.offers|].id in s'.place;
    hide FeedSpansOk, SpansOk, PlacesOk, QueuesOk, StreamsOk, ReservationSide;
  }

  /** Slot j is held, or its span is already retired. */
  ghost predicate Offerable(s: State, j: nat)
    requires j < |s.spans|
  {
    if Live(s.spans, j) then !Undelivered(s.feeds, s.spans, j)
    else s.spans[j].content.info.id in s.place && s.place[s.spans[j].content.info.id] == Retired
  }

  lemma OfferKeepsSpans(s: State, j: nat, accepted: bool)
    requires SpanSide(s) && j < |s.spans| && Offerable(s, j)
    ensures FeedSpansOk(Offered(s, j, accepted)) && SpansOk(Offered(s, j, accepted))
    ensures s.spans[j].content.info.id in s.place
  {
    var s' := Offered(s, j, accepted);
    assert Live(s.spans, j) ==> SpanOk(s, j);
    hide QueuesOk, StreamsOk, OffersOk, PlacesOk;
    forall g | 0 <= g < |s'.feeds|
      ensures FeedSpanOk(s', g)
    {
      assert FeedSpanOk(s, g);
      if s.feeds[g].alive && s.feeds[g].content.pendingSpan {
        TokenResolves(s.feeds, g);
        ResolvedToken(s.spans, s.feeds[g].content.spanHandle);
      }
    }
    forall k | Live(s'.spans, k)
      ensures SpanOk(s', k)
    {
      assert SpanOk(s, k);
    }
  }

  lemma OfferKeepsPlaces(s: State, j: nat, accepted: bool)
    requires SpanSide(s) && j < |s.spans| && Offerable(s, j)
    ensures PlacesOk(Offered(s, j, accepted))
    ensures s.spans[j].content.info.id in s.place
  {
    var s', id := Offered(s, j, accepted), s.spans[j].content.info.id;
    assert Live(s.spans, j) ==> SpanOk(s, j);
    hide QueuesOk, StreamsOk, OffersOk, FeedSpansOk;
    assert s'.offers[|s.offers|] == Offer(id, accepted, false);
    forall i | i in s'.place
      ensures PlaceOk(s', i)
    {
      assert PlaceOk(s, i);
      if s.place[i].Retired? {
        var k :| 0 <= k < |s.offers| && s.offers[k].id == i && Retires(s.offers[k]);
        assert s'.offers[k] == s.offers[k];
      }
    }
  }

  /** What cleanup of another resource leaves of span slot j, and of the slot it was pending in. */
  lemma CleanUpSpan(s: State, f: nat, a: Answers, j: nat)
    requires Inv(s) && Live(s.feeds, f) && Live(s.spans, j) && Index(s.spans[j].content.feed) == f
    ensures var c := CleanUp(s, f, a);
            && |c.spans| == |s.spans|
            && c.spans[j].content.info == s.spans[j].content.info
            && c.spans[j].generation == s.spans[j].generation
            && if Undelivered(s.feeds, s.spans, j)
               then !Live(c.spans, j) && c.place == s.place[s.spans[j].content.info.id := Retired]
               else Live(c.spans, j) && c.spans[j] == s.spans[j] && !Undelivered(c.feeds, c.spans, j)
                    && c.place[s.spans[j].content.info.id] == Held(j)
    ensures s.spans[j].content.info.id in CleanUp(s, f, a).place
  {
    assert SpanOk(s, j) && FeedSpanOk(s, f);
    TokenResolves(s.spans, j);
    TokenResolves(s.feeds, f);
    ResolvedToken(s.feeds, s.spans[j].content.feed);
    if s.feeds[f].content.pendingSpan {
      ResolvedToken(s.spans, s.feeds[f].content.spanHandle);
      assert SpanOk(s, Index(s.feeds[f].content.spanHandle));
    }
    ClearReservationSpans(ClearSpan(s, f, a.accepted), f, a.cancelled);
    hide Inv, WellFormed, Handle, ClearReservation;
  }

  lemma ClearReservationSpans(s: State, f: nat, cancelled: bool)
    requires f < |s.feeds|
    ensures var c := ClearReservation(s, f, cancelled);
            && c.spans == s.spans && c.place == s.place && |c.feeds| == |s.feeds|
            && forall g :: 0 <= g < |s.feeds| ==>
                 c.feeds[g].content.pendingSpan == s.feeds[g].content.pendingSpan
                 && c.feeds[g].content.spanHandle == s.feeds[g].content.spanHandle
  {
  }

  lemma ReleaseKeepsInv(s: State, token: nat, a: Answers, native: Status)
    requires Inv(s)
    ensures Inv(ReleaseStep(s, token, a, native).state)
  {
    if Resolves(s.spans, token) && Resolves(s.feeds, s.spans[Index(token)].content.feed) {
      var j := Index(token);
      var f := Index(s.spans[j].content.feed);
      CleanUpKeepsInv(s, f, a);
      CleanUpSpan(s, f, a, j);
      var c := CleanUp(s, f, a);
      hide Inv, CleanUp;
      OfferKeepsInv(c, j, native == Success);
    }
  }

  // ---- Closing ----

  /** With no active native reservation, no reservation slot of the feed is live. */
  lemma IdleHasNoReservation(s: State, f: nat)
    requires ReservationSide(s) && Live(s.feeds, f) && StreamOf(s, f).active.None?
    ensures forall j :: Live(s.reservations, j) ==> Index(s.reservations[j].content.feed) != f
    ensures DropReservations(s, Token(s.feeds, f)) == s
  {
    TokenResolves(s.feeds, f);
    hide EndedOk, StreamsOk, FeedReservationsOk;
    forall j | Live(s.reservations, j)
      ensures Index(s.reservations[j].content.feed) != f
    {
      assert ReservationOk(s, j);
    }
    assert DropReservations(s, Token(s.feeds, f)).reservations == s.reservations;
  }

  /** The state after a close: the feed's spans dropped, its slot and stream gone. */
  function Closed(s: State, f: nat): State
    requires f < |s.feeds|
  {
    var d := DropSpans(s, Token(s.feeds, f));
    d.(feeds := Kill(s.feeds, f, s.feeds[f].content.(stream := 0)), native := s.native - {s.feeds[f].content.stream})
  }

  lemma CloseKeepsSpans(s: State, f: nat)
    requires SpanSide(s) && Clear(s, f)
    ensures SpanSide(Closed(s, f))
  {
    CloseStreams(s, f);
    ClosePlaces(s, f);
    CloseSlots(s, f);
    hide FeedSpansOk, SpansOk, PlacesOk, QueuesOk, StreamsOk, OffersOk;
  }

  lemma CloseStreams(s: State, f: nat)
    requires StreamsOk(s.feeds, s.native) && QueuesOk(s.native, s.issued, s.place.Keys) && Live(s.feeds, f)
    ensures StreamsOk(Closed(s, f).feeds, Closed(s, f).native)
    ensures QueuesOk(Closed(s, f).native, s.issued, Closed(s, f).place.Keys)
  {
    assert Closed(s, f).place.Keys == s.place.Keys;
  }

  lemma CloseSlots(s: State, f: nat)
    requires WellFormed(s.feeds) && FeedSpansOk(s) && SpansOk(s) && Clear(s, f)
    ensures FeedSpansOk(Closed(s, f)) && SpansOk(Closed(s, f))
  {
    var s', token := Closed(s, f), Token(s.feeds, f);
    TokenResolves(s.feeds, f);
    forall g | 0 <= g < |s'.feeds|
      ensures FeedSpanOk(s', g)
    {
      assert FeedSpanOk(s, g);
      if g != f && s.feeds[g].alive {
        TokenResolves(s.feeds, g);
      }
    }
    forall k | Live(s'.spans, k)
      ensures SpanOk(s', k)
    {
      assert SpanOk(s, k);
      ResolvedToken(s.feeds, s.spans[k].content.feed);
    }
  }

  lemma ClosePlaces(s: State, f: nat)
    requires SpanSide(s) && Clear(s, f)
    ensures PlacesOk(Closed(s, f)) && OffersOk(Closed(s, f).place, s.offers)
  {
    var s', token := Closed(s, f), Token(s.feeds, f);
    hide QueuesOk, StreamsOk, FeedSpansOk;
    forall i | i in s'.place
      ensures PlaceOk(s', i)
    {
      assert PlaceOk(s, i);
      if s.place[i].Held? {
        assert SpanOk(s, s.place[i].slot);
        ResolvedToken(s.feeds, s.spans[s.place[i].slot].content.feed);
      }
    }
  }

  lemma CloseKeepsReservations(s: State, f: nat)
    requires ReservationSide(s) && Clear(s, f) && StreamOf(s, f).active.None?
    ensures ReservationSide(Closed(s, f))
  {
    var s' := Closed(s, f);
    TokenResolves(s.feeds, f);
    IdleHasNoReservation(s, f);
    forall g | 0 <= g < |s'.feeds|
      ensures FeedReservationOk(s', g)
    {
      assert FeedReservationOk(s, g);
    }
    forall k | Live(s'.reservations, k)
      ensures ReservationOk(s', k)
    {
      assert ReservationOk(s, k);
      ResolvedToken(s.feeds, s.reservations[k].content.feed);
    }
  }

  lemma CloseKeepsInv(s: State, token: nat, a: Answers, native: Status)
    requires Inv(s)
    requires Resolves(s.feeds, token) && native == Success ==>
               StreamOf(CleanUp(s, Index(token), a), Index(token)).active.None?
    ensures Inv(CloseStep(s, token, a, native).state)
    ensures Resolves(s.feeds, token) && native == Success ==>
              CloseStep(s, token, a, native).state == Closed(CleanUp(s, Index(token), a), Index(token))
  {
    if Resolves(s.feeds, token) {
      var f := Index(token);
      ResolvedToken(s.feeds, token);
      CleanUpKeepsInv(s, f, a);
      var c := CleanUp(s, f, a);
      hide CleanUp, SpanSide, ReservationSide;
      if native == Success {
        IdleHasNoReservation(c, f);
        assert DropReservations(DropSpans(c, token), token).reservations == DropReservations(c, token).reservations;
        assert c.reservations == DropReservations(c, token).reservations;
        CloseKeepsSpans(c, f);
        CloseKeepsReservations(c, f);
      }
    }
  }

  // ---- Creating ----

  lemma CreateKeepsInv(s: State, valid: bool, stream: nat, attach: Status, raises: bool)
    requires Inv(s) && (stream == 0 || stream !in s.native)
    ensures Inv(CreateStep(s, valid, stream, attach, raises).state)
  {
    var s', i := CreateStep(s, valid, stream, attach, raises).state, FirstFree(s.feeds, 1);
    if s' != s {
      AllocateFresh(s.feeds, NO_FEED.(stream := stream));
      CreateKeepsSpans(s, s', i);
      CreateKeepsReservations(s, s', i);
    }
  }

  /** A new feed slot with nothing pending, or a free one whose generation moved on. */
  ghost predicate NewFeed(s: State, s': State, i: nat) {
    && 0 < i < |s.feeds| == |s'.feeds| && !s.feeds[i].alive && s'.feeds == s.feeds[i := s'.feeds[i]]
    && !s'.feeds[i].content.pendingSpan && !s'.feeds[i].content.pendingReservation
    && 0 < s'.feeds[i].generation <= GENERATIONS
    && s' == s.(feeds := s'.feeds, native := s'.native)
    && if s'.feeds[i].alive then
         && s'.feeds[i].content.stream != 0 && s'.feeds[i].content.stream !in s.native
         && s'.native == s.native[s'.feeds[i].content.stream := Stream([], None)]
       else s'.native == s.native
  }

  lemma CreateKeepsSpans(s: State, s': State, i: nat)
    requires SpanSide(s) && NewFeed(s, s', i)
    ensures SpanSide(s')
  {
    assert QueuesOk(s'.native, s'.issued, s'.place.Keys) && StreamsOk(s'.feeds, s'.native);
    hide QueuesOk, StreamsOk;
    forall g | 0 <= g < |s'.feeds|
      ensures FeedSpanOk(s', g)
    {
      assert FeedSpanOk(s, g);
    }
    forall k | Live(s'.spans, k)
      ensures SpanOk(s', k)
    {
      assert SpanOk(s, k);
    }
    forall id | id in s'.place
      ensures PlaceOk(s', id)
    {
      assert PlaceOk(s, id);
      if s.place[id].Held? {
        assert SpanOk(s, s.place[id].slot);
      }
    }
  }

  lemma CreateKeepsReservations(s: State, s': State, i: nat)
    requires ReservationSide(s) && NewFeed(s, s', i)
    ensures ReservationSide(s')
  {
    forall g | 0 <= g < |s'.feeds|
      ensures FeedReservationOk(s', g)
    {
      assert FeedReservationOk(s, g);
    }
    forall k | Live(s'.reservations, k)
      ensures ReservationOk(s', k)
    {
      assert ReservationOk(s, k);
    }
  }

  // ---- Reserving, committing and cancelling ----

  lemma BeginKeepsInv(s: State, f: nat)
    requires Inv(s) && Clear(s, f) && StreamOf(s, f).active.None?
    ensures Inv(BegunFeed(s, f))
    ensures forall j :: Live(s.reservations, j) ==> Index(s.reservations[j].content.feed) != f
  {
    var s' := BegunFeed(s, f);
    SpanSideFrame(s, s');
    IdleHasNoReservation(s, f);
    hide SpanSide;
    forall g | 0 <= g < |s'.feeds|
      ensures FeedReservationOk(s', g)
    {
      assert FeedReservationOk(s, g);
    }
    forall k | Live(s'.reservations, k)
      ensures ReservationOk(s', k)
    {
      assert ReservationOk(s, k);
    }
  }

  /** The slot that stands for the reservation just begun: delivered, or pending after a failed allocation. */
  function Slotted(s: State, f: nat, token: nat, id: nat, pointer: nat, len: nat, pending: bool): State
    requires f < |s.feeds| && FirstFree(s.reservations, 1) < |s.reservations|
  {
    var j := FirstFree(s.reservations, 1);
    var reservations := Allocate(s.reservations, j, Reservation(token, id, pointer, len));
    var feed := s.feeds[f].content;
    s.(reservations := reservations,
       feeds := if pending
                then Write(s.feeds, f, feed.(pendingReservation := true, reservationHandle := Token(reservations, j)))
                else s.feeds)
  }

  lemma SlotKeepsInv(s: State, f: nat, token: nat, id: nat, pointer: nat, len: nat, pending: bool)
    requires Inv(s) && Clear(s, f) && token == Token(s.feeds, f) && StreamOf(s, f).active == Some(id)
    requires forall j :: Live(s.reservations, j) ==> Index(s.reservations[j].content.feed) != f
    requires FirstFree(s.reservations, 1) < |s.reservations|
    ensures Inv(Slotted(s, f, token, id, pointer, len, pending))
  {
    hide Handle, Generation;
    var s', j := Slotted(s, f, token, id, pointer, len, pending), FirstFree(s.reservations, 1);
    SpanSideFrame(s, s');
    AllocateFresh(s.reservations, Reservation(token, id, pointer, len));
    TokenResolves(s.feeds, f);
    hide SpanSide, EndedOk, Inv;
    assert forall t: nat :: Resolves(s'.feeds, t) <==> Resolves(s.feeds, t);
    forall g | 0 <= g < |s'.feeds|
      ensures FeedReservationOk(s', g)
    {
      assert FeedReservationOk(s, g);
      if g != f && s.feeds[g].alive && s.feeds[g].content.pendingReservation {
        ResolvedToken(s.reservations, s.feeds[g].content.reservationHandle);
      }
    }
    forall k | Live(s'.reservations, k)
      ensures ReservationOk(s', k)
    {
      if k != j {
        assert ReservationOk(s, k);
      }
    }
  }

  lemma AbandonKeepsInv(s: State, f: nat)
    requires Inv(s) && Clear(s, f)
    requires forall j :: Live(s.reservations, j) ==> Index(s.reservations[j].content.feed) != f
    ensures Inv(EndActive(s, f))
  {
    var s' := EndActive(s, f);
    EndActiveKeepsEnded(s, f);
    SpanSideFrame(s, s');
    hide SpanSide, EndedOk, StreamsOk;
    forall g | 0 <= g < |s'.feeds|
      ensures FeedReservationOk(s', g)
    {
      assert FeedReservationOk(s, g);
    }
    forall k | Live(s'.reservations, k)
      ensures ReservationOk(s', k)
    {
      assert ReservationOk(s, k);
      ResolvedToken(s.feeds, s.reservations[k].content.feed);
    }
  }

  lemma ReserveKeepsInv(s: State, token: nat, minimum: int, a: Answers, native: Status, pointer: nat, len: nat,
                        again: bool, raises: bool)
    requires Inv(s)
    requires Resolves(s.feeds, token) && native == Success ==>
               StreamOf(CleanUp(s, Index(token), a), Index(token)).active.None?
    ensures Inv(ReserveStep(s, token, minimum, a, native, pointer, len, again, raises).state)
  {
    if minimum >= 0 && Resolves(s.feeds, token) {
      var f := Index(token);
      ResolvedToken(s.feeds, token);
      CleanUpKeepsInv(s, f, a);
      var c := CleanUp(s, f, a);
      hide Inv, CleanUp;
      if native == Success {
        var b := BegunFeed(c, f);
        BeginKeepsInv(c, f);
        if FirstFree(c.reservations, 1) >= |c.reservations| {
          AbandonKeepsInv(b, f);
          CallsUnread(if again then EndActive(b, f) else b, c.calls + [EndCall(c.reserved, Cleanup, 0, again)]);
        } else {
          BegunStream(c, f);
          SlotKeepsInv(b, f, token, c.reserved, pointer, len, raises);
        }
      }
    }
  }

  lemma BegunStream(s: State, f: nat)
    requires f < |s.feeds|
    ensures StreamOf(BegunFeed(s, f), f).active == Some(s.reserved)
  {
  }

  /** What cleanup leaves of the reservation slot a token names. */
  lemma CleanUpReservation(s: State, f: nat, a: Answers, j: nat)
    requires Inv(s) && Live(s.feeds, f) && Live(s.reservations, j) && Index(s.reservations[j].content.feed) == f
    ensures var c := CleanUp(s, f, a);
            && |c.reservations| == |s.reservations|
            && c.reservations[j].content.pointer == s.reservations[j].content.pointer
            && c.reservations[j].generation == s.reservations[j].generation
            && (Live(c.reservations, j) ==> c.reservations[j] == s.reservations[j])
            && forall k :: Live(c.reservations, k) && Index(c.reservations[k].content.feed) == f ==> k == j
    ensures s.reservations[j].content.feed == Token(s.feeds, f)
  {
    assert ReservationOk(s, j) && FeedReservationOk(s, f);
    ResolvedToken(s.feeds, s.reservations[j].content.feed);
    OneReservation(s, f, j);
    if s.feeds[f].content.pendingReservation {
      ResolvedToken(s.reservations, s.feeds[f].content.reservationHandle);
      assert ReservationOk(s, Index(s.feeds[f].content.reservationHandle));
      TokenResolves(s.feeds, f);
    }
  }

  lemma FinishKeepsInv(s: State, token: nat, commits: bool, used: int, dataLength: nat, a: Answers, native: Status,
                       added: seq<Info>)
    requires Inv(s) && FreshSpans(s.issued, added)
    ensures Inv(FinishStep(s, token, commits, used, dataLength, a, native, added).state)
  {
    hide Inv, CleanUp;
    if Resolves(s.reservations, token) && Resolves(s.feeds, s.reservations[Index(token)].content.feed) {
      var j := Index(token);
      var f := Index(s.reservations[j].content.feed);
      CleanUpKeepsInv(s, f, a);
      CleanUpReservation(s, f, a, j);
      CleanUpIssues(s, f, a);
      var c := CleanUp(s, f, a);
      var p := if commits then Produce(c, f, added) else c;
      if commits {
        ProduceKeepsInv(c, f, added);
      }
      FinishEnds(p, f, j);
      var e, calls := EndActive(p, f), FinishStep(s, token, commits, used, dataLength, a, native, added).state.calls;
      CallsUnread(p, calls);
      CallsUnread(e.(reservations := Kill(e.reservations, j, e.reservations[j].content.(feed := 0))), calls);
    }
  }

  lemma CleanUpIssues(s: State, f: nat, a: Answers)
    requires f < |s.feeds|
    ensures CleanUp(s, f, a).issued == s.issued
  {
  }

  lemma FinishEnds(s: State, f: nat, j: nat)
    requires Inv(s) && Clear(s, f) && j < |s.reservations|
    requires Live(s.reservations, j) ==> s.reservations[j].content.feed == Token(s.feeds, f)
    requires forall k :: Live(s.reservations, k) && Index(s.reservations[k].content.feed) == f ==> k == j
    requires 0 < j
    ensures var e := EndActive(s, f);
            Inv(e.(reservations := Kill(e.reservations, j, e.reservations[j].content.(feed := 0))))
  {
    var e := EndActive(s, f);
    var reservations := Kill(s.reservations, j, s.reservations[j].content.(feed := 0));
    EndActiveKeepsEnded(s, f);
    EndKeepsReservations(s, f, j, true, reservations);
    SpanSideFrame(s, e.(reservations := reservations));
    hide SpanSide;
    var r := e.(feeds := Write(s.feeds, f, s.feeds[f].content.(pendingReservation := false, reservationHandle := 0)),
                reservations := reservations);
    HandleUnread(r, e.(reservations := reservations));
  }

  /** The handle of a slot with nothing pending is never read. */
  lemma HandleUnread(r: State, s: State)
    requires ReservationSide(r) && s == r.(feeds := s.feeds) && |s.feeds| == |r.feeds|
    requires forall g :: 0 <= g < |r.feeds| ==>
               s.feeds[g] == r.feeds[g]
               || (!s.feeds[g].content.pendingReservation && s.feeds[g].generation == r.feeds[g].generation
                   && s.feeds[g].alive == r.feeds[g].alive && s.feeds[g].content.stream == r.feeds[g].content.stream)
    ensures ReservationSide(s)
  {
    assert forall t: nat :: Resolves(s.feeds, t) <==> Resolves(r.feeds, t);
    forall g | 0 <= g < |s.feeds|
      ensures FeedReservationOk(s, g)
    {
      assert FeedReservationOk(r, g);
    }
    forall k | Live(s.reservations, k)
      ensures ReservationOk(s, k)
    {
      assert ReservationOk(r, k);
    }
  }
}
