/**
The typed layer over the span-feed tables: feeds, spans and reservations as objects that remember
whether they are still open, unreleased or active. Through it no stale or pending token is ever used.
*/
module SpanFeedClient {
  import opened Handles
  import opened Statuses
  import opened Words
  import opened Slots
  import opened SpanFeedSpec
  import opened SpanFeedProofs
  import opened SpanFeedRuns
  import opened SpanFeedTokens
  import opened SpanFeedCalls
  import opened SpanFeedTables
  import opened SpanFeedEffects

  /** The open flag that a feed shares with everything obtained from it. */
  class Owner {
    var open: bool
    /** The token of that feed. */
    ghost const feed: nat

    constructor (ghost feed: nat)
      ensures open && this.feed == feed
    {
      open := true;
      this.feed := feed;
    }
  }

  class FeedObject {
    const token: nat
    const owner: Owner

    constructor (token: nat, owner: Owner)
      ensures this.token == token && this.owner == owner
    {
      this.token := token;
      this.owner := owner;
    }
  }

  class SpanObject {
    const token: nat
    const owner: Owner
    const bytes: Bytes
    var released: bool
    /** The native span it was made for. */
    ghost const info: Info

    constructor (token: nat, owner: Owner, bytes: Bytes, ghost info: Info)
      ensures this.token == token && this.owner == owner && this.bytes == bytes && !released && this.info == info
    {
      this.token := token;
      this.owner := owner;
      this.bytes := bytes;
      released := false;
      this.info := info;
    }
  }

  datatype ReservationState = Active | Committed | Cancelled

  class ReservationObject {
    const token: nat
    const owner: Owner
    const capacity: nat
    var state: ReservationState

    constructor (token: nat, owner: Owner, capacity: nat)
      ensures this.token == token && this.owner == owner && this.capacity == capacity && state == Active
    {
      this.token := token;
      this.owner := owner;
      this.capacity := capacity;
      state := Active;
    }
  }

  datatype Answer = Fine | Refused(status: Status) | Closed | OutOfMemory

  function AnswerOf(status: Status): Answer {
    if status == Success then Fine else Refused(status)
  }

  /**
  What goes on around one drain call: the answers to the cleanup, whether an allocation raises inside the
  call or after it, and how the release of the span taken by it would be answered.
  */
  datatype Happening = Happening(a: Answers, again: bool, raises: bool, noMemory: bool, back: Answers, released: Status)

  // ---- What each object may rely on ----

  ghost predicate Usable(sp: SpanObject)
    reads sp, sp.owner
  {
    !sp.released && sp.owner.open
  }

  /** A usable span's token names its own held slot: never a stale, pending or reused one. */
  ghost predicate SpanGood(s: State, sp: SpanObject)
    reads sp, sp.owner
  {
    Usable(sp) ==> HeldToken(s, sp.token) && At(s.spans, sp.token) == Span(sp.owner.feed, sp.info)
  }

  ghost predicate Open(r: ReservationObject)
    reads r, r.owner
  {
    r.state == Active && r.owner.open
  }

  ghost predicate ReservationGood(s: State, r: ReservationObject)
    reads r, r.owner
  {
    Open(r) ==>
      && Standing(s, r.token)
      && At(s.reservations, r.token).feed == r.owner.feed && At(s.reservations, r.token).len == r.capacity
  }

  ghost predicate OwnersGood(s: State, owners: set<Owner>)
    reads owners
  {
    && (forall o :: o in owners && o.open ==> Resolves(s.feeds, o.feed))
    && (forall o, p :: (o in owners && p in owners && o != p && o.open && p.open) ==> o.feed != p.feed)
  }

  ghost predicate SpansGood(s: State, spans: set<SpanObject>, owners: set<Owner>)
    reads spans, owners
  {
    && (forall sp :: sp in spans ==> sp.owner in owners)
    && (forall sp :: sp in spans ==> SpanGood(s, sp))
    && (forall sp, sq :: (sp in spans && sq in spans && sp != sq && Usable(sp) && Usable(sq)) ==> sp.token != sq.token)
  }

  ghost predicate ReservationsGood(s: State, reservations: set<ReservationObject>, owners: set<Owner>)
    reads reservations, owners
  {
    && (forall r :: r in reservations ==> r.owner in owners)
    && (forall r :: r in reservations ==> ReservationGood(s, r))
    && (forall r, q :: (r in reservations && q in reservations && r != q && Open(r) && Open(q)) ==> r.token != q.token)
  }

  ghost predicate TablesGood(s: State) {
    Inv(s) && OffersOnce(s.offers) && CallsOk(s) && EndsOnce(s.calls)
  }

  // ---- One call keeps what it does not end ----

  /** The objects a call leaves alone keep what they rely on. */
  lemma StepKeepsOthers(s: State, op: Op, spans: set<SpanObject>, reservations: set<ReservationObject>,
                        owners: set<Owner>)
    requires TablesGood(s) && Admissible(s, op) && Proper(s, op) && AsksOnce(s, op)
    requires OwnersGood(s, owners) && SpansGood(s, spans, owners) && ReservationsGood(s, reservations, owners)
    requires op.Close? && op.native == Success ==> forall o :: o in owners && o.open ==> o.feed != op.token
    requires op.Release? && op.native == Success ==> forall sp :: sp in spans && Usable(sp) ==> sp.token != op.token
    requires op.Finish? && op.native == Success ==> forall r :: r in reservations && Open(r) ==> r.token != op.token
    ensures var s' := Step(s, op).state;
            && TablesGood(s')
            && OwnersGood(s', owners) && SpansGood(s', spans, owners) && ReservationsGood(s', reservations, owners)
  {
    hide Inv, OffersOnce, CallsOk, EndsOnce, Step, Admissible, Proper, AsksOnce, HeldToken, Standing;
    StepKeepsInv(s, op);
    StepOffersOnceExactly(s, op);
    StepEndsOnceExactly(s, op);
    var s' := Step(s, op).state;
    forall o | o in owners && o.open
      ensures Resolves(s'.feeds, o.feed)
    {
      StepKeepsFeed(s, op, o.feed);
    }
    forall sp | sp in spans
      ensures SpanGood(s', sp)
    {
      if Usable(sp) {
        HeldResolves(s, sp.token);
        StepKeepsHeld(s, op, sp.token);
      }
    }
    forall r | r in reservations
      ensures ReservationGood(s', r)
    {
      if Open(r) {
        StandingResolves(s, r.token);
        StepKeepsStanding(s, op, r.token);
      }
    }
  }

  lemma HeldResolves(s: State, t: nat)
    requires HeldToken(s, t)
    ensures Resolves(s.spans, t)
  {
  }

  lemma StandingResolves(s: State, t: nat)
    requires Standing(s, t)
    ensures Resolves(s.reservations, t)
  {
  }

  /** The answers a release, commit or cancel of a good token can get. */
  lemma GoodAnswers(s: State, t: nat)
    requires Inv(s)
    ensures HeldToken(s, t) ==> forall a, native ::
              ReleaseStep(s, t, a, native).reply == Just(native) && Proper(s, Op.Release(t, a, native))
    ensures Standing(s, t) ==> !PendingToken(s, t)
    ensures Standing(s, t) ==> forall commits, used, length, a, native, added ::
              (commits ==> 0 <= used <= At(s.reservations, t).len && used <= length) ==>
                FinishStep(s, t, commits, used, length, a, native, added).reply
                == if commits && used != 0 && At(s.reservations, t).pointer == 0
                   then Just(NativeFailure) else Just(native)
  {
    FeedNeverStale(s, t);
    hide Inv, CleanUp, EndActive, Produce;
  }

  /** Every span that has gone back stays gone back. */
  ghost predicate BackStays(s: State, s': State) {
    forall id: nat :: Returned(s, id) ==> Returned(s', id)
  }

  lemma StepBackStays(s: State, op: Op)
    requires Inv(s) && Admissible(s, op)
    ensures BackStays(s, Step(s, op).state)
  {
    hide Inv, Admissible, Returned, Step;
    forall id: nat | Returned(s, id)
      ensures Returned(Step(s, op).state, id)
    {
      StepKeepsReturned(s, op, id);
    }
  }

  lemma BackStaysOn(s: State, d: State, e: State)
    requires BackStays(s, d) && BackStays(d, e)
    ensures BackStays(s, e)
  {
    hide Returned;
  }

  lemma BackStaysHere(s: State)
    ensures BackStays(s, s)
  {
  }

  /** What a drain call answers for the queue `supply`. */
  ghost predicate Drained(spans: set<SpanObject>, o: Outcome, token: nat, supply: seq<Info>, raises: bool)
    reads spans, set sp | sp in spans :: sp.owner
  {
    if raises then o.reply.Raised? && (supply != [] ==> Returned(o.state, supply[0].id))
    else if supply == [] then o.reply == Just(Success)
    else
      || (o.reply == Just(NativeFailure) && Returned(o.state, supply[0].id))
      || (&& o.reply.Reply? && o.reply.status == Success && o.reply.token.Some? && o.reply.bytes == supply[0].payload
          && HeldToken(o.state, o.reply.token.value)
          && Resolves(o.state.spans, o.reply.token.value)
          && At(o.state.spans, o.reply.token.value) == Span(token, supply[0])
          && forall sp :: sp in spans && Usable(sp) ==> sp.token != o.reply.token.value)
  }

  class Client {
    const tables: Tables
    ghost var spans: set<SpanObject>
    ghost var reservations: set<ReservationObject>
    ghost var owners: set<Owner>

    ghost predicate Ok()
      reads this, tables, tables.feeds, tables.spans, tables.reservations, spans, reservations, owners
    {
      && tables.Shaped()
      && TablesGood(tables.State())
      && OwnersGood(tables.State(), owners)
      && SpansGood(tables.State(), spans, owners)
      && ReservationsGood(tables.State(), reservations, owners)
    }

    constructor (feeds: nat, spanCapacity: nat, reservationCapacity: nat)
      requires 1 < feeds <= SLOT_LIMIT && 1 < spanCapacity <= SLOT_LIMIT && 1 < reservationCapacity <= SLOT_LIMIT
      ensures Ok()
    {
      tables := new Tables(feeds, spanCapacity, reservationCapacity);
      spans, reservations, owners := {}, {}, {};
      new;
      InitialInv(feeds, spanCapacity, reservationCapacity);
      InitialCalls(feeds, spanCapacity, reservationCapacity);
    }

    // ---- Spans ----

    method ReleaseSpan(sp: SpanObject, ghost a: Answers, native: Status) returns (answer: Answer)
      requires Ok() && sp in spans
      modifies sp`released, tables, tables.feeds, tables.spans, tables.reservations
      ensures Ok()
      ensures old(sp.released) || !sp.owner.open ==>
                answer == (if old(sp.released) then Fine else Closed)
                && tables.State() == old(tables.State()) && sp.released == old(sp.released)
      ensures old(Usable(sp)) ==>
                && answer == AnswerOf(native)
                && sp.released == (native == Success)
                && tables.State() == ReleaseStep(old(tables.State()), sp.token, a, native).state
    {
      hide TablesGood, OwnersGood, ReservationsGood, HeldToken, Tables.State, ReleaseStep;
      if sp.released {
        return Fine;
      }
      if !sp.owner.open {
        return Closed;
      }
      ghost var s := tables.State();
      ReleasePrepared(s, sp, a, native);
      var reply := tables.Release(sp.token, a, native);
      answer := AnswerOf(reply.status);
      if reply.status == Success {
        sp.released := true;
      }
    }

    /** What a release of a usable span will answer, and what it leaves of everything else. */
    lemma ReleasePrepared(s: State, sp: SpanObject, a: Answers, native: Status)
      requires Ok() && s == tables.State() && sp in spans && Usable(sp)
      ensures ReleaseStep(s, sp.token, a, native).reply == Just(native)
      ensures var s' := ReleaseStep(s, sp.token, a, native).state;
              && TablesGood(s') && OwnersGood(s', owners) && ReservationsGood(s', reservations, owners)
              && SpansGood(s', if native == Success then spans - {sp} else spans, owners)
    {
      hide Tables.State, ReleaseStep, OwnersGood, ReservationsGood, OffersOnce, Inv, CallsOk, EndsOnce, HeldToken, Proper;
      GoodAnswers(s, sp.token);
      var op := Op.Release(sp.token, a, native);
      StepKeepsOthers(s, op, if native == Success then spans - {sp} else spans, reservations, owners);
    }

    // ---- Reservations ----

    /** Commit, when `commits`, or cancel; the staged contents are as long as the capacity. */
    method FinishReservation(r: ReservationObject, commits: bool, used: int, ghost a: Answers, native: Status,
                             ghost added: seq<Info>) returns (answer: Answer)
      requires Ok() && r in reservations && FreshSpans(tables.record.issued, added)
      modifies r`state, tables, tables.feeds, tables.spans, tables.reservations
      ensures Ok()
      ensures commits && (used < 0 || used > r.capacity) ==>
                answer == Refused(InvalidArgument) && tables.State() == old(tables.State()) && r.state == old(r.state)
      ensures !(commits && (used < 0 || used > r.capacity)) && !old(Open(r)) ==>
                answer == (if r.owner.open then Refused(InvalidArgument) else Closed)
                && tables.State() == old(tables.State()) && r.state == old(r.state)
      ensures !(commits && (used < 0 || used > r.capacity)) && old(Open(r)) ==>
                && (answer == AnswerOf(native) || (commits && answer == Refused(NativeFailure)))
                && (var o := FinishStep(old(tables.State()), r.token, commits, used, r.capacity, a, native, added);
                    tables.State() == o.state && o.reply.Reply? && answer == AnswerOf(o.reply.status))
                && r.state == if answer != Fine then Active else if commits then Committed else Cancelled
    {
      hide TablesGood, OwnersGood, SpansGood, Standing, Tables.State, FinishStep;
      if commits && (used < 0 || used > r.capacity) {
        return Refused(InvalidArgument);
      }
      if !r.owner.open {
        return Closed;
      }
      if r.state != Active {
        return Refused(InvalidArgument);
      }
      ghost var s := tables.State();
      RecordKept();
      FinishPrepared(s, r, commits, used, a, native, added);
      var reply := tables.Finish(r.token, commits, used, r.capacity, a, native, added);
      answer := AnswerOf(reply.status);
      if reply.status == Success {
        r.state := if commits then Committed else Cancelled;
      }
    }

    lemma FinishPrepared(s: State, r: ReservationObject, commits: bool, used: int, a: Answers, native: Status,
                         added: seq<Info>)
      requires Ok() && s == tables.State() && r in reservations && Open(r) && FreshSpans(s.issued, added)
      requires commits ==> 0 <= used <= r.capacity
      ensures var o := FinishStep(s, r.token, commits, used, r.capacity, a, native, added);
              && (o.reply == Just(native) || (commits && o.reply == Just(NativeFailure)))
              && TablesGood(o.state) && OwnersGood(o.state, owners) && SpansGood(o.state, spans, owners)
              && ReservationsGood(o.state, if o.reply == Just(Success) then reservations - {r} else reservations, owners)
    {
      hide Tables.State, FinishStep, OwnersGood, SpansGood, OffersOnce, Inv, CallsOk, EndsOnce, Standing, FreshSpans;
      GoodAnswers(s, r.token);
      var op := Op.Finish(r.token, commits, used, r.capacity, a, native, added);
      var o := FinishStep(s, r.token, commits, used, r.capacity, a, native, added);
      if o.reply == Just(native) {
        StepKeepsOthers(s, op, spans, if native == Success then reservations - {r} else reservations, owners);
      } else {
        BlockedFinish(s, r.token, used, r.capacity, a, native, added);
        StepKeepsOthers(s, Op.Finish(r.token, commits, used, r.capacity, a, NativeFailure, added),
                        spans, reservations, owners);
      }
    }

    /** A commit that fails before the native call does not depend on the native answer. */
    lemma BlockedFinish(s: State, t: nat, used: int, length: nat, a: Answers, native: Status, added: seq<Info>)
      requires FinishStep(s, t, true, used, length, a, native, added).reply == Just(NativeFailure)
      ensures FinishStep(s, t, true, used, length, a, native, added)
           == FinishStep(s, t, true, used, length, a, NativeFailure, added)
    {
      hide CleanUp, EndActive, Produce;
    }

    lemma RecordKept()
      ensures tables.State().native == tables.record.native && tables.State().issued == tables.record.issued
      ensures tables.State().reserved == tables.record.reserved
    {
    }

    /** `noMemory`: the wrapper object cannot be allocated once the native side has answered. */
    method ReserveFeed(fo: FeedObject, minimum: int, ghost a: Answers, native: Status, pointer: nat, len: nat, id: nat,
                       ghost again: bool, raises: bool, noMemory: bool, ghost back: Answers, cancelled: Status)
      returns (answer: Answer, r: ReservationObject?)
      requires Ok() && fo.owner in owners && fo.token == fo.owner.feed && id == tables.record.reserved
      requires native == Success ==> IdleAfterCleanUp(tables.State(), fo.token, a)
      modifies this`reservations, tables, tables.feeds, tables.spans, tables.reservations
      ensures Ok()
      ensures minimum < 0 || !fo.owner.open ==>
                answer == (if minimum < 0 then Refused(InvalidArgument) else Closed)
                && r == null && tables.State() == old(tables.State())
      ensures minimum >= 0 && fo.owner.open ==>
                var o := ReserveStep(old(tables.State()), fo.token, minimum, a, native, pointer, len, again, raises);
                if o.reply.Raised? then
                  answer == OutOfMemory && r == null && tables.State() == o.state
                else if o.reply.status != Success then
                  answer == Refused(o.reply.status) && r == null && tables.State() == o.state
                else if noMemory then
                  answer == OutOfMemory && r == null && o.reply.token.Some?
                  && tables.State() == FinishStep(o.state, o.reply.token.value, false, 0, 0, back, cancelled, []).state
                else
                  answer == Fine && r != null && fresh(r) && r in reservations && Open(r) && r.owner == fo.owner
                  && r.capacity == len && o.reply.token == Some(r.token) && tables.State() == o.state
      ensures reservations == old(reservations) + if r != null then {r} else {}
    {
      hide TablesGood, OwnersGood, SpansGood, ReservationsGood, Standing, Tables.State, ReserveStep, FinishStep;
      r := null;
      if minimum < 0 {
        return Refused(InvalidArgument), r;
      }
      if !fo.owner.open {
        return Closed, r;
      }
      ghost var s := tables.State();
      RecordKept();
      ghost var op := Op.Reserve(fo.token, minimum, a, native, pointer, len, again, raises);
      ReservePrepared(s, fo, op);
      var reply := tables.Reserve(fo.token, minimum, a, native, pointer, len, id, again, raises);
      if reply.Raised? {
        return OutOfMemory, r;
      }
      answer := AnswerOf(reply.status);
      if reply.status == Success {
        var t := reply.token.value;
        if noMemory {
          CancelPrepared(tables.State(), t, back, cancelled);
          var _ := tables.Finish(t, false, 0, 0, back, cancelled, []);
          return OutOfMemory, r;
        }
        r := new ReservationObject(t, fo.owner, len);
        AddReservation(tables.State(), r);
        reservations := reservations + {r};
      }
    }

    lemma ReservePrepared(s: State, fo: FeedObject, op: Op)
      requires Ok() && s == tables.State() && fo.owner in owners && fo.token == fo.owner.feed && fo.owner.open
      requires op.Reserve? && op.token == fo.token && op.minimum >= 0
      requires op.native == Success ==> IdleAfterCleanUp(s, op.token, op.a)
      ensures var o := ReserveStep(s, op.token, op.minimum, op.a, op.native, op.pointer, op.len, op.again, op.raises);
              && TablesGood(o.state) && OwnersGood(o.state, owners) && SpansGood(o.state, spans, owners)
              && ReservationsGood(o.state, reservations, owners)
              && (o.reply.Reply? && o.reply.status == Success ==>
                    && o.reply.token.Some? && Standing(o.state, o.reply.token.value)
                    && At(o.state.reservations, o.reply.token.value).feed == op.token
                    && At(o.state.reservations, o.reply.token.value).len == op.len
                    && forall q :: q in reservations && Open(q) ==> q.token != o.reply.token.value)
    {
      hide Inv, OffersOnce, CallsOk, EndsOnce, Tables.State, SpansGood, Standing, ReserveStep, IdleAfterCleanUp;
      ReserveFacts(s, op.token, op.minimum, op.a, op.native, op.pointer, op.len, op.again, op.raises);
      StepKeepsOthers(s, op, spans, reservations, owners);
    }

    /** A new reservation whose object could not be made may be cancelled: no object has its token. */
    lemma CancelPrepared(s: State, t: nat, back: Answers, cancelled: Status)
      requires TablesGood(s) && OwnersGood(s, owners) && SpansGood(s, spans, owners)
      requires ReservationsGood(s, reservations, owners) && Standing(s, t)
      requires forall q :: q in reservations && Open(q) ==> q.token != t
      ensures var s' := FinishStep(s, t, false, 0, 0, back, cancelled, []).state;
              && TablesGood(s') && OwnersGood(s', owners) && SpansGood(s', spans, owners)
              && ReservationsGood(s', reservations, owners)
    {
      hide Inv, OffersOnce, CallsOk, EndsOnce, OwnersGood, SpansGood, ReservationsGood, FinishStep, Standing;
      GoodAnswers(s, t);
      StepKeepsOthers(s, Op.Finish(t, false, 0, 0, back, cancelled, []), spans, reservations, owners);
    }

    lemma AddReservation(s: State, r: ReservationObject)
      requires ReservationsGood(s, reservations, owners) && r.owner in owners
      requires ReservationGood(s, r)
      requires forall q :: q in reservations && Open(q) ==> q.token != r.token
      ensures ReservationsGood(s, reservations + {r}, owners)
    {
      hide Standing;
    }

    // ---- Draining ----

    /**
    Takes the span at the head of the native queue `supply`. Unless it is delivered as a new usable
    object, it has gone back or is pending to go back.
    */
    method DrainOne(fo: FeedObject, supply: seq<Info>, e: Happening) returns (answer: Answer, sp: SpanObject?)
      requires Ok() && fo.owner in owners && fo.token == fo.owner.feed && fo.owner.open
      requires supply == Queue(fo)
      modifies this`spans, tables, tables.feeds, tables.spans, tables.reservations
      ensures Ok() && old(spans) <= spans && BackStays(old(tables.State()), tables.State())
      ensures Queue(fo) == if supply == [] then [] else supply[1..]
      ensures answer == OutOfMemory ==> e.raises || e.noMemory
      ensures answer == Fine <==> !e.raises && (supply == [] || (!e.noMemory && Addressable(supply[0]) && old(Room(fo)) > 0))
      ensures answer == Refused(NativeFailure) ==> supply != [] && (!Addressable(supply[0]) || old(Room(fo)) == 0)
      ensures supply != [] && answer == Fine ==> Room(fo) == old(Room(fo)) - 1
      ensures answer in {Fine, OutOfMemory, Refused(NativeFailure)}
      ensures supply == [] || answer != Fine ==> sp == null
      ensures supply != [] && answer != Fine ==> Returned(tables.State(), supply[0].id)
      ensures supply != [] && answer == Fine ==>
                && sp != null && fresh(sp) && sp in spans && Usable(sp) && sp.owner == fo.owner
                && sp.info == supply[0] && sp.bytes == supply[0].payload
    {
      hide TablesGood, OwnersGood, SpansGood, ReservationsGood, HeldToken, Tables.State, DrainStep, ReleaseStep,
           StreamOf, Returned, BackStays, SpanRoom, Addressable;
      sp := null;
      ghost var s := tables.State();
      DrainPrepared(s, fo, supply, e);
      RoomPrepared(s, fo, supply, e);
      var reply := tables.Drain(fo.token, if supply == [] then None else Some(supply[0]), e.a, e.again, e.raises);
      if reply.Raised? {
        return OutOfMemory, sp;
      }
      answer := AnswerOf(reply.status);
      if reply.status == Success && reply.token.Some? {
        var t := reply.token.value;
        if e.noMemory {
          ghost var d := tables.State();
          UnwrappedPrepared(d, fo, t, e.back, e.released);
          BackStaysOn(s, d, ReleaseStep(d, t, e.back, e.released).state);
          var _ := tables.Release(t, e.back, e.released);
          return OutOfMemory, sp;
        }
        sp := new SpanObject(t, fo.owner, reply.bytes, supply[0]);
        AddSpan(tables.State(), sp);
        spans := spans + {sp};
      }
    }

    ghost function Queue(fo: FeedObject): seq<Info>
      reads this, tables, tables.feeds, tables.spans, tables.reservations
    {
      var s := tables.State();
      if Index(fo.token) < |s.feeds| then StreamOf(s, Index(fo.token)).queue else []
    }

    /** The span slots that a drain of the feed can choose from. */
    ghost function Room(fo: FeedObject): nat
      reads this, tables, tables.feeds, tables.spans, tables.reservations
    {
      var s := tables.State();
      if Index(fo.token) < |s.feeds| then SpanRoom(s, Index(fo.token)) else 0
    }

    /** Whether one drain call of an open feed delivers, and the room it then leaves. */
    lemma RoomPrepared(s: State, fo: FeedObject, supply: seq<Info>, e: Happening)
      requires Ok() && s == tables.State() && fo.owner in owners && fo.token == fo.owner.feed && fo.owner.open
      requires supply == Queue(fo)
      ensures var o, f := DrainStep(s, fo.token, e.a, e.again, e.raises), Index(fo.token);
              && f < |s.feeds| && f < |o.state.feeds|
              && (o.reply.Raised? <==> e.raises)
              && (supply == [] && !e.raises ==> o.reply == Just(Success))
              && (supply != [] && !e.raises ==>
                    && (o.reply.status == Success <==> Addressable(supply[0]) && SpanRoom(s, f) > 0)
                    && (o.reply.status == Success ==>
                          o.reply.token.Some? && SpanRoom(o.state, f) == SpanRoom(s, f) - 1))
    {
      hide Inv, OffersOnce, CallsOk, EndsOnce, Tables.State, SpansGood, ReservationsGood;
      hide DrainStep, Returned, Delivered, SpanRoom, CleanUp;
      DrainFacts(s, fo.token, e.a, e.again, e.raises);
      if supply != [] {
        DrainExactly(s, fo.token, e.a, e.again, e.raises);
      }
    }

    /** What one drain call of an open feed answers, and what it leaves of everything else. */
    lemma DrainPrepared(s: State, fo: FeedObject, supply: seq<Info>, e: Happening)
      requires Ok() && s == tables.State() && fo.owner in owners && fo.token == fo.owner.feed && fo.owner.open
      requires supply == Queue(fo)
      ensures Resolves(s.feeds, fo.token) && Index(fo.token) < |s.feeds|
      ensures StreamOf(CleanUp(s, Index(fo.token), e.a), Index(fo.token)).queue == supply
      ensures var o := DrainStep(s, fo.token, e.a, e.again, e.raises);
              && TablesGood(o.state) && OwnersGood(o.state, owners) && SpansGood(o.state, spans, owners)
              && ReservationsGood(o.state, reservations, owners) && BackStays(s, o.state)
              && Resolves(o.state.feeds, fo.token)
              && StreamOf(o.state, Index(fo.token)).queue == (if supply == [] then [] else supply[1..])
              && Drained(spans, o, fo.token, supply, e.raises)
    {
      hide Inv, OffersOnce, CallsOk, EndsOnce, Tables.State, SpansGood, ReservationsGood;
      hide DrainStep, HeldToken, Returned, Delivered;
      var op := Op.Drain(fo.token, e.a, e.again, e.raises);
      DrainFacts(s, fo.token, e.a, e.again, e.raises);
      StepKeepsOthers(s, op, spans, reservations, owners);
      StepBackStays(s, op);
      DrainedFrom(s, fo.token, supply, e);
    }

    lemma DrainedFrom(s: State, token: nat, supply: seq<Info>, e: Happening)
      requires Inv(s) && Resolves(s.feeds, token) && supply == StreamOf(s, Index(token)).queue
      requires SpansGood(s, spans, owners)
      ensures Drained(spans, DrainStep(s, token, e.a, e.again, e.raises), token, supply, e.raises)
    {
      hide Inv, HeldToken, Returned, CleanUp;
      DrainFacts(s, token, e.a, e.again, e.raises);
      var o := DrainStep(s, token, e.a, e.again, e.raises);
      if supply != [] && o.reply.Reply? && o.reply.status == Success {
        GoodToken(o.state, o.reply.token.value);
      }
    }

    /** A span whose object could not be made goes straight back: no object has its token. */
    lemma UnwrappedPrepared(d: State, fo: FeedObject, t: nat, back: Answers, released: Status)
      requires TablesGood(d) && OwnersGood(d, owners) && SpansGood(d, spans, owners)
      requires ReservationsGood(d, reservations, owners) && HeldToken(d, t) && Resolves(d.feeds, fo.token)
      requires forall sp :: sp in spans && Usable(sp) ==> sp.token != t
      ensures Resolves(d.spans, t)
      ensures var s' := ReleaseStep(d, t, back, released).state;
              && TablesGood(s') && OwnersGood(s', owners) && SpansGood(s', spans, owners)
              && ReservationsGood(s', reservations, owners) && BackStays(d, s')
              && Resolves(s'.feeds, fo.token)
              && StreamOf(s', Index(fo.token)).queue == StreamOf(d, Index(fo.token)).queue
              && Returned(s', At(d.spans, t).info.id)
    {
      hide Inv, OffersOnce, CallsOk, EndsOnce, OwnersGood, SpansGood, ReservationsGood, ReleaseStep, HeldToken, Returned;
      var op := Op.Release(t, back, released);
      GoodToken(d, t);
      StepKeepsOthers(d, op, spans, reservations, owners);
      StepBackStays(d, op);
      ReleaseReturns(d, t, back, released);
      ReleaseKeepsQueues(d, t, back, released, fo.token);
    }

    lemma AddSpan(s: State, sp: SpanObject)
      requires SpansGood(s, spans, owners) && sp.owner in owners && SpanGood(s, sp)
      requires forall sq :: sq in spans && Usable(sq) ==> sq.token != sp.token
      ensures SpansGood(s, spans + {sp}, owners)
    {
      hide HeldToken;
    }

    /** Offers back every listed span; each native answer is ignored. */
    method ReleaseAll(fo: FeedObject, list: seq<SpanObject>, env: seq<Happening>)
      requires Ok() && fo.owner in owners && fo.token == fo.owner.feed && fo.owner.open && |env| >= |list|
      requires forall sp :: sp in list ==> sp in spans && sp.owner == fo.owner
      requires forall sp :: sp in list && sp.released ==> Returned(tables.State(), sp.info.id)
      modifies list, tables, tables.feeds, tables.spans, tables.reservations
      ensures Ok() && BackStays(old(tables.State()), tables.State()) && Queue(fo) == old(Queue(fo))
      ensures forall sp :: sp in list ==> Returned(tables.State(), sp.info.id)
    {
      hide TablesGood, OwnersGood, SpansGood, ReservationsGood, HeldToken, Tables.State, ReleaseStep, StreamOf,
           Returned;
      ghost var s := tables.State();
      BackStaysHere(s);
      var i := 0;
      while i < |list|
        invariant 0 <= i <= |list|
        invariant Ok() && BackStays(s, tables.State()) && Queue(fo) == old(Queue(fo))
        invariant forall j :: 0 <= j < i ==> Returned(tables.State(), list[j].info.id)
        invariant forall j :: i <= j < |list| ==> Usable(list[j]) || Returned(tables.State(), list[j].info.id)
      {
        ghost var d := tables.State();
        ghost var usable := Usable(list[i]);
        if usable {
          ListedPrepared(d, fo, list[i], env[i].back, env[i].released);
        }
        var _ := ReleaseSpan(list[i], env[i].back, env[i].released);
        if usable {
          BackStaysOn(s, d, tables.State());
        }
        i := i + 1;
      }
    }

    lemma ListedPrepared(s: State, fo: FeedObject, sp: SpanObject, back: Answers, released: Status)
      requires Ok() && s == tables.State() && sp in spans && Usable(sp) && sp.owner == fo.owner
      requires fo.owner in owners && fo.token == fo.owner.feed
      ensures var s' := ReleaseStep(s, sp.token, back, released).state;
              && BackStays(s, s') && Returned(s', sp.info.id)
              && Index(fo.token) < |s.feeds| && Index(fo.token) < |s'.feeds|
              && StreamOf(s', Index(fo.token)).queue == Queue(fo)
    {
      hide Inv, OffersOnce, CallsOk, EndsOnce, ReservationsGood, ReleaseStep, HeldToken, Returned, Tables.State;
      GoodToken(s, sp.token);
      StepBackStays(s, Op.Release(sp.token, back, released));
      ReleaseReturns(s, sp.token, back, released);
      ReleaseKeepsQueues(s, sp.token, back, released, fo.token);
    }

    /**
    All or nothing: on success every span of the native queue in order, each as a new usable object with
    its bytes; on failure no span, and every span taken so far has gone back or is pending to go back.
    `noAnswer`: the answer at the end, list or error, cannot be allocated; spans whose release was refused
    are then offered once more, under `env2`. It succeeds exactly when every allocation does, every span's
    bytes can be read and every span finds a slot.
    */
    method Drain(fo: FeedObject, supply: seq<Info>, env: seq<Happening>, noAnswer: bool, env2: seq<Happening>)
      returns (answer: Answer, list: seq<SpanObject>, ghost taken: nat)
      requires Ok() && fo.owner in owners && fo.token == fo.owner.feed
      requires (fo.owner.open ==> supply == Queue(fo)) && |env| > |supply| && |env2| >= |supply|
      modifies this`spans, tables, tables.feeds, tables.spans, tables.reservations
      ensures Ok() && old(spans) <= spans
      ensures !fo.owner.open ==> answer == Closed && list == [] && tables.State() == old(tables.State())
      ensures fo.owner.open ==> taken <= |supply| && Queue(fo) == supply[taken..]
      ensures answer == Fine ==> taken == |supply| == |list| && forall k :: 0 <= k < |list| ==>
                fresh(list[k]) && list[k] in spans && Handed(list[k], fo, supply[k])
      ensures fo.owner.open && answer != Fine ==>
                list == [] && forall k :: 0 <= k < taken ==> Returned(tables.State(), supply[k].id)
      ensures answer == Fine <==> fo.owner.open && !noAnswer && AllGo(supply, env, old(Room(fo)))
      ensures answer == Refused(NativeFailure) ==>
                !noAnswer && ((exists k :: 0 <= k < |supply| && !Addressable(supply[k])) || |supply| > old(Room(fo)))
      ensures answer == OutOfMemory ==> noAnswer || exists k :: 0 <= k <= |supply| && (env[k].raises || env[k].noMemory)
      ensures fo.owner.open ==> answer in {Fine, OutOfMemory, Refused(NativeFailure)}
    {
      hide TablesGood, OwnersGood, SpansGood, ReservationsGood, HeldToken, Tables.State, StreamOf, Returned, Queue,
           Collected, Handed, Room, Addressable, AllGo;
      taken, list := 0, [];
      if !fo.owner.open {
        return Closed, [], 0;
      }
      var newest: seq<SpanObject>, finished := [], false;
      NoneCollected(fo, supply);
      answer := Fine;
      while !finished
        invariant Ok() && old(spans) <= spans && |newest| <= taken <= |supply| && Queue(fo) == supply[taken..]
        invariant forall k :: 0 <= k < |newest| ==> fresh(newest[k]) && newest[k] in spans
        invariant Collected(newest, fo, supply)
        invariant taken == |newest| || (taken == |newest| + 1 && finished && answer != Fine)
        invariant taken > |newest| ==> Returned(tables.State(), supply[taken - 1].id)
        invariant Went(supply, env, old(Room(fo)), |newest|)
        invariant !finished ==> Room(fo) == old(Room(fo)) - |newest|
        invariant finished && answer == Fine ==> taken == |supply| && AllGo(supply, env, old(Room(fo)))
        invariant answer != Fine ==> !AllGo(supply, env, old(Room(fo)))
        invariant answer == Refused(NativeFailure) ==>
          (exists k :: 0 <= k < |supply| && !Addressable(supply[k])) || |supply| > old(Room(fo))
        invariant !finished ==> answer == Fine
        invariant answer == OutOfMemory ==> exists k :: 0 <= k <= |supply| && (env[k].raises || env[k].noMemory)
        invariant answer in {Fine, OutOfMemory, Refused(NativeFailure)}
        decreases !finished, |supply| - taken
      {
        var rest := supply[|newest|..];
        var sp;
        ghost var room := Room(fo);
        answer, sp := DrainOne(fo, rest, env[|newest|]);
        OneGoes(supply, env, old(Room(fo)), |newest|, room, answer == Fine);
        if rest != [] {
          taken := taken + 1;
        }
        if sp == null {
          finished := true;
        } else {
          CollectOne(newest, sp, fo, supply);
          newest := [sp] + newest;
        }
      }
      CollectedAre(newest, fo, supply);
      if answer == Fine && !noAnswer {
        list := seq(|newest|, k requires 0 <= k < |newest| => newest[|newest| - 1 - k]);
        return;
      }
      ghost var before := tables.State();
      ReleaseAll(fo, newest, env);
      if noAnswer {
        if answer != OutOfMemory && answer != Fine {
          ReleaseAll(fo, newest, env2);
        }
        answer := OutOfMemory;
      }
      forall k | 0 <= k < |newest|
        ensures Returned(tables.State(), supply[k].id)
      {
        assert newest[|newest| - 1 - k] in newest;
      }
    }

    /** Every allocation of the drain succeeds, every span's bytes can be read, and every span finds a slot. */
    ghost predicate AllGo(supply: seq<Info>, env: seq<Happening>, room: nat)
      requires |env| > |supply|
    {
      && (forall k :: 0 <= k <= |supply| ==> !env[k].raises)
      && (forall k :: 0 <= k < |supply| ==> !env[k].noMemory && Addressable(supply[k]))
      && |supply| <= room
    }

    /** The first n spans went through. */
    ghost predicate Went(supply: seq<Info>, env: seq<Happening>, room: nat, n: nat)
      requires |env| > |supply| >= n
    {
      n <= room && forall k :: 0 <= k < n ==> !env[k].raises && !env[k].noMemory && Addressable(supply[k])
    }

    lemma OneGoes(supply: seq<Info>, env: seq<Happening>, room: nat, n: nat, left: nat, fine: bool)
      requires |env| > |supply| >= n && Went(supply, env, room, n) && left == room - n
      requires fine <==> !env[n].raises && (n == |supply| || (!env[n].noMemory && Addressable(supply[n]) && left > 0))
      ensures fine && n < |supply| ==> Went(supply, env, room, n + 1)
      ensures fine && n == |supply| ==> AllGo(supply, env, room)
      ensures !fine ==> !AllGo(supply, env, room)
    {
      hide Addressable;
    }

    /** Newest first, a usable object for each of the first spans of the queue. */
    ghost predicate Collected(newest: seq<SpanObject>, fo: FeedObject, supply: seq<Info>)
      reads newest, set sp | sp in newest :: sp.owner
    {
      |newest| <= |supply| && forall k :: 0 <= k < |newest| ==> Handed(newest[|newest| - 1 - k], fo, supply[k])
    }

    lemma NoneCollected(fo: FeedObject, supply: seq<Info>)
      ensures Collected([], fo, supply)
    {
    }

    lemma CollectOne(newest: seq<SpanObject>, sp: SpanObject, fo: FeedObject, supply: seq<Info>)
      requires Collected(newest, fo, supply) && |newest| < |supply|
      requires Usable(sp) && sp.owner == fo.owner && sp.info == supply[|newest|] && sp.bytes == supply[|newest|].payload
      ensures Collected([sp] + newest, fo, supply)
    {
      var all := [sp] + newest;
      forall k | 0 <= k < |all|
        ensures Handed(all[|all| - 1 - k], fo, supply[k])
      {
        if k < |newest| {
          assert Handed(newest[|newest| - 1 - k], fo, supply[k]);
        }
      }
    }

    lemma CollectedAre(newest: seq<SpanObject>, fo: FeedObject, supply: seq<Info>)
      requires Collected(newest, fo, supply)
      ensures |newest| <= |supply|
      ensures forall k :: 0 <= k < |newest| ==> Handed(newest[|newest| - 1 - k], fo, supply[k])
      ensures forall j :: 0 <= j < |newest| ==>
                newest[j].owner == fo.owner && !newest[j].released && newest[j].info == supply[|newest| - 1 - j]
    {
      forall j | 0 <= j < |newest|
        ensures newest[j].owner == fo.owner && !newest[j].released && newest[j].info == supply[|newest| - 1 - j]
      {
        assert Handed(newest[|newest| - 1 - (|newest| - 1 - j)], fo, supply[|newest| - 1 - j]);
      }
    }

    ghost predicate Handed(sp: SpanObject, fo: FeedObject, info: Info)
      reads sp, sp.owner
    {
      Usable(sp) && sp.owner == fo.owner && sp.info == info && sp.bytes == info.payload
    }

    // ---- Feeds ----

    /** Write and commit; `rejected` is the length test of a write. */
    method Write(fo: FeedObject, ghost a: Answers, rejected: bool, native: Status, ghost added: seq<Info>)
      returns (answer: Answer)
      requires Ok() && fo.owner in owners && fo.token == fo.owner.feed && FreshSpans(tables.record.issued, added)
      modifies tables, tables.feeds, tables.spans, tables.reservations
      ensures Ok()
      ensures !fo.owner.open ==> answer == Closed && tables.State() == old(tables.State())
      ensures fo.owner.open ==>
                && answer == (if rejected then Refused(InvalidArgument) else AnswerOf(native))
                && tables.State() == ProduceStep(old(tables.State()), fo.token, a, rejected, native, added).state
    {
      hide TablesGood, OwnersGood, SpansGood, ReservationsGood, Tables.State, ProduceStep, FreshSpans;
      if !fo.owner.open {
        return Closed;
      }
      RecordKept();
      ghost var s := tables.State();
      WritePrepared(s, fo, Op.Produces(fo.token, a, rejected, native, added));
      var reply := tables.CallNative(fo.token, a, rejected, native, added);
      answer := AnswerOf(reply.status);
    }

    lemma WritePrepared(s: State, fo: FeedObject, op: Op)
      requires Ok() && s == tables.State() && fo.owner in owners && fo.token == fo.owner.feed && fo.owner.open
      requires op.Produces? && op.token == fo.token && FreshSpans(s.issued, op.added)
      ensures var o := ProduceStep(s, op.token, op.a, op.rejected, op.native, op.added);
              && TablesGood(o.state) && OwnersGood(o.state, owners) && SpansGood(o.state, spans, owners)
              && ReservationsGood(o.state, reservations, owners)
              && o.reply == Just(if op.rejected then InvalidArgument else op.native)
    {
      hide Inv, OffersOnce, CallsOk, EndsOnce, Tables.State, SpansGood, ReservationsGood, FreshSpans, CleanUp;
      StepKeepsOthers(s, op, spans, reservations, owners);
    }

    method CreateFeed(valid: bool, stream: nat, attach: Status, raises: bool)
      returns (answer: Answer, fo: FeedObject?)
      requires Ok() && (stream == 0 || stream !in tables.record.native)
      modifies this, tables, tables.feeds
      ensures Ok()
      ensures var o := CreateStep(old(tables.State()), valid, stream, attach, raises);
              && tables.State() == o.state
              && answer == (if o.reply.Raised? then OutOfMemory else AnswerOf(o.reply.status))
              && (fo != null <==> answer == Fine) && owners == old(owners) + (if fo != null then {fo.owner} else {})
              && (fo != null ==>
                    && fresh(fo) && fresh(fo.owner) && fo.owner.open
                    && o.reply.Reply? && o.reply.token == Some(fo.token))
      ensures fo != null ==> fo.token == fo.owner.feed
    {
      hide TablesGood, OwnersGood, SpansGood, ReservationsGood, Tables.State, CreateStep;
      ghost var s := tables.State();
      RecordKept();
      ghost var op := Op.Create(valid, stream, attach, raises);
      CreatePrepared(s, op);
      var reply := tables.Create(valid, stream, attach, raises);
      fo := null;
      if reply.Raised? {
        return OutOfMemory, fo;
      }
      answer := AnswerOf(reply.status);
      if reply.status == Success {
        var token := reply.token.value;
        var owner := new Owner(token);
        fo := new FeedObject(token, owner);
        AddOwner(tables.State(), owner);
        owners := owners + {owner};
      }
    }

    lemma CreatePrepared(s: State, op: Op)
      requires Ok() && s == tables.State() && op.Create? && (op.stream == 0 || op.stream !in s.native)
      ensures var o := Step(s, op);
              && TablesGood(o.state) && OwnersGood(o.state, owners) && SpansGood(o.state, spans, owners)
              && ReservationsGood(o.state, reservations, owners)
              && (o.reply.Reply? && o.reply.status == Success ==>
                    && o.reply.token.Some? && Resolves(o.state.feeds, o.reply.token.value)
                    && forall w :: w in owners && w.open ==> w.feed != o.reply.token.value)
    {
      hide Inv, OffersOnce, CallsOk, EndsOnce, SpansGood, ReservationsGood, Tables.State;
      StepKeepsOthers(s, op, spans, reservations, owners);
      CreatedToken(s, op);
    }

    lemma AddOwner(s: State, owner: Owner)
      requires OwnersGood(s, owners) && SpansGood(s, spans, owners) && ReservationsGood(s, reservations, owners)
      requires owner.open && Resolves(s.feeds, owner.feed)
      requires forall w :: w in owners && w.open ==> w.feed != owner.feed
      ensures OwnersGood(s, owners + {owner})
      ensures SpansGood(s, spans, owners + {owner}) && ReservationsGood(s, reservations, owners + {owner})
    {
    }

    method CloseFeed(fo: FeedObject, ghost a: Answers, native: Status) returns (answer: Answer)
      requires Ok() && fo.owner in owners && fo.token == fo.owner.feed
      requires native == Success ==> IdleAfterCleanUp(tables.State(), fo.token, a)
      modifies fo.owner`open, tables, tables.feeds, tables.spans, tables.reservations
      ensures Ok()
      ensures !old(fo.owner.open) ==> answer == Fine && tables.State() == old(tables.State()) && !fo.owner.open
      ensures old(fo.owner.open) ==>
                && answer == AnswerOf(native)
                && fo.owner.open == (native != Success)
                && tables.State() == CloseStep(old(tables.State()), fo.token, a, native).state
    {
      hide TablesGood, OwnersGood, SpansGood, ReservationsGood, Tables.State, CloseStep;
      if !fo.owner.open {
        return Fine;
      }
      ghost var s := tables.State();
      ClosePrepared(s, fo, a, native);
      var reply := tables.Close(fo.token, a, native);
      answer := AnswerOf(reply.status);
      if reply.status == Success {
        fo.owner.open := false;
        OwnerClosed(tables.State(), fo.owner);
      }
    }

    /** Spans and reservations of other owners than the one being closed. */
    ghost function SpansBut(owner: Owner): set<SpanObject>
      reads this
    {
      set sp | sp in spans && sp.owner != owner
    }

    ghost function ReservationsBut(owner: Owner): set<ReservationObject>
      reads this
    {
      set r | r in reservations && r.owner != owner
    }

    lemma ClosePrepared(s: State, fo: FeedObject, a: Answers, native: Status)
      requires Ok() && s == tables.State() && fo.owner in owners && fo.token == fo.owner.feed && fo.owner.open
      requires native == Success ==> IdleAfterCleanUp(s, fo.token, a)
      ensures (forall sp :: sp in spans ==> sp.owner in owners) && (forall r :: r in reservations ==> r.owner in owners)
      ensures var o := CloseStep(s, fo.token, a, native);
              && o.reply == Just(native)
              && TablesGood(o.state)
              && if native == Success then
                   && OwnersGood(o.state, owners - {fo.owner})
                   && SpansGood(o.state, SpansBut(fo.owner), owners - {fo.owner})
                   && ReservationsGood(o.state, ReservationsBut(fo.owner), owners - {fo.owner})
                 else
                   OwnersGood(o.state, owners) && SpansGood(o.state, spans, owners)
                   && ReservationsGood(o.state, reservations, owners)
    {
      hide Inv, OffersOnce, CallsOk, EndsOnce, Tables.State, HeldToken, Standing, CleanUp;
      var op := Op.Close(fo.token, a, native);
      if native == Success {
        StepKeepsOthers(s, op, SpansBut(fo.owner), ReservationsBut(fo.owner), owners - {fo.owner});
      } else {
        StepKeepsOthers(s, op, spans, reservations, owners);
      }
    }

    lemma OwnerClosed(s: State, owner: Owner)
      requires !owner.open && owner in owners
      requires OwnersGood(s, owners - {owner})
      requires SpansGood(s, SpansBut(owner), owners - {owner})
      requires ReservationsGood(s, ReservationsBut(owner), owners - {owner})
      requires forall sp :: sp in spans ==> sp.owner in owners
      requires forall r :: r in reservations ==> r.owner in owners
      ensures OwnersGood(s, owners) && SpansGood(s, spans, owners) && ReservationsGood(s, reservations, owners)
    {
      hide HeldToken, Standing;
      forall sp | sp in spans && sp.owner != owner
        ensures sp in SpansBut(owner)
      {
      }
      forall r | r in reservations && r.owner != owner
        ensures r in ReservationsBut(owner)
      {
      }
    }
  }

  lemma CreatedToken(s: State, op: Op)
    requires Inv(s) && op.Create?
    ensures var o := Step(s, op);
            o.reply.Reply? && o.reply.status == Success ==>
              && o.reply.token.Some? && Resolves(o.state.feeds, o.reply.token.value)
              && !Resolves(s.feeds, o.reply.token.value)
  {
    AllocateFresh(s.feeds, NO_FEED.(stream := op.stream));
  }
}
