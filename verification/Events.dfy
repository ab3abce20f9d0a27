/**
  The life of one server's record: attempts to store a verified reply, probes of the origin, and
  invalidations, one after another, whoever makes them. Every resolution and every sweep is a sequence of
  these. A probe begins when the record is read and the decision to probe is taken, which changes
  nothing; it ends with a direct store that succeeds, or with the note of its failure.
 */
module Events {
  import opened Base
  import opened KeyRecords
  import opened Schedule
  import opened Tables

  datatype EventData =
    | StoreAttempt(info: ServerKeys, extra: Fields, via: string, now: int, order: InsertOrder)
    | ProbeBegins(now: int, seen: int)                    // `seen` failures are on record
    | ProbeFailed(now: int, seen: int, transient: bool)   // noted for a probe that began so
    | Invalidation

  predicate Proper(e: EventData) {
    e.StoreAttempt? ==> Orders(e.order, e.info) && Validates(e.info)
  }

  /** Only replies that passed validation are ever stored. */
  type Event = e: EventData | Proper(e)
    witness Invalidation

  function Apply(t: Tables, e: Event): Tables
  {
    match e
    case StoreAttempt(info, extra, via, now, order) => Store(t, info, extra, via, now, order).tables
    case ProbeBegins(_, _) => t
    case ProbeFailed(now, seen, transient) =>
        NoteOriginFailure(t, now, seen + 1, now + OriginBackoff(seen + 1, transient))
    case Invalidation => InvalidateRemoteServer(t)
  }

  /** The record after the first n events. */
  function After(t: Tables, events: seq<Event>, n: nat): Tables
    requires n <= |events|
  {
    if n == 0 then t else Apply(After(t, events, n - 1), events[n - 1])
  }

  /** A record after some events, taken one after another. */
  function AppliedAll(t: Tables, events: seq<Event>): Tables
    decreases |events|
  {
    if events == [] then t else AppliedAll(Apply(t, events[0]), events[1..])
  }

  lemma {:induction false} AppliedConcat(t: Tables, a: seq<Event>, b: seq<Event>)
    ensures AppliedAll(t, a + b) == AppliedAll(AppliedAll(t, a), b)
    decreases |a|
  {
    if a == [] {
      assert a + b == b;
    } else {
      assert (a + b)[0] == a[0] && (a + b)[1..] == a[1..] + b;
      AppliedConcat(Apply(t, a[0]), a[1..], b);
    }
  }

  lemma {:induction false} AppliedIsAfter(t: Tables, events: seq<Event>, n: nat)
    requires n <= |events|
    ensures AppliedAll(t, events[..n]) == After(t, events, n)
  {
    if n == 0 {
    } else {
      var most, last := events[..n - 1], [events[n - 1]];
      AppliedIsAfter(t, events, n - 1);
      AppliedConcat(t, most, last);
      OneApplied(AppliedAll(t, most), events[n - 1]);
      assert events[..n] == most + last;
    }
  }

  lemma OneApplied(t: Tables, e: Event)
    ensures AppliedAll(t, [e]) == Apply(t, e)
  {
    assert [e][1..] == [];
  }

  function Failures(t: Tables): int {
    if t.row.Some? then t.row.value.originFailures else 0
  }

  function NextAttempt(t: Tables): int {
    if t.row.Some? then t.row.value.nextAttemptTs else 0
  }

  /** An unknown server may always be probed. */
  predicate ShouldProbe(row: Option<Row>, now: int) {
    row.None? || now >= row.value.nextAttemptTs
  }

  /** A probe begins only when it is due, and counts the failures on record. */
  predicate DueProbe(t: Tables, e: Event) {
    e.ProbeBegins? ==> ShouldProbe(t.row, e.now) && e.seen == Failures(t)
  }

  predicate AllDue(t: Tables, events: seq<Event>)
    decreases |events|
  {
    events != [] ==> DueProbe(t, events[0]) && AllDue(Apply(t, events[0]), events[1..])
  }

  /** Clocks are positive. */
  predicate AfterEpoch(e: Event) {
    e.ProbeBegins? || e.ProbeFailed? ==> e.now > 0
  }

  predicate IsDirectStore(e: Event) {
    e.StoreAttempt? && e.via == ""
  }

  /** What the events other than stores write: a note its clock and schedule, an invalidation two zeroes. */
  lemma NotesAndInvalidationsMean(t: Tables, e: Event)
    ensures e.ProbeBegins? ==> Apply(t, e) == t
    ensures e.ProbeFailed? || e.Invalidation? ==> Apply(t, e).keys == t.keys && Apply(t, e).signatures == t.signatures
    ensures e.ProbeFailed? ==>
              var row := if t.row.Some? then t.row.value else Row(0, 0, map[], "", 0, 0);
              Apply(t, e).row == Some(row.(updatedTs := e.now, originFailures := e.seen + 1,
                  nextAttemptTs := e.now + OriginBackoff(e.seen + 1, e.transient)))
    ensures e.Invalidation? ==>
              Apply(t, e).row == if t.row.None? then None else Some(t.row.value.(validUntilTs := 0, updatedTs := 0))
  {
  }

  lemma ReachabilityOf(t: Tables, e: Event)
    ensures e.ProbeFailed? ==>
              Failures(Apply(t, e)) == e.seen + 1 && NextAttempt(Apply(t, e)) ==
              e.now + OriginBackoff(e.seen + 1, e.transient)
    ensures IsDirectStore(e) ==> Failures(Apply(t, e)) == 0 && NextAttempt(Apply(t, e)) == 0
    ensures !e.ProbeFailed? && !IsDirectStore(e) ==>
              Failures(Apply(t, e)) == Failures(t) && NextAttempt(Apply(t, e)) == NextAttempt(t)
  {
    if e.StoreAttempt? {
      StoreMeaning(t, e.info, e.extra, e.via, e.now, e.order);
    }
  }

  // ---------------------------------------------------------------- standoff history

  /** The failure count and the standoff say the same, and no clock is at zero. */
  predicate StandoffAgrees(t: Tables) {
    && Failures(t) >= 0 && NextAttempt(t) >= 0
    && (Failures(t) > 0 <==> NextAttempt(t) > 0)
  }

  lemma {:induction false} StandoffAgreesThroughout(t: Tables, events: seq<Event>, n: nat)
    requires n <= |events| && StandoffAgrees(t)
    requires forall e | e in events :: AfterEpoch(e) && (e.ProbeFailed? ==> e.seen >= 0)
    ensures StandoffAgrees(After(t, events, n))
  {
    if n == 0 {
    } else {
      StandoffAgreesThroughout(t, events, n - 1);
      ReachabilityOf(After(t, events, n - 1), events[n - 1]);
    }
  }

  // ---------------------------------------------------------------- best copy kept

  /** Only verified offers of notaries, each of which could be stored, and failed probes. */
  predicate OnlyOffers(events: seq<Event>) {
    forall e | e in events :: !e.Invalidation? && (e.StoreAttempt? ==> e.via != "" && Storable(e.info))
  }

  predicate IsOffer(e: Event) {
    e.StoreAttempt?
  }

  /** The first offer to reach the maximum of the first n, if it beats what was held. */
  predicate IsBestOffer(prior: int, events: seq<Event>, n: nat, i: nat)
    requires n <= |events|
  {
    && i < n && IsOffer(events[i]) && events[i].info.validUntilTs > prior
    && (forall j | 0 <= j < i && IsOffer(events[j]) :: events[j].info.validUntilTs < events[i].info.validUntilTs)
    && (forall j | i < j < n && IsOffer(events[j]) :: events[j].info.validUntilTs <= events[i].info.validUntilTs)
  }

  predicate NoBetterOffer(prior: int, events: seq<Event>, n: nat)
    requires n <= |events|
  {
    forall j | 0 <= j < n && IsOffer(events[j]) :: events[j].info.validUntilTs <= prior
  }

  /** The copy to hold after the first n events: the prior one, or the best offer. */
  ghost predicate IsBest(prior: Bundle, events: seq<Event>, n: nat, held: Bundle)
    requires OnlyOffers(events) && n <= |events|
  {
    || (NoBetterOffer(prior.validUntilTs, events, n) && held == prior)
    || (exists i: nat ::
        IsBestOffer(prior.validUntilTs, events, n, i)
        && held == ReplyBundle(events[i].info, events[i].extra, events[i].via))
  }

  /** One event against the held copy: a longer-valid offer replaces it, anything else leaves it. */
  lemma OfferStep(t: Tables, e: Event)
    requires t.row.Some?
    requires !e.Invalidation? && (e.StoreAttempt? ==> e.via != "" && Storable(e.info))
    ensures Apply(t, e).row.Some?
    ensures BundleOf(Apply(t, e)) ==
            if e.StoreAttempt? && e.info.validUntilTs > BundleOf(t).validUntilTs then
                ReplyBundle(e.info, e.extra, e.via) else BundleOf(t)
  {
    if e.StoreAttempt? {
      StoreMeaning(t, e.info, e.extra, e.via, e.now, e.order);
    }
  }

  lemma FirstMaximumDominates(prior: int, events: seq<Event>, n: nat, i: nat)
    requires n <= |events| && IsBestOffer(prior, events, n, i)
    ensures prior <= events[i].info.validUntilTs
    ensures forall j | 0 <= j < n && IsOffer(events[j]) :: events[j].info.validUntilTs <= events[i].info.validUntilTs
  {
  }

  /** The best copy is at least as long valid as the prior one and every offer. */
  lemma BestDominates(prior: Bundle, events: seq<Event>, n: nat, held: Bundle)
    requires OnlyOffers(events) && n <= |events| && IsBest(prior, events, n, held)
    ensures held.validUntilTs >= prior.validUntilTs
    ensures forall j | 0 <= j < n && IsOffer(events[j]) :: events[j].info.validUntilTs <= held.validUntilTs
  {
    if !(NoBetterOffer(prior.validUntilTs, events, n) && held == prior) {
      var i: nat :| IsBestOffer(prior.validUntilTs, events, n, i)
          && held == ReplyBundle(events[i].info, events[i].extra, events[i].via);
      FirstMaximumDominates(prior.validUntilTs, events, n, i);
      assert held.validUntilTs == events[i].info.validUntilTs;
    }
  }

  /** The best copy is no longer valid than whatever bounds the prior one and all offers. */
  lemma BestIsBounded(prior: Bundle, events: seq<Event>, n: nat, held: Bundle, bound: int)
    requires OnlyOffers(events) && n <= |events| && IsBest(prior, events, n, held)
    requires prior.validUntilTs <= bound && forall j | 0 <= j < n && IsOffer(events[j]) ::
              events[j].info.validUntilTs <= bound
    ensures held.validUntilTs <= bound
  {
    if !(NoBetterOffer(prior.validUntilTs, events, n) && held == prior) {
      var i: nat :| IsBestOffer(prior.validUntilTs, events, n, i)
          && held == ReplyBundle(events[i].info, events[i].extra, events[i].via);
      assert held.validUntilTs == events[i].info.validUntilTs;
    }
  }

  /** An offer that beats the best copy so far is the new best one. */
  lemma BeatingTheBest(prior: Bundle, events: seq<Event>, n: nat, held: Bundle)
    requires OnlyOffers(events) && 0 < n <= |events| && IsBest(prior, events, n - 1, held)
    requires IsOffer(events[n - 1]) && events[n - 1].info.validUntilTs > held.validUntilTs
    ensures IsBestOffer(prior.validUntilTs, events, n, n - 1)
  {
    BestDominates(prior, events, n - 1, held);
  }

  lemma BestOfferStays(prior: int, events: seq<Event>, n: nat, i: nat)
    requires 0 < n <= |events| && IsBestOffer(prior, events, n - 1, i)
    requires IsOffer(events[n - 1]) ==> events[n - 1].info.validUntilTs <= events[i].info.validUntilTs
    ensures IsBestOffer(prior, events, n, i)
  {
  }

  predicate Beats(e: Event, held: Bundle) {
    IsOffer(e) && e.info.validUntilTs > held.validUntilTs
  }

  /** Whatever is best stays best when an event comes that does not beat it. */
  lemma BestStays(prior: Bundle, events: seq<Event>, n: nat, held: Bundle)
    requires OnlyOffers(events) && 0 < n <= |events|
    requires IsBest(prior, events, n - 1, held) && !Beats(events[n - 1], held)
    ensures IsBest(prior, events, n, held)
  {
    var p := prior.validUntilTs;
    if !(NoBetterOffer(p, events, n - 1) && held == prior) {
      var i: nat :| IsBestOffer(p, events, n - 1, i)
          && held == ReplyBundle(events[i].info, events[i].extra, events[i].via);
      assert held.validUntilTs == events[i].info.validUntilTs;
      BestOfferStays(p, events, n, i);
    }
  }

  /** The best copy of n offers, and one event more. */
  lemma BestOfferStep(prior: Bundle, events: seq<Event>, n: nat, held: Bundle, held': Bundle)
    requires OnlyOffers(events) && 0 < n <= |events| && IsBest(prior, events, n - 1, held)
    requires var e := events[n - 1];
             held' == if Beats(e, held) then ReplyBundle(e.info, e.extra, e.via) else held
    ensures IsBest(prior, events, n, held')
  {
    if Beats(events[n - 1], held) {
      BeatingTheBest(prior, events, n, held);
    } else {
      BestStays(prior, events, n, held);
    }
  }

  /**
    Best copy kept. Through any sequence of verified notary offers and failed probes, the record holds
    the longest-valid copy seen so far: the one it started with unless an offer beats it, and then the
    first offer to reach the maximum.
   */
  lemma {:induction false} BestCopyIsKept(t: Tables, events: seq<Event>, n: nat)
    requires OnlyOffers(events) && n <= |events| && t.row.Some?
    ensures After(t, events, n).row.Some?
    ensures IsBest(BundleOf(t), events, n, BundleOf(After(t, events, n)))
  {
    if n == 0 {
    } else {
      BestCopyIsKept(t, events, n - 1);
      var before := After(t, events, n - 1);
      assert events[n - 1] in events;
      OfferStep(before, events[n - 1]);
      BestOfferStep(BundleOf(t), events, n, BundleOf(before), BundleOf(After(t, events, n)));
    }
  }

  // ---------------------------------------------------------------- freshness revived

  predicate RowIsFresh(t: Tables, minValidUntilTs: int, now: int) {
    t.row.Some? && IsFresh(t.row.value.updatedTs, t.row.value.validUntilTs, minValidUntilTs, now)
  }

  /** A failed probe that makes a record fresh that was not. */
  predicate Revives(t: Tables, e: Event, minValidUntilTs: int)
  {
    && e.ProbeFailed?
    && !RowIsFresh(t, minValidUntilTs, e.now)
    && RowIsFresh(Apply(t, e), minValidUntilTs, e.now)
  }

  function BitLength(n: nat): nat {
    if n == 0 then 0 else 1 + BitLength(n / 2)
  }

  lemma {:induction false} BitLengthIsMonotonic(a: nat, b: nat)
    requires a <= b
    ensures BitLength(a) <= BitLength(b)
  {
    if a == 0 {
    } else {
      BitLengthIsMonotonic(a / 2, b / 2);
    }
  }

  /** How often a record with this much validity ahead of its last update can still be revived. */
  function Lives(ahead: int): nat {
    if ahead <= 0 then 0 else ahead / REMOTE_KEY_LIFESPAN + BitLength(ahead)
  }

  lemma LivesAreMonotonic(a: int, b: int)
    requires a <= b
    ensures Lives(a) <= Lives(b)
  {
    if a > 0 {
      BitLengthIsMonotonic(a, b);
      LifespanQuotient(a, b);
    }
  }

  lemma LifespanQuotient(a: nat, b: nat)
    requires a <= b
    ensures a / REMOTE_KEY_LIFESPAN <= b / REMOTE_KEY_LIFESPAN
  {
  }

  /** A week of elapsed time, or the loss of more than half the remaining validity, costs a life. */
  lemma LosingALife(before: int, after: nat)
    requires before - after > REMOTE_KEY_LIFESPAN || 2 * after < before
    ensures Lives(after) < Lives(before)
  {
    if before - after > REMOTE_KEY_LIFESPAN {
      LifespanQuotient(after + REMOTE_KEY_LIFESPAN, before);
      BitLengthIsMonotonic(after, before);
    } else {
      BitLengthIsMonotonic(after, before / 2);
      LifespanQuotient(after, before);
    }
  }

  function Ahead(t: Tables): int
    requires t.row.Some?
  {
    t.row.value.validUntilTs - t.row.value.updatedTs
  }

  /** A clock that does not run backwards, past the last update of a record. */
  predicate ClockRuns(t: Tables, now: int) {
    0 < now && IsClock(now) && t.row.Some? && 0 <= t.row.value.updatedTs <= now
  }

  /**
    What one revival costs: the record was last updated more than seven days ago, or it has lost more
    than half of the validity it then had ahead of it. It is never revived past its valid_until_ts.
   */
  lemma RevivalCosts(t: Tables, e: Event, minValidUntilTs: int)
    requires Revives(t, e, minValidUntilTs)
    requires ClockRuns(t, e.now)
    ensures Ahead(Apply(t, e)) >= 0
    ensures Ahead(t) - Ahead(Apply(t, e)) > REMOTE_KEY_LIFESPAN || 2 * Ahead(Apply(t, e)) < Ahead(t)
    ensures Lives(Ahead(Apply(t, e))) < Lives(Ahead(t))
  {
    var u, v := t.row.value.updatedTs, t.row.value.validUntilTs;
    FreshIff(u, v, minValidUntilTs, e.now);
    FreshIff(e.now, v, minValidUntilTs, e.now);
    LosingALife(v - u, v - e.now);
  }

  function Revivals(t: Tables, events: seq<Event>, minValidUntilTs: int, n: nat): nat
    requires n <= |events|
  {
    if n == 0 then 0
    else
      var before := Revivals(t, events, minValidUntilTs, n - 1);
      before + if Revives(After(t, events, n - 1), events[n - 1], minValidUntilTs) then 1 else 0
  }

  /** An event that neither replaces nor invalidates the copy: an offer that is turned down, or a failed probe. */
  predicate DoesNotLand(t: Tables, e: Event) {
    || e.ProbeBegins?
    || (e.ProbeFailed? && ClockRuns(t, e.now))
    || (e.StoreAttempt? && KeepsExisting(t, e.info, e.via))
  }

  /** None of the first n events lands. */
  predicate NothingLands(t: Tables, events: seq<Event>, n: nat)
    requires n <= |events|
  {
    n > 0 ==> NothingLands(t, events, n - 1) && DoesNotLand(After(t, events, n - 1), events[n - 1])
  }

  /** One event either revives the record and costs a life, or does not add one. */
  lemma RevivalStep(t: Tables, e: Event, minValidUntilTs: int)
    requires t.row.Some? && DoesNotLand(t, e)
    ensures Apply(t, e).row.Some?
    ensures (if Revives(t, e, minValidUntilTs) then 1 else 0) + Lives(Ahead(Apply(t, e))) <= Lives(Ahead(t))
  {
    if Revives(t, e, minValidUntilTs) {
      RevivalCosts(t, e, minValidUntilTs);
    } else if e.ProbeFailed? {
      LivesAreMonotonic(Ahead(Apply(t, e)), Ahead(t));
    }
  }

  /**
    Freshness is revived only finitely often: until the stored copy is replaced, no run of failed probes,
    however long and however mixed with requests, revives it more often than the validity it started
    with allows.
   */
  lemma {:induction false} RevivalsAreBounded(t: Tables, events: seq<Event>, minValidUntilTs: int, n: nat)
    requires n <= |events| && t.row.Some? && NothingLands(t, events, n)
    ensures After(t, events, n).row.Some?
    ensures Revivals(t, events, minValidUntilTs, n) + Lives(Ahead(After(t, events, n))) <= Lives(Ahead(t))
  {
    if n == 0 {
    } else {
      RevivalsAreBounded(t, events, minValidUntilTs, n - 1);
      RevivalStep(After(t, events, n - 1), events[n - 1], minValidUntilTs);
    }
  }

  // ---------------------------------------------------------------- recovering from an invalidation

  /** Nothing that could replace an invalidated record: failed probes, and offers with no positive validity. */
  predicate CannotReplace(e: Event) {
    e.ProbeBegins? || e.ProbeFailed? || (e.StoreAttempt? && e.via != "" && e.info.validUntilTs <= 0)
  }

  /**
    Once invalidated, a record stays without validity, and never fresh, through any number of failed
    probes and worthless offers; its keys and signatures stay too.
   */
  lemma {:induction false} InvalidatedStaysStale(t: Tables, events: seq<Event>, n: nat, minValidUntilTs: int, now: int)
    requires t.row.Some? && n <= |events|
    requires forall e | e in events :: CannotReplace(e)
    requires forall e | e in events && e.ProbeFailed? :: IsClock(e.now) && e.now <= now
    requires 0 < now
    ensures var later := After(InvalidateRemoteServer(t), events, n);
            && later.row.Some? && later.row.value.validUntilTs == 0
            && 0 <= later.row.value.updatedTs <= now && IsClock(later.row.value.updatedTs)
            && later.keys == t.keys && later.signatures == t.signatures
            && !RowIsFresh(later, minValidUntilTs, now)
  {
    var invalid := InvalidateRemoteServer(t);
    if n > 0 {
      InvalidatedStaysStale(t, events, n - 1, minValidUntilTs, now);
      var before := After(invalid, events, n - 1);
      var e := events[n - 1];
      assert e in events;
      if e.StoreAttempt? {
        assert KeepsExisting(before, e.info, e.via);
      }
    }
    var later := After(invalid, events, n);
    FreshIff(later.row.value.updatedTs, 0, minValidUntilTs, now);
  }

  /**
    The first usable copy replaces an invalidated record: any direct one, and of a notary's exactly those
    with positive validity.
   */
  lemma FirstUsableCopyReplaces(t: Tables, e: Event)
    requires t.row.Some? && t.row.value.validUntilTs == 0
    requires e.StoreAttempt? && Storable(e.info)
    ensures e.via == "" || e.info.validUntilTs > 0 ==> BundleOf(Apply(t, e)) == ReplyBundle(e.info, e.extra, e.via)
    ensures !(e.via == "" || e.info.validUntilTs > 0) ==> Apply(t, e) == t
  {
    StoreMeaning(t, e.info, e.extra, e.via, e.now, e.order);
  }
}
