/** What one resolution guarantees, whatever the network answers. */
module ResolutionTheorems {
  import opened Base
  import opened KeyRecords
  import opened Tables
  import opened Events
  import opened Resolution
  import opened Runs
  import opened Worlds

  // ---------------------------------------------------------------- bounded work

  function OriginFetches(contacts: seq<Contact>): nat {
    if contacts == [] then 0 else (if contacts[0].OriginFetch? then 1 else 0) + OriginFetches(contacts[1..])
  }

  function NotaryQueries(contacts: seq<Contact>): nat {
    if contacts == [] then 0 else (if contacts[0].NotaryQuery? then 1 else 0) + NotaryQueries(contacts[1..])
  }

  lemma {:induction false} ContactsConcat(a: seq<Contact>, b: seq<Contact>)
    ensures OriginFetches(a + b) == OriginFetches(a) + OriginFetches(b)
    ensures NotaryQueries(a + b) == NotaryQueries(a) + NotaryQueries(b)
  {
    if a == [] {
      assert a + b == b;
    } else {
      assert (a + b)[0] == a[0] && (a + b)[1..] == a[1..] + b;
      ContactsConcat(a[1..], b);
    }
  }

  /** Notaries are asked about others only, and asked only by the resolution that may fall back on them. */
  predicate ProperContacts(c: Config, server: ServerName, fallback: bool, contacts: seq<Contact>) {
    forall x | x in contacts ::
      match x
      case OriginFetch(s, _) => s == server || (fallback && s in c.notaries && !Skipped(c, s, server))
      case NotaryQuery(notary, target) =>
          fallback && target == server && notary in c.notaries && !Skipped(c, notary, server)
  }

  /** At most so many fetches and queries, and proper ones. */
  predicate Bounded(c: Config, server: ServerName, fallback: bool, contacts: seq<Contact>, fetches: nat, queries: nat) {
    OriginFetches(contacts) <= fetches && NotaryQueries(contacts) <= queries
        && ProperContacts(c, server, fallback, contacts)
  }

  lemma BoundedConcat(c: Config, server: ServerName, fallback: bool, a: seq<Contact>, fa: nat, qa: nat, b: seq<Contact>,
                      fb: nat, qb: nat)
    requires Bounded(c, server, fallback, a, fa, qa) && Bounded(c, server, fallback, b, fb, qb)
    ensures Bounded(c, server, fallback, a + b, fa + fb, qa + qb)
  {
    ContactsConcat(a, b);
  }

  lemma ProbeContacts(c: Config, s: Site, server: ServerName, seen: int, now: int, exchange: Exchange)
    ensures var fetch := [OriginFetch(server, exchange.answer)];
            && Probe(c, s, server, seen, now, exchange).contacts == fetch
            && OriginFetches(fetch) == 1 && NotaryQueries(fetch) == 0
  {
    assert [OriginFetch(server, exchange.answer)][1..] == [];
  }

  /** Without notaries, a resolution contacts the origin once or not at all, and always has a result. */
  lemma OwnResolutionIsOneFetch(c: Config, s: Site, server: ServerName, minValidUntilTs: Timestamp, script: Script)
    ensures var out := Resolve(c, s, server, minValidUntilTs, false, script);
            out.result.Some? && (out.contacts == [] || out.contacts == [OriginFetch(server, script.fetch.answer)])
  {
    ProbeContacts(c, s, server, Failures(TablesOf(s.world, server)), script.now, script.fetch);
  }

  lemma AskContacts(c: Config, s: Site, notary: ServerName, target: ServerName, visit: Visit)
    ensures var own := Resolve(c, Meanwhile(s, c.cooldown, visit.before), notary, visit.minNow, false,
              visit.own).contacts;
            var contacts := Ask(c, s, notary, target, visit).contacts;
            contacts == own || contacts == own + [NotaryQuery(notary, target)]
  {
    assert forall keys, answer, now, site ::
        AskWith(c, site, notary, target, keys, answer, now).contacts == [NotaryQuery(notary, target)];
  }

  lemma AskIsBounded(c: Config, s: Site, notary: ServerName, target: ServerName, visit: Visit)
    requires notary in c.notaries && !Skipped(c, notary, target)
    ensures Bounded(c, target, true, Ask(c, s, notary, target, visit).contacts, 1, 1)
  {
    OwnResolutionIsOneFetch(c, Meanwhile(s, c.cooldown, visit.before), notary, visit.minNow, visit.own);
    AskContacts(c, s, notary, target, visit);
    FetchThenQuery(c, notary, target, visit.own.fetch.answer);
  }

  lemma FetchThenQuery(c: Config, notary: ServerName, target: ServerName, answer: OriginAnswer)
    requires notary in c.notaries && !Skipped(c, notary, target)
    ensures Bounded(c, target, true, [], 1, 1)
    ensures Bounded(c, target, true, [] + [NotaryQuery(notary, target)], 1, 1)
    ensures Bounded(c, target, true, [OriginFetch(notary, answer)], 1, 1)
    ensures Bounded(c, target, true, [OriginFetch(notary, answer)] + [NotaryQuery(notary, target)], 1, 1)
  {
    var fetch, query := [OriginFetch(notary, answer)], [NotaryQuery(notary, target)];
    assert query[1..] == [] && fetch[1..] == [] && [] + query == query;
    BoundedConcat(c, target, true, fetch, 1, 0, query, 0, 1);
  }

  lemma {:induction false} WalkIsBounded(c: Config, s: Site, target: ServerName, minValidUntilTs: Timestamp,
                                         notaries: seq<ServerName>, visits: seq<Visit>, best: Option<Held>)
    requires |visits| == |notaries|
    requires forall n | n in notaries :: n in c.notaries
    ensures Bounded(c, target, true, Walk(c, s, target, minValidUntilTs, notaries, visits, best).contacts, |notaries|,
              |notaries|)
    decreases |notaries|
  {
    if notaries == [] {
    } else {
      assert notaries[0] in notaries;
      if Skipped(c, notaries[0], target) {
        WalkIsBounded(c, s, target, minValidUntilTs, notaries[1..], visits[1..], best);
      } else {
        AskIsBounded(c, s, notaries[0], target, visits[0]);
        var asked := Ask(c, s, notaries[0], target, visits[0]);
        if !HeldSatisfies(asked.result, minValidUntilTs) {
          var best' := Better(best, asked.result);
          WalkIsBounded(c, asked.site, target, minValidUntilTs, notaries[1..], visits[1..], best');
          var rest := Walk(c, asked.site, target, minValidUntilTs, notaries[1..], visits[1..], best');
          BoundedConcat(c, target, true, asked.contacts, 1, 1, rest.contacts, |notaries| - 1, |notaries| - 1);
        }
      }
    }
  }

  /** The site at which a resolution starts to ask notaries, if it gets to that. */
  function WalkStart(c: Config, s: Site, server: ServerName, script: Script): Site {
    Started(c, Meanwhile(ProbeIfDue(c, s, server, script).site, c.cooldown, script.beforeWalk), server, script.now)
  }

  /** The walk of a resolution, if it gets to that. */
  function WalkOf(c: Config, s: Site, server: ServerName, minValidUntilTs: Timestamp,
                  script: Script): Outcome<Option<Held>>
    requires |script.visits| == |c.notaries|
  {
    Walk(c, WalkStart(c, s, server, script), server, minValidUntilTs, c.notaries, script.visits, None)
  }

  /** Who is contacted: nobody, the origin, or the origin if due and then the notaries. */
  lemma ResolveContacts(c: Config, s: Site, server: ServerName, minValidUntilTs: Timestamp, script: Script)
    requires |script.visits| == |c.notaries|
    ensures var out := Resolve(c, s, server, minValidUntilTs, true, script);
            var probe, walk := ProbeIfDue(c, s, server, script), WalkOf(c, s, server, minValidUntilTs, script);
            && out.result.Some?
            && (out.contacts == [] || out.contacts == probe.contacts || out.contacts == probe.contacts + walk.contacts)
  {
    var probe := ProbeIfDue(c, s, server, script);
    assert probe.contacts + [] == probe.contacts;
  }

  /**
    Bounded work, and a result for every query. With N notaries a query makes at most N + 1 origin fetches
    and N notary queries; a notary's own keys are resolved without asking any notary, so resolutions nest
    two deep; and the result is never nil, since a probe is only skipped for a server with a record.
   */
  lemma BoundedWorkAndAResult(c: Config, s: Site, server: ServerName, minValidUntilTs: Timestamp, script: Script)
    requires |script.visits| == |c.notaries|
    ensures var out := Resolve(c, s, server, minValidUntilTs, true, script);
            && out.result.Some?
            && OriginFetches(out.contacts) <= |c.notaries| + 1
            && NotaryQueries(out.contacts) <= |c.notaries|
            && ProperContacts(c, server, true, out.contacts)
  {
    var probe := ProbeIfDue(c, s, server, script);
    ProbeContacts(c, s, server, Failures(TablesOf(s.world, server)), script.now, script.fetch);
    assert Bounded(c, server, true, probe.contacts, 1, 0);
    WalkIsBounded(c, WalkStart(c, s, server, script), server, minValidUntilTs, c.notaries, script.visits, None);
    var walk := WalkOf(c, s, server, minValidUntilTs, script);
    BoundedConcat(c, server, true, probe.contacts, 1, 0, walk.contacts, |c.notaries|, |c.notaries|);
    ResolveContacts(c, s, server, minValidUntilTs, script);
  }

  // ---------------------------------------------------------------- the walk keeps the best copy

  /** An offer that the resolution at hand stores, or tries to store, for the target. */
  predicate OwnOffer(step: Step, target: ServerName) {
    step.own && step.server == target && step.event.StoreAttempt?
  }

  predicate NoOwnOffers(steps: seq<Step>, target: ServerName) {
    forall x | x in steps :: !OwnOffer(x, target)
  }

  /** Every offer of the resolution at hand is at most as long valid. */
  predicate DominatesOwnOffers(steps: seq<Step>, target: ServerName, held: Held) {
    forall x | x in steps && OwnOffer(x, target) :: x.event.info.validUntilTs <= held.validUntilTs
  }

  /** Nobody else makes an offer for the target. */
  predicate NoOtherOffers(steps: seq<Step>, target: ServerName) {
    forall x | x in steps && x.server == target && x.event.StoreAttempt? :: x.own
  }

  lemma OffersSplit(a: seq<Step>, b: seq<Step>, target: ServerName)
    requires OnlyOffers(EventsOf(a + b, target))
    ensures OnlyOffers(EventsOf(a, target)) && OnlyOffers(EventsOf(b, target))
  {
    EventsOfConcat(a, b, target);
    forall e | e in EventsOf(a, target) || e in EventsOf(b, target) ensures e in EventsOf(a + b, target) {
    }
  }

  /** Under offers and probes, the record's validity does not go down. */
  lemma ValidityGrows(s: Site, steps: seq<Step>, after: Site, target: ServerName)
    requires IsRun(s, steps, after) && OnlyOffers(EventsOf(steps, target)) && TablesOf(s.world, target).row.Some?
    ensures TablesOf(after.world, target).row.Some? && ValidOn(s.world, target) <= ValidOn(after.world, target)
  {
    HeldAtTheEnd(s.world, steps, target);
    WasHeldInBetween(s.world, steps, target, BundleOf(TablesOf(after.world, target)));
  }

  /** The store that an accepted answer leads to. */
  function StoreOf(c: Config, fetch: Exchange): Step
    requires Accepted(c, fetch.answer)
  {
    var reply := fetch.answer.reply;
    Step(reply.info.serverName,
         StoreAttempt(reply.info, AdditionalFields(reply.raw), "", fetch.storeNow, reply.order), true)
  }

  lemma FetchSteps(c: Config, s: Site, server: ServerName, fetch: Exchange)
    ensures var out := FetchDirect(c, s, server, fetch);
            && out.steps == fetch.during.steps + (if Accepted(c, fetch.answer) then [StoreOf(c, fetch)] else [])
            && out.contacts == [OriginFetch(server, fetch.answer)]
  {
  }

  predicate OwnStoresDirect(steps: seq<Step>) {
    forall x | x in steps && x.own && x.event.StoreAttempt? :: IsDirectStore(x.event)
  }

  lemma ProbeStoresDirectly(c: Config, s: Site, server: ServerName, seen: int, now: int, exchange: Exchange)
    ensures OwnStoresDirect(Probe(c, s, server, seen, now, exchange).steps)
  {
    var out, fetch := Probe(c, s, server, seen, now, exchange), FetchDirect(c, s, server, exchange);
    FetchSteps(c, s, server, exchange);
    assert OwnStoresDirect(fetch.steps);
    if fetch.result.FetchFailed? {
      assert forall x | x in out.steps && x.event.StoreAttempt? ::
          x in fetch.steps || x in exchange.beforeNote.steps;
    }
  }

  /** Without notaries, a resolution stores direct replies alone. */
  lemma OwnStoresAreDirect(c: Config, s: Site, server: ServerName, minValidUntilTs: Timestamp, script: Script)
    ensures OwnStoresDirect(Resolve(c, s, server, minValidUntilTs, false, script).steps)
  {
    ProbeStoresDirectly(c, s, server, Failures(TablesOf(s.world, server)), script.now, script.fetch);
  }

  lemma NoDirectOffers(steps: seq<Step>, target: ServerName)
    requires OnlyOffers(EventsOf(steps, target)) && OwnStoresDirect(steps)
    ensures NoOwnOffers(steps, target)
  {
    EventsOfAre(steps, target);
  }

  /** What asking one notary comes to: no offer, or one, after which what is held is at least as long valid. */
  predicate Asked(s: Site, out: Outcome<Option<Held>>, target: ServerName) {
    && (out.result.None? ==> NoOwnOffers(out.steps, target))
    && (out.result.Some? ==>
          && out.result == LoadHeld(out.site.world, target)
          && !NoOwnOffers(out.steps, target) && DominatesOwnOffers(out.steps, target, out.result.value))
  }

  lemma AskWithOffers(c: Config, s: Site, notary: ServerName, target: ServerName, notaryKeys: map<KeyId, Bytes>,
                      answer: NotaryAnswer, storeNow: int)
    requires OnlyOffers(EventsOf(AskWith(c, s, notary, target, notaryKeys, answer, storeNow).steps, target))
    requires TablesOf(s.world, target).row.Some?
    ensures Asked(s, AskWith(c, s, notary, target, notaryKeys, answer, storeNow), target)
  {
    var out := AskWith(c, s, notary, target, notaryKeys, answer, storeNow);
    if out.steps != [] {
      var reply := FirstFor(answer.entries, target).value;
      EventsOfAre(out.steps, target);
      assert out.steps[0].event in EventsOf(out.steps, target);
      StoreIsAsked(s, Retained(reply.info), AdditionalFields(reply.raw), notary, storeNow, reply.order);
    }
  }

  lemma StoreIsAsked(s: Site, info: ServerKeys, extra: Fields, via: string, now: int, order: InsertOrder)
    requires Orders(order, info) && Validates(info) && Storable(info) && TablesOf(s.world, info.serverName).row.Some?
    ensures Asked(s, StoreReply(s, info, extra, via, now, order), info.serverName)
  {
    var out := StoreReply(s, info, extra, via, now, order);
    StoreMeaning(TablesOf(s.world, info.serverName), info, extra, via, now, order);
    assert OwnOffer(out.steps[0], info.serverName);
  }

  lemma AskedAfter(s: Site, before: seq<Step>, mid: Site, asked: Outcome<Option<Held>>, out: Outcome<Option<Held>>,
                   target: ServerName)
    requires NoOwnOffers(before, target) && Asked(mid, asked, target)
    requires out.site == asked.site && out.steps == before + asked.steps && out.result == asked.result
    ensures Asked(s, out, target)
  {
    if out.result.Some? {
      var x :| x in asked.steps && OwnOffer(x, target);
      assert x in out.steps;
    }
  }

  lemma AskOffers(c: Config, s: Site, notary: ServerName, target: ServerName, visit: Visit)
    requires OnlyOffers(EventsOf(Ask(c, s, notary, target, visit).steps, target)) && TablesOf(s.world, target).row.Some?
    ensures Asked(s, Ask(c, s, notary, target, visit), target)
  {
    var s0 := Meanwhile(s, c.cooldown, visit.before);
    var own := Resolve(c, s0, notary, visit.minNow, false, visit.own);
    var before := visit.before.steps + own.steps;
    OwnStoresAreDirect(c, s0, notary, visit.minNow, visit.own);
    if own.result.None? || !HeldKeysDecode(c.scheme, own.result.value.keys) || own.result.value.keys == map[] {
      NoDirectOffers(before, target);
    } else {
      var notaryKeys := NotaryVerifyKeys(c.scheme, own.result.value.keys);
      var s1 := Meanwhile(own.site, c.cooldown, visit.during);
      var asked := AskWith(c, s1, notary, target, notaryKeys, visit.answer, visit.storeNow);
      OffersSplit(before + visit.during.steps, asked.steps, target);
      NoDirectOffers(before + visit.during.steps, target);
      OthersKeepTheRules(s, c.cooldown, visit.before);
      ResolveRuns(c, s0, notary, visit.minNow, false, visit.own);
      RunsConcat(s, visit.before.steps, s0, own.steps, own.site);
      OthersKeepTheRules(own.site, c.cooldown, visit.during);
      RunsConcat(s, before, own.site, visit.during.steps, s1);
      ValidityGrows(s, before + visit.during.steps, s1, target);
      AskWithOffers(c, s1, notary, target, notaryKeys, visit.answer, visit.storeNow);
      AskedAfter(s, before + visit.during.steps, s1, asked, Ask(c, s, notary, target, visit), target);
    }
  }

  /** What a walk returns, relative to the best copy it started with. */
  predicate Walked(s: Site, out: Outcome<Option<Held>>, target: ServerName, best: Option<Held>) {
    && (NoOwnOffers(out.steps, target) ==> out.result == best)
    && (!NoOwnOffers(out.steps, target) ==> out.result.Some? && DominatesOwnOffers(out.steps, target, out.result.value))
    && (best.Some? ==> out.result.Some? && out.result.value.validUntilTs >= best.value.validUntilTs)
    && (out.result.Some? && out.result != best ==>
          out.result.value.server == target && WasHeld(s.world, out.steps, target, HeldBundle(out.result.value)))
  }

  lemma {:induction false} WalkOffers(c: Config, s: Site, target: ServerName, minValidUntilTs: Timestamp,
                                      notaries: seq<ServerName>, visits: seq<Visit>, best: Option<Held>)
    requires |visits| == |notaries| && TablesOf(s.world, target).row.Some?
    requires OnlyOffers(EventsOf(Walk(c, s, target, minValidUntilTs, notaries, visits, best).steps, target))
    requires best.Some? ==> best.value.validUntilTs <= ValidOn(s.world, target)
    ensures Walked(s, Walk(c, s, target, minValidUntilTs, notaries, visits, best), target, best)
    decreases |notaries|
  {
    if notaries == [] {
    } else if Skipped(c, notaries[0], target) {
      WalkOffers(c, s, target, minValidUntilTs, notaries[1..], visits[1..], best);
    } else {
      var asked, out := Ask(c, s, notaries[0], target, visits[0]),
          Walk(c, s, target, minValidUntilTs, notaries, visits, best);
      AskRuns(c, s, notaries[0], target, visits[0]);
      if HeldSatisfies(asked.result, minValidUntilTs) {
        AskOffers(c, s, notaries[0], target, visits[0]);
        ValidityGrows(s, asked.steps, asked.site, target);
        HeldAtTheEnd(s.world, asked.steps, target);
      } else {
        var best' := Better(best, asked.result);
        var rest := Walk(c, asked.site, target, minValidUntilTs, notaries[1..], visits[1..], best');
        OffersSplit(asked.steps, rest.steps, target);
        AskOffers(c, s, notaries[0], target, visits[0]);
        ValidityGrows(s, asked.steps, asked.site, target);
        HeldAtTheEnd(s.world, asked.steps, target);
        WalkOffers(c, asked.site, target, minValidUntilTs, notaries[1..], visits[1..], best');
        WalkedConcat(s, asked, rest, out, target, best);
      }
    }
  }

  lemma WalkedConcat(s: Site, asked: Outcome<Option<Held>>, rest: Outcome<Option<Held>>, out: Outcome<Option<Held>>,
                     target: ServerName,
                     best: Option<Held>)
    requires Asked(s, asked, target) && IsRun(s, asked.steps, asked.site)
    requires WasHeld(s.world, asked.steps, target, BundleOf(TablesOf(asked.site.world, target)))
    requires best.Some? ==> best.value.validUntilTs <= ValidOn(asked.site.world, target)
    requires Walked(asked.site, rest, target, Better(best, asked.result))
    requires out.steps == asked.steps + rest.steps && out.result == rest.result
    ensures Walked(s, out, target, best)
  {
    if out.result.Some? {
      WasHeldConcat(s.world, asked.steps, rest.steps, target, HeldBundle(out.result.value));
    }
    if !NoOwnOffers(asked.steps, target) {
      var x :| x in asked.steps && OwnOffer(x, target);
      assert x in out.steps;
    } else if !NoOwnOffers(rest.steps, target) {
      var x :| x in rest.steps && OwnOffer(x, target);
      assert x in out.steps;
    }
  }

  /**
    The walk keeps the best copy, whoever else makes offers to the same record meanwhile. After it, the
    record holds the copy it held before, or the first to be longest valid of all verified offers, the
    walk's own and others'. If a notary made an offer, the walk returns a copy that the record held at some
    moment of the walk: at least as long valid as the prior copy and as every offer of the walk itself,
    and at most as long as what is held in the end. Only a direct store and an invalidation are excluded,
    after which the longest-valid copy is not what is promised.
   */
  lemma WalkKeepsTheBest(c: Config, s: Site, target: ServerName, minValidUntilTs: Timestamp, visits: seq<Visit>)
    requires |visits| == |c.notaries| && TablesOf(s.world, target).row.Some?
    requires OnlyOffers(EventsOf(Walk(c, s, target, minValidUntilTs, c.notaries, visits, None).steps, target))
    ensures var out := Walk(c, s, target, minValidUntilTs, c.notaries, visits, None);
            var offers := EventsOf(out.steps, target);
            && IsBest(BundleOf(TablesOf(s.world, target)), offers, |offers|, BundleOf(TablesOf(out.site.world, target)))
            && (out.result.Some? <==> !NoOwnOffers(out.steps, target))
            && (out.result.Some? ==>
                  && WasHeld(s.world, out.steps, target, HeldBundle(out.result.value))
                  && ValidOn(s.world, target) <= out.result.value.validUntilTs <= ValidOn(out.site.world, target)
                  && DominatesOwnOffers(out.steps, target, out.result.value))
  {
    var out := Walk(c, s, target, minValidUntilTs, c.notaries, visits, None);
    WalkOffers(c, s, target, minValidUntilTs, c.notaries, visits, None);
    WalkRuns(c, s, target, minValidUntilTs, c.notaries, visits, None);
    RunStepsOnOneServer(s.world, out.steps, target);
    BestCopyIsKept(TablesOf(s.world, target), EventsOf(out.steps, target), |EventsOf(out.steps, target)|);
    if out.result.Some? {
      WasHeldInBetween(s.world, out.steps, target, HeldBundle(out.result.value));
    }
  }

  /** When nobody else makes offers for the target, what the walk returns is what is held in the end. */
  lemma WalkReturnsTheRecord(c: Config, s: Site, target: ServerName, minValidUntilTs: Timestamp, visits: seq<Visit>)
    requires |visits| == |c.notaries| && TablesOf(s.world, target).row.Some?
    requires var steps := Walk(c, s, target, minValidUntilTs, c.notaries, visits, None).steps;
             OnlyOffers(EventsOf(steps, target)) && NoOtherOffers(steps, target)
    ensures var out := Walk(c, s, target, minValidUntilTs, c.notaries, visits, None);
            if out.result.Some? then HeldBundle(out.result.value) == BundleOf(TablesOf(out.site.world, target))
            else BundleOf(TablesOf(out.site.world, target)) == BundleOf(TablesOf(s.world, target))
  {
    var out := Walk(c, s, target, minValidUntilTs, c.notaries, visits, None);
    var offers, prior, final := EventsOf(out.steps, target), BundleOf(TablesOf(s.world, target)),
        BundleOf(TablesOf(out.site.world, target));
    WalkKeepsTheBest(c, s, target, minValidUntilTs, visits);
    WalkRuns(c, s, target, minValidUntilTs, c.notaries, visits, None);
    EventsOfAre(out.steps, target);
    if out.result.None? {
      assert forall x | x in out.steps && x.server == target :: x.event in offers;
      ProbesKeepTheCopy(s.world, out.steps, target);
    } else {
      OwnOffersAreAll(out.steps, target, out.result.value);
      BestIsBounded(prior, offers, |offers|, final, out.result.value.validUntilTs);
      EquallyValidIsTheLast(s.world, out.steps, target, HeldBundle(out.result.value));
    }
  }

  lemma OwnOffersAreAll(steps: seq<Step>, target: ServerName, held: Held)
    requires NoOtherOffers(steps, target) && DominatesOwnOffers(steps, target, held)
    ensures var offers := EventsOf(steps, target);
            forall j | 0 <= j < |offers| && IsOffer(offers[j]) :: offers[j].info.validUntilTs <= held.validUntilTs
  {
    EventsOfAre(steps, target);
    var offers := EventsOf(steps, target);
    forall j | 0 <= j < |offers| && IsOffer(offers[j]) ensures offers[j].info.validUntilTs <= held.validUntilTs {
      assert offers[j] in offers;
      var x :| x in steps && x.server == target && x.event == offers[j];
      assert OwnOffer(x, target);
    }
  }

  // ---------------------------------------------------------------- what a query returns

  predicate OriginAnswered(c: Config, s: Site, server: ServerName, script: Script) {
    ProbeIfDue(c, s, server, script).result.Some?
  }

  /** The part of a resolution before its walk: its steps, and where they lead. */
  function StepsBeforeWalk(c: Config, s: Site, server: ServerName, script: Script): seq<Step> {
    ProbeIfDue(c, s, server, script).steps + script.beforeWalk.steps
  }

  lemma BeforeWalkRuns(c: Config, s: Site, server: ServerName, script: Script)
    ensures IsRun(s, StepsBeforeWalk(c, s, server, script), WalkStart(c, s, server, script))
    ensures !OriginAnswered(c, s, server, script) ==>
              && TablesOf(ProbeIfDue(c, s, server, script).site.world, server).row.Some?
              && TablesOf(WalkStart(c, s, server, script).world, server).row.Some?
  {
    var probe := ProbeIfDue(c, s, server, script);
    ProbeRuns(c, s, server, script.now, script.fetch);
    OthersKeepTheRules(probe.site, c.cooldown, script.beforeWalk);
    RunsConcat(s, probe.steps, probe.site, script.beforeWalk.steps, WalkStart(c, s, server, script));
    if !OriginAnswered(c, s, server, script) {
      RecordsStay(probe.site.world, script.beforeWalk.steps, server);
    }
  }

  /** The three ways in which a query ends that the origin did not answer. */
  lemma ResolveCases(c: Config, s: Site, server: ServerName, minValidUntilTs: Timestamp, script: Script)
    requires |script.visits| == |c.notaries| && !OriginAnswered(c, s, server, script)
    ensures var out := Resolve(c, s, server, minValidUntilTs, true, script);
            var held, probed := LoadHeld(s.world, server), ShouldProbe(TablesOf(s.world, server).row, script.now);
            var probe, walk := ProbeIfDue(c, s, server, script), WalkOf(c, s, server, minValidUntilTs, script);
            || (held.Some? && out.site == s && out.steps == [] && out.result == held)
            || (out.result == BestEffort(server, held, probed, script.now) &&
                  (out.steps == probe.steps || out.steps == StepsBeforeWalk(c, s, server, script)))
            || (out.site == walk.site && out.steps == StepsBeforeWalk(c, s, server, script) + walk.steps &&
                  !HeldSatisfies(held, minValidUntilTs) &&
                  out.result == if HeldSatisfies(walk.result, minValidUntilTs) then walk.result
                                else BestEffort(server, if walk.result.Some? then walk.result
                                    else held, probed, script.now))
  {
    var probe, walk := ProbeIfDue(c, s, server, script), WalkOf(c, s, server, minValidUntilTs, script);
    assert probe.steps + [] == probe.steps;
    assert probe.steps + (script.beforeWalk.steps + walk.steps) == StepsBeforeWalk(c, s, server, script) + walk.steps;
  }

  /** A query about a server of which keys are held returns a copy that was held at some moment of it. */
  lemma QueryReturnsAHeldCopy(c: Config, s: Site, server: ServerName, minValidUntilTs: Timestamp, script: Script)
    requires |script.visits| == |c.notaries| && !OriginAnswered(c, s, server, script)
    requires OnlyOffers(EventsOf(Resolve(c, s, server, minValidUntilTs, true, script).steps, server))
    requires TablesOf(s.world, server).row.Some? && TablesOf(s.world, server).keys != map[]
    ensures var out := Resolve(c, s, server, minValidUntilTs, true, script);
            out.result.Some? && WasHeld(s.world, out.steps, server, HeldBundle(out.result.value))
  {
    var out, walk := Resolve(c, s, server, minValidUntilTs, true, script),
        WalkOf(c, s, server, minValidUntilTs, script);
    var start, before := WalkStart(c, s, server, script), StepsBeforeWalk(c, s, server, script);
    ResolveCases(c, s, server, minValidUntilTs, script);
    StartIsHeld(s.world, out.steps, server);
    if out.steps == before + walk.steps && walk.result.Some? {
      BeforeWalkRuns(c, s, server, script);
      OffersSplit(before, walk.steps, server);
      ValidityGrows(s, before, start, server);
      HeldAtTheEnd(s.world, before, server);
      WasHeldInBetween(s.world, before, server, BundleOf(TablesOf(start.world, server)));
      WalkKeepsTheBest(c, start, server, minValidUntilTs, script.visits);
      WasHeldInBetween(start.world, walk.steps, server, HeldBundle(walk.result.value));
      WasHeldConcat(s.world, before, walk.steps, server, HeldBundle(walk.result.value));
    }
  }

  /**
    A query never loses or worsens what was held, whoever else makes offers to the record meanwhile. Unless
    the origin itself answered, whoever held keys before gets keys, valid at least as long, and the record
    ends up with keys valid at least as long as those.
   */
  lemma QueryNeverDowngrades(c: Config, s: Site, server: ServerName, minValidUntilTs: Timestamp, script: Script)
    requires |script.visits| == |c.notaries| && !OriginAnswered(c, s, server, script)
    requires OnlyOffers(EventsOf(Resolve(c, s, server, minValidUntilTs, true, script).steps, server))
    requires TablesOf(s.world, server).row.Some? && TablesOf(s.world, server).keys != map[]
    ensures var out := Resolve(c, s, server, minValidUntilTs, true, script);
            && out.result.Some? && out.result.value.keys != map[] && TablesOf(out.site.world, server).keys != map[]
            && ValidOn(s.world, server) <= out.result.value.validUntilTs <= ValidOn(out.site.world, server)
  {
    var out := Resolve(c, s, server, minValidUntilTs, true, script);
    QueryReturnsAHeldCopy(c, s, server, minValidUntilTs, script);
    ResolveRuns(c, s, server, minValidUntilTs, true, script);
    WasHeldInBetween(s.world, out.steps, server, HeldBundle(out.result.value));
  }

  /**
    What an accepted and storable reply does, whichever server was asked: it replaces the record of the server
    that it names, as if that one's origin had sent it, and clears that one's standoff.
   */
  lemma AcceptedReplyTakesOver(c: Config, s: Site, server: ServerName, seen: int, now: int, exchange: Exchange,
                               reply: Reply)
    requires exchange.answer == Replies(reply) && Accepted(c, exchange.answer) && Storable(reply.info)
    ensures var out := Probe(c, s, server, seen, now, exchange);
            var t := TablesOf(out.site.world, reply.info.serverName);
            && out.result.Some? && out.result == LoadHeld(out.site.world, reply.info.serverName)
            && BundleOf(t) == ReplyBundle(reply.info, AdditionalFields(reply.raw), "")
            && Failures(t) == 0 && NextAttempt(t) == 0
  {
    var s', extra := Meanwhile(s, c.cooldown, exchange.during), AdditionalFields(reply.raw);
    DirectStoreTakesOver(s', reply.info, extra, exchange.storeNow, reply.order);
    var stored := StoreReply(s', reply.info, extra, "", exchange.storeNow, reply.order);
    assert FetchDirect(c, s, server, exchange).result == FetchedKeys(stored.result.value);
  }

  lemma DirectStoreTakesOver(s: Site, info: ServerKeys, extra: Fields, now: int, order: InsertOrder)
    requires Orders(order, info) && Validates(info) && Storable(info)
    ensures var out := StoreReply(s, info, extra, "", now, order);
            var t := TablesOf(out.site.world, info.serverName);
            && out.result.Some? && out.result == LoadHeld(out.site.world, info.serverName)
            && BundleOf(t) == ReplyBundle(info, extra, "") && Failures(t) == 0 && NextAttempt(t) == 0
  {
    var t := TablesOf(s.world, info.serverName);
    StoreMeaning(t, info, extra, "", now, order);
    ReachabilityOf(t, StoreAttempt(info, extra, "", now, order));
  }

  /**
    When the origin is asked and its reply passes the checks and can be stored, the answer is that reply,
    whoever else changed the record meanwhile: it is stored whole, and any standoff is cleared.
   */
  lemma OriginAnswerIsServed(c: Config, s: Site, server: ServerName, minValidUntilTs: Timestamp, fallback: bool,
                             script: Script, reply: Reply)
    requires fallback ==> |script.visits| == |c.notaries|
    requires ShouldProbe(TablesOf(s.world, server).row, script.now)
              && !RowIsFresh(TablesOf(s.world, server), minValidUntilTs, script.now)
    requires script.fetch.answer == Replies(reply) && AcceptsDirect(c.scheme, reply.info, reply.raw)
    requires reply.info.serverName == server && Storable(reply.info)
    ensures var out := Resolve(c, s, server, minValidUntilTs, fallback, script);
            var t := TablesOf(out.site.world, server);
            && out.result.Some? && out.result == LoadHeld(out.site.world, server)
            && out.contacts == [OriginFetch(server, script.fetch.answer)]
            && BundleOf(t) == ReplyBundle(reply.info, AdditionalFields(reply.raw), "")
            && Failures(t) == 0 && NextAttempt(t) == 0
  {
    ProbeContacts(c, s, server, Failures(TablesOf(s.world, server)), script.now, script.fetch);
    AcceptedReplyTakesOver(c, s, server, Failures(TablesOf(s.world, server)), script.now, script.fetch, reply);
  }

  /**
    Which requests an invalidated record still satisfies: those whose minimum is not positive. For them
    no notary is asked, although the record was meant to answer nothing.
   */
  lemma InvalidatedRecordSatisfies(t: Tables, server: ServerName, minValidUntilTs: int)
    requires t.row.Some?
    ensures HeldSatisfies(Some(HeldOf(server, InvalidateRemoteServer(t))), minValidUntilTs) <==>
              t.keys != map[] && minValidUntilTs <= 0
  {
  }
}
