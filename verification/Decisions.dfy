/**
  What a resolution does in each case: answers at once, asks the origin, waits, or falls back on what is held;
  and how long an origin that failed is left alone, by the way in which it failed.
 */
module Decisions {
  import opened Base
  import opened KeyRecords
  import opened Schedule
  import opened Tables
  import opened Events
  import opened NotaryWalks
  import opened Worlds
  import opened Resolution
  import opened ResolutionTheorems
  import opened Notaries

  // ---------------------------------------------------------------- a failed probe

  /** The host is up: it answered, with a server error. */
  predicate AnsweredWithServerError(answer: OriginAnswer) {
    answer.Fails? && answer.error.StatusError? && answer.error.code >= 500
  }

  /** The standoff after so many failures in a row, the last of them of this kind. */
  function StandoffAfter(failures: int, serverError: bool): int {
    if serverError && failures <= 2 then 60_000
    else if failures <= 1 then 300_000
    else if failures == 2 then 900_000
    else if failures == 3 then 3_600_000
    else if failures == 4 then 21_600_000
    else 86_400_000
  }

  lemma StandoffIsBackoff(failures: int, serverError: bool)
    ensures OriginBackoff(failures, serverError) == StandoffAfter(failures, serverError)
  {
  }

  predicate GivesKeys(c: Config, answer: OriginAnswer) {
    Accepted(c, answer) && Storable(answer.reply.info)
  }

  lemma FetchFailsIff(c: Config, s: Site, server: ServerName, fetch: Exchange)
    ensures var result := FetchDirect(c, s, server, fetch).result;
            && (result.FetchedKeys? <==> GivesKeys(c, fetch.answer))
            && (result.FetchFailed? ==> (IsTransient(result.error) <==> AnsweredWithServerError(fetch.answer)))
  {
    if Accepted(c, fetch.answer) {
      var reply, s' := fetch.answer.reply, Meanwhile(s, c.cooldown, fetch.during);
      StoreMeaning(TablesOf(s'.world, reply.info.serverName), reply.info, AdditionalFields(reply.raw), "",
          fetch.storeNow, reply.order);
    }
  }

  /**
    What a probe comes to, whatever others do meanwhile. It fails exactly if the origin fails, or its reply is not
    accepted or cannot be stored. Then one more failure than was seen is on record, with the clock of the
    probe, and the next attempt is so long after that clock as the count and the way of failing say: a
    minute after a server error, twice; otherwise 5 minutes, 15, an hour, 6 hours, and a day from then on.
   */
  lemma FailedProbeIsNoted(c: Config, s: Site, server: ServerName, seen: int, now: int, exchange: Exchange)
    ensures var out, answer := Probe(c, s, server, seen, now, exchange), exchange.answer;
            var t := TablesOf(out.site.world, server);
            && out.contacts == [OriginFetch(server, answer)]
            && (out.result.Some? <==> GivesKeys(c, answer))
            && (!GivesKeys(c, answer) ==>
                  && t.row.Some? && t.row.value.originFailures == seen + 1 && t.row.value.updatedTs == now
                  && t.row.value.nextAttemptTs == now + StandoffAfter(seen + 1, AnsweredWithServerError(answer)))
  {
    FetchFailsIff(c, s, server, exchange);
    StandoffIsBackoff(seen + 1, AnsweredWithServerError(exchange.answer));
  }

  // ---------------------------------------------------------------- who is asked

  /** A fresh record answers at once: nobody is contacted, nothing changes, and the answer is the record. */
  lemma FreshIsAnsweredAtOnce(c: Config, s: Site, server: ServerName, minValidUntilTs: Timestamp, fallback: bool,
                              script: Script)
    requires fallback ==> |script.visits| == |c.notaries|
    requires RowIsFresh(TablesOf(s.world, server), minValidUntilTs, script.now)
    ensures var out, t := Resolve(c, s, server, minValidUntilTs, fallback, script), TablesOf(s.world, server);
            var row := t.row.value;
            && out.site == s && out.steps == [] && out.contacts == []
            && out.result ==
               Some(Held(server, row.updatedTs, row.validUntilTs, row.extra, row.via, t.keys, t.signatures))
  {
  }

  /** What is held is not fresh, and the origin may be asked: it is unknown, or its standoff has run out. */
  predicate OriginsTurn(t: Tables, minValidUntilTs: int, now: int) {
    !RowIsFresh(t, minValidUntilTs, now) && (t.row.None? || now >= t.row.value.nextAttemptTs)
  }

  /** The origin is asked exactly in its turn, and then first; without notaries, nobody else is. */
  lemma OriginIsAskedInItsTurn(c: Config, s: Site, server: ServerName, minValidUntilTs: Timestamp, fallback: bool,
                               script: Script)
    requires fallback ==> |script.visits| == |c.notaries|
    ensures var out := Resolve(c, s, server, minValidUntilTs, fallback, script);
            var fetch, turn := OriginFetch(server, script.fetch.answer),
              OriginsTurn(TablesOf(s.world, server), minValidUntilTs, script.now);
            && (turn ==> out.contacts != [] && out.contacts[0] == fetch)
            && (!turn ==> forall k | k in out.contacts :: k.OriginFetch? ==> k.server != server)
            && (!fallback ==> out.contacts == if turn then [fetch] else [])
  {
    var t := TablesOf(s.world, server);
    ProbeContacts(c, s, server, Failures(t), script.now, script.fetch);
    if fallback {
      WalkAsksOthers(c, WalkStart(c, s, server, script), server, minValidUntilTs, c.notaries, script.visits, None);
      PartsOfQuery(c, s, server, minValidUntilTs, script);
      ContactsOfQuery(c, s, server, minValidUntilTs, script);
    }
  }

  /** Nobody, or the origin in its turn, and then perhaps the notaries. */
  lemma ContactsOfQuery(c: Config, s: Site, server: ServerName, minValidUntilTs: Timestamp, script: Script)
    requires |script.visits| == |c.notaries|
    ensures var out := Resolve(c, s, server, minValidUntilTs, true, script);
            var probe, walk := ProbeIfDue(c, s, server, script), WalkOf(c, s, server, minValidUntilTs, script);
            if RowIsFresh(TablesOf(s.world, server), minValidUntilTs, script.now) then out.contacts == []
            else out.contacts == probe.contacts || out.contacts == probe.contacts + walk.contacts
  {
    var probe := ProbeIfDue(c, s, server, script);
    assert probe.contacts + [] == probe.contacts;
  }

  lemma {:induction false} WalkAsksOthers(c: Config, s: Site, target: ServerName, minValidUntilTs: Timestamp,
                                          notaries: seq<ServerName>, visits: seq<Visit>, best: Option<Held>)
    requires |visits| == |notaries|
    ensures forall k | k in Walk(c, s, target, minValidUntilTs, notaries, visits, best).contacts ::
              k.OriginFetch? ==> k.server != target
    decreases |notaries|
  {
    if notaries == [] {
    } else if Skipped(c, notaries[0], target) {
      WalkAsksOthers(c, s, target, minValidUntilTs, notaries[1..], visits[1..], best);
    } else {
      var asked := Ask(c, s, notaries[0], target, visits[0]);
      OwnResolutionIsOneFetch(c, Meanwhile(s, c.cooldown, visits[0].before), notaries[0], visits[0].minNow,
          visits[0].own);
      AskContacts(c, s, notaries[0], target, visits[0]);
      WalkAsksOthers(c, asked.site, target, minValidUntilTs, notaries[1..], visits[1..], Better(best, asked.result));
    }
  }

  /** What is held, as a caller gets it. */
  function AsHeld(server: ServerName, t: Tables): Option<Held> {
    if t.row.None? then None
    else
      var row := t.row.value;
      Some(Held(server, row.updatedTs, row.validUntilTs, row.extra, row.via, t.keys, t.signatures))
  }

  /** The notaries are not asked: that is not allowed, or what is held has keys that are valid for long enough. */
  predicate NoNotaries(t: Tables, minValidUntilTs: int, fallback: bool) {
    !fallback || (t.row.Some? && t.keys != map[] && t.row.value.validUntilTs >= minValidUntilTs)
  }

  lemma NobodyElseIsAsked(c: Config, s: Site, server: ServerName, minValidUntilTs: Timestamp, fallback: bool,
                          script: Script)
    requires fallback ==> |script.visits| == |c.notaries|
    requires NoNotaries(TablesOf(s.world, server), minValidUntilTs, fallback)
    ensures var out := Resolve(c, s, server, minValidUntilTs, fallback, script);
            (forall k | k in out.contacts :: k.OriginFetch?) && NoWordTaken(out.steps)
  {
    ProbeContacts(c, s, server, Failures(TablesOf(s.world, server)), script.now, script.fetch);
    ProbeStoresDirectly(c, s, server, Failures(TablesOf(s.world, server)), script.now, script.fetch);
    assert OwnStoresDirect(ProbeIfDue(c, s, server, script).steps);
  }

  /** No notary's word is stored. */
  predicate NoWordTaken(steps: seq<Step>) {
    forall x | x in steps && x.own && x.event.StoreAttempt? :: x.event.via == ""
  }

  lemma {:induction false} WalkFindsNothing(c: Config, s: Site, target: ServerName, minValidUntilTs: Timestamp,
                                            notaries: seq<ServerName>, visits: seq<Visit>, best: Option<Held>)
    requires |visits| == |notaries|
    requires NoWordTaken(Walk(c, s, target, minValidUntilTs, notaries, visits, best).steps)
    requires !HeldSatisfies(best, minValidUntilTs)
    ensures Walk(c, s, target, minValidUntilTs, notaries, visits, best).result == best
    decreases |notaries|
  {
    if notaries == [] {
    } else if Skipped(c, notaries[0], target) {
      WalkFindsNothing(c, s, target, minValidUntilTs, notaries[1..], visits[1..], best);
    } else {
      var asked, out := Ask(c, s, notaries[0], target, visits[0]),
          Walk(c, s, target, minValidUntilTs, notaries, visits, best);
      assert forall x | x in asked.steps :: x in out.steps;
      AskFindsNothing(c, s, notaries[0], target, visits[0]);
      var rest := Walk(c, asked.site, target, minValidUntilTs, notaries[1..], visits[1..], best);
      assert forall x | x in rest.steps :: x in out.steps;
      WalkFindsNothing(c, asked.site, target, minValidUntilTs, notaries[1..], visits[1..], best);
    }
  }

  lemma AskFindsNothing(c: Config, s: Site, notary: ServerName, target: ServerName, visit: Visit)
    requires notary != "" && NoWordTaken(Ask(c, s, notary, target, visit).steps)
    ensures Ask(c, s, notary, target, visit).result == None
  {
    var out, s0 := Ask(c, s, notary, target, visit), Meanwhile(s, c.cooldown, visit.before);
    var own := Resolve(c, s0, notary, visit.minNow, false, visit.own);
    if own.result.Some? && HeldKeysDecode(c.scheme, own.result.value.keys) && own.result.value.keys != map[] {
      var s1, keys := Meanwhile(own.site, c.cooldown, visit.during),
          NotaryVerifyKeys(c.scheme, own.result.value.keys);
      var asked := AskWith(c, s1, notary, target, keys, visit.answer, visit.storeNow);
      assert forall x | x in asked.steps :: x in out.steps;
      AskWithNames(c, s1, notary, target, keys, visit.answer, visit.storeNow);
      SomethingInIt(asked.steps);
    }
  }

  lemma SomethingInIt(steps: seq<Step>)
    ensures steps != [] ==> exists x :: x in steps
  {
    if steps != [] {
      assert steps[0] in steps;
    }
  }

  /**
    The last resort. When the origin gives nothing and no notary's word is taken, be it that none may be asked, that
    no walk is granted, or that none has anything, the answer is what was held when the query began, expired or
    not; only after a probe in vain of a server without any keys is it an empty answer, of that moment.
   */
  lemma LastResort(c: Config, s: Site, server: ServerName, minValidUntilTs: Timestamp, fallback: bool, script: Script)
    requires fallback ==> |script.visits| == |c.notaries|
    requires var t := TablesOf(s.world, server);
             !RowIsFresh(t, minValidUntilTs, script.now) && OriginGivesNothing(c, t, script)
    requires NoWordTaken(Resolve(c, s, server, minValidUntilTs, fallback, script).steps)
    ensures var out, t := Resolve(c, s, server, minValidUntilTs, fallback, script), TablesOf(s.world, server);
            out.result ==
            if OriginsTurn(t, minValidUntilTs, script.now) && (t.row.None? || t.keys == map[]) then
              Some(Held(server, script.now, script.now, map[], "", map[], map[]))
            else AsHeld(server, t)
  {
    var t, probe := TablesOf(s.world, server), ProbeIfDue(c, s, server, script);
    NoAnswerFromOrigin(c, s, server, script);
    ResolveGoesOn(c, s, server, minValidUntilTs, fallback, script);
    var out, held := Resolve(c, s, server, minValidUntilTs, fallback, script), LoadHeld(s.world, server);
    var rest := WithoutOrigin(c, probe.site, server, minValidUntilTs, fallback, held, ShouldProbe(t.row, script.now),
        script);
    assert forall x | x in rest.steps :: x in out.steps;
    NothingBetter(c, probe.site, server, minValidUntilTs, fallback, held, ShouldProbe(t.row, script.now), script);
  }

  lemma NothingBetter(c: Config, s: Site, server: ServerName, minValidUntilTs: Timestamp, fallback: bool,
                      held: Option<Held>, probed: bool, script: Script)
    requires fallback ==> |script.visits| == |c.notaries|
    requires NoWordTaken(WithoutOrigin(c, s, server, minValidUntilTs, fallback, held, probed, script).steps)
    ensures WithoutOrigin(c, s, server, minValidUntilTs, fallback, held, probed, script).result ==
              BestEffort(server, held, probed, script.now)
  {
    var s' := Meanwhile(s, c.cooldown, script.beforeWalk);
    if fallback && !HeldSatisfies(held, minValidUntilTs) && Due(s'.walks, c.cooldown, server, script.now) {
      var start := Started(c, s', server, script.now);
      var walk := Walk(c, start, server, minValidUntilTs, c.notaries, script.visits, None);
      var out := WithoutOrigin(c, s, server, minValidUntilTs, fallback, held, probed, script);
      assert forall x | x in walk.steps :: x in out.steps;
      WalkFindsNothing(c, start, server, minValidUntilTs, c.notaries, script.visits, None);
    }
  }

  /** No walk is started within the cooldown of the last one for the same server, and a walk is on record at once. */
  lemma WalksAreRecorded(c: Config, s: Site, server: ServerName, minValidUntilTs: Timestamp, script: Script)
    requires |script.visits| == |c.notaries| && NothingAtHand(TablesOf(s.world, server), minValidUntilTs, script.now)
    requires OriginGivesNothing(c, TablesOf(s.world, server), script) && WalkMayStart(c, s.walks, server, script)
    ensures var walks := WalkStart(c, s, server, script).walks; server in walks && walks[server] == script.now
  {
    StillMayStart(c, s, server, script);
  }

  // ---------------------------------------------------------------- the best answer

  /** What a walk returns without keys is what was held when the query began. */
  lemma WalksKeylessAnswer(c: Config, s: Site, server: ServerName, minValidUntilTs: Timestamp, script: Script)
    requires |script.visits| == |c.notaries| && !OriginAnswered(c, s, server, script)
    requires var walk := WalkOf(c, s, server, minValidUntilTs, script);
             OnlyOffers(EventsOf(StepsBeforeWalk(c, s, server, script) + walk.steps, server))
    ensures var walk := WalkOf(c, s, server, minValidUntilTs, script);
            && (walk.result.None? ==> NoOwnOffers(walk.steps, server))
            && (walk.result.Some? ==> DominatesOwnOffers(walk.steps, server, walk.result.value))
            && (walk.result.Some? && walk.result.value.keys == map[] ==>
                  TablesOf(s.world, server).keys == map[]
                  && walk.result.value.validUntilTs == ValidOn(s.world, server))
  {
    var walk, start, before := WalkOf(c, s, server, minValidUntilTs, script), WalkStart(c, s, server, script),
        StepsBeforeWalk(c, s, server, script);
    OffersSplit(before, walk.steps, server);
    BeforeWalkRuns(c, s, server, script);
    WalkKeepsTheBest(c, start, server, minValidUntilTs, script.visits);
    if walk.result.Some? && walk.result.value.keys == map[] {
      WasHeldConcat(s.world, before, walk.steps, server, HeldBundle(walk.result.value));
      KeylessIsTheFirst(s.world, before + walk.steps, server, HeldBundle(walk.result.value));
    }
  }

  /**
    A query returns the best of what it found: unless the origin answers, whatever it returns is at least as long
    valid as every copy that it was offered by a notary and could store.
   */
  lemma QueryDominatesOffers(c: Config, s: Site, server: ServerName, minValidUntilTs: Timestamp, script: Script)
    requires |script.visits| == |c.notaries| && !OriginAnswered(c, s, server, script) && script.now >= 0
    requires OnlyOffers(EventsOf(Resolve(c, s, server, minValidUntilTs, true, script).steps, server))
    requires TablesOf(s.world, server).keys == map[] ==> ValidOn(s.world, server) <= 0
    ensures var out := Resolve(c, s, server, minValidUntilTs, true, script);
            out.result.Some? && DominatesOwnOffers(out.steps, server, out.result.value)
  {
    var out, walk := Resolve(c, s, server, minValidUntilTs, true, script),
        WalkOf(c, s, server, minValidUntilTs, script);
    var probe, before := ProbeIfDue(c, s, server, script), StepsBeforeWalk(c, s, server, script);
    BoundedWorkAndAResult(c, s, server, minValidUntilTs, script);
    ResolveCases(c, s, server, minValidUntilTs, script);
    ProbeStoresDirectly(c, s, server, Failures(TablesOf(s.world, server)), script.now, script.fetch);
    if out.steps == [] || out.steps == probe.steps || out.steps == before {
      NoDirectOffers(out.steps, server);
    } else {
      OffersSplit(before, walk.steps, server);
      NoDirectOffers(before, server);
      WalksKeylessAnswer(c, s, server, minValidUntilTs, script);
      OffersAreDominated(before, walk, out, TablesOf(s.world, server), server, LoadHeld(s.world, server),
          minValidUntilTs, ShouldProbe(TablesOf(s.world, server).row, script.now), script.now);
    }
  }

  lemma OffersAreDominated(before: seq<Step>, walk: Outcome<Option<Held>>, out: Outcome<Option<Held>>, t: Tables,
                      server: ServerName, held: Option<Held>, minValidUntilTs: int, probed: bool, now: Timestamp)
    requires now >= 0 && (t.keys == map[] ==> BundleOf(t).validUntilTs <= 0) && NoOwnOffers(before, server)
    requires walk.result.None? ==> NoOwnOffers(walk.steps, server)
    requires walk.result.Some? ==> DominatesOwnOffers(walk.steps, server, walk.result.value)
    requires walk.result.Some? && walk.result.value.keys == map[] ==>
               t.keys == map[] && walk.result.value.validUntilTs == BundleOf(t).validUntilTs
    requires out.steps == before + walk.steps && out.result.Some?
    requires out.result == if HeldSatisfies(walk.result, minValidUntilTs) then walk.result
                           else BestEffort(server, if walk.result.Some? then walk.result else held, probed, now)
    ensures DominatesOwnOffers(out.steps, server, out.result.value)
  {
    forall x | x in out.steps && OwnOffer(x, server)
      ensures x.event.info.validUntilTs <= out.result.value.validUntilTs
    {
      assert x in walk.steps;
    }
  }
}
