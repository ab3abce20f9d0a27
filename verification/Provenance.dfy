/** Whose records are written as coming directly from their origin. */
module Provenance {
  import opened Base
  import opened Schedule
  import opened Events
  import opened Worlds
  import opened Resolution
  import opened ResolutionTheorems

  /** Some origin was asked and gave an accepted answer that names this server. */
  predicate AnsweredFor(c: Config, contacts: seq<Contact>, server: ServerName) {
    exists k :: k in contacts && k.OriginFetch? && Accepted(c, k.answer) && k.answer.reply.info.serverName == server
  }

  predicate StoredDirectly(steps: seq<Step>, server: ServerName) {
    exists x :: x in steps && x.own && IsDirectStore(x.event) && x.server == server
  }

  /** The records written by direct stores are those of the servers that accepted answers name. */
  ghost predicate StoresWhatIsNamed(c: Config, steps: seq<Step>, contacts: seq<Contact>) {
    forall server :: StoredDirectly(steps, server) <==> AnsweredFor(c, contacts, server)
  }

  lemma NamedConcat(c: Config, a: seq<Step>, ca: seq<Contact>, b: seq<Step>, cb: seq<Contact>)
    requires StoresWhatIsNamed(c, a, ca) && StoresWhatIsNamed(c, b, cb)
    ensures StoresWhatIsNamed(c, a + b, ca + cb)
  {
    forall server ensures StoredDirectly(a + b, server) <==> AnsweredFor(c, ca + cb, server) {
      StoredInEither(a, b, server);
      AnsweredInEither(c, ca, cb, server);
      assert StoredDirectly(a, server) <==> AnsweredFor(c, ca, server);
      assert StoredDirectly(b, server) <==> AnsweredFor(c, cb, server);
    }
  }

  lemma StoredInEither(a: seq<Step>, b: seq<Step>, server: ServerName)
    ensures StoredDirectly(a + b, server) <==> StoredDirectly(a, server) || StoredDirectly(b, server)
  {
    assert forall x :: x in a + b <==> x in a || x in b;
  }

  lemma AnsweredInEither(c: Config, a: seq<Contact>, b: seq<Contact>, server: ServerName)
    ensures AnsweredFor(c, a + b, server) <==> AnsweredFor(c, a, server) || AnsweredFor(c, b, server)
  {
    assert forall k :: k in a + b <==> k in a || k in b;
  }

  lemma NothingStoredNothingNamed(c: Config, steps: seq<Step>, contacts: seq<Contact>)
    requires forall x | x in steps && x.own :: !IsDirectStore(x.event)
    requires forall k | k in contacts :: k.OriginFetch? ==> !Accepted(c, k.answer)
    ensures StoresWhatIsNamed(c, steps, contacts)
  {
  }

  lemma OneStoreOneName(c: Config, asked: ServerName, answer: OriginAnswer, store: Step)
    requires Accepted(c, answer) && store.own && IsDirectStore(store.event)
    requires store.server == answer.reply.info.serverName
    ensures StoresWhatIsNamed(c, [store], [OriginFetch(asked, answer)])
  {
    var contact := OriginFetch(asked, answer);
    assert store in [store] && contact in [contact];
    forall server ensures StoredDirectly([store], server) <==> AnsweredFor(c, [contact], server) {
      assert AnsweredFor(c, [contact], server) <==> server == store.server;
    }
  }

  lemma FetchStoresWhatIsNamed(c: Config, s: Site, server: ServerName, fetch: Exchange)
    ensures var out := FetchDirect(c, s, server, fetch);
            StoresWhatIsNamed(c, out.steps, out.contacts)
  {
    var contacts := [OriginFetch(server, fetch.answer)];
    FetchSteps(c, s, server, fetch);
    if Accepted(c, fetch.answer) {
      NothingStoredNothingNamed(c, fetch.during.steps, []);
      OneStoreOneName(c, server, fetch.answer, StoreOf(c, fetch));
      NamedConcat(c, fetch.during.steps, [], [StoreOf(c, fetch)], contacts);
      assert [] + contacts == contacts;
    } else {
      NothingStoredNothingNamed(c, fetch.during.steps, contacts);
    }
  }

  /**
    Whose record a probe writes: that of the server its reply names, for any server and whoever was asked.
    Nothing compares the two names.
   */
  lemma ProbeStoresWhatIsNamed(c: Config, s: Site, server: ServerName, seen: int, now: int, exchange: Exchange)
    ensures var out := Probe(c, s, server, seen, now, exchange);
            StoresWhatIsNamed(c, out.steps, out.contacts)
  {
    var fetch, begins := FetchDirect(c, s, server, exchange), [Step(server, ProbeBegins(now, seen), true)];
    FetchStoresWhatIsNamed(c, s, server, exchange);
    NothingStoredNothingNamed(c, begins, []);
    NamedConcat(c, begins, [], fetch.steps, fetch.contacts);
    assert [] + fetch.contacts == fetch.contacts && fetch.contacts + [] == fetch.contacts;
    if fetch.result.FetchFailed? {
      var note := [Step(server, ProbeFailed(now, seen, IsTransient(fetch.result.error)), true)];
      NothingStoredNothingNamed(c, exchange.beforeNote.steps + note, []);
      NamedConcat(c, begins + fetch.steps, fetch.contacts, exchange.beforeNote.steps + note, []);
      assert begins + fetch.steps + (exchange.beforeNote.steps + note) ==
          begins + fetch.steps + exchange.beforeNote.steps + note;
    }
  }

  lemma OwnResolutionStoresWhatIsNamed(c: Config, s: Site, server: ServerName, minValidUntilTs: Timestamp,
                                       script: Script)
    ensures var out := Resolve(c, s, server, minValidUntilTs, false, script);
            StoresWhatIsNamed(c, out.steps, out.contacts)
  {
    var t := TablesOf(s.world, server);
    ProbeStoresWhatIsNamed(c, s, server, Failures(t), script.now, script.fetch);
    NothingStoredNothingNamed(c, [], []);
    var probe := ProbeIfDue(c, s, server, script);
    NamedConcat(c, probe.steps, probe.contacts, [], []);
  }

  lemma AskStoresWhatIsNamed(c: Config, s: Site, notary: ServerName, target: ServerName, visit: Visit)
    requires notary != ""
    ensures var out := Ask(c, s, notary, target, visit);
            StoresWhatIsNamed(c, out.steps, out.contacts)
  {
    var s0 := Meanwhile(s, c.cooldown, visit.before);
    var own := Resolve(c, s0, notary, visit.minNow, false, visit.own);
    OwnResolutionStoresWhatIsNamed(c, s0, notary, visit.minNow, visit.own);
    NothingStoredNothingNamed(c, visit.before.steps, []);
    NamedConcat(c, visit.before.steps, [], own.steps, own.contacts);
    assert [] + own.contacts == own.contacts;
    if own.result.Some? && HeldKeysDecode(c.scheme, own.result.value.keys) && own.result.value.keys != map[] {
      var s1, keys := Meanwhile(own.site, c.cooldown, visit.during),
          NotaryVerifyKeys(c.scheme, own.result.value.keys);
      var asked := AskWith(c, s1, notary, target, keys, visit.answer, visit.storeNow);
      AskWithStoresNothingDirectly(c, s1, notary, target, keys, visit);
      NamedConcat(c, visit.before.steps + own.steps, own.contacts, visit.during.steps + asked.steps, asked.contacts);
      assert visit.before.steps + own.steps + (visit.during.steps + asked.steps)
             == visit.before.steps + own.steps + visit.during.steps + asked.steps;
    }
  }

  lemma AskWithStoresNothingDirectly(c: Config, s: Site, notary: ServerName, target: ServerName,
                                     keys: map<KeyId, Bytes>, visit: Visit)
    requires notary != ""
    ensures var asked := AskWith(c, s, notary, target, keys, visit.answer, visit.storeNow);
            StoresWhatIsNamed(c, visit.during.steps + asked.steps, asked.contacts)
  {
    var asked := AskWith(c, s, notary, target, keys, visit.answer, visit.storeNow);
    NothingStoredNothingNamed(c, visit.during.steps + asked.steps, asked.contacts);
  }

  lemma {:induction false} WalkStoresWhatIsNamed(c: Config, s: Site, target: ServerName, minValidUntilTs: Timestamp,
                                                 notaries: seq<ServerName>, visits: seq<Visit>, best: Option<Held>)
    requires |visits| == |notaries|
    ensures var out := Walk(c, s, target, minValidUntilTs, notaries, visits, best);
            StoresWhatIsNamed(c, out.steps, out.contacts)
    decreases |notaries|
  {
    if notaries == [] {
      NothingStoredNothingNamed(c, [], []);
    } else if Skipped(c, notaries[0], target) {
      WalkStoresWhatIsNamed(c, s, target, minValidUntilTs, notaries[1..], visits[1..], best);
    } else {
      var asked := Ask(c, s, notaries[0], target, visits[0]);
      var best' := Better(best, asked.result);
      AskStoresWhatIsNamed(c, s, notaries[0], target, visits[0]);
      WalkStoresWhatIsNamed(c, asked.site, target, minValidUntilTs, notaries[1..], visits[1..], best');
      var rest := Walk(c, asked.site, target, minValidUntilTs, notaries[1..], visits[1..], best');
      NamedConcat(c, asked.steps, asked.contacts, rest.steps, rest.contacts);
    }
  }

  lemma WithoutOriginStoresWhatIsNamed(c: Config, s: Site, server: ServerName, minValidUntilTs: Timestamp,
                                       held: Option<Held>, probed: bool, script: Script)
    requires |script.visits| == |c.notaries|
    ensures var out := WithoutOrigin(c, s, server, minValidUntilTs, true, held, probed, script);
            StoresWhatIsNamed(c, out.steps, out.contacts)
  {
    var start := Started(c, Meanwhile(s, c.cooldown, script.beforeWalk), server, script.now);
    var walk := Walk(c, start, server, minValidUntilTs, c.notaries, script.visits, None);
    WalkStoresWhatIsNamed(c, start, server, minValidUntilTs, c.notaries, script.visits, None);
    NothingStoredNothingNamed(c, [], []);
    NothingStoredNothingNamed(c, script.beforeWalk.steps, []);
    NamedConcat(c, script.beforeWalk.steps, [], walk.steps, walk.contacts);
    assert [] + walk.contacts == walk.contacts;
  }

  /**
    Whose keys a query stores as coming from their origin: of exactly those servers that some accepted
    answer names, whichever origin gave it. So they come from their own origin exactly as far as the
    answers name the servers asked.
   */
  lemma QueryStoresWhatIsNamed(c: Config, s: Site, server: ServerName, minValidUntilTs: Timestamp, script: Script)
    requires |script.visits| == |c.notaries|
    ensures var out := Resolve(c, s, server, minValidUntilTs, true, script);
            StoresWhatIsNamed(c, out.steps, out.contacts)
  {
    var t, probe := TablesOf(s.world, server), ProbeIfDue(c, s, server, script);
    ProbeStoresWhatIsNamed(c, s, server, Failures(t), script.now, script.fetch);
    NothingStoredNothingNamed(c, [], []);
    if probe.result.None? {
      var held, probed := LoadHeld(s.world, server), ShouldProbe(t.row, script.now);
      WithoutOriginStoresWhatIsNamed(c, probe.site, server, minValidUntilTs, held, probed, script);
      var rest := WithoutOrigin(c, probe.site, server, minValidUntilTs, true, held, probed, script);
      NamedConcat(c, probe.steps, probe.contacts, rest.steps, rest.contacts);
    }
  }
}
