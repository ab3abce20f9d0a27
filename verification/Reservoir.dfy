/** The key reservoir itself: the tables of every server, changed statement by statement. */
module KeyReservoir {
  import opened Base
  import opened KeyRecords
  import opened Schedule
  import opened Tables
  import opened Events
  import opened NotaryWalks
  import opened Worlds
  import opened Resolution

  class Reservoir {
    const config: Config
    const walks: WalkSchedule
    var world: World

    // who was contacted, for specifications
    ghost var contacts: seq<Contact>

    constructor (config: Config)
      ensures Valid() && fresh(walks) && this.config == config
      ensures CurrentSite() == Site(map[], map[]) && contacts == []
    {
      this.config := config;
      walks := new WalkSchedule(config.cooldown);
      world := map[];
      contacts := [];
    }

    ghost predicate Valid() {
      walks.cooldownMs == config.cooldown
    }

    ghost function CurrentSite(): Site
      reads this, walks
    {
      Site(world, walks.last)
    }

    // -------------------------------------------------------------- storing

    method ExecStatement(server: ServerName, tables: Tables)
      modifies this`world
      ensures world == old(world)[server := tables]
    {
      world := world[server := tables];
    }

    /** One insert; false when its primary key is taken. */
    method Insert(server: ServerName, insert: Insert) returns (ok: bool)
      requires server in world
      modifies this`world
      ensures ok <==> ExecInsert(old(world)[server], insert).Some?
      ensures world == if ok then old(world)[server := ExecInsert(old(world)[server], insert).value] else old(world)
    {
      var t := ExecInsert(world[server], insert);
      if t.None? {
        return false;
      }
      world := world[server := t.value];
      return true;
    }

    method InsertKeys(server: ServerName, order: seq<KeyId>, rows: map<KeyId, KeyRow>) returns (ok: bool)
      requires server in world && Elements(order) <= rows.Keys
      modifies this`world
      ensures var out := RunInserts(old(world)[server], KeyInserts(order, rows));
              ok == out.ok && world == old(world)[server := out.tables]
    {
      ghost var goal := RunInserts(world[server], KeyInserts(order, rows));
      for i := 0 to |order|
        invariant server in world && Elements(order[i..]) <= rows.Keys
        invariant world == old(world)[server := world[server]]
        invariant RunInserts(world[server], KeyInserts(order[i..], rows)) == goal
      {
        assert order[i] in Elements(order[i..]);
        var insert := KeyInsert(order[i], rows[order[i]]);
        assert order[i..][0] == order[i] && order[i..][1..] == order[i + 1..];
        assert KeyInserts(order[i..], rows) == [insert] + KeyInserts(order[i + 1..], rows);
        assert ([insert] + KeyInserts(order[i + 1..], rows))[1..] == KeyInserts(order[i + 1..], rows);
        assert Elements(order[i + 1..]) <= Elements(order[i..]);
        var inserted := Insert(server, insert);
        if !inserted {
          return false;
        }
      }
      return true;
    }

    method InsertSignatures(server: ServerName, order: seq<(string, KeyId)>, info: ServerKeys) returns (ok: bool)
      requires server in world && Elements(order) <= SignaturePairs(info)
      modifies this`world
      ensures var out := RunInserts(old(world)[server], SignatureInserts(order, info));
              ok == out.ok && world == old(world)[server := out.tables]
    {
      ghost var goal := RunInserts(world[server], SignatureInserts(order, info));
      for i := 0 to |order|
        invariant server in world && Elements(order[i..]) <= SignaturePairs(info)
        invariant world == old(world)[server := world[server]]
        invariant RunInserts(world[server], SignatureInserts(order[i..], info)) == goal
      {
        assert order[i] in Elements(order[i..]);
        var insert := SignatureInsert(order[i].1, SignatureAt(info, order[i]));
        assert order[i..][0] == order[i] && order[i..][1..] == order[i + 1..];
        assert SignatureInserts(order[i..], info) == [insert] + SignatureInserts(order[i + 1..], info);
        assert ([insert] + SignatureInserts(order[i + 1..], info))[1..] == SignatureInserts(order[i + 1..], info);
        assert Elements(order[i + 1..]) <= Elements(order[i..]);
        var inserted := Insert(server, insert);
        if !inserted {
          return false;
        }
      }
      return true;
    }

    /** Clears a record for a reply, as the statements before the inserts do. */
    method ClearFor(info: ServerKeys, extra: Fields, via: string, now: int)
      modifies this`world
      ensures world == old(world)[info.serverName :=
                Cleared(TablesOf(old(world), info.serverName), info, extra, via, now)]
    {
      var server := info.serverName;
      var t := TablesOf(world, server);
      ExecStatement(server, UpsertRemoteServer(t, now, info.validUntilTs, extra, via));
      ExecStatement(server, DeleteRemoteKeys(world[server]));
      ExecStatement(server, DeleteRemoteSignatures(world[server]));
      if via == "" {
        ExecStatement(server, ResetOriginProbe(world[server]));
      }
    }

    /** Others get their turn between two steps: they change records, and start walks. */
    method LetOthersRun(others: Others)
      requires Valid()
      modifies this`world, walks
      ensures CurrentSite() == Meanwhile(old(CurrentSite()), config.cooldown, others)
    {
      world := RunSteps(world, others.steps);
      ghost var goal := TakeAll(walks.last, config.cooldown, others.takes);
      assert others.takes[0..] == others.takes;
      for i := 0 to |others.takes|
        invariant world == RunSteps(old(world), others.steps)
        invariant TakeAll(walks.last, config.cooldown, others.takes[i..]) == goal
      {
        assert others.takes[i..][1..] == others.takes[i + 1..];
        var take := others.takes[i];
        var granted := walks.Take(take.server, take.now);
      }
    }

    /** Stores a verified reply unless a notary offers nothing fresher; None when an insert fails half-way. */
    method StoreRemoteKeys(info: ServerKeys, extra: Fields, via: string, now: int, order: InsertOrder)
      returns (r: Option<Held>)
      requires Orders(order, info) && Validates(info)
      modifies this`world
      ensures var out := StoreReply(old(CurrentSite()), info, extra, via, now, order);
              CurrentSite() == out.site && r == out.result
    {
      var server := info.serverName;
      ghost var t := TablesOf(world, server);
      if KeepsExisting(TablesOf(world, server), info, via) {
        assert world[server := t] == world;
        return Some(HeldOf(server, world[server]));
      }
      StoreMeaning(t, info, extra, via, now, order);
      var ok := Rewrite(info, extra, via, now, order);
      return if ok then Some(HeldOf(server, world[server])) else None;
    }

    /** The write path of a store: upsert, deletes, inserts. */
    method Rewrite(info: ServerKeys, extra: Fields, via: string, now: int, order: InsertOrder) returns (ok: bool)
      requires Orders(order, info)
      modifies this`world
      ensures var out := RunInserts(Cleared(TablesOf(old(world), info.serverName), info, extra, via, now),
                Inserts(info, order));
              ok == out.ok && world == old(world)[info.serverName := out.tables]
    {
      ClearFor(info, extra, via, now);
      ok := InsertAll(info, order);
    }

    /** The inserts of a store: current keys, expired keys, signatures. */
    method InsertAll(info: ServerKeys, order: InsertOrder) returns (ok: bool)
      requires Orders(order, info) && info.serverName in world
      modifies this`world
      ensures var out := RunInserts(old(world)[info.serverName], Inserts(info, order));
              ok == out.ok && world == old(world)[info.serverName := out.tables]
    {
      var server := info.serverName;
      ghost var cleared := world[server];
      InsertsByParts(cleared, info, order);
      ok := InsertKeys(server, order.current, CurrentRows(info.verifyKeys));
      assert world == old(world)[server := AfterCurrent(cleared, info, order).tables];
      if !ok {
        return;
      }
      ok := InsertKeys(server, order.expired, ExpiredRows(info.OldKeys()));
      assert world == old(world)[server := AfterExpired(cleared, info, order).tables];
      if !ok {
        return;
      }
      ok := InsertSignatures(server, order.signatures, info);
      assert world == old(world)[server := AfterSignatures(cleared, info, order).tables];
    }

    /** Makes a stored record answer nothing, so that the next fetch replaces it. */
    method InvalidateHeld(server: ServerName)
      modifies this`world
      ensures world == old(world)[server := InvalidateRemoteServer(TablesOf(old(world), server))]
    {
      ExecStatement(server, InvalidateRemoteServer(TablesOf(world, server)));
    }

    // -------------------------------------------------------------- origins

    method FetchDirectFromOrigin(server: ServerName, fetch: Exchange) returns (r: Fetched)
      requires Valid()
      modifies this`world, this`contacts, walks
      ensures var out := FetchDirect(config, old(CurrentSite()), server, fetch);
              CurrentSite() == out.site && contacts == old(contacts) + out.contacts && r == out.result
    {
      contacts := contacts + [OriginFetch(server, fetch.answer)];
      LetOthersRun(fetch.during);
      match fetch.answer {
        case Fails(error) => return FetchFailed(error);
        case Replies(reply) =>
          var additional := VerifyDirectReply(config.scheme, reply.info, reply.raw);
          if additional.None? {
            return FetchFailed(OtherError);
          }
          var stored := StoreRemoteKeys(reply.info, additional.value, "", fetch.storeNow, reply.order);
          return if stored.Some? then FetchedKeys(stored.value) else FetchFailed(OtherError);
      }
    }

    /** Fetches from the origin, and on failure schedules the next probe before anything else of its own. */
    method ProbeOrigin(server: ServerName, seen: int, now: int, exchange: Exchange) returns (r: Option<Held>)
      requires Valid()
      modifies this`world, this`contacts, walks
      ensures var out := Probe(config, old(CurrentSite()), server, seen, now, exchange);
              CurrentSite() == out.site && contacts == old(contacts) + out.contacts && r == out.result
    {
      var fetched := FetchDirectFromOrigin(server, exchange);
      if fetched.FetchedKeys? {
        return Some(fetched.held);
      }
      LetOthersRun(exchange.beforeNote);
      var failures := seen + 1;
      var wait := OriginBackoff(failures, IsTransient(fetched.error));
      ExecStatement(server, NoteOriginFailure(TablesOf(world, server), now, failures, now + wait));
      return None;
    }

    // -------------------------------------------------------------- resolution

    /** Resolves a server's keys from what is held, from the origin, or from the notaries. */
    method QueryRemoteKeys(server: ServerName, minValidUntilTs: Timestamp, fallback: bool,
                           script: Script) returns (r: Option<Held>)
      requires Valid() && (fallback ==> |script.visits| == |config.notaries|)
      modifies this`world, this`contacts, walks
      ensures var out := Resolve(config, old(CurrentSite()), server, minValidUntilTs, fallback, script);
              CurrentSite() == out.site && contacts == old(contacts) + out.contacts && r == out.result
      decreases script, 1
    {
      var t := TablesOf(world, server);
      var held := LoadHeld(world, server);
      if t.row.Some? && IsFresh(t.row.value.updatedTs, t.row.value.validUntilTs, minValidUntilTs, script.now) {
        return held;
      }

      ResolveGoesOn(config, CurrentSite(), server, minValidUntilTs, fallback, script);
      r := ProbeWhenDue(server, script);
      if r.Some? {
        return;
      }
      r := AnswerWithoutOrigin(server, minValidUntilTs, fallback, held, ShouldProbe(t.row, script.now), script);
    }

    /** The origin's turn in a resolution: nothing while its standoff lasts. */
    method ProbeWhenDue(server: ServerName, script: Script) returns (r: Option<Held>)
      requires Valid()
      modifies this`world, this`contacts, walks
      ensures var out := ProbeIfDue(config, old(CurrentSite()), server, script);
              CurrentSite() == out.site && contacts == old(contacts) + out.contacts && r == out.result
    {
      var t := TablesOf(world, server);
      if !ShouldProbe(t.row, script.now) {
        return None;
      }
      r := ProbeOrigin(server, Failures(t), script.now, script.fetch);
    }

    /** The rest of a resolution that the origin did not answer. */
    method AnswerWithoutOrigin(server: ServerName, minValidUntilTs: Timestamp, fallback: bool, held: Option<Held>,
                               probed: bool, script: Script)
      returns (r: Option<Held>)
      requires Valid() && (fallback ==> |script.visits| == |config.notaries|)
      modifies this`world, this`contacts, walks
      ensures var out := WithoutOrigin(config, old(CurrentSite()), server, minValidUntilTs, fallback, held, probed,
                script);
              CurrentSite() == out.site && contacts == old(contacts) + out.contacts && r == out.result
      decreases script, 0
    {
      var best := held;
      if fallback && !HeldSatisfies(held, minValidUntilTs) {
        LetOthersRun(script.beforeWalk);
        ghost var before := CurrentSite();
        var granted := walks.Take(server, script.now);
        if granted {
          assert CurrentSite() == Started(config, before, server, script.now);
          var cached := QueryViaTrustedNotaries(server, minValidUntilTs, script.visits);
          if HeldSatisfies(cached, minValidUntilTs) {
            return cached;
          }
          if cached.Some? {
            best := cached;
          }
        }
      }

      if !probed {
        return best;
      }
      if best.Some? && best.value.keys != map[] {
        return best;
      }
      return Some(NothingHeld(server, script.now));
    }

    /** Asks the notaries in turn, stopping at the first whose copy is valid for long enough. */
    method QueryViaTrustedNotaries(target: ServerName, minValidUntilTs: Timestamp,
                                   visits: seq<Visit>) returns (best: Option<Held>)
      requires Valid() && |visits| == |config.notaries|
      modifies this`world, this`contacts, walks
      ensures var out := Walk(config, old(CurrentSite()), target, minValidUntilTs, config.notaries, visits, None);
              CurrentSite() == out.site && contacts == old(contacts) + out.contacts && best == out.result
      decreases visits, 3
    {
      best := None;
      ghost var goal := Walk(config, CurrentSite(), target, minValidUntilTs, config.notaries, visits, None);
      ghost var done: seq<Contact> := [];
      assert config.notaries[0..] == config.notaries && visits[0..] == visits;
      for i := 0 to |config.notaries|
        invariant contacts == old(contacts) + done
        invariant WalkStands(config, goal, CurrentSite(), done, target, minValidUntilTs, visits, i, best)
      {
        var notary := config.notaries[i];
        WalkAdvances(config, goal, CurrentSite(), done, target, minValidUntilTs, visits, i, best);
        if notary == "" || notary == config.self || notary == target {
          continue;
        }
        ghost var asked := Ask(config, CurrentSite(), notary, target, visits[i]).contacts;
        var cached := QueryOneNotary(notary, target, visits[i]);
        ConcatAssociates(old(contacts), done, asked);
        done := done + asked;
        if HeldSatisfies(cached, minValidUntilTs) {
          return cached;
        }
        if cached.Some? && (best.None? || cached.value.validUntilTs > best.value.validUntilTs) {
          best := cached;
        }
      }
    }

    method DecodeNotaryKeys(keys: map<KeyId, KeyRow>) returns (r: Option<map<KeyId, Bytes>>)
      ensures r.Some? <==> HeldKeysDecode(config.scheme, keys)
      ensures r.Some? ==> r.value == NotaryVerifyKeys(config.scheme, keys)
    {
      var encoded := map id | id in keys :: keys[id].publicKey;
      r := DecodeKeys(config.scheme, encoded);
      assert forall id | id in keys :: encoded[id] == keys[id].publicKey;
      assert r.Some? ==> r.value == NotaryVerifyKeys(config.scheme, keys);
    }

    /** The first entry of a notary's answer that is usable and about the server asked for. */
    method FindEntry(entries: seq<Option<Vouched>>, target: ServerName) returns (r: Option<Vouched>)
      ensures r == FirstFor(entries, target)
    {
      assert entries[0..] == entries;
      for i := 0 to |entries|
        invariant FirstFor(entries[i..], target) == FirstFor(entries, target)
      {
        assert entries[i..][0] == entries[i] && entries[i..][1..] == entries[i + 1..];
        if entries[i].Some? {
          var info := entries[i].value.info;
          if Validates(info) && info.serverName == target {
            return entries[i];
          }
        }
      }
      return None;
    }

    /** Asks one notary, whose own keys are first resolved without any notary. */
    method QueryOneNotary(notary: ServerName, target: ServerName, visit: Visit) returns (r: Option<Held>)
      requires Valid()
      modifies this`world, this`contacts, walks
      ensures var out := Ask(config, old(CurrentSite()), notary, target, visit);
              CurrentSite() == out.site && contacts == old(contacts) + out.contacts && r == out.result
      decreases visit, 2
    {
      LetOthersRun(visit.before);
      ghost var ownOut := Resolve(config, CurrentSite(), notary, visit.minNow, false, visit.own);
      var own := QueryRemoteKeys(notary, visit.minNow, false, visit.own);
      if own.None? {
        return None;
      }
      var notaryKeys := DecodeNotaryKeys(own.value.keys);
      if notaryKeys.None? {
        return None;
      }
      if own.value.keys == map[] {
        return None;
      }
      LetOthersRun(visit.during);
      ghost var asked := AskWith(config, CurrentSite(), notary, target, notaryKeys.value, visit.answer, visit.storeNow);
      r := QueryWith(notary, target, notaryKeys.value, visit.answer, visit.storeNow);
      ConcatAssociates(old(contacts), ownOut.contacts, asked.contacts);
    }

    /** Asks a notary whose keys are known, and stores what it vouches for. */
    method QueryWith(notary: ServerName, target: ServerName, notaryKeys: map<KeyId, Bytes>, answer: NotaryAnswer,
                     storeNow: int) returns (r: Option<Held>)
      modifies this`world, this`contacts
      ensures var out := AskWith(config, old(CurrentSite()), notary, target, notaryKeys, answer, storeNow);
              CurrentSite() == out.site && contacts == old(contacts) + out.contacts && r == out.result
    {
      contacts := contacts + [NotaryQuery(notary, target)];
      if answer.NotaryFails? {
        return None;
      }
      var entry := FindEntry(answer.entries, target);
      if entry.None? {
        return None;
      }
      var reply := entry.value;
      var verified := VerifyNotaryResult(config.scheme, notary, reply.info, reply.raw, notaryKeys);
      if verified.None? {
        return None;
      }
      r := StoreRemoteKeys(verified.value.0, verified.value.1, notary, storeNow, reply.order);
    }
  }

  function AfterCurrent(cleared: Tables, info: ServerKeys, order: InsertOrder): InsertsOutcome
    requires Orders(order, info)
  {
    RunInserts(cleared, KeyInserts(order.current, CurrentRows(info.verifyKeys)))
  }

  function AfterExpired(cleared: Tables, info: ServerKeys, order: InsertOrder): InsertsOutcome
    requires Orders(order, info)
  {
    RunInserts(AfterCurrent(cleared, info, order).tables, KeyInserts(order.expired, ExpiredRows(info.OldKeys())))
  }

  function AfterSignatures(cleared: Tables, info: ServerKeys, order: InsertOrder): InsertsOutcome
    requires Orders(order, info)
  {
    RunInserts(AfterExpired(cleared, info, order).tables, SignatureInserts(order.signatures, info))
  }

  /** The inserts of a store, part by part. */
  lemma InsertsByParts(cleared: Tables, info: ServerKeys, order: InsertOrder)
    requires Orders(order, info)
    ensures var current, expired, all := AfterCurrent(cleared, info, order), AfterExpired(cleared, info, order),
              AfterSignatures(cleared, info, order);
            RunInserts(cleared, Inserts(info, order)) == if !current.ok then current else if !expired.ok then expired
                else all
  {
    var a := KeyInserts(order.current, CurrentRows(info.verifyKeys));
    var b := KeyInserts(order.expired, ExpiredRows(info.OldKeys()));
    RunInsertsConcat(cleared, a + b, SignatureInserts(order.signatures, info));
    RunInsertsConcat(cleared, a, b);
  }

  lemma ConcatAssociates<T>(a: seq<T>, b: seq<T>, c: seq<T>)
    ensures a + b + c == a + (b + c)
  {
  }

  /** What is left of a walk, from notary `i` on, leads to the outcome of the whole walk. */
  ghost predicate WalkStands(c: Config, goal: Outcome<Option<Held>>, s: Site, done: seq<Contact>, target: ServerName,
                             minValidUntilTs: Timestamp, visits: seq<Visit>, i: nat, best: Option<Held>)
    requires i <= |c.notaries| == |visits|
  {
    var rest := Walk(c, s, target, minValidUntilTs, c.notaries[i..], visits[i..], best);
    goal.site == rest.site && goal.contacts == done + rest.contacts && goal.result == rest.result
  }

  /** One more notary of a walk. */
  lemma WalkAdvances(c: Config, goal: Outcome<Option<Held>>, s: Site, done: seq<Contact>, target: ServerName,
                     minValidUntilTs: Timestamp, visits: seq<Visit>, i: nat, best: Option<Held>)
    requires i < |c.notaries| == |visits|
    requires WalkStands(c, goal, s, done, target, minValidUntilTs, visits, i, best)
    ensures var asked := Ask(c, s, c.notaries[i], target, visits[i]);
            if Skipped(c, c.notaries[i], target) then WalkStands(c, goal, s, done, target, minValidUntilTs, visits,
                i + 1, best)
            else if HeldSatisfies(asked.result, minValidUntilTs) then
              goal.site == asked.site && goal.contacts == done + asked.contacts && goal.result == asked.result
            else
              WalkStands(c, goal, asked.site, done + asked.contacts, target, minValidUntilTs, visits, i + 1,
                  Better(best, asked.result))
  {
    WalkUnfolds(c, s, target, minValidUntilTs, visits, i, best);
    var asked := Ask(c, s, c.notaries[i], target, visits[i]);
    var rest := Walk(c, asked.site, target, minValidUntilTs, c.notaries[i + 1..], visits[i + 1..],
        Better(best, asked.result));
    ConcatAssociates(done, asked.contacts, rest.contacts);
  }

  lemma WalkUnfolds(c: Config, s: Site, target: ServerName, minValidUntilTs: Timestamp, visits: seq<Visit>, i: nat,
                    best: Option<Held>)
    requires i < |c.notaries| == |visits|
    ensures var walk := Walk(c, s, target, minValidUntilTs, c.notaries[i..], visits[i..], best);
            if Skipped(c, c.notaries[i], target) then walk ==
                Walk(c, s, target, minValidUntilTs, c.notaries[i + 1..], visits[i + 1..], best)
            else
              var asked := Ask(c, s, c.notaries[i], target, visits[i]);
              if HeldSatisfies(asked.result, minValidUntilTs) then walk == asked
              else
                var rest := Walk(c, asked.site, target, minValidUntilTs, c.notaries[i + 1..], visits[i + 1..],
                    Better(best, asked.result));
                walk.site == rest.site && walk.contacts == asked.contacts + rest.contacts && walk.result == rest.result
  {
    assert c.notaries[i..][1..] == c.notaries[i + 1..];
    assert visits[i..][1..] == visits[i + 1..];
  }
}
