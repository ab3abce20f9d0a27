/** What the sweep promises: nothing due is starved, and its probes stay within the budget. */
module SweeperTheorems {
  import opened Base
  import opened KeyRecords
  import opened Schedule
  import opened Tables
  import opened Events
  import opened Budget
  import opened Worlds
  import opened Resolution
  import opened Runs
  import opened Provenance
  import opened OriginSweeper
  import opened Decisions

  // ---------------------------------------------------------------- what takes a server off the due list

  /**
    A failure note that does not schedule the next probe into the past. No probe does that which takes less
    than a minute, the shortest wait.
   */
  predicate LooksAhead(e: Event, due: int) {
    e.ProbeFailed? ==> e.now + OriginBackoff(e.seen + 1, e.transient) > due
  }

  predicate AllLookAhead(steps: seq<Step>, due: int) {
    forall s | s in steps :: LooksAhead(s.event, due)
  }

  lemma OnTheList(w: World, server: ServerName, time: int)
    ensures server in DueBy(w, time) <==> 0 < DueAt(w, server) <= time
  {
  }

  lemma StepLetsNobodyIn(w: World, step: Step, due: int)
    requires LooksAhead(step.event, due)
    ensures DueBy(StepOn(w, step), due) <= DueBy(w, due)
  {
    ReachabilityOf(TablesOf(w, step.server), step.event);
  }

  lemma {:induction false} RunLetsNobodyIn(w: World, steps: seq<Step>, due: int)
    requires AllLookAhead(steps, due)
    ensures DueBy(RunSteps(w, steps), due) <= DueBy(w, due)
    decreases |steps|
  {
    if steps == [] {
    } else {
      assert steps[0] in steps;
      StepLetsNobodyIn(w, steps[0], due);
      RunLetsNobodyIn(StepOn(w, steps[0]), steps[1..], due);
    }
  }

  /** An answer that passes every check and is stored, under the name of another server. */
  predicate AnswersForAnother(c: Config, server: ServerName, answer: OriginAnswer) {
    Accepted(c, answer) && Storable(answer.reply.info) && answer.reply.info.serverName != server
  }

  /** What a fetch does to the schedules: an accepted reply clears that of the server it names. */
  lemma FetchSchedules(c: Config, s: Site, server: ServerName, fetch: Exchange, other: ServerName)
    ensures var out, w := FetchDirect(c, s, server, fetch), Meanwhile(s, c.cooldown, fetch.during).world;
            && (out.result.FetchedKeys? <==> Accepted(c, fetch.answer) && Storable(fetch.answer.reply.info))
            && DueAt(out.site.world, other) ==
               if Accepted(c, fetch.answer) && fetch.answer.reply.info.serverName == other then 0 else DueAt(w, other)
  {
    if Accepted(c, fetch.answer) {
      var info, extra := fetch.answer.reply.info, AdditionalFields(fetch.answer.reply.raw);
      DirectStoreSchedules(Meanwhile(s, c.cooldown, fetch.during), info, extra, fetch.storeNow,
          fetch.answer.reply.order, other);
    }
  }

  lemma DirectStoreSchedules(s: Site, info: ServerKeys, extra: Fields, now: int, order: InsertOrder, other: ServerName)
    requires Orders(order, info) && Validates(info)
    ensures var out := StoreReply(s, info, extra, "", now, order);
            && (out.result.Some? <==> Storable(info))
            && DueAt(out.site.world, other) == if info.serverName == other then 0 else DueAt(s.world, other)
  {
    StoreMeaning(TablesOf(s.world, info.serverName), info, extra, "", now, order);
  }

  /** A note of a failure takes its server off the list. */
  lemma NoteTakesOffTheList(w: World, server: ServerName, note: Event, due: int)
    requires note.ProbeFailed? && LooksAhead(note, due)
    ensures DueBy(w[server := Apply(TablesOf(w, server), note)], due) <= DueBy(w, due) - {server}
  {
    ReachabilityOf(TablesOf(w, server), note);
  }

  /**
    A probe takes its server off the due list, whether it succeeds or fails and whatever others do meanwhile,
    in every case but one: the reply is good but names another server, whose standoff is then the one that
    is cleared.
   */
  lemma ProbeTakesOffTheListIff(c: Config, s: Site, server: ServerName, seen: int, now: int, exchange: Exchange,
                                due: int)
    requires 0 < due <= now
    requires AllLookAhead(exchange.during.steps, due) && AllLookAhead(exchange.beforeNote.steps, due)
    ensures var after := Probe(c, s, server, seen, now, exchange).site.world;
            var w := Meanwhile(s, c.cooldown, exchange.during).world;
            && DueBy(after, due) <= DueBy(w, due) <= DueBy(s.world, due)
            && (server in DueBy(after, due) <==>
                server in DueBy(w, due) && AnswersForAnother(c, server, exchange.answer))
  {
    var fetch, w := FetchDirect(c, s, server, exchange), Meanwhile(s, c.cooldown, exchange.during).world;
    RunLetsNobodyIn(s.world, exchange.during.steps, due);
    forall x: ServerName
      ensures x in DueBy(fetch.site.world, due) <==>
              x in DueBy(w, due) && !(Accepted(c, exchange.answer) && exchange.answer.reply.info.serverName == x)
    {
      FetchSchedules(c, s, server, exchange, x);
      OnTheList(fetch.site.world, x, due);
      OnTheList(w, x, due);
    }
    FetchSchedules(c, s, server, exchange, server);
    if fetch.result.FetchFailed? {
      var s' := Meanwhile(fetch.site, c.cooldown, exchange.beforeNote);
      RunLetsNobodyIn(fetch.site.world, exchange.beforeNote.steps, due);
      NoteTakesOffTheList(s'.world, server, ProbeFailed(now, seen, IsTransient(fetch.result.error)), due);
    }
  }

  // ---------------------------------------------------------------- one sweep

  /** The hypotheses on a turn: clocks past the due time. */
  predicate TimelyTurn(turn: Turn, due: int) {
    && AllLookAhead(turn.meanwhile.steps, due) && AllLookAhead(turn.fetch.during.steps, due)
    && AllLookAhead(turn.fetch.beforeNote.steps, due) && turn.now >= due
  }

  /** Outside a set of servers that may answer as they like, no answer is another server's. */
  predicate FairTurn(c: Config, server: ServerName, turn: Turn, due: int, stuck: set<ServerName>) {
    TimelyTurn(turn, due) && (server in stuck || !AnswersForAnother(c, server, turn.fetch.answer))
  }

  predicate FairTurns(c: Config, listed: seq<ServerName>, turns: seq<Turn>, due: int, stuck: set<ServerName>) {
    |listed| <= |turns| && forall i | 0 <= i < |listed| :: FairTurn(c, listed[i], turns[i], due, stuck)
  }

  lemma TurnTakesOffTheList(c: Config, s: Site, server: ServerName, turn: Turn, due: int, stuck: set<ServerName>)
    requires 0 < due && FairTurn(c, server, turn, due, stuck)
    ensures DueBy(TakeTurn(c, s, server, turn).site.world, due) <= DueBy(s.world, due) - ({server} - stuck)
  {
    RunLetsNobodyIn(s.world, turn.meanwhile.steps, due);
    var s' := Meanwhile(s, c.cooldown, turn.meanwhile);
    ProbeTakesOffTheListIff(c, s', server, Failures(TablesOf(s'.world, server)), turn.now, turn.fetch, due);
  }

  lemma {:induction false} SweepTakesOffTheList(c: Config, s: Site, listed: seq<ServerName>, turns: seq<Turn>, due: int,
                                                stuck: set<ServerName>)
    requires 0 < due && FairTurns(c, listed, turns, due, stuck)
    ensures DueBy(Sweep(c, s, listed, turns).site.world, due) <= DueBy(s.world, due) - (Elements(listed) - stuck)
    decreases |listed|
  {
    if listed == [] {
    } else {
      assert FairTurn(c, listed[0], turns[0], due, stuck);
      TurnTakesOffTheList(c, s, listed[0], turns[0], due, stuck);
      var first := TakeTurn(c, s, listed[0], turns[0]);
      forall i | 0 <= i < |listed[1..]| ensures FairTurn(c, listed[1..][i], turns[1..][i], due, stuck) {
        assert FairTurn(c, listed[i + 1], turns[i + 1], due, stuck);
      }
      SweepTakesOffTheList(c, first.site, listed[1..], turns[1..], due, stuck);
      FirstElement(listed);
    }
  }

  lemma {:induction false} DistinctElements<T>(s: seq<T>)
    requires NoDuplicates(s)
    ensures |Elements(s)| == |s|
  {
    if s == [] {
    } else {
      FirstElement(s);
      DistinctElements(s[1..]);
    }
  }

  /**
    After one sweep a due server has had its turn, unless it is itself among those that may answer as they like,
    or everybody else in a whole batch that is at least as overdue has had theirs.
   */
  lemma SweepTakesABatch(c: Config, s: Site, at: int, listed: seq<ServerName>, turns: seq<Turn>, due: int,
                         stuck: set<ServerName>, server: ServerName)
    requires 0 < due <= at && OldestDue(s.world, at, listed) && FairTurns(c, listed, turns, due, stuck)
    ensures var before, after := DueBy(s.world, due), DueBy(Sweep(c, s, listed, turns).site.world, due);
            && after <= before
            && (server in after - stuck ==> |after - stuck| + SWEEP_BATCH <= |before - stuck| + |stuck|)
  {
    SweepTakesOffTheList(c, s, listed, turns, due, stuck);
    var before, after := DueBy(s.world, due), DueBy(Sweep(c, s, listed, turns).site.world, due);
    if server in after - stuck {
      assert server in DueBy(s.world, at) && server !in listed;
      forall x | x in Elements(listed) ensures x in before {
        var i :| 0 <= i < |listed| && listed[i] == x;
        assert DueAt(s.world, listed[i]) <= DueAt(s.world, server);
        assert x in DueBy(s.world, at);
      }
      DistinctElements(listed);
      BatchLeaves(before, after, Elements(listed), stuck);
    }
  }

  lemma BatchLeaves<T>(before: set<T>, after: set<T>, batch: set<T>, stuck: set<T>)
    requires after <= before - (batch - stuck) && batch <= before
    ensures |after - stuck| + |batch| <= |before - stuck| + |stuck|
  {
    var gone := batch - stuck;
    Subset(after - stuck, before - stuck - gone);
    Subset(gone, before - stuck);
    assert batch == gone + (batch * stuck);
    Subset(batch * stuck, stuck);
  }

  lemma {:induction false} Subset<T>(a: set<T>, b: set<T>)
    requires a <= b
    ensures |a| <= |b| && |b - a| == |b| - |a|
  {
    assert b == a + (b - a);
  }

  predicate DistinctServers(contacts: seq<Contact>) {
    && (forall k | k in contacts :: k.OriginFetch?)
    && (forall i, j | 0 <= i < j < |contacts| :: contacts[i].OriginFetch? && contacts[j].OriginFetch? ==>
        contacts[i].server != contacts[j].server)
  }

  /** A sweep contacts exactly as many origins as it counts attempts, all of them listed, and none of them twice. */
  lemma {:induction false} AttemptsAreFetches(c: Config, s: Site, listed: seq<ServerName>, turns: seq<Turn>)
    requires |listed| <= |turns| && NoDuplicates(listed)
    ensures var out := Sweep(c, s, listed, turns);
            && |out.contacts| == out.result.attempted <= |listed| && out.result.recovered <= out.result.attempted
            && DistinctServers(out.contacts) && (forall k | k in out.contacts :: k.server in listed)
    decreases |listed|
  {
    if listed == [] {
    } else {
      var first := TakeTurn(c, s, listed[0], turns[0]);
      FirstElement(listed);
      AttemptsAreFetches(c, first.site, listed[1..], turns[1..]);
      OneMoreContact(first.contacts, Sweep(c, first.site, listed[1..], turns[1..]).contacts, listed);
    }
  }

  lemma OneMoreContact(first: seq<Contact>, rest: seq<Contact>, listed: seq<ServerName>)
    requires listed != [] && listed[0] !in Elements(listed[1..])
    requires first == [] || (|first| == 1 && first[0].OriginFetch? && first[0].server == listed[0])
    requires DistinctServers(rest) && forall k | k in rest :: k.server in listed[1..]
    ensures DistinctServers(first + rest) && forall k | k in first + rest :: k.server in listed
  {
    var all := first + rest;
    forall k | k in all ensures k.OriginFetch? && k.server in listed {
      assert k in first || k in rest;
    }
    forall i, j | 0 <= i < j < |all| ensures all[i].server != all[j].server {
      if first != [] {
        assert all[j] == rest[j - 1] && rest[j - 1] in rest;
        if i > 0 {
          assert all[i] == rest[i - 1];
        }
      }
    }
  }

  /**
    What one candidate's turn comes to: its record is read again, and if it is still due by the clock of the turn,
    its origin is asked, once; an attempt counts as a recovery exactly when the origin gave keys.
   */
  lemma TurnMeans(c: Config, s: Site, server: ServerName, turn: Turn)
    ensures var out, s' := TakeTurn(c, s, server, turn), Meanwhile(s, c.cooldown, turn.meanwhile);
            var t := TablesOf(s'.world, server);
            if t.row.None? || turn.now >= t.row.value.nextAttemptTs then
              && out.contacts == [OriginFetch(server, turn.fetch.answer)] && out.result.attempted == 1
              && out.result.recovered == if GivesKeys(c, turn.fetch.answer) then 1 else 0
            else
              out == Outcome(s', turn.meanwhile.steps, [], Count(0, 0))
  {
    var s' := Meanwhile(s, c.cooldown, turn.meanwhile);
    FailedProbeIsNoted(c, s', server, Failures(TablesOf(s'.world, server)), turn.now, turn.fetch);
  }

  /** How many of the origins that were asked gave keys. */
  function Recoveries(c: Config, contacts: seq<Contact>): nat {
    if contacts == [] then 0
    else (if contacts[0].OriginFetch? && GivesKeys(c, contacts[0].answer) then 1 else 0) + Recoveries(c, contacts[1..])
  }

  /** A sweep counts as recovered exactly the origins that were asked and gave keys. */
  lemma {:induction false} RecoveriesGaveKeys(c: Config, s: Site, listed: seq<ServerName>, turns: seq<Turn>)
    requires |listed| <= |turns|
    ensures var out := Sweep(c, s, listed, turns); out.result.recovered == Recoveries(c, out.contacts)
    decreases |listed|
  {
    if listed == [] {
    } else {
      var first := TakeTurn(c, s, listed[0], turns[0]);
      TurnMeans(c, s, listed[0], turns[0]);
      RecoveriesGaveKeys(c, first.site, listed[1..], turns[1..]);
      var rest := Sweep(c, first.site, listed[1..], turns[1..]);
      if first.contacts == [] {
        assert first.contacts + rest.contacts == rest.contacts;
      } else {
        assert (first.contacts + rest.contacts)[1..] == rest.contacts;
      }
    }
  }

  // ---------------------------------------------------------------- no starvation

  /** One tick of the sweeper: what others did since the last, the clock, the listing and its turns. */
  datatype TickData = TickData(before: Others, at: Timestamp, listed: seq<ServerName>, turns: seq<Turn>)

  type Tick = t: TickData | |t.listed| <= |t.turns|
    witness TickData(NOBODY, 0, [], [])

  /** The site at which a tick lists its candidates. */
  function Listed(c: Config, s: Site, tick: Tick): Site {
    Meanwhile(s, c.cooldown, tick.before)
  }

  function RunTick(c: Config, s: Site, tick: Tick): Outcome<Count> {
    var swept := Sweep(c, Listed(c, s, tick), tick.listed, tick.turns);
    swept.(steps := tick.before.steps + swept.steps)
  }

  function RunTicks(c: Config, s: Site, ticks: seq<Tick>): Outcome<()>
    decreases |ticks|
  {
    if ticks == [] then Outcome(s, [], [], ())
    else
      var first := RunTick(c, s, ticks[0]);
      var rest := RunTicks(c, first.site, ticks[1..]);
      Outcome(rest.site, first.steps + rest.steps, first.contacts + rest.contacts, ())
  }

  predicate FairTick(c: Config, s: Site, tick: Tick, due: int, stuck: set<ServerName>) {
    && AllLookAhead(tick.before.steps, due) && tick.at >= due
    && OldestDue(Listed(c, s, tick).world, tick.at, tick.listed)
    && FairTurns(c, tick.listed, tick.turns, due, stuck)
  }

  predicate FairTicks(c: Config, s: Site, ticks: seq<Tick>, due: int, stuck: set<ServerName>)
    decreases |ticks|
  {
    ticks != [] ==>
      FairTick(c, s, ticks[0], due, stuck) && FairTicks(c, RunTick(c, s, ticks[0]).site, ticks[1..], due, stuck)
  }

  /** What the sweeper still has before it: it shrinks by so many, unless the server is no longer in it. */
  predicate Drains<T>(before: set<T>, after: set<T>, stuck: set<T>, member: T, many: int) {
    after <= before && (member in after - stuck ==> |after - stuck| + many <= |before - stuck|)
  }

  lemma DrainsTwice<T>(before: set<T>, mid: set<T>, after: set<T>, stuck: set<T>, member: T, many: int, more: int)
    requires Drains(before, mid, stuck, member, many) && Drains(mid, after, stuck, member, more)
    ensures Drains(before, after, stuck, member, many + more)
  {
  }

  lemma TickDrainsTheList(c: Config, s: Site, tick: Tick, due: int, stuck: set<ServerName>, server: ServerName)
    requires 0 < due && FairTick(c, s, tick, due, stuck)
    ensures Drains(DueBy(s.world, due), DueBy(RunTick(c, s, tick).site.world, due), stuck, server,
                   SWEEP_BATCH - |stuck|)
  {
    var listed := Listed(c, s, tick);
    RunLetsNobodyIn(s.world, tick.before.steps, due);
    Subset(DueBy(listed.world, due) - stuck, DueBy(s.world, due) - stuck);
    SweepTakesABatch(c, listed, tick.at, tick.listed, tick.turns, due, stuck, server);
  }

  /** What is due before the first tick, and after each. */
  function Lefts(c: Config, s: Site, ticks: seq<Tick>, due: int): (lefts: seq<set<ServerName>>)
    ensures |lefts| == |ticks| + 1 && lefts[0] == DueBy(s.world, due)
    decreases |ticks|
  {
    [DueBy(s.world, due)] + if ticks == [] then [] else Lefts(c, RunTick(c, s, ticks[0]).site, ticks[1..], due)
  }

  lemma {:induction false} LastLeft(c: Config, s: Site, ticks: seq<Tick>, due: int)
    ensures Lefts(c, s, ticks, due)[|ticks|] == DueBy(RunTicks(c, s, ticks).site.world, due)
    decreases |ticks|
  {
    if ticks == [] {
    } else {
      LastLeft(c, RunTick(c, s, ticks[0]).site, ticks[1..], due);
    }
  }

  predicate EachDrains<T>(lefts: seq<set<T>>, stuck: set<T>, member: T, many: int) {
    forall i | 0 < i < |lefts| :: Drains(lefts[i - 1], lefts[i], stuck, member, many)
  }

  lemma {:induction false} FairTicksDrain(c: Config, s: Site, ticks: seq<Tick>, due: int, stuck: set<ServerName>,
                                          server: ServerName)
    requires 0 < due && FairTicks(c, s, ticks, due, stuck)
    ensures EachDrains(Lefts(c, s, ticks, due), stuck, server, SWEEP_BATCH - |stuck|)
    decreases |ticks|
  {
    if ticks == [] {
    } else {
      var mid := RunTick(c, s, ticks[0]).site;
      TickDrainsTheList(c, s, ticks[0], due, stuck, server);
      FairTicksDrain(c, mid, ticks[1..], due, stuck, server);
      DrainsFromFront(DueBy(s.world, due), Lefts(c, mid, ticks[1..], due), stuck, server, SWEEP_BATCH - |stuck|);
    }
  }

  lemma DrainsFromFront<T>(first: set<T>, rest: seq<set<T>>, stuck: set<T>, member: T, many: int)
    requires rest != [] && Drains(first, rest[0], stuck, member, many) && EachDrains(rest, stuck, member, many)
    ensures EachDrains([first] + rest, stuck, member, many)
  {
    var all := [first] + rest;
    forall i | 0 < i < |all| ensures Drains(all[i - 1], all[i], stuck, member, many) {
      if i > 1 {
        assert all[i - 1] == rest[i - 2] && all[i] == rest[i - 1];
      }
    }
  }

  lemma {:induction false} AllDrain<T>(lefts: seq<set<T>>, stuck: set<T>, member: T, many: int, n: nat)
    requires n < |lefts| && EachDrains(lefts, stuck, member, many)
    ensures Drains(lefts[0], lefts[n], stuck, member, Times(many, n))
  {
    if n == 0 {
    } else {
      AllDrain(lefts, stuck, member, many, n - 1);
      DrainsTwice(lefts[0], lefts[n - 1], lefts[n], stuck, member, Times(many, n - 1), many);
    }
  }

  /** So many a sweep, for a number of sweeps. */
  function Times(n: int, sweeps: nat): int {
    if sweeps == 0 then 0 else n + Times(n, sweeps - 1)
  }

  lemma {:induction false} TimesIsProduct(n: int, sweeps: nat)
    ensures Times(n, sweeps) == n * sweeps
  {
    if sweeps == 0 {
    } else {
      TimesIsProduct(n, sweeps - 1);
    }
  }

  lemma EnoughSweeps(k: nat, rest: nat)
    requires rest > 0
    ensures Times(rest, k / rest + 1) > k
  {
    TimesIsProduct(rest, k / rest + 1);
  }

  predicate IsProbe(e: Event) {
    e.ProbeFailed? || IsDirectStore(e)
  }

  lemma {:induction false} OnlyProbesMoveTheSchedule(t: Tables, events: seq<Event>, n: nat)
    requires n <= |events| && forall e | e in events :: !IsProbe(e)
    ensures NextAttempt(After(t, events, n)) == NextAttempt(t)
  {
    if n == 0 {
    } else {
      assert events[n - 1] in events;
      OnlyProbesMoveTheSchedule(t, events, n - 1);
      ReachabilityOf(After(t, events, n - 1), events[n - 1]);
    }
  }

  /** A server that is off the due list was probed. */
  lemma OffTheListMeansProbed(w: World, steps: seq<Step>, server: ServerName, due: int)
    requires server in DueBy(w, due) && server !in DueBy(RunSteps(w, steps), due)
    ensures exists e :: e in EventsOf(steps, server) && IsProbe(e)
  {
    var events := EventsOf(steps, server);
    RunStepsOnOneServer(w, steps, server);
    if forall e | e in events :: !IsProbe(e) {
      OnlyProbesMoveTheSchedule(TablesOf(w, server), events, |events|);
      OnTheList(w, server, due);
      OnTheList(RunSteps(w, steps), server, due);
    }
  }

  lemma DrainedIsGone<T>(before: set<T>, after: set<T>, stuck: set<T>, member: T, many: int)
    requires Drains(before, after, stuck, member, many) && |before - stuck| <= many && member !in stuck
    ensures member !in after
  {
    assert member in after ==> member in after - stuck;
  }

  /**
    No starvation, as long as fewer origins than a batch answer under other names. A due origin with k others
    due no later, besides any number m < 25 of origins that may answer as they like, is probed within
    k / (25 - m) + 1 sweeps, whatever requests, stores and invalidations run before, between and inside
    those sweeps.
   */
  lemma NoStarvation(c: Config, s: Site, server: ServerName, stuck: set<ServerName>, k: nat, ticks: seq<Tick>)
    requires |stuck| < SWEEP_BATCH && server !in stuck
    requires var due := DueAt(s.world, server);
             && due > 0 && |DueBy(s.world, due) - stuck| == k + 1
             && |ticks| == k / (SWEEP_BATCH - |stuck|) + 1 && FairTicks(c, s, ticks, due, stuck)
    ensures exists e :: e in EventsOf(RunTicks(c, s, ticks).steps, server) && IsProbe(e)
  {
    var due := DueAt(s.world, server);
    FairTicksDrain(c, s, ticks, due, stuck, server);
    AllDrain(Lefts(c, s, ticks, due), stuck, server, SWEEP_BATCH - |stuck|, |ticks|);
    LastLeft(c, s, ticks, due);
    EnoughSweeps(k, SWEEP_BATCH - |stuck|);
    TicksRun(c, s, ticks);
    OnTheList(s.world, server, due);
    DrainedIsGone(DueBy(s.world, due), DueBy(RunTicks(c, s, ticks).site.world, due), stuck, server,
        Times(SWEEP_BATCH - |stuck|, |ticks|));
    OffTheListMeansProbed(s.world, RunTicks(c, s, ticks).steps, server, due);
  }

  /** A tick that nothing disturbs and in which no origin answers. */
  function QuietTick(at: Timestamp, listed: seq<ServerName>): Tick {
    TickData(NOBODY, at, listed, seq(|listed|, _ => Turn(NOBODY, at, Exchange(NOBODY, Fails(OtherError), at, NOBODY))))
  }

  /** The hypotheses of the theorem can be met from every site. */
  lemma QuietTickIsFair(c: Config, s: Site, at: Timestamp, listed: seq<ServerName>, due: int, stuck: set<ServerName>)
    requires due <= at && OldestDue(s.world, at, listed)
    ensures FairTick(c, s, QuietTick(at, listed), due, stuck)
  {
    assert NOBODY.steps == [] && RunSteps(s.world, []) == s.world;
  }

  // ---------------------------------------------------------------- every sweep is a run

  lemma TurnRuns(c: Config, s: Site, server: ServerName, turn: Turn)
    ensures var out := TakeTurn(c, s, server, turn);
            IsRun(s, out.steps, out.site) && (turn.now > 0 ==> KeepsTheRules(s, out.steps))
  {
    var s' := Meanwhile(s, c.cooldown, turn.meanwhile);
    OthersKeepTheRules(s, c.cooldown, turn.meanwhile);
    ProbeRuns(c, s', server, turn.now, turn.fetch);
    var probe := Probe(c, s', server, Failures(TablesOf(s'.world, server)), turn.now, turn.fetch);
    RunsConcat(s, turn.meanwhile.steps, s', probe.steps, probe.site);
  }

  predicate PositiveTurns(turns: seq<Turn>) {
    forall turn | turn in turns :: turn.now > 0
  }

  lemma {:induction false} SweepRuns(c: Config, s: Site, listed: seq<ServerName>, turns: seq<Turn>)
    requires |listed| <= |turns|
    ensures var out := Sweep(c, s, listed, turns);
            IsRun(s, out.steps, out.site) && (PositiveTurns(turns) ==> KeepsTheRules(s, out.steps))
    decreases |listed|
  {
    if listed == [] {
    } else {
      TurnRuns(c, s, listed[0], turns[0]);
      var first := TakeTurn(c, s, listed[0], turns[0]);
      SweepRuns(c, first.site, listed[1..], turns[1..]);
      var rest := Sweep(c, first.site, listed[1..], turns[1..]);
      RunsConcat(s, first.steps, first.site, rest.steps, rest.site);
    }
  }

  predicate PositiveTicks(ticks: seq<Tick>) {
    forall tick | tick in ticks :: PositiveTurns(tick.turns)
  }

  lemma TickRuns(c: Config, s: Site, tick: Tick)
    ensures var out := RunTick(c, s, tick);
            IsRun(s, out.steps, out.site) && (PositiveTurns(tick.turns) ==> KeepsTheRules(s, out.steps))
  {
    var listed := Listed(c, s, tick);
    OthersKeepTheRules(s, c.cooldown, tick.before);
    SweepRuns(c, listed, tick.listed, tick.turns);
    var swept := Sweep(c, listed, tick.listed, tick.turns);
    RunsConcat(s, tick.before.steps, listed, swept.steps, swept.site);
  }

  /** Any number of sweeps is a run, in which the sweeper's probes begin when they are due. */
  lemma {:induction false} TicksRun(c: Config, s: Site, ticks: seq<Tick>)
    ensures var out := RunTicks(c, s, ticks);
            IsRun(s, out.steps, out.site) && (PositiveTicks(ticks) ==> KeepsTheRules(s, out.steps))
    decreases |ticks|
  {
    if ticks == [] {
    } else {
      TickRuns(c, s, ticks[0]);
      var first := RunTick(c, s, ticks[0]);
      TicksRun(c, first.site, ticks[1..]);
      var rest := RunTicks(c, first.site, ticks[1..]);
      RunsConcat(s, first.steps, first.site, rest.steps, rest.site);
    }
  }

  /**
    The probe budget of the whole system: over any number of sweeps with any requests before, between and
    inside them, the failed probes of one origin within a window number at most five plus one per full day
    of it for each time that its record was renewed and once more, as long as others keep to the rules that
    every resolution keeps to, and each failure of that origin is noted before the next probe of it begins.
   */
  lemma ProbeBudgetOfTheSystem(c: Config, s: Site, ticks: seq<Tick>, server: ServerName, since: int, window: nat)
    requires NotedInTurn(Ended, EventsOf(RunTicks(c, s, ticks).steps, server))
    requires StepsDue(s.world, RunTicks(c, s, ticks).steps, true) && PositiveTicks(ticks)
    requires Failures(TablesOf(s.world, server)) >= 0
    ensures var events := EventsOf(RunTicks(c, s, ticks).steps, server);
            ProbesIn(events, since, since + window) <= (1 + Renewals(Ended, events)) * (5 + window / DAY)
  {
    TicksRun(c, s, ticks);
    BudgetOfSteps(s.world, RunTicks(c, s, ticks).steps, server, since, window);
  }

  lemma BudgetOfSteps(w: World, steps: seq<Step>, server: ServerName, since: int, window: nat)
    requires StepsDue(w, steps, false) && NotedInTurn(Ended, EventsOf(steps, server))
    requires Failures(TablesOf(w, server)) >= 0
    ensures var events := EventsOf(steps, server);
            ProbesIn(events, since, since + window) <= (1 + Renewals(Ended, events)) * (5 + window / DAY)
  {
    StepsDueOnOneServer(w, steps, server);
    ProbeBudget(TablesOf(w, server), EventsOf(steps, server), since, window);
  }

  /** A sweep, too, writes the records of exactly those servers that accepted answers name. */
  lemma {:induction false} SweepStoresWhatIsNamed(c: Config, s: Site, listed: seq<ServerName>, turns: seq<Turn>)
    requires |listed| <= |turns|
    ensures var out := Sweep(c, s, listed, turns);
            StoresWhatIsNamed(c, out.steps, out.contacts)
    decreases |listed|
  {
    NothingStoredNothingNamed(c, [], []);
    if listed == [] {
    } else {
      var turn, s' := turns[0], Meanwhile(s, c.cooldown, turns[0].meanwhile);
      var first, seen := TakeTurn(c, s, listed[0], turn), Failures(TablesOf(s'.world, listed[0]));
      var probe := Probe(c, s', listed[0], seen, turn.now, turn.fetch);
      NothingStoredNothingNamed(c, turn.meanwhile.steps, []);
      ProbeStoresWhatIsNamed(c, s', listed[0], seen, turn.now, turn.fetch);
      NamedConcat(c, turn.meanwhile.steps, [], probe.steps, probe.contacts);
      assert [] + probe.contacts == probe.contacts;
      SweepStoresWhatIsNamed(c, first.site, listed[1..], turns[1..]);
      var rest := Sweep(c, first.site, listed[1..], turns[1..]);
      NamedConcat(c, first.steps, first.contacts, rest.steps, rest.contacts);
    }
  }
}
