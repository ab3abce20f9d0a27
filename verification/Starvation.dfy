/** Exactly how many origins that answer under other names it takes to starve another one. */
module Starvation {
  import opened Base
  import opened Tables
  import opened Events
  import opened Worlds
  import opened Resolution
  import opened ResolutionTheorems
  import opened OriginSweeper
  import opened SweeperTheorems

  predicate IsDue(w: World, server: ServerName, time: int) {
    0 < DueAt(w, server) <= time
  }

  /** A server is due by a time in both of two worlds, since the same moment, or in neither. */
  predicate SameSchedule(w: World, w': World, time: int, server: ServerName) {
    (IsDue(w, server, time) <==> IsDue(w', server, time))
        && (IsDue(w, server, time) ==> DueAt(w, server) == DueAt(w', server))
  }

  ghost predicate SameSchedules(w: World, w': World, time: int) {
    forall server :: SameSchedule(w, w', time, server)
  }

  lemma SameSchedulesChain(w: World, w': World, w'': World, time: int)
    requires SameSchedules(w, w', time) && SameSchedules(w', w'', time)
    ensures SameSchedules(w, w'', time)
  {
    forall server: ServerName ensures SameSchedule(w, w'', time, server) {
      assert SameSchedule(w, w', time, server) && SameSchedule(w', w'', time, server);
    }
  }

  // ---------------------------------------------------------------- misnamed answers

  /** A turn that nobody disturbs, and whose answer is stored under the name of a server that is not due by `time`. */
  predicate MisnamedTurn(c: Config, w: World, time: int, server: ServerName, turn: Turn) {
    && turn.meanwhile == NOBODY && turn.fetch.during == NOBODY
    && turn.now >= time && AnswersForAnother(c, server, turn.fetch.answer)
    && !IsDue(w, turn.fetch.answer.reply.info.serverName, time)
  }

  lemma NobodyChangesNothing(s: Site, cooldown: int)
    ensures Meanwhile(s, cooldown, NOBODY) == s
  {
    assert NOBODY.steps == [] && NOBODY.takes == [];
  }

  lemma QuietTurn(c: Config, s: Site, server: ServerName, turn: Turn)
    requires turn.meanwhile == NOBODY && ShouldProbe(TablesOf(s.world, server).row, turn.now)
    requires FetchDirect(c, s, server, turn.fetch).result.FetchedKeys?
    ensures var out, fetch := TakeTurn(c, s, server, turn), FetchDirect(c, s, server, turn.fetch);
            out.site == fetch.site && forall x | x in out.steps :: x.server == server || x in fetch.steps
  {
    NobodyChangesNothing(s, c.cooldown);
    assert TakeTurn(c, s, server, turn).steps ==
        [Step(server, ProbeBegins(turn.now, Failures(TablesOf(s.world, server))), true)] +
        FetchDirect(c, s, server, turn.fetch).steps;
  }

  lemma MisnamedFetch(c: Config, s: Site, time: int, server: ServerName, turn: Turn)
    requires IsDue(s.world, server, time) && MisnamedTurn(c, s.world, time, server, turn)
    ensures ShouldProbe(TablesOf(s.world, server).row, turn.now) && Accepted(c, turn.fetch.answer)
    ensures var fetch := FetchDirect(c, s, server, turn.fetch);
            && fetch.result.FetchedKeys?
            && forall x | x in fetch.steps :: x.server == turn.fetch.answer.reply.info.serverName
  {
    FetchSchedules(c, s, server, turn.fetch, server);
    FetchSteps(c, s, server, turn.fetch);
    assert FetchDirect(c, s, server, turn.fetch).steps == [StoreOf(c, turn.fetch)];
  }

  /** The steps of such a turn touch the server listed, in passing, and the server named. */
  lemma MisnamedTurnSteps(c: Config, s: Site, time: int, server: ServerName, turn: Turn)
    requires IsDue(s.world, server, time) && MisnamedTurn(c, s.world, time, server, turn)
    ensures TakeTurn(c, s, server, turn).site == FetchDirect(c, s, server, turn.fetch).site
    ensures forall x | x in TakeTurn(c, s, server, turn).steps ::
              x.server == server || x.server == turn.fetch.answer.reply.info.serverName
  {
    MisnamedFetch(c, s, time, server, turn);
    QuietTurn(c, s, server, turn);
  }

  lemma MisnamedTurnSchedules(c: Config, s: Site, time: int, server: ServerName, turn: Turn)
    requires IsDue(s.world, server, time) && MisnamedTurn(c, s.world, time, server, turn)
    ensures SameSchedules(s.world, TakeTurn(c, s, server, turn).site.world, time)
  {
    MisnamedTurnSteps(c, s, time, server, turn);
    NobodyChangesNothing(s, c.cooldown);
    forall other: ServerName
      ensures SameSchedule(s.world, FetchDirect(c, s, server, turn.fetch).site.world, time, other)
    {
      FetchSchedules(c, s, server, turn.fetch, other);
    }
  }

  // ---------------------------------------------------------------- the servers in front

  /** The servers due strictly earlier than a given moment. */
  function InFront(w: World, moment: int): set<ServerName> {
    set server | server in w && 0 < NextAttempt(w[server]) < moment
  }

  lemma IsInFront(w: World, server: ServerName, moment: int)
    ensures server in InFront(w, moment) <==> 0 < DueAt(w, server) < moment
  {
  }

  lemma SameFront(w: World, w': World, moment: int)
    requires SameSchedules(w, w', moment)
    ensures InFront(w, moment) == InFront(w', moment)
  {
    forall server: ServerName ensures server in InFront(w, moment) <==> server in InFront(w', moment) {
      assert SameSchedule(w, w', moment, server);
      IsInFront(w, server, moment);
      IsInFront(w', server, moment);
    }
  }

  /** With a whole batch in front of a moment, whatever is listed is in front of it. */
  lemma OnlyTheFrontIsListed(w: World, at: int, listed: seq<ServerName>, moment: int)
    requires OldestDue(w, at, listed) && moment <= at && |InFront(w, moment)| >= SWEEP_BATCH
    ensures Elements(listed) <= InFront(w, moment)
  {
    var front := InFront(w, moment);
    DistinctElements(listed);
    if front <= Elements(listed) {
      Subset(front, Elements(listed));
      assert Elements(listed) - front == {};
    } else {
      var f :| f in front && f !in Elements(listed);
      assert f in DueBy(w, at) && f !in listed;
      forall x | x in Elements(listed) ensures x in front {
        var i :| 0 <= i < |listed| && listed[i] == x;
        assert x in DueBy(w, at) && DueAt(w, listed[i]) <= DueAt(w, f);
      }
    }
  }

  // ---------------------------------------------------------------- sweeps

  predicate MisnamedTurns(c: Config, w: World, time: int, listed: seq<ServerName>, turns: seq<Turn>) {
    |listed| <= |turns| && forall i | 0 <= i < |listed| ::
        IsDue(w, listed[i], time) && MisnamedTurn(c, w, time, listed[i], turns[i])
  }

  lemma MisnamedTurnsStay(c: Config, w: World, w': World, time: int, listed: seq<ServerName>, turns: seq<Turn>)
    requires SameSchedules(w, w', time) && listed != [] && MisnamedTurns(c, w, time, listed, turns)
    ensures MisnamedTurns(c, w', time, listed[1..], turns[1..])
  {
    forall i | 1 <= i < |listed| ensures IsDue(w', listed[i], time) && MisnamedTurn(c, w', time, listed[i], turns[i]) {
      assert SameSchedule(w, w', time, listed[i]);
      assert SameSchedule(w, w', time, turns[i].fetch.answer.reply.info.serverName);
    }
  }

  /** Such a sweep leaves every schedule as it was, and does not touch a due server that it does not list. */
  lemma {:induction false} MisnamedSweep(c: Config, s: Site, time: int, listed: seq<ServerName>, turns: seq<Turn>,
                                        server: ServerName)
    requires MisnamedTurns(c, s.world, time, listed, turns) && server !in listed && IsDue(s.world, server, time)
    ensures SameSchedules(s.world, Sweep(c, s, listed, turns).site.world, time)
    ensures forall x | x in Sweep(c, s, listed, turns).steps :: x.server != server
    decreases |listed|
  {
    if listed == [] {
    } else {
      var first := TakeTurn(c, s, listed[0], turns[0]);
      MisnamedTurnSteps(c, s, time, listed[0], turns[0]);
      MisnamedTurnSchedules(c, s, time, listed[0], turns[0]);
      MisnamedTurnsStay(c, s.world, first.site.world, time, listed, turns);
      assert SameSchedule(s.world, first.site.world, time, server);
      MisnamedSweep(c, first.site, time, listed[1..], turns[1..], server);
      SameSchedulesChain(s.world, first.site.world, Sweep(c, first.site, listed[1..], turns[1..]).site.world, time);
    }
  }

  /** A tick that nobody disturbs, whatever it lists, and in which every origin asked answers for another server. */
  predicate MisnamedTick(c: Config, w: World, time: int, tick: Tick) {
    && tick.before == NOBODY && tick.at >= time && OldestDue(w, tick.at, tick.listed)
    && forall i | 0 <= i < |tick.listed| :: MisnamedTurn(c, w, time, tick.listed[i], tick.turns[i])
  }

  predicate MisnamedTicks(c: Config, s: Site, time: int, ticks: seq<Tick>)
    decreases |ticks|
  {
    ticks != [] ==>
      MisnamedTick(c, s.world, time, ticks[0]) && MisnamedTicks(c, RunTick(c, s, ticks[0]).site, time, ticks[1..])
  }

  lemma QuietSweep(c: Config, s: Site, tick: Tick)
    requires tick.before == NOBODY
    ensures var sweep := Sweep(c, s, tick.listed, tick.turns);
            RunTick(c, s, tick).site == sweep.site && RunTick(c, s, tick).steps == sweep.steps
  {
    NobodyChangesNothing(s, c.cooldown);
    assert [] + Sweep(c, s, tick.listed, tick.turns).steps == Sweep(c, s, tick.listed, tick.turns).steps;
  }

  lemma FrontTurns(c: Config, w: World, server: ServerName, tick: Tick)
    requires var time := DueAt(w, server);
             && 0 < time && |InFront(w, time)| >= SWEEP_BATCH && MisnamedTick(c, w, time, tick)
    ensures MisnamedTurns(c, w, DueAt(w, server), tick.listed, tick.turns) && server !in tick.listed
  {
    var time := DueAt(w, server);
    OnlyTheFrontIsListed(w, tick.at, tick.listed, time);
    IsInFront(w, server, time);
    forall i | 0 <= i < |tick.listed| ensures IsDue(w, tick.listed[i], time) && tick.listed[i] != server {
      assert tick.listed[i] in Elements(tick.listed);
      IsInFront(w, tick.listed[i], time);
    }
  }

  lemma OneMisnamedTick(c: Config, s: Site, server: ServerName, tick: Tick)
    requires var time := DueAt(s.world, server);
             && 0 < time && |InFront(s.world, time)| >= SWEEP_BATCH && MisnamedTick(c, s.world, time, tick)
    ensures var out, time := RunTick(c, s, tick), DueAt(s.world, server);
            && SameSchedules(s.world, out.site.world, time) && DueAt(out.site.world, server) == time
            && (forall x | x in out.steps :: x.server != server)
  {
    var time := DueAt(s.world, server);
    QuietSweep(c, s, tick);
    FrontTurns(c, s.world, server, tick);
    MisnamedSweep(c, s, time, tick.listed, tick.turns, server);
    assert SameSchedule(s.world, RunTick(c, s, tick).site.world, time, server);
  }

  /**
    Starvation. An origin that is due strictly later than 25 others, all of which
    answer under the names of servers that are not due, is never probed: not by any number of sweeps, not
    however long it has been due, and whichever way ties are broken. Its record is not touched at all.
   */
  lemma {:induction false} MisnamedRepliesStarve(c: Config, s: Site, server: ServerName, ticks: seq<Tick>)
    requires var time := DueAt(s.world, server);
             && 0 < time && |InFront(s.world, time)| >= SWEEP_BATCH && MisnamedTicks(c, s, time, ticks)
    ensures EventsOf(RunTicks(c, s, ticks).steps, server) == []
    ensures DueAt(RunTicks(c, s, ticks).site.world, server) == DueAt(s.world, server)
    decreases |ticks|
  {
    if ticks == [] {
    } else {
      var time, first := DueAt(s.world, server), RunTick(c, s, ticks[0]);
      OneMisnamedTick(c, s, server, ticks[0]);
      SameFront(s.world, first.site.world, time);
      MisnamedRepliesStarve(c, first.site, server, ticks[1..]);
      NoEventsElsewhere(first.steps, server);
      EventsOfConcat(first.steps, RunTicks(c, first.site, ticks[1..]).steps, server);
    }
  }

  // ---------------------------------------------------------------- the threshold

  /** The oldest of some due servers. */
  lemma {:induction false} OldestExists(w: World, due: set<ServerName>) returns (oldest: ServerName)
    requires due != {}
    ensures oldest in due && forall server | server in due :: DueAt(w, oldest) <= DueAt(w, server)
    decreases |due|
  {
    oldest :| oldest in due;
    var rest := due - {oldest};
    if rest != {} {
      var other := OldestExists(w, rest);
      if DueAt(w, other) < DueAt(w, oldest) {
        oldest := other;
      }
    }
  }

  lemma ListingExists(w: World, at: int) returns (listed: seq<ServerName>)
    ensures OldestDue(w, at, listed)
  {
    listed := [];
    var due := DueBy(w, at);
    while due != {} && |listed| < SWEEP_BATCH
      invariant |listed| <= SWEEP_BATCH && Listing(w, at, listed, due)
      decreases |due|
    {
      var next := OldestExists(w, due);
      ListingGrows(w, at, listed, due, next);
      listed := listed + [next];
      due := due - {next};
    }
    assert forall server | server in listed :: server in Elements(listed);
  }

  /** A tick that nobody disturbs, and in which every origin asked gives the same answer. */
  function SameAnswers(at: Timestamp, listed: seq<ServerName>, answer: OriginAnswer): Tick {
    TickData(NOBODY, at, listed, seq(|listed|, _ => Turn(NOBODY, at, Exchange(NOBODY, answer, at, NOBODY))))
  }

  /** An answer that every check lets through, in the name of a server that is not due by a time. */
  predicate NamesNobodyDue(c: Config, w: World, time: int, answer: OriginAnswer) {
    Accepted(c, answer) && Storable(answer.reply.info) && !IsDue(w, answer.reply.info.serverName, time)
  }

  lemma SameAnswersAreMisnamed(c: Config, s: Site, server: ServerName, at: Timestamp, listed: seq<ServerName>,
                               answer: OriginAnswer)
    requires var time := DueAt(s.world, server);
             && 0 < time <= at && |InFront(s.world, time)| >= SWEEP_BATCH && OldestDue(s.world, at, listed)
             && NamesNobodyDue(c, s.world, time, answer)
    ensures var time, tick := DueAt(s.world, server), SameAnswers(at, listed, answer);
            && MisnamedTick(c, s.world, time, tick) && FairTick(c, s, tick, time, InFront(s.world, time))
  {
    var time := DueAt(s.world, server);
    OnlyTheFrontIsListed(s.world, at, listed, time);
    NobodyChangesNothing(s, c.cooldown);
    forall i | 0 <= i < |listed| ensures listed[i] in InFront(s.world, time) && IsDue(s.world, listed[i], time) {
      assert listed[i] in Elements(listed);
      IsInFront(s.world, listed[i], time);
    }
  }

  lemma {:induction false} StarvingTicks(c: Config, s: Site, server: ServerName, at: Timestamp, answer: OriginAnswer,
                                         n: nat) returns (ticks: seq<Tick>)
    requires var time := DueAt(s.world, server);
             && 0 < time <= at && |InFront(s.world, time)| >= SWEEP_BATCH && NamesNobodyDue(c, s.world, time, answer)
    ensures var time := DueAt(s.world, server);
            && |ticks| == n && MisnamedTicks(c, s, time, ticks)
            && FairTicks(c, s, ticks, time, InFront(s.world, time))
    decreases n
  {
    if n == 0 {
      ticks := [];
    } else {
      var time := DueAt(s.world, server);
      var listed := ListingExists(s.world, at);
      var first := SameAnswers(at, listed, answer);
      SameAnswersAreMisnamed(c, s, server, at, listed, answer);
      OneMisnamedTick(c, s, server, first);
      var s' := RunTick(c, s, first).site;
      SameFront(s.world, s'.world, time);
      assert SameSchedule(s.world, s'.world, time, answer.reply.info.serverName);
      var rest := StarvingTicks(c, s', server, at, answer, n - 1);
      ticks := [first] + rest;
      assert ticks[1..] == rest;
    }
  }

  /** Some number of sweeps is fair to everybody but a set of servers, and leaves one server unprobed. */
  ghost predicate CanStarve(c: Config, s: Site, server: ServerName, stuck: set<ServerName>, n: nat) {
    exists ticks: seq<Tick> ::
      && |ticks| == n && FairTicks(c, s, ticks, DueAt(s.world, server), stuck)
      && forall e | e in EventsOf(RunTicks(c, s, ticks).steps, server) :: !IsProbe(e)
  }

  lemma ABatchStarves(c: Config, s: Site, server: ServerName, at: Timestamp, answer: OriginAnswer, n: nat)
    requires var time := DueAt(s.world, server);
             && 0 < time <= at && |InFront(s.world, time)| >= SWEEP_BATCH && NamesNobodyDue(c, s.world, time, answer)
    ensures CanStarve(c, s, server, InFront(s.world, DueAt(s.world, server)), n)
  {
    var ticks := StarvingTicks(c, s, server, at, answer, n);
    MisnamedRepliesStarve(c, s, server, ticks);
    assert EventsOf(RunTicks(c, s, ticks).steps, server) == [];
  }

  /** How many sweeps it takes at most to come to a server. */
  function SweepsNeeded(w: World, server: ServerName, stuck: set<ServerName>): int
    requires |stuck| < SWEEP_BATCH
  {
    (|DueBy(w, DueAt(w, server)) - stuck| - 1) / (SWEEP_BATCH - |stuck|) + 1
  }

  lemma FewerCannotStarve(c: Config, s: Site, server: ServerName, stuck: set<ServerName>)
    requires |stuck| < SWEEP_BATCH && server !in stuck && DueAt(s.world, server) > 0
    ensures var n := SweepsNeeded(s.world, server, stuck); n >= 0 && !CanStarve(c, s, server, stuck, n)
  {
    var time, n := DueAt(s.world, server), SweepsNeeded(s.world, server, stuck);
    OnTheList(s.world, server, time);
    assert server in DueBy(s.world, time) - stuck;
    if CanStarve(c, s, server, stuck, n) {
      var ticks: seq<Tick> :| |ticks| == n && FairTicks(c, s, ticks, time, stuck)
          && forall e | e in EventsOf(RunTicks(c, s, ticks).steps, server) :: !IsProbe(e);
      EnoughTicksProbe(c, s, server, stuck, ticks);
    }
  }

  lemma EnoughTicksProbe(c: Config, s: Site, server: ServerName, stuck: set<ServerName>, ticks: seq<Tick>)
    requires |stuck| < SWEEP_BATCH && server !in stuck && DueAt(s.world, server) > 0
    requires |ticks| == SweepsNeeded(s.world, server, stuck) && FairTicks(c, s, ticks, DueAt(s.world, server), stuck)
    ensures exists e :: e in EventsOf(RunTicks(c, s, ticks).steps, server) && IsProbe(e)
  {
    OnTheList(s.world, server, DueAt(s.world, server));
    assert server in DueBy(s.world, DueAt(s.world, server)) - stuck;
    NoStarvation(c, s, server, stuck, |DueBy(s.world, DueAt(s.world, server)) - stuck| - 1, ticks);
  }

  /**
    The threshold. Let the origins due strictly before a given one answer as they like, and say there is
    something to answer with. The given one can be starved forever if and only if they fill a batch.
   */
  lemma StarvationIffABatch(c: Config, s: Site, server: ServerName, at: Timestamp, answer: OriginAnswer)
    requires var time := DueAt(s.world, server); 0 < time <= at && NamesNobodyDue(c, s.world, time, answer)
    ensures var stuck := InFront(s.world, DueAt(s.world, server));
            (forall n: nat :: CanStarve(c, s, server, stuck, n)) <==> |stuck| >= SWEEP_BATCH
  {
    var time := DueAt(s.world, server);
    var stuck := InFront(s.world, time);
    if |stuck| >= SWEEP_BATCH {
      forall n: nat ensures CanStarve(c, s, server, stuck, n) {
        ABatchStarves(c, s, server, at, answer, n);
      }
    } else {
      IsInFront(s.world, server, time);
      FewerCannotStarve(c, s, server, stuck);
    }
  }
}
