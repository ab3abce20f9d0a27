/**
  Resolutions as runs: every resolution is a sequence of steps on the records, its own and those of others
  in between, and what holds of all such sequences holds of any mixture of requests.
 */
module Runs {
  import opened Base
  import opened KeyRecords
  import opened Schedule
  import opened Tables
  import opened Events
  import opened Worlds
  import opened Resolution

  /** What every outcome must satisfy: its steps, its own and others', lead from the one site to the other. */
  predicate IsRun(s: Site, steps: seq<Step>, after: Site) {
    after.world == RunSteps(s.world, steps)
  }

  /** As long as others keep to the rules, so does everybody. */
  predicate KeepsTheRules(s: Site, steps: seq<Step>) {
    StepsDue(s.world, steps, true) ==> StepsDue(s.world, steps, false)
  }

  lemma RunsConcat(s: Site, a: seq<Step>, mid: Site, b: seq<Step>, after: Site)
    requires IsRun(s, a, mid) && IsRun(mid, b, after)
    ensures IsRun(s, a + b, after)
    ensures KeepsTheRules(s, a) && KeepsTheRules(mid, b) ==> KeepsTheRules(s, a + b)
  {
    RunStepsConcat(s.world, a, b);
    StepsDueConcat(s.world, a, b, true);
    StepsDueConcat(s.world, a, b, false);
  }

  lemma OthersKeepTheRules(s: Site, cooldown: int, others: Others)
    ensures IsRun(s, others.steps, Meanwhile(s, cooldown, others)) && KeepsTheRules(s, others.steps)
  {
    OthersDueIsDue(s.world, others.steps);
  }

  /** Clocks are positive, those of the nested resolutions too. */
  predicate PositiveClocks(script: Script) {
    script.now > 0 && forall visit | visit in script.visits :: PositiveClocks(visit.own)
  }

  lemma OneStepRuns(s: Site, step: Step, after: Site)
    requires after.world == StepOn(s.world, step) && !step.event.ProbeBegins?
    ensures IsRun(s, [step], after) && (AfterEpoch(step.event) ==> KeepsTheRules(s, [step]))
  {
    assert [step][1..] == [];
  }

  lemma BeginsRuns(s: Site, server: ServerName, now: int)
    ensures var steps := [Step(server, ProbeBegins(now, Failures(TablesOf(s.world, server))), true)];
            IsRun(s, steps, s) && (now > 0 && ShouldProbe(TablesOf(s.world, server).row, now) ==>
                KeepsTheRules(s, steps))
  {
    var step := Step(server, ProbeBegins(now, Failures(TablesOf(s.world, server))), true);
    assert [step][1..] == [];
  }

  lemma StoreReplyRuns(s: Site, info: ServerKeys, extra: Fields, via: string, now: int, order: InsertOrder)
    requires Orders(order, info) && Validates(info)
    ensures var out := StoreReply(s, info, extra, via, now, order);
            IsRun(s, out.steps, out.site) && KeepsTheRules(s, out.steps) && out.site.walks == s.walks
  {
    var out := StoreReply(s, info, extra, via, now, order);
    OneStepRuns(s, out.steps[0], out.site);
  }

  lemma FetchRuns(c: Config, s: Site, server: ServerName, fetch: Exchange)
    ensures var out := FetchDirect(c, s, server, fetch);
            IsRun(s, out.steps, out.site) && KeepsTheRules(s, out.steps)
  {
    OthersKeepTheRules(s, c.cooldown, fetch.during);
    if fetch.answer.Replies? && AcceptsDirect(c.scheme, fetch.answer.reply.info, fetch.answer.reply.raw) {
      var s', reply := Meanwhile(s, c.cooldown, fetch.during), fetch.answer.reply;
      StoreReplyRuns(s', reply.info, AdditionalFields(reply.raw), "", fetch.storeNow, reply.order);
      var stored := StoreReply(s', reply.info, AdditionalFields(reply.raw), "", fetch.storeNow, reply.order);
      RunsConcat(s, fetch.during.steps, s', stored.steps, stored.site);
    }
  }

  /** A probe that begins when it is due keeps to the rules, however others interfere. */
  lemma ProbeRuns(c: Config, s: Site, server: ServerName, now: int, exchange: Exchange)
    ensures var out := Probe(c, s, server, Failures(TablesOf(s.world, server)), now, exchange);
            && IsRun(s, out.steps, out.site)
            && (now > 0 && ShouldProbe(TablesOf(s.world, server).row, now) ==> KeepsTheRules(s, out.steps))
  {
    var seen := Failures(TablesOf(s.world, server));
    var begins := Step(server, ProbeBegins(now, seen), true);
    var fetch := FetchDirect(c, s, server, exchange);
    BeginsRuns(s, server, now);
    FetchRuns(c, s, server, exchange);
    RunsConcat(s, [begins], s, fetch.steps, fetch.site);
    if fetch.result.FetchFailed? {
      var s' := Meanwhile(fetch.site, c.cooldown, exchange.beforeNote);
      var note := Step(server, ProbeFailed(now, seen, IsTransient(fetch.result.error)), true);
      OthersKeepTheRules(fetch.site, c.cooldown, exchange.beforeNote);
      RunsConcat(s, [begins] + fetch.steps, fetch.site, exchange.beforeNote.steps, s');
      var after := s'.(world := StepOn(s'.world, note));
      OneStepRuns(s', note, after);
      RunsConcat(s, [begins] + fetch.steps + exchange.beforeNote.steps, s', [note], after);
    }
  }

  /**
    Every resolution is a run of store attempts and probes: nothing else of its own ever changes a record.
    Each of its probes begins when it is due, whatever others do before, during and after it.
   */
  lemma {:induction false} ResolveRuns(c: Config, s: Site, server: ServerName, minValidUntilTs: Timestamp,
                                       fallback: bool, script: Script)
    requires fallback ==> |script.visits| == |c.notaries|
    ensures var out := Resolve(c, s, server, minValidUntilTs, fallback, script);
            IsRun(s, out.steps, out.site) && (PositiveClocks(script) ==> KeepsTheRules(s, out.steps))
    decreases script, 1
  {
    var t := TablesOf(s.world, server);
    ProbeRuns(c, s, server, script.now, script.fetch);
    var probe, held, due := ProbeIfDue(c, s, server, script), LoadHeld(s.world, server), ShouldProbe(t.row, script.now);
    WithoutOriginRuns(c, probe.site, server, minValidUntilTs, fallback, held, due, script);
    var rest := WithoutOrigin(c, probe.site, server, minValidUntilTs, fallback, held, due, script);
    RunsConcat(s, probe.steps, probe.site, rest.steps, rest.site);
  }

  lemma {:induction false} WithoutOriginRuns(c: Config, s: Site, server: ServerName, minValidUntilTs: Timestamp,
                                        fallback: bool,
                                             held: Option<Held>, probed: bool, script: Script)
    requires fallback ==> |script.visits| == |c.notaries|
    ensures var out := WithoutOrigin(c, s, server, minValidUntilTs, fallback, held, probed, script);
            IsRun(s, out.steps, out.site) && (PositiveClocks(script) ==> KeepsTheRules(s, out.steps))
    decreases script, 0
  {
    if fallback && !HeldSatisfies(held, minValidUntilTs) {
      var s' := Meanwhile(s, c.cooldown, script.beforeWalk);
      OthersKeepTheRules(s, c.cooldown, script.beforeWalk);
      var started := Started(c, s', server, script.now);
      WalkRuns(c, started, server, minValidUntilTs, c.notaries, script.visits, None);
      var walk := Walk(c, started, server, minValidUntilTs, c.notaries, script.visits, None);
      RunsConcat(s, script.beforeWalk.steps, started, walk.steps, walk.site);
    }
  }

  lemma {:induction false} WalkRuns(c: Config, s: Site, target: ServerName, minValidUntilTs: Timestamp,
                                    notaries: seq<ServerName>, visits: seq<Visit>, best: Option<Held>)
    requires |visits| == |notaries|
    ensures var out := Walk(c, s, target, minValidUntilTs, notaries, visits, best);
            IsRun(s, out.steps, out.site) && ((forall visit | visit in visits :: PositiveClocks(visit.own)) ==>
                KeepsTheRules(s, out.steps))
    decreases visits, 3
  {
    if notaries == [] {
    } else if Skipped(c, notaries[0], target) {
      WalkRuns(c, s, target, minValidUntilTs, notaries[1..], visits[1..], best);
    } else {
      AskRuns(c, s, notaries[0], target, visits[0]);
      var asked := Ask(c, s, notaries[0], target, visits[0]);
      var best' := Better(best, asked.result);
      WalkRuns(c, asked.site, target, minValidUntilTs, notaries[1..], visits[1..], best');
      var rest := Walk(c, asked.site, target, minValidUntilTs, notaries[1..], visits[1..], best');
      RunsConcat(s, asked.steps, asked.site, rest.steps, rest.site);
    }
  }

  lemma {:induction false} AskRuns(c: Config, s: Site, notary: ServerName, target: ServerName, visit: Visit)
    ensures var out := Ask(c, s, notary, target, visit);
            IsRun(s, out.steps, out.site) && (PositiveClocks(visit.own) ==> KeepsTheRules(s, out.steps))
    decreases visit, 2
  {
    var s0 := Meanwhile(s, c.cooldown, visit.before);
    OthersKeepTheRules(s, c.cooldown, visit.before);
    ResolveRuns(c, s0, notary, visit.minNow, false, visit.own);
    var own := Resolve(c, s0, notary, visit.minNow, false, visit.own);
    RunsConcat(s, visit.before.steps, s0, own.steps, own.site);
    if own.result.Some? && HeldKeysDecode(c.scheme, own.result.value.keys) {
      var s1 := Meanwhile(own.site, c.cooldown, visit.during);
      OthersKeepTheRules(own.site, c.cooldown, visit.during);
      RunsConcat(s, visit.before.steps + own.steps, own.site, visit.during.steps, s1);
      var notaryKeys := NotaryVerifyKeys(c.scheme, own.result.value.keys);
      AskWithRuns(c, s1, notary, target, notaryKeys, visit.answer, visit.storeNow);
      var asked := AskWith(c, s1, notary, target, notaryKeys, visit.answer, visit.storeNow);
      RunsConcat(s, visit.before.steps + own.steps + visit.during.steps, s1, asked.steps, asked.site);
    }
  }

  lemma AskWithRuns(c: Config, s: Site, notary: ServerName, target: ServerName, notaryKeys: map<KeyId, Bytes>,
                    answer: NotaryAnswer, storeNow: int)
    ensures var out := AskWith(c, s, notary, target, notaryKeys, answer, storeNow);
            IsRun(s, out.steps, out.site) && KeepsTheRules(s, out.steps)
  {
    if answer.Returns? && FirstFor(answer.entries, target).Some? {
      var reply := FirstFor(answer.entries, target).value;
      StoreReplyRuns(s, Retained(reply.info), AdditionalFields(reply.raw), notary, storeNow, reply.order);
    }
  }
}
