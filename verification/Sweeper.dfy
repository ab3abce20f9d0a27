/**
  The background sweep that probes the origins whose standoff has run out, oldest due first and at most
  a batch at a time, while requests keep changing the same records.
 */
module OriginSweeper {
  import opened Base
  import opened Events
  import opened Worlds
  import opened Resolution
  import opened KeyReservoir

  const SWEEP_BATCH := 25

  // ---------------------------------------------------------------- candidates

  /** The servers whose scheduled probe is due by a time; no schedule, no entry. */
  function DueBy(w: World, time: int): set<ServerName> {
    set server | server in w && 0 < NextAttempt(w[server]) <= time
  }

  function DueAt(w: World, server: ServerName): int {
    NextAttempt(TablesOf(w, server))
  }

  /** The oldest due servers in order, up to the batch size; ties fall either way. */
  predicate OldestDue(w: World, now: int, listed: seq<ServerName>) {
    && NoDuplicates(listed) && Elements(listed) <= DueBy(w, now) && |listed| <= SWEEP_BATCH
    && (forall i, j | 0 <= i < j < |listed| :: DueAt(w, listed[i]) <= DueAt(w, listed[j]))
    && (forall server | server in DueBy(w, now) && server !in listed ::
          |listed| == SWEEP_BATCH && forall i | 0 <= i < |listed| :: DueAt(w, listed[i]) <= DueAt(w, server))
  }

  predicate IsCandidate(w: World, now: int, server: ServerName) {
    server in w && w[server].row.Some? && 0 < w[server].row.value.nextAttemptTs <= now
  }

  function AttemptAt(w: World, server: ServerName): int
    requires server in w && w[server].row.Some?
  {
    w[server].row.value.nextAttemptTs
  }

  /** Up to 25 servers whose next attempt is due, each once, none of them later than any that is left out. */
  predicate Lists(w: World, now: int, listed: seq<ServerName>) {
    && |listed| <= 25
    && (forall i, j | 0 <= i < j < |listed| :: listed[i] != listed[j])
    && (forall i | 0 <= i < |listed| :: IsCandidate(w, now, listed[i]))
    && (forall i, j | 0 <= i < j < |listed| :: AttemptAt(w, listed[i]) <= AttemptAt(w, listed[j]))
    && (forall server | server in w && IsCandidate(w, now, server) && server !in listed ::
          |listed| == 25 && AttemptAt(w, listed[24]) <= AttemptAt(w, server))
  }

  lemma OldestDueLists(w: World, now: int, listed: seq<ServerName>)
    requires OldestDue(w, now, listed)
    ensures Lists(w, now, listed)
  {
    forall i | 0 <= i < |listed| ensures IsCandidate(w, now, listed[i]) {
      assert listed[i] in Elements(listed) && listed[i] in DueBy(w, now);
    }
    forall server | server in w && IsCandidate(w, now, server) && server !in listed
      ensures |listed| == 25 && AttemptAt(w, listed[24]) <= AttemptAt(w, server)
    {
      assert server in DueBy(w, now);
      assert |listed| == 25 && DueAt(w, listed[24]) <= DueAt(w, server);
    }
  }

  /** Lists the candidates of one sweep. */
  method OriginProbeCandidates(w: World, now: int) returns (listed: seq<ServerName>)
    ensures OldestDue(w, now, listed)
    ensures Lists(w, now, listed)
  {
    listed := [];
    var due := DueBy(w, now);
    while due != {} && |listed| < SWEEP_BATCH
      invariant |listed| <= SWEEP_BATCH && Listing(w, now, listed, due)
      decreases |due|
    {
      var next := OldestOf(w, due);
      ListingGrows(w, now, listed, due, next);
      listed := listed + [next];
      due := due - {next};
    }
    assert forall server | server in listed :: server in Elements(listed);
    OldestDueLists(w, now, listed);
  }

  /** The oldest due servers have been listed, in order, and the rest has not. */
  ghost predicate Listing(w: World, now: int, listed: seq<ServerName>, left: set<ServerName>) {
    && NoDuplicates(listed) && left == DueBy(w, now) - Elements(listed) && Elements(listed) <= DueBy(w, now)
    && (forall i, j | 0 <= i < j < |listed| :: DueAt(w, listed[i]) <= DueAt(w, listed[j]))
    && (forall i, server | 0 <= i < |listed| && server in left :: DueAt(w, listed[i]) <= DueAt(w, server))
  }

  lemma ListingGrows(w: World, now: int, listed: seq<ServerName>, left: set<ServerName>, next: ServerName)
    requires Listing(w, now, listed, left) && next in left
    requires forall server | server in left :: DueAt(w, next) <= DueAt(w, server)
    ensures Listing(w, now, listed + [next], left - {next})
  {
    assert Elements(listed + [next]) == Elements(listed) + {next};
    assert forall server | server in listed :: server in Elements(listed);
  }

  method OldestOf(w: World, due: set<ServerName>) returns (oldest: ServerName)
    requires due != {}
    ensures oldest in due
    ensures forall server | server in due :: DueAt(w, oldest) <= DueAt(w, server)
  {
    oldest :| oldest in due;
    var left := due - {oldest};
    while left != {}
      invariant left <= due && oldest in due
      invariant forall server | server in due - left :: DueAt(w, oldest) <= DueAt(w, server)
      decreases |left|
    {
      var server :| server in left;
      if DueAt(w, server) < DueAt(w, oldest) {
        oldest := server;
      }
      left := left - {server};
    }
  }

  // ---------------------------------------------------------------- a sweep

  /** One turn of a sweep: what others do first, the clock, and the fetch with what others do during it. */
  datatype Turn = Turn(meanwhile: Others, now: Timestamp, fetch: Exchange)

  datatype Count = Count(attempted: nat, recovered: nat)

  /** One listed server: its record is read again, and probed only if it is still due. */
  function TakeTurn(c: Config, s: Site, server: ServerName, turn: Turn): Outcome<Count> {
    var s' := Meanwhile(s, c.cooldown, turn.meanwhile);
    var t := TablesOf(s'.world, server);
    if !ShouldProbe(t.row, turn.now) then Outcome(s', turn.meanwhile.steps, [], Count(0, 0))
    else
      var probe := Probe(c, s', server, Failures(t), turn.now, turn.fetch);
      Outcome(probe.site, turn.meanwhile.steps + probe.steps, probe.contacts,
          Count(1, if probe.result.Some? then 1 else 0))
  }

  function Sweep(c: Config, s: Site, listed: seq<ServerName>, turns: seq<Turn>): Outcome<Count>
    requires |listed| <= |turns|
    decreases |listed|
  {
    if listed == [] then Outcome(s, [], [], Count(0, 0))
    else
      var first := TakeTurn(c, s, listed[0], turns[0]);
      var rest := Sweep(c, first.site, listed[1..], turns[1..]);
      Outcome(rest.site, first.steps + rest.steps, first.contacts + rest.contacts,
              Count(first.result.attempted + rest.result.attempted, first.result.recovered + rest.result.recovered))
  }

  /** Probes every origin currently due, up to the batch size. */
  method SweepOriginsOnce(reservoir: Reservoir, now: Timestamp, turns: seq<Turn>) returns (attempted: nat,
                          recovered: nat, ghost listed: seq<ServerName>)
    requires reservoir.Valid() && |turns| == SWEEP_BATCH
    modifies reservoir`world, reservoir`contacts, reservoir.walks
    ensures OldestDue(old(reservoir.world), now, listed)
    ensures var out := Sweep(reservoir.config, old(reservoir.CurrentSite()), listed, turns);
            reservoir.CurrentSite() == out.site && reservoir.contacts == old(reservoir.contacts) + out.contacts
            && Count(attempted, recovered) == out.result
  {
    var candidates := OriginProbeCandidates(reservoir.world, now);
    listed := candidates;
    attempted, recovered := 0, 0;
    ghost var done: seq<Contact> := [];
    ghost var goal := Sweep(reservoir.config, reservoir.CurrentSite(), candidates, turns);
    assert candidates[0..] == candidates && turns[0..] == turns;
    for i := 0 to |candidates|
      invariant reservoir.contacts == old(reservoir.contacts) + done
      invariant SweepStands(reservoir.config, goal, reservoir.CurrentSite(), done, Count(attempted, recovered),
                candidates, turns, i)
    {
      var server, turn := candidates[i], turns[i];
      SweepAdvances(reservoir.config, goal, reservoir.CurrentSite(), done, Count(attempted, recovered), candidates,
          turns, i);
      ghost var taken := TakeTurn(reservoir.config, reservoir.CurrentSite(), server, turn).contacts;
      var due, answered := SweepOrigin(reservoir, server, turn);
      if due {
        attempted := attempted + 1;
      }
      if answered {
        recovered := recovered + 1;
      }
      ConcatAssociates(old(reservoir.contacts), done, taken);
      done := done + taken;
    }
  }

  /** One candidate: whether it was still due, and whether its origin answered. */
  method SweepOrigin(reservoir: Reservoir, server: ServerName, turn: Turn) returns (due: bool, answered: bool)
    requires reservoir.Valid()
    modifies reservoir`world, reservoir`contacts, reservoir.walks
    ensures var out := TakeTurn(reservoir.config, old(reservoir.CurrentSite()), server, turn);
            reservoir.CurrentSite() == out.site && reservoir.contacts == old(reservoir.contacts) + out.contacts
            && out.result == Count(if due then 1 else 0, if answered then 1 else 0)
  {
    reservoir.LetOthersRun(turn.meanwhile);
    var t := TablesOf(reservoir.world, server);
    if !ShouldProbe(t.row, turn.now) {
      return false, false;
    }
    var probed := reservoir.ProbeOrigin(server, Failures(t), turn.now, turn.fetch);
    return true, probed.Some?;
  }

  /** What is left of a sweep, from candidate `i` on, leads to the outcome of the whole sweep. */
  ghost predicate SweepStands(c: Config, goal: Outcome<Count>, s: Site, done: seq<Contact>, count: Count,
                              listed: seq<ServerName>, turns: seq<Turn>, i: nat)
    requires i <= |listed| <= |turns|
  {
    var rest := Sweep(c, s, listed[i..], turns[i..]);
    && goal.site == rest.site && goal.contacts == done + rest.contacts
    && goal.result == Count(count.attempted + rest.result.attempted, count.recovered + rest.result.recovered)
  }

  lemma SweepAdvances(c: Config, goal: Outcome<Count>, s: Site, done: seq<Contact>, count: Count,
                      listed: seq<ServerName>, turns: seq<Turn>, i: nat)
    requires i < |listed| <= |turns|
    requires SweepStands(c, goal, s, done, count, listed, turns, i)
    ensures var taken := TakeTurn(c, s, listed[i], turns[i]);
            SweepStands(c, goal, taken.site, done + taken.contacts,
                        Count(count.attempted + taken.result.attempted, count.recovered + taken.result.recovered),
                            listed, turns, i + 1)
  {
    assert listed[i..][1..] == listed[i + 1..];
    assert turns[i..][1..] == turns[i + 1..];
    var taken := TakeTurn(c, s, listed[i], turns[i]);
    var rest := Sweep(c, taken.site, listed[i + 1..], turns[i + 1..]);
    ConcatAssociates(done, taken.contacts, rest.contacts);
  }
}
