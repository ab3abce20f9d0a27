/**
  A batch query: flattened to one lookup per domain, resolved by one goroutine per lookup under a
  semaphore, and answered once all of them are done. The protocol is a state machine whose steps any
  scheduler may interleave; what a lookup answers is arbitrary.
 */
module BatchQuery {
  import opened Base
  import opened Serving

  const BATCH_RESOLVE_CONCURRENCY := 8

  // ---------------------------------------------------------------- flattening the request

  datatype LookupItem = LookupItem(domain: string, minValidTs: Timestamp)

  /** The minimum a domain is looked up with: the greatest one asked for, or now if none is positive. */
  predicate IsEffectiveMinimum(m: Timestamp, asked: map<KeyId, Timestamp>, now: Timestamp) {
    if exists id :: id in asked && asked[id] > 0 then
      (exists id :: id in asked && asked[id] == m) && (forall id | id in asked :: asked[id] <= m)
    else m == now
  }

  method EffectiveMinimum(asked: map<KeyId, Timestamp>, now: Timestamp) returns (m: Timestamp)
    ensures IsEffectiveMinimum(m, asked, now)
    ensures (forall id | id in asked :: asked[id] <= 0) ==> m == now
    ensures forall id | id in asked && asked[id] > 0 ::
              asked[id] <= m && exists best :: best in asked && asked[best] == m
  {
    m := 0;
    var todo := asked.Keys;
    while todo != {}
      invariant todo <= asked.Keys && m >= 0
      invariant forall id | id in asked && id !in todo :: asked[id] <= m
      invariant m > 0 ==> exists id :: id in asked && asked[id] == m
      decreases todo
    {
      var id :| id in todo;
      if asked[id] > m {
        m := asked[id];
      }
      todo := todo - {id};
    }
    if m <= 0 {
      m := now;
    }
  }

  /** The clock readings, one at each domain. */
  type Clock = string -> Timestamp

  /** One item for each domain asked about, in whatever order the map yields them. */
  predicate IsFlattened(items: seq<LookupItem>, lookup: map<string, map<KeyId, Timestamp>>, clock: Clock) {
    && (forall i, j | 0 <= i < j < |items| :: items[i].domain != items[j].domain)
    && (forall i | 0 <= i < |items| ::
          items[i].domain in lookup && IsEffectiveMinimum(items[i].minValidTs, lookup[items[i].domain],
              clock(items[i].domain)))
    && (forall domain | domain in lookup :: exists i :: 0 <= i < |items| && items[i].domain == domain)
  }

  method Flatten(lookup: map<string, map<KeyId, Timestamp>>, clock: Clock) returns (items: seq<LookupItem>)
    ensures IsFlattened(items, lookup, clock)
    ensures forall domain :: domain in lookup <==> exists i :: 0 <= i < |items| && items[i].domain == domain
    ensures forall i | 0 <= i < |items| ::
              var asked := lookup[items[i].domain];
              && ((forall id | id in asked :: asked[id] <= 0) ==> items[i].minValidTs == clock(items[i].domain))
              && forall id | id in asked && asked[id] > 0 ::
                  asked[id] <= items[i].minValidTs && exists best :: best in asked && asked[best] == items[i].minValidTs
  {
    items := [];
    var todo := lookup.Keys;
    while todo != {}
      invariant todo <= lookup.Keys
      invariant forall i | 0 <= i < |items| :: items[i].domain !in todo
      invariant IsFlattened(items, lookup - todo, clock)
      decreases todo
    {
      var domain :| domain in todo;
      var m := EffectiveMinimum(lookup[domain], clock(domain));
      ghost var before := items;
      items := items + [LookupItem(domain, m)];
      forall d | d in lookup - (todo - {domain}) ensures exists i :: 0 <= i < |items| && items[i].domain == d {
        if d == domain {
          assert items[|before|].domain == d;
        } else {
          assert d in lookup - todo;
          var i :| 0 <= i < |before| && before[i].domain == d;
          assert items[i].domain == d;
        }
      }
      todo := todo - {domain};
    }
    assert lookup - {} == lookup;
  }

  /** With a positive clock, each domain's minimum is at least every minimum asked for in it. */
  lemma MinimumDominates(items: seq<LookupItem>, lookup: map<string, map<KeyId, Timestamp>>, clock: Clock,
                         domain: string, id: KeyId)
    requires clock(domain) > 0 && IsFlattened(items, lookup, clock) && domain in lookup && id in lookup[domain]
    ensures exists i :: 0 <= i < |items| && items[i].domain == domain && lookup[domain][id] <= items[i].minValidTs
  {
    var i :| 0 <= i < |items| && items[i].domain == domain;
    assert IsEffectiveMinimum(items[i].minValidTs, lookup[domain], clock(domain));
  }

  // ---------------------------------------------------------------- the answer to a batch

  /** What a sequential batch answers: the objects that could be served, in item order. */
  function Successes(results: seq<Served>): seq<Fields> {
    if results == [] then []
    else
      var last := results[|results| - 1];
      Successes(results[..|results| - 1]) + if last.Serves? then [last.obj] else []
  }

  /** Exactly the results that are objects. */
  ghost predicate Selects(items: seq<nat>, results: seq<Served>) {
    forall i: nat :: i in items <==> i < |results| && results[i].Serves?
  }

  predicate Increasing(items: seq<nat>) {
    forall j, k | 0 <= j < k < |items| :: items[j] < items[k]
  }

  predicate TakenFrom(answer: seq<Fields>, results: seq<Served>, items: seq<nat>) {
    && |items| == |answer|
    && forall j | 0 <= j < |items| ::
        items[j] < |results| && results[items[j]].Serves? && answer[j] == results[items[j]].obj
  }

  /**
    The answer lists, in item order and each once, the objects of exactly those results that are objects: `items`
    are the places that they come from.
   */
  ghost predicate AnswersFrom(answer: seq<Fields>, results: seq<Served>, items: seq<nat>) {
    Selects(items, results) && Increasing(items) && TakenFrom(answer, results, items)
  }

  function Places(results: seq<Served>): seq<nat> {
    if results == [] then []
    else
      var last := results[|results| - 1];
      Places(results[..|results| - 1]) + if last.Serves? then [|results| - 1] else []
  }

  lemma {:induction false} PlacesSelect(results: seq<Served>)
    ensures Selects(Places(results), results)
  {
    if results == [] {
    } else {
      var most := results[..|results| - 1];
      PlacesSelect(most);
      forall i: nat ensures i in Places(results) <==> i < |results| && results[i].Serves? {
        assert i in Places(most) <==> i < |most| && most[i].Serves?;
      }
    }
  }

  lemma {:induction false} PlacesIncrease(results: seq<Served>)
    ensures Increasing(Places(results)) && forall j | 0 <= j < |Places(results)| :: Places(results)[j] < |results|
  {
    if results == [] {
    } else {
      PlacesIncrease(results[..|results| - 1]);
    }
  }

  lemma {:induction false} SuccessesAreTaken(results: seq<Served>)
    ensures TakenFrom(Successes(results), results, Places(results))
  {
    if results == [] {
    } else {
      SuccessesAreTaken(results[..|results| - 1]);
    }
  }

  lemma SuccessesAreAnswers(results: seq<Served>)
    ensures AnswersFrom(Successes(results), results, Places(results))
  {
    PlacesSelect(results);
    PlacesIncrease(results);
    SuccessesAreTaken(results);
  }

  method Collect(results: seq<Served>) returns (answer: seq<Fields>)
    ensures answer == Successes(results)
    ensures exists items :: AnswersFrom(answer, results, items)
  {
    answer := [];
    for i := 0 to |results|
      invariant answer == Successes(results[..i])
    {
      assert results[..i + 1][..i] == results[..i];
      if results[i].Refuses? {
        continue;
      }
      answer := answer + [results[i].obj];
    }
    assert results[..|results|] == results;
    SuccessesAreAnswers(results);
  }

  // ---------------------------------------------------------------- the protocol

  /** Where the goroutine of one item is; Released follows the deferred receive, Finished the deferred Done. */
  datatype Phase = Unspawned | Waiting | Running | Written | Released | Finished

  datatype State = State(
    phases: seq<Phase>,
    slots: seq<Option<Served>>,
    spawned: nat,
    semaphore: nat,      // tokens in the channel
    group: int,          // the wait group's counter
    answer: Option<seq<Fields>>)

  datatype Action =
    | Spawn
    | Acquire(i: nat)
    | Write(i: nat, result: Served)   // the lookup returns, and its result is written to its slot
    | Release(i: nat)
    | Finish(i: nat)
    | Return

  function Init(items: nat): State {
    State(seq(items, _ => Unspawned), seq(items, _ => None), 0, 0, 0, None)
  }

  predicate IsAt(s: State, i: nat, phase: Phase) {
    i < |s.phases| && s.phases[i] == phase
  }

  predicate Enabled(s: State, a: Action) {
    match a
    case Spawn => s.spawned < |s.phases|
    case Acquire(i) => IsAt(s, i, Waiting) && s.semaphore < BATCH_RESOLVE_CONCURRENCY
    case Write(i, _) => IsAt(s, i, Running)
    case Release(i) => IsAt(s, i, Written) && s.semaphore > 0
    case Finish(i) => IsAt(s, i, Released)
    case Return => s.spawned >= |s.phases| && s.group == 0 && s.answer.None?
  }

  /** The written slots, in order. */
  function Collected(slots: seq<Option<Served>>): seq<Served> {
    seq(|slots|, i requires 0 <= i < |slots| => if slots[i].Some? then slots[i].value else Serves(map[]))
  }

  function Next(s: State, a: Action): State
    requires Enabled(s, a) && |s.slots| == |s.phases|
  {
    match a
    case Spawn => s.(phases := s.phases[s.spawned := Waiting], spawned := s.spawned + 1, group := s.group + 1)
    case Acquire(i) => s.(phases := s.phases[i := Running], semaphore := s.semaphore + 1)
    case Write(i, result) => s.(phases := s.phases[i := Written], slots := s.slots[i := Some(result)])
    case Release(i) => s.(phases := s.phases[i := Released], semaphore := s.semaphore - 1)
    case Finish(i) => s.(phases := s.phases[i := Finished], group := s.group - 1)
    case Return => s.(answer := Some(Successes(Collected(s.slots))))
  }

  /** A schedule: a sequence of actions, each enabled where it is taken. */
  predicate IsRun(items: nat, run: seq<Action>)
    decreases |run|, 0
  {
    run != [] ==> IsRun(items, run[..|run| - 1]) && Enabled(After(items, run[..|run| - 1]), run[|run| - 1])
  }

  function After(items: nat, run: seq<Action>): (s: State)
    requires IsRun(items, run)
    ensures |s.phases| == |s.slots| == items
    decreases |run|, 1
  {
    if run == [] then Init(items) else Next(After(items, run[..|run| - 1]), run[|run| - 1])
  }

  // ---------------------------------------------------------------- the invariant

  predicate HoldsToken(phase: Phase) {
    phase == Running || phase == Written
  }

  predicate InGroup(phase: Phase) {
    phase != Unspawned && phase != Finished
  }

  function Tokens(phases: seq<Phase>): nat {
    if phases == [] then 0 else (if HoldsToken(phases[0]) then 1 else 0) + Tokens(phases[1..])
  }

  function Members(phases: seq<Phase>): nat {
    if phases == [] then 0 else (if InGroup(phases[0]) then 1 else 0) + Members(phases[1..])
  }

  /** How many actions a goroutine has taken part in. */
  function Rank(phase: Phase): nat {
    match phase
    case Unspawned => 0
    case Waiting => 1
    case Running => 2
    case Written => 3
    case Released => 4
    case Finished => 5
  }

  function Ranks(phases: seq<Phase>): nat {
    if phases == [] then 0 else Rank(phases[0]) + Ranks(phases[1..])
  }

  lemma {:induction false} PhaseMoves(phases: seq<Phase>, i: nat, phase: Phase)
    requires i < |phases|
    ensures Tokens(phases[i := phase]) == Tokens(phases) +
              (if HoldsToken(phase) then 1 else 0) - (if HoldsToken(phases[i]) then 1 else 0)
    ensures Members(phases[i := phase]) == Members(phases) +
              (if InGroup(phase) then 1 else 0) - (if InGroup(phases[i]) then 1 else 0)
    ensures Ranks(phases[i := phase]) == Ranks(phases) + Rank(phase) - Rank(phases[i])
  {
    if i == 0 {
      assert phases[0 := phase][1..] == phases[1..];
    } else {
      PhaseMoves(phases[1..], i - 1, phase);
      assert phases[i := phase][1..] == phases[1..][i - 1 := phase];
    }
  }

  predicate Spawning(s: State) {
    && s.spawned <= |s.phases|
    && (forall i | 0 <= i < |s.phases| :: s.phases[i] == Unspawned <==> i >= s.spawned)
  }

  /** A slot is written exactly when its goroutine is past the write. */
  predicate SlotsMatch(s: State) {
    && |s.slots| == |s.phases|
    && (forall i | 0 <= i < |s.phases| :: s.slots[i].Some? <==> Rank(s.phases[i]) >= 3)
  }

  predicate Invariant(s: State) {
    && Spawning(s) && SlotsMatch(s)
    && s.semaphore == Tokens(s.phases) && s.group == Members(s.phases)
    && s.semaphore <= BATCH_RESOLVE_CONCURRENCY
    && (s.answer.Some? ==> s.spawned == |s.phases| && s.group == 0)
  }

  lemma {:induction false} CountsAtStart(n: nat)
    ensures var phases := seq(n, _ => Unspawned);
            Tokens(phases) == 0 && Members(phases) == 0 && Ranks(phases) == 0
  {
    var phases: seq<Phase> := seq(n, _ => Unspawned);
    if n == 0 {
    } else {
      CountsAtStart(n - 1);
      assert phases[1..] == seq(n - 1, _ => Unspawned);
    }
  }

  /** The goroutine an action moves. */
  function Mover(s: State, a: Action): nat {
    match a
    case Spawn => s.spawned
    case Acquire(i) => i
    case Write(i, _) => i
    case Release(i) => i
    case Finish(i) => i
    case Return => 0
  }

  lemma StepKeepsInvariant(s: State, a: Action)
    requires Invariant(s) && Enabled(s, a)
    ensures Invariant(Next(s, a))
  {
    if !a.Return? {
      var i := Mover(s, a);
      PhaseMoves(s.phases, i, Next(s, a).phases[i]);
      if s.answer.Some? {
        AllFinished(s.phases, s.spawned, i);
      }
    }
  }

  /** With everybody spawned and nobody left in the group, everybody has finished. */
  lemma {:induction false} AllFinished(phases: seq<Phase>, spawned: nat, i: nat)
    requires Members(phases) == 0 && i < |phases|
    ensures phases[i] == Unspawned || phases[i] == Finished
  {
    if i == 0 {
    } else {
      AllFinished(phases[1..], spawned, i - 1);
    }
  }

  lemma {:induction false} RunKeepsInvariant(items: nat, run: seq<Action>)
    requires IsRun(items, run)
    ensures Invariant(After(items, run))
    decreases |run|
  {
    if run == [] {
      CountsAtStart(items);
    } else {
      RunKeepsInvariant(items, run[..|run| - 1]);
      StepKeepsInvariant(After(items, run[..|run| - 1]), run[|run| - 1]);
    }
  }

  // ---------------------------------------------------------------- theorems

  /** At most eight lookups are ever in flight, counted over the goroutines themselves. */
  lemma AtMostEightInFlight(items: nat, run: seq<Action>)
    requires IsRun(items, run)
    ensures Tokens(After(items, run).phases) <= 8
  {
    RunKeepsInvariant(items, run);
  }

  /** Until the batch is answered, some action is enabled: nothing waits for ever. */
  lemma SomeActionIsEnabled(items: nat, run: seq<Action>)
    requires IsRun(items, run) && After(items, run).answer.None?
    ensures exists a :: Enabled(After(items, run), a)
  {
    var s := After(items, run);
    RunKeepsInvariant(items, run);
    if s.spawned < |s.phases| {
      assert Enabled(s, Spawn);
    } else if s.group == 0 {
      assert Enabled(s, Return);
    } else if i :| 0 <= i < |s.phases| && HoldsToken(s.phases[i]) {
      TokensArePositive(s.phases, i);
      assert Enabled(s, if s.phases[i] == Running then Write(i, Serves(map[])) else Release(i));
    } else {
      NoTokens(s.phases);
      var i := SomeMember(s.phases);
      assert Enabled(s, if s.phases[i] == Waiting then Acquire(i) else Finish(i));
    }
  }

  lemma {:induction false} TokensArePositive(phases: seq<Phase>, i: nat)
    requires i < |phases| && HoldsToken(phases[i])
    ensures Tokens(phases) > 0
  {
    if i == 0 {
    } else {
      TokensArePositive(phases[1..], i - 1);
    }
  }

  lemma {:induction false} NoTokens(phases: seq<Phase>)
    requires forall i | 0 <= i < |phases| :: !HoldsToken(phases[i])
    ensures Tokens(phases) == 0
  {
    if phases == [] {
    } else {
      NoTokens(phases[1..]);
    }
  }

  lemma {:induction false} SomeMember(phases: seq<Phase>) returns (i: nat)
    requires Members(phases) > 0
    ensures i < |phases| && InGroup(phases[i])
  {
    if InGroup(phases[0]) {
      i := 0;
    } else {
      i := SomeMember(phases[1..]);
      i := i + 1;
    }
  }

  /** Every run ends: its length is the progress made, and that is bounded by five actions an item and one more. */
  lemma {:induction false} RunLengthIsProgress(items: nat, run: seq<Action>)
    requires IsRun(items, run)
    ensures var s := After(items, run);
            |run| == Ranks(s.phases) + (if s.answer.Some? then 1 else 0)
    decreases |run|
  {
    if run == [] {
      CountsAtStart(items);
    } else {
      var s, a := After(items, run[..|run| - 1]), run[|run| - 1];
      RunLengthIsProgress(items, run[..|run| - 1]);
      RunKeepsInvariant(items, run[..|run| - 1]);
      StepIsProgress(s, a);
    }
  }

  lemma StepIsProgress(s: State, a: Action)
    requires Invariant(s) && Enabled(s, a)
    ensures var s' := Next(s, a);
            Ranks(s'.phases) + (if s'.answer.Some? then 1 else 0) ==
            Ranks(s.phases) + (if s.answer.Some? then 1 else 0) + 1
  {
    if !a.Return? {
      var i := Mover(s, a);
      PhaseMoves(s.phases, i, Next(s, a).phases[i]);
    }
  }

  lemma {:induction false} RanksAreBounded(phases: seq<Phase>)
    ensures Ranks(phases) <= 5 * |phases|
    ensures (forall i | 0 <= i < |phases| :: phases[i] == Finished) ==> Ranks(phases) == 5 * |phases|
  {
    if phases == [] {
    } else {
      RanksAreBounded(phases[1..]);
    }
  }

  /** Every run ends, and the runs that answer all take exactly five actions an item and one more. */
  lemma EveryRunEnds(items: nat, run: seq<Action>)
    requires IsRun(items, run)
    ensures |run| <= 5 * items + 1
    ensures After(items, run).answer.Some? ==> |run| == 5 * items + 1
  {
    var s := After(items, run);
    RunLengthIsProgress(items, run);
    RunKeepsInvariant(items, run);
    RanksAreBounded(s.phases);
    if s.answer.Some? {
      forall i | 0 <= i < |s.phases| ensures s.phases[i] == Finished {
        AllFinished(s.phases, s.spawned, i);
      }
    }
  }

  /** The results that a run writes to one slot, in order. */
  function WritesTo(run: seq<Action>, i: nat): seq<Served> {
    if run == [] then []
    else
      var last := run[|run| - 1];
      WritesTo(run[..|run| - 1], i) + if last.Write? && last.i == i then [last.result] else []
  }

  /** Each slot is written at most once, and holds what was written. */
  lemma {:induction false} SlotsAreWrittenOnce(items: nat, run: seq<Action>, i: nat)
    requires IsRun(items, run) && i < items
    ensures WritesTo(run, i) == match After(items, run).slots[i] { case None => [] case Some(result) => [result] }
    decreases |run|
  {
    if run == [] {
    } else {
      var most, last := run[..|run| - 1], run[|run| - 1];
      SlotsAreWrittenOnce(items, most, i);
      RunKeepsInvariant(items, most);
      SlotStep(After(items, most), last, i);
    }
  }

  /** Only a write to a slot changes it, and it was empty before. */
  lemma SlotStep(s: State, a: Action, i: nat)
    requires Invariant(s) && Enabled(s, a) && i < |s.slots|
    ensures if a.Write? && a.i == i then s.slots[i].None? && Next(s, a).slots[i] == Some(a.result)
            else Next(s, a).slots[i] == s.slots[i]
  {
  }

  /** An answered batch is at its end. */
  lemma AnsweredIsTheEnd(s: State, a: Action)
    requires Invariant(s) && s.answer.Some?
    ensures !Enabled(s, a)
  {
    if !a.Return? && Mover(s, a) < |s.phases| {
      AllFinished(s.phases, s.spawned, Mover(s, a));
    }
  }

  /** The answer is made from the slots. */
  lemma AnswerIsOfTheSlots(items: nat, run: seq<Action>)
    requires IsRun(items, run)
    ensures var s := After(items, run);
            s.answer.Some? ==> s.answer.value == Successes(Collected(s.slots))
  {
    if run != [] {
      var s, a := After(items, run[..|run| - 1]), run[|run| - 1];
      RunKeepsInvariant(items, run[..|run| - 1]);
      if s.answer.Some? {
        AnsweredIsTheEnd(s, a);
      } else if a.Return? {
        assert Next(s, a).slots == s.slots;
      }
    }
  }

  /**
    The batch protocol computes the sequential batch: however the goroutines are scheduled, the answer is
    that of resolving the items one after another with the same results, each of which was written once.
   */
  lemma BatchIsSequential(items: nat, run: seq<Action>, results: seq<Served>)
    requires IsRun(items, run) && After(items, run).answer.Some?
    requires |results| == items && forall i | 0 <= i < items :: results[i] in WritesTo(run, i)
    ensures forall i | 0 <= i < items :: WritesTo(run, i) == [results[i]]
    ensures After(items, run).answer.value == Successes(results)
  {
    var s := After(items, run);
    RunKeepsInvariant(items, run);
    forall i | 0 <= i < items ensures WritesTo(run, i) == [results[i]] && Collected(s.slots)[i] == results[i] {
      SlotsAreWrittenOnce(items, run, i);
    }
    AnswerIsOfTheSlots(items, run);
    assert Collected(s.slots) == results;
  }

  lemma {:induction false} WrittenIsWritten(run: seq<Action>, i: nat, result: Served)
    ensures result in WritesTo(run, i) <==> Write(i, result) in run
  {
    if run == [] {
    } else {
      WrittenIsWritten(run[..|run| - 1], i, result);
      assert run == run[..|run| - 1] + [run[|run| - 1]];
    }
  }

  /**
    What an answered batch answers, however its goroutines were scheduled: each item's lookup returned one
    result, and the answer lists, in item order and each once, the objects of exactly those that are objects.
   */
  lemma BatchAnswers(items: nat, run: seq<Action>) returns (results: seq<Served>, places: seq<nat>)
    requires IsRun(items, run) && After(items, run).answer.Some?
    ensures |results| == items
    ensures forall i, result | 0 <= i < items :: Write(i, result) in run <==> result == results[i]
    ensures AnswersFrom(After(items, run).answer.value, results, places)
  {
    forall i: nat | i < items ensures |WritesTo(run, i)| == 1 {
      EverySlotIsWritten(items, run, i);
    }
    results := seq(items, i requires 0 <= i < items => WritesTo(run, i)[0]);
    BatchIsSequential(items, run, results);
    forall i, result | 0 <= i < items ensures Write(i, result) in run <==> result == results[i] {
      WrittenIsWritten(run, i, result);
    }
    SuccessesAreAnswers(results);
    places := Places(results);
  }

  /** When the batch is answered, every slot has been written. */
  lemma EverySlotIsWritten(items: nat, run: seq<Action>, i: nat)
    requires IsRun(items, run) && After(items, run).answer.Some? && i < items
    ensures |WritesTo(run, i)| == 1
  {
    var s := After(items, run);
    RunKeepsInvariant(items, run);
    AllFinished(s.phases, s.spawned, i);
    SlotsAreWrittenOnce(items, run, i);
  }
}
