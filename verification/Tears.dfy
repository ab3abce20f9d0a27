/**
  Replies whose rows share a key id: their store stops half-way, and the next load returns what is there.
  Snapshot consistency holds for exactly the other replies.
 */
module Tears {
  import opened Base
  import opened KeyRecords
  import opened Schedule
  import opened Tables
  import opened StoreProtocol
  import opened StoreConsistency

  lemma {:induction false} RunConcat(st: State, a: seq<Action>, b: seq<Action>)
    requires Run(st, a).Some?
    ensures Run(st, a + b) == Run(Run(st, a).value, b)
    decreases |a|
  {
    if a == [] {
      assert a + b == b;
    } else {
      assert (a + b)[0] == a[0] && (a + b)[1..] == a[1..] + b;
      RunConcat(Next(st, a[0]), a[1..], b);
    }
  }

  /** A call advancing alone, a given number of times. */
  function Steps(id: nat, n: nat): seq<Action> {
    if n == 0 then [] else [Advance(id)] + Steps(id, n - 1)
  }

  lemma OneMore(st: State, id: nat, n: nat)
    requires n > 0 && Enabled(st, Advance(id))
    ensures Run(st, Steps(id, n)) == Run(Next(st, Advance(id)), Steps(id, n - 1))
  {
    assert Steps(id, n)[1..] == Steps(id, n - 1);
  }

  lemma {:induction false} StepsHaveNoBegin(id: nat, n: nat)
    ensures forall a | a in Steps(id, n) :: !a.Begin?
  {
    if n == 0 {
    } else {
      StepsHaveNoBegin(id, n - 1);
    }
  }

  /** Nobody is at work on the record. */
  predicate Idle(st: State) {
    st.writer == None && st.readers == {} && st.active == map[] && IsClock(st.clock)
  }

  // ---------------------------------------------------------------- a store on its own

  /** The state in which a store that writes, run alone, starts to insert. */
  function AboutToInsert(st: State, call: Call): State
    requires call.StoreCall? && WellFormed(call)
  {
    st.(
      tables := Cleared(st.tables, call.info, call.extra, call.via, st.clock),
      writer := Some(0),
      active := map[0 := Activity(call, st.clock, |st.finished|, Inserting(Inserts(call.info, call.order)))],
      reach := if call.via == "" then Reached else st.reach)
  }

  /** How many steps that takes: a direct store has one statement more. */
  function StepsToInserts(call: Call): nat
    requires call.StoreCall?
  {
    if call.via == "" then 6 else 5
  }

  /** The state in which the call runs alone and holds the lock. */
  function Writing(st: State, call: Call, tables: Tables, reach: Reach, pc: Pc): State {
    st.(tables := tables, writer := Some(0), active := map[0 := Activity(call, st.clock, |st.finished|, pc)],
        reach := reach)
  }

  lemma StaysWriting(st: State, call: Call, t: Tables, reach: Reach, pc: Pc)
    ensures forall t', reach', pc' ::
              At(Writing(st, call, t, reach, pc).(tables := t', reach := reach'), 0, pc') ==
              Writing(st, call, t', reach', pc')
  {
    forall t', reach', pc'
      ensures At(Writing(st, call, t, reach, pc).(tables := t', reach := reach'), 0, pc') ==
              Writing(st, call, t', reach', pc')
    {
      var a := Activity(call, st.clock, |st.finished|, pc);
      assert map[0 := a][0 := a.(pc := pc')] == map[0 := a.(pc := pc')];
    }
  }

  lemma WritingSteps(st: State, call: Call, t: Tables, reach: Reach, pc: Pc)
    requires call.StoreCall? && WellFormed(call) && !pc.Waiting?
    ensures Enabled(Writing(st, call, t, reach, pc), Advance(0))
    ensures var next := Next(Writing(st, call, t, reach, pc), Advance(0));
            match pc
            case Locked => !KeepsExisting(t, call.info, call.via) ==> next == Writing(st, call, t, reach, Upserting)
            case Upserting =>
              var upserted := UpsertRemoteServer(t, st.clock, call.info.validUntilTs, call.extra, call.via);
              next == Writing(st, call, upserted, reach, DeletingKeys)
            case DeletingKeys => next == Writing(st, call, DeleteRemoteKeys(t), reach, DeletingSignatures)
            case DeletingSignatures =>
              next == Writing(st, call, DeleteRemoteSignatures(t), reach,
                              if call.via == "" then Resetting else StartInserting(call))
            case Resetting => next == Writing(st, call, ResetOriginProbe(t), Reached, StartInserting(call))
            case _ => true
  {
    StaysWriting(st, call, t, reach, pc);
  }

  /** The state after the first two steps: the lock is held, and the store has decided to write. */
  lemma StoreStarts(st: State, call: Call)
    requires Idle(st) && call.StoreCall? && WellFormed(call) && !KeepsExisting(st.tables, call.info, call.via)
    ensures var n := StepsToInserts(call);
            Run(st, [Begin(0, call, st.clock)] + Steps(0, n))
            == Run(Writing(st, call, st.tables, st.reach, Upserting), Steps(0, n - 2))
  {
    var n := StepsToInserts(call);
    var s0 := Next(st, Begin(0, call, st.clock));
    var s1 := Next(s0, Advance(0));
    assert s1 == Writing(st, call, st.tables, st.reach, Locked);
    WritingSteps(st, call, st.tables, st.reach, Locked);
    OneMore(s0, 0, n);
    OneMore(s1, 0, n - 1);
    var actions := [Begin(0, call, st.clock)] + Steps(0, n);
    assert actions[0] == Begin(0, call, st.clock) && actions[1..] == Steps(0, n);
  }

  lemma StoreReachesItsInserts(st: State, call: Call)
    requires Idle(st) && call.StoreCall? && WellFormed(call) && !KeepsExisting(st.tables, call.info, call.via)
    ensures Run(st, [Begin(0, call, st.clock)] + Steps(0, StepsToInserts(call))) == Some(AboutToInsert(st, call))
  {
    var n, t0, reach := StepsToInserts(call), st.tables, st.reach;
    var t1 := UpsertRemoteServer(t0, st.clock, call.info.validUntilTs, call.extra, call.via);
    var t2 := DeleteRemoteKeys(t1);
    var t3 := DeleteRemoteSignatures(t2);
    StoreStarts(st, call);
    WritingSteps(st, call, t0, reach, Upserting);
    OneMore(Writing(st, call, t0, reach, Upserting), 0, n - 2);
    WritingSteps(st, call, t1, reach, DeletingKeys);
    OneMore(Writing(st, call, t1, reach, DeletingKeys), 0, n - 3);
    WritingSteps(st, call, t2, reach, DeletingSignatures);
    OneMore(Writing(st, call, t2, reach, DeletingSignatures), 0, n - 4);
    WritesLastStatement(st, call, t3);
  }

  lemma WritesLastStatement(st: State, call: Call, t: Tables)
    requires call.StoreCall? && WellFormed(call)
    requires t == DeleteRemoteSignatures(DeleteRemoteKeys(UpsertRemoteServer(st.tables, st.clock,
                 call.info.validUntilTs, call.extra, call.via)))
    ensures var pc := if call.via == "" then Resetting else StartInserting(call);
            Run(Writing(st, call, t, st.reach, pc), Steps(0, StepsToInserts(call) - 5)) == Some(AboutToInsert(st, call))
  {
    if call.via == "" {
      WritingSteps(st, call, t, st.reach, Resetting);
      OneMore(Writing(st, call, t, st.reach, Resetting), 0, 1);
    }
  }

  /** Inserts that cannot all succeed end in an abort that leaves the rows inserted so far. */
  lemma {:induction false} InsertsAbort(st: State, id: nat, todo: seq<Insert>) returns (n: nat)
    requires id in st.active && st.active[id].call.StoreCall? && st.active[id].pc == Inserting(todo)
    requires !RunInserts(st.tables, todo).ok
    ensures Run(st, Steps(id, n)) ==
            Some(At(st, id, Leaving(Aborted, None)).(tables := RunInserts(st.tables, todo).tables,
                aborts := st.aborts + 1))
    decreases |todo|
  {
    var st' := Next(st, Advance(id));
    match ExecInsert(st.tables, todo[0])
    case None =>
      n := 1;
      assert Steps(id, 1) == [Advance(id)] + [];
      assert Run(st', []) == Some(st');
    case Some(tables) =>
      var m := InsertsAbort(st', id, todo[1..]);
      n := m + 1;
      assert Steps(id, n)[0] == Advance(id) && Steps(id, n)[1..] == Steps(id, m);
      assert At(st', id, Leaving(Aborted, None)).active == At(st, id, Leaving(Aborted, None)).active;
  }

  /** The half-written record that an aborted store leaves behind, with nothing committed. */
  function TornState(st: State, call: Call): State
    requires call.StoreCall? && WellFormed(call)
  {
    var start := AboutToInsert(st, call);
    st.(
      tables := RunInserts(start.tables, Inserts(call.info, call.order)).tables,
      finished := st.finished + [Return(call, |st.finished|, Aborted, None, st.clock)],
      reach := start.reach,
      aborts := st.aborts + 1)
  }

  lemma AbortedReturns(st: State, call: Call, aborted: State)
    requires Idle(st) && call.StoreCall? && WellFormed(call)
    requires aborted == At(AboutToInsert(st, call), 0, Leaving(Aborted, None)).(
                 tables := TornState(st, call).tables, aborts := st.aborts + 1)
    ensures Next(aborted, Advance(0)) == TornState(st, call)
  {
  }

  lemma InsertsLeaveTorn(st: State, call: Call) returns (n: nat)
    requires Idle(st) && call.StoreCall? && WellFormed(call) && !Storable(call.info)
    ensures Run(AboutToInsert(st, call), Steps(0, n) + Steps(0, 1)) == Some(TornState(st, call))
  {
    var s, inserts := AboutToInsert(st, call), Inserts(call.info, call.order);
    ClearedMeaning(st.tables, call.info, call.extra, call.via, st.clock);
    InsertsSucceedIffStorable(s.tables, call.info, call.order);
    n := InsertsAbort(s, 0, inserts);
    var aborted := At(s, 0, Leaving(Aborted, None)).(tables := RunInserts(s.tables, inserts).tables,
        aborts := s.aborts + 1);
    RunConcat(s, Steps(0, n), Steps(0, 1));
    OneMore(aborted, 0, 1);
    AbortedReturns(st, call, aborted);
  }

  /** The store of a reply that is not storable, run alone on any record that it may overwrite, tears the record. */
  lemma UnstorableTears(st: State, call: Call) returns (actions: seq<Action>)
    requires Idle(st) && call.StoreCall? && WellFormed(call)
    requires !KeepsExisting(st.tables, call.info, call.via) && !Storable(call.info)
    ensures Run(st, actions) == Some(TornState(st, call)) && Idle(TornState(st, call))
    ensures forall a | a in actions && a.Begin? :: a.call == call
  {
    StoreReachesItsInserts(st, call);
    var n := InsertsLeaveTorn(st, call);
    var start := [Begin(0, call, st.clock)] + Steps(0, StepsToInserts(call));
    RunConcat(st, start, Steps(0, n) + Steps(0, 1));
    actions := start + (Steps(0, n) + Steps(0, 1));
    StepsHaveNoBegin(0, StepsToInserts(call));
    StepsHaveNoBegin(0, n);
    StepsHaveNoBegin(0, 1);
  }

  // ---------------------------------------------------------------- a load afterwards

  /** What a load returns that runs alone on an idle record. */
  function LoadReturn(st: State): Return {
    Return(LoadCall, |st.finished|, Answer(st.tables.row, st.tables.keys, st.tables.signatures), None, st.clock)
  }

  /** The state in which a load runs alone and holds the lock. */
  function Reading(st: State, pc: Pc): State {
    st.(readers := {0}, active := map[0 := Activity(LoadCall, st.clock, |st.finished|, pc)])
  }

  lemma ReadingSteps(st: State)
    requires Idle(st) && st.tables.row.Some?
    ensures var t := st.tables;
            var rowRead, leaves := RowRead(t.row), Leaving(LoadReturn(st).result, None);
            && Next(Reading(st, Locked), Advance(0)) == Reading(st, rowRead)
            && Next(Reading(st, rowRead), Advance(0)) == Reading(st, KeysRead(t.row, t.keys))
            && Next(Reading(st, KeysRead(t.row, t.keys)), Advance(0)) == Reading(st, leaves)
            && Next(Reading(st, leaves), Advance(0)) == st.(finished := st.finished + [LoadReturn(st)])
  {
  }

  lemma LoadRuns(st: State)
    requires Idle(st) && st.tables.row.Some?
    ensures Run(st, [Begin(0, LoadCall, st.clock)] + Steps(0, 5)) ==
              Some(st.(finished := st.finished + [LoadReturn(st)]))
  {
    var s0 := Next(st, Begin(0, LoadCall, st.clock));
    var s1 := Reading(st, Locked);
    var s2 := Reading(st, RowRead(st.tables.row));
    var s3 := Reading(st, KeysRead(st.tables.row, st.tables.keys));
    var s4 := Reading(st, Leaving(LoadReturn(st).result, None));
    assert Next(s0, Advance(0)) == s1;
    ReadingSteps(st);
    OneMore(s0, 0, 5);
    OneMore(s1, 0, 4);
    OneMore(s2, 0, 3);
    OneMore(s3, 0, 2);
    OneMore(s4, 0, 1);
    var actions := [Begin(0, LoadCall, st.clock)] + Steps(0, 5);
    assert actions[0] == Begin(0, LoadCall, st.clock) && actions[1..] == Steps(0, 5);
  }

  /** Loading a record that differs from what the completed calls left returns what no atomic run explains. */
  lemma TornIsLoaded(st: State) returns (actions: seq<Action>)
    requires Idle(st) && st.tables.row.Some? && BundleOf(st.tables) != Replay(st.finished)
    ensures Run(st, actions).Some?
    ensures var end := Run(st, actions).value;
            && |end.finished| == |st.finished| + 1
            && end.finished[|st.finished|].call == LoadCall
            && !Explains(Replay(end.finished[..|st.finished|]), end.finished[|st.finished|])
    ensures forall a | a in actions && a.Begin? :: a.call == LoadCall
  {
    LoadRuns(st);
    actions := [Begin(0, LoadCall, st.clock)] + Steps(0, 5);
    StepsHaveNoBegin(0, 5);
    assert (st.finished + [LoadReturn(st)])[..|st.finished|] == st.finished;
  }

  // ---------------------------------------------------------------- theorems

  /** A run that stores one reply only, any number of times and however interleaved with other calls. */
  predicate StoresOnly(actions: seq<Action>, call: Call) {
    forall a | a in actions :: a.Begin? && a.call.StoreCall? ==> a.call == call
  }

  ghost predicate LoadsExplained(finished: seq<Return>) {
    forall i | 0 <= i < |finished| :: finished[i].call == LoadCall ==> Explains(Replay(finished[..i]), finished[i])
  }

  /** What a torn record holds: keys, and a row of which nothing was committed. */
  lemma TornMeaning(st: State, call: Call)
    requires call.StoreCall? && WellFormed(call)
    ensures var torn := TornState(st, call);
            && torn.tables.row.Some? && torn.tables.keys != map[]
            && torn.finished[..|st.finished|] == st.finished && Replay(torn.finished) == Replay(st.finished)
  {
    var torn := TornState(st, call);
    ClearedMeaning(st.tables, call.info, call.extra, call.via, st.clock);
    InsertsSucceedIffStorable(AboutToInsert(st, call).tables, call.info, call.order);
    var id :| id in call.info.verifyKeys;
    assert id in torn.tables.keys;
    assert torn.finished[..|st.finished|] == st.finished;
  }

  /**
    Exactly when a reply, direct or a notary's, can be stored without ever showing a mixture: when no two of
    its rows share a key id. A reply that lists an id both as current and as old can pass verification; it
    makes its store stop half-way, and the half-written record is what the next load returns.
   */
  lemma ConsistentIffStorable(call: Call)
    requires call.StoreCall? && WellFormed(call)
    ensures Storable(call.info) <==>
            forall actions | Run(INITIAL, actions).Some? && StoresOnly(actions, call) ::
              LoadsExplained(Run(INITIAL, actions).value.finished)
  {
    if Storable(call.info) {
      forall actions | Run(INITIAL, actions).Some? && StoresOnly(actions, call)
        ensures LoadsExplained(Run(INITIAL, actions).value.finished)
      {
        SnapshotConsistency(actions);
      }
    } else {
      var tear := UnstorableTears(INITIAL, call);
      var torn := TornState(INITIAL, call);
      TornMeaning(INITIAL, call);
      var load := TornIsLoaded(torn);
      RunConcat(INITIAL, tear, load);
      var actions := tear + load;
      assert StoresOnly(actions, call);
      var finished := Run(INITIAL, actions).value.finished;
      assert finished[|torn.finished|].call == LoadCall;
      assert !LoadsExplained(finished);
    }
  }

  /** A row that a reply brings for a key id. */
  predicate IsRowOf(info: ServerKeys, id: KeyId, row: KeyRow) {
    || (id in info.verifyKeys && row == KeyRow(info.verifyKeys[id], 0))
    || (id in info.OldKeys() && row == KeyRow(info.OldKeys()[id].key, info.OldKeys()[id].expiredTs))
  }

  predicate RowsOf(info: ServerKeys, keys: map<KeyId, KeyRow>) {
    forall id | id in keys :: IsRowOf(info, id, keys[id])
  }

  /** With an id both current and old, the inserts stop before the first signature, at keys of the reply. */
  lemma ClashStopsAtTheKeys(t: Tables, info: ServerKeys, order: InsertOrder)
    requires Orders(order, info) && t.keys == map[] && t.signatures == map[]
    requires !(info.verifyKeys.Keys !! info.OldKeys().Keys)
    ensures var out := RunInserts(t, Inserts(info, order));
            out.tables.signatures == map[] && RowsOf(info, out.tables.keys)
  {
    KeysThenSignatures(t, info, order);
    KeysInsertedAreListed(t, order.current, CurrentRows(info.verifyKeys));
    RunInsertsConcat(t, KeyInserts(order.current, CurrentRows(info.verifyKeys)),
        KeyInserts(order.expired, ExpiredRows(info.OldKeys())));
    var mid := RunInserts(t, KeyInserts(order.current, CurrentRows(info.verifyKeys))).tables;
    KeysInsertedAreListed(mid, order.expired, ExpiredRows(info.OldKeys()));
  }

  lemma {:induction false} KeysInsertedAreListed(t: Tables, order: seq<KeyId>, rows: map<KeyId, KeyRow>)
    requires Elements(order) <= rows.Keys
    ensures forall id | id in RunInserts(t, KeyInserts(order, rows)).tables.keys ::
              var row := RunInserts(t, KeyInserts(order, rows)).tables.keys[id];
              (id in t.keys && row == t.keys[id]) || (id in rows && row == rows[id])
    decreases |order|
  {
    if order == [] {
    } else {
      var inserts, rest := KeyInserts(order, rows), order[1..];
      FirstElement(order);
      assert inserts[0] == KeyInsert(order[0], rows[order[0]]) && inserts[1..] == KeyInserts(rest, rows);
      if order[0] !in t.keys {
        KeysInsertedAreListed(t.(keys := t.keys[order[0] := rows[order[0]]]), rest, rows);
      }
    }
  }

  /** What the store of a reply with an id both current and old leaves: its row, keys of its own, no signature. */
  lemma TornByAClash(st: State, call: Call)
    requires call.StoreCall? && WellFormed(call) && !(call.info.verifyKeys.Keys !! call.info.OldKeys().Keys)
    ensures var t := TornState(st, call).tables;
            && t.row.Some? && t.row.value.extra == call.extra
            && t.keys != map[] && RowsOf(call.info, t.keys) && t.signatures == map[]
  {
    TornMeaning(st, call);
    ClearedMeaning(st.tables, call.info, call.extra, call.via, st.clock);
    InsertsSucceedIffStorable(AboutToInsert(st, call).tables, call.info, call.order);
    ClashStopsAtTheKeys(AboutToInsert(st, call).tables, call.info, call.order);
  }

  /** The run ends with a load that returns the torn record, which no atomic run explains. */
  predicate EndsWithATornLoad(st: State, call: Call, end: State)
    requires call.StoreCall? && WellFormed(call)
  {
    var torn, n := TornState(st, call).tables, |st.finished|;
    && end.tables == torn && |end.finished| == n + 2
    && end.finished[n + 1].call == LoadCall
    && end.finished[n + 1].result == Answer(torn.row, torn.keys, torn.signatures)
    && !Explains(Replay(end.finished[..n + 1]), end.finished[n + 1])
  }

  /**
    A tear destroys what was held. On any idle record that holds a signed copy which the reply may overwrite,
    a reply with an id both current and old leaves no signature, no key but its own, and a record that
    the next load returns although no completed call wrote it.
   */
  lemma TearDestroysTheHeldCopy(st: State, call: Call) returns (actions: seq<Action>)
    requires Idle(st) && BundleOf(st.tables) == Replay(st.finished) && st.tables.signatures != map[]
    requires call.StoreCall? && WellFormed(call) && !KeepsExisting(st.tables, call.info, call.via)
    requires !(call.info.verifyKeys.Keys !! call.info.OldKeys().Keys)
    ensures Run(st, actions).Some? && EndsWithATornLoad(st, call, Run(st, actions).value)
    ensures var t := Run(st, actions).value.tables; t.signatures == map[] && RowsOf(call.info, t.keys)
  {
    var tear := UnstorableTears(st, call);
    var torn := TornState(st, call);
    TornMeaning(st, call);
    TornByAClash(st, call);
    assert BundleOf(torn.tables).signatures == map[] != Replay(st.finished).signatures;
    LoadRuns(torn);
    var load := [Begin(0, LoadCall, torn.clock)] + Steps(0, 5);
    RunConcat(st, tear, load);
    actions := tear + load;
    assert (torn.finished + [LoadReturn(torn)])[..|torn.finished|] == torn.finished;
  }
}
