/**
  The stored record of one server under concurrency. Any number of calls are in progress at once; one
  step is one SQL statement or one lock operation. Stores and invalidations hold the server's write
  lock, loads its read lock, and a failing probe writes the row with no lock at all. Locks and tables
  of different servers have nothing in common, so a reservoir is one such machine per server.
 */
module StoreProtocol {
  import opened Base
  import opened KeyRecords
  import opened Schedule
  import opened Tables

  datatype Call =
    | StoreCall(info: ServerKeys, extra: Fields, via: string, order: InsertOrder)
    | LoadCall
    | InvalidateCall
    | FailingProbe(transient: bool)

  /** What a call hands back: the record as it read it, or as it wrote it. */
  datatype Result =
    | Answer(row: Option<Row>, keys: map<KeyId, KeyRow>, signatures: map<KeyId, string>)
    | Invalidated
    | Aborted

  datatype Commit = Stored(bundle: Bundle) | Zeroed

  /** Where a call stands; the constructor names what it does next. */
  datatype Pc =
    | Waiting
    | Locked
    | RowRead(row: Option<Row>)
    | KeysRead(row: Option<Row>, keys: map<KeyId, KeyRow>)
    | Upserting
    | DeletingKeys
    | DeletingSignatures
    | Resetting
    | Inserting(todo: seq<Insert>)
    | Leaving(result: Result, commit: Option<Commit>)
    | Noting(seen: int)

  /** `now` is the call's clock reading, and `begin` says how many calls had finished when it began. */
  datatype Activity = Activity(call: Call, now: int, begin: nat, pc: Pc)

  /** A finished call: what it returned, what it changed for good, and when it returned. */
  datatype Return = Return(call: Call, begin: nat, result: Result, commit: Option<Commit>, time: int)

  datatype Reach = Never | Failed | Reached

  datatype State = State(
    tables: Tables,
    writer: Option<nat>,
    readers: set<nat>,
    active: map<nat, Activity>,
    clock: int,
    // history, which no step reads
    finished: seq<Return>,
    reach: Reach,
    aborts: nat)

  const INITIAL: State := State(EMPTY_TABLES, None, {}, map[], 1, [], Never, 0)

  datatype Action = Begin(id: nat, call: Call, now: int) | Advance(id: nat)

  // ---------------------------------------------------------------- steps

  predicate IsWrite(call: Call) {
    call.StoreCall? || call.InvalidateCall?
  }

  predicate HoldsWrite(a: Activity) {
    IsWrite(a.call) && !a.pc.Waiting?
  }

  predicate HoldsRead(a: Activity) {
    a.call.LoadCall? && !a.pc.Waiting?
  }

  /** A store is only ever called with a reply that passed validation. */
  predicate WellFormed(call: Call) {
    call.StoreCall? ==> Orders(call.order, call.info) && Validates(call.info)
  }

  predicate Enabled(st: State, action: Action) {
    match action
    case Begin(id, call, now) =>
        id !in st.active && now >= st.clock && now <= INT64_MAX - REMOTE_KEY_LIFESPAN && WellFormed(call)
    case Advance(id) =>
      && id in st.active
      && (st.active[id].pc.Waiting? ==>
            match st.active[id].call
            case LoadCall => st.writer == None
            case FailingProbe(_) => true
            case _ => st.writer == None && st.readers == {})
  }

  function At(st: State, id: nat, pc: Pc): State
    requires id in st.active
  {
    st.(active := st.active[id := st.active[id].(pc := pc)])
  }

  /** The step of a waiting call: take the lock, or, with no lock to take, read the row. */
  function Enter(st: State, id: nat): State
    requires id in st.active
  {
    match st.active[id].call
    case LoadCall => At(st.(readers := st.readers + {id}), id, Locked)
    case FailingProbe(_) => At(st, id, Noting(if st.tables.row.Some? then st.tables.row.value.originFailures else 0))
    case _ => At(st.(writer := Some(id)), id, Locked)
  }

  /** The first statement under the lock. */
  function First(st: State, id: nat): State
    requires id in st.active
  {
    var row := st.tables.row;
    match st.active[id].call
    case LoadCall =>
      At(st, id, if row.None? then Leaving(Answer(None, map[], map[]), None) else RowRead(row))
    case InvalidateCall =>
      At(st.(tables := InvalidateRemoteServer(st.tables)), id, Leaving(Invalidated, Some(Zeroed)))
    case StoreCall(info, _, via, _) =>
      At(st, id, if KeepsExisting(st.tables, info, via) then RowRead(row) else Upserting)
    case FailingProbe(_) => st
  }

  function WrittenAnswer(call: Call, now: int): Result
    requires call.StoreCall? && Storable(call.info)
  {
    Answer(Some(Row(now, call.info.validUntilTs, call.extra, call.via, 0, 0)), KeyRows(call.info),
        SignatureRows(call.info))
  }

  /** One insert, the end of the inserts, or the way out after a taken primary key. */
  function InsertOne(st: State, id: nat, call: Call, todo: seq<Insert>): State
    requires id in st.active && call.StoreCall?
  {
    if todo == [] then
      if Storable(call.info) then
        At(st, id, Leaving(WrittenAnswer(call, st.active[id].now),
            Some(Stored(ReplyBundle(call.info, call.extra, call.via)))))
      else At(st, id, Leaving(Aborted, None))
    else
      match ExecInsert(st.tables, todo[0])
      case None => At(st.(aborts := st.aborts + 1), id, Leaving(Aborted, None))
      case Some(tables) => At(st.(tables := tables), id, Inserting(todo[1..]))
  }

  /** The end of a call: release the lock and return. */
  function Leave(st: State, id: nat, result: Result, commit: Option<Commit>): State
    requires id in st.active
  {
    var a := st.active[id];
    st.(writer := if HoldsWrite(a) then None else st.writer,
        readers := st.readers - {id},
        active := st.active - {id},
        finished := st.finished + [Return(a.call, a.begin, result, commit, st.clock)])
  }

  function Note(st: State, id: nat, seen: int): State
    requires id in st.active && st.active[id].call.FailingProbe?
  {
    var a := st.active[id];
    var failures := seen + 1;
    st.(tables := NoteOriginFailure(st.tables, a.now, failures, a.now + OriginBackoff(failures, a.call.transient)),
        active := st.active - {id},
        reach := Failed)
  }

  function Next(st: State, action: Action): State
    requires Enabled(st, action)
  {
    match action
    case Begin(id, call, now) =>
      st.(active := st.active[id := Activity(call, now, |st.finished|, Waiting)], clock := now)
    case Advance(id) =>
      var a := st.active[id];
      match a.pc
      case Waiting => Enter(st, id)
      case Locked => First(st, id)
      case RowRead(row) => At(st, id, KeysRead(row, st.tables.keys))
      case KeysRead(row, keys) => At(st, id, Leaving(Answer(row, keys, st.tables.signatures), None))
      case Leaving(result, commit) => Leave(st, id, result, commit)
      case Noting(seen) => if a.call.FailingProbe? then Note(st, id, seen) else st
      case _ => if a.call.StoreCall? then NextOfStore(st, id, a.call) else st
  }

  /** The write path of a store, statement by statement. */
  function NextOfStore(st: State, id: nat, call: Call): State
    requires id in st.active && call.StoreCall?
  {
    match st.active[id].pc
    case Upserting =>
      At(st.(tables := UpsertRemoteServer(st.tables, st.active[id].now, call.info.validUntilTs, call.extra, call.via)),
          id, DeletingKeys)
    case DeletingKeys => At(st.(tables := DeleteRemoteKeys(st.tables)), id, DeletingSignatures)
    case DeletingSignatures =>
      At(st.(tables := DeleteRemoteSignatures(st.tables)), id,
         if call.via == "" then Resetting else StartInserting(call))
    case Resetting => At(st.(tables := ResetOriginProbe(st.tables), reach := Reached), id, StartInserting(call))
    case Inserting(todo) => InsertOne(st, id, call, todo)
    case _ => st
  }

  function StartInserting(call: Call): Pc
    requires call.StoreCall?
  {
    Inserting(if Orders(call.order, call.info) then Inserts(call.info, call.order) else [])
  }

  // ---------------------------------------------------------------- runs

  /** The state after a run; None when some action of it was not enabled. */
  function Run(st: State, actions: seq<Action>): Option<State>
    decreases |actions|
  {
    if actions == [] then Some(st)
    else if Enabled(st, actions[0]) then Run(Next(st, actions[0]), actions[1..])
    else None
  }

  /** Every store of the run is given a reply whose rows have distinct primary keys. */
  predicate OnlyStorable(actions: seq<Action>) {
    forall a | a in actions :: a.Begin? && a.call.StoreCall? ==> Storable(a.call.info)
  }

  /** What an atomic record holds after some calls have run one after another. */
  function Replay(calls: seq<Return>): Bundle {
    if calls == [] then EMPTY_BUNDLE
    else
      var before := Replay(calls[..|calls| - 1]);
      match calls[|calls| - 1].commit
      case None => before
      case Some(Stored(b)) => b
      case Some(Zeroed) => before.(validUntilTs := 0)
  }

  // ---------------------------------------------------------------- invariant: locks, clock, reachability

  predicate PcFits(a: Activity) {
    match a.call
    case LoadCall =>
        a.pc.Waiting? || a.pc.Locked? || a.pc.RowRead? || a.pc.KeysRead? || (a.pc.Leaving? && a.pc.commit == None)
    case InvalidateCall => a.pc.Waiting? || a.pc.Locked? || a.pc.Leaving?
    case FailingProbe(_) => a.pc.Waiting? || a.pc.Noting?
    case StoreCall(_, _, via, _) => !a.pc.Noting? && (a.pc.Resetting? ==> via == "")
  }

  predicate ActivityBasics(st: State, a: Activity) {
    && PcFits(a) && WellFormed(a.call)
    && 0 < a.now <= st.clock && a.begin <= |st.finished|
    && (a.pc.Noting? ==> a.pc.seen >= 0)
    && (a.pc.RowRead? ==> a.pc.row.Some? && a.pc.row.value.updatedTs <= st.clock && 0 <= a.pc.row.value.updatedTs)
    && (a.pc.KeysRead? ==> a.pc.row.Some? && a.pc.row.value.updatedTs <= st.clock && 0 <= a.pc.row.value.updatedTs)
    && (a.pc.Leaving? && a.pc.result.Answer? && a.pc.result.row.Some? ==>
        0 <= a.pc.result.row.value.updatedTs <= st.clock)
  }

  predicate RowBasics(st: State) {
    match st.tables.row
    case None => st.reach == Never && st.tables.keys == map[] && st.tables.signatures == map[]
    case Some(row) =>
      && 0 <= row.updatedTs <= st.clock
      && row.originFailures >= 0 && row.nextAttemptTs >= 0
      && (row.originFailures > 0 <==> st.reach == Failed)
      && (row.nextAttemptTs > 0 <==> st.reach == Failed)
  }

  ghost predicate Basics(st: State) {
    && 0 < st.clock <= INT64_MAX - REMOTE_KEY_LIFESPAN
    && RowBasics(st)
    && (forall id | id in st.active :: ActivityBasics(st, st.active[id]))
    && (forall id :: st.writer == Some(id) <==> id in st.active && HoldsWrite(st.active[id]))
    && (forall id :: id in st.readers <==> id in st.active && HoldsRead(st.active[id]))
    && (st.writer.Some? ==> st.readers == {})
    // from the upsert on, a store has a row to work on
    && (forall id | id in st.active :: PastUpsert(st.active[id]) ==> st.tables.row.Some?)
  }

  predicate PastUpsert(a: Activity) {
    a.pc.DeletingKeys? || a.pc.DeletingSignatures? || a.pc.Resetting? || a.pc.Inserting?
  }

  /** A call that keeps its locks moves on, possibly changing the tables. */
  lemma MoveKeepsBasics(st: State, st': State, id: nat, pc: Pc)
    requires Basics(st) && id in st.active && !st.active[id].pc.Waiting? && !pc.Waiting?
    requires st' == At(st, id, pc).(tables := st'.tables, reach := st'.reach, aborts := st'.aborts)
    requires RowBasics(st') && (st.tables.row.Some? ==> st'.tables.row.Some?)
    requires ActivityBasics(st', st'.active[id]) && (PastUpsert(st'.active[id]) ==> st'.tables.row.Some?)
    ensures Basics(st')
  {
    forall other | other in st'.active
      ensures ActivityBasics(st', st'.active[other]) && (PastUpsert(st'.active[other]) ==> st'.tables.row.Some?)
    {
      if other != id {
        assert st'.active[other] == st.active[other] && ActivityBasics(st, st.active[other]);
      }
    }
  }

  lemma NextKeepsBasics(st: State, action: Action)
    requires Basics(st) && Enabled(st, action)
    ensures Basics(Next(st, action))
  {
    match action
    case Begin(id, call, now) => BeginKeepsBasics(st, id, call, now);
    case Advance(id) =>
      var a := st.active[id];
      assert ActivityBasics(st, a);
      match a.pc {
        case Waiting => EnterKeepsBasics(st, id);
        case Locked => FirstKeepsBasics(st, id);
        case RowRead(row) => ReadKeepsBasics(st, id);
        case KeysRead(row, keys) => ReadKeepsBasics(st, id);
        case Leaving(result, commit) => LeaveKeepsBasics(st, id);
        case Noting(seen) => NoteKeepsBasics(st, id);
        case _ => NextOfStoreKeepsBasics(st, id);
      }
  }

  lemma BeginKeepsBasics(st: State, id: nat, call: Call, now: int)
    requires Basics(st) && Enabled(st, Begin(id, call, now))
    ensures Basics(Next(st, Begin(id, call, now)))
  {
  }

  lemma EnterKeepsBasics(st: State, id: nat)
    requires Basics(st) && Enabled(st, Advance(id)) && st.active[id].pc.Waiting?
    ensures Basics(Enter(st, id))
  {
    LocksAfterEnter(st, id);
    ActivitiesAfterEnter(st, id);
  }

  lemma LocksAfterEnter(st: State, id: nat)
    requires Basics(st) && Enabled(st, Advance(id)) && st.active[id].pc.Waiting?
    ensures var st' := Enter(st, id);
            && (forall i :: st'.writer == Some(i) <==> i in st'.active && HoldsWrite(st'.active[i]))
            && (forall i :: i in st'.readers <==> i in st'.active && HoldsRead(st'.active[i]))
            && (st'.writer.Some? ==> st'.readers == {})
  {
  }

  lemma ActivitiesAfterEnter(st: State, id: nat)
    requires Basics(st) && Enabled(st, Advance(id)) && st.active[id].pc.Waiting?
    ensures var st' := Enter(st, id);
            && st'.tables == st.tables && st'.reach == st.reach && st'.clock == st.clock
            && (forall i | i in st'.active :: ActivityBasics(st', st'.active[i]))
            && (forall i | i in st'.active && PastUpsert(st'.active[i]) :: st.tables.row.Some?)
  {
    assert ActivityBasics(st, st.active[id]);
    var st' := Enter(st, id);
    assert ActivityBasics(st', st'.active[id]) && !PastUpsert(st'.active[id]);
    forall other | other in st'.active && other != id
      ensures ActivityBasics(st', st'.active[other]) && (PastUpsert(st'.active[other]) ==> st.tables.row.Some?)
    {
      assert st'.active[other] == st.active[other] && ActivityBasics(st, st.active[other]);
    }
  }

  lemma FirstKeepsBasics(st: State, id: nat)
    requires Basics(st) && id in st.active && st.active[id].pc.Locked?
    ensures Basics(First(st, id))
  {
    assert ActivityBasics(st, st.active[id]);
    var st' := First(st, id);
    MoveKeepsBasics(st, st', id, st'.active[id].pc);
  }

  lemma ReadKeepsBasics(st: State, id: nat)
    requires Basics(st) && id in st.active && (st.active[id].pc.RowRead? || st.active[id].pc.KeysRead?)
    ensures Basics(Next(st, Advance(id)))
  {
    assert ActivityBasics(st, st.active[id]);
    var st' := Next(st, Advance(id));
    MoveKeepsBasics(st, st', id, st'.active[id].pc);
  }

  lemma LeaveKeepsBasics(st: State, id: nat)
    requires Basics(st) && id in st.active && st.active[id].pc.Leaving?
    ensures Basics(Leave(st, id, st.active[id].pc.result, st.active[id].pc.commit))
  {
  }

  lemma NoteKeepsBasics(st: State, id: nat)
    requires Basics(st) && id in st.active && st.active[id].pc.Noting? && st.active[id].call.FailingProbe?
    ensures Basics(Note(st, id, st.active[id].pc.seen))
  {
  }

  /** What one statement of the write path leaves of the call's own basics. */
  lemma StatementBasics(st: State, id: nat)
    requires id in st.active && st.active[id].call.StoreCall? && ActivityBasics(st, st.active[id]) && RowBasics(st)
    requires st.active[id].pc.Upserting? || (PastUpsert(st.active[id]) && !st.active[id].pc.Inserting?
              && st.tables.row.Some?)
    ensures var st' := NextOfStore(st, id, st.active[id].call);
            && id in st'.active && st' == At(st, id, st'.active[id].pc).(tables := st'.tables, reach := st'.reach,
                aborts := st'.aborts)
            && RowBasics(st') && st'.tables.row.Some? && ActivityBasics(st', st'.active[id])
                && !st'.active[id].pc.Waiting?
  {
  }

  lemma InsertBasics(st: State, id: nat)
    requires id in st.active && st.active[id].call.StoreCall? && ActivityBasics(st, st.active[id]) && RowBasics(st)
    requires st.active[id].pc.Inserting? && st.tables.row.Some?
    ensures var st' := NextOfStore(st, id, st.active[id].call);
            && id in st'.active && st' == At(st, id, st'.active[id].pc).(tables := st'.tables, aborts := st'.aborts)
            && RowBasics(st') && st'.tables.row.Some? && ActivityBasics(st', st'.active[id])
                && !st'.active[id].pc.Waiting?
  {
    var todo := st.active[id].pc.todo;
    if todo != [] {
      ExecInsertKeepsRow(st.tables, todo[0]);
    }
  }

  lemma ExecInsertKeepsRow(t: Tables, insert: Insert)
    ensures ExecInsert(t, insert).Some? ==> ExecInsert(t, insert).value.row == t.row
  {
  }

  lemma NextOfStoreKeepsBasics(st: State, id: nat)
    requires Basics(st) && id in st.active && st.active[id].call.StoreCall?
    requires PastUpsert(st.active[id]) || st.active[id].pc.Upserting?
    ensures Basics(NextOfStore(st, id, st.active[id].call))
  {
    if st.active[id].pc.Inserting? {
      InsertBasics(st, id);
    } else {
      StatementBasics(st, id);
    }
    var st' := NextOfStore(st, id, st.active[id].call);
    MoveKeepsBasics(st, st', id, st'.active[id].pc);
  }

  lemma {:induction false} RunKeepsBasics(st: State, actions: seq<Action>)
    requires Basics(st) && Run(st, actions).Some?
    ensures Basics(Run(st, actions).value)
    decreases |actions|
  {
    if actions == [] {
    } else {
      NextKeepsBasics(st, actions[0]);
      RunKeepsBasics(Next(st, actions[0]), actions[1..]);
    }
  }
}
