/**
  Snapshot consistency of the store: every interleaving looks as if the finished calls had run one
  after another on an atomic record, in the order in which they returned.
 */
module StoreConsistency {
  import opened Base
  import opened Tables
  import opened StoreProtocol

  // ---------------------------------------------------------------- the atomic record

  predicate AnswerIs(result: Result, bundle: Bundle) {
    result.Answer? && RowBundle(result.row, result.keys, result.signatures) == bundle
  }

  /** The atomic upgrade rule. A notary's copy no better than nothing may still fill an empty record. */
  predicate MayWrite(before: Bundle, call: Call)
    requires call.StoreCall?
  {
    call.via == "" || call.info.validUntilTs > before.validUntilTs || before == EMPTY_BUNDLE
  }

  predicate MayKeep(before: Bundle, call: Call)
    requires call.StoreCall?
  {
    call.via != "" && call.info.validUntilTs <= before.validUntilTs
  }

  /** One call, run alone on an atomic record holding `before`, can return and commit what it did. */
  predicate Explains(before: Bundle, r: Return) {
    match r.call
    case LoadCall => r.commit == None && AnswerIs(r.result, before)
    case InvalidateCall => r.commit == Some(Zeroed) && r.result == Invalidated
    case FailingProbe(_) => false
    case StoreCall(info, extra, via, _) =>
      && WellFormed(r.call) && Storable(info)
      && match r.commit
         case None => MayKeep(before, r.call) && AnswerIs(r.result, before)
         case Some(c) =>
             MayWrite(before, r.call) && c == Stored(ReplyBundle(info, extra, via)) && AnswerIs(r.result, c.bundle)
  }

  /** The finished calls, in the order of their returns, are a run of the atomic record. */
  ghost predicate Linear(finished: seq<Return>) {
    forall i | 0 <= i < |finished| :: finished[i].begin <= i && Explains(Replay(finished[..i]), finished[i])
  }

  // ---------------------------------------------------------------- invariant

  /** The tables as the insert statements see them: the row does not matter. */
  function WithoutRow(t: Tables): Tables {
    t.(row := None)
  }

  predicate RowMatches(t: Tables, call: Call)
    requires call.StoreCall?
  {
    && t.row.Some?
    && t.row.value.validUntilTs == call.info.validUntilTs && t.row.value.extra == call.extra
        && t.row.value.via == call.via
  }

  /** The writer has changed nothing, or has finished changing things without a commit to make. */
  predicate Unchanged(pc: Pc) {
    pc.Locked? || pc.RowRead? || pc.KeysRead? || pc.Upserting? || (pc.Leaving? && pc.commit == None)
  }

  /** What the tables hold while the write lock is held, relative to the atomic record. */
  predicate WriterData(t: Tables, committed: Bundle, a: Activity) {
    && (Unchanged(a.pc) ==> BundleOf(t) == committed)
    && (a.pc.Leaving? && a.call.InvalidateCall? ==>
          a.pc.commit == Some(Zeroed) && a.pc.result == Invalidated && BundleOf(t) == committed.(validUntilTs := 0))
    && (a.call.StoreCall? ==>
          && Storable(a.call.info)
          && (a.pc.RowRead? || a.pc.KeysRead? || (a.pc.Leaving? && a.pc.commit == None) ==> MayKeep(committed, a.call))
          && (a.pc.Leaving? && a.pc.commit == None ==> a.pc.result.Answer?)
          && (a.pc.Upserting? || PastUpsert(a) || (a.pc.Leaving? && a.pc.commit != None) ==>
              MayWrite(committed, a.call))
          && (PastUpsert(a) ==> RowMatches(t, a.call))
          && (a.pc.DeletingSignatures? || a.pc.Resetting? ==> t.keys == map[])
          && (a.pc.Resetting? ==> t.signatures == map[])
          && (a.pc.Inserting? ==>
                RunInserts(WithoutRow(t), a.pc.todo) == InsertsOutcome(Tables(None, KeyRows(a.call.info),
                    SignatureRows(a.call.info)), true))
          && (a.pc.Leaving? && a.pc.commit != None ==>
                var b := ReplyBundle(a.call.info, a.call.extra, a.call.via);
                a.pc.commit == Some(Stored(b)) && AnswerIs(a.pc.result, b) && BundleOf(t) == b))
  }

  /** What a call has read so far agrees with the atomic record. */
  predicate ReadData(t: Tables, committed: Bundle, pc: Pc) {
    && (pc.RowRead? ==> RowBundle(pc.row, t.keys, t.signatures) == committed)
    && (pc.KeysRead? ==> RowBundle(pc.row, pc.keys, t.signatures) == committed)
    && (pc.Leaving? && pc.commit == None && pc.result.Answer? ==> AnswerIs(pc.result, committed))
  }

  predicate ActivityData(st: State, a: Activity) {
    && (a.call.StoreCall? ==> Storable(a.call.info))
    && (HoldsWrite(a) ==> WriterData(st.tables, Replay(st.finished), a))
    && (HoldsRead(a) || HoldsWrite(a) ==> ReadData(st.tables, Replay(st.finished), a.pc))
    && (a.pc.Leaving? && a.call.LoadCall? ==> a.pc.result.Answer? && a.pc.commit == None)
  }

  ghost predicate Data(st: State) {
    && (st.writer == None ==> BundleOf(st.tables) == Replay(st.finished))
    && (forall id | id in st.active :: ActivityData(st, st.active[id]))
    && Linear(st.finished)
    && st.aborts == 0
  }

  predicate Clean(action: Action) {
    action.Begin? && action.call.StoreCall? ==> Storable(action.call.info)
  }

  lemma InsertIgnoresRow(t: Tables, insert: Insert)
    ensures ExecInsert(t, insert).None? <==> ExecInsert(WithoutRow(t), insert).None?
    ensures ExecInsert(t, insert).Some? ==>
              && WithoutRow(ExecInsert(t, insert).value) == ExecInsert(WithoutRow(t), insert).value
              && ExecInsert(t, insert).value.row == t.row
  {
  }

  /** The holder of the write lock moves on: nobody else has anything to say about the tables. */
  lemma WriterMoves(st: State, st': State, id: nat, pc: Pc)
    requires Basics(st) && Data(st) && st.writer == Some(id)
    requires id in st.active
    requires st' == At(st, id, pc).(tables := st'.tables, reach := st'.reach)
    requires ActivityData(st', st'.active[id])
    ensures Data(st')
  {
    forall other | other in st'.active ensures ActivityData(st', st'.active[other]) {
      if other != id {
        var a := st.active[other];
        assert st'.active[other] == a && ActivityData(st, a);
        assert !HoldsWrite(a);
        assert other !in st.readers;
      }
    }
  }

  /** Whoever gets a lock finds the tables as the atomic record. */
  lemma EnteringData(st: State, id: nat)
    requires Enabled(st, Advance(id)) && st.active[id].pc.Waiting? && ActivityData(st, st.active[id])
    requires st.writer == None ==> BundleOf(st.tables) == Replay(st.finished)
    ensures var st' := Enter(st, id);
            id in st'.active && ActivityData(st', st'.active[id])
  {
  }

  lemma EnterKeepsData(st: State, id: nat)
    requires Basics(st) && Data(st) && Enabled(st, Advance(id)) && st.active[id].pc.Waiting?
    ensures Data(Enter(st, id))
  {
    EnteringData(st, id);
    var st' := Enter(st, id);
    assert st'.tables == st.tables && st'.finished == st.finished && st'.active.Keys == st.active.Keys;
    forall other | other in st'.active && other != id ensures ActivityData(st', st'.active[other]) {
      assert st'.active[other] == st.active[other] && ActivityData(st, st.active[other]);
    }
  }

  /** A reader's steps change no table. */
  lemma ReaderMoves(st: State, id: nat)
    requires Basics(st) && Data(st) && id in st.active && HoldsRead(st.active[id]) && !st.active[id].pc.Leaving?
    ensures Data(Next(st, Advance(id)))
  {
    var a := st.active[id];
    assert ActivityBasics(st, a) && ActivityData(st, a);
    assert id in st.readers && st.writer == None;
    var st' := Next(st, Advance(id));
    forall other | other in st'.active ensures ActivityData(st', st'.active[other]) {
      if other != id {
        assert st'.active[other] == st.active[other] && ActivityData(st, st.active[other]);
      }
    }
  }

  /** The first steps under the write lock keep to the atomic record. */
  lemma DecisionData(st: State, id: nat)
    requires id in st.active && HoldsWrite(st.active[id]) && ActivityBasics(st, st.active[id])
              && ActivityData(st, st.active[id])
    requires RowBasics(st)
    requires st.active[id].pc.Locked? || st.active[id].pc.RowRead? || st.active[id].pc.KeysRead?
    ensures var st' := Next(st, Advance(id));
            id in st'.active && st' == At(st, id, st'.active[id].pc).(tables := st'.tables)
                && ActivityData(st', st'.active[id])
  {
  }

  lemma WriterDecides(st: State, id: nat)
    requires Basics(st) && Data(st) && id in st.active && HoldsWrite(st.active[id])
    requires st.active[id].pc.Locked? || st.active[id].pc.RowRead? || st.active[id].pc.KeysRead?
    ensures Data(Next(st, Advance(id)))
  {
    assert ActivityBasics(st, st.active[id]) && ActivityData(st, st.active[id]);
    DecisionData(st, id);
    var st' := Next(st, Advance(id));
    WriterMoves(st, st', id, st'.active[id].pc);
  }

  predicate Rewriting(pc: Pc) {
    pc.Upserting? || pc.DeletingKeys? || pc.DeletingSignatures? || pc.Resetting?
  }

  /** The upsert, the deletes and the reset of a store keep to what its reply says. */
  lemma RewriteData(st: State, id: nat)
    requires id in st.active && st.active[id].call.StoreCall? && Rewriting(st.active[id].pc)
    requires ActivityBasics(st, st.active[id]) && ActivityData(st, st.active[id])
    ensures var st' := Next(st, Advance(id));
            && id in st'.active && st' == At(st, id, st'.active[id].pc).(tables := st'.tables, reach := st'.reach)
            && ActivityData(st', st'.active[id])
  {
    var st' := Next(st, Advance(id));
    var call := st.active[id].call;
    if st'.active[id].pc.Inserting? {
      InsertsSucceedIffStorable(WithoutRow(st'.tables), call.info, call.order);
    }
  }

  lemma WriterRewrites(st: State, id: nat)
    requires Basics(st) && Data(st) && id in st.active && st.active[id].call.StoreCall? && Rewriting(st.active[id].pc)
    ensures Data(Next(st, Advance(id)))
  {
    assert ActivityBasics(st, st.active[id]) && ActivityData(st, st.active[id]);
    RewriteData(st, id);
    var st' := Next(st, Advance(id));
    WriterMoves(st, st', id, st'.active[id].pc);
  }

  /** One insert leaves the rest of the inserts to lead to the reply's rows. */
  lemma InsertData(st: State, id: nat)
    requires id in st.active && st.active[id].call.StoreCall? && st.active[id].pc.Inserting?
              && st.active[id].pc.todo != []
    requires ActivityBasics(st, st.active[id]) && ActivityData(st, st.active[id])
    ensures var st' := Next(st, Advance(id));
            id in st'.active && st' == At(st, id, st'.active[id].pc).(tables := st'.tables)
                && ActivityData(st', st'.active[id])
  {
    InsertIgnoresRow(st.tables, st.active[id].pc.todo[0]);
  }

  /** When no inserts are left, the tables hold the reply. */
  lemma InsertsDoneData(st: State, id: nat)
    requires id in st.active && st.active[id].call.StoreCall? && st.active[id].pc.Inserting?
              && st.active[id].pc.todo == []
    requires ActivityBasics(st, st.active[id]) && ActivityData(st, st.active[id])
    ensures var st' := Next(st, Advance(id));
            id in st'.active && st' == At(st, id, st'.active[id].pc) && ActivityData(st', st'.active[id])
  {
  }

  lemma WriterInserts(st: State, id: nat)
    requires Basics(st) && Data(st) && id in st.active && st.active[id].call.StoreCall? && st.active[id].pc.Inserting?
    ensures Data(Next(st, Advance(id)))
  {
    assert ActivityBasics(st, st.active[id]) && ActivityData(st, st.active[id]);
    if st.active[id].pc.todo == [] {
      InsertsDoneData(st, id);
    } else {
      InsertData(st, id);
    }
    var st' := Next(st, Advance(id));
    WriterMoves(st, st', id, st'.active[id].pc);
  }

  lemma LeaveKeepsData(st: State, id: nat)
    requires Basics(st) && Data(st) && id in st.active && st.active[id].pc.Leaving?
    ensures Data(Next(st, Advance(id)))
  {
    var a := st.active[id];
    assert ActivityBasics(st, a) && ActivityData(st, a);
    var st' := Next(st, Advance(id));
    var r := Return(a.call, a.begin, a.pc.result, a.pc.commit, st.clock);
    assert st'.finished == st.finished + [r];
    assert st'.finished[..|st.finished|] == st.finished;
    LinearExtends(st.finished, r);
    forall other | other in st'.active ensures ActivityData(st', st'.active[other]) {
      var b := st.active[other];
      assert st'.active[other] == b && ActivityData(st, b);
      if a.pc.commit != None {
        assert HoldsWrite(a) && st.writer == Some(id);
        assert !HoldsWrite(b) && other !in st.readers;
      }
    }
  }

  lemma LinearExtends(finished: seq<Return>, r: Return)
    requires Linear(finished)
    requires r.begin <= |finished| && Explains(Replay(finished), r)
    ensures Linear(finished + [r])
  {
    var longer := finished + [r];
    forall i | 0 <= i < |longer|
      ensures longer[i].begin <= i && Explains(Replay(longer[..i]), longer[i])
    {
      assert longer[..i] == finished[..i];
      if i == |finished| {
        assert finished[..i] == finished;
      }
    }
  }

  /** A failure note needs no lock: it leaves the key data alone, even when it creates the row. */
  lemma NoteKeepsData(st: State, id: nat)
    requires Basics(st) && Data(st) && id in st.active && st.active[id].call.FailingProbe? && st.active[id].pc.Noting?
    ensures Data(Next(st, Advance(id)))
  {
    var st' := Next(st, Advance(id));
    assert BundleOf(st'.tables) == BundleOf(st.tables);
    forall other | other in st'.active ensures ActivityData(st', st'.active[other]) {
      assert st'.active[other] == st.active[other] && ActivityData(st, st.active[other]);
      assert ActivityBasics(st, st.active[other]);
    }
  }

  lemma NextKeepsData(st: State, action: Action)
    requires Basics(st) && Data(st) && Enabled(st, action) && Clean(action)
    ensures Data(Next(st, action))
  {
    match action
    case Begin(id, call, now) =>
      var st' := Next(st, action);
      forall other | other in st'.active ensures ActivityData(st', st'.active[other]) {
        if other != id {
          assert ActivityData(st, st.active[other]);
        }
      }
    case Advance(id) =>
      var a := st.active[id];
      assert ActivityBasics(st, a);
      if a.pc.Waiting? {
        EnterKeepsData(st, id);
      } else if a.pc.Leaving? {
        LeaveKeepsData(st, id);
      } else if a.call.LoadCall? {
        ReaderMoves(st, id);
      } else if a.call.FailingProbe? {
        NoteKeepsData(st, id);
      } else if a.pc.Locked? || a.pc.RowRead? || a.pc.KeysRead? {
        WriterDecides(st, id);
      } else if a.pc.Inserting? {
        WriterInserts(st, id);
      } else {
        WriterRewrites(st, id);
      }
  }

  lemma {:induction false} RunKeepsData(st: State, actions: seq<Action>)
    requires Basics(st) && Data(st) && Run(st, actions).Some?
    requires OnlyStorable(actions)
    ensures Basics(Run(st, actions).value) && Data(Run(st, actions).value)
    decreases |actions|
  {
    if actions == [] {
    } else {
      assert actions[0] in actions;
      NextKeepsBasics(st, actions[0]);
      NextKeepsData(st, actions[0]);
      RunKeepsData(Next(st, actions[0]), actions[1..]);
    }
  }

  // ---------------------------------------------------------------- theorems

  /**
    Snapshot consistency. Whatever stores, loads, invalidations and failure notes overlap, no insert
    hits a taken primary key, and the finished calls are a run of the atomic record: every load returned
    validity, provenance, extra fields, keys and signatures of the one store that was last to complete,
    with the validity zeroed if an invalidation followed it. A call that returned before another began
    comes first in that run.
   */
  lemma SnapshotConsistency(actions: seq<Action>)
    requires Run(INITIAL, actions).Some? && OnlyStorable(actions)
    ensures var st := Run(INITIAL, actions).value;
            && Linear(st.finished)
            && st.aborts == 0
            && (st.writer == None ==> BundleOf(st.tables) == Replay(st.finished))
  {
    RunKeepsData(INITIAL, actions);
  }

  // ---------------------------------------------------------------- reachability columns

  /**
    Standoff history. In every reachable state, torn ones included, a standoff is scheduled exactly when
    the last reachability write for the server was a failure, and the failure count says the same.
   */
  lemma StandoffIffLastProbeFailed(actions: seq<Action>)
    requires Run(INITIAL, actions).Some?
    ensures var st := Run(INITIAL, actions).value;
            match st.tables.row
            case None => st.reach == Never
            case Some(row) =>
              && (row.nextAttemptTs > 0 <==> row.originFailures > 0)
              && (row.nextAttemptTs > 0 <==> st.reach == Failed)
              && (st.reach != Failed ==> row.nextAttemptTs == 0 && row.originFailures == 0)
  {
    RunKeepsBasics(INITIAL, actions);
  }

  function Standoff(st: State): (int, int) {
    if st.tables.row.None? then (0, 0) else (st.tables.row.value.originFailures, st.tables.row.value.nextAttemptTs)
  }

  /** Only a failure note and the reset of a direct store touch the standoff: no notary store, no invalidation. */
  lemma OnlyProbesTouchTheStandoff(st: State, action: Action)
    requires Basics(st) && Enabled(st, action)
    requires action.Advance? ==> !st.active[action.id].pc.Noting?
    requires action.Advance? && st.active[action.id].pc.Resetting? ==>
               st.active[action.id].call.StoreCall? && st.active[action.id].call.via != ""
    ensures Standoff(Next(st, action)) == Standoff(st) && Next(st, action).reach == st.reach
  {
    if action.Advance? {
      assert ActivityBasics(st, st.active[action.id]);
    }
  }

  // ---------------------------------------------------------------- progress

  /** No deadlock: as long as a call is in progress, some call can take a step. */
  lemma SomeCallCanAdvance(actions: seq<Action>)
    requires Run(INITIAL, actions).Some?
    ensures var st := Run(INITIAL, actions).value;
            st.active != map[] ==> exists id :: Enabled(st, Advance(id))
  {
    RunKeepsBasics(INITIAL, actions);
    var st := Run(INITIAL, actions).value;
    if st.active != map[] {
      var id :| id in st.active;
      if st.writer.Some? {
        assert Enabled(st, Advance(st.writer.value));
      } else if st.readers != {} {
        var reader :| reader in st.readers;
        assert Enabled(st, Advance(reader));
      } else {
        assert Enabled(st, Advance(id));
      }
    }
  }

  // ---------------------------------------------------------------- many servers

  datatype ServerAction = ServerAction(server: ServerName, action: Action)

  type Reservoir = map<ServerName, State>

  function StateOf(all: Reservoir, server: ServerName): State {
    if server in all then all[server] else INITIAL
  }

  function RunAll(all: Reservoir, actions: seq<ServerAction>): Option<Reservoir>
    decreases |actions|
  {
    if actions == [] then Some(all)
    else
      var a := actions[0];
      if Enabled(StateOf(all, a.server), a.action) then
        RunAll(all[a.server := Next(StateOf(all, a.server), a.action)], actions[1..])
      else None
  }

  function Project(actions: seq<ServerAction>, server: ServerName): seq<Action> {
    if actions == [] then []
    else (if actions[0].server == server then [actions[0].action] else []) + Project(actions[1..], server)
  }

  /** What one server sees of a run over many servers is a run. */
  lemma {:induction false} Locality(all: Reservoir, actions: seq<ServerAction>, server: ServerName)
    requires RunAll(all, actions).Some?
    ensures Run(StateOf(all, server), Project(actions, server)) == Some(StateOf(RunAll(all, actions).value, server))
    decreases |actions|
  {
    if actions == [] {
    } else {
      var a := actions[0];
      var all' := all[a.server := Next(StateOf(all, a.server), a.action)];
      Locality(all', actions[1..], server);
      if a.server == server {
        assert Project(actions, server)[0] == a.action;
        assert Project(actions, server)[1..] == Project(actions[1..], server);
      } else {
        assert Project(actions, server) == Project(actions[1..], server);
      }
    }
  }

  lemma {:induction false} ProjectKeepsStorable(actions: seq<ServerAction>, server: ServerName)
    requires forall a | a in actions :: Clean(a.action)
    ensures OnlyStorable(Project(actions, server))
  {
    if actions == [] {
    } else {
      assert actions[0] in actions;
      ProjectKeepsStorable(actions[1..], server);
    }
  }

  /** Snapshot consistency of the whole reservoir: any number of servers, each with any number of calls. */
  lemma ReservoirIsConsistent(actions: seq<ServerAction>, server: ServerName)
    requires RunAll(map[], actions).Some?
    requires forall a | a in actions :: Clean(a.action)
    ensures var st := StateOf(RunAll(map[], actions).value, server);
            Linear(st.finished) && st.aborts == 0
  {
    Locality(map[], actions, server);
    ProjectKeepsStorable(actions, server);
    SnapshotConsistency(Project(actions, server));
  }
}
