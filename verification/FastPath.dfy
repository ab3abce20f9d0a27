/**
  The fast path in every reachable state, torn records included: what is loaded and fresh carries keys and
  is unexpired.
 */
module FastPath {
  import opened Base
  import opened KeyRecords
  import opened Schedule
  import opened Tables
  import opened StoreProtocol
  import opened StoreConsistency

  // ---------------------------------------------------------------- records without keys

  /** A record without keys has no validity, and did not come from a notary; without a row there are no keys. */
  predicate KeylessIsEmpty(row: Option<Row>, keys: map<KeyId, KeyRow>) {
    if row.None? then keys == map[] else keys == map[] ==> row.value.validUntilTs == 0 && row.value.via == ""
  }

  /** Some store is between its upsert and the end of its inserts. */
  predicate MidWrite(st: State) {
    st.writer.Some? && st.writer.value in st.active && PastUpsert(st.active[st.writer.value])
  }

  /** What a call has read is not a keyless record with validity; and a store on its way will leave keys. */
  predicate ActivityKept(st: State, a: Activity) {
    && (a.pc.RowRead? ==> KeylessIsEmpty(a.pc.row, st.tables.keys))
    && (a.pc.KeysRead? ==> KeylessIsEmpty(a.pc.row, a.pc.keys))
    && (a.pc.Leaving? && a.pc.result.Answer? ==> KeylessIsEmpty(a.pc.result.row, a.pc.result.keys))
    && (a.pc.DeletingSignatures? || a.pc.Resetting? ==> st.tables.keys == map[])
    && (a.pc.Resetting? ==> st.tables.signatures == map[])
    && (a.pc.Inserting? ==> RunInserts(WithoutRow(st.tables), a.pc.todo).tables.keys != map[])
  }

  predicate ReturnKept(r: Return) {
    r.result.Answer? ==> KeylessIsEmpty(r.result.row, r.result.keys)
  }

  ghost predicate Kept(st: State) {
    && (!MidWrite(st) ==> KeylessIsEmpty(st.tables.row, st.tables.keys))
    && (forall id | id in st.active :: ActivityKept(st, st.active[id]))
    && (forall r | r in st.finished :: ReturnKept(r))
  }

  // ---------------------------------------------------------------- every step keeps it

  /** The holder of the write lock moves on; nobody else has read anything. */
  lemma WriterMovesKept(st: State, st': State, id: nat, pc: Pc)
    requires Basics(st) && Kept(st) && st.writer == Some(id) && id in st.active
    requires st' == At(st, id, pc).(tables := st'.tables, reach := st'.reach, aborts := st'.aborts)
    requires ActivityKept(st', st'.active[id])
    requires PastUpsert(st'.active[id]) || KeylessIsEmpty(st'.tables.row, st'.tables.keys)
    ensures Kept(st')
  {
    forall other | other in st'.active && other != id ensures ActivityKept(st', st'.active[other]) {
      var a := st.active[other];
      assert ActivityBasics(st, a) && ActivityKept(st, a) && other !in st.readers && !HoldsWrite(a);
    }
  }

  lemma BeginOrEnterKept(st: State, action: Action)
    requires Basics(st) && Kept(st) && Enabled(st, action)
    requires action.Advance? ==> st.active[action.id].pc.Waiting?
    ensures Kept(Next(st, action))
  {
    var st' := Next(st, action);
    forall other | other in st'.active ensures ActivityKept(st', st'.active[other]) {
      if other != action.id {
        assert st'.active[other] == st.active[other] && ActivityKept(st, st.active[other]);
      }
    }
  }

  /** A reader's steps change no table. */
  lemma ReaderMovesKept(st: State, id: nat)
    requires Basics(st) && Kept(st) && id in st.active && HoldsRead(st.active[id]) && !st.active[id].pc.Leaving?
    ensures Kept(Next(st, Advance(id)))
  {
    assert ActivityBasics(st, st.active[id]) && ActivityKept(st, st.active[id]);
    assert id in st.readers && st.writer == None;
    var st' := Next(st, Advance(id));
    forall other | other in st'.active && other != id ensures ActivityKept(st', st'.active[other]) {
      assert st'.active[other] == st.active[other] && ActivityKept(st, st.active[other]);
    }
  }

  /** The steps of a writer before it changes the record: only an invalidation changes anything. */
  lemma WriterDecidesKept(st: State, id: nat)
    requires Basics(st) && Kept(st) && id in st.active && HoldsWrite(st.active[id])
    requires st.active[id].pc.Locked? || st.active[id].pc.RowRead? || st.active[id].pc.KeysRead?
    ensures Kept(Next(st, Advance(id)))
  {
    assert ActivityBasics(st, st.active[id]) && ActivityKept(st, st.active[id]);
    var st' := Next(st, Advance(id));
    WriterMovesKept(st, st', id, st'.active[id].pc);
  }

  /** The statements of a store up to its first insert. */
  lemma StatementKept(st: State, id: nat)
    requires id in st.active && st.active[id].call.StoreCall? && Rewriting(st.active[id].pc)
    requires ActivityBasics(st, st.active[id]) && ActivityKept(st, st.active[id])
    ensures var st' := Next(st, Advance(id));
            && id in st'.active && st' == At(st, id, st'.active[id].pc).(tables := st'.tables, reach := st'.reach)
            && ActivityKept(st', st'.active[id]) && PastUpsert(st'.active[id])
  {
    var st', call := Next(st, Advance(id)), st.active[id].call;
    if st'.active[id].pc.Inserting? {
      StoredKeysRemain(WithoutRow(st'.tables), call.info, call.order);
    }
  }

  lemma StoredKeysRemain(t: Tables, info: ServerKeys, order: InsertOrder)
    requires Orders(order, info) && Validates(info) && t.keys == map[] && t.signatures == map[]
    ensures RunInserts(t, Inserts(info, order)).tables.keys != map[]
  {
    InsertsSucceedIffStorable(t, info, order);
    var id :| id in info.verifyKeys;
    assert id in RunInserts(t, Inserts(info, order)).tables.keys;
  }

  /** One insert, the end of the inserts, or the way out after a taken key: keys are left in any case. */
  lemma InsertKept(st: State, id: nat)
    requires id in st.active && st.active[id].call.StoreCall? && st.active[id].pc.Inserting?
    requires ActivityBasics(st, st.active[id]) && ActivityKept(st, st.active[id])
    ensures var st' := Next(st, Advance(id));
            && id in st'.active && st' == At(st, id, st'.active[id].pc).(tables := st'.tables, aborts := st'.aborts)
            && ActivityKept(st', st'.active[id])
            && (PastUpsert(st'.active[id]) || st'.tables.keys != map[])
  {
    var call, todo := st.active[id].call, st.active[id].pc.todo;
    if todo == [] {
      var k :| k in call.info.verifyKeys;
      assert k in KeyRows(call.info);
    } else {
      InsertIgnoresRow(st.tables, todo[0]);
    }
  }

  lemma WriterWritesKept(st: State, id: nat)
    requires Basics(st) && Kept(st) && id in st.active && st.active[id].call.StoreCall?
    requires Rewriting(st.active[id].pc) || st.active[id].pc.Inserting?
    ensures Kept(Next(st, Advance(id)))
  {
    assert ActivityBasics(st, st.active[id]) && ActivityKept(st, st.active[id]);
    if st.active[id].pc.Inserting? {
      InsertKept(st, id);
    } else {
      StatementKept(st, id);
    }
    var st' := Next(st, Advance(id));
    WriterMovesKept(st, st', id, st'.active[id].pc);
  }

  lemma LeaveKept(st: State, id: nat)
    requires Basics(st) && Kept(st) && id in st.active && st.active[id].pc.Leaving?
    ensures Kept(Next(st, Advance(id)))
  {
    var a, st' := st.active[id], Next(st, Advance(id));
    assert ActivityBasics(st, a) && ActivityKept(st, a);
    forall other | other in st'.active ensures ActivityKept(st', st'.active[other]) {
      assert st'.active[other] == st.active[other] && ActivityKept(st, st.active[other]);
    }
  }

  /** A failure note leaves the key data alone, and creates a row without validity. */
  lemma NoteKept(st: State, id: nat)
    requires Basics(st) && Kept(st) && id in st.active && st.active[id].call.FailingProbe? && st.active[id].pc.Noting?
    ensures Kept(Next(st, Advance(id)))
  {
    var st' := Next(st, Advance(id));
    assert ActivityBasics(st, st.active[id]);
    forall other | other in st'.active ensures ActivityKept(st', st'.active[other]) {
      assert st'.active[other] == st.active[other] && ActivityKept(st, st.active[other]);
    }
    assert !MidWrite(st') ==> !MidWrite(st) by {
      if MidWrite(st) {
        assert st.writer.value != id;
      }
    }
  }

  lemma NextKept(st: State, action: Action)
    requires Basics(st) && Kept(st) && Enabled(st, action)
    ensures Kept(Next(st, action))
  {
    match action
    case Begin(_, _, _) => BeginOrEnterKept(st, action);
    case Advance(id) =>
      var a := st.active[id];
      assert ActivityBasics(st, a);
      match a.pc {
        case Waiting => BeginOrEnterKept(st, action);
        case Leaving(_, _) => LeaveKept(st, id);
        case Noting(_) => NoteKept(st, id);
        case _ =>
          if a.call.LoadCall? {
            ReaderMovesKept(st, id);
          } else if a.pc.Locked? || a.pc.RowRead? || a.pc.KeysRead? {
            WriterDecidesKept(st, id);
          } else {
            WriterWritesKept(st, id);
          }
      }
  }

  lemma {:induction false} RunKept(st: State, actions: seq<Action>)
    requires Basics(st) && Kept(st) && Run(st, actions).Some?
    ensures Kept(Run(st, actions).value)
    decreases |actions|
  {
    if actions == [] {
    } else {
      NextKeepsBasics(st, actions[0]);
      NextKept(st, actions[0]);
      RunKept(Next(st, actions[0]), actions[1..]);
    }
  }

  /**
    In every reachable state in which no store is at work, and in everything that is ever returned: a record
    without keys has no validity and did not come from a notary, even if stores stopped half-way before.
   */
  lemma RecordsWithoutKeys(actions: seq<Action>)
    requires Run(INITIAL, actions).Some?
    ensures var st := Run(INITIAL, actions).value;
            && (!MidWrite(st) ==> KeylessIsEmpty(st.tables.row, st.tables.keys))
            && (forall r | r in st.finished && r.result.Answer? :: KeylessIsEmpty(r.result.row, r.result.keys))
  {
    RunKept(INITIAL, actions);
    assert forall r | r in Run(INITIAL, actions).value.finished :: ReturnKept(r);
  }

  // ---------------------------------------------------------------- the fast path

  predicate Timed(r: Return) {
    && r.time > 0
    && (r.result.Answer? && r.result.row.Some? ==> 0 <= r.result.row.value.updatedTs <= r.time && IsClock(r.time))
  }

  /** One step returns at most one call, and what it returns is timed. */
  lemma StepIsTimed(st: State, action: Action)
    requires Basics(st) && Enabled(st, action)
    ensures var finished := Next(st, action).finished;
            finished == st.finished || (exists r :: finished == st.finished + [r] && Timed(r))
  {
    if action.Advance? && st.active[action.id].pc.Leaving? {
      var a := st.active[action.id];
      assert ActivityBasics(st, a);
      var r := Return(a.call, a.begin, a.pc.result, a.pc.commit, st.clock);
      assert Next(st, action).finished == st.finished + [r] && Timed(r);
    }
  }

  lemma {:induction false} AnswersAreTimed(st: State, actions: seq<Action>)
    requires Basics(st) && Run(st, actions).Some?
    requires forall r | r in st.finished :: Timed(r)
    ensures forall r | r in Run(st, actions).value.finished :: Timed(r)
    decreases |actions|
  {
    if actions == [] {
    } else {
      StepIsTimed(st, actions[0]);
      NextKeepsBasics(st, actions[0]);
      AnswersAreTimed(Next(st, actions[0]), actions[1..]);
    }
  }

  /**
    Fast-path soundness in every reachable state, after whatever stores, torn ones included. If what a load
    returned is fresh at a later clock reading, it carries keys, meets the caller's minimum, is unexpired,
    and has at least as much validity ahead of it as time has passed since it was updated.
   */
  lemma FastPathIsSound(actions: seq<Action>, r: Return, minValidUntilTs: int, now: int)
    requires Run(INITIAL, actions).Some? && r in Run(INITIAL, actions).value.finished
    ensures r.call == LoadCall && r.result.Answer? && r.result.row.Some? && r.time <= now &&
            IsFresh(r.result.row.value.updatedTs, r.result.row.value.validUntilTs, minValidUntilTs, now) ==>
              var row := r.result.row.value;
              && r.result.keys != map[] && minValidUntilTs <= row.validUntilTs && now <= row.validUntilTs
              && now - row.updatedTs <= row.validUntilTs - now
  {
    AnswersAreTimed(INITIAL, actions);
    RecordsWithoutKeys(actions);
    if r.result.Answer? && r.result.row.Some? && r.time <= now {
      var row := r.result.row.value;
      if IsFresh(row.updatedTs, row.validUntilTs, minValidUntilTs, now) {
        FreshIsUnexpired(row.updatedTs, row.validUntilTs, minValidUntilTs, now);
      }
    }
  }
}
