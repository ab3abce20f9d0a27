/** Concurrency and signatures together: whatever is loaded, in whatever interleaving, is served as it was signed. */
module EndToEnd {
  import opened Base
  import opened Signing
  import opened KeyRecords
  import opened Tables
  import opened Resolution
  import opened Serving
  import opened ServingTheorems
  import opened StoreProtocol
  import opened StoreConsistency
  import opened FastPath
  import opened Tears

  /** The store of an accepted reply that is storable. */
  predicate Passes(scheme: Scheme, self: ServerName, server: ServerName, call: Call) {
    call.StoreCall? ==>
      && call.info.serverName == server != self && call.extra.Keys !! STANDARD_FIELDS
      && AcceptsDirect(scheme, call.info, call.extra) && Storable(call.info)
  }

  predicate BeginsPass(scheme: Scheme, self: ServerName, server: ServerName, actions: seq<Action>) {
    forall a | a in actions && a.Begin? :: Passes(scheme, self, server, a.call)
  }

  lemma {:induction false} FinishedCallsPass(scheme: Scheme, self: ServerName, server: ServerName, st: State,
                                             actions: seq<Action>)
    requires Run(st, actions).Some? && BeginsPass(scheme, self, server, actions)
    requires forall id | id in st.active :: Passes(scheme, self, server, st.active[id].call)
    requires forall r | r in st.finished :: Passes(scheme, self, server, r.call)
    ensures forall r | r in Run(st, actions).value.finished :: Passes(scheme, self, server, r.call)
    decreases |actions|
  {
    if actions == [] {
    } else {
      assert actions[0] in actions;
      OneStepPasses(scheme, self, server, st, actions[0]);
      FinishedCallsPass(scheme, self, server, Next(st, actions[0]), actions[1..]);
    }
  }

  /** Calls keep their arguments: a step begins one, or ends one, or moves one on. */
  lemma OneStepPasses(scheme: Scheme, self: ServerName, server: ServerName, st: State, action: Action)
    requires Enabled(st, action) && (action.Begin? ==> Passes(scheme, self, server, action.call))
    requires forall id | id in st.active :: Passes(scheme, self, server, st.active[id].call)
    requires forall r | r in st.finished :: Passes(scheme, self, server, r.call)
    ensures forall id | id in Next(st, action).active ::
              Passes(scheme, self, server, Next(st, action).active[id].call)
    ensures forall r | r in Next(st, action).finished :: Passes(scheme, self, server, r.call)
  {
    CallsStay(st, action);
  }

  lemma CallsStay(st: State, action: Action)
    requires Enabled(st, action)
    ensures var st' := Next(st, action);
            && (forall id | id in st'.active ::
                  if action.Begin? && id == action.id then st'.active[id].call == action.call
                  else id in st.active && st'.active[id].call == st.active[id].call)
            && (forall r | r in st'.finished ::
                r in st.finished || (action.Advance? && r.call == st.active[action.id].call))
  {
    if action.Advance? {
      AdvanceMovesOneCall(st, action.id);
    }
  }

  lemma AdvanceMovesOneCall(st: State, id: nat)
    requires Enabled(st, Advance(id))
    ensures var st', a := Next(st, Advance(id)), st.active[id];
            && (st'.active == st.active - {id}
                || (id in st'.active && st'.active == st.active[id := a.(pc := st'.active[id].pc)]))
            && (st'.finished == st.finished
                || (|st'.finished| == |st.finished| + 1 && st'.finished[..|st.finished|] == st.finished
                    && st'.finished[|st.finished|].call == a.call))
  {
  }

  /** The last of some calls that changed the record for good. */
  function LastWrite(calls: seq<Return>): Option<Return> {
    if calls == [] then None
    else
      var last := calls[|calls| - 1];
      if last.commit.Some? then Some(last) else LastWrite(calls[..|calls| - 1])
  }

  /** Some store has completed, and the record has not been invalidated since. */
  predicate EndsStored(calls: seq<Return>) {
    LastWrite(calls).Some? && LastWrite(calls).value.commit.Some? && LastWrite(calls).value.commit.value.Stored?
  }

  predicate StoresAsIs(w: Return, held: Bundle) {
    w.call.StoreCall? && Storable(w.call.info) && held == ReplyBundle(w.call.info, w.call.extra, w.call.via)
  }

  ghost predicate CommitsAreReplies(calls: seq<Return>) {
    forall r | r in calls && r.commit.Some? && r.commit.value.Stored? :: StoresAsIs(r, r.commit.value.bundle)
  }

  lemma {:induction false} ReplayIsTheLastWrite(calls: seq<Return>)
    requires CommitsAreReplies(calls) && EndsStored(calls)
    ensures LastWrite(calls).value in calls && StoresAsIs(LastWrite(calls).value, Replay(calls))
  {
    var last, before := calls[|calls| - 1], calls[..|calls| - 1];
    assert last in calls && forall r | r in before :: r in calls;
    if last.commit.None? {
      ReplayIsTheLastWrite(before);
    }
  }

  lemma StoredIsItsReply(before: Bundle, r: Return)
    requires Explains(before, r) && r.commit.Some? && r.commit.value.Stored?
    ensures StoresAsIs(r, r.commit.value.bundle)
  {
  }

  lemma LinearCommits(calls: seq<Return>)
    requires Linear(calls)
    ensures CommitsAreReplies(calls)
  {
    forall r | r in calls && r.commit.Some? && r.commit.value.Stored?
      ensures StoresAsIs(r, r.commit.value.bundle)
    {
      var i :| 0 <= i < |calls| && calls[i] == r;
      assert Explains(Replay(calls[..i]), calls[i]);
      StoredIsItsReply(Replay(calls[..i]), r);
    }
  }

  lemma LinearPrefix(finished: seq<Return>, n: nat)
    requires Linear(finished) && n <= |finished|
    ensures Linear(finished[..n])
  {
    forall i | 0 <= i < n
      ensures finished[..n][i].begin <= i && Explains(Replay(finished[..n][..i]), finished[..n][i])
    {
      assert finished[..n][..i] == finished[..i];
    }
  }

  /** What a load hands to the serving code. */
  function Loaded(server: ServerName, result: Result): Held
    requires result.Answer? && result.row.Some?
  {
    var row := result.row.value;
    Held(server, row.updatedTs, row.validUntilTs, row.extra, row.via, result.keys, result.signatures)
  }

  /**
    Whatever stores, loads, invalidations and failure notes overlap: a load that returns after some store has
    completed, and no invalidation since, is served with exactly the signed part and the origin's signatures of
    the last reply stored, and passes the last check, if and only if that one reply is serviceable. Never is
    a mixture of two replies put before that check.
   */
  lemma EveryLoadIsServedIff(scheme: Scheme, self: ServerName, server: ServerName, ownKeys: seq<OwnKey>,
                          actions: seq<Action>, i: nat)
    requires scheme.Sound() && OwnKeysMatch(scheme, ownKeys)
    requires Run(INITIAL, actions).Some? && BeginsPass(scheme, self, server, actions)
    requires var finished := Run(INITIAL, actions).value.finished;
             i < |finished| && finished[i].call == LoadCall && EndsStored(finished[..i])
    ensures var finished := Run(INITIAL, actions).value.finished;
            var r, w := finished[i], LastWrite(finished[..i]).value;
            && w.call.StoreCall? && r.result.Answer? && r.result.row.Some?
            && (ComesThrough(scheme, self, ownKeys, w.call.info, w.call.extra, Loaded(server, r.result))
                <==> Serviceable(w.call.info, w.call.extra, ownKeys))
  {
    var finished := Run(INITIAL, actions).value.finished;
    SnapshotConsistency(actions);
    RecordsWithoutKeys(actions);
    LinearPrefix(finished, i);
    LinearCommits(finished[..i]);
    ReplayIsTheLastWrite(finished[..i]);
    FinishedCallsPass(scheme, self, server, INITIAL, actions);
    var w, r := LastWrite(finished[..i]).value, finished[i];
    assert w in finished && Explains(Replay(finished[..i]), r);
    LoadedReplyIsServedIff(scheme, self, server, ownKeys, w.call, r.result);
  }

  /** A load that answers with a whole reply hands that reply on: no part of it is lost on the fast path. */
  lemma LoadedHolds(server: ServerName, call: Call, result: Result)
    requires call.StoreCall? && call.info.serverName == server && Storable(call.info) && Validates(call.info)
    requires call.extra.Keys !! STANDARD_FIELDS
    requires AnswerIs(result, ReplyBundle(call.info, call.extra, call.via)) && KeylessIsEmpty(result.row, result.keys)
    ensures result.row.Some? && Holds(Loaded(server, result), call.info, call.extra, call.via)
  {
    var id :| id in call.info.verifyKeys;
    assert id in KeyRows(call.info);
    assert AdditionalFields(call.extra) == call.extra;
  }

  lemma LoadedReplyIsServedIff(scheme: Scheme, self: ServerName, server: ServerName, ownKeys: seq<OwnKey>, call: Call,
                               result: Result)
    requires scheme.Sound() && OwnKeysMatch(scheme, ownKeys)
    requires call.StoreCall? && Passes(scheme, self, server, call)
    requires AnswerIs(result, ReplyBundle(call.info, call.extra, call.via)) && KeylessIsEmpty(result.row, result.keys)
    ensures result.row.Some?
    ensures ComesThrough(scheme, self, ownKeys, call.info, call.extra, Loaded(server, result))
            <==> Serviceable(call.info, call.extra, ownKeys)
  {
    LoadedHolds(server, call, result);
    HeldReplyIsServedIff(scheme, self, ownKeys, call.info, call.extra, call.via, Loaded(server, result));
  }

  // ---------------------------------------------------------------- torn records

  /** What a store of an accepted reply leaves of the current keys, torn or not, can be read. */
  lemma RowsOfDecode(scheme: Scheme, info: ServerKeys, keys: map<KeyId, KeyRow>)
    requires KeysDecode(scheme, info.verifyKeys) && AllExpired(info.OldKeys()) && RowsOf(info, keys)
    ensures KeysDecode(scheme, CurrentKeys(keys))
  {
    forall id | id in CurrentKeys(keys) ensures scheme.decode(CurrentKeys(keys)[id]).Some? {
      assert IsRowOf(info, id, keys[id]);
    }
  }

  /**
    A torn record is not only loaded but served. An accepted reply with an id both current and old, stored on
    any record at rest that holds a signed copy, leaves a record that the last check does not stop, since
    it carries no signature of its origin at all: it goes out signed by us alone, if its current keys can be
    read, which is so whenever the reply's old keys are expired, and it can be signed.
   */
  lemma TornRecordIsServedIff(scheme: Scheme, self: ServerName, ownKeys: seq<OwnKey>, st: State, call: Call)
    returns (actions: seq<Action>)
    requires scheme.Sound() && OwnKeysMatch(scheme, ownKeys)
    requires Idle(st) && BundleOf(st.tables) == Replay(st.finished) && st.tables.signatures != map[]
    requires call.StoreCall? && WellFormed(call) && !KeepsExisting(st.tables, call.info, call.via)
    requires AcceptsDirect(scheme, call.info, call.extra) && call.extra.Keys !! STANDARD_FIELDS
    requires call.info.serverName != self && !(call.info.verifyKeys.Keys !! call.info.OldKeys().Keys)
    ensures Run(st, actions).Some? && EndsWithATornLoad(st, call, Run(st, actions).value)
    ensures TornState(st, call).tables.row.Some?
    ensures var server := call.info.serverName;
            var held := HeldOf(server, TornState(st, call).tables);
            var r := Prepared(scheme, self, ownKeys, server, held);
            var readable := KeysDecode(scheme, CurrentKeys(held.keys));
            && (r.Serves? <==> readable && (ownKeys == [] || UnsignedIsPlain(call.extra)))
            && (AllExpired(call.info.OldKeys()) ==> readable)
            && (r.Serves? ==> SignedByUsAlone(scheme, self, ownKeys, server, r.obj))
  {
    actions := TearDestroysTheHeldCopy(st, call);
    TornByAClash(st, call);
    var held := HeldOf(call.info.serverName, TornState(st, call).tables);
    UnsignedRecordIsServedIff(scheme, self, ownKeys, held);
    if AllExpired(call.info.OldKeys()) {
      RowsOfDecode(scheme, call.info, held.keys);
    }
  }
}
