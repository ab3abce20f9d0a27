/**
  What is stored about one remote server: its row of remote_servers and its rows of remote_keys and
  remote_signatures. Every function up to Statements' end is one SQL statement; the rest of the module
  puts a whole store together out of them.
 */
module Tables {
  import opened Base
  import opened KeyRecords

  datatype Row = Row(
    updatedTs: int,
    validUntilTs: Timestamp,
    extra: Fields,
    via: string,               // "" for a direct fetch (NULL), or the notary's name
    originFailures: int,
    nextAttemptTs: int)

  datatype KeyRow = KeyRow(publicKey: string, expiresTs: Timestamp)

  datatype Tables = Tables(row: Option<Row>, keys: map<KeyId, KeyRow>, signatures: map<KeyId, string>)

  const EMPTY_TABLES: Tables := Tables(None, map[], map[])

  // ---------------------------------------------------------------- statements

  function UpsertRemoteServer(t: Tables, updatedTs: int, validUntilTs: Timestamp, extra: Fields, via: string): Tables {
    t.(row := Some(
      if t.row.Some? then t.row.value.(updatedTs := updatedTs, validUntilTs := validUntilTs, extra := extra, via := via)
      else Row(updatedTs, validUntilTs, extra, via, 0, 0)))
  }

  function NoteOriginFailure(t: Tables, updatedTs: int, failures: int, nextAttemptTs: int): Tables {
    t.(row := Some(
      if t.row.Some? then t.row.value.(updatedTs := updatedTs, originFailures := failures,
          nextAttemptTs := nextAttemptTs)
      else Row(updatedTs, 0, map[], "", failures, nextAttemptTs)))
  }

  function ResetOriginProbe(t: Tables): Tables {
    if t.row.None? then t else t.(row := Some(t.row.value.(originFailures := 0, nextAttemptTs := 0)))
  }

  function InvalidateRemoteServer(t: Tables): Tables {
    if t.row.None? then t else t.(row := Some(t.row.value.(validUntilTs := 0, updatedTs := 0)))
  }

  function DeleteRemoteKeys(t: Tables): Tables {
    t.(keys := map[])
  }

  function DeleteRemoteSignatures(t: Tables): Tables {
    t.(signatures := map[])
  }

  datatype Insert =
    | KeyInsert(id: KeyId, row: KeyRow)
    | SignatureInsert(id: KeyId, signature: string)

  /** An insert; None when the primary key (server name, key id) is already taken. */
  function ExecInsert(t: Tables, insert: Insert): Option<Tables> {
    match insert
    case KeyInsert(id, row) => if id in t.keys then None else Some(t.(keys := t.keys[id := row]))
    case SignatureInsert(id, s) => if id in t.signatures then None else Some(t.(signatures := t.signatures[id := s]))
  }

  // ---------------------------------------------------------------- the key data a reply holds

  /** The part of the stored data that reachability bookkeeping never touches. */
  datatype Bundle = Bundle(
    validUntilTs: Timestamp,
    extra: Fields,
    via: string,
    keys: map<KeyId, KeyRow>,
    signatures: map<KeyId, string>)

  const EMPTY_BUNDLE: Bundle := Bundle(0, map[], "", map[], map[])

  function RowBundle(row: Option<Row>, keys: map<KeyId, KeyRow>, signatures: map<KeyId, string>): Bundle {
    if row.None? then Bundle(0, map[], "", keys, signatures)
    else Bundle(row.value.validUntilTs, row.value.extra, row.value.via, keys, signatures)
  }

  function BundleOf(t: Tables): Bundle {
    RowBundle(t.row, t.keys, t.signatures)
  }

  function CurrentRows(keys: map<KeyId, string>): map<KeyId, KeyRow> {
    map id | id in keys :: KeyRow(keys[id], 0)
  }

  function ExpiredRows(keys: map<KeyId, OldKey>): map<KeyId, KeyRow> {
    map id | id in keys :: KeyRow(keys[id].key, keys[id].expiredTs)
  }

  function KeyRows(info: ServerKeys): map<KeyId, KeyRow> {
    CurrentRows(info.verifyKeys) + ExpiredRows(info.OldKeys())
  }

  /** The signatures a reply lists, as (domain, key id) pairs. */
  function SignaturePairs(info: ServerKeys): set<(string, KeyId)> {
    if info.signatures.None? then {}
    else set d, k | d in info.signatures.value && k in info.SignaturesOf(d) :: (d, k)
  }

  function SignatureAt(info: ServerKeys, p: (string, KeyId)): string
    requires p in SignaturePairs(info)
  {
    info.SignaturesOf(p.0)[p.1]
  }

  /** No two of the reply's rows would share a primary key. */
  predicate Storable(info: ServerKeys) {
    && info.verifyKeys.Keys !! info.OldKeys().Keys
    && forall p, q | p in SignaturePairs(info) && q in SignaturePairs(info) :: p.1 == q.1 ==> p == q
  }

  function SignatureRows(info: ServerKeys): map<KeyId, string>
    requires Storable(info)
  {
    map p | p in SignaturePairs(info) :: p.1 := SignatureAt(info, p)
  }

  function ReplyBundle(info: ServerKeys, extra: Fields, via: string): Bundle
    requires Storable(info)
  {
    Bundle(info.validUntilTs, extra, via, KeyRows(info), SignatureRows(info))
  }

  // ---------------------------------------------------------------- the order of the inserts

  /** The orders in which Go happens to range over the maps of a reply. */
  datatype InsertOrder = InsertOrder(current: seq<KeyId>, expired: seq<KeyId>, signatures: seq<(string, KeyId)>)

  /** A range over a map: each key once. */
  predicate Ranges<T(==)>(order: seq<T>, keys: set<T>) {
    NoDuplicates(order) && Elements(order) == keys
  }

  predicate Orders(order: InsertOrder, info: ServerKeys) {
    && Ranges(order.current, info.verifyKeys.Keys)
    && Ranges(order.expired, info.OldKeys().Keys)
    && Ranges(order.signatures, SignaturePairs(info))
  }

  function KeyInserts(order: seq<KeyId>, rows: map<KeyId, KeyRow>): seq<Insert>
    requires Elements(order) <= rows.Keys
  {
    if order == [] then []
    else
      assert order[0] in Elements(order);
      [KeyInsert(order[0], rows[order[0]])] + KeyInserts(order[1..], rows)
  }

  function SignatureInserts(order: seq<(string, KeyId)>, info: ServerKeys): seq<Insert>
    requires Elements(order) <= SignaturePairs(info)
  {
    if order == [] then []
    else
      assert order[0] in Elements(order);
      [SignatureInsert(order[0].1, SignatureAt(info, order[0]))] + SignatureInserts(order[1..], info)
  }

  /** All inserts of a store: current keys, old keys, signatures. */
  function Inserts(info: ServerKeys, order: InsertOrder): seq<Insert>
    requires Orders(order, info)
  {
    KeyInserts(order.current, CurrentRows(info.verifyKeys))
    + KeyInserts(order.expired, ExpiredRows(info.OldKeys()))
    + SignatureInserts(order.signatures, info)
  }

  datatype InsertsOutcome = InsertsOutcome(tables: Tables, ok: bool)

  /** Executes inserts until one hits a taken primary key. */
  function RunInserts(t: Tables, inserts: seq<Insert>): InsertsOutcome
    decreases |inserts|
  {
    if inserts == [] then InsertsOutcome(t, true)
    else
      match ExecInsert(t, inserts[0])
      case None => InsertsOutcome(t, false)
      case Some(t') => RunInserts(t', inserts[1..])
  }

  lemma {:induction false} RunInsertsConcat(t: Tables, a: seq<Insert>, b: seq<Insert>)
    ensures RunInserts(t, a + b) ==
            var first := RunInserts(t, a);
            if first.ok then RunInserts(first.tables, b) else first
    decreases |a|
  {
    if a == [] {
      assert a + b == b;
    } else {
      assert (a + b)[0] == a[0] && (a + b)[1..] == a[1..] + b;
      match ExecInsert(t, a[0])
      case None =>
      case Some(t') => RunInsertsConcat(t', a[1..], b);
    }
  }

  function Select(rows: map<KeyId, KeyRow>, ids: set<KeyId>): map<KeyId, KeyRow> {
    map id | id in rows && id in ids :: rows[id]
  }

  lemma SelectStep(keys: map<KeyId, KeyRow>, rows: map<KeyId, KeyRow>, id: KeyId, rest: set<KeyId>)
    requires id in rows && id !in rest
    ensures keys[id := rows[id]] + Select(rows, rest) == keys + Select(rows, {id} + rest)
  {
  }

  lemma FirstElement<T>(s: seq<T>)
    requires s != []
    ensures Elements(s) == {s[0]} + Elements(s[1..])
    ensures NoDuplicates(s) ==> NoDuplicates(s[1..]) && s[0] !in Elements(s[1..])
  {
    assert s == [s[0]] + s[1..];
  }

  /** Key inserts succeed exactly when none of their ids is taken, and then add exactly their rows. */
  lemma {:induction false} KeyInsertsRun(t: Tables, order: seq<KeyId>, rows: map<KeyId, KeyRow>)
    requires NoDuplicates(order) && Elements(order) <= rows.Keys
    ensures var out := RunInserts(t, KeyInserts(order, rows));
            && (out.ok <==> Elements(order) !! t.keys.Keys)
            && (out.ok ==> out.tables == t.(keys := t.keys + Select(rows, Elements(order))))
            && out.tables.row == t.row && out.tables.signatures == t.signatures
            && t.keys.Keys <= out.tables.keys.Keys
    decreases |order|
  {
    if order == [] {
      assert t.keys + Select(rows, Elements(order)) == t.keys;
    } else {
      var rest := order[1..];
      FirstElement(order);
      var inserts := KeyInserts(order, rows);
      assert inserts[0] == KeyInsert(order[0], rows[order[0]]) && inserts[1..] == KeyInserts(rest, rows);
      if order[0] !in t.keys {
        KeyInsertsRun(t.(keys := t.keys[order[0] := rows[order[0]]]), rest, rows);
        SelectStep(t.keys, rows, order[0], Elements(rest));
      }
    }
  }

  /** The key ids of an order of signature pairs. */
  function PairIds(order: seq<(string, KeyId)>): set<KeyId> {
    set p | p in order :: p.1
  }

  predicate DistinctIds(order: seq<(string, KeyId)>) {
    forall i, j | 0 <= i < j < |order| :: order[i].1 != order[j].1
  }

  /** Signature inserts succeed exactly when their ids are distinct and free, and then add exactly their rows. */
  lemma {:induction false} SignatureInsertsRun(t: Tables, order: seq<(string, KeyId)>, info: ServerKeys)
    requires Elements(order) <= SignaturePairs(info)
    ensures var out := RunInserts(t, SignatureInserts(order, info));
            && (out.ok <==> DistinctIds(order) && PairIds(order) !! t.signatures.Keys)
            && (out.ok ==> out.tables.signatures.Keys == t.signatures.Keys + PairIds(order))
            && (out.ok ==> forall p | p in Elements(order) :: out.tables.signatures[p.1] == SignatureAt(info, p))
            && (forall id | id in t.signatures ::
                id in out.tables.signatures && out.tables.signatures[id] == t.signatures[id])
            && out.tables.row == t.row && out.tables.keys == t.keys
    decreases |order|
  {
    if order == [] {
    } else {
      var rest := order[1..];
      var first := order[0];
      FirstElement(order);
      assert PairIds(order) == {first.1} + PairIds(rest);
      var inserts := SignatureInserts(order, info);
      assert inserts[0] == SignatureInsert(first.1, SignatureAt(info, first))
          && inserts[1..] == SignatureInserts(rest, info);
      DistinctIdsStep(order);
      if first.1 !in t.signatures {
        SignatureInsertsRun(t.(signatures := t.signatures[first.1 := SignatureAt(info, first)]), rest, info);
      }
    }
  }

  lemma DistinctIdsStep(order: seq<(string, KeyId)>)
    requires order != []
    ensures DistinctIds(order) <==> DistinctIds(order[1..]) && order[0].1 !in PairIds(order[1..])
  {
    var rest := order[1..];
    if DistinctIds(rest) && order[0].1 !in PairIds(rest) {
      forall i, j | 0 <= i < j < |order| ensures order[i].1 != order[j].1 {
        assert order[j] == rest[j - 1];
        if i > 0 {
          assert order[i] == rest[i - 1];
        } else {
          assert rest[j - 1] in rest;
        }
      }
    }
  }

  /**
    No duplicate rows: into emptied tables, the inserts of a reply all succeed exactly when the reply is
    storable, whatever order its maps are ranged over; and then the tables hold exactly the reply's rows.
   */
  lemma InsertsSucceedIffStorable(t: Tables, info: ServerKeys, order: InsertOrder)
    requires Orders(order, info)
    requires t.keys == map[] && t.signatures == map[]
    ensures var out := RunInserts(t, Inserts(info, order));
            && (out.ok <==> Storable(info))
            && (out.ok ==> out.tables == t.(keys := KeyRows(info), signatures := SignatureRows(info)))
            && out.tables.row == t.row
            && out.tables.keys.Keys >= info.verifyKeys.Keys
  {
    KeysThenSignatures(t, info, order);
    var keysOut := RunInserts(t, AllKeyInserts(info, order));
    SignaturePartRuns(keysOut.tables, info, order);
  }

  function AllKeyInserts(info: ServerKeys, order: InsertOrder): seq<Insert>
    requires Orders(order, info)
  {
    KeyInserts(order.current, CurrentRows(info.verifyKeys)) + KeyInserts(order.expired, ExpiredRows(info.OldKeys()))
  }

  /** The first part of the argument: the keys go in exactly when no id is both current and old. */
  lemma KeysThenSignatures(t: Tables, info: ServerKeys, order: InsertOrder)
    requires Orders(order, info)
    requires t.keys == map[] && t.signatures == map[]
    ensures var keysOut := RunInserts(t, AllKeyInserts(info, order));
            && (keysOut.ok <==> info.verifyKeys.Keys !! info.OldKeys().Keys)
            && (keysOut.ok ==> keysOut.tables == t.(keys := KeyRows(info)))
            && keysOut.tables.row == t.row && keysOut.tables.signatures == map[]
            && keysOut.tables.keys.Keys >= info.verifyKeys.Keys
            && RunInserts(t, Inserts(info, order)) ==
               if keysOut.ok then RunInserts(keysOut.tables, SignatureInserts(order.signatures, info)) else keysOut
  {
    var rows := CurrentRows(info.verifyKeys);
    RunInsertsConcat(t, AllKeyInserts(info, order), SignatureInserts(order.signatures, info));
    TwoKeyRuns(t, order.current, rows, order.expired, ExpiredRows(info.OldKeys()));
  }

  lemma TwoKeyRuns(t: Tables, first: seq<KeyId>, firstRows: map<KeyId, KeyRow>, second: seq<KeyId>,
                   secondRows: map<KeyId, KeyRow>)
    requires Ranges(first, firstRows.Keys) && Ranges(second, secondRows.Keys)
    requires t.keys == map[]
    ensures var out := RunInserts(t, KeyInserts(first, firstRows) + KeyInserts(second, secondRows));
            && (out.ok <==> firstRows.Keys !! secondRows.Keys)
            && (out.ok ==> out.tables == t.(keys := firstRows + secondRows))
            && out.tables.row == t.row && out.tables.signatures == t.signatures
            && out.tables.keys.Keys >= firstRows.Keys
  {
    RunInsertsConcat(t, KeyInserts(first, firstRows), KeyInserts(second, secondRows));
    KeyInsertsRun(t, first, firstRows);
    assert map[] + Select(firstRows, Elements(first)) == firstRows;
    var t1 := t.(keys := firstRows);
    KeyInsertsRun(t1, second, secondRows);
    assert Select(secondRows, Elements(second)) == secondRows;
  }

  /** The last part of the argument: only the signatures remain. */
  lemma SignaturePartRuns(t2: Tables, info: ServerKeys, order: InsertOrder)
    requires Orders(order, info)
    requires t2.signatures == map[]
    ensures var out := RunInserts(t2, SignatureInserts(order.signatures, info));
            && out.tables.keys == t2.keys && out.tables.row == t2.row
            && (info.verifyKeys.Keys !! info.OldKeys().Keys ==>
                  && (out.ok <==> Storable(info))
                  && (out.ok ==> out.tables == t2.(signatures := SignatureRows(info))))
  {
    SignatureInsertsRun(t2, order.signatures, info);
    if info.verifyKeys.Keys !! info.OldKeys().Keys {
      DistinctIdsIffStorable(order.signatures, info);
      var out := RunInserts(t2, SignatureInserts(order.signatures, info));
      if out.ok {
        var rows := SignatureRows(info);
        assert out.tables.signatures.Keys == PairIds(order.signatures);
        forall id | id in rows
          ensures id in out.tables.signatures && out.tables.signatures[id] == rows[id]
        {
          var p :| p in SignaturePairs(info) && p.1 == id;
          assert p in Elements(order.signatures);
        }
        forall id | id in out.tables.signatures ensures id in rows {
          var p :| p in order.signatures && p.1 == id;
          assert p in SignaturePairs(info);
        }
        assert out.tables.signatures == rows;
      }
    }
  }

  lemma DistinctIdsIffStorable(order: seq<(string, KeyId)>, info: ServerKeys)
    requires Ranges(order, SignaturePairs(info))
    requires info.verifyKeys.Keys !! info.OldKeys().Keys
    ensures DistinctIds(order) <==> Storable(info)
  {
    assert forall p :: p in order <==> p in Elements(order);
    if DistinctIds(order) {
      forall p, q | p in SignaturePairs(info) && q in SignaturePairs(info) && p.1 == q.1
        ensures p == q
      {
        assert p in order && q in order;
        var i :| 0 <= i < |order| && order[i] == p;
        var j :| 0 <= j < |order| && order[j] == q;
        assert i == j;
      }
    } else {
      var i, j :| 0 <= i < j < |order| && order[i].1 == order[j].1;
      assert order[i] in SignaturePairs(info) && order[j] in SignaturePairs(info) && order[i] != order[j];
    }
  }

  /** A reply that only its own server signed can fail to be stored in one way: an id both current and old. */
  lemma SingleSignerIsStorableIffDisjoint(info: ServerKeys)
    requires SignedAlone(info)
    ensures Storable(info) <==> info.verifyKeys.Keys !! info.OldKeys().Keys
  {
  }

  // ---------------------------------------------------------------- a whole store

  /** The upgrade rule: a notary must offer something strictly fresher than what is held. */
  predicate KeepsExisting(t: Tables, info: ServerKeys, via: string) {
    t.row.Some? && via != "" && info.validUntilTs <= t.row.value.validUntilTs
  }

  /** The tables just before the inserts of a store. */
  function Cleared(t: Tables, info: ServerKeys, extra: Fields, via: string, now: int): Tables {
    var emptied := DeleteRemoteSignatures(DeleteRemoteKeys(UpsertRemoteServer(t, now, info.validUntilTs, extra, via)));
    if via == "" then ResetOriginProbe(emptied) else emptied
  }

  /** A store run to its end, or to the first insert that fails. */
  function Store(t: Tables, info: ServerKeys, extra: Fields, via: string, now: int, order: InsertOrder): InsertsOutcome
    requires Orders(order, info)
  {
    if KeepsExisting(t, info, via) then InsertsOutcome(t, true)
    else RunInserts(Cleared(t, info, extra, via, now), Inserts(info, order))
  }

  /**
    What a store does, for every order of its inserts: it succeeds unless it has to write a reply that
    is not storable; a written reply is there whole, and only a direct one clears the standoff.
   */
  lemma StoreMeaning(t: Tables, info: ServerKeys, extra: Fields, via: string, now: int, order: InsertOrder)
    requires Orders(order, info)
    ensures var out := Store(t, info, extra, via, now, order);
            && (out.ok <==> KeepsExisting(t, info, via) || Storable(info))
            && (KeepsExisting(t, info, via) ==> out.tables == t)
            && (!KeepsExisting(t, info, via) ==> out.tables.row == Cleared(t, info, extra, via, now).row)
            && (!KeepsExisting(t, info, via) && Storable(info) ==>
                  BundleOf(out.tables) == ReplyBundle(info, extra, via) && out.tables.row.value.updatedTs == now)
            && (!KeepsExisting(t, info, via) && Validates(info) ==> out.tables.keys != map[])
  {
    if !KeepsExisting(t, info, via) {
      var cleared := Cleared(t, info, extra, via, now);
      ClearedMeaning(t, info, extra, via, now);
      InsertsSucceedIffStorable(cleared, info, order);
    }
  }

  /** What the single statements do, to the columns they name and to no other. */
  lemma StatementsMean(t: Tables, now: int, failures: int, next: int)
    requires t.row.Some?
    ensures NoteOriginFailure(t, now, failures, next) ==
              t.(row := Some(Row(now, t.row.value.validUntilTs, t.row.value.extra, t.row.value.via, failures, next)))
    ensures InvalidateRemoteServer(t) == t.(row := Some(Row(0, 0, t.row.value.extra, t.row.value.via,
              t.row.value.originFailures, t.row.value.nextAttemptTs)))
    ensures NoteOriginFailure(EMPTY_TABLES, now, failures, next) ==
              Tables(Some(Row(now, 0, map[], "", failures, next)), map[], map[])
    ensures InvalidateRemoteServer(EMPTY_TABLES) == EMPTY_TABLES
  {
  }

  /** The rows of a reply: its current keys without an expiry, its old keys with theirs, and all its signatures. */
  predicate HoldsRowsOf(t: Tables, info: ServerKeys) {
    && t.keys.Keys == info.verifyKeys.Keys + info.OldKeys().Keys
    && (forall id | id in info.verifyKeys :: t.keys[id] == KeyRow(info.verifyKeys[id], 0))
    && (forall id | id in info.OldKeys() :: t.keys[id] == KeyRow(info.OldKeys()[id].key, info.OldKeys()[id].expiredTs))
    && (info.signatures.Some? ==> forall d | d in info.signatures.value ::
          forall id | id in info.SignaturesOf(d) :: id in t.signatures && t.signatures[id] == info.SignaturesOf(d)[id])
    && (forall id | id in t.signatures ::
          info.signatures.Some? && exists d :: d in info.signatures.value && id in info.SignaturesOf(d))
  }

  /**
    What a store writes: a direct copy always, and a notary's when nothing is held or it is strictly longer valid.
    The row is the reply's, as of now; a direct copy clears the standoff, and a notary's keeps it.
   */
  lemma StoreWrites(t: Tables, info: ServerKeys, extra: Fields, via: string, now: int, order: InsertOrder)
    requires Orders(order, info) && Storable(info)
    requires via == "" || t.row.None? || info.validUntilTs > t.row.value.validUntilTs
    ensures var out := Store(t, info, extra, via, now, order);
            && out.ok && HoldsRowsOf(out.tables, info)
            && out.tables.row == Some(
                if via == "" || t.row.None? then Row(now, info.validUntilTs, extra, via, 0, 0)
                else Row(now, info.validUntilTs, extra, via, t.row.value.originFailures, t.row.value.nextAttemptTs))
  {
    var cleared := Cleared(t, info, extra, via, now);
    ClearedMeaning(t, info, extra, via, now);
    InsertsSucceedIffStorable(cleared, info, order);
    RowsAreHeld(cleared.(keys := KeyRows(info), signatures := SignatureRows(info)), info);
  }

  lemma RowsAreHeld(t: Tables, info: ServerKeys)
    requires Storable(info) && t.keys == KeyRows(info) && t.signatures == SignatureRows(info)
    ensures HoldsRowsOf(t, info)
  {
    SignatureRowsAre(info);
  }

  lemma SignatureRowsAre(info: ServerKeys)
    requires Storable(info)
    ensures info.signatures.Some? ==> forall d | d in info.signatures.value ::
              forall id | id in info.SignaturesOf(d) ::
                id in SignatureRows(info) && SignatureRows(info)[id] == info.SignaturesOf(d)[id]
    ensures forall id | id in SignatureRows(info) ::
              info.signatures.Some? && exists d :: d in info.signatures.value && id in info.SignaturesOf(d)
  {
    if info.signatures.Some? {
      forall d, id | d in info.signatures.value && id in info.SignaturesOf(d)
        ensures id in SignatureRows(info) && SignatureRows(info)[id] == info.SignaturesOf(d)[id]
      {
        assert (d, id) in SignaturePairs(info) && SignatureAt(info, (d, id)) == info.SignaturesOf(d)[id];
      }
    }
  }

  /** What a store turns down: a notary's copy no longer valid than what is held. Nothing changes then. */
  lemma StoreTurnsDown(t: Tables, info: ServerKeys, extra: Fields, via: string, now: int, order: InsertOrder)
    requires Orders(order, info) && via != "" && t.row.Some? && info.validUntilTs <= t.row.value.validUntilTs
    ensures Store(t, info, extra, via, now, order) == InsertsOutcome(t, true)
  {
  }

  lemma ClearedMeaning(t: Tables, info: ServerKeys, extra: Fields, via: string, now: int)
    ensures var cleared := Cleared(t, info, extra, via, now);
            && cleared.keys == map[] && cleared.signatures == map[] && cleared.row.Some?
            && RowBundle(cleared.row, map[], map[]) == Bundle(info.validUntilTs, extra, via, map[], map[])
            && cleared.row.value.updatedTs == now
  {
  }
}
