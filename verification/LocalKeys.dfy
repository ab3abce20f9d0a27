/**
  The server's own keys, as it publishes them; and the relay: another server of this kind that trusts
  this one as a notary fetches its keys, asks it about a third server, and accepts what it serves.
 */
module LocalKeys {
  import opened Base
  import opened Signing
  import opened KeyRecords
  import opened Schedule
  import opened Tables
  import opened Resolution
  import opened Serving
  import opened ServingTheorems

  // ---------------------------------------------------------------- publishing

  /** The table of own keys has the key id as its primary key. */
  predicate DistinctKeyIds(ownKeys: seq<OwnKey>) {
    forall i, j | 0 <= i < j < |ownKeys| :: ownKeys[i].id != ownKeys[j].id
  }

  function OwnRows(ownKeys: seq<OwnKey>): map<KeyId, KeyRow> {
    if ownKeys == [] then map[]
    else
      var last := ownKeys[|ownKeys| - 1];
      OwnRows(ownKeys[..|ownKeys| - 1])[last.id := KeyRow(last.publicKey, last.expiresTs)]
  }

  function Unsigned(self: ServerName, ownKeys: seq<OwnKey>, now: int): ServerKeys
    requires IsClock(now)
  {
    ServerKeys(self, now + DAY, CurrentKeys(OwnRows(ownKeys)), Some(ExpiredKeys(OwnRows(ownKeys))),
        Some(map[self := Some(map[])]))
  }

  /** The published object: current and expired keys, signed with every one of them. */
  function Local(scheme: Scheme, self: ServerName, ownKeys: seq<OwnKey>, now: int): ServerKeys
    requires IsClock(now) && forall key | key in ownKeys :: Loads(scheme, key)
  {
    var info := Unsigned(self, ownKeys, now);
    info.(signatures := Some(map[self := Some(OwnSignatures(scheme, KeyBody(info, map[]), ownKeys))]))
  }

  lemma LastIsDistinct(ownKeys: seq<OwnKey>)
    requires ownKeys != []
    ensures var most, last := ownKeys[..|ownKeys| - 1], ownKeys[|ownKeys| - 1];
            && (forall key :: key in ownKeys <==> key in most || key == last)
            && (DistinctKeyIds(ownKeys) ==> DistinctKeyIds(most) && forall key | key in most :: key.id != last.id)
  {
    var most, last := ownKeys[..|ownKeys| - 1], ownKeys[|ownKeys| - 1];
    assert ownKeys == most + [last];
    if DistinctKeyIds(ownKeys) {
      forall key | key in most ensures key.id != last.id {
        var i :| 0 <= i < |most| && most[i] == key;
        assert ownKeys[i] == key;
      }
    }
  }

  lemma {:induction false} OwnRowsHave(ownKeys: seq<OwnKey>)
    ensures OwnRows(ownKeys).Keys == set key | key in ownKeys :: key.id
    ensures DistinctKeyIds(ownKeys) ==>
              forall key | key in ownKeys :: OwnRows(ownKeys)[key.id] == KeyRow(key.publicKey, key.expiresTs)
  {
    if ownKeys == [] {
    } else {
      LastIsDistinct(ownKeys);
      OwnRowsHave(ownKeys[..|ownKeys| - 1]);
    }
  }

  /** The published maps: keys without and with a positive expiry. */
  method SplitOwnKeys(ownKeys: seq<OwnKey>) returns (current: map<KeyId, string>, expired: map<KeyId, OldKey>)
    requires DistinctKeyIds(ownKeys)
    ensures current == CurrentKeys(OwnRows(ownKeys)) && expired == ExpiredKeys(OwnRows(ownKeys))
  {
    current, expired := map[], map[];
    for i := 0 to |ownKeys|
      invariant current == CurrentKeys(OwnRows(ownKeys[..i])) && expired == ExpiredKeys(OwnRows(ownKeys[..i]))
    {
      var k := ownKeys[i];
      assert ownKeys[..i + 1][..i] == ownKeys[..i];
      OwnRowsHave(ownKeys[..i]);
      CurrentKeysGrow(OwnRows(ownKeys[..i]), k.id, KeyRow(k.publicKey, k.expiresTs));
      ExpiredKeysGrow(OwnRows(ownKeys[..i]), k.id, KeyRow(k.publicKey, k.expiresTs));
      if k.expiresTs > 0 {
        expired := expired[k.id := OldKey(k.publicKey, k.expiresTs)];
      } else {
        current := current[k.id := k.publicKey];
      }
    }
    assert ownKeys[..|ownKeys|] == ownKeys;
  }

  method GetLocalKeys(scheme: Scheme, self: ServerName, ownKeys: seq<OwnKey>, now: int) returns (r: Option<ServerKeys>)
    requires IsClock(now) && DistinctKeyIds(ownKeys)
    ensures r.Some? <==> forall key | key in ownKeys :: Loads(scheme, key)
    ensures r.Some? ==> r.value == Local(scheme, self, ownKeys, now)
  {
    var current, expired := SplitOwnKeys(ownKeys);
    var info := ServerKeys(self, now + DAY, current, Some(expired), Some(map[self := Some(map[])]));
    var unsigned := ToFields(info) - {"signatures"};
    assert SignedPart(unsigned) == KeyBody(info, map[]);
    var own := SignWithOwnKeys(scheme, unsigned, ownKeys);
    if own.None? {
      return None;
    }
    return Some(info.(signatures := Some(map[self := Some(own.value.0)])));
  }

  // ---------------------------------------------------------------- what others make of it

  /** Without expired keys, what is published are the very keys that sign. */
  lemma UnexpiredKeysArePublished(scheme: Scheme, ownKeys: seq<OwnKey>)
    requires DistinctKeyIds(ownKeys) && (forall key | key in ownKeys :: Loads(scheme, key) && key.expiresTs <= 0)
    ensures var current := CurrentKeys(OwnRows(ownKeys));
            && (ownKeys != [] ==> current != map[])
            && KeysDecode(scheme, current) && DecodedKeys(scheme, current) == OwnPublicKeys(scheme, ownKeys)
  {
    var rows := OwnRows(ownKeys);
    OwnRowsHave(ownKeys);
    OwnPublicKeysHave(scheme, ownKeys);
    forall id | id in rows ensures rows[id].expiresTs <= 0
        && scheme.decode(rows[id].publicKey) == Some(OwnPublicKeys(scheme, ownKeys)[id]) {
      var key :| key in ownKeys && key.id == id;
      assert rows[key.id] == KeyRow(key.publicKey, key.expiresTs) && Loads(scheme, key);
    }
    if ownKeys != [] {
      assert ownKeys[0].id in CurrentKeys(rows);
    }
  }

  lemma {:induction false} OwnPublicKeysHave(scheme: Scheme, ownKeys: seq<OwnKey>)
    requires DistinctKeyIds(ownKeys) && forall key | key in ownKeys :: Loads(scheme, key)
    ensures OwnPublicKeys(scheme, ownKeys).Keys == set key | key in ownKeys :: key.id
    ensures forall key | key in ownKeys :: scheme.decode(key.publicKey) == Some(OwnPublicKeys(scheme, ownKeys)[key.id])
  {
    if ownKeys == [] {
    } else {
      var most, last := ownKeys[..|ownKeys| - 1], ownKeys[|ownKeys| - 1];
      LastIsDistinct(ownKeys);
      OwnPublicKeysHave(scheme, most);
      assert Loads(scheme, last);
      assert OwnPublicKeys(scheme, ownKeys) == OwnPublicKeys(scheme,
          most)[last.id := scheme.decode(last.publicKey).value];
    }
  }

  lemma LocalParts(scheme: Scheme, self: ServerName, ownKeys: seq<OwnKey>, now: int)
    requires IsClock(now) && forall key | key in ownKeys :: Loads(scheme, key)
    ensures var local := Local(scheme, self, ownKeys, now);
            && AdditionalFields(ToFields(local)) == map[]
            && local.SignaturesOf(self) == OwnSignatures(scheme, KeyBody(local, map[]), ownKeys)
  {
    BodyIgnoresSignatures(Unsigned(self, ownKeys, now), Local(scheme, self, ownKeys, now), map[]);
    NothingAdditional(Local(scheme, self, ownKeys, now));
  }

  lemma NothingAdditional(info: ServerKeys)
    ensures AdditionalFields(ToFields(info)) == map[]
  {
    assert ToFields(info).Keys == STANDARD_FIELDS;
  }

  /** Published keys that are the signing keys make the published object acceptable. */
  lemma MatchingKeysAreAccepted(scheme: Scheme, self: ServerName, ownKeys: seq<OwnKey>, now: int,
                                current: map<KeyId, string>)
    requires scheme.Sound() && OwnKeysMatch(scheme, ownKeys) && IsClock(now) && self != ""
    requires current == CurrentKeys(OwnRows(ownKeys)) && current != map[]
    requires KeysDecode(scheme, current) && DecodedKeys(scheme, current) == OwnPublicKeys(scheme, ownKeys)
    ensures var local := Local(scheme, self, ownKeys, now);
            AcceptsDirect(scheme, local, ToFields(local))
  {
    var local := Local(scheme, self, ownKeys, now);
    LocalParts(scheme, self, ownKeys, now);
    OwnSignaturesVerify(scheme, KeyBody(local, map[]), ownKeys);
  }

  /** An expired key signs, but its id is not among the published current keys. */
  lemma ExpiredKeyIsRejected(scheme: Scheme, self: ServerName, ownKeys: seq<OwnKey>, now: int, key: OwnKey)
    requires scheme.Sound() && OwnKeysMatch(scheme, ownKeys) && DistinctKeyIds(ownKeys) && IsClock(now)
    requires key in ownKeys && key.expiresTs > 0
    ensures var local := Local(scheme, self, ownKeys, now);
            !AcceptsDirect(scheme, local, ToFields(local))
  {
    var local := Local(scheme, self, ownKeys, now);
    LocalParts(scheme, self, ownKeys, now);
    OwnSignaturesVerify(scheme, KeyBody(local, map[]), ownKeys);
    OwnRowsHave(ownKeys);
    assert key.id !in local.verifyKeys;
    assert key.id in local.SignaturesOf(self);
  }

  /** The keys of a server of this kind can all be used by others: there are some, and none has expired. */
  predicate Usable(self: ServerName, ownKeys: seq<OwnKey>) {
    self != "" && ownKeys != [] && forall key | key in ownKeys :: key.expiresTs <= 0
  }

  /**
    A server of this kind accepts what another one publishes about itself if and only if there is a key
    to publish and none has expired: expired keys sign too, but a direct reply is checked with its
    current keys alone.
   */
  lemma LocalKeysAreAcceptedIff(scheme: Scheme, self: ServerName, ownKeys: seq<OwnKey>, now: int)
    requires scheme.Sound() && OwnKeysMatch(scheme, ownKeys) && DistinctKeyIds(ownKeys) && IsClock(now)
    ensures var local := Local(scheme, self, ownKeys, now);
            AcceptsDirect(scheme, local, ToFields(local)) <==> Usable(self, ownKeys)
  {
    if key :| key in ownKeys && key.expiresTs > 0 {
      ExpiredKeyIsRejected(scheme, self, ownKeys, now, key);
    } else if self != "" && ownKeys != [] {
      UnexpiredKeysArePublished(scheme, ownKeys);
      MatchingKeysAreAccepted(scheme, self, ownKeys, now, CurrentKeys(OwnRows(ownKeys)));
    }
  }

  // ---------------------------------------------------------------- the relay

  /** A served object, as its receiver decodes it. */
  function Relayed(scheme: Scheme, self: ServerName, ownKeys: seq<OwnKey>, info: ServerKeys, raw: Fields): ServerKeys
    requires forall key | key in ownKeys :: Loads(scheme, key)
  {
    info.(signatures := Some(map[self := Some(OwnSignatures(scheme, KeyBody(info, AdditionalFields(raw)), ownKeys)),
                                 info.serverName := Some(info.SignaturesOf(info.serverName))]))
  }

  lemma RelayedParts(scheme: Scheme, self: ServerName, ownKeys: seq<OwnKey>, info: ServerKeys, raw: Fields, obj: Fields)
    requires (forall key | key in ownKeys :: Loads(scheme, key)) && ServedObject(scheme, self, ownKeys, info, raw, obj)
    ensures obj == FullObject(Relayed(scheme, self, ownKeys, info, raw), AdditionalFields(raw))
    ensures AdditionalFields(obj) == AdditionalFields(raw)
  {
    var additional, relayed := AdditionalFields(raw), Relayed(scheme, self, ownKeys, info, raw);
    var full := FullObject(relayed, additional);
    BodyIgnoresSignatures(info, relayed, additional);
    FullObjectParts(relayed, additional);
    assert SameUnsigned(full, raw);
    SameParts(obj, full);
    FullObjectAdds(relayed, additional);
  }

  /** An object is determined by its signed part, `unsigned` and its signatures. */
  lemma SameParts(a: Fields, b: Fields)
    requires SignedPart(a) == SignedPart(b) && SameUnsigned(a, b)
    requires "signatures" in a && "signatures" in b && a["signatures"] == b["signatures"]
    ensures a == b
  {
    forall k: string | k !in {"unsigned", "signatures"} ensures (k in a <==> k in b) && (k in a ==> a[k] == b[k]) {
      assert k in a <==> k in SignedPart(a);
      assert k in b <==> k in SignedPart(b);
      assert k in a ==> SignedPart(a)[k] == a[k] && SignedPart(b)[k] == b[k];
    }
  }

  lemma FullObjectAdds(info: ServerKeys, additional: Fields)
    requires additional.Keys !! STANDARD_FIELDS
    ensures AdditionalFields(FullObject(info, additional)) == additional
  {
    assert ToFields(info).Keys == STANDARD_FIELDS;
  }

  /**
    The relay: what this server serves about another one is accepted by a receiver that trusts it as a notary
    and fetches its published keys, if and only if this server's keys are usable and the origin signed at
    all; and what the receiver then keeps is the reply as the origin signed it.
   */
  lemma ServedKeysAreAcceptedDownstreamIff(scheme: Scheme, self: ServerName, ownKeys: seq<OwnKey>, info: ServerKeys,
                                           raw: Fields, obj: Fields, now: int)
    requires scheme.Sound() && OwnKeysMatch(scheme, ownKeys) && DistinctKeyIds(ownKeys) && IsClock(now)
    requires AcceptsDirect(scheme, info, raw) && info.serverName != self
    requires ServedObject(scheme, self, ownKeys, info, raw, obj)
    ensures var local, relayed := Local(scheme, self, ownKeys, now), Relayed(scheme, self, ownKeys, info, raw);
            && obj == FullObject(relayed, AdditionalFields(raw)) && HeldKeysDecode(scheme, KeyRows(local))
            && (AcceptsDirect(scheme, local, ToFields(local))
                && AcceptsViaNotary(scheme, self, relayed, obj, NotaryVerifyKeys(scheme, KeyRows(local)))
                <==> Usable(self, ownKeys) && info.SignaturesOf(info.serverName) != map[])
            && Retained(relayed) == info && AdditionalFields(obj) == AdditionalFields(raw)
  {
    LocalKeysAreAcceptedIff(scheme, self, ownKeys, now);
    PublishedKeysAreHeld(scheme, self, ownKeys, now);
    RelayedParts(scheme, self, ownKeys, info, raw, obj);
    RelayedSignatures(scheme, self, ownKeys, info, raw);
    if Usable(self, ownKeys) && info.SignaturesOf(info.serverName) != map[] {
      RelayedIsAccepted(scheme, self, ownKeys, info, raw, obj);
    }
  }

  /** Whoever stores the published object holds all keys that ever signed, the expired ones included. */
  lemma PublishedKeysAreHeld(scheme: Scheme, self: ServerName, ownKeys: seq<OwnKey>, now: int)
    requires DistinctKeyIds(ownKeys) && IsClock(now) && forall key | key in ownKeys :: Loads(scheme, key)
    ensures var rows := KeyRows(Local(scheme, self, ownKeys, now));
            HeldKeysDecode(scheme, rows) && NotaryVerifyKeys(scheme, rows) == OwnPublicKeys(scheme, ownKeys)
  {
    var rows := CurrentRows(CurrentKeys(OwnRows(ownKeys))) + ExpiredRows(ExpiredKeys(OwnRows(ownKeys)));
    assert KeyRows(Local(scheme, self, ownKeys, now)) == rows;
    SplitRowsDecode(scheme, ownKeys);
    NotaryKeysOf(scheme, rows, OwnPublicKeys(scheme, ownKeys));
  }

  lemma NotaryKeysOf(scheme: Scheme, rows: map<KeyId, KeyRow>, keys: map<KeyId, Bytes>)
    requires rows.Keys == keys.Keys && forall id | id in rows :: scheme.decode(rows[id].publicKey) == Some(keys[id])
    ensures HeldKeysDecode(scheme, rows) && NotaryVerifyKeys(scheme, rows) == keys
  {
  }

  lemma SplitRowsDecode(scheme: Scheme, ownKeys: seq<OwnKey>)
    requires DistinctKeyIds(ownKeys) && forall key | key in ownKeys :: Loads(scheme, key)
    ensures var again, keys := CurrentRows(CurrentKeys(OwnRows(ownKeys))) + ExpiredRows(ExpiredKeys(OwnRows(ownKeys))),
              OwnPublicKeys(scheme, ownKeys);
            again.Keys == keys.Keys && forall id | id in again :: scheme.decode(again[id].publicKey) == Some(keys[id])
  {
    OwnRowsHave(ownKeys);
    OwnPublicKeysHave(scheme, ownKeys);
    SplitRowsKeepKeys(OwnRows(ownKeys));
    var again := CurrentRows(CurrentKeys(OwnRows(ownKeys))) + ExpiredRows(ExpiredKeys(OwnRows(ownKeys)));
    forall id | id in again ensures scheme.decode(again[id].publicKey) == Some(OwnPublicKeys(scheme, ownKeys)[id]) {
      var key :| key in ownKeys && key.id == id;
      assert Loads(scheme, key);
    }
  }

  /** Splitting rows into current and expired keys and joining them again loses no key. */
  lemma SplitRowsKeepKeys(rows: map<KeyId, KeyRow>)
    ensures var again := CurrentRows(CurrentKeys(rows)) + ExpiredRows(ExpiredKeys(rows));
            again.Keys == rows.Keys && forall id | id in rows :: again[id].publicKey == rows[id].publicKey
  {
  }

  lemma RelayedIsAccepted(scheme: Scheme, self: ServerName, ownKeys: seq<OwnKey>, info: ServerKeys, raw: Fields,
                          obj: Fields)
    requires scheme.Sound() && OwnKeysMatch(scheme, ownKeys) && ownKeys != []
    requires AcceptsDirect(scheme, info, raw) && info.SignaturesOf(info.serverName) != map[] && info.serverName != self
    requires AdditionalFields(obj) == AdditionalFields(raw)
    ensures var relayed := Relayed(scheme, self, ownKeys, info, raw);
            AcceptsViaNotary(scheme, self, relayed, obj, OwnPublicKeys(scheme, ownKeys)) && Retained(relayed) == info
  {
    var relayed := Relayed(scheme, self, ownKeys, info, raw);
    var body := KeyBody(info, AdditionalFields(raw));
    BodyIgnoresSignatures(info, relayed, AdditionalFields(raw));
    OwnSignaturesVerify(scheme, body, ownKeys);
    assert ownKeys[0].id in OwnSignatures(scheme, body, ownKeys);
    RelayedSignatures(scheme, self, ownKeys, info, raw);
  }

  lemma RelayedSignatures(scheme: Scheme, self: ServerName, ownKeys: seq<OwnKey>, info: ServerKeys, raw: Fields)
    requires (forall key | key in ownKeys :: Loads(scheme, key)) && info.serverName != self
    requires SignedAlone(info)
    ensures var relayed := Relayed(scheme, self, ownKeys, info, raw);
            && relayed.SignaturesOf(self) == OwnSignatures(scheme, KeyBody(info, AdditionalFields(raw)), ownKeys)
            && relayed.SignaturesOf(info.serverName) == info.SignaturesOf(info.serverName)
            && Retained(relayed) == info
  {
    var relayed, body := Relayed(scheme, self, ownKeys, info, raw), KeyBody(info, AdditionalFields(raw));
    TwoDomains(info, self, OwnSignatures(scheme, body, ownKeys));
    RetainedOf(info, relayed);
  }

  lemma TwoDomains(info: ServerKeys, self: ServerName, own: map<KeyId, string>)
    requires info.serverName != self
    ensures var origin := info.SignaturesOf(info.serverName);
            var both := info.(signatures := Some(map[self := Some(own), info.serverName := Some(origin)]));
            both.SignaturesOf(self) == own && both.SignaturesOf(info.serverName) == origin
  {
  }

  lemma RetainedOf(info: ServerKeys, relayed: ServerKeys)
    requires relayed == info.(signatures := relayed.signatures)
    requires SignedAlone(info)
    requires relayed.SignaturesOf(info.serverName) == info.SignaturesOf(info.serverName)
    ensures Retained(relayed) == info
  {
    assert info.signatures.value == map[info.serverName := Some(info.SignaturesOf(info.serverName))];
  }

  // ---------------------------------------------------------------- end to end

  /** A published object splits into rows and comes back: its ids are distinct, its old keys expired. */
  lemma LocalIsRebuildable(scheme: Scheme, self: ServerName, ownKeys: seq<OwnKey>, now: int)
    requires IsClock(now) && forall key | key in ownKeys :: Loads(scheme, key)
    ensures var local := Local(scheme, self, ownKeys, now);
            && local.verifyKeys.Keys !! local.OldKeys().Keys && OldKeysReturn(local) && UnsignedIsPlain(ToFields(local))
  {
  }

  /**
    End to end between servers of this kind: what an origin publishes is accepted by a reservoir that
    fetches it, stored whatever was stored before, and served with the origin's signed part and
    signatures unchanged, if and only if the origin's keys are usable.
   */
  lemma PublishedKeysAreServedIff(scheme: Scheme, origin: ServerName, originKeys: seq<OwnKey>, self: ServerName,
                                  ownKeys: seq<OwnKey>, t: Tables, now: int, storeNow: int, order: InsertOrder)
    requires scheme.Sound() && OwnKeysMatch(scheme, originKeys) && OwnKeysMatch(scheme, ownKeys)
    requires DistinctKeyIds(originKeys) && IsClock(now) && origin != self
    requires Orders(order, Local(scheme, origin, originKeys, now))
    ensures var info := Local(scheme, origin, originKeys, now);
            var out := Store(t, info, AdditionalFields(ToFields(info)), "", storeNow, order);
            AcceptsDirect(scheme, info, ToFields(info)) && out.ok && out.tables.row.Some?
            && ComesThrough(scheme, self, ownKeys, info, ToFields(info), HeldOf(origin, out.tables))
            <==> Usable(origin, originKeys)
  {
    var info := Local(scheme, origin, originKeys, now);
    LocalKeysAreAcceptedIff(scheme, origin, originKeys, now);
    if Usable(origin, originKeys) {
      LocalIsRebuildable(scheme, origin, originKeys, now);
      DirectReplyRoundTripIff(scheme, self, ownKeys, t, info, ToFields(info), storeNow, order);
    }
  }
}
