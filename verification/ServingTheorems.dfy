/**
  The way of a reply through the reservoir: accepted, split into rows, stored, loaded, put back together
  and signed again, it is the same signed object, and still verifies.
 */
module ServingTheorems {
  import opened Base
  import opened Signing
  import opened KeyRecords
  import opened Schedule
  import opened Tables
  import opened Events
  import opened Resolution
  import opened Worlds
  import opened Serving

  // ---------------------------------------------------------------- rebuilding

  /** The record holds this reply, all of it and nothing else. */
  predicate Holds(held: Held, info: ServerKeys, raw: Fields, via: string) {
    Storable(info) && held.server == info.serverName
        && HeldBundle(held) == ReplyBundle(info, AdditionalFields(raw), via)
  }

  /** Old keys come back as old keys: the map is there, and every expiry is positive. */
  predicate OldKeysReturn(info: ServerKeys) {
    info.oldVerifyKeys.Some? && AllExpired(info.OldKeys())
  }

  predicate AllExpired(keys: map<KeyId, OldKey>) {
    forall id | id in keys :: keys[id].expiredTs > 0
  }

  /** Splitting the key rows again gives the two maps back exactly when every old key has a positive expiry. */
  lemma KeyRowsSplitIff(info: ServerKeys)
    requires Storable(info)
    ensures CurrentKeys(KeyRows(info)) == info.verifyKeys <==> AllExpired(info.OldKeys())
    ensures AllExpired(info.OldKeys()) ==> ExpiredKeys(KeyRows(info)) == info.OldKeys()
  {
    var rows := KeyRows(info);
    forall id | id in info.OldKeys() ensures rows[id] == KeyRow(info.OldKeys()[id].key, info.OldKeys()[id].expiredTs) {
    }
    if AllExpired(info.OldKeys()) {
      assert CurrentKeys(rows) == info.verifyKeys;
      assert ExpiredKeys(rows) == info.OldKeys();
    } else {
      var id :| id in info.OldKeys() && info.OldKeys()[id].expiredTs <= 0;
      assert id in CurrentKeys(rows) && id !in info.verifyKeys;
    }
  }

  lemma JsonDeterminesKeys(a: map<KeyId, string>, b: map<KeyId, string>)
    requires VerifyKeysJson(a) == VerifyKeysJson(b)
    ensures a == b
  {
    var x, y := VerifyKeysJson(a).fields, VerifyKeysJson(b).fields;
    assert a.Keys == x.Keys == y.Keys == b.Keys;
    forall id | id in a ensures a[id] == b[id] {
      assert x[id] == y[id];
      assert x[id].fields["key"] == Str(a[id]) && y[id].fields["key"] == Str(b[id]);
    }
  }

  /**
    Round trip of the signed part: a stored reply is put back together to exactly the object that was
    signed if and only if its old keys come back as old keys. A null `old_verify_keys` comes back as an
    empty object, and an old key without a positive expiry comes back as a current key.
   */
  lemma RebuildsTheSignedPartIff(self: ServerName, info: ServerKeys, raw: Fields, via: string, held: Held)
    requires Holds(held, info, raw, via)
    ensures SignedPart(Expanded(self, held)) == KeyBody(info, AdditionalFields(raw)) <==> OldKeysReturn(info)
  {
    var rebuilt, additional := Rebuilt(self, held), AdditionalFields(raw);
    KeyRowsSplitIff(info);
    ExpandedIsFull(self, held, additional);
    assert KeyBody(rebuilt, additional) == KeyBody(info, additional) <==> OldKeysReturn(info) by {
      if KeyBody(rebuilt, additional) == KeyBody(info, additional) {
        BodyDeterminesKeys(rebuilt, info, additional);
      } else {
        SameTypedPartSameBody(rebuilt, info, additional);
      }
    }
  }

  /** What of the typed form can be read off the signed part. */
  lemma BodyHolds(info: ServerKeys, additional: Fields)
    requires additional.Keys !! STANDARD_FIELDS
    ensures var body := KeyBody(info, additional);
            && {"server_name", "valid_until_ts", "verify_keys", "old_verify_keys"} <= body.Keys
            && body["server_name"] == Str(info.serverName)
            && body["valid_until_ts"] == Num(info.validUntilTs)
            && body["verify_keys"] == VerifyKeysJson(info.verifyKeys)
            && body["old_verify_keys"] == if info.oldVerifyKeys.None? then Null
                else OldKeysJson(info.oldVerifyKeys.value)
  {
  }

  lemma BodyDeterminesKeys(a: ServerKeys, b: ServerKeys, additional: Fields)
    requires additional.Keys !! STANDARD_FIELDS && KeyBody(a, additional) == KeyBody(b, additional)
    ensures a.verifyKeys == b.verifyKeys
    ensures a.oldVerifyKeys.Some? <==> b.oldVerifyKeys.Some?
  {
    BodyHolds(a, additional);
    BodyHolds(b, additional);
    JsonDeterminesKeys(a.verifyKeys, b.verifyKeys);
  }

  lemma SameTypedPartSameBody(a: ServerKeys, b: ServerKeys, additional: Fields)
    ensures a.(signatures := b.signatures) == b ==> KeyBody(a, additional) == KeyBody(b, additional)
  {
    if a.(signatures := b.signatures) == b {
      BodyIgnoresSignatures(b, a, additional);
    }
  }

  /** Additional fields never clash with the typed ones, so the order of the overlay does not matter. */
  lemma ExpandedIsFull(self: ServerName, held: Held, additional: Fields)
    requires held.extra == additional && additional.Keys !! STANDARD_FIELDS
    ensures Expanded(self, held) == FullObject(Rebuilt(self, held), additional)
  {
    assert ToFields(Rebuilt(self, held)).Keys == STANDARD_FIELDS;
  }

  // ---------------------------------------------------------------- serving

  /** The public half of each of our keys is that of its private half. */
  predicate OwnKeysMatch(scheme: Scheme, ownKeys: seq<OwnKey>) {
    forall key | key in ownKeys ::
      Loads(scheme, key) && scheme.decode(key.publicKey).value == scheme.publicOf(scheme.decode(key.privateKey).value)
  }

  lemma {:induction false} OwnSignaturesVerify(scheme: Scheme, body: Fields, ownKeys: seq<OwnKey>)
    requires scheme.Sound() && OwnKeysMatch(scheme, ownKeys)
    ensures DomainVouches(scheme, OwnPublicKeys(scheme, ownKeys), body, OwnSignatures(scheme, body, ownKeys))
    ensures OwnPublicKeys(scheme, ownKeys).Keys == OwnSignatures(scheme, body, ownKeys).Keys ==
              set key | key in ownKeys :: key.id
  {
    if ownKeys == [] {
    } else {
      var most, last := ownKeys[..|ownKeys| - 1], ownKeys[|ownKeys| - 1];
      OwnSignaturesVerify(scheme, body, most);
      assert ownKeys == most + [last];
      assert Loads(scheme, last);
      var priv := scheme.decode(last.privateKey).value;
      assert ValidSignature(scheme, scheme.publicOf(priv), body, Str(SignatureOf(scheme, body, priv)));
    }
  }

  /** `unsigned` is missing, or an object. */
  predicate UnsignedIsPlain(raw: Fields) {
    "unsigned" in raw ==> raw["unsigned"].Obj?
  }

  /** A rebuilt object can be signed exactly when its `unsigned` is plain. */
  lemma ExpandedIsSignableIff(self: ServerName, held: Held, raw: Fields)
    requires held.extra == AdditionalFields(raw)
    ensures Signable(Expanded(self, held), "a") <==> UnsignedIsPlain(raw)
  {
    var expanded := Expanded(self, held);
    ExpandedIsFull(self, held, held.extra);
    FullObjectParts(Rebuilt(self, held), held.extra);
    assert "unsigned" in expanded <==> "unsigned" in raw;
    assert "unsigned" in raw ==> expanded["unsigned"] == raw["unsigned"];
  }

  /** The object to be served: the signed part as it was, the origin's signatures as they were, and ours. */
  predicate ServedObject(scheme: Scheme, self: ServerName, ownKeys: seq<OwnKey>, info: ServerKeys, raw: Fields,
                         obj: Fields)
    requires forall key | key in ownKeys :: Loads(scheme, key)
  {
    var body := KeyBody(info, AdditionalFields(raw));
    && SignedPart(obj) == body && SameUnsigned(obj, raw)
    && "signatures" in obj
    && obj["signatures"] == SignaturesJson(map[self := Some(OwnSignatures(scheme, body, ownKeys)),
                                           info.serverName := Some(info.SignaturesOf(info.serverName))])
  }

  predicate SameUnsigned(obj: Fields, raw: Fields) {
    ("unsigned" in obj <==> "unsigned" in raw) && ("unsigned" in raw ==> obj["unsigned"] == raw["unsigned"])
  }

  /** The response is the rebuilt object, with the signatures put in. */
  lemma ResponseMeaning(scheme: Scheme, self: ServerName, ownKeys: seq<OwnKey>, held: Held)
    requires held.extra.Keys !! STANDARD_FIELDS && forall key | key in ownKeys :: Loads(scheme, key)
    ensures var response, body := Response(scheme, self, ownKeys, held), SignedPart(Expanded(self, held));
            && SignedPart(response) == body && SameUnsigned(response, held.extra)
            && "signatures" in response
            && response["signatures"] == SignaturesJson(ResponseSignatures(self, OwnSignatures(scheme, body, ownKeys),
                held))
  {
    var expanded, response := Expanded(self, held), Response(scheme, self, ownKeys, held);
    assert response == expanded["signatures" := response["signatures"]];
    assert SignedPart(response) == SignedPart(expanded);
  }

  lemma ResponseParts(scheme: Scheme, self: ServerName, ownKeys: seq<OwnKey>, info: ServerKeys, raw: Fields,
                      via: string, held: Held)
    requires Holds(held, info, raw, via) && OldKeysReturn(info) && info.serverName != self
    requires SignedAlone(info)
    requires forall key | key in ownKeys :: Loads(scheme, key)
    ensures ServedObject(scheme, self, ownKeys, info, raw, Response(scheme, self, ownKeys, held))
  {
    RebuildsTheSignedPartIff(self, info, raw, via, held);
    ResponseMeaning(scheme, self, ownKeys, held);
    SingleSignerRows(info);
    MakesServedObject(scheme, self, ownKeys, info, raw, held, Response(scheme, self, ownKeys, held));
  }

  lemma MakesServedObject(scheme: Scheme, self: ServerName, ownKeys: seq<OwnKey>, info: ServerKeys, raw: Fields,
                          held: Held, obj: Fields)
    requires forall key | key in ownKeys :: Loads(scheme, key)
    requires held.server == info.serverName != self && held.signatures == info.SignaturesOf(info.serverName)
    requires SignedPart(obj) == KeyBody(info, AdditionalFields(raw)) && SameUnsigned(obj, AdditionalFields(raw))
    requires "signatures" in obj
             && obj["signatures"] == SignaturesJson(ResponseSignatures(self,
                 OwnSignatures(scheme, KeyBody(info, AdditionalFields(raw)), ownKeys), held))
    ensures ServedObject(scheme, self, ownKeys, info, raw, obj)
  {
    assert SameUnsigned(AdditionalFields(raw), raw);
  }

  /** The signature rows of a reply that only its own server signed are that server's signatures. */
  lemma SingleSignerRows(info: ServerKeys)
    requires Storable(info) && SignedAlone(info)
    ensures SignatureRows(info) == info.SignaturesOf(info.serverName)
  {
    var signatures := info.SignaturesOf(info.serverName);
    var rows := SignatureRows(info);
    forall id | id in signatures ensures id in rows && rows[id] == signatures[id] {
      var p := (info.serverName, id);
      assert p in SignaturePairs(info) && SignatureAt(info, p) == signatures[id];
    }
    forall id | id in rows ensures id in signatures {
      var p :| p in SignaturePairs(info) && p.1 == id;
    }
  }

  /** A served object passes the check under a ring with the origin's keys and ours. */
  lemma ServedObjectVerifies(scheme: Scheme, self: ServerName, ownKeys: seq<OwnKey>, info: ServerKeys, raw: Fields,
                             obj: Fields)
    requires scheme.Sound() && OwnKeysMatch(scheme, ownKeys) && AcceptsDirect(scheme, info, raw)
              && info.serverName != self
    requires ServedObject(scheme, self, ownKeys, info, raw, obj)
    ensures Verifies(scheme, obj, map[self := OwnPublicKeys(scheme, ownKeys),
              info.serverName := DecodedKeys(scheme, info.verifyKeys)])
  {
    var body := KeyBody(info, AdditionalFields(raw));
    OwnSignaturesVerify(scheme, body, ownKeys);
    var ours, theirs := OwnSignatures(scheme, body, ownKeys), info.SignaturesOf(info.serverName);
    TwoSigners(self, ours, info.serverName, theirs);
    var signatures := SignatureFields(obj);
    assert signatures.Keys == {self, info.serverName};
    var ring: KeyRing := map[self := OwnPublicKeys(scheme, ownKeys),
        info.serverName := DecodedKeys(scheme, info.verifyKeys)];
    PairVerdict(scheme, ring, body, signatures, self, ours, info.serverName, theirs);
  }

  lemma ResponseVerifies(scheme: Scheme, self: ServerName, ownKeys: seq<OwnKey>, info: ServerKeys, raw: Fields,
                         via: string, held: Held)
    requires scheme.Sound() && OwnKeysMatch(scheme, ownKeys)
    requires AcceptsDirect(scheme, info, raw) && Holds(held, info, raw, via) && OldKeysReturn(info)
              && info.serverName != self
    ensures KeysDecode(scheme, CurrentKeys(held.keys))
    ensures ServedObject(scheme, self, ownKeys, info, raw, Response(scheme, self, ownKeys, held))
    ensures Verifies(scheme, Response(scheme, self, ownKeys, held), RingFor(scheme, self, ownKeys, held))
  {
    KeyRowsSplitIff(info);
    ResponseParts(scheme, self, ownKeys, info, raw, via, held);
    ServedObjectVerifies(scheme, self, ownKeys, info, raw, Response(scheme, self, ownKeys, held));
  }

  /** A reply comes through: it is served with its signed part and its origin's signatures as they were. */
  predicate ComesThrough(scheme: Scheme, self: ServerName, ownKeys: seq<OwnKey>, info: ServerKeys, raw: Fields,
                         held: Held)
    requires forall key | key in ownKeys :: Loads(scheme, key)
  {
    var r := Prepared(scheme, self, ownKeys, info.serverName, held);
    r.Serves? && ServedObject(scheme, self, ownKeys, info, raw, r.obj)
  }

  /** What it takes beyond acceptance: old keys that come back as such, and something that can be signed. */
  predicate Serviceable(info: ServerKeys, raw: Fields, ownKeys: seq<OwnKey>) {
    OldKeysReturn(info) && (ownKeys == [] || UnsignedIsPlain(raw))
  }

  /**
    Store-to-serve round trip, for a record that holds an accepted reply: it is served unchanged, but for our
    own signatures, if and only if its `old_verify_keys` is there with positive expiries and its `unsigned`,
    unless there is nothing to sign with, is an object or missing. Acceptance checks neither.
   */
  lemma HeldReplyIsServedIff(scheme: Scheme, self: ServerName, ownKeys: seq<OwnKey>, info: ServerKeys, raw: Fields,
                             via: string, held: Held)
    requires scheme.Sound() && OwnKeysMatch(scheme, ownKeys)
    requires AcceptsDirect(scheme, info, raw) && Holds(held, info, raw, via) && info.serverName != self
    ensures ComesThrough(scheme, self, ownKeys, info, raw, held) <==> Serviceable(info, raw, ownKeys)
  {
    HeldReplyHasKeys(scheme, info, raw, via, held);
    if OldKeysReturn(info) {
      ResponseVerifies(scheme, self, ownKeys, info, raw, via, held);
      ExpandedIsSignableIff(self, held, raw);
      PreparedVerdict(scheme, self, ownKeys, held);
    } else if ComesThrough(scheme, self, ownKeys, info, raw, held) {
      ServedPartIsRebuilt(scheme, self, ownKeys, held);
      RebuildsTheSignedPartIff(self, info, raw, via, held);
    }
  }

  lemma HeldReplyHasKeys(scheme: Scheme, info: ServerKeys, raw: Fields, via: string, held: Held)
    requires AcceptsDirect(scheme, info, raw) && Holds(held, info, raw, via)
    ensures held.keys != map[]
  {
    var id :| id in info.verifyKeys;
    assert id in held.keys;
  }

  /** The signed part of whatever is served is that of the rebuilt object. */
  lemma ServedPartIsRebuilt(scheme: Scheme, self: ServerName, ownKeys: seq<OwnKey>, held: Held)
    requires held.extra.Keys !! STANDARD_FIELDS && held.keys != map[] && forall key | key in ownKeys ::
              Loads(scheme, key)
    ensures var r := Prepared(scheme, self, ownKeys, held.server, held);
            r.Serves? ==> SignedPart(r.obj) == SignedPart(Expanded(self, held))
  {
    ResponseMeaning(scheme, self, ownKeys, held);
  }

  lemma PreparedVerdict(scheme: Scheme, self: ServerName, ownKeys: seq<OwnKey>, held: Held)
    requires held.keys != map[] && KeysDecode(scheme, CurrentKeys(held.keys))
              && (forall key | key in ownKeys :: Loads(scheme, key))
    requires Verifies(scheme, Response(scheme, self, ownKeys, held), RingFor(scheme, self, ownKeys, held))
    ensures Prepared(scheme, self, ownKeys, held.server, held) ==
            if ownKeys == [] || Signable(Expanded(self, held), "a") then Serves(Response(scheme, self, ownKeys, held))
                else Refuses(CannotSign)
  {
  }

  /**
    The last check lets every record through that carries no signature of its origin, whatever it holds: a
    domain that lists none passes. Such a record is served, with our signatures alone, if and only if its
    current keys can be read and, unless there is nothing to sign with, its `unsigned` is plain.
   */
  lemma UnsignedRecordIsServedIff(scheme: Scheme, self: ServerName, ownKeys: seq<OwnKey>, held: Held)
    requires scheme.Sound() && OwnKeysMatch(scheme, ownKeys)
    requires held.server != self && held.extra.Keys !! STANDARD_FIELDS
    requires held.keys != map[] && held.signatures == map[]
    ensures var r := Prepared(scheme, self, ownKeys, held.server, held);
            && (r.Serves? <==>
                KeysDecode(scheme, CurrentKeys(held.keys)) && (ownKeys == [] || UnsignedIsPlain(held.extra)))
            && (r.Serves? ==> SignedByUsAlone(scheme, self, ownKeys, held.server, r.obj))
  {
    ExtraIsSignableIff(self, held);
    if KeysDecode(scheme, CurrentKeys(held.keys)) {
      UnsignedVerdict(scheme, self, ownKeys, held);
    }
  }

  lemma ExtraIsSignableIff(self: ServerName, held: Held)
    requires held.extra.Keys !! STANDARD_FIELDS
    ensures Signable(Expanded(self, held), "a") <==> UnsignedIsPlain(held.extra)
  {
    assert AdditionalFields(held.extra) == held.extra;
    ExpandedIsSignableIff(self, held, held.extra);
  }

  lemma UnsignedVerdict(scheme: Scheme, self: ServerName, ownKeys: seq<OwnKey>, held: Held)
    requires scheme.Sound() && OwnKeysMatch(scheme, ownKeys)
    requires held.server != self && held.extra.Keys !! STANDARD_FIELDS
    requires held.keys != map[] && held.signatures == map[] && KeysDecode(scheme, CurrentKeys(held.keys))
    ensures var r := Prepared(scheme, self, ownKeys, held.server, held);
            && (r.Serves? <==> ownKeys == [] || Signable(Expanded(self, held), "a"))
            && (r.Serves? ==> SignedByUsAlone(scheme, self, ownKeys, held.server, r.obj))
  {
    UnsignedResponseVerifies(scheme, self, ownKeys, held);
    PreparedVerdict(scheme, self, ownKeys, held);
  }

  /** Signed by ourselves, and by the origin not at all. */
  predicate SignedByUsAlone(scheme: Scheme, self: ServerName, ownKeys: seq<OwnKey>, server: ServerName, obj: Fields)
    requires forall key | key in ownKeys :: Loads(scheme, key)
  {
    var own := OwnSignatures(scheme, SignedPart(obj), ownKeys);
    "signatures" in obj && obj["signatures"] == SignaturesJson(map[self := Some(own), server := Some(map[])])
  }

  lemma UnsignedResponseVerifies(scheme: Scheme, self: ServerName, ownKeys: seq<OwnKey>, held: Held)
    requires scheme.Sound() && OwnKeysMatch(scheme, ownKeys)
    requires held.server != self && held.extra.Keys !! STANDARD_FIELDS && held.signatures == map[]
    requires KeysDecode(scheme, CurrentKeys(held.keys))
    ensures var response := Response(scheme, self, ownKeys, held);
            && Verifies(scheme, response, RingFor(scheme, self, ownKeys, held))
            && SignedByUsAlone(scheme, self, ownKeys, held.server, response)
  {
    ResponseMeaning(scheme, self, ownKeys, held);
    OurSignaturesSuffice(scheme, self, ownKeys, held.server, DecodedKeys(scheme, CurrentKeys(held.keys)),
        Response(scheme, self, ownKeys, held));
  }

  lemma OurSignaturesSuffice(scheme: Scheme, self: ServerName, ownKeys: seq<OwnKey>, server: ServerName,
                             keys: map<KeyId, Bytes>, obj: Fields)
    requires scheme.Sound() && OwnKeysMatch(scheme, ownKeys) && self != server
    requires SignedByUsAlone(scheme, self, ownKeys, server, obj)
    ensures Verifies(scheme, obj, map[self := OwnPublicKeys(scheme, ownKeys), server := keys])
  {
    var body := SignedPart(obj);
    var own, ring: KeyRing := OwnSignatures(scheme, body, ownKeys),
        map[self := OwnPublicKeys(scheme, ownKeys), server := keys];
    OwnSignaturesVerify(scheme, body, ownKeys);
    TwoSigners(self, own, server, map[]);
    PairVerdict(scheme, ring, body, SignatureFields(obj), self, own, server, map[]);
  }

  // ---------------------------------------------------------------- end to end

  /** A stored reply is held whole. */
  lemma StoredReplyIsHeld(t: Tables, info: ServerKeys, raw: Fields, via: string, now: int, order: InsertOrder)
    requires Orders(order, info) && Storable(info) && !KeepsExisting(t, info, via)
    ensures var out := Store(t, info, AdditionalFields(raw), via, now, order);
            out.ok && out.tables.row.Some? && Holds(HeldOf(info.serverName, out.tables), info, raw, via)
  {
    StoreMeaning(t, info, AdditionalFields(raw), via, now, order);
  }

  /**
    From acceptance to service, for a direct reply, whatever was stored before: it is stored whole and served
    unchanged if and only if no key id is both current and old and the held reply is serviceable.
   */
  lemma DirectReplyRoundTripIff(scheme: Scheme, self: ServerName, ownKeys: seq<OwnKey>, t: Tables, info: ServerKeys,
                                raw: Fields, now: int, order: InsertOrder)
    requires scheme.Sound() && OwnKeysMatch(scheme, ownKeys) && info.serverName != self
    requires Orders(order, info) && AcceptsDirect(scheme, info, raw)
    ensures var out := Store(t, info, AdditionalFields(raw), "", now, order);
            out.ok && out.tables.row.Some? && ComesThrough(scheme, self, ownKeys, info, raw,
                HeldOf(info.serverName, out.tables))
            <==> info.verifyKeys.Keys !! info.OldKeys().Keys && Serviceable(info, raw, ownKeys)
  {
    SingleSignerIsStorableIffDisjoint(info);
    StoreMeaning(t, info, AdditionalFields(raw), "", now, order);
    if Storable(info) {
      StoredReplyIsHeld(t, info, raw, "", now, order);
      var held := HeldOf(info.serverName, Store(t, info, AdditionalFields(raw), "", now, order).tables);
      HeldReplyIsServedIff(scheme, self, ownKeys, info, raw, "", held);
    }
  }

  /** From acceptance to service, for a notary's answer that is fresher than what was stored before. */
  lemma NotaryReplyRoundTripIff(scheme: Scheme, self: ServerName, ownKeys: seq<OwnKey>, t: Tables, notary: ServerName,
                                notaryKeys: map<KeyId, Bytes>, info: ServerKeys, raw: Fields, now: int,
                                order: InsertOrder)
    requires scheme.Sound() && OwnKeysMatch(scheme, ownKeys) && info.serverName != self
    requires Validates(info) && notary != info.serverName && AcceptsViaNotary(scheme, notary, info, raw, notaryKeys)
    requires Orders(order, Retained(info)) && !KeepsExisting(t, Retained(info), notary)
    ensures var out := Store(t, Retained(info), AdditionalFields(raw), notary, now, order);
            out.ok && out.tables.row.Some? && ComesThrough(scheme, self, ownKeys, info, raw,
                HeldOf(info.serverName, out.tables))
            <==> info.verifyKeys.Keys !! info.OldKeys().Keys && Serviceable(info, raw, ownKeys)
  {
    var kept := Retained(info);
    RetainedStillVerifies(scheme, notary, info, raw, notaryKeys);
    SingleSignerIsStorableIffDisjoint(kept);
    StoreMeaning(t, kept, AdditionalFields(raw), notary, now, order);
    if Storable(kept) {
      StoredReplyIsHeld(t, kept, raw, notary, now, order);
      var held := HeldOf(info.serverName, Store(t, kept, AdditionalFields(raw), notary, now, order).tables);
      HeldReplyIsServedIff(scheme, self, ownKeys, kept, raw, notary, held);
      BodyIgnoresSignatures(info, kept, AdditionalFields(raw));
    }
  }

  // ---------------------------------------------------------------- what is never served

  /**
    Whatever is served under a server's name names that server, and passed the check under a ring that holds,
    for that server, exactly the keys that the object itself lists as current.
   */
  lemma ServesOnlyWhatVerifies(scheme: Scheme, self: ServerName, ownKeys: seq<OwnKey>, serverName: ServerName,
                               held: Held)
    requires held.extra.Keys !! STANDARD_FIELDS && serverName != self
    ensures var r, current := Prepared(scheme, self, ownKeys, serverName, held), CurrentKeys(held.keys);
            r.Serves? && held.keys != map[] ==>
              && {"server_name", "verify_keys"} <= r.obj.Keys
              && r.obj["server_name"] == Str(serverName) && r.obj["verify_keys"] == VerifyKeysJson(current)
              && KeysDecode(scheme, current) && (forall key | key in ownKeys :: Loads(scheme, key))
              && Verifies(scheme, r.obj, map[self := OwnPublicKeys(scheme, ownKeys),
                  serverName := DecodedKeys(scheme, current)])
  {
    if Prepared(scheme, self, ownKeys, serverName, held).Serves? && held.keys != map[] {
      var response := Response(scheme, self, ownKeys, held);
      ResponseMeaning(scheme, self, ownKeys, held);
      ExpandedIsFull(self, held, held.extra);
      BodyHolds(Rebuilt(self, held), held.extra);
      assert SignedPart(response)["server_name"] == Str(serverName);
      assert SignedPart(response)["verify_keys"] == VerifyKeysJson(CurrentKeys(held.keys));
    }
  }

  /** After an invalidation the signed part differs from what was signed, unless its validity was zero anyway. */
  lemma InvalidationChangesTheSignedPartIff(self: ServerName, server: ServerName, t: Tables)
    requires t.row.Some? && t.row.value.extra.Keys !! STANDARD_FIELDS
    ensures SignedPart(Expanded(self, HeldOf(server, InvalidateRemoteServer(t)))) ==
              SignedPart(Expanded(self, HeldOf(server, t)))
            <==> t.row.value.validUntilTs == 0
  {
    var before, after := HeldOf(server, t), HeldOf(server, InvalidateRemoteServer(t));
    ExpandedIsFull(self, before, before.extra);
    ExpandedIsFull(self, after, after.extra);
    assert SignedPart(Expanded(self, before))["valid_until_ts"] == Num(before.validUntilTs);
    assert SignedPart(Expanded(self, after))["valid_until_ts"] == Num(0);
    if before.validUntilTs == 0 {
      assert Rebuilt(self, after) == Rebuilt(self, before);
    }
  }

  /**
    Recovery: a record that fails the last check is invalidated, and then replaced by the next direct copy,
    or notary copy with positive validity, however long-lived the bad record claimed to be. Any other
    answer leaves every record as it was.
   */
  lemma FailedCheckClearsTheWay(c: Config, s: Site, ownKeys: seq<OwnKey>, serverName: ServerName, held: Held,
                                others: Others, next: Event)
    requires TablesOf(Meanwhile(s, c.cooldown, others).world, serverName).row.Some?
    requires next.StoreAttempt? && Storable(next.info) && (next.via == "" || next.info.validUntilTs > 0)
    ensures var (after, answer) := Answer(c, s, ownKeys, serverName, Some(held), others);
            var w := Meanwhile(s, c.cooldown, others).world;
            && (answer != Refuses(SignaturesDoNotVerify) ==> after == s)
            && (answer == Refuses(SignaturesDoNotVerify) ==>
                  && BundleOf(Apply(TablesOf(after.world, serverName), next)) ==
                      ReplyBundle(next.info, next.extra, next.via)
                  && forall other | other != serverName :: TablesOf(after.world, other) == TablesOf(w, other))
  {
    var w := Meanwhile(s, c.cooldown, others).world;
    var invalid := InvalidateRemoteServer(TablesOf(w, serverName));
    AnswerInvalidates(c, s, ownKeys, serverName, held, others);
    FirstUsableCopyReplaces(invalid, next);
    OneRecordChanges(w, serverName, invalid);
  }

  /**
    What a failed check may destroy. The check is made on the copy that was loaded, but the invalidation hits
    whatever the record holds by then: a direct copy that somebody stored in between, however good, loses its
    validity, and is never fresh again until the next copy comes.
   */
  lemma FailedCheckZeroesANewCopy(c: Config, s: Site, ownKeys: seq<OwnKey>, serverName: ServerName, held: Held,
                                  store: Event, minValidUntilTs: int, now: int)
    requires IsDirectStore(store) && Storable(store.info) && Answer(c, s, ownKeys, serverName, Some(held), NOBODY).1 ==
              Refuses(SignaturesDoNotVerify)
    requires 0 < now && IsClock(now)
    ensures var others: Others := OthersData([Step(serverName, store, false)], []);
            var (after, answer) := Answer(c, s, ownKeys, serverName, Some(held), others);
            var t := TablesOf(after.world, serverName);
            && answer == Refuses(SignaturesDoNotVerify)
            && BundleOf(t) == ReplyBundle(store.info, store.extra, "").(validUntilTs := 0)
            && !RowIsFresh(t, minValidUntilTs, now)
  {
    var stored := Apply(TablesOf(s.world, serverName), store);
    StoreMeaning(TablesOf(s.world, serverName), store.info, store.extra, "", store.now, store.order);
    var others: Others := OthersData([Step(serverName, store, false)], []);
    OneStepMeanwhile(s, c.cooldown, serverName, store);
    AnswerInvalidates(c, s, ownKeys, serverName, held, others);
    OneRecordChanges(Meanwhile(s, c.cooldown, others).world, serverName, InvalidateRemoteServer(stored));
    FreshIff(0, 0, minValidUntilTs, now);
  }

  lemma OneStepMeanwhile(s: Site, cooldown: int, server: ServerName, event: Event)
    requires !event.ProbeBegins?
    ensures var others: Others := OthersData([Step(server, event, false)], []);
            TablesOf(Meanwhile(s, cooldown, others).world, server) == Apply(TablesOf(s.world, server), event)
  {
    var step := Step(server, event, false);
    assert [step][1..] == [];
    assert RunSteps(StepOn(s.world, step), []) == StepOn(s.world, step);
  }

  lemma OneRecordChanges(w: World, server: ServerName, t: Tables)
    ensures TablesOf(w[server := t], server) == t
    ensures forall other | other != server :: TablesOf(w[server := t], other) == TablesOf(w, other)
  {
  }

  lemma AnswerInvalidates(c: Config, s: Site, ownKeys: seq<OwnKey>, serverName: ServerName, held: Held, others: Others)
    ensures var (after, answer) := Answer(c, s, ownKeys, serverName, Some(held), others);
            var s' := Meanwhile(s, c.cooldown, others);
            after == if answer == Refuses(SignaturesDoNotVerify)
                     then s'.(world := s'.world[serverName := InvalidateRemoteServer(TablesOf(s'.world, serverName))])
                     else s
  {
  }
}
