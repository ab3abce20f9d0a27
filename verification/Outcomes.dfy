/**
  What is served about a held record, field by field and signature by signature, and which of its refusals a
  record meets.
 */
module Outcomes {
  import opened Base
  import opened Signing
  import opened KeyRecords
  import opened Schedule
  import opened Tables
  import opened Worlds
  import opened Resolution
  import opened Serving
  import opened ServingTheorems
  import opened LocalKeys
  import opened Refusals

  // ---------------------------------------------------------------- our own signatures

  /** Each own key's signature is there under its id, made with its private half over the canonical form. */
  lemma {:induction false} OwnSignaturesAre(scheme: Scheme, body: Fields, ownKeys: seq<OwnKey>)
    requires DistinctKeyIds(ownKeys) && forall key | key in ownKeys :: Loads(scheme, key)
    ensures OwnSignatures(scheme, body, ownKeys).Keys == set key | key in ownKeys :: key.id
    ensures forall key | key in ownKeys ::
              OwnSignatures(scheme, body, ownKeys)[key.id] ==
              scheme.encode(scheme.sign(scheme.decode(key.privateKey).value, scheme.canonical(body)))
  {
    if ownKeys == [] {
    } else {
      LastIsDistinct(ownKeys);
      OwnSignaturesAre(scheme, body, ownKeys[..|ownKeys| - 1]);
    }
  }

  // ---------------------------------------------------------------- the served object

  ghost predicate ShowsCurrentKeys(j: Json, keys: map<KeyId, KeyRow>) {
    && j.Obj?
    && (forall id :: id in j.fields <==> id in keys && keys[id].expiresTs <= 0)
    && forall id | id in j.fields :: j.fields[id] == Obj(map["key" := Str(keys[id].publicKey)])
  }

  ghost predicate ShowsOldKeys(j: Json, keys: map<KeyId, KeyRow>) {
    && j.Obj?
    && (forall id :: id in j.fields <==> id in keys && keys[id].expiresTs > 0)
    && forall id | id in j.fields ::
        j.fields[id] == Obj(map["key" := Str(keys[id].publicKey), "expired_ts" := Num(keys[id].expiresTs)])
  }

  /** The origin's signatures as they are held, and one of ours for each own key, over the rest of the object. */
  ghost predicate ShowsSignatures(scheme: Scheme, self: ServerName, ownKeys: seq<OwnKey>, held: Held, obj: Fields) {
    && "signatures" in obj && obj["signatures"].Obj? && obj["signatures"].fields.Keys == {self, held.server}
    && var ours, theirs := obj["signatures"].fields[self], obj["signatures"].fields[held.server];
       && theirs.Obj? && theirs.fields.Keys == held.signatures.Keys
       && (forall id | id in held.signatures :: theirs.fields[id] == Str(held.signatures[id]))
       && ours.Obj? && (forall id :: id in ours.fields <==> exists key :: key in ownKeys && key.id == id)
       && forall key | key in ownKeys ::
           && scheme.decode(key.privateKey).Some? && key.id in ours.fields
           && ours.fields[key.id] == Str(scheme.encode(scheme.sign(scheme.decode(key.privateKey).value,
               scheme.canonical(obj - {"unsigned", "signatures"}))))
  }

  /** The served object shows all of the record, and nothing else. */
  ghost predicate Shows(scheme: Scheme, self: ServerName, ownKeys: seq<OwnKey>, held: Held, obj: Fields) {
    && obj.Keys == {"server_name", "valid_until_ts", "verify_keys", "old_verify_keys", "signatures"} + held.extra.Keys
    && obj["server_name"] == Str(held.server) && obj["valid_until_ts"] == Num(held.validUntilTs)
    && ShowsCurrentKeys(obj["verify_keys"], held.keys) && ShowsOldKeys(obj["old_verify_keys"], held.keys)
    && (forall k | k in held.extra :: obj[k] == held.extra[k])
    && ShowsSignatures(scheme, self, ownKeys, held, obj)
  }

  lemma ResponseFields(scheme: Scheme, self: ServerName, ownKeys: seq<OwnKey>, held: Held)
    requires held.server != self && held.extra.Keys !! STANDARD_FIELDS
    requires forall key | key in ownKeys :: Loads(scheme, key)
    ensures var obj := Response(scheme, self, ownKeys, held);
            && obj.Keys == STANDARD_FIELDS + held.extra.Keys
            && obj["server_name"] == Str(held.server) && obj["valid_until_ts"] == Num(held.validUntilTs)
            && obj["verify_keys"] == VerifyKeysJson(CurrentKeys(held.keys))
            && obj["old_verify_keys"] == OldKeysJson(ExpiredKeys(held.keys))
            && forall k | k in held.extra :: obj[k] == held.extra[k]
  {
    assert ToFields(Rebuilt(self, held)).Keys == STANDARD_FIELDS;
  }

  lemma KeysShown(keys: map<KeyId, KeyRow>)
    ensures ShowsCurrentKeys(VerifyKeysJson(CurrentKeys(keys)), keys)
    ensures ShowsOldKeys(OldKeysJson(ExpiredKeys(keys)), keys)
  {
    CurrentKeysShown(keys);
    OldKeysShown(keys);
  }

  lemma CurrentKeysShown(keys: map<KeyId, KeyRow>)
    ensures ShowsCurrentKeys(VerifyKeysJson(CurrentKeys(keys)), keys)
  {
    assert VerifyKeysJson(CurrentKeys(keys)).fields.Keys == CurrentKeys(keys).Keys;
  }

  lemma OldKeysShown(keys: map<KeyId, KeyRow>)
    ensures ShowsOldKeys(OldKeysJson(ExpiredKeys(keys)), keys)
  {
    assert OldKeysJson(ExpiredKeys(keys)).fields.Keys == ExpiredKeys(keys).Keys;
  }

  lemma PairShown(scheme: Scheme, self: ServerName, ownKeys: seq<OwnKey>, held: Held, own: map<KeyId, string>,
                  obj: Fields)
    requires held.server != self && forall key | key in ownKeys :: Loads(scheme, key)
    requires own.Keys == (set key | key in ownKeys :: key.id)
    requires forall key | key in ownKeys ::
               Loads(scheme, key) && own[key.id] ==
                   scheme.encode(scheme.sign(scheme.decode(key.privateKey).value, scheme.canonical(SignedPart(obj))))
    requires "signatures" in obj
             && obj["signatures"] == Obj(map[self := DomainSignaturesJson(own),
                                             held.server := DomainSignaturesJson(held.signatures)])
    ensures ShowsSignatures(scheme, self, ownKeys, held, obj)
  {
    assert obj - {"unsigned", "signatures"} == SignedPart(obj);
    assert DomainSignaturesJson(own).fields.Keys == own.Keys;
    assert DomainSignaturesJson(held.signatures).fields.Keys == held.signatures.Keys;
  }

  lemma ResponseSignaturesShown(scheme: Scheme, self: ServerName, ownKeys: seq<OwnKey>, held: Held)
    requires held.server != self && held.extra.Keys !! STANDARD_FIELDS && DistinctKeyIds(ownKeys)
    requires forall key | key in ownKeys :: Loads(scheme, key)
    ensures ShowsSignatures(scheme, self, ownKeys, held, Response(scheme, self, ownKeys, held))
  {
    var body := SignedPart(Expanded(self, held));
    var own := OwnSignatures(scheme, body, ownKeys);
    ResponseMeaning(scheme, self, ownKeys, held);
    OwnSignaturesAre(scheme, body, ownKeys);
    TwoSigners(self, own, held.server, held.signatures);
    PairShown(scheme, self, ownKeys, held, own, Response(scheme, self, ownKeys, held));
  }

  /** What is served shows the record, signed by every own key; or it is empty, and there are no keys in the record. */
  lemma ServedShowsTheRecord(scheme: Scheme, self: ServerName, ownKeys: seq<OwnKey>, serverName: ServerName, held: Held)
    requires held.server != self && held.extra.Keys !! STANDARD_FIELDS && DistinctKeyIds(ownKeys)
    ensures var r := Prepared(scheme, self, ownKeys, serverName, held);
            r.Serves? ==> if held.keys == map[] then r.obj == map[]
                          else held.server == serverName && Shows(scheme, self, ownKeys, held, r.obj)
  {
    var r := Prepared(scheme, self, ownKeys, serverName, held);
    if r.Serves? && held.keys != map[] {
      ResponseFields(scheme, self, ownKeys, held);
      KeysShown(held.keys);
      ResponseSignaturesShown(scheme, self, ownKeys, held);
    }
  }

  // ---------------------------------------------------------------- which outcome

  predicate CurrentKeysReadable(scheme: Scheme, keys: map<KeyId, KeyRow>) {
    forall id | id in keys && keys[id].expiresTs <= 0 :: scheme.decode(keys[id].publicKey).Some?
  }

  predicate OwnKeysReadable(scheme: Scheme, ownKeys: seq<OwnKey>) {
    forall key | key in ownKeys :: scheme.decode(key.publicKey).Some? && scheme.decode(key.privateKey).Some?
  }

  predicate UnsignedIsAnObject(extra: Fields) {
    "unsigned" in extra ==> extra["unsigned"].Obj?
  }

  /** Every signature held is by a current key, and verified over the object. */
  predicate HeldSignaturesVerify(scheme: Scheme, held: Held, obj: Fields) {
    forall id | id in held.signatures ::
      && id in held.keys && held.keys[id].expiresTs <= 0
      && Verified(scheme, held.keys[id].publicKey, obj - {"unsigned", "signatures"}, held.signatures[id])
  }

  /** The last check is on both domains, each by its own keys. */
  lemma LastCheckSplits(scheme: Scheme, self: ServerName, ownKeys: seq<OwnKey>, held: Held)
    requires held.server != self && held.extra.Keys !! STANDARD_FIELDS
    requires KeysDecode(scheme, CurrentKeys(held.keys)) && forall key | key in ownKeys :: Loads(scheme, key)
    ensures var obj, body := Response(scheme, self, ownKeys, held), SignedPart(Expanded(self, held));
            && obj - {"unsigned", "signatures"} == body
            && (Verifies(scheme, obj, RingFor(scheme, self, ownKeys, held)) <==>
                  && DomainVouches(scheme, OwnPublicKeys(scheme, ownKeys), body, OwnSignatures(scheme, body, ownKeys))
                  && DomainVouches(scheme, DecodedKeys(scheme, CurrentKeys(held.keys)), body, held.signatures))
  {
    var obj, body := Response(scheme, self, ownKeys, held), SignedPart(Expanded(self, held));
    var own := OwnSignatures(scheme, body, ownKeys);
    ResponseMeaning(scheme, self, ownKeys, held);
    TwoSigners(self, own, held.server, held.signatures);
    BothDomains(scheme, obj, self, own, OwnPublicKeys(scheme, ownKeys), held.server, held.signatures,
        DecodedKeys(scheme, CurrentKeys(held.keys)));
  }

  lemma BothDomains(scheme: Scheme, obj: Fields, a: string, ofA: map<KeyId, string>, keysA: map<KeyId, Bytes>,
                    b: string, ofB: map<KeyId, string>, keysB: map<KeyId, Bytes>)
    requires a != b
    requires SignatureFields(obj) == map[a := DomainSignaturesJson(ofA), b := DomainSignaturesJson(ofB)]
    ensures Verifies(scheme, obj, map[a := keysA, b := keysB]) <==>
              DomainVouches(scheme, keysA, SignedPart(obj), ofA) && DomainVouches(scheme, keysB, SignedPart(obj), ofB)
  {
    assert a in SignatureFields(obj);
    PairVerdict(scheme, map[a := keysA, b := keysB], SignedPart(obj), SignatureFields(obj), a, ofA, b, ofB);
  }

  lemma LastCheckMeans(scheme: Scheme, self: ServerName, ownKeys: seq<OwnKey>, held: Held)
    requires scheme.Sound() && OwnKeysMatch(scheme, ownKeys)
    requires held.server != self && held.extra.Keys !! STANDARD_FIELDS
    requires KeysDecode(scheme, CurrentKeys(held.keys))
    ensures var obj := Response(scheme, self, ownKeys, held);
            Verifies(scheme, obj, RingFor(scheme, self, ownKeys, held)) <==> HeldSignaturesVerify(scheme, held, obj)
  {
    var body := SignedPart(Expanded(self, held));
    LastCheckSplits(scheme, self, ownKeys, held);
    OwnSignaturesVerify(scheme, body, ownKeys);
    VouchesMeans(scheme, held, body);
  }

  lemma VouchesMeans(scheme: Scheme, held: Held, body: Fields)
    requires KeysDecode(scheme, CurrentKeys(held.keys))
    ensures DomainVouches(scheme, DecodedKeys(scheme, CurrentKeys(held.keys)), body, held.signatures) <==>
              forall id | id in held.signatures ::
                && id in held.keys && held.keys[id].expiresTs <= 0
                && Verified(scheme, held.keys[id].publicKey, body, held.signatures[id])
  {
  }

  lemma ReadableMeans(scheme: Scheme, keys: map<KeyId, KeyRow>)
    ensures KeysDecode(scheme, CurrentKeys(keys)) <==> CurrentKeysReadable(scheme, keys)
  {
    if KeysDecode(scheme, CurrentKeys(keys)) {
      forall id | id in keys && keys[id].expiresTs <= 0 ensures scheme.decode(keys[id].publicKey).Some? {
        assert id in CurrentKeys(keys);
      }
    }
  }

  /**
    The outcome for a record of another server: which refusal, or service, by the first condition that fails.
    In particular a held signature that does not verify keeps a record from being served.
   */
  lemma OutcomeMeans(scheme: Scheme, self: ServerName, ownKeys: seq<OwnKey>, serverName: ServerName, held: Held)
    requires OwnKeysReadable(scheme, ownKeys) ==> OwnKeysMatch(scheme, ownKeys)
    requires scheme.Sound() && held.server != self && held.extra.Keys !! STANDARD_FIELDS
    ensures var r := Prepared(scheme, self, ownKeys, serverName, held);
            if held.keys == map[] then r == Serves(map[])
            else if held.server != serverName then r == Refuses(UnexpectedServer)
            else if !CurrentKeysReadable(scheme, held.keys) then r == Refuses(UnreadableKeys)
            else if !OwnKeysReadable(scheme, ownKeys) || (ownKeys != [] && !UnsignedIsAnObject(held.extra)) then
                r == Refuses(CannotSign)
            else if HeldSignaturesVerify(scheme, held, Response(scheme, self, ownKeys, held)) then
                r == Serves(Response(scheme, self, ownKeys, held))
            else r == Refuses(SignaturesDoNotVerify)
  {
    ReadableMeans(scheme, held.keys);
    ExtraIsSignableIff(self, held);
    if KeysDecode(scheme, CurrentKeys(held.keys)) && OwnKeysReadable(scheme, ownKeys) {
      LastCheckMeans(scheme, self, ownKeys, held);
    }
  }

  /** A record with one held signature that does not verify is not served, whatever else is right about it. */
  lemma ForgedRecordIsNotServed(scheme: Scheme, self: ServerName, ownKeys: seq<OwnKey>, serverName: ServerName,
                                held: Held, id: KeyId)
    requires held.server != self && held.extra.Keys !! STANDARD_FIELDS && DistinctKeyIds(ownKeys)
    requires held.keys != map[] && id in held.signatures && id in held.keys
    requires forall obj | Shows(scheme, self, ownKeys, held, obj) ::
               !Verified(scheme, held.keys[id].publicKey, obj - {"unsigned", "signatures"}, held.signatures[id])
    ensures !Prepared(scheme, self, ownKeys, serverName, held).Serves?
  {
    var r := Prepared(scheme, self, ownKeys, serverName, held);
    if r.Serves? {
      ServedShowsTheRecord(scheme, self, ownKeys, serverName, held);
      ServedIsVouchedFor(scheme, self, ownKeys, held);
    }
  }

  lemma ServedIsVouchedFor(scheme: Scheme, self: ServerName, ownKeys: seq<OwnKey>, held: Held)
    requires held.server != self && held.extra.Keys !! STANDARD_FIELDS && held.keys != map[]
    requires Prepared(scheme, self, ownKeys, held.server, held).Serves?
    ensures HeldSignaturesVerify(scheme, held, Prepared(scheme, self, ownKeys, held.server, held).obj)
  {
    LastCheckSplits(scheme, self, ownKeys, held);
    VouchesMeans(scheme, held, SignedPart(Expanded(self, held)));
  }

  /**
    The answer to a lookup. Nothing found is a refusal; otherwise it is made of what was found. The record of the
    server found is invalidated, as it is by then, exactly when the last check fails; nothing else changes.
   */
  lemma AnswerMeans(c: Config, s: Site, ownKeys: seq<OwnKey>, serverName: ServerName, found: Option<Held>,
                    others: Others)
    ensures var (after, r) := Answer(c, s, ownKeys, serverName, found, others);
            && (found.None? ==> r == Refuses(NoKeysRetrieved))
            && (found.Some? ==> r == Prepared(c.scheme, c.self, ownKeys, serverName, found.value))
            && (r != Refuses(SignaturesDoNotVerify) ==> after == s)
            && (r == Refuses(SignaturesDoNotVerify) ==>
                  Zeroes(RunSteps(s.world, others.steps), after.world, found.value.server))
  {
    if found.Some? {
      OnlyZeroes(RunSteps(s.world, others.steps), found.value.server);
    }
  }

  /** One record, if there is a row, has its validity and update time zeroed, and nothing else is different. */
  ghost predicate Zeroes(w: World, after: World, server: ServerName) {
    var t, t' := TablesOf(w, server), TablesOf(after, server);
    && (forall other | other != server :: TablesOf(after, other) == TablesOf(w, other))
    && t'.keys == t.keys && t'.signatures == t.signatures
    && t'.row == if t.row.None? then None else Some(t.row.value.(validUntilTs := 0, updatedTs := 0))
  }

  lemma OnlyZeroes(w: World, server: ServerName)
    ensures Zeroes(w, w[server := InvalidateRemoteServer(TablesOf(w, server))], server)
  {
  }

  /** Our own signatures and the stored ones, under our one name; of two under one id the stored one is shown. */
  ghost predicate ShowsBoth(scheme: Scheme, self: ServerName, ownKeys: seq<OwnKey>, held: Held, obj: Fields) {
    && "signatures" in obj && obj["signatures"].Obj? && obj["signatures"].fields.Keys == {self}
    && var listed := obj["signatures"].fields[self];
       && listed.Obj? && listed.fields.Keys == held.signatures.Keys + (set key | key in ownKeys :: key.id)
       && (forall id | id in held.signatures :: listed.fields[id] == Str(held.signatures[id]))
       && forall key | key in ownKeys && key.id !in held.signatures ::
           && scheme.decode(key.privateKey).Some? && key.id in listed.fields
           && listed.fields[key.id] == Str(scheme.encode(scheme.sign(scheme.decode(key.privateKey).value,
               scheme.canonical(obj - {"unsigned", "signatures"}))))
  }

  /** What is served under our own name. */
  lemma OwnNameMeans(scheme: Scheme, self: ServerName, ownKeys: seq<OwnKey>, held: Held)
    requires held.server == self && held.extra.Keys !! STANDARD_FIELDS && DistinctKeyIds(ownKeys)
    requires forall key | key in ownKeys :: Loads(scheme, key)
    ensures var r := Prepared(scheme, self, ownKeys, self, held);
            r.Serves? && held.keys != map[] ==> ShowsBoth(scheme, self, ownKeys, held, r.obj)
  {
    var obj, body := Response(scheme, self, ownKeys, held), SignedPart(Expanded(self, held));
    var own := OwnSignatures(scheme, body, ownKeys);
    ResponseMeaning(scheme, self, ownKeys, held);
    OwnSignaturesAre(scheme, body, ownKeys);
    OneSigner(self, own + held.signatures);
    BothShown(scheme, self, ownKeys, held, own, obj);
  }

  lemma BothShown(scheme: Scheme, self: ServerName, ownKeys: seq<OwnKey>, held: Held, own: map<KeyId, string>,
                  obj: Fields)
    requires own.Keys == (set key | key in ownKeys :: key.id)
    requires forall key | key in ownKeys ::
               Loads(scheme, key) && own[key.id] ==
                   scheme.encode(scheme.sign(scheme.decode(key.privateKey).value, scheme.canonical(SignedPart(obj))))
    requires "signatures" in obj && obj["signatures"] == Obj(map[self := DomainSignaturesJson(own + held.signatures)])
    ensures ShowsBoth(scheme, self, ownKeys, held, obj)
  {
    assert obj - {"unsigned", "signatures"} == SignedPart(obj);
    assert DomainSignaturesJson(own + held.signatures).fields.Keys == (own + held.signatures).Keys;
  }

  lemma OneSigner(a: string, ofA: map<KeyId, string>)
    ensures SignaturesJson(map[a := Some(ofA)]).fields == map[a := DomainSignaturesJson(ofA)]
  {
  }

  // ---------------------------------------------------------------- our own published object

  predicate PublishesKeys(ownKeys: seq<OwnKey>, current: map<KeyId, string>, expired: map<KeyId, OldKey>) {
    && (forall key | key in ownKeys && key.expiresTs <= 0 ::
          key.id in current && current[key.id] == key.publicKey && key.id !in expired)
    && (forall key | key in ownKeys && key.expiresTs > 0 ::
          key.id in expired && expired[key.id] == OldKey(key.publicKey, key.expiresTs) && key.id !in current)
    && (forall id | id in current.Keys + expired.Keys :: exists key :: key in ownKeys && key.id == id)
  }

  lemma OwnKeysSplit(ownKeys: seq<OwnKey>)
    requires DistinctKeyIds(ownKeys)
    ensures PublishesKeys(ownKeys, CurrentKeys(OwnRows(ownKeys)), ExpiredKeys(OwnRows(ownKeys)))
  {
    OwnRowsHave(ownKeys);
    forall id | id in OwnRows(ownKeys) ensures exists key :: key in ownKeys && key.id == id {
    }
  }

  lemma TypedBody(info: ServerKeys)
    ensures KeyBody(info, map[]) == ToFields(info) - {"unsigned", "signatures"}
  {
    assert map[] + ToFields(info) == ToFields(info);
  }

  /**
    What this server publishes about itself: valid for a day; current under an id exactly the keys without a
    positive expiry, old exactly the others; and one signature for each key, over the typed object.
   */
  lemma PublishedMeans(scheme: Scheme, self: ServerName, ownKeys: seq<OwnKey>, now: int)
    requires IsClock(now) && DistinctKeyIds(ownKeys) && forall key | key in ownKeys :: Loads(scheme, key)
    ensures var info := Local(scheme, self, ownKeys, now);
            && info.serverName == self && info.validUntilTs == now + 86_400_000
            && info.oldVerifyKeys.Some? && PublishesKeys(ownKeys, info.verifyKeys, info.oldVerifyKeys.value)
            && info.signatures.Some? && info.signatures.value.Keys == {self} && info.signatures.value[self].Some?
            && var own := info.signatures.value[self].value;
               && own.Keys == (set key | key in ownKeys :: key.id)
               && forall key | key in ownKeys ::
                   own[key.id] == scheme.encode(scheme.sign(scheme.decode(key.privateKey).value,
                       scheme.canonical(ToFields(info) - {"unsigned", "signatures"})))
  {
    var info, unsigned := Local(scheme, self, ownKeys, now), Unsigned(self, ownKeys, now);
    OwnKeysSplit(ownKeys);
    OwnSignaturesAre(scheme, KeyBody(unsigned, map[]), ownKeys);
    BodyIgnoresSignatures(unsigned, info, map[]);
    TypedBody(info);
  }
}
