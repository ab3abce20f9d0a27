/**
  The replies behind every shortfall are real: for each there is one that is signed, and passes every check when
  sent as JSON; and there is a site at which a whole batch of origins can starve another one.
 */
module Witnesses {
  import opened Base
  import opened Signing
  import opened KeyRecords
  import opened Decoding
  import opened Tables
  import opened NotaryWalks
  import opened Worlds
  import opened Resolution
  import opened ServingTheorems
  import opened OriginSweeper
  import opened Starvation
  import opened LocalKeys

  /** Old keys as they should be. */
  const RETIRED: map<KeyId, OldKey> := map["o" := OldKey("", 1)]

  /** A reply with one current key, any old ones, and one signature by that key. */
  function SelfSigned(scheme: Scheme, key: Bytes, name: ServerName, validUntilTs: Timestamp,
                      oldKeys: Option<map<KeyId, OldKey>>, additional: Fields): ServerKeys {
    var keys := map["k" := scheme.encode(scheme.publicOf(key))];
    var unsigned := ServerKeys(name, validUntilTs, keys, oldKeys, None);
    var signature := SignatureOf(scheme, KeyBody(unsigned, additional), key);
    unsigned.(signatures := Some(map[name := Some(map["k" := signature])]))
  }

  /** The JSON object that arrives decodes to the reply, which passes the direct check, signed at least once. */
  predicate Arrives(scheme: Scheme, info: ServerKeys, additional: Fields) {
    var sent := FullObject(info, additional);
    Decode(sent) == Some(info) && AcceptsDirect(scheme, info, sent) && info.SignaturesOf(info.serverName) != map[]
  }

  /** Such a reply is accepted from its origin, whatever its old keys and additional fields. */
  lemma SelfSignedIsAccepted(scheme: Scheme, key: Bytes, name: ServerName, validUntilTs: Timestamp,
                             oldKeys: Option<map<KeyId, OldKey>>, additional: Fields)
    requires scheme.Sound() && name != "" && additional.Keys !! STANDARD_FIELDS
    ensures Arrives(scheme, SelfSigned(scheme, key, name, validUntilTs, oldKeys, additional), additional)
  {
    var info := SelfSigned(scheme, key, name, validUntilTs, oldKeys, additional);
    SelfSignedVouches(scheme, key, name, validUntilTs, oldKeys, additional);
    DecodeUndoesWriting(info, additional);
  }

  lemma SelfSignedVouches(scheme: Scheme, key: Bytes, name: ServerName, validUntilTs: Timestamp,
                          oldKeys: Option<map<KeyId, OldKey>>, additional: Fields)
    requires scheme.Sound() && name != ""
    ensures var info := SelfSigned(scheme, key, name, validUntilTs, oldKeys, additional);
            && Validates(info) && SignedAlone(info) && KeysDecode(scheme, info.verifyKeys)
            && info.SignaturesOf(name) != map[]
            && DomainVouches(scheme, DecodedKeys(scheme, info.verifyKeys), KeyBody(info, additional),
                info.SignaturesOf(name))
  {
    var info := SelfSigned(scheme, key, name, validUntilTs, oldKeys, additional);
    var pub := scheme.publicOf(key);
    BodyIgnoresSignatures(info.(signatures := None), info, additional);
    assert "k" in info.verifyKeys && "k" in info.SignaturesOf(name);
    assert scheme.decode(info.verifyKeys["k"]) == Some(pub);
    OwnSignatureIsValid(scheme, key, KeyBody(info, additional));
    assert DecodedKeys(scheme, info.verifyKeys)["k"] == pub;
  }

  lemma OwnSignatureIsValid(scheme: Scheme, key: Bytes, body: Fields)
    requires scheme.Sound()
    ensures ValidSignature(scheme, scheme.publicOf(key), body, Str(SignatureOf(scheme, body, key)))
  {
  }

  // ---------------------------------------------------------------- unstorable replies

  /** A reply that lists its key both as current and as old. */
  function Clashing(scheme: Scheme, key: Bytes, name: ServerName, validUntilTs: Timestamp,
                    additional: Fields): ServerKeys {
    SelfSigned(scheme, key, name, validUntilTs, Some(map["k" := OldKey(scheme.encode(scheme.publicOf(key)), 1)]),
               additional)
  }

  /** A signed and accepted reply that lists a key id both as current and as old cannot be stored. */
  lemma AcceptedButNotStorable(scheme: Scheme, key: Bytes, name: ServerName, validUntilTs: Timestamp,
                               additional: Fields)
    requires scheme.Sound() && name != "" && additional.Keys !! STANDARD_FIELDS
    ensures var info := Clashing(scheme, key, name, validUntilTs, additional);
            Arrives(scheme, info, additional) && !Storable(info) && AllExpired(info.OldKeys())
  {
    var info := Clashing(scheme, key, name, validUntilTs, additional);
    SelfSignedIsAccepted(scheme, key, name, validUntilTs, info.oldVerifyKeys, additional);
    ClashIsUnstorable(info);
  }

  lemma ClashIsUnstorable(info: ServerKeys)
    requires "k" in info.verifyKeys && "k" in info.OldKeys()
    ensures !Storable(info)
  {
  }

  /** The same reply, signed by a notary as well. */
  function Vouched(scheme: Scheme, info: ServerKeys, additional: Fields, notary: ServerName,
                   notaryKey: Bytes): ServerKeys {
    var signature := SignatureOf(scheme, KeyBody(info, additional), notaryKey);
    info.(signatures := Some(map[notary := Some(map["n" := signature]),
                                 info.serverName := Some(info.SignaturesOf(info.serverName))]))
  }

  /** A directly acceptable, signed reply is acceptable via a notary whose signatures on it are valid. */
  lemma AlsoViaNotary(scheme: Scheme, notary: ServerName, info: ServerKeys, vouched: ServerKeys, sent: Fields,
                      notaryKeys: map<KeyId, Bytes>)
    requires AcceptsDirect(scheme, info, sent) && info.SignaturesOf(info.serverName) != map[]
    requires notary != info.serverName && vouched == info.(signatures := vouched.signatures)
    requires vouched.SignaturesOf(info.serverName) == info.SignaturesOf(info.serverName)
    requires vouched.SignaturesOf(notary) != map[]
    requires DomainVouches(scheme, notaryKeys, KeyBody(info, AdditionalFields(sent)), vouched.SignaturesOf(notary))
    ensures AcceptsViaNotary(scheme, notary, vouched, sent, notaryKeys)
  {
    BodyIgnoresSignatures(info, vouched, AdditionalFields(sent));
  }

  lemma VouchedParts(scheme: Scheme, info: ServerKeys, additional: Fields, notary: ServerName, notaryKey: Bytes)
    requires scheme.Sound() && SignedAlone(info) && notary != info.serverName
    ensures var vouched := Vouched(scheme, info, additional, notary, notaryKey);
            && Retained(vouched) == info
            && vouched.SignaturesOf(info.serverName) == info.SignaturesOf(info.serverName)
            && vouched.SignaturesOf(notary) != map[]
            && DomainVouches(scheme, map["n" := scheme.publicOf(notaryKey)], KeyBody(info, additional),
                vouched.SignaturesOf(notary))
  {
    var body := KeyBody(info, additional);
    var own := map["n" := SignatureOf(scheme, body, notaryKey)];
    OwnSignatureIsValid(scheme, notaryKey, body);
    TwoDomains(info, notary, own);
    assert "n" in own;
    RetainedOf(info, Vouched(scheme, info, additional, notary, notaryKey));
  }

  lemma VouchedIsAccepted(scheme: Scheme, info: ServerKeys, additional: Fields, notary: ServerName, notaryKey: Bytes)
    requires scheme.Sound() && additional.Keys !! STANDARD_FIELDS && notary != info.serverName
    requires Arrives(scheme, info, additional)
    ensures var vouched := Vouched(scheme, info, additional, notary, notaryKey);
            var sent := FullObject(vouched, additional);
            && Decode(sent) == Some(vouched) && Retained(vouched) == info
            && AcceptsViaNotary(scheme, notary, vouched, sent, map["n" := scheme.publicOf(notaryKey)])
  {
    var vouched := Vouched(scheme, info, additional, notary, notaryKey);
    DecodeUndoesWriting(info, additional);
    DecodeUndoesWriting(vouched, additional);
    VouchedParts(scheme, info, additional, notary, notaryKey);
    AlsoViaNotary(scheme, notary, info, vouched, FullObject(vouched, additional),
        map["n" := scheme.publicOf(notaryKey)]);
  }

  /** Nor can one that a trusted notary hands on. */
  lemma VouchedForButNotStorable(scheme: Scheme, key: Bytes, name: ServerName, validUntilTs: Timestamp,
                                 additional: Fields, notary: ServerName, notaryKey: Bytes)
    requires scheme.Sound() && name != "" && notary != name && additional.Keys !! STANDARD_FIELDS
    ensures var info := Clashing(scheme, key, name, validUntilTs, additional);
            var vouched := Vouched(scheme, info, additional, notary, notaryKey);
            var sent := FullObject(vouched, additional);
            && Decode(sent) == Some(vouched) && !Storable(Retained(vouched))
            && AcceptsViaNotary(scheme, notary, vouched, sent, map["n" := scheme.publicOf(notaryKey)])
  {
    AcceptedButNotStorable(scheme, key, name, validUntilTs, additional);
    VouchedIsAccepted(scheme, Clashing(scheme, key, name, validUntilTs, additional), additional, notary, notaryKey);
  }

  // ---------------------------------------------------------------- replies that do not come back

  /** Signed, accepted and storable replies whose old keys do not come back: none at all, and one without an expiry. */
  lemma AcceptedButNotRebuildable(scheme: Scheme, key: Bytes, name: ServerName, validUntilTs: Timestamp,
                                  additional: Fields)
    requires scheme.Sound() && name != "" && additional.Keys !! STANDARD_FIELDS
    ensures var info := SelfSigned(scheme, key, name, validUntilTs, None, additional);
            Arrives(scheme, info, additional) && Storable(info) && !OldKeysReturn(info)
    ensures var info := SelfSigned(scheme, key, name, validUntilTs, Some(map["o" := OldKey("", 0)]), additional);
            Arrives(scheme, info, additional) && Storable(info) && !OldKeysReturn(info)
  {
    SelfSignedIsAccepted(scheme, key, name, validUntilTs, None, additional);
    SingleSignerIsStorableIffDisjoint(SelfSigned(scheme, key, name, validUntilTs, None, additional));
    var oldKeys := map["o" := OldKey("", 0)];
    SelfSignedIsAccepted(scheme, key, name, validUntilTs, Some(oldKeys), additional);
    SingleSignerIsStorableIffDisjoint(SelfSigned(scheme, key, name, validUntilTs, Some(oldKeys), additional));
    assert "o" in oldKeys && oldKeys["o"].expiredTs == 0;
  }

  lemma RetiredIsStorable(info: ServerKeys)
    requires info.verifyKeys.Keys == {"k"} && info.oldVerifyKeys == Some(RETIRED) && SignedAlone(info)
    ensures Storable(info) && OldKeysReturn(info)
  {
    SingleSignerIsStorableIffDisjoint(info);
  }

  lemma SelfSignedRetired(scheme: Scheme, key: Bytes, name: ServerName, validUntilTs: Timestamp, additional: Fields)
    requires scheme.Sound() && name != "" && additional.Keys !! STANDARD_FIELDS
    ensures var info := SelfSigned(scheme, key, name, validUntilTs, Some(RETIRED), additional);
            Arrives(scheme, info, additional) && Storable(info) && OldKeysReturn(info)
  {
    var info := SelfSigned(scheme, key, name, validUntilTs, Some(RETIRED), additional);
    SelfSignedIsAccepted(scheme, key, name, validUntilTs, Some(RETIRED), additional);
    assert info.verifyKeys.Keys == {"k"} && SignedAlone(info);
    RetiredIsStorable(info);
  }

  const NULL_UNSIGNED: Fields := map["unsigned" := Null]

  /** A signed, accepted and storable reply that is put back together exactly, and can never be signed by anybody. */
  lemma AcceptedButNotSignable(scheme: Scheme, key: Bytes, name: ServerName, validUntilTs: Timestamp)
    requires scheme.Sound() && name != ""
    ensures var info := SelfSigned(scheme, key, name, validUntilTs, Some(RETIRED), NULL_UNSIGNED);
            && Arrives(scheme, info, NULL_UNSIGNED) && Storable(info) && OldKeysReturn(info)
            && !UnsignedIsPlain(FullObject(info, NULL_UNSIGNED))
  {
    var info := SelfSigned(scheme, key, name, validUntilTs, Some(RETIRED), NULL_UNSIGNED);
    SelfSignedRetired(scheme, key, name, validUntilTs, NULL_UNSIGNED);
    NullStaysNull(info);
  }

  lemma NullStaysNull(info: ServerKeys)
    ensures !UnsignedIsPlain(FullObject(info, NULL_UNSIGNED))
  {
    assert "unsigned" !in ToFields(info) && "unsigned" in NULL_UNSIGNED;
  }

  // ---------------------------------------------------------------- misnamed replies

  /** A reply under any other name, with the one order in which its rows can be inserted. */
  function Misnamed(scheme: Scheme, key: Bytes, name: ServerName, validUntilTs: Timestamp): Reply {
    var info := SelfSigned(scheme, key, name, validUntilTs, Some(RETIRED), map[]);
    var order := InsertOrder(["k"], ["o"], [(name, "k")]);
    SingleRowsAreOrdered(info, name);
    ReplyData(info, FullObject(info, map[]), order)
  }

  lemma SingleRowsAreOrdered(info: ServerKeys, name: ServerName)
    requires info.verifyKeys.Keys == {"k"} && info.OldKeys().Keys == {"o"}
    requires info.signatures.Some? && info.signatures.value.Keys == {name} && info.SignaturesOf(name).Keys == {"k"}
    ensures Orders(InsertOrder(["k"], ["o"], [(name, "k")]), info)
  {
    assert Elements(["k"]) == {"k"} && Elements(["o"]) == {"o"};
    assert Elements([(name, "k")]) == {(name, "k")};
    assert SignaturePairs(info) == {(name, "k")};
  }

  /**
    An origin may answer, signed and all, under the name of any server that is not due: a turn of the kind
    that starves others.
   */
  lemma MisnamedAnswersExist(c: Config, w: World, time: int, key: Bytes, name: ServerName, validUntilTs: Timestamp)
    requires c.scheme.Sound() && name != "" && !IsDue(w, name, time)
    ensures NamesNobodyDue(c, w, time, Replies(Misnamed(c.scheme, key, name, validUntilTs)))
  {
    SelfSignedRetired(c.scheme, key, name, validUntilTs, map[]);
    assert AdditionalFields(FullObject(SelfSigned(c.scheme, key, name, validUntilTs, Some(RETIRED), map[]), map[])) ==
        map[];
  }

  /** A record that has failed once. */
  function FailedOnce(next: int): Tables {
    Tables(Some(Row(1, 0, map[], "", 1, next)), map[], map[])
  }

  function NameOf(i: nat): ServerName {
    seq(i + 1, _ => 'a')
  }

  /** So many servers, all due since 1. */
  function Crowd(n: nat): World {
    if n == 0 then map[] else Crowd(n - 1)[NameOf(n) := FailedOnce(1)]
  }

  lemma {:induction false} CrowdIsInFront(n: nat)
    ensures forall server | server in Crowd(n) :: 1 < |server| <= n + 1 && server[0] == 'a'
    ensures forall server | server in Crowd(n) :: Crowd(n)[server] == FailedOnce(1)
    ensures |Crowd(n).Keys| == n
  {
    if n == 0 {
    } else {
      CrowdIsInFront(n - 1);
      assert |NameOf(n)| == n + 1 && NameOf(n) !in Crowd(n - 1);
      assert Crowd(n).Keys == Crowd(n - 1).Keys + {NameOf(n)};
    }
  }

  /** The crowd, and a server due after it. */
  function Crowded(n: nat): World {
    Crowd(n)["z" := FailedOnce(2)]
  }

  lemma CrowdedFront(n: nat)
    ensures var w := Crowded(n); DueAt(w, "z") == 2 && |InFront(w, 2)| == n && !IsDue(w, "b", 2)
  {
    CrowdIsInFront(n);
    var w := Crowded(n);
    assert "b" !in w;
    forall server: ServerName ensures server in InFront(w, 2) <==> server in Crowd(n) {
      IsInFront(w, server, 2);
    }
    assert InFront(w, 2) == Crowd(n).Keys;
  }

  /** With such answers and such a site, whatever the schedule of walks: 25 starve another one, and 24 do not. */
  lemma StarvationHappens(c: Config, walks: Walks, key: Bytes, n: nat)
    requires c.scheme.Sound()
    ensures var s := Site(Crowded(n), walks);
            (forall sweeps: nat :: CanStarve(c, s, "z", InFront(s.world, 2), sweeps)) <==> n >= SWEEP_BATCH
  {
    var s := Site(Crowded(n), walks);
    CrowdedFront(n);
    MisnamedAnswersExist(c, s.world, 2, key, "b", 2);
    StarvationIffABatch(c, s, "z", 2, Replies(Misnamed(c.scheme, key, "b", 2)));
  }
}
