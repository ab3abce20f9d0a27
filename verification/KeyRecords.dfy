/**
  Server-key objects as received, and the two ways one is accepted: fetched from its origin, or vouched
  for by a trusted notary (Matrix Server-Server API, "Retrieving server keys").
 */
module KeyRecords {
  import opened Base
  import opened Signing

  datatype OldKey = OldKey(key: string, expiredTs: Timestamp)

  /** The signatures listed for one domain; None stands for a Go nil map. */
  type Listed = Option<map<KeyId, string>>

  /** A decoded server-key object. None stands for a Go nil map, which encodes as JSON null. */
  datatype ServerKeys = ServerKeys(
    serverName: ServerName,
    validUntilTs: Timestamp,
    verifyKeys: map<KeyId, string>,
    oldVerifyKeys: Option<map<KeyId, OldKey>>,
    signatures: Option<map<string, Listed>>)
  {
    /** The signatures of one domain; none when the domain is missing or null. */
    function SignaturesOf(domain: string): map<KeyId, string> {
      if signatures.Some? && domain in signatures.value
          && signatures.value[domain].Some? then signatures.value[domain].value
      else map[]
    }

    function OldKeys(): map<KeyId, OldKey> {
      if oldVerifyKeys.Some? then oldVerifyKeys.value else map[]
    }
  }

  /** The structural check every decoded object goes through first. */
  predicate Validates(info: ServerKeys) {
    info.serverName != "" && info.verifyKeys != map[]
  }

  // ---------------------------------------------------------------- encoding

  function VerifyKeysJson(keys: map<KeyId, string>): Json {
    Obj(map id | id in keys :: Obj(map["key" := Str(keys[id])]))
  }

  function OldKeysJson(keys: map<KeyId, OldKey>): Json {
    Obj(map id | id in keys :: Obj(map["key" := Str(keys[id].key), "expired_ts" := Num(keys[id].expiredTs)]))
  }

  function DomainSignaturesJson(signatures: map<KeyId, string>): Json {
    Obj(map id | id in signatures :: Str(signatures[id]))
  }

  function ListedJson(listed: Listed): Json {
    if listed.None? then Null else DomainSignaturesJson(listed.value)
  }

  function SignaturesJson(signatures: map<string, Listed>): Json {
    Obj(map domain | domain in signatures :: ListedJson(signatures[domain]))
  }

  function ToFields(info: ServerKeys): Fields {
    map[
      "server_name" := Str(info.serverName),
      "valid_until_ts" := Num(info.validUntilTs),
      "verify_keys" := VerifyKeysJson(info.verifyKeys),
      "old_verify_keys" := if info.oldVerifyKeys.None? then Null else OldKeysJson(info.oldVerifyKeys.value),
      "signatures" := if info.signatures.None? then Null else SignaturesJson(info.signatures.value)
    ]
  }

  const STANDARD_FIELDS: set<string> := {"server_name", "valid_until_ts", "verify_keys", "old_verify_keys",
      "signatures"}

  /** The fields of the received object that the typed form does not know. */
  function AdditionalFields(raw: Fields): Fields {
    raw - STANDARD_FIELDS
  }

  /** The typed fields, completed with the additional ones. */
  function FullObject(info: ServerKeys, additional: Fields): Fields {
    additional + ToFields(info)
  }

  /** What the signatures of a server-key object cover. */
  function KeyBody(info: ServerKeys, additional: Fields): Fields {
    SignedPart(FullObject(info, additional))
  }

  /** The signed part does not depend on who signed. */
  lemma BodyIgnoresSignatures(info: ServerKeys, other: ServerKeys, additional: Fields)
    requires other == info.(signatures := other.signatures)
    ensures KeyBody(other, additional) == KeyBody(info, additional)
  {
    var a, b := ToFields(info), ToFields(other);
    assert b == a["signatures" := b["signatures"]];
    assert FullObject(other, additional) == FullObject(info, additional)["signatures" := b["signatures"]];
  }

  method ReconstructObject(info: ServerKeys, raw: Fields) returns (m: Fields, additional: Fields)
    ensures additional == AdditionalFields(raw)
    ensures m == FullObject(info, additional)
  {
    m := ToFields(info);
    additional := map[];
    var todo := raw.Keys;
    while todo != {}
      invariant todo <= raw.Keys
      invariant additional == map k | k in raw && k !in todo && k !in STANDARD_FIELDS :: raw[k]
      invariant m == additional + ToFields(info)
      decreases todo
    {
      var k :| k in todo;
      if k !in m {
        additional := additional[k := raw[k]];
        m := m[k := raw[k]];
      }
      todo := todo - {k};
    }
  }

  // ---------------------------------------------------------------- keys

  predicate KeysDecode(scheme: Scheme, keys: map<KeyId, string>) {
    forall id | id in keys :: scheme.decode(keys[id]).Some?
  }

  function DecodedKeys(scheme: Scheme, keys: map<KeyId, string>): map<KeyId, Bytes>
    requires KeysDecode(scheme, keys)
  {
    map id | id in keys :: scheme.decode(keys[id]).value
  }

  method DecodeKeys(scheme: Scheme, keys: map<KeyId, string>) returns (r: Option<map<KeyId, Bytes>>)
    ensures r.Some? <==> KeysDecode(scheme, keys)
    ensures r.Some? ==> r.value == DecodedKeys(scheme, keys)
  {
    var out: map<KeyId, Bytes> := map[];
    var todo := keys.Keys;
    while todo != {}
      invariant todo <= keys.Keys
      invariant forall id | id in keys && id !in todo :: scheme.decode(keys[id]).Some?
      invariant out == map id | id in keys && id !in todo :: scheme.decode(keys[id]).value
      decreases todo
    {
      var id :| id in todo;
      var b := scheme.decode(keys[id]);
      if b.None? {
        return None;
      }
      out := out[id := b.value];
      todo := todo - {id};
    }
    return Some(out);
  }

  /** The ring that checks a server's self-signature: its own current keys, under its own name. */
  function OriginRing(scheme: Scheme, info: ServerKeys): KeyRing
    requires KeysDecode(scheme, info.verifyKeys)
  {
    map[info.serverName := DecodedKeys(scheme, info.verifyKeys)]
  }

  method GrabPublicKeys(scheme: Scheme, info: ServerKeys) returns (r: Option<KeyRing>)
    ensures r.Some? <==> KeysDecode(scheme, info.verifyKeys)
    ensures r.Some? ==> r.value == OriginRing(scheme, info)
  {
    var keys := DecodeKeys(scheme, info.verifyKeys);
    return if keys.None? then None else Some(map[info.serverName := keys.value]);
  }

  // ---------------------------------------------------------------- acceptance

  /** Every signature of one domain is valid over `body` under the named key. */
  predicate DomainVouches(scheme: Scheme, keys: map<KeyId, Bytes>, body: Fields, signatures: map<KeyId, string>) {
    forall id | id in signatures :: id in keys && ValidSignature(scheme, keys[id], body, Str(signatures[id]))
  }

  /** The server itself is the only domain that signed, and its entry is not null. */
  predicate SignedAlone(info: ServerKeys) {
    info.signatures.Some? && info.signatures.value.Keys == {info.serverName}
        && info.signatures.value[info.serverName].Some?
  }

  /** The reference condition for accepting a direct reply. */
  predicate AcceptsDirect(scheme: Scheme, info: ServerKeys, raw: Fields) {
    && Validates(info)
    && KeysDecode(scheme, info.verifyKeys)
    && SignedAlone(info)
    && DomainVouches(scheme, DecodedKeys(scheme, info.verifyKeys), KeyBody(info, AdditionalFields(raw)),
        info.SignaturesOf(info.serverName))
  }

  lemma DomainVouchesIffVerifies(scheme: Scheme, keys: map<KeyId, Bytes>, body: Fields, signatures: map<KeyId, string>)
    ensures DomainVerifies(scheme, keys, body, DomainSignaturesJson(signatures)) <==>
              DomainVouches(scheme, keys, body, signatures)
  {
    var json := DomainSignaturesJson(signatures).fields;
    assert forall id | id in signatures :: json[id] == Str(signatures[id]);
    assert json.Keys == signatures.Keys;
  }

  lemma FullObjectParts(info: ServerKeys, additional: Fields)
    ensures FullObject(info, additional)["signatures"] == ToFields(info)["signatures"]
    ensures SignatureFields(FullObject(info, additional)) ==
            if info.signatures.None? then map[] else SignaturesJson(info.signatures.value).fields
  {
  }

  /**
    Accepting a direct reply: structure, keys, signatures. The ring holds no domain but the origin's, so
    an accepted reply carries no other signing domain. Its own signature map may be empty, though: the
    check is on every listed signature, not on there being one.
   */
  method VerifyDirectReply(scheme: Scheme, info: ServerKeys, raw: Fields) returns (r: Option<Fields>)
    ensures r.Some? <==> AcceptsDirect(scheme, info, raw)
    ensures r.Some? ==> r.value == AdditionalFields(raw)
  {
    if !Validates(info) {
      return None;
    }
    var publicKeys := GrabPublicKeys(scheme, info);
    if publicKeys.None? {
      return None;
    }
    var m, additional := ReconstructObject(info, raw);
    var ok := VerifySignatures(scheme, m, publicKeys.value);
    DirectVerdict(scheme, info, additional);
    return if ok then Some(additional) else None;
  }

  lemma DirectVerdict(scheme: Scheme, info: ServerKeys, additional: Fields)
    requires KeysDecode(scheme, info.verifyKeys)
    ensures Verifies(scheme, FullObject(info, additional), OriginRing(scheme, info)) <==>
            && SignedAlone(info)
            && DomainVouches(scheme, DecodedKeys(scheme, info.verifyKeys), KeyBody(info, additional),
                info.SignaturesOf(info.serverName))
  {
    FullObjectParts(info, additional);
    if info.signatures.Some? {
      var listed := info.signatures.value;
      var json := SignaturesJson(listed).fields;
      assert json.Keys == listed.Keys;
      if listed.Keys == {info.serverName} {
        assert info.serverName in json;
        DomainVouchesIffVerifies(scheme, DecodedKeys(scheme, info.verifyKeys), KeyBody(info, additional),
                                 info.SignaturesOf(info.serverName));
      } else if listed != map[] {
        var other :| other in listed && other != info.serverName;
        assert other in json && other !in OriginRing(scheme, info);
      }
    }
  }

  /** The reference condition for accepting a notary's answer. */
  predicate AcceptsViaNotary(scheme: Scheme, notary: ServerName, info: ServerKeys, raw: Fields,
                             notaryKeys: map<KeyId, Bytes>) {
    var body := KeyBody(info, AdditionalFields(raw));
    && KeysDecode(scheme, info.verifyKeys)
    && info.SignaturesOf(info.serverName) != map[]
    && info.SignaturesOf(notary) != map[]
    && DomainVouches(scheme, if notary == info.serverName then notaryKeys else DecodedKeys(scheme, info.verifyKeys),
                     body, info.SignaturesOf(info.serverName))
    && DomainVouches(scheme, notaryKeys, body, info.SignaturesOf(notary))
  }

  /** What is kept of an accepted notary answer: the object with the origin's own signatures alone. */
  function Retained(info: ServerKeys): ServerKeys {
    info.(signatures := Some(map[info.serverName := Some(info.SignaturesOf(info.serverName))]))
  }

  /** The signatures of two domains alone. */
  function OnlyDomains(signatures: Fields, a: string, b: string): Fields {
    map d | d in signatures && (d == a || d == b) :: signatures[d]
  }

  method DropThirdParties(signatures: Fields, target: string, notary: string) returns (sigs: Fields)
    ensures sigs == OnlyDomains(signatures, target, notary)
  {
    sigs := signatures;
    var domains := signatures.Keys;
    while domains != {}
      invariant domains <= signatures.Keys
      invariant sigs == map d | d in signatures && (d in domains || d == target || d == notary) :: signatures[d]
      decreases domains
    {
      var domain :| domain in domains;
      if domain != target && domain != notary {
        sigs := sigs - {domain};
      }
      domains := domains - {domain};
    }
  }

  /**
    Checks a notary's answer against the origin's own keys and the notary's, ignoring every other
    signing domain, and reduces its signatures to the origin's.
   */
  method VerifyNotaryResult(scheme: Scheme, notary: ServerName, info: ServerKeys, raw: Fields,
                            notaryKeys: map<KeyId, Bytes>)
    returns (r: Option<(ServerKeys, Fields)>)
    ensures r.Some? <==> AcceptsViaNotary(scheme, notary, info, raw, notaryKeys)
    ensures r.Some? ==> r.value == (Retained(info), AdditionalFields(raw))
  {
    var target := info.serverName;
    if info.SignaturesOf(target) == map[] {
      return None;
    }
    if info.SignaturesOf(notary) == map[] {
      return None;
    }
    var m, additional := ReconstructObject(info, raw);
    var publicKeys := GrabPublicKeys(scheme, info);
    if publicKeys.None? {
      return None;
    }
    var ring: KeyRing := publicKeys.value[notary := notaryKeys];

    FullObjectParts(info, additional);
    var sigs := DropThirdParties(SignaturesJson(info.signatures.value).fields, target, notary);
    m := m["signatures" := Obj(sigs)];

    var ok := VerifySignatures(scheme, m, ring);
    NotaryVerdict(scheme, notary, info, additional, notaryKeys, m);
    return if ok then Some((Retained(info), additional)) else None;
  }

  lemma SignaturesReplaced(info: ServerKeys, additional: Fields, sigs: Fields, m: Fields)
    requires m == FullObject(info, additional)["signatures" := Obj(sigs)]
    ensures SignatureFields(m) == sigs && SignedPart(m) == KeyBody(info, additional)
  {
    assert SignedPart(m) == KeyBody(info, additional);
  }

  lemma NotaryVerdict(scheme: Scheme, notary: ServerName, info: ServerKeys, additional: Fields,
                      notaryKeys: map<KeyId, Bytes>, m: Fields)
    requires KeysDecode(scheme, info.verifyKeys)
    requires info.SignaturesOf(info.serverName) != map[] && info.SignaturesOf(notary) != map[]
    requires m == FullObject(info, additional)["signatures" :=
                    Obj(OnlyDomains(SignaturesJson(info.signatures.value).fields, info.serverName, notary))]
    ensures Verifies(scheme, m, OriginRing(scheme, info)[notary := notaryKeys]) <==>
            && DomainVouches(scheme, if notary == info.serverName then notaryKeys
                else DecodedKeys(scheme, info.verifyKeys),
                             KeyBody(info, additional), info.SignaturesOf(info.serverName))
            && DomainVouches(scheme, notaryKeys, KeyBody(info, additional), info.SignaturesOf(notary))
  {
    var all := SignaturesJson(info.signatures.value).fields;
    var sigs := OnlyDomains(all, info.serverName, notary);
    SignaturesReplaced(info, additional, sigs, m);
    assert all[info.serverName] == DomainSignaturesJson(info.SignaturesOf(info.serverName));
    assert all[notary] == DomainSignaturesJson(info.SignaturesOf(notary));
    var ring: KeyRing := OriginRing(scheme, info)[notary := notaryKeys];
    PairVerdict(scheme, ring, SignedPart(m), sigs, info.serverName, info.SignaturesOf(info.serverName), notary,
        info.SignaturesOf(notary));
  }

  /** The signatures of two domains, as JSON. */
  lemma TwoSigners(a: string, ofA: map<KeyId, string>, b: string, ofB: map<KeyId, string>)
    requires a != b
    ensures SignaturesJson(map[a := Some(ofA), b := Some(ofB)]).fields ==
              map[a := DomainSignaturesJson(ofA), b := DomainSignaturesJson(ofB)]
  {
  }

  lemma PairVerdict(scheme: Scheme, ring: KeyRing, body: Fields, sigs: Fields,
                    a: string, ofA: map<KeyId, string>, b: string, ofB: map<KeyId, string>)
    requires sigs.Keys == {a, b} && a in ring && b in ring
    requires sigs[a] == DomainSignaturesJson(ofA) && sigs[b] == DomainSignaturesJson(ofB)
    ensures AllVerify(scheme, ring, body, sigs) <==>
            DomainVouches(scheme, ring[a], body, ofA) && DomainVouches(scheme, ring[b], body, ofB)
  {
    DomainVouchesIffVerifies(scheme, ring[a], body, ofA);
    DomainVouchesIffVerifies(scheme, ring[b], body, ofB);
    assert a in sigs && b in sigs;
  }

  /** The verdict on a notary's answer depends on neither other domains' signatures nor `unsigned`. */
  lemma NotaryVerdictIgnoresThirdParties(scheme: Scheme, notary: ServerName, info: ServerKeys, raw: Fields,
                                         notaryKeys: map<KeyId, Bytes>,
                                         other: ServerKeys, otherRaw: Fields)
    requires other == info.(signatures := other.signatures)
    requires other.SignaturesOf(info.serverName) == info.SignaturesOf(info.serverName)
    requires other.SignaturesOf(notary) == info.SignaturesOf(notary)
    requires otherRaw - {"unsigned"} == raw - {"unsigned"}
    ensures AcceptsViaNotary(scheme, notary, other, otherRaw, notaryKeys) <==>
              AcceptsViaNotary(scheme, notary, info, raw, notaryKeys)
    ensures Retained(other) == Retained(info)
  {
    assert KeyBody(other, AdditionalFields(otherRaw)) == KeyBody(info, AdditionalFields(raw)) by {
      var a, b := KeyBody(other, AdditionalFields(otherRaw)), KeyBody(info, AdditionalFields(raw));
      forall k
        ensures k in a <==> k in b
        ensures k in a && k in b ==> a[k] == b[k]
      {
        assert k in raw - {"unsigned"} <==> k in otherRaw - {"unsigned"};
        assert k in raw - {"unsigned"} ==> (raw - {"unsigned"})[k] == (otherRaw - {"unsigned"})[k];
      }
    }
  }

  /**
    What is kept of an accepted notary answer would be accepted from the origin itself: it is signed by
    the origin alone, at least once, and still verifies.
   */
  lemma RetainedStillVerifies(scheme: Scheme, notary: ServerName, info: ServerKeys, raw: Fields,
                              notaryKeys: map<KeyId, Bytes>)
    requires Validates(info) && notary != info.serverName
    requires AcceptsViaNotary(scheme, notary, info, raw, notaryKeys)
    ensures AcceptsDirect(scheme, Retained(info), raw)
    ensures Retained(info).SignaturesOf(info.serverName) != map[]
  {
    var additional := AdditionalFields(raw);
    var kept := Retained(info);
    BodyIgnoresSignatures(info, kept, additional);
    assert kept.SignaturesOf(info.serverName) == info.SignaturesOf(info.serverName);
    var keys := DecodedKeys(scheme, info.verifyKeys);
    assert DomainVouches(scheme, keys, KeyBody(info, additional), info.SignaturesOf(info.serverName));
    assert DomainVouches(scheme, keys, KeyBody(kept, additional), kept.SignaturesOf(info.serverName));
  }

  /** An accepted direct reply need not carry any signature at all: its own domain may list none. */
  lemma DirectAcceptanceAllowsNoSignature(scheme: Scheme, info: ServerKeys, raw: Fields)
    requires Validates(info) && KeysDecode(scheme, info.verifyKeys)
    requires info.signatures == Some(map[info.serverName := Some(map[])])
    ensures AcceptsDirect(scheme, info, raw)
  {
  }
}
