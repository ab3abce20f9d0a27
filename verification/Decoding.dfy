/**
  From the JSON object that a server sends to the typed form, and back. The signatures are checked over the
  typed form written out again, so a reply passes as it was signed only if nothing is lost on the way.
 */
module Decoding {
  import opened Base
  import opened Signing
  import opened KeyRecords
  import opened ServingTheorems

  // ---------------------------------------------------------------- decoding

  /** Go decodes a missing field and a null one alike: to the zero value. */
  function FieldOf(fields: Fields, name: string): Json {
    if name in fields then fields[name] else Null
  }

  function DecodeText(j: Json): Option<string> {
    match j
    case Null => Some("")
    case Str(s) => Some(s)
    case _ => None
  }

  function DecodeNumber(j: Json): Option<Timestamp> {
    match j
    case Null => Some(0)
    case Num(n) => if INT64_MIN <= n <= INT64_MAX then Some(n) else None
    case _ => None
  }

  function DecodeVerifyKey(j: Json): Option<string> {
    match j
    case Null => Some("")
    case Obj(fields) => DecodeText(FieldOf(fields, "key"))
    case _ => None
  }

  function DecodeVerifyKeys(j: Json): Option<map<KeyId, string>> {
    match j
    case Null => Some(map[])
    case Obj(fields) =>
      if forall id | id in fields :: DecodeVerifyKey(fields[id]).Some? then
        Some(map id | id in fields :: DecodeVerifyKey(fields[id]).value)
      else None
    case _ => None
  }

  function DecodeOldKey(j: Json): Option<OldKey> {
    match j
    case Null => Some(OldKey("", 0))
    case Obj(fields) =>
      var key, expired := DecodeText(FieldOf(fields, "key")), DecodeNumber(FieldOf(fields, "expired_ts"));
      if key.Some? && expired.Some? then Some(OldKey(key.value, expired.value)) else None
    case _ => None
  }

  function DecodeOldKeys(j: Json): Option<Option<map<KeyId, OldKey>>> {
    match j
    case Null => Some(None)
    case Obj(fields) =>
      if forall id | id in fields :: DecodeOldKey(fields[id]).Some? then
        Some(Some(map id | id in fields :: DecodeOldKey(fields[id]).value))
      else None
    case _ => None
  }

  function DecodeListed(j: Json): Option<Listed> {
    match j
    case Null => Some(None)
    case Obj(fields) =>
      if forall id | id in fields :: DecodeText(fields[id]).Some? then
        Some(Some(map id | id in fields :: DecodeText(fields[id]).value))
      else None
    case _ => None
  }

  function DecodeSignatures(j: Json): Option<Option<map<string, Listed>>> {
    match j
    case Null => Some(None)
    case Obj(fields) =>
      if forall domain | domain in fields :: DecodeListed(fields[domain]).Some? then
        Some(Some(map domain | domain in fields :: DecodeListed(fields[domain]).value))
      else None
    case _ => None
  }

  /** The typed form of a received object; None when some field is of the wrong type. */
  function Decode(raw: Fields): Option<ServerKeys> {
    var name, validUntil := DecodeText(FieldOf(raw, "server_name")), DecodeNumber(FieldOf(raw, "valid_until_ts"));
    var keys, oldKeys := DecodeVerifyKeys(FieldOf(raw, "verify_keys")), DecodeOldKeys(FieldOf(raw, "old_verify_keys"));
    var signatures := DecodeSignatures(FieldOf(raw, "signatures"));
    if name.Some? && validUntil.Some? && keys.Some? && oldKeys.Some? && signatures.Some? then
      Some(ServerKeys(name.value, validUntil.value, keys.value, oldKeys.value, signatures.value))
    else None
  }

  predicate IsTextOrNull(j: Json) {
    j.Null? || j.Str?
  }

  predicate IsNumberOrNull(j: Json) {
    j.Null? || (j.Num? && INT64_MIN <= j.n <= INT64_MAX)
  }

  /** Null, or an object whose fields are null or objects with these two fields of the right type, if any. */
  predicate AreKeysOrNull(j: Json, expiring: bool) {
    j.Null?
    || (j.Obj? && forall id | id in j.fields ::
          j.fields[id].Null?
          || (j.fields[id].Obj? && IsTextOrNull(FieldOf(j.fields[id].fields, "key"))
              && (expiring ==> IsNumberOrNull(FieldOf(j.fields[id].fields, "expired_ts")))))
  }

  predicate AreSignaturesOrNull(j: Json) {
    j.Null?
    || (j.Obj? && forall domain | domain in j.fields ::
          j.fields[domain].Null?
          || (j.fields[domain].Obj? && forall id | id in j.fields[domain].fields ::
                IsTextOrNull(j.fields[domain].fields[id])))
  }

  /** What can be decoded at all: every standard field that is there and not null is of its type, inside and out. */
  lemma DecodableIff(raw: Fields)
    ensures Decode(raw).Some? <==>
              && IsTextOrNull(FieldOf(raw, "server_name")) && IsNumberOrNull(FieldOf(raw, "valid_until_ts"))
              && AreKeysOrNull(FieldOf(raw, "verify_keys"), false)
              && AreKeysOrNull(FieldOf(raw, "old_verify_keys"), true)
              && AreSignaturesOrNull(FieldOf(raw, "signatures"))
  {
    VerifyKeysDecodableIff(FieldOf(raw, "verify_keys"));
    OldKeysDecodableIff(FieldOf(raw, "old_verify_keys"));
    SignaturesDecodableIff(FieldOf(raw, "signatures"));
  }

  lemma VerifyKeysDecodableIff(j: Json)
    ensures DecodeVerifyKeys(j).Some? <==> AreKeysOrNull(j, false)
  {
  }

  lemma OldKeysDecodableIff(j: Json)
    ensures DecodeOldKeys(j).Some? <==> AreKeysOrNull(j, true)
  {
  }

  lemma SignaturesDecodableIff(j: Json)
    ensures DecodeSignatures(j).Some? <==> AreSignaturesOrNull(j)
  {
  }

  // ---------------------------------------------------------------- what survives decoding

  predicate VerifyKeyIsPlain(j: Json) {
    j.Obj? && j.fields.Keys == {"key"} && j.fields["key"].Str?
  }

  predicate VerifyKeysArePlain(j: Json) {
    j.Obj? && forall id | id in j.fields :: VerifyKeyIsPlain(j.fields[id])
  }

  predicate OldKeyIsPlain(j: Json) {
    j.Obj? && j.fields.Keys == {"key", "expired_ts"} && j.fields["key"].Str? && j.fields["expired_ts"].Num?
  }

  predicate OldKeysArePlain(j: Json) {
    j.Null? || (j.Obj? && forall id | id in j.fields :: OldKeyIsPlain(j.fields[id]))
  }

  const SIGNED_FIELDS: set<string> := {"server_name", "valid_until_ts", "verify_keys", "old_verify_keys"}

  /** All standard fields are there, `old_verify_keys` if only as null, and hold nothing unknown inside. */
  predicate IsPlain(raw: Fields) {
    && SIGNED_FIELDS <= raw.Keys
    && raw["server_name"].Str? && raw["valid_until_ts"].Num?
    && VerifyKeysArePlain(raw["verify_keys"]) && OldKeysArePlain(raw["old_verify_keys"])
  }

  lemma VerifyKeySurvivesIff(j: Json)
    requires DecodeVerifyKey(j).Some?
    ensures Obj(map["key" := Str(DecodeVerifyKey(j).value)]) == j <==> VerifyKeyIsPlain(j)
  {
    if VerifyKeyIsPlain(j) {
      assert j.fields == map["key" := j.fields["key"]];
    }
  }

  lemma VerifyKeysSurviveIff(j: Json)
    requires DecodeVerifyKeys(j).Some?
    ensures VerifyKeysJson(DecodeVerifyKeys(j).value) == j <==> VerifyKeysArePlain(j)
  {
    if j.Obj? {
      var again := VerifyKeysJson(DecodeVerifyKeys(j).value).fields;
      assert again.Keys == j.fields.Keys;
      forall id | id in j.fields ensures again[id] == j.fields[id] <==> VerifyKeyIsPlain(j.fields[id]) {
        VerifyKeySurvivesIff(j.fields[id]);
      }
      assert again == j.fields <==> forall id | id in j.fields :: again[id] == j.fields[id];
    }
  }

  function OldKeyJson(key: OldKey): Json {
    Obj(map["key" := Str(key.key), "expired_ts" := Num(key.expiredTs)])
  }

  lemma OldKeySurvivesIff(j: Json)
    requires DecodeOldKey(j).Some?
    ensures OldKeyJson(DecodeOldKey(j).value) == j <==> OldKeyIsPlain(j)
  {
    if OldKeyIsPlain(j) {
      assert j.fields == map["key" := j.fields["key"], "expired_ts" := j.fields["expired_ts"]];
    }
  }

  function OldKeysOrNull(keys: Option<map<KeyId, OldKey>>): Json {
    if keys.None? then Null else OldKeysJson(keys.value)
  }

  lemma OldKeysSurviveIff(j: Json)
    requires DecodeOldKeys(j).Some?
    ensures OldKeysOrNull(DecodeOldKeys(j).value) == j <==> OldKeysArePlain(j)
  {
    if j.Obj? {
      var again := OldKeysJson(DecodeOldKeys(j).value.value).fields;
      assert again.Keys == j.fields.Keys;
      forall id | id in j.fields ensures again[id] == j.fields[id] <==> OldKeyIsPlain(j.fields[id]) {
        OldKeySurvivesIff(j.fields[id]);
        assert again[id] == OldKeyJson(DecodeOldKey(j.fields[id]).value);
      }
      assert again == j.fields <==> forall id | id in j.fields :: again[id] == j.fields[id];
    }
  }

  lemma SameOutsideTheSigned(info: ServerKeys, raw: Fields)
    ensures var body, sent := KeyBody(info, AdditionalFields(raw)), SignedPart(raw);
            body - SIGNED_FIELDS == sent - SIGNED_FIELDS
  {
    var body, sent := KeyBody(info, AdditionalFields(raw)), SignedPart(raw);
    assert forall k | k !in STANDARD_FIELDS :: k in body <==> k in sent;
    assert forall k | k in body && k !in STANDARD_FIELDS :: body[k] == sent[k];
    assert "signatures" !in body && "signatures" !in sent;
  }

  lemma EqualByParts(a: Fields, b: Fields, names: set<string>)
    requires names <= a.Keys && a - names == b - names
    ensures a == b <==> names <= b.Keys && forall k | k in names :: b[k] == a[k]
  {
    if names <= b.Keys && forall k | k in names :: b[k] == a[k] {
      forall k ensures (k in a <==> k in b) && (k in a && k in b ==> a[k] == b[k]) {
        if k !in names {
          assert k in a <==> k in a - names;
          assert k in b <==> k in b - names;
        }
      }
    }
  }

  /** The part written out again is the part sent if and only if each standard field is. */
  lemma SameSignedPart(info: ServerKeys, raw: Fields)
    ensures KeyBody(info, AdditionalFields(raw)) == SignedPart(raw) <==>
              && SIGNED_FIELDS <= raw.Keys
              && raw["server_name"] == Str(info.serverName) && raw["valid_until_ts"] == Num(info.validUntilTs)
              && raw["verify_keys"] == VerifyKeysJson(info.verifyKeys)
              && raw["old_verify_keys"] == OldKeysOrNull(info.oldVerifyKeys)
  {
    var body, sent := KeyBody(info, AdditionalFields(raw)), SignedPart(raw);
    BodyHolds(info, AdditionalFields(raw));
    SameOutsideTheSigned(info, raw);
    EqualByParts(body, sent, SIGNED_FIELDS);
    assert forall k | k in SIGNED_FIELDS :: k in sent <==> k in raw;
    assert forall k | k in SIGNED_FIELDS && k in sent :: sent[k] == raw[k];
  }

  /** What the signatures are checked over is what was sent exactly when the reply is plain. */
  lemma ReadAsSentIff(raw: Fields)
    requires Decode(raw).Some?
    ensures KeyBody(Decode(raw).value, AdditionalFields(raw)) == SignedPart(raw) <==> IsPlain(raw)
  {
    SameSignedPart(Decode(raw).value, raw);
    if SIGNED_FIELDS <= raw.Keys {
      VerifyKeysSurviveIff(raw["verify_keys"]);
      OldKeysSurviveIff(raw["old_verify_keys"]);
    }
  }

  // ---------------------------------------------------------------- acceptance of what is sent

  /** The whole direct check, from the JSON object on. */
  predicate AcceptsSent(scheme: Scheme, raw: Fields) {
    Decode(raw).Some? && AcceptsDirect(scheme, Decode(raw).value, raw)
  }

  /** Signed as sent: by the server alone, at least once, with its own current keys. */
  predicate SignedAsSent(scheme: Scheme, info: ServerKeys, raw: Fields) {
    && Validates(info) && KeysDecode(scheme, info.verifyKeys) && SignedAlone(info)
    && info.SignaturesOf(info.serverName) != map[]
    && DomainVouches(scheme, DecodedKeys(scheme, info.verifyKeys), SignedPart(raw), info.SignaturesOf(info.serverName))
  }

  /** No signature of the reply is valid for another object than the one sent. */
  predicate BindsToSent(scheme: Scheme, info: ServerKeys, raw: Fields, other: Fields)
    requires KeysDecode(scheme, info.verifyKeys)
  {
    var keys, signatures := DecodedKeys(scheme, info.verifyKeys), info.SignaturesOf(info.serverName);
    forall id | id in signatures && id in keys ::
      ValidSignature(scheme, keys[id], other, Str(signatures[id])) ==> other == SignedPart(raw)
  }

  /**
    A reply that its origin signed as it sent it is accepted if and only if it is plain. One that leaves out
    `old_verify_keys`, or says something more about a key, is rejected although its signature is good.
   */
  lemma AcceptedAsSentIff(scheme: Scheme, raw: Fields)
    requires Decode(raw).Some? && SignedAsSent(scheme, Decode(raw).value, raw)
    requires BindsToSent(scheme, Decode(raw).value, raw, KeyBody(Decode(raw).value, AdditionalFields(raw)))
    ensures AcceptsSent(scheme, raw) <==> IsPlain(raw)
  {
    var info := Decode(raw).value;
    var signatures := info.SignaturesOf(info.serverName);
    ReadAsSentIff(raw);
    var id :| id in signatures;
  }

  // ---------------------------------------------------------------- round trip

  lemma VerifyKeyReturns(key: string)
    ensures DecodeVerifyKey(Obj(map["key" := Str(key)])) == Some(key)
  {
  }

  lemma VerifyKeysReturn(keys: map<KeyId, string>)
    ensures DecodeVerifyKeys(VerifyKeysJson(keys)) == Some(keys)
  {
    var fields := VerifyKeysJson(keys).fields;
    forall id | id in fields ensures id in keys && DecodeVerifyKey(fields[id]) == Some(keys[id]) {
      VerifyKeyReturns(keys[id]);
    }
    assert DecodeVerifyKeys(Obj(fields)).value == keys;
  }

  lemma OldKeyReturns(key: OldKey)
    ensures DecodeOldKey(OldKeyJson(key)) == Some(key)
  {
  }

  lemma OldKeysReturnDecoded(keys: map<KeyId, OldKey>)
    ensures DecodeOldKeys(OldKeysJson(keys)) == Some(Some(keys))
  {
    var fields := OldKeysJson(keys).fields;
    forall id | id in fields ensures id in keys && DecodeOldKey(fields[id]) == Some(keys[id]) {
      OldKeyReturns(keys[id]);
      assert fields[id] == OldKeyJson(keys[id]);
    }
    assert DecodeOldKeys(Obj(fields)).value.value == keys;
  }

  lemma ListedReturns(listed: Listed)
    ensures DecodeListed(ListedJson(listed)) == Some(listed)
  {
    if listed.Some? {
      var fields := DomainSignaturesJson(listed.value).fields;
      assert fields.Keys == listed.value.Keys;
      assert forall id | id in listed.value :: DecodeText(fields[id]) == Some(listed.value[id]);
      assert DecodeListed(ListedJson(listed)).value.value == listed.value;
    }
  }

  lemma SignaturesReturn(signatures: map<string, Listed>)
    ensures DecodeSignatures(SignaturesJson(signatures)) == Some(Some(signatures))
  {
    var fields := SignaturesJson(signatures).fields;
    assert fields.Keys == signatures.Keys;
    forall domain | domain in signatures ensures DecodeListed(fields[domain]) == Some(signatures[domain]) {
      ListedReturns(signatures[domain]);
      assert fields[domain] == ListedJson(signatures[domain]);
    }
    assert DecodeSignatures(SignaturesJson(signatures)).value.value == signatures;
  }

  /** Writing out and decoding again gives the typed form back, and the additional fields. */
  lemma DecodeUndoesWriting(info: ServerKeys, additional: Fields)
    requires additional.Keys !! STANDARD_FIELDS
    ensures var sent := FullObject(info, additional);
            Decode(sent) == Some(info) && AdditionalFields(sent) == additional && IsPlain(sent)
  {
    var sent := FullObject(info, additional);
    assert AdditionalFields(sent) == additional;
    FieldsReturn(info, sent);
    ReadAsSentIff(sent);
  }

  lemma FieldsReturn(info: ServerKeys, sent: Fields)
    requires STANDARD_FIELDS <= sent.Keys && forall k | k in STANDARD_FIELDS :: sent[k] == ToFields(info)[k]
    ensures Decode(sent) == Some(info)
  {
    VerifyKeysReturn(info.verifyKeys);
    if info.oldVerifyKeys.Some? {
      OldKeysReturnDecoded(info.oldVerifyKeys.value);
    }
    if info.signatures.Some? {
      SignaturesReturn(info.signatures.value);
    }
  }
}
