/**
  What acceptance and service come to, down to the single signature: nothing is accepted or served on the
  strength of a signature that does not verify.
 */
module Refusals {
  import opened Base
  import opened Signing
  import opened KeyRecords

  /** The object over which the signatures of a reply are checked: its typed form, and the fields it does not know. */
  function CheckedObject(info: ServerKeys, raw: Fields): Fields {
    (raw - {"server_name", "valid_until_ts", "verify_keys", "old_verify_keys", "signatures"}) + ToFields(info)
        - {"unsigned", "signatures"}
  }

  /** `key`, once decoded, verifies `signature`, once decoded, over the object. */
  predicate Verified(scheme: Scheme, key: string, obj: Fields, signature: string) {
    && scheme.decode(key).Some? && scheme.decode(signature).Some?
    && scheme.verify(scheme.decode(key).value, scheme.canonical(obj), scheme.decode(signature).value)
  }

  lemma CheckedIsBody(info: ServerKeys, raw: Fields)
    ensures CheckedObject(info, raw) == KeyBody(info, AdditionalFields(raw))
  {
    assert raw - {"server_name", "valid_until_ts", "verify_keys", "old_verify_keys", "signatures"}
        == AdditionalFields(raw);
  }

  /**
    What it takes for a direct reply to be accepted: a name, at least one key, keys that decode, one signing
    domain, the server's own, and every signature in it by a current key of the reply and verified.
   */
  lemma DirectAcceptanceMeans(scheme: Scheme, info: ServerKeys, raw: Fields)
    ensures AcceptsDirect(scheme, info, raw) <==>
              && info.serverName != "" && info.verifyKeys != map[]
              && (forall id | id in info.verifyKeys :: scheme.decode(info.verifyKeys[id]).Some?)
              && info.signatures.Some? && info.signatures.value.Keys == {info.serverName}
              && info.signatures.value[info.serverName].Some?
              && forall id | id in info.signatures.value[info.serverName].value ::
                  && id in info.verifyKeys
                  && Verified(scheme, info.verifyKeys[id], CheckedObject(info, raw),
                      info.signatures.value[info.serverName].value[id])
  {
    CheckedIsBody(info, raw);
    if SignedAlone(info) {
      assert info.SignaturesOf(info.serverName) == info.signatures.value[info.serverName].value;
    }
  }

  /** What it takes for a notary's answer about another server to be accepted: signed and verified by both. */
  lemma NotaryAcceptanceMeans(scheme: Scheme, notary: ServerName, info: ServerKeys, raw: Fields,
                              notaryKeys: map<KeyId, Bytes>)
    requires notary != info.serverName
    ensures AcceptsViaNotary(scheme, notary, info, raw, notaryKeys) <==>
              var ofOrigin, ofNotary := info.SignaturesOf(info.serverName), info.SignaturesOf(notary);
              && (forall id | id in info.verifyKeys :: scheme.decode(info.verifyKeys[id]).Some?)
              && ofOrigin != map[] && ofNotary != map[]
              && (forall id | id in ofOrigin ::
                    && id in info.verifyKeys
                    && Verified(scheme, info.verifyKeys[id], CheckedObject(info, raw), ofOrigin[id]))
              && (forall id | id in ofNotary ::
                    && id in notaryKeys && scheme.decode(ofNotary[id]).Some?
                    && scheme.verify(notaryKeys[id], scheme.canonical(CheckedObject(info, raw)),
                        scheme.decode(ofNotary[id]).value))
  {
    CheckedIsBody(info, raw);
  }

  /** A direct reply with one signature that does not verify is rejected, whatever else is right about it. */
  lemma ForgedReplyIsRejected(scheme: Scheme, info: ServerKeys, raw: Fields, id: KeyId)
    requires id in info.SignaturesOf(info.serverName) && id in info.verifyKeys
    requires !Verified(scheme, info.verifyKeys[id], CheckedObject(info, raw), info.SignaturesOf(info.serverName)[id])
    ensures !AcceptsDirect(scheme, info, raw)
  {
    DirectAcceptanceMeans(scheme, info, raw);
  }

  /** So is a notary's answer, be it the origin's signature or the notary's. */
  lemma ForgedAnswerIsRejected(scheme: Scheme, notary: ServerName, info: ServerKeys, raw: Fields,
                               notaryKeys: map<KeyId, Bytes>, notaryKey: string, id: KeyId)
    requires notary != info.serverName
    requires || (id in info.SignaturesOf(info.serverName) && id in info.verifyKeys
                 && !Verified(scheme, info.verifyKeys[id], CheckedObject(info, raw),
                     info.SignaturesOf(info.serverName)[id]))
             || (id in info.SignaturesOf(notary) && id in notaryKeys && scheme.decode(notaryKey) == Some(notaryKeys[id])
                 && !Verified(scheme, notaryKey, CheckedObject(info, raw), info.SignaturesOf(notary)[id]))
    ensures !AcceptsViaNotary(scheme, notary, info, raw, notaryKeys)
  {
    NotaryAcceptanceMeans(scheme, notary, info, raw, notaryKeys);
  }
}
