/**
  What is served: a held record is put back together as a signed object, signed with every key of our
  own, and checked one last time. A record that fails the check is never served, and is invalidated.
 */
module Serving {
  import opened Base
  import opened Signing
  import opened KeyRecords
  import opened Tables
  import opened Resolution
  import opened Worlds
  import opened KeyReservoir

  datatype OwnKey = OwnKey(id: KeyId, publicKey: string, privateKey: string, expiresTs: Timestamp)

  datatype Refusal = NoKeysRetrieved | UnexpectedServer | UnreadableKeys | CannotSign | SignaturesDoNotVerify

  datatype Served = Serves(obj: Fields) | Refuses(why: Refusal)

  // ---------------------------------------------------------------- putting a record back together

  /** A stored key counts as expired when it has a positive expiry. */
  function CurrentKeys(keys: map<KeyId, KeyRow>): map<KeyId, string> {
    map id | id in keys && keys[id].expiresTs <= 0 :: keys[id].publicKey
  }

  function ExpiredKeys(keys: map<KeyId, KeyRow>): map<KeyId, OldKey> {
    map id | id in keys && keys[id].expiresTs > 0 :: OldKey(keys[id].publicKey, keys[id].expiresTs)
  }

  /** The typed form of the response, before anybody has signed it. */
  function Rebuilt(self: ServerName, held: Held): ServerKeys {
    ServerKeys(held.server, held.validUntilTs, CurrentKeys(held.keys), Some(ExpiredKeys(held.keys)),
        Some(map[self := Some(map[]), held.server := Some(map[])]))
  }

  /** The response before signing: the typed fields, overlaid with the additional ones. */
  function Expanded(self: ServerName, held: Held): Fields {
    ToFields(Rebuilt(self, held)) + held.extra
  }

  method RebuildKeys(scheme: Scheme, keys: map<KeyId, KeyRow>)
    returns (current: map<KeyId, string>, expired: map<KeyId, OldKey>, publicKeys: Option<map<KeyId, Bytes>>)
    ensures publicKeys.Some? <==> KeysDecode(scheme, CurrentKeys(keys))
    ensures publicKeys.Some? ==>
              current == CurrentKeys(keys) && expired == ExpiredKeys(keys)
                  && publicKeys.value == DecodedKeys(scheme, CurrentKeys(keys))
  {
    current, expired := map[], map[];
    var decoded: map<KeyId, Bytes> := map[];
    var todo := keys.Keys;
    ghost var seen: map<KeyId, KeyRow> := map[];
    while todo != {}
      invariant todo <= keys.Keys && seen == keys - todo
      invariant current == CurrentKeys(seen) && expired == ExpiredKeys(seen)
      invariant KeysDecode(scheme, current) && decoded == DecodedKeys(scheme, current)
      decreases todo
    {
      var id :| id in todo;
      var k := keys[id];
      CurrentKeysGrow(seen, id, k);
      ExpiredKeysGrow(seen, id, k);
      if k.expiresTs > 0 {
        expired := expired[id := OldKey(k.publicKey, k.expiresTs)];
      } else {
        var b := scheme.decode(k.publicKey);
        if b.None? {
          assert id in CurrentKeys(keys) && scheme.decode(CurrentKeys(keys)[id]).None?;
          return current, expired, None;
        }
        DecodedKeysGrow(scheme, current, id, k.publicKey);
        current := current[id := k.publicKey];
        decoded := decoded[id := b.value];
      }
      seen := seen[id := k];
      todo := todo - {id};
    }
    assert seen == keys;
    return current, expired, Some(decoded);
  }

  lemma DecodedKeysGrow(scheme: Scheme, keys: map<KeyId, string>, id: KeyId, key: string)
    requires KeysDecode(scheme, keys) && scheme.decode(key).Some?
    ensures KeysDecode(scheme, keys[id := key])
    ensures DecodedKeys(scheme, keys[id := key]) == DecodedKeys(scheme, keys)[id := scheme.decode(key).value]
  {
  }

  lemma CurrentKeysGrow(seen: map<KeyId, KeyRow>, id: KeyId, k: KeyRow)
    requires id !in seen
    ensures CurrentKeys(seen[id := k]) == if k.expiresTs > 0 then CurrentKeys(seen)
              else CurrentKeys(seen)[id := k.publicKey]
  {
  }

  lemma ExpiredKeysGrow(seen: map<KeyId, KeyRow>, id: KeyId, k: KeyRow)
    requires id !in seen
    ensures ExpiredKeys(seen[id := k]) == if k.expiresTs > 0 then
              ExpiredKeys(seen)[id := OldKey(k.publicKey, k.expiresTs)] else ExpiredKeys(seen)
  {
  }

  // ---------------------------------------------------------------- our own signatures

  predicate Loads(scheme: Scheme, key: OwnKey) {
    scheme.decode(key.publicKey).Some? && scheme.decode(key.privateKey).Some?
  }

  /** All of our keys can be loaded, and, if there are any, the object can be signed. */
  predicate CanSign(scheme: Scheme, obj: Fields, ownKeys: seq<OwnKey>) {
    (forall key | key in ownKeys :: Loads(scheme, key)) && (ownKeys != [] ==> Signable(obj, "a"))
  }

  function OwnSignatures(scheme: Scheme, body: Fields, ownKeys: seq<OwnKey>): map<KeyId, string>
    requires forall key | key in ownKeys :: Loads(scheme, key)
  {
    if ownKeys == [] then map[]
    else
      var last := ownKeys[|ownKeys| - 1];
      assert Loads(scheme, last);
      OwnSignatures(scheme, body, ownKeys[..|ownKeys| - 1])[last.id :=
          SignatureOf(scheme, body, scheme.decode(last.privateKey).value)]
  }

  function OwnPublicKeys(scheme: Scheme, ownKeys: seq<OwnKey>): map<KeyId, Bytes>
    requires forall key | key in ownKeys :: Loads(scheme, key)
  {
    if ownKeys == [] then map[]
    else
      var last := ownKeys[|ownKeys| - 1];
      assert Loads(scheme, last);
      OwnPublicKeys(scheme, ownKeys[..|ownKeys| - 1])[last.id := scheme.decode(last.publicKey).value]
  }

  lemma OneMoreKey(scheme: Scheme, body: Fields, ownKeys: seq<OwnKey>, i: nat)
    requires i < |ownKeys| && Loads(scheme, ownKeys[i]) && forall key | key in ownKeys[..i] :: Loads(scheme, key)
    ensures forall key | key in ownKeys[..i + 1] :: Loads(scheme, key)
    ensures OwnSignatures(scheme, body, ownKeys[..i + 1]) ==
              OwnSignatures(scheme, body, ownKeys[..i])[ownKeys[i].id :=
                  SignatureOf(scheme, body, scheme.decode(ownKeys[i].privateKey).value)]
    ensures OwnPublicKeys(scheme, ownKeys[..i + 1]) ==
              OwnPublicKeys(scheme, ownKeys[..i])[ownKeys[i].id := scheme.decode(ownKeys[i].publicKey).value]
  {
    assert ownKeys[..i + 1] == ownKeys[..i] + [ownKeys[i]] && ownKeys[..i + 1][..i] == ownKeys[..i];
  }

  /** Signs with every key of our own, the expired ones included. */
  method SignWithOwnKeys(scheme: Scheme, obj: Fields, ownKeys: seq<OwnKey>)
    returns (r: Option<(map<KeyId, string>, map<KeyId, Bytes>)>)
    ensures r.Some? <==> CanSign(scheme, obj, ownKeys)
    ensures r.Some? ==> r.value == (OwnSignatures(scheme, SignedPart(obj), ownKeys), OwnPublicKeys(scheme, ownKeys))
  {
    var signatures: map<KeyId, string> := map[];
    var publicKeys: map<KeyId, Bytes> := map[];
    for i := 0 to |ownKeys|
      invariant CanSign(scheme, obj, ownKeys[..i])
      invariant signatures == OwnSignatures(scheme, SignedPart(obj), ownKeys[..i])
      invariant publicKeys == OwnPublicKeys(scheme, ownKeys[..i])
    {
      var key := ownKeys[i];
      var pub, priv := scheme.decode(key.publicKey), scheme.decode(key.privateKey);
      if pub.None? || priv.None? {
        assert key in ownKeys && !Loads(scheme, key);
        return None;
      }
      var signature := GetSignatureOfObject(scheme, obj, priv.value);
      if signature.None? {
        return None;
      }
      OneMoreKey(scheme, SignedPart(obj), ownKeys, i);
      signatures := signatures[key.id := signature.value];
      publicKeys := publicKeys[key.id := pub.value];
    }
    assert ownKeys[..|ownKeys|] == ownKeys;
    return Some((signatures, publicKeys));
  }

  // ---------------------------------------------------------------- the response

  /** The signatures of a response: ours, and the stored ones under the remote server's name. */
  function ResponseSignatures(self: ServerName, own: map<KeyId, string>, held: Held): map<string, Listed> {
    if self == held.server then map[self := Some(own + held.signatures)]
    else map[self := Some(own), held.server := Some(held.signatures)]
  }

  /** The keys of the last-minute check: the remote server's current ones, and ours. */
  function ResponseRing(self: ServerName, own: map<KeyId, Bytes>, server: ServerName,
                        current: map<KeyId, Bytes>): KeyRing {
    if self == server then map[self := current + own] else map[self := own, server := current]
  }

  function Response(scheme: Scheme, self: ServerName, ownKeys: seq<OwnKey>, held: Held): Fields
    requires forall key | key in ownKeys :: Loads(scheme, key)
  {
    var expanded := Expanded(self, held);
    expanded["signatures" := SignaturesJson(ResponseSignatures(self,
        OwnSignatures(scheme, SignedPart(expanded), ownKeys), held))]
  }

  function RingFor(scheme: Scheme, self: ServerName, ownKeys: seq<OwnKey>, held: Held): KeyRing
    requires KeysDecode(scheme, CurrentKeys(held.keys)) && forall key | key in ownKeys :: Loads(scheme, key)
  {
    ResponseRing(self, OwnPublicKeys(scheme, ownKeys), held.server, DecodedKeys(scheme, CurrentKeys(held.keys)))
  }

  /** What is answered about `serverName` from a held record. */
  function Prepared(scheme: Scheme, self: ServerName, ownKeys: seq<OwnKey>, serverName: ServerName,
                    held: Held): Served {
    if held.keys == map[] then Serves(map[])
    else if held.server != serverName then Refuses(UnexpectedServer)
    else if !KeysDecode(scheme, CurrentKeys(held.keys)) then Refuses(UnreadableKeys)
    else if !CanSign(scheme, Expanded(self, held), ownKeys) then Refuses(CannotSign)
    else if !Verifies(scheme, Response(scheme, self, ownKeys, held), RingFor(scheme, self, ownKeys, held)) then
        Refuses(SignaturesDoNotVerify)
    else Serves(Response(scheme, self, ownKeys, held))
  }

  method PrepareKeys(scheme: Scheme, self: ServerName, ownKeys: seq<OwnKey>, serverName: ServerName,
                     held: Held) returns (r: Served)
    ensures r == Prepared(scheme, self, ownKeys, serverName, held)
  {
    if held.keys == map[] {
      return Serves(map[]);
    }
    if held.server != serverName {
      return Refuses(UnexpectedServer);
    }
    var current, expired, publicKeys := RebuildKeys(scheme, held.keys);
    if publicKeys.None? {
      return Refuses(UnreadableKeys);
    }
    var resp := ServerKeys(held.server, held.validUntilTs, current, Some(expired),
        Some(map[self := Some(map[]), held.server := Some(map[])]));
    var expanded := ToFields(resp) + held.extra;
    assert expanded == Expanded(self, held);

    var own := SignWithOwnKeys(scheme, expanded, ownKeys);
    if own.None? {
      return Refuses(CannotSign);
    }
    var signatures := ResponseSignatures(self, own.value.0, held);
    expanded := expanded["signatures" := SignaturesJson(signatures)];
    assert expanded == Response(scheme, self, ownKeys, held);

    var ring := ResponseRing(self, own.value.1, held.server, publicKeys.value);
    var ok := VerifySignatures(scheme, expanded, ring);
    return if ok then Serves(expanded) else Refuses(SignaturesDoNotVerify);
  }

  /** The answer to one lookup, and the site it leaves; others may act before an invalidation. */
  function Answer(c: Config, s: Site, ownKeys: seq<OwnKey>, serverName: ServerName, found: Option<Held>,
                  others: Others): (Site, Served) {
    if found.None? then (s, Refuses(NoKeysRetrieved))
    else
      var server := found.value.server;
      var r := Prepared(c.scheme, c.self, ownKeys, serverName, found.value);
      if r == Refuses(SignaturesDoNotVerify) then
        var s' := Meanwhile(s, c.cooldown, others);
        (s'.(world := s'.world[server := InvalidateRemoteServer(TablesOf(s'.world, server))]), r)
      else (s, r)
  }

  /** Resolves a server's keys and prepares them; what does not verify is invalidated instead of served. */
  method FindAndPrepareKeys(reservoir: Reservoir, ownKeys: seq<OwnKey>, serverName: ServerName, minValidTs: Timestamp,
                            script: Script, beforeInvalidation: Others)
    returns (r: Served)
    requires reservoir.Valid() && |script.visits| == |reservoir.config.notaries|
    modifies reservoir`world, reservoir`contacts, reservoir.walks
    ensures var found := Resolve(reservoir.config, old(reservoir.CurrentSite()), serverName, minValidTs, true, script);
            var answer := Answer(reservoir.config, found.site, ownKeys, serverName, found.result, beforeInvalidation);
            && reservoir.CurrentSite() == answer.0
            && reservoir.contacts == old(reservoir.contacts) + found.contacts
            && r == answer.1
  {
    var remoteKeys := reservoir.QueryRemoteKeys(serverName, minValidTs, true, script);
    if remoteKeys.None? {
      return Refuses(NoKeysRetrieved);
    }
    r := PrepareKeys(reservoir.config.scheme, reservoir.config.self, ownKeys, serverName, remoteKeys.value);
    if r == Refuses(SignaturesDoNotVerify) {
      reservoir.LetOthersRun(beforeInvalidation);
      reservoir.InvalidateHeld(remoteKeys.value.server);
    }
  }
}
