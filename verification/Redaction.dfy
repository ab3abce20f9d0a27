/**
  Redacting events by the rules of room version 1, hashing their content, and signing them
  (Matrix specification, Appendices, "Signing Events").
 */
module Redaction {
  import opened Base
  import opened Signing

  const KEPT_KEYS: set<string> := {
    "event_id", "type", "room_id", "sender", "state_key", "content", "hashes", "signatures", "depth",
    "prev_events", "prev_state", "auth_events", "origin", "origin_server_ts", "membership"
  }

  /** The content keys that survive for an event type. */
  function KeptContentKeys(eventType: string): seq<string> {
    match eventType
    case "m.room.member" => ["membership"]
    case "m.room.create" => ["creator"]
    case "m.room.join_rules" => ["join_rule"]
    case "m.room.power_levels" =>
      ["ban", "events", "events_default", "kick", "redact", "state_default", "users", "users_default"]
    case "m.room.aliases" => ["aliases"]
    case "m.room.history_visibility" => ["history_visibility"]
    case _ => []
  }

  function Keep(obj: Fields, keys: set<string>): Fields {
    map k | k in obj && k in keys :: obj[k]
  }

  /** `type` is a string, and `content`, when it will be read, an object. */
  predicate Prunable(obj: Fields) {
    "type" in obj ==> obj["type"].Str? && ("content" in obj ==> obj["content"].Obj?)
  }

  /** The reference result of pruning: allowed top-level keys, with `content` cut down by event type. */
  function Pruned(obj: Fields): Fields
    requires Prunable(obj)
  {
    var top := Keep(obj, KEPT_KEYS);
    if "content" !in obj then top
    else if "type" !in obj then top["content" := Obj(map[])]
    else top["content" := Obj(Keep(obj["content"].fields, Elements(KeptContentKeys(obj["type"].s))))]
  }

  predicate Redactable(obj: Fields) {
    && ("unsigned" in obj ==> obj["unsigned"].Obj?)
    && Prunable(obj)
  }

  method PruneObject(obj: Fields) returns (r: Option<Fields>)
    ensures r.Some? <==> Prunable(obj)
    ensures r.Some? <==> ("type" in obj ==> obj["type"].Str? && ("content" in obj ==> obj["content"].Obj?))
    ensures r.Some? ==> r.value == Pruned(obj)
  {
    var m: Fields := map[];
    var todo := obj.Keys;
    while todo != {}
      invariant todo <= obj.Keys
      invariant m == Keep(obj, KEPT_KEYS - todo)
      decreases todo
    {
      var k :| k in todo;
      if k in KEPT_KEYS {
        m := m[k := obj[k]];
      }
      todo := todo - {k};
    }
    assert KEPT_KEYS - {} == KEPT_KEYS;

    if "type" in m {
      if !m["type"].Str? {
        return None;
      }
      if "content" in m {
        if !m["content"].Obj? {
          return None;
        }
        var eventContent := m["content"].fields;
        var newContent: Fields := map[];
        var keysToKeep := KeptContentKeys(m["type"].s);
        for i := 0 to |keysToKeep|
          invariant newContent == Keep(eventContent, Elements(keysToKeep[..i]))
        {
          assert keysToKeep[..i + 1] == keysToKeep[..i] + [keysToKeep[i]];
          if keysToKeep[i] in eventContent {
            newContent := newContent[keysToKeep[i] := eventContent[keysToKeep[i]]];
          }
        }
        assert keysToKeep[..|keysToKeep|] == keysToKeep;
        m := m["content" := Obj(newContent)];
      }
    } else if "content" in m {
      m := m["content" := Obj(map[])];
    }
    return Some(m);
  }

  /** Redacts an object and hands back its `unsigned` separately. */
  method RedactObject(obj: Fields) returns (r: Option<(Fields, Option<Fields>)>)
    ensures r.Some? <==> Redactable(obj)
    ensures r.Some? <==>
              && ("unsigned" in obj ==> obj["unsigned"].Obj?)
              && ("type" in obj ==> obj["type"].Str? && ("content" in obj ==> obj["content"].Obj?))
    ensures r.Some? ==> r.value.0 == Pruned(obj)
    ensures r.Some? ==> r.value.1 == if "unsigned" in obj then Some(obj["unsigned"].fields) else None
  {
    var unsigned: Option<Fields> := None;
    if "unsigned" in obj {
      if !obj["unsigned"].Obj? {
        return None;
      }
      unsigned := Some(obj["unsigned"].fields);
    }
    var p := PruneObject(obj);
    if p.None? {
      return None;
    }
    return Some((p.value, unsigned));
  }

  /** What the content hash covers. */
  function HashedPart(event: Fields): Fields {
    event - {"unsigned", "signatures", "hashes"}
  }

  function ContentHash(scheme: Scheme, event: Fields): string {
    scheme.encode(scheme.sha256(scheme.canonical(HashedPart(event))))
  }

  method CalculateSha256ContentHash(scheme: Scheme, event: Fields) returns (hash: string)
    ensures hash == ContentHash(scheme, event)
  {
    var m := event;
    m := m - {"unsigned"};
    m := m - {"signatures"};
    m := m - {"hashes"};
    assert m == HashedPart(event);
    var h := scheme.sha256(scheme.canonical(m));
    var hbytes: Bytes := [];
    for i := 0 to |h|
      invariant hbytes == h[..i]
    {
      hbytes := hbytes + [h[i]];
    }
    assert h[..|h|] == h;
    return scheme.encode(hbytes);
  }

  /** The object that is signed for an event: its redaction, the content hash and `unsigned`. */
  function HashedRedaction(scheme: Scheme, event: Fields): Fields
    requires Redactable(event)
  {
    var withHash := Pruned(event)["hashes" := Obj(map["sha256" := Str(ContentHash(scheme, event))])];
    if "unsigned" in event then withHash["unsigned" := event["unsigned"]] else withHash
  }

  method SignEvent(scheme: Scheme, event: Fields, domain: string, id: KeyId, key: Bytes) returns (r: Option<Fields>)
    ensures r.Some? <==> Redactable(event) && Signable(event, domain)
    ensures r.Some? ==> r.value == Signed(scheme, HashedRedaction(scheme, event), domain, id, key)
  {
    var redaction := RedactObject(event);
    if redaction.None? {
      return None;
    }
    var contentHash := CalculateSha256ContentHash(scheme, event);
    var redacted := new JsonObject(redaction.value.0);
    redacted.fields := redacted.fields["hashes" := Obj(map["sha256" := Str(contentHash)])];
    if redaction.value.1.Some? {
      redacted.fields := redacted.fields["unsigned" := Obj(redaction.value.1.value)];
    }
    assert redacted.fields == HashedRedaction(scheme, event);
    SignableSurvivesRedaction(scheme, event, domain);
    var signed := SignObject(scheme, redacted, domain, id, key);
    return if signed.None? then None else Some(signed.value.fields);
  }

  lemma SignableSurvivesRedaction(scheme: Scheme, event: Fields, domain: string)
    requires Redactable(event)
    ensures Signable(HashedRedaction(scheme, event), domain) <==> Signable(event, domain)
  {
    assert SignatureFields(HashedRedaction(scheme, event)) == SignatureFields(event);
  }

  /** The content of an event of this type keeps this field. */
  predicate KeepsContent(eventType: string, field: string) {
    || (eventType == "m.room.member" && field == "membership")
    || (eventType == "m.room.create" && field == "creator")
    || (eventType == "m.room.join_rules" && field == "join_rule")
    || (eventType == "m.room.power_levels"
        && field in {"ban", "events", "events_default", "kick", "redact", "state_default", "users", "users_default"})
    || (eventType == "m.room.aliases" && field == "aliases")
    || (eventType == "m.room.history_visibility" && field == "history_visibility")
  }

  /**
    What redaction keeps, by room version 1 of the Matrix specification: fifteen fields of the event, and of its
    content the fields that its type calls for; nothing is changed on the way.
   */
  lemma RedactionKeeps(event: Fields)
    requires Redactable(event)
    ensures var p := Pruned(event);
            && (forall k :: k in p <==> k in event && k in {
                  "event_id", "type", "room_id", "sender", "state_key", "content", "hashes", "signatures", "depth",
                  "prev_events", "prev_state", "auth_events", "origin", "origin_server_ts", "membership"})
            && (forall k | k in p && k != "content" :: p[k] == event[k])
            && ("content" in p ==>
                  && p["content"].Obj?
                  && ("type" !in event ==> p["content"].fields == map[])
                  && ("type" in event ==>
                        && event["content"].Obj? && event["type"].Str?
                        && var before, after := event["content"].fields, p["content"].fields;
                           && (forall field :: field in after <==>
                                 field in before && KeepsContent(event["type"].s, field))
                           && (forall field | field in after :: after[field] == before[field])))
  {
    if "type" in event && "content" in event {
      KeptContentMeans(event["type"].s);
    }
  }

  lemma KeptContentMeans(eventType: string)
    ensures forall field :: field in KeptContentKeys(eventType) <==> KeepsContent(eventType, field)
  {
  }

  /**
    What signing an event comes to: the redaction, with its `unsigned`, the hash of all but three of the event's
    fields, and a signature over what the signer sends out.
   */
  lemma SignedEventMeans(scheme: Scheme, event: Fields, domain: string, id: KeyId, key: Bytes)
    requires Redactable(event) && Signable(event, domain)
    ensures var signed := Signed(scheme, HashedRedaction(scheme, event), domain, id, key);
            && signed - {"signatures", "hashes", "unsigned"} == Pruned(event) - {"signatures", "hashes", "unsigned"}
            && ("unsigned" in signed <==> "unsigned" in event)
            && ("unsigned" in event ==> signed["unsigned"] == event["unsigned"])
            && "hashes" in signed
            && signed["hashes"] == Obj(map["sha256" := Str(scheme.encode(scheme.sha256(scheme.canonical(
                event - {"unsigned", "signatures", "hashes"}))))])
            && Lists(signed, domain, id)
            && signed["signatures"].fields[domain].fields[id] ==
                 Str(scheme.encode(scheme.sign(key, scheme.canonical(signed - {"unsigned", "signatures"}))))
  {
    var unsignedYet := HashedRedaction(scheme, event);
    var signed := Signed(scheme, unsignedYet, domain, id, key);
    SignedEventShape(scheme, event, domain, id, key);
    SignableSurvivesRedaction(scheme, event, domain);
    SignedKeepsTheRest(scheme, unsignedYet, domain, id, key);
    assert signed - {"unsigned", "signatures"} == SignedPart(unsignedYet);
  }

  /** Redacting twice is redacting once. */
  lemma RedactionIsIdempotent(event: Fields)
    requires Redactable(event)
    ensures Redactable(Pruned(event)) && "unsigned" !in Pruned(event)
    ensures Pruned(Pruned(event)) == Pruned(event)
  {
    var p := Pruned(event);
    assert Keep(p, KEPT_KEYS) == p;
    if "content" in event && "type" in event {
      var kept := Elements(KeptContentKeys(event["type"].s));
      assert p["type"] == event["type"];
      assert Keep(p["content"].fields, kept) == p["content"].fields;
    }
  }

  /** A signed event is redactable again, and differs from the redaction in three fields only. */
  lemma SignedEventShape(scheme: Scheme, event: Fields, domain: string, id: KeyId, key: Bytes)
    requires Redactable(event) && Signable(event, domain)
    ensures var signed := Signed(scheme, HashedRedaction(scheme, event), domain, id, key);
            && Redactable(signed)
            && signed - {"signatures", "hashes", "unsigned"} == Pruned(event) - {"signatures", "hashes", "unsigned"}
            && SignedPart(signed).Keys <= KEPT_KEYS
  {
    RedactionIsIdempotent(event);
    var p := Pruned(event);
    var signed := Signed(scheme, HashedRedaction(scheme, event), domain, id, key);
    var rest := {"signatures", "hashes", "unsigned"};
    assert p.Keys <= KEPT_KEYS;
    assert signed - rest == p - rest;
  }

  /** What redaction makes of an object's content depends on its type and content alone. */
  lemma SameContentSamePruning(a: Fields, b: Fields)
    requires Redactable(a) && Redactable(b)
    requires "content" in a && "content" in b && a["content"] == b["content"]
    requires ("type" in a <==> "type" in b) && ("type" in a ==> a["type"] == b["type"])
    ensures "content" in Pruned(a) && "content" in Pruned(b) && Pruned(a)["content"] == Pruned(b)["content"]
  {
  }

  /** Redaction drops nothing that a signed event's signatures cover. */
  lemma RedactionKeepsTheSignedPart(scheme: Scheme, event: Fields, domain: string, id: KeyId, key: Bytes)
    requires Redactable(event) && Signable(event, domain)
    ensures var signed := Signed(scheme, HashedRedaction(scheme, event), domain, id, key);
            && Redactable(signed)
            && SignedPart(Pruned(signed)) == SignedPart(signed)
            && SignatureFields(Pruned(signed)) == SignatureFields(signed)
  {
    var signed := Signed(scheme, HashedRedaction(scheme, event), domain, id, key);
    SignedEventShape(scheme, event, domain, id, key);
    PrunedKeepsSignedPart(signed, Pruned(event), event);
  }

  lemma SameOutside(a: Fields, b: Fields, rest: set<string>)
    requires a - rest == b - rest
    ensures forall k: string | k !in rest :: (k in a <==> k in b) && (k in a ==> a[k] == b[k])
  {
    forall k: string | k !in rest ensures (k in a <==> k in b) && (k in a ==> a[k] == b[k]) {
      assert k in a <==> k in a - rest;
      assert k in b <==> k in b - rest;
      assert k in a ==> (a - rest)[k] == a[k] && (b - rest)[k] == b[k];
    }
  }

  lemma PrunedKeepsSignedPart(signed: Fields, p: Fields, event: Fields)
    requires Redactable(event) && p == Pruned(event) && Redactable(signed) && SignedPart(signed).Keys <= KEPT_KEYS
    requires signed - {"signatures", "hashes", "unsigned"} == p - {"signatures", "hashes", "unsigned"}
    ensures SignedPart(Pruned(signed)) == SignedPart(signed)
    ensures SignatureFields(Pruned(signed)) == SignatureFields(signed)
  {
    RedactionIsIdempotent(event);
    var rest := {"signatures", "hashes", "unsigned"};
    SameOutside(signed, p, rest);
    if "content" in p {
      SameContentSamePruning(signed, p);
    }
    assert SignedPart(Pruned(signed)) == SignedPart(signed);
  }

  /**
    Redacting a signed event never changes the verdict on it, under any ring of keys; and the signature
    just added is valid for the redacted event, so it is all a verifier needs when there was no other.
   */
  lemma SignedEventSurvivesRedaction(scheme: Scheme, event: Fields, domain: string, id: KeyId, key: Bytes,
                                     ring: KeyRing)
    requires scheme.Sound()
    requires Redactable(event) && Signable(event, domain)
    ensures var signed := Signed(scheme, HashedRedaction(scheme, event), domain, id, key);
            var redacted := Pruned(signed);
            && (Verifies(scheme, redacted, ring) <==> Verifies(scheme, signed, ring))
            && ValidSignature(scheme, scheme.publicOf(key), SignedPart(redacted),
                SignatureFields(redacted)[domain].fields[id])
            && (SignatureFields(event) == map[] ==>
                  Verifies(scheme, redacted, AddKey(map[], domain, id, scheme.publicOf(key))))
  {
    var unsignedYet := HashedRedaction(scheme, event);
    var signed := Signed(scheme, unsignedYet, domain, id, key);
    RedactionKeepsTheSignedPart(scheme, event, domain, id, key);
    SignableSurvivesRedaction(scheme, event, domain);
    SignedKeepsTheRest(scheme, unsignedYet, domain, id, key);
    assert ValidSignature(scheme, scheme.publicOf(key), SignedPart(signed),
        Str(SignatureOf(scheme, SignedPart(unsignedYet), key)));
    if SignatureFields(event) == map[] {
      assert SignatureFields(unsignedYet) == map[];
      SignedVerifies(scheme, unsignedYet, map[], domain, id, key);
    }
  }

  /** The content hash depends on no `unsigned`, `signatures` or `hashes`, and signing records it unchanged. */
  lemma ContentHashIgnores(scheme: Scheme, event: Fields, other: Fields)
    requires forall k :: k !in {"unsigned", "signatures", "hashes"} ==>
               (k in event <==> k in other) && (k in event ==> event[k] == other[k])
    ensures ContentHash(scheme, event) == ContentHash(scheme, other)
    ensures Redactable(event) ==>
              HashedRedaction(scheme, event)["hashes"] == Obj(map["sha256" := Str(ContentHash(scheme, other))])
  {
    assert HashedPart(event) == HashedPart(other);
  }
}
