/**
  Signing and checking JSON objects (Matrix specification, Appendices, "Signing JSON").
  Ed25519, SHA-256, base64 and canonical encoding are parameters of every theorem: a Scheme
  bundles them, and Sound states the two laws that are needed of them.
 */
module Signing {
  import opened Base

  datatype Scheme = Scheme(
    sign: (Bytes, Bytes) -> Bytes,           // private key, message
    verify: (Bytes, Bytes, Bytes) -> bool,   // public key, message, signature
    publicOf: Bytes -> Bytes,                // the public half of a private key
    canonical: Fields -> Bytes,
    sha256: Bytes -> Bytes,
    encode: Bytes -> string,                 // unpadded base64
    decode: string -> Option<Bytes>)
  {
    /** A signature verifies under the signer's public key, and base64 can be undone. */
    ghost predicate Sound() {
      && (forall key, message :: verify(publicOf(key), message, sign(key, message)))
      && (forall b :: decode(encode(b)) == Some(b))
    }
  }

  /** Public keys by domain and key id. */
  type KeyRing = map<string, map<KeyId, Bytes>>

  /** What a signature covers: everything but `unsigned` and the signatures themselves. */
  function SignedPart(obj: Fields): Fields {
    obj - {"unsigned", "signatures"}
  }

  /** The signatures an object carries; none when the field is missing. */
  function SignatureFields(obj: Fields): Fields {
    if "signatures" in obj && obj["signatures"].Obj? then obj["signatures"].fields else map[]
  }

  predicate ValidSignature(scheme: Scheme, key: Bytes, body: Fields, signature: Json) {
    && signature.Str?
    && scheme.decode(signature.s).Some?
    && scheme.verify(key, scheme.canonical(body), scheme.decode(signature.s).value)
  }

  predicate DomainVerifies(scheme: Scheme, keys: map<KeyId, Bytes>, body: Fields, signatures: Json) {
    && signatures.Obj?
    && forall id | id in signatures.fields ::
        id in keys && ValidSignature(scheme, keys[id], body, signatures.fields[id])
  }

  predicate AllVerify(scheme: Scheme, ring: KeyRing, body: Fields, signatures: Fields) {
    forall domain | domain in signatures ::
      domain in ring && DomainVerifies(scheme, ring[domain], body, signatures[domain])
  }

  /** The reference verdict: some domain signed, and every listed signature is valid under its named key. */
  predicate Verifies(scheme: Scheme, obj: Fields, ring: KeyRing) {
    && SignatureFields(obj) != map[]
    && AllVerify(scheme, ring, SignedPart(obj), SignatureFields(obj))
  }

  /**
    What the verdict comes to: every signature listed is a string that decodes to bytes which `verify` accepts,
    under the key that the ring has for its domain and id, as a signature of the canonical form of the object
    without `unsigned` and `signatures`; nothing else will do, and nothing more is asked.
   */
  lemma VerdictMeans(scheme: Scheme, obj: Fields, ring: KeyRing)
    ensures Verifies(scheme, obj, ring) <==>
              && "signatures" in obj && obj["signatures"].Obj? && obj["signatures"].fields != map[]
              && forall domain | domain in obj["signatures"].fields ::
                  && domain in ring && obj["signatures"].fields[domain].Obj?
                  && forall id | id in obj["signatures"].fields[domain].fields ::
                      && id in ring[domain] && obj["signatures"].fields[domain].fields[id].Str?
                      && var bytes := scheme.decode(obj["signatures"].fields[domain].fields[id].s);
                         bytes.Some? && scheme.verify(ring[domain][id],
                             scheme.canonical(obj - {"unsigned", "signatures"}), bytes.value)
  {
    assert obj - {"unsigned", "signatures"} == SignedPart(obj);
    if Verifies(scheme, obj, ring) {
      forall domain | domain in obj["signatures"].fields
        ensures domain in ring
        ensures DomainVerifies(scheme, ring[domain], SignedPart(obj), obj["signatures"].fields[domain])
      {
      }
    }
  }

  /** An object lists a signature of a domain under a key id. */
  predicate Lists(obj: Fields, domain: string, id: KeyId) {
    && "signatures" in obj && obj["signatures"].Obj? && domain in obj["signatures"].fields
    && obj["signatures"].fields[domain].Obj? && id in obj["signatures"].fields[domain].fields
  }

  /**
    Checks the signatures domain by domain and key by key, in whatever order the maps yield them,
    leaving at the first that fails. A failed type assertion in the Go code counts as a rejection.
   */
  method VerifySignatures(scheme: Scheme, obj: Fields, ring: KeyRing) returns (ok: bool)
    ensures ok <==> Verifies(scheme, obj, ring)
    ensures ok ==> forall domain, id | Lists(obj, domain, id) ::
              && domain in ring && id in ring[domain] && obj["signatures"].fields[domain].fields[id].Str?
              && var bytes := scheme.decode(obj["signatures"].fields[domain].fields[id].s);
                 bytes.Some? && scheme.verify(ring[domain][id], scheme.canonical(obj - {"unsigned", "signatures"}),
                     bytes.value)
  {
    VerdictMeans(scheme, obj, ring);
    var m := obj - {"unsigned"};
    if "signatures" !in m || !m["signatures"].Obj? {
      return false;
    }
    var signatures := m["signatures"].fields;
    m := m - {"signatures"};
    assert m == SignedPart(obj);
    assert signatures == SignatureFields(obj);
    if signatures == map[] {
      return false;
    }

    var domains := signatures.Keys;
    while domains != {}
      invariant domains <= signatures.Keys
      invariant forall d | d in signatures && d !in domains ::
                  d in ring && DomainVerifies(scheme, ring[d], m, signatures[d])
      decreases domains
    {
      var domain :| domain in domains;
      if domain !in ring || !signatures[domain].Obj? {
        return false;
      }
      var keySigs := signatures[domain].fields;
      var ids := keySigs.Keys;
      while ids != {}
        invariant ids <= keySigs.Keys
        invariant forall id | id in keySigs && id !in ids ::
                    id in ring[domain] && ValidSignature(scheme, ring[domain][id], m, keySigs[id])
        decreases ids
      {
        var id :| id in ids;
        if id !in ring[domain] || !keySigs[id].Str? {
          return false;
        }
        var signature := scheme.decode(keySigs[id].s);
        if signature == None || !scheme.verify(ring[domain][id], scheme.canonical(m), signature.value) {
          return false;
        }
        ids := ids - {id};
      }
      domains := domains - {domain};
    }
    return true;
  }

  // ---------------------------------------------------------------- signing

  /** The type assertions of the signing code hold: signing this object as `domain` does not panic. */
  predicate Signable(obj: Fields, domain: string) {
    && ("unsigned" in obj ==> obj["unsigned"].Obj?)
    && ("signatures" in obj ==> obj["signatures"].Obj?)
    && (domain in SignatureFields(obj) ==> SignatureFields(obj)[domain].Obj?)
  }

  function DomainSignatures(signatures: Fields, domain: string): Fields {
    if domain in signatures && signatures[domain].Obj? then signatures[domain].fields else map[]
  }

  /** `signatures` with one more entry. */
  function WithSignature(signatures: Fields, domain: string, id: KeyId, signature: string): Fields {
    signatures[domain := Obj(DomainSignatures(signatures, domain)[id := Str(signature)])]
  }

  function SignatureOf(scheme: Scheme, body: Fields, key: Bytes): string {
    scheme.encode(scheme.sign(key, scheme.canonical(body)))
  }

  /** The signed object: same signed part, same `unsigned`, one more signature. */
  function Signed(scheme: Scheme, obj: Fields, domain: string, id: KeyId, key: Bytes): Fields {
    obj["signatures" := Obj(WithSignature(SignatureFields(obj), domain, id, SignatureOf(scheme, SignedPart(obj), key)))]
  }

  lemma SignedMeans(scheme: Scheme, obj: Fields, domain: string, id: KeyId, key: Bytes)
    requires Signable(obj, domain)
    ensures var signed := Signed(scheme, obj, domain, id, key);
            && Lists(signed, domain, id)
            && signed["signatures"].fields[domain].fields[id] ==
                 Str(scheme.encode(scheme.sign(key, scheme.canonical(obj - {"unsigned", "signatures"}))))
  {
  }

  /** A Go map that is passed by reference. */
  class JsonObject {
    var fields: Fields

    constructor (fields: Fields)
      ensures this.fields == fields
    {
      this.fields := fields;
    }
  }

  lemma TakenApart(obj: Fields)
    ensures obj - {"unsigned"} - {"signatures"} == SignedPart(obj)
  {
  }

  lemma PutTogether(obj: Fields, signatures: Json)
    ensures var m := SignedPart(obj)["signatures" := signatures];
            (if "unsigned" in obj then m["unsigned" := obj["unsigned"]] else m) == obj["signatures" := signatures]
  {
  }

  /** Puts a signature in; None when the entry of its domain is no object. */
  method PutSignature(signatures: Fields, domain: string, id: KeyId, signature: string) returns (r: Option<Fields>)
    ensures r.Some? <==> (domain in signatures ==> signatures[domain].Obj?)
    ensures r.Some? ==> r.value == WithSignature(signatures, domain, id, signature)
  {
    var domainObj: Fields := map[];
    if domain in signatures {
      if !signatures[domain].Obj? {
        return None;
      }
      domainObj := signatures[domain].fields;
    }
    domainObj := domainObj[id := Str(signature)];
    return Some(signatures[domain := Obj(domainObj)]);
  }

  /**
    Signs an object. The argument loses its `unsigned` and `signatures` fields on the way, as the
    caller of the Go function can observe; the result is a new object.
   */
  method SignObject(scheme: Scheme, obj: JsonObject, domain: string, id: KeyId, key: Bytes)
    returns (r: Option<JsonObject>)
    modifies obj
    ensures r.Some? <==> Signable(old(obj.fields), domain)
    ensures r.Some? ==> fresh(r.value) && r.value.fields == Signed(scheme, old(obj.fields), domain, id, key)
    ensures r.Some? ==> obj.fields == SignedPart(old(obj.fields))
    ensures r.Some? <==> var o := old(obj.fields);
              && ("unsigned" in o ==> o["unsigned"].Obj?) && ("signatures" in o ==> o["signatures"].Obj?)
              && ("signatures" in o && domain in o["signatures"].fields ==> o["signatures"].fields[domain].Obj?)
    ensures r.Some? ==> Lists(r.value.fields, domain, id)
    ensures r.Some? ==>
              r.value.fields["signatures"].fields[domain].fields[id] ==
              Str(scheme.encode(scheme.sign(key, scheme.canonical(old(obj.fields) - {"unsigned", "signatures"}))))
  {
    var unsigned: Option<Json> := None;
    if "unsigned" in obj.fields {
      if !obj.fields["unsigned"].Obj? {
        return None;
      }
      unsigned := Some(obj.fields["unsigned"]);
    }
    obj.fields := obj.fields - {"unsigned"};

    var signatures: Option<Fields> := None;
    if "signatures" in obj.fields {
      if !obj.fields["signatures"].Obj? {
        return None;
      }
      signatures := Some(obj.fields["signatures"].fields);
    }
    obj.fields := obj.fields - {"signatures"};
    TakenApart(old(obj.fields));

    var signature := scheme.encode(scheme.sign(key, scheme.canonical(obj.fields)));

    var m := new JsonObject(obj.fields);
    var signaturesObj := PutSignature(if signatures.Some? then signatures.value else map[], domain, id, signature);
    if signaturesObj.None? {
      return None;
    }
    m.fields := m.fields["signatures" := Obj(signaturesObj.value)];
    if unsigned.Some? {
      m.fields := m.fields["unsigned" := unsigned.value];
    }
    PutTogether(old(obj.fields), Obj(signaturesObj.value));
    SignedMeans(scheme, old(obj.fields), domain, id, key);
    return Some(m);
  }

  /** Signs a copy under the placeholder name "a" and keeps only the signature. */
  method GetSignatureOfObject(scheme: Scheme, obj: Fields, key: Bytes) returns (r: Option<string>)
    ensures r == if Signable(obj, "a") then Some(SignatureOf(scheme, SignedPart(obj), key)) else None
    ensures r.Some? ==>
              r.value == scheme.encode(scheme.sign(key, scheme.canonical(obj - {"unsigned", "signatures"})))
  {
    var m := new JsonObject(obj);
    var s := SignObject(scheme, m, "a", "a", key);
    if s.None? {
      return None;
    }
    var sigs := s.value.fields["signatures"].fields;
    var domains := sigs["a"].fields;
    return Some(domains["a"].s);
  }

  // ---------------------------------------------------------------- many signers

  datatype Signer = Signer(domain: string, id: KeyId, key: Bytes)

  /** Signs one object in sequence under every signer of the list. */
  function SignedByAll(scheme: Scheme, obj: Fields, signers: seq<Signer>): Fields {
    if signers == [] then obj
    else
      var before := SignedByAll(scheme, obj, signers[..|signers| - 1]);
      var s := signers[|signers| - 1];
      Signed(scheme, before, s.domain, s.id, s.key)
  }

  function AddKey(ring: KeyRing, domain: string, id: KeyId, key: Bytes): KeyRing {
    ring[domain := (if domain in ring then ring[domain] else map[])[id := key]]
  }

  /** The public keys of every signer, added to a ring; the last key published under an id counts. */
  function RingOf(scheme: Scheme, ring: KeyRing, signers: seq<Signer>): KeyRing {
    if signers == [] then ring
    else
      var s := signers[|signers| - 1];
      AddKey(RingOf(scheme, ring, signers[..|signers| - 1]), s.domain, s.id, scheme.publicOf(s.key))
  }

  /** Signing touches neither the signed part nor `unsigned`, and no signature but its own. */
  lemma SignedKeepsTheRest(scheme: Scheme, obj: Fields, domain: string, id: KeyId, key: Bytes)
    requires Signable(obj, domain)
    ensures SignedPart(Signed(scheme, obj, domain, id, key)) == SignedPart(obj)
    ensures Signed(scheme, obj, domain, id, key) - {"signatures"} == obj - {"signatures"}
    ensures forall d, k | d in SignatureFields(obj) && SignatureFields(obj)[d].Obj?
              && k in SignatureFields(obj)[d].fields && (d, k) != (domain, id) ::
              var after := SignatureFields(Signed(scheme, obj, domain, id, key));
              d in after && after[d].Obj? && k in after[d].fields
                  && after[d].fields[k] == SignatureFields(obj)[d].fields[k]
    ensures forall d | Signable(obj, d) :: Signable(Signed(scheme, obj, domain, id, key), d)
  {
    var after := Signed(scheme, obj, domain, id, key);
    assert SignedPart(after) == SignedPart(obj);
    assert after - {"signatures"} == obj - {"signatures"};
  }

  /** One more signer: an object all of whose signatures verify still verifies. */
  lemma SignedVerifies(scheme: Scheme, obj: Fields, ring: KeyRing, domain: string, id: KeyId, key: Bytes)
    requires scheme.Sound()
    requires Signable(obj, domain)
    requires AllVerify(scheme, ring, SignedPart(obj), SignatureFields(obj))
    ensures Verifies(scheme, Signed(scheme, obj, domain, id, key), AddKey(ring, domain, id, scheme.publicOf(key)))
  {
    var after := Signed(scheme, obj, domain, id, key);
    var body := SignedPart(obj);
    SignedKeepsTheRest(scheme, obj, domain, id, key);
    var ring' := AddKey(ring, domain, id, scheme.publicOf(key));
    var sigs := SignatureFields(obj);
    var sigs' := SignatureFields(after);
    assert domain in sigs';
    assert ValidSignature(scheme, scheme.publicOf(key), body, Str(SignatureOf(scheme, body, key)));
    forall d | d in sigs'
      ensures d in ring' && DomainVerifies(scheme, ring'[d], body, sigs'[d])
    {
      if d != domain {
        assert d in sigs && sigs'[d] == sigs[d];
      }
    }
  }

  /**
    Multi-signer round trip: whatever valid signatures an object already carries, signing it in
    sequence under any list of signers gives an object that verifies under all the public keys, with
    the signed part and `unsigned` untouched.
   */
  lemma {:induction false} MultiSignerRoundTrip(scheme: Scheme, obj: Fields, ring: KeyRing, signers: seq<Signer>)
    requires scheme.Sound()
    requires forall i | 0 <= i < |signers| :: Signable(obj, signers[i].domain)
    requires AllVerify(scheme, ring, SignedPart(obj), SignatureFields(obj))
    ensures SignedPart(SignedByAll(scheme, obj, signers)) == SignedPart(obj)
    ensures SignedByAll(scheme, obj, signers) - {"signatures"} == obj - {"signatures"}
    ensures AllVerify(scheme, RingOf(scheme, ring, signers), SignedPart(obj),
              SignatureFields(SignedByAll(scheme, obj, signers)))
    ensures signers != [] ==> Verifies(scheme, SignedByAll(scheme, obj, signers), RingOf(scheme, ring, signers))
    ensures forall d | Signable(obj, d) :: Signable(SignedByAll(scheme, obj, signers), d)
  {
    if signers == [] {
    } else {
      var most := signers[..|signers| - 1];
      var s := signers[|signers| - 1];
      MultiSignerRoundTrip(scheme, obj, ring, most);
      var before := SignedByAll(scheme, obj, most);
      SignedKeepsTheRest(scheme, before, s.domain, s.id, s.key);
      SignedVerifies(scheme, before, RingOf(scheme, ring, most), s.domain, s.id, s.key);
    }
  }

  /** The object carries this signer's signature over `body`, and the ring its public key. */
  predicate Carries(scheme: Scheme, obj: Fields, ring: KeyRing, body: Fields, s: Signer) {
    var sigs := SignatureFields(obj);
    && s.domain in sigs && sigs[s.domain].Obj? && s.id in sigs[s.domain].fields
    && sigs[s.domain].fields[s.id] == Str(SignatureOf(scheme, body, s.key))
    && s.domain in ring && s.id in ring[s.domain]
    && ring[s.domain][s.id] == scheme.publicOf(s.key)
  }

  lemma {:induction false} SigningKeepsTheSignedPart(scheme: Scheme, obj: Fields, signers: seq<Signer>)
    requires forall j | 0 <= j < |signers| :: Signable(obj, signers[j].domain)
    ensures SignedPart(SignedByAll(scheme, obj, signers)) == SignedPart(obj)
    ensures forall d | Signable(obj, d) :: Signable(SignedByAll(scheme, obj, signers), d)
  {
    if signers == [] {
    } else {
      var most, s := signers[..|signers| - 1], signers[|signers| - 1];
      SigningKeepsTheSignedPart(scheme, obj, most);
      SignedKeepsTheRest(scheme, SignedByAll(scheme, obj, most), s.domain, s.id, s.key);
    }
  }

  /** With distinct (domain, key id) pairs every signer's own signature and public key are both there. */
  lemma {:induction false} EverySignerIsPresent(scheme: Scheme, obj: Fields, ring: KeyRing, signers: seq<Signer>,
                                        i: nat)
    requires i < |signers|
    requires forall j, k | 0 <= j < k < |signers| ::
              (signers[j].domain, signers[j].id) != (signers[k].domain, signers[k].id)
    requires forall j | 0 <= j < |signers| :: Signable(obj, signers[j].domain)
    ensures Carries(scheme, SignedByAll(scheme, obj, signers), RingOf(scheme, ring, signers), SignedPart(obj),
              signers[i])
  {
    var most := signers[..|signers| - 1];
    var last := signers[|signers| - 1];
    SigningKeepsTheSignedPart(scheme, obj, most);
    if i < |signers| - 1 {
      EverySignerIsPresent(scheme, obj, ring, most, i);
      assert most[i] == signers[i];
      KeepsCarrying(scheme, SignedByAll(scheme, obj, most), RingOf(scheme, ring, most), SignedPart(obj), signers[i],
          last);
    }
  }

  lemma KeepsCarrying(scheme: Scheme, obj: Fields, ring: KeyRing, body: Fields, s: Signer, last: Signer)
    requires Carries(scheme, obj, ring, body, s)
    requires (s.domain, s.id) != (last.domain, last.id)
    ensures Carries(scheme, Signed(scheme, obj, last.domain, last.id, last.key),
                    AddKey(ring, last.domain, last.id, scheme.publicOf(last.key)), body, s)
  {
  }

  // ---------------------------------------------------------------- the laws can be met

  function EncodeByChar(b: Bytes): string {
    seq(|b|, i requires 0 <= i < |b| => (b[i] as int) as char)
  }

  function DecodeByChar(s: string): Option<Bytes> {
    Some(seq(|s|, i requires 0 <= i < |s| => if (s[i] as int) < 256 then (s[i] as int) as byte else 0))
  }

  lemma DecodeUndoesEncode(b: Bytes)
    ensures DecodeByChar(EncodeByChar(b)) == Some(b)
  {
    assert DecodeByChar(EncodeByChar(b)).value == b;
  }

  /** The laws assumed of a scheme are satisfiable, so theorems about sound schemes are not vacuous. */
  lemma SoundSchemeExists()
    ensures exists scheme: Scheme :: scheme.Sound()
  {
    var scheme := Scheme(
      (key: Bytes, message: Bytes) => message,
      (key: Bytes, message: Bytes, signature: Bytes) => signature == message,
      (key: Bytes) => key,
      (f: Fields) => [],
      (b: Bytes) => b,
      (b: Bytes) => EncodeByChar(b),
      (s: string) => DecodeByChar(s));
    forall b: Bytes ensures scheme.decode(scheme.encode(b)) == Some(b) {
      DecodeUndoesEncode(b);
    }
    assert scheme.Sound();
  }
}
