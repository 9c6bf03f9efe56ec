/** The encoders: each appends its fields to a growing buffer. */
module WireEncoders {
  import opened Bytes
  import opened WireFields
  import opened KeySort
  import opened WireEnvelopes

  /** The buffer a message is written into, and, for the proof, the fields
      written so far. */
  class Buf {
    var bytes: seq<byte>
    ghost const kind: Kind
    ghost var fields: seq<Field>

    ghost predicate Valid()
      reads this
    {
      bytes == Tag(kind) + PutFields(fields)
    }

    constructor (kind: Kind)
      ensures Valid() && this.kind == kind && fields == []
    {
      this.kind := kind;
      bytes := Tag(kind);
      fields := [];
      new;
      assert PutFields([]) == [];
    }

    /** `extend_from_slice`: the bytes of one field, whatever wrote them. */
    method Append(bs: seq<byte>, ghost f: Field)
      requires Valid() && bs == PutField(f)
      modifies this
      ensures Valid() && fields == old(fields) + [f]
    {
      hide PutField, PutFields, Tag;
      PutFieldsSnoc(fields, f);
      bytes := bytes + bs;
      fields := fields + [f];
    }

    method Extend(f: Field)
      requires Valid() && (f.Digest? || f.Raw?)
      modifies this
      ensures Valid() && fields == old(fields) + [f]
    {
      Append(if f.Digest? then f.digest else f.raw, f);
    }

    method WriteU32Le(v: u32)
      requires Valid()
      modifies this
      ensures Valid() && fields == old(fields) + [Num32(v)]
    {
      Append(Le32(v), Num32(v));
    }

    method WriteU64Le(v: u64)
      requires Valid()
      modifies this
      ensures Valid() && fields == old(fields) + [Num64(v)]
    {
      Append(Le64(v), Num64(v));
    }

    method WriteOptU64(o: Option<u64>)
      requires Valid()
      modifies this
      ensures Valid() && fields == old(fields) + [OptNum64(o)]
    {
      Append(match o case Some(t) => [1] + Le64(t) case None => [0], OptNum64(o));
    }

    method WriteStr(s: Str)
      requires Valid()
      modifies this
      ensures Valid() && fields == old(fields) + [Text(s)]
    {
      Append(Le32(|s|) + s, Text(s));
    }

    method WriteDecimal(n: u32)
      requires Valid()
      modifies this
      ensures Valid() && fields == old(fields) + [Decimal(n)]
    {
      var s := Digits(n);
      Append(Le32(|s|) + s, Decimal(n));
    }

    method WriteStrVec(v: seq<Str>)
      requires Valid()
      modifies this
      ensures Valid() && fields == old(fields) + [Texts(v)]
    {
      hide Le32, PutText, Tag;
      var bs := Le32(|v|);
      var i := 0;
      while i < |v|
        invariant i <= |v| && bs == Le32(|v|) + PutTexts(v[..i])
      {
        assert v[..i + 1][..i] == v[..i];
        bs := bs + PutText(v[i]);
        i := i + 1;
      }
      assert v[..i] == v;
      Append(bs, Texts(v));
    }

    method WritePairs(ps: seq<Pair>)
      requires Valid()
      modifies this
      ensures Valid() && fields == old(fields) + [Pairs(ps)]
    {
      hide PutText, Tag;
      var bs: seq<byte> := [];
      var i := 0;
      while i < |ps|
        invariant i <= |ps| && bs == PutPairs(ps[..i])
      {
        assert ps[..i + 1][..i] == ps[..i];
        bs := bs + (PutText(ps[i].key) + PutText(ps[i].value));
        i := i + 1;
      }
      assert ps[..i] == ps;
      Append(bs, Pairs(ps));
    }

    method WriteEntries(es: seq<Entry>)
      requires Valid()
      modifies this
      ensures Valid() && fields == old(fields) + [Entries(es)]
    {
      hide Le32, PutText, Tag;
      var bs := Le32(|es|);
      var i := 0;
      while i < |es|
        invariant i <= |es| && bs == Le32(|es|) + PutEntries(es[..i])
      {
        assert es[..i + 1][..i] == es[..i];
        bs := bs + (PutText(es[i].url) + PutText(es[i].name) + Le64(es[i].joinedAt));
        i := i + 1;
      }
      assert es[..i] == es;
      Append(bs, Entries(es));
    }
  }

  /** Refuses a challenge of any other length. */
  method AuthChallengeBytes(challenge: seq<byte>) returns (r: Option<seq<byte>>)
    ensures r == if |challenge| == AUTH_CHALLENGE_LEN then Some(SigningBytes(AuthChallenge(challenge))) else None
  {
    hide PutFields, Tag;
    if |challenge| != AUTH_CHALLENGE_LEN {
      return None;
    }
    var buf := new Buf(ChallengeK);
    buf.Extend(Raw(challenge));
    assert buf.fields == FieldsOf(AuthChallenge(challenge));
    return Some(buf.bytes);
  }

  method HomeHubListBytes(master: Str, hubs: seq<Str>, issuedAt: u64, sequence: u64) returns (bs: seq<byte>)
    ensures bs == SigningBytes(HomeHubList(master, hubs, issuedAt, sequence))
  {
    hide PutFields, Tag;
    var buf := new Buf(HomeHubsK);
    buf.WriteStr(master);
    buf.WriteStrVec(hubs);
    buf.WriteU64Le(issuedAt);
    buf.WriteU64Le(sequence);
    assert buf.fields == FieldsOf(HomeHubList(master, hubs, issuedAt, sequence));
    return buf.bytes;
  }

  method SubkeyCertBytes(master: Str, subkey: Str, deviceLabel: Str, issuedAt: u64, notAfter: Option<u64>, fallbackHubs: seq<Str>) returns (bs: seq<byte>)
    ensures bs == SigningBytes(SubkeyCert(master, subkey, deviceLabel, issuedAt, notAfter, fallbackHubs))
  {
    hide PutFields, Tag;
    var buf := new Buf(SubkeyK);
    buf.WriteStr(master);
    buf.WriteStr(subkey);
    buf.WriteStr(deviceLabel);
    buf.WriteU64Le(issuedAt);
    buf.WriteOptU64(notAfter);
    buf.WriteStrVec(fallbackHubs);
    assert buf.fields == FieldsOf(SubkeyCert(master, subkey, deviceLabel, issuedAt, notAfter, fallbackHubs));
    return buf.bytes;
  }

  method RevocationBytes(master: Str, subkey: Str, revokedAt: u64) returns (bs: seq<byte>)
    ensures bs == SigningBytes(Revocation(master, subkey, revokedAt))
  {
    hide PutFields, Tag;
    var buf := new Buf(RevocationK);
    buf.WriteStr(master);
    buf.WriteStr(subkey);
    buf.WriteU64Le(revokedAt);
    assert buf.fields == FieldsOf(Revocation(master, subkey, revokedAt));
    return buf.bytes;
  }

  method PrefsBlobBytes(master: Str, version: u64, ciphertext: seq<byte>, sha256: seq<byte> -> seq<byte>) returns (bs: seq<byte>)
    ensures bs == SigningBytes(PrefsBlob(master, version, sha256(ciphertext)))
  {
    hide PutFields, Tag;
    var buf := new Buf(PrefsK);
    buf.WriteStr(master);
    buf.WriteU64Le(version);
    buf.Extend(Digest(sha256(ciphertext)));
    assert buf.fields == FieldsOf(PrefsBlob(master, version, sha256(ciphertext)));
    return buf.bytes;
  }

  method PairingOfferBytes(master: Str, hubs: seq<Str>, token: Str, issuedAt: u64, expiresAt: u64) returns (bs: seq<byte>)
    ensures bs == SigningBytes(PairingOffer(master, hubs, token, issuedAt, expiresAt))
  {
    hide PutFields, Tag;
    var buf := new Buf(OfferK);
    buf.WriteStr(master);
    buf.WriteStrVec(hubs);
    buf.WriteStr(token);
    buf.WriteU64Le(issuedAt);
    buf.WriteU64Le(expiresAt);
    assert buf.fields == FieldsOf(PairingOffer(master, hubs, token, issuedAt, expiresAt));
    return buf.bytes;
  }

  method PairingClaimBytes(token: Str, subkey: Str, deviceLabel: Str) returns (bs: seq<byte>)
    ensures bs == SigningBytes(PairingClaim(token, subkey, deviceLabel))
  {
    hide PutFields, Tag;
    var buf := new Buf(ClaimK);
    buf.WriteStr(token);
    buf.WriteStr(subkey);
    buf.WriteStr(deviceLabel);
    assert buf.fields == FieldsOf(PairingClaim(token, subkey, deviceLabel));
    return buf.bytes;
  }

  method DhKeyBytes(pubkey: Str, dhPubkey: Str) returns (bs: seq<byte>)
    ensures bs == SigningBytes(DhKey(pubkey, dhPubkey))
  {
    hide PutFields, Tag;
    var buf := new Buf(DhKeyK);
    buf.WriteStr(pubkey);
    buf.WriteStr(dhPubkey);
    assert buf.fields == FieldsOf(DhKey(pubkey, dhPubkey));
    return buf.bytes;
  }

  method DmV1Bytes(conv: Str, ciphertext: Str, nonce: Str, dhPubkey: Str) returns (bs: seq<byte>)
    ensures bs == SigningBytes(DmV1(conv, ciphertext, nonce, dhPubkey))
  {
    hide PutFields, Tag;
    var buf := new Buf(DmV1K);
    buf.WriteStr(conv);
    buf.WriteStr(ciphertext);
    buf.WriteStr(nonce);
    buf.WriteStr(dhPubkey);
    assert buf.fields == FieldsOf(DmV1(conv, ciphertext, nonce, dhPubkey));
    return buf.bytes;
  }

  method DmV2Bytes(conv: Str, index: u32, prevCount: u32, ciphertext: Str, dhPubkey: Str) returns (bs: seq<byte>)
    ensures bs == SigningBytes(DmV2(conv, index, prevCount, ciphertext, dhPubkey))
  {
    hide PutFields, Tag;
    var buf := new Buf(DmV2K);
    buf.WriteStr(conv);
    buf.WriteU32Le(index);
    buf.WriteU32Le(prevCount);
    buf.WriteStr(ciphertext);
    buf.WriteStr(dhPubkey);
    assert buf.fields == FieldsOf(DmV2(conv, index, prevCount, ciphertext, dhPubkey));
    return buf.bytes;
  }

  method GroupDmBytes(conv: Str, keyVersion: u32, iteration: u32, ciphertext: Str, nonce: Str) returns (bs: seq<byte>)
    ensures bs == SigningBytes(GroupDm(conv, keyVersion, iteration, ciphertext, nonce))
  {
    hide PutFields, Tag;
    var buf := new Buf(GroupDmK);
    buf.WriteStr(conv);
    buf.WriteDecimal(keyVersion);
    buf.WriteDecimal(iteration);
    buf.WriteStr(ciphertext);
    buf.WriteStr(nonce);
    assert buf.fields == FieldsOf(GroupDm(conv, keyVersion, iteration, ciphertext, nonce));
    return buf.bytes;
  }

  method WebhookDeliveryBytes(timestamp: u64, body: seq<byte>) returns (bs: seq<byte>)
    ensures bs == SigningBytes(WebhookDelivery(timestamp, body))
  {
    hide PutFields, Tag;
    var buf := new Buf(WebhookK);
    buf.WriteU64Le(timestamp);
    buf.Extend(Raw(body));
    assert buf.fields == FieldsOf(WebhookDelivery(timestamp, body));
    return buf.bytes;
  }

  method VoiceGrantBytes(payload: seq<byte>) returns (bs: seq<byte>)
    ensures bs == SigningBytes(VoiceGrant(payload))
  {
    hide PutFields, Tag;
    var buf := new Buf(VoiceGrantK);
    buf.Extend(Raw(payload));
    assert buf.fields == FieldsOf(VoiceGrant(payload));
    return buf.bytes;
  }

  method FederatedDmBytes(conv: Str, convType: Str, content: Str) returns (bs: seq<byte>)
    ensures bs == SigningBytes(FederatedDm(conv, convType, content))
  {
    hide PutFields, Tag;
    var buf := new Buf(FederatedK);
    buf.WriteStr(conv);
    buf.WriteStr(convType);
    buf.WriteStr(content);
    assert buf.fields == FieldsOf(FederatedDm(conv, convType, content));
    return buf.bytes;
  }

  method MemberChangeBytes(conv: Str, actor: Str, added: seq<Str>, removed: seq<Str>, issuedAt: u64) returns (bs: seq<byte>)
    ensures bs == SigningBytes(MemberChange(conv, actor, added, removed, issuedAt))
  {
    hide PutFields, Tag;
    var buf := new Buf(MembersK);
    buf.WriteStr(conv);
    buf.WriteStr(actor);
    buf.WriteStrVec(added);
    buf.WriteStrVec(removed);
    buf.WriteU64Le(issuedAt);
    assert buf.fields == FieldsOf(MemberChange(conv, actor, added, removed, issuedAt));
    return buf.bytes;
  }

  method SenderKeyDistBytes(conv: Str, keyVersion: u32, recipients: seq<Pair>) returns (bs: seq<byte>)
    ensures bs == SigningBytes(SenderKeyDist(conv, keyVersion, recipients))
  {
    hide PutFields, Tag;
    var buf := new Buf(KeyDistK);
    buf.WriteStr(conv);
    buf.WriteDecimal(keyVersion);
    buf.WritePairs(SortByKey(recipients));
    assert buf.fields == FieldsOf(SenderKeyDist(conv, keyVersion, recipients));
    return buf.bytes;
  }

  method RecoveryRequestBytes(hub: Str, oldKey: Str, newKey: Str) returns (bs: seq<byte>)
    ensures bs == SigningBytes(RecoveryRequest(hub, oldKey, newKey))
  {
    hide PutFields, Tag;
    var buf := new Buf(RecoveryK);
    buf.WriteStr(hub);
    buf.WriteStr(oldKey);
    buf.WriteStr(newKey);
    assert buf.fields == FieldsOf(RecoveryRequest(hub, oldKey, newKey));
    return buf.bytes;
  }

  method RecoveryAttestationBytes(hub: Str, oldKey: Str, newKey: Str, nonce: Str) returns (bs: seq<byte>)
    ensures bs == SigningBytes(RecoveryAttestation(hub, oldKey, newKey, nonce))
  {
    hide PutFields, Tag;
    var buf := new Buf(AttestationK);
    buf.WriteStr(hub);
    buf.WriteStr(oldKey);
    buf.WriteStr(newKey);
    buf.WriteStr(nonce);
    assert buf.fields == FieldsOf(RecoveryAttestation(hub, oldKey, newKey, nonce));
    return buf.bytes;
  }

  method PublicHubProfileBytes(pubkey: Str, entries: seq<Entry>, issuedAt: u64) returns (bs: seq<byte>)
    ensures bs == SigningBytes(PublicHubProfile(pubkey, entries, issuedAt))
  {
    hide PutFields, Tag;
    var buf := new Buf(ProfileK);
    buf.WriteStr(pubkey);
    buf.WriteU64Le(issuedAt);
    buf.WriteEntries(entries);
    assert buf.fields == FieldsOf(PublicHubProfile(pubkey, entries, issuedAt));
    return buf.bytes;
  }
}
