/** The bytes that each of the nineteen signed envelopes is signed over: a
    domain tag and the envelope's fields. */
module WireEnvelopes {
  import opened Bytes
  import opened WireFields
  import opened KeySort

  datatype Kind =
    | HomeHubsK | SubkeyK | RevocationK | PrefsK | OfferK | ClaimK | DhKeyK | DmV1K | DmV2K | GroupDmK
    | ChallengeK | WebhookK | VoiceGrantK | FederatedK | MembersK | KeyDistK | RecoveryK | AttestationK | ProfileK

  datatype Envelope =
    | HomeHubList(master: Str, hubs: seq<Str>, issuedAt: u64, sequence: u64)
    | SubkeyCert(master: Str, subkey: Str, deviceLabel: Str, issuedAt: u64, notAfter: Option<u64>, fallbackHubs: seq<Str>)
    | Revocation(master: Str, subkey: Str, revokedAt: u64)
    | PrefsBlob(master: Str, version: u64, digest: seq<byte>)
    | PairingOffer(master: Str, hubs: seq<Str>, token: Str, issuedAt: u64, expiresAt: u64)
    | PairingClaim(token: Str, subkey: Str, deviceLabel: Str)
    | DhKey(pubkey: Str, dhPubkey: Str)
    | DmV1(conv: Str, ciphertext: Str, nonce: Str, dhPubkey: Str)
    | DmV2(conv: Str, index: u32, prevCount: u32, ciphertext: Str, dhPubkey: Str)
    | GroupDm(conv: Str, keyVersion: u32, iteration: u32, ciphertext: Str, nonce: Str)
    | AuthChallenge(challenge: seq<byte>)
    | WebhookDelivery(timestamp: u64, body: seq<byte>)
    | VoiceGrant(payload: seq<byte>)
    | FederatedDm(conv: Str, convType: Str, content: Str)
    | MemberChange(conv: Str, actor: Str, added: seq<Str>, removed: seq<Str>, issuedAt: u64)
    | SenderKeyDist(conv: Str, keyVersion: u32, recipients: seq<Pair>)
    | RecoveryRequest(hub: Str, oldKey: Str, newKey: Str)
    | RecoveryAttestation(hub: Str, oldKey: Str, newKey: Str, nonce: Str)
    | PublicHubProfile(pubkey: Str, entries: seq<Entry>, issuedAt: u64)

  const AUTH_CHALLENGE_LEN: nat := 32

  function KindOf(e: Envelope): Kind {
    match e
    case HomeHubList(_, _, _, _) => HomeHubsK
    case SubkeyCert(_, _, _, _, _, _) => SubkeyK
    case Revocation(_, _, _) => RevocationK
    case PrefsBlob(_, _, _) => PrefsK
    case PairingOffer(_, _, _, _, _) => OfferK
    case PairingClaim(_, _, _) => ClaimK
    case DhKey(_, _) => DhKeyK
    case DmV1(_, _, _, _) => DmV1K
    case DmV2(_, _, _, _, _) => DmV2K
    case GroupDm(_, _, _, _, _) => GroupDmK
    case AuthChallenge(_) => ChallengeK
    case WebhookDelivery(_, _) => WebhookK
    case VoiceGrant(_) => VoiceGrantK
    case FederatedDm(_, _, _) => FederatedK
    case MemberChange(_, _, _, _, _) => MembersK
    case SenderKeyDist(_, _, _) => KeyDistK
    case RecoveryRequest(_, _, _) => RecoveryK
    case RecoveryAttestation(_, _, _, _) => AttestationK
    case PublicHubProfile(_, _, _) => ProfileK
  }

  function TagName(k: Kind): string {
    match k
    case HomeHubsK => "wavvon/home-hub-list/v1\0"
    case SubkeyK => "wavvon/subkey-cert/v1\0"
    case RevocationK => "wavvon/revocation/v1\0"
    case PrefsK => "wavvon/prefs-blob/v1\0"
    case OfferK => "wavvon/pairing-offer/v1\0"
    case ClaimK => "wavvon/pairing-claim/v1\0"
    case DhKeyK => "wavvon/dh-key/v1\0"
    case DmV1K => "wavvon/dm-ciphertext/v1\0"
    case DmV2K => "wavvon/dm-ciphertext/v2\0"
    case GroupDmK => "wavvon/group-dm-ciphertext/v1\0"
    case ChallengeK => "wavvon/auth-challenge/v1\0"
    case WebhookK => "wavvon/webhook-delivery/v1\0"
    case VoiceGrantK => "wavvon/alliance-voice-grant/v1\0"
    case FederatedK => "wavvon/federated-dm/v1\0"
    case MembersK => "wavvon/dm-member-change/v1\0"
    case KeyDistK => "wavvon/group-key-dist/v1\0"
    case RecoveryK => "wavvon/recovery-request/v1\0"
    case AttestationK => "wavvon/recovery-attestation/v1\0"
    case ProfileK => "wavvon/public-hub-profile/v1\0"
  }

  function Ascii(s: string): (bs: seq<byte>)
    ensures |bs| == |s|
  {
    seq(|s|, i requires 0 <= i < |s| => s[i] as int % 256)
  }

  function Tag(k: Kind): seq<byte> {
    Ascii(TagName(k))
  }

  /** The fields in the order they are signed. */
  function FieldsOf(e: Envelope): seq<Field> {
    match e
    case HomeHubList(m, hubs, at, n) => [Text(m), Texts(hubs), Num64(at), Num64(n)]
    case SubkeyCert(m, s, l, at, until, hubs) => [Text(m), Text(s), Text(l), Num64(at), OptNum64(until), Texts(hubs)]
    case Revocation(m, s, at) => [Text(m), Text(s), Num64(at)]
    case PrefsBlob(m, v, d) => [Text(m), Num64(v), Digest(d)]
    case PairingOffer(m, hubs, t, at, until) => [Text(m), Texts(hubs), Text(t), Num64(at), Num64(until)]
    case PairingClaim(t, s, l) => [Text(t), Text(s), Text(l)]
    case DhKey(p, d) => [Text(p), Text(d)]
    case DmV1(c, x, n, d) => [Text(c), Text(x), Text(n), Text(d)]
    case DmV2(c, i, p, x, d) => [Text(c), Num32(i), Num32(p), Text(x), Text(d)]
    case GroupDm(c, v, i, x, n) => [Text(c), Decimal(v), Decimal(i), Text(x), Text(n)]
    case AuthChallenge(c) => [Raw(c)]
    case WebhookDelivery(t, b) => [Num64(t), Raw(b)]
    case VoiceGrant(p) => [Raw(p)]
    case FederatedDm(c, t, x) => [Text(c), Text(t), Text(x)]
    case MemberChange(c, a, added, removed, at) => [Text(c), Text(a), Texts(added), Texts(removed), Num64(at)]
    case SenderKeyDist(c, v, ps) => [Text(c), Decimal(v), Pairs(SortByKey(ps))]
    case RecoveryRequest(h, o, n) => [Text(h), Text(o), Text(n)]
    case RecoveryAttestation(h, o, n, x) => [Text(h), Text(o), Text(n), Text(x)]
    case PublicHubProfile(p, es, at) => [Text(p), Num64(at), Entries(es)]
  }

  function Schema(k: Kind): seq<Shape> {
    match k
    case HomeHubsK => [TextS, TextsS, Num64S, Num64S]
    case SubkeyK => [TextS, TextS, TextS, Num64S, OptNum64S, TextsS]
    case RevocationK => [TextS, TextS, Num64S]
    case PrefsK => [TextS, Num64S, DigestS]
    case OfferK => [TextS, TextsS, TextS, Num64S, Num64S]
    case ClaimK => [TextS, TextS, TextS]
    case DhKeyK => [TextS, TextS]
    case DmV1K => [TextS, TextS, TextS, TextS]
    case DmV2K => [TextS, Num32S, Num32S, TextS, TextS]
    case GroupDmK => [TextS, DecimalS, DecimalS, TextS, TextS]
    case ChallengeK => [RawS]
    case WebhookK => [Num64S, RawS]
    case VoiceGrantK => [RawS]
    case FederatedK => [TextS, TextS, TextS]
    case MembersK => [TextS, TextS, TextsS, TextsS, Num64S]
    case KeyDistK => [TextS, DecimalS, PairsS]
    case RecoveryK => [TextS, TextS, TextS]
    case AttestationK => [TextS, TextS, TextS, TextS]
    case ProfileK => [TextS, Num64S, EntriesS]
  }

  function SigningBytes(e: Envelope): seq<byte> {
    Tag(KindOf(e)) + PutFields(FieldsOf(e))
  }

  /** Lengths fit the 32 bits they are written in, and a digest is a digest. */
  predicate Signable(e: Envelope) {
    match e
    case SenderKeyDist(c, v, ps) => Short(c) && forall i :: 0 <= i < |ps| ==> Short(ps[i].key) && Short(ps[i].value)
    case _ => forall i :: 0 <= i < |FieldsOf(e)| ==> Fits(FieldsOf(e)[i])
  }

  /** What the bytes tell of an envelope: all of it, the recipients sorted. */
  function Normal(e: Envelope): Envelope {
    if e.SenderKeyDist? then e.(recipients := SortByKey(e.recipients)) else e
  }

  // ---- Reading an envelope back --------------------------------------------------------

  /** The one kind whose tag has these characters at positions 7, 8, 9, 10, 13,
      15, 16 and 22. */
  function Pick(c7: int, c8: int, c9: int, c10: int, c13: int, c15: int, c16: int, c22: int): Kind {
    if c7 == 'h' as int then HomeHubsK
    else if c7 == 's' as int then SubkeyK
    else if c7 == 'w' as int then WebhookK
    else if c7 == 'f' as int then FederatedK
    else if c7 == 'a' as int then if c8 == 'u' as int then ChallengeK else VoiceGrantK
    else if c7 == 'r' as int then
      if c9 == 'v' as int then RevocationK else if c16 == 'r' as int then RecoveryK else AttestationK
    else if c7 == 'p' as int then
      if c8 == 'r' as int then PrefsK
      else if c8 == 'u' as int then ProfileK
      else if c15 == 'o' as int then OfferK
      else ClaimK
    else if c7 == 'd' as int then
      if c8 == 'h' as int then DhKeyK
      else if c10 == 'm' as int then MembersK
      else if c22 == '1' as int then DmV1K
      else DmV2K
    else if c13 == 'd' as int then GroupDmK
    else KeyDistK
  }

  /** The only kind a message can be, told from a few bytes of its tag. */
  function Candidate(bs: seq<byte>): Kind
    requires |bs| >= 17
  {
    Pick(bs[7], bs[8], bs[9], bs[10], bs[13], bs[15], bs[16], if |bs| > 22 then bs[22] else 0)
  }

  function Rebuild(k: Kind, fs: seq<Field>): Envelope
    requires |fs| == |Schema(k)| && ShapesOf(fs) == Schema(k)
  {
    assert forall i :: 0 <= i < |fs| ==> ShapeOf(fs[i]) == ShapesOf(fs)[i];
    match k
    case HomeHubsK => HomeHubList(fs[0].s, fs[1].v, fs[2].d, fs[3].d)
    case SubkeyK => SubkeyCert(fs[0].s, fs[1].s, fs[2].s, fs[3].d, fs[4].o, fs[5].v)
    case RevocationK => Revocation(fs[0].s, fs[1].s, fs[2].d)
    case PrefsK => PrefsBlob(fs[0].s, fs[1].d, fs[2].digest)
    case OfferK => PairingOffer(fs[0].s, fs[1].v, fs[2].s, fs[3].d, fs[4].d)
    case ClaimK => PairingClaim(fs[0].s, fs[1].s, fs[2].s)
    case DhKeyK => DhKey(fs[0].s, fs[1].s)
    case DmV1K => DmV1(fs[0].s, fs[1].s, fs[2].s, fs[3].s)
    case DmV2K => DmV2(fs[0].s, fs[1].w, fs[2].w, fs[3].s, fs[4].s)
    case GroupDmK => GroupDm(fs[0].s, fs[1].n, fs[2].n, fs[3].s, fs[4].s)
    case ChallengeK => AuthChallenge(fs[0].raw)
    case WebhookK => WebhookDelivery(fs[0].d, fs[1].raw)
    case VoiceGrantK => VoiceGrant(fs[0].raw)
    case FederatedK => FederatedDm(fs[0].s, fs[1].s, fs[2].s)
    case MembersK => MemberChange(fs[0].s, fs[1].s, fs[2].v, fs[3].v, fs[4].d)
    case KeyDistK => SenderKeyDist(fs[0].s, fs[1].n, fs[2].ps)
    case RecoveryK => RecoveryRequest(fs[0].s, fs[1].s, fs[2].s)
    case AttestationK => RecoveryAttestation(fs[0].s, fs[1].s, fs[2].s, fs[3].s)
    case ProfileK => PublicHubProfile(fs[0].s, fs[2].es, fs[1].d)
  }

  function Decode(bs: seq<byte>): Option<Envelope> {
    if |bs| < 17 then None
    else
      var k := Candidate(bs);
      var t := Tag(k);
      if !(t <= bs) then None
      else
        match GetFields(Schema(k), bs[|t|..])
        case None => None
        case Some(fs) =>
          if |fs| == |Schema(k)| && ShapesOf(fs) == Schema(k) then Some(Rebuild(k, fs)) else None
  }

  function CharAt(k: Kind, i: nat): int {
    if i < |TagName(k)| then TagName(k)[i] as int % 256 else 0
  }

  /** Only the two direct-message tags are told apart by position 22, which not
      every tag reaches. */
  predicate Told(k: Kind, c22: int) {
    && |TagName(k)| >= 17
    && (k.DmV1K? || k.DmV2K? ==> |TagName(k)| > 22)
    && Pick(CharAt(k, 7), CharAt(k, 8), CharAt(k, 9), CharAt(k, 10), CharAt(k, 13), CharAt(k, 15), CharAt(k, 16), c22) == k
  }

  lemma SingleNamesTold(k: Kind, c22: int)
    requires k.HomeHubsK? || k.SubkeyK? || k.WebhookK? || k.FederatedK?
    ensures Told(k, c22)
  {
  }

  lemma ANamesTold(k: Kind, c22: int)
    requires k.ChallengeK? || k.VoiceGrantK?
    ensures Told(k, c22)
  {
  }

  lemma RNamesTold(k: Kind, c22: int)
    requires k.RevocationK? || k.RecoveryK? || k.AttestationK?
    ensures Told(k, c22)
  {
  }

  lemma PNamesTold(k: Kind, c22: int)
    requires k.PrefsK? || k.ProfileK?
    ensures Told(k, c22)
  {
  }

  lemma PairingNamesTold(k: Kind, c22: int)
    requires k.OfferK? || k.ClaimK?
    ensures Told(k, c22)
  {
  }

  lemma DNamesTold(k: Kind, c22: int)
    requires k.DhKeyK? || k.MembersK?
    ensures Told(k, c22)
  {
  }

  lemma DmNamesTold(k: Kind, c22: int)
    requires k.DmV1K? || k.DmV2K?
    requires c22 == CharAt(k, 22)
    ensures Told(k, c22)
  {
  }

  lemma GroupNamesTold(k: Kind, c22: int)
    requires k.GroupDmK? || k.KeyDistK?
    ensures Told(k, c22)
  {
  }

  lemma NamesTold(k: Kind, c22: int)
    requires k.DmV1K? || k.DmV2K? ==> c22 == CharAt(k, 22)
    ensures Told(k, c22)
  {
    hide TagName, Told, Pick;
    match k
    case HomeHubsK | SubkeyK | WebhookK | FederatedK => SingleNamesTold(k, c22);
    case ChallengeK | VoiceGrantK => ANamesTold(k, c22);
    case RevocationK | RecoveryK | AttestationK => RNamesTold(k, c22);
    case PrefsK | ProfileK => PNamesTold(k, c22);
    case OfferK | ClaimK => PairingNamesTold(k, c22);
    case DhKeyK | MembersK => DNamesTold(k, c22);
    case DmV1K | DmV2K => DmNamesTold(k, c22);
    case GroupDmK | KeyDistK => GroupNamesTold(k, c22);
  }

  lemma TagAt(k: Kind, rest: seq<byte>, i: nat)
    requires i < |TagName(k)|
    ensures |Tag(k)| == |TagName(k)| && (Tag(k) + rest)[i] == CharAt(k, i)
  {
    hide TagName;
  }

  lemma CandidateOfTag(k: Kind, rest: seq<byte>)
    ensures |Tag(k)| >= 17 && Candidate(Tag(k) + rest) == k
  {
    var bs := Tag(k) + rest;
    NamesTold(k, CharAt(k, 22));
    hide TagName, Pick, CharAt, Tag;
    TagAt(k, rest, 7);
    TagAt(k, rest, 8);
    TagAt(k, rest, 9);
    TagAt(k, rest, 10);
    TagAt(k, rest, 13);
    TagAt(k, rest, 15);
    TagAt(k, rest, 16);
    if k.DmV1K? || k.DmV2K? {
      TagAt(k, rest, 22);
    }
    NamesTold(k, if |bs| > 22 then bs[22] else 0);
  }

  lemma SchemaOfFields(e: Envelope)
    ensures ShapesOf(FieldsOf(e)) == Schema(KindOf(e))
  {
  }

  lemma RebuildOfFields(e: Envelope)
    requires ShapesOf(FieldsOf(e)) == Schema(KindOf(e))
    ensures Rebuild(KindOf(e), FieldsOf(e)) == Normal(e)
  {
  }

  lemma ReadableFields(e: Envelope)
    requires Signable(e)
    ensures Readable(FieldsOf(e))
  {
    if e.SenderKeyDist? {
      SortedFits(e.recipients);
    }
    hide Fits, SortByKey;
  }

  lemma SortedFits(ps: seq<Pair>)
    requires forall i :: 0 <= i < |ps| ==> Short(ps[i].key) && Short(ps[i].value)
    ensures Fits(Pairs(SortByKey(ps)))
  {
    var s := SortByKey(ps);
    forall i | 0 <= i < |s| ensures Short(s[i].key) && Short(s[i].value) {
      SortHasMembers(ps, s[i]);
    }
  }

  lemma SortHasMembers(ps: seq<Pair>, p: Pair)
    requires p in SortByKey(ps)
    ensures p in ps
  {
    SortSorts(ps);
    WithKeyMembers(SortByKey(ps), p.key, p);
    WithKeyMembers(ps, p.key, p);
  }

  /** Every envelope is recovered from the bytes it is signed over. */
  lemma DecodeOfSigningBytes(e: Envelope)
    requires Signable(e)
    ensures Decode(SigningBytes(e)) == Some(Normal(e))
  {
    var k, fs := KindOf(e), FieldsOf(e);
    var bs := SigningBytes(e);
    ReadableFields(e);
    SchemaOfFields(e);
    RebuildOfFields(e);
    hide FieldsOf, Schema, Rebuild, Tag, Candidate, PutFields, GetFields, Readable, Signable, Normal, KindOf, ShapesOf;
    CandidateOfTag(k, PutFields(fs));
    GetFieldsOfPut(fs);
    assert bs[|Tag(k)|..] == PutFields(fs);
  }

  /** Signatures never carry over: equal bytes mean the same kind of envelope
      with the same contents, but for the order of the recipients. */
  lemma SigningBytesInjective(a: Envelope, b: Envelope)
    requires Signable(a) && Signable(b)
    ensures SigningBytes(a) == SigningBytes(b) <==> Normal(a) == Normal(b)
    ensures KindOf(a) != KindOf(b) ==> SigningBytes(a) != SigningBytes(b)
  {
    DecodeOfSigningBytes(a);
    DecodeOfSigningBytes(b);
    NormalSigns(a);
    NormalSigns(b);
    assert KindOf(Normal(a)) == KindOf(a) && KindOf(Normal(b)) == KindOf(b);
    hide SigningBytes, Decode, Normal, KindOf;
  }

  lemma NormalSigns(e: Envelope)
    ensures SigningBytes(Normal(e)) == SigningBytes(e)
  {
    if e.SenderKeyDist? {
      var s := SortByKey(e.recipients);
      SortSorts(e.recipients);
      SortSorts(s);
      SortedIsDetermined(SortByKey(s), s);
    }
  }

  /** A sender-key distribution is signed alike for two submissions of its
      recipients exactly when each pubkey's keys come in the same order in
      both; with distinct pubkeys, whenever they are the same recipients. */
  lemma RecipientOrder(conv: Str, version: u32, a: seq<Pair>, b: seq<Pair>)
    requires Signable(SenderKeyDist(conv, version, a)) && Signable(SenderKeyDist(conv, version, b))
    ensures SigningBytes(SenderKeyDist(conv, version, a)) == SigningBytes(SenderKeyDist(conv, version, b))
            <==> AlikeByKey(a, b)
    ensures multiset(a) == multiset(b) && DistinctKeys(a) && DistinctKeys(b) ==> AlikeByKey(a, b)
  {
    SigningBytesInjective(SenderKeyDist(conv, version, a), SenderKeyDist(conv, version, b));
    SortsAlikeIff(a, b);
    if multiset(a) == multiset(b) && DistinctKeys(a) && DistinctKeys(b) {
      OrderDoesNotMatter(a, b);
    }
  }

  /** Every string of the field, and every counted list, has at most `limit`
      entries; a digest is 32 bytes long. */
  predicate FieldUpTo(f: Field, limit: nat) {
    match f
    case Text(s) => |s| <= limit
    case Texts(v) => |v| <= limit && forall i :: 0 <= i < |v| ==> |v[i]| <= limit
    case Digest(d) => |d| == 32
    case Entries(es) => |es| <= limit && forall i :: 0 <= i < |es| ==> |es[i].url| <= limit && |es[i].name| <= limit
    case Pairs(ps) => forall i :: 0 <= i < |ps| ==> |ps[i].key| <= limit && |ps[i].value| <= limit
    case _ => true
  }

  predicate UpTo(e: Envelope, limit: nat) {
    match e
    case SenderKeyDist(c, v, ps) => |c| <= limit && FieldUpTo(Pairs(ps), limit)
    case _ => forall i :: 0 <= i < |FieldsOf(e)| ==> FieldUpTo(FieldsOf(e)[i], limit)
  }

  lemma UpToIsSignable(e: Envelope, limit: nat)
    requires limit < TWO32 && UpTo(e, limit)
    ensures Signable(e)
  {
    forall f: Field | FieldUpTo(f, limit) ensures Fits(f) {
    }
    if e.SenderKeyDist? {
      assert Fits(Pairs(e.recipients));
    } else {
      hide Fits, FieldUpTo, FieldsOf;
    }
  }

  /** The bytes tell envelopes apart, but for the order of recipients, exactly
      when strings and lists are held below the 2^32 their lengths are written in. */
  lemma LengthLimitIff(limit: nat)
    ensures (forall a, b ::
               UpTo(a, limit) && UpTo(b, limit) && SigningBytes(a) == SigningBytes(b) ==> Normal(a) == Normal(b))
            <==> limit < TWO32
  {
    if limit < TWO32 {
      forall a, b | UpTo(a, limit) && UpTo(b, limit) && SigningBytes(a) == SigningBytes(b)
        ensures Normal(a) == Normal(b)
      {
        UpToIsSignable(a, limit);
        UpToIsSignable(b, limit);
        hide UpTo, Signable, SigningBytes, Normal;
        SigningBytesInjective(a, b);
      }
    } else {
      var z := seq(TWO32, i => 0);
      LongStringsCollide(z);
      assert UpTo(DhKey(z, []), limit) && UpTo(DhKey([], z), limit);
      hide UpTo, SigningBytes;
    }
  }

  /** A string of four gigabytes is written with length 0, and two different
      records are then signed over the same bytes. */
  lemma LongStringsCollide(z: Str)
    requires |z| == TWO32 && forall i :: 0 <= i < |z| ==> z[i] == 0
    ensures DhKey(z, []) != DhKey([], z)
    ensures SigningBytes(DhKey(z, [])) == SigningBytes(DhKey([], z))
  {
    var four := [0, 0, 0, 0];
    ZeroBytes();
    TwoTexts(z, []);
    TwoTexts([], z);
    hide Le32, Tag, PutFields, PutText;
    assert PutText(z) == four + z && PutText([]) == four + [] by { PutTextIs(z, four); PutTextIs([], four); }
    ZerosCommute(four, z);
  }

  lemma PutTextIs(s: Str, head: seq<byte>)
    requires Le32(|s|) == head
    ensures PutText(s) == head + s
  {
  }

  lemma TwoTexts(a: Str, b: Str)
    ensures PutFields(FieldsOf(DhKey(a, b))) == PutText(a) + PutText(b)
  {
    hide PutText;
    assert FieldsOf(DhKey(a, b)) == [] + [Text(a)] + [Text(b)];
    PutFieldsSnoc([], Text(a));
    PutFieldsSnoc([] + [Text(a)], Text(b));
    assert [] + PutText(a) == PutText(a);
  }

  lemma ZerosCommute(four: seq<byte>, z: seq<byte>)
    requires forall i :: 0 <= i < |z| ==> z[i] == 0
    requires forall i :: 0 <= i < |four| ==> four[i] == 0
    ensures (four + z) + (four + []) == (four + []) + (four + z)
  {
  }

  lemma ZeroBytes()
    ensures Le32(0) == [0, 0, 0, 0] && Le32(TWO32) == [0, 0, 0, 0]
  {
    assert LeBytes(0, 1) == [0] + LeBytes(0, 0);
    assert LeBytes(0, 2) == [0] + LeBytes(0, 1);
    assert LeBytes(0, 3) == [0] + LeBytes(0, 2);
    assert LeBytes(0, 4) == [0] + LeBytes(0, 3);
  }
}
