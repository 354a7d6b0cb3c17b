/**
  The payloads that are signed: social events (EventPayloadBytes and VerifyEvent in
  indexer/social.go) and content attestations (AttestationPayload in safety/attest.go). Each has a
  parser that recovers every field, so equal bytes mean equal contents.
 */
module Payloads {
  import opened Prelude
  import opened Canonical
  import opened Signing

  /// Social events

  datatype Media = Media(cid: Bytes, mime: Bytes, size: u64, kind: Bytes, width: u32, height: u32, durationMs: u32,
                         thumbnailCid: Bytes, contentHash: Bytes)

  datatype SocialMessage = SocialMessage(networkId: Bytes, version: u32, id: Bytes, typ: Bytes, author: Bytes,
                                         devicePubkey: Bytes, timestamp: u64, sequence: u64, previousEvent: Bytes,
                                         payload: Bytes, media: seq<Media>, signature: Bytes)

  function MediaFields(m: Media): (fs: seq<Field>)
    ensures |fs| == 9
  {
    [Blob(m.cid), Blob(m.mime), Word64(m.size), Blob(m.kind), Word32(m.width), Word32(m.height),
     Word32(m.durationMs), Blob(m.thumbnailCid), Blob(m.contentHash)]
  }

  function AllMediaFields(ms: seq<Media>): (fs: seq<Field>)
    decreases |ms|
  {
    if ms == [] then [] else AllMediaFields(ms[..|ms| - 1]) + MediaFields(ms[|ms| - 1])
  }

  function HeadFields(ev: SocialMessage): (fs: seq<Field>)
    ensures |fs| == 10
  {
    [Blob(ev.networkId), Word32(ev.version), Blob(ev.typ), Blob(ev.author), Blob(ev.devicePubkey)]
    + [Word64(ev.timestamp), Word64(ev.sequence), Blob(ev.previousEvent), Blob(ev.payload), Count(|ev.media|)]
  }

  /** Every field but id and signature, in tag order. */
  function EventFields(ev: SocialMessage): (fs: seq<Field>) {
    HeadFields(ev) + AllMediaFields(ev.media)
  }

  method AppendMedia(b: Buf, m: Media)
    requires b.Valid()
    modifies b
    ensures b.Valid() && b.fields == old(b.fields) + MediaFields(m)
  {
    b.Bytes(m.cid);
    b.Bytes(m.mime);
    b.Uint64(m.size);
    b.Bytes(m.kind);
    b.Uint32(m.width);
    b.Uint32(m.height);
    b.Uint32(m.durationMs);
    b.Bytes(m.thumbnailCid);
    b.Bytes(m.contentHash);
    NineAppended(old(b.fields), Blob(m.cid), Blob(m.mime), Word64(m.size), Blob(m.kind), Word32(m.width),
                 Word32(m.height), Word32(m.durationMs), Blob(m.thumbnailCid), Blob(m.contentHash));
  }

  method AppendHead(b: Buf, ev: SocialMessage)
    requires b.Valid()
    modifies b
    ensures b.Valid() && b.fields == old(b.fields) + HeadFields(ev)
  {
    b.Bytes(ev.networkId);
    b.Uint32(ev.version);
    b.Bytes(ev.typ);
    b.Bytes(ev.author);
    b.Bytes(ev.devicePubkey);
    ghost var five := [Blob(ev.networkId), Word32(ev.version), Blob(ev.typ), Blob(ev.author), Blob(ev.devicePubkey)];
    FiveAppended(old(b.fields), five[0], five[1], five[2], five[3], five[4]);
    AppendRest(b, ev);
    Associates(old(b.fields), five,
               [Word64(ev.timestamp), Word64(ev.sequence), Blob(ev.previousEvent), Blob(ev.payload), Count(|ev.media|)]);
  }

  method AppendRest(b: Buf, ev: SocialMessage)
    requires b.Valid()
    modifies b
    ensures b.Valid() && b.fields == old(b.fields)
      + [Word64(ev.timestamp), Word64(ev.sequence), Blob(ev.previousEvent), Blob(ev.payload), Count(|ev.media|)]
  {
    b.Uint64(ev.timestamp);
    b.Uint64(ev.sequence);
    b.Bytes(ev.previousEvent);
    b.Bytes(ev.payload);
    b.Len(|ev.media|);
    FiveAppended(old(b.fields), Word64(ev.timestamp), Word64(ev.sequence), Blob(ev.previousEvent), Blob(ev.payload),
                 Count(|ev.media|));
  }

  method EventPayloadBytes(ev: SocialMessage) returns (r: Option<Bytes>)
    ensures r == Preimage(EventFields(ev))
  {
    var b := new Buf();
    AppendHead(b, ev);
    assert [] + HeadFields(ev) == HeadFields(ev) == HeadFields(ev) + [];
    for i := 0 to |ev.media|
      invariant b.Valid() && fresh(b)
      invariant b.fields == HeadFields(ev) + AllMediaFields(ev.media[..i])
    {
      AppendMedia(b, ev.media[i]);
      assert ev.media[..i + 1][..i] == ev.media[..i];
      Associates(HeadFields(ev), AllMediaFields(ev.media[..i]), MediaFields(ev.media[i]));
    }
    assert ev.media[..|ev.media|] == ev.media;
    r := b.Finish();
  }

  /// Reading a social event back

  const HEAD_KINDS: seq<Kind> :=
    [BlobKind, Word32Kind, BlobKind, BlobKind, BlobKind, Word64Kind, Word64Kind, BlobKind, BlobKind, CountKind]

  const MEDIA_KINDS: seq<Kind> :=
    [BlobKind, BlobKind, Word64Kind, BlobKind, Word32Kind, Word32Kind, Word32Kind, BlobKind, BlobKind]

  function BlobAt(fs: seq<Field>, i: nat): (v: Bytes)
    requires i < |fs|
  {
    if fs[i].Blob? then fs[i].v else []
  }

  function Word32At(fs: seq<Field>, i: nat): (n: u32)
    requires i < |fs|
  {
    if fs[i].Word32? then fs[i].n else 0
  }

  function Word64At(fs: seq<Field>, i: nat): (n: u64)
    requires i < |fs|
  {
    if fs[i].Word64? then fs[i].m else 0
  }

  function CountAt(fs: seq<Field>, i: nat): (n: nat)
    requires i < |fs|
  {
    if fs[i].Count? && fs[i].k >= 0 then fs[i].k else 0
  }

  function MediaOf(fs: seq<Field>): (m: Media)
    requires |fs| == 9
  {
    Media(BlobAt(fs, 0), BlobAt(fs, 1), Word64At(fs, 2), BlobAt(fs, 3), Word32At(fs, 4), Word32At(fs, 5),
          Word32At(fs, 6), BlobAt(fs, 7), BlobAt(fs, 8))
  }

  function ParseMedia(n: nat, b: Bytes): (r: Option<(seq<Media>, Bytes)>)
    decreases n
  {
    if n == 0 then Some(([], b))
    else
      match ParseAll(MEDIA_KINDS, b)
      case None => None
      case Some((fs, rest)) =>
        match ParseMedia(n - 1, rest)
        case None => None
        case Some((ms, end)) => Some(([MediaOf(fs)] + ms, end))
  }

  /** The signed part of an event: id and signature are left empty. */
  function EventOf(fs: seq<Field>, ms: seq<Media>): (ev: SocialMessage)
    requires |fs| == 10
  {
    SocialMessage(BlobAt(fs, 0), Word32At(fs, 1), [], BlobAt(fs, 2), BlobAt(fs, 3), BlobAt(fs, 4), Word64At(fs, 5),
                  Word64At(fs, 6), BlobAt(fs, 7), BlobAt(fs, 8), ms, [])
  }

  function ParseEvent(b: Bytes): (r: Option<SocialMessage>) {
    match ParseAll(HEAD_KINDS, b)
    case None => None
    case Some((fs, rest)) =>
      match ParseMedia(CountAt(fs, 9), rest)
      case Some((ms, end)) => if end == [] then Some(EventOf(fs, ms)) else None
      case None => None
  }

  function Unsigned(ev: SocialMessage): (u: SocialMessage) {
    ev.(id := [], signature := [])
  }

  lemma {:induction false} MediaFirst(m: Media, ms: seq<Media>)
    ensures AllMediaFields([m] + ms) == MediaFields(m) + AllMediaFields(ms)
    decreases |ms|
  {
    var all := [m] + ms;
    if ms == [] {
      assert all[..0] == [] && AllMediaFields(all) == [] + MediaFields(m);
    } else {
      var init, last := ms[..|ms| - 1], ms[|ms| - 1];
      assert all[..|all| - 1] == [m] + init;
      MediaFirst(m, init);
      Associates(MediaFields(m), AllMediaFields(init), MediaFields(last));
    }
  }

  lemma FramableParts(fs: seq<Field>, gs: seq<Field>)
    ensures AllFramable(fs + gs) <==> AllFramable(fs) && AllFramable(gs)
  {
    if AllFramable(fs + gs) {
      forall i | 0 <= i < |fs| ensures Framable(fs[i]) {
        assert (fs + gs)[i] == fs[i];
      }
      forall i | 0 <= i < |gs| ensures Framable(gs[i]) {
        assert (fs + gs)[|fs| + i] == gs[i];
      }
    }
  }

  lemma MediaKinds(m: Media)
    ensures KindsOf(MediaFields(m)) == MEDIA_KINDS && MediaOf(MediaFields(m)) == m
  {
  }

  lemma HeadKinds(ev: SocialMessage)
    ensures KindsOf(HeadFields(ev)) == HEAD_KINDS && EventOf(HeadFields(ev), ev.media) == Unsigned(ev)
    ensures CountAt(HeadFields(ev), 9) == |ev.media|
  {
  }

  lemma {:induction false} MediaRoundTrip(ms: seq<Media>, b: Bytes, rest: Bytes)
    requires AllFramable(AllMediaFields(ms)) && b == EncodedAll(AllMediaFields(ms)) + rest
    ensures ParseMedia(|ms|, b) == Some((ms, rest))
    decreases |ms|
  {
    if ms == [] {
      assert b == rest;
    } else {
      var m, tail := ms[0], ms[1..];
      assert ms == [m] + tail;
      MediaFirst(m, tail);
      FramableParts(MediaFields(m), AllMediaFields(tail));
      EncodedConcat(MediaFields(m), AllMediaFields(tail));
      var rest' := EncodedAll(AllMediaFields(tail)) + rest;
      Associates(EncodedAll(MediaFields(m)), EncodedAll(AllMediaFields(tail)), rest);
      MediaKinds(m);
      ParseAllRoundTrip(MediaFields(m), rest');
      MediaRoundTrip(tail, rest', rest);
    }
  }

  lemma EventParsed(b: Bytes, fs: seq<Field>, rest: Bytes, ms: seq<Media>)
    requires |fs| == 10 && ParseAll(HEAD_KINDS, b) == Some((fs, rest))
    requires ParseMedia(CountAt(fs, 9), rest) == Some((ms, []))
    ensures ParseEvent(b) == Some(EventOf(fs, ms))
  {
  }

  /** The payload bytes of an event give back every field, the media list included. */
  lemma EventRoundTrip(ev: SocialMessage)
    requires AllFramable(EventFields(ev))
    ensures ParseEvent(EncodedAll(EventFields(ev))) == Some(Unsigned(ev))
  {
    var hs, ms := HeadFields(ev), AllMediaFields(ev.media);
    FramableParts(hs, ms);
    EncodedConcat(hs, ms);
    var head, tail := EncodedAll(hs), EncodedAll(ms);
    HeadKinds(ev);
    ParseAllRoundTrip(hs, tail);
    assert tail == tail + [];
    MediaRoundTrip(ev.media, tail, []);
    EventParsed(head + tail, hs, tail, ev.media);
  }

  /** Two events have the same payload bytes exactly when they are equal apart from id and signature. */
  lemma EventPayloadInjective(ev: SocialMessage, ev': SocialMessage)
    ensures Preimage(EventFields(ev)).Some? ==>
              (Preimage(EventFields(ev)) == Preimage(EventFields(ev')) <==> Unsigned(ev) == Unsigned(ev'))
  {
    if Preimage(EventFields(ev)).Some? && Preimage(EventFields(ev)) == Preimage(EventFields(ev')) {
      EventRoundTrip(ev);
      EventRoundTrip(ev');
    }
    UnsignedFields(ev);
    UnsignedFields(ev');
  }

  lemma UnsignedFields(ev: SocialMessage)
    ensures EventFields(Unsigned(ev)) == EventFields(ev)
  {
  }

  predicate MediaBounded(m: Media) {
    && |m.cid| <= MAX_FIELD_BYTES && |m.mime| <= MAX_FIELD_BYTES && |m.kind| <= MAX_FIELD_BYTES
    && |m.thumbnailCid| <= MAX_FIELD_BYTES && |m.contentHash| <= MAX_FIELD_BYTES
  }

  predicate EventBounded(ev: SocialMessage) {
    && |ev.networkId| <= MAX_FIELD_BYTES && |ev.typ| <= MAX_FIELD_BYTES && |ev.author| <= MAX_FIELD_BYTES
    && |ev.devicePubkey| <= MAX_FIELD_BYTES && |ev.previousEvent| <= MAX_FIELD_BYTES
    && |ev.payload| <= MAX_FIELD_BYTES && |ev.media| <= MAX_FIELD_BYTES
    && forall m <- ev.media :: MediaBounded(m)
  }

  lemma {:induction false} MediaFramable(ms: seq<Media>)
    ensures AllFramable(AllMediaFields(ms)) <==> forall m <- ms :: MediaBounded(m)
    decreases |ms|
  {
    if ms != [] {
      var init, last := ms[..|ms| - 1], ms[|ms| - 1];
      assert ms == init + [last];
      MediaFramable(init);
      FramableParts(AllMediaFields(init), MediaFields(last));
      OneMediaFramable(last);
    }
  }

  lemma OneMediaFramable(m: Media)
    ensures AllFramable(MediaFields(m)) <==> MediaBounded(m)
  {
    var fs := MediaFields(m);
    assert AllFramable(fs) ==> Framable(fs[0]) && Framable(fs[1]) && Framable(fs[3]) && Framable(fs[7]) && Framable(fs[8]);
  }

  lemma HeadFramable(ev: SocialMessage)
    ensures AllFramable(HeadFields(ev)) <==>
              && |ev.networkId| <= MAX_FIELD_BYTES && |ev.typ| <= MAX_FIELD_BYTES && |ev.author| <= MAX_FIELD_BYTES
              && |ev.devicePubkey| <= MAX_FIELD_BYTES && |ev.previousEvent| <= MAX_FIELD_BYTES
              && |ev.payload| <= MAX_FIELD_BYTES && |ev.media| <= MAX_FIELD_BYTES
  {
    var fs := HeadFields(ev);
    assert AllFramable(fs) ==> Framable(fs[0]) && Framable(fs[2]) && Framable(fs[3]) && Framable(fs[4])
                               && Framable(fs[7]) && Framable(fs[8]) && Framable(fs[9]);
  }

  /** The payload can be built exactly when every length and the media count are within the bound. */
  lemma EventFinishes(ev: SocialMessage)
    ensures Preimage(EventFields(ev)).Some? <==> EventBounded(ev)
  {
    FramableParts(HeadFields(ev), AllMediaFields(ev.media));
    HeadFramable(ev);
    MediaFramable(ev.media);
  }

  /// Content attestations

  datatype Attestation = Attestation(networkId: Bytes, version: u32, cid: Bytes, eventId: Bytes, contentHash: Bytes,
                                     verdict: i32, policy: Bytes, reasonCode: Bytes, timestamp: u64,
                                     attestorPubkey: Bytes, signature: Bytes)

  function SubjectFields(a: Attestation): (fs: seq<Field>)
    ensures |fs| == 5
  {
    [Blob(a.networkId), Word32(a.version), Blob(a.cid), Blob(a.eventId), Blob(a.contentHash)]
  }

  function VerdictFields(a: Attestation): (fs: seq<Field>)
    ensures |fs| == 5
  {
    [Word32(a.verdict % TWO_32), Blob(a.policy), Blob(a.reasonCode), Word64(a.timestamp), Blob(a.attestorPubkey)]
  }

  function AttestationFields(a: Attestation): (fs: seq<Field>)
    ensures |fs| == 10
  {
    SubjectFields(a) + VerdictFields(a)
  }

  method AppendSubject(b: Buf, a: Attestation)
    requires b.Valid()
    modifies b
    ensures b.Valid() && b.fields == old(b.fields) + SubjectFields(a)
  {
    b.Bytes(a.networkId);
    b.Uint32(a.version);
    b.Bytes(a.cid);
    b.Bytes(a.eventId);
    b.Bytes(a.contentHash);
    FiveAppended(old(b.fields), Blob(a.networkId), Word32(a.version), Blob(a.cid), Blob(a.eventId), Blob(a.contentHash));
  }

  method AppendVerdict(b: Buf, a: Attestation)
    requires b.Valid()
    modifies b
    ensures b.Valid() && b.fields == old(b.fields) + VerdictFields(a)
  {
    b.Enum(a.verdict);
    b.Bytes(a.policy);
    b.Bytes(a.reasonCode);
    b.Uint64(a.timestamp);
    b.Bytes(a.attestorPubkey);
    FiveAppended(old(b.fields), Word32(a.verdict % TWO_32), Blob(a.policy), Blob(a.reasonCode), Word64(a.timestamp),
                 Blob(a.attestorPubkey));
  }

  method AttestationPayload(a: Attestation) returns (r: Option<Bytes>)
    ensures r == Preimage(AttestationFields(a))
  {
    var b := new Buf();
    AppendSubject(b, a);
    assert [] + SubjectFields(a) == SubjectFields(a);
    AppendVerdict(b, a);
    r := b.Finish();
  }

  predicate AttestationBounded(a: Attestation) {
    && |a.networkId| <= MAX_FIELD_BYTES && |a.cid| <= MAX_FIELD_BYTES && |a.eventId| <= MAX_FIELD_BYTES
    && |a.contentHash| <= MAX_FIELD_BYTES && |a.policy| <= MAX_FIELD_BYTES && |a.reasonCode| <= MAX_FIELD_BYTES
    && |a.attestorPubkey| <= MAX_FIELD_BYTES
  }

  /** The payload can be built exactly when every length is within the bound. */
  lemma AttestationFinishes(a: Attestation)
    ensures Preimage(AttestationFields(a)).Some? <==> AttestationBounded(a)
  {
    var s, v := SubjectFields(a), VerdictFields(a);
    FramableParts(s, v);
    assert AllFramable(s) ==> Framable(s[0]) && Framable(s[2]) && Framable(s[3]) && Framable(s[4]);
    assert AllFramable(v) ==> Framable(v[1]) && Framable(v[2]) && Framable(v[4]);
  }

  const ATTESTATION_KINDS: seq<Kind> :=
    [BlobKind, Word32Kind, BlobKind, BlobKind, BlobKind, Word32Kind, BlobKind, BlobKind, Word64Kind, BlobKind]

  /** The `int32` that a two's-complement word stands for. */
  function FromWord(n: u32): (v: i32) {
    if n < 0x8000_0000 then n else n - TWO_32
  }

  function AttestationOf(fs: seq<Field>): (a: Attestation)
    requires |fs| == 10
  {
    Attestation(BlobAt(fs, 0), Word32At(fs, 1), BlobAt(fs, 2), BlobAt(fs, 3), BlobAt(fs, 4), FromWord(Word32At(fs, 5)),
                BlobAt(fs, 6), BlobAt(fs, 7), Word64At(fs, 8), BlobAt(fs, 9), [])
  }

  function ParseAttestation(b: Bytes): (r: Option<Attestation>) {
    match ParseAll(ATTESTATION_KINDS, b)
    case None => None
    case Some((fs, end)) => if end == [] then Some(AttestationOf(fs)) else None
  }

  lemma AttestationKinds(a: Attestation)
    ensures KindsOf(AttestationFields(a)) == ATTESTATION_KINDS
    ensures AttestationOf(AttestationFields(a)) == a.(signature := [])
  {
  }

  lemma AttestationRoundTrip(a: Attestation)
    requires AllFramable(AttestationFields(a))
    ensures ParseAttestation(EncodedAll(AttestationFields(a))) == Some(a.(signature := []))
  {
    var fs := AttestationFields(a);
    AttestationKinds(a);
    ParseAllRoundTrip(fs, []);
    assert EncodedAll(fs) + [] == EncodedAll(fs);
  }

  /** Two attestations have the same payload bytes exactly when they are equal apart from the signature. */
  lemma AttestationPayloadInjective(a: Attestation, a': Attestation)
    ensures Preimage(AttestationFields(a)).Some? ==>
              (Preimage(AttestationFields(a)) == Preimage(AttestationFields(a'))
               <==> a.(signature := []) == a'.(signature := []))
  {
    if Preimage(AttestationFields(a)).Some? && Preimage(AttestationFields(a)) == Preimage(AttestationFields(a')) {
      AttestationRoundTrip(a);
      AttestationRoundTrip(a');
    }
    UnsignedAttestation(a);
    UnsignedAttestation(a');
  }

  lemma UnsignedAttestation(a: Attestation)
    ensures AttestationFields(a.(signature := [])) == AttestationFields(a)
  {
  }

  /// What is signed

  /** The bytes whose hash is an event's id, when they can be built. */
  function EventPreimage(n: Identity, ev: SocialMessage): (b: Option<Bytes>) {
    match Preimage(EventFields(ev))
    case None => None
    case Some(payload) => Some(SigningPreimage(n, PurposeText(SocialEvent), payload))
  }

  /** The payload of an event, on a network whose identity is well typed, has a Go length. */
  predicate Signable(n: Identity, ev: SocialMessage) {
    WellTyped(n) && match Preimage(EventFields(ev))
                    case None => false
                    case Some(payload) => Sized(n, PurposeText(SocialEvent), payload)
  }

  /** The whole signed string of an event names its network and its contents. */
  lemma SignedEventUnique(n: Identity, ev: SocialMessage, n': Identity, ev': SocialMessage)
    requires Signable(n, ev) && Signable(n', ev') && EventPreimage(n, ev) == EventPreimage(n', ev')
    ensures Unsigned(ev) == Unsigned(ev') && n.networkId == n'.networkId && n.magic == n'.magic && n.version == n'.version
  {
    var b, b' := Preimage(EventFields(ev)).value, Preimage(EventFields(ev')).value;
    var s := SigningPreimage(n, PurposeText(SocialEvent), b);
    assert s + [] == s;
    DomainsSeparate(n, SocialEvent, b, n', SocialEvent, b', []);
    EventPayloadInjective(ev, ev');
  }

  /** The checks of VerifyEvent, with the hash and the signature scheme as parameters. */
  predicate VerifyEvent(n: Identity, hash: Bytes -> Bytes, signedBy: (Bytes, Bytes, Bytes) -> bool, ev: SocialMessage) {
    if ev.networkId != n.networkId then false
    else
      match EventPreimage(n, ev)
      case None => false
      case Some(preimage) =>
        hash(preimage) == ev.id && |ev.devicePubkey| == 32 && signedBy(ev.devicePubkey, preimage, ev.signature)
  }

  /** The hash tells the preimages of two events apart when they differ. */
  predicate NoCollision(n: Identity, hash: Bytes -> Bytes, ev: SocialMessage, ev': SocialMessage) {
    match (EventPreimage(n, ev), EventPreimage(n, ev'))
    case (Some(x), Some(y)) => hash(x) == hash(y) ==> x == y
    case _ => true
  }

  /**
    Two verified events with one id have the same contents, author and device key included, whenever
    the hash does not collide on their two preimages.
   */
  lemma EventIdNamesContents(n: Identity, hash: Bytes -> Bytes, signedBy: (Bytes, Bytes, Bytes) -> bool,
                             ev: SocialMessage, ev': SocialMessage)
    requires Signable(n, ev) && Signable(n, ev')
    requires VerifyEvent(n, hash, signedBy, ev) && VerifyEvent(n, hash, signedBy, ev')
    requires NoCollision(n, hash, ev, ev')
    ensures ev.id == ev'.id <==> Unsigned(ev) == Unsigned(ev')
  {
    if ev.id == ev'.id {
      SignedEventUnique(n, ev, n, ev');
    }
    UnsignedFields(ev);
    UnsignedFields(ev');
  }
}
