/**
  The byte layouts of app/canonical/encode.go and of what is built with it, written out as
  concatenations: widths, byte order and the order of the fields.
 */
module WireLayout {
  import opened Prelude
  import opened Coins
  import opened Canonical
  import opened Signing
  import opened Payloads

  /// Integers

  /** Four bytes as a number, the most significant first. */
  function Word(b: Bytes): (n: nat)
    requires |b| == 4
  {
    b[0] as int * 0x100_0000 + b[1] as int * 0x1_0000 + b[2] as int * 0x100 + b[3] as int
  }

  lemma ReadLast(b: Bytes)
    requires |b| > 0
    ensures FromBigEndian(b) == FromBigEndian(b[..|b| - 1]) * 0x100 + b[|b| - 1] as int
  {
  }

  lemma ReadWord(b: Bytes)
    requires |b| >= 4
    ensures FromBigEndian(b) == FromBigEndian(b[..|b| - 4]) * 0x1_0000_0000 + Word(b[|b| - 4..])
  {
    var n := |b|;
    assert b[..n - 1][..n - 2] == b[..n - 2] && b[..n - 2][..n - 3] == b[..n - 3] && b[..n - 3][..n - 4] == b[..n - 4];
    ReadLast(b);
    ReadLast(b[..n - 1]);
    ReadLast(b[..n - 2]);
    ReadLast(b[..n - 3]);
  }

  lemma FourBytes(n: u32)
    ensures Word(BigEndian(n, 4)) == n
  {
    Widths();
    BigEndianRoundTrip(n, 4);
    var b := BigEndian(n, 4);
    ReadWord(b);
    assert b[0..] == b && b[..0] == [];
  }

  /** Eight bytes as a number: the high word, then the low word. */
  function Long(b: Bytes): (n: nat)
    requires |b| == 8
  {
    Word(b[..4]) * 0x1_0000_0000 + Word(b[4..])
  }

  lemma EightBytes(m: u64)
    ensures Long(BigEndian(m, 8)) == m
  {
    Widths();
    BigEndianRoundTrip(m, 8);
    var b := BigEndian(m, 8);
    ReadWord(b);
    ReadWord(b[..4]);
    assert b[..4][0..] == b[..4] && b[..4][..0] == [];
  }

  /// Fields

  /** A length or count below 2^32 in four bytes, a word, a long word, and a slice after its length. */
  lemma FieldLayout(v: Bytes, n: u32, m: u64)
    requires |v| <= 0x100_0000
    ensures var b := Encoded(Blob(v)); |b| == 4 + |v| && Word(b[..4]) == |v| && b[4..] == v
    ensures var b := Encoded(Word32(n)); |b| == 4 && Word(b) == n
    ensures var b := Encoded(Word64(m));
            |b| == 8 && Long(b) == m
    ensures var b := Encoded(Count(|v|)); |b| == 4 && Word(b) == |v|
  {
    FourBytes(|v|);
    FourBytes(n);
    EightBytes(m);
    assert Encoded(Blob(v))[..4] == BigEndian(|v|, 4);
  }

  /** Fields `fs` can all be framed, and their bytes are `b`. */
  predicate Written(fs: seq<Field>, b: Bytes) {
    AllFramable(fs) && EncodedAll(fs) == b
  }

  lemma OneMore(fs: seq<Field>, b: Bytes, f: Field, gs: seq<Field>)
    requires Written(fs, b) && Framable(f) && gs == fs + [f]
    ensures Written(gs, b + Encoded(f))
  {
    assert gs[..|fs|] == fs;
  }

  lemma Five(a: Field, b: Field, c: Field, d: Field, e: Field)
    requires Framable(a) && Framable(b) && Framable(c) && Framable(d) && Framable(e)
    ensures Written([a, b, c, d, e], Encoded(a) + Encoded(b) + Encoded(c) + Encoded(d) + Encoded(e))
  {
    var one, two, three, four := [a], [a, b], [a, b, c], [a, b, c, d];
    var w1 := Encoded(a);
    assert [] + w1 == w1;
    OneMore([], [], a, one);
    OneMore(one, w1, b, two);
    OneMore(two, w1 + Encoded(b), c, three);
    OneMore(three, w1 + Encoded(b) + Encoded(c), d, four);
    OneMore(four, w1 + Encoded(b) + Encoded(c) + Encoded(d), e, [a, b, c, d, e]);
  }

  /// Payloads

  /** A 32-bit length and the slice. */
  function Blob32(v: Bytes): (b: Bytes) {
    BigEndian(|v|, 4) + v
  }

  function MediaBytes(m: Media): (b: Bytes) {
    Blob32(m.cid) + Blob32(m.mime) + BigEndian(m.size, 8) + Blob32(m.kind) + BigEndian(m.width, 4)
    + (BigEndian(m.height, 4) + BigEndian(m.durationMs, 4) + Blob32(m.thumbnailCid) + Blob32(m.contentHash))
  }

  function MediaListBytes(ms: seq<Media>): (b: Bytes)
    decreases |ms|
  {
    if ms == [] then [] else MediaListBytes(ms[..|ms| - 1]) + MediaBytes(ms[|ms| - 1])
  }

  /** Network, version, type, author, device key, timestamp, sequence, previous event, payload and media, in this order. */
  function EventBytes(ev: SocialMessage): (b: Bytes) {
    Blob32(ev.networkId) + BigEndian(ev.version, 4) + Blob32(ev.typ) + Blob32(ev.author) + Blob32(ev.devicePubkey)
    + (BigEndian(ev.timestamp, 8) + BigEndian(ev.sequence, 8) + Blob32(ev.previousEvent) + Blob32(ev.payload)
       + BigEndian(|ev.media|, 4))
    + MediaListBytes(ev.media)
  }

  /** The verdict is its two's complement. */
  function AttestationBytes(a: Attestation): (b: Bytes) {
    Blob32(a.networkId) + BigEndian(a.version, 4) + Blob32(a.cid) + Blob32(a.eventId) + Blob32(a.contentHash)
    + (BigEndian(if a.verdict < 0 then a.verdict + 0x1_0000_0000 else a.verdict, 4) + Blob32(a.policy)
       + Blob32(a.reasonCode) + BigEndian(a.timestamp, 8) + Blob32(a.attestorPubkey))
  }

  lemma Joined(fs: seq<Field>, b: Bytes, gs: seq<Field>, c: Bytes)
    requires Written(fs, b) && Written(gs, c)
    ensures Written(fs + gs, b + c)
  {
    FramableParts(fs, gs);
    EncodedConcat(fs, gs);
  }

  lemma Four(a: Field, b: Field, c: Field, d: Field)
    requires Framable(a) && Framable(b) && Framable(c) && Framable(d)
    ensures Written([a, b, c, d], Encoded(a) + Encoded(b) + Encoded(c) + Encoded(d))
  {
    var one, two, three := [a], [a, b], [a, b, c];
    var w1 := Encoded(a);
    assert [] + w1 == w1;
    OneMore([], [], a, one);
    OneMore(one, w1, b, two);
    OneMore(two, w1 + Encoded(b), c, three);
    OneMore(three, w1 + Encoded(b) + Encoded(c), d, [a, b, c, d]);
  }

  lemma MediaLayout(m: Media)
    requires MediaBounded(m)
    ensures Written(MediaFields(m), MediaBytes(m))
  {
    var fs := [Blob(m.cid), Blob(m.mime), Word64(m.size), Blob(m.kind), Word32(m.width)];
    var gs := [Word32(m.height), Word32(m.durationMs), Blob(m.thumbnailCid), Blob(m.contentHash)];
    Five(fs[0], fs[1], fs[2], fs[3], fs[4]);
    Four(gs[0], gs[1], gs[2], gs[3]);
    Joined(fs, EncodedAll(fs), gs, EncodedAll(gs));
    assert MediaFields(m) == fs + gs;
  }

  lemma {:induction false} MediaListLayout(ms: seq<Media>)
    requires forall i :: 0 <= i < |ms| ==> MediaBounded(ms[i])
    ensures Written(AllMediaFields(ms), MediaListBytes(ms))
    decreases |ms|
  {
    if ms != [] {
      var init, last := ms[..|ms| - 1], ms[|ms| - 1];
      MediaListLayout(init);
      MediaLayout(last);
      Joined(AllMediaFields(init), MediaListBytes(init), MediaFields(last), MediaBytes(last));
    }
  }

  /** The signed payload of an event, byte for byte. */
  lemma EventLayout(ev: SocialMessage)
    requires EventBounded(ev)
    ensures Preimage(EventFields(ev)) == Some(EventBytes(ev))
  {
    var fs := [Blob(ev.networkId), Word32(ev.version), Blob(ev.typ), Blob(ev.author), Blob(ev.devicePubkey)];
    var gs := [Word64(ev.timestamp), Word64(ev.sequence), Blob(ev.previousEvent), Blob(ev.payload), Count(|ev.media|)];
    Five(fs[0], fs[1], fs[2], fs[3], fs[4]);
    Five(gs[0], gs[1], gs[2], gs[3], gs[4]);
    Joined(fs, EncodedAll(fs), gs, EncodedAll(gs));
    MediaListLayout(ev.media);
    Joined(fs + gs, EncodedAll(fs) + EncodedAll(gs), AllMediaFields(ev.media), MediaListBytes(ev.media));
  }

  /** The signed payload of an attestation, byte for byte. */
  lemma AttestationLayout(a: Attestation)
    requires AttestationBounded(a)
    ensures Preimage(AttestationFields(a)) == Some(AttestationBytes(a))
  {
    var fs := [Blob(a.networkId), Word32(a.version), Blob(a.cid), Blob(a.eventId), Blob(a.contentHash)];
    var word: u32 := if a.verdict < 0 then a.verdict + 0x1_0000_0000 else a.verdict;
    var gs := [Word32(word), Blob(a.policy), Blob(a.reasonCode), Word64(a.timestamp), Blob(a.attestorPubkey)];
    Five(fs[0], fs[1], fs[2], fs[3], fs[4]);
    Five(gs[0], gs[1], gs[2], gs[3], gs[4]);
    Joined(fs, EncodedAll(fs), gs, EncodedAll(gs));
    TwosComplement(a.verdict);
    assert SubjectFields(a) == fs && VerdictFields(a) == gs;
  }

  lemma TwosComplement(v: i32)
    ensures v % TWO_32 == if v < 0 then v + 0x1_0000_0000 else v
  {
  }

  /// Domains

  lemma AsciiConcat(s: string, t: string)
    ensures Ascii(s + t) == Ascii(s) + Ascii(t)
  {
  }

  /** The domain is the text "hashgram/v<version>/<network id>/<purpose>". */
  lemma DomainText(n: Identity, id: string, purpose: string)
    requires n.networkId == Ascii(id)
    ensures SigningDomain(n, Ascii(purpose))
         == Ascii("hashgram/v" + Decimal(n.version) + "/" + id + "/" + purpose)
  {
    var a := "hashgram/v" + Decimal(n.version);
    AsciiConcat("hashgram/v", Decimal(n.version));
    AsciiConcat(a, "/");
    AsciiConcat(a + "/", id);
    AsciiConcat(a + "/" + id, "/");
    AsciiConcat(a + "/" + id + "/", purpose);
    assert Ascii("/") == [SLASH];
  }

  lemma AsciiAt(s: string, i: nat)
    requires i < |s| && s[i] as int < 128
    ensures Ascii(s)[i] as int == s[i] as int
  {
  }

  lemma Sections(magic: Bytes, x: Bytes, d: Bytes, y: Bytes, payload: Bytes)
    requires |magic| == 4 && |x| == 8 && |y| == 8
    ensures var b, k := magic + (x + d) + (y + payload), |d|;
            && |b| == 20 + k + |payload| && b[..4] == magic && b[4..12] == x && b[12..12 + k] == d
            && b[12 + k..20 + k] == y && b[20 + k..] == payload
  {
    var b := magic + (x + d) + (y + payload);
    assert b == magic + x + d + y + payload;
  }

  /** The signed string: the magic, the domain and the payload, the last two after a 64-bit length. */
  lemma SignedLayout(n: Identity, p: Bytes, payload: Bytes)
    requires WellTyped(n) && Sized(n, p, payload)
    ensures var b, k := SigningPreimage(n, p, payload), |SigningDomain(n, p)|;
            && |b| == 20 + k + |payload|
            && b[..4] == n.magic
            && Long(b[4..12]) == k
            && b[12..12 + k] == SigningDomain(n, p)
            && Long(b[12 + k..20 + k]) == |payload|
            && b[20 + k..] == payload
  {
    var d := SigningDomain(n, p);
    EightBytes(|d|);
    EightBytes(|payload|);
    Sections(n.magic, BigEndian(|d|, 8), d, BigEndian(|payload|, 8), payload);
  }

  /** What an event's id is the hash of: the social-event string of the network over the payload's bytes. */
  lemma EventSigned(n: Identity, ev: SocialMessage)
    requires EventBounded(ev)
    ensures EventPreimage(n, ev) == Some(SigningPreimage(n, Ascii("social-event"), EventBytes(ev)))
  {
    EventLayout(ev);
  }
}
