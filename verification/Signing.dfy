/**
  Network identity and signature domains (app/params/network.go): which peers a node accepts, and
  the bytes signed for a purpose on a network. A Go string is its bytes.
 */
module Signing {
  import opened Prelude
  import opened Coins
  import opened Canonical

  const SLASH: byte := 47
  const DOMAIN_PREFIX := "hashgram/v"

  function ByteOf(c: char): (b: byte) {
    if c as int < 256 then c as int as byte else 0
  }

  /** The bytes of an ASCII string. */
  function Ascii(s: string): (b: Bytes)
    ensures |b| == |s|
  {
    seq(|s|, i requires 0 <= i < |s| => ByteOf(s[i]))
  }

  datatype Identity = Identity(networkName: Bytes, networkId: Bytes, chainId: Bytes, magic: Bytes,
                               version: u32, genesisHash: Bytes)

  /** The network magic is a four-byte array. */
  predicate WellTyped(n: Identity) {
    |n.magic| == 4
  }

  /// Peers

  function FoldByte(b: byte): (c: byte) {
    if 65 <= b <= 90 then b + 32 else b
  }

  /** `strings.EqualFold`, on ASCII. */
  predicate EqualFold(a: Bytes, b: Bytes) {
    |a| == |b| && forall i :: 0 <= i < |a| ==> FoldByte(a[i]) == FoldByte(b[i])
  }

  predicate VerifyPeer(n: Identity, remote: Identity) {
    if n.genesisHash == [] then false
    else if remote.networkId != n.networkId then false
    else if remote.chainId != n.chainId then false
    else if remote.magic != n.magic then false
    else if remote.version != n.version then false
    else EqualFold(remote.genesisHash, n.genesisHash)
  }

  /// Purposes

  datatype Purpose =
    | SocialEvent | DeviceCert | ServiceReceipt | StorageChallenge | Eligibility | ContentAttest
    | BootstrapRecord | PeerHandshake | NodeAnnounce | MailboxFetch | MailboxAck | KeyPackage | BlobUpload

  function PurposeName(p: Purpose): (s: string)
    ensures s != "" && '/' !in s
  {
    match p
    case SocialEvent => "social-event"
    case DeviceCert => "device-cert"
    case ServiceReceipt => "service-receipt"
    case StorageChallenge => "storage-challenge"
    case Eligibility => "eligibility-attestation"
    case ContentAttest => "content-attestation"
    case BootstrapRecord => "bootstrap-record"
    case PeerHandshake => "peer-handshake"
    case NodeAnnounce => "node-announce"
    case MailboxFetch => "mailbox-fetch"
    case MailboxAck => "mailbox-ack"
    case KeyPackage => "key-package"
    case BlobUpload => "blob-upload"
  }

  function PurposeText(p: Purpose): (b: Bytes) {
    Ascii(PurposeName(p))
  }

  /// Domains and preimages

  /** "hashgram/v<version>/<network id>/<purpose>". */
  function SigningDomain(n: Identity, p: Bytes): (d: Bytes) {
    Ascii(DOMAIN_PREFIX) + Ascii(Decimal(n.version)) + [SLASH] + n.networkId + [SLASH] + p
  }

  function SigningPreimage(n: Identity, p: Bytes, payload: Bytes): (b: Bytes) {
    n.magic + Prefixed(SigningDomain(n, p)) + Prefixed(payload)
  }

  /** Lengths are Go lengths, far below 2^64. */
  predicate Sized(n: Identity, p: Bytes, payload: Bytes) {
    |SigningDomain(n, p)| < TWO_64 && |payload| < TWO_64
  }

  method BuildPreimage(n: Identity, p: Bytes, payload: Bytes) returns (b: Bytes)
    ensures b == SigningPreimage(n, p, payload)
  {
    var domain := SigningDomain(n, p);
    var f := new Fixed();
    f.Raw(n.magic);
    f.Bytes(domain);
    f.Bytes(payload);
    b := f.out;
    assert [] + n.magic == n.magic;
  }

  /// Reading a preimage back

  function FirstSlash(b: Bytes): (i: nat)
    ensures i <= |b| && SLASH !in b[..i] && (i < |b| ==> b[i] == SLASH)
  {
    if b == [] || b[0] == SLASH then 0
    else
      var i := FirstSlash(b[1..]);
      assert b[..1 + i] == [b[0]] + b[1..][..i];
      1 + i
  }

  /** The position of the last slash; the length when there is none. */
  function LastSlash(b: Bytes): (i: nat)
    ensures i <= |b|
    ensures i < |b| ==> b[i] == SLASH && SLASH !in b[i + 1..]
    ensures i == |b| ==> SLASH !in b
    decreases |b|
  {
    if b == [] then 0
    else if b[|b| - 1] == SLASH then |b| - 1
    else
      var init := b[..|b| - 1];
      assert b == init + [b[|b| - 1]];
      var i := LastSlash(init);
      if i == |init| then |b|
      else
        assert b[i + 1..] == init[i + 1..] + [b[|b| - 1]];
        i
  }

  /** The version digits, the network id and the purpose of a domain. */
  function ParseDomain(d: Bytes): (r: Option<(Bytes, Bytes, Bytes)>) {
    if |d| < |DOMAIN_PREFIX| then None
    else
      var rest := d[|DOMAIN_PREFIX|..];
      var i := FirstSlash(rest);
      if i == |rest| then None
      else
        var tail := rest[i + 1..];
        var j := LastSlash(tail);
        if j == |tail| then None else Some((rest[..i], tail[..j], tail[j + 1..]))
  }

  datatype Signed = Signed(magic: Bytes, version: Bytes, networkId: Bytes, purpose: Bytes, payload: Bytes)

  function ParsePreimage(b: Bytes): (r: Option<(Signed, Bytes)>) {
    if |b| < 4 then None
    else
      match ParseBlob(8, b[4..])
      case None => None
      case Some((domain, rest)) =>
        match (ParseDomain(domain), ParseBlob(8, rest))
        case (Some((version, networkId, purpose)), Some((payload, end))) =>
          Some((Signed(b[..4], version, networkId, purpose, payload), end))
        case _ => None
  }

  lemma {:induction false} FirstSlashAt(a: Bytes, b: Bytes)
    requires SLASH !in a
    ensures FirstSlash(a + [SLASH] + b) == |a|
    decreases |a|
  {
    var s := a + [SLASH] + b;
    if a != [] {
      assert s[0] == a[0];
      assert s[1..] == a[1..] + [SLASH] + b;
      FirstSlashAt(a[1..], b);
    }
  }

  lemma {:induction false} LastSlashAt(a: Bytes, b: Bytes)
    requires SLASH !in b
    ensures LastSlash(a + [SLASH] + b) == |a|
    decreases |b|
  {
    var s := a + [SLASH] + b;
    if b != [] {
      var n := |b| - 1;
      assert s[|s| - 1] == b[n];
      assert s[..|s| - 1] == a + [SLASH] + b[..n];
      LastSlashAt(a, b[..n]);
    }
  }

  lemma DigitsSlashless(n: nat)
    ensures SLASH !in Ascii(Decimal(n))
  {
    var s := Decimal(n);
    forall i | 0 <= i < |s| ensures Ascii(s)[i] != SLASH {
      assert IsDigit(s[i]);
    }
  }

  lemma SplitAt(a: Bytes, b: Bytes)
    ensures (a + [SLASH] + b)[..|a|] == a && (a + [SLASH] + b)[|a| + 1..] == b
  {
  }

  lemma DropDomainPrefix(v: Bytes, networkId: Bytes, p: Bytes)
    ensures var prefix := Ascii(DOMAIN_PREFIX);
            (prefix + v + [SLASH] + networkId + [SLASH] + p)[|DOMAIN_PREFIX|..] == v + [SLASH] + (networkId + [SLASH] + p)
  {
  }

  lemma DomainParsed(d: Bytes, v: Bytes, networkId: Bytes, p: Bytes)
    requires |DOMAIN_PREFIX| <= |d| && d[|DOMAIN_PREFIX|..] == v + [SLASH] + (networkId + [SLASH] + p)
    requires SLASH !in v && SLASH !in p
    ensures ParseDomain(d) == Some((v, networkId, p))
  {
    var tail := networkId + [SLASH] + p;
    FirstSlashAt(v, tail);
    SplitAt(v, tail);
    LastSlashAt(networkId, p);
    SplitAt(networkId, p);
  }

  lemma DomainRoundTrip(n: Identity, p: Bytes)
    requires SLASH !in p
    ensures ParseDomain(SigningDomain(n, p)) == Some((Ascii(Decimal(n.version)), n.networkId, p))
  {
    var v := Ascii(Decimal(n.version));
    DigitsSlashless(n.version);
    DropDomainPrefix(v, n.networkId, p);
    DomainParsed(SigningDomain(n, p), v, n.networkId, p);
  }

  lemma PreimageParts(magic: Bytes, d: Bytes, payload: Bytes, rest: Bytes)
    requires |magic| == 4
    ensures var b := magic + Prefixed(d) + Prefixed(payload) + rest;
            && b[..4] == magic
            && b[4..] == BigEndian(|d|, 8) + d + (BigEndian(|payload|, 8) + payload + rest)
  {
    var x, y := Prefixed(d), Prefixed(payload);
    Associates(magic + x, y, rest);
    Associates(magic, x, y + rest);
    assert (magic + (x + (y + rest)))[..4] == magic && (magic + (x + (y + rest)))[4..] == x + (y + rest);
  }

  /** The bytes signed give back every ingredient, whatever follows them. */
  lemma PreimageRoundTrip(n: Identity, p: Bytes, payload: Bytes, rest: Bytes)
    requires WellTyped(n) && Sized(n, p, payload) && SLASH !in p
    ensures ParsePreimage(SigningPreimage(n, p, payload) + rest)
         == Some((Signed(n.magic, Ascii(Decimal(n.version)), n.networkId, p, payload), rest))
  {
    var d := SigningDomain(n, p);
    Widths();
    PreimageParts(n.magic, d, payload, rest);
    ParseBlobRoundTrip(8, d, BigEndian(|payload|, 8) + payload + rest);
    ParseBlobRoundTrip(8, payload, rest);
    DomainRoundTrip(n, p);
  }

  lemma AsciiDigitsInjective(a: nat, b: nat)
    requires Ascii(Decimal(a)) == Ascii(Decimal(b))
    ensures a == b
  {
    var s, t := Decimal(a), Decimal(b);
    assert |s| == |Ascii(s)| == |Ascii(t)| == |t|;
    forall i | 0 <= i < |s| ensures s[i] == t[i] {
      assert Ascii(s)[i] == Ascii(t)[i];
      assert IsDigit(s[i]) && IsDigit(t[i]);
    }
    assert s == t;
    DecimalRoundTrip(a);
    DecimalRoundTrip(b);
  }

  /**
    Two preimages under slash-free purposes, one of them continued by any bytes, are equal only when
    everything they were built from is: injective and prefix-free at once, slashes in network ids
    notwithstanding.
   */
  lemma PreimageInjective(n: Identity, p: Bytes, payload: Bytes, n': Identity, p': Bytes, payload': Bytes, rest: Bytes)
    requires WellTyped(n) && Sized(n, p, payload) && SLASH !in p
    requires WellTyped(n') && Sized(n', p', payload') && SLASH !in p'
    requires SigningPreimage(n, p, payload) + rest == SigningPreimage(n', p', payload')
    ensures n.magic == n'.magic && n.version == n'.version && n.networkId == n'.networkId
    ensures p == p' && payload == payload' && rest == []
  {
    PreimageRoundTrip(n, p, payload, rest);
    PreimageRoundTrip(n', p', payload', []);
    assert SigningPreimage(n', p', payload') + [] == SigningPreimage(n', p', payload');
    AsciiDigitsInjective(n.version, n'.version);
  }

  lemma PurposeSlashless(p: Purpose)
    ensures SLASH !in PurposeText(p)
  {
    AsciiSlashless(PurposeName(p));
  }

  lemma AsciiSlashless(s: string)
    requires '/' !in s
    ensures SLASH !in Ascii(s)
  {
    forall i | 0 <= i < |s| ensures Ascii(s)[i] != SLASH {
      assert s[i] in s;
    }
  }

  /** The length and first letter of a purpose's name already tell it apart. */
  lemma NamesDistinct(p: Purpose, q: Purpose)
    requires |PurposeName(p)| == |PurposeName(q)| && ByteOf(PurposeName(p)[0]) == ByteOf(PurposeName(q)[0])
    ensures p == q
  {
  }

  lemma PurposesDistinct(p: Purpose, q: Purpose)
    requires PurposeText(p) == PurposeText(q)
    ensures p == q
  {
    var s, t := PurposeText(p), PurposeText(q);
    assert |PurposeName(p)| == |s| == |t| == |PurposeName(q)|;
    assert s[0] == ByteOf(PurposeName(p)[0]) && t[0] == ByteOf(PurposeName(q)[0]);
    NamesDistinct(p, q);
  }

  /** No signature for one declared purpose or network is a signature for another. */
  lemma DomainsSeparate(n: Identity, p: Purpose, payload: Bytes, n': Identity, p': Purpose, payload': Bytes, rest: Bytes)
    requires WellTyped(n) && Sized(n, PurposeText(p), payload)
    requires WellTyped(n') && Sized(n', PurposeText(p'), payload')
    requires SigningPreimage(n, PurposeText(p), payload) + rest == SigningPreimage(n', PurposeText(p'), payload')
    ensures n.magic == n'.magic && n.version == n'.version && n.networkId == n'.networkId
    ensures p == p' && payload == payload' && rest == []
  {
    PurposeSlashless(p);
    PurposeSlashless(p');
    PreimageInjective(n, PurposeText(p), payload, n', PurposeText(p'), payload', rest);
    PurposesDistinct(p, p');
  }

  /** A purpose with a slash would collide: its first part reads as the end of a longer network id. */
  lemma SlashedPurposeCollides(n: Identity, head: Bytes, tail: Bytes, payload: Bytes)
    ensures SigningPreimage(n, head + [SLASH] + tail, payload)
         == SigningPreimage(n.(networkId := n.networkId + [SLASH] + head), tail, payload)
  {
    var front := Ascii(DOMAIN_PREFIX) + Ascii(Decimal(n.version)) + [SLASH];
    assert front + n.networkId + [SLASH] + (head + [SLASH] + tail)
        == front + (n.networkId + [SLASH] + head) + [SLASH] + tail;
  }

  /// Accepted peers

  /** Accepted peers sign the same bytes for every purpose and payload. */
  lemma PeersSignAlike(n: Identity, remote: Identity, p: Bytes, payload: Bytes)
    requires VerifyPeer(n, remote)
    ensures SigningPreimage(n, p, payload) == SigningPreimage(remote, p, payload)
  {
    assert SigningDomain(n, p) == SigningDomain(remote, p);
  }

  /** Acceptance is mutual and passes on, so accepted peers form one network; an unpinned node accepts nobody. */
  lemma PeersFormNetwork(a: Identity, b: Identity, c: Identity)
    requires VerifyPeer(a, b)
    ensures VerifyPeer(b, a) && VerifyPeer(a, a)
    ensures VerifyPeer(b, c) ==> VerifyPeer(a, c)
    ensures c.genesisHash == [] ==> !VerifyPeer(a, c) && !VerifyPeer(c, a)
  {
  }

  /** Two bytes are the same, or the two cases of one ASCII letter. */
  predicate SameLetter(a: byte, b: byte) {
    a == b || (65 <= a <= 90 && b as int == a as int + 32) || (65 <= b <= 90 && a as int == b as int + 32)
  }

  /** A peer is accepted exactly when it shares everything but the name, and the pinned genesis hash up to case. */
  lemma AcceptedIff(n: Identity, remote: Identity)
    ensures VerifyPeer(n, remote) <==>
              && n.genesisHash != []
              && remote == n.(networkName := remote.networkName, genesisHash := remote.genesisHash)
              && |remote.genesisHash| == |n.genesisHash|
              && forall i :: 0 <= i < |n.genesisHash| ==> SameLetter(remote.genesisHash[i], n.genesisHash[i])
  {
  }
}
