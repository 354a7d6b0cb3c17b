/**
  The signing-preimage builders of app/canonical/encode.go: the bounded builder with 32-bit length
  prefixes and a sticky error, and the unbounded one with 64-bit prefixes. Parsers for what they
  write show that the framing is unambiguous.
 */
module Canonical {
  import opened Prelude

  const MAX_FIELD_BYTES := 16 * 0x10_0000
  const TWO_32 := 0x1_0000_0000
  const TWO_64 := 0x1_0000_0000_0000_0000

  type Bytes = seq<byte>
  type u32 = x: int | 0 <= x < TWO_32
  type u64 = x: int | 0 <= x < TWO_64
  type i32 = x: int | -0x8000_0000 <= x < 0x8000_0000
  type i64 = x: int | -0x8000_0000_0000_0000 <= x < 0x8000_0000_0000_0000

  /// Big-endian integers

  /** The low `w` bytes of `n`, the most significant first. */
  function BigEndian(n: nat, w: nat): (b: Bytes)
    ensures |b| == w
    decreases w
  {
    if w == 0 then [] else BigEndian(n / 256, w - 1) + [(n % 256) as byte]
  }

  function FromBigEndian(b: Bytes): (n: nat)
    decreases |b|
  {
    if b == [] then 0 else FromBigEndian(b[..|b| - 1]) * 256 + b[|b| - 1] as int
  }

  function Pow256(w: nat): (n: nat) {
    if w == 0 then 1 else 256 * Pow256(w - 1)
  }

  lemma {:induction false} BigEndianRoundTrip(n: nat, w: nat)
    requires n < Pow256(w)
    ensures FromBigEndian(BigEndian(n, w)) == n
    decreases w
  {
    if w > 0 {
      BigEndianRoundTrip(n / 256, w - 1);
      assert BigEndian(n, w)[..w - 1] == BigEndian(n / 256, w - 1);
    }
  }

  lemma Widths()
    ensures Pow256(4) == TWO_32 && Pow256(8) == TWO_64
  {
    assert Pow256(2) == 0x1_0000;
    assert Pow256(4) == TWO_32;
    assert Pow256(6) == 0x1_0000_0000_0000;
  }

  /// Fields

  datatype Field = Blob(v: Bytes) | Word32(n: u32) | Word64(m: u64) | Count(k: int)

  datatype Kind = BlobKind | Word32Kind | Word64Kind | CountKind

  function KindOf(f: Field): (k: Kind) {
    match f
    case Blob(_) => BlobKind
    case Word32(_) => Word32Kind
    case Word64(_) => Word64Kind
    case Count(_) => CountKind
  }

  /** Whether the builder accepts a field. */
  predicate Framable(f: Field) {
    match f
    case Blob(v) => |v| <= MAX_FIELD_BYTES
    case Count(k) => 0 <= k <= MAX_FIELD_BYTES
    case _ => true
  }

  function Encoded(f: Field): (b: Bytes)
    requires Framable(f)
  {
    match f
    case Blob(v) => BigEndian(|v|, 4) + v
    case Word32(n) => BigEndian(n, 4)
    case Word64(m) => BigEndian(m, 8)
    case Count(k) => BigEndian(k, 4)
  }

  predicate AllFramable(fs: seq<Field>) {
    forall i :: 0 <= i < |fs| ==> Framable(fs[i])
  }

  function EncodedAll(fs: seq<Field>): (b: Bytes)
    requires AllFramable(fs)
    decreases |fs|
  {
    if fs == [] then [] else EncodedAll(fs[..|fs| - 1]) + Encoded(fs[|fs| - 1])
  }

  /** The preimage of a list of fields; none when some field cannot be framed. */
  function Preimage(fs: seq<Field>): (r: Option<Bytes>) {
    if AllFramable(fs) then Some(EncodedAll(fs)) else None
  }

  /// The bounded builder

  class Buf {
    var out: Bytes
    var failed: bool
    /** Every field appended so far, the refused ones included. */
    ghost var fields: seq<Field>

    ghost predicate Valid()
      reads this
    {
      && (failed <==> !AllFramable(fields))
      && (!failed ==> out == EncodedAll(fields))
    }

    constructor ()
      ensures Valid() && fields == []
    {
      out, failed, fields := [], false, [];
    }

    ghost method Noted(f: Field)
      requires failed <==> !AllFramable(fields) || !Framable(f)
      requires !failed ==> out == EncodedAll(fields) + Encoded(f)
      modifies this`fields
      ensures Valid() && fields == old(fields) + [f]
    {
      assert (fields + [f])[..|fields|] == fields;
      assert AllFramable(fields + [f]) <==> AllFramable(fields) && Framable(f) by {
        assert forall i :: 0 <= i < |fields| ==> (fields + [f])[i] == fields[i];
        assert (fields + [f])[|fields|] == f;
      }
      fields := fields + [f];
    }

    method Bytes(v: Bytes)
      requires Valid()
      modifies this
      ensures Valid() && fields == old(fields) + [Blob(v)]
    {
      if !failed {
        if |v| > MAX_FIELD_BYTES {
          failed := true;
        } else {
          Associates(out, BigEndian(|v|, 4), v);
          out := out + BigEndian(|v|, 4);
          out := out + v;
        }
      }
      Noted(Blob(v));
    }

    method Uint32(n: u32)
      requires Valid()
      modifies this
      ensures Valid() && fields == old(fields) + [Word32(n)]
    {
      if !failed {
        out := out + BigEndian(n, 4);
      }
      Noted(Word32(n));
    }

    method Uint64(n: u64)
      requires Valid()
      modifies this
      ensures Valid() && fields == old(fields) + [Word64(n)]
    {
      if !failed {
        out := out + BigEndian(n, 8);
      }
      Noted(Word64(n));
    }

    /** The two's-complement reading of an `int32`. */
    method Enum(v: i32)
      requires Valid()
      modifies this
      ensures Valid() && fields == old(fields) + [Word32(v % TWO_32)]
    {
      Uint32(v % TWO_32);
    }

    method Height(v: i64)
      requires Valid()
      modifies this
      ensures Valid() && fields == old(fields) + [Word64(v % TWO_64)]
    {
      Uint64(v % TWO_64);
    }

    method Len(k: int)
      requires Valid()
      modifies this
      ensures Valid() && fields == old(fields) + [Count(k)]
    {
      if !failed {
        if k < 0 || k > MAX_FIELD_BYTES {
          failed := true;
        } else {
          out := out + BigEndian(k, 4);
        }
      }
      Noted(Count(k));
    }

    /** Succeeds exactly when every field could be framed. */
    method Finish() returns (r: Option<Bytes>)
      requires Valid()
      ensures r == Preimage(fields)
    {
      r := if failed then None else Some(out);
    }
  }

  /// The unbounded builder

  class Fixed {
    var out: Bytes

    constructor ()
      ensures out == []
    {
      out := [];
    }

    method Raw(v: Bytes)
      modifies this
      ensures out == old(out) + v
    {
      out := out + v;
    }

    method Bytes(v: Bytes)
      modifies this
      ensures out == old(out) + Prefixed(v)
    {
      Associates(out, BigEndian(|v|, 8), v);
      out := out + BigEndian(|v|, 8);
      out := out + v;
    }

    /** A negative count is clamped to zero. */
    method Count(k: int)
      modifies this
      ensures out == old(out) + BigEndian(if k < 0 then 0 else k, 8)
    {
      out := out + BigEndian(if k < 0 then 0 else k, 8);
    }

    method Bytes64Slice(vs: seq<Bytes>)
      modifies this
      ensures out == old(out) + SliceList(vs)
    {
      Count(|vs|);
      ghost var base := out;
      assert base + [] == base;
      for k := 0 to |vs|
        invariant out == base + PrefixedAll(vs[..k])
      {
        Bytes(vs[k]);
        assert vs[..k + 1][..k] == vs[..k];
        Associates(base, PrefixedAll(vs[..k]), Prefixed(vs[k]));
      }
      assert vs[..|vs|] == vs;
      Associates(old(out), BigEndian(|vs|, 8), PrefixedAll(vs));
    }
  }

  function PrefixedAll(vs: seq<Bytes>): (b: Bytes)
    decreases |vs|
  {
    if vs == [] then [] else PrefixedAll(vs[..|vs| - 1]) + Prefixed(vs[|vs| - 1])
  }

  /** What `Bytes64Slice` appends: the count, then each slice with its length. */
  function SliceList(vs: seq<Bytes>): (b: Bytes) {
    BigEndian(|vs|, 8) + PrefixedAll(vs)
  }

  /** uint64(len(v)) || v. */
  function Prefixed(v: Bytes): (b: Bytes) {
    BigEndian(|v|, 8) + v
  }

  /// Parsing

  function ParseBlob(width: nat, b: Bytes): (r: Option<(Bytes, Bytes)>) {
    if |b| < width then None
    else
      var n := FromBigEndian(b[..width]);
      if |b| < width + n then None else Some((b[width..width + n], b[width + n..]))
  }

  function Parse(k: Kind, b: Bytes): (r: Option<(Field, Bytes)>) {
    match k
    case BlobKind =>
      (match ParseBlob(4, b) case Some((v, rest)) => Some((Blob(v), rest)) case None => None)
    case Word32Kind =>
      if |b| < 4 || FromBigEndian(b[..4]) >= TWO_32 then None else Some((Word32(FromBigEndian(b[..4])), b[4..]))
    case Word64Kind =>
      if |b| < 8 || FromBigEndian(b[..8]) >= TWO_64 then None else Some((Word64(FromBigEndian(b[..8])), b[8..]))
    case CountKind =>
      if |b| < 4 then None else Some((Count(FromBigEndian(b[..4])), b[4..]))
  }

  lemma ParseBlobRoundTrip(width: nat, v: Bytes, rest: Bytes)
    requires |v| < Pow256(width)
    ensures ParseBlob(width, BigEndian(|v|, width) + v + rest) == Some((v, rest))
  {
    BigEndianRoundTrip(|v|, width);
    var b := BigEndian(|v|, width) + v + rest;
    assert b[..width] == BigEndian(|v|, width);
    assert b[width..width + |v|] == v && b[width + |v|..] == rest;
  }

  lemma ParseRoundTrip(f: Field, rest: Bytes)
    requires Framable(f)
    ensures Parse(KindOf(f), Encoded(f) + rest) == Some((f, rest))
  {
    Widths();
    match f
    case Blob(v) =>
      ParseBlobRoundTrip(4, v, rest);
    case Word32(n) =>
      BigEndianRoundTrip(n, 4);
      assert (BigEndian(n, 4) + rest)[..4] == BigEndian(n, 4) && (BigEndian(n, 4) + rest)[4..] == rest;
    case Word64(m) =>
      BigEndianRoundTrip(m, 8);
      assert (BigEndian(m, 8) + rest)[..8] == BigEndian(m, 8) && (BigEndian(m, 8) + rest)[8..] == rest;
    case Count(k) =>
      BigEndianRoundTrip(k, 4);
      assert (BigEndian(k, 4) + rest)[..4] == BigEndian(k, 4) && (BigEndian(k, 4) + rest)[4..] == rest;
  }

  /** Fields of the given kinds, one after the other, and what follows them. */
  function ParseAll(kinds: seq<Kind>, b: Bytes): (r: Option<(seq<Field>, Bytes)>)
    ensures r.Some? ==> |r.value.0| == |kinds|
    decreases |kinds|
  {
    if kinds == [] then Some(([], b))
    else
      match Parse(kinds[0], b)
      case None => None
      case Some((f, rest)) =>
        match ParseAll(kinds[1..], rest)
        case None => None
        case Some((fs, end)) => Some(([f] + fs, end))
  }

  function KindsOf(fs: seq<Field>): (ks: seq<Kind>) {
    seq(|fs|, i requires 0 <= i < |fs| => KindOf(fs[i]))
  }

  lemma EncodedSnoc(fs: seq<Field>, f: Field)
    requires AllFramable(fs) && Framable(f)
    ensures AllFramable(fs + [f]) && EncodedAll(fs + [f]) == EncodedAll(fs) + Encoded(f)
  {
    assert (fs + [f])[..|fs|] == fs;
  }

  lemma {:induction false} EncodedConcat(fs: seq<Field>, gs: seq<Field>)
    requires AllFramable(fs) && AllFramable(gs)
    ensures AllFramable(fs + gs) && EncodedAll(fs + gs) == EncodedAll(fs) + EncodedAll(gs)
    decreases |gs|
  {
    if gs == [] {
      assert fs + gs == fs;
      assert EncodedAll(fs) + [] == EncodedAll(fs);
    } else {
      var init, last := gs[..|gs| - 1], gs[|gs| - 1];
      assert gs == init + [last];
      ConcatSnoc(fs, init, last);
    }
  }

  lemma {:induction false} ConcatSnoc(fs: seq<Field>, gs: seq<Field>, f: Field)
    requires AllFramable(fs) && AllFramable(gs) && Framable(f)
    ensures AllFramable(fs + (gs + [f])) && EncodedAll(fs + (gs + [f])) == EncodedAll(fs) + EncodedAll(gs + [f])
    decreases |gs| + 1, 0
  {
    EncodedConcat(fs, gs);
    EncodedSnoc(fs + gs, f);
    EncodedSnoc(gs, f);
    Associates(fs, gs, [f]);
    Associates(EncodedAll(fs), EncodedAll(gs), Encoded(f));
  }

  lemma EncodedOne(f: Field)
    requires Framable(f)
    ensures EncodedAll([f]) == Encoded(f)
  {
    assert [f][..0] == [];
    assert EncodedAll([f]) == EncodedAll([]) + Encoded(f);
  }

  /** What follows a list of fields never changes how the list is read. */
  lemma {:induction false} ParseAllRoundTrip(fs: seq<Field>, rest: Bytes)
    requires AllFramable(fs)
    ensures ParseAll(KindsOf(fs), EncodedAll(fs) + rest) == Some((fs, rest))
    decreases |fs|
  {
    if fs == [] {
      assert EncodedAll(fs) + rest == rest;
    } else {
      var f, tail := fs[0], fs[1..];
      assert fs == [f] + tail;
      EncodedOne(f);
      EncodedConcat([f], tail);
      Associates(Encoded(f), EncodedAll(tail), rest);
      ParseRoundTrip(f, EncodedAll(tail) + rest);
      KindsTail(fs);
      ParseAllRoundTrip(tail, rest);
    }
  }

  lemma KindsTail(fs: seq<Field>)
    requires fs != []
    ensures KindsOf(fs) != [] && KindsOf(fs)[0] == KindOf(fs[0]) && KindsOf(fs)[1..] == KindsOf(fs[1..])
  {
  }

  function ParseSlices(n: nat, b: Bytes): (r: Option<(seq<Bytes>, Bytes)>)
    decreases n
  {
    if n == 0 then Some(([], b))
    else
      match ParseBlob(8, b)
      case None => None
      case Some((v, rest)) =>
        match ParseSlices(n - 1, rest)
        case None => None
        case Some((vs, end)) => Some(([v] + vs, end))
  }

  lemma {:induction false} PrefixedFirst(v: Bytes, vs: seq<Bytes>)
    ensures PrefixedAll([v] + vs) == Prefixed(v) + PrefixedAll(vs)
    decreases |vs|
  {
    var all := [v] + vs;
    if vs == [] {
      assert all[..0] == [] && PrefixedAll(all) == [] + Prefixed(v);
    } else {
      var init, last := vs[..|vs| - 1], vs[|vs| - 1];
      assert all[..|all| - 1] == [v] + init;
      PrefixedFirst(v, init);
      Associates(Prefixed(v), PrefixedAll(init), Prefixed(last));
    }
  }

  lemma {:induction false} SlicesRoundTrip(vs: seq<Bytes>, rest: Bytes)
    requires forall i :: 0 <= i < |vs| ==> |vs[i]| < TWO_64
    ensures ParseSlices(|vs|, PrefixedAll(vs) + rest) == Some((vs, rest))
    decreases |vs|
  {
    if vs == [] {
      assert PrefixedAll(vs) + rest == rest;
    } else {
      var v, tail := vs[0], vs[1..];
      assert vs == [v] + tail;
      PrefixedFirst(v, tail);
      Associates(Prefixed(v), PrefixedAll(tail), rest);
      Widths();
      ParseBlobRoundTrip(8, v, PrefixedAll(tail) + rest);
      SlicesRoundTrip(tail, rest);
    }
  }

  function ParseSliceList(b: Bytes): (r: Option<(seq<Bytes>, Bytes)>) {
    if |b| < 8 then None else ParseSlices(FromBigEndian(b[..8]), b[8..])
  }

  /** A proof path cannot be re-framed: the bytes give back the slices, their number included, and what follows. */
  lemma SliceListRoundTrip(vs: seq<Bytes>, rest: Bytes)
    requires |vs| < TWO_64 && forall i :: 0 <= i < |vs| ==> |vs[i]| < TWO_64
    ensures ParseSliceList(SliceList(vs) + rest) == Some((vs, rest))
  {
    var count := BigEndian(|vs|, 8);
    Widths();
    BigEndianRoundTrip(|vs|, 8);
    Associates(count, PrefixedAll(vs), rest);
    assert (count + (PrefixedAll(vs) + rest))[..8] == count;
    assert (count + (PrefixedAll(vs) + rest))[8..] == PrefixedAll(vs) + rest;
    SlicesRoundTrip(vs, rest);
  }
}
