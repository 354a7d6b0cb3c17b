/**
  The 8-to-5 bit regrouper of indexer/accounts.go. Its accumulator is a `uint32` that is shifted
  left by eight for every byte and never masked, so the bits already emitted wrap away at the top.
  The specification is on bit strings: regrouping keeps the bit string and pads it with zeros.
 */
module Regroup {
  import opened Prelude

  function Bits8(b: bv8): (s: seq<bool>) {
    [b & 0x80 != 0, b & 0x40 != 0, b & 0x20 != 0, b & 0x10 != 0, b & 8 != 0, b & 4 != 0, b & 2 != 0, b & 1 != 0]
  }

  function Bits5(v: bv5): (s: seq<bool>) {
    [v & 16 != 0, v & 8 != 0, v & 4 != 0, v & 2 != 0, v & 1 != 0]
  }

  function ByteBits(data: seq<bv8>): (s: seq<bool>)
    ensures |s| == 8 * |data|
  {
    if data == [] then [] else ByteBits(data[..|data| - 1]) + Bits8(data[|data| - 1])
  }

  function SymbolBits(out: seq<bv5>): (s: seq<bool>)
    ensures |s| == 5 * |out|
  {
    if out == [] then [] else SymbolBits(out[..|out| - 1]) + Bits5(out[|out| - 1])
  }

  /** The low `k` bits of a word, the most significant first. */
  function Pending(w: bv32, k: nat): (s: seq<bool>)
    ensures |s| == k
    decreases k
  {
    if k == 0 then [] else Pending(w >> 1, k - 1) + [w & 1 != 0]
  }

  /** `w >> n`, one place at a time. */
  function ShiftRight(w: bv32, n: nat): (r: bv32)
    decreases n
  {
    if n == 0 then w else ShiftRight(w >> 1, n - 1)
  }

  function ShiftLeft(w: bv32, n: nat): (r: bv32)
    decreases n
  {
    if n == 0 then w else ShiftLeft(w << 1, n - 1)
  }

  /** Shifting right by `n` keeps the bits above the lowest `n`. */
  lemma {:induction false} PendingSplit(w: bv32, k: nat, n: nat)
    ensures Pending(w, k + n) == Pending(ShiftRight(w, n), k) + Pending(w, n)
    decreases n
  {
    if n > 0 {
      PendingSplit(w >> 1, k, n - 1);
      Associates(Pending(ShiftRight(w >> 1, n - 1), k), Pending(w >> 1, n - 1), [w & 1 != 0]);
    } else {
      assert Pending(w, k) + [] == Pending(w, k);
    }
  }

  /** The mask `m` has its low `k` bits set. */
  predicate Keeps(m: bv32, k: nat)
    decreases k
  {
    k == 0 || (m & 1 == 1 && Keeps(m >> 1, k - 1))
  }

  lemma MaskStep(w: bv32, m: bv32)
    ensures (w & m) >> 1 == (w >> 1) & (m >> 1)
    ensures (w & m) & 1 == (w & 1) & (m & 1)
  {
  }

  lemma {:induction false} PendingMasked(w: bv32, m: bv32, k: nat)
    requires Keeps(m, k)
    ensures Pending(w & m, k) == Pending(w, k)
    decreases k
  {
    if k > 0 {
      MaskStep(w, m);
      PendingMasked(w >> 1, m >> 1, k - 1);
      BitOfMasked(w, m);
    }
  }

  lemma BitOfMasked(w: bv32, m: bv32)
    requires m & 1 == 1
    ensures ((w & m) & 1 != 0) == (w & 1 != 0)
  {
    MaskStep(w, m);
  }

  lemma ShiftedOut(acc: bv32, b: bv8)
    ensures ((acc << 8) | (b as bv32)) >> 1 >> 1 >> 1 >> 1 >> 1 >> 1 >> 1 >> 1 == acc & 0xffffff
    ensures (acc << 1) >> 1 == acc & 0x7fffffff
    ensures (acc << 1) & 1 == 0
  {
  }

  lemma MasksKeep(k: nat)
    requires k <= 4
    ensures Keeps(0xffffff, k) && Keeps(0x7fffffff, k)
  {
    assert Keeps(0xfffff, 0) && Keeps(0x1fffff, 1) && Keeps(0x3fffff, 2) && Keeps(0x7fffff, 3) && Keeps(0xffffff, 4);
  }

  lemma FourMasks(w: bv32)
    ensures ((w >> 1) & 1 != 0) == (w & 2 != 0)
    ensures ((w >> 1 >> 1) & 1 != 0) == (w & 4 != 0)
    ensures ((w >> 1 >> 1 >> 1) & 1 != 0) == (w & 8 != 0)
  {
  }

  lemma PendingFour(w: bv32)
    ensures Pending(w, 4) == [w & 8 != 0, w & 4 != 0, w & 2 != 0, w & 1 != 0]
  {
    FourMasks(w);
    assert Pending(w >> 1 >> 1, 2) == [(w >> 1 >> 1 >> 1) & 1 != 0, (w >> 1 >> 1) & 1 != 0];
  }

  lemma ShiftRightFour(w: bv32)
    ensures ShiftRight(w, 4) == w >> 1 >> 1 >> 1 >> 1
  {
    assert ShiftRight(w >> 1 >> 1, 2) == w >> 1 >> 1 >> 1 >> 1;
  }

  lemma ShiftRightEight(w: bv32)
    ensures ShiftRight(w, 8) == w >> 1 >> 1 >> 1 >> 1 >> 1 >> 1 >> 1 >> 1
  {
    var x := w >> 1 >> 1 >> 1 >> 1;
    ShiftRightFour(x);
    assert ShiftRight(w >> 1 >> 1, 6) == ShiftRight(x, 4);
  }

  lemma LowNibbleMasks(acc: bv32, b: bv8)
    ensures (((acc << 8) | (b as bv32)) & 1 != 0) == (b & 1 != 0)
    ensures (((acc << 8) | (b as bv32)) & 2 != 0) == (b & 2 != 0)
    ensures (((acc << 8) | (b as bv32)) & 4 != 0) == (b & 4 != 0)
    ensures (((acc << 8) | (b as bv32)) & 8 != 0) == (b & 8 != 0)
  {
  }

  lemma HighNibbleMasks(acc: bv32, b: bv8)
    ensures ((((acc << 8) | (b as bv32)) >> 1 >> 1 >> 1 >> 1) & 1 != 0) == (b & 16 != 0)
    ensures ((((acc << 8) | (b as bv32)) >> 1 >> 1 >> 1 >> 1) & 2 != 0) == (b & 32 != 0)
    ensures ((((acc << 8) | (b as bv32)) >> 1 >> 1 >> 1 >> 1) & 4 != 0) == (b & 64 != 0)
    ensures ((((acc << 8) | (b as bv32)) >> 1 >> 1 >> 1 >> 1) & 8 != 0) == (b & 128 != 0)
  {
  }

  lemma LowNibble(acc: bv32, b: bv8)
    ensures Pending((acc << 8) | (b as bv32), 4) == [b & 8 != 0, b & 4 != 0, b & 2 != 0, b & 1 != 0]
  {
    PendingFour((acc << 8) | (b as bv32));
    LowNibbleMasks(acc, b);
  }

  lemma HighNibble(acc: bv32, b: bv8)
    ensures Pending(((acc << 8) | (b as bv32)) >> 1 >> 1 >> 1 >> 1, 4)
         == [b & 0x80 != 0, b & 0x40 != 0, b & 0x20 != 0, b & 0x10 != 0]
  {
    PendingFour(((acc << 8) | (b as bv32)) >> 1 >> 1 >> 1 >> 1);
    HighNibbleMasks(acc, b);
  }

  lemma PendingByte(acc: bv32, b: bv8)
    ensures Pending((acc << 8) | (b as bv32), 8) == Bits8(b)
  {
    var w := (acc << 8) | (b as bv32);
    PendingSplit(w, 4, 4);
    ShiftRightFour(w);
    LowNibble(acc, b);
    HighNibble(acc, b);
  }

  /** A byte shifted in from the right appends its bits; what leaves at the top is not pending. */
  lemma Absorb(acc: bv32, k: nat, b: bv8)
    requires k <= 4
    ensures Pending((acc << 8) | (b as bv32), k + 8) == Pending(acc, k) + Bits8(b)
  {
    var w := (acc << 8) | (b as bv32);
    PendingSplit(w, k, 8);
    ShiftRightEight(w);
    ShiftedOut(acc, b);
    MasksKeep(k);
    PendingMasked(acc, 0xffffff, k);
    PendingByte(acc, b);
  }

  lemma SymbolMasks(w: bv32)
    ensures (((w & 31) as bv5) & 1 != 0) == (w & 1 != 0)
    ensures (((w & 31) as bv5) & 2 != 0) == (w & 2 != 0)
    ensures (((w & 31) as bv5) & 4 != 0) == (w & 4 != 0)
    ensures (((w & 31) as bv5) & 8 != 0) == (w & 8 != 0)
    ensures (((w & 31) as bv5) & 16 != 0) == ((w >> 1 >> 1 >> 1 >> 1) & 1 != 0)
  {
  }

  lemma PendingSymbol(w: bv32)
    ensures Pending(w, 5) == Bits5((w & 31) as bv5)
  {
    SymbolMasks(w);
    PendingSplit(w, 1, 4);
    ShiftRightFour(w);
    PendingFour(w);
  }

  /** The symbol the regrouper emits when `k` bits are pending. */
  function TopFive(acc: bv32, k: nat): (v: bv5)
    requires k >= 5
  {
    (ShiftRight(acc, k - 5) & 31) as bv5
  }

  /** Taking the top five pending bits leaves the others pending. */
  lemma Emit(acc: bv32, k: nat)
    requires k >= 5
    ensures Bits5(TopFive(acc, k)) + Pending(acc, k - 5) == Pending(acc, k)
  {
    PendingSplit(acc, 5, k - 5);
    PendingSymbol(ShiftRight(acc, k - 5));
  }

  /** The symbol that carries the last `k` bits and its padding. */
  function LastFive(acc: bv32, k: nat): (v: bv5)
    requires 1 <= k <= 4
  {
    (ShiftLeft(acc, 5 - k) & 31) as bv5
  }

  function Falses(n: nat): (s: seq<bool>)
    ensures |s| == n
  {
    seq(n, i => false)
  }

  lemma PendingDouble(acc: bv32, k: nat)
    requires k <= 4
    ensures Pending(acc << 1, k + 1) == Pending(acc, k) + [false]
  {
    ShiftedOut(acc, 0);
    MasksKeep(k);
    PendingMasked(acc, 0x7fffffff, k);
  }

  lemma {:induction false} PendingShiftLeft(acc: bv32, k: nat, n: nat)
    requires k + n <= 5
    ensures Pending(ShiftLeft(acc, n), k + n) == Pending(acc, k) + Falses(n)
    decreases n
  {
    if n > 0 {
      PendingShiftLeft(acc << 1, k + 1, n - 1);
      PendingDouble(acc, k);
      assert [false] + Falses(n - 1) == Falses(n);
      Associates(Pending(acc, k), [false], Falses(n - 1));
    }
  }

  lemma EmitLast(acc: bv32, k: nat)
    requires 1 <= k <= 4
    ensures Bits5(LastFive(acc, k)) == Pending(acc, k) + Falses(5 - k)
  {
    PendingShiftLeft(acc, k, 5 - k);
    PendingSymbol(ShiftLeft(acc, 5 - k));
  }

  lemma BitsOfSnoc(out: seq<bv5>, v: bv5)
    ensures SymbolBits(out + [v]) == SymbolBits(out) + Bits5(v)
  {
    assert (out + [v])[..|out|] == out;
  }

  lemma EmitStep(out: seq<bv5>, acc: bv32, k: nat)
    requires 5 <= k
    ensures SymbolBits(out + [TopFive(acc, k)]) + Pending(acc, k - 5) == SymbolBits(out) + Pending(acc, k)
  {
    BitsOfSnoc(out, TopFive(acc, k));
    Emit(acc, k);
    Associates(SymbolBits(out), Bits5(TopFive(acc, k)), Pending(acc, k - 5));
  }

  method EmitAll(start: seq<bv5>, acc: bv32, pending: nat) returns (out: seq<bv5>, bits: nat)
    requires 8 <= pending <= 12
    ensures bits <= 4 && 5 * |out| + bits == 5 * |start| + pending
    ensures SymbolBits(out) + Pending(acc, bits) == SymbolBits(start) + Pending(acc, pending)
  {
    out, bits := start, pending;
    while bits >= 5
      invariant bits <= 12 && 5 * |out| + bits == 5 * |start| + pending
      invariant SymbolBits(out) + Pending(acc, bits) == SymbolBits(start) + Pending(acc, pending)
    {
      EmitStep(out, acc, bits);
      out := out + [TopFive(acc, bits)];
      bits := bits - 5;
    }
  }

  lemma AbsorbStep(out: seq<bv5>, acc: bv32, k: nat, data: seq<bv8>, b: bv8)
    requires k <= 4 && SymbolBits(out) + Pending(acc, k) == ByteBits(data)
    ensures SymbolBits(out) + Pending((acc << 8) | (b as bv32), k + 8) == ByteBits(data + [b])
  {
    Absorb(acc, k, b);
    Associates(SymbolBits(out), Pending(acc, k), Bits8(b));
    assert (data + [b])[..|data|] == data;
  }

  lemma PadStep(out: seq<bv5>, acc: bv32, k: nat)
    requires 1 <= k <= 4
    ensures SymbolBits(out + [LastFive(acc, k)]) == SymbolBits(out) + Pending(acc, k) + Falses(5 - k)
  {
    BitsOfSnoc(out, LastFive(acc, k));
    EmitLast(acc, k);
    Associates(SymbolBits(out), Pending(acc, k), Falses(5 - k));
  }

  method Absorbed(acc: bv32, start: seq<bv5>, pending: nat, ghost data: seq<bv8>, b: bv8)
    returns (acc': bv32, out: seq<bv5>, bits: nat)
    requires pending <= 4 && SymbolBits(start) + Pending(acc, pending) == ByteBits(data)
    ensures bits <= 4 && 5 * |out| + bits == 5 * |start| + pending + 8
    ensures SymbolBits(out) + Pending(acc', bits) == ByteBits(data + [b])
  {
    AbsorbStep(start, acc, pending, data, b);
    acc' := (acc << 8) | (b as bv32);
    out, bits := EmitAll(start, acc', pending + 8);
  }

  /** Regroups bytes into 5-bit symbols: ceil(8n/5) of them, holding the same bits and zero padding. */
  method ConvertBits8to5(data: seq<bv8>) returns (out: seq<bv5>)
    ensures IsRegrouping(data, out)
  {
    out := [];
    var acc: bv32, bits: nat := 0, 0;
    for i := 0 to |data|
      invariant bits <= 4 && 5 * |out| + bits == 8 * i
      invariant SymbolBits(out) + Pending(acc, bits) == ByteBits(data[..i])
    {
      assert data[..i + 1] == data[..i] + [data[i]];
      acc, out, bits := Absorbed(acc, out, bits, data[..i], data[i]);
    }
    assert data[..|data|] == data;
    out := Pad(out, acc, bits);
  }

  method Pad(start: seq<bv5>, acc: bv32, bits: nat) returns (out: seq<bv5>)
    requires bits <= 4
    ensures |out| == |start| + (if bits > 0 then 1 else 0)
    ensures SymbolBits(out) == SymbolBits(start) + Pending(acc, bits) + Falses(if bits > 0 then 5 - bits else 0)
  {
    out := start;
    if bits > 0 {
      PadStep(out, acc, bits);
      out := out + [LastFive(acc, bits)];
    }
  }

  /// The inverse

  predicate IsRegrouping(data: seq<bv8>, out: seq<bv5>) {
    && |out| == (8 * |data| + 4) / 5
    && SymbolBits(out) == ByteBits(data) + Falses(5 * |out| - 8 * |data|)
  }

  function FromBits8(s: seq<bool>): (b: bv8)
    requires |s| == 8
  {
    (if s[0] then 0x80 else 0) | (if s[1] then 0x40 else 0) | (if s[2] then 0x20 else 0) | (if s[3] then 0x10 else 0)
    | (if s[4] then 8 else 0) | (if s[5] then 4 else 0) | (if s[6] then 2 else 0) | (if s[7] then 1 else 0)
  }

  /** Cuts a bit string into bytes, dropping what is left over at the end. */
  function FromBits(s: seq<bool>): (data: seq<bv8>)
    ensures |data| == |s| / 8
  {
    seq(|s| / 8, i requires 0 <= i < |s| / 8 => FromBits8(s[8 * i..8 * i + 8]))
  }

  /** Symbols back to whole bytes, without the padding. */
  function Ungroup(out: seq<bv5>): (data: seq<bv8>) {
    FromBits(SymbolBits(out))
  }

  lemma ByteRoundTrip(b: bv8)
    ensures FromBits8(Bits8(b)) == b
  {
  }

  lemma {:induction false} ByteBitsAt(data: seq<bv8>, i: nat)
    requires i < |data|
    ensures ByteBits(data)[8 * i..8 * i + 8] == Bits8(data[i])
    decreases |data|
  {
    var n := |data| - 1;
    if i < n {
      ByteBitsAt(data[..n], i);
      PrefixSlice(ByteBits(data[..n]), Bits8(data[n]), 8 * i, 8 * i + 8);
    }
  }

  lemma PrefixSlice<T>(s: seq<T>, t: seq<T>, a: nat, b: nat)
    requires a <= b <= |s|
    ensures (s + t)[a..b] == s[a..b]
  {
  }

  lemma FromBitsOfBytes(data: seq<bv8>, pad: seq<bool>)
    requires |pad| < 8
    ensures FromBits(ByteBits(data) + pad) == data
  {
    forall i | 0 <= i < |data| ensures FromBits(ByteBits(data) + pad)[i] == data[i] {
      ByteBitsAt(data, i);
      PrefixSlice(ByteBits(data), pad, 8 * i, 8 * i + 8);
      ByteRoundTrip(data[i]);
    }
  }

  /** Regrouping loses nothing, whatever wrapped out of the accumulator. */
  lemma RegroupRoundTrip(data: seq<bv8>, out: seq<bv5>)
    requires IsRegrouping(data, out)
    ensures Ungroup(out) == data
  {
    FromBitsOfBytes(data, Falses(5 * |out| - 8 * |data|));
  }
}
