/**
  The bech32 encoder of indexer/accounts.go: the BIP-173 checksum polynomial, the 8-to-5 bit
  regrouper with its 32-bit accumulator, and the rendered address.

  Bytes and machine words are bit-vectors, as they are in the encoder. The specification of the
  checksum works on the six 5-bit coefficients that the 30-bit register packs.
 */
module Bech32 {

  /// The checksum register

  /** The polynomial register: six coefficients over GF(32), the most significant first. */
  datatype Register = Register(c5: bv5, c4: bv5, c3: bv5, c2: bv5, c1: bv5, c0: bv5)

  const ZERO := Register(0, 0, 0, 0, 0, 0)
  const ONE := Register(0, 0, 0, 0, 0, 1)

  /** The register as the `uint32` that holds it. */
  function Pack(r: Register): (w: bv32) {
    ((r.c5 as bv32) << 25) | ((r.c4 as bv32) << 20) | ((r.c3 as bv32) << 15)
    | ((r.c2 as bv32) << 10) | ((r.c1 as bv32) << 5) | (r.c0 as bv32)
  }

  function Symbols(r: Register): (s: seq<bv5>) {
    [r.c5, r.c4, r.c3, r.c2, r.c1, r.c0]
  }

  function Plus(r: Register, s: Register): (t: Register) {
    Register(r.c5 ^ s.c5, r.c4 ^ s.c4, r.c3 ^ s.c3, r.c2 ^ s.c2, r.c1 ^ s.c1, r.c0 ^ s.c0)
  }

  const GENERATOR: seq<bv32> := [0x3b6a57b2, 0x26508e6d, 0x1ea119fa, 0x3d4233dd, 0x2a1462b3]

  /** The generator words of `GENERATOR`, unpacked. */
  function Generator(i: nat): (g: Register)
    requires i < 5
  {
    if i == 0 then Register(29, 22, 20, 21, 29, 18)
    else if i == 1 then Register(19, 5, 1, 3, 19, 13)
    else if i == 2 then Register(15, 10, 2, 6, 15, 26)
    else if i == 3 then Register(30, 20, 4, 12, 30, 29)
    else Register(21, 1, 8, 24, 21, 19)
  }

  predicate Selected(top: bv5, i: nat)
    requires i < 5
  {
    top & (if i == 0 then 1 else if i == 1 then 2 else if i == 2 then 4 else if i == 3 then 8 else 16) != 0
  }

  function Tap(top: bv5, i: nat): (r: Register)
    requires i < 5
  {
    if Selected(top, i) then Generator(i) else ZERO
  }

  /** Adds the generator words that the bits of `top` below `n` select. */
  function Reduced(r: Register, top: bv5, n: nat): (s: Register)
    requires n <= 5
  {
    if n == 0 then r else Plus(Reduced(r, top, n - 1), Tap(top, n - 1))
  }

  /** One symbol enters the register. */
  function Step(r: Register, v: bv5): (s: Register) {
    Reduced(Register(r.c4, r.c3, r.c2, r.c1, r.c0, v), r.c5, 5)
  }

  function PolymodFrom(r: Register, values: seq<bv5>): (s: Register)
    decreases |values|
  {
    if values == [] then r else PolymodFrom(Step(r, values[0]), values[1..])
  }

  /// Packing

  lemma PackPlus(r: Register, s: Register)
    ensures Pack(Plus(r, s)) == Pack(r) ^ Pack(s)
  {
  }

  lemma ShiftWords(a: bv5, b: bv5, c: bv5, d: bv5, e: bv5, f: bv5, v: bv5)
    ensures (((((a as bv32) << 25) | ((b as bv32) << 20) | ((c as bv32) << 15)
               | ((d as bv32) << 10) | ((e as bv32) << 5) | (f as bv32)) & 0x1ffffff) << 5) ^ (v as bv32)
         == ((b as bv32) << 25) | ((c as bv32) << 20) | ((d as bv32) << 15)
            | ((e as bv32) << 10) | ((f as bv32) << 5) | (v as bv32)
  {
  }

  lemma PackShift(r: Register, v: bv5)
    ensures ((Pack(r) & 0x1ffffff) << 5) ^ (v as bv32) == Pack(Register(r.c4, r.c3, r.c2, r.c1, r.c0, v))
  {
    ShiftWords(r.c5, r.c4, r.c3, r.c2, r.c1, r.c0, v);
  }

  lemma PackTop(r: Register)
    ensures Pack(r) >> 25 == r.c5 as bv32
  {
  }

  lemma TopBit(top: bv5, i: nat)
    requires i < 5
    ensures ((top as bv32) >> i) & 1 == 1 <==> Selected(top, i)
  {
    if i == 0 {
    } else if i == 1 {
    } else if i == 2 {
    } else if i == 3 {
    } else {
    }
  }

  lemma PackGenerator(i: nat)
    requires i < 5
    ensures Pack(Generator(i)) == GENERATOR[i]
  {
  }

  /** The register is a `uint32`; it always holds the packed specification register. */
  method Polymod(values: seq<bv5>) returns (chk: bv32)
    ensures chk == Pack(PolymodFrom(ONE, values))
  {
    chk := 1;
    ghost var r := ONE;
    for k := 0 to |values|
      invariant chk == Pack(r)
      invariant PolymodFrom(r, values[k..]) == PolymodFrom(ONE, values)
    {
      var top := chk >> 25;
      PackTop(r);
      PackShift(r, values[k]);
      chk := ((chk & 0x1ffffff) << 5) ^ (values[k] as bv32);
      chk := AddTaps(chk, top, Register(r.c4, r.c3, r.c2, r.c1, r.c0, values[k]), r.c5);
      r := Step(r, values[k]);
      assert values[k..][1..] == values[k + 1..];
    }
  }

  /** The inner loop of the polynomial: the generator words selected by the bits shifted out. */
  method AddTaps(start: bv32, top: bv32, ghost r: Register, ghost t: bv5) returns (chk: bv32)
    requires start == Pack(r) && top == t as bv32
    ensures chk == Pack(Reduced(r, t, 5))
  {
    chk := start;
    for i := 0 to 5
      invariant chk == Pack(Reduced(r, t, i))
    {
      TapStep(r, t, i);
      if (top >> i) & 1 == 1 {
        chk := chk ^ GENERATOR[i];
      }
    }
  }

  lemma PackWord(r: Register, g: Register, w: bv32)
    requires Pack(g) == w
    ensures Pack(Plus(r, g)) == Pack(r) ^ w
  {
    PackPlus(r, g);
  }

  lemma PackTap(r: Register, t: bv5, i: nat)
    requires i < 5
    ensures Pack(Plus(r, Tap(t, i))) == if Selected(t, i) then Pack(r) ^ GENERATOR[i] else Pack(r)
  {
    PackGenerator(i);
    PackWord(r, Generator(i), GENERATOR[i]);
    PlusZero(r);
  }

  lemma TapStep(r: Register, t: bv5, i: nat)
    requires i < 5
    ensures Pack(Reduced(r, t, i + 1))
         == if ((t as bv32) >> i) & 1 == 1 then Pack(Reduced(r, t, i)) ^ GENERATOR[i] else Pack(Reduced(r, t, i))
  {
    TopBit(t, i);
    PackTap(Reduced(r, t, i), t, i);
  }

  /// Linearity

  lemma XorPairs(a: bv5, b: bv5, c: bv5, d: bv5)
    ensures (a ^ b) ^ (c ^ d) == (a ^ c) ^ (b ^ d)
  {
  }

  lemma PlusPairs(a: Register, b: Register, c: Register, d: Register)
    ensures Plus(Plus(a, b), Plus(c, d)) == Plus(Plus(a, c), Plus(b, d))
  {
    HighPairs(a, b, c, d);
    LowPairs(a, b, c, d);
  }

  lemma HighPairs(a: Register, b: Register, c: Register, d: Register)
    ensures Plus(Plus(a, b), Plus(c, d)).c5 == Plus(Plus(a, c), Plus(b, d)).c5
    ensures Plus(Plus(a, b), Plus(c, d)).c4 == Plus(Plus(a, c), Plus(b, d)).c4
    ensures Plus(Plus(a, b), Plus(c, d)).c3 == Plus(Plus(a, c), Plus(b, d)).c3
  {
    XorPairs(a.c5, b.c5, c.c5, d.c5);
    XorPairs(a.c4, b.c4, c.c4, d.c4);
    XorPairs(a.c3, b.c3, c.c3, d.c3);
  }

  lemma LowPairs(a: Register, b: Register, c: Register, d: Register)
    ensures Plus(Plus(a, b), Plus(c, d)).c2 == Plus(Plus(a, c), Plus(b, d)).c2
    ensures Plus(Plus(a, b), Plus(c, d)).c1 == Plus(Plus(a, c), Plus(b, d)).c1
    ensures Plus(Plus(a, b), Plus(c, d)).c0 == Plus(Plus(a, c), Plus(b, d)).c0
  {
    XorPairs(a.c2, b.c2, c.c2, d.c2);
    XorPairs(a.c1, b.c1, c.c1, d.c1);
    XorPairs(a.c0, b.c0, c.c0, d.c0);
  }

  lemma PlusZero(r: Register)
    ensures Plus(r, ZERO) == r && Plus(ZERO, r) == r
  {
  }

  lemma PlusSelf(r: Register)
    ensures Plus(r, r) == ZERO
  {
  }

  lemma SelectedLinear(a: bv5, b: bv5, i: nat)
    requires i < 5
    ensures Selected(a ^ b, i) <==> Selected(a, i) != Selected(b, i)
  {
  }

  lemma TapLinear(a: bv5, b: bv5, i: nat)
    requires i < 5
    ensures Tap(a ^ b, i) == Plus(Tap(a, i), Tap(b, i))
  {
    SelectedLinear(a, b, i);
    PlusZero(Generator(i));
    PlusZero(ZERO);
    PlusSelf(Generator(i));
  }

  lemma {:induction false} ReducedLinear(r: Register, s: Register, a: bv5, b: bv5, n: nat)
    requires n <= 5
    ensures Reduced(Plus(r, s), a ^ b, n) == Plus(Reduced(r, a, n), Reduced(s, b, n))
  {
    if n > 0 {
      ReducedLinear(r, s, a, b, n - 1);
      TapLinear(a, b, n - 1);
      PlusPairs(Reduced(r, a, n - 1), Reduced(s, b, n - 1), Tap(a, n - 1), Tap(b, n - 1));
    }
  }

  lemma StepLinear(r: Register, s: Register, u: bv5, v: bv5)
    ensures Step(Plus(r, s), u ^ v) == Plus(Step(r, u), Step(s, v))
  {
    var r', s' := Register(r.c4, r.c3, r.c2, r.c1, r.c0, u), Register(s.c4, s.c3, s.c2, s.c1, s.c0, v);
    ReducedLinear(r', s', r.c5, s.c5, 5);
  }

  function PlusAll(xs: seq<bv5>, ys: seq<bv5>): (zs: seq<bv5>)
    requires |xs| == |ys|
    ensures |zs| == |xs|
  {
    seq(|xs|, i requires 0 <= i < |xs| => xs[i] ^ ys[i])
  }

  lemma {:induction false} PolymodLinear(r: Register, s: Register, xs: seq<bv5>, ys: seq<bv5>)
    requires |xs| == |ys|
    ensures PolymodFrom(Plus(r, s), PlusAll(xs, ys)) == Plus(PolymodFrom(r, xs), PolymodFrom(s, ys))
    decreases |xs|
  {
    if xs != [] {
      StepLinear(r, s, xs[0], ys[0]);
      assert PlusAll(xs, ys)[1..] == PlusAll(xs[1..], ys[1..]);
      PolymodLinear(Step(r, xs[0]), Step(s, ys[0]), xs[1..], ys[1..]);
    }
  }

  lemma {:induction false} PolymodConcat(r: Register, xs: seq<bv5>, ys: seq<bv5>)
    ensures PolymodFrom(r, xs + ys) == PolymodFrom(PolymodFrom(r, xs), ys)
    decreases |xs|
  {
    if xs == [] {
      assert xs + ys == ys;
    } else {
      assert (xs + ys)[1..] == xs[1..] + ys;
      PolymodConcat(Step(r, xs[0]), xs[1..], ys);
    }
  }

  function Zeros(n: nat): (z: seq<bv5>)
    ensures |z| == n
  {
    seq(n, i => 0)
  }

  lemma StepFromTopless(r: Register, v: bv5)
    requires r.c5 == 0
    ensures Step(r, v) == Register(r.c4, r.c3, r.c2, r.c1, r.c0, v)
  {
    ReducedZero(Register(r.c4, r.c3, r.c2, r.c1, r.c0, v), 5);
  }

  lemma {:induction false} ReducedZero(r: Register, n: nat)
    requires n <= 5
    ensures Reduced(r, 0, n) == r
  {
    if n > 0 {
      ReducedZero(r, n - 1);
      PlusZero(r);
    }
  }

  /** Six symbols fill an empty register without a single reduction. */
  lemma PolymodSix(r: Register)
    ensures PolymodFrom(ZERO, Symbols(r)) == r
  {
    var s := Symbols(r);
    var r1, r2 := Register(0, 0, 0, 0, 0, r.c5), Register(0, 0, 0, 0, r.c5, r.c4);
    var r3, r4 := Register(0, 0, 0, r.c5, r.c4, r.c3), Register(0, 0, r.c5, r.c4, r.c3, r.c2);
    var r5 := Register(0, r.c5, r.c4, r.c3, r.c2, r.c1);
    StepFromTopless(ZERO, r.c5);
    StepFromTopless(r1, r.c4);
    StepFromTopless(r2, r.c3);
    StepFromTopless(r3, r.c2);
    StepFromTopless(r4, r.c1);
    StepFromTopless(r5, r.c0);
    assert PolymodFrom(r5, s[5..]) == PolymodFrom(r, s[5..][1..]) == r;
    assert PolymodFrom(r4, s[4..]) == PolymodFrom(r5, s[4..][1..]) && s[4..][1..] == s[5..];
    assert PolymodFrom(r3, s[3..]) == PolymodFrom(r4, s[3..][1..]) && s[3..][1..] == s[4..];
    assert PolymodFrom(r2, s[2..]) == PolymodFrom(r3, s[2..][1..]) && s[2..][1..] == s[3..];
    assert PolymodFrom(r1, s[1..]) == PolymodFrom(r2, s[1..][1..]) && s[1..][1..] == s[2..];
  }

  /** What the reduction adds to the lowest coefficient. */
  function LowTaps(t: bv5, n: nat): (c: bv5)
    requires n <= 5
  {
    if n == 0 then 0 else LowTaps(t, n - 1) ^ Tap(t, n - 1).c0
  }

  lemma {:induction false} LowColumn(r: Register, t: bv5, n: nat)
    requires n <= 5 && r.c0 == 0
    ensures Reduced(r, t, n).c0 == LowTaps(t, n)
  {
    if n > 0 {
      LowColumn(r, t, n - 1);
    }
  }

  /** The lowest coefficients of the five generator words are linearly independent. */
  lemma LowTapsInjective(t: bv5)
    requires LowTaps(t, 5) == 0
    ensures t == 0
  {
    assert LowTaps(t, 1) == Tap(t, 0).c0;
    assert LowTaps(t, 3) == LowTaps(t, 1) ^ Tap(t, 1).c0 ^ Tap(t, 2).c0;
  }

  lemma StepKernel(r: Register)
    requires Step(r, 0) == ZERO
    ensures r == ZERO
  {
    LowColumn(Register(r.c4, r.c3, r.c2, r.c1, r.c0, 0), r.c5, 5);
    LowTapsInjective(r.c5);
    StepFromTopless(r, 0);
  }

  lemma SumZero(r: Register, s: Register)
    requires Plus(r, s) == ZERO
    ensures r == s
  {
    XorZero(r.c5, s.c5);
    XorZero(r.c4, s.c4);
    XorZero(r.c3, s.c3);
    XorZero(r.c2, s.c2);
    XorZero(r.c1, s.c1);
    XorZero(r.c0, s.c0);
  }

  /** One step is injective on registers, whatever symbol enters. */
  lemma StepInjective(r: Register, s: Register, v: bv5)
    requires Step(r, v) == Step(s, v)
    ensures r == s
  {
    StepLinear(r, s, v, v);
    PlusSelf(Step(r, v));
    XorZero(v, v);
    StepKernel(Plus(r, s));
    SumZero(r, s);
  }

  lemma XorZero(a: bv5, b: bv5)
    ensures a ^ b == 0 <==> a == b
  {
  }

  lemma {:induction false} ZerosKeepDifference(r: Register, n: nat)
    requires r != ZERO
    ensures PolymodFrom(r, Zeros(n)) != ZERO
    decreases n
  {
    if n > 0 {
      if Step(r, 0) == ZERO {
        StepKernel(r);
      }
      assert Zeros(n)[1..] == Zeros(n - 1);
      ZerosKeepDifference(Step(r, 0), n - 1);
    }
  }

  /// Checksums

  /** The top three bits of a byte of the prefix; a string is its bytes, one `char` each. */
  function High(c: char): (s: bv5) {
    (c as int / 32 % 8) as bv5
  }

  function Low(c: char): (s: bv5) {
    (c as int % 32) as bv5
  }

  function HrpExpand(hrp: string): (s: seq<bv5>) {
    seq(|hrp|, i requires 0 <= i < |hrp| => High(hrp[i])) + [0]
    + seq(|hrp|, i requires 0 <= i < |hrp| => Low(hrp[i]))
  }

  /** The six symbols whose register, added to that of the zero-padded message, leaves one. */
  function Checksum(hrp: string, data: seq<bv5>): (s: seq<bv5>)
    ensures |s| == 6
  {
    Symbols(Plus(PolymodFrom(ONE, HrpExpand(hrp) + data + Zeros(6)), ONE))
  }

  lemma PlusCancel(p: Register, q: Register)
    ensures Plus(p, Plus(p, q)) == q
  {
  }

  /** Six more symbols add themselves to what six zeros would have left. */
  lemma PolymodSixMore(r: Register, s: Register)
    ensures PolymodFrom(r, Symbols(s)) == Plus(PolymodFrom(r, Zeros(6)), s)
  {
    PolymodLinear(r, ZERO, Zeros(6), Symbols(s));
    PlusAllZeros(Symbols(s));
    PlusZero(r);
    PolymodSix(s);
  }

  lemma PlusAllZeros(xs: seq<bv5>)
    ensures PlusAll(Zeros(|xs|), xs) == xs
  {
  }

  /** BIP-173: a codeword's polynomial is one. */
  lemma ChecksumVerifies(hrp: string, data: seq<bv5>)
    ensures PolymodFrom(ONE, HrpExpand(hrp) + data + Checksum(hrp, data)) == ONE
  {
    SumVerifies(HrpExpand(hrp) + data);
  }

  lemma SumVerifies(message: seq<bv5>)
    ensures var p := PolymodFrom(ONE, message + Zeros(6)); PolymodFrom(ONE, message + Symbols(Plus(p, ONE))) == ONE
  {
    var r, p := PolymodFrom(ONE, message), PolymodFrom(ONE, message + Zeros(6));
    PolymodConcat(ONE, message, Zeros(6));
    PolymodConcat(ONE, message, Symbols(Plus(p, ONE)));
    PolymodSixMore(r, Plus(p, ONE));
    PlusCancel(p, ONE);
  }

  /** No other six symbols do. */
  lemma ChecksumUnique(hrp: string, data: seq<bv5>, r: Register)
    requires PolymodFrom(ONE, HrpExpand(hrp) + data + Symbols(r)) == ONE
    ensures Symbols(r) == Checksum(hrp, data)
  {
    var message := HrpExpand(hrp) + data;
    PolymodConcat(ONE, message, Symbols(r));
    PolymodConcat(ONE, message, Zeros(6));
    var p := PolymodFrom(PolymodFrom(ONE, message), Zeros(6));
    PolymodSixMore(PolymodFrom(ONE, message), r);
    PlusCancel(p, r);
  }

  lemma NarrowBack(n: nat)
    requires n < 32
    ensures (n as bv5) as int == n
  {
  }

  lemma HighLow(c: char)
    requires c as int < 256
    ensures High(c) as int < 8 && 32 * (High(c) as int) + Low(c) as int == c as int
  {
    NarrowBack(c as int / 32 % 8);
    NarrowBack(c as int % 32);
  }

  /** BIP-173: the high bits of every character, a zero, and the low bits, for a prefix of bytes. */
  lemma HrpExpandAt(hrp: string, i: nat)
    requires i < |hrp| && hrp[i] as int < 256
    ensures |HrpExpand(hrp)| == 2 * |hrp| + 1 && HrpExpand(hrp)[|hrp|] == 0
    ensures var high, low := HrpExpand(hrp)[i], HrpExpand(hrp)[|hrp| + 1 + i];
            high as int < 8 && 32 * (high as int) + low as int == hrp[i] as int
  {
    HighLow(hrp[i]);
    assert HrpExpand(hrp)[i] == High(hrp[i]) && HrpExpand(hrp)[|hrp| + 1 + i] == Low(hrp[i]);
  }

  method ComputeHrpExpand(hrp: string) returns (out: seq<bv5>)
    ensures out == HrpExpand(hrp)
    ensures |out| == 2 * |hrp| + 1 && out[|hrp|] == 0
    ensures forall i :: 0 <= i < |hrp| && hrp[i] as int < 256 ==>
                          out[i] as int < 8 && 32 * (out[i] as int) + out[|hrp| + 1 + i] as int == hrp[i] as int
  {
    out := [];
    for i := 0 to |hrp|
      invariant out == HrpExpand(hrp)[..i]
    {
      out := out + [High(hrp[i])];
    }
    out := out + [0];
    for i := 0 to |hrp|
      invariant out == HrpExpand(hrp)[..|hrp| + 1 + i]
    {
      out := out + [Low(hrp[i])];
    }
    forall i | 0 <= i < |hrp| && hrp[i] as int < 256
      ensures out[i] as int < 8 && 32 * (out[i] as int) + out[|hrp| + 1 + i] as int == hrp[i] as int
    {
      HrpExpandAt(hrp, i);
    }
  }

  lemma UnpackWords(a: bv5, b: bv5, c: bv5, d: bv5, e: bv5, f: bv5)
    ensures ((((a as bv32) << 25) | ((b as bv32) << 20) | ((c as bv32) << 15)
             | ((d as bv32) << 10) | ((e as bv32) << 5) | (f as bv32)) >> 25) & 31 == a as bv32
    ensures ((((a as bv32) << 25) | ((b as bv32) << 20) | ((c as bv32) << 15)
             | ((d as bv32) << 10) | ((e as bv32) << 5) | (f as bv32)) >> 20) & 31 == b as bv32
    ensures ((((a as bv32) << 25) | ((b as bv32) << 20) | ((c as bv32) << 15)
             | ((d as bv32) << 10) | ((e as bv32) << 5) | (f as bv32)) >> 15) & 31 == c as bv32
    ensures ((((a as bv32) << 25) | ((b as bv32) << 20) | ((c as bv32) << 15)
             | ((d as bv32) << 10) | ((e as bv32) << 5) | (f as bv32)) >> 10) & 31 == d as bv32
    ensures ((((a as bv32) << 25) | ((b as bv32) << 20) | ((c as bv32) << 15)
             | ((d as bv32) << 10) | ((e as bv32) << 5) | (f as bv32)) >> 5) & 31 == e as bv32
    ensures (((a as bv32) << 25) | ((b as bv32) << 20) | ((c as bv32) << 15)
             | ((d as bv32) << 10) | ((e as bv32) << 5) | (f as bv32)) & 31 == f as bv32
  {
  }

  /** The i-th 5-bit digit of a word, from the top of its low thirty bits. */
  function Digit(w: bv32, i: nat): (s: bv5)
    requires i < 6
  {
    // the shift distance is 5 * (5 - i)
    ((if i == 0 then w >> 25 else if i == 1 then w >> 20 else if i == 2 then w >> 15
      else if i == 3 then w >> 10 else if i == 4 then w >> 5 else w) & 31) as bv5
  }

  lemma UnpackPack(r: Register)
    ensures (Pack(r) >> 25) & 31 == r.c5 as bv32
    ensures (Pack(r) >> 20) & 31 == r.c4 as bv32
    ensures (Pack(r) >> 15) & 31 == r.c3 as bv32
    ensures (Pack(r) >> 10) & 31 == r.c2 as bv32
    ensures (Pack(r) >> 5) & 31 == r.c1 as bv32
    ensures Pack(r) & 31 == r.c0 as bv32
  {
    UnpackWords(r.c5, r.c4, r.c3, r.c2, r.c1, r.c0);
  }

  lemma Unpack(w: bv32, r: Register, i: nat)
    requires i < 6
    requires (w >> 25) & 31 == r.c5 as bv32 && (w >> 20) & 31 == r.c4 as bv32 && (w >> 15) & 31 == r.c3 as bv32
    requires (w >> 10) & 31 == r.c2 as bv32 && (w >> 5) & 31 == r.c1 as bv32 && w & 31 == r.c0 as bv32
    ensures Digit(w, i) == Symbols(r)[i]
  {
    Narrow(Symbols(r)[i]);
  }

  lemma Narrow(v: bv5)
    ensures (v as bv32) as bv5 == v
  {
  }

  method ComputeChecksum(hrp: string, data: seq<bv5>) returns (out: seq<bv5>)
    ensures out == Checksum(hrp, data)
  {
    var values := ComputeHrpExpand(hrp);
    values := values + data;
    values := values + [0, 0, 0, 0, 0, 0];
    assert values == HrpExpand(hrp) + data + Zeros(6);
    var polymod := Polymod(values);
    ghost var r := PolymodFrom(ONE, values);
    PackWord(r, ONE, 1);
    polymod := polymod ^ 1;
    out := Digits(polymod, Plus(r, ONE));
  }

  method Digits(w: bv32, ghost r: Register) returns (out: seq<bv5>)
    requires w == Pack(r)
    ensures out == Symbols(r)
  {
    UnpackPack(r);
    out := [];
    for i := 0 to 6
      invariant out == Symbols(r)[..i]
    {
      Unpack(w, r, i);
      out := out + [Digit(w, i)];
    }
  }

  /// Error detection

  /** Two different symbol strings of one length that agree outside six consecutive places from `k`. */
  ghost predicate DifferInBurst(xs: seq<bv5>, ys: seq<bv5>, k: nat) {
    && |xs| == |ys|
    && xs != ys
    && forall i :: 0 <= i < |xs| && !(k <= i < k + 6) ==> xs[i] == ys[i]
  }

  lemma {:induction false} PolymodZeros(n: nat)
    ensures PolymodFrom(ZERO, Zeros(n)) == ZERO
    decreases n
  {
    if n > 0 {
      StepFromTopless(ZERO, 0);
      assert Zeros(n)[1..] == Zeros(n - 1);
      PolymodZeros(n - 1);
    }
  }

  /** A string that is zero except for six consecutive symbols leaves a register that is not zero. */
  lemma BurstDetected(before: nat, r: Register, after: nat)
    requires r != ZERO
    ensures PolymodFrom(ZERO, Zeros(before) + Symbols(r) + Zeros(after)) != ZERO
  {
    PolymodConcat(ZERO, Zeros(before) + Symbols(r), Zeros(after));
    PolymodConcat(ZERO, Zeros(before), Symbols(r));
    PolymodZeros(before);
    PolymodSix(r);
    ZerosKeepDifference(r, after);
  }

  /** Zero-padding in front makes every burst a full window of six. */
  lemma WindowShape(d: seq<bv5>, k: nat) returns (before: nat, r: Register, after: nat)
    requires forall i :: 0 <= i < |d| && !(k <= i < k + 6) ==> d[i] == 0
    ensures Zeros(6) + d == Zeros(before) + Symbols(r) + Zeros(after)
  {
    before := if k + 6 < |d| then k + 6 else |d|;
    after := |d| - before;
    var w := (Zeros(6) + d)[before..before + 6];
    r := Register(w[0], w[1], w[2], w[3], w[4], w[5]);
    assert Symbols(r) == w;
  }

  lemma WindowNonzero(before: nat, r: Register, after: nat, j: nat)
    requires j < before + 6 + after && (Zeros(before) + Symbols(r) + Zeros(after))[j] != 0
    ensures r != ZERO
  {
    assert Symbols(ZERO) == Zeros(6);
    assert Zeros(before) + Zeros(6) + Zeros(after) == Zeros(before + 6 + after);
  }

  lemma WindowDetected(d: seq<bv5>, k: nat, j: nat)
    requires forall i :: 0 <= i < |d| && !(k <= i < k + 6) ==> d[i] == 0
    requires j < |d| && d[j] != 0
    ensures PolymodFrom(ZERO, d) != ZERO
  {
    var before, r, after := WindowShape(d, k);
    WindowNonzero(before, r, after, 6 + j);
    BurstDetected(before, r, after);
    PolymodConcat(ZERO, Zeros(6), d);
    PolymodZeros(6);
  }

  /** Altering at most six consecutive symbols, anywhere and at any length, changes the register. */
  lemma PolymodDetectsBurst(r: Register, xs: seq<bv5>, ys: seq<bv5>, k: nat)
    requires DifferInBurst(xs, ys, k)
    ensures PolymodFrom(r, xs) != PolymodFrom(r, ys)
  {
    var d := PlusAll(xs, ys);
    forall i | 0 <= i < |xs| ensures d[i] == 0 <==> xs[i] == ys[i] {
      XorZero(xs[i], ys[i]);
    }
    var j :| 0 <= j < |xs| && xs[j] != ys[j];
    WindowDetected(d, k, j);
    PolymodLinear(r, r, xs, ys);
    PlusSelf(r);
    PlusSelf(PolymodFrom(r, xs));
  }

  lemma RegisterFromSymbols(r: Register, s: Register)
    requires Symbols(r) == Symbols(s)
    ensures r == s
  {
    assert Symbols(r)[0] == Symbols(s)[0] && Symbols(r)[1] == Symbols(s)[1] && Symbols(r)[2] == Symbols(s)[2];
    assert Symbols(r)[3] == Symbols(s)[3] && Symbols(r)[4] == Symbols(s)[4] && Symbols(r)[5] == Symbols(s)[5];
  }

  /** Two data parts that differ in a burst get different checksums under one prefix. */
  lemma ChecksumDetectsBurst(hrp: string, xs: seq<bv5>, ys: seq<bv5>, k: nat)
    requires DifferInBurst(xs, ys, k)
    ensures Checksum(hrp, xs) != Checksum(hrp, ys)
  {
    var h := HrpExpand(hrp);
    var xs', ys' := h + xs + Zeros(6), h + ys + Zeros(6);
    var i :| 0 <= i < |xs| && xs[i] != ys[i];
    assert xs'[|h| + i] != ys'[|h| + i];
    PolymodDetectsBurst(ONE, xs', ys', |h| + k);
    var p, q := PolymodFrom(ONE, xs'), PolymodFrom(ONE, ys');
    if Checksum(hrp, xs) == Checksum(hrp, ys) {
      RegisterFromSymbols(Plus(p, ONE), Plus(q, ONE));
      PlusOneInjective(p, q);
    }
  }

  lemma PlusOneInjective(p: Register, q: Register)
    requires Plus(p, ONE) == Plus(q, ONE)
    ensures p == q
  {
    XorOneInjective(p.c0, q.c0);
  }

  lemma XorOneInjective(a: bv5, b: bv5)
    ensures a ^ 0 == a && (a ^ 1 == b ^ 1 ==> a == b)
  {
  }

  /** A codeword altered in one burst, checksum symbols included, is not a codeword. */
  lemma CodewordDetectsBurst(hrp: string, data: seq<bv5>, altered: seq<bv5>, k: nat)
    requires DifferInBurst(data + Checksum(hrp, data), altered, k)
    ensures PolymodFrom(ONE, HrpExpand(hrp) + altered) != ONE
  {
    var h, word := HrpExpand(hrp), data + Checksum(hrp, data);
    ChecksumVerifies(hrp, data);
    assert h + word == h + data + Checksum(hrp, data);
    BurstBehind(h, word, altered, k);
    PolymodDetectsBurst(ONE, h + word, h + altered, |h| + k);
  }

  lemma BurstBehind(h: seq<bv5>, xs: seq<bv5>, ys: seq<bv5>, k: nat)
    requires DifferInBurst(xs, ys, k)
    ensures DifferInBurst(h + xs, h + ys, |h| + k)
  {
    var i :| 0 <= i < |xs| && xs[i] != ys[i];
    assert (h + xs)[|h| + i] != (h + ys)[|h| + i];
  }

  /// A published vector

  lemma StepsWithoutTop(r: Register, u: bv5, v: bv5)
    requires r.c5 == 0 && r.c4 == 0
    ensures Step(Step(r, u), v) == Register(r.c3, r.c2, r.c1, r.c0, u, v)
  {
    StepFromTopless(r, u);
    StepFromTopless(Step(r, u), v);
  }

  lemma VectorSteps()
    ensures Step(Register(1, 3, 0, 1, 0, 0), 0) == Register(30, 22, 21, 21, 29, 18)
    ensures Step(Register(30, 22, 21, 21, 29, 18), 0) == Register(1, 15, 26, 12, 5, 25)
    ensures Step(Register(1, 15, 26, 12, 5, 25), 0) == Register(18, 12, 24, 16, 4, 18)
    ensures Step(Register(18, 12, 24, 16, 4, 18), 0) == Register(10, 28, 25, 31, 20, 30)
  {
  }

  /** BIP-173: the valid string of prefix "a" without data is "a12uel5l"; these are its check symbols. */
  lemma EmptyVector()
    ensures Checksum("a", []) == [10, 28, 25, 31, 20, 31]
  {
    HrpExpandAt("a", 0);
    NarrowBack(3);
    NarrowBack(1);
    assert HrpExpand("a") + [] + Zeros(6) == [3, 0, 1] + ([0, 0, 0] + [0, 0, 0]);
    PolymodConcat(ONE, [3, 0, 1], [0, 0, 0] + [0, 0, 0]);
    PolymodConcat(Register(0, 0, 1, 3, 0, 1), [0, 0, 0], [0, 0, 0]);
    PolymodThree(ONE, 3, 0, 1);
    PolymodThree(Register(0, 0, 1, 3, 0, 1), 0, 0, 0);
    PolymodThree(Register(30, 22, 21, 21, 29, 18), 0, 0, 0);
    StepsWithoutTop(ONE, 3, 0);
    StepFromTopless(Register(0, 0, 0, 1, 3, 0), 1);
    StepsWithoutTop(Register(0, 0, 1, 3, 0, 1), 0, 0);
    VectorSteps();
  }

  lemma PolymodCons(r: Register, x: bv5, rest: seq<bv5>)
    ensures PolymodFrom(r, [x] + rest) == PolymodFrom(Step(r, x), rest)
  {
    assert ([x] + rest)[1..] == rest;
  }

  lemma PolymodThree(r: Register, x: bv5, y: bv5, z: bv5)
    ensures PolymodFrom(r, [x, y, z]) == Step(Step(Step(r, x), y), z)
  {
    PolymodCons(r, x, [y, z]);
    PolymodCons(Step(r, x), y, [z]);
    PolymodCons(Step(Step(r, x), y), z, []);
    assert [x] + [y, z] == [x, y, z] && [y] + [z] == [y, z] && [z] + [] == [z];
  }
}
