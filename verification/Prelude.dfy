/** The datatypes and encodings every module shares. */
module Prelude {

  datatype Option<+T> = None | Some(value: T)

  /** The outcome of an operation that can fail: Go's `error` result, Rust's `Result<(), E>`. */
  datatype Outcome = Ok | Failed

  newtype byte = x: int | 0 <= x < 256

  const HEX_DIGITS := "0123456789abcdef"

  /** Lower-case hexadecimal. */
  function Hex(b: seq<byte>): (s: string)
    ensures |s| == 2 * |b|
  {
    if b == [] then "" else [HEX_DIGITS[b[0] as int / 16], HEX_DIGITS[b[0] as int % 16]] + Hex(b[1..])
  }

  function HexDigit(d: nat): (c: char)
    requires d < 16
  {
    if d < 10 then ('0' as int + d) as char else ('a' as int + (d - 10)) as char
  }

  /** Two digits a byte, the high one first, ten to fifteen as "a" to "f". */
  lemma {:induction false} HexAt(b: seq<byte>, i: nat)
    requires i < |b|
    ensures Hex(b)[2 * i] == HexDigit(b[i] as int / 16) && Hex(b)[2 * i + 1] == HexDigit(b[i] as int % 16)
  {
    if i > 0 {
      HexAt(b[1..], i - 1);
      assert Hex(b)[2..] == Hex(b[1..]);
      assert Hex(b[1..])[2 * (i - 1)] == Hex(b)[2 * i] && Hex(b[1..])[2 * (i - 1) + 1] == Hex(b)[2 * i + 1];
    } else {
      HexTable(b[0] as int / 16);
      HexTable(b[0] as int % 16);
    }
  }

  lemma HexTable(d: nat)
    requires d < 16
    ensures HEX_DIGITS[d] == HexDigit(d)
  {
  }

  lemma HexDigitInjective(i: nat, j: nat)
    requires i < 16 && j < 16 && HEX_DIGITS[i] == HEX_DIGITS[j]
    ensures i == j
  {
  }

  lemma {:induction false} HexInjective(a: seq<byte>, b: seq<byte>)
    requires Hex(a) == Hex(b)
    ensures a == b
    decreases |a|
  {
    if a != [] {
      assert Hex(a)[0] == Hex(b)[0] && Hex(a)[1] == Hex(b)[1];
      HexDigitInjective(a[0] as int / 16, b[0] as int / 16);
      HexDigitInjective(a[0] as int % 16, b[0] as int % 16);
      assert Hex(a)[2..] == Hex(a[1..]) && Hex(b)[2..] == Hex(b[1..]);
      HexInjective(a[1..], b[1..]);
      assert a == [a[0]] + a[1..] && b == [b[0]] + b[1..];
    }
  }

  function LowerChar(c: char): (l: char) {
    if 'A' <= c <= 'Z' then (c as int + 32) as char else c
  }

  /** `strings.ToLower`, on ASCII. */
  function Lower(s: string): (l: string)
    ensures |l| == |s|
  {
    seq(|s|, i requires 0 <= i < |s| => LowerChar(s[i]))
  }

  /** No two elements share a key. */
  predicate DistinctBy<T, K(==)>(xs: seq<T>, key: T -> K) {
    forall i, j :: 0 <= i < j < |xs| ==> key(xs[i]) != key(xs[j])
  }

  lemma DistinctByGrows<T, K>(xs: seq<T>, key: T -> K, x: T)
    requires DistinctBy(xs, key) && forall y <- xs :: key(y) != key(x)
    ensures DistinctBy(xs + [x], key)
  {
    assert forall i :: 0 <= i < |xs| ==> xs[i] in xs;
  }

  lemma Associates<T>(a: seq<T>, b: seq<T>, c: seq<T>)
    ensures (a + b) + c == a + (b + c)
  {
  }

  lemma SameMembers<T>(xs: seq<T>, ys: seq<T>)
    requires multiset(xs) == multiset(ys)
    ensures forall x :: x in xs <==> x in ys
  {
    forall x ensures x in xs <==> x in ys {
      assert x in multiset(xs) <==> x in multiset(ys);
    }
  }

  lemma FiveAppended<T>(s: seq<T>, a: T, b: T, c: T, d: T, e: T)
    ensures s + [a] + [b] + [c] + [d] + [e] == s + [a, b, c, d, e]
  {
  }

  lemma NineAppended<T>(s: seq<T>, a: T, b: T, c: T, d: T, e: T, f: T, g: T, h: T, i: T)
    ensures s + [a] + [b] + [c] + [d] + [e] + [f] + [g] + [h] + [i] == s + [a, b, c, d, e, f, g, h, i]
  {
  }
}
