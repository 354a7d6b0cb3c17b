/** Rendering an address (bech32Encode in indexer/accounts.go) and the reader-side shape test of ids.rs. */
module Address {
  import opened Prelude
  import opened Bech32
  import opened Regroup

  const CHARSET := "qpzry9x8gf2tvdw0s3jn54khce6mua7l"

  function CharOf(v: bv5): (c: char) {
    CHARSET[v as int]
  }

  function SymbolOf(c: char): (v: Option<bv5>) {
    if c == 'q' then Some(0) else if c == 'p' then Some(1) else if c == 'z' then Some(2) else if c == 'r' then Some(3) else
    if c == 'y' then Some(4) else if c == '9' then Some(5) else if c == 'x' then Some(6) else if c == '8' then Some(7) else
    if c == 'g' then Some(8) else if c == 'f' then Some(9) else if c == '2' then Some(10) else if c == 't' then Some(11) else
    if c == 'v' then Some(12) else if c == 'd' then Some(13) else if c == 'w' then Some(14) else if c == '0' then Some(15) else
    if c == 's' then Some(16) else if c == '3' then Some(17) else if c == 'j' then Some(18) else if c == 'n' then Some(19) else
    if c == '5' then Some(20) else if c == '4' then Some(21) else if c == 'k' then Some(22) else if c == 'h' then Some(23) else
    if c == 'c' then Some(24) else if c == 'e' then Some(25) else if c == '6' then Some(26) else if c == 'm' then Some(27) else
    if c == 'u' then Some(28) else if c == 'a' then Some(29) else if c == '7' then Some(30) else if c == 'l' then Some(31) else
    None
  }

  lemma CharRoundTrip(v: bv5)
    ensures SymbolOf(CharOf(v)) == Some(v)
  {
  }

  function Chars(d: seq<bv5>): (s: string)
    ensures |s| == |d|
  {
    seq(|d|, i requires 0 <= i < |d| => CharOf(d[i]))
  }

  /** `text` renders the prefix, the separator, the data symbols `d` and their checksum. */
  predicate Renders(hrp: string, d: seq<bv5>, text: string) {
    text == Lower(hrp) + "1" + Chars(d) + Chars(Checksum(Lower(hrp), d))
  }

  method Encode(hrp: string, data: seq<bv8>) returns (text: string, d: seq<bv5>)
    ensures IsRegrouping(data, d) && Renders(hrp, d, text)
  {
    d := ConvertBits8to5(data);
    var check := ComputeChecksum(Lower(hrp), d);
    text := Lower(hrp) + "1";
    text := AppendChars(text, d);
    text := AppendChars(text, check);
  }

  method AppendChars(start: string, d: seq<bv5>) returns (text: string)
    ensures text == start + Chars(d)
  {
    text := start;
    for i := 0 to |d|
      invariant text == start + Chars(d)[..i]
    {
      text := text + [CharOf(d[i])];
    }
    assert Chars(d)[..|d|] == Chars(d);
  }

  /// A reader

  function SymbolsOf(s: string): (d: Option<seq<bv5>>)
    decreases |s|
  {
    if s == "" then Some([])
    else
      match (SymbolOf(s[0]), SymbolsOf(s[1..]))
      case (Some(v), Some(rest)) => Some([v] + rest)
      case _ => None
  }

  /** Where the last separator stands; the length of the string when there is none. */
  function LastSeparator(s: string): (k: nat)
    ensures k <= |s|
    decreases |s|
  {
    if s == "" then 0
    else if s[|s| - 1] == '1' then |s| - 1
    else
      var k := LastSeparator(s[..|s| - 1]);
      if k == |s| - 1 then |s| else k
  }

  /** A bech32 reader: the last separator, a known alphabet, and a polynomial of one. */
  function Decode(text: string): (r: Option<(string, seq<bv8>)>) {
    var k := LastSeparator(text);
    if k == |text| then None else DecodeParts(text[..k], SymbolsOf(text[k + 1..]))
  }

  function DecodeParts(hrp: string, symbols: Option<seq<bv5>>): (r: Option<(string, seq<bv8>)>) {
    if symbols.None? || |symbols.value| < 6 then None
    else if PolymodFrom(ONE, HrpExpand(hrp) + symbols.value) != ONE then None
    else Some((hrp, Ungroup(symbols.value[..|symbols.value| - 6])))
  }

  lemma {:induction false} SymbolsOfChars(d: seq<bv5>)
    ensures SymbolsOf(Chars(d)) == Some(d)
    decreases |d|
  {
    if d == [] {
      assert Chars(d) == "";
    } else {
      CharRoundTrip(d[0]);
      assert Chars(d)[1..] == Chars(d[1..]);
      SymbolsOfChars(d[1..]);
      assert [d[0]] + d[1..] == d;
    }
  }

  lemma NoSeparatorInCharset(v: bv5)
    ensures CharOf(v) != '1'
  {
    CharRoundTrip(v);
  }

  lemma {:induction false} LastSeparatorBeforeChars(p: string, d: seq<bv5>)
    ensures LastSeparator(p + "1" + Chars(d)) == |p|
    decreases |d|
  {
    var s := p + "1" + Chars(d);
    if d != [] {
      var n := |d| - 1;
      NoSeparatorInCharset(d[n]);
      assert s[..|s| - 1] == p + "1" + Chars(d[..n]);
      LastSeparatorBeforeChars(p, d[..n]);
    }
  }

  lemma DecodeText(p: string, s: seq<bv5>)
    requires |s| >= 6 && PolymodFrom(ONE, HrpExpand(p) + s) == ONE
    ensures Decode(p + "1" + Chars(s)) == Some((p, Ungroup(s[..|s| - 6])))
  {
    LastSeparatorBeforeChars(p, s);
    SplitText(p, Chars(s));
    SymbolsOfChars(s);
  }

  lemma SplitText(p: string, tail: string)
    ensures (p + "1" + tail)[..|p|] == p && (p + "1" + tail)[|p| + 1..] == tail
  {
  }

  lemma CharsConcat(p: string, d: seq<bv5>, e: seq<bv5>)
    ensures p + "1" + Chars(d) + Chars(e) == p + "1" + Chars(d + e)
  {
    assert Chars(d + e) == Chars(d) + Chars(e);
  }

  /** What the encoder renders, the reader reads back: the checksum holds and the data returns. */
  lemma EncodeRoundTrip(hrp: string, data: seq<bv8>, d: seq<bv5>, text: string)
    requires IsRegrouping(data, d) && Renders(hrp, d, text)
    ensures Decode(text) == Some((Lower(hrp), data))
  {
    var p, check := Lower(hrp), Checksum(Lower(hrp), d);
    CharsConcat(p, d, check);
    ChecksumVerifies(p, d);
    Associates(HrpExpand(p), d, check);
    DecodeText(p, d + check);
    assert (d + check)[..|d|] == d;
    RegroupRoundTrip(data, d);
  }

  /** One text never stands for two accounts, nor for one account under two lower-case prefixes. */
  lemma EncodeInjective(hrp: string, data: seq<bv8>, d: seq<bv5>,
                        hrp': string, data': seq<bv8>, d': seq<bv5>, text: string)
    requires IsRegrouping(data, d) && Renders(hrp, d, text)
    requires IsRegrouping(data', d') && Renders(hrp', d', text)
    ensures Lower(hrp) == Lower(hrp') && data == data'
  {
    EncodeRoundTrip(hrp, data, d, text);
    EncodeRoundTrip(hrp', data', d', text);
  }

  /// The address shape

  predicate IsAddress(s: string) {
    && 39 <= |s| <= 90
    && "hash1" <= s
    && forall i :: 5 <= i < |s| ==> s[i] in CHARSET
  }

  /** Under the account prefix, exactly the account lengths of 17 to 49 bytes look like addresses. */
  lemma AddressShape(data: seq<bv8>, d: seq<bv5>, text: string)
    requires IsRegrouping(data, d) && Renders("hash", d, text)
    ensures IsAddress(text) <==> 17 <= |data| <= 49
  {
    assert Lower("hash") == "hash";
    var word := d + Checksum("hash", d);
    CharsConcat("hash", d, Checksum("hash", d));
    CharsInCharset(word);
    assert "hash" + "1" == "hash1";
    AddressOf(Chars(word));
  }

  lemma CharsInCharset(d: seq<bv5>)
    ensures forall i :: 0 <= i < |d| ==> Chars(d)[i] in CHARSET
  {
    forall i | 0 <= i < |d| ensures Chars(d)[i] in CHARSET {
      CharInCharset(d[i]);
    }
  }

  lemma CharInCharset(v: bv5)
    ensures CharOf(v) in CHARSET
  {
  }

  lemma AddressOf(tail: string)
    requires forall i :: 0 <= i < |tail| ==> tail[i] in CHARSET
    ensures IsAddress("hash1" + tail) <==> 34 <= |tail| <= 85
  {
    forall i | 5 <= i < |tail| + 5 ensures ("hash1" + tail)[i] in CHARSET {
      assert ("hash1" + tail)[i] == tail[i - 5];
    }
  }

  /** The published string of prefix "a" without data, whichever case the prefix is given in. */
  lemma EmptyVectorText(text: string)
    requires Renders("a", [], text) || Renders("A", [], text)
    ensures text == "a12uel5l"
  {
    EmptyVector();
    assert Lower("a") == "a" == Lower("A");
    assert Chars([]) == "";
    assert Chars([10, 28, 25, 31, 20, 31]) == "2uel5l";
  }
}
