/**
  Reading coin lists such as "5000uhash,7ibc/ABC": the balances parser (uhashAmount in
  indexer/balances.go) and the suffix-based parser of transfer events (indexer/chain.go).
  A string is its bytes, one `char` each.
 */
module Coins {
  import opened Prelude

  const BOND_DENOM := "uhash"
  const UINT64_END := 0x1_0000_0000_0000_0000

  /// Decimals

  predicate IsDigit(c: char) {
    '0' <= c <= '9'
  }

  predicate AllDigits(s: string) {
    forall i :: 0 <= i < |s| ==> IsDigit(s[i])
  }

  function DigitChar(d: nat): (c: char)
    requires d < 10
    ensures IsDigit(c)
  {
    ('0' as int + d) as char
  }

  /** `%d` of a non-negative integer. */
  function Decimal(n: nat): (s: string)
    ensures s != "" && AllDigits(s)
  {
    if n < 10 then [DigitChar(n)] else Decimal(n / 10) + [DigitChar(n % 10)]
  }

  function ParseDecimal(s: string): (n: nat)
    requires AllDigits(s)
  {
    if s == "" then 0 else 10 * ParseDecimal(s[..|s| - 1]) + (s[|s| - 1] as int - '0' as int)
  }

  lemma {:induction false} DecimalRoundTrip(n: nat)
    ensures ParseDecimal(Decimal(n)) == n
  {
    var s := Decimal(n);
    if n < 10 {
      assert s[..0] == "";
    } else {
      assert s[..|s| - 1] == Decimal(n / 10);
      DecimalRoundTrip(n / 10);
    }
  }

  /// Splitting and trimming

  predicate IsSpace(c: char) {
    c == ' ' || c == '\t' || c == '\n' || c == '\r' || c == 11 as char || c == 12 as char
  }

  function TrimLeft(s: string): (t: string) {
    if s != "" && IsSpace(s[0]) then TrimLeft(s[1..]) else s
  }

  function TrimRight(s: string): (t: string) {
    if s != "" && IsSpace(s[|s| - 1]) then TrimRight(s[..|s| - 1]) else s
  }

  function TrimSpace(s: string): (t: string) {
    TrimRight(TrimLeft(s))
  }

  /** The parts between commas. */
  function Split(s: string): (parts: seq<string>)
    ensures parts != []
  {
    if s == "" then [""]
    else
      var rest := Split(s[1..]);
      if s[0] == ',' then [""] + rest else [[s[0]] + rest[0]] + rest[1..]
  }

  lemma {:induction false} SplitAtComma(p: string, rest: string)
    requires ',' !in p
    ensures Split(p + "," + rest) == [p] + Split(rest)
    decreases |p|
  {
    var s := p + "," + rest;
    if p == "" {
      assert s[1..] == rest;
    } else {
      assert s[1..] == p[1..] + "," + rest;
      SplitAtComma(p[1..], rest);
      assert p == [p[0]] + p[1..];
    }
  }

  lemma {:induction false} SplitWhole(p: string)
    requires ',' !in p
    ensures Split(p) == [p]
    decreases |p|
  {
    if p != "" {
      SplitWhole(p[1..]);
      assert p == [p[0]] + p[1..];
    }
  }

  /// The balances parser

  /** How many leading digits there are. */
  function DigitRun(s: string): (i: nat)
    ensures i <= |s| && AllDigits(s[..i]) && (i < |s| ==> !IsDigit(s[i]))
  {
    if s == "" || !IsDigit(s[0]) then 0
    else
      assert forall k :: 0 < k <= DigitRun(s[1..]) ==> s[k] == s[1..][k - 1] == s[1..][..DigitRun(s[1..])][k - 1];
      1 + DigitRun(s[1..])
  }

  /** The quantity of one coin, when it is a bond-denom coin. */
  function UhashOf(part: string): (n: Option<nat>) {
    var coin := TrimSpace(part);
    var i := DigitRun(coin);
    if i == 0 || coin[i..] != BOND_DENOM then None else Some(ParseDecimal(coin[..i]))
  }

  function FirstUhash(parts: seq<string>): (n: Option<nat>) {
    if parts == [] then None else if UhashOf(parts[0]).Some? then UhashOf(parts[0]) else FirstUhash(parts[1..])
  }

  function UhashAmount(coins: string): (n: Option<nat>) {
    var trimmed := TrimSpace(coins);
    if trimmed == "" then None else FirstUhash(Split(trimmed))
  }

  method ReadUhashAmount(coins: string) returns (n: Option<nat>)
    ensures n == UhashAmount(coins)
  {
    var trimmed := TrimSpace(coins);
    if trimmed == "" {
      return None;
    }
    var parts := Split(trimmed);
    for k := 0 to |parts|
      invariant FirstUhash(parts) == FirstUhash(parts[k..])
    {
      var coin := TrimSpace(parts[k]);
      var i := 0;
      while i < |coin| && IsDigit(coin[i])
        invariant i <= DigitRun(coin)
      {
        RunContinues(coin, i);
        i := i + 1;
      }
      assert i == DigitRun(coin);
      assert parts[k..][1..] == parts[k + 1..];
      if i == 0 || coin[i..] != BOND_DENOM {
        continue;
      }
      return Some(ParseDecimal(coin[..i]));
    }
    n := None;
  }

  lemma RunContinues(s: string, i: nat)
    requires i < |s| && i <= DigitRun(s) && IsDigit(s[i])
    ensures i < DigitRun(s)
  {
  }

  /// The transfer parser

  /** `strconv.ParseUint(n, 10, 64)`. */
  function ParseUint64(s: string): (n: Option<nat>) {
    if s == "" || !AllDigits(s) then None
    else if ParseDecimal(s) >= UINT64_END then None
    else Some(ParseDecimal(s))
  }

  function TransferOf(coin: string): (n: Option<nat>) {
    var k := |coin| - |BOND_DENOM|;
    if k < 0 || coin[k..] != BOND_DENOM then None else ParseUint64(coin[..k])
  }

  function Collected(parts: seq<string>): (rows: seq<nat>) {
    if parts == [] then []
    else (match TransferOf(parts[0]) case Some(n) => [n] case None => []) + Collected(parts[1..])
  }

  /** One transfer row for every bond-denom coin that fits 64 bits. */
  function TransferAmounts(amount: string): (rows: seq<nat>) {
    Collected(Split(amount))
  }

  lemma CollectedStep(parts: seq<string>, k: nat, rows: seq<nat>)
    requires k < |parts|
    ensures rows + Collected(parts[k..])
         == (rows + match TransferOf(parts[k]) case Some(n) => [n] case None => []) + Collected(parts[k + 1..])
  {
    assert parts[k..][1..] == parts[k + 1..];
  }

  method ReadTransferAmounts(amount: string) returns (rows: seq<nat>)
    ensures rows == TransferAmounts(amount)
  {
    var parts := Split(amount);
    rows := [];
    for k := 0 to |parts|
      invariant rows + Collected(parts[k..]) == Collected(parts)
    {
      CollectedStep(parts, k, rows);
      var row := match TransferOf(parts[k]) case Some(n) => [n] case None => [];
      rows := rows + row;
    }
  }

  /// Printed coin lists

  datatype Coin = Coin(amount: nat, denom: string)

  /** A denomination starts with a non-digit and holds neither a comma nor white space. */
  predicate GoodDenom(d: string) {
    d != "" && !IsDigit(d[0]) && forall c <- d :: c != ',' && !IsSpace(c)
  }

  function Printed(c: Coin): (s: string) {
    Decimal(c.amount) + c.denom
  }

  function PrintedList(cs: seq<Coin>): (s: string) {
    if cs == [] then "" else if |cs| == 1 then Printed(cs[0]) else Printed(cs[0]) + "," + PrintedList(cs[1..])
  }

  predicate GoodCoins(cs: seq<Coin>) {
    forall c <- cs :: GoodDenom(c.denom)
  }

  /** The first bond-denom quantity of a list. */
  function FirstBond(cs: seq<Coin>): (n: Option<nat>) {
    if cs == [] then None else if cs[0].denom == BOND_DENOM then Some(cs[0].amount) else FirstBond(cs[1..])
  }

  function BondRows(cs: seq<Coin>): (rows: seq<nat>) {
    if cs == [] then []
    else (if cs[0].denom == BOND_DENOM && cs[0].amount < UINT64_END then [cs[0].amount] else []) + BondRows(cs[1..])
  }

  lemma PrintedClean(c: Coin)
    requires GoodDenom(c.denom)
    ensures ',' !in Printed(c) && TrimSpace(Printed(c)) == Printed(c)
    ensures var s := Printed(c); IsDigit(s[0]) && !IsSpace(s[|s| - 1])
  {
    var s := Printed(c);
    assert s[|s| - 1] == c.denom[|c.denom| - 1];
    assert c.denom[|c.denom| - 1] in c.denom;
  }

  lemma RunOfPrinted(digits: string, d: string)
    requires AllDigits(digits) && GoodDenom(d)
    ensures DigitRun(digits + d) == |digits|
    decreases |digits|
  {
    if digits == "" {
      assert digits + d == d;
    } else {
      assert (digits + d)[1..] == digits[1..] + d;
      RunOfPrinted(digits[1..], d);
    }
  }

  lemma UhashOfPrinted(c: Coin)
    requires GoodDenom(c.denom)
    ensures UhashOf(Printed(c)) == if c.denom == BOND_DENOM then Some(c.amount) else None
  {
    PrintedClean(c);
    RunOfPrinted(Decimal(c.amount), c.denom);
    var i := |Decimal(c.amount)|;
    assert Printed(c)[i..] == c.denom && Printed(c)[..i] == Decimal(c.amount);
    DecimalRoundTrip(c.amount);
  }

  lemma PrintedParts(c: Coin)
    ensures var s, n := Printed(c), |Decimal(c.amount)|;
            && s[..n] == Decimal(c.amount) && s[n..] == c.denom
            && forall i :: 0 <= i < n ==> IsDigit(s[i])
  {
  }

  lemma TransferOfPrinted(c: Coin)
    requires GoodDenom(c.denom)
    ensures TransferOf(Printed(c))
         == if c.denom == BOND_DENOM && c.amount < UINT64_END then Some(c.amount) else None
  {
    var s, n := Printed(c), |Decimal(c.amount)|;
    var k := |s| - |BOND_DENOM|;
    PrintedParts(c);
    if c.denom == BOND_DENOM {
      DecimalRoundTrip(c.amount);
    } else if k >= 0 && s[k..] == BOND_DENOM {
      assert s[k] == BOND_DENOM[0];
      assert s[..k][n] == c.denom[0];
    }
  }

  predicate AllSpaces(s: string) {
    forall i :: 0 <= i < |s| ==> IsSpace(s[i])
  }

  lemma {:induction false} SpacesTrimmed(a: string, s: string, b: string)
    requires AllSpaces(a) && AllSpaces(b) && s != "" && !IsSpace(s[0]) && !IsSpace(s[|s| - 1])
    ensures TrimSpace(a + s + b) == s
    decreases |a| + |b|
  {
    var t := a + s + b;
    if a != "" {
      assert t[1..] == a[1..] + s + b;
      SpacesTrimmed(a[1..], s, b);
    } else if b != "" {
      assert t == s + b && t[..|t| - 1] == s + b[..|b| - 1];
      assert t[0] == s[0] && TrimLeft(t) == t && TrimLeft(t[..|t| - 1]) == t[..|t| - 1];
      assert "" + s + b[..|b| - 1] == s + b[..|b| - 1];
      SpacesTrimmed("", s, b[..|b| - 1]);
    } else {
      assert t == s;
    }
  }

  /** The balances parser reads a coin through the white space around it. */
  lemma PaddedCoin(a: string, c: Coin, b: string)
    requires AllSpaces(a) && AllSpaces(b) && GoodDenom(c.denom)
    ensures UhashOf(a + Printed(c) + b) == if c.denom == "uhash" then Some(c.amount) else None
  {
    PrintedClean(c);
    SpacesTrimmed(a, Printed(c), b);
    UhashOfPrinted(c);
  }

  function PrintedAll(cs: seq<Coin>): (parts: seq<string>) {
    if cs == [] then [] else [Printed(cs[0])] + PrintedAll(cs[1..])
  }

  lemma {:induction false} SplitPrinted(cs: seq<Coin>)
    requires GoodCoins(cs) && cs != []
    ensures Split(PrintedList(cs)) == PrintedAll(cs)
    decreases |cs|
  {
    PrintedClean(cs[0]);
    if |cs| == 1 {
      SplitWhole(Printed(cs[0]));
    } else {
      SplitPrinted(cs[1..]);
      SplitAtComma(Printed(cs[0]), PrintedList(cs[1..]));
    }
  }

  lemma {:induction false} PrintedListClean(cs: seq<Coin>)
    requires GoodCoins(cs) && cs != []
    ensures var s := PrintedList(cs); s != "" && IsDigit(s[0]) && !IsSpace(s[|s| - 1])
    decreases |cs|
  {
    PrintedClean(cs[0]);
    if |cs| > 1 {
      PrintedListClean(cs[1..]);
    }
  }

  lemma {:induction false} FirstUhashOfPrinted(cs: seq<Coin>)
    requires GoodCoins(cs)
    ensures FirstUhash(PrintedAll(cs)) == FirstBond(cs)
    decreases |cs|
  {
    if cs != [] {
      UhashOfPrinted(cs[0]);
      FirstUhashOfPrinted(cs[1..]);
    }
  }

  lemma {:induction false} CollectedOfPrinted(cs: seq<Coin>)
    requires GoodCoins(cs)
    ensures Collected(PrintedAll(cs)) == BondRows(cs)
    decreases |cs|
  {
    if cs != [] {
      TransferOfPrinted(cs[0]);
      CollectedOfPrinted(cs[1..]);
    }
  }

  /** On a printed list the balances parser finds the first bond-denom coin, of any size, or reports none. */
  lemma UhashAmountOfPrinted(cs: seq<Coin>)
    requires GoodCoins(cs)
    ensures UhashAmount(PrintedList(cs)) == FirstBond(cs)
  {
    if cs != [] {
      SplitPrinted(cs);
      PrintedListClean(cs);
      assert TrimSpace(PrintedList(cs)) == PrintedList(cs);
      FirstUhashOfPrinted(cs);
    }
  }

  /** On a printed list the transfer parser finds every bond-denom coin that fits 64 bits. */
  lemma TransferAmountsOfPrinted(cs: seq<Coin>)
    requires GoodCoins(cs)
    ensures TransferAmounts(PrintedList(cs)) == BondRows(cs)
  {
    if cs != [] {
      SplitPrinted(cs);
      CollectedOfPrinted(cs);
    } else {
      assert Split("") == [""] && Collected([""]) == [];
    }
  }

  predicate IsBond(c: Coin) {
    c.denom == BOND_DENOM
  }

  predicate Fits(c: Coin) {
    c.amount < UINT64_END
  }

  /** The k-th coin is the first bond-denom coin, fits 64 bits, and no other bond-denom coin does. */
  predicate OnlyFirstFits(cs: seq<Coin>, k: int) {
    && 0 <= k < |cs| && IsBond(cs[k]) && Fits(cs[k])
    && (forall j :: 0 <= j < k ==> !IsBond(cs[j]))
    && (forall j :: k < j < |cs| && IsBond(cs[j]) ==> !Fits(cs[j]))
  }

  lemma {:induction false} NoRows(cs: seq<Coin>)
    ensures BondRows(cs) == [] <==> forall j :: 0 <= j < |cs| && IsBond(cs[j]) ==> !Fits(cs[j])
    decreases |cs|
  {
    if cs != [] {
      var rest := cs[1..];
      NoRows(rest);
      assert forall j :: 0 < j < |cs| ==> cs[j] == rest[j - 1];
      assert forall j :: 0 <= j < |rest| ==> rest[j] == cs[j + 1];
    }
  }

  /** What both parsers find, by the position of the first bond-denom coin. */
  lemma {:induction false} FromFirstBond(cs: seq<Coin>, k: nat)
    requires k < |cs| && IsBond(cs[k]) && forall j :: 0 <= j < k ==> !IsBond(cs[j])
    ensures FirstBond(cs) == Some(cs[k].amount)
    ensures BondRows(cs) == (if Fits(cs[k]) then [cs[k].amount] else []) + BondRows(cs[k + 1..])
    decreases |cs|
  {
    if k > 0 {
      FromFirstBond(cs[1..], k - 1);
      assert cs[1..][k..] == cs[k + 1..];
    }
  }

  lemma {:induction false} BondAbsent(cs: seq<Coin>)
    requires forall j :: 0 <= j < |cs| ==> !IsBond(cs[j])
    ensures FirstBond(cs) == None && BondRows(cs) == []
    decreases |cs|
  {
    if cs != [] {
      BondAbsent(cs[1..]);
    }
  }

  lemma {:induction false} FirstBondPlace(cs: seq<Coin>) returns (k: nat)
    ensures k <= |cs| && (forall j :: 0 <= j < k ==> !IsBond(cs[j])) && (k < |cs| ==> IsBond(cs[k]))
    decreases |cs|
  {
    k := 0;
    if cs != [] && !IsBond(cs[0]) {
      var rest := FirstBondPlace(cs[1..]);
      k := rest + 1;
    }
  }

  predicate Agree(coins: string) {
    TransferAmounts(coins) == match UhashAmount(coins) case Some(n) => [n] case None => []
  }

  /**
    The two parsers agree on a printed list exactly when it holds no bond-denom coin, or when the
    first one fits 64 bits and no other one does.
   */
  lemma ParsersAgree(cs: seq<Coin>)
    requires GoodCoins(cs)
    ensures Agree(PrintedList(cs)) <==> (forall c <- cs :: !IsBond(c)) || exists k :: OnlyFirstFits(cs, k)
  {
    UhashAmountOfPrinted(cs);
    TransferAmountsOfPrinted(cs);
    var k := FirstBondPlace(cs);
    if k == |cs| {
      BondAbsent(cs);
    } else {
      FromFirstBond(cs, k);
      var rest := cs[k + 1..];
      NoRows(rest);
      BondRowsFit(rest);
      OneRow(cs[k], BondRows(rest));
      RestOnlyAt(cs, k);
      assert cs[k] in cs;
    }
  }

  lemma OneRow(c: Coin, rest: seq<nat>)
    requires forall n <- rest :: n < UINT64_END
    ensures (if Fits(c) then [c.amount] else []) + rest == [c.amount] <==> Fits(c) && rest == []
  {
    assert rest != [] ==> rest[0] in rest;
    assert [] + rest == rest;
    assert |[c.amount] + rest| == 1 + |rest|;
  }

  /** Only the place of the first bond-denom coin can be the k of `OnlyFirstFits`. */
  lemma RestOnlyAt(cs: seq<Coin>, k: nat)
    requires k < |cs| && IsBond(cs[k]) && forall j :: 0 <= j < k ==> !IsBond(cs[j])
    ensures (exists m :: OnlyFirstFits(cs, m)) <==>
              Fits(cs[k]) && var rest := cs[k + 1..]; forall j :: 0 <= j < |rest| && IsBond(rest[j]) ==> !Fits(rest[j])
  {
    var rest := cs[k + 1..];
    assert forall j :: k < j < |cs| ==> cs[j] == rest[j - k - 1];
    if m :| OnlyFirstFits(cs, m) {
      assert m == k;
    }
    if Fits(cs[k]) && forall j :: 0 <= j < |rest| && IsBond(rest[j]) ==> !Fits(rest[j]) {
      assert OnlyFirstFits(cs, k);
    }
  }

  lemma {:induction false} BondRowsFit(cs: seq<Coin>)
    ensures forall n <- BondRows(cs) :: n < UINT64_END
    decreases |cs|
  {
    if cs != [] {
      BondRowsFit(cs[1..]);
    }
  }

  /** They agree on every list with at most one bond-denom coin, below 2^64: the chain prints one coin a denomination. */
  lemma ChainListsAgree(cs: seq<Coin>)
    requires GoodCoins(cs) && forall i, j :: 0 <= i < j < |cs| ==> !(IsBond(cs[i]) && IsBond(cs[j]))
    requires forall c <- cs :: IsBond(c) ==> Fits(c)
    ensures Agree(PrintedList(cs))
  {
    ParsersAgree(cs);
    var k := FirstBondPlace(cs);
    if k < |cs| {
      assert cs[k] in cs && OnlyFirstFits(cs, k);
    }
  }

  /** Off the chain's own lists they can differ: one oversize coin, or two coins of the bond denomination. */
  lemma ParsersDiffer()
    ensures !Agree(PrintedList([Coin(UINT64_END, BOND_DENOM)]))
    ensures !Agree(PrintedList([Coin(1, BOND_DENOM), Coin(2, BOND_DENOM)]))
  {
    var big, two := [Coin(UINT64_END, BOND_DENOM)], [Coin(1, BOND_DENOM), Coin(2, BOND_DENOM)];
    UhashAmountOfPrinted(big);
    TransferAmountsOfPrinted(big);
    UhashAmountOfPrinted(two);
    TransferAmountsOfPrinted(two);
    assert BondRows(two) == [1] + BondRows(two[1..]) == [1, 2];
  }
}
