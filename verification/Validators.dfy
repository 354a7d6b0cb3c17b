/**
  The validators projection (indexer/validators.go, with the refresh of stepProjections in
  indexer/chain.go): a full walk of the listing, an upsert stamped with the indexed height, and a
  prune of everything stamped lower.
 */
module Validators {
  import opened Prelude
  import opened Coins
  import opened Registry

  const BOND_PREFIX := "BOND_STATUS_"

  /** A staking validator as the REST gateway renders it; "" for what it leaves out. */
  datatype RestValidator =
    RestValidator(operator: string, tokens: string, status: string, jailed: bool, moniker: string, rate: string)

  datatype Validator =
    Validator(operator: string, moniker: string, tokens: nat, rate: string, status: string, jailed: bool)

  function NormalizeBondStatus(s: string): (t: string) {
    Lower(if BOND_PREFIX <= s then s[|BOND_PREFIX|..] else s)
  }

  /** A base-10 `big.Int`, sign allowed, that is not negative. */
  function ParseTokens(s: string): (n: Option<nat>) {
    var signed := s != "" && (s[0] == '+' || s[0] == '-');
    var digits := if signed then s[1..] else s;
    if digits == "" || !AllDigits(digits) then None
    else
      var n := ParseDecimal(digits);
      if s[0] == '-' && n > 0 then None else Some(n)
  }

  function FromRest(m: RestValidator): (v: Option<Validator>) {
    if m.operator == "" then None
    else
      match ParseTokens(TrimSpace(m.tokens))
      case None => None
      case Some(n) =>
        Some(Validator(m.operator, m.moniker, n, m.rate, NormalizeBondStatus(m.status), m.jailed))
  }

  /** An entry with an operator and printed tokens becomes a row of its own fields, the status in its short form. */
  lemma RestColumns(m: RestValidator, n: nat)
    requires m.operator != "" && m.tokens == Decimal(n)
    ensures FromRest(m) == Some(Validator(m.operator, m.moniker, n, m.rate, NormalizeBondStatus(m.status), m.jailed))
  {
    DecimalRoundTrip(n);
    var s := Decimal(n);
    assert IsDigit(s[0]) && IsDigit(s[|s| - 1]);
    assert TrimSpace(s) == s;
  }

  /** An entry without an operator, or with negative or empty tokens, is dropped. */
  lemma RestDropped(m: RestValidator, n: nat)
    requires m.operator == "" || m.tokens == "" || (n > 0 && m.tokens == "-" + Decimal(n))
    ensures FromRest(m) == None
  {
    if m.operator != "" && m.tokens != "" {
      DecimalRoundTrip(n);
      var s := "-" + Decimal(n);
      assert s[1..] == Decimal(n) && s[|s| - 1] == Decimal(n)[|Decimal(n)| - 1];
      assert IsDigit(s[|s| - 1]);
      assert TrimSpace(s) == s;
    }
  }

  /** The bond statuses of the chain in their stored form. */
  lemma BondStatuses()
    ensures NormalizeBondStatus("BOND_STATUS_BONDED") == "bonded"
    ensures NormalizeBondStatus("BOND_STATUS_UNBONDING") == "unbonding"
    ensures NormalizeBondStatus("BOND_STATUS_UNBONDED") == "unbonded"
  {
    LoweredStatus("BOND_STATUS_BONDED", "BONDED", "bonded");
    LoweredStatus("BOND_STATUS_UNBONDING", "UNBONDING", "unbonding");
    LoweredStatus("BOND_STATUS_UNBONDED", "UNBONDED", "unbonded");
  }

  lemma LoweredStatus(s: string, rest: string, low: string)
    requires s == BOND_PREFIX + rest && |rest| == |low|
    requires forall i :: 0 <= i < |rest| ==> 'A' <= rest[i] <= 'Z' && low[i] as int == rest[i] as int + 32
    ensures NormalizeBondStatus(s) == low
  {
    assert s[|BOND_PREFIX|..] == rest;
    assert Lower(rest) == low;
  }

  function Rows(listing: seq<RestValidator>): (vs: seq<Validator>)
    decreases |listing|
  {
    if listing == [] then []
    else
      Rows(listing[..|listing| - 1])
      + match FromRest(listing[|listing| - 1]) case Some(v) => [v] case None => []
  }

  function Operators(vs: seq<Validator>): (ops: set<string>) {
    set v | v in vs :: v.operator
  }

  /// The table

  datatype Stamped = Stamped(validator: Validator, height: int)
  type Table = map<string, Stamped>

  function Upserted(t: Table, vs: seq<Validator>, height: int): (t': Table)
    decreases |vs|
  {
    if vs == [] then t
    else
      var v := vs[|vs| - 1];
      Upserted(t, vs[..|vs| - 1], height)[v.operator := Stamped(v, height)]
  }

  function Pruned(t: Table, height: int): (t': Table) {
    map op | op in t && t[op].height >= height :: t[op]
  }

  lemma {:induction false} UpsertedKeys(t: Table, vs: seq<Validator>, height: int)
    ensures Upserted(t, vs, height).Keys == t.Keys + Operators(vs)
    ensures forall op <- Operators(vs) :: Upserted(t, vs, height)[op].height == height
    ensures forall op <- t :: op !in Operators(vs) ==> Upserted(t, vs, height)[op] == t[op]
    decreases |vs|
  {
    if vs != [] {
      var n := |vs| - 1;
      UpsertedKeys(t, vs[..n], height);
      assert vs == vs[..n] + [vs[n]];
      assert Operators(vs) == Operators(vs[..n]) + {vs[n].operator};
    }
  }

  /**
    A refresh leaves exactly the listed operators if and only if every row that is not listed carries
    a height below the refresh height.
   */
  lemma RefreshIsExact(t: Table, vs: seq<Validator>, height: int)
    ensures Pruned(Upserted(t, vs, height), height).Keys == Operators(vs)
       <==> forall op <- t :: op !in Operators(vs) ==> t[op].height < height
  {
    UpsertedKeys(t, vs, height);
    var t' := Pruned(Upserted(t, vs, height), height);
    forall op | op in Operators(vs) ensures op in t' {
      assert op in Upserted(t, vs, height);
    }
    forall op <- t | op !in Operators(vs) ensures op in t' <==> t[op].height >= height {
      assert op in Upserted(t, vs, height);
    }
  }

  /** The row of a listed operator is its last entry in the listing. */
  lemma {:induction false} RefreshKeepsLast(t: Table, vs: seq<Validator>, height: int, i: nat)
    requires i < |vs| && forall j :: i < j < |vs| ==> vs[j].operator != vs[i].operator
    ensures var t' := Pruned(Upserted(t, vs, height), height);
            vs[i].operator in t' && t'[vs[i].operator] == Stamped(vs[i], height)
    decreases |vs|
  {
    var n := |vs| - 1;
    if i < n {
      RefreshKeepsLast(t, vs[..n], height, i);
      assert vs[n].operator != vs[i].operator;
    }
  }

  /** Whether a refresh is due at an indexed height. */
  predicate Due(last: int, height: int, every: int) {
    last == 0 || height - last >= (if every <= 0 then 50 else every)
  }

  lemma DueIsLater(last: int, height: int, every: int)
    requires last >= 0 && height >= 1 && Due(last, height, every)
    ensures height > last
  {
  }

  class ValidatorSync {
    const pager: Pager<RestValidator>
    /** The persisted rows and refresh cursor. */
    var rows: Table
    var refreshed: int
    /** The refresh cursor cached by the process. */
    var loaded: bool
    var cached: int

    /** No row is stamped above the last refresh, and the cached cursor is the persisted one. */
    ghost predicate Valid()
      reads this
    {
      && refreshed >= 0
      && (forall op <- rows :: rows[op].height <= refreshed)
      && (loaded ==> cached == refreshed)
    }

    constructor (pager: Pager<RestValidator>)
      ensures Valid() && this.pager == pager && rows == map[]
    {
      this.pager := pager;
      rows, refreshed, loaded, cached := map[], 0, false, 0;
    }

    /** A crash: the memory goes, the rows and cursors stay. */
    method Reopen()
      requires Valid()
      modifies this`loaded, this`cached
      ensures Valid() && !loaded
    {
      loaded, cached := false, 0;
    }

    /** One refresh: either the rows are those of the complete listing just read, or nothing changed. */
    method SyncValidators(listing: seq<seq<RestValidator>>, height: int) returns (r: Outcome)
      requires Valid() && loaded && listing != [] && height > refreshed
      modifies this`rows, this`refreshed, this`cached, pager
      ensures Valid()
      ensures r.Ok? ==> refreshed == height && rows.Keys == Operators(Rows(Flatten(listing)))
                        && rows == Pruned(Upserted(old(rows), Rows(Flatten(listing)), height), height)
      ensures r.Failed? ==> rows == old(rows) && refreshed == old(refreshed)
      ensures old(pager.faults) == [] ==> pager.faults == [] && (|listing| <= MAX_REGISTRY_PAGES ==> r.Ok?)
    {
      var ok := pager.ClearCursor();
      if !ok {
        return Failed;
      }
      var walk, handed := pager.Paginate(listing);
      if !walk.Done? {
        return Failed;
      }
      var vs := CollectRows(handed);
      var tx := UpsertRows(rows, vs, height);
      tx := Pruned(tx, height);
      ok := pager.Attempt();
      if !ok {
        return Failed;
      }
      RefreshIsExact(rows, vs, height);
      UpsertedKeys(rows, vs, height);
      rows, refreshed, cached := tx, height, height;
      r := Ok;
    }

    /** The refresh of one poll (stepProjections): due or not, the invariant and exactness hold. */
    method RefreshIfDue(indexed: int, every: int, listing: seq<seq<RestValidator>>) returns (r: Outcome, synced: bool)
      requires Valid() && listing != []
      modifies this, pager
      ensures Valid()
      ensures synced ==> refreshed == indexed > old(refreshed) && rows.Keys == Operators(Rows(Flatten(listing)))
      ensures !synced ==> rows == old(rows) && refreshed == old(refreshed)
      ensures synced ==> indexed > 0 && (old(refreshed) == 0 || indexed - old(refreshed) >= (if every <= 0 then 50 else every))
      ensures old(pager.faults) == [] && indexed > 0 && |listing| <= MAX_REGISTRY_PAGES ==>
                (synced <==> old(refreshed) == 0 || indexed - old(refreshed) >= (if every <= 0 then 50 else every))
    {
      synced := false;
      if indexed <= 0 {
        return Ok, false;
      }
      if !loaded {
        var ok := pager.Attempt();
        if !ok {
          return Failed, false;
        }
        loaded, cached := true, refreshed;
      }
      if Due(cached, indexed, every) {
        DueIsLater(cached, indexed, every);
        var sync := SyncValidators(listing, indexed);
        synced := sync.Ok?;
      }
      r := Ok;
    }
  }

  method CollectRows(items: seq<RestValidator>) returns (vs: seq<Validator>)
    ensures vs == Rows(items)
  {
    vs := [];
    for k := 0 to |items|
      invariant vs == Rows(items[..k])
    {
      assert items[..k + 1][..k] == items[..k];
      match FromRest(items[k])
      case Some(v) => vs := vs + [v];
      case None =>
    }
    assert items[..|items|] == items;
  }

  method UpsertRows(t: Table, vs: seq<Validator>, height: int) returns (t': Table)
    ensures t' == Upserted(t, vs, height)
  {
    t' := t;
    for k := 0 to |vs|
      invariant t' == Upserted(t, vs[..k], height)
    {
      assert vs[..k + 1][..k] == vs[..k];
      t' := t'[vs[k].operator := Stamped(vs[k], height)];
    }
    assert vs[..|vs|] == vs;
  }
}
