/**
  The balances projection of indexer/balances.go, one block at a time: the events of a block are
  summed into per-address deltas, and the non-zero ones are upserted. An absent row stands for zero.
 */
module Balances {
  import opened Prelude
  import opened Coins

  /// Events

  datatype Attr = Attr(key: string, value: string)
  datatype Event = Event(kind: string, attrs: seq<Attr>)

  datatype TxResult = TxResult(code: int, events: seq<Event>)

  /** The begin, transaction, end and finalize events of one block's results; failed transactions included. */
  datatype BlockResults = BlockResults(begin: seq<Event>, txs: seq<TxResult>, end: seq<Event>, finalize: seq<Event>)

  function Lookup(attrs: seq<Attr>, key: string): (v: string) {
    if attrs == [] then "" else if attrs[0].key == key then attrs[0].value else Lookup(attrs[1..], key)
  }

  function AllTxEvents(txs: seq<TxResult>): (evs: seq<Event>) {
    if txs == [] then [] else AllTxEvents(txs[..|txs| - 1]) + txs[|txs| - 1].events
  }

  function AllEvents(r: BlockResults): (evs: seq<Event>) {
    r.begin + AllTxEvents(r.txs) + r.end + r.finalize
  }

  /** The signed quantity an event moves at an address; none when the projection ignores the event. */
  function Effect(ev: Event): (r: Option<(string, int)>) {
    var addr :=
      if ev.kind == "coin_spent" then Lookup(ev.attrs, "spender")
      else if ev.kind == "coin_received" then Lookup(ev.attrs, "receiver")
      else "";
    if addr == "" then None
    else
      match UhashAmount(Lookup(ev.attrs, "amount"))
      case None => None
      case Some(n) =>
        var d: int := n;
        if d == 0 then None else Some((addr, if ev.kind == "coin_spent" then -d else d))
  }

  function EffectAt(ev: Event, a: string): (d: int) {
    match Effect(ev)
    case Some((addr, d)) => if addr == a then d else 0
    case None => 0
  }

  /** What a list of events adds up to at one address. */
  function Net(evs: seq<Event>, a: string): (d: int)
    decreases |evs|
  {
    if evs == [] then 0 else Net(evs[..|evs| - 1], a) + EffectAt(evs[|evs| - 1], a)
  }

  /** The bond-denom quantity of an event; nothing when there is none to parse. */
  function Quantity(ev: Event): (n: nat) {
    match UhashAmount(Lookup(ev.attrs, "amount"))
    case Some(n) => n
    case None => 0
  }

  /** What the coin_received events with a receiver bring in. */
  function Received(evs: seq<Event>): (n: nat)
    decreases |evs|
  {
    if evs == [] then 0
    else
      var ev := evs[|evs| - 1];
      Received(evs[..|evs| - 1])
      + if ev.kind == "coin_received" && Lookup(ev.attrs, "receiver") != "" then Quantity(ev) else 0
  }

  /** What the coin_spent events with a spender take out. */
  function Spent(evs: seq<Event>): (n: nat)
    decreases |evs|
  {
    if evs == [] then 0
    else
      var ev := evs[|evs| - 1];
      Spent(evs[..|evs| - 1])
      + if ev.kind == "coin_spent" && Lookup(ev.attrs, "spender") != "" then Quantity(ev) else 0
  }

  /// Deltas

  type Deltas = map<string, int>

  function Get(m: Deltas, a: string): (d: int) {
    if a in m then m[a] else 0
  }

  ghost predicate Touches(evs: seq<Event>, a: string) {
    exists ev <- evs :: Effect(ev).Some? && Effect(ev).value.0 == a
  }

  /** `m` holds only addresses the events touch, each with what they add up to. */
  ghost predicate Sums(m: Deltas, evs: seq<Event>) {
    && (forall a :: a in m ==> Touches(evs, a))
    && (forall a :: Get(m, a) == Net(evs, a))
  }

  function Added(m: Deltas, ev: Event): (m': Deltas) {
    match Effect(ev)
    case None => m
    case Some((addr, d)) => m[addr := Get(m, addr) + d]
  }

  function DeltasOf(evs: seq<Event>): (m: Deltas)
    decreases |evs|
  {
    if evs == [] then map[] else Added(DeltasOf(evs[..|evs| - 1]), evs[|evs| - 1])
  }

  lemma SumsAdded(m: Deltas, evs: seq<Event>, ev: Event)
    requires Sums(m, evs)
    ensures Sums(Added(m, ev), evs + [ev])
  {
    var m', evs' := Added(m, ev), evs + [ev];
    assert evs'[..|evs|] == evs;
    forall a ensures Get(m', a) == Net(evs', a) {
      assert Net(evs', a) == Net(evs, a) + EffectAt(ev, a);
    }
    forall a | a in m' ensures Touches(evs', a) {
      if a in m {
        var e :| e in evs && Effect(e).Some? && Effect(e).value.0 == a;
        assert e in evs';
      } else {
        assert ev in evs';
      }
    }
  }

  lemma {:induction false} DeltasSum(evs: seq<Event>)
    ensures Sums(DeltasOf(evs), evs)
    decreases |evs|
  {
    if evs != [] {
      var n := |evs| - 1;
      DeltasSum(evs[..n]);
      SumsAdded(DeltasOf(evs[..n]), evs[..n], evs[n]);
      assert evs == evs[..n] + [evs[n]];
    }
  }

  method ApplyBalanceEvent(deltas: Deltas, ev: Event) returns (deltas': Deltas, changed: bool)
    ensures deltas' == Added(deltas, ev)
    ensures changed <==> Effect(ev).Some?
  {
    deltas', changed := deltas, false;
    if ev.kind != "coin_spent" && ev.kind != "coin_received" {
      return;
    }
    var spent := ev.kind == "coin_spent";
    var addr := Lookup(ev.attrs, if spent then "spender" else "receiver");
    if addr == "" {
      return;
    }
    var amount := ReadUhashAmount(Lookup(ev.attrs, "amount"));
    if amount.None? || amount.value == 0 {
      return;
    }
    var n: int := amount.value;
    var d := if spent then -n else n;
    if addr in deltas {
      deltas' := deltas[addr := deltas[addr] + d];
    } else {
      deltas' := deltas[addr := d];
    }
    changed := true;
  }

  lemma DeltasSnoc(evs: seq<Event>, ev: Event)
    ensures DeltasOf(evs + [ev]) == Added(DeltasOf(evs), ev)
  {
    assert (evs + [ev])[..|evs|] == evs;
  }

  lemma PrefixSnoc<T>(before: seq<T>, s: seq<T>, i: nat)
    requires i < |s|
    ensures before + s[..i] + [s[i]] == before + s[..i + 1]
  {
  }

  method ApplyBalanceEvents(start: Deltas, evs: seq<Event>, ghost before: seq<Event>) returns (deltas: Deltas)
    requires start == DeltasOf(before)
    ensures deltas == DeltasOf(before + evs)
  {
    deltas := start;
    assert before + evs[..0] == before;
    for i := 0 to |evs|
      invariant deltas == DeltasOf(before + evs[..i])
    {
      DeltasSnoc(before + evs[..i], evs[i]);
      PrefixSnoc(before, evs, i);
      var next, _ := ApplyBalanceEvent(deltas, evs[i]);
      deltas := next;
    }
    assert evs[..|evs|] == evs;
  }

  lemma TxEventsSnoc(before: seq<Event>, txs: seq<TxResult>, i: nat)
    requires i < |txs|
    ensures before + AllTxEvents(txs[..i]) + txs[i].events == before + AllTxEvents(txs[..i + 1])
  {
    assert txs[..i + 1][..i] == txs[..i];
  }

  method ApplyTxEvents(start: Deltas, txs: seq<TxResult>, ghost before: seq<Event>) returns (deltas: Deltas)
    requires start == DeltasOf(before)
    ensures deltas == DeltasOf(before + AllTxEvents(txs))
  {
    deltas := start;
    assert before + AllTxEvents(txs[..0]) == before;
    for i := 0 to |txs|
      invariant deltas == DeltasOf(before + AllTxEvents(txs[..i]))
    {
      TxEventsSnoc(before, txs, i);
      deltas := ApplyBalanceEvents(deltas, txs[i].events, before + AllTxEvents(txs[..i]));
    }
    assert txs[..|txs|] == txs;
  }

  method CollectBalanceDeltas(r: BlockResults) returns (deltas: Deltas)
    ensures deltas == DeltasOf(AllEvents(r))
  {
    deltas := map[];
    deltas := ApplyBalanceEvents(deltas, r.begin, []);
    assert [] + r.begin == r.begin;
    deltas := ApplyTxEvents(deltas, r.txs, r.begin);
    deltas := ApplyBalanceEvents(deltas, r.end, r.begin + AllTxEvents(r.txs));
    deltas := ApplyBalanceEvents(deltas, r.finalize, r.begin + AllTxEvents(r.txs) + r.end);
  }

  /// The table

  datatype Row = Row(amount: int, updatedHeight: int)
  type Table = map<string, Row>

  function Amount(t: Table, a: string): (n: int) {
    if a in t then t[a].amount else 0
  }

  /** `INSERT ... ON CONFLICT DO UPDATE SET amount = amount + EXCLUDED.amount`, with a new height. */
  function Upserted(t: Table, a: string, d: int, height: int): (t': Table) {
    t[a := Row(Amount(t, a) + d, height)]
  }

  /** The table after the non-zero deltas: the rows they name, with the block's height. */
  function AfterDeltas(t: Table, deltas: Deltas, height: int): (t': Table) {
    map a | a in t.Keys + deltas.Keys && (a in t || deltas[a] != 0) ::
      if Get(deltas, a) != 0 then Row(Amount(t, a) + deltas[a], height) else t[a]
  }

  lemma AfterOneMore(t: Table, deltas: Deltas, rest: set<string>, addr: string, height: int)
    requires addr in rest && rest <= deltas.Keys
    ensures var before, d := AfterDeltas(t, deltas - rest, height), deltas[addr];
            AfterDeltas(t, deltas - (rest - {addr}), height)
            == if d != 0 then Upserted(before, addr, d, height) else before
  {
  }

  /** Upserts in whatever order the remaining addresses are taken; the ingester sorts them. */
  method UpsertDeltas(t: Table, deltas: Deltas, height: int) returns (t': Table)
    ensures t' == AfterDeltas(t, deltas, height)
  {
    t' := t;
    var rest := deltas.Keys;
    assert AfterDeltas(t, deltas - rest, height) == t;
    while rest != {}
      invariant rest <= deltas.Keys
      invariant t' == AfterDeltas(t, deltas - rest, height)
    {
      var addr :| addr in rest;
      AfterOneMore(t, deltas, rest, addr, height);
      var d := deltas[addr];
      if d != 0 {
        t' := Upserted(t', addr, d, height);
      }
      rest := rest - {addr};
    }
    assert deltas - {} == deltas;
  }

  /// The reference: every event applied on its own

  function EachEvent(t: Table, evs: seq<Event>, height: int): (t': Table)
    decreases |evs|
  {
    if evs == [] then t
    else
      var before := EachEvent(t, evs[..|evs| - 1], height);
      match Effect(evs[|evs| - 1])
      case Some((a, d)) => Upserted(before, a, d, height)
      case None => before
  }

  lemma {:induction false} EachEventAmount(t: Table, evs: seq<Event>, height: int, a: string)
    ensures Amount(EachEvent(t, evs, height), a) == Amount(t, a) + Net(evs, a)
    decreases |evs|
  {
    if evs != [] {
      EachEventAmount(t, evs[..|evs| - 1], height, a);
    }
  }

  lemma {:induction false} NetConcat(xs: seq<Event>, ys: seq<Event>, a: string)
    ensures Net(xs + ys, a) == Net(xs, a) + Net(ys, a)
    decreases |ys|
  {
    if ys == [] {
      assert xs + ys == xs;
    } else {
      assert (xs + ys)[..|xs + ys| - 1] == xs + ys[..|ys| - 1];
      NetConcat(xs, ys[..|ys| - 1], a);
    }
  }

  function Without<T>(s: seq<T>, k: nat): (r: seq<T>)
    requires k < |s|
  {
    s[..k] + s[k + 1..]
  }

  lemma MultisetWithout<T>(s: seq<T>, k: nat)
    requires k < |s|
    ensures multiset(s) == multiset(Without(s, k)) + multiset{s[k]}
  {
    assert s == s[..k] + [s[k]] + s[k + 1..];
  }

  lemma NetWithout(evs: seq<Event>, k: nat, a: string)
    requires k < |evs|
    ensures Net(evs, a) == Net(Without(evs, k), a) + EffectAt(evs[k], a)
  {
    assert evs == evs[..k + 1] + evs[k + 1..];
    assert evs[..k + 1][..k] == evs[..k];
    NetConcat(evs[..k + 1], evs[k + 1..], a);
    NetConcat(evs[..k], evs[k + 1..], a);
  }

  lemma MatchingIndex<T>(xs: seq<T>, ys: seq<T>) returns (k: nat)
    requires xs != [] && multiset(xs) == multiset(ys)
    ensures k < |ys| && ys[k] == xs[0]
    ensures multiset(Without(xs, 0)) == multiset(Without(ys, k))
  {
    assert xs[0] in multiset(ys);
    k :| 0 <= k < |ys| && ys[k] == xs[0];
    MultisetWithout(xs, 0);
    MultisetWithout(ys, k);
    assert multiset(Without(xs, 0)) == multiset(xs) - multiset{xs[0]};
    assert multiset(Without(ys, k)) == multiset(ys) - multiset{ys[k]};
  }

  lemma {:induction false} NetPermuted(xs: seq<Event>, ys: seq<Event>, a: string)
    requires multiset(xs) == multiset(ys)
    ensures Net(xs, a) == Net(ys, a)
    decreases |xs|
  {
    if xs == [] {
      assert |multiset(ys)| == 0;
    } else {
      var k := MatchingIndex(xs, ys);
      NetWithout(xs, 0, a);
      NetWithout(ys, k, a);
      var xs', ys' := Without(xs, 0), Without(ys, k);
      NetPermuted(xs', ys', a);
    }
  }

  /** The table after one block. */
  function BlockFolded(t: Table, r: BlockResults, height: int): (t': Table) {
    AfterDeltas(t, DeltasOf(AllEvents(r)), height)
  }

  lemma BlockAmount(t: Table, r: BlockResults, height: int, a: string)
    ensures Amount(BlockFolded(t, r, height), a) == Amount(t, a) + Net(AllEvents(r), a)
  {
    DeltasSum(AllEvents(r));
  }

  /** Summing first and upserting the non-zero sums is applying the events one by one, in any order. */
  lemma DeltasMatchEvents(t: Table, r: BlockResults, order: seq<Event>, height: int)
    requires multiset(order) == multiset(AllEvents(r))
    ensures SameAmounts(BlockFolded(t, r, height), EachEvent(t, order, height))
  {
    forall a ensures Amount(BlockFolded(t, r, height), a) == Amount(EachEvent(t, order, height), a) {
      BlockAmount(t, r, height, a);
      EachEventAmount(t, order, height, a);
      NetPermuted(order, AllEvents(r), a);
    }
  }

  ghost predicate SameAmounts(t: Table, t': Table) {
    forall a :: Amount(t, a) == Amount(t', a)
  }

  /// Totals

  ghost function Total(t: Table): (n: int) {
    if t == map[] then 0
    else
      var a :| a in t;
      t[a].amount + Total(t - {a})
  }

  lemma {:induction false} TotalRemove(t: Table, a: string)
    requires a in t
    ensures Total(t) == t[a].amount + Total(t - {a})
    decreases |t|
  {
    var b :| b in t && Total(t) == t[b].amount + Total(t - {b});
    if a != b {
      TotalRemove(t - {b}, a);
      TotalRemove(t - {a}, b);
      assert t - {a} - {b} == t - {b} - {a};
    }
  }

  lemma TotalUpserted(t: Table, a: string, d: int, height: int)
    ensures Total(Upserted(t, a, d, height)) == Total(t) + d
  {
    var t' := Upserted(t, a, d, height);
    TotalRemove(t', a);
    if a in t {
      TotalRemove(t, a);
      assert t' - {a} == t - {a};
    } else {
      assert t' - {a} == t;
    }
  }

  lemma TotalDrop(t: Table, a: string)
    ensures Total(t) == Amount(t, a) + Total(t - {a})
  {
    if a in t {
      TotalRemove(t, a);
    } else {
      assert t - {a} == t;
    }
  }

  lemma SameAmountsDrop(t: Table, t': Table, a: string)
    requires SameAmounts(t, t')
    ensures SameAmounts(t - {a}, t' - {a})
  {
    forall b ensures Amount(t - {a}, b) == Amount(t' - {a}, b) {
      assert Amount(t, b) == Amount(t', b);
    }
  }

  /** Totals see amounts only: not heights, and not whether a zero row is there. */
  lemma {:induction false} TotalSameAmounts(t: Table, t': Table)
    requires SameAmounts(t, t')
    ensures Total(t) == Total(t')
    decreases |t| + |t'|
  {
    if t != map[] || t' != map[] {
      var a :| a in t || a in t';
      TotalDrop(t, a);
      TotalDrop(t', a);
      SameAmountsDrop(t, t', a);
      assert Amount(t, a) == Amount(t', a);
      assert (t - {a}).Keys == t.Keys - {a} && (t' - {a}).Keys == t'.Keys - {a};
      assert |(t - {a}).Keys| + |(t' - {a}).Keys| < |t.Keys| + |t'.Keys|;
      TotalSameAmounts(t - {a}, t' - {a});
    }
  }

  method SumTable(t: Table) returns (n: int)
    ensures n == Total(t)
  {
    n := 0;
    var rest := t;
    while rest != map[]
      invariant n + Total(rest) == Total(t)
      decreases |rest|
    {
      var a :| a in rest;
      TotalRemove(rest, a);
      n := n + rest[a].amount;
      assert (rest - {a}).Keys == rest.Keys - {a};
      rest := rest - {a};
    }
  }

  lemma {:induction false} EachEventTotal(t: Table, evs: seq<Event>, height: int)
    ensures Total(EachEvent(t, evs, height)) == Total(t) + Received(evs) - Spent(evs)
    decreases |evs|
  {
    if evs != [] {
      var n := |evs| - 1;
      EachEventTotal(t, evs[..n], height);
      match Effect(evs[n])
      case Some((a, d)) => TotalUpserted(EachEvent(t, evs[..n], height), a, d, height);
      case None =>
    }
  }

  /** A block changes the table's total by what it received minus what it spent. */
  lemma BlockConserves(t: Table, r: BlockResults, height: int)
    ensures Total(BlockFolded(t, r, height)) == Total(t) + Received(AllEvents(r)) - Spent(AllEvents(r))
  {
    DeltasMatchEvents(t, r, AllEvents(r), height);
    TotalSameAmounts(BlockFolded(t, r, height), EachEvent(t, AllEvents(r), height));
    EachEventTotal(t, AllEvents(r), height);
  }

  /// Genesis

  datatype GenesisBalance = GenesisBalance(address: string, amount: nat)

  function GenesisAt(g: seq<GenesisBalance>, a: string): (n: nat) {
    if g == [] then 0
    else GenesisAt(g[..|g| - 1], a) + (if g[|g| - 1].address == a then g[|g| - 1].amount else 0)
  }

  function GenesisTotal(g: seq<GenesisBalance>): (n: nat) {
    if g == [] then 0 else GenesisTotal(g[..|g| - 1]) + g[|g| - 1].amount
  }

  /** Repeated genesis addresses add up; the height stays zero. */
  method SeedTable(g: seq<GenesisBalance>) returns (t: Table)
    ensures t == Seeded(g)
  {
    t := map[];
    for i := 0 to |g|
      invariant t == Seeded(g[..i])
    {
      t := Upserted(t, g[i].address, g[i].amount, 0);
      assert g[..i + 1][..i] == g[..i];
    }
    assert g[..|g|] == g;
  }

  function Seeded(g: seq<GenesisBalance>): (t: Table) {
    if g == [] then map[]
    else Upserted(Seeded(g[..|g| - 1]), g[|g| - 1].address, g[|g| - 1].amount, 0)
  }

  lemma {:induction false} SeededAmounts(g: seq<GenesisBalance>)
    ensures forall a :: Amount(Seeded(g), a) == GenesisAt(g, a)
    ensures Total(Seeded(g)) == GenesisTotal(g)
    decreases |g|
  {
    if g != [] {
      var n := |g| - 1;
      SeededAmounts(g[..n]);
      TotalUpserted(Seeded(g[..n]), g[n].address, g[n].amount, 0);
    }
  }
}
