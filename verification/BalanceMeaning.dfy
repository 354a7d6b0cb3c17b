/**
  What the balances projection does to the accounts that a block's own events name: stated on raw
  event kinds, attributes and printed coins (indexer/balances.go), and for transfer rows
  (indexer/chain.go).
 */
module BalanceMeaning {
  import opened Prelude
  import opened Coins
  import opened Balances
  import opened FollowerModel

  /// Attributes

  /** The first attribute of a key, which is the one that is read. */
  predicate HasFirst(attrs: seq<Attr>, key: string, value: string) {
    exists i :: 0 <= i < |attrs| && attrs[i] == Attr(key, value) && forall j :: 0 <= j < i ==> attrs[j].key != key
  }

  lemma {:induction false} FirstIsRead(attrs: seq<Attr>, key: string, value: string)
    requires HasFirst(attrs, key, value)
    ensures Lookup(attrs, key) == value
    decreases |attrs|
  {
    var i :| 0 <= i < |attrs| && attrs[i] == Attr(key, value) && forall j :: 0 <= j < i ==> attrs[j].key != key;
    if i > 0 {
      assert attrs[0].key != key;
      assert attrs[1..][i - 1] == Attr(key, value) && forall j :: 0 <= j < i - 1 ==> attrs[1..][j].key != key;
      FirstIsRead(attrs[1..], key, value);
    }
  }

  lemma {:induction false} MissingIsEmpty(attrs: seq<Attr>, key: string)
    requires forall i :: 0 <= i < |attrs| ==> attrs[i].key != key
    ensures Lookup(attrs, key) == ""
    decreases |attrs|
  {
    if attrs != [] {
      MissingIsEmpty(attrs[1..], key);
    }
  }

  /// One event

  /** The k-th coin is the first of denomination uhash. */
  predicate FirstUhashCoin(cs: seq<Coin>, k: nat) {
    k < |cs| && cs[k].denom == "uhash" && forall j :: 0 <= j < k ==> cs[j].denom != "uhash"
  }

  lemma QuantityPrinted(ev: Event, cs: seq<Coin>, k: nat)
    requires HasFirst(ev.attrs, "amount", PrintedList(cs)) && GoodCoins(cs) && FirstUhashCoin(cs, k)
    ensures UhashAmount(Lookup(ev.attrs, "amount")) == Some(cs[k].amount)
  {
    FirstIsRead(ev.attrs, "amount", PrintedList(cs));
    UhashAmountOfPrinted(cs);
    FromFirstBond(cs, k);
  }

  /** A coin_spent event lowers its spender's balance by its first uhash coin, and no other balance moves. */
  lemma SpentLowers(t: Table, ev: Event, a: string, cs: seq<Coin>, k: nat, height: int)
    requires ev.kind == "coin_spent" && HasFirst(ev.attrs, "spender", a) && a != ""
    requires HasFirst(ev.attrs, "amount", PrintedList(cs)) && GoodCoins(cs) && FirstUhashCoin(cs, k)
    ensures forall b :: Amount(EachEvent(t, [ev], height), b) == Amount(t, b) - if b == a then cs[k].amount else 0
    ensures Spent([ev]) == cs[k].amount && Received([ev]) == 0
  {
    FirstIsRead(ev.attrs, "spender", a);
    QuantityPrinted(ev, cs, k);
    forall b ensures Amount(EachEvent(t, [ev], height), b) == Amount(t, b) - if b == a then cs[k].amount else 0 {
      EachEventAmount(t, [ev], height, b);
      NetOne(ev, b);
    }
    SumsOne(ev);
  }

  /** A coin_received event raises its receiver's balance by its first uhash coin, and no other balance moves. */
  lemma ReceivedRaises(t: Table, ev: Event, a: string, cs: seq<Coin>, k: nat, height: int)
    requires ev.kind == "coin_received" && HasFirst(ev.attrs, "receiver", a) && a != ""
    requires HasFirst(ev.attrs, "amount", PrintedList(cs)) && GoodCoins(cs) && FirstUhashCoin(cs, k)
    ensures forall b :: Amount(EachEvent(t, [ev], height), b) == Amount(t, b) + if b == a then cs[k].amount else 0
    ensures Received([ev]) == cs[k].amount && Spent([ev]) == 0
  {
    FirstIsRead(ev.attrs, "receiver", a);
    QuantityPrinted(ev, cs, k);
    forall b ensures Amount(EachEvent(t, [ev], height), b) == Amount(t, b) + if b == a then cs[k].amount else 0 {
      EachEventAmount(t, [ev], height, b);
      NetOne(ev, b);
    }
    SumsOne(ev);
  }

  /** No attribute of a key, or an empty first one. */
  predicate Absent(attrs: seq<Attr>, key: string) {
    (forall i :: 0 <= i < |attrs| ==> attrs[i].key != key) || HasFirst(attrs, key, "")
  }

  lemma AbsentIsEmpty(attrs: seq<Attr>, key: string)
    requires Absent(attrs, key)
    ensures Lookup(attrs, key) == ""
  {
    if forall i :: 0 <= i < |attrs| ==> attrs[i].key != key {
      MissingIsEmpty(attrs, key);
    } else {
      FirstIsRead(attrs, key, "");
    }
  }

  /** An event of another kind, or without its address, its amount or a uhash coin, moves nothing. */
  lemma OthersMoveNothing(t: Table, ev: Event, cs: seq<Coin>, height: int)
    requires || (ev.kind != "coin_spent" && ev.kind != "coin_received")
             || (ev.kind == "coin_spent" && Absent(ev.attrs, "spender"))
             || (ev.kind == "coin_received" && Absent(ev.attrs, "receiver"))
             || Absent(ev.attrs, "amount")
             || (HasFirst(ev.attrs, "amount", PrintedList(cs)) && GoodCoins(cs)
                 && forall j :: 0 <= j < |cs| ==> cs[j].denom != "uhash")
    ensures EachEvent(t, [ev], height) == t && Received([ev]) == 0 && Spent([ev]) == 0
  {
    if Absent(ev.attrs, "amount") {
      AbsentIsEmpty(ev.attrs, "amount");
      assert UhashAmount("") == None;
    } else if ev.kind == "coin_spent" && Absent(ev.attrs, "spender") {
      AbsentIsEmpty(ev.attrs, "spender");
    } else if ev.kind == "coin_received" && Absent(ev.attrs, "receiver") {
      AbsentIsEmpty(ev.attrs, "receiver");
    } else if ev.kind == "coin_spent" || ev.kind == "coin_received" {
      FirstIsRead(ev.attrs, "amount", PrintedList(cs));
      UhashAmountOfPrinted(cs);
      BondAbsent(cs);
    }
    assert [ev][..0] == [];
    SumsOne(ev);
  }

  lemma NetOne(ev: Event, a: string)
    ensures Net([ev], a) == EffectAt(ev, a)
  {
    assert [ev][..0] == [];
  }

  lemma SumsOne(ev: Event)
    ensures Received([ev]) == if ev.kind == "coin_received" && Lookup(ev.attrs, "receiver") != "" then Quantity(ev) else 0
    ensures Spent([ev]) == if ev.kind == "coin_spent" && Lookup(ev.attrs, "spender") != "" then Quantity(ev) else 0
  {
    assert [ev][..0] == [];
  }

  /// One block

  /** Every group of events counts in full, the events of a failed transaction included. */
  lemma BlockNet(r: BlockResults, a: string)
    ensures Net(AllEvents(r), a)
         == Net(r.begin, a) + TxNet(r.txs, a) + Net(r.end, a) + Net(r.finalize, a)
  {
    TxNetIs(r.txs, a);
    NetConcat(r.begin, AllTxEvents(r.txs), a);
    NetConcat(r.begin + AllTxEvents(r.txs), r.end, a);
    NetConcat(r.begin + AllTxEvents(r.txs) + r.end, r.finalize, a);
  }

  /** What transactions add up to, whatever their result codes. */
  function TxNet(txs: seq<TxResult>, a: string): (d: int) {
    if txs == [] then 0 else Net(txs[0].events, a) + TxNet(txs[1..], a)
  }

  lemma {:induction false} TxNetIs(txs: seq<TxResult>, a: string)
    ensures Net(AllTxEvents(txs), a) == TxNet(txs, a)
    decreases |txs|
  {
    if txs != [] {
      var rest := txs[1..];
      TxNetIs(rest, a);
      TxEventsFirst(txs[0], rest);
      assert txs == [txs[0]] + rest;
      NetConcat(txs[0].events, AllTxEvents(rest), a);
    }
  }

  lemma {:induction false} TxEventsFirst(tx: TxResult, txs: seq<TxResult>)
    ensures AllTxEvents([tx] + txs) == tx.events + AllTxEvents(txs)
    decreases |txs|
  {
    var all := [tx] + txs;
    if txs == [] {
      assert all[..0] == [] && AllTxEvents(all) == [] + tx.events;
    } else {
      assert all[..|all| - 1] == [tx] + txs[..|txs| - 1];
      TxEventsFirst(tx, txs[..|txs| - 1]);
      Associates(tx.events, AllTxEvents(txs[..|txs| - 1]), txs[|txs| - 1].events);
    }
  }

  /** A folded block stamps its height on the rows whose balance it moved, and leaves every other row as it was. */
  lemma BlockStamps(t: Table, r: BlockResults, height: int, a: string)
    ensures var t', n := BlockFolded(t, r, height), Net(AllEvents(r), a);
            if n != 0 then a in t' && t'[a] == Row((if a in t then t[a].amount else 0) + n, height)
            else (a in t' <==> a in t) && (a in t ==> t'[a] == t[a])
  {
    DeltasSum(AllEvents(r));
  }

  /// Genesis and ranges of blocks

  /** Genesis amounts add up over repeated addresses, and every seeded row carries height zero. */
  lemma {:induction false} GenesisRows(g: seq<GenesisBalance>, x: GenesisBalance, a: string)
    ensures GenesisAt(g + [x], a) == GenesisAt(g, a) + if a == x.address then x.amount else 0
    ensures GenesisTotal(g + [x]) == GenesisTotal(g) + x.amount
    ensures a in Seeded(g) ==> Seeded(g)[a].updatedHeight == 0
    ensures GenesisAt([], a) == 0 == GenesisTotal([])
    decreases |g|
  {
    assert (g + [x])[..|g|] == g;
    if g != [] {
      GenesisRows(g[..|g| - 1], x, a);
    }
  }

  /** The heights an exact table covers: 1 to h, each once, in order. */
  lemma {:induction false} HeightsUpTo(h: nat, i: nat)
    requires i < h
    ensures UpTo(h)[i] == i + 1
    decreases h
  {
    if i < h - 1 {
      HeightsUpTo(h - 1, i);
    }
  }

  /// Transfer rows

  /** A transfer event with both parties gives one row for each uhash coin below 2^64, from sender to recipient. */
  lemma TransferEventRows(h: int, hash: string, ev: Event, sender: string, recipient: string, cs: seq<Coin>)
    requires ev.kind == "transfer" && HasFirst(ev.attrs, "sender", sender) && HasFirst(ev.attrs, "recipient", recipient)
    requires sender != "" && recipient != "" && HasFirst(ev.attrs, "amount", PrintedList(cs)) && GoodCoins(cs)
    ensures var rows := OneEventRows(h, hash, ev);
            && |rows| == |BondRows(cs)|
            && forall i :: 0 <= i < |rows| ==> rows[i] == Transfer(h, hash, sender, recipient, BondRows(cs)[i])
  {
    FirstIsRead(ev.attrs, "sender", sender);
    FirstIsRead(ev.attrs, "recipient", recipient);
    FirstIsRead(ev.attrs, "amount", PrintedList(cs));
    TransferAmountsOfPrinted(cs);
  }

  /** Other events, and transfers that lack a party, give none. */
  lemma NoTransferRows(h: int, hash: string, ev: Event)
    requires ev.kind != "transfer" || Absent(ev.attrs, "sender") || Absent(ev.attrs, "recipient")
    ensures OneEventRows(h, hash, ev) == []
  {
    if ev.kind == "transfer" {
      if Absent(ev.attrs, "sender") {
        AbsentIsEmpty(ev.attrs, "sender");
      } else {
        AbsentIsEmpty(ev.attrs, "recipient");
      }
    }
  }

  lemma {:induction false} InEventRows(h: int, hash: string, evs: seq<Event>, row: Transfer)
    ensures row in EventRows(h, hash, evs) <==> exists ev <- evs :: row in OneEventRows(h, hash, ev)
    decreases |evs|
  {
    if evs != [] {
      InEventRows(h, hash, evs[1..], row);
      assert evs == [evs[0]] + evs[1..];
    }
  }

  /** A block's rows are those of the events of its successful transactions, under the hash of the transaction. */
  lemma BlockTransferRows(w: World, h: int, row: Transfer)
    ensures row in TransferRows(w, h) <==> exists i :: RowFrom(w, h, i, row)
  {
    if row in TransferRows(w, h) {
      var _ := RowHasSource(w, h, 0, row);
    }
    if i :| RowFrom(w, h, i, row) {
      SourceHasRow(w, h, 0, row, i);
    }
  }

  /** The i-th transaction has a hash and a result of code zero, and an event of it gives the row. */
  predicate RowFrom(w: World, h: int, i: int, row: Transfer) {
    && 0 <= i < |w.hashes(h)| && w.hashes(h)[i] != "" && i < |w.results(h).txs| && w.results(h).txs[i].code == 0
    && exists ev <- w.results(h).txs[i].events :: row in OneEventRows(h, w.hashes(h)[i], ev)
  }

  lemma InTxRowsStep(w: World, h: int, i: nat, row: Transfer)
    requires i < |w.hashes(h)|
    ensures var hashes, txs := w.hashes(h), w.results(h).txs;
            row in TxRows(h, hashes, txs, i) <==> RowFrom(w, h, i, row) || row in TxRows(h, hashes, txs, i + 1)
  {
    if i < |w.results(h).txs| {
      InEventRows(h, w.hashes(h)[i], w.results(h).txs[i].events, row);
    }
  }

  lemma {:induction false} RowHasSource(w: World, h: int, i: nat, row: Transfer) returns (j: nat)
    requires i <= |w.hashes(h)| && row in TxRows(h, w.hashes(h), w.results(h).txs, i)
    ensures RowFrom(w, h, j, row)
    decreases |w.hashes(h)| - i
  {
    InTxRowsStep(w, h, i, row);
    j := i;
    if !RowFrom(w, h, i, row) {
      j := RowHasSource(w, h, i + 1, row);
    }
  }

  lemma {:induction false} SourceHasRow(w: World, h: int, i: nat, row: Transfer, j: nat)
    requires i <= j && RowFrom(w, h, j, row)
    ensures row in TxRows(h, w.hashes(h), w.results(h).txs, i)
    decreases j - i
  {
    InTxRowsStep(w, h, i, row);
    if i < j {
      SourceHasRow(w, h, i + 1, row, j);
    }
  }
}
