/**
  The ingester object of indexer/chain.go and indexer/balances.go. `faults` fixes which of the
  coming fetches, statements and commits fail; every contract holds for every schedule. `history`
  records the atomic steps taken, so that each method is proved to produce a run of the follower's
  state machine, and every theorem about runs holds of the object.
 */
module Follower {
  import opened Prelude
  import opened Coins
  import opened Balances
  import opened FollowerModel

  const STEP_BATCH := 200

  function Min(a: int, b: int): (m: int) {
    if a < b then a else b
  }

  lemma {:induction false} FirstBlockExists(blocks: set<int>)
    requires exists b :: b in blocks
    ensures exists m :: IsFirstBlock(m, blocks)
    decreases |blocks|
  {
    var b :| b in blocks;
    var rest := blocks - {b};
    assert blocks == rest + {b};
    if forall x :: x !in rest {
      assert IsFirstBlock(b, blocks);
    } else {
      FirstBlockExists(rest);
      var m :| IsFirstBlock(m, rest);
      assert IsFirstBlock(if b < m then b else m, blocks);
    }
  }

  /// Transfer rows

  lemma EventRowsStep(h: int, hash: string, evs: seq<Event>, k: nat, rows: seq<Transfer>)
    requires k < |evs|
    ensures rows + EventRows(h, hash, evs[k..])
         == (rows + OneEventRows(h, hash, evs[k])) + EventRows(h, hash, evs[k + 1..])
  {
    assert evs[k..][1..] == evs[k + 1..];
    Associates(rows, OneEventRows(h, hash, evs[k]), EventRows(h, hash, evs[k + 1..]));
  }

  method CollectEventRows(h: int, hash: string, evs: seq<Event>) returns (rows: seq<Transfer>)
    ensures rows == EventRows(h, hash, evs)
  {
    rows := [];
    for k := 0 to |evs|
      invariant rows + EventRows(h, hash, evs[k..]) == EventRows(h, hash, evs)
    {
      EventRowsStep(h, hash, evs, k, rows);
      var more := CollectOneEvent(h, hash, evs[k]);
      rows := rows + more;
    }
  }

  method CollectOneEvent(h: int, hash: string, ev: Event) returns (rows: seq<Transfer>)
    ensures rows == OneEventRows(h, hash, ev)
  {
    var sender, recipient := Lookup(ev.attrs, "sender"), Lookup(ev.attrs, "recipient");
    if ev.kind != "transfer" || sender == "" || recipient == "" {
      return [];
    }
    var amounts := ReadTransferAmounts(Lookup(ev.attrs, "amount"));
    rows := AmountRows(h, hash, sender, recipient, amounts);
  }

  predicate Rowless(hashes: seq<string>, txs: seq<TxResult>, i: nat)
    requires i < |hashes|
  {
    hashes[i] == "" || i >= |txs| || txs[i].code != 0
  }

  lemma TxRowsStep(h: int, hashes: seq<string>, txs: seq<TxResult>, i: nat, rows: seq<Transfer>)
    requires i < |hashes|
    ensures rows + TxRows(h, hashes, txs, i)
         == (rows + (if Rowless(hashes, txs, i) then [] else EventRows(h, hashes[i], txs[i].events)))
            + TxRows(h, hashes, txs, i + 1)
  {
    Associates(rows, if Rowless(hashes, txs, i) then [] else EventRows(h, hashes[i], txs[i].events),
                TxRows(h, hashes, txs, i + 1));
  }

  method CollectTxRows(h: int, hashes: seq<string>, txs: seq<TxResult>) returns (rows: seq<Transfer>)
    ensures rows == TxRows(h, hashes, txs, 0)
  {
    rows := [];
    for i := 0 to |hashes|
      invariant rows + TxRows(h, hashes, txs, i) == TxRows(h, hashes, txs, 0)
    {
      TxRowsStep(h, hashes, txs, i, rows);
      var more := [];
      if !Rowless(hashes, txs, i) {
        more := CollectEventRows(h, hashes[i], txs[i].events);
      }
      rows := rows + more;
    }
  }

  method CollectTransfers(w: World, h: int) returns (rows: seq<Transfer>)
    ensures rows == TransferRows(w, h)
  {
    rows := CollectTxRows(h, w.hashes(h), w.results(h).txs);
  }

  /// The object

  class Ingester {
    const w: World
    ghost const origin: State
    var db: Db
    var mem: Mem
    var faults: seq<bool>
    ghost var folded: seq<int>
    ghost var history: seq<Step>

    ghost function Now(): (s: State)
      reads this
    {
      State(db, mem, folded)
    }

    ghost predicate Valid()
      reads this
    {
      Initial(w, origin) && IsRun(w, origin, history) && RunTo(w, origin, history) == Now()
    }

    /** Nothing further fails. */
    predicate Calm()
      reads this
    {
      faults == []
    }

    constructor (w: World, db: Db, start: int, faults: seq<bool>)
      requires Initial(w, State(db, Mem(false, false, 0, start), []))
      ensures Valid() && this.w == w && this.db == db && this.faults == faults
    {
      this.w, this.db, this.faults := w, db, faults;
      mem := Mem(false, false, 0, start);
      folded, history := [], [];
      origin := State(db, Mem(false, false, 0, start), []);
    }

    lemma Cursors()
      requires Valid()
      ensures 0 <= db.balancesHeight <= ChainAt(db.chain)
      ensures !db.seeded ==> db.balancesHeight == 0
      ensures mem.loaded ==> mem.seeded == db.seeded && mem.height == db.balancesHeight
    {
      RunInv(w, origin, history);
    }

    lemma TableNow()
      requires Valid()
      ensures db.balancesHeight >= 0 && (db.balancesHeight > 0 ==> db.seeded)
      ensures db.seeded && !db.partial ==> IsExact(w, db.balances, db.balancesHeight)
    {
      Cursors();
      UnflaggedTableIsExact(w, origin, history);
    }

    /** Records an atomic step out of the state that the history has reached. */
    ghost method Took(step: Step, s: State)
      requires Initial(w, origin) && IsRun(w, origin, history) && RunTo(w, origin, history) == s
      requires Enabled(s, step) && After(w, s, step) == Now()
      modifies this`history
      ensures Valid() && history == old(history) + [step]
    {
      RunSnoc(w, origin, history, step);
      history := history + [step];
    }

    method Attempt() returns (ok: bool)
      modifies this`faults
      ensures Now() == old(Now()) && (old(Valid()) ==> Valid())
      ensures old(Calm()) ==> ok && Calm()
    {
      if faults == [] {
        return true;
      }
      ok := !faults[0];
      faults := faults[1..];
    }

    /** A crash, and a new process with its own configuration. */
    method Reopen(start: int)
      requires Valid()
      modifies this`mem, this`history
      ensures Valid() && db == old(db) && !mem.loaded
    {
      mem := Mem(false, false, 0, start);
      Took(Restart(start), old(Now()));
    }

    method LoadBalanceState() returns (r: Outcome)
      requires Valid()
      modifies this`mem, this`faults, this`history
      ensures Valid() && mem.start == old(mem.start)
      ensures Now() == if r.Ok? then Loaded(old(Now())) else old(Now())
      ensures r.Ok? ==> mem.loaded
      ensures old(mem.loaded) ==> r.Ok? && mem == old(mem)
      ensures old(Calm()) ==> r.Ok? && Calm()
    {
      if mem.loaded {
        return Ok;
      }
      var ok := Attempt();
      if !ok {
        return Failed;
      }
      mem := mem.(loaded := true, seeded := db.seeded, height := db.balancesHeight);
      Took(Load, old(Now()));
      r := Ok;
    }

    method SeedBalances() returns (r: Outcome)
      requires Valid()
      modifies this`db, this`mem, this`faults, this`folded, this`history
      ensures Valid() && mem.start == old(mem.start)
      ensures r.Ok? ==> mem.loaded && mem.seeded
      ensures r.Ok? ==> Now() == var s := Loaded(old(Now())); if s.mem.seeded then s else After(w, s, Seed)
      ensures r.Failed? ==> db == old(db)
      ensures db.chain == old(db.chain) && db.partial == old(db.partial) && db.balancesHeight == old(db.balancesHeight)
      ensures old(Calm()) ==> r.Ok? && Calm()
    {
      r := LoadBalanceState();
      if r.Failed? || mem.seeded {
        return;
      }
      Cursors();
      // the genesis fetch and parse, and the statements and commit of the transaction
      var ok := Attempt();
      if !ok {
        return Failed;
      }
      var t := SeedTable(w.genesis);
      ghost var s0 := Now();
      db := db.(balances := t, balancesHeight := 0, seeded := true);
      mem := mem.(seeded := true, height := 0);
      folded := [];
      Took(Seed, s0);
    }

    /** What one block does to the table inside an open transaction. */
    method ApplyBalancesTx(tx: Table, h: int) returns (tx': Table)
      ensures tx' == BlockFolded(tx, w.results(h), h)
    {
      var deltas := CollectBalanceDeltas(w.results(h));
      tx' := UpsertDeltas(tx, deltas, h);
    }

    /** Folds the block inside its own transaction when the projection is exactly one block behind. */
    method FoldInline(tx: Db, h: int) returns (tx': Db, applied: bool)
      ensures applied <==> Inline(Now(), h)
      ensures tx' == if applied then tx.(balances := BlockFolded(tx.balances, w.results(h), h), balancesHeight := h) else tx
    {
      tx', applied := tx, false;
      if mem.seeded && mem.height == h - 1 {
        var t := ApplyBalancesTx(tx.balances, h);
        tx', applied := tx.(balances := t, balancesHeight := h), true;
      }
    }

    /** The commit, after which the cached cursor follows an inline fold. */
    method CommitBlock(tx: Db, h: int, applied: bool)
      requires Valid() && mem.loaded && h == NextHeight(db.chain, mem.start)
      requires tx == Indexed(w, Now(), h).db && (applied <==> Inline(Now(), h))
      modifies this`db, this`mem, this`folded, this`history
      ensures Valid() && Now() == Indexed(w, old(Now()), h)
    {
      db := tx;
      if applied {
        mem := mem.(height := h);
        folded := folded + [h];
      }
      Took(Index, old(Now()));
    }

    method IndexBlock(h: int) returns (r: Outcome)
      requires Valid() && h == NextHeight(db.chain, mem.start)
      modifies this`db, this`mem, this`faults, this`folded, this`history
      ensures Valid() && mem.start == old(mem.start)
      ensures db.partial == old(db.partial)
      ensures old(db.balancesHeight) <= db.balancesHeight <= old(db.balancesHeight) + 1
      ensures old(mem.loaded && mem.seeded) ==> mem.loaded && mem.seeded
      ensures r.Ok? ==> Now() == Indexed(w, Loaded(old(Now())), h) && mem.loaded
      ensures r.Ok? ==> db.chain == WithBlock(w, old(db.chain), h)
      ensures r.Failed? ==> db == old(db)
      ensures old(Calm()) ==> r.Ok? && Calm()
    {
      // three fetches, and the statements that insert the block and its transfer rows
      var ok := Attempt();
      if !ok {
        return Failed;
      }
      var rows := CollectTransfers(w, h);
      r := LoadBalanceState();
      if r.Failed? {
        return;
      }
      var tx := db.(chain := Chain(Some(h), db.chain.blocks + {h}, db.chain.transfers + rows));
      var applied;
      tx, applied := FoldInline(tx, h);
      ok := Attempt();
      if !ok {
        return Failed;
      }
      Cursors();
      CommitBlock(tx, h, applied);
    }

    method QueryFirstBlock() returns (m: int)
      requires exists b :: b in db.chain.blocks
      ensures IsFirstBlock(m, db.chain.blocks)
    {
      FirstBlockExists(db.chain.blocks);
      m :| IsFirstBlock(m, db.chain.blocks);
    }

    method SetPartial(first: int)
      requires Valid() && Enabled(Now(), MarkPartial(first))
      modifies this`db, this`history
      ensures Valid() && Now() == After(w, old(Now()), MarkPartial(first))
    {
      db := db.(partial := true);
      Took(MarkPartial(first), old(Now()));
    }

    method SetHeight(first: int)
      requires Valid() && Enabled(Now(), SkipTo(first))
      modifies this`db, this`mem, this`history
      ensures Valid() && Now() == After(w, old(Now()), SkipTo(first))
    {
      db := db.(balancesHeight := first - 1);
      mem := mem.(height := first - 1);
      Took(SkipTo(first), old(Now()));
    }

    /** Block results that cannot be fetched: flag the projection, then skip to the first block held. */
    method SkipUnavailable() returns (r: Outcome)
      requires Valid() && Lagging(Now())
      modifies this`db, this`mem, this`faults, this`history
      ensures Valid()
      ensures if r.Ok? then SkippedAhead(old(Now()), Now()) else FlaggedOnly(old(Now()), Now())
    {
      ghost var s0 := Now();
      var ok := Attempt();
      if !ok || !exists b :: b in db.chain.blocks {
        return Failed;
      }
      var first := QueryFirstBlock();
      if first <= mem.height + 1 {
        return Failed;
      }
      ok := Attempt();
      if !ok {
        return Failed;
      }
      SkipAhead(w, s0, first);
      SetPartial(first);
      ok := Attempt();
      if !ok {
        return Failed;
      }
      SetHeight(first);
      r := Ok;
    }

    method MoveTo(t: Table, h: int)
      modifies this`db, this`mem, this`folded
      ensures Now() == MovedTo(old(Now()), t, h)
    {
      db := db.(balances := t, balancesHeight := h);
      mem := mem.(height := h);
      folded := folded + [h];
    }

    method CommitFold(t: Table, h: int)
      requires Valid() && Enabled(Now(), CatchUp) && After(w, Now(), CatchUp) == MovedTo(Now(), t, h)
      modifies this`db, this`mem, this`folded, this`history
      ensures Valid() && Now() == After(w, old(Now()), CatchUp)
    {
      MoveTo(t, h);
      Took(CatchUp, old(Now()));
    }

    method FoldNext()
      requires Valid() && Lagging(Now())
      modifies this`db, this`mem, this`folded, this`history
      ensures Valid() && Now() == After(w, old(Now()), CatchUp)
    {
      var h := mem.height + 1;
      var t := ApplyBalancesTx(db.balances, h);
      CatchUpMoves(w, Now(), t);
      CommitFold(t, h);
    }

    /** One turn of the catch-up loop: fold the next height, or skip what cannot be fetched. */
    method CatchUpOnce() returns (folding: bool, r: Outcome)
      requires Valid() && Lagging(Now())
      modifies this`db, this`mem, this`faults, this`folded, this`history
      ensures Valid()
      ensures folding ==> r.Ok? && Now() == After(w, old(Now()), CatchUp)
      ensures r.Ok? && !folding ==> SkippedAhead(old(Now()), Now())
      ensures r.Failed? ==> FlaggedOnly(old(Now()), Now())
      ensures old(Calm()) ==> r.Ok? && folding && Calm()
    {
      var fetched := Attempt();
      if !fetched {
        r := SkipUnavailable();
        return false, r;
      }
      var committed := Attempt();
      if !committed {
        return false, Failed;
      }
      FoldNext();
      folding, r := true, Ok;
    }

    method CatchUpBalances(indexed: int, limit: nat) returns (changed: bool, r: Outcome)
      requires Valid() && indexed == ChainAt(db.chain)
      modifies this`db, this`mem, this`faults, this`folded, this`history
      ensures Valid() && mem.start == old(mem.start) && db.chain == old(db.chain)
      ensures old(db.balancesHeight) <= db.balancesHeight
      ensures old(db.partial) ==> db.partial
      ensures old(Calm()) ==> r.Ok? && Calm() && db.partial == old(db.partial)
      ensures old(mem.loaded) ==> mem.loaded
      ensures old(Calm()) && old(mem.loaded && mem.seeded) ==>
                db.balancesHeight == Min(old(db.balancesHeight) + limit, indexed)
    {
      changed := false;
      Cursors();
      r := LoadBalanceState();
      if r.Failed? || !mem.seeded {
        return;
      }
      Cursors();
      ghost var before := mem.height;
      var n := 0;
      while mem.height < indexed && n < limit && r.Ok?
        invariant Valid() && mem.loaded && mem.seeded
        invariant mem.start == old(mem.start) && db.chain == old(db.chain)
        invariant before <= mem.height && n <= limit
        invariant old(db.partial) ==> db.partial
        invariant old(Calm()) ==> r.Ok? && Calm() && db.partial == old(db.partial) && mem.height == before + n
      {
        var folding;
        folding, r := CatchUpOnce();
        changed := changed || folding;
        n := n + 1;
      }
      Cursors();
    }

    method UpdateSupplyStat() returns (r: Outcome)
      requires Valid()
      modifies this`db, this`faults, this`history
      ensures Valid()
      ensures db == old(db).(supply := db.supply)
      ensures r.Ok? ==> db.supply == Some((Total(db.balances), mem.height))
      ensures old(Calm()) ==> r.Ok? && Calm()
    {
      var ok := Attempt();
      if !ok {
        return Failed;
      }
      var sum := SumTable(db.balances);
      db := db.(supply := Some((sum, mem.height)));
      Took(RecordSupply, old(Now()));
      r := Ok;
    }

    method StepProjections(indexed: int)
      requires Valid() && indexed == ChainAt(db.chain)
      modifies this`db, this`mem, this`faults, this`folded, this`history
      ensures Valid() && mem.start == old(mem.start) && db.chain == old(db.chain)
      ensures old(db.balancesHeight) <= db.balancesHeight
      ensures old(db.partial) ==> db.partial
      ensures old(Calm()) ==> Calm() && db.partial == old(db.partial)
      ensures old(Calm()) && old(mem.loaded && mem.seeded) ==>
                db.balancesHeight == Min(old(db.balancesHeight) + STEP_BATCH, indexed)
      ensures old(Calm()) && old(mem.loaded && mem.seeded) && db.balancesHeight == indexed > 0 ==>
                db.supply == Some((Total(db.balances), indexed))
    {
      Cursors();
      if indexed <= 0 {
        return;
      }
      var changed, _ := CatchUpBalances(indexed, STEP_BATCH);
      Cursors();
      if changed || mem.height == indexed {
        var _ := UpdateSupplyStat();
      }
    }

    /** How far the two cursors are behind a tip. */
    function Lag(tip: int): (n: int)
      reads this
    {
      (tip - ChainAt(db.chain)) + (tip - db.balancesHeight)
    }

    /** The block loop of one poll: from the next height up to the tip, a batch at most. */
    method IndexBatch(latest: int) returns (r: Outcome)
      requires Valid()
      modifies this`db, this`mem, this`faults, this`folded, this`history
      ensures Valid() && mem.start == old(mem.start)
      ensures old(db.balancesHeight) <= db.balancesHeight
      ensures ChainAt(old(db.chain)) <= ChainAt(db.chain)
      ensures ChainAt(db.chain) <= latest || db.chain == old(db.chain)
      ensures db.partial == old(db.partial)
      ensures old(Calm()) ==> r.Ok? && Calm()
      ensures old(Calm()) && NextHeight(old(db.chain), mem.start) <= latest ==> ChainAt(old(db.chain)) < ChainAt(db.chain)
      ensures old(mem.loaded && mem.seeded) ==> mem.loaded && mem.seeded
    {
      r := Ok;
      Cursors();
      var next := NextHeight(db.chain, mem.start);
      var n := 0;
      while next <= latest && n < STEP_BATCH && r.Ok?
        invariant Valid() && mem.start == old(mem.start)
        invariant r.Ok? ==> next == NextHeight(db.chain, mem.start)
        invariant old(db.balancesHeight) <= db.balancesHeight
        invariant ChainAt(old(db.chain)) <= ChainAt(db.chain)
        invariant ChainAt(db.chain) <= latest || db.chain == old(db.chain)
        invariant db.partial == old(db.partial)
        invariant old(Calm()) ==> r.Ok? && Calm()
        invariant n > 0 && r.Ok? ==> ChainAt(old(db.chain)) < ChainAt(db.chain)
        invariant old(mem.loaded && mem.seeded) ==> mem.loaded && mem.seeded
      {
        r := IndexBlock(next);
        next, n := next + 1, n + 1;
      }
    }

    method Step(latest: int) returns (r: Outcome)
      requires Valid()
      modifies this`db, this`mem, this`faults, this`folded, this`history
      ensures Valid() && mem.start == old(mem.start)
      ensures old(db.balancesHeight) <= db.balancesHeight
      ensures ChainAt(old(db.chain)) <= ChainAt(db.chain)
      ensures ChainAt(old(db.chain)) <= latest ==> ChainAt(db.chain) <= latest
      ensures old(Calm()) ==> r.Ok? && Calm() && db.partial == old(db.partial)
      ensures old(Calm()) && mem.start <= latest && 1 <= latest && ChainAt(old(db.chain)) <= latest ==>
                old(Lag(latest)) > 0 ==> Lag(latest) < old(Lag(latest))
    {
      var ok := Attempt();
      if !ok {
        return Failed;
      }
      // a seeding failure is logged, not fatal
      var _ := SeedBalances();
      r := IndexBatch(latest);
      if r.Failed? {
        return;
      }
      label Indexed:
      Cursors();
      StepProjections(ChainAt(db.chain));
    }

    /**
      Without failures, polling against a fixed tip brings both cursors to it, and an unflagged table
      to what genesis and every event of the blocks up to it make.
     */
    method FollowTo(tip: int)
      requires Valid() && Calm() && 1 <= tip && mem.start <= tip && ChainAt(db.chain) <= tip
      modifies this`db, this`mem, this`faults, this`folded, this`history
      ensures Valid() && db.partial == old(db.partial)
      ensures ChainAt(db.chain) == tip == db.balancesHeight && db.seeded
      ensures !db.partial ==> IsExact(w, db.balances, tip)
    {
      Cursors();
      while Lag(tip) > 0
        invariant Valid() && Calm() && mem.start == old(mem.start) && ChainAt(db.chain) <= tip
        invariant db.partial == old(db.partial)
        invariant Lag(tip) >= 0
        decreases Lag(tip)
      {
        var _ := Step(tip);
        Cursors();
      }
      Cursors();
      TableNow();
    }
  }
}
