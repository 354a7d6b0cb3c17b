/**
  The chain follower of indexer/chain.go and indexer/balances.go as a state machine: the database,
  the cursors cached in memory, and one step for every atomic write or commit. A failure is a step
  not taken; a crash is a restart, which may come between any two steps and forgets the memory.
  Commits and single-statement writes are taken to report truthfully.
 */
module FollowerModel {
  import opened Prelude
  import opened Coins
  import opened Balances

  /// The chain

  /**
    What the node serves, fixed for each height: genesis, block results, and the hash of each
    transaction of a block ("" when the raw block lacks it or it does not decode).
   */
  datatype World = World(genesis: seq<GenesisBalance>, results: int -> BlockResults, hashes: int -> seq<string>)

  datatype Transfer = Transfer(height: int, txhash: string, sender: string, recipient: string, amount: nat)

  function AmountRows(h: int, hash: string, sender: string, recipient: string, amounts: seq<nat>): (rows: seq<Transfer>)
    ensures forall t <- rows :: t.height == h
  {
    seq(|amounts|, i requires 0 <= i < |amounts| => Transfer(h, hash, sender, recipient, amounts[i]))
  }

  /** The rows of one event. */
  function OneEventRows(h: int, hash: string, ev: Event): (rows: seq<Transfer>)
    ensures forall t <- rows :: t.height == h
  {
    var sender, recipient := Lookup(ev.attrs, "sender"), Lookup(ev.attrs, "recipient");
    if ev.kind != "transfer" || sender == "" || recipient == "" then []
    else AmountRows(h, hash, sender, recipient, TransferAmounts(Lookup(ev.attrs, "amount")))
  }

  function EventRows(h: int, hash: string, evs: seq<Event>): (rows: seq<Transfer>)
    ensures forall t <- rows :: t.height == h
  {
    if evs == [] then [] else OneEventRows(h, hash, evs[0]) + EventRows(h, hash, evs[1..])
  }

  /** Rows of the transactions from the i-th on; one without a result counts as successful and eventless. */
  function TxRows(h: int, hashes: seq<string>, txs: seq<TxResult>, i: nat): (rows: seq<Transfer>)
    requires i <= |hashes|
    ensures forall t <- rows :: t.height == h
    decreases |hashes| - i
  {
    if i == |hashes| then []
    else
      (if hashes[i] == "" || i >= |txs| || txs[i].code != 0 then [] else EventRows(h, hashes[i], txs[i].events))
      + TxRows(h, hashes, txs, i + 1)
  }

  function TransferRows(w: World, h: int): (rows: seq<Transfer>)
    ensures forall t <- rows :: t.height == h
  {
    TxRows(h, w.hashes(h), w.results(h).txs, 0)
  }

  function RowsAt(rows: seq<Transfer>, h: int): (r: seq<Transfer>)
    decreases |rows|
  {
    if rows == [] then []
    else RowsAt(rows[..|rows| - 1], h) + (if rows[|rows| - 1].height == h then [rows[|rows| - 1]] else [])
  }

  /// State

  /** The block cursor with the rows that move with it. */
  datatype Chain = Chain(cursor: Option<int>, blocks: set<int>, transfers: seq<Transfer>)

  datatype Db = Db(chain: Chain, balances: Table, seeded: bool, balancesHeight: int, partial: bool,
                   supply: Option<(int, int)>)

  /** The cached projection cursors; `start` is the configured first height of this process. */
  datatype Mem = Mem(loaded: bool, seeded: bool, height: int, start: int)

  /** `folded` is history only: the heights folded into the table since it was seeded. */
  datatype State = State(db: Db, mem: Mem, folded: seq<int>)

  function ChainAt(c: Chain): (h: int) {
    match c.cursor case Some(h) => h case None => 0
  }

  /** The next height `step` indexes. */
  function NextHeight(c: Chain, start: int): (h: int) {
    var first := if start < 1 then 1 else start;
    match c.cursor
    case Some(h) => if h + 1 > first then h + 1 else first
    case None => first
  }

  /** That is the least height that is positive, at least the configured start, and above the cursor. */
  lemma NextHeightIs(c: Chain, start: int, h: int)
    ensures h >= NextHeight(c, start) <==> h >= 1 && h >= start && (c.cursor.Some? ==> h > c.cursor.value)
  {
  }

  predicate IsFirstBlock(m: int, blocks: set<int>) {
    m in blocks && forall b <- blocks :: m <= b
  }

  /// Steps

  datatype Step =
    | Load
    | Seed
    | Index
    | CatchUp
    | MarkPartial(first: int)
    | SkipTo(first: int)
    | RecordSupply
    | Restart(start: int)

  /** The catch-up loop has a block to fold. */
  predicate Lagging(s: State) {
    s.mem.loaded && s.mem.seeded && s.mem.height < ChainAt(s.db.chain)
  }

  predicate Enabled(s: State, step: Step) {
    match step
    case Load => !s.mem.loaded
    case Seed => s.mem.loaded && !s.mem.seeded
    case Index => s.mem.loaded
    case CatchUp => Lagging(s)
    case MarkPartial(first) => Lagging(s) && IsFirstBlock(first, s.db.chain.blocks) && first > s.mem.height + 1
    case SkipTo(first) => Lagging(s) && IsFirstBlock(first, s.db.chain.blocks) && first > s.mem.height + 1 && s.db.partial
    case RecordSupply => true
    case Restart(_) => true
  }

  /** The inline fold of IndexBlock happens exactly when the projection is one block behind. */
  predicate Inline(s: State, h: int) {
    s.mem.seeded && s.mem.height == h - 1
  }

  function WithBlock(w: World, c: Chain, h: int): (c': Chain) {
    Chain(Some(h), c.blocks + {h}, c.transfers + TransferRows(w, h))
  }

  /** Both projection cursors moved to a height, with the table that goes with it. */
  function MovedTo(s: State, t: Table, h: int): (s': State) {
    s.(db := s.db.(balances := t, balancesHeight := h), mem := s.mem.(height := h), folded := s.folded + [h])
  }

  function WithFold(w: World, s: State, h: int): (s': State) {
    MovedTo(s, BlockFolded(s.db.balances, w.results(h), h), h)
  }

  function WithChain(s: State, c: Chain): (s': State) {
    s.(db := s.db.(chain := c))
  }

  function WithCache(s: State): (s': State) {
    s.(mem := s.mem.(loaded := true, seeded := s.db.seeded, height := s.db.balancesHeight))
  }

  /** The state with its projection cursors cached, read only when they are not. */
  function Loaded(s: State): (s': State) {
    if s.mem.loaded then s else WithCache(s)
  }

  /** The one transaction of IndexBlock. */
  function Indexed(w: World, s: State, h: int): (s': State) {
    var s1 := WithChain(s, WithBlock(w, s.db.chain, h));
    if Inline(s, h) then WithFold(w, s1, h) else s1
  }

  /**
    An indexed block moves the block cursor and its rows; the balances move with it exactly when the
    projection stood one block behind.
   */
  lemma IndexedIs(w: World, s: State, h: int)
    ensures var s' := Indexed(w, s, h);
            && s'.db.chain.cursor == Some(h) && s'.db.chain.blocks == s.db.chain.blocks + {h}
            && s'.db.chain.transfers == s.db.chain.transfers + TransferRows(w, h)
            && s'.db.seeded == s.db.seeded && s'.db.partial == s.db.partial && s'.db.supply == s.db.supply
            && if s.mem.seeded && s.mem.height + 1 == h
               then s'.db.balances == BlockFolded(s.db.balances, w.results(h), h)
                    && s'.db.balancesHeight == s'.mem.height == h && s'.folded == s.folded + [h]
               else s'.db.balances == s.db.balances && s'.db.balancesHeight == s.db.balancesHeight
                    && s'.mem == s.mem && s'.folded == s.folded
  {
  }

  ghost function After(w: World, s: State, step: Step): (s': State) {
    match step
    case Load => WithCache(s)
    case Seed => State(s.db.(balances := Seeded(w.genesis), balancesHeight := 0, seeded := true),
                       s.mem.(seeded := true, height := 0), [])
    case Index => Indexed(w, s, NextHeight(s.db.chain, s.mem.start))
    case CatchUp => WithFold(w, s, s.mem.height + 1)
    case MarkPartial(_) => s.(db := s.db.(partial := true))
    case SkipTo(first) => s.(db := s.db.(balancesHeight := first - 1), mem := s.mem.(height := first - 1))
    case RecordSupply => s.(db := s.db.(supply := Some((Total(s.db.balances), s.mem.height))))
    case Restart(start) => s.(mem := Mem(false, false, 0, start))
  }

  /** A catch-up step that folds moves both cursors to the next height, with that block's table. */
  lemma CatchUpMoves(w: World, s: State, t: Table)
    requires Lagging(s) && t == BlockFolded(s.db.balances, w.results(s.mem.height + 1), s.mem.height + 1)
    ensures Enabled(s, CatchUp) && After(w, s, CatchUp) == MovedTo(s, t, s.mem.height + 1)
  {
  }

  /** A failed catch-up turn: nothing but, at most, the partial flag has changed. */
  predicate FlaggedOnly(s: State, s': State) {
    s' == s.(db := s.db.(partial := s'.db.partial)) && (s.db.partial ==> s'.db.partial)
  }

  /** A skip: the flag is set and both cursors stand just below the first block held; no balance has changed. */
  predicate SkippedAhead(s: State, s': State) {
    && s'.mem.height + 1 in s.db.chain.blocks && (forall b <- s.db.chain.blocks :: s'.mem.height + 1 <= b)
    && s.mem.height < s'.mem.height
    && s' == s.(db := s.db.(partial := true, balancesHeight := s'.mem.height), mem := s.mem.(height := s'.mem.height))
  }

  lemma SkipAhead(w: World, s: State, first: int)
    requires Enabled(s, MarkPartial(first))
    ensures var s1 := After(w, s, MarkPartial(first));
            && FlaggedOnly(s, s1) && Enabled(s1, SkipTo(first))
            && SkippedAhead(s, After(w, s1, SkipTo(first)))
  {
  }

  /// Runs

  ghost predicate IsRun(w: World, s: State, steps: seq<Step>)
    decreases |steps|
  {
    steps == [] ||
    (IsRun(w, s, steps[..|steps| - 1])
     && Enabled(RunTo(w, s, steps[..|steps| - 1]), steps[|steps| - 1]))
  }

  ghost function RunTo(w: World, s: State, steps: seq<Step>): (s': State)
    decreases |steps|
  {
    if steps == [] then s else After(w, RunTo(w, s, steps[..|steps| - 1]), steps[|steps| - 1])
  }

  lemma RunSnoc(w: World, s: State, steps: seq<Step>, step: Step)
    requires IsRun(w, s, steps) && Enabled(RunTo(w, s, steps), step)
    ensures IsRun(w, s, steps + [step]) && RunTo(w, s, steps + [step]) == After(w, RunTo(w, s, steps), step)
  {
    assert (steps + [step])[..|steps|] == steps;
  }

  /** Where a follower starts: an empty index, or one left by a binary without the balances projection. */
  ghost predicate Initial(w: World, s: State) {
    && !s.db.seeded && !s.db.partial && s.db.balancesHeight == 0
    && ChainConsistent(w, s.db.chain)
    && !s.mem.loaded
    && s.folded == []
  }

  /// Invariants

  /** Each indexed block has its transfer rows exactly once; nothing lies above the chain cursor. */
  ghost predicate ChainConsistent(w: World, c: Chain) {
    && ChainAt(c) >= 0
    && (forall b <- c.blocks :: 1 <= b <= ChainAt(c))
    && (forall h :: RowsAt(c.transfers, h) == if h in c.blocks then TransferRows(w, h) else [])
  }

  function NetOver(w: World, hs: seq<int>, a: string): (d: int)
    decreases |hs|
  {
    if hs == [] then 0 else NetOver(w, hs[..|hs| - 1], a) + Net(AllEvents(w.results(hs[|hs| - 1])), a)
  }

  function ReceivedOver(w: World, hs: seq<int>): (n: nat)
    decreases |hs|
  {
    if hs == [] then 0 else ReceivedOver(w, hs[..|hs| - 1]) + Received(AllEvents(w.results(hs[|hs| - 1])))
  }

  function SpentOver(w: World, hs: seq<int>): (n: nat)
    decreases |hs|
  {
    if hs == [] then 0 else SpentOver(w, hs[..|hs| - 1]) + Spent(AllEvents(w.results(hs[|hs| - 1])))
  }

  function UpTo(h: nat): (hs: seq<int>)
    ensures |hs| == h
  {
    seq(h, i => i + 1)
  }

  predicate Ascending(hs: seq<int>, last: int) {
    && (forall i, j :: 0 <= i < j < |hs| ==> hs[i] < hs[j])
    && (forall h <- hs :: 1 <= h <= last)
  }

  /** The table is genesis plus every event of the given blocks. */
  ghost predicate TableExact(w: World, t: Table, folded: seq<int>) {
    && (forall a :: Amount(t, a) == GenesisAt(w.genesis, a) + NetOver(w, folded, a))
    && Total(t) == GenesisTotal(w.genesis) + ReceivedOver(w, folded) - SpentOver(w, folded)
  }

  /** Blocks are folded once each, in order, and none is missing while the partial flag is unset. */
  ghost predicate FoldedOk(folded: seq<int>, last: int, partial: bool) {
    && last >= 0 && Ascending(folded, last)
    && (!partial ==> folded == UpTo(last))
  }

  ghost predicate Inv(w: World, s: State) {
    && ChainConsistent(w, s.db.chain)
    && 0 <= s.db.balancesHeight <= ChainAt(s.db.chain)
    && (!s.db.seeded ==> s.db.balancesHeight == 0)
    && (s.mem.loaded ==> s.mem.seeded == s.db.seeded && s.mem.height == s.db.balancesHeight)
    && (s.db.seeded ==> TableExact(w, s.db.balances, s.folded) && FoldedOk(s.folded, s.db.balancesHeight, s.db.partial))
  }

  lemma {:induction false} RowsAtConcat(xs: seq<Transfer>, ys: seq<Transfer>, h: int)
    ensures RowsAt(xs + ys, h) == RowsAt(xs, h) + RowsAt(ys, h)
    decreases |ys|
  {
    if ys == [] {
      assert xs + ys == xs;
    } else {
      assert (xs + ys)[..|xs + ys| - 1] == xs + ys[..|ys| - 1];
      RowsAtConcat(xs, ys[..|ys| - 1], h);
    }
  }

  lemma {:induction false} RowsAtUniform(rows: seq<Transfer>, h: int, k: int)
    requires forall t <- rows :: t.height == h
    ensures RowsAt(rows, k) == if k == h then rows else []
    decreases |rows|
  {
    if rows != [] {
      RowsAtUniform(rows[..|rows| - 1], h, k);
      assert rows[|rows| - 1] in rows;
    }
  }

  lemma NextHeightAbove(w: World, c: Chain, start: int)
    requires ChainConsistent(w, c)
    ensures NextHeight(c, start) > ChainAt(c) && forall b <- c.blocks :: b < NextHeight(c, start)
  {
  }

  lemma WithBlockConsistent(w: World, c: Chain, h: int)
    requires ChainConsistent(w, c) && h > ChainAt(c)
    ensures ChainConsistent(w, WithBlock(w, c, h))
  {
    var c' := WithBlock(w, c, h);
    forall k ensures RowsAt(c'.transfers, k) == if k in c'.blocks then TransferRows(w, k) else [] {
      RowsAtConcat(c.transfers, TransferRows(w, h), k);
      RowsAtUniform(TransferRows(w, h), h, k);
    }
  }

  /** One more block, wherever it is folded, keeps the table exact. */
  lemma FoldExact(w: World, t: Table, folded: seq<int>, h: int)
    requires TableExact(w, t, folded)
    ensures TableExact(w, BlockFolded(t, w.results(h), h), folded + [h])
  {
    assert (folded + [h])[..|folded|] == folded;
    forall a
      ensures Amount(BlockFolded(t, w.results(h), h), a) == GenesisAt(w.genesis, a) + NetOver(w, folded + [h], a)
    {
      BlockAmount(t, w.results(h), h, a);
    }
    BlockConserves(t, w.results(h), h);
  }

  lemma AscendingSnoc(hs: seq<int>, last: int)
    requires Ascending(hs, last) && last >= 0
    ensures Ascending(hs + [last + 1], last + 1)
  {
    forall i | 0 <= i < |hs| ensures hs[i] <= last {
      assert hs[i] in hs;
    }
  }

  lemma FoldedSnoc(folded: seq<int>, last: int, partial: bool)
    requires FoldedOk(folded, last, partial)
    ensures FoldedOk(folded + [last + 1], last + 1, partial)
  {
    AscendingSnoc(folded, last);
    assert UpTo(last) + [last + 1] == UpTo(last + 1);
  }

  /** A table that is exact for one block more keeps the invariant when the cursors move with it. */
  lemma NextTableInv(w: World, s: State, t: Table, folded: seq<int>, s': State)
    requires Inv(w, s) && s.db.seeded && s.mem.loaded && s.db.balancesHeight < ChainAt(s.db.chain)
    requires TableExact(w, t, folded) && FoldedOk(folded, s.db.balancesHeight + 1, s.db.partial)
    requires s' == s.(db := s.db.(balances := t, balancesHeight := s.db.balancesHeight + 1),
                      mem := s.mem.(height := s.db.balancesHeight + 1), folded := folded)
    ensures Inv(w, s')
  {
  }

  lemma WithFoldInv(w: World, s: State, s': State)
    requires Inv(w, s) && s.db.seeded && s.mem.loaded && s.db.balancesHeight < ChainAt(s.db.chain)
    requires s' == WithFold(w, s, s.db.balancesHeight + 1)
    ensures Inv(w, s')
  {
    var h := s.db.balancesHeight + 1;
    FoldExact(w, s.db.balances, s.folded, h);
    FoldedSnoc(s.folded, s.db.balancesHeight, s.db.partial);
    NextTableInv(w, s, BlockFolded(s.db.balances, w.results(h), h), s.folded + [h], s');
  }

  lemma WithChainInv(w: World, s: State, c: Chain)
    requires Inv(w, s) && ChainConsistent(w, c) && ChainAt(c) >= ChainAt(s.db.chain)
    ensures Inv(w, WithChain(s, c))
  {
  }

  lemma SeedInv(w: World, s: State)
    requires Inv(w, s) && Enabled(s, Seed)
    ensures Inv(w, After(w, s, Seed))
  {
    SeededAmounts(w.genesis);
    assert UpTo(0) == [];
  }

  lemma IndexedInv(w: World, s: State, h: int, s': State)
    requires Inv(w, s) && s.mem.loaded && h > ChainAt(s.db.chain)
    requires s' == Indexed(w, s, h)
    ensures Inv(w, s')
  {
    var s1 := WithChain(s, WithBlock(w, s.db.chain, h));
    WithBlockConsistent(w, s.db.chain, h);
    WithChainInv(w, s, WithBlock(w, s.db.chain, h));
    if Inline(s, h) {
      InlineInv(w, s1, h, s');
    } else {
      assert s' == s1;
    }
  }

  lemma InlineInv(w: World, s: State, h: int, s': State)
    requires Inv(w, s) && s.mem.loaded && Inline(s, h) && h <= ChainAt(s.db.chain)
    requires s' == WithFold(w, s, h)
    ensures Inv(w, s')
  {
    WithFoldInv(w, s, s');
  }

  lemma IndexStepInv(w: World, s: State, s': State)
    requires Inv(w, s) && Enabled(s, Index) && s' == After(w, s, Index)
    ensures Inv(w, s')
  {
    NextHeightAbove(w, s.db.chain, s.mem.start);
    IndexedInv(w, s, NextHeight(s.db.chain, s.mem.start), s');
  }

  lemma CatchUpStepInv(w: World, s: State, s': State)
    requires Inv(w, s) && Enabled(s, CatchUp) && s' == After(w, s, CatchUp)
    ensures Inv(w, s')
  {
    InlineInv(w, s, s.mem.height + 1, s');
  }

  lemma CursorStepInv(w: World, s: State, step: Step, s': State)
    requires Inv(w, s) && Enabled(s, step) && s' == After(w, s, step)
    requires step.Seed? || step.SkipTo?
    ensures Inv(w, s')
  {
    if step.Seed? {
      SeedInv(w, s);
    } else {
      assert step.first <= ChainAt(s.db.chain);
    }
  }

  lemma QuietStepInv(w: World, s: State, step: Step, s': State)
    requires Inv(w, s) && Enabled(s, step) && s' == After(w, s, step)
    requires step.Load? || step.MarkPartial? || step.RecordSupply? || step.Restart?
    ensures Inv(w, s')
  {
  }

  lemma StepInv(w: World, s: State, step: Step, s': State)
    requires Inv(w, s) && Enabled(s, step) && s' == After(w, s, step)
    ensures Inv(w, s')
  {
    if step.Index? {
      IndexStepInv(w, s, s');
    } else if step.CatchUp? {
      CatchUpStepInv(w, s, s');
    } else if step.Seed? || step.SkipTo? {
      CursorStepInv(w, s, step, s');
    } else {
      QuietStepInv(w, s, step, s');
    }
  }

  /** Every run from an initial state keeps the invariant: failures, crashes and restarts anywhere. */
  lemma {:induction false} RunInv(w: World, s: State, steps: seq<Step>)
    requires Initial(w, s) && IsRun(w, s, steps)
    ensures Inv(w, RunTo(w, s, steps))
    decreases |steps|
  {
    if steps != [] {
      var n := |steps| - 1;
      RunInv(w, s, steps[..n]);
      StepInv(w, RunTo(w, s, steps[..n]), steps[n], RunTo(w, s, steps));
    }
  }

  /** At every address, and in total, the table is genesis plus every event of blocks 1 to `height`, each once. */
  ghost predicate IsExact(w: World, t: Table, height: nat) {
    && (forall a :: Amount(t, a) == GenesisAt(w.genesis, a) + NetOver(w, UpTo(height), a))
    && Total(t) == GenesisTotal(w.genesis) + ReceivedOver(w, UpTo(height)) - SpentOver(w, UpTo(height))
  }

  /**
    In every run, while the partial flag is unset, the table is genesis plus the events of blocks
    1 to balances_height, each once; and its total is conserved.
   */
  lemma UnflaggedTableIsExact(w: World, s: State, steps: seq<Step>)
    requires Initial(w, s) && IsRun(w, s, steps)
    ensures var db := RunTo(w, s, steps).db;
            && 0 <= db.balancesHeight <= ChainAt(db.chain)
            && (db.seeded && !db.partial ==> IsExact(w, db.balances, db.balancesHeight))
  {
    RunInv(w, s, steps);
  }

  /** The cursor keeps still, or moves by one height whose block is folded with it. */
  ghost predicate MovesByFolding(w: World, t: State, t': State) {
    || t'.db.balancesHeight == t.db.balancesHeight
    || (t'.db.balancesHeight == t.db.balancesHeight + 1 && t'.folded == t.folded + [t'.db.balancesHeight]
        && t'.db.balances == BlockFolded(t.db.balances, w.results(t'.db.balancesHeight), t'.db.balancesHeight))
  }

  /** What no step undoes. */
  predicate Grows(db: Db, db': Db) {
    (db.partial ==> db'.partial) && (db.seeded ==> db'.seeded) && ChainAt(db.chain) <= ChainAt(db'.chain)
  }

  lemma IndexMoves(w: World, t: State, h: int)
    requires Inv(w, t) && t.mem.loaded && h > ChainAt(t.db.chain)
    ensures MovesByFolding(w, t, Indexed(w, t, h)) && Grows(t.db, Indexed(w, t, h).db)
  {
  }

  lemma StepMoves(w: World, t: State, step: Step)
    requires Inv(w, t) && Enabled(t, step)
    ensures MovesByFolding(w, t, After(w, t, step)) || t.db.partial
    ensures Grows(t.db, After(w, t, step).db)
  {
    if step.Index? {
      NextHeightAbove(w, t.db.chain, t.mem.start);
      IndexMoves(w, t, NextHeight(t.db.chain, t.mem.start));
    }
  }

  /** No height is ever skipped unless the partial flag was set before; neither flag is ever unset. */
  lemma NoSilentSkip(w: World, s: State, steps: seq<Step>, step: Step)
    requires Initial(w, s) && IsRun(w, s, steps) && Enabled(RunTo(w, s, steps), step)
    ensures var t := RunTo(w, s, steps);
            var t' := After(w, t, step);
            && (MovesByFolding(w, t, t') || t.db.partial)
            && Grows(t.db, t'.db)
  {
    RunInv(w, s, steps);
    StepMoves(w, RunTo(w, s, steps), step);
  }

  /** Indexed heights strictly increase across restarts, so every block's rows are inserted exactly once. */
  lemma IndexedOnce(w: World, s: State, steps: seq<Step>, h: int)
    requires Initial(w, s) && IsRun(w, s, steps)
    ensures var t := RunTo(w, s, steps);
            && RowsAt(t.db.chain.transfers, h) == (if h in t.db.chain.blocks then TransferRows(w, h) else [])
            && (Enabled(t, Index) ==> forall b <- t.db.chain.blocks :: b < NextHeight(t.db.chain, t.mem.start))
  {
    RunInv(w, s, steps);
    NextHeightAbove(w, RunTo(w, s, steps).db.chain, RunTo(w, s, steps).mem.start);
  }
}
