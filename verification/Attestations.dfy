/**
  The attestations table (SyncAttestations in indexer/social.go): a last-writer-wins register per
  subject and attestor, except that a conflicting insert never updates `kind`.
 */
module Attestations {
  import opened Prelude
  import opened Canonical
  import opened Signing
  import opened Registers
  import opened Social

  type Key = (Bytes, Bytes)

  /** An attestation as the node renders it; its own `trusted` flag is not read. */
  datatype View = View(subject: Bytes, verdict: Bytes, policy: Bytes, reasonCode: Bytes, timestamp: u64,
                       attestor: Bytes, kind: Bytes)

  datatype Verdict = Verdict(verdict: Bytes, policy: Bytes, reasonCode: Bytes, trusted: bool)

  /** The bound parameters of one queued insert. */
  datatype Arrival = Arrival(key: Key, kind: Bytes, ts: i64, verdict: Verdict)

  datatype Row = Row(kind: Bytes, ts: i64, verdict: Verdict)

  /** `INSERT ... ON CONFLICT (subject, attestor) DO UPDATE SET ... WHERE attestations.ts <= EXCLUDED.ts`. */
  function Upserted(m: map<Key, Row>, a: Arrival): (m': map<Key, Row>) {
    if a.key !in m then m[a.key := Row(a.kind, a.ts, a.verdict)]
    else if m[a.key].ts <= a.ts then m[a.key := m[a.key].(ts := a.ts, verdict := a.verdict)]
    else m
  }

  function Synced(m: map<Key, Row>, arrivals: seq<Arrival>): (m': map<Key, Row>)
    decreases |arrivals|
  {
    if arrivals == [] then m
    else Upserted(Synced(m, arrivals[..|arrivals| - 1]), arrivals[|arrivals| - 1])
  }

  function ArrivalOf(c: Codec, trusted: set<Bytes>, v: View): (a: Arrival) {
    Arrival((v.subject, v.attestor), v.kind, Saturated(v.timestamp),
            Verdict(v.verdict, v.policy, v.reasonCode, c.toLower(v.attestor) in trusted))
  }

  function ArrivalsOf(c: Codec, trusted: set<Bytes>, vs: seq<View>): (arrivals: seq<Arrival>)
    ensures |arrivals| == |vs|
  {
    seq(|vs|, i requires 0 <= i < |vs| => ArrivalOf(c, trusted, vs[i]))
  }

  /// The register view

  function Verdicts(arrivals: seq<Arrival>): (es: seq<Entry<Key, Verdict>>)
    ensures |es| == |arrivals|
  {
    seq(|arrivals|, i requires 0 <= i < |arrivals| => Entry(arrivals[i].key, arrivals[i].ts, arrivals[i].verdict))
  }

  predicate IsFirst(arrivals: seq<Arrival>, i: int) {
    0 <= i < |arrivals| && forall j :: 0 <= j < i ==> arrivals[j].key != arrivals[i].key
  }

  /** One statement keeps the verdict columns a register, and a row's kind what it was first. */
  lemma UpsertedRow(m: map<Key, Row>, p: map<Key, Cell<Verdict>>, a: Arrival, k: Key)
    requires k in m <==> k in p
    requires k in m ==> p[k] == Cell(m[k].ts, m[k].verdict)
    ensures var m', p' := Upserted(m, a), Put(p, Entry(a.key, a.ts, a.verdict));
            && (k in m' <==> k in m || a.key == k) && (k in m' <==> k in p')
            && (k in m' ==> p'[k] == Cell(m'[k].ts, m'[k].verdict)
                            && m'[k].kind == if k in m then m[k].kind else a.kind)
  {
  }

  /** A row holds the verdict of the latest arrival and the kind of the first. */
  lemma {:induction false} RowMeaning(arrivals: seq<Arrival>, k: Key) returns (first: nat)
    ensures k in Synced(map[], arrivals) <==> k in PutAll(Verdicts(arrivals))
    ensures k in Synced(map[], arrivals) ==>
              && var row := Synced(map[], arrivals)[k];
              && PutAll(Verdicts(arrivals))[k] == Cell(row.ts, row.verdict)
              && IsFirst(arrivals, first) && arrivals[first].key == k && row.kind == arrivals[first].kind
    ensures k !in Synced(map[], arrivals) ==> forall a <- arrivals :: a.key != k
    decreases |arrivals|
  {
    first := 0;
    if arrivals != [] {
      var init, a := arrivals[..|arrivals| - 1], arrivals[|arrivals| - 1];
      first := RowMeaning(init, k);
      assert Verdicts(arrivals)[..|arrivals| - 1] == Verdicts(init);
      UpsertedRow(Synced(map[], init), PutAll(Verdicts(init)), a, k);
      assert arrivals == init + [a];
      if k in Synced(map[], init) {
        assert forall j :: 0 <= j < first ==> init[j] == arrivals[j];
      } else if a.key == k {
        assert forall j :: 0 <= j < |init| ==> init[j] in init;
        first := |arrivals| - 1;
      }
    }
  }

  /** The stored row is the latest arrival in every column exactly when that arrival has the first one's kind. */
  lemma {:induction false} LatestRowIff(arrivals: seq<Arrival>, k: Key) returns (first: nat, latest: nat)
    requires k in Synced(map[], arrivals)
    ensures IsFirst(arrivals, first) && arrivals[first].key == k
    ensures IsWinner(Verdicts(arrivals), latest) && arrivals[latest].key == k
    ensures var a := arrivals[latest];
            Synced(map[], arrivals)[k] == Row(a.kind, a.ts, a.verdict) <==> a.kind == arrivals[first].kind
  {
    first := RowMeaning(arrivals, k);
    latest := Winner(Verdicts(arrivals), k);
  }

  /**
    So the register claim fails for `kind`: when one attestor attests a subject as a "cid" and later
    as an "event", the row holds everything of the later attestation but still says "cid".
   */
  lemma StaleKind(c: Codec, trusted: set<Bytes>, v: View, w: View)
    requires v.subject == w.subject && v.attestor == w.attestor && v.timestamp < w.timestamp
    requires v.kind == Ascii("cid") && w.kind == Ascii("event")
    ensures var t := Synced(map[], ArrivalsOf(c, trusted, [v, w]));
            var later := ArrivalOf(c, trusted, w);
            && t == map[(v.subject, v.attestor) := Row(Ascii("cid"), later.ts, later.verdict)]
            && t[later.key].kind != later.kind
  {
    var a, b := ArrivalOf(c, trusted, v), ArrivalOf(c, trusted, w);
    assert ArrivalsOf(c, trusted, [v, w]) == [a, b];
    assert [a, b][..1] == [a] && [a][..0] == [];
    assert Synced(map[], [a]) == map[a.key := Row(a.kind, a.ts, a.verdict)];
    assert |Ascii("cid")| == 3 && |Ascii("event")| == 5;
  }

  /// Order of arrival

  predicate OneKindPerKey(arrivals: seq<Arrival>) {
    forall i, j :: 0 <= i < j < |arrivals| && arrivals[i].key == arrivals[j].key ==> arrivals[i].kind == arrivals[j].kind
  }

  lemma SameVerdicts(xs: seq<Arrival>, ys: seq<Arrival>)
    requires multiset(xs) == multiset(ys)
    ensures forall e :: e in Verdicts(xs) <==> e in Verdicts(ys)
  {
    SameMembers(xs, ys);
    forall e | e in Verdicts(xs) ensures e in Verdicts(ys) {
      VerdictCarried(xs, ys, e);
    }
    forall e | e in Verdicts(ys) ensures e in Verdicts(xs) {
      VerdictCarried(ys, xs, e);
    }
  }

  lemma VerdictCarried(xs: seq<Arrival>, ys: seq<Arrival>, e: Entry<Key, Verdict>)
    requires e in Verdicts(xs) && forall a <- xs :: a in ys
    ensures e in Verdicts(ys)
  {
    var i :| 0 <= i < |xs| && Verdicts(xs)[i] == e;
    assert xs[i] in ys;
    var j :| 0 <= j < |ys| && ys[j] == xs[i];
    assert Verdicts(ys)[j] == e;
  }

  lemma KindOfMember(arrivals: seq<Arrival>, i: nat, a: Arrival)
    requires OneKindPerKey(arrivals) && i < |arrivals| && a in arrivals && a.key == arrivals[i].key
    ensures a.kind == arrivals[i].kind
  {
  }

  lemma SameVerdictRow(xs: seq<Arrival>, ys: seq<Arrival>)
    requires multiset(xs) == multiset(ys) && LatestAgree(Verdicts(xs))
    ensures PutAll(Verdicts(xs)) == PutAll(Verdicts(ys))
  {
    SameVerdicts(xs, ys);
    SameEntries(Verdicts(xs), Verdicts(ys));
  }

  lemma SameRow(xs: seq<Arrival>, ys: seq<Arrival>, k: Key)
    requires multiset(xs) == multiset(ys) && LatestAgree(Verdicts(xs)) && OneKindPerKey(xs)
    ensures k in Synced(map[], xs) <==> k in Synced(map[], ys)
    ensures k in Synced(map[], xs) ==> Synced(map[], xs)[k] == Synced(map[], ys)[k]
  {
    SameVerdictRow(xs, ys);
    var i := RowMeaning(xs, k);
    var j := RowMeaning(ys, k);
    if k in Synced(map[], xs) {
      assert ys[j] in multiset(ys) && ys[j] in multiset(xs);
      KindOfMember(xs, i, ys[j]);
    }
  }

  lemma VerdictsMovedLast(arrivals: seq<Arrival>, i: nat)
    requires i < |arrivals|
    ensures Verdicts(MovedLast(arrivals, i)) == MovedLast(Verdicts(arrivals), i)
  {
  }

  lemma VerdictsDisagree(arrivals: seq<Arrival>)
    requires !LatestAgree(Verdicts(arrivals))
    ensures exists xs, ys :: multiset(xs) == multiset(ys) == multiset(arrivals) && Synced(map[], xs) != Synced(map[], ys)
  {
    var es := Verdicts(arrivals);
    var i, j :| IsLatest(es, i) && IsLatest(es, j) && es[i].key == es[j].key && es[i].value != es[j].value;
    LatestMovedLast(es, i);
    LatestMovedLast(es, j);
    VerdictsMovedLast(arrivals, i);
    VerdictsMovedLast(arrivals, j);
    var xs, ys := MovedLast(arrivals, i), MovedLast(arrivals, j);
    var _ := RowMeaning(xs, es[i].key);
    var _ := RowMeaning(ys, es[i].key);
    assert Synced(map[], xs)[es[i].key] != Synced(map[], ys)[es[i].key];
  }

  function MovedFirst(arrivals: seq<Arrival>, i: nat): (moved: seq<Arrival>)
    requires i < |arrivals|
    ensures multiset(moved) == multiset(arrivals)
  {
    assert arrivals == arrivals[..i] + [arrivals[i]] + arrivals[i + 1..];
    [arrivals[i]] + arrivals[..i] + arrivals[i + 1..]
  }

  lemma KindMovedFirst(arrivals: seq<Arrival>, i: nat)
    requires i < |arrivals|
    ensures var t := Synced(map[], MovedFirst(arrivals, i));
            arrivals[i].key in t && t[arrivals[i].key].kind == arrivals[i].kind
  {
    var moved := MovedFirst(arrivals, i);
    assert moved[0] == arrivals[i] && moved[0] in moved;
    var first := RowMeaning(moved, arrivals[i].key);
    OnlyFirst(moved, first);
  }

  lemma OnlyFirst(arrivals: seq<Arrival>, first: nat)
    requires IsFirst(arrivals, first) && arrivals[0].key == arrivals[first].key
    ensures first == 0
  {
  }

  lemma KindsDisagree(arrivals: seq<Arrival>)
    requires !OneKindPerKey(arrivals)
    ensures exists xs, ys :: multiset(xs) == multiset(ys) == multiset(arrivals) && Synced(map[], xs) != Synced(map[], ys)
  {
    var i, j :| 0 <= i < j < |arrivals| && arrivals[i].key == arrivals[j].key && arrivals[i].kind != arrivals[j].kind;
    KindMovedFirst(arrivals, i);
    KindMovedFirst(arrivals, j);
    var xs, ys := MovedFirst(arrivals, i), MovedFirst(arrivals, j);
    assert Synced(map[], xs)[arrivals[i].key] != Synced(map[], ys)[arrivals[i].key];
  }

  /**
    Every order of arrival builds the same table exactly when the latest verdicts of each subject and
    attestor agree and all of its attestations are of one kind.
   */
  lemma OrderIrrelevant(arrivals: seq<Arrival>)
    ensures (forall ys :: multiset(ys) == multiset(arrivals) ==> Synced(map[], ys) == Synced(map[], arrivals))
       <==> LatestAgree(Verdicts(arrivals)) && OneKindPerKey(arrivals)
  {
    if LatestAgree(Verdicts(arrivals)) && OneKindPerKey(arrivals) {
      forall ys | multiset(ys) == multiset(arrivals) ensures Synced(map[], ys) == Synced(map[], arrivals) {
        forall k ensures k in Synced(map[], arrivals) <==> k in Synced(map[], ys) {
          SameRow(arrivals, ys, k);
        }
        assert Synced(map[], arrivals).Keys == Synced(map[], ys).Keys;
        forall k | k in Synced(map[], arrivals) ensures Synced(map[], arrivals)[k] == Synced(map[], ys)[k] {
          SameRow(arrivals, ys, k);
        }
      }
    } else if OneKindPerKey(arrivals) {
      VerdictsDisagree(arrivals);
    } else {
      KindsDisagree(arrivals);
    }
  }

  /// The ingester

  lemma {:induction false} SyncedConcat(m: map<Key, Row>, xs: seq<Arrival>, ys: seq<Arrival>)
    ensures Synced(m, xs + ys) == Synced(Synced(m, xs), ys)
    decreases |ys|
  {
    if ys == [] {
      assert xs + ys == xs;
    } else {
      SyncedConcat(m, xs, ys[..|ys| - 1]);
      assert (xs + ys)[..|xs + ys| - 1] == xs + ys[..|ys| - 1];
    }
  }

  class Ingester {
    const codec: Codec
    const trustedAttestors: seq<Bytes>
    var attestations: map<Key, Row>
    var faults: seq<bool>
    ghost var history: seq<Arrival>

    ghost predicate Valid()
      reads this
    {
      attestations == Synced(map[], history)
    }

    constructor (codec: Codec, trustedAttestors: seq<Bytes>, faults: seq<bool>)
      ensures Valid() && history == []
    {
      this.codec, this.trustedAttestors, this.faults := codec, trustedAttestors, faults;
      attestations, history := map[], [];
    }

    /** Each column of a view in its place; trusted when its attestor is a configured one, in any letter case. */
    ghost predicate Carries(a: Arrival, v: View) {
      && a.key.0 == v.subject && a.key.1 == v.attestor && a.kind == v.kind && a.ts == Saturated(v.timestamp)
      && a.verdict.verdict == v.verdict && a.verdict.policy == v.policy && a.verdict.reasonCode == v.reasonCode
      && (a.verdict.trusted <==> exists t <- trustedAttestors :: codec.toLower(t) == codec.toLower(v.attestor))
    }

    function Trusted(): (r: set<Bytes>) {
      set t <- trustedAttestors :: codec.toLower(t)
    }

    method Attempt() returns (ok: bool)
      modifies this`faults
      ensures old(faults) == [] ==> ok && faults == []
    {
      if faults == [] {
        return true;
      }
      ok := !faults[0];
      faults := faults[1..];
    }

    /** One batch, which the database runs as a whole or not at all. */
    method SyncAttestations(list: seq<View>) returns (r: Outcome)
      requires Valid()
      modifies this`attestations, this`faults, this`history
      ensures Valid()
      ensures r.Ok? ==> history == old(history) + ArrivalsOf(codec, Trusted(), list)
      ensures r.Failed? ==> attestations == old(attestations) && history == old(history)
      ensures r.Ok? ==> |history| == |old(history)| + |list|
      ensures r.Ok? ==> forall i :: 0 <= i < |list| ==> Carries(history[|old(history)| + i], list[i])
      ensures old(faults) == [] ==> r.Ok? && faults == []
    {
      var ok := Attempt();
      if !ok {
        return Failed;
      }
      var trusted: set<Bytes> := {};
      for i := 0 to |trustedAttestors|
        invariant trusted == set t <- trustedAttestors[..i] :: codec.toLower(t)
      {
        assert trustedAttestors[..i + 1] == trustedAttestors[..i] + [trustedAttestors[i]];
        trusted := trusted + {codec.toLower(trustedAttestors[i])};
      }
      assert trustedAttestors[..|trustedAttestors|] == trustedAttestors;
      var batch := [];
      for i := 0 to |list|
        invariant batch == ArrivalsOf(codec, trusted, list[..i])
      {
        batch := batch + [ArrivalOf(codec, trusted, list[i])];
      }
      assert list[..|list|] == list;
      if |batch| == 0 {
        return Ok;
      }
      ok := Attempt();
      if !ok {
        return Failed;
      }
      RunBatch(batch);
      r := Ok;
    }

    method RunBatch(batch: seq<Arrival>)
      requires Valid()
      modifies this`attestations, this`history
      ensures Valid() && history == old(history) + batch
    {
      for i := 0 to |batch|
        invariant history == old(history)
        invariant attestations == Synced(old(attestations), batch[..i])
      {
        assert batch[..i + 1][..i] == batch[..i];
        var a := batch[i];
        if a.key !in attestations {
          attestations := attestations[a.key := Row(a.kind, a.ts, a.verdict)];
        } else if attestations[a.key].ts <= a.ts {
          attestations := attestations[a.key := attestations[a.key].(ts := a.ts, verdict := a.verdict)];
        }
      }
      assert batch[..|batch|] == batch;
      SyncedConcat(map[], history, batch);
      history := history + batch;
    }
  }
}
