/**
  Last-writer-wins registers: what `ON CONFLICT DO UPDATE ... WHERE stored.ts <= EXCLUDED.ts` makes
  of a table (the profiles and attestations of indexer/social.go).
 */
module Registers {
  import opened Prelude

  datatype Entry<K, V> = Entry(key: K, ts: int, value: V)
  datatype Cell<V> = Cell(ts: int, value: V)

  function Put<K, V>(m: map<K, Cell<V>>, e: Entry<K, V>): (m': map<K, Cell<V>>) {
    if e.key in m && m[e.key].ts > e.ts then m else m[e.key := Cell(e.ts, e.value)]
  }

  function PutAll<K, V>(es: seq<Entry<K, V>>): (m: map<K, Cell<V>>)
    decreases |es|
  {
    if es == [] then map[] else Put(PutAll(es[..|es| - 1]), es[|es| - 1])
  }

  /** The i-th entry is the latest-applied one among those of maximal timestamp for its key. */
  predicate IsWinner<K(==), V>(es: seq<Entry<K, V>>, i: nat) {
    && i < |es|
    && (forall j :: 0 <= j < |es| && es[j].key == es[i].key ==> es[j].ts <= es[i].ts)
    && (forall j :: i < j < |es| && es[j].key == es[i].key ==> es[j].ts < es[i].ts)
  }

  /** After any sequence, each key holds its latest-applied entry of maximal timestamp. */
  lemma {:induction false} Winner<K, V>(es: seq<Entry<K, V>>, k: K) returns (i: nat)
    ensures k in PutAll(es) <==> exists e <- es :: e.key == k
    ensures k in PutAll(es) ==> IsWinner(es, i) && es[i].key == k && PutAll(es)[k] == Cell(es[i].ts, es[i].value)
    decreases |es|
  {
    i := 0;
    if es != [] {
      var n := |es| - 1;
      i := Winner(es[..n], k);
      assert es == es[..n] + [es[n]];
      if es[n].key == k {
        if k !in PutAll(es[..n]) {
          forall j | 0 <= j < n ensures es[j].key != k {
            assert es[..n][j] in es[..n];
          }
          i := n;
        } else if PutAll(es[..n])[k].ts <= es[n].ts {
          WinnerBounds(es[..n], i);
          i := n;
        } else {
          WinnerExtends(es, i);
        }
      } else if k in PutAll(es[..n]) {
        WinnerExtends(es, i);
      }
    }
  }

  lemma WinnerBounds<K, V>(es: seq<Entry<K, V>>, i: nat)
    requires IsWinner(es, i)
    ensures forall j :: 0 <= j < |es| && es[j].key == es[i].key ==> es[j].ts <= es[i].ts
  {
  }

  lemma WinnerExtends<K, V>(es: seq<Entry<K, V>>, i: nat)
    requires es != [] && IsWinner(es[..|es| - 1], i)
    requires es[|es| - 1].key == es[i].key ==> es[|es| - 1].ts < es[i].ts
    ensures IsWinner(es, i)
  {
    forall j | 0 <= j < |es| && es[j].key == es[i].key ensures es[j].ts <= es[i].ts && (j > i ==> es[j].ts < es[i].ts) {
      if j < |es| - 1 {
        assert es[..|es| - 1][j] == es[j];
      }
    }
  }

  /// Order of arrival

  /** No later timestamp is stored under the key of the i-th entry. */
  predicate IsLatest<K(==), V>(es: seq<Entry<K, V>>, i: int) {
    0 <= i < |es| && forall j :: 0 <= j < |es| && es[j].key == es[i].key ==> es[j].ts <= es[i].ts
  }

  /** Entries that tie for the latest timestamp of a key carry one value. */
  ghost predicate LatestAgree<K, V>(es: seq<Entry<K, V>>) {
    forall i, j :: IsLatest(es, i) && IsLatest(es, j) && es[i].key == es[j].key ==> es[i].value == es[j].value
  }

  /** No two entries of one key share a timestamp. */
  predicate DistinctStamps<K(==), V>(es: seq<Entry<K, V>>) {
    forall i, j :: 0 <= i < j < |es| && es[i].key == es[j].key ==> es[i].ts != es[j].ts
  }

  lemma DistinctStampsAgree<K, V>(es: seq<Entry<K, V>>)
    requires DistinctStamps(es)
    ensures LatestAgree(es)
  {
  }

  /** Two arrivals of the same entries, in any order and with any repetition, build one table. */
  lemma SameEntries<K(!new), V>(es: seq<Entry<K, V>>, fs: seq<Entry<K, V>>)
    requires (forall x :: x in es <==> x in fs) && LatestAgree(es)
    ensures PutAll(es) == PutAll(fs)
  {
    forall k ensures k in PutAll(es) <==> k in PutAll(fs) {
      SameKeys(es, fs, k);
    }
    assert PutAll(es).Keys == PutAll(fs).Keys;
    forall k | k in PutAll(es) ensures PutAll(es)[k] == PutAll(fs)[k] {
      SameCell(es, fs, k);
    }
  }

  lemma SameCell<K, V>(es: seq<Entry<K, V>>, fs: seq<Entry<K, V>>, k: K)
    requires (forall x :: x in es <==> x in fs) && LatestAgree(es)
    requires k in PutAll(es) && k in PutAll(fs)
    ensures PutAll(es)[k] == PutAll(fs)[k]
  {
    var i := Winner(es, k);
    var j := Winner(fs, k);
    SameWinner(es, i, fs, j);
  }

  lemma SameKeys<K, V>(es: seq<Entry<K, V>>, fs: seq<Entry<K, V>>, k: K)
    requires forall x :: x in es <==> x in fs
    ensures k in PutAll(es) <==> k in PutAll(fs)
  {
    var _ := Winner(es, k);
    var _ := Winner(fs, k);
    if e :| e in es && e.key == k {
      assert e in fs;
    }
    if f :| f in fs && f.key == k {
      assert f in es;
    }
  }

  lemma SameWinner<K, V>(es: seq<Entry<K, V>>, i: nat, fs: seq<Entry<K, V>>, j: nat)
    requires IsWinner(es, i) && IsWinner(fs, j) && es[i].key == fs[j].key
    requires (forall x :: x in es <==> x in fs) && LatestAgree(es)
    ensures es[i] == fs[j]
  {
    assert es[i] in fs && fs[j] in es;
    var a :| 0 <= a < |fs| && fs[a] == es[i];
    var b :| 0 <= b < |es| && es[b] == fs[j];
    assert fs[a].ts <= fs[j].ts && es[b].ts <= es[i].ts;
    assert IsLatest(es, i) && IsLatest(es, b);
  }

  /** The entries with the i-th one moved to the end. */
  function MovedLast<T>(xs: seq<T>, i: nat): (ys: seq<T>)
    requires i < |xs|
    ensures multiset(ys) == multiset(xs)
  {
    assert xs == xs[..i] + [xs[i]] + xs[i + 1..];
    xs[..i] + xs[i + 1..] + [xs[i]]
  }

  /** A latest entry that arrives last is the one stored. */
  lemma LatestMovedLast<K, V>(es: seq<Entry<K, V>>, i: nat)
    requires IsLatest(es, i)
    ensures es[i].key in PutAll(MovedLast(es, i))
    ensures PutAll(MovedLast(es, i))[es[i].key] == Cell(es[i].ts, es[i].value)
  {
    var fs := MovedLast(es, i);
    var before := es[..i] + es[i + 1..];
    assert fs[..|fs| - 1] == before && fs[|fs| - 1] == es[i];
    var j := Winner(before, es[i].key);
    if es[i].key in PutAll(before) {
      assert before[j] in es;
    }
  }

  /** The order of arrival is irrelevant exactly when the latest entries of each key agree. */
  lemma OrderIrrelevantIff<K(!new), V>(es: seq<Entry<K, V>>)
    ensures (forall fs :: multiset(fs) == multiset(es) ==> PutAll(fs) == PutAll(es)) <==> LatestAgree(es)
  {
    if LatestAgree(es) {
      forall fs | multiset(fs) == multiset(es) ensures PutAll(fs) == PutAll(es) {
        SameMembers(es, fs);
        SameEntries(es, fs);
      }
    } else {
      var i, j :| IsLatest(es, i) && IsLatest(es, j) && es[i].key == es[j].key && es[i].value != es[j].value;
      LatestMovedLast(es, i);
      LatestMovedLast(es, j);
      assert PutAll(MovedLast(es, i)) != PutAll(MovedLast(es, j));
      assert multiset(MovedLast(es, i)) == multiset(es) && multiset(MovedLast(es, j)) == multiset(es);
    }
  }
}
