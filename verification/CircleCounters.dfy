/**
  The cached counters of a timeline item agree with the per-author maps: counting lemmas for the
  reaction cache and for the vote tally, one map update at a time.
 */
module CircleCounters {
  import opened Circle

  /// Reactions

  /** The slots of `target` that hold this reaction: one for each author who chose it. */
  ghost function Reactors(m: map<Slot, string>, target: string, r: string): (s: set<Slot>) {
    set k | k in m && k.0 == target && m[k] == r
  }

  /** The cache counts authors exactly, and holds a key exactly while somebody stands behind it. */
  ghost predicate CacheOk(c: map<string, nat>, m: map<Slot, string>, target: string) {
    && (forall r :: r in c ==> c[r] == |Reactors(m, target, r)| && c[r] > 0)
    && (forall k :: k in m && k.0 == target ==> m[k] in c)
  }

  lemma RemoveReactor(m: map<Slot, string>, key: Slot, r: string)
    requires key in m
    ensures key in Reactors(m, key.0, m[key])
    ensures |Reactors(m - {key}, key.0, r)| == |Reactors(m, key.0, r)| - (if r == m[key] then 1 else 0)
  {
    var before, after := Reactors(m, key.0, r), Reactors(m - {key}, key.0, r);
    if r == m[key] {
      assert before == after + {key};
    } else {
      assert before == after;
    }
  }

  lemma AddReactor(m: map<Slot, string>, key: Slot, v: string, r: string)
    requires key !in m
    ensures |Reactors(m[key := v], key.0, r)| == |Reactors(m, key.0, r)| + (if r == v then 1 else 0)
  {
    var before, after := Reactors(m, key.0, r), Reactors(m[key := v], key.0, r);
    if r == v {
      assert after == before + {key};
    } else {
      assert before == after;
    }
  }

  /** The decrement never meets a missing key or a zero: `saturating_sub` does not saturate. */
  lemma DecrementedOk(c: map<string, nat>, m: map<Slot, string>, key: Slot)
    requires CacheOk(c, m, key.0) && key in m
    ensures m[key] in c && c[m[key]] >= 1
    ensures CacheOk(Decremented(c, m[key]), m - {key}, key.0)
  {
    var c', m' := Decremented(c, m[key]), m - {key};
    forall r | r in c' ensures c'[r] == |Reactors(m', key.0, r)| && c'[r] > 0 {
      RemoveReactor(m, key, r);
    }
    forall k | k in m' && k.0 == key.0 ensures m'[k] in c' {
      RemoveReactor(m, key, m[k]);
      assert k in Reactors(m', key.0, m[k]);
    }
  }

  lemma IncrementedOk(c: map<string, nat>, m: map<Slot, string>, key: Slot, v: string)
    requires CacheOk(c, m, key.0) && key !in m
    ensures CacheOk(Incremented(c, v), m[key := v], key.0)
  {
    var c', m' := Incremented(c, v), m[key := v];
    forall r | r in c' ensures c'[r] == |Reactors(m', key.0, r)| && c'[r] > 0 {
      AddReactor(m, key, v, r);
      if r !in c {
        assert Reactors(m, key.0, r) == {};
      }
    }
  }

  lemma CacheOtherTarget(c: map<string, nat>, m: map<Slot, string>, m': map<Slot, string>, target: string)
    requires CacheOk(c, m, target)
    requires forall k: Slot :: k.0 == target ==> (k in m <==> k in m') && (k in m ==> m[k] == m'[k])
    ensures CacheOk(c, m', target)
  {
    forall r ensures Reactors(m, target, r) == Reactors(m', target, r) {
    }
  }

  /** The author map determines the cache. */
  lemma CacheUnique(c: map<string, nat>, c': map<string, nat>, m: map<Slot, string>, target: string)
    requires CacheOk(c, m, target) && CacheOk(c', m, target)
    ensures c == c'
  {
    CacheWithin(c, c', m, target);
    CacheWithin(c', c, m, target);
  }

  lemma CacheWithin(c: map<string, nat>, c': map<string, nat>, m: map<Slot, string>, target: string)
    requires CacheOk(c, m, target) && CacheOk(c', m, target)
    ensures forall r :: r in c ==> r in c' && c[r] == c'[r]
  {
    forall r | r in c ensures r in c' {
      var k :| k in Reactors(m, target, r);
    }
  }

  /// Votes

  ghost function Voters(m: map<Slot, seq<nat>>, post: string, o: nat): (s: set<Slot>) {
    set k | k in m && k.0 == post && o in m[k]
  }

  /** The tally counts ballots exactly; an absent option counts zero. */
  ghost predicate TallyOk(c: map<nat, nat>, m: map<Slot, seq<nat>>, post: string) {
    && (forall o :: o in c ==> c[o] == |Voters(m, post, o)|)
    && (forall k, o :: k in m && k.0 == post && o in m[k] ==> o in c)
  }

  predicate StrictlyAscending(s: seq<nat>) {
    forall i, j :: 0 <= i < j < |s| ==> s[i] < s[j]
  }

  predicate BallotOk(s: seq<nat>, poll: Poll) {
    && StrictlyAscending(s)
    && (forall o <- s :: o < |poll.options|)
    && (!poll.multipleChoice ==> |s| <= 1)
  }

  lemma {:induction false} UncountedAt(c: map<nat, nat>, ballot: seq<nat>, o: nat)
    requires StrictlyAscending(ballot)
    ensures Uncounted(c, ballot).Keys == c.Keys
    ensures o in c && o !in ballot ==> Uncounted(c, ballot)[o] == c[o]
    ensures o in c && o in ballot && c[o] > 0 ==> Uncounted(c, ballot)[o] == c[o] - 1
    decreases |ballot|
  {
    if ballot != [] {
      var n := |ballot| - 1;
      var init, last := ballot[..n], ballot[n];
      assert ballot == init + [last];
      assert last !in init;
      UncountedAt(c, init, o);
      UncountedAt(c, init, last);
    }
  }

  lemma {:induction false} CountedAt(c: map<nat, nat>, ballot: seq<nat>, o: nat)
    requires StrictlyAscending(ballot)
    ensures o in Counted(c, ballot) <==> o in c || o in ballot
    ensures o in Counted(c, ballot) ==>
              Counted(c, ballot)[o] == (if o in c then c[o] else 0) + (if o in ballot then 1 else 0)
    decreases |ballot|
  {
    if ballot != [] {
      var n := |ballot| - 1;
      var init, last := ballot[..n], ballot[n];
      assert ballot == init + [last];
      assert last !in init;
      CountedAt(c, init, o);
    }
  }

  lemma RemoveVoter(m: map<Slot, seq<nat>>, key: Slot, o: nat)
    requires key in m
    ensures |Voters(m - {key}, key.0, o)| == |Voters(m, key.0, o)| - (if o in m[key] then 1 else 0)
  {
    var before, after := Voters(m, key.0, o), Voters(m - {key}, key.0, o);
    if o in m[key] {
      assert before == after + {key};
    } else {
      assert before == after;
    }
  }

  lemma AddVoter(m: map<Slot, seq<nat>>, key: Slot, ballot: seq<nat>, o: nat)
    requires key !in m
    ensures |Voters(m[key := ballot], key.0, o)| == |Voters(m, key.0, o)| + (if o in ballot then 1 else 0)
  {
    var before, after := Voters(m, key.0, o), Voters(m[key := ballot], key.0, o);
    if o in ballot {
      assert after == before + {key};
    } else {
      assert before == after;
    }
  }

  lemma UncountedOk(c: map<nat, nat>, m: map<Slot, seq<nat>>, key: Slot)
    requires TallyOk(c, m, key.0) && key in m && StrictlyAscending(m[key])
    ensures forall o <- m[key] :: o in c && c[o] >= 1
    ensures Uncounted(c, m[key]).Keys == c.Keys
    ensures TallyOk(Uncounted(c, m[key]), m - {key}, key.0)
  {
    var c', m' := Uncounted(c, m[key]), m - {key};
    UncountedAt(c, m[key], 0);
    forall o <- m[key] ensures o in c && c[o] >= 1 {
      assert key in Voters(m, key.0, o);
    }
    forall o | o in c' ensures c'[o] == |Voters(m', key.0, o)| {
      UncountedAt(c, m[key], o);
      RemoveVoter(m, key, o);
    }
  }

  lemma CountedOk(c: map<nat, nat>, m: map<Slot, seq<nat>>, key: Slot, ballot: seq<nat>)
    requires TallyOk(c, m, key.0) && key !in m && StrictlyAscending(ballot)
    ensures TallyOk(Counted(c, ballot), m[key := ballot], key.0)
  {
    var c', m' := Counted(c, ballot), m[key := ballot];
    forall o | o in c' ensures c'[o] == |Voters(m', key.0, o)| {
      CountedAt(c, ballot, o);
      AddVoter(m, key, ballot, o);
      if o !in c {
        assert Voters(m, key.0, o) == {};
      }
    }
    forall k, o | k in m' && k.0 == key.0 && o in m'[k] ensures o in c' {
      CountedAt(c, ballot, o);
    }
  }

  lemma TallyOtherPost(c: map<nat, nat>, m: map<Slot, seq<nat>>, m': map<Slot, seq<nat>>, post: string)
    requires TallyOk(c, m, post)
    requires forall k: Slot :: k.0 == post ==> (k in m <==> k in m') && (k in m ==> m[k] == m'[k])
    ensures TallyOk(c, m', post)
  {
    forall o: nat ensures Voters(m, post, o) == Voters(m', post, o) {
    }
  }

  lemma {:induction false} AscendingOk(options: seq<nat>, n: nat)
    ensures StrictlyAscending(Ascending(options, n))
    ensures forall o: nat :: o in Ascending(options, n) <==> o < n && o in options
  {
    if n > 0 {
      AscendingOk(options, n - 1);
      var init := Ascending(options, n - 1);
      forall i | 0 <= i < |init| ensures init[i] < n - 1 {
        assert init[i] in init;
      }
    }
  }

  lemma BallotIsOk(options: seq<nat>, poll: Poll)
    ensures BallotOk(Ballot(options, poll), poll)
  {
    var s := Ascending(options, |poll.options|);
    AscendingOk(options, |poll.options|);
    forall o <- Ballot(options, poll) ensures o < |poll.options| {
      assert o in s;
    }
  }
}
