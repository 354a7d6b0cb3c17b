/** The two listings of a timeline (posts and comments in node/hashgram-app/src/circle.rs). */
module CircleViews {
  import opened Circle
  import opened CircleInvariant

  /// The order: time, then id

  /** Byte-wise order of strings. */
  predicate Below(s: string, t: string) {
    t != "" && (s == "" || s[0] < t[0] || (s[0] == t[0] && Below(s[1..], t[1..])))
  }

  lemma {:induction false} BelowTotal(s: string, t: string)
    ensures !(Below(s, t) && Below(t, s))
    ensures s != t ==> Below(s, t) || Below(t, s)
    ensures s == t ==> !Below(s, t)
    decreases |s|
  {
    if s != "" && t != "" {
      BelowTotal(s[1..], t[1..]);
      assert s == [s[0]] + s[1..] && t == [t[0]] + t[1..];
    }
  }

  lemma {:induction false} BelowTransitive(s: string, t: string, u: string)
    requires Below(s, t) && Below(t, u)
    ensures Below(s, u)
    decreases |s|
  {
    if s != "" && s[0] == t[0] == u[0] {
      BelowTransitive(s[1..], t[1..], u[1..]);
    }
  }

  predicate Older(a: Item, b: Item) {
    a.atMs < b.atMs || (a.atMs == b.atMs && Below(a.id, b.id))
  }

  /** Which of two items is listed first: the older one in an ascending listing. */
  predicate Before(asc: bool, a: Item, b: Item) {
    if asc then Older(a, b) else Older(b, a)
  }

  lemma BeforeTotal(asc: bool, a: Item, b: Item)
    ensures !(Before(asc, a, b) && Before(asc, b, a))
    ensures a.id != b.id ==> Before(asc, a, b) || Before(asc, b, a)
  {
    BelowTotal(a.id, b.id);
  }

  lemma BeforeTransitive(asc: bool, a: Item, b: Item, c: Item)
    requires Before(asc, a, b) && !Before(asc, c, b)
    ensures Before(asc, a, c)
  {
    BelowTotal(b.id, c.id);
    BelowTotal(c.id, b.id);
    if Below(a.id, b.id) && Below(b.id, c.id) {
      BelowTransitive(a.id, b.id, c.id);
    }
    if Below(c.id, b.id) && Below(b.id, a.id) {
      BelowTransitive(c.id, b.id, a.id);
    }
  }

  /// Sorting

  /** A stable insertion: behind everything that is not listed after `x`. */
  function Placed(asc: bool, ys: seq<Item>, x: Item): (r: seq<Item>) {
    if ys == [] then [x]
    else if Before(asc, x, ys[0]) then [x] + ys
    else [ys[0]] + Placed(asc, ys[1..], x)
  }

  function Ranked(asc: bool, xs: seq<Item>): (r: seq<Item>)
    decreases |xs|
  {
    if xs == [] then [] else Placed(asc, Ranked(asc, xs[..|xs| - 1]), xs[|xs| - 1])
  }

  predicate Ordered(asc: bool, xs: seq<Item>) {
    forall i, j :: 0 <= i < j < |xs| ==> !Before(asc, xs[j], xs[i])
  }

  lemma {:induction false} PlacedPermutes(asc: bool, ys: seq<Item>, x: Item)
    ensures multiset(Placed(asc, ys, x)) == multiset(ys) + multiset{x}
    decreases |ys|
  {
    if ys != [] {
      assert ys == [ys[0]] + ys[1..];
      PlacedPermutes(asc, ys[1..], x);
    }
  }

  lemma {:induction false} RankedPermutes(asc: bool, xs: seq<Item>)
    ensures multiset(Ranked(asc, xs)) == multiset(xs)
    decreases |xs|
  {
    if xs != [] {
      assert xs == xs[..|xs| - 1] + [xs[|xs| - 1]];
      RankedPermutes(asc, xs[..|xs| - 1]);
      PlacedPermutes(asc, Ranked(asc, xs[..|xs| - 1]), xs[|xs| - 1]);
    }
  }

  lemma OrderedCons(asc: bool, y: Item, ys: seq<Item>)
    requires Ordered(asc, ys) && forall z <- ys :: !Before(asc, z, y)
    ensures Ordered(asc, [y] + ys)
  {
    forall i, j | 0 <= i < j < |[y] + ys| ensures !Before(asc, ([y] + ys)[j], ([y] + ys)[i]) {
      assert ([y] + ys)[j] == ys[j - 1] && ys[j - 1] in ys;
    }
  }

  lemma {:induction false} PlacedOrdered(asc: bool, ys: seq<Item>, x: Item)
    requires Ordered(asc, ys)
    ensures Ordered(asc, Placed(asc, ys, x))
    decreases |ys|
  {
    if ys == [] {
    } else if Before(asc, x, ys[0]) {
      forall z <- ys ensures !Before(asc, z, x) {
        var k :| 0 <= k < |ys| && ys[k] == z;
        BeforeTotal(asc, ys[0], z);
        BeforeTransitive(asc, x, ys[0], z);
        BeforeTotal(asc, x, z);
      }
      OrderedCons(asc, x, ys);
    } else {
      PlacedOrdered(asc, ys[1..], x);
      PlacedPermutes(asc, ys[1..], x);
      forall z <- Placed(asc, ys[1..], x) ensures !Before(asc, z, ys[0]) {
        assert z in multiset(Placed(asc, ys[1..], x));
        assert z in ys[1..] || z == x;
      }
      OrderedCons(asc, ys[0], Placed(asc, ys[1..], x));
    }
  }

  lemma {:induction false} RankedOrdered(asc: bool, xs: seq<Item>)
    ensures Ordered(asc, Ranked(asc, xs))
    decreases |xs|
  {
    if xs != [] {
      RankedOrdered(asc, xs[..|xs| - 1]);
      PlacedOrdered(asc, Ranked(asc, xs[..|xs| - 1]), xs[|xs| - 1]);
    }
  }

  predicate DistinctItems(xs: seq<Item>) {
    forall i, j :: 0 <= i < j < |xs| ==> xs[i].id != xs[j].id
  }

  lemma SameFirst(asc: bool, xs: seq<Item>, ys: seq<Item>)
    requires xs != [] && ys != [] && ys[0] in xs && xs[0] in ys
    requires DistinctItems(xs) && Ordered(asc, xs) && Ordered(asc, ys)
    ensures xs[0] == ys[0]
  {
    var i :| 0 <= i < |ys| && ys[i] == xs[0];
    var j :| 0 <= j < |xs| && xs[j] == ys[0];
    BeforeTotal(asc, xs[0], ys[0]);
  }

  lemma Rest(xs: seq<Item>)
    requires xs != []
    ensures multiset(xs[1..]) == multiset(xs) - multiset{xs[0]} && xs[0] in multiset(xs)
  {
    assert xs == [xs[0]] + xs[1..];
  }

  /** Items of distinct ids have exactly one listing. */
  lemma {:induction false} OrderedUnique(asc: bool, xs: seq<Item>, ys: seq<Item>)
    requires multiset(xs) == multiset(ys) && DistinctItems(xs) && Ordered(asc, xs) && Ordered(asc, ys)
    ensures xs == ys
    decreases |xs|
  {
    assert |multiset(xs)| == |xs| && |multiset(ys)| == |ys|;
    if xs != [] {
      Rest(xs);
      Rest(ys);
      SameFirst(asc, xs, ys);
      OrderedUnique(asc, xs[1..], ys[1..]);
      assert xs == [xs[0]] + xs[1..] && ys == [ys[0]] + ys[1..];
    }
  }

  /// The listings

  function Filtered(items: seq<Item>, keep: Item -> bool): (r: seq<Item>)
    decreases |items|
  {
    if items == [] then []
    else
      var last := items[|items| - 1];
      Filtered(items[..|items| - 1], keep) + (if keep(last) then [last] else [])
  }

  function Truncated(xs: seq<Item>, limit: nat): (r: seq<Item>) {
    if |xs| > limit then xs[..limit] else xs
  }

  function PostBefore(beforeMs: nat): (p: Item -> bool) {
    (i: Item) => i.kind.PostItem? && (beforeMs == 0 || i.atMs < beforeMs)
  }

  function CommentOn(postId: string): (p: Item -> bool) {
    (i: Item) => i.kind.CommentItem? && i.postId == postId
  }

  function Posts(s: State, beforeMs: nat, limit: nat): (v: seq<Item>) {
    Truncated(Ranked(false, Filtered(s.items, PostBefore(beforeMs))), limit)
  }

  function Comments(s: State, postId: string): (v: seq<Item>) {
    Ranked(true, Filtered(s.items, CommentOn(postId)))
  }

  lemma {:induction false} FilteredCount(items: seq<Item>, keep: Item -> bool, x: Item)
    ensures multiset(Filtered(items, keep))[x] == if keep(x) then multiset(items)[x] else 0
    decreases |items|
  {
    if items != [] {
      assert items == items[..|items| - 1] + [items[|items| - 1]];
      FilteredCount(items[..|items| - 1], keep, x);
    }
  }

  lemma FilteredMembers(items: seq<Item>, keep: Item -> bool)
    ensures forall x :: x in Filtered(items, keep) <==> x in items && keep(x)
  {
    forall x ensures x in Filtered(items, keep) <==> x in items && keep(x) {
      FilteredCount(items, keep, x);
      assert x in multiset(items) <==> x in items;
      assert x in multiset(Filtered(items, keep)) <==> x in Filtered(items, keep);
    }
  }

  lemma {:induction false} FilteredDistinct(items: seq<Item>, keep: Item -> bool)
    requires DistinctItems(items)
    ensures DistinctItems(Filtered(items, keep))
    decreases |items|
  {
    if items != [] {
      var init, last := items[..|items| - 1], items[|items| - 1];
      FilteredDistinct(init, keep);
      FilteredMembers(init, keep);
      forall i | 0 <= i < |Filtered(init, keep)| ensures Filtered(init, keep)[i].id != last.id {
        assert Filtered(init, keep)[i] in init;
      }
    }
  }

  /** A listing depends only on which items the timeline holds, not on the order they arrived in. */
  lemma ListingArrivalFree(asc: bool, xs: seq<Item>, ys: seq<Item>, keep: Item -> bool)
    requires multiset(xs) == multiset(ys) && DistinctItems(xs)
    ensures Ranked(asc, Filtered(xs, keep)) == Ranked(asc, Filtered(ys, keep))
  {
    var fs, gs := Filtered(xs, keep), Filtered(ys, keep);
    forall x ensures multiset(fs)[x] == multiset(gs)[x] {
      FilteredCount(xs, keep, x);
      FilteredCount(ys, keep, x);
    }
    assert multiset(fs) == multiset(gs);
    FilteredDistinct(xs, keep);
    RankedPermutes(asc, fs);
    RankedPermutes(asc, gs);
    RankedOrdered(asc, fs);
    RankedOrdered(asc, gs);
    RankedDistinct(asc, fs);
    OrderedUnique(asc, Ranked(asc, fs), Ranked(asc, gs));
  }

  lemma {:induction false} PlacedDistinct(asc: bool, ys: seq<Item>, x: Item)
    requires DistinctItems(ys) && forall y <- ys :: y.id != x.id
    ensures DistinctItems(Placed(asc, ys, x))
    decreases |ys|
  {
    if ys != [] && !Before(asc, x, ys[0]) {
      PlacedDistinct(asc, ys[1..], x);
      PlacedPermutes(asc, ys[1..], x);
      forall z <- Placed(asc, ys[1..], x) ensures z.id != ys[0].id {
        assert z in multiset(Placed(asc, ys[1..], x));
        assert z in ys[1..] || z == x;
      }
    }
  }

  lemma {:induction false} RankedDistinct(asc: bool, xs: seq<Item>)
    requires DistinctItems(xs)
    ensures DistinctItems(Ranked(asc, xs))
    decreases |xs|
  {
    if xs != [] {
      var init, last := xs[..|xs| - 1], xs[|xs| - 1];
      RankedDistinct(asc, init);
      RankedPermutes(asc, init);
      forall y <- Ranked(asc, init) ensures y.id != last.id {
        assert y in multiset(Ranked(asc, init));
        assert y in init;
      }
      PlacedDistinct(asc, Ranked(asc, init), last);
    }
  }

  predicate StrictlyOrdered(asc: bool, xs: seq<Item>) {
    forall i, j :: 0 <= i < j < |xs| ==> Before(asc, xs[i], xs[j])
  }

  lemma OrderedStrictly(asc: bool, xs: seq<Item>)
    requires Ordered(asc, xs) && DistinctItems(xs)
    ensures StrictlyOrdered(asc, xs)
  {
    forall i, j | 0 <= i < j < |xs| ensures Before(asc, xs[i], xs[j]) {
      BeforeTotal(asc, xs[i], xs[j]);
    }
  }

  lemma RankedListing(asc: bool, items: seq<Item>, keep: Item -> bool)
    requires DistinctItems(items)
    ensures var all := Ranked(asc, Filtered(items, keep));
            StrictlyOrdered(asc, all) && forall x :: x in all <==> x in items && keep(x)
  {
    var fs := Filtered(items, keep);
    FilteredDistinct(items, keep);
    FilteredMembers(items, keep);
    RankedOrdered(asc, fs);
    RankedDistinct(asc, fs);
    OrderedStrictly(asc, Ranked(asc, fs));
    RankedPermutes(asc, fs);
    forall x ensures x in Ranked(asc, fs) <==> x in fs {
      assert x in multiset(Ranked(asc, fs)) <==> x in multiset(fs);
    }
  }

  /** The strings agree before `k`, where the second one goes on. */
  predicate FirstDifference(s: string, t: string, k: int) {
    0 <= k <= |s| && k < |t| && forall j :: 0 <= j < k ==> s[j] == t[j]
  }

  /** The first differing byte decides, and a proper prefix comes first. */
  lemma {:induction false} BelowIff(s: string, t: string)
    ensures Below(s, t) <==> exists k :: FirstDifference(s, t, k) && (k == |s| || s[k] < t[k])
    decreases |s|
  {
    if Below(s, t) {
      var k := DifferenceOf(s, t);
    }
    if k :| FirstDifference(s, t, k) && (k == |s| || s[k] < t[k]) {
      BelowFrom(s, t, k);
    }
  }

  lemma {:induction false} DifferenceOf(s: string, t: string) returns (k: nat)
    requires Below(s, t)
    ensures FirstDifference(s, t, k) && (k == |s| || s[k] < t[k])
    decreases |s|
  {
    k := 0;
    if s != "" && s[0] == t[0] {
      var rest := DifferenceOf(s[1..], t[1..]);
      k := rest + 1;
      assert forall j :: 1 <= j < k ==> s[1..][j - 1] == s[j] && t[1..][j - 1] == t[j];
    }
  }

  lemma {:induction false} BelowFrom(s: string, t: string, k: nat)
    requires FirstDifference(s, t, k) && (k == |s| || s[k] < t[k])
    ensures Below(s, t)
    decreases k
  {
    if k > 0 {
      BelowFrom(s[1..], t[1..], k - 1);
    }
  }

  /** Newer posts first, and among those of one time the greater id. */
  predicate NewerFirst(a: Item, b: Item) {
    a.atMs > b.atMs || (a.atMs == b.atMs && Below(b.id, a.id))
  }

  /** A post, before a time when one is given. */
  predicate AskedFor(x: Item, beforeMs: nat) {
    x.kind == PostItem && (beforeMs == 0 || x.atMs < beforeMs)
  }

  lemma PostPage(s: State, beforeMs: nat, limit: nat)
    requires DistinctItems(s.items)
    ensures var v := Posts(s, beforeMs, limit);
            && (forall i, j :: 0 <= i < j < |v| ==> NewerFirst(v[i], v[j])) && |v| <= limit
            && (forall x <- v :: x in s.items && AskedFor(x, beforeMs))
            && (forall x <- s.items :: AskedFor(x, beforeMs) && x !in v ==>
                  |v| == limit && forall y <- v :: NewerFirst(y, x))
  {
    RankedListing(false, s.items, PostBefore(beforeMs));
    var all, v := Ranked(false, Filtered(s.items, PostBefore(beforeMs))), Posts(s, beforeMs, limit);
    assert forall x :: AskedFor(x, beforeMs) <==> PostBefore(beforeMs)(x);
    assert forall x, y :: NewerFirst(x, y) <==> Before(false, x, y);
    forall x <- s.items | AskedFor(x, beforeMs) && x !in v ensures |v| == limit && forall y <- v :: NewerFirst(y, x) {
      PageCut(all, limit, x);
    }
  }

  lemma PageCut(all: seq<Item>, limit: nat, x: Item)
    requires StrictlyOrdered(false, all) && x in all && x !in Truncated(all, limit)
    ensures var v := Truncated(all, limit); |v| == limit && forall y <- v :: Before(false, y, x)
  {
    var k :| 0 <= k < |all| && all[k] == x;
    var v := Truncated(all, limit);
    assert forall j :: 0 <= j < |v| ==> v[j] in v && v[j] == all[j];
    assert k >= |v|;
    forall y <- v ensures Before(false, y, x) {
      var j :| 0 <= j < |v| && v[j] == y;
      assert all[j] == y;
    }
  }

  /** In every reachable timeline, a page of posts is strictly newest first and holds the newest of those asked for. */
  lemma ReachablePosts(grants: Capability -> bool, ds: seq<Delivery>, beforeMs: nat, limit: nat)
    ensures var s := Folded(grants, EMPTY, ds);
            var v := Posts(s, beforeMs, limit);
            && (forall i, j :: 0 <= i < j < |v| ==> NewerFirst(v[i], v[j])) && |v| <= limit
            && (forall x <- v :: x in s.items && AskedFor(x, beforeMs))
            && (forall x <- s.items :: AskedFor(x, beforeMs) && x !in v ==>
                  |v| == limit && forall y <- v :: NewerFirst(y, x))
  {
    ReachableInv(grants, ds);
    PostPage(Folded(grants, EMPTY, ds), beforeMs, limit);
  }

  /** Older comments first, and among those of one time the smaller id. */
  predicate OlderFirst(a: Item, b: Item) {
    a.atMs < b.atMs || (a.atMs == b.atMs && Below(a.id, b.id))
  }

  /** The comments of a post are all of them, strictly oldest first. */
  lemma ReachableComments(grants: Capability -> bool, ds: seq<Delivery>, postId: string)
    ensures var s := Folded(grants, EMPTY, ds);
            var v := Comments(s, postId);
            && (forall i, j :: 0 <= i < j < |v| ==> OlderFirst(v[i], v[j]))
            && forall x :: x in v <==> x in s.items && x.kind == CommentItem && x.postId == postId
  {
    ReachableInv(grants, ds);
    RankedListing(true, Folded(grants, EMPTY, ds).items, CommentOn(postId));
  }
}
