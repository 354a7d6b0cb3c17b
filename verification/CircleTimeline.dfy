/** The timeline object of node/hashgram-app/src/circle.rs, updated in place. */
module CircleTimeline {
  import opened Prelude
  import opened Circle
  import opened CircleCounters

  /// The ballot: filter, sort, dedup, truncate

  predicate Sorted(s: seq<nat>) {
    forall i, j :: 0 <= i < j < |s| ==> s[i] <= s[j]
  }

  lemma InsertedSorted(ys: seq<nat>, k: nat, x: nat)
    requires k <= |ys| && Sorted(ys)
    requires (forall j :: 0 <= j < k ==> ys[j] <= x) && (k < |ys| ==> x <= ys[k])
    ensures Sorted(ys[..k] + [x] + ys[k..])
  {
    var r := ys[..k] + [x] + ys[k..];
    assert forall j :: 0 <= j < k ==> r[j] == ys[j];
    assert r[k] == x;
    assert forall j :: k < j < |r| ==> r[j] == ys[j - 1];
    assert forall j :: k <= j < |ys| ==> x <= ys[j];
  }

  lemma InsertedPermutes<T>(ys: seq<T>, k: nat, x: T)
    requires k <= |ys|
    ensures multiset(ys[..k] + [x] + ys[k..]) == multiset(ys) + multiset{x}
  {
    assert ys == ys[..k] + ys[k..];
  }

  method Sort(xs: seq<nat>) returns (ys: seq<nat>)
    ensures Sorted(ys) && multiset(ys) == multiset(xs)
  {
    ys := [];
    for i := 0 to |xs|
      invariant Sorted(ys) && multiset(ys) == multiset(xs[..i])
    {
      var k := 0;
      while k < |ys| && ys[k] <= xs[i]
        invariant k <= |ys|
        invariant forall j :: 0 <= j < k ==> ys[j] <= xs[i]
      {
        k := k + 1;
      }
      assert xs[..i + 1] == xs[..i] + [xs[i]];
      InsertedSorted(ys, k, xs[i]);
      InsertedPermutes(ys, k, xs[i]);
      ys := ys[..k] + [xs[i]] + ys[k..];
    }
    assert xs[..|xs|] == xs;
  }

  method Dedup(xs: seq<nat>) returns (ys: seq<nat>)
    requires Sorted(xs)
    ensures StrictlyAscending(ys) && forall o :: o in ys <==> o in xs
  {
    ys := [];
    for i := 0 to |xs|
      invariant StrictlyAscending(ys)
      invariant forall o :: o in ys <==> o in xs[..i]
      invariant ys == [] <==> i == 0
      invariant i > 0 ==> ys[|ys| - 1] == xs[i - 1]
    {
      assert xs[..i + 1] == xs[..i] + [xs[i]];
      if i == 0 || xs[i - 1] != xs[i] {
        forall j | 0 <= j < |ys| ensures ys[j] < xs[i] {
          assert ys[j] <= ys[|ys| - 1];
        }
        ys := ys + [xs[i]];
      }
    }
    assert xs[..|xs|] == xs;
  }

  lemma HasElement(s: seq<nat>)
    requires s != []
    ensures exists o :: o in s
  {
    assert s[0] in s;
  }

  lemma {:induction false} AscendingUnique(s: seq<nat>, options: seq<nat>, n: nat)
    requires StrictlyAscending(s)
    requires forall o: nat :: o in s <==> o < n && o in options
    ensures s == Ascending(options, n)
    decreases n
  {
    if n == 0 {
      if s != [] {
        HasElement(s);
      }
    } else if n - 1 in options {
      var k := |s| - 1;
      assert n - 1 in s;
      assert s[k] in s;
      assert s == s[..k] + [n - 1];
      AscendingUnique(s[..k], options, n - 1);
    } else {
      AscendingUnique(s, options, n - 1);
    }
  }

  method ChooseOptions(options: seq<nat>, poll: Poll) returns (chosen: seq<nat>)
    ensures chosen == Ballot(options, poll)
  {
    var n := |poll.options|;
    chosen := [];
    for i := 0 to |options|
      invariant forall o :: o in chosen <==> o < n && o in options[..i]
    {
      assert options[..i + 1] == options[..i] + [options[i]];
      if options[i] < n {
        chosen := chosen + [options[i]];
      }
    }
    assert options[..|options|] == options;
    var sorted := Sort(chosen);
    SameMembers(sorted, chosen);
    chosen := Dedup(sorted);
    AscendingUnique(chosen, options, n);
    if !poll.multipleChoice && |chosen| > 1 {
      chosen := chosen[..1];
    }
  }

  lemma Reinserted<K, V>(m: map<K, V>, k: K, v: V)
    ensures (m - {k})[k := v] == m[k := v]
  {
  }

  /// The object

  class Timeline {
    const grants: Capability -> bool
    var info: Info
    var items: seq<Item>
    var reactions: map<Slot, string>
    var votes: map<Slot, seq<nat>>
    var seen: set<string>

    function Snapshot(): (s: State)
      reads this
    {
      State(info, items, reactions, votes, seen)
    }

    constructor (grants: Capability -> bool)
      ensures Snapshot() == EMPTY && this.grants == grants
    {
      this.grants := grants;
      info := Info("", "", None, false);
      items, reactions, votes, seen := [], map[], map[], {};
    }

    method Find(id: string, postsOnly: bool) returns (i: nat)
      ensures i == IndexOf(items, id, postsOnly)
    {
      i := 0;
      while i < |items| && (items[i].id != id || (postsOnly && !items[i].kind.PostItem?))
        invariant i <= |items|
        invariant forall j :: 0 <= j < i ==> items[j].id != id || (postsOnly && !items[j].kind.PostItem?)
      {
        i := i + 1;
      }
    }

    method Push(item: Item)
      modifies this`items
      ensures items == Pushed(old(items), item)
    {
      items := items + [item];
      if |items| > MAX_TIMELINE {
        var excess := |items| - MAX_TIMELINE;
        items := items[excess..];
      }
    }

    method React(author: string, target: string, reaction: string)
      modifies this`items, this`reactions
      ensures Snapshot() == Reacted(old(Snapshot()), author, target, reaction)
    {
      var key := (target, author);
      var i := Find(target, false);
      if key in reactions {
        var prev := reactions[key];
        reactions := reactions - {key};
        if i < |items| && prev in items[i].reactions {
          var c := items[i].reactions;
          var n := if c[prev] == 0 then 0 else c[prev] - 1;
          c := c[prev := n];
          if n == 0 {
            c := c - {prev};
          }
          assert c == Decremented(items[i].reactions, prev);
          items := items[i := items[i].(reactions := c)];
        } else if i < |items| {
          assert items[i := items[i].(reactions := Decremented(items[i].reactions, prev))] == items;
        }
      }
      if reaction != "" && i < |items| {
        items := items[i := items[i].(reactions := Incremented(items[i].reactions, reaction))];
        reactions := reactions[key := reaction];
      }
    }

    method Vote(author: string, post: string, options: seq<nat>, atMs: nat)
      modifies this`items, this`votes
      ensures Snapshot() == Voted(old(Snapshot()), author, post, options, atMs)
    {
      var key := (post, author);
      var i := Find(post, true);
      if i == |items| || items[i].poll.None? {
        return;
      }
      var poll := items[i].poll.value;
      if poll.closesAtMs != 0 && atMs > poll.closesAtMs {
        return;
      }
      var tally := items[i].votes;
      if key in votes {
        tally := Uncount(tally, votes[key]);
        votes := votes - {key};
      }
      var chosen := ChooseOptions(options, poll);
      tally := Count(tally, chosen);
      Reinserted(old(votes), key, chosen);
      items := items[i := items[i].(votes := tally)];
      votes := votes[key := chosen];
    }

    static method Uncount(c: map<nat, nat>, ballot: seq<nat>) returns (c': map<nat, nat>)
      ensures c' == Uncounted(c, ballot)
    {
      c' := c;
      for k := 0 to |ballot|
        invariant c' == Uncounted(c, ballot[..k])
      {
        assert ballot[..k + 1][..k] == ballot[..k];
        var o := ballot[k];
        if o in c' {
          c' := c'[o := if c'[o] == 0 then 0 else c'[o] - 1];
        }
      }
      assert ballot[..|ballot|] == ballot;
    }

    static method Count(c: map<nat, nat>, ballot: seq<nat>) returns (c': map<nat, nat>)
      ensures c' == Counted(c, ballot)
    {
      c' := c;
      for k := 0 to |ballot|
        invariant c' == Counted(c, ballot[..k])
      {
        assert ballot[..k + 1][..k] == ballot[..k];
        c' := Incremented(c', ballot[k]);
      }
      assert ballot[..|ballot|] == ballot;
    }

    method Delete(author: string, target: string)
      modifies this`items
      ensures Snapshot() == Deleted(old(Snapshot()), author, target)
    {
      var i := Find(target, false);
      if i < |items| && items[i].author == author {
        items := items[i := items[i].(deleted := true, text := "", media := [], driveRefs := [])];
      }
    }

    method Apply(author: string, e: Event) returns (r: Outcome)
      modifies this
      ensures r.Ok? <==> Valid(grants, e)
      ensures Snapshot() == Applied(grants, old(Snapshot()), author, e)
    {
      if !Valid(grants, e) {
        return Failed;
      }
      r := Ok;
      var id := Hex(e.eventId);
      if id in seen {
        return;
      }
      seen := seen + {id};
      match e.body
      case InfoBody(i) => info := i;
      case PostBody(_, _, _, _) => Push(NewPost(e, author));
      case CommentBody(_, _, _) => Push(NewComment(e, author));
      case ReactionBody(target, reaction) => React(author, Hex(target), reaction);
      case VoteBody(post, options) => Vote(author, Hex(post), options, e.atMs);
      case DeleteBody(target) => Delete(author, Hex(target));
      case UnknownBody =>
    }
  }
}
