/** What every reachable timeline satisfies, for any deliveries in any order, however often repeated. */
module CircleInvariant {
  import opened Prelude
  import opened Circle
  import opened CircleCounters

  /** The caches of an item agree with the per-author maps. */
  ghost predicate ItemOk(item: Item, reactions: map<Slot, string>, votes: map<Slot, seq<nat>>) {
    && CacheOk(item.reactions, reactions, item.id)
    && TallyOk(item.votes, votes, item.id)
    && (forall o <- item.votes :: item.poll.Some? && o < |item.poll.value.options|)
    && (forall k :: k in votes && k.0 == item.id ==>
          item.kind.PostItem? && item.poll.Some? && BallotOk(votes[k], item.poll.value))
  }

  ghost predicate Inv(s: State) {
    |s.items| <= MAX_TIMELINE && Consistent(s)
  }

  ghost predicate Consistent(s: State) {
    && (forall i, j :: 0 <= i < j < |s.items| ==> s.items[i].id != s.items[j].id)
    && (forall i :: 0 <= i < |s.items| ==> s.items[i].id in s.seen)
    && (forall k <- s.reactions :: k.0 in s.seen && s.reactions[k] != "")
    && (forall k <- s.votes :: k.0 in s.seen)
    && (forall i :: 0 <= i < |s.items| ==> ItemOk(s.items[i], s.reactions, s.votes))
  }

  /** An id never seen before has no leftover reactions or ballots. */
  lemma FreshItemOk(s: State, item: Item)
    requires Inv(s) && item.id !in s.seen
    requires item.reactions == map[] && item.votes == map[]
    ensures ItemOk(item, s.reactions, s.votes)
  {
    forall r: string ensures Reactors(s.reactions, item.id, r) == {} {
    }
  }

  lemma AppendedConsistent(s: State, item: Item)
    requires Inv(s) && item.id !in s.seen && ItemOk(item, s.reactions, s.votes)
    ensures Consistent(s.(seen := s.seen + {item.id}, items := s.items + [item]))
  {
  }

  /** Eviction only shortens the list of items; the maps keep what they hold. */
  lemma EvictedConsistent(s: State, k: nat)
    requires Consistent(s) && k <= |s.items|
    ensures Consistent(s.(items := s.items[k..]))
  {
  }

  lemma PushedInv(s: State, item: Item)
    requires Inv(s) && item.id !in s.seen
    requires item.reactions == map[] && item.votes == map[]
    ensures Inv(s.(seen := s.seen + {item.id}, items := Pushed(s.items, item)))
  {
    FreshItemOk(s, item);
    AppendedConsistent(s, item);
    var all := s.(seen := s.seen + {item.id}, items := s.items + [item]);
    if |all.items| > MAX_TIMELINE {
      EvictedConsistent(all, |all.items| - MAX_TIMELINE);
    }
  }

  lemma ItemOtherReaction(item: Item, m: map<Slot, string>, m': map<Slot, string>, votes: map<Slot, seq<nat>>)
    requires ItemOk(item, m, votes)
    requires forall k: Slot :: k.0 == item.id ==> (k in m <==> k in m') && (k in m ==> m[k] == m'[k])
    ensures ItemOk(item, m', votes)
  {
    CacheOtherTarget(item.reactions, m, m', item.id);
  }

  lemma RetractedInv(s: State, key: Slot)
    requires Inv(s)
    ensures Inv(Retracted(s, key, IndexOf(s.items, key.0, false)))
  {
    var i := IndexOf(s.items, key.0, false);
    var s' := Retracted(s, key, i);
    if key in s.reactions {
      forall j | 0 <= j < |s.items| ensures ItemOk(s'.items[j], s'.reactions, s'.votes) {
        if j == i {
          DecrementedOk(s.items[i].reactions, s.reactions, key);
        } else {
          SameId(s.items, j, key.0, i);
          ItemOtherReaction(s.items[j], s.reactions, s'.reactions, s.votes);
        }
      }
    }
  }

  /** With distinct ids, only the indexed item has the id. */
  lemma SameId(items: seq<Item>, j: nat, id: string, i: nat)
    requires j < |items| && i == IndexOf(items, id, false) && i != j
    requires forall a, b :: 0 <= a < b < |items| ==> items[a].id != items[b].id
    ensures items[j].id != id
  {
  }

  lemma IndexOfSameIds(items: seq<Item>, items': seq<Item>, id: string, postsOnly: bool)
    requires |items| == |items'|
    requires forall j :: 0 <= j < |items| ==> items[j].id == items'[j].id && items[j].kind == items'[j].kind
    ensures IndexOf(items, id, postsOnly) == IndexOf(items', id, postsOnly)
  {
  }

  lemma IncrementedItem(item: Item, m: map<Slot, string>, votes: map<Slot, seq<nat>>, key: Slot, reaction: string)
    requires ItemOk(item, m, votes) && key.0 == item.id && key !in m
    ensures ItemOk(item.(reactions := Incremented(item.reactions, reaction)), m[key := reaction], votes)
  {
    IncrementedOk(item.reactions, m, key, reaction);
  }

  lemma IncrementedItems(items: seq<Item>, m: map<Slot, string>, votes: map<Slot, seq<nat>>, key: Slot, reaction: string,
                         i: nat)
    requires i == IndexOf(items, key.0, false) < |items| && key !in m
    requires forall a, b :: 0 <= a < b < |items| ==> items[a].id != items[b].id
    requires forall j :: 0 <= j < |items| ==> ItemOk(items[j], m, votes)
    ensures var items' := items[i := items[i].(reactions := Incremented(items[i].reactions, reaction))];
            forall j :: 0 <= j < |items| ==> ItemOk(items'[j], m[key := reaction], votes)
  {
    var items' := items[i := items[i].(reactions := Incremented(items[i].reactions, reaction))];
    forall j | 0 <= j < |items| ensures ItemOk(items'[j], m[key := reaction], votes) {
      if j == i {
        IncrementedItem(items[i], m, votes, key, reaction);
      } else {
        SameId(items, j, key.0, i);
        ItemOtherReaction(items[j], m, m[key := reaction], votes);
      }
    }
  }

  lemma IncrementedInv(s: State, s': State, key: Slot, reaction: string, i: nat)
    requires Inv(s) && key !in s.reactions && reaction != ""
    requires i == IndexOf(s.items, key.0, false) < |s.items|
    requires s' == s.(reactions := s.reactions[key := reaction],
                      items := s.items[i := s.items[i].(reactions := Incremented(s.items[i].reactions, reaction))])
    ensures Inv(s')
  {
    IncrementedItems(s.items, s.reactions, s.votes, key, reaction, i);
    assert s.items[i].id in s.seen;
  }

  lemma ReactedInv(s: State, author: string, target: string, reaction: string)
    requires Inv(s)
    ensures Inv(Reacted(s, author, target, reaction))
  {
    var key, i := (target, author), IndexOf(s.items, target, false);
    var s1 := Retracted(s, key, i);
    RetractedInv(s, key);
    if reaction != "" && i < |s.items| {
      IndexOfSameIds(s.items, s1.items, target, false);
      IncrementedInv(s1, Reacted(s, author, target, reaction), key, reaction, i);
    }
  }

  /** One item's tally through a whole vote: the old ballot out, the new one in. */
  lemma RecountedOk(item: Item, reactions: map<Slot, string>, votes: map<Slot, seq<nat>>, key: Slot, ballot: seq<nat>)
    requires ItemOk(item, reactions, votes) && key.0 == item.id && item.kind.PostItem? && item.poll.Some?
    requires BallotOk(ballot, item.poll.value)
    ensures var open := if key in votes then Uncounted(item.votes, votes[key]) else item.votes;
            ItemOk(item.(votes := Counted(open, ballot)), reactions, votes[key := ballot])
  {
    var without := votes - {key};
    var open := if key in votes then Uncounted(item.votes, votes[key]) else item.votes;
    if key in votes {
      UncountedOk(item.votes, votes, key);
    } else {
      assert without == votes;
    }
    CountedOk(open, without, key, ballot);
    assert without[key := ballot] == votes[key := ballot];
    forall o | o in Counted(open, ballot) ensures o < |item.poll.value.options| {
      CountedAt(open, ballot, o);
    }
  }

  lemma VotedInv(s: State, author: string, post: string, options: seq<nat>, atMs: nat)
    requires Inv(s)
    ensures Inv(Voted(s, author, post, options, atMs))
  {
    var key, i := (post, author), IndexOf(s.items, post, true);
    var s' := Voted(s, author, post, options, atMs);
    if Votable(s.items, i, atMs) {
      var ballot := Ballot(options, s.items[i].poll.value);
      BallotIsOk(options, s.items[i].poll.value);
      forall j | 0 <= j < |s.items| ensures ItemOk(s'.items[j], s'.reactions, s'.votes) {
        if j == i {
          RecountedOk(s.items[i], s.reactions, s.votes, key, ballot);
        } else {
          assert s.items[j].id != post;
          TallyOtherPost(s.items[j].votes, s.votes, s'.votes, s.items[j].id);
        }
      }
    }
  }

  lemma DeletedInv(s: State, author: string, target: string)
    requires Inv(s)
    ensures Inv(Deleted(s, author, target))
  {
  }

  lemma SeenInv(s: State, id: string)
    requires Inv(s)
    ensures Inv(s.(seen := s.seen + {id}))
  {
  }

  lemma AppliedInv(grants: Capability -> bool, s: State, author: string, e: Event)
    requires Inv(s)
    ensures Inv(Applied(grants, s, author, e))
  {
    var id := Hex(e.eventId);
    if Valid(grants, e) && id !in s.seen {
      SeenInv(s, id);
      if e.body.PostBody? {
        PushedInv(s, NewPost(e, author));
      } else if e.body.CommentBody? {
        PushedInv(s, NewComment(e, author));
      } else {
        ProjectedInv(s.(seen := s.seen + {id}), author, e);
      }
    }
  }

  lemma ProjectedInv(s: State, author: string, e: Event)
    requires Inv(s) && !e.body.PostBody? && !e.body.CommentBody?
    ensures Inv(Projected(s, author, e))
  {
    match e.body
    case ReactionBody(target, reaction) => ReactedInv(s, author, Hex(target), reaction);
    case VoteBody(post, options) => VotedInv(s, author, Hex(post), options, e.atMs);
    case DeleteBody(target) => DeletedInv(s, author, Hex(target));
    case _ =>
  }

  /** Every timeline that any deliveries can produce satisfies the invariant. */
  lemma {:induction false} ReachableInv(grants: Capability -> bool, ds: seq<Delivery>)
    ensures Inv(Folded(grants, EMPTY, ds))
    decreases |ds|
  {
    if ds != [] {
      var n := |ds| - 1;
      ReachableInv(grants, ds[..n]);
      AppliedInv(grants, Folded(grants, EMPTY, ds[..n]), ds[n].author, ds[n].event);
    }
  }

  /** In every run, each item's count of a reaction is the number of authors standing behind it. */
  lemma ReachableReactionCounts(grants: Capability -> bool, ds: seq<Delivery>, i: nat, r: string)
    requires i < |Folded(grants, EMPTY, ds).items|
    ensures var s := Folded(grants, EMPTY, ds);
            var c, authors := s.items[i].reactions, Reactors(s.reactions, s.items[i].id, r);
            (r in c <==> authors != {}) && (r in c ==> c[r] == |authors|)
  {
    ReachableInv(grants, ds);
    var s := Folded(grants, EMPTY, ds);
    var authors := Reactors(s.reactions, s.items[i].id, r);
    if authors != {} {
      var k :| k in authors;
    }
  }

  /** In every run, each option's count is the number of ballots that name it, and ballots are well formed. */
  lemma ReachableVoteCounts(grants: Capability -> bool, ds: seq<Delivery>, i: nat, o: nat)
    requires i < |Folded(grants, EMPTY, ds).items|
    ensures var s := Folded(grants, EMPTY, ds);
            var item := s.items[i];
            && (if o in item.votes then item.votes[o] else 0) == |Voters(s.votes, item.id, o)|
            && (forall k :: k in s.votes && k.0 == item.id ==>
                  item.poll.Some? && BallotOk(s.votes[k], item.poll.value))
  {
    ReachableInv(grants, ds);
    var s := Folded(grants, EMPTY, ds);
    var item := s.items[i];
    if o !in item.votes {
      assert Voters(s.votes, item.id, o) == {};
    }
  }

  lemma WithdrawalExact(item: Item, reactions: map<Slot, string>, key: Slot)
    requires CacheOk(item.reactions, reactions, item.id) && key.0 == item.id && key in reactions
    ensures var c, r := item.reactions, reactions[key];
            r in c && c[r] >= 1 && Decremented(c, r) == if c[r] == 1 then c - {r} else c[r := c[r] - 1]
  {
    DecrementedOk(item.reactions, reactions, key);
  }

  /** Withdrawing a stored reaction takes exactly one off a count that is there: `saturating_sub` never saturates. */
  lemma ReactionWithdrawalExact(grants: Capability -> bool, ds: seq<Delivery>, i: nat, author: string)
    requires var s := Folded(grants, EMPTY, ds); i < |s.items| && (s.items[i].id, author) in s.reactions
    ensures var s := Folded(grants, EMPTY, ds);
            var c, r := s.items[i].reactions, s.reactions[(s.items[i].id, author)];
            r in c && c[r] >= 1 && Decremented(c, r) == if c[r] == 1 then c - {r} else c[r := c[r] - 1]
  {
    ReachableInv(grants, ds);
    var s := Folded(grants, EMPTY, ds);
    assert ItemOk(s.items[i], s.reactions, s.votes);
    WithdrawalExact(s.items[i], s.reactions, (s.items[i].id, author));
  }

  /** Withdrawing a stored ballot takes exactly one off each option it names, every one of them counted. */
  lemma BallotWithdrawalExact(grants: Capability -> bool, ds: seq<Delivery>, i: nat, author: string, o: nat)
    requires var s := Folded(grants, EMPTY, ds); i < |s.items| && (s.items[i].id, author) in s.votes
    ensures var s := Folded(grants, EMPTY, ds);
            var c, ballot := s.items[i].votes, s.votes[(s.items[i].id, author)];
            && (o in ballot ==> o in c && c[o] >= 1)
            && Uncounted(c, ballot).Keys == c.Keys
            && (o in c ==> Uncounted(c, ballot)[o] == c[o] - if o in ballot then 1 else 0)
  {
    ReachableInv(grants, ds);
    var s := Folded(grants, EMPTY, ds);
    var ballot := s.votes[(s.items[i].id, author)];
    assert ItemOk(s.items[i], s.reactions, s.votes);
    UncountedOk(s.items[i].votes, s.votes, (s.items[i].id, author));
    UncountedAt(s.items[i].votes, ballot, o);
  }

  lemma ClosedPollKept(s: State, author: string, post: string, options: seq<nat>, atMs: nat, i: nat)
    requires forall a, b :: 0 <= a < b < |s.items| ==> s.items[a].id != s.items[b].id
    requires i < |s.items| && s.items[i].id == post && s.items[i].poll.Some?
    requires s.items[i].poll.value.closesAtMs != 0 && atMs > s.items[i].poll.value.closesAtMs
    ensures Voted(s, author, post, options, atMs) == s
  {
    var j := IndexOf(s.items, post, true);
    assert j < |s.items| ==> j == i;
  }
}
