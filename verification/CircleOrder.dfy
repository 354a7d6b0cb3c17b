/** Duplicate delivery and delivery order: what a timeline does not depend on. */
module CircleOrder {
  import opened Prelude
  import opened Circle
  import opened CircleCounters
  import opened CircleInvariant

  /// Exactly once

  /** The ids that valid events of a run carry. */
  function ValidIds(grants: Capability -> bool, ds: seq<Delivery>): (ids: set<string>) {
    set d | d in ds && Valid(grants, d.event) :: Hex(d.event.eventId)
  }

  /** The valid events at the first appearance of their id among valid events. */
  function FirstDeliveries(grants: Capability -> bool, ds: seq<Delivery>): (r: seq<Delivery>)
    decreases |ds|
  {
    if ds == [] then []
    else
      var init, d := ds[..|ds| - 1], ds[|ds| - 1];
      var rest := FirstDeliveries(grants, init);
      if Valid(grants, d.event) && Hex(d.event.eventId) !in ValidIds(grants, init) then rest + [d] else rest
  }

  lemma {:induction false} SeenIsValidIds(grants: Capability -> bool, ds: seq<Delivery>)
    ensures Folded(grants, EMPTY, ds).seen == ValidIds(grants, ds)
    decreases |ds|
  {
    if ds != [] {
      var n := |ds| - 1;
      SeenIsValidIds(grants, ds[..n]);
      assert ds == ds[..n] + [ds[n]];
      SeenAfter(grants, Folded(grants, EMPTY, ds[..n]), ds[n].author, ds[n].event);
    }
  }

  lemma SeenAfter(grants: Capability -> bool, s: State, author: string, e: Event)
    ensures Applied(grants, s, author, e).seen == if Valid(grants, e) then s.seen + {Hex(e.eventId)} else s.seen
  {
  }

  /** Folding everything that arrives is folding each valid event once, where its id first appears. */
  lemma {:induction false} FoldedExactlyOnce(grants: Capability -> bool, ds: seq<Delivery>)
    ensures Folded(grants, EMPTY, ds) == Folded(grants, EMPTY, FirstDeliveries(grants, ds))
    decreases |ds|
  {
    if ds != [] {
      var n := |ds| - 1;
      FoldedExactlyOnce(grants, ds[..n]);
      SeenIsValidIds(grants, ds[..n]);
      var rest := FirstDeliveries(grants, ds[..n]);
      assert (rest + [ds[n]])[..|rest|] == rest;
    }
  }

  lemma ValidIdsSnoc(grants: Capability -> bool, ds: seq<Delivery>, d: Delivery)
    ensures ValidIds(grants, ds + [d])
         == ValidIds(grants, ds) + (if Valid(grants, d.event) then {Hex(d.event.eventId)} else {})
  {
    forall x <- ds + [d] ensures x in ds || x == d {
    }
    assert forall x <- ds :: x in ds + [d];
    assert d in ds + [d];
  }

  /** No id is lost. */
  lemma {:induction false} FirstDeliveriesIds(grants: Capability -> bool, ds: seq<Delivery>)
    ensures ValidIds(grants, FirstDeliveries(grants, ds)) == ValidIds(grants, ds)
    decreases |ds|
  {
    if ds != [] {
      var n := |ds| - 1;
      FirstDeliveriesIds(grants, ds[..n]);
      assert ds == ds[..n] + [ds[n]];
      ValidIdsSnoc(grants, ds[..n], ds[n]);
      ValidIdsSnoc(grants, FirstDeliveries(grants, ds[..n]), ds[n]);
    }
  }

  /** Only valid deliveries are kept. */
  lemma {:induction false} FirstDeliveriesValid(grants: Capability -> bool, ds: seq<Delivery>)
    ensures forall d <- FirstDeliveries(grants, ds) :: d in ds && Valid(grants, d.event)
    decreases |ds|
  {
    if ds != [] {
      FirstDeliveriesValid(grants, ds[..|ds| - 1]);
    }
  }

  const EVENT_ID := (d: Delivery) => d.event.eventId

  /** No two of the deliveries kept carry one id. */
  lemma {:induction false} FirstDeliveriesDistinct(grants: Capability -> bool, ds: seq<Delivery>)
    ensures DistinctBy(FirstDeliveries(grants, ds), EVENT_ID)
    decreases |ds|
  {
    if ds != [] {
      var init, d := ds[..|ds| - 1], ds[|ds| - 1];
      FirstDeliveriesDistinct(grants, init);
      FirstDeliveriesValid(grants, init);
      if Valid(grants, d.event) && Hex(d.event.eventId) !in ValidIds(grants, init) {
        DistinctByGrows(FirstDeliveries(grants, init), EVENT_ID, d);
      }
    }
  }

  /// What the timeline keeps

  function Ids(items: seq<Item>): (ids: seq<string>)
    ensures |ids| == |items|
  {
    seq(|items|, i requires 0 <= i < |items| => items[i].id)
  }

  /** The ids of the posts and comments among deliveries, in order. */
  function Pushes(ds: seq<Delivery>): (ids: seq<string>)
    decreases |ds|
  {
    if ds == [] then []
    else
      var e := ds[|ds| - 1].event;
      Pushes(ds[..|ds| - 1]) + (if e.body.PostBody? || e.body.CommentBody? then [Hex(e.eventId)] else [])
  }

  function Newest(ids: seq<string>): (w: seq<string>) {
    if |ids| > MAX_TIMELINE then ids[|ids| - MAX_TIMELINE..] else ids
  }

  lemma PushedIds(items: seq<Item>, item: Item, ids: seq<string>)
    requires Ids(items) == Newest(ids)
    ensures Ids(Pushed(items, item)) == Newest(ids + [item.id])
  {
  }

  lemma ReactedIds(s: State, author: string, target: string, reaction: string)
    ensures Ids(Reacted(s, author, target, reaction).items) == Ids(s.items)
  {
  }

  lemma VotedIds(s: State, author: string, post: string, options: seq<nat>, atMs: nat)
    ensures Ids(Voted(s, author, post, options, atMs).items) == Ids(s.items)
  {
  }

  lemma DeletedIds(s: State, author: string, target: string)
    ensures Ids(Deleted(s, author, target).items) == Ids(s.items)
  {
  }

  lemma ProjectedIds(s: State, d: Delivery, ids: seq<string>)
    requires Ids(s.items) == Newest(ids)
    ensures Ids(Projected(s, d.author, d.event).items)
         == Newest(ids + (if d.event.body.PostBody? || d.event.body.CommentBody? then [Hex(d.event.eventId)] else []))
  {
    assert ids + [] == ids;
    match d.event.body
    case InfoBody(_) =>
    case PostBody(_, _, _, _) => PushedIds(s.items, NewPost(d.event, d.author), ids);
    case CommentBody(_, _, _) => PushedIds(s.items, NewComment(d.event, d.author), ids);
    case ReactionBody(target, reaction) => ReactedIds(s, d.author, Hex(target), reaction);
    case VoteBody(post, options) => VotedIds(s, d.author, Hex(post), options, d.event.atMs);
    case DeleteBody(target) => DeletedIds(s, d.author, Hex(target));
    case UnknownBody =>
  }

  lemma PushesSnoc(ds: seq<Delivery>, d: Delivery)
    ensures Pushes(ds + [d])
         == Pushes(ds) + (if d.event.body.PostBody? || d.event.body.CommentBody? then [Hex(d.event.eventId)] else [])
  {
    assert (ds + [d])[..|ds|] == ds;
  }

  /** The timeline holds the newest posts and comments by first arrival, at most 50,000, in arrival order. */
  lemma {:induction false} TimelineHoldsNewest(grants: Capability -> bool, ds: seq<Delivery>)
    ensures Ids(Folded(grants, EMPTY, ds).items) == Newest(Pushes(FirstDeliveries(grants, ds)))
    decreases |ds|
  {
    if ds != [] {
      var init, d := ds[..|ds| - 1], ds[|ds| - 1];
      TimelineHoldsNewest(grants, init);
      SeenIsValidIds(grants, init);
      var s, first := Folded(grants, EMPTY, init), FirstDeliveries(grants, init);
      if Valid(grants, d.event) && Hex(d.event.eventId) !in s.seen {
        ProjectedIds(s.(seen := s.seen + {Hex(d.event.eventId)}), d, Pushes(first));
        PushesSnoc(first, d);
      }
    }
  }

  /// Commuting reactions and votes

  predicate IsCounter(body: Body) {
    body.ReactionBody? || body.VoteBody?
  }

  /** Equal up to the cached counters. */
  predicate SameShape(xs: seq<Item>, ys: seq<Item>) {
    && |xs| == |ys|
    && forall i :: 0 <= i < |xs| ==> xs[i].(reactions := map[], votes := map[]) == ys[i].(reactions := map[], votes := map[])
  }

  lemma IndexOfSameShape(xs: seq<Item>, ys: seq<Item>, id: string, postsOnly: bool)
    requires SameShape(xs, ys)
    ensures IndexOf(xs, id, postsOnly) == IndexOf(ys, id, postsOnly)
  {
    forall j | 0 <= j < |xs| ensures xs[j].id == ys[j].id && xs[j].kind == ys[j].kind {
      assert xs[j].(reactions := map[], votes := map[]) == ys[j].(reactions := map[], votes := map[]);
    }
    IndexOfSameIds(xs, ys, id, postsOnly);
  }

  /** What a reaction or vote does to the author map of reactions, read off the shape of the items. */
  function NextReactions(items: seq<Item>, m: map<Slot, string>, author: string, body: Body): (m': map<Slot, string>) {
    if !body.ReactionBody? then m
    else
      var key := (Hex(body.targetId), author);
      if body.reaction == "" || IndexOf(items, key.0, false) == |items| then m - {key} else m[key := body.reaction]
  }

  /** The ballot a vote casts, when it counts: the item, and the options. */
  function Cast(items: seq<Item>, body: Body, atMs: nat): (r: Option<(nat, seq<nat>)>)
    ensures r.Some? ==> r.value.0 < |items|
  {
    if !body.VoteBody? then None
    else
      var i := IndexOf(items, Hex(body.pollId), true);
      if Votable(items, i, atMs) then Some((i, Ballot(body.optionIndexes, items[i].poll.value))) else None
  }

  lemma CastSameShape(xs: seq<Item>, ys: seq<Item>, body: Body, atMs: nat)
    requires SameShape(xs, ys)
    ensures Cast(xs, body, atMs) == Cast(ys, body, atMs)
  {
    if body.VoteBody? {
      var i := IndexOf(xs, Hex(body.pollId), true);
      IndexOfSameShape(xs, ys, Hex(body.pollId), true);
      if i < |xs| {
        assert xs[i].(reactions := map[], votes := map[]) == ys[i].(reactions := map[], votes := map[]);
      }
    }
  }

  function NextVotes(items: seq<Item>, m: map<Slot, seq<nat>>, author: string, body: Body, atMs: nat)
    : (m': map<Slot, seq<nat>>)
  {
    match Cast(items, body, atMs)
    case None => m
    case Some((i, ballot)) => m[(Hex(body.pollId), author) := ballot]
  }

  /** The keys of an item's tally, zero counts included: only voted options are ever added. */
  function NextOptions(items: seq<Item>, i: nat, body: Body, atMs: nat): (keys: set<nat>)
    requires i < |items|
  {
    match Cast(items, body, atMs)
    case None => items[i].votes.Keys
    case Some((j, ballot)) => items[i].votes.Keys + (if i == j then set o | o in ballot else {})
  }

  lemma {:induction false} UncountedKeys(c: map<nat, nat>, ballot: seq<nat>)
    ensures Uncounted(c, ballot).Keys == c.Keys
    decreases |ballot|
  {
    if ballot != [] {
      UncountedKeys(c, ballot[..|ballot| - 1]);
    }
  }

  lemma {:induction false} CountedKeys(c: map<nat, nat>, ballot: seq<nat>)
    ensures Counted(c, ballot).Keys == c.Keys + set o | o in ballot
    decreases |ballot|
  {
    if ballot != [] {
      var n := |ballot| - 1;
      CountedKeys(c, ballot[..n]);
      assert ballot == ballot[..n] + [ballot[n]];
    }
  }

  lemma SameShapeAfter(items: seq<Item>, i: nat, c: map<string, nat>)
    requires i < |items|
    ensures var r := items[i := items[i].(reactions := c)];
            SameShape(r, items) && forall j :: 0 <= j < |items| ==> r[j].votes == items[j].votes
  {
  }

  lemma RetractEffect(s: State, key: Slot, i: nat)
    requires i <= |s.items|
    ensures var r := Retracted(s, key, i);
            && SameShape(r.items, s.items)
            && r.info == s.info && r.seen == s.seen && r.votes == s.votes
            && (forall i :: 0 <= i < |s.items| ==> r.items[i].votes == s.items[i].votes)
            && r.reactions == s.reactions - {key}
  {
    if key !in s.reactions {
      assert s.reactions - {key} == s.reactions;
    } else if i < |s.items| {
      SameShapeAfter(s.items, i, Decremented(s.items[i].reactions, s.reactions[key]));
    }
  }

  lemma ReactionEffect(s: State, author: string, e: Event)
    requires e.body.ReactionBody?
    ensures var r := Reacted(s, author, Hex(e.body.targetId), e.body.reaction);
            && SameShape(r.items, s.items)
            && r.info == s.info && r.seen == s.seen && r.votes == s.votes
            && (forall i :: 0 <= i < |s.items| ==> r.items[i].votes == s.items[i].votes)
            && r.reactions == NextReactions(s.items, s.reactions, author, e.body)
  {
    var target, reaction := Hex(e.body.targetId), e.body.reaction;
    var key, i := (target, author), IndexOf(s.items, target, false);
    var s1 := Retracted(s, key, i);
    RetractEffect(s, key, i);
    if reaction != "" && i < |s.items| {
      SameShapeAfter(s1.items, i, Incremented(s1.items[i].reactions, reaction));
      assert (s.reactions - {key})[key := reaction] == s.reactions[key := reaction];
    }
  }

  lemma VoteEffect(s: State, author: string, e: Event)
    requires e.body.VoteBody?
    ensures var r := Voted(s, author, Hex(e.body.pollId), e.body.optionIndexes, e.atMs);
            && SameShape(r.items, s.items)
            && r.info == s.info && r.seen == s.seen && r.reactions == s.reactions
            && r.votes == NextVotes(s.items, s.votes, author, e.body, e.atMs)
            && (forall i :: 0 <= i < |s.items| ==> r.items[i].votes.Keys == NextOptions(s.items, i, e.body, e.atMs))
  {
    match Cast(s.items, e.body, e.atMs)
    case None =>
    case Some((i, ballot)) =>
      var key, item := (Hex(e.body.pollId), author), s.items[i];
      if key in s.votes {
        UncountedKeys(item.votes, s.votes[key]);
      }
      CountedKeys(if key in s.votes then Uncounted(item.votes, s.votes[key]) else item.votes, ballot);
  }

  /** What a reaction or a vote does to a timeline, apart from the counters it caches. */
  lemma CounterEffect(s: State, author: string, e: Event)
    requires IsCounter(e.body)
    ensures var r := Projected(s, author, e);
            && SameShape(r.items, s.items)
            && r.info == s.info && r.seen == s.seen
            && r.reactions == NextReactions(s.items, s.reactions, author, e.body)
            && r.votes == NextVotes(s.items, s.votes, author, e.body, e.atMs)
            && (forall i :: 0 <= i < |s.items| ==> r.items[i].votes.Keys == NextOptions(s.items, i, e.body, e.atMs))
  {
    if e.body.ReactionBody? {
      ReactionEffect(s, author, e);
    } else {
      VoteEffect(s, author, e);
    }
  }

  lemma NextReactionsSameShape(xs: seq<Item>, ys: seq<Item>, m: map<Slot, string>, author: string, body: Body)
    requires SameShape(xs, ys)
    ensures NextReactions(xs, m, author, body) == NextReactions(ys, m, author, body)
  {
    if body.ReactionBody? {
      IndexOfSameShape(xs, ys, Hex(body.targetId), false);
    }
  }

  lemma NextReactionsCommute(items: seq<Item>, m: map<Slot, string>, a: string, e: Body, b: string, f: Body)
    requires a != b
    ensures NextReactions(items, NextReactions(items, m, a, e), b, f)
         == NextReactions(items, NextReactions(items, m, b, f), a, e)
  {
  }

  lemma NextVotesCommute(items: seq<Item>, m: map<Slot, seq<nat>>, a: string, e: Event, b: string, f: Event)
    requires a != b
    ensures NextVotes(items, NextVotes(items, m, a, e.body, e.atMs), b, f.body, f.atMs)
         == NextVotes(items, NextVotes(items, m, b, f.body, f.atMs), a, e.body, e.atMs)
  {
  }

  /** Two consistent timelines with the same maps, shapes and voted options are the same timeline. */
  lemma DeterminedByMaps(s: State, t: State)
    requires Inv(s) && Inv(t)
    requires s.info == t.info && s.seen == t.seen && s.reactions == t.reactions && s.votes == t.votes
    requires SameShape(s.items, t.items)
    requires forall i :: 0 <= i < |s.items| ==> s.items[i].votes.Keys == t.items[i].votes.Keys
    ensures s == t
  {
    forall i | 0 <= i < |s.items| ensures s.items[i] == t.items[i] {
      var x, y := s.items[i], t.items[i];
      assert x.(reactions := map[], votes := map[]) == y.(reactions := map[], votes := map[]);
      CacheUnique(x.reactions, y.reactions, s.reactions, x.id);
      assert x.votes == y.votes;
    }
  }

  /** Two effects in a row, in terms of the timeline before both. */
  lemma TwoEffects(s: State, a: string, e: Event, b: string, f: Event)
    requires IsCounter(e.body) && IsCounter(f.body)
    ensures var r := Projected(Projected(s, a, e), b, f);
            && SameShape(r.items, s.items)
            && r.info == s.info && r.seen == s.seen
            && r.reactions == NextReactions(s.items, NextReactions(s.items, s.reactions, a, e.body), b, f.body)
            && r.votes == NextVotes(s.items, NextVotes(s.items, s.votes, a, e.body, e.atMs), b, f.body, f.atMs)
            && (forall i :: 0 <= i < |s.items| ==>
                  r.items[i].votes.Keys
                  == NextOptions(s.items, i, e.body, e.atMs) + NextOptions(s.items, i, f.body, f.atMs))
  {
    var s1 := Projected(s, a, e);
    CounterEffect(s, a, e);
    CounterEffect(s1, b, f);
    NextReactionsSameShape(s1.items, s.items, s1.reactions, b, f.body);
    CastSameShape(s1.items, s.items, f.body, f.atMs);
    SameShapeTrans(Projected(s1, b, f).items, s1.items, s.items);
  }

  lemma SameShapeTrans(xs: seq<Item>, ys: seq<Item>, zs: seq<Item>)
    requires SameShape(xs, ys) && SameShape(ys, zs)
    ensures SameShape(xs, zs) && SameShape(zs, xs)
  {
  }

  lemma TwoStepsInv(s: State, a: string, e: Event, b: string, f: Event)
    requires Inv(s) && IsCounter(e.body) && IsCounter(f.body)
    ensures Inv(Projected(Projected(s, a, e), b, f))
  {
    ProjectedInv(s, a, e);
    ProjectedInv(Projected(s, a, e), b, f);
  }

  /** Both orders leave the same maps, shapes and voted options. */
  lemma SameEffects(s: State, a: string, e: Event, b: string, f: Event, x: State, y: State)
    requires a != b && IsCounter(e.body) && IsCounter(f.body)
    requires x == Projected(Projected(s, a, e), b, f) && y == Projected(Projected(s, b, f), a, e)
    ensures x.info == y.info && x.seen == y.seen && x.reactions == y.reactions && x.votes == y.votes
    ensures SameShape(x.items, y.items)
    ensures forall i :: 0 <= i < |x.items| ==> x.items[i].votes.Keys == y.items[i].votes.Keys
  {
    TwoEffects(s, a, e, b, f);
    TwoEffects(s, b, f, a, e);
    NextReactionsCommute(s.items, s.reactions, a, e.body, b, f.body);
    NextVotesCommute(s.items, s.votes, a, e, b, f);
    SameShapeTrans(y.items, s.items, s.items);
    SameShapeTrans(x.items, s.items, y.items);
  }

  lemma ProjectedCommute(s: State, a: string, e: Event, b: string, f: Event)
    requires Inv(s) && a != b && IsCounter(e.body) && IsCounter(f.body)
    ensures Projected(Projected(s, a, e), b, f) == Projected(Projected(s, b, f), a, e)
  {
    var x, y := Projected(Projected(s, a, e), b, f), Projected(Projected(s, b, f), a, e);
    TwoStepsInv(s, a, e, b, f);
    TwoStepsInv(s, b, f, a, e);
    SameEffects(s, a, e, b, f, x, y);
    DeterminedByMaps(x, y);
  }

  lemma ReactedSeen(s: State, author: string, target: string, reaction: string, seen: set<string>)
    ensures Reacted(s.(seen := seen), author, target, reaction) == Reacted(s, author, target, reaction).(seen := seen)
  {
  }

  lemma VotedSeen(s: State, author: string, e: Event, seen: set<string>)
    requires e.body.VoteBody?
    ensures Voted(s.(seen := seen), author, Hex(e.body.pollId), e.body.optionIndexes, e.atMs)
         == Voted(s, author, Hex(e.body.pollId), e.body.optionIndexes, e.atMs).(seen := seen)
  {
  }

  lemma ProjectedSeen(s: State, author: string, e: Event, seen: set<string>)
    requires IsCounter(e.body)
    ensures Projected(s.(seen := seen), author, e) == Projected(s, author, e).(seen := seen)
  {
    if e.body.ReactionBody? {
      ReactedSeen(s, author, Hex(e.body.targetId), e.body.reaction, seen);
    } else {
      VotedSeen(s, author, e, seen);
    }
  }

  /**
    Reactions and votes of different authors commute: in either order the whole timeline is the same,
    cached counters and zero-count options included.
   */
  lemma CountersCommute(grants: Capability -> bool, ds: seq<Delivery>, a: string, e: Event, b: string, f: Event)
    requires a != b && IsCounter(e.body) && IsCounter(f.body)
    requires Valid(grants, e) && Valid(grants, f) && e.eventId != f.eventId
    ensures Folded(grants, EMPTY, ds + [Delivery(a, e)] + [Delivery(b, f)])
         == Folded(grants, EMPTY, ds + [Delivery(b, f)] + [Delivery(a, e)])
  {
    var s := Folded(grants, EMPTY, ds);
    ReachableInv(grants, ds);
    FoldedTwice(grants, ds, Delivery(a, e), Delivery(b, f));
    FoldedTwice(grants, ds, Delivery(b, f), Delivery(a, e));
    if Hex(e.eventId) == Hex(f.eventId) {
      HexInjective(e.eventId, f.eventId);
    }
    AppliedCommute(grants, s, a, e, b, f);
  }

  lemma FoldedTwice(grants: Capability -> bool, ds: seq<Delivery>, d: Delivery, d': Delivery)
    ensures Folded(grants, EMPTY, ds + [d] + [d'])
         == Applied(grants, Applied(grants, Folded(grants, EMPTY, ds), d.author, d.event), d'.author, d'.event)
  {
    assert (ds + [d])[..|ds|] == ds && (ds + [d] + [d'])[..|ds| + 1] == ds + [d];
  }

  lemma AppliedCommute(grants: Capability -> bool, s: State, a: string, e: Event, b: string, f: Event)
    requires Inv(s) && a != b && IsCounter(e.body) && IsCounter(f.body)
    requires Valid(grants, e) && Valid(grants, f) && Hex(e.eventId) != Hex(f.eventId)
    ensures Applied(grants, Applied(grants, s, a, e), b, f) == Applied(grants, Applied(grants, s, b, f), a, e)
  {
    var i, j := Hex(e.eventId), Hex(f.eventId);
    CounterEffect(s.(seen := s.seen + {i}), a, e);
    CounterEffect(s.(seen := s.seen + {j}), b, f);
    if i !in s.seen && j !in s.seen {
      var s1, s2 := s.(seen := s.seen + {i}), s.(seen := s.seen + {j});
      var both := s.(seen := s.seen + {i} + {j});
      assert s.seen + {j} + {i} == s.seen + {i} + {j};
      ProjectedSeen(s1, a, e, both.seen);
      ProjectedSeen(s2, b, f, both.seen);
      SeenInv(s, i);
      SeenInv(s1, j);
      ProjectedCommute(both, a, e, b, f);
    }
  }
}
