/**
  What one delivery does to a reachable timeline, field by field (apply in
  node/hashgram-app/src/circle.rs), and which events are valid, in plain numbers.
 */
module CircleMeaning {
  import opened Prelude
  import opened Circle
  import opened CircleCounters
  import opened CircleInvariant

  /// Validity

  /** Text of at most `max` bytes without a zero byte. */
  predicate Plain(s: string, max: nat) {
    |s| <= max && forall i :: 0 <= i < |s| ==> s[i] != '\0'
  }

  lemma PlainIs(s: string, max: nat)
    ensures BoundedText(s, max) <==> Plain(s, max)
  {
    if '\0' in s {
      var i :| 0 <= i < |s| && s[i] == '\0';
    }
  }

  /** Every valid event is of version 1 and carries a 16-byte id. */
  lemma ValidHeader(grants: Capability -> bool, e: Event)
    requires Valid(grants, e)
    ensures e.version == 1 && |e.eventId| == 16 && !e.body.UnknownBody?
  {
  }

  /** A post says something, within its bounds, and its poll has 2 to 12 non-empty options. */
  lemma ValidPost(grants: Capability -> bool, e: Event)
    requires e.version == 1 && |e.eventId| == 16 && e.body.PostBody?
    ensures var b := e.body;
            Valid(grants, e) <==>
              && Plain(b.text, 65536) && |b.media| <= 20
              && (forall i :: 0 <= i < |b.driveRefs| ==> grants(b.driveRefs[i]))
              && (b.text != "" || b.media != [] || b.driveRefs != [] || b.poll.Some?)
              && (b.poll.Some? ==>
                    var poll := b.poll.value;
                    && poll.question != "" && Plain(poll.question, 512) && 2 <= |poll.options| <= 12
                    && forall i :: 0 <= i < |poll.options| ==> poll.options[i] != "" && Plain(poll.options[i], 128))
  {
    PlainIs(e.body.text, 65536);
    assert (forall c <- e.body.driveRefs :: grants(c))
      <==> forall i :: 0 <= i < |e.body.driveRefs| ==> grants(e.body.driveRefs[i]);
    if e.body.poll.Some? {
      ValidPollIs(e.body.poll.value);
    }
  }

  lemma ValidPollIs(poll: Poll)
    ensures ValidPoll(poll) <==>
              && poll.question != "" && Plain(poll.question, 512) && 2 <= |poll.options| <= 12
              && forall i :: 0 <= i < |poll.options| ==> poll.options[i] != "" && Plain(poll.options[i], 128)
  {
    PlainIs(poll.question, 512);
    forall i | 0 <= i < |poll.options|
      ensures FilledText(poll.options[i], 128) <==> poll.options[i] != "" && Plain(poll.options[i], 128)
    {
      PlainIs(poll.options[i], 128);
    }
    assert (forall o <- poll.options :: FilledText(o, 128))
      <==> forall i :: 0 <= i < |poll.options| ==> FilledText(poll.options[i], 128);
  }

  /** The bounds of the other kinds of event. */
  lemma ValidOthers(grants: Capability -> bool, e: Event)
    requires e.version == 1 && |e.eventId| == 16
    ensures match e.body
            case InfoBody(i) => Valid(grants, e) <==> Plain(i.name, 128) && Plain(i.description, 4096)
            case CommentBody(post, reply, text) =>
              Valid(grants, e) <==> |post| == 16 && (reply == [] || |reply| == 16) && text != "" && Plain(text, 65536)
            case ReactionBody(target, reaction) => Valid(grants, e) <==> |target| == 16 && Plain(reaction, 32)
            case VoteBody(post, options) => Valid(grants, e) <==> |post| == 16 && |options| <= 12
            case DeleteBody(target) => Valid(grants, e) <==> |target| == 16
            case UnknownBody => !Valid(grants, e)
            case _ => true
  {
    match e.body
    case InfoBody(i) =>
      PlainIs(i.name, 128);
      PlainIs(i.description, 4096);
    case CommentBody(_, _, text) => PlainIs(text, 65536);
    case ReactionBody(_, reaction) => PlainIs(reaction, 32);
    case _ =>
  }

  /// Votes

  /** A vote stamped after the poll closed changes nothing but the delivery record. */
  lemma LateVoteIgnored(grants: Capability -> bool, ds: seq<Delivery>, author: string, e: Event, i: nat)
    requires Valid(grants, e) && e.body.VoteBody? && i < |Folded(grants, EMPTY, ds).items|
    requires var item := Folded(grants, EMPTY, ds).items[i];
             && item.id == Hex(e.body.pollId) && item.poll.Some?
             && item.poll.value.closesAtMs != 0 && e.atMs > item.poll.value.closesAtMs
    ensures var s := Folded(grants, EMPTY, ds);
            Applied(grants, s, author, e) == s.(seen := s.seen + {Hex(e.eventId)})
  {
    ReachableInv(grants, ds);
    var s := Folded(grants, EMPTY, ds);
    var s' := s.(seen := s.seen + {Hex(e.eventId)});
    ClosedPollKept(s', author, Hex(e.body.pollId), e.body.optionIndexes, e.atMs, i);
    assert Hex(e.eventId) in s.seen ==> s' == s;
  }

  /** The ballot that a poll takes from the options asked for: those in range, or the smallest of them. */
  predicate IsBallot(ballot: seq<nat>, asked: seq<nat>, poll: Poll) {
    && (forall i, j :: 0 <= i < j < |ballot| ==> ballot[i] < ballot[j])
    && (forall o <- ballot :: o in asked && o < |poll.options|)
    && (if poll.multipleChoice then forall o <- asked :: o < |poll.options| ==> o in ballot
        else |ballot| <= 1 && forall o <- asked :: o < |poll.options| ==> |ballot| == 1 && ballot[0] <= o)
  }

  lemma BallotIs(asked: seq<nat>, poll: Poll)
    ensures IsBallot(Ballot(asked, poll), asked, poll)
  {
    var s := Ascending(asked, |poll.options|);
    AscendingOk(asked, |poll.options|);
    assert forall i :: 0 <= i < |s| ==> s[i] in s;
  }

  /** A vote on an open poll stores its author's ballot, and no other ballot, reaction or profile of the circle changes. */
  lemma VoteStored(grants: Capability -> bool, ds: seq<Delivery>, author: string, e: Event, i: nat)
    requires Valid(grants, e) && e.body.VoteBody? && i < |Folded(grants, EMPTY, ds).items|
    requires Hex(e.eventId) !in Folded(grants, EMPTY, ds).seen
    requires var item := Folded(grants, EMPTY, ds).items[i];
             && item.id == Hex(e.body.pollId) && item.kind.PostItem? && item.poll.Some?
             && (item.poll.value.closesAtMs == 0 || e.atMs <= item.poll.value.closesAtMs)
    ensures var s, key := Folded(grants, EMPTY, ds), (Hex(e.body.pollId), author);
            var s' := Applied(grants, s, author, e);
            && key in s'.votes && IsBallot(s'.votes[key], e.body.optionIndexes, s.items[i].poll.value)
            && s'.votes - {key} == s.votes - {key} && s'.reactions == s.reactions && s'.info == s.info
            && s'.items == s.items[i := s.items[i].(votes := s'.items[i].votes)]
  {
    ReachableInv(grants, ds);
    var s := Folded(grants, EMPTY, ds);
    VoteCast(s.(seen := s.seen + {Hex(e.eventId)}), author, Hex(e.body.pollId), e.body.optionIndexes, e.atMs, i);
  }

  lemma VoteCast(s: State, author: string, post: string, asked: seq<nat>, atMs: nat, i: nat)
    requires forall a, b :: 0 <= a < b < |s.items| ==> s.items[a].id != s.items[b].id
    requires i < |s.items| && s.items[i].id == post && s.items[i].kind.PostItem? && s.items[i].poll.Some?
    requires s.items[i].poll.value.closesAtMs == 0 || atMs <= s.items[i].poll.value.closesAtMs
    ensures var s' := Voted(s, author, post, asked, atMs);
            && (post, author) in s'.votes && IsBallot(s'.votes[(post, author)], asked, s.items[i].poll.value)
            && s'.votes - {(post, author)} == s.votes - {(post, author)} && s'.reactions == s.reactions && s'.info == s.info
            && s'.items == s.items[i := s.items[i].(votes := s'.items[i].votes)]
  {
    var j := IndexOf(s.items, post, true);
    assert j == i;
    BallotIs(asked, s.items[i].poll.value);
  }

  /** A vote on anything but a post with a poll changes nothing but the delivery record. */
  lemma StrayVoteIgnored(grants: Capability -> bool, s: State, author: string, e: Event)
    requires Valid(grants, e) && e.body.VoteBody?
    requires forall i :: 0 <= i < |s.items| && s.items[i].kind.PostItem? && s.items[i].poll.Some? ==>
                           s.items[i].id != Hex(e.body.pollId)
    ensures Applied(grants, s, author, e) == s.(seen := s.seen + {Hex(e.eventId)})
  {
    assert Hex(e.eventId) in s.seen ==> s.seen + {Hex(e.eventId)} == s.seen;
  }

  /// Reactions

  /** Only the reaction counts of the target can differ. */
  predicate CountsMoved(x: Item, y: Item, target: string) {
    y == x || (x.id == target && y == x.(reactions := y.reactions))
  }

  /** After a reaction its author stands behind exactly that string, or behind none when it is empty or the item gone. */
  lemma ReactionStored(grants: Capability -> bool, ds: seq<Delivery>, author: string, e: Event)
    requires Valid(grants, e) && e.body.ReactionBody? && Hex(e.eventId) !in Folded(grants, EMPTY, ds).seen
    ensures var s, key := Folded(grants, EMPTY, ds), (Hex(e.body.targetId), author);
            var s' := Applied(grants, s, author, e);
            var held := exists i :: 0 <= i < |s.items| && s.items[i].id == Hex(e.body.targetId);
            && (key in s'.reactions <==> held && e.body.reaction != "")
            && (key in s'.reactions ==> s'.reactions[key] == e.body.reaction)
            && s'.reactions - {key} == s.reactions - {key} && s'.votes == s.votes && s'.info == s.info
            && |s'.items| == |s.items| && forall j :: 0 <= j < |s.items| ==> CountsMoved(s.items[j], s'.items[j], key.0)
  {
    var s := Folded(grants, EMPTY, ds);
    ReactionCast(s.(seen := s.seen + {Hex(e.eventId)}), author, Hex(e.body.targetId), e.body.reaction);
  }

  lemma ReactionCast(s: State, author: string, target: string, reaction: string)
    ensures var s', key := Reacted(s, author, target, reaction), (target, author);
            var held := exists i :: 0 <= i < |s.items| && s.items[i].id == target;
            && (key in s'.reactions <==> held && reaction != "")
            && (key in s'.reactions ==> s'.reactions[key] == reaction)
            && s'.reactions - {key} == s.reactions - {key} && s'.votes == s.votes && s'.info == s.info
            && |s'.items| == |s.items| && forall j :: 0 <= j < |s.items| ==> CountsMoved(s.items[j], s'.items[j], target)
  {
    var i := IndexOf(s.items, target, false);
    assert i < |s.items| ==> s.items[i].id == target;
  }

  /// Items

  /** A post or a comment becomes the newest item, with what the event says and nothing counted yet. */
  lemma ItemPushed(grants: Capability -> bool, ds: seq<Delivery>, author: string, e: Event)
    requires Valid(grants, e) && (e.body.PostBody? || e.body.CommentBody?)
    requires Hex(e.eventId) !in Folded(grants, EMPTY, ds).seen
    ensures var s := Folded(grants, EMPTY, ds);
            var s' := Applied(grants, s, author, e);
            && s'.items != [] && s'.reactions == s.reactions && s'.votes == s.votes && s'.info == s.info
            && var item := s'.items[|s'.items| - 1];
            && item.id == Hex(e.eventId) && item.author == author && item.atMs == e.atMs
            && item.reactions == map[] && item.votes == map[] && !item.deleted
            && match e.body
               case PostBody(text, media, refs, poll) =>
                 && item.kind == PostItem && item.text == text && item.media == media && item.driveRefs == refs
                 && item.poll == poll && item.postId == "" && item.replyTo == ""
               case CommentBody(post, reply, text) =>
                 && item.kind == CommentItem && item.text == text && item.postId == Hex(post)
                 && item.replyTo == Hex(reply) && item.media == [] && item.driveRefs == [] && item.poll == None
               case _ => true
  {
    var s := Folded(grants, EMPTY, ds);
    var item := if e.body.PostBody? then NewPost(e, author) else NewComment(e, author);
    LastPushed(s.items, item);
  }

  lemma LastPushed(items: seq<Item>, item: Item)
    ensures Pushed(items, item) != [] && Pushed(items, item)[|Pushed(items, item)| - 1] == item
  {
  }

  /** A deletion blanks the items of that id whose author it is; everything else stays as it was. */
  lemma DeletionBlanks(grants: Capability -> bool, ds: seq<Delivery>, author: string, e: Event, j: nat)
    requires Valid(grants, e) && e.body.DeleteBody? && j < |Folded(grants, EMPTY, ds).items|
    requires Hex(e.eventId) !in Folded(grants, EMPTY, ds).seen
    ensures var s := Folded(grants, EMPTY, ds);
            var s' := Applied(grants, s, author, e);
            && |s'.items| == |s.items| && s'.reactions == s.reactions && s'.votes == s.votes && s'.info == s.info
            && var before, after := s.items[j], s'.items[j];
            if before.id == Hex(e.body.deletedId) && before.author == author then
              && after.deleted && after.text == "" && after.media == [] && after.driveRefs == []
              && after.(deleted := before.deleted, text := before.text, media := before.media,
                        driveRefs := before.driveRefs) == before
            else after == before
  {
    ReachableInv(grants, ds);
    var s := Folded(grants, EMPTY, ds);
    DeletionCast(s.(seen := s.seen + {Hex(e.eventId)}), author, Hex(e.body.deletedId), j);
  }

  lemma DeletionCast(s: State, author: string, target: string, j: nat)
    requires j < |s.items|
    requires forall a, b :: 0 <= a < b < |s.items| ==> s.items[a].id != s.items[b].id
    ensures var s' := Deleted(s, author, target);
            && |s'.items| == |s.items| && s'.reactions == s.reactions && s'.votes == s.votes && s'.info == s.info
            && var before, after := s.items[j], s'.items[j];
            if before.id == target && before.author == author then
              && after.deleted && after.text == "" && after.media == [] && after.driveRefs == []
              && after.(deleted := before.deleted, text := before.text, media := before.media,
                        driveRefs := before.driveRefs) == before
            else after == before
  {
    var i := IndexOf(s.items, target, false);
    assert s.items[j].id == target ==> i == j;
  }

  /** Circle information is replaced as a whole. */
  lemma InfoReplaced(grants: Capability -> bool, ds: seq<Delivery>, author: string, e: Event)
    requires Valid(grants, e) && e.body.InfoBody? && Hex(e.eventId) !in Folded(grants, EMPTY, ds).seen
    ensures var s := Folded(grants, EMPTY, ds);
            Applied(grants, s, author, e) == s.(info := e.body.info, seen := s.seen + {Hex(e.eventId)})
  {
    assert Valid(grants, e);
  }
}
