/** The rows that an applied event leaves for good, and who may mark a reel deleted (indexer/social.go). */
module SocialRows {
  import opened Prelude
  import opened Canonical
  import opened Payloads
  import opened Social
  import opened SocialTables
  import opened SocialMeaning

  predicate ReplyStored(c: Codec, t: Tables, ev: SocialMessage) {
    var id, ts := Hex(ev.id), Saturated(ev.timestamp);
    match PayloadOf(c, ev)
    case Some(CommentCreate(post, text, parent)) =>
      id in t.comments && t.comments[id] == Comment(Hex(post), ev.author, text, Hex(parent), ts)
    case Some(Repost(post, comment)) =>
      id in t.reposts && t.reposts[id] == RepostRow(Hex(post), ev.author, comment, ts)
    case _ => true
  }

  predicate ChannelStored(c: Codec, t: Tables, ev: SocialMessage) {
    match PayloadOf(c, ev)
    case Some(ChannelCreate(name, description, avatar, open)) =>
      && Hex(ev.id) in t.channels
      && t.channels[Hex(ev.id)] == Channel(ev.author, name, description, Hex(avatar), open, Saturated(ev.timestamp))
    case _ => true
  }

  predicate StoryStored(c: Codec, t: Tables, ev: SocialMessage) {
    match PayloadOf(c, ev)
    case Some(StoryCreate(caption, expiresAt, sensitive)) =>
      && Hex(ev.id) in t.stories
      && t.stories[Hex(ev.id)]
         == Story(ev.author, caption, MediaRows(ev.media), sensitive, Saturated(ev.timestamp), Saturated(expiresAt))
    case _ => true
  }

  /** Everything of a reel but its deletion mark; the media index is in range. */
  predicate ReelStored(c: Codec, t: Tables, ev: SocialMessage) {
    match PayloadOf(c, ev)
    case Some(ReelCreate(caption, hashtags, index, sensitive, minAge, allowComments)) =>
      && Hex(ev.id) in t.reels && index < |ev.media|
      && var row, v := t.reels[Hex(ev.id)], ev.media[index];
      && row.author == ev.author && row.caption == caption && row.hashtags == Tags(c, hashtags)
      && row.videoCid == Hex(v.cid) && row.videoMime == v.mime && row.durationMs == v.durationMs
      && row.thumbnailCid == Hex(v.thumbnailCid) && row.sensitive == sensitive && row.minAge == minAge
      && row.allowComments == allowComments && row.ts == Saturated(ev.timestamp)
    case _ => true
  }

  /** The event's own row, with its decoded payload. */
  predicate EventStored(c: Codec, t: Tables, ev: SocialMessage) {
    match PayloadOf(c, ev)
    case Some(p) =>
      && Hex(ev.id) in t.events
      && var row := t.events[Hex(ev.id)];
      && row.typ == ev.typ && row.author == ev.author && row.devicePubkey == Hex(ev.devicePubkey) && row.payload == p
      && row.ts == Saturated(ev.timestamp) && row.sequence == Saturated(ev.sequence)
      && row.previousEvent == Hex(ev.previousEvent) && row.media == MediaRows(ev.media)
    case None => false
  }

  /** The rows that an event leaves, apart from those of posts, profiles, follows and reactions. */
  predicate RowStored(c: Codec, t: Tables, ev: SocialMessage) {
    && ReplyStored(c, t, ev) && ChannelStored(c, t, ev) && StoryStored(c, t, ev) && ReelStored(c, t, ev)
    && EventStored(c, t, ev)
  }

  /** What no event takes away from the id-keyed tables. */
  predicate RowsKept(t: Tables, t': Tables) {
    && (forall k <- t.comments :: k in t'.comments && t'.comments[k] == t.comments[k])
    && (forall k <- t.reposts :: k in t'.reposts && t'.reposts[k] == t.reposts[k])
    && (forall k <- t.channels :: k in t'.channels && t'.channels[k] == t.channels[k])
    && (forall k <- t.stories :: k in t'.stories && t'.stories[k] == t.stories[k])
  }

  predicate EventsKept(events: map<string, EventRow>, events': map<string, EventRow>) {
    forall k <- events :: k in events' && events'[k] == events[k]
  }

  /** A reel changes in nothing but its deletion mark, and a deleted reel stays deleted. */
  predicate ReelsKept(reels: map<string, Reel>, reels': map<string, Reel>) {
    forall k <- reels :: k in reels' && reels'[k].(deleted := reels[k].deleted) == reels[k]
                         && (reels[k].deleted ==> reels'[k].deleted)
  }

  lemma ProjectedRowsKept(c: Codec, t: Tables, ev: SocialMessage, p: Payload)
    requires Projected(c, t, ev, p).Some?
    ensures RowsKept(t, Projected(c, t, ev, p).value)
  {
  }

  lemma OtherReels(c: Codec, t: Tables, ev: SocialMessage, p: Payload)
    requires Projected(c, t, ev, p).Some? && !p.ReelCreate? && !p.PostDelete?
    ensures Projected(c, t, ev, p).value.reels == t.reels
  {
  }

  lemma RemovalKeepsReels(reels: map<string, Reel>, at: string, author: Bytes)
    ensures ReelsKept(reels, RemovedReel(reels, at, author))
  {
  }

  lemma ProjectedReelsKept(c: Codec, t: Tables, ev: SocialMessage, p: Payload)
    requires Projected(c, t, ev, p).Some?
    ensures ReelsKept(t.reels, Projected(c, t, ev, p).value.reels)
  {
    match p
    case ReelCreate(_, _, _, _, _, _) =>
    case PostDelete(post) => RemovalKeepsReels(t.reels, Hex(post), ev.author);
    case _ => OtherReels(c, t, ev, p);
  }

  lemma ProjectedReplyStored(c: Codec, t: Tables, ev: SocialMessage, p: Payload)
    requires Projected(c, t, ev, p).Some? && PayloadOf(c, ev) == Some(p)
    requires Hex(ev.id) !in t.comments && Hex(ev.id) !in t.reposts
    ensures ReplyStored(c, Projected(c, t, ev, p).value, ev)
  {
    match p
    case CommentCreate(_, _, _) =>
    case Repost(_, _) =>
    case _ =>
  }

  lemma InsertedNew<K, V>(m: map<K, V>, k: K, v: V)
    requires k !in m
    ensures k in Inserted(m, k, v) && Inserted(m, k, v)[k] == v
  {
  }

  function ChannelOf(ev: SocialMessage, p: Payload): (row: Channel)
    requires p.ChannelCreate?
  {
    Channel(ev.author, p.name, p.description, Hex(p.avatarCid), p.openPosting, Saturated(ev.timestamp))
  }

  lemma ChannelInserted(c: Codec, t: Tables, ev: SocialMessage, p: Payload)
    requires p.ChannelCreate?
    ensures var r := Projected(c, t, ev, p);
            r.Some? && r.value.channels == Inserted(t.channels, Hex(ev.id), ChannelOf(ev, p))
  {
  }

  lemma ProjectedChannelStored(c: Codec, t: Tables, ev: SocialMessage, p: Payload)
    requires Projected(c, t, ev, p).Some? && PayloadOf(c, ev) == Some(p) && Hex(ev.id) !in t.channels
    ensures ChannelStored(c, Projected(c, t, ev, p).value, ev)
  {
    if p.ChannelCreate? {
      ChannelInserted(c, t, ev, p);
      InsertedNew(t.channels, Hex(ev.id), ChannelOf(ev, p));
    }
  }

  function StoryOf(ev: SocialMessage, p: Payload): (row: Story)
    requires p.StoryCreate?
  {
    Story(ev.author, p.caption, MediaRows(ev.media), p.sensitive, Saturated(ev.timestamp), Saturated(p.expiresAt))
  }

  lemma StoryInserted(c: Codec, t: Tables, ev: SocialMessage, p: Payload)
    requires p.StoryCreate?
    ensures var r := Projected(c, t, ev, p); r.Some? && r.value.stories == Inserted(t.stories, Hex(ev.id), StoryOf(ev, p))
  {
  }

  lemma ProjectedStoryStored(c: Codec, t: Tables, ev: SocialMessage, p: Payload)
    requires Projected(c, t, ev, p).Some? && PayloadOf(c, ev) == Some(p) && Hex(ev.id) !in t.stories
    ensures StoryStored(c, Projected(c, t, ev, p).value, ev)
  {
    if p.StoryCreate? {
      StoryInserted(c, t, ev, p);
      InsertedNew(t.stories, Hex(ev.id), StoryOf(ev, p));
    }
  }

  lemma ProjectedReelStored(c: Codec, t: Tables, ev: SocialMessage, p: Payload)
    requires Projected(c, t, ev, p).Some? && PayloadOf(c, ev) == Some(p) && Hex(ev.id) !in t.reels
    ensures ReelStored(c, Projected(c, t, ev, p).value, ev)
  {
  }

  lemma RowStoredKept(c: Codec, t: Tables, t': Tables, ev: SocialMessage)
    requires RowStored(c, t, ev) && RowsKept(t, t') && ReelsKept(t.reels, t'.reels) && EventsKept(t.events, t'.events)
    ensures RowStored(c, t', ev)
  {
  }

  lemma RecordedRows(c: Codec, t: Tables, ev: SocialMessage)
    requires Recorded(c, t, ev).Some?
    ensures var t' := Recorded(c, t, ev).value;
            && RowsKept(t, t') && ReelsKept(t.reels, t'.reels)
            && (Hex(ev.id) !in t.events ==> EventsKept(t.events, t'.events))
            && (IdsCovered(t) && Hex(ev.id) !in t.events ==> RowStored(c, t', ev))
  {
    var p := PayloadOf(c, ev).value;
    var t0 := t.(events := t.events[Hex(ev.id) := RowOf(ev, p)]);
    ProjectedRowsKept(c, t0, ev, p);
    ProjectedReelsKept(c, t0, ev, p);
    ProjectedEvents(c, t0, ev, p);
    if IdsCovered(t) && Hex(ev.id) !in t.events {
      ProjectedReplyStored(c, t0, ev, p);
      ProjectedChannelStored(c, t0, ev, p);
      ProjectedStoryStored(c, t0, ev, p);
      ProjectedReelStored(c, t0, ev, p);
    }
  }

  lemma NextRows(c: Codec, t: Tables, ev: SocialMessage)
    ensures RowsKept(t, Next(c, t, ev)) && ReelsKept(t.reels, Next(c, t, ev).reels)
    ensures EventsKept(t.events, Next(c, t, ev).events)
  {
    if Recorded(c, t, ev).Some? {
      RecordedRows(c, t, ev);
    }
  }

  lemma NewRow(c: Codec, ds: seq<SocialMessage>, ev: SocialMessage)
    requires Acceptable(c, ev) && forall x <- FirstApplied(c, ds) :: x.id != ev.id
    ensures RowStored(c, Next(c, Delivered(c, EMPTY, ds), ev), ev)
  {
    ExactlyOnce(c, ds);
    BuiltCovered(c, FirstApplied(c, ds));
    var t := Delivered(c, EMPTY, ds);
    RecordedEvents(c, t, ev);
    RecordedRows(c, t, ev);
  }

  /** Once applied, an event's row stays, whatever else is delivered. */
  lemma {:induction false} AppliedRowsStay(c: Codec, ds: seq<SocialMessage>, e: SocialMessage)
    requires e in FirstApplied(c, ds)
    ensures RowStored(c, Delivered(c, EMPTY, ds), e)
    decreases |ds|
  {
    var init, ev := ds[..|ds| - 1], ds[|ds| - 1];
    var t := Delivered(c, EMPTY, init);
    assert Delivered(c, EMPTY, ds) == Next(c, t, ev);
    if e in FirstApplied(c, init) {
      AppliedRowsStay(c, init, e);
      NextRows(c, t, ev);
      RowStoredKept(c, t, Next(c, t, ev), e);
    } else {
      NewRow(c, init, ev);
    }
  }

  /// Reels

  function ReelMark(reels: map<string, Reel>, k: string): (m: Option<Mark>) {
    if k in reels then Some(Mark(reels[k].author, reels[k].deleted)) else None
  }

  lemma RemovalMarks(c: Codec, reels: map<string, Reel>, ev: SocialMessage, post: Bytes, k: string)
    requires PayloadOf(c, ev) == Some(PostDelete(post))
    ensures MarkStep(c, ReelMark(reels, k), ev, ReelMark(RemovedReel(reels, Hex(post), ev.author), k), k)
  {
  }

  lemma InsertionMarks(c: Codec, reels: map<string, Reel>, ev: SocialMessage, at: string, reel: Reel, k: string)
    requires !reel.deleted && PayloadOf(c, ev).Some? && !PayloadOf(c, ev).value.PostDelete?
    ensures MarkStep(c, ReelMark(reels, k), ev, ReelMark(Inserted(reels, at, reel), k), k)
  {
  }

  lemma NoMark(c: Codec, reels: map<string, Reel>, ev: SocialMessage, k: string)
    requires PayloadOf(c, ev).Some? && !PayloadOf(c, ev).value.PostDelete?
    ensures MarkStep(c, ReelMark(reels, k), ev, ReelMark(reels, k), k)
  {
  }

  /** A reel's creation inserts one unmarked row. */
  lemma ReelInserted(c: Codec, t: Tables, ev: SocialMessage, p: Payload) returns (reel: Reel)
    requires Projected(c, t, ev, p).Some? && p.ReelCreate?
    ensures Projected(c, t, ev, p).value.reels == Inserted(t.reels, Hex(ev.id), reel) && !reel.deleted
  {
    var v := ev.media[p.videoIndex];
    reel := Reel(ev.author, p.caption, Tags(c, p.hashtags), Hex(v.cid), v.mime, v.durationMs, Hex(v.thumbnailCid),
                 p.sensitive, p.minAge, p.allowComments, Saturated(ev.timestamp), false);
  }

  lemma ProjectedReelMark(c: Codec, t: Tables, ev: SocialMessage, p: Payload, k: string)
    requires Projected(c, t, ev, p).Some? && PayloadOf(c, ev) == Some(p)
    ensures MarkStep(c, ReelMark(t.reels, k), ev, ReelMark(Projected(c, t, ev, p).value.reels, k), k)
  {
    match p
    case ReelCreate(_, _, _, _, _, _) =>
      var reel := ReelInserted(c, t, ev, p);
      InsertionMarks(c, t.reels, ev, Hex(ev.id), reel, k);
    case PostDelete(post) => RemovalMarks(c, t.reels, ev, post, k);
    case _ =>
      OtherReels(c, t, ev, p);
      NoMark(c, t.reels, ev, k);
  }

  lemma BuiltReelMark(c: Codec, es: seq<SocialMessage>, k: string)
    requires es != []
    ensures MarkStep(c, ReelMark(Built(c, es[..|es| - 1]).reels, k), es[|es| - 1], ReelMark(Built(c, es).reels, k), k)
  {
    var init, ev := es[..|es| - 1], es[|es| - 1];
    var t := Built(c, init);
    RecordedEvents(c, t, ev);
    if Recorded(c, t, ev).Some? {
      var p := PayloadOf(c, ev).value;
      ProjectedReelMark(c, t.(events := t.events[Hex(ev.id) := RowOf(ev, p)]), ev, p, k);
    }
  }

  /** The reels table before each event, and after the last. */
  function ReelsAlong(c: Codec, es: seq<SocialMessage>): (all: seq<map<string, Reel>>)
    ensures |all| == |es| + 1
  {
    seq(|es| + 1, n requires 0 <= n <= |es| => Built(c, es[..n]).reels)
  }

  lemma ReelMarkAlong(c: Codec, es: seq<SocialMessage>, k: string, n: nat)
    requires n < |es|
    ensures MarkStep(c, ReelMark(ReelsAlong(c, es)[n], k), es[n], ReelMark(ReelsAlong(c, es)[n + 1], k), k)
  {
    BuiltReelMark(c, es[..n + 1], k);
    assert es[..n + 1][..n] == es[..n];
  }

  /** A reel is marked deleted exactly when its author deleted it after it was there. */
  lemma ReelDeletedIff(c: Codec, es: seq<SocialMessage>, k: string)
    requires k in Built(c, es).reels
    ensures var reel, all := Built(c, es).reels[k], ReelsAlong(c, es);
            reel.deleted <==> exists n :: 0 <= n < |es| && k in all[n] && Deletes(c, es[n], k, reel.author)
  {
    var all := ReelsAlong(c, es);
    var marks := seq(|es| + 1, n requires 0 <= n <= |es| => ReelMark(all[n], k));
    forall n | 0 <= n < |es| ensures MarkStep(c, marks[n], es[n], marks[n + 1], k) {
      ReelMarkAlong(c, es, k, n);
    }
    assert es[..|es|] == es;
    MarkedIff(c, es, marks, k);
    assert forall n :: 0 <= n < |es| ==> (marks[n].Some? <==> k in all[n]);
  }

  lemma NextReel(c: Codec, t: Tables, ev: SocialMessage, k: string)
    requires k in t.reels
    ensures var reels' := Next(c, t, ev).reels;
            && k in reels' && reels'[k].author == t.reels[k].author
            && (t.reels[k].author != ev.author ==> reels'[k] == t.reels[k])
  {
    NextRows(c, t, ev);
    if PayloadOf(c, ev).Some? {
      var p := PayloadOf(c, ev).value;
      var t0 := t.(events := t.events[Hex(ev.id) := RowOf(ev, p)]);
      if Projected(c, t0, ev, p).Some? {
        ProjectedReelMark(c, t0, ev, p, k);
      }
    }
    assert Next(c, t, ev).reels[k].(deleted := t.reels[k].deleted) == t.reels[k];
  }

  /** No delivery removes a reel or revives a deleted one, and events of other authors leave its row as it was. */
  lemma {:induction false} ReelsOnlyByAuthor(c: Codec, t: Tables, ds: seq<SocialMessage>, k: string)
    requires k in t.reels
    ensures var t' := Delivered(c, t, ds);
            && k in t'.reels && t'.reels[k].(deleted := t.reels[k].deleted) == t.reels[k]
            && (t.reels[k].deleted ==> t'.reels[k].deleted)
            && ((forall d <- ds :: d.author != t.reels[k].author) ==> t'.reels[k] == t.reels[k])
    decreases |ds|
  {
    if ds != [] {
      var init, ev := ds[..|ds| - 1], ds[|ds| - 1];
      assert ds == init + [ev];
      ReelsOnlyByAuthor(c, t, init, k);
      NextRows(c, Delivered(c, t, init), ev);
      NextReel(c, Delivered(c, t, init), ev, k);
    }
  }

  /// Posts

  /** The row of a creation event, with everything that no later event changes. */
  predicate PostStored(c: Codec, posts: map<string, Post>, ev: SocialMessage) {
    match PayloadOf(c, ev)
    case Some(PostCreate(_, _, _, _, _, _, _)) => Hex(ev.id) in posts && CreatedBy(c, posts[Hex(ev.id)], ev)
    case _ => true
  }

  lemma PostStoredKept(c: Codec, posts: map<string, Post>, posts': map<string, Post>, ev: SocialMessage, author: Bytes)
    requires PostStored(c, posts, ev) && RowKept(posts, posts', Hex(ev.id), author)
    ensures PostStored(c, posts', ev)
  {
  }

  lemma PostInserted(c: Codec, t: Tables, ev: SocialMessage, p: Payload)
    requires PayloadOf(c, ev) == Some(p) && p.PostCreate?
    ensures Projected(c, t, ev, p).Some? && Hex(ev.id) in Projected(c, t, ev, p).value.posts
  {
  }

  lemma RecordedPostStored(c: Codec, t: Tables, ev: SocialMessage)
    requires Recorded(c, t, ev).Some? && Hex(ev.id) !in t.posts
    ensures PostStored(c, Recorded(c, t, ev).value.posts, ev)
  {
    var p := PayloadOf(c, ev).value;
    if p.PostCreate? {
      PostInserted(c, t.(events := t.events[Hex(ev.id) := RowOf(ev, p)]), ev, p);
      RecordedPosts(c, t, ev, Hex(ev.id));
    }
  }

  lemma NewPostStored(c: Codec, ds: seq<SocialMessage>, ev: SocialMessage)
    requires Acceptable(c, ev) && forall x <- FirstApplied(c, ds) :: x.id != ev.id
    ensures PostStored(c, Next(c, Delivered(c, EMPTY, ds), ev).posts, ev)
  {
    ExactlyOnce(c, ds);
    BuiltCovered(c, FirstApplied(c, ds));
    var t := Delivered(c, EMPTY, ds);
    RecordedEvents(c, t, ev);
    RecordedPostStored(c, t, ev);
  }

  lemma NextPost(c: Codec, t: Tables, ev: SocialMessage, k: string)
    ensures RowKept(t.posts, Next(c, t, ev).posts, k, ev.author)
  {
    if Recorded(c, t, ev).Some? {
      RecordedPosts(c, t, ev, k);
    }
  }

  /** Once a post's creation has been applied, the post is there, and keeps what the creation fixed. */
  lemma {:induction false} AppliedPostsStay(c: Codec, ds: seq<SocialMessage>, e: SocialMessage)
    requires e in FirstApplied(c, ds)
    ensures PostStored(c, Delivered(c, EMPTY, ds).posts, e)
    decreases |ds|
  {
    var init, ev := ds[..|ds| - 1], ds[|ds| - 1];
    var t := Delivered(c, EMPTY, init);
    assert Delivered(c, EMPTY, ds) == Next(c, t, ev);
    if e in FirstApplied(c, init) {
      AppliedPostsStay(c, init, e);
      NextPost(c, t, ev, Hex(e.id));
      PostStoredKept(c, t.posts, Next(c, t, ev).posts, e, ev.author);
    } else {
      NewPostStored(c, init, ev);
    }
  }
}
