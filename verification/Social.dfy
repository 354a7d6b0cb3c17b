/**
  The social projection (indexer/social.go): one verified event becomes rows of the derived tables,
  keyed by event id, so that at-least-once delivery has the effect of exactly-once delivery.
 */
module Social {
  import opened Prelude
  import opened Canonical
  import opened Payloads
  import opened Registers

  const MAX_INT64: u64 := 0x7fff_ffff_ffff_ffff

  /** The largest value an SQL `int` column holds. */
  const MAX_INT4: u32 := 0x7fff_ffff

  /** A `uint64` as a signed column value: saturated, never wrapped. */
  function Saturated(u: u64): (v: i64)
    ensures v == u || (u > MAX_INT64 && v == MAX_INT64)
  {
    if u > MAX_INT64 then MAX_INT64 else u
  }

  datatype Payload =
    | ProfileUpdate(displayName: Bytes, bio: Bytes, avatarCid: Bytes, bannerCid: Bytes, website: Bytes,
                    attributes: map<Bytes, Bytes>)
    | Follow(target: Bytes)
    | Unfollow(target: Bytes)
    | PostCreate(text: Bytes, hashtags: seq<Bytes>, mentions: seq<Bytes>, channel: Bytes, replyTo: Bytes,
                 sensitive: bool, language: Bytes)
    | PostEdit(post: Bytes, text: Bytes, hashtags: seq<Bytes>)
    | PostDelete(post: Bytes)
    | CommentCreate(post: Bytes, text: Bytes, parentComment: Bytes)
    | Reaction(target: Bytes, reaction: Bytes)
    | Repost(post: Bytes, comment: Bytes)
    | ChannelCreate(name: Bytes, description: Bytes, avatarCid: Bytes, openPosting: bool)
    | ReelCreate(caption: Bytes, hashtags: seq<Bytes>, videoIndex: u32, sensitive: bool, minAge: u32, allowComments: bool)
    | StoryCreate(caption: Bytes, expiresAt: u64, sensitive: bool)

  /** What the projection takes from outside: the payload decoder and the lower-casing of hashtags. */
  datatype Codec = Codec(decode: (Bytes, Bytes) -> Option<Payload>, toLower: Bytes -> Bytes)

  /// Rows

  /** A media reference as the API renders it; the content hash is not kept. */
  datatype MediaRow = MediaRow(cid: string, mime: Bytes, size: u64, kind: Bytes, width: u32, height: u32, durationMs: u32,
                               thumbnailCid: string)

  datatype EventRow = EventRow(typ: Bytes, author: Bytes, devicePubkey: string, ts: i64, sequence: i64,
                               previousEvent: string, payload: Payload, media: seq<MediaRow>)
  datatype Profile = Profile(displayName: Bytes, bio: Bytes, avatarCid: string, bannerCid: string, website: Bytes,
                             attributes: map<Bytes, Bytes>)
  datatype Post = Post(author: Bytes, text: Bytes, hashtags: seq<Bytes>, mentions: seq<Bytes>, channel: string,
                       replyTo: string, sensitive: bool, language: Bytes, media: seq<MediaRow>, ts: i64,
                       editedTs: Option<i64>, deleted: bool)
  datatype Comment = Comment(post: string, author: Bytes, text: Bytes, parent: string, ts: i64)
  datatype ReactionRow = ReactionRow(reaction: Bytes, ts: i64)
  datatype RepostRow = RepostRow(post: string, author: Bytes, comment: Bytes, ts: i64)
  datatype Channel = Channel(creator: Bytes, name: Bytes, description: Bytes, avatarCid: string, openPosting: bool, ts: i64)
  datatype Reel = Reel(author: Bytes, caption: Bytes, hashtags: seq<Bytes>, videoCid: string, videoMime: Bytes,
                       durationMs: u32, thumbnailCid: string, sensitive: bool, minAge: u32, allowComments: bool, ts: i64,
                       deleted: bool)
  datatype Story = Story(author: Bytes, caption: Bytes, media: seq<MediaRow>, sensitive: bool, ts: i64, expiresAt: i64)

  datatype Tables = Tables(events: map<string, EventRow>, profiles: map<Bytes, Cell<Profile>>,
                           follows: map<(Bytes, Bytes), i64>, posts: map<string, Post>, comments: map<string, Comment>,
                           reactions: map<(Bytes, string), ReactionRow>, reposts: map<string, RepostRow>,
                           channels: map<string, Channel>, reels: map<string, Reel>, stories: map<string, Story>)

  const EMPTY := Tables(map[], map[], map[], map[], map[], map[], map[], map[], map[], map[])

  function MediaRows(ms: seq<Media>): (rows: seq<MediaRow>)
    ensures |rows| == |ms|
  {
    seq(|ms|, i requires 0 <= i < |ms| =>
      MediaRow(Hex(ms[i].cid), ms[i].mime, ms[i].size, ms[i].kind, ms[i].width, ms[i].height, ms[i].durationMs,
               Hex(ms[i].thumbnailCid)))
  }

  /** A hashtag without its leading '#', in lower case. */
  function Tag(c: Codec, x: Bytes): (t: Bytes) {
    c.toLower(if x != [] && x[0] == 0x23 then x[1..] else x)
  }

  function Tags(c: Codec, xs: seq<Bytes>): (ts: seq<Bytes>)
    ensures |ts| == |xs|
  {
    seq(|xs|, i requires 0 <= i < |xs| => Tag(c, xs[i]))
  }

  method Lower(c: Codec, xs: seq<Bytes>) returns (out: seq<Bytes>)
    ensures out == Tags(c, xs)
  {
    out := [];
    for i := 0 to |xs|
      invariant |out| == i && forall j :: 0 <= j < i ==> out[j] == Tag(c, xs[j])
    {
      out := out + [c.toLower(if xs[i] != [] && xs[i][0] == 0x23 then xs[i][1..] else xs[i])];
    }
  }

  function RowOf(ev: SocialMessage, p: Payload): (r: EventRow) {
    EventRow(ev.typ, ev.author, Hex(ev.devicePubkey), Saturated(ev.timestamp), Saturated(ev.sequence),
             Hex(ev.previousEvent), p, MediaRows(ev.media))
  }

  function ProfileOf(p: Payload): (r: Profile)
    requires p.ProfileUpdate?
  {
    Profile(p.displayName, p.bio, Hex(p.avatarCid), Hex(p.bannerCid), p.website, p.attributes)
  }

  /// Projecting one event

  /** `INSERT ... ON CONFLICT (id) DO NOTHING`. */
  function Inserted<K, V>(m: map<K, V>, k: K, v: V): (m': map<K, V>) {
    if k in m then m else m[k := v]
  }

  /** `UPDATE posts SET text, hashtags, edited_ts WHERE id AND author`. */
  function Edited(posts: map<string, Post>, k: string, author: Bytes, text: Bytes, hashtags: seq<Bytes>, ts: i64)
    : (posts': map<string, Post>)
  {
    if k in posts && posts[k].author == author
    then posts[k := posts[k].(text := text, hashtags := hashtags, editedTs := Some(ts))] else posts
  }

  /** `UPDATE posts SET deleted, text WHERE id AND author`. */
  function Removed(posts: map<string, Post>, k: string, author: Bytes): (posts': map<string, Post>) {
    if k in posts && posts[k].author == author then posts[k := posts[k].(deleted := true, text := [])] else posts
  }

  function RemovedReel(reels: map<string, Reel>, k: string, author: Bytes): (reels': map<string, Reel>) {
    if k in reels && reels[k].author == author then reels[k := reels[k].(deleted := true)] else reels
  }

  /** The rows one payload writes; none when the statement or the index check fails. */
  function Projected(c: Codec, t: Tables, ev: SocialMessage, p: Payload): (r: Option<Tables>) {
    var id, ts := Hex(ev.id), Saturated(ev.timestamp);
    match p
    case ProfileUpdate(_, _, _, _, _, _) =>
      Some(t.(profiles := Put(t.profiles, Entry(ev.author, ts, ProfileOf(p)))))
    case Follow(target) => Some(t.(follows := t.follows[(ev.author, target) := ts]))
    case Unfollow(target) => Some(t.(follows := t.follows - {(ev.author, target)}))
    case PostCreate(text, hashtags, mentions, channel, replyTo, sensitive, language) =>
      Some(t.(posts := Inserted(t.posts, id, Post(ev.author, text, Tags(c, hashtags), mentions, Hex(channel), Hex(replyTo),
                                                  sensitive, language, MediaRows(ev.media), ts, None, false))))
    case PostEdit(post, text, hashtags) =>
      Some(t.(posts := Edited(t.posts, Hex(post), ev.author, text, Tags(c, hashtags), ts)))
    case PostDelete(post) =>
      Some(t.(posts := Removed(t.posts, Hex(post), ev.author), reels := RemovedReel(t.reels, Hex(post), ev.author)))
    case CommentCreate(post, text, parent) =>
      Some(t.(comments := Inserted(t.comments, id, Comment(Hex(post), ev.author, text, Hex(parent), ts))))
    case Reaction(target, reaction) =>
      var k := (ev.author, Hex(target));
      Some(t.(reactions := if reaction == [] then t.reactions - {k} else t.reactions[k := ReactionRow(reaction, ts)]))
    case Repost(post, comment) =>
      Some(t.(reposts := Inserted(t.reposts, id, RepostRow(Hex(post), ev.author, comment, ts))))
    case ChannelCreate(name, description, avatarCid, openPosting) =>
      Some(t.(channels := Inserted(t.channels, id,
                                   Channel(ev.author, name, description, Hex(avatarCid), openPosting, ts))))
    case ReelCreate(caption, hashtags, videoIndex, sensitive, minAge, allowComments) =>
      if videoIndex >= |ev.media| then None
      else
        var v := ev.media[videoIndex];
        if v.durationMs > MAX_INT4 || minAge > MAX_INT4 then None
        else Some(t.(reels := Inserted(t.reels, id,
                                       Reel(ev.author, caption, Tags(c, hashtags), Hex(v.cid), v.mime, v.durationMs,
                                            Hex(v.thumbnailCid), sensitive, minAge, allowComments, ts, false))))
    case StoryCreate(caption, expiresAt, sensitive) =>
      Some(t.(stories := Inserted(t.stories, id, Story(ev.author, caption, MediaRows(ev.media), sensitive, ts,
                                                       Saturated(expiresAt)))))
  }

  /** The event row and its projection, with no check for an earlier delivery. */
  function Recorded(c: Codec, t: Tables, ev: SocialMessage): (r: Option<Tables>) {
    match c.decode(ev.typ, ev.payload)
    case None => None
    case Some(p) => Projected(c, t.(events := t.events[Hex(ev.id) := RowOf(ev, p)]), ev, p)
  }

  /** One Apply transaction: none when it fails, and the database then keeps its state. */
  function Applied(c: Codec, t: Tables, ev: SocialMessage): (r: Option<Tables>) {
    if c.decode(ev.typ, ev.payload).Some? && Hex(ev.id) in t.events then Some(t) else Recorded(c, t, ev)
  }

  /** The tables after one delivery, failed or not. */
  function Next(c: Codec, t: Tables, ev: SocialMessage): (t': Tables) {
    match Applied(c, t, ev)
    case None => t
    case Some(t1) => t1
  }

  /** A sequence of deliveries, each of them at liberty to fail. */
  function Delivered(c: Codec, t: Tables, ds: seq<SocialMessage>): (t': Tables)
    decreases |ds|
  {
    if ds == [] then t
    else
      var t0 := Delivered(c, t, ds[..|ds| - 1]);
      match Applied(c, t0, ds[|ds| - 1])
      case None => t0
      case Some(t1) => t1
  }

  /// Exactly once

  /** Whether an event can be projected at all; nothing here depends on the tables. */
  predicate Acceptable(c: Codec, ev: SocialMessage) {
    match c.decode(ev.typ, ev.payload)
    case None => false
    case Some(p) =>
      p.ReelCreate? ==>
        p.videoIndex < |ev.media| && ev.media[p.videoIndex].durationMs <= MAX_INT4 && p.minAge <= MAX_INT4
  }

  /** The acceptable events of a delivery sequence, each id at its first appearance. */
  function FirstApplied(c: Codec, ds: seq<SocialMessage>): (es: seq<SocialMessage>)
    decreases |ds|
  {
    if ds == [] then []
    else
      var es0, ev := FirstApplied(c, ds[..|ds| - 1]), ds[|ds| - 1];
      if Acceptable(c, ev) && (forall e <- es0 :: e.id != ev.id) then es0 + [ev] else es0
  }

  /** The tables that a list of events builds when each is recorded once. */
  function Built(c: Codec, es: seq<SocialMessage>): (t: Tables)
    decreases |es|
  {
    if es == [] then EMPTY
    else
      var t0 := Built(c, es[..|es| - 1]);
      match Recorded(c, t0, es[|es| - 1])
      case None => t0
      case Some(t1) => t1
  }

  lemma ProjectedEvents(c: Codec, t: Tables, ev: SocialMessage, p: Payload)
    ensures Projected(c, t, ev, p).None? <==>
              p.ReelCreate? && (p.videoIndex < |ev.media| ==>
                                  ev.media[p.videoIndex].durationMs > MAX_INT4 || p.minAge > MAX_INT4)
    ensures Projected(c, t, ev, p).Some? ==> Projected(c, t, ev, p).value.events == t.events
  {
  }

  lemma RecordedEvents(c: Codec, t: Tables, ev: SocialMessage)
    ensures Recorded(c, t, ev).Some? <==> Acceptable(c, ev)
    ensures Recorded(c, t, ev).Some? ==> Recorded(c, t, ev).value.events.Keys == t.events.Keys + {Hex(ev.id)}
  {
    match c.decode(ev.typ, ev.payload)
    case None =>
    case Some(p) => ProjectedEvents(c, t.(events := t.events[Hex(ev.id) := RowOf(ev, p)]), ev, p);
  }

  /** The ids of the events table are the ids of a list of events. */
  ghost predicate Holds(t: Tables, es: seq<SocialMessage>) {
    forall id: Bytes :: Hex(id) in t.events <==> exists e <- es :: e.id == id
  }

  lemma HoldsGrows(t: Tables, es: seq<SocialMessage>, t': Tables, ev: SocialMessage)
    requires Holds(t, es) && t'.events.Keys == t.events.Keys + {Hex(ev.id)}
    ensures Holds(t', es + [ev])
  {
    forall id: Bytes ensures Hex(id) in t'.events <==> exists e <- es + [ev] :: e.id == id {
      if Hex(id) == Hex(ev.id) {
        HexInjective(id, ev.id);
        assert (es + [ev])[|es|] == ev;
      }
      if Hex(id) in t.events {
        var e :| e in es && e.id == id;
        assert e in es + [ev];
      }
    }
  }

  lemma BuiltSnoc(c: Codec, es: seq<SocialMessage>, ev: SocialMessage)
    ensures Built(c, es + [ev]) == match Recorded(c, Built(c, es), ev) case None => Built(c, es) case Some(t) => t
  {
    assert (es + [ev])[..|es|] == es;
  }

  /**
    However often, in whatever order and with whatever failures events are delivered, the tables are
    those built from the distinct applied events in first-applied order, each recorded once.
   */
  lemma {:induction false} ExactlyOnce(c: Codec, ds: seq<SocialMessage>)
    ensures Delivered(c, EMPTY, ds) == Built(c, FirstApplied(c, ds))
    ensures Holds(Delivered(c, EMPTY, ds), FirstApplied(c, ds))
    decreases |ds|
  {
    if ds != [] {
      var init, ev := ds[..|ds| - 1], ds[|ds| - 1];
      ExactlyOnce(c, init);
      var t, es := Delivered(c, EMPTY, init), FirstApplied(c, init);
      RecordedEvents(c, t, ev);
      if Acceptable(c, ev) && (forall e <- es :: e.id != ev.id) {
        BuiltSnoc(c, es, ev);
        HoldsGrows(t, es, Recorded(c, t, ev).value, ev);
      }
    }
  }

  lemma {:induction false} FirstAppliedFrom(c: Codec, ds: seq<SocialMessage>)
    ensures forall e <- FirstApplied(c, ds) :: e in ds && Acceptable(c, e)
    decreases |ds|
  {
    if ds != [] {
      FirstAppliedFrom(c, ds[..|ds| - 1]);
    }
  }

  const ID := (ev: SocialMessage) => ev.id

  predicate DistinctIds(es: seq<SocialMessage>) {
    DistinctBy(es, ID)
  }

  /** No id is applied twice. */
  lemma {:induction false} FirstAppliedDistinct(c: Codec, ds: seq<SocialMessage>)
    ensures DistinctIds(FirstApplied(c, ds))
    decreases |ds|
  {
    if ds != [] {
      var init, ev := ds[..|ds| - 1], ds[|ds| - 1];
      FirstAppliedDistinct(c, init);
      var es := FirstApplied(c, init);
      if Acceptable(c, ev) && (forall e <- es :: e.id != ev.id) {
        DistinctByGrows(es, ID, ev);
      }
    }
  }

  /** Every acceptable event delivered has its id applied. */
  lemma {:induction false} FirstAppliedCovers(c: Codec, ds: seq<SocialMessage>, d: SocialMessage)
    requires d in ds && Acceptable(c, d)
    ensures exists e <- FirstApplied(c, ds) :: e.id == d.id
    decreases |ds|
  {
    var init, ev := ds[..|ds| - 1], ds[|ds| - 1];
    var es := FirstApplied(c, init);
    assert ds == init + [ev];
    if d in init {
      FirstAppliedCovers(c, init, d);
      var e :| e in es && e.id == d.id;
      assert e in FirstApplied(c, ds);
    } else if forall e <- es :: e.id != ev.id {
      assert FirstApplied(c, ds) == es + [d];
      assert d in FirstApplied(c, ds);
    } else {
      assert FirstApplied(c, ds) == es;
    }
  }

  /// Redelivery

  lemma {:induction false} DeliveredConcat(c: Codec, t: Tables, ds: seq<SocialMessage>, es: seq<SocialMessage>)
    ensures Delivered(c, t, ds + es) == Delivered(c, Delivered(c, t, ds), es)
    decreases |es|
  {
    if es == [] {
      assert ds + es == ds;
    } else {
      DeliveredConcat(c, t, ds, es[..|es| - 1]);
      assert (ds + es)[..|ds + es| - 1] == ds + es[..|es| - 1];
    }
  }

  lemma DeliveredLast(c: Codec, t: Tables, ds: seq<SocialMessage>)
    requires ds != []
    ensures var t0, t1, ev := Delivered(c, t, ds[..|ds| - 1]), Delivered(c, t, ds), ds[|ds| - 1];
            t0.events.Keys <= t1.events.Keys && (Acceptable(c, ev) ==> Hex(ev.id) in t1.events)
  {
    RecordedEvents(c, Delivered(c, t, ds[..|ds| - 1]), ds[|ds| - 1]);
  }

  lemma {:induction false} DeliveredGrows(c: Codec, t: Tables, ds: seq<SocialMessage>)
    ensures t.events.Keys <= Delivered(c, t, ds).events.Keys
    decreases |ds|
  {
    if ds != [] {
      DeliveredGrows(c, t, ds[..|ds| - 1]);
      DeliveredLast(c, t, ds);
    }
  }

  lemma {:induction false} DeliveredHas(c: Codec, t: Tables, ds: seq<SocialMessage>, k: nat)
    requires k < |ds| && Acceptable(c, ds[k])
    ensures Hex(ds[k].id) in Delivered(c, t, ds).events
    decreases |ds|
  {
    if k < |ds| - 1 {
      DeliveredHas(c, t, ds[..|ds| - 1], k);
    }
    DeliveredLast(c, t, ds);
  }

  lemma DeliveredKeeps(c: Codec, t: Tables, ds: seq<SocialMessage>)
    ensures t.events.Keys <= Delivered(c, t, ds).events.Keys
    ensures forall d <- ds :: Acceptable(c, d) ==> Hex(d.id) in Delivered(c, t, ds).events
  {
    DeliveredGrows(c, t, ds);
    forall k | 0 <= k < |ds| && Acceptable(c, ds[k]) ensures Hex(ds[k].id) in Delivered(c, t, ds).events {
      DeliveredHas(c, t, ds, k);
    }
  }

  lemma {:induction false} Ignored(c: Codec, t: Tables, es: seq<SocialMessage>)
    requires forall e <- es :: Acceptable(c, e) ==> Hex(e.id) in t.events
    ensures Delivered(c, t, es) == t
    decreases |es|
  {
    if es != [] {
      assert es == es[..|es| - 1] + [es[|es| - 1]];
      Ignored(c, t, es[..|es| - 1]);
      RecordedEvents(c, t, es[|es| - 1]);
    }
  }

  /** Events under ids delivered before, in any order and any number of times, change nothing in any table. */
  lemma Redelivery(c: Codec, t: Tables, ds: seq<SocialMessage>, es: seq<SocialMessage>)
    requires forall e <- es :: Acceptable(c, e) ==> exists d <- ds :: Acceptable(c, d) && d.id == e.id
    ensures Delivered(c, Delivered(c, t, ds), es) == Delivered(c, t, ds)
  {
    DeliveredKeeps(c, t, ds);
    Ignored(c, Delivered(c, t, ds), es);
  }

  /** A batch cut off anywhere and then delivered whole leaves what one whole delivery leaves. */
  lemma InterruptedBatch(c: Codec, t: Tables, ds: seq<SocialMessage>, k: nat)
    requires k <= |ds|
    ensures Delivered(c, Delivered(c, t, ds[..k]), ds) == Delivered(c, t, ds)
  {
    var t0 := Delivered(c, t, ds[..k]);
    assert ds == ds[..k] + ds[k..];
    DeliveredConcat(c, t0, ds[..k], ds[k..]);
    Redelivery(c, t, ds[..k], ds[..k]);
    DeliveredConcat(c, t, ds[..k], ds[k..]);
  }
}
