/** What the derived tables of the social projection hold, in terms of the events applied. */
module SocialTables {
  import opened Prelude
  import opened Canonical
  import opened Signing
  import opened Payloads
  import opened Registers
  import opened Social

  /// Rows keyed by event id

  predicate PostsCovered(t: Tables) {
    t.posts.Keys <= t.events.Keys && t.reels.Keys <= t.events.Keys
  }

  predicate RepliesCovered(t: Tables) {
    t.comments.Keys <= t.events.Keys && t.reposts.Keys <= t.events.Keys
  }

  predicate OthersCovered(t: Tables) {
    t.channels.Keys <= t.events.Keys && t.stories.Keys <= t.events.Keys
  }

  /** Every row keyed by an event id belongs to a recorded event. */
  predicate IdsCovered(t: Tables) {
    PostsCovered(t) && RepliesCovered(t) && OthersCovered(t)
  }

  lemma ProjectedPostsCovered(c: Codec, t: Tables, ev: SocialMessage, p: Payload)
    requires PostsCovered(t) && Hex(ev.id) in t.events
    ensures Projected(c, t, ev, p).Some? ==> PostsCovered(Projected(c, t, ev, p).value)
  {
  }

  lemma ProjectedRepliesCovered(c: Codec, t: Tables, ev: SocialMessage, p: Payload)
    requires RepliesCovered(t) && Hex(ev.id) in t.events
    ensures Projected(c, t, ev, p).Some? ==> RepliesCovered(Projected(c, t, ev, p).value)
  {
  }

  lemma ProjectedOthersCovered(c: Codec, t: Tables, ev: SocialMessage, p: Payload)
    requires OthersCovered(t) && Hex(ev.id) in t.events
    ensures Projected(c, t, ev, p).Some? ==> OthersCovered(Projected(c, t, ev, p).value)
  {
  }

  lemma RecordedCovered(c: Codec, t: Tables, ev: SocialMessage)
    requires IdsCovered(t)
    ensures Recorded(c, t, ev).Some? ==> IdsCovered(Recorded(c, t, ev).value)
  {
    match c.decode(ev.typ, ev.payload)
    case None =>
    case Some(p) =>
      var t0 := t.(events := t.events[Hex(ev.id) := RowOf(ev, p)]);
      ProjectedPostsCovered(c, t0, ev, p);
      ProjectedRepliesCovered(c, t0, ev, p);
      ProjectedOthersCovered(c, t0, ev, p);
  }

  /** So no insertion keyed by a new event id ever meets an existing row. */
  lemma {:induction false} BuiltCovered(c: Codec, es: seq<SocialMessage>)
    ensures IdsCovered(Built(c, es))
    decreases |es|
  {
    if es != [] {
      BuiltCovered(c, es[..|es| - 1]);
      RecordedCovered(c, Built(c, es[..|es| - 1]), es[|es| - 1]);
    }
  }

  /// Profiles

  function ProfileEntry(c: Codec, ev: SocialMessage): (r: Option<Entry<Bytes, Profile>>) {
    match c.decode(ev.typ, ev.payload)
    case None => None
    case Some(p) =>
      if p.ProfileUpdate? then Some(Entry(ev.author, Saturated(ev.timestamp), ProfileOf(p))) else None
  }

  function ProfileEntries(c: Codec, es: seq<SocialMessage>): (ps: seq<Entry<Bytes, Profile>>)
    decreases |es|
  {
    if es == [] then []
    else
      var ps0 := ProfileEntries(c, es[..|es| - 1]);
      match ProfileEntry(c, es[|es| - 1])
      case None => ps0
      case Some(p) => ps0 + [p]
  }

  lemma ProjectedProfiles(c: Codec, t: Tables, ev: SocialMessage, p: Payload)
    requires !p.ProfileUpdate? && Projected(c, t, ev, p).Some?
    ensures Projected(c, t, ev, p).value.profiles == t.profiles
  {
  }

  lemma RecordedProfiles(c: Codec, t: Tables, ev: SocialMessage)
    ensures match ProfileEntry(c, ev)
            case None => Recorded(c, t, ev).Some? ==> Recorded(c, t, ev).value.profiles == t.profiles
            case Some(e) => Recorded(c, t, ev).Some? && Recorded(c, t, ev).value.profiles == Put(t.profiles, e)
  {
    match c.decode(ev.typ, ev.payload)
    case None =>
    case Some(p) =>
      var t0 := t.(events := t.events[Hex(ev.id) := RowOf(ev, p)]);
      if !p.ProfileUpdate? && Projected(c, t0, ev, p).Some? {
        ProjectedProfiles(c, t0, ev, p);
      }
  }

  /** The profiles table is the last-writer-wins register of the profile updates applied. */
  lemma {:induction false} BuiltProfiles(c: Codec, es: seq<SocialMessage>)
    ensures Built(c, es).profiles == PutAll(ProfileEntries(c, es))
    decreases |es|
  {
    if es != [] {
      var init, ev := es[..|es| - 1], es[|es| - 1];
      BuiltProfiles(c, init);
      RecordedProfiles(c, Built(c, init), ev);
      if ProfileEntry(c, ev).Some? {
        var ps := ProfileEntries(c, init);
        assert (ps + [ProfileEntry(c, ev).value])[..|ps|] == ps;
      }
    }
  }

  /** After any deliveries, each author's profile is its latest-applied update of maximal timestamp. */
  lemma ProfileIsLatest(c: Codec, ds: seq<SocialMessage>, author: Bytes) returns (i: nat)
    ensures var es, t := ProfileEntries(c, FirstApplied(c, ds)), Delivered(c, EMPTY, ds);
            && (author in t.profiles <==> exists e <- es :: e.key == author)
            && (author in t.profiles ==> IsWinner(es, i) && es[i].key == author
                                         && t.profiles[author] == Cell(es[i].ts, es[i].value))
  {
    ExactlyOnce(c, ds);
    BuiltProfiles(c, FirstApplied(c, ds));
    i := Winner(ProfileEntries(c, FirstApplied(c, ds)), author);
  }

  lemma {:induction false} InProfileEntries(c: Codec, es: seq<SocialMessage>, e: Entry<Bytes, Profile>)
    ensures e in ProfileEntries(c, es) <==> exists x <- es :: ProfileEntry(c, x) == Some(e)
    decreases |es|
  {
    if es != [] {
      InProfileEntries(c, es[..|es| - 1], e);
      assert es == es[..|es| - 1] + [es[|es| - 1]];
    }
  }

  /** An event without its signature: two valid signatures of one event make two deliveries of it. */
  function Contents(ev: SocialMessage): (u: SocialMessage) {
    ev.(signature := [])
  }

  /** An id stands for one event, up to the signature. */
  predicate OneEventPerId(c: Codec, ds: seq<SocialMessage>) {
    forall x <- ds, y <- ds :: Acceptable(c, x) && Acceptable(c, y) && x.id == y.id ==> Contents(x) == Contents(y)
  }

  /** Each acceptable event is also in the other sequence, under whatever signature. */
  predicate Carried(c: Codec, ds: seq<SocialMessage>, ds': seq<SocialMessage>) {
    forall x <- ds | Acceptable(c, x) :: exists y <- ds' :: Contents(y) == Contents(x)
  }

  /** Nothing that projects a profile reads the signature. */
  lemma ContentsDecide(c: Codec, x: SocialMessage, y: SocialMessage)
    requires Contents(x) == Contents(y)
    ensures x.id == y.id && ProfileEntry(c, x) == ProfileEntry(c, y) && (Acceptable(c, x) <==> Acceptable(c, y))
  {
    assert x.typ == Contents(x).typ && y.typ == Contents(y).typ && x.payload == Contents(x).payload;
    assert x.id == Contents(x).id && y.id == Contents(y).id && x.media == Contents(x).media;
    assert x.author == Contents(x).author && x.timestamp == Contents(x).timestamp;
  }

  lemma OneEventPerIdCarried(c: Codec, ds: seq<SocialMessage>, ds': seq<SocialMessage>)
    requires OneEventPerId(c, ds) && Carried(c, ds', ds)
    ensures OneEventPerId(c, ds')
  {
    forall x <- ds', y <- ds' | Acceptable(c, x) && Acceptable(c, y) && x.id == y.id ensures Contents(x) == Contents(y) {
      var u :| u in ds && Contents(u) == Contents(x);
      var v :| v in ds && Contents(v) == Contents(y);
      ContentsDecide(c, u, x);
      ContentsDecide(c, v, y);
    }
  }

  lemma EntryCarried(c: Codec, ds: seq<SocialMessage>, ds': seq<SocialMessage>, e: Entry<Bytes, Profile>)
    requires OneEventPerId(c, ds') && Carried(c, ds, ds') && e in ProfileEntries(c, FirstApplied(c, ds))
    ensures e in ProfileEntries(c, FirstApplied(c, ds'))
  {
    InProfileEntries(c, FirstApplied(c, ds), e);
    var x :| x in FirstApplied(c, ds) && ProfileEntry(c, x) == Some(e);
    FirstAppliedFrom(c, ds);
    var y :| y in ds' && Contents(y) == Contents(x);
    ContentsDecide(c, x, y);
    FirstAppliedCovers(c, ds', y);
    var z :| z in FirstApplied(c, ds') && z.id == y.id;
    FirstAppliedFrom(c, ds');
    ContentsDecide(c, z, y);
    InProfileEntries(c, FirstApplied(c, ds'), e);
  }

  /**
    Two nodes that hand over the same events, in different orders, with different repetitions and under
    different signatures, lead to the same profiles, as long as no two updates of one author tie with
    different contents.
   */
  lemma ProfilesOrderFree(c: Codec, ds: seq<SocialMessage>, ds': seq<SocialMessage>)
    requires Carried(c, ds, ds') && Carried(c, ds', ds) && OneEventPerId(c, ds)
    requires LatestAgree(ProfileEntries(c, FirstApplied(c, ds)))
    ensures Delivered(c, EMPTY, ds).profiles == Delivered(c, EMPTY, ds').profiles
  {
    var ps, ps' := ProfileEntries(c, FirstApplied(c, ds)), ProfileEntries(c, FirstApplied(c, ds'));
    OneEventPerIdCarried(c, ds, ds');
    forall e | e in ps ensures e in ps' {
      EntryCarried(c, ds, ds', e);
    }
    forall e | e in ps' ensures e in ps {
      EntryCarried(c, ds', ds, e);
    }
    SameEntries(ps, ps');
    ExactlyOnce(c, ds);
    ExactlyOnce(c, ds');
    BuiltProfiles(c, FirstApplied(c, ds));
    BuiltProfiles(c, FirstApplied(c, ds'));
  }

  /** Verified events meet `OneEventPerId` when the hash does not collide on their preimages. */
  lemma VerifiedOneEventPerId(c: Codec, n: Identity, hash: Bytes -> Bytes,
                              signedBy: (Bytes, Bytes, Bytes) -> bool, ds: seq<SocialMessage>)
    requires forall x <- ds :: Signable(n, x) && VerifyEvent(n, hash, signedBy, x)
    requires forall x <- ds, y <- ds :: NoCollision(n, hash, x, y)
    ensures OneEventPerId(c, ds)
  {
    forall x <- ds, y <- ds | x.id == y.id ensures Contents(x) == Contents(y) {
      assert NoCollision(n, hash, x, y);
      EventIdNamesContents(n, hash, signedBy, x, y);
      assert Contents(x) == Unsigned(x).(id := x.id) && Contents(y) == Unsigned(y).(id := y.id);
    }
  }

  /// Posts

  /** The parts of a post that its creation fixes for good. */
  predicate CreatedBy(c: Codec, post: Post, ev: SocialMessage) {
    match c.decode(ev.typ, ev.payload)
    case None => false
    case Some(p) =>
      && p.PostCreate? && post.author == ev.author && post.ts == Saturated(ev.timestamp) && post.mentions == p.mentions
      && post.channel == Hex(p.channel) && post.replyTo == Hex(p.replyTo) && post.sensitive == p.sensitive
      && post.language == p.language && post.media == MediaRows(ev.media)
  }

  /** The parts of a post that only its author's edits and deletions change. */
  predicate SameOrigin(a: Post, b: Post) {
    b.(text := a.text, hashtags := a.hashtags, editedTs := a.editedTs, deleted := a.deleted) == a
  }

  /** How a single row may change under an event of some author. */
  predicate RowKept(posts: map<string, Post>, posts': map<string, Post>, k: string, author: Bytes) {
    k in posts ==>
      && k in posts' && SameOrigin(posts[k], posts'[k]) && (posts[k].deleted ==> posts'[k].deleted)
      && (posts[k].author != author ==> posts'[k] == posts[k])
  }

  lemma OtherPosts(c: Codec, t: Tables, ev: SocialMessage, p: Payload)
    requires Projected(c, t, ev, p).Some? && !p.PostCreate? && !p.PostEdit? && !p.PostDelete?
    ensures Projected(c, t, ev, p).value.posts == t.posts
  {
  }

  lemma ProjectedPosts(c: Codec, t: Tables, ev: SocialMessage, p: Payload, k: string)
    requires Projected(c, t, ev, p).Some?
    ensures var posts' := Projected(c, t, ev, p).value.posts;
            RowKept(t.posts, posts', k, ev.author)
            && (k in posts' && k !in t.posts ==> p.PostCreate? && k == Hex(ev.id))
  {
    match p
    case PostCreate(_, _, _, _, _, _, _) =>
    case PostEdit(post, text, hashtags) =>
      EditKeepsRows(t.posts, Hex(post), ev.author, text, Tags(c, hashtags), Saturated(ev.timestamp), k);
    case PostDelete(post) => RemovalKeepsRows(t.posts, Hex(post), ev.author, k);
    case _ => OtherPosts(c, t, ev, p);
  }

  lemma EditKeepsRows(posts: map<string, Post>, at: string, author: Bytes, text: Bytes, hashtags: seq<Bytes>, ts: i64,
                      k: string)
    ensures RowKept(posts, Edited(posts, at, author, text, hashtags, ts), k, author)
    ensures Edited(posts, at, author, text, hashtags, ts).Keys == posts.Keys
  {
  }

  lemma RemovalKeepsRows(posts: map<string, Post>, at: string, author: Bytes, k: string)
    ensures RowKept(posts, Removed(posts, at, author), k, author)
    ensures Removed(posts, at, author).Keys == posts.Keys
  {
  }

  lemma RecordedPosts(c: Codec, t: Tables, ev: SocialMessage, k: string)
    requires Recorded(c, t, ev).Some?
    ensures var t' := Recorded(c, t, ev).value;
            && RowKept(t.posts, t'.posts, k, ev.author)
            && (k in t'.posts && k !in t.posts ==> k == Hex(ev.id) && CreatedBy(c, t'.posts[k], ev))
  {
    var p := c.decode(ev.typ, ev.payload).value;
    ProjectedPosts(c, t.(events := t.events[Hex(ev.id) := RowOf(ev, p)]), ev, p, k);
  }

  /** Every post row was created by the applied event of its id, and keeps what that event fixed. */
  lemma {:induction false} PostOrigin(c: Codec, es: seq<SocialMessage>, k: string)
    requires k in Built(c, es).posts
    ensures exists e <- es :: Hex(e.id) == k && CreatedBy(c, Built(c, es).posts[k], e)
    decreases |es|
  {
    var init, ev := es[..|es| - 1], es[|es| - 1];
    assert es == init + [ev];
    var t := Built(c, init);
    if Recorded(c, t, ev).Some? {
      RecordedPosts(c, t, ev, k);
    }
    if k in t.posts {
      PostOrigin(c, init, k);
      var e :| e in init && Hex(e.id) == k && CreatedBy(c, t.posts[k], e);
      assert e in es && CreatedBy(c, Built(c, es).posts[k], e);
    } else {
      assert ev in es;
    }
  }

  /** No delivery removes a post, revives a deleted one, or lets another author touch it. */
  lemma {:induction false} PostsOnlyByAuthor(c: Codec, t: Tables, ds: seq<SocialMessage>, k: string)
    requires k in t.posts
    ensures var t' := Delivered(c, t, ds);
            && k in t'.posts && SameOrigin(t.posts[k], t'.posts[k]) && (t.posts[k].deleted ==> t'.posts[k].deleted)
            && ((forall d <- ds :: d.author != t.posts[k].author) ==> t'.posts[k] == t.posts[k])
    decreases |ds|
  {
    if ds != [] {
      var init, ev := ds[..|ds| - 1], ds[|ds| - 1];
      assert ds == init + [ev];
      PostsOnlyByAuthor(c, t, init, k);
      var t0 := Delivered(c, t, init);
      if Recorded(c, t0, ev).Some? {
        RecordedPosts(c, t0, ev, k);
      }
    }
  }
}
