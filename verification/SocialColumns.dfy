/** Which part of an event goes to which column (the statements of Apply in indexer/social.go). */
module SocialColumns {
  import opened Prelude
  import opened Canonical
  import opened Payloads
  import opened Registers
  import opened Social
  import opened SocialTables
  import opened SocialMeaning

  /// Numbers

  /** Times beyond the largest signed 64-bit number are stored as that number. */
  lemma SaturatedIs(u: u64)
    ensures Saturated(u) == if u <= 9223372036854775807 then u else 9223372036854775807
  {
  }

  /** An event can be projected when its payload decodes and a reel names one of its media within 32-bit columns. */
  lemma AcceptableIff(c: Codec, ev: SocialMessage)
    ensures Acceptable(c, ev) <==>
              && PayloadOf(c, ev).Some?
              && match PayloadOf(c, ev).value
                 case ReelCreate(_, _, index, _, minAge, _) =>
                   index < |ev.media| && ev.media[index].durationMs < 0x8000_0000 && minAge < 0x8000_0000
                 case _ => true
  {
  }

  /// Media and hashtags

  /** A stored media reference keeps every field of its event's but the content hash, byte fields in hexadecimal. */
  lemma MediaColumns(ms: seq<Media>, i: nat)
    requires i < |ms|
    ensures var row := MediaRows(ms)[i];
            && row.cid == Hex(ms[i].cid) && row.thumbnailCid == Hex(ms[i].thumbnailCid)
            && row.mime == ms[i].mime && row.kind == ms[i].kind && row.size == ms[i].size
            && row.width == ms[i].width && row.height == ms[i].height && row.durationMs == ms[i].durationMs
    ensures |MediaRows(ms)| == |ms|
  {
  }

  /** The i-th tag is the i-th hashtag lower-cased, without one leading '#' (byte 35). */
  lemma TagColumns(c: Codec, xs: seq<Bytes>, i: nat, rest: Bytes)
    requires i < |xs|
    ensures |Tags(c, xs)| == |xs|
    ensures xs[i] == [35] + rest ==> Tags(c, xs)[i] == c.toLower(rest)
    ensures xs[i] == [] || xs[i][0] != 35 ==> Tags(c, xs)[i] == c.toLower(xs[i])
  {
    if xs[i] == [35] + rest {
      assert xs[i][1..] == rest;
    }
  }

  /// Profiles

  /** The i-th event is a profile update of an author. */
  predicate Updates(c: Codec, ev: SocialMessage, author: Bytes) {
    ev.author == author && PayloadOf(c, ev).Some? && PayloadOf(c, ev).value.ProfileUpdate?
  }

  lemma EntryColumns(c: Codec, e: SocialMessage, entry: Entry<Bytes, Profile>)
    requires ProfileEntry(c, e) == Some(entry)
    ensures Updates(c, e, entry.key) && entry.ts == Saturated(e.timestamp)
    ensures var row, p := entry.value, PayloadOf(c, e).value;
            && row.displayName == p.displayName && row.bio == p.bio && row.website == p.website
            && row.avatarCid == Hex(p.avatarCid) && row.bannerCid == Hex(p.bannerCid) && row.attributes == p.attributes
  {
  }

  lemma WinnerIsNewest(c: Codec, es: seq<SocialMessage>, i: nat, x: SocialMessage)
    requires IsWinner(ProfileEntries(c, es), i) && x in es && Updates(c, x, ProfileEntries(c, es)[i].key)
    ensures Saturated(x.timestamp) <= ProfileEntries(c, es)[i].ts
  {
    var ps, entry := ProfileEntries(c, es), ProfileEntry(c, x).value;
    InProfileEntries(c, es, entry);
    var j :| 0 <= j < |ps| && ps[j] == entry;
    assert ps[j].key == ps[i].key;
  }

  lemma ProfileSource(c: Codec, es: seq<SocialMessage>, i: nat) returns (e: SocialMessage)
    requires i < |ProfileEntries(c, es)|
    ensures e in es && ProfileEntry(c, e) == Some(ProfileEntries(c, es)[i])
  {
    InProfileEntries(c, es, ProfileEntries(c, es)[i]);
    e :| e in es && ProfileEntry(c, e) == Some(ProfileEntries(c, es)[i]);
  }

  /** A profile row is, column by column, an applied update of its author that no other one exceeds in time. */
  lemma ProfileColumns(c: Codec, ds: seq<SocialMessage>, author: Bytes) returns (e: SocialMessage)
    requires author in Delivered(c, EMPTY, ds).profiles
    ensures e in FirstApplied(c, ds) && Updates(c, e, author)
    ensures var row, p := Delivered(c, EMPTY, ds).profiles[author], PayloadOf(c, e).value;
            && row.ts == Saturated(e.timestamp)
            && row.value.displayName == p.displayName && row.value.bio == p.bio && row.value.website == p.website
            && row.value.avatarCid == Hex(p.avatarCid) && row.value.bannerCid == Hex(p.bannerCid)
            && row.value.attributes == p.attributes
    ensures forall x <- FirstApplied(c, ds) :: Updates(c, x, author) ==> Saturated(x.timestamp) <= Saturated(e.timestamp)
  {
    var es := FirstApplied(c, ds);
    var i := ProfileIsLatest(c, ds, author);
    e := ProfileSource(c, es, i);
    EntryColumns(c, e, ProfileEntries(c, es)[i]);
    forall x <- es | Updates(c, x, author) ensures Saturated(x.timestamp) <= Saturated(e.timestamp) {
      WinnerIsNewest(c, es, i, x);
    }
  }

  /// Hashtags and edit times of posts

  /** The hashtags and the edit time that an event gives a post of this id and author; a deletion gives none. */
  function RevisionSaid(c: Codec, ev: SocialMessage, k: string, author: Bytes): (r: Option<(seq<Bytes>, Option<i64>)>) {
    match PayloadOf(c, ev)
    case Some(PostCreate(_, hashtags, _, _, _, _, _)) =>
      if Hex(ev.id) == k then Some((Tags(c, hashtags), None)) else None
    case Some(PostEdit(post, _, hashtags)) =>
      if Hex(post) == k && ev.author == author then Some((Tags(c, hashtags), Some(Saturated(ev.timestamp)))) else None
    case _ => None
  }

  const REVISION := (post: Post) => (post.hashtags, post.editedTs)

  function RevisionBy(c: Codec, k: string): (said: (SocialMessage, Bytes) -> Option<(seq<Bytes>, Option<i64>)>) {
    (ev: SocialMessage, author: Bytes) => RevisionSaid(c, ev, k, author)
  }

  lemma ProjectedRevision(c: Codec, t: Tables, ev: SocialMessage, p: Payload, k: string)
    requires Projected(c, t, ev, p).Some? && PayloadOf(c, ev) == Some(p) && k in t.posts && Hex(ev.id) != k
    ensures var posts' := Projected(c, t, ev, p).value.posts;
            k in posts' && REVISION(posts'[k]) == match RevisionSaid(c, ev, k, t.posts[k].author)
                                                  case None => REVISION(t.posts[k])
                                                  case Some(revision) => revision
  {
    match p
    case PostCreate(_, _, _, _, _, _, _) =>
    case PostEdit(post, text, hashtags) =>
      EditRevises(t.posts, Hex(post), ev.author, text, Tags(c, hashtags), Saturated(ev.timestamp), k);
    case PostDelete(post) => RemovalRevisesNothing(t.posts, Hex(post), ev.author, k);
    case _ => OtherPosts(c, t, ev, p);
  }

  lemma EditRevises(posts: map<string, Post>, at: string, author: Bytes, text: Bytes, tags: seq<Bytes>, ts: i64, k: string)
    requires k in posts
    ensures var posts' := Edited(posts, at, author, text, tags, ts);
            k in posts' && REVISION(posts'[k])
                           == if at == k && posts[k].author == author then (tags, Some(ts)) else REVISION(posts[k])
  {
  }

  lemma RemovalRevisesNothing(posts: map<string, Post>, at: string, author: Bytes, k: string)
    requires k in posts
    ensures k in Removed(posts, at, author) && REVISION(Removed(posts, at, author)[k]) == REVISION(posts[k])
  {
  }

  lemma ProjectedNewRevision(c: Codec, t: Tables, ev: SocialMessage, p: Payload, k: string)
    requires Projected(c, t, ev, p).Some? && PayloadOf(c, ev) == Some(p)
    requires k !in t.posts && k in Projected(c, t, ev, p).value.posts
    ensures var post := Projected(c, t, ev, p).value.posts[k];
            RevisionSaid(c, ev, k, post.author) == Some(REVISION(post))
  {
    ProjectedPosts(c, t, ev, p, k);
  }

  lemma BuiltRevision(c: Codec, es: seq<SocialMessage>, k: string)
    requires es != [] && DistinctIds(es)
    ensures ShownStep(c, Built(c, es[..|es| - 1]).posts, es[|es| - 1], Built(c, es).posts, k, RevisionBy(c, k), REVISION)
  {
    var init, ev := es[..|es| - 1], es[|es| - 1];
    var t := Built(c, init);
    RecordedEvents(c, t, ev);
    if Recorded(c, t, ev).Some? && k in Built(c, es).posts {
      var p := PayloadOf(c, ev).value;
      var t0 := t.(events := t.events[Hex(ev.id) := RowOf(ev, p)]);
      if k in t.posts {
        IdNotCreatedAgain(c, es, k);
        RecordedPosts(c, t, ev, k);
        ProjectedRevision(c, t0, ev, p, k);
      } else {
        ProjectedNewRevision(c, t0, ev, p, k);
      }
    }
  }

  /** A post has the hashtags and the edit time of its author's last edit, or of its creation when there was none. */
  lemma PostRevisionIsLatest(c: Codec, es: seq<SocialMessage>, k: string) returns (i: nat)
    requires DistinctIds(es) && k in Built(c, es).posts
    ensures var post := Built(c, es).posts[k];
            && i < |es| && RevisionSaid(c, es[i], k, post.author) == Some((post.hashtags, post.editedTs))
            && forall j :: i < j < |es| && Acceptable(c, es[j]) ==> RevisionSaid(c, es[j], k, post.author).None?
  {
    var all := PostsAlong(c, es);
    forall n | 0 <= n < |es| ensures ShownStep(c, all[n], es[n], all[n + 1], k, RevisionBy(c, k), REVISION) {
      DistinctIdsPrefix(es, n + 1);
      BuiltRevision(c, es[..n + 1], k);
      assert es[..n + 1][..n] == es[..n];
    }
    assert es[..|es|] == es;
    i := LastShown(c, es, all, k, RevisionBy(c, k), REVISION);
  }
}
