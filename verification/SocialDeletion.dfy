/** What becomes of the text of a deleted post (PostEdit and PostDelete in indexer/social.go). */
module SocialDeletion {
  import opened Prelude
  import opened Canonical
  import opened Payloads
  import opened Social
  import opened SocialTables
  import opened SocialMeaning

  /// The failing input

  lemma DeliveredSnoc(c: Codec, ds: seq<SocialMessage>, ev: SocialMessage)
    ensures Delivered(c, EMPTY, ds + [ev]) == Next(c, Delivered(c, EMPTY, ds), ev)
  {
    assert (ds + [ev])[..|ds|] == ds;
  }

  lemma AfterCreate(c: Codec, x: SocialMessage)
    requires PayloadOf(c, x).Some? && PayloadOf(c, x).value.PostCreate?
    ensures var t := Next(c, EMPTY, x);
            Hex(x.id) in t.posts && t.posts[Hex(x.id)].author == x.author && t.events.Keys == {Hex(x.id)}
  {
    RecordedEvents(c, EMPTY, x);
  }

  lemma AfterDelete(c: Codec, t: Tables, y: SocialMessage, post: Bytes)
    requires PayloadOf(c, y) == Some(PostDelete(post)) && Hex(y.id) !in t.events
    requires Hex(post) in t.posts && t.posts[Hex(post)].author == y.author
    ensures var t' := Next(c, t, y);
            && t'.events.Keys == t.events.Keys + {Hex(y.id)}
            && Hex(post) in t'.posts && t'.posts[Hex(post)].author == y.author && t'.posts[Hex(post)].deleted
  {
    RecordedEvents(c, t, y);
  }

  lemma AfterEdit(c: Codec, t: Tables, z: SocialMessage, post: Bytes, text: Bytes, tags: seq<Bytes>)
    requires PayloadOf(c, z) == Some(PostEdit(post, text, tags)) && Hex(z.id) !in t.events
    requires Hex(post) in t.posts && t.posts[Hex(post)].author == z.author
    ensures var t' := Next(c, t, z);
            && Hex(post) in t'.posts && t'.posts[Hex(post)].text == text
            && t'.posts[Hex(post)].deleted == t.posts[Hex(post)].deleted
  {
  }

  lemma NotYet(t: Tables, id: Bytes, ids: set<Bytes>)
    requires id !in ids && forall k <- t.events :: exists i <- ids :: k == Hex(i)
    ensures Hex(id) !in t.events
  {
    if Hex(id) in t.events {
      var i :| i in ids && Hex(id) == Hex(i);
      HexInjective(id, i);
    }
  }

  /** A post created, deleted and then edited by its author is marked deleted and holds the text of the edit. */
  lemma EditRewritesDeleted(c: Codec, x: SocialMessage, y: SocialMessage, z: SocialMessage, text: Bytes, tags: seq<Bytes>)
    requires x.author == y.author == z.author && DistinctIds([x, y, z])
    requires PayloadOf(c, x).Some? && PayloadOf(c, x).value.PostCreate?
    requires PayloadOf(c, y) == Some(PostDelete(x.id)) && PayloadOf(c, z) == Some(PostEdit(x.id, text, tags))
    ensures var posts := Delivered(c, EMPTY, [x, y, z]).posts;
            Hex(x.id) in posts && posts[Hex(x.id)].deleted && posts[Hex(x.id)].text == text
  {
    var es := [x, y, z];
    assert ID(es[0]) != ID(es[1]) && ID(es[0]) != ID(es[2]) && ID(es[1]) != ID(es[2]);
    DeliveredThree(c, x, y, z);
    var t := Next(c, EMPTY, x);
    AfterCreate(c, x);
    NotYet(t, y.id, {x.id});
    AfterDelete(c, t, y, x.id);
    NotYet(Next(c, t, y), z.id, {x.id, y.id});
    AfterEdit(c, Next(c, t, y), z, x.id, text, tags);
  }

  lemma DeliveredThree(c: Codec, x: SocialMessage, y: SocialMessage, z: SocialMessage)
    ensures Delivered(c, EMPTY, [x, y, z]) == Next(c, Next(c, Next(c, EMPTY, x), y), z)
  {
    DeliveredSnoc(c, [], x);
    DeliveredSnoc(c, [x], y);
    DeliveredSnoc(c, [x, y], z);
    assert [] + [x] == [x] && [x] + [y] == [x, y] && [x, y] + [z] == [x, y, z];
  }

  /// When one event breaks it

  /** Posts marked deleted hold no text. */
  predicate DeletedAreBlank(posts: map<string, Post>) {
    forall k <- posts :: posts[k].deleted ==> posts[k].text == []
  }

  /** An edit with a text, by the author, of a post already marked deleted: what Apply would have to refuse. */
  predicate EditsDeleted(c: Codec, posts: map<string, Post>, ev: SocialMessage) {
    match PayloadOf(c, ev)
    case Some(PostEdit(post, text, _)) =>
      Hex(post) in posts && posts[Hex(post)].author == ev.author && posts[Hex(post)].deleted && text != []
    case _ => false
  }

  lemma ProjectedBlank(c: Codec, t: Tables, ev: SocialMessage, p: Payload)
    requires Projected(c, t, ev, p).Some? && PayloadOf(c, ev) == Some(p) && DeletedAreBlank(t.posts)
    ensures DeletedAreBlank(Projected(c, t, ev, p).value.posts) <==> !EditsDeleted(c, t.posts, ev)
  {
    match p
    case PostCreate(_, _, _, _, _, _, _) =>
    case PostEdit(post, text, tags) =>
      EditBlank(t.posts, Hex(post), ev.author, text, Tags(c, tags), Saturated(ev.timestamp));
    case PostDelete(_) =>
    case _ => OtherPosts(c, t, ev, p);
  }

  lemma EditBlank(posts: map<string, Post>, at: string, author: Bytes, text: Bytes, tags: seq<Bytes>, ts: i64)
    requires DeletedAreBlank(posts)
    ensures DeletedAreBlank(Edited(posts, at, author, text, tags, ts))
       <==> !(at in posts && posts[at].author == author && posts[at].deleted && text != [])
  {
    var posts' := Edited(posts, at, author, text, tags, ts);
    if at in posts && posts[at].author == author {
      assert at in posts' && posts'[at].text == text && posts'[at].deleted == posts[at].deleted;
    }
  }

  /** One delivery keeps every deleted post blank exactly when it is not such an edit, or is a redelivery. */
  lemma DeliveryKeepsBlankIff(c: Codec, t: Tables, ev: SocialMessage)
    requires DeletedAreBlank(t.posts)
    ensures DeletedAreBlank(Next(c, t, ev).posts) <==> Hex(ev.id) in t.events || !EditsDeleted(c, t.posts, ev)
  {
    if PayloadOf(c, ev).Some? && Hex(ev.id) !in t.events {
      var p := PayloadOf(c, ev).value;
      var t0 := t.(events := t.events[Hex(ev.id) := RowOf(ev, p)]);
      ProjectedEvents(c, t0, ev, p);
      if Projected(c, t0, ev, p).Some? {
        ProjectedBlank(c, t0, ev, p);
      }
    }
  }

  /// Over a whole run

  /** An edit by a post's author that gives it a text. */
  predicate Edits(c: Codec, ev: SocialMessage, k: string, author: Bytes) {
    match PayloadOf(c, ev)
    case Some(PostEdit(post, text, _)) => Hex(post) == k && ev.author == author && text != []
    case _ => false
  }

  lemma SameIdSamePlace(es: seq<SocialMessage>, m: nat, i: nat)
    requires DistinctIds(es) && m < |es| && i < |es| && es[m].id == es[i].id
    ensures m == i
  {
  }

  /** Whatever says something about a post can be projected. */
  lemma SpeakerAcceptable(c: Codec, ev: SocialMessage, k: string, author: Bytes)
    requires TextSaid(c, ev, k, author).Some?
    ensures Acceptable(c, ev)
  {
  }

  /** The deletion of a deleted post comes after its creation. */
  lemma DeletionFollows(c: Codec, es: seq<SocialMessage>, k: string) returns (n: nat)
    requires DistinctIds(es) && k in Built(c, es).posts && Built(c, es).posts[k].deleted
    ensures n < |es| && Deletes(c, es[n], k, Built(c, es).posts[k].author)
    ensures forall i :: 0 <= i < |es| && Hex(es[i].id) == k ==> i < n
  {
    PostDeletedIff(c, es, k);
    n :| 0 <= n < |es| && k in PostsAlong(c, es)[n] && Deletes(c, es[n], k, Built(c, es).posts[k].author);
    assert PostsAlong(c, es)[n] == Built(c, es[..n]).posts;
    PostOrigin(c, es[..n], k);
    var e :| e in es[..n] && Hex(e.id) == k;
    var m :| 0 <= m < n && es[m] == e;
    forall i | 0 <= i < |es| && Hex(es[i].id) == k ensures i < n {
      HexInjective(e.id, es[i].id);
      SameIdSamePlace(es, m, i);
    }
  }

  /** The i-th event is the last to say anything about a post. */
  predicate SpeaksLast(c: Codec, es: seq<SocialMessage>, i: int, k: string, author: Bytes) {
    && 0 <= i < |es| && TextSaid(c, es[i], k, author).Some?
    && forall j :: i < j < |es| && Acceptable(c, es[j]) ==> TextSaid(c, es[j], k, author).None?
  }

  lemma SpeaksLastUnique(c: Codec, es: seq<SocialMessage>, i: int, n: int, k: string, author: Bytes)
    requires SpeaksLast(c, es, i, k, author) && 0 <= n < |es| && TextSaid(c, es[n], k, author).Some?
    ensures n <= i
  {
    SpeakerAcceptable(c, es[n], k, author);
  }

  /** When a post was deleted after its creation, its last text is not empty exactly when an edit gave it last. */
  lemma LastTextEdited(c: Codec, es: seq<SocialMessage>, i: nat, d: nat, k: string, author: Bytes)
    requires SpeaksLast(c, es, i, k, author) && d < |es| && Deletes(c, es[d], k, author)
    requires forall j :: 0 <= j < |es| && Hex(es[j].id) == k ==> j < d
    ensures TextSaid(c, es[i], k, author) != Some([]) <==>
              exists n :: SpeaksLast(c, es, n, k, author) && Edits(c, es[n], k, author)
    ensures forall n :: SpeaksLast(c, es, n, k, author) && Edits(c, es[n], k, author) ==> n == i && d < n
  {
    SpeaksLastUnique(c, es, i, d, k, author);
    forall n | SpeaksLast(c, es, n, k, author) ensures n == i {
      SpeaksLastUnique(c, es, i, n, k, author);
      SpeaksLastUnique(c, es, n, i, k, author);
    }
    assert TextSaid(c, es[i], k, author) != Some([]) <==> Edits(c, es[i], k, author);
  }

  /**
    Over any applied events, a deleted post holds a text exactly when the last event about it is an
    edit with a text by its author; a deletion by its author then comes before that edit.
   */
  lemma DeletedTextIff(c: Codec, es: seq<SocialMessage>, k: string)
    requires DistinctIds(es) && k in Built(c, es).posts && Built(c, es).posts[k].deleted
    ensures var post := Built(c, es).posts[k];
            post.text != [] <==> exists n :: SpeaksLast(c, es, n, k, post.author) && Edits(c, es[n], k, post.author)
    ensures var author := Built(c, es).posts[k].author;
            forall n :: SpeaksLast(c, es, n, k, author) && Edits(c, es[n], k, author) ==>
                          exists m :: 0 <= m < n && Deletes(c, es[m], k, author)
  {
    var author := Built(c, es).posts[k].author;
    var i := PostTextIsLatest(c, es, k);
    var d := DeletionFollows(c, es, k);
    LastTextEdited(c, es, i, d, k, author);
  }
}
