/** What each derived row says about the events applied: the latest word on edges and posts, and rows kept for good. */
module SocialMeaning {
  import opened Prelude
  import opened Canonical
  import opened Payloads
  import opened Social
  import opened SocialTables

  function PayloadOf(c: Codec, ev: SocialMessage): (p: Option<Payload>) {
    c.decode(ev.typ, ev.payload)
  }

  function At<K, V>(m: map<K, V>, k: K): (v: Option<V>) {
    if k in m then Some(m[k]) else None
  }

  /** How a row changes when nothing is said about it, or when its removal or its new value is said. */
  predicate Carries<K, V(==)>(m: map<K, V>, said: Option<Option<V>>, m': map<K, V>, key: K) {
    At(m', key) == match said case None => At(m, key) case Some(v) => v
  }

  /** The last event that says anything about a row decides it. */
  lemma {:induction false} LastWord<K, V>(es: seq<SocialMessage>, said: SocialMessage -> Option<Option<V>>,
                                          all: seq<map<K, V>>, key: K) returns (i: int)
    requires |all| == |es| + 1 && key !in all[0]
    requires forall n :: 0 <= n < |es| ==> Carries(all[n], said(es[n]), all[n + 1], key)
    ensures -1 <= i < |es| && (i >= 0 ==> said(es[i]).Some?)
    ensures forall j :: i < j < |es| ==> said(es[j]).None?
    ensures At(all[|es|], key) == if i < 0 then None else said(es[i]).value
    decreases |es|
  {
    i := |es| - 1;
    if i >= 0 {
      assert Carries(all[i], said(es[i]), all[i + 1], key);
      if said(es[i]).None? {
        i := LastWord(es[..i], said, all[..i + 1], key);
      }
    }
  }

  /// Follows and reactions: the last event about an edge decides

  /** What an event says about a follow: nothing, that it ends, or that it stands since a time. */
  function FollowSaid(c: Codec, ev: SocialMessage, author: Bytes, target: Bytes): (r: Option<Option<i64>>) {
    match PayloadOf(c, ev)
    case None => None
    case Some(p) =>
      if ev.author != author then None
      else if p == Follow(target) then Some(Some(Saturated(ev.timestamp)))
      else if p == Unfollow(target) then Some(None)
      else None
  }

  lemma ProjectedFollows(c: Codec, t: Tables, ev: SocialMessage, p: Payload)
    requires !p.Follow? && !p.Unfollow? && Projected(c, t, ev, p).Some?
    ensures Projected(c, t, ev, p).value.follows == t.follows
  {
  }

  lemma ProjectedEdge(c: Codec, t: Tables, ev: SocialMessage, p: Payload, author: Bytes, target: Bytes)
    requires p.Follow? || p.Unfollow?
    ensures var r := Projected(c, t, ev, p);
            r.Some? && At(r.value.follows, (author, target)) ==
                         if ev.author != author || p.target != target then At(t.follows, (author, target))
                         else if p.Follow? then Some(Saturated(ev.timestamp)) else None
  {
  }

  lemma RecordedFollow(c: Codec, t: Tables, ev: SocialMessage, author: Bytes, target: Bytes)
    ensures match Recorded(c, t, ev)
            case None => FollowSaid(c, ev, author, target).None?
            case Some(t') => Carries(t.follows, FollowSaid(c, ev, author, target), t'.follows, (author, target))
  {
    match PayloadOf(c, ev)
    case None =>
    case Some(p) =>
      var t0 := t.(events := t.events[Hex(ev.id) := RowOf(ev, p)]);
      assert Recorded(c, t, ev) == Projected(c, t0, ev, p);
      if p.Follow? || p.Unfollow? {
        ProjectedEdge(c, t0, ev, p, author, target);
      } else if Projected(c, t0, ev, p).Some? {
        ProjectedFollows(c, t0, ev, p);
      }
  }

  lemma BuiltFollow(c: Codec, es: seq<SocialMessage>, author: Bytes, target: Bytes)
    requires es != []
    ensures Carries(Built(c, es[..|es| - 1]).follows, FollowSaid(c, es[|es| - 1], author, target), Built(c, es).follows,
                    (author, target))
  {
    RecordedFollow(c, Built(c, es[..|es| - 1]), es[|es| - 1], author, target);
  }

  /** An account follows another exactly when the last event applied about the pair is a follow. */
  lemma FollowIsLatest(c: Codec, es: seq<SocialMessage>, author: Bytes, target: Bytes) returns (i: int)
    ensures -1 <= i < |es| && (i >= 0 ==> FollowSaid(c, es[i], author, target).Some?)
    ensures forall j :: i < j < |es| ==> FollowSaid(c, es[j], author, target).None?
    ensures At(Built(c, es).follows, (author, target))
         == if i < 0 then None else FollowSaid(c, es[i], author, target).value
  {
    var all := seq(|es| + 1, n requires 0 <= n <= |es| => Built(c, es[..n]).follows);
    var said := (ev: SocialMessage) => FollowSaid(c, ev, author, target);
    forall n | 0 <= n < |es| ensures Carries(all[n], said(es[n]), all[n + 1], (author, target)) {
      BuiltFollow(c, es[..n + 1], author, target);
      assert es[..n + 1][..n] == es[..n];
    }
    assert es[..|es|] == es;
    i := LastWord(es, said, all, (author, target));
  }

  function ReactionSaid(c: Codec, ev: SocialMessage, author: Bytes, target: string): (r: Option<Option<ReactionRow>>) {
    match PayloadOf(c, ev)
    case None => None
    case Some(p) =>
      if ev.author != author || !p.Reaction? || Hex(p.target) != target then None
      else if p.reaction == [] then Some(None)
      else Some(Some(ReactionRow(p.reaction, Saturated(ev.timestamp))))
  }

  lemma ProjectedReactions(c: Codec, t: Tables, ev: SocialMessage, p: Payload)
    requires !p.Reaction? && Projected(c, t, ev, p).Some?
    ensures Projected(c, t, ev, p).value.reactions == t.reactions
  {
  }

  lemma RecordedReaction(c: Codec, t: Tables, ev: SocialMessage, author: Bytes, target: string)
    ensures match Recorded(c, t, ev)
            case None => ReactionSaid(c, ev, author, target).None?
            case Some(t') => Carries(t.reactions, ReactionSaid(c, ev, author, target), t'.reactions, (author, target))
  {
    match PayloadOf(c, ev)
    case None =>
    case Some(p) =>
      var t0 := t.(events := t.events[Hex(ev.id) := RowOf(ev, p)]);
      if !p.Reaction? && Projected(c, t0, ev, p).Some? {
        ProjectedReactions(c, t0, ev, p);
      }
  }

  lemma BuiltReaction(c: Codec, es: seq<SocialMessage>, author: Bytes, target: string)
    requires es != []
    ensures Carries(Built(c, es[..|es| - 1]).reactions, ReactionSaid(c, es[|es| - 1], author, target),
                    Built(c, es).reactions, (author, target))
  {
    RecordedReaction(c, Built(c, es[..|es| - 1]), es[|es| - 1], author, target);
  }

  /** An author's reaction to a target is the one in the last event applied about it; an empty one removes it. */
  lemma ReactionIsLatest(c: Codec, es: seq<SocialMessage>, author: Bytes, target: string) returns (i: int)
    ensures -1 <= i < |es| && (i >= 0 ==> ReactionSaid(c, es[i], author, target).Some?)
    ensures forall j :: i < j < |es| ==> ReactionSaid(c, es[j], author, target).None?
    ensures At(Built(c, es).reactions, (author, target))
         == if i < 0 then None else ReactionSaid(c, es[i], author, target).value
  {
    var all := seq(|es| + 1, n requires 0 <= n <= |es| => Built(c, es[..n]).reactions);
    var said := (ev: SocialMessage) => ReactionSaid(c, ev, author, target);
    forall n | 0 <= n < |es| ensures Carries(all[n], said(es[n]), all[n + 1], (author, target)) {
      BuiltReaction(c, es[..n + 1], author, target);
      assert es[..n + 1][..n] == es[..n];
    }
    assert es[..|es|] == es;
    i := LastWord(es, said, all, (author, target));
  }

  /// Posts: the last word of the author

  /** What an event says about the text of a post of this id and author. */
  function TextSaid(c: Codec, ev: SocialMessage, k: string, author: Bytes): (r: Option<Bytes>) {
    match PayloadOf(c, ev)
    case None => None
    case Some(p) =>
      match p
      case PostCreate(text, _, _, _, _, _, _) => if Hex(ev.id) == k then Some(text) else None
      case PostEdit(post, text, _) => if Hex(post) == k && ev.author == author then Some(text) else None
      case PostDelete(post) => if Hex(post) == k && ev.author == author then Some([]) else None
      case _ => None
  }

  lemma ProjectedText(c: Codec, t: Tables, ev: SocialMessage, p: Payload, k: string)
    requires Projected(c, t, ev, p).Some? && PayloadOf(c, ev) == Some(p) && k in t.posts && Hex(ev.id) != k
    ensures var posts' := Projected(c, t, ev, p).value.posts;
            k in posts' && posts'[k].text == match TextSaid(c, ev, k, t.posts[k].author)
                                             case None => t.posts[k].text
                                             case Some(text) => text
  {
    match p
    case PostCreate(_, _, _, _, _, _, _) =>
    case PostEdit(_, _, _) =>
    case PostDelete(_) =>
    case _ => OtherPosts(c, t, ev, p);
  }

  lemma ProjectedNewText(c: Codec, t: Tables, ev: SocialMessage, p: Payload, k: string)
    requires Projected(c, t, ev, p).Some? && PayloadOf(c, ev) == Some(p)
    requires k !in t.posts && k in Projected(c, t, ev, p).value.posts
    ensures var post := Projected(c, t, ev, p).value.posts[k]; TextSaid(c, ev, k, post.author) == Some(post.text)
  {
    ProjectedPosts(c, t, ev, p, k);
  }

  lemma RecordedText(c: Codec, t: Tables, ev: SocialMessage, k: string)
    requires Recorded(c, t, ev).Some? && k in Recorded(c, t, ev).value.posts
    requires k in t.posts ==> Hex(ev.id) != k
    ensures var post := Recorded(c, t, ev).value.posts[k];
            if TextSaid(c, ev, k, post.author).Some? then post.text == TextSaid(c, ev, k, post.author).value
            else k in t.posts && t.posts[k].text == post.text && t.posts[k].author == post.author
  {
    var p := PayloadOf(c, ev).value;
    var t0 := t.(events := t.events[Hex(ev.id) := RowOf(ev, p)]);
    if k in t.posts {
      RecordedPosts(c, t, ev, k);
      ProjectedText(c, t0, ev, p, k);
    } else {
      ProjectedNewText(c, t0, ev, p, k);
    }
  }

  /** How one event carries a part of a post over: replaced when it says something about it, else kept. */
  predicate ShownStep<T(==)>(c: Codec, posts: map<string, Post>, ev: SocialMessage, posts': map<string, Post>, k: string,
                             said: (SocialMessage, Bytes) -> Option<T>, shown: Post -> T)
  {
    k in posts' ==>
      var author := posts'[k].author;
      if Acceptable(c, ev) && said(ev, author).Some? then said(ev, author) == Some(shown(posts'[k]))
      else k in posts && shown(posts[k]) == shown(posts'[k]) && posts[k].author == author
  }

  const TEXT := (post: Post) => post.text

  function TextBy(c: Codec, k: string): (said: (SocialMessage, Bytes) -> Option<Bytes>) {
    (ev: SocialMessage, author: Bytes) => TextSaid(c, ev, k, author)
  }

  lemma BuiltText(c: Codec, es: seq<SocialMessage>, k: string)
    requires es != [] && DistinctIds(es)
    ensures ShownStep(c, Built(c, es[..|es| - 1]).posts, es[|es| - 1], Built(c, es).posts, k, TextBy(c, k), TEXT)
  {
    var init, ev := es[..|es| - 1], es[|es| - 1];
    var t := Built(c, init);
    RecordedEvents(c, t, ev);
    if Recorded(c, t, ev).Some? && k in Built(c, es).posts {
      if k in t.posts {
        IdNotCreatedAgain(c, es, k);
      }
      RecordedText(c, t, ev, k);
    }
  }

  /** A part of a post is what the last event to say something about it said. */
  lemma {:induction false} LastShown<T>(c: Codec, es: seq<SocialMessage>, all: seq<map<string, Post>>, k: string,
                                        said: (SocialMessage, Bytes) -> Option<T>, shown: Post -> T) returns (i: nat)
    requires |all| == |es| + 1 && k !in all[0] && k in all[|es|]
    requires forall n :: 0 <= n < |es| ==> ShownStep(c, all[n], es[n], all[n + 1], k, said, shown)
    ensures var post := all[|es|][k];
            && i < |es| && said(es[i], post.author) == Some(shown(post))
            && forall j :: i < j < |es| && Acceptable(c, es[j]) ==> said(es[j], post.author).None?
    decreases |es|
  {
    i := |es| - 1;
    assert ShownStep(c, all[i], es[i], all[i + 1], k, said, shown);
    var author := all[|es|][k].author;
    if !Acceptable(c, es[i]) || said(es[i], author).None? {
      i := LastShown(c, es[..i], all[..i + 1], k, said, shown);
    }
  }

  lemma DistinctIdsPrefix(es: seq<SocialMessage>, n: nat)
    requires DistinctIds(es) && n <= |es|
    ensures DistinctIds(es[..n])
  {
  }

  /** A post shows what the last event to touch it said: its creation, or an edit or deletion by its author. */
  lemma PostTextIsLatest(c: Codec, es: seq<SocialMessage>, k: string) returns (i: nat)
    requires DistinctIds(es) && k in Built(c, es).posts
    ensures var post := Built(c, es).posts[k];
            && i < |es| && TextSaid(c, es[i], k, post.author) == Some(post.text)
            && forall j :: i < j < |es| && Acceptable(c, es[j]) ==> TextSaid(c, es[j], k, post.author).None?
  {
    var all := seq(|es| + 1, n requires 0 <= n <= |es| => Built(c, es[..n]).posts);
    forall n | 0 <= n < |es| ensures ShownStep(c, all[n], es[n], all[n + 1], k, TextBy(c, k), TEXT) {
      DistinctIdsPrefix(es, n + 1);
      BuiltText(c, es[..n + 1], k);
      assert es[..n + 1][..n] == es[..n];
    }
    assert es[..|es|] == es;
    i := LastShown(c, es, all, k, TextBy(c, k), TEXT);
  }

  lemma IdNotCreatedAgain(c: Codec, es: seq<SocialMessage>, k: string)
    requires es != [] && DistinctIds(es) && k in Built(c, es[..|es| - 1]).posts
    ensures Hex(es[|es| - 1].id) != k
  {
    var n := |es| - 1;
    PostOrigin(c, es[..n], k);
    var e :| e in es[..n] && Hex(e.id) == k;
    var m :| 0 <= m < n && es[m] == e;
    assert es[m].id != es[n].id;
    if Hex(es[n].id) == k {
      HexInjective(e.id, es[n].id);
    }
  }

  predicate Deletes(c: Codec, ev: SocialMessage, k: string, author: Bytes) {
    match PayloadOf(c, ev)
    case Some(PostDelete(post)) => Hex(post) == k && ev.author == author
    case _ => false
  }

  /** Who may delete a row, and whether it is marked deleted. */
  datatype Mark = Mark(author: Bytes, deleted: bool)

  /** How one event carries the deletion mark of a post or a reel over. */
  predicate MarkStep(c: Codec, m: Option<Mark>, ev: SocialMessage, m': Option<Mark>, k: string) {
    match (m, m')
    case (None, None) => true
    case (None, Some(after)) => !after.deleted
    case (Some(_), None) => false
    case (Some(before), Some(after)) =>
      after.author == before.author && (after.deleted <==> before.deleted || Deletes(c, ev, k, before.author))
  }

  /** A row is marked deleted exactly when its author deleted it after it was there. */
  lemma {:induction false} MarkedIff(c: Codec, es: seq<SocialMessage>, marks: seq<Option<Mark>>, k: string)
    requires |marks| == |es| + 1 && marks[0] == None && marks[|es|].Some?
    requires forall n :: 0 <= n < |es| ==> MarkStep(c, marks[n], es[n], marks[n + 1], k)
    ensures var last := marks[|es|].value;
            last.deleted <==> exists n :: 0 <= n < |es| && marks[n].Some? && Deletes(c, es[n], k, last.author)
    decreases |es|
  {
    var n := |es| - 1;
    assert MarkStep(c, marks[n], es[n], marks[n + 1], k);
    if marks[n].Some? {
      MarkedIff(c, es[..n], marks[..n + 1], k);
      assert forall j :: 0 <= j < n ==> es[..n][j] == es[j] && marks[..n + 1][j] == marks[j];
    } else {
      UnmarkedBefore(c, es, marks, k, n);
    }
  }

  /** A row once there stays there. */
  lemma {:induction false} UnmarkedBefore(c: Codec, es: seq<SocialMessage>, marks: seq<Option<Mark>>, k: string, n: nat)
    requires |marks| == |es| + 1 && n < |es| && marks[n].None?
    requires forall i :: 0 <= i < |es| ==> MarkStep(c, marks[i], es[i], marks[i + 1], k)
    ensures forall i :: 0 <= i <= n ==> marks[i].None?
    decreases n
  {
    if n > 0 {
      assert MarkStep(c, marks[n - 1], es[n - 1], marks[n], k);
      UnmarkedBefore(c, es, marks, k, n - 1);
    }
  }

  function PostMark(posts: map<string, Post>, k: string): (m: Option<Mark>) {
    if k in posts then Some(Mark(posts[k].author, posts[k].deleted)) else None
  }

  lemma ProjectedMark(c: Codec, t: Tables, ev: SocialMessage, p: Payload, k: string)
    requires Projected(c, t, ev, p).Some? && PayloadOf(c, ev) == Some(p)
    ensures MarkStep(c, PostMark(t.posts, k), ev, PostMark(Projected(c, t, ev, p).value.posts, k), k)
  {
    match p
    case PostCreate(_, _, _, _, _, _, _) =>
    case PostEdit(_, _, _) =>
    case PostDelete(_) =>
    case _ => OtherPosts(c, t, ev, p);
  }

  lemma BuiltMark(c: Codec, es: seq<SocialMessage>, k: string)
    requires es != []
    ensures MarkStep(c, PostMark(Built(c, es[..|es| - 1]).posts, k), es[|es| - 1], PostMark(Built(c, es).posts, k), k)
  {
    var init, ev := es[..|es| - 1], es[|es| - 1];
    var t := Built(c, init);
    RecordedEvents(c, t, ev);
    if Recorded(c, t, ev).Some? {
      var p := PayloadOf(c, ev).value;
      ProjectedMark(c, t.(events := t.events[Hex(ev.id) := RowOf(ev, p)]), ev, p, k);
    }
  }

  /** The posts table before each event, and after the last. */
  function PostsAlong(c: Codec, es: seq<SocialMessage>): (all: seq<map<string, Post>>)
    ensures |all| == |es| + 1
  {
    seq(|es| + 1, n requires 0 <= n <= |es| => Built(c, es[..n]).posts)
  }

  lemma MarkAlong(c: Codec, es: seq<SocialMessage>, k: string, n: nat)
    requires n < |es|
    ensures MarkStep(c, PostMark(PostsAlong(c, es)[n], k), es[n], PostMark(PostsAlong(c, es)[n + 1], k), k)
  {
    BuiltMark(c, es[..n + 1], k);
    assert es[..n + 1][..n] == es[..n];
  }

  /** A post is marked deleted exactly when its author deleted it after it was there. */
  lemma PostDeletedIff(c: Codec, es: seq<SocialMessage>, k: string)
    requires k in Built(c, es).posts
    ensures var post, all := Built(c, es).posts[k], PostsAlong(c, es);
            post.deleted <==> exists n :: 0 <= n < |es| && k in all[n] && Deletes(c, es[n], k, post.author)
  {
    var all := PostsAlong(c, es);
    var marks := seq(|es| + 1, n requires 0 <= n <= |es| => PostMark(all[n], k));
    forall n | 0 <= n < |es| ensures MarkStep(c, marks[n], es[n], marks[n + 1], k) {
      MarkAlong(c, es, k, n);
    }
    assert es[..|es|] == es;
    MarkedIff(c, es, marks, k);
    assert forall n :: 0 <= n < |es| ==> (marks[n].Some? <==> k in all[n]);
  }
}
