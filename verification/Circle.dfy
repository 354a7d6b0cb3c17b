/**
  Circles (node/hashgram-app/src/circle.rs): what a circle event may be, and the timeline state it
  leads to. A string is its UTF-8 bytes, one `char` each, so lengths are lengths in bytes.
 */
module Circle {
  import opened Prelude

  const CIRCLE_VERSION := 1
  const ID_LEN := 16
  const MAX_TEXT := 64 * 1024
  const MAX_MEDIA := 20
  const MAX_POLL_OPTIONS := 12
  const MAX_TIMELINE := 50_000

  /// Events

  datatype Blob = Blob(raw: seq<byte>)
  datatype Capability = Capability(raw: seq<byte>)
  datatype Poll = Poll(question: string, options: seq<string>, multipleChoice: bool, closesAtMs: nat)
  datatype Info = Info(name: string, description: string, avatar: Option<Blob>, historyVisible: bool)

  datatype Body =
    | InfoBody(info: Info)
    | PostBody(text: string, media: seq<Blob>, driveRefs: seq<Capability>, poll: Option<Poll>)
    | CommentBody(postId: seq<byte>, replyTo: seq<byte>, comment: string)
    | ReactionBody(targetId: seq<byte>, reaction: string)
    | VoteBody(pollId: seq<byte>, optionIndexes: seq<nat>)
    | DeleteBody(deletedId: seq<byte>)
    | UnknownBody

  datatype Event = Event(version: nat, eventId: seq<byte>, atMs: nat, body: Body)

  predicate IsId(b: seq<byte>) {
    |b| == ID_LEN
  }

  predicate BoundedText(s: string, max: nat) {
    |s| <= max && '\0' !in s
  }

  predicate FilledText(s: string, max: nat) {
    s != "" && BoundedText(s, max)
  }

  predicate ValidPoll(p: Poll) {
    && FilledText(p.question, 512)
    && 2 <= |p.options| <= MAX_POLL_OPTIONS
    && forall o <- p.options :: FilledText(o, 128)
  }

  /** `grants` stands for the drive module's own check of a capability. */
  predicate Valid(grants: Capability -> bool, e: Event) {
    && e.version == CIRCLE_VERSION
    && IsId(e.eventId)
    && match e.body
       case InfoBody(i) => BoundedText(i.name, 128) && BoundedText(i.description, 4096)
       case PostBody(text, media, refs, poll) =>
         && BoundedText(text, MAX_TEXT)
         && |media| <= MAX_MEDIA
         && (forall c <- refs :: grants(c))
         && (poll.Some? ==> ValidPoll(poll.value))
         && !(text == "" && media == [] && refs == [] && poll.None?)
       case CommentBody(post, reply, text) => IsId(post) && (reply == [] || IsId(reply)) && FilledText(text, MAX_TEXT)
       case ReactionBody(target, reaction) => IsId(target) && BoundedText(reaction, 32)
       case VoteBody(post, options) => IsId(post) && |options| <= MAX_POLL_OPTIONS
       case DeleteBody(target) => IsId(target)
       case UnknownBody => false
  }

  /// The timeline

  datatype Kind = PostItem | CommentItem

  datatype Item = Item(id: string, kind: Kind, author: string, atMs: nat, text: string, postId: string,
                       replyTo: string, media: seq<Blob>, driveRefs: seq<Capability>, poll: Option<Poll>,
                       reactions: map<string, nat>, votes: map<nat, nat>, deleted: bool)

  /** (target, author): at most one reaction and one ballot for each. */
  type Slot = (string, string)

  datatype State = State(info: Info, items: seq<Item>, reactions: map<Slot, string>,
                         votes: map<Slot, seq<nat>>, seen: set<string>)

  const EMPTY := State(Info("", "", None, false), [], map[], map[], {})

  /** The first item with this id (a post, when only posts count); the length when there is none. */
  function IndexOf(items: seq<Item>, id: string, postsOnly: bool): (i: nat)
    ensures i <= |items|
    ensures i < |items| ==> items[i].id == id && (postsOnly ==> items[i].kind.PostItem?)
    ensures forall j :: 0 <= j < i ==> items[j].id != id || (postsOnly && !items[j].kind.PostItem?)
  {
    if items == [] then 0
    else if items[0].id == id && (postsOnly ==> items[0].kind.PostItem?) then 0
    else 1 + IndexOf(items[1..], id, postsOnly)
  }

  /// Counters

  /** `saturating_sub(1)`, and the key goes with the last one. */
  function Decremented(c: map<string, nat>, r: string): (c': map<string, nat>) {
    if r !in c then c else if c[r] <= 1 then c - {r} else c[r := c[r] - 1]
  }

  function Incremented<K>(c: map<K, nat>, r: K): (c': map<K, nat>) {
    c[r := (if r in c then c[r] else 0) + 1]
  }

  /** Takes one ballot out of a tally; a count that reaches zero keeps its key. */
  function Uncounted(c: map<nat, nat>, ballot: seq<nat>): (c': map<nat, nat>)
    decreases |ballot|
  {
    if ballot == [] then c
    else
      var rest := Uncounted(c, ballot[..|ballot| - 1]);
      var o := ballot[|ballot| - 1];
      if o in rest then rest[o := if rest[o] == 0 then 0 else rest[o] - 1] else rest
  }

  function Counted(c: map<nat, nat>, ballot: seq<nat>): (c': map<nat, nat>)
    decreases |ballot|
  {
    if ballot == [] then c else Incremented(Counted(c, ballot[..|ballot| - 1]), ballot[|ballot| - 1])
  }

  /** The options below `n` among the given ones, in ascending order and once each. */
  function Ascending(options: seq<nat>, n: nat): (s: seq<nat>) {
    if n == 0 then []
    else Ascending(options, n - 1) + (if n - 1 in options then [n - 1] else [])
  }

  function Ballot(options: seq<nat>, poll: Poll): (s: seq<nat>) {
    var s := Ascending(options, |poll.options|);
    if !poll.multipleChoice && |s| > 1 then s[..1] else s
  }

  /// Transitions

  function Pushed(items: seq<Item>, item: Item): (r: seq<Item>) {
    var all := items + [item];
    if |all| > MAX_TIMELINE then all[|all| - MAX_TIMELINE..] else all
  }

  function Retracted(s: State, key: Slot, i: nat): (r: State)
    requires i <= |s.items|
  {
    if key !in s.reactions then s
    else if i == |s.items| then s.(reactions := s.reactions - {key})
    else s.(reactions := s.reactions - {key},
            items := s.items[i := s.items[i].(reactions := Decremented(s.items[i].reactions, s.reactions[key]))])
  }

  function Reacted(s: State, author: string, target: string, reaction: string): (r: State) {
    var key, i := (target, author), IndexOf(s.items, target, false);
    var s1 := Retracted(s, key, i);
    if reaction == "" || i == |s.items| then s1
    else s1.(reactions := s1.reactions[key := reaction],
             items := s1.items[i := s1.items[i].(reactions := Incremented(s1.items[i].reactions, reaction))])
  }

  predicate Closed(poll: Poll, atMs: nat) {
    poll.closesAtMs != 0 && atMs > poll.closesAtMs
  }

  /** Which item a vote counts on: an open poll of a post still on the timeline. */
  predicate Votable(items: seq<Item>, i: nat, atMs: nat)
    requires i <= |items|
  {
    i < |items| && items[i].poll.Some? && !Closed(items[i].poll.value, atMs)
  }

  function Voted(s: State, author: string, post: string, options: seq<nat>, atMs: nat): (r: State) {
    var key, i := (post, author), IndexOf(s.items, post, true);
    if !Votable(s.items, i, atMs) then s
    else
      var item := s.items[i];
      var ballot := Ballot(options, item.poll.value);
      var open := if key in s.votes then Uncounted(item.votes, s.votes[key]) else item.votes;
      s.(votes := s.votes[key := ballot], items := s.items[i := item.(votes := Counted(open, ballot))])
  }

  function Deleted(s: State, author: string, target: string): (r: State) {
    var i := IndexOf(s.items, target, false);
    if i == |s.items| || s.items[i].author != author then s
    else s.(items := s.items[i := s.items[i].(deleted := true, text := "", media := [], driveRefs := [])])
  }

  function NewPost(e: Event, author: string): (item: Item)
    requires e.body.PostBody?
  {
    Item(Hex(e.eventId), PostItem, author, e.atMs, e.body.text, "", "", e.body.media, e.body.driveRefs,
         e.body.poll, map[], map[], false)
  }

  function NewComment(e: Event, author: string): (item: Item)
    requires e.body.CommentBody?
  {
    Item(Hex(e.eventId), CommentItem, author, e.atMs, e.body.comment, Hex(e.body.postId), Hex(e.body.replyTo),
         [], [], None, map[], map[], false)
  }

  /** The effect of an event on a timeline that has just seen it. */
  function Projected(s: State, author: string, e: Event): (r: State) {
    match e.body
    case InfoBody(i) => s.(info := i)
    case PostBody(_, _, _, _) => s.(items := Pushed(s.items, NewPost(e, author)))
    case CommentBody(_, _, _) => s.(items := Pushed(s.items, NewComment(e, author)))
    case ReactionBody(target, reaction) => Reacted(s, author, Hex(target), reaction)
    case VoteBody(post, options) => Voted(s, author, Hex(post), options, e.atMs)
    case DeleteBody(target) => Deleted(s, author, Hex(target))
    case UnknownBody => s
  }

  function Applied(grants: Capability -> bool, s: State, author: string, e: Event): (r: State) {
    var id := Hex(e.eventId);
    if !Valid(grants, e) || id in s.seen then s
    else Projected(s.(seen := s.seen + {id}), author, e)
  }

  datatype Delivery = Delivery(author: string, event: Event)

  /** A whole run: deliveries in arrival order. */
  function Folded(grants: Capability -> bool, s: State, ds: seq<Delivery>): (r: State)
    decreases |ds|
  {
    if ds == [] then s
    else
      var d := ds[|ds| - 1];
      Applied(grants, Folded(grants, s, ds[..|ds| - 1]), d.author, d.event)
  }
}
