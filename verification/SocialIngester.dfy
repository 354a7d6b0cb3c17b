/**
  The ingester object of indexer/social.go. `faults` fixes which of the coming reads, fetches and
  transactions fail; a process may stop after any of them, for nothing lives outside the database.
  `history` holds every event whose transaction was committed, in order.
 */
module SocialIngester {
  import opened Prelude
  import opened Canonical
  import opened Signing
  import opened Payloads
  import opened Social

  /** What VerifyEvent checks against. */
  datatype Verifier = Verifier(identity: Identity, hash: Bytes -> Bytes, signedBy: (Bytes, Bytes, Bytes) -> bool)

  /** An event as the node renders it: the id as text, and the event when every hex field decodes. */
  datatype NodeEvent = NodeEvent(id: string, event: Option<SocialMessage>)

  datatype Cursor = Cursor(ts: u64, id: string)

  predicate Accepts(v: Verifier, n: NodeEvent) {
    n.event.Some? && VerifyEvent(v.identity, v.hash, v.signedBy, n.event.value)
  }

  /** The events of a page that decode and verify. */
  function Accepted(v: Verifier, page: seq<NodeEvent>): (es: seq<SocialMessage>)
    decreases |page|
  {
    if page == [] then []
    else
      var n := page[|page| - 1];
      Accepted(v, page[..|page| - 1]) + (if Accepts(v, n) then [n.event.value] else [])
  }

  /** The position of the last accepted event of a page. */
  function LastAccepted(v: Verifier, page: seq<NodeEvent>): (c: Option<Cursor>)
    decreases |page|
  {
    if page == [] then None
    else
      var n := page[|page| - 1];
      if Accepts(v, n) then Some(Cursor(n.event.value.timestamp, n.id)) else LastAccepted(v, page[..|page| - 1])
  }

  lemma {:induction false} AcceptedPrefix(v: Verifier, page: seq<NodeEvent>, i: nat)
    requires i <= |page|
    ensures Accepted(v, page[..i]) <= Accepted(v, page)
    decreases |page|
  {
    if i < |page| {
      AcceptedPrefix(v, page[..|page| - 1], i);
      assert page[..|page| - 1][..i] == page[..i];
    } else {
      assert page[..i] == page;
    }
  }

  /// What acceptance means

  /**
    An event of this network whose id is the hash of the string signed for it, with a 32-byte device
    key and a signature of that string under it.
   */
  predicate Authentic(v: Verifier, ev: SocialMessage) {
    && ev.networkId == v.identity.networkId && |ev.devicePubkey| == 32 && EventBounded(ev)
    && AllFramable(EventFields(ev))
    && var signed := SigningPreimage(v.identity, Ascii("social-event"), EncodedAll(EventFields(ev)));
    v.hash(signed) == ev.id && v.signedBy(ev.devicePubkey, signed, ev.signature)
  }

  predicate IsAuthentic(v: Verifier, n: NodeEvent) {
    n.event.Some? && Authentic(v, n.event.value)
  }

  lemma AcceptsAuthentic(v: Verifier, n: NodeEvent)
    ensures Accepts(v, n) <==> IsAuthentic(v, n)
  {
    if n.event.Some? {
      EventFinishes(n.event.value);
    }
  }

  lemma {:induction false} AcceptedAuthentic(v: Verifier, page: seq<NodeEvent>)
    ensures forall e <- Accepted(v, page) :: Authentic(v, e)
    ensures forall n <- page :: IsAuthentic(v, n) ==> n.event.value in Accepted(v, page)
    decreases |page|
  {
    if page != [] {
      var init, n := page[..|page| - 1], page[|page| - 1];
      AcceptedAuthentic(v, init);
      AcceptsAuthentic(v, n);
      assert page == init + [n];
    }
  }

  /** The i-th event of a page is the last authentic one. */
  predicate LastAuthentic(v: Verifier, page: seq<NodeEvent>, i: int) {
    0 <= i < |page| && IsAuthentic(v, page[i]) && forall j :: i < j < |page| ==> !IsAuthentic(v, page[j])
  }

  lemma {:induction false} LastAcceptedIs(v: Verifier, page: seq<NodeEvent>, i: int)
    requires LastAuthentic(v, page, i)
    ensures LastAccepted(v, page) == Some(Cursor(page[i].event.value.timestamp, page[i].id))
    decreases |page|
  {
    AcceptsAuthentic(v, page[|page| - 1]);
    if i < |page| - 1 {
      LastAcceptedIs(v, page[..|page| - 1], i);
    }
  }

  lemma {:induction false} NoneAccepted(v: Verifier, page: seq<NodeEvent>)
    requires forall n <- page :: !IsAuthentic(v, n)
    ensures LastAccepted(v, page) == None
    decreases |page|
  {
    if page != [] {
      AcceptsAuthentic(v, page[|page| - 1]);
      NoneAccepted(v, page[..|page| - 1]);
    }
  }

  /** Whatever a poll adds to the history is authentic. */
  lemma AddedAuthentic(v: Verifier, page: seq<NodeEvent>, past: seq<SocialMessage>, now: seq<SocialMessage>)
    requires past <= now <= past + Accepted(v, page)
    ensures forall e <- now[|past|..] :: Authentic(v, e)
    ensures now == past + Accepted(v, page) ==> forall n <- page :: IsAuthentic(v, n) ==> n.event.value in now[|past|..]
  {
    AcceptedAuthentic(v, page);
    var es := Accepted(v, page);
    assert now[|past|..] <= es;
    assert forall e <- now[|past|..] :: e in es;
    if now == past + es {
      assert now[|past|..] == es;
    }
  }

  /** Every authentic event of a page can be projected. */
  predicate AllAcceptable(c: Codec, v: Verifier, page: seq<NodeEvent>) {
    forall n <- page :: IsAuthentic(v, n) ==> Acceptable(c, n.event.value)
  }

  class Ingester {
    const codec: Codec
    const verifier: Verifier
    var tables: Tables
    var cursor: Option<Cursor>
    var faults: seq<bool>
    ghost var history: seq<SocialMessage>

    /** A position, if any, names an event that has been projected. */
    ghost predicate Projects(c: Option<Cursor>)
      reads this
    {
      c.Some? ==> exists e <- history :: e.timestamp == c.value.ts && Hex(e.id) in tables.events
    }

    ghost predicate Valid()
      reads this
    {
      tables == Delivered(codec, EMPTY, history) && Projects(cursor)
    }

    constructor (codec: Codec, verifier: Verifier, faults: seq<bool>)
      ensures Valid() && history == [] && this.codec == codec && this.verifier == verifier
    {
      this.codec, this.verifier, this.faults := codec, verifier, faults;
      tables, cursor, history := EMPTY, None, [];
    }

    /** In every state, whatever failed and whatever was delivered twice. */
    lemma EachEventOnce()
      requires Valid()
      ensures tables == Built(codec, FirstApplied(codec, history)) && DistinctIds(FirstApplied(codec, history))
    {
      ExactlyOnce(codec, history);
      FirstAppliedDistinct(codec, history);
    }

    method Attempt() returns (ok: bool)
      modifies this`faults
      ensures old(faults) == [] ==> ok && faults == []
    {
      if faults == [] {
        return true;
      }
      ok := !faults[0];
      faults := faults[1..];
    }

    /** Whether events and history have only grown since a state; positions then stay projected. */
    ghost predicate Since(events: set<string>, past: seq<SocialMessage>)
      reads this
    {
      events <= tables.events.Keys && past <= history
    }

    twostate lemma StillProjects(c: Option<Cursor>)
      requires old(Projects(c)) && Since(old(tables.events.Keys), old(history))
      ensures Projects(c)
    {
      if c.Some? {
        var e :| e in old(history) && e.timestamp == c.value.ts && Hex(e.id) in old(tables.events);
        assert e in history;
      }
    }

    method Commit(tx: Tables, ev: SocialMessage)
      requires Valid() && Applied(codec, tables, ev) == Some(tx)
      modifies this`tables, this`history
      ensures Valid() && tables == tx && history == old(history) + [ev]
      ensures tables.events.Keys == old(tables.events.Keys) + {Hex(ev.id)}
    {
      RecordedEvents(codec, tables, ev);
      tables := tx;
      assert (history + [ev])[..|history|] == history;
      history := history + [ev];
      StillProjects(cursor);
    }

    method Apply(ev: SocialMessage) returns (r: Outcome)
      requires Valid()
      modifies this`tables, this`faults, this`history
      ensures Valid()
      ensures r.Ok? ==> Applied(codec, old(tables), ev) == Some(tables) && history == old(history) + [ev]
      ensures r.Ok? ==> tables.events.Keys == old(tables.events.Keys) + {Hex(ev.id)}
      ensures r.Failed? ==> tables == old(tables) && history == old(history)
      ensures Applied(codec, old(tables), ev).None? ==> r.Failed?
      ensures old(faults) == [] ==> faults == [] && (Acceptable(codec, ev) ==> r.Ok?)
    {
      var ok := Attempt();
      var payload := codec.decode(ev.typ, ev.payload);
      if !ok || payload.None? {
        return Failed;
      }
      // the statements of the transaction and its commit
      ok := Attempt();
      if !ok {
        return Failed;
      }
      var tx := tables;
      if Hex(ev.id) !in tables.events {
        tx := tx.(events := tx.events[Hex(ev.id) := RowOf(ev, payload.value)]);
        var projected := Projected(codec, tx, ev, payload.value);
        if projected.None? {
          ProjectedEvents(codec, tx, ev, payload.value);
          return Failed;
        }
        tx := projected.value;
      }
      Commit(tx, ev);
      r := Ok;
    }

    /** One event of a page: skipped when it does not decode or verify. */
    method Take(n: NodeEvent) returns (r: Outcome)
      requires Valid()
      modifies this`tables, this`faults, this`history
      ensures Valid() && Since(old(tables.events.Keys), old(history))
      ensures r.Ok? ==> history == old(history) + (if Accepts(verifier, n) then [n.event.value] else [])
      ensures r.Ok? && Accepts(verifier, n) ==> Hex(n.event.value.id) in tables.events
      ensures r.Failed? ==> history == old(history)
      ensures old(faults) == [] ==>
                faults == [] && ((IsAuthentic(verifier, n) ==> Acceptable(codec, n.event.value)) ==> r.Ok?)
    {
      AcceptsAuthentic(verifier, n);
      r := Ok;
      if Accepts(verifier, n) {
        r := Apply(n.event.value);
      }
    }

    method TakePage(page: seq<NodeEvent>) returns (r: Outcome, last: Option<Cursor>)
      requires Valid()
      modifies this`tables, this`faults, this`history
      ensures Valid()
      ensures old(history) <= history <= old(history) + Accepted(verifier, page)
      ensures r.Ok? ==> history == old(history) + Accepted(verifier, page)
      ensures r.Ok? ==> last == LastAccepted(verifier, page) && Projects(last)
      ensures r.Ok? ==> forall e <- Accepted(verifier, page) :: Hex(e.id) in tables.events
      ensures forall e <- history[|old(history)|..] :: Authentic(verifier, e)
      ensures r.Ok? ==> forall n <- page :: IsAuthentic(verifier, n) ==> n.event.value in history[|old(history)|..]
      ensures old(faults) == [] ==> faults == [] && (AllAcceptable(codec, verifier, page) ==> r.Ok?)
    {
      last := None;
      for i := 0 to |page|
        invariant Valid()
        invariant history == old(history) + Accepted(verifier, page[..i])
        invariant last == LastAccepted(verifier, page[..i]) && Projects(last)
        invariant forall e <- Accepted(verifier, page[..i]) :: Hex(e.id) in tables.events
        invariant old(faults) == [] ==> faults == []
      {
        var n := page[i];
        assert page[..i + 1][..i] == page[..i];
        label Before:
        var taken := Take(n);
        if taken.Failed? {
          AcceptedPrefix(verifier, page, i);
          AddedAuthentic(verifier, page, old(history), history);
          return Failed, None;
        }
        StillProjects@Before(last);
        Associates(old(history), Accepted(verifier, page[..i]), if Accepts(verifier, n) then [n.event.value] else []);
        if Accepts(verifier, n) {
          assert n.event.value in history;
          last := Some(Cursor(n.event.value.timestamp, n.id));
        }
      }
      assert page[..|page|] == page;
      AddedAuthentic(verifier, page, old(history), history);
      r := Ok;
    }

    /** One poll. A failure anywhere leaves the cursor, and a prefix of the page projected. */
    method Step(page: seq<NodeEvent>) returns (r: Outcome)
      requires Valid()
      modifies this`tables, this`cursor, this`faults, this`history
      ensures Valid()
      ensures old(history) <= history <= old(history) + Accepted(verifier, page)
      ensures r.Failed? ==> cursor == old(cursor)
      ensures r.Ok? ==> history == old(history) + Accepted(verifier, page)
      ensures r.Ok? ==> cursor == if LastAccepted(verifier, page).Some? then LastAccepted(verifier, page) else old(cursor)
      ensures r.Ok? ==> forall e <- Accepted(verifier, page) :: Hex(e.id) in tables.events
      ensures forall e <- history[|old(history)|..] :: Authentic(verifier, e)
      ensures r.Ok? ==> forall n <- page :: IsAuthentic(verifier, n) ==> n.event.value in history[|old(history)|..]
      ensures r.Ok? ==> forall i :: LastAuthentic(verifier, page, i) ==>
                                      cursor == Some(Cursor(page[i].event.value.timestamp, page[i].id))
      ensures r.Ok? && (forall n <- page :: !IsAuthentic(verifier, n)) ==> cursor == old(cursor)
      ensures old(faults) == [] ==> faults == [] && (AllAcceptable(codec, verifier, page) ==> r.Ok?)
    {
      forall i | LastAuthentic(verifier, page, i)
        ensures LastAccepted(verifier, page) == Some(Cursor(page[i].event.value.timestamp, page[i].id))
      {
        LastAcceptedIs(verifier, page, i);
      }
      if forall n <- page :: !IsAuthentic(verifier, n) {
        NoneAccepted(verifier, page);
      }
      // the cursor read and the fetch
      var ok := Attempt();
      if !ok {
        return Failed;
      }
      var last;
      r, last := TakePage(page);
      if r.Ok? && last.Some? {
        ok := Attempt();
        if !ok {
          return Failed;
        }
        cursor := last;
      }
    }
  }

  /**
    A poll that stopped after any prefix of its page, followed by a whole poll of the same page,
    leaves the tables of a poll that never stopped.
   */
  lemma CrashedPollRecovers(c: Codec, v: Verifier, history: seq<SocialMessage>, page: seq<NodeEvent>, k: nat)
    requires k <= |Accepted(v, page)|
    ensures var es := Accepted(v, page);
            Delivered(c, EMPTY, (history + es[..k]) + es) == Delivered(c, EMPTY, history + es)
  {
    var es := Accepted(v, page);
    DeliveredConcat(c, EMPTY, history + es[..k], es);
    DeliveredConcat(c, EMPTY, history, es[..k]);
    InterruptedBatch(c, Delivered(c, EMPTY, history), es, k);
    DeliveredConcat(c, EMPTY, history, es);
  }
}
