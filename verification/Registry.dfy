/**
  Walking a paged listing with a persisted cursor (paginate in indexer/chain.go). A listing is its
  pages, and an empty listing is one empty page; the cursor is empty (0) or the key of a later page,
  named here by the page's position. `faults` fixes which of the coming fetches, callbacks and
  cursor writes fail; every contract holds for every schedule.
 */
module Registry {
  import opened Prelude

  const MAX_REGISTRY_PAGES := 1000

  /** How a call ends: nil, the page-bound error, or another error. */
  datatype Walk = Done | Incomplete | Broken

  function Flatten<T>(pages: seq<seq<T>>): (items: seq<T>)
    decreases |pages|
  {
    if pages == [] then [] else Flatten(pages[..|pages| - 1]) + pages[|pages| - 1]
  }

  lemma FlattenNext<T>(pages: seq<seq<T>>, k: nat)
    requires k < |pages|
    ensures Flatten(pages[..k + 1]) == Flatten(pages[..k]) + pages[k]
    ensures k + 1 == |pages| ==> Flatten(pages[..k + 1]) == Flatten(pages)
  {
    assert pages[..k + 1][..k] == pages[..k];
    assert pages[..|pages|] == pages;
  }

  /** Every item of the first `n` pages is among these. */
  ghost predicate Held<T>(listing: seq<seq<T>>, n: nat, items: seq<T>) {
    n <= |listing| && forall p, x :: 0 <= p < n && x in listing[p] ==> x in items
  }

  lemma HeldMore<T>(listing: seq<seq<T>>, n: nat, items: seq<T>, more: seq<T>)
    requires Held(listing, n, items)
    ensures Held(listing, n, items + more)
  {
  }

  lemma HeldNext<T>(listing: seq<seq<T>>, n: nat, items: seq<T>)
    requires Held(listing, n, items) && n < |listing|
    ensures Held(listing, n + 1, items + listing[n])
  {
  }

  /** The cursor can be read, the fetch for it is refused, and the cursor can be cleared. */
  predicate Refused(faults: seq<bool>) {
    2 <= |faults| && !faults[0] && faults[1] && (|faults| == 2 || !faults[2])
  }

  class Pager<T(==)> {
    /** The persisted cursor. */
    var cursor: nat
    var faults: seq<bool>
    /** Everything handed to the callback since the first page was last asked for. */
    ghost var walked: seq<T>

    /** Every page before the cursor has been handed over completely. */
    ghost predicate Covers(listing: seq<seq<T>>)
      reads this
    {
      cursor < |listing| && Held(listing, cursor, walked)
    }

    constructor (faults: seq<bool>)
      ensures cursor == 0 && walked == [] && this.faults == faults
    {
      cursor, walked := 0, [];
      this.faults := faults;
    }

    method Attempt() returns (ok: bool)
      modifies this`faults
      ensures ok <==> old(faults) == [] || !old(faults)[0]
      ensures faults == if old(faults) == [] then [] else old(faults)[1..]
    {
      if faults == [] {
        return true;
      }
      ok := !faults[0];
      faults := faults[1..];
    }

    method ClearCursor() returns (ok: bool)
      modifies this`cursor, this`faults
      ensures ok <==> old(faults) == [] || !old(faults)[0]
      ensures ok ==> cursor == 0
      ensures !ok ==> cursor == old(cursor)
      ensures old(faults) == [] ==> ok && faults == []
    {
      ok := Attempt();
      if ok {
        cursor := 0;
      }
    }

    /** Hands a page to the callback, item by item, until the callback fails. */
    method HandOver(page: seq<T>) returns (ok: bool, handed: seq<T>)
      modifies this`walked, this`faults
      ensures handed <= page && walked == old(walked) + handed
      ensures ok ==> handed == page
      ensures old(faults) == [] ==> ok && faults == []
    {
      handed := [];
      for k := 0 to |page|
        invariant handed == page[..k] && walked == old(walked) + handed
        invariant old(faults) == [] ==> faults == []
      {
        ok := Attempt();
        if !ok {
          return;
        }
        walked := walked + [page[k]];
        handed := handed + [page[k]];
      }
      ok := true;
    }

    /**
      One call. Whenever it returns nil, every item of the listing has been handed over since the
      cursor was last empty; from an empty cursor, exactly the listing, in order. Without failures it
      ends, or stops at the page bound with the cursor that many pages further. A persisted cursor that
      is refused is cleared, so that the next call starts over.
     */
    method Paginate(listing: seq<seq<T>>) returns (r: Walk, handed: seq<T>)
      requires Covers(listing)
      modifies this
      ensures Covers(listing)
      ensures walked == (if old(cursor) == 0 then [] else old(walked)) + handed
      ensures r.Done? ==> cursor == 0 && Held(listing, |listing|, walked)
      ensures r.Done? && old(cursor) == 0 ==> handed == Flatten(listing)
      ensures old(cursor) != 0 && Refused(old(faults)) ==> r.Broken? && cursor == 0 && handed == []
      ensures old(faults) == [] ==> faults == []
      ensures old(faults) == [] ==>
                if |listing| - old(cursor) <= MAX_REGISTRY_PAGES then r.Done?
                else r.Incomplete? && cursor == old(cursor) + MAX_REGISTRY_PAGES
    {
      handed := [];
      var ok := Attempt();
      if !ok {
        if cursor == 0 {
          walked := [];
        }
        return Broken, handed;
      }
      var key := cursor;
      var resumed := key != 0;
      if key == 0 {
        walked := [];
      }
      ghost var base := walked;
      var page := 0;
      while page < MAX_REGISTRY_PAGES
        invariant 0 <= page <= MAX_REGISTRY_PAGES
        invariant key == cursor == old(cursor) + page
        invariant Covers(listing)
        invariant walked == base + handed
        invariant old(cursor) == 0 ==> handed == Flatten(listing[..key])
        invariant old(faults) == [] ==> faults == []
        invariant page == 0 ==> handed == [] && (old(faults) != [] ==> faults == old(faults)[1..])
        invariant page > 0 ==> !Refused(old(faults))
      {
        ok := Attempt();
        if !ok {
          if resumed && page == 0 {
            ok := ClearCursor();
          }
          return Broken, handed;
        }
        ghost var before := handed;
        var more;
        ok, more := HandOver(listing[key]);
        handed := handed + more;
        Associates(base, before, more);
        HeldMore(listing, key, base + before, more);
        if !ok {
          return Broken, handed;
        }
        HeldNext(listing, key, base + before);
        FlattenNext(listing, key);
        if key + 1 == |listing| {
          ok := ClearCursor();
          return (if ok then Done else Broken), handed;
        }
        ok := Attempt();
        if !ok {
          return Broken, handed;
        }
        key := key + 1;
        cursor := key;
        page := page + 1;
      }
      r := Incomplete;
    }

    /** Without failures, repeated calls hand over the whole listing, however many pages it has. */
    method SyncUntilDone(listing: seq<seq<T>>)
      requires Covers(listing) && faults == []
      modifies this
      ensures cursor == 0
      ensures Held(listing, |listing|, walked)
    {
      var r, _ := Paginate(listing);
      while r.Incomplete?
        invariant Covers(listing) && faults == [] && !r.Broken?
        invariant r.Done? ==> cursor == 0 && Held(listing, |listing|, walked)
        decreases if r.Incomplete? then |listing| - cursor else -1
      {
        var again, _ := Paginate(listing);
        r := again;
      }
    }
  }
}
