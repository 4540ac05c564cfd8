/** kalloc.c itself: a linked free list and an array of reference counts. The link
    that kalloc.c stores in a free page is kept in `next`; 0 is the null link. */
module Kalloc {
  import opened Blocks
  import opened Options
  import opened Frames

  /** The i-th free frame, or the null link behind the last. */
  function At(free: seq<nat>, i: nat): nat {
    if i < |free| then free[i] else 0
  }

  class Kmem {
    const lo: nat                    // the first frame after the kernel image
    const next: array<nat>
    const refcount: array<nat>       // pg_refcount
    const page: array<Page>          // physical memory
    var freelist: nat
    var numFreePages: nat
    ghost var free: seq<nat>

    ghost function State(): Mem
      reads this, refcount, page
    {
      Mem(lo, refcount[..], free, page[..])
    }

    ghost predicate Linked()
      reads this, next
    {
      && next.Length == PHYS_PAGES && freelist == At(free, 0) && numFreePages == |free|
      && (forall i :: 0 <= i < |free| ==> free[i] < PHYS_PAGES)
      && forall i :: 0 <= i < |free| ==> next[free[i]] == At(free, i + 1)
    }

    ghost predicate Ok()
      reads this, next, refcount, page
    {
      next != refcount && Linked() && Shaped(State())
    }

    /** kinit1 and kinit2: every frame from `first` up is freed. */
    constructor (first: nat)
      requires 0 < first <= PHYS_PAGES
      ensures Ok() && Valid(State()) && lo == first && numFreePages == PHYS_PAGES - first
      ensures fresh(next) && fresh(refcount) && fresh(page)
    {
      lo := first;
      next := new nat[PHYS_PAGES](_ => 0);
      refcount := new nat[PHYS_PAGES](_ => 0);
      page := new Page[PHYS_PAGES](_ => ZeroPage);
      freelist, numFreePages, free := 0, 0, [];
      new;
      FreeRange(first, PHYS_PAGES);
    }

    /** freerange. */
    method FreeRange(from: nat, to: nat)
      requires Ok() && lo <= from <= to <= PHYS_PAGES
      requires forall f: nat :: from <= f < to ==> f !in free
      modifies this`freelist, this`numFreePages, this`free, next, refcount, page
      ensures Ok() && numFreePages == old(numFreePages) + (to - from)
      ensures forall f: nat :: f in free <==> f in old(free) || from <= f < to
      ensures forall f: nat :: f < PHYS_PAGES && !(from <= f < to) ==> refcount[f] == old(refcount[f])
    {
      for p := from to to
        invariant Ok() && numFreePages == old(numFreePages) + (p - from)
        invariant forall f: nat :: f in free <==> f in old(free) || from <= f < p
        invariant forall f: nat :: f < PHYS_PAGES && !(from <= f < p) ==> refcount[f] == old(refcount[f])
      {
        FreeFirst(p);
      }
    }

    /** The body of freerange's loop. */
    method FreeFirst(p: nat)
      requires Ok() && lo <= p < PHYS_PAGES && p !in free
      modifies this`freelist, this`numFreePages, this`free, next, refcount, page
      ensures Ok() && free == [p] + old(free) && numFreePages == old(numFreePages) + 1
      ensures refcount[..] == old(refcount[..])[p := 0]
    {
      ghost var was := State();
      refcount[p] := 0;
      assert refcount[..] == was.refs[p := 0];
      assert Shaped(State()) by {
        forall i | 0 <= i < |was.free| ensures was.refs[p := 0][was.free[i]] == 0 { }
      }
      var ok := Kfree(p);
      assert was.refs[p := 0][p := 0] == was.refs[p := 0];
    }

    /** kfree. False: the panic for a frame that is not managed. The list stays one if and
        only if the frame was not on it. */
    method Kfree(f: nat) returns (ok: bool)
      requires Ok()
      modifies this`freelist, this`numFreePages, this`free, next, refcount, page
      ensures ok == Managed(old(State()), f)
      ensures State() == if ok then Free(old(State()), f) else old(State())
      ensures Ok() <==> !ok || f !in old(free)
    {
      if f < lo || f >= PHYS_PAGES {
        return false;
      }
      ghost var was := State();
      FreeShaped(was, f);
      if refcount[f] > 0 {
        refcount[f] := refcount[f] - 1;
      }
      if refcount[f] == 0 {
        page[f] := JunkPage;
        Push(f);
        assert page[..] == was.pages[f := JunkPage] && refcount[..] == was.refs[f := 0];
      } else {
        assert refcount[..] == was.refs[f := was.refs[f] - 1];
      }
      assert State() == Free(was, f);
      return true;
    }

    /** Link a page into the free list. */
    method Push(f: nat)
      requires Linked() && 0 < f < PHYS_PAGES
      modifies this`freelist, this`numFreePages, this`free, next
      ensures free == [f] + old(free) && (f !in old(free) ==> Linked())
    {
      numFreePages := numFreePages + 1;
      next[f] := freelist;
      freelist := f;
      free := [f] + free;
    }

    /** kalloc. None: out of memory. */
    method Kalloc() returns (r: Option<nat>)
      requires Ok()
      modifies this`freelist, this`numFreePages, this`free, refcount
      ensures Ok() && (r.None? <==> old(State()).free == [])
      ensures r.None? ==> State() == old(State())
      ensures r.Some? ==> r.value == old(State()).free[0] && State() == Alloc(old(State()))
    {
      var f := freelist;
      if f == 0 {
        assert free == [];
        return None;
      }
      ghost var was := State();
      assert next[free[0]] == At(free, 1);
      freelist := next[f];
      numFreePages := numFreePages - 1;
      refcount[f] := 1;
      free := free[1..];
      assert forall i :: 0 <= i < |free| ==> free[i] == was.free[i + 1];
      assert State() == Alloc(was);
      return Some(f);
    }

    /** incrementReferenceCount. False: the panic for a frame that is not managed. A frame on
        the free list then has a count, and that is all that can go wrong. */
    method IncrementReferenceCount(f: nat) returns (ok: bool)
      requires Ok()
      modifies refcount
      ensures ok == Managed(old(State()), f)
      ensures State() == if ok then Increment(old(State()), f) else old(State())
      ensures Ok() <==> !ok || f !in free
    {
      if f < lo || f >= PHYS_PAGES { return false; }
      ghost var was := State();
      refcount[f] := refcount[f] + 1;
      assert State() == Increment(was, f);
      IncrementShaped(was, f);
      ok := true;
    }

    /** decrementReferenceCount, which unlike kfree never frees the frame. False: the panic
        for a frame that is not managed. */
    method DecrementReferenceCount(f: nat) returns (ok: bool)
      requires Ok()
      modifies refcount
      ensures ok == Managed(old(State()), f)
      ensures State() == if ok then Decrement(old(State()), f) else old(State())
      ensures Ok() <==> !ok || f !in free
    {
      if f < lo || f >= PHYS_PAGES { return false; }
      ghost var was := State();
      refcount[f] := if refcount[f] > 0 then refcount[f] - 1 else WORD_LIMIT - 1;
      assert State() == Decrement(was, f);
      DecrementShaped(was, f);
      ok := true;
    }

    /** The kernel stores a whole page through its direct mapping. */
    method SetPage(f: nat, p: Page)
      requires Ok() && f < PHYS_PAGES
      modifies page
      ensures Ok() && State() == Write(old(State()), f, p)
    {
      ghost var was := State();
      page[f] := p;
      assert State() == Write(was, f, p);
    }
  }
}
