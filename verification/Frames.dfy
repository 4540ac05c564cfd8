/** The page allocator of kalloc.c with its reference counts, and what it means
    for the counts to be right. Frames are physical page numbers. */
module Frames {
  import opened Blocks
  import opened Options
  import Sets

  const PGSIZE: nat := 4096
  const PHYS_PAGES: nat := 0xE000   // PHYSTOP >> PGSHIFT

  type Page = p: seq<byte> | |p| == 4096 witness seq(4096, _ => 0)

  /** memset of a whole page. */
  function Filled(x: byte): Page {
    seq(4096, _ => x)
  }

  const ZeroPage: Page := Filled(0)
  const JunkPage: Page := Filled(1)

  /** kmem and physical memory: frames from lo up are managed. */
  datatype Mem = Mem(lo: nat, refs: seq<nat>, free: seq<nat>, pages: seq<Page>)

  predicate Managed(m: Mem, f: nat) {
    m.lo <= f < PHYS_PAGES
  }

  ghost predicate Shaped(m: Mem) {
    && 0 < m.lo <= PHYS_PAGES && |m.refs| == |m.pages| == PHYS_PAGES && Sets.Distinct(m.free)
    && forall i :: 0 <= i < |m.free| ==> Managed(m, m.free[i]) && m.refs[m.free[i]] == 0
  }

  /** A managed frame is on the free list just when its count is zero. */
  ghost predicate Valid(m: Mem) {
    Shaped(m) && forall f: nat :: Managed(m, f) && m.refs[f] == 0 ==> f in m.free
  }

  lemma FreeShaped(m: Mem, f: nat)
    requires Shaped(m) && Managed(m, f)
    ensures Shaped(Free(m, f)) <==> f !in m.free
  {
    var m' := Free(m, f);
    if f in m.free {
      var i :| 0 <= i < |m.free| && m.free[i] == f;
      assert m'.free[0] == f && m'.free[i + 1] == f;
    } else {
      forall i | 0 <= i < |m'.free| ensures Managed(m', m'.free[i]) && m'.refs[m'.free[i]] == 0 {
        if m.refs[f] <= 1 && i > 0 { assert m'.free[i] == m.free[i - 1]; }
      }
    }
  }

  /** kalloc, when the free list is not empty. */
  function Alloc(m: Mem): Mem
    requires m.free != [] && m.free[0] < |m.refs|
  {
    m.(free := m.free[1..], refs := m.refs[m.free[0] := 1])
  }

  /** kfree: drop one reference; the last one frees the frame and junks it. */
  function Free(m: Mem, f: nat): Mem
    requires f < |m.refs| == |m.pages|
  {
    if m.refs[f] > 1 then m.(refs := m.refs[f := m.refs[f] - 1])
    else m.(refs := m.refs[f := 0], free := [f] + m.free, pages := m.pages[f := JunkPage])
  }

  function Increment(m: Mem, f: nat): Mem
    requires f < |m.refs|
  {
    m.(refs := m.refs[f := m.refs[f] + 1])
  }

  lemma IncrementShaped(m: Mem, f: nat)
    requires Shaped(m) && Managed(m, f)
    ensures Shaped(Increment(m, f)) <==> f !in m.free
  {
    if f in m.free {
      var i :| 0 <= i < |m.free| && m.free[i] == f;
      assert Increment(m, f).free[i] == f && Increment(m, f).refs[f] == m.refs[f] + 1;
    }
  }

  /** A count of 0 wraps. */
  function Decrement(m: Mem, f: nat): Mem
    requires f < |m.refs|
  {
    m.(refs := m.refs[f := if m.refs[f] > 0 then m.refs[f] - 1 else WORD_LIMIT - 1])
  }

  lemma DecrementShaped(m: Mem, f: nat)
    requires Shaped(m) && Managed(m, f)
    ensures Shaped(Decrement(m, f)) <==> f !in m.free
  {
    if f in m.free {
      var i :| 0 <= i < |m.free| && m.free[i] == f;
      assert Decrement(m, f).free[i] == f && Decrement(m, f).refs[f] == WORD_LIMIT - 1;
    }
  }

  function Write(m: Mem, f: nat, p: Page): Mem
    requires f < |m.pages|
  {
    m.(pages := m.pages[f := p])
  }

  // ------------------------------------------------- who refers to a frame

  /** Everything that keeps a frame: a user page table entry, a page table, a page
      directory or a kernel stack, each of the address space `id`. */
  datatype Ref =
    | User(id: nat, page: nat)
    | Table(id: nat, slot: nat)
    | Root(id: nat)
    | Stack(id: nat)

  type Refs = map<Ref, nat>

  ghost function Holders(R: Refs, f: nat): set<Ref> {
    set r | r in R && R[r] == f
  }

  /** Each managed frame's count is the number of references to it. */
  ghost predicate Counted(m: Mem, R: Refs) {
    && Valid(m)
    && (forall r :: r in R ==> Managed(m, R[r]))
    && (forall f: nat :: Managed(m, f) ==> m.refs[f] == |Holders(R, f)|)
  }

  lemma HoldersAdd(R: Refs, r: Ref, f: nat, g: nat)
    requires r !in R
    ensures Holders(R[r := f], g) == Holders(R, g) + if g == f then {r} else {}
  {
  }

  lemma HoldersDrop(R: Refs, r: Ref, g: nat)
    requires r in R
    ensures Holders(R - {r}, g) == Holders(R, g) - {r}
    ensures r in Holders(R, g) <==> R[r] == g
  {
  }

  lemma HeldIsCounted(m: Mem, R: Refs, r: Ref)
    requires Counted(m, R) && r in R
    ensures Managed(m, R[r]) && m.refs[R[r]] > 0 && R[r] !in m.free
  {
    assert r in Holders(R, R[r]);
  }

  lemma AllocValid(m: Mem)
    requires Valid(m) && m.free != []
    ensures Managed(m, m.free[0]) && Valid(Alloc(m))
  {
    var f := m.free[0];
    var m' := Alloc(m);
    forall i | 0 <= i < |m'.free| ensures Managed(m', m'.free[i]) && m'.refs[m'.free[i]] == 0 {
      assert m'.free[i] == m.free[i + 1];
    }
    forall g: nat | Managed(m', g) && m'.refs[g] == 0 ensures g in m'.free {
      assert m.refs[g] == 0;
      var i :| 0 <= i < |m.free| && m.free[i] == g;
      assert m'.free[i - 1] == g;
    }
  }

  lemma FreeValid(m: Mem, f: nat)
    requires Valid(m) && Managed(m, f) && m.refs[f] > 0
    ensures Valid(Free(m, f))
  {
    var m' := Free(m, f);
    assert f !in m.free;
    if m.refs[f] == 1 {
      forall g: nat | Managed(m', g) && m'.refs[g] == 0 ensures g in m'.free {
        if g != f { assert g in m.free; }
      }
    }
  }

  /** kalloc makes a new reference to a frame that nothing referred to. */
  lemma AllocCounted(m: Mem, R: Refs, r: Ref)
    requires Counted(m, R) && m.free != [] && r !in R
    ensures Counted(Alloc(m), R[r := m.free[0]])
    ensures forall q :: q in R ==> R[q] != m.free[0]
  {
    var f := m.free[0];
    AllocValid(m);
    forall g: nat | Managed(m, g) ensures Alloc(m).refs[g] == |Holders(R[r := f], g)| {
      HoldersAdd(R, r, f, g);
    }
    forall q | q in R ensures R[q] != f { HeldIsCounted(m, R, q); }
  }

  /** incrementReferenceCount with a new reference to the same frame. */
  lemma ShareCounted(m: Mem, R: Refs, r: Ref, q: Ref)
    requires Counted(m, R) && q in R && r !in R
    ensures Managed(m, R[q]) && Counted(Increment(m, R[q]), R[r := R[q]])
  {
    HeldIsCounted(m, R, q);
    var f := R[q];
    forall g: nat | Managed(m, g) ensures Increment(m, f).refs[g] == |Holders(R[r := f], g)| {
      HoldersAdd(R, r, f, g);
    }
    forall g: nat | Managed(m, g) && Increment(m, f).refs[g] == 0 ensures g in m.free { assert m.refs[g] == 0; }
  }

  /** kfree of a reference. */
  lemma DropCounted(m: Mem, R: Refs, r: Ref)
    requires Counted(m, R) && r in R
    ensures Managed(m, R[r]) && Counted(Free(m, R[r]), R - {r})
  {
    HeldIsCounted(m, R, r);
    FreeValid(m, R[r]);
    forall g: nat | Managed(m, g) ensures Free(m, R[r]).refs[g] == |Holders(R - {r}, g)| {
      HoldersDrop(R, r, g);
    }
  }

  /** decrementReferenceCount of a shared frame, one of whose references is gone. */
  lemma UnshareCounted(m: Mem, R: Refs, r: Ref)
    requires Counted(m, R) && r in R && m.refs[R[r]] > 1
    ensures Managed(m, R[r]) && Counted(Decrement(m, R[r]), R - {r})
  {
    assert Decrement(m, R[r]) == Free(m, R[r]);
    DropCounted(m, R, r);
  }

  /** Writing pages changes no count. */
  lemma WriteCounted(m: Mem, R: Refs, f: nat, p: Page)
    requires Counted(m, R) && f < |m.pages|
    ensures Counted(Write(m, f, p), R)
  {
  }

  /** The references determine the number of free pages. */
  lemma FreeDetermined(m: Mem, n: Mem, R: Refs)
    requires Counted(m, R) && Counted(n, R) && m.lo == n.lo
    ensures |m.free| == |n.free|
  {
    Sets.DistinctSize(m.free);
    Sets.DistinctSize(n.free);
    forall f: nat ensures f in m.free <==> f in n.free {
      if f in m.free { assert Managed(m, f) && m.refs[f] == 0; }
      if f in n.free { assert Managed(n, f) && n.refs[f] == 0; }
    }
    assert Sets.Elements(m.free) == Sets.Elements(n.free);
  }

  lemma {:induction false} OnlyHolder(m: Mem, R: Refs, r: Ref)
    requires Counted(m, R) && r in R
    ensures m.refs[R[r]] == 1 <==> forall q :: q in R && R[q] == R[r] ==> q == r
  {
    var h := Holders(R, R[r]);
    assert r in h && m.refs[R[r]] == |h|;
    if |h| == 1 {
      forall q | q in R && R[q] == R[r] ensures q == r {
        if q != r { assert {q, r} <= h; Sets.SubsetSize({q, r}, h); }
      }
    } else {
      assert |h - {r}| == |h| - 1;
      var q :| q in h - {r};
    }
  }
}
