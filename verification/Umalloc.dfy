/** umalloc.c: the allocator of section 8.7 of Kernighan and Ritchie, The C
    Programming Language (2nd edition). */
module Umalloc {
  import opened Options
  import opened FreeList
  import opened FreeListCanon

  /** free, with the pointer writes in two steps: put the block in, then join it with
      its right and its left neighbour where they touch. */
  ghost function JoinedRight(h: Shape, k: nat): Shape
    requires Sane(h)
  {
    if Touching(h, k + 1) then TouchingReal(h, k + 1); Merge(h, k + 1) else h
  }

  ghost function JoinedLeft(h: Shape, k: nat): Shape
    requires Sane(h)
  {
    if Touching(h, k) then TouchingReal(h, k); Merge(h, k) else h
  }

  lemma RightSane(h: Shape, k: nat)
    requires Sane(h) && GapsBut(h.list, h.size, k, k + 1)
    ensures var h' := JoinedRight(h, k);
            Sane(h') && GapsBut(h'.list, h'.size, k, k) && h'.used == h.used && h'.arena == h.arena && h'.base == h.base
  {
    if Touching(h, k + 1) {
      TouchingReal(h, k + 1);
      MergeSane(h, k + 1);
      assert GapsBut(h.list, h.size, k + 1, k);
      MergeGaps(h, k + 1, k);
    } else if k + 2 < |h.list| {
      ListSizes(h, k + 1);
    }
  }

  lemma LeftSane(h: Shape, k: nat)
    requires Sane(h) && GapsBut(h.list, h.size, k, k)
    ensures var h' := JoinedLeft(h, k);
            Sane(h') && Gaps(h'.list, h'.size) && h'.used == h.used && h'.arena == h.arena && h'.base == h.base
  {
    if Touching(h, k) {
      TouchingReal(h, k);
      MergeSane(h, k);
      MergeGaps(h, k, k);
    } else if k + 1 < |h.list| {
      ListSizes(h, k);
    }
  }

  /** Sizes of used blocks stay. */
  ghost predicate UsedSizes(h: Shape, h': Shape) {
    forall a :: a in h.used && a in h'.used && a in h.size ==> a in h'.size && h'.size[a] == h.size[a]
  }

  lemma SizesTrans(h: Shape, h1: Shape, h2: Shape, h3: Shape)
    requires UsedSizes(h, h1) && UsedSizes(h1, h2) && UsedSizes(h2, h3)
    requires h1.used == h.used && h2.used == h.used && h.used <= h3.used && h.used <= h.size.Keys
    ensures UsedSizes(h, h3)
  {
  }

  lemma SameUseAfter(h: Shape, h1: Shape, h2: Shape)
    requires Sane(h) && UsedSizes(h, h1) && UsedSizes(h1, h2) && h.used <= h1.used && h2.used == h.used
    requires h.used <= h1.size.Keys && h2.base == h.base
    ensures SameUse(h.(arena := h2.arena), h2)
  {
    assert h.used <= Keys(h.list) + h.used;
  }

  /** The block at p, or the one behind it, has n headers or more. */
  ghost predicate LargeNear(h: Shape, p: nat, n: nat) {
    && p in h.list && p in h.size && p in h.ptr && h.ptr[p] in h.size
    && (h.size[p] >= n || h.size[h.ptr[p]] >= n)
  }

  /** What free makes of the heap h, whose list the block a fits into behind position k. */
  lemma FreeSane(h: Shape, k: nat, a: nat)
    requires Sane(h) && Gaps(h.list, h.size) && a in h.used && Fits(h.list, k, a)
    ensures Sane(Link(h, k, a)) && Sane(JoinedRight(Link(h, k, a), k))
    ensures var h' := JoinedLeft(JoinedRight(Link(h, k, a), k), k);
            && Sane(h') && Gaps(h'.list, h'.size) && h'.used == h.used - {a} && h'.arena == h.arena && h'.base == h.base
  {
    LinkSane(h, k, a);
    LinkGaps(h, k, a);
    RightSane(Link(h, k, a), k);
    LeftSane(JoinedRight(Link(h, k, a), k), k);
  }

  lemma RightPlace(h: Shape, k: nat, a: nat)
    requires Sane(h) && k + 1 < |h.list| && h.list[k + 1] == a && a in h.size
    ensures var h' := JoinedRight(h, k);
            && k + 1 < |h'.list| && h'.list[k] == h.list[k] && h'.list[k + 1] == a && a in h'.size && h'.size[a] >= h.size[a]
            && forall b :: b in h.size && b != a ==> b in h'.size && h'.size[b] == h.size[b]
  {
  }

  lemma LeftPlace(h: Shape, k: nat, n: nat)
    requires Sane(h) && k + 1 < |h.list| && h.list[k + 1] in h.size && h.size[h.list[k + 1]] >= n
    ensures var h' := JoinedLeft(h, k);
            && Sane(h') && LargeNear(h', h.list[k], n)
            && forall b :: b in h.size && b != h.list[k] ==> b in h'.size && h'.size[b] == h.size[b]
  {
    ListSizes(h, k);
    if Touching(h, k) {
      TouchingReal(h, k);
      MergeSane(h, k);
      assert Merge(h, k).list[k] == h.list[k];
      ListSizes(Merge(h, k), k);
      NextIn(Merge(h, k), k);
    } else {
      assert LinkAt(h.list, h.ptr, k);
    }
  }

  lemma NextIn(h: Shape, k: nat)
    requires Sane(h) && k < |h.list|
    ensures h.list[k] in h.ptr && h.ptr[h.list[k]] == h.list[NextIndex(h.list, k)]
    ensures h.ptr[h.list[k]] in h.size && h.ptr[h.list[k]] in h.ptr
  {
    assert LinkAt(h.list, h.ptr, k);
    ListSizes(h, NextIndex(h.list, k));
  }

  lemma FreePlace(h: Shape, k: nat, a: nat)
    requires Sane(h) && Gaps(h.list, h.size) && a in h.used && Fits(h.list, k, a)
    ensures Sane(Link(h, k, a)) && Sane(JoinedRight(Link(h, k, a), k))
    ensures var h' := JoinedLeft(JoinedRight(Link(h, k, a), k), k);
            a in h.size && LargeNear(h', h.list[k], h.size[a]) && UsedSizes(h, h')
  {
    FreeSane(h, k, a);
    RightPlace(Link(h, k, a), k, a);
    LeftPlace(JoinedRight(Link(h, k, a), k), k, h.size[a]);
    ListSizes(h, k);
  }

  /** The first if of free, up to p->ptr, which still has to change. */
  lemma RightIs(h: Shape, k: nat, a: nat, p: nat, q: nat, ptr: map<nat, nat>, size: map<nat, nat>)
    requires Sane(h) && a in h.used && Fits(h.list, k, a) && p == h.list[k] && a in h.size
    requires p in h.ptr && q == h.ptr[p] && q in h.size && q in h.ptr && Sane(Link(h, k, a))
    requires if End(h.size, a) == q then ptr == h.ptr[a := h.ptr[q]] && size == h.size[a := h.size[a] + h.size[q]]
             else ptr == h.ptr[a := q] && size == h.size
    ensures var h' := JoinedRight(Link(h, k, a), k); h'.ptr == ptr[p := a] && h'.size == size
  {
    assert LinkAt(h.list, h.ptr, k);
    var h1 := Link(h, k, a);
    if k + 1 < |h.list| { assert h1.list[k + 2] == q; }
  }

  /** The second. */
  lemma LeftIs(h: Shape, k: nat, a: nat, p: nat, ptr: map<nat, nat>, ptr': map<nat, nat>, size': map<nat, nat>)
    requires Sane(h) && k + 1 < |h.list| && h.list[k] == p && h.list[k + 1] == a && p != a && a in ptr
    requires p in h.size && a in h.size && h.ptr == ptr[p := a]
    requires if End(h.size, p) == a then ptr' == ptr[p := ptr[a]] && size' == h.size[p := h.size[p] + h.size[a]]
             else ptr' == ptr[p := a] && size' == h.size
    ensures var h' := JoinedLeft(h, k); h'.ptr == ptr' && h'.size == size'
  {
  }

  /** The request in headers: nbytes + 7 is computed in 32 bits. */
  function Units(nbytes: nat): nat {
    (nbytes + 7) % 0x1_0000_0000 / 8 + 1
  }

  /** What morecore asks for. */
  function Chunk(units: nat): nat {
    if units < 4096 then 4096 else units
  }

  const TOO_MANY: nat := 0x1000_0000   // headers, 2^31 bytes

  datatype Grant = Got | Refused | Wild

  datatype Result = Block(at: nat) | NoMemory | Lost

  /** No free block has n headers. */
  ghost predicate NoneFits(list: seq<nat>, size: map<nat, nat>, n: nat) {
    forall i :: 0 <= i < |list| ==> list[i] in size && size[list[i]] < n
  }

  /** Position m has been passed on the way round from behind f to j. */
  predicate Passed(f: nat, j: nat, m: nat) {
    if j > f then f < m < j else m > f || m < j
  }

  /** How far it still is from j to f. */
  function Left(f: nat, j: nat, n: nat): nat
    requires f < n && j < n
  {
    if j > f then n - j + f else f - j
  }

  /** malloc's loop: freep is at f, prevp at i, p behind it, and all passed so far is
      too small. */
  ghost predicate Scanning(h: Shape, freep: nat, prevp: nat, p: nat, f: nat, i: nat, n: nat) {
    && f < |h.list| && h.list[f] == freep && i < |h.list| && h.list[i] == prevp && h.list[NextIndex(h.list, i)] == p
    && forall m: nat :: m < |h.list| && Passed(f, NextIndex(h.list, i), m) ==> h.list[m] in h.size && h.size[h.list[m]] < n
  }

  /** No block of h was large enough, and h' has one, in memory that sbrk gave. */
  ghost predicate Enlarged(h: Shape, h': Shape, freep: nat, n: nat, brk: Option<nat>) {
    && NoneFits(h.list, h.size, n) && LargeNear(h', freep, n) && n < TOO_MANY && h'.used == h.used && UsedSizes(h, h')
    && brk.Some? && h'.arena == h.arena + Span(brk.value, Chunk(n))
  }

  lemma ScanStart(h: Shape, freep: nat, f: nat, n: nat)
    requires Sane(h) && f < |h.list| && h.list[f] == freep
    ensures freep in h.ptr && Scanning(h, freep, freep, h.ptr[freep], f, f, n)
  {
    NextIn(h, f);
  }

  lemma ScanHere(h: Shape, freep: nat, prevp: nat, p: nat, f: nat, i: nat, j: nat, n: nat)
    requires Sane(h) && Scanning(h, freep, prevp, p, f, i, n) && n > 0 && j == NextIndex(h.list, i)
    ensures p in h.ptr && p in h.size && (h.size[p] >= n ==> j == i + 1 && j < |h.list|)
  {
    ListSizes(h, j);
  }

  lemma ScanNext(h: Shape, freep: nat, prevp: nat, p: nat, f: nat, i: nat, j: nat, n: nat)
    requires Sane(h) && Scanning(h, freep, prevp, p, f, i, n) && p != freep && p in h.size && h.size[p] < n && p in h.ptr
    requires j == NextIndex(h.list, i)
    ensures Scanning(h, freep, p, h.ptr[p], f, j, n) && Left(f, NextIndex(h.list, j), |h.list|) < Left(f, j, |h.list|)
  {
    NextIn(h, j);
  }

  /** The block p, behind prevp, which is at position i, has n headers or more. */
  ghost predicate Found(h: Shape, prevp: nat, p: nat, i: nat, n: nat) {
    i + 1 < |h.list| && h.list[i] == prevp && h.list[i + 1] == p && p in h.size && h.size[p] >= n
  }

  lemma AllSeen(h: Shape, freep: nat, prevp: nat, p: nat, f: nat, i: nat, n: nat)
    requires Scanning(h, freep, prevp, p, f, i, n) && Sorted(h.list) && p == freep && p in h.size && h.size[p] < n
    ensures NoneFits(h.list, h.size, n)
  {
    var j := NextIndex(h.list, i);
    assert j == f;
    forall m | 0 <= m < |h.list| ensures h.list[m] in h.size && h.size[h.list[m]] < n {
      assert m != f ==> Passed(f, j, m);
    }
  }

  /** A lap after morecore cannot end without a find. */
  lemma NotLarge(h: Shape, freep: nat, f: nat, n: nat)
    requires Sane(h) && f < |h.list| && h.list[f] == freep && NoneFits(h.list, h.size, n)
    ensures !LargeNear(h, freep, n)
  {
    NextIn(h, f);
  }

  /** The memory that malloc got from sbrk. */
  function Gained(r: Result, asked: nat, nbytes: nat, brk: Option<nat>): set<nat> {
    if asked == 1 && r.Block? && brk.Some? then Span(brk.value, Chunk(Units(nbytes))) else {}
  }

  /** The block is large enough unless nbytes + 7 overflows. */
  lemma UnitsSuffice(nbytes: nat)
    requires nbytes < 0x1_0000_0000
    ensures 8 * (Units(nbytes) - 1) >= nbytes <==> nbytes <= 0xFFFF_FFF8
    ensures Units(nbytes) >= TOO_MANY <==> 0x7FFF_FFF1 <= nbytes <= 0xFFFF_FFF8
  {
  }

  class Heap {
    const base: nat             // the address of the static header `base`
    var freep: nat              // 0 until the first malloc
    var ptr: map<nat, nat>      // the two fields of the header at an address
    var size: map<nat, nat>
    ghost var list: seq<nat>
    ghost var used: set<nat>
    ghost var arena: set<nat>

    ghost function H(): Shape
      reads this
    {
      Shape(base, list, ptr, size, used, arena)
    }

    ghost predicate Valid()
      reads this
    {
      && base > 0
      && if freep == 0 then list == [] && used == {} && arena == {}
         else freep in list && Sane(H()) && Gaps(list, size)
    }

    constructor (b: nat)
      requires b > 0
      ensures Valid() && freep == 0 && base == b
    {
      base, freep, ptr, size := b, 0, map[], map[];
      list, used, arena := [], {}, {};
    }

    /** The search loop of free: the last free block below bp, or the last of all. */
    method Search(bp: nat) returns (p: nat, ghost k: nat)
      requires Valid() && bp in used
      ensures Fits(list, k, bp) && p == list[k]
    {
      assert freep != 0;
      ghost var i: nat :| i < |list| && list[i] == freep;
      NotListed(H(), bp);
      k := FindSlot(list, |list|, bp);
      p := freep;
      assert LinkAt(list, ptr, i);
      while !(bp > p && bp < ptr[p])
        invariant i < |list| && p == list[i] && LinkAt(list, ptr, i)
        decreases if i <= k then k - i else k + |list| - i
      {
        if p >= ptr[p] && (bp > p || bp < ptr[p]) {
          break;
        }
        i := NextIndex(list, i);
        p := ptr[p];
        assert LinkAt(list, ptr, i);
      }
    }

    /** free: the block goes back, joined with free neighbours. */
    method Free(bp: nat)
      requires Valid() && bp in used
      modifies this`freep, this`ptr, this`size, this`list, this`used
      ensures Valid() && freep != 0 && used == old(used) - {bp} && UsedSizes(old(H()), H())
      ensures bp in old(size) && LargeNear(H(), freep, old(size)[bp])
    {
      ghost var h := H();
      var p; ghost var k;
      p, k := Search(bp);
      FreeSane(h, k, bp);
      FreePlace(h, k, bp);
      ghost var h2 := JoinedRight(Link(h, k, bp), k);
      ghost var h3 := JoinedLeft(h2, k);
      JoinRight(bp, p, k);
      JoinLeft(bp, p, k, h2);
      freep := p;
      list, used := h3.list, h3.used;
    }

    method JoinRight(bp: nat, p: nat, ghost k: nat)
      requires Sane(H()) && bp in used && Fits(list, k, bp) && p == list[k] && Sane(Link(H(), k, bp))
      modifies this`ptr, this`size
      ensures var h := JoinedRight(Link(old(H()), k, bp), k); h.ptr == ptr[p := bp] && h.size == size
      ensures bp in ptr && bp in size && p in size
    {
      ghost var h := H();
      ListSizes(h, k);
      NextIn(h, k);
      var q := ptr[p];
      if bp + 8 * size[bp] == q {
        size := size[bp := size[bp] + size[q]];
        ptr := ptr[bp := ptr[q]];
      } else {
        ptr := ptr[bp := q];
      }
      RightIs(h, k, bp, p, q, ptr, size);
    }

    method JoinLeft(bp: nat, p: nat, ghost k: nat, ghost h: Shape)
      requires Sane(h) && k + 1 < |h.list| && h.list[k] == p && h.list[k + 1] == bp && p != bp
      requires h.ptr == ptr[p := bp] && h.size == size && bp in ptr && bp in size && p in size
      modifies this`ptr, this`size
      ensures var h' := JoinedLeft(h, k); h'.ptr == ptr && h'.size == size
    {
      ghost var m := ptr;
      if p + 8 * size[p] == bp {
        size := size[p := size[p] + size[bp]];
        ptr := ptr[p := ptr[bp]];
      } else {
        ptr := ptr[p := bp];
      }
      LeftIs(h, k, bp, p, m, ptr, size);
    }

    /** sbrk hands out memory above all blocks. */
    ghost predicate Fresh(brk: nat)
      reads this
    {
      base < brk && (freep != 0 ==> Below(H(), brk))
    }

    /** morecore; brk is what sbrk would return, None for -1. sbrk takes an int, so from
        2^28 headers on the request is not for more memory at all: Wild. */
    method Morecore(units: nat, brk: Option<nat>) returns (r: Grant)
      requires Valid() && freep != 0 && units > 0 && (brk.Some? ==> Fresh(brk.value))
      modifies this`freep, this`ptr, this`size, this`list, this`used, this`arena
      ensures Valid() && freep != 0 && used == old(used)
      ensures r == Wild <==> units >= TOO_MANY
      ensures r == Refused <==> units < TOO_MANY && brk == None
      ensures r != Got ==> H() == old(H()) && freep == old(freep)
      ensures r == Got ==> LargeNear(H(), freep, units) && UsedSizes(old(H()), H())
      ensures r == Got ==> arena == old(arena) + Span(brk.value, Chunk(units))
    {
      var nu := Chunk(units);
      if nu >= TOO_MANY { return Wild; }
      if brk == None { return Refused; }
      ghost var h := H();
      ExtendSane(h, brk.value, nu);
      ExtendGaps(h, brk.value, nu);
      size := size[brk.value := nu];
      used, arena := used + {brk.value}, arena + Span(brk.value, nu);
      assert H() == Extend(h, brk.value, nu);
      Free(brk.value);
      return Got;
    }

    /** Before the first malloc there is only `base`, of size 0. */
    method Start(ghost n: nat)
      requires Valid() && n > 0
      modifies this`freep, this`ptr, this`size, this`list
      ensures Valid() && freep != 0 && UsedSizes(old(H()), H())
      ensures NoneFits(list, size, n) <==> NoneFits(old(list), old(size), n)
      ensures forall a: nat :: old(Fresh(a)) ==> Fresh(a)
    {
      if freep == 0 {
        freep, ptr, size := base, ptr[base := base], size[base := 0];
        list := [base];
        assert Keys(list) == {};
        assert NoneFits(list, size, n);
      }
    }

    /** The block at p, behind prevp, is taken whole or gives its tail. */
    method Take(prevp: nat, p: nat, n: nat, ghost i: nat) returns (a: nat)
      requires Valid() && freep != 0 && n > 0 && Found(H(), prevp, p, i, n)
      modifies this`freep, this`ptr, this`size, this`list, this`used
      ensures Valid() && freep == prevp != 0 && a !in old(used) && used == old(used) + {a}
      ensures a in size && size[a] == n && UsedSizes(old(H()), H())
    {
      ListSizes(H(), i);
      if size[p] == n {
        Unchain(prevp, p, i + 1);
        a := p;
      } else {
        a := Cut(p, n, i + 1);
      }
      freep := prevp;
    }

    method Unchain(prevp: nat, p: nat, ghost i: nat)
      requires Sane(H()) && Gaps(list, size) && 0 < i < |list| && list[i - 1] == prevp && list[i] == p
      modifies this`ptr, this`list, this`used
      ensures Sane(H()) && Gaps(list, size) && prevp in list && p !in old(used) && used == old(used) + {p}
    {
      ghost var h := H();
      ListSizes(h, i);
      UnlinkSane(h, i);
      UnlinkGaps(h, i);
      ptr := ptr[prevp := ptr[p]];
      list, used := Remove(list, i), used + {p};
      assert H() == Unlink(h, i) && list[i - 1] == prevp;
    }

    method Cut(p: nat, n: nat, ghost i: nat) returns (a: nat)
      requires Sane(H()) && Gaps(list, size) && 0 < i < |list| && list[i] == p && p in size && 0 < n < size[p]
      modifies this`size, this`used
      ensures Sane(H()) && Gaps(list, size) && a !in old(used) && used == old(used) + {a}
      ensures a in size && size[a] == n && UsedSizes(old(H()), H())
    {
      ghost var h := H();
      ListSizes(h, i);
      CarveSane(h, i, n);
      CarveGaps(h, i, n);
      size := size[p := size[p] - n];
      a := p + 8 * size[p];
      size := size[a := n];
      used := used + {a};
      assert H() == Carve(h, i, n);
    }

    /** malloc; see morecore for brk. `asked` counts the calls of morecore. */
    method Malloc(nbytes: nat, brk: Option<nat>) returns (r: Result, asked: nat)
      requires Valid() && nbytes < 0x1_0000_0000 && (brk.Some? ==> Fresh(brk.value))
      modifies this`freep, this`ptr, this`size, this`list, this`used, this`arena
      ensures Valid() && freep != 0 && asked <= 1 && UsedSizes(old(H()), H())
      ensures asked == 1 <==> NoneFits(old(list), old(size), Units(nbytes))
      ensures asked == 1 && r.Block? ==> brk.Some?
      ensures arena == old(arena) + Gained(r, asked, nbytes, brk)
      ensures r.Block? ==> r.at !in old(used) && used == old(used) + {r.at} && r.at in size && size[r.at] == Units(nbytes)
      ensures !r.Block? ==> asked == 1 && used == old(used)
      ensures r == NoMemory ==> brk == None
      ensures r == Lost <==> asked == 1 && Units(nbytes) >= TOO_MANY
    {
      var nunits := Units(nbytes);
      Start(nunits);
      ghost var h := H();
      var grant, prevp, p; ghost var i;
      grant, prevp, p, asked, i := Scan(nunits, brk);
      match grant
      case Refused => r := NoMemory;
      case Wild => r := Lost;
      case Got =>
        ghost var h1 := H();
        var a := Take(prevp, p, nunits, i);
        SizesTrans(old(H()), h, h1, H());
        r := Block(a);
    }

    /** morecore, and from freep on once more. */
    method Refill(nunits: nat, brk: Option<nat>) returns (grant: Grant, ghost f: nat)
      requires Valid() && freep != 0 && nunits > 0 && NoneFits(list, size, nunits) && (brk.Some? ==> Fresh(brk.value))
      modifies this`freep, this`ptr, this`size, this`list, this`used, this`arena
      ensures Valid() && freep != 0 && (grant != Got ==> H() == old(H()) && freep == old(freep))
      ensures grant == Wild <==> nunits >= TOO_MANY
      ensures grant == Refused <==> nunits < TOO_MANY && brk == None
      ensures grant == Got ==> Enlarged(old(H()), H(), freep, nunits, brk) && f < |list| && list[f] == freep && freep in ptr
      ensures grant == Got ==> Scanning(H(), freep, freep, ptr[freep], f, f, nunits)
    {
      f := 0;
      grant := Morecore(nunits, brk);
      if grant != Got { return; }
      f :| 0 <= f < |list| && list[f] == freep;
      ScanStart(H(), freep, f, nunits);
    }

    /** The loop of malloc, up to the block that is large enough. */
    method Scan(nunits: nat, brk: Option<nat>) returns (grant: Grant, prevp: nat, p: nat, asked: nat, ghost i: nat)
      requires Valid() && freep != 0 && nunits > 0 && (brk.Some? ==> Fresh(brk.value))
      modifies this`freep, this`ptr, this`size, this`list, this`used, this`arena
      ensures Valid() && freep != 0 && asked <= 1 && (grant != Got ==> asked == 1 && H() == old(H()))
      ensures asked == 1 <==> NoneFits(old(list), old(size), nunits)
      ensures grant == Refused ==> brk == None
      ensures grant == Wild <==> asked == 1 && nunits >= TOO_MANY
      ensures grant == Got ==> Found(H(), prevp, p, i, nunits)
      ensures grant == Got ==> if asked == 0 then H() == old(H()) else Enlarged(old(H()), H(), freep, nunits, brk)
    {
      ghost var h := H();
      ghost var f: nat :| f < |list| && list[f] == freep;
      i := f;
      ScanStart(h, freep, f, nunits);
      prevp := freep;
      p := ptr[prevp];
      asked := 0;
      while true
        invariant Valid() && freep != 0 && asked <= 1 && Scanning(H(), freep, prevp, p, f, i, nunits)
        invariant if asked == 0 then H() == h else Enlarged(h, H(), freep, nunits, brk)
        decreases 1 - asked, Left(f, NextIndex(list, i), |list|)
      {
        ghost var j := NextIndex(list, i);
        ScanHere(H(), freep, prevp, p, f, i, j, nunits);
        if size[p] >= nunits {
          grant := Got;
          return;
        }
        if p == freep {
          AllSeen(H(), freep, prevp, p, f, i, nunits);
          NotLarge(H(), freep, f, nunits);
          asked := asked + 1;
          grant, f := Refill(nunits, brk);
          if grant != Got { return; }
          p := freep;
          i := f;
        } else {
          ScanNext(H(), freep, prevp, p, f, i, j, nunits);
          i := j;
        }
        prevp, p := p, ptr[p];
      }
    }

    /** free undoes malloc: the same blocks are in use, and all other memory is free, with
        what sbrk gave. Without that the same free blocks are left, of the same sizes; with
        it there is one way only to have it (Canonical). */
    method MallocFree(nbytes: nat, brk: Option<nat>) returns (r: Result, asked: nat)
      requires Valid() && freep != 0 && nbytes < 0x1_0000_0000 && (brk.Some? ==> Fresh(brk.value))
      modifies this`freep, this`ptr, this`size, this`list, this`used, this`arena
      ensures Valid() && arena == old(arena) + Gained(r, asked, nbytes, brk) && SameUse(old(H()).(arena := arena), H())
      ensures asked == 0 || !r.Block? ==>
        arena == old(arena) && list == old(list) && forall a :: a in list ==> a in size && a in old(size) && size[a] == old(size)[a]
      ensures r.Block? <==> !NoneFits(old(list), old(size), Units(nbytes)) || (brk.Some? && Units(nbytes) < TOO_MANY)
    {
      ghost var h := H();
      r, asked := Malloc(nbytes, brk);
      ghost var h1 := H();
      if r.Block? { Free(r.at); }
      ghost var h2 := H();
      assert h.used <= Keys(h.list) + h.used && h1.used <= Keys(h1.list) + h1.used;
      SameUseAfter(h, h1, h2);
      if asked == 0 || !r.Block? {
        assert Gained(r, asked, nbytes, brk) == {};
        assert h.(arena := arena) == h;
        Canonical(h, h2);
      }
    }
  }

  lemma NotListed(h: Shape, a: nat)
    requires Sane(h) && a in h.used
    ensures a !in h.list
  {
    forall i: nat | i < |h.list| ensures h.list[i] != a { ListSizes(h, i); }
  }
}
