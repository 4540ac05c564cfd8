/** The lists and block maps behind umalloc.c. Addresses are in bytes and sizes in
    headers of 8 bytes; a block includes its header. */
module FreeList {
  import Sets

  // ---------------------------------------------------------------- rings

  /** The element after position i, going round. */
  function Next(list: seq<nat>, i: nat): nat
    requires i < |list|
  {
    if i + 1 < |list| then list[i + 1] else list[0]
  }

  function NextIndex(list: seq<nat>, i: nat): nat
    requires i < |list|
  {
    if i + 1 < |list| then i + 1 else 0
  }

  ghost predicate LinkAt(list: seq<nat>, ptr: map<nat, nat>, i: nat)
    requires i < |list|
  {
    list[i] in ptr && ptr[list[i]] == Next(list, i)
  }

  /** ptr links the elements of list in a circle. */
  ghost predicate Ring(list: seq<nat>, ptr: map<nat, nat>) {
    list != [] && forall i: nat :: i < |list| ==> LinkAt(list, ptr, i)
  }

  ghost predicate Sorted(list: seq<nat>) {
    forall i, j :: 0 <= i < j < |list| ==> list[i] < list[j]
  }

  /** list with a put in at position k. */
  function Insert(list: seq<nat>, k: nat, a: nat): seq<nat>
    requires k <= |list|
  {
    list[..k] + [a] + list[k..]
  }

  function Remove(list: seq<nat>, k: nat): seq<nat>
    requires k < |list|
  {
    list[..k] + list[k + 1..]
  }

  /** Where a belongs: behind the last smaller element. */
  ghost predicate Fits(list: seq<nat>, k: nat, a: nat) {
    k < |list| && list[k] < a && (k + 1 < |list| ==> a < list[k + 1])
  }

  lemma {:induction false} FindSlot(list: seq<nat>, n: nat, a: nat) returns (k: nat)
    requires Sorted(list) && 0 < n <= |list| && list[0] < a && a !in list
    requires n < |list| ==> a < list[n]
    ensures Fits(list, k, a)
    decreases n
  {
    if list[n - 1] < a {
      k := n - 1;
    } else {
      k := FindSlot(list, n - 1, a);
    }
  }

  lemma InsertSorted(list: seq<nat>, k: nat, a: nat)
    requires Sorted(list) && Fits(list, k, a)
    ensures Sorted(Insert(list, k + 1, a))
  {
    var l := Insert(list, k + 1, a);
    forall i, j | 0 <= i < j < |l| ensures l[i] < l[j] {
      var i', j' := if i <= k then i else i - 1, if j <= k then j else j - 1;
      assert i != k + 1 ==> l[i] == list[i'];
      assert j != k + 1 ==> l[j] == list[j'];
    }
  }

  /** p->ptr = bp, bp->ptr = the old p->ptr. */
  lemma InsertRing(list: seq<nat>, ptr: map<nat, nat>, k: nat, a: nat)
    requires Ring(list, ptr) && Sorted(list) && Fits(list, k, a)
    ensures Ring(Insert(list, k + 1, a), ptr[a := Next(list, k)][list[k] := a])
  {
    var l, m := Insert(list, k + 1, a), ptr[a := Next(list, k)][list[k] := a];
    forall i: nat | i < |l| ensures LinkAt(l, m, i) {
      if i <= k { assert LinkAt(list, ptr, i) && l[i] == list[i]; }
      if i > k + 1 { assert LinkAt(list, ptr, i - 1) && l[i] == list[i - 1]; }
    }
  }

  lemma RemoveSorted(list: seq<nat>, k: nat)
    requires Sorted(list) && k < |list|
    ensures Sorted(Remove(list, k))
  {
  }

  /** prevp->ptr = p->ptr takes p out. */
  lemma RemoveRing(list: seq<nat>, ptr: map<nat, nat>, k: nat)
    requires Ring(list, ptr) && Sorted(list) && 0 < k < |list|
    ensures LinkAt(list, ptr, k) && Ring(Remove(list, k), ptr[list[k - 1] := ptr[list[k]]])
  {
    assert LinkAt(list, ptr, k);
    var l, m := Remove(list, k), ptr[list[k - 1] := ptr[list[k]]];
    forall i: nat | i < |l| ensures LinkAt(l, m, i) {
      if i < k { assert LinkAt(list, ptr, i) && l[i] == list[i]; } else { assert LinkAt(list, ptr, i + 1) && l[i] == list[i + 1]; }
    }
  }

  // --------------------------------------------------------------- blocks

  /** The first address behind block a. */
  function End(size: map<nat, nat>, a: nat): nat
    requires a in size
  {
    a + 8 * size[a]
  }

  ghost predicate Inside(keys: set<nat>, size: map<nat, nat>, x: nat)
    requires keys <= size.Keys
  {
    exists a :: a in keys && a <= x < End(size, a)
  }

  ghost predicate Apart(keys: set<nat>, size: map<nat, nat>)
    requires keys <= size.Keys
  {
    forall a, b :: a in keys && b in keys && a < b ==> End(size, a) <= b
  }

  /** The blocks cut the memory up: none is empty, they do not overlap, and together
      they are just the arena. */
  ghost predicate Tiles(keys: set<nat>, size: map<nat, nat>, arena: set<nat>) {
    && keys <= size.Keys && (forall a :: a in keys ==> size[a] > 0) && Apart(keys, size)
    && forall x: nat :: x in arena <==> Inside(keys, size, x)
  }

  lemma InsideBy(keys: set<nat>, size: map<nat, nat>, x: nat, a: nat)
    requires keys <= size.Keys && a in keys && a <= x < End(size, a)
    ensures Inside(keys, size, x)
  {
  }

  /** Two blocks that touch become one. */
  lemma JoinTiles(keys: set<nat>, size: map<nat, nat>, arena: set<nat>, a: nat, b: nat)
    requires Tiles(keys, size, arena) && a in keys && b in keys && a < b && End(size, a) == b
    ensures Tiles(keys - {b}, size[a := size[a] + size[b]], arena)
  {
    var keys', size' := keys - {b}, size[a := size[a] + size[b]];
    forall x: nat ensures x in arena <==> Inside(keys', size', x) {
      SplitInside(keys', size', keys, size, a, b, x);
    }
  }

  /** The tail of n headers is cut off block a. */
  lemma SplitTiles(keys: set<nat>, size: map<nat, nat>, arena: set<nat>, a: nat, n: nat, b: nat)
    requires Tiles(keys, size, arena) && a in keys && 0 < n < size[a] && b == a + 8 * (size[a] - n)
    ensures b !in keys && Tiles(keys + {b}, size[a := size[a] - n][b := n], arena)
  {
    var keys', size' := keys + {b}, size[a := size[a] - n][b := n];
    assert b !in keys && End(size', b) == End(size, a) && End(size', a) == b;
    forall x: nat ensures x in arena <==> Inside(keys', size', x) {
      SplitInside(keys, size, keys', size', a, b, x);
    }
  }

  lemma SplitInside(keys: set<nat>, size: map<nat, nat>, keys': set<nat>, size': map<nat, nat>, a: nat, b: nat, x: nat)
    requires keys <= size.Keys && a in keys && b !in keys && keys' == keys + {b} && keys' <= size'.Keys
    requires a < End(size', a) == b < End(size', b) == End(size, a)
    requires forall c :: c in keys && c != a ==> size'[c] == size[c]
    ensures Inside(keys, size, x) <==> Inside(keys', size', x)
  {
    if Inside(keys, size, x) {
      var c :| c in keys && c <= x < End(size, c);
      InsideBy(keys', size', x, if c == a && x >= b then b else c);
    }
    if Inside(keys', size', x) {
      var c :| c in keys' && c <= x < End(size', c);
      InsideBy(keys, size, x, if c == b then a else c);
    }
  }

  /** The n headers from address a on. */
  function Span(a: nat, n: nat): (s: set<nat>)
    ensures forall x: nat :: x in s <==> a <= x < a + 8 * n
  {
    Sets.Between(a, a + 8 * n)
  }

  /** Every block ends at or below top. */
  ghost predicate Under(keys: set<nat>, size: map<nat, nat>, top: nat)
    requires keys <= size.Keys
  {
    forall a :: a in keys ==> End(size, a) <= top
  }

  lemma ExtendTiles(keys: set<nat>, size: map<nat, nat>, arena: set<nat>, a: nat, n: nat)
    requires Tiles(keys, size, arena) && Under(keys, size, a) && n > 0
    ensures a !in keys && Tiles(keys + {a}, size[a := n], arena + Span(a, n))
  {
    var keys', size' := keys + {a}, size[a := n];
    forall x: nat ensures x in arena + Span(a, n) <==> Inside(keys', size', x) {
      ExtendInside(keys, size, a, n, x);
    }
  }

  lemma ExtendInside(keys: set<nat>, size: map<nat, nat>, a: nat, n: nat, x: nat)
    requires keys <= size.Keys && a !in keys
    ensures Inside(keys + {a}, size[a := n], x) <==> Inside(keys, size, x) || x in Span(a, n)
  {
    var keys', size' := keys + {a}, size[a := n];
    if Inside(keys, size, x) {
      var c :| c in keys && c <= x < End(size, c);
      InsideBy(keys', size', x, c);
    }
    if x in Span(a, n) { InsideBy(keys', size', x, a); }
    if Inside(keys', size', x) && x !in Span(a, n) {
      var c :| c in keys' && c <= x < End(size', c);
      InsideBy(keys, size, x, c);
    }
  }

  // ------------------------------------------------------------- free list

  /** The free blocks: the list but for its first element, which is the empty `base`. */
  ghost function Keys(list: seq<nat>): set<nat> {
    set i | 1 <= i < |list| :: list[i]
  }

  lemma InsertKeys(list: seq<nat>, k: nat, a: nat)
    requires k < |list|
    ensures Keys(Insert(list, k + 1, a)) == Keys(list) + {a}
  {
    var l := Insert(list, k + 1, a);
    forall x | x in Keys(list) + {a} ensures x in Keys(l) {
      if x in Keys(list) {
        var i :| 1 <= i < |list| && list[i] == x;
        assert l[if i <= k then i else i + 1] == x;
      } else {
        assert l[k + 1] == x;
      }
    }
  }

  lemma RemoveKeys(list: seq<nat>, k: nat)
    requires Sorted(list) && 1 <= k < |list|
    ensures list[k] in Keys(list) && Keys(Remove(list, k)) == Keys(list) - {list[k]}
  {
    var l := Remove(list, k);
    forall x | x in Keys(list) - {list[k]} ensures x in Keys(l) {
      var i :| 1 <= i < |list| && list[i] == x;
      assert l[if i < k then i else i - 1] == x;
    }
  }

  ghost predicate GapAt(list: seq<nat>, size: map<nat, nat>, i: nat) {
    i + 1 < |list| ==> list[i] in size && End(size, list[i]) != list[i + 1]
  }

  /** No two neighbours touch, except perhaps at positions k and l. */
  ghost predicate GapsBut(list: seq<nat>, size: map<nat, nat>, k: nat, l: nat) {
    forall i: nat :: i != k && i != l ==> GapAt(list, size, i)
  }

  /** Free blocks that touch have been joined. */
  ghost predicate Gaps(list: seq<nat>, size: map<nat, nat>) {
    forall i: nat :: GapAt(list, size, i)
  }

  // ----------------------------------------------------------------- heaps

  /** The allocator's variables, with the ghosts: the list in address order, the
      blocks in use, and all addresses obtained from sbrk. */
  datatype Shape = Shape(base: nat, list: seq<nat>, ptr: map<nat, nat>, size: map<nat, nat>, used: set<nat>, arena: set<nat>)

  /** The free list is a circle in address order from `base` round, and free and used
      blocks tile the arena. */
  ghost predicate Sane(h: Shape) {
    Listed(h) && Blocked(h)
  }

  ghost predicate Listed(h: Shape) {
    Ring(h.list, h.ptr) && Sorted(h.list) && h.list[0] == h.base && h.base in h.size && h.size[h.base] == 0
  }

  ghost predicate Blocked(h: Shape) {
    && h.used !! Keys(h.list) && Tiles(Keys(h.list) + h.used, h.size, h.arena)
    && forall a :: a in h.used ==> h.base < a
  }

  lemma ListSizes(h: Shape, i: nat)
    requires Sane(h) && i < |h.list|
    ensures h.list[i] in h.size && h.list[i] in h.ptr && h.list[i] !in h.used
    ensures i > 0 ==> h.list[i] in Keys(h.list) && h.size[h.list[i]] > 0 && h.base < h.list[i]
  {
    assert LinkAt(h.list, h.ptr, i);
  }

  /** p->ptr = bp and bp->ptr = q: the used block a goes into the list behind position k. */
  function Link(h: Shape, k: nat, a: nat): Shape
    requires k < |h.list|
  {
    h.(list := Insert(h.list, k + 1, a), ptr := h.ptr[a := Next(h.list, k)][h.list[k] := a], used := h.used - {a})
  }

  lemma LinkSane(h: Shape, k: nat, a: nat)
    requires Sane(h) && a in h.used && Fits(h.list, k, a)
    ensures Sane(Link(h, k, a))
  {
    InsertRing(h.list, h.ptr, k, a);
    InsertSorted(h.list, k, a);
    InsertKeys(h.list, k, a);
    assert Keys(h.list) + {a} + (h.used - {a}) == Keys(h.list) + h.used;
  }

  lemma LinkGaps(h: Shape, k: nat, a: nat)
    requires Gaps(h.list, h.size) && k < |h.list|
    ensures GapsBut(Link(h, k, a).list, h.size, k, k + 1)
  {
    var l := Link(h, k, a).list;
    forall i: nat | i != k && i != k + 1 ensures GapAt(l, h.size, i) {
      assert GapAt(h.list, h.size, if i < k then i else i - 1);
    }
  }

  /** Block i of the list touches the next one. */
  ghost predicate Touching(h: Shape, i: nat) {
    i + 1 < |h.list| && h.list[i] in h.size && End(h.size, h.list[i]) == h.list[i + 1]
  }

  /** It takes that one in. */
  function Merge(h: Shape, i: nat): Shape
    requires i + 1 < |h.list| && h.list[i] in h.size && h.list[i + 1] in h.size && h.list[i + 1] in h.ptr
  {
    h.(list := Remove(h.list, i + 1), ptr := h.ptr[h.list[i] := h.ptr[h.list[i + 1]]],
       size := h.size[h.list[i] := h.size[h.list[i]] + h.size[h.list[i + 1]]])
  }

  /** Only real blocks touch: base lies below the others. */
  lemma TouchingReal(h: Shape, i: nat)
    requires Sane(h) && Touching(h, i)
    ensures 0 < i && h.list[i + 1] in h.size && h.list[i + 1] in h.ptr
  {
    ListSizes(h, i + 1);
  }

  lemma MergeSane(h: Shape, i: nat)
    requires Sane(h) && Touching(h, i) && h.list[i + 1] in h.size && h.list[i + 1] in h.ptr
    ensures Sane(Merge(h, i))
  {
    TouchingReal(h, i);
    ListSizes(h, i);
    ListSizes(h, i + 1);
    MergeListed(h, i);
    MergeBlocked(h, i);
  }

  lemma MergeListed(h: Shape, i: nat)
    requires Listed(h) && 0 < i && i + 1 < |h.list| && h.list[i] in h.size && h.list[i + 1] in h.size && h.list[i + 1] in h.ptr
    ensures Listed(Merge(h, i))
  {
    RemoveRing(h.list, h.ptr, i + 1);
    RemoveSorted(h.list, i + 1);
  }

  lemma MergeBlocked(h: Shape, i: nat)
    requires Blocked(h) && Sorted(h.list) && 0 < i && Touching(h, i) && h.list[i + 1] in h.size && h.list[i + 1] in h.ptr
    requires h.list[i] in Keys(h.list)
    ensures Blocked(Merge(h, i))
  {
    MergeTiles(h.list, h.used, h.size, h.arena, i);
  }

  /** What merging does to the blocks. */
  lemma MergeTiles(list: seq<nat>, used: set<nat>, size: map<nat, nat>, arena: set<nat>, i: nat)
    requires Tiles(Keys(list) + used, size, arena) && used !! Keys(list) && Sorted(list) && 0 < i && i + 1 < |list|
    requires list[i] in Keys(list) && list[i] in size && list[i + 1] in size && End(size, list[i]) == list[i + 1]
    ensures used !! Keys(Remove(list, i + 1))
    ensures Tiles(Keys(Remove(list, i + 1)) + used, size[list[i] := size[list[i]] + size[list[i + 1]]], arena)
  {
    RemoveKeys(list, i + 1);
    MinusUnion(Keys(list), used, list[i + 1]);
    JoinTiles(Keys(list) + used, size, arena, list[i], list[i + 1]);
  }

  lemma MinusUnion(keys: set<nat>, used: set<nat>, a: nat)
    requires a !in used
    ensures keys + used - {a} == keys - {a} + used
  {
  }

  lemma MergeGaps(h: Shape, i: nat, j: nat)
    requires Sorted(h.list) && GapsBut(h.list, h.size, i, j) && j <= i && Touching(h, i)
    requires h.list[i + 1] in h.size && h.list[i + 1] in h.ptr
    ensures var h' := Merge(h, i);
            if j == i then Gaps(h'.list, h'.size) else GapsBut(h'.list, h'.size, j, j)
  {
    var h' := Merge(h, i);
    forall m: nat | m != j || j == i ensures GapAt(h'.list, h'.size, m) {
      if m + 1 < |h'.list| { assert GapAt(h.list, h.size, if m < i then m else m + 1); }
    }
  }

  /** prevp->ptr = p->ptr: block i of the list is used. */
  function Unlink(h: Shape, i: nat): Shape
    requires 0 < i < |h.list| && h.list[i] in h.ptr
  {
    h.(list := Remove(h.list, i), ptr := h.ptr[h.list[i - 1] := h.ptr[h.list[i]]], used := h.used + {h.list[i]})
  }

  lemma UnlinkSane(h: Shape, i: nat)
    requires Sane(h) && 0 < i < |h.list| && h.list[i] in h.ptr
    ensures Sane(Unlink(h, i))
  {
    ListSizes(h, i);
    RemoveRing(h.list, h.ptr, i);
    RemoveSorted(h.list, i);
    RemoveKeys(h.list, i);
    assert Keys(h.list) + h.used == Keys(Remove(h.list, i)) + (h.used + {h.list[i]});
  }

  lemma UnlinkGaps(h: Shape, i: nat)
    requires Sane(h) && Gaps(h.list, h.size) && 0 < i < |h.list|
    ensures Gaps(Remove(h.list, i), h.size)
  {
    var l := Remove(h.list, i);
    forall m: nat ensures GapAt(l, h.size, m) {
      if m + 1 < |l| { assert GapAt(h.list, h.size, if m < i then m else m + 1); }
      if m == i - 1 && m + 1 < |l| {
        ListSizes(h, m);
        if m > 0 { ListSizes(h, i); }
      }
    }
  }

  /** The tail of n headers of block i of the list is used. */
  function Carve(h: Shape, i: nat, n: nat): Shape
    requires i < |h.list| && h.list[i] in h.size && n < h.size[h.list[i]]
  {
    var rest := h.size[h.list[i]] - n;
    var b := h.list[i] + 8 * rest;
    h.(size := h.size[h.list[i] := rest][b := n], used := h.used + {b})
  }

  lemma CarveSane(h: Shape, i: nat, n: nat)
    requires Sane(h) && 0 < i < |h.list| && h.list[i] in h.size && 0 < n < h.size[h.list[i]]
    ensures Sane(Carve(h, i, n))
    ensures h.list[i] + 8 * (h.size[h.list[i]] - n) !in Keys(h.list) + h.used + {h.base}
  {
    ListSizes(h, i);
    CarveListed(h, i, n);
    CarveBlocked(h, i, n);
  }

  lemma CarveListed(h: Shape, i: nat, n: nat)
    requires Listed(h) && i < |h.list| && h.base < h.list[i] && h.list[i] in h.size && n < h.size[h.list[i]]
    ensures Listed(Carve(h, i, n))
  {
  }

  lemma CarveBlocked(h: Shape, i: nat, n: nat)
    requires Blocked(h) && i < |h.list| && h.list[i] in Keys(h.list) && h.base < h.list[i]
    requires h.list[i] in h.size && 0 < n < h.size[h.list[i]]
    ensures Blocked(Carve(h, i, n)) && h.list[i] + 8 * (h.size[h.list[i]] - n) !in Keys(h.list) + h.used + {h.base}
  {
    CarveTiles(Keys(h.list), h.used, h.size, h.arena, h.list[i], n, h.list[i] + 8 * (h.size[h.list[i]] - n));
  }

  lemma CarveTiles(keys: set<nat>, used: set<nat>, size: map<nat, nat>, arena: set<nat>, a: nat, n: nat, b: nat)
    requires Tiles(keys + used, size, arena) && a in keys && a in size && 0 < n < size[a] && b == a + 8 * (size[a] - n)
    ensures b !in keys + used && b > a && Tiles(keys + (used + {b}), size[a := size[a] - n][b := n], arena)
  {
    SplitTiles(keys + used, size, arena, a, n, b);
    assert keys + used + {b} == keys + (used + {b});
  }

  lemma CarveGaps(h: Shape, i: nat, n: nat)
    requires Sane(h) && Gaps(h.list, h.size) && 0 < i < |h.list| && h.list[i] in h.size && 0 < n < h.size[h.list[i]]
    ensures Gaps(h.list, Carve(h, i, n).size)
  {
    var h' := Carve(h, i, n);
    CarveSane(h, i, n);
    forall m: nat ensures GapAt(h.list, h'.size, m) {
      assert GapAt(h.list, h.size, m);
      if m + 1 < |h.list| { ListSizes(h, m); ListSizes(h, m + 1); }
    }
  }

  /** sbrk gives n headers from a on, above everything else. */
  function Extend(h: Shape, a: nat, n: nat): Shape {
    h.(size := h.size[a := n], used := h.used + {a}, arena := h.arena + Span(a, n))
  }

  /** Every block and the base lie below address a. */
  ghost predicate Below(h: Shape, a: nat) {
    h.base < a && Keys(h.list) + h.used <= h.size.Keys && Under(Keys(h.list) + h.used, h.size, a)
  }

  lemma ExtendSane(h: Shape, a: nat, n: nat)
    requires Sane(h) && Below(h, a) && n > 0
    ensures a !in Keys(h.list) + h.used && Sane(Extend(h, a, n))
  {
    ExtendTiles(Keys(h.list) + h.used, h.size, h.arena, a, n);
    assert Keys(h.list) + h.used + {a} == Keys(h.list) + (h.used + {a});
  }

  lemma ExtendGaps(h: Shape, a: nat, n: nat)
    requires Sane(h) && Gaps(h.list, h.size) && Below(h, a) && n > 0
    ensures Gaps(h.list, Extend(h, a, n).size)
  {
    ExtendSane(h, a, n);
    forall m: nat ensures GapAt(h.list, Extend(h, a, n).size, m) {
      assert GapAt(h.list, h.size, m);
      if m + 1 < |h.list| { ListSizes(h, m); }
    }
  }
}
