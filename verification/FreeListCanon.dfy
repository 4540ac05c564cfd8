/** The free list has no memory of its history: the arena and the blocks in use
    determine it. */
module FreeListCanon {
  import opened FreeList

  lemma {:induction false} SortedUnique(l: seq<nat>, m: seq<nat>)
    requires Sorted(l) && Sorted(m) && forall x :: x in l <==> x in m
    ensures l == m
    decreases |l|
  {
    assert m != [] ==> m[0] in l;
    assert l != [] ==> l[0] in m;
    if l != [] {
      var a, b := |l| - 1, |m| - 1;
      assert l[a] in m && m[b] in l;
      assert l[a] == m[b];
      forall x ensures x in l[..a] <==> x in m[..b] {
        assert x in l[..a] <==> x in l && x != l[a];
        assert x in m[..b] <==> x in m && x != m[b];
      }
      SortedUnique(l[..a], m[..b]);
    }
  }

  ghost predicate KeysSized(h: Shape) {
    Keys(h.list) <= h.size.Keys && h.used <= h.size.Keys
  }

  /** x lies in a free block. */
  ghost predicate FreeAt(h: Shape, x: nat)
    requires KeysSized(h)
  {
    Inside(Keys(h.list), h.size, x)
  }

  /** Free is what is not used. */
  lemma FreeIsRest(h: Shape, x: nat)
    requires Sane(h) && KeysSized(h)
    ensures FreeAt(h, x) <==> x in h.arena && !Inside(h.used, h.size, x)
  {
    var keys := Keys(h.list) + h.used;
    if FreeAt(h, x) {
      var a :| a in Keys(h.list) && a <= x < End(h.size, a);
      InsideBy(keys, h.size, x, a);
      forall b | b in h.used ensures !(b <= x < End(h.size, b)) {
        assert a in keys && b in keys && a != b;
      }
    }
    if x in h.arena {
      var a :| a in keys && a <= x < End(h.size, a);
      if a in Keys(h.list) { InsideBy(Keys(h.list), h.size, x, a); } else { InsideBy(h.used, h.size, x, a); }
    }
  }

  /** Two free blocks do not touch, in list order or not. */
  lemma NeverTouch(h: Shape, a: nat, b: nat)
    requires Sane(h) && Gaps(h.list, h.size) && KeysSized(h) && a in Keys(h.list) && b in Keys(h.list)
    ensures End(h.size, a) != b
  {
    var i :| 1 <= i < |h.list| && h.list[i] == a;
    var j :| 1 <= j < |h.list| && h.list[j] == b;
    ListSizes(h, i);
    assert GapAt(h.list, h.size, i);
    if i + 1 < j {
      ListSizes(h, i + 1);
      assert a in Keys(h.list) + h.used && h.list[i + 1] in Keys(h.list) + h.used;
    }
  }

  /** A free block starts where free addresses start. */
  lemma StartsFree(h: Shape, a: nat)
    requires Sane(h) && Gaps(h.list, h.size) && KeysSized(h) && a > 0
    ensures a in Keys(h.list) <==> FreeAt(h, a) && !FreeAt(h, a - 1)
  {
    var keys := Keys(h.list) + h.used;
    if a in Keys(h.list) {
      assert a in keys;
      InsideBy(Keys(h.list), h.size, a, a);
      if FreeAt(h, a - 1) {
        var c :| c in Keys(h.list) && c <= a - 1 < End(h.size, c);
        assert c in keys;
        NeverTouch(h, c, a);
      }
    } else if FreeAt(h, a) {
      var c :| c in Keys(h.list) && c <= a < End(h.size, c);
      InsideBy(Keys(h.list), h.size, a - 1, c);
    }
  }

  /** And ends where they end. */
  lemma EndsFree(h: Shape, a: nat)
    requires Sane(h) && Gaps(h.list, h.size) && KeysSized(h) && a in Keys(h.list)
    ensures !FreeAt(h, End(h.size, a))
    ensures forall x: nat :: a <= x < End(h.size, a) ==> FreeAt(h, x)
  {
    forall x: nat | a <= x < End(h.size, a) ensures FreeAt(h, x) { InsideBy(Keys(h.list), h.size, x, a); }
    var e := End(h.size, a);
    if FreeAt(h, e) {
      var c :| c in Keys(h.list) && c <= e < End(h.size, c);
      assert c in Keys(h.list) + h.used && a in Keys(h.list) + h.used;
      NeverTouch(h, a, c);
    }
  }

  /** Same base, arena and used blocks, with the same sizes. */
  ghost predicate SameUse(h: Shape, h': Shape) {
    && h'.base == h.base && h'.arena == h.arena && h'.used == h.used
    && forall a :: a in h.used ==> a in h.size && a in h'.size && h'.size[a] == h.size[a]
  }

  lemma SameFreeAt(h: Shape, h': Shape, x: nat)
    requires Sane(h) && Sane(h') && KeysSized(h) && KeysSized(h') && SameUse(h, h')
    ensures FreeAt(h, x) <==> FreeAt(h', x)
  {
    FreeIsRest(h, x);
    FreeIsRest(h', x);
    if Inside(h.used, h.size, x) {
      var a :| a in h.used && a <= x < End(h.size, a);
      InsideBy(h'.used, h'.size, x, a);
    }
    if Inside(h'.used, h'.size, x) {
      var a :| a in h'.used && a <= x < End(h'.size, a);
      InsideBy(h.used, h.size, x, a);
    }
  }

  lemma SameKeys(h: Shape, h': Shape)
    requires Sane(h) && Sane(h') && Gaps(h.list, h.size) && Gaps(h'.list, h'.size) && SameUse(h, h')
    requires KeysSized(h) && KeysSized(h')
    ensures Keys(h'.list) == Keys(h.list)
  {
    forall a: nat ensures a in Keys(h.list) <==> a in Keys(h'.list) {
      if a > 0 {
        StartsFree(h, a);
        StartsFree(h', a);
        SameFreeAt(h, h', a);
        SameFreeAt(h, h', a - 1);
      }
    }
  }

  /** The free list is determined: its blocks and their sizes. */
  lemma Canonical(h: Shape, h': Shape)
    requires Sane(h) && Sane(h') && Gaps(h.list, h.size) && Gaps(h'.list, h'.size) && SameUse(h, h')
    ensures h'.list == h.list
    ensures forall a :: a in h.list ==> a in h.size && a in h'.size && h'.size[a] == h.size[a]
  {
    SameKeys(h, h');
    forall x ensures x in h.list <==> x in h'.list {
      ElementIs(h.list, x);
      ElementIs(h'.list, x);
    }
    SortedUnique(h.list, h'.list);
    forall a | a in h.list && a != h.base ensures h'.size[a] == h.size[a] {
      ElementIs(h.list, a);
      EndsFree(h, a);
      EndsFree(h', a);
      SameFreeAt(h, h', End(h.size, a));
      SameFreeAt(h, h', End(h'.size, a));
    }
  }

  lemma ElementIs(l: seq<nat>, x: nat)
    requires l != []
    ensures x in l <==> x == l[0] || x in Keys(l)
  {
  }
}
