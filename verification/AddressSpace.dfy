/** What vm.c does to address spaces, as relations between the world before and after,
    and how these compose. An address space is named by a number where the code has a
    pgdir pointer. */
module AddressSpace {
  import opened Blocks
  import opened Options
  import opened Frames
  import opened Paging
  import opened CowSteps

  /** Only address space id differs; the others keep their very tables. */
  ghost predicate OnlySpace(w: World, w': World, id: nat) {
    && w'.stacks == w.stacks && w'.mem.lo == w.mem.lo
    && forall i: nat :: i != id ==> (i in w'.dirs <==> i in w.dirs) && (i in w.dirs ==> w'.dirs[i] == w.dirs[i])
  }

  lemma OnlySpaceTrans(w: World, w1: World, w2: World, id: nat)
    requires OnlySpace(w, w1, id) && OnlySpace(w1, w2, id)
    ensures OnlySpace(w, w2, id)
  {
  }

  /** Address space id is gone, and nothing else has changed. */
  ghost predicate Freed(w: World, w': World, id: nat) {
    && OnlySpace(w, w', id) && id !in w'.dirs
    && forall i: nat, v: nat :: i != id ==> See(w', i, v) == See(w, i, v)
  }

  /** Held frames stay held. */
  ghost predicate HeldKept(R: Refs, R': Refs, held: set<Ref>) {
    forall r :: r in held ==> Get(R', r) == Get(R, r)
  }

  /** PGROUNDUP, as a page number. */
  function Up(size: nat): nat {
    (size + PGSIZE - 1) / PGSIZE
  }

  /** The pages below it are those with bytes below the size. */
  lemma UpIs(size: nat, v: nat)
    ensures v < Up(size) <==> v * PGSIZE < size
  {
  }

  /** Page v of address space i after id lost its pages from start up to end: gone,
      in the tables and in the view, if it was one of them and not missed, and as
      before otherwise. */
  ghost predicate GoneAt(w: World, w': World, id: nat, start: nat, end: nat, i: nat, v: nat)
    requires id in w.dirs && id in w'.dirs
  {
    var gone := i == id && start <= v < end && !Missed(w.dirs[id], start, v);
    && (i == id ==> Lookup(w'.dirs[id], v) == if gone then None else Lookup(w.dirs[id], v))
    && See(w', i, v) == if gone then None else See(w, i, v)
  }

  ghost predicate Removed(w: World, w': World, id: nat, start: nat, end: nat)
    requires id in w.dirs && id in w'.dirs
  {
    forall i: nat, v: nat :: GoneAt(w, w', id, start, end, i, v)
  }

  ghost predicate SameLookups(d: Dir, d': Dir) {
    forall v: nat :: Lookup(d', v) == Lookup(d, v)
  }

  /** No table is lost. */
  ghost predicate TabsKept(d: Dir, d': Dir) {
    forall x :: x in d.tabs ==> x in d'.tabs
  }

  /** From w to w', the only pages taken were for tables of id. */
  ghost predicate Spent(w: World, w': World, id: nat) {
    && id in w.dirs && id in w'.dirs
    && |w'.mem.free| + |w'.dirs[id].tabs| == |w.mem.free| + |w.dirs[id].tabs|
  }

  /** From w to w', the pages taken were n and those for the tables of the new space c. */
  ghost predicate Cost(w: World, w': World, c: nat, n: nat) {
    c in w'.dirs && |w'.mem.free| + |w'.dirs[c].tabs| + n == |w.mem.free|
  }

  /** None of the table slots from x up to y exists. */
  ghost predicate NoTabs(d: Dir, x: nat, y: nat) {
    forall s :: x <= s < y ==> s !in d.tabs
  }

  /** The pages that deallocuvm steps over: it enters the first table that exists
      after missing ones at the offset it started with. */
  ghost predicate Missed(d: Dir, start: nat, v: nat) {
    start / NPT < v / NPT && v % NPT < start % NPT && NoTabs(d, start / NPT, v / NPT)
  }

  /** Where deallocuvm can stand: still skipping (no table so far), inside the first
      table it met, or past a table and then at the beginning of one or inside it. */
  ghost predicate Standing(d: Dir, start: nat, a: nat) {
    && start <= a
    && if NoTabs(d, start / NPT, a / NPT) then
         a % NPT == start % NPT || (a / NPT in d.tabs && a % NPT > start % NPT)
       else
         a / NPT in d.tabs || a % NPT == 0
  }

  lemma StandingHere(d: Dir, start: nat, a: nat)
    requires Standing(d, start, a)
    ensures start <= a && !Missed(d, start, a)
  {
  }

  lemma StandingNext(d: Dir, start: nat, a: nat)
    requires Standing(d, start, a) && a / NPT in d.tabs
    ensures Standing(d, start, a + 1)
  {
    if (a + 1) / NPT == a / NPT {
      assert (a + 1) % NPT == a % NPT + 1;
    } else {
      assert (a + 1) / NPT == a / NPT + 1 && (a + 1) % NPT == 0;
    }
  }

  /** Stepping over a missing table passes pages that are not mapped or are missed. */
  lemma StandingSkip(d: Dir, start: nat, a: nat, v: nat)
    requires Standing(d, start, a) && a / NPT !in d.tabs
    ensures Standing(d, start, a + NPT)
    ensures a <= v < a + NPT && !Missed(d, start, v) ==> Lookup(d, v) == None
  {
    assert (a + NPT) / NPT == a / NPT + 1 && (a + NPT) % NPT == a % NPT;
    if a <= v < a + NPT && v / NPT != a / NPT {
      assert v / NPT == a / NPT + 1 && v % NPT < a % NPT;
    }
  }

  ghost predicate BlankAt(d: Dir, start: nat, from: nat, a: nat, v: nat) {
    from <= v < a && !Missed(d, start, v) ==> Lookup(d, v) == None
  }

  /** The invariant of the loop in deallocuvm; behind `end`, nothing passed was mapped. */
  ghost predicate Cleared(w: World, w': World, id: nat, start: nat, end: nat, a: nat) {
    && id in w.dirs && id in w'.dirs && w'.dirs[id].tabs.Keys == w.dirs[id].tabs.Keys
    && Standing(w.dirs[id], start, a) && Removed(w, w', id, start, a)
    && forall v: nat :: BlankAt(w.dirs[id], start, end, a, v)
  }

  lemma ClearedStart(w: World, id: nat, start: nat, end: nat)
    requires id in w.dirs && start <= end
    ensures Cleared(w, w, id, start, end, start)
  {
  }

  lemma ClearedSkip(w: World, w': World, id: nat, start: nat, end: nat, a: nat, next: nat)
    requires Cleared(w, w', id, start, end, a) && a < end && a / NPT !in w'.dirs[id].tabs && next == a + NPT
    ensures Cleared(w, w', id, start, end, next)
  {
    StandingSkip(w.dirs[id], start, a, a);
    forall v: nat ensures BlankAt(w.dirs[id], start, end, next, v) {
      StandingSkip(w.dirs[id], start, a, v);
    }
    forall i: nat, v: nat ensures GoneAt(w, w', id, start, next, i, v) {
      assert GoneAt(w, w', id, start, a, i, v);
      StandingSkip(w.dirs[id], start, a, v);
    }
  }

  lemma ClearedNext(w: World, w1: World, w2: World, id: nat, start: nat, end: nat, a: nat, next: nat)
    requires Cleared(w, w1, id, start, end, a) && a < end && a / NPT in w1.dirs[id].tabs && next == a + 1
    requires id in w2.dirs && ClearedAt(w1.dirs[id], w2.dirs[id], a)
    requires SameViewsBut(w1, w2, id, a) && See(w2, id, a) == None
    ensures Cleared(w, w2, id, start, end, next)
  {
    StandingHere(w.dirs[id], start, a);
    StandingNext(w.dirs[id], start, a);
    forall i: nat, v: nat ensures GoneAt(w, w2, id, start, next, i, v) {
      assert GoneAt(w, w1, id, start, a, i, v);
    }
    forall v: nat ensures BlankAt(w.dirs[id], start, end, next, v) { }
  }

  lemma ClearedEnd(w: World, w': World, id: nat, start: nat, end: nat, a: nat)
    requires Cleared(w, w', id, start, end, a) && end <= a
    ensures Removed(w, w', id, start, end)
  {
    forall i: nat, v: nat ensures GoneAt(w, w', id, start, end, i, v) {
      assert GoneAt(w, w', id, start, a, i, v) && BlankAt(w.dirs[id], start, end, a, v);
    }
  }

  /** After deallocuvm the range is empty just when none of its pages was stepped over. */
  lemma RemovedExactly(w: World, w': World, id: nat, start: nat, end: nat)
    requires id in w.dirs && id in w'.dirs && Removed(w, w', id, start, end)
    ensures (forall v: nat :: start <= v < end ==> Lookup(w'.dirs[id], v) == None)
            <==> forall v: nat :: start <= v < end && Missed(w.dirs[id], start, v) ==> Lookup(w.dirs[id], v) == None
  {
    forall v: nat | start <= v < end
      ensures Lookup(w'.dirs[id], v) == if Missed(w.dirs[id], start, v) then Lookup(w.dirs[id], v) else None
    {
      assert GoneAt(w, w', id, start, end, id, v);
    }
  }

  /** The user pages of d are the first n. */
  ghost predicate Contiguous(d: Dir, n: nat) {
    forall v: nat :: v < USER_PAGES ==> (Lookup(d, v).Some? <==> v < n)
  }

  /** It steps over no mapped page if it starts on a table boundary or the pages are
      contiguous from 0. */
  lemma NoneSteppedOver(d: Dir, start: nat, n: nat, v: nat)
    requires start % NPT == 0 || Contiguous(d, n)
    requires start <= v < USER_PAGES && Lookup(d, v).Some?
    ensures !Missed(d, start, v)
  {
    if Contiguous(d, n) { assert Lookup(d, start).Some?; }
  }

  /** Otherwise it can: from inside a missing table on, the pages at the beginning of the
      next one are left mapped. */
  lemma SteppedOver(w: World, w': World, id: nat, start: nat, end: nat, v: nat)
    requires id in w.dirs && id in w'.dirs && Removed(w, w', id, start, end)
    requires start / NPT !in w.dirs[id].tabs && v / NPT == start / NPT + 1 && v % NPT < start % NPT && v < end
    ensures Lookup(w'.dirs[id], v) == Lookup(w.dirs[id], v) && See(w', id, v) == See(w, id, v)
  {
    assert GoneAt(w, w', id, start, end, id, v);
  }

  ghost predicate TabsFrom(d: Dir, i: nat) {
    forall x :: x in d.tabs ==> i <= x
  }

  lemma TabsSkip(d: Dir, x: Slot, next: nat)
    requires TabsFrom(d, x) && x !in d.tabs && next == x + 1
    ensures TabsFrom(d, next)
  {
  }

  lemma NoTabsLeft(d: Dir)
    requires TabsFrom(d, NPT)
    ensures d.tabs == map[]
  {
  }

  /** d' is d with the entry of page v cleared. */
  ghost predicate ClearedAt(d: Dir, d': Dir, v: nat) {
    && d'.frame == d.frame && d'.tabs.Keys == d.tabs.Keys
    && forall x: nat :: Lookup(d', x) == if x == v then None else Lookup(d, x)
  }

  lemma ClearPteCleared(d: Dir, v: nat)
    requires v / NPT in d.tabs
    ensures ClearedAt(d, ClearPte(d, v), v)
  {
    forall x: nat ensures Lookup(ClearPte(d, v), x) == if x == v then None else Lookup(d, x) {
      ClearPteLookup(d, v, x);
    }
  }

  lemma UnmapStep(w: World, held: set<Ref>, id: nat, v: nat)
    requires Sound(w, held) && id in w.dirs && v < USER_PAGES && Lookup(w.dirs[id], v).Some?
    ensures Managed(w.mem, Lookup(w.dirs[id], v).value.frame) && Lookup(w.dirs[id], v).value.frame !in w.mem.free
    ensures Lookup(w.dirs[id], v).value.frame < |w.mem.refs| == |w.mem.pages|
    ensures var w' := Unmap(w, id, v);
            && Sound(w', held) && SameViewsBut(w, w', id, v) && See(w', id, v) == None
            && OnlySpace(w, w', id) && ClearedAt(w.dirs[id], w'.dirs[id], v) && HeldKept(w.R, w'.R, held)
  {
    MappedIsHeld(w, held, id, v);
    UnmapSound(w, held, id, v);
    ClearPteCleared(w.dirs[id], v);
  }

  /** Address space id still has its directory, but maps no user page. */
  ghost predicate Emptied(w: World, w': World, id: nat) {
    && OnlySpace(w, w', id) && id in w'.dirs
    && (forall v: nat :: v < USER_PAGES ==> Lookup(w'.dirs[id], v) == None)
    && forall i: nat, v: nat :: i != id ==> See(w', i, v) == See(w, i, v)
  }

  lemma EmptiedDrop(w: World, w1: World, held: set<Ref>, id: nat, x: Slot, next: nat)
    requires next == x + 1 && Sound(w1, held) && Emptied(w, w1, id) && x in w1.dirs[id].tabs && TabsFrom(w1.dirs[id], x)
    ensures var f := w1.dirs[id].tabs[x].frame;
            f < |w1.mem.refs| == |w1.mem.pages| && f !in w1.mem.free && Managed(w1.mem, f)
    ensures var w2 := DropTab(w1, id, x);
            Sound(w2, held) && Emptied(w, w2, id) && TabsFrom(w2.dirs[id], next)
  {
    DropTabSound(w1, held, id, x);
  }

  /** From page 0 on deallocuvm misses nothing. */
  lemma RemovedAll(w: World, w': World, id: nat)
    requires id in w.dirs && id in w'.dirs && OnlySpace(w, w', id) && Removed(w, w', id, Up(0), Up(USER_PAGES * PGSIZE))
    ensures Emptied(w, w', id)
  {
    assert Up(0) == 0 && Up(USER_PAGES * PGSIZE) == USER_PAGES;
    forall v: nat | v < USER_PAGES ensures Lookup(w'.dirs[id], v) == None {
      assert GoneAt(w, w', id, 0, USER_PAGES, id, v);
    }
    forall i: nat, v: nat | i != id ensures See(w', i, v) == See(w, i, v) {
      assert GoneAt(w, w', id, 0, USER_PAGES, i, v);
    }
  }

  // ------------------------------------------------------------- growing

  /** Page v of address space i after id grew from page start up to end: new, zero,
      writable and accessible, or as before. */
  ghost predicate GrownAt(w: World, w': World, id: nat, start: nat, end: nat, i: nat, v: nat)
    requires id in w.dirs && id in w'.dirs
  {
    var grown := i == id && start <= v < end;
    && (i == id ==> if grown then Lookup(w'.dirs[id], v).Some? && Lookup(w'.dirs[id], v).value.w && Lookup(w'.dirs[id], v).value.u
                    else Lookup(w'.dirs[id], v) == Lookup(w.dirs[id], v))
    && See(w', i, v) == if grown then Some(Seen(ZeroPage, true)) else See(w, i, v)
  }

  ghost predicate Grown(w: World, w': World, id: nat, start: nat, end: nat) {
    && id in w.dirs && id in w'.dirs && OnlySpace(w, w', id) && w'.dirs[id].frame == w.dirs[id].frame
    && TabsKept(w.dirs[id], w'.dirs[id])
    && forall i: nat, v: nat :: GrownAt(w, w', id, start, end, i, v)
  }

  /** In bytes: the pages that begin from oldsz on and below newsz are new, and zero. */
  ghost predicate GrownBytes(w: World, w': World, id: nat, oldsz: nat, newsz: nat) {
    forall v: nat :: See(w', id, v) == if oldsz <= v * PGSIZE < newsz then Some(Seen(ZeroPage, true)) else See(w, id, v)
  }

  lemma GrownIs(w: World, w': World, id: nat, oldsz: nat, newsz: nat)
    requires Grown(w, w', id, Up(oldsz), Up(newsz))
    ensures GrownBytes(w, w', id, oldsz, newsz)
  {
    forall v: nat
      ensures See(w', id, v) == if oldsz <= v * PGSIZE < newsz then Some(Seen(ZeroPage, true)) else See(w, id, v)
    {
      assert GrownAt(w, w', id, Up(oldsz), Up(newsz), id, v);
      UpIs(oldsz, v);
      UpIs(newsz, v);
    }
  }

  /** One page was mapped, and nothing else changed but perhaps a new table. */
  ghost predicate MappedOne(w: World, w': World, id: nat, v: nat, p: Pte, seen: Seen) {
    && id in w.dirs && id in w'.dirs && OnlySpace(w, w', id) && w'.dirs[id].frame == w.dirs[id].frame
    && TabsKept(w.dirs[id], w'.dirs[id])
    && (forall x: nat :: Lookup(w'.dirs[id], x) == if x == v then Some(p) else Lookup(w.dirs[id], x))
    && SameViewsBut(w, w', id, v) && See(w', id, v) == Some(seen)
  }

  /** At most new tables. */
  ghost predicate Padded(w: World, w': World, id: nat) {
    && id in w.dirs && id in w'.dirs && OnlySpace(w, w', id) && w'.dirs[id].frame == w.dirs[id].frame
    && TabsKept(w.dirs[id], w'.dirs[id])
    && SameLookups(w.dirs[id], w'.dirs[id]) && SameViews(w, w')
  }

  lemma PaddedSelf(w: World, id: nat)
    requires id in w.dirs
    ensures Padded(w, w, id)
  {
  }

  lemma PaddedTrans(w: World, w1: World, w2: World, id: nat)
    requires Padded(w, w1, id) && Padded(w1, w2, id)
    ensures Padded(w, w2, id)
  {
    OnlySpaceTrans(w, w1, w2, id);
  }

  lemma GrownStart(w: World, id: nat, start: nat)
    requires id in w.dirs
    ensures Grown(w, w, id, start, start)
  {
  }

  lemma GrownNext(w: World, w1: World, w2: World, id: nat, start: nat, a: nat, next: nat, p: Pte)
    requires Grown(w, w1, id, start, a) && MappedOne(w1, w2, id, a, p, Seen(ZeroPage, true))
    requires p.w && p.u && start <= a && next == a + 1
    ensures Grown(w, w2, id, start, next)
  {
    OnlySpaceTrans(w, w1, w2, id);
    forall i: nat, v: nat ensures GrownAt(w, w2, id, start, next, i, v) {
      assert GrownAt(w, w1, id, start, a, i, v);
    }
  }

  lemma GrownPadded(w: World, w1: World, w2: World, id: nat, start: nat, a: nat)
    requires Grown(w, w1, id, start, a) && Padded(w1, w2, id)
    ensures Grown(w, w2, id, start, a)
  {
    OnlySpaceTrans(w, w1, w2, id);
    forall i: nat, v: nat ensures GrownAt(w, w2, id, start, a, i, v) {
      assert GrownAt(w, w1, id, start, a, i, v);
    }
  }

  /** Giving up half way: deallocuvm takes back just the new pages, none of which it
      steps over, because the first of them has its table. */
  lemma GrownBack(w: World, w1: World, w2: World, id: nat, start: nat, a: nat, end: nat)
    requires Grown(w, w1, id, start, a) && start <= a <= end && NoneMapped(w.dirs[id], start, end)
    requires id in w2.dirs && OnlySpace(w1, w2, id) && w2.dirs[id].frame == w1.dirs[id].frame
    requires Removed(w1, w2, id, start, end) && end <= USER_PAGES && w2.dirs[id].tabs.Keys == w1.dirs[id].tabs.Keys
    ensures Padded(w, w2, id)
  {
    OnlySpaceTrans(w, w1, w2, id);
    forall v: nat ensures Lookup(w2.dirs[id], v) == Lookup(w.dirs[id], v) {
      BackAt(w, w1, w2, id, start, a, end, id, v);
    }
    forall i: nat, v: nat ensures See(w2, i, v) == See(w, i, v) {
      BackAt(w, w1, w2, id, start, a, end, i, v);
    }
  }

  lemma BackAt(w: World, w1: World, w2: World, id: nat, start: nat, a: nat, end: nat, i: nat, v: nat)
    requires Grown(w, w1, id, start, a) && start <= a <= end && NoneMapped(w.dirs[id], start, end)
    requires id in w2.dirs && Removed(w1, w2, id, start, end) && end <= USER_PAGES
    ensures See(w2, i, v) == See(w, i, v)
    ensures i == id ==> Lookup(w2.dirs[id], v) == Lookup(w.dirs[id], v)
  {
    assert GrownAt(w, w1, id, start, a, i, v) && GoneAt(w1, w2, id, start, end, i, v);
    assert GrownAt(w, w1, id, start, a, id, start);
  }

  lemma MapHeldStep(w: World, held: set<Ref>, id: nat, v: nat, writable: bool, u: bool)
    requires Sound(w, held) && User(id, v) in held && id in w.dirs && v < USER_PAGES && v / NPT in w.dirs[id].tabs
    ensures User(id, v) in w.R && w.R[User(id, v)] < |w.mem.pages|
    ensures var w' := MapHeld(w, id, v, writable, u);
            && Sound(w', held - {User(id, v)})
            && MappedOne(w, w', id, v, Pte(w.R[User(id, v)], writable, u), Seen(w.mem.pages[w.R[User(id, v)]], u))
  {
    MapHeldSound(w, held, id, v, writable, u);
    var p := Pte(w.R[User(id, v)], writable, u);
    forall x: nat ensures Lookup(SetPte(w.dirs[id], v, p), x) == if x == v then Some(p) else Lookup(w.dirs[id], x) {
      SetPteLookup(w.dirs[id], v, p, x);
    }
  }

  lemma MappedAfterPad(w: World, w1: World, w2: World, id: nat, v: nat, p: Pte, seen: Seen)
    requires Padded(w, w1, id) && MappedOne(w1, w2, id, v, p, seen)
    ensures MappedOne(w, w2, id, v, p, seen)
  {
    OnlySpaceTrans(w, w1, w2, id);
  }

  lemma MapUserStep(w: World, w1: World, w2: World, id: nat, v: nat, p: Pte, seen: Seen)
    requires Padded(w, w1, id) && Sound(w1, {User(id, v)}) && v < USER_PAGES && v / NPT in w1.dirs[id].tabs
    requires Get(w1.R, User(id, v)) == Some(p.frame) && w1.mem.pages == w.mem.pages && p.frame < |w.mem.pages|
    requires seen == Seen(w.mem.pages[p.frame], p.u) && w2 == w1.(dirs := w1.dirs[id := SetPte(w1.dirs[id], v, p)])
    ensures Sound(w2, {}) && MappedOne(w, w2, id, v, p, seen)
  {
    MapHeldStep(w1, {User(id, v)}, id, v, p.w, p.u);
    assert w2 == MapHeld(w1, id, v, p.w, p.u);
    assert {User(id, v)} - {User(id, v)} == {};
    MappedAfterPad(w, w1, w2, id, v, p, seen);
  }

  // ------------------------------------------------------------- copying

  /** Page v of address space i, the first a pages of p having been copied to c. */
  ghost predicate CopiedAt(w: World, w': World, p: nat, c: nat, a: nat, i: nat, v: nat) {
    See(w', i, v) == if i == c then (if v < a then See(w, p, v) else None) else See(w, i, v)
  }

  /** References outside address space c name the frames they did. */
  ghost predicate TargetsKept(w: World, w': World, c: nat) {
    forall r: Ref :: r.id != c ==> Target(w'.dirs, w'.stacks, r) == Target(w.dirs, w.stacks, r)
  }

  lemma OnlySpaceTargets(w: World, w': World, c: nat)
    requires OnlySpace(w, w', c)
    ensures TargetsKept(w, w', c)
  {
  }

  /** The same address spaces with the same views over the same frames: at most the
      permissions of pages and the contents of unused frames differ. */
  ghost predicate Same(w: World, w': World) {
    && SameViews(w, w') && w'.stacks == w.stacks && w'.mem.lo == w.mem.lo && w'.dirs.Keys == w.dirs.Keys
    && forall r: Ref :: Target(w'.dirs, w'.stacks, r) == Target(w.dirs, w.stacks, r)
  }

  /** The first a pages of p are there. */
  ghost predicate Present(w: World, p: nat, a: nat) {
    forall v: nat :: v < a ==> See(w, p, v).Some?
  }

  /** c holds a copy of the first a pages of p, and nobody else's view has changed. */
  ghost predicate Copying(w: World, w': World, p: nat, c: nat, a: nat) {
    && w'.stacks == w.stacks && w'.mem.lo == w.mem.lo && w'.dirs.Keys == w.dirs.Keys + {c}
    && p in w.dirs && c !in w.dirs && TargetsKept(w, w', c) && Present(w, p, a)
    && forall i: nat, v: nat :: CopiedAt(w, w', p, c, a, i, v)
  }

  lemma CopyStart(w: World, w': World, p: nat, c: nat)
    requires p in w.dirs && c !in w.dirs && c in w'.dirs && OnlySpace(w, w', c) && SameViews(w, w')
    ensures Copying(w, w', p, c, 0)
  {
    OnlySpaceTargets(w, w', c);
    forall i: nat, v: nat ensures CopiedAt(w, w', p, c, 0, i, v) { }
  }

  /** Steps that change no view. */
  lemma CopyQuiet(w: World, w1: World, w2: World, p: nat, c: nat, a: nat)
    requires Copying(w, w1, p, c, a) && SameViews(w1, w2) && TargetsKept(w1, w2, c)
    requires w2.stacks == w1.stacks && w2.mem.lo == w1.mem.lo && w2.dirs.Keys == w1.dirs.Keys
    ensures Copying(w, w2, p, c, a)
  {
    forall i: nat, v: nat ensures CopiedAt(w, w2, p, c, a, i, v) {
      assert CopiedAt(w, w1, p, c, a, i, v);
    }
  }

  lemma CopyNext(w: World, w1: World, w2: World, p: nat, c: nat, a: nat, next: nat)
    requires Copying(w, w1, p, c, a) && Copied(w1, w2, p, c, a) && next == a + 1
    requires OnlySpace(w1, w2, c) && c in w2.dirs && See(w1, p, a).Some?
    ensures Copying(w, w2, p, c, next)
  {
    OnlySpaceTargets(w1, w2, c);
    assert CopiedAt(w, w1, p, c, a, p, a);
    forall i: nat, v: nat ensures CopiedAt(w, w2, p, c, next, i, v) {
      assert CopiedAt(w, w1, p, c, a, i, v);
    }
  }

  /** Page v of c has become a copy of that of p. */
  ghost predicate Copied(w: World, w': World, p: nat, c: nat, v: nat) {
    SameViewsBut(w, w', c, v) && See(w', c, v) == See(w, p, v)
  }

  lemma MappedCopy(w: World, w1: World, w2: World, p: nat, c: nat, v: nat, e: Pte, seen: Seen)
    requires SameViews(w, w1) && w1.dirs == w.dirs && w1.stacks == w.stacks && w1.mem.lo == w.mem.lo
    requires MappedOne(w1, w2, c, v, e, seen) && See(w, p, v) == Some(seen)
    ensures OnlySpace(w, w2, c) && Copied(w, w2, p, c, v)
  {
  }

  /** Giving up: freevm takes the half-made copy away. */
  lemma CopyBack(w: World, w1: World, w2: World, p: nat, c: nat, a: nat)
    requires Copying(w, w1, p, c, a) && Freed(w1, w2, c)
    ensures Same(w, w2)
  {
    OnlySpaceTargets(w1, w2, c);
    forall i: nat, v: nat ensures See(w2, i, v) == See(w, i, v) {
      assert CopiedAt(w, w1, p, c, a, i, v);
    }
  }

  /** The number of free pages depends on the references only: with those of c gone and
      the others as they were, all pages are back. */
  lemma SameFree(w: World, w': World, c: nat)
    requires Sound(w, {}) && Sound(w', {}) && w'.mem.lo == w.mem.lo && TargetsKept(w, w', c)
    requires c !in w.dirs && c !in w'.dirs && c !in w.stacks && c !in w'.stacks
    ensures |w'.mem.free| == |w.mem.free|
  {
    assert w'.R == w.R by {
      forall r: Ref ensures Get(w'.R, r) == Get(w.R, r) && (r in w'.R <==> r in w.R) {
        assert Right(w.R, w.dirs, w.stacks, {}, r) && Right(w'.R, w'.dirs, w'.stacks, {}, r);
      }
      forall r: Ref | r in w.R ensures w'.R[r] == w.R[r] { assert Get(w'.R, r) == Get(w.R, r); }
    }
    FreeDetermined(w.mem, w'.mem, w.R);
  }

  /** A user page is seen just when it is mapped. */
  lemma SeenIsMapped(w: World, held: set<Ref>, id: nat, v: nat)
    requires Sound(w, held) && id in w.dirs && v < USER_PAGES
    ensures See(w, id, v).Some? <==> Lookup(w.dirs[id], v).Some?
  {
    if Lookup(w.dirs[id], v).Some? { MappedIsHeld(w, held, id, v); }
  }

  // ------------------------------------------------------ kernel mappings

  const KERN_PAGE: nat := 0x8_0000        // KERNBASE
  const LINK_PAGE: nat := 0x8_0100        // KERNLINK
  const TOP_PAGE: nat := 0x8_E000         // P2V(PHYSTOP)
  const DEV_PAGE: nat := 0xF_E000         // DEVSPACE

  /** The kernel part of every address space, by kmap; `data` is the page of the
      kernel's data segment, which the linker script aligns. */
  function KernelPte(data: nat, v: nat): Option<Pte> {
    if KERN_PAGE <= v < TOP_PAGE then Some(Pte(v - KERN_PAGE, !(LINK_PAGE <= v < data), false))
    else if DEV_PAGE <= v < ALL_PAGES then Some(Pte(v, true, false))
    else None
  }

  /** d' is d with the pages from first up to a mapped to frames from f on. */
  ghost predicate RangeMapped(d: Dir, d': Dir, first: nat, a: nat, f: nat, writable: bool) {
    && d'.frame == d.frame
    && forall v: nat :: Lookup(d', v) == if first <= v < a then Some(Pte(f + (v - first), writable, false)) else Lookup(d, v)
  }

  ghost predicate NoneMapped(d: Dir, first: nat, a: nat) {
    forall v: nat :: first <= v < a ==> Lookup(d, v) == None
  }

  lemma NoneMappedNext(d: Dir, first: nat, a: nat, next: nat, end: nat)
    requires NoneMapped(d, first, a) && first <= a < end && next == a + 1
    ensures if Lookup(d, a) == None then NoneMapped(d, first, next) else !NoneMapped(d, first, end)
  {
  }

  /** The page behind the last one of a range. */
  function EndPage(va: nat, size: nat): nat
    requires size > 0
  {
    (va + size - 1) / PGSIZE + 1
  }

  lemma LastPage(va: nat, size: nat)
    requires 0 < size && va + size <= 0x1_0000_0000
    ensures (va + size - 1) % 0x1_0000_0000 / PGSIZE + 1 == EndPage(va, size)
    ensures va / PGSIZE < EndPage(va, size) <= ALL_PAGES
  {
  }

  lemma EndAligned(va: nat, size: nat)
    requires va % PGSIZE == 0 && size % PGSIZE == 0 && 0 < size
    ensures EndPage(va, size) == (va + size) / PGSIZE
  {
  }

  /** What one round of mappages does, its table being there. */
  lemma KernelStep(w: World, held: set<Ref>, d: Dir, id: nat, first: nat, a: nat, next: nat, f: nat, p: Pte)
    requires Sound(w, held) && id in w.dirs && USER_PAGES <= first <= a && a / NPT in w.dirs[id].tabs
    requires User(id, a) !in held && next == a + 1 && p == Pte(f + (a - first), p.w, false)
    requires RangeMapped(d, w.dirs[id], first, a, f, p.w)
    ensures var w' := w.(dirs := w.dirs[id := SetPte(w.dirs[id], a, p)]);
            && Sound(w', held) && SameViews(w, w') && OnlySpace(w, w', id)
            && RangeMapped(d, w'.dirs[id], first, next, f, p.w)
  {
    KernelPteSound(w, held, id, a, p);
    var d' := SetPte(w.dirs[id], a, p);
    forall v: nat ensures Lookup(d', v) == if first <= v < next then Some(Pte(f + (v - first), p.w, false)) else Lookup(d, v) {
      SetPteLookup(w.dirs[id], a, p, v);
    }
  }

  ghost predicate KernelOnly(d: Dir, data: nat) {
    forall v: nat :: Lookup(d, v) == KernelPte(data, v)
  }

  /** A row of kmap, in bytes. */
  datatype Kmap = Kmap(virt: nat, start: nat, end: nat, writable: bool)

  /** kmap; the end 0 of the last row means 2^32. */
  function KmapRow(data: nat, j: nat): Kmap
    requires LINK_PAGE < data < TOP_PAGE
  {
    match j
    case 0 => Kmap(0x8000_0000, 0, 0x10_0000, true)
    case 1 => Kmap(0x8010_0000, 0x10_0000, data * PGSIZE - 0x8000_0000, false)
    case 2 => Kmap(data * PGSIZE, data * PGSIZE - 0x8000_0000, 0xE00_0000, true)
    case _ => Kmap(0xFE00_0000, 0xFE00_0000, 0, true)
  }

  /** phys_end - phys_start, in 32-bit arithmetic. */
  function RowSize(r: Kmap): nat {
    (r.end - r.start) % 0x1_0000_0000
  }

  /** Below this page the first j rows say what is mapped. */
  function RowBound(data: nat, j: nat): nat {
    match j
    case 0 => KERN_PAGE
    case 1 => LINK_PAGE
    case 2 => data
    case 3 => TOP_PAGE
    case _ => ALL_PAGES
  }

  ghost predicate RowsDone(d: Dir, data: nat, j: nat) {
    forall v: nat :: Lookup(d, v) == if v < RowBound(data, j) then KernelPte(data, v) else None
  }

  lemma RowFits(data: nat, j: nat)
    requires LINK_PAGE < data < TOP_PAGE && j < 4
    ensures var r := KmapRow(data, j);
            && r.virt % PGSIZE == 0 && r.start % PGSIZE == 0 && RowSize(r) % PGSIZE == 0
            && 0 < RowSize(r) && r.virt + RowSize(r) <= 0x1_0000_0000 && USER_PAGES <= r.virt / PGSIZE
            && r.virt / PGSIZE == (if j == 3 then DEV_PAGE else RowBound(data, j))
            && (r.virt + RowSize(r)) / PGSIZE == RowBound(data, j + 1)
            && r.start / PGSIZE == (if j == 3 then DEV_PAGE else RowBound(data, j) - KERN_PAGE)
  {
  }

  /** No row overlaps an earlier one. */
  lemma RowFree(d: Dir, data: nat, j: nat, first: nat, end: nat)
    requires LINK_PAGE < data < TOP_PAGE && j < 4 && RowsDone(d, data, j)
    requires first == if j == 3 then DEV_PAGE else RowBound(data, j)
    ensures NoneMapped(d, first, end)
  {
  }

  lemma RowDone(d: Dir, d': Dir, data: nat, j: nat, next: nat, first: nat, end: nat, frame: nat, writable: bool)
    requires LINK_PAGE < data < TOP_PAGE && j < 4 && RowsDone(d, data, j) && next == j + 1
    requires first == (if j == 3 then DEV_PAGE else RowBound(data, j)) && end == RowBound(data, next)
    requires frame == if j == 3 then DEV_PAGE else first - KERN_PAGE
    requires writable == (j != 1) && RangeMapped(d, d', first, end, frame, writable)
    ensures RowsDone(d', data, next)
  {
  }

  datatype FaultResult = Writable | Killed | AlreadyWritable

  /** The same views over the same tables; pages of id may have moved to other frames. */
  ghost predicate Moved(w: World, w': World, id: nat) {
    && SameViews(w, w') && OnlySpace(w, w', id) && id in w.dirs && id in w'.dirs
    && TabsKept(w.dirs[id], w'.dirs[id])
  }

  /** User code may touch page v of id. */
  predicate Accessible(w: World, id: nat, v: nat) {
    v < USER_PAGES && id in w.dirs && Lookup(w.dirs[id], v).Some? && Lookup(w.dirs[id], v).value.u
  }

  /** And write it without a fault. */
  predicate CanStore(w: World, id: nat, v: nat) {
    Accessible(w, id, v) && Lookup(w.dirs[id], v).value.w
  }

  predicate SameFrame(w: World, id: nat, v: nat, i: nat, x: nat) {
    && id in w.dirs && i in w.dirs && x < USER_PAGES && Lookup(w.dirs[id], v).Some? && Lookup(w.dirs[i], x).Some?
    && Lookup(w.dirs[i], x).value.frame == Lookup(w.dirs[id], v).value.frame
  }

  /** Some other page, of this process or another, is in the frame of page v of id. */
  ghost predicate SharedPage(w: World, id: nat, v: nat) {
    exists i: nat, x: nat :: (i != id || x != v) && SameFrame(w, id, v, i, x)
  }

  /** A store there takes effect: it needs a page only for a frame that is shared. */
  ghost predicate StoreGoes(w: World, id: nat, v: nat) {
    Accessible(w, id, v) && (CanStore(w, id, v) || !SharedPage(w, id, v) || w.mem.free != [])
  }

  /** A count above one tells that the page is shared. */
  lemma SharersCounted(w: World, id: nat, v: nat)
    requires Sound(w, {}) && id in w.dirs && v < USER_PAGES && Lookup(w.dirs[id], v).Some?
    ensures var f := Lookup(w.dirs[id], v).value.frame;
            f < |w.mem.refs| && (w.mem.refs[f] > 1 <==> SharedPage(w, id, v))
  {
    var f := Lookup(w.dirs[id], v).value.frame;
    var r := User(id, v);
    MappedIsHeld(w, {}, id, v);
    var others := Holders(w.R, f) - {r};
    assert r in Holders(w.R, f) && |others| + 1 == w.mem.refs[f];
    if w.mem.refs[f] > 1 {
      var q :| q in others;
      assert Shareable(w.dirs, q) && Right(w.R, w.dirs, w.stacks, {}, q);
      assert SameFrame(w, id, v, q.id, q.page);
    }
    if SharedPage(w, id, v) {
      var i: nat, x: nat :| (i != id || x != v) && SameFrame(w, id, v, i, x);
      MappedIsHeld(w, {}, i, x);
      assert User(i, x) in others;
    }
  }

  /** One byte of one page of one process has changed. */
  ghost predicate Stored(w: World, w': World, id: nat, v: nat, o: nat, b: byte) {
    && SameViewsBut(w, w', id, v) && See(w, id, v).Some? && See(w, id, v).value.u && o < PGSIZE
    && See(w', id, v) == Some(Seen(See(w, id, v).value.page[o := b], true))
    && w'.dirs.Keys == w.dirs.Keys
  }

  lemma StoredAfter(w: World, w1: World, w2: World, id: nat, v: nat, o: nat, b: byte)
    requires SameViews(w, w1) && w1.dirs.Keys == w.dirs.Keys && Stored(w1, w2, id, v, o, b)
    ensures Stored(w, w2, id, v, o, b)
  {
  }

  lemma CopyStep(w: World, w': World, id: nat, v: nat, f: nat)
    requires Sound(w, {}) && id in w.dirs && v < USER_PAGES && Lookup(w.dirs[id], v) == Some(Pte(f, false, true))
    requires f < |w.mem.refs| == |w.mem.pages| && w.mem.refs[f] > 1
    requires w.mem.free != [] && w.mem.free[0] < |w.mem.refs| && w.mem.free[0] != f && w' == CopyFault(w, id, v)
    ensures Sound(w', {}) && Moved(w, w', id) && CanStore(w', id, v) && |w'.mem.free| + 1 == |w.mem.free|
  {
    CopyFaultSound(w, {}, id, v);
  }

  lemma ProtectWrite(w: World, id: nat, v: nat)
    requires Sound(w, {}) && id in w.dirs && v < USER_PAGES && Lookup(w.dirs[id], v).Some?
    requires Lookup(w.dirs[id], v).value.frame < |w.mem.refs| && w.mem.refs[Lookup(w.dirs[id], v).value.frame] == 1
    ensures var e := Lookup(w.dirs[id], v).value;
            var w' := Protect(w, id, v, true, e.u);
            Sound(w', {}) && Moved(w, w', id) && Lookup(w'.dirs[id], v) == Some(Pte(e.frame, true, e.u))
  {
    var e := Lookup(w.dirs[id], v).value;
    MappedIsHeld(w, {}, id, v);
    ProtectSound(w, {}, id, v, true, e.u);
    SetPteLookup(w.dirs[id], v, Pte(e.frame, true, e.u), v);
  }

  datatype CopyResult = Done | NoMemory | Panic

  lemma FreedNothing(w: World, w': World, id: nat)
    requires id !in w.dirs && Freed(w, w', id)
    ensures Same(w, w')
  {
    OnlySpaceTargets(w, w', id);
  }

  /** Write-protecting a page is always sound and never seen. */
  lemma ProtectRead(w: World, p: nat, v: nat)
    requires Sound(w, {}) && p in w.dirs && v < USER_PAGES && Lookup(w.dirs[p], v).Some?
    ensures var e := Lookup(w.dirs[p], v).value;
            var w' := Protect(w, p, v, false, e.u);
            && Sound(w', {}) && Same(w, w') && OnlySpace(w, w', p)
            && Lookup(w'.dirs[p], v) == Some(Pte(e.frame, false, e.u))
  {
    var e := Lookup(w.dirs[p], v).value;
    MappedIsHeld(w, {}, p, v);
    forall r: Ref ensures Target(Protect(w, p, v, false, e.u).dirs, w.stacks, r) == Target(w.dirs, w.stacks, r) {
      TargetSetPte(w.dirs, w.stacks, p, v, Pte(e.frame, false, e.u), r);
    }
    ProtectSound(w, {}, p, v, false, e.u);
    SetPteLookup(w.dirs[p], v, Pte(e.frame, false, e.u), v);
  }
}
