/** vm.c over kalloc.c: building, sharing and freeing address spaces. */
module Vm {
  import opened Blocks
  import opened Options
  import opened Frames
  import opened Kalloc
  import opened Paging
  import opened CowSteps
  import opened AddressSpace
  import opened TableNeed

  class Vm {
    const k: Kmem
    var dirs: Dirs
    var stacks: map<nat, nat>     // the kernel stack of each process
    ghost var R: Refs             // all references to frames

    ghost function W(): World
      reads this, k, k.refcount, k.page
    {
      World(k.State(), dirs, stacks, R)
    }

    /** The invariant: see CowSteps.Sound. */
    ghost predicate Inv(held: set<Ref>)
      reads this, k, k.next, k.refcount, k.page
    {
      k.Ok() && Sound(W(), held)
    }

    constructor (kmem: Kmem)
      requires kmem.Ok() && Valid(kmem.State()) && forall f: nat :: Managed(kmem.State(), f) ==> kmem.refcount[f] == 0
      ensures Inv({}) && k == kmem && dirs == map[] && stacks == map[]
    {
      k := kmem;
      dirs, stacks, R := map[], map[], map[];
    }

    /** walkpgdir with alloc. False: out of memory. */
    method Walk(id: nat, v: nat, ghost held: set<Ref>) returns (ok: bool)
      requires Inv(held) && id in dirs && v < ALL_PAGES && Table(id, v / NPT) !in held
      modifies this`dirs, this`R, k, k.refcount
      ensures Inv(held) && id in dirs
      ensures if ok then Walked(old(W()), W(), held, id, v / NPT) else W() == old(W()) && W().mem.free == [] && v / NPT !in dirs[id].tabs
      ensures k.page[..] == old(k.page[..])
    {
      ghost var w := W();
      if v / NPT in dirs[id].tabs {
        WalkNone(w, held, id, v / NPT);
        return true;
      }
      var f := k.Kalloc();
      if f == None {
        return false;
      }
      WalkStep(w, held, id, v / NPT);
      R := R[Table(id, v / NPT) := f.value];
      dirs := dirs[id := AddTab(dirs[id], v / NPT, f.value)];
      assert W() == NewTab(w, id, v / NPT);
      return true;
    }

    /** deallocuvm: unmap and free the user pages from newsz up to oldsz, except the
        ones it steps over. */
    method Deallocuvm(id: nat, oldsz: nat, newsz: nat, ghost held: set<Ref>) returns (sz: nat)
      requires Inv(held) && id in dirs && oldsz <= USER_PAGES * PGSIZE
      modifies this`dirs, this`R, k, k.next, k.refcount, k.page
      ensures sz == if newsz >= oldsz then oldsz else newsz
      ensures Inv(held) && OnlySpace(old(W()), W(), id) && id in dirs
      ensures dirs[id].frame == old(dirs)[id].frame && dirs[id].tabs.Keys == old(dirs)[id].tabs.Keys
      ensures HeldKept(old(R), R, held)
      ensures newsz >= oldsz ==> W() == old(W())
      ensures newsz < oldsz ==> Removed(old(W()), W(), id, Up(newsz), Up(oldsz))
    {
      if newsz >= oldsz {
        return oldsz;
      }
      var start, end := Up(newsz), Up(oldsz);
      var a := start;
      ghost var w := W();
      ClearedStart(w, id, start, end);
      while a < end
        invariant Inv(held) && OnlySpace(w, W(), id) && id in dirs && dirs[id].frame == w.dirs[id].frame
        invariant Cleared(w, W(), id, start, end, a) && HeldKept(old(R), R, held)
        decreases if a < end then end - a else 0
      {
        a := ClearAt(id, a, held, w, start, end);
      }
      ClearedEnd(w, W(), id, start, end, a);
      return newsz;
    }

    /** A call that leaves page v mapped although it is asked to unmap it. */
    method DeallocSteppedOver(id: nat, oldsz: nat, newsz: nat, v: nat, ghost held: set<Ref>)
      requires Inv(held) && id in dirs && oldsz <= USER_PAGES * PGSIZE && newsz < oldsz && Up(newsz) <= v < Up(oldsz)
      requires Up(newsz) / NPT !in dirs[id].tabs && v / NPT == Up(newsz) / NPT + 1 && v % NPT < Up(newsz) % NPT
      modifies this`dirs, this`R, k, k.next, k.refcount, k.page
      ensures Inv(held) && id in dirs && Lookup(dirs[id], v) == old(Lookup(dirs[id], v)) && See(W(), id, v) == old(See(W(), id, v))
    {
      ghost var w := W();
      var sz := Deallocuvm(id, oldsz, newsz, held);
      SteppedOver(w, W(), id, Up(newsz), Up(oldsz), v);
    }

    /** The loop body of deallocuvm, with its step to the next page or past a table. */
    method ClearAt(id: nat, a: nat, ghost held: set<Ref>, ghost w: World, ghost start: nat, ghost end: nat) returns (next: nat)
      requires Inv(held) && id in dirs && OnlySpace(w, W(), id) && id in w.dirs && a < end <= USER_PAGES
      requires Cleared(w, W(), id, start, end, a)
      modifies this`dirs, this`R, k, k.next, k.refcount, k.page
      ensures Inv(held) && id in dirs && OnlySpace(w, W(), id) && dirs[id].frame == old(dirs)[id].frame
      ensures next > a && Cleared(w, W(), id, start, end, next) && HeldKept(old(R), R, held)
    {
      if a / NPT !in dirs[id].tabs {
        next := a + NPT;
        ClearedSkip(w, W(), id, start, end, a, next);
      } else {
        next := a + 1;
        ghost var w1 := W();
        UnmapOne(id, a, held);
        ClearedNext(w, w1, W(), id, start, end, a, next);
        OnlySpaceTrans(w, w1, W(), id);
      }
    }

    /** The loop body of deallocuvm where the table exists. */
    method UnmapOne(id: nat, v: nat, ghost held: set<Ref>)
      requires Inv(held) && id in dirs && v / NPT in dirs[id].tabs && v < USER_PAGES
      modifies this`dirs, this`R, k, k.next, k.refcount, k.page
      ensures Inv(held) && OnlySpace(old(W()), W(), id) && id in dirs
      ensures ClearedAt(old(dirs)[id], dirs[id], v) && HeldKept(old(R), R, held)
      ensures SameViewsBut(old(W()), W(), id, v) && See(W(), id, v) == None
    {
      if v % NPT !in dirs[id].tabs[v / NPT].ptes {
        return;
      }
      ghost var w := W();
      UnmapStep(w, held, id, v);
      var ok := k.Kfree(dirs[id].tabs[v / NPT].ptes[v % NPT].frame);
      R := R - {User(id, v)};
      dirs := dirs[id := ClearPte(dirs[id], v)];
      assert W() == Unmap(w, id, v);
    }

    /** freevm: the user pages, the page tables, the directory. */
    method Freevm(id: nat, ghost held: set<Ref>)
      requires Inv(held) && id in dirs
      modifies this`dirs, this`R, k, k.next, k.refcount, k.page
      ensures Inv(held) && Freed(old(W()), W(), id)
    {
      ghost var w := W();
      var sz := Deallocuvm(id, USER_PAGES * PGSIZE, 0, held);
      RemovedAll(w, W(), id);
      FreeTables(id, held, w);
      FreeRoot(id, held, w);
    }

    /** freevm's loop over the directory. */
    method FreeTables(id: nat, ghost held: set<Ref>, ghost w: World)
      requires Inv(held) && id in dirs && Emptied(w, W(), id)
      modifies this`dirs, this`R, k, k.next, k.refcount, k.page
      ensures Inv(held) && id in dirs && Emptied(w, W(), id) && dirs[id].tabs == map[]
    {
      for i := 0 to NPT
        invariant Inv(held) && id in dirs && Emptied(w, W(), id)
        invariant TabsFrom(dirs[id], i)
      {
        FreeTable(id, i, i + 1, held, w);
      }
      NoTabsLeft(dirs[id]);
    }

    method FreeRoot(id: nat, ghost held: set<Ref>, ghost w: World)
      requires Inv(held) && id in dirs && Emptied(w, W(), id) && dirs[id].tabs == map[]
      modifies this`dirs, this`R, k, k.next, k.refcount, k.page
      ensures Inv(held) && Freed(w, W(), id)
    {
      ghost var w1 := W();
      DropRootSound(w1, held, id);
      var ok := k.Kfree(dirs[id].frame);
      R := R - {Root(id)};
      dirs := dirs - {id};
      assert W() == DropRoot(w1, id);
    }

    /** One round of freevm's loop over the directory. */
    method FreeTable(id: nat, x: Slot, ghost next: nat, ghost held: set<Ref>, ghost w: World)
      requires next == x + 1 && Inv(held) && id in dirs && Emptied(w, W(), id) && TabsFrom(dirs[id], x)
      modifies this`dirs, this`R, k, k.next, k.refcount, k.page
      ensures Inv(held) && id in dirs && Emptied(w, W(), id) && TabsFrom(dirs[id], next)
    {
      if x !in dirs[id].tabs {
        TabsSkip(dirs[id], x, next);
        return;
      }
      ghost var w1 := W();
      EmptiedDrop(w, w1, held, id, x, next);
      var ok := k.Kfree(dirs[id].tabs[x].frame);
      R := R - {Table(id, x)};
      dirs := dirs[id := Dir(dirs[id].frame, dirs[id].tabs - {x})];
      assert W() == DropTab(w1, id, x);
    }

    /** mappages of a kernel range, given in bytes as in kmap; the sum va + size is
        taken modulo 2^32. NoTable and Remap leave part of the range mapped; Remap is the
        panic for a page that was mapped already. */
    method MapKernel(id: nat, va: nat, size: nat, pa: nat, writable: bool) returns (r: MapResult)
      requires Inv({}) && id in dirs && pa % PGSIZE == 0
      requires USER_PAGES <= va / PGSIZE && 0 < size && va + size <= 0x1_0000_0000
      modifies this`dirs, this`R, k, k.refcount
      ensures Inv({}) && SameViews(old(W()), W()) && OnlySpace(old(W()), W(), id) && id in dirs
      ensures r == Mapped ==> NoneMapped(old(dirs)[id], va / PGSIZE, EndPage(va, size))
      ensures r == Mapped ==> RangeMapped(old(dirs)[id], dirs[id], va / PGSIZE, EndPage(va, size), pa / PGSIZE, writable)
      ensures r == Remap ==> !NoneMapped(old(dirs)[id], va / PGSIZE, EndPage(va, size))
      ensures MapCost(old(W()), W(), id, va / PGSIZE, EndPage(va, size), r)
    {
      var first, last := va / PGSIZE, (va + size - 1) % 0x1_0000_0000 / PGSIZE;
      LastPage(va, size);
      r := MapPages(id, first, last, pa / PGSIZE, writable, EndPage(va, size));
    }

    /** The loop of mappages, which tests for the last page before it steps on. */
    method MapPages(id: nat, first: nat, last: nat, frame: nat, writable: bool, ghost end: nat) returns (r: MapResult)
      requires Inv({}) && id in dirs && USER_PAGES <= first <= last < ALL_PAGES && end == last + 1
      modifies this`dirs, this`R, k, k.refcount
      ensures Inv({}) && SameViews(old(W()), W()) && OnlySpace(old(W()), W(), id) && id in dirs
      ensures r == Mapped ==> NoneMapped(old(dirs)[id], first, end) && RangeMapped(old(dirs)[id], dirs[id], first, end, frame, writable)
      ensures r == Remap ==> !NoneMapped(old(dirs)[id], first, end)
      ensures MapCost(old(W()), W(), id, first, end, r)
    {
      var a, f := first, frame;
      ghost var w, d := W(), dirs[id];
      TookNone(w, id);
      SpanNext(first, first, first + 1);
      while true
        invariant first <= a <= last && f == frame + (a - first)
        invariant Inv({}) && SameViews(w, W()) && OnlySpace(w, W(), id) && id in dirs
        invariant NoneMapped(d, first, a) && RangeMapped(d, dirs[id], first, a, frame, writable) && Took(w, W(), id, Span(first, a))
        decreases last - a
      {
        ghost var w1 := W();
        var next := a + 1;
        r := MapKernelPage(id, d, first, a, next, f, frame, writable);
        OnlySpaceTrans(w, w1, W(), id);
        NoneMappedNext(d, first, a, next, end);
        MapCostNext(w, w1, W(), id, first, a, next, end, r);
        if r != Mapped || a == last { return; }
        a := next;
        f := f + 1;
      }
    }

    /** One round of mappages. */
    method MapKernelPage(id: nat, ghost d: Dir, ghost first: nat, a: nat, ghost next: nat, f: nat, ghost base: nat,
                         writable: bool) returns (r: MapResult)
      requires Inv({}) && id in dirs && USER_PAGES <= first <= a < ALL_PAGES && next == a + 1 && f == base + (a - first)
      requires RangeMapped(d, dirs[id], first, a, base, writable)
      modifies this`dirs, this`R, k, k.refcount
      ensures Inv({}) && SameViews(old(W()), W()) && OnlySpace(old(W()), W(), id) && id in dirs
      ensures r == Mapped ==> Lookup(d, a) == None && RangeMapped(d, dirs[id], first, next, base, writable)
      ensures r == Remap ==> Lookup(d, a).Some?
      ensures if r == NoTable then W() == old(W()) && W().mem.free == [] && a / NPT !in dirs[id].tabs else Took(old(W()), W(), id, {a / NPT})
    {
      var ok := Walk(id, a, {});
      if !ok { return NoTable; }
      assert Lookup(dirs[id], a) == Lookup(d, a);
      if Lookup(dirs[id], a).Some? { return Remap; }
      ghost var w := W();
      KernelStep(w, {}, d, id, first, a, next, base, Pte(f, writable, false));
      dirs := dirs[id := SetPte(dirs[id], a, Pte(f, writable, false))];
      TookSame(old(W()), w, W(), id, {a / NPT});
      return Mapped;
    }

    /** setupkvm: a directory with the kernel's mappings only. False: out of memory. */
    method Setupkvm(id: nat, data: nat) returns (ok: bool)
      requires Inv({}) && id !in dirs && LINK_PAGE < data < TOP_PAGE
      modifies this`dirs, this`R, k, k.next, k.refcount, k.page
      ensures Inv({}) && OnlySpace(old(W()), W(), id)
      ensures ok ==> SameViews(old(W()), W()) && id in dirs && KernelOnly(dirs[id], data)
      ensures ok ==> Cost(old(W()), W(), id, 1) && Slots(dirs[id]) == KernTabs()
      ensures !ok ==> Freed(old(W()), W(), id)
      ensures ok <==> |old(W()).mem.free| >= 1 + KERN_TABS
    {
      ghost var w := W();
      ok := NewDir(id);
      if !ok { return; }
      ghost var w1 := W();
      ok := MapKmap(id, data);
      KernCost(w, w1, W(), id, ok);
      if !ok { Freevm(id, {}); }
    }

    method NewDir(id: nat) returns (ok: bool)
      requires Inv({}) && id !in dirs
      modifies this`dirs, this`R, k, k.refcount
      ensures Inv({}) && OnlySpace(old(W()), W(), id) && SameViews(old(W()), W())
      ensures if ok then id in dirs && dirs[id].tabs == map[] && Cost(old(W()), W(), id, 1)
              else id !in dirs && old(W()).mem.free == []
    {
      ghost var w := W();
      var f := k.Kalloc();
      if f == None { return false; }
      NewRootSound(w, {}, id);
      R := R[Root(id) := f.value];
      dirs := dirs[id := Dir(f.value, map[])];
      assert W() == NewRoot(w, id);
      return true;
    }

    /** The loop over kmap. */
    method MapKmap(id: nat, data: nat) returns (ok: bool)
      requires Inv({}) && id in dirs && dirs[id].tabs == map[] && LINK_PAGE < data < TOP_PAGE
      modifies this`dirs, this`R, k, k.refcount
      ensures Inv({}) && SameViews(old(W()), W()) && OnlySpace(old(W()), W(), id) && id in dirs
      ensures ok ==> KernelOnly(dirs[id], data)
      ensures if ok then Took(old(W()), W(), id, KernTabs()) else Lacked(old(W()), W(), id, KernTabs())
    {
      ok := true;
      ghost var w := W();
      TookNone(w, id);
      SpanNext(KERN_PAGE, KERN_PAGE, KERN_PAGE + 1);
      for j := 0 to 4
        invariant Inv({}) && SameViews(old(W()), W()) && OnlySpace(old(W()), W(), id) && id in dirs && ok
        invariant RowsDone(dirs[id], data, j) && Took(w, W(), id, RowTabs(data, j))
      {
        ghost var w1 := W();
        ok := MapRow(id, data, j, j + 1);
        RowCost(w, w1, W(), id, data, j, j + 1, ok);
        if !ok { return; }
      }
      RowTabsIn(data, 4);
    }

    method MapRow(id: nat, data: nat, j: nat, ghost next: nat) returns (ok: bool)
      requires Inv({}) && id in dirs && LINK_PAGE < data < TOP_PAGE && j < 4 && next == j + 1 && RowsDone(dirs[id], data, j)
      modifies this`dirs, this`R, k, k.refcount
      ensures Inv({}) && SameViews(old(W()), W()) && OnlySpace(old(W()), W(), id) && id in dirs
      ensures ok ==> RowsDone(dirs[id], data, next)
      ensures if ok then Took(old(W()), W(), id, OneRow(data, j)) else Lacked(old(W()), W(), id, OneRow(data, j))
    {
      var r := KmapRow(data, j);
      ghost var d, first, end := dirs[id], r.virt / PGSIZE, (r.virt + RowSize(r)) / PGSIZE;
      RowFits(data, j);
      RowFree(d, data, j, first, end);
      EndAligned(r.virt, RowSize(r));
      var mapped := MapKernel(id, r.virt, RowSize(r), r.start, r.writable);
      ok := mapped == Mapped;
      if ok {
        RowDone(d, dirs[id], data, j, next, first, end, r.start / PGSIZE, r.writable);
      }
    }

    /** mappages of one user page whose frame is held. False: out of memory. */
    method MapUser(id: nat, v: nat, p: Pte, ghost seen: Seen) returns (ok: bool)
      requires Inv({User(id, v)}) && id in dirs && v < USER_PAGES && Get(R, User(id, v)) == Some(p.frame)
      requires p.frame < PHYS_PAGES && seen == Seen(k.page[p.frame], p.u)
      modifies this`dirs, this`R, k, k.refcount
      ensures ok ==> Inv({}) && MappedOne(old(W()), W(), id, v, p, seen) && Took(old(W()), W(), id, {v / NPT})
      ensures !ok ==> Inv({User(id, v)}) && W() == old(W()) && W().mem.free == [] && v / NPT !in dirs[id].tabs
    {
      ghost var w := W();
      ok := Walk(id, v, {User(id, v)});
      if !ok { return; }
      ghost var w1 := W();
      dirs := dirs[id := SetPte(dirs[id], v, p)];
      assert W() == w1.(dirs := w1.dirs[id := SetPte(w1.dirs[id], v, p)]);
      MapUserStep(w, w1, W(), id, v, p, seen);
      TookSame(w, w1, W(), id, {v / NPT});
    }

    /** kalloc of a frame for user page v, filled with `page`. None: out of memory. */
    method HoldFrame(id: nat, v: nat, page: Page) returns (r: Option<nat>)
      requires Inv({}) && v < USER_PAGES && (id in dirs ==> Lookup(dirs[id], v) == None)
      modifies this`R, k, k.refcount, k.page
      ensures r.None? ==> Inv({}) && W() == old(W()) && W().mem.free == []
      ensures r.Some? ==> |W().mem.free| + 1 == |old(W()).mem.free|
      ensures r.Some? ==> Inv({User(id, v)}) && Get(R, User(id, v)) == r && r.value < PHYS_PAGES && k.page[r.value] == page
      ensures r.Some? ==> SameViews(old(W()), W()) && W().mem.lo == old(W()).mem.lo
    {
      ghost var w := W();
      r := k.Kalloc();
      if r == None { return; }
      HoldSound(w, {}, id, v, page);
      k.SetPage(r.value, page);
      R := R[User(id, v) := r.value];
      assert W() == Hold(w, id, v, page);
      assert {} + {User(id, v)} == {User(id, v)};
    }

    /** kfree of a frame that could not be mapped. */
    method ReleaseHeld(id: nat, v: nat, f: nat)
      requires Inv({User(id, v)}) && Get(R, User(id, v)) == Some(f)
      modifies this`R, k, k.next, k.refcount, k.page
      ensures Inv({}) && SameViews(old(W()), W()) && W().mem.lo == old(W()).mem.lo
    {
      ghost var w := W();
      UnholdSound(w, {User(id, v)}, User(id, v));
      var ok := k.Kfree(f);
      R := R - {User(id, v)};
      assert {User(id, v)} - {User(id, v)} == {};
    }

    /** inituvm: one page of code at address 0. False: out of memory. */
    method Inituvm(id: nat, code: Page) returns (ok: bool)
      requires Inv({}) && id in dirs && Lookup(dirs[id], 0) == None
      modifies this`dirs, this`R, k, k.refcount, k.page
      ensures ok ==> Inv({}) && OnlySpace(old(W()), W(), id) && id in dirs
      ensures ok ==> SameViewsBut(old(W()), W(), id, 0) && See(W(), id, 0) == Some(Seen(code, true))
      ensures ok <==> |old(W()).mem.free| >= 1 + Missing(old(W()), id, {0})
    {
      ghost var w := W();
      var mem := HoldFrame(id, 0, code);
      if mem == None { return false; }
      ghost var w1 := W();
      ok := MapUser(id, 0, Pte(mem.value, true, true), Seen(code, true));
      InitCost(w, w1, W(), id, ok);
    }

    /** allocuvm: grow from oldsz to newsz with zero pages. False (the code returns 0),
        with every page and view as before: newsz is too large or memory runs out. */
    method Allocuvm(id: nat, oldsz: nat, newsz: nat) returns (ok: bool, sz: nat)
      requires Inv({}) && id in dirs && NoneMapped(dirs[id], Up(oldsz), USER_PAGES)
      modifies this`dirs, this`R, k, k.next, k.refcount, k.page
      ensures Inv({}) && id in dirs
      ensures sz == if !ok then 0 else if newsz < oldsz then oldsz else newsz
      ensures newsz >= USER_PAGES * PGSIZE ==> !ok
      ensures ok && newsz >= oldsz ==> Grown(old(W()), W(), id, Up(oldsz), Up(newsz)) && GrownBytes(old(W()), W(), id, oldsz, newsz)
      ensures !ok || newsz < oldsz ==> Padded(old(W()), W(), id)
      ensures ok <==> newsz < USER_PAGES * PGSIZE && (newsz < oldsz || |old(W()).mem.free| >= GrowNeed(old(W()), id, Up(oldsz), Up(newsz)))
    {
      PaddedSelf(W(), id);
      if newsz >= USER_PAGES * PGSIZE { return false, 0; }
      if newsz < oldsz { return true, oldsz; }
      var start, end := Up(oldsz), Up(newsz);
      ok := Grow(id, oldsz, newsz, start, end);
      if ok { GrownIs(old(W()), W(), id, oldsz, newsz); }
      sz := if ok then newsz else 0;
    }

    /** The loop of allocuvm. */
    method Grow(id: nat, oldsz: nat, newsz: nat, start: nat, end: nat) returns (ok: bool)
      requires Inv({}) && id in dirs && NoneMapped(dirs[id], start, USER_PAGES)
      requires start == Up(oldsz) && end == Up(newsz) && start <= end <= USER_PAGES && newsz <= USER_PAGES * PGSIZE
      modifies this`dirs, this`R, k, k.next, k.refcount, k.page
      ensures Inv({}) && id in dirs
      ensures if ok then Grown(old(W()), W(), id, start, end)
              else Padded(old(W()), W(), id)
      ensures ok <==> |old(W()).mem.free| >= GrowNeed(old(W()), id, start, end)
    {
      var a := start;
      ghost var w := W();
      GrownStart(w, id, start);
      GrowCostStart(w, id, start);
      while a < end
        invariant start <= a <= end && Inv({}) && id in dirs && Grown(w, W(), id, start, a) && GrowCost(w, W(), id, start, a)
      {
        var next := a + 1;
        ok := GrowOne(id, a, next, oldsz, newsz, w, start, end);
        if !ok { return; }
        a := next;
      }
      GrowCostCount(w, W(), id, start, end);
      ok := true;
    }

    /** The loop body of allocuvm, with its two ways out. */
    method GrowOne(id: nat, a: nat, ghost next: nat, oldsz: nat, newsz: nat, ghost w: World,
                   ghost start: nat, ghost end: nat) returns (ok: bool)
      requires Inv({}) && id in dirs && Grown(w, W(), id, start, a) && NoneMapped(w.dirs[id], start, USER_PAGES)
      requires start == Up(oldsz) && end == Up(newsz) && newsz <= USER_PAGES * PGSIZE
      requires start <= a < end <= USER_PAGES && next == a + 1 && oldsz < newsz
      requires GrowCost(w, W(), id, start, a)
      modifies this`dirs, this`R, k, k.next, k.refcount, k.page
      ensures Inv({}) && id in dirs
      ensures if ok then Grown(w, W(), id, start, next) && GrowCost(w, W(), id, start, next)
              else Padded(w, W(), id) && |w.mem.free| < GrowNeed(w, id, start, end)
    {
      ghost var w1 := W();
      assert GrownAt(w, w1, id, start, a, id, a);
      var mem := HoldFrame(id, a, ZeroPage);
      if mem == None {
        GrowCostOver(w, w1, id, start, a, next, end);
        var sz := Deallocuvm(id, newsz, oldsz, {});
        GrownBack(w, w1, W(), id, start, a, end);
        return false;
      }
      ghost var w2 := W();
      GrownPadded(w, w1, w2, id, start, a);
      ok := MapUser(id, a, Pte(mem.value, true, true), Seen(ZeroPage, true));
      if ok {
        GrownNext(w, w2, W(), id, start, a, next, Pte(mem.value, true, true));
        GrowCostNext(w, w1, w2, W(), id, start, a, next);
      } else {
        GrowCostOver(w, w1, id, start, a, next, end);
        var sz := Deallocuvm(id, newsz, oldsz, {User(id, a)});
        GrownBack(w, w2, W(), id, start, a, end);
        ghost var w3 := W();
        ReleaseHeld(id, a, mem.value);
        PaddedTrans(w, w3, W(), id);
      }
    }

    /** *pte &= ~PTE_W for a present page of p. */
    method ClearWrite(p: nat, v: nat)
      requires Inv({}) && p in dirs && v < USER_PAGES && Lookup(dirs[p], v).Some?
      modifies this`dirs
      ensures Inv({}) && Same(old(W()), W()) && OnlySpace(old(W()), W(), p)
      ensures Lookup(dirs[p], v) == Some(Pte(Lookup(old(dirs)[p], v).value.frame, false, Lookup(old(dirs)[p], v).value.u))
      ensures W().mem == old(W()).mem
    {
      ghost var w := W();
      var e := dirs[p].tabs[v / NPT].ptes[v % NPT];
      ProtectRead(w, p, v);
      dirs := dirs[p := SetPte(dirs[p], v, Pte(e.frame, false, e.u))];
      assert W() == Protect(w, p, v, false, e.u);
    }

    /** copyuvm: share every page of p below page `end` with the new space c. Panic:
        a page below `end` is not there; NoMemory: c is gone again. */
    method Copyuvm(p: nat, c: nat, end: nat, data: nat) returns (r: CopyResult)
      requires Inv({}) && p in dirs && c !in dirs && end <= USER_PAGES && LINK_PAGE < data < TOP_PAGE
      modifies this`dirs, this`R, k, k.next, k.refcount, k.page
      ensures Inv({})
      ensures r == Done ==> Copying(old(W()), W(), p, c, end)
      ensures r == NoMemory ==> Same(old(W()), W())
      ensures CopyEnds(old(W()), p, end, false, r)
    {
      ghost var w := W();
      var ok := Setupkvm(c, data);
      if !ok {
        FreedNothing(w, W(), c);
        JobNone(w, p, end, false);
        return NoMemory;
      }
      JobStart(w, W(), p, c, false);
      var a := 0;
      while a < end
        invariant 0 <= a <= end && Inv({}) && Underway(Job(w, W(), p, c, a, false))
      {
        var next := a + 1;
        r := ShareOne(p, c, a, next, w, end);
        if r != Done {
          StopsEnds(w, p, a, next, end, false, r);
          return;
        }
        a := next;
      }
      JobDone(Job(w, W(), p, c, end, false));
      return Done;
    }

    /** The loop body of copyuvm. */
    method ShareOne(p: nat, c: nat, a: nat, ghost next: nat, ghost w: World, ghost end: nat) returns (r: CopyResult)
      requires Inv({}) && Underway(Job(w, W(), p, c, a, false)) && a < end <= USER_PAGES && next == a + 1
      modifies this`dirs, this`R, k, k.next, k.refcount, k.page
      ensures Inv({}) && Stops(w, p, a, next, false, r)
      ensures r == Done ==> Underway(Job(w, W(), p, c, next, false))
      ensures r == NoMemory ==> Same(w, W())
    {
      ghost var j := Job(w, W(), p, c, a, false);
      JobHere(j);
      if a / NPT !in dirs[p].tabs || a % NPT !in dirs[p].tabs[a / NPT].ptes {
        return Panic;
      }
      ClearWrite(p, a);
      JobQuiet(j, W());
      j := Job(w, W(), p, c, a, false);
      var ok := Walk(c, a, {});
      ghost var w1 := W();
      if !ok {
        Freevm(c, {});
        JobFails(j, w1, W(), next);
        return NoMemory;
      }
      MapShared(p, c, a);
      JobShared(j, w1, W(), next);
      return Done;
    }

    /** The rest of mappages, then incrementReferenceCount. */
    method MapShared(p: nat, c: nat, v: nat)
      requires Inv({}) && p in dirs && c in dirs && p != c && v < USER_PAGES && v / NPT in dirs[c].tabs
      requires Lookup(dirs[p], v).Some? && !Lookup(dirs[p], v).value.w && See(W(), c, v) == None
      modifies this`dirs, this`R, k.refcount
      ensures Inv({}) && Copied(old(W()), W(), p, c, v)
      ensures OnlySpace(old(W()), W(), c) && c in dirs
      ensures Took(old(W()), W(), c, {})
    {
      ghost var w := W();
      var e := dirs[p].tabs[v / NPT].ptes[v % NPT];
      ShareStep(w, p, c, v);
      dirs := dirs[c := SetPte(dirs[c], v, e)];
      var counted := k.IncrementReferenceCount(e.frame);
      R := R[User(c, v) := e.frame];
      assert W() == Share(w, p, c, v);
    }

    /** copyuvm_original: give c a frame of its own for every page. */
    method CopyuvmOriginal(p: nat, c: nat, end: nat, data: nat) returns (r: CopyResult)
      requires Inv({}) && p in dirs && c !in dirs && end <= USER_PAGES && LINK_PAGE < data < TOP_PAGE
      modifies this`dirs, this`R, k, k.next, k.refcount, k.page
      ensures Inv({})
      ensures r == Done ==> Copying(old(W()), W(), p, c, end)
      ensures r == NoMemory ==> Same(old(W()), W())
      ensures CopyEnds(old(W()), p, end, true, r)
    {
      ghost var w := W();
      var ok := Setupkvm(c, data);
      if !ok {
        FreedNothing(w, W(), c);
        JobNone(w, p, end, true);
        return NoMemory;
      }
      JobStart(w, W(), p, c, true);
      var a := 0;
      while a < end
        invariant 0 <= a <= end && Inv({}) && Underway(Job(w, W(), p, c, a, true))
      {
        var next := a + 1;
        r := DuplicateOne(p, c, a, next, w, end);
        if r != Done {
          StopsEnds(w, p, a, next, end, true, r);
          return;
        }
        a := next;
      }
      JobDone(Job(w, W(), p, c, end, true));
      return Done;
    }

    /** The loop body of copyuvm_original. */
    method DuplicateOne(p: nat, c: nat, a: nat, ghost next: nat, ghost w: World, ghost end: nat) returns (r: CopyResult)
      requires Inv({}) && Underway(Job(w, W(), p, c, a, true)) && a < end <= USER_PAGES && next == a + 1
      modifies this`dirs, this`R, k, k.next, k.refcount, k.page
      ensures Inv({}) && Stops(w, p, a, next, true, r)
      ensures r == Done ==> Underway(Job(w, W(), p, c, next, true))
      ensures r == NoMemory ==> Same(w, W())
    {
      ghost var j := Job(w, W(), p, c, a, true);
      JobHere(j);
      if a / NPT !in dirs[p].tabs || a % NPT !in dirs[p].tabs[a / NPT].ptes {
        return Panic;
      }
      var ok := MapCopy(p, c, a);
      if !ok {
        ghost var w1 := W();
        Freevm(c, {});
        JobFails(j, w1, W(), next);
        return NoMemory;
      }
      JobNext(j, W(), next);
      return Done;
    }

    /** kalloc, memmove and mappages. False: out of memory. */
    method MapCopy(p: nat, c: nat, v: nat) returns (ok: bool)
      requires Inv({}) && p in dirs && c in dirs && p != c && v < USER_PAGES
      requires Lookup(dirs[p], v).Some? && See(W(), c, v) == None
      modifies this`dirs, this`R, k, k.next, k.refcount, k.page
      ensures Inv({}) && OnlySpace(old(W()), W(), c) && c in dirs
      ensures if ok then Copied(old(W()), W(), p, c, v) else SameViews(old(W()), W()) && dirs.Keys == old(dirs).Keys
      ensures ok ==> |W().mem.free| + |W().dirs[c].tabs| + 1 == |old(W()).mem.free| + |old(dirs)[c].tabs|
      ensures ok ==> Slots(W().dirs[c]) == Slots(old(dirs)[c]) + {v / NPT}
      ensures !ok ==> W().dirs[c] == old(dirs)[c]
      ensures !ok ==> |old(W()).mem.free| == 0 || (|old(W()).mem.free| == 1 && v / NPT !in old(dirs)[c].tabs)
    {
      ghost var w := W();
      var e := dirs[p].tabs[v / NPT].ptes[v % NPT];
      SeenIsMapped(w, {}, c, v);
      MappedIsHeld(w, {}, p, v);
      var mem := HoldFrame(c, v, k.page[e.frame]);
      if mem == None { return false; }
      ghost var w1 := W();
      ghost var seen := Seen(w.mem.pages[e.frame], e.u);
      ok := MapUser(c, v, Pte(mem.value, e.w, e.u), seen);
      if ok {
        MappedCopy(w, w1, W(), p, c, v, Pte(mem.value, e.w, e.u), seen);
      } else {
        ReleaseHeld(c, v, mem.value);
      }
    }

    /** pagefault at page v of the running process's space. Killed: not a user page, or
        out of memory. Panic: the page is writable already. The panic for a reference
        count of zero is not reached. */
    method Pagefault(id: nat, v: nat) returns (r: FaultResult)
      requires Inv({}) && id in dirs
      modifies this`dirs, this`R, k, k.refcount, k.page
      ensures Inv({}) && Moved(old(W()), W(), id)
      ensures r == AlreadyWritable <==> CanStore(old(W()), id, v)
      ensures r == Writable ==> !CanStore(old(W()), id, v) && CanStore(W(), id, v)
      ensures r == Killed <==> !Accessible(old(W()), id, v) || (!CanStore(old(W()), id, v) && SharedPage(old(W()), id, v) && old(W()).mem.free == [])
      ensures r == Killed ==> W() == old(W())
      ensures r == Writable ==> |W().mem.free| + (if SharedPage(old(W()), id, v) then 1 else 0) == |old(W()).mem.free|
    {
      if v >= USER_PAGES || v / NPT !in dirs[id].tabs || v % NPT !in dirs[id].tabs[v / NPT].ptes
         || !dirs[id].tabs[v / NPT].ptes[v % NPT].u {
        return Killed;
      }
      var e := dirs[id].tabs[v / NPT].ptes[v % NPT];
      if e.w {
        return AlreadyWritable;
      }
      ghost var w := W();
      MappedIsHeld(w, {}, id, v);
      SharersCounted(w, id, v);
      var count := k.refcount[e.frame];
      if count > 1 {
        var ok := CopyPage(id, v, e.frame);
        r := if ok then Writable else Killed;
      } else {
        assert count == 1;
        ProtectWrite(w, id, v);
        dirs := dirs[id := SetPte(dirs[id], v, Pte(e.frame, true, e.u))];
        assert W() == Protect(w, id, v, true, e.u);
        r := Writable;
      }
    }

    /** kalloc and memmove of frame f, which then loses a reference. None: out of memory. */
    method CopyFrame(f: nat) returns (mem: Option<nat>)
      requires k.Ok() && Managed(k.State(), f) && f !in k.free && k.refcount[f] > 0
      modifies k, k.refcount, k.page
      ensures k.Ok() && (mem.None? <==> old(k.State()).free == [])
      ensures mem.None? ==> k.State() == old(k.State())
      ensures mem.Some? ==> mem.value == old(k.State()).free[0] != f && mem.value < PHYS_PAGES
      ensures mem.Some? ==> k.State() == Decrement(Write(Alloc(old(k.State())), mem.value, old(k.State()).pages[f]), f)
    {
      mem := k.Kalloc();
      if mem.Some? {
        k.SetPage(mem.value, k.page[f]);
        var counted := k.DecrementReferenceCount(f);
      }
    }

    /** The branch of pagefault for a shared page. False: out of memory. */
    method CopyPage(id: nat, v: nat, f: nat) returns (ok: bool)
      requires Inv({}) && id in dirs && v < USER_PAGES && Lookup(dirs[id], v) == Some(Pte(f, false, true))
      requires Managed(k.State(), f) && k.refcount[f] > 1 && f !in k.free
      modifies this`dirs, this`R, k, k.refcount, k.page
      ensures Inv({}) && Moved(old(W()), W(), id) && id in dirs
      ensures ok ==> CanStore(W(), id, v) && |W().mem.free| + 1 == |old(W()).mem.free|
      ensures !ok ==> W() == old(W()) && W().mem.free == []
    {
      ghost var w := W();
      var mem := CopyFrame(f);
      if mem == None { return false; }
      dirs := dirs[id := SetPte(dirs[id], v, Pte(mem.value, true, true))];
      R := R[User(id, v) := mem.value];
      CopyStep(w, W(), id, v, f);
      return true;
    }

    /** A store of one byte by user code: the hardware faults if the page is read-only,
        and the instruction runs again after pagefault. False: the process is killed. */
    method UserWrite(id: nat, va: nat, b: byte) returns (ok: bool)
      requires Inv({}) && id in dirs
      modifies this`dirs, this`R, k, k.refcount, k.page
      ensures Inv({}) && OnlySpace(old(W()), W(), id) && id in dirs && TabsKept(old(dirs)[id], dirs[id])
      ensures ok ==> Stored(old(W()), W(), id, va / PGSIZE, va % PGSIZE, b)
      ensures !ok ==> W() == old(W())
      ensures ok <==> StoreGoes(old(W()), id, va / PGSIZE)
    {
      var v, o := va / PGSIZE, va % PGSIZE;
      ghost var w := W();
      if v >= USER_PAGES || v / NPT !in dirs[id].tabs || v % NPT !in dirs[id].tabs[v / NPT].ptes
         || !dirs[id].tabs[v / NPT].ptes[v % NPT].u || !dirs[id].tabs[v / NPT].ptes[v % NPT].w {
        var r := Pagefault(id, v);
        if r == Killed { return false; }
      }
      ghost var w1 := W();
      StoreByte(id, v, o, b);
      StoredAfter(w, w1, W(), id, v, o, b);
      return true;
    }

    method StoreByte(id: nat, v: nat, o: nat, b: byte)
      requires Inv({}) && CanStore(W(), id, v) && o < PGSIZE
      modifies k.page
      ensures Inv({}) && Stored(old(W()), W(), id, v, o, b)
    {
      ghost var w := W();
      var f := dirs[id].tabs[v / NPT].ptes[v % NPT].frame;
      MappedIsHeld(w, {}, id, v);
      ghost var p := w.mem.pages[f][o := b];
      StoreSound(w, {}, id, v, p);
      k.SetPage(f, k.page[f][o := b]);
      assert W() == Store(w, id, v, p);
    }

    /** kalloc of a kernel stack. False: out of memory. */
    method AllocStack(id: nat) returns (ok: bool)
      requires Inv({}) && id !in stacks
      modifies this`stacks, this`R, k, k.refcount
      ensures Inv({}) && SameViews(old(W()), W()) && W().mem.lo == old(W()).mem.lo
      ensures if ok then id in stacks && stacks - {id} == old(stacks) && |W().mem.free| + 1 == |old(W()).mem.free|
              else W() == old(W()) && W().mem.free == []
    {
      ghost var w := W();
      var f := k.Kalloc();
      if f == None { return false; }
      NewStackSound(w, {}, id);
      NewStackTakes(w, id);
      R := R[Stack(id) := f.value];
      stacks := stacks[id := f.value];
      assert W().mem == Alloc(w.mem) && W().dirs == w.dirs;
      assert W().stacks == w.stacks[id := f.value] && W().R == w.R[Stack(id) := f.value];
      assert W() == NewStack(w, id);
      return true;
    }

    method FreeStack(id: nat)
      requires Inv({}) && id in stacks
      modifies this`stacks, this`R, k, k.next, k.refcount, k.page
      ensures Inv({}) && SameViews(old(W()), W()) && W().mem.lo == old(W()).mem.lo
      ensures stacks == old(stacks) - {id}
    {
      ghost var w := W();
      DropStackSound(w, {}, id);
      var ok := k.Kfree(stacks[id]);
      R := R - {Stack(id)};
      stacks := stacks - {id};
      assert W() == DropStack(w, id);
    }
  }
}
