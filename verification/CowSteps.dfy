/** Address spaces over reference-counted frames: the small steps that the code of
    vm.c is made of, what each keeps, and what each does to what processes see. */
module CowSteps {
  import opened Blocks
  import opened Options
  import opened Frames
  import opened Paging

  /** Memory, the page directories, the kernel stacks, and the references they make. */
  datatype World = World(mem: Mem, dirs: Dirs, stacks: map<nat, nat>, R: Refs)

  /** Counts are exact, R is the list of references, and only read-only user entries
      share. Frames in `held` are allocated and not yet mapped. */
  ghost predicate Sound(w: World, held: set<Ref>) {
    Counted(w.mem, w.R) && Tied(w.R, w.dirs, w.stacks, held) && Exclusive(w.R, w.dirs)
  }

  /** What address space id has at user page v. */
  function See(w: World, id: nat, v: nat): Option<Seen> {
    if id in w.dirs && v < USER_PAGES && Lookup(w.dirs[id], v).Some?
       && Lookup(w.dirs[id], v).value.frame < |w.mem.pages|
    then Some(Seen(w.mem.pages[Lookup(w.dirs[id], v).value.frame], Lookup(w.dirs[id], v).value.u))
    else None
  }

  ghost predicate SameViews(w: World, w': World) {
    forall id: nat, v: nat :: See(w', id, v) == See(w, id, v)
  }

  /** The same, except at one page. */
  ghost predicate SameViewsBut(w: World, w': World, id: nat, v: nat) {
    forall i: nat, x: nat :: i != id || x != v ==> See(w', i, x) == See(w, i, x)
  }

  lemma MappedIsHeld(w: World, held: set<Ref>, id: nat, v: nat)
    requires Sound(w, held) && id in w.dirs && v < USER_PAGES && Lookup(w.dirs[id], v).Some?
    ensures User(id, v) in w.R && User(id, v) !in held && w.R[User(id, v)] == Lookup(w.dirs[id], v).value.frame
    ensures Managed(w.mem, Lookup(w.dirs[id], v).value.frame) && w.mem.refs[w.R[User(id, v)]] > 0
  {
    assert Right(w.R, w.dirs, w.stacks, held, User(id, v));
    HeldIsCounted(w.mem, w.R, User(id, v));
  }

  /** A reference to a newly allocated frame shares with nobody. */
  lemma ExclusiveAdd(R: Refs, dirs: Dirs, dirs': Dirs, r: Ref, f: nat)
    requires Exclusive(R, dirs) && r !in R && (forall q :: q in R ==> R[q] != f)
    requires forall q :: q in R && Shareable(dirs, q) ==> Shareable(dirs', q)
    ensures Exclusive(R[r := f], dirs')
  {
    var R' := R[r := f];
    forall a, b | a in R' && b in R' && a != b && R'[a] == R'[b] ensures Shareable(dirs', a) {
      assert a != r && b != r;
    }
  }

  lemma ExclusiveDrop(R: Refs, dirs: Dirs, dirs': Dirs, r: Ref)
    requires Exclusive(R, dirs)
    requires forall q :: q in R && q != r && Shareable(dirs, q) ==> Shareable(dirs', q)
    ensures Exclusive(R - {r}, dirs')
  {
    var R' := R - {r};
    forall a, b | a in R' && b in R' && a != b && R'[a] == R'[b] ensures Shareable(dirs', a) {
      assert R[a] == R[b];
    }
  }

  // ------------------------------------------------------ new table pages

  /** kalloc of a kernel stack. */
  function NewStack(w: World, id: nat): World
    requires w.mem.free != [] && w.mem.free[0] < |w.mem.refs|
  {
    var f := w.mem.free[0];
    World(Alloc(w.mem), w.dirs, w.stacks[id := f], w.R[Stack(id) := f])
  }

  lemma NewStackTakes(w: World, id: nat)
    requires w.mem.free != [] && w.mem.free[0] < |w.mem.refs| && id !in w.stacks
    ensures var w' := NewStack(w, id);
      id in w'.stacks && w'.stacks - {id} == w.stacks && |w'.mem.free| + 1 == |w.mem.free| && w'.mem.lo == w.mem.lo
  {
  }

  lemma NewStackSound(w: World, held: set<Ref>, id: nat)
    requires Sound(w, held) && w.mem.free != [] && id !in w.stacks && Stack(id) !in held
    ensures w.mem.free[0] < |w.mem.refs| && Sound(NewStack(w, id), held) && SameViews(w, NewStack(w, id))
  {
    assert Right(w.R, w.dirs, w.stacks, held, Stack(id));
    AllocCounted(w.mem, w.R, Stack(id));
    ExclusiveAdd(w.R, w.dirs, w.dirs, Stack(id), w.mem.free[0]);
    TiedStack(w.R, w.dirs, w.stacks, held, id, w.mem.free[0]);
  }

  /** kalloc of an empty page directory. */
  function NewRoot(w: World, id: nat): World
    requires w.mem.free != [] && w.mem.free[0] < |w.mem.refs|
  {
    var f := w.mem.free[0];
    World(Alloc(w.mem), w.dirs[id := Dir(f, map[])], w.stacks, w.R[Root(id) := f])
  }

  lemma NewRootSound(w: World, held: set<Ref>, id: nat)
    requires Sound(w, held) && w.mem.free != [] && id !in w.dirs && Root(id) !in held
    ensures w.mem.free[0] < |w.mem.refs| && Sound(NewRoot(w, id), held) && SameViews(w, NewRoot(w, id))
  {
    var dirs' := w.dirs[id := Dir(w.mem.free[0], map[])];
    assert Right(w.R, w.dirs, w.stacks, held, Root(id));
    AllocCounted(w.mem, w.R, Root(id));
    assert forall q :: Shareable(w.dirs, q) ==> Shareable(dirs', q);
    ExclusiveAdd(w.R, w.dirs, dirs', Root(id), w.mem.free[0]);
    TiedRoot(w.R, w.dirs, w.stacks, held, id, w.mem.free[0]);
  }

  /** walkpgdir with alloc, when the table is missing. */
  function NewTab(w: World, id: nat, x: Slot): World
    requires w.mem.free != [] && w.mem.free[0] < |w.mem.refs| && id in w.dirs
  {
    var f := w.mem.free[0];
    World(Alloc(w.mem), w.dirs[id := AddTab(w.dirs[id], x, f)], w.stacks, w.R[Table(id, x) := f])
  }

  lemma NewTabSound(w: World, held: set<Ref>, id: nat, x: Slot)
    requires Sound(w, held) && w.mem.free != [] && id in w.dirs && x !in w.dirs[id].tabs && Table(id, x) !in held
    ensures w.mem.free[0] < |w.mem.refs| && Sound(NewTab(w, id, x), held) && SameViews(w, NewTab(w, id, x))
    ensures forall v: nat :: Lookup(NewTab(w, id, x).dirs[id], v) == Lookup(w.dirs[id], v)
  {
    var r, f := Table(id, x), w.mem.free[0];
    var dirs' := w.dirs[id := AddTab(w.dirs[id], x, f)];
    assert Right(w.R, w.dirs, w.stacks, held, r);
    AllocCounted(w.mem, w.R, r);
    TiedAddTab(w.R, w.dirs, w.stacks, held, id, x, f);
    forall v: nat ensures Lookup(dirs'[id], v) == Lookup(w.dirs[id], v) { AddTabLookup(w.dirs[id], x, f, v); }
    ExclusiveAdd(w.R, w.dirs, dirs', r, f);
  }

  // ------------------------------------------------------ user pages

  /** A page whose frame nobody refers to, but for a held one, is seen by nobody. */
  lemma UnseenWrite(w: World, held: set<Ref>, f: nat, p: Page)
    requires Sound(w, held) && Managed(w.mem, f)
    requires forall r :: r in w.R && w.R[r] == f ==> r in held
    ensures SameViews(w, w.(mem := Write(w.mem, f, p)))
  {
    var w' := w.(mem := Write(w.mem, f, p));
    forall id: nat, v: nat ensures See(w', id, v) == See(w, id, v) {
      if See(w, id, v).Some? { MappedIsHeld(w, held, id, v); }
    }
  }

  /** kalloc of a frame for user page v, filled with p, not mapped yet. */
  function Hold(w: World, id: nat, v: nat, p: Page): World
    requires w.mem.free != [] && w.mem.free[0] < |w.mem.refs| && w.mem.free[0] < |w.mem.pages|
  {
    var f := w.mem.free[0];
    World(Write(Alloc(w.mem), f, p), w.dirs, w.stacks, w.R[User(id, v) := f])
  }

  lemma TiedHold(R: Refs, dirs: Dirs, stacks: map<nat, nat>, held: set<Ref>, r: Ref, f: nat)
    requires Tied(R, dirs, stacks, held) && Target(dirs, stacks, r) == None
    ensures Tied(R[r := f], dirs, stacks, held + {r})
  {
    var R', held' := R[r := f], held + {r};
    forall q ensures Right(R', dirs, stacks, held', q) {
      assert Right(R, dirs, stacks, held, q);
    }
  }

  lemma HoldSound(w: World, held: set<Ref>, id: nat, v: nat, p: Page)
    requires Sound(w, held) && w.mem.free != [] && User(id, v) !in held
    requires Target(w.dirs, w.stacks, User(id, v)) == None
    ensures w.mem.free[0] < |w.mem.refs| && w.mem.free[0] < |w.mem.pages|
    ensures Sound(Hold(w, id, v, p), held + {User(id, v)}) && SameViews(w, Hold(w, id, v, p))
    ensures Hold(w, id, v, p).R[User(id, v)] !in w.R.Values
  {
    var r, f := User(id, v), w.mem.free[0];
    assert Right(w.R, w.dirs, w.stacks, held, r);
    AllocCounted(w.mem, w.R, r);
    ExclusiveAdd(w.R, w.dirs, w.dirs, r, f);
    TiedHold(w.R, w.dirs, w.stacks, held, r, f);
    var w1 := World(Alloc(w.mem), w.dirs, w.stacks, w.R[r := f]);
    assert Sound(w1, held + {r});
    WriteCounted(w1.mem, w1.R, f, p);
    UnseenWrite(w1, held + {r}, f, p);
  }

  /** An entry for a frame that nobody else refers to may have any permissions. */
  lemma MapExclusive(R: Refs, dirs: Dirs, dirs': Dirs, r: Ref)
    requires Exclusive(R, dirs) && r in R && !Shareable(dirs, r)
    requires forall q :: q in R && q != r && Shareable(dirs, q) ==> Shareable(dirs', q)
    ensures Exclusive(R, dirs')
  {
    forall a, b | a in R && b in R && a != b && R[a] == R[b] ensures Shareable(dirs', a) {
      assert Shareable(dirs, a) && Shareable(dirs, b);
    }
  }

  /** Map a held frame. */
  function MapHeld(w: World, id: nat, v: nat, writable: bool, u: bool): World
    requires id in w.dirs && v / NPT in w.dirs[id].tabs && User(id, v) in w.R
  {
    w.(dirs := w.dirs[id := SetPte(w.dirs[id], v, Pte(w.R[User(id, v)], writable, u))])
  }

  lemma MapHeldSound(w: World, held: set<Ref>, id: nat, v: nat, writable: bool, u: bool)
    requires Sound(w, held) && User(id, v) in held && id in w.dirs && v < USER_PAGES && v / NPT in w.dirs[id].tabs
    ensures User(id, v) in w.R && w.R[User(id, v)] < |w.mem.pages|
    ensures var w' := MapHeld(w, id, v, writable, u);
            && Sound(w', held - {User(id, v)}) && SameViewsBut(w, w', id, v)
            && See(w', id, v) == Some(Seen(w.mem.pages[w.R[User(id, v)]], u))
  {
    var r := User(id, v);
    assert Right(w.R, w.dirs, w.stacks, held, r);
    HeldIsCounted(w.mem, w.R, r);
    var p := Pte(w.R[r], writable, u);
    var w' := MapHeld(w, id, v, writable, u);
    TiedSetPte(w.R, w.dirs, w.stacks, held, id, v, p);
    forall x: nat ensures Lookup(w'.dirs[id], x) == if x == v then Some(p) else Lookup(w.dirs[id], x) {
      SetPteLookup(w.dirs[id], v, p, x);
    }
    assert forall q :: q in w.R && q != r && Shareable(w.dirs, q) ==> Shareable(w'.dirs, q);
    MapExclusive(w.R, w.dirs, w'.dirs, r);
  }

  /** kfree of a held frame that could not be mapped. */
  lemma UnholdSound(w: World, held: set<Ref>, r: Ref)
    requires Sound(w, held) && r in held
    ensures r in w.R && Managed(w.mem, w.R[r]) && w.R[r] !in w.mem.free
    ensures w.R[r] < |w.mem.refs| == |w.mem.pages|
    ensures var w' := World(Free(w.mem, w.R[r]), w.dirs, w.stacks, w.R - {r});
            Sound(w', held - {r}) && SameViews(w, w')
  {
    assert Right(w.R, w.dirs, w.stacks, held, r);
    HeldIsCounted(w.mem, w.R, r);
    DropCounted(w.mem, w.R, r);
    ExclusiveDrop(w.R, w.dirs, w.dirs, r);
    var R', held' := w.R - {r}, held - {r};
    forall q ensures Right(R', w.dirs, w.stacks, held', q) {
      assert Right(w.R, w.dirs, w.stacks, held, q);
    }
    DropUnseen(w, held, r);
  }

  /** Dropping a reference that maps nothing, or whose frame others keep, changes no
      page that anybody else sees. */
  lemma DropUnseen(w: World, held: set<Ref>, r: Ref)
    requires Sound(w, held) && r in w.R
    ensures Managed(w.mem, w.R[r]) && w.R[r] < |w.mem.refs| == |w.mem.pages|
    ensures forall id: nat, v: nat :: User(id, v) != r ==>
              See(World(Free(w.mem, w.R[r]), w.dirs, w.stacks, w.R), id, v) == See(w, id, v)
  {
    HeldIsCounted(w.mem, w.R, r);
    var w' := World(Free(w.mem, w.R[r]), w.dirs, w.stacks, w.R);
    forall id: nat, v: nat | User(id, v) != r ensures See(w', id, v) == See(w, id, v) {
      if See(w, id, v).Some? {
        MappedIsHeld(w, held, id, v);
        OnlyHolder(w.mem, w.R, r);
      }
    }
  }

  /** deallocuvm at one page: kfree the frame and clear the entry. */
  function Unmap(w: World, id: nat, v: nat): World
    requires id in w.dirs && Lookup(w.dirs[id], v).Some?
    requires Lookup(w.dirs[id], v).value.frame < |w.mem.refs| == |w.mem.pages|
  {
    World(Free(w.mem, Lookup(w.dirs[id], v).value.frame), w.dirs[id := ClearPte(w.dirs[id], v)],
          w.stacks, w.R - {User(id, v)})
  }

  lemma UnmapViews(w: World, held: set<Ref>, id: nat, v: nat)
    requires Sound(w, held) && id in w.dirs && v < USER_PAGES && Lookup(w.dirs[id], v).Some?
    requires Lookup(w.dirs[id], v).value.frame < |w.mem.refs| == |w.mem.pages|
    ensures SameViewsBut(w, Unmap(w, id, v), id, v) && See(Unmap(w, id, v), id, v) == None
  {
    MappedIsHeld(w, held, id, v);
    DropUnseen(w, held, User(id, v));
    var w' := Unmap(w, id, v);
    ClearPteLookup(w.dirs[id], v, v);
    var mid := World(w'.mem, w.dirs, w.stacks, w.R);
    forall i: nat, x: nat | i != id || x != v ensures See(w', i, x) == See(w, i, x) {
      assert User(i, x) != User(id, v) && See(mid, i, x) == See(w, i, x);
      if i == id { ClearPteLookup(w.dirs[id], v, x); }
    }
  }

  lemma UnmapSound(w: World, held: set<Ref>, id: nat, v: nat)
    requires Sound(w, held) && id in w.dirs && v < USER_PAGES && Lookup(w.dirs[id], v).Some?
    ensures Managed(w.mem, Lookup(w.dirs[id], v).value.frame) && Lookup(w.dirs[id], v).value.frame !in w.mem.free
    ensures Lookup(w.dirs[id], v).value.frame < |w.mem.refs| == |w.mem.pages|
    ensures var w' := Unmap(w, id, v);
            Sound(w', held) && SameViewsBut(w, w', id, v) && See(w', id, v) == None
  {
    var r := User(id, v);
    MappedIsHeld(w, held, id, v);
    HeldIsCounted(w.mem, w.R, r);
    UnmapViews(w, held, id, v);
    DropCounted(w.mem, w.R, r);
    TiedClearPte(w.R, w.dirs, w.stacks, held, id, v);
    var dirs' := w.dirs[id := ClearPte(w.dirs[id], v)];
    forall q | q in w.R && q != r && Shareable(w.dirs, q) ensures Shareable(dirs', q) {
      if q.id == id { ClearPteLookup(w.dirs[id], v, q.page); }
    }
    ExclusiveDrop(w.R, w.dirs, dirs', r);
  }

  // -------------------------------------------------------- permissions

  /** Change the permissions of a mapped page. */
  function Protect(w: World, id: nat, v: nat, writable: bool, u: bool): World
    requires id in w.dirs && Lookup(w.dirs[id], v).Some?
  {
    w.(dirs := w.dirs[id := SetPte(w.dirs[id], v, Pte(Lookup(w.dirs[id], v).value.frame, writable, u))])
  }

  /** A page may be made writable if its count is one, and read-only always. */
  lemma ProtectSound(w: World, held: set<Ref>, id: nat, v: nat, writable: bool, u: bool)
    requires Sound(w, held) && id in w.dirs && v < USER_PAGES && Lookup(w.dirs[id], v).Some?
    requires Lookup(w.dirs[id], v).value.frame < |w.mem.refs|
    requires !writable || Lookup(w.dirs[id], v).value.w || w.mem.refs[Lookup(w.dirs[id], v).value.frame] == 1
    ensures var w' := Protect(w, id, v, writable, u);
            && Sound(w', held) && SameViewsBut(w, w', id, v)
            && See(w, id, v).Some? && See(w', id, v) == Some(Seen(See(w, id, v).value.page, u))
  {
    var r, p := User(id, v), Pte(Lookup(w.dirs[id], v).value.frame, writable, u);
    var w' := Protect(w, id, v, writable, u);
    MappedIsHeld(w, held, id, v);
    OnlyHolder(w.mem, w.R, r);
    TiedSetPte(w.R, w.dirs, w.stacks, held, id, v, p);
    assert held - {r} == held;
    forall x: nat ensures Lookup(w'.dirs[id], x) == if x == v then Some(p) else Lookup(w.dirs[id], x) {
      SetPteLookup(w.dirs[id], v, p, x);
    }
    forall a, b | a in w.R && b in w.R && a != b && w.R[a] == w.R[b] ensures Shareable(w'.dirs, a) {
      assert Shareable(w.dirs, a) && Shareable(w.dirs, b);
    }
  }

  // ------------------------------------------------- sharing and copying

  /** copyuvm at one page: the child maps the parent's frame, read-only. */
  function Share(w: World, p: nat, c: nat, v: nat): World
    requires p in w.dirs && c in w.dirs && Lookup(w.dirs[p], v).Some? && v / NPT in w.dirs[c].tabs
    requires Lookup(w.dirs[p], v).value.frame < |w.mem.refs|
  {
    var e := Lookup(w.dirs[p], v).value;
    World(Increment(w.mem, e.frame), w.dirs[c := SetPte(w.dirs[c], v, e)], w.stacks, w.R[User(c, v) := e.frame])
  }

  lemma TiedShare(R: Refs, dirs: Dirs, stacks: map<nat, nat>, held: set<Ref>, id: nat, v: nat, p: Pte)
    requires Tied(R, dirs, stacks, held) && id in dirs && v / NPT in dirs[id].tabs && v < USER_PAGES
    requires User(id, v) !in held
    ensures Tied(R[User(id, v) := p.frame], dirs[id := SetPte(dirs[id], v, p)], stacks, held)
  {
    var R', dirs' := R[User(id, v) := p.frame], dirs[id := SetPte(dirs[id], v, p)];
    forall r ensures Right(R', dirs', stacks, held, r) {
      assert Right(R, dirs, stacks, held, r);
      TargetSetPte(dirs, stacks, id, v, p, r);
    }
  }

  lemma ShareSound(w: World, held: set<Ref>, p: nat, c: nat, v: nat)
    requires Sound(w, held) && p in w.dirs && c in w.dirs && p != c && v < USER_PAGES
    requires Lookup(w.dirs[p], v).Some? && !Lookup(w.dirs[p], v).value.w
    requires Lookup(w.dirs[c], v) == None && v / NPT in w.dirs[c].tabs && User(c, v) !in held
    ensures Lookup(w.dirs[p], v).value.frame < |w.mem.refs| && w.mem.refs[Lookup(w.dirs[p], v).value.frame] > 0
    ensures Managed(w.mem, Lookup(w.dirs[p], v).value.frame)
    ensures var w' := Share(w, p, c, v);
            Sound(w', held) && SameViewsBut(w, w', c, v) && See(w', c, v) == See(w, p, v)
  {
    var q, r, e := User(p, v), User(c, v), Lookup(w.dirs[p], v).value;
    MappedIsHeld(w, held, p, v);
    var w' := Share(w, p, c, v);
    assert Right(w.R, w.dirs, w.stacks, held, r);
    ShareCounted(w.mem, w.R, r, q);
    TiedShare(w.R, w.dirs, w.stacks, held, c, v, e);
    forall x: nat ensures Lookup(w'.dirs[c], x) == if x == v then Some(e) else Lookup(w.dirs[c], x) {
      SetPteLookup(w.dirs[c], v, e, x);
    }
    ShareExclusive(w.R, w.dirs, w'.dirs, r, q);
  }

  lemma ShareExclusive(R: Refs, dirs: Dirs, dirs': Dirs, r: Ref, q: Ref)
    requires Exclusive(R, dirs) && q in R && r !in R && Shareable(dirs, q) && Shareable(dirs', r)
    requires forall s :: s in R && Shareable(dirs, s) ==> Shareable(dirs', s)
    ensures Exclusive(R[r := R[q]], dirs')
  {
    var R' := R[r := R[q]];
    forall a, b | a in R' && b in R' && a != b && R'[a] == R'[b] ensures Shareable(dirs', a) {
      if a != r {
        if b != r { assert Shareable(dirs, a); } else if a != q { assert R[a] == R[q]; }
      }
    }
  }

  /** pagefault on a shared page: a private, writable copy, one reference fewer. */
  function CopyFault(w: World, id: nat, v: nat): World
    requires id in w.dirs && Lookup(w.dirs[id], v).Some? && w.mem.free != []
    requires var f := Lookup(w.dirs[id], v).value.frame;
             f < |w.mem.refs| == |w.mem.pages| && w.mem.free[0] < |w.mem.refs| && w.mem.free[0] != f && w.mem.refs[f] > 0
  {
    var f, g := Lookup(w.dirs[id], v).value.frame, w.mem.free[0];
    World(Decrement(Write(Alloc(w.mem), g, w.mem.pages[f]), f),
          w.dirs[id := SetPte(w.dirs[id], v, Pte(g, true, true))], w.stacks, w.R[User(id, v) := g])
  }

  lemma CopyCounted(m: Mem, R: Refs, r: Ref, p: Page)
    requires Counted(m, R) && r in R && m.refs[R[r]] > 1 && m.free != []
    ensures Managed(m, m.free[0]) && m.free[0] != R[r] && (forall q :: q in R ==> R[q] != m.free[0])
    ensures Managed(m, R[r])
    ensures Counted(Decrement(Write(Alloc(m), m.free[0], p), R[r]), R[r := m.free[0]])
  {
    var f, g := R[r], m.free[0];
    HeldIsCounted(m, R, r);
    UnshareCounted(m, R, r);
    AllocCounted(Decrement(m, f), R - {r}, r);
    assert (R - {r})[r := g] == R[r := g];
    forall q | q in R ensures R[q] != g { HeldIsCounted(m, R, q); }
    WriteCounted(Alloc(Decrement(m, f)), R[r := g], g, p);
    assert Write(Alloc(Decrement(m, f)), g, p) == Decrement(Write(Alloc(m), g, p), f);
  }

  lemma CopyExclusive(R: Refs, dirs: Dirs, dirs': Dirs, r: Ref, g: nat)
    requires Exclusive(R, dirs) && (forall q :: q in R ==> R[q] != g)
    requires forall q :: q in R && q != r && Shareable(dirs, q) ==> Shareable(dirs', q)
    ensures Exclusive(R[r := g], dirs')
  {
    var R' := R[r := g];
    forall a, b | a in R' && b in R' && a != b && R'[a] == R'[b] ensures Shareable(dirs', a) {
      assert a != r && b != r && R[a] == R[b];
    }
  }

  lemma CopyFaultViews(w: World, held: set<Ref>, id: nat, v: nat)
    requires Sound(w, held) && id in w.dirs && v < USER_PAGES && Lookup(w.dirs[id], v).Some? && w.mem.free != []
    requires Lookup(w.dirs[id], v).value.u
    requires var f := Lookup(w.dirs[id], v).value.frame;
             f < |w.mem.refs| == |w.mem.pages| && w.mem.free[0] < |w.mem.refs| && w.mem.free[0] != f && w.mem.refs[f] > 0
    requires forall q :: q in w.R ==> w.R[q] != w.mem.free[0]
    ensures SameViews(w, CopyFault(w, id, v))
    ensures Lookup(CopyFault(w, id, v).dirs[id], v) == Some(Pte(w.mem.free[0], true, true))
  {
    var w', p := CopyFault(w, id, v), Pte(w.mem.free[0], true, true);
    SetPteLookup(w.dirs[id], v, p, v);
    forall i: nat, x: nat ensures See(w', i, x) == See(w, i, x) {
      if i == id { SetPteLookup(w.dirs[id], v, p, x); }
      if See(w, i, x).Some? { MappedIsHeld(w, held, i, x); }
    }
  }

  /** Copying on a fault changes nobody's view, not even the faulting process's. */
  lemma CopyFaultSound(w: World, held: set<Ref>, id: nat, v: nat)
    requires Sound(w, held) && id in w.dirs && v < USER_PAGES && Lookup(w.dirs[id], v).Some? && w.mem.free != []
    requires Lookup(w.dirs[id], v).value.u && Lookup(w.dirs[id], v).value.frame < |w.mem.refs|
    requires w.mem.refs[Lookup(w.dirs[id], v).value.frame] > 1
    ensures var f := Lookup(w.dirs[id], v).value.frame;
            f < |w.mem.pages| == |w.mem.refs| && w.mem.free[0] < |w.mem.refs| && w.mem.free[0] != f
    ensures Sound(CopyFault(w, id, v), held) && SameViews(w, CopyFault(w, id, v))
    ensures Lookup(CopyFault(w, id, v).dirs[id], v) == Some(Pte(w.mem.free[0], true, true))
  {
    var r, f, g := User(id, v), Lookup(w.dirs[id], v).value.frame, w.mem.free[0];
    MappedIsHeld(w, held, id, v);
    CopyCounted(w.mem, w.R, r, w.mem.pages[f]);
    CopyFaultViews(w, held, id, v);
    var p := Pte(g, true, true);
    TiedShare(w.R, w.dirs, w.stacks, held, id, v, p);
    var dirs' := w.dirs[id := SetPte(w.dirs[id], v, p)];
    forall q | q in w.R && q != r && Shareable(w.dirs, q) ensures Shareable(dirs', q) {
      if q.id == id { SetPteLookup(w.dirs[id], v, p, q.page); }
    }
    CopyExclusive(w.R, w.dirs, dirs', r, g);
  }

  /** A store by user code through a writable entry. */
  function Store(w: World, id: nat, v: nat, p: Page): World
    requires id in w.dirs && Lookup(w.dirs[id], v).Some? && Lookup(w.dirs[id], v).value.frame < |w.mem.pages|
  {
    w.(mem := Write(w.mem, Lookup(w.dirs[id], v).value.frame, p))
  }

  /** It is seen by that process, at that page, and by nobody else. */
  lemma StoreSound(w: World, held: set<Ref>, id: nat, v: nat, p: Page)
    requires Sound(w, held) && id in w.dirs && v < USER_PAGES
    requires Lookup(w.dirs[id], v).Some? && Lookup(w.dirs[id], v).value.w
    ensures Lookup(w.dirs[id], v).value.frame < |w.mem.pages|
    ensures var w' := Store(w, id, v, p);
            && Sound(w', held) && SameViewsBut(w, w', id, v)
            && See(w', id, v) == Some(Seen(p, Lookup(w.dirs[id], v).value.u))
  {
    var r, f := User(id, v), Lookup(w.dirs[id], v).value.frame;
    MappedIsHeld(w, held, id, v);
    WriteCounted(w.mem, w.R, f, p);
    var w' := Store(w, id, v, p);
    forall i: nat, x: nat | i != id || x != v ensures See(w', i, x) == See(w, i, x) {
      if See(w, i, x).Some? {
        MappedIsHeld(w, held, i, x);
        assert w.R[User(i, x)] == f ==> Shareable(w.dirs, r);
      }
    }
  }

  // ------------------------------------------------------------ teardown

  /** freevm's loop over the directory: kfree one table, which maps no user page any more. */
  function DropTab(w: World, id: nat, x: Slot): World
    requires id in w.dirs && x in w.dirs[id].tabs && w.dirs[id].tabs[x].frame < |w.mem.refs| == |w.mem.pages|
  {
    var d := w.dirs[id];
    World(Free(w.mem, d.tabs[x].frame), w.dirs[id := Dir(d.frame, d.tabs - {x})], w.stacks, w.R - {Table(id, x)})
  }

  lemma TiedDropTab(R: Refs, dirs: Dirs, stacks: map<nat, nat>, held: set<Ref>, id: nat, x: Slot)
    requires Tied(R, dirs, stacks, held) && id in dirs && x in dirs[id].tabs && Table(id, x) !in held
    requires forall v: nat :: v < USER_PAGES ==> Lookup(dirs[id], v) == None
    ensures Tied(R - {Table(id, x)}, dirs[id := Dir(dirs[id].frame, dirs[id].tabs - {x})], stacks, held)
  {
    var R', dirs' := R - {Table(id, x)}, dirs[id := Dir(dirs[id].frame, dirs[id].tabs - {x})];
    forall r ensures Right(R', dirs', stacks, held, r) {
      assert Right(R, dirs, stacks, held, r);
    }
  }

  lemma DropTabSound(w: World, held: set<Ref>, id: nat, x: Slot)
    requires Sound(w, held) && id in w.dirs && x in w.dirs[id].tabs
    requires forall v: nat :: v < USER_PAGES ==> Lookup(w.dirs[id], v) == None
    ensures w.dirs[id].tabs[x].frame < |w.mem.refs| == |w.mem.pages| && w.dirs[id].tabs[x].frame !in w.mem.free
    ensures Managed(w.mem, w.dirs[id].tabs[x].frame)
    ensures Sound(DropTab(w, id, x), held) && SameViews(w, DropTab(w, id, x))
    ensures forall v: nat :: v < USER_PAGES ==> Lookup(DropTab(w, id, x).dirs[id], v) == None
  {
    var r := Table(id, x);
    assert Right(w.R, w.dirs, w.stacks, held, r);
    HeldIsCounted(w.mem, w.R, r);
    DropCounted(w.mem, w.R, r);
    TiedDropTab(w.R, w.dirs, w.stacks, held, id, x);
    var w' := DropTab(w, id, x);
    forall v: nat | v < USER_PAGES ensures Lookup(w'.dirs[id], v) == None {
      assert Lookup(w.dirs[id], v) == None;
    }
    assert forall q :: Shareable(w.dirs, q) ==> q.id != id;
    ExclusiveDrop(w.R, w.dirs, w'.dirs, r);
    TeardownViews(w, w', held, id, r);
  }

  /** Tearing down an address space that maps no user page changes no view. */
  lemma TeardownViews(w: World, w': World, held: set<Ref>, id: nat, r: Ref)
    requires Sound(w, held) && r in w.R && !r.User? && w.R[r] < |w.mem.refs| == |w.mem.pages|
    requires w'.mem == Free(w.mem, w.R[r])
    requires forall i: nat :: i != id ==> (i in w'.dirs <==> i in w.dirs) && (i in w.dirs ==> w'.dirs[i] == w.dirs[i])
    requires id in w.dirs ==> forall v: nat :: v < USER_PAGES ==> Lookup(w.dirs[id], v) == None
    requires id in w'.dirs ==> forall v: nat :: v < USER_PAGES ==> Lookup(w'.dirs[id], v) == None
    ensures SameViews(w, w')
  {
    DropUnseen(w, held, r);
    var mid := World(w'.mem, w.dirs, w.stacks, w.R);
    forall i: nat, v: nat ensures See(w', i, v) == See(w, i, v) {
      assert User(i, v) != r && See(mid, i, v) == See(w, i, v);
    }
  }

  /** The last kfree of freevm: the directory itself. */
  function DropRoot(w: World, id: nat): World
    requires id in w.dirs && w.dirs[id].frame < |w.mem.refs| == |w.mem.pages|
  {
    World(Free(w.mem, w.dirs[id].frame), w.dirs - {id}, w.stacks, w.R - {Root(id)})
  }

  lemma TiedDropRoot(R: Refs, dirs: Dirs, stacks: map<nat, nat>, held: set<Ref>, id: nat)
    requires Tied(R, dirs, stacks, held) && id in dirs && dirs[id].tabs == map[] && Root(id) !in held
    ensures Tied(R - {Root(id)}, dirs - {id}, stacks, held)
  {
    var R', dirs' := R - {Root(id)}, dirs - {id};
    forall r ensures Right(R', dirs', stacks, held, r) {
      assert Right(R, dirs, stacks, held, r);
    }
  }

  lemma DropRootSound(w: World, held: set<Ref>, id: nat)
    requires Sound(w, held) && id in w.dirs && w.dirs[id].tabs == map[]
    ensures w.dirs[id].frame < |w.mem.refs| == |w.mem.pages| && w.dirs[id].frame !in w.mem.free
    ensures Managed(w.mem, w.dirs[id].frame)
    ensures Sound(DropRoot(w, id), held) && SameViews(w, DropRoot(w, id))
  {
    var r := Root(id);
    assert Right(w.R, w.dirs, w.stacks, held, r);
    HeldIsCounted(w.mem, w.R, r);
    DropCounted(w.mem, w.R, r);
    TiedDropRoot(w.R, w.dirs, w.stacks, held, id);
    var w' := DropRoot(w, id);
    ExclusiveDrop(w.R, w.dirs, w'.dirs, r);
    TeardownViews(w, w', held, id, r);
  }

  /** kfree of a kernel stack. */
  function DropStack(w: World, id: nat): World
    requires id in w.stacks && w.stacks[id] < |w.mem.refs| == |w.mem.pages|
  {
    World(Free(w.mem, w.stacks[id]), w.dirs, w.stacks - {id}, w.R - {Stack(id)})
  }

  lemma DropStackSound(w: World, held: set<Ref>, id: nat)
    requires Sound(w, held) && id in w.stacks
    ensures w.stacks[id] < |w.mem.refs| == |w.mem.pages| && w.stacks[id] !in w.mem.free && Managed(w.mem, w.stacks[id])
    ensures Sound(DropStack(w, id), held) && SameViews(w, DropStack(w, id))
  {
    var r := Stack(id);
    assert Right(w.R, w.dirs, w.stacks, held, r);
    HeldIsCounted(w.mem, w.R, r);
    DropCounted(w.mem, w.R, r);
    var w' := DropStack(w, id);
    forall q ensures Right(w'.R, w'.dirs, w'.stacks, held, q) {
      assert Right(w.R, w.dirs, w.stacks, held, q);
    }
    ExclusiveDrop(w.R, w.dirs, w.dirs, r);
    DropUnseen(w, held, r);
    var mid := World(w'.mem, w.dirs, w.stacks, w.R);
    forall i: nat, v: nat ensures See(w', i, v) == See(w, i, v) {
      assert User(i, v) != r && See(mid, i, v) == See(w, i, v);
    }
  }

  /** mappages of a kernel page: no user sees it and no frame is counted. */
  lemma KernelPteSound(w: World, held: set<Ref>, id: nat, v: nat, p: Pte)
    requires Sound(w, held) && id in w.dirs && v >= USER_PAGES && v / NPT in w.dirs[id].tabs && User(id, v) !in held
    ensures var w' := w.(dirs := w.dirs[id := SetPte(w.dirs[id], v, p)]);
            Sound(w', held) && SameViews(w, w')
  {
    var w' := w.(dirs := w.dirs[id := SetPte(w.dirs[id], v, p)]);
    TiedSetPte(w.R, w.dirs, w.stacks, held, id, v, p);
    assert held - {User(id, v)} == held;
    forall x: nat ensures Lookup(w'.dirs[id], x) == if x == v then Some(p) else Lookup(w.dirs[id], x) {
      SetPteLookup(w.dirs[id], v, p, x);
    }
    forall a, b | a in w.R && b in w.R && a != b && w.R[a] == w.R[b] ensures Shareable(w'.dirs, a) {
      assert Shareable(w.dirs, a) && Right(w.R, w.dirs, w.stacks, held, a);
    }
  }
}
