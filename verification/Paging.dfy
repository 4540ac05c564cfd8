/** Two-level page tables: 1024 directory slots, each a table of 1024 entries
    (32-bit paging, section 4.3 of the Intel SDM Volume 3A), and the flat map from
    page number to entry that they stand for. Page numbers are addresses / 4096. */
module Paging {
  import opened Options
  import opened Frames

  const NPT: nat := 1024
  const USER_PAGES: nat := 0x8_0000    // KERNBASE / PGSIZE
  const ALL_PAGES: nat := 0x10_0000    // 2^32 / PGSIZE

  type Slot = x: nat | x < 1024

  datatype Pte = Pte(frame: nat, w: bool, u: bool)
  datatype Tab = Tab(frame: nat, ptes: map<nat, Pte>)
  datatype Dir = Dir(frame: nat, tabs: map<Slot, Tab>)

  /** walkpgdir without alloc, then the test of PTE_P. */
  function Lookup(d: Dir, v: nat): Option<Pte> {
    if v / NPT in d.tabs && v % NPT in d.tabs[v / NPT].ptes then Some(d.tabs[v / NPT].ptes[v % NPT]) else None
  }

  /** walkpgdir with alloc: a new, empty table in slot x. */
  function AddTab(d: Dir, x: Slot, f: nat): Dir {
    Dir(d.frame, d.tabs[x := Tab(f, map[])])
  }

  function SetPte(d: Dir, v: nat, p: Pte): Dir
    requires v / NPT in d.tabs
  {
    var t := d.tabs[v / NPT];
    Dir(d.frame, d.tabs[v / NPT := Tab(t.frame, t.ptes[v % NPT := p])])
  }

  function ClearPte(d: Dir, v: nat): Dir
    requires v / NPT in d.tabs
  {
    var t := d.tabs[v / NPT];
    Dir(d.frame, d.tabs[v / NPT := Tab(t.frame, t.ptes - {v % NPT})])
  }

  lemma SplitPage(v: nat, w: nat)
    ensures v / NPT == w / NPT && v % NPT == w % NPT ==> v == w
  {
    assert v == v / NPT * NPT + v % NPT && w == w / NPT * NPT + w % NPT;
  }

  /** A new table changes nothing of the flat map. */
  lemma AddTabLookup(d: Dir, x: Slot, f: nat, v: nat)
    requires x !in d.tabs
    ensures Lookup(AddTab(d, x, f), v) == Lookup(d, v)
  {
  }

  /** Storing an entry updates the flat map at that page only. */
  lemma SetPteLookup(d: Dir, v: nat, p: Pte, w: nat)
    requires v / NPT in d.tabs
    ensures Lookup(SetPte(d, v, p), w) == if w == v then Some(p) else Lookup(d, w)
  {
    SplitPage(v, w);
  }

  lemma ClearPteLookup(d: Dir, v: nat, w: nat)
    requires v / NPT in d.tabs
    ensures Lookup(ClearPte(d, v), w) == if w == v then None else Lookup(d, w)
  {
    SplitPage(v, w);
  }

  // --------------------------------------- address spaces and their frames

  type Dirs = map<nat, Dir>

  /** The frame that a reference names: see Frames.Ref. */
  function Target(dirs: Dirs, stacks: map<nat, nat>, r: Ref): Option<nat> {
    match r
    case User(id, v) =>
      if id in dirs && v < USER_PAGES && Lookup(dirs[id], v).Some? then Some(Lookup(dirs[id], v).value.frame) else None
    case Table(id, x) => if id in dirs && x in dirs[id].tabs then Some(dirs[id].tabs[x].frame) else None
    case Root(id) => if id in dirs then Some(dirs[id].frame) else None
    case Stack(id) => if id in stacks then Some(stacks[id]) else None
  }

  function Get(R: Refs, r: Ref): Option<nat> {
    if r in R then Some(R[r]) else None
  }

  /** What reference r should have in R: frames in `held` are allocated for it and
      not yet mapped. */
  predicate Right(R: Refs, dirs: Dirs, stacks: map<nat, nat>, held: set<Ref>, r: Ref) {
    if r in held then r in R && Target(dirs, stacks, r) == None else Get(R, r) == Target(dirs, stacks, r)
  }

  /** R lists the references of these address spaces. */
  ghost predicate Tied(R: Refs, dirs: Dirs, stacks: map<nat, nat>, held: set<Ref>) {
    forall r :: Right(R, dirs, stacks, held, r)
  }

  /** A user entry that is read-only: the only kind of reference that may share. */
  predicate Shareable(dirs: Dirs, r: Ref) {
    && r.User? && r.id in dirs && r.page < USER_PAGES
    && Lookup(dirs[r.id], r.page).Some? && !Lookup(dirs[r.id], r.page).value.w
  }

  /** Frames are shared by read-only user entries only: a writable page, a page
      table, a directory or a stack is the only reference to its frame. */
  ghost predicate Exclusive(R: Refs, dirs: Dirs) {
    forall r, q :: r in R && q in R && r != q && R[r] == R[q] ==> Shareable(dirs, r)
  }

  lemma TiedAddTab(R: Refs, dirs: Dirs, stacks: map<nat, nat>, held: set<Ref>, id: nat, x: Slot, f: nat)
    requires Tied(R, dirs, stacks, held) && id in dirs && x !in dirs[id].tabs && Table(id, x) !in held
    ensures Tied(R[Table(id, x) := f], dirs[id := AddTab(dirs[id], x, f)], stacks, held)
  {
    var R', dirs' := R[Table(id, x) := f], dirs[id := AddTab(dirs[id], x, f)];
    forall r ensures Right(R', dirs', stacks, held, r) {
      assert Right(R, dirs, stacks, held, r);
      if r.User? && r.id == id { AddTabLookup(dirs[id], x, f, r.page); }
    }
  }

  lemma TiedRoot(R: Refs, dirs: Dirs, stacks: map<nat, nat>, held: set<Ref>, id: nat, f: nat)
    requires Tied(R, dirs, stacks, held) && id !in dirs && Root(id) !in held
    ensures Tied(R[Root(id) := f], dirs[id := Dir(f, map[])], stacks, held)
  {
    var R', dirs' := R[Root(id) := f], dirs[id := Dir(f, map[])];
    forall r ensures Right(R', dirs', stacks, held, r) {
      assert Right(R, dirs, stacks, held, r);
    }
  }

  lemma TiedStack(R: Refs, dirs: Dirs, stacks: map<nat, nat>, held: set<Ref>, id: nat, f: nat)
    requires Tied(R, dirs, stacks, held) && Stack(id) !in held
    ensures Tied(R[Stack(id) := f], dirs, stacks[id := f], held)
  {
    var R', stacks' := R[Stack(id) := f], stacks[id := f];
    forall r ensures Right(R', dirs, stacks', held, r) {
      assert Right(R, dirs, stacks, held, r);
    }
  }

  /** Storing an entry changes the target of that page only. */
  lemma TargetSetPte(dirs: Dirs, stacks: map<nat, nat>, id: nat, v: nat, p: Pte, r: Ref)
    requires id in dirs && v / NPT in dirs[id].tabs
    ensures Target(dirs[id := SetPte(dirs[id], v, p)], stacks, r) ==
            if r == User(id, v) && v < USER_PAGES then Some(p.frame) else Target(dirs, stacks, r)
  {
    if r.User? && r.id == id { SetPteLookup(dirs[id], v, p, r.page); }
  }

  lemma TargetClearPte(dirs: Dirs, stacks: map<nat, nat>, id: nat, v: nat, r: Ref)
    requires id in dirs && v / NPT in dirs[id].tabs
    ensures Target(dirs[id := ClearPte(dirs[id], v)], stacks, r) ==
            if r == User(id, v) then None else Target(dirs, stacks, r)
  {
    if r.User? && r.id == id { ClearPteLookup(dirs[id], v, r.page); }
  }

  /** Mapping a held frame, or changing the entry of a mapped page. */
  lemma TiedSetPte(R: Refs, dirs: Dirs, stacks: map<nat, nat>, held: set<Ref>, id: nat, v: nat, p: Pte)
    requires Tied(R, dirs, stacks, held) && id in dirs && v / NPT in dirs[id].tabs
    requires if v < USER_PAGES then Get(R, User(id, v)) == Some(p.frame) else User(id, v) !in held
    ensures Tied(R, dirs[id := SetPte(dirs[id], v, p)], stacks, held - {User(id, v)})
  {
    var dirs' := dirs[id := SetPte(dirs[id], v, p)];
    forall r ensures Right(R, dirs', stacks, held - {User(id, v)}, r) {
      assert Right(R, dirs, stacks, held, r);
      TargetSetPte(dirs, stacks, id, v, p, r);
    }
  }

  lemma TiedClearPte(R: Refs, dirs: Dirs, stacks: map<nat, nat>, held: set<Ref>, id: nat, v: nat)
    requires Tied(R, dirs, stacks, held) && id in dirs && v / NPT in dirs[id].tabs && User(id, v) !in held
    ensures Tied(R - {User(id, v)}, dirs[id := ClearPte(dirs[id], v)], stacks, held)
  {
    var R', dirs' := R - {User(id, v)}, dirs[id := ClearPte(dirs[id], v)];
    forall r ensures Right(R', dirs', stacks, held, r) {
      assert Right(R, dirs, stacks, held, r);
      TargetClearPte(dirs, stacks, id, v, r);
    }
  }

  // ------------------------------------------------------ what users see

  /** The contents of a page and whether user code may touch it. */
  datatype Seen = Seen(page: Page, u: bool)
}
