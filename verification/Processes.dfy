/** The memory calls of processes over shared, counted frames (fork, growproc, stores
    of user code, the freeing in wait), against the private memory they are promised. */
module Processes {
  import opened Blocks
  import opened Options
  import opened Frames
  import opened Kalloc
  import opened Paging
  import opened CowSteps
  import opened AddressSpace
  import opened TableNeed
  import opened Vm
  import opened MemoryNeed
  import PM = PrivateMemory

  /** Page v of process id, as it should be. */
  function At(s: PM.Spaces, id: nat, v: nat): Option<Seen> {
    if id in s && v in s[id].mem then Some(s[id].mem[v]) else None
  }

  ghost predicate AgreeAt(w: World, s: PM.Spaces, id: nat, v: nat) {
    See(w, id, v) == At(s, id, v)
  }

  /** Address space id has the tables for its first n pages. */
  ghost predicate Covered(w: World, id: nat, n: nat) {
    forall x: nat :: x * NPT < n ==> Target(w.dirs, w.stacks, Table(id, x)).Some?
  }

  ghost predicate Shape(w: World, sz: map<nat, nat>, s: PM.Spaces) {
    && w.dirs.Keys == w.stacks.Keys == sz.Keys == s.Keys
    && forall id :: id in s ==> sz[id] == s[id].sz && Covered(w, id, Up(s[id].sz))
  }

  /** Every process sees the private memory s. */
  ghost predicate Matches(w: World, sz: map<nat, nat>, s: PM.Spaces) {
    Shape(w, sz, s) && PM.AllFit(s) && forall id: nat, v: nat :: AgreeAt(w, s, id, v)
  }

  /** Of the pages of id just those are there that have a byte below the size. */
  ghost predicate Spans(w: World, id: nat, size: nat) {
    forall v: nat :: See(w, id, v).Some? <==> v * PGSIZE < size
  }

  /** The size after a successful growproc: a decrease below 0 is none. */
  function ToSize(sz: nat, n: int): nat {
    if sz + n < 0 then sz else sz + n
  }

  lemma ResizedSpans(w: World, sz: map<nat, nat>, s: PM.Spaces, p: nat, n: int)
    requires p in s && Matches(w, sz, s[p := PM.Resized(s[p], n, PM.Ok)]) && PM.AllFit(s) && PM.LegalOp(PM.Sbrk(p, n)) && !TooFar(s[p].sz, n)
    ensures sz[p] == ToSize(s[p].sz, n) && (PM.Full(s[p]) ==> Spans(w, p, sz[p]))
  {
    var x := PM.Resized(s[p], n, PM.Ok);
    ResizedSize(s[p], n);
    assert sz[p] == s[p := x][p].sz;
    if PM.Full(s[p]) {
      PM.ResizedFull(s[p], n, PM.Ok);
      PM.ResizedFit(s[p], n, PM.Ok);
      MatchSpans(w, s[p := x], p);
    }
  }

  lemma ResizedSize(x: PM.Space, n: int)
    requires PM.Fit(x) && PM.LegalOp(PM.Sbrk(0, n)) && !TooFar(x.sz, n)
    ensures PM.Resized(x, n, PM.Ok).sz == ToSize(x.sz, n) && !(n < 0 && x.sz > 0 && PM.NewSize(x.sz, n) == 0)
  {
    if x.sz + n >= 0 { assert PM.NewSize(x.sz, n) == x.sz + n; } else { assert PM.NewSize(x.sz, n) == x.sz + n + 0x1_0000_0000; }
  }

  lemma MatchSpans(w: World, s: PM.Spaces, p: nat)
    requires p in s && (forall v: nat :: AgreeAt(w, s, p, v)) && PM.Full(s[p]) && PM.Fit(s[p])
    ensures Spans(w, p, s[p].sz)
  {
    forall v: nat ensures See(w, p, v).Some? <==> v * PGSIZE < s[p].sz { assert AgreeAt(w, s, p, v); }
  }

  /** What is not needed is free. */
  lemma RoomLeft(w: World, sz: map<nat, nat>, s: PM.Spaces)
    requires Sound(w, {}) && Matches(w, sz, s)
    ensures |w.mem.free| + Need(s) >= PHYS_PAGES - w.mem.lo
  {
    forall r | r in w.R ensures RefIn(s, r) {
      assert Right(w.R, w.dirs, w.stacks, {}, r);
      if r.User? {
        MappedIsHeld(w, {}, r.id, r.page);
        assert AgreeAt(w, s, r.id, r.page);
      }
    }
    RefsFit(w.R.Keys, s);
    FreeAtLeast(w.mem, w.R);
  }

  // ---------------------------------------------------------------- fork

  /** w' is w with a kernel stack for c, and nothing else that anybody sees. */
  ghost predicate Stacked(w: World, w': World, c: nat) {
    SameViews(w, w') && w'.dirs == w.dirs && c in w'.stacks && w'.stacks - {c} == w.stacks && w'.mem.lo == w.mem.lo
  }

  lemma CopiedCovered(w: World, c: nat, n: nat)
    requires Present(w, c, n)
    ensures Covered(w, c, n)
  {
    forall x: nat | x * NPT < n ensures Target(w.dirs, w.stacks, Table(c, x)).Some? {
      assert See(w, c, x * NPT).Some? && x * NPT / NPT == x;
    }
  }

  lemma ForkShape(w: World, w1: World, w2: World, sz: map<nat, nat>, s: PM.Spaces, p: nat, c: nat, end: nat)
    requires Shape(w, sz, s) && p in s && c !in s && end == Up(s[p].sz)
    requires Stacked(w, w1, c) && Copying(w1, w2, p, c, end)
    ensures Shape(w2, sz[c := sz[p]], s[c := s[p]])
  {
    forall v: nat | v < end ensures See(w2, c, v).Some? { assert CopiedAt(w1, w2, p, c, end, c, v); }
    CopiedCovered(w2, c, end);
    assert w1.stacks.Keys == w.stacks.Keys + {c};
    forall id | id in s ensures Covered(w2, id, Up(s[id].sz)) {
      forall x: nat | x * NPT < Up(s[id].sz) ensures Target(w2.dirs, w2.stacks, Table(id, x)).Some? {
        assert Target(w.dirs, w.stacks, Table(id, x)).Some?;
      }
    }
  }

  lemma ForkMatches(w: World, w1: World, w2: World, sz: map<nat, nat>, s: PM.Spaces, p: nat, c: nat, end: nat)
    requires Matches(w, sz, s) && p in s && c !in s && end == Up(s[p].sz)
    requires Stacked(w, w1, c) && Copying(w1, w2, p, c, end)
    ensures Matches(w2, sz[c := sz[p]], s[c := s[p]]) && PM.Full(s[p])
  {
    ForkShape(w, w1, w2, sz, s, p, c, end);
    var s' := s[c := s[p]];
    forall id: nat, v: nat ensures AgreeAt(w2, s', id, v) {
      assert CopiedAt(w1, w2, p, c, end, id, v) && AgreeAt(w, s, id, v) && AgreeAt(w, s, p, v);
    }
    forall v: nat | v < end ensures v in s[p].mem {
      assert See(w1, p, v).Some? && AgreeAt(w, s, p, v);
    }
  }

  /** After a failed fork everything is as it was, the free pages too. */
  lemma ForkUndone(w: World, w1: World, w2: World, w3: World, sz: map<nat, nat>, s: PM.Spaces, c: nat)
    requires Matches(w, sz, s) && Stacked(w, w1, c) && c !in s && Same(w1, w2)
    requires SameViews(w2, w3) && w3.dirs == w2.dirs && w3.stacks == w2.stacks - {c} && w3.mem.lo == w2.mem.lo
    ensures Matches(w3, sz, s) && Same(w, w3)
  {
    assert w3.stacks == w.stacks;
    forall r: Ref ensures Target(w3.dirs, w3.stacks, r) == Target(w.dirs, w.stacks, r) {
      assert Target(w2.dirs, w2.stacks, r) == Target(w1.dirs, w1.stacks, r);
    }
    SameMatches(w, w3, sz, s);
  }

  lemma SameMatches(w: World, w': World, sz: map<nat, nat>, s: PM.Spaces)
    requires Matches(w, sz, s) && Same(w, w')
    ensures Matches(w', sz, s)
  {
    forall id | id in s ensures Covered(w', id, Up(s[id].sz)) {
      forall x: nat | x * NPT < Up(s[id].sz) ensures Target(w'.dirs, w'.stacks, Table(id, x)).Some? {
        assert Target(w.dirs, w.stacks, Table(id, x)).Some?;
      }
    }
    forall id: nat, v: nat ensures AgreeAt(w', s, id, v) { assert AgreeAt(w, s, id, v); }
  }

  lemma ForkTargets(w: World, w1: World, w2: World, c: nat)
    requires Stacked(w, w1, c) && TargetsKept(w1, w2, c)
    ensures TargetsKept(w, w2, c)
  {
    forall r: Ref | r.id != c ensures Target(w2.dirs, w2.stacks, r) == Target(w.dirs, w.stacks, r) {
      assert Target(w2.dirs, w2.stacks, r) == Target(w1.dirs, w1.stacks, r);
      assert r.id in w1.stacks <==> r.id in w1.stacks - {c};
    }
  }

  /** What copying the space of p to c has come to. */
  ghost predicate CopyEnd(w: World, w': World, p: nat, c: nat, end: nat, eager: bool, r: CopyResult) {
    CopyEnds(w, p, end, eager, r) && (r == Done ==> Copying(w, w', p, c, end)) && (r == NoMemory ==> Same(w, w'))
  }

  lemma FullPresent(w: World, w1: World, sz: map<nat, nat>, s: PM.Spaces, p: nat, end: nat)
    requires Matches(w, sz, s) && SameViews(w, w1) && p in s && end == Up(s[p].sz)
    ensures PM.Full(s[p]) <==> Present(w1, p, end)
  {
    forall v: nat ensures v < end ==> (See(w1, p, v).Some? <==> v in s[p].mem) { assert AgreeAt(w, s, p, v); }
    forall v: nat ensures v < end <==> v * PGSIZE < s[p].sz { UpIs(s[p].sz, v); }
  }

  /** When fork succeeds: w1 is the memory with the child's kernel stack. */
  lemma ForkEnds(w: World, w1: World, sz: map<nat, nat>, s: PM.Spaces, p: nat, end: nat, eager: bool, r: CopyResult)
    requires Matches(w, sz, s) && SameViews(w, w1) && p in s && end == Up(s[p].sz) <= USER_PAGES && |w1.mem.free| + 1 == |w.mem.free|
    requires CopyEnds(w1, p, end, eager, r)
    ensures r == Done <==> PM.Full(s[p]) && |w.mem.free| >= 1 + CopyNeed(end, eager)
    ensures r == Panic ==> !PM.Full(s[p])
    ensures r == NoMemory ==> |w.mem.free| <= NPT + 2 + if eager then end else 0
  {
    FullPresent(w, w1, sz, s, p, end);
    if PM.Full(s[p]) { CopyDecided(w1, p, end, eager, r, if |w1.mem.free| >= CopyNeed(end, eager) then Done else NoMemory); }
    if r == NoMemory {
      var a: nat :| a <= end && Present(w1, p, a) && |w1.mem.free| < CopyNeed(a, eager);
      CopyNeedBound(a, eager);
    }
  }

  // --------------------------------------------- steps inside one process

  /** Only id's tables have changed, and none was lost. */
  ghost predicate Within(w: World, w': World, id: nat) {
    OnlySpace(w, w', id) && id in w.dirs && id in w'.dirs && TabsKept(w.dirs[id], w'.dirs[id])
  }

  lemma WithinShape(w: World, w': World, sz: map<nat, nat>, s: PM.Spaces, id: nat, x: PM.Space)
    requires Shape(w, sz, s) && id in s && Within(w, w', id) && Covered(w', id, Up(x.sz))
    ensures Shape(w', sz[id := x.sz], s[id := x])
  {
    forall i | i in s && i != id ensures Covered(w', i, Up(s[i].sz)) {
      forall y: nat | y * NPT < Up(s[i].sz) ensures Target(w'.dirs, w'.stacks, Table(i, y)).Some? {
        assert Target(w.dirs, w.stacks, Table(i, y)).Some?;
      }
    }
  }

  lemma WithinCovered(w: World, w': World, id: nat, n: nat, m: nat)
    requires Within(w, w', id) && Covered(w, id, n) && m <= n
    ensures Covered(w', id, m)
  {
    forall y: nat | y * NPT < m ensures Target(w'.dirs, w'.stacks, Table(id, y)).Some? {
      assert Target(w.dirs, w.stacks, Table(id, y)).Some?;
    }
  }

  lemma GrowCovered(w: World, w': World, id: nat, start: nat, end: nat)
    requires Grown(w, w', id, start, end) && Covered(w, id, start) && start <= end
    ensures Covered(w', id, end)
  {
    WithinCovered(w, w', id, start, start);
    forall x: nat | x * NPT < end && start <= x * NPT ensures Target(w'.dirs, w'.stacks, Table(id, x)).Some? {
      assert GrownAt(w, w', id, start, end, id, x * NPT) && x * NPT / NPT == x;
    }
  }

  lemma GrowAgrees(w: World, w': World, s: PM.Spaces, s': PM.Spaces, id: nat, start: nat, end: nat, i: nat, v: nat)
    requires id in w.dirs && id in w'.dirs && GrownAt(w, w', id, start, end, i, v) && AgreeAt(w, s, i, v)
    requires id in s && id in s' && s'[id].mem == s[id].mem + PM.Zeros(start, end)
    requires i != id ==> (i in s' <==> i in s) && (i in s ==> s'[i] == s[i])
    ensures AgreeAt(w', s', i, v)
  {
  }

  lemma GrowMatches(w: World, w': World, sz: map<nat, nat>, s: PM.Spaces, id: nat, start: nat, end: nat, x: PM.Space)
    requires Matches(w, sz, s) && id in s && start == Up(s[id].sz) && end == Up(x.sz) && start <= end
    requires Grown(w, w', id, start, end) && x.mem == s[id].mem + PM.Zeros(start, end) && PM.Fit(x)
    ensures Matches(w', sz[id := x.sz], s[id := x])
  {
    GrowCovered(w, w', id, start, end);
    WithinShape(w, w', sz, s, id, x);
    var s' := s[id := x];
    forall i: nat, v: nat ensures AgreeAt(w', s', i, v) {
      assert GrownAt(w, w', id, start, end, i, v) && AgreeAt(w, s, i, v);
      GrowAgrees(w, w', s, s', id, start, end, i, v);
    }
  }

  lemma PaddedMatches(w: World, w': World, sz: map<nat, nat>, s: PM.Spaces, id: nat)
    requires Matches(w, sz, s) && id in s && Padded(w, w', id)
    ensures Matches(w', sz, s)
  {
    WithinCovered(w, w', id, Up(s[id].sz), Up(s[id].sz));
    WithinShape(w, w', sz, s, id, s[id]);
    assert s[id := s[id]] == s && sz[id := s[id].sz] == sz;
    forall i: nat, v: nat ensures AgreeAt(w', s, i, v) { assert AgreeAt(w, s, i, v); }
  }

  /** A process has the tables below its size, so deallocuvm steps over no page of it. */
  lemma NoneMissed(w: World, id: nat, start: nat, end: nat, v: nat)
    requires id in w.dirs && Covered(w, id, end) && start <= v < end
    ensures !Missed(w.dirs[id], start, v)
  {
    assert start / NPT * NPT <= start;
    assert Target(w.dirs, w.stacks, Table(id, start / NPT)).Some?;
  }

  lemma ShrinkAgrees(w: World, w': World, s: PM.Spaces, s': PM.Spaces, id: nat, start: nat, end: nat, i: nat, v: nat)
    requires id in w.dirs && id in w'.dirs && GoneAt(w, w', id, start, end, i, v) && AgreeAt(w, s, i, v)
    requires id in s && id in s' && s'[id].mem == PM.Cut(s[id].mem, start) && PM.Fit(s[id]) && end == Up(s[id].sz)
    requires i != id ==> (i in s' <==> i in s) && (i in s ==> s'[i] == s[i])
    requires i == id && start <= v < end ==> !Missed(w.dirs[id], start, v)
    ensures AgreeAt(w', s', i, v)
  {
  }

  lemma ShrinkMatches(w: World, w': World, sz: map<nat, nat>, s: PM.Spaces, id: nat, start: nat, end: nat, x: PM.Space)
    requires Matches(w, sz, s) && id in s && end == Up(s[id].sz) && start <= end && Up(x.sz) <= end
    requires Within(w, w', id) && Removed(w, w', id, start, end) && x.mem == PM.Cut(s[id].mem, start) && PM.Fit(x)
    ensures Matches(w', sz[id := x.sz], s[id := x])
  {
    WithinCovered(w, w', id, end, Up(x.sz));
    WithinShape(w, w', sz, s, id, x);
    var s' := s[id := x];
    forall i: nat, v: nat ensures AgreeAt(w', s', i, v) {
      assert GoneAt(w, w', id, start, end, i, v) && AgreeAt(w, s, i, v);
      if i == id && start <= v < end { NoneMissed(w, id, start, end, v); }
      ShrinkAgrees(w, w', s, s', id, start, end, i, v);
    }
  }

  lemma StoreMatches(w: World, w': World, sz: map<nat, nat>, s: PM.Spaces, id: nat, va: nat, b: byte)
    requires Matches(w, sz, s) && id in s && Within(w, w', id) && Stored(w, w', id, va / PGSIZE, va % PGSIZE, b)
    ensures Matches(w', sz, s[id := PM.Put(s[id], va, b)])
  {
    var v0, x := va / PGSIZE, PM.Put(s[id], va, b);
    assert AgreeAt(w, s, id, v0);
    assert v0 in s[id].mem && s[id].mem[v0].u && x.sz == s[id].sz && sz[id := x.sz] == sz;
    WithinCovered(w, w', id, Up(x.sz), Up(x.sz));
    WithinShape(w, w', sz, s, id, x);
    var s' := s[id := x];
    forall i: nat, v: nat ensures AgreeAt(w', s', i, v) { assert AgreeAt(w, s, i, v); }
  }

  /** Just when growproc fails: too large, too little memory, or size 0. */
  ghost predicate Refuses(w: World, p: nat, sz: nat, n: int) {
    TooFar(sz, n) || (n > 0 && p in w.dirs && Up(sz) <= Up(PM.NewSize(sz, n)) && |w.mem.free| < GrowNeed(w, p, Up(sz), Up(PM.NewSize(sz, n))))
  }

  lemma RefusesFails(w: World, p: nat, sz: nat, n: int)
    requires p in w.dirs && Refuses(w, p, sz, n)
    ensures GrowFails(|w.mem.free|, sz, n)
  {
    var newsz := PM.NewSize(sz, n);
    if !TooFar(sz, n) { GrowNeedBound(w, p, Up(sz), Up(newsz)); }
  }

  /** Why growproc fails, with `free` pages left. */
  ghost predicate GrowFails(free: nat, sz: nat, n: int) {
    var newsz := PM.NewSize(sz, n);
    if n > 0 then newsz >= PM.LIMIT || free <= NPT + (Up(newsz) - Up(sz)) else n < 0 && (newsz == 0 || sz == 0)
  }

  lemma NoWrap(x: PM.Space, n: int, newsz: nat)
    requires PM.Fit(x) && PM.LegalOp(PM.Sbrk(0, n)) && n > 0 && newsz == PM.NewSize(x.sz, n)
    ensures x.sz < newsz && Up(x.sz) <= Up(newsz)
  {
    PM.UpMonotone(x.sz, newsz);
  }

  lemma ResizedFits(x: PM.Space, n: int, newsz: nat)
    requires PM.Fit(x) && PM.LegalOp(PM.Sbrk(0, n)) && newsz == PM.NewSize(x.sz, n)
    ensures PM.Fit(PM.Resized(x, n, PM.Ok))
  {
    if x.sz <= newsz { PM.UpMonotone(x.sz, newsz); }
  }

  // ---------------------------------------------------------------- reap

  lemma ReapTargets(w: World, w1: World, w2: World, id: nat)
    requires w1.dirs == w.dirs && w1.stacks == w.stacks - {id} && Freed(w1, w2, id)
    ensures TargetsKept(w, w2, id)
  {
  }

  lemma ReapMatches(w: World, w1: World, w2: World, sz: map<nat, nat>, s: PM.Spaces, id: nat)
    requires Matches(w, sz, s) && id in s
    requires SameViews(w, w1) && w1.dirs == w.dirs && w1.stacks == w.stacks - {id} && Freed(w1, w2, id)
    ensures Matches(w2, sz - {id}, s - {id})
  {
    forall i | i in s && i != id ensures Covered(w2, i, Up(s[i].sz)) {
      forall y: nat | y * NPT < Up(s[i].sz) ensures Target(w2.dirs, w2.stacks, Table(i, y)).Some? {
        assert Target(w.dirs, w.stacks, Table(i, y)).Some?;
      }
    }
    var s' := s - {id};
    forall i: nat, v: nat ensures AgreeAt(w2, s', i, v) { assert AgreeAt(w, s, i, v); }
  }

  /** Pages at and above the size are not mapped. */
  lemma NoneAbove(w: World, sz: map<nat, nat>, s: PM.Spaces, id: nat)
    requires Sound(w, {}) && Matches(w, sz, s) && id in s
    ensures id in w.dirs && NoneMapped(w.dirs[id], Up(s[id].sz), USER_PAGES)
  {
    forall v: nat | Up(s[id].sz) <= v < USER_PAGES ensures Lookup(w.dirs[id], v) == None {
      assert AgreeAt(w, s, id, v);
      SeenIsMapped(w, {}, id, v);
    }
  }

  /** id is the only process, and it has no pages. */
  ghost predicate Begun(w: World, id: nat) {
    w.dirs.Keys == {id} && w.stacks.Keys == {id} && forall i: nat, v: nat :: See(w, i, v) == None
  }

  lemma FirstSpace(w: World, w0: World, w1: World, id: nat)
    requires Matches(w, map[], map[]) && Stacked(w, w0, id) && OnlySpace(w0, w1, id) && SameViews(w0, w1) && id in w1.dirs
    ensures Begun(w1, id)
  {
    forall i: nat ensures i in w0.stacks <==> i == id {
      assert i in w0.stacks - {id} <==> i in w.stacks;
    }
    forall i: nat, v: nat ensures See(w1, i, v) == None { assert AgreeAt(w, map[], i, v); }
  }

  lemma FirstProcess(w: World, w': World, id: nat, code: Page)
    requires Begun(w, id) && OnlySpace(w, w', id) && id in w'.dirs
    requires SameViewsBut(w, w', id, 0) && See(w', id, 0) == Some(Seen(code, true))
    ensures Matches(w', map[id := PGSIZE], map[id := PM.Space(PGSIZE, map[0 := Seen(code, true)])])
  {
    var s := map[id := PM.Space(PGSIZE, map[0 := Seen(code, true)])];
    assert Up(PGSIZE) == 1;
    assert Target(w'.dirs, w'.stacks, Table(id, 0)).Some?;
    forall i: nat, v: nat ensures AgreeAt(w', s, i, v) { }
  }

  /** A fork that stops with a panic: a page below the parent's size is missing. */
  ghost predicate PanicsAt(s: PM.Spaces, op: PM.Op) {
    op.Fork? && PM.Callable(s, op) && !PM.Full(s[op.p])
  }

  /** All calls of the run are made by p, and none is fork or the reaping of p. */
  ghost predicate OnlyBy(ops: seq<PM.Op>, p: nat) {
    forall i :: 0 <= i < |ops| ==> ops[i].p == p && !ops[i].Fork? && !ops[i].Reap?
  }

  lemma OnlyByNext(ops: seq<PM.Op>, i: nat, w: World, w1: World, w2: World)
    requires i < |ops| && forall p: nat :: OnlyBy(ops, p) ==> OnlySpace(w, w1, p)
    requires !ops[i].Fork? && !ops[i].Reap? ==> OnlySpace(w1, w2, ops[i].p)
    ensures forall p: nat :: OnlyBy(ops, p) ==> OnlySpace(w, w2, p)
  {
    forall p: nat | OnlyBy(ops, p) ensures OnlySpace(w, w2, p) {
      assert ops[i].p == p;
      OnlySpaceTrans(w, w1, w2, p);
    }
  }

  lemma ChildRun(s: PM.Spaces, s1: PM.Spaces, s2: PM.Spaces, ops: seq<PM.Op>, rs: seq<PM.Outcome>, p: nat, c: nat)
    requires p in s && c !in s && s1 == s[c := s[p]] && OnlyBy(ops, c) && |rs| <= |ops| && s2 == PM.Run(s1, ops, rs)
    ensures c in s2 && s2 - {c} == s
  {
    PM.RunOnly(s1, ops, rs, c);
    assert s1 - {c} == s;
  }

  lemma FullNoPanic(s: PM.Spaces, ops: seq<PM.Op>, rs: seq<PM.Outcome>)
    requires |rs| < |ops| && (forall i :: 0 <= i < |ops| ==> PM.LegalOp(ops[i])) && PM.AllFit(s)
    requires PanicsAt(PM.Run(s, ops, rs), ops[|rs|])
    ensures !(PM.AllFull(s) && PM.NeverEmpties(s, ops, rs))
  {
    if PM.AllFull(s) && PM.NeverEmpties(s, ops, rs) { PM.RunFull(s, ops, rs); }
  }

  class Procs {
    const vm: Vm
    const data: nat           // the page of the kernel's data segment
    var sz: map<nat, nat>

    /** Every process sees its part of s. */
    ghost predicate Good(s: PM.Spaces)
      reads this, vm, vm.k, vm.k.next, vm.k.refcount, vm.k.page
    {
      vm.Inv({}) && LINK_PAGE < data < TOP_PAGE && Matches(vm.W(), sz, s)
    }

    /** No process yet. */
    constructor (v: Vm, dataPage: nat)
      requires v.Inv({}) && v.dirs == map[] && v.stacks == map[] && LINK_PAGE < dataPage < TOP_PAGE
      ensures Good(map[]) && vm == v && data == dataPage && sz == map[]
    {
      vm, data, sz := v, dataPage, map[];
    }

    /** userinit: the first process, with one page of code. False: out of memory, where
        the code panics. */
    method Userinit(id: nat, code: Page) returns (ok: bool)
      requires Good(map[])
      modifies this`sz, vm, vm.k, vm.k.next, vm.k.refcount, vm.k.page
      ensures ok ==> Good(map[id := PM.Space(PGSIZE, map[0 := Seen(code, true)])])
      ensures ok <==> old(vm.k.numFreePages) >= 68
    {
      ok := Begin(id);
      if ok { ok := Load(id, code); }
    }

    /** Its page of code. */
    method Load(id: nat, code: Page) returns (ok: bool)
      requires vm.Inv({}) && Begun(vm.W(), id) && KernelOnly(vm.dirs[id], data) && LINK_PAGE < data < TOP_PAGE
      modifies this`sz, vm`dirs, vm`R, vm.k, vm.k.refcount, vm.k.page
      ensures ok ==> Good(map[id := PM.Space(PGSIZE, map[0 := Seen(code, true)])])
      ensures ok <==> |old(vm.W()).mem.free| >= 1 + Missing(old(vm.W()), id, {0})
    {
      ghost var w := vm.W();
      ok := vm.Inituvm(id, code);
      if !ok { return; }
      FirstProcess(w, vm.W(), id, code);
      sz := map[id := PGSIZE];
    }

    /** The kernel stack and the page directory of the first process. */
    method Begin(id: nat) returns (ok: bool)
      requires Good(map[])
      modifies vm, vm.k, vm.k.next, vm.k.refcount, vm.k.page
      ensures ok ==> vm.Inv({}) && Begun(vm.W(), id) && KernelOnly(vm.dirs[id], data)
      ensures ok <==> old(vm.k.numFreePages) >= 66
      ensures ok ==> old(vm.k.numFreePages) == |vm.W().mem.free| + 66 && Missing(vm.W(), id, {0}) == 1
    {
      ghost var w := vm.W();
      ok := vm.AllocStack(id);
      if !ok { return; }
      ghost var w0 := vm.W();
      ok := vm.Setupkvm(id, data);
      if ok {
        FirstSpace(w, w0, vm.W(), id);
        KernelCost(w0, vm.W(), id);
      }
    }

    /** fork, with copyuvm or, if eager, with copyuvm_original. */
    method Fork(p: nat, c: nat, eager: bool, ghost s: PM.Spaces) returns (r: PM.Outcome)
      requires Good(s) && p in sz && c !in sz
      modifies this`sz, vm, vm.k, vm.k.next, vm.k.refcount, vm.k.page
      ensures r == PM.Ok ==> Good(s[c := s[p]]) && PM.Full(s[p])
      ensures r == PM.Failed ==> Good(s) && vm.k.numFreePages == old(vm.k.numFreePages)
      ensures r == PM.Ok <==> PM.Full(s[p]) && old(vm.k.numFreePages) >= 1 + CopyNeed(Up(s[p].sz), eager)
      ensures r == PM.Failed ==> old(vm.k.numFreePages) <= NPT + 2 + if eager then Up(s[p].sz) else 0
      ensures r == PM.Panicked ==> !PM.Full(s[p])
      ensures r != PM.Panicked ==> vm.W().mem.lo == old(vm.W()).mem.lo && TargetsKept(old(vm.W()), vm.W(), c)
    {
      ghost var w := vm.W();
      var ok := vm.AllocStack(c);
      if !ok { return PM.Failed; }
      r := ForkSpace(p, c, eager, w, s);
    }

    /** fork from copyuvm on. */
    method ForkSpace(p: nat, c: nat, eager: bool, ghost w: World, ghost s: PM.Spaces) returns (r: PM.Outcome)
      requires vm.Inv({}) && LINK_PAGE < data < TOP_PAGE && Sound(w, {}) && Matches(w, sz, s) && p in sz && c !in sz
      requires Stacked(w, vm.W(), c) && |vm.W().mem.free| + 1 == |w.mem.free|
      modifies this`sz, vm, vm.k, vm.k.next, vm.k.refcount, vm.k.page
      ensures r == PM.Ok ==> Good(s[c := s[p]])
      ensures r == PM.Failed ==> Good(s) && vm.k.numFreePages == |w.mem.free|
      ensures r == PM.Ok <==> PM.Full(s[p]) && |w.mem.free| >= 1 + CopyNeed(Up(s[p].sz), eager)
      ensures r == PM.Failed ==> |w.mem.free| <= NPT + 2 + if eager then Up(s[p].sz) else 0
      ensures r == PM.Panicked ==> !PM.Full(s[p])
      ensures r != PM.Panicked ==> vm.W().mem.lo == w.mem.lo && TargetsKept(w, vm.W(), c)
    {
      ghost var w1 := vm.W();
      var end := Up(sz[p]);
      var copied := CopySpace(p, c, end, eager);
      ghost var w2 := vm.W();
      ForkEnds(w, w1, sz, s, p, end, eager, copied);
      match copied
      case Done =>
        ForkMatches(w, w1, w2, sz, s, p, c, end);
        ForkTargets(w, w1, w2, c);
        sz := sz[c := sz[p]];
        r := PM.Ok;
      case NoMemory =>
        DropChild(c, w, w1, s);
        r := PM.Failed;
      case Panic =>
        r := PM.Panicked;
    }

    /** The call of copyuvm or copyuvm_original. */
    method CopySpace(p: nat, c: nat, end: nat, eager: bool) returns (copied: CopyResult)
      requires vm.Inv({}) && p in vm.dirs && c !in vm.dirs && end <= USER_PAGES && LINK_PAGE < data < TOP_PAGE
      modifies vm`dirs, vm`R, vm.k, vm.k.next, vm.k.refcount, vm.k.page
      ensures vm.Inv({}) && CopyEnd(old(vm.W()), vm.W(), p, c, end, eager, copied)
    {
      if eager {
        copied := vm.CopyuvmOriginal(p, c, end, data);
      } else {
        copied := vm.Copyuvm(p, c, end, data);
      }
    }

    /** fork's way out when there is no memory for the child. */
    method DropChild(c: nat, ghost w: World, ghost w1: World, ghost s: PM.Spaces)
      requires vm.Inv({}) && c !in s && c in vm.stacks && Sound(w, {}) && Matches(w, sz, s)
      requires Stacked(w, w1, c) && Same(w1, vm.W())
      modifies vm`stacks, vm`R, vm.k, vm.k.next, vm.k.refcount, vm.k.page
      ensures vm.Inv({}) && Matches(vm.W(), sz, s) && Same(w, vm.W()) && vm.k.numFreePages == |w.mem.free|
    {
      ghost var w2 := vm.W();
      vm.FreeStack(c);
      ForkUndone(w, w1, w2, vm.W(), sz, s, c);
      SameFree(w, vm.W(), c);
    }

    /** growproc. Failed: too large, no memory, or a shrink that leaves size 0. */
    method Growproc(p: nat, n: int, ghost s: PM.Spaces) returns (r: PM.Outcome)
      requires Good(s) && p in sz && PM.LegalOp(PM.Sbrk(p, n))
      modifies this`sz, vm`dirs, vm`R, vm.k, vm.k.next, vm.k.refcount, vm.k.page
      ensures Good(s[p := PM.Resized(s[p], n, r)]) && OnlySpace(old(vm.W()), vm.W(), p)
      ensures r == PM.Failed <==> Refuses(old(vm.W()), p, s[p].sz, n)
      ensures r == PM.Failed ==> GrowFails(|old(vm.W()).mem.free|, s[p].sz, n)
      ensures r != PM.Panicked
      ensures r == PM.Ok ==> sz[p] == ToSize(s[p].sz, n) && (PM.Full(s[p]) ==> Spans(vm.W(), p, sz[p]))
    {
      if n > 0 {
        r := GrowSpace(p, n, s, PM.NewSize(sz[p], n));
      } else if n < 0 {
        r := ShrinkSpace(p, n, s, PM.NewSize(sz[p], n));
      } else {
        r := PM.Ok;
        assert s[p := s[p]] == s;
      }
      if r == PM.Ok { ResizedSpans(vm.W(), sz, s, p, n); } else { RefusesFails(old(vm.W()), p, s[p].sz, n); }
    }

    method GrowSpace(p: nat, n: int, ghost s: PM.Spaces, newsz: nat) returns (r: PM.Outcome)
      requires Good(s) && p in sz && PM.LegalOp(PM.Sbrk(p, n)) && n > 0 && newsz == PM.NewSize(s[p].sz, n)
      modifies this`sz, vm`dirs, vm`R, vm.k, vm.k.next, vm.k.refcount, vm.k.page
      ensures Good(s[p := PM.Resized(s[p], n, r)]) && OnlySpace(old(vm.W()), vm.W(), p)
      ensures r == PM.Failed <==> Refuses(old(vm.W()), p, s[p].sz, n)
      ensures r != PM.Panicked
    {
      ghost var w, x, start, end := vm.W(), s[p], Up(s[p].sz), Up(newsz);
      NoneAbove(w, sz, s, p);
      NoWrap(x, n, newsz);
      var ok, size := vm.Allocuvm(p, sz[p], newsz);
      if size == 0 {
        PaddedMatches(w, vm.W(), sz, s, p);
        assert s[p := s[p]] == s;
        return PM.Failed;
      }
      ResizedFits(x, n, newsz);
      GrowMatches(w, vm.W(), sz, s, p, start, end, PM.Resized(x, n, PM.Ok));
      sz := sz[p := size];
      return PM.Ok;
    }

    method ShrinkSpace(p: nat, n: int, ghost s: PM.Spaces, newsz: nat) returns (r: PM.Outcome)
      requires Good(s) && p in sz && PM.LegalOp(PM.Sbrk(p, n)) && n < 0 && newsz == PM.NewSize(s[p].sz, n)
      modifies this`sz, vm`dirs, vm`R, vm.k, vm.k.next, vm.k.refcount, vm.k.page
      ensures Good(s[p := PM.Resized(s[p], n, r)]) && OnlySpace(old(vm.W()), vm.W(), p)
      ensures r == PM.Failed <==> Refuses(old(vm.W()), p, s[p].sz, n)
      ensures r != PM.Panicked
    {
      ghost var w, x, start, end := vm.W(), s[p], Up(newsz), Up(s[p].sz);
      var size := vm.Deallocuvm(p, sz[p], newsz, {});
      if newsz >= sz[p] {
        assert s[p := s[p]] == s && sz[p := size] == sz;
        return if size == 0 then PM.Failed else PM.Ok;
      }
      PM.UpMonotone(newsz, x.sz);
      ResizedFits(x, n, newsz);
      ghost var x' := PM.Resized(x, n, PM.Ok);
      ShrinkMatches(w, vm.W(), sz, s, p, start, end, x');
      if size == 0 {
        assert sz[p := x'.sz] == sz;
        return PM.Failed;
      }
      sz := sz[p := size];
      return PM.Ok;
    }

    /** A store by user code. Failed: the process is killed. */
    method Store(p: nat, va: nat, b: byte, ghost s: PM.Spaces) returns (r: PM.Outcome)
      requires Good(s) && p in sz
      modifies vm`dirs, vm`R, vm.k, vm.k.refcount, vm.k.page
      ensures r == PM.Ok ==> Good(s[p := PM.Put(s[p], va, b)]) && OnlySpace(old(vm.W()), vm.W(), p)
      ensures r == PM.Ok ==> va / PGSIZE in s[p].mem && s[p].mem[va / PGSIZE].u
      ensures r == PM.Failed ==> Good(s) && vm.W() == old(vm.W())
      ensures r == PM.Failed && va / PGSIZE in s[p].mem && s[p].mem[va / PGSIZE].u ==> vm.k.numFreePages == 0
      ensures r == PM.Ok <==> StoreGoes(old(vm.W()), p, va / PGSIZE)
      ensures r != PM.Panicked
    {
      ghost var w := vm.W();
      assert AgreeAt(w, s, p, va / PGSIZE);
      var ok := vm.UserWrite(p, va, b);
      if !ok { return PM.Failed; }
      StoreMatches(w, vm.W(), sz, s, p, va, b);
      return PM.Ok;
    }

    /** What wait does for a zombie: kfree of the kernel stack, freevm. */
    method Reap(p: nat, ghost s: PM.Spaces)
      requires Good(s) && p in sz
      modifies this`sz, vm, vm.k, vm.k.next, vm.k.refcount, vm.k.page
      ensures Good(s - {p}) && vm.W().mem.lo == old(vm.W()).mem.lo && TargetsKept(old(vm.W()), vm.W(), p)
    {
      ghost var w := vm.W();
      vm.FreeStack(p);
      ghost var w1 := vm.W();
      vm.Freevm(p, {});
      ReapMatches(w, w1, vm.W(), sz, s, p);
      ReapTargets(w, w1, vm.W(), p);
      sz := sz - {p};
    }

    /** One call. */
    method Do(op: PM.Op, eager: bool, ghost s: PM.Spaces) returns (r: PM.Outcome)
      requires Good(s) && PM.LegalOp(op)
      modifies this`sz, vm, vm.k, vm.k.next, vm.k.refcount, vm.k.page
      ensures r != PM.Panicked ==> Good(PM.Step(s, op, r))
      ensures r == PM.Panicked ==> PanicsAt(s, op)
      ensures !op.Fork? && !op.Reap? ==> OnlySpace(old(vm.W()), vm.W(), op.p)
      ensures r != PM.Panicked ==> vm.W().mem.lo == old(vm.W()).mem.lo
      ensures Met(s, op, PHYS_PAGES - old(vm.W()).mem.lo, r)
    {
      RoomLeft(vm.W(), sz, s);
      if op.p !in sz || (op.Fork? && op.c in sz) {
        return PM.Failed;
      }
      match op
      case Fork(p, c) => r := Fork(p, c, eager, s);
      case Sbrk(p, n) => r := Growproc(p, n, s);
      case Store(p, va, b) => r := Store(p, va, b, s);
      case Reap(p) =>
        Reap(p, s);
        r := PM.Ok;
    }

    /** A whole run, up to a panic. Every process sees its private memory all the way,
        and a panic needs an earlier sbrk down to size 0. */
    method Execute(ops: seq<PM.Op>, eager: bool, ghost s: PM.Spaces) returns (rs: seq<PM.Outcome>, panicked: bool)
      requires Good(s) && forall i :: 0 <= i < |ops| ==> PM.LegalOp(ops[i])
      modifies this`sz, vm, vm.k, vm.k.next, vm.k.refcount, vm.k.page
      ensures |rs| <= |ops| && (panicked <==> |rs| < |ops|)
      ensures !panicked ==> Good(PM.Run(s, ops, rs))
      ensures panicked ==> PanicsAt(PM.Run(s, ops, rs), ops[|rs|])
      ensures PM.AllFull(s) && PM.NeverEmpties(s, ops, rs) ==> !panicked
      ensures forall p: nat :: OnlyBy(ops, p) ==> OnlySpace(old(vm.W()), vm.W(), p)
      ensures Foreseen(s, ops, PHYS_PAGES - old(vm.W()).mem.lo, rs, |ops|)
    {
      rs := [];
      ghost var w := vm.W();
      ghost var total := PHYS_PAGES - w.mem.lo;
      while |rs| < |ops|
        invariant |rs| <= |ops| && Good(PM.Run(s, ops, rs)) && vm.W().mem.lo == w.mem.lo
        invariant Foreseen(s, ops, total, rs, |rs|)
        invariant forall p: nat :: OnlyBy(ops, p) ==> OnlySpace(w, vm.W(), p)
        decreases |ops| - |rs|
      {
        ghost var before, w1 := PM.Run(s, ops, rs), vm.W();
        var r := Do(ops[|rs|], eager, before);
        OnlyByNext(ops, |rs|, w, w1, vm.W());
        ForeseenNext(s, ops, total, rs, r);
        if r == PM.Panicked {
          FullNoPanic(s, ops, rs);
          return rs, true;
        }
        PM.RunNext(s, ops, rs, r);
        rs := rs + [r];
      }
      return rs, false;
    }

    /** fork, any calls of the child alone, then its reaping: the parent's memory and the
        number of free pages are as before, whatever failed on the way. */
    method ForkRunReap(p: nat, c: nat, ops: seq<PM.Op>, ghost s: PM.Spaces) returns (panicked: bool)
      requires Good(s) && p in sz && c !in sz && OnlyBy(ops, c)
      requires forall i :: 0 <= i < |ops| ==> PM.LegalOp(ops[i])
      modifies this`sz, vm, vm.k, vm.k.next, vm.k.refcount, vm.k.page
      ensures !panicked ==> Good(s) && vm.k.numFreePages == old(vm.k.numFreePages)
      ensures panicked ==> !PM.Full(s[p])
    {
      ghost var w, s1 := vm.W(), s[c := s[p]];
      var r := Fork(p, c, false, s);
      if r != PM.Ok { return r == PM.Panicked; }
      RunReap(p, c, ops, s, s1);
      SameFree(w, vm.W(), c);
      return false;
    }

    /** The child's calls and its reaping. */
    method RunReap(p: nat, c: nat, ops: seq<PM.Op>, ghost s: PM.Spaces, ghost s1: PM.Spaces)
      requires Good(s1) && p in s && c !in s && s1 == s[c := s[p]] && OnlyBy(ops, c)
      requires forall i :: 0 <= i < |ops| ==> PM.LegalOp(ops[i])
      modifies this`sz, vm, vm.k, vm.k.next, vm.k.refcount, vm.k.page
      ensures Good(s) && vm.W().mem.lo == old(vm.W()).mem.lo && TargetsKept(old(vm.W()), vm.W(), c)
    {
      ghost var w1 := vm.W();
      var rs, stop := Execute(ops, false, s1);
      OnlySpaceTargets(w1, vm.W(), c);
      ghost var s2 := PM.Run(s1, ops, rs);
      ChildRun(s, s1, s2, ops, rs, p, c);
      Reap(c, s2);
    }
  }

  /** The same run with copy-on-write and with eager copies: where the outcomes are the
      same, so is every byte that any process sees, and with enough memory for what the
      processes can need they are the same. */
  method RunBoth(cow: Procs, eager: Procs, ops: seq<PM.Op>, ghost s: PM.Spaces)
    returns (rs: seq<PM.Outcome>, rs': seq<PM.Outcome>)
    requires cow.Good(s) && eager.Good(s) && forall i :: 0 <= i < |ops| ==> PM.LegalOp(ops[i])
    requires {cow, cow.vm, cow.vm.k, cow.vm.k.next, cow.vm.k.refcount, cow.vm.k.page}
             !! {eager, eager.vm, eager.vm.k, eager.vm.k.next, eager.vm.k.refcount, eager.vm.k.page}
    modifies cow, cow.vm, cow.vm.k, cow.vm.k.next, cow.vm.k.refcount, cow.vm.k.page
    modifies eager, eager.vm, eager.vm.k, eager.vm.k.next, eager.vm.k.refcount, eager.vm.k.page
    ensures |rs| <= |ops| && |rs'| <= |ops|
    ensures rs == rs' && |rs| == |ops| ==> SameViews(cow.vm.W(), eager.vm.W())
    ensures Enough(s, ops, PHYS_PAGES - old(cow.vm.W()).mem.lo) && Enough(s, ops, PHYS_PAGES - old(eager.vm.W()).mem.lo) ==> rs == rs'
    ensures PM.AllFull(s) && PM.NeverEmpties(s, ops, rs) ==> |rs| == |ops|
  {
    var panicked, panicked';
    rs, panicked := cow.Execute(ops, false, s);
    rs', panicked' := eager.Execute(ops, true, s);
    if rs == rs' && |rs| == |ops| {
      forall id: nat, v: nat ensures See(eager.vm.W(), id, v) == See(cow.vm.W(), id, v) {
        assert AgreeAt(cow.vm.W(), PM.Run(s, ops, rs), id, v) && AgreeAt(eager.vm.W(), PM.Run(s, ops, rs), id, v);
      }
    }
  }
}
