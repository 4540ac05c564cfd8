/** How much memory the processes can need at most, and what every call comes to when there
    is that much. */
module MemoryNeed {
  import opened Options
  import opened Frames
  import opened Paging
  import opened AddressSpace
  import PM = PrivateMemory
  import Sets

  /** For each process its pages, a stack, a directory and all tables. */
  ghost function Need(s: PM.Spaces): nat
    decreases |s|
  {
    if s == map[] then 0
    else var id :| id in s; NPT + 2 + |s[id].mem| + Need(s - {id})
  }

  /** r belongs to one of the processes. */
  ghost predicate RefIn(s: PM.Spaces, r: Ref) {
    r.id in s && (r.User? ==> r.page in s[r.id].mem) && (r.Table? ==> r.slot < NPT)
  }

  ghost function Users(id: nat, pages: set<nat>): set<Ref> {
    set v | v in pages :: User(id, v)
  }

  ghost function Tables(id: nat, slots: set<nat>): set<Ref> {
    set x | x in slots :: Table(id, x)
  }

  lemma {:induction false} UsersSize(id: nat, pages: set<nat>)
    ensures |Users(id, pages)| <= |pages|
  {
    if pages != {} {
      var v :| v in pages;
      UsersSize(id, pages - {v});
      assert Users(id, pages) == Users(id, pages - {v}) + {User(id, v)};
    }
  }

  lemma {:induction false} TablesSize(id: nat, slots: set<nat>)
    ensures |Tables(id, slots)| <= |slots|
  {
    if slots != {} {
      var v :| v in slots;
      TablesSize(id, slots - {v});
      assert Tables(id, slots) == Tables(id, slots - {v}) + {Table(id, v)};
    }
  }

  lemma OwnIn(r: Ref, pages: set<nat>, slots: set<nat>, id: nat)
    requires r.id == id && (r.User? ==> r.page in pages) && (r.Table? ==> r.slot in slots)
    ensures r in Users(id, pages) + Tables(id, slots) + {Root(id), Stack(id)}
  {
  }

  lemma OwnFit(own: set<Ref>, pages: set<nat>, slots: set<nat>, id: nat)
    requires forall r :: r in own ==> r in Users(id, pages) + Tables(id, slots) + {Root(id), Stack(id)}
    ensures |own| <= |slots| + 2 + |pages|
  {
    UsersSize(id, pages);
    TablesSize(id, slots);
    ThreeParts(own, Users(id, pages), Tables(id, slots), {Root(id), Stack(id)});
  }

  lemma ThreeParts(own: set<Ref>, a: set<Ref>, b: set<Ref>, c: set<Ref>)
    requires own <= a + b + c
    ensures |own| <= |a| + |b| + |c|
  {
    Sets.SubsetSize(own, a + b + c);
  }

  lemma OwnOf(own: set<Ref>, s: PM.Spaces, id: nat, n: nat)
    requires id in s && n == NPT && forall r :: r in own ==> RefIn(s, r) && r.id == id
    ensures |own| <= n + 2 + |s[id].mem|
  {
    forall r | r in own ensures r in Users(id, s[id].mem.Keys) + Tables(id, Sets.Below(n)) + {Root(id), Stack(id)} {
      OwnIn(r, s[id].mem.Keys, Sets.Below(n), id);
    }
    OwnFit(own, s[id].mem.Keys, Sets.Below(n), id);
  }

  lemma {:induction false} RefsFit(keys: set<Ref>, s: PM.Spaces)
    requires forall r :: r in keys ==> RefIn(s, r)
    ensures |keys| <= Need(s)
    decreases |s|
  {
    if s == map[] {
      forall r ensures r !in keys { assert !RefIn(s, r); }
      assert keys == {};
    } else {
      var id :| id in s && Need(s) == NPT + 2 + |s[id].mem| + Need(s - {id});
      var own := set r | r in keys && r.id == id;
      assert |s - {id}| < |s| by { assert (s - {id}).Keys == s.Keys - {id}; }
      forall r | r in keys - own ensures RefIn(s - {id}, r) { assert RefIn(s, r); }
      RefsFit(keys - own, s - {id});
      OwnOf(own, s, id, NPT);
      assert keys == own + (keys - own);
    }
  }

  lemma {:induction false} FramesFit(R: Refs, keys: set<Ref>)
    requires keys <= R.Keys
    ensures |set r | r in keys :: R[r]| <= |keys|
  {
    if keys != {} {
      var q :| q in keys;
      FramesFit(R, keys - {q});
      assert (set r | r in keys :: R[r]) == (set r | r in keys - {q} :: R[r]) + {R[q]};
    }
  }

  /** A frame is free or somebody's. */
  lemma FreeAtLeast(m: Mem, R: Refs)
    requires Counted(m, R)
    ensures |m.free| + |R.Keys| >= PHYS_PAGES - m.lo
  {
    var used := set r | r in R.Keys :: R[r];
    FramesFit(R, R.Keys);
    Sets.DistinctSize(m.free);
    forall f | f in Sets.Between(m.lo, PHYS_PAGES) ensures f in Sets.Elements(m.free) + used {
      assert Managed(m, f);
      if m.refs[f] != 0 {
        var r :| r in Holders(R, f);
        assert R[r] == f;
      }
    }
    Sets.SubsetSize(Sets.Between(m.lo, PHYS_PAGES), Sets.Elements(m.free) + used);
    Sets.BetweenSize(m.lo, PHYS_PAGES);
  }

  // ------------------------------------------------------ with enough memory

  /** growproc fails whatever memory there is. */
  predicate TooFar(sz: nat, n: int) {
    var newsz := PM.NewSize(sz, n);
    if n > 0 then newsz >= PM.LIMIT else n < 0 && (newsz == 0 || sz == 0)
  }

  /** What a call comes to when memory does not run out. */
  ghost function Expected(s: PM.Spaces, op: PM.Op): PM.Outcome {
    if !PM.Callable(s, op) then PM.Failed else
    match op
    case Fork(p, _) => if PM.Full(s[p]) then PM.Ok else PM.Panicked
    case Sbrk(p, n) => if TooFar(s[p].sz, n) then PM.Failed else PM.Ok
    case Store(p, va, _) => if va / PGSIZE in s[p].mem && s[p].mem[va / PGSIZE].u then PM.Ok else PM.Failed
    case Reap(_) => PM.Ok
  }

  /** The free pages with which it cannot run out. */
  function Demand(s: PM.Spaces, op: PM.Op): nat
    requires PM.Callable(s, op)
  {
    match op
    case Fork(p, _) => NPT + 3 + Up(s[p].sz)
    case Sbrk(p, n) => NPT + 1 + Up(PM.NewSize(s[p].sz, n))
    case Store(_, _, _) => 1
    case Reap(_) => 0
  }

  ghost predicate Plenty(s: PM.Spaces, op: PM.Op, total: int) {
    PM.Callable(s, op) ==> Need(s) + Demand(s, op) <= total
  }

  /** The outcomes of the first n calls, up to a panic. */
  ghost function Outcomes(s: PM.Spaces, ops: seq<PM.Op>, n: nat): (rs: seq<PM.Outcome>)
    requires n <= |ops|
    ensures |rs| <= n
  {
    if n == 0 then []
    else
      var rs := Outcomes(s, ops, n - 1);
      if |rs| < n - 1 then rs
      else
        var r := Expected(PM.Run(s, ops, rs), ops[n - 1]);
        if r == PM.Panicked then rs else rs + [r]
  }

  lemma {:induction false} OutcomesStop(s: PM.Spaces, ops: seq<PM.Op>, n: nat, m: nat)
    requires n <= m <= |ops| && |Outcomes(s, ops, n)| < n
    ensures Outcomes(s, ops, m) == Outcomes(s, ops, n)
    decreases m
  {
    if n < m { OutcomesStop(s, ops, n, m - 1); }
  }

  /** Of `total` pages there are enough for every call of the run. */
  ghost predicate Enough(s: PM.Spaces, ops: seq<PM.Op>, total: int) {
    forall n :: 0 <= n < |ops| && |Outcomes(s, ops, n)| == n ==> Plenty(PM.Run(s, ops, Outcomes(s, ops, n)), ops[n], total)
  }

  /** With plenty of memory the call came to r as it should. */
  ghost predicate Met(s: PM.Spaces, op: PM.Op, total: int, r: PM.Outcome) {
    Plenty(s, op, total) ==> r == Expected(s, op)
  }

  /** With enough memory the first n calls came to rs as they should. (Bound to a number of
      pages, so that only proofs that speak of Enough unfold it.) */
  ghost predicate Foreseen(s: PM.Spaces, ops: seq<PM.Op>, total: int, rs: seq<PM.Outcome>, n: nat)
    requires n <= |ops|
  {
    forall t {:trigger Enough(s, ops, t)} :: t == total && Enough(s, ops, t) ==> rs == Outcomes(s, ops, n)
  }

  lemma ForeseenNext(s: PM.Spaces, ops: seq<PM.Op>, total: int, rs: seq<PM.Outcome>, r: PM.Outcome)
    requires |rs| < |ops| && Foreseen(s, ops, total, rs, |rs|) && Met(PM.Run(s, ops, rs), ops[|rs|], total, r)
    ensures if r == PM.Panicked then Foreseen(s, ops, total, rs, |ops|) else Foreseen(s, ops, total, rs + [r], |rs| + 1)
  {
    if Enough(s, ops, total) {
      assert Plenty(PM.Run(s, ops, Outcomes(s, ops, |rs|)), ops[|rs|], total);
      if r == PM.Panicked { OutcomesStop(s, ops, |rs| + 1, |ops|); }
    }
  }
}
