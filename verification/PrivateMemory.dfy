/** The memory that processes are promised: each has its own pages, fork copies
    them all, and nothing is shared. The outcome of a call (is there memory left?)
    is an input here. */
module PrivateMemory {
  import opened Blocks
  import opened Options
  import opened Frames
  import opened Paging
  import opened AddressSpace
  import Sets

  /** The size of a process and its pages. */
  datatype Space = Space(sz: nat, mem: map<nat, Seen>)

  type Spaces = map<nat, Space>

  datatype Op =
    | Fork(p: nat, c: nat)
    | Sbrk(p: nat, n: int)
    | Store(p: nat, va: nat, b: byte)
    | Reap(p: nat)

  datatype Outcome = Ok | Failed | Panicked

  const LIMIT: nat := 0x8000_0000   // KERNBASE

  /** sz + n as growproc computes it. */
  function NewSize(sz: nat, n: int): nat {
    (sz + n) % 0x1_0000_0000
  }

  function Zeros(from: nat, to: nat): map<nat, Seen> {
    map v | v in Sets.Below(to) && from <= v :: Seen(ZeroPage, true)
  }

  function Cut(mem: map<nat, Seen>, end: nat): map<nat, Seen> {
    map v | v in mem && v < end :: mem[v]
  }

  /** growproc. Shrinking to 0 drops the pages but keeps the size, as the call fails. */
  function Resized(x: Space, n: int, r: Outcome): Space {
    var newsz := NewSize(x.sz, n);
    if n > 0 then
      if r == Ok && newsz < LIMIT then Space(newsz, x.mem + Zeros(Up(x.sz), Up(newsz))) else x
    else if n < 0 && newsz < x.sz then Space(if newsz == 0 then x.sz else newsz, Cut(x.mem, Up(newsz)))
    else x
  }

  function Put(x: Space, va: nat, b: byte): Space {
    var v, o := va / PGSIZE, va % PGSIZE;
    if v in x.mem && x.mem[v].u then x.(mem := x.mem[v := Seen(x.mem[v].page[o := b], true)]) else x
  }

  /** Calls of a process that is not there, and forks without a free slot, do nothing. */
  predicate Callable(s: Spaces, op: Op) {
    op.p in s && (op.Fork? ==> op.c !in s)
  }

  function Step(s: Spaces, op: Op, r: Outcome): Spaces {
    if !Callable(s, op) then s else
    match op
    case Fork(p, c) => if r == Ok then s[c := s[p]] else s
    case Sbrk(p, n) => s[p := Resized(s[p], n, r)]
    case Store(p, va, b) => if r == Ok then s[p := Put(s[p], va, b)] else s
    case Reap(p) => s - {p}
  }

  function Run(s: Spaces, ops: seq<Op>, rs: seq<Outcome>): Spaces
    requires |rs| <= |ops|
  {
    if rs == [] then s else Step(Run(s, ops, rs[..|rs| - 1]), ops[|rs| - 1], rs[|rs| - 1])
  }

  lemma RunNext(s: Spaces, ops: seq<Op>, rs: seq<Outcome>, r: Outcome)
    requires |rs| < |ops|
    ensures Run(s, ops, rs + [r]) == Step(Run(s, ops, rs), ops[|rs|], r)
  {
    assert (rs + [r])[..|rs|] == rs;
  }

  /** A process's own calls touch no other process. */
  lemma {:induction false} RunOnly(s: Spaces, ops: seq<Op>, rs: seq<Outcome>, p: nat)
    requires |rs| <= |ops| && p in s && forall i :: 0 <= i < |ops| ==> ops[i].p == p && !ops[i].Fork? && !ops[i].Reap?
    ensures p in Run(s, ops, rs) && Run(s, ops, rs) - {p} == s - {p}
    decreases |rs|
  {
    if rs != [] {
      RunOnly(s, ops, rs[..|rs| - 1], p);
    }
  }

  /** sbrk takes a 32-bit int. */
  predicate LegalOp(op: Op) {
    op.Sbrk? ==> -0x8000_0000 <= op.n < 0x8000_0000
  }

  ghost predicate Fit(x: Space) {
    x.sz <= LIMIT && forall v :: v in x.mem ==> v * PGSIZE < x.sz
  }

  /** Pages lie below the size. */
  ghost predicate AllFit(s: Spaces) {
    forall id :: id in s ==> Fit(s[id])
  }

  lemma UpMonotone(a: nat, b: nat)
    requires a <= b
    ensures Up(a) <= Up(b)
  {
  }

  lemma ResizedFit(x: Space, n: int, r: Outcome)
    requires Fit(x) && n < 0x8000_0000
    ensures Fit(Resized(x, n, r))
  {
    var newsz := NewSize(x.sz, n);
    assert n > 0 ==> newsz == x.sz + n;
    if newsz <= x.sz { UpMonotone(newsz, x.sz); } else { UpMonotone(x.sz, newsz); }
  }

  lemma PutFit(x: Space, va: nat, b: byte)
    requires Fit(x)
    ensures Fit(Put(x, va, b))
  {
  }

  lemma StepFit(s: Spaces, op: Op, r: Outcome)
    requires AllFit(s) && LegalOp(op)
    ensures AllFit(Step(s, op, r))
  {
    if op.p in s {
      match op
      case Fork(_, _) =>
      case Sbrk(p, n) => ResizedFit(s[p], n, r);
      case Store(p, va, b) => PutFit(s[p], va, b);
      case Reap(_) =>
    }
  }

  // ---------------------------------------------- when is memory contiguous?

  /** Every page with a byte below the size is there: what copyuvm demands of a process. */
  ghost predicate Full(x: Space) {
    forall v: nat :: v * PGSIZE < x.sz ==> v in x.mem
  }

  /** Address va can be read and written, as far as the pages go. */
  predicate Backed(x: Space, va: nat) {
    va / PGSIZE in x.mem
  }

  lemma FullBytes(x: Space)
    ensures Full(x) <==> forall va: nat :: va < x.sz ==> Backed(x, va)
  {
    if Full(x) {
      forall va: nat | va < x.sz ensures Backed(x, va) { assert va / PGSIZE * PGSIZE <= va; }
    }
    if forall va: nat :: va < x.sz ==> Backed(x, va) {
      forall v: nat | v * PGSIZE < x.sz ensures v in x.mem { assert Backed(x, v * PGSIZE); }
    }
  }

  ghost predicate AllFull(s: Spaces) {
    forall id :: id in s ==> Full(s[id])
  }

  /** A call of sbrk that takes a process to size 0. */
  predicate Empties(s: Spaces, op: Op) {
    op.Sbrk? && op.p in s && op.n < 0 && s[op.p].sz > 0 && NewSize(s[op.p].sz, op.n) == 0
  }

  lemma ResizedFull(x: Space, n: int, r: Outcome)
    requires Full(x) && Fit(x) && n < 0x8000_0000
    ensures Full(Resized(x, n, r)) <==> !(n < 0 && x.sz > 0 && NewSize(x.sz, n) == 0)
  {
    var newsz, x' := NewSize(x.sz, n), Resized(x, n, r);
    if n < 0 && x.sz > 0 && newsz == 0 {
      assert 0 * PGSIZE < x'.sz && 0 !in x'.mem;
    } else {
      assert n > 0 ==> newsz == x.sz + n;
      forall v: nat | v * PGSIZE < x'.sz ensures v in x'.mem {
        UpIs(newsz, v);
        UpIs(x.sz, v);
      }
    }
  }

  /** Shrinking to size 0 is just what leaves holes. */
  lemma StepFull(s: Spaces, op: Op, r: Outcome)
    requires AllFull(s) && AllFit(s) && LegalOp(op)
    ensures AllFull(Step(s, op, r)) <==> !Empties(s, op)
  {
    if op.Sbrk? && op.p in s {
      ResizedFull(s[op.p], op.n, r);
      assert Step(s, op, r)[op.p] == Resized(s[op.p], op.n, r);
    }
  }

  /** No call of the run takes a process to size 0. */
  ghost predicate NeverEmpties(s: Spaces, ops: seq<Op>, rs: seq<Outcome>)
    requires |rs| <= |ops|
  {
    forall i :: 0 <= i < |rs| ==> !Empties(Run(s, ops, rs[..i]), ops[i])
  }

  lemma {:induction false} RunFull(s: Spaces, ops: seq<Op>, rs: seq<Outcome>)
    requires |rs| <= |ops| && AllFull(s) && AllFit(s) && (forall i :: 0 <= i < |rs| ==> LegalOp(ops[i]))
    requires NeverEmpties(s, ops, rs)
    ensures AllFit(Run(s, ops, rs)) && AllFull(Run(s, ops, rs))
    ensures forall id, va: nat :: id in Run(s, ops, rs) && va < Run(s, ops, rs)[id].sz ==> Backed(Run(s, ops, rs)[id], va)
    decreases |rs|
  {
    if rs != [] {
      var k := |rs| - 1;
      forall i | 0 <= i < k ensures !Empties(Run(s, ops, rs[..k][..i]), ops[i]) {
        assert rs[..k][..i] == rs[..i];
      }
      RunFull(s, ops, rs[..k]);
      StepFit(Run(s, ops, rs[..k]), ops[k], rs[k]);
      StepFull(Run(s, ops, rs[..k]), ops[k], rs[k]);
    }
    var s' := Run(s, ops, rs);
    forall id | id in s' ensures forall va: nat :: va < s'[id].sz ==> Backed(s'[id], va) { FullBytes(s'[id]); }
  }
}
