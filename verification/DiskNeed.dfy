/** How many free blocks reading or writing a range of a file takes (fs.c): one for every
    hole in it, and one for the indirect block. */
module DiskNeed {
  import opened Blocks
  import opened Bitmap
  import opened BlockTree
  import opened FileSteps

  ghost function FreeBlocks(f: Fs): set<nat>
    requires Laid(f)
  {
    set b | 0 <= b < f.l.size && !Used(f.disk, f.l.bmapstart, b)
  }

  ghost function Spare(f: Fs): nat
    requires Laid(f)
  {
    |FreeBlocks(f)|
  }

  /** balloc takes one. */
  lemma AllocSpare(f: Fs, b: nat)
    requires Owned(f, {}) && b < f.l.size && !Used(f.disk, f.l.bmapstart, b)
    ensures Laid(Alloc(f, b)) && Spare(Alloc(f, b)) == Spare(f) - 1
  {
    AllocOwned(f, b);
    forall c: nat | c < f.l.size ensures c in FreeBlocks(Alloc(f, b)) <==> c in FreeBlocks(f) && c != b { AllocBits(f, b, c); }
    assert FreeBlocks(Alloc(f, b)) == FreeBlocks(f) - {b};
  }

  lemma NoneSpare(f: Fs)
    requires Laid(f) && AllUsed(f, f.l.size)
    ensures Spare(f) == 0
  {
    assert FreeBlocks(f) == {};
  }

  lemma SameSpare(f: Fs, f': Fs)
    requires Laid(f) && Laid(f') && f'.l == f.l && SameBits(f, f')
    ensures Spare(f') == Spare(f)
  {
    assert FreeBlocks(f') == FreeBlocks(f);
  }

  function Bit01(b: bool): nat {
    if b then 1 else 0
  }

  /** What bmap of block bn has to allocate. */
  function Lacks(f: Fs, ino: nat, bn: nat): nat {
    Bit01(Target(f, SlotOf(ino, bn)) == 0) + Bit01(bn >= NDIRECT && Addr(f, ino, NDIRECT) == 0)
  }

  /** Only the slots on the way to block bn have changed. */
  ghost predicate OnlyOn(f: Fs, f': Fs, ino: nat, bn: nat) {
    && (forall s :: s != SlotOf(ino, bn) && s != Indirect(ino) ==> Target(f', s) == Target(f, s))
    && (bn < NDIRECT ==> Target(f', Indirect(ino)) == Target(f, Indirect(ino)))
  }

  lemma OnlyOnDirect(f: Fs, f': Fs, ino: nat, bn: nat, b: nat)
    requires AddrSet(f, f', ino, bn, b) && bn < NDIRECT
    ensures OnlyOn(f, f', ino, bn)
  {
  }

  lemma OnlyOnEntry(f: Fs, f1: Fs, f2: Fs, ino: nat, bn: nat, a: nat, b: nat)
    requires NDIRECT <= bn < MAXFILE && AddrSet(f, f1, ino, NDIRECT, a) && EntrySet(f1, f2, ino, bn - NDIRECT, b)
    ensures OnlyOn(f, f2, ino, bn) && Addr(f2, ino, NDIRECT) != 0
  {
  }

  lemma EntryBefore(f: Fs, f1: Fs, ino: nat, bn: nat, a: nat)
    requires NDIRECT <= bn < MAXFILE && AddrSet(f, f1, ino, NDIRECT, a)
    ensures Target(f1, Entry(ino, bn - NDIRECT)) == Target(f, SlotOf(ino, bn))
    ensures Addr(f, ino, NDIRECT) == 0 ==> Target(f, SlotOf(ino, bn)) == 0
  {
  }

  /** A new block is one less that is free, and it is logged. */
  ghost predicate TookOne(f: Fs, f': Fs, made: bool, b: nat, log: set<nat>, log': set<nat>)
    requires Laid(f) && Laid(f')
  {
    Spare(f') == Spare(f) - Bit01(made) && log <= log' && (made ==> b in log')
  }

  /** bmap of block bn has given it b and taken no more than it lacked. */
  ghost predicate Took(f: Fs, f': Fs, ino: nat, bn: nat, b: nat, log: set<nat>, log': set<nat>)
    requires Laid(f) && Laid(f')
  {
    && Spare(f') == Spare(f) - Lacks(f, ino, bn) && OnlyOn(f, f', ino, bn) && (bn >= NDIRECT ==> Addr(f', ino, NDIRECT) != 0)
    && log <= log' && (Target(f, SlotOf(ino, bn)) == 0 ==> b in log')
  }

  /** The holes among the blocks from lo up to hi. */
  function Holes(f: Fs, ino: nat, lo: nat, hi: nat): nat
    decreases if lo < hi then hi - lo else 0
  {
    if lo >= hi then 0 else Bit01(Target(f, SlotOf(ino, lo)) == 0) + Holes(f, ino, lo + 1, hi)
  }

  function Demand(f: Fs, ino: nat, lo: nat, hi: nat): nat {
    Holes(f, ino, lo, hi) + Bit01(lo < hi && hi > NDIRECT && Addr(f, ino, NDIRECT) == 0)
  }

  lemma {:induction false} SameHoles(f: Fs, f': Fs, ino: nat, bn: nat, lo: nat, hi: nat)
    requires OnlyOn(f, f', ino, bn) && bn < lo
    ensures Holes(f', ino, lo, hi) == Holes(f, ino, lo, hi)
    decreases if lo < hi then hi - lo else 0
  {
    if lo < hi {
      assert SlotOf(ino, lo) != SlotOf(ino, bn) && SlotOf(ino, lo) != Indirect(ino);
      SameHoles(f, f', ino, bn, lo + 1, hi);
    }
  }

  /** One block on. */
  lemma DemandNext(f: Fs, f': Fs, ino: nat, lo: nat, hi: nat)
    requires lo < hi && OnlyOn(f, f', ino, lo) && (lo >= NDIRECT ==> Addr(f', ino, NDIRECT) != 0)
    ensures Demand(f, ino, lo, hi) == Lacks(f, ino, lo) + Demand(f', ino, lo + 1, hi)
  {
    SameHoles(f, f', ino, lo, lo + 1, hi);
    assert Target(f', Indirect(ino)) == Addr(f', ino, NDIRECT) && Target(f, Indirect(ino)) == Addr(f, ino, NDIRECT);
  }

  /** No hole is no demand; and conversely. */
  lemma {:induction false} NoDemand(f: Fs, ino: nat, lo: nat, hi: nat)
    requires lo < hi
    ensures Demand(f, ino, lo, hi) == 0 <==> forall bn: nat :: lo <= bn < hi ==> Target(f, SlotOf(ino, bn)) != 0
  {
    NoHole(f, ino, lo, hi);
    if hi > NDIRECT && Addr(f, ino, NDIRECT) == 0 {
      var last := hi - 1;
      assert Target(f, SlotOf(ino, last)) == 0;
    }
  }

  lemma {:induction false} NoHole(f: Fs, ino: nat, lo: nat, hi: nat)
    ensures Holes(f, ino, lo, hi) == 0 <==> forall bn: nat :: lo <= bn < hi ==> Target(f, SlotOf(ino, bn)) != 0
    decreases if lo < hi then hi - lo else 0
  {
    if lo < hi { NoHole(f, ino, lo + 1, hi); }
  }

  /** The first and the end of the blocks that n bytes from offset off on are in. */
  function FirstBlock(off: nat): nat {
    off / BSIZE
  }

  function EndBlock(off: nat, n: nat): nat {
    if n == 0 then 0 else (off + n - 1) / BSIZE + 1
  }

  /** The free blocks that reading or writing n bytes at off takes. */
  function Need(f: Fs, ino: nat, off: nat, n: nat): nat {
    Demand(f, ino, FirstBlock(off), EndBlock(off, n))
  }

  lemma NeedsNone(f: Fs, ino: nat, off: nat, n: nat)
    ensures Need(f, ino, off, n) == 0 <==> RangeThere(f, ino, off, n)
  {
    if n > 0 {
      assert FirstBlock(off) < EndBlock(off, n);
      NoDemand(f, ino, FirstBlock(off), EndBlock(off, n));
      forall bn: nat ensures InRange(off, n, bn) <==> FirstBlock(off) <= bn < EndBlock(off, n) { }
    }
  }

  /** bmap cannot have blocks for all of the n bytes at off. */
  ghost predicate TooMuch(f: Fs, ino: nat, off: nat, n: nat)
    requires Laid(f)
  {
    EndBlock(off, n) > MAXFILE || Need(f, ino, off, n) > Spare(f)
  }

  /** That is so only where there are holes: a file has blocks below MAXFILE only. */
  lemma ThereIsEnough(f: Fs, ino: nat, off: nat, n: nat)
    requires Laid(f) && RangeThere(f, ino, off, n)
    ensures !TooMuch(f, ino, off, n)
  {
    NeedsNone(f, ino, off, n);
    forall bn: nat | InRange(off, n, bn) ensures bn < MAXFILE { assert Target(f, SlotOf(ino, bn)) != 0; }
    if n > 0 { assert InRange(off, n, (off + n - 1) / BSIZE); }
  }

  /** m bytes on from offset at, inside its block or to its end. */
  lemma NextBlock(off: nat, n: nat, at: nat, left: nat, m: nat)
    requires 0 < m <= left && at % BSIZE + m <= BSIZE && at == off + n
    ensures EndBlock(off, n + m) == FirstBlock(at) + 1
    ensures m < left ==> FirstBlock(at) <= FirstBlock(at + m) <= FirstBlock(at) + 1 && EndBlock(at + m, left - m) == EndBlock(at, left)
    ensures m == left ==> EndBlock(at, left) == FirstBlock(at) + 1
    ensures FirstBlock(at) < EndBlock(at, left)
  {
    assert (at + m - 1) / BSIZE == at / BSIZE;
  }

  // ------------------------------------------------------ what a read logs

  /** The blocks of the file that were holes and are none now are logged. */
  ghost predicate FilledLogged(f: Fs, f': Fs, ino: nat, log: set<nat>) {
    forall bn: nat :: Target(f, SlotOf(ino, bn)) == 0 != Target(f', SlotOf(ino, bn)) ==> Target(f', SlotOf(ino, bn)) in log
  }

  lemma FilledMore(f: Fs, f1: Fs, f2: Fs, ino: nat, bn: nat, b: nat, log1: set<nat>, log2: set<nat>)
    requires FilledLogged(f, f1, ino, log1) && log1 <= log2 && OnlyOn(f1, f2, ino, bn) && Mapped(f1, f2, ino, bn, b)
    requires Target(f1, SlotOf(ino, bn)) == 0 ==> b in log2
    ensures FilledLogged(f, f2, ino, log2)
  {
    forall x: nat | Target(f, SlotOf(ino, x)) == 0 != Target(f2, SlotOf(ino, x)) ensures Target(f2, SlotOf(ino, x)) in log2 {
      if x != bn { assert SlotOf(ino, x) != SlotOf(ino, bn) && SlotOf(ino, x) != Indirect(ino); }
    }
  }

  lemma ThereMore(f1: Fs, f2: Fs, ino: nat, off: nat, n: nat, m: nat, at: nat, b: nat)
    requires RangeThere(f1, ino, off, n) && Mapped(f1, f2, ino, at / BSIZE, b)
    requires at == off + n && m > 0 && at % BSIZE + m <= BSIZE
    ensures RangeThere(f2, ino, off, n + m)
  {
    forall bn: nat | InRange(off, n + m, bn) ensures Target(f2, SlotOf(ino, bn)) != 0 { RangeMore(off, n, m, at, bn); }
  }

  /** Where there was a hole, something is logged. */
  lemma HoleLogs(f: Fs, f': Fs, ino: nat, off: nat, n: nat, log: set<nat>)
    requires RangeThere(f', ino, off, n) && FilledLogged(f, f', ino, log) && !RangeThere(f, ino, off, n)
    ensures log != {}
  {
    var bn: nat :| InRange(off, n, bn) && Target(f, SlotOf(ino, bn)) == 0;
    assert Target(f', SlotOf(ino, bn)) in log;
  }

  // ------------------------------------------------------------- the loops

  /** n of `want` bytes at off are done, from f to f': the blocks for them are there, and
      what was needed but is not any more has been taken from the free blocks. */
  ghost predicate Served(f: Fs, f': Fs, ino: nat, off: nat, want: nat, n: nat)
    requires Laid(f) && Laid(f')
  {
    && n <= want && EndBlock(off, n) <= MAXFILE && (n < want ==> EndBlock(off + n, want - n) == EndBlock(off, want))
    && Balance(f, f', ino, off, want, off + n, want - n)
  }

  /** Block bn is there now, and only slots on the way to it have changed. */
  ghost predicate Opened(f: Fs, f': Fs, ino: nat, bn: nat) {
    OnlyOn(f, f', ino, bn) && Target(f', SlotOf(ino, bn)) != 0 && (bn >= NDIRECT ==> Addr(f', ino, NDIRECT) != 0)
  }

  /** A block that is there adds nothing to the demand. */
  lemma DemandThere(f: Fs, ino: nat, bn: nat, hi: nat)
    requires bn < hi && Target(f, SlotOf(ino, bn)) != 0 && (bn >= NDIRECT ==> Addr(f, ino, NDIRECT) != 0)
    ensures Demand(f, ino, bn, hi) == Demand(f, ino, bn + 1, hi)
  {
  }

  /** What f needs beyond its free blocks for one range, f' needs for another. */
  ghost predicate Balance(f: Fs, f': Fs, ino: nat, off: nat, want: nat, at: nat, left: nat)
    requires Laid(f) && Laid(f')
  {
    Need(f, ino, off, want) - Spare(f) == Need(f', ino, at, left) - Spare(f')
  }

  lemma BalanceNext(f: Fs, f1: Fs, f2: Fs, ino: nat, off: nat, want: nat, at: nat, left: nat, bn: nat, at': nat, left': nat)
    requires Laid(f) && Laid(f1) && Laid(f2) && Balance(f, f1, ino, off, want, at, left) && Spare(f2) == Spare(f1) - Lacks(f1, ino, bn)
    requires bn == FirstBlock(at) < EndBlock(at, left) && Opened(f1, f2, ino, bn)
    requires if left' == 0 then EndBlock(at, left) == bn + 1 else bn <= FirstBlock(at') <= bn + 1 && EndBlock(at', left') == EndBlock(at, left)
    ensures Balance(f, f2, ino, off, want, at', left')
  {
    NeedNext(f1, f2, ino, at, left, bn, at', left');
  }

  lemma NeedNext(f1: Fs, f2: Fs, ino: nat, at: nat, left: nat, bn: nat, at': nat, left': nat)
    requires bn == FirstBlock(at) < EndBlock(at, left) && Opened(f1, f2, ino, bn)
    requires if left' == 0 then EndBlock(at, left) == bn + 1 else bn <= FirstBlock(at') <= bn + 1 && EndBlock(at', left') == EndBlock(at, left)
    ensures Need(f1, ino, at, left) == Lacks(f1, ino, bn) + Need(f2, ino, at', left')
  {
    DemandNext(f1, f2, ino, bn, EndBlock(at, left));
    DemandThere(f2, ino, bn, EndBlock(at, left));
  }

  lemma ServedMore(f: Fs, f1: Fs, f2: Fs, ino: nat, off: nat, want: nat, n: nat, n': nat, at: nat, at': nat, bn: nat, hi: nat)
    requires Laid(f) && Laid(f1) && Laid(f2) && Served(f, f1, ino, off, want, n) && n < n' <= want && at == off + n && at' == off + n'
    requires bn == FirstBlock(at) < hi == EndBlock(at, want - n) && bn < MAXFILE && EndBlock(off, n') == bn + 1
    requires if n' == want then hi == bn + 1 else bn <= FirstBlock(at') <= bn + 1 && EndBlock(at', want - n') == hi
    requires Opened(f1, f2, ino, bn) && Spare(f2) == Spare(f1) - Lacks(f1, ino, bn)
    ensures Served(f, f2, ino, off, want, n')
  {
    BalanceNext(f, f1, f2, ino, off, want, at, want - n, bn, at', want - n');
  }

  /** bmap finds no block for the next byte: there is too little for the whole. */
  lemma ServedNoMore(f: Fs, f1: Fs, ino: nat, off: nat, want: nat, n: nat, at: nat)
    requires Laid(f) && Laid(f1) && Served(f, f1, ino, off, want, n) && n < want && at == off + n
    requires FirstBlock(at) >= MAXFILE || Lacks(f1, ino, FirstBlock(at)) > Spare(f1)
    ensures TooMuch(f, ino, off, want)
  {
    assert FirstBlock(at) < EndBlock(at, want - n);
  }

  /** So far readi has read n of `want` bytes: its blocks are there, and new ones logged. */
  ghost predicate Fed(f: Fs, f': Fs, ino: nat, off: nat, want: nat, n: nat, log: set<nat>) {
    && Laid(f) && Laid(f') && Served(f, f', ino, off, want, n)
    && RangeThere(f', ino, off, n) && FilledLogged(f, f', ino, log)
  }

  lemma FedStart(f: Fs, ino: nat, off: nat, want: nat, log: set<nat>)
    requires Laid(f)
    ensures Fed(f, f, ino, off, want, 0, log)
  {
  }

  lemma FedMore(f: Fs, f1: Fs, f2: Fs, ino: nat, off: nat, want: nat, n: nat, n': nat, at: nat, bn: nat, o: nat, b: nat,
        log1: set<nat>, log2: set<nat>)
    requires Fed(f, f1, ino, off, want, n, log1) && Laid(f2) && n < want && at == off + n
    requires bn == at / BSIZE < MAXFILE && o == at % BSIZE && n < n' <= want && o + n' - n <= BSIZE
    requires Took(f1, f2, ino, bn, b, log1, log2) && Mapped(f1, f2, ino, bn, b)
    ensures Fed(f, f2, ino, off, want, n', log2)
  {
    NextBlock(off, n, at, want - n, n' - n);
    ServedMore(f, f1, f2, ino, off, want, n, n', at, off + n', bn, EndBlock(at, want - n));
    FilledMore(f, f1, f2, ino, bn, b, log1, log2);
    ThereMore(f1, f2, ino, off, n, n' - n, at, b);
  }

  /** How much of n bytes at off a file of some size has. */
  function Clip(off: nat, n: nat, size: nat): nat {
    if off > size then 0 else if off + n > size then size - off else n
  }

  lemma FullRange(f: Fs, ino: nat, off: nat, n: nat)
    requires ino in f.inodes && NoHoles(f, ino)
    ensures RangeThere(f, ino, off, Clip(off, n, f.inodes[ino].size))
  {
    forall bn: nat | InRange(off, Clip(off, n, f.inodes[ino].size), bn) ensures Target(f, SlotOf(ino, bn)) != 0 {
      assert bn * BSIZE < f.inodes[ino].size;
    }
  }

  /** readi, asked for `want` bytes that the file has, has got some. It was called with the
      blocks `log` logged. */
  datatype Reads = Reads(f: Fs, f': Fs, ino: nat, off: nat, want: nat, got: seq<byte>, log: set<nat>, log': set<nat>)

  ghost predicate ReadSoFar(j: Reads) {
    && Reading(j.f, j.f', j.ino, j.off, j.got) && Fed(j.f, j.f', j.ino, j.off, j.want, |j.got|, j.log')
    && (RangeThere(j.f, j.ino, j.off, j.want) ==> j.f' == j.f && j.log' == j.log)
  }

  /** ReadSoFar, unfolded only where it is mentioned. */
  ghost predicate Ongoing(j: Reads) {
    forall k {:trigger ReadSoFar(k)} :: k == j ==> ReadSoFar(k)
  }

  lemma ReadStart(f: Fs, ino: nat, off: nat, want: nat, log: set<nat>)
    requires Owned(f, {}) && ino in f.inodes
    ensures Ongoing(Reads(f, f, ino, off, want, [], log, log))
  {
    OnlyAddrsSelf(f, ino);
    FedStart(f, ino, off, want, log);
    assert ReadSoFar(Reads(f, f, ino, off, want, [], log, log));
  }

  lemma ReadValid(j: Reads)
    requires Ongoing(j)
    ensures Owned(j.f', {}) && j.ino in j.f'.inodes && j.ino in j.f.inodes && |j.got| <= j.want
  {
    assert ReadSoFar(j);
  }

  lemma ReadFed(j: Reads)
    requires Ongoing(j)
    ensures Fed(j.f, j.f', j.ino, j.off, j.want, |j.got|, j.log')
  {
    assert ReadSoFar(j);
  }

  /** One round of readi. */
  lemma ReadOn(j: Reads, j': Reads, at: nat, bn: nat, o: nat, m: nat, b: nat)
    requires Ongoing(j) && Laid(j.f') && Owned(j'.f', {}) && Mapped(j.f', j'.f', j.ino, bn, b) && |j.got| < j.want
    requires Took(j.f', j'.f', j.ino, bn, b, j.log', j'.log')
    requires at == j.off + |j.got| && bn == at / BSIZE < MAXFILE && o == at % BSIZE
    requires m == (if j.want - |j.got| < BSIZE - o then j.want - |j.got| else BSIZE - o) && b < |j'.f'.disk|
    requires j' == j.(f' := j'.f', got := j.got + j'.f'.disk[b][o..o + m], log' := j'.log')
    requires Target(j.f', SlotOf(j.ino, bn)) != 0 ==> j'.log' == j.log'
    ensures Ongoing(j')
  {
    ReadOnBytes(j, j', bn, o, m, b);
    ReadOnNeed(j, j', at, bn, o, m, b);
    if RangeThere(j.f, j.ino, j.off, j.want) { ReadOnStill(j, j', bn, b); }
    assert ReadSoFar(j');
  }

  lemma ReadOnBytes(j: Reads, j': Reads, bn: nat, o: nat, m: nat, b: nat)
    requires Ongoing(j) && Owned(j'.f', {}) && Mapped(j.f', j'.f', j.ino, bn, b)
    requires bn == (j.off + |j.got|) / BSIZE && o == (j.off + |j.got|) % BSIZE && o + m <= BSIZE && b < |j'.f'.disk|
    requires j' == j.(f' := j'.f', got := j.got + j'.f'.disk[b][o..o + m], log' := j'.log')
    ensures Reading(j'.f, j'.f', j'.ino, j'.off, j'.got)
  {
    assert ReadSoFar(j);
    OnlyAddrsTrans(j.f, j.f', j'.f', j.ino);
    ReadMore(j.f, j'.f', j.ino, j.off, j.got, j'.got, j.off + |j.got|, bn, o, m, b);
  }

  lemma ReadOnNeed(j: Reads, j': Reads, at: nat, bn: nat, o: nat, m: nat, b: nat)
    requires Ongoing(j) && Laid(j.f') && Laid(j'.f') && Mapped(j.f', j'.f', j.ino, bn, b) && |j.got| < j.want
    requires Took(j.f', j'.f', j.ino, bn, b, j.log', j'.log')
    requires at == j.off + |j.got| && bn == at / BSIZE < MAXFILE && o == at % BSIZE
    requires m == if j.want - |j.got| < BSIZE - o then j.want - |j.got| else BSIZE - o
    requires |j'.got| == |j.got| + m
    ensures Fed(j.f, j'.f', j.ino, j.off, j.want, |j'.got|, j'.log')
  {
    ReadFed(j);
    FedMore(j.f, j.f', j'.f', j.ino, j.off, j.want, |j.got|, |j'.got|, at, bn, o, b, j.log', j'.log');
  }

  lemma ReadOnStill(j: Reads, j': Reads, bn: nat, b: nat)
    requires Ongoing(j) && Mapped(j.f', j'.f', j.ino, bn, b) && |j.got| < j.want && bn == (j.off + |j.got|) / BSIZE
    requires Target(j.f', SlotOf(j.ino, bn)) != 0 ==> j'.log' == j.log'
    requires RangeThere(j.f, j.ino, j.off, j.want)
    ensures j'.f' == j.f && j'.log' == j.log
  {
    assert ReadSoFar(j);
    assert InRange(j.off, j.want, bn);
  }

  lemma ReadStuck(j: Reads, bn: nat)
    requires Ongoing(j) && Laid(j.f) && Laid(j.f') && |j.got| < j.want && bn == (j.off + |j.got|) / BSIZE
    requires bn >= MAXFILE || Lacks(j.f', j.ino, bn) > Spare(j.f')
    ensures TooMuch(j.f, j.ino, j.off, j.want)
  {
    ReadFed(j);
    ServedNoMore(j.f, j.f', j.ino, j.off, j.want, |j.got|, j.off + |j.got|);
  }

  lemma ReadEnd(j: Reads)
    requires Ongoing(j) && |j.got| == j.want && j.ino in j.f.inodes && j.off + j.want <= j.f.inodes[j.ino].size
    ensures SameBytes(j.f, j.f') && OnlyAddrs(j.f, j.f', j.ino)
    ensures j.got == Content(j.f, j.ino)[j.off..j.off + j.want] && Fed(j.f, j.f', j.ino, j.off, j.want, j.want, j.log')
    ensures RangeThere(j.f, j.ino, j.off, j.want) ==> j.f' == j.f && j.log' == j.log
    ensures !TooMuch(j.f, j.ino, j.off, j.want)
  {
    assert ReadSoFar(j);
    GotContent(j.f, j.ino, j.off, j.got);
  }

  // ----------------------------------------------------------------- writei

  /** writei, asked for `want` bytes at off, has come to byte n. */
  datatype Order = Order(f: Fs, f': Fs, ino: nat, off: nat, want: nat, n: nat)

  ghost predicate Supply(d: Order) {
    Laid(d.f) && Laid(d.f') && Served(d.f, d.f', d.ino, d.off, d.want, d.n)
  }

  /** Supply, unfolded only where it is mentioned. */
  ghost predicate Supplied(d: Order) {
    forall k {:trigger Supply(k)} :: k == d ==> Supply(k)
  }

  lemma SuppliedStart(f: Fs, ino: nat, off: nat, want: nat)
    requires Laid(f)
    ensures Supplied(Order(f, f, ino, off, want, 0))
  {
    assert Supply(Order(f, f, ino, off, want, 0));
  }

  /** A round of writei: bmap makes f2 of f1, and the data goes to block b of it. */
  lemma SuppliedMore(d: Order, d': Order, f2: Fs, at: nat, bn: nat, o: nat, b: nat, log1: set<nat>, log2: set<nat>, data: Block)
    requires Supplied(d) && Laid(d.f') && Owned(f2, {}) && d.n < d.want && at == d.off + d.n
    requires bn == at / BSIZE < MAXFILE && o == at % BSIZE
    requires Took(d.f', f2, d.ino, bn, b, log1, log2) && Target(f2, SlotOf(d.ino, bn)) == b && 0 < b < |f2.disk|
    requires d' == d.(f' := PutData(f2, b, data), n := d'.n) && d.n < d'.n <= d.want && o + d'.n - d.n <= BSIZE
    ensures Supplied(d')
  {
    assert Supply(d);
    NextBlock(d.off, d.n, at, d.want - d.n, d'.n - d.n);
    ServedMore(d.f, d.f', f2, d.ino, d.off, d.want, d.n, d'.n, at, d.off + d'.n, bn, EndBlock(at, d.want - d.n));
    PutDataServed(d.f, f2, d.ino, d.off, d.want, d'.n, bn, data);
    assert Supply(d');
  }

  lemma PutDataServed(f: Fs, f2: Fs, ino: nat, off: nat, want: nat, n: nat, bn: nat, data: Block)
    requires Laid(f) && Owned(f2, {}) && Served(f, f2, ino, off, want, n) && 0 < Target(f2, SlotOf(ino, bn)) < |f2.disk|
    ensures Supply(Order(f, PutData(f2, Target(f2, SlotOf(ino, bn)), data), ino, off, want, n))
  {
    var b := Target(f2, SlotOf(ino, bn));
    var f3 := PutData(f2, b, data);
    PutDataOwned(f2, ino, bn, data);
    SameMap(f2, f3, b);
    SameSpare(f2, f3);
    SameNeed(f2, f3, ino, off + n, want - n);
  }

  lemma SameNeed(f: Fs, f': Fs, ino: nat, off: nat, n: nat)
    requires SameTargets(f, f')
    ensures Need(f', ino, off, n) == Need(f, ino, off, n)
  {
    assert OnlyOn(f, f', ino, 0);
    assert Target(f', Indirect(ino)) == Target(f, Indirect(ino)) && Target(f', SlotOf(ino, 0)) == Target(f, SlotOf(ino, 0));
    if FirstBlock(off) == 0 {
      SameHoles(f, f', ino, 0, 1, EndBlock(off, n));
    } else {
      SameHoles(f, f', ino, 0, FirstBlock(off), EndBlock(off, n));
    }
  }

  lemma SuppliedNoMore(d: Order, bn: nat)
    requires Supplied(d) && Laid(d.f) && Laid(d.f') && d.n < d.want && bn == (d.off + d.n) / BSIZE
    requires bn >= MAXFILE || Lacks(d.f', d.ino, bn) > Spare(d.f')
    ensures TooMuch(d.f, d.ino, d.off, d.want)
  {
    assert Supply(d);
    ServedNoMore(d.f, d.f', d.ino, d.off, d.want, d.n, d.off + d.n);
  }

  lemma SuppliedAll(d: Order)
    requires Supplied(d) && d.n == d.want && Laid(d.f)
    ensures !TooMuch(d.f, d.ino, d.off, d.want)
  {
    assert Supply(d);
  }

  /** The end of writei changes no address. */
  lemma SuppliedSize(d: Order, d': Order)
    requires Supplied(d) && Laid(d'.f') && d'.f'.disk == d.f'.disk && d'.f'.l == d.f'.l && SameTargets(d.f', d'.f') && d' == d.(f' := d'.f')
    ensures Supplied(d')
  {
    assert Supply(d);
    SameSpare(d.f', d'.f');
    SameNeed(d.f', d'.f', d.ino, d.off + d.n, d.want - d.n);
    assert Supply(d');
  }

  // -------------------------------------------------------------- filewrite

  /** How many of n bytes at off the chunks hold that come before the first one that goes
      beyond the largest file. */
  function Reach(off: nat, n: nat): nat {
    if off + n <= MAXFILE * BSIZE then n else if off > MAXFILE * BSIZE then 0 else (MAXFILE * BSIZE - off) / CHUNK * CHUNK
  }

  lemma ReachIs(off: nat, n: nat)
    ensures Reach(off, n) <= n && (off <= MAXFILE * BSIZE ==> off + Reach(off, n) <= MAXFILE * BSIZE)
    ensures Reach(off, n) > 0 ==> EndBlock(off, Reach(off, n)) <= MAXFILE
  {
  }

  /** After k chunks the next one fits just when it is within reach. */
  lemma ReachStep(off: nat, n: nat, k: nat, done: nat, n1: nat)
    requires done < n && done == k * CHUNK <= Reach(off, n) && n1 == if CHUNK < n - done then CHUNK else n - done
    ensures off + done + n1 <= MAXFILE * BSIZE <==> done + n1 <= Reach(off, n)
    ensures off + done + n1 > MAXFILE * BSIZE ==> done == Reach(off, n)
  {
    if off + n > MAXFILE * BSIZE && off <= MAXFILE * BSIZE {
      var q := (MAXFILE * BSIZE - off) / CHUNK;
      assert Reach(off, n) == q * CHUNK;
      assert k <= q;
      ReachFar(MAXFILE * BSIZE - off, n, done, n1, q, k);
    }
  }

  lemma ReachFar(room: nat, n: nat, done: nat, n1: nat, q: nat, k: nat)
    requires done < n && done == k * CHUNK && room < n && q * CHUNK <= room < q * CHUNK + CHUNK && k <= q
    requires n1 == if CHUNK < n - done then CHUNK else n - done
    ensures done + n1 <= room <==> done + n1 <= q * CHUNK
    ensures done + n1 > room ==> done == q * CHUNK
  {
    if k < q { assert (k + 1) * CHUNK <= q * CHUNK; }
  }
}
