/** What the operations of fs.c on the blocks of a file come to. */
module FileSteps {
  import opened Blocks
  import opened Bitmap
  import opened BlockTree
  import Sets

  /** Every block below b is in use. */
  ghost predicate AllUsed(f: Fs, b: nat)
    requires Laid(f)
  {
    forall c: nat :: c < b && c < f.l.size ==> Used(f.disk, f.l.bmapstart, c)
  }

  lemma SameMapBlock(b: nat, bi: nat)
    requires b % BPB == 0 && bi < BPB
    ensures (b + bi) / BPB == b / BPB && (b + bi) % BPB == bi
  {
  }

  /** BBLOCK. */
  function MapBlock(l: Layout, b: nat): nat {
    l.bmapstart + b / BPB
  }

  ghost function MapBlocks(l: Layout): set<nat> {
    set b | 0 <= b < l.size :: MapBlock(l, b)
  }

  // ------------------------------------------------------------------ bmap

  /** ip' has the addresses of ip, and perhaps more. */
  ghost predicate Grows(ip: Inode, ip': Inode) {
    && ip'.size == ip.size && |ip.addrs| == |ip'.addrs| == NDIRECT + 1
    && forall i :: 0 <= i <= NDIRECT && ip.addrs[i] != 0 ==> ip'.addrs[i] == ip.addrs[i]
  }

  /** The address in the inode on the way to block bn is there. */
  predicate Backed(ip: Inode, bn: nat)
    requires |ip.addrs| == NDIRECT + 1
  {
    ip.addrs[if bn < NDIRECT then bn else NDIRECT] != 0
  }

  /** Only addresses of ino were added. */
  ghost predicate OnlyAddrs(f: Fs, f': Fs, ino: nat) {
    && f'.l == f.l && f'.inodes.Keys == f.inodes.Keys && ino in f.inodes && Grows(f.inodes[ino], f'.inodes[ino])
    && forall i :: i in f.inodes && i != ino ==> f'.inodes[i] == f.inodes[i]
  }

  /** Block bn of file ino is b. If it was so before, nothing has changed; otherwise only
      addresses have, and no byte of any file. */
  ghost predicate Mapped(f: Fs, f': Fs, ino: nat, bn: nat, b: nat) {
    && Target(f', SlotOf(ino, bn)) == b && 0 < b < f.l.size && SameBytes(f, f') && OnlyAddrs(f, f', ino)
    && (Target(f, SlotOf(ino, bn)) != 0 ==> f' == f)
    && (f'.inodes[ino] == f.inodes[ino] <==> Backed(f.inodes[ino], bn))
    && forall s :: Target(f, s) != 0 ==> Target(f', s) == Target(f, s)
  }

  ghost predicate AddrSet(f: Fs, f': Fs, ino: nat, i: nat, b: nat) {
    && Addr(f', ino, i) == b && 0 < b < f.l.size && SameBytes(f, f') && OnlyAddrs(f, f', ino)
    && (if Addr(f, ino, i) != 0 then f' == f else Moves(f, f', AddrSlot(ino, i), b))
  }

  ghost predicate EntrySet(f: Fs, f': Fs, ino: nat, j: nat, b: nat) {
    && Target(f', Entry(ino, j)) == b && 0 < b < f.l.size && SameBytes(f, f') && f'.inodes == f.inodes && f'.l == f.l
    && (if Target(f, Entry(ino, j)) != 0 then f' == f else Moves(f, f', Entry(ino, j), b))
  }

  lemma AddrKept(f: Fs, ino: nat, i: nat)
    requires Owned(f, {}) && ino in f.inodes && i <= NDIRECT && Addr(f, ino, i) != 0
    ensures AddrSet(f, f, ino, i, Addr(f, ino, i))
  {
    assert Target(f, AddrSlot(ino, i)) == Addr(f, ino, i);
  }

  lemma AddrMade(f: Fs, f1: Fs, f2: Fs, ino: nat, i: nat, b: nat)
    requires Owned(f, {}) && ino in f.inodes && i <= NDIRECT && Addr(f, ino, i) == 0
    requires b < f.l.size && !Used(f.disk, f.l.bmapstart, b) && f1 == Alloc(f, b) && f2 == SetAddr(f1, ino, i, b)
    ensures Owned(f2, {}) && AddrSet(f, f2, ino, i, b)
  {
    AllocOwned(f, b);
    SetAddrOwned(f1, ino, i, b);
  }

  lemma EntryKept(f: Fs, ino: nat, j: nat)
    requires Owned(f, {}) && Target(f, Entry(ino, j)) != 0
    ensures EntrySet(f, f, ino, j, Target(f, Entry(ino, j)))
  {
  }

  lemma AllocFits(f: Fs, b: nat)
    requires Laid(f) && b < f.l.size
    ensures b < WORD_LIMIT
  {
  }

  lemma EntryMade(f: Fs, f1: Fs, f2: Fs, ino: nat, j: nat, b: nat)
    requires Owned(f, {}) && j < NINDIRECT && 0 < Addr(f, ino, NDIRECT) < |f.disk| && Target(f, Entry(ino, j)) == 0
    requires b < f.l.size && !Used(f.disk, f.l.bmapstart, b) && f1 == Alloc(f, b) && f2 == SetEntry(f1, ino, j, b)
    ensures Owned(f2, {}) && EntrySet(f, f2, ino, j, b)
  {
    AllocOwned(f, b);
    assert Target(f1, Entry(ino, j)) == 0;
    SetEntryOwned(f1, ino, j, b);
  }

  lemma MappedDirect(f: Fs, f': Fs, ino: nat, bn: nat, b: nat)
    requires AddrSet(f, f', ino, bn, b) && bn < NDIRECT
    ensures Mapped(f, f', ino, bn, b)
  {
  }

  lemma MappedEntry(f: Fs, f1: Fs, f2: Fs, ino: nat, bn: nat, a: nat, b: nat)
    requires NDIRECT <= bn < MAXFILE && AddrSet(f, f1, ino, NDIRECT, a) && EntrySet(f1, f2, ino, bn - NDIRECT, b)
    ensures Mapped(f, f2, ino, bn, b)
  {
    assert Target(f, Indirect(ino)) == Addr(f, ino, NDIRECT);
  }

  // ------------------------------------------------------------ what is logged

  /** One block was allocated or was there: what log_write got. */
  ghost predicate NewLog(l: Layout, there: bool, b: nat, log: set<nat>, log': set<nat>, maps: set<nat>) {
    log' <= log + maps + {b} && maps <= MapBlocks(l) && |maps| <= if there then 0 else 1
  }

  /** bmap logs blocks of the map, the block itself and the indirect block. */
  ghost predicate MapLog(f: Fs, f': Fs, ino: nat, bn: nat, b: nat, log: set<nat>, log': set<nat>, maps: set<nat>) {
    && log' <= log + maps + {b} + (if bn < NDIRECT then {} else {Addr(f', ino, NDIRECT)}) && maps <= MapBlocks(f.l)
    && |maps| <= (if Target(f, SlotOf(ino, bn)) != 0 then 0 else 1)
                 + if bn >= NDIRECT && Addr(f, ino, NDIRECT) == 0 then 1 else 0
  }

  lemma UnionSize(a: set<nat>, b: set<nat>)
    ensures |a + b| <= |a| + |b|
  {
    assert a + b == a + (b - a);
  }

  lemma EntryLog(f: Fs, f1: Fs, f2: Fs, ino: nat, bn: nat, a: nat, b: nat,
                 log: set<nat>, log1: set<nat>, log2: set<nat>, maps: set<nat>, maps1: set<nat>)
    requires NDIRECT <= bn < MAXFILE && AddrSet(f, f1, ino, NDIRECT, a) && EntrySet(f1, f2, ino, bn - NDIRECT, b)
    requires NewLog(f.l, Addr(f, ino, NDIRECT) != 0, a, log, log1, maps)
    requires log2 <= log1 + maps1 + {b, Addr(f2, ino, NDIRECT)} && maps1 <= MapBlocks(f.l)
    requires |maps1| <= if Target(f1, Entry(ino, bn - NDIRECT)) != 0 then 0 else 1
    ensures MapLog(f, f2, ino, bn, b, log, log2, maps + maps1)
  {
    UnionSize(maps, maps1);
  }

  // ----------------------------------------------------------------- itrunc

  /** The bits of `done` are cleared, of the direct addresses the first i are 0, and
      nothing else has changed. */
  ghost predicate Truncating(f: Fs, f': Fs, ino: nat, i: nat, done: set<Slot>) {
    && Laid(f) && Laid(f') && f'.l == f.l && BitsLess(f, f'.disk, Image(f, done)) && AllOf(done, ino)
    && f'.inodes.Keys == f.inodes.Keys && ino in f.inodes && f'.inodes[ino].size == f.inodes[ino].size
    && (forall x :: x in f.inodes && x != ino ==> f'.inodes[x] == f.inodes[x])
    && forall x :: 0 <= x <= NDIRECT ==> f'.inodes[ino].addrs[x] == if x < i then 0 else f.inodes[ino].addrs[x]
  }

  /** Exactly the direct slots below i that had a block are done, or those and the
      entries below j. */
  ghost predicate DoneUpTo(f: Fs, ino: nat, i: nat, j: nat, done: set<Slot>) {
    forall s: Slot :: s in done <==>
      s.ino == ino && Target(f, s) != 0 && match s { case Direct(_, x) => x < i case Entry(_, y) => y < j case Indirect(_) => false }
  }

  lemma TruncStart(f: Fs, ino: nat)
    requires Laid(f) && ino in f.inodes
    ensures Truncating(f, f, ino, 0, {}) && DoneUpTo(f, ino, 0, 0, {})
  {
  }

  /** Slot s is freed; its address, if it is one, is cleared too. */
  lemma TruncFree(f: Fs, f': Fs, ino: nat, i: nat, done: set<Slot>, s: Slot)
    requires Owned(f, {}) && Truncating(f, f', ino, i, done) && s !in done && s.ino == ino && Target(f, s) != 0
    ensures Target(f, s) < f.l.size && Used(f'.disk, f.l.bmapstart, Target(f, s))
    ensures BitsLess(f, FlipUsed(f'.disk, f.l.bmapstart, Target(f, s)), Image(f, done + {s})) && AllOf(done + {s}, ino)
  {
    ImageMore(f, done, s);
    assert BitAt(f, {}, Target(f, s));
    BitsLessMore(f, f'.disk, Image(f, done), Target(f, s));
  }

  /** Some slot of file ino refers to b. */
  ghost predicate BlockOf(f: Fs, ino: nat, b: nat) {
    b != 0 && exists s: Slot :: s.ino == ino && Target(f, s) == b
  }

  lemma TruncBits(f: Fs, ino: nat, done: set<Slot>)
    requires AllOf(done, ino) && forall s: Slot :: s.ino == ino && Target(f, s) != 0 ==> s in done
    ensures forall b: nat :: b in Image(f, done) <==> BlockOf(f, ino, b)
  {
  }

  lemma TruncEnd(f: Fs, f': Fs, ino: nat, done: set<Slot>, ip: Inode)
    requires Owned(f, {}) && Laid(f') && f'.l == f.l && BitsLess(f, f'.disk, Image(f, done)) && AllOf(done, ino)
    requires DoneUpTo(f, ino, NDIRECT, NINDIRECT, done - {Indirect(ino)})
    requires Target(f, Indirect(ino)) != 0 ==> Indirect(ino) in done
    requires ino in f.inodes && f'.inodes == f.inodes[ino := ip] && |ip.addrs| == NDIRECT + 1
    requires forall x :: 0 <= x <= NDIRECT ==> ip.addrs[x] == 0
    ensures Owned(f', {}) && forall i: nat, k: nat :: ByteAt(f', i, k) == if i == ino then 0 else ByteAt(f, i, k)
  {
    forall s: Slot | s.ino == ino && Target(f, s) != 0 ensures s in done {
      assert !s.Indirect? ==> s in done - {Indirect(ino)};
    }
    TruncOwned(f, f', ino, done);
  }

  // ------------------------------------------------------- readi and writei

  /** The file as a flat sequence of bytes. */
  ghost function Content(f: Fs, ino: nat): seq<byte>
    requires ino in f.inodes
  {
    seq(f.inodes[ino].size, k requires 0 <= k => ByteAt(f, ino, k))
  }

  /** Every block below the size of the file is there. */
  ghost predicate NoHoles(f: Fs, ino: nat)
    requires ino in f.inodes
  {
    forall bn: nat :: bn * BSIZE < f.inodes[ino].size ==> Target(f, SlotOf(ino, bn)) != 0
  }

  lemma OnlyAddrsTrans(f: Fs, f1: Fs, f2: Fs, ino: nat)
    requires OnlyAddrs(f, f1, ino) && OnlyAddrs(f1, f2, ino)
    ensures OnlyAddrs(f, f2, ino)
  {
  }

  lemma OnlyAddrsSelf(f: Fs, ino: nat)
    requires Laid(f) && ino in f.inodes
    ensures OnlyAddrs(f, f, ino)
  {
  }

  /** got are the bytes of the file from offset off on. */
  ghost predicate Got(f: Fs, ino: nat, off: nat, got: seq<byte>) {
    forall k: nat :: k < |got| ==> got[k] == ByteAt(f, ino, off + k)
  }

  /** readi's loop: got has been read, and no file has changed. */
  ghost predicate Reading(f: Fs, f': Fs, ino: nat, off: nat, got: seq<byte>) {
    Owned(f', {}) && SameBytes(f, f') && OnlyAddrs(f, f', ino) && Got(f, ino, off, got)
  }

  lemma ReadMore(f: Fs, f1: Fs, ino: nat, off: nat, got: seq<byte>, all: seq<byte>, at: nat, bn: nat, o: nat, m: nat, b: nat)
    requires SameBytes(f, f1) && at == off + |got| && bn == at / BSIZE && o == at % BSIZE && o + m <= BSIZE
    requires Target(f1, SlotOf(ino, bn)) == b && 0 < b < |f1.disk| && Got(f, ino, off, got)
    requires all == got + f1.disk[b][o..o + m]
    ensures Got(f, ino, off, all)
  {
    forall k: nat | k < |all| ensures all[k] == ByteAt(f, ino, off + k) {
      if k >= |got| {
        MoreAt(at, bn, o, m, off + k);
        assert ByteAt(f1, ino, off + k) == ByteAt(f, ino, off + k);
      }
    }
  }

  lemma GotContent(f: Fs, ino: nat, off: nat, got: seq<byte>)
    requires ino in f.inodes && Got(f, ino, off, got) && off + |got| <= f.inodes[ino].size
    ensures got == Content(f, ino)[off..off + |got|]
  {
  }

  /** Block bn holds some of the n bytes from offset off on. */
  predicate InRange(off: nat, n: nat, bn: nat) {
    n > 0 && off / BSIZE <= bn <= (off + n - 1) / BSIZE
  }

  lemma RangeMore(off: nat, n: nat, m: nat, at: nat, bn: nat)
    requires at == off + n && m > 0 && at % BSIZE + m <= BSIZE
    ensures InRange(off, n + m, bn) <==> InRange(off, n, bn) || bn == at / BSIZE
  {
    assert (at + m - 1) / BSIZE == at / BSIZE;
  }

  /** No address is lost. */
  ghost predicate TargetsStay(f: Fs, f': Fs) {
    forall s :: Target(f, s) != 0 ==> Target(f', s) == Target(f, s)
  }

  ghost predicate RangeThere(f: Fs, ino: nat, off: nat, n: nat) {
    forall bn: nat :: InRange(off, n, bn) ==> Target(f, SlotOf(ino, bn)) != 0
  }

  ghost predicate RangeBacked(ip: Inode, off: nat, n: nat)
    requires |ip.addrs| == NDIRECT + 1
  {
    forall bn: nat :: InRange(off, n, bn) ==> Backed(ip, bn)
  }

  /** src has been written at off, the blocks for it are there, and the inode is as it
      was just when it had all addresses on the way to them. */
  ghost predicate Filling(f: Fs, f': Fs, ino: nat, off: nat, src: seq<byte>) {
    && OnlyAddrs(f, f', ino) && Written(f, f', ino, off, src) && TargetsStay(f, f') && RangeThere(f', ino, off, |src|)
    && (f'.inodes[ino] == f.inodes[ino] <==> RangeBacked(f.inodes[ino], off, |src|))
  }

  lemma FillStart(f: Fs, ino: nat, off: nat)
    requires Laid(f) && ino in f.inodes
    ensures Filling(f, f, ino, off, [])
  {
    forall i: nat, k: nat ensures WrittenAt(f, f, ino, off, [], i, k) { }
  }

  lemma BackedLater(ip: Inode, ip': Inode, bn: nat)
    requires Grows(ip, ip') && Backed(ip, bn)
    ensures Backed(ip', bn)
  {
  }

  /** One round of writei, in inode and addresses. */
  lemma FillAddrs(f: Fs, f1: Fs, f2: Fs, ino: nat, off: nat, n: nat, m: nat, at: nat, bn: nat, b: nat)
    requires OnlyAddrs(f, f1, ino) && Mapped(f1, f2, ino, bn, b) && bn == at / BSIZE
    requires at == off + n && m > 0 && at % BSIZE + m <= BSIZE
    requires f1.inodes[ino] == f.inodes[ino] <==> RangeBacked(f.inodes[ino], off, n)
    ensures OnlyAddrs(f, f2, ino)
    ensures f2.inodes[ino] == f.inodes[ino] <==> RangeBacked(f.inodes[ino], off, n + m)
  {
    OnlyAddrsTrans(f, f1, f2, ino);
    var ip, ip1, ip2 := f.inodes[ino], f1.inodes[ino], f2.inodes[ino];
    assert RangeBacked(ip, off, n + m) <==> RangeBacked(ip, off, n) && Backed(ip, bn) by {
      forall x: nat ensures InRange(off, n + m, x) <==> InRange(off, n, x) || x == bn { RangeMore(off, n, m, at, x); }
      assert InRange(off, n + m, bn);
    }
    if Backed(ip, bn) { BackedLater(ip, ip1, bn); }
  }

  lemma FillThere(f1: Fs, f2: Fs, ino: nat, off: nat, n: nat, m: nat, at: nat, bn: nat, b: nat)
    requires RangeThere(f1, ino, off, n) && Mapped(f1, f2, ino, bn, b) && bn == at / BSIZE
    requires at == off + n && m > 0 && at % BSIZE + m <= BSIZE
    ensures RangeThere(f2, ino, off, n + m)
  {
    forall x: nat | InRange(off, n + m, x) ensures Target(f2, SlotOf(ino, x)) != 0 { RangeMore(off, n, m, at, x); }
  }

  /** bmap, then memmove and log_write: the loop body of writei. */
  lemma FillMore(f: Fs, f1: Fs, f2: Fs, f3: Fs, ino: nat, off: nat, src: seq<byte>, more: seq<byte>, at: nat, bn: nat, o: nat, b: nat, all: seq<byte>)
    requires Owned(f2, {}) && Filling(f, f1, ino, off, src) && Mapped(f1, f2, ino, bn, b) && |f2.disk| > b
    requires at == off + |src| && bn == at / BSIZE && o == at % BSIZE && 0 < |more| && o + |more| <= BSIZE && all == src + more
    requires f3 == PutData(f2, b, Patch(f2.disk[b], o, more))
    ensures Owned(f3, {}) && Filling(f, f3, ino, off, all)
  {
    WrittenSame(f, f1, f2, ino, off, src);
    WriteMore(f, f2, ino, off, src, more, at, bn, o, b, all);
    PutDataOwned(f2, ino, bn, Patch(f2.disk[b], o, more));
    FillAddrs(f, f1, f2, ino, off, |src|, |more|, at, bn, b);
    FillThere(f1, f2, ino, off, |src|, |more|, at, bn, b);
    forall x: nat | InRange(off, |all|, x) ensures Target(f3, SlotOf(ino, x)) != 0 {
      assert Target(f2, SlotOf(ino, x)) != 0;
    }
  }

  /** c with src at offset off, longer if need be. */
  function Splice(c: seq<byte>, off: nat, src: seq<byte>): seq<byte>
    requires off <= |c|
  {
    c[..off] + src + if off + |src| < |c| then c[off + |src|..] else []
  }

  /** A write replaces bytes of the file and may make it longer; other files stay. */
  ghost predicate Spliced(f: Fs, f': Fs, ino: nat, off: nat, src: seq<byte>) {
    && f'.inodes.Keys == f.inodes.Keys && ino in f.inodes && off <= f.inodes[ino].size
    && Content(f', ino) == Splice(Content(f, ino), off, src)
    && forall i :: i in f.inodes && i != ino ==> Content(f', i) == Content(f, i)
  }

  lemma WrittenSpliced(f: Fs, f': Fs, ino: nat, off: nat, src: seq<byte>)
    requires Written(f, f', ino, off, src) && f'.inodes.Keys == f.inodes.Keys && ino in f.inodes && off <= f.inodes[ino].size
    requires f'.inodes[ino].size == if off + |src| > f.inodes[ino].size then off + |src| else f.inodes[ino].size
    requires forall i :: i in f.inodes && i != ino ==> f'.inodes[i].size == f.inodes[i].size
    ensures Spliced(f, f', ino, off, src)
  {
    var c, c' := Content(f, ino), Content(f', ino);
    forall k | 0 <= k < |c'| ensures c'[k] == if off <= k < off + |src| then src[k - off] else c[k] {
      assert WrittenAt(f, f', ino, off, src, ino, k);
    }
    forall i | i in f.inodes && i != ino ensures Content(f', i) == Content(f, i) {
      forall k: nat | k < |Content(f, i)| ensures Content(f', i)[k] == Content(f, i)[k] {
        assert WrittenAt(f, f', ino, off, src, i, k);
      }
    }
  }

  /** What writei has done when it returns n: the bytes, the size, and the addresses. */
  ghost predicate WriteDone(f: Fs, f': Fs, ino: nat, off: nat, src: seq<byte>) {
    && Spliced(f, f', ino, off, src) && ino in f.inodes && ino in f'.inodes && f'.l == f.l
    && f'.inodes[ino].size == (if off + |src| > f.inodes[ino].size then off + |src| else f.inodes[ino].size)
    && |f.inodes[ino].addrs| == NDIRECT + 1
    && (f'.inodes[ino].addrs == f.inodes[ino].addrs <==> RangeBacked(f.inodes[ino], off, |src|))
    && (forall i :: i in f.inodes && i != ino ==> f'.inodes[i] == f.inodes[i])
    && TargetsStay(f, f') && RangeThere(f', ino, off, |src|)
  }

  /** The inode blocks after writei: it writes the inode back only when the file grew. */
  ghost function WrittenBack(dinodes: Inodes, inodes: Inodes, inodes': Inodes, ino: nat, end: nat): Inodes
    requires ino in inodes && ino in inodes'
  {
    if end > inodes[ino].size then dinodes[ino := inodes'[ino]] else dinodes
  }

  lemma FillEnd(f: Fs, f1: Fs, f2: Fs, ino: nat, off: nat, src: seq<byte>)
    requires Laid(f) && Filling(f, f1, ino, off, src) && off <= f.inodes[ino].size && f2.l == f1.l && f2.disk == f1.disk
    requires f2.inodes == if off + |src| > f.inodes[ino].size then f1.inodes[ino := f1.inodes[ino].(size := off + |src|)]
                          else f1.inodes
    ensures WriteDone(f, f2, ino, off, src) && (forall s :: Target(f2, s) == Target(f1, s))
  {
    SizeTargets(f1, f2, ino);
    forall i: nat, k: nat ensures WrittenAt(f, f2, ino, off, src, i, k) {
      assert WrittenAt(f, f1, ino, off, src, i, k);
    }
    WrittenSpliced(f, f2, ino, off, src);
    forall bn: nat | InRange(off, |src|, bn) ensures Target(f2, SlotOf(ino, bn)) != 0 {
      assert Target(f1, SlotOf(ino, bn)) != 0;
    }
  }

  lemma SizeTargets(f: Fs, f': Fs, ino: nat)
    requires f'.disk == f.disk && f'.inodes.Keys == f.inodes.Keys
    requires forall i :: i in f.inodes ==> f'.inodes[i].addrs == f.inodes[i].addrs
    ensures (forall s :: Target(f', s) == Target(f, s)) && SameBytes(f, f')
  {
    forall s ensures Target(f', s) == Target(f, s) { }
  }

  // ------------------------------------------- how much a write gives to the log

  /** The blocks a write has logged so far: data blocks, blocks of the free map, and
      how many blocks it allocated for data and for the indirect block. */
  datatype Tally = Tally(data: set<nat>, maps: set<nat>, rounds: nat, allocs: nat, indirects: nat)

  ghost predicate Tallied(t: Tally, f: Fs, f': Fs, ino: nat, off: nat, log: set<nat>, log': set<nat>) {
    && log' <= log + t.data + t.maps + (if Addr(f', ino, NDIRECT) != 0 then {Addr(f', ino, NDIRECT)} else {})
    && t.maps <= MapBlocks(f.l) && |t.data| <= t.rounds && |t.maps| <= t.allocs + t.indirects
    && (if t.indirects == 0 then true else t.indirects == 1 && Addr(f', ino, NDIRECT) != 0)
    && t.allocs + (if t.rounds > 0 && Target(f, SlotOf(ino, off / BSIZE)) != 0 then 1 else 0) <= t.rounds
  }

  function Counted(t: Tally, b: nat, maps: set<nat>, alloc: bool, indirect: bool): Tally {
    Tally(t.data + {b}, t.maps + maps, t.rounds + 1, t.allocs + (if alloc then 1 else 0), t.indirects + (if indirect then 1 else 0))
  }

  lemma TallyMore(t: Tally, t': Tally, f: Fs, f1: Fs, f2: Fs, ino: nat, off: nat, bn: nat, b: nat,
                  log: set<nat>, log1: set<nat>, log2: set<nat>, maps: set<nat>)
    requires Tallied(t, f, f1, ino, off, log, log1) && TargetsStay(f, f1) && Mapped(f1, f2, ino, bn, b) && f1.l == f.l
    requires MapLog(f1, f2, ino, bn, b, log1, log2, maps) && (t.rounds == 0 ==> bn == off / BSIZE)
    requires t' == Counted(t, b, maps, Target(f1, SlotOf(ino, bn)) == 0, bn >= NDIRECT && Addr(f1, ino, NDIRECT) == 0)
    ensures Tallied(t', f, f2, ino, off, log, log2 + {b})
  {
    UnionSize(t.data, {b});
    UnionSize(t.maps, maps);
    assert Target(f1, Indirect(ino)) == Addr(f1, ino, NDIRECT) && Target(f2, Indirect(ino)) == Addr(f2, ino, NDIRECT);
  }

  /** Rounds of writei for n bytes at off, when |src| have been written. */
  function Rounds(off: nat, n: nat): nat {
    if n == 0 then 0 else (off + n - 1) / BSIZE - off / BSIZE + 1
  }

  lemma RoundsMore(off: nat, n: nat, m: nat, at: nat)
    requires at == off + n && m > 0 && at % BSIZE + m <= BSIZE && (n > 0 ==> at % BSIZE == 0)
    ensures Rounds(off, n + m) == Rounds(off, n) + 1
  {
    assert (at + m - 1) / BSIZE == at / BSIZE;
    if n > 0 { assert (at - 1) / BSIZE == at / BSIZE - 1; }
  }

  /** The largest chunk of filewrite: three blocks. */
  const CHUNK: nat := (10 - 1 - 1 - 2) / 2 * 512

  /** A chunk at an offset inside a file without holes logs at most 10 blocks, and at
      most 7 if the free map is one block. */
  lemma ChunkLogs(t: Tally, f: Fs, f': Fs, ino: nat, off: nat, n: nat, log: set<nat>, inode: nat)
    requires Tallied(t, f, f', ino, off, {}, log) && ino in f.inodes && n <= CHUNK && t.rounds == Rounds(off, n)
    requires NoHoles(f, ino) && off <= f.inodes[ino].size
    ensures |log + {inode}| <= if f.l.size <= BPB then 7 else 10
  {
    var ind := if Addr(f', ino, NDIRECT) != 0 then {Addr(f', ino, NDIRECT)} else {};
    var rest := t.data + ind + {inode};
    if off % BSIZE != 0 {
      assert off / BSIZE * BSIZE < off;
      assert Target(f, SlotOf(ino, off / BSIZE)) != 0;
    }
    assert |t.maps| <= 4 && t.rounds <= 4;
    UnionSize(t.data, ind);
    UnionSize(t.data + ind, {inode});
    UnionSize(rest, t.maps);
    Sets.SubsetSize(log + {inode}, rest + t.maps);
    if f.l.size <= BPB {
      assert t.maps <= {f.l.bmapstart};
      Sets.SubsetSize(t.maps, {f.l.bmapstart});
    }
  }

  /** A write under way: src has been written at off and tallied, from f and log on. */
  datatype Job = Job(t: Tally, f: Fs, f': Fs, ino: nat, off: nat, src: seq<byte>, log: set<nat>, log': set<nat>)

  ghost predicate Progress(j: Job) {
    && Owned(j.f', {}) && Filling(j.f, j.f', j.ino, j.off, j.src) && Tallied(j.t, j.f, j.f', j.ino, j.off, j.log, j.log')
    && j.t.rounds == Rounds(j.off, |j.src|)
  }

  /** Progress, unfolded only where it is mentioned. */
  ghost predicate Going(j: Job) {
    forall k {:trigger Progress(k)} :: k == j ==> Progress(k)
  }

  lemma TallySame(t: Tally, f: Fs, f1: Fs, f2: Fs, ino: nat, off: nat, log: set<nat>, log': set<nat>)
    requires Tallied(t, f, f1, ino, off, log, log') && Addr(f2, ino, NDIRECT) == Addr(f1, ino, NDIRECT)
    ensures Tallied(t, f, f2, ino, off, log, log')
  {
  }

  /** The counting of one round of writei. */
  lemma RoundTally(t: Tally, t': Tally, f: Fs, f1: Fs, f2: Fs, f3: Fs, ino: nat, off: nat, bn: nat, b: nat,
                   log: set<nat>, log1: set<nat>, log2: set<nat>, log3: set<nat>, maps: set<nat>)
    requires Tallied(t, f, f1, ino, off, log, log1) && TargetsStay(f, f1) && Mapped(f1, f2, ino, bn, b) && f1.l == f.l
    requires MapLog(f1, f2, ino, bn, b, log1, log2, maps) && (t.rounds == 0 ==> bn == off / BSIZE)
    requires t' == Counted(t, b, maps, Target(f1, SlotOf(ino, bn)) == 0, bn >= NDIRECT && Addr(f1, ino, NDIRECT) == 0)
    requires Addr(f3, ino, NDIRECT) == Addr(f2, ino, NDIRECT) && log3 == log2 + {b}
    ensures Tallied(t', f, f3, ino, off, log, log3)
  {
    TallyMore(t, t', f, f1, f2, ino, off, bn, b, log, log1, log2, maps);
    TallySame(t', f, f2, f3, ino, off, log, log3);
  }

  lemma GoingStart(t: Tally, f: Fs, ino: nat, off: nat, log: set<nat>)
    requires Owned(f, {}) && ino in f.inodes && t == Tally({}, {}, 0, 0, 0)
    ensures Going(Job(t, f, f, ino, off, [], log, log))
  {
    FillStart(f, ino, off);
    assert Progress(Job(t, f, f, ino, off, [], log, log));
  }

  lemma GoingValid(j: Job)
    requires Going(j)
    ensures Owned(j.f', {}) && j.ino in j.f'.inodes
  {
    assert Progress(j);
  }

  /** One round of writei. */
  lemma GoingOn(j: Job, j': Job, f2: Fs, log2: set<nat>, more: seq<byte>, at: nat, bn: nat, o: nat, b: nat, maps: set<nat>)
    requires Going(j) && Owned(f2, {}) && Mapped(j.f', f2, j.ino, bn, b) && MapLog(j.f', f2, j.ino, bn, b, j.log', log2, maps)
    requires at == j.off + |j.src| && bn == at / BSIZE && o == at % BSIZE && 0 < |more| && o + |more| <= BSIZE
    requires (|j.src| > 0 ==> o == 0) && b < |f2.disk|
    requires j'.t == Counted(j.t, b, maps, Target(j.f', SlotOf(j.ino, bn)) == 0, bn >= NDIRECT && Addr(j.f', j.ino, NDIRECT) == 0)
    requires j' == Job(j'.t, j.f, PutData(f2, b, Patch(f2.disk[b], o, more)), j.ino, j.off, j.src + more, j.log, log2 + {b})
    ensures Going(j')
  {
    GoingFill(j, j', f2, more, at, bn, o, b);
    GoingTally(j, j', f2, log2, at, bn, b, maps);
    GoingRounds(j, j', more, at);
    assert Progress(j');
  }

  lemma GoingFill(j: Job, j': Job, f2: Fs, more: seq<byte>, at: nat, bn: nat, o: nat, b: nat)
    requires Going(j) && Owned(f2, {}) && Mapped(j.f', f2, j.ino, bn, b)
    requires at == j.off + |j.src| && bn == at / BSIZE && o == at % BSIZE && 0 < |more| && o + |more| <= BSIZE && b < |f2.disk|
    requires j'.f == j.f && j'.f' == PutData(f2, b, Patch(f2.disk[b], o, more))
    requires j'.ino == j.ino && j'.off == j.off && j'.src == j.src + more
    ensures Owned(j'.f', {}) && Filling(j'.f, j'.f', j'.ino, j'.off, j'.src)
  {
    assert Progress(j);
    FillMore(j.f, j.f', f2, j'.f', j.ino, j.off, j.src, more, at, bn, o, b, j'.src);
  }

  lemma GoingTally(j: Job, j': Job, f2: Fs, log2: set<nat>, at: nat, bn: nat, b: nat, maps: set<nat>)
    requires Going(j) && Mapped(j.f', f2, j.ino, bn, b) && MapLog(j.f', f2, j.ino, bn, b, j.log', log2, maps)
    requires at == j.off + |j.src| && bn == at / BSIZE
    requires j'.t == Counted(j.t, b, maps, Target(j.f', SlotOf(j.ino, bn)) == 0, bn >= NDIRECT && Addr(j.f', j.ino, NDIRECT) == 0)
    requires j'.f == j.f && j'.ino == j.ino && j'.off == j.off && j'.log == j.log && j'.log' == log2 + {b}
    requires Addr(j'.f', j.ino, NDIRECT) == Addr(f2, j.ino, NDIRECT)
    ensures Tallied(j'.t, j'.f, j'.f', j'.ino, j'.off, j'.log, j'.log')
  {
    assert Progress(j);
    RoundTally(j.t, j'.t, j.f, j.f', f2, j'.f', j.ino, j.off, bn, b, j.log, j.log', log2, j'.log', maps);
  }

  lemma GoingRounds(j: Job, j': Job, more: seq<byte>, at: nat)
    requires Going(j) && at == j.off + |j.src| && 0 < |more| && at % BSIZE + |more| <= BSIZE && (|j.src| > 0 ==> at % BSIZE == 0)
    requires j'.off == j.off && j'.src == j.src + more && j'.t.rounds == j.t.rounds + 1
    ensures j'.t.rounds == Rounds(j'.off, |j'.src|)
  {
    assert Progress(j);
    RoundsMore(j.off, |j.src|, |more|, at);
  }

  /** m bytes of the n that are left fit into the block of offset at. */
  lemma ChunkFits(at: nat, n: nat, m: nat)
    requires n > 0 && m == if n < BSIZE - at % BSIZE then n else BSIZE - at % BSIZE
    ensures 0 < m <= n && at % BSIZE + m <= BSIZE && (m < n ==> (at + m) % BSIZE == 0)
  {
  }

  lemma SizeKeeps(f: Fs, f': Fs)
    requires Owned(f, {}) && Laid(f') && f'.l == f.l && f'.disk == f.disk && (forall s :: Target(f', s) == Target(f, s))
    ensures Owned(f', {})
  {
    OwnedSame(f, f', {});
  }

  // ------------------------------------------------------------- filewrite

  /** A file without holes stays so. */
  lemma StaysFull(f: Fs, f': Fs, ino: nat, off: nat, src: seq<byte>)
    requires WriteDone(f, f', ino, off, src) && NoHoles(f, ino) && off <= f.inodes[ino].size
    ensures NoHoles(f', ino)
  {
    forall bn: nat | bn * BSIZE < f'.inodes[ino].size ensures Target(f', SlotOf(ino, bn)) != 0 {
      if bn * BSIZE < f.inodes[ino].size {
        assert Target(f, SlotOf(ino, bn)) != 0;
      } else {
        assert InRange(off, |src|, bn);
      }
    }
  }

  /** The inode in memory agrees with its inode block after a write just when the file
      grew or the addresses for the written range were there. */
  lemma WriteBackExactly(f: Fs, f': Fs, ino: nat, off: nat, src: seq<byte>, dinodes: Inodes)
    requires WriteDone(f, f', ino, off, src) && ino in dinodes && dinodes[ino] == f.inodes[ino]
    ensures WrittenBack(dinodes, f.inodes, f'.inodes, ino, off + |src|)[ino] == f'.inodes[ino]
            <==> off + |src| > f.inodes[ino].size || RangeBacked(f.inodes[ino], off, |src|)
  {
  }

  /** Without holes it always does. */
  lemma BackAgain(f: Fs, f': Fs, ino: nat, off: nat, src: seq<byte>)
    requires WriteDone(f, f', ino, off, src) && NoHoles(f, ino) && off <= f.inodes[ino].size
    ensures WrittenBack(f.inodes, f.inodes, f'.inodes, ino, off + |src|) == f'.inodes
  {
    if off + |src| <= f.inodes[ino].size {
      forall bn: nat | InRange(off, |src|, bn) ensures Backed(f.inodes[ino], bn) {
        assert bn * BSIZE < f.inodes[ino].size;
        assert Target(f, SlotOf(ino, bn)) != 0;
      }
    }
  }

  /** writei into a hole: block b for block bn of the file, with src at its beginning. */
  function HoleFilled(f: Fs, ino: nat, bn: nat, b: nat, src: seq<byte>): Fs
    requires Laid(f) && ino in f.inodes && bn < NDIRECT && b < f.l.size && |src| <= BSIZE
  {
    MapBelow(f, b);
    var f2 := SetAddr(Alloc(f, b), ino, bn, b);
    PutData(f2, b, Patch(f2.disk[b], 0, src))
  }

  /** With a hole it does not: a write inside the size gets a block that the inode block
      does not know of. */
  lemma HoleNotWrittenBack(f: Fs, ino: nat, bn: nat, b: nat, src: seq<byte>)
    requires Owned(f, {}) && ino in f.inodes && bn < NDIRECT && Addr(f, ino, bn) == 0
    requires b < f.l.size && !Used(f.disk, f.l.bmapstart, b) && 0 < |src| <= BSIZE && bn * BSIZE + |src| <= f.inodes[ino].size
    ensures var f' := HoleFilled(f, ino, bn, b, src);
      && Owned(f', {}) && WriteDone(f, f', ino, bn * BSIZE, src) && f'.inodes[ino].addrs[bn] == b
      && WrittenBack(f.inodes, f.inodes, f'.inodes, ino, bn * BSIZE + |src|) == f.inodes != f'.inodes
  {
    var f1, off := Alloc(f, b), bn * BSIZE;
    var f2 := SetAddr(f1, ino, bn, b);
    AddrMade(f, f1, f2, ino, bn, b);
    MappedDirect(f, f2, ino, bn, b);
    FillStart(f, ino, off);
    var f3 := HoleFilled(f, ino, bn, b, src);
    FillMore(f, f, f2, f3, ino, off, [], src, off, bn, 0, b, src);
    FillEnd(f, f3, f3, ino, off, src);
    assert f3.inodes[ino].addrs[bn] == b != 0;
  }

  /** A sequence of writes so far: src is in the file at off. */
  ghost predicate Writing(f: Fs, f': Fs, ino: nat, off: nat, src: seq<byte>) {
    && Owned(f', {}) && Spliced(f, f', ino, off, src) && ino in f'.inodes && off + |src| <= f'.inodes[ino].size
    && f'.l == f.l && (NoHoles(f, ino) ==> NoHoles(f', ino))
  }

  lemma SplicedStart(f: Fs, ino: nat, off: nat)
    requires Owned(f, {}) && ino in f.inodes && off <= f.inodes[ino].size
    ensures Writing(f, f, ino, off, [])
  {
    assert Content(f, ino)[..off] + [] + Content(f, ino)[off..] == Content(f, ino);
  }

  /** Two writes, one after the other, are one. */
  lemma SpliceTwice(c: seq<byte>, c1: seq<byte>, off: nat, src: seq<byte>, more: seq<byte>, at: nat)
    requires off <= |c| && at == off + |src| && c1 == Splice(c, off, src)
    ensures at <= |c1| && Splice(c1, at, more) == Splice(c, off, src + more)
  {
  }

  lemma WritingMore(f: Fs, f1: Fs, f2: Fs, ino: nat, off: nat, src: seq<byte>, more: seq<byte>, at: nat)
    requires Writing(f, f1, ino, off, src) && WriteDone(f1, f2, ino, at, more) && Owned(f2, {}) && at == off + |src|
    ensures Writing(f, f2, ino, off, src + more)
  {
    if NoHoles(f1, ino) { StaysFull(f1, f2, ino, at, more); }
    SpliceTwice(Content(f, ino), Content(f1, ino), off, src, more, at);
  }

  datatype Stretch = Stretch(f: Fs, f': Fs, ino: nat, off: nat, src: seq<byte>)

  ghost predicate WritingIs(j: Stretch) {
    Writing(j.f, j.f', j.ino, j.off, j.src)
  }

  /** Writing, unfolded only where WritingIs is mentioned. */
  ghost predicate Underway(j: Stretch) {
    forall k {:trigger WritingIs(k)} :: k == j ==> WritingIs(k)
  }

  lemma UnderwayStart(f: Fs, ino: nat, off: nat)
    requires Owned(f, {}) && ino in f.inodes && off <= f.inodes[ino].size
    ensures Underway(Stretch(f, f, ino, off, []))
  {
    SplicedStart(f, ino, off);
    assert WritingIs(Stretch(f, f, ino, off, []));
  }

  lemma UnderwayMore(j: Stretch)
    requires Writing(j.f, j.f', j.ino, j.off, j.src)
    ensures Underway(j)
  {
    assert WritingIs(j);
  }

  lemma UnderwayEnd(j: Stretch)
    requires Underway(j)
    ensures Writing(j.f, j.f', j.ino, j.off, j.src)
  {
    assert WritingIs(j);
  }
}
