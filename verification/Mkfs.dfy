/** The image that mkfs.c makes: blocks are handed out in order, and the free map is written
    last, for all that were. */
module Mkfs {
  import opened Blocks
  import opened Bitmap
  import opened BlockTree
  import opened FileSteps
  import opened Options
  import Sets
  import DiskNeed

  /** The map block with the first n bits set. */
  function SetBits(n: nat): Block
    requires n <= BPB
  {
    if n == 0 then ZeroBlock else FlipBlock(SetBits(n - 1), n - 1)
  }

  lemma {:induction false} ZeroBit(k: nat)
    ensures !Bit(0, k)
  {
    if k > 0 { ZeroBit(k - 1); }
  }

  lemma {:induction false} SetBitsBit(n: nat, j: nat)
    requires n <= BPB && j < BPB
    ensures BlockBit(SetBits(n), j) <==> j < n
  {
    if n == 0 {
      ZeroBit(j % 8);
    } else {
      SetBitsBit(n - 1, j);
      SetBitsBit(n - 1, n - 1);
      FlipBlockBit(SetBits(n - 1), n - 1, j);
    }
  }

  /** The image with the map for its first n blocks. */
  function WithMap(f: Fs, n: nat): Fs
    requires f.l.bmapstart < |f.disk| && n <= BPB
  {
    f.(disk := f.disk[f.l.bmapstart := SetBits(n)])
  }

  /** n blocks have been handed out; the others are zero. With the map it would have now,
      the image is consistent. */
  ghost predicate Packed(f: Fs, n: nat) {
    && f.l.nmeta <= n <= f.l.size <= BPB && f.l.bmapstart < f.l.nmeta && f.l.size <= |f.disk|
    && Owned(WithMap(f, n), {}) && forall b :: n <= b < |f.disk| ==> f.disk[b] == ZeroBlock
  }

  lemma MapSays(f: Fs, n: nat, b: nat)
    requires Packed(f, n) && b < f.l.size
    ensures Used(WithMap(f, n).disk, f.l.bmapstart, b) <==> b < n
  {
    SetBitsBit(n, b);
  }

  /** The blocks that are left are those behind the last one handed out. */
  lemma PackedSpare(f: Fs, n: nat)
    requires Packed(f, n)
    ensures Laid(WithMap(f, n)) && DiskNeed.Spare(WithMap(f, n)) == f.l.size - n
  {
    forall b: nat | b < f.l.size ensures b in DiskNeed.FreeBlocks(WithMap(f, n)) <==> n <= b { MapSays(f, n, b); }
    assert DiskNeed.FreeBlocks(WithMap(f, n)) == Sets.Between(n, f.l.size);
    Sets.BetweenSize(n, f.l.size);
  }

  /** Handing out block n is what balloc of the kernel would do. */
  lemma NextBlock(f: Fs, n: nat)
    requires Packed(f, n) && n < f.l.size
    ensures Alloc(WithMap(f, n), n) == WithMap(f, n + 1)
  {
    var d := f.disk[f.l.bmapstart := SetBits(n)];
    assert FlipUsed(d, f.l.bmapstart, n) == f.disk[f.l.bmapstart := SetBits(n + 1)];
    assert f.disk[f.l.bmapstart := SetBits(n + 1)][n := ZeroBlock] == f.disk[f.l.bmapstart := SetBits(n + 1)];
  }

  /** As an image without files: mkfs begins by zeroing every block. */
  lemma BlankPacked(f: Fs)
    requires 0 < f.l.nmeta <= f.l.size <= BPB && f.l.bmapstart < f.l.nmeta && f.l.size <= |f.disk|
    requires (forall b :: 0 <= b < |f.disk| ==> f.disk[b] == ZeroBlock) && forall ino :: ino in f.inodes ==> f.inodes[ino] == Inode(0, seq(NDIRECT + 1, _ => 0))
    ensures Packed(f, f.l.nmeta)
  {
    var g := WithMap(f, f.l.nmeta);
    forall b: nat | b < f.l.size ensures Used(g.disk, f.l.bmapstart, b) <==> b < f.l.nmeta { SetBitsBit(f.l.nmeta, b); }
    FreshOwned(g);
  }

  lemma AddrPacked(f: Fs, n: nat, ino: nat, i: nat)
    requires Packed(f, n) && n < f.l.size && ino in f.inodes && i <= NDIRECT && Addr(f, ino, i) == 0 && |f.inodes[ino].addrs| == NDIRECT + 1
    ensures Packed(SetAddr(f, ino, i, n), n + 1)
    ensures AddrSet(WithMap(f, n), WithMap(SetAddr(f, ino, i, n), n + 1), ino, i, n)
  {
    MapSays(f, n, n);
    NextBlock(f, n);
    AddrMade(WithMap(f, n), WithMap(f, n + 1), SetAddr(WithMap(f, n + 1), ino, i, n), ino, i, n);
    assert SetAddr(WithMap(f, n + 1), ino, i, n) == WithMap(SetAddr(f, ino, i, n), n + 1);
  }

  lemma EntryPacked(f: Fs, n: nat, ino: nat, j: nat)
    requires Packed(f, n) && n < f.l.size && j < NINDIRECT && f.l.nmeta <= Addr(f, ino, NDIRECT) < n && Target(f, Entry(ino, j)) == 0
    ensures Packed(SetEntry(f, ino, j, n), n + 1)
    ensures EntrySet(WithMap(f, n), WithMap(SetEntry(f, ino, j, n), n + 1), ino, j, n)
  {
    MapSays(f, n, n);
    NextBlock(f, n);
    EntryMade(WithMap(f, n), WithMap(f, n + 1), SetEntry(WithMap(f, n + 1), ino, j, n), ino, j, n);
    assert SetEntry(WithMap(f, n + 1), ino, j, n) == WithMap(SetEntry(f, ino, j, n), n + 1);
  }

  /** A data block of a file gets new bytes. */
  lemma PutPacked(f: Fs, n: nat, ino: nat, bn: nat, b: nat, data: Block)
    requires Packed(f, n) && Target(f, SlotOf(ino, bn)) == b != 0 && f.l.nmeta <= b < n
    ensures Packed(PutData(f, b, data), n) && WithMap(PutData(f, b, data), n) == PutData(WithMap(f, n), b, data)
  {
    SameTarget(f, n, SlotOf(ino, bn));
    PutDataOwned(WithMap(f, n), ino, bn, data);
    assert WithMap(PutData(f, b, data), n) == PutData(WithMap(f, n), b, data);
  }

  /** The map is no block of a file. */
  lemma SameTarget(f: Fs, n: nat, s: Slot)
    requires Packed(f, n)
    ensures Target(WithMap(f, n), s) == Target(f, s) && (Target(f, s) != 0 ==> f.l.nmeta <= Target(f, s) < n)
  {
    var g := WithMap(f, n);
    if s.Entry? && Addr(g, s.ino, NDIRECT) != 0 { IndirectApart(g, s.ino); }
    if Target(g, s) != 0 {
      MapSays(f, n, Target(g, s));
      assert BitAt(g, {}, Target(g, s)) && Taken(g, Target(g, s));
    }
  }

  /** What indirect[j] is then, and the image. */
  function EntryStep(f: Fs, n: nat, ino: nat, j: nat): (Fs, nat, nat)
    requires j < NINDIRECT && Addr(f, ino, NDIRECT) < |f.disk| && n < WORD_LIMIT
  {
    var x := Word(f.disk[Addr(f, ino, NDIRECT)], j);
    if x == 0 then (SetEntry(f, ino, j, n), n + 1, n) else (f, n, x)
  }

  lemma EntryStepPacked(f: Fs, n: nat, ino: nat, j: nat)
    requires Packed(f, n) && j < NINDIRECT && f.l.nmeta <= Addr(f, ino, NDIRECT) < n && (Target(f, Entry(ino, j)) == 0 ==> n < f.l.size)
    ensures var (f', n', x) := EntryStep(f, n, ino, j);
      Packed(f', n') && EntrySet(WithMap(f, n), WithMap(f', n'), ino, j, x)
  {
    if Target(f, Entry(ino, j)) == 0 { EntryPacked(f, n, ino, j); } else { EntryThere(f, n, ino, j); }
  }

  lemma EntryThere(f: Fs, n: nat, ino: nat, j: nat)
    requires Packed(f, n) && Target(f, Entry(ino, j)) != 0
    ensures EntrySet(WithMap(f, n), WithMap(f, n), ino, j, Target(f, Entry(ino, j)))
  {
    SameTarget(f, n, Entry(ino, j));
    EntryKept(WithMap(f, n), ino, j);
  }

  /** An append of `want` bytes that has come so far: src is in the blocks of the file, behind
      off. */
  datatype Part = Part(g: Fs, f: Fs, n: nat, ino: nat, off: nat, src: seq<byte>, want: nat)

  ghost predicate Begun(p: Part) {
    && Packed(p.f, p.n) && Laid(p.g) && Filling(p.g, WithMap(p.f, p.n), p.ino, p.off, p.src) && p.ino in p.f.inodes
    && p.ino in p.g.inodes && p.g.inodes[p.ino].size == p.off == p.f.inodes[p.ino].size
    && (forall bn: nat :: BesideAt(p.g, p.f, p.ino, p.off, |p.src|, bn)) && OthersStill(p.g, WithMap(p.f, p.n), p.ino)
    && DiskNeed.Supplied(Orders(p)) && p.g.l.size == p.f.l.size
    && (Addr(p.f, p.ino, NDIRECT) == Addr(p.g, p.ino, NDIRECT) || p.off + |p.src| > NDIRECT * BSIZE)
  }

  /** In terms of the blocks it takes. */
  ghost function Orders(p: Part): DiskNeed.Order
    requires Packed(p.f, p.n)
  {
    DiskNeed.Order(p.g, WithMap(p.f, p.n), p.ino, p.off, p.want, |p.src|)
  }

  /** No slot of another file has changed. */
  ghost predicate OthersStill(g: Fs, g': Fs, ino: nat) {
    forall s: Slot :: s.ino != ino ==> Target(g', s) == Target(g, s)
  }

  /** Outside the range no block came. */
  ghost predicate BesideAt(g: Fs, f: Fs, ino: nat, off: nat, n: nat, bn: nat) {
    InRange(off, n, bn) || Target(f, SlotOf(ino, bn)) == Target(g, SlotOf(ino, bn))
  }

  /** (Bound to p, so that only proofs that speak of Begun unfold it.) */
  ghost predicate Under(p: Part) {
    forall q {:trigger Begun(q)} :: q == p ==> Begun(q)
  }

  lemma Begin(f: Fs, n: nat, ino: nat, off: nat, want: nat)
    requires Packed(f, n) && ino in f.inodes && off == f.inodes[ino].size
    ensures Under(Part(WithMap(f, n), f, n, ino, off, [], want))
  {
    DiskNeed.SuppliedStart(WithMap(f, n), ino, off, want);
    FillStart(WithMap(f, n), ino, off);
    forall bn: nat ensures BesideAt(WithMap(f, n), f, ino, off, 0, bn) { SameTarget(f, n, SlotOf(ino, bn)); }
  }

  lemma UnderPacked(p: Part)
    requires Under(p)
    ensures Packed(p.f, p.n) && p.ino in p.f.inodes && Laid(p.g)
  {
    assert Begun(p);
  }

  /** There is no block for the next byte: there are too few for the whole. */
  lemma NoMore(p: Part, at: nat, fbn: nat)
    requires Under(p) && Packed(p.f, p.n) && Laid(p.g) && |p.src| < p.want && at == p.off + |p.src| && fbn == at / BSIZE
    requires fbn >= MAXFILE || DiskNeed.Lacks(WithMap(p.f, p.n), p.ino, fbn) > p.f.l.size - p.n
    ensures DiskNeed.TooMuch(p.g, p.ino, p.off, p.want)
  {
    assert Begun(p);
    PackedSpare(p.f, p.n);
    DiskNeed.SuppliedNoMore(Orders(p), fbn);
  }

  lemma Continue(p: Part, f1: Fs, n1: nat, p': Part, at: nat, fbn: nat, o: nat, x: nat, more: seq<byte>, data: Block)
    requires Under(p) && Packed(p.f, p.n) && Packed(f1, n1) && Mapped(WithMap(p.f, p.n), WithMap(f1, n1), p.ino, fbn, x)
    requires at == p.off + |p.src| && fbn == at / BSIZE && o == at % BSIZE && 0 < |more| && o + |more| <= BSIZE
    requires x < |f1.disk| && data == Patch(f1.disk[x], o, more) && fbn < MAXFILE && |p.src + more| <= p.want && f1.l == p.f.l
    requires DiskNeed.Opened(WithMap(p.f, p.n), WithMap(f1, n1), p.ino, fbn) && n1 == p.n + DiskNeed.Lacks(WithMap(p.f, p.n), p.ino, fbn)
    requires p' == Part(p.g, PutData(f1, x, data), n1, p.ino, p.off, p.src + more, p.want)
    ensures Under(p')
  {
    assert Begun(p);
    ContinueOrders(p, f1, n1, p', at, fbn, o, x, data);
    ContinueFill(p, f1, n1, p', at, fbn, o, x, more, data);
    forall bn: nat ensures BesideAt(p.g, p'.f, p.ino, p.off, |p'.src|, bn) {
      assert BesideAt(p.g, p.f, p.ino, p.off, |p.src|, bn);
      RangeMore(p.off, |p.src|, |more|, at, bn);
      BesideMore(p, WithMap(f1, n1), p'.f, n1, fbn, bn);
    }
    assert Begun(p');
  }

  lemma ContinueFill(p: Part, f1: Fs, n1: nat, p': Part, at: nat, fbn: nat, o: nat, x: nat, more: seq<byte>, data: Block)
    requires Begun(p) && Packed(f1, n1) && Mapped(WithMap(p.f, p.n), WithMap(f1, n1), p.ino, fbn, x)
    requires at == p.off + |p.src| && fbn == at / BSIZE && o == at % BSIZE && 0 < |more| && o + |more| <= BSIZE
    requires x < |f1.disk| && data == Patch(f1.disk[x], o, more)
    requires DiskNeed.OnlyOn(WithMap(p.f, p.n), WithMap(f1, n1), p.ino, fbn)
    requires p' == Part(p.g, PutData(f1, x, data), n1, p.ino, p.off, p.src + more, p.want)
    ensures Packed(p'.f, p'.n) && SameTargets(WithMap(f1, n1), WithMap(p'.f, p'.n))
    ensures Filling(p.g, WithMap(p'.f, p'.n), p.ino, p.off, p'.src) && OthersStill(p.g, WithMap(p'.f, p'.n), p.ino)
    ensures p.ino in p'.f.inodes && p'.f.inodes[p.ino].size == p.off
    ensures Addr(p'.f, p.ino, NDIRECT) == Addr(p.g, p.ino, NDIRECT) || p.off + |p'.src| > NDIRECT * BSIZE
  {
    SameTarget(f1, n1, SlotOf(p.ino, fbn));
    PutPacked(f1, n1, p.ino, fbn, x, data);
    var g2 := WithMap(f1, n1);
    assert g2.disk[x] == f1.disk[x];
    FillMore(p.g, WithMap(p.f, p.n), g2, PutData(g2, x, data), p.ino, p.off, p.src, more, at, fbn, o, x, p'.src);
    PutDataOwned(g2, p.ino, fbn, data);
    assert fbn < NDIRECT ==> Target(g2, Indirect(p.ino)) == Target(WithMap(p.f, p.n), Indirect(p.ino));
  }

  lemma ContinueOrders(p: Part, f1: Fs, n1: nat, p': Part, at: nat, fbn: nat, o: nat, x: nat, data: Block)
    requires Packed(p.f, p.n) && DiskNeed.Supplied(Orders(p)) && Packed(f1, n1) && Target(WithMap(f1, n1), SlotOf(p.ino, fbn)) == x != 0
    requires at == p.off + |p.src| && fbn == at / BSIZE < MAXFILE && o == at % BSIZE && x < |f1.disk| && f1.l == p.f.l
    requires |p.src| < |p'.src| <= p.want && o + |p'.src| - |p.src| <= BSIZE
    requires DiskNeed.Opened(WithMap(p.f, p.n), WithMap(f1, n1), p.ino, fbn) && n1 == p.n + DiskNeed.Lacks(WithMap(p.f, p.n), p.ino, fbn)
    requires p' == Part(p.g, PutData(f1, x, data), n1, p.ino, p.off, p'.src, p.want)
    ensures Packed(p'.f, p'.n) && DiskNeed.Supplied(Orders(p'))
  {
    PackedSpare(p.f, p.n);
    PackedSpare(f1, n1);
    SameTarget(f1, n1, SlotOf(p.ino, fbn));
    PutPacked(f1, n1, p.ino, fbn, x, data);
    DiskNeed.SuppliedMore(Orders(p), Orders(p'), WithMap(f1, n1), at, fbn, o, x, {}, {x}, data);
  }

  lemma BesideMore(p: Part, g2: Fs, f3: Fs, n: nat, fbn: nat, bn: nat)
    requires Packed(p.f, p.n) && Packed(f3, n) && DiskNeed.OnlyOn(WithMap(p.f, p.n), g2, p.ino, fbn) && SameTargets(g2, WithMap(f3, n))
    ensures bn != fbn ==> Target(f3, SlotOf(p.ino, bn)) == Target(p.f, SlotOf(p.ino, bn))
  {
    SameTarget(p.f, p.n, SlotOf(p.ino, bn));
    SameTarget(f3, n, SlotOf(p.ino, bn));
    assert bn != fbn ==> SlotOf(p.ino, bn) != SlotOf(p.ino, fbn) && SlotOf(p.ino, bn) != Indirect(p.ino);
  }

  lemma Finish(p: Part, f': Fs)
    requires Begun(p) && f' == p.f.(inodes := p.f.inodes[p.ino := p.f.inodes[p.ino].(size := p.off + |p.src|)])
    ensures Packed(f', p.n) && WriteDone(p.g, WithMap(f', p.n), p.ino, p.off, p.src)
    ensures Written(p.g, WithMap(f', p.n), p.ino, p.off, p.src) && OthersStill(p.g, WithMap(f', p.n), p.ino)
    ensures NoHoles(p.g, p.ino) ==> NoHoles(WithMap(f', p.n), p.ino)
    ensures Tight(p.g, p.ino) ==> Tight(WithMap(f', p.n), p.ino)
  {
    var g1, g2 := WithMap(p.f, p.n), WithMap(f', p.n);
    FillEnd(p.g, g1, g2, p.ino, p.off, p.src);
    SizeKeeps(g1, g2);
    SizeTargets(g1, g2, p.ino);
    WrittenSame(p.g, g1, g2, p.ino, p.off, p.src);
    if NoHoles(p.g, p.ino) { StaysFull(p.g, g2, p.ino, p.off, p.src); }
    if Tight(p.g, p.ino) { FinishTight(p, f'); }
  }

  /** All of it: just the blocks that were needed are gone. */
  lemma AllTaken(p: Part)
    requires Begun(p) && |p.src| == p.want
    ensures !DiskNeed.TooMuch(p.g, p.ino, p.off, p.want)
    ensures DiskNeed.Spare(p.g) - (p.f.l.size - p.n) == DiskNeed.Need(p.g, p.ino, p.off, p.want)
  {
    PackedSpare(p.f, p.n);
    assert DiskNeed.Supply(Orders(p));
    DiskNeed.SuppliedAll(Orders(p));
  }

  /** No block of the file lies behind its end. */
  ghost predicate Tight(f: Fs, ino: nat)
    requires ino in f.inodes
  {
    && (forall bn: nat :: Target(f, SlotOf(ino, bn)) != 0 ==> bn * BSIZE < f.inodes[ino].size)
    && (Addr(f, ino, NDIRECT) != 0 ==> NDIRECT * BSIZE < f.inodes[ino].size)
  }

  lemma FinishTight(p: Part, f': Fs)
    requires Begun(p) && f'.inodes == p.f.inodes[p.ino := p.f.inodes[p.ino].(size := p.off + |p.src|)] && f'.disk == p.f.disk && f'.l == p.f.l
    requires Packed(f', p.n) && Tight(p.g, p.ino)
    ensures Tight(WithMap(f', p.n), p.ino)
  {
    forall bn: nat | Target(WithMap(f', p.n), SlotOf(p.ino, bn)) != 0 ensures bn * BSIZE < p.off + |p.src| {
      SameTarget(f', p.n, SlotOf(p.ino, bn));
      SizeTargets(p.f, f', p.ino);
      assert BesideAt(p.g, p.f, p.ino, p.off, |p.src|, bn);
    }
  }

  lemma Appended(g: Fs, g': Fs, ino: nat, src: seq<byte>)
    requires ino in g.inodes && WriteDone(g, g', ino, g.inodes[ino].size, src)
    ensures Content(g', ino) == Content(g, ino) + src
  {
  }

  // ------------------------------------------------------------- all of main

  /** The bytes that a run of iappends gives to a file. */
  function AppendedTo(writes: seq<(nat, seq<byte>)>, ino: nat): seq<byte> {
    if writes == [] then [] else
    var w := writes[|writes| - 1];
    AppendedTo(writes[..|writes| - 1], ino) + if w.0 == ino then w.1 else []
  }

  /** The file holds just these bytes, in just the blocks for them, with zeros behind. */
  ghost predicate Made(g: Fs, ino: nat, bytes: seq<byte>) {
    && ino in g.inodes && Content(g, ino) == bytes && NoHoles(g, ino) && Tight(g, ino)
    && forall k: nat :: k >= |bytes| ==> ByteAt(g, ino, k) == 0
  }

  ghost predicate AllMade(g: Fs, writes: seq<(nat, seq<byte>)>) {
    forall i :: i in g.inodes ==> Made(g, i, AppendedTo(writes, i))
  }

  /** Appends that have been made, from block n on. */
  datatype Stage = Stage(g: Fs, writes: seq<(nat, seq<byte>)>, freeblock: nat, n: nat)

  ghost predicate Reached(a: Stage) {
    AllMade(a.g, a.writes) && Fits(a.writes, a.g.l.size - a.n) && a.freeblock == a.n + Total(a.writes)
  }

  /** (Bound to a, so that only proofs that speak of Reached unfold it.) */
  ghost predicate At(a: Stage) {
    forall b {:trigger Reached(b)} :: b == a ==> Reached(b)
  }

  lemma AtStart(g: Fs, n: nat)
    requires n <= g.l.size && forall ino :: ino in g.inodes ==> g.inodes[ino] == Inode(0, seq(NDIRECT + 1, _ => 0))
    ensures At(Stage(g, [], n, n))
  {
    forall i | i in g.inodes ensures Made(g, i, []) { BlankMade(g, i); }
    assert Reached(Stage(g, [], n, n));
  }

  lemma AtEnd(a: Stage)
    requires At(a)
    ensures AllMade(a.g, a.writes) && Fits(a.writes, a.g.l.size - a.n) && a.freeblock == a.n + Total(a.writes)
  {
    assert Reached(a);
  }

  lemma FitsNot(writes: seq<(nat, seq<byte>)>, k: nat, room: int)
    requires k <= |writes| && !Fits(writes[..k], room)
    ensures !Fits(writes, room)
  {
    if Fits(writes, room) { FitsPrefix(writes, k, room); }
  }

  lemma BlankMade(g: Fs, ino: nat)
    requires ino in g.inodes && g.inodes[ino] == Inode(0, seq(NDIRECT + 1, _ => 0))
    ensures Made(g, ino, [])
  {
    forall bn: nat ensures Target(g, SlotOf(ino, bn)) == 0 { }
  }

  lemma GrownSelf(g: Fs, g': Fs, ino: nat, bytes: seq<byte>, src: seq<byte>)
    requires Made(g, ino, bytes) && ino in g'.inodes && Content(g', ino) == bytes + src && NoHoles(g', ino) && Tight(g', ino)
    requires Written(g, g', ino, |bytes|, src)
    ensures Made(g', ino, bytes + src)
  {
    forall k: nat | k >= |bytes + src| ensures ByteAt(g', ino, k) == 0 { assert WrittenAt(g, g', ino, |bytes|, src, ino, k); }
  }

  lemma GrownOther(g: Fs, g': Fs, ino: nat, off: nat, src: seq<byte>, i: nat, bytes: seq<byte>)
    requires Made(g, i, bytes) && i != ino && i in g'.inodes && g'.inodes[i] == g.inodes[i]
    requires OthersStill(g, g', ino) && Written(g, g', ino, off, src)
    ensures Made(g', i, bytes)
  {
    forall k: nat ensures ByteAt(g', i, k) == ByteAt(g, i, k) { assert WrittenAt(g, g', ino, off, src, i, k); }
    forall bn: nat ensures Target(g', SlotOf(i, bn)) == Target(g, SlotOf(i, bn)) { assert SlotOf(i, bn).ino == i; }
  }

  lemma AllGrown(g: Fs, g': Fs, writes: seq<(nat, seq<byte>)>, more: seq<(nat, seq<byte>)>, ino: nat, src: seq<byte>)
    requires AllMade(g, writes) && more == writes + [(ino, src)] && ino in g.inodes && WriteDone(g, g', ino, g.inodes[ino].size, src)
    requires Content(g', ino) == Content(g, ino) + src && NoHoles(g', ino) && Tight(g', ino)
    requires OthersStill(g, g', ino) && Written(g, g', ino, g.inodes[ino].size, src)
    ensures AllMade(g', more)
  {
    assert more[..|more| - 1] == writes;
    forall i | i in g'.inodes ensures Made(g', i, AppendedTo(more, i)) {
      assert Made(g, i, AppendedTo(writes, i));
      if i == ino {
        GrownSelf(g, g', ino, AppendedTo(writes, ino), src);
      } else {
        GrownOther(g, g', ino, g.inodes[ino].size, src, i, AppendedTo(writes, i));
      }
    }
  }

  /** The blocks of a file of n bytes, with its indirect block. */
  function FileBlocks(n: nat): nat {
    var b := (n + BSIZE - 1) / BSIZE;
    b + DiskNeed.Bit01(b > NDIRECT)
  }

  lemma FileBlocksGrow(n: nat, m: nat)
    requires n <= m
    ensures FileBlocks(n) <= FileBlocks(m)
  {
  }

  lemma {:induction false} AllHoles(f: Fs, ino: nat, lo: nat, hi: nat)
    requires lo <= hi && forall bn: nat :: lo <= bn < hi ==> Target(f, SlotOf(ino, bn)) == 0
    ensures DiskNeed.Holes(f, ino, lo, hi) == hi - lo
    decreases hi - lo
  {
    if lo < hi { AllHoles(f, ino, lo + 1, hi); }
  }

  lemma HolesBehind(g: Fs, ino: nat, off: nat, lo: nat, c: nat, hi: nat)
    requires ino in g.inodes && NoHoles(g, ino) && Tight(g, ino) && g.inodes[ino].size == off
    requires lo == off / BSIZE && c == (off + BSIZE - 1) / BSIZE <= hi && lo < hi
    ensures DiskNeed.Holes(g, ino, lo, hi) == hi - c
  {
    forall bn: nat | c <= bn < hi ensures Target(g, SlotOf(ino, bn)) == 0 { assert bn * BSIZE >= off; }
    AllHoles(g, ino, c, hi);
    if lo < c { assert c == lo + 1 && lo * BSIZE < off; }
  }

  lemma IndirectIs(g: Fs, ino: nat, off: nat, c: nat)
    requires ino in g.inodes && NoHoles(g, ino) && Tight(g, ino) && g.inodes[ino].size == off && c == (off + BSIZE - 1) / BSIZE
    ensures Addr(g, ino, NDIRECT) == 0 <==> c <= NDIRECT
  {
    if c > NDIRECT { assert Target(g, SlotOf(ino, NDIRECT)) != 0; }
  }

  /** An append to such a file takes the blocks that it then has more. */
  lemma NeedMade(g: Fs, ino: nat, off: nat, n: nat)
    requires ino in g.inodes && NoHoles(g, ino) && Tight(g, ino) && g.inodes[ino].size == off
    ensures DiskNeed.Need(g, ino, off, n) == FileBlocks(off + n) - FileBlocks(off)
  {
    if n > 0 {
      var lo, c, hi := DiskNeed.FirstBlock(off), (off + BSIZE - 1) / BSIZE, DiskNeed.EndBlock(off, n);
      HolesBehind(g, ino, off, lo, c, hi);
      IndirectIs(g, ino, off, c);
    }
  }

  /** The blocks that a run of iappends takes. */
  function Total(writes: seq<(nat, seq<byte>)>): int {
    if writes == [] then 0 else
    var before, ino := writes[..|writes| - 1], writes[|writes| - 1].0;
    Total(before) + FileBlocks(|AppendedTo(writes, ino)|) - FileBlocks(|AppendedTo(before, ino)|)
  }

  /** The blocks of these files. */
  function BlocksOf(files: seq<nat>, writes: seq<(nat, seq<byte>)>): nat {
    if files == [] then 0 else BlocksOf(files[..|files| - 1], writes) + FileBlocks(|AppendedTo(writes, files[|files| - 1])|)
  }

  lemma {:induction false} OneFileMore(files: seq<nat>, writes: seq<(nat, seq<byte>)>, more: seq<(nat, seq<byte>)>, w: (nat, seq<byte>))
    requires Sets.Distinct(files) && more == writes + [w]
    ensures BlocksOf(files, more) == BlocksOf(files, writes) +
            if w.0 in files then FileBlocks(|AppendedTo(more, w.0)|) - FileBlocks(|AppendedTo(writes, w.0)|) else 0
  {
    if files != [] {
      var n := |files| - 1;
      OneFileMore(files[..n], writes, more, w);
      assert more[..|more| - 1] == writes;
      assert files == files[..n] + [files[n]] && files[n] !in files[..n];
    }
  }

  /** They are the blocks of all files that were appended to. */
  lemma {:induction false} TotalIs(files: seq<nat>, writes: seq<(nat, seq<byte>)>)
    requires Sets.Distinct(files) && forall w :: w in writes ==> w.0 in files
    ensures Total(writes) == BlocksOf(files, writes)
  {
    if writes == [] {
      NoBlocks(files);
    } else {
      var n := |writes| - 1;
      assert writes == writes[..n] + [writes[n]];
      TotalIs(files, writes[..n]);
      OneFileMore(files, writes[..n], writes, writes[n]);
    }
  }

  lemma {:induction false} NoBlocks(files: seq<nat>)
    ensures BlocksOf(files, []) == 0
  {
    if files != [] { NoBlocks(files[..|files| - 1]); }
  }

  /** They go into this many blocks, and no file is too long. */
  ghost predicate Fits(writes: seq<(nat, seq<byte>)>, room: int) {
    Total(writes) <= room && forall ino: nat :: |AppendedTo(writes, ino)| <= MAXFILE * BSIZE
  }

  lemma FitsLess(writes: seq<(nat, seq<byte>)>, more: seq<(nat, seq<byte>)>, w: (nat, seq<byte>), room: int)
    requires more == writes + [w] && Fits(more, room)
    ensures Fits(writes, room)
  {
    assert more[..|more| - 1] == writes;
    FileBlocksGrow(|AppendedTo(writes, w.0)|, |AppendedTo(more, w.0)|);
    forall ino: nat ensures |AppendedTo(writes, ino)| <= |AppendedTo(more, ino)| { }
  }

  lemma {:induction false} FitsPrefix(writes: seq<(nat, seq<byte>)>, k: nat, room: int)
    requires Fits(writes, room) && k <= |writes|
    ensures Fits(writes[..k], room)
  {
    if k == |writes| {
      assert writes[..k] == writes;
    } else {
      var n := |writes| - 1;
      FitsLess(writes[..n], writes, writes[n], room);
      FitsPrefix(writes[..n], k, room);
      assert writes[..n][..k] == writes[..k];
    }
  }

  lemma MoreTo(writes: seq<(nat, seq<byte>)>, more: seq<(nat, seq<byte>)>, ino: nat, src: seq<byte>, i: nat)
    requires more == writes + [(ino, src)]
    ensures AppendedTo(more, i) == if i == ino then AppendedTo(writes, i) + src else AppendedTo(writes, i)
  {
    assert more[..|more| - 1] == writes;
  }

  lemma MoreBlocks(writes: seq<(nat, seq<byte>)>, more: seq<(nat, seq<byte>)>, ino: nat, src: seq<byte>, off: nat, end: nat)
    requires more == writes + [(ino, src)] && off == |AppendedTo(writes, ino)| && end == off + |src|
    ensures Total(more) == Total(writes) + FileBlocks(end) - FileBlocks(off)
  {
    assert |AppendedTo(more, ino)| == end by { MoreTo(writes, more, ino, src, ino); }
    assert more[..|more| - 1] == writes;
  }

  /** One more append, to a file of `off` bytes. */
  lemma FitsMore(writes: seq<(nat, seq<byte>)>, more: seq<(nat, seq<byte>)>, ino: nat, src: seq<byte>, off: nat, room: int)
    requires more == writes + [(ino, src)] && Fits(writes, room) && |AppendedTo(writes, ino)| == off
    ensures Fits(more, room) <==> Total(writes) + FileBlocks(off + |src|) - FileBlocks(off) <= room && off + |src| <= MAXFILE * BSIZE
  {
    forall i: nat ensures |AppendedTo(more, i)| == if i == ino then off + |src| else |AppendedTo(writes, i)| { MoreTo(writes, more, ino, src, i); }
    MoreBlocks(writes, more, ino, src, off, off + |src|);
    assert |AppendedTo(more, ino)| == off + |src|;
  }

  /** It fits if and only if iappend succeeds. */
  lemma FitsIf(g: Fs, writes: seq<(nat, seq<byte>)>, more: seq<(nat, seq<byte>)>, ino: nat, src: seq<byte>, room: int)
    requires more == writes + [(ino, src)] && Fits(writes, room) && Made(g, ino, AppendedTo(writes, ino)) && Laid(g)
    requires DiskNeed.Spare(g) == room - Total(writes)
    ensures DiskNeed.TooMuch(g, ino, g.inodes[ino].size, |src|) <==> !Fits(more, room)
    ensures Total(more) == Total(writes) + DiskNeed.Need(g, ino, g.inodes[ino].size, |src|)
  {
    var off := g.inodes[ino].size;
    assert |Content(g, ino)| == off;
    FitsMore(writes, more, ino, src, off, room);
    MoreBlocks(writes, more, ino, src, off, off + |src|);
    NeedMade(g, ino, off, |src|);
    LongEnough(off, |src|);
  }

  lemma LongEnough(off: nat, n: nat)
    requires off <= MAXFILE * BSIZE
    ensures DiskNeed.EndBlock(off, n) > MAXFILE <==> off + n > MAXFILE * BSIZE
  {
  }

  /** What is left after main: every file has what was appended to it, and the root is
      filled up with zeros, with a hole behind its entries just when they fill its blocks. */
  ghost predicate Finished(f: Fs, root: nat, writes: seq<(nat, seq<byte>)>) {
    && Owned(f, {}) && root in f.inodes && (forall i :: i in f.inodes && i != root ==> Made(f, i, AppendedTo(writes, i)))
    && var entries := AppendedTo(writes, root);
       && f.inodes[root].size == (|entries| / BSIZE + 1) * BSIZE
       && Content(f, root) == entries + seq(f.inodes[root].size - |entries|, _ => 0)
       && (NoHoles(f, root) <==> |entries| % BSIZE != 0)
  }

  /** So a read of the whole root outside of every operation of the log (Fileread) is free of
      panic just when its entries do not fill its blocks. */
  lemma RootReadable(f: Fs, root: nat, writes: seq<(nat, seq<byte>)>)
    requires Finished(f, root, writes)
    ensures RangeThere(f, root, 0, f.inodes[root].size) <==> |AppendedTo(writes, root)| % BSIZE != 0
  {
    forall bn: nat ensures InRange(0, f.inodes[root].size, bn) <==> bn * BSIZE < f.inodes[root].size { }
  }

  lemma Rounded(g: Fs, g': Fs, root: nat, writes: seq<(nat, seq<byte>)>)
    requires AllMade(g, writes) && root in g.inodes && Owned(g', {})
    requires g' == g.(inodes := g.inodes[root := RoundUp(g.inodes[root])])
    ensures Finished(g', root, writes)
  {
    SizeTargets(g, g', root);
    assert Made(g, root, AppendedTo(writes, root));
    RootHoleExactly(g, root);
    assert |Content(g, root)| == g.inodes[root].size;
    RoundedContent(g, g', root, AppendedTo(writes, root));
    forall i | i in g'.inodes && i != root ensures Made(g', i, AppendedTo(writes, i)) {
      assert Made(g, i, AppendedTo(writes, i));
      RoundedOther(g, g', i, AppendedTo(writes, i));
    }
  }

  lemma RoundedContent(g: Fs, g': Fs, root: nat, bytes: seq<byte>)
    requires Made(g, root, bytes) && SameBytes(g, g') && root in g'.inodes && g'.inodes[root] == RoundUp(g.inodes[root])
    ensures |bytes| <= g'.inodes[root].size && Content(g', root) == bytes + seq(g'.inodes[root].size - |bytes|, _ => 0)
  {
    assert |Content(g, root)| == g.inodes[root].size;
    forall k: nat | k < g'.inodes[root].size ensures ByteAt(g', root, k) == if k < |bytes| then bytes[k] else 0 {
      assert ByteAt(g', root, k) == ByteAt(g, root, k);
      if k < |bytes| { assert Content(g, root)[k] == ByteAt(g, root, k); }
    }
  }

  lemma RoundedOther(g: Fs, g': Fs, i: nat, bytes: seq<byte>)
    requires Made(g, i, bytes) && SameBytes(g, g') && (forall s :: Target(g', s) == Target(g, s)) && i in g'.inodes && g'.inodes[i] == g.inodes[i]
    ensures Made(g', i, bytes)
  {
    assert Content(g', i) == Content(g, i);
  }

  class Image {
    const l: Layout
    var disk: Disk
    var inodes: Inodes
    var freeblock: nat

    ghost function F(): Fs
      reads this
    {
      Fs(l, disk, inodes)
    }

    ghost predicate Valid()
      reads this
    {
      Packed(F(), freeblock)
    }

    ghost function G(): Fs
      requires Valid()
      reads this
    {
      WithMap(F(), freeblock)
    }

    /** All blocks zero, and inodes without blocks. */
    constructor (layout: Layout, d: Disk, files: Inodes)
      requires 0 < layout.nmeta <= layout.size <= BPB && layout.bmapstart < layout.nmeta && layout.size <= |d|
      requires (forall b :: 0 <= b < |d| ==> d[b] == ZeroBlock) && forall ino :: ino in files ==> files[ino] == Inode(0, seq(NDIRECT + 1, _ => 0))
      ensures Valid() && l == layout && inodes == files && disk == d
    {
      l, disk, inodes, freeblock := layout, d, files, layout.nmeta;
      new;
      BlankPacked(F());
    }

    /** din.addrs[i], or the next block for it. None: there is none. */
    method AddrFor(ino: nat, i: nat) returns (r: Option<nat>)
      requires Valid() && ino in inodes && i <= NDIRECT
      modifies this`inodes, this`freeblock
      ensures r == None <==> Addr(old(F()), ino, i) == 0 && old(freeblock) == l.size
      ensures r == None ==> F() == old(F()) && freeblock == old(freeblock)
      ensures r.Some? ==> Valid() && AddrSet(old(G()), G(), ino, i, r.value) && l.nmeta <= r.value < freeblock
      ensures r.Some? ==> ino in inodes && Addr(F(), ino, i) == r.value && freeblock == old(freeblock) + DiskNeed.Bit01(Addr(old(F()), ino, i) == 0)
    {
      ghost var f := F();
      var x := inodes[ino].addrs[i];
      if x == 0 {
        if freeblock == l.size { return None; }
        AddrPacked(f, freeblock, ino, i);
        x := freeblock;
        inodes := inodes[ino := inodes[ino].(addrs := inodes[ino].addrs[i := x])];
        freeblock := freeblock + 1;
        assert F() == SetAddr(f, ino, i, x);
      } else {
        SameTarget(f, freeblock, AddrSlot(ino, i));
        AddrKept(G(), ino, i);
      }
      return Some(x);
    }

    /** indirect[j], or the next block for it. None: there is none. */
    method EntryFor(ino: nat, j: nat) returns (r: Option<nat>)
      requires Valid() && ino in inodes && j < NINDIRECT && l.nmeta <= Addr(F(), ino, NDIRECT) < freeblock
      modifies this`disk, this`freeblock
      ensures r == None <==> Target(old(F()), Entry(ino, j)) == 0 && old(freeblock) == l.size
      ensures r.Some? ==> Valid() && EntrySet(old(G()), G(), ino, j, r.value)
      ensures r.Some? ==> freeblock == old(freeblock) + DiskNeed.Bit01(Target(old(F()), Entry(ino, j)) == 0)
    {
      var a := inodes[ino].addrs[NDIRECT];
      var x := Word(disk[a], j);
      if x == 0 && freeblock == l.size { return None; }
      EntryStepPacked(F(), freeblock, ino, j);
      if x == 0 {
        x := freeblock;
        disk := disk[a := SetWord(disk[a], j, x)];
        freeblock := freeblock + 1;
      }
      assert (F(), freeblock, x) == old(EntryStep(F(), freeblock, ino, j));
      return Some(x);
    }

    /** iappend's block for fbn. None: the image is full. */
    method BlockFor(ino: nat, fbn: nat) returns (r: Option<nat>)
      requires Valid() && ino in inodes && fbn < MAXFILE
      modifies this`disk, this`inodes, this`freeblock
      ensures r == None <==> DiskNeed.Lacks(old(G()), ino, fbn) > l.size - old(freeblock)
      ensures r.Some? ==> Valid() && Mapped(old(G()), G(), ino, fbn, r.value) && ino in inodes
      ensures r.Some? ==> DiskNeed.Opened(old(G()), G(), ino, fbn) && freeblock == old(freeblock) + DiskNeed.Lacks(old(G()), ino, fbn)
    {
      ghost var g := G();
      if fbn < NDIRECT {
        r := AddrFor(ino, fbn);
        if r.Some? {
          MappedDirect(g, G(), ino, fbn, r.value);
          DiskNeed.OnlyOnDirect(g, G(), ino, fbn, r.value);
        }
      } else {
        r := EntryBlock(ino, fbn);
      }
    }

    /** For an fbn behind the direct ones. */
    method EntryBlock(ino: nat, fbn: nat) returns (r: Option<nat>)
      requires Valid() && ino in inodes && NDIRECT <= fbn < MAXFILE
      modifies this`disk, this`inodes, this`freeblock
      ensures r == None <==> DiskNeed.Lacks(old(G()), ino, fbn) > l.size - old(freeblock)
      ensures r.Some? ==> Valid() && Mapped(old(G()), G(), ino, fbn, r.value) && ino in inodes
      ensures r.Some? ==> DiskNeed.Opened(old(G()), G(), ino, fbn) && freeblock == old(freeblock) + DiskNeed.Lacks(old(G()), ino, fbn)
    {
      ghost var g, f := G(), F();
      SameTarget(f, freeblock, SlotOf(ino, fbn));
      var a := AddrFor(ino, NDIRECT);
      if a == None { return None; }
      ghost var g1, f1 := G(), F();
      DiskNeed.EntryBefore(g, g1, ino, fbn, a.value);
      SameTarget(f1, freeblock, Entry(ino, fbn - NDIRECT));
      r := EntryFor(ino, fbn - NDIRECT);
      if r.Some? {
        MappedEntry(g, g1, G(), ino, fbn, a.value, r.value);
        DiskNeed.OnlyOnEntry(g, g1, G(), ino, fbn, a.value, r.value);
      }
    }

    /** iappend. False: the file is too long, or the image too small. */
    method Iappend(ino: nat, src: seq<byte>) returns (ok: bool)
      requires Valid() && ino in inodes
      modifies this`disk, this`inodes, this`freeblock
      ensures Laid(old(G())) && (ok <==> !DiskNeed.TooMuch(old(G()), ino, old(inodes)[ino].size, |src|))
      ensures ok ==> Valid() && WriteDone(old(G()), G(), ino, old(inodes)[ino].size, src)
      ensures ok ==> ino in inodes && Content(G(), ino) == Content(old(G()), ino) + src
      ensures ok ==> freeblock == old(freeblock) + DiskNeed.Need(old(G()), ino, old(inodes)[ino].size, |src|)
      ensures ok && NoHoles(old(G()), ino) ==> NoHoles(G(), ino)
      ensures ok && Tight(old(G()), ino) ==> Tight(G(), ino)
      ensures ok ==> Written(old(G()), G(), ino, old(inodes)[ino].size, src) && OthersStill(old(G()), G(), ino)
    {
      ghost var g := G();
      PackedSpare(F(), freeblock);
      var off := inodes[ino].size;
      Begin(F(), freeblock, ino, off, |src|);
      ghost var p;
      ok, p := AppendBlocks(ino, off, src, g);
      if !ok { return; }
      assert Begun(p);
      inodes := inodes[ino := inodes[ino].(size := off + |src|)];
      Finish(p, F());
      Appended(g, G(), ino, src);
      AllTaken(p);
    }

    /** Its loop. */
    method AppendBlocks(ino: nat, off: nat, src: seq<byte>, ghost g: Fs) returns (ok: bool, ghost p: Part)
      requires Under(Part(g, F(), freeblock, ino, off, [], |src|)) && Laid(g)
      modifies this`disk, this`inodes, this`freeblock
      ensures ok ==> Under(p) && p == Part(g, F(), freeblock, ino, off, src, |src|)
      ensures !ok ==> DiskNeed.TooMuch(g, ino, off, |src|)
    {
      var tot := 0;
      p := Part(g, F(), freeblock, ino, off, [], |src|);
      while tot < |src|
        invariant tot <= |src| && Under(p) && p == Part(g, F(), freeblock, ino, off, src[..tot], |src|)
      {
        var o := (off + tot) % BSIZE;
        var m := if |src| - tot < BSIZE - o then |src| - tot else BSIZE - o;
        ghost var all := src[..tot + m];
        assert all == src[..tot] + src[tot..tot + m];
        ok, p := Append(ino, off + tot, src[tot..tot + m], p);
        if !ok { return; }
        tot := tot + m;
      }
      assert src[..tot] == src;
      ok := true;
    }

    /** One round of iappend's loop: the block, bcopy and wsect. */
    method Append(ino: nat, at: nat, more: seq<byte>, ghost p: Part) returns (ok: bool, ghost p': Part)
      requires Under(p) && p == Part(p.g, F(), freeblock, ino, p.off, p.src, p.want)
      requires at == p.off + |p.src| && 0 < |more| && at % BSIZE + |more| <= BSIZE && |p.src + more| <= p.want && Laid(p.g)
      modifies this`disk, this`inodes, this`freeblock
      ensures ok ==> Under(p') && p' == Part(p.g, F(), freeblock, ino, p.off, p.src + more, p.want)
      ensures !ok ==> DiskNeed.TooMuch(p.g, ino, p.off, p.want)
    {
      UnderPacked(p);
      p' := p;
      var fbn, o := at / BSIZE, at % BSIZE;
      if fbn >= MAXFILE {
        NoMore(p, at, fbn);
        return false, p;
      }
      var r := BlockFor(ino, fbn);
      if r == None {
        NoMore(p, at, fbn);
        return false, p;
      }
      var x := r.value;
      ghost var f1 := F();
      var data := disk[x][..o] + more + disk[x][o + |more|..];
      disk := disk[x := data];
      p' := Part(p.g, F(), freeblock, ino, p.off, p.src + more, p.want);
      Continue(p, f1, freeblock, p', at, fbn, o, x, more, data);
      ok := true;
    }

    /** The last lines of main, on the root: its size goes up to the end of a block. */
    method FixRoot(ino: nat)
      requires Valid() && ino in inodes
      modifies this`inodes
      ensures Valid() && ino in inodes && inodes == old(inodes)[ino := RoundUp(old(inodes)[ino])]
    {
      ghost var f := F();
      inodes := inodes[ino := inodes[ino].(size := (inodes[ino].size / BSIZE + 1) * BSIZE)];
      SizeTargets(WithMap(f, freeblock), WithMap(F(), freeblock), ino);
      SizeKeeps(WithMap(f, freeblock), WithMap(F(), freeblock));
    }

    /** main: the iappends, for the root and the other files in any order, then the new size
        of the root, then the map. False: a file is too long, or the image too small. */
    method Build(root: nat, writes: seq<(nat, seq<byte>)>) returns (ok: bool)
      requires Valid() && root in inodes && forall w :: w in writes ==> w.0 in inodes
      requires forall ino :: ino in inodes ==> inodes[ino] == Inode(0, seq(NDIRECT + 1, _ => 0))
      modifies this`disk, this`inodes, this`freeblock
      ensures ok ==> inodes.Keys == old(inodes.Keys) && Finished(F(), root, writes)
      ensures ok <==> Fits(writes, l.size - old(freeblock)) && old(freeblock) + Total(writes) < BPB
    {
      ok := AppendAll(writes);
      if !ok { return; }
      ghost var g := G();
      FixRoot(root);
      ghost var g' := G();
      ok := Balloc();
      if ok { Rounded(g, g', root, writes); }
    }

    /** The iappends of main. */
    method AppendAll(writes: seq<(nat, seq<byte>)>) returns (ok: bool)
      requires Valid() && forall w :: w in writes ==> w.0 in inodes
      requires forall ino :: ino in inodes ==> inodes[ino] == Inode(0, seq(NDIRECT + 1, _ => 0))
      modifies this`disk, this`inodes, this`freeblock
      ensures ok ==> Valid() && inodes.Keys == old(inodes.Keys) && AllMade(G(), writes) && freeblock == old(freeblock) + Total(writes)
      ensures ok <==> Fits(writes, l.size - old(freeblock))
    {
      ghost var n := freeblock;
      AtStart(G(), n);
      var k := 0;
      ok := true;
      while k < |writes|
        invariant k <= |writes| && Valid() && inodes.Keys == old(inodes.Keys) && At(Stage(G(), writes[..k], freeblock, n))
      {
        var next := k + 1;
        assert writes[..next] == writes[..k] + [(writes[k].0, writes[k].1)];
        ok := AppendOne(writes[k].0, writes[k].1, writes[..k], writes[..next], n);
        if !ok {
          FitsNot(writes, next, l.size - n);
          return;
        }
        k := next;
      }
      assert writes[..|writes|] == writes;
      AtEnd(Stage(G(), writes, freeblock, n));
    }

    method AppendOne(ino: nat, src: seq<byte>, ghost writes: seq<(nat, seq<byte>)>, ghost more: seq<(nat, seq<byte>)>, ghost n: nat) returns (ok: bool)
      requires Valid() && ino in inodes && At(Stage(G(), writes, freeblock, n)) && more == writes + [(ino, src)]
      modifies this`disk, this`inodes, this`freeblock
      ensures ok ==> Valid() && inodes.Keys == old(inodes.Keys) && At(Stage(G(), more, freeblock, n))
      ensures !ok ==> !Fits(more, l.size - n)
    {
      ghost var g := G();
      PackedSpare(F(), freeblock);
      AtEnd(Stage(g, writes, freeblock, n));
      assert Made(g, ino, AppendedTo(writes, ino));
      FitsIf(g, writes, more, ino, src, l.size - n);
      ok := Iappend(ino, src);
      if ok {
        AllGrown(g, G(), writes, more, ino, src);
        assert Reached(Stage(G(), more, freeblock, n));
      }
    }

    /** mkfs's balloc: the map of the blocks handed out makes the image consistent. False:
        they do not fit into one map block. */
    method Balloc() returns (ok: bool)
      requires Valid()
      modifies this`disk
      ensures ok == (freeblock < BPB) && (ok ==> Owned(F(), {}) && F() == old(G()))
    {
      if freeblock >= BPB { return false; }
      var buf := ZeroBlock;
      for i := 0 to freeblock
        invariant buf == SetBits(i)
      {
        buf := FlipBlock(buf, i);
      }
      disk := disk[l.bmapstart := buf];
      ok := true;
    }
  }

  function RoundUp(ip: Inode): Inode {
    ip.(size := (ip.size / BSIZE + 1) * BSIZE)
  }

  /** That leaves a hole at the end of the root if and only if its entries filled its blocks. */
  lemma RootHoleExactly(f: Fs, ino: nat)
    requires ino in f.inodes && NoHoles(f, ino) && Tight(f, ino)
    ensures NoHoles(f.(inodes := f.inodes[ino := RoundUp(f.inodes[ino])]), ino) <==> f.inodes[ino].size % BSIZE != 0
  {
    var f' := f.(inodes := f.inodes[ino := RoundUp(f.inodes[ino])]);
    SizeTargets(f, f', ino);
    var last := f.inodes[ino].size / BSIZE;
    assert Target(f', SlotOf(ino, last)) == Target(f, SlotOf(ino, last));
    if f.inodes[ino].size % BSIZE == 0 {
      assert last * BSIZE == f.inodes[ino].size;
    } else {
      assert last * BSIZE < f.inodes[ino].size;
    }
  }

  /** For example a root of one full block: the kernel's next entry gets a block that the
      inode block on disk does not know of. */
  function FullRoot(): Fs {
    Fs(Layout(4, 1, 2), [ZeroBlock, SetBits(3), ZeroBlock, ZeroBlock],
       map[1 := RoundUp(Inode(BSIZE, [2, 0, 0, 0, 0, 0, 0, 0, 0, 0, 0, 0, 0]))])
  }

  lemma FullRootOwned()
    ensures Owned(FullRoot(), {}) && !Used(FullRoot().disk, 1, 3)
  {
    var zeros := seq(NDIRECT + 1, _ => 0);
    var f := Fs(Layout(4, 1, 2), [ZeroBlock, ZeroBlock, ZeroBlock, ZeroBlock], map[1 := Inode(0, zeros)]);
    BlankPacked(f);
    AddrPacked(f, 2, 1, 0);
    var f1 := SetAddr(f, 1, 0, 2);
    assert zeros[0 := 2] == [2, 0, 0, 0, 0, 0, 0, 0, 0, 0, 0, 0, 0];
    var g := WithMap(f1, 3);
    assert FullRoot().disk == g.disk && FullRoot().inodes.Keys == g.inodes.Keys;
    SizeTargets(g, FullRoot(), 1);
    SizeKeeps(g, FullRoot());
    SetBitsBit(3, 3);
  }

  /** The inode blocks that writei leaves are not the inodes in memory. */
  ghost predicate Forgotten(f: Fs, f': Fs, ino: nat, end: nat) {
    ino in f.inodes && ino in f'.inodes && WrittenBack(f.inodes, f.inodes, f'.inodes, ino, end) != f'.inodes
  }

  lemma NewEntryLost(entry: seq<byte>)
    requires 0 < |entry| <= BSIZE
    ensures exists f' :: Owned(f', {}) && WriteDone(FullRoot(), f', 1, BSIZE, entry) && Forgotten(FullRoot(), f', 1, BSIZE + |entry|)
  {
    FullRootOwned();
    HoleNotWrittenBack(FullRoot(), 1, 1, 3, entry);
  }
}
