/** Inodes, their blocks and the free map (fs.c): which slot refers to which block,
    when that agrees with the free map, and the bytes that a file's blocks hold. */
module BlockTree {
  import opened Blocks
  import opened Bitmap

  const NDIRECT: nat := 12
  const NINDIRECT: nat := 128
  const MAXFILE: nat := 140

  /** NDIRECT direct addresses, then that of the indirect block; 0 is none. */
  datatype Inode = Inode(size: nat, addrs: seq<nat>)

  type Inodes = map<nat, Inode>

  /** Blocks below nmeta are not for files; the free map is among them. */
  datatype Layout = Layout(size: nat, bmapstart: nat, nmeta: nat)

  datatype Fs = Fs(l: Layout, disk: Disk, inodes: Inodes)

  ghost predicate Laid(f: Fs) {
    && 0 < f.l.nmeta <= f.l.size <= |f.disk| && f.l.size < WORD_LIMIT && f.l.bmapstart + (f.l.size - 1) / BPB < f.l.nmeta
    && forall ino :: ino in f.inodes ==> |f.inodes[ino].addrs| == NDIRECT + 1
  }

  /** The places that can refer to a block: an inode's direct addresses, its address
      of the indirect block, and the entries of that block. */
  datatype Slot = Direct(ino: nat, i: nat) | Indirect(ino: nat) | Entry(ino: nat, j: nat)

  function Addr(f: Fs, ino: nat, i: nat): nat {
    if ino in f.inodes && i < |f.inodes[ino].addrs| then f.inodes[ino].addrs[i] else 0
  }

  /** The block that a slot refers to, or 0. */
  function Target(f: Fs, s: Slot): nat {
    match s
    case Direct(ino, i) => if i < NDIRECT then Addr(f, ino, i) else 0
    case Indirect(ino) => Addr(f, ino, NDIRECT)
    case Entry(ino, j) =>
      if j < NINDIRECT && 0 < Addr(f, ino, NDIRECT) < |f.disk| then Word(f.disk[Addr(f, ino, NDIRECT)], j) else 0
  }

  ghost predicate Taken(f: Fs, b: nat) {
    exists s :: Target(f, s) == b
  }

  ghost predicate TargetsOk(f: Fs) {
    && (forall s :: Target(f, s) != 0 ==> f.l.nmeta <= Target(f, s) < f.l.size)
    && forall s, t :: Target(f, s) == Target(f, t) && Target(f, s) != 0 ==> s == t
  }

  ghost predicate BitAt(f: Fs, held: set<nat>, b: nat)
    requires Laid(f)
  {
    b < f.l.size ==> (Used(f.disk, f.l.bmapstart, b) <==> b < f.l.nmeta || b in held || Taken(f, b))
  }

  /** Bit b is set just when b is not for files, or one slot of one inode refers to it.
      Blocks in `held` are allocated and not yet referred to. */
  ghost predicate Owned(f: Fs, held: set<nat>) {
    && Laid(f) && TargetsOk(f) && (forall b: nat :: BitAt(f, held, b))
    && forall b :: b in held ==> f.l.nmeta <= b < f.l.size && !Taken(f, b)
  }

  /** An image in which no inode has blocks yet, as mkfs starts with. */
  lemma FreshOwned(f: Fs)
    requires Laid(f) && forall ino: nat, i: nat :: Addr(f, ino, i) == 0
    requires forall b: nat :: b < f.l.size ==> (Used(f.disk, f.l.bmapstart, b) <==> b < f.l.nmeta)
    ensures Owned(f, {})
  {
    forall s ensures Target(f, s) == 0 { }
    forall b: nat ensures BitAt(f, {}, b) { }
  }

  // ------------------------------------------------------------ small steps

  /** Slot s0 refers to b now, and every other slot to what it did. */
  ghost predicate Moves(f: Fs, f': Fs, s0: Slot, b: nat) {
    f'.l == f.l && forall s :: Target(f', s) == if s == s0 then b else Target(f, s)
  }

  ghost predicate SameTargets(f: Fs, f': Fs) {
    f'.l == f.l && forall s :: Target(f', s) == Target(f, s)
  }

  ghost predicate SameBits(f: Fs, f': Fs)
    requires Laid(f) && Laid(f') && f'.l == f.l
  {
    forall b: nat :: b < f.l.size ==> (Used(f'.disk, f.l.bmapstart, b) <==> Used(f.disk, f.l.bmapstart, b))
  }

  /** A held block gets its slot. */
  lemma OwnedMore(f: Fs, f': Fs, held: set<nat>, s0: Slot, b: nat)
    requires Owned(f, held) && b in held && Target(f, s0) == 0 && Laid(f') && Moves(f, f', s0, b) && SameBits(f, f')
    ensures Owned(f', held - {b})
  {
    forall c: nat | 0 < c ensures Taken(f', c) <==> c == b || Taken(f, c) {
      if c == b { assert Target(f', s0) == b; }
      if Taken(f, c) { var s :| Target(f, s) == c; assert Target(f', s) == c; }
    }
    forall c: nat ensures BitAt(f', held - {b}, c) { assert BitAt(f, held, c); }
  }

  lemma OwnedSame(f: Fs, f': Fs, held: set<nat>)
    requires Owned(f, held) && Laid(f') && SameTargets(f, f') && SameBits(f, f')
    ensures Owned(f', held)
  {
    forall c: nat ensures Taken(f', c) <==> Taken(f, c) {
      if Taken(f, c) { var s :| Target(f, s) == c; assert Target(f', s) == c; }
    }
    forall c: nat ensures BitAt(f', held, c) { assert BitAt(f, held, c); }
  }

  // ------------------------------------------------------------------ bytes

  /** The slot of block bn of a file. */
  function SlotOf(ino: nat, bn: nat): Slot {
    if bn < NDIRECT then Direct(ino, bn) else Entry(ino, bn - NDIRECT)
  }

  /** Byte k of the file's blocks; where there is no block, 0. */
  function ByteAt(f: Fs, ino: nat, k: nat): byte {
    var b := Target(f, SlotOf(ino, k / BSIZE));
    if 0 < b < |f.disk| then f.disk[b][k % BSIZE] else 0
  }

  ghost predicate SameBytes(f: Fs, f': Fs) {
    forall ino: nat, k: nat :: ByteAt(f', ino, k) == ByteAt(f, ino, k)
  }

  // -------------------------------------------------------- the operations

  /** Targets are read from inodes and indirect blocks only. */
  lemma TargetsByDisk(f: Fs, f': Fs)
    requires f'.l == f.l && f'.inodes == f.inodes && |f'.disk| == |f.disk|
    requires forall ino :: 0 < Addr(f, ino, NDIRECT) < |f.disk| ==>
      f'.disk[Addr(f, ino, NDIRECT)] == f.disk[Addr(f, ino, NDIRECT)]
    ensures SameTargets(f, f')
  {
    forall s ensures Target(f', s) == Target(f, s) {
      if s.Entry? && 0 < Addr(f, s.ino, NDIRECT) < |f.disk| {
        assert f'.disk[Addr(f, s.ino, NDIRECT)] == f.disk[Addr(f, s.ino, NDIRECT)];
      }
    }
  }

  /** The indirect block of a file is for files, and no data block. */
  lemma IndirectApart(f: Fs, ino: nat)
    requires TargetsOk(f) && Addr(f, ino, NDIRECT) != 0
    ensures f.l.nmeta <= Addr(f, ino, NDIRECT) < f.l.size && Taken(f, Addr(f, ino, NDIRECT))
    ensures forall ino': nat, bn: nat :: Target(f, SlotOf(ino', bn)) != Addr(f, ino, NDIRECT)
  {
    assert Target(f, Indirect(ino)) == Addr(f, ino, NDIRECT);
    forall ino': nat, bn: nat ensures Target(f, SlotOf(ino', bn)) != Addr(f, ino, NDIRECT) {
      assert SlotOf(ino', bn) != Indirect(ino);
    }
  }

  /** balloc takes block b: its bit is set and it is zeroed. */
  function Alloc(f: Fs, b: nat): Fs
    requires f.l.bmapstart + b / BPB < |f.disk| && b < |f.disk|
  {
    f.(disk := FlipUsed(f.disk, f.l.bmapstart, b)[b := ZeroBlock])
  }

  lemma MapBelow(f: Fs, b: nat)
    requires Laid(f) && b < f.l.size
    ensures f.l.bmapstart + b / BPB < f.l.nmeta
  {
  }

  lemma AllocBits(f: Fs, b: nat, c: nat)
    requires Laid(f) && f.l.nmeta <= b < f.l.size && !Used(f.disk, f.l.bmapstart, b) && c < f.l.size
    ensures Laid(Alloc(f, b))
    ensures Used(Alloc(f, b).disk, f.l.bmapstart, c) <==> c == b || Used(f.disk, f.l.bmapstart, c)
  {
    MapBelow(f, b);
    MapBelow(f, c);
    FlipUsedBit(f.disk, f.l.bmapstart, b, c);
    assert Alloc(f, b).disk[f.l.bmapstart + c / BPB] == FlipUsed(f.disk, f.l.bmapstart, b)[f.l.bmapstart + c / BPB];
  }

  lemma AllocTargets(f: Fs, b: nat)
    requires Owned(f, {}) && f.l.nmeta <= b < f.l.size && !Taken(f, b)
    ensures SameTargets(f, Alloc(f, b)) && SameBytes(f, Alloc(f, b))
  {
    var f' := Alloc(f, b);
    MapBelow(f, b);
    forall ino | 0 < Addr(f, ino, NDIRECT) < |f.disk|
      ensures f'.disk[Addr(f, ino, NDIRECT)] == f.disk[Addr(f, ino, NDIRECT)]
    {
      IndirectApart(f, ino);
    }
    TargetsByDisk(f, f');
    forall ino: nat, k: nat ensures ByteAt(f', ino, k) == ByteAt(f, ino, k) {
      assert Target(f, SlotOf(ino, k / BSIZE)) != b;
    }
  }

  lemma AllocOwned(f: Fs, b: nat)
    requires Owned(f, {}) && b < f.l.size && !Used(f.disk, f.l.bmapstart, b)
    ensures f.l.nmeta <= b && b < |f.disk| && Owned(Alloc(f, b), {b})
    ensures SameTargets(f, Alloc(f, b)) && SameBytes(f, Alloc(f, b)) && Alloc(f, b).disk[b] == ZeroBlock
  {
    assert BitAt(f, {}, b);
    AllocTargets(f, b);
    AllocBits(f, b, b);
    var f' := Alloc(f, b);
    forall c: nat ensures Taken(f', c) <==> Taken(f, c) {
      if Taken(f, c) { var s :| Target(f, s) == c; assert Target(f', s) == c; }
    }
    forall c: nat ensures BitAt(f', {b}, c) {
      assert BitAt(f, {}, c);
      if c < f.l.size { AllocBits(f, b, c); }
    }
  }

  /** ip->addrs[i] = b. */
  function SetAddr(f: Fs, ino: nat, i: nat, b: nat): Fs
    requires ino in f.inodes && i < |f.inodes[ino].addrs|
  {
    var ip := f.inodes[ino];
    f.(inodes := f.inodes[ino := ip.(addrs := ip.addrs[i := b])])
  }

  lemma ZeroWords(j: nat)
    requires j < WORDS
    ensures Word(ZeroBlock, j) == 0
  {
  }

  /** The slot that address i of an inode is. */
  function AddrSlot(ino: nat, i: nat): Slot {
    if i < NDIRECT then Direct(ino, i) else Indirect(ino)
  }

  lemma SetAddrMoves(f: Fs, ino: nat, i: nat, b: nat)
    requires Laid(f) && ino in f.inodes && i <= NDIRECT
    requires i == NDIRECT ==> Addr(f, ino, NDIRECT) == 0 && b < |f.disk| && f.disk[b] == ZeroBlock
    ensures Laid(SetAddr(f, ino, i, b)) && Moves(f, SetAddr(f, ino, i, b), AddrSlot(ino, i), b)
  {
    var f' := SetAddr(f, ino, i, b);
    forall s ensures Target(f', s) == if s == AddrSlot(ino, i) then b else Target(f, s) {
      if s.Entry? && s.ino == ino && s.j < NINDIRECT { ZeroWords(s.j); }
    }
  }

  /** Zero blocks in the place of no block. */
  lemma BytesMore(f: Fs, f': Fs, s0: Slot, b: nat)
    requires Moves(f, f', s0, b) && Target(f, s0) == 0 && |f'.disk| == |f.disk|
    requires b < |f'.disk| && f'.disk[b] == ZeroBlock
    requires forall ino: nat, bn: nat :: 0 < Target(f, SlotOf(ino, bn)) < |f.disk| ==>
      f'.disk[Target(f, SlotOf(ino, bn))] == f.disk[Target(f, SlotOf(ino, bn))]
    ensures SameBytes(f, f')
  {
    forall ino: nat, k: nat ensures ByteAt(f', ino, k) == ByteAt(f, ino, k) {
      var s := SlotOf(ino, k / BSIZE);
      assert Target(f', s) == if s == s0 then b else Target(f, s);
    }
  }

  /** A held, zeroed block becomes a direct or the indirect block of a file. */
  lemma SetAddrOwned(f: Fs, ino: nat, i: nat, b: nat)
    requires Owned(f, {b}) && ino in f.inodes && i <= NDIRECT && Addr(f, ino, i) == 0
    requires b < |f.disk| && f.disk[b] == ZeroBlock
    ensures var f' := SetAddr(f, ino, i, b);
            Owned(f', {}) && SameBytes(f, f') && Moves(f, f', AddrSlot(ino, i), b)
  {
    SetAddrMoves(f, ino, i, b);
    OwnedMore(f, SetAddr(f, ino, i, b), {b}, AddrSlot(ino, i), b);
    assert {b} - {b} == {};
    BytesMore(f, SetAddr(f, ino, i, b), AddrSlot(ino, i), b);
  }

  /** a[j] = b in the indirect block. */
  function SetEntry(f: Fs, ino: nat, j: nat, b: nat): Fs
    requires Addr(f, ino, NDIRECT) < |f.disk| && j < NINDIRECT && b < WORD_LIMIT
  {
    var a := Addr(f, ino, NDIRECT);
    f.(disk := f.disk[a := SetWord(f.disk[a], j, b)])
  }

  lemma SetEntryMoves(f: Fs, ino: nat, j: nat, b: nat)
    requires Laid(f) && TargetsOk(f) && j < NINDIRECT && 0 < Addr(f, ino, NDIRECT) < |f.disk| && b < WORD_LIMIT
    ensures Laid(SetEntry(f, ino, j, b)) && Moves(f, SetEntry(f, ino, j, b), Entry(ino, j), b)
  {
    var f', a := SetEntry(f, ino, j, b), Addr(f, ino, NDIRECT);
    forall s ensures Target(f', s) == if s == Entry(ino, j) then b else Target(f, s) {
      if s.Entry? && s.j < NINDIRECT {
        SetWordGet(f.disk[a], j, b, s.j);
        assert Target(f, Indirect(s.ino)) == a ==> Indirect(s.ino) == Indirect(ino) by {
          assert Target(f, Indirect(ino)) == a;
        }
      }
    }
  }

  /** The map is not touched by writes to the blocks of files. */
  lemma SameMap(f: Fs, f': Fs, a: nat)
    requires Laid(f) && Laid(f') && f'.l == f.l && |f'.disk| == |f.disk| && a >= f.l.nmeta
    requires forall c: nat :: c < |f.disk| && c != a ==> f'.disk[c] == f.disk[c]
    ensures SameBits(f, f')
  {
    forall b: nat | b < f.l.size ensures Used(f'.disk, f.l.bmapstart, b) <==> Used(f.disk, f.l.bmapstart, b) {
      MapBelow(f, b);
    }
  }

  lemma SetEntryOwned(f: Fs, ino: nat, j: nat, b: nat)
    requires Owned(f, {b}) && j < NINDIRECT && Addr(f, ino, NDIRECT) != 0 && Target(f, Entry(ino, j)) == 0
    requires b < |f.disk| && f.disk[b] == ZeroBlock
    ensures Addr(f, ino, NDIRECT) < |f.disk| && b < WORD_LIMIT
    ensures var f' := SetEntry(f, ino, j, b);
            Owned(f', {}) && SameBytes(f, f') && Moves(f, f', Entry(ino, j), b)
  {
    IndirectApart(f, ino);
    SetEntryMoves(f, ino, j, b);
    var f', a := SetEntry(f, ino, j, b), Addr(f, ino, NDIRECT);
    SameMap(f, f', a);
    OwnedMore(f, f', {b}, Entry(ino, j), b);
    assert {b} - {b} == {};
    BytesMore(f, f', Entry(ino, j), b);
  }

  // --------------------------------------------------------- data of files

  /** Block bn of file ino gets new contents. */
  function PutData(f: Fs, b: nat, data: Block): Fs
    requires b < |f.disk|
  {
    f.(disk := f.disk[b := data])
  }

  lemma PutDataOwned(f: Fs, ino: nat, bn: nat, data: Block)
    requires Owned(f, {}) && Target(f, SlotOf(ino, bn)) != 0
    ensures Target(f, SlotOf(ino, bn)) < |f.disk|
    ensures var f' := PutData(f, Target(f, SlotOf(ino, bn)), data); Owned(f', {}) && SameTargets(f, f')
  {
    var b := Target(f, SlotOf(ino, bn));
    var f' := PutData(f, b, data);
    forall i | 0 < Addr(f, i, NDIRECT) < |f.disk| ensures f'.disk[Addr(f, i, NDIRECT)] == f.disk[Addr(f, i, NDIRECT)] {
      IndirectApart(f, i);
    }
    TargetsByDisk(f, f');
    SameMap(f, f', b);
    OwnedSame(f, f', {});
  }

  lemma PutDataBytes(f: Fs, ino: nat, bn: nat, data: Block, i: nat, k: nat)
    requires Owned(f, {}) && Target(f, SlotOf(ino, bn)) != 0 && Target(f, SlotOf(ino, bn)) < |f.disk|
    ensures ByteAt(PutData(f, Target(f, SlotOf(ino, bn)), data), i, k) ==
            if i == ino && k / BSIZE == bn then data[k % BSIZE] else ByteAt(f, i, k)
  {
    PutDataOwned(f, ino, bn, data);
    var s, t := SlotOf(ino, bn), SlotOf(i, k / BSIZE);
    assert s == t <==> i == ino && k / BSIZE == bn;
  }

  /** Byte k of file i after src was written to file ino at offset off. */
  ghost predicate WrittenAt(f: Fs, f': Fs, ino: nat, off: nat, src: seq<byte>, i: nat, k: nat) {
    ByteAt(f', i, k) == if i == ino && off <= k < off + |src| then src[k - off] else ByteAt(f, i, k)
  }

  ghost predicate Written(f: Fs, f': Fs, ino: nat, off: nat, src: seq<byte>) {
    forall i: nat, k: nat :: WrittenAt(f, f', ino, off, src, i, k)
  }

  /** A block with some bytes from o on replaced. */
  function Patch(b: Block, o: nat, bytes: seq<byte>): Block
    requires o + |bytes| <= BSIZE
  {
    b[..o] + bytes + b[o + |bytes|..]
  }

  lemma PatchAt(b: Block, o: nat, bytes: seq<byte>, k: nat)
    requires o + |bytes| <= BSIZE && k < BSIZE
    ensures Patch(b, o, bytes)[k] == if o <= k < o + |bytes| then bytes[k - o] else b[k]
  {
  }

  /** One round of writei: `more` goes to offset off + |src|, inside one block. */
  lemma WriteMore(f: Fs, f1: Fs, ino: nat, off: nat, src: seq<byte>, more: seq<byte>, at: nat, bn: nat, o: nat, b: nat, all: seq<byte>)
    requires Owned(f1, {}) && Written(f, f1, ino, off, src) && at == off + |src| && bn == at / BSIZE && o == at % BSIZE
    requires Target(f1, SlotOf(ino, bn)) == b != 0 && b < |f1.disk| && o + |more| <= BSIZE && all == src + more
    ensures Written(f, PutData(f1, b, Patch(f1.disk[b], o, more)), ino, off, all)
  {
    var data := Patch(f1.disk[b], o, more);
    var f2 := PutData(f1, b, data);
    forall i: nat, k: nat ensures WrittenAt(f, f2, ino, off, all, i, k) {
      assert WrittenAt(f, f1, ino, off, src, i, k);
      PutDataBytes(f1, ino, bn, data, i, k);
      PatchAt(f1.disk[b], o, more, k % BSIZE);
      MoreAt(at, bn, o, |more|, k);
    }
  }

  lemma MoreAt(at: nat, bn: nat, o: nat, m: nat, k: nat)
    requires bn == at / BSIZE && o == at % BSIZE && o + m <= BSIZE
    ensures at <= k < at + m <==> k / BSIZE == bn && o <= k % BSIZE < o + m
    ensures k / BSIZE == bn ==> k - at == k % BSIZE - o
  {
  }

  lemma WrittenSame(f: Fs, f1: Fs, f2: Fs, ino: nat, off: nat, src: seq<byte>)
    requires Written(f, f1, ino, off, src) && SameBytes(f1, f2)
    ensures Written(f, f2, ino, off, src)
  {
    forall i: nat, k: nat ensures WrittenAt(f, f2, ino, off, src, i, k) {
      assert WrittenAt(f, f1, ino, off, src, i, k);
    }
  }

  // -------------------------------------------------------------- truncation

  /** The blocks that some slots refer to. */
  ghost function Image(f: Fs, slots: set<Slot>): set<nat> {
    set s | s in slots && Target(f, s) != 0 :: Target(f, s)
  }

  lemma ImageMore(f: Fs, slots: set<Slot>, s: Slot)
    requires TargetsOk(f) && s !in slots && Target(f, s) != 0
    ensures Image(f, slots + {s}) == Image(f, slots) + {Target(f, s)} && Target(f, s) !in Image(f, slots)
  {
  }

  /** The bits of the blocks in `gone` were cleared, and no file block has changed. */
  ghost predicate BitsLess(f: Fs, disk: Disk, gone: set<nat>)
    requires Laid(f)
  {
    && |disk| == |f.disk| && (forall c: nat :: f.l.nmeta <= c < |disk| ==> disk[c] == f.disk[c])
    && forall c: nat :: c < f.l.size ==> (Used(disk, f.l.bmapstart, c) <==> Used(f.disk, f.l.bmapstart, c) && c !in gone)
  }

  lemma BitsLessMore(f: Fs, disk: Disk, gone: set<nat>, b: nat)
    requires Laid(f) && BitsLess(f, disk, gone) && b < f.l.size && Used(disk, f.l.bmapstart, b)
    ensures BitsLess(f, FlipUsed(disk, f.l.bmapstart, b), gone + {b})
  {
    MapBelow(f, b);
    forall c: nat | c < f.l.size
      ensures Used(FlipUsed(disk, f.l.bmapstart, b), f.l.bmapstart, c) <==> Used(f.disk, f.l.bmapstart, c) && c !in gone + {b}
    {
      MapBelow(f, c);
      FlipUsedBit(disk, f.l.bmapstart, b, c);
    }
  }

  /** All slots of a file. */
  ghost predicate AllOf(slots: set<Slot>, ino: nat) {
    forall s: Slot :: s in slots ==> s.ino == ino
  }

  /** The file's slots are cleared and just its blocks are free again. */
  lemma TruncOwned(f: Fs, f': Fs, ino: nat, slots: set<Slot>)
    requires Owned(f, {}) && Laid(f') && f'.l == f.l && BitsLess(f, f'.disk, Image(f, slots)) && AllOf(slots, ino)
    requires forall s: Slot :: s.ino == ino && Target(f, s) != 0 ==> s in slots
    requires forall i :: i != ino ==> (i in f'.inodes <==> i in f.inodes) && (i in f.inodes ==> f'.inodes[i] == f.inodes[i])
    requires ino in f'.inodes && forall i :: 0 <= i <= NDIRECT ==> f'.inodes[ino].addrs[i] == 0
    ensures Owned(f', {})
    ensures forall i: nat, k: nat :: ByteAt(f', i, k) == if i == ino then 0 else ByteAt(f, i, k)
  {
    forall s ensures Target(f', s) == if s.ino == ino then 0 else Target(f, s) {
      if s.ino != ino && Addr(f, s.ino, NDIRECT) != 0 { IndirectApart(f, s.ino); }
    }
    forall c: nat | 0 < c ensures Taken(f', c) <==> Taken(f, c) && c !in Image(f, slots) {
      if Taken(f, c) {
        var s :| Target(f, s) == c;
        if c in Image(f, slots) { assert s.ino == ino; } else { assert Target(f', s) == c; }
      }
    }
    forall c: nat ensures BitAt(f', {}, c) { assert BitAt(f, {}, c); }
    forall i: nat, k: nat ensures ByteAt(f', i, k) == if i == ino then 0 else ByteAt(f, i, k) {
      assert Target(f', SlotOf(i, k / BSIZE)) == if i == ino then 0 else Target(f, SlotOf(i, k / BSIZE));
    }
  }
}
