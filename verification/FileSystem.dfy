/** The data part of fs.c, over the blocks as the buffer cache shows them: the block
    allocator, the block tree of an inode, reading and writing. A panic is a result. */
module FileSystem {
  import opened Blocks
  import opened Options
  import opened Bitmap
  import opened BlockTree
  import opened FileSteps
  import opened DiskNeed
  import LogMachine
  import Sets

  class FileSystem {
    const l: Layout
    const inodestart: nat
    var disk: Disk
    var inodes: Inodes            // as the kernel has them in memory
    var dinodes: Inodes           // as they are in the inode blocks
    var logged: set<nat>          // the blocks handed to log_write

    ghost function F(): Fs
      reads this
    {
      Fs(l, disk, inodes)
    }

    ghost predicate Valid()
      reads this
    {
      Owned(F(), {})
    }

    constructor (f: Fs, start: nat)
      requires Owned(f, {})
      ensures Valid() && F() == f && dinodes == f.inodes && inodestart == start && logged == {}
    {
      l, inodestart, disk, inodes, dinodes, logged := f.l, start, f.disk, f.inodes, f.inodes, {};
    }

    /** balloc: the first free block, zeroed. None: panic, every block is in use. */
    method Balloc() returns (r: Option<nat>)
      requires Laid(F())
      modifies this`disk, this`logged
      ensures r == None ==> F() == old(F()) && AllUsed(F(), l.size)
      ensures r.Some? ==> r.value < l.size && !Used(old(disk), l.bmapstart, r.value) && AllUsed(old(F()), r.value)
      ensures r.Some? ==> F() == Alloc(old(F()), r.value) && logged == old(logged) + {MapBlock(l, r.value), r.value}
    {
      var b := 0;
      while b < l.size
        invariant F() == old(F()) && b % BPB == 0 && AllUsed(F(), b) && logged == old(logged)
        decreases if b < l.size then l.size - b else 0
      {
        var bi := FirstFree(b);
        if bi < BPB && b + bi < l.size {
          SameMapBlock(b, bi);
          MapBelow(F(), b + bi);
          var m := l.bmapstart + b / BPB;
          disk := disk[m := FlipBlock(disk[m], bi)];
          disk := disk[b + bi := ZeroBlock];
          logged := logged + {m, b + bi};
          return Some(b + bi);
        }
        b := b + BPB;
      }
      return None;
    }

    /** The inner loop of balloc: the first clear bit of one block of the map, or its end. */
    method FirstFree(b: nat) returns (bi: nat)
      requires Laid(F()) && b < l.size && b % BPB == 0 && AllUsed(F(), b)
      ensures bi <= BPB && AllUsed(F(), b + bi) && (bi < BPB ==> b + bi <= l.size)
      ensures bi < BPB && b + bi < l.size ==> !Used(disk, l.bmapstart, b + bi)
    {
      bi := 0;
      while bi < BPB && b + bi < l.size
        invariant bi <= BPB && b + bi <= l.size && AllUsed(F(), b + bi)
      {
        SameMapBlock(b, bi);
        MapBelow(F(), b + bi);
        if !BlockBit(disk[l.bmapstart + b / BPB], bi) {
          return;
        }
        bi := bi + 1;
      }
    }

    /** bfree. False: panic, the block is free. */
    method Bfree(b: nat) returns (ok: bool)
      requires Laid(F()) && b < l.size
      modifies this`disk
      ensures ok == Used(old(disk), l.bmapstart, b)
      ensures disk == if ok then FlipUsed(old(disk), l.bmapstart, b) else old(disk)
    {
      MapBelow(F(), b);
      var m := l.bmapstart + b / BPB;
      if !BlockBit(disk[m], b % BPB) {
        return false;
      }
      disk := disk[m := FlipBlock(disk[m], b % BPB)];
      return true;
    }

    /** bmap: the address of block bn of a file, which is allocated if it is not there.
        None: panic, bn is too large or the disk is full. */
    method Bmap(ino: nat, bn: nat) returns (r: Option<nat>, ghost maps: set<nat>)
      requires Valid() && ino in inodes
      modifies this`disk, this`inodes, this`logged
      ensures r == None <==> bn >= MAXFILE || Lacks(old(F()), ino, bn) > Spare(old(F()))
      ensures r.Some? ==> Valid() && Mapped(old(F()), F(), ino, bn, r.value)
      ensures r.Some? ==> Took(old(F()), F(), ino, bn, r.value, old(logged), logged)
      ensures r.Some? ==> MapLog(old(F()), F(), ino, bn, r.value, old(logged), logged, maps)
      ensures Target(old(F()), SlotOf(ino, bn)) != 0 ==> r.Some? && logged == old(logged)
    {
      if bn < NDIRECT {
        ghost var f := F();
        r, maps := AddrOrAlloc(ino, bn);
        if r.Some? {
          MappedDirect(f, F(), ino, bn, r.value);
          OnlyOnDirect(f, F(), ino, bn, r.value);
        }
      } else if bn - NDIRECT < NINDIRECT {
        r, maps := BmapIndirect(ino, bn);
      } else {
        return None, {};
      }
    }

    /** bmap through the indirect block. */
    method BmapIndirect(ino: nat, bn: nat) returns (r: Option<nat>, ghost maps: set<nat>)
      requires Valid() && ino in inodes && NDIRECT <= bn < MAXFILE
      modifies this`disk, this`inodes, this`logged
      ensures r == None <==> Lacks(old(F()), ino, bn) > Spare(old(F()))
      ensures r.Some? ==> Valid() && Mapped(old(F()), F(), ino, bn, r.value)
      ensures r.Some? ==> Took(old(F()), F(), ino, bn, r.value, old(logged), logged)
      ensures r.Some? ==> MapLog(old(F()), F(), ino, bn, r.value, old(logged), logged, maps)
      ensures Target(old(F()), SlotOf(ino, bn)) != 0 ==> r.Some? && logged == old(logged)
    {
      ghost var f, log := F(), logged;
      var a;
      a, maps := AddrOrAlloc(ino, NDIRECT);
      if a == None { return None, {}; }
      ghost var f1, log1, maps1 := F(), logged, maps;
      EntryBefore(f, f1, ino, bn, a.value);
      r, maps := EntryOrAlloc(ino, bn - NDIRECT);
      if r.Some? {
        MappedEntry(f, f1, F(), ino, bn, a.value, r.value);
        OnlyOnEntry(f, f1, F(), ino, bn, a.value, r.value);
        EntryLog(f, f1, F(), ino, bn, a.value, r.value, log, log1, logged, maps1, maps);
        maps := maps1 + maps;
      }
    }

    /** Address i of an inode, a new block if it was 0. */
    method AddrOrAlloc(ino: nat, i: nat) returns (r: Option<nat>, ghost maps: set<nat>)
      requires Valid() && ino in inodes && i <= NDIRECT
      modifies this`disk, this`inodes, this`logged
      ensures r == None <==> Bit01(Addr(old(F()), ino, i) == 0) > Spare(old(F()))
      ensures r.Some? ==> Valid() && AddrSet(old(F()), F(), ino, i, r.value)
      ensures r.Some? ==> TookOne(old(F()), F(), Addr(old(F()), ino, i) == 0, r.value, old(logged), logged)
      ensures r.Some? ==> NewLog(l, Addr(old(F()), ino, i) != 0, r.value, old(logged), logged, maps)
      ensures Addr(old(F()), ino, i) != 0 ==> r.Some? && logged == old(logged)
    {
      ghost var f := F();
      var addr := inodes[ino].addrs[i];
      if addr != 0 {
        AddrKept(f, ino, i);
        return Some(addr), {};
      }
      r := Balloc();
      if r == None { NoneSpare(f); return r, {}; }
      ghost var f1 := F();
      AllocSpare(f, r.value);
      var ip := inodes[ino];
      inodes := inodes[ino := ip.(addrs := ip.addrs[i := r.value])];
      AddrMade(f, f1, F(), ino, i, r.value);
      SameSpare(f1, F());
      maps := {MapBlock(l, r.value)};
    }

    /** Entry j of the indirect block, a new block if it was 0. */
    method EntryOrAlloc(ino: nat, j: nat) returns (r: Option<nat>, ghost maps: set<nat>)
      requires Valid() && ino in inodes && j < NINDIRECT && Addr(F(), ino, NDIRECT) != 0
      modifies this`disk, this`logged
      ensures r == None <==> Bit01(Target(old(F()), Entry(ino, j)) == 0) > Spare(old(F()))
      ensures r.Some? ==> Valid() && EntrySet(old(F()), F(), ino, j, r.value)
      ensures r.Some? ==> TookOne(old(F()), F(), Target(old(F()), Entry(ino, j)) == 0, r.value, old(logged), logged)
      ensures r.Some? ==> logged <= old(logged) + maps + {r.value, Addr(F(), ino, NDIRECT)}
      ensures r.Some? ==> maps <= MapBlocks(l) && |maps| <= if Target(old(F()), Entry(ino, j)) != 0 then 0 else 1
      ensures Target(old(F()), Entry(ino, j)) != 0 ==> r.Some? && logged == old(logged)
    {
      ghost var f := F();
      IndirectApart(f, ino);
      var ind := inodes[ino].addrs[NDIRECT];
      var addr := Word(disk[ind], j);
      if addr != 0 {
        EntryKept(f, ino, j);
        return Some(addr), {};
      }
      r := Balloc();
      if r == None { NoneSpare(f); return r, {}; }
      ghost var f1 := F();
      AllocSpare(f, r.value);
      AllocFits(f, r.value);
      disk := disk[ind := SetWord(disk[ind], j, r.value)];
      logged := logged + {ind};
      EntryMade(f, f1, F(), ino, j, r.value);
      SameMap(f1, F(), ind);
      SameSpare(f1, F());
      maps := {MapBlock(l, r.value)};
    }

    /** iupdate: the inode goes to its inode block. */
    method Iupdate(ino: nat)
      requires ino in inodes
      modifies this`dinodes, this`logged
      ensures dinodes == old(dinodes)[ino := inodes[ino]] && logged == old(logged) + {InodeBlock(ino)}
    {
      dinodes := dinodes[ino := inodes[ino]];
      logged := logged + {InodeBlock(ino)};
    }

    function InodeBlock(ino: nat): nat {
      ino / 8 + inodestart
    }

    /** itrunc frees just the blocks of the file. The panic of bfree is not reached. */
    method Itrunc(ino: nat)
      requires Valid() && ino in inodes
      modifies this`disk, this`inodes, this`dinodes, this`logged
      ensures Valid() && inodes == old(inodes)[ino := Inode(0, seq(NDIRECT + 1, _ => 0))]
      ensures dinodes == old(dinodes)[ino := inodes[ino]]
      ensures forall i: nat, k: nat :: ByteAt(F(), i, k) == if i == ino then 0 else ByteAt(old(F()), i, k)
      ensures forall b: nat :: b < l.size ==>
        (Used(disk, l.bmapstart, b) <==> Used(old(disk), l.bmapstart, b) && !BlockOf(old(F()), ino, b))
    {
      ghost var f := F();
      ghost var done := FreeDirects(ino);
      ghost var all := done;
      if inodes[ino].addrs[NDIRECT] != 0 {
        all := FreeIndirect(ino, f, done);
      }
      inodes := inodes[ino := Inode(0, seq(NDIRECT + 1, _ => 0))];
      assert inodes == f.inodes[ino := inodes[ino]];
      TruncEnd(f, F(), ino, all, inodes[ino]);
      TruncBits(f, ino, all);
      Iupdate(ino);
    }

    /** itrunc's loop over the direct addresses. */
    method FreeDirects(ino: nat) returns (ghost done: set<Slot>)
      requires Valid() && ino in inodes
      modifies this`disk, this`inodes
      ensures Truncating(old(F()), F(), ino, NDIRECT, done) && DoneUpTo(old(F()), ino, NDIRECT, 0, done)
    {
      ghost var f := F();
      done := {};
      TruncStart(f, ino);
      for i := 0 to NDIRECT
        invariant Truncating(f, F(), ino, i, done) && DoneUpTo(f, ino, i, 0, done)
      {
        var ip := inodes[ino];
        if ip.addrs[i] != 0 {
          TruncFree(f, F(), ino, i, done, Direct(ino, i));
          var ok := Bfree(ip.addrs[i]);
          assert ok;
          inodes := inodes[ino := ip.(addrs := ip.addrs[i := 0])];
          done := done + {Direct(ino, i)};
        }
      }
    }

    /** The rest of itrunc: the entries of the indirect block, then the block itself. */
    method FreeIndirect(ino: nat, ghost f: Fs, ghost direct: set<Slot>) returns (ghost done: set<Slot>)
      requires Owned(f, {}) && Truncating(f, F(), ino, NDIRECT, direct) && DoneUpTo(f, ino, NDIRECT, 0, direct)
      requires f.inodes[ino].addrs[NDIRECT] != 0
      modifies this`disk
      ensures Truncating(f, F(), ino, NDIRECT, done) && Indirect(ino) in done
      ensures DoneUpTo(f, ino, NDIRECT, NINDIRECT, done - {Indirect(ino)})
    {
      var ind := inodes[ino].addrs[NDIRECT];
      done := FreeEntries(ino, f, direct);
      assert Target(f, Indirect(ino)) == ind && Indirect(ino) !in done;
      TruncFree(f, F(), ino, NDIRECT, done, Indirect(ino));
      var ok := Bfree(ind);
      assert done + {Indirect(ino)} - {Indirect(ino)} == done;
      done := done + {Indirect(ino)};
    }

    method FreeEntries(ino: nat, ghost f: Fs, ghost direct: set<Slot>) returns (ghost done: set<Slot>)
      requires Owned(f, {}) && Truncating(f, F(), ino, NDIRECT, direct) && DoneUpTo(f, ino, NDIRECT, 0, direct)
      requires f.inodes[ino].addrs[NDIRECT] != 0
      modifies this`disk
      ensures Truncating(f, F(), ino, NDIRECT, done) && DoneUpTo(f, ino, NDIRECT, NINDIRECT, done)
    {
      done := direct;
      for j := 0 to NINDIRECT
        invariant Truncating(f, F(), ino, NDIRECT, done) && DoneUpTo(f, ino, NDIRECT, j, done)
      {
        done := FreeEntry(ino, j, f, done);
      }
    }

    method FreeEntry(ino: nat, j: nat, ghost f: Fs, ghost before: set<Slot>) returns (ghost done: set<Slot>)
      requires Owned(f, {}) && Truncating(f, F(), ino, NDIRECT, before) && DoneUpTo(f, ino, NDIRECT, j, before)
      requires f.inodes[ino].addrs[NDIRECT] != 0 && j < NINDIRECT
      modifies this`disk
      ensures Truncating(f, F(), ino, NDIRECT, done) && DoneUpTo(f, ino, NDIRECT, j + 1, done)
    {
      IndirectApart(f, ino);
      done := before;
      var ind := inodes[ino].addrs[NDIRECT];
      assert disk[ind] == f.disk[ind];
      var addr := Word(disk[ind], j);
      if addr != 0 {
        assert Target(f, Entry(ino, j)) == addr;
        TruncFree(f, F(), ino, NDIRECT, done, Entry(ino, j));
        var ok := Bfree(addr);
        assert ok;
        done := done + {Entry(ino, j)};
      }
    }

    /** readi of up to n bytes. A hole among the blocks it reads gets a block, which is
        logged; if there are too few blocks for that, or the offset is one that no file can
        have, it panics. */
    method Readi(ino: nat, off: nat, n: nat) returns (r: ReadResult)
      requires Valid() && ino in inodes && off < WORD_LIMIT && n < WORD_LIMIT && inodes[ino].size < WORD_LIMIT
      modifies this`disk, this`inodes, this`logged
      ensures r == ReadError <==> off > old(inodes)[ino].size || off + n >= WORD_LIMIT
      ensures r == ReadError ==> F() == old(F()) && logged == old(logged)
      ensures r.Data? ==> Valid() && SameBytes(old(F()), F()) && OnlyAddrs(old(F()), F(), ino)
      ensures r.Data? ==> r.bytes == Content(old(F()), ino)[off..Least(off + n, old(inodes)[ino].size)]
      ensures r == ReadPanic <==> r != ReadError && TooMuch(old(F()), ino, off, Clip(off, n, old(inodes)[ino].size))
      ensures r.Data? ==> Fed(old(F()), F(), ino, off, |r.bytes|, |r.bytes|, logged)
      ensures r.Data? && old(logged) == {} ==> (logged == {} <==> RangeThere(old(F()), ino, off, |r.bytes|))
      ensures RangeThere(old(F()), ino, off, Clip(off, n, old(inodes)[ino].size)) ==> F() == old(F()) && logged == old(logged) && r != ReadPanic
      ensures NoHoles(old(F()), ino) ==> F() == old(F()) && logged == old(logged) && r != ReadPanic
    {
      SumWraps(off, n);
      if NoHoles(F(), ino) { FullRange(F(), ino, off, n); }
      if off > inodes[ino].size || (off + n) % WORD_LIMIT < off {
        return ReadError;
      }
      var want := if off + n > inodes[ino].size then inodes[ino].size - off else n;
      ghost var f := F();
      r := ReadBlocks(ino, off, want);
      if r.Data? && !RangeThere(f, ino, off, want) { HoleLogs(f, F(), ino, off, want, logged); }
    }

    /** The loop of readi. */
    method ReadBlocks(ino: nat, off: nat, want: nat) returns (r: ReadResult)
      requires Valid() && ino in inodes && off + want <= inodes[ino].size
      modifies this`disk, this`inodes, this`logged
      ensures r != ReadError && (r == ReadPanic <==> TooMuch(old(F()), ino, off, want))
      ensures r.Data? ==> Valid() && SameBytes(old(F()), F()) && OnlyAddrs(old(F()), F(), ino)
      ensures r.Data? ==> |r.bytes| == want && r.bytes == Content(old(F()), ino)[off..off + want]
      ensures r.Data? ==> Fed(old(F()), F(), ino, off, want, want, logged)
      ensures RangeThere(old(F()), ino, off, want) ==> F() == old(F()) && logged == old(logged) && r != ReadPanic
    {
      ghost var f, log := F(), logged;
      var got: seq<byte> := [];
      ReadStart(f, ino, off, want, log);
      if RangeThere(f, ino, off, want) { ThereIsEnough(f, ino, off, want); }
      while |got| < want
        invariant |got| <= want && Ongoing(Reads(f, F(), ino, off, want, got, log, logged))
        decreases want - |got|
      {
        var more := ReadBlock(ino, off + |got|, want - |got|, Reads(f, F(), ino, off, want, got, log, logged));
        if more == [] { return ReadPanic; }
        got := got + more;
      }
      ReadValid(Reads(f, F(), ino, off, want, got, log, logged));
      ReadEnd(Reads(f, F(), ino, off, want, got, log, logged));
      return Data(got);
    }

    /** The loop body of readi. Nothing: panic. */
    method ReadBlock(ino: nat, at: nat, left: nat, ghost j: Reads) returns (more: seq<byte>)
      requires Ongoing(j) && j.f' == F() && j.log' == logged && j.ino == ino && Laid(j.f)
      requires at == j.off + |j.got| && left == j.want - |j.got| > 0
      modifies this`disk, this`inodes, this`logged
      ensures |more| <= left && (more == [] ==> TooMuch(j.f, ino, j.off, j.want))
      ensures more != [] ==> Ongoing(j.(f' := F(), got := j.got + more, log' := logged))
    {
      ReadValid(j);
      var b; ghost var maps;
      var bn, o := at / BSIZE, at % BSIZE;
      b, maps := Bmap(ino, bn);
      if b == None {
        ReadStuck(j, bn);
        return [];
      }
      var m := Least(left, BSIZE - o);
      more := disk[b.value][o..o + m];
      ReadOn(j, j.(f' := F(), got := j.got + more, log' := logged), at, bn, o, m, b.value);
    }

    /** fileread's part for a file with an inode, with the new offset. It starts no operation
        of the log of its own: if none is outstanding, log_write panics. */
    method Fileread(ino: nat, off: nat, n: nat, outstanding: nat) returns (r: ReadResult, off': nat)
      requires Valid() && ino in inodes && off < WORD_LIMIT && n < WORD_LIMIT && inodes[ino].size < WORD_LIMIT
      requires logged == {}
      modifies this`disk, this`inodes, this`logged
      ensures r == ReadError <==> off > old(inodes)[ino].size || off + n >= WORD_LIMIT
      ensures r == ReadError ==> F() == old(F())
      ensures r.Data? ==> Valid() && SameBytes(old(F()), F()) && OnlyAddrs(old(F()), F(), ino)
      ensures r.Data? ==> r.bytes == Content(old(F()), ino)[off..Least(off + n, old(inodes)[ino].size)]
      ensures off' == off + if r.Data? then |r.bytes| else 0
      ensures r != ReadError && !LogMachine.InOperation(outstanding) ==>
        (r == ReadPanic <==> !RangeThere(old(F()), ino, off, Clip(off, n, old(inodes)[ino].size)))
      ensures r != ReadError && LogMachine.InOperation(outstanding) ==>
        (r == ReadPanic <==> TooMuch(old(F()), ino, off, Clip(off, n, old(inodes)[ino].size)))
      ensures r.Data? && !LogMachine.InOperation(outstanding) ==> F() == old(F()) && logged == {}
    {
      ghost var f, want := F(), Clip(off, n, inodes[ino].size);
      r := Readi(ino, off, n);
      assert r.Data? ==> |r.bytes| == want;
      if RangeThere(f, ino, off, want) { ThereIsEnough(f, ino, off, want); }
      if r.Data? && logged != {} && !LogMachine.InOperation(outstanding) {
        r := ReadPanic;
      }
      off' := off + if r.Data? then |r.bytes| else 0;
    }

    /** writei. `data` are the blocks it has logged but for the inode block. */
    method Writei(ino: nat, off: nat, src: seq<byte>) returns (r: WriteResult, ghost t: Tally, ghost data: set<nat>)
      requires Valid() && ino in inodes && off < WORD_LIMIT && |src| < WORD_LIMIT
      modifies this`disk, this`inodes, this`dinodes, this`logged
      ensures r == WriteError <==>
        off > old(inodes)[ino].size || off + |src| >= WORD_LIMIT || off + |src| > MAXFILE * BSIZE
      ensures r == WriteError ==> F() == old(F()) && dinodes == old(dinodes) && logged == old(logged)
      ensures r == WritePanic <==> r != WriteError && Need(old(F()), ino, off, |src|) > Spare(old(F()))
      ensures r == Wrote ==> Valid() && WriteDone(old(F()), F(), ino, off, src)
      ensures r == Wrote ==> dinodes == WrittenBack(old(dinodes), old(inodes), inodes, ino, off + |src|)
      ensures r == Wrote ==> logged <= data + {InodeBlock(ino)} && t.rounds == Rounds(off, |src|)
      ensures r == Wrote ==> Tallied(t, old(F()), F(), ino, off, old(logged), data)
    {
      ghost var d := Order(F(), F(), ino, off, |src|, 0);
      SuppliedStart(F(), ino, off, |src|);
      r, t, data := WriteiFor(ino, off, src, d);
      if r == Wrote { SuppliedAll(d.(f' := F(), n := |src|)); }
    }

    /** writei of a part of what order d is for: the bytes that come next. */
    method WriteiFor(ino: nat, off: nat, src: seq<byte>, ghost d: Order) returns (r: WriteResult, ghost t: Tally, ghost data: set<nat>)
      requires Valid() && ino in inodes && off < WORD_LIMIT && |src| < WORD_LIMIT
      requires Supplied(d) && Laid(d.f) && d.f' == F() && d.ino == ino && off == d.off + d.n
      requires off + |src| <= MAXFILE * BSIZE ==> d.n + |src| <= d.want
      modifies this`disk, this`inodes, this`dinodes, this`logged
      ensures r == WriteError <==>
        off > old(inodes)[ino].size || off + |src| >= WORD_LIMIT || off + |src| > MAXFILE * BSIZE
      ensures r == WriteError ==> F() == old(F()) && dinodes == old(dinodes) && logged == old(logged)
      ensures r == WritePanic ==> TooMuch(d.f, ino, d.off, d.want)
      ensures r == Wrote ==> Supplied(d.(f' := F(), n := d.n + |src|))
      ensures r == Wrote ==> Valid() && WriteDone(old(F()), F(), ino, off, src)
      ensures r == Wrote ==> dinodes == WrittenBack(old(dinodes), old(inodes), inodes, ino, off + |src|)
      ensures r == Wrote ==> logged <= data + {InodeBlock(ino)} && t.rounds == Rounds(off, |src|)
      ensures r == Wrote ==> Tallied(t, old(F()), F(), ino, off, old(logged), data)
    {
      var n := |src|;
      SumWraps(off, n);
      if off > inodes[ino].size || (off + n) % WORD_LIMIT < off || (off + n) % WORD_LIMIT > MAXFILE * BSIZE {
        return WriteError, Tally({}, {}, 0, 0, 0), {};
      }
      var ok;
      ok, t := WriteBlocks(ino, off, src, d);
      if !ok { return WritePanic, t, {}; }
      data := logged;
      ghost var d' := d.(f' := F(), n := d.n + |src|);
      FinishWrite(ino, off, src, old(F()), old(logged), t);
      SuppliedSize(d', d'.(f' := F()));
      return Wrote, t, data;
    }

    /** The end of writei: a new size, and only then iupdate. */
    method FinishWrite(ino: nat, off: nat, src: seq<byte>, ghost f: Fs, ghost log: set<nat>, ghost t: Tally)
      requires Laid(f) && Going(Job(t, f, F(), ino, off, src, log, logged)) && ino in f.inodes && off <= f.inodes[ino].size
      modifies this`inodes, this`dinodes, this`logged
      ensures Valid() && WriteDone(f, F(), ino, off, src) && Tallied(t, f, F(), ino, off, log, old(logged))
      ensures dinodes == WrittenBack(old(dinodes), f.inodes, inodes, ino, off + |src|)
      ensures logged <= old(logged) + {InodeBlock(ino)} && t.rounds == Rounds(off, |src|) && SameTargets(old(F()), F())
    {
      ghost var f1 := F();
      assert Progress(Job(t, f, f1, ino, off, src, log, logged));
      if |src| > 0 && off + |src| > inodes[ino].size {
        inodes := inodes[ino := inodes[ino].(size := off + |src|)];
        Iupdate(ino);
      }
      FillEnd(f, f1, F(), ino, off, src);
      SizeKeeps(f1, F());
      TallySame(t, f, f1, F(), ino, off, log, old(logged));
    }

    /** The loop of writei. False: panic. */
    method WriteBlocks(ino: nat, off: nat, src: seq<byte>, ghost d: Order) returns (ok: bool, ghost t: Tally)
      requires Valid() && ino in inodes
      requires Supplied(d) && Laid(d.f) && d.f' == F() && d.ino == ino && off == d.off + d.n && d.n + |src| <= d.want
      modifies this`disk, this`inodes, this`logged
      ensures ok ==> Going(Job(t, old(F()), F(), ino, off, src, old(logged), logged))
      ensures if ok then Supplied(d.(f' := F(), n := d.n + |src|)) else TooMuch(d.f, ino, d.off, d.want)
    {
      t := Tally({}, {}, 0, 0, 0);
      ghost var f, log := F(), logged;
      var tot, n := 0, |src|;
      ghost var done: seq<byte> := [];
      GoingStart(t, f, ino, off, log);
      while tot < n
        invariant tot <= n && done == src[..tot] && Going(Job(t, f, F(), ino, off, done, log, logged))
        invariant (0 < tot < n ==> (off + tot) % BSIZE == 0) && Supplied(d.(f' := F(), n := d.n + tot))
        decreases n - tot
      {
        var at := off + tot;
        var m := Least(n - tot, BSIZE - at % BSIZE);
        ChunkFits(at, n - tot, m);
        var more := src[tot..tot + m];
        ghost var all := src[..tot + m];
        assert all == done + more;
        ok, t := WriteBlock(ino, at, more, f, off, done, all, log, t, d.(f' := F(), n := d.n + tot));
        if !ok { return; }
        done := all;
        tot := tot + m;
      }
      assert src[..n] == src;
      ok := true;
    }

    /** The loop body of writei, inside one block. False: panic. */
    method WriteBlock(ino: nat, at: nat, more: seq<byte>, ghost f: Fs, ghost off: nat, ghost done: seq<byte>,
                      ghost all: seq<byte>, ghost log: set<nat>, ghost t: Tally, ghost d: Order)
      returns (ok: bool, ghost t': Tally)
      requires Going(Job(t, f, F(), ino, off, done, log, logged)) && all == done + more
      requires at == off + |done| && 0 < |more| && at % BSIZE + |more| <= BSIZE && (|done| > 0 ==> at % BSIZE == 0)
      requires Supplied(d) && Laid(d.f) && d.f' == F() && d.ino == ino && at == d.off + d.n && d.n + |more| <= d.want
      modifies this`disk, this`inodes, this`logged
      ensures ok ==> Going(Job(t', f, F(), ino, off, all, log, logged)) && Supplied(d.(f' := F(), n := d.n + |more|))
      ensures !ok ==> TooMuch(d.f, ino, d.off, d.want)
    {
      ghost var f1, log1 := F(), logged;
      GoingValid(Job(t, f, f1, ino, off, done, log, log1));
      var b; ghost var maps;
      var bn, o := at / BSIZE, at % BSIZE;
      b, maps := Bmap(ino, bn);
      if b == None {
        SuppliedNoMore(d, bn);
        return false, t;
      }
      ghost var f2, log2 := F(), logged;
      disk := disk[b.value := Patch(disk[b.value], o, more)];
      logged := logged + {b.value};
      t' := Counted(t, b.value, maps, Target(f1, SlotOf(ino, bn)) == 0, bn >= NDIRECT && Addr(f1, ino, NDIRECT) == 0);
      ghost var job := Job(t, f, f1, ino, off, done, log, log1);
      SuppliedMore(d, d.(f' := F(), n := d.n + |more|), f2, at, bn, o, b.value, log1, log2, Patch(f2.disk[b.value], o, more));
      GoingOn(job, Job(t', f, F(), ino, off, all, log, logged), f2, log2, more, at, bn, o, b.value, maps);
      return true, t';
    }

    /** filewrite: chunks of at most CHUNK bytes, each an operation of the log of its own.
        If a chunk fails, what came before it stays written. `logs` are the blocks that
        each operation logged. */
    method Filewrite(ino: nat, off: nat, src: seq<byte>) returns (r: WriteResult, done: nat, ghost logs: seq<set<nat>>)
      requires Valid() && ino in inodes && off + |src| < WORD_LIMIT
      modifies this`disk, this`inodes, this`dinodes, this`logged
      ensures done <= |src| && (r == Wrote ==> done == |src|)
      ensures off > old(inodes)[ino].size ==> F() == old(F()) && done == 0 && r == if src == [] then Wrote else WriteError
      ensures r != WritePanic && off <= old(inodes)[ino].size ==> Valid() && Writing(old(F()), F(), ino, off, src[..done])
      ensures r == WriteError && off <= old(inodes)[ino].size ==> done < |src| && off + done + Least(CHUNK, |src| - done) > MAXFILE * BSIZE
      ensures off <= old(inodes)[ino].size ==> (r == WritePanic <==> Need(old(F()), ino, off, Reach(off, |src|)) > Spare(old(F())))
      ensures off <= old(inodes)[ino].size && r != WritePanic ==> done == Reach(off, |src|) && (r == Wrote <==> done == |src|)
      ensures NoHoles(old(F()), ino) ==> FewLogs(l, logs)
      ensures r != WritePanic && NoHoles(old(F()), ino) && old(dinodes) == old(inodes) ==> dinodes == inodes
    {
      if off <= inodes[ino].size {
        r, done, logs := WriteChunks(ino, off, src);
      } else if src == [] {
        r, done, logs := Wrote, 0, [];
      } else {
        r := WriteBehind(ino, off, src[..Least(CHUNK, |src|)]);
        done, logs := 0, [];
      }
    }

    /** filewrite where the offset is in the file. */
    method WriteChunks(ino: nat, off: nat, src: seq<byte>) returns (r: WriteResult, done: nat, ghost logs: seq<set<nat>>)
      requires Valid() && ino in inodes && off + |src| < WORD_LIMIT && off <= inodes[ino].size
      modifies this`disk, this`inodes, this`dinodes, this`logged
      ensures done <= |src| && (r == Wrote ==> done == |src|)
      ensures r != WritePanic ==> Valid() && Writing(old(F()), F(), ino, off, src[..done])
      ensures r == WriteError ==> done < |src| && off + done + Least(CHUNK, |src| - done) > MAXFILE * BSIZE
      ensures r == WritePanic <==> Need(old(F()), ino, off, Reach(off, |src|)) > Spare(old(F()))
      ensures r != WritePanic ==> done == Reach(off, |src|) && (r == Wrote <==> done == |src|)
      ensures NoHoles(old(F()), ino) ==> FewLogs(l, logs)
      ensures r != WritePanic && NoHoles(old(F()), ino) && old(dinodes) == old(inodes) ==> dinodes == inodes
    {
      ghost var f, want := F(), Reach(off, |src|);
      ReachIs(off, |src|);
      SuppliedStart(f, ino, off, want);
      r, done, logs := ChunkLoop(ino, off, src, want);
      if r != WritePanic {
        UnderwayEnd(Stretch(f, F(), ino, off, src[..done]));
        SuppliedAll(Order(f, F(), ino, off, want, want));
      }
    }

    /** Its loop. */
    method ChunkLoop(ino: nat, off: nat, src: seq<byte>, ghost want: nat) returns (r: WriteResult, done: nat, ghost logs: seq<set<nat>>)
      requires Valid() && ino in inodes && off + |src| < WORD_LIMIT && off <= inodes[ino].size
      requires want == Reach(off, |src|) <= |src| && Supplied(Order(F(), F(), ino, off, want, 0))
      modifies this`disk, this`inodes, this`dinodes, this`logged
      ensures done <= |src| && (r == Wrote ==> done == |src|)
      ensures r != WritePanic ==> ino in inodes && Underway(Stretch(old(F()), F(), ino, off, src[..done]))
      ensures r == WriteError ==> done < |src| && off + done + Least(CHUNK, |src| - done) > MAXFILE * BSIZE
      ensures if r == WritePanic then TooMuch(old(F()), ino, off, want)
              else done == want && Supplied(Order(old(F()), F(), ino, off, want, want))
      ensures NoHoles(old(F()), ino) ==> FewLogs(l, logs)
      ensures r != WritePanic && NoHoles(old(F()), ino) && old(dinodes) == old(inodes) ==> dinodes == inodes
    {
      done, logs := 0, [];
      ghost var f, full := F(), NoHoles(F(), ino);
      ghost var part: seq<byte> := [];
      UnderwayStart(f, ino, off);
      ghost var k := 0;
      while done < |src|
        invariant done == |src| || done == k * CHUNK
        invariant done <= want && Supplied(Order(f, F(), ino, off, want, done))
        invariant done <= |src| && part == src[..done] && ino in inodes && Underway(Stretch(f, F(), ino, off, part))
        invariant full ==> FewLogs(l, logs) && NoHoles(F(), ino)
        invariant full && old(dinodes) == old(inodes) ==> dinodes == inodes
        decreases |src| - done
      {
        var n1 := Least(CHUNK, |src| - done);
        var more := src[done..done + n1];
        ghost var all := src[..done + n1];
        assert all == part + more;
        ghost var log;
        ReachStep(off, |src|, k, done, n1);
        r, log := WriteChunk(ino, off + done, more, f, off, part, all, Order(f, F(), ino, off, want, done));
        if r != Wrote { return; }
        logs := logs + [log];
        part := all;
        done, k := done + n1, k + 1;
      }
      r := Wrote;
    }

    method WriteBehind(ino: nat, off: nat, src: seq<byte>) returns (r: WriteResult)
      requires Valid() && ino in inodes && off + |src| < WORD_LIMIT && off > inodes[ino].size
      modifies this`disk, this`inodes, this`dinodes, this`logged
      ensures r == WriteError && F() == old(F()) && dinodes == old(dinodes)
    {
      ghost var t, data;
      r, t, data := Writei(ino, off, src);
    }

    /** One operation of filewrite. */
    method WriteChunk(ino: nat, at: nat, more: seq<byte>, ghost f: Fs, ghost off: nat, ghost before: seq<byte>, ghost all: seq<byte>,
                      ghost d: Order)
      returns (r: WriteResult, ghost log: set<nat>)
      requires Underway(Stretch(f, F(), ino, off, before)) && at == off + |before| && at + |more| < WORD_LIMIT && |more| <= CHUNK
      requires all == before + more && ino in inodes
      requires Supplied(d) && Laid(d.f) && d.f' == F() && d.ino == ino && at == d.off + d.n
      requires at + |more| <= MAXFILE * BSIZE ==> d.n + |more| <= d.want
      modifies this`disk, this`inodes, this`dinodes, this`logged
      ensures r == Wrote ==> ino in inodes && Underway(Stretch(f, F(), ino, off, all))
      ensures r == WriteError ==> F() == old(F()) && dinodes == old(dinodes) && at + |more| > MAXFILE * BSIZE
      ensures r == WritePanic ==> TooMuch(d.f, ino, d.off, d.want)
      ensures r == Wrote ==> at + |more| <= MAXFILE * BSIZE && Supplied(d.(f' := F(), n := d.n + |more|))
      ensures r == Wrote && NoHoles(old(F()), ino) ==> Few(l, log) && NoHoles(F(), ino)
      ensures r == Wrote && NoHoles(old(F()), ino) && old(dinodes) == old(inodes) ==> dinodes == inodes
    {
      logged, log := {}, {};
      ghost var f1 := F();
      UnderwayEnd(Stretch(f, f1, ino, off, before));
      ghost var t, data;
      r, t, data := WriteiFor(ino, at, more, d);
      if r == Wrote {
        log := logged;
        WritingMore(f, f1, F(), ino, off, before, more, at);
        UnderwayMore(Stretch(f, F(), ino, off, all));
        if NoHoles(f1, ino) {
          ChunkLogs(t, f1, F(), ino, at, |more|, data, InodeBlock(ino));
          Sets.SubsetSize(logged, data + {InodeBlock(ino)});
          BackAgain(f1, F(), ino, at, more);
          StaysFull(f1, F(), ino, at, more);
        }
      }
    }
  }

  /** Few enough blocks for one operation of the log: see MAXOPBLOCKS. */
  ghost predicate Few(l: Layout, log: set<nat>) {
    |log| <= if l.size <= BPB then 7 else 10
  }

  ghost predicate FewLogs(l: Layout, logs: seq<set<nat>>) {
    forall i :: 0 <= i < |logs| ==> Few(l, logs[i])
  }

  /** Unsigned addition wraps around just when the sum is below one of its terms. */
  lemma SumWraps(a: nat, b: nat)
    requires a < WORD_LIMIT && b < WORD_LIMIT
    ensures (a + b) % WORD_LIMIT < a <==> a + b >= WORD_LIMIT
  {
    if a + b >= WORD_LIMIT { assert (a + b) % WORD_LIMIT == a + b - WORD_LIMIT; }
  }

  datatype ReadResult = Data(bytes: seq<byte>) | ReadError | ReadPanic

  datatype WriteResult = Wrote | WriteError | WritePanic

  function Least(a: nat, b: nat): nat {
    if a < b then a else b
  }
}
