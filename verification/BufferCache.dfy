/** The buffer cache of bio.c over the disk of memide.c. Buffers are numbered
    0..NBUF; number NBUF stands for bcache.head. A panic is an outcome. */
module BufferCache {
  import opened Blocks
  import opened Options
  import Sets

  const NBUF: nat := 30
  const DISK: nat := 1   // the device number of the file system disk

  datatype Buf = Buf(dev: nat, blockno: nat, valid: bool, dirty: bool, refcnt: nat, locked: bool, data: Block)

  // ------------------------------------------------------------- the ring

  /** The ring read from the head around to the head. */
  function Path(order: seq<nat>): seq<nat> {
    [NBUF] + order + [NBUF]
  }

  /** next and prev link the buffers of `order`, in that order, into a doubly
      linked ring through the head. */
  ghost predicate Ring(next: seq<nat>, prev: seq<nat>, order: seq<nat>) {
    && |next| == |prev| == NBUF + 1 && Sets.Distinct(order) && (forall i :: 0 <= i < |order| ==> order[i] < NBUF)
    && forall i :: 0 <= i <= |order| ==>
         next[Path(order)[i]] == Path(order)[i + 1] && prev[Path(order)[i + 1]] == Path(order)[i]
  }

  function Without(order: seq<nat>, k: nat): seq<nat>
    requires k < |order|
  {
    order[..k] + order[k + 1..]
  }

  lemma UnlinkRing(next: seq<nat>, prev: seq<nat>, order: seq<nat>, k: nat)
    requires Ring(next, prev, order) && k < |order|
    ensures var b := order[k];
            && next[b] <= NBUF && prev[b] <= NBUF
            && Ring(next[prev[b] := next[b]], prev[next[b] := prev[b]], Without(order, k))
  {
    var b := order[k];
    var path := Path(order);
    assert path[k + 1] == b;
    assert next[path[k + 1]] == path[k + 2] && prev[path[k + 1]] == path[k];
    var rest := Path(Without(order, k));
    assert forall i :: 0 <= i <= k ==> rest[i] == path[i];
    assert forall i :: k < i < |rest| ==> rest[i] == path[i + 1];
    forall i | 0 <= i < |order|
      ensures next[prev[b] := next[b]][rest[i]] == rest[i + 1] && prev[next[b] := prev[b]][rest[i + 1]] == rest[i]
    {
      assert next[path[i]] == path[i + 1] && prev[path[i + 1]] == path[i];
      assert next[path[i + 1]] == path[i + 2] && prev[path[i + 2]] == path[i + 1];
    }
  }

  lemma InsertRing(next: seq<nat>, prev: seq<nat>, order: seq<nat>, b: nat)
    requires Ring(next, prev, order) && b < NBUF && b !in order
    ensures next[NBUF] <= NBUF
    ensures Ring(next[b := next[NBUF]][NBUF := b], prev[b := NBUF][next[NBUF] := b], [b] + order)
  {
    var path := Path(order);
    assert path[0] == NBUF && next[path[0]] == path[1];
    var more := Path([b] + order);
    assert more[0] == NBUF && more[1] == b;
    assert forall i :: 1 < i < |more| ==> more[i] == path[i - 1];
    forall i | 0 <= i <= |order| + 1
      ensures next[b := next[NBUF]][NBUF := b][more[i]] == more[i + 1]
      ensures prev[b := NBUF][next[NBUF] := b][more[i + 1]] == more[i]
    {
      if i >= 2 {
        assert next[path[i - 1]] == path[i] && prev[path[i]] == path[i - 1];
      }
    }
  }

  // ---------------------------------------------------------- consistency

  predicate Caches(b: Buf, dev: nat, blockno: nat) {
    b.dev == dev && b.blockno == blockno
  }

  /** Not referenced and not dirty: the buffers that bget may recycle. */
  predicate Idle(b: Buf) {
    b.refcnt == 0 && !b.dirty
  }

  /** No two buffers cache the same block of a nonzero device. */
  ghost predicate Unique(bufs: seq<Buf>) {
    forall i, j :: 0 <= i < j < |bufs| && bufs[i].dev != 0 ==> !Caches(bufs[j], bufs[i].dev, bufs[i].blockno)
  }

  /** refcnt counts the holders, and only held buffers are locked. */
  ghost predicate Counted(bufs: seq<Buf>, holders: multiset<nat>) {
    forall i :: 0 <= i < |bufs| ==> bufs[i].refcnt == holders[i] && (bufs[i].locked ==> bufs[i].refcnt > 0)
  }

  /** A valid buffer agrees with the disk, a dirty one with `pinned`, unless its
      holder has changed the data and not yet called bwrite or log_write. */
  ghost predicate BufAgrees(x: Buf, disk: Disk, pinned: map<nat, Block>, changed: bool) {
    && (changed ==> x.locked && x.valid)
    && (x.valid ==> x.dev == DISK && x.blockno < |disk|)
    && (x.dirty ==> x.valid && x.blockno in pinned)
    && (x.valid && !changed ==> x.data == if x.dirty then pinned[x.blockno] else disk[x.blockno])
  }

  ghost predicate Cached(bufs: seq<Buf>, b: nat) {
    exists i :: 0 <= i < |bufs| && bufs[i].dirty && bufs[i].blockno == b
  }

  ghost predicate Agrees(bufs: seq<Buf>, disk: Disk, pinned: map<nat, Block>, touched: set<nat>) {
    && (forall i :: i in touched ==> i < |bufs|)
    && (forall i :: 0 <= i < |bufs| ==> BufAgrees(bufs[i], disk, pinned, i in touched))
    && (forall b :: b in pinned ==> Cached(bufs, b))
  }

  function Unpin(pinned: map<nat, Block>, b: nat): map<nat, Block> {
    if b in pinned then pinned - {b} else pinned
  }

  /** The disk overlaid with the dirty buffers. */
  function Current(disk: Disk, pinned: map<nat, Block>, b: nat): Block
    requires b < |disk|
  {
    if b in pinned then pinned[b] else disk[b]
  }

  function Held(x: Buf): Buf {
    x.(refcnt := x.refcnt + 1, locked := true)
  }

  function Rebound(x: Buf, dev: nat, blockno: nat): Buf {
    Buf(dev, blockno, false, false, 1, true, x.data)
  }

  function Released(x: Buf): Buf {
    x.(refcnt := if x.refcnt > 0 then x.refcnt - 1 else 0, locked := false)
  }

  ghost predicate Consistent(bufs: seq<Buf>, disk: Disk, pinned: map<nat, Block>, touched: set<nat>, holders: multiset<nat>) {
    Unique(bufs) && Counted(bufs, holders) && Agrees(bufs, disk, pinned, touched)
  }

  lemma HoldKeeps(bufs: seq<Buf>, disk: Disk, pinned: map<nat, Block>, touched: set<nat>, holders: multiset<nat>, b: nat)
    requires Consistent(bufs, disk, pinned, touched, holders) && b < |bufs|
    ensures Consistent(bufs[b := Held(bufs[b])], disk, pinned, touched, holders + multiset{b})
  {
    AgreesSame(bufs, bufs[b := Held(bufs[b])], disk, pinned, touched, touched);
  }

  /** Agrees looks only at what a buffer caches, its flags and its data. */
  lemma AgreesSame(bufs: seq<Buf>, bufs': seq<Buf>, disk: Disk, pinned: map<nat, Block>, touched: set<nat>, touched': set<nat>)
    requires Agrees(bufs, disk, pinned, touched) && |bufs'| == |bufs| && touched' == touched
    requires forall i :: 0 <= i < |bufs| ==>
      bufs'[i] == bufs[i].(refcnt := bufs'[i].refcnt, locked := bufs'[i].locked) && (i in touched ==> bufs'[i].locked)
    ensures Agrees(bufs', disk, pinned, touched')
  {
    forall b | b in pinned ensures Cached(bufs', b) {
      var i :| 0 <= i < |bufs| && bufs[i].dirty && bufs[i].blockno == b;
      assert bufs'[i].dirty;
    }
  }

  lemma ReleaseKeeps(bufs: seq<Buf>, disk: Disk, pinned: map<nat, Block>, touched: set<nat>, holders: multiset<nat>, b: nat)
    requires Consistent(bufs, disk, pinned, touched, holders) && b < |bufs| && bufs[b].locked && b !in touched
    ensures Consistent(bufs[b := Released(bufs[b])], disk, pinned, touched, holders - multiset{b})
  {
    AgreesSame(bufs, bufs[b := Released(bufs[b])], disk, pinned, touched, touched);
  }

  lemma RebindKeeps(bufs: seq<Buf>, disk: Disk, pinned: map<nat, Block>, touched: set<nat>, holders: multiset<nat>,
                    b: nat, dev: nat, blockno: nat)
    requires Consistent(bufs, disk, pinned, touched, holders) && b < |bufs| && Idle(bufs[b])
    requires forall i :: 0 <= i < |bufs| ==> !Caches(bufs[i], dev, blockno)
    ensures Consistent(bufs[b := Rebound(bufs[b], dev, blockno)], disk, pinned, touched, holders + multiset{b})
  {
    var bufs' := bufs[b := Rebound(bufs[b], dev, blockno)];
    forall x | x in pinned ensures Cached(bufs', x) {
      var i :| 0 <= i < |bufs| && bufs[i].dirty && bufs[i].blockno == x;
      assert bufs'[i].dirty;
    }
  }

  /** A dirty block is always cached, so a buffer that bget has just rebound is for
      a block that is not pinned. */
  lemma FillKeeps(bufs: seq<Buf>, disk: Disk, pinned: map<nat, Block>, touched: set<nat>, holders: multiset<nat>, b: nat)
    requires Consistent(bufs, disk, pinned, touched, holders) && b < |bufs| && !bufs[b].valid
    requires bufs[b].dev == DISK && bufs[b].blockno < |disk|
    ensures Consistent(bufs[b := bufs[b].(valid := true, data := disk[bufs[b].blockno])], disk, pinned, touched, holders)
  {
    var bufs' := bufs[b := bufs[b].(valid := true, data := disk[bufs[b].blockno])];
    forall x | x in pinned ensures Cached(bufs', x) {
      var i :| 0 <= i < |bufs| && bufs[i].dirty && bufs[i].blockno == x;
      assert bufs'[i].dirty;
    }
  }

  lemma CurrentData(bufs: seq<Buf>, disk: Disk, pinned: map<nat, Block>, touched: set<nat>, b: nat)
    requires Unique(bufs) && Agrees(bufs, disk, pinned, touched) && b < |bufs| && bufs[b].valid
    ensures bufs[b].blockno < |disk| && (bufs[b].dirty <==> bufs[b].blockno in pinned)
    ensures b !in touched ==> bufs[b].data == Current(disk, pinned, bufs[b].blockno)
  {
    if bufs[b].blockno in pinned {
      var i :| 0 <= i < |bufs| && bufs[i].dirty && bufs[i].blockno == bufs[b].blockno;
      assert Caches(bufs[i], bufs[b].dev, bufs[b].blockno);
    }
  }

  lemma OnlyOne(bufs: seq<Buf>, disk: Disk, pinned: map<nat, Block>, touched: set<nat>, b: nat, i: nat)
    requires Unique(bufs) && Agrees(bufs, disk, pinned, touched) && b < |bufs| && i < |bufs|
    requires bufs[b].valid && bufs[i].valid && bufs[i].blockno == bufs[b].blockno
    ensures i == b
  {
    assert Caches(bufs[i], bufs[b].dev, bufs[b].blockno) && Caches(bufs[b], bufs[i].dev, bufs[i].blockno);
  }

  lemma UnpinMinus(pinned: map<nat, Block>, b: nat)
    ensures Unpin(pinned, b) == pinned - {b}
  {
    if b !in pinned { assert pinned - {b} == pinned; }
  }

  lemma UnpinKeys(pinned: map<nat, Block>, b: nat)
    ensures forall x :: x in Unpin(pinned, b) <==> x in pinned && x != b
    ensures forall x :: x in Unpin(pinned, b) ==> Unpin(pinned, b)[x] == pinned[x]
  {
  }

  lemma WriteAgrees(bufs: seq<Buf>, disk: Disk, pinned: map<nat, Block>, touched: set<nat>, b: nat, pinned': map<nat, Block>)
    requires Unique(bufs) && Agrees(bufs, disk, pinned, touched) && b < |bufs| && bufs[b].valid
    requires forall x :: x in pinned' <==> x in pinned && x != bufs[b].blockno
    requires forall x :: x in pinned' ==> pinned'[x] == pinned[x]
    ensures bufs[b].blockno < |disk|
    ensures Agrees(bufs[b := bufs[b].(dirty := false)], disk[bufs[b].blockno := bufs[b].data], pinned', touched - {b})
  {
    var bufs' := bufs[b := bufs[b].(dirty := false)];
    var disk' := disk[bufs[b].blockno := bufs[b].data];
    forall i | 0 <= i < |bufs'| ensures BufAgrees(bufs'[i], disk', pinned', i in touched - {b}) {
      assert BufAgrees(bufs[i], disk, pinned, i in touched);
      if i != b && bufs[i].valid && bufs[i].blockno == bufs[b].blockno { OnlyOne(bufs, disk, pinned, touched, b, i); }
    }
    forall x | x in pinned' ensures Cached(bufs', x) {
      var i :| 0 <= i < |bufs| && bufs[i].dirty && bufs[i].blockno == x;
      assert bufs'[i].dirty;
    }
  }

  lemma WriteKeeps(bufs: seq<Buf>, disk: Disk, pinned: map<nat, Block>, touched: set<nat>, holders: multiset<nat>, b: nat)
    requires Consistent(bufs, disk, pinned, touched, holders) && b < |bufs| && bufs[b].valid
    ensures bufs[b].dev == DISK && bufs[b].blockno < |disk|
    ensures Consistent(bufs[b := bufs[b].(dirty := false)], disk[bufs[b].blockno := bufs[b].data],
                       Unpin(pinned, bufs[b].blockno), touched - {b}, holders)
  {
    UnpinKeys(pinned, bufs[b].blockno);
    WriteAgrees(bufs, disk, pinned, touched, b, Unpin(pinned, bufs[b].blockno));
  }

  lemma PinKeeps(bufs: seq<Buf>, disk: Disk, pinned: map<nat, Block>, touched: set<nat>, holders: multiset<nat>, b: nat)
    requires Consistent(bufs, disk, pinned, touched, holders) && b < |bufs| && bufs[b].valid
    ensures Consistent(bufs[b := bufs[b].(dirty := true)], disk,
                       pinned[bufs[b].blockno := bufs[b].data], touched - {b}, holders)
  {
    var bufs' := bufs[b := bufs[b].(dirty := true)];
    forall i: nat | i < |bufs| && bufs[i].valid && bufs[i].blockno == bufs[b].blockno ensures i == b {
      OnlyOne(bufs, disk, pinned, touched, b, i);
    }
    var pinned' := pinned[bufs[b].blockno := bufs[b].data];
    forall x | x in pinned'
      ensures Cached(bufs', x)
    {
      if x == bufs[b].blockno {
        assert bufs'[b].dirty;
      } else {
        var i :| 0 <= i < |bufs| && bufs[i].dirty && bufs[i].blockno == x;
        assert bufs'[i].dirty;
      }
    }
  }

  datatype View = View(bufs: seq<Buf>, disk: Disk, pinned: map<nat, Block>, touched: set<nat>, holders: multiset<nat>)

  ghost predicate Coherent(v: View) {
    Consistent(v.bufs, v.disk, v.pinned, v.touched, v.holders)
  }

  /** Coherent, unfolded only where it is mentioned. */
  ghost predicate CoherentIs(v: View) {
    forall k {:trigger Coherent(k)} :: k == v ==> Coherent(k)
  }

  // ------------------------------------------------- how many buffers are left

  /** The buffers that bget may recycle. */
  ghost function Idles(bufs: seq<Buf>): set<nat> {
    set i | 0 <= i < |bufs| && Idle(bufs[i])
  }

  /** Block x of the disk is in a buffer that is referenced or dirty. */
  ghost predicate InUse(bufs: seq<Buf>, x: nat) {
    exists i :: 0 <= i < |bufs| && Caches(bufs[i], DISK, x) && !Idle(bufs[i])
  }

  ghost predicate Referenced(bufs: seq<Buf>, x: nat) {
    exists i :: 0 <= i < |bufs| && Caches(bufs[i], DISK, x) && bufs[i].refcnt > 0
  }

  /** The idle buffers that bread of block x takes, cached or not. */
  ghost function Wants(bufs: seq<Buf>, x: nat): nat {
    if InUse(bufs, x) then 0 else 1
  }

  /** What bread of block x has done: buffer b has it, which had it before or was idle. */
  ghost predicate Taken(bufs: seq<Buf>, bufs': seq<Buf>, b: nat, x: nat) {
    && b < |bufs| == |bufs'| && (forall i :: 0 <= i < |bufs| && i != b ==> bufs'[i] == bufs[i])
    && bufs'[b].refcnt == bufs[b].refcnt + 1 && bufs'[b].dirty == bufs[b].dirty && Caches(bufs'[b], DISK, x)
    && (Caches(bufs[b], DISK, x) || (Idle(bufs[b]) && forall i :: 0 <= i < |bufs| ==> !Caches(bufs[i], DISK, x)))
  }

  lemma TakenInUse(bufs: seq<Buf>, bufs': seq<Buf>, b: nat, x: nat)
    requires Unique(bufs) && Taken(bufs, bufs', b, x)
    ensures InUse(bufs, x) <==> !Idle(bufs[b])
  {
    if InUse(bufs, x) {
      var i :| 0 <= i < |bufs| && Caches(bufs[i], DISK, x) && !Idle(bufs[i]);
      assert i == b;
    }
  }

  lemma TakenOther(bufs: seq<Buf>, bufs': seq<Buf>, b: nat, x: nat, y: nat)
    requires Taken(bufs, bufs', b, x) && y != x
    ensures InUse(bufs', y) <==> InUse(bufs, y)
  {
    if InUse(bufs', y) {
      var i :| 0 <= i < |bufs'| && Caches(bufs'[i], DISK, y) && !Idle(bufs'[i]);
      assert i != b;
    }
    if InUse(bufs, y) {
      var i :| 0 <= i < |bufs| && Caches(bufs[i], DISK, y) && !Idle(bufs[i]);
      assert i != b;
    }
  }

  /** bread takes as many idle buffers as it wants, and nobody else's. */
  lemma TakenCounts(bufs: seq<Buf>, bufs': seq<Buf>, b: nat, x: nat)
    requires Unique(bufs) && Taken(bufs, bufs', b, x)
    ensures |Idles(bufs')| == |Idles(bufs)| - Wants(bufs, x)
    ensures forall y :: y != x ==> Wants(bufs', y) == Wants(bufs, y)
  {
    TakenInUse(bufs, bufs', b, x);
    assert Idles(bufs') == Idles(bufs) - {b};
    forall y | y != x ensures Wants(bufs', y) == Wants(bufs, y) { TakenOther(bufs, bufs', b, x, y); }
  }

  /** bget's panic, counted. */
  lemma NoneLeft(bufs: seq<Buf>, x: nat)
    ensures (forall i :: 0 <= i < |bufs| ==> !Caches(bufs[i], DISK, x) && !Idle(bufs[i])) <==> |Idles(bufs)| < Wants(bufs, x)
  {
    if Idles(bufs) == {} {
      forall i | 0 <= i < |bufs| ensures !Idle(bufs[i]) { assert i !in Idles(bufs); }
    } else {
      var i :| i in Idles(bufs);
    }
  }

  /** A buffer that bread has taken, and one that brelse has given up. */
  predicate TookOver(x: Buf, y: Buf) {
    y.refcnt == x.refcnt + 1 && y.dirty == x.dirty && (!Idle(x) ==> Caches(y, x.dev, x.blockno))
  }

  predicate Undone(x: Buf, y: Buf) {
    y.refcnt + 1 == x.refcnt && y.dirty == x.dirty && Caches(y, x.dev, x.blockno)
  }

  /** After a call that releases what it reads: no reference is new or lost, no buffer newly
      dirty, and those with references cache what they did. */
  ghost predicate Kept(bufs: seq<Buf>, bufs': seq<Buf>) {
    |bufs'| == |bufs| && forall i :: 0 <= i < |bufs| ==> KeptAt(bufs[i], bufs'[i])
  }

  predicate KeptAt(x: Buf, y: Buf) {
    y.refcnt == x.refcnt && (y.dirty ==> x.dirty) && (x.refcnt > 0 ==> Caches(y, x.dev, x.blockno))
  }

  lemma KeptIdles(bufs: seq<Buf>, bufs': seq<Buf>)
    requires Kept(bufs, bufs')
    ensures Idles(bufs) <= Idles(bufs') && |Idles(bufs)| <= |Idles(bufs')|
  {
    forall i | i in Idles(bufs) ensures i in Idles(bufs') { assert KeptAt(bufs[i], bufs'[i]); }
    Sets.SubsetSize(Idles(bufs), Idles(bufs'));
  }

  lemma KeptReferenced(bufs: seq<Buf>, bufs': seq<Buf>, x: nat)
    requires Kept(bufs, bufs')
    ensures Referenced(bufs, x) <==> Referenced(bufs', x)
  {
    if Referenced(bufs, x) {
      var i :| 0 <= i < |bufs| && Caches(bufs[i], DISK, x) && bufs[i].refcnt > 0;
      assert KeptAt(bufs[i], bufs'[i]);
    }
    if Referenced(bufs', x) {
      var i :| 0 <= i < |bufs'| && Caches(bufs'[i], DISK, x) && bufs'[i].refcnt > 0;
      assert KeptAt(bufs[i], bufs'[i]);
    }
  }

  /** Buffer b was taken over; and was given up, perhaps cleaned. */
  ghost predicate Took(b0: seq<Buf>, b1: seq<Buf>, b: nat) {
    |b0| == |b1| && b < |b0| && TookOver(b0[b], b1[b]) && forall i :: 0 <= i < |b0| && i != b ==> b1[i] == b0[i]
  }

  ghost predicate Gave(b1: seq<Buf>, b2: seq<Buf>, b: nat, cleaned: bool) {
    && |b1| == |b2| && b < |b1| && Undone(if cleaned then b1[b].(dirty := false) else b1[b], b2[b]) && !b2[b].locked
    && forall i :: 0 <= i < |b1| && i != b ==> b2[i] == b1[i]
  }

  lemma OneKept(b0: seq<Buf>, b1: seq<Buf>, b2: seq<Buf>, b: nat, cleaned: bool)
    requires Took(b0, b1, b) && Gave(b1, b2, b, cleaned)
    ensures Kept(b0, b2) && Unlocked(b0, b2)
  {
    forall i | 0 <= i < |b0| ensures KeptAt(b0[i], b2[i]) { }
  }

  /** A block that is not pinned is in use just when it is referenced; one that is pinned is. */
  lemma InUseExactly(bufs: seq<Buf>, disk: Disk, pinned: map<nat, Block>, touched: set<nat>, x: nat)
    requires Agrees(bufs, disk, pinned, touched)
    ensures x in pinned ==> InUse(bufs, x)
    ensures x !in pinned ==> (InUse(bufs, x) <==> Referenced(bufs, x))
  {
    if x in pinned {
      var i :| 0 <= i < |bufs| && bufs[i].dirty && bufs[i].blockno == x;
      assert BufAgrees(bufs[i], disk, pinned, i in touched);
    } else {
      if InUse(bufs, x) {
        var i :| 0 <= i < |bufs| && Caches(bufs[i], DISK, x) && !Idle(bufs[i]);
        assert BufAgrees(bufs[i], disk, pinned, i in touched);
      }
      if Referenced(bufs, x) {
        var i :| 0 <= i < |bufs| && Caches(bufs[i], DISK, x) && bufs[i].refcnt > 0;
        assert !Idle(bufs[i]);
      }
    }
  }

  /** When a block can be read. */
  lemma ReadsOne(bufs: seq<Buf>, disk: Disk, pinned: map<nat, Block>, touched: set<nat>, x: nat)
    requires Agrees(bufs, disk, pinned, touched)
    ensures Wants(bufs, x) <= |Idles(bufs)| <==> RoomIn(bufs).idle > 0 || x in RoomIn(bufs).refs || x in pinned
  {
    RoomRefs(bufs, x);
    InUseExactly(bufs, disk, pinned, touched, x);
  }

  /** And one that is not pinned beside one that is. */
  lemma ReadsTwo(bufs: seq<Buf>, disk: Disk, pinned: map<nat, Block>, touched: set<nat>, x: nat, y: nat)
    requires Agrees(bufs, disk, pinned, touched) && x !in pinned && y in pinned
    ensures Wants(bufs, x) + Wants(bufs, y) <= |Idles(bufs)| <==> RoomIn(bufs).idle > 0 || x in RoomIn(bufs).refs
  {
    RoomRefs(bufs, x);
    InUseExactly(bufs, disk, pinned, touched, x);
    InUseExactly(bufs, disk, pinned, touched, y);
  }

  /** The number of idle buffers, the blocks with references, and those that are locked. */
  datatype Room = Room(idle: nat, refs: set<nat>, locks: set<nat>)

  ghost function RoomIn(bufs: seq<Buf>): Room {
    Room(|Idles(bufs)|, set i | 0 <= i < |bufs| && bufs[i].dev == DISK && bufs[i].refcnt > 0 :: bufs[i].blockno,
         set i | 0 <= i < |bufs| && bufs[i].dev == DISK && bufs[i].locked :: bufs[i].blockno)
  }

  datatype Count = Count(bufs: seq<Buf>, r: Room)

  ghost predicate CountIs(c: Count) {
    c.r == RoomIn(c.bufs)
  }

  /** CountIs, unfolded only where it is mentioned. */
  ghost predicate Counts(bufs: seq<Buf>, r: Room) {
    forall c {:trigger CountIs(c)} :: c == Count(bufs, r) ==> CountIs(c)
  }

  lemma CountsIn(bufs: seq<Buf>, r: Room)
    ensures Counts(bufs, r) <==> r == RoomIn(bufs)
  {
    assert CountIs(Count(bufs, r)) <==> r == RoomIn(bufs);
  }

  /** A copy that write_log makes: to a block that is not pinned from one that is. */
  datatype Out = Out(r: Room, pinned: map<nat, Block>, size: nat, dst: nat, src: nat)

  ghost predicate OutIs(a: Out) {
    a.dst !in a.r.locks && a.src !in a.r.locks && a.dst !in a.pinned && a.src in a.pinned && a.dst < a.size && a.src < a.size
  }

  /** OutIs, unfolded only where it is mentioned. */
  ghost predicate MayCopyOut(a: Out) {
    forall k {:trigger OutIs(k)} :: k == a ==> OutIs(k)
  }

  lemma RoomLocks(bufs: seq<Buf>, x: nat)
    ensures x !in RoomIn(bufs).locks <==> FreeIn(bufs, DISK, x)
  {
    if x !in RoomIn(bufs).locks {
      forall i | 0 <= i < |bufs| && Caches(bufs[i], DISK, x) ensures !bufs[i].locked { }
    }
  }

  lemma RoomRefs(bufs: seq<Buf>, x: nat)
    ensures x in RoomIn(bufs).refs <==> Referenced(bufs, x)
  {
    if Referenced(bufs, x) {
      var i :| 0 <= i < |bufs| && Caches(bufs[i], DISK, x) && bufs[i].refcnt > 0;
      assert bufs[i].blockno in RoomIn(bufs).refs;
    }
  }

  predicate Grew(r: Room, r': Room) {
    r'.refs == r.refs && r.idle <= r'.idle && r'.locks <= r.locks
  }

  lemma LocksKept(bufs: seq<Buf>, bufs': seq<Buf>)
    requires Unlocked(bufs, bufs')
    ensures RoomIn(bufs').locks <= RoomIn(bufs).locks
  {
    forall x | x in RoomIn(bufs').locks ensures x in RoomIn(bufs).locks {
      var i :| 0 <= i < |bufs'| && bufs'[i].dev == DISK && bufs'[i].locked && bufs'[i].blockno == x;
      assert bufs[i].blockno == x;
    }
  }

  lemma KeptGrew(bufs: seq<Buf>, bufs': seq<Buf>)
    requires Kept(bufs, bufs') && Unlocked(bufs, bufs')
    ensures Grew(RoomIn(bufs), RoomIn(bufs'))
  {
    KeptIdles(bufs, bufs');
    LocksKept(bufs, bufs');
    forall x ensures x in RoomIn(bufs).refs <==> x in RoomIn(bufs').refs {
      if x in RoomIn(bufs).refs || x in RoomIn(bufs').refs {
        RoomRefs(bufs, x);
        RoomRefs(bufs', x);
        KeptReferenced(bufs, bufs', x);
      }
    }
    assert RoomIn(bufs).refs == RoomIn(bufs').refs;
  }

  lemma IdleRoom(bufs: seq<Buf>)
    ensures RoomIn(bufs).idle == 0 <==> Idles(bufs) == {}
  {
  }

  /** The clean ones of the first n buffers, and the blocks of the others. */
  ghost function CleanBelow(bufs: seq<Buf>, n: nat): set<nat>
    requires n <= |bufs|
  {
    if n == 0 then {} else if bufs[n - 1].dirty then CleanBelow(bufs, n - 1) else CleanBelow(bufs, n - 1) + {n - 1}
  }

  ghost function DirtyBelow(bufs: seq<Buf>, n: nat): set<nat>
    requires n <= |bufs|
  {
    if n == 0 then {} else if bufs[n - 1].dirty then DirtyBelow(bufs, n - 1) + {bufs[n - 1].blockno} else DirtyBelow(bufs, n - 1)
  }

  lemma {:induction false} CleanIs(bufs: seq<Buf>, n: nat, i: nat)
    requires n <= |bufs| && i in CleanBelow(bufs, n)
    ensures i < n && !bufs[i].dirty
  {
    if i in CleanBelow(bufs, n - 1) { CleanIs(bufs, n - 1, i); }
  }

  lemma {:induction false} DirtyIs(bufs: seq<Buf>, n: nat, x: nat) returns (i: nat)
    requires n <= |bufs| && x in DirtyBelow(bufs, n)
    ensures i < n && bufs[i].dirty && bufs[i].blockno == x
  {
    if x in DirtyBelow(bufs, n - 1) { i := DirtyIs(bufs, n - 1, x); } else { i := n - 1; }
  }

  /** Dirty buffers cache different blocks. */
  lemma {:induction false} CleanSize(bufs: seq<Buf>, n: nat)
    requires Unique(bufs) && n <= |bufs| && forall i :: 0 <= i < |bufs| && bufs[i].dirty ==> bufs[i].dev == DISK
    ensures |CleanBelow(bufs, n)| + |DirtyBelow(bufs, n)| == n
  {
    if n > 0 {
      CleanSize(bufs, n - 1);
      if bufs[n - 1].dirty {
        if bufs[n - 1].blockno in DirtyBelow(bufs, n - 1) {
          var i := DirtyIs(bufs, n - 1, bufs[n - 1].blockno);
          assert false;
        }
      } else if n - 1 in CleanBelow(bufs, n - 1) {
        CleanIs(bufs, n - 1, n - 1);
      }
    }
  }

  /** So with no holders all buffers are idle but as many as there are pinned blocks. */
  lemma DirtyPinned(bufs: seq<Buf>, disk: Disk, pinned: map<nat, Block>, touched: set<nat>, holders: multiset<nat>)
    requires Consistent(bufs, disk, pinned, touched, holders) && holders == multiset{}
    ensures |bufs| - |pinned.Keys| <= |Idles(bufs)|
  {
    forall i | 0 <= i < |bufs| && bufs[i].dirty ensures bufs[i].dev == DISK && bufs[i].blockno in pinned.Keys {
      assert BufAgrees(bufs[i], disk, pinned, i in touched);
    }
    CleanSize(bufs, |bufs|);
    forall x | x in DirtyBelow(bufs, |bufs|) ensures x in pinned.Keys { var i := DirtyIs(bufs, |bufs|, x); }
    forall i | i in CleanBelow(bufs, |bufs|) ensures i in Idles(bufs) { CleanIs(bufs, |bufs|, i); }
    Sets.SubsetSize(DirtyBelow(bufs, |bufs|), pinned.Keys);
    Sets.SubsetSize(CleanBelow(bufs, |bufs|), Idles(bufs));
  }

  /** Two buffers were taken over. */
  ghost predicate TookBoth(b0: seq<Buf>, b1: seq<Buf>, to: nat, from: nat) {
    && |b0| == |b1| && to < |b0| && from < |b0| && to != from && TookOver(b0[to], b1[to]) && TookOver(b0[from], b1[from])
    && forall i :: 0 <= i < |b0| && i != to && i != from ==> b1[i] == b0[i]
  }

  /** The first was cleaned, and both given up. */
  ghost predicate GaveBoth(b1: seq<Buf>, b2: seq<Buf>, to: nat, from: nat) {
    && |b1| == |b2| && to < |b1| && from < |b1| && Undone(b1[to].(dirty := false), b2[to]) && Undone(b1[from], b2[from])
    && !b2[to].locked && !b2[from].locked && forall i :: 0 <= i < |b1| && i != to && i != from ==> b2[i] == b1[i]
  }

  lemma CopyKept(b0: seq<Buf>, b1: seq<Buf>, b2: seq<Buf>, to: nat, from: nat)
    requires TookBoth(b0, b1, to, from) && GaveBoth(b1, b2, to, from)
    ensures Kept(b0, b2) && Unlocked(b0, b2)
  {
    forall i | 0 <= i < |b0| ensures KeptAt(b0[i], b2[i]) { }
  }

  ghost predicate FreeIn(bufs: seq<Buf>, dev: nat, blockno: nat) {
    forall i :: 0 <= i < |bufs| && Caches(bufs[i], dev, blockno) ==> !bufs[i].locked
  }

  /** No lock is taken, and no buffer with one rebound. */
  ghost predicate Unlocked(bufs: seq<Buf>, bufs': seq<Buf>) {
    |bufs'| == |bufs| && forall i :: 0 <= i < |bufs| && bufs'[i].locked ==> bufs[i].locked && Caches(bufs[i], bufs'[i].dev, bufs'[i].blockno)
  }

  lemma CopyIdles(b0: seq<Buf>, b1: seq<Buf>, b2: seq<Buf>, to: nat, from: nat, dst: nat)
    requires TookBoth(b0, b1, to, from) && GaveBoth(b1, b2, to, from) && Unique(b0) && Idles(b0) == {} && Referenced(b0, dst) && Caches(b1[to], DISK, dst)
    ensures Idles(b2) == {}
  {
    forall i | 0 <= i < |b0| ensures !Idle(b0[i]) { assert i !in Idles(b0); }
    var k :| 0 <= k < |b0| && Caches(b0[k], DISK, dst) && b0[k].refcnt > 0;
    assert k == to;
  }

  class Cache {
    const bufs: array<Buf>
    const next: array<nat>
    const prev: array<nat>
    var disk: Disk
    ghost var order: seq<nat>            // all buffers, most recently released first
    ghost var holders: multiset<nat>     // a buffer occurs once per process between bget and brelse
    ghost var touched: set<nat>          // buffers changed since bread, not yet written
    ghost var pinned: map<nat, Block>    // the logged blocks that dirty buffers keep in memory
    ghost var images: seq<Disk>          // every image the disk has had

    ghost predicate Valid()
      reads this, bufs, next, prev
    {
      && bufs.Length == NBUF && next.Length == prev.Length == NBUF + 1 && next != prev
      && Ring(next[..], prev[..], order) && |order| == NBUF
      && CoherentIs(V())
      && images != [] && images[|images| - 1] == disk
    }

    ghost function V(): View
      reads this, bufs
    {
      View(bufs[..], disk, pinned, touched, holders)
    }

    ghost function Space(): Room
      reads this, bufs
    {
      RoomIn(bufs[..])
    }

    /** Nobody holds the lock of a buffer for this block: acquiresleep does not wait. */
    ghost predicate Free(dev: nat, blockno: nat)
      reads this, bufs
    {
      FreeIn(bufs[..], dev, blockno)
    }

    /** binit: link the buffers one by one behind the head. */
    constructor (d: Disk)
      ensures Valid() && disk == d && images == [d] && touched == {} && pinned == map[]
      ensures holders == multiset{} && fresh(bufs) && fresh(next) && fresh(prev)
      ensures forall i :: 0 <= i < NBUF ==> bufs[i] == Buf(0, 0, false, false, 0, false, ZeroBlock)
    {
      bufs := new Buf[NBUF](_ => Buf(0, 0, false, false, 0, false, ZeroBlock));
      next := new nat[NBUF + 1](_ => NBUF);
      prev := new nat[NBUF + 1](_ => NBUF);
      disk := d;
      order, holders, touched, pinned, images := [], multiset{}, {}, map[], [d];
      new;
      assert Ring(next[..], prev[..], []);
      for b := 0 to NBUF
        invariant Ring(next[..], prev[..], order) && |order| == b
        invariant forall i :: 0 <= i < |order| ==> order[i] < b
        invariant disk == d && images == [d] && touched == {} && pinned == map[] && holders == multiset{}
        invariant forall i :: 0 <= i < NBUF ==> bufs[i] == Buf(0, 0, false, false, 0, false, ZeroBlock)
      {
        InsertFront(b);
      }
    }

    /** Link b right behind the head. */
    method InsertFront(b: nat)
      requires next.Length == prev.Length == NBUF + 1 && next != prev
      requires Ring(next[..], prev[..], order) && b < NBUF && b !in order
      modifies next, prev, this`order
      ensures Ring(next[..], prev[..], order) && order == [b] + old(order)
    {
      ghost var n: seq<nat>, p: seq<nat> := next[..], prev[..];
      InsertRing(n, p, order, b);
      next[b] := next[NBUF];
      prev[b] := NBUF;
      prev[next[NBUF]] := b;
      next[NBUF] := b;
      assert next[..] == n[b := n[NBUF]][NBUF := b];
      assert prev[..] == p[b := NBUF][n[NBUF] := b];
      order := [b] + order;
    }

    /** Unlink b and link it right behind the head. */
    method MoveToFront(b: nat, ghost k: nat)
      requires next.Length == prev.Length == NBUF + 1 && next != prev
      requires Ring(next[..], prev[..], order) && k < |order| && order[k] == b
      modifies next, prev, this`order
      ensures Ring(next[..], prev[..], order) && order == [b] + Without(old(order), k)
    {
      ghost var n: seq<nat>, p: seq<nat> := next[..], prev[..];
      UnlinkRing(n, p, order, k);
      prev[next[b]] := prev[b];
      next[prev[b]] := next[b];
      assert next[..] == n[p[b] := n[b]] && prev[..] == p[n[b] := p[b]];
      order := Without(order, k);
      InsertFront(b);
    }

    /** The buffer caching a block, found from the head along next; NBUF if none. */
    method Lookup(dev: nat, blockno: nat) returns (b: nat)
      requires Valid()
      ensures b <= NBUF
      ensures b < NBUF ==> Caches(bufs[b], dev, blockno)
      ensures b == NBUF ==> forall i :: 0 <= i < NBUF ==> !Caches(bufs[i], dev, blockno)
    {
      ghost var k := 0;
      ghost var path := Path(order);
      b := next[NBUF];
      assert next[..][path[0]] == path[1];
      while b != NBUF && !Caches(bufs[b], dev, blockno)
        invariant k <= NBUF && b == path[k + 1]
        invariant forall j :: 0 <= j < k ==> !Caches(bufs[order[j]], dev, blockno)
        decreases NBUF - k
      {
        assert next[..][path[k + 1]] == path[k + 2];
        b := next[b];
        k := k + 1;
      }
      if b == NBUF {
        forall i | 0 <= i < NBUF ensures !Caches(bufs[i], dev, blockno) {
          Sets.Pigeonhole(order, NBUF, i);
        }
      }
    }

    /** The least recently released buffer that is idle, found from the head along
        prev; NBUF if there is none. */
    method Victim() returns (b: nat)
      requires Valid()
      ensures b <= NBUF
      ensures b < NBUF ==> Idle(bufs[b])
      ensures b < NBUF ==> exists k :: 0 <= k < NBUF && order[k] == b
                                    && forall j :: k < j < NBUF ==> !Idle(bufs[order[j]])
      ensures b == NBUF ==> forall i :: 0 <= i < NBUF ==> !Idle(bufs[i])
    {
      ghost var k := NBUF;
      ghost var path := Path(order);
      b := prev[NBUF];
      assert prev[..][path[NBUF + 1]] == path[NBUF];
      while b != NBUF && !Idle(bufs[b])
        invariant 0 <= k <= NBUF && b == path[k]
        invariant forall j :: k <= j < NBUF ==> !Idle(bufs[order[j]])
        decreases k
      {
        assert prev[..][path[k]] == path[k - 1];
        b := prev[b];
        k := k - 1;
      }
      if b == NBUF {
        forall i | 0 <= i < NBUF ensures !Idle(bufs[i]) {
          Sets.Pigeonhole(order, NBUF, i);
        }
      } else {
        assert order[k - 1] == b;
      }
    }

    /** bget: the buffer for a block, locked; a cached one if there is one, otherwise
        the least recently released idle one, rebound. None: "bget: no buffers". */
    method Bget(dev: nat, blockno: nat) returns (r: Option<nat>)
      requires Valid() && Free(dev, blockno)
      modifies bufs, this`holders
      ensures Valid()
      ensures r.None? <==> old((forall i :: 0 <= i < NBUF ==> !Caches(bufs[i], dev, blockno) && !Idle(bufs[i])))
      ensures r.None? ==> bufs[..] == old(bufs[..]) && holders == old(holders)
      ensures r.Some? ==>
        var b := r.value;
        && b < NBUF && Caches(bufs[b], dev, blockno) && bufs[b].locked && !old(bufs[b].locked)
        && b !in touched && (!bufs[b].valid ==> !bufs[b].dirty)
        && holders == old(holders) + multiset{b} && bufs[..] == old(bufs[..])[b := bufs[b]]
        && (old(Caches(bufs[b], dev, blockno)) ==> bufs[b] == Held(old(bufs[b])))
        && (!old(Caches(bufs[b], dev, blockno)) ==>
              && (forall i :: 0 <= i < NBUF ==> !old(Caches(bufs[i], dev, blockno)))
              && old(Idle(bufs[b])) && bufs[b] == Rebound(old(bufs[b]), dev, blockno)
              && exists k :: 0 <= k < NBUF && order[k] == b && forall j :: k < j < NBUF ==> !old(Idle(bufs[order[j]])))
    {
      assert Coherent(V());
      ghost var was := bufs[..];
      var b := Lookup(dev, blockno);
      if b < NBUF {
        HoldKeeps(was, disk, pinned, touched, holders, b);
        bufs[b] := Held(bufs[b]);
        assert bufs[..] == was[b := Held(was[b])];
      } else {
        b := Victim();
        if b == NBUF {
          return None;
        }
        RebindKeeps(was, disk, pinned, touched, holders, b, dev, blockno);
        bufs[b] := Rebound(bufs[b], dev, blockno);
        assert bufs[..] == was[b := Rebound(was[b], dev, blockno)];
      }
      holders := holders + multiset{b};
      return Some(b);
    }

    /** iderw of memide.c: write a dirty buffer out, or fill an invalid one. The
        result false stands for its panics. */
    method Iderw(b: nat) returns (ok: bool)
      requires b < bufs.Length
      modifies bufs, this`disk, this`images
      ensures ok <==> old(bufs[b].locked) && old(bufs[b].dirty || !bufs[b].valid) && old(bufs[b].dev) == DISK && old(bufs[b].blockno) < |old(disk)|
      ensures !ok ==> bufs[..] == old(bufs[..]) && disk == old(disk) && images == old(images)
      ensures ok && old(bufs[b].dirty) ==>
        && disk == old(disk)[old(bufs[b].blockno) := old(bufs[b].data)] && images == old(images) + [disk]
        && bufs[..] == old(bufs[..])[b := old(bufs[b]).(dirty := false, valid := true)]
      ensures ok && !old(bufs[b].dirty) ==>
        && disk == old(disk) && images == old(images)
        && bufs[..] == old(bufs[..])[b := old(bufs[b]).(valid := true, data := disk[old(bufs[b].blockno)])]
    {
      var x := bufs[b];
      if !x.locked || (x.valid && !x.dirty) || x.dev != DISK || x.blockno >= |disk| {
        return false;
      }
      if x.dirty {
        disk := disk[x.blockno := x.data];
        images := images + [disk];
        bufs[b] := x.(dirty := false, valid := true);
      } else {
        bufs[b] := x.(valid := true, data := disk[x.blockno]);
      }
      return true;
    }

    /** bread: a locked buffer with the current contents of the block, which is the
        disk overlaid with the dirty buffers. None: a panic in bget or iderw. */
    method Bread(dev: nat, blockno: nat) returns (r: Option<nat>)
      requires Valid() && Free(dev, blockno)
      modifies bufs, this`holders, this`disk, this`images
      ensures Valid() && disk == old(disk) && images == old(images)
      ensures r.None? <==>
        || dev != DISK || blockno >= |disk|
        || old((forall i :: 0 <= i < NBUF ==> !Caches(bufs[i], dev, blockno) && !Idle(bufs[i])))
      ensures r.Some? ==>
        var b := r.value;
        && dev == DISK && blockno < |disk| && b < NBUF && Caches(bufs[b], dev, blockno)
        && bufs[b].locked && !old(bufs[b].locked) && bufs[b].valid && b !in touched
        && bufs[b].data == Current(disk, pinned, blockno) && (bufs[b].dirty <==> blockno in pinned)
        && holders == old(holders) + multiset{b} && Taken(old(bufs[..]), bufs[..], b, blockno)
        && forall i :: 0 <= i < NBUF && i != b ==> bufs[i] == old(bufs[i])
    {
      r := Bget(dev, blockno);
      if r == None { return; }
      var ok := Fill(r.value);
      if !ok { return None; }
    }

    /** The rest of bread: iderw of a buffer that is not valid yet. */
    method Fill(b: nat) returns (ok: bool)
      requires Valid() && b < NBUF && bufs[b].locked && (!bufs[b].valid ==> !bufs[b].dirty && b !in touched)
      modifies bufs, this`disk, this`images
      ensures Valid() && disk == old(disk) && images == old(images)
      ensures ok <==> bufs[b].dev == DISK && bufs[b].blockno < |disk|
      ensures ok ==> bufs[b].valid && (bufs[b].dirty <==> bufs[b].blockno in pinned)
      ensures ok && b !in touched ==> bufs[b].data == Current(disk, pinned, bufs[b].blockno)
      ensures bufs[..] == old(bufs[..])[b := old(bufs[b]).(valid := bufs[b].valid, data := bufs[b].data)]
    {
      assert Coherent(V());
      ok := true;
      if !bufs[b].valid {
        ghost var was := bufs[..];
        ok := Iderw(b);
        if !ok { return; }
        FillKeeps(was, disk, pinned, touched, holders, b);
        assert bufs[..] == was[b := was[b].(valid := true, data := disk[was[b].blockno])];
      }
      CurrentData(bufs[..], disk, pinned, touched, b);
    }

    /** bwrite: the block goes to disk, which gets a new image, and is clean. False: the
        panic for a buffer that is not locked. */
    method Bwrite(b: nat) returns (ok: bool)
      requires Valid() && b < NBUF && (bufs[b].locked ==> bufs[b].valid)
      modifies bufs, this`disk, this`images, this`pinned, this`touched
      ensures Valid() && ok == old(bufs[b].locked)
      ensures !ok ==> disk == old(disk) && images == old(images) && pinned == old(pinned) && bufs[..] == old(bufs[..])
      ensures ok ==> var x := old(bufs[b]);
        && x.blockno < |old(disk)| && disk == old(disk)[x.blockno := x.data] && images == old(images) + [disk]
        && pinned == Unpin(old(pinned), x.blockno) && touched == old(touched) - {b}
        && bufs[..] == old(bufs[..])[b := x.(dirty := false)]
    {
      assert Coherent(V());
      if !bufs[b].locked { return false; }
      ghost var was := bufs[..];
      WriteKeeps(was, disk, pinned, touched, holders, b);
      bufs[b] := bufs[b].(dirty := true);
      ok := Iderw(b);
      pinned, touched := Unpin(pinned, was[b].blockno), touched - {b};
      assert bufs[..] == was[b := was[b].(dirty := false)];
    }

    /** The holder of a locked buffer changes its data. */
    method SetData(b: nat, data: Block)
      requires Valid() && b < NBUF && bufs[b].locked && bufs[b].valid
      modifies bufs, this`touched
      ensures Valid() && touched == old(touched) + {b} && bufs[..] == old(bufs[..])[b := old(bufs[b]).(data := data)]
    {
      assert Coherent(V());
      ghost var was := bufs[..];
      bufs[b] := bufs[b].(data := data);
      touched := touched + {b};
      assert bufs[..] == was[b := was[b].(data := data)];
    }

    /** memmove into a held buffer, then bwrite. */
    method Overwrite(b: nat, data: Block)
      requires Valid() && b < NBUF && bufs[b].locked && bufs[b].valid && b !in touched
      modifies bufs, this`disk, this`images, this`pinned, this`touched
      ensures Valid() && touched == old(touched)
      ensures var x := old(bufs[b]);
        && x.blockno < |old(disk)| && disk == old(disk)[x.blockno := data] && images == old(images) + [disk]
        && pinned == Unpin(old(pinned), x.blockno)
        && bufs[..] == old(bufs[..])[b := x.(dirty := false, data := data)]
    {
      SetData(b, data);
      var ok := Bwrite(b);
    }

    /** The last line of log_write: pin the buffer in the cache. */
    method Pin(b: nat)
      requires Valid() && b < NBUF && bufs[b].locked && bufs[b].valid
      modifies bufs, this`pinned, this`touched
      ensures Valid() && pinned == old(pinned)[old(bufs[b].blockno) := old(bufs[b].data)]
      ensures touched == old(touched) - {b} && bufs[..] == old(bufs[..])[b := old(bufs[b]).(dirty := true)]
    {
      assert Coherent(V());
      ghost var was := bufs[..];
      PinKeeps(was, disk, pinned, touched, holders, b);
      ghost var pinned', touched' := pinned[bufs[b].blockno := bufs[b].data], touched - {b};
      bufs[b] := bufs[b].(dirty := true);
      pinned, touched := pinned', touched';
      assert bufs[..] == was[b := was[b].(dirty := true)];
      assert V() == View(was[b := was[b].(dirty := true)], disk, pinned', touched', holders);
    }

    /** brelse: give the buffer up; the last holder makes it the most recently used. False:
        the panic for a buffer that is not locked. */
    method Brelse(b: nat) returns (ok: bool)
      requires Valid() && b < NBUF && (bufs[b].locked ==> b !in touched)
      modifies bufs, next, prev, this`order, this`holders
      ensures Valid() && ok == old(bufs[b].locked)
      ensures !ok ==> holders == old(holders) && bufs[..] == old(bufs[..]) && order == old(order)
      ensures ok ==> holders == old(holders) - multiset{b} && bufs[..] == old(bufs[..])[b := Released(old(bufs[b]))]
      ensures ok && bufs[b].refcnt > 0 ==> order == old(order)
      ensures ok && bufs[b].refcnt == 0 ==>
        exists k :: 0 <= k < NBUF && old(order)[k] == b && order == [b] + Without(old(order), k)
    {
      assert Coherent(V());
      if !bufs[b].locked { return false; }
      ghost var was := bufs[..];
      ReleaseKeeps(was, disk, pinned, touched, holders, b);
      if bufs[b].refcnt == 1 {
        Sets.Pigeonhole(order, NBUF, b);
        ghost var k :| 0 <= k < NBUF && order[k] == b;
        MoveToFront(b, k);
      }
      bufs[b] := Released(bufs[b]);
      holders := holders - multiset{b};
      assert bufs[..] == was[b := Released(was[b])];
      ok := true;
    }

    /** brelse by a holder. */
    method GiveUp(b: nat)
      requires Valid() && b < NBUF && bufs[b].locked && b !in touched
      modifies bufs, next, prev, this`order, this`holders
      ensures Valid() && holders == old(holders) - multiset{b} && Undone(old(bufs[b]), bufs[b])
      ensures !bufs[b].locked && forall i :: 0 <= i < NBUF && i != b ==> bufs[i] == old(bufs[i])
    {
      assert Coherent(V());
      var ok := Brelse(b);
    }

    /** Buffer b is held, unmodified, and caches block x of the disk. */
    ghost predicate HeldFor(b: nat, x: nat)
      reads this, bufs
    {
      && b < bufs.Length && bufs[b].locked && bufs[b].valid && b !in touched && Caches(bufs[b], DISK, x)
      && x < |disk| && bufs[b].data == Current(disk, pinned, x)
    }

    /** Two breads in a row. */
    method BreadTwo(x: nat, y: nat) returns (ok: bool, a: nat, b: nat)
      requires Valid() && Free(DISK, x) && Free(DISK, y) && x != y
      modifies bufs, this`holders, this`disk, this`images
      ensures Valid() && disk == old(disk) && images == old(images)
      ensures ok <==> x < |disk| && y < |disk| && Wants(old(bufs[..]), x) + Wants(old(bufs[..]), y) <= |Idles(old(bufs[..]))|
      ensures ok ==> HeldFor(a, x) && HeldFor(b, y) && a != b && !old(bufs[a].locked) && !old(bufs[b].locked)
      ensures ok ==> forall i :: 0 <= i < NBUF && i != a && i != b ==> bufs[i] == old(bufs[i])
      ensures ok ==> holders == old(holders) + multiset{a, b}
      ensures ok ==> TookOver(old(bufs[a]), bufs[a]) && TookOver(old(bufs[b]), bufs[b])
    {
      var p;
      ok, p := BreadOne(x);
      if !ok { return false, 0, 0; }
      var q;
      ok, q := BreadOne(y);
      if !ok { return false, 0, 0; }
      return true, p, q;
    }

    method BreadBoth(dst: nat, src: nat, dstFirst: bool) returns (ok: bool, to: nat, from: nat)
      requires Valid() && Free(DISK, dst) && Free(DISK, src) && dst != src
      modifies bufs, this`holders, this`disk, this`images
      ensures Valid() && disk == old(disk) && images == old(images)
      ensures ok <==> dst < |disk| && src < |disk| && Wants(old(bufs[..]), dst) + Wants(old(bufs[..]), src) <= |Idles(old(bufs[..]))|
      ensures ok ==> HeldFor(to, dst) && HeldFor(from, src) && to != from && holders == old(holders) + multiset{to, from}
      ensures ok ==> TookBoth(old(bufs[..]), bufs[..], to, from)
    {
      if dstFirst {
        ok, to, from := BreadTwo(dst, src);
      } else {
        ok, from, to := BreadTwo(src, dst);
      }
    }

    /** Give up two buffers. */
    method BrelseTwo(a: nat, b: nat)
      requires Valid() && a < NBUF && b < NBUF && a != b
      requires bufs[a].locked && bufs[b].locked && a !in touched && b !in touched
      modifies bufs, next, prev, this`order, this`holders
      ensures Valid() && holders == old(holders) - multiset{a, b}
      ensures Undone(old(bufs[a]), bufs[a]) && Undone(old(bufs[b]), bufs[b])
      ensures !bufs[a].locked && !bufs[b].locked && forall i :: 0 <= i < NBUF && i != a && i != b ==> bufs[i] == old(bufs[i])
    {
      GiveUp(a);
      GiveUp(b);
    }

    /** The loop body of write_log and of install_trans: read two blocks, copy one
        over the other, write it, release both. They differ in which is read first. */
    method Copy(dst: nat, src: nat, dstFirst: bool) returns (ok: bool)
      requires Valid() && Free(DISK, dst) && Free(DISK, src) && dst != src
      modifies this, bufs, next, prev
      ensures Valid()
      ensures !ok ==> disk == old(disk) && images == old(images) && pinned == old(pinned)
      ensures ok ==>
        && dst < |old(disk)| && src < |old(disk)| && touched == old(touched) && holders == old(holders)
        && disk == old(disk)[dst := Current(old(disk), old(pinned), src)] && images == old(images) + [disk]
        && pinned == Unpin(old(pinned), dst) && Unlocked(old(bufs[..]), bufs[..])
      ensures ok <==> dst < |old(disk)| && src < |old(disk)| && Wants(old(bufs[..]), dst) + Wants(old(bufs[..]), src) <= |Idles(old(bufs[..]))|
      ensures ok ==> Kept(old(bufs[..]), bufs[..])
      ensures ok && Idles(old(bufs[..])) == {} && Referenced(old(bufs[..]), dst) ==> Idles(bufs[..]) == {}
    {
      assert Coherent(V());
      var to, from;
      ok, to, from := BreadBoth(dst, src, dstFirst);
      if !ok { return; }
      ghost var held, b1 := holders, bufs[..];
      CopyHeld(to, from, dst, src);
      assert held - multiset{to, from} == old(holders);
      CopyKept(old(bufs[..]), b1, bufs[..], to, from);
      if Idles(old(bufs[..])) == {} && Referenced(old(bufs[..]), dst) { CopyIdles(old(bufs[..]), b1, bufs[..], to, from, dst); }
    }

    /** Copy to a block that is not pinned from one that is: write_log. */
    method CopyOut(dst: nat, src: nat, ghost r: Room) returns (ok: bool, ghost r': Room)
      requires Valid() && Counts(bufs[..], r) && MayCopyOut(Out(r, pinned, |disk|, dst, src))
      modifies this, bufs, next, prev
      ensures Valid() && (!ok ==> disk == old(disk) && images == old(images) && pinned == old(pinned))
      ensures ok ==>
        && dst < |old(disk)| && src < |old(disk)| && images == old(images) + [disk]
        && disk == old(disk)[dst := Current(old(disk), old(pinned), src)]
        && pinned == Unpin(old(pinned), dst)
      ensures ok <==> r.idle > 0 || dst in r.refs
      ensures ok ==> Counts(bufs[..], r') && Grew(r, r') && (r.idle == 0 ==> r'.idle == 0)
    {
      assert Coherent(V());
      ghost var b0 := bufs[..];
      assert OutIs(Out(r, pinned, |disk|, dst, src));
      CountsIn(b0, r);
      ReadsTwo(b0, disk, pinned, touched, dst, src);
      RoomLocks(b0, dst);
      RoomLocks(b0, src);
      r' := r;
      ok := Copy(dst, src, true);
      if ok {
        RoomRefs(b0, dst);
        KeptGrew(b0, bufs[..]);
        IdleRoom(b0);
        r' := Space();
        CountsIn(bufs[..], r');
      }
    }

    /** Copy from a block that is not pinned to one that may be: install_trans. */
    method CopyBack(dst: nat, src: nat, ghost r: Room) returns (ok: bool, ghost r': Room)
      requires Valid() && Counts(bufs[..], r) && dst !in r.locks && src !in r.locks
      requires src !in pinned && dst != src && dst < |disk| && src < |disk|
      modifies this, bufs, next, prev
      ensures Valid() && (!ok ==> disk == old(disk) && images == old(images) && pinned == old(pinned))
      ensures ok ==>
        && disk == old(disk)[dst := Current(old(disk), old(pinned), src)] && images == old(images) + [disk]
        && pinned == Unpin(old(pinned), dst)
      ensures r.idle >= 2 ==> ok
      ensures dst in old(pinned) && (r.idle > 0 || src in r.refs) ==> ok
      ensures ok ==> Counts(bufs[..], r') && Grew(r, r')
    {
      assert Coherent(V());
      ghost var b0 := bufs[..];
      CountsIn(b0, r);
      if dst in pinned { ReadsTwo(b0, disk, pinned, touched, src, dst); }
      RoomLocks(b0, dst);
      RoomLocks(b0, src);
      r' := r;
      ok := Copy(dst, src, false);
      if ok {
        KeptGrew(b0, bufs[..]);
        r' := Space();
        CountsIn(bufs[..], r');
      }
    }

    method CopyHeld(to: nat, from: nat, ghost dst: nat, ghost src: nat)
      requires Valid() && HeldFor(to, dst) && HeldFor(from, src) && to != from
      modifies this, bufs, next, prev
      ensures Valid()
      ensures touched == old(touched) && holders == old(holders) - multiset{to, from}
      ensures disk == old(disk)[dst := Current(old(disk), old(pinned), src)] && images == old(images) + [disk]
      ensures pinned == Unpin(old(pinned), dst) && GaveBoth(old(bufs[..]), bufs[..], to, from)
    {
      Overwrite(to, bufs[from].data);
      BrelseTwo(from, to);
    }

    /** bread of a block of the disk, in terms of what is free and what is held. */
    method BreadOne(x: nat) returns (ok: bool, b: nat)
      requires Valid() && Free(DISK, x)
      modifies bufs, this`holders, this`disk, this`images
      ensures Valid() && disk == old(disk) && images == old(images)
      ensures ok <==> x < |disk| && Wants(old(bufs[..]), x) <= |Idles(old(bufs[..]))|
      ensures ok ==> HeldFor(b, x) && holders == old(holders) + multiset{b} && !old(bufs[b].locked) && Took(old(bufs[..]), bufs[..], b)
      ensures ok ==> |Idles(bufs[..])| == |Idles(old(bufs[..]))| - Wants(old(bufs[..]), x)
      ensures ok ==> forall y :: y != x ==> Wants(bufs[..], y) == Wants(old(bufs[..]), y)
    {
      assert Coherent(V());
      ghost var was := bufs[..];
      NoneLeft(was, x);
      var r := Bread(DISK, x);
      if r == None { return false, 0; }
      TakenCounts(was, bufs[..], r.value, x);
      return true, r.value;
    }

    /** Overwrite a held block, write it out and give it up. */
    method WriteAndRelease(b: nat, data: Block)
      requires Valid() && b < NBUF && bufs[b].locked && bufs[b].valid && b !in touched
      modifies bufs, next, prev, this
      ensures Valid() && touched == old(touched) && holders == old(holders) - multiset{b}
      ensures var x := old(bufs[b].blockno);
        x < |old(disk)| && disk == old(disk)[x := data] && images == old(images) + [disk] && pinned == Unpin(old(pinned), x)
      ensures Gave(old(bufs[..]), bufs[..], b, true)
    {
      Overwrite(b, data);
      GiveUp(b);
    }

    /** bread of a block to change. */
    method Fetch(x: nat, ghost r: Room) returns (ok: bool, b: nat, data: Block)
      requires Valid() && Counts(bufs[..], r) && x !in r.locks
      modifies bufs, this`holders, this`disk, this`images
      ensures Valid() && disk == old(disk) && images == old(images)
      ensures ok <==> x < |disk| && (r.idle > 0 || x in r.refs || x in pinned)
      ensures ok ==> HeldFor(b, x) && Took(old(bufs[..]), bufs[..], b) && data == Current(disk, pinned, x)
      ensures ok ==> holders == old(holders) + multiset{b}
    {
      assert Coherent(V());
      CountsIn(bufs[..], r);
      RoomLocks(bufs[..], x);
      ReadsOne(bufs[..], disk, pinned, touched, x);
      data := ZeroBlock;
      ok, b := BreadOne(x);
      if ok { data := bufs[b].data; }
    }

    /** Write back what Fetch gave. */
    method Store(b: nat, data: Block, ghost x: nat, ghost b0: seq<Buf>, ghost r: Room) returns (ghost r': Room)
      requires Valid() && HeldFor(b, x) && Took(b0, bufs[..], b) && Counts(b0, r)
      modifies bufs, next, prev, this
      ensures Valid() && disk == old(disk)[x := data] && images == old(images) + [disk] && pinned == Unpin(old(pinned), x)
      ensures Counts(bufs[..], r') && Grew(r, r')
    {
      ghost var b1 := bufs[..];
      CountsIn(b0, r);
      WriteAndRelease(b, data);
      OneKept(b0, b1, bufs[..], b, true);
      KeptGrew(b0, bufs[..]);
      r' := Space();
      CountsIn(bufs[..], r');
    }

    /** Give it up unchanged. */
    method PutBack(b: nat, ghost x: nat, ghost b0: seq<Buf>, ghost r: Room) returns (ghost r': Room)
      requires Valid() && HeldFor(b, x) && Took(b0, bufs[..], b) && Counts(b0, r)
      modifies bufs, next, prev, this`order, this`holders
      ensures Valid() && holders == old(holders) - multiset{b} && Counts(bufs[..], r') && Grew(r, r')
    {
      ghost var b1 := bufs[..];
      CountsIn(b0, r);
      GiveUp(b);
      OneKept(b0, b1, bufs[..], b, false);
      KeptGrew(b0, bufs[..]);
      r' := Space();
      CountsIn(bufs[..], r');
    }

    /** bread, copy the data out, brelse. */
    method ReadBlock(x: nat, ghost r: Room) returns (ok: bool, data: Block, ghost r': Room)
      requires Valid() && Counts(bufs[..], r) && x !in r.locks
      modifies this, bufs, next, prev
      ensures Valid() && disk == old(disk) && images == old(images) && pinned == old(pinned) && touched == old(touched)
      ensures ok <==> x < |disk| && (r.idle > 0 || x in r.refs || x in pinned)
      ensures ok ==> data == Current(disk, pinned, x) && holders == old(holders) && Counts(bufs[..], r') && Grew(r, r')
    {
      ghost var b0 := bufs[..];
      var b;
      r' := r;
      ok, b, data := Fetch(x, r);
      if !ok { return; }
      ghost var held := holders;
      r' := PutBack(b, x, b0, r);
      assert held - multiset{b} == old(holders);
    }
  }
}
