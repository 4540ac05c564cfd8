/** The table of inodes in memory (fs.c): who refers to which inode, and which inodes may be
    freed. */
module InodeCache {
  import opened Directories
  import opened Sets

  const NINODE: nat := 50

  datatype Slot = Slot(inum: nat, ref: nat, valid: bool)

  /** Slot k is inode i. */
  ghost predicate At(c: seq<Slot>, k: nat, i: nat) {
    k < |c| && c[k].ref > 0 && c[k].inum == i
  }

  ghost predicate CountAt(c: seq<Slot>, held: multiset<nat>, k: nat) {
    k < |c| && c[k].ref > 0 ==> c[k].ref == held[c[k].inum]
  }

  ghost predicate ApartAt(c: seq<Slot>, k: nat, l: nat) {
    k < |c| && l < |c| && k != l && c[k].ref > 0 && c[l].ref > 0 ==> c[k].inum != c[l].inum
  }

  ghost predicate Home(c: seq<Slot>, i: nat) {
    exists k: nat :: At(c, k, i)
  }

  ghost predicate HomeAt(c: seq<Slot>, held: multiset<nat>, i: nat) {
    held[i] > 0 ==> Home(c, i)
  }

  /** One slot for each inode that somebody holds, with the number of holders. */
  ghost predicate Cached(c: seq<Slot>, held: multiset<nat>) {
    && |c| == NINODE && (forall k: nat :: CountAt(c, held, k)) && (forall k: nat, l: nat :: ApartAt(c, k, l))
    && forall i: nat :: HomeAt(c, held, i)
  }

  lemma KeepHome(c: seq<Slot>, c': seq<Slot>, i: nat)
    requires Home(c, i) && forall k: nat :: At(c, k, i) ==> At(c', k, i)
    ensures Home(c', i)
  {
    var k: nat :| At(c, k, i);
    assert At(c', k, i);
  }

  lemma MoreCached(c: seq<Slot>, held: multiset<nat>, k: nat, i: nat)
    requires Cached(c, held) && At(c, k, i)
    ensures Cached(c[k := Slot(i, c[k].ref + 1, c[k].valid)], held + multiset{i})
  {
    var c' := c[k := Slot(i, c[k].ref + 1, c[k].valid)];
    forall l: nat ensures CountAt(c', held + multiset{i}, l) { assert CountAt(c, held, l) && ApartAt(c, k, l); }
    forall l: nat, m: nat ensures ApartAt(c', l, m) { assert ApartAt(c, l, m); }
    forall j: nat ensures HomeAt(c', held + multiset{i}, j) {
      assert HomeAt(c, held, j);
      if held[j] > 0 { KeepHome(c, c', j); }
      if j == i { assert At(c', k, i); }
    }
  }

  lemma NewCached(c: seq<Slot>, held: multiset<nat>, k: nat, i: nat)
    requires Cached(c, held) && k < |c| && c[k].ref == 0 && forall l: nat :: !At(c, l, i)
    ensures Cached(c[k := Slot(i, 1, false)], held + multiset{i}) && held[i] == 0
  {
    var c' := c[k := Slot(i, 1, false)];
    assert HomeAt(c, held, i);
    forall l: nat ensures CountAt(c', held + multiset{i}, l) {
      assert CountAt(c, held, l) && !At(c, l, i);
    }
    forall l: nat, m: nat ensures ApartAt(c', l, m) { assert ApartAt(c, l, m) && !At(c, l, i) && !At(c, m, i); }
    forall j: nat ensures HomeAt(c', held + multiset{i}, j) {
      assert HomeAt(c, held, j);
      if held[j] > 0 { KeepHome(c, c', j); }
      if j == i { assert At(c', k, i); }
    }
  }

  lemma FewerCached(c: seq<Slot>, held: multiset<nat>, k: nat, i: nat, valid: bool)
    requires Cached(c, held) && At(c, k, i)
    ensures Cached(c[k := Slot(i, c[k].ref - 1, valid)], held - multiset{i}) && held[i] == c[k].ref
  {
    var c' := c[k := Slot(i, c[k].ref - 1, valid)];
    assert CountAt(c, held, k);
    forall l: nat ensures CountAt(c', held - multiset{i}, l) { assert CountAt(c, held, l) && ApartAt(c, k, l); }
    forall l: nat, m: nat ensures ApartAt(c', l, m) { assert ApartAt(c, l, m); }
    forall j: nat ensures HomeAt(c', held - multiset{i}, j) {
      assert HomeAt(c, held, j);
      if j == i {
        assert c[k].ref > 1 ==> At(c', k, i);
      } else if held[j] > 0 {
        KeepHome(c, c', j);
      }
    }
  }

  lemma ReadCached(c: seq<Slot>, held: multiset<nat>, k: nat)
    requires Cached(c, held) && k < |c|
    ensures Cached(c[k := c[k].(valid := true)], held)
  {
    var c' := c[k := c[k].(valid := true)];
    forall l: nat ensures CountAt(c', held, l) { assert CountAt(c, held, l); }
    forall l: nat, m: nat ensures ApartAt(c', l, m) { assert ApartAt(c, l, m); }
    forall j: nat ensures HomeAt(c', held, j) {
      assert HomeAt(c, held, j);
      if held[j] > 0 { KeepHome(c, c', j); }
    }
  }

  ghost function Members(m: multiset<nat>): set<nat> {
    set i | i in m
  }

  /** At least NINODE - n inodes have a holder. */
  ghost predicate Crowded(held: multiset<nat>, n: nat) {
    |Members(held)| + n >= NINODE
  }

  lemma {:induction false} Various(m: multiset<nat>)
    ensures |Members(m)| <= |m|
    decreases |m|
  {
    if m != multiset{} {
      var x :| x in m;
      var rest := m - multiset{x};
      Various(rest);
      assert m == rest + multiset{x};
      assert Members(m) == Members(rest) + {x};
    }
  }

  /** iget finds no slot only if, but for those of the call itself, holders have them all. */
  lemma AllTaken(c: seq<Slot>, held: multiset<nat>, temps: multiset<nat>)
    requires Cached(c, held + temps) && forall k: nat :: k < NINODE ==> c[k].ref > 0
    ensures Crowded(held, |temps|)
  {
    var nums := seq(NINODE, k requires 0 <= k < NINODE => c[k].inum);
    forall k: nat, l: nat | k < l < NINODE ensures nums[k] != nums[l] { assert ApartAt(c, k, l); }
    DistinctSize(nums);
    var hs, ts := Members(held), Members(temps);
    forall i | i in Elements(nums) ensures i in hs + ts {
      var k: nat :| k < NINODE && nums[k] == i;
      assert CountAt(c, held + temps, k);
    }
    SubsetSize(Elements(nums), hs + ts);
    Various(temps);
  }

  // ------------------------------------------------- inodes and their holders

  /** An inode without links is there for its holders, in a slot that was read, and who
      holds an inode finds it there. */
  ghost predicate KeptAt(t: Disk, held: multiset<nat>, i: nat) {
    && (i < |t| && t[i].kind != Free && t[i].nlink == 0 ==> held[i] > 0)
    && (held[i] > 0 ==> i < |t| && t[i].kind != Free)
  }

  ghost predicate ReadAt(t: Disk, c: seq<Slot>, k: nat) {
    k < |c| && c[k].ref > 0 ==>
      && c[k].inum < |t| && (c[k].valid ==> t[c[k].inum].kind != Free)
      && (t[c[k].inum].kind != Free && t[c[k].inum].nlink == 0 ==> c[k].valid)
  }

  /** Within a call that refers to the inodes of temps, besides those that are held. */
  ghost predicate Tracked(t: Disk, c: seq<Slot>, held: multiset<nat>, temps: multiset<nat>) {
    && Cached(c, held + temps) && (forall k: nat :: ReadAt(t, c, k)) && forall i: nat :: KeptAt(t, held, i)
  }

  /** Between calls every inode that is not free has a name or a holder, and conversely. */
  lemma InUse(t: Disk, c: seq<Slot>, held: multiset<nat>, i: nat)
    requires Tracked(t, c, held, multiset{}) && Linked(t) && i < |t|
    ensures t[i].kind != Free <==> Namers(t, i) != {} || held[i] > 0
  {
    assert KeptAt(t, held, i) && InodeAt(t, i) && ExactAt(t, i);
    if Namers(t, i) != {} {
      var x :| x in Namers(t, i);
      assert |Namers(t, i)| > 0;
    }
  }
}
