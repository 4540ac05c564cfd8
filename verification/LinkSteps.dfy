/** The calls that make and remove names (sysfile.c, fs.c), on values: what a call asks for,
    what it changes, and when link counts stay exact. */
module LinkSteps {
  import opened Options
  import opened Directories
  import opened Paths
  import opened InodeCache

  /** Why the kernel panics: no slot for an inode, an inode without a type, no free inode, a
      directory of full size; and three that are not reached. */
  datatype Why = NoSlot | NoType | NoInode | TooLarge | BadLink | BadDots | BadDirlink

  datatype Outcome<T> = Panic(why: Why) | Fail | Done(value: T)

  /** MAXFILE * BSIZE bytes hold so many entries. */
  const MAXENTRIES: nat := 4480

  function Start(cwd: nat, path: string): nat {
    if path != "" && path[0] == '/' then ROOT else cwd
  }

  /** namex has found what the names lead to from inode i, or the directory of the last, or
      that they lead nowhere. */
  ghost predicate Answers(r: Outcome<nat>, c: seq<Slot>, parent: bool, name: string, t: Disk, i: nat, elems: seq<string>) {
    (r.Done? ==> r.value < |c|) &&
    if parent then Parent(t, i, elems) == if r.Done? then Some((c[r.value].inum, Field(name))) else None
    else Walk(t, i, elems) == if r.Done? then Some(c[r.value].inum) else None
  }

  /** "/a/b" is looked up from the root, whatever the directory of the process is. */
  lemma FromRoot(t: Disk, cwd: nat, names: seq<string>)
    requires names != [] && forall k :: 0 <= k < |names| ==> names[k] != "" && '/' !in names[k]
    ensures var path := Join(names);
      && Walk(t, Start(cwd, path), Elems(path)) == Walk(t, ROOT, names)
      && Parent(t, Start(cwd, path), Elems(path)) == Parent(t, ROOT, names)
  {
    JoinElems(names);
    assert Join(names)[0] == '/';
  }

  /** "a/b" is looked up from there. */
  lemma FromHere(t: Disk, cwd: nat, names: seq<string>)
    requires names != [] && forall k :: 0 <= k < |names| ==> names[k] != "" && '/' !in names[k]
    ensures var path := names[0] + Join(names[1..]);
      && Walk(t, Start(cwd, path), Elems(path)) == Walk(t, cwd, names)
      && Parent(t, Start(cwd, path), Elems(path)) == Parent(t, cwd, names)
  {
    var path := names[0] + Join(names[1..]);
    JoinElems(names);
    assert Join(names) == "/" + path && ("/" + path)[1..] == path;
    assert path[0] == names[0][0] && names[0][0] in names[0];
    assert Strip("/" + path) == path == Strip(path);
    assert Elems("/" + path) == Elems(path);
  }

  ghost predicate Taken(c: seq<Slot>, k: nat) {
    k < |c| && c[k].ref > 0
  }

  /** Slots in use stay what they are. */
  ghost predicate Stay(c: seq<Slot>, c': seq<Slot>) {
    forall k: nat, i: nat :: At(c, k, i) ==> At(c', k, i) && (c[k].valid ==> c'[k].valid)
  }

  /** The slots of inodes that somebody else holds stay what they are. */
  ghost predicate Shifted(c: seq<Slot>, c': seq<Slot>, held: multiset<nat>) {
    forall k: nat, i: nat :: At(c, k, i) && held[i] > 0 ==> At(c', k, i) && (c[k].valid ==> c'[k].valid)
  }

  ghost predicate DotDotFree(t: Disk, d: nat) {
    d < |t| && |t[d].entries| > 1 && t[d].entries[1].inum < |t| && t[t[d].entries[1].inum].kind == Free
  }

  /** A removed directory, there for its holders only, that has outlived its parent. */
  ghost predicate Orphan(t: Disk, d: nat) {
    DotDotFree(t, d) && t[d].kind == Dir && t[d].nlink == 0
  }

  /** A name leads to a free inode if and only if it is the ".." of an orphan. */
  lemma LeadsTo(t: Disk, d: nat, k: nat)
    requires Shaped(t) && Used(t, d, k)
    ensures t[d].entries[k].inum < |t| && (t[t[d].entries[k].inum].kind == Free <==> k == 1 && Orphan(t, d))
  {
    assert InodeAt(t, d) && ChildAt(t, d, k);
    if k == 1 { assert ParentAt(t, d, t[d].entries[1].inum) && ParentIs(t, d, t[d].entries[1].inum); }
  }

  /** A removed directory is one if and only if nobody names or holds its parent. */
  lemma OrphanExactly(t: Disk, c: seq<Slot>, held: multiset<nat>, d: nat, p: nat)
    requires Linked(t) && Tracked(t, c, held, multiset{}) && ParentIs(t, d, p) && t[d].kind == Dir && t[d].nlink == 0
    ensures Orphan(t, d) <==> Namers(t, p) == {} && held[p] == 0
  {
    assert InodeAt(t, d);
    InUse(t, c, held, p);
  }

  /** Name m of the path is "..", and the names before it lead to an orphan. */
  ghost predicate Climbs(t: Disk, i: nat, elems: seq<string>, m: nat) {
    m < |elems| && Field(elems[m]) == DotDot() && var d := Walk(t, i, elems[..m]); d.Some? && Orphan(t, d.value)
  }

  lemma ClimbsFirst(t: Disk, i: nat, elems: seq<string>)
    requires Shaped(t) && i < |t| && t[i].kind == Dir && elems != []
    ensures Climbs(t, i, elems, 0) <==>
      var k := Find(t[i].entries, Field(elems[0]), 0); k.Some? && t[i].entries[k.value].inum < |t| && t[t[i].entries[k.value].inum].kind == Free
  {
    assert elems[..0] == [] && InodeAt(t, i);
    var k := Find(t[i].entries, Field(elems[0]), 0);
    if k.Some? {
      assert Used(t, i, k.value) && Used(t, i, 1);
      LeadsTo(t, i, k.value);
      if Climbs(t, i, elems, 0) { NameOnce(t, i, k.value, 1); }
    } else {
      FindNone(t[i].entries, Field(elems[0]), 0, 1);
    }
  }

  lemma ClimbsNext(t: Disk, i: nat, elems: seq<string>, m: nat)
    requires i < |t| && t[i].kind == Dir && 0 < m < |elems|
    ensures var k := Find(t[i].entries, Field(elems[0]), 0);
      Climbs(t, i, elems, m) <==> k.Some? && Climbs(t, t[i].entries[k.value].inum, elems[1..], m - 1)
  {
    assert elems[..m][1..] == elems[1..][..m - 1] && elems[..m][0] == elems[0];
  }

  /** namex reads a free inode if and only if the path climbs out of an orphan and goes on. */
  lemma {:induction false} ReadsExactly(t: Disk, i: nat, elems: seq<string>)
    requires Shaped(t) && i < |t| && t[i].kind != Free
    ensures ReadsFree(t, i, elems) <==> exists m: nat :: m + 1 < |elems| && Climbs(t, i, elems, m)
    decreases |elems|
  {
    if elems != [] && t[i].kind == Dir {
      ClimbsFirst(t, i, elems);
      var k := Find(t[i].entries, Field(elems[0]), 0);
      if k.Some? {
        assert Used(t, i, k.value);
        LeadsTo(t, i, k.value);
        var j := t[i].entries[k.value].inum;
        if t[j].kind != Free { ReadsExactly(t, j, elems[1..]); }
        if m': nat :| m' + 1 < |elems[1..]| && Climbs(t, j, elems[1..], m') { ClimbsNext(t, i, elems, m' + 1); }
      }
      if m: nat :| m + 1 < |elems| && Climbs(t, i, elems, m) {
        if m > 0 { ClimbsNext(t, i, elems, m); }
      }
    } else {
      forall m: nat | m < |elems| ensures !Climbs(t, i, elems, m) { assert elems[..0] == []; }
    }
  }

  /** namei and ilock do if and only if it climbs out of an orphan at all. */
  lemma EndsExactly(t: Disk, i: nat, elems: seq<string>)
    requires Shaped(t) && i < |t| && t[i].kind != Free
    ensures EndsFree(t, i, elems) <==> exists m: nat :: m < |elems| && Climbs(t, i, elems, m)
  {
    var more := elems + [""];
    EndsReads(t, i, elems, "");
    ReadsExactly(t, i, more);
    if m: nat :| m < |elems| && Climbs(t, i, elems, m) { assert more[..m] == elems[..m]; assert Climbs(t, i, more, m); }
    if m: nat :| m + 1 < |more| && Climbs(t, i, more, m) { assert more[..m] == elems[..m]; assert Climbs(t, i, elems, m); }
  }

  lemma {:induction false} EndsReads(t: Disk, i: nat, elems: seq<string>, next: string)
    requires Shaped(t) && i < |t|
    ensures EndsFree(t, i, elems) <==> ReadsFree(t, i, elems + [next])
    decreases |elems|
  {
    if elems == [] {
      assert elems + [next] == [next] && [next][1..] == [];
    } else if t[i].kind == Dir {
      assert (elems + [next])[1..] == elems[1..] + [next];
      var k := Find(t[i].entries, Field(elems[0]), 0);
      if k.Some? {
        assert Used(t, i, k.value);
        LeadsTo(t, i, k.value);
        EndsReads(t, t[i].entries[k.value].inum, elems[1..], next);
      }
    }
  }

  /** A call panics so if and only if cond holds, unless it panics for want of a slot before. */
  ghost predicate PanicIff(r: Outcome<nat>, why: Why, cond: bool) {
    (r == Panic(why) ==> cond) && (cond ==> r == Panic(why) || r == Panic(NoSlot))
  }

  /** It panics for want of a slot only if holders have all but n. */
  ghost predicate SlotsFor(r: Outcome<nat>, held: multiset<nat>, n: nat) {
    r == Panic(NoSlot) ==> Crowded(held, n)
  }

  /** namei and ilock meet a free inode. */
  predicate NameMeets(t: Disk, cwd: nat, path: string) {
    EndsFree(t, Start(cwd, path), Elems(path))
  }

  /** nameiparent does. */
  predicate ParentMeets(t: Disk, cwd: nat, path: string) {
    ReadsFree(t, Start(cwd, path), Elems(path))
  }

  /** sys_link does: for the first path, or when that leads to a file, for the second. */
  predicate LinkMeets(t: Disk, cwd: nat, path: string, newPath: string) {
    || NameMeets(t, cwd, path)
    || (var i := Walk(t, Start(cwd, path), Elems(path));
        i.Some? && i.value < |t| && t[i.value].kind != Dir && ParentMeets(t, cwd, newPath))
  }

  /** create does as namei would, though it goes by the parent. */
  lemma CreateMeets(t: Disk, c: seq<Slot>, held: multiset<nat>, cwd: nat, path: string)
    requires Shaped(t) && Tracked(t, c, held, multiset{}) && cwd in held
    ensures NameMeets(t, cwd, path) <==> ParentMeets(t, cwd, path) || LastFree(t, Parent(t, Start(cwd, path), Elems(path)))
  {
    StartAlive(t, c, held, cwd, path);
    EndsByParent(t, Start(cwd, path), Elems(path));
  }

  lemma StartAlive(t: Disk, c: seq<Slot>, held: multiset<nat>, cwd: nat, path: string)
    requires Shaped(t) && Tracked(t, c, held, multiset{}) && cwd in held
    ensures Start(cwd, path) < |t| && t[Start(cwd, path)].kind != Free
  {
    assert KeptAt(t, held, cwd);
  }

  ghost predicate AllFields(entries: seq<Dirent>) {
    forall k :: 0 <= k < |entries| && entries[k].inum != 0 ==> IsField(entries[k].name)
  }

  lemma FieldsOf(t: Disk, d: nat)
    requires Shaped(t) && d < |t| && t[d].kind == Dir
    ensures AllFields(t[d].entries)
  {
    forall k: nat | k < |t[d].entries| && t[d].entries[k].inum != 0 ensures IsField(t[d].entries[k].name) { assert NameAt(t, d, k); }
  }

  /** One round of namex, on values. */
  function Onward(t: Disk, i: nat, f: string, stop: bool): Option<nat>
    requires i < |t|
  {
    if t[i].kind != Dir then None
    else if stop then Some(i)
    else
      var e := Find(t[i].entries, f, 0);
      if e == None then None else Some(t[i].entries[e.value].inum)
  }

  // ------------------------------------------------------------- steps of a call

  lemma PlusMinus(held: multiset<nat>, temps: multiset<nat>, i: nat)
    ensures temps + multiset{i} - multiset{i} == temps && held + (temps + multiset{i}) - multiset{i} == held + temps
  {
  }

  lemma MoreTracked(t: Disk, c: seq<Slot>, held: multiset<nat>, temps: multiset<nat>, k: nat, i: nat)
    requires Tracked(t, c, held, temps) && At(c, k, i)
    ensures Tracked(t, c[k := Slot(i, c[k].ref + 1, c[k].valid)], held, temps + multiset{i})
  {
    MoreCached(c, held + temps, k, i);
    assert held + temps + multiset{i} == held + (temps + multiset{i});
    var c' := c[k := Slot(i, c[k].ref + 1, c[k].valid)];
    forall l: nat ensures ReadAt(t, c', l) { assert ReadAt(t, c, l); }
  }

  lemma NewTracked(t: Disk, c: seq<Slot>, held: multiset<nat>, temps: multiset<nat>, k: nat, i: nat)
    requires Tracked(t, c, held, temps) && k < |c| && c[k].ref == 0 && i < |t| && forall l: nat :: !At(c, l, i)
    ensures Tracked(t, c[k := Slot(i, 1, false)], held, temps + multiset{i})
  {
    NewCached(c, held + temps, k, i);
    assert held + temps + multiset{i} == held + (temps + multiset{i});
    assert KeptAt(t, held, i);
    var c' := c[k := Slot(i, 1, false)];
    forall l: nat ensures ReadAt(t, c', l) { assert ReadAt(t, c, l); }
  }

  lemma ReadTracked(t: Disk, c: seq<Slot>, held: multiset<nat>, temps: multiset<nat>, k: nat, i: nat)
    requires Tracked(t, c, held, temps) && At(c, k, i) && i < |t| && t[i].kind != Free
    ensures Tracked(t, c[k := c[k].(valid := true)], held, temps)
  {
    ReadCached(c, held + temps, k);
    var c' := c[k := c[k].(valid := true)];
    forall l: nat ensures ReadAt(t, c', l) { assert ReadAt(t, c, l); }
  }

  /** The process keeps what the call referred to. */
  lemma Adopt(t: Disk, c: seq<Slot>, held: multiset<nat>, i: nat)
    requires Tracked(t, c, held, multiset{i}) && i < |t| && t[i].kind != Free
    ensures Tracked(t, c, held + multiset{i}, multiset{})
  {
    assert held + multiset{i} + multiset{} == held + multiset{i};
    forall j: nat ensures KeptAt(t, held + multiset{i}, j) { assert KeptAt(t, held, j); }
  }

  /** Giving up a reference of the call: nobody's last one, or the inode has links, or it
      is free. */
  lemma FewerTracked(t: Disk, c: seq<Slot>, held: multiset<nat>, temps: multiset<nat>, k: nat, i: nat)
    requires Tracked(t, c, held, temps) && At(c, k, i) && i in temps
    ensures Tracked(t, c[k := Slot(i, c[k].ref - 1, c[k].valid)], held, temps - multiset{i})
    ensures i < |t| && !(c[k].valid && t[i].nlink == 0 && c[k].ref == 1)
    ensures c[k].ref == held[i] + temps[i]
  {
    FewerCached(c, held + temps, k, i, c[k].valid);
    assert held + temps - multiset{i} == held + (temps - multiset{i});
    assert ReadAt(t, c, k) && KeptAt(t, held, i);
    var c' := c[k := Slot(i, c[k].ref - 1, c[k].valid)];
    forall l: nat ensures ReadAt(t, c', l) { assert ReadAt(t, c, l); }
  }

  /** Names come and go, and counts that were above 0 may go up. */
  lemma UpTracked(t: Disk, t': Disk, c: seq<Slot>, held: multiset<nat>, temps: multiset<nat>)
    requires Tracked(t, c, held, temps) && |t'| == |t|
    requires forall j :: 0 <= j < |t| ==> t'[j].kind == t[j].kind && (t'[j].nlink == 0 ==> t[j].nlink == 0)
    ensures Tracked(t', c, held, temps)
  {
    forall k: nat ensures ReadAt(t', c, k) { assert ReadAt(t, c, k); }
    forall i: nat ensures KeptAt(t', held, i) { assert KeptAt(t, held, i); }
  }

  // ---------------------------------------------------------- what a call asks for

  /** dirlink's place for a new entry. */
  function Gap(entries: seq<Dirent>, k: nat): (r: nat)
    requires k <= |entries|
    ensures k <= r <= |entries| && (r < |entries| ==> entries[r].inum == 0)
    decreases |entries| - k
  {
    if k == |entries| || entries[k].inum == 0 then k else Gap(entries, k + 1)
  }

  /** Where a new path's last name would go, if it is not there yet. */
  function NewName(t: Disk, cwd: nat, path: string): Option<(nat, nat, string)> {
    var p := Parent(t, Start(cwd, path), Elems(path));
    if p == None || p.value.0 >= |t| || Find(t[p.value.0].entries, p.value.1, 0).Some? then None
    else Some((p.value.0, Gap(t[p.value.0].entries, 0), p.value.1))
  }

  /** sys_open of what is there: a directory only for reading. */
  function OpenOf(t: Disk, cwd: nat, path: string, readOnly: bool): Option<nat> {
    var i := Walk(t, Start(cwd, path), Elems(path));
    if i == None || i.value >= |t| || (t[i.value].kind == Dir && !readOnly) then None else i
  }

  /** The directory that sys_chdir is to go to. */
  function ChdirOf(t: Disk, cwd: nat, path: string): Option<nat> {
    var i := Walk(t, Start(cwd, path), Elems(path));
    if i == None || i.value >= |t| || t[i.value].kind != Dir then None else i
  }

  /** sys_link: the directory, the place and the name of the new entry, and the file. */
  function LinkOf(t: Disk, cwd: nat, path: string, newPath: string): Option<(nat, nat, string, nat)> {
    var i := Walk(t, Start(cwd, path), Elems(path));
    var p := NewName(t, cwd, newPath);
    if i == None || i.value >= |t| || t[i.value].kind == Dir || p == None then None
    else Some((p.value.0, p.value.1, p.value.2, i.value))
  }

  /** sys_link comes to enter the name, and the directory is as large as a file can be. */
  predicate LinkFull(t: Disk, cwd: nat, path: string, newPath: string) {
    var o := LinkOf(t, cwd, path, newPath);
    !LinkMeets(t, cwd, path, newPath) && o.Some? && o.value.1 >= MAXENTRIES
  }

  /** create comes to look for a free inode, and there is none. */
  predicate NoInodes(t: Disk, cwd: nat, path: string) {
    |t| > 0 && !NameMeets(t, cwd, path) && NewName(t, cwd, path).Some? && FreeInode(t, 1) == None
  }

  /** create has one, and the directory is as large as a file can be. */
  predicate MakeFull(t: Disk, cwd: nat, path: string) {
    var o := NewName(t, cwd, path);
    |t| > 0 && !NameMeets(t, cwd, path) && o.Some? && o.value.1 >= MAXENTRIES && FreeInode(t, 1).Some?
  }

  lemma GapRoom(t: Disk, d: nat, f: string)
    requires Shaped(t) && d < |t| && t[d].kind == Dir && Find(t[d].entries, f, 0) == None
    ensures Room(t, d, Gap(t[d].entries, 0)) && Absent(t, d, f)
  {
    assert InodeAt(t, d);
    assert t[d].entries[0].inum != 0 && t[d].entries[1].inum != 0;
    forall k: nat | Used(t, d, k) ensures t[d].entries[k].name != f { FindNone(t[d].entries, f, 0, k); }
  }

  /** What dirlink needs of a directory: entries as in t, where they are proper. */
  lemma Enterable(t: Disk, t1: Disk, d: nat, name: string)
    requires Shaped(t) && |t1| == |t| && d < |t| && t[d].kind == Dir && t1[d].kind == Dir && t1[d].entries == t[d].entries
    ensures AllFields(t1[d].entries) && forall k: nat :: Used(t1, d, k) ==> t1[d].entries[k].inum < |t1|
    ensures Find(t[d].entries, Field(name), 0) == None ==>
      Room(t, d, Gap(t[d].entries, 0)) && Absent(t, d, Field(name)) && IsField(Field(name))
  {
    FieldsOf(t, d);
    FieldIsField(name);
    forall k: nat | Used(t1, d, k) ensures t1[d].entries[k].inum < |t1| {
      assert Used(t, d, k);
      LeadsTo(t, d, k);
    }
    if Find(t[d].entries, Field(name), 0) == None { GapRoom(t, d, Field(name)); }
  }

  /** A link to a file that is being made: its count goes first. */
  lemma BumpShaped(t: Disk, i: nat)
    requires Shaped(t) && i < |t| && t[i].kind != Dir && t[i].kind != Free
    ensures Shaped(t[i := t[i].(nlink := t[i].nlink + 1)])
  {
    var b := t[i := t[i].(nlink := t[i].nlink + 1)];
    forall j: nat ensures InodeAt(b, j) { assert InodeAt(t, j); }
    forall e: nat, l: nat, m: nat ensures UniqueAt(b, e, l, m) { assert UniqueAt(t, e, l, m); }
    forall e: nat, l: nat ensures ChildAt(b, e, l) { assert ChildAt(t, e, l); }
    forall e: nat, l: nat ensures NameAt(b, e, l) { assert NameAt(t, e, l); }
    forall c: nat, p: nat ensures ParentAt(b, c, p) {
      assert ParentAt(t, c, p);
      KeepChild(t, b, p, c);
    }
  }

  lemma Bumped(t: Disk, c: seq<Slot>, held: multiset<nat>, i: nat, start: nat, elems: seq<string>)
    requires Shaped(t) && Tracked(t, c, held, multiset{i}) && i < |t| && t[i].kind != Dir && t[i].kind != Free
    ensures var b := t[i := t[i].(nlink := t[i].nlink + 1)];
      && Shaped(b) && Tracked(b, c, held, multiset{i}) && ReadsFree(b, start, elems) == ReadsFree(t, start, elems)
      && Parent(b, start, elems) == Parent(t, start, elems) && KeptAt(t, held, i) && i > 0
  {
    var b := t[i := t[i].(nlink := t[i].nlink + 1)];
    assert InodeAt(t, i) && KeptAt(t, held, i);
    UpTracked(t, b, c, held, multiset{i});
    BumpShaped(t, i);
    SameWalk(t, b, start, elems);
  }

  /** One link fewer of an inode that the call has read. */
  lemma DownTracked(t: Disk, t': Disk, c: seq<Slot>, held: multiset<nat>, temps: multiset<nat>, k: nat, i: nat)
    requires Tracked(t, c, held, temps) && At(c, k, i) && c[k].valid && i < |t| && KeptAt(t', held, i)
    requires |t'| == |t| && forall j :: 0 <= j < |t| ==> t'[j].kind == t[j].kind && (j != i && t'[j].nlink == 0 ==> t[j].nlink == 0)
    ensures Tracked(t', c, held, temps)
  {
    forall l: nat ensures ReadAt(t', c, l) { assert ReadAt(t, c, l) && ApartAt(c, k, l); }
    forall j: nat ensures KeptAt(t', held, j) { assert KeptAt(t, held, j); }
  }

  // ------------------------------------------------------------ what names lead to

  /** The entry that a name leads to, where names are unique. */
  lemma FindAt(entries: seq<Dirent>, f: string, k: nat)
    requires k < |entries| && entries[k].inum != 0 && entries[k].name == f
    requires forall l :: 0 <= l < |entries| && entries[l].inum != 0 && entries[l].name == f ==> l == k
    ensures Find(entries, f, 0) == Some(k)
  {
    if Find(entries, f, 0) == None { FindNone(entries, f, 0, k); }
  }

  lemma FindNot(entries: seq<Dirent>, f: string)
    requires forall l :: 0 <= l < |entries| && entries[l].inum != 0 ==> entries[l].name != f
    ensures Find(entries, f, 0) == None
  {
  }

  lemma NameOnce(t: Disk, d: nat, k: nat, l: nat)
    requires Shaped(t) && Used(t, d, k) && Used(t, d, l) && t[d].entries[k].name == t[d].entries[l].name
    ensures k == l
  {
    assert UniqueAt(t, d, k, l) && UniqueAt(t, d, l, k);
  }

  /** After link the new name leads to the file, and every other name where it led. */
  lemma LinkLeads(t: Disk, d: nat, k: nat, f: string, i: nat, g: string)
    requires Shaped(t) && CanAddFile(t, d, k, f, i)
    ensures var e := Find(AddFile(t, d, k, f, i)[d].entries, g, 0);
      if g == f then e == Some(k) && AddFile(t, d, k, f, i)[d].entries[k].inum == i else e == Find(t[d].entries, g, 0)
  {
    var entries, after := t[d].entries, AddFile(t, d, k, f, i)[d].entries;
    forall l: nat | l < |entries| && entries[l].inum != 0 ensures entries[l].name != f { assert Used(t, d, l); }
    if g == f {
      FindAt(after, f, k);
    } else {
      var e := Find(entries, g, 0);
      if e == None {
        forall l: nat | l < |after| && after[l].inum != 0 ensures after[l].name != g { if l != k { FindNone(entries, g, 0, l); } }
        FindNot(after, g);
      } else {
        forall l: nat | l < |after| && after[l].inum != 0 && after[l].name == g ensures l == e.value {
          assert Used(t, d, l) && Used(t, d, e.value);
          NameOnce(t, d, l, e.value);
        }
        FindAt(after, g, e.value);
      }
    }
  }

  /** unlink undoes link: the same counts and the same entries in use. */
  lemma LinkUnlink(t: Disk, d: nat, k: nat, f: string, i: nat)
    requires Shaped(t) && CanAddFile(t, d, k, f, i)
    ensures var b := RemFile(AddFile(t, d, k, f, i), d, k, i);
      && |b| == |t| && (forall j :: 0 <= j < |t| ==> b[j].nlink == t[j].nlink && b[j].kind == t[j].kind)
      && forall e: nat, l: nat :: (Used(b, e, l) <==> Used(t, e, l)) && (Used(t, e, l) ==> b[e].entries[l] == t[e].entries[l])
  {
  }

  // -------------------------------------------------------- the last reference

  /** iput, of a reference that is not in held. */
  function After(t: Disk, i: nat, held: multiset<nat>): Disk
    requires i < |t|
  {
    if t[i].nlink == 0 && held[i] == 0 then t[i := FREE] else t
  }

  lemma LastTracked(t: Disk, c: seq<Slot>, held: multiset<nat>, k: nat, i: nat)
    requires Cached(c, held + multiset{i}) && At(c, k, i) && i < |t| && t[i].kind != Free
    requires (forall l: nat :: ReadAt(t, c, l)) && forall j: nat :: j != i ==> KeptAt(t, held, j)
    ensures c[k].valid && t[i].nlink == 0 && c[k].ref == 1 <==> t[i].nlink == 0 && held[i] == 0
    ensures Tracked(After(t, i, held), c[k := Slot(i, c[k].ref - 1, c[k].valid && !(t[i].nlink == 0 && held[i] == 0))], held, multiset{})
  {
    var gone := t[i].nlink == 0 && held[i] == 0;
    FewerCached(c, held + multiset{i}, k, i, c[k].valid && !gone);
    assert held + multiset{i} - multiset{i} == held && held + multiset{} == held;
    assert ReadAt(t, c, k);
    var c' := c[k := Slot(i, c[k].ref - 1, c[k].valid && !gone)];
    forall l: nat ensures ReadAt(After(t, i, held), c', l) { assert ReadAt(t, c, l) && ApartAt(c, k, l); }
    forall j: nat ensures KeptAt(After(t, i, held), held, j) {
      if j != i { assert KeptAt(t, held, j); }
    }
  }

  /** Before that, a link of inode i was taken away. */
  lemma LostTracked(t: Disk, t': Disk, c: seq<Slot>, held: multiset<nat>, k: nat, i: nat)
    requires Tracked(t, c, held, multiset{i}) && At(c, k, i) && c[k].valid && i < |t|
    requires t' == t[i := t[i].(nlink := t[i].nlink - 1)]
    ensures (forall l: nat :: ReadAt(t', c, l)) && forall j: nat :: j != i ==> KeptAt(t', held, j)
  {
    forall l: nat ensures ReadAt(t', c, l) { assert ReadAt(t, c, l) && ApartAt(c, k, l); }
    forall j: nat | j != i ensures KeptAt(t', held, j) { assert KeptAt(t, held, j); }
  }

  // ------------------------------------------------------------------ sys_unlink

  /** The directory, the entry and the inode that sys_unlink is to remove. */
  function UnlinkOf(t: Disk, cwd: nat, path: string): Option<(nat, nat, nat)> {
    var p := Parent(t, Start(cwd, path), Elems(path));
    if p == None || p.value.0 >= |t| || p.value.1 == Dot() || p.value.1 == DotDot() then None
    else
      var e := Find(t[p.value.0].entries, p.value.1, 0);
      if e == None then None
      else
        var i := t[p.value.0].entries[e.value].inum;
        if i >= |t| || (t[i].kind == Dir && !Bare(t[i])) then None else Some((p.value.0, e.value, i))
  }

  function Removed(t: Disk, d: nat, k: nat, i: nat): Disk
    requires d < |t| && i < |t| && k < |t[d].entries|
  {
    if t[i].kind == Dir then RemDir(t, d, k, i) else RemFile(t, d, k, i)
  }

  /** After unlink the name leads nowhere, and every other name where it led. */
  lemma UnlinkLeads(t: Disk, d: nat, k: nat, i: nat, g: string)
    requires Shaped(t) && Used(t, d, k) && i < |t| && i != d
    ensures var e := Find(Removed(t, d, k, i)[d].entries, g, 0);
      if g == t[d].entries[k].name then e == None else e == Find(t[d].entries, g, 0)
  {
    var entries, after := t[d].entries, Removed(t, d, k, i)[d].entries;
    var e := Find(entries, g, 0);
    if g == entries[k].name {
      forall l: nat | l < |after| && after[l].inum != 0 ensures after[l].name != g {
        if after[l].name == g {
          assert Used(t, d, l);
          NameOnce(t, d, l, k);
        }
      }
      FindNot(after, g);
    } else if e == None {
      forall l: nat | l < |after| && after[l].inum != 0 ensures after[l].name != g { FindNone(entries, g, 0, l); }
      FindNot(after, g);
    } else {
      forall l: nat | l < |after| && after[l].inum != 0 && after[l].name == g ensures l == e.value {
        assert Used(t, d, l) && Used(t, d, e.value);
        NameOnce(t, d, l, e.value);
      }
      FindAt(after, g, e.value);
    }
  }

  /** An entry whose name is not "." or "..": what it names may be removed, if it is no
      directory or an empty one. */
  lemma Removable(t: Disk, d: nat, k: nat)
    requires Linked(t) && Used(t, d, k) && t[d].entries[k].name != Dot() && t[d].entries[k].name != DotDot()
    ensures k >= 2 && t[d].entries[k].inum < |t| && t[d].entries[k].inum != d && t[d].nlink > 0
    ensures t[t[d].entries[k].inum].kind != Free && t[t[d].entries[k].inum].nlink >= 1
    ensures t[t[d].entries[k].inum].kind == Dir ==> t[d].nlink >= 2
  {
    assert InodeAt(t, d) && ChildAt(t, d, k);
    EntryCounts(t, d, k);
    var i := t[d].entries[k].inum;
    assert ExactAt(t, i) && InodeAt(t, i) && ExactAt(t, d);
    Named(t, d, k, i);
    if t[i].kind == Dir { SubdirCounts(t, d, k); }
  }

  lemma RemovedLinked(t: Disk, d: nat, k: nat, i: nat)
    requires Linked(t) && Used(t, d, k) && k >= 2 && t[d].entries[k].inum == i && i < |t| && i != d && (t[i].kind == Dir ==> Bare(t[i]))
    ensures Linked(Removed(t, d, k, i))
  {
    if t[i].kind == Dir { RemDirLinked(t, d, k, i); } else { RemFileLinked(t, d, k, i); }
  }

  // ---------------------------------------------------------------------- create

  /** ialloc's inode. */
  function FreeInode(t: Disk, i: nat): (r: Option<nat>)
    requires i <= |t|
    ensures r.Some? ==> i <= r.value < |t| && t[r.value].kind == Free
    decreases |t| - i
  {
    if i == |t| then None else if t[i].kind == Free then Some(i) else FreeInode(t, i + 1)
  }

  datatype Made = Found(i: nat) | New(d: nat, k: nat, f: string, i: nat)

  /** What create returns: a file that is there, or a new inode with a new name. */
  function CreateOf(t: Disk, cwd: nat, path: string, kind: Kind): Option<Made>
    requires |t| > 0
  {
    var p := Parent(t, Start(cwd, path), Elems(path));
    if p == None || p.value.0 >= |t| then None else CreateAt(t, p.value.0, p.value.1, kind)
  }

  /** The same in directory d. */
  function CreateAt(t: Disk, d: nat, f: string, kind: Kind): Option<Made>
    requires d < |t|
  {
    var entries := t[d].entries;
    var e := Find(entries, f, 0);
    if e.Some? then
      if kind == Plain && entries[e.value].inum < |t| && t[entries[e.value].inum].kind == Plain then Some(Found(entries[e.value].inum)) else None
    else
      var i := FreeInode(t, 1);
      if i == None then None else Some(New(d, Gap(entries, 0), f, i.value))
  }

  /** The new inode, before it has a name. */
  function Newborn(kind: Kind, d: nat, i: nat): Inode {
    Inode(kind, 0, if kind == Dir then [Dirent(i, Dot()), Dirent(d, DotDot())] else [])
  }

  function Make(t: Disk, d: nat, k: nat, f: string, i: nat, kind: Kind): Disk
    requires d < |t| && i < |t|
  {
    var t1 := t[i := Newborn(kind, d, i)];
    if kind == Dir then AddDir(t1, d, k, f, i) else AddFile(t1, d, k, f, i)
  }

  function Created(t: Disk, m: Made, kind: Kind): Disk
    requires m.New? ==> m.d < |t| && m.i < |t|
  {
    match m case Found(_) => t case New(d, k, f, i) => Make(t, d, k, f, i, kind)
  }

  ghost predicate Proper(t: Disk, m: Made) {
    m.New? ==> Room(t, m.d, m.k) && Absent(t, m.d, m.f) && IsField(m.f) && 0 < m.i < |t| && t[m.i].kind == Free
  }

  function Entered(t: Disk, d: nat, k: nat, f: string, i: nat): Disk
    requires d < |t|
  {
    t[d := t[d].(entries := Put(t[d].entries, k, Dirent(i, f)))]
  }

  /** What create has made of t before it enters the name. */
  function Begun(t: Disk, d: nat, i: nat, kind: Kind): Disk
    requires d < |t| && i < |t|
  {
    if kind == Dir then t[d := t[d].(nlink := t[d].nlink + 1)][i := Inode(Dir, 1, [Dirent(i, Dot()), Dirent(d, DotDot())])]
    else t[i := Inode(kind, 1, [])]
  }

  lemma MakeSteps(t: Disk, d: nat, k: nat, f: string, i: nat, kind: Kind)
    requires d < |t| && i < |t| && i != d && t[d].kind == Dir
    ensures Entered(Begun(t, d, i, kind), d, k, f, i) == Make(t, d, k, f, i, kind)
  {
    var t1 := Begun(t, d, i, kind);
    assert Entered(t1, d, k, f, i)[d] == Make(t, d, k, f, i, kind)[d];
    assert Entered(t1, d, k, f, i)[i] == Make(t, d, k, f, i, kind)[i];
  }

  /** create keeps link counts exact if and only if the directory is not a removed one. */
  lemma MakeExact(t: Disk, d: nat, k: nat, f: string, i: nat, kind: Kind)
    requires Linked(t) && Room(t, d, k) && Absent(t, d, f) && IsField(f) && 0 < i < |t| && t[i].kind == Free && kind != Free
    ensures Exact(Make(t, d, k, f, i, kind)) <==> t[d].nlink > 0
    ensures t[d].nlink > 0 ==> Linked(Make(t, d, k, f, i, kind))
  {
    assert InodeAt(t, i) && InodeAt(t, d);
    var t1 := t[i := Newborn(kind, d, i)];
    SetDeadLinked(t, i, Newborn(kind, d, i));
    NewbornRoom(t, d, k, f, i, kind);
    if kind == Dir {
      if t[d].nlink > 0 { AddDirLinked(t1, d, k, f, i); } else { AddDirBreaks(t1, d, k, f, i); }
    } else {
      AddFileExact(t1, d, k, f, i);
      if t[d].nlink > 0 { AddFileShaped(t1, d, k, f, i); }
    }
  }

  lemma NewbornRoom(t: Disk, d: nat, k: nat, f: string, i: nat, kind: Kind)
    requires Room(t, d, k) && Absent(t, d, f) && i < |t| && t[i].kind == Free
    ensures Room(t[i := Newborn(kind, d, i)], d, k) && Absent(t[i := Newborn(kind, d, i)], d, f)
  {
    forall l: nat | Used(t[i := Newborn(kind, d, i)], d, l) ensures t[d].entries[l].name != f { assert Used(t, d, l); }
  }

  /** ialloc, ilock and the first link. */
  lemma BornTracked(t: Disk, c: seq<Slot>, held: multiset<nat>, temps: multiset<nat>, k: nat, i: nat, kind: Kind)
    requires Tracked(t, c, held, temps) && k < |c| && c[k].ref == 0 && i < |t| && t[i].kind == Free && kind != Free
    requires forall l: nat :: !At(c, l, i)
    ensures Tracked(t[i := Inode(kind, 1, [])], c[k := Slot(i, 1, true)], held, temps + multiset{i})
  {
    NewCached(c, held + temps, k, i);
    ReadCached(c[k := Slot(i, 1, false)], held + temps + multiset{i}, k);
    assert c[k := Slot(i, 1, false)][k := Slot(i, 1, true)] == c[k := Slot(i, 1, true)];
    assert held + temps + multiset{i} == held + (temps + multiset{i});
    var t', c' := t[i := Inode(kind, 1, [])], c[k := Slot(i, 1, true)];
    forall l: nat ensures ReadAt(t', c', l) { assert ReadAt(t, c, l) && !At(c, l, i); }
    forall j: nat ensures KeptAt(t', held, j) { assert KeptAt(t, held, j); }
  }

  // ------------------------------------------------------------- where it begins

  /** mkfs's root directory, and nothing else. */
  function Blank(n: nat): Disk
    requires n > ROOT
  {
    seq(n, j => if j == ROOT then Inode(Dir, 1, [Dirent(ROOT, Dot()), Dirent(ROOT, DotDot())]) else FREE)
  }

  lemma BlankLinked(n: nat)
    requires n > ROOT
    ensures Linked(Blank(n))
  {
    var t := Blank(n);
    DotsDiffer();
    forall i: nat ensures ExactAt(t, i) {
      forall x ensures x in Namers(t, i) <==> i == ROOT && x == (ROOT, 1) {
        assert Names(t, x.0, x.1, i) <==> i == ROOT && x == (ROOT, 1);
      }
      assert Namers(t, i) == if i == ROOT then {(ROOT, 1)} else {};
    }
    forall i: nat ensures InodeAt(t, i) { }
    FieldIsField(".");
    FieldIsField("..");
  }

  /** A file made in a removed directory, which some process still has as its own, has a
      link that no directory counts. */
  lemma MadeInRemoved()
    ensures exists t: Disk, m: Made :: m.New? && Linked(t) && Proper(t, m) && t[m.d].nlink == 0 && !Exact(Created(t, m, Plain))
  {
    var t0 := Blank(4);
    BlankLinked(4);
    var t := t0[2 := Newborn(Dir, ROOT, 2)];
    SetDeadLinked(t0, 2, Newborn(Dir, ROOT, 2));
    var f := Field("x");
    FieldIsField("x");
    assert f[0] == 'x' && Dot()[0] == '.' && DotDot()[0] == '.';
    assert Room(t, 2, 2) && Absent(t, 2, f);
    MakeExact(t, 2, 2, f, 3, Plain);
    assert Proper(t, New(2, 2, f, 3));
  }

  // --------------------------------------------------- how an orphan comes about

  /** mkdir a; mkdir a/b. */
  function TwoMade(a: string, b: string): Disk {
    Make(Make(Blank(4), ROOT, 2, a, 2, Dir), 2, 2, b, 3, Dir)
  }

  /** Then, by a process whose directory is a/b, unlink of b and unlink of a. */
  function TwoRemoved(a: string, b: string): Disk
  {
    var t := TwoMade(a, b);
    if |t[2].entries| <= 2 then t
    else
      var t' := After(Removed(t, 2, 2, 3), 3, multiset{3});
      if |t'[ROOT].entries| <= 2 then t' else After(Removed(t', ROOT, 2, 2), 2, multiset{3})
  }

  ghost predicate Ordinary(f: string) {
    IsField(f) && f != Dot() && f != DotDot()
  }

  lemma MadeOnce(a: string)
    requires Ordinary(a)
    ensures var t := Make(Blank(4), ROOT, 2, a, 2, Dir);
      && Linked(t) && t[2] == Newborn(Dir, ROOT, 2).(nlink := 1) && t[3] == FREE
      && t[ROOT] == Inode(Dir, 2, [Dirent(ROOT, Dot()), Dirent(ROOT, DotDot()), Dirent(2, a)])
  {
    BlankLinked(4);
    assert Room(Blank(4), ROOT, 2) && Absent(Blank(4), ROOT, a);
    MakeExact(Blank(4), ROOT, 2, a, 2, Dir);
  }

  lemma MadeTwice(a: string, b: string)
    requires Ordinary(a) && Ordinary(b)
    ensures var t := TwoMade(a, b);
      && Linked(t) && t[3] == Newborn(Dir, 2, 3).(nlink := 1)
      && t[2] == Inode(Dir, 2, [Dirent(2, Dot()), Dirent(ROOT, DotDot()), Dirent(3, b)])
      && t[ROOT] == Inode(Dir, 2, [Dirent(ROOT, Dot()), Dirent(ROOT, DotDot()), Dirent(2, a)])
  {
    MadeOnce(a);
    var t := Make(Blank(4), ROOT, 2, a, 2, Dir);
    assert Room(t, 2, 2) && Absent(t, 2, b);
    MakeExact(t, 2, 2, b, 3, Dir);
  }

  lemma RemovedTwice(a: string, b: string)
    requires Ordinary(a) && Ordinary(b)
    ensures var t := TwoRemoved(a, b); Linked(t) && Orphan(t, 3) && t[2] == FREE && forall i :: 0 <= i < |t| ==> i == 3 || t[i].kind == Free || t[i].nlink > 0
  {
    MadeTwice(a, b);
    var t := TwoMade(a, b);
    assert Used(t, 2, 2);
    RemovedLinked(t, 2, 2, 3);
    var t1 := After(Removed(t, 2, 2, 3), 3, multiset{3});
    assert t1[2].entries == [Dirent(2, Dot()), Dirent(ROOT, DotDot()), Empty()] && t1[3] == Newborn(Dir, 2, 3);
    assert Used(t1, ROOT, 2);
    RemovedLinked(t1, ROOT, 2, 2);
    SetDeadLinked(Removed(t1, ROOT, 2, 2), 2, FREE);
  }

  /** One process, in inode 3. */
  function InThree(): seq<Slot> {
    seq(NINODE, k => if k == 0 then Slot(3, 1, true) else Slot(0, 0, false))
  }

  /** So a state with an orphan is reached, with a process in it; and there chdir to ".."
      meets a free inode. */
  lemma OrphanReached(a: string, b: string)
    requires Ordinary(a) && Ordinary(b)
    ensures var t := TwoRemoved(a, b);
      Linked(t) && Tracked(t, InThree(), multiset{3}, multiset{}) && Orphan(t, 3) && EndsFree(t, Start(3, ".."), Elems(".."))
  {
    RemovedTwice(a, b);
    OrphanHeld(TwoRemoved(a, b));
    OneUp(TwoRemoved(a, b), 3);
  }

  lemma SomeOrdinary()
    ensures Ordinary(Field("a")) && Ordinary(Field("b"))
  {
    FieldIsField("a");
    FieldIsField("b");
    assert Field("a")[0] == 'a' && Field("b")[0] == 'b' && Dot()[0] == '.' && DotDot()[0] == '.';
  }

  /** For example with directories "a" and "b": every invariant holds of this state, and a
      path leads to a free inode all the same. */
  lemma OrphanExample()
    ensures exists t: Disk ::
      Linked(t) && Tracked(t, InThree(), multiset{3}, multiset{}) && Orphan(t, 3) && EndsFree(t, Start(3, ".."), Elems(".."))
  {
    SomeOrdinary();
    OrphanReached(Field("a"), Field("b"));
  }

  lemma OrphanHeld(t: Disk)
    requires |t| > 3 && t[3].kind != Free && forall i :: 0 <= i < |t| ==> i == 3 || t[i].kind == Free || t[i].nlink > 0
    ensures Tracked(t, InThree(), multiset{3}, multiset{})
  {
    var c := InThree();
    assert multiset{3} + multiset{} == multiset{3};
    assert At(c, 0, 3);
    forall i: nat ensures HomeAt(c, multiset{3}, i) { }
    forall i: nat ensures KeptAt(t, multiset{3}, i) { }
  }

  lemma OneUp(t: Disk, d: nat)
    requires Shaped(t) && Orphan(t, d)
    ensures EndsFree(t, Start(d, ".."), Elems(".."))
  {
    assert Strip("..") == ".." && First("..") == "..";
    assert Elems("..") == [".."];
    assert [".."][..0] == [];
    assert Climbs(t, d, [".."], 0);
    EndsExactly(t, d, [".."]);
  }
}
