/** Directories and link counts (fs.c, sysfile.c): the inodes of a file system with the
    entries of its directories, what it means that they are linked properly, and the few
    changes from which every call is made. */
module Directories {
  import opened Options
  import Sets

  const DIRSIZ: nat := 14
  const ROOT: nat := 1

  datatype Kind = Free | Dir | Plain | Device
  datatype Dirent = Dirent(inum: nat, name: string)
  datatype Inode = Inode(kind: Kind, nlink: int, entries: seq<Dirent>)
  type Disk = seq<Inode>

  const FREE := Inode(Free, 0, [])

  // ------------------------------------------------------------------- names

  /** The name field of an entry: what strncpy leaves of a name, padded with NULs. */
  function Pad(s: string, n: nat): (f: string)
    ensures |f| == n
    decreases |s|, n
  {
    if n == 0 then "" else if s == "" || s[0] == '\0' then ['\0'] + Pad("", n - 1) else [s[0]] + Pad(s[1..], n - 1)
  }

  function Field(s: string): string {
    Pad(s, DIRSIZ)
  }

  /** A field's own field is itself. */
  lemma {:induction false} PadPad(s: string, n: nat)
    ensures Pad(Pad(s, n), n) == Pad(s, n)
    decreases n
  {
    if n > 0 {
      assert Pad(s, n)[1..] == if s == "" || s[0] == '\0' then Pad("", n - 1) else Pad(s[1..], n - 1);
      PadPad(if s == "" || s[0] == '\0' then "" else s[1..], n - 1);
      if Pad(s, n)[0] == '\0' { PadNul(n - 1); }
    }
  }

  lemma {:induction false} PadNul(n: nat)
    ensures Pad(Pad("", n), n) == Pad("", n)
  {
    if n > 0 { PadNul(n - 1); }
  }

  ghost predicate IsField(f: string) {
    Field(f) == f
  }

  lemma FieldIsField(s: string)
    ensures IsField(Field(s))
  {
    PadPad(s, DIRSIZ);
  }

  function Dot(): string {
    Field(".")
  }

  function DotDot(): string {
    Field("..")
  }

  lemma DotsDiffer()
    ensures Dot() != DotDot()
  {
    assert Dot()[1..] == Pad("", DIRSIZ - 1) && "."[1..] == "";
    assert DotDot()[1..] == Pad("."[..], DIRSIZ - 1) && ".."[1..] == ".";
    assert Pad("", DIRSIZ - 1)[0] == '\0' && Pad(".", DIRSIZ - 1)[0] == '.';
  }

  // --------------------------------------------------------------- invariant

  ghost predicate Used(t: Disk, d: nat, k: nat) {
    d < |t| && t[d].kind == Dir && k < |t[d].entries| && t[d].entries[k].inum != 0
  }

  /** Entry k of d names i; the entry "." and directories that are removed do not count. */
  ghost predicate Names(t: Disk, d: nat, k: nat, i: nat) {
    Used(t, d, k) && t[d].nlink > 0 && t[d].entries[k].inum == i && t[d].entries[k].name != Dot()
  }

  ghost function Namers(t: Disk, i: nat): set<(nat, nat)> {
    set d: nat, k: nat | d < |t| && k < |t[d].entries| && Names(t, d, k, i) :: (d, k)
  }

  ghost predicate ExactAt(t: Disk, i: nat) {
    i < |t| ==> t[i].nlink == |Namers(t, i)|
  }

  /** Every inode's nlink is the number of entries that name it. */
  ghost predicate Exact(t: Disk) {
    forall i: nat :: ExactAt(t, i)
  }

  /** Nothing but "." and "..". */
  predicate Bare(x: Inode) {
    forall k :: 2 <= k < |x.entries| ==> x.entries[k].inum == 0
  }

  ghost predicate InodeAt(t: Disk, i: nat) {
    i < |t| ==>
      && t[i].nlink >= 0 && (t[i].kind == Free ==> t[i].nlink == 0) && (t[i].kind != Dir ==> t[i].entries == [])
      && (t[i].kind == Dir ==> Dotted(t, i)) && (t[i].kind == Dir && t[i].nlink == 0 ==> Bare(t[i]))
  }

  ghost predicate Dotted(t: Disk, i: nat)
    requires i < |t|
  {
    && |t[i].entries| >= 2 && t[i].entries[0] == Dirent(i, Dot()) && t[i].entries[1].name == DotDot()
    && 0 < t[i].entries[1].inum < |t| && (t[i].entries[1].inum == i <==> i == ROOT) && i > 0
  }

  /** Names within a directory differ, and no directory is in it twice. */
  ghost predicate UniqueAt(t: Disk, d: nat, k: nat, l: nat) {
    Used(t, d, k) && Used(t, d, l) && k < l ==>
      && t[d].entries[k].name != t[d].entries[l].name
      && (2 <= k && t[d].entries[k].inum == t[d].entries[l].inum && t[d].entries[k].inum < |t| ==> t[t[d].entries[k].inum].kind != Dir)
  }

  /** Names are what strncpy leaves. */
  ghost predicate NameAt(t: Disk, d: nat, k: nat) {
    Used(t, d, k) ==> IsField(t[d].entries[k].name)
  }

  ghost predicate ChildAt(t: Disk, d: nat, k: nat) {
    Used(t, d, k) && k >= 2 ==>
      && t[d].entries[k].inum < |t| && t[d].entries[k].inum != ROOT && t[t[d].entries[k].inum].kind != Free
      && (t[t[d].entries[k].inum].kind == Dir ==> ParentIs(t, t[d].entries[k].inum, d) && t[t[d].entries[k].inum].nlink > 0)
  }

  ghost predicate ParentIs(t: Disk, c: nat, d: nat) {
    c < |t| && |t[c].entries| >= 2 && t[c].entries[1].inum == d
  }

  ghost predicate HasChild(t: Disk, p: nat, c: nat) {
    exists k: nat :: k >= 2 && Used(t, p, k) && t[p].entries[k].inum == c
  }

  ghost predicate ParentAt(t: Disk, c: nat, p: nat) {
    ParentIs(t, c, p) && t[c].kind == Dir && t[c].nlink > 0 && c != ROOT ==> HasChild(t, p, c)
  }

  ghost predicate Shaped(t: Disk) {
    && |t| > ROOT && t[0] == FREE && t[ROOT].kind == Dir && t[ROOT].nlink > 0
    && (forall i: nat :: InodeAt(t, i)) && (forall d: nat, k: nat, l: nat :: UniqueAt(t, d, k, l))
    && (forall d: nat, k: nat :: NameAt(t, d, k)) && (forall d: nat, k: nat :: ChildAt(t, d, k)) && (forall c: nat, p: nat :: ParentAt(t, c, p))
  }

  ghost predicate Linked(t: Disk) {
    Shaped(t) && Exact(t)
  }

  // ------------------------------------------------------------------ counts

  lemma SameNamers(a: Disk, b: Disk, i: nat)
    requires forall d: nat, k: nat :: Names(b, d, k, i) <==> Names(a, d, k, i)
    ensures Namers(b, i) == Namers(a, i)
  {
    forall d: nat, k: nat ensures (d, k) in Namers(b, i) <==> (d, k) in Namers(a, i) {
      assert Names(b, d, k, i) <==> Names(a, d, k, i);
    }
  }

  lemma MoreNamers(a: Disk, b: Disk, i: nat, x: (nat, nat))
    requires forall d: nat, k: nat :: Names(b, d, k, i) <==> Names(a, d, k, i) || (d, k) == x
    requires !Names(a, x.0, x.1, i)
    ensures |Namers(b, i)| == |Namers(a, i)| + 1
  {
    forall d: nat, k: nat ensures (d, k) in Namers(b, i) <==> (d, k) in Namers(a, i) + {x} {
      assert Names(b, d, k, i) <==> Names(a, d, k, i) || (d, k) == x;
    }
    assert Namers(b, i) == Namers(a, i) + {x};
  }

  lemma Named(t: Disk, d: nat, k: nat, i: nat)
    requires ExactAt(t, i) && i < |t| && Names(t, d, k, i)
    ensures t[i].nlink > 0
  {
    assert (d, k) in Namers(t, i);
  }

  lemma NamedTwice(t: Disk, x: (nat, nat), y: (nat, nat), i: nat)
    requires ExactAt(t, i) && i < |t| && Names(t, x.0, x.1, i) && Names(t, y.0, y.1, i) && x != y
    ensures t[i].nlink >= 2
  {
    assert {x, y} <= Namers(t, i);
    assert |{x, y}| == 2;
    Sets.SubsetSize({x, y}, Namers(t, i));
  }

  /** What entry k >= 2 of a directory names, and that it counts. */
  lemma EntryCounts(t: Disk, d: nat, k: nat)
    requires Shaped(t) && Used(t, d, k) && k >= 2
    ensures Names(t, d, k, t[d].entries[k].inum) && t[d].nlink > 0
  {
    assert InodeAt(t, d) && UniqueAt(t, d, 0, k);
  }

  // ----------------------------------------------------- SetDead: no links yet, or no more

  /** What may stand where nothing links to: a free inode, a file, or a bare directory. */
  ghost predicate Unlinked(t: Disk, i: nat, x: Inode) {
    x.nlink == 0 && (x.kind != Dir ==> x.entries == []) &&
    (x.kind == Dir ==> exists d: nat :: 0 < d < |t| && d != i && x.entries == [Dirent(i, Dot()), Dirent(d, DotDot())])
  }

  lemma NobodyNames(t: Disk, i: nat, d: nat, k: nat)
    requires Linked(t) && i < |t| && t[i].nlink == 0 && Used(t, d, k) && k >= 2
    ensures t[d].entries[k].inum != i
  {
    if t[d].entries[k].inum == i {
      EntryCounts(t, d, k);
      assert ExactAt(t, i);
      Named(t, d, k, i);
    }
  }

  lemma SetDeadNames(t: Disk, i: nat, x: Inode, d: nat, k: nat, j: nat)
    requires i < |t| && t[i].nlink == 0 == x.nlink
    ensures Names(t[i := x], d, k, j) <==> Names(t, d, k, j)
  {
  }

  lemma SetDeadLinked(t: Disk, i: nat, x: Inode)
    requires Linked(t) && 0 < i < |t| && t[i].nlink == 0 && Unlinked(t, i, x)
    ensures Linked(t[i := x])
  {
    var b := t[i := x];
    forall j: nat ensures ExactAt(b, j) {
      assert ExactAt(t, j);
      forall d: nat, k: nat ensures Names(b, d, k, j) <==> Names(t, d, k, j) { SetDeadNames(t, i, x, d, k, j); }
      SameNamers(t, b, j);
    }
    forall j: nat ensures InodeAt(b, j) { assert InodeAt(t, j); }
    forall d: nat, k: nat, l: nat ensures UniqueAt(b, d, k, l) { SetDeadUnique(t, i, x, d, k, l); }
    forall d: nat, k: nat ensures ChildAt(b, d, k) { SetDeadChild(t, i, x, d, k); }
    forall d: nat, k: nat ensures NameAt(b, d, k) { SetDeadName(t, i, x, d, k); }
    forall c: nat, p: nat ensures ParentAt(b, c, p) { SetDeadParent(t, i, x, c, p); }
  }

  lemma SetDeadUnique(t: Disk, i: nat, x: Inode, d: nat, k: nat, l: nat)
    requires Linked(t) && i < |t| && t[i].nlink == 0 && Unlinked(t, i, x)
    ensures UniqueAt(t[i := x], d, k, l)
  {
    DotsDiffer();
    assert UniqueAt(t, d, k, l) && ChildAt(t, d, k);
    if d != i && Used(t, d, k) && k >= 2 { NobodyNames(t, i, d, k); }
  }

  lemma SetDeadChild(t: Disk, i: nat, x: Inode, d: nat, k: nat)
    requires Linked(t) && i < |t| && t[i].nlink == 0 && Unlinked(t, i, x)
    ensures ChildAt(t[i := x], d, k)
  {
    assert ChildAt(t, d, k);
    if d != i && Used(t, d, k) && k >= 2 { NobodyNames(t, i, d, k); }
  }

  lemma SetDeadName(t: Disk, i: nat, x: Inode, d: nat, k: nat)
    requires i < |t| && Unlinked(t, i, x) && NameAt(t, d, k)
    ensures NameAt(t[i := x], d, k)
  {
    FieldIsField(".");
    FieldIsField("..");
  }

  lemma SetDeadParent(t: Disk, i: nat, x: Inode, c: nat, p: nat)
    requires i < |t| && t[i].nlink == 0 && x.nlink == 0 && InodeAt(t, i) && ParentAt(t, c, p)
    ensures ParentAt(t[i := x], c, p)
  {
    if c != i && HasChild(t, p, c) {
      var k: nat :| k >= 2 && Used(t, p, k) && t[p].entries[k].inum == c;
      assert p != i;
      assert Used(t[i := x], p, k);
    }
  }

  // ---------------------------------------------------- one more name for a file

  function Put(entries: seq<Dirent>, k: nat, e: Dirent): seq<Dirent> {
    if k < |entries| then entries[k := e] else entries + [e]
  }

  /** Entry k of d is where dirlink puts the next name. */
  ghost predicate Room(t: Disk, d: nat, k: nat) {
    d < |t| && t[d].kind == Dir && 2 <= k <= |t[d].entries| && (k < |t[d].entries| ==> t[d].entries[k].inum == 0)
  }

  ghost predicate Absent(t: Disk, d: nat, f: string) {
    forall k: nat :: Used(t, d, k) ==> t[d].entries[k].name != f
  }

  function AddFile(t: Disk, d: nat, k: nat, f: string, i: nat): Disk
    requires d < |t| && i < |t|
  {
    t[i := t[i].(nlink := t[i].nlink + 1)][d := t[d].(entries := Put(t[d].entries, k, Dirent(i, f)))]
  }

  ghost predicate CanAddFile(t: Disk, d: nat, k: nat, f: string, i: nat) {
    Room(t, d, k) && Absent(t, d, f) && IsField(f) && 0 < i < |t| && t[i].kind != Dir && t[i].kind != Free && i != d
  }

  lemma AddFileNames(t: Disk, d: nat, k: nat, f: string, i: nat, e: nat, l: nat, j: nat)
    requires CanAddFile(t, d, k, f, i) && f != Dot()
    ensures Names(AddFile(t, d, k, f, i), e, l, j) <==> Names(t, e, l, j) || (j == i && e == d && l == k && t[d].nlink > 0)
  {
  }

  lemma NotDot(t: Disk, d: nat, f: string)
    requires InodeAt(t, d) && d < |t| && t[d].kind == Dir && Absent(t, d, f)
    ensures f != Dot() && f != DotDot()
  {
    assert Used(t, d, 0) && Used(t, d, 1);
  }

  /** The counts stay exact if and only if the directory is not a removed one. */
  lemma AddFileExact(t: Disk, d: nat, k: nat, f: string, i: nat)
    requires Linked(t) && CanAddFile(t, d, k, f, i)
    ensures Exact(AddFile(t, d, k, f, i)) <==> t[d].nlink > 0
  {
    var b := AddFile(t, d, k, f, i);
    assert InodeAt(t, d);
    NotDot(t, d, f);
    forall j: nat ensures if j == i && t[d].nlink == 0 then !ExactAt(b, j) else ExactAt(b, j) {
      assert ExactAt(t, j);
      forall e: nat, l: nat ensures Names(b, e, l, j) <==> Names(t, e, l, j) || (j == i && e == d && l == k && t[d].nlink > 0) {
        AddFileNames(t, d, k, f, i, e, l, j);
      }
      if j == i && t[d].nlink > 0 { MoreNamers(t, b, j, (d, k)); } else { SameNamers(t, b, j); }
    }
    assert t[d].nlink == 0 ==> !ExactAt(b, i);
  }

  lemma AddFileShaped(t: Disk, d: nat, k: nat, f: string, i: nat)
    requires Shaped(t) && CanAddFile(t, d, k, f, i) && t[d].nlink > 0
    ensures Shaped(AddFile(t, d, k, f, i))
  {
    var b := AddFile(t, d, k, f, i);
    forall j: nat ensures InodeAt(b, j) { assert InodeAt(t, j); }
    forall e: nat, l: nat, m: nat ensures UniqueAt(b, e, l, m) { assert UniqueAt(t, e, l, m) && ChildAt(t, e, l); }
    forall e: nat, l: nat ensures ChildAt(b, e, l) { assert ChildAt(t, e, l); }
    forall e: nat, l: nat ensures NameAt(b, e, l) { assert NameAt(t, e, l); }
    forall c: nat, p: nat ensures ParentAt(b, c, p) {
      assert ParentAt(t, c, p);
      KeepChild(t, b, p, c);
    }
  }

  /** Entries that stay are children that stay. */
  lemma KeepChild(a: Disk, b: Disk, p: nat, c: nat)
    requires forall k: nat :: k >= 2 && Used(a, p, k) && a[p].entries[k].inum == c ==> Used(b, p, k) && b[p].entries[k].inum == c
    ensures HasChild(a, p, c) ==> HasChild(b, p, c)
  {
    if HasChild(a, p, c) {
      var k: nat :| k >= 2 && Used(a, p, k) && a[p].entries[k].inum == c;
      assert Used(b, p, k);
    }
  }

  // --------------------------------------------------- one name fewer for a file

  /** An entry of zeros. */
  function Empty(): Dirent {
    Dirent(0, seq(DIRSIZ, _ => '\0'))
  }

  function RemFile(t: Disk, d: nat, k: nat, i: nat): Disk
    requires d < |t| && i < |t| && k < |t[d].entries|
  {
    t[i := t[i].(nlink := t[i].nlink - 1)][d := t[d].(entries := t[d].entries[k := Empty()])]
  }

  ghost predicate CanRemFile(t: Disk, d: nat, k: nat, i: nat) {
    Used(t, d, k) && k >= 2 && t[d].entries[k].inum == i && i < |t| && t[i].kind != Dir && i != d
  }

  lemma RemFileNames(t: Disk, d: nat, k: nat, i: nat, e: nat, l: nat, j: nat)
    requires CanRemFile(t, d, k, i) && Names(t, d, k, i)
    ensures Names(t, e, l, j) <==> Names(RemFile(t, d, k, i), e, l, j) || (j == i && e == d && l == k)
  {
  }

  lemma RemFileLinked(t: Disk, d: nat, k: nat, i: nat)
    requires Linked(t) && CanRemFile(t, d, k, i)
    ensures Linked(RemFile(t, d, k, i)) && t[i].nlink > 0
  {
    var b := RemFile(t, d, k, i);
    EntryCounts(t, d, k);
    assert ExactAt(t, i);
    Named(t, d, k, i);
    forall j: nat ensures ExactAt(b, j) {
      assert ExactAt(t, j);
      forall e: nat, l: nat ensures Names(t, e, l, j) <==> Names(b, e, l, j) || (j == i && e == d && l == k) {
        RemFileNames(t, d, k, i, e, l, j);
      }
      if j == i { MoreNamers(b, t, j, (d, k)); } else { SameNamers(b, t, j); }
    }
    RemFileShaped(t, d, k, i);
  }

  lemma RemFileShaped(t: Disk, d: nat, k: nat, i: nat)
    requires Shaped(t) && CanRemFile(t, d, k, i) && t[i].nlink > 0 && t[d].nlink > 0
    ensures Shaped(RemFile(t, d, k, i))
  {
    var b := RemFile(t, d, k, i);
    forall j: nat ensures InodeAt(b, j) {
      assert InodeAt(t, j);
      ClearInode(t, b, d, k, j);
    }
    forall e: nat, l: nat, m: nat ensures UniqueAt(b, e, l, m) {
      assert UniqueAt(t, e, l, m) && ChildAt(t, e, l);
      ClearUnique(t, b, d, k, e, l, m);
    }
    forall e: nat, l: nat ensures ChildAt(b, e, l) {
      assert ChildAt(t, e, l);
      ClearChild(t, b, d, k, e, l);
    }
    forall e: nat, l: nat ensures NameAt(b, e, l) {
      assert NameAt(t, e, l) && ClearAt(t, b, d, k, e);
    }
    forall c: nat, p: nat ensures ParentAt(b, c, p) {
      assert ParentAt(t, c, p);
      if c != i { ClearParent(t, b, d, k, c, p); }
    }
  }

  /** b is a without entry k of d, but for link counts. */
  ghost predicate ClearAt(a: Disk, b: Disk, d: nat, k: nat, j: nat)
    requires |b| == |a| && d < |a| && k < |a[d].entries|
  {
    j < |a| ==> b[j].kind == a[j].kind && b[j].entries == if j == d then a[j].entries[k := Empty()] else a[j].entries
  }

  ghost predicate Cleared(a: Disk, b: Disk, d: nat, k: nat) {
    |b| == |a| && d < |a| && 2 <= k < |a[d].entries| && forall j: nat :: ClearAt(a, b, d, k, j)
  }

  lemma ClearInode(a: Disk, b: Disk, d: nat, k: nat, j: nat)
    requires Cleared(a, b, d, k) && InodeAt(a, j) && d < |b| && b[d].nlink > 0
    requires j < |a| ==> b[j].nlink >= 0 && (a[j].nlink == 0 ==> b[j].nlink == 0) && (b[j].nlink == 0 && a[j].kind == Dir ==> Bare(a[j]))
    ensures InodeAt(b, j)
  {
    assert ClearAt(a, b, d, k, j);
  }

  lemma ClearUnique(a: Disk, b: Disk, d: nat, k: nat, e: nat, l: nat, m: nat)
    requires Cleared(a, b, d, k) && UniqueAt(a, e, l, m) && ChildAt(a, e, l)
    ensures UniqueAt(b, e, l, m)
  {
    assert ClearAt(a, b, d, k, e);
    if Used(a, e, l) { assert ClearAt(a, b, d, k, a[e].entries[l].inum); }
  }

  lemma ClearChild(a: Disk, b: Disk, d: nat, k: nat, e: nat, l: nat)
    requires Cleared(a, b, d, k) && ChildAt(a, e, l)
    requires Used(a, e, l) && l >= 2 && a[e].entries[l].inum < |a| && (e, l) != (d, k) && a[a[e].entries[l].inum].kind == Dir ==> b[a[e].entries[l].inum].nlink > 0
    ensures ChildAt(b, e, l)
  {
    assert ClearAt(a, b, d, k, e);
    if Used(a, e, l) { assert ClearAt(a, b, d, k, a[e].entries[l].inum); }
  }

  lemma ClearParent(a: Disk, b: Disk, d: nat, k: nat, c: nat, p: nat)
    requires Cleared(a, b, d, k) && ParentAt(a, c, p) && a[d].entries[k].inum != c
    requires c < |a| && b[c].nlink > 0 ==> a[c].nlink > 0
    ensures ParentAt(b, c, p)
  {
    assert ClearAt(a, b, d, k, c) && ClearAt(a, b, d, k, p);
    KeepChild(a, b, p, c);
  }

  // ------------------------------------------------- a bare directory gets its name

  function AddDir(t: Disk, d: nat, k: nat, f: string, i: nat): Disk
    requires d < |t| && i < |t|
  {
    t[i := t[i].(nlink := t[i].nlink + 1)][d := Inode(Dir, t[d].nlink + 1, Put(t[d].entries, k, Dirent(i, f)))]
  }

  ghost predicate CanAddDir(t: Disk, d: nat, k: nat, f: string, i: nat) {
    && Room(t, d, k) && Absent(t, d, f) && IsField(f) && 0 < i < |t| && i != d && i != ROOT
    && t[i] == Inode(Dir, 0, [Dirent(i, Dot()), Dirent(d, DotDot())])
  }

  lemma AddDirNames(t: Disk, d: nat, k: nat, f: string, i: nat, e: nat, l: nat, j: nat)
    requires CanAddDir(t, d, k, f, i) && f != Dot() && t[d].nlink > 0 && d > 0
    ensures Names(AddDir(t, d, k, f, i), e, l, j) <==>
              Names(t, e, l, j) || (j == i && e == d && l == k) || (j == d && e == i && l == 1)
  {
    DotsDiffer();
  }

  lemma AddDirLinked(t: Disk, d: nat, k: nat, f: string, i: nat)
    requires Linked(t) && CanAddDir(t, d, k, f, i) && t[d].nlink > 0
    ensures Linked(AddDir(t, d, k, f, i))
  {
    var b := AddDir(t, d, k, f, i);
    assert InodeAt(t, d);
    NotDot(t, d, f);
    forall j: nat ensures ExactAt(b, j) {
      assert ExactAt(t, j);
      forall e: nat, l: nat ensures Names(b, e, l, j) <==> Names(t, e, l, j) || (j == i && e == d && l == k) || (j == d && e == i && l == 1) {
        AddDirNames(t, d, k, f, i, e, l, j);
      }
      if j == i { MoreNamers(t, b, j, (d, k)); } else if j == d { MoreNamers(t, b, j, (i, 1)); } else { SameNamers(t, b, j); }
    }
    AddDirShaped(t, d, k, f, i);
  }

  lemma AddDirShaped(t: Disk, d: nat, k: nat, f: string, i: nat)
    requires Linked(t) && CanAddDir(t, d, k, f, i) && t[d].nlink > 0
    ensures Shaped(AddDir(t, d, k, f, i))
  {
    var b := AddDir(t, d, k, f, i);
    forall j: nat ensures InodeAt(b, j) { AddDirInode(t, d, k, f, i, j); }
    forall e: nat, l: nat, m: nat ensures UniqueAt(b, e, l, m) { AddDirUnique(t, d, k, f, i, e, l, m); }
    forall e: nat, l: nat ensures ChildAt(b, e, l) { AddDirChild(t, d, k, f, i, e, l); }
    forall e: nat, l: nat ensures NameAt(b, e, l) { assert NameAt(t, e, l); }
    forall c: nat, p: nat ensures ParentAt(b, c, p) { AddDirParent(t, d, k, f, i, c, p); }
  }

  lemma AddDirInode(t: Disk, d: nat, k: nat, f: string, i: nat, j: nat)
    requires Shaped(t) && CanAddDir(t, d, k, f, i)
    ensures InodeAt(AddDir(t, d, k, f, i), j)
  {
    assert InodeAt(t, j) && InodeAt(t, d);
  }

  lemma AddDirChild(t: Disk, d: nat, k: nat, f: string, i: nat, e: nat, l: nat)
    requires Linked(t) && CanAddDir(t, d, k, f, i)
    ensures ChildAt(AddDir(t, d, k, f, i), e, l)
  {
    assert ChildAt(t, e, l);
    if Used(t, e, l) && l >= 2 { NobodyNames(t, i, e, l); }
  }

  lemma AddDirParent(t: Disk, d: nat, k: nat, f: string, i: nat, c: nat, p: nat)
    requires Shaped(t) && CanAddDir(t, d, k, f, i) && t[d].nlink > 0
    ensures ParentAt(AddDir(t, d, k, f, i), c, p)
  {
    var b := AddDir(t, d, k, f, i);
    assert ParentAt(t, c, p);
    if c == i { assert Used(b, d, k) && b[d].entries[k].inum == i; } else { KeepChild(t, b, p, c); }
  }

  lemma AddDirUnique(t: Disk, d: nat, k: nat, f: string, i: nat, e: nat, l: nat, m: nat)
    requires Linked(t) && CanAddDir(t, d, k, f, i)
    ensures UniqueAt(AddDir(t, d, k, f, i), e, l, m)
  {
    DotsDiffer();
    assert UniqueAt(t, e, l, m) && ChildAt(t, e, l) && ChildAt(t, e, m);
    if Used(t, e, l) && l >= 2 { NobodyNames(t, i, e, l); }
    if Used(t, e, m) && m >= 2 { NobodyNames(t, i, e, m); }
  }

  /** In a removed directory it breaks the count of the directory's own "..", which the new
      subdirectory brings back to life. */
  lemma AddDirBreaks(t: Disk, d: nat, k: nat, f: string, i: nat)
    requires Linked(t) && CanAddDir(t, d, k, f, i) && t[d].nlink == 0
    ensures !Exact(AddDir(t, d, k, f, i))
  {
    var b := AddDir(t, d, k, f, i);
    assert InodeAt(t, d);
    NotDot(t, d, f);
    DotsDiffer();
    var p := t[d].entries[1].inum;
    assert ExactAt(t, p) && InodeAt(t, p);
    assert Names(b, d, 1, p);
    if p == i {
      assert Names(b, d, k, i);
      if ExactAt(b, i) { NamedTwice(b, (d, 1), (d, k), i); }
    } else {
      forall e: nat, l: nat ensures Names(b, e, l, p) <==> Names(t, e, l, p) || (e == d && l == 1) {
        assert UniqueAt(t, d, 0, 1);
      }
      MoreNamers(t, b, p, (d, 1));
      assert !ExactAt(b, p);
    }
  }

  // ------------------------------------------------- an empty directory loses it

  function RemDir(t: Disk, d: nat, k: nat, i: nat): Disk
    requires d < |t| && i < |t| && k < |t[d].entries|
  {
    t[i := t[i].(nlink := t[i].nlink - 1)][d := Inode(t[d].kind, t[d].nlink - 1, t[d].entries[k := Empty()])]
  }

  ghost predicate CanRemDir(t: Disk, d: nat, k: nat, i: nat) {
    Used(t, d, k) && k >= 2 && t[d].entries[k].inum == i && i < |t| && t[i].kind == Dir && Bare(t[i])
  }

  /** An empty directory is named by its one entry only. */
  lemma BareOnce(t: Disk, d: nat, k: nat, i: nat)
    requires Linked(t) && CanRemDir(t, d, k, i)
    ensures Namers(t, i) == {(d, k)} && t[i].nlink == 1 && i != d
  {
    EntryCounts(t, d, k);
    assert ChildAt(t, d, k) && InodeAt(t, i) && ExactAt(t, i);
    forall e: nat, l: nat ensures Names(t, e, l, i) ==> (e, l) == (d, k) {
      assert InodeAt(t, e) && ChildAt(t, e, l) && UniqueAt(t, d, k, l) && UniqueAt(t, d, l, k) && ParentAt(t, e, i);
    }
    assert (d, k) in Namers(t, i);
    assert Namers(t, i) == {(d, k)};
  }

  /** A directory with a subdirectory is named twice: also after that one is removed it is
      not a removed one. */
  lemma SubdirCounts(t: Disk, d: nat, k: nat)
    requires Linked(t) && Used(t, d, k) && k >= 2 && t[d].entries[k].inum < |t| && t[t[d].entries[k].inum].kind == Dir
    ensures t[d].nlink >= 2 && Names(t, t[d].entries[k].inum, 1, d)
  {
    var i := t[d].entries[k].inum;
    DotsDiffer();
    EntryCounts(t, d, k);
    assert InodeAt(t, d) && InodeAt(t, i) && ChildAt(t, d, k) && ExactAt(t, d);
    if d == ROOT {
      NamedTwice(t, (i, 1), (ROOT, 1), d);
    } else {
      var p := t[d].entries[1].inum;
      assert ParentAt(t, d, p);
      var l: nat :| l >= 2 && Used(t, p, l) && t[p].entries[l].inum == d;
      EntryCounts(t, p, l);
      NamedTwice(t, (i, 1), (p, l), d);
    }
  }

  lemma RemDirNames(t: Disk, d: nat, k: nat, i: nat, e: nat, l: nat, j: nat)
    requires CanRemDir(t, d, k, i) && i != d && t[i].nlink == 1 && t[d].nlink >= 2
    requires InodeAt(t, i) && ParentIs(t, i, d) && Names(t, d, k, i)
    ensures Names(t, e, l, j) <==> Names(RemDir(t, d, k, i), e, l, j) || (j == i && e == d && l == k) || (j == d && e == i && l == 1)
  {
    if e == i {
      RemDirNamesGone(t, d, k, i, l, j);
    } else if e == d {
      RemDirNamesHere(t, d, k, i, l, j);
    } else {
      RemDirNamesElse(t, d, k, i, e, l, j);
    }
  }

  lemma RemDirNamesGone(t: Disk, d: nat, k: nat, i: nat, l: nat, j: nat)
    requires CanRemDir(t, d, k, i) && i != d && t[i].nlink == 1 && InodeAt(t, i) && ParentIs(t, i, d)
    ensures Names(t, i, l, j) <==> Names(RemDir(t, d, k, i), i, l, j) || (j == d && l == 1)
  {
    DotsDiffer();
    assert RemDir(t, d, k, i)[i].nlink == 0;
    assert d > 0 by { assert Dotted(t, i); }
  }

  lemma RemDirNamesHere(t: Disk, d: nat, k: nat, i: nat, l: nat, j: nat)
    requires CanRemDir(t, d, k, i) && i != d && t[d].nlink >= 2 && Names(t, d, k, i)
    ensures Names(t, d, l, j) <==> Names(RemDir(t, d, k, i), d, l, j) || (j == i && l == k)
  {
    var b := RemDir(t, d, k, i);
    assert b[d].entries == t[d].entries[k := Empty()] && b[d].nlink == t[d].nlink - 1;
  }

  lemma RemDirNamesElse(t: Disk, d: nat, k: nat, i: nat, e: nat, l: nat, j: nat)
    requires CanRemDir(t, d, k, i) && e != i && e != d
    ensures Names(t, e, l, j) <==> Names(RemDir(t, d, k, i), e, l, j)
  {
    assert e < |t| ==> RemDir(t, d, k, i)[e] == t[e];
  }

  lemma RemDirLinked(t: Disk, d: nat, k: nat, i: nat)
    requires Linked(t) && CanRemDir(t, d, k, i)
    ensures Linked(RemDir(t, d, k, i)) && t[i].nlink == 1
  {
    var b := RemDir(t, d, k, i);
    BareOnce(t, d, k, i);
    SubdirCounts(t, d, k);
    EntryCounts(t, d, k);
    assert InodeAt(t, i) && ChildAt(t, d, k);
    forall j: nat ensures ExactAt(b, j) {
      assert ExactAt(t, j);
      forall e: nat, l: nat ensures Names(t, e, l, j) <==> Names(b, e, l, j) || (j == i && e == d && l == k) || (j == d && e == i && l == 1) {
        RemDirNames(t, d, k, i, e, l, j);
      }
      if j == i { MoreNamers(b, t, j, (d, k)); } else if j == d { MoreNamers(b, t, j, (i, 1)); } else { SameNamers(b, t, j); }
    }
    RemDirShaped(t, d, k, i);
  }

  lemma RemDirShaped(t: Disk, d: nat, k: nat, i: nat)
    requires Linked(t) && CanRemDir(t, d, k, i) && i != d && t[i].nlink == 1 && t[d].nlink >= 2 && i != ROOT
    requires Namers(t, i) == {(d, k)}
    ensures Shaped(RemDir(t, d, k, i))
  {
    var b := RemDir(t, d, k, i);
    forall j: nat ensures InodeAt(b, j) {
      assert InodeAt(t, j);
      ClearInode(t, b, d, k, j);
    }
    forall e: nat, l: nat, m: nat ensures UniqueAt(b, e, l, m) {
      assert UniqueAt(t, e, l, m) && ChildAt(t, e, l);
      ClearUnique(t, b, d, k, e, l, m);
    }
    forall e: nat, l: nat ensures ChildAt(b, e, l) {
      assert ChildAt(t, e, l);
      if Used(t, e, l) && l >= 2 && t[e].entries[l].inum == i {
        EntryCounts(t, e, l);
        assert (e, l) in Namers(t, i);
      }
      ClearChild(t, b, d, k, e, l);
    }
    forall e: nat, l: nat ensures NameAt(b, e, l) {
      assert NameAt(t, e, l) && ClearAt(t, b, d, k, e);
    }
    forall c: nat, p: nat ensures ParentAt(b, c, p) {
      assert ParentAt(t, c, p);
      if c != i { ClearParent(t, b, d, k, c, p); }
    }
  }
}
