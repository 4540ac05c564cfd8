/** Path names (fs.c): skipelem's loops, the elements of a path, and where they lead. */
module Paths {
  import opened Options
  import opened Directories

  /** A path without its leading slashes. */
  function Strip(p: string): (r: string)
    ensures |r| <= |p| && (r != "" ==> r[0] != '/')
  {
    if p != "" && p[0] == '/' then Strip(p[1..]) else p
  }

  /** The part before the next slash. */
  function First(p: string): (r: string)
    ensures |r| <= |p| && r == p[..|r|] && '/' !in r && (p != "" && p[0] != '/' ==> r != "")
  {
    if p == "" || p[0] == '/' then "" else [p[0]] + First(p[1..])
  }

  /** The names in a path. */
  function Elems(path: string): seq<string>
    decreases |path|
  {
    var p := Strip(path);
    if p == "" then [] else [First(p)] + Elems(p[|First(p)|..])
  }

  lemma StripElems(p: string)
    ensures Elems(Strip(p)) == Elems(p) && (Strip(p) == "" <==> Elems(p) == [])
  {
    StripStrip(p);
  }

  lemma {:induction false} StripStrip(p: string)
    ensures Strip(Strip(p)) == Strip(p)
  {
    if p != "" && p[0] == '/' { StripStrip(p[1..]); }
  }

  function Join(names: seq<string>): string {
    if names == [] then "" else "/" + names[0] + Join(names[1..])
  }

  lemma {:induction false} FirstOf(name: string, rest: string)
    requires '/' !in name && (rest == "" || rest[0] == '/')
    ensures First(name + rest) == name
  {
    if name == "" {
      assert name + rest == rest;
    } else {
      assert (name + rest)[1..] == name[1..] + rest;
      FirstOf(name[1..], rest);
    }
  }

  /** A path made of names is taken apart into the same names. */
  lemma {:induction false} JoinElems(names: seq<string>)
    requires forall k :: 0 <= k < |names| ==> names[k] != "" && '/' !in names[k]
    ensures Elems(Join(names)) == names
  {
    if names != [] {
      var rest := Join(names[1..]);
      var p := names[0] + rest;
      assert Join(names) == "/" + p && ("/" + p)[1..] == p;
      assert p[0] == names[0][0] && names[0][0] in names[0];
      assert Strip(p) == p && Strip("/" + p) == p;
      FirstOf(names[0], rest);
      assert p[|names[0]|..] == rest;
      JoinElems(names[1..]);
      assert names == [names[0]] + names[1..];
    }
  }

  /** What skipelem keeps of a name. */
  function Cut(name: string, n: nat): string {
    if |name| >= n then name[..n] else name
  }

  lemma {:induction false} CutPad(name: string, n: nat)
    ensures Pad(Cut(name, n), n) == Pad(name, n)
    decreases n
  {
    if n > 0 && name != "" {
      assert Cut(name, n)[1..] == Cut(name[1..], n - 1);
      CutPad(name[1..], n - 1);
    }
  }

  /** skipelem: the next name, at most DIRSIZ bytes of it, and the path behind it. */
  method Skipelem(path: string) returns (rest: Option<string>, name: string)
    ensures rest == None <==> Elems(path) == []
    ensures rest.Some? ==> Elems(path) != [] && Elems(path)[1..] == Elems(rest.value) && |rest.value| < |path|
    ensures rest.Some? ==> name == Cut(Elems(path)[0], DIRSIZ) && (rest.value == "" <==> Elems(rest.value) == [])
  {
    var p := SkipSlashes(path);
    if p == "" { return None, ""; }
    var n := ScanName(p);
    name := if n >= DIRSIZ then p[..DIRSIZ] else p[..n];
    var q := SkipSlashes(p[n..]);
    StripElems(p[n..]);
    return Some(q), name;
  }

  method ScanName(p: string) returns (n: nat)
    ensures n == |First(p)| <= |p| && p[..n] == First(p)
  {
    n := 0;
    var q := p;
    while q != "" && q[0] != '/'
      invariant |First(p)| == n + |First(q)|
      decreases |q|
    {
      q, n := q[1..], n + 1;
    }
  }

  method SkipSlashes(path: string) returns (r: string)
    ensures r == Strip(path)
  {
    r := path;
    while r != "" && r[0] == '/'
      invariant Strip(r) == Strip(path)
      decreases |r|
    {
      r := r[1..];
    }
  }

  /** strncmp, which namecmp calls with DIRSIZ: names are the same if their fields are. */
  method Strncmp(s: string, t: string, size: nat) returns (same: bool)
    ensures same <==> Pad(s, size) == Pad(t, size)
  {
    var p, q, n := s, t, size;
    while n > 0 && p != "" && p[0] != '\0' && q != "" && p[0] == q[0]
      invariant Pad(s, size) == Pad(t, size) <==> Pad(p, n) == Pad(q, n)
      decreases n
    {
      PadStep(p, q, n);
      p, q, n := p[1..], q[1..], n - 1;
    }
    if n == 0 { return true; }
    PadEnd(p, q, n);
    return CharAt(p, 0) == CharAt(q, 0);
  }

  function CharAt(s: string, n: nat): char {
    if n < |s| then s[n] else '\0'
  }

  lemma PadStep(s: string, t: string, n: nat)
    requires n > 0 && s != "" && t != "" && s[0] == t[0] != '\0'
    ensures Pad(s, n) == Pad(t, n) <==> Pad(s[1..], n - 1) == Pad(t[1..], n - 1)
  {
    assert Pad(s, n)[1..] == Pad(s[1..], n - 1) && Pad(t, n)[1..] == Pad(t[1..], n - 1);
  }

  lemma PadEnd(s: string, t: string, n: nat)
    requires n > 0 && !(s != "" && t != "" && s[0] == t[0] != '\0')
    ensures Pad(s, n) == Pad(t, n) <==> CharAt(s, 0) == CharAt(t, 0)
  {
    assert Pad(s, n)[0] == CharAt(s, 0) && Pad(t, n)[0] == CharAt(t, 0);
  }

  // ------------------------------------------------------ where a path leads

  /** dirlookup: the first entry in use with this name. */
  function Find(entries: seq<Dirent>, f: string, k: nat): (r: Option<nat>)
    requires k <= |entries|
    ensures r.Some? ==> r.value < |entries| && entries[r.value].inum != 0 && entries[r.value].name == f
    decreases |entries| - k
  {
    if k == |entries| then None
    else if entries[k].inum != 0 && entries[k].name == f then Some(k)
    else Find(entries, f, k + 1)
  }

  lemma {:induction false} FindNone(entries: seq<Dirent>, f: string, k: nat, l: nat)
    requires k <= l < |entries| && Find(entries, f, k) == None
    ensures entries[l].inum == 0 || entries[l].name != f
    decreases l - k
  {
    if k < l { FindNone(entries, f, k + 1, l); }
  }

  /** namei: follow the names from inode i. */
  function Walk(t: Disk, i: nat, elems: seq<string>): Option<nat>
    decreases |elems|
  {
    if elems == [] then Some(i)
    else if i >= |t| || t[i].kind != Dir then None
    else
      var k := Find(t[i].entries, Field(elems[0]), 0);
      if k == None then None else Walk(t, t[i].entries[k.value].inum, elems[1..])
  }

  /** nameiparent: the directory that has, or would have, the last name. */
  function Parent(t: Disk, i: nat, elems: seq<string>): Option<(nat, string)>
    decreases |elems|
  {
    if elems == [] || i >= |t| || t[i].kind != Dir then None
    else if |elems| == 1 then Some((i, Field(elems[0])))
    else
      var k := Find(t[i].entries, Field(elems[0]), 0);
      if k == None then None else Parent(t, t[i].entries[k.value].inum, elems[1..])
  }

  lemma {:induction false} ParentIsDir(t: Disk, i: nat, elems: seq<string>)
    ensures Parent(t, i, elems).Some? ==> Parent(t, i, elems).value.0 < |t| && t[Parent(t, i, elems).value.0].kind == Dir
    decreases |elems|
  {
    if elems != [] && i < |t| && t[i].kind == Dir && |elems| > 1 {
      var k := Find(t[i].entries, Field(elems[0]), 0);
      if k.Some? { ParentIsDir(t, t[i].entries[k.value].inum, elems[1..]); }
    }
  }

  /** The last name leads from the parent to the end. */
  lemma {:induction false} ParentThenName(t: Disk, i: nat, elems: seq<string>)
    requires elems != [] && Parent(t, i, elems).Some?
    ensures Parent(t, i, elems).value.1 == Field(elems[|elems| - 1])
    ensures Walk(t, i, elems[..|elems| - 1]) == Some(Parent(t, i, elems).value.0)
    ensures Walk(t, i, elems) == Walk(t, Parent(t, i, elems).value.0, [elems[|elems| - 1]])
    decreases |elems|
  {
    if |elems| > 1 {
      var k := Find(t[i].entries, Field(elems[0]), 0);
      ParentThenName(t, t[i].entries[k.value].inum, elems[1..]);
      assert elems[..|elems| - 1][1..] == elems[1..][..|elems| - 2];
    } else {
      assert elems == [elems[0]];
    }
  }

  /** Whether namex has to read a free inode on the way: it reads the inode that is to have
      the next name. */
  predicate ReadsFree(t: Disk, i: nat, elems: seq<string>)
    decreases |elems|
  {
    elems != [] && i < |t| &&
    (t[i].kind == Free ||
     (t[i].kind == Dir && var k := Find(t[i].entries, Field(elems[0]), 0); k.Some? && ReadsFree(t, t[i].entries[k.value].inum, elems[1..])))
  }

  /** Whether namei does, or leads to one. */
  predicate EndsFree(t: Disk, i: nat, elems: seq<string>) {
    ReadsFree(t, i, elems) || (var j := Walk(t, i, elems); j.Some? && j.value < |t| && t[j.value].kind == Free)
  }

  lemma {:induction false} NoParent(t: Disk, i: nat, elems: seq<string>)
    requires elems != [] && Parent(t, i, elems) == None
    ensures Walk(t, i, elems) == None
    decreases |elems|
  {
    if i < |t| && t[i].kind == Dir && |elems| > 1 {
      var k := Find(t[i].entries, Field(elems[0]), 0);
      if k.Some? { NoParent(t, t[i].entries[k.value].inum, elems[1..]); }
    }
  }

  /** The same by way of the parent. */
  predicate LastFree(t: Disk, p: Option<(nat, string)>) {
    p.Some? && p.value.0 < |t| && var e := Find(t[p.value.0].entries, p.value.1, 0);
    e.Some? && t[p.value.0].entries[e.value].inum < |t| && t[t[p.value.0].entries[e.value].inum].kind == Free
  }

  lemma EndsByParent(t: Disk, i: nat, elems: seq<string>)
    requires i < |t| && t[i].kind != Free
    ensures EndsFree(t, i, elems) <==> ReadsFree(t, i, elems) || LastFree(t, Parent(t, i, elems))
  {
    var p := Parent(t, i, elems);
    if p.Some? {
      ParentThenName(t, i, elems);
      ParentIsDir(t, i, elems);
      OneName(t, p.value.0, elems[|elems| - 1]);
    } else if elems != [] {
      NoParent(t, i, elems);
    }
  }

  lemma OneName(t: Disk, d: nat, name: string)
    requires d < |t| && t[d].kind == Dir
    ensures var e := Find(t[d].entries, Field(name), 0);
      Walk(t, d, [name]) == if e == None then None else Some(t[d].entries[e.value].inum)
  {
    assert [name][1..] == [];
  }

  /** Link counts play no part in it. */
  lemma {:induction false} SameWalk(a: Disk, b: Disk, i: nat, elems: seq<string>)
    requires |b| == |a| && forall j :: 0 <= j < |a| ==> b[j].kind == a[j].kind && b[j].entries == a[j].entries
    ensures Walk(b, i, elems) == Walk(a, i, elems) && Parent(b, i, elems) == Parent(a, i, elems)
    ensures ReadsFree(b, i, elems) == ReadsFree(a, i, elems)
    decreases |elems|
  {
    if elems != [] && i < |a| && a[i].kind == Dir {
      var k := Find(a[i].entries, Field(elems[0]), 0);
      if k.Some? { SameWalk(a, b, a[i].entries[k.value].inum, elems[1..]); }
    }
  }
}
