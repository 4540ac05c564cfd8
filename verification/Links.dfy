/** The same calls in place, one at a time: link, unlink, create, open, chdir and close, over
    the table of inodes in memory. */
module Links {
  import opened Options
  import opened Directories
  import opened Paths
  import opened InodeCache
  import opened LinkSteps

  class Inodes {
    var inodes: Disk           // what the disk has: every change is written through
    var icache: seq<Slot>

    /** The file system of mkfs, before any process. */
    constructor (n: nat)
      requires n > ROOT
      ensures Linked(inodes) && Mid(multiset{}, multiset{}) && inodes == Blank(n)
    {
      inodes, icache := Blank(n), seq(NINODE, _ => Slot(0, 0, false));
      new;
      BlankLinked(n);
      forall k: nat ensures ReadAt(inodes, icache, k) { }
    }

    ghost predicate Mid(held: multiset<nat>, temps: multiset<nat>)
      reads this
    {
      Tracked(inodes, icache, held, temps)
    }

    /** iget's search: a slot that has inode i already, or else the first that is not in
        use; none if all are. */
    method Search(i: nat) returns (r: Option<nat>)
      requires |icache| == NINODE
      ensures r == None ==> forall k: nat :: k < NINODE ==> icache[k].ref > 0 && !At(icache, k, i)
      ensures r.Some? ==> r.value < NINODE && (At(icache, r.value, i) || (icache[r.value].ref == 0 && forall k: nat :: !At(icache, k, i)))
    {
      r := None;
      for k := 0 to NINODE
        invariant forall l: nat :: l < k ==> !At(icache, l, i)
        invariant r.Some? ==> r.value < NINODE && icache[r.value].ref == 0
        invariant r == None ==> forall l :: 0 <= l < k ==> icache[l].ref > 0
      {
        if icache[k].ref > 0 && icache[k].inum == i { return Some(k); }
        if r == None && icache[k].ref == 0 { r := Some(k); }
      }
    }

    /** iget: the slot of inode i, with one more reference; none if all are in use. */
    method Iget(i: nat, ghost held: multiset<nat>, ghost temps: multiset<nat>) returns (r: Option<nat>)
      requires Mid(held, temps) && i < |inodes|
      modifies this`icache
      ensures r == None ==> icache == old(icache)
      ensures |old(icache)| == NINODE && (r == None <==> forall k: nat :: k < NINODE ==> old(icache)[k].ref > 0 && !At(old(icache), k, i))
      ensures r.Some? ==> Mid(held, temps + multiset{i}) && At(icache, r.value, i) && Stay(old(icache), icache)
      ensures r == None ==> Crowded(held, |temps|)
    {
      r := Search(i);
      if r == None {
        AllTaken(icache, held, temps);
        return;
      }
      var k := r.value;
      if icache[k].ref > 0 {
        MoreTracked(inodes, icache, held, temps, k, i);
        icache := icache[k := Slot(i, icache[k].ref + 1, icache[k].valid)];
      } else {
        NewTracked(inodes, icache, held, temps, k, i);
        icache := icache[k := Slot(i, 1, false)];
      }
    }

    /** The slot that a process's pointer to an inode points to. */
    method SlotOf(i: nat, ghost held: multiset<nat>, ghost temps: multiset<nat>) returns (k: nat)
      requires Mid(held, temps) && i in held
      ensures At(icache, k, i)
    {
      assert HomeAt(icache, held + temps, i);
      k := 0;
      while !(icache[k].ref > 0 && icache[k].inum == i)
        invariant k < NINODE && forall l: nat :: l < k ==> !At(icache, l, i)
        decreases NINODE - k
      {
        k := k + 1;
      }
    }

    /** ilock: reads the inode if need be; panics for one that is free. */
    method Ilock(k: nat, ghost held: multiset<nat>, ghost temps: multiset<nat>) returns (ok: bool)
      requires Mid(held, temps) && Taken(icache, k)
      modifies this`icache
      ensures Taken(old(icache), k) && old(icache)[k].inum < |inodes|
      ensures ok == (inodes[old(icache)[k].inum].kind != Free)
      ensures ok ==> Mid(held, temps) && Stay(old(icache), icache) && At(icache, k, old(icache)[k].inum) && icache[k].valid
    {
      assert ReadAt(inodes, icache, k);
      if !icache[k].valid {
        if inodes[icache[k].inum].kind == Free { return false; }
        ReadTracked(inodes, icache, held, temps, k, icache[k].inum);
        icache := icache[k := icache[k].(valid := true)];
      }
      return true;
    }

    /** iput: the last reference to an inode without links frees it and its blocks. */
    method Iput(k: nat)
      requires k < |icache| && icache[k].ref > 0 && icache[k].inum < |inodes|
      modifies this
      ensures var s := old(icache)[k];
        var gone := s.valid && old(inodes)[s.inum].nlink == 0 && s.ref == 1;
        && inodes == (if gone then old(inodes)[s.inum := FREE] else old(inodes))
        && icache == old(icache)[k := Slot(s.inum, s.ref - 1, s.valid && !gone)]
    {
      var i := icache[k].inum;
      if icache[k].valid && inodes[i].nlink == 0 {
        if icache[k].ref == 1 {
          inodes := inodes[i := FREE];
          icache := icache[k := icache[k].(valid := false)];
        }
      }
      icache := icache[k := icache[k].(ref := icache[k].ref - 1)];
    }

    /** iput of a reference that the call itself had: nothing is freed. */
    method Drop(k: nat, ghost held: multiset<nat>, ghost temps: multiset<nat>)
      requires Mid(held, temps) && Taken(icache, k) && icache[k].inum in temps
      modifies this
      ensures inodes == old(inodes) && Taken(old(icache), k)
      ensures Mid(held, temps - multiset{old(icache)[k].inum})
      ensures Shifted(old(icache), icache, held + temps - multiset{old(icache)[k].inum})
    {
      FewerTracked(inodes, icache, held, temps, k, icache[k].inum);
      Iput(k);
    }

    /** dirlookup's loop. */
    method Dirlookup(entries: seq<Dirent>, name: string) returns (r: Option<nat>)
      requires AllFields(entries)
      ensures r == Find(entries, Field(name), 0)
    {
      for k := 0 to |entries|
        invariant Find(entries, Field(name), 0) == Find(entries, Field(name), k)
      {
        if entries[k].inum != 0 {
          assert IsField(entries[k].name);
          var same := Strncmp(name, entries[k].name, DIRSIZ);
          if same { return Some(k); }
        }
      }
      return None;
    }

    /** One round of namex: stop here, or on to the inode of that name. */
    method Round(k: nat, name: string, stop: bool, ghost held: multiset<nat>, ghost temps: multiset<nat>, ghost i: nat) returns (r: Outcome<nat>)
      requires Mid(held, temps + multiset{i}) && Shaped(inodes) && At(icache, k, i) && i < |inodes|
      modifies this
      ensures inodes == old(inodes) && (r.Panic? ==> r.why == NoSlot || r.why == NoType) && (r == Panic(NoType) <==> inodes[i].kind == Free)
      ensures r.Done? ==> Shifted(old(icache), icache, held + temps) && Taken(icache, r.value)
      ensures r.Done? ==> Mid(held, temps + multiset{icache[r.value].inum}) && icache[r.value].inum < |inodes|
      ensures r == Fail ==> Mid(held, temps) && Shifted(old(icache), icache, held + temps)
      ensures r.Done? ==> Onward(inodes, i, Field(name), stop) == Some(icache[r.value].inum)
      ensures r == Fail ==> Onward(inodes, i, Field(name), stop) == None
      ensures SlotsFor(r, held, |temps| + 1)
    {
      var ok := Ilock(k, held, temps + multiset{i});
      if !ok { return Panic(NoType); }
      if inodes[icache[k].inum].kind != Dir {
        Drop(k, held, temps + multiset{i});
        PlusMinus(held, temps, i);
        return Fail;
      }
      if stop { return Done(k); }
      r := Enter(k, name, held, temps, i);
    }

    method Enter(k: nat, name: string, ghost held: multiset<nat>, ghost temps: multiset<nat>, ghost i: nat) returns (r: Outcome<nat>)
      requires Mid(held, temps + multiset{i}) && Shaped(inodes) && At(icache, k, i) && i < |inodes| && inodes[i].kind == Dir
      modifies this
      ensures inodes == old(inodes) && (r.Panic? ==> r.why == NoSlot)
      ensures r == Fail ==> Find(inodes[i].entries, Field(name), 0) == None && Mid(held, temps) && Shifted(old(icache), icache, held + temps)
      ensures r.Done? ==> Taken(icache, r.value) && Mid(held, temps + multiset{icache[r.value].inum}) && Shifted(old(icache), icache, held + temps)
      ensures r.Done? ==> var e := Find(inodes[i].entries, Field(name), 0);
        e.Some? && icache[r.value].inum == inodes[i].entries[e.value].inum < |inodes|
      ensures SlotsFor(r, held, |temps| + 1)
    {
      FieldsOf(inodes, i);
      var e := Dirlookup(inodes[icache[k].inum].entries, name);
      if e == None {
        Drop(k, held, temps + multiset{i});
        PlusMinus(held, temps, i);
        return Fail;
      }
      assert Used(inodes, i, e.value);
      LeadsTo(inodes, i, e.value);
      var j := inodes[icache[k].inum].entries[e.value].inum;
      var g := Iget(j, held, temps + multiset{i});
      if g == None { return Panic(NoSlot); }
      Drop(k, held, temps + multiset{i} + multiset{j});
      PlusMinus(held, temps + multiset{j}, i);
      assert temps + multiset{i} + multiset{j} == temps + multiset{j} + multiset{i};
      return Done(g.value);
    }

    /** Where namex begins, with a reference. */
    method Origin(path: string, cwd: nat, ghost held: multiset<nat>, ghost temps: multiset<nat>) returns (r: Option<nat>)
      requires Mid(held, temps) && Shaped(inodes) && cwd in held
      modifies this`icache
      ensures Start(cwd, path) < |inodes| && inodes[Start(cwd, path)].kind != Free
      ensures r.Some? ==> At(icache, r.value, Start(cwd, path)) && Mid(held, temps + multiset{Start(cwd, path)}) && Stay(old(icache), icache)
      ensures r == None ==> Crowded(held, |temps|)
    {
      assert KeptAt(inodes, held, cwd);
      if path != "" && path[0] == '/' {
        r := Iget(ROOT, held, temps);
      } else {
        var k := SlotOf(cwd, held, temps);
        MoreTracked(inodes, icache, held, temps, k, cwd);
        icache := icache[k := Slot(cwd, icache[k].ref + 1, icache[k].valid)];
        r := Some(k);
      }
    }

    /** namex: the inode that a path leads to, or the directory of its last name, with a
        reference to it and to no other on the way. */
    method Namex(path: string, parent: bool, cwd: nat, ghost held: multiset<nat>, ghost temps: multiset<nat>)
      returns (r: Outcome<nat>, name: string)
      requires Mid(held, temps) && Shaped(inodes) && cwd in held
      modifies this
      ensures inodes == old(inodes)
      ensures r.Done? ==> Shifted(old(icache), icache, held + temps) && Taken(icache, r.value)
      ensures r.Done? ==> Mid(held, temps + multiset{icache[r.value].inum}) && icache[r.value].inum < |inodes|
      ensures r.Done? && !parent ==> Walk(inodes, Start(cwd, path), Elems(path)) == Some(icache[r.value].inum)
      ensures r.Done? && parent ==> Parent(inodes, Start(cwd, path), Elems(path)) == Some((icache[r.value].inum, Field(name)))
      ensures r == Fail ==> Mid(held, temps) && Shifted(old(icache), icache, held + temps)
      ensures r == Fail && parent ==> Parent(inodes, Start(cwd, path), Elems(path)) == None
      ensures r == Fail && !parent ==> Walk(inodes, Start(cwd, path), Elems(path)) == None
      ensures !r.Panic? && path != "" && path[0] == '/' ==> Answers(r, icache, parent, name, inodes, ROOT, Elems(path))
      ensures !r.Panic? && (path == "" || path[0] != '/') ==> Answers(r, icache, parent, name, inodes, cwd, Elems(path))
      ensures (r.Panic? ==> r.why == NoSlot || r.why == NoType) && PanicIff(r, NoType, ParentMeets(inodes, cwd, path))
      ensures SlotsFor(r, held, |temps| + 1)
    {
      name := "";
      var g := Origin(path, cwd, held, temps);
      if g == None { return Panic(NoSlot), name; }
      var k, rest := g.value, path;
      ghost var i: nat := Start(cwd, path);
      while true
        invariant inodes == old(inodes) && Shifted(old(icache), icache, held + temps) && At(icache, k, i) && Mid(held, temps + multiset{i})
        invariant i < |inodes| && ParentMeets(inodes, cwd, path) == ReadsFree(inodes, i, Elems(rest))
        invariant Walk(inodes, Start(cwd, path), Elems(path)) == Walk(inodes, i, Elems(rest))
        invariant parent ==> Parent(inodes, Start(cwd, path), Elems(path)) == Parent(inodes, i, Elems(rest))
        decreases |rest|
      {
        var more;
        more, name := Skipelem(rest);
        if more == None { break; }
        CutPad(Elems(rest)[0], DIRSIZ);
        r := Round(k, name, parent && more.value == "", held, temps, i);
        if !r.Done? || (parent && more.value == "") { return; }
        k, i, rest := r.value, icache[r.value].inum, more.value;
      }
      if parent {
        Drop(k, held, temps + multiset{i});
        PlusMinus(held, temps, i);
        return Fail, name;
      }
      return Done(k), name;
    }

    /** dirlink: fails if the name is there. */
    method Dirlink(d: nat, name: string, inum: nat, ghost held: multiset<nat>, ghost temps: multiset<nat>) returns (r: Outcome<nat>)
      requires Mid(held, temps) && d < |inodes| && inodes[d].kind == Dir
      requires AllFields(inodes[d].entries) && forall k: nat :: Used(inodes, d, k) ==> inodes[d].entries[k].inum < |inodes|
      modifies this
      ensures r.Panic? ==> r.why == NoSlot || r.why == TooLarge
      ensures r == Fail ==> Find(old(inodes)[d].entries, Field(name), 0).Some? && inodes == old(inodes) && Mid(held, temps)
      ensures r == Fail ==> Shifted(old(icache), icache, held + temps)
      ensures r.Done? ==> Find(old(inodes)[d].entries, Field(name), 0) == None && r.value == Gap(old(inodes)[d].entries, 0) && icache == old(icache)
      ensures r.Done? ==> inodes == old(inodes)[d := old(inodes)[d].(entries := Put(old(inodes)[d].entries, r.value, Dirent(inum, Field(name))))]
      ensures SlotsFor(r, held, |temps|) && (r == Panic(NoSlot) ==> Find(old(inodes)[d].entries, Field(name), 0).Some?)
      ensures r == Panic(TooLarge) <==> Find(old(inodes)[d].entries, Field(name), 0) == None && Gap(old(inodes)[d].entries, 0) >= MAXENTRIES
    {
      var entries := inodes[d].entries;
      var e := Dirlookup(entries, name);
      if e.Some? {
        assert Used(inodes, d, e.value);
        var j := entries[e.value].inum;
        var g := Iget(j, held, temps);
        if g == None { return Panic(NoSlot); }
        Drop(g.value, held, temps + multiset{j});
        PlusMinus(held, temps, j);
        return Fail;
      }
      var off := 0;
      while off < |entries| && entries[off].inum != 0
        invariant off <= |entries| && Gap(entries, 0) == Gap(entries, off)
      {
        off := off + 1;
      }
      if off >= MAXENTRIES { return Panic(TooLarge); }
      inodes := inodes[d := inodes[d].(entries := Put(entries, off, Dirent(inum, Field(name))))];
      return Done(off);
    }

    ghost predicate Valid(held: multiset<nat>)
      reads this
    {
      Linked(inodes) && Mid(held, multiset{})
    }

    /** sys_link: a second name for a file. */
    method SysLink(cwd: nat, path: string, newPath: string, ghost held: multiset<nat>) returns (r: Outcome<nat>)
      requires Valid(held) && cwd in held
      modifies this
      ensures !r.Panic? ==> Mid(held, multiset{})
      ensures r == Fail ==> inodes == old(inodes) && LinkOf(inodes, cwd, path, newPath) == None
      ensures r.Done? ==> LinkOf(old(inodes), cwd, path, newPath).Some?
      ensures r.Done? ==> var (d, k, f, i) := LinkOf(old(inodes), cwd, path, newPath).value;
        CanAddFile(old(inodes), d, k, f, i) && inodes == AddFile(old(inodes), d, k, f, i)
      ensures (r.Panic? ==> r.why in {NoSlot, NoType, TooLarge}) && PanicIff(r, NoType, LinkMeets(old(inodes), cwd, path, newPath))
      ensures SlotsFor(r, held, 2) && PanicIff(r, TooLarge, LinkFull(old(inodes), cwd, path, newPath))
    {
      var a, _ := Namex(path, false, cwd, held, multiset{});
      if !a.Done? { return a; }
      var ip := a.value;
      var i := icache[ip].inum;
      assert multiset{} + multiset{i} == multiset{i};
      var ok := Ilock(ip, held, multiset{i});
      if !ok { return Panic(NoType); }
      if inodes[i].kind == Dir {
        Drop(ip, held, multiset{i});
        assert multiset{i} - multiset{i} == multiset{};
        return Fail;
      }
      r := LinkTo(ip, i, cwd, newPath, held);
    }

    /** The rest of sys_link, for a file. */
    method LinkTo(ip: nat, i: nat, cwd: nat, newPath: string, ghost held: multiset<nat>) returns (r: Outcome<nat>)
      requires Mid(held, multiset{i}) && Shaped(inodes) && cwd in held && At(icache, ip, i) && icache[ip].valid
      requires i < |inodes| && inodes[i].kind != Dir && inodes[i].kind != Free
      modifies this
      ensures !r.Panic? ==> Mid(held, multiset{})
      ensures r == Fail ==> inodes == old(inodes) && NewName(inodes, cwd, newPath) == None
      ensures r.Done? ==> NewName(old(inodes), cwd, newPath).Some?
      ensures r.Done? ==> var (d, k, f) := NewName(old(inodes), cwd, newPath).value;
        CanAddFile(old(inodes), d, k, f, i) && inodes == AddFile(old(inodes), d, k, f, i)
      ensures (r.Panic? ==> r.why in {NoSlot, NoType, TooLarge}) && PanicIff(r, NoType, ParentMeets(old(inodes), cwd, newPath))
      ensures SlotsFor(r, held, 2)
      ensures var o := NewName(old(inodes), cwd, newPath);
        PanicIff(r, TooLarge, !ParentMeets(old(inodes), cwd, newPath) && o.Some? && o.value.1 >= MAXENTRIES)
    {
      ghost var t := inodes;
      inodes := inodes[i := inodes[i].(nlink := inodes[i].nlink + 1)];
      Bumped(t, icache, held, i, Start(cwd, newPath), Elems(newPath));
      var b, name := Namex(newPath, true, cwd, held, multiset{i});
      if b.Panic? { return b; }
      assert At(icache, ip, i) && icache[ip].valid;
      if b == Fail {
        Unbump(ip, i, t, held);
        return Fail;
      }
      var d := icache[b.value].inum;
      ParentIsDir(t, Start(cwd, newPath), Elems(newPath));
      r := EnterLink(b.value, d, ip, i, name, t, held);
    }

    /** sys_link's way out. */
    method Unbump(ip: nat, i: nat, ghost t: Disk, ghost held: multiset<nat>)
      requires Mid(held, multiset{i}) && At(icache, ip, i) && icache[ip].valid && i < |t| && KeptAt(t, held, i)
      requires inodes == t[i := t[i].(nlink := t[i].nlink + 1)]
      modifies this
      ensures inodes == t && Mid(held, multiset{})
    {
      DownTracked(inodes, t, icache, held, multiset{i}, ip, i);
      inodes := inodes[i := inodes[i].(nlink := inodes[i].nlink - 1)];
      assert inodes == t;
      Drop(ip, held, multiset{i});
      assert multiset{i} - multiset{i} == multiset{};
    }

    method EnterLink(dp: nat, d: nat, ip: nat, i: nat, name: string, ghost t: Disk, ghost held: multiset<nat>) returns (r: Outcome<nat>)
      requires At(icache, dp, d) && At(icache, ip, i) && icache[ip].valid && Mid(held, multiset{i} + multiset{d})
      requires 0 < i < |t| && inodes == t[i := t[i].(nlink := t[i].nlink + 1)] && KeptAt(t, held, i) && Shaped(t)
      requires t[i].kind != Dir && t[i].kind != Free && d < |t| && t[d].kind == Dir
      modifies this
      ensures r.Panic? ==> r.why == NoSlot || r.why == TooLarge
      ensures !r.Panic? ==> Mid(held, multiset{})
      ensures r == Fail ==> inodes == t && Find(t[d].entries, Field(name), 0).Some?
      ensures r.Done? ==> Find(t[d].entries, Field(name), 0) == None && CanAddFile(t, d, Gap(t[d].entries, 0), Field(name), i)
      ensures r.Done? ==> inodes == AddFile(t, d, Gap(t[d].entries, 0), Field(name), i)
      ensures SlotsFor(r, held, 2)
      ensures r == Panic(TooLarge) <==> Find(t[d].entries, Field(name), 0) == None && Gap(t[d].entries, 0) >= MAXENTRIES
    {
      ghost var t1 := inodes;
      Enterable(t, t1, d, name);
      r := Dirlink(d, name, i, held, multiset{i} + multiset{d});
      if r.Panic? { return; }
      PlusMinus(held, multiset{i}, d);
      if r == Fail {
        Drop(dp, held, multiset{i} + multiset{d});
        Unbump(ip, i, t, held);
        return;
      }
      assert InodeAt(t, i);
      UpTracked(t1, inodes, icache, held, multiset{i} + multiset{d});
      Leave(dp, d, ip, i, held);
    }

    /** sys_link's last two iputs. */
    method Leave(dp: nat, d: nat, ip: nat, i: nat, ghost held: multiset<nat>)
      requires At(icache, dp, d) && At(icache, ip, i) && Mid(held, multiset{i} + multiset{d})
      modifies this
      ensures Mid(held, multiset{}) && inodes == old(inodes)
    {
      PlusMinus(held, multiset{i}, d);
      Drop(dp, held, multiset{i} + multiset{d});
      assert multiset{i} - multiset{i} == multiset{};
      Drop(ip, held, multiset{i});
    }

    /** The last step of a call, or of a process, that had a reference to inode i. */
    method Release(k: nat, i: nat, ghost held: multiset<nat>)
      requires Linked(inodes) && Cached(icache, held + multiset{i}) && At(icache, k, i) && i < |inodes| && inodes[i].kind != Free
      requires (forall l: nat :: ReadAt(inodes, icache, l)) && forall j: nat :: j != i ==> KeptAt(inodes, held, j)
      modifies this
      ensures Valid(held) && inodes == After(old(inodes), i, held)
    {
      LastTracked(inodes, icache, held, k, i);
      assert InodeAt(inodes, i);
      if inodes[i].nlink == 0 { SetDeadLinked(inodes, i, FREE); }
      Iput(k);
    }

    /** isdirempty's loop. */
    method Isdirempty(x: Inode) returns (empty: bool)
      ensures empty == Bare(x)
    {
      var k := 2;
      while k < |x.entries|
        invariant forall l :: 2 <= l < k && l < |x.entries| ==> x.entries[l].inum == 0
      {
        if x.entries[k].inum != 0 { return false; }
        k := k + 1;
      }
      return true;
    }

    /** nameiparent and ilock. */
    method ParentOf(cwd: nat, path: string, ghost held: multiset<nat>) returns (r: Outcome<nat>, d: nat, name: string)
      requires Mid(held, multiset{}) && Shaped(inodes) && cwd in held
      modifies this
      ensures inodes == old(inodes)
      ensures r == Fail ==> Mid(held, multiset{}) && Parent(inodes, Start(cwd, path), Elems(path)) == None
      ensures r.Done? ==> Parent(inodes, Start(cwd, path), Elems(path)) == Some((d, Field(name)))
      ensures r.Done? ==> At(icache, r.value, d) && Mid(held, multiset{d}) && d < |inodes| && inodes[d].kind == Dir
      ensures (r.Panic? ==> r.why == NoSlot || r.why == NoType) && PanicIff(r, NoType, ParentMeets(inodes, cwd, path))
      ensures SlotsFor(r, held, 1)
    {
      d := 0;
      r, name := Namex(path, true, cwd, held, multiset{});
      if !r.Done? { return; }
      d := icache[r.value].inum;
      assert multiset{} + multiset{d} == multiset{d};
      ParentIsDir(inodes, Start(cwd, path), Elems(path));
      var ok := Ilock(r.value, held, multiset{d});
    }

    /** sys_unlink: the entry goes, and with the last name and the last reference the inode. */
    method SysUnlink(cwd: nat, path: string, ghost held: multiset<nat>) returns (r: Outcome<nat>)
      requires Valid(held) && cwd in held
      modifies this
      ensures !r.Panic? ==> Valid(held)
      ensures r == Fail ==> inodes == old(inodes) && UnlinkOf(inodes, cwd, path) == None
      ensures r.Done? ==> UnlinkOf(old(inodes), cwd, path).Some?
      ensures r.Done? ==> var (d, k, i) := UnlinkOf(old(inodes), cwd, path).value;
        inodes == After(Removed(old(inodes), d, k, i), i, held)
      ensures (r.Panic? ==> r.why == NoSlot || r.why == NoType) && PanicIff(r, NoType, ParentMeets(old(inodes), cwd, path))
      ensures SlotsFor(r, held, 1)
    {
      var b, d, name := ParentOf(cwd, path, held);
      if !b.Done? { return b; }
      var dp := b.value;
      assert multiset{d} - multiset{d} == multiset{};
      if Field(name) == Dot() || Field(name) == DotDot() {
        Drop(dp, held, multiset{d});
        return Fail;
      }
      FieldsOf(inodes, d);
      var e := Dirlookup(inodes[d].entries, name);
      if e == None {
        Drop(dp, held, multiset{d});
        return Fail;
      }
      r := UnlinkEntry(dp, d, e.value, inodes[d].entries[e.value].inum, held);
    }

    /** sys_unlink from the entry on. The panic for an inode without links is not reached. */
    method UnlinkEntry(dp: nat, d: nat, e: nat, i: nat, ghost held: multiset<nat>) returns (r: Outcome<nat>)
      requires Mid(held, multiset{d}) && Linked(inodes) && At(icache, dp, d) && Used(inodes, d, e) && inodes[d].entries[e].inum == i
      requires inodes[d].entries[e].name != Dot() && inodes[d].entries[e].name != DotDot()
      modifies this
      ensures !r.Panic? ==> Valid(held)
      ensures i < |old(inodes)| && (r == Fail ==> inodes == old(inodes) && inodes[i].kind == Dir && !Bare(inodes[i]))
      ensures r.Done? ==>
        (old(inodes)[i].kind == Dir ==> Bare(old(inodes)[i])) && inodes == After(Removed(old(inodes), d, e, i), i, held)
      ensures r.Panic? ==> r.why == NoSlot
      ensures SlotsFor(r, held, 1)
    {
      Removable(inodes, d, e);
      var g := Iget(i, held, multiset{d});
      if g == None { return Panic(NoSlot); }
      var ok := Ilock(g.value, held, multiset{d} + multiset{i});
      if inodes[i].nlink < 1 { return Panic(BadLink); }
      var empty := Isdirempty(inodes[i]);
      PlusMinus(held, multiset{d}, i);
      if inodes[i].kind == Dir && !empty {
        Drop(g.value, held, multiset{d} + multiset{i});
        assert multiset{d} - multiset{d} == multiset{};
        Drop(dp, held, multiset{d});
        return Fail;
      }
      Erase(dp, d, e, g.value, i, held);
      return Done(i);
    }

    method Erase(dp: nat, d: nat, e: nat, ip: nat, i: nat, ghost held: multiset<nat>)
      requires Mid(held, multiset{d} + multiset{i}) && Linked(inodes) && At(icache, dp, d) && At(icache, ip, i) && icache[ip].valid
      requires Used(inodes, d, e) && e >= 2 && inodes[d].entries[e].inum == i && i < |inodes| && i != d && inodes[i].kind != Free
      requires (inodes[i].kind == Dir ==> Bare(inodes[i]) && inodes[d].nlink >= 2) && inodes[i].nlink >= 1 && inodes[d].nlink > 0
      modifies this
      ensures Valid(held) && inodes == After(Removed(old(inodes), d, e, i), i, held)
    {
      ghost var t := inodes;
      var x := inodes[d];
      inodes := inodes[d := x.(entries := x.entries[e := Empty()])];
      if inodes[i].kind == Dir { inodes := inodes[d := inodes[d].(nlink := inodes[d].nlink - 1)]; }
      UpTracked(t, inodes, icache, held, multiset{d} + multiset{i});
      assert multiset{d} + multiset{i} == multiset{i} + multiset{d};
      PlusMinus(held, multiset{i}, d);
      Drop(dp, held, multiset{d} + multiset{i});
      assert At(icache, ip, i) && icache[ip].valid;
      ghost var t1 := inodes;
      inodes := inodes[i := inodes[i].(nlink := inodes[i].nlink - 1)];
      RemovedLinked(t, d, e, i);
      assert inodes == Removed(t, d, e, i);
      LostTracked(t1, inodes, icache, held, ip, i);
      Release(ip, i, held);
    }

    /** ialloc, and create up to the first iupdate: the first free inode, with one link. */
    method Ialloc(kind: Kind, ghost held: multiset<nat>, ghost temps: multiset<nat>) returns (r: Outcome<nat>)
      requires Mid(held, temps) && |inodes| > 0 && kind != Free && forall i: nat :: i in temps ==> i < |inodes| && inodes[i].kind != Free
      modifies this
      ensures r != Fail && (r.Panic? ==> r.why == NoSlot || r.why == NoInode)
      ensures r.Done? ==> FreeInode(old(inodes), 1).Some?
      ensures r.Done? ==> var i := FreeInode(old(inodes), 1).value;
        inodes == old(inodes)[i := Inode(kind, 1, [])] && At(icache, r.value, i) && Mid(held, temps + multiset{i}) && Stay(old(icache), icache)
      ensures SlotsFor(r, held, |temps|) && (r == Panic(NoInode) <==> FreeInode(old(inodes), 1) == None)
    {
      var i := 1;
      while i < |inodes| && inodes[i].kind != Free
        invariant 1 <= i <= |inodes| && FreeInode(inodes, 1) == FreeInode(inodes, i)
      {
        i := i + 1;
      }
      if i == |inodes| { return Panic(NoInode); }
      assert KeptAt(inodes, held, i);
      ghost var t, c := inodes, icache;
      inodes := inodes[i := Inode(kind, 0, [])];
      var k := Search(i);
      if k == None {
        AllTaken(c, held, temps);
        return Panic(NoSlot);
      }
      assert CountAt(icache, held + temps, k.value);
      BornTracked(t, icache, held, temps, k.value, i, kind);
      icache := icache[k.value := Slot(i, 1, false)];
      icache := icache[k.value := icache[k.value].(valid := true)];
      inodes := inodes[i := inodes[i].(nlink := 1)];
      assert inodes == t[i := Inode(kind, 1, [])] && icache == c[k.value := Slot(i, 1, true)];
      return Done(k.value);
    }

    /** create: the inode comes back with a reference. */
    method Create(cwd: nat, path: string, kind: Kind, ghost held: multiset<nat>) returns (r: Outcome<nat>)
      requires Valid(held) && cwd in held && kind != Free
      modifies this
      ensures r == Fail ==> Valid(held) && inodes == old(inodes) && CreateOf(inodes, cwd, path, kind) == None
      ensures r.Done? ==> Taken(icache, r.value) && Mid(held, multiset{icache[r.value].inum}) && CreateOf(old(inodes), cwd, path, kind).Some?
      ensures r.Done? ==> var m := CreateOf(old(inodes), cwd, path, kind).value;
        Proper(old(inodes), m) && inodes == Created(old(inodes), m, kind) && icache[r.value].inum == m.i < |inodes| && inodes[m.i].kind != Free
      ensures (r.Panic? ==> r.why in {NoSlot, NoType, NoInode, TooLarge}) && PanicIff(r, NoType, NameMeets(old(inodes), cwd, path))
      ensures SlotsFor(r, held, 1) && PanicIff(r, NoInode, NoInodes(old(inodes), cwd, path))
      ensures PanicIff(r, TooLarge, MakeFull(old(inodes), cwd, path))
    {
      CreateMeets(inodes, icache, held, cwd, path);
      var b, d, name := ParentOf(cwd, path, held);
      if !b.Done? { return b; }
      r := CreateUnder(b.value, d, name, kind, held);
    }

    /** create from the lookup on. */
    method CreateUnder(dp: nat, d: nat, name: string, kind: Kind, ghost held: multiset<nat>) returns (r: Outcome<nat>)
      requires Mid(held, multiset{d}) && Shaped(inodes) && At(icache, dp, d) && d < |inodes| && inodes[d].kind == Dir && kind != Free
      modifies this
      ensures r == Fail ==> Mid(held, multiset{}) && inodes == old(inodes) && CreateAt(inodes, d, Field(name), kind) == None
      ensures r.Done? ==> Taken(icache, r.value) && Mid(held, multiset{icache[r.value].inum}) && CreateAt(old(inodes), d, Field(name), kind).Some?
      ensures r.Done? ==> var m := CreateAt(old(inodes), d, Field(name), kind).value;
        Proper(old(inodes), m) && inodes == Created(old(inodes), m, kind) && icache[r.value].inum == m.i < |inodes| && inodes[m.i].kind != Free
      ensures r.Panic? ==> r.why in {NoSlot, NoType, NoInode, TooLarge}
      ensures PanicIff(r, NoType, LastFree(old(inodes), Some((d, Field(name)))))
      ensures SlotsFor(r, held, 1)
      ensures var absent := Find(old(inodes)[d].entries, Field(name), 0) == None;
        && PanicIff(r, NoInode, absent && FreeInode(old(inodes), 1) == None)
        && PanicIff(r, TooLarge, absent && FreeInode(old(inodes), 1).Some? && Gap(old(inodes)[d].entries, 0) >= MAXENTRIES)
    {
      Enterable(inodes, inodes, d, name);
      var e := Dirlookup(inodes[d].entries, name);
      if e.Some? {
        r := Existing(dp, d, e.value, kind, held);
        return;
      }
      r := CreateIn(dp, d, name, kind, held);
    }

    /** create, where the name is there. */
    method Existing(dp: nat, d: nat, e: nat, kind: Kind, ghost held: multiset<nat>) returns (r: Outcome<nat>)
      requires Mid(held, multiset{d}) && Shaped(inodes) && At(icache, dp, d) && Used(inodes, d, e)
      modifies this
      ensures inodes == old(inodes) && inodes[d].entries[e].inum < |inodes|
      ensures r == Fail ==> Mid(held, multiset{}) && !(kind == Plain && inodes[inodes[d].entries[e].inum].kind == Plain)
      ensures r.Done? ==> At(icache, r.value, inodes[d].entries[e].inum) && Mid(held, multiset{inodes[d].entries[e].inum})
      ensures r.Done? ==> kind == Plain && inodes[inodes[d].entries[e].inum].kind == Plain
      ensures (r.Panic? ==> r.why == NoSlot || r.why == NoType) && PanicIff(r, NoType, inodes[inodes[d].entries[e].inum].kind == Free)
      ensures SlotsFor(r, held, 1)
    {
      LeadsTo(inodes, d, e);
      var i := inodes[d].entries[e].inum;
      var g := Iget(i, held, multiset{d});
      if g == None { return Panic(NoSlot); }
      assert multiset{d} + multiset{i} == multiset{i} + multiset{d};
      PlusMinus(held, multiset{i}, d);
      Drop(dp, held, multiset{d} + multiset{i});
      var ok := Ilock(g.value, held, multiset{i});
      if !ok { return Panic(NoType); }
      if kind == Plain && inodes[i].kind == Plain { return Done(g.value); }
      assert multiset{i} - multiset{i} == multiset{};
      Drop(g.value, held, multiset{i});
      return Fail;
    }

    /** create, where it is not. The panics for entries that are there already are not reached. */
    method CreateIn(dp: nat, d: nat, name: string, kind: Kind, ghost held: multiset<nat>) returns (r: Outcome<nat>)
      requires Mid(held, multiset{d}) && Shaped(inodes) && At(icache, dp, d) && d < |inodes| && inodes[d].kind == Dir && kind != Free
      requires Find(inodes[d].entries, Field(name), 0) == None
      modifies this
      ensures r != Fail && (r.Panic? ==> r.why in {NoSlot, NoInode, TooLarge})
      ensures r.Done? ==> FreeInode(old(inodes), 1).Some?
      ensures r.Done? ==> var i := FreeInode(old(inodes), 1).value;
        && At(icache, r.value, i) && Mid(held, multiset{i})
        && inodes == Make(old(inodes), d, Gap(old(inodes)[d].entries, 0), Field(name), i, kind)
      ensures SlotsFor(r, held, 1) && (r == Panic(NoInode) <==> FreeInode(old(inodes), 1) == None)
      ensures PanicIff(r, TooLarge, FreeInode(old(inodes), 1).Some? && Gap(old(inodes)[d].entries, 0) >= MAXENTRIES)
    {
      ghost var t := inodes;
      assert InodeAt(t, d);
      var a := Bear(d, kind, held);
      if a.Panic? { return a; }
      var ip, i := a.value, icache[a.value].inum;
      Enterable(t, inodes, d, name);
      MakeSteps(t, d, Gap(t[d].entries, 0), Field(name), i, kind);
      r := Enroll(dp, d, name, i, held);
      if r.Done? { r := Done(ip); }
    }

    /** create up to the entry in the parent. */
    method Bear(d: nat, kind: Kind, ghost held: multiset<nat>) returns (r: Outcome<nat>)
      requires Mid(held, multiset{d}) && d < |inodes| && inodes[d].kind == Dir && inodes[d].nlink >= 0 && kind != Free
      modifies this
      ensures r != Fail && (r.Panic? ==> r.why in {NoSlot, NoInode})
      ensures SlotsFor(r, held, 1) && (r == Panic(NoInode) <==> FreeInode(old(inodes), 1) == None)
      ensures r.Done? ==> FreeInode(old(inodes), 1).Some? && At(icache, r.value, FreeInode(old(inodes), 1).value)
      ensures r.Done? ==> Mid(held, multiset{d} + multiset{icache[r.value].inum}) && Stay(old(icache), icache)
      ensures r.Done? ==> inodes == Begun(old(inodes), d, icache[r.value].inum, kind)
    {
      r := Ialloc(kind, held, multiset{d});
      if r.Done? && kind == Dir { Furnish(d, icache[r.value].inum, held); }
    }

    /** create, for a directory: the link of its "..", and its first two names. */
    method Furnish(d: nat, i: nat, ghost held: multiset<nat>)
      requires Mid(held, multiset{d} + multiset{i}) && d < |inodes| && 0 < i < |inodes| && i != d && inodes[i] == Inode(Dir, 1, [])
      requires inodes[d].kind == Dir && inodes[d].nlink >= 0
      modifies this
      ensures Mid(held, multiset{d} + multiset{i}) && icache == old(icache)
      ensures inodes == old(inodes)[d := old(inodes)[d].(nlink := old(inodes)[d].nlink + 1)][i := Inode(Dir, 1, [Dirent(i, Dot()), Dirent(d, DotDot())])]
    {
      ghost var t := inodes;
      inodes := inodes[d := inodes[d].(nlink := inodes[d].nlink + 1)];
      UpTracked(t, inodes, icache, held, multiset{d} + multiset{i});
      DotsDiffer();
      var q := Dots(d, i, ".", "..", held, multiset{d} + multiset{i});
    }

    /** create's last entry. */
    method Enroll(dp: nat, d: nat, name: string, i: nat, ghost held: multiset<nat>) returns (r: Outcome<nat>)
      requires Mid(held, multiset{d} + multiset{i}) && At(icache, dp, d) && d < |inodes| && inodes[d].kind == Dir
      requires Find(inodes[d].entries, Field(name), 0) == None
      requires AllFields(inodes[d].entries) && forall k: nat :: Used(inodes, d, k) ==> inodes[d].entries[k].inum < |inodes|
      modifies this
      ensures r != Fail && (r.Panic? ==> r.why == TooLarge)
      ensures r == Panic(TooLarge) <==> Gap(old(inodes)[d].entries, 0) >= MAXENTRIES
      ensures r.Done? ==> Mid(held, multiset{i}) && Shifted(old(icache), icache, held + multiset{i})
      ensures r.Done? ==> inodes == Entered(old(inodes), d, Gap(old(inodes)[d].entries, 0), Field(name), i)
    {
      ghost var t := inodes;
      r := Dirlink(d, name, i, held, multiset{d} + multiset{i});
      if r.Panic? { return; }
      if r == Fail { return Panic(BadDirlink); }
      UpTracked(t, inodes, icache, held, multiset{d} + multiset{i});
      assert multiset{d} + multiset{i} == multiset{i} + multiset{d};
      PlusMinus(held, multiset{i}, d);
      Drop(dp, held, multiset{d} + multiset{i});
    }

    /** The first two names in a new directory. */
    method Dots(d: nat, i: nat, dot: string, dotdot: string, ghost held: multiset<nat>, ghost temps: multiset<nat>) returns (r: Outcome<nat>)
      requires Mid(held, temps) && d < |inodes| && 0 < i < |inodes| && inodes[i] == Inode(Dir, 1, []) && Field(dot) != Field(dotdot)
      modifies this
      ensures r.Done? && Mid(held, temps) && icache == old(icache)
      ensures inodes == old(inodes)[i := Inode(Dir, 1, [Dirent(i, Field(dot)), Dirent(d, Field(dotdot))])]
    {
      ghost var t := inodes;
      r := Dirlink(i, dot, i, held, temps);
      if r.Panic? { return; }
      if r == Fail { return Panic(BadDots); }
      ghost var t1 := inodes;
      assert t1[i].entries == [Dirent(i, Field(dot))];
      FieldIsField(dot);
      UpTracked(t, t1, icache, held, temps);
      r := Dirlink(i, dotdot, d, held, temps);
      if r.Panic? { return; }
      if r == Fail { return Panic(BadDots); }
      UpTracked(t1, inodes, icache, held, temps);
      assert inodes[i].entries == [Dirent(i, Field(dot))] + [Dirent(d, Field(dotdot))];
      assert inodes[i] == Inode(Dir, 1, [Dirent(i, Field(dot)), Dirent(d, Field(dotdot))]);
    }

    /** sys_mkdir and sys_mknod. */
    method SysMake(cwd: nat, path: string, kind: Kind, ghost held: multiset<nat>) returns (r: Outcome<nat>)
      requires Valid(held) && cwd in held && kind != Free
      modifies this
      ensures !r.Panic? ==> Mid(held, multiset{})
      ensures r == Fail ==> inodes == old(inodes) && CreateOf(inodes, cwd, path, kind) == None
      ensures r.Done? ==> CreateOf(old(inodes), cwd, path, kind).Some? && inodes == Created(old(inodes), CreateOf(old(inodes), cwd, path, kind).value, kind)
      ensures r.Done? ==> Proper(old(inodes), CreateOf(old(inodes), cwd, path, kind).value)
      ensures (r.Panic? ==> r.why in {NoSlot, NoType, NoInode, TooLarge}) && PanicIff(r, NoType, NameMeets(old(inodes), cwd, path))
      ensures SlotsFor(r, held, 1) && PanicIff(r, NoInode, NoInodes(old(inodes), cwd, path))
      ensures PanicIff(r, TooLarge, MakeFull(old(inodes), cwd, path))
    {
      r := Create(cwd, path, kind, held);
      if r.Done? {
        var i := icache[r.value].inum;
        assert multiset{i} - multiset{i} == multiset{};
        Drop(r.value, held, multiset{i});
      }
    }

    /** sys_open, with create or without; the process gets a reference unless it has no
        descriptor or file left for it. */
    method SysOpen(cwd: nat, path: string, create: bool, readOnly: bool, full: bool, ghost held: multiset<nat>) returns (r: Outcome<nat>)
      requires Valid(held) && cwd in held
      modifies this
      ensures r == Fail ==> Mid(held, multiset{})
      ensures r.Done? ==> Mid(held + multiset{r.value}, multiset{})
      ensures !create && !r.Panic? ==> inodes == old(inodes)
      ensures !create && !r.Panic? ==> var o := OpenOf(inodes, cwd, path, readOnly);
        r == if o == None || full then Fail else Done(o.value)
      ensures create && !r.Panic? ==> var c := CreateOf(old(inodes), cwd, path, Plain);
        && (c == None ==> r == Fail && inodes == old(inodes))
        && (c.Some? ==> (r == if full then Fail else Done(c.value.i)) && Proper(old(inodes), c.value) && inodes == Created(old(inodes), c.value, Plain))
      ensures (r.Panic? ==> r.why in {NoSlot, NoType, NoInode, TooLarge}) && PanicIff(r, NoType, NameMeets(old(inodes), cwd, path))
      ensures SlotsFor(r, held, 1) && PanicIff(r, NoInode, create && NoInodes(old(inodes), cwd, path))
      ensures PanicIff(r, TooLarge, create && MakeFull(old(inodes), cwd, path))
    {
      var a: Outcome<nat>;
      if create {
        a := Create(cwd, path, Plain, held);
      } else {
        a := OpenOld(cwd, path, readOnly, held);
      }
      if !a.Done? { return a; }
      var i := icache[a.value].inum;
      if full {
        assert multiset{i} - multiset{i} == multiset{};
        Drop(a.value, held, multiset{i});
        return Fail;
      }
      Adopt(inodes, icache, held, i);
      return Done(i);
    }

    /** sys_open of what is there. */
    method OpenOld(cwd: nat, path: string, readOnly: bool, ghost held: multiset<nat>) returns (r: Outcome<nat>)
      requires Valid(held) && cwd in held
      modifies this
      ensures inodes == old(inodes) && (r == Fail ==> Mid(held, multiset{}))
      ensures r.Done? ==> Taken(icache, r.value) && Mid(held, multiset{icache[r.value].inum})
      ensures r.Done? ==> icache[r.value].inum < |inodes| && inodes[icache[r.value].inum].kind != Free
      ensures r.Done? ==> OpenOf(inodes, cwd, path, readOnly) == Some(icache[r.value].inum)
      ensures r == Fail ==> OpenOf(inodes, cwd, path, readOnly) == None
      ensures (r.Panic? ==> r.why == NoSlot || r.why == NoType) && PanicIff(r, NoType, NameMeets(inodes, cwd, path))
      ensures SlotsFor(r, held, 1)
    {
      var name;
      r, name := Namex(path, false, cwd, held, multiset{});
      if !r.Done? { return; }
      var i := icache[r.value].inum;
      assert multiset{} + multiset{i} == multiset{i};
      var ok := Ilock(r.value, held, multiset{i});
      if !ok { return Panic(NoType); }
      if inodes[i].kind == Dir && !readOnly {
        assert multiset{i} - multiset{i} == multiset{};
        Drop(r.value, held, multiset{i});
        return Fail;
      }
    }

    /** sys_chdir: the process gives up its directory for another. */
    method SysChdir(cwd: nat, path: string, ghost held: multiset<nat>) returns (r: Outcome<nat>)
      requires Valid(held) && cwd in held
      modifies this
      ensures r == Fail ==> Valid(held) && inodes == old(inodes) && ChdirOf(inodes, cwd, path) == None
      ensures r.Done? ==> ChdirOf(old(inodes), cwd, path) == Some(r.value)
      ensures r.Done? ==> Valid(held + multiset{r.value} - multiset{cwd})
      ensures r.Done? ==> cwd < |old(inodes)| && inodes == After(old(inodes), cwd, held + multiset{r.value} - multiset{cwd})
      ensures (r.Panic? ==> r.why == NoSlot || r.why == NoType) && PanicIff(r, NoType, NameMeets(old(inodes), cwd, path))
      ensures SlotsFor(r, held, 1)
    {
      r := OpenOld(cwd, path, true, held);
      if !r.Done? { return; }
      var i := icache[r.value].inum;
      if inodes[i].kind != Dir {
        assert multiset{i} - multiset{i} == multiset{};
        Drop(r.value, held, multiset{i});
        return Fail;
      }
      Adopt(inodes, icache, held, i);
      Close(cwd, held + multiset{i});
      return Done(i);
    }

    /** fileclose's iput, and exit's. */
    method Close(i: nat, ghost held: multiset<nat>)
      requires Valid(held) && i in held
      modifies this
      ensures Valid(held - multiset{i}) && i < |old(inodes)| && inodes == After(old(inodes), i, held - multiset{i})
    {
      var k := SlotOf(i, held, multiset{});
      assert held + multiset{} == held && held - multiset{i} + multiset{i} == held;
      assert KeptAt(inodes, held, i);
      forall j: nat | j != i ensures KeptAt(inodes, held - multiset{i}, j) { assert KeptAt(inodes, held, j); }
      Release(k, i, held - multiset{i});
    }

    /** idup, by fork, of the directory of a process. */
    method Dup(i: nat, ghost held: multiset<nat>)
      requires Valid(held) && i in held
      modifies this`icache
      ensures Valid(held + multiset{i})
    {
      var k := SlotOf(i, held, multiset{});
      MoreTracked(inodes, icache, held, multiset{}, k, i);
      assert multiset{} + multiset{i} == multiset{i};
      assert KeptAt(inodes, held, i);
      icache := icache[k := Slot(i, icache[k].ref + 1, icache[k].valid)];
      Adopt(inodes, icache, held, i);
    }
  }

  datatype Op =
    | Link(path: string, newPath: string) | Unlink(path: string) | Mkdir(path: string) | Mknod(path: string)
    | Open(path: string, create: bool, readOnly: bool, full: bool) | Chdir(path: string) | CloseRef(i: nat) | ForkDir

  datatype Stop = Running | Panicked(why: Why) | InRemoved

  /** The call has to read a free inode. */
  predicate CallMeets(t: Disk, cwd: nat, op: Op) {
    match op
    case Link(path, newPath) => LinkMeets(t, cwd, path, newPath)
    case Unlink(path) => ParentMeets(t, cwd, path)
    case Mkdir(path) => NameMeets(t, cwd, path)
    case Mknod(path) => NameMeets(t, cwd, path)
    case Open(path, _, _, _) => NameMeets(t, cwd, path)
    case Chdir(path) => NameMeets(t, cwd, path)
    case CloseRef(_) => false
    case ForkDir => false
  }

  /** The call makes a file where there is none, by that path. */
  function Makes(op: Op): Option<string> {
    match op
    case Mkdir(path) => Some(path)
    case Mknod(path) => Some(path)
    case Open(path, create, _, _) => if create then Some(path) else None
    case _ => None
  }

  /** What makes a call panic so. */
  ghost predicate Cause(t: Disk, held: multiset<nat>, cwd: nat, op: Op, why: Why) {
    match why
    case NoSlot => Crowded(held, 2)
    case NoType => CallMeets(t, cwd, op)
    case NoInode => Makes(op).Some? && NoInodes(t, cwd, Makes(op).value)
    case TooLarge => if op.Link? then LinkFull(t, cwd, op.path, op.newPath) else Makes(op).Some? && MakeFull(t, cwd, Makes(op).value)
    case _ => false
  }

  /** The call panics. */
  ghost predicate Stuck(t: Disk, held: multiset<nat>, cwd: nat, op: Op) {
    Cause(t, held, cwd, op, NoType) || Cause(t, held, cwd, op, NoInode) || Cause(t, held, cwd, op, TooLarge)
  }

  /** What a call that returns does to the inodes and to what is held: it fails just when the
      lookup of its names says so, and else has the effect on them that is told by the lookup. */
  ghost predicate Does(t: Disk, held: multiset<nat>, cwd: nat, op: Op, t': Disk, held': multiset<nat>) {
    |t| > 0 && match op
    case Link(path, newPath) => held' == held && LinkDoes(t, LinkOf(t, cwd, path, newPath), t')
    case Unlink(path) => held' == held && UnlinkDoes(t, held, UnlinkOf(t, cwd, path), t')
    case Mkdir(path) => held' == held && CreateDoes(t, CreateOf(t, cwd, path, Dir), Dir, t')
    case Mknod(path) => held' == held && CreateDoes(t, CreateOf(t, cwd, path, Device), Device, t')
    case Open(path, create, readOnly, full) =>
      if create then
        && CreateDoes(t, CreateOf(t, cwd, path, Plain), Plain, t')
        && held' == match CreateOf(t, cwd, path, Plain) { case None => held case Some(m) => if full then held else held + multiset{m.i} }
      else
        && t' == t
        && held' == match OpenOf(t, cwd, path, readOnly) { case None => held case Some(i) => if full then held else held + multiset{i} }
    case Chdir(path) =>
      match ChdirOf(t, cwd, path) {
        case None => t' == t && held' == held
        case Some(i) => cwd < |t| && held' == held + multiset{i} - multiset{cwd} && t' == After(t, cwd, held')
      }
    case CloseRef(i) =>
      if i in held then i < |t| && held' == held - multiset{i} && t' == After(t, i, held') else t' == t && held' == held
    case ForkDir => t' == t && held' == held + multiset{cwd}
  }

  ghost predicate LinkDoes(t: Disk, o: Option<(nat, nat, string, nat)>, t': Disk) {
    match o
    case None => t' == t
    case Some(x) => CanAddFile(t, x.0, x.1, x.2, x.3) && t' == AddFile(t, x.0, x.1, x.2, x.3)
  }

  ghost predicate UnlinkDoes(t: Disk, held: multiset<nat>, o: Option<(nat, nat, nat)>, t': Disk) {
    match o
    case None => t' == t
    case Some(x) =>
      x.0 < |t| && x.2 < |t| && x.1 < |t[x.0].entries| && |Removed(t, x.0, x.1, x.2)| == |t| && t' == After(Removed(t, x.0, x.1, x.2), x.2, held)
  }

  ghost predicate CreateDoes(t: Disk, o: Option<Made>, kind: Kind, t': Disk) {
    match o
    case None => t' == t
    case Some(m) => Proper(t, m) && (m.New? ==> m.d < |t| && m.i < |t|) && t' == Created(t, m, kind)
  }

  /** One call of a process whose directory is cwd. */
  method Call(t: Inodes, cwd: nat, op: Op, held: multiset<nat>) returns (stop: Stop, held': multiset<nat>)
    requires t.Valid(held) && cwd in held
    modifies t
    ensures stop == Running ==> t.Valid(held') && Does(old(t.inodes), held, cwd, op, t.inodes, held')
    ensures stop.Panicked? ==> Cause(old(t.inodes), held, cwd, op, stop.why)
    ensures stop == InRemoved ==> !Exact(t.inodes)
    ensures Stuck(old(t.inodes), held, cwd, op) ==> stop.Panicked?
  {
    held', stop := held, Running;
    match op {
      case Link(path, newPath) =>
        stop := CallLink(t, cwd, path, newPath, held);
      case Unlink(path) =>
        stop := CallUnlink(t, cwd, path, held);
      case Mkdir(path) =>
        stop := CallMake(t, cwd, path, Dir, held);
      case Mknod(path) =>
        stop := CallMake(t, cwd, path, Device, held);
      case Open(path, create, readOnly, full) =>
        stop, held' := CallOpen(t, cwd, path, create, readOnly, full, held);
      case Chdir(path) =>
        stop, held' := CallChdir(t, cwd, path, held);
      case CloseRef(i) =>
        if i in held {
          t.Close(i, held);
          held' := held - multiset{i};
        }
      case ForkDir =>
        t.Dup(cwd, held);
        held' := held + multiset{cwd};
    }
  }

  method CallUnlink(t: Inodes, cwd: nat, path: string, held: multiset<nat>) returns (stop: Stop)
    requires t.Valid(held) && cwd in held
    modifies t
    ensures stop == Running ==> t.Valid(held) && Does(old(t.inodes), held, cwd, Unlink(path), t.inodes, held)
    ensures stop.Panicked? ==> Cause(old(t.inodes), held, cwd, Unlink(path), stop.why)
    ensures stop != InRemoved && (Stuck(old(t.inodes), held, cwd, Unlink(path)) ==> stop.Panicked?)
  {
    var r := t.SysUnlink(cwd, path, held);
    stop := if r.Panic? then Panicked(r.why) else Running;
  }

  method CallChdir(t: Inodes, cwd: nat, path: string, held: multiset<nat>) returns (stop: Stop, held': multiset<nat>)
    requires t.Valid(held) && cwd in held
    modifies t
    ensures stop == Running ==> t.Valid(held') && Does(old(t.inodes), held, cwd, Chdir(path), t.inodes, held')
    ensures stop.Panicked? ==> Cause(old(t.inodes), held, cwd, Chdir(path), stop.why)
    ensures stop != InRemoved && (Stuck(old(t.inodes), held, cwd, Chdir(path)) ==> stop.Panicked?)
  {
    var r := t.SysChdir(cwd, path, held);
    stop := if r.Panic? then Panicked(r.why) else Running;
    held' := if r.Done? then held + multiset{r.value} - multiset{cwd} else held;
  }

  method CallLink(t: Inodes, cwd: nat, path: string, newPath: string, held: multiset<nat>) returns (stop: Stop)
    requires t.Valid(held) && cwd in held
    modifies t
    ensures stop == Running ==> t.Valid(held) && LinkDoes(old(t.inodes), LinkOf(old(t.inodes), cwd, path, newPath), t.inodes)
    ensures stop.Panicked? ==> Cause(old(t.inodes), held, cwd, Link(path, newPath), stop.why)
    ensures stop == InRemoved ==> !Exact(t.inodes)
    ensures Stuck(old(t.inodes), held, cwd, Link(path, newPath)) ==> stop.Panicked?
  {
    var before := t.inodes;
    var r := t.SysLink(cwd, path, newPath, held);
    if r.Panic? { return Panicked(r.why); }
    if r.Done? {
      var (d, k, f, i) := LinkOf(before, cwd, path, newPath).value;
      var removed := CheckLinked(before, d, k, f, i);
      if removed { return InRemoved; }
    }
    stop := Running;
  }

  /** mkdir and mknod. */
  method CallMake(t: Inodes, cwd: nat, path: string, kind: Kind, held: multiset<nat>) returns (stop: Stop)
    requires t.Valid(held) && cwd in held && kind != Free
    modifies t
    ensures |old(t.inodes)| > 0
    ensures stop == Running ==> t.Valid(held) && CreateDoes(old(t.inodes), CreateOf(old(t.inodes), cwd, path, kind), kind, t.inodes)
    ensures stop.Panicked? ==> Cause(old(t.inodes), held, cwd, Mkdir(path), stop.why)
    ensures stop == InRemoved ==> !Exact(t.inodes)
    ensures Stuck(old(t.inodes), held, cwd, Mkdir(path)) ==> stop.Panicked?
  {
    var before := t.inodes;
    var r := t.SysMake(cwd, path, kind, held);
    if r.Panic? { return Panicked(r.why); }
    if r.Done? {
      var removed := CheckMade(before, CreateOf(before, cwd, path, kind).value, kind);
      if removed { return InRemoved; }
    }
    stop := Running;
  }

  method CallOpen(t: Inodes, cwd: nat, path: string, create: bool, readOnly: bool, full: bool, held: multiset<nat>) returns (stop: Stop, held': multiset<nat>)
    requires t.Valid(held) && cwd in held
    modifies t
    ensures stop == Running ==> t.Valid(held') && Does(old(t.inodes), held, cwd, Open(path, create, readOnly, full), t.inodes, held')
    ensures stop.Panicked? ==> Cause(old(t.inodes), held, cwd, Open(path, create, readOnly, full), stop.why)
    ensures stop == InRemoved ==> !Exact(t.inodes)
    ensures Stuck(old(t.inodes), held, cwd, Open(path, create, readOnly, full)) ==> stop.Panicked?
  {
    held' := held;
    var before := t.inodes;
    var r := t.SysOpen(cwd, path, create, readOnly, full, held);
    if r.Panic? { return Panicked(r.why), held; }
    if create && CreateOf(before, cwd, path, Plain).Some? {
      var removed := CheckMade(before, CreateOf(before, cwd, path, Plain).value, Plain);
      if removed { return InRemoved, held; }
    }
    if r.Done? { held' := held + multiset{r.value}; }
    stop := Running;
  }

  /** Whether sys_link entered a name in a removed directory. */
  method CheckLinked(t: Disk, d: nat, k: nat, f: string, i: nat) returns (removed: bool)
    requires Linked(t) && CanAddFile(t, d, k, f, i)
    ensures if removed then !Exact(AddFile(t, d, k, f, i)) else Linked(AddFile(t, d, k, f, i))
  {
    AddFileExact(t, d, k, f, i);
    assert InodeAt(t, d);
    removed := t[d].nlink == 0;
    if !removed { AddFileShaped(t, d, k, f, i); }
  }

  /** Whether create entered a name in a removed directory. */
  method CheckMade(t: Disk, m: Made, kind: Kind) returns (removed: bool)
    requires Linked(t) && Proper(t, m) && kind != Free
    ensures if removed then !Exact(Created(t, m, kind)) else Linked(Created(t, m, kind))
  {
    removed := false;
    if m.New? {
      MakeExact(t, m.d, m.k, m.f, m.i, kind);
      assert InodeAt(t, m.d);
      removed := t[m.d].nlink == 0;
    }
  }

  /** Call k has returned: `at` are the inodes and what was held before each call. A process
      whose directory is not held makes none. */
  ghost predicate Passed(at: seq<(Disk, multiset<nat>)>, ops: seq<(nat, Op)>, k: nat)
    requires k < |ops| && k + 1 < |at|
  {
    var (d, held), (cwd, op) := at[k], ops[k];
    if cwd in held then !Stuck(d, held, cwd, op) && Does(d, held, cwd, op, at[k + 1].0, at[k + 1].1) else at[k + 1] == at[k]
  }

  lemma PassedMore(before: seq<(Disk, multiset<nat>)>, at: seq<(Disk, multiset<nat>)>, ops: seq<(nat, Op)>, n: nat)
    requires n < |ops| && |before| == n + 1 && |at| == n + 2 && at[..n + 1] == before && forall k :: 0 <= k < n ==> Passed(before, ops, k)
    requires Passed(at, ops, n)
    ensures forall k :: 0 <= k <= n ==> Passed(at, ops, k)
  {
    forall k | 0 <= k < n ensures Passed(at, ops, k) {
      assert Passed(before, ops, k) && at[k] == at[..n + 1][k] && at[k + 1] == at[..n + 1][k + 1];
    }
  }

  /** Any calls of processes that hold inodes as directories and open files, with the inodes
      and what is held before each and after the last. Unless the kernel panics or a name is
      entered in a removed directory, link counts are exact, names are unique, and just the
      inodes with names or holders are not free. It panics at the first call that climbs out of
      an orphan, has no inode left for what it makes, or no room for a name in a directory; at
      another only if all slots but two are held; and three panics are not reached. */
  method Session(t: Inodes, ops: seq<(nat, Op)>, held0: multiset<nat>)
    returns (stop: Stop, held: multiset<nat>, ghost at: seq<(Disk, multiset<nat>)>)
    requires t.Valid(held0)
    modifies t
    ensures stop == Running ==> t.Valid(held)
    ensures stop == InRemoved ==> !Exact(t.inodes)
    ensures 0 < |at| <= |ops| + 1 && at[0] == (old(t.inodes), held0) && forall k :: 0 <= k < |at| ==> Linked(at[k].0)
    ensures forall k :: 0 <= k < |at| - 1 ==> Passed(at, ops, k)
    ensures stop == Running ==> |at| == |ops| + 1 && at[|ops|] == (t.inodes, held)
    ensures stop != Running ==> |at| <= |ops| && ops[|at| - 1].0 in at[|at| - 1].1
    ensures stop != Running ==> var (d, was), (cwd, op) := at[|at| - 1], ops[|at| - 1];
      (stop.Panicked? ==> Cause(d, was, cwd, op, stop.why)) && (Stuck(d, was, cwd, op) ==> stop.Panicked?)
  {
    held, stop, at := held0, Running, [(t.inodes, held0)];
    for n := 0 to |ops|
      invariant stop == Running && t.Valid(held) && |at| == n + 1 && at[n] == (t.inodes, held) && at[0] == (old(t.inodes), held0)
      invariant forall k :: 0 <= k < |at| ==> Linked(at[k].0)
      invariant forall k :: 0 <= k < n ==> Passed(at, ops, k)
    {
      ghost var before := at;
      if ops[n].0 in held {
        stop, held := Call(t, ops[n].0, ops[n].1, held);
        if stop != Running { return; }
      }
      at := at + [(t.inodes, held)];
      PassedMore(before, at, ops, n);
    }
  }
}
