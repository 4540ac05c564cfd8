/** Open files (file.c, sysfile.c, pipe.c): the table of files with reference counts, the
    descriptors of processes, and the two ends of pipes. One call is one step. */
module FileTable {
  import opened Options

  const NFILE: nat := 100
  const NOFILE: nat := 16

  datatype Kind = NoFile | PipeEnd(id: nat, writable: bool) | OfInode(ip: nat)
  datatype File = File(ref: nat, kind: Kind)
  datatype Ends = Ends(readopen: bool, writeopen: bool)

  /** ofile of every process: (process, descriptor) to file. */
  type Slots = map<(nat, nat), nat>

  ghost function Holders(ofile: Slots, f: nat): set<(nat, nat)> {
    set s | s in ofile && ofile[s] == f
  }

  lemma HoldersAdd(ofile: Slots, s: (nat, nat), f: nat, g: nat)
    requires s !in ofile
    ensures Holders(ofile[s := f], g) == Holders(ofile, g) + if g == f then {s} else {}
  {
  }

  lemma HoldersDrop(ofile: Slots, s: (nat, nat), g: nat)
    requires s in ofile
    ensures Holders(ofile - {s}, g) == Holders(ofile, g) - {s} && (s in Holders(ofile, g) <==> ofile[s] == g)
  {
  }

  /** f's count is the number of descriptors and of calls under way that refer to it; a
      file with count 0 is closed. */
  ghost predicate CountAt(files: seq<File>, ofile: Slots, held: multiset<nat>, f: nat) {
    f < |files| ==> files[f].ref == |Holders(ofile, f)| + held[f] && (files[f].ref == 0 ==> files[f].kind == NoFile)
  }

  ghost predicate Counted(files: seq<File>, ofile: Slots, held: multiset<nat>) {
    && |files| == NFILE && (forall s :: s in ofile ==> s.1 < NOFILE && ofile[s] < NFILE) && (forall f :: f in held ==> f < NFILE)
    && forall f: nat :: CountAt(files, ofile, held, f)
  }

  /** An open end of a pipe belongs to one file, whose end it is. */
  ghost predicate EndAt(files: seq<File>, pipes: map<nat, Ends>, f: nat) {
    f < |files| && files[f].kind.PipeEnd? ==>
      files[f].kind.id in pipes && (if files[f].kind.writable then pipes[files[f].kind.id].writeopen else pipes[files[f].kind.id].readopen)
  }

  ghost predicate Apart(files: seq<File>, f: nat, g: nat) {
    f < |files| && g < |files| && f != g && files[f].kind.PipeEnd? ==> files[f].kind != files[g].kind
  }

  ghost predicate Has(files: seq<File>, kind: Kind) {
    exists f :: 0 <= f < |files| && files[f].kind == kind
  }

  ghost predicate PipeAt(files: seq<File>, pipes: map<nat, Ends>, id: nat) {
    id in pipes ==>
      && (pipes[id].readopen || pipes[id].writeopen)
      && (pipes[id].readopen ==> Has(files, PipeEnd(id, false))) && (pipes[id].writeopen ==> Has(files, PipeEnd(id, true)))
  }

  ghost predicate Piped(files: seq<File>, pipes: map<nat, Ends>) {
    && (forall f: nat :: EndAt(files, pipes, f)) && (forall f: nat, g: nat :: Apart(files, f, g))
    && forall id: nat :: PipeAt(files, pipes, id)
  }

  ghost predicate InUse(files: seq<File>, f: nat) {
    f < |files| && files[f].ref > 0
  }

  lemma HeldCounted(files: seq<File>, ofile: Slots, held: multiset<nat>, f: nat)
    requires Counted(files, ofile, held) && (f in held || exists s :: s in ofile && ofile[s] == f)
    ensures f < NFILE && files[f].ref > 0
  {
    assert CountAt(files, ofile, held, f);
    if f !in held {
      var s :| s in ofile && ofile[s] == f;
      assert s in Holders(ofile, f);
    }
  }

  ghost function FreeFds(ofile: Slots, p: nat): set<nat> {
    set fd: nat | fd < NOFILE && (p, fd) !in ofile
  }

  ghost function FreeFiles(files: seq<File>): set<nat> {
    set f: nat | f < |files| && files[f].ref == 0
  }

  /** A search finds the least of s, or nothing in an empty s. */
  ghost predicate Least(s: set<nat>, r: Option<nat>) {
    if r == None then s == {} else r.value in s && forall x :: x in s ==> r.value <= x
  }

  /** The two least, or nothing in an s of fewer. */
  ghost predicate LeastTwo(s: set<nat>, r: Option<(nat, nat)>) {
    if r == None then |s| < 2 else Least(s, Some(r.value.0)) && Least(s - {r.value.0}, Some(r.value.1))
  }

  lemma OneThenOne(s: set<nat>, a: nat, b: Option<nat>)
    requires Least(s, Some(a)) && Least(s - {a}, b)
    ensures LeastTwo(s, if b == None then None else Some((a, b.value)))
    ensures |s| >= 2 <==> b.Some?
  {
    if b == None {
      assert s == {a};
    } else {
      assert |s - {a} - {b.value}| + 2 == |s|;
    }
  }

  /** No file changed what it is. */
  ghost predicate SameKinds(files: seq<File>, files': seq<File>) {
    |files'| == |files| && forall f :: 0 <= f < |files| ==> files'[f].kind == files[f].kind
  }

  // --------------------------------------------------------- counts, by step

  lemma AllocCounted(files: seq<File>, ofile: Slots, held: multiset<nat>, f: nat)
    requires Counted(files, ofile, held) && f < NFILE && files[f].ref == 0
    ensures Counted(files[f := File(1, files[f].kind)], ofile, held + multiset{f})
  {
    var files' := files[f := File(1, files[f].kind)];
    forall g: nat ensures CountAt(files', ofile, held + multiset{f}, g) { assert CountAt(files, ofile, held, g); }
  }

  lemma DupCounted(files: seq<File>, ofile: Slots, held: multiset<nat>, f: nat)
    requires Counted(files, ofile, held) && f < NFILE && files[f].ref > 0
    ensures Counted(files[f := File(files[f].ref + 1, files[f].kind)], ofile, held + multiset{f})
  {
    var files' := files[f := File(files[f].ref + 1, files[f].kind)];
    forall g: nat ensures CountAt(files', ofile, held + multiset{f}, g) { assert CountAt(files, ofile, held, g); }
  }

  function Dropped(x: File): File
    requires x.ref > 0
  {
    if x.ref > 1 then File(x.ref - 1, x.kind) else File(0, NoFile)
  }

  lemma DropCounted(files: seq<File>, ofile: Slots, held: multiset<nat>, f: nat)
    requires Counted(files, ofile, held) && f in held
    ensures f < NFILE && files[f].ref > 0 && Counted(files[f := Dropped(files[f])], ofile, held - multiset{f})
  {
    HeldCounted(files, ofile, held, f);
    var files' := files[f := Dropped(files[f])];
    forall g: nat ensures CountAt(files', ofile, held - multiset{f}, g) { assert CountAt(files, ofile, held, g); }
  }

  /** A reference in transit goes into a descriptor. */
  lemma InstallCounted(files: seq<File>, ofile: Slots, held: multiset<nat>, s: (nat, nat), f: nat)
    requires Counted(files, ofile, held) && f in held && s !in ofile && s.1 < NOFILE
    ensures Counted(files, ofile[s := f], held - multiset{f})
  {
    var ofile' := ofile[s := f];
    forall g: nat ensures CountAt(files, ofile', held - multiset{f}, g) {
      assert CountAt(files, ofile, held, g);
      HoldersAdd(ofile, s, f, g);
    }
  }

  /** And comes out again. */
  lemma RemoveCounted(files: seq<File>, ofile: Slots, held: multiset<nat>, s: (nat, nat))
    requires Counted(files, ofile, held) && s in ofile
    ensures Counted(files, ofile - {s}, held + multiset{ofile[s]})
  {
    forall g: nat ensures CountAt(files, ofile - {s}, held + multiset{ofile[s]}, g) {
      assert CountAt(files, ofile, held, g);
      HoldersDrop(ofile, s, g);
    }
  }

  lemma KindCounted(files: seq<File>, ofile: Slots, held: multiset<nat>, f: nat, kind: Kind)
    requires Counted(files, ofile, held) && f < NFILE && files[f].ref > 0
    ensures Counted(files[f := File(files[f].ref, kind)], ofile, held)
  {
    var files' := files[f := File(files[f].ref, kind)];
    forall g: nat ensures CountAt(files', ofile, held, g) { assert CountAt(files, ofile, held, g); }
  }

  /** Descriptor s is open on a file of this kind. */
  ghost predicate Refers(files: seq<File>, ofile: Slots, s: (nat, nat), kind: Kind) {
    s in ofile && ofile[s] < |files| && files[ofile[s]].kind == kind
  }

  // ------------------------------------------------------------ pipes, by step

  /** pipeclose of one end; the page goes when both ends are closed. */
  function Closed(pipes: map<nat, Ends>, id: nat, writable: bool): map<nat, Ends>
    requires id in pipes
  {
    var e := if writable then pipes[id].(writeopen := false) else pipes[id].(readopen := false);
    if e.readopen || e.writeopen then pipes[id := e] else pipes - {id}
  }

  /** The pipes after one reference to file x was dropped. */
  function PipesAfter(pipes: map<nat, Ends>, x: File): map<nat, Ends> {
    if x.ref == 1 && x.kind.PipeEnd? && x.kind.id in pipes then Closed(pipes, x.kind.id, x.kind.writable) else pipes
  }

  lemma SamePiped(files: seq<File>, files': seq<File>, pipes: map<nat, Ends>)
    requires Piped(files, pipes) && |files'| == |files| && forall f :: 0 <= f < |files| ==> files'[f].kind == files[f].kind
    ensures Piped(files', pipes)
  {
    forall f: nat ensures EndAt(files', pipes, f) { assert EndAt(files, pipes, f); }
    forall f: nat, g: nat ensures Apart(files', f, g) { assert Apart(files, f, g); }
    forall id: nat ensures PipeAt(files', pipes, id) {
      assert PipeAt(files, pipes, id);
      SameHas(files, files', PipeEnd(id, false));
      SameHas(files, files', PipeEnd(id, true));
    }
  }

  lemma SameHas(files: seq<File>, files': seq<File>, kind: Kind)
    requires |files'| == |files| && forall f :: 0 <= f < |files| ==> files'[f].kind == files[f].kind
    ensures Has(files', kind) <==> Has(files, kind)
  {
    if Has(files, kind) { var f :| 0 <= f < |files| && files[f].kind == kind; assert files'[f].kind == kind; }
    if Has(files', kind) { var f :| 0 <= f < |files'| && files'[f].kind == kind; assert files[f].kind == kind; }
  }

  /** The last reference to an end of a pipe closes that end, which was open. */
  lemma ClosePiped(files: seq<File>, pipes: map<nat, Ends>, f: nat)
    requires Piped(files, pipes) && f < |files| && files[f].kind.PipeEnd?
    ensures files[f].kind.id in pipes
    ensures if files[f].kind.writable then pipes[files[f].kind.id].writeopen else pipes[files[f].kind.id].readopen
    ensures Piped(files[f := File(0, NoFile)], Closed(pipes, files[f].kind.id, files[f].kind.writable))
  {
    assert EndAt(files, pipes, f);
    var k := files[f].kind;
    var files', pipes' := files[f := File(0, NoFile)], Closed(pipes, k.id, k.writable);
    forall g: nat ensures EndAt(files', pipes', g) { assert EndAt(files, pipes, g) && Apart(files, f, g); }
    forall g: nat, h: nat ensures Apart(files', g, h) { assert Apart(files, g, h); }
    forall id: nat ensures PipeAt(files', pipes', id) {
      assert PipeAt(files, pipes, id);
      OtherHas(files, f, PipeEnd(id, false));
      OtherHas(files, f, PipeEnd(id, true));
    }
  }

  lemma OtherHas(files: seq<File>, f: nat, kind: Kind)
    requires f < |files|
    ensures Has(files, kind) && files[f].kind != kind ==> Has(files[f := File(0, NoFile)], kind)
  {
    if Has(files, kind) && files[f].kind != kind {
      var g :| 0 <= g < |files| && files[g].kind == kind;
      assert files[f := File(0, NoFile)][g].kind == kind;
    }
  }

  /** Two new files become the ends of a new pipe. */
  lemma OpenPiped(files: seq<File>, pipes: map<nat, Ends>, f: nat, g: nat, id: nat)
    requires Piped(files, pipes) && f < |files| && g < |files| && f != g && files[f].kind == NoFile == files[g].kind && id !in pipes
    ensures Piped(files[f := File(files[f].ref, PipeEnd(id, false))][g := File(files[g].ref, PipeEnd(id, true))],
                  pipes[id := Ends(true, true)])
  {
    var files' := files[f := File(files[f].ref, PipeEnd(id, false))][g := File(files[g].ref, PipeEnd(id, true))];
    var pipes' := pipes[id := Ends(true, true)];
    forall h: nat ensures EndAt(files', pipes', h) { assert EndAt(files, pipes, h); }
    forall h: nat, k: nat ensures Apart(files', h, k) { assert Apart(files, h, k) && EndAt(files, pipes, h) && EndAt(files, pipes, k); }
    forall x: nat ensures PipeAt(files', pipes', x) {
      assert PipeAt(files, pipes, x);
      if x == id {
        assert files'[f].kind == PipeEnd(id, false) && files'[g].kind == PipeEnd(id, true);
      } else {
        MoreHas(files, files', PipeEnd(x, false));
        MoreHas(files, files', PipeEnd(x, true));
      }
    }
  }

  lemma MoreHas(files: seq<File>, files': seq<File>, kind: Kind)
    requires |files'| == |files| && forall f :: 0 <= f < |files| && files[f].kind == kind ==> files'[f].kind == kind
    ensures Has(files, kind) ==> Has(files', kind)
  {
    if Has(files, kind) {
      var f :| 0 <= f < |files| && files[f].kind == kind;
      assert files'[f].kind == kind;
    }
  }

  /** Every pipe made is still there or its page was freed, and not both. */
  ghost predicate Once(id: nat, pipes: map<nat, Ends>, freed: set<nat>, next: nat) {
    if id < next then id in pipes <==> id !in freed else id !in pipes && id !in freed
  }

  class Files {
    var files: seq<File>
    var ofile: Slots
    var pipes: map<nat, Ends>
    var nextPipe: nat             // names pipes where the code has a page's address
    ghost var freed: set<nat>     // the pipes whose page was freed

    ghost predicate Valid(held: multiset<nat>)
      reads this
    {
      && Counted(files, ofile, held) && Piped(files, pipes) && forall id: nat :: Once(id, pipes, freed, nextPipe)
    }

    constructor ()
      ensures Valid(multiset{}) && ofile == map[] && pipes == map[] && freed == {}
    {
      files, ofile, pipes, nextPipe, freed := seq(NFILE, _ => File(0, NoFile)), map[], map[], 0, {};
      new;
      forall f: nat ensures CountAt(files, ofile, multiset{}, f) { assert Holders(ofile, f) == {}; }
    }

    /** filealloc: the first file that is not in use. */
    method Filealloc(ghost held: multiset<nat>) returns (r: Option<nat>)
      requires Valid(held)
      modifies this`files
      ensures Least(FreeFiles(old(files)), r) && (r == None ==> files == old(files))
      ensures r.Some? ==> Valid(held + multiset{r.value}) && r.value < NFILE && old(files)[r.value] == File(0, NoFile)
      ensures r.Some? ==> files == old(files)[r.value := File(1, NoFile)] && FreeFiles(files) == FreeFiles(old(files)) - {r.value}
    {
      for f := 0 to NFILE
        invariant files == old(files) && forall g :: 0 <= g < f ==> files[g].ref > 0
      {
        if files[f].ref == 0 {
          assert CountAt(files, ofile, held, f);
          AllocCounted(files, ofile, held, f);
          SamePiped(files, files[f := File(1, files[f].kind)], pipes);
          files := files[f := File(1, files[f].kind)];
          return Some(f);
        }
      }
      return None;
    }

    /** fdalloc: the lowest free descriptor of the process. */
    method Fdalloc(p: nat, f: nat) returns (r: Option<nat>)
      modifies this`ofile
      ensures Least(FreeFds(old(ofile), p), r) && (r == None ==> ofile == old(ofile))
      ensures r.Some? ==> r.value < NOFILE && (p, r.value) !in old(ofile) && ofile == old(ofile)[(p, r.value) := f]
      ensures r.Some? ==> FreeFds(ofile, p) == FreeFds(old(ofile), p) - {r.value}
    {
      for fd := 0 to NOFILE
        invariant ofile == old(ofile) && forall g :: 0 <= g < fd ==> (p, g) in ofile
      {
        if (p, fd) !in ofile {
          ofile := ofile[(p, fd) := f];
          return Some(fd);
        }
      }
      return None;
    }

    /** fileclose: the last reference closes the file, and with it its end of a pipe, whose
        page is freed with the other end closed. The panic is not reached. */
    method Fileclose(f: nat, ghost held: multiset<nat>)
      requires Valid(held) && f in held
      modifies this`files, this`pipes, this`freed
      ensures Valid(held - multiset{f}) && old(freed) <= freed
      ensures f < NFILE && old(files)[f].ref > 0 && files == old(files)[f := Dropped(old(files)[f])]
      ensures pipes == PipesAfter(old(pipes), old(files)[f])
      ensures old(files)[f].ref > 1 || !old(files)[f].kind.PipeEnd? ==> freed == old(freed)
    {
      DropCounted(files, ofile, held, f);
      var x := files[f];
      if x.ref > 1 {
        files := files[f := File(x.ref - 1, x.kind)];
        SamePiped(old(files), files, pipes);
        return;
      }
      files := files[f := File(0, NoFile)];
      if x.kind.PipeEnd? {
        ClosePiped(old(files), pipes, f);
        assert Once(x.kind.id, pipes, freed, nextPipe);
        Pipeclose(x.kind.id, x.kind.writable);
        forall id: nat ensures Once(id, pipes, freed, nextPipe) { assert Once(id, old(pipes), old(freed), nextPipe); }
      } else {
        GonePiped(old(files), pipes, f);
      }
    }

    /** pipeclose, on an end that is open: each end is closed once. */
    method Pipeclose(id: nat, writable: bool)
      requires id in pipes && (if writable then pipes[id].writeopen else pipes[id].readopen) && id !in freed
      modifies this`pipes, this`freed
      ensures pipes == Closed(old(pipes), id, writable) && freed == old(freed) + (if id in pipes then {} else {id})
    {
      if writable {
        pipes := pipes[id := pipes[id].(writeopen := false)];
      } else {
        pipes := pipes[id := pipes[id].(readopen := false)];
      }
      if !pipes[id].readopen && !pipes[id].writeopen {
        pipes, freed := pipes - {id}, freed + {id};
      }
    }

    /** sys_dup: another descriptor for the same file. */
    method SysDup(p: nat, fd: nat) returns (r: Option<nat>)
      requires Valid(multiset{})
      modifies this`files, this`ofile
      ensures Valid(multiset{})
      ensures if (p, fd) in old(ofile) then Least(FreeFds(old(ofile), p), r) else r == None
      ensures r == None ==> files == old(files) && ofile == old(ofile)
      ensures r.Some? ==> (p, fd) in old(ofile) && (p, r.value) !in old(ofile) && ofile == old(ofile)[(p, r.value) := old(ofile)[(p, fd)]]
      ensures SameKinds(old(files), files)
    {
      if (p, fd) !in ofile { return None; }
      var f := ofile[(p, fd)];
      HeldCounted(files, ofile, multiset{}, f);
      r := Fdalloc(p, f);
      if r == None { return; }
      Filedup(f, old(ofile), (p, r.value));
    }

    /** filedup, for a descriptor that refers to the file already. */
    method Filedup(f: nat, ghost before: Slots, ghost s: (nat, nat))
      requires Counted(files, before, multiset{}) && Piped(files, pipes) && s !in before && s.1 < NOFILE && ofile == before[s := f]
      requires f < NFILE && files[f].ref > 0
      modifies this`files
      ensures Counted(files, ofile, multiset{}) && Piped(files, pipes)
      ensures files == old(files)[f := File(old(files)[f].ref + 1, old(files)[f].kind)]
    {
      DupCounted(files, before, multiset{}, f);
      files := files[f := File(files[f].ref + 1, files[f].kind)];
      SamePiped(old(files), files, pipes);
      InstallCounted(files, before, multiset{} + multiset{f}, s, f);
      assert multiset{} + multiset{f} - multiset{f} == multiset{};
    }

    /** sys_close, and each round of exit's loop. */
    method SysClose(p: nat, fd: nat) returns (ok: bool)
      requires Valid(multiset{})
      modifies this`files, this`ofile, this`pipes, this`freed
      ensures Valid(multiset{}) && old(freed) <= freed && ((p, fd) in old(ofile) ==> InUse(old(files), old(ofile)[(p, fd)]))
      ensures ok == ((p, fd) in old(ofile)) && ofile == old(ofile) - {(p, fd)}
      ensures ok ==> files == old(files)[old(ofile)[(p, fd)] := Dropped(old(files)[old(ofile)[(p, fd)]])]
      ensures !ok ==> files == old(files)
    {
      if (p, fd) !in ofile {
        assert ofile - {(p, fd)} == ofile;
        return false;
      }
      var f := ofile[(p, fd)];
      HeldCounted(files, ofile, multiset{}, f);
      RemoveCounted(files, ofile, multiset{}, (p, fd));
      assert multiset{} + multiset{f} == multiset{f};
      ofile := ofile - {(p, fd)};
      Fileclose(f, multiset{f});
      assert multiset{f} - multiset{f} == multiset{};
      return true;
    }

    /** exit's loop over the descriptors. */
    method CloseAll(p: nat)
      requires Valid(multiset{})
      modifies this`files, this`ofile, this`pipes, this`freed
      ensures Valid(multiset{}) && forall s :: s in ofile <==> s in old(ofile) && s.0 != p
      ensures forall s :: s in ofile ==> ofile[s] == old(ofile)[s]
    {
      for fd := 0 to NOFILE
        invariant Valid(multiset{}) && forall s :: s in ofile <==> s in old(ofile) && !(s.0 == p && s.1 < fd)
        invariant forall s :: s in ofile ==> ofile[s] == old(ofile)[s]
      {
        var ok := SysClose(p, fd);
      }
    }

    /** fork's loop: the child, which has no descriptors yet, gets the parent's. */
    method ForkFiles(p: nat, c: nat)
      requires Valid(multiset{}) && p != c && forall fd :: 0 <= fd < NOFILE ==> (c, fd) !in ofile
      modifies this`files, this`ofile
      ensures Valid(multiset{})
      ensures forall s :: s in ofile <==> s in old(ofile) || (s.0 == c && (p, s.1) in old(ofile))
      ensures forall s :: s in old(ofile) ==> ofile[s] == old(ofile)[s]
      ensures forall fd: nat :: (c, fd) in ofile ==> ofile[(c, fd)] == old(ofile)[(p, fd)]
      ensures SameKinds(old(files), files)
    {
      for fd := 0 to NOFILE
        invariant Valid(multiset{})
        invariant forall s :: s in ofile <==> s in old(ofile) || (s.0 == c && s.1 < fd && (p, s.1) in old(ofile))
        invariant forall s :: s in old(ofile) ==> ofile[s] == old(ofile)[s]
        invariant forall g: nat :: (c, g) in ofile ==> ofile[(c, g)] == old(ofile)[(p, g)]
        invariant SameKinds(old(files), files)
      {
        if (p, fd) in ofile {
          var f := ofile[(p, fd)];
          HeldCounted(files, ofile, multiset{}, f);
          ghost var before := ofile;
          ofile := ofile[(c, fd) := f];
          Filedup(f, before, (c, fd));
        }
      }
    }

    /** sys_open, from filealloc on, for an inode that was found. */
    method SysOpen(p: nat, ip: nat) returns (r: Option<nat>)
      requires Valid(multiset{})
      modifies this`files, this`ofile, this`pipes, this`freed
      ensures Valid(multiset{}) && pipes == old(pipes) && freed == old(freed)
      ensures if FreeFiles(old(files)) != {} then Least(FreeFds(old(ofile), p), r) else r == None
      ensures r == None ==> ofile == old(ofile) && files == old(files)
      ensures r.Some? ==> (p, r.value) !in old(ofile) && (p, r.value) in ofile && ofile - {(p, r.value)} == old(ofile)
      ensures r.Some? ==> ofile[(p, r.value)] < NFILE && files[ofile[(p, r.value)]] == File(1, OfInode(ip))
    {
      var f := Filealloc(multiset{});
      if f == None { return None; }
      assert multiset{} + multiset{f.value} == multiset{f.value};
      r := Fdalloc(p, f.value);
      if r == None {
        Fileclose(f.value, multiset{f.value});
        assert multiset{f.value} - multiset{f.value} == multiset{};
        return;
      }
      InstallCounted(files, old(ofile), multiset{f.value}, (p, r.value), f.value);
      assert multiset{f.value} - multiset{f.value} == multiset{};
      SetKind(f.value, OfInode(ip));
      assert ofile - {(p, r.value)} == old(ofile);
    }

    /** sys_pipe: two files, a page and two descriptors, or nothing. */
    method SysPipe(p: nat, memory: bool) returns (r: Option<(nat, nat)>)
      requires Valid(multiset{})
      modifies this
      ensures Valid(multiset{}) && old(freed) <= freed
      ensures if memory && |FreeFiles(old(files))| >= 2 then LeastTwo(FreeFds(old(ofile), p), r) else r == None
      ensures r == None ==> files == old(files) && ofile == old(ofile) && pipes == old(pipes)
      ensures r.Some? ==> (p, r.value.0) !in old(ofile) && (p, r.value.1) !in old(ofile) && r.value.0 != r.value.1
      ensures r.Some? ==> nextPipe == old(nextPipe) + 1 && pipes == old(pipes)[old(nextPipe) := Ends(true, true)]
      ensures r.Some? ==> Refers(files, ofile, (p, r.value.0), PipeEnd(old(nextPipe), false))
      ensures r.Some? ==> Refers(files, ofile, (p, r.value.1), PipeEnd(old(nextPipe), true))
      ensures r.Some? ==> ofile - {(p, r.value.0), (p, r.value.1)} == old(ofile)
    {
      var ends := Pipealloc(memory);
      if ends == None { return None; }
      var (rf, wf) := ends.value;
      assert Once(old(nextPipe), old(pipes), old(freed), old(nextPipe));
      r := TwoDescriptors(p, rf, wf, old(nextPipe), old(pipes));
      assert r == None ==> files == old(files);
      assert r.Some? ==> ofile - {(p, r.value.0), (p, r.value.1)} == old(ofile);
    }

    /** pipealloc. */
    method Pipealloc(memory: bool) returns (r: Option<(nat, nat)>)
      requires Valid(multiset{})
      modifies this`files, this`pipes, this`nextPipe, this`freed
      ensures r == None <==> !memory || |FreeFiles(old(files))| < 2
      ensures r == None ==> Valid(multiset{}) && files == old(files) && pipes == old(pipes) && freed == old(freed)
      ensures r.Some? ==> Valid(multiset{r.value.0, r.value.1}) && r.value.0 < NFILE && r.value.1 < NFILE && freed == old(freed)
      ensures r.Some? ==> r.value.0 != r.value.1 && old(files)[r.value.0] == File(0, NoFile) == old(files)[r.value.1]
      ensures r.Some? ==> files == old(files)[r.value.0 := File(1, PipeEnd(old(nextPipe), false))][r.value.1 := File(1, PipeEnd(old(nextPipe), true))]
      ensures r.Some? ==> nextPipe == old(nextPipe) + 1 && pipes == old(pipes)[old(nextPipe) := Ends(true, true)]
    {
      r := TwoFiles();
      if r == None { return; }
      var (f, g) := r.value;
      if !memory {
        GiveUp(f, g);
        return None;
      }
      MakeEnds(f, g);
    }

    /** Two files, or none. */
    method TwoFiles() returns (r: Option<(nat, nat)>)
      requires Valid(multiset{})
      modifies this`files, this`pipes, this`freed
      ensures pipes == old(pipes) && freed == old(freed) && LeastTwo(FreeFiles(old(files)), r) && (r.Some? ==> |FreeFiles(old(files))| >= 2)
      ensures r == None ==> Valid(multiset{}) && files == old(files)
      ensures r.Some? ==> Valid(multiset{r.value.0, r.value.1}) && r.value.0 < NFILE && r.value.1 < NFILE && r.value.0 != r.value.1
      ensures r.Some? ==> old(files)[r.value.0] == File(0, NoFile) == old(files)[r.value.1]
      ensures r.Some? ==> files == old(files)[r.value.0 := File(1, NoFile)][r.value.1 := File(1, NoFile)]
    {
      var f := Filealloc(multiset{});
      if f == None { return None; }
      assert multiset{} + multiset{f.value} == multiset{f.value};
      var g := Filealloc(multiset{f.value});
      OneThenOne(FreeFiles(old(files)), f.value, g);
      if g == None {
        Fileclose(f.value, multiset{f.value});
        assert multiset{f.value} - multiset{f.value} == multiset{};
        return None;
      }
      assert multiset{f.value} + multiset{g.value} == multiset{f.value, g.value};
      return Some((f.value, g.value));
    }

    /** pipealloc's way out, with both files. */
    method GiveUp(f: nat, g: nat)
      requires Valid(multiset{f, g}) && f < NFILE && g < NFILE && f != g && files[f] == File(1, NoFile) == files[g]
      modifies this`files, this`pipes, this`freed
      ensures Valid(multiset{}) && pipes == old(pipes) && freed == old(freed)
      ensures files == old(files)[f := File(0, NoFile)][g := File(0, NoFile)]
    {
      Fileclose(f, multiset{f, g});
      assert multiset{f, g} - multiset{f} == multiset{g};
      Fileclose(g, multiset{g});
      assert multiset{g} - multiset{g} == multiset{};
    }

    /** The rest of sys_pipe: two descriptors, or the two files are closed again. */
    method TwoDescriptors(p: nat, rf: nat, wf: nat, ghost id: nat, ghost before: map<nat, Ends>) returns (r: Option<(nat, nat)>)
      requires Valid(multiset{rf, wf}) && rf < NFILE && wf < NFILE && id !in before && pipes == before[id := Ends(true, true)]
      requires files[rf] == File(1, PipeEnd(id, false)) && files[wf] == File(1, PipeEnd(id, true))
      modifies this`files, this`ofile, this`pipes, this`freed
      ensures Valid(multiset{}) && old(freed) <= freed && LeastTwo(FreeFds(old(ofile), p), r)
      ensures r == None ==> ofile == old(ofile) && pipes == before && files == old(files)[rf := File(0, NoFile)][wf := File(0, NoFile)]
      ensures r.Some? ==> (p, r.value.0) !in old(ofile) && (p, r.value.1) !in old(ofile) && r.value.0 != r.value.1
      ensures r.Some? ==> pipes == old(pipes) && files == old(files) && ofile == old(ofile)[(p, r.value.0) := rf][(p, r.value.1) := wf]
    {
      var fd0 := Fdalloc(p, rf);
      if fd0.Some? {
        var fd1 := Fdalloc(p, wf);
        OneThenOne(FreeFds(old(ofile), p), fd0.value, fd1);
        if fd1.Some? {
          ghost var one := old(ofile)[(p, fd0.value) := rf];
          InstallCounted(files, old(ofile), multiset{rf, wf}, (p, fd0.value), rf);
          assert multiset{rf, wf} - multiset{rf} == multiset{wf};
          InstallCounted(files, one, multiset{wf}, (p, fd1.value), wf);
          assert multiset{wf} - multiset{wf} == multiset{};
          return Some((fd0.value, fd1.value));
        }
        ofile := ofile - {(p, fd0.value)};
        assert ofile == old(ofile);
      }
      CloseBoth(rf, wf, id, before);
      return None;
    }

    /** The two ends of a pipe nobody got: the pipe is gone with the second. */
    method CloseBoth(rf: nat, wf: nat, ghost id: nat, ghost before: map<nat, Ends>)
      requires Valid(multiset{rf, wf}) && rf < NFILE && wf < NFILE && id !in before && pipes == before[id := Ends(true, true)]
      requires files[rf] == File(1, PipeEnd(id, false)) && files[wf] == File(1, PipeEnd(id, true))
      modifies this`files, this`pipes, this`freed
      ensures Valid(multiset{}) && old(freed) <= freed && pipes == before
      ensures files == old(files)[rf := File(0, NoFile)][wf := File(0, NoFile)]
    {
      Fileclose(rf, multiset{rf, wf});
      assert multiset{rf, wf} - multiset{rf} == multiset{wf};
      Fileclose(wf, multiset{wf});
      assert multiset{wf} - multiset{wf} == multiset{};
      assert pipes == before;
    }

    method MakeEnds(f: nat, g: nat)
      requires Valid(multiset{f, g}) && f < NFILE && g < NFILE && f != g && files[f] == File(1, NoFile) == files[g]
      modifies this`files, this`pipes, this`nextPipe
      ensures Valid(multiset{f, g}) && nextPipe == old(nextPipe) + 1 && pipes == old(pipes)[old(nextPipe) := Ends(true, true)]
      ensures files == old(files)[f := File(1, PipeEnd(old(nextPipe), false))][g := File(1, PipeEnd(old(nextPipe), true))]
    {
      assert Once(nextPipe, pipes, freed, nextPipe);
      OpenPiped(files, pipes, f, g, nextPipe);
      KindCounted(files, ofile, multiset{f, g}, f, PipeEnd(nextPipe, false));
      var files1 := files[f := File(1, PipeEnd(nextPipe, false))];
      KindCounted(files1, ofile, multiset{f, g}, g, PipeEnd(nextPipe, true));
      files := files1[g := File(1, PipeEnd(nextPipe, true))];
      pipes := pipes[nextPipe := Ends(true, true)];
      nextPipe := nextPipe + 1;
      forall id: nat ensures Once(id, pipes, freed, nextPipe) { assert Once(id, old(pipes), freed, old(nextPipe)); }
    }

    method SetKind(f: nat, kind: Kind)
      requires Valid(multiset{}) && f < NFILE && files[f].ref > 0 && files[f].kind == NoFile && !kind.PipeEnd?
      modifies this`files
      ensures Valid(multiset{}) && files == old(files)[f := File(old(files)[f].ref, kind)]
    {
      KindCounted(files, ofile, multiset{}, f, kind);
      GonePiped(files, pipes, f);
      SetPiped(files, pipes, f, kind);
      files := files[f := File(files[f].ref, kind)];
    }
  }

  lemma SetPiped(files: seq<File>, pipes: map<nat, Ends>, f: nat, kind: Kind)
    requires Piped(files, pipes) && f < |files| && !files[f].kind.PipeEnd? && !kind.PipeEnd?
    ensures Piped(files[f := File(files[f].ref, kind)], pipes)
  {
    var files' := files[f := File(files[f].ref, kind)];
    forall g: nat ensures EndAt(files', pipes, g) { assert EndAt(files, pipes, g); }
    forall g: nat, h: nat ensures Apart(files', g, h) { assert Apart(files, g, h); }
    forall id: nat ensures PipeAt(files', pipes, id) {
      assert PipeAt(files, pipes, id);
      MoreHas(files, files', PipeEnd(id, false));
      MoreHas(files, files', PipeEnd(id, true));
    }
  }

  lemma GonePiped(files: seq<File>, pipes: map<nat, Ends>, f: nat)
    requires Piped(files, pipes) && f < |files| && !files[f].kind.PipeEnd?
    ensures Piped(files[f := File(0, NoFile)], pipes)
  {
    var files' := files[f := File(0, NoFile)];
    forall g: nat ensures EndAt(files', pipes, g) { assert EndAt(files, pipes, g); }
    forall g: nat, h: nat ensures Apart(files', g, h) { assert Apart(files, g, h); }
    forall id: nat ensures PipeAt(files', pipes, id) {
      assert PipeAt(files, pipes, id);
      OtherHas(files, f, PipeEnd(id, false));
      OtherHas(files, f, PipeEnd(id, true));
    }
  }

  /** A file that is not closed is open on some descriptor, between calls. */
  lemma SomeHolder(files: seq<File>, ofile: Slots, f: nat) returns (s: (nat, nat))
    requires Counted(files, ofile, multiset{}) && f < NFILE && files[f].kind != NoFile
    ensures s in ofile && ofile[s] == f
  {
    assert CountAt(files, ofile, multiset{}, f);
    assert |Holders(ofile, f)| > 0;
    s :| s in Holders(ofile, f);
  }

  /** An end of a pipe is open exactly while some process has a descriptor for it: the
      reader of a pipeline sees the end of its input when the last writer is gone. */
  lemma EndsOpen(files: seq<File>, ofile: Slots, pipes: map<nat, Ends>, id: nat)
    requires Counted(files, ofile, multiset{}) && Piped(files, pipes)
    ensures (id in pipes && pipes[id].writeopen) <==> exists s :: Refers(files, ofile, s, PipeEnd(id, true))
    ensures (id in pipes && pipes[id].readopen) <==> exists s :: Refers(files, ofile, s, PipeEnd(id, false))
  {
    EndOpen(files, ofile, pipes, id, true);
    EndOpen(files, ofile, pipes, id, false);
  }

  lemma EndOpen(files: seq<File>, ofile: Slots, pipes: map<nat, Ends>, id: nat, writable: bool)
    requires Counted(files, ofile, multiset{}) && Piped(files, pipes)
    ensures (id in pipes && if writable then pipes[id].writeopen else pipes[id].readopen)
              <==> exists s :: Refers(files, ofile, s, PipeEnd(id, writable))
  {
    assert PipeAt(files, pipes, id);
    if id in pipes && if writable then pipes[id].writeopen else pipes[id].readopen {
      var f :| 0 <= f < |files| && files[f].kind == PipeEnd(id, writable);
      var s := SomeHolder(files, ofile, f);
      assert Refers(files, ofile, s, PipeEnd(id, writable));
    }
    if s :| Refers(files, ofile, s, PipeEnd(id, writable)) {
      assert EndAt(files, pipes, ofile[s]);
    }
  }

  lemma NothingLeft(files: seq<File>, pipes: map<nat, Ends>)
    requires Counted(files, map[], multiset{}) && Piped(files, pipes)
    ensures pipes == map[] && forall f :: 0 <= f < NFILE ==> files[f] == File(0, NoFile)
  {
    forall f: nat | f < NFILE ensures files[f] == File(0, NoFile) {
      assert CountAt(files, map[], multiset{}, f) && Holders(map[], f) == {};
    }
    forall id: nat ensures id !in pipes { assert PipeAt(files, pipes, id); }
  }

  datatype Op =
    | Open(p: nat, ip: nat) | MakePipe(p: nat, memory: bool) | Dup(p: nat, fd: nat) | CloseFd(p: nat, fd: nat)
    | Fork(p: nat, c: nat) | Exit(p: nat)

  /** Any calls of any processes: counts stay exact, so each end of a pipe is closed once
      and its page freed once. When no descriptor is left, no file and no pipe is. */
  method Session(ops: seq<Op>) returns (t: Files)
    ensures t.Valid(multiset{}) && fresh(t)
    ensures t.ofile == map[] ==> t.pipes == map[] && forall f :: 0 <= f < NFILE ==> t.files[f] == File(0, NoFile)
    ensures t.ofile == map[] ==> forall id: nat :: id in t.freed <==> id < t.nextPipe
  {
    t := new Files();
    for i := 0 to |ops|
      invariant t.Valid(multiset{}) && fresh(t)
    {
      match ops[i]
      case Open(p, ip) => var r := t.SysOpen(p, ip);
      case MakePipe(p, memory) => var r := t.SysPipe(p, memory);
      case Dup(p, fd) => var r := t.SysDup(p, fd);
      case CloseFd(p, fd) => var r := t.SysClose(p, fd);
      case Fork(p, c) =>
        if p != c && forall fd :: 0 <= fd < NOFILE ==> (c, fd) !in t.ofile { t.ForkFiles(p, c); }
      case Exit(p) => t.CloseAll(p);
    }
    if t.ofile == map[] {
      NothingLeft(t.files, t.pipes);
      forall id: nat ensures id in t.freed <==> id < t.nextPipe { assert Once(id, t.pipes, t.freed, t.nextPipe); }
    }
  }
}
