/** log.c itself, over the buffer cache. Each disk write that the code makes is
    recorded as one step of the log machine, so what LogMachine proves of all runs
    holds of every image this code ever leaves on disk. A result false is a panic. */
module RedoLog {
  import opened Blocks
  import opened Options
  import opened BufferCache
  import opened LogMachine
  import Sets

  predicate WritesDisk(step: Step) {
    step.WriteLogBlock? || step.WriteHead? || step.InstallBlock? || step.ClearHead?
  }

  /** The disk images of a run, from its first `past` steps on. */
  function Images(l: Layout, d: Disk, steps: seq<Step>, past: nat): (images: seq<Disk>)
    requires Fits(l, d) && Run(l, d, steps).Some?
  {
    if |steps| <= past then [Run(l, d, steps).value.disk]
    else
      var n := |steps| - 1;
      Images(l, d, steps[..n], past) + if WritesDisk(steps[n]) then [Run(l, d, steps).value.disk] else []
  }

  /** Every image recovers to the first disk with the writes of some operations
      applied: of each operation all the writes it had issued, in order, or none. */
  ghost predicate Sound(l: Layout, d: Disk, steps: seq<Step>, image: Disk)
    requires Recoverable(l, d)
  {
    exists n: nat, ws: seq<Write> ::
      && n <= |steps| && Recoverable(l, image)
      && SameHome(l, Recovered(l, image), Replay(Recovered(l, d), ws))
      && forall op :: Of(ws, op) == [] || Of(ws, op) == Issued(steps[..n], op)
  }

  lemma SoundAt(l: Layout, d: Disk, steps: seq<Step>, n: nat)
    requires Recoverable(l, d) && n <= |steps| && Run(l, d, steps[..n]).Some?
    ensures Sound(l, d, steps, Run(l, d, steps[..n]).value.disk)
  {
    CrashAtomicity(l, d, steps[..n]);
    var ws := Run(l, d, steps[..n]).value.durable;
    assert forall op :: Of(ws, op) == [] || Of(ws, op) == Issued(steps[..n], op);
  }

  lemma SoundLater(l: Layout, d: Disk, steps: seq<Step>, step: Step, image: Disk)
    requires Recoverable(l, d) && Sound(l, d, steps, image)
    ensures Sound(l, d, steps + [step], image)
  {
    var n: nat, ws :|
      && n <= |steps| && Recoverable(l, image)
      && SameHome(l, Recovered(l, image), Replay(Recovered(l, d), ws))
      && forall op :: Of(ws, op) == [] || Of(ws, op) == Issued(steps[..n], op);
    assert (steps + [step])[..n] == steps[..n];
    assert n <= |steps + [step]|;
    assert forall op :: Of(ws, op) == [] || Of(ws, op) == Issued((steps + [step])[..n], op);
  }

  /** Crash atomicity of the code: power may fail after any single disk write. */
  lemma {:induction false} EveryImageSound(l: Layout, d: Disk, steps: seq<Step>, past: nat, i: nat)
    requires Recoverable(l, d) && Run(l, d, steps).Some? && i < |Images(l, d, steps, past)|
    ensures Sound(l, d, steps, Images(l, d, steps, past)[i])
  {
    var image := Images(l, d, steps, past)[i];
    var n := |steps| - 1;
    if |steps| > past && i < |Images(l, d, steps[..n], past)| {
      assert image == Images(l, d, steps[..n], past)[i];
      EveryImageSound(l, d, steps[..n], past, i);
      SoundLater(l, d, steps[..n], steps[n], image);
      assert steps == steps[..n] + [steps[n]];
    } else {
      assert image == Run(l, d, steps).value.disk;
      assert steps[..|steps|] == steps;
      SoundAt(l, d, steps, |steps|);
    }
  }

  /** A run so far: the first disk, where the last power failure was, the steps
      taken, and the state they have led to. */
  datatype Trace = Trace(first: Disk, past: nat, steps: seq<Step>, st: State) {
    function Then(step: Step, next: State): (t: Trace)
      ensures t.Continues(this)
    {
      Trace(first, past, steps + [step], next)
    }

    /** This run goes on where t was. */
    predicate Continues(t: Trace) {
      first == t.first && past == t.past && t.steps <= steps
    }
  }

  /** t is a run of the log machine, and since its last power failure the disk has
      had just the images of that run. (Bound to a layout w, so that only proofs that
      speak of Run unfold the run.) */
  ghost predicate IsTrace(l: Layout, t: Trace, images: seq<Disk>) {
    && t.past <= |t.steps| && NoCrash(t.steps, t.past) && (forall w {:trigger Recoverable(w, t.first)} :: w == l ==> Recoverable(w, t.first))
    && forall w {:trigger Run(w, t.first, t.steps)} :: w == l ==>
         && Fits(w, t.first) && Run(w, t.first, t.steps) == Some(t.st)
         && images == Images(w, t.first, t.steps, t.past)
  }

  lemma TraceIsRun(l: Layout, t: Trace, images: seq<Disk>)
    requires IsTrace(l, t, images)
    ensures Recoverable(l, t.first) && Run(l, t.first, t.steps) == Some(t.st)
    ensures images == Images(l, t.first, t.steps, t.past)
  {
    assert Recoverable(l, t.first);
    assert Run(l, t.first, t.steps) == Some(t.st);
  }

  lemma TraceInv(l: Layout, t: Trace, images: seq<Disk>)
    requires IsTrace(l, t, images)
    ensures Recoverable(l, t.first) && Inv(l, Recovered(l, t.first), t.st)
    ensures Fits(l, t.st.disk) && GoodHead(l, t.st.lh)
  {
    TraceIsRun(l, t, images);
    RunInv(l, t.first, t.steps);
  }

  lemma TraceFits(l: Layout, t: Trace, images: seq<Disk>)
    requires IsTrace(l, t, images)
    ensures Fits(l, t.st.disk) && GoodHead(l, t.st.lh)
  {
    TraceInv(l, t, images);
  }

  lemma TraceStep(l: Layout, t: Trace, images: seq<Disk>, step: Step)
    requires IsTrace(l, t, images) && Fits(l, t.st.disk) && Enabled(l, t.st, step) && step != Crash
    ensures var next := Apply(l, t.st, step);
            IsTrace(l, t.Then(step, next), images + if WritesDisk(step) then [next.disk] else [])
  {
    TraceIsRun(l, t, images);
    RunOne(l, t.first, t.steps, step);
    assert (t.steps + [step])[..|t.steps|] == t.steps;
  }

  /** Every operation that began after the last power failure is durable: all the writes
      it issued. */
  ghost predicate AllDurable(l: Layout, t: Trace) {
    forall w, op {:trigger BegunAfter(w, t.first, t.steps, t.past, op)} ::
      w == l && Fits(w, t.first) && BegunAfter(w, t.first, t.steps, t.past, op) ==> Of(t.st.durable, op) == Issued(t.steps, op)
  }

  /** With no operation active and no commit under way. */
  lemma TraceDurable(l: Layout, t: Trace, images: seq<Disk>)
    requires IsTrace(l, t, images) && t.st.phase.Running? && t.st.active == map[]
    ensures AllDurable(l, t)
  {
    TraceIsRun(l, t, images);
    forall op | BegunAfter(l, t.first, t.steps, t.past, op) ensures Of(t.st.durable, op) == Issued(t.steps, op) {
      QuiescentIsDurable(l, t.first, t.steps, t.past, op);
    }
  }

  /** In particular an operation that was active earlier in the same run. */
  lemma ActiveDurable(l: Layout, t: Trace, images: seq<Disk>, t': Trace, images': seq<Disk>, op: nat)
    requires IsTrace(l, t, images) && op in t.st.active && IsTrace(l, t', images') && t'.Continues(t)
    requires t'.st.phase.Running? && t'.st.active == map[]
    ensures Of(t'.st.durable, op) == Issued(t'.steps, op)
  {
    TraceIsRun(l, t, images);
    TraceIsRun(l, t', images');
    TraceInv(l, t', images');
    RunWhole(l, t.first, t.steps, op);
    assert t'.steps[..|t.steps|] == t.steps;
    RunComplete(l, t.first, t'.steps, |t.steps|, op);
  }

  lemma LogStep(l: Layout, base: Disk, st: State, k: nat, d: Disk, pinned: map<nat, Block>)
    requires Inv(l, base, st) && st.phase == Logging(k) && k < |st.lh|
    requires l.start + k + 1 < |st.disk| && st.lh[k] < |st.disk|
    requires d == st.disk[l.start + k + 1 := Current(st.disk, st.pinned, st.lh[k])]
    requires pinned == Unpin(st.pinned, l.start + k + 1)
    ensures Fits(l, st.disk) && Enabled(l, st, WriteLogBlock) && pinned == st.pinned
    ensures Apply(l, st, WriteLogBlock) == st.(disk := d, phase := Logging(k + 1))
  {
    assert l.start + k + 1 !in st.pinned;
    assert Apply(l, st, WriteLogBlock) == DoWriteLogBlock(l, st, k);
  }

  lemma HomeStep(l: Layout, base: Disk, st: State, k: nat, d: Disk, pinned: map<nat, Block>)
    requires Inv(l, base, st) && st.phase == Installing(k) && k < |st.lh|
    requires l.start + k + 1 < |st.disk| && st.lh[k] < |st.disk|
    requires d == st.disk[st.lh[k] := Current(st.disk, st.pinned, l.start + k + 1)]
    requires pinned == Unpin(st.pinned, st.lh[k])
    ensures Fits(l, st.disk) && Enabled(l, st, InstallBlock)
    ensures Apply(l, st, InstallBlock) == st.(disk := d, pinned := pinned, phase := Installing(k + 1))
  {
    assert l.start + k + 1 !in st.pinned;
    UnpinMinus(st.pinned, st.lh[k]);
    assert Apply(l, st, InstallBlock) == DoInstallBlock(l, st, k);
  }

  /** write_log copies one block: it is pinned, its log slot is not, and this is one
      step of the machine. */
  lemma CopiedToLog(l: Layout, t: Trace, images: seq<Disk>, k: nat, from: nat, to: nat, d: Disk, pinned: map<nat, Block>) returns (t': Trace)
    requires IsTrace(l, t, images) && t.st.phase == Logging(k) && k < |t.st.lh| && from == t.st.lh[k] && to == l.start + k + 1
    requires to < |t.st.disk| && from < |t.st.disk|
    requires d == t.st.disk[to := Current(t.st.disk, t.st.pinned, from)] && pinned == Unpin(t.st.pinned, to)
    ensures pinned == t.st.pinned && IsTrace(l, t', images + [d]) && t'.Continues(t)
    ensures t'.st == t.st.(disk := d, phase := Logging(k + 1))
  {
    TraceLogs(l, t, images, k, from, to, d, pinned);
    TraceStep(l, t, images, WriteLogBlock);
    t' := t.Then(WriteLogBlock, t.st.(disk := d, phase := Logging(k + 1)));
  }

  lemma TraceLogs(l: Layout, t: Trace, images: seq<Disk>, k: nat, from: nat, to: nat, d: Disk, pinned: map<nat, Block>)
    requires IsTrace(l, t, images) && t.st.phase == Logging(k) && k < |t.st.lh| && from == t.st.lh[k] && to == l.start + k + 1
    requires to < |t.st.disk| && from < |t.st.disk|
    requires d == t.st.disk[to := Current(t.st.disk, t.st.pinned, from)] && pinned == Unpin(t.st.pinned, to)
    ensures Fits(l, t.st.disk) && Enabled(l, t.st, WriteLogBlock) && pinned == t.st.pinned
    ensures Apply(l, t.st, WriteLogBlock) == t.st.(disk := d, phase := Logging(k + 1))
  {
    TraceIsRun(l, t, images);
    LogStepOfRun(l, t.first, t.steps, t.st, k, from, to, d, pinned);
  }

  lemma LogStepOfRun(l: Layout, first: Disk, steps: seq<Step>, st: State, k: nat, from: nat, to: nat, d: Disk, pinned: map<nat, Block>)
    requires Recoverable(l, first) && Fits(l, first) && Run(l, first, steps) == Some(st)
    requires st.phase == Logging(k) && k < |st.lh| && from == st.lh[k] && to == l.start + k + 1
    requires to < |st.disk| && from < |st.disk|
    requires d == st.disk[to := Current(st.disk, st.pinned, from)] && pinned == Unpin(st.pinned, to)
    ensures Fits(l, st.disk) && Enabled(l, st, WriteLogBlock) && pinned == st.pinned
    ensures Apply(l, st, WriteLogBlock) == st.(disk := d, phase := Logging(k + 1))
  {
    RunInv(l, first, steps);
    LogStep(l, Recovered(l, first), st, k, d, pinned);
  }

  /** install_trans copies one block: its log slot on disk is current, and this is
      one step of the machine. */
  lemma CopiedHome(l: Layout, t: Trace, images: seq<Disk>, k: nat, d: Disk, pinned: map<nat, Block>)
    requires IsTrace(l, t, images) && t.st.phase == Installing(k) && k < |t.st.lh|
    requires l.start + k + 1 < |t.st.disk| && t.st.lh[k] < |t.st.disk|
    requires d == t.st.disk[t.st.lh[k] := Current(t.st.disk, t.st.pinned, l.start + k + 1)]
    requires pinned == Unpin(t.st.pinned, t.st.lh[k])
    ensures IsTrace(l, t.Then(InstallBlock, t.st.(disk := d, pinned := pinned, phase := Installing(k + 1))), images + [d])
  {
    TraceInv(l, t, images);
    HomeStep(l, Recovered(l, t.first), t.st, k, d, pinned);
    TraceStep(l, t, images, InstallBlock);
  }

  /** While the log is written, its blocks are not pinned and those of log.lh are. */
  lemma LogNotPinned(l: Layout, t: Trace, images: seq<Disk>, k: nat)
    requires IsTrace(l, t, images) && t.st.phase.Logging? && k < |t.st.lh|
    ensures l.start + k + 1 !in t.st.pinned && t.st.lh[k] in t.st.pinned && l.start + k + 1 < |t.st.disk| && t.st.lh[k] < |t.st.disk|
  {
    TraceInv(l, t, images);
  }

  lemma AllPinned(l: Layout, t: Trace, images: seq<Disk>)
    requires IsTrace(l, t, images) && t.st.phase.Logging?
    ensures forall i :: 0 <= i < |t.st.lh| ==> t.st.lh[i] in t.st.pinned
  {
    forall i | 0 <= i < |t.st.lh| ensures t.st.lh[i] in t.st.pinned { LogNotPinned(l, t, images, i); }
  }

  lemma PinnedInHead(l: Layout, t: Trace, images: seq<Disk>)
    requires IsTrace(l, t, images)
    ensures |t.st.pinned.Keys| <= |t.st.lh| && (t.st.phase == Down ==> t.st.lh == [])
  {
    TraceInv(l, t, images);
    KeysInHead(l, Recovered(l, t.first), t.st);
    DistinctKeys(t.st.lh, t.st.pinned.Keys);
  }

  lemma KeysInHead(l: Layout, base: Disk, s: State)
    requires Inv(l, base, s)
    ensures Sets.Distinct(s.lh) && (forall b :: b in s.pinned.Keys ==> b in s.lh) && (s.phase == Down ==> s.lh == [])
  {
  }

  lemma DistinctKeys(lh: seq<nat>, keys: set<nat>)
    requires Sets.Distinct(lh) && forall b :: b in keys ==> b in lh
    ensures |keys| <= |lh|
  {
    Sets.DistinctSize(lh);
    Sets.SubsetSize(keys, Sets.Elements(lh));
  }

  lemma HomePinned(l: Layout, t: Trace, images: seq<Disk>, k: nat)
    requires IsTrace(l, t, images) && t.st.phase.Installing? && k < |t.st.lh|
    ensures l.start + k + 1 !in t.st.pinned && l.start + k + 1 < |t.st.disk| && t.st.lh[k] < |t.st.disk|
  {
    TraceInv(l, t, images);
  }

  lemma HeadFree(l: Layout, t: Trace, images: seq<Disk>)
    requires IsTrace(l, t, images) && !t.st.phase.Running?
    ensures Fits(l, t.st.disk) && l.start !in t.st.pinned
  {
    TraceInv(l, t, images);
  }

  /** write_head in commit: the header goes on disk, and all that was pending is durable. */
  lemma HeadWritten(l: Layout, t: Trace, images: seq<Disk>, d: Disk, pinned: map<nat, Block>)
    requires IsTrace(l, t, images) && t.st.phase == Logging(|t.st.lh|) && t.st.lh != []
    requires Fits(l, t.st.disk) && GoodHead(l, t.st.lh)
    requires l.start < |t.st.disk| && pinned == Unpin(t.st.pinned, l.start)
    requires d == t.st.disk[l.start := PutHead(Current(t.st.disk, t.st.pinned, l.start), t.st.lh, |t.st.lh|)]
    ensures pinned == t.st.pinned
    ensures IsTrace(l, t.Then(Step.WriteHead, t.st.(disk := d, phase := Installing(0), pending := [],
                                                    durable := t.st.durable + t.st.pending)), images + [d])
  {
    HeadFree(l, t, images);
    assert Apply(l, t.st, Step.WriteHead) == DoWriteHead(l, t.st);
    TraceStep(l, t, images, Step.WriteHead);
  }

  /** write_head with an empty log.lh: the header is cleared. */
  lemma HeadCleared(l: Layout, t: Trace, images: seq<Disk>, d: Disk, pinned: map<nat, Block>)
    requires IsTrace(l, t, images) && t.st.phase == Installing(|t.st.lh|)
    requires l.start < |t.st.disk| && pinned == Unpin(t.st.pinned, l.start)
    requires d == t.st.disk[l.start := PutHead(Current(t.st.disk, t.st.pinned, l.start), [], 0)]
    ensures pinned == t.st.pinned
    ensures IsTrace(l, t.Then(ClearHead, t.st.(disk := d, lh := [], phase := Cleared)), images + [d])
  {
    HeadFree(l, t, images);
    assert Apply(l, t.st, ClearHead) == DoClearHead(l, t.st);
    TraceStep(l, t, images, ClearHead);
  }

  lemma ActiveMeansRunning(l: Layout, t: Trace, images: seq<Disk>)
    requires IsTrace(l, t, images) && t.st.active != map[]
    ensures t.st.phase.Running? && Fits(l, t.st.disk) && GoodHead(l, t.st.lh)
  {
    TraceInv(l, t, images);
  }

  lemma TraceFresh(l: Layout, t: Trace, images: seq<Disk>)
    requires IsTrace(l, t, images)
    ensures t.st.nextOp !in t.st.active
  {
    TraceInv(l, t, images);
  }

  lemma Began(l: Layout, t: Trace, images: seq<Disk>)
    requires IsTrace(l, t, images) && t.st.phase.Running?
    requires |t.st.lh| + (|t.st.active| + 1) * MAXOPBLOCKS <= LOGSIZE
    ensures var next := t.st.(active := t.st.active[t.st.nextOp := {}], nextOp := t.st.nextOp + 1);
            IsTrace(l, t.Then(Begin, next), images) && |next.active| == |t.st.active| + 1
  {
    TraceFits(l, t, images);
    TraceFresh(l, t, images);
    TraceStep(l, t, images, Begin);
    assert images + [] == images;
  }

  lemma Logged(l: Layout, t: Trace, images: seq<Disk>, w: Write)
    requires IsTrace(l, t, images) && w.op in t.st.active && l.Home(w.block) && HasRoom(l, t.st)
    ensures IsTrace(l, t.Then(Step.LogWrite(w), DoLogWrite(t.st, w)), images)
    ensures |DoLogWrite(t.st, w).active| == |t.st.active|
  {
    ActiveMeansRunning(l, t, images);
    assert Apply(l, t.st, Step.LogWrite(w)) == DoLogWrite(t.st, w);
    TraceStep(l, t, images, Step.LogWrite(w));
    assert images + [] == images;
    assert DoLogWrite(t.st, w).active.Keys == t.st.active.Keys;
  }

  lemma Ended(l: Layout, t: Trace, images: seq<Disk>, op: nat)
    requires IsTrace(l, t, images) && op in t.st.active
    ensures IsTrace(l, t.Then(End(op), DoEnd(t.st, op)), images)
    ensures |DoEnd(t.st, op).active| == |t.st.active| - 1
    ensures DoEnd(t.st, op).phase == if |t.st.active| == 1 then Logging(0) else Running
  {
    ActiveMeansRunning(l, t, images);
    assert Apply(l, t.st, End(op)) == DoEnd(t.st, op);
    TraceStep(l, t, images, End(op));
    assert images + [] == images;
    assert (t.st.active - {op}).Keys == t.st.active.Keys - {op};
  }

  lemma Finished(l: Layout, t: Trace, images: seq<Disk>)
    requires IsTrace(l, t, images) && t.st.lh == [] && (t.st.phase == Cleared || t.st.phase == Logging(0))
    ensures IsTrace(l, t.Then(Finish, t.st.(phase := Running)), images) && t.st.active == map[]
  {
    TraceInv(l, t, images);
    TraceStep(l, t, images, Finish);
    assert images + [] == images;
  }

  lemma HeadRead(l: Layout, t: Trace, images: seq<Disk>)
    requires IsTrace(l, t, images) && t.st.phase == Down
    ensures Fits(l, t.st.disk) && HeadCount(l, t.st.disk) <= LOGSIZE && t.st.pinned == map[]
    ensures IsTrace(l, t.Then(Step.ReadHead, t.st.(lh := Head(l, t.st.disk), phase := Installing(0))), images)
  {
    TraceInv(l, t, images);
    TraceStep(l, t, images, Step.ReadHead);
    assert images + [] == images;
  }

  // ------------------------------------------- when commit has the buffers it needs

  /** Reading blocks lo to hi, one at a time, does not run out of buffers. */
  predicate Roomy(r: Room, lo: nat, hi: nat) {
    r.idle > 0 || forall x: nat :: lo <= x <= hi ==> x in r.refs
  }

  lemma RoomyFrom(r: Room, lo: nat, hi: nat)
    requires lo <= hi
    ensures Roomy(r, lo, hi) <==> (r.idle > 0 || lo in r.refs) && Roomy(r, lo + 1, hi)
  {
  }

  lemma RoomyGrew(r: Room, r': Room, lo: nat, hi: nat)
    requires Roomy(r, lo, hi) && Grew(r, r')
    ensures Roomy(r', lo, hi)
  {
  }

  /** Nor does installing blocks that are still in memory. */
  ghost predicate Ready(r: Room, l: Layout, lh: seq<nat>, pinned: map<nat, Block>) {
    Roomy(r, l.start, l.start + |lh|) && forall i :: 0 <= i < |lh| ==> lh[i] in pinned
  }

  /** What was pinned of lh from k on still is. */
  ghost predicate StillPinned(lh: seq<nat>, pinned: map<nat, Block>, pinned': map<nat, Block>, k: nat) {
    forall i :: k <= i < |lh| && lh[i] in pinned ==> lh[i] in pinned'
  }

  lemma StillPinnedNext(l: Layout, t: Trace, images: seq<Disk>, pinned: map<nat, Block>, k: nat)
    requires IsTrace(l, t, images) && k < |t.st.lh| && StillPinned(t.st.lh, t.st.pinned, pinned, k)
    ensures StillPinned(t.st.lh, t.st.pinned, Unpin(pinned, t.st.lh[k]), k + 1)
  {
    TraceFits(l, t, images);
  }

  lemma ReadyAt(r: Room, r': Room, l: Layout, lh: seq<nat>, pinned: map<nat, Block>, pinned': map<nat, Block>, k: nat)
    requires Ready(r, l, lh, pinned) && Grew(r, r') && StillPinned(lh, pinned, pinned', k) && k < |lh|
    ensures lh[k] in pinned' && Roomy(r', l.start, l.start + |lh|)
  {
  }

  /** No process holds a buffer of the blocks in lh or of the log itself. */
  ghost predicate QuietIn(r: Room, l: Layout, lh: seq<nat>) {
    forall x: nat :: x in lh || l.start <= x < l.start + l.size ==> x !in r.locks
  }

  lemma LogReady(l: Layout, t: Trace, images: seq<Disk>, r: Room, k: nat, from: nat, to: nat)
    requires IsTrace(l, t, images) && t.st.phase.Logging? && k < |t.st.lh| && QuietIn(r, l, t.st.lh)
    requires from == t.st.lh[k] && to == l.start + k + 1
    ensures MayCopyOut(Out(r, t.st.pinned, |t.st.disk|, to, from))
  {
    TraceFits(l, t, images);
    LogNotPinned(l, t, images, k);
    assert OutIs(Out(r, t.st.pinned, |t.st.disk|, l.start + k + 1, t.st.lh[k]));
  }

  lemma HomeReady(l: Layout, t: Trace, images: seq<Disk>, r: Room, k: nat)
    requires IsTrace(l, t, images) && t.st.phase.Installing? && k < |t.st.lh| && QuietIn(r, l, t.st.lh)
    ensures l.start + k + 1 !in t.st.pinned && l.start + k + 1 < |t.st.disk| && t.st.lh[k] < |t.st.disk| && t.st.lh[k] != l.start + k + 1
    ensures l.start + k + 1 !in r.locks && t.st.lh[k] !in r.locks
  {
    TraceFits(l, t, images);
    HomePinned(l, t, images, k);
  }

  class Log {
    const cache: Cache
    const l: Layout              // log.start, log.size
    const block: array<nat>      // log.lh.block
    var n: nat                   // log.lh.n
    var outstanding: int
    var committing: bool

    /** The fields and the cache are where run t has led. */
    ghost predicate Valid(t: Trace)
      reads this, block, cache, cache.bufs, cache.next, cache.prev
    {
      && block.Length == LOGSIZE && block != cache.next && block != cache.prev && cache.Valid()
      && IsTrace(l, t, cache.images)
      && t.st.disk == cache.disk && t.st.pinned == cache.pinned
      && n <= LOGSIZE && t.st.lh == block[..n] && outstanding == |t.st.active|
      && (t.st.phase.Running? ==> !committing)
    }

    /** All that a panic leaves to rely on: the disk is where run t has led. */
    ghost predicate Traced(t: Trace)
      reads this, cache
    {
      IsTrace(l, t, cache.images) && t.st.disk == cache.disk
    }

    ghost predicate Quiet(lh: seq<nat>)
      reads this, cache, cache.bufs
    {
      QuietIn(cache.Space(), l, lh)
    }

    /** Power comes back, after any earlier run: memory is empty, the disk is what
        that run left. */
    constructor (c: Cache, layout: Layout, ghost d0: Disk, ghost earlier: seq<Step>)
      requires c.Valid() && c.images == [c.disk] && c.pinned == map[]
      requires forall i :: 0 <= i < c.bufs.Length ==> !c.bufs[i].locked
      requires Recoverable(layout, d0) && Run(layout, d0, earlier).Some?
      requires Run(layout, d0, earlier).value.disk == c.disk
      ensures cache == c && l == layout && fresh(block) && !committing && cache.Space().locks == {}
      ensures var s := Run(layout, d0, earlier).value;
              Valid(Trace(d0, |earlier| + 1, earlier + [Crash], DoCrash(s)))
    {
      cache, l := c, layout;
      block := new nat[LOGSIZE];
      n, outstanding, committing := 0, 0, false;
      new;
      RebootTrace(l, d0, earlier);
    }

    /** The room in the cache is r, and nobody holds the blocks that commit is about. */
    ghost predicate Calm(r: Room, lh: seq<nat>)
      reads this, cache, cache.bufs
    {
      Counts(cache.bufs[..], r) && QuietIn(r, l, lh)
    }

    method CopyToLog(tail: nat, ghost t: Trace, ghost r: Room) returns (ok: bool, ghost t': Trace, ghost r': Room)
      requires Valid(t) && Calm(r, t.st.lh) && t.st.phase == Logging(tail) && tail < n
      modifies cache, cache.bufs, cache.next, cache.prev
      ensures Valid(t') && t'.Continues(t) && t'.st.lh == t.st.lh
      ensures ok ==> Calm(r', t.st.lh) && t'.st.phase == Logging(tail + 1) && t'.st.pinned == t.st.pinned
      ensures ok <==> r.idle > 0 || l.start + tail + 1 in r.refs
      ensures ok ==> Grew(r, r') && (r.idle == 0 ==> r'.idle == 0)
    {
      var from, to := block[tail], l.start + tail + 1;
      ghost var images := cache.images;
      LogReady(l, t, images, r, tail, from, to);
      t' := t;
      ok, r' := cache.CopyOut(to, from, r);
      if ok { t' := CopiedToLog(l, t, images, tail, from, to, cache.disk, cache.pinned); }
    }

    method CopyHome(tail: nat, ghost t: Trace, ghost r: Room) returns (ok: bool, ghost t': Trace, ghost r': Room)
      requires Valid(t) && Calm(r, t.st.lh) && t.st.phase == Installing(tail) && tail < n
      modifies cache, cache.bufs, cache.next, cache.prev
      ensures Valid(t') && t'.Continues(t) && t'.st.lh == t.st.lh
      ensures ok ==> Calm(r', t.st.lh) && t'.st.phase == Installing(tail + 1) && t'.st.pinned == Unpin(t.st.pinned, t.st.lh[tail])
      ensures r.idle >= 2 ==> ok
      ensures t.st.lh[tail] in t.st.pinned && Roomy(r, l.start, l.start + n) ==> ok
      ensures ok ==> Grew(r, r')
    {
      assert t.st.lh[tail] == block[tail];
      HomeReady(l, t, cache.images, r, tail);
      t' := t;
      ok, r' := cache.CopyBack(block[tail], l.start + tail + 1, r);
      if !ok { return; }
      CopiedHome(l, t, old(cache.images), tail, cache.disk, cache.pinned);
      t' := t.Then(InstallBlock, t.st.(disk := cache.disk, pinned := cache.pinned, phase := Installing(tail + 1)));
    }

    /** write_log: copy the modified blocks from the cache to the log. */
    method WriteLog(ghost t: Trace, ghost r: Room) returns (ok: bool, ghost t': Trace, ghost r': Room)
      requires Valid(t) && Calm(r, t.st.lh) && t.st.phase == Logging(0)
      modifies cache, cache.bufs, cache.next, cache.prev
      ensures Valid(t') && t'.Continues(t) && t'.st.lh == t.st.lh
      ensures ok ==> Calm(r', t.st.lh) && t'.st.phase == Logging(n) && t'.st.pinned == t.st.pinned
      ensures ok <==> Roomy(r, l.start + 1, l.start + n)
      ensures ok ==> Grew(r, r') && (r.idle == 0 ==> r'.idle == 0)
    {
      t', r' := t, r;
      for tail := 0 to n
        invariant Valid(t') && t'.Continues(t) && t'.st.lh == t.st.lh && Calm(r', t.st.lh) && t'.st.phase == Logging(tail)
        invariant Grew(r, r') && (r.idle == 0 ==> r'.idle == 0) && t'.st.pinned == t.st.pinned
        invariant Roomy(r, l.start + 1, l.start + tail)
      {
        ok, t', r' := CopyToLog(tail, t', r');
        if !ok { return; }
      }
      ok := true;
    }

    /** install_trans: copy the committed blocks from the log home. */
    method InstallTrans(ghost t: Trace, ghost r: Room) returns (ok: bool, ghost t': Trace, ghost r': Room)
      requires Valid(t) && Calm(r, t.st.lh) && t.st.phase == Installing(0)
      modifies cache, cache.bufs, cache.next, cache.prev
      ensures Valid(t') && t'.Continues(t) && t'.st.lh == t.st.lh
      ensures ok ==> Calm(r', t.st.lh) && t'.st.phase == Installing(n) && Grew(r, r')
      ensures r.idle >= 2 || Ready(r, l, t.st.lh, t.st.pinned) ==> ok
    {
      t', r' := t, r;
      ghost var images := cache.images;
      for tail := 0 to n
        invariant Valid(t') && t'.Continues(t) && t'.st.lh == t.st.lh && Calm(r', t.st.lh) && t'.st.phase == Installing(tail)
        invariant Grew(r, r') && StillPinned(t.st.lh, t.st.pinned, t'.st.pinned, tail)
      {
        ghost var pinned := t'.st.pinned;
        if Ready(r, l, t.st.lh, t.st.pinned) { ReadyAt(r, r', l, t.st.lh, t.st.pinned, pinned, tail); }
        StillPinnedNext(l, t, images, pinned, tail);
        ok, t', r' := CopyHome(tail, t', r');
        if !ok { return; }
      }
      ok := true;
    }

    /** write_head: store log.lh in the header block. */
    method WriteHead(ghost r: Room) returns (ok: bool, ghost r': Room)
      requires cache.Valid() && block.Length == LOGSIZE && block != cache.next && block != cache.prev
      requires n <= LOGSIZE && (forall i :: 0 <= i < n ==> block[i] < WORD_LIMIT) && Counts(cache.bufs[..], r) && l.start !in r.locks
      modifies cache, cache.bufs, cache.next, cache.prev
      ensures cache.Valid()
      ensures !ok ==> cache.disk == old(cache.disk) && cache.images == old(cache.images) && cache.pinned == old(cache.pinned)
      ensures ok ==>
        && l.start < |old(cache.disk)| && cache.images == old(cache.images) + [cache.disk]
        && cache.disk == old(cache.disk)[l.start :=
             PutHead(Current(old(cache.disk), old(cache.pinned), l.start), block[..n], n)]
        && cache.pinned == Unpin(old(cache.pinned), l.start)
      ensures ok <==> l.start < |old(cache.disk)| && (r.idle > 0 || l.start in r.refs || l.start in old(cache.pinned))
      ensures ok ==> Counts(cache.bufs[..], r') && Grew(r, r')
    {
      ghost var b0 := cache.bufs[..];
      var b, h;
      r' := r;
      ok, b, h := cache.Fetch(l.start, r);
      if !ok { return; }
      ghost var was := h;
      h := SetWord(h, 0, n);
      for i := 0 to n
        invariant h == PutHead(was, block[..n], i)
      {
        h := SetWord(h, i + 1, block[i]);
      }
      r' := cache.Store(b, h, l.start, b0, r);
    }

    /** The commit point. */
    method CommitHead(ghost t: Trace, ghost r: Room) returns (ok: bool, ghost t': Trace, ghost r': Room)
      requires Valid(t) && Calm(r, t.st.lh) && t.st.phase == Logging(n) && n > 0
      modifies cache, cache.bufs, cache.next, cache.prev
      ensures Valid(t') && t'.Continues(t) && t'.st.lh == t.st.lh
      ensures ok ==> Calm(r', t.st.lh) && t'.st.phase == Installing(0) && t'.st.pinned == t.st.pinned && Grew(r, r')
      ensures ok <==> r.idle > 0 || l.start in r.refs
    {
      TraceFits(l, t, cache.images);
      HeadFree(l, t, cache.images);
      t' := t;
      ok, r' := WriteHead(r);
      if !ok { return; }
      HeadWritten(l, t, old(cache.images), cache.disk, cache.pinned);
      t' := t.Then(Step.WriteHead, t.st.(disk := cache.disk, phase := Installing(0), pending := [],
                                         durable := t.st.durable + t.st.pending));
    }

    /** log.lh.n = 0; write_head(): erase the transaction from the log. */
    method EraseHead(ghost t: Trace, ghost r: Room) returns (ok: bool, ghost t': Trace)
      requires Valid(t) && Calm(r, t.st.lh) && t.st.phase == Installing(n)
      modifies this`n, cache, cache.bufs, cache.next, cache.prev
      ensures Traced(t') && t'.Continues(t)
      ensures ok ==> Valid(t') && t'.st.lh == [] && t'.st.phase == Cleared && n == 0
      ensures ok <==> r.idle > 0 || l.start in r.refs
    {
      TraceFits(l, t, cache.images);
      HeadFree(l, t, cache.images);
      t' := t;
      n := 0;
      ghost var r';
      ok, r' := WriteHead(r);
      if !ok { return; }
      assert block[..n] == [];
      HeadCleared(l, t, old(cache.images), cache.disk, cache.pinned);
      t' := t.Then(ClearHead, t.st.(disk := cache.disk, lh := [], phase := Cleared));
    }

    /** The first half of commit, up to the commit point. */
    method WriteToLog(ghost t: Trace, ghost r: Room) returns (ok: bool, ghost t': Trace, ghost r': Room)
      requires Valid(t) && Calm(r, t.st.lh) && t.st.phase == Logging(0) && n > 0
      modifies cache, cache.bufs, cache.next, cache.prev
      ensures Valid(t') && t'.Continues(t) && t'.st.lh == t.st.lh
      ensures ok ==> Calm(r', t.st.lh) && t'.st.phase == Installing(0) && Ready(r', l, t.st.lh, t'.st.pinned)
      ensures ok <==> Roomy(r, l.start, l.start + n)
    {
      RoomyFrom(r, l.start, l.start + n);
      ok, t', r' := WriteLog(t, r);
      if !ok { return; }
      AllPinned(l, t', cache.images);
      ok, t', r' := CommitHead(t', r');
      if ok { RoomyGrew(r, r', l.start, l.start + n); }
    }

    /** commit: log, header, home, clear; nothing at all for an empty group. It panics just
        when no buffer is idle and it needs one for a block of the log. */
    method Commit(ghost t: Trace, ghost r: Room) returns (ok: bool, ghost t': Trace)
      requires Valid(t) && Calm(r, t.st.lh) && t.st.phase == Logging(0)
      modifies this`n, cache, cache.bufs, cache.next, cache.prev
      ensures Traced(t') && t'.Continues(t)
      ensures ok ==> Valid(t') && t'.st.lh == [] && t'.st.phase in {Cleared, Logging(0)}
      ensures ok <==> old(n) == 0 || Roomy(r, l.start, l.start + old(n))
    {
      ok, t' := true, t;
      if n > 0 {
        ghost var r';
        ok, t', r' := WriteToLog(t', r);
        if !ok { return; }
        ok, t', r' := InstallTrans(t', r');
        RoomyFrom(r', l.start, l.start + n);
        ok, t' := EraseHead(t', r');
      }
    }

    /** begin_op: start an operation, numbered t.st.nextOp, or (false) sleep and try again. */
    method BeginOp(ghost t: Trace) returns (started: bool, ghost t': Trace)
      requires Valid(t) && (t.st.phase.Running? || committing)
      modifies this`outstanding
      ensures Valid(t') && t'.Continues(t)
      ensures started <==> !committing && n + (old(outstanding) + 1) * MAXOPBLOCKS <= LOGSIZE
      ensures started ==> t'.st.active == t.st.active[t.st.nextOp := {}] && outstanding == old(outstanding) + 1
      ensures !started ==> t' == t
    {
      t' := t;
      if committing || n + (outstanding + 1) * MAXOPBLOCKS > LOGSIZE {
        return false, t;
      }
      Began(l, t, cache.images);
      outstanding := outstanding + 1;
      t' := t.Then(Begin, t.st.(active := t.st.active[t.st.nextOp := {}], nextOp := t.st.nextOp + 1));
      started := true;
    }

    /** log_write of a held, changed buffer by operation op. False: "too big a transaction",
        or a call outside of every operation. */
    method LogWrite(b: nat, ghost op: nat, ghost t: Trace) returns (ok: bool, ghost t': Trace)
      requires Valid(t) && (t.st.active != map[] ==> op in t.st.active)
      requires b < NBUF && cache.bufs[b].locked && cache.bufs[b].valid && l.Home(cache.bufs[b].blockno)
      modifies this`n, block, cache, cache.bufs
      ensures Traced(t') && t'.Continues(t)
      ensures ok <==> old(n) < LOGSIZE && old(n) < l.size - 1 && InOperation(outstanding)
      ensures !ok ==> t' == t
      ensures ok ==>
        var w := Write(op, old(cache.bufs[b].blockno), old(cache.bufs[b].data));
        Valid(t') && t' == t.Then(Step.LogWrite(w), DoLogWrite(t.st, w))
    {
      t' := t;
      if n >= LOGSIZE || n >= l.size - 1 {
        return false, t;
      }
      if !InOperation(outstanding) {
        return false, t;
      }
      ghost var w := Write(op, cache.bufs[b].blockno, cache.bufs[b].data);
      Logged(l, t, cache.images, w);
      AbsorbBlock(cache.bufs[b].blockno);
      cache.Pin(b);
      t' := t.Then(Step.LogWrite(w), DoLogWrite(t.st, w));
      ok := true;
    }

    /** The search for the block in log.lh, and its absorption. */
    method AbsorbBlock(x: nat)
      requires block.Length == LOGSIZE && n < LOGSIZE
      modifies this`n, block
      ensures n <= LOGSIZE && block[..n] == Absorb(old(block[..n]), x)
    {
      var i := 0;
      while i < n && block[i] != x
        invariant i <= n && x !in block[..i]
      {
        i := i + 1;
      }
      block[i] := x;
      if i == n {
        n := n + 1;
      }
    }

    /** end_op: the last operation of a group commits it. The test of log.committing
        never fails. False: a panic of the buffer cache during commit. */
    method EndOp(ghost op: nat, ghost t: Trace) returns (ok: bool, ghost t': Trace)
      requires Valid(t) && op in t.st.active
      requires outstanding == 1 ==> Quiet(t.st.lh)
      modifies this`n, this`outstanding, this`committing, cache, cache.bufs, cache.next, cache.prev
      ensures Traced(t') && t'.Continues(t)
      ensures ok ==> Valid(t') && t'.st.active == t.st.active - {op} && t'.st.phase.Running?
      ensures old(cache.holders) == multiset{} && old(n) < NBUF ==> ok
      ensures ok <==> old(outstanding) > 1 || old(n) == 0 || Roomy(old(cache.Space()), l.start, l.start + old(n))
      ensures ok && old(outstanding) == 1 ==> n == 0 && AllDurable(l, t') && Of(t'.st.durable, op) == Issued(t'.steps, op)
    {
      if cache.holders == multiset{} { NobodyHolds(this, t); }
      ActiveMeansRunning(l, t, cache.images);
      Ended(l, t, cache.images, op);
      outstanding := outstanding - 1;
      assert !committing;
      t' := t.Then(End(op), DoEnd(t.st, op));
      ok := true;
      if outstanding == 0 {
        committing := true;
        CountsIn(cache.bufs[..], cache.Space());
        ok, t' := CommitGroup(t', cache.Space());
        if ok { ActiveDurable(l, t, old(cache.images), t', cache.images, op); }
      }
    }

    /** The rest of end_op for the last operation of a group. */
    method CommitGroup(ghost t: Trace, ghost r: Room) returns (ok: bool, ghost t': Trace)
      requires Valid(t) && Calm(r, t.st.lh) && t.st.phase == Logging(0)
      modifies this`n, this`committing, cache, cache.bufs, cache.next, cache.prev
      ensures Traced(t') && t'.Continues(t)
      ensures ok ==> Valid(t') && t'.st.phase.Running? && t'.st.active == map[] && n == 0 && AllDurable(l, t')
      ensures ok <==> old(n) == 0 || Roomy(r, l.start, l.start + old(n))
    {
      ok, t' := Commit(t, r);
      if ok {
        Finished(l, t', cache.images);
        committing := false;
        t' := t'.Then(Finish, t'.st.(phase := Running));
        TraceDurable(l, t', cache.images);
      }
    }

    /** recover_from_log, run by initlog after every start. False: a panic. */
    method Recover(ghost t: Trace) returns (ok: bool, ghost t': Trace)
      requires Valid(t) && t.st.phase == Down && !committing
      requires cache.Space().locks == {}
      modifies this`n, block, cache, cache.bufs, cache.next, cache.prev
      ensures Traced(t') && t'.Continues(t)
      ensures ok ==> Valid(t') && t'.st.phase.Running? && n == 0 && t'.st.active == map[]
      ensures old(cache.Space()).idle >= 2 || old(cache.holders) == multiset{} ==> ok
    {
      if cache.holders == multiset{} { NobodyHolds(this, t); }
      CountsIn(cache.bufs[..], cache.Space());
      ok, t' := RecoverIn(t, cache.Space());
    }

    method RecoverIn(ghost t: Trace, ghost r: Room) returns (ok: bool, ghost t': Trace)
      requires Valid(t) && t.st.phase == Down && !committing && Counts(cache.bufs[..], r) && r.locks == {}
      modifies this`n, block, cache, cache.bufs, cache.next, cache.prev
      ensures Traced(t') && t'.Continues(t)
      ensures ok ==> Valid(t') && t'.st.phase.Running? && n == 0 && t'.st.active == map[]
      ensures r.idle >= 2 ==> ok
    {
      ghost var r';
      ok, t', r' := ReadHead(t, r);
      if !ok { return; }
      ok, t', r' := InstallTrans(t', r');
      if !ok { return; }
      ok, t' := EraseHead(t', r');
      if !ok { return; }
      Finished(l, t', cache.images);
      t' := t'.Then(Finish, t'.st.(phase := Running));
    }

    method LoadEntries(h: Block)
      requires block.Length == LOGSIZE && CountIn(h) <= LOGSIZE
      modifies this`n, block
      ensures n == CountIn(h) && block[..n] == EntriesIn(h)
    {
      n := Word(h, 0);
      for i := 0 to n
        invariant n == CountIn(h) && forall j :: 0 <= j < i ==> block[j] == EntriesIn(h)[j]
      {
        block[i] := Word(h, i + 1);
      }
    }

    /** read_head: copy the header from disk to log.lh. */
    method ReadHead(ghost t: Trace, ghost r: Room) returns (ok: bool, ghost t': Trace, ghost r': Room)
      requires Valid(t) && t.st.phase == Down && !committing && Counts(cache.bufs[..], r) && r.locks == {}
      modifies this`n, block, cache, cache.bufs, cache.next, cache.prev
      ensures Valid(t') && t'.Continues(t)
      ensures ok ==> t'.st.phase == Installing(0) && Calm(r', t'.st.lh) && Grew(r, r')
      ensures ok <==> r.idle > 0 || l.start in r.refs
    {
      HeadRead(l, t, cache.images);
      t' := t;
      var h;
      ok, h, r' := cache.ReadBlock(l.start, r);
      if !ok { return; }
      LoadEntries(h);
      t' := t.Then(Step.ReadHead, t.st.(lh := Head(l, t.st.disk), phase := Installing(0)));
    }
  }

  lemma RebootTrace(l: Layout, first: Disk, earlier: seq<Step>)
    requires Recoverable(l, first) && Run(l, first, earlier).Some?
    ensures var s := Run(l, first, earlier).value;
            IsTrace(l, Trace(first, |earlier| + 1, earlier + [Crash], DoCrash(s)), [s.disk])
  {
    RunOne(l, first, earlier, Crash);
  }

  /** With no holders, as at boot and whenever no process is inside a call, what is not logged
      is idle: of the buffers there are then at least NBUF less the blocks of log.lh. */
  lemma NobodyHolds(log: Log, t: Trace)
    requires log.Valid(t) && log.cache.holders == multiset{}
    ensures log.cache.Space().idle >= NBUF - log.n && (t.st.phase == Down ==> log.n == 0)
  {
    PinnedInHead(log.l, t, log.cache.images);
    assert Coherent(log.cache.V());
    DirtyPinned(log.cache.bufs[..], log.cache.disk, log.cache.pinned, log.cache.touched, log.cache.holders);
  }

  /** Power comes back after any run, crashed wherever it was: binit and initlog, which never
      panics, lead to a machine that takes operations. */
  method Boot(d: Disk, l: Layout, ghost d0: Disk, ghost earlier: seq<Step>) returns (log: Log, ghost t: Trace)
    requires Recoverable(l, d0) && Run(l, d0, earlier).Some? && Run(l, d0, earlier).value.disk == d
    ensures fresh(log) && log.l == l && log.Valid(t) && t.st.phase.Running? && log.n == 0 && log.outstanding == 0
    ensures t.first == d0 && earlier + [Crash] <= t.steps
  {
    var c := new Cache(d);
    log := new Log(c, l, d0, earlier);
    ghost var s := Run(l, d0, earlier).value;
    var ok;
    ok, t := log.Recover(Trace(d0, |earlier| + 1, earlier + [Crash], DoCrash(s)));
  }

  /** Of every image that this code has left on disk, and so of the disk after a
      power failure at any moment: recovery makes each operation whole. */
  lemma CodeIsCrashSafe(log: Log, t: Trace, i: nat)
    requires log.Traced(t) && i < |log.cache.images|
    ensures Recoverable(log.l, t.first) && Sound(log.l, t.first, t.steps, log.cache.images[i])
  {
    TraceIsRun(log.l, t, log.cache.images);
    EveryImageSound(log.l, t.first, t.steps, t.past, i);
  }

  /** And what end_op has made durable stays so: every later run of this code, over any
      number of power failures, leaves a disk that recovers to a disk with those writes. */
  lemma CodeIsDurable(log: Log, t: Trace, images: seq<Disk>, t': Trace, op: nat)
    requires IsTrace(log.l, t, images) && t.st.phase.Running? && t.st.active == map[] && op < t.st.nextOp
    requires Fits(log.l, t.first) && BegunAfter(log.l, t.first, t.steps, t.past, op)
    requires log.Traced(t') && t'.first == t.first && t.steps <= t'.steps
    ensures Recoverable(log.l, t.first) && Recoverable(log.l, log.cache.disk)
    ensures SameHome(log.l, Recovered(log.l, log.cache.disk), Replay(Recovered(log.l, t.first), t'.st.durable))
    ensures Of(t'.st.durable, op) == Issued(t.steps, op)
  {
    TraceIsRun(log.l, t, images);
    TraceIsRun(log.l, t', log.cache.images);
    var more := t'.steps[|t.steps|..];
    assert t'.steps == t.steps + more;
    DurableForGood(log.l, t.first, t.steps, t.past, op, more);
  }
}
