/** The redo log of log.c as a machine whose steps are the critical sections of
    begin_op, log_write and end_op, every single disk write of commit and of
    recovery, and a crash, which may follow any other step. */
module LogMachine {
  import opened Blocks
  import opened Options

  const MAXOPBLOCKS := 10
  const LOGSIZE := 30

  /** log.start and log.size, and the number of blocks of the device. */
  datatype Layout = Layout(start: nat, size: nat, nblocks: nat) {
    predicate Valid() {
      1 <= size && start + size <= nblocks < 0x8000_0000
    }

    /** Blocks outside the log: the ones the file system sees. */
    predicate Home(b: nat) {
      b < nblocks && !(start <= b < start + size)
    }
  }

  /** log_write may be called: log.outstanding counts some operation. */
  predicate InOperation(outstanding: int) {
    outstanding >= 1
  }

  // ---------------------------------------------------------------- header

  predicate Fits(l: Layout, d: Disk) {
    l.Valid() && |d| == l.nblocks
  }

  function CountIn(b: Block): nat {
    Word(b, 0)
  }

  function EntriesIn(b: Block): seq<nat>
    requires CountIn(b) <= LOGSIZE
  {
    seq(CountIn(b), i requires 0 <= i < CountIn(b) => Word(b, i + 1))
  }

  function HeadCount(l: Layout, d: Disk): nat
    requires Fits(l, d)
  {
    CountIn(d[l.start])
  }

  /** The block numbers in the on-disk header, as read_head copies them. */
  function Head(l: Layout, d: Disk): seq<nat>
    requires Fits(l, d) && HeadCount(l, d) <= LOGSIZE
  {
    EntriesIn(d[l.start])
  }

  /** A header's block list: short enough, home blocks only, no repetition. */
  predicate GoodHead(l: Layout, lh: seq<nat>) {
    && |lh| <= LOGSIZE && |lh| <= l.size - 1
    && (forall i :: 0 <= i < |lh| ==> l.Home(lh[i]))
    && (forall i, j :: 0 <= i < j < |lh| ==> lh[i] != lh[j])
  }

  /** The header block after write_head has stored the count and k entries. */
  function PutHead(b: Block, lh: seq<nat>, k: nat): Block
    requires |lh| <= LOGSIZE && k <= |lh|
    requires forall i :: 0 <= i < |lh| ==> lh[i] < WORD_LIMIT
  {
    if k == 0 then SetWord(b, 0, |lh|) else SetWord(PutHead(b, lh, k - 1), k, lh[k - 1])
  }

  lemma {:induction false} PutHeadGet(b: Block, lh: seq<nat>, k: nat, j: nat)
    requires |lh| <= LOGSIZE && k <= |lh| && j < WORDS
    requires forall i :: 0 <= i < |lh| ==> lh[i] < WORD_LIMIT
    ensures Word(PutHead(b, lh, k), j) ==
            if j == 0 then |lh| else if j <= k then lh[j - 1] else Word(b, j)
  {
    if k == 0 {
      SetWordGet(b, 0, |lh|, j);
    } else {
      SetWordGet(PutHead(b, lh, k - 1), k, lh[k - 1], j);
      PutHeadGet(b, lh, k - 1, j);
    }
  }

  /** What write_head puts in the header block, read_head gets back. */
  lemma HeadRoundTrip(b: Block, lh: seq<nat>)
    requires |lh| <= LOGSIZE && forall i :: 0 <= i < |lh| ==> lh[i] < WORD_LIMIT
    ensures var h := PutHead(b, lh, |lh|); CountIn(h) == |lh| && EntriesIn(h) == lh
  {
    var h := PutHead(b, lh, |lh|);
    PutHeadGet(b, lh, |lh|, 0);
    forall i | 0 <= i < |lh| ensures EntriesIn(h)[i] == lh[i] {
      PutHeadGet(b, lh, |lh|, i + 1);
    }
  }

  // -------------------------------------------------------------- recovery

  /** The disk after install_trans has copied the first k log blocks home. */
  function Install(l: Layout, d: Disk, lh: seq<nat>, k: nat): (r: Disk)
    requires Fits(l, d) && GoodHead(l, lh) && k <= |lh|
    ensures |r| == |d|
  {
    if k == 0 then d
    else var p := Install(l, d, lh, k - 1); p[lh[k - 1] := p[l.start + k]]
  }

  predicate Recoverable(l: Layout, d: Disk) {
    Fits(l, d) && HeadCount(l, d) <= LOGSIZE && GoodHead(l, Head(l, d))
  }

  /** The disk that recovery leaves, up to the header's own block. */
  function Recovered(l: Layout, d: Disk): Disk
    requires Recoverable(l, d)
  {
    Install(l, d, Head(l, d), |Head(l, d)|)
  }

  ghost predicate SameHome(l: Layout, d: Disk, e: Disk) {
    |d| == |e| == l.nblocks && forall b: nat :: l.Home(b) ==> d[b] == e[b]
  }

  lemma {:induction false} InstallAt(l: Layout, d: Disk, lh: seq<nat>, k: nat, b: nat)
    requires Fits(l, d) && GoodHead(l, lh) && k <= |lh| && b < |d|
    ensures b !in lh[..k] ==> Install(l, d, lh, k)[b] == d[b]
    ensures forall i :: 0 <= i < k && lh[i] == b ==> Install(l, d, lh, k)[b] == d[l.start + 1 + i]
  {
    if k > 0 {
      InstallAt(l, d, lh, k - 1, b);
      assert l.start + k !in lh[..k - 1];
      InstallAt(l, d, lh, k - 1, l.start + k);
      assert lh[..k] == lh[..k - 1] + [lh[k - 1]];
    }
  }

  // --------------------------------------------------------------- writes

  /** One log_write: operation op gives block `block` the contents `data`. */
  datatype Write = Write(op: nat, block: nat, data: Block)

  /** The simple form: the writes applied one by one, straight to the disk. */
  function Replay(base: Disk, ws: seq<Write>): (r: Disk)
    ensures |r| == |base|
  {
    if ws == [] then base
    else
      var p, w := Replay(base, ws[..|ws| - 1]), ws[|ws| - 1];
      if w.block < |p| then p[w.block := w.data] else p
  }

  lemma ReplayOne(base: Disk, ws: seq<Write>, w: Write)
    requires w.block < |base|
    ensures Replay(base, ws + [w]) == Replay(base, ws)[w.block := w.data]
  {
    assert (ws + [w])[..|ws|] == ws;
  }

  /** The writes of one operation, in order. */
  function Of(ws: seq<Write>, op: nat): seq<Write> {
    if ws == [] then []
    else
      var w := ws[|ws| - 1];
      Of(ws[..|ws| - 1], op) + if w.op == op then [w] else []
  }

  lemma {:induction false} OfConcat(ws: seq<Write>, vs: seq<Write>, op: nat)
    ensures Of(ws + vs, op) == Of(ws, op) + Of(vs, op)
  {
    if vs == [] {
      assert ws + vs == ws;
    } else {
      var v := vs[|vs| - 1];
      assert (ws + vs)[..|ws + vs| - 1] == ws + vs[..|vs| - 1];
      OfConcat(ws, vs[..|vs| - 1], op);
    }
  }

  lemma {:induction false} OfAbsent(ws: seq<Write>, op: nat)
    requires forall i :: 0 <= i < |ws| ==> ws[i].op != op
    ensures Of(ws, op) == []
  {
    if ws != [] { OfAbsent(ws[..|ws| - 1], op); }
  }

  // --------------------------------------------------------------- machine

  /** Running: operations may run. Logging(k): commit has filled k log blocks.
      Installing(k): the header is on disk and k blocks are home (commit or
      recovery). Cleared: the header is empty again, log.committing still set.
      Down: after a crash, before recovery reads the header. */
  datatype Phase = Running | Logging(k: nat) | Installing(k: nat) | Cleared | Down

  /** disk; the pinned (B_DIRTY) buffers; log.lh; the active operations with
      the blocks each has logged; and the writes already durable and still pending. */
  datatype State = State(
    disk: Disk,
    pinned: map<nat, Block>,
    lh: seq<nat>,
    active: map<nat, set<nat>>,
    phase: Phase,
    durable: seq<Write>,
    pending: seq<Write>,
    nextOp: nat)

  datatype Step =
    | Begin
    | LogWrite(w: Write)
    | End(op: nat)
    | WriteLogBlock
    | WriteHead
    | InstallBlock
    | ClearHead
    | Finish
    | Crash
    | ReadHead

  /** The test at log.c:198 fails: log_write does not panic. */
  predicate HasRoom(l: Layout, s: State) {
    |s.lh| < LOGSIZE && |s.lh| < l.size - 1
  }

  predicate Enabled(l: Layout, s: State, step: Step)
    requires Fits(l, s.disk)
  {
    match step
    case Begin =>
      s.phase.Running? && |s.lh| + (|s.active| + 1) * MAXOPBLOCKS <= LOGSIZE
    case LogWrite(w) =>
      s.phase.Running? && w.op in s.active && l.Home(w.block) && HasRoom(l, s)
    case End(op) => s.phase.Running? && op in s.active
    case WriteLogBlock =>
      s.phase.Logging? && s.phase.k < |s.lh| && s.lh[s.phase.k] in s.pinned && s.phase.k < l.size - 1
    case WriteHead => s.phase.Logging? && s.phase.k == |s.lh| && s.lh != [] && GoodHead(l, s.lh)
    case InstallBlock =>
      s.phase.Installing? && s.phase.k < |s.lh| && l.Home(s.lh[s.phase.k]) && s.phase.k < l.size - 1
    case ClearHead => s.phase.Installing? && s.phase.k == |s.lh|
    case Finish => s.phase.Cleared? || (s.phase.Logging? && s.lh == [])
    case Crash => true
    case ReadHead => s.phase.Down? && HeadCount(l, s.disk) <= LOGSIZE
  }

  function Absorb(lh: seq<nat>, b: nat): seq<nat> {
    if b in lh then lh else lh + [b]
  }

  function DoLogWrite(s: State, w: Write): State
    requires w.op in s.active
  {
    s.(lh := Absorb(s.lh, w.block),
       pinned := s.pinned[w.block := w.data],
       active := s.active[w.op := s.active[w.op] + {w.block}],
       pending := s.pending + [w])
  }

  function DoEnd(s: State, op: nat): State {
    var rest := s.active - {op};
    s.(active := rest, phase := if rest == map[] then Logging(0) else Running)
  }

  function DoWriteLogBlock(l: Layout, s: State, k: nat): State
    requires Fits(l, s.disk) && k < |s.lh| && s.lh[k] in s.pinned && k < l.size - 1
  {
    s.(disk := s.disk[l.start + 1 + k := s.pinned[s.lh[k]]], phase := Logging(k + 1))
  }

  function DoWriteHead(l: Layout, s: State): State
    requires Fits(l, s.disk) && GoodHead(l, s.lh)
  {
    s.(disk := s.disk[l.start := PutHead(s.disk[l.start], s.lh, |s.lh|)],
       phase := Installing(0), durable := s.durable + s.pending, pending := [])
  }

  function DoInstallBlock(l: Layout, s: State, k: nat): State
    requires Fits(l, s.disk) && k < |s.lh| && l.Home(s.lh[k]) && k < l.size - 1
  {
    s.(disk := s.disk[s.lh[k] := s.disk[l.start + 1 + k]],
       pinned := s.pinned - {s.lh[k]}, phase := Installing(k + 1))
  }

  function DoClearHead(l: Layout, s: State): State
    requires Fits(l, s.disk)
  {
    s.(disk := s.disk[l.start := PutHead(s.disk[l.start], [], 0)], lh := [], phase := Cleared)
  }

  /** Power is lost: only the disk stays. */
  function DoCrash(s: State): State {
    State(s.disk, map[], [], map[], Down, s.durable, [], s.nextOp)
  }

  function Apply(l: Layout, s: State, step: Step): (s': State)
    requires Fits(l, s.disk) && Enabled(l, s, step)
    ensures Fits(l, s'.disk)
  {
    match step
    case Begin => s.(active := s.active[s.nextOp := {}], nextOp := s.nextOp + 1)
    case LogWrite(w) => DoLogWrite(s, w)
    case End(op) => DoEnd(s, op)
    case WriteLogBlock => DoWriteLogBlock(l, s, s.phase.k)
    case WriteHead => DoWriteHead(l, s)
    case InstallBlock => DoInstallBlock(l, s, s.phase.k)
    case ClearHead => DoClearHead(l, s)
    case Finish => s.(phase := Running)
    case Crash => DoCrash(s)
    case ReadHead => s.(lh := Head(l, s.disk), phase := Installing(0))
  }

  /** The machine switched on with disk image d. */
  function PowerOn(d: Disk): State {
    State(d, map[], [], map[], Down, [], [], 0)
  }

  /** The state after a run, if every step of it was enabled. */
  function Run(l: Layout, d: Disk, steps: seq<Step>): (r: Option<State>)
    requires Fits(l, d)
    ensures r.Some? ==> Fits(l, r.value.disk)
  {
    if steps == [] then Some(PowerOn(d))
    else
      var n := |steps| - 1;
      var p := Run(l, d, steps[..n]);
      if p.Some? && Enabled(l, p.value, steps[n]) then Some(Apply(l, p.value, steps[n])) else None
  }

  lemma RunOne(l: Layout, d: Disk, steps: seq<Step>, step: Step)
    requires Fits(l, d) && Run(l, d, steps).Some? && Enabled(l, Run(l, d, steps).value, step)
    ensures Run(l, d, steps + [step]) == Some(Apply(l, Run(l, d, steps).value, step))
  {
    assert (steps + [step])[..|steps|] == steps;
  }

  // ------------------------------------------------------------- invariant

  ghost predicate HeadEmpty(l: Layout, d: Disk)
    requires Fits(l, d)
  {
    HeadCount(l, d) == 0
  }

  /** Log and home blocks together hold `goal`: a block listed in lh has it in
      its log slot, every other home block has it at home. */
  ghost predicate Covers(l: Layout, d: Disk, lh: seq<nat>, goal: Disk)
    requires Fits(l, d) && GoodHead(l, lh) && |goal| == |d|
  {
    && (forall i :: 0 <= i < |lh| ==> d[l.start + 1 + i] == goal[lh[i]])
    && (forall b: nat :: l.Home(b) && b !in lh ==> d[b] == goal[b])
  }

  /** The pinned buffers are exactly the logged blocks and hold the newest data. */
  ghost predicate PinnedHold(l: Layout, base: Disk, s: State)
    requires |base| == l.nblocks
  {
    var was, now := Replay(base, s.durable), Replay(base, s.durable + s.pending);
    && (forall b :: b in s.pinned <==> b in s.lh)
    && (forall b :: b in s.pinned ==> b < |base| && s.pinned[b] == now[b])
    && (forall b: nat :: l.Home(b) && b !in s.lh ==> now[b] == was[b])
    && (forall i :: 0 <= i < |s.pending| ==> s.pending[i].block in s.lh)
  }

  ghost predicate OpsFresh(s: State) {
    && (forall i :: 0 <= i < |s.durable| ==>
         s.durable[i].op < s.nextOp && s.durable[i].op !in s.active)
    && (forall i :: 0 <= i < |s.pending| ==> s.pending[i].op < s.nextOp)
    && (forall op :: op in s.active ==> op < s.nextOp)
  }

  /** No header on disk; home holds what is durable, the pinned buffers the rest. */
  ghost predicate Unlogged(l: Layout, base: Disk, s: State) {
    && Fits(l, s.disk) && |base| == l.nblocks && GoodHead(l, s.lh) && HeadEmpty(l, s.disk)
    && SameHome(l, s.disk, Replay(base, s.durable)) && PinnedHold(l, base, s)
  }

  ghost predicate LoggingInv(l: Layout, base: Disk, s: State, k: nat) {
    && Unlogged(l, base, s) && s.active == map[] && k <= |s.lh|
    && (forall i :: 0 <= i < k ==> s.lh[i] in s.pinned && s.disk[l.start + 1 + i] == s.pinned[s.lh[i]])
  }

  ghost predicate InstallingInv(l: Layout, base: Disk, s: State, k: nat) {
    && Fits(l, s.disk) && |base| == l.nblocks && GoodHead(l, s.lh)
    && HeadCount(l, s.disk) <= LOGSIZE && Head(l, s.disk) == s.lh
    && Covers(l, s.disk, s.lh, Replay(base, s.durable))
    && s.active == map[] && s.pending == [] && k <= |s.lh|
    && (forall i :: 0 <= i < k ==> s.disk[s.lh[i]] == Replay(base, s.durable)[s.lh[i]] && s.lh[i] !in s.pinned)
    && (forall b :: b in s.pinned ==> b in s.lh)
  }

  ghost predicate Empty(s: State) {
    s.lh == [] && s.active == map[] && s.pending == [] && s.pinned == map[]
  }

  ghost predicate PhaseInv(l: Layout, base: Disk, s: State) {
    match s.phase
    case Running => Unlogged(l, base, s) && (s.active == map[] ==> Empty(s))
    case Logging(k) => LoggingInv(l, base, s, k)
    case Installing(k) => InstallingInv(l, base, s, k)
    case Cleared => Unlogged(l, base, s) && Empty(s)
    case Down =>
      && |base| == l.nblocks && Empty(s) && Recoverable(l, s.disk)
      && Covers(l, s.disk, Head(l, s.disk), Replay(base, s.durable))
  }

  ghost predicate Inv(l: Layout, base: Disk, s: State) {
    OpsFresh(s) && PhaseInv(l, base, s)
  }

  lemma PowerOnInv(l: Layout, d: Disk)
    requires Recoverable(l, d)
    ensures Inv(l, Recovered(l, d), PowerOn(d))
  {
    var lh := Head(l, d);
    forall i | 0 <= i < |lh| ensures d[l.start + 1 + i] == Recovered(l, d)[lh[i]] {
      InstallAt(l, d, lh, |lh|, lh[i]);
    }
    forall b: nat | l.Home(b) && b !in lh ensures d[b] == Recovered(l, d)[b] {
      assert lh[..|lh|] == lh;
      InstallAt(l, d, lh, |lh|, b);
    }
  }

  lemma EmptyHeadCovers(l: Layout, d: Disk, goal: Disk)
    requires Fits(l, d) && HeadEmpty(l, d) && SameHome(l, d, goal)
    ensures Recoverable(l, d) && Head(l, d) == [] && Covers(l, d, [], goal)
  {
  }

  /** Logging one more write keeps the pinned buffers equal to the newest data. */
  lemma LogWritePinned(l: Layout, base: Disk, s: State, w: Write)
    requires l.Valid() && |base| == l.nblocks && PinnedHold(l, base, s) && l.Home(w.block)
    ensures PinnedHold(l, base, s.(lh := Absorb(s.lh, w.block), pinned := s.pinned[w.block := w.data],
                                   pending := s.pending + [w]))
  {
    assert s.durable + (s.pending + [w]) == (s.durable + s.pending) + [w];
    ReplayOne(base, s.durable + s.pending, w);
  }

  lemma LogWriteInv(l: Layout, base: Disk, s: State, w: Write)
    requires Unlogged(l, base, s) && w.op in s.active && l.Home(w.block) && HasRoom(l, s)
    ensures Unlogged(l, base, DoLogWrite(s, w))
  {
    LogWritePinned(l, base, s, w);
    assert GoodHead(l, Absorb(s.lh, w.block));
  }

  lemma WriteLogBlockInv(l: Layout, base: Disk, s: State, k: nat)
    requires LoggingInv(l, base, s, k) && k < |s.lh|
    ensures s.lh[k] in s.pinned && LoggingInv(l, base, DoWriteLogBlock(l, s, k), k + 1)
  {
    var s' := DoWriteLogBlock(l, s, k);
    assert s'.disk[l.start] == s.disk[l.start];
  }

  /** With every log block filled, storing the header makes log and home together
      hold the newest data. */
  lemma FilledCovers(l: Layout, d: Disk, lh: seq<nat>, pinned: map<nat, Block>, was: Disk, now: Disk, h: Block)
    requires Fits(l, d) && GoodHead(l, lh) && SameHome(l, d, was) && |now| == |d|
    requires forall i :: 0 <= i < |lh| ==> lh[i] in pinned && d[l.start + 1 + i] == pinned[lh[i]]
    requires forall b :: b in pinned ==> b < |d| && pinned[b] == now[b]
    requires forall b: nat :: l.Home(b) && b !in lh ==> now[b] == was[b]
    ensures Covers(l, d[l.start := h], lh, now)
  {
  }

  /** The commit point: the header write makes the whole group durable at once. */
  lemma WriteHeadInv(l: Layout, base: Disk, s: State)
    requires LoggingInv(l, base, s, |s.lh|)
    ensures InstallingInv(l, base, DoWriteHead(l, s), 0)
  {
    var h := PutHead(s.disk[l.start], s.lh, |s.lh|);
    HeadRoundTrip(s.disk[l.start], s.lh);
    FilledCovers(l, s.disk, s.lh, s.pinned, Replay(base, s.durable), Replay(base, s.durable + s.pending), h);
  }

  lemma InstallCovers(l: Layout, d: Disk, lh: seq<nat>, k: nat, goal: Disk)
    requires Fits(l, d) && GoodHead(l, lh) && |goal| == |d| && Covers(l, d, lh, goal) && k < |lh|
    requires forall i :: 0 <= i < k ==> d[lh[i]] == goal[lh[i]]
    ensures var d' := d[lh[k] := d[l.start + 1 + k]];
            && d'[l.start] == d[l.start] && Covers(l, d', lh, goal)
            && forall i :: 0 <= i <= k ==> d'[lh[i]] == goal[lh[i]]
  {
  }

  lemma InstallBlockInv(l: Layout, base: Disk, s: State, k: nat)
    requires InstallingInv(l, base, s, k) && k < |s.lh|
    ensures InstallingInv(l, base, DoInstallBlock(l, s, k), k + 1)
  {
    var goal := Replay(base, s.durable);
    InstallCovers(l, s.disk, s.lh, k, goal);
    var s' := DoInstallBlock(l, s, k);
    assert s'.durable == s.durable && s'.lh == s.lh;
    assert Head(l, s'.disk) == s.lh;
  }

  /** With all blocks installed, home holds what log and home held together. */
  lemma InstalledHome(l: Layout, d: Disk, lh: seq<nat>, goal: Disk, b: nat)
    requires Fits(l, d) && GoodHead(l, lh) && |goal| == |d| && Covers(l, d, lh, goal) && l.Home(b)
    requires forall i :: 0 <= i < |lh| ==> d[lh[i]] == goal[lh[i]]
    ensures d[b] == goal[b]
  {
    if b in lh { var i :| 0 <= i < |lh| && lh[i] == b; }
  }

  lemma ClearedHome(l: Layout, d: Disk, lh: seq<nat>, goal: Disk, h: Block)
    requires Fits(l, d) && GoodHead(l, lh) && |goal| == |d| && Covers(l, d, lh, goal)
    requires forall i :: 0 <= i < |lh| ==> d[lh[i]] == goal[lh[i]]
    ensures SameHome(l, d[l.start := h], goal)
  {
    forall b: nat | l.Home(b) ensures d[l.start := h][b] == goal[b] { InstalledHome(l, d, lh, goal, b); }
  }

  lemma ClearedHead(l: Layout, d: Disk)
    requires Fits(l, d)
    ensures HeadEmpty(l, d[l.start := PutHead(d[l.start], [], 0)])
  {
    HeadRoundTrip(d[l.start], []);
  }

  lemma NothingPinned(l: Layout, base: Disk, s: State)
    requires |base| == l.nblocks && s.lh == [] && s.pending == [] && s.pinned == map[]
    ensures PinnedHold(l, base, s)
  {
    assert s.durable + s.pending == s.durable;
  }

  lemma AllInstalled(lh: seq<nat>, pinned: map<nat, Block>)
    requires forall i :: 0 <= i < |lh| ==> lh[i] !in pinned
    requires forall b :: b in pinned ==> b in lh
    ensures pinned == map[]
  {
  }

  lemma ClearHeadInv(l: Layout, base: Disk, s: State)
    requires InstallingInv(l, base, s, |s.lh|)
    ensures Unlogged(l, base, DoClearHead(l, s)) && Empty(DoClearHead(l, s))
  {
    ClearedHome(l, s.disk, s.lh, Replay(base, s.durable), PutHead(s.disk[l.start], [], 0));
    ClearedHead(l, s.disk);
    AllInstalled(s.lh, s.pinned);
    NothingPinned(l, base, DoClearHead(l, s));
  }

  lemma CrashInv(l: Layout, base: Disk, s: State)
    requires PhaseInv(l, base, s)
    ensures PhaseInv(l, base, DoCrash(s))
  {
    if !s.phase.Installing? && !s.phase.Down? {
      EmptyHeadCovers(l, s.disk, Replay(base, s.durable));
    }
  }

  lemma CommitStepInv(l: Layout, base: Disk, s: State, step: Step)
    requires step.WriteLogBlock? || step.WriteHead? || step.InstallBlock? || step.ClearHead?
    requires PhaseInv(l, base, s) && Fits(l, s.disk) && Enabled(l, s, step)
    ensures PhaseInv(l, base, Apply(l, s, step))
  {
    match step
    case WriteLogBlock => WriteLogBlockInv(l, base, s, s.phase.k);
    case WriteHead => WriteHeadInv(l, base, s);
    case InstallBlock => InstallBlockInv(l, base, s, s.phase.k);
    case ClearHead => ClearHeadInv(l, base, s);
  }

  lemma OtherStepInv(l: Layout, base: Disk, s: State, step: Step)
    requires !(step.WriteLogBlock? || step.WriteHead? || step.InstallBlock? || step.ClearHead?)
    requires PhaseInv(l, base, s) && Fits(l, s.disk) && Enabled(l, s, step)
    ensures PhaseInv(l, base, Apply(l, s, step))
  {
    match step
    case Begin => assert s.nextOp in s.active[s.nextOp := {}];
    case LogWrite(w) => LogWriteInv(l, base, s, w);
      assert w.op in DoLogWrite(s, w).active;
    case Crash => CrashInv(l, base, s);
    case Finish => FinishInv(l, base, s);
    case End(op) =>
    case ReadHead =>
  }

  lemma NoPending(pending: seq<Write>, lh: seq<nat>)
    requires forall i :: 0 <= i < |pending| ==> pending[i].block in lh
    ensures lh == [] ==> pending == []
  {
    if pending != [] { assert pending[0].block in lh; }
  }

  /** A commit with nothing to commit leaves nothing pending. */
  lemma FinishInv(l: Layout, base: Disk, s: State)
    requires PhaseInv(l, base, s) && Fits(l, s.disk) && Enabled(l, s, Finish)
    ensures PhaseInv(l, base, s.(phase := Running))
  {
    assert Unlogged(l, base, s) && PinnedHold(l, base, s) && s.lh == [];
    NoPending(s.pending, s.lh);
    assert forall b :: b !in s.pinned;
    assert s.pinned == map[];
  }

  lemma StepFresh(l: Layout, base: Disk, s: State, step: Step)
    requires Inv(l, base, s) && Fits(l, s.disk) && Enabled(l, s, step)
    ensures OpsFresh(Apply(l, s, step))
  {
    match step
    case LogWrite(w) => LogWriteFresh(s, w);
    case WriteHead => WriteHeadFresh(s, DoWriteHead(l, s));
    case End(op) => EndFresh(s, op);
    case _ =>
  }

  lemma LogWriteFresh(s: State, w: Write)
    requires OpsFresh(s) && w.op in s.active
    ensures OpsFresh(DoLogWrite(s, w))
  {
  }

  lemma WriteHeadFresh(s: State, s': State)
    requires OpsFresh(s) && s.active == s'.active == map[] && s'.durable == s.durable + s.pending && s'.pending == [] && s'.nextOp == s.nextOp
    ensures OpsFresh(s')
  {
  }

  lemma EndFresh(s: State, op: nat)
    requires OpsFresh(s)
    ensures OpsFresh(DoEnd(s, op))
  {
  }

  lemma StepInv(l: Layout, base: Disk, s: State, step: Step)
    requires Inv(l, base, s) && Fits(l, s.disk) && Enabled(l, s, step)
    ensures Inv(l, base, Apply(l, s, step))
  {
    StepFresh(l, base, s, step);
    if step.WriteLogBlock? || step.WriteHead? || step.InstallBlock? || step.ClearHead? {
      CommitStepInv(l, base, s, step);
    } else {
      OtherStepInv(l, base, s, step);
    }
  }

  lemma {:induction false} RunInv(l: Layout, d: Disk, steps: seq<Step>)
    requires Recoverable(l, d) && Run(l, d, steps).Some?
    ensures Inv(l, Recovered(l, d), Run(l, d, steps).value)
  {
    if steps == [] {
      PowerOnInv(l, d);
    } else {
      var n := |steps| - 1;
      RunInv(l, d, steps[..n]);
      StepInv(l, Recovered(l, d), Run(l, d, steps[..n]).value, steps[n]);
    }
  }

  // -------------------------------------------------------------- theorems

  lemma CoversRecovers(l: Layout, d: Disk, goal: Disk)
    requires Recoverable(l, d) && |goal| == |d| && Covers(l, d, Head(l, d), goal)
    ensures SameHome(l, Recovered(l, d), goal)
  {
    var lh := Head(l, d);
    forall b: nat | l.Home(b) ensures Install(l, d, lh, |lh|)[b] == goal[b] {
      assert lh[..|lh|] == lh;
      InstallAt(l, d, lh, |lh|, b);
      if b in lh { var i :| 0 <= i < |lh| && lh[i] == b; }
    }
  }

  lemma InvRecovers(l: Layout, base: Disk, s: State)
    requires Inv(l, base, s)
    ensures Recoverable(l, s.disk) && SameHome(l, Recovered(l, s.disk), Replay(base, s.durable))
  {
    CrashInv(l, base, s);
    CoversRecovers(l, s.disk, Replay(base, s.durable));
  }

  /** The log_write calls that operation op makes in a run. */
  function Issued(steps: seq<Step>, op: nat): seq<Write> {
    if steps == [] then []
    else
      var x := steps[|steps| - 1];
      Issued(steps[..|steps| - 1], op) + if x.LogWrite? && x.w.op == op then [x.w] else []
  }

  /** Where the writes of one operation are: all pending while it runs, and
      later all durable, or none durable with all pending or all lost. */
  ghost predicate Whole(s: State, issued: seq<Write>, op: nat) {
    && (op >= s.nextOp ==> issued == [])
    && (op in s.active ==> Of(s.durable, op) == [] && Of(s.pending, op) == issued)
    && (op !in s.active ==>
          || (Of(s.durable, op) == issued && Of(s.pending, op) == [])
          || (Of(s.durable, op) == [] && (Of(s.pending, op) == issued || Of(s.pending, op) == [])))
  }

  lemma StepWhole(l: Layout, s: State, step: Step, issued: seq<Write>, issued': seq<Write>, op: nat)
    requires Fits(l, s.disk) && Enabled(l, s, step) && OpsFresh(s) && Whole(s, issued, op)
    requires s.active == map[] || !step.WriteHead?
    requires issued' == issued + if step.LogWrite? && step.w.op == op then [step.w] else []
    ensures Whole(Apply(l, s, step), issued', op)
  {
    match step
    case Begin =>
      if op == s.nextOp {
        OfAbsent(s.durable, op);
        OfAbsent(s.pending, op);
      }
    case LogWrite(w) => OfConcat(s.pending, [w], op);
      assert Of([w], op) == if w.op == op then [w] else [];
    case WriteHead => OfConcat(s.durable, s.pending, op);
    case _ =>
  }

  lemma {:induction false} RunWhole(l: Layout, d: Disk, steps: seq<Step>, op: nat)
    requires Recoverable(l, d) && Run(l, d, steps).Some?
    ensures Whole(Run(l, d, steps).value, Issued(steps, op), op)
  {
    if steps != [] {
      var n := |steps| - 1;
      RunInv(l, d, steps[..n]);
      RunWhole(l, d, steps[..n], op);
      StepWhole(l, Run(l, d, steps[..n]).value, steps[n], Issued(steps[..n], op), Issued(steps, op), op);
    }
  }

  /** Crash atomicity. Whatever was run before, with crashes anywhere and any
      number of interrupted recoveries, recovery of the present disk yields the
      first disk with the writes `durable` applied in order; and of each
      operation either every write it ever issued is among them or none is. */
  lemma CrashAtomicity(l: Layout, d: Disk, steps: seq<Step>)
    requires Recoverable(l, d) && Run(l, d, steps).Some?
    ensures var s := Run(l, d, steps).value;
            && Recoverable(l, s.disk)
            && SameHome(l, Recovered(l, s.disk), Replay(Recovered(l, d), s.durable))
            && forall op :: Of(s.durable, op) == Issued(steps, op) || Of(s.durable, op) == []
  {
    RunInv(l, d, steps);
    var s := Run(l, d, steps).value;
    InvRecovers(l, Recovered(l, d), s);
    forall op ensures Of(s.durable, op) == Issued(steps, op) || Of(s.durable, op) == [] {
      RunWhole(l, d, steps, op);
      if op in s.active { }
    }
  }

  lemma StepKeepsDurable(l: Layout, s: State, step: Step)
    requires Fits(l, s.disk) && Enabled(l, s, step)
    ensures s.durable <= Apply(l, s, step).durable
  {
  }

  lemma RunBack(l: Layout, d: Disk, steps: seq<Step>, step: Step)
    requires Fits(l, d) && Run(l, d, steps + [step]).Some?
    ensures Run(l, d, steps).Some? && Enabled(l, Run(l, d, steps).value, step)
    ensures Run(l, d, steps + [step]).value == Apply(l, Run(l, d, steps).value, step)
  {
    assert (steps + [step])[..|steps|] == steps;
  }

  lemma {:induction false} DurableGrows(l: Layout, d: Disk, steps: seq<Step>, more: seq<Step>)
    requires Fits(l, d) && Run(l, d, steps + more).Some?
    ensures Run(l, d, steps).Some?
    ensures Run(l, d, steps).value.durable <= Run(l, d, steps + more).value.durable
  {
    if more == [] {
      assert steps + more == steps;
    } else {
      var n := |more| - 1;
      var before := steps + more[..n];
      assert steps + more == before + [more[n]];
      RunBack(l, d, before, more[n]);
      DurableGrows(l, d, steps, more[..n]);
      StepKeepsDurable(l, Run(l, d, before).value, more[n]);
    }
  }

  // ------------------------------------------------------------- durability

  /** No write of op is lost: what it issued is durable or still pending. */
  ghost predicate Complete(s: State, issued: seq<Write>, op: nat) {
    Of(s.durable, op) + Of(s.pending, op) == issued
  }

  lemma StepComplete(l: Layout, s: State, step: Step, issued: seq<Write>, issued': seq<Write>, op: nat)
    requires Fits(l, s.disk) && Enabled(l, s, step) && step != Crash && Complete(s, issued, op)
    requires issued' == issued + if step.LogWrite? && step.w.op == op then [step.w] else []
    ensures Complete(Apply(l, s, step), issued', op)
  {
    match step
    case LogWrite(w) => OfConcat(s.pending, [w], op);
      assert Of([w], op) == if w.op == op then [w] else [];
    case WriteHead => OfConcat(s.durable, s.pending, op);
    case _ =>
  }

  lemma IssuedOne(steps: seq<Step>, step: Step, op: nat)
    ensures Issued(steps + [step], op) == Issued(steps, op) + if step.LogWrite? && step.w.op == op then [step.w] else []
  {
    assert (steps + [step])[..|steps|] == steps;
  }

  predicate NoCrash(steps: seq<Step>, n: nat) {
    forall i :: n <= i < |steps| ==> steps[i] != Crash
  }

  /** Without a crash nothing gets lost. */
  lemma {:induction false} RunComplete(l: Layout, d: Disk, steps: seq<Step>, n: nat, op: nat)
    requires Fits(l, d) && Run(l, d, steps).Some? && n <= |steps| && NoCrash(steps, n)
    requires Run(l, d, steps[..n]).Some? && Complete(Run(l, d, steps[..n]).value, Issued(steps[..n], op), op)
    ensures Complete(Run(l, d, steps).value, Issued(steps, op), op)
  {
    if n == |steps| {
      assert steps[..n] == steps;
    } else {
      var m := |steps| - 1;
      assert steps[..m][..n] == steps[..n];
      RunComplete(l, d, steps[..m], n, op);
      StepComplete(l, Run(l, d, steps[..m]).value, steps[m], Issued(steps[..m], op), Issued(steps, op), op);
    }
  }

  lemma StepInactive(l: Layout, s: State, step: Step, op: nat)
    requires Fits(l, s.disk) && Enabled(l, s, step) && op < s.nextOp && op !in s.active
    ensures op < Apply(l, s, step).nextOp && op !in Apply(l, s, step).active && !(step.LogWrite? && step.w.op == op)
  {
  }

  /** An operation that is over issues nothing more. */
  lemma {:induction false} RunInactive(l: Layout, d: Disk, steps: seq<Step>, more: seq<Step>, op: nat)
    requires Fits(l, d) && Run(l, d, steps).Some? && Run(l, d, steps + more).Some?
    requires op < Run(l, d, steps).value.nextOp && op !in Run(l, d, steps).value.active
    ensures op < Run(l, d, steps + more).value.nextOp && op !in Run(l, d, steps + more).value.active
    ensures Issued(steps + more, op) == Issued(steps, op)
  {
    if more == [] {
      assert steps + more == steps;
    } else {
      var n := |more| - 1;
      var before := steps + more[..n];
      assert steps + more == before + [more[n]];
      RunBack(l, d, before, more[n]);
      RunInactive(l, d, steps, more[..n], op);
      IssuedOne(before, more[n], op);
      StepInactive(l, Run(l, d, before).value, more[n], op);
    }
  }

  /** Operation op began after the first n steps, and since then there was no crash. */
  ghost predicate BegunAfter(l: Layout, d: Disk, steps: seq<Step>, n: nat, op: nat)
    requires Fits(l, d)
  {
    && n <= |steps| && Run(l, d, steps[..n]).Some? && Run(l, d, steps[..n]).value.nextOp <= op
    && NoCrash(steps, n)
  }

  lemma NotBegun(s: State, issued: seq<Write>, op: nat)
    requires OpsFresh(s) && Whole(s, issued, op) && s.nextOp <= op
    ensures Complete(s, issued, op)
  {
  }

  /** Until the next crash every write of an operation is durable or pending. */
  lemma NothingLost(l: Layout, d: Disk, steps: seq<Step>, n: nat, op: nat)
    requires Recoverable(l, d) && Run(l, d, steps).Some? && BegunAfter(l, d, steps, n, op)
    ensures Complete(Run(l, d, steps).value, Issued(steps, op), op)
  {
    RunInv(l, d, steps[..n]);
    RunWhole(l, d, steps[..n], op);
    NotBegun(Run(l, d, steps[..n]).value, Issued(steps[..n], op), op);
    RunComplete(l, d, steps, n, op);
  }

  /** Durability. Once no operation is active and none is being committed, nothing is
      pending, home itself holds every durable write, and of each operation that began
      after the last crash every write it issued is durable. */
  lemma QuiescentIsDurable(l: Layout, d: Disk, steps: seq<Step>, n: nat, op: nat)
    requires Recoverable(l, d) && Run(l, d, steps).Some? && BegunAfter(l, d, steps, n, op)
    requires Run(l, d, steps).value.phase.Running? && Run(l, d, steps).value.active == map[]
    ensures var s := Run(l, d, steps).value;
            && Of(s.durable, op) == Issued(steps, op) && s.pending == [] && s.lh == []
            && SameHome(l, s.disk, Replay(Recovered(l, d), s.durable))
  {
    RunInv(l, d, steps);
    NothingLost(l, d, steps, n, op);
  }

  /** And it stays so: whatever follows, with crashes anywhere, recovery yields the first
      disk with writes applied among which are just those that operation op issued. */
  lemma DurableForGood(l: Layout, d: Disk, steps: seq<Step>, n: nat, op: nat, more: seq<Step>)
    requires Recoverable(l, d) && Run(l, d, steps).Some? && Run(l, d, steps + more).Some? && BegunAfter(l, d, steps, n, op)
    requires Run(l, d, steps).value.phase.Running? && Run(l, d, steps).value.active == map[]
    requires op < Run(l, d, steps).value.nextOp
    ensures var s := Run(l, d, steps + more).value;
            && Of(s.durable, op) == Issued(steps, op) == Issued(steps + more, op)
            && Recoverable(l, s.disk) && SameHome(l, Recovered(l, s.disk), Replay(Recovered(l, d), s.durable))
  {
    QuiescentIsDurable(l, d, steps, n, op);
    RunInactive(l, d, steps, more, op);
    CrashAtomicity(l, d, steps + more);
    DurableGrows(l, d, steps, more);
    var was, now := Run(l, d, steps).value.durable, Run(l, d, steps + more).value.durable;
    assert now == was + now[|was|..];
    OfConcat(was, now[|was|..], op);
    assert Of(now, op) == Issued(steps + more, op) || Of(now, op) == [];
  }
}
