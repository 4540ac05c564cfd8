/** Space reservation in begin_op (log.c:120) against the size test in log_write
    (log.c:198), over all runs of the log machine. */
module LogReservation {
  import opened Blocks
  import opened Options
  import opened LogMachine

  const NINE := MAXOPBLOCKS - 1

  /** The distinct blocks that the active operations may still log, if each is
      allowed `limit` of them. */
  ghost function Spare(active: map<nat, set<nat>>, limit: nat): int
    decreases |active|
  {
    if active == map[] then 0
    else var op :| op in active; limit - |active[op]| + Spare(active - {op}, limit)
  }

  lemma {:induction false} SpareSplit(active: map<nat, set<nat>>, limit: nat, op: nat)
    requires op in active
    ensures Spare(active, limit) == limit - |active[op]| + Spare(active - {op}, limit)
    decreases |active|
  {
    var first :| op in active && first in active
      && Spare(active, limit) == limit - |active[first]| + Spare(active - {first}, limit);
    if first != op {
      SpareSplit(active - {first}, limit, op);
      SpareSplit(active - {op}, limit, first);
      assert active - {first} - {op} == active - {op} - {first};
    }
  }

  lemma SpareSet(active: map<nat, set<nat>>, limit: nat, op: nat, blocks: set<nat>)
    ensures Spare(active[op := blocks], limit) == limit - |blocks| + Spare(active - {op}, limit)
  {
    SpareSplit(active[op := blocks], limit, op);
    assert active[op := blocks] - {op} == active - {op};
  }

  lemma Times(a: nat, n: nat)
    requires n > 0
    ensures a * n == a + a * (n - 1)
  {
  }

  lemma {:induction false} SpareBound(active: map<nat, set<nat>>, limit: nat)
    requires forall op :: op in active ==> |active[op]| <= limit
    ensures 0 <= Spare(active, limit) <= limit * |active|
    decreases |active|
  {
    if active != map[] {
      var op :| op in active;
      SpareSplit(active, limit, op);
      SpareBound(active - {op}, limit);
      assert |active - {op}| == |active| - 1 by { assert (active - {op}).Keys == active.Keys - {op}; }
      Times(limit, |active|);
    }
  }

  ghost predicate OpsBounded(s: State, limit: nat) {
    forall op :: op in s.active ==> |s.active[op]| <= limit
  }

  /** A run in which no operation ever logs more than `limit` distinct blocks. */
  ghost predicate Bounded(l: Layout, d: Disk, steps: seq<Step>, limit: nat)
    requires Fits(l, d)
  {
    && Run(l, d, steps).Some? && OpsBounded(Run(l, d, steps).value, limit)
    && (steps != [] ==> Bounded(l, d, steps[..|steps| - 1], limit))
  }

  /** At least `total` slots cover what is logged and what may still be logged. */
  ghost predicate Reserved(s: State, limit: nat, total: nat) {
    && (forall op :: op in s.active ==> forall b :: b in s.active[op] ==> b in s.lh)
    && (s.phase.Running? ==> |s.lh| + Spare(s.active, limit) <= total)
    && (s.active == map[] && s.phase.Running? ==> s.lh == [])
    && (!s.phase.Running? ==> s.active == map[])
  }

  lemma LogWriteReserved(l: Layout, s: State, w: Write, limit: nat, total: nat)
    requires Fits(l, s.disk) && Enabled(l, s, LogWrite(w)) && Reserved(s, limit, total)
    ensures Reserved(Apply(l, s, LogWrite(w)), limit, total)
  {
    var blocks := s.active[w.op] + {w.block};
    SpareSet(s.active, limit, w.op, blocks);
    SpareSplit(s.active, limit, w.op);
    if w.block in s.active[w.op] { assert blocks == s.active[w.op]; }
    assert w.block in Absorb(s.lh, w.block);
  }

  lemma EndReserved(l: Layout, s: State, op: nat, limit: nat, total: nat)
    requires Fits(l, s.disk) && Enabled(l, s, End(op)) && Reserved(s, limit, total) && OpsBounded(s, limit)
    ensures Reserved(Apply(l, s, End(op)), limit, total)
  {
    SpareSplit(s.active, limit, op);
  }

  /** The test at log.c:120 leaves room for one more operation's blocks. */
  lemma BeginRoom(logged: nat, ops: nat, spare: int, limit: nat, total: nat)
    requires logged + (ops + 1) * MAXOPBLOCKS <= LOGSIZE && spare <= limit * ops
    requires ops == 0 ==> logged == 0
    requires (limit == MAXOPBLOCKS && total == LOGSIZE) || (limit == NINE && total == LOGSIZE - 2)
    ensures logged + limit + spare <= total
  {
    assert limit * ops == if limit == NINE then 9 * ops else 10 * ops;
  }

  lemma BeginReserved(l: Layout, s: State, limit: nat, total: nat)
    requires Fits(l, s.disk) && Enabled(l, s, Begin) && Reserved(s, limit, total)
    requires OpsFresh(s) && OpsBounded(s, limit)
    requires (limit == MAXOPBLOCKS && total == LOGSIZE) || (limit == NINE && total == LOGSIZE - 2)
    ensures Reserved(Apply(l, s, Begin), limit, total)
  {
    SpareSet(s.active, limit, s.nextOp, {});
    assert s.active - {s.nextOp} == s.active;
    SpareBound(s.active, limit);
    BeginRoom(|s.lh|, |s.active|, Spare(s.active, limit), limit, total);
    assert s.nextOp in Apply(l, s, Begin).active;
  }

  lemma StepReserved(l: Layout, base: Disk, s: State, step: Step, limit: nat, total: nat)
    requires Fits(l, s.disk) && Inv(l, base, s) && Enabled(l, s, step)
    requires Reserved(s, limit, total) && OpsBounded(s, limit)
    requires (limit == MAXOPBLOCKS && total == LOGSIZE) || (limit == NINE && total == LOGSIZE - 2)
    ensures Reserved(Apply(l, s, step), limit, total)
  {
    match step
    case Begin => BeginReserved(l, s, limit, total);
    case LogWrite(w) => LogWriteReserved(l, s, w, limit, total);
    case End(op) => EndReserved(l, s, op, limit, total);
    case _ =>
  }

  lemma {:induction false} RunReserved(l: Layout, d: Disk, steps: seq<Step>, limit: nat, total: nat)
    requires Recoverable(l, d) && Bounded(l, d, steps, limit)
    requires (limit == MAXOPBLOCKS && total == LOGSIZE) || (limit == NINE && total == LOGSIZE - 2)
    ensures Reserved(Run(l, d, steps).value, limit, total)
  {
    if steps != [] {
      var n := |steps| - 1;
      RunReserved(l, d, steps[..n], limit, total);
      RunInv(l, d, steps[..n]);
      StepReserved(l, Recovered(l, d), Run(l, d, steps[..n]).value, steps[n], limit, total);
    }
  }

  /** The promise of begin_op: if no operation logs more than MAXOPBLOCKS distinct
      blocks, what is logged and what active operations may still log fit LOGSIZE;
      and while a commit is in progress no operation is active, so end_op cannot
      meet log.committing. */
  lemma ReservationHolds(l: Layout, d: Disk, steps: seq<Step>)
    requires Recoverable(l, d) && Bounded(l, d, steps, MAXOPBLOCKS)
    ensures var s := Run(l, d, steps).value;
            && (s.phase.Running? ==> |s.lh| + Spare(s.active, MAXOPBLOCKS) <= LOGSIZE)
            && (!s.phase.Running? ==> s.active == map[])
  {
    RunReserved(l, d, steps, MAXOPBLOCKS, LOGSIZE);
  }

  // ------------------------------------------------ when log_write panics

  /** After these steps, in which each operation kept to `limit` distinct blocks,
      some operation is active and its next log_write panics (log.c:198). */
  ghost predicate Panics(l: Layout, d: Disk, steps: seq<Step>, limit: nat)
    requires Fits(l, d)
  {
    Bounded(l, d, steps, limit) &&
    var s := Run(l, d, steps).value;
    s.phase.Running? && s.active != map[] && !HasRoom(l, s)
  }

  /** With one block fewer per operation than MAXOPBLOCKS at most 28 blocks are
      ever logged, which is just what a log of 30 blocks has room for. */
  lemma NineNeverPanics(l: Layout, d: Disk, steps: seq<Step>)
    requires Recoverable(l, d) && Bounded(l, d, steps, NINE) && l.size >= LOGSIZE
    ensures |Run(l, d, steps).value.lh| <= LOGSIZE - 2 || Run(l, d, steps).value.phase != Running
    ensures !Panics(l, d, steps, NINE)
  {
    RunReserved(l, d, steps, NINE, LOGSIZE - 2);
    SpareBound(Run(l, d, steps).value.active, NINE);
  }

  /** Room behind the log for the blocks of the witness runs. */
  predicate Roomy(l: Layout) {
    l.Valid() && l.start + l.size + LOGSIZE <= l.nblocks
  }

  /** Running, with the blocks logged so far being the ones right after the log. */
  ghost predicate Tidy(l: Layout, s: State, n: nat) {
    && s.phase.Running? && |s.lh| == n
    && (forall i :: 0 <= i < n ==> s.lh[i] == l.start + l.size + i)
    && (forall op, b :: op in s.active && b in s.active[op] ==> b < l.start + l.size + n)
    && (forall op :: op in s.active ==> op < s.nextOp)
  }

  /** These steps are a bounded run to a tidy state with n blocks logged and the
      given operations active. */
  ghost predicate At(l: Layout, d: Disk, steps: seq<Step>, limit: nat, n: nat,
                     active: map<nat, set<nat>>, next: nat)
  {
    Fits(l, d) && Bounded(l, d, steps, limit) &&
    var s := Run(l, d, steps).value;
    Tidy(l, s, n) && s.active == active && s.nextOp == next
  }

  lemma BoundedOne(l: Layout, d: Disk, steps: seq<Step>, step: Step, limit: nat)
    requires Fits(l, d) && Bounded(l, d, steps, limit) && Enabled(l, Run(l, d, steps).value, step)
    requires OpsBounded(Apply(l, Run(l, d, steps).value, step), limit)
    ensures Bounded(l, d, steps + [step], limit)
    ensures Run(l, d, steps + [step]) == Some(Apply(l, Run(l, d, steps).value, step))
  {
    RunOne(l, d, steps, step);
    assert (steps + [step])[..|steps|] == steps;
  }

  /** Operation op logs one block that nobody has logged yet. */
  lemma LogFresh(l: Layout, d: Disk, steps: seq<Step>, limit: nat, n: nat, active: map<nat, set<nat>>,
                 next: nat, op: nat) returns (more: seq<Step>, blocks: set<nat>)
    requires Roomy(l) && At(l, d, steps, limit, n, active, next) && op in active
    requires |active[op]| < limit && n < LOGSIZE && n < l.size - 1
    ensures |blocks| == |active[op]| + 1 && At(l, d, more, limit, n + 1, active[op := blocks], next)
  {
    var s := Run(l, d, steps).value;
    var b := l.start + l.size + n;
    var step := LogWrite(Write(op, b, ZeroBlock));
    blocks := active[op] + {b};
    more := steps + [step];
    assert b !in s.active[op] && b !in s.lh;
    BoundedOne(l, d, steps, step, limit);
  }

  /** Operation op logs k fresh blocks. */
  lemma {:induction false} LogMany(l: Layout, d: Disk, steps: seq<Step>, limit: nat, n: nat,
                                   active: map<nat, set<nat>>, next: nat, op: nat, k: nat)
    returns (more: seq<Step>, blocks: set<nat>)
    requires Roomy(l) && At(l, d, steps, limit, n, active, next) && op in active
    requires |active[op]| + k <= limit && n + k <= LOGSIZE && n + k <= l.size - 1
    ensures |blocks| == |active[op]| + k && At(l, d, more, limit, n + k, active[op := blocks], next)
    decreases k
  {
    if k == 0 {
      more, blocks := steps, active[op];
      assert active[op := blocks] == active;
    } else {
      more, blocks := LogFresh(l, d, steps, limit, n, active, next, op);
      var active' := active[op := blocks];
      more, blocks := LogMany(l, d, more, limit, n + 1, active', next, op, k - 1);
      assert active'[op := blocks] == active[op := blocks];
    }
  }

  lemma BeginOp(l: Layout, d: Disk, steps: seq<Step>, limit: nat, n: nat, active: map<nat, set<nat>>, next: nat)
    returns (more: seq<Step>)
    requires At(l, d, steps, limit, n, active, next) && n + (|active| + 1) * MAXOPBLOCKS <= LOGSIZE
    ensures At(l, d, more, limit, n, active[next := {}], next + 1)
  {
    BoundedOne(l, d, steps, Begin, limit);
    more := steps + [Begin];
  }

  lemma EndOp(l: Layout, d: Disk, steps: seq<Step>, limit: nat, n: nat, active: map<nat, set<nat>>, next: nat, op: nat)
    returns (more: seq<Step>)
    requires At(l, d, steps, limit, n, active, next) && op in active && active - {op} != map[]
    ensures At(l, d, more, limit, n, active - {op}, next)
  {
    BoundedOne(l, d, steps, End(op), limit);
    more := steps + [End(op)];
  }

  /** Recovery of a disk with an empty header. */
  lemma Boot(l: Layout, d: Disk, limit: nat) returns (steps: seq<Step>)
    requires Fits(l, d) && HeadEmpty(l, d)
    ensures At(l, d, steps, limit, 0, map[], 0)
  {
    assert Bounded(l, d, [], limit);
    BoundedOne(l, d, [], ReadHead, limit);
    assert Head(l, d) == [];
    BoundedOne(l, d, [] + [ReadHead], ClearHead, limit);
    BoundedOne(l, d, [] + [ReadHead] + [ClearHead], Finish, limit);
    steps := [] + [ReadHead] + [ClearHead] + [Finish];
  }

  function Min(a: int, b: int): int {
    if a < b then a else b
  }

  lemma ThreeBegins(l: Layout, d: Disk, limit: nat) returns (steps: seq<Step>)
    requires Fits(l, d) && HeadEmpty(l, d)
    ensures At(l, d, steps, limit, 0, map[0 := {}, 1 := {}, 2 := {}], 3)
  {
    steps := Boot(l, d, limit);
    steps := BeginOp(l, d, steps, limit, 0, map[], 0);
    steps := BeginOp(l, d, steps, limit, 0, map[0 := {}], 1);
    steps := BeginOp(l, d, steps, limit, 0, map[0 := {}, 1 := {}], 2);
  }

  /** Three operations at once log `limit` fresh blocks each, or until nothing fits. */
  lemma ThreeOps(l: Layout, d: Disk, limit: nat) returns (steps: seq<Step>, active: map<nat, set<nat>>)
    requires Roomy(l) && Fits(l, d) && HeadEmpty(l, d) && limit <= MAXOPBLOCKS
    ensures At(l, d, steps, limit, Min(3 * limit, l.size - 1), active, 3) && 0 in active
  {
    var m := Min(3 * limit, l.size - 1);
    var a := Min(m, limit);
    var b := Min(m - a, limit);
    var x;
    steps := ThreeBegins(l, d, limit);
    active := map[0 := {}, 1 := {}, 2 := {}];
    steps, x := LogMany(l, d, steps, limit, 0, active, 3, 0, a);
    active := active[0 := x];
    steps, x := LogMany(l, d, steps, limit, a, active, 3, 1, b);
    active := active[1 := x];
    steps, x := LogMany(l, d, steps, limit, a + b, active, 3, 2, m - a - b);
    active := active[2 := x];
  }

  /** With operation 0 idle, a fresh operation logs k blocks and ends. */
  lemma ShortOp(l: Layout, d: Disk, steps: seq<Step>, n: nat, next: nat, k: nat) returns (more: seq<Step>)
    requires Roomy(l) && At(l, d, steps, NINE, n, map[0 := {}], next) && next > 0
    requires n + 2 * MAXOPBLOCKS <= LOGSIZE && k <= NINE && n + k <= l.size - 1
    ensures At(l, d, more, NINE, n + k, map[0 := {}], next + 1)
  {
    var active := map[0 := {}, next := {}];
    var x;
    more := BeginOp(l, d, steps, NINE, n, map[0 := {}], next);
    assert map[0 := {}][next := {}] == active;
    more, x := LogMany(l, d, more, NINE, n, active, next + 1, next, k);
    assert active[next := x] - {next} == map[0 := {}];
    more := EndOp(l, d, more, NINE, n + k, active[next := x], next + 1, next);
  }

  /** Two short operations end inside the group, so that four operations log 28
      blocks although each keeps to nine. */
  lemma FourOps(l: Layout, d: Disk) returns (steps: seq<Step>, active: map<nat, set<nat>>)
    requires Roomy(l) && Fits(l, d) && HeadEmpty(l, d) && l.size == LOGSIZE - 1
    ensures At(l, d, steps, NINE, LOGSIZE - 2, active, 4) && 0 in active
  {
    var x;
    steps := Boot(l, d, NINE);
    steps := BeginOp(l, d, steps, NINE, 0, map[], 0);
    steps := ShortOp(l, d, steps, 0, 1, 9);
    steps := ShortOp(l, d, steps, 9, 2, 1);
    steps := BeginOp(l, d, steps, NINE, 10, map[0 := {}], 3);
    active := map[0 := {}, 3 := {}];
    assert map[0 := {}][3 := {}] == active;
    steps, x := LogMany(l, d, steps, NINE, 10, active, 4, 0, 9);
    active := active[0 := x];
    steps, x := LogMany(l, d, steps, NINE, 19, active, 4, 3, 9);
    active := active[3 := x];
  }

  /** Operations that keep to nine blocks can meet the panic exactly when the
      log has fewer than 30 blocks; mkfs gives it exactly 30. */
  lemma NinePanicsExactly(l: Layout, d: Disk)
    requires Roomy(l) && Fits(l, d) && HeadEmpty(l, d)
    ensures (exists steps :: Panics(l, d, steps, NINE)) <==> l.size < LOGSIZE
  {
    if l.size >= LOGSIZE {
      forall steps ensures !Panics(l, d, steps, NINE) {
        if Bounded(l, d, steps, NINE) { NineNeverPanics(l, d, steps); }
      }
    } else if l.size == LOGSIZE - 1 {
      var steps, active := FourOps(l, d);
      assert Panics(l, d, steps, NINE);
    } else {
      var steps, active := ThreeOps(l, d, NINE);
      assert Panics(l, d, steps, NINE);
    }
  }

  /** Operations that use all MAXOPBLOCKS blocks they are promised can meet the
      panic whatever the size of the log. */
  lemma TenPanicsAlways(l: Layout, d: Disk)
    requires Roomy(l) && Fits(l, d) && HeadEmpty(l, d)
    ensures exists steps :: Panics(l, d, steps, MAXOPBLOCKS)
  {
    var steps, active := ThreeOps(l, d, MAXOPBLOCKS);
    assert Panics(l, d, steps, MAXOPBLOCKS);
  }
}
