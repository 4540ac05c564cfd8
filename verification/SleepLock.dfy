/** Sleep locks (sleeplock.c) over sleep, wakeup and kill (proc.c), one statement at a
    time, for any number of processes in any interleaving. Taking a spin lock is one
    step, possible when the lock is free. */
module SleepLock {
  import opened Options

  /** Where a process is in acquiresleep, releasesleep or holdingsleep. */
  datatype Pc =
    | Idle
    // acquiresleep
    | WantLk | Test
    | WantPt | DropLk | Doze | Asleep | Tidy    // sleep
    | SetLocked | SetPid | DropIn
    | Held
    // releasesleep
    | RelWantLk | Clear | ClearPid | RelWantPt
    | Waking(todo: set<nat>)                    // wakeup1: slots not looked at yet
    | RelDropLk
    // holdingsleep, by a process that holds the lock or not
    | AskWantLk(owner: bool) | AskRead(owner: bool) | AskDrop(owner: bool)

  /** lk->lk and ptable.lock with their holders, the two fields, where each process is,
      and which are SLEEPING on the lock. */
  datatype State = State(spin: Option<nat>, ptab: Option<nat>, locked: bool, pid: nat, pc: map<nat, Pc>, asleep: set<nat>)

  datatype Step =
    | Acquire(p: nat) | Release(p: nat) | Ask(p: nat)   // calls
    | Go(p: nat)                                        // the next statement
    | Look(p: nat, q: nat)                              // wakeup1 at slot q
    | Kill(p: nat)                                      // kill of p, by anybody

  predicate Enabled(s: State, step: Step) {
    step.p in s.pc &&
    match step
    case Acquire(p) => s.pc[p] == Idle
    case Release(p) => s.pc[p] == Held
    case Ask(p) => s.pc[p] == Idle || s.pc[p] == Held
    case Look(p, q) => s.pc[p].Waking? && q in s.pc[p].todo
    case Kill(p) => s.ptab == None
    case Go(p) =>
      match s.pc[p]
      case WantLk => s.spin == None
      case RelWantLk => s.spin == None
      case AskWantLk(_) => s.spin == None
      case WantPt => s.ptab == None
      case RelWantPt => s.ptab == None
      case Asleep => p !in s.asleep && s.ptab == None   // the scheduler takes ptable.lock
      case Waking(todo) => todo == {}
      case Idle => false
      case Held => false
      case _ => true
  }

  function At(s: State, p: nat, pc: Pc): State {
    s.(pc := s.pc[p := pc])
  }

  function Next(s: State, p: nat): State
    requires p in s.pc
  {
    match s.pc[p]
    case WantLk => At(s.(spin := Some(p)), p, Test)
    case Test => At(s, p, if s.locked then WantPt else SetLocked)
    case WantPt => At(s.(ptab := Some(p)), p, DropLk)
    case DropLk => At(s.(spin := None), p, Doze)
    case Doze => At(s.(ptab := None, asleep := s.asleep + {p}), p, Asleep)
    case Asleep => At(s.(ptab := Some(p)), p, Tidy)
    case Tidy => At(s.(ptab := None), p, WantLk)
    case SetLocked => At(s.(locked := true), p, SetPid)
    case SetPid => At(s.(pid := p), p, DropIn)
    case DropIn => At(s.(spin := None), p, Held)
    case RelWantLk => At(s.(spin := Some(p)), p, Clear)
    case Clear => At(s.(locked := false), p, ClearPid)
    case ClearPid => At(s.(pid := 0), p, RelWantPt)
    case RelWantPt => At(s.(ptab := Some(p)), p, Waking(s.pc.Keys))
    case Waking(_) => At(s.(ptab := None), p, RelDropLk)
    case RelDropLk => At(s.(spin := None), p, Idle)
    case AskWantLk(owner) => At(s.(spin := Some(p)), p, AskRead(owner))
    case AskRead(owner) => At(s, p, AskDrop(owner))
    case AskDrop(owner) => At(s.(spin := None), p, if owner then Held else Idle)
    case Idle => s
    case Held => s
  }

  function Apply(s: State, step: Step): State
    requires step.p in s.pc && (step.Look? ==> s.pc[step.p].Waking?)
  {
    match step
    case Acquire(p) => At(s, p, WantLk)
    case Release(p) => At(s, p, RelWantLk)
    case Ask(p) => At(s, p, AskWantLk(s.pc[p] == Held))
    case Go(p) => Next(s, p)
    case Look(p, q) => At(s.(asleep := s.asleep - {q}), p, Waking(s.pc[p].todo - {q}))
    case Kill(p) => s.(asleep := s.asleep - {p})
  }

  function Run(s: State, steps: seq<Step>): Option<State> {
    if steps == [] then Some(s) else
    var n := |steps| - 1;
    match Run(s, steps[..n])
    case None => None
    case Some(t) => if Enabled(t, steps[n]) then Some(Apply(t, steps[n])) else None
  }

  /** initsleeplock; no process is in the lock's code. */
  predicate Initial(s: State) {
    && s.spin == None && s.ptab == None && !s.locked && s.pid == 0 && s.asleep == {}
    && forall p :: p in s.pc ==> p > 0 && s.pc[p] == Idle
  }

  // ------------------------------------------------------------ invariants

  predicate HasLk(pc: Pc) {
    pc.Test? || pc.WantPt? || pc.DropLk? || pc.SetLocked? || pc.SetPid? || pc.DropIn? || pc.Clear? || pc.ClearPid?
    || pc.RelWantPt? || pc.Waking? || pc.RelDropLk? || pc.AskRead? || pc.AskDrop?
  }

  predicate HasPt(pc: Pc) {
    pc.DropLk? || pc.Doze? || pc.Tidy? || pc.Waking?
  }

  /** The process has the sleep lock: from locked = 1 to locked = 0. */
  predicate Owns(pc: Pc) {
    pc.SetPid? || pc.DropIn? || pc.Held? || pc.RelWantLk? || pc.Clear?
    || ((pc.AskWantLk? || pc.AskRead? || pc.AskDrop?) && pc.owner)
  }

  /** It has cleared locked and will still wake p. */
  predicate WillWake(pc: Pc, p: nat) {
    pc.ClearPid? || pc.RelWantPt? || (pc.Waking? && p in pc.todo)
  }

  ghost predicate Wakes(s: State, p: nat) {
    exists r :: r in s.pc && WillWake(s.pc[r], p)
  }

  /** Nothing is missed: the lock is held or a release is under way. */
  ghost predicate NotLost(s: State, p: nat) {
    s.locked || Wakes(s, p)
  }

  ghost predicate LocksAt(s: State, p: nat) {
    p in s.pc ==> (s.spin == Some(p) <==> HasLk(s.pc[p])) && (s.ptab == Some(p) <==> HasPt(s.pc[p])) && p > 0
  }

  ghost predicate OwnerAt(s: State, p: nat) {
    p in s.pc && Owns(s.pc[p]) ==> s.locked && (!s.pc[p].SetPid? ==> s.pid == p)
  }

  ghost predicate SleepAt(s: State, p: nat) {
    && (p in s.asleep ==> p in s.pc && s.pc[p] == Asleep && NotLost(s, p))
    && (p in s.pc && s.pc[p] == Doze ==> NotLost(s, p))
    && (p in s.pc && (s.pc[p] == WantPt || s.pc[p] == DropLk) ==> s.locked)
    && (p in s.pc && (s.pc[p] == SetLocked || s.pc[p] == ClearPid) ==> !s.locked)
  }

  ghost predicate OneOwner(s: State) {
    && (forall p, q :: p in s.pc && q in s.pc && Owns(s.pc[p]) && Owns(s.pc[q]) ==> p == q)
    && (s.locked ==> exists p :: p in s.pc && Owns(s.pc[p]))
  }

  ghost predicate Inv(s: State) {
    && (forall p: nat :: LocksAt(s, p)) && (forall p: nat :: OwnerAt(s, p)) && (forall p: nat :: SleepAt(s, p))
    && OneOwner(s) && (s.spin.Some? ==> s.spin.value in s.pc) && (s.ptab.Some? ==> s.ptab.value in s.pc)
  }

  lemma InitialInv(s: State)
    requires Initial(s)
    ensures Inv(s)
  {
  }

  lemma StepLocksAt(s: State, step: Step, q: nat)
    requires Enabled(s, step) && LocksAt(s, step.p) && LocksAt(s, q)
    ensures LocksAt(Apply(s, step), q)
  {
  }

  lemma StepOwnerAt(s: State, step: Step, q: nat)
    requires Enabled(s, step) && LocksAt(s, step.p) && LocksAt(s, q) && OwnerAt(s, step.p) && OwnerAt(s, q)
    requires SleepAt(s, step.p) && (q in s.pc && Owns(s.pc[q]) && Owns(s.pc[step.p]) ==> q == step.p)
    ensures OwnerAt(Apply(s, step), q)
  {
  }

  /** A step of p changes where the others are in nothing. */
  lemma StepOthers(s: State, step: Step, q: nat)
    requires Enabled(s, step)
    ensures Apply(s, step).pc.Keys == s.pc.Keys && (q in s.pc && q != step.p ==> Apply(s, step).pc[q] == s.pc[q])
  {
  }

  /** Who owns the lock after a step: p may get it when nobody has it, or give it up. */
  lemma StepOwns(s: State, step: Step)
    requires Enabled(s, step) && OwnerAt(s, step.p) && SleepAt(s, step.p)
    ensures var t, p := Apply(s, step), step.p;
            if Owns(t.pc[p]) then t.locked && (Owns(s.pc[p]) || !s.locked)
            else if Owns(s.pc[p]) then !t.locked
            else t.locked == s.locked
  {
  }

  lemma StepOneOwner(s: State, step: Step)
    requires Inv(s) && Enabled(s, step)
    ensures OneOwner(Apply(s, step))
  {
    var t, p := Apply(s, step), step.p;
    assert OwnerAt(s, p) && SleepAt(s, p);
    StepOwns(s, step);
    forall q | q in s.pc ensures q in t.pc && (q != p ==> t.pc[q] == s.pc[q]) { StepOthers(s, step, q); }
    forall q, r | q in t.pc && r in t.pc && Owns(t.pc[q]) && Owns(t.pc[r]) ensures q == r {
      StepOthers(s, step, q);
      StepOthers(s, step, r);
      assert OwnerAt(s, q) && OwnerAt(s, r);
    }
    if t.locked && !Owns(t.pc[p]) {
      var o :| o in s.pc && Owns(s.pc[o]);
      assert o in t.pc && Owns(t.pc[o]);
    }
  }

  /** A process that will wake q goes on doing so until it has. */
  lemma StepWakes(s: State, step: Step, q: nat)
    requires Enabled(s, step) && q in s.pc && (s.pc[q] == Asleep || (s.pc[q] == Doze && s.ptab == Some(q)))
    requires LocksAt(s, step.p) && WillWake(s.pc[step.p], q)
    ensures var t := Apply(s, step); WillWake(t.pc[step.p], q) || (s.pc[q] == Asleep && q !in t.asleep)
  {
  }

  lemma StepNotLost(s: State, step: Step, q: nat)
    requires Inv(s) && Enabled(s, step) && q in s.pc && NotLost(s, q) && (q in s.asleep || s.pc[q] == Doze)
    ensures var t := Apply(s, step); NotLost(t, q) || (s.pc[q] == Asleep && q !in t.asleep)
  {
    var t, p := Apply(s, step), step.p;
    assert SleepAt(s, p) && SleepAt(s, q) && OwnerAt(s, p) && LocksAt(s, q) && LocksAt(s, p);
    if s.locked {
      StepOwns(s, step);
      if !t.locked { assert s.pc[p].Clear? && WillWake(t.pc[p], q); }
    } else {
      var r :| r in s.pc && WillWake(s.pc[r], q);
      StepOthers(s, step, r);
      if r == p { StepWakes(s, step, q); } else { assert WillWake(t.pc[r], q); }
    }
  }

  /** What a step does to those asleep: it wakes some, and p may fall asleep. */
  lemma StepAsleep(s: State, step: Step, q: nat)
    requires Enabled(s, step)
    ensures q in Apply(s, step).asleep ==> q in s.asleep || (q == step.p && s.pc[q] == Doze && step.Go?)
  {
  }

  lemma StepWants(s: State, step: Step, q: nat)
    requires Inv(s) && Enabled(s, step)
    ensures var t := Apply(s, step);
            && (q in t.pc && (t.pc[q] == WantPt || t.pc[q] == DropLk) ==> t.locked)
            && (q in t.pc && (t.pc[q] == SetLocked || t.pc[q] == ClearPid) ==> !t.locked)
  {
    assert SleepAt(s, q) && SleepAt(s, step.p) && LocksAt(s, q) && LocksAt(s, step.p) && OwnerAt(s, step.p);
    StepOthers(s, step, q);
    if q != step.p { StepOwns(s, step); }
  }

  lemma StepSleepAt(s: State, step: Step, q: nat)
    requires Inv(s) && Enabled(s, step)
    ensures SleepAt(Apply(s, step), q)
  {
    var t, p := Apply(s, step), step.p;
    assert SleepAt(s, q) && SleepAt(s, p) && LocksAt(s, q) && LocksAt(s, p);
    StepWants(s, step, q);
    StepAsleep(s, step, q);
    StepOthers(s, step, q);
    if q in s.pc && (q in s.asleep || s.pc[q] == Doze) { StepNotLost(s, step, q); }
  }

  lemma StepInv(s: State, step: Step)
    requires Inv(s) && Enabled(s, step)
    ensures Inv(Apply(s, step))
  {
    var t := Apply(s, step);
    assert LocksAt(s, step.p) && OwnerAt(s, step.p) && SleepAt(s, step.p);
    forall q: nat ensures LocksAt(t, q) { assert LocksAt(s, q); StepLocksAt(s, step, q); }
    forall q: nat ensures OwnerAt(t, q) { assert LocksAt(s, q) && OwnerAt(s, q); StepOwnerAt(s, step, q); }
    forall q: nat ensures SleepAt(t, q) { StepSleepAt(s, step, q); }
    StepOneOwner(s, step);
    StepHolders(s, step);
  }

  lemma StepHolders(s: State, step: Step)
    requires Inv(s) && Enabled(s, step)
    ensures var t := Apply(s, step);
            (t.spin.Some? ==> t.spin.value in t.pc) && (t.ptab.Some? ==> t.ptab.value in t.pc)
  {
  }

  lemma {:induction false} RunInv(s: State, steps: seq<Step>)
    requires Inv(s) && Run(s, steps).Some?
    ensures Inv(Run(s, steps).value)
  {
    if steps != [] {
      var n := |steps| - 1;
      RunInv(s, steps[..n]);
      StepInv(Run(s, steps[..n]).value, steps[n]);
    }
  }

  // --------------------------------------------------------------- results

  /** At most one process has the lock, in every state of every run. */
  lemma MutualExclusion(s: State, steps: seq<Step>, p: nat, q: nat)
    requires Initial(s) && Run(s, steps).Some?
    ensures var t := Run(s, steps).value;
            p in t.pc && q in t.pc && t.pc[p] == Held && t.pc[q] == Held ==> p == q
  {
    InitialInv(s);
    RunInv(s, steps);
  }

  /** No wakeup is lost: a process is asleep only while the lock is held or a release
      that will still wake it is under way. */
  lemma NoLostWakeup(s: State, steps: seq<Step>, p: nat)
    requires Initial(s) && Run(s, steps).Some? && p in Run(s, steps).value.asleep
    ensures var t := Run(s, steps).value;
            t.locked || exists r :: r in t.pc && WillWake(t.pc[r], p)
  {
    InitialInv(s);
    RunInv(s, steps);
    assert SleepAt(Run(s, steps).value, p);
  }

  /** holdingsleep answers whether the caller has the lock. */
  lemma HoldingAnswers(s: State, steps: seq<Step>, p: nat)
    requires Initial(s) && Run(s, steps).Some?
    ensures var t := Run(s, steps).value;
            p in t.pc && t.pc[p].AskRead? ==> (t.locked && t.pid == p <==> t.pc[p].owner)
  {
    InitialInv(s);
    RunInv(s, steps);
    var t := Run(s, steps).value;
    assert OwnerAt(t, p);
    if p in t.pc && t.pc[p].AskRead? && t.locked {
      var o :| o in t.pc && Owns(t.pc[o]);
      assert OwnerAt(t, o) && LocksAt(t, o) && LocksAt(t, p);
    }
  }

  /** The call p made last. */
  function LastCall(steps: seq<Step>, p: nat): Option<Step> {
    if steps == [] then None else
    var step := steps[|steps| - 1];
    Latest(step, p, LastCall(steps[..|steps| - 1], p))
  }

  function Latest(step: Step, p: nat, call: Option<Step>): Option<Step> {
    if step.p == p && (step.Acquire? || step.Release? || step.Ask?) then Some(step) else call
  }

  predicate Acquiring(pc: Pc) {
    pc.WantLk? || pc.Test? || pc.WantPt? || pc.DropLk? || pc.Doze? || pc.Asleep? || pc.Tidy? || pc.SetLocked? || pc.SetPid? || pc.DropIn?
  }

  predicate Releasing(pc: Pc) {
    pc.RelWantLk? || pc.Clear? || pc.ClearPid? || pc.RelWantPt? || pc.Waking? || pc.RelDropLk?
  }

  predicate Asking(pc: Pc) {
    pc.AskWantLk? || pc.AskRead? || pc.AskDrop?
  }

  /** Where a call leads: through its own statements, and out of acquiresleep only by holding
      the lock, whoever woke the process. */
  predicate Follows(call: Option<Step>, pc: Pc) {
    match call
    case Some(Acquire(_)) => Acquiring(pc) || pc == Held
    case Some(Release(_)) => Releasing(pc) || pc == Idle
    case Some(_) => Asking(pc) || pc == Held || pc == Idle
    case None => pc == Idle
  }

  lemma GoFollows(s: State, p: nat, call: Option<Step>)
    requires p in s.pc && Enabled(s, Go(p)) && Follows(call, s.pc[p])
    ensures Follows(call, Next(s, p).pc[p])
  {
  }

  lemma StepFollows(s: State, step: Step, p: nat, call: Option<Step>)
    requires p in s.pc && Enabled(s, step) && Follows(call, s.pc[p])
    ensures p in Apply(s, step).pc && Follows(Latest(step, p, call), Apply(s, step).pc[p])
  {
    StepOthers(s, step, p);
    if step == Go(p) { GoFollows(s, p, call); }
  }

  lemma {:induction false} RunFollows(s: State, steps: seq<Step>, p: nat)
    requires Initial(s) && Run(s, steps).Some? && p in s.pc
    ensures p in Run(s, steps).value.pc && Follows(LastCall(steps, p), Run(s, steps).value.pc[p])
  {
    if steps != [] {
      var n := |steps| - 1;
      RunFollows(s, steps[..n], p);
      StepFollows(Run(s, steps[..n]).value, steps[n], p, LastCall(steps[..n], p));
    }
  }

  /** Once acquiresleep has returned, and until the next call, the process has the lock. */
  lemma AcquireHolds(s: State, steps: seq<Step>, p: nat)
    requires Initial(s) && Run(s, steps).Some? && p in s.pc && LastCall(steps, p) == Some(Acquire(p))
    ensures var t := Run(s, steps).value;
            p in t.pc && (Acquiring(t.pc[p]) || (t.pc[p] == Held && t.locked && t.pid == p))
  {
    RunFollows(s, steps, p);
    InitialInv(s);
    RunInv(s, steps);
    assert OwnerAt(Run(s, steps).value, p);
  }

  /** p is inside one of the calls, and not just holding the lock. */
  predicate Busy(s: State, p: nat) {
    p in s.pc && s.pc[p] != Idle && s.pc[p] != Held
  }

  ghost predicate CanMove(s: State) {
    exists step: Step :: (step.Go? || step.Look?) && Enabled(s, step)
  }

  lemma Moves(s: State, step: Step)
    requires Enabled(s, step) && (step.Go? || step.Look?)
    ensures CanMove(s)
  {
  }

  /** The holder of ptable.lock can always go on. */
  lemma PtabMoves(s: State, p: nat)
    requires p in s.pc && HasPt(s.pc[p])
    ensures CanMove(s)
  {
    if s.pc[p].Waking? && s.pc[p].todo != {} {
      var q :| q in s.pc[p].todo;
      Moves(s, Look(p, q));
    } else {
      Moves(s, Go(p));
    }
  }

  lemma SpinMoves(s: State, p: nat)
    requires p in s.pc && HasLk(s.pc[p]) && s.ptab == None && !HasPt(s.pc[p])
    ensures CanMove(s)
  {
    Moves(s, Go(p));
  }

  /** With both spin locks free, a process that cannot go on sleeps. */
  lemma FreeMoves(s: State, p: nat)
    requires Busy(s, p) && s.ptab == None && s.spin == None && LocksAt(s, p)
    ensures CanMove(s) || (s.pc[p] == Asleep && p in s.asleep)
  {
    if !(s.pc[p] == Asleep && p in s.asleep) { Moves(s, Go(p)); }
  }

  /** No deadlock: while some process is inside a call, either one of them can go on, or
      they all sleep and some process is holding the lock. */
  lemma NoDeadlock(s: State, steps: seq<Step>, p: nat)
    requires Initial(s) && Run(s, steps).Some? && Busy(Run(s, steps).value, p)
    ensures var t := Run(s, steps).value;
            CanMove(t) || exists q :: q in t.pc && t.pc[q] == Held
  {
    InitialInv(s);
    RunInv(s, steps);
    var t := Run(s, steps).value;
    if t.ptab.Some? {
      assert LocksAt(t, t.ptab.value);
      PtabMoves(t, t.ptab.value);
    } else if t.spin.Some? {
      assert LocksAt(t, t.spin.value);
      SpinMoves(t, t.spin.value);
    } else if !CanMove(t) {
      SleepersHeld(t, p);
    }
  }

  lemma SleepersHeld(t: State, p: nat)
    requires Inv(t) && t.ptab == None && t.spin == None && !CanMove(t) && Busy(t, p)
    ensures exists q :: q in t.pc && t.pc[q] == Held
  {
    forall q | Busy(t, q) ensures t.pc[q] == Asleep && q in t.asleep {
      assert LocksAt(t, q);
      FreeMoves(t, q);
    }
    assert SleepAt(t, p);
    assert !Wakes(t, p);
    var o :| o in t.pc && Owns(t.pc[o]);
    assert t.pc[o] == Held;
  }
}
