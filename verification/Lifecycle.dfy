/** fork, exit, wait, kill and the scheduler (proc.c) over the process table, for any
    number of slots in any interleaving. Steps under ptable.lock are taken one at a time
    where a process keeps the lock across several of them, as exit, wait and the switch
    to the scheduler do. */
module Lifecycle {
  import opened Options

  /** Sleeping(Some(p)): on the channel that is p's own entry, as in wait. */
  datatype Life = Unused | Embryo | Runnable | Running | Sleeping(chan: Option<nat>) | Zombie

  /** Where the process goes on when the scheduler has come back to it. */
  datatype After = ToUser | ToWait | Never

  datatype Pc =
    | User
    | Forking(child: nat, linked: bool)
    | ExitWant | ExitWake | ExitGive(todo: set<nat>)
    | WaitWant | WaitScan(todo: set<nat>, kids: bool)
    | Leaving(after: After)      // in sched, with the lock, still on its own stack
    | Out(after: After)          // switched away from
    | Back(after: After)         // switched to, with the lock

  /** A slot of the table. `origin` is the pid of the process that forked it. */
  datatype Slot = Slot(life: Life, parent: Option<nat>, pid: nat, killed: bool, pc: Pc, onCpu: bool, origin: nat)

  datatype Holder = Free | ByProc(p: nat) | BySched

  /** `exited` are the pids that have become zombies, `reaped` those that wait returned,
      with the pid of the process that called it. */
  datatype State = State(init: nat, lock: Holder, t: map<nat, Slot>, nextpid: nat, exited: set<nat>, reaped: map<nat, nat>)

  datatype Step =
    | Fork(p: nat, c: nat) | ForkFail(p: nat) | Link(p: nat) | Publish(p: nat)
    | Exit(p: nat) | TakeExit(p: nat) | WakeParent(p: nat) | Give(p: nat, q: nat) | Die(p: nat)
    | Wait(p: nat) | TakeWait(p: nat) | Scan(p: nat, q: nat) | Rest(p: nat)
    | Yield(p: nat) | Nap(p: nat) | Rouse(p: nat) | Kill(p: nat)
    | Switch(p: nat) | Dispatch(p: nat) | Resume(p: nat) | SchedTake(p: nat) | SchedFree(p: nat)

  predicate Enabled(s: State, step: Step) {
    step.p in s.t &&
    match step
    case Fork(p, c) => s.t[p].pc == User && s.lock == Free && c in s.t && s.t[c].life == Unused
    case ForkFail(p) => s.t[p].pc.Forking? && s.t[p].pc.child in s.t && !s.t[p].pc.linked
    case Link(p) => s.t[p].pc.Forking? && s.t[p].pc.child in s.t && !s.t[p].pc.linked
    case Publish(p) => s.t[p].pc.Forking? && s.t[p].pc.child in s.t && s.t[p].pc.linked && s.lock == Free
    case Exit(p) => s.t[p].pc == User && p != s.init
    case TakeExit(p) => s.t[p].pc == ExitWant && s.lock == Free
    case WakeParent(p) => s.t[p].pc == ExitWake
    case Give(p, q) => s.t[p].pc.ExitGive? && q in s.t[p].pc.todo && q in s.t
    case Die(p) => s.t[p].pc == ExitGive({})
    case Wait(p) => s.t[p].pc == User
    case TakeWait(p) => s.t[p].pc == WaitWant && s.lock == Free
    case Scan(p, q) => s.t[p].pc.WaitScan? && q in s.t[p].pc.todo && q in s.t
    case Rest(p) => s.t[p].pc.WaitScan? && s.t[p].pc.todo == {}
    case Yield(p) => s.t[p].pc == User && s.lock == Free
    case Nap(p) => s.t[p].pc == User && s.lock == Free
    case Rouse(p) => s.t[p].life == Sleeping(None) && s.lock == Free
    case Kill(p) => s.lock == Free
    case Switch(p) => s.t[p].pc.Leaving?
    case Dispatch(p) => s.lock == BySched && s.t[p].life == Runnable && s.t[p].pc.Out?
    case Resume(p) => s.t[p].pc.Back?
    case SchedTake(p) => s.lock == Free
    case SchedFree(p) => s.lock == BySched
  }

  const FreeSlot: Slot := Slot(Unused, None, 0, false, Out(Never), false, 0)

  /** The slot other than p's own that a step is about. */
  function Target(s: State, step: Step): Option<nat>
    requires Enabled(s, step)
  {
    match step
    case Fork(_, c) => Some(c)
    case ForkFail(p) => Some(s.t[p].pc.child)
    case Link(p) => Some(s.t[p].pc.child)
    case Publish(p) => Some(s.t[p].pc.child)
    case Give(_, q) => Some(q)
    case Scan(_, q) => Some(q)
    case _ => None
  }

  /** What becomes of p's own slot x. */
  function Own(s: State, step: Step, x: Slot): Slot
    requires Enabled(s, step) && x == s.t[step.p]
  {
    match step
    case Fork(_, c) => x.(pc := Forking(c, false))
    case ForkFail(_) => x.(pc := User)
    case Link(_) => x.(pc := Forking(x.pc.child, true))
    case Publish(_) => x.(pc := User)
    case Exit(_) => x.(pc := ExitWant)
    case TakeExit(_) => x.(pc := ExitWake)
    case WakeParent(_) => x.(pc := ExitGive(s.t.Keys))
    case Give(_, q) => x.(pc := ExitGive(x.pc.todo - {q}))
    case Die(_) => x.(life := Zombie, pc := Leaving(Never))
    case Wait(_) => x.(pc := WaitWant)
    case TakeWait(_) => x.(pc := WaitScan(s.t.Keys, false))
    case Scan(p, q) =>
      if s.t[q].parent != Some(p) then x.(pc := WaitScan(x.pc.todo - {q}, x.pc.kids))
      else if s.t[q].life == Zombie then x.(pc := User)
      else x.(pc := WaitScan(x.pc.todo - {q}, true))
    case Rest(p) => if !x.pc.kids || x.killed then x.(pc := User) else x.(life := Sleeping(Some(p)), pc := Leaving(ToWait))
    case Yield(_) => x.(life := Runnable, pc := Leaving(ToUser))
    case Nap(_) => x.(life := Sleeping(None), pc := Leaving(ToUser))
    case Rouse(_) => x.(life := Runnable)
    case Kill(_) => x.(killed := true, life := if x.life.Sleeping? then Runnable else x.life)
    case Switch(_) => x.(onCpu := false, pc := Out(x.pc.after))
    case Dispatch(_) => x.(life := Running, onCpu := true, pc := Back(x.pc.after))
    case Resume(_) => x.(pc := if x.pc.after == ToWait then WaitScan(s.t.Keys, false) else User)
    case SchedTake(_) => x
    case SchedFree(_) => x
  }

  /** What becomes of the slot x that the step is about: exit gives an abandoned child to
      init, and wait frees the slot of a zombie child. */
  function Aim(s: State, step: Step, x: Slot): Slot
    requires Enabled(s, step)
  {
    match step
    case Fork(p, _) => x.(life := Embryo, pid := s.nextpid, origin := s.t[p].pid)
    case ForkFail(_) => x.(life := Unused)
    case Link(p) => x.(parent := Some(p))
    case Publish(_) => x.(life := Runnable, pc := Out(ToUser))
    case Give(p, _) => if x.parent == Some(p) then x.(parent := Some(s.init)) else x
    case Scan(p, _) => if Reaps(s, step) then FreeSlot else x
    case _ => x
  }

  predicate Reaps(s: State, step: Step)
    requires Enabled(s, step)
  {
    step.Scan? && s.t[step.q].parent == Some(step.p) && s.t[step.q].life == Zombie
  }

  /** The channel that wakeup1 is called for: exit's own parent, or init for a zombie. */
  function Wakes(s: State, step: Step): Option<nat>
    requires Enabled(s, step)
  {
    match step
    case WakeParent(p) => s.t[p].parent
    case Give(p, q) => if s.t[q].parent == Some(p) && s.t[q].life == Zombie then Some(s.init) else None
    case _ => None
  }

  function Woken(x: Slot, chan: Option<nat>): Slot {
    if chan.Some? && x.life == Sleeping(chan) then x.(life := Runnable) else x
  }

  function NewLock(s: State, step: Step): Holder
    requires Enabled(s, step)
  {
    match step
    case TakeExit(p) => ByProc(p)
    case TakeWait(p) => ByProc(p)
    case Yield(p) => ByProc(p)
    case Nap(p) => ByProc(p)
    case Dispatch(p) => ByProc(p)
    case Switch(_) => BySched
    case SchedTake(_) => BySched
    case SchedFree(_) => Free
    case Resume(p) => if s.t[p].pc.after == ToWait then s.lock else Free
    case Rest(p) => if !s.t[p].pc.kids || s.t[p].killed then Free else s.lock
    case Scan(_, _) => if Reaps(s, step) then Free else s.lock
    case _ => s.lock
  }

  function NewSlot(s: State, step: Step, q: nat): Slot
    requires Enabled(s, step) && q in s.t
  {
    if q == step.p then Own(s, step, s.t[q])
    else if Target(s, step) == Some(q) then Aim(s, step, s.t[q])
    else Woken(s.t[q], Wakes(s, step))
  }

  function Apply(s: State, step: Step): State
    requires Enabled(s, step)
  {
    State(s.init, NewLock(s, step), map q | q in s.t :: NewSlot(s, step, q),
          if step.Fork? then s.nextpid + 1 else s.nextpid,
          if step.Die? then s.exited + {s.t[step.p].pid} else s.exited,
          if Reaps(s, step) then s.reaped[s.t[step.q].pid := s.t[step.p].pid] else s.reaped)
  }

  function Run(s: State, steps: seq<Step>): Option<State> {
    if steps == [] then Some(s) else
    var n := |steps| - 1;
    match Run(s, steps[..n])
    case None => None
    case Some(r) => if Enabled(r, steps[n]) then Some(Apply(r, steps[n])) else None
  }

  /** After userinit: init is runnable and every other slot is free. */
  predicate Initial(s: State) {
    && s.init in s.t && s.lock == Free && s.nextpid == 2 && s.exited == {} && s.reaped == map[]
    && s.t[s.init] == Slot(Runnable, None, 1, false, Out(ToUser), false, 0)
    && forall p :: p in s.t && p != s.init ==> s.t[p] == FreeSlot
  }

  // ------------------------------------------------------------ invariants

  predicate HasLock(pc: Pc) {
    pc.ExitWake? || pc.ExitGive? || pc.WaitScan? || pc.Leaving? || pc.Back?
  }

  predicate Alive(life: Life) {
    life.Runnable? || life.Running? || life.Sleeping?
  }

  ghost predicate LockAt(s: State, p: nat) {
    p in s.t ==> (s.lock == ByProc(p) <==> HasLock(s.t[p].pc))
  }

  /** What the place of a process says of its state. */
  predicate Fits(p: nat, x: Slot) {
    match x.pc
    case Leaving(after) =>
      && x.onCpu && (after == Never <==> x.life == Zombie) && (Alive(x.life) || x.life == Zombie) && !x.life.Running?
      && (x.life.Sleeping? && x.life.chan.Some? ==> after == ToWait && x.life.chan.value == p)
    case Out(after) =>
      && !x.onCpu && (after == Never <==> !Alive(x.life)) && !x.life.Running?
      && (x.life.Sleeping? && x.life.chan.Some? ==> after == ToWait && x.life.chan.value == p)
    case Back(after) => x.life == Running && x.onCpu && after != Never
    case _ => x.life == Running && x.onCpu
  }

  ghost predicate LifeAt(s: State, p: nat) {
    p in s.t ==> Fits(p, s.t[p]) && (p == s.init ==> Alive(s.t[p].life) && !s.t[p].pc.ExitWant? && !s.t[p].pc.ExitWake? && !s.t[p].pc.ExitGive?)
  }

  /** A fork under way has its own embryo, which has a parent once it is linked. */
  ghost predicate ForkAt(s: State, p: nat) {
    p in s.t && s.t[p].pc.Forking? ==>
      && s.t[p].pc.child in s.t && s.t[s.t[p].pc.child].life == Embryo
      && s.t[s.t[p].pc.child].parent == if s.t[p].pc.linked then Some(p) else None
  }

  ghost predicate ForkApart(s: State, p: nat, q: nat) {
    p in s.t && q in s.t && p != q && s.t[p].pc.Forking? && s.t[q].pc.Forking? ==> s.t[p].pc.child != s.t[q].pc.child
  }

  // -------------------------------------------------------- lock and life

  lemma StepLockAt(s: State, step: Step, q: nat)
    requires Enabled(s, step) && LockAt(s, step.p) && LockAt(s, q) && LifeAt(s, q)
    ensures LockAt(Apply(s, step), q)
  {
  }

  lemma OwnFits(s: State, step: Step, x: Slot)
    requires Enabled(s, step) && x == s.t[step.p] && Fits(step.p, x)
    ensures Fits(step.p, Own(s, step, x))
  {
  }

  lemma AimFits(s: State, step: Step, q: nat, x: Slot)
    requires Enabled(s, step) && Target(s, step) == Some(q) && q in s.t && x == s.t[q] && Fits(q, x) && ForkAt(s, step.p)
    ensures Fits(q, Aim(s, step, x)) && (Alive(x.life) ==> Aim(s, step, x).life == x.life && Aim(s, step, x).pc == x.pc)
  {
  }

  lemma StepLifeAt(s: State, step: Step, q: nat)
    requires Enabled(s, step) && LifeAt(s, step.p) && LifeAt(s, q) && ForkAt(s, step.p)
    ensures LifeAt(Apply(s, step), q)
  {
    if q in s.t {
      OwnFits(s, step, s.t[step.p]);
      if Target(s, step) == Some(q) { AimFits(s, step, q, s.t[q]); }
    }
  }

  // -------------------------------------------------------------- parents

  /** Parents are alive; only init and slots not in use have none. */
  ghost predicate ParentAt(s: State, q: nat) {
    q in s.t ==>
      && (s.t[q].life == Unused || q == s.init ==> s.t[q].parent == None)
      && ((Alive(s.t[q].life) || s.t[q].life == Zombie) && q != s.init ==> s.t[q].parent.Some?)
      && (s.t[q].parent.Some? ==> ChildOf(s, q, s.t[q].parent.value))
  }

  ghost predicate ChildOf(s: State, q: nat, r: nat)
    requires q in s.t
  {
    r in s.t && r != q && Alive(s.t[r].life) && (s.t[q].life == Embryo ==> s.t[r].pc == Forking(q, true))
  }

  /** An exiting process has given away the slots it has passed. */
  ghost predicate GiveAt(s: State, p: nat, q: nat) {
    p in s.t && q in s.t && s.t[p].pc.ExitGive? && q !in s.t[p].pc.todo ==> s.t[q].parent != Some(p)
  }

  /** An exiting process has woken its parent. */
  ghost predicate WokeAt(s: State, p: nat) {
    p in s.t && s.t[p].pc.ExitGive? && s.t[p].parent.Some? && s.t[p].parent.value in s.t ==>
      s.t[s.t[p].parent.value].life != Sleeping(s.t[p].parent)
  }

  /** The parent of a zombie is not asleep in wait, and a scan has not passed the zombie. */
  ghost predicate WaitAt(s: State, p: nat, q: nat) {
    p in s.t && q in s.t && s.t[q].life == Zombie && s.t[q].parent == Some(p) ==>
      s.t[p].life != Sleeping(Some(p)) && (s.t[p].pc.WaitScan? ==> q in s.t[p].pc.todo)
  }

  ghost predicate Inv1(s: State) {
    && s.init in s.t && (forall p: nat :: LockAt(s, p)) && (forall p: nat :: LifeAt(s, p)) && (forall p: nat :: ForkAt(s, p))
    && (forall p: nat, q: nat :: ForkApart(s, p, q)) && (forall p: nat :: ParentAt(s, p))
    && (s.lock.ByProc? ==> s.lock.p in s.t)
  }

  ghost predicate Inv2(s: State) {
    && (forall p: nat, q: nat :: GiveAt(s, p, q)) && (forall p: nat :: WokeAt(s, p))
    && (forall p: nat, q: nat :: WaitAt(s, p, q))
  }

  /** A parent stays what it is, as far as its children can see. */
  lemma ParentStays(s: State, step: Step, q: nat, r: nat)
    requires Inv1(s) && Inv2(s) && Enabled(s, step) && q in s.t && s.t[q].parent == Some(r)
    ensures r in s.t && Alive(NewSlot(s, step, r).life)
  {
    assert ParentAt(s, q) && LifeAt(s, r) && ForkAt(s, step.p) && GiveAt(s, r, q) && LifeAt(s, step.p);
  }

  lemma StepForkAt(s: State, step: Step, q: nat)
    requires Inv1(s) && Enabled(s, step)
    ensures ForkAt(Apply(s, step), q)
  {
    assert ForkAt(s, q) && ForkAt(s, step.p) && ForkApart(s, step.p, q) && LifeAt(s, q) && LifeAt(s, step.p);
    if step.Fork? { assert ParentAt(s, step.c) && LifeAt(s, step.c); }
    if q in s.t && s.t[q].pc.Forking? { assert LifeAt(s, s.t[q].pc.child); }
  }

  lemma StepForkApart(s: State, step: Step, p: nat, q: nat)
    requires Inv1(s) && Enabled(s, step)
    ensures ForkApart(Apply(s, step), p, q)
  {
    assert ForkApart(s, p, q) && ForkAt(s, p) && ForkAt(s, q) && LifeAt(s, p) && LifeAt(s, q);
  }

  /** The parent of q changes when it is linked, given to init or reaped, and not otherwise. */
  lemma NewParent(s: State, step: Step, q: nat)
    requires Inv1(s) && Enabled(s, step) && q in s.t
    ensures NewSlot(s, step, q).parent ==
            if step.Link? && Target(s, step) == Some(q) then Some(step.p)
            else if step.Give? && step.q == q && s.t[q].parent == Some(step.p) then Some(s.init)
            else if Reaps(s, step) && step.q == q then None
            else s.t[q].parent
  {
    assert ParentAt(s, q) && ParentAt(s, step.p) && ForkAt(s, step.p) && LifeAt(s, step.p);
  }

  lemma StepChildOf(s: State, step: Step, q: nat)
    requires Inv1(s) && Inv2(s) && Enabled(s, step) && q in s.t && NewSlot(s, step, q).parent.Some?
    ensures ChildOf(Apply(s, step), q, NewSlot(s, step, q).parent.value)
  {
    var r := NewSlot(s, step, q).parent.value;
    NewParent(s, step, q);
    assert ParentAt(s, q) && LifeAt(s, q) && ForkAt(s, step.p) && LifeAt(s, step.p) && LifeAt(s, s.init);
    if s.t[q].parent == Some(r) {
      ParentStays(s, step, q, r);
      if NewSlot(s, step, q).life == Embryo {
        assert LifeAt(s, r);
        EmbryoStays(s, step, q, r);
      }
    } else if step.Give? {
      assert LifeAt(s, q);
      InitStays(s, step);
      assert s.t[q].life != Embryo;
    }
  }

  lemma InitStays(s: State, step: Step)
    requires Inv1(s) && Enabled(s, step)
    ensures Alive(NewSlot(s, step, s.init).life)
  {
    assert LifeAt(s, s.init) && ForkAt(s, step.p) && LifeAt(s, step.p);
  }

  lemma EmbryoStays(s: State, step: Step, q: nat, r: nat)
    requires Enabled(s, step) && q in s.t && r in s.t && s.t[q].parent == Some(r) && NewSlot(s, step, q).life == Embryo
    requires ParentAt(s, q) && LifeAt(s, q) && LifeAt(s, r) && ForkAt(s, step.p) && LifeAt(s, step.p)
    ensures NewSlot(s, step, r).pc == Forking(q, true)
  {
    EmbryoWas(s, step, q);
    assert s.t[r].pc == Forking(q, true);
    if r == step.p { ForkerStays(s, step, q); } else { PcStays(s, step, r); }
  }

  lemma EmbryoWas(s: State, step: Step, q: nat)
    requires Enabled(s, step) && q in s.t && NewSlot(s, step, q).life == Embryo && s.t[q].parent.Some? && ParentAt(s, q)
    ensures s.t[q].life == Embryo
  {
  }

  /** A process in fork goes on from there only when its child is no embryo any more. */
  lemma ForkerStays(s: State, step: Step, q: nat)
    requires Enabled(s, step) && s.t[step.p].pc == Forking(q, true) && q in s.t && q != step.p && LifeAt(s, step.p)
    requires NewSlot(s, step, q).life == Embryo
    ensures NewSlot(s, step, step.p).pc == Forking(q, true)
  {
  }

  /** No other process moves one that is in a call of its own. */
  lemma PcStays(s: State, step: Step, r: nat)
    requires Enabled(s, step) && r in s.t && r != step.p && s.t[r].life == Running && ForkAt(s, step.p)
    ensures NewSlot(s, step, r).pc == s.t[r].pc
  {
  }

  lemma StepParentAt(s: State, step: Step, q: nat)
    requires Inv1(s) && Inv2(s) && Enabled(s, step)
    ensures ParentAt(Apply(s, step), q)
  {
    if q in s.t {
      NewParent(s, step, q);
      assert ParentAt(s, q) && ForkAt(s, step.p) && LifeAt(s, q) && LifeAt(s, step.p);
      if NewSlot(s, step, q).parent.Some? { StepChildOf(s, step, q); }
      NewLife(s, step, q);
    }
  }

  /** How the life of a slot can change. */
  lemma NewLife(s: State, step: Step, q: nat)
    requires Inv1(s) && Enabled(s, step) && q in s.t
    ensures var x, y := s.t[q], NewSlot(s, step, q);
            && (y.life == Unused ==> x.life == Unused || (step.ForkFail? && Target(s, step) == Some(q)) || (Reaps(s, step) && step.q == q))
            && (y.life == Zombie ==> x.life == Zombie || (step.Die? && step.p == q))
            && (Alive(y.life) ==> Alive(x.life) || (step.Publish? && Target(s, step) == Some(q)))
  {
    assert LifeAt(s, q) && ForkAt(s, step.p) && LifeAt(s, step.p);
  }

  lemma StepGiveAt(s: State, step: Step, p: nat, q: nat)
    requires Inv1(s) && Inv2(s) && Enabled(s, step)
    ensures GiveAt(Apply(s, step), p, q)
  {
    if p in s.t && q in s.t {
      NewParent(s, step, q);
      assert GiveAt(s, p, q) && LifeAt(s, p) && LifeAt(s, step.p);
      GiveStays(s, step, p, q);
    }
  }

  lemma GiveStays(s: State, step: Step, p: nat, q: nat)
    requires Enabled(s, step) && p in s.t && q in s.t && GiveAt(s, p, q) && LifeAt(s, p) && LifeAt(s, step.p)
    requires NewSlot(s, step, q).parent != s.t[q].parent && NewSlot(s, step, q).parent.Some? ==>
      (step.Link? && NewSlot(s, step, q).parent == Some(step.p)) || NewSlot(s, step, q).parent == Some(s.init)
    requires NewSlot(s, step, q).parent == s.t[q].parent && step.Give? && step.q == q ==> s.t[q].parent != Some(step.p)
    ensures GiveAt(Apply(s, step), p, q)
  {
    if NewSlot(s, step, p).pc.ExitGive? && q !in NewSlot(s, step, p).pc.todo {
      if p == step.p { GivesOwn(s, step, q); } else { GivesStill(s, step, p); }
    }
  }

  /** A process that is giving away goes on with one slot at a time. */
  lemma GivesOwn(s: State, step: Step, q: nat)
    requires Enabled(s, step) && q in s.t && NewSlot(s, step, step.p).pc.ExitGive? && q !in NewSlot(s, step, step.p).pc.todo
    ensures s.t[step.p].pc.ExitGive? && (q !in s.t[step.p].pc.todo || (step.Give? && step.q == q))
  {
  }

  lemma GivesStill(s: State, step: Step, p: nat)
    requires Enabled(s, step) && p in s.t && p != step.p && NewSlot(s, step, p).pc.ExitGive?
    ensures NewSlot(s, step, p).pc == s.t[p].pc
  {
  }

  lemma StepWokeAt(s: State, step: Step, p: nat)
    requires Inv1(s) && Inv2(s) && Enabled(s, step)
    ensures WokeAt(Apply(s, step), p)
  {
    if p in s.t {
      NewParent(s, step, p);
      assert WokeAt(s, p) && LockAt(s, p) && LockAt(s, step.p) && LifeAt(s, p) && ParentAt(s, p) && ForkAt(s, step.p) && LifeAt(s, step.p);
      var r := NewSlot(s, step, p).parent;
      if r.Some? && r.value in s.t { FallsAsleep(s, step, r.value); }
    }
  }

  /** Only wait puts a process to sleep on its own entry. */
  lemma FallsAsleep(s: State, step: Step, r: nat)
    requires Inv1(s) && Enabled(s, step) && r in s.t
    ensures NewSlot(s, step, r).life == Sleeping(Some(r)) ==> s.t[r].life == Sleeping(Some(r)) || (step.Rest? && step.p == r)
  {
    assert LifeAt(s, r) && ForkAt(s, step.p) && LifeAt(s, step.p);
  }

  lemma StepWaitSleep(s: State, step: Step, p: nat, q: nat)
    requires Inv1(s) && Inv2(s) && Enabled(s, step) && p in s.t && q in s.t
    requires NewSlot(s, step, q).life == Zombie && NewSlot(s, step, q).parent == Some(p)
    ensures NewSlot(s, step, p).life != Sleeping(Some(p))
  {
    NewParent(s, step, q);
    NewLife(s, step, q);
    FallsAsleep(s, step, p);
    assert WaitAt(s, p, q) && WokeAt(s, q) && ParentAt(s, q) && LifeAt(s, q) && LifeAt(s, p) && LockAt(s, step.p) && LockAt(s, q);
  }

  lemma StepWaitScan(s: State, step: Step, p: nat, q: nat)
    requires Inv1(s) && Inv2(s) && Enabled(s, step) && p in s.t && q in s.t
    requires NewSlot(s, step, q).life == Zombie && NewSlot(s, step, q).parent == Some(p) && NewSlot(s, step, p).pc.WaitScan?
    ensures q in NewSlot(s, step, p).pc.todo
  {
    NewParent(s, step, q);
    NewLife(s, step, q);
    assert WaitAt(s, p, q) && LockAt(s, p) && LockAt(s, step.p) && LifeAt(s, p) && LifeAt(s, step.p) && ForkAt(s, step.p);
    ScanStays(s, step, p, q);
  }

  lemma ScanStays(s: State, step: Step, p: nat, q: nat)
    requires Enabled(s, step) && p in s.t && q in s.t && WaitAt(s, p, q) && LockAt(s, p) && LockAt(s, step.p)
    requires LifeAt(s, p) && LifeAt(s, step.p) && NewSlot(s, step, p).pc.WaitScan?
    requires (s.t[q].life == Zombie && s.t[q].parent == Some(p)) || step.Give? || step.Die?
    requires !(Reaps(s, step) && step.q == q)
    ensures q in NewSlot(s, step, p).pc.todo
  {
  }

  lemma StepWaitAt(s: State, step: Step, p: nat, q: nat)
    requires Inv1(s) && Inv2(s) && Enabled(s, step)
    ensures WaitAt(Apply(s, step), p, q)
  {
    if p in s.t && q in s.t && NewSlot(s, step, q).life == Zombie && NewSlot(s, step, q).parent == Some(p) {
      StepWaitSleep(s, step, p, q);
      if NewSlot(s, step, p).pc.WaitScan? { StepWaitScan(s, step, p, q); }
    }
  }

  lemma StepInv(s: State, step: Step)
    requires Inv1(s) && Inv2(s) && Enabled(s, step)
    ensures Inv1(Apply(s, step)) && Inv2(Apply(s, step))
  {
    var r, p := Apply(s, step), step.p;
    assert LockAt(s, p) && LifeAt(s, p) && ForkAt(s, p);
    forall q: nat ensures LockAt(r, q) && LifeAt(r, q) && ForkAt(r, q) && ParentAt(r, q) && WokeAt(r, q) {
      assert LockAt(s, q) && LifeAt(s, q);
      StepLockAt(s, step, q);
      StepLifeAt(s, step, q);
      StepForkAt(s, step, q);
      StepParentAt(s, step, q);
      StepWokeAt(s, step, q);
    }
    forall x: nat, q: nat ensures ForkApart(r, x, q) && GiveAt(r, x, q) && WaitAt(r, x, q) {
      StepForkApart(s, step, x, q);
      StepGiveAt(s, step, x, q);
      StepWaitAt(s, step, x, q);
    }
  }

  // ----------------------------------------------------------------- pids

  ghost predicate PidAt(s: State, q: nat) {
    q in s.t && s.t[q].life != Unused ==>
      && s.t[q].pid < s.nextpid && s.t[q].pid !in s.reaped && (s.t[q].pid in s.exited <==> s.t[q].life == Zombie)
  }

  ghost predicate PidApart(s: State, p: nat, q: nat) {
    p in s.t && q in s.t && p != q && s.t[p].life != Unused && s.t[q].life != Unused ==> s.t[p].pid != s.t[q].pid
  }

  /** k is the pid of a zombie that has not been reaped. */
  ghost predicate Waiting(s: State, k: nat) {
    exists q :: q in s.t && s.t[q].life == Zombie && s.t[q].pid == k
  }

  ghost predicate PastAt(s: State, k: nat) {
    (k in s.exited <==> k in s.reaped || Waiting(s, k)) && (k in s.exited ==> k < s.nextpid)
  }

  /** A process belongs to the one that forked it, or to init. */
  ghost predicate OriginAt(s: State, q: nat) {
    && (q in s.t && s.t[q].pc.Forking? && s.t[q].pc.child in s.t ==> s.t[s.t[q].pc.child].origin == s.t[q].pid)
    && (q in s.t && s.t[q].parent.Some? && s.t[q].parent.value in s.t && s.t[q].parent.value != s.init ==>
          s.t[q].origin == s.t[s.t[q].parent.value].pid)
  }

  ghost predicate Inv3(s: State) {
    && (forall p: nat :: PidAt(s, p)) && (forall p: nat, q: nat :: PidApart(s, p, q)) && (forall k: nat :: PastAt(s, k))
    && (forall p: nat :: OriginAt(s, p))
  }

  /** The pid and origin of a slot in use change only when fork sets them. */
  lemma NewPid(s: State, step: Step, q: nat)
    requires Inv1(s) && Enabled(s, step) && q in s.t && NewSlot(s, step, q).life != Unused
    ensures if step.Fork? && step.c == q then NewSlot(s, step, q).pid == s.nextpid && NewSlot(s, step, q).origin == s.t[step.p].pid
            else NewSlot(s, step, q).pid == s.t[q].pid && NewSlot(s, step, q).origin == s.t[q].origin && s.t[q].life != Unused
  {
    assert LifeAt(s, q) && ForkAt(s, step.p) && LifeAt(s, step.p);
  }

  lemma StepPidApart(s: State, step: Step, p: nat, q: nat)
    requires Inv1(s) && Inv3(s) && Enabled(s, step)
    ensures PidApart(Apply(s, step), p, q)
  {
    if p in s.t && q in s.t && NewSlot(s, step, p).life != Unused && NewSlot(s, step, q).life != Unused {
      NewPid(s, step, p);
      NewPid(s, step, q);
      assert PidApart(s, p, q) && PidAt(s, p) && PidAt(s, q);
    }
  }

  lemma StepPidAt(s: State, step: Step, q: nat)
    requires Inv1(s) && Inv3(s) && Enabled(s, step)
    ensures PidAt(Apply(s, step), q)
  {
    if q in s.t && NewSlot(s, step, q).life != Unused {
      NewPid(s, step, q);
      NewLife(s, step, q);
      NewZombie(s, step, q);
      assert PidAt(s, q) && PidAt(s, step.p) && PidApart(s, q, step.p) && PastAt(s, s.nextpid) && LifeAt(s, q) && LifeAt(s, step.p);
      if step.Scan? { assert PidApart(s, q, step.q) && PidAt(s, step.q); }
    }
  }

  lemma NewZombie(s: State, step: Step, q: nat)
    requires Inv1(s) && Enabled(s, step) && q in s.t
    ensures NewSlot(s, step, q).life == Zombie <==>
            (s.t[q].life == Zombie && !(Reaps(s, step) && step.q == q)) || (step.Die? && step.p == q)
  {
    assert LifeAt(s, q) && ForkAt(s, step.p) && LifeAt(s, step.p);
  }

  lemma StepPastAt(s: State, step: Step, k: nat)
    requires Inv1(s) && Inv3(s) && Enabled(s, step)
    ensures PastAt(Apply(s, step), k)
  {
    var r := Apply(s, step);
    assert PastAt(s, k) && LifeAt(s, step.p) && PidAt(s, step.p);
    forall q | q in s.t
      ensures r.t[q] == NewSlot(s, step, q)
      ensures r.t[q].life == Zombie <==> (s.t[q].life == Zombie && !(Reaps(s, step) && step.q == q)) || (step.Die? && step.p == q)
    {
      NewZombie(s, step, q);
    }
    if Waiting(s, k) && !(Reaps(s, step) && s.t[step.q].pid == k) {
      var q :| q in s.t && s.t[q].life == Zombie && s.t[q].pid == k;
      NewPid(s, step, q);
      assert LifeAt(s, q) && r.t[q].life == Zombie && r.t[q].pid == k;
    }
    if step.Die? && s.t[step.p].pid == k { assert r.t[step.p].life == Zombie && r.t[step.p].pid == k; }
    if Waiting(r, k) {
      var q :| q in r.t && r.t[q].life == Zombie && r.t[q].pid == k;
      NewPid(s, step, q);
      assert PidAt(s, q);
      if Reaps(s, step) { assert PidApart(s, q, step.q); }
    }
    if Reaps(s, step) { assert PidAt(s, step.q); }
  }

  lemma StepOriginParent(s: State, step: Step, q: nat)
    requires Inv1(s) && Inv2(s) && Inv3(s) && Enabled(s, step) && q in s.t
    requires NewSlot(s, step, q).parent.Some? && NewSlot(s, step, q).parent.value in s.t && NewSlot(s, step, q).parent.value != s.init
    ensures NewSlot(s, step, q).origin == NewSlot(s, step, NewSlot(s, step, q).parent.value).pid
  {
    var r := NewSlot(s, step, q).parent.value;
    NewParent(s, step, q);
    assert OriginAt(s, q) && OriginAt(s, step.p) && ParentAt(s, q) && LifeAt(s, step.p) && ForkAt(s, step.p);
    if s.t[q].parent == Some(r) {
      ParentStays(s, step, q, r);
      NewPid(s, step, r);
      if NewSlot(s, step, q).life != Unused { NewPid(s, step, q); }
    } else {
      NewPid(s, step, step.p);
    }
  }

  lemma StepOriginFork(s: State, step: Step, q: nat)
    requires Enabled(s, step) && q in s.t && NewSlot(s, step, q).pc.Forking? && NewSlot(s, step, q).pc.child in s.t
    requires OriginAt(s, q) && LifeAt(s, q) && ForkAt(s, q) && LifeAt(s, step.p) && ForkAt(s, step.p) && ForkApart(s, q, step.p)
    ensures NewSlot(s, step, NewSlot(s, step, q).pc.child).origin == NewSlot(s, step, q).pid
  {
  }

  lemma StepOriginAt(s: State, step: Step, q: nat)
    requires Inv1(s) && Inv2(s) && Inv3(s) && Enabled(s, step)
    ensures OriginAt(Apply(s, step), q)
  {
    if q in s.t {
      var y := NewSlot(s, step, q);
      if y.pc.Forking? && y.pc.child in s.t {
        assert OriginAt(s, q) && LifeAt(s, q) && ForkAt(s, q) && LifeAt(s, step.p) && ForkAt(s, step.p) && ForkApart(s, q, step.p);
        StepOriginFork(s, step, q);
      }
      if y.parent.Some? && y.parent.value in s.t && y.parent.value != s.init { StepOriginParent(s, step, q); }
    }
  }

  lemma StepInv3(s: State, step: Step)
    requires Inv1(s) && Inv2(s) && Inv3(s) && Enabled(s, step)
    ensures Inv3(Apply(s, step))
  {
    var r := Apply(s, step);
    forall q: nat ensures PidAt(r, q) { StepPidAt(s, step, q); }
    forall p: nat, q: nat ensures PidApart(r, p, q) { StepPidApart(s, step, p, q); }
    forall k: nat ensures PastAt(r, k) { StepPastAt(s, step, k); }
    forall q: nat ensures OriginAt(r, q) { StepOriginAt(s, step, q); }
  }

  lemma InitialInv(s: State)
    requires Initial(s)
    ensures Inv1(s) && Inv2(s) && Inv3(s)
  {
    forall p: nat ensures LockAt(s, p) && LifeAt(s, p) && ForkAt(s, p) && ParentAt(s, p) && WokeAt(s, p) && PidAt(s, p) && OriginAt(s, p) { }
    forall p: nat, q: nat ensures ForkApart(s, p, q) && GiveAt(s, p, q) && WaitAt(s, p, q) && PidApart(s, p, q) { }
    forall k: nat ensures PastAt(s, k) { }
  }

  lemma {:induction false} RunInv(s: State, steps: seq<Step>)
    requires Inv1(s) && Inv2(s) && Inv3(s) && Run(s, steps).Some?
    ensures Inv1(Run(s, steps).value) && Inv2(Run(s, steps).value) && Inv3(Run(s, steps).value)
  {
    if steps != [] {
      var n := |steps| - 1;
      RunInv(s, steps[..n]);
      StepInv(Run(s, steps[..n]).value, steps[n]);
      StepInv3(Run(s, steps[..n]).value, steps[n]);
    }
  }

  lemma Reachable(s: State, steps: seq<Step>)
    requires Initial(s) && Run(s, steps).Some?
    ensures Inv1(Run(s, steps).value) && Inv2(Run(s, steps).value) && Inv3(Run(s, steps).value)
  {
    InitialInv(s);
    RunInv(s, steps);
  }

  // ------------------------------------------------------- wait and kill

  /** p has a child, other than in the slots of `todo`. */
  ghost predicate HasKid(s: State, p: nat, todo: set<nat>) {
    exists q :: q in s.t && q !in todo && s.t[q].parent == Some(p)
  }

  /** A scan knows whether it has passed a child, and who sleeps in wait has one and was not
      killed. */
  ghost predicate KidsAt(s: State, p: nat) {
    p in s.t ==>
      && (s.t[p].pc.WaitScan? ==> (s.t[p].pc.kids <==> HasKid(s, p, s.t[p].pc.todo)))
      && (s.t[p].life == Sleeping(Some(p)) ==> HasKid(s, p, {}) && !s.t[p].killed)
  }

  /** Children come by fork and, to init, by exit; they go by their parent's own steps. */
  lemma KidStays(s: State, step: Step, p: nat, q: nat)
    requires Inv1(s) && Enabled(s, step) && q in s.t
    ensures s.t[q].parent == Some(p) && !(p == step.p && (step.Give? || Reaps(s, step))) ==> NewSlot(s, step, q).parent == Some(p)
    ensures NewSlot(s, step, q).parent == Some(p) ==> s.t[q].parent == Some(p) || (step.Link? && p == step.p) || (step.Give? && p == s.init)
  {
    NewParent(s, step, q);
    assert ForkAt(s, step.p);
  }

  lemma KidsStay(s: State, step: Step, p: nat, todo: set<nat>)
    requires Inv1(s) && Enabled(s, step) && !(p == step.p && (step.Give? || Reaps(s, step)))
    ensures HasKid(s, p, todo) ==> HasKid(Apply(s, step), p, todo)
    ensures HasKid(Apply(s, step), p, todo) ==> HasKid(s, p, todo) || (step.Link? && p == step.p) || (step.Give? && p == s.init)
  {
    var r := Apply(s, step);
    if HasKid(s, p, todo) {
      var q :| q in s.t && q !in todo && s.t[q].parent == Some(p);
      KidStays(s, step, p, q);
      assert r.t[q].parent == Some(p);
    }
    if HasKid(r, p, todo) {
      var q :| q in r.t && q !in todo && r.t[q].parent == Some(p);
      KidStays(s, step, p, q);
    }
  }

  /** The scan's own step. */
  lemma ScanKids(s: State, step: Step)
    requires Inv1(s) && Enabled(s, step) && KidsAt(s, step.p) && step.Scan? && !Reaps(s, step)
    ensures KidsAt(Apply(s, step), step.p)
  {
    var r, p := Apply(s, step), step.p;
    var todo := s.t[p].pc.todo;
    KidsStay(s, step, p, todo - {step.q});
    assert LifeAt(s, p);
    if s.t[step.q].parent != Some(p) && HasKid(s, p, todo - {step.q}) {
      var q :| q in s.t && q !in todo - {step.q} && s.t[q].parent == Some(p);
      assert q !in todo;
    }
    if HasKid(s, p, todo) {
      var q :| q in s.t && q !in todo && s.t[q].parent == Some(p);
      assert q !in todo - {step.q};
    }
  }

  lemma StepKidsOwn(s: State, step: Step)
    requires Inv1(s) && Enabled(s, step) && KidsAt(s, step.p)
    ensures KidsAt(Apply(s, step), step.p)
  {
    var p := step.p;
    assert LifeAt(s, p) && LockAt(s, p);
    if step.Scan? && !Reaps(s, step) {
      ScanKids(s, step);
    } else if step.Rest? || step.Kill? || step.Rouse? || step.SchedTake? || step.SchedFree? || step.Switch? {
      KidsStay(s, step, p, {});
      if s.t[p].pc.WaitScan? { KidsStay(s, step, p, s.t[p].pc.todo); }
    }
  }

  lemma StepKidsAt(s: State, step: Step, p: nat)
    requires Inv1(s) && Enabled(s, step) && KidsAt(s, step.p) && KidsAt(s, p)
    ensures KidsAt(Apply(s, step), p)
  {
    if p == step.p {
      StepKidsOwn(s, step);
    } else if p in s.t {
      assert LifeAt(s, p) && LockAt(s, p) && LockAt(s, step.p) && ForkAt(s, step.p) && LifeAt(s, step.p);
      FallsAsleep(s, step, p);
      KidsStay(s, step, p, {});
      if s.t[p].pc.WaitScan? { KidsStay(s, step, p, s.t[p].pc.todo); }
    }
  }

  lemma {:induction false} RunKids(s: State, steps: seq<Step>, p: nat)
    requires Initial(s) && Run(s, steps).Some?
    ensures KidsAt(Run(s, steps).value, p)
  {
    if steps != [] {
      var n := |steps| - 1;
      var r := Run(s, steps[..n]).value;
      RunKids(s, steps[..n], p);
      RunKids(s, steps[..n], steps[n].p);
      Reachable(s, steps[..n]);
      StepKidsAt(r, steps[n], p);
    }
  }

  // --------------------------------------------------------------- results

  /** No parent sleeps in wait while it has a zombie child. */
  lemma NoSleepOverZombie(s: State, steps: seq<Step>, p: nat, q: nat)
    requires Initial(s) && Run(s, steps).Some?
    ensures var r := Run(s, steps).value;
            p in r.t && q in r.t && r.t[q].life == Zombie && r.t[q].parent == Some(p) ==> r.t[p].life != Sleeping(Some(p))
  {
    Reachable(s, steps);
    assert WaitAt(Run(s, steps).value, p, q);
  }

  /** Every zombie has a live parent that can reap it: the process that forked it, or init. */
  lemma ZombieHasParent(s: State, steps: seq<Step>, q: nat)
    requires Initial(s) && Run(s, steps).Some? && q in Run(s, steps).value.t && Run(s, steps).value.t[q].life == Zombie
    ensures var r := Run(s, steps).value;
            exists p :: p in r.t && r.t[q].parent == Some(p) && Alive(r.t[p].life) && (p == r.init || r.t[p].pid == r.t[q].origin)
  {
    Reachable(s, steps);
    var r := Run(s, steps).value;
    assert ParentAt(r, q) && LifeAt(r, r.init) && OriginAt(r, q);
    assert r.t[q].parent.value in r.t;
  }

  /** Each process that exits is reaped at most once, and until then it is a zombie in the
      table: no zombie is lost. Pids in use are distinct. */
  lemma ReapedOnce(s: State, steps: seq<Step>, k: nat)
    requires Initial(s) && Run(s, steps).Some?
    ensures var r := Run(s, steps).value;
            && (k in r.exited <==> k in r.reaped || Waiting(r, k)) && !(k in r.reaped && Waiting(r, k))
            && forall p, q :: p in r.t && q in r.t && r.t[p].life != Unused && r.t[q].life != Unused && r.t[p].pid == r.t[q].pid ==> p == q
  {
    Reachable(s, steps);
    var r := Run(s, steps).value;
    assert PastAt(r, k);
    if Waiting(r, k) {
      var q :| q in r.t && r.t[q].life == Zombie && r.t[q].pid == k;
      assert PidAt(r, q);
    }
    forall p, q | p in r.t && q in r.t && r.t[p].life != Unused && r.t[q].life != Unused && r.t[p].pid == r.t[q].pid ensures p == q {
      assert PidApart(r, p, q);
    }
  }

  /** When wait frees a kernel stack, its process has switched away from it, and its pid
      has not been returned before; and it is returned to init or to the process that
      forked it. */
  lemma ReapSafe(s: State, steps: seq<Step>, step: Step)
    requires Initial(s) && Run(s, steps).Some? && Enabled(Run(s, steps).value, step) && Reaps(Run(s, steps).value, step)
    ensures var r := Run(s, steps).value;
            && !r.t[step.q].onCpu && r.t[step.q].pid in r.exited && r.t[step.q].pid !in r.reaped
            && (step.p == r.init || r.t[step.p].pid == r.t[step.q].origin)
            && Apply(r, step).reaped == r.reaped[r.t[step.q].pid := r.t[step.p].pid]
  {
    Reachable(s, steps);
    var r := Run(s, steps).value;
    assert LockAt(r, step.p) && LockAt(r, step.q) && LifeAt(r, step.q) && PidAt(r, step.q) && OriginAt(r, step.q);
  }

  /** wait, with no zombie found, returns if and only if the process has no child or was
      killed, and sleeps if not. */
  lemma WaitReturns(s: State, steps: seq<Step>, p: nat)
    requires Initial(s) && Run(s, steps).Some? && Enabled(Run(s, steps).value, Rest(p))
    ensures var r := Run(s, steps).value;
            var t := Apply(r, Rest(p));
            if r.t[p].killed || forall q :: q in r.t ==> r.t[q].parent != Some(p)
            then t.t[p].pc == User && t.t[p].life == Running && t.lock == Free
            else t.t[p].life == Sleeping(Some(p)) && t.lock == ByProc(p)
  {
    Reachable(s, steps);
    RunKids(s, steps, p);
    assert LifeAt(Run(s, steps).value, p) && LockAt(Run(s, steps).value, p);
  }

  /** Nobody sleeps in wait without a child, or once killed: a process that is killed there
      can run again. */
  lemma SleepsForKid(s: State, steps: seq<Step>, p: nat)
    requires Initial(s) && Run(s, steps).Some? && p in Run(s, steps).value.t && Run(s, steps).value.t[p].life == Sleeping(Some(p))
    ensures var r := Run(s, steps).value;
            !r.t[p].killed && exists q :: q in r.t && r.t[q].parent == Some(p)
    ensures var r := Run(s, steps).value;
            Enabled(r, Kill(p)) ==> Apply(r, Kill(p)) == r.(t := r.t[p := r.t[p].(life := Runnable, killed := true)])
  {
    RunKids(s, steps, p);
    var r := Run(s, steps).value;
    var q :| q in r.t && r.t[q].parent == Some(p);
    if Enabled(r, Kill(p)) {
      var t := Apply(r, Kill(p));
      forall x | x in r.t ensures t.t[x] == r.t[p := r.t[p].(life := Runnable, killed := true)][x] { }
      assert t.t == r.t[p := r.t[p].(life := Runnable, killed := true)];
    }
  }
}
