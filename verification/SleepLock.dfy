/** acquiresleep and releasesleep with the sleep and wakeup they call, one atomic step at a time,
    interleaved by any number of processes: every step lies between two lock operations. */
module SleepLock {
  import opened Common

  /** What a process is about to do. lk is the sleep lock's spin lock. */
  datatype Pc =
    | Outside          // neither holds nor wants the lock
    | Acquire          // acquiresleep: acquire(&lk->lk)
    | Test             // while (lk->locked)
    | SleepLockProc    // sleep: acquire(&p->lock)
    | SleepRelease     // release(lk)
    | SleepMark        // p->chan = chan; p->state = SLEEPING
    | SleepSched       // sched(): the scheduler releases p->lock
    | Waiting          // off the CPU
    | SleepTidy        // p->chan = 0; release(&p->lock)
    | SleepReacquire   // acquire(lk)
    | Take             // locked = 1 is set; release(&lk->lk)
    | Holding          // returned from acquiresleep
    | Release          // releasesleep: acquire(&lk->lk)
    | Clear            // lk->locked = 0
    | Wake(i: nat)     // wakeup: acquire(&proc[i].lock), or the end of the loop
    | WakeOne(i: nat)  // if SLEEPING on lk then RUNNABLE; release(&proc[i].lock)

  datatype RunState = Running | Runnable | Sleeping

  datatype Proc = Proc(pc: Pc, run: RunState, onChan: bool)

  /** spin: who holds lk->lk; plock[p]: who holds p->lock; owner: lk->locked and lk->pid. */
  datatype State = State(procs: seq<Proc>, spin: Option<nat>, plock: seq<Option<nat>>, owner: Option<nat>)

  datatype Event =
    | Go(p: nat)          // p executes its next step
    | Dispatch(p: nat)    // the scheduler resumes p
    | Kill(p: nat)        // kill makes a sleeper runnable

  predicate Enabled(s: State, e: Event) {
    && |s.plock| == |s.procs| && e.p < |s.procs|
    && match e
       case Dispatch(p) => s.procs[p].pc.Waiting? && s.procs[p].run.Runnable? && s.plock[p].None?
       case Kill(p) => s.procs[p].run.Sleeping? && s.plock[p].None?
       case Go(p) =>
         match s.procs[p].pc
         case Acquire => s.spin.None?
         case Release => s.spin.None?
         case SleepReacquire => s.spin.None?
         case SleepLockProc => s.plock[p].None?
         case Wake(i) => i == p || i >= |s.procs| || s.plock[i].None?
         case Waiting => false
         case _ => true
  }

  function At(s: State, p: nat, pc: Pc): (r: State)
    requires p < |s.procs|
  {
    s.(procs := s.procs[p := s.procs[p].(pc := pc)])
  }

  function Step(s: State, e: Event): (r: State)
    requires Enabled(s, e)
  {
    match e
    case Dispatch(p) =>
      s.(procs := s.procs[p := s.procs[p].(pc := SleepTidy, run := Running)], plock := s.plock[p := Some(p)])
    case Kill(p) =>
      s.(procs := s.procs[p := s.procs[p].(run := Runnable)])
    case Go(p) =>
      match s.procs[p].pc
      case Outside => At(s, p, Acquire)
      case Acquire => At(s, p, Test).(spin := Some(p))
      case Test => if s.owner.Some? then At(s, p, SleepLockProc) else At(s, p, Take).(owner := Some(p))
      case SleepLockProc => At(s, p, SleepRelease).(plock := s.plock[p := Some(p)])
      case SleepRelease => At(s, p, SleepMark).(spin := None)
      case SleepMark => s.(procs := s.procs[p := Proc(SleepSched, Sleeping, true)])
      case SleepSched => At(s, p, Waiting).(plock := s.plock[p := None])
      case SleepTidy => s.(procs := s.procs[p := Proc(SleepReacquire, Running, false)], plock := s.plock[p := None])
      case SleepReacquire => At(s, p, Test).(spin := Some(p))
      case Take => At(s, p, Holding).(spin := None)
      case Holding => At(s, p, Release)
      case Release => At(s, p, Clear).(spin := Some(p))
      case Clear => At(s, p, Wake(0)).(owner := None)
      case Wake(i) =>
        if i >= |s.procs| then At(s, p, Outside).(spin := None)
        else if i == p then At(s, p, Wake(i + 1))
        else At(s, p, WakeOne(i)).(plock := s.plock[i := Some(p)])
      case WakeOne(i) =>
        var t := if i < |s.procs| && s.procs[i].run.Sleeping? && s.procs[i].onChan
                 then s.(procs := s.procs[i := s.procs[i].(run := Runnable)]) else s;
        At(t, p, Wake(i + 1)).(plock := if i < |s.plock| then s.plock[i := None] else s.plock)
      case Waiting => s
  }

  // ---- what every reachable state satisfies ----

  predicate HoldsSpin(pc: Pc) {
    pc.Test? || pc.SleepLockProc? || pc.SleepRelease? || pc.Take? || pc.Clear? || pc.Wake? || pc.WakeOne?
  }

  predicate HoldsOwn(pc: Pc) {
    pc.SleepRelease? || pc.SleepMark? || pc.SleepSched? || pc.SleepTidy?
  }

  predicate Owns(pc: Pc) {
    pc.Take? || pc.Holding? || pc.Release? || pc.Clear?
  }

  /** A release is under way and its wakeup has not passed process p yet. */
  predicate WillWake(s: State, p: nat) {
    && s.spin.Some? && s.spin.value < |s.procs|
    && var pc := s.procs[s.spin.value].pc;
       (pc.Wake? || pc.WakeOne?) && pc.i <= p
  }

  predicate LockedBy(s: State, i: nat)
    requires i < |s.procs| == |s.plock|
  {
    match s.plock[i]
    case None => !HoldsOwn(s.procs[i].pc)
    case Some(q) => q < |s.procs| && if q == i then HoldsOwn(s.procs[i].pc)
                                     else s.procs[q].pc == WakeOne(i) && !HoldsOwn(s.procs[i].pc)
  }

  predicate ProcOk(s: State, p: nat)
    requires p < |s.procs| == |s.plock|
  {
    var q := s.procs[p];
    && (HoldsSpin(q.pc) <==> s.spin == Some(p))
    && (Owns(q.pc) <==> s.owner == Some(p))
    && LockedBy(s, p)
    && (q.pc.SleepLockProc? || q.pc.SleepRelease? ==> s.owner.Some?)
    && (q.pc.WakeOne? ==> q.pc.i < |s.procs| && q.pc.i != p && s.plock[q.pc.i] == Some(p))
    && (q.pc.SleepSched? || q.pc.Waiting? ==> q.onChan && !q.run.Running?)
    && (!q.pc.SleepSched? && !q.pc.Waiting? ==> q.run.Running?)
    && (q.pc.SleepSched? ==> q.run.Sleeping?)
    && (q.pc.SleepMark? || q.run.Sleeping? ==> s.owner.Some? || WillWake(s, p))
  }

  predicate Inv(s: State) {
    && |s.plock| == |s.procs|
    && (forall p :: 0 <= p < |s.procs| ==> ProcOk(s, p))
    && (s.spin.Some? ==> s.spin.value < |s.procs|)
    && (s.owner.Some? ==> s.owner.value < |s.procs|)
  }

  lemma InvAt(s: State, p: nat)
    requires Inv(s) && p < |s.procs|
    ensures |s.plock| == |s.procs| && ProcOk(s, p)
    ensures s.spin.Some? ==> s.spin.value < |s.procs|
    ensures s.owner.Some? ==> s.owner.value < |s.procs|
  {
  }

  lemma AcquireKeeps(s: State, p: nat, q: nat)
    requires Inv(s) && Enabled(s, Go(p)) && q < |s.procs|
    requires s.procs[p].pc.Outside? || s.procs[p].pc.Acquire?
    ensures q < |Step(s, Go(p)).procs| == |Step(s, Go(p)).plock| && ProcOk(Step(s, Go(p)), q)
  {
    hide Inv;
    InvAt(s, p);
    InvAt(s, q);
  }

  lemma TakeKeeps(s: State, p: nat, q: nat)
    requires Inv(s) && Enabled(s, Go(p)) && q < |s.procs|
    requires s.procs[p].pc.Test? || s.procs[p].pc.Take?
    ensures q < |Step(s, Go(p)).procs| == |Step(s, Go(p)).plock| && ProcOk(Step(s, Go(p)), q)
  {
    hide Inv;
    InvAt(s, p);
    InvAt(s, q);
  }

  lemma FallAsleepKeeps(s: State, p: nat, q: nat)
    requires Inv(s) && Enabled(s, Go(p)) && q < |s.procs|
    requires s.procs[p].pc.SleepLockProc? || s.procs[p].pc.SleepRelease?
    ensures q < |Step(s, Go(p)).procs| == |Step(s, Go(p)).plock| && ProcOk(Step(s, Go(p)), q)
  {
    hide Inv;
    InvAt(s, p);
    InvAt(s, q);
  }

  lemma MarkKeeps(s: State, p: nat, q: nat)
    requires Inv(s) && Enabled(s, Go(p)) && q < |s.procs|
    requires s.procs[p].pc.SleepMark? || s.procs[p].pc.SleepSched?
    ensures q < |Step(s, Go(p)).procs| == |Step(s, Go(p)).plock| && ProcOk(Step(s, Go(p)), q)
  {
    hide Inv;
    InvAt(s, p);
    InvAt(s, q);
  }

  lemma ResumeKeeps(s: State, p: nat, q: nat)
    requires Inv(s) && Enabled(s, Go(p)) && q < |s.procs|
    requires s.procs[p].pc.SleepTidy? || s.procs[p].pc.SleepReacquire?
    ensures q < |Step(s, Go(p)).procs| == |Step(s, Go(p)).plock| && ProcOk(Step(s, Go(p)), q)
  {
    hide Inv;
    InvAt(s, p);
    InvAt(s, q);
  }

  lemma ReleaseKeeps(s: State, p: nat, q: nat)
    requires Inv(s) && Enabled(s, Go(p)) && q < |s.procs|
    requires s.procs[p].pc.Holding? || s.procs[p].pc.Release? || s.procs[p].pc.Clear?
    ensures q < |Step(s, Go(p)).procs| == |Step(s, Go(p)).plock| && ProcOk(Step(s, Go(p)), q)
  {
    hide Inv;
    InvAt(s, p);
    InvAt(s, q);
  }

  lemma WakeKeeps(s: State, p: nat, q: nat)
    requires Inv(s) && Enabled(s, Go(p)) && q < |s.procs|
    requires s.procs[p].pc.Wake?
    ensures q < |Step(s, Go(p)).procs| == |Step(s, Go(p)).plock| && ProcOk(Step(s, Go(p)), q)
  {
    hide Inv;
    InvAt(s, p);
    InvAt(s, q);
  }

  lemma WakeOneKeeps(s: State, p: nat, q: nat)
    requires Inv(s) && Enabled(s, Go(p)) && q < |s.procs|
    requires s.procs[p].pc.WakeOne?
    ensures q < |Step(s, Go(p)).procs| == |Step(s, Go(p)).plock| && ProcOk(Step(s, Go(p)), q)
  {
    hide Inv;
    InvAt(s, p);
    InvAt(s, q);
  }

  lemma OtherKeeps(s: State, e: Event, q: nat)
    requires Inv(s) && Enabled(s, e) && q < |s.procs| && !e.Go?
    ensures q < |Step(s, e).procs| == |Step(s, e).plock| && ProcOk(Step(s, e), q)
  {
    hide Inv;
    InvAt(s, e.p);
    InvAt(s, q);
  }

  lemma GoKeeps(s: State, p: nat, q: nat)
    requires Inv(s) && Enabled(s, Go(p)) && q < |s.procs|
    ensures q < |Step(s, Go(p)).procs| == |Step(s, Go(p)).plock| && ProcOk(Step(s, Go(p)), q)
  {
    hide ProcOk, Inv, Step;
    match s.procs[p].pc {
      case Outside => AcquireKeeps(s, p, q);
      case Acquire => AcquireKeeps(s, p, q);
      case Test => TakeKeeps(s, p, q);
      case Take => TakeKeeps(s, p, q);
      case SleepLockProc => FallAsleepKeeps(s, p, q);
      case SleepRelease => FallAsleepKeeps(s, p, q);
      case SleepMark => MarkKeeps(s, p, q);
      case SleepSched => MarkKeeps(s, p, q);
      case SleepTidy => ResumeKeeps(s, p, q);
      case SleepReacquire => ResumeKeeps(s, p, q);
      case Holding => ReleaseKeeps(s, p, q);
      case Release => ReleaseKeeps(s, p, q);
      case Clear => ReleaseKeeps(s, p, q);
      case Wake(_) => WakeKeeps(s, p, q);
      case WakeOne(_) => WakeOneKeeps(s, p, q);
    }
  }

  lemma StepShape(s: State, e: Event)
    requires Enabled(s, e) && (s.spin.Some? ==> s.spin.value < |s.procs|) && (s.owner.Some? ==> s.owner.value < |s.procs|)
    ensures var t := Step(s, e);
            && |t.procs| == |t.plock| == |s.procs|
            && (t.spin.Some? ==> t.spin.value < |t.procs|) && (t.owner.Some? ==> t.owner.value < |t.procs|)
  {
  }

  lemma StepInv(s: State, e: Event)
    requires Inv(s) && Enabled(s, e)
    ensures Inv(Step(s, e)) && |Step(s, e).procs| == |s.procs|
  {
    hide ProcOk, Step, Enabled;
    StepShape(s, e);
    forall q | 0 <= q < |s.procs| ensures |Step(s, e).procs| == |Step(s, e).plock| == |s.procs| && ProcOk(Step(s, e), q) {
      if e.Go? {
        GoKeeps(s, e.p, q);
      } else {
        OtherKeeps(s, e, q);
      }
    }
  }

  // ---- runs ----

  /** Nobody holds the lock and n processes are somewhere else. */
  function Start(n: nat): (s: State) {
    State(seq(n, i => Proc(Outside, Running, false)), None, seq(n, i => None), None)
  }

  predicate IsRun(s: State, es: seq<Event>)
    decreases |es|
  {
    es == [] || (Enabled(s, es[0]) && IsRun(Step(s, es[0]), es[1..]))
  }

  function Run(s: State, es: seq<Event>): (r: State)
    requires IsRun(s, es)
    decreases |es|
  {
    if es == [] then s else Run(Step(s, es[0]), es[1..])
  }

  lemma {:induction false} RunInv(s: State, es: seq<Event>)
    requires Inv(s) && IsRun(s, es)
    ensures Inv(Run(s, es)) && |Run(s, es).procs| == |s.procs|
    decreases |es|
  {
    hide Inv, Step, Enabled;
    if es != [] {
      StepInv(s, es[0]);
      RunInv(Step(s, es[0]), es[1..]);
    }
  }

  /** Over every interleaving: at most one process holds the sleep lock, and a process that sleeps
      on it while it is free is one a release still under way is about to wake. */
  lemma {:induction false} NoLostWakeup(n: nat, es: seq<Event>)
    requires IsRun(Start(n), es)
    ensures var s := Run(Start(n), es);
            && |s.procs| == n
            && (forall p, q :: 0 <= p < n && 0 <= q < n && Owns(s.procs[p].pc) && Owns(s.procs[q].pc) ==> p == q)
            && (forall p :: 0 <= p < n && s.procs[p].pc.Holding? ==> s.owner == Some(p))
            && (forall p :: 0 <= p < n && s.procs[p].run.Sleeping? && s.owner.None? ==> WillWake(s, p))
  {
    RunInv(Start(n), es);
    var s := Run(Start(n), es);
    forall p | 0 <= p < n
      ensures (Owns(s.procs[p].pc) <==> s.owner == Some(p)) && (s.procs[p].run.Sleeping? && s.owner.None? ==> WillWake(s, p))
    {
      assert ProcOk(s, p);
    }
  }

  /** p itself wants to go on: it is in acquiresleep or releasesleep and not asleep. */
  predicate Busy(q: Proc) {
    !q.pc.Outside? && !q.pc.Holding? && !(q.pc.Waiting? && q.run.Sleeping?)
  }

  /** While any process is busy with the lock some step is possible: spin locks never deadlock. */
  lemma {:induction false} NoDeadlock(n: nat, es: seq<Event>, p: nat)
    requires IsRun(Start(n), es) && p < |Run(Start(n), es).procs| && Busy(Run(Start(n), es).procs[p])
    ensures var s := Run(Start(n), es); SomeMove(s)
  {
    RunInv(Start(n), es);
    var s := Run(Start(n), es);
    assert ProcOk(s, p);
    var pc := s.procs[p].pc;
    if pc.Acquire? || pc.Release? || pc.SleepReacquire? {
      SpinFrees(s, p);
    } else if pc.SleepLockProc? || pc.Wake? {
      SpinHolderMoves(s, p);
    } else if pc.Waiting? {
      WaiterMoves(s, p);
    } else {
      assert Enabled(s, Go(p));
    }
  }

  ghost predicate SomeMove(s: State) {
    exists e: Event :: Enabled(s, e) && Busy(s.procs[e.p])
  }

  lemma WaiterMoves(s: State, p: nat)
    requires Inv(s) && p < |s.procs| && s.procs[p].pc.Waiting? && Busy(s.procs[p])
    ensures SomeMove(s)
  {
    assert ProcOk(s, p);
    if s.plock[p].None? {
      assert Enabled(s, Dispatch(p));
    } else {
      var q := s.plock[p].value;
      assert ProcOk(s, q);
      assert Enabled(s, Go(q));
    }
  }

  /** The holder of the spin lock can move, or the process it waits for can. */
  lemma SpinHolderMoves(s: State, p: nat)
    requires Inv(s) && p < |s.procs| && s.spin == Some(p)
    ensures SomeMove(s)
  {
    assert ProcOk(s, p);
    if s.procs[p].pc.Wake? && !Enabled(s, Go(p)) {
      var i := s.procs[p].pc.i;
      assert ProcOk(s, i);
      var q := s.plock[i].value;
      assert ProcOk(s, q);
      assert Enabled(s, Go(q)) && Busy(s.procs[q]);
    } else {
      assert s.plock[p].Some? ==> ProcOk(s, s.plock[p].value);
      assert Enabled(s, Go(p)) && Busy(s.procs[p]);
    }
  }

  lemma SpinFrees(s: State, p: nat)
    requires Inv(s) && p < |s.procs|
    requires s.procs[p].pc.Acquire? || s.procs[p].pc.Release? || s.procs[p].pc.SleepReacquire?
    ensures SomeMove(s)
  {
    if s.spin.None? {
      assert Enabled(s, Go(p)) && Busy(s.procs[p]);
    } else {
      SpinHolderMoves(s, s.spin.value);
    }
  }
}
