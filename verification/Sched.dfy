/** The multi-level feedback queue on one CPU: the scheduler's scan, the periodic boost and the tick
    accounting, one step at a time, interleaved with everything else that changes a process's state. */
module Sched {
  import opened Common

  const LIMIT_Q0 := 4
  const LIMIT_Q1 := 8
  const BOOST_INTERVAL := 100
  const TWO31 := 0x8000_0000

  datatype PState = Unused | Used | Sleeping | Runnable | Running | Zombie

  datatype Proc = Proc(state: PState, priority: nat, count: nat, inQ: seq<nat>)

  datatype Phase =
    | Fresh        // no tick since it was dispatched
    | MustYield    // charged for a tick: about to yield
    | MustExit     // killed when the tick came: about to exit

  datatype Pc =
    | RoundStart                                  // top of the scheduler's loop
    | Scan(prio: nat, idx: nat, found: bool)      // looking at proc[idx] for queue prio
    | OnCpu(prio: nat, idx: nat, phase: Phase)    // proc[idx] runs
    | Wfi                                         // nothing to run

  /** ticks counts every tick, counted those that came while a process ran or the CPU waited; the code
      keeps ticks and lastBoost modulo 2^32. since and charged are history: the ticks each process was
      charged since its creation or last boost, and since its creation. */
  datatype State = State(procs: seq<Proc>, pc: Pc, ticks: nat, lastBoost: nat, counted: nat, since: seq<nat>, charged: seq<nat>)

  datatype Event =
    | Begin              // the boost test at the top of a round
    | Look               // one table entry, or the end of the table
    | Tick               // timer interrupt, the running process is charged
    | TickKilled         // timer interrupt in user mode, the running process was killed
    | Leave(st: PState)  // the running process gives up the CPU
    | WfiTick            // timer interrupt ends wfi
    | WfiDevice          // another interrupt ends wfi
    | SchedTick          // timer interrupt in the scheduler's own code
    | Create(j: nat)     // allocproc
    | Ready(j: nat)      // the new process is complete
    | Abandon(j: nat)    // or it is not, for lack of memory
    | Wake(j: nat)
    | Reap(j: nat)

  // ---- tick accounting ----

  /** The accounting both trap handlers do for a timer interrupt. */
  function Charge(p: Proc): (r: Proc)
    requires p.priority < |p.inQ|
  {
    var q := p.(inQ := p.inQ[p.priority := p.inQ[p.priority] + 1], count := p.count + 1);
    if q.priority == 0 then (if q.count >= LIMIT_Q0 then q.(priority := 1, count := 0) else q)
    else if q.priority == 1 then (if q.count >= LIMIT_Q1 then q.(priority := 2, count := 0) else q)
    else q
  }

  /** Where a process is after t charged ticks. */
  function Level(t: nat): (r: (nat, nat)) {
    if t < LIMIT_Q0 then (0, t) else if t < LIMIT_Q0 + LIMIT_Q1 then (1, t - LIMIT_Q0) else (2, t - LIMIT_Q0 - LIMIT_Q1)
  }

  predicate ProcOk(p: Proc, since: nat, charged: nat) {
    && |p.inQ| == 3 && (p.priority, p.count) == Level(since)
    && p.inQ[0] + p.inQ[1] + p.inQ[2] == charged
  }

  lemma ChargeLaw(p: Proc, since: nat, charged: nat)
    requires ProcOk(p, since, charged)
    ensures ProcOk(Charge(p), since + 1, charged + 1) && Charge(p).state == p.state
    ensures forall k :: 0 <= k < 3 ==> Charge(p).inQ[k] == p.inQ[k] + if k == p.priority then 1 else 0
  {
  }

  function Fresh0(p: Proc): (r: Proc) {
    p.(state := Used, priority := 0, count := 0, inQ := [0, 0, 0])
  }

  function Boosted(p: Proc): (r: Proc) {
    if p.state.Unused? then p else p.(priority := 0, count := 0)
  }

  // ---- the steps ----

  /** The scheduler's unsigned difference of two 32-bit tick counts. */
  predicate Due(s: State) {
    (s.ticks % TWO32 - s.lastBoost % TWO32) % TWO32 >= BOOST_INTERVAL
  }

  predicate Sized(s: State) {
    |s.procs| == NPROC && |s.since| == NPROC && |s.charged| == NPROC
    && forall j :: 0 <= j < NPROC ==> s.procs[j].priority < |s.procs[j].inQ|
  }

  predicate Enabled(s: State, e: Event) {
    && Sized(s)
    && match e
       case Begin => s.pc.RoundStart?
       case Look => s.pc.Scan?
       case Tick => s.pc.OnCpu? && s.pc.idx < NPROC && s.pc.phase.Fresh?
       case TickKilled => s.pc.OnCpu? && s.pc.idx < NPROC && s.pc.phase.Fresh?
       case Leave(st) =>
         && s.pc.OnCpu? && s.pc.idx < NPROC
         && (st.Runnable? || st.Sleeping? || st.Zombie?)
         && (s.pc.phase.MustYield? ==> st.Runnable?) && (s.pc.phase.MustExit? ==> !st.Runnable?)
       case WfiTick => s.pc.Wfi?
       case WfiDevice => s.pc.Wfi?
       case SchedTick => (s.pc.RoundStart? || s.pc.Scan?) && s.ticks < s.lastBoost + TWO31
       case Create(j) => j < NPROC && s.procs[j].state.Unused?
       case Ready(j) => j < NPROC && s.procs[j].state.Used?
       case Abandon(j) => j < NPROC && s.procs[j].state.Used?
       case Wake(j) => j < NPROC && s.procs[j].state.Sleeping?
       case Reap(j) => j < NPROC && s.procs[j].state.Zombie?
  }

  function SetState(s: State, j: nat, st: PState): (r: State)
    requires j < |s.procs|
  {
    s.(procs := s.procs[j := s.procs[j].(state := st)])
  }

  function Boost(s: State): (r: State)
    requires Sized(s)
  {
    s.(procs := seq(NPROC, j requires 0 <= j < NPROC => Boosted(s.procs[j])),
       since := seq(NPROC, j requires 0 <= j < NPROC => if s.procs[j].state.Unused? then s.since[j] else 0),
       lastBoost := s.ticks)
  }

  function LookAt(s: State): (r: State)
    requires Sized(s) && s.pc.Scan?
  {
    var prio, idx := s.pc.prio, s.pc.idx;
    if idx < NPROC then
      if s.procs[idx].state.Runnable? && s.procs[idx].priority == prio
      then SetState(s, idx, Running).(pc := OnCpu(prio, idx, Fresh))
      else s.(pc := Scan(prio, idx + 1, s.pc.found))
    else if s.pc.found then s.(pc := RoundStart)
    else if prio < 2 then s.(pc := Scan(prio + 1, 0, false))
    else s.(pc := Wfi)
  }

  function Step(s: State, e: Event): (r: State)
    requires Enabled(s, e)
  {
    match e
    case Begin => (if Due(s) then Boost(s) else s).(pc := Scan(0, 0, false))
    case Look => LookAt(s)
    case Tick =>
      var i := s.pc.idx;
      s.(procs := s.procs[i := Charge(s.procs[i])], pc := s.pc.(phase := MustYield), ticks := s.ticks + 1,
         counted := s.counted + 1, since := s.since[i := s.since[i] + 1], charged := s.charged[i := s.charged[i] + 1])
    case TickKilled => s.(pc := s.pc.(phase := MustExit), ticks := s.ticks + 1, counted := s.counted + 1)
    case Leave(st) => SetState(s, s.pc.idx, st).(pc := Scan(s.pc.prio, s.pc.idx + 1, true))
    case WfiTick => s.(pc := RoundStart, ticks := s.ticks + 1, counted := s.counted + 1)
    case WfiDevice => s.(pc := RoundStart)
    case SchedTick => s.(ticks := s.ticks + 1)
    case Create(j) => s.(procs := s.procs[j := Fresh0(s.procs[j])], since := s.since[j := 0], charged := s.charged[j := 0])
    case Ready(j) => SetState(s, j, Runnable)
    case Abandon(j) => SetState(s, j, Unused)
    case Wake(j) => SetState(s, j, Runnable)
    case Reap(j) => SetState(s, j, Unused)
  }

  // ---- what every reachable state satisfies ----

  /** The boost test subtracts exactly: fewer than 2^32 ticks lie between it and the last boost. */
  predicate ClockOk(s: State) {
    && s.lastBoost <= s.ticks
    && s.ticks - s.lastBoost <= TWO31 + match s.pc
         case RoundStart => NPROC
         case Scan(_, idx, found) => if found then idx else 0
         case OnCpu(_, idx, phase) => if phase.Fresh? then idx else idx + 1
         case Wfi => 0
  }

  predicate PcOk(s: State)
    requires |s.procs| == NPROC
  {
    match s.pc
    case Scan(prio, idx, _) => prio < 3 && idx <= NPROC
    case OnCpu(prio, idx, phase) =>
      prio < 3 && idx < NPROC && s.procs[idx].state.Running? && (phase.Fresh? ==> s.procs[idx].priority == prio)
    case _ => true
  }

  predicate Inv(s: State) {
    && |s.procs| == NPROC && |s.since| == NPROC && |s.charged| == NPROC
    && (forall j :: 0 <= j < NPROC ==> ProcOk(s.procs[j], s.since[j], s.charged[j]))
    && PcOk(s) && ClockOk(s)
    && (forall j :: 0 <= j < NPROC && s.procs[j].state.Running? ==> s.pc.OnCpu? && s.pc.idx == j)
  }

  lemma DueExact(s: State)
    requires Inv(s)
    ensures (s.ticks % TWO32 - s.lastBoost % TWO32) % TWO32 == s.ticks - s.lastBoost
    ensures Due(s) <==> s.ticks - s.lastBoost >= BOOST_INTERVAL
  {
    ModDiff(s.ticks, s.lastBoost);
  }

  lemma ModDiff(a: nat, b: nat)
    requires b <= a < b + TWO32
    ensures (a % TWO32 - b % TWO32) % TWO32 == a - b
  {
    var qa, qb := a / TWO32, b / TWO32;
    assert a % TWO32 - b % TWO32 == (a - b) - (qa - qb) * TWO32;
    assert qa == qb || qa == qb + 1;
  }

  function Start(): (s: State) {
    State(seq(NPROC, j => Proc(Unused, 0, 0, [0, 0, 0])), RoundStart, 0, 0, 0, seq(NPROC, j => 0), seq(NPROC, j => 0))
  }

  lemma StepInv(s: State, e: Event)
    requires Inv(s) && Enabled(s, e)
    ensures Inv(Step(s, e))
  {
    hide Inv, Step, Enabled;
    match e
    case Begin => BeginInv(s) by { BeginEnabled(s); }
    case Look => LookInv(s);
    case Create(j) => ChangeInv(s, e);
    case Ready(j) => ChangeInv(s, e);
    case Abandon(j) => ChangeInv(s, e);
    case Wake(j) => ChangeInv(s, e);
    case Reap(j) => ChangeInv(s, e);
    case _ => TickInv(s, e);
  }

  lemma BeginEnabled(s: State)
    requires Enabled(s, Begin)
    ensures s.pc.RoundStart?
  {
  }

  lemma LookInv(s: State)
    requires Inv(s) && Enabled(s, Look)
    ensures Inv(Step(s, Look))
  {
  }

  /** A step of some other process or of an interrupt. */
  predicate External(e: Event) {
    e.Create? || e.Ready? || e.Abandon? || e.Wake? || e.Reap?
  }

  lemma ChangeInv(s: State, e: Event)
    requires Inv(s) && Enabled(s, e) && External(e)
    ensures Inv(Step(s, e))
  {
  }

  lemma TickInv(s: State, e: Event)
    requires Inv(s) && Enabled(s, e) && !External(e) && !e.Begin? && !e.Look?
    ensures Inv(Step(s, e))
  {
    if e.Tick? {
      ChargeLaw(s.procs[s.pc.idx], s.since[s.pc.idx], s.charged[s.pc.idx]);
    }
  }

  lemma BeginInv(s: State)
    requires Inv(s) && s.pc.RoundStart?
    ensures Sized(s) && Inv(Step(s, Begin))
  {
    DueExact(s);
  }

  /** A process in use is back in queue 0 with nothing counted; a free entry stays as it is. */
  predicate BackInFirst(p: Proc, r: Proc) {
    r.state == p.state && r.inQ == p.inQ && if p.state.Unused? then r == p else r.priority == 0 && r.count == 0
  }

  /** A round begins with everybody back in queue 0 exactly if 100 ticks have come since that last happened. */
  lemma BoostsWhenDue(s: State)
    requires Inv(s) && s.pc.RoundStart?
    ensures Enabled(s, Begin)
    ensures var t := Step(s, Begin);
            && t.ticks == s.ticks && |t.procs| == NPROC
            && if s.ticks - s.lastBoost >= 100
               then t.lastBoost == s.ticks && forall j :: 0 <= j < NPROC ==> BackInFirst(s.procs[j], t.procs[j])
               else t.procs == s.procs && t.lastBoost == s.lastBoost
  {
    InvSized(s);
    DueExact(s);
  }

  // ---- runs ----

  predicate IsRun(s: State, es: seq<Event>)
    decreases |es|
  {
    es == [] || (Enabled(s, es[0]) && IsRun(Step(s, es[0]), es[1..]))
  }

  function Run(s: State, es: seq<Event>): (r: State)
    requires IsRun(s, es)
    decreases |es|
  {
    if es == [] then s else Run(Step(s, es[0]), es[1..])
  }

  lemma {:induction false} RunInv(s: State, es: seq<Event>)
    requires Inv(s) && IsRun(s, es)
    ensures Inv(Run(s, es))
    decreases |es|
  {
    hide Inv, Enabled, Step;
    if es != [] {
      StepInv(s, es[0]);
      RunInv(Step(s, es[0]), es[1..]);
    }
  }

  /** Demotion law: whatever happens, a process's queue and count depend only on the ticks it was
      charged since its creation or the last boost, and its statistics add up to all it was charged. */
  lemma {:induction false} DemotionLaw(es: seq<Event>, j: nat)
    requires IsRun(Start(), es) && j < NPROC
    ensures var s := Run(Start(), es);
            && |s.procs| == NPROC && |s.since| == NPROC && |s.charged| == NPROC && |s.procs[j].inQ| == 3
            && s.procs[j].priority == (if s.since[j] < 4 then 0 else if s.since[j] < 12 then 1 else 2)
            && s.procs[j].count == s.since[j] - (if s.since[j] < 4 then 0 else if s.since[j] < 12 then 4 else 12)
            && s.procs[j].inQ[0] + s.procs[j].inQ[1] + s.procs[j].inQ[2] == s.charged[j]
  {
    RunInv(Start(), es);
    var s := Run(Start(), es);
    assert ProcOk(s.procs[j], s.since[j], s.charged[j]);
  }

  // ---- bounded waiting ----

  /** Ticks the current round can still count: each table entry is dispatched at most once in the
      scan that finds something, and each dispatch spans at most one tick. */
  function Rest(pc: Pc): (r: int) {
    match pc
    case RoundStart => 0
    case Scan(_, idx, found) => if found then NPROC - idx else NPROC
    case OnCpu(_, idx, phase) => NPROC - 1 - idx + if phase.Fresh? then 1 else 0
    case Wfi => 1
  }

  /** The scan of queue 0 has not passed q yet, and q is in queue 0. */
  predicate NextUp(s: State, q: nat)
    requires q < |s.procs|
  {
    && s.procs[q].priority == 0
    && match s.pc
       case Scan(prio, idx, _) => prio == 0 && idx <= q
       case OnCpu(prio, idx, _) => prio == 0 && idx < q
       case _ => false
  }

  /** Ticks that the table entries before q can still take. */
  function Ahead(pc: Pc, q: nat): (r: int) {
    match pc
    case Scan(_, idx, _) => q - idx
    case OnCpu(_, idx, phase) => q - idx - (if phase.Fresh? then 0 else 1)
    case _ => 0
  }

  /** A bound on the ticks still to be counted before q is dispatched. */
  function Bound(s: State, q: nat): (r: int)
    requires q < |s.procs|
  {
    if NextUp(s, q) then Ahead(s.pc, q)
    else Max(Rest(s.pc) + NPROC - 1, BOOST_INTERVAL + 2 * NPROC - 2 - (s.ticks - s.lastBoost))
  }

  function Max(a: int, b: int): (r: int) {
    if a > b then a else b
  }

  lemma BoundBegin(s: State, q: nat)
    requires Inv(s) && Enabled(s, Begin) && q < NPROC && s.procs[q].state.Runnable?
    ensures var t := Step(s, Begin); |t.procs| == NPROC && t.counted + Bound(t, q) <= s.counted + Bound(s, q)
  {
    DueExact(s);
  }

  lemma BoundLook(s: State, q: nat)
    requires Inv(s) && Enabled(s, Look) && q < NPROC && s.procs[q].state.Runnable? && Step(s, Look).procs[q].state.Runnable?
    ensures var t := Step(s, Look); |t.procs| == NPROC && t.counted + Bound(t, q) <= s.counted + Bound(s, q)
  {
  }

  lemma BoundOther(s: State, e: Event, q: nat)
    requires Inv(s) && Enabled(s, e) && !e.Begin? && !e.Look? && q < NPROC && s.procs[q].state.Runnable?
    ensures var t := Step(s, e); |t.procs| == NPROC && t.counted + Bound(t, q) <= s.counted + Bound(s, q)
  {
    hide ProcOk, Charge, Level;
  }

  lemma BoundStep(s: State, e: Event, q: nat)
    requires Inv(s) && Enabled(s, e) && q < NPROC
    requires q < |s.procs| && s.procs[q].state.Runnable?
    requires q < |Step(s, e).procs| && Step(s, e).procs[q].state.Runnable?
    ensures |Step(s, e).procs| == NPROC && Step(s, e).counted + Bound(Step(s, e), q) <= s.counted + Bound(s, q)
  {
    hide Inv, Enabled, Step, Bound;
    match e
    case Begin => BoundBegin(s, q);
    case Look => BoundLook(s, q);
    case _ => BoundOther(s, e, q);
  }

  /** q is runnable in every state of the run: it has not been dispatched yet. */
  predicate Waits(s: State, es: seq<Event>, q: nat)
    decreases |es|
  {
    && q < |s.procs| && s.procs[q].state.Runnable?
    && (es == [] || (Enabled(s, es[0]) && Waits(Step(s, es[0]), es[1..], q)))
  }

  lemma {:induction false} WaitsRun(s: State, es: seq<Event>, q: nat)
    requires Inv(s) && Waits(s, es, q)
    ensures IsRun(s, es) && Inv(Run(s, es)) && q < |Run(s, es).procs|
    ensures Run(s, es).counted + Bound(Run(s, es), q) <= s.counted + Bound(s, q)
    decreases |es|
  {
    hide Inv, Enabled, Step, Bound;
    if es != [] {
      InvSize(s);
      InvSize(Step(s, es[0])) by { StepInv(s, es[0]); }
      WaitsStep(s, es, q);
      BoundStep(s, es[0], q);
      StepInv(s, es[0]);
      WaitsRun(Step(s, es[0]), es[1..], q);
    }
  }

  lemma InvSize(s: State)
    requires Inv(s)
    ensures |s.procs| == NPROC
  {
  }

  lemma WaitsStep(s: State, es: seq<Event>, q: nat)
    requires es != [] && Waits(s, es, q)
    ensures q < |Step(s, es[0]).procs| && Step(s, es[0]).procs[q].state.Runnable?
  {
  }

  /** Starvation bound: from any reachable state, a process that stays runnable is dispatched before
      the ticks counted advance by BOOST_INTERVAL + 2 * NPROC - 1. */
  lemma {:induction false} StarvationBound(before: seq<Event>, es: seq<Event>, q: nat)
    requires IsRun(Start(), before) && Waits(Run(Start(), before), es, q)
    ensures var s := Run(Start(), before);
            IsRun(s, es) && Run(s, es).counted - s.counted <= BOOST_INTERVAL + 2 * NPROC - 2
  {
    var s := Run(Start(), before);
    RunInv(Start(), before);
    WaitsRun(s, es, q);
  }

  // ---- order of service ----

  /** A process that nobody has woken since the round began is served in turn: while it is runnable no later queue is
      looked at, it is not passed by unless somebody has run in its queue, and the scheduler does not wait. */
  predicate Kept(s: State, j: nat)
    requires |s.procs| == NPROC && j < NPROC
  {
    var runnable, q := s.procs[j].state.Runnable?, s.procs[j].priority;
    match s.pc
    case RoundStart => true
    case Scan(prio, idx, found) => runnable ==> q > prio || (q == prio && (j >= idx || found))
    case OnCpu(prio, idx, _) => runnable || j == idx ==> q >= prio
    case Wfi => !runnable
  }

  lemma KeptStep(s: State, e: Event, j: nat)
    requires Inv(s) && Enabled(s, e) && j < NPROC && Kept(s, j) && e != Ready(j) && e != Wake(j)
    ensures |Step(s, e).procs| == NPROC && Kept(Step(s, e), j)
  {
    hide ClockOk;
    assert ProcOk(s.procs[j], s.since[j], s.charged[j]);
    if e.Tick? {
      assert ProcOk(s.procs[s.pc.idx], s.since[s.pc.idx], s.charged[s.pc.idx]);
    }
  }

  lemma {:induction false} KeptRun(s: State, es: seq<Event>, j: nat)
    requires Inv(s) && IsRun(s, es) && j < NPROC && Kept(s, j) && Ready(j) !in es && Wake(j) !in es
    ensures |Run(s, es).procs| == NPROC && Kept(Run(s, es), j)
    decreases |es|
  {
    hide Inv, Enabled, Step, Kept;
    InvSize(s);
    if es != [] {
      KeptStep(s, es[0], j);
      StepInv(s, es[0]);
      KeptRun(Step(s, es[0]), es[1..], j);
    }
  }

  /** From the beginning of any round on, for as long as a process is not woken: the CPU never waits while it is
      runnable, and nobody of a later queue is dispatched while it is. */
  lemma ServedInOrder(before: seq<Event>, es: seq<Event>, j: nat)
    requires IsRun(Start(), before) && Run(Start(), before).pc.RoundStart? && IsRun(Run(Start(), before), es)
    requires j < NPROC && Ready(j) !in es && Wake(j) !in es
    ensures var t := Run(Run(Start(), before), es);
            && |t.procs| == NPROC
            && (t.pc.Wfi? ==> !t.procs[j].state.Runnable?)
            && (t.pc.OnCpu? && t.pc.phase.Fresh? && t.procs[j].state.Runnable? ==>
                  t.pc.idx < NPROC && t.procs[t.pc.idx].priority <= t.procs[j].priority)
  {
    hide IsRun, Run, Kept;
    RunInv(Start(), before);
    var s := Run(Start(), before);
    AtStart(s, j);
    KeptRun(s, es, j);
    RunInv(s, es);
    KeptSays(Run(s, es), j);
  }

  /** Over every run: a process on which the scheduler's look falls is dispatched exactly if it is runnable then and
      in the queue looked at, however it came to be so, and nobody else is affected. */
  lemma Dispatches(es: seq<Event>)
    requires IsRun(Start(), es) && Run(Start(), es).pc.Scan? && Run(Start(), es).pc.idx < NPROC
    ensures var s := Run(Start(), es); var i := s.pc.idx;
            && |s.procs| == NPROC && Enabled(s, Look)
            && var t := Step(s, Look);
               && |t.procs| == NPROC && (forall j :: 0 <= j < NPROC && j != i ==> t.procs[j] == s.procs[j])
               && if s.procs[i].state.Runnable? && s.procs[i].priority == s.pc.prio
                  then t.pc.OnCpu? && t.pc.idx == i && t.procs[i] == s.procs[i].(state := Running)
                  else t.pc == Scan(s.pc.prio, i + 1, s.pc.found) && t.procs[i] == s.procs[i]
  {
    hide IsRun, Run;
    RunInv(Start(), es);
    InvSized(Run(Start(), es));
  }

  lemma AtStart(s: State, j: nat)
    requires Inv(s) && s.pc.RoundStart? && j < NPROC
    ensures |s.procs| == NPROC && Kept(s, j)
  {
  }

  lemma KeptSays(t: State, j: nat)
    requires Inv(t) && j < NPROC && Kept(t, j)
    ensures t.pc.Wfi? ==> !t.procs[j].state.Runnable?
    ensures t.pc.OnCpu? && t.pc.phase.Fresh? && t.procs[j].state.Runnable? ==>
      t.pc.idx < NPROC && t.procs[t.pc.idx].priority <= t.procs[j].priority
  {
  }

  // ---- the code behind the steps ----

  lemma {:induction false} RunSnoc(s: State, es: seq<Event>, e: Event)
    requires IsRun(s, es) && Enabled(Run(s, es), e)
    ensures IsRun(s, es + [e]) && Run(s, es + [e]) == Step(Run(s, es), e)
    decreases |es|
  {
    hide Enabled, Step;
    if es == [] {
      assert [e][1..] == [];
      assert Run(Step(s, e), []) == Step(s, e);
      assert es + [e] == [e];
    } else {
      assert (es + [e])[1..] == es[1..] + [e];
      RunSnoc(Step(s, es[0]), es[1..], e);
    }
  }

  /** What happens around one entry of the table: interrupts before the scheduler looks at it; and, if the
      process is dispatched, at most one tick while it runs, charged or not, changes to other processes, and the
      state it leaves in. */
  datatype Turn = Turn(before: seq<Event>, tick: bool, killed: bool, others: seq<Event>, leave: PState)

  predicate Interrupts(es: seq<Event>) {
    forall o :: 0 <= o < |es| ==> External(es[o]) || es[o].SchedTick?
  }

  predicate Proper(turns: seq<Turn>) {
    && |turns| == NPROC && (forall i :: 0 <= i < NPROC ==> Interrupts(turns[i].before))
    && forall i, o :: 0 <= i < NPROC && 0 <= o < |turns[i].others| ==> External(turns[i].others[o])
  }

  /** The scheduler's own steps in a run: rounds begun, table entries looked at, waits ended. */
  function Own(es: seq<Event>): (r: seq<Event>) {
    if es == [] then []
    else
      var e := es[|es| - 1];
      Own(es[..|es| - 1]) + if e.Begin? || e.Look? || e.WfiTick? || e.WfiDevice? then [e] else []
  }

  /** How often a process has run and given up the CPU. */
  function Ran(es: seq<Event>): (n: nat) {
    if es == [] then 0 else Ran(es[..|es| - 1]) + if es[|es| - 1].Leave? then 1 else 0
  }

  function Looks(n: nat): (es: seq<Event>) {
    seq(n, i => Look)
  }

  lemma TrailMore(es: seq<Event>, e: Event)
    ensures Own(es + [e]) == Own(es) + if e.Begin? || e.Look? || e.WfiTick? || e.WfiDevice? then [e] else []
    ensures Ran(es + [e]) == Ran(es) + if e.Leave? then 1 else 0
  {
    assert (es + [e])[..|es|] == es;
  }

  lemma LooksMore(a: seq<Event>, n: nat, m: nat)
    ensures a + Looks(n) + Looks(m) == a + Looks(n + m) && Looks(1) == [Look] && a + Looks(0) == a
  {
  }

  /** Whoever was runnable still is, in the same queue. */
  predicate Undisturbed(before: seq<Proc>, after: seq<Proc>) {
    |after| == |before| && forall j :: 0 <= j < |before| && before[j].state.Runnable? ==> after[j] == before[j]
  }

  /** The same of the entries from i on. */
  predicate Waiting(before: seq<Proc>, after: seq<Proc>, i: nat) {
    |after| == |before| && forall j :: i <= j < |before| && before[j].state.Runnable? ==> after[j] == before[j]
  }

  /** Those who run in a pass: in the order of the table, and of those runnable before it exactly the ones in the
      queue. */
  predicate InTurn(procs: seq<Proc>, prio: nat, ran: seq<nat>) {
    InTurnTo(procs, prio, ran, |procs|)
  }

  predicate InTurnTo(procs: seq<Proc>, prio: nat, ran: seq<nat>, i: nat) {
    && (forall k, l :: 0 <= k < l < |ran| ==> ran[k] < ran[l]) && (forall k :: 0 <= k < |ran| ==> ran[k] < i)
    && forall j :: 0 <= j < i && j < |procs| && procs[j].state.Runnable? ==> (j in ran <==> procs[j].priority == prio)
  }

  /** One entry of a pass: table is the table when the scheduler looks. */
  lemma PassOn(before: seq<Proc>, head: seq<Proc>, table: seq<Proc>, after: seq<Proc>, prio: nat,
               ran: seq<nat>, ran': seq<nat>, i: nat)
    requires Waiting(before, head, i) && InTurnTo(before, prio, ran, i) && Undisturbed(head, table) && i < |before|
    requires if table[i].state.Runnable? && table[i].priority == prio
             then |after| == |table| && ran' == ran + [i] && Undisturbed(table[i := after[i]], after)
             else after == table && ran' == ran
    ensures Waiting(before, after, i + 1) && InTurnTo(before, prio, ran', i + 1)
    ensures ran' == [] && Undisturbed(before, head) ==> Undisturbed(before, after)
  {
    var mid := table[i := after[i]];
    assert forall j :: i < j < |before| ==> mid[j] == table[j];
    if table[i].state.Runnable? && table[i].priority == prio {
      assert ran'[|ran|] == i;
    }
    assert forall j :: j in ran ==> j in ran';
  }

  /** Only entry i has changed. */
  predicate OnlyHere(before: seq<Proc>, after: seq<Proc>, i: nat) {
    |after| == |before| && forall j :: 0 <= j < |before| && j != i ==> after[j] == before[j]
  }

  lemma SliceTable(before: seq<Proc>, table: seq<Proc>, after: seq<Proc>, i: nat)
    requires Undisturbed(before, table) && OnlyHere(table, after, i) && i < |before|
    ensures |after| == |before| && Undisturbed(before[i := after[i]], after)
  {
  }

  lemma UndisturbedOn(a: seq<Proc>, b: seq<Proc>, c: seq<Proc>)
    requires Undisturbed(a, b) && Undisturbed(b, c)
    ensures Undisturbed(a, c)
  {
  }

  /** The table after the boost test: as it was, or everybody back in queue 0. */
  predicate Begun(before: seq<Proc>, table: seq<Proc>) {
    && |table| == |before|
    && ((forall j :: 0 <= j < |before| && before[j].state.Runnable? ==> table[j] == before[j])
        || (forall j :: 0 <= j < |before| && before[j].state.Runnable? ==> table[j] == before[j].(priority := 0, count := 0)))
  }

  lemma BeginTable(before: seq<Proc>, s: State)
    requires Inv(s) && s.pc.RoundStart? && Undisturbed(before, s.procs)
    ensures Enabled(s, Begin) && Begun(before, Step(s, Begin).procs)
    ensures forall j :: 0 <= j < NPROC && j < |Step(s, Begin).procs| ==> Step(s, Begin).procs[j].priority < 3
  {
    InvSized(s);
    forall j | 0 <= j < NPROC
      ensures s.procs[j].priority < 3
    {
      assert ProcOk(s.procs[j], s.since[j], s.charged[j]);
    }
  }

  /** The process table and the scheduler's static variable. trail is the run of the step machine that
      led here, at its end. */
  class Cpu {
    var procs: seq<Proc>
    var ticks: nat
    var lastBoost: nat
    ghost var start: State
    ghost var trail: seq<Event>

    ghost function S(): (s: State)
      requires IsRun(start, trail)
      reads this
    {
      Run(start, trail)
    }

    /** The fields are those of the state the trail leads to. */
    ghost predicate Valid()
      reads this
    {
      && Inv(start) && IsRun(start, trail) && Inv(S()) && Sized(S())
      && procs == S().procs && ticks == S().ticks % TWO32 && lastBoost == S().lastBoost % TWO32
    }

    constructor ()
      ensures Valid() && start == Start() && trail == []
    {
      procs := seq(NPROC, j => Proc(Unused, 0, 0, [0, 0, 0]));
      ticks, lastBoost := 0, 0;
      start, trail := Start(), [];
    }

    /** The trail is extended by e once the fields show its effect. */
    ghost method Took(e: Event)
      requires Inv(start) && IsRun(start, trail) && Inv(S()) && Enabled(S(), e)
      modifies this`trail
      ensures trail == old(trail) + [e] && IsRun(start, trail) && S() == Step(old(S()), e) && Inv(S()) && Sized(S())
      ensures Own(trail) == Own(old(trail)) + if e.Begin? || e.Look? || e.WfiTick? || e.WfiDevice? then [e] else []
      ensures Ran(trail) == Ran(old(trail)) + if e.Leave? then 1 else 0
    {
      hide Inv, Enabled, Step;
      TrailMore(trail, e);
      RunSnoc(start, trail, e);
      StepInv(S(), e);
      trail := trail + [e];
      InvSized(S());
    }

    /** The accounting in usertrap and kerneltrap for the running process. */
    method TimerTick(i: nat)
      requires i < |procs| && procs[i].priority < |procs[i].inQ|
      modifies this`procs
      ensures procs == old(procs)[i := Charge(old(procs)[i])]
    {
      var p := procs[i];
      p := p.(inQ := p.inQ[p.priority := p.inQ[p.priority] + 1]);
      p := p.(count := p.count + 1);
      if p.priority == 0 {
        if p.count >= LIMIT_Q0 {
          p := p.(priority := 1);
          p := p.(count := 0);
        }
      } else if p.priority == 1 {
        if p.count >= LIMIT_Q1 {
          p := p.(priority := 2);
          p := p.(count := 0);
        }
      }
      procs := procs[i := p];
    }

    /** Everyone back to queue 0. */
    method BoostAll()
      requires |procs| == NPROC
      modifies this`procs
      ensures |procs| == NPROC && forall j :: 0 <= j < NPROC ==> procs[j] == Boosted(old(procs)[j])
    {
      for j := 0 to NPROC
        invariant |procs| == NPROC
        invariant forall k :: 0 <= k < j ==> procs[k] == Boosted(old(procs)[k])
        invariant forall k :: j <= k < NPROC ==> procs[k] == old(procs)[k]
      {
        if !procs[j].state.Unused? {
          procs := procs[j := procs[j].(priority := 0, count := 0)];
        }
      }
    }

    /** The top of a round. */
    method BeginRound()
      requires Valid() && S().pc.RoundStart?
      modifies this
      ensures Valid() && S() == Step(old(S()), Begin) && start == old(start) && trail == old(trail) + [Begin]
      ensures Own(trail) == Own(old(trail)) + [Begin] && Ran(trail) == Ran(old(trail))
      ensures ticks == old(ticks) && |procs| == |old(procs)|
      ensures if (old(ticks) - old(lastBoost)) % TWO32 >= 100
              then lastBoost == ticks && forall j :: 0 <= j < |procs| ==> BackInFirst(old(procs)[j], procs[j])
              else procs == old(procs) && lastBoost == old(lastBoost)
    {
      hide IsRun, Run, Own, Ran;
      ghost var s := S();
      Took(Begin);
      if (ticks - lastBoost) % TWO32 >= BOOST_INTERVAL {
        BoostAll();
        lastBoost := ticks;
        assert procs == Boost(s).procs;
      }
    }

    /** The effect of another process, or of an interrupt, on the table. */
    method Change(e: Event)
      requires Valid() && External(e)
      modifies this`procs, this`trail
      ensures Valid() && S().pc == old(S().pc) && old(trail) <= trail && Undisturbed(old(procs), procs)
      ensures Own(trail) == Own(old(trail)) && Ran(trail) == Ran(old(trail))
    {
      hide IsRun, Run, Inv, Own, Ran;
      match e
      case Create(j) =>
        if j < NPROC && procs[j].state.Unused? {
          Took(e);
          procs := procs[j := Proc(Used, 0, 0, [0, 0, 0])];
        }
      case Ready(j) =>
        if j < NPROC && procs[j].state.Used? {
          Took(e);
          procs := procs[j := procs[j].(state := Runnable)];
        }
      case Abandon(j) =>
        if j < NPROC && procs[j].state.Used? {
          Took(e);
          procs := procs[j := procs[j].(state := Unused)];
        }
      case Wake(j) =>
        if j < NPROC && procs[j].state.Sleeping? {
          Took(e);
          procs := procs[j := procs[j].(state := Runnable)];
        }
      case Reap(j) =>
        if j < NPROC && procs[j].state.Zombie? {
          Took(e);
          procs := procs[j := procs[j].(state := Unused)];
        }
    }

    /** The running process is interrupted by the timer. */
    method Preempted(i: nat, killed: bool)
      requires Valid() && S().pc.OnCpu? && S().pc.idx == i && S().pc.phase.Fresh?
      modifies this`procs, this`ticks, this`trail
      ensures Valid() && S().pc == old(S().pc).(phase := if killed then MustExit else MustYield)
      ensures trail == old(trail) + [if killed then TickKilled else Tick]
      ensures OnlyHere(old(procs), procs, i)
      ensures Own(trail) == Own(old(trail)) && Ran(trail) == Ran(old(trail))
    {
      hide IsRun, Run, Inv, Own, Ran;
      RunningIndex(S());
      ModNext(S().ticks);
      Took(if killed then TickKilled else Tick);
      ticks := (ticks + 1) % TWO32;
      if !killed {
        TimerTick(i);
      }
    }

    /** Interrupts that the scheduler takes between two steps of its own. Of timer ticks, fewer than 2^31 since
        the last boost. */
    method Interrupted(es: seq<Event>)
      requires Valid() && (S().pc.RoundStart? || S().pc.Scan?) && Interrupts(es)
      modifies this`procs, this`ticks, this`trail
      ensures Valid() && S().pc == old(S().pc) && old(trail) <= trail && Undisturbed(old(procs), procs)
      ensures Own(trail) == Own(old(trail)) && Ran(trail) == Ran(old(trail))
    {
      hide IsRun, Run, Inv, Own, Ran;
      ghost var pc := S().pc;
      for o := 0 to |es|
        invariant Valid() && S().pc == pc && old(trail) <= trail && Undisturbed(old(procs), procs)
        invariant Own(trail) == Own(old(trail)) && Ran(trail) == Ran(old(trail))
      {
        if es[o].SchedTick? {
          DueExact(S());
          if (ticks - lastBoost) % TWO32 < TWO31 {
            ModNext(S().ticks);
            Took(SchedTick);
            ticks := (ticks + 1) % TWO32;
          }
        } else {
          Change(es[o]);
        }
      }
    }

    /** The time slice of the process just switched to, until it is back in the scheduler. */
    method Slice(i: nat, turn: Turn)
      requires Valid() && S().pc.OnCpu? && S().pc.idx == i && S().pc.phase.Fresh?
      requires forall o :: 0 <= o < |turn.others| ==> External(turn.others[o])
      modifies this`procs, this`ticks, this`trail
      ensures Valid() && S().pc == Scan(old(S().pc.prio), i + 1, true) && old(trail) < trail && trail[|trail| - 1].Leave?
      ensures i < NPROC && |procs| == |old(procs)| && Undisturbed(old(procs)[i := procs[i]], procs)
      ensures Own(trail) == Own(old(trail)) && Ran(trail) == Ran(old(trail)) + 1
    {
      hide IsRun, Run, Inv, Own, Ran, Undisturbed;
      ghost var pc := S().pc;
      RunningIndex(S());
      SameTable(procs);
      for o := 0 to |turn.others|
        invariant Valid() && S().pc == pc && old(trail) <= trail && Undisturbed(old(procs), procs)
        invariant Own(trail) == Own(old(trail)) && Ran(trail) == Ran(old(trail))
      {
        ghost var before := procs;
        Change(turn.others[o]);
        UndisturbedOn(old(procs), before, procs);
      }
      ghost var table := procs;
      var st := if turn.leave.Sleeping? || turn.leave.Zombie? then turn.leave else Runnable;
      if turn.tick {
        Preempted(i, turn.killed);
        st := if !turn.killed then Runnable else if turn.leave.Sleeping? then Sleeping else Zombie;
      }
      RunningIndex(S());
      Took(Leave(st));
      procs := procs[i := procs[i].(state := st)];
      SliceTable(old(procs), table, procs, i);
    }

    /** One pass over the table for queue prio: everybody who is runnable in this queue when it begins runs, in the
        order of the table. */
    method ScanQueue(prio: nat, turns: seq<Turn>) returns (found: bool, ghost ran: seq<nat>)
      requires Valid() && S().pc == Scan(prio, 0, false) && Proper(turns)
      modifies this`procs, this`ticks, this`trail
      ensures InTurn(old(procs), prio, ran) && (found <==> ran != []) && (!found ==> Undisturbed(old(procs), procs))
      ensures Valid() && S().pc == Scan(prio, NPROC, found) && old(trail) < trail
      ensures Own(trail) == Own(old(trail)) + Looks(NPROC)
      ensures Ran(trail) >= Ran(old(trail)) && (found <==> Ran(trail) > Ran(old(trail)))
    {
      hide IsRun, Run, Inv, Own, Ran, Looks;
      LooksMore(Own(trail), 0, 0);
      found, ran := false, [];
      for i := 0 to NPROC
        invariant Waiting(old(procs), procs, i) && InTurnTo(old(procs), prio, ran, i) && (found <==> ran != [])
        invariant !found ==> Undisturbed(old(procs), procs)
        invariant Valid() && S().pc == Scan(prio, i, found) && old(trail) <= trail && (i > 0 ==> old(trail) < trail)
        invariant Own(trail) == Own(old(trail)) + Looks(i)
        invariant Ran(trail) >= Ran(old(trail)) && (found <==> Ran(trail) > Ran(old(trail)))
      {
        LooksMore(Own(old(trail)), i, 1);
        ghost var head, ran0 := procs, ran;
        Interrupted(turns[i].before);
        Took(Look);
        ghost var table := procs;
        if procs[i].state.Runnable? && procs[i].priority == prio {
          procs := procs[i := procs[i].(state := Running)];
          Slice(i, turns[i]);
          found, ran := true, ran + [i];
        }
        PassOn(old(procs), head, table, procs, prio, ran0, ran, i);
      }
    }

    /** One turn of the scheduler's endless loop. Every state it passes through is one of the step machine's,
        so the laws above hold of the fields throughout. It looks at whole queues, one after the other, until
        in one of them some process has run; if none has, it waits for an interrupt. table is the table after
        the boost test: all who were runnable in the first queue that had somebody run, and nobody was in an
        earlier one; and the wait comes only if nobody was runnable at all. */
    method Round(first: seq<Event>, passes: seq<seq<Turn>>, timer: bool)
      returns (ghost queues: nat, ghost found: bool, ghost ran: seq<nat>, ghost table: seq<Proc>)
      requires Valid() && S().pc.RoundStart? && Interrupts(first)
      requires |passes| == 3 && forall q :: 0 <= q < 3 ==> Proper(passes[q])
      modifies this
      ensures Valid() && S().pc.RoundStart? && start == old(start) && old(trail) < trail
      ensures 1 <= queues <= 3 && (!found ==> queues == 3) && (found <==> ran != [])
      ensures Begun(old(procs), table) && |table| == NPROC
      ensures found ==> forall j :: 0 <= j < NPROC && table[j].state.Runnable? ==>
        table[j].priority >= queues - 1 && (table[j].priority == queues - 1 <==> j in ran)
      ensures !found ==> forall j :: 0 <= j < NPROC && j < |old(procs)| ==>
                           !table[j].state.Runnable? && !old(procs)[j].state.Runnable?
      ensures Own(trail) == Own(old(trail)) + [Begin] + Looks(queues * (NPROC + 1))
                            + if found then [] else [if timer then WfiTick else WfiDevice]
      ensures Ran(trail) >= Ran(old(trail)) && (found <==> Ran(trail) > Ran(old(trail)))
    {
      hide IsRun, Run, Inv, Own, Ran, Looks, Enabled, Step, Sized, Begun, Undisturbed, InTurn;
      Interrupted(first);
      ghost var s := S();
      BeginRound();
      BeginPc(s);
      BeginTable(old(procs), s);
      table, ran := procs, [];
      InvSize(S());
      SameTable(procs);
      var some, prio := false, 0;
      queues := 0;
      ghost var own := Own(trail);
      LooksMore(own, 0, 0);
      while prio < 3 && !some
        invariant 0 <= prio <= 3 && Valid() && start == old(start) && old(trail) < trail
        invariant S().pc == if some then Scan(prio, NPROC, true) else if prio < 3 then Scan(prio, 0, false) else Wfi
        invariant queues == prio && (some ==> prio < 3) && |procs| == NPROC && (some <==> ran != [])
        invariant forall j :: 0 <= j < NPROC && table[j].state.Runnable? ==>
          table[j].priority >= prio && (some ==> (table[j].priority == prio <==> j in ran))
        invariant !some ==> Undisturbed(table, procs)
        invariant Own(trail) == own + Looks(queues * (NPROC + 1) + if some then NPROC else 0)
        invariant Ran(trail) >= Ran(old(trail)) && (some <==> Ran(trail) > Ran(old(trail)))
        decreases 3 - prio, !some
      {
        ghost var before := procs;
        some, ran := ScanQueue(prio, passes[prio]);
        InvSize(S());
        PassOver(table, before, procs, prio, ran);
        LooksMore(own, queues * (NPROC + 1), NPROC);
        LookPc(S());
        if !some {
          Took(Look);
          LooksMore(own, queues * (NPROC + 1) + NPROC, 1);
          prio, queues := prio + 1, queues + 1;
        }
      }
      found := some;
      BegunRunnable(old(procs), table);
      WfiPc(S());
      if some {
        LookPc(S());
        Took(Look);
        LooksMore(own, queues * (NPROC + 1) + NPROC, 1);
        queues := queues + 1;
      } else if timer {
        ModNext(S().ticks);
        Took(WfiTick);
        ticks := (ticks + 1) % TWO32;
      } else {
        Took(WfiDevice);
      }
    }
  }

  lemma SameTable(procs: seq<Proc>)
    ensures Undisturbed(procs, procs)
  {
  }

  /** After a pass: those who were runnable in its queue have run, and if nobody has, nobody was in it. */
  lemma PassOver(table: seq<Proc>, before: seq<Proc>, after: seq<Proc>, prio: nat, ran: seq<nat>)
    requires Undisturbed(table, before) && InTurn(before, prio, ran) && |table| == NPROC
    requires forall j :: 0 <= j < NPROC && table[j].state.Runnable? ==> table[j].priority >= prio
    requires ran == [] ==> Undisturbed(before, after)
    ensures forall j :: 0 <= j < NPROC && table[j].state.Runnable? ==> (table[j].priority == prio <==> j in ran)
    ensures ran == [] ==>
              && Undisturbed(table, after)
              && forall j :: 0 <= j < NPROC && table[j].state.Runnable? ==> table[j].priority >= prio + 1
  {
  }

  /** Whoever is runnable before the boost test is so after it. */
  lemma BegunRunnable(before: seq<Proc>, table: seq<Proc>)
    requires Begun(before, table)
    ensures |table| == |before| && forall j :: 0 <= j < |before| && before[j].state.Runnable? ==> table[j].state.Runnable?
  {
  }

  lemma BeginPc(s: State)
    requires Inv(s) && s.pc.RoundStart?
    ensures Enabled(s, Begin) && Step(s, Begin).pc == Scan(0, 0, false)
  {
    InvSized(s);
  }

  /** The look that ends a pass over the table. */
  lemma LookPc(s: State)
    requires Inv(s) && s.pc.Scan? && s.pc.idx == NPROC
    ensures Enabled(s, Look) && Step(s, Look) == s.(pc := Step(s, Look).pc)
    ensures Step(s, Look).pc == if s.pc.found then RoundStart else if s.pc.prio < 2 then Scan(s.pc.prio + 1, 0, false) else Wfi
  {
    InvSized(s);
  }

  lemma WfiPc(s: State)
    requires Inv(s)
    ensures s.pc.Wfi? ==> Enabled(s, WfiTick) && Enabled(s, WfiDevice)
    ensures s.pc.Wfi? ==> Step(s, WfiTick).pc.RoundStart? && Step(s, WfiDevice).pc.RoundStart?
    ensures s.pc.Wfi? ==> Step(s, WfiTick).ticks == s.ticks + 1 && Step(s, WfiTick).lastBoost == s.lastBoost
    ensures s.pc.Wfi? ==> Step(s, WfiDevice).ticks == s.ticks && Step(s, WfiDevice).lastBoost == s.lastBoost
    ensures s.pc.Wfi? ==> Step(s, WfiTick).procs == s.procs && Step(s, WfiDevice).procs == s.procs
  {
    InvSized(s);
  }

  lemma RunningIndex(s: State)
    requires Inv(s) && s.pc.OnCpu?
    ensures s.pc.idx < NPROC
  {
  }

  lemma ModNext(a: nat)
    ensures (a % TWO32 + 1) % TWO32 == (a + 1) % TWO32
  {
  }

  lemma InvSized(s: State)
    requires Inv(s)
    ensures Sized(s)
  {
    forall j | 0 <= j < NPROC
      ensures s.procs[j].priority < |s.procs[j].inQ|
    {
      assert ProcOk(s.procs[j], s.since[j], s.charged[j]);
    }
  }
}
