/** begin_op, log_write, end_op and the end of commit as atomic steps (each holds log.lock),
    interleaved by any number of processes. */
module LogProto {
  import opened Common
  import opened LogSpec

  /** Where a process stands: outside, asleep in begin_op, or inside an operation that
      has added `added` new blocks to the log. */
  datatype Proc = Out | Asleep | In(added: nat)

  /** end_op commits without the lock: the log is first written and emptied, then released. */
  datatype Phase = Idle | Writing | Written

  /** The log structure; `procs` also records what the source leaves implicit. */
  datatype State = State(blocks: seq<nat>, outstanding: int, phase: Phase, procs: seq<Proc>, panicked: bool) {
    predicate Committing() { !phase.Idle? }
  }

  datatype Event =
    | BeginOp(p: nat)
    | LogWrite(p: nat, b: nat)
    | EndOp(p: nat)
    | Commit
    | CommitDone

  /** What a process may do next. An operation calls log_write only while it has added fewer
      than MAXOPBLOCKS blocks; a sleeper does nothing until it is woken. */
  predicate Enabled(s: State, e: Event) {
    match e
    case BeginOp(p) => p < |s.procs| && s.procs[p].Out?
    case LogWrite(p, b) => p < |s.procs| && s.procs[p].In? && s.procs[p].added < MAXOPBLOCKS
    case EndOp(p) => p < |s.procs| && s.procs[p].In?
    case Commit => s.phase.Writing?
    case CommitDone => s.phase.Written?
  }

  /** wakeup(&log) */
  function Wake(procs: seq<Proc>): (r: seq<Proc>)
    ensures |r| == |procs|
  {
    seq(|procs|, (i: nat) requires i < |procs| => if procs[i].Asleep? then Out else procs[i])
  }

  /** begin_op refuses: a commit is running, or the reservation might not fit. */
  predicate MustWait(s: State) {
    s.Committing() || |s.blocks| + (s.outstanding + 1) * MAXOPBLOCKS > LOGBLOCKS
  }

  function Step(s: State, e: Event): (r: State)
    requires Enabled(s, e)
  {
    match e
    case BeginOp(p) =>
      if MustWait(s) then s.(procs := s.procs[p := Asleep])
      else s.(outstanding := s.outstanding + 1, procs := s.procs[p := In(0)])
    case LogWrite(p, b) =>
      if |s.blocks| >= LOGBLOCKS || s.outstanding < 1 then s.(panicked := true)
      else if b in s.blocks then s
      else s.(blocks := s.blocks + [b], procs := s.procs[p := In(s.procs[p].added + 1)])
    case EndOp(p) =>
      var t := s.(outstanding := s.outstanding - 1, procs := s.procs[p := Out]);
      if s.Committing() then t.(panicked := true)
      else if t.outstanding == 0 then t.(phase := Writing)
      else t.(procs := Wake(t.procs))
    case Commit => s.(blocks := [], phase := Written)
    case CommitDone => s.(phase := Idle, procs := Wake(s.procs))
  }

  function Active(procs: seq<Proc>): nat {
    if procs == [] then 0 else Active(procs[..|procs| - 1]) + if procs[|procs| - 1].In? then 1 else 0
  }

  /** Blocks the operations in progress may still add. */
  function Reserved(procs: seq<Proc>): int {
    if procs == [] then 0
    else Reserved(procs[..|procs| - 1]) + var q := procs[|procs| - 1]; if q.In? then MAXOPBLOCKS - q.added else 0
  }

  lemma {:induction false} CountUpdate(procs: seq<Proc>, p: nat, q: Proc)
    requires p < |procs|
    ensures Active(procs[p := q]) ==
            Active(procs) + (if q.In? then 1 else 0) - (if procs[p].In? then 1 else 0)
    ensures Reserved(procs[p := q]) ==
            Reserved(procs) + (if q.In? then MAXOPBLOCKS - q.added else 0)
                            - (if procs[p].In? then MAXOPBLOCKS - procs[p].added else 0)
  {
    var k := |procs| - 1;
    if p < k {
      assert procs[p := q][..k] == procs[..k][p := q];
      CountUpdate(procs[..k], p, q);
    } else {
      assert procs[p := q][..k] == procs[..k];
    }
  }

  lemma {:induction false} CountWake(procs: seq<Proc>)
    ensures Active(Wake(procs)) == Active(procs) && Reserved(Wake(procs)) == Reserved(procs)
    decreases |procs|
  {
    if procs != [] {
      var k := |procs| - 1;
      assert Wake(procs)[..k] == Wake(procs[..k]);
      CountWake(procs[..k]);
    }
  }

  lemma {:induction false} CountBounds(procs: seq<Proc>)
    requires forall i :: 0 <= i < |procs| && procs[i].In? ==> procs[i].added <= MAXOPBLOCKS
    ensures Reserved(procs) >= 0
    ensures Active(procs) == 0 ==> forall i :: 0 <= i < |procs| ==> !procs[i].In?
    decreases |procs|
  {
    if procs != [] { CountBounds(procs[..|procs| - 1]); }
  }

  /** What holds between any two steps. */
  predicate Inv(s: State) {
    && !s.panicked
    && s.outstanding == Active(s.procs)
    && (forall i :: 0 <= i < |s.procs| && s.procs[i].In? ==> s.procs[i].added <= MAXOPBLOCKS)
    && |s.blocks| + Reserved(s.procs) <= LOGBLOCKS
    && (s.Committing() ==> s.outstanding == 0)
    && (s.outstanding == 0 && !s.phase.Writing? ==> s.blocks == [])
    && (forall i :: 0 <= i < |s.procs| && s.procs[i].Asleep? ==> MustWait(s))
    && Distinct(s.blocks)
  }

  /** The log never holds more than fits. */
  lemma BlocksFit(s: State)
    requires Inv(s)
    ensures |s.blocks| <= LOGBLOCKS && Distinct(s.blocks)
  {
    CountBounds(s.procs);
  }

  lemma {:induction false} BeginInv(s: State, p: nat)
    requires Inv(s) && Enabled(s, BeginOp(p))
    ensures Inv(Step(s, BeginOp(p)))
  {
    CountUpdate(s.procs, p, Asleep);
    CountUpdate(s.procs, p, In(0));
    ReserveFits(s.procs);
  }

  lemma {:induction false} LogWriteInv(s: State, p: nat, b: nat)
    requires Inv(s) && Enabled(s, LogWrite(p, b))
    ensures Inv(Step(s, LogWrite(p, b)))
  {
    CountUpdate(s.procs, p, In(s.procs[p].added + 1));
    ReserveBounds(s.procs, p);
  }

  lemma {:induction false} EndInv(s: State, p: nat)
    requires Inv(s) && Enabled(s, EndOp(p))
    ensures Inv(Step(s, EndOp(p)))
  {
    CountUpdate(s.procs, p, Out);
    ReserveBounds(s.procs, p);
    CountWake(s.procs[p := Out]);
  }

  lemma {:induction false} StepInv(s: State, e: Event)
    requires Inv(s) && Enabled(s, e)
    ensures Inv(Step(s, e))
  {
    match e
    case BeginOp(p) => BeginInv(s, p);
    case LogWrite(p, b) => LogWriteInv(s, p, b);
    case EndOp(p) => EndInv(s, p);
    case Commit => NoneActive(s.procs);
    case CommitDone => CountWake(s.procs);
  }

  lemma {:induction false} AllOutOf(procs: seq<Proc>)
    requires Active(procs) == 0
    ensures forall i :: 0 <= i < |procs| ==> !procs[i].In?
    decreases |procs|
  {
    if procs != [] {
      AllOutOf(procs[..|procs| - 1]);
    }
  }

  lemma {:induction false} NoneInside(procs: seq<Proc>)
    requires forall i :: 0 <= i < |procs| ==> !procs[i].In?
    ensures Active(procs) == 0
    decreases |procs|
  {
    if procs != [] {
      NoneInside(procs[..|procs| - 1]);
    }
  }

  lemma {:induction false} NoneActive(procs: seq<Proc>)
    requires Active(procs) == 0
    ensures Reserved(procs) == 0
    decreases |procs|
  {
    if procs != [] { NoneActive(procs[..|procs| - 1]); }
  }

  /** Reservations never exceed MAXOPBLOCKS per operation. */
  lemma {:induction false} ReserveFits(procs: seq<Proc>)
    ensures Reserved(procs) <= MAXOPBLOCKS * Active(procs)
    decreases |procs|
  {
    if procs != [] { ReserveFits(procs[..|procs| - 1]); }
  }

  /** One active operation's reservation is part of the total, and it is counted. */
  lemma {:induction false} ReserveBounds(procs: seq<Proc>, p: nat)
    requires p < |procs| && procs[p].In?
    requires forall i :: 0 <= i < |procs| && procs[i].In? ==> procs[i].added <= MAXOPBLOCKS
    ensures Active(procs) >= 1
    ensures MAXOPBLOCKS - procs[p].added <= Reserved(procs)
  {
    var k := |procs| - 1;
    if p < k { ReserveBounds(procs[..k], p); } else { CountBounds(procs[..k]); }
  }

  ghost predicate IsRun(s: State, es: seq<Event>)
    decreases |es|
  {
    es == [] || (Enabled(s, es[0]) && IsRun(Step(s, es[0]), es[1..]))
  }

  ghost function Run(s: State, es: seq<Event>): State
    requires IsRun(s, es)
    decreases |es|
  {
    if es == [] then s else Run(Step(s, es[0]), es[1..])
  }

  /** Nothing is going on and n processes are outside. */
  function Boot(n: nat): (s: State) {
    State([], 0, Idle, seq(n, i => Out), false)
  }

  /** log_write's two panics do not fire. */
  lemma LogWriteRoom(s: State, p: nat, b: nat)
    requires Inv(s) && Enabled(s, LogWrite(p, b))
    ensures |s.blocks| < LOGBLOCKS && s.outstanding >= 1
  {
    ReserveBounds(s.procs, p);
  }

  /** Over every interleaving from boot: no panic fires, the log and all unused reservations fit,
      a commit sees no operation in progress, and whoever sleeps in begin_op sleeps for a reason
      that some operation or commit still running will end with a wakeup. */
  lemma {:induction false} ProtocolSafe(n: nat, es: seq<Event>)
    requires IsRun(Boot(n), es)
    ensures var s := Run(Boot(n), es);
            && !s.panicked && |s.procs| == n
            && |s.blocks| + Reserved(s.procs) <= LOGBLOCKS && Reserved(s.procs) >= 0
            && (s.Committing() ==> s.outstanding == 0)
            && (s.outstanding == 0 && s.phase.Idle? ==> s.blocks == [])
            && s.outstanding == |Inside(s.procs)|
            && (forall p :: 0 <= p < n && s.procs[p].Asleep? ==>
                  && (s.Committing() || |s.blocks| + (|Inside(s.procs)| + 1) * MAXOPBLOCKS > LOGBLOCKS)
                  && (s.outstanding > 0 || s.Committing()))
  {
    var s0 := Boot(n);
    BootInv(n);
    RunInv(s0, es);
    CountBounds(Run(s0, es).procs);
    ActiveInside(Run(s0, es).procs);
  }

  /** The processes inside an operation. */
  function Inside(procs: seq<Proc>): (ps: set<nat>) {
    set p | 0 <= p < |procs| && procs[p].In?
  }

  lemma {:induction false} ActiveInside(procs: seq<Proc>)
    ensures Active(procs) == |Inside(procs)|
    decreases |procs|
  {
    if procs != [] {
      var k := |procs| - 1;
      ActiveInside(procs[..k]);
      assert Inside(procs) == Inside(procs[..k]) + if procs[k].In? then {k} else {};
    }
  }

  /** Over every interleaving begin_op admits a process exactly when no commit runs and the log has room for the
      blocks logged and MAXOPBLOCKS more for everybody inside and the newcomer; otherwise it sleeps. Nobody
      else is affected. */
  lemma AdmitsExactly(n: nat, es: seq<Event>, p: nat)
    requires IsRun(Boot(n), es) && Enabled(Run(Boot(n), es), BeginOp(p))
    ensures var s := Run(Boot(n), es); var t := Step(s, BeginOp(p));
            && |t.procs| == |s.procs| && (forall q :: 0 <= q < |s.procs| && q != p ==> t.procs[q] == s.procs[q])
            && t.procs[p] == if !s.Committing() && |s.blocks| + (|Inside(s.procs)| + 1) * MAXOPBLOCKS <= LOGBLOCKS then In(0)
                             else Asleep
  {
    ProtocolSafe(n, es);
  }

  lemma BootInv(n: nat)
    ensures Inv(Boot(n))
  {
    AllOut(Boot(n).procs);
  }

  lemma {:induction false} AllOut(procs: seq<Proc>)
    requires forall i :: 0 <= i < |procs| ==> procs[i].Out?
    ensures Active(procs) == 0 && Reserved(procs) == 0
    decreases |procs|
  {
    if procs != [] { AllOut(procs[..|procs| - 1]); }
  }

  lemma {:induction false} RunInv(s: State, es: seq<Event>)
    requires Inv(s) && IsRun(s, es)
    ensures Inv(Run(s, es)) && |Run(s, es).procs| == |s.procs|
    decreases |es|
  {
    if es != [] {
      StepInv(s, es[0]);
      RunInv(Step(s, es[0]), es[1..]);
    }
  }

  // ---- the log can fill up ----

  /** Three operations begin, and each logs MAXOPBLOCKS blocks of its own. */
  function Fill(k: nat): (es: seq<Event>)
    requires k <= LOGBLOCKS
  {
    [BeginOp(0), BeginOp(1), BeginOp(2)] + Writes(k)
  }

  function Writes(k: nat): (es: seq<Event>)
    requires k <= LOGBLOCKS
    ensures |es| == k
  {
    if k == 0 then [] else Writes(k - 1) + [LogWrite((k - 1) / MAXOPBLOCKS, 1000 + k)]
  }

  predicate Filled(s: State, k: nat) {
    && s.phase.Idle? && s.outstanding == 3 && |s.procs| == 3 && !s.panicked && |s.blocks| == k
    && (forall i :: 0 <= i < k ==> s.blocks[i] == 1001 + i)
    && (forall p :: 0 <= p < 3 ==> s.procs[p] == In(if k >= (p + 1) * MAXOPBLOCKS then MAXOPBLOCKS
                                                     else if k <= p * MAXOPBLOCKS then 0 else k - p * MAXOPBLOCKS))
  }

  lemma {:induction false} RunAppend(s: State, es: seq<Event>, e: Event)
    requires IsRun(s, es) && Enabled(Run(s, es), e)
    ensures IsRun(s, es + [e]) && Run(s, es + [e]) == Step(Run(s, es), e)
    decreases |es|
  {
    hide Enabled, Step;
    if es == [] {
      assert es + [e] == [e] && [e][1..] == [];
      assert Run(Step(s, e), []) == Step(s, e);
    } else {
      assert (es + [e])[1..] == es[1..] + [e];
      RunAppend(Step(s, es[0]), es[1..], e);
    }
  }

  lemma ThreeBegin()
    ensures IsRun(Boot(3), [BeginOp(0), BeginOp(1), BeginOp(2)]) && Filled(Run(Boot(3), [BeginOp(0), BeginOp(1), BeginOp(2)]), 0)
  {
    var s := Boot(3);
    var a, b, c := BeginOp(0), BeginOp(1), BeginOp(2);
    assert Enabled(s, a);
    var s1 := Step(s, a);
    assert Enabled(s1, b);
    var s2 := Step(s1, b);
    assert Enabled(s2, c);
    RunAppend(s, [], a);
    assert [] + [a] == [a];
    RunAppend(s, [a], b);
    assert [a] + [b] == [a, b];
    RunAppend(s, [a, b], c);
    assert [a, b] + [c] == [a, b, c];
  }

  lemma FillStep(s: State, k: nat)
    requires Filled(s, k) && k < LOGBLOCKS
    ensures Enabled(s, LogWrite(k / MAXOPBLOCKS, 1001 + k)) && Filled(Step(s, LogWrite(k / MAXOPBLOCKS, 1001 + k)), k + 1)
  {
    assert 1001 + k !in s.blocks;
  }

  /** The protocol admits a run that logs LOGBLOCKS blocks before anything is committed. */
  lemma {:induction false} LogCanFill(k: nat)
    requires k <= LOGBLOCKS
    ensures IsRun(Boot(3), Fill(k)) && |Run(Boot(3), Fill(k)).blocks| == k && Filled(Run(Boot(3), Fill(k)), k)
  {
    hide Step, Enabled;
    if k == 0 {
      ThreeBegin();
      assert Fill(0) == [BeginOp(0), BeginOp(1), BeginOp(2)];
    } else {
      LogCanFill(k - 1);
      FillStep(Run(Boot(3), Fill(k - 1)), k - 1);
      RunAppend(Boot(3), Fill(k - 1), LogWrite((k - 1) / MAXOPBLOCKS, 1000 + k));
      assert Fill(k) == Fill(k - 1) + [LogWrite((k - 1) / MAXOPBLOCKS, 1000 + k)];
    }
  }
}
