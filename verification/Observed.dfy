/** What the log and the cache promise, in terms of the requests and their outcomes alone: a process that locks a
    block gets what was put there last, blocks are held by one process at a time, and a crash leaves all the
    changes of the operations that had ended by some moment. */
module Observed {
  import opened Common
  import opened Blocks
  import opened LogSpec
  import P = LogProto
  import opened S = StorageSpec
  import opened Log
  import opened Storage
  import opened Versions

  /** The last contents put into block b, or what it had at the start. */
  function Latest(d: Disk, ops: seq<Op>, outs: seq<Out>, b: nat): (v: Block)
    requires |ops| == |outs| && b < |d|
  {
    if ops == [] then d[b]
    else
      var k := |ops| - 1;
      if ops[k].Put? && ops[k].b == b && outs[k].Done? then ops[k].data else Latest(d, ops[..k], outs[..k], b)
  }

  /** p has begun an operation and not ended it. */
  function Inside(ops: seq<Op>, outs: seq<Out>, p: nat): (r: bool)
    requires |ops| == |outs|
  {
    if ops == [] then false
    else
      var k := |ops| - 1;
      if ops[k] == Begin(p) && outs[k].Done? then true
      else if ops[k] == End(p) && outs[k].Done? then false
      else Inside(ops[..k], outs[..k], p)
  }

  /** The process that has locked block b and not unlocked it. */
  function Holder(ops: seq<Op>, outs: seq<Out>, b: nat): (p: Option<nat>)
    requires |ops| == |outs|
  {
    if ops == [] then None
    else
      var k := |ops| - 1;
      if ops[k].Lock? && ops[k].b == b && outs[k].Data? then Some(ops[k].p)
      else if ops[k].Unlock? && ops[k].b == b && outs[k].Done? then None
      else Holder(ops[..k], outs[..k], b)
  }

  /** The blocks that p has got and not let go of. */
  function Has(ops: seq<Op>, outs: seq<Out>, p: nat): (bs: set<nat>)
    requires |ops| == |outs|
  {
    if ops == [] then {}
    else
      var k := |ops| - 1;
      var bs := Has(ops[..k], outs[..k], p);
      if ops[k].Get? && ops[k].p == p && outs[k].Done? then bs + {ops[k].b}
      else if ops[k].Unref? && ops[k].p == p && outs[k].Done? then bs - {ops[k].b}
      else bs
  }

  /** The processes inside an operation. */
  function Insiders(ops: seq<Op>, outs: seq<Out>, n: nat): (ps: set<nat>)
    requires |ops| == |outs|
  {
    set p | 0 <= p < n && Inside(ops, outs, p)
  }

  /** The blocks put since somebody last was inside an operation without interruption: the next commit's. */
  function Logged(ops: seq<Op>, outs: seq<Out>, n: nat): (bs: set<nat>)
    requires |ops| == |outs|
  {
    if ops == [] || Insiders(ops, outs, n) == {} then {}
    else
      var k := |ops| - 1;
      Logged(ops[..k], outs[..k], n) + if ops[k].Put? && outs[k].Done? then {ops[k].b} else {}
  }

  /** How many of them p was the first to put, in its operation. */
  function Added(ops: seq<Op>, outs: seq<Out>, n: nat, p: nat): (m: nat)
    requires |ops| == |outs|
  {
    if ops == [] || !Inside(ops, outs, p) then 0
    else
      var k := |ops| - 1;
      var first := ops[k].Put? && ops[k].p == p && outs[k].Done? && ops[k].b !in Logged(ops[..k], outs[..k], n);
      Added(ops[..k], outs[..k], n, p) + if first then 1 else 0
  }

  /** The log holds what the requests and outcomes say. */
  ghost predicate LogShows(s: P.State, n: nat, ops: seq<Op>, outs: seq<Out>)
    requires |ops| == |outs|
  {
    && |s.procs| == n && (forall p :: 0 <= p < n ==> (s.procs[p].In? <==> Inside(ops, outs, p)))
    && (Insiders(ops, outs, n) != {} ==> forall b :: b in s.blocks <==> b in Logged(ops, outs, n))
    && forall p :: 0 <= p < n && s.procs[p].In? ==> s.procs[p].added == Added(ops, outs, n, p)
  }

  lemma LogMore(ops: seq<Op>, outs: seq<Out>, n: nat, op: Op, out: Out)
    requires |ops| == |outs|
    ensures var os, us := ops + [op], outs + [out];
            && (Insiders(os, us, n) != {} ==>
                  Logged(os, us, n) == Logged(ops, outs, n) + if op.Put? && out.Done? then {op.b} else {})
            && forall p :: 0 <= p < n && Inside(os, us, p) ==>
                 Added(os, us, n, p) == Added(ops, outs, n, p)
                   + if op.Put? && op.p == p && out.Done? && op.b !in Logged(ops, outs, n) then 1 else 0
  {
    hide Insiders, Inside;
    assert (ops + [op])[..|ops|] == ops && (outs + [out])[..|outs|] == outs;
  }

  /** Nothing was logged, and nobody had added anything, while nobody was inside. */
  lemma LogNone(ops: seq<Op>, outs: seq<Out>, n: nat)
    requires |ops| == |outs|
    ensures Insiders(ops, outs, n) == {} ==> Logged(ops, outs, n) == {}
    ensures forall p :: !Inside(ops, outs, p) ==> Added(ops, outs, n, p) == 0
  {
    hide Insiders, Inside;
  }

  lemma LogShowsStep(s: State, start: nat, n: nat, ops: seq<Op>, outs: seq<Out>, op: Op)
    requires |ops| == |outs| && S.Inv(s, start) && LogShows(s.log, n, ops, outs)
    ensures Sized(s)
    ensures var (t, out) := Step(s, start, op); LogShows(t.log, n, ops + [op], outs + [out])
  {
    hide S.Inv, P.Inv, InUse, S.Pinned, Turn, Inside, Logged, Added, LogShows, P.Step;
    InvAt(s, start);
    LogInv(s, start);
    var (t, out) := Step(s, start, op);
    if op.Commit? {
      CommitLog(s, start);
      NextLog(s.log, t.log, n, ops, outs, op, out);
    } else if op.Begin? && !out.Refused? {
      BeginLog(s.log, n, ops, outs, op.p);
    } else if op.Put? && !out.Refused? {
      InsideIsIdle(s, start, op.p);
      PutLog(s.log, n, ops, outs, op.p, op.b, op.data);
    } else if op.End? && !out.Refused? {
      InsideIsIdle(s, start, op.p);
      EndLog(s.log, n, ops, outs, op.p);
    } else {
      NextLog(s.log, t.log, n, ops, outs, op, out);
    }
  }

  lemma InsideMore(ops: seq<Op>, outs: seq<Out>, op: Op, out: Out, p: nat)
    requires |ops| == |outs|
    ensures Inside(ops + [op], outs + [out], p) ==
      (if op == Begin(p) && out.Done? then true else if op == End(p) && out.Done? then false else Inside(ops, outs, p))
  {
    assert (ops + [op])[..|ops|] == ops && (outs + [out])[..|outs|] == outs;
  }

  /** A step that begins nothing, puts nothing and ends nothing. */
  lemma NextLog(s: P.State, t: P.State, n: nat, ops: seq<Op>, outs: seq<Out>, op: Op, out: Out)
    requires |ops| == |outs| && LogShows(s, n, ops, outs) && (op.Begin? || op.Put? || op.End? ==> out.Refused?)
    requires |t.procs| == |s.procs| && forall p :: 0 <= p < |s.procs| ==> (t.procs[p].In? <==> s.procs[p].In?)
    requires forall p :: 0 <= p < |s.procs| && s.procs[p].In? ==> t.procs[p] == s.procs[p] && t.blocks == s.blocks
    ensures LogShows(t, n, ops + [op], outs + [out])
  {
    hide Inside, Logged, Added;
    LogMore(ops, outs, n, op, out);
    forall p | 0 <= p < n
      ensures Inside(ops + [op], outs + [out], p) == Inside(ops, outs, p)
    {
      InsideMore(ops, outs, op, out, p);
    }
    assert Insiders(ops + [op], outs + [out], n) == Insiders(ops, outs, n);
    if Insiders(ops, outs, n) != {} {
      var p :| p in Insiders(ops, outs, n);
      assert s.procs[p].In?;
    }
  }

  lemma BeginLog(s: P.State, n: nat, ops: seq<Op>, outs: seq<Out>, p: nat)
    requires |ops| == |outs| && LogShows(s, n, ops, outs) && P.Inv(s) && P.Enabled(s, P.BeginOp(p))
    ensures LogShows(P.Step(s, P.BeginOp(p)), n, ops + [Begin(p)], outs + [if P.MustWait(s) then Waits else Done])
  {
    hide Inside, Logged, Added, P.Inv;
    var out := if P.MustWait(s) then Waits else Done;
    var t := P.Step(s, P.BeginOp(p));
    if out.Waits? {
      LogMore(ops, outs, n, Begin(p), out);
    } else {
      LogMore(ops, outs, n, Begin(p), out);
      LogNone(ops, outs, n);
    }
    forall q | 0 <= q < n
      ensures Inside(ops + [Begin(p)], outs + [out], q) == ((q == p && out.Done?) || Inside(ops, outs, q))
    {
      InsideMore(ops, outs, Begin(p), out, q);
    }
    if Insiders(ops, outs, n) == {} && out.Done? {
      forall q | 0 <= q < n
        ensures !s.procs[q].In?
      {
        assert q !in Insiders(ops, outs, n);
      }
      QuietEmpty(s);
    }
    if out.Waits? {
      assert Insiders(ops + [Begin(p)], outs + [out], n) == Insiders(ops, outs, n);
    }
  }

  /** With nobody inside and no commit under way nothing is logged. */
  lemma QuietEmpty(s: P.State)
    requires P.Inv(s) && s.phase.Idle? && forall q :: 0 <= q < |s.procs| ==> !s.procs[q].In?
    ensures s.blocks == []
  {
    P.NoneInside(s.procs);
  }

  lemma PutLog(s: P.State, n: nat, ops: seq<Op>, outs: seq<Out>, p: nat, b: nat, data: Block)
    requires |ops| == |outs| && LogShows(s, n, ops, outs) && P.Inv(s) && P.Enabled(s, P.LogWrite(p, b))
    ensures LogShows(P.Step(s, P.LogWrite(p, b)), n, ops + [Put(p, b, data)], outs + [Done])
  {
    hide Inside, Logged, Added, P.Inv;
    var op := Put(p, b, data);
    P.LogWriteRoom(s, p, b);
    LogMore(ops, outs, n, op, Done);
    forall q | 0 <= q < n
      ensures Inside(ops + [op], outs + [Done], q) == Inside(ops, outs, q)
    {
      InsideMore(ops, outs, op, Done, q);
    }
    assert p in Insiders(ops, outs, n) && p in Insiders(ops + [op], outs + [Done], n);
  }

  lemma EndLog(s: P.State, n: nat, ops: seq<Op>, outs: seq<Out>, p: nat)
    requires |ops| == |outs| && LogShows(s, n, ops, outs) && P.Inv(s) && P.Enabled(s, P.EndOp(p)) && s.phase.Idle?
    ensures LogShows(P.Step(s, P.EndOp(p)), n, ops + [End(p)], outs + [Done])
  {
    hide Inside, Logged, Added, P.Inv;
    LogMore(ops, outs, n, End(p), Done);
    forall q | 0 <= q < n
      ensures Inside(ops + [End(p)], outs + [Done], q) == (q != p && Inside(ops, outs, q))
    {
      InsideMore(ops, outs, End(p), Done, q);
    }
    assert p in Insiders(ops, outs, n);
  }

  lemma CommitLog(s: State, start: nat)
    requires S.Inv(s, start)
    ensures Sized(s)
    ensures var t := Turn(s, start).0;
            && |t.log.procs| == |s.log.procs|
            && (forall p :: 0 <= p < |s.log.procs| ==> (t.log.procs[p].In? <==> s.log.procs[p].In?))
            && (forall p :: 0 <= p < |s.log.procs| && s.log.procs[p].In? ==>
                  t.log.procs[p] == s.log.procs[p] && t.log.blocks == s.log.blocks)
  {
    hide S.Inv, P.Inv, InUse, S.Pinned, InOrder, Does;
    InvAt(s, start);
    LogInv(s, start);
    CommitProcs(s, start);
    if s.log.Committing() {
      NobodyIn(s.log);
    }
  }

  /** The state says of block b and process p what the requests and outcomes say. */
  ghost predicate Shows(s: State, d: Disk, n: nat, ops: seq<Op>, outs: seq<Out>, b: nat, p: nat)
    requires |ops| == |outs| && b < |d| && p < n
  {
    && Sized(s) && |s.cur| == |d| && |s.log.procs| == n
    && s.cur[b] == Latest(d, ops, outs, b)
    && (s.log.procs[p].In? <==> Inside(ops, outs, p))
    && (s.holder[b] == Some(p) <==> Holder(ops, outs, b) == Some(p))
    && (p in s.users[b] <==> b in Has(ops, outs, p))
  }

  lemma ShowsStep(s: State, start: nat, d: Disk, n: nat, ops: seq<Op>, outs: seq<Out>, op: Op, b: nat, p: nat)
    requires |ops| == |outs| && b < |d| && p < n && S.Inv(s, start) && Shows(s, d, n, ops, outs, b, p)
    ensures Sized(s)
    ensures var (t, out) := Step(s, start, op); Shows(t, d, n, ops + [op], outs + [out], b, p)
  {
    hide S.Inv, Step, Latest, Inside, Holder, Has;
    InvAt(s, start);
    var (t, out) := Step(s, start, op);
    OneMore(d, ops, outs, op, out, b, p);
    StepTells(s, start, op, b, p);
  }

  /** What a step changes of block b and process p. */
  lemma StepTells(s: State, start: nat, op: Op, b: nat, p: nat)
    requires S.Inv(s, start) && b < |s.cur| && p < |s.log.procs|
    ensures Sized(s)
    ensures var (t, out) := Step(s, start, op);
            && Sized(t) && |t.cur| == |s.cur| && |t.log.procs| == |s.log.procs|
            && t.cur[b] == (if op.Put? && op.b == b && out.Done? then op.data else s.cur[b])
            && (t.log.procs[p].In? <==> if op == Begin(p) && out.Done? then true
                                        else if op == End(p) && out.Done? then false else s.log.procs[p].In?)
            && (t.holder[b] == Some(p) <==> if op.Lock? && op.b == b && out.Data? then op.p == p
                                            else if op.Unlock? && op.b == b && out.Done? then false else s.holder[b] == Some(p))
            && (p in t.users[b] <==> if op.Get? && op.p == p && op.b == b && out.Done? then true
                                     else if op.Unref? && op.p == p && op.b == b && out.Done? then false else p in s.users[b])
  {
    hide S.Inv, InUse, S.Pinned, Turn, P.Step, Hold, Drop, Ref;
    InvAt(s, start);
    if op.Commit? {
      CommitShows(s, start, b, p);
    } else if op.Begin? || op.Put? || op.End? {
      LogTells(s, start, op, p);
    } else {
      HoldTells(s, start, op, b, p);
    }
  }

  /** Steps that are the log's. */
  lemma LogTells(s: State, start: nat, op: Op, p: nat)
    requires S.Inv(s, start) && Sized(s) && p < |s.log.procs| && (op.Begin? || op.Put? || op.End?)
    ensures var (t, out) := Step(s, start, op);
            && t.holder == s.holder && t.users == s.users && |t.cur| == |s.cur| && |t.log.procs| == |s.log.procs|
            && t.cur == (if op.Put? && out.Done? && op.b < |s.cur| then s.cur[op.b := op.data] else s.cur)
            && (op.Put? && out.Done? ==> op.b < |s.cur|)
            && (t.log.procs[p].In? <==> if op == Begin(p) && out.Done? then true
                                        else if op == End(p) && out.Done? then false else s.log.procs[p].In?)
  {
    hide S.Inv, InUse, S.Pinned;
  }

  /** Steps that are the cache's. */
  lemma HoldTells(s: State, start: nat, op: Op, b: nat, p: nat)
    requires S.Inv(s, start) && Sized(s) && b < |s.cur| && (op.Get? || op.Lock? || op.Unlock? || op.Unref?)
    ensures var (t, out) := Step(s, start, op);
            && Sized(t) && t.cur == s.cur && t.log == s.log
            && (t.holder[b] == Some(p) <==> if op.Lock? && op.b == b && out.Data? then op.p == p
                                            else if op.Unlock? && op.b == b && out.Done? then false else s.holder[b] == Some(p))
            && (p in t.users[b] <==> if op.Get? && op.p == p && op.b == b && out.Done? then true
                                     else if op.Unref? && op.p == p && op.b == b && out.Done? then false else p in s.users[b])
  {
    hide S.Inv, InUse, S.Pinned;
  }

  lemma OneMore(d: Disk, ops: seq<Op>, outs: seq<Out>, op: Op, out: Out, b: nat, p: nat)
    requires |ops| == |outs| && b < |d|
    ensures var os, us := ops + [op], outs + [out];
            && Latest(d, os, us, b) == (if op.Put? && op.b == b && out.Done? then op.data else Latest(d, ops, outs, b))
            && Inside(os, us, p) == (if op == Begin(p) && out.Done? then true
                                     else if op == End(p) && out.Done? then false else Inside(ops, outs, p))
            && Holder(os, us, b) == (if op.Lock? && op.b == b && out.Data? then Some(op.p)
                                     else if op.Unlock? && op.b == b && out.Done? then None else Holder(ops, outs, b))
            && Has(os, us, p) == (if op.Get? && op.p == p && out.Done? then Has(ops, outs, p) + {op.b}
                                  else if op.Unref? && op.p == p && out.Done? then Has(ops, outs, p) - {op.b}
                                  else Has(ops, outs, p))
  {
    assert (ops + [op])[..|ops|] == ops && (outs + [out])[..|outs|] == outs;
  }

  /** A commit changes nothing that a process could tell. */
  lemma CommitShows(s: State, start: nat, b: nat, p: nat)
    requires S.Inv(s, start) && b < |s.cur| && p < |s.log.procs|
    ensures Sized(s)
    ensures var t := Turn(s, start).0;
            && t.cur == s.cur && Sized(t) && |t.log.procs| == |s.log.procs| && (t.log.procs[p].In? <==> s.log.procs[p].In?)
            && (t.holder[b] == Some(p) <==> s.holder[b] == Some(p)) && (p in t.users[b] <==> p in s.users[b])
  {
    hide S.Inv, InUse, S.Pinned, InOrder, Does, ActsAt;
    InvAt(s, start);
    if s.pos < |Acts(s, start)| {
      ActShows(s, start, b, p);
    }
  }

  lemma ActShows(s: State, start: nat, b: nat, p: nat)
    requires S.Inv(s, start) && Sized(s) && b < |s.cur| && p < |s.log.procs| && s.pos < |Acts(s, start)|
    ensures var t := Does(s, start, Acts(s, start)[s.pos]).0;
            && t.cur == s.cur && |t.log.procs| == |s.log.procs| && t.log.procs == s.log.procs
            && (t.holder[b] == Some(p) <==> s.holder[b] == Some(p)) && (p in t.users[b] <==> p in s.users[b])
  {
    hide S.Inv, InUse, S.Pinned, InOrder, ActsAt;
    InvAt(s, start);
    AllowedNow(s, start);
  }

  lemma {:induction false} ShowsAll(d: Disk, n: nat, start: nat, ops: seq<Op>, b: nat, p: nat)
    requires Layout(d, start) && b < |d| && p < n
    ensures S.Inv(Start(d, n), start)
    ensures var (s, outs) := Steps(Start(d, n), start, ops); Shows(s, d, n, ops, outs, b, p)
    decreases |ops|
  {
    hide S.Inv, Step, Steps, Shows;
    StartInv(d, n, start);
    var s0 := Start(d, n);
    if ops == [] {
      StepsNone(s0, start);
      StartShows(d, n, b, p);
    } else {
      var front, op := ops[..|ops| - 1], ops[|ops| - 1];
      assert ops == front + [op];
      ShowsAll(d, n, start, front, b, p);
      StepsMore(s0, start, front, op);
      ShowsStep(Steps(s0, start, front).0, start, d, n, front, Steps(s0, start, front).1, op, b, p);
    }
  }

  lemma StartShows(d: Disk, n: nat, b: nat, p: nat)
    requires b < |d| && p < n
    ensures Shows(Start(d, n), d, n, [], [], b, p)
  {
  }

  lemma {:induction false} StuckAfterPanic(s: State, start: nat, ops: seq<Op>)
    requires S.Inv(s, start) && !s.stuck
    ensures Steps(s, start, ops).0.stuck <==> Panicked(Steps(s, start, ops).1)
    decreases |ops|
  {
    hide S.Inv, Step, Steps;
    if ops == [] {
      StepsNone(s, start);
    } else {
      var front, op := ops[..|ops| - 1], ops[|ops| - 1];
      assert ops == front + [op];
      StuckAfterPanic(s, start, front);
      StepsMore(s, start, front, op);
      StepStuck(Steps(s, start, front).0, start, op);
      PanickedMore(Steps(s, start, front).1, Steps(s, start, ops).1);
    }
  }

  /** The system has panicked. */
  ghost predicate Panicked(outs: seq<Out>) {
    exists k :: 0 <= k < |outs| && outs[k].Panic?
  }

  lemma PanickedMore(outs: seq<Out>, more: seq<Out>)
    requires |more| == |outs| + 1 && more[..|outs|] == outs
    ensures Panicked(more) <==> Panicked(outs) || more[|outs|].Panic?
  {
    assert forall k :: 0 <= k < |outs| ==> more[k] == outs[k];
  }

  lemma StepStuck(s: State, start: nat, op: Op)
    requires S.Inv(s, start) && Sized(s)
    ensures var (t, out) := Step(s, start, op); t.stuck <==> s.stuck || out.Panic?
  {
    hide S.Inv, InUse, S.Pinned, InOrder, ActsAt;
  }

  // ---- the laws ----

  /** The outcome that a request may have after these. A lock is given with the last contents put into the block;
      it is refused to nobody who may ask, and waited for only while another process has it, or a commit is under
      way and so nobody inside an operation. */
  ghost predicate Answer(d: Disk, n: nat, start: nat, os: seq<Op>, us: seq<Out>, op: Op, out: Out)
    requires |os| == |us|
  {
    match op
    case Begin(p) =>
      && (out.Done? ==> p < n && !Inside(os, us, p) && RoomFor(n, os, us))
      && (out.Waits? ==> p < n && !Inside(os, us, p) && (Insiders(os, us, n) == {} || !RoomFor(n, os, us)))
      && (out.Done? || out.Waits? || out.Refused?)
    case Get(p, b) =>
      && (out.Refused? <==> Panicked(us) || !(p < n && b < |d| && !InLog(start, b) && b !in Has(os, us, p)))
      && (out.Done? || out.Panic? || out.Refused?)
    case Lock(p, b) =>
      && (out.Refused? <==> Panicked(us) || !(p < n && b < |d| && b in Has(os, us, p) && Holder(os, us, b) != Some(p)))
      && (out.Data? ==> b < |d| && out.data == Latest(d, os, us, b) && !Taken(n, os, us, b))
      && (out.Waits? ==> Taken(n, os, us, b) || forall q :: 0 <= q < n ==> !Inside(os, us, q))
      && (out.Data? || out.Waits? || out.Refused?)
    case Put(p, b, _) =>
      && (out.Refused? <==> Panicked(us) || !(p < n && b < |d| && Inside(os, us, p) && Holder(os, us, b) == Some(p)
                                              && Added(os, us, n, p) < MAXOPBLOCKS))
      && (out.Done? ==> !InLog(start, b)) && (out.Done? || out.Refused?)
    case Unlock(p, b) =>
      && (out.Refused? <==> Panicked(us) || !(p < n && b < |d| && Holder(os, us, b) == Some(p)))
      && (out.Done? || out.Refused?)
    case Unref(p, b) =>
      && (out.Refused? <==> Panicked(us) || !(p < n && b < |d| && b in Has(os, us, p) && Holder(os, us, b) != Some(p)))
      && (out.Done? || out.Refused?)
    case End(p) =>
      && (out.Refused? <==> Panicked(us) || !(p < n && Inside(os, us, p)))
      && (out.Done? || out.Refused?)
    case Commit => !out.Refused? ==> !Panicked(us) && Insiders(os, us, n) == {}
  }

  /** The log has room for what is logged and one more operation. */
  ghost predicate RoomFor(n: nat, ops: seq<Op>, outs: seq<Out>)
    requires |ops| == |outs|
  {
    |Logged(ops, outs, n)| + (|Insiders(ops, outs, n)| + 1) * MAXOPBLOCKS <= LOGBLOCKS
  }

  /** Some process has b locked. */
  ghost predicate Taken(n: nat, ops: seq<Op>, outs: seq<Out>, b: nat)
    requires |ops| == |outs|
  {
    exists q :: 0 <= q < n && Holder(ops, outs, b) == Some(q)
  }

  ghost predicate ShowsHere(s: State, d: Disk, n: nat, ops: seq<Op>, outs: seq<Out>)
    requires |ops| == |outs|
  {
    && Sized(s) && |s.cur| == |d| > 0 && LogShows(s.log, n, ops, outs)
    && forall b, p :: 0 <= b < |d| && 0 <= p < n ==> Shows(s, d, n, ops, outs, b, p)
  }

  /** The outcome of one more request. */
  lemma AnswerStep(s: State, start: nat, d: Disk, n: nat, ops: seq<Op>, outs: seq<Out>, op: Op)
    requires |ops| == |outs| && S.Inv(s, start) && ShowsHere(s, d, n, ops, outs) && (s.stuck <==> Panicked(outs))
    ensures Answer(d, n, start, ops, outs, op, Step(s, start, op).1)
  {
    hide S.Inv, InUse, S.Pinned, Turn, Latest, Inside, Insiders, Logged, Added, Holder, Has, Panicked, Taken, P.Step,
         Shows, RoomFor, P.MustWait;
    if op.Lock? {
      LockAnswer(s, start, d, n, ops, outs, op.p, op.b);
    } else if op.Begin? {
      LogInv(s, start);
      BeginAnswer(s.log, n, ops, outs);
    } else if op.Commit? {
      LogInv(s, start);
      CommitAnswer(s, start, n, ops, outs);
    } else if op.p < n {
      var b := if (op.Get? || op.Put? || op.Unlock? || op.Unref?) && op.b < |d| then op.b else 0;
      ShowsThis(s, d, n, ops, outs, b, op.p);
      if s.holder[b] == Some(op.p) {
        HoldsHome(s, start, op.p, b);
      }
    }
  }

  /** A commit has a step to take only with nobody inside an operation. */
  lemma CommitAnswer(s: State, start: nat, n: nat, ops: seq<Op>, outs: seq<Out>)
    requires |ops| == |outs| && LogShows(s.log, n, ops, outs) && P.Inv(s.log) && Sized(s)
    ensures !Turn(s, start).1.Refused? ==> Insiders(ops, outs, n) == {}
  {
    hide P.Inv, Logged, Added, Inside, Does;
    if !s.log.phase.Idle? && Insiders(ops, outs, n) != {} {
      var p :| p in Insiders(ops, outs, n);
      InsideIdle(s.log, p);
    }
  }

  lemma BeginAnswer(s: P.State, n: nat, ops: seq<Op>, outs: seq<Out>)
    requires |ops| == |outs| && LogShows(s, n, ops, outs) && P.Inv(s)
    ensures if P.MustWait(s) then Insiders(ops, outs, n) == {} || !RoomFor(n, ops, outs) else RoomFor(n, ops, outs)
  {
    hide P.Inv, Logged, Added, Inside;
    P.BlocksFit(s);
    DistinctSize(s.blocks);
    assert P.Inside(s.procs) == Insiders(ops, outs, n);
    OutstandingIs(s);
    if Insiders(ops, outs, n) != {} {
      var p :| p in Insiders(ops, outs, n);
      assert !s.Committing() by {
        InsideIdle(s, p);
      }
      assert Logged(ops, outs, n) == set i | 0 <= i < |s.blocks| :: s.blocks[i];
    } else {
      LogNone(ops, outs, n);
    }
  }

  lemma InsideIdle(s: P.State, p: nat)
    requires P.Inv(s) && p < |s.procs| && s.procs[p].In?
    ensures !s.Committing()
  {
    P.ReserveBounds(s.procs, p);
  }

  lemma OutstandingIs(s: P.State)
    requires P.Inv(s)
    ensures s.outstanding == |P.Inside(s.procs)|
  {
    P.ActiveInside(s.procs);
  }

  lemma HoldsHome(s: State, start: nat, p: nat, b: nat)
    requires S.Inv(s, start) && b < |s.cur| && p < |s.log.procs| && s.holder[b] == Some(p)
    ensures !InLog(start, b)
  {
    assert Held(s, start, b);
  }

  lemma ShowsThis(s: State, d: Disk, n: nat, ops: seq<Op>, outs: seq<Out>, b: nat, p: nat)
    requires |ops| == |outs| && b < |d| && p < n && ShowsHere(s, d, n, ops, outs)
    ensures s.cur[b] == Latest(d, ops, outs, b) && (s.log.procs[p].In? <==> Inside(ops, outs, p))
    ensures (s.holder[b] == Some(p) <==> Holder(ops, outs, b) == Some(p)) && (p in s.users[b] <==> b in Has(ops, outs, p))
  {
    assert Shows(s, d, n, ops, outs, b, p);
  }

  lemma LockAnswer(s: State, start: nat, d: Disk, n: nat, ops: seq<Op>, outs: seq<Out>, p: nat, b: nat)
    requires |ops| == |outs| && S.Inv(s, start) && ShowsHere(s, d, n, ops, outs) && (s.stuck <==> Panicked(outs))
    ensures Answer(d, n, start, ops, outs, Lock(p, b), Step(s, start, Lock(p, b)).1)
  {
    hide S.Inv, Latest, Inside, Holder, Has, Panicked, Shows;
    var out := Step(s, start, Lock(p, b)).1;
    if p < n && b < |d| {
      ShowsThis(s, d, n, ops, outs, b, p);
      forall q | 0 <= q < n
        ensures s.holder[b] == Some(q) <==> Holder(ops, outs, b) == Some(q)
        ensures s.log.procs[q].In? <==> Inside(ops, outs, q)
      {
        ShowsThis(s, d, n, ops, outs, b, q);
      }
      if out.Waits? && !Taken(n, ops, outs, b) {
        HeldByCommit(s, start, b);
      }
    }
  }

  /** What no process holds and yet is locked, a commit has. */
  lemma HeldByCommit(s: State, start: nat, b: nat)
    requires S.Inv(s, start) && b < |s.cur| && s.holder[b].Some? && forall q :: 0 <= q < |s.log.procs| ==> s.holder[b] != Some(q)
    ensures forall q :: 0 <= q < |s.log.procs| ==> !s.log.procs[q].In?
  {
    hide P.Inv, Orderly;
    assert Held(s, start, b);
    assert b in Locks(s);
    LogInv(s, start);
    NobodyIn(s.log);
  }

  lemma NobodyIn(s: P.State)
    requires P.Inv(s) && s.Committing()
    ensures forall q :: 0 <= q < |s.procs| ==> !s.procs[q].In?
  {
    P.AllOutOf(s.procs);
  }

  lemma {:induction false} OutsPrefix(s: State, start: nat, ops: seq<Op>, k: nat)
    requires S.Inv(s, start) && k < |ops|
    ensures var outs := Steps(s, start, ops).1; var m := Steps(s, start, ops[..k]);
            outs[..k] == m.1 && Sized(m.0) && outs[k] == Step(m.0, start, ops[k]).1
    decreases |ops|
  {
    hide S.Inv, Step, Steps;
    var front, op := ops[..|ops| - 1], ops[|ops| - 1];
    assert ops == front + [op];
    StepsMore(s, start, front, op);
    if k < |front| {
      OutsPrefix(s, start, front, k);
      assert front[..k] == ops[..k];
    }
  }

  /** Over every run each request has an outcome that the ones before it call for. */
  lemma AllAnswered(d: Disk, n: nat, start: nat, ops: seq<Op>, k: nat)
    requires Layout(d, start) && k < |ops|
    ensures S.Inv(Start(d, n), start)
    ensures var outs := Steps(Start(d, n), start, ops).1; Answer(d, n, start, ops[..k], outs[..k], ops[k], outs[k])
  {
    hide S.Inv, Step, Steps, Answer, Shows, Panicked;
    StartInv(d, n, start);
    var s0 := Start(d, n);
    OutsPrefix(s0, start, ops, k);
    var (m, us) := Steps(s0, start, ops[..k]);
    StuckAfterPanic(s0, start, ops[..k]);
    ShowsWhole(d, n, start, ops[..k]);
    AnswerStep(m, start, d, n, ops[..k], us, ops[k]);
  }

  lemma ShowsWhole(d: Disk, n: nat, start: nat, ops: seq<Op>)
    requires Layout(d, start)
    ensures S.Inv(Start(d, n), start)
    ensures var (m, us) := Steps(Start(d, n), start, ops); ShowsHere(m, d, n, ops, us)
  {
    hide S.Inv, Step, Steps, Shows;
    StartInv(d, n, start);
    var (m, us) := Steps(Start(d, n), start, ops);
    SizesKept(d, n, start, ops);
    LogShowsAll(d, n, start, ops);
    forall b, p | 0 <= b < |d| && 0 <= p < n
      ensures Shows(m, d, n, ops, us, b, p)
    {
      ShowsAll(d, n, start, ops, b, p);
    }
  }

  lemma {:induction false} LogShowsAll(d: Disk, n: nat, start: nat, ops: seq<Op>)
    requires Layout(d, start)
    ensures S.Inv(Start(d, n), start)
    ensures var (m, us) := Steps(Start(d, n), start, ops); LogShows(m.log, n, ops, us)
    decreases |ops|
  {
    hide S.Inv, Step, Steps, LogShows;
    StartInv(d, n, start);
    if ops == [] {
      StepsNone(Start(d, n), start);
      LogShowsNone(d, n);
    } else {
      var front, op := ops[..|ops| - 1], ops[|ops| - 1];
      assert ops == front + [op];
      LogShowsAll(d, n, start, front);
      StepsMore(Start(d, n), start, front, op);
      var (m, us) := Steps(Start(d, n), start, front);
      LogShowsStep(m, start, n, front, us, op);
    }
  }

  lemma LogShowsNone(d: Disk, n: nat)
    ensures LogShows(Start(d, n).log, n, [], [])
  {
  }

  lemma {:induction false} SizesKept(d: Disk, n: nat, start: nat, ops: seq<Op>)
    requires Layout(d, start)
    ensures S.Inv(Start(d, n), start)
    ensures var m := Steps(Start(d, n), start, ops).0; Sized(m) && |m.cur| == |d| && |m.log.procs| == n
    decreases |ops|
  {
    hide S.Inv, Step, Steps;
    StartInv(d, n, start);
    if ops == [] {
      StepsNone(Start(d, n), start);
    } else {
      var front, op := ops[..|ops| - 1], ops[|ops| - 1];
      assert ops == front + [op];
      SizesKept(d, n, start, front);
      StepsMore(Start(d, n), start, front, op);
      StepSizes(Steps(Start(d, n), start, front).0, start, op);
    }
  }

  lemma StepSizes(s: State, start: nat, op: Op)
    requires S.Inv(s, start)
    ensures Sized(s) && |Step(s, start, op).0.cur| == |s.cur| && |Step(s, start, op).0.log.procs| == |s.log.procs|
  {
    hide S.Inv, InUse, S.Pinned, InOrder, Turn;
    InvAt(s, start);
    if op.Commit? {
      CommitProcs(s, start);
    }
  }

  // ---- after a crash ----

  /** What is saved is what was there when nobody was inside an operation, at some moment not before the system
      was last settled. */
  lemma {:induction false} SavedMoment(s: State, start: nat, ops: seq<Op>) returns (k: nat)
    requires S.Inv(s, start) && Quiet(s) && s.saves != [] && s.saves[|s.saves| - 1] == s.cur
    ensures k <= |ops|
    ensures var t := Steps(s, start, ops).0; var m := Steps(s, start, ops[..k]).0;
            t.saves != [] && t.saves[|t.saves| - 1] == m.cur && Quiet(m)
    ensures forall i :: k < i <= |ops| ==> !Settled(Steps(s, start, ops[..i]).0)
    decreases |ops|
  {
    hide S.Inv, Step, Steps, Quiet;
    if ops == [] {
      StepsNone(s, start);
      return 0;
    }
    var front, op := ops[..|ops| - 1], ops[|ops| - 1];
    assert ops == front + [op] && ops[..|ops|] == ops;
    StepsMore(s, start, front, op);
    var j := SavedMoment(s, start, front);
    var m, t := Steps(s, start, front).0, Steps(s, start, ops).0;
    InvAt(t, start);
    assert forall i :: 0 <= i <= |front| ==> front[..i] == ops[..i];
    if Settled(t) {
      SettledSaved(t, start);
      k := |ops|;
    } else if t.saves != m.saves {
      SavedQuiet(m, start, op);
      k := |front|;
    } else {
      k := j;
    }
  }

  /** Request i shows that no commit was left to do: an operation began, or a step of the commit was asked for in
      vain, with nobody inside an operation. */
  ghost predicate AtRest(n: nat, ops: seq<Op>, outs: seq<Out>, i: nat)
    requires |ops| == |outs|
  {
    && i < |ops| && !Panicked(outs[..i]) && Insiders(ops[..i], outs[..i], n) == {}
    && ((ops[i].Begin? && outs[i].Done?) || (ops[i].Commit? && outs[i].Refused?))
  }

  lemma RestSettles(d: Disk, n: nat, start: nat, ops: seq<Op>, i: nat)
    requires Layout(d, start) && S.Inv(Start(d, n), start) && AtRest(n, ops, Steps(Start(d, n), start, ops).1, i)
    ensures Settled(Steps(Start(d, n), start, ops[..i]).0)
  {
    hide S.Inv, Step, Steps, Insiders, Inside, Shows;
    var s := Start(d, n);
    OutsPrefix(s, start, ops, i);
    var (m, us) := Steps(s, start, ops[..i]);
    ShowsWhole(d, n, start, ops[..i]);
    StuckAfterPanic(s, start, ops[..i]);
    StepIdle(m, start, ops[i]);
    forall p | 0 <= p < n
      ensures !m.log.procs[p].In?
    {
      InsidersHas(ops[..i], us, n, p);
    }
  }

  lemma InsidersHas(ops: seq<Op>, outs: seq<Out>, n: nat, p: nat)
    requires |ops| == |outs| && p < n
    ensures p in Insiders(ops, outs, n) <==> Inside(ops, outs, p)
  {
    hide Inside;
  }

  lemma StepIdle(s: State, start: nat, op: Op)
    requires S.Inv(s, start) && Sized(s) && !s.stuck
    requires (op.Begin? && Step(s, start, op).1.Done?) || (op.Commit? && Step(s, start, op).1.Refused?)
    ensures s.log.phase.Idle?
  {
    hide S.Inv, Hold, Drop, Wrote;
    if op.Commit? && s.pos < |Acts(s, start)| {
      ActInside(s, start);
    }
  }

  /** The disk after a crash has, block by block, the last contents put there by the first k requests, after which
      nobody was inside an operation; and all is there that was done before the last time the log was at rest. */
  ghost predicate CrashLeaves(r: Disk, d: Disk, n: nat, start: nat, ops: seq<Op>, outs: seq<Out>, k: nat)
    requires |ops| == |outs|
  {
    && k <= |ops| && |r| == |d|
    && (forall p :: 0 <= p < n ==> !Inside(ops[..k], outs[..k], p))
    && (forall b :: 0 <= b < |d| && !InLog(start, b) ==> r[b] == Latest(d, ops[..k], outs[..k], b))
    && forall i :: 0 <= i < |ops| && AtRest(n, ops, outs, i) ==> i <= k
  }

  lemma CrashPuts(l: Log, c: Clients, h: History, d: Disk, n: nat, ops: seq<Op>) returns (k: nat)
    requires Layout(d, l.start) && S.Inv(Start(d, n), l.start) && Implements(l, c, Steps(Start(d, n), l.start, ops).0, h)
    ensures Recoverable(l.bc.disk, l.start)
    ensures CrashLeaves(Recovered(l.bc.disk, l.start), d, n, l.start, ops, Steps(Start(d, n), l.start, ops).1, k)
    ensures forall i :: k < i <= |ops| ==> !Settled(Steps(Start(d, n), l.start, ops[..i]).0)
  {
    hide S.Inv, Step, Steps, Implements, Recovered, Recoverable, Latest, Inside, Holder, Has, AtRest, Settled;
    var s := Start(d, n);
    k := SavedMoment(s, l.start, ops);
    var outs := Steps(s, l.start, ops).1;
    if k < |ops| {
      OutsPrefix(s, l.start, ops, k);
    } else {
      assert ops[..k] == ops && outs[..k] == outs;
    }
    var m := Steps(s, l.start, ops[..k]).0;
    ShowsWhole(d, n, l.start, ops[..k]);
    CrashNow(l, c, Steps(s, l.start, ops).0, h);
    var r := Recovered(l.bc.disk, l.start);
    forall p | 0 <= p < n
      ensures !Inside(ops[..k], outs[..k], p)
    {
      ShowsThis(m, d, n, ops[..k], outs[..k], 0, p);
    }
    forall b | 0 <= b < |d| && !InLog(l.start, b)
      ensures r[b] == Latest(d, ops[..k], outs[..k], b)
    {
      CurThis(d, n, l.start, ops[..k], b);
    }
    forall i | 0 <= i < |ops| && AtRest(n, ops, outs, i)
      ensures i <= k
    {
      RestSettles(d, n, l.start, ops, i);
    }
  }

  lemma {:induction false} CurThis(d: Disk, n: nat, start: nat, ops: seq<Op>, b: nat)
    requires Layout(d, start) && b < |d|
    ensures S.Inv(Start(d, n), start)
    ensures var (m, us) := Steps(Start(d, n), start, ops); |m.cur| == |d| && m.cur[b] == Latest(d, ops, us, b)
    decreases |ops|
  {
    hide S.Inv, Step, Steps, Latest;
    StartInv(d, n, start);
    SizesKept(d, n, start, ops);
    if ops == [] {
      StepsNone(Start(d, n), start);
      assert Latest(d, [], [], b) == d[b] by {
        NoneYet(d, b);
      }
    } else {
      var front, op := ops[..|ops| - 1], ops[|ops| - 1];
      assert ops == front + [op];
      CurThis(d, n, start, front, b);
      SizesKept(d, n, start, front);
      var (m, us) := Steps(Start(d, n), start, front);
      StepsMore(Start(d, n), start, front, op);
      StepCur(m, start, op, b);
      OneMore(d, front, us, op, Step(m, start, op).1, b, 0);
    }
  }

  lemma NoneYet(d: Disk, b: nat)
    requires b < |d|
    ensures Latest(d, [], [], b) == d[b]
  {
  }

  lemma StepCur(s: State, start: nat, op: Op, b: nat)
    requires S.Inv(s, start) && b < |s.cur|
    ensures Sized(s)
    ensures var (t, out) := Step(s, start, op);
            b < |t.cur| && t.cur[b] == if op.Put? && op.b == b && out.Done? then op.data else s.cur[b]
  {
    hide S.Inv, InUse, S.Pinned, InOrder, Turn;
    InvAt(s, start);
    if op.Commit? {
      CommitProcs(s, start);
    }
  }

  /** From boot on a disk left in any state, for any requests: each is answered as the ones before it call for, and
      a crash now leaves what some first requests put there. */
  method Life(image: Disk, start: nat, nproc: nat, ops: seq<Op>) returns (l: Log, outs: seq<Out>, ghost k: nat)
    requires Recoverable(image, start)
    ensures |outs| == |ops|
    ensures forall i :: 0 <= i < |ops| ==> Answer(Recovered(image, start), nproc, start, ops[..i], outs[..i], ops[i], outs[i])
    ensures Recoverable(l.bc.disk, start)
    ensures CrashLeaves(Recovered(l.bc.disk, start), Recovered(image, start), nproc, start, ops, outs, k)
  {
    hide Implements, Steps, Start, S.Inv, Recovered, Answer, CrashLeaves;
    ghost var d := Recovered(image, start);
    StartInv(d, nproc, start);
    var c;
    ghost var h;
    l, c, h := Boot(image, start, nproc);
    c, outs, h := Run(l, ops, c, Start(d, nproc), h);
    forall i | 0 <= i < |ops|
      ensures Answer(d, nproc, start, ops[..i], outs[..i], ops[i], outs[i])
    {
      AllAnswered(d, nproc, start, ops, i);
    }
    k := CrashPuts(l, c, h, d, nproc, ops);
  }
}
