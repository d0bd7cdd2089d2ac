/** Which version a crash leaves, for any steps: if what is there whenever nobody is inside an operation is one
    of a sequence of versions, the next one for every operation that has ended, so is what recovery gives. */
module Versions {
  import opened Common
  import opened Blocks
  import opened LogSpec
  import opened Lru
  import P = LogProto
  import opened S = StorageSpec
  import opened Log
  import opened Storage

  /** Nobody is inside an operation. */
  predicate Quiet(s: State) {
    forall p :: 0 <= p < |s.log.procs| ==> !s.log.procs[p].In?
  }

  /** And no commit is under way. */
  predicate Settled(s: State) {
    s.log.phase.Idle? && Quiet(s)
  }

  /** Operations that have ended. */
  function Ended(ops: seq<Op>, outs: seq<Out>): (n: nat)
    requires |ops| == |outs|
  {
    if ops == [] then 0
    else var k := |ops| - 1; Ended(ops[..k], outs[..k]) + if ops[k].End? && outs[k].Done? then 1 else 0
  }

  function EndedIn(s: State, start: nat, ops: seq<Op>): (n: nat)
    requires S.Inv(s, start)
  {
    Ended(ops, Steps(s, start, ops).1)
  }

  /** Whenever an operation has ended and nobody else is inside one, the contents are the version of that number. */
  ghost predicate EndsIn(s: State, start: nat, ops: seq<Op>, ds: seq<Disk>)
    requires S.Inv(s, start)
  {
    forall k :: 0 <= k < |ops| && ops[k].End? ==> EndAt(s, start, ops[..k + 1], ds)
  }

  ghost predicate EndAt(s: State, start: nat, ops: seq<Op>, ds: seq<Disk>)
    requires S.Inv(s, start) && ops != []
  {
    var (t, outs) := Steps(s, start, ops);
    var n := EndedIn(s, start, ops);
    outs[|ops| - 1].Done? && Quiet(t) ==> n < |ds| && SameHome(t.cur, ds[n], start)
  }

  lemma EndedMore(s: State, start: nat, ops: seq<Op>, op: Op)
    requires S.Inv(s, start)
    ensures Sized(Steps(s, start, ops).0)
    ensures EndedIn(s, start, ops + [op]) ==
      EndedIn(s, start, ops) + if op.End? && Step(Steps(s, start, ops).0, start, op).1.Done? then 1 else 0
  {
    hide Step, Steps, S.Inv;
    StepsMore(s, start, ops, op);
    var outs := Steps(s, start, ops + [op]).1;
    assert (ops + [op])[..|ops|] == ops && outs[..|ops|] == Steps(s, start, ops).1;
  }

  lemma EndsInFront(s: State, start: nat, ops: seq<Op>, op: Op, ds: seq<Disk>)
    requires S.Inv(s, start)
    ensures EndsIn(s, start, ops + [op], ds) <==> EndsIn(s, start, ops, ds) && (op.End? ==> EndAt(s, start, ops + [op], ds))
  {
    hide EndAt, S.Inv;
    var more := ops + [op];
    assert more[..|more|] == more && more[|ops|] == op;
    forall k | 0 <= k < |ops|
      ensures more[k] == ops[k] && more[..k + 1] == ops[..k + 1]
    {
    }
  }

  lemma NoneEnded(s: State, start: nat, ds: seq<Disk>)
    requires S.Inv(s, start)
    ensures EndsIn(s, start, [], ds) && EndedIn(s, start, []) == 0
  {
  }

  /** Steps that end nothing. */
  lemma {:induction false} EndsInMore(s: State, start: nat, ops: seq<Op>, more: seq<Op>, ds: seq<Disk>)
    requires S.Inv(s, start) && EndsIn(s, start, ops, ds) && forall o :: 0 <= o < |more| ==> !more[o].End?
    ensures EndsIn(s, start, ops + more, ds) && EndedIn(s, start, ops + more) == EndedIn(s, start, ops)
    decreases |more|
  {
    hide S.Inv, EndsIn, EndedIn, Steps, Step;
    if more == [] {
      assert ops + more == ops;
    } else {
      var front, op := more[..|more| - 1], more[|more| - 1];
      EndsInMore(s, start, ops, front, ds);
      assert ops + more == ops + front + [op];
      EndsInFront(s, start, ops + front, op, ds);
      EndedMore(s, start, ops + front, op);
    }
  }

  // ---- what is there when nobody is inside ----

  /** Only the end of an operation makes the system quiet, and nothing changes while it is. */
  lemma StepQuiet(s: State, start: nat, op: Op)
    requires S.Inv(s, start)
    ensures Sized(s)
    ensures var (t, out) := Step(s, start, op);
            Quiet(t) && !(op.End? && out.Done?) ==> Quiet(s) && t.cur == s.cur
  {
    hide S.Inv, InUse, S.Pinned, Does, ActsAt;
    InvAt(s, start);
    var (t, out) := Step(s, start, op);
    if Quiet(t) && !(op.End? && out.Done?) {
      if op.Commit? {
        CommitProcs(s, start);
      }
      forall p | 0 <= p < |s.log.procs|
        ensures !s.log.procs[p].In?
      {
        assert !t.log.procs[p].In?;
      }
    }
  }

  /** A commit leaves everybody where they are, or wakes them. */
  lemma CommitProcs(s: State, start: nat)
    requires S.Inv(s, start)
    ensures Sized(s)
    ensures var t := Turn(s, start).0; t.cur == s.cur && (t.log.procs == s.log.procs || t.log.procs == P.Wake(s.log.procs))
  {
    hide S.Inv, InUse, S.Pinned, ActsAt;
    InvAt(s, start);
  }

  lemma {:induction false} QuietIs(s: State, start: nat, ops: seq<Op>, ds: seq<Disk>)
    requires S.Inv(s, start) && ds != [] && SameHome(s.cur, ds[0], start) && EndsIn(s, start, ops, ds)
    requires Quiet(Steps(s, start, ops).0)
    ensures var n := EndedIn(s, start, ops); n < |ds| && SameHome(Steps(s, start, ops).0.cur, ds[n], start)
    decreases |ops|
  {
    hide Step, Steps, S.Inv, Quiet, EndsIn, SameHome;
    if ops == [] {
      StepsNone(s, start);
    } else {
      var front, op := ops[..|ops| - 1], ops[|ops| - 1];
      assert ops == front + [op];
      EndsInFront(s, start, front, op, ds);
      StepsMore(s, start, front, op);
      EndedMore(s, start, front, op);
      var m := Steps(s, start, front).0;
      StepQuiet(m, start, op);
      if !(op.End? && Step(m, start, op).1.Done?) {
        QuietIs(s, start, front, ds);
      }
    }
  }

  // ---- what is saved ----

  /** Whenever the system was settled by then, at most j operations had ended. */
  ghost predicate AtLeast(s: State, start: nat, ops: seq<Op>, j: nat)
    requires S.Inv(s, start)
  {
    forall k :: 0 <= k <= |ops| && Settled(Steps(s, start, ops[..k]).0) ==> EndedIn(s, start, ops[..k]) <= j
  }

  lemma AtLeastMore(s: State, start: nat, ops: seq<Op>, op: Op, i: nat, j: nat)
    requires S.Inv(s, start) && AtLeast(s, start, ops, i) && i <= j
    requires Settled(Steps(s, start, ops + [op]).0) ==> EndedIn(s, start, ops + [op]) <= j
    ensures AtLeast(s, start, ops + [op], j)
  {
    hide S.Inv, Steps, EndedIn, Settled;
    var more := ops + [op];
    assert more[..|more|] == more;
    forall k | 0 <= k <= |more| && Settled(Steps(s, start, more[..k]).0)
      ensures EndedIn(s, start, more[..k]) <= j
    {
      if k <= |ops| {
        assert more[..k] == ops[..k];
      }
    }
  }

  /** What is saved is one of the versions: not beyond the operations that have ended, and not before those that
      had ended when the system was last settled. */
  lemma {:induction false} LastSave(s: State, start: nat, ops: seq<Op>, ds: seq<Disk>) returns (j: nat)
    requires S.Inv(s, start) && s.saves != [] && ds != [] && SameHome(s.cur, ds[0], start)
    requires SameHome(s.saves[|s.saves| - 1], ds[0], start) && EndsIn(s, start, ops, ds)
    ensures var saves := Steps(s, start, ops).0.saves; saves != [] && j < |ds| && SameHome(saves[|saves| - 1], ds[j], start)
    ensures j <= EndedIn(s, start, ops) && AtLeast(s, start, ops, j)
    decreases |ops|
  {
    hide Step, Steps, S.Inv, Quiet, EndsIn, SameHome, AtLeast;
    if ops == [] {
      StepsNone(s, start);
      assert AtLeast(s, start, [], 0) by {
        AtLeastNone(s, start);
      }
      return 0;
    }
    var front, op := ops[..|ops| - 1], ops[|ops| - 1];
    assert ops == front + [op];
    EndsInFront(s, start, front, op, ds);
    StepsMore(s, start, front, op);
    EndedMore(s, start, front, op);
    var i := LastSave(s, start, front, ds);
    var m, t := Steps(s, start, front).0, Steps(s, start, ops).0;
    InvAt(t, start);
    if Settled(t) {
      SettledSaved(t, start);
      QuietIs(s, start, ops, ds);
      j := EndedIn(s, start, ops);
    } else if t.saves != m.saves {
      SavedQuiet(m, start, op);
      QuietIs(s, start, front, ds);
      j := EndedIn(s, start, front);
    } else {
      j := i;
    }
    AtLeastMore(s, start, front, op, i, j);
  }

  lemma AtLeastNone(s: State, start: nat)
    requires S.Inv(s, start)
    ensures AtLeast(s, start, [], 0)
  {
  }

  lemma SettledSaved(s: State, start: nat)
    requires S.Inv(s, start) && Settled(s)
    ensures s.saves != [] && s.saves[|s.saves| - 1] == s.cur
  {
    AllSaved(s, start);
  }

  lemma SavedQuiet(s: State, start: nat, op: Op)
    requires S.Inv(s, start) && Sized(s) && Step(s, start, op).0.saves != s.saves
    ensures Step(s, start, op).0.saves == s.saves + [s.cur] && Quiet(s)
  {
    SavedWhole(s, start, op);
  }

  /** A crash after any steps. */
  lemma CrashAnywhere(l: Log, c: Clients, h: History, s: State, ops: seq<Op>, ds: seq<Disk>) returns (j: nat)
    requires S.Inv(s, l.start) && s.saves != [] && ds != [] && SameHome(s.cur, ds[0], l.start)
    requires SameHome(s.saves[|s.saves| - 1], ds[0], l.start) && EndsIn(s, l.start, ops, ds)
    requires Implements(l, c, Steps(s, l.start, ops).0, h)
    ensures j < |ds| && j <= EndedIn(s, l.start, ops) && AtLeast(s, l.start, ops, j)
    ensures Recoverable(l.bc.disk, l.start) && SameHome(Recovered(l.bc.disk, l.start), ds[j], l.start)
  {
    hide Implements, Steps, S.Inv, Recovered, Recoverable, EndsIn, AtLeast, SameHome;
    j := LastSave(s, l.start, ops, ds);
    var t := Steps(s, l.start, ops).0;
    CrashNow(l, c, t, h);
    HomeTrans(Recovered(l.bc.disk, l.start), t.saves[|t.saves| - 1], ds[j], l.start);
  }

  // ---- a commit that nobody is in the way of ends ----

  /** Nobody but the commit uses a block. */
  predicate Lone(s: State)
    requires Sized(s)
  {
    && (forall b :: 0 <= b < |s.users| ==> s.users[b] <= {Committer(s)})
    && forall b :: 0 <= b < |s.holder| ==> s.holder[b].None? || s.holder[b] == Some(Committer(s))
  }

  lemma NoRefsFewInUse(s: State, start: nat)
    requires S.Inv(s, start) && Sized(s) && Lone(s) && Refs(s) == {}
    ensures |InUse(s)| <= |s.log.blocks|
  {
    hide S.Inv, Installed;
    InvAt(s, start);
    DistinctSize(s.log.blocks);
    forall b | b in InUse(s)
      ensures b in s.log.blocks
    {
      assert b !in Refs(s);
      assert s.users[b] == {};
    }
    SubsetSize(InUse(s), set i | 0 <= i < |s.log.blocks| :: s.log.blocks[i]);
  }

  /** Its next step is done. */
  lemma LoneGoesOn(s: State, start: nat)
    requires S.Inv(s, start) && Sized(s) && Lone(s) && !s.stuck && !s.log.phase.Idle? && |s.log.blocks| < NBUF
    ensures Step(s, start, Commit).1.Done?
  {
    hide S.Inv, InUse, S.Pinned, Allowed, InOrder, Refs, Locks;
    InvAt(s, start);
    PanicsWhenFull(s, start, Commit);
    if s.pos == 0 {
      FirstHolds(s, start);
      NoRefsFewInUse(s, start);
    }
    if s.pos < |Acts(s, start)| {
      ActInside(s, start);
      NobodyWaits(s, start);
    }
  }

  lemma FirstHolds(s: State, start: nat)
    requires S.At(s, start) && InOrder(s, start) && s.pos == 0
    ensures Refs(s) == {}
  {
  }

  lemma NobodyWaits(s: State, start: nat)
    requires S.Inv(s, start) && Sized(s) && Lone(s) && s.pos < |Acts(s, start)|
    ensures var act := Acts(s, start)[s.pos]; act.Seize? && act.b < |s.holder| ==> s.holder[act.b].None?
  {
    hide S.Inv, InOrder;
    InvAt(s, start);
    AllowedNow(s, start);
  }

  /** How far the end is. */
  function Rank(s: State): (r: nat) {
    if s.log.phase.Writing? then 2 else if s.log.phase.Written? then 1 else 0
  }

  lemma LoneStays(s: State, start: nat)
    requires S.Inv(s, start) && Sized(s) && Lone(s) && !s.stuck && Step(s, start, Commit).1.Done?
    ensures var t := Step(s, start, Commit).0;
            && Lone(t) && !t.stuck && t.cur == s.cur && (t.log.blocks == s.log.blocks || t.log.blocks == [])
            && t.log.outstanding == s.log.outstanding && (t.log.procs == s.log.procs || t.log.procs == P.Wake(s.log.procs))
            && (Rank(t) < Rank(s) || (t.log == s.log && (t.turn > s.turn || (t.turn == s.turn && t.pos > s.pos))))
  {
    hide S.Inv, InUse, S.Pinned, ActsAt, Lone, Does, Next;
    if s.pos < |Acts(s, start)| {
      LoneActs(s, start);
    } else {
      LoneSame(s, Step(s, start, Commit).0);
    }
  }

  lemma LoneSame(s: State, t: State)
    requires Sized(s) && Sized(t) && Lone(s) && t.users == s.users && t.holder == s.holder && Committer(t) == Committer(s)
    ensures Lone(t)
  {
  }

  lemma LoneActs(s: State, start: nat)
    requires Sized(s) && Lone(s) && s.pos < |Acts(s, start)| && Does(s, start, Acts(s, start)[s.pos]).1.Done?
    ensures var t := Does(s, start, Acts(s, start)[s.pos]).0;
            && Lone(t) && t.stuck == s.stuck && t.cur == s.cur && (t.log.blocks == s.log.blocks || t.log.blocks == [])
            && t.log.outstanding == s.log.outstanding && t.log.procs == s.log.procs
            && (Rank(t) < Rank(s) || (t.log == s.log && (t.turn > s.turn || (t.turn == s.turn && t.pos > s.pos))))
  {
    hide InUse, S.Pinned, ActsAt, Does, Next;
    CommitterSame(s, start);
    DoesHolds(s, start, Acts(s, start)[s.pos]);
    var t := Does(s, start, Acts(s, start)[s.pos]).0;
    Advances(s, start);
    Advances(s.(users := t.users, holder := t.holder), start);
  }

  lemma Advances(s: State, start: nat)
    ensures var t := Next(s, start); t.log == s.log && (t.turn > s.turn || (t.turn == s.turn && t.pos > s.pos))
    ensures var t := Wrote(s, start);
            && (t.log.blocks == s.log.blocks || t.log.blocks == []) && t.log.outstanding == s.log.outstanding
            && t.log.procs == s.log.procs
            && (Rank(t) < Rank(s) || (t.log == s.log && (t.turn > s.turn || (t.turn == s.turn && t.pos > s.pos))))
  {
  }

  /** So it ends, with everything saved. */
  lemma {:induction false} CommitEnds(s: State, start: nat) returns (ops: seq<Op>)
    requires S.Inv(s, start) && Sized(s) && Lone(s) && !s.stuck && |s.log.blocks| < NBUF
    requires P.Wake(s.log.procs) == s.log.procs
    ensures forall o :: 0 <= o < |ops| ==> ops[o].Commit?
    ensures var t := Steps(s, start, ops).0;
            && t.log.phase.Idle? && Sized(t) && Lone(t) && !t.stuck && t.cur == s.cur && t.log.procs == s.log.procs
            && t.log.outstanding == s.log.outstanding
    decreases Rank(s), Turns(|s.log.blocks|) - s.turn, 10 - s.pos
  {
    hide S.Inv, Steps, Step, Lone, InOrder;
    if s.log.phase.Idle? {
      StepsNone(s, start);
      return [];
    }
    LoneGoesOn(s, start);
    LoneStays(s, start);
    StepKeeps(s, start, Commit);
    var t := Step(s, start, Commit).0;
    InvAt(s, start);
    InvAt(t, start);
    FewSteps(s, start);
    var rest := CommitEnds(t, start);
    ops := [Commit] + rest;
    StepsFirst(s, start, Commit, rest);
  }

  lemma FewSteps(s: State, start: nat)
    requires S.At(s, start)
    ensures s.pos <= 10 && s.turn <= Turns(|s.log.blocks|)
  {
  }

  /** The first step and the others. */
  lemma {:induction false} StepsFirst(s: State, start: nat, op: Op, ops: seq<Op>)
    requires S.Inv(s, start) && Sized(s)
    ensures S.Inv(Step(s, start, op).0, start) && Steps(s, start, [op] + ops).0 == Steps(Step(s, start, op).0, start, ops).0
    decreases |ops|
  {
    hide S.Inv, Steps, Step;
    StepKeeps(s, start, op);
    var t := Step(s, start, op).0;
    if ops == [] {
      StepsNone(s, start);
      StepsMore(s, start, [], op);
      StepsNone(t, start);
      assert [op] + ops == [] + [op];
    } else {
      var front, last := ops[..|ops| - 1], ops[|ops| - 1];
      StepsFirst(s, start, op, front);
      assert [op] + ops == [op] + front + [last] && ops == front + [last];
      StepsMore(s, start, [op] + front, last);
      StepsMore(t, start, front, last);
    }
  }
}
