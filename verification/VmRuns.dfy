/** Whole runs of requests on one memory: copy-on-write against eager copying, and every request against the
    one free list. */
module VmRuns {
  import opened Common
  import opened Frames
  import opened EagerSpec
  import opened EagerRuns
  import opened KernelPages
  import opened Vm

  /** The memory at one moment. */
  datatype Snap = Snap(m: Mem, size: map<nat, nat>, kern: Kern)

  ghost function Now(vm: Machine): (s: Snap)
    reads vm
  {
    Snap(vm.M(), vm.size, vm.kern)
  }

  ghost function Seen(s: Snap): (w: World) {
    World(Abs(s.m), s.size)
  }

  /** Counts, sizes and kernel pages are all in order. */
  ghost predicate InOrder(s: Snap) {
    && Inv(s.m) && s.m.procs == s.size.Keys && Within(s.m.pt.Keys, s.size)
    && Accounts(s.kern, s.m.held, {}) && Shaped(s.kern, s.size.Keys) && Covered(s.kern, s.size.Keys, s.m.pt.Keys)
  }

  /** A store succeeds: the page is writable, or is shared and there is a frame for a copy. */
  ghost predicate MayStore(m: Mem, p: nat, va: nat) {
    var k := Key(p, va / PGSIZE);
    k in m.pt && m.pt[k].u && (m.pt[k].w || (m.pt[k].cow && m.free != []))
  }

  ghost predicate MayTouch(s: Snap, p: nat, va: nat)
    requires p in s.size
  {
    va < s.size[p] && Key(p, va / PGSIZE) !in s.m.pt && 1 + Lacks(s.kern, p, va / PGSIZE) <= |s.m.free|
  }

  ghost predicate MaySbrk(s: Snap, p: nat, n: Int32)
    requires p in s.size
  {
    n <= 0 || CanGrow(s.kern, p, s.size[p], n, |s.m.free|)
  }

  /** The request succeeds, by the frames that are free. For copyout this is enough, for the others it is exact. */
  ghost predicate Able(s: Snap, op: Op)
    requires Possible(Seen(s), op)
  {
    match op
    case DoSpawn(c) => |s.m.free| >= 4
    case DoFork(p, c) => ForkNeeds(s.m.pt.Keys, p, c, Pages(s.size[p])) <= |s.m.free|
    case DoStore(p, va, b) => MayStore(s.m, p, va)
    case DoCopyout(p, va, src) => RoomToWrite(Abs(s.m), s.size[p], p, va, |src|, s.kern, |s.m.free|)
    case DoTouch(p, va) => MayTouch(s, p, va)
    case DoSbrk(p, n) => MaySbrk(s, p, n)
    case DoLazy(p, n) => if n >= 0 then s.size[p] + n <= TRAPFRAME else MaySbrk(s, p, n)
    case DoExit(p) => true
    case DoKalloc => s.m.free != []
    case DoKfree(f) => Other(f) in s.kern
  }

  ghost predicate Ends(s: Snap, op: Op, out: nat)
    requires Possible(Seen(s), op)
  {
    if op.DoCopyout? then out <= |op.src| && (Able(s, op) ==> out == |op.src|) else out == if Able(s, op) then 1 else 0
  }

  /** What becomes of the kernel's own pages, and of the bytes that copyout writes. */
  ghost predicate Uses(s: Snap, op: Op, out: nat, t: Snap)
    requires Possible(Seen(s), op)
  {
    match op
    case DoSpawn(c) => if out == 0 then t.kern == s.kern else t.kern.Keys == s.kern.Keys + Basics(c)
    case DoFork(p, c) =>
      if out == 0 then t.kern == s.kern && |t.m.free| == |s.m.free|
      else t.kern.Keys == s.kern.Keys + Basics(c) + TablesFor(c, Present(s.m.pt.Keys, p, Pages(s.size[p])))
    case DoStore(_, _, _) => t.kern == s.kern
    case DoCopyout(p, va, src) =>
      && Grew(s.kern, t.kern, p)
      && (out <= |src| ==> IsAt(Abs(t.m), p, va, src[..out]) && OnlyWritten(Abs(s.m), Abs(t.m), p, va, out))
    case DoTouch(p, va) =>
      && Grew(s.kern, t.kern, p)
      && (out == 1 ==> |t.m.free| == |s.m.free| - 1 - Lacks(s.kern, p, va / PGSIZE))
    case DoSbrk(p, _) => Grew(s.kern, t.kern, p)
    case DoLazy(p, _) => Grew(s.kern, t.kern, p)
    case DoExit(p) => t.kern == Stripped(s.kern, p)
    case DoKalloc => t.kern == if out == 0 || s.m.free == [] then s.kern else s.kern[Other(s.m.free[0]) := s.m.free[0]]
    case DoKfree(f) => t.kern == s.kern - {Other(f)}
  }

  ghost predicate Served(s: Snap, op: Op, out: nat, t: Snap) {
    && InOrder(s) && InOrder(t)
    && if !Possible(Seen(s), op) then out == 0 && t == s
       else Ends(s, op, out) && Seen(t) == EagerStep(Seen(s), op, out) && Uses(s, op, out, t)
  }

  /** Any one request, as the kernel serves it. */
  method Serve(vm: Machine, op: Op) returns (out: nat)
    requires vm.Good() && Possible(vm.W(), op)
    modifies vm
    ensures vm.Good() && Ends(old(Now(vm)), op, out) && Uses(old(Now(vm)), op, out, Now(vm))
    ensures vm.W() == EagerStep(old(vm.W()), op, out)
  {
    hide Inv, Abs, Drop, Grow, EagerSpec.Fork, Out, Pages, RoomToWrite, Accounts, Shaped, Covered, Grew, Lacks, Within,
         Missing, TablesFor, Tables, Basics, Present, ForkNeeds, CanGrow, Stripped, Touch, IsAt, OnlyWritten;
    match op
    case DoSpawn(c) =>
      var ok := Spawn(vm, c);
      out := if ok then 1 else 0;
    case DoFork(p, c) =>
      var ok := vm.Kfork(p, c);
      out := if ok then 1 else 0;
    case DoStore(p, va, b) =>
      var ok := vm.UserStore(p, va, b);
      out := if ok then 1 else 0;
    case DoCopyout(p, va, src) =>
      var ok, done := vm.Copyout(p, va, src);
      out := done;
    case DoTouch(p, va) =>
      var ok := vm.Vmfault(p, va);
      out := if ok then 1 else 0;
    case DoSbrk(p, n) =>
      var ok, _ := vm.Sbrk(p, n, false);
      out := if ok then 1 else 0;
    case DoLazy(p, n) =>
      var ok, _ := vm.Sbrk(p, n, true);
      out := if ok then 1 else 0;
    case DoExit(p) =>
      vm.Exit(p);
      out := 1;
    case DoKalloc =>
      var r := vm.KallocOther();
      out := if r.Some? then 1 else 0;
    case DoKfree(f) =>
      out := 0;
      if Other(f) in vm.kern {
        vm.KfreeOther(f);
        out := 1;
      }
  }

  /** The first process: allocproc, with no memory yet. */
  method Spawn(vm: Machine, c: nat) returns (ok: bool)
    requires vm.Good() && c !in vm.size && |vm.size.Keys| < NPROC
    modifies vm
    ensures vm.Good() && vm.A() == old(vm.A()) && (ok <==> |old(vm.freelist)| >= 4)
    ensures vm.size == if ok then old(vm.size)[c := 0] else old(vm.size)
    ensures if ok then vm.kern.Keys == old(vm.kern).Keys + Basics(c) else vm.kern == old(vm.kern)
  {
    hide Inv, Abs, Accounts, Shaped, Covered, Basics;
    ok := vm.Allocproc(c);
    WithinSpawn(vm.pt.Keys, old(vm.size), c);
  }

  lemma WithinSpawn(keys: set<Key>, size: map<nat, nat>, c: nat)
    requires Within(keys, size) && c !in size
    ensures Within(keys, size[c := 0])
  {
  }

  /** The memory before, between and after the requests. */
  ghost predicate Traced(ss: seq<Snap>, ops: seq<Op>, outs: seq<nat>) {
    && |outs| == |ops| && |ss| == |ops| + 1
    && forall i :: 0 <= i < |ops| ==> Served(ss[i], ops[i], outs[i], ss[i + 1])
  }

  /** Copy-on-write refines eager copying: after any run of requests the processes see exactly what the eager
      machine gives them, and each request succeeds when the free list, as it is at that moment, has the
      frames it needs for pages and page tables. */
  method Run(vm: Machine, ops: seq<Op>) returns (outs: seq<nat>, ghost ss: seq<Snap>)
    requires vm.Good()
    modifies vm
    ensures vm.Good() && |outs| == |ops| && vm.W() == EagerRun(old(vm.W()), ops, outs)
    ensures Traced(ss, ops, outs) && ss[0] == old(Now(vm)) && ss[|ops|] == Now(vm)
  {
    hide EagerStep, EagerRun, Served, Ends, Uses, Inv, Abs, Accounts, Shaped, Covered, Within;
    RunNone(vm.W());
    outs, ss := [], [Now(vm)];
    var i := 0;
    while i < |ops|
      invariant 0 <= i == |outs| <= |ops|
      invariant vm.Good() && vm.W() == EagerRun(old(vm.W()), ops[..i], outs)
      invariant Traced(ss, ops[..i], outs) && ss[0] == old(Now(vm)) && ss[i] == Now(vm)
    {
      var op := ops[i];
      var out := 0;
      ghost var s := Now(vm);
      if (!op.DoSpawn? && !op.DoKalloc? && !op.DoKfree? ==> op.p in vm.size)
         && (op.DoFork? || op.DoSpawn? ==> op.c !in vm.size && |vm.size.Keys| < NPROC) {
        out := Serve(vm, op);
      }
      ServedIs(s, op, out, Now(vm));
      RunNext(old(vm.W()), ops, outs, i, out);
      TracedMore(ss, ops[..i], outs, op, out, Now(vm));
      assert ops[..i + 1] == ops[..i] + [op];
      outs, ss := outs + [out], ss + [Now(vm)];
      i := i + 1;
    }
    assert ops[..i] == ops;
  }

  lemma ServedIs(s: Snap, op: Op, out: nat, t: Snap)
    requires InOrder(s) && InOrder(t)
    requires if !Possible(Seen(s), op) then out == 0 && t == s
             else Ends(s, op, out) && Seen(t) == EagerStep(Seen(s), op, out) && Uses(s, op, out, t)
    ensures Served(s, op, out, t)
  {
  }

  lemma TracedMore(ss: seq<Snap>, ops: seq<Op>, outs: seq<nat>, op: Op, out: nat, t: Snap)
    requires Traced(ss, ops, outs) && Served(ss[|ops|], op, out, t)
    ensures Traced(ss + [t], ops + [op], outs + [out])
  {
    hide Served;
  }

  lemma RunNone(w: World)
    ensures EagerRun(w, [], []) == w
  {
  }

  lemma RunNext(w: World, ops: seq<Op>, outs: seq<nat>, i: nat, out: nat)
    requires |outs| == i < |ops|
    ensures var v := EagerRun(w, ops[..i], outs);
            EagerRun(w, ops[..i + 1], outs + [out]) == if Possible(v, ops[i]) then EagerStep(v, ops[i], out) else v
  {
    assert ops[..i + 1][..i] == ops[..i] && (outs + [out])[..i] == outs;
  }

  /** When every process has gone and every other kernel page is returned, all frames are free again. */
  lemma NothingLost(s: Snap)
    requires InOrder(s) && s.size == map[] && forall u :: u in s.kern ==> !u.Other?
    ensures |s.m.free| == |s.m.count|
  {
    hide Inv, Accounts, Shaped, Covered;
    assert s.size.Keys == {};
    NoLeak(s.m, s.kern);
  }
}
