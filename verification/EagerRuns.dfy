/** A whole run on the eager machine. */
module EagerRuns {
  import opened Common
  import opened Frames
  import opened EagerSpec

  type Int32 = x: int | -0x8000_0000 <= x < 0x8000_0000

  /** The lowest address a process cannot have. */
  const TRAPFRAME := MAXVA - 2 * PGSIZE

  /** What is asked of the kernel's memory: DoSpawn makes the first process, DoKalloc and DoKfree are pages for
      the kernel's own use. */
  datatype Op =
    | DoSpawn(c: nat)
    | DoFork(p: nat, c: nat)
    | DoStore(p: nat, va: nat, b: Byte)
    | DoCopyout(p: nat, va: nat, src: seq<Byte>)
    | DoTouch(p: nat, va: nat)
    | DoSbrk(p: nat, n: Int32)
    | DoLazy(p: nat, n: Int32)
    | DoExit(p: nat)
    | DoKalloc
    | DoKfree(f: nat)

  datatype World = World(a: Eager, size: map<nat, nat>)

  predicate Possible(w: World, op: Op) {
    && (!op.DoSpawn? && !op.DoKalloc? && !op.DoKfree? ==> op.p in w.size)
    && (op.DoFork? || op.DoSpawn? ==> op.c !in w.size && |w.size.Keys| < NPROC)
  }

  /** growproc: by n bytes up or down, unless that is below zero. */
  function Resized(w: World, p: nat, n: Int32): (r: World)
    requires p in w.size
  {
    var sz := w.size[p];
    if n >= 0 then
      if Pages(sz) > Pages(sz + n) then w
      else World(Grow(w.a, p, Pages(sz), Pages(sz + n), true, false), w.size[p := sz + n])
    else
      var newsz := if sz + n >= 0 then sz + n else sz;
      World(Drop(w.a, p, Pages(newsz), Pages(sz)), w.size[p := newsz])
  }

  /** One request; `out` is how it ended: 0 for failure, for copyout the bytes it got to copy. */
  function EagerStep(w: World, op: Op, out: nat): (r: World)
    requires Possible(w, op)
  {
    match op
    case DoSpawn(c) =>
      if out == 0 then w else w.(size := w.size[c := 0])
    case DoFork(p, c) =>
      if out == 0 then w else World(Fork(w.a, p, c, Pages(w.size[p])), w.size[c := w.size[p]])
    case DoStore(p, va, b) =>
      var k := Key(p, va / PGSIZE);
      if out == 0 || k !in w.a then w
      else w.(a := w.a[k := w.a[k].(data := w.a[k].data[va % PGSIZE := b])])
    case DoCopyout(p, va, src) =>
      if out > |src| then w else w.(a := Out(w.a, w.size[p], p, va, src[..out]))
    case DoTouch(p, va) =>
      if out == 0 then w else w.(a := Touch(w.a, w.size[p], p, va / PGSIZE))
    case DoSbrk(p, n) =>
      if out == 0 then w else Resized(w, p, n)
    case DoLazy(p, n) =>
      if out == 0 then w else if n < 0 then Resized(w, p, n) else w.(size := w.size[p := w.size[p] + n])
    case DoExit(p) =>
      World(Drop(w.a, p, 0, Pages(w.size[p])), w.size - {p})
    case DoKalloc => w
    case DoKfree(_) => w
  }

  function EagerRun(w: World, ops: seq<Op>, outs: seq<nat>): (r: World)
    requires |ops| == |outs|
    decreases |ops|
  {
    if ops == [] then w
    else
      var k := |ops| - 1;
      var v := EagerRun(w, ops[..k], outs[..k]);
      if Possible(v, ops[k]) then EagerStep(v, ops[k], outs[k]) else v
  }
}
