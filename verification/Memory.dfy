/** What the processes find in their memory after any run, in terms of the requests and their outcomes alone: byte by
    byte, what was last stored or copied there, since the page appeared or the process was forked. */
module Memory {
  import opened Common
  import opened Frames
  import opened EagerSpec
  import opened EagerRuns
  import opened KernelPages
  import opened Vm
  import opened VmRuns

  /** The first page boundary at or above sz. */
  function RoundUp(sz: nat): (x: nat)
    ensures sz <= x < sz + PGSIZE && x % PGSIZE == 0
  {
    sz + (PGSIZE - sz % PGSIZE) % PGSIZE
  }

  /** The size of p after a request that it has made, when it had size sz. */
  function NewSize(sz: nat, n: int): (r: nat) {
    if sz + n >= 0 then sz + n else sz
  }

  /** The size of p after a request, before it and that of the process that made it being known. */
  function SizeNext(op: Op, out: nat, p: nat, before: Option<nat>, asker: Option<nat>): (sz: Option<nat>) {
    if out == 0 then before
    else
      match op
      case DoSpawn(c) => if p == c then Some(0) else before
      case DoFork(_, c) => if p == c then asker else before
      case DoSbrk(q, n) => if p == q && before.Some? then Some(NewSize(before.value, n)) else before
      case DoLazy(q, n) => if p == q && before.Some? then Some(NewSize(before.value, n)) else before
      case DoExit(q) => if p == q then None else before
      case _ => before
  }

  /** The size of process p, if there is one. */
  function SizeOf(ops: seq<Op>, outs: seq<nat>, p: nat): (sz: Option<nat>)
    requires |ops| == |outs|
  {
    if ops == [] then None
    else
      var k := |ops| - 1;
      var asker := if ops[k].DoFork? then SizeOf(ops[..k], outs[..k], ops[k].p) else None;
      SizeNext(ops[k], outs[k], p, SizeOf(ops[..k], outs[..k], p), asker)
  }

  /** The byte at address x of p after a request; asker is the byte that the process that made it has there. */
  function ByteNext(op: Op, out: nat, p: nat, x: nat, before: Option<Byte>, asker: Option<Byte>, sz: Option<nat>)
    : (b: Option<Byte>)
  {
    if out == 0 then before
    else
      match op
      case DoFork(_, c) => if p == c then asker else before
      case DoStore(q, va, b) => if p == q && x == va then Some(b) else before
      case DoCopyout(q, va, src) =>
        if p == q && va <= x < va + out && x - va < |src| then Some(src[x - va])
        else if p == q && before.None? && va / PGSIZE <= x / PGSIZE <= (va + out - 1) / PGSIZE then Some(0)
        else before
      case DoTouch(q, va) => if p == q && x / PGSIZE == va / PGSIZE then Some(0) else before
      case DoSbrk(q, n) => if p == q then Resize(sz, n, before, x) else before
      case DoLazy(q, n) => if p == q && n < 0 then Resize(sz, n, before, x) else before
      case DoExit(q) => if p == q then None else before
      case _ => before
  }

  /** The byte at address x of p, if its page is there. */
  function ByteAt(ops: seq<Op>, outs: seq<nat>, p: nat, x: nat): (b: Option<Byte>)
    requires |ops| == |outs|
  {
    if ops == [] then None
    else
      var k := |ops| - 1;
      var os, us := ops[..k], outs[..k];
      var asker := if ops[k].DoFork? then ByteAt(os, us, ops[k].p, x) else None;
      ByteNext(ops[k], outs[k], p, x, ByteAt(os, us, p, x), asker, SizeOf(os, us, p))
  }

  /** Growth brings zeroed pages, shrinking takes whole pages away. */
  function Resize(sz: Option<nat>, n: int, before: Option<Byte>, x: nat): (b: Option<Byte>) {
    if sz.None? then before
    else if n >= 0 then if RoundUp(sz.value) <= x < RoundUp(sz.value + n) then Some(0) else before
    else if RoundUp(NewSize(sz.value, n)) <= x then None else before
  }

  function Found(a: Eager, p: nat, x: nat): (b: Option<Byte>) {
    if Key(p, x / PGSIZE) in a then Some(a[Key(p, x / PGSIZE)].data[x % PGSIZE]) else None
  }

  /** What is found at address x of p, and the size of p, are what the requests and outcomes say. */
  ghost predicate Told(s: Snap, ops: seq<Op>, outs: seq<nat>, p: nat, x: nat)
    requires |ops| == |outs|
  {
    && Found(Abs(s.m), p, x) == ByteAt(ops, outs, p, x)
    && (if p in s.size then SizeOf(ops, outs, p) == Some(s.size[p]) else SizeOf(ops, outs, p) == None)
  }

  lemma SizeMore(ops: seq<Op>, outs: seq<nat>, op: Op, out: nat, p: nat)
    requires |ops| == |outs|
    ensures SizeOf(ops + [op], outs + [out], p) ==
      SizeNext(op, out, p, SizeOf(ops, outs, p), if op.DoFork? then SizeOf(ops, outs, op.p) else None)
  {
    hide SizeNext;
    assert (ops + [op])[..|ops|] == ops && (outs + [out])[..|outs|] == outs;
  }

  lemma ByteMore(ops: seq<Op>, outs: seq<nat>, op: Op, out: nat, p: nat, x: nat)
    requires |ops| == |outs|
    ensures ByteAt(ops + [op], outs + [out], p, x) ==
      ByteNext(op, out, p, x, ByteAt(ops, outs, p, x), if op.DoFork? then ByteAt(ops, outs, op.p, x) else None,
               SizeOf(ops, outs, p))
  {
    hide ByteNext;
    assert (ops + [op])[..|ops|] == ops && (outs + [out])[..|outs|] == outs;
  }

  // ---- one request ----

  lemma ForkByte(a: Eager, p: nat, c: nat, n: nat, q: nat, x: nat)
    requires p != c && (forall k :: k in a ==> k.p != c) && (forall k :: k in a && k.p == p ==> k.v < n)
    ensures Found(Fork(a, p, c, n), q, x) == Found(a, if q == c then p else q, x)
  {
    var k := Key(q, x / PGSIZE);
    ForkCopies(a, p, c, n, k);
  }

  lemma {:induction false} GrowByte(a: Eager, p: nat, lo: nat, hi: nat, q: nat, x: nat)
    requires lo <= hi
    ensures Found(Grow(a, p, lo, hi, true, false), q, x) ==
      if q == p && lo <= x / PGSIZE < hi then Some(0) else Found(a, q, x)
    decreases hi - lo
  {
    if lo < hi {
      GrowByte(a, p, lo, hi - 1, q, x);
    }
  }

  lemma DropByte(a: Eager, p: nat, lo: nat, hi: nat, q: nat, x: nat)
    ensures Found(Drop(a, p, lo, hi), q, x) == if q == p && lo <= x / PGSIZE < hi then None else Found(a, q, x)
  {
  }

  /** Pages and addresses. */
  lemma RoundPages(sz: nat, x: nat)
    ensures x / PGSIZE < Pages(sz) <==> x < RoundUp(sz)
  {
    assert RoundUp(sz) == Pages(sz) * PGSIZE;
  }

  lemma ResizedTold(w: World, p: nat, n: Int32, x: nat)
    requires p in w.size && (forall k :: k in w.a && k.p == p ==> k.v < Pages(w.size[p]))
    ensures var r := Resized(w, p, n);
            && Found(r.a, p, x) == Resize(Some(w.size[p]), n, Found(w.a, p, x), x)
            && p in r.size && r.size[p] == NewSize(w.size[p], n)
            && (forall q :: q != p ==> Found(r.a, q, x) == Found(w.a, q, x) && (q in r.size <==> q in w.size)
                                       && (q in w.size ==> r.size[q] == w.size[q]))
  {
    hide Pages, Grow, Drop, RoundUp;
    var sz := w.size[p];
    RoundPages(sz, x);
    if n >= 0 {
      PagesMonotone(sz, sz + n);
      RoundPages(sz + n, x);
      forall q: nat
        ensures Found(Grow(w.a, p, Pages(sz), Pages(sz + n), true, false), q, x) ==
          if q == p && Pages(sz) <= x / PGSIZE < Pages(sz + n) then Some(0) else Found(w.a, q, x)
      {
        GrowByte(w.a, p, Pages(sz), Pages(sz + n), q, x);
      }
    } else {
      var newsz := NewSize(sz, n);
      RoundPages(newsz, x);
      forall q: nat
        ensures Found(Drop(w.a, p, Pages(newsz), Pages(sz)), q, x) ==
          if q == p && Pages(newsz) <= x / PGSIZE < Pages(sz) then None else Found(w.a, q, x)
      {
        DropByte(w.a, p, Pages(newsz), Pages(sz), q, x);
      }
    }
  }

  /** A world in which nobody has pages beyond its size. */
  ghost predicate Bounded(w: World) {
    forall k :: k in w.a ==> k.p in w.size && k.v < Pages(w.size[k.p])
  }

  lemma SeenBounded(s: Snap)
    requires InOrder(s)
    ensures Bounded(Seen(s))
  {
  }

  /** What a request does to the byte at x of every process, and to its size. */
  ghost predicate Follows(w: World, r: World, op: Op, out: nat, x: nat) {
    var asker := if op.DoFork? then Found(w.a, op.p, x) else None;
    var sizer := if op.DoFork? then SizeIn(w, op.p) else None;
    forall p: nat ::
      && Found(r.a, p, x) == ByteNext(op, out, p, x, Found(w.a, p, x), asker, SizeIn(w, p))
      && SizeIn(r, p) == SizeNext(op, out, p, SizeIn(w, p), sizer)
  }

  function SizeIn(w: World, p: nat): (sz: Option<nat>) {
    if p in w.size then Some(w.size[p]) else None
  }

  lemma ForkFollows(w: World, p: nat, c: nat, x: nat)
    requires Bounded(w) && Possible(w, DoFork(p, c))
    ensures Follows(w, EagerStep(w, DoFork(p, c), 1), DoFork(p, c), 1, x)
  {
    hide Found, Pages, Fork;
    var r := EagerStep(w, DoFork(p, c), 1);
    forall q: nat
      ensures Found(r.a, q, x) == Found(w.a, if q == c then p else q, x)
    {
      ForkByte(w.a, p, c, Pages(w.size[p]), q, x);
    }
  }

  lemma ResizeFollows(w: World, op: Op, x: nat)
    requires Bounded(w) && Possible(w, op) && (op.DoSbrk? || (op.DoLazy? && op.n < 0))
    ensures Follows(w, EagerStep(w, op, 1), op, 1, x)
  {
    hide Found, Pages, Resize, NewSize, Resized;
    ResizedTold(w, op.p, op.n, x);
  }

  lemma ExitFollows(w: World, p: nat, x: nat)
    requires Bounded(w) && Possible(w, DoExit(p))
    ensures Follows(w, EagerStep(w, DoExit(p), 1), DoExit(p), 1, x)
  {
    hide Pages;
    var r := EagerStep(w, DoExit(p), 1);
    forall q: nat
      ensures Found(r.a, q, x) == if q == p then None else Found(w.a, q, x)
    {
      DropByte(w.a, p, 0, Pages(w.size[p]), q, x);
    }
  }

  lemma StoreFollows(w: World, p: nat, va: nat, b: Byte, x: nat)
    requires Possible(w, DoStore(p, va, b)) && Key(p, va / PGSIZE) in w.a
    ensures Follows(w, EagerStep(w, DoStore(p, va, b), 1), DoStore(p, va, b), 1, x)
  {
    PageSplit(va);
    PageSplit(x);
  }

  lemma CopyFollows(w: World, r: World, p: nat, va: nat, src: seq<Byte>, out: nat, x: nat)
    requires out <= |src| && r.size == w.size && IsAt(r.a, p, va, src[..out]) && OnlyWritten(w.a, r.a, p, va, out)
    ensures Follows(w, r, DoCopyout(p, va, src), out, x)
  {
    forall q: nat
      ensures Found(r.a, q, x) == ByteNext(DoCopyout(p, va, src), out, q, x, Found(w.a, q, x), None, SizeIn(w, q))
    {
      if q == p && va <= x < va + out {
        assert HasByte(r.a, p, va + (x - va), src[..out][x - va]);
      } else {
        assert SameByte(w.a, r.a, q, x);
        PageThere(w.a, r.a, p, va, src[..out], q, x);
      }
    }
  }

  /** The pages that appear are those that the bytes lie in. */
  lemma PageThere(a: Eager, b: Eager, p: nat, va: nat, bs: seq<Byte>, q: nat, x: nat)
    requires IsAt(b, p, va, bs) && OnlyWritten(a, b, p, va, |bs|)
    ensures var k := Key(q, x / PGSIZE);
            k in b <==> k in a || (q == p && bs != [] && va / PGSIZE <= x / PGSIZE <= (va + |bs| - 1) / PGSIZE)
  {
    if q == p && bs != [] && va / PGSIZE <= x / PGSIZE <= (va + |bs| - 1) / PGSIZE {
      var y := if x / PGSIZE == va / PGSIZE then va else x / PGSIZE * PGSIZE;
      PageSplit(va);
      PageSplit(va + |bs| - 1);
      PageStart(x / PGSIZE);
      assert va <= y < va + |bs| && y / PGSIZE == x / PGSIZE;
      assert HasByte(b, p, va + (y - va), bs[y - va]);
    }
  }

  lemma QuietFollows(w: World, op: Op, out: nat, x: nat)
    requires Possible(w, op) && Bounded(w)
    requires out == 0 || op.DoSpawn? || op.DoKalloc? || op.DoKfree? || (op.DoLazy? && op.n >= 0)
    requires !op.DoCopyout? && !op.DoExit?
    ensures Follows(w, EagerStep(w, op, out), op, out, x)
  {
    hide Pages;
  }

  lemma TouchFollows(w: World, p: nat, va: nat, x: nat)
    requires Possible(w, DoTouch(p, va)) && va < w.size[p] && Key(p, va / PGSIZE) !in w.a
    ensures Follows(w, EagerStep(w, DoTouch(p, va), 1), DoTouch(p, va), 1, x)
  {
    PageSplit(va);
  }

  lemma ServedFollows(s: Snap, op: Op, out: nat, t: Snap, x: nat)
    requires Served(s, op, out, t)
    ensures Follows(Seen(s), Seen(t), op, out, x)
  {
    hide InOrder, Follows, Inv, EagerStep, Pages, ForkNeeds, CanGrow, RoomToWrite, Lacks, IsAt, OnlyWritten, Grew, Stripped, Abs;
    var w, r := Seen(s), Seen(t);
    SeenBounded(s);
    if !Possible(w, op) {
      SameFollows(w, op, x);
      return;
    }
    match op
    case DoFork(p, c) =>
      if out == 0 {
        QuietFollows(w, op, out, x);
      } else {
        ForkFollows(w, p, c, x);
      }
    case DoStore(p, va, b) =>
      AbsAt(s.m, Key(p, va / PGSIZE));
      if out == 0 {
        QuietFollows(w, op, out, x);
      } else {
        StoreFollows(w, p, va, b, x);
      }
    case DoCopyout(p, va, src) =>
      SizesSame(w, op, out);
      CopyFollows(w, r, p, va, src, out, x);
    case DoTouch(p, va) =>
      AbsAt(s.m, Key(p, va / PGSIZE));
      if out == 0 {
        QuietFollows(w, op, out, x);
      } else {
        TouchFollows(w, p, va, x);
      }
    case DoExit(p) => ExitFollows(w, p, x);
    case DoSbrk(_, _) =>
      if out == 0 {
        QuietFollows(w, op, out, x);
      } else {
        ResizeFollows(w, op, x);
      }
    case DoLazy(_, n) =>
      if out == 0 || n >= 0 {
        QuietFollows(w, op, out, x);
      } else {
        ResizeFollows(w, op, x);
      }
    case _ => QuietFollows(w, op, out, x);
  }

  lemma SameFollows(w: World, op: Op, x: nat)
    ensures Follows(w, w, op, 0, x)
  {
  }

  lemma SizesSame(w: World, op: Op, out: nat)
    requires Possible(w, op) && op.DoCopyout?
    ensures EagerStep(w, op, out).size == w.size
  {
  }

  /** Told of everybody. */
  ghost predicate ToldAll(s: Snap, ops: seq<Op>, outs: seq<nat>, x: nat)
    requires |ops| == |outs|
  {
    forall p: nat :: Told(s, ops, outs, p, x)
  }

  lemma ToldStep(s: Snap, t: Snap, ops: seq<Op>, outs: seq<nat>, op: Op, out: nat, x: nat)
    requires |ops| == |outs| && ToldAll(s, ops, outs, x) && Follows(Seen(s), Seen(t), op, out, x)
    ensures ToldAll(t, ops + [op], outs + [out], x)
  {
    hide ByteAt, SizeOf, ByteNext, SizeNext, Found;
    forall p: nat
      ensures Told(t, ops + [op], outs + [out], p, x)
    {
      SizeMore(ops, outs, op, out, p);
      ByteMore(ops, outs, op, out, p, x);
      assert Told(s, ops, outs, p, x);
      if op.DoFork? {
        assert Told(s, ops, outs, op.p, x);
      }
    }
  }

  /** After any run from an empty memory every process finds at every address what the requests and their
      outcomes say, and has the size they say. */
  lemma {:induction false} AllTold(ss: seq<Snap>, ops: seq<Op>, outs: seq<nat>, x: nat)
    requires Traced(ss, ops, outs) && ss[0].m.pt == map[] && ss[0].size == map[]
    ensures ToldAll(ss[|ops|], ops, outs, x)
    decreases |ops|
  {
    hide Served, ToldAll, Follows;
    if ops == [] {
      ToldNone(ss[0], x);
    } else {
      var k := |ops| - 1;
      var op, out := ops[k], outs[k];
      assert ops == ops[..k] + [op] && outs == outs[..k] + [out];
      assert Traced(ss[..k + 1], ops[..k], outs[..k]) by {
        TracedFront(ss, ops, outs);
      }
      AllTold(ss[..k + 1], ops[..k], outs[..k], x);
      ServedFollows(ss[k], op, out, ss[k + 1], x);
      ToldStep(ss[k], ss[k + 1], ops[..k], outs[..k], op, out, x);
    }
  }

  // ---- what may be done with a page ----

  /** Every page can be read and written by its process, and not executed. */
  ghost predicate Plain(a: Eager) {
    forall k :: k in a ==> a[k] == OwnPage(a[k].data, true, true, false, true)
  }

  lemma {:induction false} ForkPlain(a: Eager, p: nat, c: nat, n: nat)
    requires Plain(a)
    ensures Plain(Fork(a, p, c, n))
    decreases n
  {
    if n > 0 {
      ForkPlain(a, p, c, n - 1);
    }
  }

  lemma {:induction false} GrowPlain(a: Eager, p: nat, lo: nat, hi: nat)
    requires Plain(a) && lo <= hi
    ensures Plain(Grow(a, p, lo, hi, true, false))
    decreases hi - lo
  {
    if lo < hi {
      GrowPlain(a, p, lo, hi - 1);
    }
  }

  lemma ServedPlain(s: Snap, op: Op, out: nat, t: Snap)
    requires Served(s, op, out, t) && Plain(Abs(s.m))
    ensures Plain(Abs(t.m))
  {
    hide InOrder, Inv, Pages, ForkNeeds, CanGrow, RoomToWrite, Lacks, IsAt, Grew, Stripped, Abs, Fork, Grow, Out;
    var w := Seen(s);
    if Possible(w, op) {
      match op
      case DoFork(p, c) => ForkPlain(w.a, p, c, Pages(w.size[p]));
      case DoSbrk(p, n) =>
        if n >= 0 {
          PagesMonotone(w.size[p], w.size[p] + n);
          GrowPlain(w.a, p, Pages(w.size[p]), Pages(w.size[p] + n));
        }
      case _ =>
    }
  }

  lemma {:induction false} AllPlain(ss: seq<Snap>, ops: seq<Op>, outs: seq<nat>)
    requires Traced(ss, ops, outs) && ss[0].m.pt == map[]
    ensures Plain(Abs(ss[|ops|].m))
    decreases |ops|
  {
    hide Served;
    if ops != [] {
      var k := |ops| - 1;
      TracedFront(ss, ops, outs);
      AllPlain(ss[..k + 1], ops[..k], outs[..k]);
      ServedPlain(ss[k], ops[k], outs[k], ss[k + 1]);
    }
  }

  lemma ToldNone(s: Snap, x: nat)
    requires s.m.pt == map[] && s.size == map[]
    ensures ToldAll(s, [], [], x)
  {
  }

  lemma TracedFront(ss: seq<Snap>, ops: seq<Op>, outs: seq<nat>)
    requires Traced(ss, ops, outs) && ops != []
    ensures var k := |ops| - 1;
            Traced(ss[..k + 1], ops[..k], outs[..k]) && Served(ss[k], ops[k], outs[k], ss[k + 1])
  {
    hide Served;
    var k := |ops| - 1;
    var us, os, vs := ss[..k + 1], ops[..k], outs[..k];
    forall i | 0 <= i < k
      ensures Served(us[i], os[i], vs[i], us[i + 1])
    {
      assert Served(ss[i], ops[i], outs[i], ss[i + 1]);
    }
  }

  /** A machine from boot, and any requests. */
  method Life(nframes: nat, ops: seq<Op>) returns (vm: Machine, outs: seq<nat>)
    ensures fresh(vm) && vm.Good() && |outs| == |ops|
    ensures forall p: nat, x: nat :: Found(vm.A(), p, x) == ByteAt(ops, outs, p, x)
    ensures forall p: nat :: SizeOf(ops, outs, p) == if p in vm.size then Some(vm.size[p]) else None
    ensures Plain(vm.A())
  {
    hide Traced, Inv, Abs, Plain, ByteAt, SizeOf, Found, Accounts, Shaped, Covered, Within;
    vm := new Machine(nframes);
    ghost var ss;
    outs, ss := Run(vm, ops);
    TracedSize(ss, ops, outs);
    AllPlain(ss, ops, outs);
    forall p: nat, x: nat
      ensures Found(vm.A(), p, x) == ByteAt(ops, outs, p, x)
      ensures SizeOf(ops, outs, p) == if p in vm.size then Some(vm.size[p]) else None
    {
      AllTold(ss, ops, outs, x);
      assert Told(ss[|ops|], ops, outs, p, x);
    }
    forall p: nat
      ensures SizeOf(ops, outs, p) == if p in vm.size then Some(vm.size[p]) else None
    {
      AllTold(ss, ops, outs, 0);
      assert Told(ss[|ops|], ops, outs, p, 0);
    }
  }

  lemma TracedSize(ss: seq<Snap>, ops: seq<Op>, outs: seq<nat>)
    requires Traced(ss, ops, outs)
    ensures |ss| == |ops| + 1
  {
  }

  /** What is copied out can be copied in again. */
  method CopyBack(vm: Machine, p: nat, va: nat, src: seq<Byte>) returns (ok: bool, dst: seq<Byte>)
    requires vm.Good() && p in vm.size
    modifies vm
    ensures vm.Good() && (ok ==> dst == src)
  {
    hide Inv, Abs, IsAt, Out, OnlyWritten, OnlyTouched, RoomToRead, RoomToWrite, Accounts, Shaped, Covered, Within, Grew;
    var done;
    dst := [];
    ok, done := vm.Copyout(p, va, src);
    if ok {
      ghost var a := vm.A();
      assert src[..done] == src;
      ok, dst := vm.Copyin(p, va, |src|);
      if ok {
        SameRead(a, vm.A(), p, va, src, dst);
      }
    }
  }

  lemma SameRead(a: Eager, b: Eager, p: nat, va: nat, src: seq<Byte>, dst: seq<Byte>)
    requires IsAt(a, p, va, src) && OnlyTouched(a, b, p) && IsAt(b, p, va, dst) && |dst| == |src|
    ensures dst == src
  {
    forall i | 0 <= i < |src|
      ensures dst[i] == src[i]
    {
      assert HasByte(a, p, va + i, src[i]) && HasByte(b, p, va + i, dst[i]);
    }
  }
}
