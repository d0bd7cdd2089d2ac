/** malloc, free and morecore. */
module Heap {
  import opened Common
  import opened HeapSpec

  const MINUNITS := 4096
  /** Sizes fit an unsigned int below this address. */
  const LIMIT := 0x10_0000_0000
  const INT_MAX := 0x7fff_ffff

  /** Headers for a request: enough for the bytes, and one for the header itself. */
  function Units(nbytes: nat): (n: nat)
    ensures UNIT * (n - 1) >= nbytes && n >= 1 && UNIT * (n - 2) < nbytes
  {
    (nbytes + UNIT - 1) / UNIT + 1
  }

  /** What morecore asks sbrk for. */
  function Request(nu: nat): (n: nat)
    ensures n >= nu && n >= 4096 && (n == nu || n == 4096)
  {
    if nu < MINUNITS then MINUNITS else nu
  }

  /** A 64-bit value passed where an int is expected. */
  function ToInt(n: nat): (r: int) {
    var m := n % 0x1_0000_0000;
    if m > INT_MAX then m - 0x1_0000_0000 else m
  }

  /** sbrk is asked for the intended number of bytes exactly when that number fits an int: for every
      unsigned request, when it is at most 0x7fffffe0 bytes. */
  lemma SbrkArgument(nbytes: nat)
    requires nbytes < 0x1_0000_0000
    ensures ToInt(UNIT * Request(Units(nbytes))) == UNIT * Request(Units(nbytes)) <==> nbytes <= 0x7fff_ffe0
    ensures UNIT * Request(Units(nbytes)) <= INT_MAX <==> nbytes <= 0x7fff_ffe0
  {
  }

  /** Beyond that the argument wraps: here sbrk would be asked for nothing at all. */
  lemma SbrkWraps()
    ensures ToInt(UNIT * Request(Units(0xffff_fff0))) == 0 < UNIT * Request(Units(0xffff_fff0))
  {
  }

  /** What sbrk hears is never more than what was meant. */
  lemma SbrkAtMost(n: nat)
    ensures ToInt(n) <= n
  {
  }

  /** Every block, free or in use, ends by end. */
  ghost predicate Backed(h: H, end: int)
    requires InMem(h)
  {
    && (forall i :: 1 <= i < |h.order| ==> End(h, i) <= end)
    && forall k :: 0 <= k < |h.live| ==> h.live[k].addr + UNIT * h.live[k].units <= end
  }

  class Allocator {
    const base: nat
    var mem: map<nat, Header>
    var freep: nat
    ghost var order: seq<nat>
    ghost var live: seq<Blk>
    /** The end of what malloc takes to be its memory, and the end of the memory there is: sbrk adds to the
        old end what it was asked for, as an int. */
    ghost var brk: nat
    ghost var end: int
    /** Units obtained from sbrk. */
    ghost var got: nat

    ghost function S(): (h: H)
      reads this
    {
      H(base, mem, order, live, brk)
    }

    /** Before the first malloc there is no list. */
    ghost predicate Valid()
      reads this
    {
      && base > 0 && brk <= LIMIT
      && if freep == 0 then order == [] && live == [] && got == 0 && base in mem
         else Inv(S()) && freep in order && Total(S()) == got
    }

    constructor (base: nat)
      requires base > 0
      ensures Valid() && this.base == base && freep == 0 && brk == 0 && Backed(S(), end)
    {
      this.base, freep, mem := base, 0, map[base := Header(0, 0)];
      order, live, brk, end, got := [], [], 0, 0, 0;
    }

    /** free's search: the block that bp has to follow, somewhere on the cycle. */
    method FindBefore(bp: nat) returns (p: nat, ghost i: nat)
      requires freep in order && Cycle(S()) && base < bp && bp !in order
      ensures Place(S(), bp, i) && p == order[i]
    {
      p := freep;
      i :| 0 <= i < |order| && order[i] == freep;
      ghost var t := FindPlace(S(), bp);
      while !(bp > p && bp < mem[p].ptr)
        invariant 0 <= i < |order| && p == order[i]
        decreases if i <= t then t - i else |order| - i + t
      {
        Neighbours(S(), i, t, bp);
        if p >= mem[p].ptr && (bp > p || bp < mem[p].ptr) {
          break;
        }
        p := mem[p].ptr;
        i := if i + 1 < |order| then i + 1 else 0;
      }
      Neighbours(S(), i, t, bp);
    }

    /** free's rewriting of the headers bp and p, p being the block before bp. */
    method Coalesce(p: nat, bp: nat)
      requires p in mem && bp in mem && mem[p].ptr in mem && p != bp && mem[p].ptr != bp
      modifies this`mem
      ensures mem == old(mem)[bp := Released(old(mem), p, bp).0][p := Released(old(mem), p, bp).1]
    {
      if bp + UNIT * mem[bp].size == mem[p].ptr {
        var next := mem[p].ptr;
        mem := mem[bp := mem[bp].(size := mem[bp].size + mem[next].size)];
        mem := mem[bp := mem[bp].(ptr := mem[next].ptr)];
      } else {
        mem := mem[bp := mem[bp].(ptr := mem[p].ptr)];
      }
      if p + UNIT * mem[p].size == bp {
        mem := mem[p := mem[p].(size := mem[p].size + mem[bp].size)];
        mem := mem[p := mem[p].(ptr := mem[bp].ptr)];
      } else {
        mem := mem[p := mem[p].(ptr := bp)];
      }
    }

    /** The body of free for the header bp of a block that is not in use. */
    method Release(bp: nat)
      requires freep in order && Inv(S()) && bp in mem && Loose(S(), Blk(bp, mem[bp].size))
      modifies this`mem, this`freep, this`order
      ensures Inv(S()) && freep in order && Total(S()) == old(Total(S())) + old(mem[bp].size)
      ensures Covered(S(), Blk(bp, old(mem[bp].size)))
      ensures old(Backed(S(), end)) && bp + UNIT * old(mem[bp].size) <= end ==> Backed(S(), end)
    {
      hide Cycle, Lives, Loose, OffList, Covered, Released, FreeAt, Total, Backed;
      ghost var h, b := S(), Blk(bp, mem[bp].size);
      LooseUnused(h, b);
      CycleInMem(h);
      LooseAbove(h, b);
      var p;
      ghost var i;
      p, i := FindBefore(bp);
      FreeAtKeeps(h, b, i);
      PlaceNode(h, bp, i);
      ReleasedMem(h, b, i);
      Coalesce(p, bp);
      freep := p;
      order := FreeAt(h, b, i).order;
      assert S() == FreeAt(h, b, i);
      if Backed(h, end) && bp + UNIT * b.units <= end {
        FreeAtBacked(h, b, i, end);
      }
    }

    /** Gives a block back. It must be one that malloc returned and that is not free yet. */
    method Free(ap: nat, ghost k: nat)
      requires Valid() && k < |live| && ap == live[k].addr + UNIT
      modifies this`mem, this`freep, this`order, this`live
      ensures Valid() && live == old(live)[..k] + old(live)[k + 1..] && Covered(S(), old(live)[k])
      ensures old(Backed(S(), end)) ==> Backed(S(), end)
    {
      hide Cycle, Lives, OffList, Covered, Total, Backed;
      var bp := ap - UNIT;
      InMemory();
      DropLive(S(), k);
      if Backed(S(), end) {
        DropBacked(S(), k, end);
      }
      live := live[..k] + live[k + 1..];
      Release(bp);
      FreepNotNull(S(), freep);
    }

    /** Puts Request(nu) units at sbrk's answer on the free list, unless sbrk fails. They are all there
        exactly when their number of bytes fits an int. */
    method Morecore(nu: nat, core: Option<nat>) returns (p: nat)
      requires Valid() && freep != 0 && nu > 0
      requires core.Some? ==> core.value >= brk && core.value >= base + UNIT && core.value + UNIT * Request(nu) <= LIMIT
      modifies this`mem, this`freep, this`order, this`brk, this`end, this`got
      ensures Valid() && freep != 0 && (p == 0 <==> core.None?)
      ensures core.None? ==> unchanged(this)
      ensures core.Some? ==> p == freep && brk == core.value + UNIT * Request(nu) && got == old(got) + Request(nu)
      ensures core.Some? ==> Covered(S(), Blk(core.value, Request(nu)))
      ensures core.Some? ==> end == core.value + ToInt(UNIT * Request(nu))
      ensures core.Some? ==> (Backed(S(), end) <==> UNIT * Request(nu) <= INT_MAX)
    {
      hide Cycle, Lives, OffList, Covered, Total, Loose, Backed;
      if core.None? {
        return 0;
      }
      var n := if nu < MINUNITS then MINUNITS else nu;
      var hp := core.value;
      GrowKeeps(S(), hp, n);
      ghost var h := Grow(S(), hp, n);
      mem := mem[hp := if hp in mem then mem[hp].(size := n) else Header(0, n)];
      brk, end, got := hp + UNIT * n, hp + ToInt(UNIT * n), got + n;
      assert S() == h;
      Release(hp);
      FreepNotNull(S(), freep);
      BackedWhole(S(), Blk(hp, n), end);
      return freep;
    }

    /** malloc's success: p, the block behind prevp, supplies n units. */
    method TakeFrom(prevp: nat, p: nat, n: nat, ghost i: nat) returns (r: nat)
      requires Valid() && freep != 0 && i + 1 < |order| && prevp == order[i] && p == order[i + 1]
      requires p in mem && mem[p].size >= n > 0
      modifies this`mem, this`freep, this`order, this`live
      ensures Valid() && freep != 0 && r > UNIT && live == old(live) + [Blk(r - UNIT, n)]
      ensures |old(order)| <= |order| + 1 && (Backed(S(), end) <==> old(Backed(S(), end)))
      ensures freep == prevp && r - UNIT + UNIT * n == p + UNIT * old(mem)[p].size
    {
      hide Cycle, Lives, OffList, Total, Backed;
      ghost var h := S();
      CycleInMem(h);
      TakeKeeps(h, i, n);
      TakeNodes(h, i, n);
      TakeBacked(h, i, n, end);
      var q := p;
      if mem[p].size == n {
        mem := mem[prevp := mem[prevp].(ptr := mem[p].ptr)];
      } else {
        mem := mem[p := mem[p].(size := mem[p].size - n)];
        q := p + UNIT * mem[p].size;
        mem := mem[q := if q in mem then mem[q].(size := n) else Header(0, n)];
      }
      freep := prevp;
      order, live := Take(h, i, n).order, live + [Blk(q, n)];
      assert S() == Take(h, i, n);
      FreepNotNull(S(), freep);
      return q + UNIT;
    }

    /** The list with nothing on it, before the first request. */
    method Start()
      requires Valid() && freep == 0
      modifies this`mem, this`freep, this`order
      ensures Valid() && freep == base && live == [] && got == 0
      ensures order == [base] && base in mem && mem[base].size == 0
    {
      mem := mem[base := mem[base].(ptr := base)];
      mem := mem[base := mem[base].(size := 0)];
      freep := base;
      order := [base];
      assert [base][1..] == [];
      assert FreeUnits(mem, order) == 0;
    }

    lemma InMemory()
      requires Valid()
      ensures InMem(S())
    {
    }

    /** A block of at least nbytes bytes behind its header; 0 exactly when there is no such block and sbrk
        fails. sbrk is asked exactly when there is no such block. Memory that sbrk gives is really there
        exactly when nbytes is at most 0x7fffffe0. The search takes at most one step per block of the list
        before it asks and, if it gets memory, one per block of the longer list after. */
    method Malloc(nbytes: nat, core: Option<nat>) returns (r: nat, asked: bool, ghost steps: nat)
      requires Valid() && nbytes < 0x1_0000_0000
      requires core.Some? ==> core.value >= brk && core.value >= base + UNIT
      requires core.Some? ==> core.value + UNIT * Request(Units(nbytes)) <= LIMIT
      modifies this
      ensures Valid() && freep != 0 && asked == old(AllSmall(S(), Units(nbytes)))
      ensures r == 0 <==> core.None? && asked
      ensures r == 0 ==> live == old(live) && AllSmall(S(), Units(nbytes))
      ensures r != 0 ==> r > UNIT && live == old(live) + [Blk(r - UNIT, Units(nbytes))]
      ensures !asked ==> FirstFit(old(S()), old(freep), Units(nbytes), r - UNIT, freep)
      ensures core.Some? && asked ==>
        got == old(got) + Request(Units(nbytes)) && brk == core.value + UNIT * Request(Units(nbytes))
      ensures !(core.Some? && asked) ==> got == old(got) && brk == old(brk)
      ensures core.Some? && asked ==>
        end == core.value + ToInt(UNIT * Request(Units(nbytes))) && (Backed(S(), end) <==> nbytes <= 0x7fff_ffe0)
      ensures !(core.Some? && asked) ==> end == old(end)
      ensures !(core.Some? && asked) && old(Backed(S(), end)) ==> Backed(S(), end)
      ensures steps <= (if old(order) == [] then 1 else old(|order|)) + (if got == old(got) then 0 else |order| + 1)
    {
      hide Cycle, Lives, OffList, Total, Covered, AllSmall, Lap, Cyc, Backed, ToInt, FirstFit, Request;
      var nunits := (nbytes + UNIT - 1) / UNIT + 1;
      InMemory();
      ghost var small := AllSmall(S(), nunits);
      if freep == 0 {
        Start();
        assert small && AllSmall(S(), nunits) by {
          NothingFree(old(S()), S(), nunits);
        }
        assert Backed(S(), end) by {
          NothingBacked(S(), end);
        }
      }
      CycleInMem(S());
      ghost var lap := |order|;
      steps := 0;
      ghost var kf: nat := FirstStep(S(), freep, nunits);
      ghost var j: nat, grown := 1, false;
      asked := false;
      var prevp := freep;
      var p := mem[prevp].ptr;
      while true
        invariant Valid() && freep != 0 && InMem(S()) && kf < |order| && order[kf] == freep
        invariant 1 <= j <= |order| && Lap(S(), kf, j, nunits)
        invariant p == order[Cyc(|order|, kf, j)] && prevp == order[Cyc(|order|, kf, j - 1)]
        invariant asked == grown && live == old(live) && (grown ==> core.Some? && !AllSmall(S(), nunits) && small)
        invariant !grown ==> (small <==> AllSmall(S(), nunits)) && lap == |order| && steps == j - 1
        invariant grown ==> steps <= lap + j - 1
        invariant !grown && old(freep) != 0 ==> S() == old(S()) && freep == old(freep)
        invariant old(freep) == 0 ==> small
        invariant got == old(got) + (if grown then Request(nunits) else 0)
        invariant brk == if grown then core.value + UNIT * Request(nunits) else old(brk)
        invariant !grown ==> end == old(end) && (old(Backed(S(), end)) ==> Backed(S(), end))
        invariant grown ==> end == core.value + ToInt(UNIT * Request(nunits)) && (Backed(S(), end) <==> nbytes <= 0x7fff_ffe0)
        decreases !grown, |order| - j
      {
        CycleInMem(S());
        LapStep(S(), kf, j, nunits);
        steps := steps + 1;
        if mem[p].size >= nunits {
          BigEnough(S(), p, nunits);
          ghost var h, first := S(), freep;
          r := TakeFrom(prevp, p, nunits, Cyc(|order|, kf, j - 1));
          FitsHere(h, first, nunits, r - UNIT, freep, kf, j);
          return;
        }
        if p == freep {
          asked := true;
          p := Morecore(nunits, core);
          if p == 0 {
            r := 0;
            return;
          }
          CycleInMem(S());
          SbrkArgument(nbytes);
          CoveredBig(S(), Blk(core.value, Request(nunits)), nunits);
          kf := FirstStep(S(), freep, nunits);
          grown, j := true, 0;
        }
        prevp := p;
        p := mem[p].ptr;
        j := j + 1;
      }
    }
  }

  /** A program's requests: nbytes from malloc, with sbrk's answer should it be asked (gap bytes of other
      uses of sbrk lie in between), or giving back the k-th block it holds. */
  datatype Op = Get(nbytes: nat, ok: bool, gap: nat) | Put(k: nat)

  /** The end of the memory sbrk has given out, other uses included, after some requests. */
  function Top(base: nat, ops: seq<Op>): (top: nat) {
    if ops == [] then base + UNIT
    else
      var top, op := Top(base, ops[..|ops| - 1]), ops[|ops| - 1];
      if op.Get? && Grants(top, op) then top + op.gap + UNIT * Request(Units(op.nbytes)) else top
  }

  /** sbrk's answer to a request is memory. */
  predicate Grants(top: nat, op: Op) {
    op.Get? && op.ok && top + op.gap + UNIT * Request(Units(op.nbytes)) <= LIMIT
  }

  /** The blocks a program holds, from its requests and their answers alone: those it was given, in
      order, each as large as its own request, without those it gave back. */
  function Held(ops: seq<Op>, rs: seq<nat>): (held: seq<Blk>)
    requires |ops| == |rs|
  {
    if ops == [] then []
    else var last := |ops| - 1; HeldNext(Held(ops[..last], rs[..last]), ops[last], rs[last])
  }

  function HeldNext(held: seq<Blk>, op: Op, r: nat): (held': seq<Blk>) {
    match op
    case Get(nbytes, _, _) => if r > UNIT then held + [Blk(r - UNIT, Units(nbytes))] else held
    case Put(k) => if k < |held| then held[..k] + held[k + 1..] else held
  }

  /** A heap between requests: none yet, or one whose blocks are where they should be. */
  ghost predicate Sound(h: H) {
    if h.order == [] then h.live == [] else Inv(h)
  }

  /** What a request does to a heap, given sbrk's answer. */
  ghost predicate Answers(h: H, op: Op, granted: bool, r: nat, h': H) {
    && Sound(h) && Sound(h')
    && match op
       case Get(nbytes, _, _) =>
         && (r == 0 <==> !granted && AllSmall(h, Units(nbytes)))
         && (r == 0 ==> h'.live == h.live && AllSmall(h', Units(nbytes)))
         && (r != 0 ==> r > UNIT && h'.live == h.live + [Blk(r - UNIT, Units(nbytes))])
       case Put(k) =>
         if k < |h.live| then
           && r == h.live[k].addr + UNIT && h'.live == h.live[..k] + h.live[k + 1..] && Covered(h', h.live[k])
         else r == 0 && h' == h
  }

  /** The heaps a run goes through, and its answers. */
  ghost predicate Follows(base: nat, ops: seq<Op>, rs: seq<nat>, hs: seq<H>) {
    && |rs| == |ops| && |hs| == |ops| + 1 && hs[0].order == []
    && forall o :: 0 <= o < |ops| ==> Answers(hs[o], ops[o], Grants(Top(base, ops[..o]), ops[o]), rs[o], hs[o + 1])
  }

  lemma FollowsMore(base: nat, ops: seq<Op>, rs: seq<nat>, hs: seq<H>, op: Op, r: nat, h: H)
    requires Follows(base, ops, rs, hs) && Answers(hs[|ops|], op, Grants(Top(base, ops), op), r, h)
    ensures Follows(base, ops + [op], rs + [r], hs + [h])
  {
    hide Answers, Grants, Top;
    var ops', rs', hs' := ops + [op], rs + [r], hs + [h];
    forall o | 0 <= o < |ops'|
      ensures Answers(hs'[o], ops'[o], Grants(Top(base, ops'[..o]), ops'[o]), rs'[o], hs'[o + 1])
    {
      assert ops'[..o] == ops[..o];
      assert ops[..|ops|] == ops;
    }
  }

  lemma HeldMore(ops: seq<Op>, rs: seq<nat>, h: H, op: Op, granted: bool, r: nat, h': H)
    requires |ops| == |rs| && h.live == Held(ops, rs) && Answers(h, op, granted, r, h')
    ensures h'.live == Held(ops + [op], rs + [r])
  {
    hide Sound, AllSmall, Covered, Held;
    HeldSnoc(ops, rs, op, r);
  }

  lemma HeldSnoc(ops: seq<Op>, rs: seq<nat>, op: Op, r: nat)
    requires |ops| == |rs|
    ensures Held(ops + [op], rs + [r]) == HeldNext(Held(ops, rs), op, r)
  {
    hide HeldNext;
    assert (ops + [op])[..|ops|] == ops && (rs + [r])[..|rs|] == rs;
  }

  lemma TopMore(base: nat, ops: seq<Op>, op: Op)
    ensures Top(base, ops + [op]) ==
      if Grants(Top(base, ops), op) then Top(base, ops) + op.gap + UNIT * Request(Units(op.nbytes)) else Top(base, ops)
  {
    assert (ops + [op])[..|ops|] == ops;
  }

  /** The request is one that sbrk is asked for, grants, and hears as a smaller number. */
  ghost predicate Overruns(h: H, op: Op, granted: bool) {
    InMem(h) && op.Get? && granted && op.nbytes > 0x7fff_ffe0 && AllSmall(h, Units(op.nbytes))
  }

  ghost predicate OverrunsAt(base: nat, ops: seq<Op>, hs: seq<H>, o: nat)
    requires o < |ops| && o < |hs|
  {
    Overruns(hs[o], ops[o], Grants(Top(base, ops[..o]), ops[o]))
  }

  lemma OverrunsSame(base: nat, ops: seq<Op>, hs: seq<H>, hs': seq<H>)
    requires |hs| <= |ops| && |hs'| == |hs| + 1 && hs <= hs'
    ensures forall o :: 0 <= o < |hs| ==> (OverrunsAt(base, ops, hs', o) <==> OverrunsAt(base, ops, hs, o))
  {
    hide Overruns;
    assert forall o :: 0 <= o < |hs| ==> hs'[o] == hs[o];
  }

  /** Any sequence of requests, with each one's answer, up to the first one that overruns, if any. The
      blocks in use are those the requests and answers say, and malloc answers 0 exactly when sbrk fails
      and no free block is large enough. Every block lies in memory that is there unless the last request
      overran. */
  method Run(base: nat, ops: seq<Op>) returns (a: Allocator, rs: seq<nat>, ghost hs: seq<H>)
    requires base > 0 && forall o :: 0 <= o < |ops| && ops[o].Get? ==> ops[o].nbytes < 0x1_0000_0000
    ensures fresh(a) && a.Valid() && a.base == base && |rs| <= |ops| && a.live == Held(ops[..|rs|], rs)
    ensures Follows(base, ops[..|rs|], rs, hs) && hs[|rs|] == a.S()
    ensures forall o :: 0 <= o < |rs| - 1 ==> !OverrunsAt(base, ops, hs, o)
    ensures |rs| < |ops| ==> |rs| > 0 && OverrunsAt(base, ops, hs, |rs| - 1)
    ensures InMem(a.S()) && (Backed(a.S(), a.end) <==> |rs| == 0 || !OverrunsAt(base, ops, hs, |rs| - 1))
  {
    hide Answers, Grants, Inv, Top, Held, Total, Backed, Overruns;
    a := new Allocator(base);
    rs, hs := [], [a.S()];
    var top, held := base + UNIT, [];
    assert Top(base, []) == top && Held([], []) == [] by {
      Nothing(base);
    }
    for o := 0 to |ops|
      invariant fresh(a) && a.Valid() && a.base == base && a.brk <= top && base + UNIT <= top == Top(base, ops[..o])
      invariant |rs| == o && a.live == Held(ops[..o], rs)
      invariant |held| == |a.live| && forall k :: 0 <= k < |held| ==> held[k] == a.live[k].addr + UNIT
      invariant Follows(base, ops[..o], rs, hs) && hs[o] == a.S() && InMem(a.S()) && Backed(a.S(), a.end)
      invariant forall l :: 0 <= l < o ==> !OverrunsAt(base, ops, hs, l)
    {
      assert ops[..o + 1] == ops[..o] + [ops[o]];
      ghost var h := a.S();
      var r, over, top', held' := Do(a, ops[o], top, held);
      TopMore(base, ops[..o], ops[o]);
      HeldMore(ops[..o], rs, h, ops[o], Grants(top, ops[o]), r, a.S());
      FollowsMore(base, ops[..o], rs, hs, ops[o], r, a.S());
      assert over == OverrunsAt(base, ops, hs, o);
      OverrunsSame(base, ops, hs, hs + [a.S()]);
      top, held, rs, hs := top', held', rs + [r], hs + [a.S()];
      if over {
        return;
      }
    }
    assert ops[..|ops|] == ops;
  }

  /** A request of 4294967280 bytes in a fresh heap: malloc gives a block of which nothing is there. */
  method Nowhere(base: nat, core: nat) returns (a: Allocator, r: nat)
    requires base > 0 && base + UNIT <= core <= 0xf_0000_0000
    ensures fresh(a) && a.Valid() && r > UNIT && a.end == core && a.live == [Blk(r - UNIT, Units(0xffff_fff0))]
    ensures !Backed(a.S(), a.end)
  {
    a := new Allocator(base);
    assert a.S().order == [];
    var asked;
    ghost var steps;
    r, asked, steps := a.Malloc(0xffff_fff0, Some(core));
    SbrkWraps();
  }

  lemma Nothing(base: nat)
    ensures Top(base, []) == base + UNIT && Held([], []) == []
  {
  }

  /** One request. */
  method Do(a: Allocator, op: Op, top: nat, held: seq<nat>)
    returns (r: nat, over: bool, top': nat, held': seq<nat>)
    requires a.Valid() && a.brk <= top && a.base + UNIT <= top && (op.Get? ==> op.nbytes < 0x1_0000_0000)
    requires |held| == |a.live| && forall k :: 0 <= k < |held| ==> held[k] == a.live[k].addr + UNIT
    modifies a
    ensures a.Valid() && a.brk <= top' && a.base + UNIT <= top'
    ensures top' == if Grants(top, op) then top + op.gap + UNIT * Request(Units(op.nbytes)) else top
    ensures |held'| == |a.live| && forall k :: 0 <= k < |held'| ==> held'[k] == a.live[k].addr + UNIT
    ensures Answers(old(a.S()), op, Grants(top, op), r, a.S()) && InMem(a.S())
    ensures over == Overruns(old(a.S()), op, Grants(top, op))
    ensures old(InMem(a.S()) && Backed(a.S(), a.end)) ==> (Backed(a.S(), a.end) <==> !over)
  {
    hide Inv, AllSmall, Covered, Total, Backed;
    a.InMemory();
    top', held', r, over := top, held, 0, false;
    ghost var h := a.S();
    match op
    case Get(nbytes, ok, gap) =>
      var core := top + gap;
      var given := Grants(top, op);
      var asked;
      ghost var steps;
      r, asked, steps := a.Malloc(nbytes, if given then Some(core) else None);
      a.InMemory();
      over := given && asked && nbytes > 0x7fff_ffe0;
      if r != 0 {
        held' := held + [r];
      }
      if given {
        top' := core + UNIT * Request(Units(nbytes));
      }
    case Put(k) =>
      if k < |held| {
        r := held[k];
        a.Free(held[k], k);
        held' := held[..k] + held[k + 1..];
      }
      a.InMemory();
  }

  /** Free units and units in use are all that sbrk gave. */
  lemma Accounts(a: Allocator)
    requires a.Valid()
    ensures InMem(a.S()) && FreeUnits(a.mem, a.order) + LiveUnits(a.live) == a.got
  {
  }

  /** Blocks in use do not overlap. */
  lemma LivesApart(a: Allocator, k: nat, l: nat)
    requires a.Valid() && k < |a.live| && l < |a.live| && k != l
    ensures Apart(a.live[k].addr, a.live[k].units, a.live[l].addr, a.live[l].units)
  {
  }

  /** A block in use overlaps no free block. */
  lemma LiveOffList(a: Allocator, k: nat, i: nat)
    requires a.Valid() && k < |a.live| && 1 <= i < |a.order|
    ensures InMem(a.S()) && Apart(a.live[k].addr, a.live[k].units, a.order[i], Size(a.S(), i))
  {
    assert OffList(a.S(), a.live[k]);
  }

  /** Free blocks are linked in address order and do not touch. */
  lemma FreeApart(a: Allocator, i: nat)
    requires a.Valid() && 1 <= i < |a.order| - 1
    ensures InMem(a.S()) && a.order[i] + UNIT * Size(a.S(), i) < a.order[i + 1] && a.mem[a.order[i]].ptr == a.order[i + 1]
  {
    var h := a.S();
    assert NodeOk(h, i) && Before(h, i, i + 1);
  }

  /** No free block has n units. */
  ghost predicate AllSmall(h: H, n: nat)
    requires InMem(h)
  {
    forall i :: 0 <= i < |h.order| ==> Size(h, i) < n
  }

  /** j links from position k, on a cycle of n. */
  function Cyc(n: nat, k: nat, j: nat): (r: nat)
    requires k < n && j <= n
    ensures r < n
  {
    if k + j < n then k + j else k + j - n
  }

  /** a is where n units are cut off the end of the first free block behind freep, going round, that has so
      many, and the block before that one is where the next search begins. */
  ghost predicate FirstFit(h: H, freep: nat, n: nat, a: int, next: nat)
    requires InMem(h)
  {
    exists k, j :: FitsAt(h, freep, n, a, next, k, j)
  }

  ghost predicate FitsAt(h: H, freep: nat, n: nat, a: int, next: nat, k: int, j: int)
    requires InMem(h)
  {
    && 0 <= k < |h.order| && 1 <= j <= |h.order| && h.order[k] == freep && Lap(h, k, j, n)
    && h.order[Cyc(|h.order|, k, j - 1)] == next
    && var x := Cyc(|h.order|, k, j); Size(h, x) >= n && a + UNIT * n == End(h, x)
  }

  /** The blocks passed in j - 1 links from position k are too small. */
  ghost predicate Lap(h: H, k: nat, j: nat, n: nat)
    requires InMem(h) && k < |h.order| && j <= |h.order|
  {
    forall t :: 1 <= t < j ==> Size(h, Cyc(|h.order|, k, t)) < n
  }

  lemma FitsHere(h: H, freep: nat, n: nat, a: int, next: nat, k: nat, j: nat)
    requires InMem(h) && k < |h.order| && 1 <= j <= |h.order| && h.order[k] == freep && Lap(h, k, j, n)
    requires Size(h, Cyc(|h.order|, k, j)) >= n && a + UNIT * n == End(h, Cyc(|h.order|, k, j))
    requires h.order[Cyc(|h.order|, k, j - 1)] == next
    ensures FirstFit(h, freep, n, a, next)
  {
    assert FitsAt(h, freep, n, a, next, k, j);
  }

  lemma FirstStep(h: H, freep: nat, n: nat) returns (k: nat)
    requires Cycle(h) && freep in h.order
    ensures k < |h.order| && h.order[k] == freep && freep in h.mem && Lap(h, k, 1, n)
    ensures h.mem[freep].ptr == h.order[Cyc(|h.order|, k, 1)] && freep == h.order[Cyc(|h.order|, k, 0)]
  {
    k :| 0 <= k < |h.order| && h.order[k] == freep;
    assert NodeOk(h, k);
  }

  /** From position j of a lap: a block that fits is not base; otherwise the lap goes on, and ends at freep
      only when every block is too small. */
  lemma LapStep(h: H, k: nat, j: nat, n: nat)
    requires Cycle(h) && k < |h.order| && 1 <= j <= |h.order| && Lap(h, k, j, n) && n > 0
    ensures var x := Cyc(|h.order|, k, j);
            && h.order[x] in h.mem
            && (h.mem[h.order[x]].size >= n ==> x == Cyc(|h.order|, k, j - 1) + 1)
            && (h.mem[h.order[x]].size < n && h.order[x] == h.order[k] ==> AllSmall(h, n))
            && (h.mem[h.order[x]].size < n && h.order[x] != h.order[k] ==>
                  j < |h.order| && Lap(h, k, j + 1, n) && h.mem[h.order[x]].ptr == h.order[Cyc(|h.order|, k, j + 1)])
  {
    var x := Cyc(|h.order|, k, j);
    assert NodeOk(h, x);
    Distinct(h, x, k);
    if Size(h, x) < n && x == k {
      forall i | 0 <= i < |h.order|
        ensures Size(h, i) < n
      {
        var t := if i > k then i - k else i - k + |h.order|;
        assert i == Cyc(|h.order|, k, t);
      }
    }
  }

  lemma BigEnough(h: H, p: nat, n: nat)
    requires InMem(h) && p in h.order && h.mem[p].size >= n
    ensures !AllSmall(h, n)
  {
    var i :| 0 <= i < |h.order| && h.order[i] == p;
    assert Size(h, i) >= n;
  }

  lemma NothingFree(h: H, r: H, n: nat)
    requires h.order == [] && r.order == [r.base] && r.base in r.mem && r.mem[r.base].size == 0 && n > 0
    ensures AllSmall(h, n) && AllSmall(r, n)
  {
  }

  lemma CoveredBig(h: H, c: Blk, n: nat)
    requires InMem(h) && Covered(h, c) && c.units >= n
    ensures !AllSmall(h, n)
  {
    var j :| 1 <= j < |h.order| && h.order[j] <= c.addr && c.addr + UNIT * c.units <= End(h, j);
    assert Size(h, j) >= n;
  }

  lemma TakeNodes(h: H, i: nat, n: nat)
    requires Cycle(h) && i + 1 < |h.order| && Size(h, i + 1) >= n > 0
    ensures h.order[i] in h.mem && h.mem[h.order[i + 1]].ptr == Next(h.order, i + 1) && h.order[i + 1] >= h.base + UNIT
    ensures h.order[i] in Take(h, i, n).order
  {
    assert NodeOk(h, i + 1);
    assert Take(h, i, n).order[i] == h.order[i];
  }

  lemma FreepNotNull(h: H, p: nat)
    requires Inv(h) && h.base > 0 && p in h.order
    ensures p > 0
  {
    var i :| 0 <= i < |h.order| && h.order[i] == p;
    assert NodeOk(h, i);
  }

  lemma NothingBacked(h: H, end: int)
    requires InMem(h) && h.order == [h.base] && h.live == []
    ensures Backed(h, end)
  {
  }

  /** Blocks end by end exactly when the heap is well formed in the memory up to there. */
  lemma BackedInv(h: H, end: nat)
    requires Inv(h)
    ensures Backed(h, end) <==> Inv(h.(brk := end))
  {
    var r := h.(brk := end);
    assert forall i :: 0 <= i < |h.order| ==> (NodeOk(r, i) <==> NodeOk(h, i) && (i > 0 ==> End(h, i) <= end));
    assert forall i, j :: 0 <= i < j < |h.order| ==> (Before(r, i, j) <==> Before(h, i, j));
    assert forall k :: 0 <= k < |h.live| ==>
      (OffList(r, h.live[k]) <==> OffList(h, h.live[k]) && h.live[k].addr + UNIT * h.live[k].units <= end);
  }

  /** A heap that has grown by b ends where b does. */
  lemma BackedWhole(h: H, b: Blk, end: int)
    requires Inv(h) && h.brk == b.addr + UNIT * b.units && Covered(h, b) && end == b.addr + ToInt(UNIT * b.units)
    ensures Backed(h, end) <==> UNIT * b.units <= INT_MAX
  {
    SbrkAtMost(UNIT * b.units);
    if end == h.brk {
      BackedInv(h, h.brk);
    } else {
      var j :| 1 <= j < |h.order| && h.order[j] <= b.addr && b.addr + UNIT * b.units <= End(h, j);
      assert End(h, j) > end;
    }
  }

  lemma FreeAtBacked(h: H, b: Blk, i: nat, end: int)
    requires Inv(h) && Loose(h, b) && Place(h, b.addr, i) && Backed(h, end) && b.addr + UNIT * b.units <= end
    ensures (Upper(h, b, i) ==> i + 1 < |h.order|) && InMem(Absorb(h, b, i).0) && b.addr !in h.order
    ensures InMem(FreeAt(h, b, i)) && Backed(FreeAt(h, b, i), end)
  {
    hide Cycle, Lives, Backed, OffList, FreeAt, Absorb, Total, Covered;
    var r := h.(brk := end);
    CycleInMem(h);
    BackedInv(h, end);
    LooseIn(h, r, b);
    FreeAtKeeps(h, b, i);
    FreeAtKeeps(r, b, i);
    FreeAtBrk(h, b, i, end);
    CycleInMem(FreeAt(h, b, i));
    BackedInv(FreeAt(h, b, i), end);
  }

  lemma LooseIn(h: H, r: H, b: Blk)
    requires InMem(h) && Loose(h, b) && b.addr + UNIT * b.units <= r.brk && r == h.(brk := r.brk)
    ensures Loose(r, b)
  {
  }

  lemma FreeAtBrk(h: H, b: Blk, i: nat, end: nat)
    requires Cycle(h) && i < |h.order| && (Upper(h, b, i) ==> i + 1 < |h.order|)
    requires InMem(Absorb(h, b, i).0) && b.addr !in h.order
    requires var r := h.(brk := end); Cycle(r) && (Upper(r, b, i) ==> i + 1 < |h.order|) && InMem(Absorb(r, b, i).0)
    ensures FreeAt(h.(brk := end), b, i) == FreeAt(h, b, i).(brk := end)
  {
  }

  /** What malloc cuts off a block ends where the block ended. */
  lemma TakeBacked(h: H, i: nat, n: nat, end: int)
    requires Inv(h) && i + 1 < |h.order| && Size(h, i + 1) >= n > 0
    ensures InMem(Take(h, i, n)) && (Backed(Take(h, i, n), end) <==> Backed(h, end))
  {
    hide Cycle, Lives, OffList, Backed, Take;
    CycleInMem(h);
    TakeKeeps(h, i, n);
    var r := Take(h, i, n);
    assert InMem(r) by {
      CycleInMem(r);
    }
    if Size(h, i + 1) == n {
      TakeAllEnds(h, i, n);
    } else {
      TakeTailEnds(h, i, n);
    }
    TakeEnds(h, r, i, end);
  }

  /** Ends agree, but for the block that was cut. */
  ghost predicate Ends(h: H, r: H, i: nat)
    requires InMem(h) && InMem(r) && i + 1 < |h.order|
  {
    && |r.live| == |h.live| + 1 && r.live[..|h.live|] == h.live
    && r.live[|h.live|].addr + UNIT * r.live[|h.live|].units == End(h, i + 1)
    && (forall j :: 1 <= j < |r.order| ==> exists l :: 1 <= l < |h.order| && End(r, j) <= End(h, l))
    && forall l :: 1 <= l < |h.order| && l != i + 1 ==> exists j :: 1 <= j < |r.order| && End(r, j) == End(h, l)
  }

  lemma TakeEnds(h: H, r: H, i: nat, end: int)
    requires InMem(h) && InMem(r) && i + 1 < |h.order| && Ends(h, r, i)
    ensures Backed(r, end) <==> Backed(h, end)
  {
    if Backed(r, end) {
      forall k | 0 <= k < |h.live|
        ensures h.live[k].addr + UNIT * h.live[k].units <= end
      {
        assert r.live[k] == r.live[..|h.live|][k];
      }
      forall l | 1 <= l < |h.order|
        ensures End(h, l) <= end
      {
        if l != i + 1 {
          var j :| 1 <= j < |r.order| && End(r, j) == End(h, l);
        }
      }
    }
    if Backed(h, end) {
      forall k | 0 <= k < |r.live|
        ensures r.live[k].addr + UNIT * r.live[k].units <= end
      {
        assert k < |h.live| ==> r.live[k] == r.live[..|h.live|][k];
      }
    }
  }

  lemma TakeAllEnds(h: H, i: nat, n: nat)
    requires Inv(h) && i + 1 < |h.order| && Size(h, i + 1) == n > 0 && InMem(Take(h, i, n))
    ensures Ends(h, Take(h, i, n), i)
  {
    hide Lives, OffList, Cycle, Unlink;
    CycleInMem(h);
    var r := Take(h, i, n);
    UnlinkShape(h, i);
    forall j | 1 <= j < |r.order|
      ensures Skip(i, j) < |h.order| && End(r, j) == End(h, Skip(i, j))
    {
      UnlinkNode(h, i, j);
    }
    forall l | 1 <= l < |h.order| && l != i + 1
      ensures exists j :: 1 <= j < |r.order| && End(r, j) == End(h, l)
    {
      var j := if l <= i then l else l - 1;
      assert l == Skip(i, j);
      assert End(r, j) == End(h, l);
    }
  }

  lemma TakeTailEnds(h: H, i: nat, n: nat)
    requires Inv(h) && i + 1 < |h.order| && Size(h, i + 1) > n > 0 && InMem(Take(h, i, n))
    ensures Ends(h, Take(h, i, n), i)
  {
    hide Lives, OffList;
    var r := Take(h, i, n);
    var a := h.order[i + 1] + UNIT * (Size(h, i + 1) - n);
    forall j | 1 <= j < |r.order|
      ensures if j == i + 1 then End(r, j) <= End(h, j) else End(r, j) == End(h, j)
    {
      if j != i + 1 {
        assert NodeOk(h, j);
        OtherBlock(h, i + 1, j);
        assert h.order[j] != a;
      }
    }
  }

  lemma DropBacked(h: H, k: nat, end: int)
    requires InMem(h) && k < |h.live| && Backed(h, end)
    ensures Backed(h.(live := h.live[..k] + h.live[k + 1..]), end) && h.live[k].addr + UNIT * h.live[k].units <= end
  {
    var r := h.(live := h.live[..k] + h.live[k + 1..]);
    assert forall i :: 1 <= i < |h.order| ==> End(r, i) == End(h, i);
    assert forall l :: 0 <= l < |r.live| ==> r.live[l] == h.live[if l < k then l else l + 1];
  }

  lemma DropLive(h: H, k: nat)
    requires Inv(h) && k < |h.live|
    ensures var r := h.(live := h.live[..k] + h.live[k + 1..]);
            && Inv(r) && Loose(r, h.live[k]) && Total(r) + h.live[k].units == Total(h)
            && h.live[k].addr in h.mem && h.mem[h.live[k].addr].size == h.live[k].units
  {
    hide Cycle, OffList;
    var r := h.(live := h.live[..k] + h.live[k + 1..]);
    CycleSame(h, r);
    CycleInMem(h);
    DropOthers(h, r, k);
    OffSame(h, r, h.live[k]);
    LiveSplit(h.live[..k], h.live[k..]);
    assert h.live == h.live[..k] + h.live[k..] && h.live[k..][1..] == h.live[k + 1..];
    LiveSplit(h.live[..k], h.live[k + 1..]);
  }

  lemma DropOthers(h: H, r: H, k: nat)
    requires InMem(h) && Lives(h) && k < |h.live| && r == h.(live := h.live[..k] + h.live[k + 1..])
    ensures InMem(r) && Lives(r)
    ensures forall l :: 0 <= l < |r.live| ==> Apart(r.live[l].addr, r.live[l].units, h.live[k].addr, h.live[k].units)
  {
    hide OffList;
    forall l | 0 <= l < |r.live|
      ensures r.live[l] == h.live[if l < k then l else l + 1] && OffList(r, r.live[l])
      ensures Apart(r.live[l].addr, r.live[l].units, h.live[k].addr, h.live[k].units)
    {
      var x := if l < k then l else l + 1;
      assert r.live[l] == h.live[x];
      OffSame(h, r, h.live[x]);
    }
  }

  /** The headers bp and p after free, p being the block before bp. */
  function Released(mem: map<nat, Header>, p: nat, bp: nat): (r: (Header, Header))
    requires p in mem && bp in mem && mem[p].ptr in mem
  {
    var next := mem[p].ptr;
    var b := if bp + UNIT * mem[bp].size == next then Header(mem[next].ptr, mem[bp].size + mem[next].size)
             else Header(next, mem[bp].size);
    (b, if p + UNIT * mem[p].size == bp then Header(b.ptr, mem[p].size + b.size) else mem[p].(ptr := bp))
  }

  lemma ReleasedMem(h: H, b: Blk, i: nat)
    requires Inv(h) && Loose(h, b) && Place(h, b.addr, i)
    requires b.addr !in h.order && b.addr in h.mem && h.mem[b.addr].size == b.units
    requires h.order[i] in h.mem && h.mem[h.order[i]].ptr in h.mem
    ensures (Upper(h, b, i) ==> i + 1 < |h.order|) && InMem(Absorb(h, b, i).0)
    ensures var r := Released(h.mem, h.order[i], b.addr);
            FreeAt(h, b, i).mem == h.mem[b.addr := r.0][h.order[i] := r.1]
  {
    hide Cycle, Lives, Loose, OffList, Total, Covered;
    FreeAtKeeps(h, b, i);
    AbsorbKeeps(h, b, i);
    PlaceNode(h, b.addr, i);
    CycleInMem(h);
    var p, bp := h.order[i], b.addr;
    var r := Released(h.mem, p, bp);
    var (h1, c) := Absorb(h, b, i);
    AbsorbNext(h, b, i);
    var hd := Header(Next(h1.order, i), c.units);
    assert hd == r.0;
    var h2 := PutHeader(h1, bp, hd);
    assert h2.mem[p].size == h.mem[p].size && h2.mem[bp] == hd;
    assert forall a :: a in h2.mem && a != p && a != bp ==> a in h.mem && h2.mem[a] == h.mem[a];
    JoinMem(h2, c, i);
    assert FreeAt(h, b, i) == Join(h2, c, i);
  }

  lemma AbsorbNext(h: H, b: Blk, i: nat)
    requires Cycle(h) && i < |h.order| && (Upper(h, b, i) ==> i + 1 < |h.order|)
    ensures var (h1, c) := Absorb(h, b, i);
            && i < |h1.order| && h1.order[i] == h.order[i] && c.addr == b.addr && h1.mem.Keys == h.mem.Keys
            && Next(h1.order, i) == (if Upper(h, b, i) then Next(h.order, i + 1) else Next(h.order, i))
            && (forall a :: a in h.mem && a != h.order[i] ==> h1.mem[a] == h.mem[a])
            && h1.mem[h.order[i]] == Header(Next(h1.order, i), h.mem[h.order[i]].size)
  {
    assert NodeOk(h, i);
  }

  lemma JoinMem(h: H, c: Blk, i: nat)
    requires InMem(h) && i < |h.order| && c.addr in h.mem && h.mem[c.addr] == Header(Next(h.order, i), c.units)
    requires c.addr != h.order[i]
    requires h.mem[h.order[i]].ptr == Next(h.order, i)
    ensures var p := h.order[i];
            Join(h, c, i).mem == h.mem[p := if p + UNIT * h.mem[p].size == c.addr then Header(Next(h.order, i), h.mem[p].size + c.units)
                                            else h.mem[p].(ptr := c.addr)]
  {
  }

  /** How the two addresses of a link compare, and whether bp lies behind it. */
  lemma Neighbours(h: H, i: nat, t: nat, bp: nat)
    requires Cycle(h) && i < |h.order| && Place(h, bp, t) && bp !in h.order && h.base < bp
    ensures var p, next := h.order[i], h.mem[h.order[i]].ptr;
            && next == Next(h.order, i) && (next <= p <==> i + 1 == |h.order|)
            && (i == t <==> bp > p && (bp < next || i + 1 == |h.order|)) && bp > h.base && (i + 1 == |h.order| ==> next == h.base)
  {
    assert NodeOk(h, i);
    if i + 1 < |h.order| {
      assert Before(h, i, i + 1);
    }
    if i < t {
      assert Before(h, i, t);
      assert i + 1 < t ==> Before(h, i + 1, t);
    } else if t < i {
      assert t + 1 < i ==> Before(h, t + 1, i);
    }
  }

  lemma LooseAbove(h: H, b: Blk)
    requires InMem(h) && Loose(h, b)
    ensures h.base < b.addr
  {
  }

  lemma PlaceNode(h: H, bp: nat, i: nat)
    requires Cycle(h) && Place(h, bp, i) && bp !in h.order
    ensures h.order[i] in h.mem && h.mem[h.order[i]].ptr == Next(h.order, i) && h.order[i] != bp
    ensures Next(h.order, i) in h.mem && Next(h.order, i) != bp
    ensures i + 1 < |h.order| ==> h.mem[Next(h.order, i)].ptr == Next(h.order, i + 1) && h.order[i] != h.order[i + 1]
  {
    assert NodeOk(h, i);
    if i + 1 < |h.order| {
      assert NodeOk(h, i + 1);
      Distinct(h, i, i + 1);
    }
  }
}
