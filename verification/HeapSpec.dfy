/** The free list of the user-level allocator: an address-ordered cycle through a header that is part
    of the program, called base here. Addresses count bytes; sizes count headers of 16 bytes. */
module HeapSpec {

  const UNIT := 16

  datatype Header = Header(ptr: nat, size: nat)
  datatype Blk = Blk(addr: nat, units: nat)

  /** order lists the cycle in address order from base; live are the blocks malloc has handed out; brk
      bounds the memory obtained so far. */
  datatype H = H(base: nat, mem: map<nat, Header>, order: seq<nat>, live: seq<Blk>, brk: nat)

  function Next(order: seq<nat>, i: nat): (a: nat)
    requires i < |order|
  {
    if i + 1 < |order| then order[i + 1] else order[0]
  }

  predicate InMem(h: H) {
    forall i :: 0 <= i < |h.order| ==> h.order[i] in h.mem
  }

  function Size(h: H, i: nat): (n: nat)
    requires InMem(h) && i < |h.order|
  {
    h.mem[h.order[i]].size
  }

  function End(h: H, i: nat): (a: nat)
    requires InMem(h) && i < |h.order|
  {
    h.order[i] + UNIT * Size(h, i)
  }

  predicate NodeOk(h: H, i: nat)
    requires InMem(h) && i < |h.order|
  {
    && h.mem[h.order[i]].ptr == Next(h.order, i)
    && (i > 0 ==> Size(h, i) > 0 && h.base + UNIT <= h.order[i] && End(h, i) <= h.brk)
  }

  predicate Before(h: H, i: nat, j: nat)
    requires InMem(h) && i < |h.order| && j < |h.order|
  {
    End(h, i) < h.order[j]
  }

  /** The cycle: linked in address order, from base, and no block touches the next one. */
  predicate Cycle(h: H) {
    && InMem(h) && |h.order| > 0 && h.order[0] == h.base && Size(h, 0) == 0
    && (forall i :: 0 <= i < |h.order| ==> NodeOk(h, i))
    && (forall i, j :: 0 <= i < j < |h.order| ==> Before(h, i, j))
  }

  predicate Apart(a: nat, m: nat, b: nat, n: nat) {
    a + UNIT * m <= b || b + UNIT * n <= a
  }

  /** A block that is not on the free list overlaps nothing on it. */
  predicate OffList(h: H, b: Blk)
    requires InMem(h)
  {
    && b.units > 0 && h.base + UNIT <= b.addr && b.addr + UNIT * b.units <= h.brk
    && forall i :: 1 <= i < |h.order| ==> Apart(b.addr, b.units, h.order[i], Size(h, i))
  }

  predicate Lives(h: H)
    requires InMem(h)
  {
    && (forall k :: 0 <= k < |h.live| ==> OffList(h, h.live[k]))
    && (forall k :: 0 <= k < |h.live| ==> h.live[k].addr in h.mem && h.mem[h.live[k].addr].size == h.live[k].units)
    && (forall k, l :: 0 <= k < l < |h.live| ==> Apart(h.live[k].addr, h.live[k].units, h.live[l].addr, h.live[l].units))
  }

  predicate Inv(h: H) {
    Cycle(h) && Lives(h)
  }

  // ---- adding up ----

  function FreeUnits(mem: map<nat, Header>, order: seq<nat>): (n: nat)
    requires forall i :: 0 <= i < |order| ==> order[i] in mem
  {
    if order == [] then 0 else mem[order[0]].size + FreeUnits(mem, order[1..])
  }

  function LiveUnits(live: seq<Blk>): (n: nat) {
    if live == [] then 0 else live[0].units + LiveUnits(live[1..])
  }

  lemma {:induction false} FreeSplit(mem: map<nat, Header>, a: seq<nat>, b: seq<nat>)
    requires forall i :: 0 <= i < |a| ==> a[i] in mem
    requires forall i :: 0 <= i < |b| ==> b[i] in mem
    ensures forall i :: 0 <= i < |a + b| ==> (a + b)[i] in mem
    ensures FreeUnits(mem, a + b) == FreeUnits(mem, a) + FreeUnits(mem, b)
  {
    if a == [] {
      assert a + b == b;
    } else {
      FreeSplit(mem, a[1..], b);
      assert (a + b)[1..] == a[1..] + b;
    }
  }

  lemma {:induction false} FreeAgree(mem: map<nat, Header>, mem': map<nat, Header>, a: seq<nat>)
    requires forall i :: 0 <= i < |a| ==> a[i] in mem && a[i] in mem' && mem[a[i]].size == mem'[a[i]].size
    ensures FreeUnits(mem, a) == FreeUnits(mem', a)
  {
    if a != [] {
      FreeAgree(mem, mem', a[1..]);
    }
  }

  lemma {:induction false} LiveSplit(a: seq<Blk>, b: seq<Blk>)
    ensures LiveUnits(a + b) == LiveUnits(a) + LiveUnits(b)
  {
    if a == [] {
      assert a + b == b;
    } else {
      LiveSplit(a[1..], b);
      assert (a + b)[1..] == a[1..] + b;
    }
  }

  function Total(h: H): (n: nat)
    requires InMem(h)
  {
    FreeUnits(h.mem, h.order) + LiveUnits(h.live)
  }

  // ---- the four changes to the list ----

  /** order[i + 1] leaves the cycle. */
  function Unlink(h: H, i: nat): (r: H)
    requires InMem(h) && i + 1 < |h.order|
  {
    h.(mem := h.mem[h.order[i] := h.mem[h.order[i]].(ptr := Next(h.order, i + 1))],
       order := h.order[..i + 1] + h.order[i + 2..])
  }

  /** The block at bp enters the cycle behind order[i]. */
  function Insert(h: H, i: nat, bp: nat): (r: H)
    requires InMem(h) && i < |h.order| && bp in h.mem
  {
    h.(mem := h.mem[bp := h.mem[bp].(ptr := Next(h.order, i))][h.order[i] := h.mem[h.order[i]].(ptr := bp)],
       order := h.order[..i + 1] + [bp] + h.order[i + 1..])
  }

  function Resize(h: H, i: nat, n: nat): (r: H)
    requires InMem(h) && i < |h.order|
  {
    h.(mem := h.mem[h.order[i] := h.mem[h.order[i]].(size := n)])
  }

  lemma Distinct(h: H, i: nat, j: nat)
    requires Cycle(h) && i < |h.order| && j < |h.order|
    ensures h.order[i] == h.order[j] <==> i == j
  {
    if i < j {
      assert Before(h, i, j);
    } else if j < i {
      assert Before(h, j, i);
    }
  }

  /** Where position j of the shorter order was in the longer one. */
  function Skip(i: nat, j: nat): (r: nat) {
    if j <= i then j else j + 1
  }

  lemma UnlinkNode(h: H, i: nat, j: nat)
    requires Cycle(h) && i + 1 < |h.order| && j < |h.order| - 1
    ensures var r := Unlink(h, i);
            && r.order[j] == h.order[Skip(i, j)] && r.order[j] in r.mem
            && r.mem[r.order[j]].size == Size(h, Skip(i, j))
            && r.mem[r.order[j]].ptr == Next(r.order, j)
  {
    Distinct(h, i, Skip(i, j));
    assert NodeOk(h, Skip(i, j));
  }

  lemma UnlinkCycle(h: H, i: nat)
    requires Cycle(h) && i + 1 < |h.order|
    ensures Cycle(Unlink(h, i))
  {
    hide Unlink;
    var r := Unlink(h, i);
    var n := |h.order| - 1;
    UnlinkShape(h, i);
    forall j | 0 <= j < n
      ensures r.order[j] == h.order[Skip(i, j)] && r.order[j] in r.mem && r.mem[r.order[j]].size == Size(h, Skip(i, j))
      ensures r.mem[r.order[j]].ptr == Next(r.order, j)
    {
      UnlinkNode(h, i, j);
    }
    forall j | 0 <= j < n
      ensures NodeOk(r, j)
    {
      assert NodeOk(h, Skip(i, j));
    }
    forall j, k | 0 <= j < k < n
      ensures Before(r, j, k)
    {
      assert Before(h, Skip(i, j), Skip(i, k));
    }
  }

  lemma UnlinkShape(h: H, i: nat)
    requires Cycle(h) && i + 1 < |h.order|
    ensures var r := Unlink(h, i); |r.order| == |h.order| - 1 && r.base == h.base && r.brk == h.brk && r.live == h.live
    ensures forall a :: a in h.mem ==> a in Unlink(h, i).mem && Unlink(h, i).mem[a].size == h.mem[a].size
  {
  }

  lemma UnlinkUnits(h: H, i: nat)
    requires Cycle(h) && i + 1 < |h.order| && Cycle(Unlink(h, i))
    ensures FreeUnits(Unlink(h, i).mem, Unlink(h, i).order) + Size(h, i + 1) == FreeUnits(h.mem, h.order)
  {
    hide Cycle;
    var a, x, b := h.order[..i + 1], [h.order[i + 1]], h.order[i + 2..];
    assert h.order == a + (x + b) && (x + b)[1..] == b;
    CycleInMem(h);
    FreeSplit(h.mem, a, x + b);
    FreeSplit(h.mem, a, b);
    FreeAgree(h.mem, Unlink(h, i).mem, a + b);
  }

  lemma CycleInMem(h: H)
    requires Cycle(h)
    ensures InMem(h) && |h.order| > 0 && forall i :: 0 <= i < |h.order| ==> h.order[i] in h.mem
  {
  }

  // ---- insertion ----

  /** bp, of size n, fits strictly between order[i] and what follows it. */
  predicate Fits(h: H, i: nat, bp: nat, n: nat)
    requires InMem(h)
  {
    && i < |h.order| && n > 0 && h.base + UNIT <= bp && bp + UNIT * n <= h.brk && End(h, i) < bp
    && (i + 1 < |h.order| ==> bp + UNIT * n < h.order[i + 1])
  }

  lemma FitsAround(h: H, i: nat, bp: nat, n: nat, j: nat)
    requires Cycle(h) && Fits(h, i, bp, n) && j < |h.order|
    ensures if j <= i then End(h, j) < bp else bp + UNIT * n < h.order[j]
  {
    if j < i {
      assert Before(h, j, i);
    } else if j > i + 1 {
      assert Before(h, i + 1, j);
    }
  }

  lemma InsertNode(h: H, i: nat, bp: nat, j: nat)
    requires Cycle(h) && bp in h.mem && Fits(h, i, bp, h.mem[bp].size) && j < |h.order|
    ensures var r := Insert(h, i, bp); var x := Skip(i, j);
            && |r.order| == |h.order| + 1 && r.order[x] == h.order[j] && r.order[x] in r.mem
            && r.mem[r.order[x]].size == Size(h, j)
            && r.mem[r.order[x]].ptr == Next(r.order, x)
  {
    Distinct(h, i, j);
    FitsAround(h, i, bp, h.mem[bp].size, j);
    assert NodeOk(h, j);
  }

  lemma InsertNew(h: H, i: nat, bp: nat)
    requires Cycle(h) && bp in h.mem && Fits(h, i, bp, h.mem[bp].size)
    ensures var r := Insert(h, i, bp);
            && |r.order| == |h.order| + 1 && r.order[i + 1] == bp && bp in r.mem && r.mem[bp].size == h.mem[bp].size
            && r.mem[bp].ptr == Next(r.order, i + 1) && r.base == h.base && r.brk == h.brk && r.live == h.live
    ensures forall a :: a in h.mem ==> a in Insert(h, i, bp).mem && Insert(h, i, bp).mem[a].size == h.mem[a].size
  {
    FitsAround(h, i, bp, h.mem[bp].size, i);
  }

  lemma InsertAt(h: H, i: nat, bp: nat, x: nat)
    requires Cycle(h) && bp in h.mem && Fits(h, i, bp, h.mem[bp].size) && x <= |h.order|
    ensures var r := Insert(h, i, bp);
            && |r.order| == |h.order| + 1 && r.order[x] in r.mem && r.mem[r.order[x]].ptr == Next(r.order, x)
            && (x == i + 1 ==> r.order[x] == bp && r.mem[bp].size == h.mem[bp].size)
            && (x <= i ==> r.order[x] == h.order[x] && r.mem[r.order[x]].size == Size(h, x))
            && (x > i + 1 ==> r.order[x] == h.order[x - 1] && r.mem[r.order[x]].size == Size(h, x - 1))
  {
    hide Insert, Cycle;
    CycleInMem(h);
    InsertNew(h, i, bp);
    if x <= i {
      InsertNode(h, i, bp, x);
    } else if x > i + 1 {
      InsertNode(h, i, bp, x - 1);
    }
  }

  lemma InsertCycle(h: H, i: nat, bp: nat)
    requires Cycle(h) && bp in h.mem && Fits(h, i, bp, h.mem[bp].size)
    ensures Cycle(Insert(h, i, bp))
  {
    hide Insert;
    var r := Insert(h, i, bp);
    InsertNew(h, i, bp);
    forall x | 0 <= x < |r.order|
      ensures r.order[x] in r.mem
    {
      InsertAt(h, i, bp, x);
    }
    forall x | 0 <= x < |r.order|
      ensures NodeOk(r, x)
    {
      InsertAt(h, i, bp, x);
      if x != i + 1 {
        assert NodeOk(h, if x <= i then x else x - 1);
      }
    }
    forall x, y | 0 <= x < y < |r.order|
      ensures Before(r, x, y)
    {
      InsertAt(h, i, bp, x);
      InsertAt(h, i, bp, y);
      InsertBefore(h, i, bp, x, y);
    }
    InsertAt(h, i, bp, 0);
  }

  lemma InsertBefore(h: H, i: nat, bp: nat, x: nat, y: nat)
    requires Cycle(h) && bp in h.mem && Fits(h, i, bp, h.mem[bp].size) && x < y <= |h.order|
    ensures x <= i && y > i + 1 ==> End(h, x) < h.order[y - 1]
    ensures y <= i ==> End(h, x) < h.order[y]
    ensures x > i + 1 ==> End(h, x - 1) < h.order[y - 1]
    ensures x <= i && y == i + 1 ==> End(h, x) < bp
    ensures x == i + 1 ==> bp + UNIT * h.mem[bp].size < h.order[y - 1]
  {
    if y <= i {
      assert Before(h, x, y);
    } else if x > i + 1 {
      assert Before(h, x - 1, y - 1);
    } else if x == i + 1 {
      FitsAround(h, i, bp, h.mem[bp].size, y - 1);
    } else {
      FitsAround(h, i, bp, h.mem[bp].size, x);
      if y > i + 1 {
        assert Before(h, x, y - 1);
      }
    }
  }

  lemma InsertUnits(h: H, i: nat, bp: nat)
    requires Cycle(h) && bp in h.mem && Fits(h, i, bp, h.mem[bp].size) && Cycle(Insert(h, i, bp))
    ensures FreeUnits(Insert(h, i, bp).mem, Insert(h, i, bp).order) == FreeUnits(h.mem, h.order) + h.mem[bp].size
  {
    hide Cycle;
    var a, b := h.order[..i + 1], h.order[i + 1..];
    CycleInMem(h);
    InsertNew(h, i, bp);
    assert h.order == a + b && ([bp] + b)[1..] == b && a + [bp] + b == a + ([bp] + b);
    FreeSplit(h.mem, a, b);
    FreeSplit(h.mem, a, [bp] + b);
    FreeAgree(h.mem, Insert(h, i, bp).mem, a + ([bp] + b));
  }

  // ---- resizing ----

  lemma ResizeCycle(h: H, i: nat, n: nat)
    requires Cycle(h) && 0 < i < |h.order| && n > 0 && h.order[i] + UNIT * n <= h.brk
    requires i + 1 < |h.order| ==> h.order[i] + UNIT * n < h.order[i + 1]
    ensures Cycle(Resize(h, i, n))
    ensures forall j :: 0 <= j < |h.order| ==> Resize(h, i, n).mem[h.order[j]].size == if j == i then n else Size(h, j)
  {
    var r := Resize(h, i, n);
    forall j | 0 <= j < |h.order|
      ensures NodeOk(r, j) && Size(r, j) == if j == i then n else Size(h, j)
    {
      Distinct(h, i, j);
      assert NodeOk(h, j);
    }
    forall j, k | 0 <= j < k < |h.order|
      ensures Before(r, j, k)
    {
      assert Before(h, j, k);
      if j == i && k > i + 1 {
        assert Before(h, i + 1, k);
      }
    }
  }

  lemma ResizeUnits(h: H, i: nat, n: nat)
    requires Cycle(h) && 0 < i < |h.order| && Cycle(Resize(h, i, n))
    ensures FreeUnits(Resize(h, i, n).mem, h.order) + Size(h, i) == FreeUnits(h.mem, h.order) + n
  {
    var r := Resize(h, i, n);
    var a, x, b := h.order[..i], [h.order[i]], h.order[i + 1..];
    assert h.order == a + (x + b) && (x + b)[1..] == b;
    FreeSplit(h.mem, a, x + b);
    FreeSplit(r.mem, a, x + b);
    forall j | 0 <= j < |h.order| && j != i
      ensures h.order[j] != h.order[i]
    {
      Distinct(h, i, j);
    }
    FreeAgree(h.mem, r.mem, a);
    FreeAgree(h.mem, r.mem, b);
  }

  // ---- blocks off the list ----

  lemma UnlinkOff(h: H, i: nat, b: Blk)
    requires Cycle(h) && i + 1 < |h.order| && OffList(h, b) && InMem(Unlink(h, i))
    ensures OffList(Unlink(h, i), b)
  {
    var r := Unlink(h, i);
    forall j | 1 <= j < |r.order|
      ensures Apart(b.addr, b.units, r.order[j], Size(r, j))
    {
      UnlinkNode(h, i, j);
      assert Apart(b.addr, b.units, h.order[Skip(i, j)], Size(h, Skip(i, j)));
    }
  }

  lemma InsertOff(h: H, i: nat, bp: nat, b: Blk)
    requires Cycle(h) && bp in h.mem && Fits(h, i, bp, h.mem[bp].size) && OffList(h, b) && InMem(Insert(h, i, bp))
    requires Apart(b.addr, b.units, bp, h.mem[bp].size)
    ensures OffList(Insert(h, i, bp), b)
  {
    hide Insert, Cycle;
    CycleInMem(h);
    var r := Insert(h, i, bp);
    InsertNew(h, i, bp);
    forall x | 1 <= x < |r.order|
      ensures Apart(b.addr, b.units, r.order[x], Size(r, x))
    {
      InsertAt(h, i, bp, x);
      if x != i + 1 {
        var j := if x <= i then x else x - 1;
        assert Apart(b.addr, b.units, h.order[j], Size(h, j));
      }
    }
  }

  lemma ResizeOff(h: H, i: nat, n: nat, b: Blk)
    requires Cycle(h) && 0 < i < |h.order| && OffList(h, b) && InMem(Resize(h, i, n)) && Apart(b.addr, b.units, h.order[i], n)
    ensures OffList(Resize(h, i, n), b)
  {
    var r := Resize(h, i, n);
    forall j | 1 <= j < |r.order|
      ensures Apart(b.addr, b.units, r.order[j], Size(r, j))
    {
      Distinct(h, i, j);
      assert Apart(b.addr, b.units, h.order[j], Size(h, j));
    }
  }

  lemma LivesKept(h: H, r: H)
    requires InMem(h) && Lives(h) && InMem(r) && r.live == h.live
    requires forall k :: 0 <= k < |h.live| ==> OffList(r, h.live[k])
    requires forall k :: 0 <= k < |h.live| ==> h.live[k].addr in r.mem && r.mem[h.live[k].addr].size == h.mem[h.live[k].addr].size
    ensures Lives(r)
  {
    hide OffList;
  }

  // ---- a header written outside every block in use ----

  /** No free or live block starts at a. */
  predicate Unused(h: H, a: nat) {
    a !in h.order && forall k :: 0 <= k < |h.live| ==> h.live[k].addr != a
  }

  function PutHeader(h: H, a: nat, hd: Header): (r: H) {
    h.(mem := h.mem[a := hd])
  }

  lemma PutHeaderKeeps(h: H, a: nat, hd: Header)
    requires Inv(h) && Unused(h, a)
    ensures Inv(PutHeader(h, a, hd)) && Total(PutHeader(h, a, hd)) == Total(h)
    ensures forall i :: 0 <= i < |h.order| ==> h.order[i] in PutHeader(h, a, hd).mem && PutHeader(h, a, hd).mem[h.order[i]] == h.mem[h.order[i]]
  {
    var r := PutHeader(h, a, hd);
    forall i | 0 <= i < |h.order|
      ensures h.order[i] in r.mem && r.mem[h.order[i]] == h.mem[h.order[i]]
    {
      assert h.order[i] != a;
    }
    forall i | 0 <= i < |h.order|
      ensures NodeOk(r, i)
    {
      assert NodeOk(h, i);
    }
    forall i, j | 0 <= i < j < |h.order|
      ensures Before(r, i, j)
    {
      assert Before(h, i, j);
    }
    forall k | 0 <= k < |h.live|
      ensures OffList(r, h.live[k])
    {
      PutHeaderOff(h, a, hd, h.live[k]);
    }
    LivesKept(h, r);
    FreeAgree(h.mem, r.mem, h.order);
  }

  lemma PutHeaderOff(h: H, a: nat, hd: Header, b: Blk)
    requires Cycle(h) && a !in h.order && OffList(h, b)
    ensures InMem(PutHeader(h, a, hd)) && OffList(PutHeader(h, a, hd), b)
  {
    var r := PutHeader(h, a, hd);
    forall j | 1 <= j < |r.order|
      ensures Apart(b.addr, b.units, r.order[j], Size(r, j))
    {
      assert h.order[j] != a;
      assert Apart(b.addr, b.units, h.order[j], Size(h, j));
    }
  }

  // ---- free ----

  /** A block that is neither on the list nor live, and overlaps neither. */
  predicate Loose(h: H, b: Blk)
    requires InMem(h)
  {
    && OffList(h, b)
    && forall k :: 0 <= k < |h.live| ==> Apart(h.live[k].addr, h.live[k].units, b.addr, b.units)
  }

  lemma LooseUnused(h: H, b: Blk)
    requires Inv(h) && Loose(h, b)
    ensures Unused(h, b.addr)
  {
    forall i | 0 <= i < |h.order|
      ensures h.order[i] != b.addr
    {
      if i > 0 {
        assert NodeOk(h, i) && Apart(b.addr, b.units, h.order[i], Size(h, i));
      }
    }
    forall k | 0 <= k < |h.live|
      ensures h.live[k].addr != b.addr
    {
      assert OffList(h, h.live[k]);
    }
  }

  /** bp belongs right behind order[i]. */
  predicate Place(h: H, bp: nat, i: nat) {
    i < |h.order| && h.order[i] < bp && (i + 1 < |h.order| ==> bp < h.order[i + 1])
  }

  predicate Upper(h: H, b: Blk, i: nat)
    requires i < |h.order|
  {
    b.addr + UNIT * b.units == Next(h.order, i)
  }

  /** The first half of free: the block after b is absorbed if b touches it. */
  function Absorb(h: H, b: Blk, i: nat): (r: (H, Blk))
    requires Cycle(h) && i < |h.order| && (Upper(h, b, i) ==> i + 1 < |h.order|)
  {
    if Upper(h, b, i) then (Unlink(h, i), Blk(b.addr, b.units + Size(h, i + 1))) else (h, b)
  }

  lemma PlaceBounds(h: H, b: Blk, i: nat)
    requires Cycle(h) && OffList(h, b) && Place(h, b.addr, i)
    ensures End(h, i) <= b.addr
    ensures i + 1 < |h.order| ==> b.addr + UNIT * b.units <= h.order[i + 1]
    ensures Upper(h, b, i) ==> i + 1 < |h.order|
  {
    if i > 0 {
      assert Apart(b.addr, b.units, h.order[i], Size(h, i));
    }
    if i + 1 < |h.order| {
      assert Apart(b.addr, b.units, h.order[i + 1], Size(h, i + 1)) && NodeOk(h, i + 1);
    }
  }

  lemma AbsorbKeeps(h: H, b: Blk, i: nat)
    requires Inv(h) && Loose(h, b) && Place(h, b.addr, i)
    ensures Upper(h, b, i) ==> i + 1 < |h.order|
    ensures var (r, c) := Absorb(h, b, i);
            && Inv(r) && Loose(r, c) && r.live == h.live && r.base == h.base && r.brk == h.brk
            && Place(r, c.addr, i) && Size(r, i) == Size(h, i) && r.order[i] == h.order[i]
            && (i + 1 < |r.order| ==> c.addr + UNIT * c.units < r.order[i + 1])
            && Total(r) + c.units == Total(h) + b.units && b.units <= c.units
  {
    PlaceBounds(h, b, i);
    if Upper(h, b, i) {
      AbsorbUpper(h, b, i);
    }
  }

  lemma AbsorbUpper(h: H, b: Blk, i: nat)
    requires Inv(h) && Loose(h, b) && Place(h, b.addr, i) && i + 1 < |h.order| && Upper(h, b, i)
    ensures var r := Unlink(h, i); var c := Blk(b.addr, b.units + Size(h, i + 1));
            && Inv(r) && Loose(r, c) && r.live == h.live
            && Place(r, c.addr, i) && Size(r, i) == Size(h, i) && r.order[i] == h.order[i]
            && (i + 1 < |r.order| ==> c.addr + UNIT * c.units < r.order[i + 1])
            && Total(r) + c.units == Total(h) + b.units
  {
    hide Unlink;
    var r := Unlink(h, i);
    var c := Blk(b.addr, b.units + Size(h, i + 1));
    UnlinkShape(h, i);
    UnlinkCycle(h, i);
    UnlinkUnits(h, i);
    UnlinkNode(h, i, i);
    if i + 1 < |r.order| {
      UnlinkNode(h, i, i + 1);
      assert Before(h, i + 1, i + 2);
    }
    UnlinkLives(h, i);
    forall k | 0 <= k < |h.live|
      ensures Apart(h.live[k].addr, h.live[k].units, c.addr, c.units)
    {
      assert OffList(h, h.live[k]);
      assert Apart(h.live[k].addr, h.live[k].units, h.order[i + 1], Size(h, i + 1));
      assert Apart(h.live[k].addr, h.live[k].units, b.addr, b.units);
    }
    forall j | 1 <= j < |r.order|
      ensures Apart(c.addr, c.units, r.order[j], Size(r, j))
    {
      UnlinkNode(h, i, j);
      AroundPlace(h, b, i, Skip(i, j));
    }
    assert NodeOk(h, i + 1);
  }

  /** Blocks before the place end before b, and blocks after the one b touches start after its end. */
  lemma AroundPlace(h: H, b: Blk, i: nat, j: nat)
    requires Cycle(h) && OffList(h, b) && Place(h, b.addr, i) && j < |h.order| && j != i + 1
    ensures j <= i ==> End(h, j) <= b.addr
    ensures j > i + 1 ==> End(h, i + 1) < h.order[j]
  {
    PlaceBounds(h, b, i);
    if j < i {
      assert Before(h, j, i);
    } else if j > i + 1 {
      assert Before(h, i + 1, j);
    }
  }

  lemma UnlinkLives(h: H, i: nat)
    requires Inv(h) && i + 1 < |h.order| && Cycle(Unlink(h, i))
    ensures Inv(Unlink(h, i))
  {
    hide OffList;
    UnlinkShape(h, i);
    forall k | 0 <= k < |h.live|
      ensures OffList(Unlink(h, i), h.live[k])
    {
      UnlinkOff(h, i, h.live[k]);
    }
    LivesKept(h, Unlink(h, i));
  }

  /** The second half of free: c joins the block before it if they touch, else it enters the list. */
  function Join(h: H, c: Blk, i: nat): (r: H)
    requires InMem(h) && i < |h.order| && c.addr in h.mem
  {
    if End(h, i) == c.addr then Resize(h, i, Size(h, i) + c.units) else Insert(h, i, c.addr)
  }

  /** Some free block covers c. */
  predicate Covered(h: H, c: Blk)
    requires InMem(h)
  {
    exists j :: 1 <= j < |h.order| && h.order[j] <= c.addr && c.addr + UNIT * c.units <= End(h, j)
  }

  lemma JoinKeeps(h: H, c: Blk, i: nat)
    requires Inv(h) && Loose(h, c) && Place(h, c.addr, i) && c.addr in h.mem && h.mem[c.addr].size == c.units
    requires i + 1 < |h.order| ==> c.addr + UNIT * c.units < h.order[i + 1]
    ensures var r := Join(h, c, i);
            && Inv(r) && r.live == h.live && r.base == h.base && r.brk == h.brk
            && Total(r) == Total(h) + c.units && Covered(r, c) && i < |r.order| && r.order[i] == h.order[i]
  {
    hide Insert, Resize, Loose;
    PlaceBounds(h, c, i) by { LooseOff(h, c); }
    LooseOff(h, c);
    if End(h, i) == c.addr {
      JoinLower(h, c, i);
    } else {
      JoinInsert(h, c, i);
    }
  }

  lemma LooseOff(h: H, c: Blk)
    requires InMem(h) && Loose(h, c)
    ensures OffList(h, c)
    ensures forall k :: 0 <= k < |h.live| ==> Apart(h.live[k].addr, h.live[k].units, c.addr, c.units)
  {
  }

  lemma JoinInsert(h: H, c: Blk, i: nat)
    requires Inv(h) && Loose(h, c) && i < |h.order| && End(h, i) < c.addr && c.addr in h.mem && h.mem[c.addr].size == c.units
    requires i + 1 < |h.order| ==> c.addr + UNIT * c.units < h.order[i + 1]
    ensures var r := Insert(h, i, c.addr);
            && Inv(r) && r.live == h.live && r.base == h.base && r.brk == h.brk
            && Total(r) == Total(h) + c.units && Covered(r, c) && i < |r.order| && r.order[i] == h.order[i]
  {
    hide Insert;
    var r := Insert(h, i, c.addr);
    InsertNew(h, i, c.addr);
    InsertCycle(h, i, c.addr);
    InsertUnits(h, i, c.addr);
    InsertAt(h, i, c.addr, i);
    forall k | 0 <= k < |h.live|
      ensures OffList(r, h.live[k])
    {
      InsertOff(h, i, c.addr, h.live[k]);
    }
    LivesKept(h, r);
    assert c.addr + UNIT * c.units <= End(r, i + 1);
  }

  lemma JoinLower(h: H, c: Blk, i: nat)
    requires Inv(h) && Loose(h, c) && i < |h.order| && End(h, i) == c.addr
    requires i + 1 < |h.order| ==> c.addr + UNIT * c.units < h.order[i + 1]
    ensures var r := Resize(h, i, Size(h, i) + c.units);
            && Inv(r) && r.live == h.live && r.base == h.base && r.brk == h.brk
            && Total(r) == Total(h) + c.units && Covered(r, c) && i < |r.order| && r.order[i] == h.order[i]
  {
    var n := Size(h, i) + c.units;
    var r := Resize(h, i, n);
    assert i > 0;
    ResizeCycle(h, i, n);
    ResizeUnits(h, i, n);
    forall k | 0 <= k < |h.live|
      ensures OffList(r, h.live[k]) && h.live[k].addr != h.order[i]
    {
      assert OffList(h, h.live[k]);
      assert NodeOk(h, i) && Apart(h.live[k].addr, h.live[k].units, h.order[i], Size(h, i));
      assert Apart(h.live[k].addr, h.live[k].units, c.addr, c.units);
      ResizeOff(h, i, n, h.live[k]);
    }
    LivesKept(h, r);
    assert c.addr + UNIT * c.units <= End(r, i);
  }

  /** All of free, once the place i is found. */
  function FreeAt(h: H, b: Blk, i: nat): (r: H)
    requires Cycle(h) && i < |h.order| && (Upper(h, b, i) ==> i + 1 < |h.order|) && InMem(Absorb(h, b, i).0) && b.addr !in h.order
  {
    var (h1, c) := Absorb(h, b, i);
    Join(PutHeader(h1, c.addr, Header(Next(h1.order, i), c.units)), c, i)
  }

  lemma FreeAtKeeps(h: H, b: Blk, i: nat)
    requires Inv(h) && Loose(h, b) && Place(h, b.addr, i)
    ensures (Upper(h, b, i) ==> i + 1 < |h.order|) && InMem(Absorb(h, b, i).0) && b.addr !in h.order
    ensures var r := FreeAt(h, b, i);
            && Inv(r) && r.live == h.live && r.base == h.base && r.brk == h.brk
            && Total(r) == Total(h) + b.units && Covered(r, b) && i < |r.order| && r.order[i] == h.order[i]
  {
    hide Cycle, Lives, OffList, Unlink, Join, Insert, Resize, Covered, Loose;
    LooseUnused(h, b);
    AbsorbKeeps(h, b, i);
    var (h1, c) := Absorb(h, b, i);
    AbsorbAddr(h, b, i);
    LooseUnused(h1, c);
    var hd := Header(Next(h1.order, i), c.units);
    PutHeaderKeeps(h1, c.addr, hd);
    var h2 := PutHeader(h1, c.addr, hd);
    PutHeaderLoose(h1, c.addr, hd, c);
    JoinKeeps(h2, c, i);
    CycleInMem(Join(h2, c, i));
    CoveredLess(Join(h2, c, i), b, c);
  }

  lemma AbsorbAddr(h: H, b: Blk, i: nat)
    requires Cycle(h) && i < |h.order| && (Upper(h, b, i) ==> i + 1 < |h.order|)
    ensures Absorb(h, b, i).1.addr == b.addr
  {
  }

  lemma PutHeaderLoose(h: H, a: nat, hd: Header, b: Blk)
    requires Cycle(h) && a !in h.order && Loose(h, b)
    ensures InMem(PutHeader(h, a, hd)) && Loose(PutHeader(h, a, hd), b)
  {
    PutHeaderOff(h, a, hd, b);
  }

  lemma CoveredLess(h: H, b: Blk, c: Blk)
    requires InMem(h) && Covered(h, c) && b.addr == c.addr && b.units <= c.units
    ensures Covered(h, b)
  {
  }

  /** Every heap address has a place in the cycle. */
  lemma FindPlace(h: H, bp: nat) returns (t: nat)
    requires Cycle(h) && h.base < bp && bp !in h.order
    ensures Place(h, bp, t)
  {
    t := 0;
    while t + 1 < |h.order| && h.order[t + 1] < bp
      invariant t < |h.order| && h.order[t] < bp
    {
      t := t + 1;
    }
  }

  // ---- malloc ----

  /** The block behind order[i] is big enough and supplies n units: all of it, or its tail. */
  function Take(h: H, i: nat, n: nat): (r: H)
    requires InMem(h) && i + 1 < |h.order| && Size(h, i + 1) >= n
  {
    if Size(h, i + 1) == n then Unlink(h, i).(live := h.live + [Blk(h.order[i + 1], n)])
    else
      var a := h.order[i + 1] + UNIT * (Size(h, i + 1) - n);
      var r := Resize(h, i + 1, Size(h, i + 1) - n);
      r.(mem := r.mem[a := if a in r.mem then r.mem[a].(size := n) else Header(0, n)], live := h.live + [Blk(a, n)])
  }

  lemma AddLive(h: H, b: Blk)
    requires Inv(h) && Loose(h, b) && b.addr in h.mem && h.mem[b.addr].size == b.units
    ensures Inv(h.(live := h.live + [b])) && Total(h.(live := h.live + [b])) == Total(h) + b.units
  {
    hide OffList;
    LooseOff(h, b);
    var r := h.(live := h.live + [b]);
    CycleSame(h, r);
    forall k | 0 <= k < |r.live|
      ensures OffList(r, r.live[k])
    {
      OffSame(h, r, r.live[k]);
    }
    LiveSplit(h.live, [b]);
  }

  lemma CycleSame(h: H, r: H)
    requires Cycle(h) && r.order == h.order && r.mem == h.mem && r.base == h.base && r.brk == h.brk
    ensures Cycle(r)
  {
    forall i | 0 <= i < |h.order|
      ensures NodeOk(r, i)
    {
      assert NodeOk(h, i);
    }
    forall i, j | 0 <= i < j < |h.order|
      ensures Before(r, i, j)
    {
      assert Before(h, i, j);
    }
  }

  lemma OffSame(h: H, r: H, b: Blk)
    requires InMem(h) && OffList(h, b) && r.order == h.order && r.mem == h.mem && r.base == h.base && r.brk == h.brk
    ensures InMem(r) && OffList(r, b)
  {
    forall i | 1 <= i < |r.order|
      ensures Apart(b.addr, b.units, r.order[i], Size(r, i))
    {
      assert Apart(b.addr, b.units, h.order[i], Size(h, i));
    }
  }

  lemma TakeKeeps(h: H, i: nat, n: nat)
    requires Inv(h) && i + 1 < |h.order| && Size(h, i + 1) >= n > 0
    ensures var r := Take(h, i, n); Inv(r) && Total(r) == Total(h) && r.brk == h.brk && r.order[i] == h.order[i]
  {
    if Size(h, i + 1) == n {
      TakeAll(h, i);
    } else {
      TakeTail(h, i, n);
    }
  }

  lemma TakeAll(h: H, i: nat)
    requires Inv(h) && i + 1 < |h.order|
    ensures var r := Unlink(h, i).(live := h.live + [Blk(h.order[i + 1], Size(h, i + 1))]);
            Inv(r) && Total(r) == Total(h) && r.order[i] == h.order[i]
  {
    hide Unlink;
    var r := Unlink(h, i);
    var b := Blk(h.order[i + 1], Size(h, i + 1));
    UnlinkShape(h, i);
    UnlinkCycle(h, i);
    UnlinkUnits(h, i);
    UnlinkNode(h, i, i);
    UnlinkLives(h, i);
    assert NodeOk(h, i + 1);
    forall j | 1 <= j < |r.order|
      ensures Apart(b.addr, b.units, r.order[j], Size(r, j))
    {
      UnlinkNode(h, i, j);
      OtherBlock(h, i + 1, Skip(i, j));
    }
    forall k | 0 <= k < |h.live|
      ensures Apart(h.live[k].addr, h.live[k].units, b.addr, b.units)
    {
      assert OffList(h, h.live[k]);
    }
    AddLive(r, b);
  }

  lemma OtherBlock(h: H, i: nat, j: nat)
    requires Cycle(h) && 0 < i < |h.order| && 0 < j < |h.order| && i != j
    ensures Apart(h.order[i], Size(h, i), h.order[j], Size(h, j))
  {
    if i < j {
      assert Before(h, i, j);
    } else {
      assert Before(h, j, i);
    }
  }

  lemma TakeTail(h: H, i: nat, n: nat)
    requires Inv(h) && i + 1 < |h.order| && Size(h, i + 1) > n > 0
    ensures var r := Take(h, i, n); Inv(r) && Total(r) == Total(h) && r.order[i] == h.order[i]
  {
    hide Cycle, Lives, OffList;
    CycleInMem(h);
    var m := Size(h, i + 1) - n;
    var r := Resize(h, i + 1, m);
    var a := h.order[i + 1] + UNIT * m;
    var b := Blk(a, n);
    TailShrink(h, i + 1, n);
    LooseUnused(r, b);
    var hd := if a in r.mem then r.mem[a].(size := n) else Header(0, n);
    PutHeaderKeeps(r, a, hd);
    var t := PutHeader(r, a, hd);
    PutHeaderOff(r, a, hd, b);
    AddLive(t, b);
  }

  lemma TailShrink(h: H, i: nat, n: nat)
    requires Inv(h) && 0 < i < |h.order| && Size(h, i) > n > 0
    ensures var r := Resize(h, i, Size(h, i) - n);
            Inv(r) && Loose(r, Blk(h.order[i] + UNIT * (Size(h, i) - n), n)) && Total(r) + n == Total(h)
  {
    var m := Size(h, i) - n;
    var r := Resize(h, i, m);
    var b := Blk(h.order[i] + UNIT * m, n);
    assert NodeOk(h, i);
    assert i + 1 < |h.order| ==> Before(h, i, i + 1);
    ResizeCycle(h, i, m);
    ResizeUnits(h, i, m);
    forall k | 0 <= k < |h.live|
      ensures OffList(r, h.live[k]) && h.live[k].addr != h.order[i] && Apart(h.live[k].addr, h.live[k].units, b.addr, b.units)
    {
      assert OffList(h, h.live[k]);
      assert Apart(h.live[k].addr, h.live[k].units, h.order[i], Size(h, i));
      ResizeOff(h, i, m, h.live[k]);
    }
    LivesKept(h, r);
    forall j | 1 <= j < |r.order|
      ensures Apart(b.addr, b.units, r.order[j], Size(r, j))
    {
      if j != i {
        OtherBlock(h, i, j);
      }
    }
  }

  // ---- new memory ----

  /** n units at a, beyond everything obtained before. */
  function Grow(h: H, a: nat, n: nat): (r: H) {
    h.(mem := h.mem[a := if a in h.mem then h.mem[a].(size := n) else Header(0, n)], brk := a + UNIT * n)
  }

  lemma GrowKeeps(h: H, a: nat, n: nat)
    requires Inv(h) && h.brk <= a && h.base + UNIT <= a && n > 0
    ensures var r := Grow(h, a, n); Inv(r) && Loose(r, Blk(a, n)) && Total(r) == Total(h)
  {
    forall i | 0 <= i < |h.order|
      ensures h.order[i] != a
    {
      assert NodeOk(h, i);
    }
    forall k | 0 <= k < |h.live|
      ensures h.live[k].addr != a
    {
      assert OffList(h, h.live[k]);
    }
    var hd := if a in h.mem then h.mem[a].(size := n) else Header(0, n);
    PutHeaderKeeps(h, a, hd);
    RaiseBrk(PutHeader(h, a, hd), a, n);
  }

  lemma RaiseBrk(h: H, a: nat, n: nat)
    requires Inv(h) && h.brk <= a && h.base + UNIT <= a && n > 0
    ensures var r := h.(brk := a + UNIT * n); Inv(r) && Loose(r, Blk(a, n)) && Total(r) == Total(h)
  {
    var r := h.(brk := a + UNIT * n);
    forall i | 0 <= i < |h.order|
      ensures NodeOk(r, i)
    {
      assert NodeOk(h, i);
    }
    forall i, j | 0 <= i < j < |h.order|
      ensures Before(r, i, j)
    {
      assert Before(h, i, j);
    }
    forall k | 0 <= k < |h.live|
      ensures OffList(r, h.live[k])
    {
      assert OffList(h, h.live[k]);
      forall i | 1 <= i < |h.order|
        ensures Apart(h.live[k].addr, h.live[k].units, r.order[i], Size(r, i))
      {
        assert Apart(h.live[k].addr, h.live[k].units, h.order[i], Size(h, i));
      }
    }
    LivesKept(h, r);
    forall i | 1 <= i < |h.order|
      ensures Apart(a, n, r.order[i], Size(r, i))
    {
      assert NodeOk(h, i);
    }
  }
}
