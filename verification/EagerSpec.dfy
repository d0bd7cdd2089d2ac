/** The eager machine's operations: what fork, stores, growth and exit mean when every process
    has its own pages. */
module EagerSpec {
  import opened Common
  import opened Frames

  /** PGROUNDUP(sz) / PGSIZE */
  function Pages(sz: nat): nat { (sz + PGSIZE - 1) / PGSIZE }

  /** fork: the child gets a copy of each of the parent's first n pages. */
  function Fork(a: Eager, p: nat, c: nat, n: nat): (r: Eager)
    decreases n
  {
    if n == 0 then a
    else
      var b := Fork(a, p, c, n - 1);
      if Key(p, n - 1) in b then b[Key(c, n - 1) := b[Key(p, n - 1)]] else b
  }

  /** Pages lo..hi of p are gone. */
  function Drop(a: Eager, p: nat, lo: nat, hi: nat): (r: Eager) {
    map k | k in a && !(k.p == p && lo <= k.v < hi) :: a[k]
  }

  /** Zeroed pages lo..hi for p. */
  function Grow(a: Eager, p: nat, lo: nat, hi: nat, w: bool, x: bool): (r: Eager)
    requires lo <= hi
    decreases hi - lo
  {
    if lo == hi then a
    else Grow(a, p, lo, hi - 1, w, x)[Key(p, hi - 1) := OwnPage(Fill(0), true, w, x, true)]
  }

  function Put(page: Page, off: nat, bs: seq<Byte>): (r: Page)
    requires off + |bs| <= PGSIZE
  {
    page[..off] + bs + page[off + |bs|..]
  }

  /** A page below sz appears, zeroed, when it is first touched. */
  function Touch(a: Eager, sz: nat, p: nat, v: nat): (r: Eager) {
    if Key(p, v) in a || v * PGSIZE >= sz then a
    else a[Key(p, v) := OwnPage(Fill(0), true, true, false, true)]
  }

  /** Kernel writes bs at va, inside one page. */
  function PageOut(a: Eager, sz: nat, p: nat, va: nat, bs: seq<Byte>): (r: Eager)
    requires va % PGSIZE + |bs| <= PGSIZE
  {
    var k := Key(p, va / PGSIZE);
    var b := Touch(a, sz, p, k.v);
    if k in b then b[k := b[k].(data := Put(b[k].data, va % PGSIZE, bs))] else b
  }

  /** Kernel writes bs at va, page by page. */
  function Out(a: Eager, sz: nat, p: nat, va: nat, bs: seq<Byte>): (r: Eager)
    decreases |bs|
  {
    if bs == [] then a
    else
      var n := Min(PGSIZE - va % PGSIZE, |bs|);
      Out(PageOut(a, sz, p, va, bs[..n]), sz, p, va + n, bs[n..])
  }

  /** Writing in two goes, the first ending at a page boundary. */
  lemma {:induction false} OutSplit(a: Eager, sz: nat, p: nat, va: nat, xs: seq<Byte>, ys: seq<Byte>)
    requires xs == [] || (va + |xs|) % PGSIZE == 0
    ensures Out(a, sz, p, va, xs + ys) == Out(Out(a, sz, p, va, xs), sz, p, va + |xs|, ys)
    decreases |xs|
  {
    hide PageOut, Out;
    if xs == [] {
      assert xs + ys == ys;
      OutIs(a, sz, p, va, xs);
    } else {
      var n := Min(PGSIZE - va % PGSIZE, |xs|);
      assert n == Min(PGSIZE - va % PGSIZE, |xs + ys|) by { ToBoundary(va, |xs|); }
      assert (xs + ys)[..n] == xs[..n] && (xs + ys)[n..] == xs[n..] + ys;
      OutIs(a, sz, p, va, xs + ys);
      OutIs(a, sz, p, va, xs);
      OutSplit(PageOut(a, sz, p, va, xs[..n]), sz, p, va + n, xs[n..], ys);
    }
  }

  /** Out, unfolded once. */
  lemma OutIs(a: Eager, sz: nat, p: nat, va: nat, bs: seq<Byte>)
    ensures Out(a, sz, p, va, bs) == if bs == [] then a
                                     else var n := Min(PGSIZE - va % PGSIZE, |bs|);
                                          Out(PageOut(a, sz, p, va, bs[..n]), sz, p, va + n, bs[n..])
  {
    hide PageOut;
  }

  lemma ToBoundary(va: nat, n: nat)
    requires n > 0 && (va + n) % PGSIZE == 0
    ensures PGSIZE - va % PGSIZE <= n
  {
  }
}
