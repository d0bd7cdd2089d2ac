/** The buffer cache: NBUF buffers on a doubly linked LRU list in front of the disk. Bget, Unref, Bpin and
    Bunpin are one section each under bcache.lock; Acquire and Unlock are one section each under the
    buffer's sleep lock; SetData and Bwrite are done by the holder of that lock. Bread, Brelse and what is
    built of them are sequences of these, with nothing in between. */
module Bio {
  import opened Common
  import opened Blocks
  import opened LogSpec
  import opened Lru

  const ROOTDEV := 1          // the one device; dev 0 marks a buffer never used

  /** struct buf, without its list links. */
  datatype Buf = Buf(dev: nat, blockno: nat, valid: bool, refcnt: nat, locked: bool, data: Block)

  /** What the cache means, block by block: the device contents, the latest contents,
      how many references keep the block cached, and whether somebody has it locked;
      and every device write so far. */
  datatype Abs = Abs(disk: Disk, view: Disk, refs: seq<int>, locks: seq<bool>, writes: seq<Write>)

  /** The buffers implement `a`; `home` finds the only buffer of a cached block. A block without
      references, whose buffer may be recycled at any time, has nothing that is not on disk. */
  predicate Represents(buf: seq<Buf>, home: map<nat, nat>, a: Abs) {
    && |buf| == NBUF && |a.view| == |a.refs| == |a.locks| == |a.disk|
    && (forall i :: 0 <= i < NBUF ==>
          if buf[i].dev == ROOTDEV then buf[i].blockno in home && home[buf[i].blockno] == i
          else buf[i].dev == 0 && buf[i].refcnt == 0 && !buf[i].locked)
    && (forall b :: b in home ==>
          b < |a.disk| && home[b] < NBUF && buf[home[b]].dev == ROOTDEV && buf[home[b]].blockno == b)
    && (forall b :: 0 <= b < |a.disk| ==> Holds(buf, home, a, b))
  }

  predicate Holds(buf: seq<Buf>, home: map<nat, nat>, a: Abs, b: nat)
    requires b < |a.disk| && |a.view| == |a.refs| == |a.locks| == |a.disk|
  {
    && (b in home && home[b] < |buf| ==>
          var x := buf[home[b]];
          && a.refs[b] == x.refcnt && a.locks[b] == x.locked && (x.locked ==> x.valid)
          && a.view[b] == if x.valid then x.data else a.disk[b])
    && (b !in home ==> a.refs[b] == 0 && !a.locks[b] && a.view[b] == a.disk[b])
    && a.refs[b] >= 0 && (a.refs[b] == 0 ==> !a.locks[b] && a.view[b] == a.disk[b])
  }

  lemma HoldsAt(buf: seq<Buf>, home: map<nat, nat>, a: Abs, b: nat)
    requires Represents(buf, home, a) && b < |a.disk|
    ensures |a.view| == |a.refs| == |a.locks| == |a.disk| && Holds(buf, home, a, b)
  {
  }

  lemma HomeAt(buf: seq<Buf>, home: map<nat, nat>, a: Abs, b: nat)
    requires Represents(buf, home, a)
    ensures b in home ==> home[b] < |buf| == NBUF && buf[home[b]].dev == ROOTDEV && buf[home[b]].blockno == b
  {
  }

  /** A buffer in use is its block's only one. */
  lemma BufferHome(buf: seq<Buf>, home: map<nat, nat>, a: Abs, i: nat)
    requires Represents(buf, home, a) && i < NBUF && i < |buf| && buf[i].dev == ROOTDEV
    ensures buf[i].blockno in home && home[buf[i].blockno] == i && buf[i].blockno < |a.disk|
  {
  }

  /** The buffer of a block somebody refers to is not taken away. */
  predicate Keeps(home: map<nat, nat>, refs: seq<int>, home': map<nat, nat>) {
    forall b :: b in home && b < |refs| && refs[b] > 0 ==> b in home' && home'[b] == home[b]
  }

  lemma KeepsOn(h0: map<nat, nat>, r0: seq<int>, h1: map<nat, nat>, r1: seq<int>, h2: map<nat, nat>)
    requires Keeps(h0, r0, h1) && Keeps(h1, r1, h2) && |r0| == |r1|
    requires forall b :: 0 <= b < |r0| && r0[b] > 0 ==> r1[b] > 0
    ensures Keeps(h0, r0, h2)
  {
  }

  /** s[x] += d */
  function Bump(s: seq<int>, x: nat, d: int): (r: seq<int>)
    requires x < |s|
    ensures |r| == |s|
  {
    s[x := s[x] + d]
  }

  lemma BumpCommutes(s: seq<int>, x: nat, y: nat)
    requires x < |s| && y < |s|
    ensures Bump(Bump(s, x, 1), y, 1) == Bump(Bump(s, y, 1), x, 1)
  {
    assert x != y ==> s[x := s[x] + 1][y := s[y] + 1] == s[y := s[y] + 1][x := s[x] + 1];
  }

  lemma BumpBack(s: seq<int>, x: nat, y: nat, d: int)
    requires x < |s| && y < |s| && x != y
    ensures Bump(Bump(Bump(Bump(s, x, 1), y, 1), x, -1), y, d) == Bump(s, y, 1 + d)
  {
  }

  lemma SetBack(s: seq<bool>, x: nat, y: nat)
    requires x < |s| && y < |s| && x != y && !s[x] && !s[y]
    ensures s[x := true][y := true][x := false][y := false] == s
    ensures s[x := true][y := true] == s[y := true][x := true]
  {
  }

  /** Blocks that are pinned or held. */
  function Busy(refs: seq<int>): (s: set<nat>) {
    set b | 0 <= b < |refs| && refs[b] > 0
  }

  function Blocknos(buf: seq<Buf>): (s: set<nat>) {
    set i | 0 <= i < |buf| :: buf[i].blockno
  }

  lemma {:induction false} BlocknosSize(buf: seq<Buf>)
    requires forall i, j :: 0 <= i < j < |buf| ==> buf[i].blockno != buf[j].blockno
    ensures |Blocknos(buf)| == |buf|
    decreases |buf|
  {
    if buf != [] {
      var k := |buf| - 1;
      BlocknosSize(buf[..k]);
      assert Blocknos(buf) == Blocknos(buf[..k]) + {buf[k].blockno};
    }
  }

  /** Fewer busy blocks than buffers: some buffer can be recycled. */
  lemma {:induction false} SpareBuffer(buf: seq<Buf>, home: map<nat, nat>, a: Abs)
    requires Represents(buf, home, a) && |Busy(a.refs)| < NBUF
    ensures exists i :: 0 <= i < NBUF && buf[i].refcnt == 0
  {
    if forall i :: 0 <= i < NBUF ==> buf[i].refcnt > 0 {
      forall i, j | 0 <= i < j < |buf| ensures buf[i].blockno != buf[j].blockno {
        assert home[buf[i].blockno] == i && home[buf[j].blockno] == j;
      }
      BlocknosSize(buf);
      forall b | b in Blocknos(buf) ensures b in Busy(a.refs) {
        var i :| 0 <= i < |buf| && buf[i].blockno == b;
        assert Holds(buf, home, a, b);
      }
      SubsetSize(Blocknos(buf), Busy(a.refs));
      assert false;
    }
  }

  /** And only then: with as many busy blocks as buffers every buffer is referenced. */
  lemma {:induction false} NoSpareBuffer(buf: seq<Buf>, home: map<nat, nat>, a: Abs, i: nat)
    requires Represents(buf, home, a) && |Busy(a.refs)| >= NBUF && i < NBUF
    ensures buf[i].refcnt > 0
  {
    if buf[i].refcnt == 0 {
      var rest := buf[..i] + buf[i + 1..];
      forall b | b in Busy(a.refs)
        ensures b in Blocknos(rest)
      {
        HoldsAt(buf, home, a, b);
        HomeAt(buf, home, a, b);
        var j := home[b];
        assert rest[if j < i then j else j - 1] == buf[j];
      }
      SubsetSize(Busy(a.refs), Blocknos(rest));
      BlocknosAtMost(rest);
    }
  }

  lemma {:induction false} BlocknosAtMost(buf: seq<Buf>)
    ensures |Blocknos(buf)| <= |buf|
    decreases |buf|
  {
    if buf != [] {
      var k := |buf| - 1;
      BlocknosAtMost(buf[..k]);
      assert Blocknos(buf) == Blocknos(buf[..k]) + {buf[k].blockno};
    }
  }

  /** bget fails exactly when every buffer is busy with another block. */
  lemma GetFails(buf: seq<Buf>, home: map<nat, nat>, a: Abs, b: nat)
    requires Represents(buf, home, a) && b < |a.disk|
    ensures |buf| == NBUF && b < |a.refs|
    ensures b !in home && (forall i :: 0 <= i < NBUF ==> buf[i].refcnt > 0) <==> |Busy(a.refs)| >= NBUF && a.refs[b] == 0
  {
    HoldsAt(buf, home, a, b);
    HomeAt(buf, home, a, b);
    if |Busy(a.refs)| < NBUF {
      SpareBuffer(buf, home, a);
    } else {
      forall i | 0 <= i < NBUF
        ensures buf[i].refcnt > 0
      {
        NoSpareBuffer(buf, home, a, i);
      }
    }
  }

  /** After one bread there is still a buffer for the second. */
  lemma {:induction false} BusyAdd(refs: seq<int>, x: nat, y: nat)
    requires x < |refs| && y < |refs| && x != y && refs[x] >= 0
    requires refs[y] > 0 || |Busy(refs)| + 1 < NBUF
    ensures |Busy(Bump(refs, x, 1))| < NBUF || Bump(refs, x, 1)[y] > 0
  {
    if refs[x] > 0 {
      assert Busy(Bump(refs, x, 1)) == Busy(refs);
    } else {
      assert Busy(Bump(refs, x, 1)) == Busy(refs) + {x};
    }
  }

  predicate Sized(a: Abs) {
    |a.view| == |a.refs| == |a.locks| == |a.disk|
  }

  /** Both blocks can be had without waiting, the second one read has a buffer if the first has, and the pin
      to drop exists. */
  predicate CanCopy(a: Abs, src: nat, dst: nat, dstFirst: bool, unpin: bool) {
    && Sized(a) && src < |a.disk| && dst < |a.disk| && src != dst && !a.locks[src] && !a.locks[dst]
    && (a.refs[if dstFirst then src else dst] > 0 || |Busy(a.refs)| + 1 < NBUF)
    && (unpin ==> a.refs[dst] > 0)
  }

  /** Copy block src over block dst, in the cache and on disk; `drop` pins of dst go. */
  function Copy(a: Abs, src: nat, dst: nat, drop: nat): (r: Abs)
    requires Sized(a) && src < |a.disk| && dst < |a.disk|
    ensures Sized(r) && |r.disk| == |a.disk|
  {
    Abs(a.disk[dst := a.view[src]], a.view[dst := a.view[src]],
        if drop == 0 then a.refs else Bump(a.refs, dst, 0 - drop), a.locks, a.writes + [Write(dst, a.view[src])])
  }

  // ---- one lemma per change of a buffer ----

  function Recycled(home: map<nat, nat>, x: Buf, i: nat, blockno: nat): map<nat, nat> {
    (if x.dev == ROOTDEV then home - {x.blockno} else home)[blockno := i]
  }

  lemma RecycleKeeps(buf: seq<Buf>, home: map<nat, nat>, a: Abs, i: nat, blockno: nat)
    requires Represents(buf, home, a) && i < NBUF && buf[i].refcnt == 0
    requires blockno < |a.disk| && blockno !in home
    ensures Represents(buf[i := buf[i].(dev := ROOTDEV, blockno := blockno, valid := false, refcnt := 1)],
                       Recycled(home, buf[i], i, blockno), a.(refs := a.refs[blockno := 1]))
  {
    var buf' := buf[i := buf[i].(dev := ROOTDEV, blockno := blockno, valid := false, refcnt := 1)];
    var home' := Recycled(home, buf[i], i, blockno);
    var a' := a.(refs := a.refs[blockno := 1]);
    assert !buf[i].locked by {
      if buf[i].dev == ROOTDEV { assert Holds(buf, home, a, buf[i].blockno); }
    }
    forall b | 0 <= b < |a.disk| ensures Holds(buf', home', a', b) {
      assert Holds(buf, home, a, b);
    }
  }

  lemma RecycleHome(buf: seq<Buf>, home: map<nat, nat>, a: Abs, i: nat, blockno: nat)
    requires Represents(buf, home, a) && i < NBUF && buf[i].refcnt == 0 && blockno !in home
    ensures Keeps(home, a.refs, Recycled(home, buf[i], i, blockno))
  {
    forall b | b in home && b < |a.refs| && a.refs[b] > 0
      ensures !(buf[i].dev == ROOTDEV && buf[i].blockno == b)
    {
      HoldsAt(buf, home, a, b);
      HomeAt(buf, home, a, b);
    }
  }

  /** Any other change leaves the index alone and must keep the block's own clause. */
  lemma UpdateKeeps(buf: seq<Buf>, home: map<nat, nat>, a: Abs, i: nat, x: Buf, a': Abs)
    requires Represents(buf, home, a) && i < NBUF && buf[i].dev == ROOTDEV
    requires x.dev == ROOTDEV && x.blockno == buf[i].blockno
    requires var b := x.blockno;
             && |a'.view| == |a'.refs| == |a'.locks| == |a'.disk| == |a.disk|
             && (forall c :: 0 <= c < |a.disk| && c != b ==>
                   a'.view[c] == a.view[c] && a'.refs[c] == a.refs[c] && a'.locks[c] == a.locks[c] && a'.disk[c] == a.disk[c])
             && Holds(buf[i := x], home, a', b)
    ensures Represents(buf[i := x], home, a')
  {
    var buf' := buf[i := x];
    forall c | 0 <= c < |a'.disk| ensures Holds(buf', home, a', c) {
      assert Holds(buf, home, a, c);
    }
  }

  class Bcache {
    var buf: seq<Buf>
    var next: seq<nat>
    var prev: seq<nat>
    var disk: Disk                // what the device holds
    ghost var writes: seq<Write>  // every device write so far
    ghost var order: seq<nat>     // the LRU list, most recently used first
    ghost var home: map<nat, nat> // cached block -> its only buffer
    ghost var view: Disk          // latest contents of every block
    ghost var refs: seq<int>      // references to every block's buffer
    ghost var locks: seq<bool>

    ghost function A(): Abs
      reads this
    {
      Abs(disk, view, refs, locks, writes)
    }

    /** The list is one cycle through the head and every buffer, and the buffers hold A(). */
    ghost predicate Valid()
      reads this
    {
      && |buf| == NBUF
      && |view| == |refs| == |locks| == |disk|
      && IsCycle(Links(next, prev), order)
      && (forall b :: 0 <= b < NBUF ==> b in order)
      && Represents(buf, home, A())
    }

    ghost function L(): Links
      reads this
    {
      Links(next, prev)
    }

    /** The four assignments that put b right after the head. */
    method LinkFront(b: nat)
      requires IsCycle(L(), order) && b < NBUF && b !in order
      modifies this`order, this`next, this`prev
      ensures order == [b] + old(order) && IsCycle(L(), order)
    {
      ghost var l := L();
      PushFrontKeepsCycle(l, order, b);
      next := next[b := next[HEAD]];
      prev := prev[b := HEAD];
      prev := prev[next[HEAD] := b];
      next := next[HEAD := b];
      assert L() == PushFront(l, b);
      order := [b] + order;
    }

    /** binit, on buffers that are still all zero. */
    constructor (image: Disk)
      ensures Valid()
      ensures disk == view == image && writes == []
      ensures forall b :: 0 <= b < |image| ==> refs[b] == 0 && !locks[b]
    {
      var zero := ZeroBlock();
      buf := seq(NBUF, i => Buf(0, 0, false, 0, false, zero));
      next := seq(NBUF + 1, i => HEAD);
      prev := seq(NBUF + 1, i => HEAD);
      disk, view, writes, home := image, image, [], map[];
      refs, locks, order := seq(|image|, i => 0), seq(|image|, i => false), [];
      new;
      var b := 0;
      while b < NBUF
        invariant 0 <= b <= NBUF
        invariant IsCycle(L(), order)
        invariant forall c :: 0 <= c < NBUF ==> (c in order <==> c < b)
        modifies this`order, this`next, this`prev
      {
        LinkFront(b);
        b := b + 1;
      }
    }

    /** First scan of bget: the buffer that caches the block, or HEAD. */
    method FindCached(dev: nat, blockno: nat) returns (b: nat)
      requires Valid() && dev == ROOTDEV
      ensures b == if blockno in home then home[blockno] else HEAD
    {
      b := next[HEAD];
      assert L().next[At(order, -1)] == At(order, 0);
      assert blockno in home ==> home[blockno] in order;
      ghost var k := 0;
      while b != HEAD
        invariant 0 <= k <= |order| && b == At(order, k)
        invariant forall j :: 0 <= j < k ==> !(buf[order[j]].dev == dev && buf[order[j]].blockno == blockno)
        decreases |order| - k
      {
        if buf[b].dev == dev && buf[b].blockno == blockno {
          return;
        }
        assert L().next[At(order, k)] == At(order, k + 1);
        b, k := next[b], k + 1;
      }
    }

    /** Second scan: the least recently used buffer without references, or HEAD. */
    method FindUnused() returns (b: nat)
      requires Valid()
      ensures b == HEAD ==> forall i :: 0 <= i < NBUF ==> buf[i].refcnt > 0
      ensures b != HEAD ==> b < NBUF && buf[b].refcnt == 0
      ensures b != HEAD ==>
                exists k :: 0 <= k < |order| && order[k] == b && forall j :: k < j < |order| ==> buf[order[j]].refcnt > 0
    {
      b := prev[HEAD];
      ghost var k := |order|;
      assert L().prev[At(order, k)] == At(order, k - 1);
      while b != HEAD
        invariant 0 <= k <= |order| && b == At(order, k - 1)
        invariant forall j :: k <= j < |order| ==> buf[order[j]].refcnt > 0
        decreases k
      {
        if buf[b].refcnt == 0 {
          assert order[k - 1] == b;
          return;
        }
        assert L().prev[At(order, k - 1)] == At(order, k - 2);
        b, k := prev[b], k - 1;
      }
      forall i | 0 <= i < NBUF ensures buf[i].refcnt > 0 {
        assert i in order;
      }
    }

    /** Change one buffer, and with it the references and lock of its block. */
    method Update(b: nat, x: Buf, refcnt: nat, locked: bool)
      requires Valid() && b < NBUF && buf[b].dev == ROOTDEV && x.dev == ROOTDEV && x.blockno == buf[b].blockno
      requires Holds(buf[b := x], home,
                     A().(refs := refs[x.blockno := refcnt], locks := locks[x.blockno := locked]), x.blockno)
      modifies this`refs, this`locks, this`buf
      ensures Valid()
      ensures refs == old(refs)[x.blockno := refcnt] && locks == old(locks)[x.blockno := locked]
      ensures buf[b] == x && forall i :: 0 <= i < NBUF && i != b ==> buf[i] == old(buf[i])
    {
      var n := x.blockno;
      UpdateKeeps(buf, home, A(), b, x, A().(refs := refs[n := refcnt], locks := locks[n := locked]));
      buf := buf[b := x];
      refs, locks := refs[n := refcnt], locks[n := locked];
      assert buf == old(buf)[b := x];
    }

    /** The buffer for a block, with one more reference: the one that caches it, or else the least
        recently used buffer nobody refers to. None is the source's panic "bget: no buffers". */
    method Bget(dev: nat, blockno: nat) returns (r: Option<nat>)
      requires Valid() && dev == ROOTDEV && blockno < |disk|
      modifies this`home, this`refs, this`locks, this`buf
      ensures Valid() && locks == old(locks)
      ensures r.None? <==> blockno !in old(home) && forall i :: 0 <= i < NBUF ==> old(buf[i].refcnt) > 0
      ensures r.None? <==> |Busy(old(refs))| >= NBUF && old(refs[blockno]) == 0
      ensures Keeps(old(home), old(refs), home) && (r.Some? ==> blockno in home && home[blockno] == r.value)
      ensures r.None? ==> buf == old(buf) && refs == old(refs)
      ensures r.Some? ==>
                && r.value < NBUF && buf[r.value].dev == dev && buf[r.value].blockno == blockno
                && refs == Bump(old(refs), blockno, 1)
                && (forall i :: 0 <= i < NBUF && i != r.value ==> buf[i] == old(buf[i]))
                && (old(buf[r.value].refcnt) > 0 ==> old(buf[r.value].blockno) == blockno)
      ensures r.Some? && blockno !in old(home) ==>
                && old(buf[r.value].refcnt) == 0
                && exists k :: 0 <= k < |order| && order[k] == r.value
                               && forall j :: k < j < |order| ==> old(buf)[order[j]].refcnt > 0
    {
      hide IsCycle, Represents;
      HoldsAt(buf, home, A(), blockno);
      HomeAt(buf, home, A(), blockno);
      GetFails(buf, home, A(), blockno);
      var b := FindCached(dev, blockno);
      if b != HEAD {
        var x := buf[b].(refcnt := buf[b].refcnt + 1);
        Update(b, x, x.refcnt, x.locked);
      } else {
        b := FindUnused();
        if b == HEAD {
          return None;
        }
        RecycleKeeps(buf, home, A(), b, blockno);
        RecycleHome(buf, home, A(), b, blockno);
        home := Recycled(home, buf[b], b, blockno);
        buf := buf[b := buf[b].(dev := dev, blockno := blockno, valid := false, refcnt := 1)];
        refs := refs[blockno := 1];
        assert buf == old(buf)[b := buf[b]];
      }
      r := Some(b);
    }

    /** Buffer b caches the block and somebody refers to it. */
    ghost predicate Caches(b: nat, blockno: nat)
      requires |buf| == NBUF && b < NBUF
      reads this
    {
      buf[b].dev == ROOTDEV && buf[b].blockno == blockno && buf[b].refcnt > 0 && blockno < |refs| && refs[blockno] > 0
    }

    /** One look at the buffer's sleep lock: taken, and the contents read unless they are there, or the
        caller sleeps until the holder lets go. */
    method Acquire(b: nat, blockno: nat) returns (got: bool)
      requires Valid() && b < NBUF && Caches(b, blockno)
      modifies this`refs, this`locks, this`buf
      ensures Valid() && refs == old(refs) && (got <==> !old(locks[blockno]))
      ensures !got ==> unchanged(this)
      ensures got ==> Owns(b, blockno) && buf[b].data == view[blockno] && locks == old(locks)[blockno := true]
      ensures forall i :: 0 <= i < NBUF && i != b ==> buf[i] == old(buf[i])
    {
      assert Holds(buf, home, A(), blockno);
      got := !buf[b].locked;
      if got {
        var x := buf[b].(locked := true);
        if !x.valid {
          x := x.(data := disk[x.blockno], valid := true);         // virtio_disk_rw(b, 0)
        }
        Update(b, x, x.refcnt, true);
        assert refs == old(refs);
      }
    }

    /** A buffer with the latest contents of the block, locked, if nobody else has it locked; otherwise the
        caller has its reference and sleeps. None is the panic in bget. */
    method Bread(dev: nat, blockno: nat) returns (r: Option<nat>, got: bool)
      requires Valid() && dev == ROOTDEV && blockno < |disk|
      modifies this`home, this`refs, this`locks, this`buf
      ensures Valid() && Keeps(old(home), old(refs), home)
      ensures r.None? <==> |Busy(old(refs))| >= NBUF && old(refs[blockno]) == 0
      ensures got <==> r.Some? && !old(locks[blockno])
      ensures r.None? ==> refs == old(refs) && locks == old(locks)
      ensures r.Some? ==>
                && r.value < NBUF && Caches(r.value, blockno) && blockno in home && home[blockno] == r.value
                && refs == Bump(old(refs), blockno, 1)
                && (forall i :: 0 <= i < NBUF && i != r.value ==> buf[i] == old(buf[i]))
                && (old(buf[r.value].refcnt) > 0 ==> old(buf[r.value].blockno) == blockno)
      ensures r.Some? && !got ==> locks == old(locks)
      ensures got ==> Owns(r.value, blockno) && buf[r.value].data == view[blockno] && locks == old(locks)[blockno := true]
    {
      hide IsCycle, Represents;
      HoldsAt(buf, home, A(), blockno);
      r := Bget(dev, blockno);
      got := false;
      if r.Some? {
        HoldsAt(buf, home, A(), blockno);
        got := Acquire(r.value, blockno);
      }
    }

    /** The caller of bread(blockno) got buffer b and has not released it. */
    ghost predicate Owns(b: nat, blockno: nat)
      requires |buf| == NBUF && b < NBUF
      reads this
    {
      && buf[b].dev == ROOTDEV && buf[b].blockno == blockno && buf[b].locked && buf[b].valid
      && buf[b].refcnt > 0 && blockno < |refs| && refs[blockno] > 0
    }

    /** The lock holder changes b->data. */
    method SetData(b: nat, blockno: nat, data: Block)
      requires Valid() && b < NBUF && Owns(b, blockno)
      modifies this`view, this`buf
      ensures Valid() && Owns(b, blockno) && buf[b].data == data
      ensures view == old(view)[blockno := data]
      ensures forall i :: 0 <= i < NBUF && i != b ==> buf[i] == old(buf[i])
    {
      assert Holds(buf, home, A(), blockno);
      UpdateKeeps(buf, home, A(), b, buf[b].(data := data), A().(view := view[blockno := data]));
      buf := buf[b := buf[b].(data := data)];
      view := view[blockno := data];
      assert buf == old(buf)[b := buf[b]];
    }

    /** One device write of what the buffer has; without the lock the source panics. */
    method Bwrite(b: nat, blockno: nat)
      requires Valid() && b < NBUF && Owns(b, blockno)
      modifies this`disk, this`writes
      ensures Valid()
      ensures disk == old(disk)[blockno := view[blockno]]
      ensures writes == old(writes) + [Write(blockno, view[blockno])]
    {
      assert Holds(buf, home, A(), blockno);
      UpdateKeeps(buf, home, A(), b, buf[b],
                  A().(disk := disk[blockno := buf[b].data], writes := writes + [Write(blockno, buf[b].data)]));
      disk := disk[blockno := buf[b].data];
      writes := writes + [Write(blockno, buf[b].data)];
      assert buf == buf[b := buf[b]];
    }

    /** releasesleep. */
    method Unlock(b: nat, blockno: nat)
      requires Valid() && b < NBUF && Owns(b, blockno)
      modifies this`refs, this`locks, this`buf
      ensures Valid() && Caches(b, blockno) && refs == old(refs) && locks == old(locks)[blockno := false]
      ensures buf[b] == old(buf[b]).(locked := false)
      ensures forall i :: 0 <= i < NBUF && i != b ==> buf[i] == old(buf[i])
    {
      assert Holds(buf, home, A(), blockno);
      Update(b, buf[b].(locked := false), buf[b].refcnt, false);
      assert refs == old(refs);
    }

    /** Drop a reference; the last one moves the buffer to the front of the LRU list. Whoever changed the
        block must have written it or left it pinned. */
    method Unref(b: nat, blockno: nat)
      requires Valid() && b < NBUF && Caches(b, blockno)
      requires refs[blockno] == 1 ==> view[blockno] == disk[blockno] && !locks[blockno]
      modifies this`order, this`refs, this`locks, this`buf, this`next, this`prev
      ensures Valid() && refs == Bump(old(refs), blockno, -1) && locks == old(locks)
      ensures forall i :: 0 <= i < NBUF && i != b ==> buf[i] == old(buf[i])
      ensures refs[blockno] > 0 ==> order == old(order)
      ensures refs[blockno] == 0 ==> exists k :: 0 <= k < |old(order)| && old(order)[k] == b
                                              && order == [b] + Without(old(order), k)
    {
      assert Holds(buf, home, A(), blockno);
      var x := buf[b].(refcnt := buf[b].refcnt - 1);
      Update(b, x, x.refcnt, x.locked);
      assert locks == old(locks);
      if x.refcnt == 0 {
        MoveToFront(b);
      }
    }

    /** Unlock and drop a reference. */
    method Brelse(b: nat, blockno: nat)
      requires Valid() && b < NBUF && Owns(b, blockno) && blockno < |disk|
      requires refs[blockno] == 1 ==> view[blockno] == disk[blockno]
      modifies this`order, this`refs, this`locks, this`buf, this`next, this`prev
      ensures Valid()
      ensures refs == Bump(old(refs), blockno, -1)
      ensures locks == old(locks)[blockno := false]
      ensures forall i :: 0 <= i < NBUF && i != b ==> buf[i] == old(buf[i])
      ensures refs[blockno] > 0 ==> order == old(order)
      ensures refs[blockno] == 0 ==> exists k :: 0 <= k < |old(order)| && old(order)[k] == b
                                              && order == [b] + Without(old(order), k)
    {
      hide IsCycle, Represents;
      Unlock(b, blockno);
      Unref(b, blockno);
    }

    /** The list surgery of brelse. */
    method MoveToFront(b: nat)
      requires IsCycle(L(), order) && b < NBUF && b in order
      modifies this`order, this`next, this`prev
      ensures IsCycle(L(), order)
      ensures exists k :: 0 <= k < |old(order)| && old(order)[k] == b && order == [b] + Without(old(order), k)
      ensures forall c :: c in order <==> c in old(order)
    {
      ghost var l := L();
      ghost var k :| 0 <= k < |order| && order[k] == b;
      UnlinkKeepsCycle(l, order, k);
      prev := prev[next[b] := prev[b]];
      next := next[prev[b] := next[b]];
      assert L() == Unlink(l, b);
      order := Without(order, k);
      LinkFront(b);
    }

    method Bpin(b: nat, blockno: nat)
      requires Valid() && b < NBUF && Owns(b, blockno)
      modifies this`refs, this`locks, this`buf
      ensures Valid() && Owns(b, blockno) && locks == old(locks)
      ensures refs == Bump(old(refs), blockno, 1)
      ensures forall i :: 0 <= i < NBUF && i != b ==> buf[i] == old(buf[i])
    {
      assert Holds(buf, home, A(), blockno);
      var x := buf[b].(refcnt := buf[b].refcnt + 1);
      Update(b, x, x.refcnt, true);
    }

    /** The caller keeps its own reference; the pin it drops is a second one. */
    method Bunpin(b: nat, blockno: nat)
      requires Valid() && b < NBUF && Owns(b, blockno) && refs[blockno] > 1
      modifies this`refs, this`locks, this`buf
      ensures Valid() && Owns(b, blockno) && locks == old(locks)
      ensures refs == Bump(old(refs), blockno, -1)
      ensures forall i :: 0 <= i < NBUF && i != b ==> buf[i] == old(buf[i])
    {
      assert Holds(buf, home, A(), blockno);
      var x := buf[b].(refcnt := buf[b].refcnt - 1);
      Update(b, x, x.refcnt, true);
    }

    // ---- the pattern of write_log and install_trans: copy one block to another and write it ----

    /** Read both blocks, in either order; the first bread may panic. */
    method BreadBoth(src: nat, dst: nat, dstFirst: bool) returns (ok: bool, from: nat, to: nat)
      requires Valid() && CanCopy(A(), src, dst, dstFirst, false)
      modifies this`home, this`refs, this`locks, this`buf
      ensures Valid() && Keeps(old(home), old(refs), home)
      ensures ok <==> |Busy(old(refs))| < NBUF || old(refs[if dstFirst then dst else src]) > 0
      ensures !ok ==> A() == old(A())
      ensures ok ==> from < NBUF && to < NBUF && Owns(from, src) && Owns(to, dst) && buf[from].data == view[src]
      ensures ok ==> refs == Bump(Bump(old(refs), src, 1), dst, 1) && locks == old(locks)[src := true][dst := true]
    {
      hide IsCycle, Represents;
      var x, y := if dstFirst then dst else src, if dstFirst then src else dst;
      HoldsAt(buf, home, A(), x);
      BusyAdd(refs, x, y);
      ghost var h0, r0 := home, refs;
      from, to := 0, 0;
      var r, _ := Bread(ROOTDEV, x);
      ok := r.Some?;
      if !ok {
        return;
      }
      ghost var h1, r1 := home, refs;
      var s, _ := Bread(ROOTDEV, y);
      KeepsOn(h0, r0, h1, r1, home);
      BumpCommutes(old(refs), src, dst);
      SetBack(old(locks), src, dst);
      from, to := if dstFirst then s.value else r.value, if dstFirst then r.value else s.value;
    }

    /** memmove(to->data, from->data, BSIZE); bwrite(to) */
    method CopyAndWrite(from: nat, src: nat, to: nat, dst: nat)
      requires Valid() && src != dst && from < NBUF && to < NBUF && Owns(from, src) && Owns(to, dst)
      requires src < |disk| && dst < |disk| && buf[from].data == view[src]
      modifies this`view, this`disk, this`writes, this`buf
      ensures Valid() && Owns(from, src) && Owns(to, dst)
      ensures view == old(view)[dst := old(view[src])] && disk == old(disk)[dst := old(view[src])]
      ensures writes == old(writes) + [Write(dst, old(view[src]))]
    {
      SetData(to, dst, buf[from].data);
      Bwrite(to, dst);
    }

    /** bunpin(to) if asked to; brelse(from); brelse(to) */
    method BrelseBoth(from: nat, src: nat, to: nat, dst: nat, unpin: bool)
      requires Valid() && src != dst && from < NBUF && to < NBUF && Owns(from, src) && Owns(to, dst)
      requires src < |disk| && dst < |disk| && view[dst] == disk[dst]
      requires refs[src] == 1 ==> view[src] == disk[src]
      requires unpin ==> refs[dst] > 1
      modifies this`order, this`refs, this`locks, this`buf, this`next, this`prev
      ensures Valid()
      ensures refs == Bump(Bump(old(refs), src, -1), dst, if unpin then -2 else -1)
      ensures locks == old(locks)[src := false][dst := false]
    {
      hide IsCycle, Represents;
      if unpin {
        Bunpin(to, dst);
      }
      Brelse(from, src);
      Brelse(to, dst);
    }

    /** One turn of write_log (dstFirst) or of install_trans: read both blocks, copy, write the copy,
        drop the pin if asked to, release. The first bread panics when there is no buffer. */
    method CopyBlock(src: nat, dst: nat, dstFirst: bool, unpin: bool) returns (ok: bool)
      requires Valid() && CanCopy(A(), src, dst, dstFirst, unpin)
      modifies this
      ensures Valid() && Keeps(old(home), old(refs), home)
      ensures ok <==> |Busy(old(refs))| < NBUF || old(refs[if dstFirst then dst else src]) > 0
      ensures A() == if ok then Copy(old(A()), src, dst, if unpin then 1 else 0) else old(A())
    {
      hide IsCycle, Represents;
      HoldsAt(buf, home, A(), src);
      ghost var r, l := refs, locks;
      var from, to;
      ok, from, to := BreadBoth(src, dst, dstFirst);
      if !ok {
        return;
      }
      CopyAndWrite(from, src, to, dst);
      BrelseBoth(from, src, to, dst, unpin);
      BumpBack(r, src, dst, if unpin then -2 else -1);
      SetBack(l, src, dst);
    }
  }
}
