/** kalloc.c and the user-memory half of vm.c: the code, step by step, on one machine state. */
module Vm {
  import opened Common
  import opened Frames
  import opened EagerSpec
  import opened EagerRuns
  import opened KernelPages

  /** Copy the page of k to the kernel's page `mem`, and point its PTE there, writable. */
  function Repoint(m: Mem, k: Key, mem: nat): (r: Mem)
    requires Mapped(m, k) && mem < |m.count|
  {
    var pa := m.pt[k].frame;
    Mem(m.count, m.data[mem := m.data[pa]], m.free, m.procs, m.pt[k := m.pt[k].(w := true, cow := false, frame := mem)],
        m.owners[pa := m.owners[pa] - {k}][mem := {k}], m.held - {mem})
  }

  predicate CanSplit(m: Mem, k: Key) {
    && Mapped(m, k) && FreeOk(m) && m.free != []
    && m.count[m.pt[k].frame] > 0 && m.free[0] != m.pt[k].frame
  }

  /** cowalloc's split: a private copy takes the place of the shared page. */
  function Split(m: Mem, k: Key): (r: Mem)
    requires CanSplit(m, k)
  {
    Release(Repoint(Alloc(m), k, m.free[0]), m.pt[k].frame)
  }

  /** The same, as unmapping the old page and mapping a new one with its contents. */
  lemma SplitIsRemap(m: Mem, k: Key)
    requires CanSplit(m, k)
    ensures Split(m, k) ==
            MapNew(Unmap(Alloc(m), k), k, m.pt[k].(w := true, cow := false, frame := m.free[0]), m.data[m.pt[k].frame])
  {
    var f, g := m.pt[k].frame, m.free[0];
    var l := MapNew(Unmap(Alloc(m), k), k, m.pt[k].(w := true, cow := false, frame := g), m.data[f]);
    assert Split(m, k).data == l.data;
    assert Split(m, k).pt == l.pt;
  }

  lemma SplitReady(m: Mem, k: Key)
    requires Inv(m) && k in m.pt && m.free != []
    ensures CanSplit(m, k) && Inv(Alloc(m)) && Inv(Unmap(Alloc(m), k)) && m.free[0] in Unmap(Alloc(m), k).held
  {
    MappedCount(m, k);
    AllocInv(m);
    MappedCount(Alloc(m), k);
    UnmapInv(Alloc(m), k);
  }

  lemma SplitInv(m: Mem, k: Key)
    requires Inv(m) && k in m.pt && m.free != []
    ensures CanSplit(m, k) && Inv(Split(m, k))
  {
    hide Inv;
    SplitReady(m, k);
    SplitOwner(m, k);
    SplitIsRemap(m, k);
    MapNewInv(Unmap(Alloc(m), k), k, m.pt[k].(w := true, cow := false, frame := m.free[0]), m.data[m.pt[k].frame]);
  }

  /** A split is invisible: each process still has the page it had. */
  lemma SplitAbs(m: Mem, k: Key)
    requires Inv(m) && k in m.pt && m.free != [] && m.pt[k].cow && CanSplit(m, k)
    ensures Abs(Split(m, k)) == Abs(m)
  {
    var r := Split(m, k);
    assert r.pt.Keys == m.pt.Keys;
    forall l | l in m.pt ensures View(r.pt[l], r.data) == View(m.pt[l], m.data) { SplitSame(m, k, l); }
  }

  lemma SplitSame(m: Mem, k: Key, l: Key)
    requires Inv(m) && k in m.pt && m.free != [] && m.pt[k].cow && CanSplit(m, k) && l in m.pt
    ensures l in Split(m, k).pt && View(Split(m, k).pt[l], Split(m, k).data) == View(m.pt[l], m.data)
  {
    var pa, mem := m.pt[k].frame, m.free[0];
    assert FrameOk(m, pa) && FrameOk(m, mem) && PteOk(m, k) && PteOk(m, l);
    if l != k && m.pt[l].frame == pa { SubsetSize({k, l}, m.owners[pa]); }
  }

  lemma SplitOwner(m: Mem, k: Key)
    requires Inv(m) && k in m.pt
    ensures k.p in m.procs && m.pt[k].r
  {
    assert PteOk(m, k);
  }

  lemma DropNone(a: Eager, p: nat, lo: nat)
    ensures Drop(a, p, lo, lo) == a
  {
  }

  lemma DropOne(a: Eager, p: nat, lo: nat, hi: nat)
    requires lo <= hi
    ensures Drop(a, p, lo, hi) - {Key(p, hi)} == Drop(a, p, lo, hi + 1)
    ensures Key(p, hi) !in a ==> Drop(a, p, lo, hi) == Drop(a, p, lo, hi + 1)
  {
  }

  /** Fork gives the child exactly the parent's pages and leaves everyone else's alone. */
  lemma {:induction false} ForkCopies(a: Eager, p: nat, c: nat, n: nat, k: Key)
    requires p != c && forall l :: l in a ==> l.p != c
    ensures k in Fork(a, p, c, n) <==> if k.p == c then k.v < n && Key(p, k.v) in a else k in a
    ensures k in Fork(a, p, c, n) ==> Fork(a, p, c, n)[k] == if k.p == c then a[Key(p, k.v)] else a[k]
    decreases n
  {
    if n > 0 {
      ForkCopies(a, p, c, n - 1, k);
      ForkCopies(a, p, c, n - 1, Key(p, n - 1));
    }
  }

  lemma GrowOne(a: Eager, p: nat, lo: nat, hi: nat, w: bool, x: bool)
    requires lo <= hi
    ensures Grow(a, p, lo, hi + 1, w, x) == Grow(a, p, lo, hi, w, x)[Key(p, hi) := OwnPage(Fill(0), true, w, x, true)]
  {
  }

  /** Growing over unmapped pages is undone by dropping them. */
  lemma {:induction false} GrowUndone(a: Eager, p: nat, lo: nat, hi: nat, w: bool, x: bool)
    requires lo <= hi && forall v :: v >= lo ==> Key(p, v) !in a
    ensures Drop(Grow(a, p, lo, hi, w, x), p, lo, hi) == a
    decreases hi - lo
  {
    if lo < hi { GrowUndone(a, p, lo, hi - 1, w, x); }
  }

  class Machine {
    const nframes: nat
    var refCount: seq<nat>
    var data: seq<Page>
    var freelist: seq<nat>
    var pt: map<Key, Pte>       // the user part of every page table
    var size: map<nat, nat>     // p->sz of every process
    var kern: Kern              // trapframes, page-table pages, other kernel pages
    ghost var owners: seq<set<Key>>
    ghost var held: set<nat>

    ghost function M(): Mem
      reads this
    {
      Mem(refCount, data, freelist, size.Keys, pt, owners, held)
    }

    ghost predicate Valid()
      reads this
    {
      Inv(M()) && |refCount| == nframes
    }

    /** A process maps nothing at or above its size, which stays below the trapframe. */
    ghost predicate Bounded()
      reads this
    {
      Within(pt.Keys, size)
    }

    /** The kernel's frames are all accounted for, and every process and page has those it needs. */
    ghost predicate Kernel()
      reads this
    {
      Accounts(kern, held, {}) && Shaped(kern, size.Keys) && Covered(kern, size.Keys, pt.Keys)
    }

    ghost predicate Good()
      reads this
    {
      Valid() && Bounded() && Kernel()
    }

    ghost function A(): Eager
      reads this
    {
      Abs(M())
    }

    lemma NoUses()
      requires pt == map[] && size == map[] && held == {} && kern == map[]
      ensures Kernel() && Bounded()
    {
    }

    /** kinit: every frame is given count 1 and freed. */
    constructor (nframes: nat)
      ensures this.nframes == nframes && Good() && |freelist| == nframes && pt == map[] && size == map[] && kern == map[]
    {
      this.nframes := nframes;
      refCount, data := seq(nframes, i => 0), seq(nframes, i => Fill(0));
      freelist, pt, size, kern := [], map[], map[], map[];
      owners, held := seq(nframes, i => {}), {};
      new;
      var f := 0;
      while f < nframes
        invariant 0 <= f <= nframes == |refCount| == |data| == |owners| && |freelist| == f
        invariant forall i :: 0 <= i < f ==> freelist[i] == f - 1 - i
        invariant forall i :: 0 <= i < nframes ==> refCount[i] == 0 && owners[i] == {}
        invariant pt == map[] && size == map[] && held == {} && kern == map[]
      {
        refCount := refCount[f := 1];
        Kfree(f);
        f := f + 1;
      }
      forall i | 0 <= i < nframes ensures FrameOk(M(), i) { assert freelist[nframes - 1 - i] == i; }
      NoUses();
    }

    /** Drop one reference; the last one junks the page and puts it on the free list. */
    method Kfree(f: nat)
      requires Sized(M()) && f < |refCount| && refCount[f] > 0
      modifies this`refCount, this`data, this`freelist
      ensures M() == Release(old(M()), f)
    {
      refCount := refCount[f := refCount[f] - 1];
      if refCount[f] > 0 {
        return;
      }
      data := data[f := Fill(1)];
      freelist := [f] + freelist;
    }

    /** One page, now the kernel's, or None. */
    method Kalloc() returns (r: Option<nat>)
      requires Valid()
      modifies this`refCount, this`data, this`freelist, this`held
      ensures Valid() && A() == old(A())
      ensures r.None? <==> old(freelist) == []
      ensures r.None? ==> M() == old(M())
      ensures r.Some? ==> r.value == old(freelist[0]) && r.value in held && r.value !in old(held) && M() == Alloc(old(M()))
    {
      if freelist == [] {
        return None;
      }
      NotHeld(M());
      AllocInv(M());
      AllocAbs(M());
      var f := freelist[0];
      freelist := freelist[1..];
      data := data[f := Fill(5)];
      refCount := refCount[f := 1];
      held := held + {f};
      r := Some(f);
    }

    /** kfree of a page that was never mapped. */
    method KfreeHeld(f: nat)
      requires Valid() && f in held
      modifies this`refCount, this`data, this`freelist, this`held
      ensures Valid() && A() == old(A()) && held == old(held) - {f} && freelist == [f] + old(freelist)
    {
      FreeHeldKeeps(M(), f);
      HeldOnce(M(), f);
      Kfree(f);
      held := held - {f};
    }

    /** Bytes of free memory: PGSIZE for every frame with count 0. */
    method Kfreemem() returns (bytes: nat)
      ensures bytes == PGSIZE * |freelist|
    {
      var count, r := 0, freelist;
      while r != []
        invariant count + |r| == |freelist|
        decreases |r|
      {
        count, r := count + 1, r[1..];
      }
      bytes := count * PGSIZE;
    }

    // ---- pages for the kernel's own use ----

    /** kalloc for use u; a page table is cleared. */
    method TakePage(u: Use, ghost spare: set<nat>) returns (ok: bool)
      requires Valid() && Accounts(kern, held, spare) && u !in kern
      modifies this`refCount, this`data, this`freelist, this`held, this`kern
      ensures Valid() && A() == old(A()) && Accounts(kern, held, spare) && (ok <==> old(freelist) != [])
      ensures !ok ==> unchanged(this)
      ensures ok ==> kern == old(kern)[u := old(freelist)[0]] && freelist == old(freelist)[1..]
    {
      hide Inv, Abs, Accounts;
      var r := Kalloc();
      if r.None? {
        return false;
      }
      AccountsAdd(kern, old(held), spare, u, r.value);
      if u.Table? {
        HeldFrame(M(), r.value);
        ClearKeeps(M(), r.value);
        data := data[r.value := Fill(0)];
      }
      kern := kern[u := r.value];
      ok := true;
    }

    /** kfree of the page of use u. */
    method GivePage(u: Use, ghost spare: set<nat>)
      requires Valid() && Accounts(kern, held, spare) && u in kern
      modifies this`refCount, this`data, this`freelist, this`held, this`kern
      ensures Valid() && A() == old(A()) && Accounts(kern, held, spare)
      ensures kern == old(kern) - {u} && freelist == [old(kern)[u]] + old(freelist)
    {
      hide Inv, Abs, Accounts;
      AccountsDrop(kern, held, spare, u);
      KfreeHeld(kern[u]);
      kern := kern - {u};
    }

    /** One turn of walk: the next table, allocated unless it is there. */
    method Descend(u: Use, ghost spare: set<nat>) returns (ok: bool)
      requires Valid() && Accounts(kern, held, spare) && Shaped(kern, size.Keys) && u.Table? && u.level < 2 && u.p in size
      requires Hangs(kern, u)
      modifies this`refCount, this`data, this`freelist, this`held, this`kern
      ensures Valid() && A() == old(A()) && Accounts(kern, held, spare) && Shaped(kern, size.Keys) && Grew(old(kern), kern, u.p)
      ensures ok <==> u in old(kern) || old(freelist) != []
      ensures kern.Keys == if ok then old(kern).Keys + {u} else old(kern).Keys
      ensures |freelist| == |old(freelist)| - if ok && u !in old(kern) then 1 else 0
    {
      hide Inv, Abs, Accounts, Shaped, Hangs;
      if u in kern {
        assert kern.Keys == kern.Keys + {u};
        return true;
      }
      ok := TakePage(u, spare);
      if ok {
        ShapedAdd(old(kern), size.Keys, u, kern[u]);
        assert kern.Keys == old(kern).Keys + {u};
      }
    }

    /** walk(pagetable of p, v * PGSIZE, 1): the level-1 page, then the level-0 page, as far as they are not
        there and there are frames for them. */
    method Walk(p: nat, v: nat, ghost spare: set<nat>) returns (ok: bool)
      requires Valid() && Accounts(kern, held, spare) && Shaped(kern, size.Keys) && p in size && v <= TOP
      modifies this`refCount, this`data, this`freelist, this`held, this`kern
      ensures Valid() && A() == old(A()) && Accounts(kern, held, spare) && Shaped(kern, size.Keys) && Grew(old(kern), kern, p)
      ensures ok <==> Lacks(old(kern), p, v) <= |old(freelist)|
      ensures ok ==> kern.Keys == old(kern).Keys + Tables(p, v)
      ensures ok ==> |freelist| == |old(freelist)| - Lacks(old(kern), p, v)
    {
      hide Inv, Abs, Accounts, Shaped, Grew, Hangs, Tables, Lacks;
      var upper, lower := Table(p, 1, v / ENTRIES / ENTRIES), Table(p, 0, v / ENTRIES);
      LacksIs(kern, p, v);
      HangsHere(kern, p, v);
      ok := Descend(upper, spare);
      if ok {
        HangsHere(kern, p, v);
        ghost var kern' := kern;
        ok := Descend(lower, spare);
        GrewTrans(old(kern), kern', kern, p);
      }
    }

    /** kalloc of a page for something else, such as a pipe. */
    method KallocOther() returns (r: Option<nat>)
      requires Valid() && Kernel()
      modifies this`refCount, this`data, this`freelist, this`held, this`kern
      ensures Valid() && Kernel() && A() == old(A()) && (r.Some? <==> old(freelist) != [])
      ensures r.Some? ==> r.value == old(freelist)[0] && Other(r.value) !in old(kern) && kern == old(kern)[Other(r.value) := r.value]
      ensures r.None? ==> unchanged(this)
    {
      hide Inv, Abs, Accounts, Shaped, Covered;
      r := Kalloc();
      if r.Some? {
        NotOther(kern, old(held), size.Keys, r.value);
        AccountsAdd(kern, old(held), {}, Other(r.value), r.value);
        ShapedAdd(kern, size.Keys, Other(r.value), r.value);
        CoveredOther(kern, kern[Other(r.value) := r.value], size.Keys, pt.Keys);
        kern := kern[Other(r.value) := r.value];
      }
    }

    /** kfree of such a page. */
    method KfreeOther(f: nat)
      requires Valid() && Kernel() && Other(f) in kern
      modifies this`refCount, this`data, this`freelist, this`held, this`kern
      ensures Valid() && Kernel() && A() == old(A()) && kern == old(kern) - {Other(f)} && |freelist| == |old(freelist)| + 1
    {
      hide Inv, Abs, Accounts, Shaped, Covered;
      ShapedDrop(kern, size.Keys, Other(f));
      CoveredOther(kern, kern - {Other(f)}, size.Keys, pt.Keys);
      GivePage(Other(f), {});
    }

    /** The second half of cowalloc, with a page in hand. */
    method SplitPage(k: Key)
      requires Valid() && k in pt && pt[k].cow && freelist != []
      modifies this`refCount, this`data, this`freelist, this`pt, this`owners, this`held
      ensures CanSplit(old(M()), k) && M() == Split(old(M()), k)
    {
      hide Inv, Abs;
      SplitReady(M(), k);
      ghost var m := M();
      var r := Kalloc();
      var mem, pa := r.value, pt[k].frame;
      data := data[mem := data[pa]];
      pt := pt[k := pt[k].(w := true, cow := false, frame := mem)];
      owners := owners[pa := owners[pa] - {k}][mem := {k}];
      held := held - {mem};
      Kfree(pa);
    }

    /** Break the sharing of a copy-on-write page before a store. */
    method Cowalloc(k: Key) returns (ok: bool)
      requires Valid()
      modifies this`refCount, this`data, this`freelist, this`pt, this`owners, this`held
      ensures Valid() && A() == old(A()) && pt.Keys == old(pt.Keys) && held == old(held)
      ensures ok <==> k in old(pt) && old(pt[k]).u && (old(pt[k]).w || (old(pt[k]).cow && old(freelist) != []))
      ensures ok ==> pt[k].w && pt[k].u && |freelist| >= |old(freelist)| - 1
      ensures !ok ==> M() == old(M())
    {
      hide Inv, Abs;
      if k !in pt || !pt[k].u {
        return false;
      }
      if pt[k].w {
        return true;
      }
      if !pt[k].cow {
        return false;
      }
      if freelist == [] {
        return false;
      }
      SplitInv(M(), k);
      SplitAbs(M(), k);
      NotHeld(M());
      SplitPage(k);
      ok := true;
    }

    /** kfree the page of a PTE and clear it. */
    method UnmapOne(k: Key)
      requires Valid() && k in pt
      modifies this`refCount, this`data, this`freelist, this`pt, this`owners
      ensures Valid() && A() == old(A()) - {k} && pt == old(pt) - {k}
    {
      hide Inv, Abs;
      MappedCount(M(), k);
      UnmapInv(M(), k);
      UnmapAbs(M(), k);
      var pa := pt[k].frame;
      Kfree(pa);
      pt := pt - {k};
      owners := owners[pa := owners[pa] - {k}];
    }

    /** uvmunmap(pagetable of p, v * PGSIZE, n, 1): missing pages are skipped. */
    method Uvmunmap(p: nat, v: nat, n: nat)
      requires Valid()
      modifies this`refCount, this`data, this`freelist, this`pt, this`owners
      ensures Valid() && A() == Drop(old(A()), p, v, v + n)
      ensures pt == map k | k in old(pt) && !(k.p == p && v <= k.v < v + n) :: old(pt[k])
    {
      hide Inv, Abs, Drop;
      DropNone(A(), p, v);
      var a := v;
      while a < v + n
        invariant v <= a <= v + n
        invariant Valid() && A() == Drop(old(A()), p, v, a)
        invariant pt == map k | k in old(pt) && !(k.p == p && v <= k.v < a) :: old(pt[k])
      {
        DropOne(old(A()), p, v, a);
        AbsKeys(old(M()), Key(p, a));
        if Key(p, a) in pt {
          UnmapOne(Key(p, a));
        }
        a := a + 1;
      }
    }

    // ---- processes come and go ----

    /** freewalk of what is below entry i of p's root: the level-0 pages, then the level-1 page. */
    method FreeBranch(p: nat, i: nat)
      requires Valid() && Accounts(kern, held, {}) && Shaped(kern, size.Keys) && Table(p, 1, i) in kern
      modifies this`refCount, this`data, this`freelist, this`held, this`kern
      ensures Valid() && A() == old(A()) && Accounts(kern, held, {}) && Shaped(kern, size.Keys)
      ensures kern == Pruned(old(kern), p, i, ENTRIES) - {Table(p, 1, i)}
    {
      hide Inv, Abs, Accounts, Shaped, Pruned;
      PruneNone(kern, p, i);
      for j := 0 to ENTRIES
        invariant Valid() && A() == old(A()) && Accounts(kern, held, {}) && Shaped(kern, size.Keys)
        invariant kern == Pruned(old(kern), p, i, j)
      {
        var u := Table(p, 0, ENTRIES * i + j);
        PruneStep(old(kern), p, i, j);
        if u in kern {
          ShapedDrop(kern, size.Keys, u);
          GivePage(u, {});
        } else {
          assert kern == kern - {u};
        }
      }
      PruneEnd(old(kern), p, i);
      ShapedDrop(kern, size.Keys, Table(p, 1, i));
      GivePage(Table(p, 1, i), {});
    }

    /** freewalk of p's root. */
    method Freewalk(p: nat)
      requires Valid() && Accounts(kern, held, {}) && Shaped(kern, size.Keys) && Table(p, 2, 0) in kern
      modifies this`refCount, this`data, this`freelist, this`held, this`kern
      ensures Valid() && A() == old(A()) && Accounts(kern, held, {}) && Shaped(kern, size.Keys)
      ensures kern == NoTables(old(kern), p)
    {
      hide Inv, Abs, Accounts, Shaped, Felled, Pruned, NoTables;
      FellNone(kern, p);
      for i := 0 to ENTRIES
        invariant Valid() && A() == old(A()) && Accounts(kern, held, {}) && Shaped(kern, size.Keys)
        invariant kern == Felled(old(kern), p, i)
      {
        FellStep(old(kern), size.Keys, p, i);
        if Table(p, 1, i) in kern {
          FreeBranch(p, i);
        }
      }
      FellEnd(old(kern), size.Keys, p);
      ShapedDrop(kern, size.Keys, Table(p, 2, 0));
      GivePage(Table(p, 2, 0), {});
    }

    /** freeproc: the trapframe, the user pages, the page table, the slot. */
    method Freeproc(p: nat)
      requires Valid() && Kernel() && p in size && forall k :: k in pt && k.p == p ==> k.v < Pages(size[p])
      modifies this
      ensures Valid() && Kernel() && size == old(size) - {p} && kern == Stripped(old(kern), p)
      ensures A() == Drop(old(A()), p, 0, Pages(old(size[p])))
      ensures pt == map k | k in old(pt) && k.p != p :: old(pt[k])
    {
      hide Inv, Abs, Accounts, Shaped, Covered, NoTables, Stripped;
      BasicsThere(kern, size.Keys, pt.Keys, p);
      ShapedDrop(kern, size.Keys, Trap(p));
      GivePage(Trap(p), {});
      Uvmunmap(p, 0, Pages(size[p]));
      Freewalk(p);
      StrippedIs(old(kern), p);
      CoveredLess(old(kern), size.Keys, old(pt).Keys, pt.Keys, p);
      ShapedLess(kern, size.Keys, p);
      DropSlot(p);
    }

    /** A slot of the process table is taken. */
    method AddSlot(c: nat)
      requires Valid() && c !in size && |size.Keys| < NPROC
      modifies this`size
      ensures Valid() && A() == old(A()) && size == old(size)[c := 0] && size.Keys == old(size).Keys + {c}
    {
      hide Inv, Abs;
      AddProc(M(), c);
      AbsProcs(M(), size.Keys + {c});
      size := size[c := 0];
      assert size.Keys == old(size).Keys + {c};
    }

    method DropSlot(c: nat)
      requires Valid() && c in size && forall k :: k in pt ==> k.p != c
      modifies this`size
      ensures Valid() && A() == old(A()) && size == old(size) - {c} && size.Keys == old(size).Keys - {c}
    {
      hide Inv, Abs;
      RemoveProc(M(), c);
      AbsProcs(M(), size.Keys - {c});
      size := size - {c};
      assert size.Keys == old(size).Keys - {c};
    }

    /** proc_pagetable: a root, and the tables for the trampoline, which serve for the trapframe too. */
    method ProcPagetable(c: nat) returns (ok: bool)
      requires Valid() && Accounts(kern, held, {}) && Shaped(kern, size.Keys) && c in size
      requires forall u :: u in kern && u.Table? ==> u.p != c
      modifies this`refCount, this`data, this`freelist, this`held, this`kern
      ensures Valid() && A() == old(A()) && Accounts(kern, held, {}) && Shaped(kern, size.Keys)
      ensures ok <==> |old(freelist)| >= 3
      ensures ok ==> kern.Keys == old(kern).Keys + {Table(c, 2, 0)} + Tables(c, TOP) && |freelist| == |old(freelist)| - 3
      ensures ok ==> forall u :: u in old(kern) ==> u in kern && kern[u] == old(kern)[u]
      ensures !ok ==> kern == old(kern)
    {
      hide Inv, Abs, Accounts, Shaped, Tables, NoTables, Lacks;
      var root := Table(c, 2, 0);
      ok := TakePage(root, {});
      if !ok {
        return;
      }
      ghost var kern' := kern;
      ShapedAdd(old(kern), size.Keys, root, kern[root]);
      LacksIs(kern, c, TOP);
      assert kern.Keys == old(kern).Keys + {root};
      ok := Walk(c, TOP, {});
      if !ok {
        ghost var kern'' := kern;
        Freewalk(c);
        TablesUndone(old(kern), kern'', c);
      }
    }

    /** allocproc's pages: the trapframe, then the page table. */
    method ProcPages(c: nat) returns (ok: bool)
      requires Valid() && Accounts(kern, held, {}) && Shaped(kern, size.Keys) && c in size
      requires forall u :: u in kern && !u.Other? ==> u.p != c
      modifies this`refCount, this`data, this`freelist, this`held, this`kern
      ensures Valid() && A() == old(A()) && Accounts(kern, held, {}) && Shaped(kern, size.Keys)
      ensures ok <==> |old(freelist)| >= 4
      ensures ok ==> kern.Keys == old(kern).Keys + Basics(c) && |freelist| == |old(freelist)| - 4
      ensures ok ==> forall u :: u in old(kern) ==> u in kern && kern[u] == old(kern)[u]
      ensures !ok ==> kern == old(kern)
    {
      hide Inv, Abs, Accounts, Shaped, Tables;
      ok := TakePage(Trap(c), {});
      if ok {
        ShapedAdd(old(kern), size.Keys, Trap(c), kern[Trap(c)]);
        ok := ProcPagetable(c);
        if !ok {
          ShapedDrop(kern, size.Keys, Trap(c));
          GivePage(Trap(c), {});
          assert kern == old(kern);
        } else {
          assert kern.Keys == old(kern).Keys + Basics(c);
        }
      }
    }

    /** allocproc: a slot, a trapframe, and a page table with the trampoline and the trapframe in it. */
    method Allocproc(c: nat) returns (ok: bool)
      requires Valid() && Kernel() && c !in size && |size.Keys| < NPROC
      modifies this`refCount, this`data, this`freelist, this`held, this`kern, this`size
      ensures Valid() && Kernel() && A() == old(A()) && (ok <==> |old(freelist)| >= 4)
      ensures ok ==> size == old(size)[c := 0] && |freelist| == |old(freelist)| - 4
      ensures ok ==> kern.Keys == old(kern).Keys + Basics(c) && forall u :: u in old(kern) ==> u in kern && kern[u] == old(kern)[u]
      ensures !ok ==> size == old(size) && kern == old(kern) && |freelist| == |old(freelist)|
    {
      hide Inv, Abs, Accounts, Shaped, Covered, Basics, UserFrames;
      NotItsOwn(kern, size.Keys, c);
      OthersPages(M(), c);
      ShapedMore(kern, size.Keys, c);
      AddSlot(c);
      ok := ProcPages(c);
      if ok {
        CoveredMore(old(kern), kern, old(size).Keys, pt.Keys, c);
      } else {
        ShapedLess(kern, size.Keys, c);
        DropSlot(c);
        SlotBack(old(size), c);
        FramesBack(old(M()), M());
        FreeSame(old(M()), M(), kern);
      }
    }

    /** One page of uvmcopy, whose PTE is protected and has its tables in the child: map the same frame in the
        child, count it. */
    method ShareOne(p: nat, c: nat, v: nat)
      requires Valid() && p != c && c in size && Key(p, v) in pt && Key(c, v) !in pt && !pt[Key(p, v)].w
      requires forall k :: k in pt && k.p == c ==> pt[k].frame != pt[Key(p, v)].frame
      modifies this`refCount, this`pt, this`owners
      ensures Valid() && A() == old(A())[Key(c, v) := old(A())[Key(p, v)]]
      ensures pt == old(pt)[Key(c, v) := old(pt[Key(p, v)])]
    {
      hide Inv, Abs;
      var k, l := Key(p, v), Key(c, v);
      MappedCount(M(), k);
      OwnersElsewhere(M(), k, c);
      ShareInv(M(), k, l);
      ShareAbs(M(), k, l);
      assert pt[k := Protect(pt[k])] == pt;
      pt := pt[l := pt[k]];
      var pa := pt[k].frame;
      refCount := refCount[pa := refCount[pa] + 1];
      owners := owners[pa := owners[pa] + {l}];
    }

    /** The parent's half: no more stores to the page without a fault. */
    method ProtectOne(k: Key)
      requires Valid() && k in pt
      modifies this`pt
      ensures Valid() && A() == old(A()) && pt == old(pt)[k := Protect(old(pt[k]))] && pt.Keys == old(pt).Keys && !pt[k].w
    {
      hide Inv, Abs;
      ProtectKeeps(M(), k);
      pt := pt[k := Protect(pt[k])];
    }

    /** What uvmcopy has done after i pages, starting from page table pt0, kernel pages kern0 and free0 free
        frames. */
    ghost predicate Copied(pt0: map<Key, Pte>, a0: Eager, kern0: Kern, free0: nat, p: nat, c: nat, i: nat)
      reads this
    {
      && Valid() && Kernel() && A() == Fork(a0, p, c, i) && Grew(kern0, kern, c) && Shared(pt0, pt, p, c, i)
      && kern.Keys == kern0.Keys + TablesFor(c, Present(pt0.Keys, p, i))
      && |freelist| == free0 - Missing(kern0, c, Present(pt0.Keys, p, i))
    }

    /** One turn of uvmcopy, for a page that p has. */
    method CopyTurn(p: nat, c: nat, i: nat, ghost pt0: map<Key, Pte>, ghost a0: Eager, ghost kern0: Kern, ghost free0: nat)
      returns (ok: bool)
      requires Copied(pt0, a0, kern0, free0, p, c, i) && p != c && c in size && i <= TOP && Key(p, i) in pt0
      requires forall k :: k in pt0 ==> k.p != c
      modifies this`refCount, this`data, this`freelist, this`pt, this`owners, this`held, this`kern
      ensures ok <==> Missing(kern0, c, Present(pt0.Keys, p, i + 1)) <= free0
      ensures ok ==> Copied(pt0, a0, kern0, free0, p, c, i + 1)
      ensures !ok ==> Valid() && Kernel() && A() == Fork(a0, p, c, i) && Grew(kern0, kern, c) && Shared(pt0, pt, p, c, i)
    {
      hide Inv, Abs, Accounts, Shaped, Covered, Grew, Missing, TablesFor, Tables, Present, Shared, Fork, Lacks;
      ForkStep(a0, p, c, i);
      SharedAt(pt0, pt, p, c, i);
      AbsKeys(M(), Key(p, i));
      PresentStep(pt0.Keys, p, i);
      MissingMore(kern0, kern, c, Present(pt0.Keys, p, i), i);
      SharedProtect(pt0, pt, p, c, i);
      ProtectOne(Key(p, i));
      ghost var kern', keys, pt' := kern, pt.Keys, pt;
      ok := Walk(c, i, {});
      GrewTrans(kern0, kern', kern, c);
      CoveredGrew(kern', kern, c, size.Keys, pt.Keys);
      if ok {
        FramesApart(M(), p, i);
        SharedElsewhere(pt0, pt, p, c, i);
        SharedNext(pt0, pt, p, c, i);
        ShareOne(p, c, i);
        CoveredKey(kern, size.Keys, keys, Key(c, i));
        KeysMore(pt', Key(c, i), pt[Key(c, i)]);
      }
    }

    /** uvmcopy(old, new, sz) for n pages: the child c shares every page of p copy-on-write. When there is no
        frame for one of the child's page-table pages, all its mappings are undone. */
    method Uvmcopy(p: nat, c: nat, n: nat) returns (ok: bool)
      requires Valid() && Kernel() && p != c && c in size && n <= TOP + 1 && forall k :: k in pt ==> k.p != c
      modifies this`refCount, this`data, this`freelist, this`pt, this`owners, this`held, this`kern
      ensures Valid() && Kernel() && Grew(old(kern), kern, c)
      ensures ok <==> Missing(old(kern), c, Present(old(pt).Keys, p, n)) <= |old(freelist)|
      ensures ok ==> A() == Fork(old(A()), p, c, n)
      ensures ok ==> forall k :: k in pt <==> k in old(pt) || (k.p == c && k.v < n && Key(p, k.v) in old(pt))
      ensures ok ==> kern.Keys == old(kern).Keys + TablesFor(c, Present(old(pt).Keys, p, n))
      ensures !ok ==> A() == old(A()) && pt.Keys == old(pt).Keys
      ensures SameFrames(old(pt), pt)
    {
      hide Inv, Abs, Accounts, Shaped, Covered, Grew, Missing, TablesFor, Tables, Present, Shared, Copied, SameFrames;
      var i := 0;
      ghost var pt0, a0, kern0, free0 := pt, A(), kern, |freelist|;
      CopiedNone(p, c);
      while i < n
        invariant 0 <= i <= n && Copied(pt0, a0, kern0, free0, p, c, i) && (i < n ==> i <= TOP)
        invariant Missing(kern0, c, Present(pt0.Keys, p, i)) <= free0
      {
        CopiedKeys(pt0, a0, kern0, free0, p, c, i);
        PresentStep(pt0.Keys, p, i);
        if Key(p, i) in pt {
          ok := CopyTurn(p, c, i, pt0, a0, kern0, free0);
          if !ok {
            PresentMono(pt0.Keys, p, i + 1, n);
            MissingMono(kern0, c, Present(pt0.Keys, p, i + 1), Present(pt0.Keys, p, n));
            ghost var pt1 := pt;
            Uvmunmap(c, 0, i);
            SharedUndone(pt0, pt1, pt, p, c, i);
            CoveredFewer(kern, size.Keys, pt1.Keys, pt.Keys);
            ForkUndone(old(M()), p, c, i);
            return;
          }
        } else {
          CopiedSkip(pt0, a0, kern0, free0, p, c, i);
        }
        i := i + 1;
      }
      CopiedEnd(pt0, a0, kern0, free0, p, c, n);
      ok := true;
    }

    lemma CopiedNone(p: nat, c: nat)
      requires Valid() && Kernel() && forall k :: k in pt ==> k.p != c
      ensures Copied(pt, A(), kern, |freelist|, p, c, 0) && Missing(kern, c, Present(pt.Keys, p, 0)) <= |freelist|
    {
      hide Inv, Abs, Accounts, Shaped, Covered, Missing, TablesFor;
      PresentNone(pt.Keys, p);
      MissingNone(kern, c);
    }

    lemma CopiedKeys(pt0: map<Key, Pte>, a0: Eager, kern0: Kern, free0: nat, p: nat, c: nat, i: nat)
      requires Copied(pt0, a0, kern0, free0, p, c, i) && p != c
      ensures Key(p, i) in pt <==> Key(p, i) in pt0
    {
    }

    lemma CopiedSkip(pt0: map<Key, Pte>, a0: Eager, kern0: Kern, free0: nat, p: nat, c: nat, i: nat)
      requires Copied(pt0, a0, kern0, free0, p, c, i) && Key(p, i) !in pt && Key(p, i) !in pt0
      ensures Copied(pt0, a0, kern0, free0, p, c, i + 1)
    {
      hide Inv, Accounts, Shaped, Covered, Missing, TablesFor, Grew;
      PresentStep(pt0.Keys, p, i);
      AbsKeys(M(), Key(p, i));
    }

    lemma CopiedEnd(pt0: map<Key, Pte>, a0: Eager, kern0: Kern, free0: nat, p: nat, c: nat, n: nat)
      requires Copied(pt0, a0, kern0, free0, p, c, n)
      ensures Valid() && Kernel() && A() == Fork(a0, p, c, n) && Grew(kern0, kern, c) && SameFrames(pt0, pt)
      ensures kern.Keys == kern0.Keys + TablesFor(c, Present(pt0.Keys, p, n))
      ensures forall k :: k in pt <==> k in pt0 || (k.p == c && k.v < n && Key(p, k.v) in pt0)
    {
    }

    /** kfork's memory half: allocproc, then uvmcopy; on failure the child is freed again. */
    method Kfork(p: nat, c: nat) returns (ok: bool)
      requires Good() && p in size && c !in size && |size.Keys| < NPROC
      modifies this
      ensures Good() && (ok <==> ForkNeeds(old(pt).Keys, p, c, Pages(old(size[p]))) <= |old(freelist)|)
      ensures ok ==> A() == Fork(old(A()), p, c, Pages(old(size[p]))) && size == old(size)[c := old(size[p])]
      ensures ok ==> kern.Keys == old(kern).Keys + Basics(c) + TablesFor(c, Present(old(pt).Keys, p, Pages(old(size[p]))))
      ensures !ok ==> A() == old(A()) && size == old(size) && kern == old(kern) && |freelist| == |old(freelist)|
    {
      hide Inv, Abs, Accounts, Shaped, Covered, Missing, TablesFor, Tables, Present, Basics, Fork, Stripped, Drop, Grew,
           SameFrames, UserFrames, Within, Pages;
      WithinAbove(pt.Keys, size, p);
      OthersPages(M(), c);
      NotItsOwn(kern, size.Keys, c);
      PagesFit(size[p]);
      ok := Allocproc(c);
      if !ok {
        return;
      }
      ChildNeeds(old(kern), kern, c, Present(pt.Keys, p, Pages(size[p])));
      ghost var kern' := kern;
      ok := Uvmcopy(p, c, Pages(size[p]));
      if ok {
        WithinFork(old(pt).Keys, pt.Keys, old(size), p, c);
        SizeSet(old(size), c, size[p]);
        size := size[c := size[p]];
      } else {
        ForgetChild(c, old(kern), kern');
        FramesBack(old(M()), M());
        SlotBack(old(size), c);
        FreeSame(old(M()), M(), kern);
      }
    }

    /** kfork's failure: freeproc of a child that has no pages. */
    method ForgetChild(c: nat, ghost kern0: Kern, ghost kern1: Kern)
      requires Valid() && Kernel() && c in size && size[c] == 0 && forall k :: k in pt ==> k.p != c
      requires kern1.Keys == kern0.Keys + Basics(c) && (forall u :: u in kern0 ==> u in kern1 && kern1[u] == kern0[u])
      requires Grew(kern1, kern, c) && forall u :: u in kern0 && !u.Other? ==> u.p != c
      modifies this
      ensures Valid() && Kernel() && size == old(size) - {c} && kern == kern0 && A() == old(A()) && pt == old(pt)
    {
      hide Inv, Abs, Accounts, Shaped, Covered, Basics, Stripped, Drop, Grew;
      DropNone(A(), c, 0);
      StrippedBack(kern0, kern1, kern, c);
      Freeproc(c);
      assert pt == old(pt);
    }

    /** exit and wait: free all of p's memory and its slot. */
    method Exit(p: nat)
      requires Good() && p in size
      modifies this
      ensures Good() && size == old(size) - {p} && kern == Stripped(old(kern), p)
      ensures A() == Drop(old(A()), p, 0, Pages(old(size[p])))
      ensures forall k :: k in A() ==> k.p != p
    {
      hide Inv, Abs, Accounts, Shaped, Covered, Within, Pages, Stripped, Drop;
      WithinAbove(pt.Keys, size, p);
      Freeproc(p);
      WithinLess(old(pt).Keys, pt.Keys, old(size), p);
      forall k | k in A() ensures k.p != p { AbsKeys(M(), k); }
    }

    /** kalloc, memset 0, mappages. When there is no frame for a page-table page, the page goes back; tables
        that could be allocated stay. */
    method MapZero(k: Key, w: bool, x: bool) returns (ok: bool)
      requires Valid() && Kernel() && k !in pt && k.p in size && k.v <= TOP
      modifies this`refCount, this`data, this`freelist, this`pt, this`owners, this`held, this`kern
      ensures Valid() && Kernel() && Grew(old(kern), kern, k.p)
      ensures ok <==> 1 + Lacks(old(kern), k.p, k.v) <= |old(freelist)|
      ensures ok ==> A() == old(A())[k := OwnPage(Fill(0), true, w, x, true)] && pt.Keys == old(pt).Keys + {k}
      ensures ok ==> pt[k].w == w && pt[k].u && kern.Keys == old(kern).Keys + Tables(k.p, k.v)
      ensures ok ==> |freelist| == |old(freelist)| - 1 - Lacks(old(kern), k.p, k.v)
      ensures !ok ==> A() == old(A()) && pt == old(pt)
    {
      hide Inv, Abs, Accounts, Shaped, Covered, Tables, Grew, Lacks;
      GrewNone(kern, k.p);
      var mem := Kalloc();
      if mem.None? {
        return false;
      }
      AccountsSpare(kern, old(held), mem.value);
      ok := Walk(k.p, k.v, {mem.value});
      CoveredGrew(old(kern), kern, k.p, size.Keys, pt.Keys);
      AccountsUnspare(kern, held, mem.value);
      if !ok {
        KfreeHeld(mem.value);
        return;
      }
      CoveredKey(kern, size.Keys, pt.Keys, k);
      MapHeld(k, mem.value, w, x);
    }

    /** A zeroed page of the kernel's becomes a user page. */
    method MapHeld(k: Key, mem: nat, w: bool, x: bool)
      requires Valid() && mem in held && k !in pt && k.p in size
      modifies this`data, this`pt, this`owners, this`held
      ensures Valid() && A() == old(A())[k := OwnPage(Fill(0), true, w, x, true)] && pt.Keys == old(pt).Keys + {k}
      ensures pt[k].w == w && pt[k].u && held == old(held) - {mem}
    {
      hide Inv, Abs;
      var pte := Pte(mem, true, w, x, true, false);
      HeldFrame(M(), mem);
      MapNewInv(M(), k, pte, Fill(0));
      MapNewAbs(M(), k, pte, Fill(0));
      KeysMore(pt, k, pte);
      data := data[mem := Fill(0)];
      pt := pt[k := pte];
      owners := owners[mem := {k}];
      held := held - {mem};
    }

    /** Unmap and free the pages that size newsz no longer covers. */
    method Uvmdealloc(p: nat, oldsz: nat, newsz: nat) returns (sz: nat)
      requires Valid()
      modifies this`refCount, this`data, this`freelist, this`pt, this`owners
      ensures Valid() && sz == Min(oldsz, newsz)
      ensures A() == Drop(old(A()), p, Pages(sz), Pages(oldsz))
      ensures pt == map k | k in old(pt) && !(k.p == p && Pages(sz) <= k.v < Pages(oldsz)) :: old(pt[k])
    {
      hide Inv, Abs;
      if newsz >= oldsz {
        DropNone(A(), p, Pages(oldsz));
        return oldsz;
      }
      DropNone(A(), p, Pages(newsz));
      if Pages(newsz) < Pages(oldsz) {
        var npages := Pages(oldsz) - Pages(newsz);
        Uvmunmap(p, Pages(newsz), npages);
      }
      sz := newsz;
    }

    /** uvmalloc's error exit: uvmdealloc of what it had mapped. */
    method UndoGrow(p: nat, lo: nat, a: nat, ghost was: Eager, w: bool, x: bool)
      requires Valid() && lo <= a && A() == Grow(was, p, lo, a, w, x)
      requires forall v :: v >= lo ==> Key(p, v) !in was
      modifies this`refCount, this`data, this`freelist, this`pt, this`owners
      ensures Valid() && A() == was
      ensures forall k :: k in pt <==> k in old(pt) && !(k.p == p && lo <= k.v < a)
    {
      hide Inv, Abs, Drop, Grow;
      WholePages(a);
      WholePages(lo);
      var _ := Uvmdealloc(p, a * PGSIZE, lo * PGSIZE);
      GrowUndone(was, p, lo, a, w, x);
    }

    /** What uvmalloc has done after mapping pages lo..a, starting from kern0 and free0 free frames. */
    ghost predicate Grown(a0: Eager, keys0: set<Key>, kern0: Kern, free0: nat, p: nat, lo: nat, a: nat, w: bool, x: bool)
      reads this
    {
      && lo <= a && Valid() && Kernel() && A() == Grow(a0, p, lo, a, w, x) && Grew(kern0, kern, p)
      && pt.Keys == keys0 + PagesOf(p, lo, a)
      && kern.Keys == kern0.Keys + TablesFor(p, Between(lo, a))
      && |freelist| == free0 - (a - lo) - Missing(kern0, p, Between(lo, a))
    }

    /** One turn of uvmalloc. */
    method GrowTurn(p: nat, a: nat, w: bool, x: bool,
                    ghost a0: Eager, ghost keys0: set<Key>, ghost kern0: Kern, ghost free0: nat, ghost lo: nat) returns (ok: bool)
      requires Grown(a0, keys0, kern0, free0, p, lo, a, w, x) && p in size && a <= TOP
      requires forall v :: v >= lo ==> Key(p, v) !in keys0
      modifies this`refCount, this`data, this`freelist, this`pt, this`owners, this`held, this`kern
      ensures ok <==> a + 1 - lo + Missing(kern0, p, Between(lo, a + 1)) <= free0
      ensures ok ==> Grown(a0, keys0, kern0, free0, p, lo, a + 1, w, x)
      ensures !ok ==> Valid() && Kernel() && A() == Grow(a0, p, lo, a, w, x) && Grew(kern0, kern, p) && pt == old(pt)
    {
      hide Inv, Abs, Accounts, Shaped, Covered, Grew, Missing, TablesFor, Tables, Grow, Lacks, Between, PagesOf;
      GrowOne(a0, p, lo, a, w, x);
      SpanStep(lo, a);
      PagesStep(p, lo, a);
      MissingMore(kern0, kern, p, Between(lo, a), a);
      ghost var kern' := kern;
      ok := MapZero(Key(p, a), w, x);
      GrewTrans(kern0, kern', kern, p);
    }

    /** Map zeroed pages from oldsz up to newsz, or nothing at all; returns 0 on failure. Page-table pages that
        were allocated on the way stay. */
    method Uvmalloc(p: nat, oldsz: nat, newsz: nat, w: bool, x: bool) returns (sz: nat)
      requires Valid() && Kernel() && p in size && newsz <= MAXVA && forall v :: v >= Pages(oldsz) ==> Key(p, v) !in pt
      modifies this`refCount, this`data, this`freelist, this`pt, this`owners, this`held, this`kern
      ensures Valid() && Kernel() && Grew(old(kern), kern, p)
      ensures newsz < oldsz ==> sz == oldsz && A() == old(A()) && pt == old(pt)
      ensures newsz >= oldsz && sz != 0 ==>
                && sz == newsz && Pages(oldsz) <= Pages(newsz)
                && A() == Grow(old(A()), p, Pages(oldsz), Pages(newsz), w, x)
                && pt.Keys == old(pt).Keys + PagesOf(p, Pages(oldsz), Pages(newsz))
      ensures newsz > oldsz ==> (sz != 0 <==> GrowNeeds(old(kern), p, oldsz, newsz) <= |old(freelist)|)
      ensures newsz >= oldsz && sz == 0 && newsz != 0 ==> A() == old(A()) && pt.Keys == old(pt).Keys
    {
      hide Inv, Abs, Drop, Grow, Pages, Accounts, Shaped, Covered, Grew, Missing, TablesFor, Tables, Grown, Between, PagesOf;
      GrewNone(kern, p);
      if newsz < oldsz {
        return oldsz;
      }
      var lo := Pages(oldsz);
      var a := lo;
      PagesMonotone(oldsz, newsz);
      ghost var a0, keys0, kern0, free0 := A(), pt.Keys, kern, |freelist|;
      GrownNone(p, lo, w, x);
      while a * PGSIZE < newsz
        invariant lo <= a <= Pages(newsz) && Grown(a0, keys0, kern0, free0, p, lo, a, w, x)
        invariant a - lo + Missing(kern0, p, Between(lo, a)) <= free0
        decreases Pages(newsz) - a
      {
        BelowPages(a, newsz);
        ghost var keys1 := pt.Keys;
        GrownKeys(a0, keys0, kern0, free0, p, lo, a, w, x);
        var ok := GrowTurn(p, a, w, x, a0, keys0, kern0, free0, lo);
        if !ok {
          SpanMono(lo, a + 1, Pages(newsz));
          MissingMono(kern0, p, Between(lo, a + 1), Between(lo, Pages(newsz)));
          AbsAbove(old(M()), p, lo);
          UndoGrow(p, lo, a, a0, w, x);
          PagesUndone(keys0, pt.Keys, p, lo, a);
          CoveredFewer(kern, size.Keys, keys1, pt.Keys);
          return 0;
        }
        a := a + 1;
      }
      BelowPages(a, newsz);
      GrownEnd(a0, keys0, kern0, free0, p, lo, a, w, x);
      sz := newsz;
    }

    lemma GrownNone(p: nat, lo: nat, w: bool, x: bool)
      requires Valid() && Kernel()
      ensures Grown(A(), pt.Keys, kern, |freelist|, p, lo, lo, w, x) && Missing(kern, p, Between(lo, lo)) <= |freelist|
    {
      hide Inv, Abs, Accounts, Shaped, Covered, Missing, TablesFor;
      GrowNone(A(), p, lo, w, x);
      MissingNone(kern, p);
      assert Between(lo, lo) == {} && pt.Keys + PagesOf(p, lo, lo) == pt.Keys;
    }

    lemma GrownKeys(a0: Eager, keys0: set<Key>, kern0: Kern, free0: nat, p: nat, lo: nat, a: nat, w: bool, x: bool)
      requires Grown(a0, keys0, kern0, free0, p, lo, a, w, x)
      ensures pt.Keys == keys0 + PagesOf(p, lo, a)
    {
    }

    lemma GrownEnd(a0: Eager, keys0: set<Key>, kern0: Kern, free0: nat, p: nat, lo: nat, a: nat, w: bool, x: bool)
      requires Grown(a0, keys0, kern0, free0, p, lo, a, w, x)
      ensures Valid() && Kernel() && A() == Grow(a0, p, lo, a, w, x) && Grew(kern0, kern, p) && pt.Keys == keys0 + PagesOf(p, lo, a)
    {
    }

    /** sbrk by n bytes; p->sz + n is computed in 64 bits. */
    method Growproc(p: nat, n: int) returns (ok: bool)
      requires Good() && p in size && -0x8000_0000 <= n < 0x8000_0000
      modifies this
      ensures Good() && Grew(old(kern), kern, p)
      ensures ok && n >= 0 ==> size == old(size)[p := old(size[p]) + n] && Pages(old(size[p])) <= Pages(size[p])
                               && A() == Grow(old(A()), p, Pages(old(size[p])), Pages(size[p]), true, false)
      ensures n < 0 ==> ok && size == old(size)[p := if old(size[p]) + n >= 0 then old(size[p]) + n else old(size[p])]
                        && A() == Drop(old(A()), p, Pages(size[p]), Pages(old(size[p])))
      ensures !ok ==> size == old(size) && A() == old(A())
      ensures n > 0 ==> (ok <==> CanGrow(old(kern), p, old(size[p]), n, |old(freelist)|))
      ensures n == 0 ==> ok
    {
      hide Inv, Abs, Drop, Grow, Pages, Accounts, Shaped, Covered, Grew, Missing, TablesFor, Tables, Within,
           PagesOf, Between, GrowNeeds;
      WithinAbove(pt.Keys, size, p);
      GrewNone(kern, p);
      var sz := size[p];
      if n > 0 {
        if sz + n > TRAPFRAME {
          return false;
        }
        sz := Uvmalloc(p, sz, sz + n, true, false);
        if sz == 0 {
          return false;
        }
        WithinGrow(old(pt).Keys, pt.Keys, size, p, sz);
      } else if n < 0 {
        var newsz := if sz + n >= 0 then sz + n else sz + n + 0x1_0000_0000_0000_0000;
        sz := Uvmdealloc(p, sz, newsz);
        WithinShrink(old(pt).Keys, pt.Keys, size, p, sz);
        CoveredFewer(kern, size.Keys, old(pt).Keys, pt.Keys);
      } else {
        GrowNone(A(), p, Pages(sz), true, false);
        WithinShrink(pt.Keys, pt.Keys, size, p, sz);
      }
      SizeKeys(size, p, sz);
      size := size[p := sz];
      ok := true;
    }

    /** sys_sbrk: eagerly, or as a promise to be kept when the memory is touched. Its answer is the size before,
        which is where the new memory begins. */
    method Sbrk(p: nat, n: int, lazily: bool) returns (ok: bool, addr: int)
      requires Good() && p in size && -0x8000_0000 <= n < 0x8000_0000
      modifies this
      ensures Good() && Grew(old(kern), kern, p)
      ensures ok <==> if lazily && n >= 0 then old(size[p]) + n <= TRAPFRAME
                      else n <= 0 || CanGrow(old(kern), p, old(size[p]), n, |old(freelist)|)
      ensures addr == if ok then old(size[p]) else -1
      ensures !ok ==> W() == old(W())
      ensures ok ==> W() == if lazily && n >= 0 then old(W()).(size := old(size)[p := old(size[p]) + n])
                            else Resized(old(W()), p, n)
    {
      hide Inv, Abs, Drop, Grow, Pages, Accounts, Shaped, Covered, Grew, Within, CanGrow;
      addr := size[p];
      if !lazily || n < 0 {
        ok := Growproc(p, n);
        if !ok {
          addr := -1;
        }
        return;
      }
      GrewNone(kern, p);
      if size[p] + n > TRAPFRAME {
        return false, -1;
      }
      SizeKeys(size, p, size[p] + n);
      WithinLazy(pt.Keys, size, p, size[p] + n);
      size := size[p := size[p] + n];
      ok := true;
    }

    /** A load, or the kernel on the process's behalf, touches a page that sbrklazy promised. */
    method Vmfault(p: nat, va: nat) returns (ok: bool)
      requires Good() && p in size
      modifies this`refCount, this`data, this`freelist, this`pt, this`owners, this`held, this`kern
      ensures Good() && Grew(old(kern), kern, p)
      ensures ok <==> va < size[p] && Key(p, va / PGSIZE) !in old(pt)
                      && 1 + Lacks(old(kern), p, va / PGSIZE) <= |old(freelist)|
      ensures ok ==> A() == Touch(old(A()), size[p], p, va / PGSIZE) && Key(p, va / PGSIZE) in pt
                     && pt[Key(p, va / PGSIZE)].w && pt[Key(p, va / PGSIZE)].u
                     && View(pt[Key(p, va / PGSIZE)], data) == OwnPage(Fill(0), true, true, false, true)
      ensures ok ==> kern.Keys == old(kern).Keys + Tables(p, va / PGSIZE)
                     && |freelist| == |old(freelist)| - 1 - Lacks(old(kern), p, va / PGSIZE)
      ensures !ok ==> A() == old(A()) && pt == old(pt)
    {
      hide Inv, Abs, Accounts, Shaped, Covered, Grew, Tables, Within, Pages, Lacks;
      GrewNone(kern, p);
      if va >= size[p] {
        return false;
      }
      var k := Key(p, va / PGSIZE);
      if k in pt {
        return false;
      }
      AbsKeys(M(), k);
      WithinAbove(pt.Keys, size, p);
      PageBelow(va, size[p]);
      PagesFit(size[p]);
      ok := MapZero(k, true, false);
      if ok {
        WithinKey(old(pt).Keys, size, k);
      }
      AbsAt(M(), k);
    }

    ghost function W(): World
      reads this
    {
      World(A(), size)
    }

    /** A user store to byte va: the hardware writes a writable page, otherwise it faults, usertrap
        calls cowalloc and the store is retried, or the process is killed. */
    method UserStore(p: nat, va: nat, b: Byte) returns (ok: bool)
      requires Valid()
      modifies this`refCount, this`data, this`freelist, this`pt, this`owners, this`held
      ensures Valid() && pt.Keys == old(pt.Keys) && held == old(held)
      ensures var k := Key(p, va / PGSIZE);
              && (ok <==> k in old(pt) && old(pt[k]).u && (old(pt[k]).w || (old(pt[k]).cow && old(freelist) != [])))
              && (ok ==> k in old(A()) && A() == old(A())[k := old(A())[k].(data := old(A())[k].data[va % PGSIZE := b])])
              && (!ok ==> A() == old(A()))
    {
      hide Inv, Abs;
      var k := Key(p, va / PGSIZE);
      if k in pt && pt[k].w && pt[k].u {
        ok := true;
      } else {
        ok := Cowalloc(k);
      }
      if ok {
        MappedCount(M(), k);
        AbsAt(M(), k);
        PokePage(k, data[pt[k].frame][va % PGSIZE := b]);
      }
    }

    /** Replace the contents of a writable page. */
    method PokePage(k: Key, page: Page)
      requires Valid() && k in pt && pt[k].w
      modifies this`data
      ensures Valid() && k in old(A()) && A() == old(A())[k := old(A())[k].(data := page)]
    {
      hide Inv, Abs;
      MappedCount(M(), k);
      AbsAt(M(), k);
      PokeInv(M(), k, page);
      PokeAbs(M(), k, page);
      data := data[pt[k].frame := page];
    }

    /** copyout can write to page v of p, perhaps after a fault. */
    ghost predicate CanWrite(p: nat, v: nat)
      requires p in size
      reads this
    {
      var k := Key(p, v);
      && v * PGSIZE < MAXVA
      && if k in pt then pt[k].u && (pt[k].w || (pt[k].cow && freelist != []))
         else v * PGSIZE < size[p] && 1 + Lacks(kern, p, v) <= |freelist|
    }

    /** One turn of copyout: fault the page in, split it if it is shared, write. */
    method CopyoutPage(p: nat, dstva: nat, bs: seq<Byte>) returns (ok: bool)
      requires Good() && p in size && dstva % PGSIZE + |bs| <= PGSIZE
      modifies this`refCount, this`data, this`freelist, this`pt, this`owners, this`held, this`kern
      ensures Good() && Grew(old(kern), kern, p)
      ensures ok <==> old(CanWrite(p, dstva / PGSIZE))
      ensures A() == if ok then PageOut(old(A()), size[p], p, dstva, bs) else old(A())
      ensures ok ==> kern.Keys == old(kern).Keys + Tables(p, dstva / PGSIZE) && Key(p, dstva / PGSIZE) in A()
      ensures ok ==> |freelist| >= |old(freelist)| - 1 - Lacks(old(kern), p, dstva / PGSIZE)
    {
      hide Inv, Abs, Accounts, Shaped, Covered, Grew, Tables, Lacks, Within;
      var k := Key(p, dstva / PGSIZE);
      GrewNone(kern, p);
      if k.v * PGSIZE >= MAXVA {
        return false;
      }
      AbsKeys(M(), k);
      if k in pt {
        CoveredLacks(kern, size.Keys, pt.Keys, k);
      }
      if k !in pt || !pt[k].u {
        PageStart(k.v);
        var faulted := Vmfault(p, k.v * PGSIZE);
        if !faulted {
          return false;
        }
      }
      if !pt[k].w {
        if !pt[k].cow {
          return false;
        }
        var split := Cowalloc(k);
        if !split {
          return false;
        }
      }
      MappedCount(M(), k);
      AbsAt(M(), k);
      PokePage(k, Put(data[pt[k].frame], dstva % PGSIZE, bs));
      ok := true;
    }

    lemma RoomHere(va: nat, len: nat, p: nat)
      requires p in size && len > 0 && RoomToWrite(A(), size[p], p, va, len, kern, |freelist|)
      ensures CanWrite(p, va / PGSIZE)
    {
      hide Abs, Lacks, Missing;
      AbsAt(M(), Key(p, va / PGSIZE));
      assert Writable(A(), size[p], p, va / PGSIZE);
      SpanNext(va, len, Min(PGSIZE - va % PGSIZE, len));
      MissingFirst(kern, p, va / PGSIZE, va / PGSIZE + Span(va, len));
    }

    /** Copy src to user address dstva. On failure a page-aligned prefix has been copied. The bytes copied are
        where they should be, and no other byte of any process has changed. */
    method Copyout(p: nat, dstva: nat, src: seq<Byte>) returns (ok: bool, done: nat)
      requires Good() && p in size
      modifies this`refCount, this`data, this`freelist, this`pt, this`owners, this`held, this`kern
      ensures Good() && Grew(old(kern), kern, p)
      ensures done <= |src| && (ok <==> done == |src|) && (!ok ==> done == 0 || (dstva + done) % PGSIZE == 0)
      ensures A() == Out(old(A()), size[p], p, dstva, src[..done])
      ensures IsAt(A(), p, dstva, src[..done]) && OnlyWritten(old(A()), A(), p, dstva, done)
      ensures RoomToWrite(old(A()), size[p], p, dstva, |src|, old(kern), |old(freelist)|) ==> ok
    {
      hide Inv, Abs, PageOut, Out, RoomToWrite, Writable, Accounts, Shaped, Covered, Grew, Tables, Lacks, Within,
           IsAt, OnlyWritten;
      var va, len, s := dstva, |src|, 0;
      done := 0;
      assert src[..0] == [];
      OutNone(A(), size[p], p, dstva);
      StartWrite(A(), p, dstva);
      GrewNone(kern, p);
      while len > 0
        invariant 0 <= s == done <= |src| && len == |src| - s && va == dstva + s
        invariant len > 0 ==> s == 0 || va % PGSIZE == 0
        invariant Good() && Grew(old(kern), kern, p)
        invariant A() == Out(old(A()), size[p], p, dstva, src[..done])
        invariant IsAt(A(), p, dstva, src[..done]) && OnlyWritten(old(A()), A(), p, dstva, done)
        invariant RoomToWrite(old(A()), size[p], p, dstva, |src|, old(kern), |old(freelist)|) ==>
                    RoomToWrite(A(), size[p], p, va, len, kern, |freelist|)
        decreases len
      {
        var n := PGSIZE - va % PGSIZE;
        if n > len {
          n := len;
        }
        OutNext(old(A()), size[p], p, dstva, src, s, n);
        if RoomToWrite(A(), size[p], p, va, len, kern, |freelist|) {
          RoomHere(va, len, p);
        }
        ghost var a, frames, kern' := A(), |freelist|, kern;
        var written := CopyoutPage(p, va, src[s..s + n]);
        GrewTrans(old(kern), kern', kern, p);
        if !written {
          return false, done;
        }
        if RoomToWrite(a, size[p], p, va, len, kern', frames) {
          RoomNext(a, size[p], p, va, len, kern', frames, src[s..s + n], kern, |freelist|);
        }
        WriteOn(old(A()), a, A(), size[p], p, dstva, src, s, n);
        len, s, va := len - n, s + n, va + n;
        done := s;
      }
      ok := true;
    }

    /** copyin's fault on a page that is not there. */
    method Touched(p: nat, v: nat) returns (ok: bool)
      requires Good() && p in size
      modifies this`refCount, this`data, this`freelist, this`pt, this`owners, this`held, this`kern
      ensures Good() && Grew(old(kern), kern, p)
      ensures ok ==> Key(p, v) in pt && A() == Touch(old(A()), size[p], p, v)
      ensures ok ==> kern.Keys == old(kern).Keys + Tables(p, v) && |freelist| >= |old(freelist)| - 1 - Lacks(old(kern), p, v)
      ensures !ok ==> A() == old(A())
      ensures !ok <==> if Key(p, v) in old(pt) then !old(pt[Key(p, v)]).u
                       else v * PGSIZE >= size[p] || 1 + Lacks(old(kern), p, v) > |old(freelist)|
    {
      hide Inv, Abs, Accounts, Shaped, Covered, Grew, Tables, Lacks, Within;
      var k := Key(p, v);
      AbsKeys(M(), k);
      GrewNone(kern, p);
      PageStart(v);
      if k !in pt || !pt[k].u {
        ok := Vmfault(p, k.v * PGSIZE);
      } else {
        CoveredLacks(kern, size.Keys, pt.Keys, k);
        ok := true;
      }
    }

    /** Copy len bytes from user address srcva. Pages promised by sbrklazy appear as they are read. */
    method Copyin(p: nat, srcva: nat, len: nat) returns (ok: bool, dst: seq<Byte>)
      requires Good() && p in size
      modifies this`refCount, this`data, this`freelist, this`pt, this`owners, this`held, this`kern
      ensures Good() && Grew(old(kern), kern, p)
      ensures OnlyTouched(old(A()), A(), p)
      ensures ok ==> |dst| == len && IsAt(A(), p, srcva, dst)
      ensures RoomToRead(old(A()), size[p], p, srcva, len, old(kern), |old(freelist)|) ==> ok
    {
      hide Inv, Abs, RoomToRead, IsAt, OnlyTouched, Touch, Accounts, Shaped, Covered, Grew, Tables, Lacks, Within;
      dst := [];
      StartRead(A(), p, srcva);
      GrewNone(kern, p);
      while |dst| < len
        invariant |dst| <= len
        invariant Good() && Grew(old(kern), kern, p) && OnlyTouched(old(A()), A(), p)
        invariant IsAt(A(), p, srcva, dst)
        invariant RoomToRead(old(A()), size[p], p, srcva, len, old(kern), |old(freelist)|) ==>
                    RoomToRead(A(), size[p], p, srcva + |dst|, len - |dst|, kern, |freelist|)
        decreases len - |dst|
      {
        var va := srcva + |dst|;
        var k := Key(p, va / PGSIZE);
        ghost var before, frames, kern' := A(), |freelist|, kern;
        AbsAt(M(), k);
        TouchOnly(before, size[p], p, k.v);
        ReadHere(before, size[p], p, va, len - |dst|, kern, frames);
        var there := Touched(p, k.v);
        GrewTrans(old(kern), kern', kern, p);
        TouchedTrans(old(A()), before, A(), p);
        if !there {
          return false, dst;
        }
        MappedCount(M(), k);
        AbsAt(M(), k);
        var n := Min(PGSIZE - va % PGSIZE, len - |dst|);
        var page := data[pt[k].frame];
        ReadRest(before, size[p], p, va, len - |dst|, kern', frames, n, kern, |freelist|);
        ReadOn(before, A(), p, srcva, dst, k, va % PGSIZE, n);
        assert srcva + (|dst| + n) == va + n && len - (|dst| + n) == len - |dst| - n;
        dst := dst + page[va % PGSIZE..va % PGSIZE + n];
      }
      ok := true;
    }
  }

  /** How many pages len bytes at va lie in. */
  function Span(va: nat, len: nat): (n: nat) {
    if len == 0 then 0 else (va + len - 1) / PGSIZE - va / PGSIZE + 1
  }

  /** The process may write page v, which exists or was promised by sbrklazy. */
  predicate Writable(a: Eager, sz: nat, p: nat, v: nat) {
    var k := Key(p, v);
    v * PGSIZE < MAXVA && if k in a then a[k].u && a[k].w else v * PGSIZE < sz
  }

  /** All of va..va + len may be written, and there are frames for its pages and their tables. */
  ghost predicate RoomToWrite(a: Eager, sz: nat, p: nat, va: nat, len: nat, kern: Kern, frames: nat) {
    && SpanNeeds(kern, p, va, len) <= frames
    && forall v :: va / PGSIZE <= v < va / PGSIZE + Span(va, len) ==> Writable(a, sz, p, v)
  }

  /** A frame for each page of va..va + len, and the tables that are not there. */
  ghost function SpanNeeds(kern: Kern, p: nat, va: nat, len: nat): (frames: nat) {
    Span(va, len) + Missing(kern, p, Between(va / PGSIZE, va / PGSIZE + Span(va, len)))
  }

  lemma MissingFirst(kern: Kern, p: nat, lo: nat, hi: nat)
    requires lo < hi
    ensures Missing(kern, p, Between(lo, hi)) >= Lacks(kern, p, lo)
  {
    assert lo in Between(lo, hi);
    SubsetSize(Tables(p, lo) - kern.Keys, TablesFor(p, Between(lo, hi)) - kern.Keys);
  }

  /** Once the first page has its tables, the rest need what is left. */
  lemma MissingRest(kern: Kern, kern': Kern, p: nat, lo: nat, hi: nat)
    requires lo < hi && kern'.Keys == kern.Keys + Tables(p, lo)
    ensures Missing(kern, p, Between(lo, hi)) == Lacks(kern, p, lo) + Missing(kern', p, Between(lo + 1, hi))
  {
    hide TablesFor, Tables, Between;
    BetweenFirst(lo, hi);
    TablesMore(p, Between(lo + 1, hi), lo);
    UnionCount(Tables(p, lo), TablesFor(p, Between(lo + 1, hi)), kern.Keys);
    Commutes(Tables(p, lo), TablesFor(p, Between(lo + 1, hi)));
  }

  lemma BetweenFirst(lo: nat, hi: nat)
    requires lo < hi
    ensures Between(lo, hi) == Between(lo + 1, hi) + {lo}
  {
  }

  lemma Commutes(a: set<Use>, b: set<Use>)
    ensures a + b == b + a
  {
  }

  /** The rest of a copy, after the first page has been seen to. */
  lemma NeedsRest(kern: Kern, kern': Kern, p: nat, va: nat, len: nat, n: nat)
    requires 0 < n <= len && n == Min(PGSIZE - va % PGSIZE, len) && kern'.Keys == kern.Keys + Tables(p, va / PGSIZE)
    ensures SpanNeeds(kern, p, va, len) == 1 + Lacks(kern, p, va / PGSIZE) + SpanNeeds(kern', p, va + n, len - n)
  {
    hide Tables, Lacks, Missing, Between;
    SpanNext(va, len, n);
    var v := va / PGSIZE;
    MissingRest(kern, kern', p, v, v + Span(va, len));
    if len == n {
      BetweenNone((va + n) / PGSIZE);
      BetweenNone(v + 1);
      MissingNone(kern', p);
    }
  }

  lemma BetweenNone(lo: nat)
    ensures Between(lo, lo) == {}
  {
  }

  lemma SpanNext(va: nat, len: nat, n: nat)
    requires 0 < n <= len && n == Min(PGSIZE - va % PGSIZE, len)
    ensures Span(va, len) >= 1 && Span(va + n, len - n) == Span(va, len) - 1
    ensures len > n ==> (va + n) / PGSIZE == va / PGSIZE + 1
  {
  }

  /** After the first page of a copy there is room for the rest. */
  lemma RoomNext(a: Eager, sz: nat, p: nat, va: nat, len: nat, kern: Kern, frames: nat, bs: seq<Byte>, kern': Kern, left: nat)
    requires RoomToWrite(a, sz, p, va, len, kern, frames)
    requires kern'.Keys == kern.Keys + Tables(p, va / PGSIZE) && left >= frames - 1 - Lacks(kern, p, va / PGSIZE)
    requires 0 < |bs| <= len && |bs| == Min(PGSIZE - va % PGSIZE, len)
    ensures va % PGSIZE + |bs| <= PGSIZE
    ensures RoomToWrite(PageOut(a, sz, p, va, bs), sz, p, va + |bs|, len - |bs|, kern', left)
  {
    hide SpanNeeds, Tables, Lacks;
    var n := |bs|;
    SpanNext(va, len, n);
    NeedsRest(kern, kern', p, va, len, n);
    forall v | (va + n) / PGSIZE <= v < (va + n) / PGSIZE + Span(va + n, len - n)
      ensures Writable(PageOut(a, sz, p, va, bs), sz, p, v)
    {
      assert v != va / PGSIZE && Writable(a, sz, p, v);
    }
  }

  predicate Readable(a: Eager, sz: nat, p: nat, v: nat) {
    var k := Key(p, v);
    if k in a then a[k].u else v * PGSIZE < sz
  }

  ghost predicate RoomToRead(a: Eager, sz: nat, p: nat, va: nat, len: nat, kern: Kern, frames: nat) {
    && SpanNeeds(kern, p, va, len) <= frames
    && forall v :: va / PGSIZE <= v < va / PGSIZE + Span(va, len) ==> Readable(a, sz, p, v)
  }

  lemma ReadHere(a: Eager, sz: nat, p: nat, va: nat, len: nat, kern: Kern, frames: nat)
    requires len > 0
    ensures RoomToRead(a, sz, p, va, len, kern, frames) ==>
      Readable(a, sz, p, va / PGSIZE) && 1 + Lacks(kern, p, va / PGSIZE) <= frames
  {
    hide Lacks, Missing;
    SpanNext(va, len, Min(PGSIZE - va % PGSIZE, len));
    MissingFirst(kern, p, va / PGSIZE, va / PGSIZE + Span(va, len));
  }

  /** After the first page of a read there is room for the rest. */
  lemma ReadRest(a: Eager, sz: nat, p: nat, va: nat, len: nat, kern: Kern, frames: nat, n: nat, kern': Kern, left: nat)
    requires len > 0 && n == Min(PGSIZE - va % PGSIZE, len)
    requires kern'.Keys == kern.Keys + Tables(p, va / PGSIZE) && left >= frames - 1 - Lacks(kern, p, va / PGSIZE)
    ensures RoomToRead(a, sz, p, va, len, kern, frames) ==>
              RoomToRead(Touch(a, sz, p, va / PGSIZE), sz, p, va + n, len - n, kern', left)
  {
    hide SpanNeeds, Tables, Lacks;
    SpanNext(va, len, n);
    NeedsRest(kern, kern', p, va, len, n);
    if RoomToRead(a, sz, p, va, len, kern, frames) {
      forall v | (va + n) / PGSIZE <= v < (va + n) / PGSIZE + Span(va + n, len - n)
        ensures Readable(Touch(a, sz, p, va / PGSIZE), sz, p, v)
      {
        assert Readable(a, sz, p, v);
      }
    }
  }

  lemma StartRead(a: Eager, p: nat, va: nat)
    ensures IsAt(a, p, va, []) && OnlyTouched(a, a, p)
  {
  }

  lemma TouchOnly(a: Eager, sz: nat, p: nat, v: nat)
    ensures OnlyTouched(a, Touch(a, sz, p, v), p) && OnlyTouched(a, a, p) && (Key(p, v) in a ==> Touch(a, sz, p, v) == a)
  {
  }

  lemma TouchedTrans(a: Eager, b: Eager, c: Eager, p: nat)
    requires OnlyTouched(a, b, p) && OnlyTouched(b, c, p)
    ensures OnlyTouched(a, c, p)
  {
  }

  predicate HasByte(a: Eager, p: nat, x: nat, b: Byte) {
    Key(p, x / PGSIZE) in a && b == a[Key(p, x / PGSIZE)].data[x % PGSIZE]
  }

  /** The eager machine holds bs at address va of p. */
  ghost predicate IsAt(a: Eager, p: nat, va: nat, bs: seq<Byte>) {
    forall i :: 0 <= i < |bs| ==> HasByte(a, p, va + i, bs[i])
  }

  /** b is a, except that some pages of p that did not exist are now zeroed pages. */
  ghost predicate OnlyTouched(a: Eager, b: Eager, p: nat) {
    && (forall k :: k in a ==> k in b && b[k] == a[k])
    && (forall k :: k in b && k !in a ==> k.p == p && b[k] == OwnPage(Fill(0), true, true, false, true))
  }

  /** From a to b bytes va..va + n of p may have changed, and pages of p there may have appeared, with zeros
      around the bytes. */
  ghost predicate OnlyWritten(a: Eager, b: Eager, p: nat, va: nat, n: nat) {
    && (forall k :: k in a ==> k in b && b[k] == a[k].(data := b[k].data))
    && (forall k :: k in b && k !in a ==>
          k.p == p && n > 0 && va / PGSIZE <= k.v <= (va + n - 1) / PGSIZE && b[k] == OwnPage(b[k].data, true, true, false, true))
    && forall q: nat, x: nat :: !(q == p && va <= x < va + n) ==> SameByte(a, b, q, x)
  }

  /** Byte x of q is as it was, or zero if it was not there. */
  predicate SameByte(a: Eager, b: Eager, q: nat, x: nat) {
    Key(q, x / PGSIZE) in b ==>
      b[Key(q, x / PGSIZE)].data[x % PGSIZE] == if Key(q, x / PGSIZE) in a then a[Key(q, x / PGSIZE)].data[x % PGSIZE] else 0
  }

  lemma StartWrite(a: Eager, p: nat, va: nat)
    ensures IsAt(a, p, va, []) && OnlyWritten(a, a, p, va, 0)
  {
  }

  /** What one turn of copyout does, byte by byte. */
  lemma PageOutByte(a: Eager, sz: nat, p: nat, va: nat, bs: seq<Byte>, q: nat, x: nat)
    requires va % PGSIZE + |bs| <= PGSIZE && Key(p, va / PGSIZE) in PageOut(a, sz, p, va, bs)
    ensures var b := PageOut(a, sz, p, va, bs);
            if q == p && va <= x < va + |bs| then HasByte(b, q, x, bs[x - va]) else SameByte(a, b, q, x)
  {
    if q == p && va <= x < va + |bs| {
      SamePage(va, x - va);
    } else if q == p && x / PGSIZE == va / PGSIZE {
      PageSplit(va);
      PageSplit(x);
    }
  }

  lemma PageSplit(x: nat)
    ensures x == x / PGSIZE * PGSIZE + x % PGSIZE
  {
  }

  lemma PageOutKeys(a: Eager, sz: nat, p: nat, va: nat, bs: seq<Byte>)
    requires va % PGSIZE + |bs| <= PGSIZE
    ensures var b := PageOut(a, sz, p, va, bs);
            && (forall k :: k in a ==> k in b && b[k] == a[k].(data := b[k].data))
            && (forall k :: k in b && k !in a ==> k == Key(p, va / PGSIZE) && b[k] == OwnPage(b[k].data, true, true, false, true))
  {
  }

  lemma WriteOn(a0: Eager, a: Eager, b: Eager, sz: nat, p: nat, va: nat, src: seq<Byte>, s: nat, n: nat)
    requires s + n <= |src| && n > 0 && (va + s) % PGSIZE + n <= PGSIZE
    requires IsAt(a, p, va, src[..s]) && OnlyWritten(a0, a, p, va, s)
    requires b == PageOut(a, sz, p, va + s, src[s..s + n]) && Key(p, (va + s) / PGSIZE) in b
    ensures IsAt(b, p, va, src[..s + n]) && OnlyWritten(a0, b, p, va, s + n)
  {
    hide PageOut, HasByte, SameByte;
    var bs := src[s..s + n];
    PageOutKeys(a, sz, p, va + s, bs);
    forall q: nat, x: nat
      ensures if q == p && va + s <= x < va + s + n then HasByte(b, q, x, bs[x - va - s]) else SameByte(a, b, q, x)
    {
      PageOutByte(a, sz, p, va + s, bs, q, x);
    }
    var cs := src[..s + n];
    forall i | 0 <= i < |cs|
      ensures HasByte(b, p, va + i, cs[i])
    {
      if i < s {
        assert src[..s][i] == cs[i];
        StillThere(a, b, p, va + i, cs[i]);
      } else {
        PageOutByte(a, sz, p, va + s, bs, p, va + i);
        assert bs[i - s] == cs[i];
      }
    }
    forall q: nat, x: nat | !(q == p && va <= x < va + s + n)
      ensures SameByte(a0, b, q, x)
    {
      assert SameByte(a0, a, q, x) && SameByte(a, b, q, x);
      SameTrans(a0, a, b, q, x);
    }
    SpanGrows(va, s, n);
  }

  lemma SpanGrows(va: nat, s: nat, n: nat)
    requires n > 0 && (va + s) % PGSIZE + n <= PGSIZE
    ensures (va + s) / PGSIZE <= (va + s + n - 1) / PGSIZE && va / PGSIZE <= (va + s) / PGSIZE
    ensures s > 0 ==> (va + s - 1) / PGSIZE <= (va + s + n - 1) / PGSIZE
  {
  }

  lemma StillThere(a: Eager, b: Eager, p: nat, x: nat, c: Byte)
    requires HasByte(a, p, x, c) && SameByte(a, b, p, x) && forall k :: k in a ==> k in b
    ensures HasByte(b, p, x, c)
  {
  }

  lemma SameTrans(a: Eager, b: Eager, c: Eager, q: nat, x: nat)
    requires SameByte(a, b, q, x) && SameByte(b, c, q, x) && forall k :: k in a ==> k in b
    ensures SameByte(a, c, q, x)
  {
  }

  lemma ReadOn(a: Eager, b: Eager, p: nat, va: nat, bs: seq<Byte>, k: Key, off: nat, n: nat)
    requires IsAt(a, p, va, bs) && OnlyTouched(a, b, p) && k in b
    requires k == Key(p, (va + |bs|) / PGSIZE) && off == (va + |bs|) % PGSIZE && off + n <= PGSIZE
    ensures IsAt(b, p, va, bs + b[k].data[off..off + n])
  {
    hide HasByte;
    var cs := bs + b[k].data[off..off + n];
    forall i | 0 <= i < |cs|
      ensures HasByte(b, p, va + i, cs[i])
    {
      if i < |bs| {
        assert cs[i] == bs[i];
        ByteKept(a, b, p, va + i, bs[i]);
      } else {
        ByteOfPage(b, p, va + |bs|, i - |bs|, n);
        assert va + |bs| + (i - |bs|) == va + i && cs[i] == b[k].data[off..off + n][i - |bs|];
      }
    }
  }

  lemma ByteKept(a: Eager, b: Eager, p: nat, x: nat, c: Byte)
    requires OnlyTouched(a, b, p) && HasByte(a, p, x, c)
    ensures HasByte(b, p, x, c)
  {
  }

  lemma ByteOfPage(a: Eager, p: nat, x: nat, i: nat, n: nat)
    requires i < n && x % PGSIZE + n <= PGSIZE && Key(p, x / PGSIZE) in a
    ensures HasByte(a, p, x + i, a[Key(p, x / PGSIZE)].data[x % PGSIZE..x % PGSIZE + n][i])
  {
    SamePage(x, i);
  }

  lemma SamePage(va: nat, i: nat)
    requires va % PGSIZE + i < PGSIZE
    ensures (va + i) / PGSIZE == va / PGSIZE && (va + i) % PGSIZE == va % PGSIZE + i
  {
  }

  lemma PageStart(v: nat)
    ensures v * PGSIZE / PGSIZE == v
  {
  }

  lemma OutNone(a: Eager, sz: nat, p: nat, va: nat)
    ensures Out(a, sz, p, va, []) == a
  {
  }

  /** The next page of a copy, after s bytes that ended at a page boundary. */
  lemma {:induction false} OutNext(a: Eager, sz: nat, p: nat, va: nat, src: seq<Byte>, s: nat, n: nat)
    requires s + n <= |src| && n > 0 && (s == 0 || (va + s) % PGSIZE == 0)
    requires (va + s) % PGSIZE + n <= PGSIZE
    requires n == Min(PGSIZE - (va + s) % PGSIZE, |src| - s)
    ensures Out(a, sz, p, va, src[..s + n]) == PageOut(Out(a, sz, p, va, src[..s]), sz, p, va + s, src[s..s + n])
    ensures s + n < |src| ==> (va + s + n) % PGSIZE == 0
  {
    hide PageOut;
    assert src[..s + n] == src[..s] + src[s..s + n];
    OutSplit(a, sz, p, va, src[..s], src[s..s + n]);
    var b, ys := Out(a, sz, p, va, src[..s]), src[s..s + n];
    assert ys[..n] == ys && ys[n..] == [];
    if s + n < |src| { Boundary(va + s, n); }
  }

  lemma Boundary(va: nat, n: nat)
    requires n == PGSIZE - va % PGSIZE
    ensures (va + n) % PGSIZE == 0
  {
  }

  lemma AbsAt(m: Mem, k: Key)
    ensures k in m.pt <==> k in Abs(m)
    ensures k in m.pt ==> Abs(m)[k] == View(m.pt[k], m.data)
  {
  }

  lemma PageBelow(va: nat, sz: nat)
    requires va < sz
    ensures va / PGSIZE * PGSIZE < sz && va / PGSIZE < Pages(sz)
  {
  }

  lemma GrowNone(a: Eager, p: nat, lo: nat, w: bool, x: bool)
    ensures Grow(a, p, lo, lo, w, x) == a
  {
  }

  lemma PagesMonotone(a: nat, b: nat)
    requires a <= b
    ensures Pages(a) <= Pages(b)
  {
  }

  lemma BelowPages(v: nat, sz: nat)
    ensures v * PGSIZE < sz <==> v < Pages(sz)
  {
  }

  lemma WholePages(v: nat)
    ensures Pages(v * PGSIZE) == v
  {
  }

  lemma AbsAbove(m: Mem, p: nat, lo: nat)
    requires forall v :: v >= lo ==> Key(p, v) !in m.pt
    ensures forall v :: v >= lo ==> Key(p, v) !in Abs(m)
  {
  }

  /** The kernel's pages are counted once. */
  lemma HeldOnce(m: Mem, f: nat)
    requires Inv(m) && f in m.held
    ensures f < |m.count| && m.count[f] == 1
  {
    assert FrameOk(m, f);
  }

  /** What the kernel writes to its own pages no process sees. */
  lemma ClearKeeps(m: Mem, f: nat)
    requires Inv(m) && f in m.held
    ensures Sized(m) && f < |m.data|
    ensures Inv(m.(data := m.data[f := Fill(0)])) && Abs(m.(data := m.data[f := Fill(0)])) == Abs(m)
  {
    var r := m.(data := m.data[f := Fill(0)]);
    assert FrameOk(m, f);
    forall g | 0 <= g < |r.count| ensures FrameOk(r, g) { assert FrameOk(m, g); }
    forall l | l in r.pt ensures PteOk(r, l) && r.pt[l].frame != f { assert PteOk(m, l); }
  }

  ghost predicate Within(keys: set<Key>, size: map<nat, nat>) {
    && (forall k :: k in keys ==> k.p in size && k.v < Pages(size[k.p]))
    && (forall p :: p in size ==> size[p] <= TRAPFRAME)
  }

  /** A process maps nothing from its size up. */
  lemma WithinAbove(keys: set<Key>, size: map<nat, nat>, p: nat)
    requires Within(keys, size) && p in size
    ensures size[p] <= TRAPFRAME && forall v :: v >= Pages(size[p]) ==> Key(p, v) !in keys
    ensures forall k :: k in keys && k.p == p ==> k.v < Pages(size[p])
  {
  }

  lemma WithinFork(keys: set<Key>, keys': set<Key>, size: map<nat, nat>, p: nat, c: nat)
    requires Within(keys, size) && p in size
    requires forall k :: k in keys' ==> k in keys || (k.p == c && k.v < Pages(size[p]))
    ensures c !in size ==> Within(keys', size[c := size[p]])
  {
  }

  lemma WithinLess(keys: set<Key>, keys': set<Key>, size: map<nat, nat>, p: nat)
    requires Within(keys, size) && keys' <= keys && forall k :: k in keys' ==> k.p != p
    ensures Within(keys', size - {p})
  {
  }

  lemma ForkStep(a: Eager, p: nat, c: nat, i: nat)
    ensures Fork(a, p, c, i + 1) == var b := Fork(a, p, c, i); if Key(p, i) in b then b[Key(c, i) := b[Key(p, i)]] else b
  {
  }

  /** The page numbers lo..hi, and those pages of p. */
  ghost function Between(lo: nat, hi: nat): (vs: set<nat>) {
    set v | v in Interval(0, hi) && lo <= v
  }

  ghost function PagesOf(p: nat, lo: nat, hi: nat): (ks: set<Key>) {
    set v | lo <= v < hi :: Key(p, v)
  }

  lemma SpanStep(lo: nat, a: nat)
    requires lo <= a
    ensures Between(lo, a + 1) == Between(lo, a) + {a}
  {
  }

  lemma SpanMono(lo: nat, a: nat, b: nat)
    requires a <= b
    ensures Between(lo, a) <= Between(lo, b)
  {
  }

  lemma PagesStep(p: nat, lo: nat, a: nat)
    requires lo <= a
    ensures PagesOf(p, lo, a + 1) == PagesOf(p, lo, a) + {Key(p, a)} && Key(p, a) !in PagesOf(p, lo, a)
  {
  }

  lemma PagesUndone(keys: set<Key>, keys': set<Key>, p: nat, lo: nat, a: nat)
    requires forall v :: v >= lo ==> Key(p, v) !in keys
    requires forall k :: k in keys' <==> k in keys + PagesOf(p, lo, a) && !(k.p == p && lo <= k.v < a)
    ensures keys' == keys && keys' <= keys + PagesOf(p, lo, a)
  {
    forall k | k in keys
      ensures !(k.p == p && lo <= k.v < a)
    {
      assert k == Key(k.p, k.v);
    }
  }

  /** Frames that growing from oldsz to newsz takes: the pages and the tables for them. */
  ghost function GrowNeeds(kern: Kern, p: nat, oldsz: nat, newsz: nat): (frames: int) {
    Pages(newsz) - Pages(oldsz) + Missing(kern, p, Between(Pages(oldsz), Pages(newsz)))
  }

  /** sbrk(n) stays below the trapframe and finds the frames it needs. */
  ghost predicate CanGrow(kern: Kern, p: nat, sz: nat, n: int, frames: nat)
    requires n > 0
  {
    sz + n <= TRAPFRAME && GrowNeeds(kern, p, sz, sz + n) <= frames
  }

  lemma WithinGrow(keys: set<Key>, keys': set<Key>, size: map<nat, nat>, p: nat, sz: nat)
    requires Within(keys, size) && p in size && size[p] <= sz <= TRAPFRAME
    requires keys' == keys + PagesOf(p, Pages(size[p]), Pages(sz))
    ensures Within(keys', size[p := sz])
  {
    PagesMonotone(size[p], sz);
  }

  lemma WithinShrink(keys: set<Key>, keys': set<Key>, size: map<nat, nat>, p: nat, sz: nat)
    requires Within(keys, size) && p in size && sz <= size[p] && keys' <= keys
    requires forall k :: k in keys' ==> !(k.p == p && Pages(sz) <= k.v < Pages(size[p]))
    ensures Within(keys', size[p := sz])
  {
  }

  lemma WithinLazy(keys: set<Key>, size: map<nat, nat>, p: nat, sz: nat)
    requires Within(keys, size) && p in size && size[p] <= sz <= TRAPFRAME
    ensures Within(keys, size[p := sz])
  {
    PagesMonotone(size[p], sz);
  }

  lemma WithinKey(keys: set<Key>, size: map<nat, nat>, k: Key)
    requires Within(keys, size) && k.p in size && k.v < Pages(size[k.p])
    ensures Within(keys + {k}, size)
  {
  }

  lemma SizeKeys(size: map<nat, nat>, p: nat, sz: nat)
    requires p in size
    ensures size[p := sz].Keys == size.Keys
  {
  }

  /** The pages below n that p has. */
  ghost function Present(ks: set<Key>, p: nat, n: nat): (vs: set<nat>) {
    set v | 0 <= v < n && Key(p, v) in ks
  }

  lemma PresentNone(ks: set<Key>, p: nat)
    ensures Present(ks, p, 0) == {}
  {
  }

  lemma PresentStep(ks: set<Key>, p: nat, i: nat)
    ensures Present(ks, p, i + 1) == if Key(p, i) in ks then Present(ks, p, i) + {i} else Present(ks, p, i)
  {
  }

  lemma PresentMono(ks: set<Key>, p: nat, i: nat, n: nat)
    requires i <= n
    ensures Present(ks, p, i) <= Present(ks, p, n)
  {
  }

  /** Frames a fork takes: the child's trapframe and page table, and the tables for the pages it shares. */
  ghost function ForkNeeds(ks: set<Key>, p: nat, c: nat, n: nat): (frames: nat) {
    4 + |TablesFor(c, Present(ks, p, n)) - Tables(c, TOP)|
  }

  /** Whatever was mapped still is, to the same frame. */
  ghost predicate SameFrames(pt: map<Key, Pte>, pt': map<Key, Pte>) {
    forall k :: k in pt ==> k in pt' && pt'[k].frame == pt[k].frame
  }

  lemma FramesBack(m: Mem, m': Mem)
    requires SameFrames(m.pt, m'.pt) && m'.pt.Keys == m.pt.Keys
    ensures UserFrames(m') == UserFrames(m)
  {
    forall f | f in UserFrames(m)
      ensures f in UserFrames(m')
    {
      var k :| k in m.pt && m.pt[k].frame == f;
      assert m'.pt[k].frame == f;
    }
  }

  lemma KeysMore(pt: map<Key, Pte>, k: Key, pte: Pte)
    ensures pt[k := pte].Keys == pt.Keys + {k}
  {
  }

  lemma SizeSet(size: map<nat, nat>, c: nat, sz: nat)
    ensures size[c := 0][c := sz] == size[c := sz] && size[c := sz].Keys == size[c := 0].Keys
  {
  }

  lemma SlotBack(size: map<nat, nat>, c: nat)
    requires c !in size
    ensures size[c := 0] - {c} == size
  {
  }

  /** Page tables after i pages of uvmcopy: the child has those of the parent's that are present, on the same
      frames. */
  ghost predicate Shared(pt0: map<Key, Pte>, pt: map<Key, Pte>, p: nat, c: nat, i: nat) {
    && (forall k :: k in pt <==> k in pt0 || (k.p == c && k.v < i && Key(p, k.v) in pt0))
    && SameFrames(pt0, pt)
    && (forall k :: k in pt && k.p == c && k !in pt0 ==> pt[k].frame == pt0[Key(p, k.v)].frame)
  }

  lemma SharedAt(pt0: map<Key, Pte>, pt: map<Key, Pte>, p: nat, c: nat, i: nat)
    requires Shared(pt0, pt, p, c, i) && Key(p, i) in pt0
    ensures Key(p, i) in pt && (Key(c, i) !in pt0 ==> Key(c, i) !in pt)
  {
  }

  lemma SharedProtect(pt0: map<Key, Pte>, pt: map<Key, Pte>, p: nat, c: nat, i: nat)
    requires Shared(pt0, pt, p, c, i) && Key(p, i) in pt
    ensures Shared(pt0, pt[Key(p, i) := Protect(pt[Key(p, i)])], p, c, i)
  {
  }

  /** The child has no other page on the frame that it is about to share. */
  lemma SharedElsewhere(pt0: map<Key, Pte>, pt: map<Key, Pte>, p: nat, c: nat, i: nat)
    requires Shared(pt0, pt, p, c, i) && Key(p, i) in pt0 && p != c && forall k :: k in pt0 ==> k.p != c
    requires forall w :: w != i && Key(p, w) in pt ==> pt[Key(p, w)].frame != pt[Key(p, i)].frame
    ensures forall k :: k in pt && k.p == c ==> pt[k].frame != pt[Key(p, i)].frame
  {
    forall k | k in pt && k.p == c
      ensures pt[k].frame != pt[Key(p, i)].frame
    {
      assert Key(p, k.v) in pt0 && pt[Key(p, k.v)].frame == pt0[Key(p, k.v)].frame;
    }
  }

  lemma SharedNext(pt0: map<Key, Pte>, pt: map<Key, Pte>, p: nat, c: nat, i: nat)
    requires Shared(pt0, pt, p, c, i) && Key(p, i) in pt0 && p != c && forall k :: k in pt0 ==> k.p != c
    ensures Shared(pt0, pt[Key(c, i) := pt[Key(p, i)]], p, c, i + 1)
  {
  }

  lemma SharedUndone(pt0: map<Key, Pte>, pt1: map<Key, Pte>, pt2: map<Key, Pte>, p: nat, c: nat, i: nat)
    requires Shared(pt0, pt1, p, c, i) && forall k :: k in pt0 ==> k.p != c
    requires pt2 == map k | k in pt1 && !(k.p == c && 0 <= k.v < 0 + i) :: pt1[k]
    ensures pt2.Keys == pt0.Keys && pt2.Keys <= pt1.Keys && SameFrames(pt0, pt2)
  {
  }

  /** As many frames are free as before when the kernel and the processes have the same ones. */
  lemma FreeSame(m: Mem, m': Mem, kern: Kern)
    requires Inv(m) && Inv(m') && |m.count| == |m'.count| && UserFrames(m) == UserFrames(m')
    requires Accounts(kern, m.held, {}) && Accounts(kern, m'.held, {})
    ensures |m.free| == |m'.free|
  {
    FreeCount(m);
    FreeCount(m');
  }

  lemma OthersPages(m: Mem, c: nat)
    requires Inv(m) && c !in m.procs
    ensures forall k :: k in m.pt ==> k.p != c
  {
    forall k | k in m.pt
      ensures k.p != c
    {
      assert PteOk(m, k);
    }
  }

  lemma PagesFit(sz: nat)
    requires sz <= TRAPFRAME
    ensures Pages(sz) <= TOP
  {
  }

  lemma ChildNeeds(kern: Kern, kern': Kern, c: nat, vs: set<nat>)
    requires kern'.Keys == kern.Keys + Basics(c) && forall u :: u in kern && !u.Other? ==> u.p != c
    ensures Missing(kern', c, vs) == |TablesFor(c, vs) - Tables(c, TOP)|
  {
    assert TablesFor(c, vs) - kern'.Keys == TablesFor(c, vs) - Tables(c, TOP);
  }

  lemma NotHeld(m: Mem)
    requires Inv(m) && m.free != []
    ensures m.free[0] !in m.held
  {
    assert FrameOk(m, m.free[0]);
  }

  lemma HeldFrame(m: Mem, f: nat)
    requires Inv(m) && f in m.held
    ensures Sized(m) && f < |m.count|
  {
  }

  /** Who the processes are does not matter to what they see. */
  lemma AbsProcs(m: Mem, ps: set<nat>)
    ensures Abs(m.(procs := ps)) == Abs(m)
  {
  }

  lemma AddProc(m: Mem, c: nat)
    requires Inv(m) && |m.procs| < NPROC
    ensures Inv(m.(procs := m.procs + {c}))
  {
    var r := m.(procs := m.procs + {c});
    forall f | 0 <= f < |r.count| ensures FrameOk(r, f) { assert FrameOk(m, f); }
    forall l | l in r.pt ensures PteOk(r, l) { assert PteOk(m, l); }
  }

  lemma RemoveProc(m: Mem, c: nat)
    requires Inv(m) && forall k :: k in m.pt ==> k.p != c
    ensures Inv(m.(procs := m.procs - {c}))
  {
    var r := m.(procs := m.procs - {c});
    forall f | 0 <= f < |r.count| ensures FrameOk(r, f) { assert FrameOk(m, f); }
    forall l | l in r.pt ensures PteOk(r, l) { assert PteOk(m, l); }
  }

  /** Two pages of one process are two frames. */
  lemma FramesApart(m: Mem, p: nat, v: nat)
    requires Inv(m) && Key(p, v) in m.pt
    ensures forall w :: w != v && Key(p, w) in m.pt ==> m.pt[Key(p, w)].frame != m.pt[Key(p, v)].frame
  {
    forall w | w != v && Key(p, w) in m.pt ensures m.pt[Key(p, w)].frame != m.pt[Key(p, v)].frame {
      assert PteOk(m, Key(p, v)) && PteOk(m, Key(p, w));
      assert FrameOk(m, m.pt[Key(p, v)].frame);
    }
  }

  /** Dropping the child's pages undoes the copying so far. */
  lemma {:induction false} ForkUndone(m: Mem, p: nat, c: nat, n: nat)
    requires p != c && forall k :: k in m.pt ==> k.p != c
    ensures Drop(Fork(Abs(m), p, c, n), c, 0, n) == Abs(m)
    decreases n
  {
    if n > 0 { ForkUndone(m, p, c, n - 1); }
  }

  lemma OwnersElsewhere(m: Mem, k: Key, c: nat)
    requires Inv(m) && Mapped(m, k) && forall l :: l in m.pt && l.p == c ==> m.pt[l].frame != m.pt[k].frame
    ensures forall o :: o in m.owners[m.pt[k].frame] ==> o.p != c
  {
    assert FrameOk(m, m.pt[k].frame);
  }

  lemma AbsKeys(m: Mem, k: Key)
    ensures k in Abs(m) <==> k in m.pt
  {
  }
}
