/** Physical frames with reference counts, and user page tables that share them copy-on-write. */
module Frames {
  import opened Common

  type Page = s: seq<Byte> | |s| == PGSIZE witness seq(PGSIZE, i => 0)

  /** memset(pa, b, PGSIZE): 0 for a fresh page, 1 in kfree, 5 in kalloc. */
  function Fill(b: Byte): (s: Page) {
    seq(PGSIZE, i => b)
  }

  /** A user page: process and virtual page number. */
  datatype Key = Key(p: nat, v: nat)

  /** A valid leaf PTE. */
  datatype Pte = Pte(frame: nat, r: bool, w: bool, x: bool, u: bool, cow: bool)

  /** All of memory. `owners[f]` are the user pages mapped to f; `held` are the frames the kernel
      has allocated and not (yet) mapped: page-table pages, trapframes, pipes, fresh pages. */
  datatype Mem = Mem(count: seq<nat>, data: seq<Page>, free: seq<nat>,
                     procs: set<nat>, pt: map<Key, Pte>, owners: seq<set<Key>>, held: set<nat>)

  predicate Sized(m: Mem) {
    |m.count| == |m.data| == |m.owners|
  }

  /** The count of a frame is its user PTEs plus the kernel's own use; no process maps it twice. */
  predicate FrameOk(m: Mem, f: nat)
    requires Sized(m) && f < |m.count|
  {
    && m.count[f] == |m.owners[f]| + (if f in m.held then 1 else 0)
    && (f in m.held ==> m.owners[f] == {})
    && (forall k :: k in m.owners[f] ==> k in m.pt && m.pt[k].frame == f)
    && (forall k, l :: k in m.owners[f] && l in m.owners[f] && k.p == l.p ==> k == l)
    && (m.count[f] == 0 <==> f in m.free)
  }

  /** A PTE is counted and readable; a writable one is the only one of its frame. */
  predicate PteOk(m: Mem, k: Key)
    requires k in m.pt
  {
    && k.p in m.procs && m.pt[k].r
    && m.pt[k].frame < |m.owners|
    && k in m.owners[m.pt[k].frame]
    && (m.pt[k].w ==> !m.pt[k].cow && m.owners[m.pt[k].frame] == {k})
  }

  predicate FreeOk(m: Mem) {
    && (forall i :: 0 <= i < |m.free| ==> m.free[i] < |m.count|)
    && (forall i, j :: 0 <= i < j < |m.free| ==> m.free[i] != m.free[j])
  }

  predicate Inv(m: Mem) {
    && Sized(m) && FreeOk(m)
    && (forall f :: 0 <= f < |m.count| ==> FrameOk(m, f))
    && (forall k :: k in m.pt ==> PteOk(m, k))
    && (forall f :: f in m.held ==> f < |m.count|)
    && |m.procs| <= NPROC
  }

  // ---- the eager machine: every process has its own copy of every page ----

  datatype OwnPage = OwnPage(data: Page, r: bool, w: bool, x: bool, u: bool)

  type Eager = map<Key, OwnPage>

  /** What a process sees of a PTE: a copy-on-write page is a writable page. */
  function View(pte: Pte, data: seq<Page>): (o: OwnPage) {
    OwnPage(if pte.frame < |data| then data[pte.frame] else Fill(0), pte.r, pte.w || pte.cow, pte.x, pte.u)
  }

  function Abs(m: Mem): (a: Eager) {
    map k | k in m.pt :: View(m.pt[k], m.data)
  }

  // ---- steps ----

  predicate Mapped(m: Mem, k: Key) {
    Sized(m) && k in m.pt && m.pt[k].frame < |m.count|
  }

  /** kalloc, when the free list is not empty. */
  function Alloc(m: Mem): (r: Mem)
    requires Sized(m) && FreeOk(m) && m.free != []
  {
    var f := m.free[0];
    m.(count := m.count[f := 1], data := m.data[f := Fill(5)], free := m.free[1..], held := m.held + {f})
  }

  /** kfree's effect on counts, contents and free list. */
  function Release(m: Mem, f: nat): (r: Mem)
    requires Sized(m) && f < |m.count| && m.count[f] > 0
  {
    var n := m.count[f] - 1;
    if n > 0 then m.(count := m.count[f := n])
    else m.(count := m.count[f := 0], data := m.data[f := Fill(1)], free := [f] + m.free)
  }

  /** kfree of a page the kernel holds. */
  function FreeHeld(m: Mem, f: nat): (r: Mem)
    requires Sized(m) && f < |m.count| && m.count[f] > 0
  {
    Release(m, f).(held := m.held - {f})
  }

  /** kfree of a mapped page, then *pte = 0. */
  function Unmap(m: Mem, k: Key): (r: Mem)
    requires Mapped(m, k) && m.count[m.pt[k].frame] > 0
  {
    var f := m.pt[k].frame;
    Release(m, f).(pt := m.pt - {k}, owners := m.owners[f := m.owners[f] - {k}])
  }

  /** Fill a page the kernel holds and map it. */
  function MapNew(m: Mem, k: Key, pte: Pte, data: Page): (r: Mem)
    requires Sized(m) && pte.frame < |m.count|
  {
    var f := pte.frame;
    m.(data := m.data[f := data], pt := m.pt[k := pte], owners := m.owners[f := {k}], held := m.held - {f})
  }

  /** uvmcopy for one page: the parent's PTE loses W for COW, the child gets the same PTE. */
  function Share(m: Mem, k: Key, l: Key): (r: Mem)
    requires Mapped(m, k)
  {
    var pte := Protect(m.pt[k]);
    var f := pte.frame;
    m.(count := m.count[f := m.count[f] + 1], pt := m.pt[k := pte][l := pte], owners := m.owners[f := m.owners[f] + {l}])
  }

  function Protect(pte: Pte): (r: Pte) {
    if pte.w then pte.(w := false, cow := true) else pte
  }

  /** A user or kernel store to a writable page. */
  function Poke(m: Mem, k: Key, data: Page): (r: Mem)
    requires Mapped(m, k)
  {
    m.(data := m.data[m.pt[k].frame := data])
  }

  // ---- each step keeps the accounting, and is the eager step ----

  lemma AllocInv(m: Mem)
    requires Inv(m) && m.free != []
    ensures Inv(Alloc(m)) && m.free[0] in Alloc(m).held
  {
    var r, g := Alloc(m), m.free[0];
    assert FrameOk(m, g);
    forall f | 0 <= f < |r.count| ensures FrameOk(r, f) {
      assert FrameOk(m, f);
      if f != g { assert f in m.free ==> f in m.free[1..]; }
    }
    forall k | k in r.pt ensures PteOk(r, k) { assert PteOk(m, k); }
  }

  lemma AllocAbs(m: Mem)
    requires Inv(m) && m.free != []
    ensures Abs(Alloc(m)) == Abs(m)
  {
    assert FrameOk(m, m.free[0]);
    forall k | k in m.pt ensures m.pt[k].frame != m.free[0] { assert PteOk(m, k); }
  }

  lemma FreeHeldKeeps(m: Mem, g: nat)
    requires Inv(m) && g in m.held
    ensures g < |m.count| && m.count[g] > 0
    ensures Inv(FreeHeld(m, g)) && Abs(FreeHeld(m, g)) == Abs(m)
  {
    assert FrameOk(m, g);
    var r := FreeHeld(m, g);
    forall f | 0 <= f < |r.count| ensures FrameOk(r, f) { assert FrameOk(m, f); }
    forall k | k in r.pt ensures PteOk(r, k) && r.pt[k].frame != g { assert PteOk(m, k); }
  }

  /** A mapped frame is in use. */
  lemma MappedCount(m: Mem, k: Key)
    requires Inv(m) && k in m.pt
    ensures Mapped(m, k) && m.count[m.pt[k].frame] > 0 && m.pt[k].frame !in m.free && m.pt[k].frame !in m.held
  {
    assert PteOk(m, k);
    assert FrameOk(m, m.pt[k].frame);
  }

  lemma UnmapInv(m: Mem, k: Key)
    requires Inv(m) && k in m.pt && Mapped(m, k) && m.count[m.pt[k].frame] > 0
    ensures Inv(Unmap(m, k))
  {
    var r, g := Unmap(m, k), m.pt[k].frame;
    assert PteOk(m, k) && FrameOk(m, g);
    forall f | 0 <= f < |r.count| ensures FrameOk(r, f) { assert FrameOk(m, f); }
    forall l | l in r.pt ensures PteOk(r, l) { assert PteOk(m, l); }
  }

  lemma UnmapAbs(m: Mem, k: Key)
    requires Inv(m) && k in m.pt && Mapped(m, k) && m.count[m.pt[k].frame] > 0
    ensures Abs(Unmap(m, k)) == Abs(m) - {k}
  {
    var r, g := Unmap(m, k), m.pt[k].frame;
    assert PteOk(m, k) && FrameOk(m, g);
    forall l | l in m.pt && l != k && m.pt[l].frame == g ensures m.count[g] > 1 {
      assert PteOk(m, l);
      SubsetSize({k, l}, m.owners[g]);
    }
  }

  lemma MapNewInv(m: Mem, k: Key, pte: Pte, data: Page)
    requires Inv(m) && pte.frame in m.held && k !in m.pt && k.p in m.procs && pte.r && !(pte.w && pte.cow)
    ensures Inv(MapNew(m, k, pte, data))
  {
    var r, g := MapNew(m, k, pte, data), pte.frame;
    assert FrameOk(m, g);
    forall f | 0 <= f < |r.count| ensures FrameOk(r, f) { assert FrameOk(m, f); }
    forall l | l in r.pt ensures PteOk(r, l) { if l != k { assert PteOk(m, l); } }
  }

  lemma MapNewAbs(m: Mem, k: Key, pte: Pte, data: Page)
    requires Inv(m) && pte.frame in m.held && k !in m.pt
    ensures Abs(MapNew(m, k, pte, data)) == Abs(m)[k := OwnPage(data, pte.r, pte.w || pte.cow, pte.x, pte.u)]
  {
    assert FrameOk(m, pte.frame);
    forall l | l in m.pt ensures m.pt[l].frame != pte.frame { assert PteOk(m, l); }
  }

  lemma ShareFrames(m: Mem, k: Key, l: Key)
    requires Inv(m) && Mapped(m, k) && l !in m.pt
    requires forall o :: o in m.owners[m.pt[k].frame] ==> o.p != l.p
    ensures var r := Share(m, k, l); forall f :: 0 <= f < |r.count| ==> FrameOk(r, f)
  {
    var r, g := Share(m, k, l), m.pt[k].frame;
    assert PteOk(m, k) && FrameOk(m, g);
    forall f | 0 <= f < |r.count| ensures FrameOk(r, f) { assert FrameOk(m, f); }
  }

  lemma ShareInv(m: Mem, k: Key, l: Key)
    requires Inv(m) && Mapped(m, k) && l !in m.pt && l.p in m.procs
    requires forall o :: o in m.owners[m.pt[k].frame] ==> o.p != l.p
    ensures Inv(Share(m, k, l))
  {
    ShareFrames(m, k, l);
    var r, g := Share(m, k, l), m.pt[k].frame;
    assert PteOk(m, k) && FrameOk(m, g);
    forall o | o in r.pt ensures PteOk(r, o) { if o != l { assert PteOk(m, o); } }
  }

  lemma ShareAbs(m: Mem, k: Key, l: Key)
    requires Inv(m) && Mapped(m, k) && l !in m.pt
    ensures Abs(Share(m, k, l)) == Abs(m)[l := Abs(m)[k]]
  {
  }

  /** Taking W away and setting COW changes nothing a process can see. */
  lemma ProtectKeeps(m: Mem, k: Key)
    requires Inv(m) && k in m.pt
    ensures Inv(m.(pt := m.pt[k := Protect(m.pt[k])]))
    ensures Abs(m.(pt := m.pt[k := Protect(m.pt[k])])) == Abs(m)
  {
    var r := m.(pt := m.pt[k := Protect(m.pt[k])]);
    forall f | 0 <= f < |r.count| ensures FrameOk(r, f) { assert FrameOk(m, f); }
    forall l | l in r.pt ensures PteOk(r, l) { assert PteOk(m, l); }
  }

  lemma PokeInv(m: Mem, k: Key, data: Page)
    requires Inv(m) && Mapped(m, k)
    ensures Inv(Poke(m, k, data))
  {
    var r := Poke(m, k, data);
    forall f | 0 <= f < |r.count| ensures FrameOk(r, f) { assert FrameOk(m, f); }
    forall l | l in r.pt ensures PteOk(r, l) { assert PteOk(m, l); }
  }

  /** Because a writable frame is unshared, a store changes one page of one process. */
  lemma PokeAbs(m: Mem, k: Key, data: Page)
    requires Inv(m) && Mapped(m, k) && m.pt[k].w
    ensures Abs(Poke(m, k, data)) == Abs(m)[k := Abs(m)[k].(data := data)]
  {
    assert PteOk(m, k);
    forall l | l in m.pt && l != k ensures m.pt[l].frame != m.pt[k].frame { assert PteOk(m, l); }
  }

  /** No count ever exceeds the number of processes, so a 16-bit counter does not wrap. */
  lemma {:induction false} CountBound(m: Mem, f: nat)
    requires Inv(m) && f < |m.count|
    ensures m.count[f] <= NPROC < 0x1_0000
  {
    assert FrameOk(m, f);
    var ps := set k | k in m.owners[f] :: k.p;
    Projection(m.owners[f]);
    forall p | p in ps ensures p in m.procs {
      var k :| k in m.owners[f] && k.p == p;
      assert PteOk(m, k);
    }
    SubsetSize(ps, m.procs);
  }

  lemma {:induction false} Projection(s: set<Key>)
    requires forall k, l :: k in s && l in s && k.p == l.p ==> k == l
    ensures |set k | k in s :: k.p| == |s|
    decreases s
  {
    if s != {} {
      var k :| k in s;
      var t := s - {k};
      Projection(t);
      assert (set l | l in s :: l.p) == (set l | l in t :: l.p) + {k.p};
      assert k.p !in set l | l in t :: l.p;
    }
  }
}
