/** The flat page tables of the machine and the three levels of pages they stand for: every process's entries,
    and the pages the kernel keeps for its page table, are those of one well-formed tree. */
module Layers {
  import opened Common
  import opened Frames
  import opened KernelPages
  import opened Vm
  import T = PageTable

  const KERNBASE := 0x8000_0000

  /** The address of a frame. */
  function Pa(f: nat): (pa: nat)
    ensures pa > 0 && pa % PGSIZE == 0
  {
    KERNBASE + PGSIZE * f
  }

  /** A PTE as a word: V, R, W, X, U and COW. */
  function FlagsOf(pte: Pte): (n: nat)
    requires pte.r
    ensures n < 1024 && T.V(n) && T.RWX(n) && n / 2 % 2 == 1 && (n / 4 % 2 == 1 <==> pte.w) && (n / 8 % 2 == 1 <==> pte.x)
    ensures (n / 16 % 2 == 1 <==> pte.u) && (n / 256 % 2 == 1 <==> pte.cow)
  {
    3 + (if pte.w then 4 else 0) + (if pte.x then 8 else 0) + (if pte.u then 16 else 0) + if pte.cow then 256 else 0
  }

  function Word(pte: Pte): (e: nat)
    requires pte.r
    ensures T.V(e) && T.RWX(e) && T.PTE2PA(e) == Pa(pte.frame) && T.Flags(e) == FlagsOf(pte)
  {
    T.EntryBits(Pa(pte.frame) / 4096, FlagsOf(pte));
    T.PA2PTE(Pa(pte.frame)) + FlagsOf(pte)
  }

  /** What a process's page table says about page v, or 0: the trampoline and the trapframe are at the top, and
      the user cannot reach them. */
  ghost function EntryAt(pt: map<Key, Pte>, kern: Kern, p: nat, trampoline: nat, v: nat): (e: nat)
    requires trampoline % 4096 == 0 && (forall k :: k in pt ==> pt[k].r) && Trap(p) in kern
    ensures T.V(e) ==> T.RWX(e)
    ensures T.V(e) <==> v == TOP || v == TOP - 1 || Key(p, v) in pt
  {
    if v == TOP then T.Entry(trampoline, 10)
    else if v == TOP - 1 then T.Entry(Pa(kern[Trap(p)]), 6)
    else if Key(p, v) in pt then Word(pt[Key(p, v)])
    else 0
  }

  /** Where p's page-table pages are. */
  ghost function PlacesOf(kern: Kern, p: nat): (at: map<T.Pos, nat>) {
    map u | u in kern && u.Table? && u.p == p :: T.Pos(u.level, u.i) := Pa(kern[u])
  }

  lemma PlaceOf(kern: Kern, p: nat, q: T.Pos)
    ensures q in PlacesOf(kern, p) <==> Table(p, q.level, q.prefix) in kern
    ensures q in PlacesOf(kern, p) ==> PlacesOf(kern, p)[q] == Pa(kern[Table(p, q.level, q.prefix)])
  {
    var u := Table(p, q.level, q.prefix);
    if u in kern {
      assert u.Table? && u.p == p && T.Pos(u.level, u.i) == q;
    }
  }

  /** The entries of the page at q. */
  ghost function PageAt(pt: map<Key, Pte>, kern: Kern, p: nat, trampoline: nat, q: T.Pos): (es: seq<nat>)
    requires trampoline % 4096 == 0 && (forall k :: k in pt ==> pt[k].r) && Trap(p) in kern
    ensures |es| == ENTRIES
  {
    var at := PlacesOf(kern, p);
    seq(ENTRIES, (i: nat) requires i < ENTRIES =>
      if q.level == 0 then EntryAt(pt, kern, p, trampoline, q.prefix * 512 + i)
      else if T.Child(q, i) in at then T.PA2PTE(at[T.Child(q, i)]) + 1
      else 0)
  }

  ghost predicate OneUse(kern: Kern) {
    forall u, w :: u in kern && w in kern && kern[u] == kern[w] ==> u == w
  }

  lemma PlacesApart(kern: Kern, p: nat, q: T.Pos, r: T.Pos)
    requires OneUse(kern)
    ensures var at := PlacesOf(kern, p); q in at && r in at && at[q] == at[r] ==> q == r
  {
    PlaceOf(kern, p, q);
    PlaceOf(kern, p, r);
  }

  /** The page of p's table at an address. */
  ghost function PlaceFor(kern: Kern, p: nat, pa: nat): (q: T.Pos)
    requires pa in T.Places(PlacesOf(kern, p))
    ensures q in PlacesOf(kern, p) && PlacesOf(kern, p)[q] == pa
  {
    var q :| q in PlacesOf(kern, p) && PlacesOf(kern, p)[q] == pa;
    q
  }

  /** p's page table. */
  ghost function TreeOf(pt: map<Key, Pte>, kern: Kern, p: nat, trampoline: nat): (t: T.Tree)
    requires trampoline % 4096 == 0 && (forall k :: k in pt ==> pt[k].r) && Trap(p) in kern
  {
    var at := PlacesOf(kern, p);
    T.Tree(map pa | pa in T.Places(at) :: PageAt(pt, kern, p, trampoline, PlaceFor(kern, p, pa)), at)
  }

  lemma TableAt(pt: map<Key, Pte>, kern: Kern, p: nat, trampoline: nat, q: T.Pos)
    requires trampoline % 4096 == 0 && (forall k :: k in pt ==> pt[k].r) && Trap(p) in kern && OneUse(kern)
    requires q in PlacesOf(kern, p)
    ensures var t := TreeOf(pt, kern, p, trampoline);
            q in t.at && t.at[q] in t.tables && t.tables[t.at[q]] == PageAt(pt, kern, p, trampoline, q)
  {
    var at := PlacesOf(kern, p);
    assert at[q] in T.Places(at);
    PlacesApart(kern, p, q, PlaceFor(kern, p, at[q]));
  }

  lemma LocalAt(pt: map<Key, Pte>, kern: Kern, p: nat, trampoline: nat, q: T.Pos)
    requires trampoline % 4096 == 0 && (forall k :: k in pt ==> pt[k].r) && Trap(p) in kern && OneUse(kern)
    requires q in PlacesOf(kern, p)
    ensures T.Local(TreeOf(pt, kern, p, trampoline), q)
  {
    hide TreeOf, PlacesOf, EntryAt;
    var t, at := TreeOf(pt, kern, p, trampoline), PlacesOf(kern, p);
    TreeAt(pt, kern, p, trampoline);
    TableAt(pt, kern, p, trampoline, q);
    PlaceOf(kern, p, q);
    forall i | 0 <= i < ENTRIES && q.level > 0
      ensures T.Pointer(t, q, i)
    {
      if T.Child(q, i) in at {
        T.EntryBits(at[T.Child(q, i)] / 4096, 1);
      }
    }
    forall i | 0 <= i < ENTRIES && q.level == 0 && T.V(t.tables[t.at[q]][i])
      ensures T.RWX(t.tables[t.at[q]][i])
    {
      assert t.tables[t.at[q]][i] == EntryAt(pt, kern, p, trampoline, q.prefix * 512 + i);
    }
  }

  lemma TreeAt(pt: map<Key, Pte>, kern: Kern, p: nat, trampoline: nat)
    requires trampoline % 4096 == 0 && (forall k :: k in pt ==> pt[k].r) && Trap(p) in kern
    ensures var t := TreeOf(pt, kern, p, trampoline); t.at == PlacesOf(kern, p) && t.tables.Keys == T.Places(t.at)
  {
  }

  /** What a machine in order says of its page tables. */
  ghost predicate Laid(pt: map<Key, Pte>, kern: Kern, size: map<nat, nat>) {
    && (forall k :: k in pt ==> pt[k].r) && OneUse(kern) && Shaped(kern, size.Keys) && Covered(kern, size.Keys, pt.Keys)
    && Within(pt.Keys, size)
  }

  lemma GoodLaid(m: Machine)
    requires m.Good()
    ensures Laid(m.pt, m.kern, m.size)
  {
    hide Frames.Inv;
    Readable(m.M());
  }

  lemma Readable(m: Mem)
    requires Frames.Inv(m)
    ensures forall k :: k in m.pt ==> m.pt[k].r
  {
    forall k | k in m.pt
      ensures m.pt[k].r
    {
      assert PteOk(m, k);
    }
  }

  /** Each process's page table is a well-formed tree, made of the pages the kernel keeps for it. */
  lemma TreeOk(m: Machine, p: nat, trampoline: nat)
    requires m.Good() && p in m.size && trampoline % 4096 == 0
    ensures Trap(p) in m.kern && (forall k :: k in m.pt ==> m.pt[k].r) && T.Inv(TreeOf(m.pt, m.kern, p, trampoline))
  {
    hide Frames.Inv, TreeOf, T.Inv;
    GoodLaid(m);
    LaidOk(m.pt, m.kern, m.size, p, trampoline);
  }

  lemma LaidOk(pt: map<Key, Pte>, kern: Kern, size: map<nat, nat>, p: nat, trampoline: nat)
    requires Laid(pt, kern, size) && p in size && trampoline % 4096 == 0
    ensures Trap(p) in kern && T.Inv(TreeOf(pt, kern, p, trampoline))
  {
    hide TreeOf, PlacesOf, EntryAt, T.Local, Covered;
    BasicsThere(kern, size.Keys, pt.Keys, p);
    var t, at := TreeOf(pt, kern, p, trampoline), PlacesOf(kern, p);
    TreeAt(pt, kern, p, trampoline);
    PlaceOf(kern, p, T.Pos(2, 0));
    forall q | q in at
      ensures T.Local(t, q) && q.level <= 2 && (q.level == 2 ==> q.prefix == 0) && (q.level == 1 ==> q.prefix < 256)
      ensures q.level < 2 ==> T.Parent(q) in at
    {
      LocalAt(pt, kern, p, trampoline, q);
      PlaceOf(kern, p, q);
      PlaceOf(kern, p, T.Parent(q));
      assert Hangs(kern, Table(p, q.level, q.prefix));
    }
    forall q, r | q in at && r in at && at[q] == at[r]
      ensures q == r
    {
      PlacesApart(kern, p, q, r);
    }
  }

  /** And what the three levels say is what the flat table says, page by page. */
  lemma TreeSays(m: Machine, p: nat, trampoline: nat, v: nat)
    requires m.Good() && p in m.size && trampoline % 4096 == 0 && v <= TOP
    ensures Trap(p) in m.kern && (forall k :: k in m.pt ==> m.pt[k].r)
    ensures var flat := T.Flat(TreeOf(m.pt, m.kern, p, trampoline));
            && (v in flat <==> v == TOP || v == TOP - 1 || Key(p, v) in m.pt)
            && (v in flat ==> flat[v] == EntryAt(m.pt, m.kern, p, trampoline, v))
            && (Key(p, v) in m.pt ==> flat[v] == Word(m.pt[Key(p, v)]))
  {
    hide Frames.Inv, TreeOf, T.Flat, EntryAt, Word;
    GoodLaid(m);
    LaidSays(m.pt, m.kern, m.size, p, trampoline, v);
    UserEntry(m.pt, m.kern, m.size, p, trampoline, v);
  }

  lemma LaidSays(pt: map<Key, Pte>, kern: Kern, size: map<nat, nat>, p: nat, trampoline: nat, v: nat)
    requires Laid(pt, kern, size) && p in size && trampoline % 4096 == 0 && v <= TOP
    ensures Trap(p) in kern
    ensures var flat := T.Flat(TreeOf(pt, kern, p, trampoline));
            && (v in flat <==> v == TOP || v == TOP - 1 || Key(p, v) in pt)
            && (v in flat ==> flat[v] == EntryAt(pt, kern, p, trampoline, v))
  {
    hide TreeOf, PlacesOf, PageAt, EntryAt, T.Flat, Covered, Shaped;
    BasicsThere(kern, size.Keys, pt.Keys, p);
    TreeAt(pt, kern, p, trampoline);
    var t, q := TreeOf(pt, kern, p, trampoline), T.Pos(0, v / 512);
    PlaceOf(kern, p, q);
    if q in t.at {
      TableAt(pt, kern, p, trampoline, q);
      LeafIs(pt, kern, p, trampoline, v);
    } else {
      NoTableNoPage(pt, kern, size, p, v);
    }
    T.LeafAt(t, v);
  }

  lemma LeafIs(pt: map<Key, Pte>, kern: Kern, p: nat, trampoline: nat, v: nat)
    requires trampoline % 4096 == 0 && (forall k :: k in pt ==> pt[k].r) && Trap(p) in kern
    ensures PageAt(pt, kern, p, trampoline, T.Pos(0, v / 512))[v % 512] == EntryAt(pt, kern, p, trampoline, v)
  {
    hide EntryAt;
    assert v / 512 * 512 + v % 512 == v;
  }

  lemma NoTableNoPage(pt: map<Key, Pte>, kern: Kern, size: map<nat, nat>, p: nat, v: nat)
    requires Laid(pt, kern, size) && p in size && Table(p, 0, v / 512) !in kern
    ensures v != TOP && v != TOP - 1 && Key(p, v) !in pt
  {
    hide Shaped, OneUse;
    assert Basics(p) <= kern.Keys;
    assert Key(p, v) in pt.Keys ==> Tables(p, v) <= kern.Keys;
  }

  lemma UserEntry(pt: map<Key, Pte>, kern: Kern, size: map<nat, nat>, p: nat, trampoline: nat, v: nat)
    requires Laid(pt, kern, size) && p in size && trampoline % 4096 == 0 && Trap(p) in kern
    ensures Key(p, v) in pt ==> EntryAt(pt, kern, p, trampoline, v) == Word(pt[Key(p, v)])
  {
    hide Word, Shaped, OneUse, Covered, Within;
    WithinAbove(pt.Keys, size, p);
  }

  /** The tables of two processes share no page. */
  lemma TreesApart(m: Machine, p: nat, q: nat, trampoline: nat)
    requires m.Good() && p in m.size && q in m.size && p != q && trampoline % 4096 == 0
    ensures Trap(p) in m.kern && Trap(q) in m.kern && (forall k :: k in m.pt ==> m.pt[k].r)
    ensures TreeOf(m.pt, m.kern, p, trampoline).tables.Keys !! TreeOf(m.pt, m.kern, q, trampoline).tables.Keys
  {
    hide Frames.Inv, TreeOf, T.Places, PlacesOf;
    GoodLaid(m);
    BasicsThere(m.kern, m.size.Keys, m.pt.Keys, p);
    BasicsThere(m.kern, m.size.Keys, m.pt.Keys, q);
    TreeAt(m.pt, m.kern, p, trampoline);
    TreeAt(m.pt, m.kern, q, trampoline);
    PagesApart(m.kern, p, q);
  }

  lemma PagesApart(kern: Kern, p: nat, q: nat)
    requires OneUse(kern) && p != q
    ensures T.Places(PlacesOf(kern, p)) !! T.Places(PlacesOf(kern, q))
  {
    hide PlacesOf;
    forall x, y | x in PlacesOf(kern, p) && y in PlacesOf(kern, q)
      ensures PlacesOf(kern, p)[x] != PlacesOf(kern, q)[y]
    {
      PlaceOf(kern, p, x);
      PlaceOf(kern, q, y);
    }
  }

  /** walk has as many tables to allocate as the machine counts. */
  lemma SameMissing(pt: map<Key, Pte>, kern: Kern, p: nat, trampoline: nat, v: nat)
    requires trampoline % 4096 == 0 && (forall k :: k in pt ==> pt[k].r) && Trap(p) in kern
    ensures T.Missing(TreeOf(pt, kern, p, trampoline), v) == Lacks(kern, p, v)
  {
    hide TreeOf, PlacesOf;
    TreeAt(pt, kern, p, trampoline);
    PlaceOf(kern, p, T.Pos(1, v / 512 / 512));
    PlaceOf(kern, p, T.Pos(0, v / 512));
    LacksIs(kern, p, v);
  }
}
