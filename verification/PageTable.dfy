/** Sv39 page tables: three levels of 512-entry pages, as a flat map from page number to PTE.
    Shifts and masks of riscv.h are written as division and remainder by powers of two. */
module PageTable {
  import opened Common

  const NVPN := 0x400_0000           // MAXVA / PGSIZE

  // ---- riscv.h ----

  function PXSHIFT(level: nat): (s: nat)
    requires level <= 2
  {
    if level == 0 then 0x1000 else if level == 1 then 0x20_0000 else 0x4000_0000
  }

  function PX(level: nat, va: nat): (i: nat)
    requires level <= 2
    ensures i < ENTRIES
  {
    va / PXSHIFT(level) % 512
  }

  function PA2PTE(pa: nat): nat { pa / 4096 * 1024 }
  function PTE2PA(pte: nat): nat { pte / 1024 * 4096 }
  function Flags(pte: nat): nat { pte % 1024 }
  predicate V(pte: nat) { pte % 2 == 1 }
  predicate RWX(pte: nat) { pte / 2 % 8 != 0 }

  /** The same macros on 64-bit words. */
  lemma MacrosRoundTrip(pa: bv64, flags: bv64)
    requires pa & 0xfff == 0 && pa < 0x100_0000_0000_0000 && flags < 0x400
    ensures ((((pa >> 12) << 10) | flags) >> 10) << 12 == pa
    ensures (((pa >> 12) << 10) | flags) & 0x3ff == flags
  {
  }

  lemma PteRoundTrip(pa: nat, flags: nat)
    requires pa % 4096 == 0 && flags < 1024
    ensures PTE2PA(PA2PTE(pa) + flags) == pa && Flags(PA2PTE(pa) + flags) == flags
  {
  }

  /** The three indices spell the page number. */
  lemma Indices(va: nat)
    requires va < MAXVA
    ensures PX(2, va) == va / 4096 / 262144 < 256
    ensures PX(1, va) == va / 4096 / 512 % 512
    ensures PX(0, va) == va / 4096 % 512
    ensures va / 4096 < NVPN
  {
    assert va / 0x20_0000 == va / 4096 / 512;
    assert va / 0x4000_0000 == va / 4096 / 262144;
  }

  // ---- the tree ----

  /** A table page's place: level and the page-number bits above it. */
  datatype Pos = Pos(level: nat, prefix: nat)

  function Child(q: Pos, i: nat): (r: Pos)
    requires q.level > 0
  {
    Pos(q.level - 1, q.prefix * 512 + i)
  }

  function Parent(q: Pos): (r: Pos) {
    Pos(q.level + 1, q.prefix / 512)
  }

  /** Page-table memory: `tables` maps the physical address of a table page to its entries;
      `at` says which table page is at which place. */
  datatype Tree = Tree(tables: map<nat, seq<nat>>, at: map<Pos, nat>)

  /** The table page at q is a page of entries; above level 0 its valid entries point exactly to
      the tables that exist below it, at level 0 they are leaves. */
  predicate Local(t: Tree, q: Pos)
    requires q in t.at
  {
    && t.at[q] > 0 && t.at[q] % 4096 == 0
    && t.at[q] in t.tables && |t.tables[t.at[q]]| == ENTRIES
    && (q.level > 0 ==> forall i :: 0 <= i < ENTRIES ==> Pointer(t, q, i))
    && (q.level == 0 ==> forall i :: 0 <= i < ENTRIES && V(t.tables[t.at[q]][i]) ==> RWX(t.tables[t.at[q]][i]))
  }

  predicate Pointer(t: Tree, q: Pos, i: nat)
    requires q.level > 0 && q in t.at && t.at[q] in t.tables && i < |t.tables[t.at[q]]|
  {
    var e := t.tables[t.at[q]][i];
    (V(e) <==> Child(q, i) in t.at) && (V(e) ==> e == PA2PTE(t.at[Child(q, i)]) + 1)
  }

  /** The table pages that have a place. */
  function Places(at: map<Pos, nat>): (s: set<nat>) {
    set q | q in at :: at[q]
  }

  predicate Inv(t: Tree) {
    && Pos(2, 0) in t.at
    && (forall q :: q in t.at ==> Local(t, q))
    && (forall q :: q in t.at ==>
          q.level <= 2 && (q.level == 2 ==> q.prefix == 0) && (q.level == 1 ==> q.prefix < 256) && (q.level < 2 ==> Parent(q) in t.at))
    && (forall q, r :: q in t.at && r in t.at && t.at[q] == t.at[r] ==> q == r)
    && t.tables.Keys == Places(t.at)
  }

  /** What the three levels say about page v: its PTE, 0 when a table is missing. */
  function Leaf(t: Tree, v: nat): (pte: nat) {
    var q := Pos(0, v / 512);
    if q in t.at && t.at[q] in t.tables && |t.tables[t.at[q]]| == ENTRIES then t.tables[t.at[q]][v % 512] else 0
  }

  /** The flat map the page table stands for. */
  function Flat(t: Tree): (m: map<nat, nat>) {
    map v | 0 <= v < NVPN && V(Leaf(t, v)) :: Leaf(t, v)
  }

  /** memset(pagetable, 0, PGSIZE) */
  function NoEntries(): (s: seq<nat>) {
    seq(ENTRIES, i => 0)
  }

  /** A zeroed table page at pa becomes the i-th child of q. */
  function AddTable(t: Tree, q: Pos, i: nat, pa: nat): (r: Tree)
    requires q in t.at && q.level > 0 && t.at[q] in t.tables && i < |t.tables[t.at[q]]|
  {
    Tree(t.tables[pa := NoEntries()][t.at[q] := t.tables[t.at[q]][i := PA2PTE(pa) + 1]], t.at[Child(q, i) := pa])
  }

  function SetLeaf(t: Tree, v: nat, pte: nat): (r: Tree)
    requires Pos(0, v / 512) in t.at && t.at[Pos(0, v / 512)] in t.tables && |t.tables[t.at[Pos(0, v / 512)]]| == ENTRIES
  {
    var pa := t.at[Pos(0, v / 512)];
    var entries: seq<nat> := t.tables[pa];
    Tree(t.tables[pa := entries[v % 512 := pte]], t.at)
  }

  lemma ChildParent(q: Pos, i: nat)
    requires q.level > 0 && i < 512
    ensures Parent(Child(q, i)) == q
  {
  }

  lemma ChildDistinct(q: Pos, i: nat, r: Pos, j: nat)
    requires q.level > 0 && r.level > 0 && i < 512 && j < 512 && Child(q, i) == Child(r, j)
    ensures q == r && i == j
  {
  }

  predicate CanAdd(t: Tree, q: Pos, i: nat, pa: nat) {
    && Inv(t) && q in t.at && 0 < q.level <= 2 && i < 512 && Child(q, i) !in t.at && (q.level == 2 ==> i < 256)
    && pa > 0 && pa % 4096 == 0 && pa !in t.tables
  }

  lemma NoGrandchild(t: Tree, r: Pos, j: nat)
    requires Inv(t) && r !in t.at && 0 < r.level <= 2 && j < 512
    ensures Child(r, j) !in t.at
  {
    ChildParent(r, j);
  }

  lemma NewChildLocal(t: Tree, q: Pos, i: nat, pa: nat)
    requires q in t.at && 0 < q.level <= 2 && t.at[q] in t.tables && i < |t.tables[t.at[q]]| && pa !in t.tables
    requires pa > 0 && pa % 4096 == 0
    requires q.level == 2 ==> forall j :: 0 <= j < ENTRIES ==> Child(Child(q, i), j) !in t.at
    ensures Local(AddTable(t, q, i, pa), Child(q, i))
  {
    var u, r := AddTable(t, q, i, pa), Child(q, i);
    assert u.tables[pa] == NoEntries();
    if r.level > 0 {
      forall j | 0 <= j < ENTRIES ensures Pointer(u, r, j) { assert NoEntries()[j] == 0; }
    }
  }

  lemma OtherLocal(t: Tree, q: Pos, i: nat, pa: nat, r: Pos)
    requires q in t.at && 0 < q.level <= 2 && t.at[q] in t.tables && i < ENTRIES == |t.tables[t.at[q]]| && pa !in t.tables
    requires pa % 4096 == 0 && r in t.at && Local(t, r) && r != Child(q, i) && (t.at[r] == t.at[q] ==> r == q)
    requires Child(q, i) !in t.at
    ensures Local(AddTable(t, q, i, pa), r)
  {
    var u := AddTable(t, q, i, pa);
    if r.level > 0 {
      forall j | 0 <= j < ENTRIES ensures Pointer(u, r, j) {
        assert Pointer(t, r, j);
        if Child(r, j) == Child(q, i) {
          ChildDistinct(r, j, q, i);
          EntryBits(pa / 4096, 1);
        }
      }
    }
  }

  lemma AddTableLocal(t: Tree, q: Pos, i: nat, pa: nat, r: Pos)
    requires CanAdd(t, q, i, pa) && Local(t, q) && r in AddTable(t, q, i, pa).at
    ensures Local(AddTable(t, q, i, pa), r)
  {
    if r == Child(q, i) {
      forall j | 0 <= j < ENTRIES && r.level > 0 ensures Child(r, j) !in t.at { NoGrandchild(t, r, j); }
      NewChildLocal(t, q, i, pa);
    } else {
      OtherLocal(t, q, i, pa, r);
    }
  }

  lemma AddTableInv(t: Tree, q: Pos, i: nat, pa: nat)
    requires CanAdd(t, q, i, pa) && Local(t, q)
    ensures Inv(AddTable(t, q, i, pa))
  {
    var u := AddTable(t, q, i, pa);
    forall r | r in u.at ensures Local(u, r) { AddTableLocal(t, q, i, pa, r); }
    ChildParent(q, i);
    assert u.tables.Keys == t.tables.Keys + {pa};
    PlacesAdd(t.at, Child(q, i), pa);
  }

  lemma PlacesAdd(at: map<Pos, nat>, q: Pos, pa: nat)
    requires q !in at
    ensures Places(at[q := pa]) == Places(at) + {pa}
  {
    var b := at[q := pa];
    assert b[q] == pa;
    forall x | x in Places(at) ensures x in Places(b) {
      var r :| r in at && at[r] == x;
      assert b[r] == x;
    }
  }

  /** Creating a table changes no mapping. */
  lemma AddTableFlat(t: Tree, q: Pos, i: nat, pa: nat)
    requires CanAdd(t, q, i, pa) && Local(t, q)
    ensures Flat(AddTable(t, q, i, pa)) == Flat(t)
  {
    var u := AddTable(t, q, i, pa);
    forall v | 0 <= v < NVPN ensures V(Leaf(u, v)) == V(Leaf(t, v)) && (V(Leaf(t, v)) ==> Leaf(u, v) == Leaf(t, v)) {
      var r := Pos(0, v / 512);
      if r in t.at { assert Local(t, r); }
    }
  }

  lemma SetLeafInv(t: Tree, v: nat, pte: nat)
    requires Inv(t) && Pos(0, v / 512) in t.at && Local(t, Pos(0, v / 512)) && (V(pte) ==> RWX(pte))
    ensures Inv(SetLeaf(t, v, pte))
  {
    var u := SetLeaf(t, v, pte);
    forall r | r in u.at ensures Local(u, r) {
      assert Local(t, r);
      if r.level > 0 {
        forall j | 0 <= j < ENTRIES ensures Pointer(u, r, j) { assert Pointer(t, r, j); }
      }
    }
    assert u.tables.Keys == t.tables.Keys;
  }

  /** Writing a PTE changes that page's mapping and no other. */
  lemma SetLeafFlat(t: Tree, v: nat, pte: nat)
    requires Inv(t) && Pos(0, v / 512) in t.at && Local(t, Pos(0, v / 512)) && v < NVPN
    ensures Flat(SetLeaf(t, v, pte)) == if V(pte) then Flat(t)[v := pte] else Flat(t) - {v}
  {
    hide Inv, SetLeaf, Leaf;
    forall w | 0 <= w < NVPN ensures Leaf(SetLeaf(t, v, pte), w) == if w == v then pte else Leaf(t, w) {
      SetLeafLeaf(t, v, pte, w);
    }
  }

  lemma SetLeafLeaf(t: Tree, v: nat, pte: nat, w: nat)
    requires Inv(t) && Pos(0, v / 512) in t.at && Local(t, Pos(0, v / 512))
    ensures Leaf(SetLeaf(t, v, pte), w) == if w == v then pte else Leaf(t, w)
  {
    if w / 512 == v / 512 {
      assert w != v ==> w % 512 != v % 512;
    } else if Pos(0, w / 512) in t.at {
      assert t.at[Pos(0, w / 512)] != t.at[Pos(0, v / 512)];
    }
  }

  /** Where walk stands when it looks for page v at a level. */
  function Path(v: nat, level: nat): (q: Pos)
    requires level <= 2
  {
    if level == 2 then Pos(2, 0) else if level == 1 then Pos(1, v / 262144) else Pos(0, v / 512)
  }

  lemma PathChild(va: nat, level: nat)
    requires va < MAXVA && 0 < level <= 2
    ensures Child(Path(va / 4096, level), PX(level, va)) == Path(va / 4096, level - 1)
  {
    Indices(va);
  }

  lemma InvAt(t: Tree, q: Pos)
    requires Inv(t) && q in t.at
    ensures Local(t, q) && q.level <= 2
    ensures q.level > 0 ==> forall i :: 0 <= i < ENTRIES ==> Pointer(t, q, i)
    ensures forall pa :: pa in t.tables ==> pa % 4096 == 0
  {
    forall pa | pa in t.tables ensures pa % 4096 == 0 {
      var r :| r in t.at && t.at[r] == pa;
      assert Local(t, r);
    }
  }

  /** Tables missing on the way to page v. */
  function Missing(t: Tree, v: nat): (n: nat) {
    (if Path(v, 1) in t.at then 0 else 1) + (if Path(v, 0) in t.at then 0 else 1)
  }

  /** The tables below the root that lead to pages v..v + n. */
  function TablesTo(v: nat, n: nat): (qs: set<Pos>) {
    if n == 0 then {} else TablesTo(v, n - 1) + {Path(v + n - 1, 1), Path(v + n - 1, 0)}
  }

  /** How many of them are missing. */
  function Lacking(t: Tree, v: nat, n: nat): (k: nat) {
    |TablesTo(v, n) - t.at.Keys|
  }

  /** After n pages have their tables, the next page's are what is missing to n + 1. */
  lemma LackingNext(t: Tree, u: Tree, v: nat, n: nat)
    requires u.at.Keys == t.at.Keys + TablesTo(v, n)
    ensures Lacking(t, v, n + 1) == Lacking(t, v, n) + Missing(u, v + n)
    ensures u.at.Keys + {Path(v + n, 1), Path(v + n, 0)} == t.at.Keys + TablesTo(v, n + 1)
  {
    hide Path, TablesTo;
    TwoLevels(v + n);
    TablesStep(v, n);
    LackingCount(TablesTo(v, n), t.at.Keys, u.at.Keys, Path(v + n, 1), Path(v + n, 0));
    PairJoins(t.at.Keys, TablesTo(v, n), Path(v + n, 1), Path(v + n, 0));
  }

  lemma PairJoins(ks: set<Pos>, a: set<Pos>, q: Pos, r: Pos)
    ensures ks + a + {q, r} == ks + (a + {q, r})
  {
  }

  lemma TablesStep(v: nat, n: nat)
    ensures TablesTo(v, n + 1) == TablesTo(v, n) + {Path(v + n, 1), Path(v + n, 0)}
  {
    hide Path;
  }

  lemma TwoLevels(v: nat)
    ensures Path(v, 1) != Path(v, 0)
  {
  }

  lemma LackingCount(a: set<Pos>, ks: set<Pos>, us: set<Pos>, q: Pos, r: Pos)
    requires us == ks + a && q != r
    ensures |a + {q, r} - ks| == |a - ks| + (if q in us then 0 else 1) + (if r in us then 0 else 1)
  {
    var more := (if q in us then {} else {q}) + (if r in us then {} else {r});
    assert a + {q, r} - ks == (a - ks) + more;
  }

  lemma LackingNone(t: Tree, v: nat)
    ensures TablesTo(v, 0) == {} && Lacking(t, v, 0) == 0
  {
    assert TablesTo(v, 0) - t.at.Keys == {};
  }

  lemma {:induction false} TablesMono(v: nat, n: nat, k: nat)
    requires k <= n
    ensures TablesTo(v, k) <= TablesTo(v, n)
  {
    hide Path, TablesTo;
    if k < n {
      TablesMono(v, n - 1, k);
      TablesStep(v, n - 1);
    }
  }

  lemma LackingMono(t: Tree, v: nat, n: nat, k: nat)
    requires k <= n
    ensures Lacking(t, v, k) <= Lacking(t, v, n)
  {
    hide TablesTo;
    TablesMono(v, n, k);
    SubsetSize(TablesTo(v, k) - t.at.Keys, TablesTo(v, n) - t.at.Keys);
  }

  lemma MissingOrder(t: Tree, v: nat)
    requires Inv(t) && v < NVPN && Path(v, 0) in t.at
    ensures Path(v, 1) in t.at
  {
    assert Parent(Path(v, 0)) == Path(v, 1);
  }

  lemma OneTable(pa: nat)
    requires pa > 0 && pa % 4096 == 0
    ensures var t := Tree(map[pa := NoEntries()], map[Pos(2, 0) := pa]); Inv(t) && Flat(t) == map[]
  {
    hide Flat;
    var t := Tree(map[pa := NoEntries()], map[Pos(2, 0) := pa]);
    forall i | 0 <= i < ENTRIES ensures Pointer(t, Pos(2, 0), i) { assert NoEntries()[i] == 0; }
    assert t.at[Pos(2, 0)] == pa;
    RootOnly(t);
  }

  lemma RootOnly(t: Tree)
    requires forall q :: q in t.at ==> q.level == 2
    ensures Flat(t) == map[]
  {
    assert forall v :: 0 <= v < NVPN ==> Leaf(t, v) == 0;
  }

  /** Free pages: distinct, aligned, not null, and not table pages. */
  predicate FreeOk(free: seq<nat>, used: set<nat>) {
    && (forall i :: 0 <= i < |free| ==> free[i] > 0 && free[i] % 4096 == 0 && free[i] !in used)
    && (forall i, j :: 0 <= i < j < |free| ==> free[i] != free[j])
  }

  lemma TakeFree(free: seq<nat>, used: set<nat>)
    requires FreeOk(free, used) && free != []
    ensures FreeOk(free[1..], used + {free[0]})
    ensures free[0] > 0 && free[0] % 4096 == 0 && free[0] !in used
  {
  }

  class PageTables {
    var root: nat
    var tables: map<nat, seq<nat>>
    var free: seq<nat>              // pages kalloc can hand out
    ghost var at: map<Pos, nat>

    ghost function T(): Tree
      reads this
    {
      Tree(tables, at)
    }

    ghost predicate Valid()
      reads this
    {
      Inv(T()) && FreeOk(free, tables.Keys) && Pos(2, 0) in at && at[Pos(2, 0)] == root
    }

    /** uvmcreate: one zeroed root page, the page `first`. */
    constructor (first: nat, rest: seq<nat>)
      requires forall i :: 0 <= i < |rest| ==> rest[i] > 0 && rest[i] % 4096 == 0 && rest[i] != first
      requires forall i, j :: 0 <= i < j < |rest| ==> rest[i] != rest[j]
      requires first > 0 && first % 4096 == 0
      ensures Valid() && free == rest && Flat(T()) == map[]
    {
      root, tables, free := first, map[first := NoEntries()], rest;
      at := map[Pos(2, 0) := first];
      new;
      OneTable(first);
    }

    /** The page and index of va's leaf PTE. With alloc, missing tables are created from free pages;
        without, or with too few free pages, the answer may be None. */
    method Walk(va: nat, alloc: bool) returns (r: Option<(nat, nat)>)
      requires Valid() && va < MAXVA   // the source panics otherwise
      modifies this`tables, this`free, this`at
      ensures Valid() && Flat(T()) == old(Flat(T()))
      ensures !alloc ==> T() == old(T()) && free == old(free)
      ensures r.Some? ==> Path(va / 4096, 0) in at && r.value == (at[Path(va / 4096, 0)], va / 4096 % 512)
      ensures r.None? <==> if alloc then |old(free)| < Missing(old(T()), va / 4096) else Path(va / 4096, 0) !in old(at)
      ensures alloc && r.Some? ==>
        && |free| == |old(free)| - Missing(old(T()), va / 4096)
        && at.Keys == old(at).Keys + {Path(va / 4096, 1), Path(va / 4096, 0)}
    {
      hide Inv, Flat, Local;
      Indices(va);
      var pagetable, level := root, 2;
      ghost var v := va / 4096;
      if Path(v, 0) in at { MissingOrder(T(), v); }
      while level > 0
        invariant 0 <= level <= 2
        invariant Path(v, level) in at && pagetable == at[Path(v, level)]
        invariant Valid() && Flat(T()) == old(Flat(T()))
        invariant !alloc ==> T() == old(T()) && free == old(free)
        invariant alloc ==> |free| - Missing(T(), v) == |old(free)| - Missing(old(T()), v)
        invariant level <= 1 ==> Path(v, 1) in at
        invariant Path(v, 0) in at ==> Path(v, 1) in at
        invariant old(at).Keys <= at.Keys <= old(at).Keys + {Path(v, 1), Path(v, 0)}
      {
        var below := Descend(va, level, pagetable, alloc);
        if below.None? {
          return None;
        }
        pagetable, level := below.value, level - 1;
      }
      r := Some((pagetable, PX(0, va)));
    }

    /** One turn of walk: follow the entry at this level, or make the table it lacks. */
    method Descend(va: nat, level: nat, pagetable: nat, alloc: bool) returns (r: Option<nat>)
      requires Valid() && va < MAXVA && 0 < level <= 2
      requires Path(va / 4096, level) in at && at[Path(va / 4096, level)] == pagetable
      modifies this`tables, this`free, this`at
      ensures Valid() && Flat(T()) == old(Flat(T()))
      ensures r.None? <==> Path(va / 4096, level - 1) !in old(at) && (!alloc || old(free) == [])
      ensures r.None? || Path(va / 4096, level - 1) in old(at) ==> T() == old(T()) && free == old(free)
      ensures r.Some? ==> Path(va / 4096, level - 1) in at && at[Path(va / 4096, level - 1)] == r.value
      ensures r.Some? && Path(va / 4096, level - 1) !in old(at) ==>
                at == old(at)[Path(va / 4096, level - 1) := r.value] && |free| == |old(free)| - 1
    {
      hide Inv, Flat, Local, PX, PA2PTE, PTE2PA, V, NoEntries, FreeOk;
      Indices(va);
      ghost var q := Path(va / 4096, level);
      PathChild(va, level);
      var i := PX(level, va);
      TableAt(T(), q, i);
      var pte := tables[pagetable][i];
      if V(pte) {
        return Some(PTE2PA(pte));
      }
      if !alloc || free == [] {
        return None;
      }
      var page := NewTable(q, i, pagetable);
      r := Some(page);
    }

    /** kalloc a page, zero it, and hang it under entry i of q's table. */
    method NewTable(ghost q: Pos, i: nat, pagetable: nat) returns (page: nat)
      requires Valid() && free != [] && q in at && at[q] == pagetable && 0 < q.level <= 2
      requires i < ENTRIES && Child(q, i) !in at && (q.level == 2 ==> i < 256)
      modifies this`tables, this`free, this`at
      ensures Valid() && Flat(T()) == old(Flat(T()))
      ensures at == old(at)[Child(q, i) := page] && page == old(free[0]) && free == old(free[1..])
    {
      hide Inv, Flat, PA2PTE, NoEntries, FreeOk, Local, Child;
      page := free[0];
      AddTableReady(T(), q, i, free);
      free := free[1..];
      tables := tables[page := NoEntries()][pagetable := tables[pagetable][i := PA2PTE(page) + 1]];
      at := at[Child(q, i) := page];
    }

    /** *pte = value, through the pointer walk returned for page v. */
    method SetPte(v: nat, where: (nat, nat), pte: nat)
      requires Valid() && v < NVPN && Path(v, 0) in at && where == (at[Path(v, 0)], v % 512)
      requires V(pte) ==> RWX(pte)
      modifies this`tables
      ensures Valid() && Flat(T()) == if V(pte) then old(Flat(T()))[v := pte] else old(Flat(T())) - {v}
    {
      hide Inv, Flat, FreeOk, V, RWX;
      InvAt(T(), Path(v, 0));
      SetLeafInv(T(), v, pte);
      SetLeafFlat(T(), v, pte);
      var entries: seq<nat> := tables[where.0];
      tables := tables[where.0 := entries[where.1 := pte]];
      assert tables.Keys == old(tables.Keys);
    }

    /** *pte, through the pointer walk returned for page v. */
    method GetPte(v: nat, where: (nat, nat)) returns (pte: nat)
      requires Valid() && v < NVPN && Path(v, 0) in at && where == (at[Path(v, 0)], v % 512)
      ensures if V(pte) then v in Flat(T()) && Flat(T())[v] == pte else v !in Flat(T())
    {
      InvAt(T(), Path(v, 0));
      pte := tables[where.0][where.1];
      LeafAt(T(), v);
    }

    /** Map size bytes at va to pa. The source panics on a misaligned or empty range and on a page that is
        already mapped; it fails exactly when more tables are missing than pages are free, and then the pages
        before the one that lacked a table stay mapped. */
    method Mappages(va: nat, size: nat, pa: nat, perm: nat) returns (ok: bool, done: nat)
      requires Valid() && va % 4096 == 0 && size % 4096 == 0 && size > 0 && va + size <= MAXVA
      requires pa % 4096 == 0 && perm < 1024 && RWX(perm)
      requires forall v :: va / 4096 <= v < (va + size) / 4096 ==> v !in Flat(T())
      modifies this`tables, this`free, this`at
      ensures Valid()
      ensures done <= size / 4096 && (ok <==> done == size / 4096)
      ensures ok <==> Lacking(old(T()), va / 4096, size / 4096) <= |old(free)|
      ensures !ok ==> Lacking(old(T()), va / 4096, done) <= |old(free)| < Lacking(old(T()), va / 4096, done + 1)
      ensures Flat(T()) == MapRange(old(Flat(T())), va / 4096, done, pa, perm)
    {
      hide Inv, Flat, FreeOk, MapRange, Path, RWX, V, Entry, Lacking, Missing, TablesTo;
      ghost var t := T();
      LackingNone(t, va / 4096);
      var a, last, to := va, va + size - 4096, pa;
      done := 0;
      MapRangeNone(Flat(T()), va / 4096, pa, perm);
      while true
        invariant Valid() && a == va + 4096 * done && to == pa + 4096 * done && a <= last
        invariant Flat(T()) == MapRange(old(Flat(T())), va / 4096, done, pa, perm)
        invariant at.Keys == old(at).Keys + TablesTo(va / 4096, done) && |free| == |old(free)| - Lacking(t, va / 4096, done)
        decreases last - a
      {
        LackingNext(t, T(), va / 4096, done);
        MapRangeNext(old(Flat(T())), va / 4096, done, pa, perm);
        Advance(va, done);
        Advance(pa, done);
        Advance(va, size / 4096);
        var where := Walk(a, true);
        if where.None? {
          LackingMono(t, va / 4096, size / 4096, done + 1);
          return false, done;
        }
        SetPte(a / 4096, where.value, Entry(to, perm));
        done := done + 1;
        if a == last {
          break;
        }
        a, to := a + 4096, to + 4096;
      }
      ok := true;
    }

    /** Clear npages PTEs from va on; missing tables and invalid PTEs are skipped. */
    method Uvmunmap(va: nat, npages: nat)
      requires Valid() && va % 4096 == 0 && va + 4096 * npages <= MAXVA
      modifies this`tables, this`free, this`at
      ensures Valid()
      ensures Flat(T()) == map v | v in old(Flat(T())) && !(va / 4096 <= v < va / 4096 + npages) :: old(Flat(T()))[v]
    {
      hide Inv, Flat, FreeOk, Path;
      var i := 0;
      while i < npages
        invariant 0 <= i <= npages && Valid()
        invariant Flat(T()) == map v | v in old(Flat(T())) && !(va / 4096 <= v < va / 4096 + i) :: old(Flat(T()))[v]
      {
        var a := va + 4096 * i;
        Advance(va, i);
        var where := Walk(a, false);
        if where.Some? {
          var pte := GetPte(a / 4096, where.value);
          if V(pte) {
            SetPte(a / 4096, where.value, 0);
          }
        } else {
          NoTable(T(), a / 4096);
        }
        i := i + 1;
      }
    }

    /** uvmfree's last step, on the whole table: it succeeds exactly when nothing is mapped any more,
        and then every table page is free again, once. */
    method Destroy() returns (ok: bool)
      requires Valid()
      modifies this`tables, this`free, this`at
      ensures ok <==> old(Flat(T())) == map[]
      ensures ok ==> at == map[] && FreeOk(free, {}) && Elements(free) == Elements(old(free)) + old(tables.Keys)
    {
      hide Inv, Flat, FreeOk, Outside, PagesBelow, NoLeaves, Under, Elements;
      WholeTree(T());
      WholePages(T());
      EmptyFlat(T());
      ok := Freewalk(Pos(2, 0), root);
      if ok {
        FreeSubset(free, tables.Keys);
      }
    }

    /** What freewalk needs of the subtree it frees: its tables are well formed and nobody else's. */
    ghost predicate Freeable(q: Pos, pa: nat)
      reads this
    {
      && q in at && at[q] == pa && q.level <= 2
      && Below(T(), q) && Injective(at) && FreeOk(free, tables.Keys)
      && (forall r :: r in at ==> at[r] in tables)
      && Closed(at, q)
    }

    /** kfree a table page. */
    method KfreeTable(ghost q: Pos, pa: nat)
      requires q in at && at[q] == pa && pa in tables && pa > 0 && pa % 4096 == 0
      requires Injective(at) && FreeOk(free, tables.Keys) && forall r :: r in at ==> at[r] in tables
      modifies this`tables, this`free, this`at
      ensures free == [pa] + old(free) && tables == old(tables) - {pa} && at == old(at) - {q}
      ensures Injective(at) && FreeOk(free, tables.Keys) && forall r :: r in at ==> at[r] in tables
    {
      free := [pa] + free;
      tables := tables - {pa};
      at := at - {q};
    }

    /** freewalk: free the table page pa at place q and every table below it, each exactly once.
        The source panics, and ok is false, exactly when a leaf mapping is left. */
    method Freewalk(ghost q: Pos, pa: nat) returns (ok: bool)
      requires Freeable(q, pa)
      modifies this`tables, this`free, this`at
      ensures ok <==> NoLeaves(old(T()), q)
      ensures ok ==> Injective(at) && FreeOk(free, tables.Keys) && forall r :: r in at ==> at[r] in tables
      ensures ok ==> at == Outside(old(at), q, ENTRIES) - {q}
      ensures ok ==> forall r :: r in at ==> at[r] in old(tables) && tables[at[r]] == old(tables)[at[r]]
      ensures ok ==> Elements(free) == Elements(old(free)) + PagesBelow(old(at), q)
      decreases q.level, 1
    {
      hide Below, FreeOk, Outside, PagesUpTo, PagesBelow, NoLeaves, NoLeavesUpTo, Under, Slot, Elements, V, RWX;
      ghost var t, free0 := T(), free;
      StartWalk(t, q, pa, free0);
      var i := 0;
      while i < ENTRIES
        invariant 0 <= i <= ENTRIES
        invariant Walked(t, T(), q, pa, i)
        invariant Injective(at) && FreeOk(free, tables.Keys) && forall r :: r in at ==> at[r] in tables
        invariant Elements(free) == Elements(free0) + PagesUpTo(t.at, q, i)
        invariant NoLeavesUpTo(t, q, i)
      {
        EntryKind(t, T(), q, pa, i);
        var pte := tables[pa][i];
        if V(pte) && !RWX(pte) {
          var freed := FreeChild(t, q, pa, i, PTE2PA(pte));
          if !freed {
            return false;
          }
        } else if V(pte) {
          return false;
        } else {
          SkipEntry(t, T(), q, pa, i);
        }
        i := i + 1;
      }
      LastPage(t, T(), q, pa, free);
      KfreeTable(q, pa);
      EndWalk(t, q);
      ok := true;
    }

    /** The recursive turn of freewalk: free the subtree under entry i, then clear the entry. */
    method FreeChild(ghost t: Tree, ghost q: Pos, pa: nat, i: nat, child: nat) returns (ok: bool)
      requires q.level > 0 && i < ENTRIES && Walked(t, T(), q, pa, i)
      requires Below(t, q) && Closed(t.at, q) && Injective(t.at) && q.level <= 2
      requires Injective(at) && FreeOk(free, tables.Keys) && forall r :: r in at ==> at[r] in tables
      requires Child(q, i) in t.at && t.at[Child(q, i)] == child
      requires NoLeavesUpTo(t, q, i)
      modifies this`tables, this`free, this`at
      ensures !ok ==> !NoLeaves(t, q)
      ensures ok ==> NoLeavesUpTo(t, q, i + 1) && Walked(t, T(), q, pa, i + 1)
      ensures ok ==> Injective(at) && FreeOk(free, tables.Keys) && forall r :: r in at ==> at[r] in tables
      ensures ok ==> PagesUpTo(t.at, q, i + 1) == PagesUpTo(t.at, q, i) + PagesBelow(old(at), Child(q, i))
      ensures ok ==> Elements(free) == Elements(old(free)) + PagesBelow(old(at), Child(q, i))
      decreases q.level, 0
    {
      hide Below, FreeOk, Outside, PagesUpTo, PagesBelow, NoLeaves, NoLeavesUpTo, Under, Slot, Elements, V, RWX;
      ghost var u := T();
      ChildFreeable(t, u, q, pa, i);
      ChildLeaves(t, u, q, pa, i);
      ok := Freewalk(Child(q, i), child);
      if ok {
        WalkedNext(t, u, q, pa, i);
        assert at[q] == pa;
        ghost var pages := tables.Keys;
        tables := tables[pa := tables[pa][i := 0]];
        assert tables.Keys == pages;
        forall r | r in at && r != q
          ensures at[r] in tables && at[r] in t.tables && tables[at[r]] == t.tables[at[r]]
        {
          assert at[r] != at[q] && r in u.at && u.at[r] == at[r];
        }
      }
    }
  }

  ghost predicate Injective(at: map<Pos, nat>) {
    forall q, r :: q in at && r in at && at[q] == at[r] ==> q == r
  }

  /** r is q or a table below it. */
  predicate Under(q: Pos, r: Pos) {
    && r.level <= q.level <= 2
    && if r.level == q.level then r == q
       else if r.level + 1 == q.level then Parent(r) == q
       else Parent(Parent(r)) == q
  }

  /** Which entry of q leads to r. */
  function Slot(q: Pos, r: Pos): (i: int)
    requires Under(q, r) && r != q
  {
    if r.level + 1 == q.level then r.prefix - q.prefix * 512 else r.prefix / 512 - q.prefix * 512
  }

  lemma SlotChild(q: Pos, r: Pos)
    requires Under(q, r) && r != q
    ensures q.level > 0 && 0 <= Slot(q, r) < ENTRIES && Under(Child(q, Slot(q, r)), r)
  {
  }

  lemma ChildSlot(q: Pos, i: nat, r: Pos)
    requires 0 < q.level <= 2 && i < ENTRIES && Under(Child(q, i), r)
    ensures Under(q, r) && r != q && Slot(q, r) == i
  {
  }

  ghost predicate Below(t: Tree, q: Pos) {
    forall r :: r in t.at && Under(q, r) ==> Local(t, r)
  }

  /** No level-0 table below q has a valid PTE. */
  ghost predicate NoLeaves(t: Tree, q: Pos)
  {
    forall r, i :: r in t.at && Under(q, r) && r.level == 0 && t.at[r] in t.tables && 0 <= i < |t.tables[t.at[r]]| ==>
      !V(t.tables[t.at[r]][i])
  }

  function PagesBelow(at: map<Pos, nat>, q: Pos): set<nat> {
    set r | r in at && Under(q, r) :: at[r]
  }

  /** The places that are not under one of q's first i entries. */
  function Outside(at: map<Pos, nat>, q: Pos, i: nat): (r: map<Pos, nat>) {
    map r | r in at && !(Under(q, r) && r != q && Slot(q, r) < i) :: at[r]
  }

  function PagesUpTo(at: map<Pos, nat>, q: Pos, i: nat): set<nat> {
    set r | r in at && Under(q, r) && r != q && Slot(q, r) < i :: at[r]
  }

  ghost predicate NoLeavesUpTo(t: Tree, q: Pos, i: nat) {
    && (forall r, j ::
          r in t.at && Under(q, r) && r != q && Slot(q, r) < i && r.level == 0 && t.at[r] in t.tables && 0 <= j < |t.tables[t.at[r]]|
          ==> !V(t.tables[t.at[r]][j]))
    && (q.level == 0 && q in t.at && t.at[q] in t.tables ==>
          forall j :: 0 <= j < i && j < |t.tables[t.at[q]]| ==> !V(t.tables[t.at[q]][j]))
  }

  /** Below q, a table hangs from a table. */
  ghost predicate Closed(at: map<Pos, nat>, q: Pos) {
    forall r :: r in at && Under(q, r) && r != q ==> Parent(r) in at
  }

  /** freewalk started with t at q's page pa, has done i entries, and memory is now u. */
  ghost predicate Walked(t: Tree, u: Tree, q: Pos, pa: nat, i: nat) {
    && q in t.at && q in u.at && u.at[q] == t.at[q] == pa
    && pa in u.tables && pa in t.tables && |u.tables[pa]| == |t.tables[pa]| == ENTRIES
    && u.at == Outside(t.at, q, i)
    && (forall r :: r in u.at && r != q ==> u.at[r] in u.tables && u.at[r] in t.tables && u.tables[u.at[r]] == t.tables[u.at[r]])
    && (forall j :: i <= j < ENTRIES ==> u.tables[pa][j] == t.tables[pa][j])
  }

  function Elements(s: seq<nat>): set<nat> {
    set x | x in s
  }

  lemma FreeSubset(free: seq<nat>, used: set<nat>)
    requires FreeOk(free, used)
    ensures FreeOk(free, {})
  {
  }

  /** Every table of a well-formed tree is under its root. */
  lemma WholeUnder(t: Tree, r: Pos)
    requires Inv(t) && r in t.at
    ensures Under(Pos(2, 0), r) && t.at[r] in t.tables
  {
    assert Local(t, r);
    if r.level < 2 { assert Parent(r) in t.at; }
    if r.level == 0 { assert Parent(Parent(r)) in t.at; }
  }

  lemma WholeTree(t: Tree)
    requires Inv(t)
    ensures forall r :: r in t.at ==> Under(Pos(2, 0), r) && t.at[r] in t.tables
    ensures Below(t, Pos(2, 0)) && Closed(t.at, Pos(2, 0)) && Injective(t.at)
  {
    hide Local, Under;
    forall r | r in t.at ensures Under(Pos(2, 0), r) && t.at[r] in t.tables && (r != Pos(2, 0) ==> Parent(r) in t.at) {
      WholeUnder(t, r);
    }
  }

  lemma WholePages(t: Tree)
    requires Inv(t)
    ensures PagesBelow(t.at, Pos(2, 0)) == t.tables.Keys
    ensures Outside(t.at, Pos(2, 0), ENTRIES) - {Pos(2, 0)} == map[]
  {
    hide Local, Under, Slot;
    WholeTree(t);
    assert PagesBelow(t.at, Pos(2, 0)) == Places(t.at);
    forall r | r in t.at && r != Pos(2, 0) ensures Slot(Pos(2, 0), r) < ENTRIES { SlotChild(Pos(2, 0), r); }
  }

  /** A level-0 entry of a well-formed tree is the PTE of a page below MAXVA. */
  lemma LeafEntry(t: Tree, r: Pos, i: nat)
    requires Inv(t) && r in t.at && r.level == 0 && i < ENTRIES
    ensures r.prefix * 512 + i < NVPN && Local(t, r) && Leaf(t, r.prefix * 512 + i) == t.tables[t.at[r]][i]
  {
    hide Inv;
    InvAt(t, r);
    LeafPrefix(t, r);
    assert (r.prefix * 512 + i) / 512 == r.prefix && (r.prefix * 512 + i) % 512 == i;
  }

  lemma LeafPrefix(t: Tree, r: Pos)
    requires Inv(t) && r in t.at && r.level == 0
    ensures r.prefix < 0x2_0000 && t.at[r] in t.tables
  {
    assert Local(t, r) && Parent(r) in t.at;
  }

  /** No leaf is left exactly when the flat map is empty. */
  lemma EmptyFlat(t: Tree)
    requires Inv(t)
    ensures NoLeaves(t, Pos(2, 0)) <==> Flat(t) == map[]
  {
    hide Inv, Under, Flat, NoLeaves, Local;
    if Flat(t) == map[] { EmptyNoLeaves(t); } else { SomeLeaf(t); }
  }

  lemma EmptyNoLeaves(t: Tree)
    requires Inv(t) && Flat(t) == map[]
    ensures NoLeaves(t, Pos(2, 0))
  {
    hide Inv, Under, Flat;
    forall r, i | r in t.at && r.level == 0 && t.at[r] in t.tables && 0 <= i < |t.tables[t.at[r]]|
      ensures !V(t.tables[t.at[r]][i])
    {
      InvAt(t, r);
      LeafEntry(t, r, i);
      LeafAt(t, r.prefix * 512 + i);
    }
  }

  lemma SomeLeaf(t: Tree)
    requires Inv(t) && Flat(t) != map[]
    ensures !NoLeaves(t, Pos(2, 0))
  {
    hide Inv, Under, Local;
    var v :| v in Flat(t);
    var r := Pos(0, v / 512);
    assert r in t.at && V(t.tables[t.at[r]][v % 512]);
    WholeUnder(t, r);
  }

  // ---- steps of freewalk ----

  lemma StartWalk(t: Tree, q: Pos, pa: nat, free: seq<nat>)
    requires q in t.at && t.at[q] == pa && q.level <= 2 && Below(t, q) && forall r :: r in t.at ==> t.at[r] in t.tables
    ensures Walked(t, t, q, pa, 0) && PagesUpTo(t.at, q, 0) == {} && NoLeavesUpTo(t, q, 0) && Local(t, q)
  {
    assert Under(q, q);
    forall r | r in t.at && Under(q, r) && r != q ensures Slot(q, r) >= 0 { SlotChild(q, r); }
    assert Outside(t.at, q, 0) == t.at;
  }

  /** A valid entry is a pointer to the child table above level 0 and a leaf at level 0. */
  lemma EntryKind(t: Tree, u: Tree, q: Pos, pa: nat, i: nat)
    requires Walked(t, u, q, pa, i) && i < ENTRIES && Local(t, q) && Below(t, q) && Closed(t.at, q) && q.level <= 2
    ensures var e := u.tables[pa][i];
            && (V(e) && !RWX(e) ==> q.level > 0 && Child(q, i) in t.at && t.at[Child(q, i)] == PTE2PA(e))
            && (V(e) && RWX(e) ==> !NoLeaves(t, q))
            && (!V(e) ==> q.level > 0 ==> Child(q, i) !in t.at)
  {
    var e := u.tables[pa][i];
    assert e == t.tables[pa][i];
    assert Under(q, q);
    if q.level > 0 {
      assert Pointer(t, q, i);
      if V(e) {
        ChildSlot(q, i, Child(q, i));
        assert Local(t, Child(q, i));
        PteRoundTrip(t.at[Child(q, i)], 1);
        EntryBits(t.at[Child(q, i)] / 4096, 1);
      }
    }
  }

  /** Nothing is below an invalid entry. */
  lemma SkipEntry(t: Tree, u: Tree, q: Pos, pa: nat, i: nat)
    requires Walked(t, u, q, pa, i) && i < ENTRIES && Closed(t.at, q) && q.level <= 2
    requires !V(u.tables[pa][i]) && (q.level > 0 ==> Child(q, i) !in t.at) && NoLeavesUpTo(t, q, i)
    ensures Walked(t, u, q, pa, i + 1) && PagesUpTo(t.at, q, i + 1) == PagesUpTo(t.at, q, i) && NoLeavesUpTo(t, q, i + 1)
  {
    forall r | r in t.at && Under(q, r) && r != q ensures Slot(q, r) != i {
      SlotChild(q, r);
      assert Parent(r) in t.at;
    }
    assert Outside(t.at, q, i + 1) == Outside(t.at, q, i);
  }

  lemma ChildFreeable(t: Tree, u: Tree, q: Pos, pa: nat, i: nat)
    requires Walked(t, u, q, pa, i) && i < ENTRIES && 0 < q.level <= 2
    requires Below(t, q) && Closed(t.at, q) && Child(q, i) in t.at
    ensures Child(q, i) in u.at && u.at[Child(q, i)] == t.at[Child(q, i)]
    ensures Below(u, Child(q, i)) && Closed(u.at, Child(q, i))
  {
    var c := Child(q, i);
    forall r | r in t.at && Under(c, r) ensures r in u.at && u.at[r] == t.at[r] && Local(u, r) { ChildKept(t, u, q, pa, i, r); }
    assert Under(c, c);
    forall r | r in u.at && Under(c, r) && r != c ensures Parent(r) in u.at {
      ChildSlot(q, i, r);
      SlotChild(c, r);
      assert Under(c, Parent(r));
    }
  }

  /** A table under an entry not yet done is as it was. */
  lemma ChildKept(t: Tree, u: Tree, q: Pos, pa: nat, i: nat, r: Pos)
    requires Walked(t, u, q, pa, i) && i < ENTRIES && 0 < q.level <= 2
    requires Below(t, q) && r in t.at && Under(Child(q, i), r)
    ensures r in u.at && u.at[r] == t.at[r] && Local(u, r)
  {
    ChildSlot(q, i, r);
    assert Local(t, r);
    if r.level > 0 {
      forall j | 0 <= j < ENTRIES ensures Pointer(u, r, j) {
        assert Pointer(t, r, j);
        assert Under(Child(q, i), Child(r, j)) by { ChildParent(r, j); }
        ChildSlot(q, i, Child(r, j));
      }
    }
  }

  /** The child's leaves are the leaves under entry i. */
  lemma ChildLeaves(t: Tree, u: Tree, q: Pos, pa: nat, i: nat)
    requires Walked(t, u, q, pa, i) && i < ENTRIES && 0 < q.level <= 2
    requires Below(t, q) && NoLeavesUpTo(t, q, i)
    ensures NoLeaves(u, Child(q, i)) ==> NoLeavesUpTo(t, q, i + 1)
    ensures !NoLeaves(u, Child(q, i)) ==> !NoLeaves(t, q)
  {
    var c := Child(q, i);
    if NoLeaves(u, c) {
      forall r, j | r in t.at && Under(q, r) && r != q && Slot(q, r) < i + 1 && r.level == 0
                    && t.at[r] in t.tables && 0 <= j < |t.tables[t.at[r]]|
        ensures !V(t.tables[t.at[r]][j])
      {
        if Slot(q, r) == i {
          SlotChild(q, r);
          ChildKept(t, u, q, pa, i, r);
        }
      }
    } else {
      var r, j :| r in u.at && Under(c, r) && r.level == 0 && u.at[r] in u.tables && 0 <= j < |u.tables[u.at[r]]|
                  && V(u.tables[u.at[r]][j]);
      ChildSlot(q, i, r);
    }
  }

  lemma OutsideNext(at: map<Pos, nat>, q: Pos, i: nat)
    requires i < ENTRIES && 0 < q.level <= 2
    ensures Outside(Outside(at, q, i), Child(q, i), ENTRIES) - {Child(q, i)} == Outside(at, q, i + 1)
  {
    var c := Child(q, i);
    forall r | r in at
      ensures (Under(q, r) && r != q && Slot(q, r) < i + 1)
              <==> (Under(q, r) && r != q && Slot(q, r) < i) || (Under(c, r) && (r == c || Slot(c, r) < ENTRIES))
    {
      if Under(c, r) { ChildSlot(q, i, r); if r != c { SlotChild(c, r); } }
      if Under(q, r) && r != q { SlotChild(q, r); }
    }
  }

  lemma PagesNext(at: map<Pos, nat>, q: Pos, i: nat)
    requires i < ENTRIES && 0 < q.level <= 2
    ensures PagesUpTo(at, q, i + 1) == PagesUpTo(at, q, i) + PagesBelow(Outside(at, q, i), Child(q, i))
  {
    var c, o := Child(q, i), Outside(at, q, i);
    forall x | x in PagesUpTo(at, q, i + 1) ensures x in PagesUpTo(at, q, i) + PagesBelow(o, c) {
      var r :| r in at && Under(q, r) && r != q && Slot(q, r) < i + 1 && at[r] == x;
      SlotChild(q, r);
      if Slot(q, r) == i { assert r in o && o[r] == x; }
    }
    forall x | x in PagesBelow(o, c) ensures x in PagesUpTo(at, q, i + 1) {
      var r :| r in o && Under(c, r) && o[r] == x;
      ChildSlot(q, i, r);
    }
  }

  lemma WalkedNext(t: Tree, u: Tree, q: Pos, pa: nat, i: nat)
    requires Walked(t, u, q, pa, i) && i < ENTRIES && 0 < q.level <= 2
    ensures Outside(u.at, Child(q, i), ENTRIES) - {Child(q, i)} == Outside(t.at, q, i + 1)
    ensures q in Outside(t.at, q, i + 1)
    ensures forall r :: r in Outside(t.at, q, i + 1) ==> r in u.at && Outside(t.at, q, i + 1)[r] == u.at[r]
    ensures PagesUpTo(t.at, q, i + 1) == PagesUpTo(t.at, q, i) + PagesBelow(u.at, Child(q, i))
  {
    OutsideNext(t.at, q, i);
    PagesNext(t.at, q, i);
  }

  lemma LastPage(t: Tree, u: Tree, q: Pos, pa: nat, free: seq<nat>)
    requires Walked(t, u, q, pa, ENTRIES) && Local(t, q)
    ensures pa > 0 && pa % 4096 == 0 && pa in u.tables
    ensures Elements([pa] + free) == Elements(free) + {pa}
  {
  }

  lemma EndWalk(t: Tree, q: Pos)
    requires q in t.at && q.level <= 2
    ensures PagesBelow(t.at, q) == PagesUpTo(t.at, q, ENTRIES) + {t.at[q]}
    ensures NoLeavesUpTo(t, q, ENTRIES) && (q.level == 0 ==> t.at[q] in t.tables && |t.tables[t.at[q]]| == ENTRIES) ==> NoLeaves(t, q)
  {
    assert Under(q, q);
    forall r | r in t.at && Under(q, r) && r != q ensures Slot(q, r) < ENTRIES { SlotChild(q, r); }
  }

  lemma Advance(va: nat, n: nat)
    requires va % 4096 == 0
    ensures (va + 4096 * n) / 4096 == va / 4096 + n && (va + 4096 * n) % 4096 == 0
  {
  }

  /** PA2PTE(pa) | perm | PTE_V */
  function Entry(pa: nat, perm: nat): (e: nat)
    requires perm < 1024 && RWX(perm) && pa % 4096 == 0
    ensures V(e) && RWX(e) && PTE2PA(e) == pa && Flags(e) / 2 == perm / 2
  {
    var flags := perm + (1 - perm % 2);
    EntryBits(pa / 4096, flags);
    assert flags / 2 == perm / 2;
    PA2PTE(pa) + flags
  }

  lemma EntryBits(k: nat, f: nat)
    requires f < 1024
    ensures (k * 1024 + f) % 2 == f % 2 && (k * 1024 + f) / 2 % 8 == f / 2 % 8 && (k * 1024 + f) / 1024 == k
  {
    assert (k * 1024 + f) / 2 == k * 512 + f / 2;
    assert k * 512 + f / 2 == 8 * (k * 64) + f / 2;
  }

  /** n pages from v on, mapped to consecutive frames from pa on. */
  function MapRange(m: map<nat, nat>, v: nat, n: nat, pa: nat, perm: nat): (r: map<nat, nat>)
    requires perm < 1024 && RWX(perm) && pa % 4096 == 0
    decreases n
  {
    if n == 0 then m else MapRange(m, v, n - 1, pa, perm)[v + n - 1 := Entry(pa + 4096 * (n - 1), perm)]
  }

  lemma MapRangeNone(m: map<nat, nat>, v: nat, pa: nat, perm: nat)
    requires perm < 1024 && RWX(perm) && pa % 4096 == 0
    ensures MapRange(m, v, 0, pa, perm) == m
  {
  }

  lemma MapRangeNext(m: map<nat, nat>, v: nat, n: nat, pa: nat, perm: nat)
    requires perm < 1024 && RWX(perm) && pa % 4096 == 0
    ensures MapRange(m, v, n + 1, pa, perm) == MapRange(m, v, n, pa, perm)[v + n := Entry(pa + 4096 * n, perm)]
  {
  }

  /** Each page of the range maps to its own frame, in order; other pages keep their PTE. */
  lemma {:induction false} MapRangeAt(m: map<nat, nat>, v: nat, n: nat, pa: nat, perm: nat, w: nat)
    requires perm < 1024 && RWX(perm) && pa % 4096 == 0
    ensures var r := MapRange(m, v, n, pa, perm);
            if v <= w < v + n then w in r && V(r[w]) && PTE2PA(r[w]) == pa + 4096 * (w - v)
            else (w in r <==> w in m) && (w in m ==> r[w] == m[w])
    decreases n
  {
    if n > 0 { MapRangeAt(m, v, n - 1, pa, perm, w); }
  }

  lemma LeafAt(t: Tree, v: nat)
    requires v < NVPN
    ensures if V(Leaf(t, v)) then v in Flat(t) && Flat(t)[v] == Leaf(t, v) else v !in Flat(t)
  {
  }

  lemma NoTable(t: Tree, v: nat)
    requires v < NVPN && Path(v, 0) !in t.at
    ensures v !in Flat(t)
  {
  }

  /** Everything a new table needs and leaves behind. */
  lemma AddTableReady(t: Tree, q: Pos, i: nat, free: seq<nat>)
    requires Inv(t) && FreeOk(free, t.tables.Keys) && free != []
    requires q in t.at && 0 < q.level <= 2 && i < ENTRIES && Child(q, i) !in t.at && (q.level == 2 ==> i < 256)
    ensures t.at[q] in t.tables && |t.tables[t.at[q]]| == ENTRIES
    ensures var u := AddTable(t, q, i, free[0]); Inv(u) && Flat(u) == Flat(t) && FreeOk(free[1..], u.tables.Keys)
    ensures Child(q, i) != Pos(2, 0)
  {
    hide Inv, Flat, PA2PTE, NoEntries, FreeOk, Pointer, V;
    TakeFree(free, t.tables.Keys);
    InvAt(t, q);
    TableAt(t, q, i);
    AddTableInv(t, q, i, free[0]);
    AddTableFlat(t, q, i, free[0]);
    assert AddTable(t, q, i, free[0]).tables.Keys == t.tables.Keys + {free[0]};
  }

  /** What a level's entry says about the table below. */
  lemma TableAt(t: Tree, q: Pos, i: nat)
    requires Inv(t) && q in t.at && q.level > 0 && i < ENTRIES
    ensures t.at[q] in t.tables && |t.tables[t.at[q]]| == ENTRIES
    ensures V(t.tables[t.at[q]][i]) <==> Child(q, i) in t.at
    ensures V(t.tables[t.at[q]][i]) ==> PTE2PA(t.tables[t.at[q]][i]) == t.at[Child(q, i)]
  {
    assert Local(t, q);
    assert Pointer(t, q, i);
    if V(t.tables[t.at[q]][i]) {
      assert Local(t, Child(q, i));
      PteRoundTrip(t.at[Child(q, i)], 1);
    }
  }
}
