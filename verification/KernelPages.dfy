/** The frames the kernel itself holds: trapframes, page-table pages, pipe buffers and the like. They come from
    the same free list as user pages. */
module KernelPages {
  import opened Common
  import opened Frames

  /** What a frame is for. Table(p, 2, 0) is the root of p's page table; Table(p, 1, i) and Table(p, 0, i) are
      the pages behind it, numbered by the part of the page number that leads there. */
  datatype Use = Trap(p: nat) | Table(p: nat, level: nat, i: nat) | Other(f: nat)

  type Kern = map<Use, nat>

  /** The page of the trampoline, the highest there is; the trapframe's is the one below. */
  const TOP := MAXVA / PGSIZE - 1

  /** The tables that lead to page v. */
  function Tables(p: nat, v: nat): (us: set<Use>) {
    {Table(p, 1, v / ENTRIES / ENTRIES), Table(p, 0, v / ENTRIES)}
  }

  /** How many of them are not there. */
  ghost function Lacks(kern: Kern, p: nat, v: nat): (n: nat) {
    |Tables(p, v) - kern.Keys|
  }

  ghost function TablesFor(p: nat, vs: set<nat>): (us: set<Use>) {
    (set v | v in vs :: Table(p, 1, v / ENTRIES / ENTRIES)) + (set v | v in vs :: Table(p, 0, v / ENTRIES))
  }

  /** How many page-table pages have to be allocated before the pages vs of p can be mapped. */
  ghost function Missing(kern: Kern, p: nat, vs: set<nat>): (n: nat) {
    |TablesFor(p, vs) - kern.Keys|
  }

  /** The frames the kernel holds are those its uses name, each for one use, and some that are spare. */
  ghost predicate Accounts(kern: Kern, held: set<nat>, spare: set<nat>) {
    && (forall u, w :: u in kern && w in kern && kern[u] == kern[w] ==> u == w)
    && held == kern.Values + spare && spare !! kern.Values
  }

  /** A page-table page hangs from the one above it. */
  predicate Hangs(kern: Kern, u: Use) {
    u.Table? ==>
      && u.level <= 2 && (u.level == 2 ==> u.i == 0) && (u.level == 1 ==> u.i <= TOP / ENTRIES / ENTRIES)
      && (u.level == 0 ==> u.i <= TOP / ENTRIES && Table(u.p, 1, u.i / ENTRIES) in kern)
  }

  /** The tables of page v are within bounds, and the lower one hangs from the upper. */
  lemma HangsHere(kern: Kern, p: nat, v: nat)
    requires v <= TOP
    ensures Hangs(kern, Table(p, 1, v / ENTRIES / ENTRIES))
    ensures Table(p, 1, v / ENTRIES / ENTRIES) in kern ==> Hangs(kern, Table(p, 0, v / ENTRIES))
  {
  }

  ghost predicate Shaped(kern: Kern, procs: set<nat>) {
    && (forall u :: u in kern ==> Hangs(kern, u))
    && (forall u :: u in kern && !u.Other? ==> u.p in procs)
    && (forall u :: u in kern && u.Other? ==> kern[u] == u.f)
  }

  /** What allocproc gives a process. */
  function Basics(p: nat): (us: set<Use>) {
    {Trap(p), Table(p, 2, 0)} + Tables(p, TOP)
  }

  /** Every process has its trapframe and its page table, and every mapped page has its tables. */
  ghost predicate Covered(kern: Kern, procs: set<nat>, keys: set<Key>) {
    && (forall p :: p in procs ==> Basics(p) <= kern.Keys)
    && (forall k :: k in keys ==> Tables(k.p, k.v) <= kern.Keys)
  }

  /** More uses, none changed, the new ones page tables of p. */
  ghost predicate Grew(kern: Kern, kern': Kern, p: nat) {
    && (forall u :: u in kern ==> u in kern' && kern'[u] == kern[u])
    && (forall u :: u in kern' && u !in kern ==> u.Table? && u.p == p && u.level < 2)
  }

  lemma GrewTrans(a: Kern, b: Kern, c: Kern, p: nat)
    requires Grew(a, b, p) && Grew(b, c, p)
    ensures Grew(a, c, p)
  {
  }

  lemma CoveredGrew(kern: Kern, kern': Kern, p: nat, procs: set<nat>, keys: set<Key>)
    requires Covered(kern, procs, keys) && Grew(kern, kern', p)
    ensures Covered(kern', procs, keys)
  {
  }

  lemma CoveredFewer(kern: Kern, procs: set<nat>, keys: set<Key>, keys': set<Key>)
    requires Covered(kern, procs, keys) && keys' <= keys
    ensures Covered(kern, procs, keys')
  {
  }

  // ---- one use more, one use less ----

  lemma ValuesAdd(kern: Kern, u: Use, f: nat)
    requires u !in kern
    ensures kern[u := f].Values == kern.Values + {f}
  {
    var r := kern[u := f];
    forall x | x in kern.Values + {f}
      ensures x in r.Values
    {
      if x in kern.Values {
        var w :| w in kern && kern[w] == x;
        assert r[w] == x;
      } else {
        assert r[u] == x;
      }
    }
  }

  lemma ValuesDrop(kern: Kern, u: Use)
    requires u in kern && forall w :: w in kern && kern[w] == kern[u] ==> w == u
    ensures (kern - {u}).Values == kern.Values - {kern[u]}
  {
    var r := kern - {u};
    forall x | x in kern.Values - {kern[u]}
      ensures x in r.Values
    {
      var w :| w in kern && kern[w] == x;
      assert r[w] == x;
    }
  }

  lemma AccountsAdd(kern: Kern, held: set<nat>, spare: set<nat>, u: Use, f: nat)
    requires Accounts(kern, held, spare) && u !in kern && f !in held
    ensures Accounts(kern[u := f], held + {f}, spare)
  {
    ValuesAdd(kern, u, f);
  }

  lemma AccountsDrop(kern: Kern, held: set<nat>, spare: set<nat>, u: Use)
    requires Accounts(kern, held, spare) && u in kern
    ensures kern[u] in held && Accounts(kern - {u}, held - {kern[u]}, spare)
  {
    ValuesDrop(kern, u);
  }

  lemma AccountsSpare(kern: Kern, held: set<nat>, f: nat)
    requires Accounts(kern, held, {}) && f !in held
    ensures Accounts(kern, held + {f}, {f})
  {
  }

  lemma AccountsUnspare(kern: Kern, held: set<nat>, f: nat)
    requires Accounts(kern, held, {f})
    ensures f in held && Accounts(kern, held - {f}, {})
  {
  }

  lemma ShapedAdd(kern: Kern, procs: set<nat>, u: Use, f: nat)
    requires Shaped(kern, procs) && u !in kern && Hangs(kern, u)
    requires if u.Other? then u.f == f else u.p in procs
    ensures Shaped(kern[u := f], procs)
  {
    forall w | w in kern
      ensures Hangs(kern[u := f], w)
    {
      assert Hangs(kern, w);
    }
  }

  /** What nothing hangs from can go. */
  lemma ShapedDrop(kern: Kern, procs: set<nat>, u: Use)
    requires Shaped(kern, procs) && u in kern
    requires u.Table? && u.level == 1 ==>
      forall w :: w in kern && w.Table? && w.level == 0 && w.p == u.p ==> w.i / ENTRIES != u.i
    ensures Shaped(kern - {u}, procs)
  {
    forall w | w in kern - {u}
      ensures Hangs(kern - {u}, w)
    {
      assert Hangs(kern, w);
    }
  }

  lemma ShapedMore(kern: Kern, procs: set<nat>, p: nat)
    requires Shaped(kern, procs)
    ensures Shaped(kern, procs + {p})
  {
  }

  /** A process that owns no use can be forgotten. */
  lemma ShapedLess(kern: Kern, procs: set<nat>, p: nat)
    requires Shaped(kern, procs) && forall u :: u in kern && !u.Other? ==> u.p != p
    ensures Shaped(kern, procs - {p})
  {
  }

  // ---- freewalk ----

  /** Without the first j level-0 pages below entry i of p's root. */
  ghost function Pruned(kern: Kern, p: nat, i: nat, j: nat): (r: Kern) {
    map u | u in kern && !(u.Table? && u.p == p && u.level == 0 && u.i / ENTRIES == i && u.i % ENTRIES < j) :: kern[u]
  }

  lemma PruneNone(kern: Kern, p: nat, i: nat)
    ensures Pruned(kern, p, i, 0) == kern
  {
  }

  lemma PruneStep(kern: Kern, p: nat, i: nat, j: nat)
    requires j < ENTRIES
    ensures Pruned(kern, p, i, j + 1) == Pruned(kern, p, i, j) - {Table(p, 0, ENTRIES * i + j)}
  {
  }

  lemma PruneEnd(kern: Kern, p: nat, i: nat)
    requires Table(p, 1, i) in kern
    ensures Table(p, 1, i) in Pruned(kern, p, i, ENTRIES)
    ensures forall w :: w in Pruned(kern, p, i, ENTRIES) && w.Table? && w.level == 0 && w.p == p ==> w.i / ENTRIES != i
  {
  }

  /** Without what is below the first i entries of p's root. */
  ghost function Felled(kern: Kern, p: nat, i: nat): (r: Kern) {
    map u | u in kern && !(u.Table? && u.p == p && u.level < 2 && (if u.level == 1 then u.i else u.i / ENTRIES) < i) :: kern[u]
  }

  lemma FellNone(kern: Kern, p: nat)
    ensures Felled(kern, p, 0) == kern
  {
  }

  lemma FellStep(kern: Kern, procs: set<nat>, p: nat, i: nat)
    requires Shaped(Felled(kern, p, i), procs)
    ensures Felled(kern, p, i + 1) ==
      if Table(p, 1, i) in Felled(kern, p, i) then Pruned(Felled(kern, p, i), p, i, ENTRIES) - {Table(p, 1, i)}
      else Felled(kern, p, i)
  {
    forall u | u in Felled(kern, p, i) && u.Table? && u.p == p && u.level == 0 && u.i / ENTRIES == i
      ensures Table(p, 1, i) in Felled(kern, p, i)
    {
      assert Hangs(Felled(kern, p, i), u);
    }
  }

  /** Without p's page table. */
  ghost function NoTables(kern: Kern, p: nat): (r: Kern) {
    map u | u in kern && !(u.Table? && u.p == p) :: kern[u]
  }

  lemma FellEnd(kern: Kern, procs: set<nat>, p: nat)
    requires Shaped(Felled(kern, p, ENTRIES), procs) && Table(p, 2, 0) in kern
    ensures Table(p, 2, 0) in Felled(kern, p, ENTRIES)
    ensures NoTables(kern, p) == Felled(kern, p, ENTRIES) - {Table(p, 2, 0)}
  {
    forall u | u in Felled(kern, p, ENTRIES) && u.Table? && u.p == p
      ensures u == Table(p, 2, 0)
    {
      assert Hangs(Felled(kern, p, ENTRIES), u);
    }
  }

  /** Without anything of p's. */
  ghost function Stripped(kern: Kern, p: nat): (r: Kern) {
    map u | u in kern && (u.Other? || u.p != p) :: kern[u]
  }

  lemma StrippedIs(kern: Kern, p: nat)
    ensures NoTables(kern - {Trap(p)}, p) == Stripped(kern, p)
    ensures forall u :: u in Stripped(kern, p) && !u.Other? ==> u.p != p
  {
  }

  lemma StrippedBack(kern: Kern, a: Kern, b: Kern, c: nat)
    requires a.Keys == kern.Keys + Basics(c) && (forall u :: u in kern ==> u in a && a[u] == kern[u]) && Grew(a, b, c)
    requires forall u :: u in kern && !u.Other? ==> u.p != c
    ensures Stripped(b, c) == kern
  {
  }

  lemma TablesUndone(kern: Kern, b: Kern, c: nat)
    requires forall u :: u in kern && u.Table? ==> u.p != c
    requires forall u :: u in kern ==> u in b && b[u] == kern[u]
    requires forall u :: u in b && u !in kern ==> u.Table? && u.p == c
    ensures NoTables(b, c) == kern
  {
  }

  lemma BasicsThere(kern: Kern, procs: set<nat>, keys: set<Key>, p: nat)
    requires Covered(kern, procs, keys) && p in procs
    ensures Trap(p) in kern && Table(p, 2, 0) in kern
  {
    assert Basics(p) <= kern.Keys;
  }

  lemma CoveredLess(kern: Kern, procs: set<nat>, keys: set<Key>, keys': set<Key>, p: nat)
    requires Covered(kern, procs, keys) && keys' <= keys && forall k :: k in keys' ==> k.p != p
    ensures Covered(Stripped(kern, p), procs - {p}, keys')
  {
    forall q | q in procs - {p}
      ensures Basics(q) <= Stripped(kern, p).Keys
    {
      assert Basics(q) <= kern.Keys;
    }
    forall k | k in keys'
      ensures Tables(k.p, k.v) <= Stripped(kern, p).Keys
    {
      assert Tables(k.p, k.v) <= kern.Keys;
    }
  }

  lemma CoveredMore(kern: Kern, kern': Kern, procs: set<nat>, keys: set<Key>, c: nat)
    requires Covered(kern, procs, keys) && kern'.Keys == kern.Keys + Basics(c)
    ensures Covered(kern', procs + {c}, keys)
  {
    forall q | q in procs + {c}
      ensures Basics(q) <= kern'.Keys
    {
      if q in procs {
        assert Basics(q) <= kern.Keys;
      }
    }
    forall k | k in keys
      ensures Tables(k.p, k.v) <= kern'.Keys
    {
      assert Tables(k.p, k.v) <= kern.Keys;
    }
  }

  lemma CoveredKey(kern: Kern, procs: set<nat>, keys: set<Key>, k: Key)
    requires Covered(kern, procs, keys) && Tables(k.p, k.v) <= kern.Keys
    ensures Covered(kern, procs, keys + {k})
  {
  }

  /** A mapped page lacks no table. */
  lemma CoveredLacks(kern: Kern, procs: set<nat>, keys: set<Key>, k: Key)
    requires Covered(kern, procs, keys) && k in keys
    ensures Lacks(kern, k.p, k.v) == 0 && kern.Keys + Tables(k.p, k.v) == kern.Keys
  {
    assert Tables(k.p, k.v) <= kern.Keys;
    assert Tables(k.p, k.v) - kern.Keys == {};
  }

  /** Pages for other uses cover nothing. */
  lemma CoveredOther(kern: Kern, kern': Kern, procs: set<nat>, keys: set<Key>)
    requires Covered(kern, procs, keys) && forall u :: u in kern && !u.Other? ==> u in kern'
    ensures Covered(kern', procs, keys)
  {
    forall p | p in procs
      ensures Basics(p) <= kern'.Keys
    {
      assert Basics(p) <= kern.Keys;
    }
    forall k | k in keys
      ensures Tables(k.p, k.v) <= kern'.Keys
    {
      assert Tables(k.p, k.v) <= kern.Keys;
    }
  }

  lemma NotOther(kern: Kern, held: set<nat>, procs: set<nat>, f: nat)
    requires Accounts(kern, held, {}) && Shaped(kern, procs) && f !in held
    ensures Other(f) !in kern
  {
    assert forall u :: u in kern ==> kern[u] in kern.Values;
  }

  lemma GrewNone(kern: Kern, p: nat)
    ensures Grew(kern, kern, p)
  {
  }

  /** A process that is not there has nothing. */
  lemma NotItsOwn(kern: Kern, procs: set<nat>, c: nat)
    requires Shaped(kern, procs) && c !in procs
    ensures forall u :: u in kern && !u.Other? ==> u.p != c
  {
  }

  // ---- counting ----

  /** One page more: its tables, if they are not among those for the pages before it. */
  lemma MissingMore(kern: Kern, kern': Kern, p: nat, vs: set<nat>, v: nat)
    requires kern'.Keys == kern.Keys + TablesFor(p, vs)
    ensures Missing(kern, p, vs + {v}) == Missing(kern, p, vs) + Lacks(kern', p, v)
    ensures kern'.Keys + Tables(p, v) == kern.Keys + TablesFor(p, vs + {v})
  {
    hide TablesFor, Tables;
    TablesMore(p, vs, v);
    UnionCount(TablesFor(p, vs), Tables(p, v), kern.Keys);
  }

  lemma UnionCount(a: set<Use>, t: set<Use>, ks: set<Use>)
    ensures |a + t - ks| == |a - ks| + |t - (ks + a)|
  {
    assert a + t - ks == (a - ks) + (t - (ks + a));
  }

  lemma TablesMore(p: nat, vs: set<nat>, v: nat)
    ensures TablesFor(p, vs + {v}) == TablesFor(p, vs) + Tables(p, v)
  {
    var ws := vs + {v};
    assert (set x | x in ws :: Table(p, 1, x / ENTRIES / ENTRIES)) ==
           (set x | x in vs :: Table(p, 1, x / ENTRIES / ENTRIES)) + {Table(p, 1, v / ENTRIES / ENTRIES)};
    assert (set x | x in ws :: Table(p, 0, x / ENTRIES)) == (set x | x in vs :: Table(p, 0, x / ENTRIES)) + {Table(p, 0, v / ENTRIES)};
  }

  lemma MissingMono(kern: Kern, p: nat, vs: set<nat>, ws: set<nat>)
    requires vs <= ws
    ensures Missing(kern, p, vs) <= Missing(kern, p, ws)
  {
    SubsetSize(TablesFor(p, vs) - kern.Keys, TablesFor(p, ws) - kern.Keys);
  }

  lemma LacksIs(kern: Kern, p: nat, v: nat)
    ensures var u, w := Table(p, 1, v / ENTRIES / ENTRIES), Table(p, 0, v / ENTRIES);
            && Lacks(kern, p, v) == (if u in kern then 0 else 1) + (if w in kern then 0 else 1)
            && kern.Keys + {u} + {w} == kern.Keys + Tables(p, v)
  {
    TwoCount(Table(p, 1, v / ENTRIES / ENTRIES), Table(p, 0, v / ENTRIES), kern.Keys);
  }

  lemma TwoCount(u: Use, w: Use, ks: set<Use>)
    requires u != w
    ensures |{u, w} - ks| == (if u in ks then 0 else 1) + (if w in ks then 0 else 1)
    ensures ks + {u} + {w} == ks + {u, w}
  {
    if u in ks {
      assert {u, w} - ks == {w} - ks;
      assert w in ks ==> {w} - ks == {};
      assert w !in ks ==> {w} - ks == {w};
    } else if w in ks {
      assert {u, w} - ks == {u};
    } else {
      assert {u, w} - ks == {u, w};
    }
  }

  lemma MissingNone(kern: Kern, p: nat)
    ensures TablesFor(p, {}) == {} && Missing(kern, p, {}) == 0
  {
    assert TablesFor(p, {}) == {};
  }

  /** The frames some process has mapped. */
  function UserFrames(m: Mem): (fs: set<nat>) {
    set k | k in m.pt :: m.pt[k].frame
  }

  function FreeFrames(m: Mem): (fs: set<nat>) {
    set i | 0 <= i < |m.free| :: m.free[i]
  }

  /** Every frame is free, or the kernel's, or mapped, and only one of these. */
  lemma FreeCount(m: Mem)
    requires Inv(m)
    ensures |m.free| + |m.held| + |UserFrames(m)| == |m.count|
  {
    hide Inv, UserFrames, FreeFrames;
    var free, held, user := FreeFrames(m), m.held, UserFrames(m);
    FreeFramesCount(m);
    var all := Interval(0, |m.count|);
    forall f: nat | f in all + free + held + user
      ensures f in all <==> f in free || f in held || f in user
      ensures !(f in free && f in held) && !(f in free && f in user) && !(f in held && f in user)
    {
      FramesInRange(m, f);
      if f < |m.count| {
        FrameKind(m, f);
      }
    }
    assert all == free + held + user;
    ThreeParts(all, free, held, user);
  }

  lemma ThreeParts(all: set<nat>, a: set<nat>, b: set<nat>, c: set<nat>)
    requires all == a + b + c
    requires a !! b && a !! c && b !! c
    ensures |a| + |b| + |c| == |all|
  {
  }

  lemma FreeFramesCount(m: Mem)
    requires Inv(m)
    ensures |FreeFrames(m)| == |m.free|
  {
    DistinctSize(m.free);
  }

  lemma FramesInRange(m: Mem, f: nat)
    requires Inv(m)
    ensures f in FreeFrames(m) || f in m.held || f in UserFrames(m) ==> f < |m.count|
  {
    if f in UserFrames(m) {
      var k :| k in m.pt && m.pt[k].frame == f;
      assert PteOk(m, k);
    }
  }

  lemma FrameKind(m: Mem, f: nat)
    requires Inv(m) && f < |m.count|
    ensures f in FreeFrames(m) <==> f !in m.held && f !in UserFrames(m)
    ensures !(f in m.held && f in UserFrames(m))
  {
    assert FrameOk(m, f);
    OwnedIsUser(m, f);
    assert f in m.free <==> f in FreeFrames(m);
  }

  lemma OwnedIsUser(m: Mem, f: nat)
    requires Inv(m) && f < |m.count|
    ensures |m.owners| == |m.count| && (m.owners[f] != {} <==> f in UserFrames(m))
  {
    assert FrameOk(m, f);
    if f in UserFrames(m) {
      var k :| k in m.pt && m.pt[k].frame == f;
      assert PteOk(m, k);
    }
    if m.owners[f] != {} {
      var k :| k in m.owners[f];
      assert k in m.pt && m.pt[k].frame == f;
    }
  }

  lemma OwnersListed(m: Mem)
    requires Inv(m)
    ensures forall k :: k in m.pt ==> k.p in m.procs
  {
    forall k | k in m.pt
      ensures k.p in m.procs
    {
      assert PteOk(m, k);
    }
  }

  /** Nothing leaks: when no process is left and no other kernel page is in use, all of memory is free. */
  lemma NoLeak(m: Mem, kern: Kern)
    requires Inv(m) && m.procs == {} && Accounts(kern, m.held, {}) && Shaped(kern, {}) && forall u :: u in kern ==> !u.Other?
    ensures |m.free| == |m.count|
  {
    FreeCount(m);
    OwnersListed(m);
    assert UserFrames(m) == {};
    assert kern.Keys == {};
    assert kern.Values == {};
  }
}
