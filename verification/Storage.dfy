/** The log over the buffer cache implements the one map of StorageSpec, step by step, and a crash after any of
    the device writes leaves the version then in force. */
module Storage {
  import opened Common
  import opened Blocks
  import opened LogSpec
  import opened Lru
  import opened Bio
  import P = LogProto
  import opened Log
  import S = StorageSpec

  // ---- the cache and the map ----

  /** References are the users' and the log's pin, and a lock has a holder. */
  predicate AgreesAt(a: Abs, s: S.State, b: nat)
    requires Sized(a) && S.Sized(s) && b < |a.disk| == |s.cur|
  {
    && a.locks[b] == s.holder[b].Some?
    && a.refs[b] == |s.users[b]| + if S.Pinned(s, b) then 1 else 0
  }

  predicate Agrees(a: Abs, s: S.State) {
    && Sized(a) && S.Sized(s) && |a.disk| == |s.cur|
    && forall b :: 0 <= b < |a.disk| ==> AgreesAt(a, s, b)
  }

  lemma AgreesHere(a: Abs, s: S.State, b: nat)
    requires Agrees(a, s) && b < |a.disk|
    ensures Sized(a) && S.Sized(s) && |a.disk| == |s.cur| && AgreesAt(a, s, b)
  {
  }

  /** The blocks in use are those with references. */
  lemma BusyIs(a: Abs, s: S.State)
    requires Agrees(a, s)
    ensures Busy(a.refs) == S.InUse(s)
  {
    forall b | 0 <= b < |a.disk|
      ensures a.refs[b] > 0 <==> s.users[b] != {} || S.Pinned(s, b)
    {
      assert AgreesAt(a, s, b);
    }
  }

  // ---- the disk and the map ----

  /** What the running commit has written is on the disk, on top of the disk d0 that it found; log area and
      cache agree, and the cache has the current contents. d0 has the version in force until the header is
      written. */
  predicate OnDisk(a: Abs, s: S.State, start: nat, d0: Disk) {
    && s.saves != [] && |s.cur| == |d0| && ReadyToCommit(d0, s.cur, start, s.log.blocks)
    && S.Issued(s) <= |CommitWrites(d0, s.cur, start, s.log.blocks)|
    && a.disk == Apply(d0, CommitWrites(d0, s.cur, start, s.log.blocks)[..S.Issued(s)])
    && LogClean(a, start) && SameHome(a.view, s.cur, start)
    && (S.Issued(s) <= |s.log.blocks| ==> SameHome(d0, s.saves[|s.saves| - 1], start))
  }

  lemma OnDiskCache(a: Abs, s: S.State, start: nat, d0: Disk)
    requires OnDisk(a, s, start, d0)
    ensures LogClean(a, start) && SameHome(a.view, s.cur, start) && |a.disk| == |s.cur| == |d0|
    ensures Layout(a.disk, start) && Loggable(s.log.blocks, start, |a.disk|)
  {
  }

  lemma InTail(bs: seq<nat>, i: nat, m: nat)
    requires i < |bs| && m <= |bs|
    ensures i >= m ==> bs[i] in bs[m..]
  {
    if i >= m {
      assert bs[m..][i - m] == bs[i];
    }
  }

  /** A block without the log's pin is on the disk as it is in the cache. */
  lemma UnpinnedClean(a: Abs, s: S.State, start: nat, d0: Disk, b: nat)
    requires OnDisk(a, s, start, d0) && b < |a.disk| == |a.view| && !InLog(start, b) && !S.Pinned(s, b)
    ensures a.view[b] == a.disk[b]
  {
    hide GetWord, EncodeHeader;
    var bs := s.log.blocks;
    var us := CommitWrites(d0, s.cur, start, bs)[..S.Issued(s)];
    if b in bs {
      var i :| 0 <= i < |bs| && bs[i] == b;
      InTail(bs, i, S.Installed(s));
      assert IsCommitPrefix(us, d0, s.cur, start, bs);
      CommitLogged(d0, s.cur, start, bs, us, i);
    } else {
      ApplyMiss(d0, us, b);
    }
  }

  // ---- a crash at any moment ----

  /** The disk at boot, how many device writes had been issued then, for each version after how many writes
      since it is in force, and the disk that the running commit found. */
  datatype History = History(boot: Disk, base: nat, marks: seq<nat>, d0: Disk)

  /** A later moment of the same history. */
  predicate Later(h: History, h': History) {
    h'.boot == h.boot && h'.base == h.base && h.marks <= h'.marks
  }

  /** A crash after the first k writes since boot: recovery gives the version d. */
  ghost predicate Lands(boot: Disk, ws: seq<Write>, k: nat, start: nat, d: Disk)
    requires k <= |ws| && Fits(ws, |boot|)
  {
    var t := Apply(boot, ws[..k]);
    Recoverable(t, start) && SameHome(Recovered(t, start), d, start)
  }

  /** Version j is the one in force after k writes. */
  predicate InForce(marks: seq<nat>, j: nat, k: nat)
    requires j < |marks|
  {
    marks[j] <= k && (j + 1 < |marks| ==> k < marks[j + 1])
  }

  /** Whenever power failed or fails, recovery gives the version in force at that moment. */
  ghost predicate Durable(h: History, disk: Disk, writes: seq<Write>, start: nat, saves: seq<Disk>) {
    && h.base <= |writes|
    && var ws := writes[h.base..];
       && Fits(ws, |h.boot|) && Apply(h.boot, ws) == disk
       && |h.marks| == |saves| > 0 && h.marks[0] == 0 && h.marks[|saves| - 1] <= |ws|
       && (forall i, j :: 0 <= i < j < |saves| ==> h.marks[i] < h.marks[j])
       && (forall j, k :: 0 <= j < |saves| && 0 <= k <= |ws| && InForce(h.marks, j, k) ==> Lands(h.boot, ws, k, start, saves[j]))
  }

  /** One more write, after which recovery still gives the last version. */
  lemma DurableWrite(h: History, disk: Disk, writes: seq<Write>, start: nat, saves: seq<Disk>, w: Write, d0: Disk)
    requires Durable(h, disk, writes, start, saves) && w.blockno < |disk|
    requires var t := disk[w.blockno := w.data]; Recoverable(t, start) && SameHome(Recovered(t, start), saves[|saves| - 1], start)
    ensures Durable(h.(d0 := d0), disk[w.blockno := w.data], writes + [w], start, saves)
  {
    hide Recoverable, Recovered, SameHome, Apply;
    var us, vs := writes[h.base..], (writes + [w])[h.base..];
    assert vs == us + [w];
    ApplySnoc(h.boot, us, w);
    forall j, k | 0 <= j < |saves| && 0 <= k <= |vs| && InForce(h.marks, j, k)
      ensures Lands(h.boot, vs, k, start, saves[j])
    {
      if k < |vs| {
        assert Lands(h.boot, us, k, start, saves[j]);
        assert vs[..k] == us[..k];
      } else {
        assert vs[..k] == vs;
      }
    }
  }

  /** One more write, after which recovery gives a new version. */
  lemma DurableSave(h: History, disk: Disk, writes: seq<Write>, start: nat, saves: seq<Disk>, w: Write, cur: Disk)
    requires Durable(h, disk, writes, start, saves) && w.blockno < |disk|
    requires var t := disk[w.blockno := w.data]; Recoverable(t, start) && SameHome(Recovered(t, start), cur, start)
    ensures h.base <= |writes|
    ensures Durable(h.(marks := h.marks + [|writes| + 1 - h.base]), disk[w.blockno := w.data], writes + [w], start, saves + [cur])
  {
    hide Recoverable, Recovered, SameHome, Apply;
    var us, vs := writes[h.base..], (writes + [w])[h.base..];
    assert vs == us + [w];
    ApplySnoc(h.boot, us, w);
    var marks := h.marks + [|vs|];
    forall j, k | 0 <= j < |saves| + 1 && 0 <= k <= |vs| && InForce(marks, j, k)
      ensures Lands(h.boot, vs, k, start, (saves + [cur])[j])
    {
      if k < |vs| {
        assert InForce(h.marks, j, k);
        assert Lands(h.boot, us, k, start, saves[j]);
        assert vs[..k] == us[..k];
      } else {
        assert j == |saves| && vs[..k] == vs;
      }
    }
  }

  lemma DurableStart(d: Disk, writes: seq<Write>, start: nat)
    requires Layout(d, start) && HeaderCount(d[start]) == 0 && |d| <= 0x8000_0000
    ensures Durable(History(d, |writes|, [0], d), d, writes, start, [d])
  {
    EmptyLogRecovers(d, start);
    assert writes[|writes|..] == [];
    assert Apply(d, []) == d;
    assert Lands(d, [], 0, start, d);
  }

  // ---- the whole relation ----

  /** What the processes know: their part in the log, whom each block is referred to and held by, its buffer,
      how far the committing process is, and whether there was a panic. */
  datatype Clients = Clients(procs: seq<P.Proc>, users: seq<set<nat>>, holder: seq<Option<nat>>, slot: seq<nat>,
                             phase: P.Phase, turn: nat, pos: nat, stuck: bool)

  /** Whoever has a reference knows the buffer. */
  ghost predicate Slots(home: map<nat, nat>, users: seq<set<nat>>, slot: seq<nat>) {
    |slot| == |users| && forall b :: 0 <= b < |users| && users[b] != {} ==> b in home && home[b] == slot[b]
  }

  ghost predicate Knows(l: Log, c: Clients, s: S.State)
    reads l, l.bc
  {
    && c.procs == s.log.procs && c.users == s.users && c.holder == s.holder && c.phase == s.log.phase
    && c.turn == s.turn && c.pos == s.pos && Slots(l.bc.home, c.users, c.slot)
  }

  /** The log l implements the map s. After a panic only the disk counts. */
  ghost predicate Implements(l: Log, c: Clients, s: S.State, h: History)
    reads l, l.bc
  {
    && S.Inv(s, l.start) && Durable(h, l.bc.disk, l.bc.writes, l.start, s.saves) && c.stuck == s.stuck
    && (s.stuck || Running(l, c, s, h.d0))
  }

  ghost predicate Running(l: Log, c: Clients, s: S.State, d0: Disk)
    reads l, l.bc
  {
    && l.Valid() && l.ProtocolOk() && l.P() == s.log
    && Agrees(l.bc.A(), s) && OnDisk(l.bc.A(), s, l.start, d0) && Knows(l, c, s)
  }

  /** Steps that change neither what is logged, pinned and written nor who uses what. */
  lemma SameDisk(a: Abs, s: S.State, t: S.State, start: nat, d0: Disk)
    requires Agrees(a, s) && OnDisk(a, s, start, d0) && t == s.(log := t.log, turn := t.turn, pos := t.pos)
    requires t.log.blocks == s.log.blocks && S.Issued(t) == S.Issued(s) && S.Installed(t) == S.Installed(s)
    ensures Agrees(a, t) && OnDisk(a, t, start, d0)
  {
    hide OnDisk, S.Issued, S.Installed;
    MovedOnDisk(a, s, t, start, d0);
    forall b | 0 <= b < |a.disk|
      ensures AgreesAt(a, t, b)
    {
      assert AgreesAt(a, s, b);
    }
  }

  lemma MovedOnDisk(a: Abs, s: S.State, t: S.State, start: nat, d0: Disk)
    requires OnDisk(a, s, start, d0) && t == s.(log := t.log, turn := t.turn, pos := t.pos)
    requires t.log.blocks == s.log.blocks && S.Issued(t) == S.Issued(s)
    ensures OnDisk(a, t, start, d0)
  {
    hide Apply, CommitWrites, S.Issued;
  }

  /** Steps that change who uses what, and nothing in the disk or the contents. */
  lemma HoldOnly(a: Abs, a': Abs, s: S.State, t: S.State, start: nat, d0: Disk)
    requires OnDisk(a, s, start, d0) && a' == a.(refs := a'.refs, locks := a'.locks)
    requires t == s.(users := t.users, holder := t.holder)
    ensures OnDisk(a', t, start, d0)
  {
    hide Apply, CommitWrites;
  }

  /** One block's users or holder change. */
  lemma AgreesUpdate(a: Abs, a': Abs, s: S.State, t: S.State, b: nat)
    requires Agrees(a, s) && b < |a.disk| && a' == a.(refs := a'.refs, locks := a'.locks) && Sized(a') && S.Sized(t)
    requires t == s.(users := t.users, holder := t.holder) && AgreesAt(a', t, b)
    requires forall x :: 0 <= x < |a.disk| && x != b ==>
      a'.refs[x] == a.refs[x] && a'.locks[x] == a.locks[x] && t.users[x] == s.users[x] && t.holder[x] == s.holder[x]
    ensures Agrees(a', t)
  {
    forall x | 0 <= x < |a'.disk|
      ensures AgreesAt(a', t, x)
    {
      assert AgreesAt(a, s, x);
    }
  }

  // ---- one step each ----

  method DoBegin(l: Log, p: nat, c: Clients, ghost s: S.State, ghost d0: Disk) returns (c': Clients, out: S.Out)
    requires S.Inv(s, l.start) && !s.stuck && Running(l, c, s, d0) && S.Legal(c.procs, c.users, c.holder, l.start, S.Begin(p))
    modifies l
    ensures var (t, o) := S.Step(s, l.start, S.Begin(p)); out == o && c'.stuck == c.stuck && Running(l, c', t, d0)
  {
    hide IsCycle, Represents, P.Inv, Agrees, OnDisk, Slots;
    ghost var t := S.Step(s, l.start, S.Begin(p)).0;
    SameDisk(l.bc.A(), s, t, l.start, d0);
    var started := l.BeginOp(p);
    c' := c.(procs := c.procs[p := if started then P.In(0) else P.Asleep]);
    out := if started then S.Done else S.Waits;
  }

  /** bget, for a process or for the commit. */
  method DoGet(l: Log, p: nat, b: nat, c: Clients, ghost s: S.State, ghost d0: Disk) returns (c': Clients, out: S.Out)
    requires S.Inv(s, l.start) && !s.stuck && !c.stuck && Running(l, c, s, d0) && b < |s.users| && p !in s.users[b]
    modifies l.bc
    ensures S.Sized(s)
    ensures var (t, o) := S.Ref(s, p, b);
            && out == o && c' == c.(users := c'.users, slot := c'.slot, stuck := t.stuck)
            && l.bc.disk == old(l.bc.disk) && l.bc.writes == old(l.bc.writes) && (t.stuck || Running(l, c', t, d0))
  {
    hide IsCycle, Represents, P.Inv, Agrees, OnDisk, Slots, AgreesAt, S.InUse, S.Inv;
    ghost var a := l.bc.A();
    S.InvAt(s, l.start);
    OnDiskCache(a, s, l.start, d0);
    AgreesHere(a, s, b);
    BusyIs(a, s);
    ghost var t := S.Ref(s, p, b).0;
    RefsZero(a, s, b);
    SlotsSize(l.bc.home, c.users, c.slot);
    var r := l.bc.Bget(ROOTDEV, b);
    c', out := c.(stuck := true), S.Panic;
    if r.Some? {
      c', out := c.(users := c.users[b := c.users[b] + {p}], slot := c.slot[b := r.value]), S.Done;
      OneUser(a, l.bc.A(), s, t, b);
      AgreesUpdate(a, l.bc.A(), s, t, b);
      HoldOnly(a, l.bc.A(), s, t, l.start, d0);
      SlotsMore(a, s, old(l.bc.home), l.bc.home, c.slot, b, p, r.value);
    }
  }

  lemma SlotsSize(home: map<nat, nat>, users: seq<set<nat>>, slot: seq<nat>)
    requires Slots(home, users, slot)
    ensures |slot| == |users|
  {
  }

  lemma RefsZero(a: Abs, s: S.State, b: nat)
    requires Sized(a) && S.Sized(s) && b < |a.disk| == |s.cur| && AgreesAt(a, s, b)
    ensures a.refs[b] == 0 <==> s.users[b] == {} && !S.Pinned(s, b)
  {
  }

  lemma OneUser(a: Abs, a': Abs, s: S.State, t: S.State, b: nat)
    requires Sized(a) && S.Sized(s) && b < |a.disk| == |s.cur| && AgreesAt(a, s, b) && Sized(a') && S.Sized(t)
    requires a'.disk == a.disk && a'.locks == a.locks && t == s.(users := t.users)
    requires |t.users[b]| == |s.users[b]| + a'.refs[b] - a.refs[b]
    ensures AgreesAt(a', t, b)
  {
  }

  lemma SlotsMore(a: Abs, s: S.State, home: map<nat, nat>, home': map<nat, nat>, slot: seq<nat>, b: nat, p: nat, r: nat)
    requires Agrees(a, s) && Slots(home, s.users, slot) && b < |s.users|
    requires Keeps(home, a.refs, home') && b in home' && home'[b] == r
    ensures |slot| == |s.users| && Slots(home', s.users[b := s.users[b] + {p}], slot[b := r])
  {
    forall x | 0 <= x < |s.users| && x != b && s.users[x] != {}
      ensures x in home' && home'[x] == slot[x]
    {
      assert AgreesAt(a, s, x);
    }
  }

  /** The buffer a process remembers is the block's. */
  lemma SlotCaches(l: Log, c: Clients, s: S.State, d0: Disk, b: nat)
    requires Running(l, c, s, d0) && b < |s.users| && b < |s.holder| && s.users[b] != {}
    ensures |l.bc.buf| == NBUF && b < |c.slot| && c.slot[b] < NBUF && l.bc.Caches(c.slot[b], b) && b in l.bc.home
    ensures s.holder[b].Some? ==> l.bc.Owns(c.slot[b], b) && b < |l.bc.view| && l.bc.buf[c.slot[b]].data == l.bc.view[b]
  {
    hide IsCycle, Represents, OnDisk, P.Inv;
    var a := l.bc.A();
    AgreesHere(a, s, b);
    HoldsAt(l.bc.buf, l.bc.home, a, b);
    HomeAt(l.bc.buf, l.bc.home, a, b);
  }

  /** One look at a block's sleep lock, for a process or for the commit. */
  method DoLock(l: Log, p: nat, b: nat, c: Clients, ghost s: S.State, ghost d0: Disk)
    returns (c': Clients, got: bool, data: Block)
    requires S.Inv(s, l.start) && !s.stuck && Running(l, c, s, d0) && b < |s.users| && p in s.users[b]
    modifies l.bc
    ensures S.Sized(s) && c' == c.(holder := c'.holder) && l.bc.disk == old(l.bc.disk) && l.bc.writes == old(l.bc.writes)
    ensures (got <==> s.holder[b].None?) && (got && !InLog(l.start, b) ==> data == s.cur[b])
    ensures Running(l, c', if got then S.Hold(s, b, Some(p)) else s, d0)
  {
    hide IsCycle, Represents, P.Inv, Agrees, OnDisk, Slots, S.Inv;
    ghost var a := l.bc.A();
    S.InvAt(s, l.start);
    OnDiskCache(a, s, l.start, d0);
    AgreesHere(a, s, b);
    SlotCaches(l, c, s, d0, b);
    ghost var t := S.Hold(s, b, Some(p));
    got := l.bc.Acquire(c.slot[b], b);
    c', data := c, l.bc.buf[c.slot[b]].data;
    if got {
      c' := c.(holder := c.holder[b := Some(p)]);
      AgreesUpdate(a, l.bc.A(), s, t, b);
      HoldOnly(a, l.bc.A(), s, t, l.start, d0);
    }
  }

  /** Who has a block locked has a reference to it. */
  lemma InvHome(s: S.State, start: nat, b: nat)
    requires S.Inv(s, start) && b < |s.cur|
    ensures S.Sized(s) && (s.holder[b].Some? ==> s.holder[b].value in s.users[b])
  {
    assert S.Held(s, start, b);
  }

  method DoUnlock(l: Log, b: nat, c: Clients, ghost s: S.State, ghost d0: Disk) returns (c': Clients)
    requires S.Inv(s, l.start) && !s.stuck && Running(l, c, s, d0) && b < |s.holder| && s.holder[b].Some?
    modifies l.bc
    ensures S.Sized(s) && c' == c.(holder := c'.holder) && l.bc.disk == old(l.bc.disk) && l.bc.writes == old(l.bc.writes)
    ensures Running(l, c', S.Hold(s, b, None), d0)
  {
    hide IsCycle, Represents, P.Inv, Agrees, OnDisk, Slots, S.Inv;
    ghost var a := l.bc.A();
    S.InvAt(s, l.start);
    OnDiskCache(a, s, l.start, d0);
    AgreesHere(a, s, b);
    InvHome(s, l.start, b);
    SlotCaches(l, c, s, d0, b);
    ghost var t := S.Hold(s, b, None);
    l.bc.Unlock(c.slot[b], b);
    c' := c.(holder := c.holder[b := None]);
    AgreesUpdate(a, l.bc.A(), s, t, b);
    HoldOnly(a, l.bc.A(), s, t, l.start, d0);
  }

  method DoUnref(l: Log, p: nat, b: nat, c: Clients, ghost s: S.State, ghost d0: Disk) returns (c': Clients)
    requires S.Inv(s, l.start) && !s.stuck && Running(l, c, s, d0)
    requires b < |s.users| && b < |s.holder| && p in s.users[b] && s.holder[b] != Some(p)
    modifies l.bc
    ensures S.Sized(s) && c' == c.(users := c'.users) && l.bc.disk == old(l.bc.disk) && l.bc.writes == old(l.bc.writes)
    ensures Running(l, c', S.Drop(s, p, b), d0)
  {
    hide IsCycle, Represents, P.Inv, Agrees, OnDisk, Slots, AgreesAt, S.Inv;
    ghost var a := l.bc.A();
    S.InvAt(s, l.start);
    OnDiskCache(a, s, l.start, d0);
    AgreesHere(a, s, b);
    InvHome(s, l.start, b);
    SlotCaches(l, c, s, d0, b);
    LastUser(a, s, l.start, d0, p, b);
    ghost var t := S.Drop(s, p, b);
    l.bc.Unref(c.slot[b], b);
    c' := c.(users := c.users[b := c.users[b] - {p}]);
    OneUser(a, l.bc.A(), s, t, b);
    AgreesUpdate(a, l.bc.A(), s, t, b);
    HoldOnly(a, l.bc.A(), s, t, l.start, d0);
    SlotsFewer(l.bc.home, s.users, c.slot, b, p);
  }

  /** The last to let go of a block finds it unlocked and on the disk. */
  lemma LastUser(a: Abs, s: S.State, start: nat, d0: Disk, p: nat, b: nat)
    requires OnDisk(a, s, start, d0) && S.Inv(s, start) && Sized(a) && S.Sized(s) && b < |a.disk| == |s.cur| && AgreesAt(a, s, b)
    requires p in s.users[b] && s.holder[b] != Some(p)
    ensures a.refs[b] == 1 ==> a.view[b] == a.disk[b] && !a.locks[b]
  {
    hide OnDisk;
    InvHome(s, start, b);
    if a.refs[b] == 1 {
      Alone(s.users[b], p);
      if InLog(start, b) {
        OnDiskCache(a, s, start, d0);
      } else {
        UnpinnedClean(a, s, start, d0, b);
      }
    }
  }

  lemma Alone(users: set<nat>, p: nat)
    requires p in users
    ensures |users| >= 1 && (|users| == 1 ==> users == {p})
  {
    assert |users - {p}| == |users| - 1;
    assert users == (users - {p}) + {p};
  }

  lemma SlotsFewer(home: map<nat, nat>, users: seq<set<nat>>, slot: seq<nat>, b: nat, p: nat)
    requires Slots(home, users, slot) && b < |users|
    ensures Slots(home, users[b := users[b] - {p}], slot)
  {
  }

  method DoPut(l: Log, p: nat, b: nat, data: Block, c: Clients, ghost s: S.State, ghost d0: Disk) returns (c': Clients)
    requires S.Inv(s, l.start) && !s.stuck && Running(l, c, s, d0)
    requires S.Legal(c.procs, c.users, c.holder, l.start, S.Put(p, b, data))
    modifies l, l.bc
    ensures l.bc.disk == old(l.bc.disk) && l.bc.writes == old(l.bc.writes) && c'.stuck == c.stuck
    ensures Running(l, c', S.Step(s, l.start, S.Put(p, b, data)).0, d0)
  {
    hide IsCycle, Represents, P.Inv, P.Step, Agrees, OnDisk, Slots, S.Inv, AgreesAt, SameHome, LogClean;
    PutProcs(s.log, p, b) by {
      S.LogInv(s, l.start);
    }
    S.InvAt(s, l.start);
    ghost var a := l.bc.A();
    OnDiskCache(a, s, l.start, d0);
    AgreesHere(a, s, b);
    InvHome(s, l.start, b);
    SlotCaches(l, c, s, d0, b);
    S.PutKeeps(s, l.start, p, b, data);
    S.InsideIsIdle(s, l.start, p);
    ghost var t := S.Step(s, l.start, S.Put(p, b, data)).0;
    var known := b in l.block[..l.n];
    l.Change(p, c.slot[b], b, data);
    c' := if known then c else c.(procs := c.procs[p := P.In(c.procs[p].added + 1)]);
    PutAgrees(a, l.bc.A(), s, t, b);
    PutOnDisk(a, l.bc.A(), s, t, l.start, d0, b, data);
  }

  lemma PutProcs(s: P.State, p: nat, b: nat)
    requires P.Inv(s) && P.Enabled(s, P.LogWrite(p, b))
    ensures P.Step(s, P.LogWrite(p, b)).procs == if b in s.blocks then s.procs else s.procs[p := P.In(s.procs[p].added + 1)]
    ensures P.Step(s, P.LogWrite(p, b)).phase == s.phase
  {
    P.LogWriteRoom(s, p, b);
  }

  lemma PutAgrees(a: Abs, a': Abs, s: S.State, t: S.State, b: nat)
    requires Agrees(a, s) && s.log.phase.Idle? && b < |a.disk| && Sized(a') && |a'.disk| == |a.disk| && a'.locks == a.locks
    requires a'.refs == if b in s.log.blocks then a.refs else Bump(a.refs, b, 1)
    requires t == s.(log := t.log, cur := t.cur) && |t.cur| == |s.cur| && t.log.phase.Idle?
    requires t.log.blocks == if b in s.log.blocks then s.log.blocks else s.log.blocks + [b]
    ensures Agrees(a', t)
  {
    forall x | 0 <= x < |a'.disk|
      ensures AgreesAt(a', t, x)
    {
      assert AgreesAt(a, s, x);
    }
  }

  lemma PutOnDisk(a: Abs, a': Abs, s: S.State, t: S.State, start: nat, d0: Disk, b: nat, data: Block)
    requires OnDisk(a, s, start, d0) && s.log.phase.Idle? && b < |s.cur| && !InLog(start, b) && P.Inv(t.log)
    requires a'.disk == a.disk && a'.view == a.view[b := data]
    requires t == s.(log := t.log, cur := s.cur[b := data]) && t.log.phase.Idle?
    requires t.log.blocks == if b in s.log.blocks then s.log.blocks else s.log.blocks + [b]
    ensures OnDisk(a', t, start, d0)
  {
    hide CleanOutside, CommitWrites, Apply, SameHome, P.Inv, GetWord;
    P.BlocksFit(t.log);
    ReadyPut(d0, s.cur, start, s.log.blocks, t.log.blocks, b, data);
    SamePut(a.view, s.cur, start, b, data);
    CleanPut(a, a', start, b);
    assert CommitWrites(d0, s.cur, start, s.log.blocks)[..0] == [];
    assert CommitWrites(d0, t.cur, start, t.log.blocks)[..0] == [];
  }

  lemma ReadyPut(d0: Disk, cur: Disk, start: nat, bs: seq<nat>, cs: seq<nat>, b: nat, data: Block)
    requires ReadyToCommit(d0, cur, start, bs) && |cur| == |d0| && b < |cur| && !InLog(start, b)
    requires cs == (if b in bs then bs else bs + [b]) && |cs| <= LOGBLOCKS && LogSpec.Distinct(cs)
    ensures ReadyToCommit(d0, cur[b := data], start, cs)
  {
    hide GetWord;
  }

  lemma SamePut(view: Disk, cur: Disk, start: nat, b: nat, data: Block)
    requires SameHome(view, cur, start) && b < |view|
    ensures |view| == |cur| && SameHome(view[b := data], cur[b := data], start)
  {
  }

  lemma CleanPut(a: Abs, a': Abs, start: nat, b: nat)
    requires LogClean(a, start) && b < |a.view| && a'.disk == a.disk && !InLog(start, b) && |a'.view| == |a.view|
    requires forall x :: 0 <= x < |a.view| && x != b ==> a'.view[x] == a.view[x]
    ensures LogClean(a', start)
  {
  }

  method DoEnd(l: Log, p: nat, c: Clients, ghost s: S.State, ghost d0: Disk) returns (c': Clients)
    requires S.Inv(s, l.start) && !s.stuck && Running(l, c, s, d0) && S.Legal(c.procs, c.users, c.holder, l.start, S.End(p))
    modifies l
    ensures c'.stuck == c.stuck && Running(l, c', S.Step(s, l.start, S.End(p)).0, d0)
  {
    hide IsCycle, Represents, P.Inv, Agrees, OnDisk, Slots;
    S.InsideIsIdle(s, l.start, p);
    ghost var t := S.Step(s, l.start, S.End(p)).0;
    SameDisk(l.bc.A(), s, t, l.start, d0);
    var last := l.EndOp(p);
    c' := if last then c.(procs := c.procs[p := P.Out], phase := P.Writing) else c.(procs := P.Wake(c.procs[p := P.Out]));
  }

  // ---- the steps of a commit ----

  lemma HeadersAre(d: Disk, d0: Disk, start: nat, bs: seq<nat>)
    requires Layout(d, start) && |d0| == |d| && Loggable(bs, start, |d|)
    ensures d[start] == d0[start] ==> HeaderWrite(d, start, bs) == HeaderWrite(d0, start, bs)
    ensures d[start] == HeaderWrite(d0, start, bs).data ==>
      HeaderWrite(d, start, []) == Write(start, EncodeHeader(HeaderWrite(d0, start, bs).data, []))
    ensures HeaderWrite(d0, start, bs).blockno == start
  {
    hide EncodeHeader;
  }

  lemma CleanLog(a: Abs, start: nat, b: nat)
    requires LogClean(a, start) && InLog(start, b) && b < |a.disk|
    ensures a.view[b] == a.disk[b]
  {
  }

  /** The log area after the first k writes of a commit. */
  lemma LogAreaAfter(d0: Disk, v: Disk, start: nat, bs: seq<nat>, k: nat, t: Disk)
    requires ReadyToCommit(d0, v, start, bs) && bs != [] && k <= 2 * |bs| + 1
    requires t == Apply(d0, CommitWrites(d0, v, start, bs)[..k])
    ensures t[start] == if k <= |bs| then d0[start] else HeaderWrite(d0, start, bs).data
    ensures k > |bs| ==> forall i :: 0 <= i < |bs| ==> t[start + 1 + i] == v[bs[i]]
  {
    hide GetWord, PutWord, EncodeHeader, Apply, HeaderWrite;
    var us := CommitWrites(d0, v, start, bs)[..k];
    HeadersAre(d0, d0, start, bs);
    if k <= |bs| {
      ApplyMiss(d0, us, start);
    } else {
      ApplyHit(d0, us, |bs|);
      assert IsCommitPrefix(us, d0, v, start, bs);
      forall i | 0 <= i < |bs|
        ensures t[start + 1 + i] == v[bs[i]]
      {
        CommitLogged(d0, v, start, bs, us, i);
      }
    }
  }

  /** What the commit has to write next, in terms of what is in the cache and on the disk now. */
  lemma NextWrite(a: Abs, s: S.State, start: nat, d0: Disk)
    requires OnDisk(a, s, start, d0) && Sized(a)
    requires s.log.blocks != [] && s.turn < S.Turns(|s.log.blocks|) && S.Issued(s) == s.turn
    ensures var n, bs := |s.log.blocks|, s.log.blocks;
            var w := CommitWrite(d0, s.cur, start, bs, s.turn);
            && (s.turn < n ==> w == Write(start + 1 + s.turn, a.view[bs[s.turn]]))
            && (s.turn == n ==> w == HeaderWrite(a.disk, start, bs))
            && (n < s.turn <= 2 * n ==> w == Write(bs[s.turn - n - 1], a.view[start + s.turn - n]))
            && (s.turn == 2 * n + 1 ==> w == HeaderWrite(a.disk, start, []))
  {
    hide GetWord, PutWord, EncodeHeader, Apply, S.Issued, HeaderWrite, CommitWrites;
    var n, bs := |s.log.blocks|, s.log.blocks;
    LogAreaAfter(d0, s.cur, start, bs, s.turn, a.disk);
    HeadersAre(a.disk, d0, start, bs);
    if n < s.turn <= 2 * n {
      var i := s.turn - n - 1;
      assert a.disk[start + 1 + i] == s.cur[bs[i]];
      CleanLog(a, start, start + 1 + i);
    }
  }

  /** The device write w, which goes to the cache too. */
  predicate Turned(a: Abs, a': Abs, w: Write) {
    && w.blockno < |a.disk| == |a.view| && a'.disk == a.disk[w.blockno := w.data] && a'.view == a.view[w.blockno := w.data]
    && a'.writes == a.writes + [w] && a'.locks == a.locks
  }

  lemma TurnOnDisk(a: Abs, a': Abs, s: S.State, start: nat, d0: Disk)
    requires OnDisk(a, s, start, d0) && s.log.blocks != [] && s.turn < S.Turns(|s.log.blocks|) && S.Issued(s) == s.turn
    requires Turned(a, a', CommitWrite(d0, s.cur, start, s.log.blocks, s.turn))
    ensures a'.disk == Apply(d0, CommitWrites(d0, s.cur, start, s.log.blocks)[..s.turn + 1])
    ensures LogClean(a', start) && SameHome(a'.view, s.cur, start)
    ensures Recoverable(a'.disk, start)
    ensures SameHome(Recovered(a'.disk, start), if s.turn < |s.log.blocks| then d0 else s.cur, start)
  {
    hide GetWord, EncodeHeader, Apply, Recovered, Recoverable, S.Issued, CommitWrite, SameHome, LogClean, CleanOutside;
    var bs := s.log.blocks;
    var ws := CommitWrites(d0, s.cur, start, bs);
    ApplySnoc(d0, ws[..s.turn], ws[s.turn]);
    assert ws[..s.turn] + [ws[s.turn]] == ws[..s.turn + 1];
    CommitIsAtomic(d0, s.cur, start, bs, s.turn + 1);
    WriteKeeps(a, a', d0, s.cur, start, bs, s.turn);
  }

  /** Each write of a commit is to the log area, or puts home what is in the cache. */
  lemma WriteKeeps(a: Abs, a': Abs, d0: Disk, cur: Disk, start: nat, bs: seq<nat>, k: nat)
    requires Layout(d0, start) && |cur| == |d0| && Loggable(bs, start, |d0|) && k < 2 * |bs| + 2 && |bs| <= LOGBLOCKS
    requires Turned(a, a', CommitWrite(d0, cur, start, bs, k)) && LogClean(a, start) && SameHome(a.view, cur, start)
    ensures LogClean(a', start) && SameHome(a'.view, cur, start)
  {
    hide EncodeHeader, GetWord;
  }

  lemma HomeTrans(x: Disk, y: Disk, z: Disk, start: nat)
    requires SameHome(x, y, start) && SameHome(y, z, start)
    ensures SameHome(x, z, start)
  {
  }

  /** A write that is not the last, on disk and map. */
  lemma TurnGoesOn(a: Abs, a': Abs, s: S.State, t: S.State, start: nat, h: History)
    requires OnDisk(a, s, start, h.d0) && s.log.blocks != [] && s.turn + 1 < S.Turns(|s.log.blocks|) && S.Inv(s, start)
    requires Turned(a, a', CommitWrite(h.d0, s.cur, start, s.log.blocks, s.turn))
    requires Durable(h, a.disk, a.writes, start, s.saves)
    requires s.log.phase.Writing? && S.Issued(s) == s.turn && S.Issued(t) == s.turn + 1
    requires t == s.(turn := t.turn, pos := t.pos, saves := if s.turn == |s.log.blocks| then s.saves + [s.cur] else s.saves)
    ensures h.base <= |a.writes|
    ensures var h' := if s.turn == |s.log.blocks| then h.(marks := h.marks + [|a.writes| + 1 - h.base]) else h;
            OnDisk(a', t, start, h.d0) && Durable(h', a'.disk, a'.writes, start, t.saves)
  {
    hide Durable, Recovered, Recoverable, Apply, P.Inv, HeaderWrite, CommitWrite, SameHome, LogClean, S.Held, S.Home,
         S.At, S.InOrder, S.Issued;
    TurnOnDisk(a, a', s, start, h.d0);
    var w := CommitWrite(h.d0, s.cur, start, s.log.blocks, s.turn);
    if s.turn == |s.log.blocks| {
      DurableSave(h, a.disk, a.writes, start, s.saves, w, s.cur);
    } else {
      HomeTrans(Recovered(a'.disk, start), if s.turn < |s.log.blocks| then h.d0 else s.cur, s.saves[|s.saves| - 1], start);
      DurableWrite(h, a.disk, a.writes, start, s.saves, w, h.d0);
      DurableBase(h, a.disk, a.writes, start, s.saves);
    }
  }

  lemma DurableBase(h: History, disk: Disk, writes: seq<Write>, start: nat, saves: seq<Disk>)
    requires Durable(h, disk, writes, start, saves)
    ensures h.base <= |writes|
  {
  }

  /** The last write. */
  lemma TurnEnds(a: Abs, a': Abs, s: S.State, t: S.State, start: nat, h: History)
    requires OnDisk(a, s, start, h.d0) && s.log.blocks != [] && s.turn + 1 == S.Turns(|s.log.blocks|) && S.Inv(s, start)
    requires Turned(a, a', CommitWrite(h.d0, s.cur, start, s.log.blocks, s.turn))
    requires Durable(h, a.disk, a.writes, start, s.saves) && S.Issued(s) == s.turn
    requires t == s.(turn := t.turn, pos := t.pos, log := t.log) && t.log.blocks == [] && t.log.phase.Written?
    ensures OnDisk(a', t, start, a'.disk) && Durable(h.(d0 := a'.disk), a'.disk, a'.writes, start, t.saves)
  {
    hide Durable, Recovered, Recoverable, Apply, P.Inv, HeaderWrite, CommitWrite, SameHome, LogClean, S.Held, S.Home,
         S.At, S.InOrder;
    TurnOnDisk(a, a', s, start, h.d0);
    var bs := s.log.blocks;
    var ws := CommitWrites(h.d0, s.cur, start, bs);
    assert ws[..s.turn + 1] == ws;
    CommitInstalls(h.d0, s.cur, start, bs);
    NoWrites(a'.disk);
    ReadyAgain(a'.disk, s.cur, start, bs);
    assert CommitWrites(a'.disk, s.cur, start, [])[..0] == [];
    HomeTrans(Recovered(a'.disk, start), s.cur, s.saves[|s.saves| - 1], start);
    DurableWrite(h, a.disk, a.writes, start, s.saves, CommitWrite(h.d0, s.cur, start, bs, s.turn), a'.disk);
  }

  lemma ReadyAgain(d: Disk, cur: Disk, start: nat, bs: seq<nat>)
    requires Layout(d, start) && HeaderCount(d[start]) == 0 && Loggable(bs, start, |d|) && SameHome(d, cur, start)
    ensures ReadyToCommit(d, cur, start, [])
  {
  }

  lemma NoWrites(d: Disk)
    ensures Apply(d, []) == d
  {
  }

  /** References after a device write. */
  lemma WriteAgrees(a: Abs, a': Abs, s: S.State, t: S.State)
    requires Agrees(a, s) && Sized(a') && |a'.disk| == |a.disk| && a'.locks == a.locks && a'.refs == a.refs
    requires t == s.(log := t.log, turn := t.turn, pos := t.pos, saves := t.saves)
    requires t.log.blocks[S.Installed(t)..] == s.log.blocks[S.Installed(s)..]
    ensures Agrees(a', t)
  {
    hide S.Installed;
    forall x | 0 <= x < |a'.disk|
      ensures AgreesAt(a', t, x)
    {
      assert AgreesAt(a, s, x);
    }
  }

  /** Going home ends one block's pin. */
  lemma PinDrops(a: Abs, a': Abs, s: S.State, t: S.State)
    requires Agrees(a, s) && LogSpec.Distinct(s.log.blocks)
    requires S.Installed(s) < |s.log.blocks| && S.Installed(t) == S.Installed(s) + 1
    requires t == s.(turn := t.turn, pos := t.pos) && s.log.blocks[S.Installed(s)] < |a.refs|
    requires a' == a.(refs := Bump(a.refs, s.log.blocks[S.Installed(s)], -1))
    ensures Agrees(a', t)
  {
    hide S.Installed;
    var bs, j := s.log.blocks, S.Installed(s);
    assert bs[j..] == [bs[j]] + bs[j + 1..];
    forall x | 0 <= x < |a'.disk|
      ensures AgreesAt(a', t, x)
    {
      assert AgreesAt(a, s, x);
    }
  }

  lemma OnDiskReady(a: Abs, s: S.State, start: nat, d0: Disk)
    requires OnDisk(a, s, start, d0)
    ensures |s.cur| == |d0| && ReadyToCommit(d0, s.cur, start, s.log.blocks)
  {
  }

  /** Where the commit is after a step that is not the erasing write. */
  function Moved(c: Clients, acts: seq<S.Act>): (c': Clients) {
    if c.phase.Writing? && c.pos + 1 >= |acts| then c.(turn := c.turn + 1, pos := 0) else c.(pos := c.pos + 1)
  }

  /** The next step of the commit is `act`. */
  ghost predicate AtAct(l: Log, c: Clients, s: S.State, h: History, act: S.Act)
    reads l, l.bc
  {
    && S.Inv(s, l.start) && !s.stuck && !c.stuck && Running(l, c, s, h.d0)
    && Durable(h, l.bc.disk, l.bc.writes, l.start, s.saves)
    && s.pos < |S.Acts(s, l.start)| && S.Acts(s, l.start)[s.pos] == act
  }

  /** Any step but a device write and a dropped pin only moves the commit. */
  lemma MoveOn(l: Log, c: Clients, s: S.State, t: S.State, d0: Disk)
    requires S.At(s, l.start) && s.pos < |S.Acts(s, l.start)|
    requires var act := S.Acts(s, l.start)[s.pos]; !act.Copy? && !act.PutHead? && !act.Unpin?
    requires t == s.(users := t.users, holder := t.holder) && Running(l, c, t, d0)
    ensures Running(l, Moved(c, S.Acts(s, l.start)), S.Next(t, l.start), d0)
  {
    hide IsCycle, Represents, P.Inv, Agrees, OnDisk, Slots, S.At, S.ActsAt, S.Issued, S.Installed;
    var u := S.Next(t, l.start);
    S.Counts(s, u, l.start);
    assert S.Acts(t, l.start) == S.Acts(s, l.start);
    assert S.Issued(t) == S.Issued(s) && S.Installed(t) == S.Installed(s) by {
      SamePlace(s, t);
    }
    SameDisk(l.bc.A(), t, u, l.start, d0);
  }

  lemma SamePlace(s: S.State, t: S.State)
    requires t.log == s.log && t.turn == s.turn && t.pos == s.pos
    ensures S.Issued(t) == S.Issued(s) && S.Installed(t) == S.Installed(s)
  {
  }

  /** What the commit refers to and has locked, block by block. */
  lemma Has(s: S.State, start: nat)
    requires S.Inv(s, start) && s.pos < |S.Acts(s, start)|
    ensures S.Sized(s) && S.Allowed(S.Acts(s, start)[s.pos], S.Refs(s), S.Locks(s)) && S.At(s, start)
    ensures forall b :: 0 <= b < |s.users| ==> (b in S.Refs(s) <==> S.Committer(s) in s.users[b])
    ensures forall b :: 0 <= b < |s.holder| ==> (b in S.Locks(s) <==> s.holder[b] == Some(S.Committer(s)))
    ensures forall b :: b in S.Locks(s) ==> b < |s.users| && S.Committer(s) in s.users[b]
  {
    S.InvAt(s, start);
    S.AllowedNow(s, start);
    forall b | b in S.Locks(s)
      ensures S.Committer(s) in s.users[b]
    {
      assert S.Held(s, start, b);
    }
  }

  method TakeStep(l: Log, b: nat, c: Clients, ghost s: S.State, ghost h: History) returns (c': Clients, out: S.Out)
    requires AtAct(l, c, s, h, S.Take(b))
    modifies l.bc
    ensures S.Sized(s) && l.bc.disk == old(l.bc.disk) && l.bc.writes == old(l.bc.writes)
    ensures var (t, o) := S.Does(s, l.start, S.Take(b)); out == o && c'.stuck == t.stuck && (t.stuck || Running(l, c', t, h.d0))
  {
    hide IsCycle, Represents, P.Inv, Agrees, OnDisk, Slots, Durable, S.Inv, Running, S.InUse, S.Pinned, S.At,
         S.Refs, S.Locks;
    Has(s, l.start);
    S.ActInside(s, l.start);
    RunningIs(l, c, s, h.d0);
    ghost var (t, o) := S.Ref(s, S.Committer(s), b);
    c', out := DoGet(l, |c.procs|, b, c, s, h.d0);
    if out.Done? {
      MoveOn(l, c', s, t, h.d0);
      c' := Moved(c', S.ActsAt(c.phase, l.block[..l.n], c.turn, l.start));
    }
  }

  method SeizeStep(l: Log, b: nat, c: Clients, ghost s: S.State, ghost h: History) returns (c': Clients, out: S.Out)
    requires AtAct(l, c, s, h, S.Seize(b))
    modifies l.bc
    ensures S.Sized(s) && l.bc.disk == old(l.bc.disk) && l.bc.writes == old(l.bc.writes) && c'.stuck == c.stuck
    ensures var (t, o) := S.Does(s, l.start, S.Seize(b)); out == o && Running(l, c', t, h.d0)
  {
    hide IsCycle, Represents, P.Inv, Agrees, OnDisk, Slots, Durable, S.Inv, Running, S.InUse, S.Pinned, S.At,
         S.Refs, S.Locks, S.Next;
    Has(s, l.start);
    S.ActInside(s, l.start);
    RunningIs(l, c, s, h.d0);
    var got, data;
    c', got, data := DoLock(l, |c.procs|, b, c, s, h.d0);
    out := S.Waits;
    if got {
      out := S.Done;
      MoveOn(l, c', s, S.Hold(s, b, Some(S.Committer(s))), h.d0);
      c' := Moved(c', S.ActsAt(c.phase, l.block[..l.n], c.turn, l.start));
    }
  }

  method FreeStep(l: Log, b: nat, c: Clients, ghost s: S.State, ghost h: History) returns (c': Clients)
    requires AtAct(l, c, s, h, S.Free(b))
    modifies l.bc
    ensures S.Sized(s) && l.bc.disk == old(l.bc.disk) && l.bc.writes == old(l.bc.writes) && c'.stuck == c.stuck
    ensures var (t, o) := S.Does(s, l.start, S.Free(b)); o.Done? && Running(l, c', t, h.d0)
  {
    hide IsCycle, Represents, P.Inv, Agrees, OnDisk, Slots, Durable, S.Inv, Running, S.InUse, S.Pinned, S.At,
         S.Refs, S.Locks, S.Next;
    Has(s, l.start);
    S.ActInside(s, l.start);
    RunningIs(l, c, s, h.d0);
    c' := DoUnlock(l, b, c, s, h.d0);
    MoveOn(l, c', s, S.Hold(s, b, None), h.d0);
    c' := Moved(c', S.ActsAt(c.phase, l.block[..l.n], c.turn, l.start));
  }

  method LeaveStep(l: Log, b: nat, c: Clients, ghost s: S.State, ghost h: History) returns (c': Clients)
    requires AtAct(l, c, s, h, S.Leave(b))
    modifies l.bc
    ensures S.Sized(s) && l.bc.disk == old(l.bc.disk) && l.bc.writes == old(l.bc.writes) && c'.stuck == c.stuck
    ensures var (t, o) := S.Does(s, l.start, S.Leave(b)); o.Done? && Running(l, c', t, h.d0)
  {
    hide IsCycle, Represents, P.Inv, Agrees, OnDisk, Slots, Durable, S.Inv, Running, S.InUse, S.Pinned, S.At,
         S.Refs, S.Locks, S.Next;
    Has(s, l.start);
    S.ActInside(s, l.start);
    RunningIs(l, c, s, h.d0);
    c' := DoUnref(l, |c.procs|, b, c, s, h.d0);
    MoveOn(l, c', s, S.Drop(s, S.Committer(s), b), h.d0);
    c' := Moved(c', S.ActsAt(c.phase, l.block[..l.n], c.turn, l.start));
  }

  /** Which turn a copy belongs to. */
  lemma CopyIs(s: S.State, start: nat, src: nat, dst: nat)
    requires S.Inv(s, start) && s.pos < |S.Acts(s, start)| && S.Acts(s, start)[s.pos] == S.Copy(src, dst)
    ensures var n, bs, t := |s.log.blocks|, s.log.blocks, S.Wrote(s, start);
            && s.log.phase.Writing? && bs != [] && s.turn <= 2 * n && s.turn != n && S.Issued(s) == s.turn
            && (s.turn < n ==> src == bs[s.turn] && dst == start + 1 + s.turn)
            && (s.turn > n ==> src == start + s.turn - n && dst == bs[s.turn - n - 1])
            && t == S.Next(s, start) && S.Issued(t) == s.turn + 1 && S.Installed(t) == S.Installed(s)
            && src < |s.cur| && dst < |s.cur|
  {
    hide S.Orderly, P.Inv;
    S.InvAt(s, start);
    S.Counts(s, S.Next(s, start), start);
  }

  lemma CopyNext(a: Abs, s: S.State, start: nat, d0: Disk, src: nat, dst: nat)
    requires S.Inv(s, start) && s.pos < |S.Acts(s, start)| && S.Acts(s, start)[s.pos] == S.Copy(src, dst)
    requires OnDisk(a, s, start, d0) && Sized(a)
    ensures |s.cur| == |d0| == |a.disk| && ReadyToCommit(d0, s.cur, start, s.log.blocks) && s.turn < 2 * |s.log.blocks| + 2
    ensures src < |a.disk| && dst < |a.disk| && CommitWrite(d0, s.cur, start, s.log.blocks, s.turn) == Write(dst, a.view[src])
  {
    hide S.Inv, OnDisk, S.Acts, HeaderWrite, SameHome, ReadyToCommit, S.Issued;
    CopyIs(s, start, src, dst);
    OnDiskCache(a, s, start, d0);
    OnDiskReady(a, s, start, d0);
    NextWrite(a, s, start, d0);
  }

  /** The copy to the log or from it. */
  method CopyStep(l: Log, src: nat, dst: nat, c: Clients, ghost s: S.State, ghost h: History) returns (c': Clients)
    requires AtAct(l, c, s, h, S.Copy(src, dst))
    modifies l.bc
    ensures c'.stuck == c.stuck && Durable(h, l.bc.disk, l.bc.writes, l.start, s.saves)
    ensures S.Wrote(s, l.start).saves == s.saves && Running(l, c', S.Wrote(s, l.start), h.d0)
  {
    hide IsCycle, Represents, P.Inv, Agrees, OnDisk, Slots, S.InUse, Durable, CommitWrite, CommitWrites, SameHome,
         S.Held, Keeps, S.Inv, S.At, S.Refs, S.Locks, S.Issued, S.Installed, S.ActsAt;
    ghost var a, t := l.bc.A(), S.Wrote(s, l.start);
    Has(s, l.start);
    CopyIs(s, l.start, src, dst);
    OnDiskCache(a, s, l.start, h.d0);
    CopyNext(a, s, l.start, h.d0, src, dst);
    SlotCaches(l, c, s, h.d0, src);
    SlotCaches(l, c, s, h.d0, dst);
    c' := Moved(c, S.ActsAt(c.phase, l.block[..l.n], c.turn, l.start));
    l.bc.CopyAndWrite(c.slot[src], src, c.slot[dst], dst);
    TurnGoesOn(a, l.bc.A(), s, t, l.start, h);
    WriteAgrees(a, l.bc.A(), s, t);
    OnDiskCache(l.bc.A(), t, l.start, h.d0);
  }

  lemma HeadIs(s: S.State, start: nat, b: nat)
    requires S.Inv(s, start) && s.pos < |S.Acts(s, start)| && S.Acts(s, start)[s.pos] == S.PutHead(b)
    ensures var n := |s.log.blocks|;
            && s.log.phase.Writing? && s.log.blocks != [] && b == start < |s.cur| && S.Issued(s) == s.turn && s.pos == 2
            && (s.turn == n || s.turn == 2 * n + 1)
            && (s.turn == n ==> S.Wrote(s, start) == S.Next(s.(saves := s.saves + [s.cur]), start)
                                && S.Issued(S.Wrote(s, start)) == n + 1 && S.Installed(S.Wrote(s, start)) == S.Installed(s))
            && (s.turn == 2 * n + 1 ==> S.Wrote(s, start) == s.(log := P.Step(s.log, P.Commit), turn := 0, pos := 3)
                                        && S.Installed(s) == n)
  {
    hide S.Orderly, P.Inv;
    S.InvAt(s, start);
    S.Counts(s, S.Next(s.(saves := s.saves + [s.cur]), start), start);
  }

  lemma HeadNext(a: Abs, s: S.State, start: nat, d0: Disk, b: nat)
    requires S.Inv(s, start) && s.pos < |S.Acts(s, start)| && S.Acts(s, start)[s.pos] == S.PutHead(b)
    requires OnDisk(a, s, start, d0) && Sized(a)
    ensures |s.cur| == |d0| == |a.disk| && ReadyToCommit(d0, s.cur, start, s.log.blocks) && s.turn < 2 * |s.log.blocks| + 2
    ensures Layout(a.disk, start) && Loggable(s.log.blocks, start, |a.disk|) && a.view[start] == a.disk[start]
    ensures CommitWrite(d0, s.cur, start, s.log.blocks, s.turn) ==
      HeaderWrite(a.disk, start, if s.turn == |s.log.blocks| then s.log.blocks else [])
  {
    hide S.Inv, OnDisk, S.Acts, HeaderWrite, SameHome, ReadyToCommit, S.Issued, S.Installed;
    HeadIs(s, start, b);
    OnDiskCache(a, s, start, d0);
    OnDiskReady(a, s, start, d0);
    NextWrite(a, s, start, d0);
    CleanLog(a, start, start);
  }

  lemma Saved(a: Abs, a': Abs, s: S.State, start: nat, h: History, b: nat)
    requires S.Inv(s, start) && s.pos < |S.Acts(s, start)| && S.Acts(s, start)[s.pos] == S.PutHead(b)
    requires s.turn == |s.log.blocks|
    requires Agrees(a, s) && OnDisk(a, s, start, h.d0) && Durable(h, a.disk, a.writes, start, s.saves)
    requires Sized(a) && Layout(a.disk, start) && Loggable(s.log.blocks, start, |a.disk|)
    requires a' == Head(a, start, s.log.blocks)
    ensures var t := S.Wrote(s, start);
            && h.base <= |a.writes| && t.saves == s.saves + [s.cur] && Agrees(a', t) && OnDisk(a', t, start, h.d0)
            && Durable(h.(marks := h.marks + [|a.writes| + 1 - h.base]), a'.disk, a'.writes, start, t.saves)
  {
    hide S.Inv, S.Acts, Agrees, OnDisk, Durable, S.Issued, S.Installed, EncodeHeader, CommitWrite, ReadyToCommit,
         SameHome, S.Next;
    HeadIs(s, start, b);
    HeadNext(a, s, start, h.d0, b);
    var t := S.Wrote(s, start);
    NextKeeps(s.(saves := s.saves + [s.cur]), start);
    TurnGoesOn(a, a', s, t, start, h);
    WriteAgrees(a, a', s, t);
  }

  lemma NextKeeps(s: S.State, start: nat)
    ensures var t := S.Next(s, start); t == s.(turn := t.turn, pos := t.pos)
  {
  }

  lemma Erased(a: Abs, a': Abs, s: S.State, start: nat, h: History, b: nat)
    requires S.Inv(s, start) && s.pos < |S.Acts(s, start)| && S.Acts(s, start)[s.pos] == S.PutHead(b)
    requires s.turn == 2 * |s.log.blocks| + 1
    requires Agrees(a, s) && OnDisk(a, s, start, h.d0) && Durable(h, a.disk, a.writes, start, s.saves)
    requires Sized(a) && Layout(a.disk, start) && Loggable([], start, |a.disk|) && a' == Head(a, start, [])
    ensures var t := S.Wrote(s, start);
            && t.saves == s.saves && Agrees(a', t) && OnDisk(a', t, start, a'.disk)
            && Durable(h.(d0 := a'.disk), a'.disk, a'.writes, start, t.saves)
  {
    hide S.Inv, S.Acts, Agrees, OnDisk, Durable, S.Issued, S.Installed, EncodeHeader, CommitWrite, ReadyToCommit, SameHome;
    HeadIs(s, start, b);
    HeadNext(a, s, start, h.d0, b);
    var t := S.Wrote(s, start);
    TurnEnds(a, a', s, t, start, h);
    AllGone(s, t);
    WriteAgrees(a, a', s, t);
  }

  lemma AllGone(s: S.State, t: S.State)
    requires S.Installed(s) == |s.log.blocks| && t.log.blocks == []
    ensures t.log.blocks[S.Installed(t)..] == s.log.blocks[S.Installed(s)..] == []
  {
    hide S.Installed;
  }

  /** The header write that makes the new version the one in force. */
  method SaveStep(l: Log, b: nat, c: Clients, ghost s: S.State, ghost h: History) returns (c': Clients, ghost h': History)
    requires AtAct(l, c, s, h, S.PutHead(b)) && s.turn == |s.log.blocks|
    modifies l.bc
    ensures c'.stuck == c.stuck && Later(h, h') && Durable(h', l.bc.disk, l.bc.writes, l.start, s.saves + [s.cur])
    ensures S.Wrote(s, l.start).saves == s.saves + [s.cur] && Running(l, c', S.Wrote(s, l.start), h'.d0)
  {
    hide IsCycle, Represents, P.Inv, Agrees, OnDisk, Slots, Durable, Head, SameHome, S.Inv, S.At, S.Refs, S.Locks, S.Issued,
         S.Installed, S.ActsAt, GetWord;
    ghost var a, t := l.bc.A(), S.Wrote(s, l.start);
    Has(s, l.start);
    HeadIs(s, l.start, b);
    SlotCaches(l, c, s, h.d0, b);
    c' := Moved(c, S.ActsAt(c.phase, l.block[..l.n], c.turn, l.start));
    l.PutHead(c.slot[b]);
    Saved(a, l.bc.A(), s, l.start, h, b);
    h' := h.(marks := h.marks + [|a.writes| + 1 - h.base]);
    OnDiskCache(l.bc.A(), t, l.start, h.d0);
  }

  /** The log is emptied, in memory and on the disk. Nobody looks at the count in memory during a commit. */
  method EraseStep(l: Log, b: nat, c: Clients, ghost s: S.State, ghost h: History) returns (c': Clients, ghost h': History)
    requires AtAct(l, c, s, h, S.PutHead(b)) && s.turn == 2 * |s.log.blocks| + 1
    modifies l, l.bc
    ensures c'.stuck == c.stuck && Later(h, h') && Durable(h', l.bc.disk, l.bc.writes, l.start, s.saves)
    ensures S.Wrote(s, l.start).saves == s.saves && Running(l, c', S.Wrote(s, l.start), h'.d0)
  {
    hide IsCycle, Represents, P.Inv, Agrees, OnDisk, Slots, Durable, Head, SameHome, S.Inv, S.At, S.Refs, S.Locks, S.Issued,
         S.Installed, S.ActsAt, GetWord;
    ghost var a, t := l.bc.A(), S.Wrote(s, l.start);
    Has(s, l.start);
    HeadIs(s, l.start, b);
    SlotCaches(l, c, s, h.d0, b);
    c' := c.(phase := P.Written, turn := 0, pos := 3);
    l.Erase(c.slot[b]);
    Erased(a, l.bc.A(), s, l.start, h, b);
    h' := h.(d0 := l.bc.disk);
    OnDiskCache(l.bc.A(), t, l.start, h'.d0);
  }

  lemma UnpinIs(s: S.State, start: nat, b: nat)
    requires S.Inv(s, start) && s.pos < |S.Acts(s, start)| && S.Acts(s, start)[s.pos] == S.Unpin(b)
    ensures var t := S.Next(s, start); var m := S.Installed(s);
            && s.log.phase.Writing? && LogSpec.Distinct(s.log.blocks)
            && m < |s.log.blocks| && s.log.blocks[m] == b && S.Pinned(s, b)
            && S.Installed(t) == m + 1 && S.Issued(t) == S.Issued(s) && b < |s.cur|
  {
    hide S.Orderly, P.Inv;
    S.InvAt(s, start);
    var m := S.Installed(s);
    assert s.log.blocks[m..][0] == b;
    S.Counts(s, S.Next(s, start), start);
  }

  /** install_trans drops the pin. */
  method UnpinStep(l: Log, b: nat, c: Clients, ghost s: S.State, ghost h: History) returns (c': Clients)
    requires AtAct(l, c, s, h, S.Unpin(b))
    modifies l.bc
    ensures c'.stuck == c.stuck && l.bc.disk == old(l.bc.disk) && l.bc.writes == old(l.bc.writes)
    ensures Running(l, c', S.Next(s, l.start), h.d0)
  {
    hide IsCycle, Represents, P.Inv, Agrees, OnDisk, Slots, S.InUse, Durable, S.Held, Keeps, S.Inv,
         S.At, S.Refs, S.Locks, S.Issued, S.Installed, S.ActsAt, S.Pinned;
    ghost var a, t := l.bc.A(), S.Next(s, l.start);
    Has(s, l.start);
    UnpinIs(s, l.start, b);
    OnDiskCache(a, s, l.start, h.d0);
    AgreesHere(a, s, b);
    SlotCaches(l, c, s, h.d0, b);
    Alone(s.users[b], S.Committer(s));
    c' := Moved(c, S.ActsAt(c.phase, l.block[..l.n], c.turn, l.start));
    l.bc.Bunpin(c.slot[b], b);
    PinDrops(a, l.bc.A(), s, t);
    HoldOnly(a, l.bc.A(), s, s, l.start, h.d0);
    MovedOnDisk(l.bc.A(), s, t, l.start, h.d0);
  }

  /** A step of a turn. */
  method ActStep(l: Log, act: S.Act, c: Clients, ghost s: S.State, ghost h: History)
    returns (c': Clients, out: S.Out, ghost h': History)
    requires AtAct(l, c, s, h, act)
    modifies l, l.bc
    ensures S.Sized(s) && Later(h, h')
    ensures var (t, o) := S.Does(s, l.start, act);
            && out == o && Durable(h', l.bc.disk, l.bc.writes, l.start, t.saves) && c'.stuck == t.stuck
            && (t.stuck || Running(l, c', t, h'.d0))
  {
    hide IsCycle, Represents, P.Inv, Agrees, OnDisk, Slots, S.InUse, Durable, S.Inv, Running, S.Pinned, S.At, S.Refs,
         S.Locks, S.ActsAt, P.Step;
    Has(s, l.start);
    S.ActInside(s, l.start);
    RunningIs(l, c, s, h.d0);
    out, h' := S.Done, h;
    match act
    case Take(b) => c', out := TakeStep(l, b, c, s, h);
    case Seize(b) => c', out := SeizeStep(l, b, c, s, h);
    case Copy(src, dst) => c' := CopyStep(l, src, dst, c, s, h);
    case PutHead(b) =>
      HeadIs(s, l.start, b);
      if c.turn == l.n {
        c', h' := SaveStep(l, b, c, s, h);
      } else {
        c', h' := EraseStep(l, b, c, s, h);
      }
    case Unpin(b) => c' := UnpinStep(l, b, c, s, h);
    case Free(b) => c' := FreeStep(l, b, c, s, h);
    case Leave(b) => c' := LeaveStep(l, b, c, s, h);
  }

  /** The next step of the commit. */
  method CommitStep(l: Log, c: Clients, ghost s: S.State, ghost h: History)
    returns (c': Clients, out: S.Out, ghost h': History)
    requires Implements(l, c, s, h) && !s.stuck
    modifies l, l.bc
    ensures S.Sized(s) && out == S.Turn(s, l.start).1 && Implements(l, c', S.Turn(s, l.start).0, h') && Later(h, h')
  {
    hide IsCycle, Represents, P.Inv, Agrees, OnDisk, Slots, S.InUse, Durable, S.Inv, Running, S.Does, S.ActsAt;
    S.TurnKeeps(s, l.start);
    RunningIs(l, c, s, h.d0);
    c', out, h' := c, S.Refused, h;
    var acts := S.ActsAt(c.phase, l.block[..l.n], c.turn, l.start);
    if c.pos < |acts| {
      c', out, h' := ActStep(l, acts[c.pos], c, s, h);
    } else if c.phase.Written? {
      FinishCommit(l, c, s, h.d0);
      c', out := c.(phase := P.Idle, procs := P.Wake(c.procs), pos := 0), S.Done;
    } else if c.phase.Writing? {
      EmptyCommit(l, c, s, h.d0);
      c', out := c.(phase := P.Written, pos := |S.HeadActs(l.start)|), S.Done;
    }
  }

  lemma RunningIs(l: Log, c: Clients, s: S.State, d0: Disk)
    requires Running(l, c, s, d0)
    ensures l.n <= |l.block| == LOGBLOCKS && l.P() == s.log && c.phase == s.log.phase && c.turn == s.turn && c.pos == s.pos
    ensures c.holder == s.holder && c.users == s.users && c.procs == s.log.procs && l.block[..l.n] == s.log.blocks
  {
  }

  method FinishCommit(l: Log, c: Clients, ghost s: S.State, ghost d0: Disk)
    requires S.Inv(s, l.start) && Running(l, c, s, d0) && c.phase.Written?
    modifies l
    ensures var t := s.(log := P.Step(s.log, P.CommitDone), pos := 0);
            Running(l, c.(phase := P.Idle, procs := P.Wake(c.procs), pos := 0), t, d0)
    ensures l.bc.disk == old(l.bc.disk) && l.bc.writes == old(l.bc.writes)
  {
    hide IsCycle, Represents, P.Inv, Agrees, OnDisk, Slots;
    SameDisk(l.bc.A(), s, s.(log := P.Step(s.log, P.CommitDone), pos := 0), l.start, d0);
    l.CommitDone();
  }

  /** commit() with nothing logged. */
  method EmptyCommit(l: Log, c: Clients, ghost s: S.State, ghost d0: Disk)
    requires S.Inv(s, l.start) && Running(l, c, s, d0) && c.phase.Writing? && s.pos >= |S.Acts(s, l.start)|
    modifies l
    ensures var m := |S.HeadActs(l.start)|;
            Running(l, c.(phase := P.Written, pos := m), s.(log := P.Step(s.log, P.Commit), pos := m), d0)
    ensures l.bc.disk == old(l.bc.disk) && l.bc.writes == old(l.bc.writes)
  {
    hide IsCycle, Represents, P.Inv, Agrees, OnDisk, Slots;
    assert s.log.blocks == [];
    P.StepInv(s.log, P.Commit);
    SameDisk(l.bc.A(), s, s.(log := P.Step(s.log, P.Commit), pos := |S.HeadActs(l.start)|), l.start, d0);
    l.phase := P.Written;
  }

  // ---- whole lives of the system ----

  /** One step. */
  method Do(l: Log, op: S.Op, c: Clients, ghost s: S.State, ghost h: History)
    returns (c': Clients, out: S.Out, ghost h': History)
    requires Implements(l, c, s, h)
    modifies l, l.bc
    ensures S.Sized(s) && out == S.Step(s, l.start, op).1 && Implements(l, c', S.Step(s, l.start, op).0, h') && Later(h, h')
  {
    hide IsCycle, Represents, P.Inv, Agrees, OnDisk, Slots, S.InUse, Durable, S.Inv, S.Turn, Running, P.Step, S.Pinned;
    S.StepKeeps(s, l.start, op);
    c', out, h' := c, S.Refused, h;
    if c.stuck {
      return;
    }
    RunningIs(l, c, s, h.d0);
    if !S.Legal(c.procs, c.users, c.holder, l.start, op) {
      return;
    }
    match op
    case Begin(p) => c', out := DoBegin(l, p, c, s, h.d0);
    case Get(p, b) => c', out := DoGet(l, p, b, c, s, h.d0);
    case Lock(p, b) =>
      var got, data;
      UserHome(s, l.start, p, b);
      c', got, data := DoLock(l, p, b, c, s, h.d0);
      out := if got then S.Data(data) else S.Waits;
    case Put(p, b, data) =>
      c' := DoPut(l, p, b, data, c, s, h.d0);
      out := S.Done;
    case Unlock(p, b) =>
      c' := DoUnlock(l, b, c, s, h.d0);
      out := S.Done;
    case Unref(p, b) =>
      c' := DoUnref(l, p, b, c, s, h.d0);
      out := S.Done;
    case End(p) =>
      c' := DoEnd(l, p, c, s, h.d0);
      out := S.Done;
    case Commit => c', out, h' := CommitStep(l, c, s, h);
  }

  /** Processes use only home blocks. */
  lemma UserHome(s: S.State, start: nat, p: nat, b: nat)
    requires S.Inv(s, start) && p < S.Committer(s) && b < |s.users| && p in s.users[b]
    ensures !InLog(start, b)
  {
    assert S.Held(s, start, b);
  }

  /** The system comes up on a disk that power may have left at any point of a commit. */
  method Boot(image: Disk, start: nat, nproc: nat) returns (l: Log, c: Clients, ghost h: History)
    requires Recoverable(image, start)
    ensures fresh(l) && fresh(l.bc) && l.start == start
    ensures Implements(l, c, S.Start(Recovered(image, start), nproc), h)
  {
    hide IsCycle, Represents, Recovered, Durable, GetWord, EncodeHeader;
    var bc := new Bcache(image);
    l := new Log(bc, start, nproc);
    c := Clients(seq(nproc, i => P.Out), seq(|image|, b => {}), seq(|image|, b => None), seq(|image|, b => 0),
                 P.Idle, 0, 0, false);
    ghost var a := bc.A();
    AllFree(a, start);
    l.RecoverFromLog();
    RecoverRests(a, start);
    ghost var d := Recovered(image, start);
    h := History(d, |bc.writes|, [0], d);
    DurableStart(d, bc.writes, start);
    S.StartInv(d, nproc, start);
    assert l.block[..l.n] == [];
    StartOnDisk(bc.A(), start, nproc);
  }

  lemma StartOnDisk(a: Abs, start: nat, n: nat)
    requires Sized(a) && LogOk(a, start, []) && a.view == a.disk && HeaderCount(a.disk[start]) == 0
    requires forall b :: 0 <= b < |a.disk| ==> a.refs[b] == 0 && !a.locks[b]
    ensures Agrees(a, S.Start(a.disk, n)) && OnDisk(a, S.Start(a.disk, n), start, a.disk)
  {
    var s := S.Start(a.disk, n);
    assert CommitWrites(a.disk, a.disk, start, [])[..0] == [];
    NoWrites(a.disk);
  }

  lemma AllFree(a: Abs, start: nat)
    requires Sized(a) && Recoverable(a.disk, start) && a.view == a.disk
    requires forall b :: 0 <= b < |a.disk| ==> a.refs[b] == 0 && !a.locks[b]
    ensures LogOk(a, start, HeaderBlocks(a.disk[start])) && Free(a, start, HeaderBlocks(a.disk[start]))
    ensures |Busy(a.refs)| + 1 < NBUF
  {
    assert Busy(a.refs) == {};
  }

  lemma RecoverRests(a: Abs, start: nat)
    requires Sized(a) && Recoverable(a.disk, start) && a.view == a.disk
    requires forall b :: 0 <= b < |a.disk| ==> a.refs[b] == 0 && !a.locks[b]
    ensures var r := RecoverAll(a, start); r.view == r.disk && forall b :: 0 <= b < |a.disk| ==> r.refs[b] == 0 && !r.locks[b]
  {
    hide GetWord, EncodeHeader;
    var bs := HeaderBlocks(a.disk[start]);
    InstallAllFrame(a, start, bs, 0);
    InstallAllDisk(a, start, bs, 0);
    forall b | 0 <= b < |a.disk|
      ensures InstallAll(a, start, bs, 0).refs[b] == 0
    {
      InstallAllRefs(a, start, bs, 0, b);
    }
  }

  /** Any interleaving of steps: each comes out as it does on the map, and whenever power fails recovery gives
      the version in force at that moment. */
  method Run(l: Log, ops: seq<S.Op>, c0: Clients, ghost s: S.State, ghost h0: History)
    returns (c: Clients, outs: seq<S.Out>, ghost h: History)
    requires Implements(l, c0, s, h0)
    modifies l, l.bc
    ensures outs == S.Steps(s, l.start, ops).1 && Implements(l, c, S.Steps(s, l.start, ops).0, h) && Later(h0, h)
  {
    hide Implements, S.Step, S.Steps, S.Inv;
    ImplementsInv(l, c0, s, h0);
    c, outs, h := c0, [], h0;
    S.StepsNone(s, l.start);
    for o := 0 to |ops|
      invariant outs == S.Steps(s, l.start, ops[..o]).1 && Implements(l, c, S.Steps(s, l.start, ops[..o]).0, h) && Later(h0, h)
    {
      ghost var t := S.Steps(s, l.start, ops[..o]).0;
      var out;
      S.StepsMore(s, l.start, ops[..o], ops[o]);
      assert ops[..o + 1] == ops[..o] + [ops[o]];
      c, out, h := Do(l, ops[o], c, t, h);
      outs := outs + [out];
    }
    assert ops[..|ops|] == ops;
  }

  lemma ImplementsInv(l: Log, c: Clients, s: S.State, h: History)
    requires Implements(l, c, s, h)
    ensures S.Inv(s, l.start)
  {
  }

  /** A crash now, in the middle of whatever is going on: recovery gives the last version. */
  lemma CrashNow(l: Log, c: Clients, s: S.State, h: History)
    requires Implements(l, c, s, h)
    ensures Recoverable(l.bc.disk, l.start) && SameHome(Recovered(l.bc.disk, l.start), s.saves[|s.saves| - 1], l.start)
  {
    hide Recoverable, Recovered, Running, S.Inv;
    var ws := l.bc.writes[h.base..];
    assert InForce(h.marks, |s.saves| - 1, |ws|);
    assert Lands(h.boot, ws, |ws|, l.start, s.saves[|s.saves| - 1]);
    assert ws[..|ws|] == ws;
  }

  /** From any disk large enough: three operations within their limits leave a commit without a buffer. */
  method OverfullRun(image: Disk, start: nat) returns (l: Log, outs: seq<S.Out>)
    requires Recoverable(image, start) && S.Behind(start, LOGBLOCKS) <= |image|
    ensures outs != [] && outs[|outs| - 1] == S.Panic
  {
    hide Implements, S.Steps, S.Start, S.Inv, Recovered, Recoverable;
    var c;
    ghost var h;
    l, c, h := Boot(image, start, 3);
    S.OverfullPanics(Recovered(image, start), start);
    c, outs, h := Run(l, S.Overfull(start), c, S.Start(Recovered(image, start), 3), h);
  }
}
