/** File writes over the log: what the disk holds when power fails in the middle of one. */
module Journal {
  import opened Common
  import opened Blocks
  import opened LogSpec
  import opened Lru
  import P = LogProto
  import S = StorageSpec
  import opened FsSpec
  import opened Fs
  import opened File
  import opened FsDisk
  import opened Log
  import opened Storage
  import opened Versions

  // ---- a file write ----

  /** The image on a disk that has the boot block, the super block and the log of base. */
  ghost function DiskOf(base: Disk, s: Image, sb: Super): (d: Disk)
    requires Fitted(s, sb) && |base| == |s.data|
    ensures |d| == |base| && HoldsImage(d, s, sb) && forall x :: 0 <= x < sb.inodestart && x < |d| ==> d[x] == base[x]
  {
    seq(|base|, (x: nat) requires x < |base| => if x < sb.inodestart then base[x] else BlockOf(s, sb, x))
  }

  lemma HomeOf(s: Image, sb: Super, x: nat)
    requires Fitted(s, sb) && sb.inodestart <= x < |s.data|
    ensures !InLog(sb.start, x)
  {
    hide Shape;
  }

  lemma LoggedHome(s: Image, sb: Super, t: Image, logged: set<nat>, x: nat)
    requires Fitted(s, sb) && Logs(RawOf(s), RawOf(t), {}, logged, sb.inodestart, sb.bmapstart) && x in logged
    ensures x < |s.data| && !InLog(sb.start, x)
  {
    hide Fitted, BitsAt, InodeAt, InLog;
    MetaRange(s, sb);
    assert OfFs(RawOf(s), x, sb.inodestart, sb.bmapstart);
    if b :| 0 <= b < |s.bitmap| && x == BitsAt(b, sb.bmapstart) {
      BitsRange(s, sb, b);
    } else if i :| 0 <= i < |s.inodes| && x == InodeAt(i, sb.inodestart) {
      InodeRange(s, sb, i);
    }
    HomeOf(s, sb, x);
  }

  lemma SameSizes(s: Image, t: Image, logged: set<nat>, sb: Super)
    requires Logs(RawOf(s), RawOf(t), {}, logged, sb.inodestart, sb.bmapstart)
    ensures t.meta == s.meta && |t.bitmap| == |s.bitmap| && |t.data| == |s.data| && |t.inodes| == |s.inodes|
  {
  }

  /** Every image a write goes through has its place on the disk if the first one has. */
  lemma {:induction false} AllFitted(ss: seq<Image>, ws: seq<nat>, ends: seq<set<nat>>, s: Image, i: nat, off: nat,
                                     src: seq<Byte>, sb: Super, j: nat)
    requires i < |s.inodes| && s.inodes[i].size <= MAXFILE * BSIZE && Fitted(s, sb)
    requires WriteTrace(ss, ws, ends, s, i, off, src, sb.inodestart, sb.bmapstart) && j < |ss|
    ensures Fitted(ss[j], sb) && |ss[j].data| == |s.data|
  {
    hide Logs, WrittenSoFar;
    if j > 0 {
      AllFitted(ss, ws, ends, s, i, off, src, sb, j - 1);
      SameSizes(ss[j - 1], ss[j], ends[j - 1], sb);
      InvShape(ss[j]);
    }
  }

  lemma InvShape(s: Image)
    requires Inv(s)
    ensures Shape(s)
  {
  }

  /** A write of src at offset off of file i of image s: the images after its transactions, the bytes written by
      then, and the blocks each of them logged. */
  datatype Writing = Writing(s: Image, i: nat, off: nat, src: seq<Byte>, sb: Super,
                             ss: seq<Image>, ws: seq<nat>, ends: seq<set<nat>>)

  ghost predicate Proper(w: Writing) {
    && w.i < |w.s.inodes| && w.s.inodes[w.i].size <= MAXFILE * BSIZE && Fitted(w.s, w.sb)
    && WriteTrace(w.ss, w.ws, w.ends, w.s, w.i, w.off, w.src, w.sb.inodestart, w.sb.bmapstart)
  }

  lemma ProperFits(w: Writing)
    requires Proper(w)
    ensures w.i < |w.s.inodes| && w.s.inodes[w.i].size <= MAXFILE * BSIZE && Fitted(w.s, w.sb)
    ensures |w.ss| == |w.ws| == |w.ends| + 1 && w.ss[0] == w.s
    ensures forall j :: 0 <= j < |w.ss| ==> Fitted(w.ss[j], w.sb) && |w.ss[j].data| == |w.s.data|
    ensures forall j :: 0 <= j < |w.ss| ==> WrittenSoFar(w.s, w.ss[j], w.i, w.off, w.src, w.ws[j], w.ws[j])
  {
    hide Logs, WrittenSoFar, Fitted;
    forall j | 0 <= j < |w.ss|
      ensures Fitted(w.ss[j], w.sb) && |w.ss[j].data| == |w.s.data|
    {
      AllFitted(w.ss, w.ws, w.ends, w.s, w.i, w.off, w.src, w.sb, j);
    }
  }

  /** which[i] of the write's transactions are among the first i operations to end; the others change nothing. */
  ghost predicate Counted(w: Writing, which: seq<nat>) {
    && which != [] && which[0] == 0 && (forall i :: 0 <= i < |which| ==> which[i] < |w.ss|)
    && forall i, k :: 0 <= i <= k < |which| ==> which[i] <= which[k]
  }

  /** What is there after so many operations, on the disk base. */
  ghost function VersionsOf(w: Writing, base: Disk, which: seq<nat>): (ds: seq<Disk>)
    requires Proper(w) && Counted(w, which) && |base| == |w.s.data|
    ensures |ds| == |which| && w.ss != []
  {
    ProperFits(w);
    seq(|which|, (i: nat) requires i < |which| => DiskOf(base, w.ss[which[i]], w.sb))
  }

  lemma FirstVersion(w: Writing, base: Disk, which: seq<nat>)
    requires Proper(w) && Counted(w, which) && HoldsImage(base, w.s, w.sb)
    ensures |base| == |w.s.data| <= 0x8000_0000 && Layout(base, w.sb.start) && VersionsOf(w, base, which)[0] == base
  {
    hide Fitted, HoldsImage, DiskOf, WriteTrace, WrittenSoFar;
    ProperFits(w);
    DiskSame(base, w.s, w.sb);
  }

  lemma DiskSame(base: Disk, s: Image, sb: Super)
    requires Fitted(s, sb) && HoldsImage(base, s, sb)
    ensures |base| == |s.data| <= 0x8000_0000 && Layout(base, sb.start) && DiskOf(base, s, sb) == base
  {
    hide BlockOf, Shape;
    ShapeSizes(s);
  }

  /** The map of blocks after some steps of n processes, from base at rest. */
  ghost function MapAfter(base: Disk, n: nat, start: nat, ops: seq<S.Op>): (t: S.State)
    requires Layout(base, start)
  {
    S.StartInv(base, n, start);
    S.Steps(S.Start(base, n), start, ops).0
  }

  /** The steps carry the write: whatever else they do, and however often they change a block, whenever an
      operation has ended and nobody is inside another the contents are those after the write's transactions
      among them. */
  ghost predicate Carries(w: Writing, base: Disk, n: nat, ops: seq<S.Op>, which: seq<nat>)
    requires Proper(w) && |base| == |w.s.data| && Layout(base, w.sb.start)
  {
    S.StartInv(base, n, w.sb.start);
    Counted(w, which) && EndsIn(S.Start(base, n), w.sb.start, ops, VersionsOf(w, base, which))
  }

  /** Alike in front of the inodes, but for the log. */
  predicate SameFront(d: Disk, e: Disk, sb: Super) {
    |d| == |e| && forall x :: 0 <= x < sb.inodestart && x < |d| && !InLog(sb.start, x) ==> d[x] == e[x]
  }

  /** After a crash the disk has the image that was there after i operations, in which the first bytes of the
      write are written and nothing else has changed, and in front of the inodes what base has. i is neither
      beyond the operations that have ended nor before those that had ended when the system was last settled. */
  ghost predicate LeftWith(w: Writing, base: Disk, n: nat, ops: seq<S.Op>, which: seq<nat>, d: Disk, i: nat)
    requires Proper(w) && |base| == |w.s.data| && Layout(base, w.sb.start) && Counted(w, which)
  {
    ProperFits(w);
    S.StartInv(base, n, w.sb.start);
    && i < |which| && i <= EndedIn(S.Start(base, n), w.sb.start, ops) && AtLeast(S.Start(base, n), w.sb.start, ops, i)
    && var j := which[i];
       && Recoverable(d, w.sb.start) && HoldsImage(Recovered(d, w.sb.start), w.ss[j], w.sb)
       && SameFront(Recovered(d, w.sb.start), base, w.sb)
       && WrittenSoFar(w.s, w.ss[j], w.i, w.off, w.src, w.ws[j], w.ws[j])
  }

  lemma SameImage(d: Disk, base: Disk, s: Image, sb: Super)
    requires Fitted(s, sb) && |base| == |s.data| && SameHome(d, DiskOf(base, s, sb), sb.start)
    ensures HoldsImage(d, s, sb) && SameFront(d, base, sb)
  {
    hide DiskOf, BlockOf, Shape;
    var e := DiskOf(base, s, sb);
    forall x | sb.inodestart <= x < |d|
      ensures d[x] == BlockOf(s, sb, x)
    {
      assert e[x] == BlockOf(s, sb, x);
    }
  }

  /** Power fails after any steps that carry a file write, of any processes, in its transactions, between them
      or in a commit. */
  lemma CrashInWrite(l: Log, c: Clients, h: History, w: Writing, base: Disk, n: nat, ops: seq<S.Op>, which: seq<nat>)
    returns (i: nat)
    requires Proper(w) && HoldsImage(base, w.s, w.sb) && l.start == w.sb.start
    requires Layout(base, w.sb.start) && Carries(w, base, n, ops, which)
    requires Implements(l, c, MapAfter(base, n, w.sb.start, ops), h)
    ensures LeftWith(w, base, n, ops, which, l.bc.disk, i)
  {
    hide Implements, S.Steps, S.Inv, Recovered, Recoverable, Fitted, WrittenSoFar, Logs, EndsIn, AtLeast, EndedIn,
         WriteTrace, HoldsImage, Proper, SameHome;
    ProperFits(w);
    FirstVersion(w, base, which);
    S.StartInv(base, n, w.sb.start);
    HomeRefl(base, w.sb.start);
    i := CrashAnywhere(l, c, h, S.Start(base, n), ops, VersionsOf(w, base, which));
    SameImage(Recovered(l.bc.disk, l.start), base, w.ss[which[i]], w.sb);
  }

  lemma HomeRefl(d: Disk, start: nat)
    ensures SameHome(d, d, start)
  {
  }

  /** The log and the cache themselves, from boot on a disk left in any state, and cut short after any steps. */
  method WriteCutShort(image: Disk, nproc: nat, ops: seq<S.Op>, start: nat, ghost w: Writing, ghost which: seq<nat>)
    returns (l: Log, ghost i: nat)
    requires Proper(w) && start == w.sb.start && Recoverable(image, start) && HoldsImage(Recovered(image, start), w.s, w.sb)
    ensures Carries(w, Recovered(image, start), nproc, ops, which) ==>
      LeftWith(w, Recovered(image, start), nproc, ops, which, l.bc.disk, i)
  {
    hide Implements, S.Steps, S.Start, Recovered, Recoverable, Fitted, HoldsImage, LeftWith, EndsIn, WriteTrace;
    ghost var base := Recovered(image, start);
    DiskSame(base, w.s, w.sb);
    S.StartInv(base, nproc, start);
    var c;
    ghost var h;
    l, c, h := Boot(image, start, nproc);
    var outs;
    c, outs, h := Run(l, ops, c, S.Start(base, nproc), h);
    i := 0;
    if Carries(w, base, nproc, ops, which) {
      i := CrashInWrite(l, c, h, w, base, nproc, ops, which);
    }
  }

  /** filewrite, and a crash in the steps that carry it. */
  method WriteThenCrash(fs: FileSystem, f: OpenFile, n: int, src: seq<Byte>, good: nat, torn: nat,
                        image: Disk, nproc: nat, ops: seq<S.Op>, sb: Super, ghost which: seq<nat>)
    returns (ret: int, l: Log, ghost w: Writing, ghost i: nat)
    requires fs.Ready(f.ip) && fs.View(f.ip) == fs.Base() && |src| == (if n < 0 then 0 else n) && good >= |src|
    requires sb.inodestart == fs.inodestart && sb.bmapstart == fs.bmapstart && Fitted(fs.Base(), sb)
    requires Recoverable(image, sb.start) && HoldsImage(Recovered(image, sb.start), fs.Base(), sb)
    modifies fs, f.ip, f`off
    ensures Proper(w) && w.s == old(fs.Base()) && w.i == f.ip.inum && w.off == old(f.off) && w.src == src && w.sb == sb
    ensures w.ss[|w.ss| - 1] == fs.Base() && old(fs.ended) + w.ends == fs.ended
    ensures f.writable ==> ret == if w.ws[|w.ws| - 1] == n then n else -1
    ensures Carries(w, Recovered(image, sb.start), nproc, ops, which) ==>
      LeftWith(w, Recovered(image, sb.start), nproc, ops, which, l.bc.disk, i)
  {
    hide WriteTrace, WrittenSoFar, Fitted, HoldsImage, Recovered, Recoverable, LeftWith, EndsIn, FsSpec.Inv;
    ghost var s, off, ended := fs.Base(), f.off, fs.ended;
    ghost var k, m, ss, ws;
    ret, k, m, ss, ws := FileWrite(fs, f, n, src, good, torn);
    w := Writing(s, f.ip.inum, off, src, sb, ss, ws, fs.ended[|ended|..]);
    ProperFits(w);
    l, i := WriteCutShort(image, nproc, ops, sb.start, w, which);
  }

  // ---- steps that carry a write ----

  /** Hold block b, change it, log it, let it go. */
  function PutOps(ops: seq<S.Op>, b: nat, data: Block): (r: seq<S.Op>) {
    ops + [S.Get(0, b)] + [S.Lock(0, b)] + [S.Put(0, b, data)] + [S.Unlock(0, b)] + [S.Unref(0, b)]
  }

  /** Begin, and give the blocks bs the contents they have in d. */
  function Puts(bs: seq<nat>, d: Disk): (ops: seq<S.Op>)
    requires forall i :: 0 <= i < |bs| ==> bs[i] < |d|
  {
    if bs == [] then [S.Begin(0)] else var k := |bs| - 1; PutOps(Puts(bs[..k], d), bs[k], d[bs[k]])
  }

  /** cur with the blocks bs as in d. */
  function Over(cur: Disk, bs: seq<nat>, d: Disk): (r: Disk)
    requires |d| == |cur| && forall i :: 0 <= i < |bs| ==> bs[i] < |d|
    ensures |r| == |cur|
  {
    if bs == [] then cur else var k := |bs| - 1; Over(cur, bs[..k], d)[bs[k] := d[bs[k]]]
  }

  lemma {:induction false} OverAt(cur: Disk, bs: seq<nat>, d: Disk, x: nat)
    requires |d| == |cur| && (forall i :: 0 <= i < |bs| ==> bs[i] < |d|) && x < |cur|
    ensures Over(cur, bs, d)[x] == if x in bs then d[x] else cur[x]
  {
    if bs != [] {
      var k := |bs| - 1;
      OverAt(cur, bs[..k], d, x);
      assert bs == bs[..k] + [bs[k]];
    }
  }

  /** One process, nothing held. */
  function Alone(log: P.State, cur: Disk, saves: seq<Disk>): (s: S.State) {
    S.State(log, cur, saves, seq(|cur|, b => {}), seq(|cur|, b => None), 0, 0, false)
  }

  /** Between transactions. */
  function Rest(cur: Disk, saves: seq<Disk>): (s: S.State) {
    Alone(P.State([], 0, P.Idle, [P.Out], false), cur, saves)
  }

  /** Within one, after the blocks bs. */
  function Within(cur: Disk, saves: seq<Disk>, bs: seq<nat>): (s: S.State) {
    Alone(P.State(bs, 1, P.Idle, [P.In(|bs|)], false), cur, saves)
  }

  /** At its end. */
  function Ending(cur: Disk, saves: seq<Disk>, bs: seq<nat>): (s: S.State) {
    Alone(P.State(bs, 0, P.Writing, [P.Out], false), cur, saves)
  }

  predicate Writable(bs: seq<nat>, start: nat, size: nat) {
    && |bs| <= MAXOPBLOCKS && LogSpec.Distinct(bs) && forall i :: 0 <= i < |bs| ==> bs[i] < size && !InLog(start, bs[i])
  }

  lemma PutSteps(cur: Disk, saves: seq<Disk>, bs: seq<nat>, start: nat, b: nat, data: Block)
    requires Writable(bs + [b], start, |cur|) && saves != [] && b < |cur|
    requires S.Inv(Within(cur, saves, bs), start)
    ensures var s := Within(cur, saves, bs);
            var t := s.(users := s.users[b := {0}]);
            var u := t.(holder := s.holder[b := Some(0)]);
            var v := u.(log := P.State(bs + [b], 1, P.Idle, [P.In(|bs| + 1)], false), cur := cur[b := data]);
            var w := v.(holder := s.holder);
            && S.Step(s, start, S.Get(0, b)).0 == t && S.Step(t, start, S.Lock(0, b)).0 == u
            && S.Step(u, start, S.Put(0, b, data)).0 == v && S.Step(v, start, S.Unlock(0, b)).0 == w
            && S.Step(w, start, S.Unref(0, b)).0 == Within(cur[b := data], saves, bs + [b])
  {
    hide S.InUse, S.Inv;
    var s := Within(cur, saves, bs);
    S.LoggedInUse(s, start);
    assert (bs + [b])[|bs|] == b;
    assert b !in bs by {
      NotBefore(bs, b);
    }
    assert {} + {0} == {0} && {0} - {0} == {};
    assert s.users[b := {0}][b := {}] == s.users && s.holder[b := Some(0)][b := None] == s.holder;
    assert [P.In(|bs|)][0 := P.In(|bs| + 1)] == [P.In(|bs| + 1)];
  }

  lemma NotBefore(bs: seq<nat>, b: nat)
    requires LogSpec.Distinct(bs + [b])
    ensures b !in bs
  {
    forall i | 0 <= i < |bs|
      ensures bs[i] != b
    {
      assert (bs + [b])[i] != (bs + [b])[|bs|];
    }
  }

  lemma {:induction false} PutsReach(cur: Disk, saves: seq<Disk>, bs: seq<nat>, d: Disk, start: nat)
    requires |d| == |cur| && Writable(bs, start, |cur|) && S.Inv(Rest(cur, saves), start)
    ensures S.Steps(Rest(cur, saves), start, Puts(bs, d)).0 == Within(Over(cur, bs, d), saves, bs)
  {
    hide S.Step, S.Inv;
    var s := Rest(cur, saves);
    if bs == [] {
      S.StepsMore(s, start, [], S.Begin(0));
      S.StepsNone(s, start);
      BeginStep(cur, saves, start);
      assert [] + [S.Begin(0)] == [S.Begin(0)];
    } else {
      var k := |bs| - 1;
      var front, b := bs[..k], bs[k];
      assert bs == front + [b];
      Shorter(front, b, start, |cur|);
      PutsReach(cur, saves, front, d, start);
      SavesThere(s, start);
      PutSteps(Over(cur, front, d), saves, front, start, b, d[b]);
      S.StepsFive(s, start, Puts(front, d), S.Get(0, b), S.Lock(0, b), S.Put(0, b, d[b]), S.Unlock(0, b), S.Unref(0, b));
    }
  }

  lemma SavesThere(s: S.State, start: nat)
    requires S.Inv(s, start)
    ensures s.saves != [] && S.Sized(s)
  {
  }

  lemma Shorter(bs: seq<nat>, b: nat, start: nat, size: nat)
    requires Writable(bs + [b], start, size)
    ensures Writable(bs, start, size)
  {
    var cs := bs + [b];
    assert forall i :: 0 <= i < |bs| ==> bs[i] == cs[i];
  }

  lemma BeginStep(cur: Disk, saves: seq<Disk>, start: nat)
    ensures S.Step(Rest(cur, saves), start, S.Begin(0)).0 == Within(cur, saves, [])
  {
    assert [P.Out][0 := P.In(0)] == [P.In(0)];
  }

  lemma EndStep(cur: Disk, saves: seq<Disk>, bs: seq<nat>, start: nat)
    ensures S.Step(Within(cur, saves, bs), start, S.End(0)) == (Ending(cur, saves, bs), S.Done)
  {
    assert [P.In(|bs|)][0 := P.Out] == [P.Out];
  }

  lemma WokeNone()
    ensures P.Wake([P.Out]) == [P.Out]
  {
  }

  /** The commit ends, and leaves the system at rest. */
  lemma CommitRests(cur: Disk, saves: seq<Disk>, bs: seq<nat>, start: nat) returns (ops: seq<S.Op>, saves': seq<Disk>)
    requires S.Inv(Ending(cur, saves, bs), start) && |bs| <= MAXOPBLOCKS
    ensures forall o :: 0 <= o < |ops| ==> ops[o].Commit?
    ensures S.Steps(Ending(cur, saves, bs), start, ops).0 == Rest(cur, saves')
  {
    hide S.Inv, S.Steps;
    WokeNone();
    ops := CommitEnds(Ending(cur, saves, bs), start);
    var t := S.Steps(Ending(cur, saves, bs), start, ops).0;
    saves' := t.saves;
    RestIs(t, start);
  }

  lemma RestIs(t: S.State, start: nat)
    requires S.Inv(t, start) && S.Sized(t) && Lone(t) && !t.stuck
    requires t.log.phase.Idle? && t.log.procs == [P.Out] && t.log.outstanding == 0
    ensures t == Rest(t.cur, t.saves)
  {
    hide S.Orderly, S.Held;
    forall b | 0 <= b < |t.users|
      ensures t.users[b] == {} && t.holder[b] == None
    {
      assert b !in S.Refs(t) && b !in S.Locks(t);
    }
    assert t.log.blocks == [];
  }

  lemma {:induction false} StepsConcat(s: S.State, start: nat, a: seq<S.Op>, b: seq<S.Op>)
    requires S.Inv(s, start)
    ensures S.Steps(s, start, a + b).0 == S.Steps(S.Steps(s, start, a).0, start, b).0
    decreases |b|
  {
    hide S.Step, S.Inv, S.Steps;
    if b == [] {
      assert a + b == a;
      S.StepsNone(S.Steps(s, start, a).0, start);
    } else {
      var k := |b| - 1;
      StepsConcat(s, start, a, b[..k]);
      assert a + b == a + b[..k] + [b[k]] && b == b[..k] + [b[k]];
      S.StepsMore(s, start, a + b[..k], b[k]);
      S.StepsMore(S.Steps(s, start, a).0, start, b[..k], b[k]);
    }
  }

  lemma {:induction false} PutsNoEnd(bs: seq<nat>, d: Disk)
    requires forall i :: 0 <= i < |bs| ==> bs[i] < |d|
    ensures forall o :: 0 <= o < |Puts(bs, d)| ==> !Puts(bs, d)[o].End?
  {
    if bs != [] {
      PutsNoEnd(bs[..|bs| - 1], d);
    }
  }

  /** After ops the system rests, m operations have ended, and the contents are the m-th version. */
  ghost predicate Reached(d: Disk, start: nat, ops: seq<S.Op>, ds: seq<Disk>, m: nat, saves: seq<Disk>) {
    && S.Inv(Rest(d, [d]), start) && m < |ds|
    && EndsIn(Rest(d, [d]), start, ops, ds) && EndedIn(Rest(d, [d]), start, ops) == m
    && S.Steps(Rest(d, [d]), start, ops).0 == Rest(ds[m], saves)
  }

  ghost predicate Link(d: Disk, bs: seq<nat>, e: Disk, start: nat) {
    |e| == |d| && Writable(bs, start, |d|) && Over(d, bs, e) == e
  }

  /** One transaction more. */
  lemma OneMore(d: Disk, start: nat, ops: seq<S.Op>, ds: seq<Disk>, m: nat, saves: seq<Disk>, bs: seq<nat>)
    returns (ops': seq<S.Op>, saves': seq<Disk>)
    requires Reached(d, start, ops, ds, m, saves) && m + 1 < |ds| && Link(ds[m], bs, ds[m + 1], start)
    ensures Reached(d, start, ops', ds, m + 1, saves')
  {
    hide S.Inv, S.Steps, S.Step, EndsIn, EndedIn, Puts, Rest, Within, Over;
    var s := Rest(d, [d]);
    var a := Puts(bs, ds[m + 1]);
    StepsConcat(s, start, ops, a);
    PutsReach(ds[m], saves, bs, ds[m + 1], start);
    PutsNoEnd(bs, ds[m + 1]);
    EndsInMore(s, start, ops, a, ds);
    var b := ops + a + [S.End(0)];
    S.StepsMore(s, start, ops + a, S.End(0));
    EndStep(ds[m + 1], saves, bs, start);
    EndedMore(s, start, ops + a, S.End(0));
    HomeRefl(ds[m + 1], start);
    EndsInFront(s, start, ops + a, S.End(0), ds);
    var c;
    c, saves' := CommitRests(ds[m + 1], saves, bs, start);
    ops' := b + c;
    StepsConcat(s, start, b, c);
    EndsInMore(s, start, b, c, ds);
  }

  /** bs lists the set. */
  ghost predicate Lists(bs: seq<nat>, blocks: set<nat>) {
    LogSpec.Distinct(bs) && forall x :: x in blocks <==> x in bs
  }

  lemma ListedIn(bs: seq<nat>, blocks: set<nat>, x: nat)
    requires Lists(bs, blocks)
    ensures x in bs <==> x in blocks
    ensures |bs| == |blocks|
  {
    DistinctSize(bs);
    assert blocks == set i | 0 <= i < |bs| :: bs[i];
  }

  lemma ListsDistinct(bs: seq<nat>, blocks: set<nat>)
    requires Lists(bs, blocks)
    ensures LogSpec.Distinct(bs)
  {
  }

  /** Every set of logged blocks has an order. */
  lemma {:induction false} InOrder(blocks: set<nat>) returns (bs: seq<nat>)
    ensures Lists(bs, blocks)
    decreases blocks
  {
    if blocks == {} {
      return [];
    }
    var b :| b in blocks;
    var front := InOrder(blocks - {b});
    bs := front + [b];
    assert forall i :: 0 <= i < |front| ==> front[i] in blocks - {b};
  }

  /** One transaction of the file system changes the blocks it logged. */
  lemma OneLink(base: Disk, s: Image, t: Image, sb: Super, logged: set<nat>, bs: seq<nat>)
    requires Fitted(s, sb) && Fitted(t, sb) && Logs(RawOf(s), RawOf(t), {}, logged, sb.inodestart, sb.bmapstart)
    requires Lists(bs, logged) && |logged| <= MAXOPBLOCKS && |base| == |s.data| == |t.data|
    ensures Link(DiskOf(base, s, sb), bs, DiskOf(base, t, sb), sb.start)
  {
    hide Logs, BlockOf, Fitted, Lists;
    var d, e := DiskOf(base, s, sb), DiskOf(base, t, sb);
    SameSizes(s, t, logged, sb);
    ListedIn(bs, logged, 0);
    forall i | 0 <= i < |bs|
      ensures bs[i] < |d| && !InLog(sb.start, bs[i])
    {
      ListedIn(bs, logged, bs[i]);
      LoggedHome(s, sb, t, logged, bs[i]);
    }
    ListsDistinct(bs, logged);
    forall x | 0 <= x < |d|
      ensures Over(d, bs, e)[x] == e[x]
    {
      OverAt(d, bs, e, x);
      ListedIn(bs, logged, x);
      if x !in logged && x >= sb.inodestart {
        UnloggedSame(s, t, sb, logged, x);
      }
    }
  }

  lemma RestInv(d: Disk, start: nat)
    requires Layout(d, start)
    ensures S.Inv(Rest(d, [d]), start) && S.Start(d, 1) == Rest(d, [d])
  {
    assert S.Start(d, 1) == Rest(d, [d]);
    S.StartInv(d, 1, start);
  }

  /** Every operation is one of the write's. */
  ghost function InTurn(w: Writing): (which: seq<nat>)
    requires Proper(w)
    ensures Counted(w, which) && |which| == |w.ss| && forall i :: 0 <= i < |which| ==> which[i] == i
  {
    ProperFits(w);
    seq(|w.ss|, i => i)
  }

  /** The first m transactions of a write. */
  lemma {:induction false} Transactions(w: Writing, base: Disk, m: nat) returns (ops: seq<S.Op>, saves: seq<Disk>)
    requires Proper(w) && HoldsImage(base, w.s, w.sb) && m <= |w.ends|
    ensures |base| == |w.s.data| && Reached(base, w.sb.start, ops, VersionsOf(w, base, InTurn(w)), m, saves)
  {
    hide WriteTrace, Fitted, S.Inv, S.Steps, EndsIn, EndedIn, Rest, Logs, Link, DiskOf, Lists, HoldsImage;
    ProperFits(w);
    FirstVersion(w, base, InTurn(w));
    var ds := VersionsOf(w, base, InTurn(w));
    if m == 0 {
      RestInv(base, w.sb.start);
      S.StepsNone(Rest(base, [base]), w.sb.start);
      NoneEnded(Rest(base, [base]), w.sb.start, ds);
      return [], [base];
    }
    ops, saves := Transactions(w, base, m - 1);
    LinkOf(w, m - 1);
    var bs := InOrder(w.ends[m - 1]);
    OneLink(base, w.ss[m - 1], w.ss[m], w.sb, w.ends[m - 1], bs);
    ops, saves := OneMore(base, w.sb.start, ops, ds, m - 1, saves, bs);
  }

  lemma LinkOf(w: Writing, j: nat)
    requires Proper(w) && j < |w.ends|
    ensures j + 1 < |w.ss| && |w.ends[j]| <= MAXOPBLOCKS
    ensures Logs(RawOf(w.ss[j]), RawOf(w.ss[j + 1]), {}, w.ends[j], w.sb.inodestart, w.sb.bmapstart)
  {
    hide Logs, WrittenSoFar, Fitted;
  }

  /** Every write has steps that carry it, to its end and until it is saved. */
  lemma WriteRuns(w: Writing, base: Disk) returns (ops: seq<S.Op>)
    requires Proper(w) && HoldsImage(base, w.s, w.sb)
    ensures |base| == |w.s.data| && Layout(base, w.sb.start) && S.Inv(S.Start(base, 1), w.sb.start)
    ensures Carries(w, base, 1, ops, InTurn(w)) && EndedIn(S.Start(base, 1), w.sb.start, ops) == |w.ends|
    ensures Settled(MapAfter(base, 1, w.sb.start, ops))
  {
    hide Proper, S.Inv, S.Steps, EndsIn, EndedIn, HoldsImage;
    var saves;
    FirstVersion(w, base, InTurn(w));
    ops, saves := Transactions(w, base, |w.ends|);
    RestInv(base, w.sb.start);
  }
}
