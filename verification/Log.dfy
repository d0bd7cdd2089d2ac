/** log.c over the buffer cache: the same reads and writes in the same order. */
module Log {
  import opened Common
  import opened Blocks
  import opened LogSpec
  import opened Lru
  import opened Bio
  import opened LogProto

  /** Log area alike in cache and on disk, as it always is: every write to it goes through. */
  predicate LogClean(a: Abs, start: nat) {
    |a.view| == |a.disk| && forall b :: 0 <= b < |a.disk| && InLog(start, b) ==> a.view[b] == a.disk[b]
  }

  /** The log of blocks `bs` makes sense on this disk. */
  predicate LogOk(a: Abs, start: nat, bs: seq<nat>) {
    && Sized(a) && Layout(a.disk, start) && |a.disk| <= 0x8000_0000
    && Loggable(bs, start, |a.disk|) && LogClean(a, start)
  }

  /** bread finds a buffer and would not wait, for any block of the log and any logged block. */
  predicate Free(a: Abs, start: nat, bs: seq<nat>)
    requires LogOk(a, start, bs)
  {
    && |Busy(a.refs)| < NBUF
    && (forall b :: 0 <= b < |a.disk| && InLog(start, b) ==> !a.locks[b])
    && (forall i :: 0 <= i < |bs| ==> !a.locks[bs[i]])
  }

  /** Every logged block is in the cache and stays there. */
  predicate Pinned(a: Abs, start: nat, bs: seq<nat>)
    requires LogOk(a, start, bs)
  {
    forall i :: 0 <= i < |bs| ==> a.refs[bs[i]] > 0
  }

  /** The loop of write_log. */
  function LogAll(a: Abs, start: nat, bs: seq<nat>): (r: Abs)
    requires Sized(a) && Layout(a.disk, start) && Loggable(bs, start, |a.disk|)
    ensures Sized(r) && |r.disk| == |a.disk|
    decreases |bs|
  {
    if bs == [] then a
    else var k := |bs| - 1; Copy(LogAll(a, start, bs[..k]), bs[k], start + 1 + k, 0)
  }

  /** The loop of install_trans. */
  function InstallAll(a: Abs, start: nat, bs: seq<nat>, drop: nat): (r: Abs)
    requires Sized(a) && Layout(a.disk, start) && Loggable(bs, start, |a.disk|)
    ensures Sized(r) && |r.disk| == |a.disk|
    decreases |bs|
  {
    if bs == [] then a
    else var k := |bs| - 1; Copy(InstallAll(a, start, bs[..k], drop), start + 1 + k, bs[k], drop)
  }

  lemma {:induction false} LogAllFrame(a: Abs, start: nat, bs: seq<nat>)
    requires Sized(a) && Layout(a.disk, start) && Loggable(bs, start, |a.disk|)
    ensures LogAll(a, start, bs).refs == a.refs && LogAll(a, start, bs).locks == a.locks
    decreases |bs|
  {
    if bs != [] { LogAllFrame(a, start, bs[..|bs| - 1]); }
  }

  lemma LogBlockWritesSnoc(v: Disk, start: nat, bs: seq<nat>)
    requires Loggable(bs, start, |v|) && start + LOGBLOCKS < |v| && bs != []
    ensures var k := |bs| - 1;
            && Fits(LogBlockWrites(v, start, bs[..k]), |v|)
            && LogBlockWrites(v, start, bs) == LogBlockWrites(v, start, bs[..k]) + [Write(start + 1 + k, v[bs[k]])]
  {
  }

  lemma {:induction false} LogAllDisk(a: Abs, start: nat, bs: seq<nat>)
    requires Sized(a) && Layout(a.disk, start) && Loggable(bs, start, |a.disk|)
    ensures var ws := LogBlockWrites(a.view, start, bs);
            && Fits(ws, |a.disk|)
            && LogAll(a, start, bs).disk == Apply(a.disk, ws) && LogAll(a, start, bs).view == Apply(a.view, ws)
    decreases |bs|
  {
    if bs != [] {
      var k := |bs| - 1;
      var ws := LogBlockWrites(a.view, start, bs[..k]);
      LogAllDisk(a, start, bs[..k]);
      ApplyMiss(a.view, ws, bs[k]);
      LogBlockWritesSnoc(a.view, start, bs);
      ApplySnoc(a.disk, ws, Write(start + 1 + k, a.view[bs[k]]));
      ApplySnoc(a.view, ws, Write(start + 1 + k, a.view[bs[k]]));
    }
  }

  lemma {:induction false} LogAllWrites(a: Abs, start: nat, bs: seq<nat>)
    requires Sized(a) && Layout(a.disk, start) && Loggable(bs, start, |a.disk|)
    ensures LogAll(a, start, bs).writes == a.writes + LogBlockWrites(a.view, start, bs)
    decreases |bs|
  {
    if bs != [] {
      var k := |bs| - 1;
      LogAllWrites(a, start, bs[..k]);
      LogAllDisk(a, start, bs[..k]);
      ApplyMiss(a.view, LogBlockWrites(a.view, start, bs[..k]), bs[k]);
      LogBlockWritesSnoc(a.view, start, bs);
    }
  }

  lemma {:induction false} InstallAllFrame(a: Abs, start: nat, bs: seq<nat>, drop: nat)
    requires Sized(a) && Layout(a.disk, start) && Loggable(bs, start, |a.disk|)
    ensures InstallAll(a, start, bs, drop).locks == a.locks
    decreases |bs|
  {
    if bs != [] { InstallAllFrame(a, start, bs[..|bs| - 1], drop); }
  }

  lemma InstallWritesSnoc(d: Disk, start: nat, bs: seq<nat>)
    requires Layout(d, start) && Loggable(bs, start, |d|) && bs != []
    ensures var k := |bs| - 1;
            && Fits(InstallWrites(d, start, bs[..k]), |d|)
            && InstallWrites(d, start, bs) == InstallWrites(d, start, bs[..k]) + [Write(bs[k], d[start + 1 + k])]
  {
  }

  lemma {:induction false} InstallAllDisk(a: Abs, start: nat, bs: seq<nat>, drop: nat)
    requires Sized(a) && Layout(a.disk, start) && Loggable(bs, start, |a.disk|) && LogClean(a, start)
    ensures var ws := InstallWrites(a.disk, start, bs); var r := InstallAll(a, start, bs, drop);
            && Fits(ws, |a.disk|) && r.disk == Apply(a.disk, ws) && r.view == Apply(a.view, ws)
    decreases |bs|
  {
    if bs != [] {
      var k := |bs| - 1;
      InstallAllDisk(a, start, bs[..k], drop);
      InstallStep(a, start, bs, drop);
    }
  }

  lemma {:induction false} InstallStep(a: Abs, start: nat, bs: seq<nat>, drop: nat)
    requires Sized(a) && Layout(a.disk, start) && Loggable(bs, start, |a.disk|) && LogClean(a, start) && bs != []
    requires var ws := InstallWrites(a.disk, start, bs[..|bs| - 1]); var c := InstallAll(a, start, bs[..|bs| - 1], drop);
             && Fits(ws, |a.disk|) && c.disk == Apply(a.disk, ws) && c.view == Apply(a.view, ws)
    ensures var ws := InstallWrites(a.disk, start, bs); var r := InstallAll(a, start, bs, drop);
            && Fits(ws, |a.disk|) && r.disk == Apply(a.disk, ws) && r.view == Apply(a.view, ws)
  {
    hide Apply;
    var k := |bs| - 1;
    var ws := InstallWrites(a.disk, start, bs[..k]);
    ApplyMiss(a.view, ws, start + 1 + k);
    InstallWritesSnoc(a.disk, start, bs);
    ApplySnoc(a.disk, ws, Write(bs[k], a.disk[start + 1 + k]));
    ApplySnoc(a.view, ws, Write(bs[k], a.disk[start + 1 + k]));
  }

  lemma {:induction false} InstallAllWrites(a: Abs, start: nat, bs: seq<nat>, drop: nat)
    requires Sized(a) && Layout(a.disk, start) && Loggable(bs, start, |a.disk|) && LogClean(a, start)
    ensures InstallAll(a, start, bs, drop).writes == a.writes + InstallWrites(a.disk, start, bs)
    decreases |bs|
  {
    hide GetWord, Apply;
    if bs != [] {
      var k := |bs| - 1;
      InstallAllWrites(a, start, bs[..k], drop);
      InstallAllDisk(a, start, bs[..k], drop);
      ApplyMiss(a.view, InstallWrites(a.disk, start, bs[..k]), start + 1 + k);
      InstallWritesSnoc(a.disk, start, bs);
    }
  }

  /** Each block of `bs` has lost its pin, every other block keeps its references. */
  lemma {:induction false} InstallAllRefs(a: Abs, start: nat, bs: seq<nat>, drop: nat, b: nat)
    requires Sized(a) && Layout(a.disk, start) && Loggable(bs, start, |a.disk|)
    requires (drop == 0 || LogSpec.Distinct(bs)) && b < |a.disk|
    ensures InstallAll(a, start, bs, drop).refs[b] == a.refs[b] - if b in bs then drop else 0
    decreases |bs|
  {
    if bs != [] {
      var k := |bs| - 1;
      InstallAllRefs(a, start, bs[..k], drop, b);
      assert bs == bs[..k] + [bs[k]];
    }
  }

  lemma {:induction false} InstallAllBusy(a: Abs, start: nat, bs: seq<nat>, drop: nat)
    requires Sized(a) && Layout(a.disk, start) && Loggable(bs, start, |a.disk|)
    requires drop == 0 || LogSpec.Distinct(bs)
    ensures |Busy(InstallAll(a, start, bs, drop).refs)| <= |Busy(a.refs)|
  {
    var r := InstallAll(a, start, bs, drop);
    forall b | b in Busy(r.refs) ensures b in Busy(a.refs) { InstallAllRefs(a, start, bs, drop, b); }
    SubsetSize(Busy(r.refs), Busy(a.refs));
  }

  /** install_trans can take its k-th turn, from what the first k turns made. */
  lemma {:induction false} InstallTurn(a: Abs, c: Abs, start: nat, bs: seq<nat>, recovering: bool, k: nat)
    requires Sized(a) && Layout(a.disk, start) && Loggable(bs, start, |a.disk|)
    requires recovering || LogSpec.Distinct(bs)
    requires k < |bs| && !a.locks[start + 1 + k] && !a.locks[bs[k]] && |Busy(a.refs)| < NBUF
    requires if recovering then |Busy(a.refs)| + 1 < NBUF else a.refs[bs[k]] > 0
    requires c == InstallAll(a, start, bs[..k], if recovering then 0 else 1)
    ensures CanCopy(c, start + 1 + k, bs[k], false, !recovering) && |Busy(c.refs)| < NBUF
  {
    hide Copy;
    var drop := if recovering then 0 else 1;
    InstallAllFrame(a, start, bs[..k], drop);
    InstallAllRefs(a, start, bs[..k], drop, bs[k]);
    InstallAllBusy(a, start, bs[..k], drop);
  }

  /** write_head. */
  function Head(a: Abs, start: nat, bs: seq<nat>): (r: Abs)
    requires Sized(a) && Layout(a.disk, start) && Loggable(bs, start, |a.disk|)
    ensures Sized(r) && |r.disk| == |a.disk|
  {
    var w := HeaderWrite(a.disk, start, bs);
    Abs(a.disk[start := w.data], a.view[start := w.data], a.refs, a.locks, a.writes + [w])
  }

  /** commit(), when something was logged. */
  function CommitAll(a: Abs, start: nat, bs: seq<nat>): (r: Abs)
    requires Sized(a) && Layout(a.disk, start) && Loggable(bs, start, |a.disk|)
    ensures Sized(r) && |r.disk| == |a.disk|
  {
    Head(InstallAll(Logged(a, start, bs), start, bs, 1), start, [])
  }

  /** recover_from_log(). */
  function RecoverAll(a: Abs, start: nat): (r: Abs)
    requires Sized(a) && Recoverable(a.disk, start)
    ensures Sized(r) && |r.disk| == |a.disk|
  {
    Head(InstallAll(a, start, HeaderBlocks(a.disk[start]), 0), start, [])
  }

  lemma {:induction false} LogAllClean(a: Abs, start: nat, bs: seq<nat>)
    requires Sized(a) && Layout(a.disk, start) && Loggable(bs, start, |a.disk|) && LogClean(a, start)
    ensures LogClean(LogAll(a, start, bs), start)
    ensures LogAll(a, start, bs).disk[start] == a.disk[start]
    decreases |bs|
  {
    if bs != [] { LogAllClean(a, start, bs[..|bs| - 1]); }
  }

  lemma {:induction false} InstallAllClean(a: Abs, start: nat, bs: seq<nat>, drop: nat)
    requires Sized(a) && Layout(a.disk, start) && Loggable(bs, start, |a.disk|) && LogClean(a, start)
    ensures LogClean(InstallAll(a, start, bs, drop), start)
    ensures InstallAll(a, start, bs, drop).disk[start] == a.disk[start]
    decreases |bs|
  {
    if bs != [] { InstallAllClean(a, start, bs[..|bs| - 1], drop); }
  }

  /** The state in which commit()'s install_trans starts. */
  function Logged(a: Abs, start: nat, bs: seq<nat>): (r: Abs)
    requires Sized(a) && Layout(a.disk, start) && Loggable(bs, start, |a.disk|)
    ensures Sized(r) && |r.disk| == |a.disk|
  {
    Head(LogAll(a, start, bs), start, bs)
  }

  lemma {:induction false} LoggedWrites(a: Abs, start: nat, bs: seq<nat>)
    requires Sized(a) && LogClean(a, start) && ReadyToCommit(a.disk, a.view, start, bs)
    ensures var r := Logged(a, start, bs);
            && LogClean(r, start) && r.refs == a.refs && r.locks == a.locks
            && r.disk == AfterLog(a.disk, a.view, start, bs)[start := EncodeHeader(a.disk[start], bs)]
            && r.writes == a.writes + LogBlockWrites(a.view, start, bs) + [HeaderWrite(a.disk, start, bs)]
  {
    hide Copy, EncodeHeader;
    LogAllDisk(a, start, bs);
    LogAllWrites(a, start, bs);
    LogAllClean(a, start, bs);
    LogAllFrame(a, start, bs);
  }

  lemma {:induction false} InstalledWrites(a: Abs, start: nat, bs: seq<nat>)
    requires Sized(a) && Layout(a.disk, start) && Loggable(bs, start, |a.disk|) && LogClean(a, start)
    ensures Fits(InstallWrites(a.disk, start, bs), |a.disk|)
    ensures var r := Head(InstallAll(a, start, bs, 1), start, []);
            var w := Write(start, EncodeHeader(a.disk[start], []));
            && r.writes == a.writes + InstallWrites(a.disk, start, bs) + [w]
            && r.disk == Apply(a.disk, InstallWrites(a.disk, start, bs))[start := w.data]
  {
    hide Copy, EncodeHeader;
    InstallAllDisk(a, start, bs, 1);
    InstallAllWrites(a, start, bs, 1);
    InstallAllClean(a, start, bs, 1);
  }

  /** commit() issues exactly CommitWrites. */
  lemma {:induction false} CommitAllWrites(a: Abs, start: nat, bs: seq<nat>)
    requires Sized(a) && LogClean(a, start) && ReadyToCommit(a.disk, a.view, start, bs) && bs != []
    ensures CommitAll(a, start, bs).writes == a.writes + CommitWrites(a.disk, a.view, start, bs)
    ensures CommitAll(a, start, bs).disk == Apply(a.disk, CommitWrites(a.disk, a.view, start, bs))
  {
    hide LogAll, InstallAll, CommitWrites, EncodeHeader, GetWord, PutWord, AfterLog, Apply, InstallWrites, LogBlockWrites;
    var a2 := Logged(a, start, bs);
    LoggedWrites(a, start, bs);
    InstalledWrites(a2, start, bs);
    CommitPhases(a.disk, a.view, start, bs, a2.disk, InstallWrites(a2.disk, start, bs));
  }

  /** After commit() cache and disk agree on the home blocks as the transaction left them. */
  lemma {:induction false} CommitAllHome(a: Abs, start: nat, bs: seq<nat>)
    requires LogOk(a, start, bs) && ReadyToCommit(a.disk, a.view, start, bs) && bs != []
    ensures var r := CommitAll(a, start, bs);
            HeaderCount(r.disk[start]) == 0 && SameHome(r.disk, a.view, start) && SameHome(r.view, a.view, start)
  {
    hide Copy, CommitWrites, GetWord, PutWord, EncodeHeader;
    CommitInstalls(a.disk, a.view, start, bs);
    CommitAllWrites(a, start, bs);
    var a2 := Logged(a, start, bs);
    LogAllDisk(a, start, bs);
    LoggedWrites(a, start, bs);
    AfterLogContents(a.disk, a.view, start, bs);
    InstallAllDisk(a2, start, bs, 1);
    forall b | 0 <= b < |a.disk| && !InLog(start, b) ensures CommitAll(a, start, bs).view[b] == a.view[b] {
      ApplyMiss(a.view, LogBlockWrites(a.view, start, bs), b);
      InstallSame(a2, a.view, start, bs, b);
    }
  }

  /** Installing blocks whose log copy is what the cache has changes nothing in the cache. */
  lemma {:induction false} InstallSame(a: Abs, v: Disk, start: nat, bs: seq<nat>, b: nat)
    requires Layout(a.disk, start) && Loggable(bs, start, |a.disk|) && LogSpec.Distinct(bs)
    requires |a.view| == |a.disk| == |v| && b < |v| && a.view[b] == v[b]
    requires forall i :: 0 <= i < |bs| ==> a.disk[start + 1 + i] == v[bs[i]]
    ensures Fits(InstallWrites(a.disk, start, bs), |a.view|)
    ensures Apply(a.view, InstallWrites(a.disk, start, bs))[b] == v[b]
  {
    var ws := InstallWrites(a.disk, start, bs);
    if b in bs {
      var i :| 0 <= i < |bs| && bs[i] == b;
      ApplyHit(a.view, ws, i);
    } else {
      ApplyMiss(a.view, ws, b);
    }
  }

  /** recover_from_log() issues exactly RecoveryWrites. */
  lemma {:induction false} RecoverAllWrites(a: Abs, start: nat)
    requires Sized(a) && LogClean(a, start) && Recoverable(a.disk, start)
    ensures RecoverAll(a, start).writes == a.writes + RecoveryWrites(a.disk, start)
    ensures RecoverAll(a, start).disk == Recovered(a.disk, start)
  {
    hide Copy, EncodeHeader;
    var bs := HeaderBlocks(a.disk[start]);
    InstallAllDisk(a, start, bs, 0);
    InstallAllWrites(a, start, bs, 0);
    InstallAllClean(a, start, bs, 0);
    ApplySnoc(a.disk, InstallWrites(a.disk, start, bs), HeaderWrite(a.disk, start, []));
  }

  /** After write_log, write_head and install_trans the log still makes sense and is still free. */
  lemma {:induction false} PhasesOk(a: Abs, start: nat, bs: seq<nat>)
    requires LogOk(a, start, bs) && Free(a, start, bs) && ReadyToCommit(a.disk, a.view, start, bs)
    ensures LogOk(LogAll(a, start, bs), start, bs) && Free(LogAll(a, start, bs), start, bs)
    ensures LogOk(Logged(a, start, bs), start, bs) && Free(Logged(a, start, bs), start, bs)
    ensures Pinned(a, start, bs) ==> Pinned(Logged(a, start, bs), start, bs)
  {
    hide Copy, EncodeHeader;
    LogAllClean(a, start, bs);
    LogAllFrame(a, start, bs);
    LoggedWrites(a, start, bs);
  }

  lemma FreeFewer(a: Abs, start: nat, bs: seq<nat>)
    requires LogOk(a, start, bs) && Free(a, start, bs)
    ensures LogOk(a, start, []) && Free(a, start, [])
  {
  }

  lemma FreeHead(a: Abs, start: nat, bs: seq<nat>)
    requires LogOk(a, start, bs) && Free(a, start, bs)
    ensures Sized(a) && start < |a.disk| && |Busy(a.refs)| < NBUF && !a.locks[start]
  {
  }

  lemma HeadOk(a: Abs, start: nat, bs: seq<nat>)
    requires LogOk(a, start, bs) && Free(a, start, bs)
    ensures LogOk(Head(a, start, bs), start, bs) && Free(Head(a, start, bs), start, bs)
  {
  }

  lemma {:induction false} InstallOk(a: Abs, start: nat, bs: seq<nat>, drop: nat)
    requires LogOk(a, start, bs) && Free(a, start, bs) && (drop == 0 || LogSpec.Distinct(bs))
    ensures LogOk(InstallAll(a, start, bs, drop), start, []) && Free(InstallAll(a, start, bs, drop), start, [])
  {
    hide Copy;
    InstallAllClean(a, start, bs, drop);
    InstallAllFrame(a, start, bs, drop);
    InstallAllBusy(a, start, bs, drop);
  }

  class Log {
    const bc: Bcache
    const start: nat
    var block: seq<nat>      // lh.block
    var n: nat                // lh.n
    var outstanding: int
    var committing: bool
    ghost var phase: Phase        // how far end_op's commit is
    ghost var procs: seq<Proc>    // what every process does with the log

    ghost predicate Valid()
      reads this, bc
    {
      bc.Valid() && |block| == LOGBLOCKS && n <= LOGBLOCKS && LogOk(bc.A(), start, block[..n])
    }

    constructor (bc: Bcache, start: nat, ghost nproc: nat)
      requires bc.Valid() && Layout(bc.disk, start) && |bc.disk| <= 0x8000_0000
      requires forall b :: 0 <= b < |bc.disk| && InLog(start, b) ==> bc.view[b] == bc.disk[b]
      ensures Valid() && this.bc == bc && this.start == start && n == 0 && P() == Boot(nproc) && ProtocolOk()
    {
      BootInv(nproc);
      this.bc, this.start := bc, start;
      block := seq(LOGBLOCKS, i => 0);
      n, outstanding, committing, phase, procs := 0, 0, false, Idle, seq(nproc, i => Out);
    }

    /** Copy the in-memory header over the first words of a header block. */
    method FillHeader(data: Block) returns (hb: Block)
      requires n <= LOGBLOCKS <= |block| && forall i :: 0 <= i < n ==> block[i] < 0x8000_0000
      ensures hb == EncodeHeader(data, block[..n])
    {
      hide GetWord, PutWord;
      hb := PutWord(data, 0, n);
      var i := 0;
      while i < n
        invariant 0 <= i <= n
        invariant hb == EncodeBlocks(PutWord(data, 0, n), block[..i])
      {
        assert block[..i + 1][..i] == block[..i];
        hb := PutWord(hb, 1 + i, block[i]);
        i := i + 1;
      }
    }

    /** The header in memory goes to the disk, through the buffer that holds the header block. */
    method PutHead(b: nat)
      requires Valid() && b < NBUF && bc.Owns(b, start)
      modifies bc`view, bc`disk, bc`writes, bc`buf
      ensures bc.Valid() && bc.Owns(b, start) && bc.A() == Head(old(bc.A()), start, block[..n])
    {
      hide IsCycle, Represents, GetWord, PutWord, EncodeHeader;
      HoldsAt(bc.buf, bc.home, bc.A(), start);
      HomeAt(bc.buf, bc.home, bc.A(), start);
      BufferHome(bc.buf, bc.home, bc.A(), b);
      var hb := FillHeader(bc.buf[b].data);
      bc.SetData(b, start, hb);
      bc.Bwrite(b, start);
    }

    /** The end of commit(): the log is empty, in memory and on the disk. */
    method Erase(b: nat)
      requires Valid() && b < NBUF && bc.Owns(b, start) && ProtocolOk() && phase.Writing?
      modifies this`n, this`phase, bc`view, bc`disk, bc`writes, bc`buf
      ensures bc.Valid() && n == 0 && bc.A() == Head(old(bc.A()), start, [])
      ensures ProtocolOk() && P() == Step(old(P()), LogProto.Commit)
    {
      hide IsCycle, Represents, GetWord, PutWord, EncodeHeader, Inv, HeaderWrite;
      StepInv(P(), LogProto.Commit);
      n := 0;
      assert block[..n] == [];
      PutHead(b);
      phase := Written;
    }

    /** The header in memory goes to the disk, unless bread panics. */
    method WriteHead() returns (ok: bool)
      requires Valid() && !bc.locks[start]
      modifies bc
      ensures bc.Valid() && Keeps(old(bc.home), old(bc.refs), bc.home)
      ensures ok <==> |Busy(old(bc.refs))| < NBUF || old(bc.refs[start]) > 0
      ensures bc.A() == if ok then Head(old(bc.A()), start, block[..n]) else old(bc.A())
    {
      hide IsCycle, Represents, GetWord, PutWord, EncodeHeader;
      HoldsAt(bc.buf, bc.home, bc.A(), start);
      var r, _ := bc.Bread(ROOTDEV, start);
      ok := r.Some?;
      if !ok {
        return;
      }
      PutHead(r.value);
      bc.Brelse(r.value, start);
    }

    /** Every logged block goes from the cache to its place in the log. */
    method WriteLog()
      requires Valid() && Free(bc.A(), start, block[..n]) && Pinned(bc.A(), start, block[..n])
      modifies bc
      ensures bc.Valid() && bc.A() == LogAll(old(bc.A()), start, block[..n])
    {
      hide Copy, Represents, IsCycle;
      ghost var a, bs := bc.A(), block[..n];
      var tail := 0;
      while tail < n
        invariant 0 <= tail <= n
        invariant bc.Valid() && bc.A() == LogAll(a, start, bs[..tail])
      {
        LogAllFrame(a, start, bs[..tail]);
        assert bs[..tail + 1][..tail] == bs[..tail];
        var _ := bc.CopyBlock(block[tail], start + tail + 1, true, false);
        tail := tail + 1;
      }
      assert bs[..n] == bs;
    }

    /** Every block in the log goes to the place it belongs. After a commit the pins go;
        in recovery they were never pinned, and one more buffer must be free. */
    method InstallTrans(recovering: bool)
      requires Valid() && Free(bc.A(), start, block[..n])
      requires if recovering then |Busy(bc.refs)| + 1 < NBUF
               else Pinned(bc.A(), start, block[..n]) && LogSpec.Distinct(block[..n])
      modifies bc
      ensures bc.Valid() && bc.A() == InstallAll(old(bc.A()), start, block[..n], if recovering then 0 else 1)
    {
      hide Copy, CanCopy, Represents, IsCycle;
      ghost var a, bs, drop := bc.A(), block[..n], if recovering then 0 else 1;
      var tail := 0;
      while tail < n
        invariant 0 <= tail <= n
        invariant bc.Valid() && bc.A() == InstallAll(a, start, bs[..tail], drop)
      {
        InstallTurn(a, bc.A(), start, bs, recovering, tail);
        assert bs[..tail + 1][..tail] == bs[..tail];
        var _ := bc.CopyBlock(start + 1 + tail, block[tail], false, !recovering);
        tail := tail + 1;
      }
      assert bs[..n] == bs;
    }

    /** Between transactions and while one is being built: the on-disk log is empty, and every block
        that is not logged is as on disk, so nothing is lost when its buffer is recycled. */
    ghost predicate Synced()
      requires Valid()
      reads this, bc
    {
      && HeaderCount(bc.disk[start]) == 0
      && forall b :: 0 <= b < |bc.disk| && b !in block[..n] ==> bc.view[b] == bc.disk[b]
    }

    /** Write, commit, install and erase what is logged. Power may fail between any two of the
        device writes: whichever prefix of them was issued, recovery ends with the home blocks
        of before or with those of the whole transaction, and the header write decides. */
    method Commit()
      requires Valid() && Free(bc.A(), start, block[..n]) && Pinned(bc.A(), start, block[..n])
      requires Synced() && LogSpec.Distinct(block[..n]) && committing && phase.Writing?
      modifies this`n, this`phase, bc
      ensures Valid() && Synced() && SameHome(bc.disk, old(bc.view), start) && SameHome(bc.view, old(bc.view), start)
      ensures P() == Step(old(P()), LogProto.Commit)
      ensures bc.A() == if old(n) == 0 then old(bc.A()) else CommitAll(old(bc.A()), start, block[..old(n)])
      ensures bc.writes == old(bc.writes) + CommitWrites(old(bc.disk), old(bc.view), start, block[..old(n)])
      ensures AllOrNothing(old(bc.disk), old(bc.view), start, block[..old(n)])
    {
      hide IsCycle, Represents, CommitWrites, AllOrNothing, CommitAll;
      ghost var a, bs := bc.A(), block[..n];
      if n > 0 {
        Transact();
        CommitAllWrites(a, start, bs);
        CommitAllHome(a, start, bs);
        assert block[..n] == [];
      }
      phase := Written;
      CommitAllOrNothing(a.disk, a.view, start, bs);
    }

    /** Body of commit(). */
    method Transact()
      requires Valid() && Free(bc.A(), start, block[..n]) && Pinned(bc.A(), start, block[..n])
      requires ReadyToCommit(bc.disk, bc.view, start, block[..n])
      modifies this`n, bc
      ensures Valid() && n == 0 && bc.A() == CommitAll(old(bc.A()), start, block[..old(n)])
    {
      hide IsCycle, Represents, Copy, EncodeHeader, InstallAll, LogAll, LogOk, Free, Pinned;
      ghost var a, bs := bc.A(), block[..n];
      PhasesOk(a, start, bs);
      WriteLog();
      FreeHead(bc.A(), start, bs);
      var _ := WriteHead();
      InstallOk(bc.A(), start, bs, 1);
      InstallTrans(false);
      n := 0;
      assert block[..n] == [];
      HeadOk(bc.A(), start, []);
      FreeHead(bc.A(), start, []);
      var _ := WriteHead();
    }

    /** The header that the disk has becomes the one in memory. */
    method ReadHead()
      requires Valid() && Free(bc.A(), start, block[..n]) && Recoverable(bc.disk, start)
      modifies this`n, this`block, bc
      ensures Valid() && bc.A() == old(bc.A())
      ensures block[..n] == HeaderBlocks(bc.disk[start])
    {
      hide IsCycle, Represents, GetWord;
      var r, _ := bc.Bread(ROOTDEV, start);
      var lh := bc.buf[r.value].data;
      n := GetWord(lh, 0);
      var i := 0;
      while i < n
        invariant 0 <= i <= n && |block| == LOGBLOCKS
        invariant forall j :: 0 <= j < i ==> block[j] == GetWord(lh, 1 + j)
        modifies this`block
      {
        block := block[i := GetWord(lh, 1 + i)];
        i := i + 1;
      }
      bc.Brelse(r.value, start);
      assert bc.refs == old(bc.refs) && bc.locks == old(bc.locks);
      assert block[..n] == HeaderBlocks(bc.disk[start]);
    }

    /** Redo a committed transaction, if the header names one, then erase the log. Power may fail
        between any two of the device writes: starting over ends with the same home blocks. */
    method RecoverFromLog()
      requires Valid() && n == 0 && Recoverable(bc.disk, start)
      requires Free(bc.A(), start, HeaderBlocks(bc.disk[start])) && |Busy(bc.refs)| + 1 < NBUF
      modifies this`n, this`block, bc
      ensures Valid() && n == 0 && bc.A() == RecoverAll(old(bc.A()), start)
      ensures bc.disk == Recovered(old(bc.disk), start) && HeaderCount(bc.disk[start]) == 0
      ensures bc.writes == old(bc.writes) + RecoveryWrites(old(bc.disk), start)
      ensures Restartable(old(bc.disk), start)
    {
      hide IsCycle, Represents, Copy, EncodeHeader, InstallAll, Free, RecoveryWrites, Restartable;
      ghost var a := bc.A();
      FreeFewer(a, start, HeaderBlocks(bc.disk[start]));
      ReadHead();
      ghost var bs := block[..n];
      InstallOk(a, start, bs, 0);
      InstallTrans(true);
      n := 0;
      assert block[..n] == [];
      HeadOk(bc.A(), start, []);
      FreeHead(bc.A(), start, []);
      var _ := WriteHead();
      RecoverAllWrites(a, start);
      RecoveryClears(a.disk, start);
      RecoveryRestartable(a.disk, start);
    }

    /** The protocol state of this log. */
    ghost function P(): State
      requires n <= |block|
      reads this
    {
      State(block[..n], outstanding, phase, procs, false)
    }

    ghost predicate ProtocolOk()
      requires n <= |block|
      reads this
    {
      committing == P().Committing() && Inv(P())
    }

    /** One pass of begin_op's loop: start an operation, or sleep and try again later. */
    method BeginOp(p: nat) returns (started: bool)
      requires n <= |block| && ProtocolOk() && Enabled(P(), LogProto.BeginOp(p))
      modifies this`outstanding, this`procs
      ensures ProtocolOk() && P() == Step(old(P()), LogProto.BeginOp(p))
      ensures started <==> !old(committing) && old(n) + (old(outstanding) + 1) * MAXOPBLOCKS <= LOGBLOCKS
      ensures procs == old(procs)[p := if started then In(0) else Asleep]
      ensures outstanding == old(outstanding) + if started then 1 else 0
    {
      BeginInv(P(), p);
      if committing {
        procs := procs[p := Asleep];
        started := false;
      } else if n + (outstanding + 1) * MAXOPBLOCKS > LOGBLOCKS {
        procs := procs[p := Asleep];
        started := false;
      } else {
        outstanding := outstanding + 1;
        procs := procs[p := In(0)];
        started := true;
      }
    }

    /** Record a modified block, held in buffer b; the first time, pin it. Neither panic fires. */
    method LogWrite(p: nat, b: nat, blockno: nat)
      requires Valid() && ProtocolOk() && Enabled(P(), LogProto.LogWrite(p, blockno))
      requires b < NBUF && bc.Owns(b, blockno) && blockno < |bc.disk| && !InLog(start, blockno)
      modifies this`n, this`block, this`procs, bc`refs, bc`locks, bc`buf
      ensures Valid() && ProtocolOk() && P() == Step(old(P()), LogProto.LogWrite(p, blockno))
      ensures block[..n] == (if blockno in old(block[..n]) then old(block[..n]) else old(block[..n]) + [blockno])
      ensures bc.Owns(b, blockno)
      ensures bc.A() == old(bc.A()).(refs := if blockno in old(block[..n]) then old(bc.refs) else Bump(old(bc.refs), blockno, 1))
    {
      hide IsCycle, Represents, Inv;
      LogWriteInv(P(), p, blockno);
      LogWriteRoom(P(), p, blockno);
      ghost var s, bs := P(), block[..n];
      var i := FindLogged(blockno);
      block := block[i := blockno];
      if i == n {
        bc.Bpin(b, blockno);
        n := n + 1;
        procs := procs[p := In(procs[p].added + 1)];
        assert block[..n] == bs + [blockno];
      } else {
        assert block[..n] == bs;
      }
    }

    /** A change to a held block, and its log_write. */
    method Change(p: nat, b: nat, blockno: nat, data: Block)
      requires Valid() && ProtocolOk() && Enabled(P(), LogProto.LogWrite(p, blockno))
      requires b < NBUF && bc.Owns(b, blockno) && blockno < |bc.disk| && !InLog(start, blockno)
      modifies this`n, this`block, this`procs, bc`refs, bc`locks, bc`buf, bc`view
      ensures Valid() && ProtocolOk() && P() == Step(old(P()), LogProto.LogWrite(p, blockno))
      ensures bc.A() == old(bc.A()).(view := old(bc.view)[blockno := data],
                                     refs := if blockno in old(block[..n]) then old(bc.refs) else Bump(old(bc.refs), blockno, 1))
    {
      hide IsCycle, Represents, Inv, Step, Enabled;
      bc.SetData(b, blockno, data);
      LogWrite(p, b, blockno);
    }

    /** The absorption scan: the block's place in the log, or n. */
    method FindLogged(blockno: nat) returns (i: nat)
      requires n <= |block|
      ensures i <= n && (i < n ==> block[i] == blockno) && (i == n ==> blockno !in block[..n])
    {
      i := 0;
      while i < n
        invariant 0 <= i <= n && blockno !in block[..i]
      {
        if block[i] == blockno {
          return;
        }
        i := i + 1;
      }
    }

    /** Leave the operation; the last one out must commit. The panic does not fire. */
    method EndOp(p: nat) returns (doCommit: bool)
      requires n <= |block| && ProtocolOk() && Enabled(P(), LogProto.EndOp(p))
      modifies this`outstanding, this`committing, this`phase, this`procs
      ensures ProtocolOk() && P() == Step(old(P()), LogProto.EndOp(p))
      ensures doCommit <==> old(outstanding) == 1
      ensures committing == doCommit && outstanding == old(outstanding) - 1 && |procs| == |old(procs)| && procs[p] == Out
      ensures forall q :: 0 <= q < |procs| && q != p ==>
        procs[q] == if !doCommit && old(procs)[q] == Asleep then Out else old(procs)[q]
    {
      EndInv(P(), p);
      ReserveBounds(procs, p);
      outstanding := outstanding - 1;
      procs := procs[p := Out];
      assert !committing;
      doCommit := false;
      if outstanding == 0 {
        doCommit := true;
        committing, phase := true, Writing;
      } else {
        procs := Wake(procs);
      }
    }

    /** After commit() returns: let the waiters in. */
    method CommitDone()
      requires n <= |block| && ProtocolOk() && phase.Written?
      modifies this`committing, this`phase, this`procs
      ensures ProtocolOk() && P() == Step(old(P()), LogProto.CommitDone)
      ensures !committing && |procs| == |old(procs)|
      ensures forall q :: 0 <= q < |procs| ==> procs[q] == if old(procs)[q] == Asleep then Out else old(procs)[q]
    {
      StepInv(P(), LogProto.CommitDone);
      committing, phase := false, Idle;
      procs := Wake(procs);
    }

    /** The typical use: bread, modify, log_write, brelse. The change is in the cache, not on disk,
        and the block stays pinned until the commit. */
    method Modify(p: nat, blockno: nat, data: Block)
      requires Valid() && ProtocolOk() && Synced() && Pinned(bc.A(), start, block[..n])
      requires Enabled(P(), LogProto.LogWrite(p, blockno))
      requires blockno < |bc.disk| && !InLog(start, blockno) && !bc.locks[blockno]
      requires |Busy(bc.refs)| < NBUF
      modifies this`n, this`block, this`procs, bc
      ensures Valid() && ProtocolOk() && Synced() && Pinned(bc.A(), start, block[..n])
      ensures P() == Step(old(P()), LogProto.LogWrite(p, blockno))
      ensures bc.view == old(bc.view)[blockno := data] && bc.disk == old(bc.disk)
      ensures bc.writes == old(bc.writes) && bc.locks == old(bc.locks)
      ensures bc.refs == if blockno in old(block[..n]) then old(bc.refs) else Bump(old(bc.refs), blockno, 1)
    {
      hide IsCycle, Represents, Inv, Pinned, Bump;
      ghost var a, bs := bc.A(), block[..n];
      HoldsAt(bc.buf, bc.home, a, blockno);
      PinnedAt(a, start, bs, blockno);
      var r, _ := bc.Bread(ROOTDEV, blockno);
      bc.SetData(r.value, blockno, data);
      LogWrite(p, r.value, blockno);
      BumpDown(a.refs, blockno);
      bc.Brelse(r.value, blockno);
      assert bc.locks == old(bc.locks);
      PinnedMore(a, bc.A(), start, bs, block[..n], blockno);
    }
  }

  lemma BumpDown(s: seq<int>, x: nat)
    requires x < |s|
    ensures Bump(Bump(s, x, 1), x, -1) == s && Bump(Bump(Bump(s, x, 1), x, 1), x, -1) == Bump(s, x, 1)
    ensures Bump(Bump(s, x, 1), x, 1)[x] == s[x] + 2 && Bump(s, x, 1)[x] == s[x] + 1
  {
  }

  lemma PinnedAt(a: Abs, start: nat, bs: seq<nat>, b: nat)
    requires LogOk(a, start, bs) && Pinned(a, start, bs) && b < |a.disk|
    ensures b in bs ==> a.refs[b] > 0
  {
  }

  lemma PinnedMore(a: Abs, b: Abs, start: nat, bs: seq<nat>, cs: seq<nat>, blockno: nat)
    requires LogOk(a, start, bs) && Pinned(a, start, bs) && LogOk(b, start, cs) && |a.disk| == |b.disk| && blockno < |a.disk|
    requires cs == if blockno in bs then bs else bs + [blockno]
    requires b.refs == if blockno in bs then a.refs else Bump(a.refs, blockno, 1)
    requires a.refs[blockno] >= 0
    ensures Pinned(b, start, cs)
  {
  }
}
