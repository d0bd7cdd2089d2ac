/** The redo log as a list of device writes, and what survives a crash between any two of them. */
module LogSpec {
  import opened Common
  import opened Blocks

  const LOGBLOCKS := 3 * MAXOPBLOCKS

  type Disk = seq<Block>

  /** One virtio_disk_rw(b, 1): the unit of atomicity. */
  datatype Write = Write(blockno: nat, data: Block)

  predicate Fits(ws: seq<Write>, size: nat) {
    forall i :: 0 <= i < |ws| ==> ws[i].blockno < size
  }

  /** The disk after the writes `ws`, first one first. */
  function Apply(d: Disk, ws: seq<Write>): (r: Disk)
    requires Fits(ws, |d|)
    ensures |r| == |d|
    decreases |ws|
  {
    if ws == [] then d
    else
      var k := |ws| - 1;
      Apply(d, ws[..k])[ws[k].blockno := ws[k].data]
  }

  lemma {:induction false} ApplyConcat(d: Disk, xs: seq<Write>, ys: seq<Write>)
    requires Fits(xs, |d|) && Fits(ys, |d|)
    ensures Fits(xs + ys, |d|)
    ensures Apply(d, xs + ys) == Apply(Apply(d, xs), ys)
    decreases |ys|
  {
    if ys == [] {
      assert xs + ys == xs;
    } else {
      var k := |ys| - 1;
      assert (xs + ys)[..|xs + ys| - 1] == xs + ys[..k];
      ApplyConcat(d, xs, ys[..k]);
    }
  }

  /** Where the log lives: header block `start`, then LOGBLOCKS log blocks. */
  predicate InLog(start: nat, b: nat) {
    start <= b <= start + LOGBLOCKS
  }

  predicate Layout(d: Disk, start: nat) {
    start + LOGBLOCKS < |d|
  }

  /** Block numbers that may be logged: real blocks outside the log area. */
  predicate Loggable(bs: seq<nat>, start: nat, size: nat) {
    && |bs| <= LOGBLOCKS
    && size <= 0x8000_0000
    && forall i :: 0 <= i < |bs| ==> bs[i] < size && !InLog(start, bs[i])
  }

  predicate Distinct(bs: seq<nat>) {
    forall i, j :: 0 <= i < j < |bs| ==> bs[i] != bs[j]
  }

  // ---- the header block: n, block[0], block[1], ... ----

  function EncodeBlocks(hb: Block, bs: seq<nat>): (r: Block)
    requires |bs| < WORDS
    requires forall i :: 0 <= i < |bs| ==> bs[i] < 0x1_0000_0000
    ensures GetWord(r, 0) == GetWord(hb, 0)
    ensures forall i :: 0 <= i < |bs| ==> GetWord(r, 1 + i) == bs[i]
    decreases |bs|
  {
    if bs == [] then hb
    else
      var k := |bs| - 1;
      var front := EncodeBlocks(hb, bs[..k]);
      PutGetWords(front, 1 + k, bs[k]);
      PutWord(front, 1 + k, bs[k])
  }

  /** The header block after write_head: only the words in use are overwritten. */
  function EncodeHeader(hb: Block, bs: seq<nat>): (r: Block)
    requires |bs| < WORDS
    requires forall i :: 0 <= i < |bs| ==> bs[i] < 0x1_0000_0000
    ensures GetWord(r, 0) == |bs|
    ensures forall i :: 0 <= i < |bs| ==> GetWord(r, 1 + i) == bs[i]
  {
    PutGetWord(hb, 0, |bs|, 0);
    EncodeBlocks(PutWord(hb, 0, |bs|), bs)
  }

  function HeaderCount(hb: Block): nat {
    GetWord(hb, 0)
  }

  function HeaderBlocks(hb: Block): (bs: seq<nat>)
    requires HeaderCount(hb) <= LOGBLOCKS
  {
    seq(HeaderCount(hb), (i: nat) requires i < HeaderCount(hb) => GetWord(hb, 1 + i))
  }

  /** A disk on which recovery can start: its header names loggable blocks only. */
  predicate Recoverable(d: Disk, start: nat) {
    && Layout(d, start)
    && HeaderCount(d[start]) <= LOGBLOCKS
    && Loggable(HeaderBlocks(d[start]), start, |d|)
  }

  // ---- the writes of commit() and recover_from_log() ----

  /** write_log: copy each logged block from the cache (contents `v`) to its log block. */
  function LogBlockWrites(v: Disk, start: nat, bs: seq<nat>): (ws: seq<Write>)
    requires Loggable(bs, start, |v|)
  {
    seq(|bs|, (i: nat) requires i < |bs| => Write(start + 1 + i, v[bs[i]]))
  }

  /** install_trans: copy each log block of disk `d` home. */
  function InstallWrites(d: Disk, start: nat, bs: seq<nat>): (ws: seq<Write>)
    requires Layout(d, start) && |bs| <= LOGBLOCKS
  {
    seq(|bs|, (i: nat) requires i < |bs| => Write(bs[i], d[start + 1 + i]))
  }

  function HeaderWrite(d: Disk, start: nat, bs: seq<nat>): (w: Write)
    requires Layout(d, start) && Loggable(bs, start, |d|)
  {
    Write(start, EncodeHeader(d[start], bs))
  }

  function RecoveryWrites(d: Disk, start: nat): (ws: seq<Write>)
    requires Recoverable(d, start)
    ensures Fits(ws, |d|)
  {
    InstallWrites(d, start, HeaderBlocks(d[start])) + [HeaderWrite(d, start, [])]
  }

  /** The i-th write of commit(), when disk is `d`, the cache holds `v` and `bs` is logged:
      the log blocks, the header that commits, the home blocks, the header that erases the log. */
  function CommitWrite(d: Disk, v: Disk, start: nat, bs: seq<nat>, i: nat): (w: Write)
    requires Layout(d, start) && |v| == |d| && Loggable(bs, start, |d|)
    requires i < 2 * |bs| + 2
    ensures w.blockno < |d|
  {
    var n := |bs|;
    if i < n then Write(start + 1 + i, v[bs[i]])
    else if i == n then HeaderWrite(d, start, bs)
    else if i <= 2 * n then Write(bs[i - n - 1], v[bs[i - n - 1]])
    else Write(start, EncodeHeader(HeaderWrite(d, start, bs).data, []))
  }

  /** Everything commit() writes. */
  function CommitWrites(d: Disk, v: Disk, start: nat, bs: seq<nat>): (ws: seq<Write>)
    requires Layout(d, start) && |v| == |d| && Loggable(bs, start, |d|)
    ensures Fits(ws, |d|)
    ensures |ws| == if bs == [] then 0 else 2 * |bs| + 2
  {
    if bs == [] then []
    else seq(2 * |bs| + 2, (i: nat) requires i < 2 * |bs| + 2 => CommitWrite(d, v, start, bs, i))
  }

  /** What recovery makes of disk `d`. */
  function Recovered(d: Disk, start: nat): (r: Disk)
    requires Recoverable(d, start)
    ensures |r| == |d|
  {
    Apply(d, RecoveryWrites(d, start))
  }

  /** Equal outside the log area: all that the file system can observe. */
  predicate SameHome(d: Disk, e: Disk, start: nat) {
    && |d| == |e|
    && forall b :: 0 <= b < |d| && !InLog(start, b) ==> d[b] == e[b]
  }

  // ---- lemmas on Apply ----

  /** A block not written keeps its contents. */
  lemma {:induction false} ApplyMiss(d: Disk, ws: seq<Write>, b: nat)
    requires Fits(ws, |d|) && b < |d|
    requires forall i :: 0 <= i < |ws| ==> ws[i].blockno != b
    ensures Apply(d, ws)[b] == d[b]
    decreases |ws|
  {
    if ws != [] { ApplyMiss(d, ws[..|ws| - 1], b); }
  }

  /** A written block holds what its last write put there. */
  lemma {:induction false} ApplyHit(d: Disk, ws: seq<Write>, i: nat)
    requires Fits(ws, |d|) && i < |ws|
    requires forall j :: i < j < |ws| ==> ws[j].blockno != ws[i].blockno
    ensures Apply(d, ws)[ws[i].blockno] == ws[i].data
    decreases |ws|
  {
    if i < |ws| - 1 { ApplyHit(d, ws[..|ws| - 1], i); }
  }

  /** Writes only decide the blocks they touch: on two disks that agree elsewhere they agree. */
  lemma {:induction false} ApplyAgree(d: Disk, e: Disk, ws: seq<Write>, b: nat)
    requires |d| == |e| && Fits(ws, |d|) && b < |d|
    requires d[b] == e[b] || exists i :: 0 <= i < |ws| && ws[i].blockno == b
    ensures Apply(d, ws)[b] == Apply(e, ws)[b]
    decreases |ws|
  {
    if ws != [] && ws[|ws| - 1].blockno != b { ApplyAgree(d, e, ws[..|ws| - 1], b); }
  }

  // ---- recovery ----

  /** A recovered disk has an empty log, so recovering it again changes nothing at home. */
  lemma {:induction false} RecoveryClears(d: Disk, start: nat)
    requires Recoverable(d, start)
    ensures var r := Recovered(d, start);
            HeaderCount(r[start]) == 0 && Recoverable(r, start) && SameHome(Recovered(r, start), r, start)
  {
    var ws := RecoveryWrites(d, start);
    var r := Recovered(d, start);
    ApplyHit(d, ws, |ws| - 1);
    var ws2 := RecoveryWrites(r, start);
    forall b | 0 <= b < |r| && !InLog(start, b) ensures Apply(r, ws2)[b] == r[b] {
      ApplyMiss(r, ws2, b);
    }
  }

  /** Crash after any k writes of recovery: recovering again ends with the same home blocks. */
  lemma {:induction false} RecoveryRestarts(d: Disk, start: nat, k: nat)
    requires Recoverable(d, start) && k <= |RecoveryWrites(d, start)|
    ensures Fits(RecoveryWrites(d, start)[..k], |d|)
    ensures var t := Apply(d, RecoveryWrites(d, start)[..k]);
            Recoverable(t, start) && SameHome(Recovered(t, start), Recovered(d, start), start)
  {
    var ws := RecoveryWrites(d, start);
    var t := Apply(d, ws[..k]);
    if k == |ws| {
      assert ws[..k] == ws;
      RecoveryClears(d, start);
    } else {
      // only home blocks were written, so the log is intact and is replayed in full
      forall b | 0 <= b < |d| && InLog(start, b) ensures t[b] == d[b] { ApplyMiss(d, ws[..k], b); }
      assert RecoveryWrites(t, start) == ws;
      forall b | 0 <= b < |d| && !InLog(start, b) ensures Apply(t, ws)[b] == Apply(d, ws)[b] {
        if forall i :: 0 <= i < k ==> ws[i].blockno != b {
          assert forall i :: 0 <= i < k ==> ws[..k][i] == ws[i];
          ApplyMiss(d, ws[..k], b);
        }
        ApplyAgree(t, d, ws, b);
      }
    }
  }

  /** The disk after recovery was cut short |ks| times, the i-th time after ks[i] writes. */
  function Crashes(d: Disk, start: nat, ks: seq<nat>): (r: Disk)
    requires Recoverable(d, start)
    ensures Recoverable(r, start) && SameHome(Recovered(r, start), Recovered(d, start), start)
    decreases |ks|
  {
    if ks == [] then d
    else
      var ws := RecoveryWrites(d, start);
      var k := if ks[0] <= |ws| then ks[0] else |ws|;
      RecoveryRestarts(d, start, k);
      Crashes(Apply(d, ws[..k]), start, ks[1..])
  }

  // ---- commit ----

  /** The cache is ahead of the disk in the logged blocks only. */
  predicate CleanOutside(d: Disk, v: Disk, start: nat, bs: seq<nat>) {
    && |v| == |d|
    && forall b :: 0 <= b < |d| && !InLog(start, b) && b !in bs ==> v[b] == d[b]
  }

  predicate ReadyToCommit(d: Disk, v: Disk, start: nat, bs: seq<nat>) {
    && Layout(d, start) && HeaderCount(d[start]) == 0
    && Loggable(bs, start, |d|) && Distinct(bs)
    && CleanOutside(d, v, start, bs)
  }

  /** An empty log recovers to the home blocks as they are. */
  lemma {:induction false} EmptyLogRecovers(d: Disk, start: nat)
    requires Layout(d, start) && HeaderCount(d[start]) == 0 && |d| <= 0x8000_0000
    ensures Recoverable(d, start) && SameHome(Recovered(d, start), d, start)
  {
    forall b | 0 <= b < |d| && !InLog(start, b) ensures Recovered(d, start)[b] == d[b] {
      ApplyMiss(d, RecoveryWrites(d, start), b);
    }
  }

  /** A disk whose header lists `bs` and whose log blocks hold v's contents recovers to v. */
  lemma {:induction false} FullLogRecovers(t: Disk, d: Disk, v: Disk, start: nat, bs: seq<nat>)
    requires ReadyToCommit(d, v, start, bs) && |t| == |d|
    requires HeaderCount(t[start]) == |bs| && HeaderBlocks(t[start]) == bs
    requires forall i :: 0 <= i < |bs| ==> t[start + 1 + i] == v[bs[i]]
    requires forall b :: 0 <= b < |d| && !InLog(start, b) && b !in bs ==> t[b] == d[b]
    ensures Recoverable(t, start) && SameHome(Recovered(t, start), v, start)
  {
    hide GetWord, EncodeHeader;
    var ws := RecoveryWrites(t, start);
    forall b | 0 <= b < |d| && !InLog(start, b) ensures Apply(t, ws)[b] == v[b] {
      if b in bs {
        var i :| 0 <= i < |bs| && bs[i] == b;
        assert ws[i] == Write(b, v[b]);
        ApplyHit(t, ws, i);
      } else {
        ApplyMiss(t, ws, b);
      }
    }
  }

  /** Crash after any k of commit's writes: the header write decides, all or nothing. */
  lemma {:induction false} CommitIsAtomic(d: Disk, v: Disk, start: nat, bs: seq<nat>, k: nat)
    requires ReadyToCommit(d, v, start, bs)
    requires k <= |CommitWrites(d, v, start, bs)|
    ensures Fits(CommitWrites(d, v, start, bs)[..k], |d|)
    ensures var t := Apply(d, CommitWrites(d, v, start, bs)[..k]);
            && Recoverable(t, start)
            && SameHome(Recovered(t, start), if k <= |bs| then d else v, start)
  {
    hide GetWord, PutWord, EncodeHeader, CommitWrite, Recovered, Recoverable;
    var us := CommitWrites(d, v, start, bs)[..k];
    if k <= |bs| {
      BeforeHeader(d, v, start, bs, us);
    } else {
      AfterHeader(d, v, start, bs, us);
    }
  }

  lemma BeforeHeader(d: Disk, v: Disk, start: nat, bs: seq<nat>, us: seq<Write>)
    requires ReadyToCommit(d, v, start, bs) && |us| <= |bs|
    requires forall i :: 0 <= i < |us| ==> us[i] == CommitWrite(d, v, start, bs, i)
    ensures Fits(us, |d|) && Recoverable(Apply(d, us), start) && SameHome(Recovered(Apply(d, us), start), d, start)
  {
    hide GetWord, PutWord, EncodeHeader, Recovered, Recoverable, Apply, HeaderWrite;
    assert forall i :: 0 <= i < |us| ==> us[i].blockno == start + 1 + i;
    var t := Apply(d, us);
    forall b | 0 <= b < |d| && (b == start || !InLog(start, b)) ensures t[b] == d[b] { ApplyMiss(d, us, b); }
    EmptyLogRecovers(t, start);
  }

  lemma AfterHeader(d: Disk, v: Disk, start: nat, bs: seq<nat>, us: seq<Write>)
    requires ReadyToCommit(d, v, start, bs) && IsCommitPrefix(us, d, v, start, bs)
    ensures Fits(us, |d|) && Recoverable(Apply(d, us), start) && SameHome(Recovered(Apply(d, us), start), v, start)
  {
    hide GetWord, PutWord, EncodeHeader, Recovered, Recoverable, Apply, CommitWrite;
    var t := Apply(d, us);
    CommitReaches(d, v, start, bs, us);
    if |us| <= 2 * |bs| + 1 {
      FullLogRecovers(t, d, v, start, bs);
    } else {
      EmptyLogRecovers(t, start);
    }
  }

  /** The disk after k > n writes of commit. */
  predicate CommittedState(t: Disk, d: Disk, v: Disk, start: nat, bs: seq<nat>, k: nat)
    requires ReadyToCommit(d, v, start, bs)
  {
    && |t| == |d|
    && (k <= 2 * |bs| + 1 ==> HeaderCount(t[start]) == |bs| && HeaderBlocks(t[start]) == bs)
    && (k == 2 * |bs| + 2 ==> HeaderCount(t[start]) == 0)
    && (forall i :: 0 <= i < |bs| ==> t[start + 1 + i] == v[bs[i]])
    && (forall b :: 0 <= b < |d| && !InLog(start, b) && b !in bs ==> t[b] == d[b])
    && (forall i :: 0 <= i < |bs| && |bs| + 1 + i < k ==> t[bs[i]] == v[bs[i]])
  }

  predicate IsCommitPrefix(us: seq<Write>, d: Disk, v: Disk, start: nat, bs: seq<nat>)
    requires ReadyToCommit(d, v, start, bs)
  {
    && |bs| < |us| <= 2 * |bs| + 2
    && forall i :: 0 <= i < |us| ==> us[i] == CommitWrite(d, v, start, bs, i)
  }

  lemma {:induction false} CommitHeader(d: Disk, v: Disk, start: nat, bs: seq<nat>, us: seq<Write>)
    requires ReadyToCommit(d, v, start, bs) && IsCommitPrefix(us, d, v, start, bs)
    ensures var t := Apply(d, us);
            && (|us| <= 2 * |bs| + 1 ==> HeaderCount(t[start]) == |bs| && HeaderBlocks(t[start]) == bs)
            && (|us| == 2 * |bs| + 2 ==> HeaderCount(t[start]) == 0)
  {
    hide GetWord, PutWord;
    ApplyHit(d, us, if |us| <= 2 * |bs| + 1 then |bs| else 2 * |bs| + 1);
  }

  lemma {:induction false} CommitLogged(d: Disk, v: Disk, start: nat, bs: seq<nat>, us: seq<Write>, i: nat)
    requires ReadyToCommit(d, v, start, bs) && IsCommitPrefix(us, d, v, start, bs) && i < |bs|
    ensures Apply(d, us)[start + 1 + i] == v[bs[i]]
    ensures |bs| + 1 + i < |us| ==> Apply(d, us)[bs[i]] == v[bs[i]]
  {
    hide GetWord, PutWord, EncodeHeader, Apply;
    ApplyHit(d, us, i);
    if |bs| + 1 + i < |us| { ApplyHit(d, us, |bs| + 1 + i); }
  }

  lemma {:induction false} CommitUnlogged(d: Disk, v: Disk, start: nat, bs: seq<nat>, us: seq<Write>, b: nat)
    requires ReadyToCommit(d, v, start, bs) && IsCommitPrefix(us, d, v, start, bs)
    requires b < |d| && !InLog(start, b) && b !in bs
    ensures Apply(d, us)[b] == d[b]
  {
    ApplyMiss(d, us, b);
  }

  lemma {:induction false} CommitReaches(d: Disk, v: Disk, start: nat, bs: seq<nat>, us: seq<Write>)
    requires ReadyToCommit(d, v, start, bs) && IsCommitPrefix(us, d, v, start, bs)
    ensures CommittedState(Apply(d, us), d, v, start, bs, |us|)
  {
    CommitHeader(d, v, start, bs, us);
    forall i | 0 <= i < |bs|
      ensures Apply(d, us)[start + 1 + i] == v[bs[i]]
      ensures |bs| + 1 + i < |us| ==> Apply(d, us)[bs[i]] == v[bs[i]]
    {
      CommitLogged(d, v, start, bs, us, i);
    }
    forall b | 0 <= b < |d| && !InLog(start, b) && b !in bs ensures Apply(d, us)[b] == d[b] {
      CommitUnlogged(d, v, start, bs, us, b);
    }
  }

  /** Commit runs to its end: home blocks equal the cache and the log is empty. */
  lemma {:induction false} CommitInstalls(d: Disk, v: Disk, start: nat, bs: seq<nat>)
    requires ReadyToCommit(d, v, start, bs)
    ensures var t := Apply(d, CommitWrites(d, v, start, bs));
            HeaderCount(t[start]) == 0 && SameHome(t, v, start)
  {
    var ws := CommitWrites(d, v, start, bs);
    if bs != [] {
      assert IsCommitPrefix(ws, d, v, start, bs);
      CommitReaches(d, v, start, bs, ws);
      var t := Apply(d, ws);
      forall b | 0 <= b < |d| && !InLog(start, b) ensures t[b] == v[b] {
        if b in bs { var i :| 0 <= i < |bs| && bs[i] == b; assert t[bs[i]] == v[bs[i]]; }
      }
    }
  }

  /** A crash after the first k of the writes ws: recovery gives the home blocks of x. */
  predicate CrashGives(d: Disk, ws: seq<Write>, k: nat, start: nat, x: Disk)
    requires k <= |ws|
  {
    && Fits(ws[..k], |d|)
    && var t := Apply(d, ws[..k]); Recoverable(t, start) && SameHome(Recovered(t, start), x, start)
  }

  /** Whichever prefix of commit's writes was issued, recovery gives the home blocks of before or those of
      the whole transaction, and the header write decides. */
  ghost predicate AllOrNothing(d: Disk, v: Disk, start: nat, bs: seq<nat>)
    requires Layout(d, start) && |v| == |d| && Loggable(bs, start, |d|)
  {
    var ws := CommitWrites(d, v, start, bs);
    && (forall k :: 0 <= k <= |ws| && k <= |bs| ==> CrashGives(d, ws, k, start, d))
    && (forall k :: |bs| < k <= |ws| ==> CrashGives(d, ws, k, start, v))
  }

  lemma {:induction false} CommitAllOrNothing(d: Disk, v: Disk, start: nat, bs: seq<nat>)
    requires ReadyToCommit(d, v, start, bs)
    ensures AllOrNothing(d, v, start, bs)
  {
    hide CommitWrites, Apply, Recoverable, Recovered;
    var ws := CommitWrites(d, v, start, bs);
    forall k | 0 <= k <= |ws|
      ensures k <= |bs| ==> CrashGives(d, ws, k, start, d)
      ensures k > |bs| ==> CrashGives(d, ws, k, start, v)
    {
      CommitIsAtomic(d, v, start, bs, k);
    }
  }

  /** Whichever prefix of recovery's writes was issued, recovery started again gives the same home blocks. */
  ghost predicate Restartable(d: Disk, start: nat)
    requires Recoverable(d, start)
  {
    var ws := RecoveryWrites(d, start);
    forall k :: 0 <= k <= |ws| ==> CrashGives(d, ws, k, start, Recovered(d, start))
  }

  lemma {:induction false} RecoveryRestartable(d: Disk, start: nat)
    requires Recoverable(d, start)
    ensures Restartable(d, start)
  {
    hide RecoveryWrites, Apply, Recoverable, Recovered;
    var ws := RecoveryWrites(d, start);
    forall k | 0 <= k <= |ws|
      ensures CrashGives(d, ws, k, start, Recovered(d, start))
    {
      RecoveryRestarts(d, start, k);
    }
  }

  /** Crash atomicity: power fails after any k of commit's writes and then again in the middle of
      any number of recoveries; the recovery that completes leaves the home blocks exactly as they
      were before the transaction or exactly as the whole transaction makes them. */
  lemma {:induction false} CrashAtomicity(d: Disk, v: Disk, start: nat, bs: seq<nat>, k: nat, ks: seq<nat>)
    requires ReadyToCommit(d, v, start, bs)
    requires k <= |CommitWrites(d, v, start, bs)|
    ensures Fits(CommitWrites(d, v, start, bs)[..k], |d|)
    ensures var t := Apply(d, CommitWrites(d, v, start, bs)[..k]);
            && Recoverable(t, start)
            && var r := Recovered(Crashes(t, start, ks), start);
               && HeaderCount(r[start]) == 0
               && SameHome(r, if k <= |bs| then d else v, start)
  {
    CommitIsAtomic(d, v, start, bs, k);
    var t := Apply(d, CommitWrites(d, v, start, bs)[..k]);
    RecoveryClears(Crashes(t, start, ks), start);
  }

  // ---- the phases of commit(), as its functions issue them ----

  lemma {:induction false} ApplySnoc(d: Disk, ws: seq<Write>, w: Write)
    requires Fits(ws, |d|) && w.blockno < |d|
    ensures Apply(d, ws + [w]) == Apply(d, ws)[w.blockno := w.data]
  {
    assert (ws + [w])[..|ws|] == ws;
  }

  function AfterLog(d: Disk, v: Disk, start: nat, bs: seq<nat>): (r: Disk)
    requires ReadyToCommit(d, v, start, bs)
    ensures |r| == |d|
  {
    Apply(d, LogBlockWrites(v, start, bs))
  }

  lemma {:induction false} AfterLogContents(d: Disk, v: Disk, start: nat, bs: seq<nat>)
    requires ReadyToCommit(d, v, start, bs)
    ensures AfterLog(d, v, start, bs)[start] == d[start]
    ensures forall i :: 0 <= i < |bs| ==> AfterLog(d, v, start, bs)[start + 1 + i] == v[bs[i]]
  {
    var w1 := LogBlockWrites(v, start, bs);
    ApplyMiss(d, w1, start);
    forall i | 0 <= i < |bs| ensures Apply(d, w1)[start + 1 + i] == v[bs[i]] { ApplyHit(d, w1, i); }
  }

  lemma CommitWriteList(d: Disk, v: Disk, start: nat, bs: seq<nat>, w3: seq<Write>)
    requires ReadyToCommit(d, v, start, bs) && bs != []
    requires |w3| == |bs| && forall i :: 0 <= i < |bs| ==> w3[i] == Write(bs[i], v[bs[i]])
    ensures CommitWrites(d, v, start, bs) ==
            LogBlockWrites(v, start, bs) + [HeaderWrite(d, start, bs)] + w3
            + [Write(start, EncodeHeader(HeaderWrite(d, start, bs).data, []))]
  {
    hide GetWord, PutWord, EncodeHeader;
    var n := |bs|;
    var w1, w2 := LogBlockWrites(v, start, bs), HeaderWrite(d, start, bs);
    var w4 := Write(start, EncodeHeader(w2.data, []));
    var ws := w1 + [w2] + w3 + [w4];
    forall i | 0 <= i < 2 * n + 2 ensures ws[i] == CommitWrite(d, v, start, bs, i) {
      if n < i <= 2 * n { assert ws[i] == w3[i - n - 1]; }
    }
  }

  lemma {:induction false} ApplyPhases(d: Disk, w1: seq<Write>, w2: Write, w3: seq<Write>, w4: Write)
    requires Fits(w1, |d|) && w2.blockno < |d| && Fits(w3, |d|) && w4.blockno < |d|
    ensures Apply(d, w1 + [w2] + w3 + [w4]) ==
            Apply(Apply(d, w1)[w2.blockno := w2.data], w3)[w4.blockno := w4.data]
  {
    ApplySnoc(d, w1, w2);
    ApplyConcat(d, w1 + [w2], w3);
    ApplySnoc(d, w1 + [w2] + w3, w4);
  }

  /** write_log, write_head, install_trans and the second write_head issue exactly CommitWrites. */
  lemma {:induction false} CommitPhases(d: Disk, v: Disk, start: nat, bs: seq<nat>, d2: Disk, w3: seq<Write>)
    requires ReadyToCommit(d, v, start, bs) && bs != []
    requires d2 == AfterLog(d, v, start, bs)[start := EncodeHeader(d[start], bs)]
    requires w3 == InstallWrites(d2, start, bs)
    ensures var w4 := Write(start, EncodeHeader(d2[start], []));
            && CommitWrites(d, v, start, bs) == LogBlockWrites(v, start, bs) + [HeaderWrite(d, start, bs)] + w3 + [w4]
            && Apply(d, CommitWrites(d, v, start, bs)) == Apply(d2, w3)[start := w4.data]
  {
    hide GetWord, PutWord, EncodeHeader;
    AfterLogContents(d, v, start, bs);
    CommitWriteList(d, v, start, bs, w3);
    ApplyPhases(d, LogBlockWrites(v, start, bs), HeaderWrite(d, start, bs), w3, Write(start, EncodeHeader(d2[start], [])));
  }
}
