/** Reading and writing through an open file: the offset, and the cutting of long writes into
    transactions the log has room for. */
module File {
  import opened Common
  import opened Blocks
  import opened FsSpec
  import opened Fs

  /** A file structure of type FD_INODE. */
  class OpenFile {
    const ip: Inode
    var readable: bool
    var writable: bool
    var off: Word

    constructor (ip: Inode, readable: bool, writable: bool)
      ensures this.ip == ip && off == 0 && this.readable == readable && this.writable == writable
    {
      this.ip, off, this.readable, this.writable := ip, 0, readable, writable;
    }
  }

  /** An int passed where an unsigned int is expected. */
  function ToWord(n: int): (w: Word)
    requires -0x8000_0000 <= n < 0x8000_0000
  {
    if n < 0 then n + 0x1_0000_0000 else n
  }

  /** What a write that starts at offset off has done so far: w bytes counted, k bytes in the file.
      Beyond the end of the file nothing can be written. */
  ghost predicate WrittenSoFar(s: Image, t: Image, i: nat, off: nat, src: seq<Byte>, w: nat, k: nat)
    requires i < |s.inodes| && s.inodes[i].size <= MAXFILE * BSIZE
  {
    && w <= k <= |src| && OthersKept(s, t, i)
    && if off > s.inodes[i].size then t == s && k == 0 else FileWritten(s, t, i, off, src[..k], w)
  }

  lemma NothingYet(s: Image, i: nat, off: nat, src: seq<Byte>)
    requires i < |s.inodes| && s.inodes[i].size <= MAXFILE * BSIZE
    ensures WrittenSoFar(s, s, i, off, src, 0, 0)
  {
    hide Content;
    OthersRefl(s, i);
    var c := Content(s, i);
    if off <= |c| {
      assert Splice(c, off, []) == c;
    }
  }

  lemma OthersTrans(s: Image, t: Image, u: Image, i: nat)
    requires OthersKept(s, t, i) && OthersKept(t, u, i)
    ensures OthersKept(s, u, i)
  {
    hide Content;
  }

  /** The next chunk lands right behind the ones before it. */
  lemma ChunksJoin(s: Image, t: Image, u: Image, i: nat, off: nat, src: seq<Byte>, w: nat, m: nat, k: nat)
    requires i < |s.inodes| && s.inodes[i].size <= MAXFILE * BSIZE && WrittenSoFar(s, t, i, off, src, w, w)
    requires off <= s.inodes[i].size && w + k <= |src| && m <= k && |t.inodes| == |s.inodes|
    requires OthersKept(t, u, i) && t.inodes[i].size <= MAXFILE * BSIZE && off + w <= t.inodes[i].size
    requires FileWritten(t, u, i, off + w, src[w..w + k], m)
    ensures WrittenSoFar(s, u, i, off, src, w + m, w + k)
  {
    hide Content, OthersKept;
    OthersTrans(s, t, u, i);
    var c := Content(s, i);
    var a, b := src[..w], src[w..w + k];
    SpliceReads(c, off, a);
    var sp := Splice(c, off, a);
    assert sp[..t.inodes[i].size] == sp;
    SpliceSplice(c, off, a, b);
    assert a + b == src[..w + k];
  }

  method FileRead(fs: FileSystem, f: OpenFile, n: int, good: nat) returns (r: int, dst: seq<Byte>)
    requires fs.Ready(f.ip) && -0x8000_0000 <= n < 0x8000_0000
    modifies fs, f.ip, f`off
    ensures unchanged(fs) && unchanged(f.ip) && f.ip.size <= MAXFILE * BSIZE
    ensures !f.readable ==> r == -1 && dst == []
    ensures f.readable && !(old(f.off) <= f.ip.size && old(f.off) + ToWord(n) < 0x1_0000_0000) ==> r == 0 && dst == []
    ensures f.readable && old(f.off) <= f.ip.size && old(f.off) + ToWord(n) < 0x1_0000_0000 ==>
      var end := if old(f.off) + ToWord(n) > f.ip.size then f.ip.size else old(f.off) + ToWord(n);
      && r == (if good < end - old(f.off) then -1 else end - old(f.off))
      && dst == Content(fs.View(f.ip), f.ip.inum)[old(f.off)..end][..Min(good, end - old(f.off))]
    ensures f.off == old(f.off) + if r > 0 then r else 0
  {
    hide Owned, Mapped, Content;
    SizeOk(fs.View(f.ip), f.ip.inum);
    if !f.readable {
      return -1, [];
    }
    r, dst := fs.Readi(f.ip, f.off, ToWord(n), good);
    if r > 0 {
      f.off := f.off + r;
    }
  }

  /** One turn of filewrite's loop: a transaction around writei. */
  method WriteOp(fs: FileSystem, f: OpenFile, src: seq<Byte>, good: nat, torn: nat) returns (r: int, ghost p: nat)
    requires fs.Ready(f.ip) && |src| <= CHUNK && fs.View(f.ip) == fs.Base()
    modifies fs, f.ip, f`off
    ensures fs.Ready(f.ip) && fs.View(f.ip) == fs.Base()
    ensures r == -1 <==> old(f.off) > old(f.ip.size) || old(f.off) + |src| > MAXFILE * BSIZE
    ensures r == -1 ==> p == 0 && fs.Base() == old(fs.Base()) && f.off == old(f.off)
    ensures OthersKept(old(fs.Base()), fs.Base(), f.ip.inum) && old(f.ip.size) <= MAXFILE * BSIZE
    ensures r != -1 ==> 0 <= r && r + p <= |src| && f.off == old(f.off) + r
    ensures r != -1 ==> FileWritten(old(fs.Base()), fs.Base(), f.ip.inum, old(f.off), src[..r + p], r)
    ensures good >= |src| ==> p == 0 && (-1 < r < |src| ==> AllUsed(fs.Base()))
    ensures fs.late == old(fs.late) && |fs.ended| == |old(fs.ended)| + 1 && old(fs.ended) <= fs.ended
    ensures var op := fs.ended[|fs.ended| - 1];
            && |op| <= MAXOPBLOCKS
            && (good >= |src| ==> Logs(old(fs.R()), fs.R(), {}, op, fs.inodestart, fs.bmapstart))
  {
    hide Owned, Mapped, FileWritten, OthersKept, Logs;
    SizeOk(fs.View(f.ip), f.ip.inum);
    fs.BeginOp();
    r, p := fs.Writei(f.ip, src, f.off, good, torn);
    if r > 0 {
      f.off := f.off + r;
    }
    fs.EndOp();
  }

  function RawOf(s: Image): (r: Raw) {
    Raw(s.meta, s.bitmap, s.data, s.inodes)
  }

  /** What a write from image s on goes through: after each of its transactions, with the blocks it logged,
      an image in which the first ws[j] bytes of src are written, and nothing else. */
  ghost predicate WriteTrace(ss: seq<Image>, ws: seq<nat>, ends: seq<set<nat>>, s: Image, i: nat, off: nat, src: seq<Byte>,
                             inodestart: nat, bmapstart: nat)
    requires i < |s.inodes| && s.inodes[i].size <= MAXFILE * BSIZE
  {
    && |ss| == |ws| == |ends| + 1 && ss[0] == s && ws[0] == 0
    && (forall j :: 0 <= j < |ss| ==> Inv(ss[j]) && WrittenSoFar(s, ss[j], i, off, src, ws[j], ws[j]))
    && (forall j :: 0 <= j < |ends| ==> |ends[j]| <= MAXOPBLOCKS)
    && (forall j :: 0 <= j < |ends| ==> ws[j] <= ws[j + 1])
    && (forall j :: 0 <= j < |ends| ==> Logs(RawOf(ss[j]), RawOf(ss[j + 1]), {}, ends[j], inodestart, bmapstart))
  }

  lemma TraceMore(ss: seq<Image>, ws: seq<nat>, ends: seq<set<nat>>, s: Image, i: nat, off: nat, src: seq<Byte>,
                  inodestart: nat, bmapstart: nat, t: Image, w: nat, op: set<nat>)
    requires i < |s.inodes| && s.inodes[i].size <= MAXFILE * BSIZE
    requires WriteTrace(ss, ws, ends, s, i, off, src, inodestart, bmapstart)
    requires Inv(t) && WrittenSoFar(s, t, i, off, src, w, w) && |op| <= MAXOPBLOCKS && ws[|ends|] <= w
    requires Logs(RawOf(ss[|ends|]), RawOf(t), {}, op, inodestart, bmapstart)
    ensures WriteTrace(ss + [t], ws + [w], ends + [op], s, i, off, src, inodestart, bmapstart)
  {
    hide Inv, WrittenSoFar, Logs;
  }

  lemma TraceStart(s: Image, i: nat, off: nat, src: seq<Byte>, inodestart: nat, bmapstart: nat)
    requires i < |s.inodes| && s.inodes[i].size <= MAXFILE * BSIZE && Inv(s)
    ensures WriteTrace([s], [0], [], s, i, off, src, inodestart, bmapstart)
  {
    hide Inv, WrittenSoFar, Logs;
    NothingYet(s, i, off, src);
  }

  /** One turn of filewrite's loop: bytes i..i + n1 of src, after the i before them. */
  method WriteTurn(fs: FileSystem, f: OpenFile, src: seq<Byte>, i: nat, n1: nat, good: nat, torn: nat,
                   ghost s: Image, ghost start: nat, ghost from: nat, ghost ss: seq<Image>, ghost ws: seq<nat>)
    returns (r: int, ghost w: nat, ghost k: nat)
    requires fs.Ready(f.ip) && fs.View(f.ip) == fs.Base() && 0 < n1 <= CHUNK && i + n1 <= |src| && f.off == start + i
    requires f.ip.inum < |s.inodes| && s.inodes[f.ip.inum].size <= MAXFILE * BSIZE
    requires WrittenSoFar(s, fs.Base(), f.ip.inum, start, src, i, i)
    requires good >= |src| ==> Traced(fs, ss, ws, from, s, f.ip.inum, start, src, i)
    modifies fs, f.ip, f`off
    ensures fs.Ready(f.ip) && fs.View(f.ip) == fs.Base() && fs.late == old(fs.late)
    ensures WrittenSoFar(s, fs.Base(), f.ip.inum, start, src, w, k) && f.off == start + w
    ensures -1 <= r <= n1 && w == i + (if r == -1 then 0 else r) && (r == n1 ==> k == w)
    ensures |fs.ended| == |old(fs.ended)| + 1 && old(fs.ended) <= fs.ended && |fs.ended[|old(fs.ended)|]| <= MAXOPBLOCKS
    ensures good >= |src| ==> w == k && Traced(fs, ss + [fs.Base()], ws + [w], from, s, f.ip.inum, start, src, w)
    ensures good >= |src| && r != n1 && start <= s.inodes[f.ip.inum].size && start + |src| <= MAXFILE * BSIZE ==> AllUsed(fs.Base())
  {
    hide Owned, Mapped, WrittenSoFar, FileWritten, OthersKept, WriteTrace, Logs, AllUsed;
    ghost var t, ends, inum := fs.Base(), fs.ended, f.ip.inum;
    ghost var p;
    w, k := i, i;
    EndInFile(s, t, inum, start, src, i);
    r, p := WriteOp(fs, f, src[i..i + n1], if good > i then good - i else 0, torn);
    if r != -1 {
      StartInFile(s, t, inum, start, src, i);
      Slices(src, i, n1, r + p);
      ChunksJoin(s, t, fs.Base(), inum, start, src, i, r, r + p);
      w, k := i + r, i + r + p;
    }
    if good >= |src| {
      TracedMore(fs, ss, ws, ends, from, s, inum, start, src, i, w);
    }
  }

  /** Writes n bytes at the offset, cut into transactions. The result is n when all were written and
      -1 otherwise; either way the offset moves past the w bytes that were. ss are the images before the
      first and after each transaction, and ws the bytes written by then. */
  method FileWrite(fs: FileSystem, f: OpenFile, n: int, src: seq<Byte>, good: nat, torn: nat)
    returns (ret: int, ghost w: nat, ghost k: nat, ghost ss: seq<Image>, ghost ws: seq<nat>)
    requires fs.Ready(f.ip) && fs.View(f.ip) == fs.Base() && |src| == (if n < 0 then 0 else n)
    modifies fs, f.ip, f`off
    ensures fs.Ready(f.ip) && fs.View(f.ip) == fs.Base() && old(f.ip.size) <= MAXFILE * BSIZE
    ensures WrittenSoFar(old(fs.Base()), fs.Base(), f.ip.inum, old(f.off), src, w, k) && f.off == old(f.off) + w
    ensures f.writable ==> ret == if w == n then n else -1
    ensures !f.writable ==> ret == -1 && w == k == 0
    ensures good >= |src| ==> w == k
    ensures good >= |src| && f.writable && old(f.off) <= old(f.ip.size) && old(f.off) + |src| <= MAXFILE * BSIZE && w < |src| ==>
      AllUsed(fs.Base())
    ensures fs.late == old(fs.late) && old(fs.ended) <= fs.ended
    ensures forall o :: |old(fs.ended)| <= o < |fs.ended| ==> |fs.ended[o]| <= MAXOPBLOCKS
    ensures good >= |src| ==>
      && WriteTrace(ss, ws, fs.ended[|old(fs.ended)|..], old(fs.Base()), f.ip.inum, old(f.off), src, fs.inodestart, fs.bmapstart)
      && ss[|ss| - 1] == fs.Base() && ws[|ws| - 1] == w
  {
    hide Owned, Mapped, WrittenSoFar, FileWritten, OthersKept, WriteTrace, Logs, AllUsed;
    ghost var s := fs.Base();
    ghost var inum, start := f.ip.inum, f.off;
    SizeOk(s, inum);
    NothingYet(s, inum, start, src);
    TraceStart(s, inum, start, src, fs.inodestart, fs.bmapstart);
    TraceEnds([s], [0], [], s, inum, start, src, fs.inodestart, fs.bmapstart);
    assert fs.ended[|old(fs.ended)|..] == [];
    w, k, ss, ws := 0, 0, [s], [0];
    if !f.writable {
      return -1, w, k, ss, ws;
    }
    var i := 0;
    while i < n
      invariant 0 <= i == w == k <= |src| && f.off == start + i && f.writable
      invariant fs.Ready(f.ip) && fs.View(f.ip) == fs.Base() && WrittenSoFar(s, fs.Base(), inum, start, src, i, i)
      invariant fs.late == old(fs.late) && old(fs.ended) <= fs.ended
      invariant forall o :: |old(fs.ended)| <= o < |fs.ended| ==> |fs.ended[o]| <= MAXOPBLOCKS
      invariant good >= |src| ==> Traced(fs, ss, ws, |old(fs.ended)|, s, inum, start, src, i)
    {
      var n1 := if n - i > CHUNK then CHUNK else n - i;
      var r;
      r, w, k := WriteTurn(fs, f, src, i, n1, good, torn, s, start, |old(fs.ended)|, ss, ws);
      ss, ws := ss + [fs.Base()], ws + [w];
      if r != n1 {
        break;
      }
      i := i + r;
    }
    ret := if i == n then n else -1;
  }

  /** The trace of a write so far, ending at the disk as it is. */
  ghost predicate Traced(fs: FileSystem, ss: seq<Image>, ws: seq<nat>, from: nat, s: Image, i: nat, off: nat, src: seq<Byte>, w: nat)
    reads fs
    requires i < |s.inodes| && s.inodes[i].size <= MAXFILE * BSIZE
  {
    && from <= |fs.ended| && WriteTrace(ss, ws, fs.ended[from..], s, i, off, src, fs.inodestart, fs.bmapstart)
    && ss != [] && ss[|ss| - 1] == fs.Base() && |ws| == |ss| && ws[|ws| - 1] == w
  }

  lemma TraceEnds(ss: seq<Image>, ws: seq<nat>, ends: seq<set<nat>>, s: Image, i: nat, off: nat, src: seq<Byte>,
                  inodestart: nat, bmapstart: nat)
    requires i < |s.inodes| && s.inodes[i].size <= MAXFILE * BSIZE
    requires WriteTrace(ss, ws, ends, s, i, off, src, inodestart, bmapstart)
    ensures |ss| == |ws| == |ends| + 1
  {
  }

  /** One transaction more. */
  lemma TracedMore(fs: FileSystem, ss: seq<Image>, ws: seq<nat>, ends: seq<set<nat>>, from: nat,
                   s: Image, i: nat, off: nat, src: seq<Byte>, w: nat, w': nat)
    requires i < |s.inodes| && s.inodes[i].size <= MAXFILE * BSIZE && from <= |ends| && w <= w'
    requires WriteTrace(ss, ws, ends[from..], s, i, off, src, fs.inodestart, fs.bmapstart)
    requires ss != [] && |ws| == |ss| && ws[|ws| - 1] == w
    requires |fs.ended| == |ends| + 1 && ends <= fs.ended && |fs.ended[|ends|]| <= MAXOPBLOCKS
    requires Inv(fs.Base()) && WrittenSoFar(s, fs.Base(), i, off, src, w', w')
    requires Logs(RawOf(ss[|ss| - 1]), fs.R(), {}, fs.ended[|ends|], fs.inodestart, fs.bmapstart)
    ensures Traced(fs, ss + [fs.Base()], ws + [w'], from, s, i, off, src, w')
  {
    hide WriteTrace, Inv, WrittenSoFar, Logs;
    TraceEnds(ss, ws, ends[from..], s, i, off, src, fs.inodestart, fs.bmapstart);
    TraceMore(ss, ws, ends[from..], s, i, off, src, fs.inodestart, fs.bmapstart, fs.Base(), w', fs.ended[|ends|]);
    assert fs.ended[from..] == ends[from..] + [fs.ended[|ends|]];
  }

  lemma EndInFile(s: Image, t: Image, i: nat, off: nat, src: seq<Byte>, w: nat)
    requires i < |s.inodes| && s.inodes[i].size <= MAXFILE * BSIZE && WrittenSoFar(s, t, i, off, src, w, w)
    ensures |t.inodes| == |s.inodes| && (off <= s.inodes[i].size ==> off + w <= t.inodes[i].size)
  {
    hide Content;
  }

  /** After i bytes the offset is inside the file only if the start was. */
  lemma StartInFile(s: Image, t: Image, i: nat, off: nat, src: seq<Byte>, w: nat)
    requires i < |s.inodes| && s.inodes[i].size <= MAXFILE * BSIZE && WrittenSoFar(s, t, i, off, src, w, w)
    requires i < |t.inodes| && off + w <= t.inodes[i].size
    ensures |t.inodes| == |s.inodes| && off <= s.inodes[i].size
  {
    hide Content;
  }
}
