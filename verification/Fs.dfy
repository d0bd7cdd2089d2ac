/** Allocation of blocks, the inode's block map, and reading, writing and truncating a file. */
module Fs {
  import opened Common
  import opened Blocks
  import opened FsSpec

  const BPB := BSIZE * 8
  const IPB := BSIZE / 64

  /** An entry of the inode table. */
  class Inode {
    const inum: nat
    var ref: int
    var valid: bool
    var kind: Short
    var major: Short
    var minor: Short
    var nlink: Short
    var size: nat
    var addrs: Addrs

    constructor (inum: nat)
      ensures this.inum == inum && !valid && ref == 1
    {
      this.inum, ref, valid := inum, 1, false;
      kind, major, minor, nlink, size, addrs := 0, 0, 0, 0, 0, NoAddrs();
    }

    function Disk(): (d: Dinode)
      reads this
    {
      Dinode(kind, major, minor, nlink, size, addrs)
    }
  }

  datatype Turn = Done | Fault | Full

  /** filewrite's limit on the bytes of one transaction. */
  const CHUNK := (MAXOPBLOCKS - 1 - 1 - 2) / 2 * BSIZE

  /** After turns turns, tot of n bytes from offset start have gone to the disk: every turn but the
      first starts at a block boundary. */
  ghost predicate Turns(start: nat, n: nat, tot: nat, turns: nat) {
    && (turns == 0 ==> tot == 0)
    && (turns > 0 && tot < n ==> start + tot == (start / BSIZE + turns) * BSIZE)
    && (turns > 0 ==> (start / BSIZE + turns - 1) * BSIZE < start + n)
  }

  /** What the next turn moves: to the end of the block, or the rest. */
  ghost function Piece(start: nat, n: nat, tot: nat): (m: nat)
    requires tot <= n
  {
    var room := BSIZE - (start + tot) % BSIZE;
    if n - tot < room then n - tot else room
  }

  /** Two blocks a turn, save that an unaligned start lies in a block that is there already. */
  ghost function Budget(start: nat, turns: nat): (r: int) {
    2 * turns - (if start % BSIZE != 0 && turns > 0 then 1 else 0)
  }

  lemma FirstTurn(start: nat, n: nat)
    ensures Turns(start, n, 0, 0) && Budget(start, 0) == 0
  {
  }

  lemma NextTurn(start: nat, n: nat, tot: nat, turns: nat)
    requires Turns(start, n, tot, turns) && tot < n
    ensures tot + Piece(start, n, tot) <= n && Turns(start, n, tot + Piece(start, n, tot), turns + 1)
    ensures n <= CHUNK ==> Budget(start, turns + 1) + 2 < MAXOPBLOCKS
  {
  }

  lemma TurnsBound(start: nat, n: nat, tot: nat, turns: nat)
    requires Turns(start, n, tot, turns)
    ensures n <= CHUNK ==> Budget(start, turns) + 2 < MAXOPBLOCKS
  {
  }

  /** How many blocks a write to file block bn of inode i can add to the transaction: the block itself,
      its bitmap block if it is new, and twice that for the indirect block unless it is logged already. */
  ghost function Cost(s: Image, i: nat, bn: nat, indirectLogged: bool): (c: nat)
    requires i < |s.inodes| && bn < MAXFILE
  {
    if Addr(s, i, SlotOf(bn)) != 0 then 1 else if bn >= NDIRECT && !indirectLogged then 4 else 2
  }

  /** What is on the disk, apart from who owns what. */
  datatype Raw = Raw(meta: nat, bitmap: seq<bool>, data: seq<Block>, dinodes: seq<Dinode>)

  /** A block that the file system changes: of the bitmap, of the inodes, or a file's. */
  ghost predicate OfFs(s: Raw, x: nat, inodestart: nat, bmapstart: nat) {
    || s.meta <= x < |s.data|
    || (exists b :: 0 <= b < |s.bitmap| && x == BitsAt(b, bmapstart))
    || (exists i :: 0 <= i < |s.dinodes| && x == InodeAt(i, inodestart))
  }

  function BitsAt(b: nat, bmapstart: nat): (x: nat)
    ensures bmapstart <= x
  {
    b / BPB + bmapstart
  }

  function InodeAt(i: nat, inodestart: nat): (x: nat)
    ensures inodestart <= x
  {
    i / IPB + inodestart
  }

  /** Whatever differs between s and t is in a block that was logged. */
  ghost predicate Logs(s: Raw, t: Raw, before: set<nat>, logged: set<nat>, inodestart: nat, bmapstart: nat) {
    && t.meta == s.meta && |t.bitmap| == |s.bitmap| && |t.data| == |s.data| && |t.dinodes| == |s.dinodes| && before <= logged
    && (forall b :: 0 <= b < |s.bitmap| && t.bitmap[b] != s.bitmap[b] ==> BitsAt(b, bmapstart) in logged)
    && (forall b :: 0 <= b < |s.data| && t.data[b] != s.data[b] ==> b in logged)
    && (forall i :: 0 <= i < |s.dinodes| && t.dinodes[i] != s.dinodes[i] ==> InodeAt(i, inodestart) in logged)
    && (forall x :: x in logged && x !in before ==> OfFs(s, x, inodestart, bmapstart))
  }

  lemma LogsNone(s: Raw, logged: set<nat>, inodestart: nat, bmapstart: nat)
    ensures Logs(s, s, logged, logged, inodestart, bmapstart)
  {
  }

  lemma LogsTrans(s: Raw, t: Raw, u: Raw, a: set<nat>, b: set<nat>, c: set<nat>, inodestart: nat, bmapstart: nat)
    requires Logs(s, t, a, b, inodestart, bmapstart) && Logs(t, u, b, c, inodestart, bmapstart)
    ensures Logs(s, u, a, c, inodestart, bmapstart)
  {
    forall x | x in c && x !in a
      ensures OfFs(s, x, inodestart, bmapstart)
    {
      assert x in b || OfFs(t, x, inodestart, bmapstart);
    }
  }

  lemma LogsBit(s: Raw, b: nat, bit: bool, logged: set<nat>, inodestart: nat, bmapstart: nat)
    requires b < |s.bitmap|
    ensures Logs(s, s.(bitmap := s.bitmap[b := bit]), logged, logged + {BitsAt(b, bmapstart)}, inodestart, bmapstart)
  {
  }

  lemma LogsData(s: Raw, b: nat, v: Block, logged: set<nat>, inodestart: nat, bmapstart: nat)
    requires s.meta <= b < |s.data|
    ensures Logs(s, s.(data := s.data[b := v]), logged, logged + {b}, inodestart, bmapstart)
  {
  }

  lemma LogsInode(s: Raw, i: nat, d: Dinode, logged: set<nat>, inodestart: nat, bmapstart: nat)
    requires i < |s.dinodes|
    ensures Logs(s, s.(dinodes := s.dinodes[i := d]), logged, logged + {InodeAt(i, inodestart)}, inodestart, bmapstart)
  {
  }

  /** One mounted disk. Blocks are read and written through a cache that always yields the latest
      contents; logged is the set of blocks the open transaction has passed to log_write. */
  class FileSystem {
    const meta: nat
    const inodestart: nat
    const bmapstart: nat
    var bitmap: seq<bool>
    var data: seq<Block>
    var dinodes: seq<Dinode>
    ghost var owner: seq<Owner>
    ghost var logged: set<nat>
    /** Some log_write was called when its transaction had MAXOPBLOCKS blocks already. */
    ghost var late: bool
    /** The blocks of each finished transaction. */
    ghost var ended: seq<set<nat>>

    /** A mounted image whose blocks are in order. */
    constructor (meta: nat, inodestart: nat, bmapstart: nat,
                 bitmap: seq<bool>, data: seq<Block>, dinodes: seq<Dinode>, ghost owner: seq<Owner>)
      requires Inv(Image(meta, bitmap, data, dinodes, owner))
      ensures Base() == Image(meta, bitmap, data, dinodes, owner) && this.inodestart == inodestart && this.bmapstart == bmapstart
      ensures logged == {} && !late && ended == []
    {
      this.meta, this.inodestart, this.bmapstart := meta, inodestart, bmapstart;
      this.bitmap, this.data, this.dinodes, this.owner := bitmap, data, dinodes, owner;
      logged, late, ended := {}, false, [];
    }

    /** The disk with the in-memory copy of one inode in place of its disk copy. */
    ghost function View(ip: Inode): (s: Image)
      requires ip.inum < |dinodes|
      reads this, ip
    {
      Image(meta, bitmap, data, if ip.valid then dinodes[ip.inum := ip.Disk()] else dinodes, owner)
    }

    function BBlock(b: nat): (r: nat) {
      BitsAt(b, bmapstart)
    }

    function IBlock(i: nat): (r: nat) {
      InodeAt(i, inodestart)
    }

    ghost function R(): (r: Raw)
      reads this
    {
      Raw(meta, bitmap, data, dinodes)
    }

    /** Whatever has changed since r is in a block that was logged since. */
    ghost predicate Recorded(r: Raw, before: set<nat>)
      reads this
    {
      Logs(r, R(), before, logged, inodestart, bmapstart)
    }

    /** Composition of what happened since r with what happened since t. */
    lemma RecordedOn(r: Raw, before: set<nat>, t: Raw, between: set<nat>)
      requires Logs(r, t, before, between, inodestart, bmapstart) && Recorded(t, between)
      ensures Recorded(r, before)
    {
      hide Logs;
      LogsTrans(r, t, R(), before, between, logged, inodestart, bmapstart);
    }

    method BeginOp()
      modifies this`logged
      ensures logged == {}
    {
      logged := {};
    }

    method EndOp()
      modifies this`ended, this`logged
      ensures ended == old(ended) + [old(logged)] && logged == {}
    {
      ended, logged := ended + [logged], {};
    }

    method LogWrite(b: nat)
      modifies this`logged, this`late
      ensures logged == old(logged) + {b} && |old(logged)| <= |logged| <= |old(logged)| + 1
      ensures late <==> old(late) || |old(logged)| >= MAXOPBLOCKS
    {
      late := late || |logged| >= MAXOPBLOCKS;
      CardinalityUp(logged, {b});
      logged := logged + {b};
    }

    /** The lowest free block, zeroed; 0 when the disk is full. */
    method Balloc() returns (b: Word)
      requires |data| == |bitmap| < 0x1_0000_0000 && 0 < |bitmap| && bitmap[0]
      requires meta <= |bitmap| && forall x :: 0 <= x < meta ==> bitmap[x]
      modifies this`bitmap, this`data, this`logged, this`late
      ensures b == 0 ==> unchanged(this) && forall x :: 0 <= x < |bitmap| ==> bitmap[x]
      ensures b != 0 ==>
        && b < |old(bitmap)| && !old(bitmap)[b] && (forall x :: 0 <= x < b ==> old(bitmap)[x])
        && bitmap == old(bitmap)[b := true] && data == old(data)[b := ZeroBlock()]
        && logged == old(logged) + {BBlock(b), b}
      ensures |old(logged)| <= |logged| <= |old(logged)| + 2
      ensures |logged| < MAXOPBLOCKS ==> late == old(late)
      ensures Recorded(old(R()), old(logged))
    {
      hide Logs, BitsAt;
      LogsNone(R(), logged, inodestart, bmapstart);
      var group := 0;
      while group < |bitmap|
        invariant group % BPB == 0 && unchanged(this)
        invariant forall x :: 0 <= x < group && x < |bitmap| ==> bitmap[x]
      {
        var bi := 0;
        while bi < BPB && group + bi < |bitmap|
          invariant 0 <= bi <= BPB && unchanged(this)
          invariant forall x :: 0 <= x < group + bi && x < |bitmap| ==> bitmap[x]
        {
          if !bitmap[group + bi] {
            SameGroup(group, bi, bmapstart);
            LogsBit(R(), group + bi, true, logged, inodestart, bmapstart);
            bitmap := bitmap[group + bi := true];
            LogWrite(BBlock(group));
            ghost var r, between := R(), logged;
            LogsData(R(), group + bi, ZeroBlock(), logged, inodestart, bmapstart);
            data := data[group + bi := ZeroBlock()];
            LogWrite(group + bi);
            RecordedOn(old(R()), old(logged), r, between);
            return group + bi;
          }
          bi := bi + 1;
        }
        group := group + BPB;
      }
      return 0;
    }

    /** Freeing a block that is already free would panic. */
    method Bfree(b: nat)
      requires b < |bitmap| && bitmap[b]
      modifies this`bitmap, this`logged, this`late
      ensures bitmap == old(bitmap)[b := false] && logged == old(logged) + {BBlock(b)}
      ensures |old(logged)| <= |logged| && (late <==> old(late) || |old(logged)| >= MAXOPBLOCKS)
      ensures Recorded(old(R()), old(logged))
    {
      hide Logs;
      LogsBit(R(), b, false, logged, inodestart, bmapstart);
      bitmap := bitmap[b := false];
      LogWrite(BBlock(b));
    }

    // ---- the block map ----

    /** ip is locked and loaded, and the whole image with ip's fields in it is in order. */
    ghost predicate Ready(ip: Inode)
      reads this, ip
    {
      ip.inum < |dinodes| && ip.valid && ip.kind != 0 && Inv(View(ip))
    }

    /** bmap's treatment of addrs[k]: allocate the block unless it is there. */
    method GetRoot(ip: Inode, k: nat) returns (addr: Word)
      requires Ready(ip) && k <= NDIRECT
      modifies this`bitmap, this`data, this`owner, this`logged, this`late, ip`addrs
      ensures Ready(ip) && Extends(old(View(ip)), View(ip), ip.inum) && Quiet(old(View(ip)), View(ip))
      ensures addr == ip.addrs[k] && (old(ip.addrs[k]) != 0 || addr == 0 ==> unchanged(this) && unchanged(ip))
      ensures addr == 0 ==> forall x :: 0 <= x < |bitmap| ==> bitmap[x]
      ensures old(ip.addrs[k]) == 0 && addr != 0 ==>
        logged == old(logged) + {BBlock(addr), addr}
      ensures |old(logged)| <= |logged| <= |old(logged)| + 2
      ensures |logged| < MAXOPBLOCKS ==> late == old(late)
      ensures Recorded(old(R()), old(logged))
    {
      hide Owned, Mapped, ByteAt, Logs;
      LogsNone(R(), logged, inodestart, bmapstart);
      addr := ip.addrs[k];
      if addr == 0 {
        ghost var s := View(ip);
        OwnedShape(s);
        addr := Balloc();
        if addr != 0 {
          GiveRootKeeps(s, ip.inum, k, addr);
          ip.addrs := ip.addrs[k := addr];
          owner := owner[addr := Slot(ip.inum, k)];
          assert View(ip) == GiveRoot(s, ip.inum, k, addr);
        }
      }
    }

    ghost predicate IndirectLogged(ip: Inode)
      reads this, ip
    {
      ip.addrs[NDIRECT] != 0 && ip.addrs[NDIRECT] in logged
    }

    /** bmap's treatment of entry j of the indirect block. */
    method GetEntry(ip: Inode, j: nat) returns (addr: Word)
      requires Ready(ip) && j < NINDIRECT && ip.addrs[NDIRECT] != 0
      modifies this`bitmap, this`data, this`owner, this`logged, this`late
      ensures Ready(ip) && Extends(old(View(ip)), View(ip), ip.inum) && Quiet(old(View(ip)), View(ip))
      ensures addr == Addr(View(ip), ip.inum, NDIRECT + 1 + j)
      ensures old(Addr(View(ip), ip.inum, NDIRECT + 1 + j)) != 0 || addr == 0 ==> unchanged(this)
      ensures addr == 0 ==> forall x :: 0 <= x < |bitmap| ==> bitmap[x]
      ensures old(Addr(View(ip), ip.inum, NDIRECT + 1 + j)) == 0 && addr != 0 ==>
        logged == old(logged) + {BBlock(addr), addr} + {ip.addrs[NDIRECT]}
      ensures |old(logged)| <= |logged|
      ensures |logged| < MAXOPBLOCKS ==> late == old(late)
      ensures Recorded(old(R()), old(logged))
    {
      hide Owned, Mapped, ByteAt, PutWord, GetWord, Logs;
      LogsNone(R(), logged, inodestart, bmapstart);
      ghost var s := View(ip);
      var root := ip.addrs[NDIRECT];
      SlotOwner(s, ip.inum, NDIRECT);
      addr := GetWord(data[root], j);
      if addr == 0 {
        OwnedShape(s);
        addr := Balloc();
        if addr != 0 {
          GiveEntryKeeps(s, ip.inum, j, addr);
          ghost var r, between := R(), logged;
          LogsData(R(), root, PutWord(data[root], j, addr), logged, inodestart, bmapstart);
          data := data[root := PutWord(data[root], j, addr)];
          owner := owner[addr := Slot(ip.inum, NDIRECT + 1 + j)];
          LogWrite(root);
          RecordedOn(old(R()), old(logged), r, between);
          assert View(ip) == GiveEntry(s, ip.inum, j, addr);
        }
      }
    }

    /** bmap beyond the direct blocks: the indirect block, then its entry. */
    method MapIndirect(ip: Inode, j: nat) returns (addr: Word)
      requires Ready(ip) && j < NINDIRECT
      modifies this`bitmap, this`data, this`owner, this`logged, this`late, ip`addrs
      ensures Ready(ip) && Extends(old(View(ip)), View(ip), ip.inum) && Quiet(old(View(ip)), View(ip))
      ensures addr != 0 ==> Addr(View(ip), ip.inum, NDIRECT + 1 + j) == addr
      ensures addr == 0 ==> forall x :: 0 <= x < |bitmap| ==> bitmap[x]
      ensures old(Addr(View(ip), ip.inum, NDIRECT + 1 + j)) != 0 ==>
        addr == old(Addr(View(ip), ip.inum, NDIRECT + 1 + j)) && unchanged(this) && unchanged(ip)
      ensures old(logged) <= logged && |old(logged)| <= |logged|
      ensures var extra := if old(IndirectLogged(ip)) then 0 else 2;
              if addr == 0 then |logged| <= |old(logged)| + extra else |logged + {addr}| <= |old(logged)| + 2 + extra
      ensures addr != 0 && old(Addr(View(ip), ip.inum, NDIRECT + 1 + j)) == 0 ==> IndirectLogged(ip)
      ensures |logged| < MAXOPBLOCKS ==> late == old(late)
      ensures Recorded(old(R()), old(logged))
    {
      hide Inv, ByteAt, Extends, Wrote, GetWord, Logs;
      ghost var s := View(ip);
      var root := GetRoot(ip, NDIRECT);
      if root == 0 {
        return 0;
      }
      ghost var mid, t, r := logged, View(ip), R();
      addr := GetEntry(ip, j);
      RecordedOn(old(R()), old(logged), r, mid);
      ExtendsTrans(s, t, View(ip), ip.inum);
      WroteQuiet(s, t, View(ip), 0, 0, []);
      CountEntry(mid, BBlock(addr), addr, root);
      CardinalityUp(logged, {addr});
    }

    /** The block of file index bn, allocated if it is not there yet; 0 when the disk is full. What is
        mapped already is returned without any change. */
    method Bmap(ip: Inode, bn: nat) returns (addr: Word)
      requires Ready(ip) && bn < MAXFILE
      modifies this`bitmap, this`data, this`owner, this`logged, this`late, ip`addrs
      ensures Ready(ip) && Extends(old(View(ip)), View(ip), ip.inum) && Quiet(old(View(ip)), View(ip))
      ensures addr != 0 ==> Addr(View(ip), ip.inum, SlotOf(bn)) == addr
      ensures addr == 0 ==> forall x :: 0 <= x < |bitmap| ==> bitmap[x]
      ensures old(Addr(View(ip), ip.inum, SlotOf(bn))) != 0 ==>
        addr == old(Addr(View(ip), ip.inum, SlotOf(bn))) && unchanged(this) && unchanged(ip)
      ensures old(logged) <= logged && |old(logged)| <= |logged|
      ensures var extra := if bn >= NDIRECT && !old(IndirectLogged(ip)) then 2 else 0;
              if addr == 0 then |logged| <= |old(logged)| + extra else |logged + {addr}| <= |old(logged)| + 2 + extra
      ensures addr != 0 && bn >= NDIRECT && old(Addr(View(ip), ip.inum, SlotOf(bn))) == 0 ==> IndirectLogged(ip)
      ensures |logged| < MAXOPBLOCKS ==> late == old(late)
      ensures Recorded(old(R()), old(logged))
    {
      hide Inv, Extends, Wrote, Logs;
      if bn < NDIRECT {
        addr := GetRoot(ip, bn);
        CountRoot(old(logged), BBlock(addr), addr);
        return;
      }
      addr := MapIndirect(ip, bn - NDIRECT);
    }

    // ---- writing ----

    /** One turn of writei's loop: chunk goes to offset off, inside one block. A copy that fails has
        already moved the first torn bytes, and that block is not logged. */
    method WriteStep(ip: Inode, off: nat, chunk: seq<Byte>, ok: bool, torn: nat) returns (e: Turn)
      requires Ready(ip) && off < MAXFILE * BSIZE && off % BSIZE + |chunk| <= BSIZE && torn <= |chunk|
      modifies this`bitmap, this`data, this`owner, this`logged, this`late, ip`addrs
      ensures Ready(ip) && Extends(old(View(ip)), View(ip), ip.inum)
      ensures Wrote(old(View(ip)), View(ip), ip.inum, off, match e case Done => chunk case Fault => chunk[..torn] case Full => [])
      ensures e.Done? ==> ok && Addr(View(ip), ip.inum, SlotOf(off / BSIZE)) != 0
      ensures e.Fault? ==> !ok
      ensures e.Full? ==> forall x :: 0 <= x < |bitmap| ==> bitmap[x]
      ensures old(IndirectLogged(ip)) ==> IndirectLogged(ip)
      ensures |logged| <= |old(logged)| + Cost(old(View(ip)), ip.inum, off / BSIZE, old(IndirectLogged(ip)))
      ensures e.Done? && Cost(old(View(ip)), ip.inum, off / BSIZE, old(IndirectLogged(ip))) == 4 ==> IndirectLogged(ip)
      ensures |logged| < MAXOPBLOCKS ==> late == old(late)
      ensures !e.Fault? ==> Recorded(old(R()), old(logged))
    {
      hide Owned, Mapped, ByteAt, Wrote, Extends, Logs;
      ghost var s := View(ip);
      ghost var k := SlotOf(off / BSIZE);
      var addr := Bmap(ip, off / BSIZE);
      CardinalityUp(logged, {addr});
      CardinalityUp(old(logged), {addr});
      ghost var t := View(ip);
      RootKept(s, t, ip.inum);
      if addr == 0 {
        WroteNone(s, t, ip.inum, off);
        return Full;
      }
      SlotOwner(t, ip.inum, k);
      var part := if ok then chunk else chunk[..torn];
      WriteChunkKeeps(t, ip.inum, off, part);
      ghost var r, between := R(), logged;
      LogsData(R(), addr, Overlay(data[addr], off % BSIZE, part), logged, inodestart, bmapstart);
      data := data[addr := Overlay(data[addr], off % BSIZE, part)];
      assert View(ip) == WriteChunk(t, ip.inum, off, part);
      WroteQuiet(s, t, View(ip), ip.inum, off, part);
      ExtendsTrans(s, t, View(ip), ip.inum);
      SlotKept(t, View(ip), ip.inum, k);
      if !ok {
        return Fault;
      }
      LogWrite(addr);
      RecordedOn(old(R()), old(logged), r, between);
      return Done;
    }

    /** The same turn, seen as the next piece of a longer write that began in image s. */
    method WriteNext(ip: Inode, ghost s: Image, src: seq<Byte>, start: nat, tot: nat, good: nat, torn: nat)
      returns (e: Turn, m: nat, ghost p: nat)
      requires Ready(ip) && ip.inum < |s.inodes| && Progress(s, View(ip), ip.inum, start, src, tot, tot)
      requires tot < |src| && start + |src| <= MAXFILE * BSIZE
      modifies this`bitmap, this`data, this`owner, this`logged, this`late, ip`addrs
      ensures Ready(ip) && 0 < m == Piece(start, |src|, tot)
      ensures Progress(s, View(ip), ip.inum, start, src, if e.Done? then tot + m else tot, tot + p)
      ensures e.Done? ==> p == m
      ensures good >= |src| ==> !e.Fault?
      ensures e.Full? ==> p == 0 && forall x :: 0 <= x < |bitmap| ==> bitmap[x]
      ensures old(IndirectLogged(ip)) ==> IndirectLogged(ip)
      ensures var c := Cost(old(View(ip)), ip.inum, (start + tot) / BSIZE, old(IndirectLogged(ip)));
              |logged| <= |old(logged)| + c && (e.Done? && c == 4 ==> IndirectLogged(ip))
      ensures |logged| < MAXOPBLOCKS ==> late == old(late)
      ensures !e.Fault? ==> Recorded(old(R()), old(logged))
    {
      hide Inv, Progress, Wrote, Extends, Cost, Addr, Logs;
      ghost var t := View(ip);
      var off := start + tot;
      m := if |src| - tot < BSIZE - off % BSIZE then |src| - tot else BSIZE - off % BSIZE;
      var part := if torn < m then torn else m;
      e := WriteStep(ip, off, src[tot..tot + m], tot + m <= good, part);
      p := match e case Done => m case Fault => part case Full => 0;
      Slices(src, tot, m, part);
      ProgressMore(s, t, View(ip), ip.inum, start, src, tot, p);
      if e.Done? {
        ProgressDone(s, View(ip), ip.inum, start, src, tot, m);
      }
    }

    /** writei's loop. The first good bytes of src can be copied in; p bytes beyond the tot counted
        ones reached the cache before a copy failed. */
    method WriteLoop(ip: Inode, src: seq<Byte>, start: nat, good: nat, torn: nat) returns (tot: nat, ghost p: nat)
      requires Ready(ip) && start <= ip.size && start + |src| <= MAXFILE * BSIZE
      modifies this`bitmap, this`data, this`owner, this`logged, this`late, ip`addrs
      ensures Ready(ip) && Progress(old(View(ip)), View(ip), ip.inum, start, src, tot, tot + p)
      ensures good >= |src| ==> p == 0
      ensures good >= |src| && tot < |src| ==> forall x :: 0 <= x < |bitmap| ==> bitmap[x]
      ensures |src| <= CHUNK && old(logged) == {} ==> |logged| < MAXOPBLOCKS && late == old(late)
      ensures good >= |src| ==> Recorded(old(R()), old(logged))
    {
      hide Inv, Progress, Turns, Budget, Cost, Piece, Logs;
      LogsNone(R(), logged, inodestart, bmapstart);
      tot, p := 0, 0;
      ghost var s := View(ip);
      ghost var turns := 0;
      ProgressStart(s, ip.inum, start, src);
      FirstTurn(start, |src|);
      while tot < |src|
        invariant 0 <= tot <= |src| && p == 0 && Ready(ip)
        invariant Progress(s, View(ip), ip.inum, start, src, tot, tot)
        invariant Turns(start, |src|, tot, turns)
        invariant |logged| <= |old(logged)| + Budget(start, turns) + (if IndirectLogged(ip) then 2 else 0)
        invariant |src| <= CHUNK && old(logged) == {} ==> late == old(late)
        invariant Recorded(old(R()), old(logged))
      {
        ghost var r, between := R(), logged;
        NextTurn(start, |src|, tot, turns);
        CostBound(View(ip), ip.inum, start, |src|, tot, turns, IndirectLogged(ip));
        var e, m;
        e, m, p := WriteNext(ip, s, src, start, tot, good, torn);
        if !e.Fault? {
          RecordedOn(old(R()), old(logged), r, between);
        }
        if !e.Done? {
          return;
        }
        p, tot, turns := 0, tot + m, turns + 1;
      }
      TurnsBound(start, |src|, tot, turns);
    }

    /** Copies the in-memory inode to its disk block. */
    method Iupdate(ip: Inode)
      requires ip.inum < |dinodes|
      modifies this`dinodes, this`logged, this`late
      ensures dinodes == old(dinodes)[ip.inum := ip.Disk()] && logged == old(logged) + {IBlock(ip.inum)}
      ensures |old(logged)| <= |logged| <= |old(logged)| + 1
      ensures late <==> old(late) || |old(logged)| >= MAXOPBLOCKS
      ensures ip.valid ==> View(ip) == old(View(ip))
      ensures Recorded(old(R()), old(logged))
    {
      hide Logs;
      LogsInode(R(), ip.inum, ip.Disk(), logged, inodestart, bmapstart);
      dinodes := dinodes[ip.inum := Dinode(ip.kind, ip.major, ip.minor, ip.nlink, ip.size, ip.addrs)];
      LogWrite(IBlock(ip.inum));
    }

    /** Writes src at offset off; r counts the bytes that were logged. Either the request is refused
        and nothing changes, or the file becomes the old one with those bytes spliced in. */
    method Writei(ip: Inode, src: seq<Byte>, off: Word, good: nat, torn: nat) returns (r: int, ghost p: nat)
      requires Ready(ip) && |src| < 0x1_0000_0000
      modifies this`bitmap, this`data, this`dinodes, this`owner, this`logged, this`late, ip`addrs, ip`size
      ensures Ready(ip)
      ensures r == -1 <==> off > old(ip.size) || off + |src| > MAXFILE * BSIZE
      ensures r == -1 ==> p == 0 && unchanged(this) && unchanged(ip)
      ensures r != -1 ==> Grew(old(View(ip)), View(ip), ip.inum)
      ensures r != -1 ==> 0 <= r && r + p <= |src| && dinodes == View(ip).inodes && old(ip.size) <= MAXFILE * BSIZE
      ensures OthersKept(old(View(ip)), View(ip), ip.inum)
      ensures r != -1 ==> FileWritten(old(View(ip)), View(ip), ip.inum, off, src[..r + p], r)
      ensures good >= |src| ==> p == 0 && (-1 < r < |src| ==> AllUsed(View(ip)))
      ensures |src| <= CHUNK && old(logged) == {} ==> |logged| <= MAXOPBLOCKS && late == old(late)
      ensures good >= |src| ==> Recorded(old(R()), old(logged))
    {
      hide Owned, Mapped, Progress, Content, Splice, FileWritten, OthersKept, Extends, Logs;
      LogsNone(R(), logged, inodestart, bmapstart);
      ghost var s := View(ip);
      OwnedShape(s);
      OthersRefl(s, ip.inum);
      if off > ip.size || Add32(off, |src|) < off {
        return -1, 0;
      }
      if Add32(off, |src|) > MAXFILE * BSIZE {
        return -1, 0;
      }
      var tot;
      tot, p := WriteLoop(ip, src, off, good, torn);
      ghost var t := View(ip);
      ProgressBasics(s, t, ip.inum, off, src, tot, tot + p);
      FinishWrite(s, t, ip.inum, off, src, tot, tot + p);
      if off + tot > ip.size {
        ip.size := off + tot;
      }
      assert View(ip) == Resize(t, ip.inum, NewSize(old(ip.size), off + tot));
      assert Resize(View(ip), ip.inum, s.inodes[ip.inum].size) == t;
      ghost var r', between := R(), logged;
      Iupdate(ip);
      if good >= |src| {
        RecordedOn(old(R()), old(logged), r', between);
      }
      return tot, p;
    }

    // ---- reading ----

    /** Reads up to n bytes at offset off; only the first good of them can be copied out, and they are when
        the copy of a later one fails. Nothing is allocated, though bmap is what looks blocks up. */
    method Readi(ip: Inode, off: Word, n: Word, good: nat) returns (r: int, dst: seq<Byte>)
      requires Ready(ip)
      modifies this`bitmap, this`data, this`owner, this`logged, this`late, ip`addrs
      ensures unchanged(this) && unchanged(ip) && ip.size <= MAXFILE * BSIZE
      ensures off > ip.size || off + n >= 0x1_0000_0000 ==> r == 0 && dst == []
      ensures off <= ip.size && off + n < 0x1_0000_0000 ==>
        var end := if off + n > ip.size then ip.size else off + n;
        && r == (if good < end - off then -1 else end - off)
        && dst == Content(View(ip), ip.inum)[off..end][..Min(good, end - off)]
    {
      hide Owned, Mapped, Content;
      SizeOk(View(ip), ip.inum);
      if off > ip.size || Add32(off, n) < off {
        return 0, [];
      }
      var want := if Add32(off, n) > ip.size then ip.size - off else n;
      r, dst := ReadLoop(ip, off, want, good);
    }

    method ReadLoop(ip: Inode, off: nat, want: nat, good: nat) returns (r: int, dst: seq<Byte>)
      requires Ready(ip) && off + want <= ip.size <= MAXFILE * BSIZE
      modifies this`bitmap, this`data, this`owner, this`logged, this`late, ip`addrs
      ensures unchanged(this) && unchanged(ip)
      ensures r == (if good < want then -1 else want) && dst == Content(View(ip), ip.inum)[off..off + want][..Min(good, want)]
    {
      hide Inv, Content, Addr, Extends, Wrote, Logs;
      ghost var s := View(ip);
      ghost var content := Content(s, ip.inum)[off..off + want];
      var tot := 0;
      dst := [];
      while tot < want
        invariant 0 <= tot <= want && tot <= good && unchanged(this) && unchanged(ip)
        invariant dst == content[..tot]
      {
        var at := off + tot;
        var m := if want - tot < BSIZE - at % BSIZE then want - tot else BSIZE - at % BSIZE;
        var k := Min(m, good - tot);
        var part := ReadPart(ip, at, k);
        dst := dst + part;
        Pieces(Content(s, ip.inum), off, want, tot, k);
        if k < m {
          return -1, dst;
        }
        tot := tot + m;
      }
      return tot, dst;
    }

    /** One turn of readi's loop: the first m bytes at offset at, all in one block. */
    method ReadPart(ip: Inode, at: nat, m: nat) returns (bs: seq<Byte>)
      requires Ready(ip) && at % BSIZE + m <= BSIZE && at + m <= ip.size <= MAXFILE * BSIZE && at < ip.size
      modifies this`bitmap, this`data, this`owner, this`logged, this`late, ip`addrs
      ensures unchanged(this) && unchanged(ip) && bs == Content(View(ip), ip.inum)[at..at + m]
    {
      hide Inv, Content, Addr, Extends, Wrote, Logs;
      ReadPiece(View(ip), ip.inum, at, 1);
      var addr := Bmap(ip, at / BSIZE);
      bs := [];
      if addr != 0 && m > 0 {
        ReadPiece(View(ip), ip.inum, at, m);
        bs := data[addr][at % BSIZE..at % BSIZE + m];
      }
    }

    // ---- truncation ----

    /** One turn over the direct blocks: block k is freed, if it is there. */
    method FreeSlot(ip: Inode, k: nat, ghost s: Image, ghost was: bool, ghost before: set<nat>)
      requires k < NDIRECT && ip.inum < |dinodes| && ip.valid
      requires Owned(s) && ip.inum < |s.inodes| && Owned(View(ip)) && Cut(s, View(ip), ip.inum, k)
      requires Gained(was, before, BitsBelow(s, ip.inum, k, bmapstart), late, logged)
      modifies this`bitmap, this`owner, this`logged, this`late, ip`addrs
      ensures Owned(View(ip)) && Cut(s, View(ip), ip.inum, k + 1)
      ensures Gained(was, before, BitsBelow(s, ip.inum, k + 1, bmapstart), late, logged)
      ensures |bitmap| == |old(bitmap)| && ip.addrs == old(ip.addrs)[k := 0] && Recorded(old(R()), old(logged))
    {
      hide Owned, Cut, BitsBelow, Gained, Rank, Logs;
      LogsNone(R(), logged, inodestart, bmapstart);
      ghost var t := View(ip);
      if ip.addrs[k] != 0 {
        SlotTaken(s, t, ip.inum, k, bmapstart);
        owner := owner[ip.addrs[k] := Free];
        ghost var late', all := late, logged;
        Bfree(ip.addrs[k]);
        GainedMore(was, before, BitsBelow(s, ip.inum, k, bmapstart), late', all, BBlock(ip.addrs[k]), late);
        ip.addrs := ip.addrs[k := 0];
        assert View(ip) == TakeRoot(t, ip.inum, k);
      } else {
        SlotSkipped(s, t, ip.inum, k, bmapstart);
      }
    }

    method FreeDirect(ip: Inode)
      requires Ready(ip)
      modifies this`bitmap, this`owner, this`logged, this`late, ip`addrs
      ensures Owned(View(ip)) && Cut(old(View(ip)), View(ip), ip.inum, NDIRECT)
      ensures |bitmap| == |old(bitmap)|
      ensures ip.addrs == NoAddrs()[NDIRECT := old(ip.addrs[NDIRECT])]
      ensures Gained(old(late), old(logged), BitsBelow(old(View(ip)), ip.inum, NDIRECT, bmapstart), late, logged)
      ensures Recorded(old(R()), old(logged))
    {
      hide Owned, Mapped, Cut, BitsBelow, Gained, Logs;
      LogsNone(R(), logged, inodestart, bmapstart);
      ghost var s := View(ip);
      BitsNone(s, ip.inum, bmapstart);
      GainedNone(late, logged);
      CutNothing(s, ip.inum);
      for i := 0 to NDIRECT
        invariant |bitmap| == |s.bitmap| && |dinodes| == |s.inodes|
        invariant Owned(View(ip)) && Cut(s, View(ip), ip.inum, i)
        invariant Gained(old(late), old(logged), BitsBelow(s, ip.inum, i, bmapstart), late, logged)
        invariant forall k :: 0 <= k < i ==> ip.addrs[k] == 0
        invariant forall k :: i <= k <= NDIRECT ==> ip.addrs[k] == old(ip.addrs[k])
        invariant Recorded(old(R()), old(logged))
      {
        ghost var r, between := R(), logged;
        FreeSlot(ip, i, s, old(late), old(logged));
        RecordedOn(old(R()), old(logged), r, between);
      }
      assert ip.addrs == NoAddrs()[NDIRECT := old(ip.addrs[NDIRECT])];
    }

    /** g is the disk with the first j entries of the indirect block crossed out. The block itself is not
        changed. */
    ghost predicate Crossed(ip: Inode, g: Image, j: nat)
      reads this, ip
    {
      && ip.inum < |dinodes| && ip.valid && 0 < ip.addrs[NDIRECT] < |g.data| == |data| && j <= NINDIRECT
      && g == View(ip).(data := data[ip.addrs[NDIRECT] := g.data[ip.addrs[NDIRECT]]])
      && forall j' :: 0 <= j' < NINDIRECT ==>
           GetWord(g.data[ip.addrs[NDIRECT]], j') == if j' < j then 0 else GetWord(data[ip.addrs[NDIRECT]], j')
    }

    /** One turn over the entries of the indirect block. */
    method FreeEntry(ip: Inode, j: nat, ghost s: Image, ghost g: Image, ghost was: bool, ghost before: set<nat>)
      returns (ghost g': Image)
      requires j < NINDIRECT && Crossed(ip, g, j)
      requires Owned(s) && ip.inum < |s.inodes| && Owned(g) && Cut(s, g, ip.inum, NDIRECT + j)
      requires Gained(was, before, BitsBelow(s, ip.inum, NDIRECT + j, bmapstart), late, logged)
      modifies this`bitmap, this`owner, this`logged, this`late
      ensures Crossed(ip, g', j + 1) && Owned(g') && Cut(s, g', ip.inum, NDIRECT + j + 1) && |bitmap| == |old(bitmap)|
      ensures Gained(was, before, BitsBelow(s, ip.inum, NDIRECT + j + 1, bmapstart), late, logged)
      ensures Recorded(old(R()), old(logged))
    {
      hide Owned, Cut, GetWord, PutWord, BitsBelow, Gained, Rank, Logs;
      LogsNone(R(), logged, inodestart, bmapstart);
      var root := ip.addrs[NDIRECT];
      var b := GetWord(data[root], j);
      assert Addr(g, ip.inum, NDIRECT + 1 + j) == b;
      g' := g;
      if b != 0 {
        EntryTaken(s, g, ip.inum, j, bmapstart);
        g' := TakeEntry(g, ip.inum, j);
        CrossOut(g.data[root], j);
        owner := owner[b := Free];
        ghost var late', all := late, logged;
        Bfree(b);
        GainedMore(was, before, BitsBelow(s, ip.inum, NDIRECT + j, bmapstart), late', all, BBlock(b), late);
      } else {
        EntrySkipped(s, g, ip.inum, j, bmapstart);
      }
    }

    /** The blocks of the indirect block's entries. */
    method FreeEntries(ip: Inode, ghost s: Image, ghost was: bool, ghost before: set<nat>) returns (ghost g: Image)
      requires ip.inum < |dinodes| && ip.valid && ip.addrs[NDIRECT] != 0
      requires Owned(s) && ip.inum < |s.inodes| && Owned(View(ip)) && Cut(s, View(ip), ip.inum, NDIRECT)
      requires Gained(was, before, BitsBelow(s, ip.inum, NDIRECT, bmapstart), late, logged)
      modifies this`bitmap, this`owner, this`logged, this`late
      ensures |bitmap| == |old(bitmap)| && Crossed(ip, g, NINDIRECT)
      ensures Gained(was, before, BitsBelow(s, ip.inum, SLOTS - 1, bmapstart), late, logged)
      ensures Owned(g) && Cut(s, g, ip.inum, SLOTS - 1) && Recorded(old(R()), old(logged))
    {
      hide Owned, Cut, GetWord, BitsBelow, Gained, Logs;
      LogsNone(R(), logged, inodestart, bmapstart);
      g := View(ip);
      SlotOwner(g, ip.inum, NDIRECT);
      assert data == data[ip.addrs[NDIRECT] := data[ip.addrs[NDIRECT]]];
      for j := 0 to NINDIRECT
        invariant |bitmap| == |old(bitmap)| && Crossed(ip, g, j)
        invariant Owned(g) && Cut(s, g, ip.inum, NDIRECT + j)
        invariant Gained(was, before, BitsBelow(s, ip.inum, NDIRECT + j, bmapstart), late, logged)
        invariant Recorded(old(R()), old(logged))
      {
        ghost var r, between := R(), logged;
        g := FreeEntry(ip, j, s, g, was, before);
        RecordedOn(old(R()), old(logged), r, between);
      }
    }

    method FreeIndirect(ip: Inode, ghost s: Image, ghost was: bool, ghost before: set<nat>)
      requires ip.inum < |dinodes| && ip.valid
      requires Owned(s) && ip.inum < |s.inodes| && Owned(View(ip)) && Cut(s, View(ip), ip.inum, NDIRECT)
      requires Gained(was, before, BitsBelow(s, ip.inum, NDIRECT, bmapstart), late, logged)
      modifies this`bitmap, this`owner, this`logged, this`late, ip`addrs
      ensures Owned(View(ip)) && Cut(s, View(ip), ip.inum, SLOTS)
      ensures |bitmap| == |old(bitmap)|
      ensures Gained(was, before, BitsBelow(s, ip.inum, SLOTS, bmapstart), late, logged)
      ensures ip.addrs == old(ip.addrs)[NDIRECT := 0] && Recorded(old(R()), old(logged))
    {
      hide Owned, Cut, GetWord, BitsBelow, Gained, Logs;
      LogsNone(R(), logged, inodestart, bmapstart);
      var root := ip.addrs[NDIRECT];
      if root == 0 {
        BitsRest(s, View(ip), ip.inum, bmapstart);
        CutRest(s, View(ip), ip.inum);
        return;
      }
      ghost var g := FreeEntries(ip, s, was, before);
      RootTaken(s, g, ip.inum, data[root], bmapstart);
      owner := owner[root := Free];
      ghost var late', all, r := late, logged, R();
      Bfree(root);
      RecordedOn(old(R()), old(logged), r, all);
      GainedMore(was, before, BitsBelow(s, ip.inum, SLOTS - 1, bmapstart), late', all, BBlock(root), late);
      ip.addrs := ip.addrs[NDIRECT := 0];
      assert View(ip) == PutData(TakeRoot(g, ip.inum, NDIRECT), root, data[root]);
    }

    /** Discards a file's contents: every block it owned becomes free, and no other file changes. The
        transaction gains the bitmap blocks of the blocks freed and the inode's block, and the write of the
        inode, which comes last, is the one that may be late. */
    method Itrunc(ip: Inode)
      requires Ready(ip)
      modifies this`bitmap, this`dinodes, this`owner, this`logged, this`late, ip`addrs, ip`size
      ensures Ready(ip) && dinodes == View(ip).inodes
      ensures Truncated(old(View(ip)), View(ip), ip.inum) && OthersKept(old(View(ip)), View(ip), ip.inum)
      ensures logged == old(logged) + {IBlock(ip.inum)} + BitmapBlocks(old(View(ip)), ip.inum, bmapstart)
      ensures late <==> old(late) || |old(logged) + BitmapBlocks(old(View(ip)), ip.inum, bmapstart)| >= MAXOPBLOCKS
      ensures Recorded(old(R()), old(logged))
    {
      hide Owned, Mapped, Cut, OthersKept, BitsBelow, BitmapBlocks, Logs;
      ghost var s := View(ip);
      FreeDirect(ip);
      ghost var r, between := R(), logged;
      FreeIndirect(ip, s, old(late), old(logged));
      RecordedOn(old(R()), old(logged), r, between);
      r, between := R(), logged;
      BitsAll(s, ip.inum, bmapstart);
      ghost var t := View(ip);
      assert ip.addrs == NoAddrs();
      CutAll(s, t, ip.inum);
      ip.size := 0;
      assert View(ip) == Resize(t, ip.inum, 0);
      Iupdate(ip);
      RecordedOn(old(R()), old(logged), r, between);
    }

    // ---- the inode table on disk ----

    /** The disk as it is, when no in-memory inode differs from its disk copy. */
    ghost function Base(): (s: Image)
      reads this
    {
      Image(meta, bitmap, data, dinodes, owner)
    }

    /** The first free inode becomes an empty file of the given type; 0 if there is none. */
    method Ialloc(kind: Short) returns (inum: nat)
      requires Inv(Base()) && kind != 0
      modifies this`dinodes, this`logged, this`late
      ensures Inv(Base())
      ensures inum == 0 ==> unchanged(this) && forall i :: 1 <= i < |dinodes| ==> dinodes[i].kind != 0
      ensures inum != 0 ==>
        && inum < |old(dinodes)| && old(dinodes)[inum].kind == 0 && (forall i :: 1 <= i < inum ==> old(dinodes)[i].kind != 0)
        && dinodes == old(dinodes)[inum := Dinode(kind, 0, 0, 0, 0, NoAddrs())] && logged == old(logged) + {IBlock(inum)}
      ensures Recorded(old(R()), old(logged))
    {
      hide Owned, Mapped, Logs;
      LogsNone(R(), logged, inodestart, bmapstart);
      OwnedShape(Base());
      inum := 1;
      while inum < |dinodes|
        invariant 1 <= inum && unchanged(this)
        invariant forall i :: 1 <= i < inum && i < |dinodes| ==> dinodes[i].kind != 0
      {
        if dinodes[inum].kind == 0 {
          NewInode(Base(), inum, Dinode(kind, 0, 0, 0, 0, NoAddrs()));
          LogsInode(R(), inum, Dinode(kind, 0, 0, 0, 0, NoAddrs()), logged, inodestart, bmapstart);
          dinodes := dinodes[inum := Dinode(kind, 0, 0, 0, 0, NoAddrs())];
          LogWrite(IBlock(inum));
          return;
        }
        inum := inum + 1;
      }
      return 0;
    }

    /** Loads an inode unless that is done already; one that is free would panic. */
    method Ilock(ip: Inode)
      requires ip.inum < |dinodes| && Inv(View(ip)) && View(ip).inodes[ip.inum].kind != 0
      modifies ip
      ensures Ready(ip) && View(ip) == old(View(ip)) && ip.ref == old(ip.ref) && (old(ip.valid) ==> unchanged(ip))
    {
      if ip.valid {
        return;
      }
      var d := dinodes[ip.inum];
      ip.kind, ip.major, ip.minor, ip.nlink, ip.size, ip.addrs := d.kind, d.major, d.minor, d.nlink, d.size, d.addrs;
      ip.valid := true;
      assert dinodes[ip.inum := ip.Disk()] == dinodes;
    }

    /** Drops a reference. The last one to a file without links frees its blocks and the inode, which it
        writes once more after the truncation. */
    method Iput(ip: Inode)
      requires Inv(Base()) && ip.inum < |dinodes| && View(ip) == Base() && (ip.valid ==> ip.kind != 0)
      modifies this`bitmap, this`dinodes, this`owner, this`logged, this`late, ip
      ensures Inv(Base()) && ip.inum < |dinodes| && View(ip) == Base() && ip.ref == old(ip.ref) - 1
      ensures !(old(ip.ref) == 1 && old(ip.valid) && old(ip.nlink) == 0) ==> unchanged(this)
      ensures old(ip.ref) == 1 && old(ip.valid) && old(ip.nlink) == 0 ==>
        && !ip.valid && dinodes[ip.inum].kind == 0 && Empty(dinodes[ip.inum])
        && (forall b :: 0 <= b < |bitmap| && b < |old(bitmap)| && b < |old(owner)| ==>
              bitmap[b] == (old(bitmap)[b] && !(old(owner)[b].Slot? && old(owner)[b].inum == ip.inum)))
        && OthersKept(old(Base()), Base(), ip.inum)
        && logged == old(logged) + {IBlock(ip.inum)} + BitmapBlocks(old(Base()), ip.inum, bmapstart)
        && (late <==> (old(late)
                       || |old(logged) + BitmapBlocks(old(Base()), ip.inum, bmapstart) + {IBlock(ip.inum)}| >= MAXOPBLOCKS))
      ensures Recorded(old(R()), old(logged))
    {
      hide Owned, Mapped, OthersKept, BitmapBlocks, Logs;
      LogsNone(R(), logged, inodestart, bmapstart);
      ghost var s := Base();
      if ip.ref == 1 && ip.valid && ip.nlink == 0 {
        Itrunc(ip);
        ghost var t := Base();
        assert t.inodes[ip.inum] == ip.Disk();
        ip.kind := 0;
        ghost var r, between := R(), logged;
        TwoUpdates(old(logged), BitmapBlocks(s, ip.inum, bmapstart), IBlock(ip.inum));
        Iupdate(ip);
        RecordedOn(old(R()), old(logged), r, between);
        FreeInode(s, t, ip.inum, ip.Disk());
        assert Base() == t.(inodes := t.inodes[ip.inum := ip.Disk()]);
        ip.valid := false;
      }
      ip.ref := ip.ref - 1;
    }

    // ---- whole runs ----

    method Do(op: Op) returns (res: Result)
      requires Inv(Base()) && Callable(op, |dinodes|) && dinodes[op.i].kind != 0
      modifies this
      ensures Inv(Base()) && |dinodes| == |old(dinodes)| && ImageStep(old(Base()), op, res, Base())
      ensures forall i :: 0 <= i < |dinodes| ==> dinodes[i].kind == old(dinodes[i].kind)
    {
      hide Owned, Mapped, Content, Files, FileWritten, OthersKept, Truncated, Grew, AllUsed;
      ghost var s := Base();
      OwnedShape(s);
      var ip := new Inode(op.i);
      Ilock(ip);
      match op
      case Write(i, off, bs) =>
        var r;
        ghost var p;
        r, p := Writei(ip, bs, off, |bs|, 0);
        assert Base() == View(ip);
        OwnedShape(Base());
        AfterWrite(s, Base(), i, off, bs, r);
        res := Count(r);
      case Read(i, off, n) =>
        var r, dst := Readi(ip, off, n, n);
        FilesAt(s, i);
        res := Bytes(dst);
      case Trunc(i) =>
        Itrunc(ip);
        assert Base() == View(ip);
        OwnedShape(Base());
        FilesTruncated(s, Base(), i);
        TruncatedKinds(s, Base(), i);
        res := Ok;
    }

    /** Any sequence of reads, writes and truncations behaves as on flat byte arrays, and leaves the
        blocks in order. ss are the disks it goes through. */
    method Run(ops: seq<Op>) returns (res: seq<Result>, ghost ss: seq<Image>)
      requires Inv(Base())
      requires forall o :: 0 <= o < |ops| ==> Callable(ops[o], |dinodes|) && dinodes[ops[o].i].kind != 0
      modifies this
      ensures ImageRun(ss, ops, res) && ss[0] == old(Base()) && ss[|ops|] == Base()
    {
      hide Inv, ImageStep;
      res, ss := [], [Base()];
      for o := 0 to |ops|
        invariant Inv(Base()) && |dinodes| == |old(dinodes)| && |res| == o
        invariant forall i :: 0 <= i < |dinodes| ==> dinodes[i].kind == old(dinodes[i].kind)
        invariant ImageRun(ss, ops[..o], res) && ss[0] == old(Base()) && ss[o] == Base()
      {
        var r := Do(ops[o]);
        res, ss := res + [r], ss + [Base()];
      }
      assert ops[..|ops|] == ops;
    }
  }

  lemma NewInode(s: Image, i: nat, d: Dinode)
    requires Inv(s) && i < |s.inodes| && Empty(s.inodes[i]) && Empty(d)
    ensures Inv(s.(inodes := s.inodes[i := d])) && OthersKept(s, s.(inodes := s.inodes[i := d]), i)
  {
    hide OthersKept;
    var t := s.(inodes := s.inodes[i := d]);
    forall i', k | 0 <= i' < |s.inodes| && 0 <= k < SLOTS
      ensures AddrOk(t, i', k) && Addr(t, i', k) == Addr(s, i', k)
    {
      assert AddrOk(s, i', k);
    }
    forall b | 0 <= b < |t.bitmap|
      ensures BlockOk(t, b)
    {
      assert BlockOk(s, b);
    }
    forall i' | 0 <= i' < |t.inodes|
      ensures MappedTo(t, i', t.inodes[i'].size)
    {
      assert MappedTo(s, i', s.inodes[i'].size);
    }
    SameOthers(s, t, i);
  }

  lemma FreeInode(s: Image, t: Image, i: nat, d: Dinode)
    requires Inv(t) && i < |s.inodes| && Truncated(s, t, i) && OthersKept(s, t, i) && Empty(d)
    ensures Inv(t.(inodes := t.inodes[i := d])) && OthersKept(s, t.(inodes := t.inodes[i := d]), i)
  {
    hide Inv, Content;
    NewInode(t, i, d);
  }

  lemma FilesAt(s: Image, i: nat)
    requires Shape(s) && i < |s.inodes|
    ensures Files(s)[i] == Content(s, i)
  {
  }

  lemma TruncatedKinds(s: Image, t: Image, i: nat)
    requires i < |s.inodes| && Truncated(s, t, i)
    ensures |t.inodes| == |s.inodes| && forall i' :: 0 <= i' < |s.inodes| ==> t.inodes[i'].kind == s.inodes[i'].kind
  {
  }

  /** writei's outcome is a step of the byte arrays. */
  lemma AfterWrite(s: Image, t: Image, i: nat, off: Word, bs: seq<Byte>, r: int)
    requires Shape(s) && Shape(t) && i < |s.inodes| && OthersKept(s, t, i)
    requires r == -1 <==> off > s.inodes[i].size || off + |bs| > MAXFILE * BSIZE
    requires r == -1 ==> t == s
    requires r != -1 ==> 0 <= r <= |bs| && FileWritten(s, t, i, off, bs[..r], r) && (r < |bs| ==> AllUsed(t))
    ensures FlatStep(Files(s), Write(i, off, bs), Count(r), AllUsed(t), Files(t))
    ensures |t.inodes| == |s.inodes| && forall i' :: 0 <= i' < |s.inodes| ==> t.inodes[i'].kind == s.inodes[i'].kind
  {
    hide Content, Files, Splice;
    FilesAt(s, i);
    if r != -1 {
      FilesWritten(s, t, i, off, bs, r);
    }
  }

  lemma TwoUpdates(before: set<nat>, bits: set<nat>, iblock: nat)
    ensures before + {iblock} + bits == before + bits + {iblock} && |before + bits| <= |before + bits + {iblock}|
    ensures before + {iblock} + bits + {iblock} == before + {iblock} + bits
  {
    CardinalityUp(before + bits, {iblock});
  }

  /** Since there were the blocks before, the transaction has gained the blocks bits, and no log_write came when
      it had MAXOPBLOCKS unless it has them now. */
  ghost predicate Gained(was: bool, before: set<nat>, bits: set<nat>, late: bool, logged: set<nat>) {
    && logged == before + bits
    && (was ==> late) && (late ==> was || |logged| >= MAXOPBLOCKS)
  }

  lemma GainedNone(was: bool, before: set<nat>)
    ensures Gained(was, before, {}, was, before)
  {
  }

  lemma GainedMore(was: bool, before: set<nat>, bits: set<nat>, late: bool, logged: set<nat>, x: nat, late': bool)
    requires Gained(was, before, bits, late, logged) && |logged| <= |logged + {x}|
    requires late' <==> late || |logged| >= MAXOPBLOCKS
    ensures Gained(was, before, bits + {x}, late', logged + {x})
  {
  }

  /** The bitmap blocks, from block first on, of the blocks in inode i's slots. */
  ghost function BitmapBlocks(s: Image, i: nat, first: nat): (r: set<nat>) {
    set b | 0 <= b < |s.owner| && s.owner[b].Slot? && s.owner[b].inum == i :: BitsAt(b, first)
  }

  /** Those of the slots that itrunc frees first. */
  ghost function BitsBelow(s: Image, i: nat, n: nat, first: nat): (r: set<nat>) {
    set b | 0 <= b < |s.owner| && s.owner[b].Slot? && s.owner[b].inum == i && Rank(s.owner[b].k) < n :: BitsAt(b, first)
  }

  lemma BitsNone(s: Image, i: nat, first: nat)
    ensures BitsBelow(s, i, 0, first) == {}
  {
  }

  lemma BitsAll(s: Image, i: nat, first: nat)
    requires Owned(s)
    ensures BitsBelow(s, i, SLOTS, first) == BitmapBlocks(s, i, first)
  {
    forall b | 0 <= b < |s.owner| && s.owner[b].Slot?
      ensures Rank(s.owner[b].k) < SLOTS
    {
      assert BlockOk(s, b);
    }
  }

  lemma BitsTake(s: Image, t: Image, i: nat, k: nat, first: nat)
    requires Owned(s) && i < |s.inodes| && k < SLOTS && Cut(s, t, i, Rank(k)) && Addr(t, i, k) != 0
    ensures BitsBelow(s, i, Rank(k) + 1, first) == BitsBelow(s, i, Rank(k), first) + {BitsAt(Addr(t, i, k), first)}
  {
    var a := Addr(t, i, k);
    assert a == Addr(s, i, k) && AddrOk(s, i, k);
    assert BitsAt(a, first) in BitsBelow(s, i, Rank(k) + 1, first);
    forall b | 0 <= b < |s.owner| && s.owner[b].Slot? && s.owner[b].inum == i && Rank(s.owner[b].k) == Rank(k)
      ensures b == a
    {
      assert BlockOk(s, b);
    }
  }

  lemma BitsSkip(s: Image, t: Image, i: nat, k: nat, first: nat)
    requires Owned(s) && i < |s.inodes| && k < SLOTS && Cut(s, t, i, Rank(k)) && Addr(t, i, k) == 0
    ensures BitsBelow(s, i, Rank(k) + 1, first) == BitsBelow(s, i, Rank(k), first)
  {
    forall b | 0 <= b < |s.owner| && s.owner[b].Slot? && s.owner[b].inum == i
      ensures Rank(s.owner[b].k) != Rank(k)
    {
      assert BlockOk(s, b);
    }
  }

  lemma SlotTaken(s: Image, t: Image, i: nat, k: nat, first: nat)
    requires Owned(s) && Owned(t) && i < |s.inodes| && i < |t.inodes| && k < NDIRECT && Cut(s, t, i, k)
    requires t.inodes[i].addrs[k] != 0
    ensures var b := t.inodes[i].addrs[k];
            && b < |t.bitmap| == |t.owner| && t.bitmap[b]
            && Owned(TakeRoot(t, i, k)) && Cut(s, TakeRoot(t, i, k), i, k + 1)
            && BitsBelow(s, i, k + 1, first) == BitsBelow(s, i, k, first) + {BitsAt(b, first)}
  {
    hide Owned, Cut, BitsBelow;
    SlotOwner(t, i, k);
    TakeRootOwned(t, i, k);
    CutTake(s, t, TakeRoot(t, i, k), i, k, t.inodes[i].addrs[k]);
    BitsTake(s, t, i, k, first);
  }

  lemma SlotSkipped(s: Image, t: Image, i: nat, k: nat, first: nat)
    requires Owned(s) && i < |s.inodes| && i < |t.inodes| && k < NDIRECT && Cut(s, t, i, k) && t.inodes[i].addrs[k] == 0
    ensures Cut(s, t, i, k + 1) && BitsBelow(s, i, k + 1, first) == BitsBelow(s, i, k, first)
  {
    hide Owned, Cut, BitsBelow;
    CutSkip(s, t, i, k);
    BitsSkip(s, t, i, k, first);
  }

  lemma EntryTaken(s: Image, g: Image, i: nat, j: nat, first: nat)
    requires Owned(s) && Owned(g) && i < |s.inodes| && i < |g.inodes| && j < NINDIRECT && Cut(s, g, i, NDIRECT + j)
    requires 0 < g.inodes[i].addrs[NDIRECT] < |g.data| && Addr(g, i, NDIRECT + 1 + j) != 0
    ensures var b := Addr(g, i, NDIRECT + 1 + j);
            && b < |g.bitmap| == |g.owner| && g.bitmap[b]
            && Owned(TakeEntry(g, i, j)) && Cut(s, TakeEntry(g, i, j), i, NDIRECT + j + 1)
            && BitsBelow(s, i, NDIRECT + j + 1, first) == BitsBelow(s, i, NDIRECT + j, first) + {BitsAt(b, first)}
  {
    hide Owned, Cut, BitsBelow, GetWord, PutWord, Addr;
    SlotOwner(g, i, NDIRECT + 1 + j);
    TakeEntryOwned(g, i, j);
    CutTake(s, g, TakeEntry(g, i, j), i, NDIRECT + 1 + j, Addr(g, i, NDIRECT + 1 + j));
    BitsTake(s, g, i, NDIRECT + 1 + j, first);
  }

  lemma RootTaken(s: Image, g: Image, i: nat, v: Block, first: nat)
    requires Owned(s) && Owned(g) && i < |s.inodes| && i < |g.inodes| && Cut(s, g, i, SLOTS - 1)
    requires 0 < g.inodes[i].addrs[NDIRECT] < |g.data|
    requires forall j :: 0 <= j < NINDIRECT ==> GetWord(g.data[g.inodes[i].addrs[NDIRECT]], j) == 0
    ensures var b := g.inodes[i].addrs[NDIRECT];
            && b < |g.bitmap| == |g.owner| && g.bitmap[b]
            && Owned(PutData(TakeRoot(g, i, NDIRECT), b, v)) && Cut(s, PutData(TakeRoot(g, i, NDIRECT), b, v), i, SLOTS)
            && BitsBelow(s, i, SLOTS, first) == BitsBelow(s, i, SLOTS - 1, first) + {BitsAt(b, first)}
  {
    hide Owned, Cut, BitsBelow, GetWord;
    var root := g.inodes[i].addrs[NDIRECT];
    SlotOwner(g, i, NDIRECT);
    TakeRootOwned(g, i, NDIRECT);
    CutTake(s, g, TakeRoot(g, i, NDIRECT), i, NDIRECT, root);
    CutData(s, TakeRoot(g, i, NDIRECT), i, SLOTS, root, v);
    BitsTake(s, g, i, NDIRECT, first);
  }

  lemma EntrySkipped(s: Image, g: Image, i: nat, j: nat, first: nat)
    requires Owned(s) && i < |s.inodes| && i < |g.inodes| && j < NINDIRECT && Cut(s, g, i, NDIRECT + j)
    requires Addr(g, i, NDIRECT + 1 + j) == 0
    ensures Cut(s, g, i, NDIRECT + j + 1) && BitsBelow(s, i, NDIRECT + j + 1, first) == BitsBelow(s, i, NDIRECT + j, first)
  {
    hide Owned, Cut, BitsBelow, GetWord, Addr;
    CutSkip(s, g, i, NDIRECT + 1 + j);
    BitsSkip(s, g, i, NDIRECT + 1 + j, first);
  }

  /** Without an indirect block the direct ones are all there is. */
  lemma BitsRest(s: Image, t: Image, i: nat, first: nat)
    requires Owned(s) && i < |s.inodes| && Cut(s, t, i, NDIRECT) && i < |t.inodes| && t.inodes[i].addrs[NDIRECT] == 0
    ensures BitsBelow(s, i, SLOTS, first) == BitsBelow(s, i, NDIRECT, first)
  {
    assert Addr(t, i, NDIRECT) == Addr(s, i, NDIRECT) == 0;
    forall b | 0 <= b < |s.owner| && s.owner[b].Slot? && s.owner[b].inum == i
      ensures Rank(s.owner[b].k) < NDIRECT
    {
      assert BlockOk(s, b);
    }
  }

  /** Where a transaction of its own is large enough: for itrunc on a disk of at most nine bitmap blocks, for
      iput on one of at most eight. */
  lemma TruncationFits(s: Image, i: nat, first: nat, iblock: nat)
    requires Owned(s)
    ensures |s.bitmap| <= 9 * BPB ==> |BitmapBlocks(s, i, first)| < MAXOPBLOCKS
    ensures |s.bitmap| <= 8 * BPB ==> |BitmapBlocks(s, i, first) + {iblock}| < MAXOPBLOCKS
  {
    hide BitmapBlocks, Owned;
    BitsFew(s, i, first);
    var eight := {first, first + 1, first + 2, first + 3, first + 4, first + 5, first + 6, first + 7};
    if |s.bitmap| <= 8 * BPB {
      assert BitmapBlocks(s, i, first) <= eight;
      SubsetSize(BitmapBlocks(s, i, first) + {iblock}, eight + {iblock});
      CardinalityUp(eight, {iblock});
      CardinalityUp(BitmapBlocks(s, i, first), {iblock});
    } else if |s.bitmap| <= 9 * BPB {
      assert BitmapBlocks(s, i, first) <= eight + {first + 8};
      SubsetSize(BitmapBlocks(s, i, first), eight + {first + 8});
      CardinalityUp(eight, {first + 8});
    }
  }

  lemma BitsFew(s: Image, i: nat, first: nat)
    requires Owned(s)
    ensures |s.bitmap| <= 9 * BPB ==> forall x :: x in BitmapBlocks(s, i, first) ==> first <= x <= first + 8
    ensures |s.bitmap| <= 8 * BPB ==> forall x :: x in BitmapBlocks(s, i, first) ==> first <= x <= first + 7
  {
    assert |s.bitmap| <= 9 * BPB ==> forall b :: 0 <= b < |s.owner| ==> b / BPB < 9;
    assert |s.bitmap| <= 8 * BPB ==> forall b :: 0 <= b < |s.owner| ==> b / BPB < 8;
  }

  /** An image with an unlinked file whose g blocks have g bitmap blocks. */
  function WideImage(g: nat): (s: Image)
    requires g <= 10
  {
    var n := 11 * BPB;
    Image(64, seq(n, b => b < 64 || Wide(g, b)), seq(n, b => ZeroBlock()),
          [Dinode(0, 0, 0, 0, 0, NoAddrs()), Dinode(2, 0, 0, 0, g * BSIZE, WideAddrs(g))],
          seq(n, b requires 0 <= b => if b < 64 then Meta else if Wide(g, b) then Slot(1, b / BPB - 1) else Free))
  }

  predicate Wide(g: nat, b: int) {
    b % BPB == 0 && 1 <= b / BPB <= g
  }

  function WideAddrs(g: nat): (a: Addrs)
    requires g <= 10
  {
    seq(NDIRECT + 1, k requires 0 <= k <= NDIRECT => if k < g then (k + 1) * BPB else 0)
  }

  lemma WideAddr(g: nat, i: nat, k: nat)
    requires g <= 10 && i < 2 && k < SLOTS
    ensures |WideImage(g).inodes| == 2 && Addr(WideImage(g), i, k) == if i == 1 && k < g then (k + 1) * BPB else 0
  {
  }

  lemma WideOwner(g: nat, b: nat)
    requires g <= 10 && b < 11 * BPB
    ensures var s := WideImage(g);
            && |s.owner| == |s.bitmap| == |s.data| == 11 * BPB && (s.bitmap[b] <==> !s.owner[b].Free?)
            && s.owner[b] == if b < 64 then Meta else if Wide(g, b) then Slot(1, b / BPB - 1) else Free
  {
  }

  lemma WideAddrOk(g: nat, i: nat, k: nat)
    requires g <= 10 && i < 2 && k < SLOTS
    ensures |WideImage(g).inodes| == 2 && AddrOk(WideImage(g), i, k)
  {
    hide Addr;
    WideAddr(g, i, k);
    WideOwner(g, (if k < g then k + 1 else 0) * BPB);
  }

  lemma WideBlockOk(g: nat, b: nat)
    requires g <= 10 && b < 11 * BPB
    ensures var s := WideImage(g); b < |s.owner| && b < |s.bitmap| && BlockOk(s, b)
  {
    hide Addr;
    WideOwner(g, b);
    if WideImage(g).owner[b].Slot? {
      WideAddr(g, 1, b / BPB - 1);
    }
  }

  lemma WideOwned(g: nat)
    requires g <= 10
    ensures Inv(WideImage(g))
  {
    hide Addr, AddrOk, BlockOk;
    var s := WideImage(g);
    forall i, k | 0 <= i < |s.inodes| && 0 <= k < SLOTS
      ensures AddrOk(s, i, k)
    {
      WideAddrOk(g, i, k);
    }
    forall b | 0 <= b < |s.bitmap|
      ensures BlockOk(s, b)
    {
      WideBlockOk(g, b);
    }
    forall bn | 0 <= bn < MAXFILE && bn * BSIZE < g * BSIZE
      ensures Addr(s, 1, SlotOf(bn)) != 0
    {
      WideAddr(g, 1, SlotOf(bn));
    }
    assert MappedTo(s, 1, s.inodes[1].size);
  }

  lemma WideInodes(g: nat)
    requires g <= 10
    ensures |WideImage(g).inodes| == 2 && WideImage(g).inodes[1].kind != 0 && WideImage(g).inodes[1].nlink == 0
  {
  }

  /** Block x of the bitmap, which starts at block 45, has a bit of the file's. */
  lemma WideBit(g: nat, x: nat)
    requires g <= 10
    ensures x in BitmapBlocks(WideImage(g), 1, 45) <==> 46 <= x < 46 + g
  {
    var s := WideImage(g);
    if 46 <= x < 46 + g {
      var b := (x - 45) * BPB;
      assert s.owner[b] == Slot(1, x - 46) && BitsAt(b, 45) == x;
    }
  }

  lemma WideBits()
    ensures |BitmapBlocks(WideImage(10), 1, 45)| == 10 && |BitmapBlocks(WideImage(10), 1, 45) + {InodeAt(1, 32)}| == 11
    ensures |BitmapBlocks(WideImage(9), 1, 45) + {InodeAt(1, 32)}| == 10
  {
    hide WideImage, BitmapBlocks;
    forall x
      ensures x in BitmapBlocks(WideImage(10), 1, 45) <==> 46 <= x < 56
      ensures x in BitmapBlocks(WideImage(9), 1, 45) <==> 46 <= x < 55
    {
      if x >= 0 {
        WideBit(10, x);
        WideBit(9, x);
      }
    }
    assert InodeAt(1, 32) == 32;
    TenBlocks(BitmapBlocks(WideImage(10), 1, 45), BitmapBlocks(WideImage(9), 1, 45));
  }

  lemma TenBlocks(ten: set<nat>, nine: set<nat>)
    requires forall x: nat :: x in ten <==> 46 <= x < 56
    requires forall x: nat :: x in nine <==> 46 <= x < 55
    ensures |ten| == 10 && |ten + {32}| == 11 && |nine + {32}| == 10
  {
    hide Interval;
    assert ten == Interval(46, 10);
    assert nine == Interval(46, 9);
  }

  method WideFile(g: nat) returns (fs: FileSystem, ip: Inode)
    requires g <= 10
    ensures fresh(fs) && fresh(ip) && fs.Base() == WideImage(g) && ip.inum == 1 && ip.ref == 1 && ip.nlink == 0
    ensures fs.Ready(ip) && fs.View(ip) == fs.Base() && fs.logged == {} && !fs.late && fs.inodestart == 32 && fs.bmapstart == 45
  {
    hide Inv, WideImage;
    WideOwned(g);
    WideInodes(g);
    var s := WideImage(g);
    fs := new FileSystem(s.meta, 32, 45, s.bitmap, s.data, s.inodes, s.owner);
    ip := new Inode(1);
    fs.Ilock(ip);
    assert fs.View(ip).inodes[1] == s.inodes[1];
  }

  /** Ten bitmap blocks: itrunc's write of the inode comes late. */
  method WideTruncation() returns (fs: FileSystem)
    ensures fs.late && |fs.logged| > MAXOPBLOCKS
  {
    hide Inv, BitmapBlocks, WideImage, Truncated, OthersKept, Logs, InodeAt, BitsAt;
    WideBits();
    var ip;
    fs, ip := WideFile(10);
    fs.Itrunc(ip);
    assert fs.logged == BitmapBlocks(WideImage(10), 1, 45) + {InodeAt(1, 32)};
  }

  /** Nine: iput's second write of the inode comes late, though the transaction has no more than MAXOPBLOCKS. */
  method WideUnlink() returns (fs: FileSystem)
    ensures fs.late && |fs.logged| == MAXOPBLOCKS
  {
    hide Inv, BitmapBlocks, WideImage, Truncated, OthersKept, Logs, InodeAt, BitsAt;
    WideBits();
    var ip;
    fs, ip := WideFile(9);
    fs.Iput(ip);
    assert fs.logged == BitmapBlocks(WideImage(9), 1, 45) + {InodeAt(1, 32)};
  }

  /** Entry j becomes 0 and the others stay. */
  lemma CrossOut(b: Block, j: nat)
    requires j < NINDIRECT
    ensures forall j' :: 0 <= j' < NINDIRECT ==> GetWord(PutWord(b, j, 0), j') == if j' == j then 0 else GetWord(b, j')
  {
    hide GetWord, PutWord;
    forall j' | 0 <= j' < NINDIRECT
      ensures GetWord(PutWord(b, j, 0), j') == if j' == j then 0 else GetWord(b, j')
    {
      PutGetWord(b, j, 0, j');
    }
  }

  /** Without an indirect block there are no entries. */
  lemma CutRest(s: Image, t: Image, i: nat)
    requires Owned(s) && i < |s.inodes| && Cut(s, t, i, NDIRECT) && i < |t.inodes| && t.inodes[i].addrs[NDIRECT] == 0
    ensures Cut(s, t, i, SLOTS)
  {
    assert Addr(t, i, NDIRECT) == 0;
    forall k | NDIRECT <= k < SLOTS
      ensures Addr(s, i, k) == 0
    {
      assert Addr(t, i, k) == 0;
    }
    forall b | 0 <= b < |s.owner| && s.owner[b].Slot? && s.owner[b].inum == i
      ensures s.owner[b].k < NDIRECT
    {
      assert BlockOk(s, b);
    }
  }

  lemma Pieces(c: seq<Byte>, off: nat, want: nat, tot: nat, m: nat)
    requires off + want <= |c| && tot + m <= want
    ensures c[off..off + want][..tot] + c[off + tot..off + tot + m] == c[off..off + want][..tot + m]
  {
    var d, e := c[off..off + want], c[off + tot..off + tot + m];
    forall i | 0 <= i < tot + m
      ensures (d[..tot] + e)[i] == d[..tot + m][i]
    {
      if i >= tot {
        assert e[i - tot] == c[off + i];
      }
    }
  }

  /** An unaligned start is in a mapped block, so its turn costs one block. */
  lemma CostBound(s: Image, i: nat, start: nat, n: nat, tot: nat, turns: nat, had: bool)
    requires i < |s.inodes| && Inv(s) && start <= s.inodes[i].size && start + n <= MAXFILE * BSIZE
    requires Turns(start, n, tot, turns) && tot < n
    ensures var c := Cost(s, i, (start + tot) / BSIZE, had);
            && Budget(start, turns) + c <= Budget(start, turns + 1) + (if c == 4 then 2 else 0)
            && (c == 4 ==> !had)
  {
    if turns == 0 && start % BSIZE != 0 {
      assert MappedTo(s, i, s.inodes[i].size);
      assert start / BSIZE * BSIZE < s.inodes[i].size;
    }
  }

  lemma Slices(src: seq<Byte>, tot: nat, m: nat, part: nat)
    requires tot + m <= |src| && part <= m
    ensures src[tot..tot + 0] == [] && src[tot..tot + m][..part] == src[tot..tot + part]
  {
  }

  lemma CountRoot(old': set<nat>, bit: nat, addr: nat)
    ensures |old' + {bit, addr} + {addr}| <= |old'| + 2 && |old' + {addr}| <= |old'| + 1
  {
    CardinalityUp(old', {bit, addr});
    CardinalityUp(old', {addr});
    assert old' + {bit, addr} + {addr} == old' + {bit, addr};
  }

  lemma CountEntry(mid: set<nat>, bit: nat, addr: nat, root: nat)
    ensures |mid + {bit, addr} + {root} + {addr}| <= |mid| + 3
    ensures root in mid ==> |mid + {bit, addr} + {root} + {addr}| <= |mid| + 2
    ensures |mid + {addr}| <= |mid| + 1
  {
    CardinalityUp(mid, {bit, addr, root});
    CardinalityUp(mid, {bit, addr});
    CardinalityUp(mid, {addr});
    assert |{bit, addr}| <= 2;
    assert {bit, addr, root} == {bit, addr} + {root};
    CardinalityUp({bit, addr}, {root});
    assert mid + {bit, addr} + {root} + {addr} == mid + {bit, addr, root};
    if root in mid {
      assert mid + {bit, addr, root} == mid + {bit, addr};
    }
  }

  lemma CardinalityUp(a: set<nat>, b: set<nat>)
    ensures |a| <= |a + b| <= |a| + |b|
  {
    assert a + b == a + (b - a);
    assert b == (b - a) + (b * a);
  }

  lemma SameGroup(group: nat, bi: nat, bmapstart: nat)
    requires group % BPB == 0 && bi < BPB
    ensures BitsAt(group + bi, bmapstart) == BitsAt(group, bmapstart)
  {
  }
}
