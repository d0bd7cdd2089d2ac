/** The file system as values: the free bitmap, the data blocks, the inode table, and for every block
    the inode slot that owns it. What is proved here are the effects of giving a block to a slot,
    of taking it back, and of writing into it. */
module FsSpec {
  import opened Common
  import opened Blocks

  const NDIRECT := 12
  const NINDIRECT := WORDS
  const MAXFILE := NDIRECT + NINDIRECT
  /** An inode's slots: 0..11 direct, 12 the indirect block, 13.. the indirect block's entries. */
  const SLOTS := NDIRECT + 1 + NINDIRECT

  type Addrs = a: seq<Word> | |a| == NDIRECT + 1 witness [0, 0, 0, 0, 0, 0, 0, 0, 0, 0, 0, 0, 0]

  datatype Dinode = Dinode(kind: Short, major: Short, minor: Short, nlink: Short, size: nat, addrs: Addrs)

  datatype Owner = Free | Meta | Slot(inum: nat, k: nat)

  /** meta: how many blocks at the front of the disk hold metadata. */
  datatype Image = Image(meta: nat, bitmap: seq<bool>, data: seq<Block>, inodes: seq<Dinode>, owner: seq<Owner>)

  function NoAddrs(): (a: Addrs) {
    [0, 0, 0, 0, 0, 0, 0, 0, 0, 0, 0, 0, 0]
  }

  // ---- what an inode's slots hold ----

  /** Entry j of the indirect block at address a; address 0 means there is no such block. */
  function Entry(s: Image, a: Word, j: nat): (r: Word)
    requires j < NINDIRECT
  {
    if a == 0 || a >= |s.data| then 0 else GetWord(s.data[a], j)
  }

  function Addr(s: Image, i: nat, k: nat): (r: Word)
    requires i < |s.inodes| && k < SLOTS
  {
    if k <= NDIRECT then s.inodes[i].addrs[k] else Entry(s, s.inodes[i].addrs[NDIRECT], k - NDIRECT - 1)
  }

  /** The slot of the file's bn-th block. */
  function SlotOf(bn: nat): (k: nat) {
    if bn < NDIRECT then bn else bn + 1
  }

  predicate AddrOk(s: Image, i: nat, k: nat)
    requires i < |s.inodes| && k < SLOTS
  {
    var a := Addr(s, i, k);
    a != 0 ==> a < |s.owner| && s.owner[a] == Slot(i, k)
  }

  predicate BlockOk(s: Image, b: nat)
    requires b < |s.owner| && b < |s.bitmap|
  {
    && (s.bitmap[b] <==> !s.owner[b].Free?)
    && (s.owner[b].Meta? <==> b < s.meta)
    && (s.owner[b].Slot? ==> Holds(s, s.owner[b].inum, s.owner[b].k, b))
  }

  predicate Holds(s: Image, i: nat, k: nat, b: nat) {
    i < |s.inodes| && k < SLOTS && Addr(s, i, k) == b
  }

  predicate Shape(s: Image) {
    && |s.data| == |s.bitmap| == |s.owner|
    && 0 < s.meta <= |s.bitmap| < 0x1_0000_0000
    && (forall i :: 0 <= i < |s.inodes| ==> s.inodes[i].size <= MAXFILE * BSIZE)
    && (forall i :: 0 <= i < |s.inodes| && s.inodes[i].kind == 0 ==> Empty(s.inodes[i]))
  }

  /** A free inode owns nothing. */
  predicate Empty(d: Dinode) {
    d.size == 0 && d.addrs == NoAddrs()
  }

  /** The bitmap marks exactly the metadata and the blocks in some slot, and no block is in two slots. */
  predicate Owned(s: Image) {
    && Shape(s)
    && (forall i, k :: 0 <= i < |s.inodes| && 0 <= k < SLOTS ==> AddrOk(s, i, k))
    && (forall b :: 0 <= b < |s.bitmap| ==> BlockOk(s, b))
  }

  predicate MappedTo(s: Image, i: nat, size: nat)
    requires i < |s.inodes|
  {
    forall bn :: 0 <= bn < MAXFILE && bn * BSIZE < size ==> Addr(s, i, SlotOf(bn)) != 0
  }

  /** Every block below an inode's size is there. */
  predicate Mapped(s: Image) {
    forall i :: 0 <= i < |s.inodes| ==> MappedTo(s, i, s.inodes[i].size)
  }

  predicate Inv(s: Image) {
    Owned(s) && Mapped(s)
  }

  /** Two slots never share a block: what Owned says, without naming owners. */
  lemma Disjoint(s: Image, i: nat, k: nat, i': nat, k': nat)
    requires Owned(s) && i < |s.inodes| && i' < |s.inodes| && k < SLOTS && k' < SLOTS
    requires Addr(s, i, k) == Addr(s, i', k') != 0
    ensures i == i' && k == k'
  {
    assert AddrOk(s, i, k) && AddrOk(s, i', k');
  }

  /** A bit is set exactly for metadata and for blocks in a slot. */
  lemma UsedIsOwned(s: Image, b: nat)
    requires Owned(s) && b < |s.bitmap|
    ensures s.bitmap[b] <==> b < s.meta || exists i, k :: Holds(s, i, k, b)
  {
    assert BlockOk(s, b);
    if i, k :| Holds(s, i, k, b) && b >= s.meta {
      assert AddrOk(s, i, k);
    }
  }

  // ---- file contents ----

  /** Byte o of inode i's blocks; a block that is not there reads as zeros. */
  function ByteAt(s: Image, i: nat, o: nat): (r: Byte)
    requires i < |s.inodes| && o < MAXFILE * BSIZE
  {
    var a := Addr(s, i, SlotOf(o / BSIZE));
    if a == 0 || a >= |s.data| then 0 else s.data[a][o % BSIZE]
  }

  function Content(s: Image, i: nat): (r: seq<Byte>)
    requires i < |s.inodes| && s.inodes[i].size <= MAXFILE * BSIZE
    ensures |r| == s.inodes[i].size
  {
    seq(s.inodes[i].size, o requires 0 <= o < MAXFILE * BSIZE => ByteAt(s, i, o))
  }

  /** bs placed at offset off. */
  function Splice(c: seq<Byte>, off: nat, bs: seq<Byte>): (r: seq<Byte>)
    requires off <= |c|
  {
    c[..off] + bs + (if off + |bs| < |c| then c[off + |bs|..] else [])
  }

  /** What was written is read back, and nothing else has changed. */
  lemma SpliceReads(c: seq<Byte>, off: nat, bs: seq<Byte>)
    requires off <= |c|
    ensures var r := Splice(c, off, bs);
            && |r| == (if off + |bs| > |c| then off + |bs| else |c|)
            && r[off..off + |bs|] == bs
            && r[..off] == c[..off]
            && (forall o :: off + |bs| <= o < |c| ==> r[o] == c[o])
  {
  }

  lemma SpliceSplice(c: seq<Byte>, off: nat, a: seq<Byte>, b: seq<Byte>)
    requires off <= |c|
    ensures off + |a| <= |Splice(c, off, a)|
    ensures Splice(Splice(c, off, a), off + |a|, b) == Splice(c, off, a + b)
  {
  }

  // ---- giving a block to a slot and taking it back ----

  predicate Retargets(s: Image, t: Image, i: nat, k: nat, v: Word)
    requires i < |s.inodes| == |t.inodes| && k < SLOTS
  {
    forall i', k' :: 0 <= i' < |s.inodes| && 0 <= k' < SLOTS ==>
      Addr(t, i', k') == if i' == i && k' == k then v else Addr(s, i', k')
  }

  lemma GiveOwned(s: Image, t: Image, i: nat, k: nat, b: nat)
    requires Owned(s) && Shape(t) && t.meta == s.meta && i < |s.inodes| == |t.inodes| && k < SLOTS
    requires b < |s.bitmap| && !s.bitmap[b] && Addr(s, i, k) == 0
    requires t.bitmap == s.bitmap[b := true] && t.owner == s.owner[b := Slot(i, k)] && Retargets(s, t, i, k, b)
    ensures Owned(t)
  {
    assert BlockOk(s, b);
    forall i', k' | 0 <= i' < |t.inodes| && 0 <= k' < SLOTS
      ensures AddrOk(t, i', k')
    {
      assert AddrOk(s, i', k');
    }
    forall b' | 0 <= b' < |t.bitmap|
      ensures BlockOk(t, b')
    {
      assert BlockOk(s, b');
    }
  }

  lemma TakeOwned(s: Image, t: Image, i: nat, k: nat, b: nat)
    requires Owned(s) && Shape(t) && t.meta == s.meta && i < |s.inodes| == |t.inodes| && k < SLOTS
    requires 0 < b < |s.bitmap| && Addr(s, i, k) == b
    requires t.bitmap == s.bitmap[b := false] && t.owner == s.owner[b := Free] && Retargets(s, t, i, k, 0)
    ensures Owned(t)
  {
    assert AddrOk(s, i, k) && BlockOk(s, b);
    forall i', k' | 0 <= i' < |t.inodes| && 0 <= k' < SLOTS
      ensures AddrOk(t, i', k')
    {
      assert AddrOk(s, i', k');
    }
    forall b' | 0 <= b' < |t.bitmap|
      ensures BlockOk(t, b')
    {
      assert BlockOk(s, b');
    }
  }

  /** A zeroed block b becomes direct block k of inode i, or its indirect block. */
  function GiveRoot(s: Image, i: nat, k: nat, b: Word): (t: Image)
    requires i < |s.inodes| && k <= NDIRECT && b < |s.bitmap| && b < |s.data| && b < |s.owner|
  {
    s.(bitmap := s.bitmap[b := true], data := s.data[b := ZeroBlock()], owner := s.owner[b := Slot(i, k)],
       inodes := s.inodes[i := s.inodes[i].(addrs := s.inodes[i].addrs[k := b])])
  }

  lemma RootOwner(s: Image, i: nat)
    requires Owned(s) && i < |s.inodes|
    ensures var a := s.inodes[i].addrs[NDIRECT]; a != 0 ==> a < |s.bitmap| && s.bitmap[a] && s.owner[a] == Slot(i, NDIRECT)
  {
    var a := s.inodes[i].addrs[NDIRECT];
    assert AddrOk(s, i, NDIRECT);
    if a != 0 {
      assert BlockOk(s, a);
    }
  }

  lemma GiveRootAddr(s: Image, i: nat, k: nat, b: Word)
    requires Owned(s) && i < |s.inodes| && k <= NDIRECT && b < |s.bitmap| && !s.bitmap[b] && Addr(s, i, k) == 0
    ensures Retargets(s, GiveRoot(s, i, k, b), i, k, b)
  {
    var t := GiveRoot(s, i, k, b);
    forall i', k' | 0 <= i' < |s.inodes| && 0 <= k' < SLOTS
      ensures Addr(t, i', k') == if i' == i && k' == k then b else Addr(s, i', k')
    {
      RootOwner(s, i');
      if k' > NDIRECT {
        ZeroWord(k' - NDIRECT - 1);
      }
    }
  }

  lemma GiveRootOwned(s: Image, i: nat, k: nat, b: Word)
    requires Owned(s) && i < |s.inodes| && k <= NDIRECT && b < |s.bitmap| && !s.bitmap[b] && Addr(s, i, k) == 0
    requires s.inodes[i].kind != 0
    ensures Owned(GiveRoot(s, i, k, b))
  {
    GiveRootAddr(s, i, k, b);
    GiveOwned(s, GiveRoot(s, i, k, b), i, k, b);
  }

  /** The zeroed block b becomes entry j of inode i's indirect block. */
  function GiveEntry(s: Image, i: nat, j: nat, b: Word): (t: Image)
    requires i < |s.inodes| && j < NINDIRECT && b < |s.bitmap| && b < |s.data| && b < |s.owner|
    requires s.inodes[i].addrs[NDIRECT] < |s.data|
  {
    var a := s.inodes[i].addrs[NDIRECT];
    s.(bitmap := s.bitmap[b := true], data := s.data[b := ZeroBlock()][a := PutWord(s.data[a], j, b)],
       owner := s.owner[b := Slot(i, NDIRECT + 1 + j)])
  }

  lemma GiveEntryAddr(s: Image, i: nat, j: nat, b: Word)
    requires Owned(s) && i < |s.inodes| && j < NINDIRECT && b < |s.bitmap| && !s.bitmap[b]
    requires 0 < s.inodes[i].addrs[NDIRECT] < |s.data| && Addr(s, i, NDIRECT + 1 + j) == 0
    ensures Retargets(s, GiveEntry(s, i, j, b), i, NDIRECT + 1 + j, b)
  {
    hide PutWord, GetWord;
    var t := GiveEntry(s, i, j, b);
    var a := s.inodes[i].addrs[NDIRECT];
    RootOwner(s, i);
    forall i', k' | 0 <= i' < |s.inodes| && 0 <= k' < SLOTS
      ensures Addr(t, i', k') == if i' == i && k' == NDIRECT + 1 + j then b else Addr(s, i', k')
    {
      RootOwner(s, i');
      if k' > NDIRECT {
        PutGetWord(s.data[a], j, b, k' - NDIRECT - 1);
      }
    }
  }

  lemma GiveEntryOwned(s: Image, i: nat, j: nat, b: Word)
    requires Owned(s) && i < |s.inodes| && j < NINDIRECT && b < |s.bitmap| && !s.bitmap[b]
    requires 0 < s.inodes[i].addrs[NDIRECT] < |s.data| && Addr(s, i, NDIRECT + 1 + j) == 0
    ensures Owned(GiveEntry(s, i, j, b))
  {
    GiveEntryAddr(s, i, j, b);
    GiveOwned(s, GiveEntry(s, i, j, b), i, NDIRECT + 1 + j, b);
  }

  /** Giving a zeroed block to an empty slot changes no byte of any file. */
  lemma GiveBytes(s: Image, t: Image, i: nat, k: nat, b: nat, i': nat, o: nat)
    requires Owned(s) && i < |s.inodes| == |t.inodes| && k < SLOTS && |t.data| == |s.data|
    requires b < |s.bitmap| && !s.bitmap[b] && Addr(s, i, k) == 0 && Retargets(s, t, i, k, b)
    requires forall a :: 0 <= a < |s.data| && a != b && t.data[a] != s.data[a] ==> s.owner[a].Slot? && s.owner[a].k == NDIRECT
    requires t.data[b] == ZeroBlock() && i' < |s.inodes| && o < MAXFILE * BSIZE
    ensures ByteAt(t, i', o) == ByteAt(s, i', o)
  {
    var k' := SlotOf(o / BSIZE);
    assert AddrOk(s, i', k') && BlockOk(s, b);
  }

  lemma GiveKeepsMapped(s: Image, t: Image, i: nat, k: nat, b: Word)
    requires Mapped(s) && i < |s.inodes| == |t.inodes| && k < SLOTS && b != 0 && Retargets(s, t, i, k, b)
    requires forall i' :: 0 <= i' < |s.inodes| ==> t.inodes[i'].size == s.inodes[i'].size
    ensures Mapped(t)
  {
    forall i' | 0 <= i' < |t.inodes|
      ensures MappedTo(t, i', t.inodes[i'].size)
    {
      assert MappedTo(s, i', s.inodes[i'].size);
    }
  }

  // ---- writing into a block that is not an indirect block ----

  function PutData(s: Image, b: nat, v: Block): (t: Image)
    requires b < |s.data|
  {
    s.(data := s.data[b := v])
  }

  lemma PutDataAddr(s: Image, b: nat, v: Block, i: nat, k: nat)
    requires Owned(s) && b < |s.data| && !(s.owner[b].Slot? && s.owner[b].k == NDIRECT) && i < |s.inodes| && k < SLOTS
    ensures Addr(PutData(s, b, v), i, k) == Addr(s, i, k)
  {
    RootOwner(s, i);
  }

  lemma PutDataOwned(s: Image, b: nat, v: Block)
    requires Owned(s) && b < |s.data| && !(s.owner[b].Slot? && s.owner[b].k == NDIRECT)
    ensures Owned(PutData(s, b, v))
  {
    var t := PutData(s, b, v);
    forall i, k | 0 <= i < |s.inodes| && 0 <= k < SLOTS
      ensures AddrOk(t, i, k) && Addr(t, i, k) == Addr(s, i, k)
    {
      PutDataAddr(s, b, v, i, k);
      assert AddrOk(s, i, k);
    }
    forall b' | 0 <= b' < |t.bitmap|
      ensures BlockOk(t, b')
    {
      assert BlockOk(s, b');
    }
  }

  lemma PutDataMapped(s: Image, b: nat, v: Block)
    requires Inv(s) && b < |s.data| && !(s.owner[b].Slot? && s.owner[b].k == NDIRECT)
    ensures Mapped(PutData(s, b, v))
  {
    var t := PutData(s, b, v);
    forall i | 0 <= i < |s.inodes|
      ensures MappedTo(t, i, t.inodes[i].size)
    {
      assert MappedTo(s, i, s.inodes[i].size);
      forall bn | 0 <= bn < MAXFILE && bn * BSIZE < t.inodes[i].size
        ensures Addr(t, i, SlotOf(bn)) != 0
      {
        PutDataAddr(s, b, v, i, SlotOf(bn));
      }
    }
  }

  /** Only the file bytes that live in the block change. */
  lemma PutDataBytes(s: Image, i: nat, bn: nat, v: Block, i': nat, o: nat)
    requires Owned(s) && i < |s.inodes| && bn < MAXFILE && Addr(s, i, SlotOf(bn)) != 0
    requires i' < |s.inodes| && o < MAXFILE * BSIZE && Addr(s, i, SlotOf(bn)) < |s.data|
    ensures ByteAt(PutData(s, Addr(s, i, SlotOf(bn)), v), i', o)
         == if i' == i && o / BSIZE == bn then v[o % BSIZE] else ByteAt(s, i', o)
  {
    var b := Addr(s, i, SlotOf(bn));
    assert AddrOk(s, i, SlotOf(bn)) && AddrOk(s, i', SlotOf(o / BSIZE));
    PutDataAddr(s, b, v, i', SlotOf(o / BSIZE));
  }

  // ---- taking blocks back ----

  function TakeRoot(s: Image, i: nat, k: nat): (t: Image)
    requires i < |s.inodes| && k <= NDIRECT && Addr(s, i, k) < |s.bitmap| && Addr(s, i, k) < |s.owner|
  {
    var b := Addr(s, i, k);
    s.(bitmap := s.bitmap[b := false], owner := s.owner[b := Free],
       inodes := s.inodes[i := s.inodes[i].(addrs := s.inodes[i].addrs[k := 0])])
  }

  lemma TakeRootOwned(s: Image, i: nat, k: nat)
    requires Owned(s) && i < |s.inodes| && k <= NDIRECT && 0 < Addr(s, i, k) < |s.bitmap|
    requires k == NDIRECT ==> forall j :: 0 <= j < NINDIRECT ==> Entry(s, Addr(s, i, k), j) == 0
    ensures Owned(TakeRoot(s, i, k)) && Retargets(s, TakeRoot(s, i, k), i, k, 0)
  {
    var t := TakeRoot(s, i, k);
    forall i', k' | 0 <= i' < |s.inodes| && 0 <= k' < SLOTS
      ensures Addr(t, i', k') == if i' == i && k' == k then 0 else Addr(s, i', k')
    {
    }
    assert s.inodes[i].kind == 0 ==> s.inodes[i].addrs[k] == 0;
    TakeOwned(s, t, i, k, Addr(s, i, k));
  }

  /** Entry j of the indirect block is cleared and its block freed. */
  function TakeEntry(s: Image, i: nat, j: nat): (t: Image)
    requires i < |s.inodes| && j < NINDIRECT && s.inodes[i].addrs[NDIRECT] < |s.data|
    requires Addr(s, i, NDIRECT + 1 + j) < |s.bitmap| && Addr(s, i, NDIRECT + 1 + j) < |s.owner|
  {
    var a := s.inodes[i].addrs[NDIRECT];
    var b := Addr(s, i, NDIRECT + 1 + j);
    s.(bitmap := s.bitmap[b := false], owner := s.owner[b := Free], data := s.data[a := PutWord(s.data[a], j, 0)])
  }

  lemma TakeEntryOwned(s: Image, i: nat, j: nat)
    requires Owned(s) && i < |s.inodes| && j < NINDIRECT && 0 < s.inodes[i].addrs[NDIRECT] < |s.data|
    requires 0 < Addr(s, i, NDIRECT + 1 + j) < |s.bitmap|
    ensures Owned(TakeEntry(s, i, j)) && Retargets(s, TakeEntry(s, i, j), i, NDIRECT + 1 + j, 0)
  {
    hide PutWord, GetWord;
    var t := TakeEntry(s, i, j);
    var a := s.inodes[i].addrs[NDIRECT];
    forall i', k' | 0 <= i' < |s.inodes| && 0 <= k' < SLOTS
      ensures Addr(t, i', k') == if i' == i && k' == NDIRECT + 1 + j then 0 else Addr(s, i', k')
    {
      RootOwner(s, i');
      RootOwner(s, i);
      if k' > NDIRECT {
        PutGetWord(s.data[a], j, 0, k' - NDIRECT - 1);
      }
    }
    TakeOwned(s, t, i, NDIRECT + 1 + j, Addr(s, i, NDIRECT + 1 + j));
  }

  // ---- what bmap and a write to one file may do to the whole image ----

  predicate SameLayout(s: Image, t: Image) {
    |t.data| == |s.data| && |t.bitmap| == |s.bitmap| && |t.owner| == |s.owner| && t.meta == s.meta && |t.inodes| == |s.inodes|
  }

  /** The bytes bs are now at offset off of file i, and every other byte of every file is as before. */
  predicate Wrote(s: Image, t: Image, i: nat, off: nat, bs: seq<Byte>)
    requires |t.inodes| == |s.inodes|
  {
    forall i', o :: 0 <= i' < |s.inodes| && 0 <= o < MAXFILE * BSIZE ==>
      ByteAt(t, i', o) == if i' == i && off <= o < off + |bs| then bs[o - off] else ByteAt(s, i', o)
  }

  /** Blocks in slots stay there, and no inode changes except for the addresses of inode i. */
  predicate Extends(s: Image, t: Image, i: nat)
    requires i < |s.inodes|
  {
    && SameLayout(s, t)
    && (forall i' :: 0 <= i' < |s.inodes| && i' != i ==> t.inodes[i'] == s.inodes[i'])
    && t.inodes[i] == s.inodes[i].(addrs := t.inodes[i].addrs)
    && (forall i', k :: 0 <= i' < |s.inodes| && 0 <= k < SLOTS && Addr(s, i', k) != 0 ==> Addr(t, i', k) == Addr(s, i', k))
  }

  lemma RootKept(s: Image, t: Image, i: nat)
    requires i < |s.inodes| && Extends(s, t, i)
    ensures SameLayout(s, t) && t.inodes[i].size == s.inodes[i].size
    ensures s.inodes[i].addrs[NDIRECT] != 0 ==> t.inodes[i].addrs[NDIRECT] == s.inodes[i].addrs[NDIRECT]
  {
    if s.inodes[i].addrs[NDIRECT] != 0 {
      assert Addr(s, i, NDIRECT) != 0;
      assert Addr(t, i, NDIRECT) == t.inodes[i].addrs[NDIRECT];
    }
  }

  lemma SlotKept(s: Image, t: Image, i: nat, k: nat)
    requires i < |s.inodes| && Extends(s, t, i) && k < SLOTS && Addr(s, i, k) != 0
    ensures SameLayout(s, t) && Addr(t, i, k) == Addr(s, i, k)
  {
  }

  lemma ExtendsTrans(s: Image, t: Image, u: Image, i: nat)
    requires i < |s.inodes| && Extends(s, t, i) && Extends(t, u, i)
    ensures Extends(s, u, i)
  {
  }

  lemma WroteTrans(s: Image, t: Image, u: Image, i: nat, off: nat, a: seq<Byte>, b: seq<Byte>)
    requires |s.inodes| == |t.inodes| == |u.inodes| && Wrote(s, t, i, off, a) && Wrote(t, u, i, off + |a|, b)
    ensures Wrote(s, u, i, off, a + b)
  {
    forall i', o | 0 <= i' < |s.inodes| && 0 <= o < MAXFILE * BSIZE
      ensures ByteAt(u, i', o) == if i' == i && off <= o < off + |a + b| then (a + b)[o - off] else ByteAt(s, i', o)
    {
      assert ByteAt(u, i', o) == if i' == i && off + |a| <= o < off + |a| + |b| then b[o - off - |a|] else ByteAt(t, i', o);
      assert ByteAt(t, i', o) == if i' == i && off <= o < off + |a| then a[o - off] else ByteAt(s, i', o);
    }
  }

  /** Nothing written: every byte of every file is as before. */
  predicate Quiet(s: Image, t: Image)
    requires |t.inodes| == |s.inodes|
  {
    Wrote(s, t, 0, 0, [])
  }

  lemma WroteNone(s: Image, t: Image, i: nat, off: nat)
    requires |s.inodes| == |t.inodes| && Quiet(s, t)
    ensures Wrote(s, t, i, off, [])
  {
    hide ByteAt;
  }

  lemma WroteQuiet(s: Image, t: Image, u: Image, i: nat, off: nat, a: seq<Byte>)
    requires |s.inodes| == |t.inodes| == |u.inodes|
    requires (Wrote(s, t, i, off, a) && Quiet(t, u)) || (Quiet(s, t) && Wrote(t, u, i, off, a))
    ensures Wrote(s, u, i, off, a)
  {
    hide ByteAt;
  }

  lemma GiveRootKeeps(s: Image, i: nat, k: nat, b: Word)
    requires Inv(s) && i < |s.inodes| && k <= NDIRECT && b < |s.bitmap| && !s.bitmap[b] && Addr(s, i, k) == 0
    requires s.inodes[i].kind != 0
    ensures var t := GiveRoot(s, i, k, b); b != 0 && Inv(t) && Extends(s, t, i) && Quiet(s, t) && Addr(t, i, k) == b
  {
    hide ByteAt, Owned, Mapped, MappedTo;
    FreeNotZero(s, b);
    var t := GiveRoot(s, i, k, b);
    GiveRootAddr(s, i, k, b);
    GiveRootOwned(s, i, k, b);
    GiveKeepsMapped(s, t, i, k, b);
    forall i', o | 0 <= i' < |s.inodes| && 0 <= o < MAXFILE * BSIZE
      ensures ByteAt(t, i', o) == ByteAt(s, i', o)
    {
      GiveBytes(s, t, i, k, b, i', o);
    }
  }

  lemma OwnedShape(s: Image)
    requires Owned(s)
    ensures Shape(s) && s.bitmap[0] && forall b :: 0 <= b < s.meta ==> s.bitmap[b]
  {
    assert BlockOk(s, 0);
    forall b | 0 <= b < s.meta
      ensures s.bitmap[b]
    {
      assert BlockOk(s, b);
    }
  }

  lemma FreeNotZero(s: Image, b: nat)
    requires Owned(s) && b < |s.bitmap|
    ensures |s.data| == |s.bitmap| == |s.owner|
    ensures s.bitmap[0] && (!s.bitmap[b] ==> b != 0 && s.owner[b].Free?)
  {
    assert BlockOk(s, 0) && BlockOk(s, b);
  }

  lemma GiveEntryKeeps(s: Image, i: nat, j: nat, b: Word)
    requires Inv(s) && i < |s.inodes| && j < NINDIRECT && b < |s.bitmap| && !s.bitmap[b]
    requires 0 < s.inodes[i].addrs[NDIRECT] < |s.data| && Addr(s, i, NDIRECT + 1 + j) == 0
    ensures var t := GiveEntry(s, i, j, b);
            b != 0 && Inv(t) && Extends(s, t, i) && Quiet(s, t) && Addr(t, i, NDIRECT + 1 + j) == b
  {
    hide ByteAt, Owned, Mapped, MappedTo, PutWord;
    FreeNotZero(s, b);
    var t := GiveEntry(s, i, j, b);
    RootOwner(s, i);
    GiveEntryAddr(s, i, j, b);
    GiveEntryOwned(s, i, j, b);
    GiveKeepsMapped(s, t, i, NDIRECT + 1 + j, b);
    forall i', o | 0 <= i' < |s.inodes| && 0 <= o < MAXFILE * BSIZE
      ensures ByteAt(t, i', o) == ByteAt(s, i', o)
    {
      GiveBytes(s, t, i, NDIRECT + 1 + j, b, i', o);
    }
  }

  /** b with chunk placed at offset at. */
  function Overlay(b: Block, at: nat, chunk: seq<Byte>): (r: Block)
    requires at + |chunk| <= BSIZE
  {
    b[..at] + chunk + b[at + |chunk|..]
  }

  /** One step of a file write: chunk goes into the block that holds offset off. */
  function WriteChunk(s: Image, i: nat, off: nat, chunk: seq<Byte>): (t: Image)
    requires i < |s.inodes| && off < MAXFILE * BSIZE && off % BSIZE + |chunk| <= BSIZE
    requires Addr(s, i, SlotOf(off / BSIZE)) < |s.data|
  {
    var a := Addr(s, i, SlotOf(off / BSIZE));
    PutData(s, a, Overlay(s.data[a], off % BSIZE, chunk))
  }

  lemma ChunkOffset(off: nat, o: nat, m: nat)
    requires off % BSIZE + m <= BSIZE
    ensures off <= o < off + m <==> o / BSIZE == off / BSIZE && off % BSIZE <= o % BSIZE < off % BSIZE + m
    ensures off <= o < off + m ==> o % BSIZE - off % BSIZE == o - off
  {
  }

  lemma WriteChunkKeeps(s: Image, i: nat, off: nat, chunk: seq<Byte>)
    requires Inv(s) && i < |s.inodes| && off < MAXFILE * BSIZE && off % BSIZE + |chunk| <= BSIZE
    requires 0 < Addr(s, i, SlotOf(off / BSIZE)) < |s.data|
    ensures var t := WriteChunk(s, i, off, chunk); Inv(t) && Extends(s, t, i) && Wrote(s, t, i, off, chunk)
  {
    hide Owned, Mapped, MappedTo;
    var k := SlotOf(off / BSIZE);
    var a := Addr(s, i, k);
    SlotOwner(s, i, k);
    var v := Overlay(s.data[a], off % BSIZE, chunk);
    var t := PutData(s, a, v);
    PutDataOwned(s, a, v);
    PutDataMapped(s, a, v);
    forall i', k' | 0 <= i' < |s.inodes| && 0 <= k' < SLOTS
      ensures Addr(t, i', k') == Addr(s, i', k')
    {
      PutDataAddr(s, a, v, i', k');
    }
    forall i', o | 0 <= i' < |s.inodes| && 0 <= o < MAXFILE * BSIZE
      ensures ByteAt(t, i', o) == if i' == i && off <= o < off + |chunk| then chunk[o - off] else ByteAt(s, i', o)
    {
      WriteChunkByte(s, i, off, chunk, i', o);
    }
  }

  lemma SlotOwner(s: Image, i: nat, k: nat)
    requires Owned(s) && i < |s.inodes| && k < SLOTS && Addr(s, i, k) != 0
    ensures Addr(s, i, k) < |s.bitmap| == |s.data| == |s.owner|
    ensures s.bitmap[Addr(s, i, k)] && s.owner[Addr(s, i, k)] == Slot(i, k) && s.meta <= Addr(s, i, k)
  {
    assert AddrOk(s, i, k);
    assert BlockOk(s, Addr(s, i, k));
  }

  lemma WriteChunkByte(s: Image, i: nat, off: nat, chunk: seq<Byte>, i': nat, o: nat)
    requires Owned(s) && i < |s.inodes| && off < MAXFILE * BSIZE && off % BSIZE + |chunk| <= BSIZE
    requires 0 < Addr(s, i, SlotOf(off / BSIZE)) < |s.data| && i' < |s.inodes| && o < MAXFILE * BSIZE
    ensures ByteAt(WriteChunk(s, i, off, chunk), i', o)
         == if i' == i && off <= o < off + |chunk| then chunk[o - off] else ByteAt(s, i', o)
  {
    hide Owned;
    var a := Addr(s, i, SlotOf(off / BSIZE));
    PutDataBytes(s, i, off / BSIZE, Overlay(s.data[a], off % BSIZE, chunk), i', o);
    ChunkOffset(off, o, |chunk|);
  }

  // ---- sizes ----

  lemma MappedSplit(s: Image, i: nat, off: nat, m: nat)
    requires i < |s.inodes| && MappedTo(s, i, off) && off % BSIZE + m <= BSIZE && 0 < m && off + m <= MAXFILE * BSIZE
    requires Addr(s, i, SlotOf(off / BSIZE)) != 0
    ensures MappedTo(s, i, off + m)
  {
    forall bn | 0 <= bn < MAXFILE && bn * BSIZE < off + m
      ensures Addr(s, i, SlotOf(bn)) != 0
    {
      assert bn * BSIZE < off || bn == off / BSIZE;
    }
  }

  lemma StartMapped(s: Image, i: nat, start: nat)
    requires i < |s.inodes| && Inv(s) && start <= s.inodes[i].size
    ensures MappedTo(s, i, start) && Wrote(s, s, i, start, [])
  {
    hide ByteAt;
    assert MappedTo(s, i, s.inodes[i].size);
  }

  lemma MappedKept(s: Image, t: Image, i: nat, size: nat)
    requires i < |s.inodes| && Extends(s, t, i) && MappedTo(s, i, size)
    ensures SameLayout(s, t) && MappedTo(t, i, size)
  {
  }

  /** The first k bytes of src are in the file from offset start on, and the blocks up to start + tot
      are mapped. */
  predicate Progress(s: Image, t: Image, i: nat, start: nat, src: seq<Byte>, tot: nat, k: nat)
    requires i < |s.inodes|
  {
    && Extends(s, t, i) && tot <= k <= |src|
    && Wrote(s, t, i, start, src[..k]) && MappedTo(t, i, start + tot)
  }

  lemma ProgressStart(s: Image, i: nat, start: nat, src: seq<Byte>)
    requires i < |s.inodes| && Inv(s) && start <= s.inodes[i].size
    ensures Progress(s, s, i, start, src, 0, 0)
  {
    StartMapped(s, i, start);
  }

  lemma ProgressMore(s: Image, t: Image, u: Image, i: nat, start: nat, src: seq<Byte>, tot: nat, m: nat)
    requires i < |s.inodes| && Progress(s, t, i, start, src, tot, tot) && Extends(t, u, i) && tot + m <= |src|
    requires Wrote(t, u, i, start + tot, src[tot..tot + m])
    ensures Progress(s, u, i, start, src, tot, tot + m)
  {
    hide ByteAt, Wrote, Extends, MappedTo;
    RootKept(s, t, i);
    ExtendsTrans(s, t, u, i);
    RootKept(s, u, i);
    WroteTrans(s, t, u, i, start, src[..tot], src[tot..tot + m]);
    assert src[..tot] + src[tot..tot + m] == src[..tot + m];
    MappedKept(t, u, i, start + tot);
  }

  lemma ProgressDone(s: Image, t: Image, i: nat, start: nat, src: seq<Byte>, tot: nat, m: nat)
    requires i < |s.inodes| && Progress(s, t, i, start, src, tot, tot + m) && i < |t.inodes|
    requires (start + tot) % BSIZE + m <= BSIZE && 0 < m && start + tot + m <= MAXFILE * BSIZE
    requires Addr(t, i, SlotOf((start + tot) / BSIZE)) != 0
    ensures Progress(s, t, i, start, src, tot + m, tot + m)
  {
    hide ByteAt, Wrote, Extends, MappedTo;
    RootKept(s, t, i);
    MappedSplit(t, i, start + tot, m);
  }

  function Resize(s: Image, i: nat, size: nat): (t: Image)
    requires i < |s.inodes|
  {
    s.(inodes := s.inodes[i := s.inodes[i].(size := size)])
  }

  lemma ResizeKeeps(s: Image, i: nat, size: nat)
    requires Inv(s) && i < |s.inodes| && size <= MAXFILE * BSIZE && MappedTo(s, i, size) && s.inodes[i].kind != 0
    ensures Inv(Resize(s, i, size)) && Quiet(s, Resize(s, i, size))
  {
    var t := Resize(s, i, size);
    forall i', k | 0 <= i' < |s.inodes| && 0 <= k < SLOTS
      ensures AddrOk(t, i', k) && Addr(t, i', k) == Addr(s, i', k)
    {
      assert AddrOk(s, i', k);
    }
    forall b | 0 <= b < |t.bitmap|
      ensures BlockOk(t, b)
    {
      assert BlockOk(s, b);
    }
    forall i' | 0 <= i' < |t.inodes|
      ensures MappedTo(t, i', t.inodes[i'].size)
    {
      assert MappedTo(s, i', s.inodes[i'].size);
    }
  }

  /** The bytes of a write and the size rule together: the file is the old one with bs spliced in,
      cut at the new size. */
  lemma ContentOf(s: Image, t: Image, i: nat, off: nat, bs: seq<Byte>, w: nat)
    requires i < |s.inodes| == |t.inodes| && Wrote(s, t, i, off, bs) && w <= |bs|
    requires s.inodes[i].size <= MAXFILE * BSIZE && off <= s.inodes[i].size && off + |bs| <= MAXFILE * BSIZE
    requires t.inodes[i].size == if off + w > s.inodes[i].size then off + w else s.inodes[i].size
    ensures t.inodes[i].size <= |Splice(Content(s, i), off, bs)|
    ensures Content(t, i) == Splice(Content(s, i), off, bs)[..t.inodes[i].size]
  {
    hide ByteAt;
  }

  lemma ContentSame(s: Image, t: Image, i: nat, i': nat, off: nat, bs: seq<Byte>)
    requires i < |s.inodes| == |t.inodes| && i' < |s.inodes| && i' != i && Wrote(s, t, i, off, bs)
    requires s.inodes[i'].size == t.inodes[i'].size <= MAXFILE * BSIZE
    ensures Content(t, i') == Content(s, i')
  {
    hide ByteAt;
  }

  // ---- a whole write ----

  function NewSize(size: nat, end: nat): (r: nat) {
    if end > size then end else size
  }

  predicate OthersKept(s: Image, t: Image, i: nat) {
    && |t.inodes| == |s.inodes|
    && forall i' :: 0 <= i' < |s.inodes| && i' != i && s.inodes[i'].size <= MAXFILE * BSIZE ==>
         t.inodes[i'] == s.inodes[i'] && Content(t, i') == Content(s, i')
  }

  /** File i is the old one with bs at offset off, of which the first w bytes count for the size. */
  predicate FileWritten(s: Image, t: Image, i: nat, off: nat, bs: seq<Byte>, w: nat)
    requires i < |s.inodes| == |t.inodes| && off <= s.inodes[i].size <= MAXFILE * BSIZE
  {
    && t.inodes[i] == s.inodes[i].(size := NewSize(s.inodes[i].size, off + w), addrs := t.inodes[i].addrs)
    && t.inodes[i].size <= |Splice(Content(s, i), off, bs)| && t.inodes[i].size <= MAXFILE * BSIZE
    && Content(t, i) == Splice(Content(s, i), off, bs)[..t.inodes[i].size]
  }

  lemma OthersRefl(s: Image, i: nat)
    ensures OthersKept(s, s, i)
  {
    hide Content;
  }

  lemma ProgressBasics(s: Image, t: Image, i: nat, start: nat, src: seq<Byte>, tot: nat, k: nat)
    requires i < |s.inodes| && Progress(s, t, i, start, src, tot, k)
    ensures SameLayout(s, t) && tot <= k <= |src| && Extends(s, t, i)
    ensures t.inodes[i] == s.inodes[i].(addrs := t.inodes[i].addrs)
  {
  }

  lemma FinishWrite(s: Image, t: Image, i: nat, start: nat, src: seq<Byte>, tot: nat, k: nat)
    requires i < |s.inodes| && Inv(s) && Inv(t) && Progress(s, t, i, start, src, tot, k) && s.inodes[i].kind != 0
    requires start <= s.inodes[i].size <= MAXFILE * BSIZE && start + |src| <= MAXFILE * BSIZE
    requires SameLayout(s, t) && t.inodes[i].kind != 0
    ensures var u := Resize(t, i, NewSize(s.inodes[i].size, start + tot));
            Inv(u) && FileWritten(s, u, i, start, src[..k], tot) && OthersKept(s, u, i)
  {
    hide ByteAt, Owned, Content, Splice, MappedTo;
    var size := NewSize(s.inodes[i].size, start + tot);
    var u := Resize(t, i, size);
    assert MappedTo(t, i, t.inodes[i].size);
    ResizeKeeps(t, i, size);
    WroteQuiet(s, t, u, i, start, src[..k]);
    ContentOf(s, u, i, start, src[..k], tot);
    forall i' | 0 <= i' < |s.inodes| && i' != i && s.inodes[i'].size <= MAXFILE * BSIZE
      ensures Content(u, i') == Content(s, i')
    {
      ContentSame(s, u, i, i', start, src[..k]);
    }
  }

  // ---- reading ----

  lemma SizeOk(s: Image, i: nat)
    requires Owned(s) && i < |s.inodes|
    ensures s.inodes[i].size <= MAXFILE * BSIZE
  {
  }

  lemma ReadPiece(s: Image, i: nat, off: nat, m: nat)
    requires Inv(s) && i < |s.inodes| && 0 < m && off % BSIZE + m <= BSIZE && off + m <= s.inodes[i].size <= MAXFILE * BSIZE
    ensures var a := Addr(s, i, SlotOf(off / BSIZE));
            0 < a < |s.data| && s.data[a][off % BSIZE..off % BSIZE + m] == Content(s, i)[off..off + m]
  {
    assert MappedTo(s, i, s.inodes[i].size);
    assert off / BSIZE * BSIZE < s.inodes[i].size;
    SlotOwner(s, i, SlotOf(off / BSIZE));
    var a := Addr(s, i, SlotOf(off / BSIZE));
    var piece := s.data[a][off % BSIZE..off % BSIZE + m];
    forall x | 0 <= x < m
      ensures piece[x] == Content(s, i)[off..off + m][x]
    {
      ChunkOffset(off, off + x, m);
    }
  }

  // ---- truncation ----

  /** The order in which itrunc frees slots: direct blocks, indirect entries, the indirect block. */
  function Rank(k: nat): (r: nat) {
    if k < NDIRECT then k else if k == NDIRECT then SLOTS - 1 else k - 1
  }

  /** t is s after inode i has lost its slots of rank below n: their blocks are free, the rest of the
      owners and of the addresses are as they were. */
  predicate Cut(s: Image, t: Image, i: nat, n: nat) {
    && SameLayout(s, t)
    && (forall i', k :: 0 <= i' < |s.inodes| && 0 <= k < SLOTS ==>
          Addr(t, i', k) == if i' == i && Rank(k) < n then 0 else Addr(s, i', k))
    && (forall b :: 0 <= b < |s.owner| ==>
          t.owner[b] == if s.owner[b].Slot? && s.owner[b].inum == i && Rank(s.owner[b].k) < n then Free else s.owner[b])
  }

  lemma CutNothing(s: Image, i: nat)
    ensures Cut(s, s, i, 0)
  {
  }

  /** An empty slot owns no block, so passing it over frees what it should. */
  lemma CutSkip(s: Image, t: Image, i: nat, k: nat)
    requires Owned(s) && i < |s.inodes| && k < SLOTS && Cut(s, t, i, Rank(k)) && Addr(t, i, k) == 0
    ensures Cut(s, t, i, Rank(k) + 1)
  {
    assert Addr(s, i, k) == 0;
    forall b | 0 <= b < |s.owner| && s.owner[b].Slot? && s.owner[b].inum == i
      ensures s.owner[b].k < SLOTS && Rank(s.owner[b].k) != Rank(k)
    {
      assert BlockOk(s, b);
    }
  }

  lemma CutTake(s: Image, t: Image, u: Image, i: nat, k: nat, b: nat)
    requires Owned(s) && i < |s.inodes| && k < SLOTS && Cut(s, t, i, Rank(k)) && SameLayout(t, u)
    requires Addr(t, i, k) == b && 0 < b < |t.owner| && u.owner == t.owner[b := Free] && Retargets(t, u, i, k, 0)
    ensures Cut(s, u, i, Rank(k) + 1)
  {
    assert Addr(s, i, k) == b && AddrOk(s, i, k);
    forall b' | 0 <= b' < |s.owner|
      ensures u.owner[b'] == if s.owner[b'].Slot? && s.owner[b'].inum == i && Rank(s.owner[b'].k) < Rank(k) + 1 then Free else s.owner[b']
    {
      assert BlockOk(s, b');
    }
  }

  lemma CutData(s: Image, t: Image, i: nat, n: nat, b: nat, v: Block)
    requires Owned(t) && Cut(s, t, i, n) && b < |t.data| && t.owner[b].Free?
    ensures Owned(PutData(t, b, v)) && Cut(s, PutData(t, b, v), i, n)
  {
    hide Owned;
    PutDataOwned(t, b, v);
    var u := PutData(t, b, v);
    forall i', k | 0 <= i' < |s.inodes| && 0 <= k < SLOTS
      ensures Addr(u, i', k) == Addr(t, i', k)
    {
      PutDataAddr(t, b, v, i', k);
    }
  }

  /** Truncated to nothing: all of inode i's blocks are free and everything else is as it was. */
  predicate Truncated(s: Image, t: Image, i: nat)
    requires i < |s.inodes|
  {
    && SameLayout(s, t)
    && t.inodes == s.inodes[i := s.inodes[i].(size := 0, addrs := NoAddrs())]
    && t.data == s.data
    && (forall b :: 0 <= b < |s.bitmap| && b < |s.owner| ==>
          t.bitmap[b] == (s.bitmap[b] && !(s.owner[b].Slot? && s.owner[b].inum == i)))
  }

  lemma CutAll(s: Image, t: Image, i: nat)
    requires Inv(s) && i < |s.inodes| && Owned(t) && Cut(s, t, i, SLOTS) && t.data == s.data
    requires t.inodes == s.inodes[i := s.inodes[i].(addrs := NoAddrs())]
    ensures Inv(Resize(t, i, 0)) && Truncated(s, Resize(t, i, 0), i) && OthersKept(s, Resize(t, i, 0), i)
  {
    hide OthersKept;
    var u := Resize(t, i, 0);
    forall i', k | 0 <= i' < |s.inodes| && 0 <= k < SLOTS
      ensures AddrOk(u, i', k) && Addr(u, i', k) == Addr(t, i', k)
    {
      assert AddrOk(t, i', k);
    }
    forall b | 0 <= b < |s.bitmap|
      ensures BlockOk(u, b) && u.bitmap[b] == (s.bitmap[b] && !(s.owner[b].Slot? && s.owner[b].inum == i))
    {
      assert BlockOk(s, b) && BlockOk(t, b);
    }
    forall i' | 0 <= i' < |s.inodes|
      ensures MappedTo(u, i', u.inodes[i'].size)
    {
      assert MappedTo(s, i', s.inodes[i'].size);
    }
    SameOthers(s, u, i);
  }

  /** Files whose addresses and blocks are as before have the same contents. */
  lemma SameOthers(s: Image, t: Image, i: nat)
    requires SameLayout(s, t) && t.data == s.data
    requires forall i' :: 0 <= i' < |s.inodes| && i' != i ==> t.inodes[i'] == s.inodes[i']
    ensures OthersKept(s, t, i)
  {
    forall i' | 0 <= i' < |s.inodes| && i' != i && s.inodes[i'].size <= MAXFILE * BSIZE
      ensures Content(t, i') == Content(s, i')
    {
      assert forall o :: 0 <= o < MAXFILE * BSIZE ==> ByteAt(t, i', o) == ByteAt(s, i', o);
    }
  }

  // ---- the file system as flat byte arrays ----

  function Files(s: Image): (f: seq<seq<Byte>>)
    requires Shape(s)
    ensures |f| == |s.inodes|
  {
    seq(|s.inodes|, i requires 0 <= i < |s.inodes| => Content(s, i))
  }

  datatype Op = Write(i: nat, off: Word, bs: seq<Byte>) | Read(i: nat, off: Word, n: Word) | Trunc(i: nat)

  datatype Result = Count(r: int) | Bytes(bs: seq<Byte>) | Ok

  predicate Callable(op: Op, n: nat) {
    op.i < n && (op.Write? ==> |op.bs| < 0x1_0000_0000)
  }

  /** What one operation does when files are just byte arrays. Only a full disk cuts a write short. */
  predicate FlatStep(f: seq<seq<Byte>>, op: Op, res: Result, full: bool, f': seq<seq<Byte>>)
    requires op.i < |f|
  {
    match op
    case Write(i, off, bs) =>
      if off > |f[i]| || off + |bs| > MAXFILE * BSIZE then res == Count(-1) && f' == f
      else
        && res.Count? && 0 <= res.r <= |bs| && (res.r < |bs| ==> full)
        && f' == f[i := Splice(f[i], off, bs[..res.r])]
    case Read(i, off, n) =>
      && f' == f
      && res == Bytes(if off > |f[i]| || off + n >= 0x1_0000_0000 then []
                      else if off + n > |f[i]| then f[i][off..] else f[i][off..off + n])
    case Trunc(i) => f' == f[i := []] && res == Ok
  }

  /** No block is free. */
  predicate AllUsed(s: Image) {
    forall b :: 0 <= b < |s.bitmap| ==> s.bitmap[b]
  }

  /** Inode i may have gained blocks and a new size; nothing has lost a block. */
  predicate Grew(s: Image, t: Image, i: nat)
    requires i < |s.inodes|
  {
    i < |t.inodes| && Extends(s, Resize(t, i, s.inodes[i].size), i)
  }

  /** What one operation does to the disk and to the files on it. */
  predicate ImageStep(s: Image, op: Op, res: Result, t: Image) {
    && Shape(s) && Shape(t) && op.i < |s.inodes| == |t.inodes|
    && FlatStep(Files(s), op, res, AllUsed(t), Files(t))
    && (op.Write? ==> t == s || Grew(s, t, op.i)) && (op.Read? ==> t == s) && (op.Trunc? ==> Truncated(s, t, op.i))
  }

  /** The disks a run of operations goes through, and its results. */
  predicate ImageRun(ss: seq<Image>, ops: seq<Op>, res: seq<Result>) {
    && |res| == |ops| && |ss| == |ops| + 1
    && (forall o :: 0 <= o <= |ops| ==> Inv(ss[o]))
    && forall o :: 0 <= o < |ops| ==> ImageStep(ss[o], ops[o], res[o], ss[o + 1])
  }

  lemma FilesWritten(s: Image, t: Image, i: nat, off: nat, bs: seq<Byte>, w: nat)
    requires Shape(s) && Shape(t) && i < |s.inodes| == |t.inodes| && off <= s.inodes[i].size && w <= |bs|
    requires FileWritten(s, t, i, off, bs[..w], w) && OthersKept(s, t, i)
    ensures Files(t) == Files(s)[i := Splice(Files(s)[i], off, bs[..w])]
  {
    hide Content;
    SpliceReads(Content(s, i), off, bs[..w]);
    var sp := Splice(Content(s, i), off, bs[..w]);
    assert sp[..t.inodes[i].size] == sp;
    forall i' | 0 <= i' < |s.inodes|
      ensures Files(t)[i'] == Files(s)[i := sp][i']
    {
    }
  }

  lemma FilesTruncated(s: Image, t: Image, i: nat)
    requires Shape(s) && Shape(t) && i < |s.inodes| && Truncated(s, t, i) && OthersKept(s, t, i)
    ensures Files(t) == Files(s)[i := []]
  {
    hide Content;
    forall i' | 0 <= i' < |s.inodes|
      ensures Files(t)[i'] == Files(s)[i := []][i']
    {
    }
  }

  /** A freshly made file system, with the given inodes all empty, is in order. */
  lemma FreshImage(meta: nat, n: nat, inodes: seq<Dinode>)
    requires 0 < meta <= n < 0x1_0000_0000 && forall i :: 0 <= i < |inodes| ==> Empty(inodes[i])
    ensures Inv(Image(meta, seq(n, b => b < meta), seq(n, b => ZeroBlock()), inodes, seq(n, b => if b < meta then Meta else Free)))
  {
    var s := Image(meta, seq(n, b => b < meta), seq(n, b => ZeroBlock()), inodes, seq(n, b => if b < meta then Meta else Free));
    forall i, k | 0 <= i < |inodes| && 0 <= k < SLOTS
      ensures Addr(s, i, k) == 0
    {
      assert Empty(inodes[i]);
    }
    forall b | 0 <= b < n
      ensures BlockOk(s, b)
    {
    }
  }
}
