/** An image as the bytes of its blocks: the inodes, sixteen to a block, the bitmap, eight bits to a byte, and
    the files' blocks. */
module FsDisk {
  import opened Common
  import opened Blocks
  import opened LogSpec
  import opened FsSpec
  import opened Fs
  import opened File

  /** Where mkfs puts things: the log, then the inodes, then the bitmap, then everything else. */
  datatype Super = Super(start: nat, inodestart: nat, bmapstart: nat)

  predicate Fitted(s: Image, sb: Super) {
    && Shape(s) && sb.start + LOGBLOCKS < sb.inodestart && |s.bitmap| <= 0x8000_0000
    && sb.inodestart + |s.inodes| / IPB < sb.bmapstart && sb.bmapstart + |s.bitmap| / BPB < s.meta
  }

  // ---- the bytes of an inode ----

  /** Byte k of a word. */
  function ByteOf(w: Word, k: nat): (b: Byte)
    requires k < 4
  {
    if k == 0 then w % 0x100 else if k == 1 then w / 0x100 % 0x100 else if k == 2 then w / 0x1_0000 % 0x100 else w / 0x100_0000
  }

  function Unsigned(x: Short): (w: Word) {
    if x < 0 then x + 0x1_0000 else x
  }

  function Field(d: Dinode, i: nat): (x: Short)
    requires i < 4
  {
    if i == 0 then d.kind else if i == 1 then d.major else if i == 2 then d.minor else d.nlink
  }

  /** Byte x of struct dinode: four shorts, the size, the addresses. */
  function DinodeByte(d: Dinode, x: nat): (b: Byte)
    requires x < 64 && d.size < TWO32
  {
    if x < 8 then ByteOf(Unsigned(Field(d, x / 2)), x % 2)
    else if x < 12 then ByteOf(d.size, x - 8)
    else ByteOf(d.addrs[(x - 12) / 4], x % 4)
  }

  lemma WordBytes(v: Word, w: Word)
    requires forall k :: 0 <= k < 4 ==> ByteOf(v, k) == ByteOf(w, k)
    ensures v == w
  {
    WordDigits(v);
    WordDigits(w);
    assert ByteOf(v, 0) == ByteOf(w, 0) && ByteOf(v, 1) == ByteOf(w, 1);
    assert ByteOf(v, 2) == ByteOf(w, 2) && ByteOf(v, 3) == ByteOf(w, 3);
  }

  lemma ShortBytes(x: Short, y: Short)
    requires ByteOf(Unsigned(x), 0) == ByteOf(Unsigned(y), 0) && ByteOf(Unsigned(x), 1) == ByteOf(Unsigned(y), 1)
    ensures x == y
  {
    TwoBytes(Unsigned(x));
    TwoBytes(Unsigned(y));
  }

  lemma TwoBytes(w: Word)
    requires w < 0x1_0000
    ensures w == ByteOf(w, 0) + 0x100 * ByteOf(w, 1)
  {
  }

  /** The bytes tell the inode. */
  lemma DinodeBytes(d: Dinode, e: Dinode)
    requires d.size < TWO32 && e.size < TWO32 && forall x :: 0 <= x < 64 ==> DinodeByte(d, x) == DinodeByte(e, x)
    ensures d == e
  {
    hide ByteOf;
    forall i | 0 <= i < 4
      ensures Field(d, i) == Field(e, i)
    {
      assert DinodeByte(d, 2 * i) == DinodeByte(e, 2 * i) && DinodeByte(d, 2 * i + 1) == DinodeByte(e, 2 * i + 1);
      ShortBytes(Field(d, i), Field(e, i));
    }
    assert Field(d, 0) == Field(e, 0) && Field(d, 1) == Field(e, 1) && Field(d, 2) == Field(e, 2) && Field(d, 3) == Field(e, 3);
    forall k | 0 <= k < 4
      ensures ByteOf(d.size, k) == ByteOf(e.size, k)
    {
      assert DinodeByte(d, 8 + k) == DinodeByte(e, 8 + k);
    }
    WordBytes(d.size, e.size);
    forall j | 0 <= j < NDIRECT + 1
      ensures d.addrs[j] == e.addrs[j]
    {
      forall k | 0 <= k < 4
        ensures ByteOf(d.addrs[j], k) == ByteOf(e.addrs[j], k)
      {
        assert DinodeByte(d, 12 + 4 * j + k) == DinodeByte(e, 12 + 4 * j + k);
      }
      WordBytes(d.addrs[j], e.addrs[j]);
    }
    assert d.addrs == e.addrs;
  }

  // ---- the bits of a byte ----

  function Bit(bits: seq<bool>, i: nat): (n: nat) {
    if i < |bits| && bits[i] then 1 else 0
  }

  function BitsByte(bits: seq<bool>, i: nat): (b: Byte) {
    Nibble(bits, i) + 16 * Nibble(bits, i + 4)
  }

  lemma Halve(x: nat, p: nat, y: nat, q: nat)
    requires x < 2 && y < 2 && x + 2 * p == y + 2 * q
    ensures x == y && p == q
  {
  }

  lemma Digits(a: nat, b: nat, c: nat, d: nat, a': nat, b': nat, c': nat, d': nat, p: nat, p': nat)
    requires a < 2 && b < 2 && c < 2 && d < 2 && a' < 2 && b' < 2 && c' < 2 && d' < 2
    requires a + 2 * b + 4 * c + 8 * d + 16 * p == a' + 2 * b' + 4 * c' + 8 * d' + 16 * p'
    ensures a == a' && b == b' && c == c' && d == d' && p == p'
  {
    Halve(a, b + 2 * c + 4 * d + 8 * p, a', b' + 2 * c' + 4 * d' + 8 * p');
    Halve(b, c + 2 * d + 4 * p, b', c' + 2 * d' + 4 * p');
    Halve(c, d + 2 * p, c', d' + 2 * p');
    Halve(d, p, d', p');
  }

  function Nibble(bits: seq<bool>, i: nat): (n: nat) {
    Bit(bits, i) + 2 * Bit(bits, i + 1) + 4 * Bit(bits, i + 2) + 8 * Bit(bits, i + 3)
  }

  /** The byte tells its bits. */
  lemma ByteBits(a: seq<bool>, b: seq<bool>, i: nat, j: nat)
    requires BitsByte(a, i) == BitsByte(b, i) && i <= j < i + 8
    ensures Bit(a, j) == Bit(b, j)
  {
    hide Bit;
    BitSmall(a);
    BitSmall(b);
    Digits(Bit(a, i), Bit(a, i + 1), Bit(a, i + 2), Bit(a, i + 3), Bit(b, i), Bit(b, i + 1), Bit(b, i + 2), Bit(b, i + 3),
           Nibble(a, i + 4), Nibble(b, i + 4));
    Digits(Bit(a, i + 4), Bit(a, i + 5), Bit(a, i + 6), Bit(a, i + 7),
           Bit(b, i + 4), Bit(b, i + 5), Bit(b, i + 6), Bit(b, i + 7), 0, 0);
  }

  lemma BitSmall(bits: seq<bool>)
    ensures forall i: nat :: Bit(bits, i) < 2
  {
  }

  // ---- blocks ----

  /** Sixteen inodes, from inode q * IPB on. */
  function InodeBlock(s: Image, q: nat): (v: Block)
    requires Shape(s)
  {
    seq(BSIZE, o requires 0 <= o < BSIZE => InodeByte(s, q * IPB + o / 64, o % 64))
  }

  /** The bits of BPB blocks, from block q * BPB on. */
  function BitmapBlock(bits: seq<bool>, q: nat): (v: Block) {
    seq(BSIZE, o requires 0 <= o < BSIZE => BitsByte(bits, q * BPB + 8 * o))
  }

  /** Block x of the image, from the inodes on. */
  function BlockOf(s: Image, sb: Super, x: nat): (v: Block)
    requires Fitted(s, sb) && sb.inodestart <= x
  {
    if x < sb.bmapstart then InodeBlock(s, x - sb.inodestart)
    else if x < s.meta then BitmapBlock(s.bitmap, x - sb.bmapstart)
    else if x < |s.data| then s.data[x]
    else ZeroBlock()
  }

  function InodeByte(s: Image, i: nat, o: nat): (b: Byte)
    requires Shape(s) && o < 64
  {
    if i < |s.inodes| then DinodeByte(s.inodes[i], o) else 0
  }

  /** The disk has the image behind the boot block, the super block and the log. */
  predicate HoldsImage(d: Disk, s: Image, sb: Super)
    requires Fitted(s, sb)
  {
    |d| == |s.data| && forall x :: sb.inodestart <= x < |d| ==> d[x] == BlockOf(s, sb, x)
  }

  lemma InodesSame(s: Image, t: Image, sb: Super, logged: set<nat>, q: nat, o: nat)
    requires Shape(s) && Shape(t) && q + sb.inodestart !in logged && o < BSIZE
    requires Logs(RawOf(s), RawOf(t), {}, logged, sb.inodestart, sb.bmapstart)
    ensures InodeByte(s, q * IPB + o / 64, o % 64) == InodeByte(t, q * IPB + o / 64, o % 64)
  {
    hide DinodeByte, Shape, OfFs;
    var i := q * IPB + o / 64;
    if i < |s.inodes| {
      InodeHere(q, o);
      assert InodeAt(i, sb.inodestart) == q + sb.inodestart;
      assert RawOf(t).dinodes[i] == RawOf(s).dinodes[i];
    }
  }

  /** A block that a transaction did not log is the same before and after. */
  lemma UnloggedSame(s: Image, t: Image, sb: Super, logged: set<nat>, x: nat)
    requires Fitted(s, sb) && Fitted(t, sb) && t.meta == s.meta
    requires Logs(RawOf(s), RawOf(t), {}, logged, sb.inodestart, sb.bmapstart) && x !in logged && sb.inodestart <= x
    ensures BlockOf(s, sb, x) == BlockOf(t, sb, x)
  {
    hide InodeByte, BitsByte, Shape, OfFs;
    assert |t.data| == |s.data| && (x < |s.data| ==> RawOf(t).data[x] == RawOf(s).data[x]);
    forall o | 0 <= o < BSIZE
      ensures BlockOf(s, sb, x)[o] == BlockOf(t, sb, x)[o]
    {
      if x < sb.bmapstart {
        InodesSame(s, t, sb, logged, x - sb.inodestart, o);
      } else if x < s.meta {
        SameBits(s, t, sb, logged, x - sb.bmapstart, o);
      }
    }
  }

  lemma InodeHere(q: nat, o: nat)
    requires o < BSIZE
    ensures (q * IPB + o / 64) / IPB == q
  {
  }

  lemma BitHere(q: nat, o: nat, k: nat)
    requires o < BSIZE && k < 8
    ensures (q * BPB + 8 * o + k) / BPB == q
  {
  }

  lemma SameBits(s: Image, t: Image, sb: Super, logged: set<nat>, q: nat, o: nat)
    requires q + sb.bmapstart !in logged && o < BSIZE
    requires Logs(RawOf(s), RawOf(t), {}, logged, sb.inodestart, sb.bmapstart)
    ensures BitsByte(s.bitmap, q * BPB + 8 * o) == BitsByte(t.bitmap, q * BPB + 8 * o)
  {
    hide OfFs;
    var i := q * BPB + 8 * o;
    forall j | i <= j < i + 8
      ensures Bit(s.bitmap, j) == Bit(t.bitmap, j)
    {
      if j < |s.bitmap| {
        BitHere(q, o, j - i);
        assert BitsAt(j, sb.bmapstart) == q + sb.bmapstart;
        assert RawOf(t).bitmap[j] == RawOf(s).bitmap[j];
      }
    }
  }

  // ---- the blocks tell the image ----

  lemma InodeFrom(s: Image, t: Image, sb: Super, i: nat)
    requires Fitted(s, sb) && Fitted(t, sb) && t.meta == s.meta && i < |s.inodes| == |t.inodes|
    requires BlockOf(s, sb, InodeAt(i, sb.inodestart)) == BlockOf(t, sb, InodeAt(i, sb.inodestart))
    ensures s.inodes[i] == t.inodes[i]
  {
    hide DinodeByte, BlockOf;
    assert s.inodes[i].size <= MAXFILE * BSIZE && t.inodes[i].size <= MAXFILE * BSIZE;
    forall o | 0 <= o < 64
      ensures DinodeByte(s.inodes[i], o) == DinodeByte(t.inodes[i], o)
    {
      ByteIn(s, sb, i, o);
      ByteIn(t, sb, i, o);
    }
    DinodeBytes(s.inodes[i], t.inodes[i]);
  }

  lemma ByteIn(s: Image, sb: Super, i: nat, o: nat)
    requires Fitted(s, sb) && i < |s.inodes| && o < 64
    ensures i % IPB * 64 + o < BSIZE && s.inodes[i].size < TWO32
    ensures BlockOf(s, sb, InodeAt(i, sb.inodestart))[i % IPB * 64 + o] == DinodeByte(s.inodes[i], o)
  {
    hide DinodeByte, BitsByte;
    InodeRange(s, sb, i);
    InBlock(i, o);
  }

  lemma InBlock(i: nat, o: nat)
    requires o < 64
    ensures var y := i % IPB * 64 + o; y < BSIZE && i / IPB * IPB + y / 64 == i && y % 64 == o
  {
  }

  lemma BitFrom(s: Image, t: Image, sb: Super, b: nat)
    requires Fitted(s, sb) && Fitted(t, sb) && t.meta == s.meta && b < |s.bitmap| == |t.bitmap|
    requires sb.inodestart <= BitsAt(b, sb.bmapstart)
    requires BlockOf(s, sb, BitsAt(b, sb.bmapstart)) == BlockOf(t, sb, BitsAt(b, sb.bmapstart))
    ensures s.bitmap[b] == t.bitmap[b]
  {
    hide InodeByte, BitsByte, Shape;
    var x, o := BitsAt(b, sb.bmapstart), b % BPB / 8;
    BitsRange(s, sb, b);
    InByte(b);
    assert BlockOf(s, sb, x)[o] == BlockOf(t, sb, x)[o];
    ByteBits(s.bitmap, t.bitmap, b / BPB * BPB + 8 * o, b);
  }

  lemma InByte(b: nat)
    ensures var o := b % BPB / 8; o < BSIZE && b / BPB * BPB + 8 * o <= b < b / BPB * BPB + 8 * o + 8
  {
  }

  /** A disk holds one image's files only. */
  lemma OneImage(d: Disk, s: Image, t: Image, sb: Super)
    requires Fitted(s, sb) && Fitted(t, sb) && t.meta == s.meta && |t.inodes| == |s.inodes| && Inv(s) && Inv(t)
    requires HoldsImage(d, s, sb) && HoldsImage(d, t, sb)
    ensures t.bitmap == s.bitmap && t.inodes == s.inodes && Files(t) == Files(s)
  {
    hide Inv, BlockOf, Files, BitsAt, InodeAt;
    forall b | 0 <= b < |s.bitmap|
      ensures t.bitmap[b] == s.bitmap[b]
    {
      BitsRange(s, sb, b);
      HeldAt(d, s, t, sb, BitsAt(b, sb.bmapstart));
      BitFrom(s, t, sb, b);
    }
    forall i | 0 <= i < |s.inodes|
      ensures t.inodes[i] == s.inodes[i]
    {
      InodeRange(s, sb, i);
      HeldAt(d, s, t, sb, InodeAt(i, sb.inodestart));
      InodeFrom(s, t, sb, i);
    }
    SameFiles(d, s, t, sb);
  }

  lemma HeldAt(d: Disk, s: Image, t: Image, sb: Super, x: nat)
    requires Fitted(s, sb) && Fitted(t, sb) && HoldsImage(d, s, sb) && HoldsImage(d, t, sb) && sb.inodestart <= x < |d|
    ensures BlockOf(s, sb, x) == d[x] == BlockOf(t, sb, x)
  {
    hide BlockOf, Shape;
  }

  lemma BitsRange(s: Image, sb: Super, b: nat)
    requires Fitted(s, sb) && b < |s.bitmap|
    ensures sb.inodestart <= sb.bmapstart <= BitsAt(b, sb.bmapstart) < s.meta <= |s.data|
  {
    hide Shape;
    BitsMono(b, |s.bitmap|);
    ShapeSizes(s);
  }

  lemma InodeRange(s: Image, sb: Super, i: nat)
    requires Fitted(s, sb) && i < |s.inodes|
    ensures sb.inodestart <= InodeAt(i, sb.inodestart) < sb.bmapstart < s.meta <= |s.data|
  {
    hide Shape;
    InodeMono(i, |s.inodes|);
    ShapeSizes(s);
  }

  lemma MetaRange(s: Image, sb: Super)
    requires Fitted(s, sb)
    ensures sb.inodestart <= s.meta
  {
    hide Shape;
  }

  lemma ShapeSizes(s: Image)
    requires Shape(s)
    ensures s.meta <= |s.bitmap| == |s.data|
  {
  }

  lemma BitsMono(i: nat, n: nat)
    requires i <= n
    ensures i / BPB <= n / BPB
  {
  }

  lemma InodeMono(i: nat, n: nat)
    requires i <= n
    ensures i / IPB <= n / IPB
  {
  }

  lemma SameFiles(d: Disk, s: Image, t: Image, sb: Super)
    requires Fitted(s, sb) && Fitted(t, sb) && t.meta == s.meta && t.inodes == s.inodes && Inv(s) && Inv(t)
    requires HoldsImage(d, s, sb) && HoldsImage(d, t, sb)
    ensures Files(t) == Files(s)
  {
    hide BlockOf, Inv;
    forall i, o | 0 <= i < |s.inodes| && 0 <= o < MAXFILE * BSIZE
      ensures ByteAt(t, i, o) == ByteAt(s, i, o)
    {
      SameByte(d, s, t, sb, i, o);
    }
    forall i | 0 <= i < |s.inodes|
      ensures Content(t, i) == Content(s, i)
    {
    }
  }

  lemma SameByte(d: Disk, s: Image, t: Image, sb: Super, i: nat, o: nat)
    requires Fitted(s, sb) && Fitted(t, sb) && t.meta == s.meta && t.inodes == s.inodes && Inv(s) && Inv(t)
    requires HoldsImage(d, s, sb) && HoldsImage(d, t, sb) && i < |s.inodes| && o < MAXFILE * BSIZE
    ensures ByteAt(t, i, o) == ByteAt(s, i, o)
  {
    var k := SlotOf(o / BSIZE);
    SameSlot(d, s, t, sb, i, NDIRECT);
    SameSlot(d, s, t, sb, i, k);
  }

  /** The same address, above the metadata, and the same block there. */
  lemma SameSlot(d: Disk, s: Image, t: Image, sb: Super, i: nat, k: nat)
    requires Fitted(s, sb) && Fitted(t, sb) && t.meta == s.meta && t.inodes == s.inodes && Inv(s) && Inv(t)
    requires HoldsImage(d, s, sb) && HoldsImage(d, t, sb) && i < |s.inodes| && k < SLOTS
    ensures Addr(s, i, k) == Addr(t, i, k)
    ensures Addr(s, i, k) != 0 ==> s.meta <= Addr(s, i, k) < |s.data| == |t.data| && s.data[Addr(s, i, k)] == t.data[Addr(s, i, k)]
  {
    hide Mapped, GetWord;
    AboveMeta(d, s, t, sb, i, NDIRECT);
    AboveMeta(d, s, t, sb, i, k);
  }

  lemma AboveMeta(d: Disk, s: Image, t: Image, sb: Super, i: nat, k: nat)
    requires Fitted(s, sb) && Fitted(t, sb) && t.meta == s.meta && Inv(s)
    requires HoldsImage(d, s, sb) && HoldsImage(d, t, sb) && i < |s.inodes| && k < SLOTS
    ensures var a := Addr(s, i, k); a != 0 ==> s.meta <= a < |s.data| == |t.data| && s.data[a] == t.data[a]
  {
    hide Mapped, Addr;
    var a := Addr(s, i, k);
    assert AddrOk(s, i, k);
    if a != 0 {
      assert BlockOk(s, a);
      MetaRange(s, sb);
      assert d[a] == BlockOf(s, sb, a) == BlockOf(t, sb, a);
    }
  }

  // ---- the format of the disk ----

  /** The little-endian numbers at an offset of a block. */
  function Le16(v: Block, off: nat): (n: nat)
    requires off + 2 <= BSIZE
  {
    v[off] as int + 0x100 * v[off + 1] as int
  }

  function Le32(v: Block, off: nat): (n: nat)
    requires off + 4 <= BSIZE
  {
    v[off] as int + 0x100 * v[off + 1] as int + 0x1_0000 * v[off + 2] as int + 0x100_0000 * v[off + 3] as int
  }

  /** A 16-bit number read as signed. */
  function Signed(n: nat): (x: int) {
    if n < 0x8000 then n else n - 0x1_0000
  }

  /** Inode i is the 64 bytes at 64 * (i % 16) of block inodestart + i / 16: type, major, minor and nlink in two bytes
      each, the size in four, then thirteen addresses in four each. */
  ghost predicate InodeThere(d: Disk, sb: Super, i: nat, e: Dinode) {
    && sb.inodestart + i / 16 < |d|
    && var v, off := d[sb.inodestart + i / 16], 64 * (i % 16);
       && Signed(Le16(v, off)) == e.kind && Signed(Le16(v, off + 2)) == e.major && Signed(Le16(v, off + 4)) == e.minor
       && Signed(Le16(v, off + 6)) == e.nlink && Le32(v, off + 8) == e.size
       && forall j :: 0 <= j < 13 ==> Le32(v, off + 12 + 4 * j) == e.addrs[j]
  }

  lemma FourBytes(v: Block, off: nat, w: Word)
    requires off + 4 <= BSIZE && forall k :: 0 <= k < 4 ==> v[off + k] == ByteOf(w, k)
    ensures Le32(v, off) == w
  {
    WordDigits(w);
    assert v[off] == v[off + 0] == ByteOf(w, 0) && v[off + 1] == ByteOf(w, 1);
    assert v[off + 2] == ByteOf(w, 2) && v[off + 3] == ByteOf(w, 3);
  }

  lemma FirstBytes(v: Block, off: nat, x: Short)
    requires off + 2 <= BSIZE && v[off] == ByteOf(Unsigned(x), 0) && v[off + 1] == ByteOf(Unsigned(x), 1)
    ensures Signed(Le16(v, off)) == x
  {
    TwoBytes(Unsigned(x));
  }

  /** The 64 bytes at off are those of e. */
  ghost predicate BytesOf(v: Block, off: nat, e: Dinode) {
    off + 64 <= BSIZE && e.size < TWO32 && forall o :: 0 <= o < 64 ==> v[off + o] == DinodeByte(e, o)
  }

  lemma ShortsThere(v: Block, off: nat, e: Dinode, f: nat)
    requires BytesOf(v, off, e) && f < 4
    ensures Signed(Le16(v, off + 2 * f)) == Field(e, f)
  {
    hide ByteOf;
    assert v[off + 2 * f] == DinodeByte(e, 2 * f) && v[off + (2 * f + 1)] == DinodeByte(e, 2 * f + 1);
    FirstBytes(v, off + 2 * f, Field(e, f));
  }

  lemma SizeThere(v: Block, off: nat, e: Dinode)
    requires BytesOf(v, off, e)
    ensures Le32(v, off + 8) == e.size
  {
    hide ByteOf;
    forall k | 0 <= k < 4
      ensures v[off + 8 + k] == ByteOf(e.size, k)
    {
      assert v[off + (8 + k)] == DinodeByte(e, 8 + k);
    }
    FourBytes(v, off + 8, e.size);
  }

  lemma AddrThere(v: Block, off: nat, e: Dinode, j: nat)
    requires BytesOf(v, off, e) && j < 13
    ensures Le32(v, off + 12 + 4 * j) == e.addrs[j]
  {
    hide ByteOf;
    forall k | 0 <= k < 4
      ensures v[off + 12 + 4 * j + k] == ByteOf(e.addrs[j], k)
    {
      assert v[off + (12 + 4 * j + k)] == DinodeByte(e, 12 + 4 * j + k);
    }
    FourBytes(v, off + 12 + 4 * j, e.addrs[j]);
  }

  lemma InodeOnDisk(d: Disk, s: Image, sb: Super, i: nat)
    requires Fitted(s, sb) && HoldsImage(d, s, sb) && i < |s.inodes|
    ensures InodeThere(d, sb, i, s.inodes[i])
  {
    hide BlockOf, Shape, BytesOf, Le16, Le32, Signed, HoldsImage;
    var x, off, e := InodeAt(i, sb.inodestart), 64 * (i % 16), s.inodes[i];
    InodeRange(s, sb, i);
    DiskSize(d, s, sb);
    HeldAt(d, s, s, sb, x);
    var v := d[x];
    BytesThere(s, sb, i, v);
    ShortsThere(v, off, e, 0);
    ShortsThere(v, off, e, 1);
    ShortsThere(v, off, e, 2);
    ShortsThere(v, off, e, 3);
    SizeThere(v, off, e);
    forall j | 0 <= j < 13
      ensures Le32(v, off + 12 + 4 * j) == e.addrs[j]
    {
      AddrThere(v, off, e, j);
    }
  }

  lemma DiskSize(d: Disk, s: Image, sb: Super)
    requires Fitted(s, sb) && HoldsImage(d, s, sb)
    ensures |d| == |s.data|
  {
  }

  lemma BytesThere(s: Image, sb: Super, i: nat, v: Block)
    requires Fitted(s, sb) && i < |s.inodes| && v == BlockOf(s, sb, InodeAt(i, sb.inodestart))
    ensures BytesOf(v, 64 * (i % 16), s.inodes[i])
  {
    hide BlockOf, DinodeByte, Shape;
    ByteIn(s, sb, i, 0);
    forall o | 0 <= o < 64
      ensures v[64 * (i % 16) + o] == DinodeByte(s.inodes[i], o)
    {
      ByteIn(s, sb, i, o);
    }
  }

  /** Bit k of a byte. */
  function BitIn(b: Byte, k: nat): (r: bool)
    requires k < 8
  {
    b / (if k == 0 then 1 else if k == 1 then 2 else if k == 2 then 4 else if k == 3 then 8
         else if k == 4 then 16 else if k == 5 then 32 else if k == 6 then 64 else 128) % 2 == 1
  }

  /** Block b is in use exactly if bit b % 8 of byte b % 8192 / 8 of block bmapstart + b / 8192 is set. */
  lemma BitOnDisk(d: Disk, s: Image, sb: Super, b: nat)
    requires Fitted(s, sb) && HoldsImage(d, s, sb) && b < |s.bitmap|
    ensures sb.bmapstart + b / 8192 < |d| && (BitIn(d[sb.bmapstart + b / 8192][b % 8192 / 8], b % 8) <==> s.bitmap[b])
  {
    hide InodeByte, BitsByte, Shape, BlockOf, Bit, BitIn, HoldsImage;
    BitsRange(s, sb, b);
    DiskSize(d, s, sb);
    HeldAt(d, s, s, sb, BitsAt(b, sb.bmapstart));
    BitmapByte(s, sb, BitsAt(b, sb.bmapstart), b % 8192 / 8);
    BitPlace(b);
    ByteHas(s.bitmap, b / 8192 * 8192 + 8 * (b % 8192 / 8), b % 8);
    BitIs(s.bitmap, b);
  }

  lemma BitPlace(b: nat)
    ensures b / 8192 * 8192 + 8 * (b % 8192 / 8) + b % 8 == b
  {
    assert b % 8192 % 8 == b % 8;
  }

  lemma BitmapByte(s: Image, sb: Super, x: nat, o: nat)
    requires Fitted(s, sb) && sb.bmapstart <= x < s.meta && o < BSIZE
    ensures sb.inodestart <= x && BlockOf(s, sb, x)[o] == BitsByte(s.bitmap, (x - sb.bmapstart) * BPB + 8 * o)
  {
    hide BitsByte, Shape, InodeByte;
  }

  lemma BitIs(bits: seq<bool>, b: nat)
    requires b < |bits|
    ensures Bit(bits, b) == 1 <==> bits[b]
  {
  }

  lemma ByteHas(bits: seq<bool>, i: nat, k: nat)
    requires k < 8
    ensures BitIn(BitsByte(bits, i), k) <==> Bit(bits, i + k) == 1
  {
    hide Bit;
    BitSmall(bits);
    EightDigits(Bit(bits, i), Bit(bits, i + 1), Bit(bits, i + 2), Bit(bits, i + 3), Bit(bits, i + 4), Bit(bits, i + 5),
                Bit(bits, i + 6), Bit(bits, i + 7));
  }

  /** The digits of a binary number. */
  lemma EightDigits(a: nat, b: nat, c: nat, d: nat, e: nat, f: nat, g: nat, h: nat)
    requires a < 2 && b < 2 && c < 2 && d < 2 && e < 2 && f < 2 && g < 2 && h < 2
    ensures var n := a + 2 * b + 4 * c + 8 * d + 16 * (e + 2 * f + 4 * g + 8 * h);
            && n % 2 == a && n / 2 % 2 == b && n / 4 % 2 == c && n / 8 % 2 == d
            && n / 16 % 2 == e && n / 32 % 2 == f && n / 64 % 2 == g && n / 128 % 2 == h
  {
    var n := a + 2 * b + 4 * c + 8 * d + 16 * (e + 2 * f + 4 * g + 8 * h);
    assert n / 2 == b + 2 * (c + 2 * d + 4 * e + 8 * f + 16 * g + 32 * h);
    assert n / 4 == c + 2 * (d + 2 * e + 4 * f + 8 * g + 16 * h);
    assert n / 8 == d + 2 * (e + 2 * f + 4 * g + 8 * h);
    assert n / 16 == e + 2 * (f + 2 * g + 4 * h);
    assert n / 32 == f + 2 * (g + 2 * h);
    assert n / 64 == g + 2 * h;
    assert n / 128 == h;
  }

  /** Byte o of file i, found on the disk as readi finds it: through one of the inode's first twelve addresses, or
      through the block of addresses that the thirteenth names. */
  ghost predicate ByteThere(d: Disk, sb: Super, i: nat, o: nat, b: Byte) {
    && sb.inodestart + i / 16 < |d|
    && var v, off, n := d[sb.inodestart + i / 16], 64 * (i % 16) + 12, o / 1024;
       var a := if n < 12 then Le32(v, off + 4 * n)
                else var w := Le32(v, off + 48); if w < |d| && n < 268 then Le32(d[w], 4 * (n - 12)) else 0;
       a < |d| && d[a][o % 1024] == b
  }

  lemma FileOnDisk(d: Disk, s: Image, sb: Super, i: nat, o: nat)
    requires Fitted(s, sb) && HoldsImage(d, s, sb) && Inv(s) && i < |s.inodes| && o < s.inodes[i].size
    ensures s.inodes[i].size <= MAXFILE * BSIZE && ByteThere(d, sb, i, o, Content(s, i)[o])
  {
    hide Mapped, BlockOf, GetWord, Owned;
    InodeOnDisk(d, s, sb, i);
    SizeFits(s, i);
    var n := o / BSIZE;
    BlockThere(s, i, n);
    AboveMeta(d, s, s, sb, i, SlotOf(n));
    AboveMeta(d, s, s, sb, i, NDIRECT);
    var a := Addr(s, i, SlotOf(n));
    HeldBlock(d, s, sb, a);
    if n >= NDIRECT {
      var w := s.inodes[i].addrs[NDIRECT];
      assert w == Addr(s, i, NDIRECT);
      HeldBlock(d, s, sb, w);
      WordIs(s.data[w], n - NDIRECT);
    }
  }

  lemma SizeFits(s: Image, i: nat)
    requires Shape(s) && i < |s.inodes|
    ensures s.inodes[i].size <= MAXFILE * BSIZE
  {
  }

  lemma BlockThere(s: Image, i: nat, n: nat)
    requires Inv(s) && i < |s.inodes| && n < MAXFILE && n * BSIZE < s.inodes[i].size
    ensures Addr(s, i, SlotOf(n)) != 0 && (n >= NDIRECT ==> Addr(s, i, NDIRECT) != 0)
  {
    hide Owned;
    assert MappedTo(s, i, s.inodes[i].size);
  }

  lemma HeldBlock(d: Disk, s: Image, sb: Super, a: nat)
    requires Fitted(s, sb) && HoldsImage(d, s, sb) && s.meta <= a < |s.data|
    ensures a < |d| && d[a] == s.data[a]
  {
    hide Shape, InodeBlock, BitmapBlock;
    MetaRange(s, sb);
  }

  lemma WordIs(v: Block, j: nat)
    requires j < WORDS
    ensures GetWord(v, j) == Le32(v, 4 * j)
  {
  }
}
