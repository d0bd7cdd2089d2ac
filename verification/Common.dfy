/** Types and parameters that several parts of the kernel share. */
module Common {

  datatype Option<+T> = None | Some(value: T)

  const TWO32 := 0x1_0000_0000

  type Byte = x: int | 0 <= x < 256
  type Word = x: int | 0 <= x < TWO32
  type Short = x: int | -0x8000 <= x < 0x8000

  const PGSIZE := 4096
  const MAXVA := 0x40_0000_0000      // 1L << (9 + 9 + 9 + 12 - 1)
  const MAXOPBLOCKS := 10
  const NPROC := 64
  /** Entries of a page-table page. */
  const ENTRIES := 512

  function Min(a: nat, b: nat): (r: nat) {
    if a < b then a else b
  }

  /** Addition of unsigned ints. */
  function Add32(a: Word, b: Word): (r: Word) {
    (a + b) % TWO32
  }

  lemma SubsetSize<T>(s: set<T>, t: set<T>)
    requires s <= t
    ensures |s| <= |t|
  {
    assert t == s + (t - s);
  }

  lemma {:induction false} DistinctSize<T>(s: seq<T>)
    requires forall i, j :: 0 <= i < j < |s| ==> s[i] != s[j]
    ensures |(set i | 0 <= i < |s| :: s[i])| == |s|
  {
    if s != [] {
      var k := |s| - 1;
      DistinctSize(s[..k]);
      assert (set i | 0 <= i < |s| :: s[i]) == (set i | 0 <= i < k :: s[..k][i]) + {s[k]};
    }
  }

  /** The n numbers from lo on. */
  function Interval(lo: nat, n: nat): (s: set<nat>)
    ensures |s| == n && forall x: nat :: x in s <==> lo <= x < lo + n
  {
    if n == 0 then {} else Interval(lo, n - 1) + {lo + n - 1}
  }
}
