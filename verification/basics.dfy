/** Types shared by the models: bytes, the unsigned 64-bit range, and an optional value. */
module Basics {

  datatype Option<+T> = None | Some(value: T)

  type Byte = b: int | 0 <= b < 256

  const TWO_64: int := 0x1_0000_0000_0000_0000

  const U64_MAX: int := TWO_64 - 1

  type U64 = n: int | 0 <= n < 0x1_0000_0000_0000_0000

  /** Where a block's section starts in its piece, and the size of the block's data. */
  datatype OffsetSize = OffsetSize(offset: U64, size: U64)

  /** No element occurs twice. */
  ghost predicate NoDup<T>(s: seq<T>) {
    forall i, j :: 0 <= i < j < |s| ==> s[i] != s[j]
  }

  /** Sizes of two sets that differ in at most one given element. */
  lemma SizeWithout<T>(a: set<T>, b: set<T>, t: T)
    requires a - {t} == b - {t}
    ensures |b| == |a| - (if t in a then 1 else 0) + (if t in b then 1 else 0)
  {
    if t in a { assert |a - {t}| == |a| - 1; } else { assert a - {t} == a; }
    if t in b { assert |b - {t}| == |b| - 1; } else { assert b - {t} == b; }
  }
}
