/** Partition policy of the uploader: a file of `fileSize` bytes is cut into
    `TotalParts` contiguous byte ranges. Part i starts at (i-1)*partSize and
    ends at i*partSize, where partSize is fileSize divided by TotalParts with
    Go's truncating division, except that the last part always ends at
    fileSize and so absorbs the remainder. */
module Partition {

  /** The fixed number of parts, whatever the size of the file. */
  const TotalParts: int := 10

  /** Bounds of Go's int64, the type of file sizes and offsets in src/main.go. */
  const Int64Min: int := -0x8000_0000_0000_0000
  const Int64Max: int := 0x7fff_ffff_ffff_ffff

  /** Go's integer `/`: the quotient truncated toward zero (Dafny's `/` is
      Euclidean and differs for a negative dividend). */
  function Quo(a: int, d: int): (q: int)
    requires d > 0
    ensures a >= 0 ==> 0 <= a - d * q < d
    ensures a < 0 ==> -d < a - d * q <= 0
  {
    if a >= 0 then a / d else -((-a) / d)
  }

  /** Go's integer `%`: the remainder that goes with Quo, carrying the sign of
      the dividend. */
  function Rem(a: int, d: int): (r: int)
    requires d > 0
    ensures a >= 0 ==> 0 <= r < d
    ensures a < 0 ==> -d < r <= 0
  {
    a - d * Quo(a, d)
  }

  /** For the non-negative sizes a file can have, Go's and Dafny's division
      and remainder agree. */
  lemma QuoRemNonNegative(a: int, d: int)
    requires a >= 0 && d > 0
    ensures Quo(a, d) == a / d && Rem(a, d) == a % d
  {
  }

  /** `partSize := fileSize / int64(totalParts)`: for a non-negative size,
      the largest length of which TotalParts copies fit in the file. */
  function PartSize(fileSize: int): (p: int)
    ensures fileSize >= 0 ==> 0 <= p && TotalParts * p <= fileSize < TotalParts * (p + 1)
  {
    Quo(fileSize, TotalParts)
  }

  /** A part: its 1-based number and the byte range [start, end) it covers. */
  datatype PartRange = PartRange(number: int, start: int, end: int)
  {
    function Length(): int { end - start }
    predicate Contains(offset: int) { start <= offset < end }
  }

  /** k * p written as repeated addition, so that facts about the product
      follow by induction on k. */
  function Times(k: nat, p: int): int
  {
    if k == 0 then 0 else Times(k - 1, p) + p
  }

  lemma {:induction false} TimesIsProduct(k: nat, p: int)
    ensures Times(k, p) == k * p
  {
    if k > 0 {
      TimesIsProduct(k - 1, p);
    }
  }

  /** For a non-negative p, Times grows with k; for a negative one it shrinks. */
  lemma {:induction false} TimesMonotone(j: nat, k: nat, p: int)
    requires j <= k
    ensures p >= 0 ==> Times(j, p) <= Times(k, p)
    ensures p < 0 ==> Times(k, p) <= Times(j, p)
    decreases k - j
  {
    if j < k {
      TimesMonotone(j, k - 1, p);
    }
  }

  /** Every multiple k*partSize with k <= TotalParts lies between 0 and fileSize. */
  lemma TimesWithinFile(k: nat, fileSize: int)
    requires k <= TotalParts
    ensures fileSize >= 0 ==> 0 <= Times(k, PartSize(fileSize)) <= fileSize
    ensures fileSize < 0 ==> fileSize <= Times(k, PartSize(fileSize)) <= 0
  {
    var p := PartSize(fileSize);
    TimesMonotone(0, k, p);
    TimesMonotone(k, TotalParts, p);
    TimesIsProduct(TotalParts, p);
  }

  /** The range of part i, as the upload loop computes it: it starts at
      (i-1)*partSize and ends at i*partSize, or at fileSize for the last part.
      Every bound lies between 0 and fileSize (on either side of 0); starts
      never pass ends for a non-negative size, nor ends pass starts for a
      negative one. */
  function Bounds(i: int, fileSize: int): (r: PartRange)
    requires 1 <= i <= TotalParts
    ensures r.number == i
    ensures fileSize >= 0 ==> 0 <= r.start <= r.end <= fileSize
    ensures fileSize < 0 ==> fileSize <= r.end <= r.start <= 0
  {
    var p := PartSize(fileSize);
    TimesWithinFile(i - 1, fileSize);
    TimesWithinFile(i, fileSize);
    var start := Times(i - 1, p);
    var end := if i == TotalParts then fileSize else Times(i, p);
    PartRange(i, start, end)
  }

  /** All parts in loop order (element k is part k+1). Together they tile
      [0, fileSize): the first starts at 0, each ends where the next starts,
      and the last ends at fileSize. */
  function Ranges(fileSize: int): (rs: seq<PartRange>)
    ensures |rs| == TotalParts
    ensures rs[0].start == 0 && rs[TotalParts - 1].end == fileSize
    ensures forall k :: 0 <= k < TotalParts - 1 ==> rs[k].end == rs[k + 1].start
  {
    Contiguous(fileSize);
    seq(TotalParts, k requires 0 <= k < TotalParts => Bounds(k + 1, fileSize))
  }

  /** Sum of the lengths of a sequence of ranges. */
  function TotalLength(rs: seq<PartRange>): int
  {
    if rs == [] then 0 else TotalLength(rs[..|rs| - 1]) + rs[|rs| - 1].Length()
  }

  /** Part i starts at (i-1)*partSize and ends at i*partSize, except the last
      part, which ends at fileSize. */
  lemma BoundsFormula(i: int, fileSize: int)
    requires 1 <= i <= TotalParts
    ensures Bounds(i, fileSize).start == (i - 1) * PartSize(fileSize)
    ensures i < TotalParts ==> Bounds(i, fileSize).end == i * PartSize(fileSize)
    ensures Bounds(TotalParts, fileSize).end == fileSize
  {
    TimesIsProduct(i - 1, PartSize(fileSize));
    TimesIsProduct(i, PartSize(fileSize));
  }

  /** The ranges are contiguous: part 1 starts at 0, every part ends where
      the next begins, and the last ends at fileSize. */
  lemma Contiguous(fileSize: int)
    ensures Bounds(1, fileSize).start == 0
    ensures forall i :: 1 <= i < TotalParts ==> Bounds(i, fileSize).end == Bounds(i + 1, fileSize).start
    ensures Bounds(TotalParts, fileSize).end == fileSize
  {
  }

  /** Parts 1..9 have length partSize; the last has partSize plus Go's
      remainder. For a non-negative size these are fileSize/10 and
      fileSize/10 + fileSize%10, and every length is non-negative. */
  lemma PartLength(i: int, fileSize: int)
    requires 1 <= i <= TotalParts
    ensures i < TotalParts ==> Bounds(i, fileSize).Length() == PartSize(fileSize)
    ensures i == TotalParts ==> Bounds(i, fileSize).Length() == PartSize(fileSize) + Rem(fileSize, TotalParts)
    ensures fileSize >= 0 ==> Bounds(i, fileSize).Length() >= 0
    ensures fileSize >= 0 && i < TotalParts ==> Bounds(i, fileSize).Length() == fileSize / TotalParts
    ensures fileSize >= 0 && i == TotalParts ==>
              Bounds(i, fileSize).Length() == fileSize / TotalParts + fileSize % TotalParts
  {
    BoundsFormula(i, fileSize);
    BoundsFormula(TotalParts - 1, fileSize);
    if fileSize >= 0 {
      QuoRemNonNegative(fileSize, TotalParts);
    }
  }

  /** A file smaller than TotalParts bytes gives nine empty parts, and the
      last part is the whole file. */
  lemma SmallFile(i: int, fileSize: int)
    requires 0 <= fileSize < TotalParts
    requires 1 <= i <= TotalParts
    ensures i < TotalParts ==> Bounds(i, fileSize) == PartRange(i, 0, 0)
    ensures Bounds(TotalParts, fileSize) == PartRange(TotalParts, 0, fileSize)
  {
    assert PartSize(fileSize) == 0;
    BoundsFormula(i, fileSize);
    BoundsFormula(TotalParts, fileSize);
  }

  /** For a non-negative size, an earlier part ends no later than a later
      part starts: parts never overlap. */
  lemma {:induction false} Ordered(i: int, j: int, fileSize: int)
    requires 0 <= fileSize
    requires 1 <= i < j <= TotalParts
    ensures Bounds(i, fileSize).end <= Bounds(j, fileSize).start
  {
    if j > i + 1 {
      Ordered(i, j - 1, fileSize);
      assert Bounds(j - 1, fileSize).start <= Bounds(j - 1, fileSize).end;
    }
  }

  /** No byte belongs to two parts. */
  lemma Disjoint(i: int, j: int, fileSize: int, offset: int)
    requires 0 <= fileSize
    requires 1 <= i <= TotalParts && 1 <= j <= TotalParts
    requires Bounds(i, fileSize).Contains(offset) && Bounds(j, fileSize).Contains(offset)
    ensures i == j
  {
    if i < j {
      Ordered(i, j, fileSize);
    } else if j < i {
      Ordered(j, i, fileSize);
    }
  }

  /** Every byte before the end of part i lies in part i or an earlier one. */
  lemma {:induction false} CoveredUpTo(i: int, fileSize: int, offset: int)
    requires 1 <= i <= TotalParts
    requires 0 <= offset < Bounds(i, fileSize).end
    ensures exists j :: 1 <= j <= i && Bounds(j, fileSize).Contains(offset)
  {
    if offset < Bounds(i, fileSize).start {
      assert i > 1;
      assert Bounds(i - 1, fileSize).end == Bounds(i, fileSize).start;
      CoveredUpTo(i - 1, fileSize, offset);
    } else {
      assert Bounds(i, fileSize).Contains(offset);
    }
  }

  /** Every byte of the file belongs to exactly one part. */
  lemma CoveredOnce(fileSize: int, offset: int)
    requires 0 <= offset < fileSize
    ensures exists i :: 1 <= i <= TotalParts && Bounds(i, fileSize).Contains(offset)
    ensures forall i, j ::
              (1 <= i <= TotalParts && 1 <= j <= TotalParts &&
               Bounds(i, fileSize).Contains(offset) && Bounds(j, fileSize).Contains(offset)) ==> i == j
  {
    CoveredUpTo(TotalParts, fileSize, offset);
    forall i, j | 1 <= i <= TotalParts && 1 <= j <= TotalParts &&
                  Bounds(i, fileSize).Contains(offset) && Bounds(j, fileSize).Contains(offset)
      ensures i == j
    {
      Disjoint(i, j, fileSize, offset);
    }
  }

  /** The lengths of the first n parts add up to where part n ends. */
  lemma {:induction false} PrefixLength(fileSize: int, n: int)
    requires 1 <= n <= TotalParts
    ensures TotalLength(Ranges(fileSize)[..n]) == Bounds(n, fileSize).end
  {
    var rs := Ranges(fileSize);
    assert rs[..n][..n - 1] == rs[..n - 1];
    if n > 1 {
      PrefixLength(fileSize, n - 1);
      assert Bounds(n - 1, fileSize).end == Bounds(n, fileSize).start;
    } else {
      assert rs[..0] == [];
    }
  }

  /** The parts' lengths add up to the file size. */
  lemma LengthsSumToFileSize(fileSize: int)
    ensures TotalLength(Ranges(fileSize)) == fileSize
  {
    PrefixLength(fileSize, TotalParts);
    assert Ranges(fileSize)[..TotalParts] == Ranges(fileSize);
  }

  /** For a size that fits in int64, every start, every end and every
      product the loop forms (including i*partSize for the last part, which
      is computed before being replaced by fileSize) fits in int64 too, so
      the unbounded model agrees with the Go program's 64-bit arithmetic. */
  lemma NoOverflow(i: int, fileSize: int)
    requires Int64Min <= fileSize <= Int64Max
    requires 1 <= i <= TotalParts
    ensures Int64Min <= (i - 1) * PartSize(fileSize) <= Int64Max
    ensures Int64Min <= i * PartSize(fileSize) <= Int64Max
  {
    var p := PartSize(fileSize);
    TimesWithinFile(i - 1, fileSize);
    TimesWithinFile(i, fileSize);
    TimesIsProduct(i - 1, p);
    TimesIsProduct(i, p);
  }

  /** A 100-byte file gives ten 10-byte parts [0,10), [10,20), ..., [90,100). */
  lemma HundredBytes(i: int)
    requires 1 <= i <= TotalParts
    ensures Bounds(i, 100) == PartRange(i, 10 * (i - 1), 10 * i)
  {
    BoundsFormula(i, 100);
  }

  /** A 105-byte file gives nine 10-byte parts and a last part [90,105). */
  lemma HundredAndFiveBytes(i: int)
    requires 1 <= i <= TotalParts
    ensures i < TotalParts ==> Bounds(i, 105) == PartRange(i, 10 * (i - 1), 10 * i)
    ensures Bounds(TotalParts, 105) == PartRange(TotalParts, 90, 105)
  {
    BoundsFormula(i, 105);
    BoundsFormula(TotalParts, 105);
  }
}
