/** How a file is cut into parts: the shared helpers `computePartCount` and `getPartRange`. */
module PartMath {
  const PART_SIZE := 5 * 1024 * 1024

  datatype Range = Range(start: int, end: int, size: int)

  function PartCount(total: int): int {
    if total <= PART_SIZE then 1 else (total + PART_SIZE - 1) / PART_SIZE
  }

  /** The least number of parts, at least one, of five megabytes each that hold the file. */
  lemma PartCountExact(total: int, n: int)
    ensures 1 <= PartCount(total)
    ensures 1 <= n && total <= n * 5_242_880 <==> PartCount(total) <= n
  {
    if n >= 1 && PartCount(total) <= n { assert PartCount(total) * PART_SIZE <= n * PART_SIZE; }
    if n >= 1 && PartCount(total) > n { assert n * PART_SIZE <= (PartCount(total) - 1) * PART_SIZE; }
  }

  function PartRange(part: int, total: int): Range {
    var start := (part - 1) * PART_SIZE;
    var end := if part * PART_SIZE <= total then part * PART_SIZE else total;
    Range(start, end, end - start)
  }

  /**
   The ranges of parts 1 .. PartCount start at 0, follow one another without gap
   or overlap, end at the total and are full but for the last, which is not
   empty; the part number after the last would have nothing to hold.
   */
  lemma RangesTile(total: int, part: int)
    requires total > 0 && 1 <= part <= PartCount(total)
    ensures PartRange(1, total).start == 0
    ensures PartRange(PartCount(total), total).end == total
    ensures var r := PartRange(part, total);
            1 <= r.size <= PART_SIZE && 0 <= r.start < r.end <= total &&
            (part < PartCount(total) ==>
               r.size == PART_SIZE && r.end == PartRange(part + 1, total).start)
    ensures PartRange(PartCount(total) + 1, total).size <= 0
  {
    var n := PartCount(total);
    assert (n - 1) * PART_SIZE < total <= n * PART_SIZE;
    assert part < n ==> part * PART_SIZE <= (n - 1) * PART_SIZE;
    assert (part - 1) * PART_SIZE <= (n - 1) * PART_SIZE;
  }

  /** Every byte lies in exactly one part. */
  lemma ByteInOnePart(total: int, part: int, at: int)
    requires 0 <= at < total && 1 <= part <= PartCount(total)
    ensures 1 <= at / PART_SIZE + 1 <= PartCount(total)
    ensures PartRange(part, total).start <= at < PartRange(part, total).end <==> part == at / PART_SIZE + 1
  {
    var n := PartCount(total);
    assert total <= n * PART_SIZE;
    var q := at / PART_SIZE;
    assert q * PART_SIZE <= at < (q + 1) * PART_SIZE;
    if part - 1 < q { assert part * PART_SIZE <= q * PART_SIZE; }
    if part - 1 > q { assert (q + 1) * PART_SIZE <= (part - 1) * PART_SIZE; }
    assert q < n;
  }

  /** The sizes of the first `parts` parts. */
  function SizeSum(parts: nat, total: int): int {
    if parts == 0 then 0 else SizeSum(parts - 1, total) + PartRange(parts, total).size
  }

  lemma {:induction false} SizesSum(total: int, parts: nat)
    requires total > 0 && parts <= PartCount(total)
    ensures SizeSum(parts, total) == if parts == 0 then 0 else PartRange(parts, total).end
  {
    if parts > 0 {
      SizesSum(total, parts - 1);
      RangesTile(total, parts);
      if parts > 1 { RangesTile(total, parts - 1); }
    }
  }

  function Cut<T>(file: seq<T>, part: int): seq<T>
    requires file != [] && 1 <= part <= PartCount(|file|)
  {
    RangesTile(|file|, part);
    file[PartRange(part, |file|).start..PartRange(part, |file|).end]
  }

  /** Parts 1 .. n of the file put back together. */
  function Glue<T>(file: seq<T>, n: nat): seq<T>
    requires file != [] && n <= PartCount(|file|)
  {
    if n == 0 then [] else Glue(file, n - 1) + Cut(file, n)
  }

  lemma {:induction false} GlueIsPrefix<T>(file: seq<T>, n: nat)
    requires file != [] && n <= PartCount(|file|)
    ensures 0 <= PartRange(n, |file|).end <= |file|
    ensures Glue(file, n) == file[..PartRange(n, |file|).end]
  {
    if n > 0 {
      RangesTile(|file|, n);
      GlueIsPrefix(file, n - 1);
      if n > 1 { RangesTile(|file|, n - 1); }
    }
  }

  /** Cutting a file and gluing all its parts gives the file. */
  lemma GlueAll<T>(file: seq<T>)
    requires file != []
    ensures Glue(file, PartCount(|file|)) == file
  {
    var n := PartCount(|file|);
    RangesTile(|file|, 1);
    GlueIsPrefix(file, n);
    assert file[..|file|] == file;
  }
}
