/**
 * The -b mode of kdiff: read both files a byte at a time, count the
 * positions where they differ, then count every byte the longer file has
 * beyond the shorter one.
 */
module ByteDiff {

  type Byte = x: int | 0 <= x < 256

  /** What getc returns at the end of a file. */
  const EOF := -1

  /** getc on a file read up to pos: the next byte or EOF. */
  function Getc(file: seq<Byte>, pos: nat): (c: int)
    ensures c == EOF <==> pos >= |file|
  {
    if pos < |file| then file[pos] else EOF
  }

  /** The positions below k where the two files hold different bytes. */
  function Mismatches(a: seq<Byte>, b: seq<Byte>, k: nat): (r: nat)
    requires k <= |a| && k <= |b|
    ensures r <= k
  {
    if k == 0 then 0 else Mismatches(a, b, k - 1) + (if a[k - 1] != b[k - 1] then 1 else 0)
  }

  function Min(x: nat, y: nat): nat { if x <= y then x else y }
  function Max(x: nat, y: nat): nat { if x <= y then y else x }

  /**
   * The count kdiff -b reports: mismatches over the common length plus the
   * length difference, so at least that difference and at most the longer
   * length.
   */
  function Distance(a: seq<Byte>, b: seq<Byte>): (r: nat)
    ensures Max(|a|, |b|) - Min(|a|, |b|) <= r <= Max(|a|, |b|)
  {
    Mismatches(a, b, Min(|a|, |b|)) + (Max(|a|, |b|) - Min(|a|, |b|))
  }

  /** The three getc loops of kdiff -b. */
  method CountByteDiffs(file1: seq<Byte>, file2: seq<Byte>) returns (diffcounter: nat)
    ensures diffcounter == Distance(file1, file2)
  {
    diffcounter := 0;
    var i := 0;
    var char1 := Getc(file1, i);
    var char2 := Getc(file2, i);
    while char1 != EOF && char2 != EOF
      invariant i <= |file1| && i <= |file2|
      invariant char1 == Getc(file1, i) && char2 == Getc(file2, i)
      invariant diffcounter == Mismatches(file1, file2, i)
      decreases |file1| - i
    {
      if char1 != char2 {
        diffcounter := diffcounter + 1;
      }
      i := i + 1;
      char1 := Getc(file1, i);
      char2 := Getc(file2, i);
    }
    assert i == Min(|file1|, |file2|);
    var j := i;
    while char1 != EOF
      invariant i <= j <= |file1|
      invariant char1 == Getc(file1, j)
      invariant diffcounter == Mismatches(file1, file2, i) + (j - i)
      decreases |file1| - j
    {
      diffcounter := diffcounter + 1;
      j := j + 1;
      char1 := Getc(file1, j);
    }
    var k := i;
    while char2 != EOF
      invariant i <= k <= |file2|
      invariant char2 == Getc(file2, k)
      invariant diffcounter == Mismatches(file1, file2, i) + (j - i) + (k - i)
      decreases |file2| - k
    {
      diffcounter := diffcounter + 1;
      k := k + 1;
      char2 := Getc(file2, k);
    }
  }

  /** The mismatch count is symmetric. */
  lemma {:induction false} MismatchesShape(a: seq<Byte>, b: seq<Byte>, k: nat)
    requires k <= |a| && k <= |b|
    ensures Mismatches(a, b, k) == Mismatches(b, a, k)
  {
    if k > 0 {
      MismatchesShape(a, b, k - 1);
    }
  }

  /** No mismatch below k exactly when the files agree below k. */
  lemma {:induction false} MismatchesZero(a: seq<Byte>, b: seq<Byte>, k: nat)
    requires k <= |a| && k <= |b|
    ensures Mismatches(a, b, k) == 0 <==> a[..k] == b[..k]
  {
    if k > 0 {
      MismatchesZero(a, b, k - 1);
      assert a[..k] == a[..k - 1] + [a[k - 1]];
      assert b[..k] == b[..k - 1] + [b[k - 1]];
      if a[..k] == b[..k] {
        assert a[..k - 1] == a[..k][..k - 1];
        assert b[..k - 1] == b[..k][..k - 1];
        assert a[k - 1] == a[..k][k - 1];
        assert b[k - 1] == b[..k][k - 1];
      }
    }
  }

  /** kdiff -b prints "The two files are identical" exactly when the files are equal. */
  lemma DistanceZero(a: seq<Byte>, b: seq<Byte>)
    ensures Distance(a, b) == 0 <==> a == b
  {
    var m := Min(|a|, |b|);
    MismatchesZero(a, b, m);
    if Distance(a, b) == 0 {
      assert |a| == |b|;
      assert a == a[..m] && b == b[..m];
    }
  }

  /** The count does not depend on the order of the files. */
  lemma DistanceBounds(a: seq<Byte>, b: seq<Byte>)
    ensures Distance(a, b) == Distance(b, a)
  {
    MismatchesShape(a, b, Min(|a|, |b|));
  }

  /** Bytes appended to one file count one each. */
  lemma {:induction false} DistanceOfExtension(a: seq<Byte>, extra: seq<Byte>)
    ensures Distance(a, a + extra) == |extra|
  {
    assert (a + extra)[..|a|] == a == a[..|a|];
    MismatchesZero(a, a + extra, |a|);
  }
}
