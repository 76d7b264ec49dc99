/**
 * apps/histobytes.c: reads all of standard input, counts how often each
 * byte value occurs and prints one bar per value, scaled so that the most
 * frequent value gets a bar about 76 marks long.
 *
 * The bytes read from standard input are an input of the model; the 256
 * printed lines are its output, one string per line.
 */
module Histobytes {
  import opened Bits

  /** The bar of the most frequent value is scaled to this many marks. */
  const Width: nat := 76

  // ---------------------------------------------------------------------------
  // Counting

  /** The number of indices i < n with buf[i] == v. */
  function Occurrences(buf: seq<byte>, v: byte, n: nat): (c: nat)
    requires n <= |buf|
    ensures c <= n
    ensures c == 0 <==> forall i :: 0 <= i < n ==> buf[i] != v
  {
    if n == 0 then 0 else Occurrences(buf, v, n - 1) + (if buf[n - 1] == v then 1 else 0)
  }

  /** The sum of the counts of the values below k among the first n bytes. */
  function BucketSum(buf: seq<byte>, n: nat, k: nat): nat
    requires n <= |buf| && k <= 256
  {
    if k == 0 then 0 else BucketSum(buf, n, k - 1) + Occurrences(buf, k - 1, n)
  }

  /** The largest of the counts of the values below k. */
  function Tallest(buf: seq<byte>, k: nat): (t: nat)
    requires k <= 256
    ensures t <= |buf|
  {
    if k == 0 then 0
    else
      var t, c := Tallest(buf, k - 1), Occurrences(buf, k - 1, |buf|);
      if t < c then c else t
  }

  /** The count of the most frequent byte value: no more than the bytes
      read. */
  function Peak(buf: seq<byte>): (p: nat)
    ensures p <= |buf|
  {
    Tallest(buf, 256)
  }

  /** One more byte adds one to the sum exactly when its value is counted. */
  lemma {:induction false} BucketSumStep(buf: seq<byte>, n: nat, k: nat)
    requires n < |buf| && k <= 256
    ensures BucketSum(buf, n + 1, k) == BucketSum(buf, n, k) + (if buf[n] < k then 1 else 0)
  {
    if k > 0 {
      BucketSumStep(buf, n, k - 1);
    }
  }

  /** Every byte lands in exactly one bucket: the 256 counts add up to the
      number of bytes. */
  lemma {:induction false} BucketsTotal(buf: seq<byte>, n: nat)
    requires n <= |buf|
    ensures BucketSum(buf, n, 256) == n
  {
    if n > 0 {
      BucketsTotal(buf, n - 1);
      BucketSumStep(buf, n - 1, 256);
    } else {
      NoBytesNoCounts(buf, 256);
    }
  }

  lemma {:induction false} NoBytesNoCounts(buf: seq<byte>, k: nat)
    requires k <= 256
    ensures BucketSum(buf, 0, k) == 0
  {
    if k > 0 {
      NoBytesNoCounts(buf, k - 1);
    }
  }

  lemma {:induction false} TallestIs(buf: seq<byte>, k: nat)
    requires k <= 256
    ensures forall v: byte :: v < k ==> Occurrences(buf, v, |buf|) <= Tallest(buf, k)
    ensures k > 0 ==> exists v: byte :: v < k && Occurrences(buf, v, |buf|) == Tallest(buf, k)
  {
    if k > 0 {
      TallestIs(buf, k - 1);
      if k > 1 && Tallest(buf, k - 1) >= Occurrences(buf, k - 1, |buf|) {
        var w: byte :| w < k - 1 && Occurrences(buf, w, |buf|) == Tallest(buf, k - 1);
        assert Occurrences(buf, w, |buf|) == Tallest(buf, k);
      } else {
        assert Occurrences(buf, k - 1, |buf|) == Tallest(buf, k);
      }
    }
  }

  /** Peak is the count of some byte value and no count exceeds it. */
  lemma PeakIsLargest(buf: seq<byte>)
    ensures forall v: byte :: Occurrences(buf, v, |buf|) <= Peak(buf)
    ensures exists v: byte :: Occurrences(buf, v, |buf|) == Peak(buf)
  {
    TallestIs(buf, 256);
  }

  /** A count that bounds every bucket and is itself a bucket's count is the
      peak. */
  lemma PeakUnique(buf: seq<byte>, m: nat)
    requires forall v: byte :: Occurrences(buf, v, |buf|) <= m
    requires exists v: byte :: Occurrences(buf, v, |buf|) == m
    ensures m == Peak(buf)
  {
    PeakIsLargest(buf);
    var w: byte :| Occurrences(buf, w, |buf|) == Peak(buf);
    var u: byte :| Occurrences(buf, u, |buf|) == m;
    assert Peak(buf) <= m && m <= Peak(buf);
  }

  /** A non-empty input has a value that occurs. */
  lemma PeakPositive(buf: seq<byte>)
    requires |buf| > 0
    ensures Peak(buf) > 0
  {
    PeakIsLargest(buf);
    assert Occurrences(buf, buf[0], 1) == 1;
    OccurrencesGrow(buf, buf[0], 1, |buf|);
  }

  lemma {:induction false} OccurrencesGrow(buf: seq<byte>, v: byte, n: nat, n': nat)
    requires n <= n' <= |buf|
    ensures Occurrences(buf, v, n) <= Occurrences(buf, v, n')
    decreases n' - n
  {
    if n < n' {
      OccurrencesGrow(buf, v, n, n' - 1);
    }
  }

  /** Fills `histo` from `buf` and keeps the running maximum `max` (lines
      19-24). */
  method Tally(buf: seq<byte>) returns (histo: array<nat>, max: nat)
    ensures fresh(histo) && histo.Length == 256
    ensures forall v: byte :: histo[v] == Occurrences(buf, v, |buf|)
    ensures max == Peak(buf)
  {
    histo := new nat[256](_ => 0);
    max := 0;
    ghost var top: byte := 0;
    var ii := 0;
    while ii < |buf|
      invariant ii <= |buf|
      invariant forall v: byte :: histo[v] == Occurrences(buf, v, ii)
      invariant forall v: byte :: histo[v] <= max
      invariant histo[top] == max
    {
      var b := buf[ii];
      histo[b] := histo[b] + 1;
      if max < histo[b] {
        max := histo[b];
        top := b;
      }
      ii := ii + 1;
    }
    PeakUnique(buf, max);
  }

  // ---------------------------------------------------------------------------
  // Scaling

  /** `max/76` after `max` is raised to at least 76 (lines 26, 32). */
  function Divisor(buf: seq<byte>): (q: nat)
    ensures q >= 1
    ensures Width * q <= (if Peak(buf) < Width then Width else Peak(buf)) < Width * q + Width
  {
    (if Peak(buf) < Width then Width else Peak(buf)) / Width
  }

  /** The number of marks on a bar for count c: one for any non-zero count,
      then c/q more (lines 30-34). */
  function Marks(c: nat, q: nat): (m: nat)
    requires q >= 1
    ensures m == 0 <==> c == 0
  {
    (if c != 0 then 1 else 0) + c / q
  }

  /** A bucket's bar is at most 151 marks past the mark for a non-zero
      count, because every count is at most the raised maximum; the most
      frequent value, when it occurs at least 76 times, gets at least 76. */
  lemma ScaledBounds(c: nat, m: nat)
    requires c <= m && m >= Width
    ensures c / (m / Width) <= 2 * Width - 1
    ensures m / (m / Width) >= Width
  {
    var q := m / Width;
    assert q >= 1;
    var b := c / q;
    assert q * b <= c;
    if b > 2 * Width - 1 {
      MulOrder(q, b, 2 * Width - 1);
      assert false;
    }
    var t := m / q;
    assert m < q * t + q;
    if t < Width {
      MulOrder(q, Width - 1, t);
      assert false;
    }
  }

  /** Bars keep the order of the counts. */
  lemma BarsOrdered(c: nat, c': nat, q: nat)
    requires q >= 1 && c <= c'
    ensures Marks(c, q) <= Marks(c', q)
  {
    var b, b' := c / q, c' / q;
    assert q * b <= c && c' < q * b' + q;
    if b > b' {
      MulStep(q, b, b');
      assert false;
    }
  }

  /** Every bar of a report is at most 152 marks long. */
  lemma MarksBound(buf: seq<byte>, v: byte)
    ensures Marks(Occurrences(buf, v, |buf|), Divisor(buf)) <= 2 * Width
  {
    PeakIsLargest(buf);
    ScaledBounds(Occurrences(buf, v, |buf|), if Peak(buf) < Width then Width else Peak(buf));
  }

  // ---------------------------------------------------------------------------
  // Printing

  /** The hexadecimal digit d, lower case as `%x` prints it. */
  function HexDigit(d: nat): char
    requires d < 16
  {
    if d < 10 then ('0' as int + d) as char else ('a' as int + d - 10) as char
  }

  /** `%2x`: two hexadecimal digits, the first a space below 0x10. */
  function Hex2(v: byte): (s: string)
    ensures |s| == 2
  {
    if v < 16 then [' ', HexDigit(v)] else [HexDigit(v / 16), HexDigit(v % 16)]
  }

  function DigitValue(c: char): int
  {
    if '0' <= c <= '9' then c as int - '0' as int else c as int - 'a' as int + 10
  }

  /** Reads back a `%2x` field. */
  function HexValue(s: string): int
    requires |s| == 2
  {
    16 * (if s[0] == ' ' then 0 else DigitValue(s[0])) + DigitValue(s[1])
  }

  /** The label of a line names its bucket. */
  lemma HexRoundTrip(v: byte)
    ensures HexValue(Hex2(v)) == v
  {
    if v >= 16 {
      DivUnique(v, 16, v / 16, v % 16);
    }
  }

  function Hashes(n: nat): (s: string)
    ensures |s| == n
  {
    seq(n, _ => '#')
  }

  /** Line v of the report for count c and divisor q (lines 29-35). */
  function Line(v: byte, c: nat, q: nat): (s: string)
    requires q >= 1
    ensures |s| == Marks(c, q) + 4 && s[2] == '|' && s[|s| - 1] == '\n'
  {
    Hex2(v) + "|" + Hashes(Marks(c, q)) + "\n"
  }

  /** A line is the label, a bar, then the newline, and nothing else. */
  lemma LineShape(v: byte, c: nat, q: nat)
    requires q >= 1
    ensures |Line(v, c, q)| == Marks(c, q) + 4
    ensures Line(v, c, q)[..2] == Hex2(v) && Line(v, c, q)[2] == '|'
    ensures forall k :: 3 <= k < 3 + Marks(c, q) ==> Line(v, c, q)[k] == '#'
    ensures Line(v, c, q)[|Line(v, c, q)| - 1] == '\n'
    ensures HexValue(Line(v, c, q)[..2]) == v
  {
    var s := Line(v, c, q);
    assert s == Hex2(v) + ("|" + Hashes(Marks(c, q)) + "\n");
    assert forall k :: 3 <= k < 3 + Marks(c, q) ==> s[k] == Hashes(Marks(c, q))[k - 3];
    HexRoundTrip(v);
  }

  /** Prints one line: the label, the mark for a non-zero count and the bar
      (lines 29-35). */
  method PrintLine(v: byte, c: nat, q: nat) returns (line: string)
    requires q >= 1
    ensures line == Line(v, c, q)
  {
    line := Hex2(v) + "|";
    if c != 0 {
      line := line + "#";
    }
    var len := 0;
    while len < c / q
      invariant len <= c / q
      invariant line == Hex2(v) + "|" + Hashes((if c != 0 then 1 else 0) + len)
    {
      line := line + "#";
      len := len + 1;
    }
    line := line + "\n";
  }

  /** Prints the 256 lines in bucket order (lines 28-36). */
  method PrintAll(histo: array<nat>, max: nat) returns (lines: seq<string>)
    requires histo.Length == 256 && max >= Width
    ensures |lines| == 256
    ensures forall v: byte :: lines[v] == Line(v, histo[v], max / Width)
  {
    lines := [];
    var ii := 0;
    while ii < 256
      invariant ii <= 256 && |lines| == ii
      invariant forall v: byte :: v < ii ==> lines[v] == Line(v, histo[v], max / Width)
    {
      var line := PrintLine(ii, histo[ii], max / Width);
      lines := lines + [line];
      ii := ii + 1;
    }
  }

  /** `main` on the bytes of standard input: status 1 and no output for an
      empty input (lines 15-17), otherwise status 0 and one line per byte
      value with its scaled count. */
  method Run(buf: seq<byte>) returns (status: int, lines: seq<string>)
    ensures |buf| == 0 ==> status == 1 && lines == []
    ensures |buf| > 0 ==> status == 0 && |lines| == 256
    ensures |buf| > 0 ==> forall v: byte :: lines[v] == Line(v, Occurrences(buf, v, |buf|), Divisor(buf))
  {
    if |buf| == 0 {
      return 1, [];
    }
    var histo, max := Tally(buf);
    max := if max < Width then Width else max;
    lines := PrintAll(histo, max);
    status := 0;
  }
}
