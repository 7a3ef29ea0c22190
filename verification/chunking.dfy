/** How a table is cut into transactions: the chunk count computed from
    `chunk_size`, and `numpy.array_split`'s order-preserving division of the
    rows into that many nearly equal parts. */
module Chunking {
  import opened Seqs

  /** `1 if chunk_size == 0 else ceil(len(df) / chunk_size)`. */
  function ChunkCount(n: nat, chunkSize: nat): (k: nat)
    requires n > 0 || chunkSize == 0
    ensures k >= 1
    ensures chunkSize == 0 ==> k == 1
    ensures chunkSize > 0 ==> (k - 1) * chunkSize < n <= k * chunkSize
    ensures chunkSize > 0 ==> k <= n
  {
    if chunkSize == 0 then 1
    else
      var k := (n + chunkSize - 1) / chunkSize;
      CeilingBounds(n, chunkSize);
      k
  }

  lemma CeilingBounds(n: nat, c: nat)
    requires n > 0 && c > 0
    ensures var k := (n + c - 1) / c; 1 <= k <= n && (k - 1) * c < n <= k * c
  {
    var k := (n + c - 1) / c;
    var m := (n + c - 1) % c;
    DivMod(n + c - 1, c);
    var p := k * c;
    assert p + m == n + c - 1;
    PositiveFactor(k, c);
    MulPredecessor(k, c);
    MulAtLeast(k - 1, c);
  }

  lemma DivMod(a: nat, c: nat)
    requires c > 0
    ensures (a / c) * c + a % c == a && 0 <= a % c < c
  {
  }

  lemma PositiveFactor(k: nat, c: nat)
    requires k * c > 0
    ensures k >= 1
  {
  }

  lemma MulPredecessor(k: int, c: int)
    ensures (k - 1) * c == k * c - c
  {
  }

  lemma MulAtLeast(a: nat, c: nat)
    requires c >= 1
    ensures a * c >= a
  {
  }

  lemma MulDistributes(i: int, q: int)
    ensures (i - 1) * q + q == i * q
  {
  }

  /** The start of part `i` when `n` elements are split into `k` parts: the
      first `n % k` parts get one element more than the others. */
  function SplitPoint(n: nat, k: nat, i: nat): nat
    requires k > 0
  {
    if i == 0 then 0 else SplitPoint(n, k, i - 1) + n / k + (if i - 1 < n % k then 1 else 0)
  }

  lemma {:induction false} SplitPointClosedForm(n: nat, k: nat, i: nat)
    requires k > 0
    ensures SplitPoint(n, k, i) == i * (n / k) + (if i < n % k then i else n % k)
  {
    if i > 0 {
      SplitPointClosedForm(n, k, i - 1);
      MulDistributes(i, n / k);
    }
  }

  lemma {:induction false} SplitPointMonotone(n: nat, k: nat, i: nat, j: nat)
    requires k > 0 && i <= j
    ensures SplitPoint(n, k, i) <= SplitPoint(n, k, j)
  {
    if i < j {
      SplitPointMonotone(n, k, i, j - 1);
    }
  }

  lemma SplitPointEnds(n: nat, k: nat)
    requires k > 0
    ensures SplitPoint(n, k, 0) == 0 && SplitPoint(n, k, k) == n
  {
    SplitPointClosedForm(n, k, k);
    DivMod(n, k);
  }

  /** Part `i` of `numpy.array_split(s, k)`. */
  function Part<T>(s: seq<T>, k: nat, i: nat): (part: seq<T>)
    requires 0 <= i < k
    ensures |part| == |s| / k + (if i < |s| % k then 1 else 0)
  {
    var lo := SplitPoint(|s|, k, i);
    var hi := SplitPoint(|s|, k, i + 1);
    assert hi == lo + |s| / k + (if i < |s| % k then 1 else 0);
    SplitPointMonotone(|s|, k, i + 1, k);
    SplitPointEnds(|s|, k);
    s[lo..hi]
  }

  /** `numpy.array_split(s, k)`. */
  function ArraySplit<T>(s: seq<T>, k: nat): (parts: seq<seq<T>>)
    requires k > 0
    ensures |parts| == k
    ensures forall i :: 0 <= i < k ==> parts[i] == Part(s, k, i)
  {
    seq(k, i requires 0 <= i < k => Part(s, k, i))
  }

  /** The first `i` parts, concatenated, are the first `SplitPoint(i)` elements. */
  lemma {:induction false} ArraySplitPrefix<T>(s: seq<T>, k: nat, i: nat)
    requires k > 0 && i <= k
    ensures SplitPoint(|s|, k, i) <= |s| && Flatten(ArraySplit(s, k)[..i]) == s[..SplitPoint(|s|, k, i)]
  {
    SplitPointMonotone(|s|, k, i, k);
    SplitPointEnds(|s|, k);
    var parts := ArraySplit(s, k);
    if i == 0 {
      assert parts[..0] == [];
      SplitPointEnds(|s|, k);
    } else {
      ArraySplitPrefix(s, k, i - 1);
      SplitPointMonotone(|s|, k, i, k);
      SplitPointEnds(|s|, k);
      assert parts[..i] == parts[..i - 1] + [parts[i - 1]];
      FlattenAppend(parts[..i - 1], [parts[i - 1]]);
      assert Flatten([parts[i - 1]]) == parts[i - 1] + Flatten([]);
      var a := SplitPoint(|s|, k, i - 1);
      var b := SplitPoint(|s|, k, i);
      assert s[..b] == s[..a] + s[a..b];
    }
  }

  /** Splitting loses, adds and reorders nothing. */
  lemma ArraySplitFlatten<T>(s: seq<T>, k: nat)
    requires k > 0
    ensures Flatten(ArraySplit(s, k)) == s
  {
    ArraySplitPrefix(s, k, k);
    SplitPointEnds(|s|, k);
    assert ArraySplit(s, k)[..k] == ArraySplit(s, k);
  }

  /** The chunks a table of `rows` is committed in. */
  function Chunks<T>(rows: seq<T>, chunkSize: nat): (parts: seq<seq<T>>)
    requires |rows| > 0 || chunkSize == 0
    ensures |parts| == ChunkCount(|rows|, chunkSize)
    ensures Flatten(parts) == rows
    ensures chunkSize == 0 ==> parts == [rows]
    ensures chunkSize > 0 ==> forall i :: 0 <= i < |parts| ==> 0 < |parts[i]| <= chunkSize
  {
    var k := ChunkCount(|rows|, chunkSize);
    ArraySplitFlatten(rows, k);
    SingleChunk(rows, chunkSize);
    if chunkSize > 0 then ChunkSizesBounded(|rows|, chunkSize); ArraySplit(rows, k)
    else ArraySplit(rows, k)
  }

  lemma SingleChunk<T>(rows: seq<T>, chunkSize: nat)
    requires |rows| > 0 || chunkSize == 0
    ensures chunkSize == 0 ==> ArraySplit(rows, ChunkCount(|rows|, chunkSize)) == [rows]
  {
    if chunkSize == 0 {
      OneChunk(rows);
    }
  }

  lemma OneChunk<T>(rows: seq<T>)
    ensures ArraySplit(rows, 1) == [rows]
  {
    assert |rows| / 1 == |rows| && |rows| % 1 == 0;
    assert SplitPoint(|rows|, 1, 1) == |rows|;
    assert ArraySplit(rows, 1)[0] == rows;
    var parts := ArraySplit(rows, 1);
    ArraySplitFlatten(rows, 1);
    assert Flatten(parts) == parts[0] + Flatten(parts[1..]);
    assert parts[1..] == [];
  }

  /** With `k = ceil(n / c)` parts, every part has between 1 and `c` elements. */
  lemma ChunkSizesBounded(n: nat, c: nat)
    requires n > 0 && c > 0
    ensures var k := ChunkCount(n, c);
            1 <= n / k && n / k + (if n % k > 0 then 1 else 0) <= c
  {
    var k := ChunkCount(n, c);
    var q := n / k;
    var r := n % k;
    DivMod(n, k);
    assert q * k + r == n;
    QuotientPositive(q, k, r, n);
    QuotientBounded(q, k, r, c);
  }

  lemma QuotientPositive(q: nat, k: nat, r: nat, n: nat)
    requires q * k + r == n && r < k <= n
    ensures q >= 1
  {
  }

  /** `q * k + r <= k * c` with `0 <= r < k` bounds `q` by `c`, strictly when `r > 0`. */
  lemma QuotientBounded(q: nat, k: nat, r: nat, c: nat)
    requires k > 0 && r < k && q * k + r <= k * c
    ensures q + (if r > 0 then 1 else 0) <= c
  {
    if q + (if r > 0 then 1 else 0) > c {
      MulMonotone(c + (if r > 0 then 0 else 1), q + (if r > 0 then 1 else 0), k);
    }
  }

  lemma MulMonotone(a: nat, b: nat, k: nat)
    requires a <= b
    ensures a * k <= b * k
  {
  }
}
