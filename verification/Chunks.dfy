/** Cutting an array into batches. */
module Chunks {
  import opened Modulo

  /** The reduce after looking at the indices below n: every chunkSize-th index starts a new slice. */
  function ChunkUpTo<T>(arr: seq<T>, chunkSize: nat, n: nat): seq<seq<T>>
    requires chunkSize >= 1 && n <= |arr|
  {
    if n == 0 then []
    else
      var i := n - 1;
      var before := ChunkUpTo(arr, chunkSize, i);
      if i % chunkSize == 0 then
        before + [arr[i..if i + chunkSize <= |arr| then i + chunkSize else |arr|]]
      else
        before
  }

  function Chunk<T>(arr: seq<T>, chunkSize: nat): seq<seq<T>>
    requires chunkSize >= 1
  {
    ChunkUpTo(arr, chunkSize, |arr|)
  }

  function Flatten<T>(chunks: seq<seq<T>>): seq<T> {
    if chunks == [] then [] else Flatten(chunks[..|chunks| - 1]) + chunks[|chunks| - 1]
  }

  function Min(a: int, b: int): int {
    if a < b then a else b
  }

  /** Each slice starts at its multiple of the size and runs for the size or to the end. */
  ghost predicate Slices<T>(arr: seq<T>, k: nat, chunks: seq<seq<T>>) {
    forall j :: 0 <= j < |chunks| ==>
      0 <= j * k <= Min(j * k + k, |arr|) && chunks[j] == arr[j * k..Min(j * k + k, |arr|)]
  }

  /** After n indices there is a slice for every multiple of the size below n. */
  ghost predicate Sliced<T>(arr: seq<T>, k: nat, n: nat, chunks: seq<seq<T>>) {
    (|chunks| - 1) * k < n <= |chunks| * k && Slices(arr, k, chunks)
  }

  lemma NextMultiple(c: nat, k: nat, i: nat)
    requires k >= 1 && (c - 1) * k < i <= c * k
    ensures i % k == 0 <==> i == c * k
  {
    ModuloOfSum(c, 0, k);
    assert i == i / k * k + i % k;
    NoneBetween(i / k, c, k);
  }

  lemma {:induction false} SlicesOneMore<T>(arr: seq<T>, k: nat, chunks: seq<seq<T>>, start: nat)
    requires k >= 1 && Slices(arr, k, chunks) && start == |chunks| * k < |arr|
    ensures Slices(arr, k, chunks + [arr[start..Min(start + k, |arr|)]])
    ensures (|chunks| + 1) * k == start + k
  {
    var more := chunks + [arr[start..Min(start + k, |arr|)]];
    forall j | 0 <= j < |more|
      ensures 0 <= j * k <= Min(j * k + k, |arr|) && more[j] == arr[j * k..Min(j * k + k, |arr|)]
    {
      if j < |chunks| {
        assert more[j] == chunks[j];
      }
    }
  }

  lemma {:induction false} ChunkUpToSliced<T>(arr: seq<T>, k: nat, n: nat)
    requires k >= 1 && n <= |arr|
    ensures Sliced(arr, k, n, ChunkUpTo(arr, k, n))
  {
    if n > 0 {
      var before := ChunkUpTo(arr, k, n - 1);
      ChunkUpToSliced(arr, k, n - 1);
      NextMultiple(|before|, k, n - 1);
      if n - 1 == |before| * k {
        SlicesOneMore(arr, k, before, n - 1);
      }
    }
  }

  lemma Adjoin<T>(arr: seq<T>, lo: nat, hi: nat)
    requires lo <= hi <= |arr|
    ensures arr[..lo] + arr[lo..hi] == arr[..hi]
  {
  }

  lemma SlicesPrefix<T>(arr: seq<T>, k: nat, chunks: seq<seq<T>>, m: nat)
    requires Slices(arr, k, chunks) && m <= |chunks|
    ensures Slices(arr, k, chunks[..m])
  {
  }

  lemma {:induction false} FlattenSlices<T>(arr: seq<T>, k: nat, chunks: seq<seq<T>>, covered: nat)
    requires k >= 1 && Slices(arr, k, chunks) && covered == Min(|chunks| * k, |arr|)
    ensures Flatten(chunks) == arr[..covered]
  {
    if chunks != [] {
      var m := |chunks| - 1;
      var lo := m * k;
      assert |chunks| * k == lo + k;
      assert lo <= covered && chunks[m] == arr[lo..covered];
      SlicesPrefix(arr, k, chunks, m);
      FlattenSlices(arr, k, chunks[..m], lo);
      Adjoin(arr, lo, covered);
    }
  }

  /** Cutting loses, adds and reorders nothing. */
  lemma ChunksFlattenBack<T>(arr: seq<T>, k: nat)
    requires k >= 1
    ensures Flatten(Chunk(arr, k)) == arr
  {
    ChunkUpToSliced(arr, k, |arr|);
    FlattenSlices(arr, k, Chunk(arr, k), |arr|);
  }

  /** There are as many chunks as it takes; all but the last have the full size, and the last has
      between one element and that size. */
  lemma ChunkSizes<T>(arr: seq<T>, k: nat)
    requires k >= 1
    ensures var chunks := Chunk(arr, k);
            && (|chunks| - 1) * k < |arr| <= |chunks| * k
            && forall j :: 0 <= j < |chunks| ==> 1 <= |chunks[j]| <= k && (j < |chunks| - 1 ==> |chunks[j]| == k)
  {
    var chunks := Chunk(arr, k);
    ChunkUpToSliced(arr, k, |arr|);
    forall j | 0 <= j < |chunks|
      ensures 1 <= |chunks[j]| <= k && (j < |chunks| - 1 ==> |chunks[j]| == k)
    {
      assert chunks[j] == arr[j * k..Min(j * k + k, |arr|)];
      assert (|chunks| - 1 - j) * k == (|chunks| - 1) * k - j * k;
      if j < |chunks| - 1 {
        MultipleIsLarge(|chunks| - 1 - j, k);
      }
    }
  }

  /** Two arrays of the same length cut the same way keep their elements paired. */
  lemma ChunksStayPaired<S, T>(a: seq<S>, b: seq<T>, k: nat)
    requires k >= 1 && |a| == |b|
    ensures |Chunk(a, k)| == |Chunk(b, k)|
    ensures forall j, x :: 0 <= j < |Chunk(a, k)| && 0 <= x < |Chunk(a, k)[j]| ==>
              && |Chunk(b, k)[j]| == |Chunk(a, k)[j]| && 0 <= j * k + x < |a|
              && Chunk(a, k)[j][x] == a[j * k + x] && Chunk(b, k)[j][x] == b[j * k + x]
  {
    var n, m := |Chunk(a, k)|, |Chunk(b, k)|;
    ChunkUpToSliced(a, k, |a|);
    ChunkUpToSliced(b, k, |b|);
    SameCount(n, m, k, |a|);
    forall j, x | 0 <= j < n && 0 <= x < |Chunk(a, k)[j]|
      ensures && |Chunk(b, k)[j]| == |Chunk(a, k)[j]| && 0 <= j * k + x < |a|
              && Chunk(a, k)[j][x] == a[j * k + x] && Chunk(b, k)[j][x] == b[j * k + x]
    {
      assert Chunk(a, k)[j] == a[j * k..Min(j * k + k, |a|)];
      assert Chunk(b, k)[j] == b[j * k..Min(j * k + k, |b|)];
    }
  }

  lemma SameCount(n: nat, m: nat, k: nat, length: nat)
    requires k >= 1 && (n - 1) * k < length <= n * k && (m - 1) * k < length <= m * k
    ensures n == m
  {
    if n < m {
      MultiplesAreOrdered(n, m - 1, k);
    } else if m < n {
      MultiplesAreOrdered(m, n - 1, k);
    }
  }
}
