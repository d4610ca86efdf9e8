/** How the text is cut into chunks. */
module Chunking {
  const MIN_THREAD_SLICE_SIZE: nat := 1024

  /** Short texts get fewer threads, but always one. */
  function EffectiveThreads(size: nat, threads: nat): (n: nat)
    requires threads > 0
    ensures 1 <= n <= threads
    ensures n > 1 ==> n * MIN_THREAD_SLICE_SIZE <= size
    ensures forall k :: 1 <= k <= threads && k * 1024 <= size ==> k <= n
  {
    if size / MIN_THREAD_SLICE_SIZE < threads then
      if size / MIN_THREAD_SLICE_SIZE == 0 then 1 else size / MIN_THREAD_SLICE_SIZE
    else threads
  }

  /** Where chunk `i` of `n` begins; `i == n` is the end of the text. */
  function Cut(size: nat, n: nat, i: nat): (c: nat)
    requires n > 0 && i <= n
    ensures c <= size
  {
    CutInRange(size, n, i);
    if i == 0 then 0 else size - (size / n) * (n - i)
  }

  lemma CutInRange(size: nat, n: nat, i: nat)
    requires n > 0 && i <= n
    ensures 0 <= (size / n) * (n - i) <= size
  {
    var q := size / n;
    assert q * n <= size;
    assert q * (n - i) <= q * n;
  }

  function ChunkSize(size: nat, n: nat, i: nat): int
    requires i < n
  {
    Cut(size, n, i + 1) - Cut(size, n, i)
  }

  lemma SizeOfChunk(size: nat, n: nat, i: nat)
    requires i < n
    ensures ChunkSize(size, n, i) == if i == 0 then size - (size / n) * (n - 1) else size / n
    ensures ChunkSize(size, n, i) >= 0
  {
    CutInRange(size, n, i + 1);
    var q := size / n;
    assert q * (n - i) == q * (n - (i + 1)) + q;
  }

  lemma QuotientAtLeast(size: nat, n: nat)
    requires n > 0 && n * MIN_THREAD_SLICE_SIZE <= size
    ensures size / n >= MIN_THREAD_SLICE_SIZE
  {
    var q, r := size / n, size % n;
    assert size == n * q + r && r < n;
    if q < MIN_THREAD_SLICE_SIZE {
      var d: nat := MIN_THREAD_SLICE_SIZE - 1 - q;
      ProductSum(n, q, d);
      assert false;
    }
  }

  lemma ProductSum(n: nat, q: nat, d: nat)
    ensures n * (q + d + 1) == n * q + n * d + n && n * d >= 0
  {
  }

  /** The chunks tile the text, and every chunk that gets a worker is at least 1024 bytes long. */
  lemma ChunkPartition(size: nat, threads: nat)
    requires threads > 0
    ensures var n := EffectiveThreads(size, threads);
            && Cut(size, n, 0) == 0 && Cut(size, n, n) == size
            && (forall i :: 0 <= i < n ==> ChunkSize(size, n, i) >= 0)
            && (forall i :: 1 <= i < n ==> ChunkSize(size, n, i) >= MIN_THREAD_SLICE_SIZE)
  {
    var n := EffectiveThreads(size, threads);
    if n > 1 {
      QuotientAtLeast(size, n);
    }
    forall i | 0 <= i < n ensures ChunkSize(size, n, i) >= if i == 0 then 0 else size / n {
      SizeOfChunk(size, n, i);
    }
  }

  /** The loop that cuts chunk after chunk off the text. The test for an exhausted text never succeeds, so the loop
      runs to the end and a worker is started for every chunk but the first. */
  method CutText(size: nat, threads: nat) returns (cuts: seq<nat>)
    requires threads > 0
    ensures var n := EffectiveThreads(size, threads);
            |cuts| == n + 1 && forall i :: 0 <= i <= n ==> cuts[i] == Cut(size, n, i)
  {
    var n := threads;
    if size / MIN_THREAD_SLICE_SIZE < threads {
      n := size / MIN_THREAD_SLICE_SIZE;
      n := if n == 0 then 1 else n;
    }
    ChunkPartition(size, threads);
    CutInRange(size, n, 1);
    var chunkSize := size / n;
    var offset := size - chunkSize * (n - 1);
    cuts := [0, offset];
    var i := 1;
    while i < n
      invariant 1 <= i <= n && |cuts| == i + 1
      invariant offset == Cut(size, n, i) && (i < n ==> chunkSize == size / n)
      invariant forall j :: 0 <= j <= i ==> cuts[j] == Cut(size, n, j)
    {
      var left := size - offset;
      SizeOfChunk(size, n, i);
      LeftAtLeast(size / n, n - i);
      if left == 0 {
        break;
      } else if left <= chunkSize {
        chunkSize := left;
      }
      offset := offset + chunkSize;
      cuts := cuts + [offset];
      i := i + 1;
    }
  }

  lemma LeftAtLeast(q: nat, k: nat)
    requires k > 0
    ensures q * k >= q && (k > 1 && q > 0 ==> q * k > q)
  {
    assert q * k == q + q * (k - 1);
    if k > 1 && q > 0 {
      assert q * (k - 1) >= q;
    }
  }
}
