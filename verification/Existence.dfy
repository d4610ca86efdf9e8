/** For every text and any number of threads there are results for the workers, and a segment for the main thread. */
module Existence {
  import opened Bytes
  import opened Tokenizer
  import opened Trees
  import opened Grammar
  import Pushdown
  import opened Encoding
  import opened Sequential
  import opened Preparse
  import opened Lookup
  import opened Parallel
  import opened Chunking
  import opened Storing

  // ----- A worker's results -----

  lemma ResultExists(env: Input, limit: nat, pos: nat) returns (seg: seq<Byte>, table: seq<Entry>)
    requires pos <= limit <= |env.text| <= MAX_TEXT
    ensures Preparsed(env, limit, pos, seg, table)
  {
    hide Regions, Filled, Preparsed;
    FilledNone(env, [], Regions(env, limit, pos), 0);
    seg, table := FillsUp(env, limit, pos, pos, [], []);
  }

  /** Storing one value behind the other, as the worker does. */
  lemma {:induction false} FillsUp(env: Input, limit: nat, start: nat, pos: nat, was: seq<Byte>, listed: seq<Entry>)
    returns (seg: seq<Byte>, table: seq<Entry>)
    requires start <= pos <= limit <= |env.text| <= MAX_TEXT && |was| <= ROOM * pos
    requires var regions := Regions(env, limit, start);
             && Filled(env, was, listed, regions, |was|) && |listed| <= |regions|
             && regions[|listed|..] == Regions(env, limit, pos)
    ensures Preparsed(env, limit, start, seg, table)
    decreases limit - pos
  {
    hide NextOpen, Value, Regions, Filled, Preparsed, Enc, Storable;
    RegionsUnfold(env, limit, pos);
    var regions := Regions(env, limit, start);
    if regions[|listed|..] == [] {
      FilledAll(env, limit, start, was, listed, |was|);
      seg, table := was, listed;
    } else {
      var at := NextOpen(env, limit, pos).value.start;
      var v := Value(env, limit, at).value;
      assert regions[|listed|..][0] == regions[|listed|] == Region(at, v.next - at, v.value);
      ValueStorable(env, limit, at);
      var more := Stores(env.text, was, v.value);
      EncBounds(env.text, more, |was|, |more|, v.value);
      var e := Entry(at, v.next - at, |was|);
      FilledKept(env, was, more, listed, regions, |was|);
      FilledMore(env, more, listed, regions, |was|, e, |more|);
      assert regions[|listed|..][1..] == regions[|listed| + 1..];
      seg, table := FillsUp(env, limit, start, v.next, more, listed + [e]);
    }
  }

  // ----- All workers -----

  /** Chunk `i` before its worker has run; the first chunk has none. */
  function BareChunk(size: nat, n: nat, i: nat): Chunk
    requires i < n
  {
    Chunk(Cut(size, n, i), Cut(size, n, i + 1), WorkerResult([], []), WorkerResult([], []))
  }

  /** The chunk of a worker that has run. */
  ghost predicate WorkedChunk(env: Input, n: nat, i: nat, c: Chunk)
    requires i < n
  {
    && c.lo == Cut(|env.text|, n, i) <= c.hi == Cut(|env.text|, n, i + 1)
    && forall s: bool :: Preparsed(env, c.hi, EntryPoint(env, c, s), ResultOf(c, s).segment, TableOf(c, s))
  }

  lemma ChunksAreOk(env: Input, n: nat, chunks: seq<Chunk>)
    requires n > 0 && |chunks| == n && chunks[0] == BareChunk(|env.text|, n, 0)
    requires forall i :: 0 <= i < n ==> ChunkSize(|env.text|, n, i) >= 0
    requires Cut(|env.text|, n, n) == |env.text|
    requires forall k :: 1 <= k < n ==> WorkedChunk(env, n, k, chunks[k])
    ensures ChunksOk(env, |env.text|, chunks)
    ensures forall i :: 0 <= i < n ==>
      chunks[i].lo == Cut(|env.text|, n, i) && chunks[i].hi == Cut(|env.text|, n, i + 1)
  {
    hide Preparsed, EntryPoint;
    assert ChunkSize(|env.text|, n, 0) >= 0;
  }

  predicate SpeculatedCuts(env: Input, threads: nat, chunks: seq<Chunk>)
    requires threads > 0
  {
    && |chunks| == EffectiveThreads(|env.text|, threads)
    && forall i :: 0 <= i < |chunks| ==>
         chunks[i].lo == Cut(|env.text|, |chunks|, i) && chunks[i].hi == Cut(|env.text|, |chunks|, i + 1)
  }

  /** No text lacks results: what is proved of all chunks that workers fill in is not said of nothing. */
  lemma ChunksExist(env: Input, threads: nat) returns (chunks: seq<Chunk>)
    requires |env.text| <= MAX_TEXT && threads > 0
    ensures SpeculatedCuts(env, threads, chunks) && ChunksOk(env, |env.text|, chunks)
  {
    hide ChunksOk, WorkedChunk, Cut;
    var n := EffectiveThreads(|env.text|, threads);
    ChunkPartition(|env.text|, threads);
    chunks := FirstChunks(env, n, n);
    ChunksAreOk(env, n, chunks);
  }

  lemma {:induction false} FirstChunks(env: Input, n: nat, k: nat) returns (chunks: seq<Chunk>)
    requires 0 < k <= n && |env.text| <= MAX_TEXT
    requires forall i :: 0 <= i < n ==> ChunkSize(|env.text|, n, i) >= 0
    requires Cut(|env.text|, n, n) == |env.text|
    ensures |chunks| == k && chunks[0] == BareChunk(|env.text|, n, 0)
    ensures forall i :: 1 <= i < k ==> WorkedChunk(env, n, i, chunks[i])
    decreases k
  {
    hide WorkedChunk, Cut;
    if k == 1 {
      chunks := [BareChunk(|env.text|, n, 0)];
    } else {
      chunks := FirstChunks(env, n, k - 1);
      var c := ChunkExists(env, n, k - 1);
      chunks := chunks + [c];
    }
  }

  lemma ChunkExists(env: Input, n: nat, i: nat) returns (c: Chunk)
    requires i < n && |env.text| <= MAX_TEXT && ChunkSize(|env.text|, n, i) >= 0
    requires Cut(|env.text|, n, i + 1) <= |env.text|
    ensures WorkedChunk(env, n, i, c)
  {
    hide Preparsed, AfterString, Cut;
    assert ChunkSize(|env.text|, n, i) >= 0;
    var bare := BareChunk(|env.text|, n, i);
    var seg, table := ResultExists(env, bare.hi, EntryPoint(env, bare, false));
    var seg', table' := ResultExists(env, bare.hi, EntryPoint(env, bare, true));
    c := Chunk(bare.lo, bare.hi, WorkerResult(table, seg), WorkerResult(table', seg'));
  }

  // ----- The main thread's segment -----

  /** Handles of the finished tree fit into their nine bytes. */
  lemma {:induction false} TiedFit(env: Input, limit: nat, chunks: seq<Chunk>, scenarios: seq<bool>, upTo: nat, t: Tree)
    requires ChunksOk(env, limit, chunks) && limit <= |env.text| && |scenarios| == |chunks| <= 256
    requires Tied(env, limit, chunks, scenarios, upTo, t)
    ensures RefsFit(t)
  {
    hide ChunksOk, TreeAt, Enc;
    match t
    case Arr(elems) =>
      forall i | 0 <= i < |elems| ensures RefsFit(elems[i]) {
        TiedFit(env, limit, chunks, scenarios, upTo, elems[i]);
      }
    case Obj(kvs) =>
      forall i | 0 <= i < |kvs| ensures RefsFit(kvs[i].value) {
        TiedFit(env, limit, chunks, scenarios, upTo, kvs[i].value);
      }
    case Ref(segment, offset, target) =>
      var e :| e in TableOf(chunks[segment], scenarios[segment]) && e.offset == offset
        && target == TreeAt(env, limit, e.start);
      EntryOfHit(env, limit, chunks, Iter(segment, [], None, scenarios), e);
    case _ =>
  }

  /** Whatever tree the main run ends with, there is a segment that encodes it. */
  lemma MainSegmentExists(env: Input, limit: nat, chunks: seq<Chunk>) returns (main: seq<Byte>)
    requires ChunksOk(env, limit, chunks) && limit <= |env.text| <= MAX_TEXT && 0 < |chunks| <= 256
    requires var m := MainAnswer(env, limit, chunks); m.Some? && m.value.root.Some?
    ensures Enc(env.text, main, 0, |main|, MainAnswer(env, limit, chunks).value.root.value)
  {
    hide ChunksOk, MainRun, Enc, IterOk, Tied, Value, NextToken, Storable;
    InitOk(env, limit, chunks);
    MainTied(env, limit, chunks, IterInit(chunks), Pushdown.START, 0);
    ParallelIsSequential(env, limit, chunks);
    var m := MainAnswer(env, limit, chunks).value;
    TiedFit(env, limit, chunks, m.scenarios, |chunks|, m.root.value);
    ValueStorable(env, limit, 0);
    RefsStorable(env.text, m.root.value);
    main := Stores(env.text, [], m.root.value);
  }
}
