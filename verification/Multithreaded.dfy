/** `thsn_document_parse_multithreaded`. The workers run here one after the other before the main thread; that no
    other order makes a difference is the subject of the schedule model. */
module Multithreaded {
  import opened Bytes
  import opened Tokenizer
  import opened Trees
  import opened Grammar
  import Pushdown
  import opened Encoding
  import opened Documents
  import opened Parsers
  import opened Sequential
  import opened Preparse
  import opened Lookup
  import opened Parallel
  import opened Threads
  import opened Chunking
  import opened Existence
  import opened SortedReads
  import Acceptance
  import Firsts

  /** Every worker has published both results, and they are those of the chunks. */
  ghost predicate Holds(contexts: seq<ThreadContext>, chunks: seq<Chunk>)
    reads (set c | c in contexts)`inString, (set c | c in contexts)`notInString, ResultArrays(contexts)
  {
    && |contexts| == |chunks|
    && forall k, s: bool :: 1 <= k < |chunks| ==> HoldsFor(contexts[k], chunks[k], s)
  }

  ghost predicate HoldsFor(context: ThreadContext, chunk: Chunk, s: bool)
    reads context`inString, context`notInString, ArraysOf(context)
  {
    var r := context.Result(s);
    && r.Some? && r.value.table == TableOf(chunk, s)
    && r.value.segment.Valid() && r.value.segment.Bytes() == ResultOf(chunk, s).segment
  }

  ghost function ArraysOf(context: ThreadContext): set<object>
    reads context`inString, context`notInString
  {
    (if context.inString.Some? then {context.inString.value.segment.data} else {})
    + (if context.notInString.Some? then {context.notInString.value.segment.data} else {})
  }

  ghost function ResultArrays(contexts: seq<ThreadContext>): set<object>
    reads (set c | c in contexts)`inString, (set c | c in contexts)`notInString
  {
    set c, a: object | c in contexts && a in ArraysOf(c) :: a
  }

  /** Start a worker on its chunk, and let it finish. */
  method RunWorker(env: Input, lo: nat, hi: nat, ghost n: nat, i: nat) returns (context: ThreadContext,
                   ghost chunk: Chunk)
    requires |env.text| <= MAX_TEXT && i < n && lo == Cut(|env.text|, n, i) && hi == Cut(|env.text|, n, i + 1)
      && lo <= hi
    ensures fresh(context) && fresh(ArraysOf(context))
    ensures context.lo == lo && context.hi == hi && context.chunkNo == i && !context.startsInString
    ensures WorkedChunk(env, n, i, chunk)
    ensures HoldsFor(context, chunk, false) && HoldsFor(context, chunk, true)
  {
    hide Preparsed, AfterString;
    context := new ThreadContext(lo, hi, i);
    context.Run(env);
    var r0, r1 := context.notInString.value, context.inString.value;
    chunk := Chunk(lo, hi, WorkerResult(r0.table, r0.segment.Bytes()), WorkerResult(r1.table, r1.segment.Bytes()));
  }

  /** Cut the text, and run a worker on every chunk but the first. */
  method RunWorkers(env: Input, threads: nat) returns (contexts: seq<ThreadContext>, ghost chunks: seq<Chunk>)
    requires |env.text| <= MAX_TEXT && threads > 0
    ensures forall c :: c in contexts ==> fresh(c)
    ensures |contexts| == |chunks| == EffectiveThreads(|env.text|, threads)
    ensures forall i :: 0 <= i < |chunks| ==>
      chunks[i].lo == Cut(|env.text|, |chunks|, i) && chunks[i].hi == Cut(|env.text|, |chunks|, i + 1)
    ensures ChunksOk(env, |env.text|, chunks)
    ensures Shows(contexts, chunks) && Holds(contexts, chunks)
    ensures forall c :: c in contexts ==> !c.startsInString
  {
    hide Preparsed, WorkedChunk, HoldsFor, Cut;
    ghost var size := |env.text|;
    var cuts := CutText(|env.text|, threads);
    var n := |cuts| - 1;
    ChunkPartition(|env.text|, threads);
    var first := new ThreadContext(cuts[0], cuts[1], 0);
    contexts, chunks := [first], [BareChunk(size, n, 0)];
    var i := 1;
    while i < n
      invariant 1 <= i <= n && |contexts| == |chunks| == i
      invariant chunks[0] == BareChunk(size, n, 0)
      invariant forall c :: c in contexts ==> fresh(c) && !c.startsInString && fresh(ArraysOf(c))
      invariant forall k :: 0 <= k < i ==>
        contexts[k].lo == Cut(size, n, k) && contexts[k].hi == Cut(size, n, k + 1) && contexts[k].chunkNo == k
      invariant forall k :: 1 <= k < i ==> WorkedChunk(env, n, k, chunks[k])
      invariant forall k, s: bool :: 1 <= k < i ==> HoldsFor(contexts[k], chunks[k], s)
      invariant forall j, k :: 0 <= j < k < i ==> contexts[j] != contexts[k]
    {
      assert ChunkSize(size, n, i) >= 0;
      var context; ghost var chunk;
      context, chunk := RunWorker(env, cuts[i], cuts[i + 1], n, i);
      contexts, chunks := contexts + [context], chunks + [chunk];
      i := i + 1;
    }
    ChunksAreOk(env, n, chunks);
    forall k | 0 <= k < n ensures contexts[k].lo == chunks[k].lo && contexts[k].hi == chunks[k].hi {
      assert chunks[k].lo == Cut(size, n, k) && chunks[k].hi == Cut(size, n, k + 1);
    }
    HoldsShows(contexts, chunks);
  }

  lemma HoldsShows(contexts: seq<ThreadContext>, chunks: seq<Chunk>)
    requires Holds(contexts, chunks)
    requires forall k :: 0 <= k < |chunks| ==>
      contexts[k].lo == chunks[k].lo && contexts[k].hi == chunks[k].hi && contexts[k].chunkNo == k
    requires forall j, k :: 0 <= j < k < |contexts| ==> contexts[j] != contexts[k]
    ensures Shows(contexts, chunks)
  {
    forall k, s: bool | 1 <= k < |chunks|
      ensures contexts[k].Result(s).Some? && contexts[k].Result(s).value.table == TableOf(chunks[k], s)
    {
      assert HoldsFor(contexts[k], chunks[k], s);
    }
  }

  /** Fill in the results: of every worker the segment of the scenario that was settled on. */
  method Collect(contexts: seq<ThreadContext>, segment: MutSlice, ghost chunks: seq<Chunk>) returns (document: Document)
    requires |contexts| == |chunks| > 0 && Holds(contexts, chunks) && segment.Valid()
    ensures fresh(document) && document.Valid() && |document.segments| == |chunks|
    ensures document.View() == DocumentOf(chunks, segment.Bytes(), Scenarios(contexts))
  {
    var segments := [segment];
    var i := 1;
    while i < |contexts|
      invariant 1 <= i <= |contexts| && |segments| == i && segments[0] == segment
      invariant forall k :: 1 <= k < i ==>
        && segments[k].Valid()
        && segments[k].Bytes() == ResultOf(chunks[k], contexts[k].startsInString).segment
    {
      assert HoldsFor(contexts[i], chunks[i], contexts[i].startsInString);
      var result := if contexts[i].startsInString then contexts[i].inString else contexts[i].notInString;
      segments := segments + [result.value.segment];
      i := i + 1;
    }
    document := new Document(segments);
  }

  /** The main thread leaves the results alone. */
  method RunMain(env: Input, contexts: seq<ThreadContext>, ghost chunks: seq<Chunk>)
    returns (ok: bool, segment: MutSlice, next: nat)
    requires |env.text| <= MAX_TEXT && 0 < |chunks| <= 255 && ChunksOk(env, |env.text|, chunks)
    requires Shows(contexts, chunks) && Scenarios(contexts) == IterInit(chunks).scenarios && Holds(contexts, chunks)
    modifies (set c | c in contexts)`startsInString
    ensures Holds(contexts, chunks)
    ensures var m := MainAnswer(env, |env.text|, chunks);
            && (ok <==> m.Some?)
            && (ok ==>
                  && next == m.value.next && Scenarios(contexts) == m.value.scenarios
                  && segment.Valid() && fresh(segment.data)
                  && RootAt(env, segment.Bytes(), 0, m.value.root))
  {
    hide ChunksOk, MainRun, Shows, Scenarios, RootAt, ResultOf;
    ok, segment, next := MainThread(env, contexts, chunks);
    forall k, s: bool | 1 <= k < |chunks| ensures HoldsFor(contexts[k], chunks[k], s) {
      assert old(HoldsFor(contexts[k], chunks[k], s));
    }
  }

  /** Along the sequential parse, some composite behind the first chunk is the root or the first element of an array. */
  predicate LateFirst(env: Input, threads: nat)
    requires threads > 0
  {
    Acceptance.LateFirst(env, |env.text|, Pushdown.START, 0, Cut(|env.text|, EffectiveThreads(|env.text|, threads), 1))
  }

  /** The parallel parse of any text with any number of threads: it succeeds exactly on the documents of the grammar
      that are not refused, which the text and the number of threads decide, and the document decodes to the tree of
      the sequential parse. A text is refused exactly if along the sequential parse some composite comes first that its
      chunk lists, so none is where no late composite comes first. */
  method ParseMultithreaded(env: Input, threads: nat) returns (document: Document?, next: nat)
    requires |env.text| <= MAX_TEXT && (threads > 0 ==> EffectiveThreads(|env.text|, threads) <= 255)
    ensures threads == 0 ==> document == null
    ensures threads > 0 ==>
      var g := Root(env, |env.text|, 0);
      && (document != null <==> g.Some? && !Acceptance.Refuses(env, threads))
      && (document != null <==>
            g.Some? && !Firsts.FirstListed(env, EffectiveThreads(|env.text|, threads), Firsts.Guess(0, false),
                                           Pushdown.START, 0))
      && (!LateFirst(env, threads) ==> (document != null <==> g.Some?))
      && (document != null ==>
            && fresh(document) && document.Valid() && |document.segments| == EffectiveThreads(|env.text|, threads)
            && next == g.value.next
            && Means(env.text, document.View(), g.value.value)
            && (g.value.value.Some? ==> Searchable(env.text, document.View(), g.value.value.value)))
  {
    hide ChunksOk, MainRun, Root, Decode, DecodesTo, Settled, Enc, Shows, Scenarios, Holds, Searchable;
    hide Acceptance.Refuses, Acceptance.LateFirst, Firsts.FirstListed;
    if threads == 0 {
      return null, 0;
    }
    var contexts; ghost var chunks;
    contexts, chunks := RunWorkers(env, threads);
    NoGuessYet(contexts, chunks);
    var ok, segment;
    ok, segment, next := RunMain(env, contexts, chunks);
    Acceptance.AcceptanceFixed(env, threads, chunks);
    Firsts.RefusesExactly(env, threads);
    if !LateFirst(env, threads) {
      Acceptance.EarlyFirstsAccepted(env, threads, chunks);
    }
    if !ok {
      return null, next;
    }
    document := Collect(contexts, segment, chunks);
    DocumentMeans(env, chunks, segment.Bytes());
  }

  lemma NoGuessYet(contexts: seq<ThreadContext>, chunks: seq<Chunk>)
    requires |contexts| == |chunks| > 0 && forall c :: c in contexts ==> !c.startsInString
    ensures Scenarios(contexts) == IterInit(chunks).scenarios
  {
  }

  lemma DocumentMeans(env: Input, chunks: seq<Chunk>, main: seq<Byte>)
    requires ChunksOk(env, |env.text|, chunks) && chunks != []
    requires var m := MainAnswer(env, |env.text|, chunks); m.Some? && RootAt(env, main, 0, m.value.root)
    ensures var m := MainAnswer(env, |env.text|, chunks).value;
            && |m.scenarios| == |chunks|
            && Means(env.text, DocumentOf(chunks, main, m.scenarios), DerefRoot(m.root))
            && (m.root.Some? ==> Searchable(env.text, DocumentOf(chunks, main, m.scenarios), Deref(m.root.value)))
  {
    hide ChunksOk, MainRun, Decode, DecodesTo, Settled, Enc, Sortable;
    var m := MainAnswer(env, |env.text|, chunks).value;
    if m.root.Some? {
      ParallelDecodes(env, |env.text|, chunks, main);
      ParallelSortable(env, |env.text|, chunks, main);
    } else {
      MainScenarios(env, |env.text|, chunks);
    }
  }

  lemma MainScenarios(env: Input, limit: nat, chunks: seq<Chunk>)
    requires ChunksOk(env, limit, chunks) && limit <= |env.text| && chunks != []
    ensures var m := MainAnswer(env, limit, chunks); m.Some? ==> |m.value.scenarios| == |chunks|
  {
    hide ChunksOk, MainRun, IterOk, Tied;
    InitOk(env, limit, chunks);
    MainTied(env, limit, chunks, IterInit(chunks), Pushdown.START, 0);
  }
}
