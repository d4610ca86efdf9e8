/** Where the parallel parse fails although the sequential one succeeds, and where that cannot happen. */
module Refusals {
  import opened Bytes
  import opened Tokenizer
  import opened Trees
  import opened Grammar
  import opened Pushdown
  import opened Preparse
  import opened Lookup
  import opened Parallel
  import Chunking

  /** With a single chunk, as for every text below 2048 bytes, there is nothing to find and nothing to refuse: both
      parses accept the same texts. */
  lemma SingleChunkAgrees(env: Input, limit: nat, chunks: seq<Chunk>)
    requires ChunksOk(env, limit, chunks) && limit <= |env.text| && |chunks| == 1
    ensures !AnyRefused(env, limit, chunks)
    ensures MainAnswer(env, limit, chunks).Some? <==> Root(env, limit, 0).Some?
  {
    hide ChunksOk, MainRun, Refused, Root, IterOk;
    InitOk(env, limit, chunks);
    NothingFound(env, limit, chunks, IterInit(chunks), START, 0);
    ParallelIsSequential(env, limit, chunks);
  }

  lemma {:induction false} NothingFound(env: Input, limit: nat, chunks: seq<Chunk>, it: Iter, p: Parser, pos: nat)
    requires ChunksOk(env, limit, chunks) && IterOk(chunks, it, pos) && Sound(p) && pos <= limit <= |env.text|
    requires |chunks| == 1 && Fits(chunks, it)
    ensures !Refused(env, limit, chunks, it, p, pos)
    decreases limit - pos
  {
    hide NextToken, ChunksOk, IterOk, Consult, Step, Value, TreeAt;
    var tok := NextToken(env.text, limit, pos);
    HitIsValue(env, limit, chunks, it, pos);
    if tok.Token? {
      var (it', hit) := Consult(chunks, it, tok);
      var o := Step(env, p, tok);
      if hit.None? && o.Running? {
        NothingFound(env, limit, chunks, it', o.p, tok.next);
      }
    }
  }

  lemma SmallTextSingleChunk(size: nat, threads: nat)
    requires threads > 0 && size < 2 * Chunking.MIN_THREAD_SLICE_SIZE
    ensures Chunking.EffectiveThreads(size, threads) == 1
  {
  }

  // ----- A root value behind the first chunk -----

  lemma {:induction false} SpacesSkipped(text: seq<Byte>, limit: nat, pos: nat, p: nat)
    requires pos <= p < limit <= |text| && !IsSpace(text[p])
    requires forall i :: pos <= i < p ==> IsSpace(text[i])
    ensures SkipSpace(text, limit, pos) == p
    decreases p - pos
  {
    if pos < p {
      SpacesSkipped(text, limit, pos + 1, p);
    }
  }

  /** The chunk that a root composite starts in, when only space comes before it. */
  predicate RootBehind(env: Input, limit: nat, chunks: seq<Chunk>, p: nat, k: nat)
    requires limit <= |env.text|
  {
    && 1 <= k < |chunks| && p < limit && (env.text[p] == OPEN_BRACKET || env.text[p] == OPEN_BRACE)
    && (forall i :: 0 <= i < p ==> IsSpace(env.text[i]))
    && chunks[k].lo <= p < chunks[k].hi
  }

  lemma OpenTokenAt(text: seq<Byte>, limit: nat, pos: nat, p: nat)
    requires pos <= p < limit <= |text| && (text[p] == OPEN_BRACKET || text[p] == OPEN_BRACE)
    requires forall i :: pos <= i < p ==> IsSpace(text[i])
    ensures var tok := NextToken(text, limit, pos);
            tok.Token? && IsOpen(tok.kind) && tok.start == p && tok.next == p + 1
  {
    SpacesSkipped(text, limit, pos, p);
  }

  /** The worker that knows it does not start in a string finds the root, if the root is complete in its chunk. */
  lemma RootListed(env: Input, limit: nat, chunks: seq<Chunk>, p: nat, k: nat)
    requires ChunksOk(env, limit, chunks) && limit <= |env.text| && RootBehind(env, limit, chunks, p, k)
    requires chunks[k].hi <= limit && Value(env, chunks[k].hi, p).Some?
    ensures exists e :: e in TableOf(chunks[k], false) && e.start == p
  {
    hide NextToken, Value, Stored;
    var c := chunks[k];
    OpenTokenAt(env.text, c.hi, c.lo, p);
    RegionsUnfold(env, c.hi, c.lo);
    assert NextOpen(env, c.hi, c.lo).Some?;
    assert TableOf(c, false)[0].start == p;
  }

  /** A document whose root composite begins behind the first chunk and is complete in its own: the sequential parse
      accepts it, the parallel one finds it in the table, has no composite to put the handle into, and fails. */
  lemma RootRefused(env: Input, limit: nat, chunks: seq<Chunk>, p: nat, k: nat)
    requires ChunksOk(env, limit, chunks) && limit <= |env.text| && RootBehind(env, limit, chunks, p, k)
    requires chunks[k].hi <= limit && Value(env, chunks[k].hi, p).Some?
    ensures Root(env, limit, 0).Some? && AnyRefused(env, limit, chunks) && MainAnswer(env, limit, chunks).None?
  {
    hide NextToken, Value, Find, ChunksOk, MainRun, IterOk;
    RootListed(env, limit, chunks, p, k);
    OpenTokenAt(env.text, limit, 0, p);
    InitOk(env, limit, chunks);
    FindIsLookup(env, limit, chunks, IterInit(chunks), 0, p);
    FoundInChunk(env, limit, chunks, p, k);
    RootAccepted(env, limit, chunks[k].hi, p);
    ParallelIsSequential(env, limit, chunks);
  }

  lemma RootAccepted(env: Input, limit: nat, cut: nat, p: nat)
    requires p < cut <= limit <= |env.text| && (env.text[p] == OPEN_BRACKET || env.text[p] == OPEN_BRACE)
    requires forall i :: 0 <= i < p ==> IsSpace(env.text[i])
    requires Value(env, cut, p).Some?
    ensures Root(env, limit, 0).Some?
  {
    hide NextToken, Elements, Members;
    OpenTokenAt(env.text, limit, 0, p);
    OpenTokenAt(env.text, limit, p, p);
    OpenTokenAt(env.text, cut, p, p);
    TokenFromItsStart(env.text, limit, 0);
    ValueStable(env, cut, limit, p);
  }

  /** The iterator's first lookup lands in the chunk that contains the point, with the guess "not in a string". */
  lemma FoundInChunk(env: Input, limit: nat, chunks: seq<Chunk>, p: nat, k: nat)
    requires ChunksOk(env, limit, chunks) && 1 <= k < |chunks| && chunks[k].lo <= p < chunks[k].hi
    ensures var r := Find(chunks, IterInit(chunks), p).0; r.index == k && r.scenarios[k] == false
  {
    hide Preparsed;
    var a := Advance(chunks, IterInit(chunks), p, false);
    LowerEnds(chunks, limit, k, 0);
    var j := ChunkBefore(chunks, 1, p);
    if j < k {
      LowerEnds(chunks, limit, k, j);
    }
  }

  lemma {:induction false} LowerEnds(chunks: seq<Chunk>, limit: nat, k: nat, j: nat)
    requires Tiling(chunks, limit) && j < k < |chunks|
    ensures chunks[j].hi <= chunks[k].lo
    decreases k - j
  {
    assert chunks[j].hi == chunks[j + 1].lo;
    if j + 1 < k {
      LowerEnds(chunks, limit, k, j + 1);
    }
  }

  // ----- A composite as first element, behind the first chunk -----

  /** An array that opens in the first chunk, and after nothing but space its first element, in chunk `k`. */
  predicate FirstElementBehind(env: Input, limit: nat, chunks: seq<Chunk>, p: nat, q: nat, k: nat)
    requires limit <= |env.text|
  {
    && 1 <= k < |chunks| && p < q < limit
    && env.text[p] == OPEN_BRACKET && (env.text[q] == OPEN_BRACKET || env.text[q] == OPEN_BRACE)
    && (forall i :: 0 <= i < p ==> IsSpace(env.text[i])) && (forall i :: p < i < q ==> IsSpace(env.text[i]))
    && p < chunks[0].hi && chunks[k].lo <= q < chunks[k].hi
  }

  lemma ElementListed(env: Input, limit: nat, chunks: seq<Chunk>, p: nat, q: nat, k: nat)
    requires ChunksOk(env, limit, chunks) && limit <= |env.text| && FirstElementBehind(env, limit, chunks, p, q, k)
    requires chunks[k].hi <= limit && Value(env, chunks[k].hi, q).Some?
    ensures exists e :: e in TableOf(chunks[k], false) && e.start == q
  {
    hide NextToken, Value, Stored;
    var c := chunks[k];
    LowerEnds(chunks, limit, k, 0);
    OpenTokenAt(env.text, c.hi, c.lo, q);
    RegionsUnfold(env, c.hi, c.lo);
    assert NextOpen(env, c.hi, c.lo).Some?;
    assert TableOf(c, false)[0].start == q;
  }

  /** Still in the first chunk, the iterator stays where it is. */
  lemma NotYet(env: Input, limit: nat, chunks: seq<Chunk>, p: nat)
    requires ChunksOk(env, limit, chunks) && p < chunks[0].hi
    ensures Find(chunks, IterInit(chunks), p) == (IterInit(chunks), None)
  {
    hide Preparsed;
  }

  /** Such an array is never accepted by the parallel parse, whatever follows: its first element is found in the
      table, in the one state besides VALUE where a value can start. */
  lemma FirstElementRefused(env: Input, limit: nat, chunks: seq<Chunk>, p: nat, q: nat, k: nat)
    requires ChunksOk(env, limit, chunks) && limit <= |env.text| && FirstElementBehind(env, limit, chunks, p, q, k)
    requires chunks[k].hi <= limit && Value(env, chunks[k].hi, q).Some?
    ensures AnyRefused(env, limit, chunks) && MainAnswer(env, limit, chunks).None?
  {
    hide NextToken, Value, Find, ChunksOk, MainRun, IterOk, Root, Step, Refused;
    ElementListed(env, limit, chunks, p, q, k);
    OpenTokenAt(env.text, limit, 0, p);
    OpenTokenAt(env.text, limit, p + 1, q);
    BracketAt(env.text, limit, 0, p);
    InitOk(env, limit, chunks);
    NotYet(env, limit, chunks, p);
    OkLater(chunks, IterInit(chunks), 0, p + 1);
    FindIsLookup(env, limit, chunks, IterInit(chunks), p + 1, q);
    FoundInChunk(env, limit, chunks, q, k);
    OpeningStep(env, NextToken(env.text, limit, 0));
    var inArray := Parser(FirstArrayElement, []);
    RefusedAtOnce(env, limit, chunks, IterInit(chunks), inArray, p + 1);
    RefusedLater(env, limit, chunks, IterInit(chunks), START, 0, inArray);
    ParallelIsSequential(env, limit, chunks);
  }

  lemma OpeningStep(env: Input, tok: Scan)
    requires tok.Token? && tok.kind == OpenBracket && tok.start + tok.size <= |env.text|
    ensures Step(env, START, tok) == Running(Parser(FirstArrayElement, []))
  {
  }

  /** A value found for the first element of an array. */
  lemma RefusedAtOnce(env: Input, limit: nat, chunks: seq<Chunk>, it: Iter, p: Parser, pos: nat)
    requires Sound(p) && Fits(chunks, it) && pos <= limit <= |env.text| && p.state == FirstArrayElement
    requires var tok := NextToken(env.text, limit, pos); tok.Token? && Consult(chunks, it, tok).1.Some?
    ensures Refused(env, limit, chunks, it, p, pos)
  {
    hide NextToken, Consult, WithHandle;
  }

  /** Nothing found here, but a refusal after the parser's step. */
  lemma RefusedLater(env: Input, limit: nat, chunks: seq<Chunk>, it: Iter, p: Parser, pos: nat, q: Parser)
    requires Sound(p) && Sound(q) && Fits(chunks, it) && pos <= limit <= |env.text|
    requires var tok := NextToken(env.text, limit, pos);
             && tok.Token? && Consult(chunks, it, tok) == (it, None) && Step(env, p, tok) == Running(q)
             && Refused(env, limit, chunks, it, q, tok.next)
    ensures Refused(env, limit, chunks, it, p, pos)
  {
    hide NextToken, Consult, WithHandle, Step;
  }

  lemma BracketAt(text: seq<Byte>, limit: nat, pos: nat, p: nat)
    requires pos <= p < limit <= |text| && text[p] == OPEN_BRACKET && forall i :: pos <= i < p ==> IsSpace(text[i])
    ensures NextToken(text, limit, pos) == Token(OpenBracket, p, 1, p + 1)
  {
    SpacesSkipped(text, limit, pos, p);
  }

  // ----- The smallest case -----

  /** 2046 blanks and an empty array. */
  function BlankThenArray(): (s: seq<Byte>)
    ensures |s| == 2048
  {
    seq(2048, i => if i == 2046 then OPEN_BRACKET else if i == 2047 then CLOSED_BRACKET else 32)
  }

  /** The two parses do not agree on every text: two threads reject this one, one thread accepts it. */
  lemma EquivalenceFails(strtod: seq<Byte> -> Option<Word>, chunks: seq<Chunk>)
    requires var env := Input(BlankThenArray(), strtod);
             && ChunksOk(env, 2048, chunks) && |chunks| == Chunking.EffectiveThreads(2048, 2)
             && forall i :: 0 <= i < |chunks| ==>
                  chunks[i].lo == Chunking.Cut(2048, |chunks|, i) && chunks[i].hi == Chunking.Cut(2048, |chunks|, i + 1)
    ensures var env := Input(BlankThenArray(), strtod);
            Root(env, 2048, 0).Some? && MainAnswer(env, 2048, chunks).None?
  {
    hide NextToken, ChunksOk, MainRun;
    var env := Input(BlankThenArray(), strtod);
    assert |chunks| == 2;
    assert chunks[1].lo == Chunking.Cut(2048, 2, 1) == 1024 && chunks[1].hi == Chunking.Cut(2048, 2, 2) == 2048;
    EmptyArrayAt(env, 2048, 2046);
    RootRefused(env, 2048, chunks, 2046, 1);
  }

  lemma EmptyArrayAt(env: Input, limit: nat, p: nat)
    requires p + 1 < limit <= |env.text| && env.text[p] == OPEN_BRACKET && env.text[p + 1] == CLOSED_BRACKET
    ensures Value(env, limit, p) == Some(Parsed(Arr([]), p + 2))
  {
    hide Elements, Members;
    SpacesSkipped(env.text, limit, p, p);
    SpacesSkipped(env.text, limit, p + 1, p + 1);
  }
}
