/** Which composites a parallel parse refuses, told from the sequential parse alone: no tables, no handles, no skips. */
module Firsts {
  import opened Bytes
  import opened Tokenizer
  import opened Trees
  import opened Grammar
  import opened Pushdown
  import opened Preparse
  import opened Lookup
  import opened Parallel
  import opened Refusals
  import opened Chunking
  import opened Sequential
  import opened Existence
  import opened Acceptance

  // ----- The guesses along the sequential parse -----

  /** The chunk last reached, and whether it was taken to begin inside a string. */
  datatype Guess = Guess(chunk: nat, inString: bool)

  /** The chunk that holds the point, from `k` on; the last one if it lies behind. */
  function ChunkHolding(size: nat, n: nat, k: nat, point: nat): (r: nat)
    requires k < n
    ensures k <= r < n
    decreases n - k
  {
    if k + 1 == n || point < Cut(size, n, k + 1) then k else ChunkHolding(size, n, k + 1, point)
  }

  /** Whoever reaches a chunk first decides what it is taken for. */
  function Reaching(size: nat, n: nat, g: Guess, point: nat, inString: bool): (r: Guess)
    requires g.chunk < n
    ensures r.chunk < n
  {
    var k := ChunkHolding(size, n, g.chunk, point);
    if k == g.chunk then g else Guess(k, inString)
  }

  /** Strings and opening tokens reach chunks. */
  function Reading(size: nat, n: nat, g: Guess, tok: Scan): (r: Guess)
    requires g.chunk < n && tok.Token?
    ensures r.chunk < n
  {
    if tok.kind == String then Reaching(size, n, g, tok.start + tok.size + 1, true)
    else if IsOpen(tok.kind) then Reaching(size, n, g, tok.start, false)
    else g
  }

  /** The regions of a chunk, entered as guessed. */
  function RegionsOf(env: Input, n: nat, g: Guess): seq<Region>
    requires g.chunk < n
  {
    CutsRise(|env.text|, n, g.chunk);
    var lo, hi := Cut(|env.text|, n, g.chunk), Cut(|env.text|, n, g.chunk + 1);
    if g.chunk == 0 then [] else Regions(env, hi, if g.inString then AfterString(env.text, hi, lo) else lo)
  }

  /** Cut in `n`, the chunk lists a value that starts there. */
  predicate Listed(env: Input, n: nat, g: Guess, start: nat)
    requires g.chunk < n
  {
    exists i :: 0 <= i < |RegionsOf(env, n, g)| && RegionsOf(env, n, g)[i].start == start
  }

  /** Somewhere along the sequential parse there is a composite that is the root or the first element of an array, and
      that its chunk, as guessed by then, lists. */
  predicate FirstListed(env: Input, n: nat, g: Guess, p: Parser, pos: nat)
    requires Sound(p) && pos <= |env.text| && g.chunk < n
    decreases |env.text| - pos
  {
    var tok := NextToken(env.text, |env.text|, pos);
    && tok.Token?
    && var g' := Reading(|env.text|, n, g, tok);
       || (IsOpen(tok.kind) && StartsFirst(p) && Listed(env, n, g', tok.start))
       || (var o := Step(env, p, tok); o.Running? && FirstListed(env, n, g', o.p, tok.next))
  }

  // ----- The iterator follows the guesses -----

  predicate AtCuts(env: Input, chunks: seq<Chunk>) {
    && chunks != []
    && forall i :: 0 <= i < |chunks| ==>
         chunks[i].lo == Cut(|env.text|, |chunks|, i) && chunks[i].hi == Cut(|env.text|, |chunks|, i + 1)
  }

  /** Up to the end of the text, the iterator stands where the guesses do. */
  predicate SamePlace(env: Input, chunks: seq<Chunk>, it: Iter, g: Guess, pos: nat) {
    && Fits(chunks, it) && g.chunk < |chunks|
    && (pos < |env.text| ==> it.index == g.chunk && it.scenarios[g.chunk] == g.inString)
  }

  lemma {:induction false} HoldingIsBefore(env: Input, chunks: seq<Chunk>, k: nat, point: nat)
    requires AtCuts(env, chunks) && k < |chunks| && point < |env.text| == chunks[|chunks| - 1].hi
    ensures ChunkBefore(chunks, k, point) == ChunkHolding(|env.text|, |chunks|, k, point)
    decreases |chunks| - k
  {
    hide Cut;
    if chunks[k].hi <= point {
      HoldingIsBefore(env, chunks, k + 1, point);
    }
  }

  lemma AdvanceFollows(env: Input, chunks: seq<Chunk>, it: Iter, g: Guess, pos: nat, point: nat, inString: bool)
    requires AtCuts(env, chunks) && SamePlace(env, chunks, it, g, pos) && pos <= point
    requires |env.text| == chunks[|chunks| - 1].hi
    ensures SamePlace(env, chunks, Advance(chunks, it, point, inString),
                      Reaching(|env.text|, |chunks|, g, point, inString), point)
  {
    hide Cut;
    if point < |env.text| {
      HoldingIsBefore(env, chunks, it.index, point);
    }
  }

  lemma TableLists(env: Input, chunks: seq<Chunk>, g: Guess, start: nat)
    requires AtCuts(env, chunks) && ChunksOk(env, |env.text|, chunks) && g.chunk < |chunks|
    ensures (exists e :: e in TableOf(chunks[g.chunk], g.inString) && e.start == start)
       <==> Listed(env, |chunks|, g, start)
  {
    hide Cut, Regions, Stored, LiesBelow, AfterString;
    var table, regions := TableOf(chunks[g.chunk], g.inString), RegionsOf(env, |chunks|, g);
    assert |table| == |regions| && forall i :: 0 <= i < |table| ==> table[i].start == regions[i].start;
    if Listed(env, |chunks|, g, start) {
      var i :| 0 <= i < |regions| && regions[i].start == start;
      assert table[i] in table;
    }
  }

  /** A token moves the iterator as it moves the guesses, and a value is found exactly where one is listed. */
  lemma ReadingFollows(env: Input, chunks: seq<Chunk>, it: Iter, g: Guess, pos: nat)
    requires AtCuts(env, chunks) && ChunksOk(env, |env.text|, chunks) && pos <= |env.text|
    requires SamePlace(env, chunks, it, g, pos) && IterOk(chunks, it, pos)
    ensures var tok := NextToken(env.text, |env.text|, pos);
            tok.Token? ==>
              var g', (it', hit) := Reading(|env.text|, |chunks|, g, tok), Consult(chunks, it, tok);
              && SamePlace(env, chunks, it', g', if IsOpen(tok.kind) then tok.start else tok.next)
              && (hit.Some? <==> IsOpen(tok.kind) && Listed(env, |chunks|, g', tok.start))
  {
    hide NextToken, ChunksOk, IterOk, Advance, Reaching, Search, Listed, AtCuts;
    var tok := NextToken(env.text, |env.text|, pos);
    TilingOf(env, |env.text|, chunks);
    StringTokenEnd(env.text, |env.text|, pos);
    if tok.Token? && tok.kind == String {
      AdvanceFollows(env, chunks, it, g, pos, tok.next, true);
    } else if tok.Token? && IsOpen(tok.kind) {
      TokenFromItsStart(env.text, |env.text|, pos);
      AdvanceFollows(env, chunks, it, g, pos, tok.start, false);
      FindIsLookup(env, |env.text|, chunks, it, pos, tok.start);
      TableLists(env, chunks, Reading(|env.text|, |chunks|, g, tok), tok.start);
    }
  }

  // ----- What lies inside a listed value -----

  lemma LastBytes(text: seq<Byte>, limit: nat, pos: nat)
    requires pos <= limit <= |text|
    ensures var tok := NextToken(text, limit, pos);
            tok.Token? && tok.kind != Eof ==>
              && (tok.kind == String ==> text[tok.next - 1] == QUOTE)
              && (tok.kind == ClosedBracket || tok.kind == ClosedBrace ==> text[tok.next - 1] != QUOTE)
  {
  }

  /** A composite does not end with a quote. */
  lemma CompositeEnds(env: Input, limit: nat, pos: nat)
    requires pos <= limit <= |env.text| && StartsComposite(env, limit, pos) && Value(env, limit, pos).Some?
    ensures env.text[Value(env, limit, pos).value.next - 1] != QUOTE
  {
    hide NextToken, Elements, Members;
    var tok := NextToken(env.text, limit, pos);
    var first := NextToken(env.text, limit, tok.next);
    LastBytes(env.text, limit, tok.next);
    if tok.kind == OpenBracket && !(first.Token? && first.kind == ClosedBracket) {
      ElementsEnd(env, limit, tok.next);
    } else if tok.kind == OpenBrace && !(first.Token? && first.kind == ClosedBrace) {
      MembersEnd(env, limit, tok.next);
    }
  }

  lemma {:induction false} ElementsEnd(env: Input, limit: nat, pos: nat)
    requires pos <= limit <= |env.text| && Elements(env, limit, pos).Some?
    ensures env.text[Elements(env, limit, pos).value.next - 1] != QUOTE
    decreases limit - pos
  {
    hide NextToken, Value;
    var v := Value(env, limit, pos).value;
    var sep := NextToken(env.text, limit, v.next);
    LastBytes(env.text, limit, v.next);
    if sep.kind == Comma {
      ElementsEnd(env, limit, sep.next);
    }
  }

  lemma {:induction false} MembersEnd(env: Input, limit: nat, pos: nat)
    requires pos <= limit <= |env.text| && Members(env, limit, pos).Some?
    ensures env.text[Members(env, limit, pos).value.next - 1] != QUOTE
    decreases limit - pos
  {
    hide NextToken, Value;
    var key := NextToken(env.text, limit, pos);
    var colon := NextToken(env.text, limit, key.next);
    var v := Value(env, limit, colon.next).value;
    var sep := NextToken(env.text, limit, v.next);
    LastBytes(env.text, limit, v.next);
    if sep.kind == Comma {
      MembersEnd(env, limit, sep.next);
    }
  }

  /** Nothing inside a listed value is listed. */
  lemma NothingInside(env: Input, chunks: seq<Chunk>, g: Guess, e: Entry, start: nat)
    requires AtCuts(env, chunks) && ChunksOk(env, |env.text|, chunks) && g.chunk < |chunks|
    requires e in TableOf(chunks[g.chunk], g.inString) && e.start < start < e.start + e.size
    ensures !Listed(env, |chunks|, g, start)
  {
    hide Cut, Regions, Stored, LiesBelow, AfterString;
    var c, regions := chunks[g.chunk], RegionsOf(env, |chunks|, g);
    var i :| 0 <= i < |TableOf(c, g.inString)| && TableOf(c, g.inString)[i] == e;
    forall j | 0 <= j < |regions| ensures regions[j].start != start {
      if i < j {
        RegionsApart(env, c.hi, EntryPoint(env, c, g.inString), i, j);
      } else if j < i {
        RegionsApart(env, c.hi, EntryPoint(env, c, g.inString), j, i);
      }
    }
  }

  lemma {:induction false} GetsAhead(env: Input, limit: nat, p: Parser, pos: nat, q: Parser, next: nat)
    requires Sound(p) && pos <= limit <= |env.text| && Gets(env, limit, p, pos, q, next)
    ensures pos <= next
    decreases limit - pos
  {
    hide NextToken, Step;
    if !(p == q && pos == next) {
      var tok := NextToken(env.text, limit, pos);
      GetsAhead(env, limit, Step(env, p, tok).p, tok.next, q, next);
    }
  }

  /** Within a chunk where nothing is listed, the guesses stay as they are, and nothing comes first. */
  lemma {:induction false} Through(env: Input, n: nat, g: Guess, p: Parser, pos: nat, q: Parser, next: nat)
    requires Sound(p) && Sound(q) && pos <= next <= |env.text| && g.chunk < n
    requires Gets(env, |env.text|, p, pos, q, next)
    requires next <= Cut(|env.text|, n, g.chunk + 1) && next > 0 && env.text[next - 1] != QUOTE
    requires forall start :: pos <= start < next ==> !Listed(env, n, g, start)
    ensures FirstListed(env, n, g, p, pos) <==> FirstListed(env, n, g, q, next)
    decreases next - pos
  {
    hide NextToken, Step, Listed, Cut;
    if !(p == q && pos == next) {
      var tok := NextToken(env.text, |env.text|, pos);
      var o := Step(env, p, tok);
      GetsAhead(env, |env.text|, o.p, tok.next, q, next);
      LastBytes(env.text, |env.text|, pos);
      StringTokenEnd(env.text, |env.text|, pos);
      TokenFromItsStart(env.text, |env.text|, pos);
      assert Reading(|env.text|, n, g, tok) == g;
      Through(env, n, g, o.p, tok.next, q, next);
    }
  }

  // ----- The exact condition -----

  /** Where the main thread skips a value, the sequential run goes through it and meets nothing listed. */
  lemma SkipsNothing(env: Input, chunks: seq<Chunk>, it: Iter, g: Guess, g': Guess, p: Parser, pos: nat, tok: Scan,
                     e: Entry)
    requires AtCuts(env, chunks) && ChunksOk(env, |env.text|, chunks) && pos <= |env.text| && Sound(p) && TakesHandle(p)
    requires tok == NextToken(env.text, |env.text|, pos) && tok.Token? && IsOpen(tok.kind) && g.chunk < |chunks|
    requires g' == Reading(|env.text|, |chunks|, g, tok) && it.index == g'.chunk
    requires HitOk(env, |env.text|, chunks, it, pos, tok, e) && it.scenarios[it.index] == g'.inString
    ensures tok.start + e.size <= |env.text|
    ensures FirstListed(env, |chunks|, g, DerefParser(p), pos)
       <==> FirstListed(env, |chunks|, g', DerefParser(WithHandle(env, |env.text|, p, it, e)), tok.start + e.size)
  {
    hide NextToken, ChunksOk, IterOk, Value, TreeAt, Listed, Step, Gets, Reading, Cut, DerefParser, WithHandle, AtCuts;
    var limit := |env.text|;
    var q, end := DerefParser(WithHandle(env, limit, p, it, e)), tok.start + e.size;
    SkipGets(env, limit, chunks, it, p, pos, tok, e);
    CompositeEnds(env, limit, pos);
    TokenFromItsStart(env.text, limit, pos);
    forall start | tok.next <= start < end ensures !Listed(env, |chunks|, g', start) {
      NothingInside(env, chunks, g', e, start);
    }
    EndsInChunk(env, chunks, it, e);
    FirstStep(env, limit, DerefParser(p), pos, q, end);
    DerefTakes(p);
    Through(env, |chunks|, g', Step(env, DerefParser(p), tok).p, tok.next, q, end);
  }

  lemma FirstStep(env: Input, limit: nat, p: Parser, pos: nat, q: Parser, next: nat)
    requires Sound(p) && pos <= limit <= |env.text| && Gets(env, limit, p, pos, q, next) && pos < next
    ensures var tok := NextToken(env.text, limit, pos);
            && tok.Token? && Step(env, p, tok).Running?
            && Gets(env, limit, Step(env, p, tok).p, tok.next, q, next)
  {
    hide NextToken, Step;
  }

  lemma EndsInChunk(env: Input, chunks: seq<Chunk>, it: Iter, e: Entry)
    requires AtCuts(env, chunks) && ChunksOk(env, |env.text|, chunks) && Fits(chunks, it)
    requires e in TableOf(chunks[it.index], it.scenarios[it.index])
    ensures e.size > 0 && e.start + e.size <= Cut(|env.text|, |chunks|, it.index + 1)
  {
    hide ChunksOk, Value, Stored, Cut;
    var table := TableOf(chunks[it.index], it.scenarios[it.index]);
    var i :| 0 <= i < |table| && table[i] == e;
    EntriesOk(env, |env.text|, chunks, it.index, it.scenarios[it.index], i);
  }

  /** A run of the main thread meets a refusal exactly where along the sequential run a listed composite comes first. */
  lemma {:induction false} RefusedAtFirsts(env: Input, chunks: seq<Chunk>, it: Iter, g: Guess, p: Parser, pos: nat)
    requires AtCuts(env, chunks) && ChunksOk(env, |env.text|, chunks) && pos <= |env.text| && Sound(p)
    requires SamePlace(env, chunks, it, g, pos) && IterOk(chunks, it, pos)
    ensures Refused(env, |env.text|, chunks, it, p, pos) <==> FirstListed(env, |chunks|, g, DerefParser(p), pos)
    decreases |env.text| - pos
  {
    hide NextToken, ChunksOk, IterOk, Consult, Step, Settle, Value, TreeAt, WithHandle, HitOk, DerefParser;
    hide AtCuts, Listed, Reading;
    var limit := |env.text|;
    var tok := NextToken(env.text, limit, pos);
    HitIsValue(env, limit, chunks, it, pos);
    ReadingFollows(env, chunks, it, g, pos);
    if tok.Token? {
      var (it', hit) := Consult(chunks, it, tok);
      var g' := Reading(limit, |chunks|, g, tok);
      DerefTakes(p);
      TokenFromItsStart(env.text, limit, pos);
      if hit.Some? {
        HitMeans(env, limit, chunks, it', pos, tok, hit.value);
        if TakesHandle(p) {
          var next := tok.start + hit.value.size;
          SkipsNothing(env, chunks, it', g, g', p, pos, tok, hit.value);
          RefusedAtFirsts(env, chunks, it', g', WithHandle(env, limit, p, it', hit.value), next);
        } else if !StartsFirst(p) {
          OpenFails(env, DerefParser(p), tok);
        }
      } else {
        StepDeref(env, p, tok);
        var o := Step(env, p, tok);
        if o.Running? {
          RefusedAtFirsts(env, chunks, it', g', o.p, tok.next);
        }
      }
    }
  }

  /** For every text and every number of threads: a parallel parse is refused exactly if somewhere along the sequential
      parse a composite that its chunk lists is the root or the first element of an array. */
  lemma RefusesExactly(env: Input, threads: nat)
    requires threads > 0 && |env.text| <= MAX_TEXT
    ensures Refuses(env, threads)
       <==> FirstListed(env, EffectiveThreads(|env.text|, threads), Guess(0, false), START, 0)
  {
    hide ChunksOk, Refused, MainAnswer, Root, Refuses, FirstListed, IterOk, Cut;
    var chunks := ChunksExist(env, threads);
    AcceptanceFixed(env, threads, chunks);
    InitOk(env, |env.text|, chunks);
    assert DerefParser(START) == START;
    RefusedAtFirsts(env, chunks, IterInit(chunks), Guess(0, false), START, 0);
  }

  // ----- Texts that are refused -----

  /** Only space, and then a composite that is complete in a later chunk: one thread accepts, several do not. */
  lemma LateRootRefused(env: Input, threads: nat, p: nat, k: nat)
    requires threads > 0 && |env.text| <= MAX_TEXT && RootBehind(env, |env.text|, Speculation(env, threads), p, k)
    requires Value(env, Speculation(env, threads)[k].hi, p).Some?
    ensures Root(env, |env.text|, 0).Some? && Refuses(env, threads)
  {
    hide ChunksOk, Refused, MainAnswer, Root, Refuses, Cut, Value;
    var chunks := ChunksExist(env, threads);
    RootRefused(env, |env.text|, chunks, p, k);
    AcceptanceFixed(env, threads, chunks);
  }

  /** A root array that opens in the first chunk, and whose first element is complete in a later one. */
  lemma LateElementRefused(env: Input, threads: nat, p: nat, q: nat, k: nat)
    requires threads > 0 && |env.text| <= MAX_TEXT
    requires FirstElementBehind(env, |env.text|, Speculation(env, threads), p, q, k)
    requires Value(env, Speculation(env, threads)[k].hi, q).Some?
    ensures Refuses(env, threads)
  {
    hide ChunksOk, Refused, MainAnswer, Root, Refuses, Cut, Value;
    var chunks := ChunksExist(env, threads);
    FirstElementRefused(env, |env.text|, chunks, p, q, k);
    AcceptanceFixed(env, threads, chunks);
  }

  /** 2046 blanks and an empty array: one thread accepts, two do not. No shorter text has a second thread. */
  lemma TwoThreadsRefuse(strtod: seq<Byte> -> Option<Word>)
    ensures var env := Input(BlankThenArray(), strtod); Root(env, 2048, 0).Some? && Refuses(env, 2)
  {
    hide ChunksOk, Refused, MainAnswer, Root, Refuses;
    var env := Input(BlankThenArray(), strtod);
    var chunks := ChunksExist(env, 2);
    EquivalenceFails(strtod, chunks);
    AcceptanceFixed(env, 2, chunks);
  }
}
