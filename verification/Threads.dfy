/** The multithreaded parse: chunks, workers, the iterator over their results, and the main thread. */
module Threads {
  import opened Bytes
  import opened Tokenizer
  import opened Trees
  import opened Grammar
  import opened Pushdown
  import opened Encoding
  import opened Layout
  import opened Parsers
  import opened Sequential
  import opened Preparse
  import opened Lookup
  import opened Parallel

  /** What a worker publishes for one scenario. */
  datatype Published = Published(table: seq<Entry>, segment: MutSlice)

  /** `ThsnThreadContext`. A result is there once its completion flag is set. */
  class ThreadContext {
    const lo: nat
    const hi: nat
    const chunkNo: nat
    var notInString: Option<Published>
    var inString: Option<Published>
    /** `pp_scenario`: which result the document gets. */
    var startsInString: bool

    constructor (lo: nat, hi: nat, chunkNo: nat)
      ensures this.lo == lo && this.hi == hi && this.chunkNo == chunkNo
      ensures notInString == None && inString == None && !startsInString
    {
      this.lo, this.hi, this.chunkNo := lo, hi, chunkNo;
      notInString, inString, startsInString := None, None, false;
    }

    function Result(s: bool): Option<Published>
      reads this`notInString, this`inString
    {
      if s then inString else notInString
    }

    /** `thsn_preparse_thread`: both guesses, one after the other. */
    method Run(env: Input)
      requires lo <= hi <= |env.text| <= MAX_TEXT
      modifies this`notInString, this`inString
      ensures notInString.Some? && inString.Some?
      ensures notInString.value.segment.Valid() && inString.value.segment.Valid()
      ensures fresh(notInString.value.segment.data) && fresh(inString.value.segment.data)
      ensures Preparsed(env, hi, lo, notInString.value.segment.Bytes(), notInString.value.table)
      ensures Preparsed(env, hi, AfterString(env.text, hi, lo), inString.value.segment.Bytes(), inString.value.table)
    {
      hide Preparsed, AfterString;
      var start := AdvanceAfterEndOfString(env.text, hi, lo);
      var segment, table := PreparseBuffer(env, hi, start);
      inString := Some(Published(table, segment));
      segment, table := PreparseBuffer(env, hi, lo);
      notInString := Some(Published(table, segment));
    }
  }

  /** The tables that the contexts hold are those of the chunks. */
  ghost predicate Shows(contexts: seq<ThreadContext>, chunks: seq<Chunk>)
    reads contexts
  {
    && |contexts| == |chunks|
    && (forall k :: 0 <= k < |chunks| ==>
          contexts[k].lo == chunks[k].lo && contexts[k].hi == chunks[k].hi && contexts[k].chunkNo == k)
    && (forall k, s: bool :: 1 <= k < |chunks| ==>
          contexts[k].Result(s).Some? && contexts[k].Result(s).value.table == TableOf(chunks[k], s))
    && (forall j, k :: 0 <= j < k < |contexts| ==> contexts[j] != contexts[k])
  }

  ghost function Scenarios(contexts: seq<ThreadContext>): (s: seq<bool>)
    reads contexts
    ensures |s| == |contexts|
  {
    seq(|contexts|, k requires 0 <= k < |contexts| reads contexts => contexts[k].startsInString)
  }

  // ----- The iterator -----

  /** `ThsnPreparseIterator`. */
  class PreparseIterator {
    const contexts: seq<ThreadContext>
    var index: nat
    var rest: seq<Entry>
    var current: Option<Entry>

    constructor (contexts: seq<ThreadContext>)
      ensures this.contexts == contexts && index == 0 && rest == [] && current == None
    {
      this.contexts := contexts;
      index, rest, current := 0, [], None;
    }

    ghost function View(): Iter
      reads this, contexts
    {
      Iter(index, rest, current, Scenarios(contexts))
    }

    ghost predicate Valid(chunks: seq<Chunk>)
      reads this, contexts
    {
      Shows(contexts, chunks) && index < |chunks|
    }

    /** The loop over the thread contexts: the first one whose text ends behind the point. */
    method ContextBefore(point: nat, ghost chunks: seq<Chunk>) returns (k: nat)
      requires Valid(chunks)
      ensures index < k == ChunkBefore(chunks, index + 1, point) <= |contexts|
    {
      k := index + 1;
      while k < |contexts| && contexts[k].hi <= point
        invariant index < k <= |contexts|
        invariant ChunkBefore(chunks, index + 1, point) == ChunkBefore(chunks, k, point)
      {
        k := k + 1;
      }
    }

    /** `thsn_pp_iter_advance_to_char`. */
    method AdvanceToChar(point: nat, inString: bool, ghost chunks: seq<Chunk>)
      requires Valid(chunks)
      modifies this, (set c | c in contexts)`startsInString
      ensures Valid(chunks) && View() == Advance(chunks, old(View()), point, inString)
    {
      hide ChunkBefore, Scenarios;
      if point < contexts[index].hi {
        return;
      }
      var k := ContextBefore(point, chunks);
      if k == |contexts| {
        index, rest, current := |contexts| - 1, [], None;
      } else {
        Land(k, inString, chunks);
      }
    }

    /** Wait for the result, fix the scenario of the chunk, and start on its table. */
    method Land(k: nat, inString: bool, ghost chunks: seq<Chunk>)
      requires Valid(chunks) && index < k < |contexts|
      modifies this, (set c | c in contexts)`startsInString
      ensures Valid(chunks) && index == k
      ensures Scenarios(contexts) == old(Scenarios(contexts))[k := inString]
      ensures var table := TableOf(chunks[k], inString);
              && rest == (if table == [] then [] else table[1..])
              && current == (if table == [] then None else Some(table[0]))
    {
      var published := contexts[k].Result(inString);
      contexts[k].startsInString := inString;
      var table := published.value.table;
      index := k;
      if table == [] {
        rest, current := [], None;
      } else {
        rest, current := table[1..], Some(table[0]);
      }
    }

    /** `thsn_pp_iter_find_value_at`. */
    method FindValueAt(point: nat, ghost chunks: seq<Chunk>) returns (found: Option<Entry>)
      requires Valid(chunks)
      modifies this, (set c | c in contexts)`startsInString
      ensures Valid(chunks) && (View(), found) == Find(chunks, old(View()), point)
    {
      AdvanceToChar(point, false, chunks);
      ghost var before := View();
      if current.None? {
        return None;
      }
      while true
        invariant Valid(chunks) && current.Some? && Scenarios(contexts) == before.scenarios
        invariant Search(View(), point) == Search(before, point)
        decreases |rest|
      {
        if point < current.value.start {
          return None;
        }
        if point == current.value.start {
          return current;
        }
        if rest == [] {
          return None;
        }
        current, rest := Some(rest[0]), rest[1..];
      }
    }

    /** The switch over the token at the head of the main loop. */
    method ConsultFor(tok: Scan, ghost chunks: seq<Chunk>) returns (found: Option<Entry>)
      requires Valid(chunks) && tok.Token?
      modifies this, (set c | c in contexts)`startsInString
      ensures Valid(chunks) && (View(), found) == Consult(chunks, old(View()), tok)
    {
      hide Advance, Find, Shows;
      found := None;
      if tok.kind == String {
        AdvanceToChar(tok.start + tok.size + 1, true, chunks);
      } else if IsOpen(tok.kind) {
        found := FindValueAt(tok.start, chunks);
      }
    }
  }

  // ----- The main thread -----

  /** Between two rounds of the main loop. */
  ghost predicate MainLoop(ctx: ParserContext, it: PreparseIterator, limit: nat, chunks: seq<Chunk>, pos: nat,
                           answer: Option<MainResult>)
    requires limit <= |ctx.env.text|
    reads ctx, ctx.stack, ctx.segment, ctx.stack.buffer, ctx.segment.buffer, it, it.contexts
  {
    && ctx.Valid() && Sound(Parser(ctx.state, ctx.frames)) && ctx.base == 0 && pos <= limit
    && it.Valid(chunks) && IterOk(chunks, it.View(), pos)
    && answer == MainRun(ctx.env, limit, chunks, it.View(), Parser(ctx.state, ctx.frames), pos)
  }

  /** How a round can end: with the document complete, with a composite stuck at the end of input, or with the next
      round to come. */
  ghost predicate RoundEnded(ctx: ParserContext, it: PreparseIterator, limit: nat, chunks: seq<Chunk>, next: nat,
                             answer: Option<MainResult>, finished: bool, stuck: bool)
    requires limit <= |ctx.env.text|
    reads ctx, ctx.stack, ctx.segment, ctx.stack.buffer, ctx.segment.buffer, it, it.contexts
  {
    if finished then
      && ctx.Separate() && it.Valid(chunks) && answer.Some?
      && answer.value.next == next && answer.value.scenarios == Scenarios(it.contexts)
      && RootAt(ctx.env, ctx.segment.Contents(), 0, answer.value.root)
    else if stuck then ctx.StuckState() && it.Valid(chunks) && next == limit && answer == None
    else MainLoop(ctx, it, limit, chunks, next, answer)
  }

  /** The value has been parsed by a worker: store a handle to it, and skip its text behind the opening token. */
  method TakeValue(ctx: ParserContext, it: PreparseIterator, limit: nat, tok: Scan, e: Entry, ghost pos: nat,
                   ghost chunks: seq<Chunk>) returns (ok: bool, next: nat)
    requires limit <= |ctx.env.text| <= MAX_TEXT && ChunksOk(ctx.env, limit, chunks) && |chunks| <= 255
    requires ctx.Valid() && Sound(Parser(ctx.state, ctx.frames)) && ctx.HasRoom() && pos <= limit
    requires it.Valid(chunks) && tok.Token? && tok.next == tok.start + 1
    requires HitOk(ctx.env, limit, chunks, it.View(), pos, tok, e)
    modifies ctx, ctx.stack, ctx.segment, ctx.segment.buffer
    ensures ctx.Separate() && ctx.Kept()
    ensures ok <==> TakesHandle(old(Parser(ctx.state, ctx.frames)))
    ensures ok ==> next == tok.start + e.size && ctx.Valid()
    ensures ok ==>
      Parser(ctx.state, ctx.frames) == WithHandle(ctx.env, limit, old(Parser(ctx.state, ctx.frames)), it.View(), e)
  {
    hide ChunksOk, IterOk, Value, TreeAt, ParserContext.Valid, Stored, StepPreserved;
    next := tok.next;
    EntryOfHit(ctx.env, limit, chunks, it.View(), e);
    StoredInReach(ctx.env, chunks, it.View(), e, TreeAt(ctx.env, limit, e.start));
    var segmentNo := it.contexts[it.index].chunkNo;
    ok := ctx.AddValueHandle(segmentNo, e.offset, TreeAt(ctx.env, limit, e.start));
    if ok {
      var left, step := limit - tok.next, e.size - 1;
      if step > left {
        return false, next;
      }
      next := tok.next + step;
    }
  }

  lemma StoredInReach(env: Input, chunks: seq<Chunk>, it: Iter, e: Entry, v: Tree)
    requires Fits(chunks, it)
    requires Stored(env.text, ResultOf(chunks[it.index], it.scenarios[it.index]).segment, e.offset, v)
    ensures e.offset < HANDLE_OFFSET_LIMIT
  {
    hide Enc;
  }

  lemma RoundBegins(ctx: ParserContext, it: PreparseIterator, limit: nat, chunks: seq<Chunk>, pos: nat,
                    answer: Option<MainResult>, wasStuck: bool)
    requires limit <= |ctx.env.text| && RoundEnded(ctx, it, limit, chunks, pos, answer, false, wasStuck)
    ensures ctx.Separate() && it.Valid(chunks)
    ensures if wasStuck then ctx.StuckState() && pos == limit && answer == None
            else
              && ctx.Valid() && Sound(Parser(ctx.state, ctx.frames)) && ctx.base == 0 && pos <= limit
              && IterOk(chunks, it.View(), pos)
              && answer == MainRun(ctx.env, limit, chunks, it.View(), Parser(ctx.state, ctx.frames), pos)
  {
    hide MainRun, IterOk, Shows, PreparseIterator.View;
  }

  /** The parser has taken a token, and the specified run has taken the same step. */
  lemma StepEnds(ctx: ParserContext, it: PreparseIterator, limit: nat, chunks: seq<Chunk>, o: Outcome, next: nat,
                 answer: Option<MainResult>, finished: bool)
    requires next <= limit <= |ctx.env.text| && it.Valid(chunks) && IterOk(chunks, it.View(), next)
    requires ctx.Separate() && ctx.base == 0 && ctx.Reached(o, true, finished)
    requires o.Running? ==> Sound(o.p) && answer == MainRun(ctx.env, limit, chunks, it.View(), o.p, next)
    requires o.Done? ==> answer == Some(MainResult(o.root, next, it.View().scenarios))
    requires o.Stuck? ==> answer == None && next == limit
    ensures RoundEnded(ctx, it, limit, chunks, next, answer, finished, o.Stuck?)
  {
    hide MainRun, IterOk, Shows, RootAt, ParserContext.Valid;
  }

  /** The handle has been taken, and the specified run has taken it too. */
  lemma TakeEnds(ctx: ParserContext, it: PreparseIterator, limit: nat, chunks: seq<Chunk>, next: nat,
                 answer: Option<MainResult>)
    requires next <= limit <= |ctx.env.text| && it.Valid(chunks) && IterOk(chunks, it.View(), next)
    requires ctx.Valid() && ctx.base == 0 && Sound(Parser(ctx.state, ctx.frames))
    requires answer == MainRun(ctx.env, limit, chunks, it.View(), Parser(ctx.state, ctx.frames), next)
    ensures RoundEnded(ctx, it, limit, chunks, next, answer, false, false)
  {
    hide MainRun, IterOk, Shows, ParserContext.Valid, PreparseIterator.View;
  }

  /** A worker has parsed the value that opens here: the specified run takes the handle as the thread does. */
  method TakeFound(ctx: ParserContext, it: PreparseIterator, limit: nat, tok: Scan, e: Entry, ghost pos: nat,
                   ghost chunks: seq<Chunk>, ghost answer: Option<MainResult>) returns (ok: bool, next: nat)
    requires limit <= |ctx.env.text| <= MAX_TEXT && ChunksOk(ctx.env, limit, chunks) && |chunks| <= 255
    requires ctx.Valid() && Sound(Parser(ctx.state, ctx.frames)) && ctx.HasRoom() && ctx.base == 0 && pos <= limit
    requires it.Valid(chunks) && tok.Token? && tok.next == tok.start + 1 && pos <= tok.start
    requires HitOk(ctx.env, limit, chunks, it.View(), pos, tok, e)
    requires var p := Parser(ctx.state, ctx.frames);
             if !TakesHandle(p) || e.size == 0 || tok.start + e.size > limit then answer == None
             else
               answer == MainRun(ctx.env, limit, chunks, it.View(), WithHandle(ctx.env, limit, p, it.View(), e),
                                 tok.start + e.size)
    modifies ctx, ctx.stack, ctx.segment, ctx.segment.buffer
    ensures ctx.Separate() && ctx.Kept() && it.Valid(chunks)
    ensures !ok ==> answer == None
    ensures ok ==> pos < next <= limit && RoundEnded(ctx, it, limit, chunks, next, answer, false, false)
  {
    hide ChunksOk, IterOk, Shows, MainRun, RoundEnded, StepPreserved, HitOk, Value, TreeAt;
    hide ParserContext.Valid, PreparseIterator.View;
    HitMeans(ctx.env, limit, chunks, it.View(), pos, tok, e);
    ok, next := TakeValue(ctx, it, limit, tok, e, pos, chunks);
    if ok {
      TakeEnds(ctx, it, limit, chunks, next, answer);
    }
  }

  /** No worker has parsed a value here: the token goes to the parser. */
  method ParseUnfound(ctx: ParserContext, it: PreparseIterator, limit: nat, tok: Scan, ghost chunks: seq<Chunk>,
                      ghost answer: Option<MainResult>, ghost wasStuck: bool)
    returns (ok: bool, finished: bool, ghost stuck: bool)
    requires ctx.Separate() && limit <= |ctx.env.text| && it.Valid(chunks)
    requires ctx.HasRoom() && ctx.Genuine(tok) && tok.next <= limit
    requires tok.kind == Eof ==> tok.next == limit
    requires if wasStuck then ctx.StuckState() && tok.kind == Eof && answer == None
             else
               && ctx.Valid() && Sound(Parser(ctx.state, ctx.frames)) && ctx.base == 0
               && IterOk(chunks, it.View(), tok.next)
               && answer ==
                    match Step(ctx.env, Parser(ctx.state, ctx.frames), tok)
                    case Running(q) => MainRun(ctx.env, limit, chunks, it.View(), q, tok.next)
                    case Done(root) => Some(MainResult(root, tok.next, it.View().scenarios))
                    case Stuck => None
                    case Error => None
    modifies ctx, ctx.stack, ctx.segment, ctx.stack.buffer, ctx.segment.buffer
    ensures ctx.Separate() && ctx.Kept() && it.Valid(chunks)
    ensures !ok ==> answer == None
    ensures ok ==> RoundEnded(ctx, it, limit, chunks, tok.next, answer, finished, stuck)
    ensures wasStuck ==> !ok
    ensures ok && !finished && !stuck ==> tok.kind != Eof
  {
    hide IterOk, Step, Shows, MainRun, RoundEnded, StepPreserved, RootAt;
    hide ParserContext.Valid, ParserContext.StuckState;
    ghost var p := Parser(ctx.state, ctx.frames);
    stuck := false;
    ok, finished := ctx.ParseNextToken(tok);
    if ok {
      ghost var o := Step(ctx.env, p, tok);
      stuck := o.Stuck?;
      StepEnds(ctx, it, limit, chunks, o, tok.next, answer, finished);
    }
  }

  /** One round: a token, a look at the tables, and either a handle and a skip, or the parser. */
  method MainRound(ctx: ParserContext, it: PreparseIterator, limit: nat, pos: nat, ghost chunks: seq<Chunk>,
                   ghost answer: Option<MainResult>, ghost wasStuck: bool)
    returns (ok: bool, finished: bool, next: nat, ghost stuck: bool)
    requires limit <= |ctx.env.text| <= MAX_TEXT && ChunksOk(ctx.env, limit, chunks) && |chunks| <= 255
    requires ctx.Separate() && ctx.HasRoom() && pos <= limit
    requires RoundEnded(ctx, it, limit, chunks, pos, answer, false, wasStuck)
    modifies ctx, ctx.stack, ctx.segment, ctx.stack.buffer, ctx.segment.buffer, it,
      (set c | c in it.contexts)`startsInString
    ensures ctx.Separate() && ctx.Kept() && it.Valid(chunks)
    ensures !ok ==> answer == None
    ensures ok ==> pos <= next <= limit && RoundEnded(ctx, it, limit, chunks, next, answer, finished, stuck)
    ensures wasStuck ==> !ok
    ensures ok && !finished && !stuck ==> pos < next
  {
    hide NextToken, ChunksOk, IterOk, Consult, Step, Settle, Shows, MainRun, Value, TreeAt, HitOk, RoundEnded;
    hide ParserContext.Valid, ParserContext.StuckState, PreparseIterator.View, RootAt, StepPreserved, WithHandle;
    PreservedAppended(ctx.segment.Contents(), ctx.marks, ctx.frames, ctx.segment.Contents());
    var tok := ScanToken(ctx.env.text, limit, pos);
    EofToken(ctx.env.text, limit, pos);
    RoundBegins(ctx, it, limit, chunks, pos, answer, wasStuck);
    ghost var p := Parser(ctx.state, ctx.frames);
    if !wasStuck {
      HitIsValue(ctx.env, limit, chunks, it.View(), pos);
      IterFits(chunks, it.View(), pos);
      MainUnfold(ctx.env, limit, chunks, it.View(), p, pos);
    }
    TokenFromItsStart(ctx.env.text, limit, pos);
    finished, stuck, next := false, false, pos;
    if tok.Bad? {
      return false, false, pos, false;
    }
    GenuineToken(ctx, limit, pos);
    var found := it.ConsultFor(tok, chunks);
    if found.None? {
      next := tok.next;
      ok, finished, stuck := ParseUnfound(ctx, it, limit, tok, chunks, answer, wasStuck);
    } else {
      ok, next := TakeFound(ctx, it, limit, tok, found.value, pos, chunks, answer);
    }
  }

  /** `thsn_main_thread`: exactly the specified run. */
  method MainThread(env: Input, contexts: seq<ThreadContext>, ghost chunks: seq<Chunk>)
    returns (ok: bool, segment: MutSlice, next: nat)
    requires |env.text| <= MAX_TEXT && 0 < |chunks| <= 255 && ChunksOk(env, |env.text|, chunks)
    requires Shows(contexts, chunks) && Scenarios(contexts) == IterInit(chunks).scenarios
    modifies (set c | c in contexts)`startsInString
    ensures Shows(contexts, chunks)
    ensures var m := MainAnswer(env, |env.text|, chunks);
            && (ok <==> m.Some?)
            && (ok ==>
                  && next == m.value.next && Scenarios(contexts) == m.value.scenarios
                  && segment.Valid() && fresh(segment.data)
                  && RootAt(env, segment.Bytes(), 0, m.value.root))
  {
    hide NextToken, ChunksOk, IterOk, Shows, MainRun, MainLoop, Scenarios;
    hide ParserContext.Valid, ParserContext.StuckState, RootAt, StepPreserved;
    var limit := |env.text|;
    var it := new PreparseIterator(contexts);
    var ctx := new ParserContext.Init(env);
    ghost var answer := MainAnswer(env, limit, chunks);
    var pos: nat, finished := 0, false;
    ghost var stuck := false;
    ok := true;
    InitOk(env, limit, chunks);
    MainBegins(ctx, it, limit, chunks, answer);
    while !finished
      invariant pos <= limit && ctx.env == env
      invariant fresh(it) && fresh(ctx) && fresh(ctx.stack) && fresh(ctx.segment)
      invariant fresh(ctx.stack.buffer) && fresh(ctx.segment.buffer)
      invariant it.contexts == contexts && it.Valid(chunks) && ctx.Separate()
      invariant ctx.Weight() <= TOKEN_WEIGHT * pos + (if stuck || finished then TOKEN_WEIGHT else 0)
      invariant RoundEnded(ctx, it, limit, chunks, pos, answer, finished, stuck)
      decreases !finished, limit - pos, !stuck
    {
      var next';
      ok, finished, next', stuck := MainRound(ctx, it, limit, pos, chunks, answer, stuck);
      if !ok {
        return false, MutSlice(ctx.segment.buffer, 0), next';
      }
      pos := next';
    }
    next := pos;
    segment := MutSlice(ctx.segment.buffer, ctx.segment.offset);
    assert segment.Bytes() == ctx.segment.Contents();
  }

  lemma MainBegins(ctx: ParserContext, it: PreparseIterator, limit: nat, chunks: seq<Chunk>, answer: Option<MainResult>)
    requires limit <= |ctx.env.text| && ctx.Valid() && ctx.state == ExpectValue && ctx.frames == [] && ctx.base == 0
    requires chunks != [] && it.Valid(chunks) && it.View() == IterInit(chunks) && IterOk(chunks, IterInit(chunks), 0)
    requires answer == MainAnswer(ctx.env, limit, chunks)
    ensures MainLoop(ctx, it, limit, chunks, 0, answer)
  {
    hide ParserContext.Valid, MainRun, IterOk;
    ValidMeans(ctx);
  }
}
