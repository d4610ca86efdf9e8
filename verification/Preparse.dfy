/** What a worker makes of its chunk: the composites that are complete in it, found by parsing from a guessed place. */
module Preparse {
  import opened Bytes
  import opened Tokenizer
  import opened Trees
  import opened Grammar
  import opened Pushdown
  import opened Encoding
  import opened Parsers
  import opened Sequential

  /** `ThsnPreparsedValue`: the text from `start` of `size` bytes is stored at `offset` of the chunk's segment. */
  datatype Entry = Entry(start: nat, size: nat, offset: nat)

  /** A stretch of text that is one composite value. */
  datatype Region = Region(start: nat, size: nat, value: Tree)

  // ----- Specification -----

  /** The next opening bracket or brace among the tokens from `pos` on; none if there is an error first. */
  function NextOpen(env: Input, limit: nat, pos: nat): (r: Option<Scan>)
    requires pos <= limit <= |env.text|
    ensures r.Some? ==> r.value.Token? && IsOpen(r.value.kind)
    ensures r.Some? ==> pos <= r.value.start && r.value.next == r.value.start + 1 <= limit
    ensures r.Some? ==> NextToken(env.text, limit, r.value.start) == r.value
    decreases limit - pos
  {
    var tok := NextToken(env.text, limit, pos);
    TokenFromItsStart(env.text, limit, pos);
    if tok.Bad? || tok.kind == Eof then None
    else if IsOpen(tok.kind) then Some(tok)
    else NextOpen(env, limit, tok.next)
  }

  /** All composites that can be parsed one after the other from `pos` on, up to the first failure. */
  function Regions(env: Input, limit: nat, pos: nat): (r: seq<Region>)
    requires pos <= limit <= |env.text|
    decreases limit - pos
  {
    var open := NextOpen(env, limit, pos);
    if open.None? then []
    else
      var v := Value(env, limit, open.value.start);
      if v.None? then []
      else
        [Region(open.value.start, v.value.next - open.value.start, v.value.value)]
        + Regions(env, limit, v.value.next)
  }

  /** Parsing the text of the given length from the region's start consumes exactly the region. */
  predicate RegionValid(env: Input, limit: nat, r: Region)
    requires limit <= |env.text|
  {
    && r.start + r.size <= limit
    && Value(env, limit, r.start) == Some(Parsed(r.value, r.start + r.size))
    && var tok := NextToken(env.text, limit, r.start); tok.Token? && IsOpen(tok.kind) && tok.start == r.start
  }

  /** Whatever place a chunk was entered at: each region found in it is the value that parsing the whole text from the
      same place gives. */
  lemma {:induction false} RegionsValid(env: Input, cut: nat, limit: nat, pos: nat, i: nat)
    requires pos <= cut <= limit <= |env.text| && i < |Regions(env, cut, pos)|
    ensures var r := Regions(env, cut, pos)[i];
            pos <= r.start && r.start + r.size <= cut && RegionValid(env, limit, r) && NoRefs(r.value)
    decreases cut - pos
  {
    hide NextToken, Value;
    var open := NextOpen(env, cut, pos);
    var v := Value(env, cut, open.value.start);
    if i == 0 {
      ValueStable(env, cut, limit, open.value.start);
      PrefixStability(env.text, cut, limit, open.value.start);
    } else {
      RegionsValid(env, cut, limit, v.value.next, i - 1);
    }
  }

  /** Regions are in order and do not overlap. */
  lemma {:induction false} RegionsApart(env: Input, limit: nat, pos: nat, i: nat, j: nat)
    requires pos <= limit <= |env.text| && i < j < |Regions(env, limit, pos)|
    ensures var r := Regions(env, limit, pos); r[i].start + r[i].size <= r[j].start
    decreases limit - pos
  {
    hide NextToken, Value;
    var open := NextOpen(env, limit, pos);
    var v := Value(env, limit, open.value.start);
    if i == 0 {
      RegionsValid(env, limit, limit, v.value.next, j - 1);
    } else {
      RegionsApart(env, limit, v.value.next, i - 1, j - 1);
    }
  }

  /** The first opening token from `pos` on starts there, and no error and no end comes before it. */
  predicate OpensAt(env: Input, limit: nat, pos: nat, start: nat)
    requires pos <= limit <= |env.text|
    decreases limit - pos
  {
    var tok := NextToken(env.text, limit, pos);
    && tok.Token? && tok.kind != Eof
    && if tok.kind == OpenBracket || tok.kind == OpenBrace then tok.start == start
       else OpensAt(env, limit, tok.next, start)
  }

  /** Where the last of the regions ends, or at `pos` if there are none. */
  function EndOf(regions: seq<Region>, pos: nat): nat {
    if regions == [] then pos else regions[|regions| - 1].start + regions[|regions| - 1].size
  }

  lemma {:induction false} NextOpens(env: Input, limit: nat, pos: nat, start: nat)
    requires pos <= limit <= |env.text|
    ensures OpensAt(env, limit, pos, start) <==>
              NextOpen(env, limit, pos).Some? && NextOpen(env, limit, pos).value.start == start
    decreases limit - pos
  {
    hide NextToken;
    TokenFromItsStart(env.text, limit, pos);
    var tok := NextToken(env.text, limit, pos);
    if tok.Token? && tok.kind != Eof && !IsOpen(tok.kind) {
      NextOpens(env, limit, tok.next, start);
    }
  }

  /** No region is left out: each starts at the first opening token behind the one before it, and behind the last of
      them there is no opening token at all, or one where no value can be read. */
  lemma {:induction false} RegionsComplete(env: Input, limit: nat, pos: nat, i: nat, start: nat)
    requires pos <= limit <= |env.text| && i <= |Regions(env, limit, pos)|
    ensures var r := Regions(env, limit, pos);
            EndOf(r[..i], pos) <= limit
            && (i < |r| ==> OpensAt(env, limit, EndOf(r[..i], pos), r[i].start))
            && (i == |r| && start <= limit && OpensAt(env, limit, EndOf(r, pos), start) ==>
                  Value(env, limit, start).None?)
    decreases limit - pos
  {
    hide NextToken, Value, OpensAt, NextOpen;
    var r := Regions(env, limit, pos);
    NextOpens(env, limit, pos, start);
    if r == [] {
    } else if i == 0 {
      NextOpens(env, limit, pos, r[0].start);
    } else {
      var next := r[0].start + r[0].size;
      RegionsComplete(env, limit, next, i - 1, start);
      assert r[1..] == Regions(env, limit, next);
      assert r[..i] == [r[0]] + r[1..][..i - 1];
      assert r == [r[0]] + r[1..] && r[..|r|] == r;
    }
  }

  /** The segment holds the value at the offset, within reach of a value handle. */
  ghost predicate Stored(text: seq<Byte>, seg: seq<Byte>, offset: nat, value: Tree) {
    offset < HANDLE_OFFSET_LIMIT && exists end: nat :: Enc(text, seg, offset, end, value)
  }

  ghost predicate LiesBelow(text: seq<Byte>, seg: seq<Byte>, offset: nat, value: Tree, top: nat) {
    offset < HANDLE_OFFSET_LIMIT && exists end: nat :: Enc(text, seg, offset, end, value) && end <= top
  }

  /** A table lists the regions found from `pos` on, each with where its value is stored, one behind the other. */
  ghost predicate Preparsed(env: Input, limit: nat, pos: nat, seg: seq<Byte>, table: seq<Entry>)
    requires pos <= limit <= |env.text|
  {
    var regions := Regions(env, limit, pos);
    && |table| == |regions|
    && forall i :: 0 <= i < |table| ==>
         && table[i].start == regions[i].start && table[i].size == regions[i].size
         && Stored(env.text, seg, table[i].offset, regions[i].value)
         && forall j :: i < j < |table| ==> LiesBelow(env.text, seg, table[i].offset, regions[i].value, table[j].offset)
  }

  // ----- The worker's loop -----

  /** The part of the table filled so far; every value lies below the next one, and the last one below `top`. */
  ghost predicate Filled(env: Input, seg: seq<Byte>, table: seq<Entry>, regions: seq<Region>, top: nat) {
    && |table| <= |regions|
    && forall i :: 0 <= i < |table| ==>
         && table[i].start == regions[i].start && table[i].size == regions[i].size
         && LiesBelow(env.text, seg, table[i].offset, regions[i].value, NextOffset(table, i, top))
         && NextOffset(table, i, top) <= top
  }

  /** Where entry `i` has to be complete: where the next one starts. */
  function NextOffset(table: seq<Entry>, i: nat, top: nat): nat
    requires i < |table|
  {
    if i + 1 < |table| then table[i + 1].offset else top
  }

  lemma FilledKept(env: Input, seg: seq<Byte>, seg': seq<Byte>, table: seq<Entry>, regions: seq<Region>, top: nat)
    requires Filled(env, seg, table, regions, top) && Agree(seg, seg', 0, top)
    ensures Filled(env, seg', table, regions, top)
  {
    hide Enc;
    forall i | 0 <= i < |table|
      ensures LiesBelow(env.text, seg', table[i].offset, regions[i].value, NextOffset(table, i, top))
    {
      var end: nat :| Enc(env.text, seg, table[i].offset, end, regions[i].value) && end <= NextOffset(table, i, top);
      EncLocal(env.text, seg, seg', table[i].offset, end, regions[i].value);
    }
  }

  lemma FilledMore(env: Input, seg: seq<Byte>, table: seq<Entry>, regions: seq<Region>, top: nat, e: Entry, end: nat)
    requires Filled(env, seg, table, regions, top) && |table| < |regions| && top <= end
    requires e.start == regions[|table|].start && e.size == regions[|table|].size
      && top == e.offset < HANDLE_OFFSET_LIMIT
    requires Enc(env.text, seg, e.offset, end, regions[|table|].value)
    ensures Filled(env, seg, table + [e], regions, end)
  {
    hide Enc;
    forall i | 0 <= i < |table|
      ensures LiesBelow(env.text, seg, table[i].offset, regions[i].value, NextOffset(table + [e], i, end))
    {
      assert NextOffset(table + [e], i, end) == NextOffset(table, i, top);
    }
  }

  lemma FilledNone(env: Input, seg: seq<Byte>, regions: seq<Region>, top: nat)
    ensures Filled(env, seg, [], regions, top)
  {
  }

  lemma {:induction false} OffsetsRise(env: Input, seg: seq<Byte>, table: seq<Entry>, regions: seq<Region>, top: nat,
                                       i: nat, j: nat)
    requires Filled(env, seg, table, regions, top) && i <= j < |table|
    ensures table[i].offset <= table[j].offset
    decreases j - i
  {
    hide Enc;
    if i < j {
      OffsetsRise(env, seg, table, regions, top, i, j - 1);
      var end: nat :| Enc(env.text, seg, table[j - 1].offset, end, regions[j - 1].value)
        && end <= NextOffset(table, j - 1, top);
      EncBounds(env.text, seg, table[j - 1].offset, end, regions[j - 1].value);
    }
  }

  lemma FilledAll(env: Input, limit: nat, pos: nat, seg: seq<Byte>, table: seq<Entry>, top: nat)
    requires pos <= limit <= |env.text| && Filled(env, seg, table, Regions(env, limit, pos), top)
    requires |table| == |Regions(env, limit, pos)|
    ensures Preparsed(env, limit, pos, seg, table)
  {
    hide Enc, Regions;
    var regions := Regions(env, limit, pos);
    forall i | 0 <= i < |table| ensures Stored(env.text, seg, table[i].offset, regions[i].value) {
      assert LiesBelow(env.text, seg, table[i].offset, regions[i].value, NextOffset(table, i, top));
    }
    forall i, j | 0 <= i < j < |table|
      ensures LiesBelow(env.text, seg, table[i].offset, regions[i].value, table[j].offset)
    {
      OffsetsRise(env, seg, table, regions, top, i + 1, j);
    }
  }

  lemma OpenTokenSize(text: seq<Byte>, limit: nat, tok: Scan)
    requires tok.Token? && IsOpen(tok.kind) && tok.start <= limit <= |text| && NextToken(text, limit, tok.start) == tok
    ensures tok.size == 1 && tok.next == tok.start + 1
  {
  }

  /** `do { thsn_next_token } while (not an opening token)`. */
  method FindOpen(env: Input, limit: nat, start: nat) returns (open: Option<Scan>)
    requires start <= limit <= |env.text|
    ensures open == NextOpen(env, limit, start)
  {
    hide NextToken;
    var pos := start;
    while true
      invariant start <= pos <= limit
      invariant NextOpen(env, limit, pos) == NextOpen(env, limit, start)
      decreases limit - pos
    {
      var tok := ScanToken(env.text, limit, pos);
      if tok.Bad? || tok.kind == Eof {
        return None;
      }
      if IsOpen(tok.kind) {
        return Some(tok);
      }
      pos := tok.next;
    }
  }

  /** Parsing a composite as a root comes to the grammar's value. */
  lemma CompositeRun(env: Input, limit: nat, tok: Scan)
    requires tok.Token? && IsOpen(tok.kind) && tok.start < tok.next <= limit <= |env.text|
    requires NextToken(env.text, limit, tok.start) == tok
    ensures var p := Parser(if tok.kind == OpenBracket then FirstArrayElement else FirstKv, []);
            var v := Value(env, limit, tok.start);
            && Step(env, START, tok) == Running(p)
            && Run(env, limit, p, tok.next) == if v.None? then None else Some(Parsed(Some(v.value.value), v.value.next))
  {
    hide NextToken, Run, Value;
    RunUnfold(env, limit, START, tok.start);
    ValueRun(env, limit, [], tok.start);
  }

  /** One composite: the opening token, and then tokens until it is complete. */
  method PreparseValue(ctx: ParserContext, limit: nat, tok: Scan) returns (ok: bool, next: nat, ghost value: Tree)
    requires ctx.Valid() && ctx.state == ExpectValue && ctx.frames == [] && ctx.base == ctx.segment.offset
    requires tok.Token? && IsOpen(tok.kind) && tok.start < tok.next <= limit <= |ctx.env.text| <= MAX_TEXT
    requires tok.size == 1 && tok.next == tok.start + 1
    requires NextToken(ctx.env.text, limit, tok.start) == tok
    requires ctx.Weight() <= TOKEN_WEIGHT * tok.start
    modifies ctx, ctx.stack, ctx.segment, ctx.stack.buffer, ctx.segment.buffer
    ensures ctx.Separate() && old(ctx.segment.offset) <= ctx.segment.offset
    ensures ctx.stack.buffer == old(ctx.stack.buffer) || fresh(ctx.stack.buffer)
    ensures ctx.segment.buffer == old(ctx.segment.buffer) || fresh(ctx.segment.buffer)
    ensures Agree(old(ctx.segment.Contents()), ctx.segment.Contents(), 0, old(ctx.segment.offset))
    ensures Value(ctx.env, limit, tok.start) == if ok then Some(Parsed(value, next)) else None
    ensures ok ==> Enc(ctx.env.text, ctx.segment.Contents(), old(ctx.segment.offset), ctx.segment.offset, value)
    ensures ok ==> ctx.Valid() && ctx.state == ExpectValue && ctx.frames == [] && ctx.base == ctx.segment.offset
    ensures ok ==> ctx.Weight() <= TOKEN_WEIGHT * next
  {
    hide NextToken, Run, Value, Enc, Step, ParserContext.Valid, ParserContext.StuckState;
    ValidMeans(ctx);
    CompositeRun(ctx.env, limit, tok);
    ghost var root;
    var finished;
    ok, finished := ctx.ParseNextToken(tok);
    ok, next, root := Feed(ctx, limit, tok.next);
    if !ok {
      value := Null;
      return;
    }
    value := root.value;
    ctx.ResetState();
  }

  lemma RegionsUnfold(env: Input, limit: nat, pos: nat)
    requires pos <= limit <= |env.text|
    ensures Regions(env, limit, pos) ==
      var open := NextOpen(env, limit, pos);
      if open.None? then []
      else
        var v := Value(env, limit, open.value.start);
        if v.None? then []
        else
          [Region(open.value.start, v.value.next - open.value.start, v.value.value)]
          + Regions(env, limit, v.value.next)
  {
    hide NextOpen, Value;
  }

  /** `thsn_preparse_buffer`: the regions of a chunk from `start` on, and a segment with their values. What a failed
      attempt leaves behind them is never referred to. */
  method PreparseBuffer(env: Input, limit: nat, start: nat) returns (segment: MutSlice, table: seq<Entry>)
    requires start <= limit <= |env.text| <= MAX_TEXT
    ensures segment.Valid() && fresh(segment.data)
    ensures Preparsed(env, limit, start, segment.Bytes(), table)
  {
    hide NextOpen, Value, Regions, Enc, Filled, Preparsed, ParserContext.Valid;
    var ctx := new ParserContext.Init(env);
    ghost var regions := Regions(env, limit, start);
    var pos := start;
    ghost var top := 0;
    table := [];
    ValidMeans(ctx);
    FilledNone(env, ctx.segment.Contents(), regions, 0);
    while true
      invariant start <= pos <= limit
      invariant fresh(ctx.stack) && fresh(ctx.segment) && fresh(ctx.stack.buffer) && fresh(ctx.segment.buffer)
      invariant ctx.Valid() && ctx.state == ExpectValue && ctx.frames == [] && ctx.base == ctx.segment.offset
      invariant ctx.Separate() && ctx.env == env && ctx.Weight() <= TOKEN_WEIGHT * pos
      invariant |table| <= |regions| && regions[|table|..] == Regions(env, limit, pos)
      invariant Filled(env, ctx.segment.Contents(), table, regions, ctx.segment.offset)
      decreases limit - pos
    {
      RegionsUnfold(env, limit, pos);
      var open := FindOpen(env, limit, pos);
      top := ctx.segment.offset;
      if open.None? {
        break;
      }
      var tok := open.value;
      OpenTokenSize(env.text, limit, tok);
      var offset := ctx.segment.offset;
      ghost var was := ctx.segment.Contents();
      var ok, next; ghost var value;
      ok, next, value := PreparseValue(ctx, limit, tok);
      FilledKept(env, was, ctx.segment.Contents(), table, regions, offset);
      if !ok {
        break;
      }
      var e := Entry(tok.start, next - tok.start, offset);
      assert regions[|table|..][0] == regions[|table|];
      FilledMore(env, ctx.segment.Contents(), table, regions, offset, e, ctx.segment.offset);
      assert regions[|table|..][1..] == regions[|table| + 1..];
      table := table + [e];
      pos := next;
    }
    assert |table| == |regions|;
    segment := MutSlice(ctx.segment.buffer, ctx.segment.offset);
    assert segment.Bytes() == ctx.segment.Contents();
    FilledAll(env, limit, start, segment.Bytes(), table, top);
  }
}
