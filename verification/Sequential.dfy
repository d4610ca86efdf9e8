/** The loop that drives tokenizer and parser, and the single-threaded parse. */
module Sequential {
  import opened Bytes
  import opened Vectors
  import opened Tokenizer
  import opened Trees
  import opened Grammar
  import opened Pushdown
  import opened Encoding
  import opened Parsers
  import opened Documents
  import opened Layout

  /** Larger than any address space in use; keeps segment offsets within the 56 bits of a value handle. */
  const MAX_TEXT: nat := 0x1_0000_0000_0000

  /** A buffer and how much of it is in use: `ThsnMutSlice`. */
  datatype MutSlice = MutSlice(data: array<Byte>, size: nat)
  {
    ghost predicate Valid() {
      size <= data.Length
    }

    ghost function Bytes(): (s: seq<Byte>)
      requires Valid()
      reads data
    {
      data[..size]
    }
  }

  lemma GenuineToken(ctx: ParserContext, limit: nat, pos: nat)
    requires pos <= limit <= |ctx.env.text|
    ensures var tok := NextToken(ctx.env.text, limit, pos); tok.Token? ==> ctx.Genuine(tok)
  {
    hide NextToken;
    IntTokenText(ctx.env.text, limit, pos);
  }

  /** `while (!finished) { thsn_next_token; thsn_parser_parse_next_token }`. */
  method Feed(ctx: ParserContext, limit: nat, start: nat) returns (ok: bool, next: nat, ghost root: Option<Tree>)
    requires ctx.Valid() && start <= limit <= |ctx.env.text| <= MAX_TEXT
    requires ctx.Weight() <= TOKEN_WEIGHT * start
    modifies ctx, ctx.stack, ctx.segment, ctx.stack.buffer, ctx.segment.buffer
    ensures ctx.Separate() && ctx.base == old(ctx.base)
    ensures ctx.stack.buffer == old(ctx.stack.buffer) || fresh(ctx.stack.buffer)
    ensures ctx.segment.buffer == old(ctx.segment.buffer) || fresh(ctx.segment.buffer)
    ensures old(ctx.base) <= old(ctx.segment.offset) <= ctx.segment.offset
    ensures Agree(old(ctx.segment.Contents()), ctx.segment.Contents(), 0, ctx.base)
    ensures Preserved(old(ctx.segment.Contents()), old(ctx.marks), old(ctx.frames),
                      ctx.segment.Contents(), ctx.marks, ctx.frames)
    ensures Run(ctx.env, limit, old(Parser(ctx.state, ctx.frames)), start)
         == if ok then Some(Parsed(root, next)) else None
    ensures ok ==> ctx.stack.Contents() == [] && RootAt(ctx.env, ctx.segment.Contents(), ctx.base, root)
    ensures ok ==> start <= next <= limit
    ensures ok && root.Some? ==> ctx.Weight() <= TOKEN_WEIGHT * next
  {
    hide NextToken, Step, Enc, Run, RootAt, Agree, Preserved;
    hide ParserContext.Valid, ParserContext.StuckState, Vector.Valid;
    var env := ctx.env;
    ValidMeans(ctx);
    ghost var p0, seg0, marks0, frames0 := Parser(ctx.state, ctx.frames), ctx.segment.Contents(), ctx.marks, ctx.frames;
    PreservedAppended(seg0, marks0, frames0, seg0);
    AgreeWith(seg0, ctx.base);
    ghost var answer := Run(env, limit, p0, start);
    ghost var stuck := false;
    var pos, finished := start, false;
    root := None;
    while !finished
      invariant start <= pos <= limit
      invariant ctx.Separate() && ctx.base == old(ctx.base)
      invariant ctx.stack.buffer == old(ctx.stack.buffer) || fresh(ctx.stack.buffer)
      invariant ctx.segment.buffer == old(ctx.segment.buffer) || fresh(ctx.segment.buffer)
      invariant old(ctx.segment.offset) <= ctx.segment.offset
      invariant Agree(seg0, ctx.segment.Contents(), 0, ctx.base)
      invariant Preserved(seg0, marks0, frames0, ctx.segment.Contents(), ctx.marks, ctx.frames)
      invariant ctx.Weight() <= TOKEN_WEIGHT * pos + (if stuck || (finished && root.None?) then TOKEN_WEIGHT else 0)
      invariant !finished && !stuck ==> ctx.Valid() && Sound(Parser(ctx.state, ctx.frames))
      invariant !finished && !stuck ==> answer == Run(env, limit, Parser(ctx.state, ctx.frames), pos)
      invariant stuck ==> !finished && pos == limit && ctx.StuckState() && answer == None
      invariant finished ==> answer == Some(Parsed(root, pos)) && ctx.stack.Contents() == []
      invariant finished ==> RootAt(env, ctx.segment.Contents(), ctx.base, root)
      decreases !finished, limit - pos, !stuck
    {
      var tok := ScanToken(env.text, limit, pos);
      EofToken(env.text, limit, pos);
      ghost var p := Parser(ctx.state, ctx.frames);
      if !stuck {
        RunUnfold(env, limit, p, pos);
      }
      if tok.Bad? {
        return false, pos, None;
      }
      GenuineToken(ctx, limit, pos);
      ghost var seg, marks, frames := ctx.segment.Contents(), ctx.marks, ctx.frames;
      var ok';
      ok', finished := ctx.ParseNextToken(tok);
      AgreeOn(seg0, seg, ctx.segment.Contents(), 0, ctx.base);
      PreservedOn(seg0, marks0, frames0, seg, marks, frames, ctx.segment.Contents(), ctx.marks, ctx.frames);
      if !ok' {
        return false, pos, None;
      }
      ghost var o := Step(env, p, tok);
      if o.Done? {
        root := o.root;
      }
      stuck := o.Stuck?;
      pos := tok.next;
    }
    ok, next := true, pos;
  }

  lemma ValidMeans(ctx: ParserContext)
    requires ctx.Valid()
    ensures ctx.Separate() && Sound(Parser(ctx.state, ctx.frames)) && ctx.base <= ctx.segment.offset
  {
    LaidAbove(ctx.env.text, ctx.segment.Contents(), ctx.base, ctx.marks, ctx.frames, ctx.segment.offset);
  }

  /** `ThsnDocument`: one segment for every chunk of the input. */
  class Document {
    const segments: seq<MutSlice>

    ghost predicate Valid() {
      forall i :: 0 <= i < |segments| ==> segments[i].Valid()
    }

    ghost function View(): (d: Doc)
      requires Valid()
      reads set s | s in segments :: s.data
      ensures |d| == |segments|
      ensures forall i :: 0 <= i < |d| ==> d[i] == segments[i].Bytes()
    {
      seq(|segments|, i requires 0 <= i < |segments| reads set s | s in segments :: s.data => segments[i].Bytes())
    }

    constructor (segments: seq<MutSlice>)
      ensures this.segments == segments
    {
      this.segments := segments;
    }
  }

  /** What a document must say of the value it was parsed from: its root is that value, and reads as that value. */
  ghost predicate Means(text: seq<Byte>, doc: Doc, root: Option<Tree>) {
    match root
    case Some(v) => DecodesTo(text, doc, v) && Settled(text, doc, ROOT, v)
    case None => doc != [] && doc[0] == []
  }

  /** `thsn_document_parse`: succeeds exactly on the documents of the grammar, and the document it makes is the encoding
      of the grammar's tree and decodes to it. */
  method ParseDocument(env: Input) returns (document: Document?, next: nat)
    requires |env.text| <= MAX_TEXT
    ensures var g := Root(env, |env.text|, 0);
            && (document != null <==> g.Some?)
            && (document != null ==>
                  && fresh(document) && document.Valid() && |document.segments| == 1
                  && next == g.value.next
                  && Means(env.text, document.View(), g.value.value)
                  && RootAt(env, document.View()[0], 0, g.value.value))
  {
    hide NextToken, Run, Enc, Decode, DecodesTo, Settled, Root, ParserContext.Valid;
    var ctx := new ParserContext.Init(env);
    ValidMeans(ctx);
    var ok; ghost var root;
    ok, next, root := Feed(ctx, |env.text|, 0);
    RunIsDocument(env, |env.text|, 0);
    if !ok {
      return null, next;
    }
    ghost var seg := ctx.segment.Contents();
    document := new Document([MutSlice(ctx.segment.buffer, ctx.segment.offset)]);
    assert document.View() == [seg];
    DocumentNoRefs(env, |env.text|, 0);
    match root {
      case Some(t) => PlainRootDecodes(env.text, seg, t);
      case None =>
    }
  }

  /** The grammar's trees hold no handles. */
  lemma DocumentNoRefs(env: Input, limit: nat, pos: nat)
    requires pos <= limit <= |env.text|
    ensures var g := Root(env, limit, pos);
            g.Some? && g.value.value.Some? ==> NoRefs(g.value.value.value)
  {
    hide NextToken;
  }

  lemma PlainRootDecodes(text: seq<Byte>, seg: seq<Byte>, t: Tree)
    requires Enc(text, seg, 0, |seg|, t) && NoRefs(t)
    ensures DecodesTo(text, [seg], t) && Settled(text, [seg], ROOT, t)
  {
    hide Enc;
    NoRefsLinked(text, [seg], t);
    DerefNoRefs(t);
    RootDecodes(text, [seg], |seg|, t);
  }
}
