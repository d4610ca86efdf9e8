/** The parser context: the state, the byte stack and the segment under construction. */
module Parsers {
  import opened Bytes
  import opened Vectors
  import opened Tokenizer
  import opened Trees
  import opened Pushdown
  import opened Encoding
  import opened Layout
  import opened Segments

  /** An upper bound on what one token adds to the segment, plus twice what it adds to the stack. */
  const TOKEN_WEIGHT: nat := 128

  /** The bytes from `off` to the end stand for the root of a document; an empty document has no bytes. */
  predicate RootAt(env: Input, seg: seq<Byte>, off: nat, root: Option<Tree>) {
    match root
    case Some(t) => Enc(env.text, seg, off, |seg|, t)
    case None => off == |seg|
  }

  class ParserContext {
    var state: State
    const stack: Vector
    const segment: Vector
    /** The text that token slices point into. */
    const env: Input
    /** The open composites that the stack stands for, where they are, and where the current value began. */
    ghost var frames: seq<Frame>
    ghost var marks: seq<Mark>
    ghost var base: nat
    /** Where the value that was just completed begins. */
    ghost var valueAt: nat

    ghost predicate Separate()
      reads this, stack, segment, stack.buffer, segment.buffer
    {
      && stack != segment && stack.buffer != segment.buffer
      && stack.Valid() && segment.Valid()
      && |marks| == |frames| && |env.text| < WORD_LIMIT
    }

    ghost function Weight(): nat
      reads stack, segment
    {
      segment.offset + 2 * stack.offset
    }

    ghost predicate HasRoom()
      reads stack, segment
    {
      Weight() + TOKEN_WEIGHT <= PTRDIFF_MAX
    }

    /** Between tokens: the stack is exactly the bytes of the frames, and every completed value is in place. */
    ghost predicate Valid()
      reads this, stack, segment, stack.buffer, segment.buffer
    {
      && Separate()
      && Sound(Parser(state, frames))
      && stack.Contents() == StackBytes(state, marks, frames)
      && Laid(env.text, segment.Contents(), base, marks, frames, segment.offset)
    }

    /** A value is complete, and the stack has not been asked yet where to go on. */
    ghost predicate ValueReady(t: Tree)
      reads this, stack, segment, stack.buffer, segment.buffer
    {
      && Separate()
      && state == Finish
      && AllAwaiting(frames)
      && stack.Contents() == Stacked(marks, frames)
      && Laid(env.text, segment.Contents(), base, marks, frames, valueAt)
      && Enc(env.text, segment.Contents(), valueAt, segment.offset, t)
    }

    /** The end of input has been taken for a value. */
    ghost predicate EofReady()
      reads this, stack, segment, stack.buffer, segment.buffer
    {
      && Separate()
      && state == Finish
      && AllAwaiting(frames)
      && stack.Contents() == Stacked(marks, frames)
      && (frames == [] ==> segment.offset == base)
    }

    /** Inside a composite that took the end of input for an element: only an error can follow. */
    ghost predicate StuckState()
      reads this, stack, segment, stack.buffer, segment.buffer
    {
      Separate() && (state == NextArrayElement || state == KvEnd)
    }

    /** The context is as the effect of a token says, before the stack decides. */
    ghost predicate Shows(e: Effect)
      reads this, stack, segment, stack.buffer, segment.buffer
    {
      match e
      case Continue(p) => Valid() && Parser(state, frames) == p
      case Completed(fs, t) => frames == fs && ValueReady(t)
      case EofTaken(fs) => frames == fs && EofReady()
      case Failed => Separate()
    }

    /** Buffers are the old ones or new ones. Of the bytes that were there, only header words reserved for open
        composites may have changed, and no byte before `base` has. */
    twostate predicate Kept()
      requires old(Separate()) && Separate()
      reads this, stack, segment, stack.buffer, segment.buffer
    {
      && (stack.buffer == old(stack.buffer) || fresh(stack.buffer))
      && (segment.buffer == old(segment.buffer) || fresh(segment.buffer))
      && base == old(base)
      && old(segment.offset) <= segment.offset
      && (base <= old(segment.offset) ==> Agree(old(segment.Contents()), segment.Contents(), 0, base))
      && StepPreserved(old(segment.Contents()), old(marks), old(frames), segment.Contents(), marks, frames)
      && Weight() <= old(Weight()) + TOKEN_WEIGHT
    }

    constructor Init(env: Input)
      requires |env.text| < WORD_LIMIT
      ensures Valid() && fresh(stack) && fresh(segment) && fresh(stack.buffer) && fresh(segment.buffer)
      ensures state == ExpectValue && frames == [] && base == 0 && Weight() == 0 && this.env == env
    {
      this.env := env;
      state := ExpectValue;
      var s := new Vector.Allocate(1024 * 1024);
      var g := new Vector.Allocate(1024 * 1024);
      stack, segment := s, g;
      frames, marks, base, valueAt := [], [], 0, 0;
    }

    /** `thsn_parser_reset_state`, between two values of a preparsed chunk. */
    method ResetState()
      requires Separate() && stack.Contents() == []
      modifies this
      ensures Valid() && state == ExpectValue && frames == [] && base == segment.offset
    {
      state := ExpectValue;
      frames, marks, base := [], [], segment.offset;
    }

    // ----- Composite bookkeeping -----

    /** THSN_VECTOR_PUSH_3_VARS of a header offset, the first element's offset and the count 1. */
    method PushMark(header: Word, firstElement: Word) returns (ghost m: Mark)
      requires Separate() && Room(stack, 24)
      modifies stack, stack.buffer
      ensures Separate()
      ensures stack.buffer == old(stack.buffer) || fresh(stack.buffer)
      ensures m == Mark(header, [firstElement])
      ensures stack.Contents() == old(stack.Contents()) + FrameBytes(m)
    {
      hide WordBytes, FrameBytes, Vector.Valid;
      var ok := stack.Push(WordBytes(header));
      ok := stack.Push(WordBytes(firstElement));
      ok := stack.Push(WordBytes(1));
      m := Mark(header, [firstElement]);
      NewFrameBytes(header, firstElement);
      Regroup(old(stack.Contents()), WordBytes(header), WordBytes(firstElement), WordBytes(1));
    }

    /** Reserve a header, and note on the stack where it is, where the first element starts, and that there is one. */
    method StoreCompositeHeader(tag: Byte, withSortedTable: bool) returns (ghost m: Mark)
      requires Separate() && Weight() + 80 <= PTRDIFF_MAX
      modifies stack, segment, stack.buffer, segment.buffer
      ensures Separate()
      ensures stack.buffer == old(stack.buffer) || fresh(stack.buffer)
      ensures segment.buffer == old(segment.buffer) || fresh(segment.buffer)
      ensures m == Mark(old(segment.offset), [segment.offset])
      ensures segment.offset == old(segment.offset) + FullHeader(withSortedTable)
      ensures old(segment.Contents()) + [tag] <= segment.Contents()
      ensures stack.Contents() == old(stack.Contents()) + FrameBytes(m)
    {
      var header := Segments.StoreCompositeHeader(segment, tag, withSortedTable);
      m := PushMark(header, segment.offset);
    }

    /** Another element starts at the end of the segment. */
    method AddCompositeElement(ghost below: seq<Byte>, ghost m: Mark) returns (ok: bool, ghost m': Mark)
      requires Separate() && Weight() + 16 <= PTRDIFF_MAX
      requires stack.Contents() == below + FrameBytes(m)
      modifies stack, stack.buffer
      ensures Separate()
      ensures stack.buffer == old(stack.buffer) || fresh(stack.buffer)
      ensures ok && |m.offsets| + 1 < WORD_LIMIT && m' == NextMark(m, segment.offset)
      ensures stack.Contents() == below + FrameBytes(m')
    {
      hide Words, WordBytes;
      var data;
      ok, data := stack.Pop(8);
      ghost var kept := below + (WordBytes(m.header) + Words(m.offsets));
      SplitTail(stack.Contents(), data, kept, WordBytes(|m.offsets|));
      var count := FromLE(data);
      var resultOffset := segment.offset;
      count := count + 1;
      ok := stack.Push(WordBytes(resultOffset));
      ok := stack.Push(WordBytes(count));
      m' := NextMark(m, resultOffset);
      hide FrameBytes;
      NextFrameBytes(m, resultOffset);
      Regroup(below, WordBytes(m.header) + Words(m.offsets), WordBytes(resultOffset), WordBytes(count));
    }

    /** Move the element table from the stack to the segment and fill in the header. */
    method StoreCompositeElementsTable(reserveSorted: bool, ghost below: seq<Byte>, ghost m: Mark) returns (ok: bool)
      requires Separate() && Weight() <= PTRDIFF_MAX
      requires stack.Contents() == below + FrameBytes(m)
      requires m.header + FullHeader(reserveSorted) <= segment.offset
      modifies stack, segment, segment.buffer
      ensures Separate() && ok
      ensures stack.buffer == old(stack.buffer)
      ensures segment.buffer == old(segment.buffer) || fresh(segment.buffer)
      ensures stack.Contents() == below
      ensures old(segment.offset) + 8 * |m.offsets| < WORD_LIMIT
      ensures segment.Contents() == Closed(old(segment.Contents()), m.header, m.offsets, reserveSorted)
    {
      hide Words, WordBytes, Closed;
      var data;
      ok, data := stack.Pop(8);
      SplitTail(stack.Contents(), data, below + WordBytes(m.header) + Words(m.offsets), WordBytes(|m.offsets|));
      var tableSize := FromLE(data) * 8;
      var at;
      ok, at := stack.Shrink(tableSize);
      var table := stack.buffer[at..at + tableSize];
      SplitTail(stack.Contents(), table, below + WordBytes(m.header), Words(m.offsets));
      ok, data := stack.Pop(8);
      SplitTail(stack.Contents(), data, below, WordBytes(m.header));
      var header := FromLE(data);
      Segments.StoreCompositeElementsTable(segment, header, table, reserveSorted, m.offsets);
    }

    // ----- The states -----

    /** The next value goes to the end of the segment, and the stack holds only frames that wait for one. */
    ghost predicate ExpectingValue()
      reads this, stack, segment, stack.buffer, segment.buffer
    {
      && Separate()
      && AllAwaiting(frames)
      && stack.Contents() == Stacked(marks, frames)
      && Laid(env.text, segment.Contents(), base, marks, frames, segment.offset)
    }

    /** A token of the text; integer tokens look like integers. */
    ghost predicate Genuine(tok: Scan) {
      tok.Token? && tok.start + tok.size <= |env.text| && (tok.kind == Kind.Int ==> IsIntText(Slice(env, tok)))
    }

    /** Store the value of a token that is one by itself. */
    method StoreAtom(tok: Scan) returns (ok: bool)
      requires Separate() && Room(segment, 17) && Genuine(tok)
      requires tok.kind != Eof && !IsOpen(tok.kind)
      modifies segment, segment.buffer
      ensures Separate()
      ensures segment.buffer == old(segment.buffer) || fresh(segment.buffer)
      ensures ok <==> Atom(env, tok).Some?
      ensures segment.Contents() == old(segment.Contents()) + (if ok then AtomBytes(env, tok) else [])
    {
      hide WordBytes, StringBytes, SignedLE, IntegerValue, Wrap64, IntWidth, Vector.Valid, TagMake;
      ok := true;
      match tok.kind
      case NullWord => Segments.StoreTaggedValue(segment, TagMake(TAG_NULL, 0), []);
      case TrueWord => Segments.StoreTaggedValue(segment, TagMake(TAG_BOOL, 1), []);
      case FalseWord => Segments.StoreTaggedValue(segment, TagMake(TAG_BOOL, 0), []);
      case Int =>
        var n := AtollChecked(Slice(env, tok));
        Segments.StoreInt(segment, n);
      case Float =>
        var d := DoubleValue(env, Slice(env, tok));
        if d.None? {
          return false;
        }
        Segments.StoreTaggedValue(segment, TagMake(TAG_DOUBLE, 0), WordBytes(d.value));
      case String => Segments.StoreString(segment, env.text, tok.start, tok.size);
      case _ => return false;
    }

    method ParseValue(tok: Scan) returns (ok: bool)
      requires ExpectingValue() && Room(segment, 17) && Genuine(tok)
      modifies this`state, this`valueAt, segment, segment.buffer
      ensures Separate() && Shows(ValueToken(env, old(frames), tok))
      ensures ok <==> !ValueToken(env, old(frames), tok).Failed?
      ensures segment.buffer == old(segment.buffer) || fresh(segment.buffer)
      ensures base == old(base) && old(segment.Contents()) <= segment.Contents()
      ensures segment.offset <= old(segment.offset) + 17
    {
      hide Laid, Stacked, Enc, Atom, AtomBytes;
      ghost var was := segment.Contents();
      state := Finish;
      if tok.kind == Eof {
        LaidNone(env.text, was, base, marks, frames, segment.offset);
        return true;
      } else if tok.kind == OpenBracket {
        state := FirstArrayElement;
        return true;
      } else if tok.kind == OpenBrace {
        state := FirstKv;
        return true;
      }
      valueAt := segment.offset;
      ok := StoreAtom(tok);
      if ok {
        AtomStored(env, was, tok);
        LaidLocal(env.text, was, segment.Contents(), base, marks, frames, valueAt);
      }
    }

    /** The state to go on with after the element is pushed, and the next value is expected. */
    method PushReturnState(s: State)
      requires Separate() && Room(stack, STATE_SIZE)
      modifies stack, stack.buffer
      ensures Separate()
      ensures stack.buffer == old(stack.buffer) || fresh(stack.buffer)
      ensures stack.Contents() == old(stack.Contents()) + StateBytes(s)
    {
      var ok := stack.Push(StateBytes(s));
    }

    /** An empty composite is a tag by itself. */
    method StoreEmptyComposite(isObject: bool)
      requires ExpectingValue() && Room(segment, 1)
      modifies this`state, this`valueAt, segment, segment.buffer
      ensures ValueReady(if isObject then Obj([]) else Arr([]))
      ensures segment.buffer == old(segment.buffer) || fresh(segment.buffer)
      ensures base == old(base) && old(segment.Contents()) <= segment.Contents()
      ensures segment.offset == old(segment.offset) + 1
    {
      hide Laid, Stacked;
      ghost var was := segment.Contents();
      state := Finish;
      valueAt := segment.offset;
      Segments.StoreTaggedValue(segment, TagMake(if isObject then TAG_OBJECT else TAG_ARRAY, SIZE_ZERO), []);
      LaidLocal(env.text, was, segment.Contents(), base, marks, frames, valueAt);
    }

    method ParseFirstArrayElement(tok: Scan) returns (ok: bool)
      requires Valid() && state == FirstArrayElement && HasRoom() && Genuine(tok)
      modifies this, stack, segment, stack.buffer, segment.buffer
      ensures Separate() && Shows(HandleToken(env, old(Parser(state, frames)), tok))
      ensures ok <==> !HandleToken(env, old(Parser(state, frames)), tok).Failed?
      ensures Kept()
    {
      hide Laid, Stacked, ValueToken, StepPreserved;
      ghost var was, ms, fs := segment.Contents(), marks, frames;
      if tok.kind == ClosedBracket {
        StoreEmptyComposite(false);
        PreservedAppended(was, ms, fs, segment.Contents());
        return true;
      }
      OpenArray();
      ok := ParseValue(tok);
      PreservedOpened(was, ms, fs, segment.Contents(), marks[|marks| - 1], ArrFrame([], true));
    }

    /** The header of an array that turned out to have elements, and the frame to match. */
    method OpenArray()
      requires ExpectingValue() && Weight() + 80 <= PTRDIFF_MAX
      modifies this, stack, segment, stack.buffer, segment.buffer
      ensures ExpectingValue() && frames == old(frames) + [ArrFrame([], true)]
      ensures marks == old(marks) + [marks[|marks| - 1]] && marks[|marks| - 1].header == old(segment.offset)
      ensures stack.buffer == old(stack.buffer) || fresh(stack.buffer)
      ensures segment.buffer == old(segment.buffer) || fresh(segment.buffer)
      ensures base == old(base) && old(segment.Contents()) <= segment.Contents()
      ensures Weight() == old(Weight()) + 73
    {
      hide Laid, Stacked, FrameLaid, FrameBytes, StateBytes;
      ghost var was := segment.Contents();
      ghost var m := StoreCompositeHeader(TagMake(TAG_ARRAY, SIZE_INBOUND), false);
      PushReturnState(NextArrayElement);
      OpenedArray(env.text, segment.Contents(), m.header, segment.offset);
      PushFrame(was, m, ArrFrame([], true));
    }

    /** The new frame is laid out where its header was reserved. */
    ghost method PushFrame(was: seq<Byte>, m: Mark, f: Frame)
      requires Separate() && AllAwaiting(frames) && |marks| == |frames| && Awaiting(f)
      requires Laid(env.text, was, base, marks, frames, m.header) && Agree(was, segment.Contents(), base, m.header)
      requires FrameLaid(env.text, segment.Contents(), m, f, segment.offset)
      requires stack.Contents() == Stacked(marks, frames) + FrameBytes(m) + StateBytes(ReturnState(f))
      modifies this`frames, this`marks
      ensures ExpectingValue() && frames == old(frames) + [f] && marks == old(marks) + [m]
    {
      hide FrameLaid, FrameBytes, StateBytes, Laid, Stacked;
      PushedFrame(env.text, was, segment.Contents(), base, marks, frames, m, f, segment.offset);
      frames, marks := frames + [f], marks + [m];
    }

    /** All but the innermost open composite, as they lie on the stack. */
    ghost function BelowBytes(): seq<Byte>
      requires frames != [] && |marks| == |frames|
      reads this
    {
      Stacked(marks[..|marks| - 1], Below(frames))
    }

    /** The innermost open composite becomes a value: its table moves from the stack to the segment. */
    method CloseComposite(isObject: bool)
      requires Valid() && HasRoom() && state == (if isObject then KvEnd else NextArrayElement)
      modifies this, stack, segment, segment.buffer
      ensures frames == Below(old(frames))
      ensures ValueReady(if isObject then Obj(Top(old(frames)).kvs) else Arr(Top(old(frames)).elems))
      ensures Kept()
    {
      hide FrameLaid, Enc, FrameBytes, Closed, Laid, Stacked, StepPreserved, Vector.Valid;
      ghost var was, m, top := segment.Contents(), marks[|marks| - 1], Top(frames);
      ghost var ms, fs := marks, frames;
      ghost var below, outer := Below(frames), marks[..|marks| - 1];
      LaidTop(env.text, was, base, marks, frames, segment.offset);
      FrameHeader(env.text, was, m, top, segment.offset);
      var ok := StoreCompositeElementsTable(isObject, BelowBytes(), m);
      state := Finish;
      frames, marks, valueAt := below, outer, m.header;
      if isObject {
        CloseObject(env.text, was, m, top.kvs);
      } else {
        CloseArray(env.text, was, m, top.elems);
      }
      LaidLocal(env.text, was, segment.Contents(), base, marks, frames, valueAt);
      PreservedClosed(was, ms, fs);
    }

    method ParseNextArrayElement(tok: Scan) returns (ok: bool)
      requires Separate() && HasRoom() && Genuine(tok)
      requires (tok.kind == Eof || Valid()) && state == NextArrayElement
      modifies this, stack, segment, stack.buffer, segment.buffer
      ensures Separate() && Kept()
      ensures tok.kind == Eof ==> !ok
      ensures old(Valid()) ==> Shows(HandleToken(env, old(Parser(state, frames)), tok))
      ensures old(Valid()) ==> (ok <==> !HandleToken(env, old(Parser(state, frames)), tok).Failed?)
    {
      hide Laid, StackBytes, StepPreserved;
      if tok.kind == ClosedBracket {
        CloseComposite(false);
        return true;
      }
      if tok.kind != Comma {
        PreservedAppended(segment.Contents(), marks, frames, segment.Contents());
        return false;
      }
      BeginArrayElement();
      return true;
    }

    /** After a comma in an array: note the new element's offset, and expect a value. */
    method BeginArrayElement()
      requires Valid() && state == NextArrayElement && HasRoom()
      modifies this, stack, stack.buffer
      ensures Valid() && Kept()
      ensures state == ExpectValue && frames == Below(old(frames)) + [ArrFrame(Top(old(frames)).elems, true)]
    {
      hide FrameLaid, FrameBytes, StateBytes, Stacked, Laid, StepPreserved, Vector.Valid;
      ghost var was, ms, fs := segment.Contents(), marks, frames;
      ghost var m, elems := marks[|marks| - 1], Top(frames).elems;
      ghost var below, outer := Below(frames), marks[..|marks| - 1];
      LaidTop(env.text, segment.Contents(), base, marks, frames, segment.offset);
      var ok; ghost var m';
      ok, m' := AddCompositeElement(BelowBytes(), m);
      PushReturnState(NextArrayElement);
      state := ExpectValue;
      ElementBegun(env.text, segment.Contents(), base, outer, below, m, elems, m');
      Install(below + [ArrFrame(elems, true)], outer + [m']);
      PreservedBegun(was, ms, fs, segment.Contents(), m', ArrFrame(elems, true));
    }

    /** The key of a member: stored like any string. */
    method ParseFirstKv(tok: Scan) returns (ok: bool)
      requires Valid() && state == FirstKv && HasRoom() && Genuine(tok)
      modifies this, stack, segment, stack.buffer, segment.buffer
      ensures Separate() && Shows(HandleToken(env, old(Parser(state, frames)), tok))
      ensures ok <==> !HandleToken(env, old(Parser(state, frames)), tok).Failed?
      ensures Kept()
    {
      hide Laid, Stacked, StepPreserved;
      ghost var was := segment.Contents();
      if tok.kind == ClosedBrace {
        StoreEmptyComposite(true);
        PreservedAppended(was, marks, frames, segment.Contents());
        return true;
      }
      if tok.kind != String {
        PreservedAppended(was, marks, frames, was);
        return false;
      }
      OpenObject(tok);
      return true;
    }

    /** The header of an object, and behind it the first key. */
    method StoreHeaderAndKey(tok: Scan) returns (ghost m: Mark, ghost header: seq<Byte>)
      requires Separate() && HasRoom() && Genuine(tok)
      modifies stack, segment, stack.buffer, segment.buffer
      ensures Separate()
      ensures stack.buffer == old(stack.buffer) || fresh(stack.buffer)
      ensures segment.buffer == old(segment.buffer) || fresh(segment.buffer)
      ensures m == Mark(old(segment.offset), [old(segment.offset) + OBJECT_HEADER])
      ensures stack.Contents() == old(stack.Contents()) + FrameBytes(m)
      ensures |header| == m.offsets[0] && old(segment.Contents()) + [TagMake(TAG_OBJECT, SIZE_INBOUND)] <= header
      ensures segment.Contents() == header + StringBytes(env.text, tok.start, tok.size)
      ensures Kept()
    {
      hide FrameBytes, StringBytes, StepPreserved;
      ghost var was := segment.Contents();
      m := StoreCompositeHeader(TagMake(TAG_OBJECT, SIZE_INBOUND), true);
      header := segment.Contents();
      Segments.StoreString(segment, env.text, tok.start, tok.size);
      PreservedAppended(was, marks, frames, segment.Contents());
    }

    /** The bytes stand for these frames from now on. */
    ghost method Install(fs: seq<Frame>, ms: seq<Mark>)
      requires Separate() && Sound(Parser(state, fs)) && |ms| == |fs|
      requires stack.Contents() == StackBytes(state, ms, fs)
      requires Laid(env.text, segment.Contents(), base, ms, fs, segment.offset)
      modifies this`frames, this`marks
      ensures Valid() && frames == fs && marks == ms
    {
      hide Laid, StackBytes;
      frames, marks := fs, ms;
    }

    method OpenObject(tok: Scan)
      requires Valid() && state == FirstKv && HasRoom() && Genuine(tok)
      modifies this, stack, segment, stack.buffer, segment.buffer
      ensures Valid() && Kept()
      ensures state == KvColon && frames == old(frames) + [ObjFrame([], Some(Slice(env, tok)))]
    {
      hide Laid, Stacked, StackBytes, FrameLaid, FrameBytes, StringBytes, StepPreserved;
      ghost var was, ms, fs := segment.Contents(), marks, frames;
      StackOfExpected(state, marks, frames);
      ghost var m, header := StoreHeaderAndKey(tok);
      state := KvColon;
      ObjectOpened(env, was, header, base, marks, frames, m, tok);
      Install(frames + [ObjFrame([], Some(Slice(env, tok)))], marks + [m]);
      PreservedOpened(was, ms, fs, segment.Contents(), m, ObjFrame([], Some(Slice(env, tok))));
    }

    method ParseKvColon(tok: Scan) returns (ok: bool)
      requires Valid() && state == KvColon && HasRoom() && Genuine(tok)
      modifies this, stack, segment, stack.buffer, segment.buffer
      ensures Separate() && Shows(HandleToken(env, old(Parser(state, frames)), tok))
      ensures ok <==> !HandleToken(env, old(Parser(state, frames)), tok).Failed?
      ensures Kept()
    {
      hide Laid, FrameBytes, StateBytes, StepPreserved;
      PreservedAppended(segment.Contents(), marks, frames, segment.Contents());
      if tok.kind != Colon {
        return false;
      }
      PushReturnState(KvEnd);
      state := ExpectValue;
      return true;
    }

    method ParseKvEnd(tok: Scan) returns (ok: bool)
      requires Separate() && HasRoom() && Genuine(tok)
      requires (tok.kind == Eof || Valid()) && state == KvEnd
      modifies this, stack, segment, stack.buffer, segment.buffer
      ensures Separate() && Kept()
      ensures tok.kind == Eof ==> !ok
      ensures old(Valid()) ==> Shows(HandleToken(env, old(Parser(state, frames)), tok))
      ensures old(Valid()) ==> (ok <==> !HandleToken(env, old(Parser(state, frames)), tok).Failed?)
    {
      hide Laid, Stacked, StepPreserved;
      if tok.kind == ClosedBrace {
        CloseComposite(true);
        return true;
      }
      PreservedAppended(segment.Contents(), marks, frames, segment.Contents());
      if tok.kind != Comma {
        return false;
      }
      state := NextKv;
      return true;
    }

    method ParseNextKv(tok: Scan) returns (ok: bool)
      requires Valid() && state == NextKv && HasRoom() && Genuine(tok)
      modifies this, stack, segment, stack.buffer, segment.buffer
      ensures Separate() && Shows(HandleToken(env, old(Parser(state, frames)), tok))
      ensures ok <==> !HandleToken(env, old(Parser(state, frames)), tok).Failed?
      ensures Kept()
    {
      hide Laid, StackBytes, StepPreserved;
      if tok.kind != String {
        PreservedAppended(segment.Contents(), marks, frames, segment.Contents());
        return false;
      }
      AddKey(tok);
      return true;
    }

    /** A further key: note the member's offset, and store the key. */
    method StoreNextKey(tok: Scan, ghost below: seq<Byte>, ghost m: Mark) returns (ghost m': Mark)
      requires Separate() && HasRoom() && Genuine(tok) && stack.Contents() == below + FrameBytes(m)
      modifies stack, segment, stack.buffer, segment.buffer
      ensures Separate()
      ensures stack.buffer == old(stack.buffer) || fresh(stack.buffer)
      ensures segment.buffer == old(segment.buffer) || fresh(segment.buffer)
      ensures |m.offsets| + 1 < WORD_LIMIT && m' == NextMark(m, old(segment.offset))
      ensures stack.Contents() == below + FrameBytes(m')
      ensures segment.Contents() == old(segment.Contents()) + StringBytes(env.text, tok.start, tok.size)
      ensures Kept()
    {
      hide FrameBytes, StringBytes, StepPreserved;
      ghost var was := segment.Contents();
      var ok;
      ok, m' := AddCompositeElement(below, m);
      Segments.StoreString(segment, env.text, tok.start, tok.size);
      PreservedAppended(was, marks, frames, segment.Contents());
    }

    method AddKey(tok: Scan)
      requires Valid() && state == NextKv && HasRoom() && Genuine(tok)
      modifies this, stack, segment, stack.buffer, segment.buffer
      ensures Valid() && Kept()
      ensures state == KvColon
      ensures old(frames) != [] && Top(old(frames)).ObjFrame?
      ensures frames == Below(old(frames)) + [ObjFrame(Top(old(frames)).kvs, Some(Slice(env, tok)))]
    {
      hide FrameLaid, FrameBytes, StringBytes, Laid, Stacked, StepPreserved, Vector.Valid;
      ghost var ms, fs := marks, frames;
      ghost var was, at, m, kvs := segment.Contents(), segment.offset, marks[|marks| - 1], Top(frames).kvs;
      ghost var below, outer := Below(frames), marks[..|marks| - 1];
      LaidTop(env.text, was, base, marks, frames, at);
      ghost var m' := StoreNextKey(tok, BelowBytes(), m);
      state := KvColon;
      KeyAdded(env, was, base, outer, below, m, kvs, m', tok);
      Install(below + [ObjFrame(kvs, Some(Slice(env, tok)))], outer + [m']);
      PreservedBegun(was, ms, fs, segment.Contents(), m', ObjFrame(kvs, Some(Slice(env, tok))));
    }

    /** Feed one token. Once a value is complete, either the document is, or the stack says where to go on. */
    method ParseNextToken(tok: Scan) returns (ok: bool, finished: bool)
      requires Valid() || (StuckState() && tok.Token? && tok.kind == Eof)
      requires HasRoom() && Genuine(tok)
      modifies this, stack, segment, stack.buffer, segment.buffer
      ensures Separate() && Kept()
      ensures old(StuckState()) && tok.kind == Eof ==> !ok
      ensures old(Valid()) ==> Reached(Step(env, old(Parser(state, frames)), tok), ok, finished)
    {
      hide Laid, Stacked, StackBytes, HandleToken, Enc, StepPreserved;
      finished := false;
      ghost var was, ms, fs := segment.Contents(), marks, frames;
      ghost var p := Parser(state, frames);
      ok := Dispatch(tok);
      if ok && state == Finish {
        ghost var fs' := frames;
        finished := Complete(HandleToken(env, p, tok));
        PreservedPlugged(was, ms, fs, segment.Contents(), marks, fs', frames);
      }
    }

    /** A value is complete, or the input is at its end: so is the document, or a composite goes on. */
    method Complete(ghost e: Effect) returns (finished: bool)
      requires state == Finish && Separate() && Shows(e) && !e.Failed?
      requires e.Completed? ==> AllAwaiting(e.frames)
      requires e.Continue? ==> Sound(e.p)
      modifies this`state, this`frames, this`marks, stack`offset
      ensures Separate() && stack.offset <= old(stack.offset)
      ensures marks == old(marks) && SameKinds(old(frames), frames)
      ensures Reached(Settle(e), true, finished)
    {
      hide Laid, Stacked, StackBytes, Enc;
      if e.Completed? {
        LaidNone(env.text, segment.Contents(), base, marks, frames, valueAt);
        EncBounds(env.text, segment.Contents(), valueAt, segment.offset, e.value);
      }
      finished := Return(if e.Completed? then Some(e.value) else None);
    }

    /** What the context, the result and the completion flag say of an outcome. */
    ghost predicate Reached(o: Outcome, ok: bool, finished: bool)
      reads this, stack, segment, stack.buffer, segment.buffer
    {
      match o
      case Running(p) => ok && !finished && Valid() && Parser(state, frames) == p
      case Done(root) =>
        && ok && finished
        && Separate() && stack.Contents() == [] && frames == []
        && base <= segment.offset
        && RootAt(env, segment.Contents(), base, root)
      case Stuck => ok && !finished && StuckState()
      case Error => !ok && Separate()
    }

    method ParseValueState(tok: Scan) returns (ok: bool)
      requires Valid() && state == ExpectValue && HasRoom() && Genuine(tok)
      modifies this, segment, segment.buffer
      ensures Separate() && Shows(HandleToken(env, old(Parser(state, frames)), tok))
      ensures ok <==> !HandleToken(env, old(Parser(state, frames)), tok).Failed?
      ensures Kept()
    {
      hide Laid, Stacked, ValueToken, StepPreserved;
      ghost var was := segment.Contents();
      ok := ParseValue(tok);
      PreservedAppended(was, marks, frames, segment.Contents());
    }

    /** The switch over the states. */
    method Dispatch(tok: Scan) returns (ok: bool)
      requires Valid() || (StuckState() && tok.Token? && tok.kind == Eof)
      requires HasRoom() && Genuine(tok)
      modifies this, stack, segment, stack.buffer, segment.buffer
      ensures Separate() && Kept()
      ensures old(StuckState()) && tok.kind == Eof ==> !ok
      ensures old(Valid()) ==> Shows(HandleToken(env, old(Parser(state, frames)), tok))
      ensures old(Valid()) ==> (ok <==> !HandleToken(env, old(Parser(state, frames)), tok).Failed?)
    {
      hide Laid, Stacked, StackBytes, HandleToken, Shows, StepPreserved;
      PreservedAppended(segment.Contents(), marks, frames, segment.Contents());
      match state
      case ExpectValue => ok := ParseValueState(tok);
      case FirstArrayElement => ok := ParseFirstArrayElement(tok);
      case NextArrayElement => ok := ParseNextArrayElement(tok);
      case FirstKv => ok := ParseFirstKv(tok);
      case KvColon => ok := ParseKvColon(tok);
      case KvEnd => ok := ParseKvEnd(tok);
      case NextKv => ok := ParseNextKv(tok);
      case Finish => ok := false;
    }

    /** A value lies complete at `valueAt`, for the innermost composite or for the document. */
    ghost predicate ValueInPlace(t: Tree)
      requires Separate()
      reads this, stack, segment, stack.buffer, segment.buffer
    {
      && Laid(env.text, segment.Contents(), base, marks, frames, valueAt)
      && Enc(env.text, segment.Contents(), valueAt, segment.offset, t)
    }

    /** Pop the state to return to. The composite that waited takes the value, if there is one. */
    method PopState(ghost value: Option<Tree>) returns (ok: bool)
      requires Separate() && AllAwaiting(frames) && |marks| == |frames|
      requires stack.Contents() == Stacked(marks, frames)
      requires value.Some? ==> ValueInPlace(value.value)
      modifies this`state, this`frames, this`marks, stack`offset
      ensures Separate() && stack.offset <= old(stack.offset)
      ensures marks == old(marks) && SameKinds(old(frames), frames)
      ensures ok <==> old(frames) != []
      ensures !ok ==> frames == old(frames)
      ensures ok ==> StuckState()
      ensures ok && value.Some? ==>
        Valid() && Running(Parser(state, frames)) == Settle(Completed(old(frames), value.value))
    {
      hide Laid, Enc, FrameBytes, StateBytes, StateFrom, SameKinds;
      PluggedKinds(frames, if value.Some? then value.value else Null);
      var data;
      ok, data := stack.Pop(STATE_SIZE);
      if !ok {
        return;
      }
      ghost var s := ReturnState(Top(frames));
      ghost var rest := Stacked(marks[..|marks| - 1], Below(frames)) + FrameBytes(marks[|marks| - 1]);
      SplitTail(stack.Contents(), data, rest, StateBytes(s));
      StateRoundTrip(s);
      state := StateFrom(data);
      if value.Some? {
        ValuePlugged(env.text, segment.Contents(), base, marks, frames, valueAt, value.value);
        ghost var fs' := Below(frames) + [Plug(Top(frames), value.value)];
        SplitTail(stack.Contents(), data, StackBytes(s, marks, fs'), StateBytes(s));
        Install(fs', marks);
      }
    }

    /** An empty stack means the document is complete; otherwise the state to return to is on top. */
    method Return(ghost value: Option<Tree>) returns (finished: bool)
      requires Separate() && AllAwaiting(frames) && |marks| == |frames|
      requires stack.Contents() == Stacked(marks, frames)
      requires value.Some? ==> ValueInPlace(value.value)
      modifies this`state, this`frames, this`marks, stack`offset
      ensures Separate() && stack.offset <= old(stack.offset)
      ensures marks == old(marks) && SameKinds(old(frames), frames)
      ensures finished <==> old(frames) == []
      ensures finished ==> frames == [] && stack.Contents() == []
      ensures !finished ==> StuckState()
      ensures !finished && value.Some? ==>
        Valid() && Running(Parser(state, frames)) == Settle(Completed(old(frames), value.value))
    {
      hide ValueInPlace, FrameBytes, StateBytes;
      finished := stack.IsEmpty();
      if !finished {
        var ok := PopState(value);
      }
    }

    /** `thsn_parser_add_value_handle`: a worker's value in place of one parsed here. It is refused unless the state
        is exactly VALUE, and also when the value would be the whole document, since there is nothing to pop then. */
    method AddValueHandle(segmentNo: nat, offset: nat, ghost target: Tree) returns (ok: bool)
      requires Valid() && HasRoom() && segmentNo < 256 && offset < HANDLE_OFFSET_LIMIT
      modifies this, stack, segment, segment.buffer
      ensures Separate() && Kept()
      ensures ok <==> old(state) == ExpectValue && old(frames) != []
      ensures ok ==> Valid() && AllAwaiting(old(frames))
      ensures ok ==> Running(Parser(state, frames)) == Settle(Completed(old(frames), Ref(segmentNo, offset, target)))
    {
      hide Laid, Enc, Stacked, FrameBytes, StepPreserved;
      ghost var was, fs := segment.Contents(), frames;
      if state != ExpectValue {
        PreservedAppended(was, marks, frames, was);
        return false;
      }
      valueAt := segment.offset;
      Segments.StoreValueHandle(segment, segmentNo, offset);
      HandleStored(env.text, was, segmentNo, offset, target);
      LaidLocal(env.text, was, segment.Contents(), base, marks, frames, valueAt);
      PreservedAppended(was, marks, frames, segment.Contents());
      ok := PopState(Some(Ref(segmentNo, offset, target)));
      PreservedPlugged(was, marks, fs, segment.Contents(), marks, fs, frames);
    }
  }
}
