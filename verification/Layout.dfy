/** How the pushdown machine's frames lie in the byte stack and in the unfinished segment. */
module Layout {
  import opened Bytes
  import opened Tokenizer
  import opened Trees
  import opened Encoding
  import opened Pushdown

  type Offsets = s: seq<Word> | |s| < 0x1_0000_0000_0000_0000 witness []

  /** What the stack keeps of an open composite: where its header is and where its elements start. */
  datatype Mark = Mark(header: Word, offsets: Offsets)

  /** The mark once another element has begun. */
  function NextMark(m: Mark, at: Word): (r: Mark)
    requires |m.offsets| + 1 < WORD_LIMIT
    ensures r.header == m.header && r.offsets == m.offsets + [at]
  {
    Mark(m.header, m.offsets + [at])
  }

  // ----- The stack -----

  const STATE_SIZE: nat := 4

  function StateCode(s: State): (c: nat)
    ensures c < 8
  {
    match s
    case ExpectValue => 0
    case Finish => 1
    case FirstArrayElement => 2
    case NextArrayElement => 3
    case FirstKv => 4
    case KvColon => 5
    case KvEnd => 6
    case NextKv => 7
  }

  function StateOf(code: nat): State {
    if code == 0 then ExpectValue
    else if code == 1 then Finish
    else if code == 2 then FirstArrayElement
    else if code == 3 then NextArrayElement
    else if code == 4 then FirstKv
    else if code == 5 then KvColon
    else if code == 6 then KvEnd
    else NextKv
  }

  /** `ThsnParserState` as the four bytes of an enum. */
  function StateBytes(s: State): (b: seq<Byte>)
    ensures |b| == STATE_SIZE
  {
    [StateCode(s), 0, 0, 0]
  }

  function StateFrom(b: seq<Byte>): State
    requires |b| == STATE_SIZE
  {
    StateOf(FromLE(b))
  }

  lemma StateRoundTrip(s: State)
    ensures StateFrom(StateBytes(s)) == s
  {
    var b := StateBytes(s);
    assert b[1..] == [0, 0, 0] && b[1..][1..] == [0, 0] && b[1..][1..][1..] == [0] && b[1..][1..][1..][1..] == [];
    assert FromLE([0]) == 0;
    assert FromLE([0, 0]) == 0;
    assert FromLE([0, 0, 0]) == 0;
  }

  function FrameBytes(m: Mark): (b: seq<Byte>)
    ensures |b| == 16 + 8 * |m.offsets|
  {
    WordBytes(m.header) + Words(m.offsets) + WordBytes(|m.offsets|)
  }

  /** Open composites, outermost first, each with the state to return to above it. */
  function Stacked(marks: seq<Mark>, frames: seq<Frame>): seq<Byte>
    requires |marks| == |frames|
  {
    if frames == [] then []
    else Stacked(marks[..|marks| - 1],
      Below(frames)) + FrameBytes(marks[|marks| - 1]) + StateBytes(ReturnState(Top(frames)))
  }

  /** In these states a value is expected, and the state to return to is on the stack. */
  predicate ExpectsValue(s: State) {
    s == ExpectValue || s == FirstArrayElement || s == FirstKv
  }

  function StackBytes(s: State, marks: seq<Mark>, frames: seq<Frame>): seq<Byte>
    requires |marks| == |frames|
  {
    if ExpectsValue(s) || frames == [] then Stacked(marks, frames)
    else Stacked(marks[..|marks| - 1], Below(frames)) + FrameBytes(marks[|marks| - 1])
  }

  lemma SplitTail<T>(a: seq<T>, b: seq<T>, c: seq<T>, d: seq<T>)
    requires a + b == c + d && |b| == |d|
    ensures a == c && b == d
  {
    assert |a| == |c|;
    assert a == (a + b)[..|a|] == (c + d)[..|c|] == c;
    assert b == (a + b)[|a|..] == (c + d)[|c|..] == d;
  }

  // ----- The segment -----

  function HeaderSize(f: Frame): nat {
    if f.ArrFrame? then ARRAY_HEADER else OBJECT_HEADER
  }

  function HeaderTag(f: Frame): Byte {
    if f.ArrFrame? then TagMake(TAG_ARRAY, SIZE_INBOUND) else TagMake(TAG_OBJECT, SIZE_INBOUND)
  }

  function Held(f: Frame): nat {
    if f.ArrFrame? then |f.elems| else |f.kvs|
  }

  /** An open composite: its tag is there, the rest of the header is not yet written, its elements are complete and
      back to back up to `stop`, and a pending element has its offset noted already. */
  predicate FrameLaid(text: seq<Byte>, seg: seq<Byte>, m: Mark, f: Frame, stop: nat) {
    && stop <= |seg|
    && |m.offsets| == Held(f) + (if Awaiting(f) then 1 else 0)
    && m.offsets != [] && m.offsets[0] == m.header + HeaderSize(f)
    && m.header < stop && seg[m.header] == HeaderTag(f)
    && Rising(m.offsets, stop)
    && match f
       case ArrFrame(elems, pending) =>
         && ElementsAt(text, seg, m.offsets, stop, elems)
         && (pending ==> m.offsets[|elems|] == stop)
       case ObjFrame(kvs, key) =>
         && MembersAt(text, seg, m.offsets, stop, kvs)
         && (key.Some? ==> StringAt(text, seg, m.offsets[|kvs|], stop, key.value))
  }

  /** All open composites; the next value goes to `top`. The outermost one begins at `base`. */
  predicate Laid(text: seq<Byte>, seg: seq<Byte>, base: nat, marks: seq<Mark>, frames: seq<Frame>, top: nat)
    decreases |frames|
  {
    && |marks| == |frames|
    && if frames == [] then top == base
       else
         && FrameLaid(text, seg, marks[|marks| - 1], Top(frames), top)
         && Laid(text, seg, base, marks[..|marks| - 1], Below(frames), marks[|marks| - 1].header)
  }

  // ----- Completed bytes stay what they are -----

  lemma FrameLocal(text: seq<Byte>, seg: seq<Byte>, seg': seq<Byte>, m: Mark, f: Frame, stop: nat)
    requires FrameLaid(text, seg, m, f, stop) && Agree(seg, seg', m.header, stop)
    ensures FrameLaid(text, seg', m, f, stop)
  {
    hide Enc, StringAt;
    match f
    case ArrFrame(elems, _) => ElementsLocal(text, seg, seg', m.offsets, stop, elems);
    case ObjFrame(kvs, key) =>
      MembersLocal(text, seg, seg', m.offsets, stop, kvs);
      if key.Some? {
        RisingFrom(m.offsets, stop, |kvs|);
        StringAtLocal(text, seg, seg', m.offsets[|kvs|], stop, key.value);
      }
  }

  lemma {:induction false} LaidLocal(text: seq<Byte>, seg: seq<Byte>, seg': seq<Byte>, base: nat, marks: seq<Mark>,
                                     frames: seq<Frame>, top: nat)
    requires Laid(text, seg, base, marks, frames, top) && Agree(seg, seg', base, top)
    ensures Laid(text, seg', base, marks, frames, top)
    decreases |frames|
  {
    hide FrameLaid;
    if frames != [] {
      var m := marks[|marks| - 1];
      LaidAbove(text, seg, base, marks[..|marks| - 1], Below(frames), m.header);
      FrameHeader(text, seg, m, Top(frames), top);
      FrameLocal(text, seg, seg', m, Top(frames), top);
      LaidLocal(text, seg, seg', base, marks[..|marks| - 1], Below(frames), m.header);
    }
  }

  lemma FrameHeader(text: seq<Byte>, seg: seq<Byte>, m: Mark, f: Frame, stop: nat)
    requires FrameLaid(text, seg, m, f, stop)
    ensures m.header + HeaderSize(f) <= stop <= |seg|
  {
    hide ElementsAt, MembersAt, StringAt;
    RisingFrom(m.offsets, stop, |m.offsets| - 1);
    RisingTo(m.offsets, stop, |m.offsets| - 1);
  }

  lemma {:induction false} LaidAbove(text: seq<Byte>, seg: seq<Byte>, base: nat, marks: seq<Mark>, frames: seq<Frame>,
                                     top: nat)
    requires Laid(text, seg, base, marks, frames, top)
    ensures base <= top
    decreases |frames|
  {
    hide FrameLaid;
    if frames != [] {
      FrameHeader(text, seg, marks[|marks| - 1], Top(frames), top);
      LaidAbove(text, seg, base, marks[..|marks| - 1], Below(frames), marks[|marks| - 1].header);
    }
  }

  lemma LaidNone(text: seq<Byte>, seg: seq<Byte>, base: nat, marks: seq<Mark>, frames: seq<Frame>, top: nat)
    requires Laid(text, seg, base, marks, frames, top)
    ensures frames == [] ==> top == base
  {
  }

  /** One more frame on top. */
  lemma PushedFrame(text: seq<Byte>, was: seq<Byte>, seg: seq<Byte>, base: nat, marks: seq<Mark>, frames: seq<Frame>,
                    m: Mark, f: Frame, top: nat)
    requires Laid(text, was, base, marks, frames, m.header) && Agree(was, seg, base, m.header)
    requires FrameLaid(text, seg, m, f, top)
    ensures Laid(text, seg, base, marks + [m], frames + [f], top)
    ensures Below(frames + [f]) == frames && (marks + [m])[..|marks|] == marks
    ensures Stacked(marks + [m], frames + [f]) == Stacked(marks, frames) + FrameBytes(m) + StateBytes(ReturnState(f))
    ensures forall s :: !ExpectsValue(s) ==>
      StackBytes(s, marks + [m], frames + [f]) == Stacked(marks, frames) + FrameBytes(m)
  {
    hide FrameLaid, FrameBytes, StateBytes;
    assert Below(frames + [f]) == frames && (marks + [m])[..|marks|] == marks;
    LaidLocal(text, was, seg, base, marks, frames, m.header);
  }

  // ----- What the parser's operations make of the layout -----

  /** Later offsets and a later end do not move the elements that are there. */
  predicate SameSpans(offs: seq<Word>, stop: nat, offs': seq<Word>, stop': nat, n: nat) {
    && n <= |offs| && n <= |offs'|
    && forall i :: 0 <= i < n ==> offs'[i] == offs[i] && Next(offs', stop', i) == Next(offs, stop, i)
  }

  lemma ElementsSame(text: seq<Byte>, seg: seq<Byte>, offs: seq<Word>, stop: nat, offs': seq<Word>, stop': nat,
                     elems: seq<Tree>)
    requires ElementsAt(text, seg, offs, stop, elems) && SameSpans(offs, stop, offs', stop', |elems|)
    ensures ElementsAt(text, seg, offs', stop', elems)
  {
    hide Enc, Next;
  }

  lemma MembersSame(text: seq<Byte>, seg: seq<Byte>, offs: seq<Word>, stop: nat, offs': seq<Word>, stop': nat,
                    kvs: seq<Member>)
    requires MembersAt(text, seg, offs, stop, kvs) && SameSpans(offs, stop, offs', stop', |kvs|)
    ensures MembersAt(text, seg, offs', stop', kvs)
  {
    hide Enc, StringAt, Next;
  }

  lemma OneMoreElement(text: seq<Byte>, seg: seq<Byte>, offs: seq<Word>, stop: nat, elems: seq<Tree>, t: Tree)
    requires ElementsAt(text, seg, offs, stop, elems) && |offs| == |elems| + 1
    requires Enc(text, seg, offs[|elems|], stop, t)
    ensures ElementsAt(text, seg, offs, stop, elems + [t])
  {
    hide Enc;
  }

  lemma OneMoreMember(text: seq<Byte>, seg: seq<Byte>, offs: seq<Word>, stop: nat, kvs: seq<Member>, m: Member)
    requires MembersAt(text, seg, offs, stop, kvs) && |offs| == |kvs| + 1
    requires StringAt(text, seg, offs[|kvs|], offs[|kvs|] + StringSize(|m.key|), m.key)
    requires Enc(text, seg, offs[|kvs|] + StringSize(|m.key|), stop, m.value)
    ensures MembersAt(text, seg, offs, stop, kvs + [m])
  {
    hide Enc, StringAt;
  }

  lemma RisingFurther(offs: seq<Word>, stop: nat, stop': nat)
    requires Rising(offs, stop) && stop <= stop'
    ensures Rising(offs, stop')
  {
    forall i | 0 <= i < |offs| ensures offs[i] <= Next(offs, stop', i) {
      assert offs[i] <= Next(offs, stop, i);
    }
  }

  lemma RisingOnceMore(offs: seq<Word>, at: Word, stop: nat)
    requires Rising(offs, at) && at <= stop
    ensures Rising(offs + [at], stop)
  {
    forall i | 0 <= i < |offs| + 1 ensures (offs + [at])[i] <= Next(offs + [at], stop, i) {
      assert i < |offs| ==> offs[i] <= Next(offs, at, i);
    }
  }

  lemma PlugArray(text: seq<Byte>, seg: seq<Byte>, m: Mark, elems: seq<Tree>, at: nat, end: nat, t: Tree)
    requires FrameLaid(text, seg, m, ArrFrame(elems, true), at) && Enc(text, seg, at, end, t)
    ensures FrameLaid(text, seg, m, ArrFrame(elems + [t], false), end)
  {
    hide Enc, ElementsAt, Rising;
    EncBounds(text, seg, at, end, t);
    RisingFurther(m.offsets, at, end);
    ElementsSame(text, seg, m.offsets, at, m.offsets, end, elems);
    OneMoreElement(text, seg, m.offsets, end, elems, t);
  }

  lemma PlugObject(text: seq<Byte>, seg: seq<Byte>, m: Mark, kvs: seq<Member>, key: seq<Byte>, at: nat, end: nat,
                   t: Tree)
    requires FrameLaid(text, seg, m, ObjFrame(kvs, Some(key)), at) && Enc(text, seg, at, end, t)
    ensures FrameLaid(text, seg, m, ObjFrame(kvs + [Member(key, t)], None), end)
  {
    hide Enc, StringAt, MembersAt, Rising;
    EncBounds(text, seg, at, end, t);
    RisingFurther(m.offsets, at, end);
    StringEnd(text, seg, m.offsets[|kvs|], at, key);
    MembersSame(text, seg, m.offsets, at, m.offsets, end, kvs);
    OneMoreMember(text, seg, m.offsets, end, kvs, Member(key, t));
  }

  /** A finished value joins the composite that waited for it. */
  lemma PlugLaid(text: seq<Byte>, seg: seq<Byte>, m: Mark, f: Frame, at: nat, end: nat, t: Tree)
    requires FrameLaid(text, seg, m, f, at) && Awaiting(f) && Enc(text, seg, at, end, t)
    ensures FrameLaid(text, seg, m, Plug(f, t), end)
  {
    hide Enc, FrameLaid;
    match f
    case ArrFrame(elems, _) => PlugArray(text, seg, m, elems, at, end, t);
    case ObjFrame(kvs, key) => PlugObject(text, seg, m, kvs, key.value, at, end, t);
  }

  lemma StringEnd(text: seq<Byte>, seg: seq<Byte>, off: nat, end: nat, s: seq<Byte>)
    requires StringAt(text, seg, off, end, s)
    ensures off + StringSize(|s|) == end
  {
  }

  /** A comma: the next element of an array begins. */
  lemma BeginElement(text: seq<Byte>, seg: seq<Byte>, m: Mark, elems: seq<Tree>, stop: Word)
    requires |m.offsets| + 1 < WORD_LIMIT && FrameLaid(text, seg, m, ArrFrame(elems, false), stop)
    ensures FrameLaid(text, seg, NextMark(m, stop), ArrFrame(elems, true), stop)
  {
    RisingOnceMore(m.offsets, stop, stop);
    ElementsSame(text, seg, m.offsets, stop, m.offsets + [stop], stop, elems);
    hide Enc, ElementsAt, Rising;
  }

  /** A further key: the next member of an object begins. */
  lemma BeginMember(text: seq<Byte>, seg: seq<Byte>, m: Mark, kvs: seq<Member>, at: Word, stop: nat, key: seq<Byte>)
    requires |m.offsets| + 1 < WORD_LIMIT && FrameLaid(text, seg, m, ObjFrame(kvs, None), at)
    requires StringAt(text, seg, at, stop, key)
    ensures FrameLaid(text, seg, NextMark(m, at), ObjFrame(kvs, Some(key)), stop)
  {
    assert at < stop <= |seg|;
    RisingOnceMore(m.offsets, at, stop);
    MembersSame(text, seg, m.offsets, at, m.offsets + [at], stop, kvs);
    hide Enc, StringAt, MembersAt, Rising;
  }

  /** A reserved header, and nothing behind it. */
  lemma OpenedArray(text: seq<Byte>, seg: seq<Byte>, header: Word, stop: Word)
    requires stop == header + ARRAY_HEADER <= |seg| && seg[header] == TagMake(TAG_ARRAY, SIZE_INBOUND)
    ensures FrameLaid(text, seg, Mark(header, [stop]), ArrFrame([], true), stop)
  {
  }

  lemma OpenedObject(text: seq<Byte>, seg: seq<Byte>, header: Word, first: Word, stop: nat, key: seq<Byte>)
    requires first == header + OBJECT_HEADER <= |seg| && seg[header] == TagMake(TAG_OBJECT, SIZE_INBOUND)
    requires StringAt(text, seg, first, stop, key)
    ensures FrameLaid(text, seg, Mark(header, [first]), ObjFrame([], Some(key)), stop)
  {
  }

  function FullHeader(sorted: bool): nat {
    if sorted then OBJECT_HEADER else ARRAY_HEADER
  }

  /** The segment after a composite closed: header filled in, offset table (for objects: twice) appended. */
  function Closed(seg: seq<Byte>, header: nat, offsets: seq<Word>, sorted: bool): (r: seq<Byte>)
    requires header + FullHeader(sorted) <= |seg| && |seg| + 8 * |offsets| < WORD_LIMIT
    ensures |r| == |seg| + (if sorted then 16 else 8) * |offsets|
  {
    var table := Words(offsets);
    Patched(seg, header, HeaderWords(|seg|, |offsets|, sorted)) + (if sorted then table + table else table)
  }

  function HeaderWords(top: nat, n: nat, sorted: bool): (b: seq<Byte>)
    requires top + 8 * n < WORD_LIMIT
    ensures |b| == FullHeader(sorted) - 1
  {
    WordBytes(n) + WordBytes(top) + (if sorted then WordBytes(top + 8 * n) else [])
  }

  /** The segment with the words behind the tag at `header` overwritten. */
  function Patched(seg: seq<Byte>, header: nat, words: seq<Byte>): (r: seq<Byte>)
    requires header + 1 + |words| <= |seg|
    ensures |r| == |seg|
  {
    seg[..header + 1] + words + seg[header + 1 + |words|..]
  }

  lemma PatchedParts(seg: seq<Byte>, header: nat, words: seq<Byte>, tables: seq<Byte>)
    requires header + 1 + |words| <= |seg|
    ensures var r := Patched(seg, header, words) + tables;
            && Agree(seg, r, 0, header + 1)
            && Agree(seg, r, header + 1 + |words|, |seg|)
            && r[header + 1..header + 1 + |words|] == words
            && r[|seg|..|seg| + |tables|] == tables
  {
  }

  lemma WordOfPart(s: seq<Byte>, at: nat, part: seq<Byte>, c: nat, w: Word)
    requires at + |part| <= |s| && s[at..at + |part|] == part
    requires c + 8 <= |part| && part[c..c + 8] == WordBytes(w)
    ensures WordAt(s, at + c) == w
  {
    hide WordBytes;
    WordInSlice(s, at, part, c, w);
  }

  lemma HeaderWordsParts(top: nat, n: nat, sorted: bool)
    requires top + 8 * n < WORD_LIMIT
    ensures var words := HeaderWords(top, n, sorted);
            && words[0..8] == WordBytes(n) && words[8..16] == WordBytes(top)
            && (sorted ==> words[16..24] == WordBytes(top + 8 * n))
  {
    hide WordBytes;
  }

  lemma ClosedHeader(seg: seq<Byte>, header: nat, offsets: seq<Word>, sorted: bool)
    requires header + FullHeader(sorted) <= |seg| && |seg| + 8 * |offsets| < WORD_LIMIT
    ensures var r := Closed(seg, header, offsets, sorted);
            && Agree(seg, r, 0, header + 1) && Agree(seg, r, header + FullHeader(sorted), |seg|)
            && WordAt(r, header + 1) == |offsets| && WordAt(r, header + 9) == |seg|
            && (sorted ==> WordAt(r, header + 17) == |seg| + 8 * |offsets|)
  {
    hide Patched, WordAt, WordBytes, Words, HeaderWords;
    var r, n := Closed(seg, header, offsets, sorted), |offsets|;
    var words := HeaderWords(|seg|, n, sorted);
    PatchedParts(seg, header, words, if sorted then Words(offsets) + Words(offsets) else Words(offsets));
    HeaderWordsParts(|seg|, n, sorted);
    WordOfPart(r, header + 1, words, 0, n);
    WordOfPart(r, header + 1, words, 8, |seg|);
    if sorted {
      WordOfPart(r, header + 1, words, 16, |seg| + 8 * n);
    }
  }

  lemma ClosedTables(seg: seq<Byte>, header: nat, offsets: seq<Word>, sorted: bool)
    requires header + FullHeader(sorted) <= |seg| && |seg| + 8 * |offsets| < WORD_LIMIT
    ensures var r := Closed(seg, header, offsets, sorted);
            && TableAt(r, |seg|, |offsets|) == offsets
            && (sorted ==> TableAt(r, |seg| + 8 * |offsets|, |offsets|) == offsets)
  {
    hide Patched, TableAt, WordBytes, Words, HeaderWords;
    var r, n, table := Closed(seg, header, offsets, sorted), |offsets|, Words(offsets);
    assert r[|seg|..|seg| + 8 * n] == table;
    TableAtWritten(r, |seg|, offsets);
    if sorted {
      assert r[|seg| + 8 * n..|seg| + 8 * n + 8 * n] == table;
      TableAtWritten(r, |seg| + 8 * n, offsets);
    }
  }

  /** Closing makes a complete value of the open composite, and touches nothing below its header. */
  lemma CloseArray(text: seq<Byte>, seg: seq<Byte>, m: Mark, elems: seq<Tree>)
    requires FrameLaid(text, seg, m, ArrFrame(elems, false), |seg|) && |seg| + 8 * |m.offsets| < WORD_LIMIT
    ensures m.header + ARRAY_HEADER <= |seg|
    ensures var r := Closed(seg, m.header, m.offsets, false);
            Agree(seg, r, 0, m.header + 1) && Enc(text, r, m.header, |r|, Arr(elems))
  {
    hide Closed, WordAt, TableAt, ElementsAt, Rising;
    FrameHeader(text, seg, m, ArrFrame(elems, false), |seg|);
    var r := Closed(seg, m.header, m.offsets, false);
    ClosedHeader(seg, m.header, m.offsets, false);
    ClosedTables(seg, m.header, m.offsets, false);
    ElementsLocal(text, seg, r, m.offsets, |seg|, elems);
  }

  lemma CloseObject(text: seq<Byte>, seg: seq<Byte>, m: Mark, kvs: seq<Member>)
    requires FrameLaid(text, seg, m, ObjFrame(kvs, None), |seg|) && |seg| + 8 * |m.offsets| < WORD_LIMIT
    ensures m.header + OBJECT_HEADER <= |seg|
    ensures var r := Closed(seg, m.header, m.offsets, true);
            Agree(seg, r, 0, m.header + 1) && Enc(text, r, m.header, |r|, Obj(kvs))
  {
    hide Closed, WordAt, TableAt, MembersAt, Rising, Ordered;
    FrameHeader(text, seg, m, ObjFrame(kvs, None), |seg|);
    var r := Closed(seg, m.header, m.offsets, true);
    ClosedHeader(seg, m.header, m.offsets, true);
    ClosedTables(seg, m.header, m.offsets, true);
    MembersLocal(text, seg, r, m.offsets, |seg|, kvs);
  }

  // ----- What is kept of earlier bytes and of open composites -----

  /** Byte `i` belongs to the words reserved behind the tag of an open composite. */
  predicate Reserved(marks: seq<Mark>, frames: seq<Frame>, i: nat)
    requires |marks| == |frames|
  {
    exists k :: 0 <= k < |marks| && marks[k].header < i < marks[k].header + HeaderSize(frames[k])
  }

  /** Still the same open composite: its elements are where they were, and there may be more of them. */
  predicate Survives(m: Mark, f: Frame, m': Mark, f': Frame) {
    m'.header == m.header && m.offsets <= m'.offsets && f'.ArrFrame? == f.ArrFrame?
  }

  /** No byte has changed but reserved header words, and every open composite that began before the new bytes was open
      already, at the same depth. */
  predicate Preserved(was: seq<Byte>, marks: seq<Mark>, frames: seq<Frame>,
                      seg: seq<Byte>, marks': seq<Mark>, frames': seq<Frame>)
    requires |marks| == |frames| && |marks'| == |frames'|
  {
    && |was| <= |seg|
    && (forall i :: 0 <= i < |was| && !Reserved(marks, frames, i) ==> seg[i] == was[i])
    && (forall j :: 0 <= j < |marks'| && marks'[j].header < |was| ==>
          j < |marks| && Survives(marks[j], frames[j], marks'[j], frames'[j]))
  }

  /** In one step, moreover, every composite that is still open is the one that was. */
  predicate StepPreserved(was: seq<Byte>, marks: seq<Mark>, frames: seq<Frame>,
                          seg: seq<Byte>, marks': seq<Mark>, frames': seq<Frame>)
    requires |marks| == |frames| && |marks'| == |frames'|
  {
    && Preserved(was, marks, frames, seg, marks', frames')
    && forall j :: 0 <= j < |marks| && j < |marks'| ==> Survives(marks[j], frames[j], marks'[j], frames'[j])
  }

  lemma PreservedAppended(was: seq<Byte>, marks: seq<Mark>, frames: seq<Frame>, seg: seq<Byte>)
    requires |marks| == |frames| && was <= seg
    ensures StepPreserved(was, marks, frames, seg, marks, frames)
  {
  }

  lemma PreservedOpened(was: seq<Byte>, marks: seq<Mark>, frames: seq<Frame>, seg: seq<Byte>, m: Mark, f: Frame)
    requires |marks| == |frames| && was <= seg && |was| <= m.header
    ensures StepPreserved(was, marks, frames, seg, marks + [m], frames + [f])
  {
  }

  lemma PreservedBegun(was: seq<Byte>, marks: seq<Mark>, frames: seq<Frame>, seg: seq<Byte>, m: Mark, f: Frame)
    requires |marks| == |frames| && frames != [] && was <= seg && Survives(marks[|marks| - 1], Top(frames), m, f)
    ensures StepPreserved(was, marks, frames, seg, marks[..|marks| - 1] + [m], Below(frames) + [f])
  {
  }

  lemma PreservedClosed(was: seq<Byte>, marks: seq<Mark>, frames: seq<Frame>)
    requires |marks| == |frames| && frames != []
    requires var m := marks[|marks| - 1];
             m.header + HeaderSize(Top(frames)) <= |was| && |was| + 8 * |m.offsets| < WORD_LIMIT
    ensures var m := marks[|marks| - 1];
            StepPreserved(was, marks, frames, Closed(was, m.header, m.offsets, Top(frames).ObjFrame?),
                      marks[..|marks| - 1], Below(frames))
  {
    hide Closed, WordAt;
    var m, sorted := marks[|marks| - 1], Top(frames).ObjFrame?;
    var r := Closed(was, m.header, m.offsets, sorted);
    ClosedHeader(was, m.header, m.offsets, sorted);
    forall i | 0 <= i < |was| && !Reserved(marks, frames, i) ensures r[i] == was[i] {
      assert !(marks[|marks| - 1].header < i < marks[|marks| - 1].header + HeaderSize(frames[|marks| - 1]));
    }
  }

  /** The composites are of the same kinds, whatever they hold by now. */
  predicate SameKinds(frames: seq<Frame>, frames': seq<Frame>) {
    |frames'| == |frames| && forall k :: 0 <= k < |frames| ==> frames'[k].ArrFrame? == frames[k].ArrFrame?
  }

  lemma PluggedKinds(frames: seq<Frame>, t: Tree)
    requires AllAwaiting(frames)
    ensures SameKinds(frames, frames)
    ensures frames != [] ==> SameKinds(frames, Below(frames) + [Plug(Top(frames), t)])
  {
  }

  lemma PreservedPlugged(was: seq<Byte>, marks: seq<Mark>, frames: seq<Frame>,
                         seg: seq<Byte>, marks': seq<Mark>, frames': seq<Frame>, frames'': seq<Frame>)
    requires |marks| == |frames| && |marks'| == |frames'| && StepPreserved(was, marks, frames, seg, marks', frames')
    requires SameKinds(frames', frames'')
    ensures StepPreserved(was, marks, frames, seg, marks', frames'')
  {
  }

  /** Over any number of steps: what one step keeps and the next keeps, both keep. */
  lemma PreservedOn(s0: seq<Byte>, m0: seq<Mark>, f0: seq<Frame>, s1: seq<Byte>, m1: seq<Mark>, f1: seq<Frame>,
                    s2: seq<Byte>, m2: seq<Mark>, f2: seq<Frame>)
    requires |m0| == |f0| && |m1| == |f1| && |m2| == |f2|
    requires Preserved(s0, m0, f0, s1, m1, f1) && Preserved(s1, m1, f1, s2, m2, f2)
    ensures Preserved(s0, m0, f0, s2, m2, f2)
  {
    forall i | 0 <= i < |s0| && Reserved(m1, f1, i) ensures Reserved(m0, f0, i) {
      var k :| 0 <= k < |m1| && m1[k].header < i < m1[k].header + HeaderSize(f1[k]);
      assert Survives(m0[k], f0[k], m1[k], f1[k]);
    }
    forall j | 0 <= j < |m2| && m2[j].header < |s0| ensures j < |m0| && Survives(m0[j], f0[j], m2[j], f2[j]) {
      assert Survives(m1[j], f1[j], m2[j], f2[j]);
    }
  }

  /** Where the elements of open composite `j` end for now: where the next open composite begins, or at the top. */
  function StopOf(marks: seq<Mark>, top: nat, j: nat): nat
    requires j < |marks|
  {
    if j + 1 < |marks| then marks[j + 1].header else top
  }

  lemma {:induction false} LaidFrameAt(text: seq<Byte>, seg: seq<Byte>, base: nat, marks: seq<Mark>, frames: seq<Frame>,
                                       top: nat, j: nat)
    requires Laid(text, seg, base, marks, frames, top) && j < |frames|
    ensures |marks| == |frames| && FrameLaid(text, seg, marks[j], frames[j], StopOf(marks, top, j))
    decreases |frames|
  {
    hide FrameLaid;
    var n := |frames|;
    if j < n - 1 {
      LaidFrameAt(text, seg, base, marks[..n - 1], Below(frames), marks[n - 1].header, j);
    }
  }

  lemma {:induction false} HeadersApart(text: seq<Byte>, seg: seq<Byte>, base: nat, marks: seq<Mark>,
                                        frames: seq<Frame>, top: nat, j: nat, k: nat)
    requires Laid(text, seg, base, marks, frames, top) && j < k < |frames|
    ensures |marks| == |frames| && marks[j].header + HeaderSize(frames[j]) <= marks[k].header
    decreases k
  {
    hide FrameLaid;
    LaidFrameAt(text, seg, base, marks, frames, top, k - 1);
    FrameHeader(text, seg, marks[k - 1], frames[k - 1], StopOf(marks, top, k - 1));
    if j < k - 1 {
      HeadersApart(text, seg, base, marks, frames, top, j, k - 1);
    }
  }

  /** The bytes of completed values are never rewritten: whatever is stored later, every element of every open composite
      stays byte for byte. */
  lemma CompletedUntouched(text: seq<Byte>, was: seq<Byte>, base: nat, marks: seq<Mark>, frames: seq<Frame>,
                           seg: seq<Byte>, marks': seq<Mark>, frames': seq<Frame>, j: nat, i: nat)
    requires Laid(text, was, base, marks, frames, |was|) && |marks'| == |frames'|
    requires |marks| == |frames| && Preserved(was, marks, frames, seg, marks', frames')
    requires j < |frames| && i < Held(frames[j]) && i < |marks[j].offsets|
    ensures Agree(was, seg, marks[j].offsets[i], Next(marks[j].offsets, StopOf(marks, |was|, j), i))
  {
    hide Laid, ElementsAt, MembersAt, StringAt;
    var m, stop := marks[j], StopOf(marks, |was|, j);
    LaidFrameAt(text, was, base, marks, frames, |was|, j);
    RisingFrom(m.offsets, stop, i);
    RisingTo(m.offsets, stop, i);
    forall b | m.offsets[i] <= b < Next(m.offsets, stop, i) ensures !Reserved(marks, frames, b) {
      forall k | 0 <= k < |marks| ensures !(marks[k].header < b < marks[k].header + HeaderSize(frames[k])) {
        if k < j {
          HeadersApart(text, was, base, marks, frames, |was|, k, j);
        } else if k > j {
          HeaderBehind(text, was, base, marks, frames, j, k);
        }
      }
    }
  }

  lemma HeaderBehind(text: seq<Byte>, was: seq<Byte>, base: nat, marks: seq<Mark>, frames: seq<Frame>, j: nat, k: nat)
    requires Laid(text, was, base, marks, frames, |was|) && |marks| == |frames| && j < k < |frames|
    ensures StopOf(marks, |was|, j) <= marks[k].header
  {
    hide Laid;
    if j + 1 < k {
      HeadersApart(text, was, base, marks, frames, |was|, j + 1, k);
    }
  }

  // ----- Values by themselves -----

  lemma StringStored(text: seq<Byte>, seg: seq<Byte>, start: Word, size: Word)
    requires start + size <= |text|
    ensures var r := seg + StringBytes(text, start, size);
            StringAt(text, r, |seg|, |seg| + StringSize(size), text[start..start + size])
  {
    var r, off := seg + StringBytes(text, start, size), |seg|;
    if size <= SIZE_MAX_INLINE {
      assert r[off + 1..] == text[start..start + size];
    } else {
      hide WordBytes, WordAt, TagMake;
      LongString(seg, text, start, size);
    }
  }

  lemma LongString(seg: seq<Byte>, text: seq<Byte>, start: Word, size: Word)
    requires start + size <= |text| && size > SIZE_MAX_INLINE
    ensures var r, off := seg + StringBytes(text, start, size), |seg|;
            && r[off] == TagMake(TAG_REF_STRING, SIZE_INBOUND)
            && WordAt(r, off + 1) == size && WordAt(r, off + 9) == start
  {
    hide WordBytes, WordAt, TagMake;
    var r, off := seg + StringBytes(text, start, size), |seg|;
    assert r[off + 1..off + 9] == WordBytes(size);
    assert r[off + 9..off + 17] == WordBytes(start);
    WordAtWritten(r, off + 1, size);
    WordAtWritten(r, off + 9, start);
  }

  lemma IntStored(seg: seq<Byte>, n: int)
    requires n == Wrap64(n)
    ensures var w := IntWidth(n);
            var r := seg + ([TagMake(TAG_INT, w)] + SignedLE(n, w));
            SignedFromLE(r[|seg| + 1..|seg| + 1 + w]) == n
  {
    var w := IntWidth(n);
    var r := seg + ([TagMake(TAG_INT, w)] + SignedLE(n, w));
    assert r[|seg| + 1..|seg| + 1 + w] == SignedLE(n, w);
    assert Pow256(1) == 0x100 && Pow256(2) == 0x1_0000 && Pow256(4) == 0x1_0000_0000 && Pow256(8) == WORD_LIMIT;
    if w > 0 {
      SignedRoundTrip(n, w);
    }
  }

  lemma DoubleStored(text: seq<Byte>, seg: seq<Byte>, bits: Word)
    ensures var r := seg + ([TagMake(TAG_DOUBLE, 0)] + WordBytes(bits)); Enc(text, r, |seg|, |r|, Double(bits))
  {
    hide WordAt, WordBytes;
    var r := seg + ([TagMake(TAG_DOUBLE, 0)] + WordBytes(bits));
    assert r[|seg| + 1..|seg| + 9] == WordBytes(bits);
    WordAtWritten(r, |seg| + 1, bits);
  }

  lemma AtomStored(env: Input, seg: seq<Byte>, tok: Scan)
    requires tok.Token? && tok.start + tok.size <= |env.text| < WORD_LIMIT && Atom(env, tok).Some?
    ensures var r := seg + AtomBytes(env, tok); Enc(env.text, r, |seg|, |r|, Atom(env, tok).value)
  {
    hide StringAt, StringBytes, SignedLE, SignedFromLE, IntegerValue, Wrap64, DoubleValue, IntWidth;
    match Atom(env, tok).value
    case Int(n) =>
      WrapTwice(IntegerValue(Slice(env, tok)));
      IntStored(seg, n);
    case Str(_) => StringStored(env.text, seg, tok.start, tok.size);
    case Double(bits) => DoubleStored(env.text, seg, bits);
    case Null =>
    case Bool(_) =>
  }

  /** What is stored for a token, in numbers: a tag of type and size, and the least width for an integer. */
  lemma AtomFormat(env: Input, tok: Scan)
    requires tok.Token? && tok.start + tok.size <= |env.text| < WORD_LIMIT && Atom(env, tok).Some?
    ensures var b := AtomBytes(env, tok);
            match tok.kind
            case NullWord => b == [0x00]
            case FalseWord => b == [0x10]
            case TrueWord => b == [0x11]
            case String =>
              if tok.size <= 15 then b == [0x20 + tok.size] + env.text[tok.start..tok.start + tok.size]
              else b == [0x31] + WordBytes(tok.size) + WordBytes(tok.start)
            case Int => var n := Atom(env, tok).value.n; b == [0x40 + IntWidth(n)] + SignedLE(n, IntWidth(n))
            case Float => b == [0x50] + WordBytes(Atom(env, tok).value.bits)
            case _ => false
  {
    hide IntegerValue, DoubleValue, Wrap64, SignedLE, IntWidth;
  }

  lemma LeastWidth(n: int)
    requires -0x8000_0000_0000_0000 <= n < 0x8000_0000_0000_0000
    ensures IntWidth(n) <= 0 <==> n == 0
    ensures IntWidth(n) <= 1 <==> -128 <= n <= 127
    ensures IntWidth(n) <= 2 <==> -32768 <= n <= 32767
    ensures IntWidth(n) <= 4 <==> -2147483648 <= n <= 2147483647
    ensures IntWidth(n) in {0, 1, 2, 4, 8}
  {
  }

  /** The tags of composites and handles. */
  lemma CompositeTags(text: seq<Byte>, seg: seq<Byte>, off: nat, end: nat, t: Tree)
    requires Enc(text, seg, off, end, t)
    ensures t.Arr? ==> seg[off] == if t.elems == [] then 0x60 else 0x61
    ensures t.Obj? ==> if t.kvs == [] then seg[off] == 0x70 else seg[off] == 0x71 || seg[off] == 0x72
    ensures t.Ref? ==> seg[off] == 0x80
  {
    hide ElementsAt, MembersAt, WordAt, TableAt, Ordered, SignedFromLE, FromLE;
  }

  lemma WrapTwice(x: int)
    ensures Wrap64(Wrap64(x)) == Wrap64(x)
  {
  }

  lemma HandleStored(text: seq<Byte>, seg: seq<Byte>, segment: nat, offset: nat, target: Tree)
    requires segment < 256 && offset < HANDLE_OFFSET_LIMIT
    ensures var r := seg + ([TagMake(TAG_VALUE_HANDLE, 0)] + HandleBytes(segment, offset));
            Enc(text, r, |seg|, |r|, Ref(segment, offset, target))
  {
    hide LE, FromLE;
    var r := seg + ([TagMake(TAG_VALUE_HANDLE, 0)] + HandleBytes(segment, offset));
    assert r[|seg| + 2..|r|] == LE(offset, 7);
    HandleOffset(offset);
  }

  lemma HandleOffset(offset: nat)
    requires offset < HANDLE_OFFSET_LIMIT
    ensures FromLE(LE(offset, 7)) == offset
  {
    assert Pow256(7) == HANDLE_OFFSET_LIMIT;
    LERoundTrip(offset, 7);
  }

  // ----- Whole operations on stack and segment -----

  lemma Regroup<T>(a: seq<T>, b: seq<T>, c: seq<T>, d: seq<T>)
    ensures a + b + c + d == a + (b + c + d)
  {
  }

  lemma NewFrameBytes(header: Word, first: Word)
    ensures FrameBytes(Mark(header, [first])) == WordBytes(header) + WordBytes(first) + WordBytes(1)
  {
    hide WordBytes;
    WordsAppend([], first);
    assert [] + [first] == [first];
    assert Words([first]) == WordBytes(first);
  }

  lemma NextFrameBytes(m: Mark, next: Word)
    requires |m.offsets| + 1 < WORD_LIMIT
    ensures FrameBytes(NextMark(m, next))
         == WordBytes(m.header) + Words(m.offsets) + WordBytes(next) + WordBytes(|m.offsets| + 1)
  {
    hide WordBytes, Words;
    WordsAppend(m.offsets, next);
  }

  lemma StackOfExpected(s: State, marks: seq<Mark>, frames: seq<Frame>)
    requires |marks| == |frames| && ExpectsValue(s)
    ensures StackBytes(s, marks, frames) == Stacked(marks, frames)
  {
  }

  /** The layout after the header and the first key of an object have been stored behind `was`. */
  lemma ObjectOpened(env: Input, was: seq<Byte>, header: seq<Byte>, base: nat, marks: seq<Mark>, frames: seq<Frame>,
                     m: Mark, tok: Scan)
    requires tok.Token? && tok.start + tok.size <= |env.text| < WORD_LIMIT && AllAwaiting(frames)
    requires Laid(env.text, was, base, marks, frames, |was|)
    requires was + [TagMake(TAG_OBJECT, SIZE_INBOUND)] <= header && |header| == |was| + OBJECT_HEADER
    requires m.header == |was| && m.offsets == [|was| + OBJECT_HEADER]
    ensures var seg := header + StringBytes(env.text, tok.start, tok.size);
            var f := ObjFrame([], Some(Slice(env, tok)));
            && Laid(env.text, seg, base, marks + [m], frames + [f], |seg|)
            && Sound(Parser(KvColon, frames + [f]))
            && StackBytes(KvColon, marks + [m], frames + [f]) == Stacked(marks, frames) + FrameBytes(m)
  {
    hide Laid, Stacked, StackBytes, FrameLaid, FrameBytes, StringBytes, StringAt;
    var seg := header + StringBytes(env.text, tok.start, tok.size);
    var f := ObjFrame([], Some(Slice(env, tok)));
    StringStored(env.text, header, tok.start, tok.size);
    OpenedObject(env.text, seg, m.header, m.offsets[0], |seg|, Slice(env, tok));
    PushedFrame(env.text, was, seg, base, marks, frames, m, f, |seg|);
  }

  /** The layout after a further key has been stored behind `was`. */
  lemma KeyAdded(env: Input, was: seq<Byte>, base: nat, marks: seq<Mark>, frames: seq<Frame>, m: Mark, kvs: seq<Member>,
                 m': Mark, tok: Scan)
    requires tok.Token? && tok.start + tok.size <= |env.text| < WORD_LIMIT && AllAwaiting(frames)
    requires |was| < WORD_LIMIT && |m.offsets| + 1 < WORD_LIMIT && m' == NextMark(m, |was|) && |marks| == |frames|
    requires Laid(env.text, was, base, marks, frames, m.header)
      && FrameLaid(env.text, was, m, ObjFrame(kvs, None), |was|)
    ensures var seg := was + StringBytes(env.text, tok.start, tok.size);
            var f := ObjFrame(kvs, Some(Slice(env, tok)));
            && Laid(env.text, seg, base, marks + [m'], frames + [f], |seg|)
            && Sound(Parser(KvColon, frames + [f]))
            && StackBytes(KvColon, marks + [m'], frames + [f]) == Stacked(marks, frames) + FrameBytes(m')
  {
    hide Laid, Stacked, StackBytes, FrameLaid, FrameBytes, StringBytes, StringAt;
    var seg := was + StringBytes(env.text, tok.start, tok.size);
    var f := ObjFrame(kvs, Some(Slice(env, tok)));
    FrameHeader(env.text, was, m, ObjFrame(kvs, None), |was|);
    StringStored(env.text, was, tok.start, tok.size);
    FrameLocal(env.text, was, seg, m, ObjFrame(kvs, None), |was|);
    BeginMember(env.text, seg, m, kvs, |was|, |seg|, Slice(env, tok));
    PushedFrame(env.text, was, seg, base, marks, frames, m', f, |seg|);
  }

  /** The layout after the offset of a further array element has been noted. */
  lemma ElementBegun(text: seq<Byte>, seg: seq<Byte>, base: nat, marks: seq<Mark>, frames: seq<Frame>, m: Mark,
                     elems: seq<Tree>, m': Mark)
    requires AllAwaiting(frames)
    requires |seg| < WORD_LIMIT && |m.offsets| + 1 < WORD_LIMIT && m' == NextMark(m, |seg|) && |marks| == |frames|
    requires Laid(text, seg, base, marks, frames, m.header) && FrameLaid(text, seg, m, ArrFrame(elems, false), |seg|)
    ensures var f := ArrFrame(elems, true);
            && Laid(text, seg, base, marks + [m'], frames + [f], |seg|)
            && Sound(Parser(ExpectValue, frames + [f]))
            && StackBytes(ExpectValue, marks + [m'], frames + [f])
            == Stacked(marks, frames) + FrameBytes(m') + StateBytes(NextArrayElement)
  {
    hide Laid, Stacked, FrameLaid, FrameBytes;
    FrameHeader(text, seg, m, ArrFrame(elems, false), |seg|);
    BeginElement(text, seg, m, elems, |seg|);
    PushedFrame(text, seg, seg, base, marks, frames, m', ArrFrame(elems, true), |seg|);
  }

  lemma LaidTop(text: seq<Byte>, seg: seq<Byte>, base: nat, marks: seq<Mark>, frames: seq<Frame>, top: nat)
    requires frames != [] && Laid(text, seg, base, marks, frames, top)
    ensures FrameLaid(text, seg, marks[|marks| - 1], Top(frames), top)
    ensures Laid(text, seg, base, marks[..|marks| - 1], Below(frames), marks[|marks| - 1].header)
    ensures base <= marks[|marks| - 1].header
  {
    LaidAbove(text, seg, base, marks[..|marks| - 1], Below(frames), marks[|marks| - 1].header);
  }

  /** Popping the state to return to, once a value is complete: the waiting composite takes the value. */
  lemma ValuePlugged(text: seq<Byte>, seg: seq<Byte>, base: nat, marks: seq<Mark>, frames: seq<Frame>, at: nat, t: Tree)
    requires frames != [] && AllAwaiting(frames) && Laid(text, seg, base, marks, frames, at)
    requires Enc(text, seg, at, |seg|, t)
    ensures var s, fs := ReturnState(Top(frames)), Below(frames) + [Plug(Top(frames), t)];
            && Laid(text, seg, base, marks, fs, |seg|)
            && Sound(Parser(s, fs))
            && Stacked(marks, frames) == StackBytes(s, marks, fs) + StateBytes(s)
  {
    hide FrameLaid, FrameBytes, StateBytes, Enc;
    var fs := Below(frames) + [Plug(Top(frames), t)];
    assert Below(fs) == Below(frames);
    PlugLaid(text, seg, marks[|marks| - 1], Top(frames), at, |seg|, t);
  }
}
