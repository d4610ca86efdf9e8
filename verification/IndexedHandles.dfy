/** A document of the parallel parse in which a key lookup returns something that cannot be read. */
module IndexedHandles {
  import opened Bytes
  import opened Tokenizer
  import opened Trees
  import opened Grammar
  import opened Pushdown
  import opened Encoding
  import opened Documents
  import opened Readers
  import opened Preparse
  import opened Lookup
  import opened Parallel
  import opened SortedIndex
  import opened SortedReads
  import opened Refusals
  import Chunking

  const LETTER_A: Byte := 97
  const SPACE: Byte := 32

  /** An object whose only member, of key "a", is an empty array at the very end of 2048 bytes. */
  function DistantMember(): (s: seq<Byte>)
    ensures |s| == 2048
  {
    seq(2048, i =>
      if i == 0 then OPEN_BRACE else if i == 1 || i == 3 then QUOTE else if i == 2 then LETTER_A
      else if i == 4 then COLON else if i == 2045 then OPEN_BRACKET else if i == 2046 then CLOSED_BRACKET
      else if i == 2047 then CLOSED_BRACE else SPACE)
  }

  /** Two threads work on it. */
  ghost predicate TwoThreads(env: Input, chunks: seq<Chunk>) {
    && env.text == DistantMember() && ChunksOk(env, 2048, chunks)
    && |chunks| == Chunking.EffectiveThreads(2048, 2)
    && forall i :: 0 <= i < |chunks| ==>
         chunks[i].lo == Chunking.Cut(2048, |chunks|, i) && chunks[i].hi == Chunking.Cut(2048, |chunks|, i + 1)
  }

  lemma Halves(env: Input, chunks: seq<Chunk>)
    requires TwoThreads(env, chunks)
    ensures |chunks| == 2 && chunks[0].lo == 0 && chunks[0].hi == chunks[1].lo == 1024 && chunks[1].hi == 2048
  {
    hide ChunksOk;
    assert chunks[1].lo == Chunking.Cut(2048, 2, 1) == 1024 && chunks[1].hi == Chunking.Cut(2048, 2, 2) == 2048;
    assert chunks[0].lo == Chunking.Cut(2048, 2, 0) == 0 && chunks[0].hi == Chunking.Cut(2048, 2, 1) == 1024;
  }

  lemma TokensOfText(text: seq<Byte>)
    requires text == DistantMember()
    ensures NextToken(text, 2048, 0) == Token(OpenBrace, 0, 1, 1)
    ensures NextToken(text, 2048, 1) == Token(String, 2, 1, 4)
    ensures NextToken(text, 2048, 4) == Token(Colon, 4, 1, 5)
    ensures NextToken(text, 2048, 5) == Token(OpenBracket, 2045, 1, 2046)
    ensures NextToken(text, 2048, 2047) == Token(ClosedBrace, 2047, 1, 2048)
  {
    hide NextToken;
    BracketAt(text, 2048, 5, 2045);
    TokenHere(text, 2048, 0);
    TokenHere(text, 2048, 1);
    TokenHere(text, 2048, 4);
    TokenHere(text, 2048, 2047);
    hide DistantMember;
    OneLetter(text, 2048, 1);
  }

  lemma TokenHere(text: seq<Byte>, limit: nat, p: nat)
    requires p < limit <= |text| && !IsSpace(text[p])
    ensures NextToken(text, limit, p) == TokenAt(text, limit, p)
  {
    SpacesSkipped(text, limit, p, p);
  }

  lemma OneLetter(text: seq<Byte>, limit: nat, p: nat)
    requires p + 2 < limit <= |text| && text[p] == QUOTE && text[p + 1] == LETTER_A && text[p + 2] == QUOTE
    ensures TokenAt(text, limit, p) == Token(String, p + 1, 1, p + 3)
  {
    assert CloseQuote(text, limit, p + 2, false) == p + 2;
  }

  function Key(): seq<Byte> {
    [LETTER_A]
  }

  function Waiting(): Parser {
    Parser(ExpectValue, [ObjFrame([], Some(Key()))])
  }

  lemma KeySlice(env: Input, tok: Scan)
    requires env.text == DistantMember() && tok == Token(String, 2, 1, 4)
    ensures Slice(env, tok) == Key()
  {
    assert env.text[2..3] == [env.text[2]];
  }

  /** The main thread up to the member's value. */
  lemma UpToMember(env: Input, chunks: seq<Chunk>)
    requires TwoThreads(env, chunks)
    ensures chunks != [] && Sound(Waiting())
    ensures MainAnswer(env, 2048, chunks) == MainRun(env, 2048, chunks, IterInit(chunks), Waiting(), 5)
  {
    hide MainRun, ChunksOk, NextToken, Find;
    Halves(env, chunks);
    TokensOfText(env.text);
    var it := IterInit(chunks);
    NotYet(env, 2048, chunks, 0);
    MainUnfold(env, 2048, chunks, it, START, 0);
    MainUnfold(env, 2048, chunks, it, Parser(FirstKv, []), 1);
    KeySlice(env, NextToken(env.text, 2048, 1));
    assert [] + [ObjFrame([], Some(Key()))] == [ObjFrame([], Some(Key()))];
    MainUnfold(env, 2048, chunks, it, Parser(KvColon, [ObjFrame([], Some(Key()))]), 4);
  }

  /** The worker of the second half lists the array first. */
  lemma ArrayListed(env: Input, chunks: seq<Chunk>)
    requires TwoThreads(env, chunks)
    ensures |chunks| == 2 && TableOf(chunks[1], false) != []
    ensures TableOf(chunks[1], false)[0].start == 2045 && TableOf(chunks[1], false)[0].size == 2
    ensures TreeAt(env, 2048, 2045) == Arr([])
  {
    hide NextToken, Value, Stored, DistantMember, AfterString, LiesBelow;
    Halves(env, chunks);
    EmptyArrayAt(env, 2048, 2045);
    BracketAt(env.text, 2048, 1024, 2045);
    RegionsUnfold(env, 2048, 1024);
    assert NextOpen(env, 2048, 1024) == Some(Token(OpenBracket, 2045, 1, 2046));
  }

  lemma MemberFound(env: Input, chunks: seq<Chunk>)
    requires TwoThreads(env, chunks)
    ensures |chunks| == 2 && TableOf(chunks[1], false) != []
    ensures var r := Find(chunks, IterInit(chunks), 2045);
            r.0.index == 1 && r.0.scenarios[1] == false && r.1 == Some(TableOf(chunks[1], false)[0])
  {
    hide ChunksOk, Find, TableOf, IterOk;
    Halves(env, chunks);
    ArrayListed(env, chunks);
    InitOk(env, 2048, chunks);
    FindIsLookup(env, 2048, chunks, IterInit(chunks), 0, 2045);
    FoundInChunk(env, 2048, chunks, 2045, 1);
    var table, e := TableOf(chunks[1], false), Find(chunks, IterInit(chunks), 2045).1;
    assert table[0] in table && table[0].start == 2045;
    var i :| 0 <= i < |table| && table[i] == e.value;
    if i > 0 {
      TableInOrder(env, 2048, chunks, 1, false, 0, i);
    }
  }

  /** The parsed document: its only member is a handle to the worker's segment. */
  lemma MemberIsHandle(env: Input, chunks: seq<Chunk>)
    requires TwoThreads(env, chunks)
    ensures |chunks| == 2 && TableOf(chunks[1], false) != []
    ensures var m := MainAnswer(env, 2048, chunks);
            && m.Some? && m.value.next == 2048 && |m.value.scenarios| == 2 && !m.value.scenarios[1]
            && m.value.root == Some(Obj([Member(Key(), Ref(1, TableOf(chunks[1], false)[0].offset, Arr([])))]))
  {
    hide MainRun, ChunksOk, NextToken, Find, TableOf, TreeAt, DistantMember, Settle, Step, WithHandle;
    Halves(env, chunks);
    TokensOfText(env.text);
    UpToMember(env, chunks);
    ArrayListed(env, chunks);
    MemberFound(env, chunks);
    MainUnfold(env, 2048, chunks, IterInit(chunks), Waiting(), 5);
    var it := Find(chunks, IterInit(chunks), 2045).0;
    var member := Member(Key(), Ref(1, TableOf(chunks[1], false)[0].offset, Arr([])));
    var closing := Parser(KvEnd, [ObjFrame([member], None)]);
    HandlePlugged(env, it, TableOf(chunks[1], false)[0]);
    MainUnfold(env, 2048, chunks, it, closing, 2047);
    Closes(env, [member], NextToken(env.text, 2048, 2047));
  }

  lemma HandlePlugged(env: Input, it: Iter, e: Entry)
    requires |env.text| == 2048 && e.start == 2045 && TreeAt(env, 2048, 2045) == Arr([])
    ensures WithHandle(env, 2048, Waiting(), it, e)
         == Parser(KvEnd, [ObjFrame([Member(Key(), Ref(it.index, e.offset, Arr([])))], None)])
  {
    hide Settle, TreeAt;
    Plugged(Key(), Ref(it.index, e.offset, Arr([])));
  }

  lemma Plugged(key: seq<Byte>, t: Tree)
    ensures Settle(Completed([ObjFrame([], Some(key))], t))
         == Running(Parser(KvEnd, [ObjFrame([Member(key, t)], None)]))
  {
    assert [] + [Member(key, t)] == [Member(key, t)];
    assert [] + [ObjFrame([Member(key, t)], None)] == [ObjFrame([Member(key, t)], None)];
    assert Below([ObjFrame([], Some(key))]) == [];
  }

  lemma Closes(env: Input, kvs: seq<Member>, tok: Scan)
    requires tok.Token? && tok.kind == ClosedBrace && tok.start + tok.size <= |env.text|
    ensures Sound(Parser(KvEnd, [ObjFrame(kvs, None)]))
    ensures Step(env, Parser(KvEnd, [ObjFrame(kvs, None)]), tok) == Done(Some(Obj(kvs)))
  {
    assert Below([ObjFrame(kvs, None)]) == [];
  }

  /** There the lookup of "a" comes to a place whose type cannot be read, although an empty array is stored for it. */
  lemma LookupUnreadable(env: Input, chunks: seq<Chunk>, main: seq<Byte>, element: nat)
    requires TwoThreads(env, chunks)
    requires var m := MainAnswer(env, 2048, chunks);
             && m.Some? && m.value.root.Some? && m.value.root.value.Obj?
             && Enc(env.text, main, 0, |main|, m.value.root.value)
             && m.value.root.value.kvs != [] && |m.value.scenarios| == |chunks|
             && MemberValueAt(env.text, main, 0, m.value.root.value.kvs, 0, element)
    ensures var doc := DocumentOf(chunks, main, MainAnswer(env, 2048, chunks).value.scenarios);
            && ValueType(doc, Handle(0, element)).None?
            && ValueAt(env.text, doc, Handle(0, element), Arr([]))
  {
    hide ChunksOk, MainRun, Enc, Tied, IterOk, MemberValueAt, ValueType, ValueAt, TableOf;
    MemberIsHandle(env, chunks);
    InitOk(env, 2048, chunks);
    MainTied(env, 2048, chunks, IterInit(chunks), START, 0);
    var m := MainAnswer(env, 2048, chunks).value;
    TiedLinked(env, 2048, chunks, main, m.scenarios, m.root.value);
    var doc := DocumentOf(chunks, main, m.scenarios);
    IndexedValue(env.text, doc, 0, 0, m.root.value.kvs, 0, element);
  }
}
