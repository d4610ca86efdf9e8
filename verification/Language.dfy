/** The texts that are accepted, and the values they are read as: exactly what the spelling of values says. */
module Language {
  import opened Bytes
  import opened Tokenizer
  import opened Trees
  import opened Grammar
  import opened Spelling
  import opened Lexing

  // ----- Parts of a spelling -----

  lemma HereSpaced(text: seq<Byte>, p: nat, v: Spaced, tail: seq<Byte>)
    ensures Here(text, p, SpellSpaced(v) + tail)
       <==> Here(text, p, v.before + Spell(v.value)) && Here(text, p + |v.before| + |Spell(v.value)|, v.after + tail)
  {
    hide Here, Spell;
    assert SpellSpaced(v) + tail == (v.before + Spell(v.value)) + (v.after + tail);
    HereSplit(text, p, v.before + Spell(v.value), v.after + tail);
  }

  /** A key with its quotes. */
  function SpellKey(e: Entry): seq<Byte> {
    [34] + (SpellChars(e.key) + [34])
  }

  lemma HereEntry(text: seq<Byte>, p: nat, e: Entry, tail: seq<Byte>)
    ensures var k := p + |e.before| + |SpellKey(e)|;
            Here(text, p, SpellEntry(e) + tail) <==>
              (&& Here(text, p, e.before + SpellKey(e)) && Here(text, k, e.after + [58])
               && Here(text, k + |e.after| + 1, SpellSpaced(e.value) + tail))
  {
    hide Here, SpellSpaced, SpellChars;
    var v := SpellSpaced(e.value) + tail;
    assert SpellEntry(e) + tail == (e.before + SpellKey(e)) + ((e.after + [58]) + v);
    HereSplit(text, p, e.before + SpellKey(e), (e.after + [58]) + v);
    HereSplit(text, p + |e.before| + |SpellKey(e)|, e.after + [58], v);
  }

  lemma LengthOfEntry(e: Entry)
    ensures |SpellEntry(e)| == |e.before| + |SpellKey(e)| + |e.after| + 1 + |SpellSpaced(e.value)|
  {
    hide SpellSpaced, SpellChars;
  }

  /** Space, or what ends an element, does not go on with a number. */
  lemma ElementStops(s: Spelling, text: seq<Byte>, limit: nat, end: nat, after: seq<Byte>, c: Byte)
    requires s.NumberText? && Blank(after) && (c == 44 || c == 93 || c == 125)
    requires Here(text, end, after + [c]) && end <= limit <= |text|
    ensures Stops(s, text, limit, end)
  {
    hide Here;
    HereAt(text, end, after + [c], 0);
  }

  // ----- Digits -----

  lemma {:induction false} PositionalAppend(ds: seq<Byte>, d: Byte)
    ensures Positional(ds + [d]) == 10 * Positional(ds) + (d - 48)
  {
    if ds == [] {
      assert [d][1..] == [];
    } else {
      PositionalAppend(ds[1..], d);
      assert (ds + [d])[1..] == ds[1..] + [d];
      var first: int := ds[0];
      TimesTen(first - 48, Pow10(|ds| - 1));
    }
  }

  lemma TimesTen(x: int, p: int)
    ensures x * (10 * p) == 10 * (x * p)
  {
  }

  /** The digits of a number mean what their positions say. */
  lemma {:induction false} DecimalMeans(ds: seq<Byte>)
    ensures Decimal(ds) == Positional(ds)
    decreases |ds|
  {
    if ds != [] {
      var init, last := ds[..|ds| - 1], ds[|ds| - 1];
      assert ds == init + [last];
      DecimalMeans(init);
      PositionalAppend(init, last);
    }
  }

  lemma IntegerMeans(s: Spelling)
    requires s.NumberText? && ProperNumber(s) && s.fraction.None? && s.exponent.None?
    ensures IntegerValue(SpellNumber(s)) == if s.minus then -Positional(s.whole) else Positional(s.whole)
  {
    var n := SpellNumber(s);
    DecimalMeans(s.whole);
    assert n == (if s.minus then [45] else []) + s.whole;
    if s.minus {
      assert n[1..] == s.whole;
    } else {
      assert n == s.whole;
    }
  }

  // ----- What is written is read -----

  lemma SliceHere(env: Input, tok: Scan, s: seq<Byte>)
    requires tok.Token? && tok.start + tok.size <= |env.text| && tok.size == |s| && Here(env.text, tok.start, s)
    ensures Slice(env, tok) == s
  {
  }

  lemma NumberValue(env: Input, limit: nat, pos: nat, b: seq<Byte>, s: Spelling)
    requires s.NumberText? && ProperNumber(s) && Blank(b) && Here(env.text, pos, b + SpellNumber(s))
    requires pos + |b| + |SpellNumber(s)| <= limit <= |env.text|
    requires Stops(s, env.text, limit, pos + |b| + |SpellNumber(s)|)
    ensures Value(env, limit, pos) == Told(NumberMeaning(env.strtod, s), pos + |b| + |SpellNumber(s)|)
  {
    hide Here, SpellNumber, NextToken, Stops, Decimal, IntegerValue, Positional, Slice;
    NumberRead(env.text, limit, pos, b, s);
    HereSplit(env.text, pos, b, SpellNumber(s));
    SliceHere(env, NextToken(env.text, limit, pos), SpellNumber(s));
    if s.fraction.None? && s.exponent.None? {
      IntegerMeans(s);
    }
  }

  function Told<T>(meaning: Option<T>, end: nat): Option<Parsed<T>> {
    if meaning.Some? then Some(Parsed(meaning.value, end)) else None
  }

  /** Whatever is written as a value is read as its meaning, up to its end; where a number in it has none, it is an
      error. */
  lemma {:induction false} ValueRead(env: Input, limit: nat, pos: nat, b: seq<Byte>, s: Spelling)
    requires Blank(b) && Proper(s) && Here(env.text, pos, b + Spell(s))
    requires pos + |b| + |Spell(s)| <= limit <= |env.text|
    requires s.NumberText? ==> Stops(s, env.text, limit, pos + |b| + |Spell(s)|)
    ensures Value(env, limit, pos) == Told(Meaning(env.strtod, s), pos + |b| + |Spell(s)|)
    ensures var tok := NextToken(env.text, limit, pos);
            tok.Token? && tok.kind != ClosedBracket && tok.kind != ClosedBrace && tok.kind != Eof
    decreases s, 2
  {
    hide Here, NextToken, Elements, Members, SpellElements, SpellEntries, Stops, SpellNumber, SpellChars, NumberMeaning;
    match s
    case NumberText(_, _, _, _) =>
      NumberRead(env.text, limit, pos, b, s);
      NumberValue(env, limit, pos, b, s);
    case StringText(cs) => StringValue(env, limit, pos, b, cs);
    case ArrayText(inside, elems) => ArrayRead(env, limit, pos, b, inside, elems);
    case ObjectText(inside, entries) => ObjectRead(env, limit, pos, b, inside, entries);
    case _ => WordRead(env.text, limit, pos, b, s);
  }

  lemma StringValue(env: Input, limit: nat, pos: nat, b: seq<Byte>, cs: seq<Character>)
    requires Blank(b) && ProperChars(cs) && Here(env.text, pos, b + Spell(StringText(cs)))
    requires pos + |b| + |Spell(StringText(cs))| <= limit <= |env.text|
    ensures Value(env, limit, pos) == Some(Parsed(Str(SpellChars(cs)), pos + |b| + |Spell(StringText(cs))|))
    ensures NextToken(env.text, limit, pos).Token? && NextToken(env.text, limit, pos).kind == String
  {
    hide Here, NextToken, SpellChars, Slice;
    assert Spell(StringText(cs)) == [34] + (SpellChars(cs) + [34]);
    StringRead(env.text, limit, pos, b, cs);
    SliceHere(env, NextToken(env.text, limit, pos), SpellChars(cs));
  }

  lemma {:induction false} ArrayRead(env: Input, limit: nat, pos: nat, b: seq<Byte>, inside: seq<Byte>,
                                     elems: seq<Spaced>)
    requires Blank(b) && Proper(ArrayText(inside, elems)) && Here(env.text, pos, b + Spell(ArrayText(inside, elems)))
    requires pos + |b| + |Spell(ArrayText(inside, elems))| <= limit <= |env.text|
    ensures Value(env, limit, pos) == Told(Meaning(env.strtod, ArrayText(inside, elems)),
                                           pos + |b| + |Spell(ArrayText(inside, elems))|)
    ensures NextToken(env.text, limit, pos).Token? && NextToken(env.text, limit, pos).kind == OpenBracket
    decreases elems, 1
  {
    hide Here, NextToken, Elements, SpellElements;
    var tail := if elems == [] then inside + [93] else SpellElements(elems);
    assert b + Spell(ArrayText(inside, elems)) == (b + [91]) + tail;
    HereSplit(env.text, pos, b + [91], tail);
    MarkRead(env.text, limit, pos, b, 91, OpenBracket);
    if elems == [] {
      MarkRead(env.text, limit, pos + |b| + 1, inside, 93, ClosedBracket);
    } else {
      ElementsRead(env, limit, pos + |b| + 1, elems);
    }
  }

  /** An element, the space behind it, and the comma or the bracket that ends it. */
  lemma ElementHere(env: Input, limit: nat, pos: nat, v: Spaced, c: Byte, kind: Kind, rest: seq<Byte>)
    requires ProperSpaced(v) && IsMark(kind, c) && (c == 44 || c == 93 || c == 125) && limit <= |env.text|
    requires Here(env.text, pos, SpellSpaced(v) + ([c] + rest)) && pos + |SpellSpaced(v)| + 1 + |rest| <= limit
    ensures Blank(v.before) && Proper(v.value) && Here(env.text, pos, v.before + Spell(v.value))
    ensures var end := pos + |v.before| + |Spell(v.value)|;
            && end <= limit
            && (v.value.NumberText? ==> Stops(v.value, env.text, limit, end))
            && NextToken(env.text, limit, end) == Token(kind, end + |v.after|, 1, end + |v.after| + 1)
            && end + |v.after| == pos + |SpellSpaced(v)|
            && Here(env.text, end + |v.after| + 1, rest)
  {
    hide Here, NextToken, Spell, Proper, Stops;
    var end := pos + |v.before| + |Spell(v.value)|;
    HereSpaced(env.text, pos, v, [c] + rest);
    assert v.after + ([c] + rest) == (v.after + [c]) + rest;
    HereSplit(env.text, end, v.after + [c], rest);
    if v.value.NumberText? {
      ElementStops(v.value, env.text, limit, end, v.after, c);
    }
    MarkRead(env.text, limit, end, v.after, c, kind);
  }

  lemma {:induction false} ElementsRead(env: Input, limit: nat, pos: nat, elems: seq<Spaced>)
    requires elems != [] && (forall i :: 0 <= i < |elems| ==> ProperSpaced(elems[i]))
    requires Here(env.text, pos, SpellElements(elems)) && pos + |SpellElements(elems)| <= limit <= |env.text|
    ensures Elements(env, limit, pos) == Told(ElementsMeaning(env.strtod, elems), pos + |SpellElements(elems)|)
    ensures var tok := NextToken(env.text, limit, pos); tok.Token? && tok.kind != ClosedBracket
    decreases elems, 0
  {
    hide Here, NextToken, Value, Spell, Meaning, Proper, SpellSpaced, ProperSpaced, Stops, Elements;
    var v := elems[0];
    var end := pos + |v.before| + |Spell(v.value)|;
    if |elems| == 1 {
      assert [93] == [93] + [];
      ElementHere(env, limit, pos, v, 93, ClosedBracket, []);
      ValueRead(env, limit, pos, v.before, v.value);
      OneElement(env, limit, pos, end, Meaning(env.strtod, v.value), NextToken(env.text, limit, end));
      assert elems[1..] == [] && ElementsMeaning(env.strtod, elems[1..]) == Some([]);
      NothingBehind(Meaning(env.strtod, v.value));
    } else {
      ElementHere(env, limit, pos, v, 44, Comma, SpellElements(elems[1..]));
      ValueRead(env, limit, pos, v.before, v.value);
      OneElement(env, limit, pos, end, Meaning(env.strtod, v.value), NextToken(env.text, limit, end));
      ElementsRead(env, limit, pos + |SpellSpaced(v)| + 1, elems[1..]);
    }
  }

  /** One element, and what a closing bracket or a comma behind it makes of the list. */
  lemma OneElement(env: Input, limit: nat, pos: nat, end: nat, meaning: Option<Tree>, sep: Scan)
    requires pos <= limit <= |env.text| && end <= limit && sep == NextToken(env.text, limit, end) && sep.Token?
    requires Value(env, limit, pos) == Told(meaning, end)
    ensures var r := Elements(env, limit, pos);
            && (meaning.None? ==> r.None?)
            && (meaning.Some? && sep.kind == ClosedBracket ==> r == Some(Parsed([meaning.value], sep.next)))
            && (meaning.Some? && sep.kind == Comma ==>
                  r == var more := Elements(env, limit, sep.next);
                       if more.None? then None
                       else Some(Parsed([meaning.value] + more.value.value, more.value.next)))
  {
    hide NextToken, Value;
  }

  /** One member, and what a closing brace or a comma behind it makes of the list. */
  lemma OneMember(env: Input, limit: nat, pos: nat, colon: nat, end: nat, meaning: Option<Tree>, sep: Scan)
    requires pos <= limit <= |env.text| && colon <= limit && end <= limit && sep == NextToken(env.text, limit, end)
    requires var key := NextToken(env.text, limit, pos);
             && key.Token? && key.kind == String
             && var tok := NextToken(env.text, limit, key.next); tok.Token? && tok.kind == Colon && tok.next == colon
    requires Value(env, limit, colon) == Told(meaning, end) && sep.Token?
    ensures var r := Members(env, limit, pos);
            var key := Slice(env, NextToken(env.text, limit, pos));
            && (meaning.None? ==> r.None?)
            && (meaning.Some? && sep.kind == ClosedBrace ==>
                  r == Some(Parsed([Member(key, meaning.value)], sep.next)))
            && (meaning.Some? && sep.kind == Comma ==>
                  r == var more := Members(env, limit, sep.next);
                       if more.None? then None
                       else Some(Parsed([Member(key, meaning.value)] + more.value.value, more.value.next)))
  {
    hide NextToken, Value, Slice;
  }

  lemma NothingBehind<T>(t: Option<T>)
    ensures t.Some? ==> [t.value] + [] == [t.value]
  {
  }

  lemma {:induction false} ObjectRead(env: Input, limit: nat, pos: nat, b: seq<Byte>, inside: seq<Byte>,
                                      entries: seq<Entry>)
    requires Blank(b) && Proper(ObjectText(inside, entries))
    requires Here(env.text, pos, b + Spell(ObjectText(inside, entries)))
    requires pos + |b| + |Spell(ObjectText(inside, entries))| <= limit <= |env.text|
    ensures Value(env, limit, pos) == Told(Meaning(env.strtod, ObjectText(inside, entries)),
                                           pos + |b| + |Spell(ObjectText(inside, entries))|)
    ensures NextToken(env.text, limit, pos).Token? && NextToken(env.text, limit, pos).kind == OpenBrace
    decreases entries, 1
  {
    hide Here, NextToken, Members, Elements, SpellEntries, Blank;
    var tail := if entries == [] then inside + [125] else SpellEntries(entries);
    assert b + Spell(ObjectText(inside, entries)) == (b + [123]) + tail;
    HereSplit(env.text, pos, b + [123], tail);
    MarkRead(env.text, limit, pos, b, 123, OpenBrace);
    if entries == [] {
      MarkRead(env.text, limit, pos + |b| + 1, inside, 125, ClosedBrace);
    } else {
      EntriesRead(env, limit, pos + |b| + 1, entries);
    }
  }

  /** A key and its colon, up to the value. */
  lemma KeyHere(env: Input, limit: nat, pos: nat, e: Entry, tail: seq<Byte>)
    requires ProperEntry(e) && limit <= |env.text|
    requires Here(env.text, pos, SpellEntry(e) + tail) && pos + |SpellEntry(e)| <= limit
    ensures ProperSpaced(e.value)
    ensures var key := NextToken(env.text, limit, pos);
            && key.Token? && key.kind == String && key.next <= limit && Slice(env, key) == SpellChars(e.key)
            && var colon := NextToken(env.text, limit, key.next);
               && colon.Token? && colon.kind == Colon
               && colon.next + |SpellSpaced(e.value)| == pos + |SpellEntry(e)|
               && Here(env.text, colon.next, SpellSpaced(e.value) + tail)
  {
    hide Here, NextToken, Spell, Proper, SpellChars, Slice, SpellSpaced;
    LengthOfEntry(e);
    HereEntry(env.text, pos, e, tail);
    StringRead(env.text, limit, pos, e.before, e.key);
    SliceHere(env, NextToken(env.text, limit, pos), SpellChars(e.key));
    MarkRead(env.text, limit, pos + |e.before| + |SpellKey(e)|, e.after, 58, Colon);
  }

  /** One member as written, and what ends it. */
  lemma {:induction false} EntryRead(env: Input, limit: nat, pos: nat, e: Entry, c: Byte, kind: Kind, rest: seq<Byte>)
    requires ProperEntry(e) && limit <= |env.text| && ((c == 125 && kind == ClosedBrace) || (c == 44 && kind == Comma))
    requires Here(env.text, pos, SpellEntry(e) + ([c] + rest)) && pos + |SpellEntry(e)| + 1 + |rest| <= limit
    ensures var first := NextToken(env.text, limit, pos); first.Token? && first.kind == String
    ensures var r, m, end := Members(env, limit, pos), Meaning(env.strtod, e.value.value), pos + |SpellEntry(e)| + 1;
            && Here(env.text, end, rest)
            && (m.None? ==> r.None?)
            && (m.Some? && kind == ClosedBrace ==> r == Some(Parsed([Member(SpellChars(e.key), m.value)], end)))
            && (m.Some? && kind == Comma ==>
                  r == var more := Members(env, limit, end);
                       if more.None? then None
                       else Some(Parsed([Member(SpellChars(e.key), m.value)] + more.value.value, more.value.next)))
    decreases e, 3
  {
    hide Here, NextToken, Value, Spell, Meaning, Proper, SpellChars, Slice, SpellEntry, ProperEntry, SpellSpaced;
    hide ProperSpaced, Stops, Members;
    KeyHere(env, limit, pos, e, [c] + rest);
    var v, start := e.value, NextToken(env.text, limit, NextToken(env.text, limit, pos).next).next;
    ElementHere(env, limit, start, v, c, kind, rest);
    ValueRead(env, limit, start, v.before, v.value);
    var end := start + |v.before| + |Spell(v.value)|;
    OneMember(env, limit, pos, start, end, Meaning(env.strtod, v.value), NextToken(env.text, limit, end));
  }

  lemma {:induction false} EntriesRead(env: Input, limit: nat, pos: nat, entries: seq<Entry>)
    requires entries != [] && (forall i :: 0 <= i < |entries| ==> ProperEntry(entries[i]))
    requires Here(env.text, pos, SpellEntries(entries)) && pos + |SpellEntries(entries)| <= limit <= |env.text|
    ensures Members(env, limit, pos) == Told(EntriesMeaning(env.strtod, entries), pos + |SpellEntries(entries)|)
    ensures var tok := NextToken(env.text, limit, pos); tok.Token? && tok.kind != ClosedBrace
    decreases entries, 0
  {
    hide Here, NextToken, Value, Spell, Meaning, Proper, SpellChars, Slice, SpellEntry, ProperEntry, SpellSpaced;
    hide ProperSpaced, Stops, Members;
    var e := entries[0];
    if |entries| == 1 {
      assert [125] == [125] + [];
      EntryRead(env, limit, pos, e, 125, ClosedBrace, []);
      assert entries[1..] == [] && EntriesMeaning(env.strtod, entries[1..]) == Some([]);
      var m := Meaning(env.strtod, e.value.value);
      NothingBehind(if m.Some? then Some(Member(SpellChars(e.key), m.value)) else None);
    } else {
      EntryRead(env, limit, pos, e, 44, Comma, SpellEntries(entries[1..]));
      EntriesRead(env, limit, pos + |SpellEntry(e)| + 1, entries[1..]);
    }
  }

  // ----- What is read was written -----

  lemma ElementJoins(text: seq<Byte>, pos: nat, v: Spaced, c: Byte, rest: seq<Byte>)
    requires var end := pos + |v.before| + |Spell(v.value)|;
             && Here(text, pos, v.before + Spell(v.value)) && Here(text, end, v.after + [c])
             && Here(text, end + |v.after| + 1, rest)
    ensures Here(text, pos, SpellSpaced(v) + ([c] + rest))
    ensures |SpellSpaced(v)| == |v.before| + |Spell(v.value)| + |v.after|
  {
    hide Here, Spell;
    var end := pos + |v.before| + |Spell(v.value)|;
    HereSplit(text, end, v.after + [c], rest);
    assert v.after + ([c] + rest) == (v.after + [c]) + rest;
    HereSpaced(text, pos, v, [c] + rest);
  }

  lemma AtomWritten(env: Input, limit: nat, pos: nat) returns (s: Spelling)
    requires pos <= limit <= |env.text| && Value(env, limit, pos).Some? && !IsOpen(NextToken(env.text, limit, pos).kind)
    ensures Proper(s)
    ensures var b := SpaceAt(env.text, limit, pos);
            && Here(env.text, pos, b + Spell(s)) && Value(env, limit, pos).value.next == pos + |b| + |Spell(s)|
            && (s.NumberText? ==> Stops(s, env.text, limit, pos + |b| + |Spell(s)|))
  {
    hide Here, NextToken, Stops, SpellNumber, SpellChars, SpaceAt, ProperChars, ProperNumber, Slice;
    hide IntegerValue, DoubleValue, Wrap64;
    var tok := NextToken(env.text, limit, pos);
    if tok.kind == String {
      var cs := StringWritten(env.text, limit, pos);
      s := StringText(cs);
      assert Spell(s) == [34] + (SpellChars(cs) + [34]);
    } else if tok.kind == Kind.Int || tok.kind == Float {
      s := NumberWritten(env.text, limit, pos);
    } else {
      s := if tok.kind == NullWord then NullText else if tok.kind == TrueWord then TrueText else FalseText;
      WordWritten(env.text, limit, pos, s);
    }
  }

  /** Whatever is read as a value is written as one, up to where reading ends. */
  lemma {:induction false} ValueWritten(env: Input, limit: nat, pos: nat) returns (s: Spelling)
    requires pos <= limit <= |env.text| && Value(env, limit, pos).Some?
    ensures Proper(s)
    ensures var b := SpaceAt(env.text, limit, pos);
            && Here(env.text, pos, b + Spell(s)) && Value(env, limit, pos).value.next == pos + |b| + |Spell(s)|
            && (s.NumberText? ==> Stops(s, env.text, limit, pos + |b| + |Spell(s)|))
    decreases limit - pos, 1
  {
    hide Here, NextToken, Elements, Members, Spell, Stops, SpaceAt, Proper;
    var tok := NextToken(env.text, limit, pos);
    if tok.kind == OpenBracket {
      s := ArrayWritten(env, limit, pos);
    } else if tok.kind == OpenBrace {
      s := ObjectWritten(env, limit, pos);
    } else {
      s := AtomWritten(env, limit, pos);
    }
  }

  /** An array behind its opening byte. */
  function ArrayTail(inside: seq<Byte>, elems: seq<Spaced>): seq<Byte> {
    if elems == [] then inside + [93] else SpellElements(elems)
  }

  lemma ArrayJoins(text: seq<Byte>, pos: nat, b: seq<Byte>, inside: seq<Byte>, elems: seq<Spaced>)
    requires Blank(inside) && (forall i :: 0 <= i < |elems| ==> ProperSpaced(elems[i]))
    requires Here(text, pos, b + [91]) && Here(text, pos + |b| + 1, ArrayTail(inside, elems))
    ensures var s := ArrayText(inside, elems);
            Proper(s) && Here(text, pos, b + Spell(s)) && |Spell(s)| == 1 + |ArrayTail(inside, elems)|
  {
    hide Here, SpellElements, Blank, ProperSpaced;
    HereSplit(text, pos, b + [91], ArrayTail(inside, elems));
    assert b + Spell(ArrayText(inside, elems)) == (b + [91]) + ArrayTail(inside, elems);
  }

  lemma {:induction false} ArrayWritten(env: Input, limit: nat, pos: nat) returns (s: Spelling)
    requires pos <= limit <= |env.text| && Value(env, limit, pos).Some?
    requires NextToken(env.text, limit, pos).kind == OpenBracket
    ensures s.ArrayText? && Proper(s)
    ensures var b := SpaceAt(env.text, limit, pos);
            Here(env.text, pos, b + Spell(s)) && Value(env, limit, pos).value.next == pos + |b| + |Spell(s)|
    decreases limit - pos, 0
  {
    hide Here, NextToken, Members, Elements, SpellElements, SpaceAt, Spell, Proper, ProperSpaced;
    MarkWritten(env.text, limit, pos, 91);
    var b, next := SpaceAt(env.text, limit, pos), NextToken(env.text, limit, pos).next;
    var first := NextToken(env.text, limit, next);
    var inside, elems: seq<Spaced> := [], [];
    if first.Token? && first.kind == ClosedBracket {
      MarkWritten(env.text, limit, next, 93);
      inside := SpaceAt(env.text, limit, next);
    } else {
      elems := ElementsWritten(env, limit, next);
    }
    ArrayJoins(env.text, pos, b, inside, elems);
    s := ArrayText(inside, elems);
  }

  lemma {:induction false} ElementsWritten(env: Input, limit: nat, pos: nat) returns (elems: seq<Spaced>)
    requires pos <= limit <= |env.text| && Elements(env, limit, pos).Some?
    ensures elems != [] && (forall i :: 0 <= i < |elems| ==> ProperSpaced(elems[i]))
    ensures Here(env.text, pos, SpellElements(elems))
    ensures Elements(env, limit, pos).value.next == pos + |SpellElements(elems)|
    decreases limit - pos, 2
  {
    hide Here, NextToken, Value, Spell, Proper, Stops, SpaceAt, Blank;
    var next := Value(env, limit, pos).value.next;
    var s := ValueWritten(env, limit, pos);
    var v := Spaced(SpaceAt(env.text, limit, pos), s, SpaceAt(env.text, limit, next));
    var sep := NextToken(env.text, limit, next);
    if sep.kind == ClosedBracket {
      MarkWritten(env.text, limit, next, 93);
      NothingHere(env.text, sep.next);
      ElementJoins(env.text, pos, v, 93, []);
      assert [93] + [] == [93];
      elems := [v];
    } else {
      MarkWritten(env.text, limit, next, 44);
      var rest := ElementsWritten(env, limit, sep.next);
      ElementJoins(env.text, pos, v, 44, SpellElements(rest));
      elems := [v] + rest;
      assert elems[1..] == rest;
    }
  }

  /** An object behind its opening byte. */
  function ObjectTail(inside: seq<Byte>, entries: seq<Entry>): seq<Byte> {
    if entries == [] then inside + [125] else SpellEntries(entries)
  }

  lemma ObjectJoins(text: seq<Byte>, pos: nat, b: seq<Byte>, inside: seq<Byte>, entries: seq<Entry>)
    requires Blank(inside) && (forall i :: 0 <= i < |entries| ==> ProperEntry(entries[i]))
    requires Here(text, pos, b + [123]) && Here(text, pos + |b| + 1, ObjectTail(inside, entries))
    ensures var s := ObjectText(inside, entries);
            Proper(s) && Here(text, pos, b + Spell(s)) && |Spell(s)| == 1 + |ObjectTail(inside, entries)|
  {
    hide Here, SpellEntries, Blank, ProperEntry;
    HereSplit(text, pos, b + [123], ObjectTail(inside, entries));
    assert b + Spell(ObjectText(inside, entries)) == (b + [123]) + ObjectTail(inside, entries);
  }

  lemma {:induction false} ObjectWritten(env: Input, limit: nat, pos: nat) returns (s: Spelling)
    requires pos <= limit <= |env.text| && Value(env, limit, pos).Some?
    requires NextToken(env.text, limit, pos).kind == OpenBrace
    ensures s.ObjectText? && Proper(s)
    ensures var b := SpaceAt(env.text, limit, pos);
            Here(env.text, pos, b + Spell(s)) && Value(env, limit, pos).value.next == pos + |b| + |Spell(s)|
    decreases limit - pos, 0
  {
    hide Here, NextToken, Members, Elements, SpellEntries, SpaceAt, Spell, Proper, ProperEntry;
    MarkWritten(env.text, limit, pos, 123);
    var b, next := SpaceAt(env.text, limit, pos), NextToken(env.text, limit, pos).next;
    var first := NextToken(env.text, limit, next);
    var inside, entries: seq<Entry> := [], [];
    if first.Token? && first.kind == ClosedBrace {
      MarkWritten(env.text, limit, next, 125);
      inside := SpaceAt(env.text, limit, next);
    } else {
      entries := MembersWritten(env, limit, next);
    }
    ObjectJoins(env.text, pos, b, inside, entries);
    s := ObjectText(inside, entries);
  }

  /** A key, its colon and its value, and what ends the member. */
  lemma EntryJoins(text: seq<Byte>, pos: nat, e: Entry, c: Byte, rest: seq<Byte>)
    requires var k := pos + |e.before| + |SpellKey(e)|;
             && Here(text, pos, e.before + SpellKey(e)) && Here(text, k, e.after + [58])
             && Here(text, k + |e.after| + 1, SpellSpaced(e.value) + ([c] + rest))
    ensures Here(text, pos, SpellEntry(e) + ([c] + rest))
    ensures |SpellEntry(e)| == |e.before| + |SpellKey(e)| + |e.after| + 1 + |SpellSpaced(e.value)|
  {
    hide Here, SpellSpaced, SpellChars, SpellEntry;
    HereEntry(text, pos, e, [c] + rest);
    LengthOfEntry(e);
  }

  /** A member up to its value's end, and the space behind it. */
  lemma {:induction false} MemberWritten(env: Input, limit: nat, pos: nat) returns (e: Entry, end: nat)
    requires pos <= limit <= |env.text| && Members(env, limit, pos).Some?
    ensures ProperEntry(e) && pos < end <= limit
    ensures var k := pos + |e.before| + |SpellKey(e)|;
            && Here(env.text, pos, e.before + SpellKey(e)) && Here(env.text, k, e.after + [58])
            && Here(env.text, k + |e.after| + 1, e.value.before + Spell(e.value.value))
            && end == k + |e.after| + 1 + |e.value.before| + |Spell(e.value.value)|
            && e.value.after == SpaceAt(env.text, limit, end)
    ensures var sep, r := NextToken(env.text, limit, end), Members(env, limit, pos).value;
            && sep.Token?
            && (sep.kind == ClosedBrace ==> r.next == sep.next)
            && (sep.kind != ClosedBrace ==>
                  && sep.kind == Comma && Members(env, limit, sep.next).Some?
                  && Members(env, limit, sep.next).value.next == r.next)
    decreases limit - pos, 2
  {
    hide Here, NextToken, Value, Spell, Proper, Stops, SpaceAt, Blank, SpellChars, ProperChars;
    var cs := StringWritten(env.text, limit, pos);
    var k := NextToken(env.text, limit, pos).next;
    MarkWritten(env.text, limit, k, 58);
    var start := NextToken(env.text, limit, k).next;
    end := Value(env, limit, start).value.next;
    var s := ValueWritten(env, limit, start);
    var v := Spaced(SpaceAt(env.text, limit, start), s, SpaceAt(env.text, limit, end));
    e := Entry(SpaceAt(env.text, limit, pos), cs, SpaceAt(env.text, limit, k), v);
  }

  lemma {:induction false} MembersWritten(env: Input, limit: nat, pos: nat) returns (entries: seq<Entry>)
    requires pos <= limit <= |env.text| && Members(env, limit, pos).Some?
    ensures entries != [] && (forall i :: 0 <= i < |entries| ==> ProperEntry(entries[i]))
    ensures Here(env.text, pos, SpellEntries(entries))
    ensures Members(env, limit, pos).value.next == pos + |SpellEntries(entries)|
    decreases limit - pos, 3
  {
    hide Here, NextToken, Members, Spell, ProperEntry, SpaceAt, SpellKey, SpellEntry, SpellSpaced;
    var e, end := MemberWritten(env, limit, pos);
    var start := pos + |e.before| + |SpellKey(e)| + |e.after| + 1;
    var sep := NextToken(env.text, limit, end);
    if sep.kind == ClosedBrace {
      MarkWritten(env.text, limit, end, 125);
      NothingHere(env.text, sep.next);
      ElementJoins(env.text, start, e.value, 125, []);
      EntryJoins(env.text, pos, e, 125, []);
      assert [125] + [] == [125];
      entries := [e];
    } else {
      MarkWritten(env.text, limit, end, 44);
      var rest := MembersWritten(env, limit, sep.next);
      ElementJoins(env.text, start, e.value, 44, SpellEntries(rest));
      EntryJoins(env.text, pos, e, 44, SpellEntries(rest));
      entries := [e] + rest;
      assert entries[1..] == rest;
    }
  }

  // ----- Exactly what is written -----

  /** Space and a value, and nothing behind them that would belong to it. */
  ghost predicate WrittenAt(env: Input, limit: nat, pos: nat, b: seq<Byte>, s: Spelling)
    requires limit <= |env.text|
  {
    var end := pos + |b| + |Spell(s)|;
    Blank(b) && Proper(s) && Here(env.text, pos, b + Spell(s)) && end <= limit
    && (s.NumberText? ==> Stops(s, env.text, limit, end))
  }

  /** A value is read exactly where one is written, and as what the writing means. So no writing has two meanings. */
  lemma ReadAsWritten(env: Input, limit: nat, pos: nat)
    requires pos <= limit <= |env.text|
    ensures forall b, s :: WrittenAt(env, limit, pos, b, s) ==>
              Value(env, limit, pos) == Told(Meaning(env.strtod, s), pos + |b| + |Spell(s)|)
    ensures Value(env, limit, pos).Some? ==>
              exists b, s :: WrittenAt(env, limit, pos, b, s) && Meaning(env.strtod, s).Some?
  {
    hide Value, Here, Spell, Proper, Stops, Blank, Meaning, SpaceAt;
    forall b, s | WrittenAt(env, limit, pos, b, s)
      ensures Value(env, limit, pos) == Told(Meaning(env.strtod, s), pos + |b| + |Spell(s)|)
    {
      ValueRead(env, limit, pos, b, s);
    }
    if Value(env, limit, pos).Some? {
      var s := ValueWritten(env, limit, pos);
      var b := SpaceAt(env.text, limit, pos);
      ValueRead(env, limit, pos, b, s);
      assert WrittenAt(env, limit, pos, b, s);
    }
  }

  /** The end of the input is reached exactly behind space. */
  lemma EndOfSpace(text: seq<Byte>, limit: nat, pos: nat)
    requires pos <= limit <= |text|
    ensures var tok := NextToken(text, limit, pos);
            tok.Token? && tok.kind == Eof <==> Blank(text[pos..limit])
  {
    hide ScanNumber, CloseQuote, Spells;
    var b := SpaceAt(text, limit, pos);
    if Blank(text[pos..limit]) {
      BlankSkipped(text, limit, pos, text[pos..limit]);
    } else {
      assert b != text[pos..limit];
    }
  }

  /** A document is nothing but space, or a value with anything behind it. */
  lemma DocumentAsWritten(env: Input, limit: nat)
    requires limit <= |env.text|
    ensures Blank(env.text[..limit]) ==> Root(env, limit, 0) == Some(Parsed(None, limit))
    ensures forall b, s :: WrittenAt(env, limit, 0, b, s) ==>
              var t := Meaning(env.strtod, s);
              Root(env, limit, 0) == if t.Some? then Some(Parsed(Some(t.value), |b| + |Spell(s)|)) else None
    ensures Root(env, limit, 0).Some? ==>
              Blank(env.text[..limit])
              || exists b, s :: WrittenAt(env, limit, 0, b, s) && Meaning(env.strtod, s).Some?
  {
    hide NextToken, Value, Spell, Blank, Meaning, WrittenAt;
    assert env.text[0..limit] == env.text[..limit];
    EndOfSpace(env.text, limit, 0);
    ReadAsWritten(env, limit, 0);
    forall b, s | WrittenAt(env, limit, 0, b, s)
      ensures var t := Meaning(env.strtod, s);
              Root(env, limit, 0) == if t.Some? then Some(Parsed(Some(t.value), |b| + |Spell(s)|)) else None
    {
      WrittenDocument(env, limit, b, s);
    }
  }

  lemma WrittenDocument(env: Input, limit: nat, b: seq<Byte>, s: Spelling)
    requires limit <= |env.text| && WrittenAt(env, limit, 0, b, s)
    ensures var t := Meaning(env.strtod, s);
            Root(env, limit, 0) == if t.Some? then Some(Parsed(Some(t.value), |b| + |Spell(s)|)) else None
  {
    hide NextToken, Value, Here, Spell, Proper, Stops, Blank, Meaning;
    ValueRead(env, limit, 0, b, s);
  }

  // ----- Printing and reading back -----

  function DigitsOf(n: nat): seq<Byte> {
    if n < 10 then [48 + n] else DigitsOf(n / 10) + [48 + n % 10]
  }

  lemma {:induction false} DigitsMean(n: nat)
    ensures DigitsOf(n) != [] && Digits(DigitsOf(n)) && Positional(DigitsOf(n)) == n
  {
    if n < 10 {
      PositionalAppend([], 48 + n);
      assert [] + [48 + n] == DigitsOf(n);
    } else {
      DigitsMean(n / 10);
      PositionalAppend(DigitsOf(n / 10), 48 + n % 10);
    }
  }

  /** A string that can stand between quotes. */
  predicate Quotable(s: seq<Byte>) {
    || s == []
    || (s[0] == 92 && |s| > 1 && Quotable(s[2..]))
    || (s[0] != 34 && s[0] != 92 && Quotable(s[1..]))
  }

  function CharactersOf(s: seq<Byte>): (cs: seq<Character>)
    requires Quotable(s)
    ensures ProperChars(cs) && SpellChars(cs) == s
  {
    if s == [] then []
    else if s[0] == 92 then
      var rest := CharactersOf(s[2..]);
      assert s == [92, s[1]] + s[2..] && ([Escaped(s[1])] + rest)[1..] == rest;
      [Escaped(s[1])] + rest
    else
      var rest := CharactersOf(s[1..]);
      assert s == [s[0]] + s[1..] && ([Plain(s[0])] + rest)[1..] == rest;
      [Plain(s[0])] + rest
  }

  /** Values without floats and handles, with integers of 64 bits and strings that can be quoted. */
  predicate Printable(t: Tree) {
    match t
    case Int(n) => -0x8000_0000_0000_0000 <= n < 0x8000_0000_0000_0000
    case Str(s) => Quotable(s)
    case Arr(elems) => forall i :: 0 <= i < |elems| ==> Printable(elems[i])
    case Obj(kvs) => forall i :: 0 <= i < |kvs| ==> Quotable(kvs[i].key) && Printable(kvs[i].value)
    case Double(_) => false
    case Ref(_, _, _) => false
    case _ => true
  }

  /** The value without any space, integers in decimal. */
  function Printed(t: Tree): Spelling
    requires Printable(t)
  {
    match t
    case Null => NullText
    case Bool(b) => if b then TrueText else FalseText
    case Int(n) => NumberText(n < 0, DigitsOf(if n < 0 then -n else n), None, None)
    case Str(s) => StringText(CharactersOf(s))
    case Arr(elems) =>
      ArrayText([], seq(|elems|, i requires 0 <= i < |elems| => Spaced([], Printed(elems[i]), [])))
    case Obj(kvs) =>
      ObjectText([], seq(|kvs|, i requires 0 <= i < |kvs| =>
        Entry([], CharactersOf(kvs[i].key), [], Spaced([], Printed(kvs[i].value), []))))
  }

  lemma {:induction false} PrintedMeans(strtod: seq<Byte> -> Option<Word>, t: Tree)
    requires Printable(t)
    ensures Proper(Printed(t)) && Meaning(strtod, Printed(t)) == Some(t)
  {
    match t
    case Int(n) => DigitsMean(if n < 0 then -n else n);
    case Arr(elems) =>
      forall i | 0 <= i < |elems|
        ensures Proper(Printed(elems[i])) && Meaning(strtod, Printed(elems[i])) == Some(elems[i])
      {
        PrintedMeans(strtod, elems[i]);
      }
      ElementsMean(strtod, Printed(t).elems, elems);
    case Obj(kvs) =>
      forall i | 0 <= i < |kvs|
        ensures Proper(Printed(kvs[i].value)) && Meaning(strtod, Printed(kvs[i].value)) == Some(kvs[i].value)
      {
        PrintedMeans(strtod, kvs[i].value);
      }
      EntriesMean(strtod, Printed(t).entries, kvs);
    case _ =>
  }

  lemma {:induction false} ElementsMean(strtod: seq<Byte> -> Option<Word>, elems: seq<Spaced>, ts: seq<Tree>)
    requires |elems| == |ts| && forall i :: 0 <= i < |ts| ==> Meaning(strtod, elems[i].value) == Some(ts[i])
    ensures ElementsMeaning(strtod, elems) == Some(ts)
    decreases |ts|
  {
    hide Meaning;
    if ts != [] {
      ElementsMean(strtod, elems[1..], ts[1..]);
      assert ts == [ts[0]] + ts[1..];
    }
  }

  lemma {:induction false} EntriesMean(strtod: seq<Byte> -> Option<Word>, entries: seq<Entry>, ms: seq<Member>)
    requires |entries| == |ms|
    requires forall i :: 0 <= i < |ms| ==>
      SpellChars(entries[i].key) == ms[i].key && Meaning(strtod, entries[i].value.value) == Some(ms[i].value)
    ensures EntriesMeaning(strtod, entries) == Some(ms)
    decreases |ms|
  {
    hide Meaning, SpellChars;
    if ms != [] {
      EntriesMean(strtod, entries[1..], ms[1..]);
      assert ms == [ms[0]] + ms[1..];
    }
  }

  /** The printed text of a value is read as that value. */
  lemma PrintedIsRead(strtod: seq<Byte> -> Option<Word>, t: Tree)
    requires Printable(t)
    ensures var text := Spell(Printed(t)); Root(Input(text, strtod), |text|, 0) == Some(Parsed(Some(t), |text|))
  {
    hide NextToken, Value, Spell, Proper, Meaning, Printed, Printable, Root;
    var s := Printed(t);
    var env := Input(Spell(s), strtod);
    PrintedMeans(strtod, t);
    assert [] + Spell(s) == Spell(s) && env.text[0..|Spell(s)|] == Spell(s);
    assert WrittenAt(env, |Spell(s)|, 0, [], s);
    DocumentAsWritten(env, |Spell(s)|);
  }
}
