/** The tokens of a text against how tokens are written. */
module Lexing {
  import opened Bytes
  import opened Tokenizer
  import opened Spelling

  // ----- Places in a text -----

  predicate Here(text: seq<Byte>, p: nat, s: seq<Byte>) {
    p + |s| <= |text| && text[p..p + |s|] == s
  }

  lemma HereSplit(text: seq<Byte>, p: nat, a: seq<Byte>, b: seq<Byte>)
    ensures Here(text, p, a + b) <==> Here(text, p, a) && Here(text, p + |a|, b)
  {
    if p + |a| + |b| <= |text| {
      assert text[p..p + |a + b|] == text[p..p + |a|] + text[p + |a|..p + |a| + |b|];
      if text[p..p + |a + b|] == a + b {
        assert text[p..p + |a|] == (a + b)[..|a|] == a;
        assert text[p + |a|..p + |a| + |b|] == (a + b)[|a|..] == b;
      }
    }
  }

  lemma HereByte(text: seq<Byte>, p: nat, c: Byte)
    ensures Here(text, p, [c]) <==> p < |text| && text[p] == c
  {
  }

  // ----- Space -----

  /** Space up to something else, or to the end. */
  lemma BlankSkipped(text: seq<Byte>, limit: nat, pos: nat, b: seq<Byte>)
    requires Blank(b) && Here(text, pos, b) && pos + |b| <= limit <= |text|
    requires pos + |b| < limit ==> text[pos + |b|] !in {9, 10, 11, 12, 13, 32}
    ensures SkipSpace(text, limit, pos) == pos + |b|
  {
    forall i | pos <= i < pos + |b| ensures IsSpace(text[i]) {
      HereAt(text, pos, b, i - pos);
    }
  }

  lemma HereAt(text: seq<Byte>, p: nat, s: seq<Byte>, k: nat)
    requires Here(text, p, s) && k < |s|
    ensures p + k < |text| && text[p + k] == s[k]
  {
    assert text[p..p + |s|][k] == text[p + k];
  }

  /** The space that is skipped. */
  function SpaceAt(text: seq<Byte>, limit: nat, pos: nat): (b: seq<Byte>)
    requires pos <= limit <= |text|
    ensures Blank(b) && Here(text, pos, b) && pos + |b| == SkipSpace(text, limit, pos) <= limit
  {
    text[pos..SkipSpace(text, limit, pos)]
  }

  // ----- Brackets, braces, commas and colons -----

  predicate IsMark(kind: Kind, c: Byte) {
    || (kind == OpenBracket && c == 91) || (kind == ClosedBracket && c == 93)
    || (kind == OpenBrace && c == 123) || (kind == ClosedBrace && c == 125)
    || (kind == Comma && c == 44) || (kind == Colon && c == 58)
  }

  lemma MarkRead(text: seq<Byte>, limit: nat, pos: nat, b: seq<Byte>, c: Byte, kind: Kind)
    requires Blank(b) && Here(text, pos, b + [c]) && pos + |b| < limit <= |text| && IsMark(kind, c)
    ensures NextToken(text, limit, pos) == Token(kind, pos + |b|, 1, pos + |b| + 1)
  {
    HereSplit(text, pos, b, [c]);
    BlankSkipped(text, limit, pos, b);
  }

  /** Where a token of this kind is, the byte is there. */
  lemma MarkWritten(text: seq<Byte>, limit: nat, pos: nat, c: Byte)
    requires pos <= limit <= |text|
    requires var tok := NextToken(text, limit, pos); tok.Token? && IsMark(tok.kind, c)
    ensures var tok, b := NextToken(text, limit, pos), SpaceAt(text, limit, pos);
            tok == Token(tok.kind, pos + |b|, 1, pos + |b| + 1) && Here(text, pos, b + [c])
  {
    var b := SpaceAt(text, limit, pos);
    HereSplit(text, pos, b, [c]);
  }

  // ----- Words -----

  function WordKind(s: Spelling): Kind
    requires s.NullText? || s.TrueText? || s.FalseText?
  {
    if s.NullText? then NullWord else if s.TrueText? then TrueWord else FalseWord
  }

  lemma WordRead(text: seq<Byte>, limit: nat, pos: nat, b: seq<Byte>, s: Spelling)
    requires s.NullText? || s.TrueText? || s.FalseText?
    requires Blank(b) && Here(text, pos, b + Spell(s)) && pos + |b| + |Spell(s)| <= limit <= |text|
    ensures NextToken(text, limit, pos)
         == Token(WordKind(s), pos + |b|, |Spell(s)|, pos + |b| + |Spell(s)|)
  {
    var p := pos + |b|;
    HereSplit(text, pos, b, Spell(s));
    forall i | 0 <= i < |Spell(s)| ensures text[p + i] == Spell(s)[i] {
      assert text[p..p + |Spell(s)|][i] == text[p + i];
    }
    BlankSkipped(text, limit, pos, b);
  }

  lemma WordWritten(text: seq<Byte>, limit: nat, pos: nat, s: Spelling)
    requires s.NullText? || s.TrueText? || s.FalseText?
    requires pos <= limit <= |text|
    requires var tok := NextToken(text, limit, pos); tok.Token? && tok.kind == WordKind(s)
    ensures var tok, b := NextToken(text, limit, pos), SpaceAt(text, limit, pos);
            && tok == Token(WordKind(s), pos + |b|, |Spell(s)|, pos + |b| + |Spell(s)|)
            && Here(text, pos, b + Spell(s))
  {
    var b := SpaceAt(text, limit, pos);
    var p := pos + |b|;
    assert text[p..p + |Spell(s)|] == Spell(s);
    HereSplit(text, pos, b, Spell(s));
  }

  // ----- Strings -----

  lemma {:induction false} CharsPassed(text: seq<Byte>, limit: nat, i: nat, cs: seq<Character>)
    requires ProperChars(cs) && Here(text, i, SpellChars(cs)) && i + |SpellChars(cs)| <= limit <= |text|
    ensures CloseQuote(text, limit, i, false) == CloseQuote(text, limit, i + |SpellChars(cs)|, false)
    decreases |cs|
  {
    hide Here;
    if cs != [] {
      var first := if cs[0].Plain? then [cs[0].b] else [92, cs[0].b];
      HereSplit(text, i, first, SpellChars(cs[1..]));
      HereAt(text, i, first, 0);
      if cs[0].Escaped? {
        HereAt(text, i, first, 1);
      }
      CharsPassed(text, limit, i + |first|, cs[1..]);
    }
  }

  /** A string closes at the first quote that stands for itself. */
  lemma StringCloses(text: seq<Byte>, limit: nat, i: nat, cs: seq<Character>)
    requires ProperChars(cs) && Here(text, i, SpellChars(cs) + [34]) && i + |SpellChars(cs)| < limit <= |text|
    ensures CloseQuote(text, limit, i, false) == i + |SpellChars(cs)|
  {
    HereSplit(text, i, SpellChars(cs), [34]);
    CharsPassed(text, limit, i, cs);
  }

  /** What lies before the closing quote is the characters of a string. */
  lemma {:induction false} CharsOf(text: seq<Byte>, limit: nat, i: nat) returns (cs: seq<Character>)
    requires i <= limit <= |text| && CloseQuote(text, limit, i, false) < limit
    ensures ProperChars(cs) && CloseQuote(text, limit, i, false) == i + |SpellChars(cs)|
    ensures Here(text, i, SpellChars(cs) + [34])
    decreases limit - i
  {
    hide Here;
    if text[i] == 34 {
      cs := [];
      HereByte(text, i, 34);
      assert SpellChars(cs) + [34] == [34];
    } else if text[i] == 92 {
      cs := CharsOf(text, limit, i + 2);
      PairHere(text, i);
      OneCharacter(text, i, Escaped(text[i + 1]), cs);
      cs := [Escaped(text[i + 1])] + cs;
    } else {
      cs := CharsOf(text, limit, i + 1);
      HereByte(text, i, text[i]);
      OneCharacter(text, i, Plain(text[i]), cs);
      cs := [Plain(text[i])] + cs;
    }
  }

  lemma PairHere(text: seq<Byte>, i: nat)
    requires i + 1 < |text|
    ensures Here(text, i, [text[i], text[i + 1]])
  {
  }

  lemma OneCharacter(text: seq<Byte>, i: nat, c: Character, cs: seq<Character>)
    requires var bytes := if c.Plain? then [c.b] else [92, c.b];
             Here(text, i, bytes) && Here(text, i + |bytes|, SpellChars(cs) + [34])
    ensures |SpellChars([c] + cs)| == |SpellChars(cs)| + (if c.Plain? then 1 else 2)
    ensures Here(text, i, SpellChars([c] + cs) + [34])
  {
    hide Here;
    var bytes := if c.Plain? then [c.b] else [92, c.b];
    assert ([c] + cs)[1..] == cs;
    HereSplit(text, i, bytes, SpellChars(cs) + [34]);
    assert SpellChars([c] + cs) + [34] == bytes + (SpellChars(cs) + [34]);
  }

  lemma StringRead(text: seq<Byte>, limit: nat, pos: nat, b: seq<Byte>, cs: seq<Character>)
    requires Blank(b) && ProperChars(cs) && Here(text, pos, b + ([34] + (SpellChars(cs) + [34])))
    requires pos + |b| + |SpellChars(cs)| + 2 <= limit <= |text|
    ensures NextToken(text, limit, pos)
         == Token(String, pos + |b| + 1, |SpellChars(cs)|, pos + |b| + |SpellChars(cs)| + 2)
    ensures Here(text, pos + |b| + 1, SpellChars(cs))
  {
    hide Here, SpellChars, CloseQuote, ScanNumber, Spells;
    var p := pos + |b|;
    HereSplit(text, pos, b, [34] + (SpellChars(cs) + [34]));
    HereSplit(text, p, [34], SpellChars(cs) + [34]);
    HereSplit(text, p + 1, SpellChars(cs), [34]);
    HereByte(text, p, 34);
    BlankSkipped(text, limit, pos, b);
    StringCloses(text, limit, p + 1, cs);
  }

  lemma StringWritten(text: seq<Byte>, limit: nat, pos: nat) returns (cs: seq<Character>)
    requires pos <= limit <= |text|
    requires var tok := NextToken(text, limit, pos); tok.Token? && tok.kind == String
    ensures ProperChars(cs)
    ensures var tok, b := NextToken(text, limit, pos), SpaceAt(text, limit, pos);
            && tok == Token(String, pos + |b| + 1, |SpellChars(cs)|, pos + |b| + |SpellChars(cs)| + 2)
            && Here(text, pos, b + ([34] + (SpellChars(cs) + [34]))) && Here(text, pos + |b| + 1, SpellChars(cs))
  {
    hide Here, SpellChars, ScanNumber, Spells;
    var b := SpaceAt(text, limit, pos);
    var p := pos + |b|;
    HereByte(text, p, 34);
    cs := CharsOf(text, limit, p + 1);
    HereSplit(text, p + 1, SpellChars(cs), [34]);
    HereSplit(text, p, [34], SpellChars(cs) + [34]);
    HereSplit(text, pos, b, [34] + (SpellChars(cs) + [34]));
  }

  // ----- Numbers -----

  /** What follows does not belong to the number. A sign belongs to one that ends with its `e`. */
  predicate Stops(s: Spelling, text: seq<Byte>, limit: nat, end: nat)
    requires s.NumberText? && end <= limit <= |text|
  {
    end < limit ==>
      var c := text[end];
      && !(48 <= c <= 57) && c != 46 && c != 101 && c != 69
      && (c == 43 || c == 45 ==> !MarkLast(s))
  }

  predicate MarkLast(s: Spelling)
    requires s.NumberText?
  {
    s.exponent.Some? && s.exponent.value.sign.None? && s.exponent.value.digits == []
  }

  /** A second dot, a dot in the exponent, or a second exponent. */
  predicate Garbles(s: Spelling, text: seq<Byte>, limit: nat, end: nat)
    requires s.NumberText? && end <= limit <= |text|
  {
    && end < limit
    && (|| (text[end] == 46 && (s.fraction.Some? || s.exponent.Some?))
        || ((text[end] == 101 || text[end] == 69) && s.exponent.Some?))
  }

  lemma {:induction false} DigitsPassed(text: seq<Byte>, limit: nat, i: nat, ds: seq<Byte>, dot: bool, exponent: bool,
                                        signAllowed: bool)
    requires Digits(ds) && Here(text, i, ds) && i + |ds| <= limit <= |text|
    ensures ScanNumber(text, limit, i, dot, exponent, signAllowed)
         == ScanNumber(text, limit, i + |ds|, dot, exponent, signAllowed && ds == [])
    decreases |ds|
  {
    hide Here;
    if ds != [] {
      assert ds == [ds[0]] + ds[1..];
      HereSplit(text, i, [ds[0]], ds[1..]);
      HereByte(text, i, ds[0]);
      DigitsPassed(text, limit, i + 1, ds[1..], dot, exponent, false);
    }
  }

  /** The part of a number behind its whole digits. */
  function SpellFraction(s: Spelling): seq<Byte>
    requires s.NumberText?
  {
    if s.fraction.Some? then [46] + s.fraction.value else []
  }

  function SpellMark(s: Spelling): seq<Byte>
    requires s.NumberText?
  {
    if s.exponent.Some? then SpellExponent(s.exponent.value) else []
  }

  lemma FractionPassed(text: seq<Byte>, limit: nat, i: nat, s: Spelling)
    requires s.NumberText? && NumberParts(s) && Here(text, i, SpellFraction(s))
    requires i + |SpellFraction(s)| <= limit <= |text|
    ensures ScanNumber(text, limit, i, false, false, false)
         == ScanNumber(text, limit, i + |SpellFraction(s)|, s.fraction.Some?, false, false)
  {
    hide Here;
    if s.fraction.Some? {
      HereSplit(text, i, [46], s.fraction.value);
      HereByte(text, i, 46);
      DigitsPassed(text, limit, i + 1, s.fraction.value, true, false, false);
    }
  }

  /** Behind the mark of an exponent: perhaps a sign, and digits. */
  lemma SignPassed(text: seq<Byte>, limit: nat, i: nat, e: Exponent, dot: bool)
    requires ProperExponent(e) && i < limit <= |text|
    requires Here(text, i, SpellExponent(e)) && i + |SpellExponent(e)| <= limit
    ensures ScanNumber(text, limit, i + 1, dot, true, true)
         == ScanNumber(text, limit, i + |SpellExponent(e)|, dot, true, e.sign.None? && e.digits == [])
  {
    hide Here;
    var sign := if e.sign.Some? then [e.sign.value] else [];
    assert SpellExponent(e) == [e.mark] + (sign + e.digits);
    HereSplit(text, i, [e.mark], sign + e.digits);
    HereSplit(text, i + 1, sign, e.digits);
    if e.sign.Some? {
      HereByte(text, i + 1, e.sign.value);
    }
    DigitsPassed(text, limit, i + 1 + |sign|, e.digits, dot, true, e.sign.None?);
  }

  lemma ExponentPassed(text: seq<Byte>, limit: nat, i: nat, s: Spelling, dot: bool)
    requires s.NumberText? && NumberParts(s) && Here(text, i, SpellMark(s)) && i + |SpellMark(s)| <= limit <= |text|
    ensures ScanNumber(text, limit, i, dot, false, false)
         == ScanNumber(text, limit, i + |SpellMark(s)|, dot, s.exponent.Some?, MarkLast(s))
  {
    hide Here;
    if s.exponent.Some? {
      var e := s.exponent.value;
      HereAt(text, i, SpellMark(s), 0);
      SignPassed(text, limit, i, e, dot);
    }
  }

  /** The scan gets through the parts of a number, and knows at their end which of them there were. */
  lemma NumberPassed(text: seq<Byte>, limit: nat, p: nat, s: Spelling)
    requires s.NumberText? && NumberParts(s) && Here(text, p, SpellNumber(s))
    requires p + |SpellNumber(s)| <= limit <= |text|
    ensures |SpellNumber(s)| > 0 && (text[p] == 45 || 48 <= text[p] <= 57)
    ensures ScanNumber(text, limit, p + 1, false, false, false)
         == ScanNumber(text, limit, p + |SpellNumber(s)|, s.fraction.Some?, s.exponent.Some?, MarkLast(s))
  {
    hide Here, SpellExponent, ScanNumber;
    var minus := if s.minus then [45] else [];
    var whole := minus + s.whole;
    var first, digits := whole[0], whole[1..];
    assert whole == [first] + digits;
    assert SpellNumber(s) == [first] + (digits + (SpellFraction(s) + SpellMark(s)));
    HereSplit(text, p, [first], digits + (SpellFraction(s) + SpellMark(s)));
    HereSplit(text, p + 1, digits, SpellFraction(s) + SpellMark(s));
    HereSplit(text, p + |whole|, SpellFraction(s), SpellMark(s));
    HereByte(text, p, first);
    DigitsPassed(text, limit, p + 1, digits, false, false, false);
    FractionPassed(text, limit, p + |whole|, s);
    ExponentPassed(text, limit, p + |whole| + |SpellFraction(s)|, s, s.fraction.Some?);
  }

  lemma LastOfNumber(s: Spelling)
    requires s.NumberText? && NumberParts(s)
    ensures var n := SpellNumber(s); |n| > 0 && (n[|n| - 1] == 43 || n[|n| - 1] == 45 <==> SignLast(s))
  {
  }

  /** A number is one token up to its end, and a float exactly if it has a dot or an exponent. */
  lemma NumberRead(text: seq<Byte>, limit: nat, pos: nat, b: seq<Byte>, s: Spelling)
    requires s.NumberText? && ProperNumber(s) && Blank(b) && Here(text, pos, b + SpellNumber(s))
    requires pos + |b| + |SpellNumber(s)| <= limit <= |text| && Stops(s, text, limit, pos + |b| + |SpellNumber(s)|)
    ensures NextToken(text, limit, pos) ==
      Token(if s.fraction.Some? || s.exponent.Some? then Float else Int,
            pos + |b|, |SpellNumber(s)|, pos + |b| + |SpellNumber(s)|)
  {
    hide Here, SpellNumber;
    HereSplit(text, pos, b, SpellNumber(s));
    var p, end := pos + |b|, pos + |b| + |SpellNumber(s)|;
    NumberPassed(text, limit, p, s);
    LastOfNumber(s);
    HereAt(text, p, SpellNumber(s), |SpellNumber(s)| - 1);
    BlankSkipped(text, limit, pos, b);
  }

  /** A final sign, a second dot and a second exponent are errors. */
  lemma NumberRefused(text: seq<Byte>, limit: nat, pos: nat, b: seq<Byte>, s: Spelling)
    requires s.NumberText? && NumberParts(s) && Blank(b) && Here(text, pos, b + SpellNumber(s))
    requires pos + |b| + |SpellNumber(s)| <= limit <= |text|
    requires var end := pos + |b| + |SpellNumber(s)|;
             (SignLast(s) && Stops(s, text, limit, end)) || Garbles(s, text, limit, end)
    ensures NextToken(text, limit, pos).Bad?
  {
    hide Here, SpellNumber;
    HereSplit(text, pos, b, SpellNumber(s));
    var p, end := pos + |b|, pos + |b| + |SpellNumber(s)|;
    NumberPassed(text, limit, p, s);
    LastOfNumber(s);
    HereAt(text, p, SpellNumber(s), |SpellNumber(s)| - 1);
    BlankSkipped(text, limit, pos, b);
  }

  // ----- Every number has its parts -----

  lemma {:induction false} DigitsFrom(text: seq<Byte>, limit: nat, i: nat) returns (ds: seq<Byte>)
    requires i <= limit <= |text|
    ensures Digits(ds) && Here(text, i, ds) && i + |ds| <= limit
    ensures ds == [] ==> i == limit || !(48 <= text[i] <= 57)
    ensures i + |ds| < limit ==> !(48 <= text[i + |ds|] <= 57)
    decreases limit - i
  {
    if i < limit && 48 <= text[i] <= 57 {
      ds := DigitsFrom(text, limit, i + 1);
      HereSplit(text, i, [text[i]], ds);
      ds := [text[i]] + ds;
    } else {
      ds := [];
    }
  }

  lemma NothingHere(text: seq<Byte>, p: nat)
    requires p <= |text|
    ensures Here(text, p, [])
  {
  }

  lemma FractionFrom(text: seq<Byte>, limit: nat, i: nat) returns (fraction: Option<seq<Byte>>, f: seq<Byte>)
    requires i <= limit <= |text| && (i < limit ==> !(48 <= text[i] <= 57))
    ensures fraction.Some? ==> Digits(fraction.value)
    ensures f == if fraction.Some? then [46] + fraction.value else []
    ensures Here(text, i, f) && i + |f| <= limit
    ensures i + |f| < limit ==> !(48 <= text[i + |f|] <= 57) && (text[i + |f|] == 46 ==> fraction.Some?)
  {
    fraction, f := None, [];
    if i < limit && text[i] == 46 {
      var ds := DigitsFrom(text, limit, i + 1);
      HereSplit(text, i, [46], ds);
      fraction, f := Some(ds), [46] + ds;
    }
  }

  /** What may stand behind the longest exponent, or where none starts. */
  predicate EndsMark(exponent: Option<Exponent>, c: Byte) {
    && !(48 <= c <= 57)
    && (c == 101 || c == 69 ==> exponent.Some?)
    && (exponent.Some? && exponent.value.sign.None? && exponent.value.digits == [] ==> c != 43 && c != 45)
  }

  lemma ExponentFrom(text: seq<Byte>, limit: nat, i: nat) returns (exponent: Option<Exponent>, e: seq<Byte>)
    requires i <= limit <= |text| && (i < limit ==> !(48 <= text[i] <= 57))
    ensures exponent.Some? ==> ProperExponent(exponent.value)
    ensures e == if exponent.Some? then SpellExponent(exponent.value) else []
    ensures Here(text, i, e) && i + |e| <= limit
    ensures i + |e| < limit ==> EndsMark(exponent, text[i + |e|])
  {
    hide Here, SpellExponent;
    exponent, e := None, [];
    NothingHere(text, i);
    if i < limit && (text[i] == 101 || text[i] == 69) {
      var x := ExponentBehind(text, limit, i);
      exponent, e := Some(x), SpellExponent(x);
    }
  }

  lemma ExponentBehind(text: seq<Byte>, limit: nat, i: nat) returns (e: Exponent)
    requires i < limit <= |text| && (text[i] == 101 || text[i] == 69)
    ensures ProperExponent(e) && Here(text, i, SpellExponent(e)) && i + |SpellExponent(e)| <= limit
    ensures var end := i + |SpellExponent(e)|;
            end < limit ==>
              && !(48 <= text[end] <= 57)
              && (e.sign.None? && e.digits == [] ==> text[end] != 43 && text[end] != 45)
  {
    hide Here;
    var sign := SignAt(text, limit, i + 1);
    var bytes := if sign.Some? then [sign.value] else [];
    var ds := DigitsFrom(text, limit, i + 1 + |bytes|);
    HereByte(text, i, text[i]);
    HereSplit(text, i + 1, bytes, ds);
    HereSplit(text, i, [text[i]], bytes + ds);
    e := Exponent(text[i], sign, ds);
    assert SpellExponent(e) == [text[i]] + (bytes + ds);
  }

  lemma SignAt(text: seq<Byte>, limit: nat, i: nat) returns (sign: Option<Byte>)
    requires i <= limit <= |text|
    ensures sign.Some? ==> (sign.value == 43 || sign.value == 45) && i < limit && Here(text, i, [sign.value])
    ensures sign.None? ==> Here(text, i, []) && (i < limit ==> text[i] != 43 && text[i] != 45)
  {
    sign := if i < limit && (text[i] == 43 || text[i] == 45) then Some(text[i]) else None;
  }

  /** Whole digits, fraction and exponent one behind the other. */
  lemma PartsHere(text: seq<Byte>, p: nat, s: Spelling, whole: seq<Byte>, f: seq<Byte>, e: seq<Byte>)
    requires s.NumberText?
    requires whole == (if s.minus then [45] else []) + s.whole && f == SpellFraction(s) && e == SpellMark(s)
    requires Here(text, p, whole) && Here(text, p + |whole|, f) && Here(text, p + |whole| + |f|, e)
    ensures Here(text, p, SpellNumber(s)) && |SpellNumber(s)| == |whole| + |f| + |e|
  {
    hide Here, SpellExponent;
    HereSplit(text, p, whole, f);
    HereSplit(text, p, whole + f, e);
    assert SpellNumber(s) == whole + f + e;
  }

  /** Perhaps a minus, and all digits behind it. */
  lemma WholeFrom(text: seq<Byte>, limit: nat, p: nat)
    returns (minus: bool, whole: seq<Byte>, all: seq<Byte>)
    requires p < limit <= |text| && (text[p] == 45 || 48 <= text[p] <= 57)
    ensures Digits(whole) && (minus || whole != [])
    ensures all == (if minus then [45] else []) + whole
    ensures Here(text, p, all) && p + |all| <= limit
    ensures p + |all| < limit ==> !(48 <= text[p + |all|] <= 57)
  {
    hide Here, Digits;
    minus := text[p] == 45;
    whole := DigitsFrom(text, limit, if minus then p + 1 else p);
    HereByte(text, p, 45);
    HereSplit(text, p, [45], whole);
    assert [] + whole == whole;
    all := (if minus then [45] else []) + whole;
  }

  lemma EndOfParts(s: Spelling, text: seq<Byte>, limit: nat, i: nat, end: nat, e: seq<Byte>)
    requires s.NumberText? && i <= end <= limit <= |text| && end == i + |e| && e == SpellMark(s)
    requires i < limit ==> text[i] == 46 ==> s.fraction.Some?
    requires end < limit ==> EndsMark(s.exponent, text[end])
    ensures Stops(s, text, limit, end) || Garbles(s, text, limit, end)
  {
    hide SpellExponent;
  }

  /** Where a minus or a digit stands, the longest number from there on either stops or is garbled. */
  lemma NumberFrom(text: seq<Byte>, limit: nat, p: nat) returns (s: Spelling)
    requires p < limit <= |text| && (text[p] == 45 || 48 <= text[p] <= 57)
    ensures s.NumberText? && NumberParts(s) && Here(text, p, SpellNumber(s)) && p + |SpellNumber(s)| <= limit
    ensures Stops(s, text, limit, p + |SpellNumber(s)|) || Garbles(s, text, limit, p + |SpellNumber(s)|)
  {
    hide Here, SpellExponent, SpellNumber, Digits, ProperExponent, Stops, Garbles, EndsMark;
    var minus, whole, all := WholeFrom(text, limit, p);
    var i := p + |all|;
    var fraction, f := FractionFrom(text, limit, i);
    var j := i + |f|;
    var exponent, e := ExponentFrom(text, limit, j);
    var end := j + |e|;
    s := NumberText(minus, whole, fraction, exponent);
    PartsHere(text, p, s, all, f, e);
    EndOfParts(s, text, limit, j, end, e);
    assert p + |SpellNumber(s)| == end;
  }

  /** A number token is the text of a number. */
  lemma NumberWritten(text: seq<Byte>, limit: nat, pos: nat) returns (s: Spelling)
    requires pos <= limit <= |text|
    requires var tok := NextToken(text, limit, pos); tok.Token? && (tok.kind == Int || tok.kind == Float)
    ensures s.NumberText? && ProperNumber(s)
    ensures var tok, b := NextToken(text, limit, pos), SpaceAt(text, limit, pos);
            && Here(text, pos, b + SpellNumber(s)) && tok.next <= limit
            && tok == Token(if s.fraction.Some? || s.exponent.Some? then Float else Int,
                            pos + |b|, |SpellNumber(s)|, pos + |b| + |SpellNumber(s)|)
            && Stops(s, text, limit, tok.next)
  {
    hide Here, SpellNumber, Stops, Garbles, SignLast;
    var b := SpaceAt(text, limit, pos);
    var p := pos + |b|;
    NumberStarts(text, limit, pos);
    s := NumberFrom(text, limit, p);
    HereSplit(text, pos, b, SpellNumber(s));
    if SignLast(s) || Garbles(s, text, limit, p + |SpellNumber(s)|) {
      NumberRefused(text, limit, pos, b, s);
    } else {
      NumberRead(text, limit, pos, b, s);
    }
  }

  lemma NumberStarts(text: seq<Byte>, limit: nat, pos: nat)
    requires pos <= limit <= |text|
    requires var tok := NextToken(text, limit, pos); tok.Token? && (tok.kind == Int || tok.kind == Float)
    ensures var p := pos + |SpaceAt(text, limit, pos)|; p < limit && (text[p] == 45 || 48 <= text[p] <= 57)
  {
    hide ScanNumber;
  }

  // ----- Strings that do not close, and errors -----

  /** These characters, and behind them the closing quote. */
  predicate ClosedBy(text: seq<Byte>, limit: nat, i: nat, cs: seq<Character>) {
    ProperChars(cs) && Here(text, i, SpellChars(cs) + [34]) && i + |SpellChars(cs)| < limit
  }

  ghost predicate Closes(text: seq<Byte>, limit: nat, i: nat) {
    exists cs :: ClosedBy(text, limit, i, cs)
  }

  lemma ClosesOrNot(text: seq<Byte>, limit: nat, i: nat)
    requires i <= limit <= |text|
    ensures forall cs :: ClosedBy(text, limit, i, cs) ==> CloseQuote(text, limit, i, false) == i + |SpellChars(cs)|
    ensures CloseQuote(text, limit, i, false) < limit ==> Closes(text, limit, i)
  {
    hide Here, SpellChars, CloseQuote, ProperChars;
    forall cs | ClosedBy(text, limit, i, cs) ensures CloseQuote(text, limit, i, false) == i + |SpellChars(cs)| {
      StringCloses(text, limit, i, cs);
    }
    if CloseQuote(text, limit, i, false) < limit {
      var cs := CharsOf(text, limit, i);
      assert ClosedBy(text, limit, i, cs);
    }
  }

  /** A worker that takes its chunk to begin inside a string starts behind the quote that closes it, or not at all. */
  lemma StartsBehindString(text: seq<Byte>, limit: nat, pos: nat)
    requires pos <= limit <= |text|
    ensures forall cs :: ClosedBy(text, limit, pos, cs) ==> AfterString(text, limit, pos) == pos + |SpellChars(cs)| + 1
    ensures !Closes(text, limit, pos) ==> AfterString(text, limit, pos) == limit
  {
    hide ClosedBy, SpellChars, CloseQuote;
    ClosesOrNot(text, limit, pos);
    forall cs | ClosedBy(text, limit, pos, cs) ensures pos + |SpellChars(cs)| < limit {
      ClosedWithin(text, limit, pos, cs);
    }
  }

  lemma ClosedWithin(text: seq<Byte>, limit: nat, i: nat, cs: seq<Character>)
    requires ClosedBy(text, limit, i, cs)
    ensures i + |SpellChars(cs)| < limit
  {
  }

  /** The parts of a number that is none: a final sign, a second dot, a second exponent. */
  predicate RefusedBy(text: seq<Byte>, limit: nat, p: nat, s: Spelling)
    requires limit <= |text|
  {
    && s.NumberText? && NumberParts(s) && Here(text, p, SpellNumber(s)) && p + |SpellNumber(s)| <= limit
    && ((SignLast(s) && Stops(s, text, limit, p + |SpellNumber(s)|)) || Garbles(s, text, limit, p + |SpellNumber(s)|))
  }

  /** Nothing that can be written begins there. */
  ghost predicate NoToken(text: seq<Byte>, limit: nat, p: nat)
    requires p < limit <= |text|
  {
    var c := text[p];
    if c == 110 then !(p + 4 <= limit && Here(text, p, Spell(NullText)))
    else if c == 116 then !(p + 4 <= limit && Here(text, p, Spell(TrueText)))
    else if c == 102 then !(p + 5 <= limit && Here(text, p, Spell(FalseText)))
    else if c == 45 || 48 <= c <= 57 then exists s :: RefusedBy(text, limit, p, s)
    else c !in {34, 44, 58, 91, 93, 123, 125}
  }

  /** Behind the space, an error is found exactly where nothing that can be written begins. */
  lemma ErrorsTold(text: seq<Byte>, limit: nat, pos: nat)
    requires pos <= limit <= |text|
    ensures var p := pos + |SpaceAt(text, limit, pos)|;
            NextToken(text, limit, pos).Bad? <==> p < limit && NoToken(text, limit, p)
  {
    hide Here, RefusedBy, Number, CloseQuote, Spells;
    var p := pos + |SpaceAt(text, limit, pos)|;
    if p < limit {
      var c := text[p];
      SpellsHere(text, limit, p, NullText);
      SpellsHere(text, limit, p, TrueText);
      SpellsHere(text, limit, p, FalseText);
      if c == 45 || 48 <= c <= 57 {
        NumberErrors(text, limit, pos);
      }
    }
  }

  lemma SpellsHere(text: seq<Byte>, limit: nat, p: nat, s: Spelling)
    requires limit <= |text|
    ensures Spells(text, limit, p, Spell(s)) <==> p + |Spell(s)| <= limit && Here(text, p, Spell(s))
  {
    var w := Spell(s);
    if p + |w| <= limit && Spells(text, limit, p, w) {
      assert text[p..p + |w|] == w;
    } else if p + |w| <= limit && Here(text, p, w) {
      forall i | 0 <= i < |w| ensures text[p + i] == w[i] {
        HereAt(text, p, w, i);
      }
    }
  }

  lemma NumberErrors(text: seq<Byte>, limit: nat, pos: nat)
    requires pos <= limit <= |text|
    requires var p := pos + |SpaceAt(text, limit, pos)|; p < limit && (text[p] == 45 || 48 <= text[p] <= 57)
    ensures var p := pos + |SpaceAt(text, limit, pos)|;
            NextToken(text, limit, pos).Bad? <==> exists s :: RefusedBy(text, limit, p, s)
  {
    hide Here, SpellNumber, Stops, Garbles, SignLast, NextToken, SpaceAt;
    var b := SpaceAt(text, limit, pos);
    var p := pos + |b|;
    forall s | RefusedBy(text, limit, p, s) ensures NextToken(text, limit, pos).Bad? {
      HereSplit(text, pos, b, SpellNumber(s));
      NumberRefused(text, limit, pos, b, s);
    }
    var s := NumberFrom(text, limit, p);
    HereSplit(text, pos, b, SpellNumber(s));
    if SignLast(s) || Garbles(s, text, limit, p + |SpellNumber(s)|) {
      assert RefusedBy(text, limit, p, s);
    } else {
      NumberRead(text, limit, pos, b, s);
    }
  }

  /** A quote begins a string if one closes, and otherwise takes all that is left. */
  lemma QuoteRead(text: seq<Byte>, limit: nat, pos: nat)
    requires pos <= limit <= |text|
    requires var p := pos + |SpaceAt(text, limit, pos)|; p < limit && text[p] == 34
    ensures var p, tok := pos + |SpaceAt(text, limit, pos)|, NextToken(text, limit, pos);
            if Closes(text, limit, p + 1) then tok.Token? && tok.kind == String
            else tok == Token(UnclosedString, p + 1, limit - p - 1, limit)
  {
    hide ClosedBy, SpellChars, CloseQuote, ScanNumber, Spells;
    var p := pos + |SpaceAt(text, limit, pos)|;
    ClosesOrNot(text, limit, p + 1);
    forall cs | ClosedBy(text, limit, p + 1, cs) ensures p + 1 + |SpellChars(cs)| < limit {
      ClosedWithin(text, limit, p + 1, cs);
    }
  }
}
