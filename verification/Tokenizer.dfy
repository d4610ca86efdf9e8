/** The stateless tokenizer. A slice of the input is the pair of a position and a limit, both counted from the start
    of the one text that every thread parses. */
module Tokenizer {
  import opened Bytes

  datatype Kind =
    | Eof | Int | Float | NullWord | TrueWord | FalseWord | String | UnclosedString | Colon | Comma
    | OpenBracket | ClosedBracket | OpenBrace | ClosedBrace

  /** A token is the text from `start` of `size` bytes; scanning goes on at `next`. */
  datatype Scan = Token(kind: Kind, start: nat, size: nat, next: nat) | Bad

  const QUOTE: Byte := 34
  const PLUS: Byte := 43
  const COMMA: Byte := 44
  const MINUS: Byte := 45
  const DOT: Byte := 46
  const ZERO: Byte := 48
  const COLON: Byte := 58
  const OPEN_BRACKET: Byte := 91
  const BACKSLASH: Byte := 92
  const CLOSED_BRACKET: Byte := 93
  const OPEN_BRACE: Byte := 123
  const CLOSED_BRACE: Byte := 125

  /** `isspace` in the C locale. */
  predicate IsSpace(b: Byte) {
    b == 32 || 9 <= b <= 13
  }

  predicate IsDigit(b: Byte) {
    ZERO <= b <= 57
  }

  predicate IsExponent(b: Byte) {
    b == 101 || b == 69
  }

  predicate IsSign(b: Byte) {
    b == PLUS || b == MINUS
  }

  // ----- Specification -----

  function SkipSpace(text: seq<Byte>, limit: nat, pos: nat): (p: nat)
    requires pos <= limit <= |text|
    ensures pos <= p <= limit
    ensures p < limit ==> !IsSpace(text[p])
    ensures forall i :: pos <= i < p ==> IsSpace(text[i])
    decreases limit - pos
  {
    if pos < limit && IsSpace(text[pos]) then SkipSpace(text, limit, pos + 1) else pos
  }

  /** The escape automaton, left to right: where the string closes, or the limit. */
  function CloseQuote(text: seq<Byte>, limit: nat, i: nat, escaped: bool): (q: nat)
    requires i <= limit <= |text|
    ensures i <= q <= limit
    ensures q < limit ==> text[q] == QUOTE
    decreases limit - i
  {
    if i == limit then limit
    else if text[i] == QUOTE && !escaped then i
    else CloseQuote(text, limit, i + 1, text[i] == BACKSLASH && !escaped)
  }

  datatype NumberScan = NumberEnd(end: nat, float: bool) | NumberBad

  /** One pass over the rest of a number: which of '.', 'e' were seen, and whether a sign may follow. */
  function ScanNumber(text: seq<Byte>, limit: nat, i: nat, dot: bool, exponent: bool,
                      signAllowed: bool): (r: NumberScan)
    requires i <= limit <= |text|
    ensures r.NumberEnd? ==> i <= r.end <= limit
    decreases limit - i
  {
    if i == limit then NumberEnd(i, dot || exponent)
    else
      var c := text[i];
      if c == DOT then
        if dot || exponent then NumberBad else ScanNumber(text, limit, i + 1, true, exponent, signAllowed)
      else if IsExponent(c) then
        if exponent then NumberBad else ScanNumber(text, limit, i + 1, dot, true, true)
      else if IsDigit(c) || (IsSign(c) && signAllowed) then
        ScanNumber(text, limit, i + 1, dot, exponent, false)
      else NumberEnd(i, dot || exponent)
  }

  function Number(text: seq<Byte>, limit: nat, p: nat): (r: Scan)
    requires p < limit <= |text|
  {
    match ScanNumber(text, limit, p + 1, false, false, false)
    case NumberBad => Bad
    case NumberEnd(end, float) =>
      if IsSign(text[end - 1]) then Bad
      else Token(if float then Float else Int, p, end - p, end)
  }

  predicate Spells(text: seq<Byte>, limit: nat, p: nat, word: seq<Byte>)
    requires limit <= |text|
  {
    p + |word| <= limit && forall i :: 0 <= i < |word| ==> text[p + i] == word[i]
  }

  function Keyword(text: seq<Byte>, limit: nat, p: nat, kind: Kind, word: seq<Byte>): (r: Scan)
    requires p <= limit <= |text|
  {
    if Spells(text, limit, p, word) then Token(kind, p, |word|, p + |word|) else Bad
  }

  const NULL_WORD: seq<Byte> := [110, 117, 108, 108]
  const TRUE_WORD: seq<Byte> := [116, 114, 117, 101]
  const FALSE_WORD: seq<Byte> := [102, 97, 108, 115, 101]

  /** The token that starts at the non-space byte at `p`. */
  function TokenAt(text: seq<Byte>, limit: nat, p: nat): (t: Scan)
    requires p < limit <= |text|
  {
    var c := text[p];
    if c == OPEN_BRACE then Token(OpenBrace, p, 1, p + 1)
    else if c == CLOSED_BRACE then Token(ClosedBrace, p, 1, p + 1)
    else if c == OPEN_BRACKET then Token(OpenBracket, p, 1, p + 1)
    else if c == CLOSED_BRACKET then Token(ClosedBracket, p, 1, p + 1)
    else if c == COMMA then Token(Comma, p, 1, p + 1)
    else if c == COLON then Token(Colon, p, 1, p + 1)
    else if c == NULL_WORD[0] then Keyword(text, limit, p, NullWord, NULL_WORD)
    else if c == TRUE_WORD[0] then Keyword(text, limit, p, TrueWord, TRUE_WORD)
    else if c == FALSE_WORD[0] then Keyword(text, limit, p, FalseWord, FALSE_WORD)
    else if c == QUOTE then
      var q := CloseQuote(text, limit, p + 1, false);
      if q < limit then Token(String, p + 1, q - p - 1, q + 1)
      else Token(UnclosedString, p + 1, limit - p - 1, limit)
    else if c == MINUS || IsDigit(c) then Number(text, limit, p)
    else Bad
  }

  function NextToken(text: seq<Byte>, limit: nat, pos: nat): (t: Scan)
    requires pos <= limit <= |text|
    ensures t.Token? ==> pos <= t.next <= limit && t.start + t.size <= t.next
    ensures t.Token? && t.kind == Eof ==> t.next == limit
    ensures t.Token? && t.kind != Eof ==> pos < t.next && pos <= t.start
  {
    var p := SkipSpace(text, limit, pos);
    if p == limit then Token(Eof, limit, 0, limit) else TokenAt(text, limit, p)
  }

  predicate IsOpen(kind: Kind) {
    kind == OpenBracket || kind == OpenBrace
  }

  /** A string token is followed by its closing quote. */
  lemma StringTokenEnd(text: seq<Byte>, limit: nat, pos: nat)
    requires pos <= limit <= |text|
    ensures var t := NextToken(text, limit, pos); t.Token? && t.kind == String ==> t.next == t.start + t.size + 1
  {
  }

  // ----- Stateless, and stable under extension -----

  /** Scanning again from the start of a token that is not a string gives that token. */
  lemma TokenFromItsStart(text: seq<Byte>, limit: nat, pos: nat)
    requires pos <= limit <= |text|
    ensures var t := NextToken(text, limit, pos);
            t.Token? && IsOpen(t.kind) ==> t.next == t.start + 1 && NextToken(text, limit, t.start) == t
  {
  }

  lemma {:induction false} SkipSpaceStable(text: seq<Byte>, cut: nat, limit: nat, pos: nat)
    requires pos <= cut <= limit <= |text|
    ensures SkipSpace(text, cut, pos) < cut ==> SkipSpace(text, limit, pos) == SkipSpace(text, cut, pos)
    decreases cut - pos
  {
    if pos < cut && IsSpace(text[pos]) {
      SkipSpaceStable(text, cut, limit, pos + 1);
    }
  }

  lemma {:induction false} CloseQuoteStable(text: seq<Byte>, cut: nat, limit: nat, i: nat, escaped: bool)
    requires i <= cut <= limit <= |text|
    ensures var q := CloseQuote(text, cut, i, escaped); q < cut ==> CloseQuote(text, limit, i, escaped) == q
    decreases cut - i
  {
    if i < cut && !(text[i] == QUOTE && !escaped) {
      CloseQuoteStable(text, cut, limit, i + 1, text[i] == BACKSLASH && !escaped);
    }
  }

  lemma {:induction false} ScanNumberStable(text: seq<Byte>, cut: nat, limit: nat, i: nat, dot: bool, exponent: bool,
                                            signAllowed: bool)
    requires i <= cut <= limit <= |text|
    ensures var r := ScanNumber(text, cut, i, dot, exponent, signAllowed);
            r.NumberEnd? && r.end < cut ==> ScanNumber(text, limit, i, dot, exponent, signAllowed) == r
    decreases cut - i
  {
    if i < cut {
      var c := text[i];
      if c == DOT {
        ScanNumberStable(text, cut, limit, i + 1, true, exponent, signAllowed);
      } else if IsExponent(c) {
        ScanNumberStable(text, cut, limit, i + 1, dot, true, true);
      } else if IsDigit(c) || (IsSign(c) && signAllowed) {
        ScanNumberStable(text, cut, limit, i + 1, dot, exponent, false);
      }
    }
  }

  /** A token cut out of a shorter buffer is a token of every longer one, unless the cut may have made it: the end of
      the buffer, an unclosed string, or a number that reaches the cut. */
  predicate CutFree(t: Scan, cut: nat) {
    t.Token? && t.kind != Eof && t.kind != UnclosedString && ((t.kind == Int || t.kind == Float) ==> t.next < cut)
  }

  lemma NumberStable(text: seq<Byte>, cut: nat, limit: nat, p: nat)
    requires p < cut <= limit <= |text|
    ensures var t := Number(text, cut, p); t.Token? && t.next < cut ==> Number(text, limit, p) == t
  {
    ScanNumberStable(text, cut, limit, p + 1, false, false, false);
  }

  lemma TokenAtStable(text: seq<Byte>, cut: nat, limit: nat, p: nat)
    requires p < cut <= limit <= |text|
    ensures CutFree(TokenAt(text, cut, p), cut) ==> TokenAt(text, limit, p) == TokenAt(text, cut, p)
  {
    var c := text[p];
    if c == QUOTE {
      CloseQuoteStable(text, cut, limit, p + 1, false);
    } else if c == MINUS || IsDigit(c) {
      NumberStable(text, cut, limit, p);
    }
  }

  lemma PrefixStability(text: seq<Byte>, cut: nat, limit: nat, pos: nat)
    requires pos <= cut <= limit <= |text|
    ensures CutFree(NextToken(text, cut, pos), cut) ==> NextToken(text, limit, pos) == NextToken(text, cut, pos)
  {
    SkipSpaceStable(text, cut, limit, pos);
    var p := SkipSpace(text, cut, pos);
    if p < cut {
      TokenAtStable(text, cut, limit, p);
    }
  }

  // ----- Integer tokens -----

  predicate AllDigits(s: seq<Byte>) {
    forall i :: 0 <= i < |s| ==> IsDigit(s[i])
  }

  lemma {:induction false} ScanNumberDigits(text: seq<Byte>, limit: nat, i: nat)
    requires i <= limit <= |text|
    ensures var r := ScanNumber(text, limit, i, false, false, false);
            r.NumberEnd? && !r.float ==> AllDigits(text[i..r.end])
    decreases limit - i
  {
    if i < limit {
      var r := ScanNumber(text, limit, i, false, false, false);
      var c := text[i];
      if c == DOT {
        FloatStaysFloat(text, limit, i + 1, true, false, false);
      } else if IsExponent(c) {
        FloatStaysFloat(text, limit, i + 1, false, true, true);
      } else if IsDigit(c) {
        ScanNumberDigits(text, limit, i + 1);
        if r.NumberEnd? && !r.float {
          assert text[i..r.end] == [c] + text[i + 1..r.end];
        }
      }
    }
  }

  lemma {:induction false} FloatStaysFloat(text: seq<Byte>, limit: nat, i: nat, dot: bool, exponent: bool,
                                           signAllowed: bool)
    requires i <= limit <= |text| && (dot || exponent)
    ensures var r := ScanNumber(text, limit, i, dot, exponent, signAllowed); r.NumberEnd? ==> r.float
    decreases limit - i
  {
    if i < limit {
      FloatStaysFloat(text, limit, i + 1, true, exponent, signAllowed);
      FloatStaysFloat(text, limit, i + 1, dot, true, true);
      FloatStaysFloat(text, limit, i + 1, dot, exponent, false);
    }
  }

  /** An integer literal: an optional minus sign and at least one digit. */
  predicate IsIntText(s: seq<Byte>) {
    |s| > 0 && if s[0] == MINUS then |s| > 1 && AllDigits(s[1..]) else AllDigits(s)
  }

  lemma IntTokenText(text: seq<Byte>, limit: nat, pos: nat)
    requires pos <= limit <= |text|
    ensures var t := NextToken(text, limit, pos);
            t.Token? && t.kind == Int ==> IsIntText(text[t.start..t.start + t.size])
  {
    var t := NextToken(text, limit, pos);
    if t.Token? && t.kind == Int {
      var p := SkipSpace(text, limit, pos);
      ScanNumberDigits(text, limit, p + 1);
      var s := text[t.start..t.start + t.size];
      assert s[1..] == text[p + 1..t.next];
      assert s == [s[0]] + s[1..];
    }
  }

  // ----- The scanning loops -----

  /** `memchr` for a quote; the limit if there is none. */
  method FindQuote(text: seq<Byte>, limit: nat, pos: nat) returns (q: nat)
    requires pos <= limit <= |text|
    ensures pos <= q <= limit && (q < limit ==> text[q] == QUOTE)
    ensures forall i :: pos <= i < q ==> text[i] != QUOTE
  {
    q := pos;
    while q < limit && text[q] != QUOTE
      invariant pos <= q <= limit
      invariant forall i :: pos <= i < q ==> text[i] != QUOTE
    {
      q := q + 1;
    }
  }

  /** Whether an odd number of backslashes stands before `q`, not looking further back than `from`. */
  predicate EscapedAt(text: seq<Byte>, from: nat, q: nat)
    requires from <= q <= |text|
  {
    q > from && text[q - 1] == BACKSLASH && !EscapedAt(text, from, q - 1)
  }

  /** Up to the first quote, the escape automaton has done nothing but count backslashes. */
  lemma {:induction false} ScanToQuote(text: seq<Byte>, limit: nat, from: nat, q: nat)
    requires from <= q <= limit <= |text|
    requires forall i :: from <= i < q ==> text[i] != QUOTE
    ensures CloseQuote(text, limit, from, false) == CloseQuote(text, limit, q, EscapedAt(text, from, q))
    decreases q - from
  {
    if from < q {
      ScanToQuote(text, limit, from, q - 1);
    }
  }

  method CountsAsEscaped(text: seq<Byte>, from: nat, q: nat) returns (escaped: bool)
    requires from <= q <= |text|
    ensures escaped == EscapedAt(text, from, q)
  {
    escaped := false;
    var i := q;
    while i > from && text[i - 1] == BACKSLASH
      invariant from <= i <= q
      invariant EscapedAt(text, from, q) == (escaped != EscapedAt(text, from, i))
    {
      escaped := !escaped;
      i := i - 1;
    }
  }

  /** The string case of `thsn_next_token`: hop from quote to quote, counting backslashes backwards. */
  method ScanString(text: seq<Byte>, limit: nat, open: nat) returns (t: Scan)
    requires open < limit <= |text| && text[open] == QUOTE
    ensures t == TokenAt(text, limit, open)
  {
    var pos := open + 1;
    var size := 0;
    while true
      invariant open < pos <= limit && size == pos - open - 1
      invariant CloseQuote(text, limit, open + 1, false) == CloseQuote(text, limit, pos, false)
      decreases limit - pos
    {
      var q := FindQuote(text, limit, pos);
      ScanToQuote(text, limit, pos, q);
      if q == limit {
        return Token(UnclosedString, open + 1, size + (limit - pos), limit);
      }
      if q == pos {
        return Token(String, open + 1, size, pos + 1);
      }
      var escaped := CountsAsEscaped(text, pos, q);
      if !escaped {
        return Token(String, open + 1, size + (q - pos), q + 1);
      }
      var step := (q - pos) + 1;
      size := size + step;
      pos := pos + step;
    }
  }

  /** Where a thread that starts inside a string goes on: past the quote that closes it, or at the limit. */
  function AfterString(text: seq<Byte>, limit: nat, pos: nat): (p: nat)
    requires pos <= limit <= |text|
    ensures pos <= p <= limit
  {
    var q := CloseQuote(text, limit, pos, false);
    if q < limit then q + 1 else limit
  }

  /** `thsn_advance_after_end_of_string`, the second copy of the loop. */
  method AdvanceAfterEndOfString(text: seq<Byte>, limit: nat, start: nat) returns (pos: nat)
    requires start <= limit <= |text|
    ensures pos == AfterString(text, limit, start)
  {
    pos := start;
    while true
      invariant start <= pos <= limit
      invariant CloseQuote(text, limit, start, false) == CloseQuote(text, limit, pos, false)
      decreases limit - pos
    {
      var q := FindQuote(text, limit, pos);
      ScanToQuote(text, limit, pos, q);
      if q == limit {
        return limit;
      }
      if q == pos {
        return pos + 1;
      }
      var escaped := CountsAsEscaped(text, pos, q);
      if !escaped {
        return q + 1;
      }
      pos := q + 1;
    }
  }

  /** The number case of `thsn_next_token`: consume, and give the first foreign character back. */
  method ScanNumberToken(text: seq<Byte>, limit: nat, p: nat) returns (t: Scan)
    requires p < limit <= |text|
    ensures t == Number(text, limit, p)
  {
    var pos, size := p + 1, 1;
    var dotPresent, ePresent, done, waitingForSign := false, false, false, false;
    while !done && pos < limit
      invariant p < pos <= limit && size == pos - p
      invariant !done ==>
        ScanNumber(text, limit, p + 1, false, false, false) ==
        ScanNumber(text, limit, pos, dotPresent, ePresent, waitingForSign)
      invariant done ==> ScanNumber(text, limit, p + 1, false, false, false) == NumberEnd(pos, dotPresent || ePresent)
      decreases !done, limit - pos
    {
      var c := text[pos];
      pos, size := pos + 1, size + 1;
      if c == DOT {
        if dotPresent || ePresent {
          return Bad;
        }
        dotPresent := true;
      } else if IsExponent(c) {
        if ePresent {
          return Bad;
        }
        ePresent, waitingForSign := true, true;
      } else if IsDigit(c) {
        waitingForSign := false;
      } else if IsSign(c) && waitingForSign {
        waitingForSign := false;
      } else {
        pos, size, done := pos - 1, size - 1, true;
      }
    }
    if IsSign(text[p + size - 1]) {
      return Bad;
    }
    t := Token(if dotPresent || ePresent then Float else Int, p, size, pos);
  }

  method ScanKeyword(text: seq<Byte>, limit: nat, p: nat, kind: Kind, word: seq<Byte>) returns (t: Scan)
    requires p < limit <= |text| && |word| > 0 && text[p] == word[0]
    ensures t == Keyword(text, limit, p, kind, word)
  {
    var left := limit - (p + 1);
    if left < |word| - 1 {
      return Bad;
    }
    var i := 1;
    while i < |word|
      invariant 1 <= i <= |word|
      invariant forall k :: 0 <= k < i ==> text[p + k] == word[k]
    {
      if text[p + i] != word[i] {
        return Bad;
      }
      i := i + 1;
    }
    t := Token(kind, p, |word|, p + |word|);
  }

  /** `thsn_next_token`. */
  method ScanToken(text: seq<Byte>, limit: nat, start: nat) returns (t: Scan)
    requires start <= limit <= |text|
    ensures t == NextToken(text, limit, start)
  {
    var pos := start;
    while pos < limit && IsSpace(text[pos])
      invariant start <= pos <= limit
      invariant SkipSpace(text, limit, start) == SkipSpace(text, limit, pos)
    {
      pos := pos + 1;
    }
    if pos == limit {
      return Token(Eof, limit, 0, limit);
    }
    var c := text[pos];
    if c == OPEN_BRACE {
      t := Token(OpenBrace, pos, 1, pos + 1);
    } else if c == CLOSED_BRACE {
      t := Token(ClosedBrace, pos, 1, pos + 1);
    } else if c == OPEN_BRACKET {
      t := Token(OpenBracket, pos, 1, pos + 1);
    } else if c == CLOSED_BRACKET {
      t := Token(ClosedBracket, pos, 1, pos + 1);
    } else if c == COMMA {
      t := Token(Comma, pos, 1, pos + 1);
    } else if c == COLON {
      t := Token(Colon, pos, 1, pos + 1);
    } else if c == NULL_WORD[0] {
      t := ScanKeyword(text, limit, pos, NullWord, NULL_WORD);
    } else if c == TRUE_WORD[0] {
      t := ScanKeyword(text, limit, pos, TrueWord, TRUE_WORD);
    } else if c == FALSE_WORD[0] {
      t := ScanKeyword(text, limit, pos, FalseWord, FALSE_WORD);
    } else if c == QUOTE {
      t := ScanString(text, limit, pos);
    } else if c == MINUS || IsDigit(c) {
      t := ScanNumberToken(text, limit, pos);
    } else {
      t := Bad;
    }
  }
}
