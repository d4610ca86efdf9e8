/** How values are written, byte by byte, and what the writing means. Nothing here refers to scanner or parser. */
module Spelling {
  import opened Bytes
  import opened Trees

  /** A character of a string: a byte for itself, or any byte behind a backslash. */
  datatype Character = Plain(b: Byte) | Escaped(b: Byte)

  /** An `e` or `E`, perhaps a sign, and digits. */
  datatype Exponent = Exponent(mark: Byte, sign: Option<Byte>, digits: seq<Byte>)

  datatype Spelling =
    | NullText
    | TrueText
    | FalseText
    | NumberText(minus: bool, whole: seq<Byte>, fraction: Option<seq<Byte>>, exponent: Option<Exponent>)
    | StringText(chars: seq<Character>)
    | ArrayText(inside: seq<Byte>, elems: seq<Spaced>)
    | ObjectText(inside: seq<Byte>, entries: seq<Entry>)

  /** A value with the space around it. */
  datatype Spaced = Spaced(before: seq<Byte>, value: Spelling, after: seq<Byte>)

  /** A key with the space around it, and the value behind the colon. */
  datatype Entry = Entry(before: seq<Byte>, key: seq<Character>, after: seq<Byte>, value: Spaced)

  // ----- What may be written -----

  predicate Blank(s: seq<Byte>) {
    forall i :: 0 <= i < |s| ==> s[i] in {9, 10, 11, 12, 13, 32}
  }

  predicate Digits(s: seq<Byte>) {
    forall i :: 0 <= i < |s| ==> 48 <= s[i] <= 57
  }

  predicate ProperChars(cs: seq<Character>) {
    forall i :: 0 <= i < |cs| ==> cs[i].Plain? ==> cs[i].b != 34 && cs[i].b != 92
  }

  predicate ProperExponent(e: Exponent) {
    (e.mark == 101 || e.mark == 69) && (e.sign.Some? ==> e.sign.value == 43 || e.sign.value == 45) && Digits(e.digits)
  }

  /** Digits may be missing almost everywhere, but a sign must not come last. */
  predicate ProperNumber(s: Spelling)
    requires s.NumberText?
  {
    NumberParts(s) && !SignLast(s)
  }

  /** Made of the parts of a number. */
  predicate NumberParts(s: Spelling)
    requires s.NumberText?
  {
    && Digits(s.whole) && (s.minus || s.whole != [])
    && (s.fraction.Some? ==> Digits(s.fraction.value)) && (s.exponent.Some? ==> ProperExponent(s.exponent.value))
  }

  predicate SignLast(s: Spelling)
    requires s.NumberText?
  {
    if s.exponent.Some? then s.exponent.value.sign.Some? && s.exponent.value.digits == []
    else s.fraction.None? && s.whole == []
  }

  predicate Proper(s: Spelling) {
    match s
    case NumberText(_, _, _, _) => ProperNumber(s)
    case StringText(cs) => ProperChars(cs)
    case ArrayText(inside, elems) => Blank(inside) && forall i :: 0 <= i < |elems| ==> ProperSpaced(elems[i])
    case ObjectText(inside, entries) => Blank(inside) && forall i :: 0 <= i < |entries| ==> ProperEntry(entries[i])
    case _ => true
  }

  predicate ProperSpaced(v: Spaced) {
    Blank(v.before) && Blank(v.after) && Proper(v.value)
  }

  predicate ProperEntry(e: Entry) {
    Blank(e.before) && ProperChars(e.key) && Blank(e.after) && ProperSpaced(e.value)
  }

  // ----- The bytes -----

  function SpellChars(cs: seq<Character>): seq<Byte> {
    if cs == [] then []
    else (if cs[0].Plain? then [cs[0].b] else [92, cs[0].b]) + SpellChars(cs[1..])
  }

  function SpellExponent(e: Exponent): seq<Byte> {
    [e.mark] + (if e.sign.Some? then [e.sign.value] else []) + e.digits
  }

  function SpellNumber(s: Spelling): seq<Byte>
    requires s.NumberText?
  {
    (if s.minus then [45] else []) + s.whole
    + (if s.fraction.Some? then [46] + s.fraction.value else [])
    + (if s.exponent.Some? then SpellExponent(s.exponent.value) else [])
  }

  function Spell(s: Spelling): (r: seq<Byte>)
    decreases s, 2
  {
    match s
    case NullText => [110, 117, 108, 108]
    case TrueText => [116, 114, 117, 101]
    case FalseText => [102, 97, 108, 115, 101]
    case NumberText(_, _, _, _) => SpellNumber(s)
    case StringText(cs) => [34] + SpellChars(cs) + [34]
    case ArrayText(inside, elems) => [91] + (if elems == [] then inside + [93] else SpellElements(elems))
    case ObjectText(inside, entries) => [123] + (if entries == [] then inside + [125] else SpellEntries(entries))
  }

  function SpellSpaced(v: Spaced): seq<Byte>
    decreases v, 3
  {
    v.before + Spell(v.value) + v.after
  }

  /** Elements with commas between them, and the bracket behind the last. */
  function SpellElements(elems: seq<Spaced>): seq<Byte>
    requires elems != []
    decreases elems, 0
  {
    SpellSpaced(elems[0]) + (if |elems| == 1 then [93] else [44] + SpellElements(elems[1..]))
  }

  function SpellEntry(e: Entry): seq<Byte>
    decreases e, 4
  {
    e.before + [34] + SpellChars(e.key) + [34] + e.after + [58] + SpellSpaced(e.value)
  }

  function SpellEntries(entries: seq<Entry>): seq<Byte>
    requires entries != []
    decreases entries, 0
  {
    SpellEntry(entries[0]) + (if |entries| == 1 then [125] else [44] + SpellEntries(entries[1..]))
  }

  // ----- The meaning -----

  function Pow10(k: nat): nat {
    if k == 0 then 1 else 10 * Pow10(k - 1)
  }

  /** Each digit counts for ten times what the one behind it does. */
  function Positional(digits: seq<Byte>): int {
    if digits == [] then 0 else (digits[0] - 48) * Pow10(|digits| - 1) + Positional(digits[1..])
  }

  /** Where `strtod` reads no number, or the text is too long for it, there is none. */
  function NumberMeaning(strtod: seq<Byte> -> Option<Word>, s: Spelling): Option<Tree>
    requires s.NumberText?
  {
    if s.fraction.None? && s.exponent.None? then
      Some(Tree.Int(Wrap64(if s.minus then -Positional(s.whole) else Positional(s.whole))))
    else if |SpellNumber(s)| > 128 then None
    else
      var d := strtod(SpellNumber(s));
      if d.Some? then Some(Double(d.value)) else None
  }

  function Meaning(strtod: seq<Byte> -> Option<Word>, s: Spelling): Option<Tree>
    decreases s, 2
  {
    match s
    case NullText => Some(Null)
    case TrueText => Some(Bool(true))
    case FalseText => Some(Bool(false))
    case NumberText(_, _, _, _) => NumberMeaning(strtod, s)
    case StringText(cs) => Some(Str(SpellChars(cs)))
    case ArrayText(_, elems) =>
      var ts := ElementsMeaning(strtod, elems);
      if ts.Some? then Some(Arr(ts.value)) else None
    case ObjectText(_, entries) =>
      var ms := EntriesMeaning(strtod, entries);
      if ms.Some? then Some(Obj(ms.value)) else None
  }

  function ElementsMeaning(strtod: seq<Byte> -> Option<Word>, elems: seq<Spaced>): Option<seq<Tree>>
    decreases elems, 0
  {
    if elems == [] then Some([])
    else
      var first, rest := Meaning(strtod, elems[0].value), ElementsMeaning(strtod, elems[1..]);
      if first.Some? && rest.Some? then Some([first.value] + rest.value) else None
  }

  function EntriesMeaning(strtod: seq<Byte> -> Option<Word>, entries: seq<Entry>): Option<seq<Member>>
    decreases entries, 0
  {
    if entries == [] then Some([])
    else
      var first, rest := Meaning(strtod, entries[0].value.value), EntriesMeaning(strtod, entries[1..]);
      if first.Some? && rest.Some? then Some([Member(SpellChars(entries[0].key), first.value)] + rest.value) else None
  }
}
