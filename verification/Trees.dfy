/** JSON values as trees, and the numbers that tokens denote. */
module Trees {
  import opened Bytes
  import opened Tokenizer

  /** A parsed value. `Ref` is what the main thread stores in place of a value that a worker has parsed: a handle to
      that worker's segment. Which value is meant is part of the tree, but not of the stored bytes. */
  datatype Tree =
    | Null
    | Bool(b: bool)
    | Int(n: int)
    | Double(bits: Word)
    | Str(s: seq<Byte>)
    | Arr(elems: seq<Tree>)
    | Obj(kvs: seq<Member>)
    | Ref(segment: nat, offset: nat, target: Tree)

  datatype Member = Member(key: seq<Byte>, value: Tree)

  /** What parsing depends on: the text, and `strtod` as a partial function of the token. */
  datatype Input = Input(text: seq<Byte>, strtod: seq<Byte> -> Option<Word>)

  // ----- References -----

  /** The tree a reader sees: handles followed. */
  function Deref(t: Tree): Tree
  {
    match t
    case Arr(elems) => Arr(DerefAll(elems))
    case Obj(kvs) => Obj(DerefMembers(kvs))
    case Ref(_, _, target) => target
    case _ => t
  }

  function DerefAll(ts: seq<Tree>): (r: seq<Tree>)
    ensures |r| == |ts|
  {
    seq(|ts|, i requires 0 <= i < |ts| => Deref(ts[i]))
  }

  function DerefMembers(kvs: seq<Member>): (r: seq<Member>)
    ensures |r| == |kvs|
  {
    seq(|kvs|, i requires 0 <= i < |kvs| => Member(kvs[i].key, Deref(kvs[i].value)))
  }

  predicate NoRefs(t: Tree) {
    match t
    case Arr(elems) => forall i :: 0 <= i < |elems| ==> NoRefs(elems[i])
    case Obj(kvs) => forall i :: 0 <= i < |kvs| ==> NoRefs(kvs[i].value)
    case Ref(_, _, _) => false
    case _ => true
  }

  lemma {:induction false} DerefNoRefs(t: Tree)
    requires NoRefs(t)
    ensures Deref(t) == t
  {
    match t
    case Arr(elems) =>
      forall i | 0 <= i < |elems| ensures DerefAll(elems)[i] == elems[i] {
        DerefNoRefs(elems[i]);
      }
      assert DerefAll(elems) == elems;
    case Obj(kvs) =>
      forall i | 0 <= i < |kvs| ensures DerefMembers(kvs)[i] == kvs[i] {
        DerefNoRefs(kvs[i].value);
      }
      assert DerefMembers(kvs) == kvs;
    case _ =>
  }

  // ----- Numbers -----

  /** The value of a string of decimal digits. */
  function Decimal(s: seq<Byte>): int {
    if s == [] then 0 else Decimal(s[..|s| - 1]) * 10 + (s[|s| - 1] - ZERO)
  }

  function IntegerValue(s: seq<Byte>): int {
    if s != [] && s[0] == MINUS then -Decimal(s[1..]) else Decimal(s)
  }

  /** `thsn_parser_atoll_checked`, with the overflow that C leaves undefined taken to wrap around. */
  method AtollChecked(s: seq<Byte>) returns (result: int)
    requires IsIntText(s)
    ensures result == Wrap64(IntegerValue(s))
  {
    var sign, i := true, 1;
    if s[0] == MINUS {
      result, sign := 0, false;
    } else {
      result := s[0] - ZERO;
    }
    ghost var digits := if s[0] == MINUS then s[1..] else s;
    ghost var skipped := |s| - |digits|;
    assert digits[..1] == [digits[0]];
    while i < |s|
      invariant 1 <= i <= |s|
      invariant result == Wrap64(Decimal(digits[..i - skipped]))
    {
      Wrap64Digit(Decimal(digits[..i - skipped]), s[i] - ZERO);
      assert digits[..i + 1 - skipped][..i - skipped] == digits[..i - skipped];
      result := Wrap64(result * 10 + (s[i] - ZERO));
      i := i + 1;
    }
    assert digits[..i - skipped] == digits;
    if !sign {
      Wrap64Negate(Decimal(digits));
      result := Wrap64(-result);
    }
  }

  const MAX_DOUBLE_LEN: nat := 128

  /** `thsn_parser_atod_checked`. */
  function DoubleValue(env: Input, s: seq<Byte>): Option<Word> {
    if |s| <= MAX_DOUBLE_LEN then env.strtod(s) else None
  }

  function Slice(env: Input, tok: Scan): (s: seq<Byte>)
    requires tok.Token? && tok.start + tok.size <= |env.text|
    ensures |s| == tok.size
  {
    env.text[tok.start..tok.start + tok.size]
  }

  /** The value of a token that is a whole value by itself. */
  function Atom(env: Input, tok: Scan): (t: Option<Tree>)
    requires tok.Token? && tok.start + tok.size <= |env.text|
    ensures t.Some? ==> NoRefs(t.value)
  {
    match tok.kind
    case NullWord => Some(Null)
    case TrueWord => Some(Bool(true))
    case FalseWord => Some(Bool(false))
    case Int => Some(Tree.Int(Wrap64(IntegerValue(Slice(env, tok)))))
    case Float =>
      var d := DoubleValue(env, Slice(env, tok));
      if d.Some? then Some(Double(d.value)) else None
    case String => Some(Str(Slice(env, tok)))
    case _ => None
  }
}
