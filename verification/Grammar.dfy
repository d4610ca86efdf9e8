/** The recursive grammar of values over tokens: sections 2 to 5 of RFC 8259, with the library's own tokens. */
module Grammar {
  import opened Bytes
  import opened Tokenizer
  import opened Trees

  datatype Parsed<+T> = Parsed(value: T, next: nat)

  /** `[ value , ... ]`, `{ string : value , ... }` or a single token. */
  function Value(env: Input, limit: nat, pos: nat): (r: Option<Parsed<Tree>>)
    requires pos <= limit <= |env.text|
    ensures r.Some? ==> pos < r.value.next <= limit && NoRefs(r.value.value)
    decreases limit - pos, 0
  {
    var tok := NextToken(env.text, limit, pos);
    if tok.Bad? then None
    else if tok.kind == OpenBracket then
      var first := NextToken(env.text, limit, tok.next);
      if first.Token? && first.kind == ClosedBracket then Some(Parsed(Arr([]), first.next))
      else
        var rest := Elements(env, limit, tok.next);
        if rest.None? then None else Some(Parsed(Arr(rest.value.value), rest.value.next))
    else if tok.kind == OpenBrace then
      var first := NextToken(env.text, limit, tok.next);
      if first.Token? && first.kind == ClosedBrace then Some(Parsed(Obj([]), first.next))
      else
        var rest := Members(env, limit, tok.next);
        if rest.None? then None else Some(Parsed(Obj(rest.value.value), rest.value.next))
    else
      var atom := Atom(env, tok);
      if atom.None? then None else Some(Parsed(atom.value, tok.next))
  }

  /** `value ]` or `value , elements`. */
  function Elements(env: Input, limit: nat, pos: nat): (r: Option<Parsed<seq<Tree>>>)
    requires pos <= limit <= |env.text|
    ensures r.Some? ==> pos < r.value.next <= limit
    ensures r.Some? ==> |r.value.value| > 0 && forall i :: 0 <= i < |r.value.value| ==> NoRefs(r.value.value[i])
    decreases limit - pos, 1
  {
    var v := Value(env, limit, pos);
    if v.None? then None
    else
      var sep := NextToken(env.text, limit, v.value.next);
      if sep.Bad? then None
      else if sep.kind == ClosedBracket then Some(Parsed([v.value.value], sep.next))
      else if sep.kind == Comma then
        var rest := Elements(env, limit, sep.next);
        if rest.None? then None else Some(Parsed([v.value.value] + rest.value.value, rest.value.next))
      else None
  }

  /** `string : value }` or `string : value , members`. */
  function Members(env: Input, limit: nat, pos: nat): (r: Option<Parsed<seq<Member>>>)
    requires pos <= limit <= |env.text|
    ensures r.Some? ==> pos < r.value.next <= limit
    ensures r.Some? ==> |r.value.value| > 0 && forall i :: 0 <= i < |r.value.value| ==> NoRefs(r.value.value[i].value)
    decreases limit - pos, 1
  {
    var key := NextToken(env.text, limit, pos);
    if key.Bad? || key.kind != String then None
    else
      var colon := NextToken(env.text, limit, key.next);
      if colon.Bad? || colon.kind != Colon then None
      else
        var v := Value(env, limit, colon.next);
        if v.None? then None
        else
          var member := Member(Slice(env, key), v.value.value);
          var sep := NextToken(env.text, limit, v.value.next);
          if sep.Bad? then None
          else if sep.kind == ClosedBrace then Some(Parsed([member], sep.next))
          else if sep.kind == Comma then
            var rest := Members(env, limit, sep.next);
            if rest.None? then None else Some(Parsed([member] + rest.value.value, rest.value.next))
          else None
  }

  /** A whole input: a value, followed by anything, or nothing but space. */
  function Root(env: Input, limit: nat, pos: nat): (r: Option<Parsed<Option<Tree>>>)
    requires pos <= limit <= |env.text|
  {
    var tok := NextToken(env.text, limit, pos);
    if tok.Token? && tok.kind == Eof then Some(Parsed(None, tok.next))
    else
      var v := Value(env, limit, pos);
      if v.None? then None else Some(Parsed(Some(v.value.value), v.value.next))
  }

  // ----- A composite closed inside a chunk is the same composite in the whole text -----

  predicate StartsComposite(env: Input, limit: nat, pos: nat)
    requires pos <= limit <= |env.text|
  {
    var tok := NextToken(env.text, limit, pos);
    tok.Token? && IsOpen(tok.kind)
  }

  lemma {:induction false} ValueStable(env: Input, cut: nat, limit: nat, pos: nat)
    requires pos <= cut <= limit <= |env.text|
    ensures var v := Value(env, cut, pos);
            v.Some? && (v.value.next < cut || StartsComposite(env, cut, pos)) ==> Value(env, limit, pos) == v
    decreases cut - pos, 0
  {
    var tok := NextToken(env.text, cut, pos);
    PrefixStability(env.text, cut, limit, pos);
    if tok.Token? && IsOpen(tok.kind) {
      PrefixStability(env.text, cut, limit, tok.next);
      if tok.kind == OpenBracket {
        ElementsStable(env, cut, limit, tok.next);
        ElementsStart(env, limit, tok.next);
      } else {
        MembersStable(env, cut, limit, tok.next);
      }
    }
  }

  /** A list of elements does not start with a closing bracket. */
  lemma ElementsStart(env: Input, limit: nat, pos: nat)
    requires pos <= limit <= |env.text|
    ensures var tok := NextToken(env.text, limit, pos);
            tok.Token? && tok.kind == ClosedBracket ==> Elements(env, limit, pos).None?
  {
  }

  lemma {:induction false} ElementsStable(env: Input, cut: nat, limit: nat, pos: nat)
    requires pos <= cut <= limit <= |env.text|
    ensures var r := Elements(env, cut, pos); r.Some? ==> Elements(env, limit, pos) == r
    decreases cut - pos, 1
  {
    hide NextToken, Value;
    var v := Value(env, cut, pos);
    if v.Some? {
      ValueStable(env, cut, limit, pos);
      PrefixStability(env.text, cut, limit, v.value.next);
      var sep := NextToken(env.text, cut, v.value.next);
      if sep.Token? && sep.kind == Comma {
        ElementsStable(env, cut, limit, sep.next);
      }
    }
  }

  lemma {:induction false} MembersStable(env: Input, cut: nat, limit: nat, pos: nat)
    requires pos <= cut <= limit <= |env.text|
    ensures var r := Members(env, cut, pos); r.Some? ==> Members(env, limit, pos) == r
    decreases cut - pos, 1
  {
    hide NextToken, Value;
    var key := NextToken(env.text, cut, pos);
    PrefixStability(env.text, cut, limit, pos);
    if key.Token? && key.kind == String {
      var colon := NextToken(env.text, cut, key.next);
      PrefixStability(env.text, cut, limit, key.next);
      if colon.Token? && colon.kind == Colon {
        var v := Value(env, cut, colon.next);
        if v.Some? {
          ValueStable(env, cut, limit, colon.next);
          PrefixStability(env.text, cut, limit, v.value.next);
          var sep := NextToken(env.text, cut, v.value.next);
          if sep.Token? && sep.kind == Comma {
            MembersStable(env, cut, limit, sep.next);
          }
        }
      }
    }
  }
}
