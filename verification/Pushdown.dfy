/** The parser as a pushdown machine over trees: the states of the library, and one frame for every composite that is
    still open. */
module Pushdown {
  import opened Bytes
  import opened Tokenizer
  import opened Trees
  import opened Grammar

  datatype State = ExpectValue | Finish | FirstArrayElement | NextArrayElement | FirstKv | KvColon | KvEnd | NextKv

  /** An open composite: what it holds so far, and whether another element (of the given key) has begun. */
  datatype Frame =
    | ArrFrame(elems: seq<Tree>, pending: bool)
    | ObjFrame(kvs: seq<Member>, key: Option<seq<Byte>>)

  datatype Parser = Parser(state: State, frames: seq<Frame>)

  const START: Parser := Parser(ExpectValue, [])

  /** What handling one token comes to, before the stack decides where to go on. */
  datatype Effect =
    | Continue(p: Parser)
    | Completed(frames: seq<Frame>, value: Tree)
    | EofTaken(frames: seq<Frame>)
    | Failed

  /** The result of a whole step. `Stuck` is a composite that took the end of input for an element. */
  datatype Outcome = Running(p: Parser) | Done(root: Option<Tree>) | Stuck | Error

  predicate Awaiting(f: Frame) {
    if f.ArrFrame? then f.pending else f.key.Some?
  }

  predicate AllAwaiting(frames: seq<Frame>) {
    forall i :: 0 <= i < |frames| ==> Awaiting(frames[i])
  }

  /** Every frame below the top waits for the element above it; the top one fits the state. */
  predicate Sound(p: Parser) {
    && (forall i :: 0 <= i < |p.frames| - 1 ==> Awaiting(p.frames[i]))
    && match p.state
       case ExpectValue | FirstArrayElement | FirstKv => p.frames != [] ==> Awaiting(Top(p.frames))
       case NextArrayElement => p.frames != [] && Top(p.frames).ArrFrame? && !Top(p.frames).pending
       case KvColon => p.frames != [] && Top(p.frames).ObjFrame? && Top(p.frames).key.Some?
       case KvEnd | NextKv => p.frames != [] && Top(p.frames).ObjFrame? && Top(p.frames).key.None?
       case Finish => false
  }

  function Top(frames: seq<Frame>): Frame
    requires frames != []
  {
    frames[|frames| - 1]
  }

  function Below(frames: seq<Frame>): (r: seq<Frame>)
    requires frames != []
    ensures |r| == |frames| - 1
  {
    frames[..|frames| - 1]
  }

  function ReturnState(f: Frame): State {
    if f.ArrFrame? then NextArrayElement else KvEnd
  }

  /** A finished element joins the composite that waits for it. */
  function Plug(f: Frame, t: Tree): Frame
    requires Awaiting(f)
  {
    match f
    case ArrFrame(elems, _) => ArrFrame(elems + [t], false)
    case ObjFrame(kvs, key) => ObjFrame(kvs + [Member(key.value, t)], None)
  }

  function ValueToken(env: Input, frames: seq<Frame>, tok: Scan): (e: Effect)
    requires tok.Token? && tok.start + tok.size <= |env.text|
    ensures tok.kind == Eof ==> e == EofTaken(frames)
  {
    if tok.kind == Eof then EofTaken(frames)
    else if tok.kind == OpenBracket then Continue(Parser(FirstArrayElement, frames))
    else if tok.kind == OpenBrace then Continue(Parser(FirstKv, frames))
    else
      var t := Atom(env, tok);
      if t.None? then Failed else Completed(frames, t.value)
  }

  function HandleToken(env: Input, p: Parser, tok: Scan): (e: Effect)
    requires Sound(p) && tok.Token? && tok.start + tok.size <= |env.text|
    ensures tok.kind == Eof ==> e.EofTaken? || e.Failed?
    ensures e.EofTaken? ==> tok.kind == Eof
    ensures e.Continue? ==> Sound(e.p)
    ensures e.Completed? ==> AllAwaiting(e.frames)
  {
    var frames := p.frames;
    match p.state
    case ExpectValue => ValueToken(env, frames, tok)
    case FirstArrayElement =>
      if tok.kind == ClosedBracket then Completed(frames, Arr([]))
      else ValueToken(env, frames + [ArrFrame([], true)], tok)
    case NextArrayElement =>
      if tok.kind == ClosedBracket then Completed(Below(frames), Arr(Top(frames).elems))
      else if tok.kind == Comma then Continue(Parser(ExpectValue, Below(frames) + [ArrFrame(Top(frames).elems, true)]))
      else Failed
    case FirstKv =>
      if tok.kind == ClosedBrace then Completed(frames, Obj([]))
      else if tok.kind == String then Continue(Parser(KvColon, frames + [ObjFrame([], Some(Slice(env, tok)))]))
      else Failed
    case KvColon => if tok.kind == Colon then Continue(Parser(ExpectValue, frames)) else Failed
    case KvEnd =>
      if tok.kind == ClosedBrace then Completed(Below(frames), Obj(Top(frames).kvs))
      else if tok.kind == Comma then Continue(Parser(NextKv, frames))
      else Failed
    case NextKv =>
      if tok.kind == String
      then Continue(Parser(KvColon, Below(frames) + [ObjFrame(Top(frames).kvs, Some(Slice(env, tok)))]))
      else Failed
  }

  /** With an empty stack the value is the document; otherwise the waiting composite goes on. */
  function Settle(e: Effect): (o: Outcome)
    requires e.Completed? ==> AllAwaiting(e.frames)
    requires e.Continue? ==> Sound(e.p)
    ensures o.Running? ==> Sound(o.p)
  {
    match e
    case Continue(p) => Running(p)
    case Completed(frames, t) =>
      if frames == [] then Done(Some(t))
      else Running(Parser(ReturnState(Top(frames)), Below(frames) + [Plug(Top(frames), t)]))
    case EofTaken(frames) => if frames == [] then Done(None) else Stuck
    case Failed => Error
  }

  function Step(env: Input, p: Parser, tok: Scan): (o: Outcome)
    requires Sound(p) && tok.Token? && tok.start + tok.size <= |env.text|
    ensures o.Running? ==> Sound(o.p) && tok.kind != Eof
    ensures o.Stuck? ==> tok.kind == Eof
    ensures o.Done? && o.root.Some? ==> tok.kind != Eof
  {
    Settle(HandleToken(env, p, tok))
  }

  // ----- Whole runs -----

  type Answer = Option<Parsed<Option<Tree>>>

  /** Feed tokens from `pos` on, until the document is complete. A stuck parser meets the end of input again and
      fails. */
  function Run(env: Input, limit: nat, p: Parser, pos: nat): (r: Answer)
    requires Sound(p) && pos <= limit <= |env.text|
    decreases limit - pos
  {
    var tok := NextToken(env.text, limit, pos);
    if tok.Bad? then None
    else
      match Step(env, p, tok)
      case Running(q) => Run(env, limit, q, tok.next)
      case Done(root) => Some(Parsed(root, tok.next))
      case Stuck => None
      case Error => None
  }

  /** How a run goes on after a step that ended at `next`. */
  function Resume(env: Input, limit: nat, o: Outcome, next: nat): (r: Answer)
    requires next <= limit <= |env.text|
    requires o.Running? ==> Sound(o.p)
  {
    match o
    case Running(p) => Run(env, limit, p, next)
    case Done(root) => Some(Parsed(root, next))
    case Stuck => None
    case Error => None
  }

  /** How a run goes on once the value `v` has been delivered to the stack. */
  function Deliver(env: Input, limit: nat, frames: seq<Frame>, v: Option<Parsed<Tree>>): (r: Answer)
    requires limit <= |env.text| && (v.Some? ==> v.value.next <= limit)
    requires AllAwaiting(frames)
  {
    if v.None? then None else Resume(env, limit, Settle(Completed(frames, v.value.value)), v.value.next)
  }

  lemma RunUnfold(env: Input, limit: nat, p: Parser, pos: nat)
    requires Sound(p) && pos <= limit <= |env.text|
    ensures var tok := NextToken(env.text, limit, pos);
            Run(env, limit, p, pos) == if tok.Bad? then None else Resume(env, limit, Step(env, p, tok), tok.next)
  {
    hide NextToken, HandleToken, Settle;
  }

  // ----- The machine is the grammar -----

  /** In state VALUE, on any stack, the machine does what the grammar says: it fails where there is no value, and
      otherwise comes to the end of the value with the value delivered to the stack. */
  lemma {:induction false} ValueRun(env: Input, limit: nat, frames: seq<Frame>, pos: nat)
    requires pos <= limit <= |env.text| && AllAwaiting(frames)
    requires frames != [] || NextToken(env.text, limit, pos) != Token(Eof, limit, 0, limit)
    ensures Run(env, limit, Parser(ExpectValue, frames), pos)
         == Deliver(env, limit, frames, Value(env, limit, pos))
    decreases limit - pos, 0
  {
    hide NextToken, Run, Elements, Members;
    EofToken(env.text, limit, pos);
    RunUnfold(env, limit, Parser(ExpectValue, frames), pos);
    var tok := NextToken(env.text, limit, pos);
    if tok.Token? && tok.kind == OpenBracket {
      ArrayRun(env, limit, frames, tok.next);
      var r := Elements(env, limit, tok.next);
      assert r.Some? ==> [] + r.value.value == r.value.value;
    } else if tok.Token? && tok.kind == OpenBrace {
      ObjectRun(env, limit, frames, tok.next);
      var r := Members(env, limit, tok.next);
      assert r.Some? ==> [] + r.value.value == r.value.value;
    }
  }

  lemma EofToken(text: seq<Byte>, limit: nat, pos: nat)
    requires pos <= limit <= |text|
    ensures var t := NextToken(text, limit, pos); t.Token? && t.kind == Eof ==> t == Token(Eof, limit, 0, limit)
  {
  }

  lemma ArrayRun(env: Input, limit: nat, frames: seq<Frame>, pos: nat)
    requires pos <= limit <= |env.text| && AllAwaiting(frames)
    ensures var first := NextToken(env.text, limit, pos);
            Run(env, limit, Parser(FirstArrayElement, frames), pos) ==
            if first.Token? && first.kind == ClosedBracket
            then Deliver(env, limit, frames, Some(Parsed(Arr([]), first.next)))
            else DeliverElements(env, limit, frames, [], Elements(env, limit, pos))
    decreases limit - pos, 2
  {
    hide NextToken, Run, Elements;
    var first := NextToken(env.text, limit, pos);
    RunUnfold(env, limit, Parser(FirstArrayElement, frames), pos);
    if !(first.Token? && first.kind == ClosedBracket) {
      var inner := frames + [ArrFrame([], true)];
      RunUnfold(env, limit, Parser(ExpectValue, inner), pos);
      ElementsRun(env, limit, frames, [], pos);
    }
  }

  lemma ObjectRun(env: Input, limit: nat, frames: seq<Frame>, pos: nat)
    requires pos <= limit <= |env.text| && AllAwaiting(frames)
    ensures var first := NextToken(env.text, limit, pos);
            Run(env, limit, Parser(FirstKv, frames), pos) ==
            if first.Token? && first.kind == ClosedBrace
            then Deliver(env, limit, frames, Some(Parsed(Obj([]), first.next)))
            else DeliverMembers(env, limit, frames, [], Members(env, limit, pos))
    decreases limit - pos, 2
  {
    hide NextToken, Run, Members;
    var first := NextToken(env.text, limit, pos);
    RunUnfold(env, limit, Parser(FirstKv, frames), pos);
    if !(first.Token? && first.kind == ClosedBrace) {
      var outer := frames + [ObjFrame([], None)];
      assert Below(outer) == frames;
      RunUnfold(env, limit, Parser(NextKv, outer), pos);
      MembersRun(env, limit, frames, [], pos);
    }
  }

  /** The elements of an array that already holds `elems` arrive, and the array is complete. */
  function DeliverElements(env: Input, limit: nat, frames: seq<Frame>, elems: seq<Tree>,
                           r: Option<Parsed<seq<Tree>>>): Answer
    requires limit <= |env.text| && (r.Some? ==> r.value.next <= limit)
    requires AllAwaiting(frames)
  {
    if r.None? then None else Deliver(env, limit, frames, Some(Parsed(Arr(elems + r.value.value), r.value.next)))
  }

  function DeliverMembers(env: Input, limit: nat, frames: seq<Frame>, kvs: seq<Member>,
                          r: Option<Parsed<seq<Member>>>): Answer
    requires limit <= |env.text| && (r.Some? ==> r.value.next <= limit)
    requires AllAwaiting(frames)
  {
    if r.None? then None else Deliver(env, limit, frames, Some(Parsed(Obj(kvs + r.value.value), r.value.next)))
  }

  lemma {:induction false} ElementsRun(env: Input, limit: nat, frames: seq<Frame>, elems: seq<Tree>, pos: nat)
    requires pos <= limit <= |env.text| && AllAwaiting(frames)
    ensures Run(env, limit, Parser(ExpectValue, frames + [ArrFrame(elems, true)]), pos)
         == DeliverElements(env, limit, frames, elems, Elements(env, limit, pos))
    decreases limit - pos, 1
  {
    hide NextToken, Run, Value, HandleToken;
    var inner := frames + [ArrFrame(elems, true)];
    ValueRun(env, limit, inner, pos);
    var v := Value(env, limit, pos);
    if v.Some? {
      assert Below(inner) == frames;
      ElementDone(env, limit, frames, elems, v.value.value, v.value.next);
    }
  }

  /** After an element: the array closes, or the next element follows. */
  lemma {:induction false} ElementDone(env: Input, limit: nat, frames: seq<Frame>, elems: seq<Tree>, t: Tree, next: nat)
    requires next <= limit <= |env.text| && AllAwaiting(frames)
    ensures var p := Parser(NextArrayElement, frames + [ArrFrame(elems + [t], false)]);
            var sep := NextToken(env.text, limit, next);
            Run(env, limit, p, next) ==
            if sep.Bad? then None
            else if sep.kind == ClosedBracket then
              DeliverElements(env, limit, frames, elems, Some(Parsed([t], sep.next)))
            else if sep.kind == Comma then
              var rest := Elements(env, limit, sep.next);
              if rest.None? then None
              else DeliverElements(env, limit, frames, elems, Some(Parsed([t] + rest.value.value, rest.value.next)))
            else None
    decreases limit - next, 2
  {
    hide NextToken, Run, Elements;
    var p := Parser(NextArrayElement, frames + [ArrFrame(elems + [t], false)]);
    assert Below(p.frames) == frames;
    RunUnfold(env, limit, p, next);
    var sep := NextToken(env.text, limit, next);
    if sep.Token? && sep.kind == Comma {
      ElementsRun(env, limit, frames, elems + [t], sep.next);
      var rest := Elements(env, limit, sep.next);
      if rest.Some? {
        assert elems + ([t] + rest.value.value) == (elems + [t]) + rest.value.value;
      }
    }
  }

  lemma {:induction false} MembersRun(env: Input, limit: nat, frames: seq<Frame>, kvs: seq<Member>, pos: nat)
    requires pos <= limit <= |env.text| && AllAwaiting(frames)
    ensures Run(env, limit, Parser(NextKv, frames + [ObjFrame(kvs, None)]), pos)
         == DeliverMembers(env, limit, frames, kvs, Members(env, limit, pos))
    decreases limit - pos, 1
  {
    hide NextToken, Run, Value;
    var outer := frames + [ObjFrame(kvs, None)];
    assert Below(outer) == frames;
    RunUnfold(env, limit, Parser(NextKv, outer), pos);
    var key := NextToken(env.text, limit, pos);
    if key.Token? && key.kind == String {
      var inner := frames + [ObjFrame(kvs, Some(Slice(env, key)))];
      RunUnfold(env, limit, Parser(KvColon, inner), key.next);
      var colon := NextToken(env.text, limit, key.next);
      if colon.Token? && colon.kind == Colon {
        ValueRun(env, limit, inner, colon.next);
        var v := Value(env, limit, colon.next);
        if v.Some? {
          assert Below(inner) == frames;
          MemberDone(env, limit, frames, kvs, Member(Slice(env, key), v.value.value), v.value.next);
        }
      }
    }
  }

  /** After a member: the object closes, or the next member follows. */
  lemma {:induction false} MemberDone(env: Input, limit: nat, frames: seq<Frame>, kvs: seq<Member>, m: Member,
                                      next: nat)
    requires next <= limit <= |env.text| && AllAwaiting(frames)
    ensures var p := Parser(KvEnd, frames + [ObjFrame(kvs + [m], None)]);
            var sep := NextToken(env.text, limit, next);
            Run(env, limit, p, next) ==
            if sep.Bad? then None
            else if sep.kind == ClosedBrace then DeliverMembers(env, limit, frames, kvs, Some(Parsed([m], sep.next)))
            else if sep.kind == Comma then
              var rest := Members(env, limit, sep.next);
              if rest.None? then None
              else DeliverMembers(env, limit, frames, kvs, Some(Parsed([m] + rest.value.value, rest.value.next)))
            else None
    decreases limit - next, 2
  {
    hide NextToken, Run, Members;
    var p := Parser(KvEnd, frames + [ObjFrame(kvs + [m], None)]);
    assert Below(p.frames) == frames;
    RunUnfold(env, limit, p, next);
    var sep := NextToken(env.text, limit, next);
    if sep.Token? && sep.kind == Comma {
      MembersRun(env, limit, frames, kvs + [m], sep.next);
      var rest := Members(env, limit, sep.next);
      if rest.Some? {
        assert kvs + ([m] + rest.value.value) == (kvs + [m]) + rest.value.value;
      }
    }
  }

  /** The pushdown parser accepts exactly the grammar's documents, with the grammar's tree and end position. */
  lemma RunIsDocument(env: Input, limit: nat, pos: nat)
    requires pos <= limit <= |env.text|
    ensures Run(env, limit, START, pos) == Root(env, limit, pos)
  {
    hide NextToken, Run, Value;
    RunUnfold(env, limit, START, pos);
    var tok := NextToken(env.text, limit, pos);
    if !(tok.Token? && tok.kind == Eof) {
      ValueRun(env, limit, [], pos);
    }
  }
}
