/** The main thread's parse, which skips what workers have parsed, against the sequential parse. */
module Parallel {
  import opened Bytes
  import opened Tokenizer
  import opened Trees
  import opened Grammar
  import opened Pushdown
  import opened Encoding
  import opened Documents
  import opened Preparse
  import opened Lookup

  // ----- Specification of the main thread -----

  datatype MainResult = MainResult(root: Option<Tree>, next: nat, scenarios: seq<bool>)

  /** Strings move the iterator on; opening tokens are looked up. */
  function Consult(chunks: seq<Chunk>, it: Iter, tok: Scan): (r: (Iter, Option<Entry>))
    requires Fits(chunks, it) && tok.Token?
    ensures Fits(chunks, r.0) && it.index <= r.0.index
    ensures forall j :: 0 <= j <= it.index ==> r.0.scenarios[j] == it.scenarios[j]
    ensures r.1.Some? ==> IsOpen(tok.kind) && r.1.value.start == tok.start
  {
    if tok.kind == String then (Advance(chunks, it, tok.start + tok.size + 1, true), None)
    else if IsOpen(tok.kind) then Find(chunks, it, tok.start)
    else (it, None)
  }

  /** The value that the handle to an entry stands for. */
  function TreeAt(env: Input, limit: nat, start: nat): Tree
    requires limit <= |env.text|
  {
    if start > limit then Null
    else
      var v := Value(env, limit, start);
      if v.None? then Null else v.value.value
  }

  function HandleTo(env: Input, limit: nat, it: Iter, e: Entry): Tree
    requires limit <= |env.text|
  {
    Ref(it.index, e.offset, TreeAt(env, limit, e.start))
  }

  /** `thsn_parser_add_value_handle` takes a handle only for an element of an open composite, and not for the first
      element of an array. */
  predicate TakesHandle(p: Parser) {
    p.state == ExpectValue && p.frames != []
  }

  /** The parser once the handle has been taken. */
  function WithHandle(env: Input, limit: nat, p: Parser, it: Iter, e: Entry): (q: Parser)
    requires limit <= |env.text| && Sound(p) && TakesHandle(p)
    ensures Sound(q)
  {
    Settle(Completed(p.frames, HandleTo(env, limit, it, e))).p
  }

  /** `thsn_main_thread`. */
  function MainRun(env: Input, limit: nat, chunks: seq<Chunk>, it: Iter, p: Parser, pos: nat): (r: Option<MainResult>)
    requires Sound(p) && Fits(chunks, it) && pos <= limit <= |env.text|
    decreases limit - pos
  {
    var tok := NextToken(env.text, limit, pos);
    if tok.Bad? then None
    else
      var (it', hit) := Consult(chunks, it, tok);
      if hit.Some? then
        if !TakesHandle(p) || hit.value.size == 0 || tok.start + hit.value.size > limit then None
        else
          MainRun(env, limit, chunks, it', WithHandle(env, limit, p, it', hit.value), tok.start + hit.value.size)
      else
        match Step(env, p, tok)
        case Running(q) => MainRun(env, limit, chunks, it', q, tok.next)
        case Done(root) => Some(MainResult(root, tok.next, it'.scenarios))
        case Stuck => None
        case Error => None
  }

  lemma MainUnfold(env: Input, limit: nat, chunks: seq<Chunk>, it: Iter, p: Parser, pos: nat)
    requires Sound(p) && Fits(chunks, it) && pos <= limit <= |env.text|
    ensures MainRun(env, limit, chunks, it, p, pos) ==
      var tok := NextToken(env.text, limit, pos);
      if tok.Bad? then None
      else
        var (it', hit) := Consult(chunks, it, tok);
        if hit.Some? then
          if !TakesHandle(p) || hit.value.size == 0 || tok.start + hit.value.size > limit then None
          else MainRun(env, limit, chunks, it', WithHandle(env, limit, p, it', hit.value), tok.start + hit.value.size)
        else
          match Step(env, p, tok)
          case Running(q) => MainRun(env, limit, chunks, it', q, tok.next)
          case Done(root) => Some(MainResult(root, tok.next, it'.scenarios))
          case Stuck => None
          case Error => None
  {
    hide NextToken, Consult, Step, Settle;
  }

  /** Somewhere along the run a value is found in a table where the parser could take a value but takes no handle: as
      the first element of an array, or as the whole document. */
  predicate Refused(env: Input, limit: nat, chunks: seq<Chunk>, it: Iter, p: Parser, pos: nat)
    requires Sound(p) && Fits(chunks, it) && pos <= limit <= |env.text|
    decreases limit - pos
  {
    var tok := NextToken(env.text, limit, pos);
    tok.Token? &&
    var (it', hit) := Consult(chunks, it, tok);
    if hit.Some? then
      if TakesHandle(p) && hit.value.size > 0 && tok.start + hit.value.size <= limit then
        Refused(env, limit, chunks, it', WithHandle(env, limit, p, it', hit.value), tok.start + hit.value.size)
      else p.state == FirstArrayElement || (p.state == ExpectValue && p.frames == [])
    else
      var o := Step(env, p, tok);
      o.Running? && Refused(env, limit, chunks, it', o.p, tok.next)
  }

  // ----- The parser forgets handles -----

  function DerefFrame(f: Frame): Frame {
    match f
    case ArrFrame(elems, pending) => ArrFrame(DerefAll(elems), pending)
    case ObjFrame(kvs, key) => ObjFrame(DerefMembers(kvs), key)
  }

  function DerefFrames(frames: seq<Frame>): (r: seq<Frame>)
    ensures |r| == |frames|
  {
    seq(|frames|, i requires 0 <= i < |frames| => DerefFrame(frames[i]))
  }

  function DerefParser(p: Parser): (r: Parser)
    requires Sound(p)
    ensures Sound(r)
  {
    Parser(p.state, DerefFrames(p.frames))
  }

  function DerefRoot(root: Option<Tree>): Option<Tree> {
    if root.None? then None else Some(Deref(root.value))
  }

  function DerefEffect(e: Effect): Effect
    requires e.Continue? ==> Sound(e.p)
  {
    match e
    case Continue(p) => Continue(DerefParser(p))
    case Completed(frames, t) => Completed(DerefFrames(frames), Deref(t))
    case EofTaken(frames) => EofTaken(DerefFrames(frames))
    case Failed => Failed
  }

  function DerefOutcome(o: Outcome): Outcome
    requires o.Running? ==> Sound(o.p)
  {
    match o
    case Running(p) => Running(DerefParser(p))
    case Done(root) => Done(DerefRoot(root))
    case Stuck => Stuck
    case Error => Error
  }

  lemma DerefPush(frames: seq<Frame>, f: Frame)
    ensures DerefFrames(frames + [f]) == DerefFrames(frames) + [DerefFrame(f)]
  {
    hide DerefFrame;
  }

  lemma DerefBelow(frames: seq<Frame>)
    requires frames != []
    ensures DerefFrames(Below(frames)) == Below(DerefFrames(frames))
      && DerefFrame(Top(frames)) == Top(DerefFrames(frames))
  {
    hide DerefFrame;
  }

  lemma DerefPlug(f: Frame, t: Tree)
    requires Awaiting(f)
    ensures DerefFrame(Plug(f, t)) == Plug(DerefFrame(f), Deref(t))
  {
    hide Deref;
    match f
    case ArrFrame(elems, _) => assert DerefAll(elems + [t]) == DerefAll(elems) + [Deref(t)];
    case ObjFrame(kvs, key) =>
      assert DerefMembers(kvs + [Member(key.value, t)]) == DerefMembers(kvs) + [Member(key.value, Deref(t))];
  }

  lemma DerefAwaiting(frames: seq<Frame>)
    requires AllAwaiting(frames)
    ensures AllAwaiting(DerefFrames(frames))
  {
  }

  /** Handling a token does not look at the values already parsed. */
  lemma HandleDeref(env: Input, p: Parser, tok: Scan)
    requires Sound(p) && tok.Token? && tok.start + tok.size <= |env.text|
    ensures HandleToken(env, DerefParser(p), tok) == DerefEffect(HandleToken(env, p, tok))
  {
    hide Atom, Slice, DerefFrames, ValueToken;
    var frames := p.frames;
    match p.state
    case ExpectValue =>
      DerefAwaiting(frames);
      ValueTokenDeref(env, frames, tok);
    case FirstArrayElement =>
      DerefPush(frames, ArrFrame([], true));
      DerefAwaiting(frames + [ArrFrame([], true)]);
      ValueTokenDeref(env, frames + [ArrFrame([], true)], tok);
    case NextArrayElement =>
      DerefBelow(frames);
      DerefPush(Below(frames), ArrFrame(Top(frames).elems, true));
    case FirstKv => DerefPush(frames, ObjFrame([], Some(Slice(env, tok))));
    case KvColon =>
    case KvEnd => DerefBelow(frames);
    case NextKv =>
      DerefBelow(frames);
      DerefPush(Below(frames), ObjFrame(Top(frames).kvs, Some(Slice(env, tok))));
  }

  lemma ValueTokenDeref(env: Input, frames: seq<Frame>, tok: Scan)
    requires tok.Token? && tok.start + tok.size <= |env.text|
    requires AllAwaiting(frames) && AllAwaiting(DerefFrames(frames))
    ensures ValueToken(env, DerefFrames(frames), tok) == DerefEffect(ValueToken(env, frames, tok))
  {
    hide Atom, DerefFrames;
    var atom := Atom(env, tok);
    if atom.Some? {
      DerefNoRefs(atom.value);
    }
  }

  lemma SettleDeref(e: Effect)
    requires (e.Completed? ==> AllAwaiting(e.frames)) && (e.Continue? ==> Sound(e.p))
    ensures (e.Completed? ==> AllAwaiting(DerefFrames(e.frames)))
    ensures Settle(DerefEffect(e)) == DerefOutcome(Settle(e))
  {
    hide Deref;
    if e.Completed? && e.frames != [] {
      DerefBelow(e.frames);
      DerefPlug(Top(e.frames), e.value);
      DerefPush(Below(e.frames), Plug(Top(e.frames), e.value));
    }
  }

  lemma StepDeref(env: Input, p: Parser, tok: Scan)
    requires Sound(p) && tok.Token? && tok.start + tok.size <= |env.text|
    ensures Step(env, DerefParser(p), tok) == DerefOutcome(Step(env, p, tok))
  {
    hide HandleToken, Settle, DerefEffect, DerefOutcome;
    HandleDeref(env, p, tok);
    SettleDeref(HandleToken(env, p, tok));
  }

  // ----- The simulation -----

  /** The iterator has found the value that starts at the opening token, and it lies ahead within the text. */
  ghost predicate HitOk(env: Input, limit: nat, chunks: seq<Chunk>, it: Iter, pos: nat, tok: Scan, e: Entry)
    requires pos <= limit <= |env.text| && tok.Token?
  {
    && e.start == tok.start && e.size > 0 && tok.start + e.size <= limit
    && Value(env, limit, pos) == Some(Parsed(TreeAt(env, limit, e.start), e.start + e.size))
    && NoRefs(TreeAt(env, limit, e.start))
    && Fits(chunks, it) && it.index > 0 && e in TableOf(chunks[it.index], it.scenarios[it.index])
    && IterOk(chunks, it, e.start + e.size)
  }

  lemma HitIsValue(env: Input, limit: nat, chunks: seq<Chunk>, it: Iter, pos: nat)
    requires ChunksOk(env, limit, chunks) && IterOk(chunks, it, pos) && pos <= limit <= |env.text|
    ensures var tok := NextToken(env.text, limit, pos);
            tok.Token? ==>
              var (it', hit) := Consult(chunks, it, tok);
              IterOk(chunks, it', tok.next) && (hit.Some? ==> HitOk(env, limit, chunks, it', pos, tok, hit.value))
  {
    hide NextToken, ChunksOk, IterOk, Value, Advance, Find, HitOk;
    IterFits(chunks, it, pos);
    var tok := NextToken(env.text, limit, pos);
    StringTokenEnd(env.text, limit, pos);
    if tok.Bad? {
    } else if tok.kind == String {
      AdvanceOk(env, limit, chunks, it, pos, tok.next, true);
    } else if IsOpen(tok.kind) {
      OpenHit(env, limit, chunks, it, pos, tok);
    } else {
      OkLater(chunks, it, pos, tok.next);
    }
  }

  lemma IterFits(chunks: seq<Chunk>, it: Iter, pos: nat)
    requires IterOk(chunks, it, pos)
    ensures Fits(chunks, it)
  {
  }

  lemma OpenHit(env: Input, limit: nat, chunks: seq<Chunk>, it: Iter, pos: nat, tok: Scan)
    requires ChunksOk(env, limit, chunks) && IterOk(chunks, it, pos) && pos <= limit <= |env.text|
    requires tok == NextToken(env.text, limit, pos) && tok.Token? && IsOpen(tok.kind)
    ensures var (it', hit) := Find(chunks, it, tok.start);
            IterOk(chunks, it', tok.next) && (hit.Some? ==> HitOk(env, limit, chunks, it', pos, tok, hit.value))
  {
    hide NextToken, ChunksOk, IterOk, Advance, Find, Elements, Members;
    IterFits(chunks, it, pos);
    TokenFromItsStart(env.text, limit, pos);
    FindIsLookup(env, limit, chunks, it, pos, tok.start);
    var (it', hit) := Find(chunks, it, tok.start);
    if hit.Some? {
      EntryOfHit(env, limit, chunks, it', hit.value);
      OkLater(chunks, it', tok.start, tok.start + hit.value.size);
    }
    OkLater(chunks, it', tok.start, tok.next);
  }

  lemma EntryOfHit(env: Input, limit: nat, chunks: seq<Chunk>, it: Iter, e: Entry)
    requires ChunksOk(env, limit, chunks) && Fits(chunks, it) && limit <= |env.text|
    requires e in TableOf(chunks[it.index], it.scenarios[it.index])
    ensures it.index > 0 && e.size > 0 && e.start + e.size <= limit
    ensures Value(env, limit, e.start) == Some(Parsed(TreeAt(env, limit, e.start), e.start + e.size))
    ensures NoRefs(TreeAt(env, limit, e.start))
    ensures Stored(env.text, ResultOf(chunks[it.index], it.scenarios[it.index]).segment, e.offset,
                   TreeAt(env, limit, e.start))
  {
    hide ChunksOk, Value, Stored;
    var table := TableOf(chunks[it.index], it.scenarios[it.index]);
    var i :| 0 <= i < |table| && table[i] == e;
    EntriesOk(env, limit, chunks, it.index, it.scenarios[it.index], i);
  }

  /** What the main thread makes of a run, against the sequential run from the same place. */
  ghost predicate Agrees(m: Option<MainResult>, s: Answer, refused: bool) {
    && (m.Some? <==> s.Some? && !refused)
    && (m.Some? ==> s.value == Parsed(DerefRoot(m.value.root), m.value.next))
  }

  /** The main parser with skips tracks the sequential parser, up to following handles: it fails exactly when the
      sequential parser does or a found value is refused, and otherwise ends at the same place with the same value. */
  lemma {:induction false} Simulation(env: Input, limit: nat, chunks: seq<Chunk>, it: Iter, p: Parser, pos: nat)
    requires ChunksOk(env, limit, chunks) && IterOk(chunks, it, pos) && Sound(p) && pos <= limit <= |env.text|
    ensures Fits(chunks, it)
    ensures Agrees(MainRun(env, limit, chunks, it, p, pos), Run(env, limit, DerefParser(p), pos),
                   Refused(env, limit, chunks, it, p, pos))
    decreases limit - pos
  {
    hide NextToken, ChunksOk, IterOk, Consult, Step, Settle, Value, DerefFrames, TreeAt, Run, WithHandle, HitOk;
    IterFits(chunks, it, pos);
    var tok := NextToken(env.text, limit, pos);
    HitIsValue(env, limit, chunks, it, pos);
    RunUnfold(env, limit, DerefParser(p), pos);
    if tok.Token? {
      var (it', hit) := Consult(chunks, it, tok);
      if hit.Some? {
        HitMeans(env, limit, chunks, it', pos, tok, hit.value);
        HitTracks(env, limit, chunks, it', p, pos, tok, hit.value);
      } else {
        StepDeref(env, p, tok);
        var o := Step(env, p, tok);
        if o.Running? {
          Simulation(env, limit, chunks, it', o.p, tok.next);
        }
      }
    }
  }

  lemma HitMeans(env: Input, limit: nat, chunks: seq<Chunk>, it: Iter, pos: nat, tok: Scan, e: Entry)
    requires pos <= limit <= |env.text| && tok.Token? && HitOk(env, limit, chunks, it, pos, tok, e)
    ensures e.start == tok.start && e.size > 0 && tok.start + e.size <= limit && Fits(chunks, it)
    ensures IterOk(chunks, it, tok.start + e.size)
  {
    hide IterOk, Value;
  }

  /** At a found value: either the handle is taken, and the runs go on with the value in place on both sides, or the
      state is one where the sequential parser fails or the value is refused. */
  lemma {:induction false} HitTracks(env: Input, limit: nat, chunks: seq<Chunk>, it: Iter, p: Parser, pos: nat,
                                     tok: Scan,
                                     e: Entry)
    requires ChunksOk(env, limit, chunks) && Sound(p) && pos <= limit <= |env.text|
    requires tok == NextToken(env.text, limit, pos) && tok.Token? && IsOpen(tok.kind)
    requires HitOk(env, limit, chunks, it, pos, tok, e)
    ensures TakesHandle(p) ==>
      Agrees(MainRun(env, limit, chunks, it, WithHandle(env, limit, p, it, e), tok.start + e.size),
             Run(env, limit, DerefParser(p), pos),
             Refused(env, limit, chunks, it, WithHandle(env, limit, p, it, e), tok.start + e.size))
    ensures p.state != FirstArrayElement && p.state != ExpectValue ==> Run(env, limit, DerefParser(p), pos).None?
    decreases limit - pos, 0
  {
    hide NextToken, ChunksOk, IterOk, Run, Value, MainRun, Refused, TreeAt, Settle;
    if TakesHandle(p) {
      var ref := HandleTo(env, limit, it, e);
      SettleDeref(Completed(p.frames, ref));
      SettleRuns(p.frames, ref);
      ValueRun(env, limit, DerefFrames(p.frames), pos);
      Simulation(env, limit, chunks, it, WithHandle(env, limit, p, it, e), tok.start + e.size);
    } else if p.state != FirstArrayElement && p.state != ExpectValue {
      RunUnfold(env, limit, DerefParser(p), pos);
      OpenFails(env, DerefParser(p), tok);
    }
  }

  lemma SettleRuns(frames: seq<Frame>, t: Tree)
    requires frames != [] && AllAwaiting(frames)
    ensures Settle(Completed(frames, t)).Running?
  {
  }

  /** Where no value is expected, an opening token is an error. */
  lemma OpenFails(env: Input, p: Parser, tok: Scan)
    requires Sound(p) && p.state != FirstArrayElement && p.state != ExpectValue
    requires tok.Token? && IsOpen(tok.kind) && tok.start + tok.size <= |env.text|
    ensures Step(env, p, tok) == Error
  {
  }

  // ----- Handle integrity -----

  /** Every handle in the tree stands for a value of its chunk's table, in the scenario settled on for that chunk,
      which no later step of the run can change: the chunk is not ahead of the iterator. */
  ghost predicate Tied(env: Input, limit: nat, chunks: seq<Chunk>, scenarios: seq<bool>, upTo: nat, t: Tree)
    requires limit <= |env.text| && |scenarios| == |chunks|
  {
    match t
    case Ref(segment, offset, target) =>
      && 0 < segment <= upTo && segment < |chunks|
      && exists e ::
           && e in TableOf(chunks[segment], scenarios[segment])
           && e.offset == offset && target == TreeAt(env, limit, e.start)
    case Arr(elems) => forall i :: 0 <= i < |elems| ==> Tied(env, limit, chunks, scenarios, upTo, elems[i])
    case Obj(kvs) => forall i :: 0 <= i < |kvs| ==> Tied(env, limit, chunks, scenarios, upTo, kvs[i].value)
    case _ => true
  }

  ghost predicate FrameTied(env: Input, limit: nat, chunks: seq<Chunk>, scenarios: seq<bool>, upTo: nat, f: Frame)
    requires limit <= |env.text| && |scenarios| == |chunks|
  {
    match f
    case ArrFrame(elems, _) => Tied(env, limit, chunks, scenarios, upTo, Arr(elems))
    case ObjFrame(kvs, _) => Tied(env, limit, chunks, scenarios, upTo, Obj(kvs))
  }

  ghost predicate AllTied(env: Input, limit: nat, chunks: seq<Chunk>, it: Iter, frames: seq<Frame>)
    requires limit <= |env.text| && Fits(chunks, it)
  {
    forall i :: 0 <= i < |frames| ==> FrameTied(env, limit, chunks, it.scenarios, it.index, frames[i])
  }

  /** A settled scenario stays: what is tied now stays tied. */
  lemma {:induction false} TiedLater(env: Input, limit: nat, chunks: seq<Chunk>, scenarios: seq<bool>, upTo: nat,
                                     scenarios': seq<bool>, upTo': nat, t: Tree)
    requires limit <= |env.text| && |scenarios| == |scenarios'| == |chunks| && upTo <= upTo'
    requires forall j :: 0 <= j <= upTo && j < |chunks| ==> scenarios'[j] == scenarios[j]
    requires Tied(env, limit, chunks, scenarios, upTo, t)
    ensures Tied(env, limit, chunks, scenarios', upTo', t)
  {
    hide TreeAt;
    match t
    case Arr(elems) =>
      forall i | 0 <= i < |elems| ensures Tied(env, limit, chunks, scenarios', upTo', elems[i]) {
        TiedLater(env, limit, chunks, scenarios, upTo, scenarios', upTo', elems[i]);
      }
    case Obj(kvs) =>
      forall i | 0 <= i < |kvs| ensures Tied(env, limit, chunks, scenarios', upTo', kvs[i].value) {
        TiedLater(env, limit, chunks, scenarios, upTo, scenarios', upTo', kvs[i].value);
      }
    case _ =>
  }

  lemma FramesTiedLater(env: Input, limit: nat, chunks: seq<Chunk>, it: Iter, it': Iter, frames: seq<Frame>)
    requires limit <= |env.text| && Fits(chunks, it) && Fits(chunks, it') && it.index <= it'.index
    requires forall j :: 0 <= j <= it.index ==> it'.scenarios[j] == it.scenarios[j]
    requires AllTied(env, limit, chunks, it, frames)
    ensures AllTied(env, limit, chunks, it', frames)
  {
    hide Tied;
    forall i | 0 <= i < |frames| ensures FrameTied(env, limit, chunks, it'.scenarios, it'.index, frames[i]) {
      assert FrameTied(env, limit, chunks, it.scenarios, it.index, frames[i]);
      var t := if frames[i].ArrFrame? then Arr(frames[i].elems) else Obj(frames[i].kvs);
      TiedLater(env, limit, chunks, it.scenarios, it.index, it'.scenarios, it'.index, t);
    }
  }

  lemma {:induction false} NoRefsTied(env: Input, limit: nat, chunks: seq<Chunk>, scenarios: seq<bool>, upTo: nat,
                                      t: Tree)
    requires limit <= |env.text| && |scenarios| == |chunks| && NoRefs(t)
    ensures Tied(env, limit, chunks, scenarios, upTo, t)
  {
    match t
    case Arr(elems) =>
      forall i | 0 <= i < |elems| ensures Tied(env, limit, chunks, scenarios, upTo, elems[i]) {
        NoRefsTied(env, limit, chunks, scenarios, upTo, elems[i]);
      }
    case Obj(kvs) =>
      forall i | 0 <= i < |kvs| ensures Tied(env, limit, chunks, scenarios, upTo, kvs[i].value) {
        NoRefsTied(env, limit, chunks, scenarios, upTo, kvs[i].value);
      }
    case _ =>
  }

  ghost predicate EffectTied(env: Input, limit: nat, chunks: seq<Chunk>, it: Iter, e: Effect)
    requires limit <= |env.text| && Fits(chunks, it)
  {
    match e
    case Continue(p) => AllTied(env, limit, chunks, it, p.frames)
    case Completed(frames, t) =>
      AllTied(env, limit, chunks, it, frames) && Tied(env, limit, chunks, it.scenarios, it.index, t)
    case EofTaken(_) => true
    case Failed => true
  }

  ghost predicate OutcomeTied(env: Input, limit: nat, chunks: seq<Chunk>, it: Iter, o: Outcome)
    requires limit <= |env.text| && Fits(chunks, it)
  {
    && (o.Running? ==> AllTied(env, limit, chunks, it, o.p.frames))
    && (o.Done? && o.root.Some? ==> Tied(env, limit, chunks, it.scenarios, it.index, o.root.value))
  }

  lemma HandleTied(env: Input, limit: nat, chunks: seq<Chunk>, it: Iter, p: Parser, tok: Scan)
    requires limit <= |env.text| && Fits(chunks, it) && Sound(p) && tok.Token? && tok.start + tok.size <= |env.text|
    requires AllTied(env, limit, chunks, it, p.frames)
    ensures EffectTied(env, limit, chunks, it, HandleToken(env, p, tok))
  {
    hide Atom, Slice, TreeAt;
    var atom := Atom(env, tok);
    if atom.Some? {
      NoRefsTied(env, limit, chunks, it.scenarios, it.index, atom.value);
    }
  }

  /** A token never makes a handle. */
  lemma NoHandleMade(env: Input, p: Parser, tok: Scan)
    requires Sound(p) && tok.Token? && tok.start + tok.size <= |env.text|
    ensures var o := Settle(HandleToken(env, p, tok)); o.Done? && o.root.Some? ==> !o.root.value.Ref?
  {
    hide Slice, IntegerValue, DoubleValue;
  }

  lemma SettleTied(env: Input, limit: nat, chunks: seq<Chunk>, it: Iter, e: Effect)
    requires limit <= |env.text| && Fits(chunks, it)
    requires (e.Completed? ==> AllAwaiting(e.frames)) && (e.Continue? ==> Sound(e.p))
    requires EffectTied(env, limit, chunks, it, e)
    ensures OutcomeTied(env, limit, chunks, it, Settle(e))
  {
    hide TreeAt;
  }

  /** Handles in the finished document, and the scenario of every chunk they lead to. */
  lemma {:induction false} MainTied(env: Input, limit: nat, chunks: seq<Chunk>, it: Iter, p: Parser, pos: nat)
    requires ChunksOk(env, limit, chunks) && IterOk(chunks, it, pos) && Sound(p) && pos <= limit <= |env.text|
    requires Fits(chunks, it) && AllTied(env, limit, chunks, it, p.frames)
    ensures var m := MainRun(env, limit, chunks, it, p, pos);
            m.Some? ==>
              && |m.value.scenarios| == |chunks|
              && (m.value.root.Some? ==> Tied(env, limit, chunks, m.value.scenarios, |chunks|, m.value.root.value))
              && (m.value.root.Some? ==> !m.value.root.value.Ref?)
              && (forall j :: 0 <= j <= it.index ==> m.value.scenarios[j] == it.scenarios[j])
    decreases limit - pos
  {
    hide NextToken, ChunksOk, IterOk, Consult, HandleToken, Settle, Value, TreeAt, HitOk, Tied, AllTied;
    var tok := NextToken(env.text, limit, pos);
    HitIsValue(env, limit, chunks, it, pos);
    if tok.Token? {
      var (it', hit) := Consult(chunks, it, tok);
      FramesTiedLater(env, limit, chunks, it, it', p.frames);
      if hit.Some? {
        if TakesHandle(p) {
          RefTied(env, limit, chunks, it', pos, tok, hit.value);
          SettleTied(env, limit, chunks, it', Completed(p.frames, HandleTo(env, limit, it', hit.value)));
          SettleRuns(p.frames, HandleTo(env, limit, it', hit.value));
          MainTied(env, limit, chunks, it', WithHandle(env, limit, p, it', hit.value), tok.start + hit.value.size);
        }
      } else {
        HandleTied(env, limit, chunks, it', p, tok);
        NoHandleMade(env, p, tok);
        SettleTied(env, limit, chunks, it', HandleToken(env, p, tok));
        var o := Step(env, p, tok);
        if o.Running? {
          MainTied(env, limit, chunks, it', o.p, tok.next);
        } else if o.Done? && o.root.Some? {
          TiedLater(env, limit, chunks, it'.scenarios, it'.index, it'.scenarios, |chunks|, o.root.value);
        }
      }
    }
  }

  lemma RefTied(env: Input, limit: nat, chunks: seq<Chunk>, it: Iter, pos: nat, tok: Scan, e: Entry)
    requires pos <= limit <= |env.text| && tok.Token? && HitOk(env, limit, chunks, it, pos, tok, e)
    ensures Tied(env, limit, chunks, it.scenarios, it.index, HandleTo(env, limit, it, e))
    ensures IterOk(chunks, it, tok.start + e.size) && e.size > 0 && tok.start + e.size <= limit
  {
    hide Value, TreeAt, IterOk;
  }

  // ----- The whole parse -----

  /** The main thread's result, and the refusals on the way to it, from the beginning of the text. */
  function MainAnswer(env: Input, limit: nat, chunks: seq<Chunk>): Option<MainResult>
    requires limit <= |env.text| && chunks != []
  {
    MainRun(env, limit, chunks, IterInit(chunks), START, 0)
  }

  predicate AnyRefused(env: Input, limit: nat, chunks: seq<Chunk>)
    requires limit <= |env.text| && chunks != []
  {
    Refused(env, limit, chunks, IterInit(chunks), START, 0)
  }

  /** For every input, every number of chunks and whatever the workers guessed: the parallel parse succeeds exactly
      when the sequential one does and no found value was refused, and then with the same tree and the same end. */
  lemma ParallelIsSequential(env: Input, limit: nat, chunks: seq<Chunk>)
    requires ChunksOk(env, limit, chunks) && limit <= |env.text| && chunks != []
    ensures var m, g := MainAnswer(env, limit, chunks), Root(env, limit, 0);
            && (m.Some? <==> g.Some? && !AnyRefused(env, limit, chunks))
            && (m.Some? ==> g.value == Parsed(DerefRoot(m.value.root), m.value.next))
  {
    hide ChunksOk, MainRun, Refused, Run, Root, IterOk;
    InitOk(env, limit, chunks);
    Simulation(env, limit, chunks, IterInit(chunks), START, 0);
    assert DerefParser(START) == START;
    RunIsDocument(env, limit, 0);
  }

  /** The document: the main segment, and of every worker the segment of the scenario settled on. */
  function DocumentOf(chunks: seq<Chunk>, main: seq<Byte>, scenarios: seq<bool>): (d: Doc)
    requires |scenarios| == |chunks|
    ensures |d| == |chunks|
  {
    seq(|chunks|, i requires 0 <= i < |chunks| => if i == 0 then main else ResultOf(chunks[i], scenarios[i]).segment)
  }

  lemma RefLinked(env: Input, limit: nat, chunks: seq<Chunk>, main: seq<Byte>, scenarios: seq<bool>, t: Tree)
    requires ChunksOk(env, limit, chunks) && limit <= |env.text| && |scenarios| == |chunks|
    requires t.Ref? && Tied(env, limit, chunks, scenarios, |chunks|, t)
    ensures Linked(env.text, DocumentOf(chunks, main, scenarios), t)
  {
    hide ChunksOk, TreeAt, Enc;
    var e :| e in TableOf(chunks[t.segment], scenarios[t.segment]) && e.offset == t.offset
      && t.target == TreeAt(env, limit, e.start);
    EntryOfHit(env, limit, chunks, Iter(t.segment, [], None, scenarios), e);
    assert DocumentOf(chunks, main, scenarios)[t.segment] == ResultOf(chunks[t.segment], scenarios[t.segment]).segment;
  }

  /** Every handle leads to a complete value in an installed segment, and that value holds no handles. */
  lemma {:induction false} TiedLinked(env: Input, limit: nat, chunks: seq<Chunk>, main: seq<Byte>,
                                      scenarios: seq<bool>, t: Tree)
    requires ChunksOk(env, limit, chunks) && limit <= |env.text| && |scenarios| == |chunks|
    requires Tied(env, limit, chunks, scenarios, |chunks|, t)
    ensures Linked(env.text, DocumentOf(chunks, main, scenarios), t)
  {
    hide ChunksOk, TreeAt, DocumentOf, Enc;
    match t
    case Ref(_, _, _) => RefLinked(env, limit, chunks, main, scenarios, t);
    case Arr(elems) =>
      forall i | 0 <= i < |elems| ensures Linked(env.text, DocumentOf(chunks, main, scenarios), elems[i]) {
        TiedLinked(env, limit, chunks, main, scenarios, elems[i]);
      }
    case Obj(kvs) =>
      forall i | 0 <= i < |kvs| ensures Linked(env.text, DocumentOf(chunks, main, scenarios), kvs[i].value) {
        TiedLinked(env, limit, chunks, main, scenarios, kvs[i].value);
      }
    case _ =>
  }

  /** What the main thread stored, together with the installed segments, decodes to the tree with handles followed. */
  lemma ParallelDecodes(env: Input, limit: nat, chunks: seq<Chunk>, main: seq<Byte>)
    requires ChunksOk(env, limit, chunks) && limit <= |env.text| && chunks != []
    requires var m := MainAnswer(env, limit, chunks);
             m.Some? && m.value.root.Some? && Enc(env.text, main, 0, |main|, m.value.root.value)
    ensures var m := MainAnswer(env, limit, chunks).value;
            && |m.scenarios| == |chunks|
            && DecodesTo(env.text, DocumentOf(chunks, main, m.scenarios), Deref(m.root.value))
            && Settled(env.text, DocumentOf(chunks, main, m.scenarios), ROOT, Deref(m.root.value))
  {
    hide ChunksOk, MainRun, Enc, Decode, IterOk, Tied;
    InitOk(env, limit, chunks);
    MainTied(env, limit, chunks, IterInit(chunks), START, 0);
    var m := MainAnswer(env, limit, chunks).value;
    TiedLinked(env, limit, chunks, main, m.scenarios, m.root.value);
    RootDecodes(env.text, DocumentOf(chunks, main, m.scenarios), |main|, m.root.value);
  }
}
