/** When the parallel parse accepts a text: a condition on the text and the number of threads alone. */
module Acceptance {
  import opened Bytes
  import opened Tokenizer
  import opened Trees
  import opened Grammar
  import opened Pushdown
  import opened Preparse
  import opened Lookup
  import opened Parallel
  import opened Refusals
  import opened Chunking
  import opened Existence

  // ----- What the text and the number of threads determine -----

  /** The table of a worker as far as the main thread looks at it: where regions start and how long they are. */
  function Listing(regions: seq<Region>): (r: seq<Entry>)
    ensures |r| == |regions|
  {
    seq(|regions|, i requires 0 <= i < |regions| => Entry(regions[i].start, regions[i].size, 0))
  }

  lemma CutsRise(size: nat, n: nat, i: nat)
    requires i < n
    ensures Cut(size, n, i) <= Cut(size, n, i + 1)
  {
    SizeOfChunk(size, n, i);
  }

  function SpeculativeChunk(env: Input, n: nat, i: nat): (c: Chunk)
    requires i < n
    ensures c.lo == Cut(|env.text|, n, i) <= c.hi == Cut(|env.text|, n, i + 1)
  {
    CutsRise(|env.text|, n, i);
    var lo, hi := Cut(|env.text|, n, i), Cut(|env.text|, n, i + 1);
    if i == 0 then Chunk(lo, hi, WorkerResult([], []), WorkerResult([], []))
    else
      Chunk(lo, hi, WorkerResult(Listing(Regions(env, hi, lo)), []),
            WorkerResult(Listing(Regions(env, hi, AfterString(env.text, hi, lo))), []))
  }

  function Speculation(env: Input, threads: nat): (chunks: seq<Chunk>)
    requires threads > 0
    ensures |chunks| == EffectiveThreads(|env.text|, threads)
  {
    var n := EffectiveThreads(|env.text|, threads);
    seq(n, i requires 0 <= i < n => SpeculativeChunk(env, n, i))
  }

  /** The main thread comes upon a listed value as the first element of an array or as the root. */
  predicate Refuses(env: Input, threads: nat)
    requires threads > 0
  {
    AnyRefused(env, |env.text|, Speculation(env, threads))
  }

  // ----- Chunks that list the same regions -----

  predicate AlikeTables(a: seq<Entry>, b: seq<Entry>) {
    |a| == |b| && forall i :: 0 <= i < |a| ==> AlikeEntries(a[i], b[i])
  }

  predicate AlikeEntries(a: Entry, b: Entry) {
    a.start == b.start && a.size == b.size
  }

  predicate Alike(c: seq<Chunk>, d: seq<Chunk>) {
    && |c| == |d|
    && (forall k :: 0 <= k < |c| ==> c[k].lo == d[k].lo && c[k].hi == d[k].hi)
    && (forall k, s: bool :: 0 <= k < |c| ==> AlikeTables(TableOf(c[k], s), TableOf(d[k], s)))
  }

  predicate AlikeFound(a: Option<Entry>, b: Option<Entry>) {
    (a.Some? <==> b.Some?) && (a.Some? ==> AlikeEntries(a.value, b.value))
  }

  predicate AlikeIters(it: Iter, jt: Iter) {
    && it.index == jt.index && it.scenarios == jt.scenarios
    && AlikeTables(it.rest, jt.rest) && AlikeFound(it.current, jt.current)
  }

  lemma {:induction false} BoundsAlike(c: seq<Chunk>, d: seq<Chunk>, k: nat, point: nat)
    requires Alike(c, d) && k <= |c|
    ensures ChunkBefore(c, k, point) == ChunkBefore(d, k, point)
    decreases |c| - k
  {
    hide AlikeTables;
    if k < |c| {
      BoundsAlike(c, d, k + 1, point);
    }
  }

  lemma AdvanceAlike(c: seq<Chunk>, it: Iter, d: seq<Chunk>, jt: Iter, point: nat, inString: bool)
    requires Alike(c, d) && AlikeIters(it, jt) && Fits(c, it) && Fits(d, jt)
    ensures AlikeIters(Advance(c, it, point, inString), Advance(d, jt, point, inString))
  {
    hide ChunkBefore;
    BoundsAlike(c, d, it.index + 1, point);
    var k := ChunkBefore(c, it.index + 1, point);
    if c[it.index].hi <= point && k < |c| && TableOf(c[k], inString) != [] {
      TailsAlike(TableOf(c[k], inString), TableOf(d[k], inString));
    }
  }

  lemma TailsAlike(a: seq<Entry>, b: seq<Entry>)
    requires AlikeTables(a, b) && a != []
    ensures AlikeTables(a[1..], b[1..]) && AlikeEntries(a[0], b[0])
  {
  }

  lemma {:induction false} SearchAlike(it: Iter, jt: Iter, point: nat)
    requires AlikeIters(it, jt)
    ensures AlikeIters(Search(it, point).0, Search(jt, point).0)
    ensures AlikeFound(Search(it, point).1, Search(jt, point).1)
    decreases |it.rest|
  {
    hide AlikeTables;
    if it.current.Some? && it.current.value.start < point {
      RestAlike(it, jt);
      if it.rest != [] {
        TailsAlike(it.rest, jt.rest);
        SearchAlike(it.(current := Some(it.rest[0]), rest := it.rest[1..]),
                    jt.(current := Some(jt.rest[0]), rest := jt.rest[1..]), point);
      }
    }
  }

  lemma RestAlike(it: Iter, jt: Iter)
    requires AlikeIters(it, jt)
    ensures |it.rest| == |jt.rest|
  {
  }

  lemma ConsultAlike(c: seq<Chunk>, it: Iter, d: seq<Chunk>, jt: Iter, tok: Scan)
    requires Alike(c, d) && AlikeIters(it, jt) && Fits(c, it) && Fits(d, jt) && tok.Token?
    ensures AlikeIters(Consult(c, it, tok).0, Consult(d, jt, tok).0)
    ensures AlikeFound(Consult(c, it, tok).1, Consult(d, jt, tok).1)
  {
    hide Advance, Search, Alike, AlikeIters;
    if tok.kind == String {
      AdvanceAlike(c, it, d, jt, tok.start + tok.size + 1, true);
    } else if IsOpen(tok.kind) {
      AdvanceAlike(c, it, d, jt, tok.start, false);
      SearchAlike(Advance(c, it, tok.start, false), Advance(d, jt, tok.start, false), tok.start);
    }
  }

  /** The same handle but for the place of the value gives the same parser, once handles are followed. */
  lemma HandlesAlike(env: Input, limit: nat, p: Parser, it: Iter, e: Entry, q: Parser, jt: Iter, f: Entry)
    requires limit <= |env.text| && Sound(p) && Sound(q) && DerefParser(p) == DerefParser(q) && AlikeEntries(e, f)
    requires TakesHandle(p) && TakesHandle(q)
    ensures DerefParser(WithHandle(env, limit, p, it, e)) == DerefParser(WithHandle(env, limit, q, jt, f))
  {
    hide TreeAt, Settle, DerefFrames;
    var h, g := HandleTo(env, limit, it, e), HandleTo(env, limit, jt, f);
    SettleDeref(Completed(p.frames, h));
    SettleDeref(Completed(q.frames, g));
    SettleRuns(p.frames, h);
    SettleRuns(q.frames, g);
  }

  lemma DerefTakes(p: Parser)
    requires Sound(p)
    ensures TakesHandle(DerefParser(p)) <==> TakesHandle(p)
    ensures DerefParser(p).state == p.state && (DerefParser(p).frames == [] <==> p.frames == [])
  {
  }

  /** Main runs over chunks that list the same regions meet the same refusals. */
  lemma {:induction false} RefusedAlike(env: Input, limit: nat, c: seq<Chunk>, it: Iter, p: Parser,
                                        d: seq<Chunk>, jt: Iter, q: Parser, pos: nat)
    requires Alike(c, d) && AlikeIters(it, jt) && Fits(c, it) && Fits(d, jt) && pos <= limit <= |env.text|
    requires Sound(p) && Sound(q) && DerefParser(p) == DerefParser(q)
    ensures Refused(env, limit, c, it, p, pos) <==> Refused(env, limit, d, jt, q, pos)
    decreases limit - pos
  {
    hide NextToken, Consult, Step, WithHandle, Alike, AlikeIters, DerefParser;
    var tok := NextToken(env.text, limit, pos);
    if tok.Token? {
      ConsultAlike(c, it, d, jt, tok);
      DerefTakes(p);
      DerefTakes(q);
      var (it', hit) := Consult(c, it, tok);
      var (jt', hit') := Consult(d, jt, tok);
      if hit.Some? {
        if TakesHandle(p) && hit.value.size > 0 && tok.start + hit.value.size <= limit {
          HandlesAlike(env, limit, p, it', hit.value, q, jt', hit'.value);
          RefusedAlike(env, limit, c, it', WithHandle(env, limit, p, it', hit.value),
                       d, jt', WithHandle(env, limit, q, jt', hit'.value), tok.start + hit.value.size);
        }
      } else {
        StepDeref(env, p, tok);
        StepDeref(env, q, tok);
        var o, u := Step(env, p, tok), Step(env, q, tok);
        if o.Running? {
          RefusedAlike(env, limit, c, it', o.p, d, jt', u.p, tok.next);
        }
      }
    }
  }

  /** What workers found is listed as speculated. */
  lemma WorkersAlike(env: Input, threads: nat, chunks: seq<Chunk>)
    requires threads > 0 && SpeculatedCuts(env, threads, chunks) && ChunksOk(env, |env.text|, chunks)
    ensures Alike(chunks, Speculation(env, threads))
  {
    hide Regions, Stored, LiesBelow, Cut, AfterString;
    var spec := Speculation(env, threads);
    forall k, s: bool | 0 <= k < |chunks| ensures AlikeTables(TableOf(chunks[k], s), TableOf(spec[k], s)) {
      if k > 0 {
        assert Preparsed(env, chunks[k].hi, EntryPoint(env, chunks[k], s), ResultOf(chunks[k], s).segment,
                         TableOf(chunks[k], s));
      }
    }
  }

  /** Whatever the workers' segments look like, acceptance depends on the text and the number of threads alone. */
  lemma AcceptanceFixed(env: Input, threads: nat, chunks: seq<Chunk>)
    requires threads > 0 && SpeculatedCuts(env, threads, chunks) && ChunksOk(env, |env.text|, chunks)
    ensures AnyRefused(env, |env.text|, chunks) <==> Refuses(env, threads)
    ensures var m, g := MainAnswer(env, |env.text|, chunks), Root(env, |env.text|, 0);
            && (m.Some? <==> g.Some? && !Refuses(env, threads))
            && (m.Some? ==> g.value == Parsed(DerefRoot(m.value.root), m.value.next))
  {
    hide ChunksOk, Speculation, Alike, Refused, MainRun, Root;
    WorkersAlike(env, threads, chunks);
    StartsAlike(chunks, Speculation(env, threads));
    RefusedAlike(env, |env.text|, chunks, IterInit(chunks), START,
                 Speculation(env, threads), IterInit(Speculation(env, threads)), START, 0);
    ParallelIsSequential(env, |env.text|, chunks);
  }

  lemma StartsAlike(c: seq<Chunk>, d: seq<Chunk>)
    requires Alike(c, d) && c != []
    ensures d != [] && AlikeIters(IterInit(c), IterInit(d))
  {
  }

  // ----- A condition on the sequential parse -----

  /** Along the sequential run a composite starts at `from` or later, as an array's first element or as the root. */
  predicate LateFirst(env: Input, limit: nat, p: Parser, pos: nat, from: nat)
    requires Sound(p) && pos <= limit <= |env.text|
    decreases limit - pos
  {
    var tok := NextToken(env.text, limit, pos);
    && tok.Token?
    && (|| (IsOpen(tok.kind) && tok.start >= from && StartsFirst(p))
        || (var o := Step(env, p, tok); o.Running? && LateFirst(env, limit, o.p, tok.next, from)))
  }

  /** The next value would be the first element of an array, or the root. */
  predicate StartsFirst(p: Parser) {
    p.state == FirstArrayElement || (p.state == ExpectValue && p.frames == [])
  }

  /** The machine gets from one point of its run to another. */
  predicate Gets(env: Input, limit: nat, p: Parser, pos: nat, q: Parser, next: nat)
    requires Sound(p) && pos <= limit <= |env.text|
    decreases limit - pos
  {
    || (p == q && pos == next)
    || (var tok := NextToken(env.text, limit, pos);
        tok.Token? && var o := Step(env, p, tok); o.Running? && Gets(env, limit, o.p, tok.next, q, next))
  }

  lemma GetsStep(env: Input, limit: nat, p: Parser, pos: nat, p': Parser, q: Parser, next: nat)
    requires Sound(p) && Sound(p') && pos <= limit <= |env.text|
    requires var tok := NextToken(env.text, limit, pos);
             tok.Token? && Step(env, p, tok) == Running(p') && Gets(env, limit, p', tok.next, q, next)
    ensures Gets(env, limit, p, pos, q, next)
  {
    hide NextToken, Step;
  }

  lemma {:induction false} GetsOn(env: Input, limit: nat, p: Parser, pos: nat, q: Parser, mid: nat, r: Parser,
                                  next: nat)
    requires Sound(p) && Sound(q) && pos <= limit <= |env.text| && mid <= limit
    requires Gets(env, limit, p, pos, q, mid) && Gets(env, limit, q, mid, r, next)
    ensures Gets(env, limit, p, pos, r, next)
    decreases limit - pos
  {
    hide NextToken, Step;
    if !(p == q && pos == mid) {
      var tok := NextToken(env.text, limit, pos);
      GetsOn(env, limit, Step(env, p, tok).p, tok.next, q, mid, r, next);
    }
  }

  /** Where two states take the next token the same way, they get to the same places behind it. */
  lemma GetsSame(env: Input, limit: nat, p: Parser, p': Parser, pos: nat, q: Parser, next: nat)
    requires Sound(p) && Sound(p') && pos <= limit <= |env.text| && Gets(env, limit, p, pos, q, next) && pos < next
    requires var tok := NextToken(env.text, limit, pos); tok.Token? ==> Step(env, p', tok) == Step(env, p, tok)
    ensures Gets(env, limit, p', pos, q, next)
  {
    hide NextToken, Step;
  }

  lemma {:induction false} LatePasses(env: Input, limit: nat, p: Parser, pos: nat, q: Parser, next: nat, from: nat)
    requires Sound(p) && Sound(q) && pos <= limit <= |env.text| && next <= limit
    requires Gets(env, limit, p, pos, q, next) && LateFirst(env, limit, q, next, from)
    ensures LateFirst(env, limit, p, pos, from)
    decreases limit - pos
  {
    hide NextToken, Step;
    if !(p == q && pos == next) {
      var tok := NextToken(env.text, limit, pos);
      LatePasses(env, limit, Step(env, p, tok).p, tok.next, q, next, from);
    }
  }

  /** The state after a value has been delivered to open composites. */
  function Delivered(frames: seq<Frame>, t: Tree): (q: Parser)
    requires frames != [] && AllAwaiting(frames)
    ensures Sound(q) && Settle(Completed(frames, t)) == Running(q)
  {
    Settle(Completed(frames, t)).p
  }

  /** In an open composite the machine gets to the end of every value. */
  lemma {:induction false} ValueGets(env: Input, limit: nat, frames: seq<Frame>, pos: nat)
    requires pos <= limit <= |env.text| && AllAwaiting(frames) && frames != [] && Value(env, limit, pos).Some?
    ensures var v := Value(env, limit, pos).value;
            Gets(env, limit, Parser(ExpectValue, frames), pos, Delivered(frames, v.value), v.next)
    decreases limit - pos, 0
  {
    hide NextToken, Gets, Elements, Members, Delivered, Atom;
    var tok := NextToken(env.text, limit, pos);
    var v := Value(env, limit, pos).value;
    var p, q := Parser(ExpectValue, frames), Delivered(frames, v.value);
    if tok.kind == OpenBracket {
      ArrayGets(env, limit, frames, tok.next);
      GetsStep(env, limit, p, pos, Parser(FirstArrayElement, frames), q, v.next);
    } else if tok.kind == OpenBrace {
      ObjectGets(env, limit, frames, tok.next);
      GetsStep(env, limit, p, pos, Parser(FirstKv, frames), q, v.next);
    } else {
      GetsHere(env, limit, q, v.next);
      NoAtomAtEnd(env, tok);
      GetsStep(env, limit, p, pos, q, q, v.next);
    }
  }

  lemma NoAtomAtEnd(env: Input, tok: Scan)
    requires tok.Token? && tok.start + tok.size <= |env.text| && Atom(env, tok).Some?
    ensures tok.kind != Eof && !IsOpen(tok.kind)
  {
  }

  lemma GetsHere(env: Input, limit: nat, p: Parser, pos: nat)
    requires Sound(p) && pos <= limit <= |env.text|
    ensures Gets(env, limit, p, pos, p, pos)
  {
  }

  /** Behind an opening bracket: at once the closing one, or elements. */
  lemma {:induction false} ArrayGets(env: Input, limit: nat, frames: seq<Frame>, pos: nat)
    requires pos <= limit <= |env.text| && AllAwaiting(frames) && frames != []
    ensures var first := NextToken(env.text, limit, pos);
            var p := Parser(FirstArrayElement, frames);
            if first.Token? && first.kind == ClosedBracket
            then Gets(env, limit, p, pos, Delivered(frames, Arr([])), first.next)
            else
              var r := Elements(env, limit, pos);
              r.Some? ==> Gets(env, limit, p, pos, Delivered(frames, Arr(r.value.value)), r.value.next)
    decreases limit - pos, 2
  {
    hide NextToken, Gets, Elements, Delivered;
    var first := NextToken(env.text, limit, pos);
    var p := Parser(FirstArrayElement, frames);
    if first.Token? && first.kind == ClosedBracket {
      GetsHere(env, limit, Delivered(frames, Arr([])), first.next);
      GetsStep(env, limit, p, pos, Delivered(frames, Arr([])), Delivered(frames, Arr([])), first.next);
    } else {
      var r := Elements(env, limit, pos);
      if r.Some? {
        ElementsGets(env, limit, frames, [], pos);
        assert [] + r.value.value == r.value.value;
        GetsSame(env, limit, Parser(ExpectValue, frames + [ArrFrame([], true)]), p, pos,
                 Delivered(frames, Arr(r.value.value)), r.value.next);
      }
    }
  }

  lemma {:induction false} ObjectGets(env: Input, limit: nat, frames: seq<Frame>, pos: nat)
    requires pos <= limit <= |env.text| && AllAwaiting(frames) && frames != []
    ensures var first := NextToken(env.text, limit, pos);
            var p := Parser(FirstKv, frames);
            if first.Token? && first.kind == ClosedBrace
            then Gets(env, limit, p, pos, Delivered(frames, Obj([])), first.next)
            else
              var r := Members(env, limit, pos);
              r.Some? ==> Gets(env, limit, p, pos, Delivered(frames, Obj(r.value.value)), r.value.next)
    decreases limit - pos, 2
  {
    hide NextToken, Gets, Members, Delivered;
    var first := NextToken(env.text, limit, pos);
    var p := Parser(FirstKv, frames);
    if first.Token? && first.kind == ClosedBrace {
      GetsHere(env, limit, Delivered(frames, Obj([])), first.next);
      GetsStep(env, limit, p, pos, Delivered(frames, Obj([])), Delivered(frames, Obj([])), first.next);
    } else {
      var r := Members(env, limit, pos);
      if r.Some? {
        MembersGets(env, limit, frames, [], pos);
        assert [] + r.value.value == r.value.value;
        assert Below(frames + [ObjFrame([], None)]) == frames;
        GetsSame(env, limit, Parser(NextKv, frames + [ObjFrame([], None)]), p, pos,
                 Delivered(frames, Obj(r.value.value)), r.value.next);
      }
    }
  }

  lemma {:induction false} ElementsGets(env: Input, limit: nat, frames: seq<Frame>, elems: seq<Tree>, pos: nat)
    requires pos <= limit <= |env.text| && AllAwaiting(frames) && frames != [] && Elements(env, limit, pos).Some?
    ensures var r := Elements(env, limit, pos).value;
            Gets(env, limit, Parser(ExpectValue, frames + [ArrFrame(elems, true)]), pos,
                 Delivered(frames, Arr(elems + r.value)), r.next)
    decreases limit - pos, 1
  {
    hide NextToken, Gets, Value;
    var inner := frames + [ArrFrame(elems, true)];
    var v, r := Value(env, limit, pos).value, Elements(env, limit, pos).value;
    ValueGets(env, limit, inner, pos);
    assert Below(inner) == frames;
    var more := elems + [v.value];
    var p, q := Parser(NextArrayElement, frames + [ArrFrame(more, false)]), Delivered(frames, Arr(elems + r.value));
    assert Below(p.frames) == frames;
    var sep := NextToken(env.text, limit, v.next);
    if sep.kind == ClosedBracket {
      GetsHere(env, limit, q, r.next);
      GetsStep(env, limit, p, v.next, q, q, r.next);
    } else {
      var rest := Elements(env, limit, sep.next).value;
      assert elems + ([v.value] + rest.value) == more + rest.value;
      ElementsGets(env, limit, frames, more, sep.next);
      GetsStep(env, limit, p, v.next, Parser(ExpectValue, frames + [ArrFrame(more, true)]), q, r.next);
    }
    GetsOn(env, limit, Parser(ExpectValue, inner), pos, p, v.next, q, r.next);
  }

  lemma {:induction false} MembersGets(env: Input, limit: nat, frames: seq<Frame>, kvs: seq<Member>, pos: nat)
    requires pos <= limit <= |env.text| && AllAwaiting(frames) && frames != [] && Members(env, limit, pos).Some?
    ensures var r := Members(env, limit, pos).value;
            Gets(env, limit, Parser(NextKv, frames + [ObjFrame(kvs, None)]), pos,
                 Delivered(frames, Obj(kvs + r.value)), r.next)
    decreases limit - pos, 1
  {
    hide NextToken, Gets, Value, Delivered, Step;
    var r := Members(env, limit, pos).value;
    var q := Delivered(frames, Obj(kvs + r.value));
    var key := NextToken(env.text, limit, pos);
    var colon := NextToken(env.text, limit, key.next);
    var inner := frames + [ObjFrame(kvs, Some(Slice(env, key)))];
    var v := Value(env, limit, colon.next).value;
    MemberDoneGets(env, limit, frames, kvs, Member(Slice(env, key), v.value), v.next, r);
    ValueGets(env, limit, inner, colon.next);
    MemberPlugs(frames, kvs, Slice(env, key), v.value);
    GetsOn(env, limit, Parser(ExpectValue, inner), colon.next,
           Parser(KvEnd, frames + [ObjFrame(kvs + [Member(Slice(env, key), v.value)], None)]), v.next, q, r.next);
    KeyGets(env, limit, frames, kvs, pos, key, colon, q, r.next);
  }

  /** In an object, before a key that must come. */
  function KeyDue(frames: seq<Frame>, kvs: seq<Member>): (p: Parser)
    requires AllAwaiting(frames)
    ensures Sound(p)
  {
    Parser(NextKv, frames + [ObjFrame(kvs, None)])
  }

  /** In an object, behind a key and its colon. */
  function ValueDue(frames: seq<Frame>, kvs: seq<Member>, key: seq<Byte>): (p: Parser)
    requires AllAwaiting(frames)
    ensures Sound(p)
  {
    Parser(ExpectValue, frames + [ObjFrame(kvs, Some(key))])
  }

  /** A key and its colon lead to the member's value. */
  lemma KeyGets(env: Input, limit: nat, frames: seq<Frame>, kvs: seq<Member>, pos: nat, key: Scan, colon: Scan,
                q: Parser, next: nat)
    requires pos <= limit <= |env.text| && AllAwaiting(frames)
    requires key == NextToken(env.text, limit, pos) && key.Token? && key.kind == String
    requires colon == NextToken(env.text, limit, key.next) && colon.Token? && colon.kind == Colon
    requires Gets(env, limit, ValueDue(frames, kvs, Slice(env, key)), colon.next, q, next)
    ensures Gets(env, limit, KeyDue(frames, kvs), pos, q, next)
  {
    hide NextToken, Gets;
    var outer, inner := frames + [ObjFrame(kvs, None)], frames + [ObjFrame(kvs, Some(Slice(env, key)))];
    assert Below(outer) == frames && Below(inner) == frames;
    GetsStep(env, limit, Parser(KvColon, inner), key.next, Parser(ExpectValue, inner), q, next);
    GetsStep(env, limit, Parser(NextKv, outer), pos, Parser(KvColon, inner), q, next);
  }

  lemma MemberPlugs(frames: seq<Frame>, kvs: seq<Member>, key: seq<Byte>, t: Tree)
    requires AllAwaiting(frames)
    ensures Delivered(frames + [ObjFrame(kvs, Some(key))], t)
         == Parser(KvEnd, frames + [ObjFrame(kvs + [Member(key, t)], None)])
  {
    assert Below(frames + [ObjFrame(kvs, Some(key))]) == frames;
  }

  /** After a member: the closing brace, or a comma and further members. */
  lemma {:induction false} MemberDoneGets(env: Input, limit: nat, frames: seq<Frame>, kvs: seq<Member>, m: Member,
                                          next: nat, r: Parsed<seq<Member>>)
    requires next <= limit <= |env.text| && AllAwaiting(frames) && frames != [] && next < r.next <= limit
    requires var sep := NextToken(env.text, limit, next);
             && sep.Token?
             && if sep.kind == ClosedBrace then r == Parsed([m], sep.next)
                else
                  && sep.kind == Comma && Members(env, limit, sep.next).Some?
                  && var rest := Members(env, limit, sep.next).value; r == Parsed([m] + rest.value, rest.next)
    ensures Gets(env, limit, Parser(KvEnd, frames + [ObjFrame(kvs + [m], None)]), next,
                 Delivered(frames, Obj(kvs + r.value)), r.next)
    decreases limit - next, 2
  {
    hide NextToken, Gets, Members, Delivered;
    var p, q := Parser(KvEnd, frames + [ObjFrame(kvs + [m], None)]), Delivered(frames, Obj(kvs + r.value));
    assert Below(p.frames) == frames;
    var sep := NextToken(env.text, limit, next);
    if sep.kind == ClosedBrace {
      GetsHere(env, limit, q, r.next);
      GetsStep(env, limit, p, next, q, q, r.next);
    } else {
      var rest := Members(env, limit, sep.next).value;
      assert kvs + ([m] + rest.value) == (kvs + [m]) + rest.value;
      MembersGets(env, limit, frames, kvs + [m], sep.next);
      GetsStep(env, limit, p, next, Parser(NextKv, frames + [ObjFrame(kvs + [m], None)]), q, r.next);
    }
  }

  /** A value found by a worker starts behind the first chunk. */
  lemma HitBehind(env: Input, limit: nat, chunks: seq<Chunk>, it: Iter, pos: nat, tok: Scan, e: Entry)
    requires ChunksOk(env, limit, chunks) && pos <= limit <= |env.text| && tok.Token?
    requires HitOk(env, limit, chunks, it, pos, tok, e)
    ensures |chunks| > 0 && chunks[0].hi <= tok.start
  {
    hide ChunksOk, Value, TreeAt, IterOk, Stored;
    TilingOf(env, limit, chunks);
    var table := TableOf(chunks[it.index], it.scenarios[it.index]);
    var i :| 0 <= i < |table| && table[i] == e;
    EntriesOk(env, limit, chunks, it.index, it.scenarios[it.index], i);
    EntryBefore(env, limit, chunks[it.index], e);
    LowerEnds(chunks, limit, it.index, 0);
  }

  /** If no first element and no root composite starts behind the first chunk, nothing is refused. */
  lemma {:induction false} NoLateNoRefusal(env: Input, limit: nat, chunks: seq<Chunk>, it: Iter, p: Parser, pos: nat)
    requires ChunksOk(env, limit, chunks) && IterOk(chunks, it, pos) && Sound(p) && pos <= limit <= |env.text|
    requires chunks != [] && Fits(chunks, it) && !LateFirst(env, limit, DerefParser(p), pos, chunks[0].hi)
    ensures !Refused(env, limit, chunks, it, p, pos)
    decreases limit - pos
  {
    hide NextToken, ChunksOk, IterOk, Consult, Step, Settle, Value, TreeAt, WithHandle, HitOk, DerefParser;
    var tok := NextToken(env.text, limit, pos);
    HitIsValue(env, limit, chunks, it, pos);
    if tok.Token? {
      var (it', hit) := Consult(chunks, it, tok);
      if hit.Some? {
        HitMeans(env, limit, chunks, it', pos, tok, hit.value);
        HitBehind(env, limit, chunks, it', pos, tok, hit.value);
        DerefTakes(p);
        if TakesHandle(p) {
          HitGets(env, limit, chunks, it', p, pos, tok, hit.value);
          var q := WithHandle(env, limit, p, it', hit.value);
          NoLateNoRefusal(env, limit, chunks, it', q, tok.start + hit.value.size);
        }
      } else {
        StepDeref(env, p, tok);
        var o := Step(env, p, tok);
        if o.Running? {
          NoLateNoRefusal(env, limit, chunks, it', o.p, tok.next);
        }
      }
    }
  }

  /** Where the main thread skips a value, the sequential run goes through it. */
  lemma SkipGets(env: Input, limit: nat, chunks: seq<Chunk>, it: Iter, p: Parser, pos: nat, tok: Scan, e: Entry)
    requires Sound(p) && TakesHandle(p) && pos <= limit <= |env.text| && tok.Token?
    requires HitOk(env, limit, chunks, it, pos, tok, e)
    ensures tok.start + e.size <= limit
    ensures Gets(env, limit, DerefParser(p), pos, DerefParser(WithHandle(env, limit, p, it, e)), tok.start + e.size)
  {
    hide Value, TreeAt, IterOk, Gets, DerefFrames, Settle;
    var h := HandleTo(env, limit, it, e);
    var frames := DerefFrames(p.frames);
    DerefAwaiting(p.frames);
    SettleDeref(Completed(p.frames, h));
    SettleRuns(p.frames, h);
    ValueGets(env, limit, frames, pos);
    assert Delivered(frames, TreeAt(env, limit, e.start)) == DerefParser(WithHandle(env, limit, p, it, e));
  }

  lemma HitGets(env: Input, limit: nat, chunks: seq<Chunk>, it: Iter, p: Parser, pos: nat, tok: Scan, e: Entry)
    requires chunks != [] && Sound(p) && TakesHandle(p) && pos <= limit <= |env.text| && tok.Token?
    requires HitOk(env, limit, chunks, it, pos, tok, e)
    requires !LateFirst(env, limit, DerefParser(p), pos, chunks[0].hi)
    ensures tok.start + e.size <= limit
    ensures !LateFirst(env, limit, DerefParser(WithHandle(env, limit, p, it, e)), tok.start + e.size, chunks[0].hi)
  {
    hide Value, TreeAt, IterOk, LateFirst, Gets, DerefParser, WithHandle;
    SkipGets(env, limit, chunks, it, p, pos, tok, e);
    var q := DerefParser(WithHandle(env, limit, p, it, e));
    if LateFirst(env, limit, q, tok.start + e.size, chunks[0].hi) {
      LatePasses(env, limit, DerefParser(p), pos, q, tok.start + e.size, chunks[0].hi);
    }
  }

  /** A condition to evaluate before the call: if along the sequential parse no composite starts behind the first chunk
      as a first element or as the root, then one thread and several accept alike. */
  lemma EarlyFirstsAccepted(env: Input, threads: nat, chunks: seq<Chunk>)
    requires threads > 0 && SpeculatedCuts(env, threads, chunks) && ChunksOk(env, |env.text|, chunks)
    requires !LateFirst(env, |env.text|, START, 0, Cut(|env.text|, EffectiveThreads(|env.text|, threads), 1))
    ensures !Refuses(env, threads)
  {
    hide ChunksOk, Refuses, Refused, LateFirst, IterOk, Cut, MainAnswer, Root;
    InitOk(env, |env.text|, chunks);
    assert DerefParser(START) == START;
    NoLateNoRefusal(env, |env.text|, chunks, IterInit(chunks), START, 0);
    AcceptanceFixed(env, threads, chunks);
  }

  // ----- A condition on the bytes -----

  /** From `from` on, before every opening bracket or brace there is something other than an opening bracket, and
      between the two nothing but space. */
  predicate FirstsClear(text: seq<Byte>, from: nat) {
    forall q :: from <= q < |text| && (text[q] == OPEN_BRACKET || text[q] == OPEN_BRACE) ==> Preceded(text, q)
  }

  predicate Preceded(text: seq<Byte>, q: nat)
    requires q < |text|
  {
    exists p :: 0 <= p < q && !IsSpace(text[p]) && text[p] != OPEN_BRACKET && forall i :: p < i < q ==> IsSpace(text[i])
  }

  /** Where a first value is due, the last byte was the opening bracket, or there was none. */
  predicate Before(env: Input, p: Parser, pos: nat)
    requires pos <= |env.text|
  {
    && (p.state == FirstArrayElement ==> pos > 0 && env.text[pos - 1] == OPEN_BRACKET)
    && (p.state == ExpectValue && p.frames == [] ==> pos == 0)
  }

  lemma StepStates(env: Input, p: Parser, tok: Scan)
    requires Sound(p) && tok.Token? && tok.start + tok.size <= |env.text|
    ensures var o := Step(env, p, tok);
            o.Running? ==>
              && (o.p.state == FirstArrayElement ==> tok.kind == OpenBracket)
              && (o.p.state == ExpectValue ==> o.p.frames != [])
  {
    hide Atom, Slice;
  }

  lemma OpenBytes(text: seq<Byte>, limit: nat, pos: nat)
    requires pos <= limit <= |text|
    ensures var tok := NextToken(text, limit, pos);
            tok.Token? && IsOpen(tok.kind) ==>
              && pos <= tok.start < limit && tok.next == tok.start + 1
              && text[tok.start] == (if tok.kind == OpenBracket then OPEN_BRACKET else OPEN_BRACE)
              && forall i :: pos <= i < tok.start ==> IsSpace(text[i])
  {
  }

  lemma {:induction false} ClearNotLate(env: Input, limit: nat, p: Parser, pos: nat, from: nat)
    requires Sound(p) && pos <= limit <= |env.text| && FirstsClear(env.text, from) && Before(env, p, pos)
    ensures !LateFirst(env, limit, p, pos, from)
    decreases limit - pos
  {
    hide NextToken, Step;
    var tok := NextToken(env.text, limit, pos);
    OpenBytes(env.text, limit, pos);
    if tok.Token? {
      StepStates(env, p, tok);
      if IsOpen(tok.kind) && tok.start >= from {
        NotFirst(env, p, pos, tok.start);
      }
      var o := Step(env, p, tok);
      if o.Running? {
        ClearNotLate(env, limit, o.p, tok.next, from);
      }
    }
  }

  lemma NotFirst(env: Input, p: Parser, pos: nat, q: nat)
    requires pos <= q < |env.text| && Before(env, p, pos) && Preceded(env.text, q)
    requires forall i :: pos <= i < q ==> IsSpace(env.text[i])
    ensures !StartsFirst(p)
  {
    var b :| 0 <= b < q && !IsSpace(env.text[b]) && env.text[b] != OPEN_BRACKET
      && forall i :: b < i < q ==> IsSpace(env.text[i]);
    assert b < pos;
  }

  /** Without parsing anything: a text whose bytes are clear behind the first chunk. */
  lemma ClearText(env: Input, from: nat)
    requires FirstsClear(env.text, from)
    ensures !LateFirst(env, |env.text|, START, 0, from)
  {
    ClearNotLate(env, |env.text|, START, 0, from);
  }
}
