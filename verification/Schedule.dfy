/** Workers and main thread as interleaved steps: flags, results read behind them, and who frees which buffer. */
module Schedule {
  import opened Bytes
  import opened Tokenizer
  import opened Trees
  import opened Grammar
  import opened Pushdown
  import opened Encoding
  import opened Documents
  import opened Lookup
  import opened Parallel
  import opened Sequential
  import opened Existence

  // ----- State -----

  /** How far a worker is. Results are written before their flag is set, and the in-string guess comes first. */
  datatype Phase = NotStarted | ParsingInString | WroteInString | ParsingNotInString | WroteNotInString | Exited

  /** The two results in a thread context. */
  datatype Slot = Slot(notInString: Option<WorkerResult>, inString: Option<WorkerResult>)

  datatype BufferKind = SegmentBuffer | TableBuffer

  /** A worker allocates four buffers: for each guess a segment and a table. */
  datatype Buffer = Buffer(worker: nat, startsInString: bool, kind: BufferKind)

  datatype Main =
    | Starting(next: nat)
    | Parsing(it: Iter, p: Parser, pos: nat)
    | Collecting(r: MainResult, i: nat)
    | CleaningUp(i: nat, half: bool)
    | Returned(result: Option<MainResult>)

  datatype State = State(
    phases: seq<Phase>,
    slots: seq<Slot>,
    main: Main,
    created: nat,
    startFailed: bool,
    installed: seq<seq<Byte>>,
    freed: multiset<Buffer>,
    given: multiset<Buffer>,
    contextsFreed: bool)

  /** A completion flag. */
  predicate Completed(s: State, k: nat, startsInString: bool)
    requires k < |s.phases|
  {
    if startsInString then s.phases[k].ParsingNotInString? || s.phases[k].WroteNotInString? || s.phases[k].Exited?
    else s.phases[k].Exited?
  }

  function Result(s: State, k: nat, startsInString: bool): Option<WorkerResult>
    requires k < |s.slots|
  {
    if startsInString then s.slots[k].inString else s.slots[k].notInString
  }

  function Initial(n: nat): State {
    State(seq(n, k => NotStarted), seq(n, k => Slot(None, None)), Starting(1), 0, false,
          [], multiset{}, multiset{}, false)
  }

  // ----- Steps of a worker -----

  predicate Working(phase: Phase) {
    !phase.NotStarted? && !phase.Exited?
  }

  /** What the worker's code computes from its chunk alone is given by `chunk`. */
  function Worked(s: State, k: nat, chunk: Chunk): (r: State)
    requires k < |s.phases| == |s.slots| && Working(s.phases[k])
    ensures |r.phases| == |s.phases| && |r.slots| == |s.slots| && r.main == s.main && r.created == s.created
  {
    match s.phases[k]
    case ParsingInString =>
      s.(phases := s.phases[k := WroteInString],
        slots := s.slots[k := s.slots[k].(inString := Some(chunk.inString))])
    case WroteInString => s.(phases := s.phases[k := ParsingNotInString])
    case ParsingNotInString =>
      s.(phases := s.phases[k := WroteNotInString],
        slots := s.slots[k := s.slots[k].(notInString := Some(chunk.notInString))])
    case WroteNotInString => s.(phases := s.phases[k := Exited])
  }

  // ----- Steps of the main thread -----

  /** The chunks as the main thread sees them: the bounds, and whatever has been written so far. */
  function Seen(s: State, chunks: seq<Chunk>): (r: seq<Chunk>)
    requires |s.slots| == |chunks|
    ensures |r| == |chunks|
  {
    seq(|chunks|, k requires 0 <= k < |chunks| =>
      Chunk(chunks[k].lo, chunks[k].hi, OrNothing(s.slots[k].notInString), OrNothing(s.slots[k].inString)))
  }

  function OrNothing(r: Option<WorkerResult>): WorkerResult {
    if r.Some? then r.value else WorkerResult([], [])
  }

  /** The result that an advance to the point has to wait for. */
  function Landing(chunks: seq<Chunk>, it: Iter, point: nat, inString: bool): (r: Option<(nat, bool)>)
    requires Fits(chunks, it)
    ensures r.Some? ==> it.index < r.value.0 < |chunks|
  {
    if point < chunks[it.index].hi then None
    else
      var k := ChunkBefore(chunks, it.index + 1, point);
      if k == |chunks| then None else Some((k, inString))
  }

  function Awaited(chunks: seq<Chunk>, it: Iter, tok: Scan): (r: Option<(nat, bool)>)
    requires Fits(chunks, it)
    ensures r.Some? ==> r.value.0 < |chunks|
  {
    if tok.Bad? then None
    else if tok.kind == String then Landing(chunks, it, tok.start + tok.size + 1, true)
    else if IsOpen(tok.kind) then Landing(chunks, it, tok.start, false)
    else None
  }

  datatype Round = Next(it: Iter, p: Parser, pos: nat) | Finished(r: MainResult) | Failure

  /** One round of the main loop. */
  function RoundOf(env: Input, limit: nat, chunks: seq<Chunk>, it: Iter, p: Parser, pos: nat): (r: Round)
    requires Sound(p) && Fits(chunks, it) && pos <= limit <= |env.text|
    ensures r.Next? ==> Sound(r.p) && Fits(chunks, r.it) && pos < r.pos <= limit
    ensures r.Finished? ==> |r.r.scenarios| == |chunks|
  {
    var tok := NextToken(env.text, limit, pos);
    if tok.Bad? then Failure
    else
      var (it', hit) := Consult(chunks, it, tok);
      if hit.Some? then
        if !TakesHandle(p) || hit.value.size == 0 || tok.start + hit.value.size > limit then Failure
        else Next(it', WithHandle(env, limit, p, it', hit.value), tok.start + hit.value.size)
      else
        var o := Step(env, p, tok);
        if o.Running? then Next(it', o.p, tok.next)
        else if o.Done? then Finished(MainResult(o.root, tok.next, it'.scenarios))
        else Failure
  }

  /** The main thread is not spinning on a flag. */
  predicate MainReady(env: Input, limit: nat, chunks: seq<Chunk>, s: State)
    requires Shaped(env, limit, chunks, s)
  {
    match s.main
    case Starting(_) => true
    case Parsing(it, p, pos) =>
      var w := Awaited(chunks, it, NextToken(env.text, limit, pos));
      w.Some? ==> Completed(s, w.value.0, w.value.1)
    case Collecting(_, i) => i < |chunks| ==> Completed(s, i, false) && Completed(s, i, true)
    case CleaningUp(i, half) => i <= s.created ==> Completed(s, i, half)
    case Returned(_) => false
  }

  predicate Shaped(env: Input, limit: nat, chunks: seq<Chunk>, s: State) {
    && chunks != [] && limit <= |env.text|
    && |s.phases| == |s.slots| == |chunks| && s.created < |chunks|
    && match s.main
       case Starting(next) => next == s.created + 1
       case Parsing(it, p, pos) => Sound(p) && Fits(chunks, it) && pos <= limit
       case Collecting(r, i) => 1 <= i <= |chunks| && |r.scenarios| == |chunks|
       case CleaningUp(i, half) => 1 <= i <= s.created + (if half then 0 else 1)
       case Returned(_) => true
  }

  function BothBuffers(k: nat, startsInString: bool): multiset<Buffer> {
    multiset{Buffer(k, startsInString, SegmentBuffer), Buffer(k, startsInString, TableBuffer)}
  }

  /** What is freed of one worker's buffers when the segment of the chosen guess is handed over. */
  function Rest(i: nat, chosen: bool): multiset<Buffer> {
    multiset{Buffer(i, !chosen, SegmentBuffer)} + multiset{Buffer(i, true, TableBuffer)}
    + multiset{Buffer(i, false, TableBuffer)}
  }

  /** A worker is created for every chunk but the first; then the parse begins. */
  function MainStarts(env: Input, limit: nat, chunks: seq<Chunk>, s: State): (r: State)
    requires s.main.Starting? && Shaped(env, limit, chunks, s)
    ensures Shaped(env, limit, chunks, r)
  {
    var next := s.main.next;
    if next < |chunks| then
      s.(phases := s.phases[next := ParsingInString], main := Starting(next + 1), created := next)
    else s.(main := Parsing(IterInit(chunks), START, 0))
  }

  function MainParses(env: Input, limit: nat, chunks: seq<Chunk>, s: State): (r: State)
    requires s.main.Parsing? && Shaped(env, limit, chunks, s)
    ensures Shaped(env, limit, chunks, r)
  {
    match RoundOf(env, limit, Seen(s, chunks), s.main.it, s.main.p, s.main.pos)
    case Next(it, p, pos) => s.(main := Parsing(it, p, pos))
    case Finished(r) => s.(main := Collecting(r, 1))
    case Failure => s.(main := CleaningUp(1, false))
  }

  /** One worker's results: the segment of the chosen guess goes to the document, the rest is freed. */
  function MainCollects(env: Input, limit: nat, chunks: seq<Chunk>, s: State): (r: State)
    requires s.main.Collecting? && Shaped(env, limit, chunks, s)
    ensures Shaped(env, limit, chunks, r)
  {
    var (r, i) := (s.main.r, s.main.i);
    if i == |chunks| then s.(contextsFreed := true, main := Returned(Some(r)))
    else
      var chosen := r.scenarios[i];
      s.(installed := s.installed + [OrNothing(Result(s, i, chosen)).segment],
         given := s.given + multiset{Buffer(i, chosen, SegmentBuffer)},
         freed := s.freed + Rest(i, chosen),
         main := Collecting(r, i + 1))
  }

  /** The error path: first the buffers of the guess "not in a string", then those of the other. */
  function MainCleansUp(env: Input, limit: nat, chunks: seq<Chunk>, s: State): (r: State)
    requires s.main.CleaningUp? && Shaped(env, limit, chunks, s)
    ensures Shaped(env, limit, chunks, r)
  {
    var (i, half) := (s.main.i, s.main.half);
    if i > s.created then s.(contextsFreed := true, main := Returned(None))
    else
      s.(freed := s.freed + BothBuffers(i, half),
         main := if half then CleaningUp(i + 1, false) else CleaningUp(i, true))
  }

  // ----- Schedules -----

  /** A step of worker `k`, a step of the main thread, or a thread that cannot be created. */
  datatype Action = Work(k: nat) | MainStep | StartFails

  predicate Enabled(env: Input, limit: nat, chunks: seq<Chunk>, s: State, a: Action)
    requires Shaped(env, limit, chunks, s)
  {
    match a
    case Work(k) => k < |s.phases| && Working(s.phases[k])
    case MainStep => MainReady(env, limit, chunks, s)
    case StartFails => s.main.Starting? && s.main.next < |chunks|
  }

  function Perform(env: Input, limit: nat, chunks: seq<Chunk>, s: State, a: Action): (r: State)
    requires Shaped(env, limit, chunks, s) && Enabled(env, limit, chunks, s, a)
    ensures Shaped(env, limit, chunks, r)
  {
    match a
    case Work(k) => Worked(s, k, chunks[k])
    case StartFails => s.(startFailed := true, main := CleaningUp(1, false))
    case MainStep =>
      if s.main.Starting? then MainStarts(env, limit, chunks, s)
      else if s.main.Parsing? then MainParses(env, limit, chunks, s)
      else if s.main.Collecting? then MainCollects(env, limit, chunks, s)
      else MainCleansUp(env, limit, chunks, s)
  }

  /** The steps can be taken one after the other. */
  predicate Feasible(env: Input, limit: nat, chunks: seq<Chunk>, s: State, schedule: seq<Action>)
    requires Shaped(env, limit, chunks, s)
    decreases |schedule|
  {
    schedule != [] ==>
      && Enabled(env, limit, chunks, s, schedule[0])
      && Feasible(env, limit, chunks, Perform(env, limit, chunks, s, schedule[0]), schedule[1..])
  }

  function After(env: Input, limit: nat, chunks: seq<Chunk>, s: State, schedule: seq<Action>): (r: State)
    requires Shaped(env, limit, chunks, s) && Feasible(env, limit, chunks, s, schedule)
    ensures Shaped(env, limit, chunks, r)
    decreases |schedule|
  {
    if schedule == [] then s
    else After(env, limit, chunks, Perform(env, limit, chunks, s, schedule[0]), schedule[1..])
  }

  // ----- What every state keeps -----

  /** Whatever has been written is what the worker's chunk determines, and flags are set only behind results. */
  predicate SlotsOk(chunks: seq<Chunk>, s: State)
    requires |s.phases| == |s.slots| == |chunks|
  {
    forall k :: 0 <= k < |chunks| ==>
      && SlotOk(chunks[k], s.phases[k], s.slots[k])
      && (s.phases[k].NotStarted? <==> k == 0 || k > s.created)
  }

  predicate SlotOk(chunk: Chunk, phase: Phase, slot: Slot) {
    && (slot.inString.Some? ==> slot.inString.value == chunk.inString)
    && (slot.notInString.Some? ==> slot.notInString.value == chunk.notInString)
    && (slot.inString.Some? <==> !phase.NotStarted? && !phase.ParsingInString?)
    && (slot.notInString.Some? <==> phase.WroteNotInString? || phase.Exited?)
  }

  /** The buffers of workers `1..i`. */
  function AllBuffers(i: nat): multiset<Buffer> {
    if i <= 1 then multiset{} else AllBuffers(i - 1) + BothBuffers(i - 1, false) + BothBuffers(i - 1, true)
  }

  function Chosen(scenarios: seq<bool>, i: nat): multiset<Buffer>
    requires i <= |scenarios|
  {
    if i <= 1 then multiset{}
    else Chosen(scenarios, i - 1) + multiset{Buffer(i - 1, scenarios[i - 1], SegmentBuffer)}
  }

  function Segments(chunks: seq<Chunk>, scenarios: seq<bool>, i: nat): (r: seq<seq<Byte>>)
    requires 1 <= i <= |chunks| == |scenarios|
    ensures |r| == i - 1
  {
    seq(i - 1, j requires 0 <= j < i - 1 => ResultOf(chunks[j + 1], scenarios[j + 1]).segment)
  }

  /** Workers up to here have set both flags. */
  predicate ExitedTo(s: State, i: nat)
    requires i <= |s.phases|
  {
    forall k :: 1 <= k < i ==> s.phases[k].Exited?
  }

  predicate NothingDone(s: State) {
    s.freed == s.given == multiset{} && s.installed == [] && !s.contextsFreed && !s.startFailed
  }

  /** The results of workers `1..i` have been handed over or freed. */
  predicate CollectedTo(chunks: seq<Chunk>, s: State, r: MainResult, i: nat)
    requires 1 <= i <= |chunks| == |s.phases| == |r.scenarios|
  {
    && s.created == |chunks| - 1 && !s.startFailed
    && ExitedTo(s, i) && s.installed == Segments(chunks, r.scenarios, i)
    && s.given == Chosen(r.scenarios, i) && s.freed + s.given == AllBuffers(i)
  }

  /** The results of workers `1..i`, and half of those of worker `i`, have been freed. */
  predicate CleanedTo(s: State, i: nat, half: bool)
    requires i <= |s.phases|
  {
    && ExitedTo(s, i) && (half ==> i <= s.created && i < |s.phases| && s.phases[i].Exited?)
    && s.given == multiset{} && s.freed == AllBuffers(i) + (if half then BothBuffers(i, false) else multiset{})
  }

  predicate MainOk(env: Input, limit: nat, chunks: seq<Chunk>, s: State)
    requires Shaped(env, limit, chunks, s)
  {
    var answer := MainAnswer(env, limit, chunks);
    match s.main
    case Starting(_) => NothingDone(s)
    case Parsing(it, p, pos) =>
      NothingDone(s) && s.created == |chunks| - 1 && answer == MainRun(env, limit, chunks, it, p, pos)
    case Collecting(r, i) => answer == Some(r) && !s.contextsFreed && CollectedTo(chunks, s, r, i)
    case CleaningUp(i, half) =>
      (s.startFailed || (answer == None && s.created == |chunks| - 1)) && !s.contextsFreed && CleanedTo(s, i, half)
    case Returned(result) =>
      && s.contextsFreed
      && match result
         case Some(r) => answer == Some(r) && |r.scenarios| == |chunks| && CollectedTo(chunks, s, r, |chunks|)
         case None =>
           (s.startFailed || (answer == None && s.created == |chunks| - 1)) && CleanedTo(s, s.created + 1, false)
  }

  predicate Inv(env: Input, limit: nat, chunks: seq<Chunk>, s: State)
    requires Shaped(env, limit, chunks, s)
  {
    SlotsOk(chunks, s) && MainOk(env, limit, chunks, s)
  }

  // ----- Reading behind a flag -----

  lemma {:induction false} SeenBounds(s: State, chunks: seq<Chunk>, k: nat, point: nat)
    requires |s.slots| == |chunks| && k <= |chunks|
    ensures ChunkBefore(Seen(s, chunks), k, point) == ChunkBefore(chunks, k, point)
    decreases |chunks| - k
  {
    if k < |chunks| {
      SeenBounds(s, chunks, k + 1, point);
    }
  }

  lemma AdvanceSeen(s: State, chunks: seq<Chunk>, it: Iter, point: nat, inString: bool)
    requires |s.phases| == |s.slots| == |chunks| && SlotsOk(chunks, s) && Fits(chunks, it)
    requires var w := Landing(chunks, it, point, inString); w.Some? ==> Completed(s, w.value.0, w.value.1)
    ensures Advance(Seen(s, chunks), it, point, inString) == Advance(chunks, it, point, inString)
  {
    hide ChunkBefore, SlotsOk, Completed;
    SeenBounds(s, chunks, it.index + 1, point);
    var w := Landing(chunks, it, point, inString);
    if w.Some? {
      FlaggedResult(chunks, s, w.value.0, inString);
    }
  }

  /** Once the flag it waits for is set, the main thread sees what it would see with all workers done. */
  lemma RoundSeen(env: Input, limit: nat, s: State, chunks: seq<Chunk>, it: Iter, p: Parser, pos: nat)
    requires |s.phases| == |s.slots| == |chunks| && SlotsOk(chunks, s) && Fits(chunks, it) && Sound(p)
    requires pos <= limit <= |env.text|
    requires var w := Awaited(chunks, it, NextToken(env.text, limit, pos));
             w.Some? ==> Completed(s, w.value.0, w.value.1)
    ensures RoundOf(env, limit, Seen(s, chunks), it, p, pos) == RoundOf(env, limit, chunks, it, p, pos)
  {
    hide NextToken, Step, WithHandle, SlotsOk, Completed, Landing, Advance, Seen;
    var tok := NextToken(env.text, limit, pos);
    if tok.Bad? {
    } else if tok.kind == String {
      AdvanceSeen(s, chunks, it, tok.start + tok.size + 1, true);
    } else if IsOpen(tok.kind) {
      AdvanceSeen(s, chunks, it, tok.start, false);
    }
  }

  /** The rounds make up the run. */
  lemma RoundRuns(env: Input, limit: nat, chunks: seq<Chunk>, it: Iter, p: Parser, pos: nat)
    requires Sound(p) && Fits(chunks, it) && pos <= limit <= |env.text|
    ensures MainRun(env, limit, chunks, it, p, pos) ==
      match RoundOf(env, limit, chunks, it, p, pos)
      case Next(it', p', pos') => MainRun(env, limit, chunks, it', p', pos')
      case Finished(r) => Some(r)
      case Failure => None
  {
    hide NextToken, Consult, Step, WithHandle, MainRun;
    MainUnfold(env, limit, chunks, it, p, pos);
  }

  // ----- Every step keeps the invariant -----

  lemma WorkKeepsSlots(chunks: seq<Chunk>, s: State, k: nat)
    requires |s.phases| == |s.slots| == |chunks| && SlotsOk(chunks, s) && k < |chunks| && Working(s.phases[k])
    ensures SlotsOk(chunks, Worked(s, k, chunks[k]))
  {
  }

  lemma WorkKeepsMain(env: Input, limit: nat, chunks: seq<Chunk>, s: State, k: nat)
    requires Shaped(env, limit, chunks, s) && MainOk(env, limit, chunks, s) && k < |s.phases| && Working(s.phases[k])
    ensures MainOk(env, limit, chunks, Worked(s, k, chunks[k]))
  {
    hide MainRun, MainAnswer, Worked, NothingDone, CollectedTo, CleanedTo;
    WorkKeepsDone(s, k, chunks[k]);
    match s.main
    case Collecting(r, i) => WorkKeepsCollected(chunks, s, k, r, i);
    case CleaningUp(i, half) => WorkKeepsCleaned(s, k, chunks[k], i, half);
    case Returned(Some(r)) => WorkKeepsCollected(chunks, s, k, r, |chunks|);
    case Returned(None) => WorkKeepsCleaned(s, k, chunks[k], s.created + 1, false);
    case _ =>
  }

  lemma WorkKeepsDone(s: State, k: nat, chunk: Chunk)
    requires k < |s.phases| == |s.slots| && Working(s.phases[k])
    ensures NothingDone(s) ==> NothingDone(Worked(s, k, chunk))
    ensures var r := Worked(s, k, chunk); r.contextsFreed == s.contextsFreed && r.startFailed == s.startFailed
  {
  }

  lemma WorkKeepsCollected(chunks: seq<Chunk>, s: State, k: nat, r: MainResult, i: nat)
    requires k < |s.phases| == |s.slots| == |chunks| == |r.scenarios| && 1 <= i <= |chunks| && Working(s.phases[k])
    requires CollectedTo(chunks, s, r, i)
    ensures CollectedTo(chunks, Worked(s, k, chunks[k]), r, i)
  {
    hide Chosen, AllBuffers, Segments, BothBuffers;
  }

  lemma WorkKeepsCleaned(s: State, k: nat, chunk: Chunk, i: nat, half: bool)
    requires k < |s.phases| == |s.slots| && Working(s.phases[k]) && 1 <= i <= |s.phases|
    requires CleanedTo(s, i, half)
    ensures CleanedTo(Worked(s, k, chunk), i, half)
  {
    hide AllBuffers, BothBuffers;
  }

  lemma StartKeeps(env: Input, limit: nat, chunks: seq<Chunk>, s: State)
    requires Shaped(env, limit, chunks, s) && Inv(env, limit, chunks, s) && s.main.Starting?
    ensures Inv(env, limit, chunks, MainStarts(env, limit, chunks, s))
    ensures s.main.next < |chunks| ==> Inv(env, limit, chunks, s.(startFailed := true, main := CleaningUp(1, false)))
  {
    hide MainRun;
  }

  lemma SlotsSame(chunks: seq<Chunk>, s: State, r: State)
    requires |s.phases| == |s.slots| == |chunks| && SlotsOk(chunks, s)
    requires r.phases == s.phases && r.slots == s.slots && r.created == s.created
    ensures SlotsOk(chunks, r)
  {
  }

  lemma ParseKeeps(env: Input, limit: nat, chunks: seq<Chunk>, s: State)
    requires Shaped(env, limit, chunks, s) && Inv(env, limit, chunks, s) && s.main.Parsing?
    requires MainReady(env, limit, chunks, s)
    ensures Inv(env, limit, chunks, MainParses(env, limit, chunks, s))
  {
    hide MainRun, RoundOf, SlotsOk, Completed, Awaited, Seen, MainAnswer;
    RoundSeen(env, limit, s, chunks, s.main.it, s.main.p, s.main.pos);
    RoundRuns(env, limit, chunks, s.main.it, s.main.p, s.main.pos);
    SlotsSame(chunks, s, MainParses(env, limit, chunks, s));
  }

  /** A flagged result is the one its chunk determines. */
  lemma FlaggedResult(chunks: seq<Chunk>, s: State, k: nat, startsInString: bool)
    requires |s.phases| == |s.slots| == |chunks| && SlotsOk(chunks, s) && k < |chunks|
      && Completed(s, k, startsInString)
    ensures Result(s, k, startsInString) == Some(ResultOf(chunks[k], startsInString))
  {
  }

  lemma OneOfEach(i: nat, chosen: bool)
    ensures BothBuffers(i, false) + BothBuffers(i, true) == multiset{Buffer(i, chosen, SegmentBuffer)} + Rest(i, chosen)
  {
  }

  lemma OneMoreCollected(scenarios: seq<bool>, i: nat, freed: multiset<Buffer>, given: multiset<Buffer>)
    requires 1 <= i < |scenarios| && given == Chosen(scenarios, i) && freed + given == AllBuffers(i)
    ensures var given' := given + multiset{Buffer(i, scenarios[i], SegmentBuffer)};
            given' == Chosen(scenarios, i + 1) && freed + Rest(i, scenarios[i]) + given' == AllBuffers(i + 1)
  {
    hide Rest, BothBuffers;
    OneOfEach(i, scenarios[i]);
    var segment := multiset{Buffer(i, scenarios[i], SegmentBuffer)};
    assert freed + Rest(i, scenarios[i]) + (given + segment) == (freed + given) + (segment + Rest(i, scenarios[i]));
    assert AllBuffers(i + 1) == AllBuffers(i) + (BothBuffers(i, false) + BothBuffers(i, true));
  }

  lemma OneMoreSegment(chunks: seq<Chunk>, scenarios: seq<bool>, i: nat)
    requires 1 <= i < |chunks| == |scenarios|
    ensures Segments(chunks, scenarios, i + 1)
         == Segments(chunks, scenarios, i) + [ResultOf(chunks[i], scenarios[i]).segment]
  {
  }

  lemma CollectKeeps(env: Input, limit: nat, chunks: seq<Chunk>, s: State)
    requires Shaped(env, limit, chunks, s) && Inv(env, limit, chunks, s) && s.main.Collecting?
    requires MainReady(env, limit, chunks, s)
    ensures Inv(env, limit, chunks, MainCollects(env, limit, chunks, s))
  {
    hide MainRun, MainAnswer, SlotsOk, AllBuffers, Chosen, BothBuffers, Rest, Segments, Result, ResultOf;
    var i, r := s.main.i, s.main.r;
    SlotsSame(chunks, s, MainCollects(env, limit, chunks, s));
    if i < |chunks| {
      FlaggedResult(chunks, s, i, r.scenarios[i]);
      OneMoreCollected(r.scenarios, i, s.freed, s.given);
      OneMoreSegment(chunks, r.scenarios, i);
    }
  }

  lemma OneMoreCleaned(i: nat, freed: multiset<Buffer>)
    requires i >= 1 && freed == AllBuffers(i) + BothBuffers(i, false)
    ensures freed + BothBuffers(i, true) == AllBuffers(i + 1) + multiset{}
  {
  }

  lemma CleanUpKeeps(env: Input, limit: nat, chunks: seq<Chunk>, s: State)
    requires Shaped(env, limit, chunks, s) && Inv(env, limit, chunks, s) && s.main.CleaningUp?
    requires MainReady(env, limit, chunks, s)
    ensures Inv(env, limit, chunks, MainCleansUp(env, limit, chunks, s))
  {
    hide MainRun, MainAnswer, SlotsOk, AllBuffers, BothBuffers;
    var i, half := s.main.i, s.main.half;
    SlotsSame(chunks, s, MainCleansUp(env, limit, chunks, s));
    if i <= s.created && half {
      OneMoreCleaned(i, s.freed);
    }
  }

  lemma StepKeeps(env: Input, limit: nat, chunks: seq<Chunk>, s: State, a: Action)
    requires Shaped(env, limit, chunks, s) && Inv(env, limit, chunks, s) && Enabled(env, limit, chunks, s, a)
    ensures Inv(env, limit, chunks, Perform(env, limit, chunks, s, a))
  {
    hide SlotsOk, MainOk, MainParses, MainStarts, MainCollects, MainCleansUp, Worked;
    match a
    case Work(k) =>
      WorkKeepsSlots(chunks, s, k);
      WorkKeepsMain(env, limit, chunks, s, k);
    case StartFails => StartKeeps(env, limit, chunks, s);
    case MainStep =>
      if s.main.Starting? {
        StartKeeps(env, limit, chunks, s);
      } else if s.main.Parsing? {
        ParseKeeps(env, limit, chunks, s);
      } else if s.main.Collecting? {
        CollectKeeps(env, limit, chunks, s);
      } else {
        CleanUpKeeps(env, limit, chunks, s);
      }
  }

  lemma InitialInv(env: Input, limit: nat, chunks: seq<Chunk>)
    requires chunks != [] && limit <= |env.text|
    ensures Shaped(env, limit, chunks, Initial(|chunks|)) && Inv(env, limit, chunks, Initial(|chunks|))
  {
  }

  // ----- Published results -----

  lemma WorkLeavesPublished(chunks: seq<Chunk>, s: State, j: nat, k: nat, startsInString: bool)
    requires |s.phases| == |s.slots| == |chunks| && j < |chunks| && Working(s.phases[j])
    requires k < |chunks| && Completed(s, k, startsInString)
    ensures var r := Worked(s, j, chunks[j]);
            Completed(r, k, startsInString) && Result(r, k, startsInString) == Result(s, k, startsInString)
  {
  }

  /** Once a flag is set it stays set, and the result behind it, which is the one that the worker's chunk determines,
      does not change. */
  lemma PublishedStays(env: Input, limit: nat, chunks: seq<Chunk>, s: State, a: Action, k: nat, startsInString: bool)
    requires Shaped(env, limit, chunks, s) && Inv(env, limit, chunks, s) && Enabled(env, limit, chunks, s, a)
    requires k < |chunks| && Completed(s, k, startsInString)
    ensures var r := Perform(env, limit, chunks, s, a);
            && Completed(r, k, startsInString) && Result(r, k, startsInString) == Result(s, k, startsInString)
            && Result(s, k, startsInString) == Some(ResultOf(chunks[k], startsInString))
  {
    hide RoundOf, MainOk, Seen, Awaited, Worked;
    FlaggedResult(chunks, s, k, startsInString);
    match a
    case Work(j) => WorkLeavesPublished(chunks, s, j, k, startsInString);
    case StartFails =>
    case MainStep => NextNotStarted(chunks, s);
  }

  // ----- Ownership -----

  lemma BothOnce(k: nat, b: Buffer)
    ensures (BothBuffers(k, false) + BothBuffers(k, true))[b] == if b.worker == k then 1 else 0
  {
    if b.worker == k {
      match b.kind {
        case SegmentBuffer => assert b == Buffer(k, false, SegmentBuffer) || b == Buffer(k, true, SegmentBuffer);
        case TableBuffer => assert b == Buffer(k, false, TableBuffer) || b == Buffer(k, true, TableBuffer);
      }
    }
  }

  lemma {:induction false} AllBuffersOnce(i: nat, b: Buffer)
    ensures AllBuffers(i)[b] == if 1 <= b.worker < i then 1 else 0
  {
    if i > 1 {
      hide BothBuffers;
      AllBuffersOnce(i - 1, b);
      BothOnce(i - 1, b);
    }
  }

  lemma {:induction false} ChosenOnce(scenarios: seq<bool>, i: nat, b: Buffer)
    requires i <= |scenarios|
    ensures Chosen(scenarios, i)[b] ==
      if 1 <= b.worker < i && b.kind == SegmentBuffer && b.startsInString == scenarios[b.worker] then 1 else 0
  {
    if i > 1 {
      ChosenOnce(scenarios, i - 1, b);
    }
  }

  /** In every state: no buffer is released twice, none while its worker may still use it, and none while the main
      thread may still read a table. */
  lemma ReleasedOnce(env: Input, limit: nat, chunks: seq<Chunk>, s: State, b: Buffer)
    requires Shaped(env, limit, chunks, s) && Inv(env, limit, chunks, s)
    ensures (s.freed + s.given)[b] <= 1
    ensures b in s.freed + s.given ==> 1 <= b.worker < |chunks| && s.phases[b.worker].Exited?
    ensures b in s.freed + s.given ==> !s.main.Starting? && !s.main.Parsing?
  {
    hide MainRun, MainAnswer, SlotsOk, AllBuffers, Chosen, Segments;
    match s.main
    case Starting(_) =>
    case Parsing(_, _, _) =>
    case Collecting(_, i) => AllBuffersOnce(i, b);
    case CleaningUp(i, _) => AllBuffersOnce(i, b);
    case Returned(result) =>
      AllBuffersOnce(|chunks|, b);
      AllBuffersOnce(s.created + 1, b);
  }

  // ----- Ends -----

  function PhaseRank(phase: Phase): (r: nat)
    ensures r <= 5
  {
    match phase
    case NotStarted => 5
    case ParsingInString => 4
    case WroteInString => 3
    case ParsingNotInString => 2
    case WroteNotInString => 1
    case Exited => 0
  }

  function PhaseRanks(phases: seq<Phase>): (r: nat)
    ensures r <= 5 * |phases|
  {
    if phases == [] then 0 else PhaseRank(phases[0]) + PhaseRanks(phases[1..])
  }

  lemma {:induction false} RankUpdated(phases: seq<Phase>, k: nat, phase: Phase)
    requires k < |phases|
    ensures PhaseRanks(phases[k := phase]) == PhaseRanks(phases) - PhaseRank(phases[k]) + PhaseRank(phase)
  {
    if k == 0 {
      assert phases[k := phase][1..] == phases[1..];
    } else {
      assert phases[k := phase][1..] == phases[1..][k - 1 := phase];
      RankUpdated(phases[1..], k - 1, phase);
    }
  }

  function MainRank(limit: nat, n: nat, s: State): int {
    match s.main
    case Starting(next) => limit + 3 * n + 1 - next
    case Parsing(_, _, pos) => limit - pos + 2 * n
    case Collecting(_, i) => n - i + 1
    case CleaningUp(i, half) => 2 * (s.created + 1 - i) + (if half then 0 else 1)
    case Returned(_) => 0
  }

  /** How many steps are left at most. */
  function Rank(env: Input, limit: nat, chunks: seq<Chunk>, s: State): (r: nat)
    requires Shaped(env, limit, chunks, s)
  {
    PhaseRanks(s.phases) + MainRank(limit, |chunks|, s)
  }

  lemma StartRanks(env: Input, limit: nat, chunks: seq<Chunk>, s: State)
    requires Shaped(env, limit, chunks, s) && s.main.Starting?
    requires s.main.next < |chunks| ==> s.phases[s.main.next].NotStarted?
    ensures Rank(env, limit, chunks, MainStarts(env, limit, chunks, s)) < Rank(env, limit, chunks, s)
  {
    hide PhaseRanks;
    if s.main.next < |chunks| {
      RankUpdated(s.phases, s.main.next, ParsingInString);
    }
  }

  lemma ParseRanks(env: Input, limit: nat, chunks: seq<Chunk>, s: State)
    requires Shaped(env, limit, chunks, s) && s.main.Parsing?
    ensures Rank(env, limit, chunks, MainParses(env, limit, chunks, s)) < Rank(env, limit, chunks, s)
  {
    hide PhaseRanks, RoundOf, Seen;
  }

  lemma EndRanks(env: Input, limit: nat, chunks: seq<Chunk>, s: State)
    requires Shaped(env, limit, chunks, s)
    ensures s.main.Collecting? ==>
      Rank(env, limit, chunks, MainCollects(env, limit, chunks, s)) < Rank(env, limit, chunks, s)
    ensures s.main.CleaningUp? ==>
      Rank(env, limit, chunks, MainCleansUp(env, limit, chunks, s)) < Rank(env, limit, chunks, s)
  {
    hide PhaseRanks, ResultOf;
  }

  lemma StepRanks(env: Input, limit: nat, chunks: seq<Chunk>, s: State, a: Action)
    requires Shaped(env, limit, chunks, s) && Inv(env, limit, chunks, s) && Enabled(env, limit, chunks, s, a)
    ensures Rank(env, limit, chunks, Perform(env, limit, chunks, s, a)) < Rank(env, limit, chunks, s)
  {
    hide MainOk, PhaseRanks, MainParses, MainStarts, MainCollects, MainCleansUp;
    match a
    case Work(k) => RankUpdated(s.phases, k, Worked(s, k, chunks[k]).phases[k]);
    case StartFails =>
    case MainStep =>
      NextNotStarted(chunks, s);
      if s.main.Starting? {
        StartRanks(env, limit, chunks, s);
      } else if s.main.Parsing? {
        ParseRanks(env, limit, chunks, s);
      } else {
        EndRanks(env, limit, chunks, s);
      }
  }

  lemma NextNotStarted(chunks: seq<Chunk>, s: State)
    requires |s.phases| == |s.slots| == |chunks| && SlotsOk(chunks, s)
    ensures forall k :: s.created < k < |chunks| ==> s.phases[k].NotStarted?
  {
  }

  /** The main thread never waits for a worker that will not go on: before the end, some thread can take a step. */
  lemma NeverStuck(env: Input, limit: nat, chunks: seq<Chunk>, s: State) returns (a: Action)
    requires Shaped(env, limit, chunks, s) && Inv(env, limit, chunks, s) && !s.main.Returned?
    ensures a != StartFails && Enabled(env, limit, chunks, s, a)
  {
    hide MainRun, MainAnswer, AllBuffers, Chosen, Segments, NextToken;
    a := MainStep;
    if !MainReady(env, limit, chunks, s) {
      match s.main
      case Parsing(it, p, pos) => a := Work(Awaited(chunks, it, NextToken(env.text, limit, pos)).value.0);
      case Collecting(_, i) => a := Work(i);
      case CleaningUp(i, _) => a := Work(i);
    }
  }

  // ----- Every schedule -----

  /** What has become of the results once the parse has returned. */
  ghost predicate WellEnded(env: Input, limit: nat, chunks: seq<Chunk>, s: State)
    requires Shaped(env, limit, chunks, s) && s.main.Returned?
  {
    && s.contextsFreed && (forall k :: 1 <= k <= s.created ==> s.phases[k].Exited?)
    && (forall b: Buffer :: (s.freed + s.given)[b] == if 1 <= b.worker <= s.created then 1 else 0)
    && match s.main.result
       case Some(r) =>
         && MainAnswer(env, limit, chunks) == Some(r) && |r.scenarios| == |chunks| && s.created == |chunks| - 1
         && (forall main :: [main] + s.installed == DocumentOf(chunks, main, r.scenarios))
         && (forall b: Buffer :: s.given[b] ==
               if 1 <= b.worker < |chunks| && b.kind == SegmentBuffer && b.startsInString == r.scenarios[b.worker]
               then 1 else 0)
       case None => s.given == multiset{} && (s.startFailed || MainAnswer(env, limit, chunks).None?)
  }

  lemma ReturnedWell(env: Input, limit: nat, chunks: seq<Chunk>, s: State)
    requires Shaped(env, limit, chunks, s) && Inv(env, limit, chunks, s) && s.main.Returned?
    ensures WellEnded(env, limit, chunks, s)
  {
    hide MainRun, MainAnswer, SlotsOk, AllBuffers, Chosen;
    forall b: Buffer ensures (s.freed + s.given)[b] == if 1 <= b.worker <= s.created then 1 else 0 {
      AllBuffersOnce(s.created + 1, b);
    }
    if s.main.result.Some? {
      var r := s.main.result.value;
      forall b: Buffer ensures s.given[b] ==
        if 1 <= b.worker < |chunks| && b.kind == SegmentBuffer
          && b.startsInString == r.scenarios[b.worker] then 1 else 0
      {
        ChosenOnce(r.scenarios, |chunks|, b);
      }
      forall main ensures [main] + s.installed == DocumentOf(chunks, main, r.scenarios) {
      }
    }
  }

  lemma {:induction false} Bounded(env: Input, limit: nat, chunks: seq<Chunk>, s: State, schedule: seq<Action>)
    requires Shaped(env, limit, chunks, s) && Inv(env, limit, chunks, s) && Feasible(env, limit, chunks, s, schedule)
    ensures Inv(env, limit, chunks, After(env, limit, chunks, s, schedule))
    ensures |schedule| + Rank(env, limit, chunks, After(env, limit, chunks, s, schedule)) <= Rank(env, limit, chunks, s)
    decreases |schedule|
  {
    hide Inv, Perform, Enabled, Shaped, Rank;
    if schedule != [] {
      StepKeeps(env, limit, chunks, s, schedule[0]);
      StepRanks(env, limit, chunks, s, schedule[0]);
      Bounded(env, limit, chunks, Perform(env, limit, chunks, s, schedule[0]), schedule[1..]);
    }
  }

  /** Whatever the order of steps: the run ends after boundedly many, never gets stuck before, and returns what the
      main thread would return with all workers done beforehand, every buffer freed or handed over exactly once. */
  lemma EverySchedule(env: Input, limit: nat, chunks: seq<Chunk>, schedule: seq<Action>)
    requires chunks != [] && limit <= |env.text|
    requires Shaped(env, limit, chunks, Initial(|chunks|)) && Feasible(env, limit, chunks, Initial(|chunks|), schedule)
    ensures |schedule| <= limit + 8 * |chunks|
    ensures var s := After(env, limit, chunks, Initial(|chunks|), schedule);
            if s.main.Returned? then WellEnded(env, limit, chunks, s)
            else exists a :: a != StartFails && Enabled(env, limit, chunks, s, a)
  {
    hide Inv, Shaped, Feasible, After, WellEnded, Enabled;
    InitialInv(env, limit, chunks);
    Bounded(env, limit, chunks, Initial(|chunks|), schedule);
    var s := After(env, limit, chunks, Initial(|chunks|), schedule);
    if s.main.Returned? {
      ReturnedWell(env, limit, chunks, s);
    } else {
      var a := NeverStuck(env, limit, chunks, s);
    }
  }

  /** The main thread's segment, and with the installed ones a document for the sequential value. */
  ghost predicate Completes(env: Input, installed: seq<seq<Byte>>, root: Tree, main: seq<Byte>) {
    && Enc(env.text, main, 0, |main|, root)
    && DecodesTo(env.text, [main] + installed, Deref(root)) && Settled(env.text, [main] + installed, ROOT, Deref(root))
  }

  /** Parallel soundness over all interleavings: unless a thread could not be created, the parse succeeds exactly when
      the sequential one does and no found value is refused. Then there is a main segment that encodes the result, and
      with whichever one does the installed segments are a document of the sequential value. */
  lemma AnyScheduleIsSequential(env: Input, limit: nat, chunks: seq<Chunk>, schedule: seq<Action>)
    requires ChunksOk(env, limit, chunks) && limit <= |env.text| && chunks != []
    requires Shaped(env, limit, chunks, Initial(|chunks|)) && Feasible(env, limit, chunks, Initial(|chunks|), schedule)
    requires After(env, limit, chunks, Initial(|chunks|), schedule).main.Returned?
    ensures var s, g := After(env, limit, chunks, Initial(|chunks|), schedule), Root(env, limit, 0);
            && (!s.startFailed ==> (s.main.result.Some? <==> g.Some? && !AnyRefused(env, limit, chunks)))
            && (s.main.result.Some? ==> var r := s.main.result.value; g == Some(Parsed(DerefRoot(r.root), r.next)))
    ensures var s := After(env, limit, chunks, Initial(|chunks|), schedule);
            s.main.result.Some? && s.main.result.value.root.Some? ==>
              var root := s.main.result.value.root.value;
              && (forall main :: Enc(env.text, main, 0, |main|, root) ==> Completes(env, s.installed, root, main))
              && (|env.text| <= MAX_TEXT && |chunks| <= 256 ==> exists main :: Completes(env, s.installed, root, main))
  {
    hide Shaped, Feasible, After, Inv, MainRun, MainAnswer, ChunksOk, Refused, AnyRefused, Root, Enc, Completes;
    EverySchedule(env, limit, chunks, schedule);
    ParallelIsSequential(env, limit, chunks);
    var s := After(env, limit, chunks, Initial(|chunks|), schedule);
    if s.main.result.Some? && s.main.result.value.root.Some? {
      var r := s.main.result.value;
      forall main | Enc(env.text, main, 0, |main|, r.root.value)
        ensures Completes(env, s.installed, r.root.value, main)
      {
        InstalledComplete(env, limit, chunks, s.installed, main);
      }
      if |env.text| <= MAX_TEXT && |chunks| <= 256 {
        var main := MainSegmentExists(env, limit, chunks);
        assert Completes(env, s.installed, r.root.value, main);
      }
    }
  }

  lemma InstalledComplete(env: Input, limit: nat, chunks: seq<Chunk>, installed: seq<seq<Byte>>, main: seq<Byte>)
    requires ChunksOk(env, limit, chunks) && limit <= |env.text| && chunks != []
    requires var m := MainAnswer(env, limit, chunks);
             && m.Some? && m.value.root.Some? && Enc(env.text, main, 0, |main|, m.value.root.value)
             && |m.value.scenarios| == |chunks|
             && [main] + installed == DocumentOf(chunks, main, m.value.scenarios)
    ensures Completes(env, installed, MainAnswer(env, limit, chunks).value.root.value, main)
  {
    hide MainRun, ChunksOk, Enc, DecodesTo, Settled;
    ParallelDecodes(env, limit, chunks, main);
  }
}
