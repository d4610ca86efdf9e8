/** The main thread's iterator over the workers' tables: it only ever moves forward, yet answers like a map. */
module Lookup {
  import opened Bytes
  import opened Tokenizer
  import opened Trees
  import opened Grammar
  import opened Preparse

  /** What a worker hands over for one scenario: a table, and the segment its offsets point into. */
  datatype WorkerResult = WorkerResult(table: seq<Entry>, segment: seq<Byte>)

  /** The text from `lo` up to `hi`, and the results for the two guesses of how it starts. */
  datatype Chunk = Chunk(lo: nat, hi: nat, notInString: WorkerResult, inString: WorkerResult)

  function ResultOf(c: Chunk, startsInString: bool): WorkerResult {
    if startsInString then c.inString else c.notInString
  }

  function TableOf(c: Chunk, startsInString: bool): seq<Entry> {
    ResultOf(c, startsInString).table
  }

  /** Where the worker starts to parse under a guess. */
  function EntryPoint(env: Input, c: Chunk, startsInString: bool): (p: nat)
    requires c.lo <= c.hi <= |env.text|
    ensures c.lo <= p <= c.hi
  {
    if startsInString then AfterString(env.text, c.hi, c.lo) else c.lo
  }

  // ----- Chunks and their tables -----

  /** The chunks tile the text up to the limit. */
  predicate Tiling(chunks: seq<Chunk>, limit: nat) {
    && chunks != [] && chunks[0].lo == 0 && chunks[|chunks| - 1].hi == limit
    && (forall i :: 0 <= i < |chunks| ==> chunks[i].lo <= chunks[i].hi <= limit)
    && (forall i :: 0 <= i < |chunks| - 1 ==> chunks[i].hi == chunks[i + 1].lo)
  }

  /** The first chunk has no worker; the others hold what their workers found. */
  ghost predicate ChunksOk(env: Input, limit: nat, chunks: seq<Chunk>) {
    && limit <= |env.text| && Tiling(chunks, limit)
    && (forall s: bool :: TableOf(chunks[0], s) == [])
    && (forall i, s: bool :: 1 <= i < |chunks| ==>
          Preparsed(env, chunks[i].hi, EntryPoint(env, chunks[i], s), ResultOf(chunks[i], s).segment,
            TableOf(chunks[i], s)))
  }

  /** An entry lies in its chunk, and is what parsing the whole text from its start consumes. */
  predicate EntryOk(env: Input, limit: nat, c: Chunk, e: Entry)
    requires limit <= |env.text|
  {
    && c.lo <= e.start && e.size > 0 && e.start + e.size <= c.hi <= limit
    && var v := Value(env, limit, e.start);
       v.Some? && v.value.next == e.start + e.size
  }

  lemma EntriesOk(env: Input, limit: nat, chunks: seq<Chunk>, k: nat, s: bool, i: nat)
    requires ChunksOk(env, limit, chunks) && k < |chunks| && i < |TableOf(chunks[k], s)|
    ensures k > 0 && EntryOk(env, limit, chunks[k], TableOf(chunks[k], s)[i])
    ensures var v := Value(env, limit, TableOf(chunks[k], s)[i].start).value.value;
            NoRefs(v) && Stored(env.text, ResultOf(chunks[k], s).segment, TableOf(chunks[k], s)[i].offset, v)
  {
    hide Regions, Value, NextToken, Stored;
    RegionsValid(env, chunks[k].hi, limit, EntryPoint(env, chunks[k], s), i);
  }

  lemma TableInOrder(env: Input, limit: nat, chunks: seq<Chunk>, k: nat, s: bool, i: nat, j: nat)
    requires ChunksOk(env, limit, chunks) && k < |chunks| && i < j < |TableOf(chunks[k], s)|
    ensures TableOf(chunks[k], s)[i].start < TableOf(chunks[k], s)[j].start
  {
    hide Regions, Value, NextToken, Stored, EntryOk;
    EntryHasSize(env, limit, chunks, k, s, i);
    RegionsApart(env, chunks[k].hi, EntryPoint(env, chunks[k], s), i, j);
  }

  lemma EntryHasSize(env: Input, limit: nat, chunks: seq<Chunk>, k: nat, s: bool, i: nat)
    requires ChunksOk(env, limit, chunks) && k < |chunks| && i < |TableOf(chunks[k], s)|
    ensures TableOf(chunks[k], s)[i].size > 0
  {
    hide ChunksOk, Value;
    EntriesOk(env, limit, chunks, k, s, i);
  }

  // ----- The iterator -----

  /** The chunk last reached, what is left of its table, and the guess made for every chunk so far. */
  datatype Iter = Iter(index: nat, rest: seq<Entry>, current: Option<Entry>, scenarios: seq<bool>)

  predicate Fits(chunks: seq<Chunk>, it: Iter) {
    it.index < |chunks| && |it.scenarios| == |chunks|
  }

  function IterInit(chunks: seq<Chunk>): (it: Iter)
    requires chunks != []
    ensures Fits(chunks, it)
  {
    Iter(0, [], None, seq(|chunks|, i => false))
  }

  /** The first chunk from `k` on that ends behind the point. */
  function ChunkBefore(chunks: seq<Chunk>, k: nat, point: nat): (r: nat)
    requires k <= |chunks|
    ensures k <= r <= |chunks| && (r < |chunks| ==> point < chunks[r].hi)
    ensures forall j :: k <= j < r ==> chunks[j].hi <= point
    decreases |chunks| - k
  {
    if k == |chunks| || point < chunks[k].hi then k else ChunkBefore(chunks, k + 1, point)
  }

  /** `thsn_pp_iter_advance_to_char`: the first token to reach a chunk decides which of its tables to use. */
  function Advance(chunks: seq<Chunk>, it: Iter, point: nat, inString: bool): (r: Iter)
    requires Fits(chunks, it)
    ensures Fits(chunks, r) && it.index <= r.index
    ensures forall j :: 0 <= j <= it.index ==> r.scenarios[j] == it.scenarios[j]
  {
    if point < chunks[it.index].hi then it
    else
      var k := ChunkBefore(chunks, it.index + 1, point);
      if k == |chunks| then Iter(|chunks| - 1, [], None, it.scenarios)
      else
        var table := TableOf(chunks[k], inString);
        Iter(k, if table == [] then [] else table[1..], if table == [] then None else Some(table[0]),
             it.scenarios[k := inString])
  }

  /** `thsn_pp_iter_find_value_at`, after the advance: step through the table up to the point. */
  function Search(it: Iter, point: nat): (r: (Iter, Option<Entry>))
    ensures r.0.index == it.index && r.0.scenarios == it.scenarios
    ensures r.1.Some? ==> r.1.value.start == point
    decreases |it.rest|
  {
    if it.current.None? || point < it.current.value.start then (it, None)
    else if point == it.current.value.start then (it, it.current)
    else if it.rest == [] then (it, None)
    else Search(it.(current := Some(it.rest[0]), rest := it.rest[1..]), point)
  }

  function Find(chunks: seq<Chunk>, it: Iter, point: nat): (r: (Iter, Option<Entry>))
    requires Fits(chunks, it)
    ensures Fits(chunks, r.0) && it.index <= r.0.index
    ensures forall j :: 0 <= j <= it.index ==> r.0.scenarios[j] == it.scenarios[j]
    ensures r.1.Some? ==> r.1.value.start == point
  {
    Search(Advance(chunks, it, point, false), point)
  }

  // ----- The iterator as a map -----

  function Pending(it: Iter): seq<Entry> {
    if it.current.None? then [] else [it.current.value] + it.rest
  }

  /** What the iterator has not passed yet is the rest of the chosen table; all it has passed starts before `pos`. */
  predicate LeftOf(table: seq<Entry>, pending: seq<Entry>, d: nat, pos: nat) {
    d <= |table| && pending == table[d..] && forall i :: 0 <= i < d ==> table[i].start < pos
  }

  ghost predicate IterOk(chunks: seq<Chunk>, it: Iter, pos: nat) {
    && Fits(chunks, it)
    && (it.current.None? ==> it.rest == [])
    && chunks[it.index].lo <= pos
    && exists d: nat :: LeftOf(TableOf(chunks[it.index], it.scenarios[it.index]), Pending(it), d, pos)
  }

  lemma InitOk(env: Input, limit: nat, chunks: seq<Chunk>)
    requires ChunksOk(env, limit, chunks)
    ensures IterOk(chunks, IterInit(chunks), 0)
  {
    hide Preparsed;
    var it := IterInit(chunks);
    var table := TableOf(chunks[it.index], it.scenarios[it.index]);
    assert table == [] && Pending(it) == table[0..];
    assert LeftOf(table, Pending(it), 0, 0);
  }

  lemma OkLater(chunks: seq<Chunk>, it: Iter, pos: nat, pos': nat)
    requires IterOk(chunks, it, pos) && pos <= pos'
    ensures IterOk(chunks, it, pos')
  {
    var d: nat :| LeftOf(TableOf(chunks[it.index], it.scenarios[it.index]), Pending(it), d, pos);
    assert LeftOf(TableOf(chunks[it.index], it.scenarios[it.index]), Pending(it), d, pos');
  }

  /** Behind the last chunk: everything in the table has been passed. */
  lemma PassedAll(env: Input, limit: nat, chunks: seq<Chunk>, k: nat, s: bool, point: nat)
    requires ChunksOk(env, limit, chunks) && k < |chunks| && chunks[k].hi <= point
    ensures LeftOf(TableOf(chunks[k], s), [], |TableOf(chunks[k], s)|, point)
  {
    hide ChunksOk, EntryOk, Value, Stored;
    TilingOf(env, limit, chunks);
    var table := TableOf(chunks[k], s);
    forall i | 0 <= i < |table| ensures table[i].start < point {
      EntriesOk(env, limit, chunks, k, s, i);
      EntryBefore(env, limit, chunks[k], table[i]);
    }
    assert table[|table|..] == [];
  }

  /** In a chunk just reached: nothing has been passed yet. */
  lemma PassedNone(table: seq<Entry>, point: nat)
    ensures LeftOf(table, if table == [] then [] else [table[0]] + table[1..], 0, point)
  {
  }

  lemma AdvanceOk(env: Input, limit: nat, chunks: seq<Chunk>, it: Iter, pos: nat, point: nat, inString: bool)
    requires ChunksOk(env, limit, chunks) && IterOk(chunks, it, pos) && pos <= point <= limit
    ensures var r := Advance(chunks, it, point, inString);
            IterOk(chunks, r, point) && (point < limit ==> point < chunks[r.index].hi)
  {
    hide ChunksOk, LeftOf;
    TilingOf(env, limit, chunks);
    OkLater(chunks, it, pos, point);
    if chunks[it.index].hi <= point {
      hide ChunkBefore;
      var k := ChunkBefore(chunks, it.index + 1, point);
      if k < |chunks| {
        assert chunks[k - 1].hi == chunks[k].lo;
        var r, table := Advance(chunks, it, point, inString), TableOf(chunks[k], inString);
        PassedNone(table, point);
        assert LeftOf(TableOf(chunks[r.index], r.scenarios[r.index]), Pending(r), 0, point);
      } else {
        PassedAll(env, limit, chunks, |chunks| - 1, it.scenarios[|chunks| - 1], point);
        var r := Advance(chunks, it, point, inString);
        assert Pending(r) == [];
      }
    }
  }

  lemma TilingOf(env: Input, limit: nat, chunks: seq<Chunk>)
    requires ChunksOk(env, limit, chunks)
    ensures limit <= |env.text| && Tiling(chunks, limit)
  {
  }

  lemma EntryBefore(env: Input, limit: nat, c: Chunk, e: Entry)
    requires limit <= |env.text| && EntryOk(env, limit, c, e)
    ensures c.lo <= e.start < e.start + e.size <= c.hi <= limit
  {
    hide Value;
  }

  lemma {:induction false} SearchOk(chunks: seq<Chunk>, it: Iter, point: nat, d: nat)
    requires Fits(chunks, it) && (it.current.None? ==> it.rest == []) && chunks[it.index].lo <= point
    requires LeftOf(TableOf(chunks[it.index], it.scenarios[it.index]), Pending(it), d, point)
    requires var table := TableOf(chunks[it.index], it.scenarios[it.index]);
             forall i, j :: 0 <= i < j < |table| ==> table[i].start < table[j].start
    ensures var r := Search(it, point);
            var table := TableOf(chunks[it.index], it.scenarios[it.index]);
            && IterOk(chunks, r.0, point)
            && (r.1.Some? ==> r.1.value in table)
            && (r.1.None? ==> forall e :: e in table ==> e.start != point)
    decreases |it.rest|
  {
    var table := TableOf(chunks[it.index], it.scenarios[it.index]);
    if it.current.None? {
      assert LeftOf(table, Pending(it), d, point);
    } else {
      assert table[d..][0] == table[d] == it.current.value;
      assert it.rest == table[d + 1..] by {
        assert Pending(it)[1..] == it.rest;
      }
      if it.current.value.start < point && it.rest != [] {
        var next := it.(current := Some(it.rest[0]), rest := it.rest[1..]);
        assert Pending(next) == it.rest;
        SearchOk(chunks, next, point, d + 1);
      } else {
        assert LeftOf(table, Pending(it), d, point);
      }
    }
  }

  /** Forward-only lookup refines a map: over increasing points, a value is found at a point exactly when the chosen
      table of the chunk that contains the point has an entry that starts there. */
  lemma FindIsLookup(env: Input, limit: nat, chunks: seq<Chunk>, it: Iter, pos: nat, point: nat)
    requires ChunksOk(env, limit, chunks) && IterOk(chunks, it, pos) && pos <= point < limit
    ensures var r := Find(chunks, it, point);
            var table := TableOf(chunks[r.0.index], r.0.scenarios[r.0.index]);
            && IterOk(chunks, r.0, point)
            && chunks[r.0.index].lo <= point < chunks[r.0.index].hi
            && (r.1.Some? <==> exists e :: e in table && e.start == point)
            && (r.1.Some? ==> r.1.value in table && r.1.value.start == point)
  {
    hide ChunksOk;
    AdvanceOk(env, limit, chunks, it, pos, point, false);
    var a := Advance(chunks, it, point, false);
    var table := TableOf(chunks[a.index], a.scenarios[a.index]);
    var d: nat :| LeftOf(table, Pending(a), d, point);
    forall i, j | 0 <= i < j < |table| ensures table[i].start < table[j].start {
      TableInOrder(env, limit, chunks, a.index, a.scenarios[a.index], i, j);
    }
    SearchOk(chunks, a, point, d);
  }
}
