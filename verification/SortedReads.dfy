/** Sorting the index of one object after the other, as key lookups do, against the document around them. */
module SortedReads {
  import opened Bytes
  import opened Tokenizer
  import opened Trees
  import opened Grammar
  import Pushdown
  import opened Encoding
  import opened Documents
  import opened Readers
  import opened Preparse
  import opened Lookup
  import opened Parallel
  import opened SortedIndex
  import opened Nesting

  // ----- The handles of a value -----

  /** Somewhere in the value there is this handle. */
  ghost predicate LeadsTo(t: Tree, segment: nat, offset: nat, target: Tree) {
    match t
    case Ref(s, o, v) => s == segment && o == offset && v == target
    case Arr(elems) => exists i :: 0 <= i < |elems| && LeadsTo(elems[i], segment, offset, target)
    case Obj(kvs) => exists i :: 0 <= i < |kvs| && LeadsTo(kvs[i].value, segment, offset, target)
    case _ => false
  }

  ghost predicate LinkedRef(text: seq<Byte>, doc: Doc, segment: nat, offset: nat, target: Tree) {
    segment < |doc| && NoRefs(target) && exists end: nat :: Enc(text, doc[segment], offset, end, target)
  }

  lemma {:induction false} RefsLinked(text: seq<Byte>, doc: Doc, t: Tree, segment: nat, offset: nat, target: Tree)
    requires Linked(text, doc, t) && LeadsTo(t, segment, offset, target)
    ensures LinkedRef(text, doc, segment, offset, target)
  {
    hide Enc;
    match t
    case Arr(elems) =>
      var i :| 0 <= i < |elems| && LeadsTo(elems[i], segment, offset, target);
      RefsLinked(text, doc, elems[i], segment, offset, target);
    case Obj(kvs) =>
      var i :| 0 <= i < |kvs| && LeadsTo(kvs[i].value, segment, offset, target);
      RefsLinked(text, doc, kvs[i].value, segment, offset, target);
    case Ref(_, _, _) =>
  }

  lemma {:induction false} LinkedFromRefs(text: seq<Byte>, doc: Doc, t: Tree)
    requires forall s: nat, o: nat, v: Tree :: LeadsTo(t, s, o, v) ==> LinkedRef(text, doc, s, o, v)
    ensures Linked(text, doc, t)
  {
    hide Enc;
    match t
    case Arr(elems) =>
      forall i | 0 <= i < |elems| ensures Linked(text, doc, elems[i]) {
        forall s: nat, o: nat, v: Tree | LeadsTo(elems[i], s, o, v) ensures LinkedRef(text, doc, s, o, v) {
          assert LeadsTo(t, s, o, v);
        }
        LinkedFromRefs(text, doc, elems[i]);
      }
    case Obj(kvs) =>
      forall i | 0 <= i < |kvs| ensures Linked(text, doc, kvs[i].value) {
        forall s: nat, o: nat, v: Tree | LeadsTo(kvs[i].value, s, o, v) ensures LinkedRef(text, doc, s, o, v) {
          assert LeadsTo(t, s, o, v);
        }
        LinkedFromRefs(text, doc, kvs[i].value);
      }
    case Ref(s, o, v) => assert LeadsTo(t, s, o, v);
    case _ =>
  }

  lemma {:induction false} NoRefsLeadNowhere(t: Tree, segment: nat, offset: nat, target: Tree)
    requires NoRefs(t)
    ensures !LeadsTo(t, segment, offset, target)
  {
    match t
    case Arr(elems) =>
      forall i | 0 <= i < |elems| ensures !LeadsTo(elems[i], segment, offset, target) {
        NoRefsLeadNowhere(elems[i], segment, offset, target);
      }
    case Obj(kvs) =>
      forall i | 0 <= i < |kvs| ensures !LeadsTo(kvs[i].value, segment, offset, target) {
        NoRefsLeadNowhere(kvs[i].value, segment, offset, target);
      }
    case _ =>
  }

  // ----- The objects of a document -----

  /** An object with members, and where it is stored. */
  datatype StoredObject = StoredObject(segment: nat, offset: nat, end: nat, kvs: seq<Member>)

  ghost predicate InsideOf(seg: seq<Byte>, off: nat, end: nat, t: Tree, b: StoredObject) {
    Inside(seg, off, end, t, b.offset, b.end, b.kvs)
  }

  ghost predicate Within(text: seq<Byte>, seg: seq<Byte>, offset: nat, end: nat, target: Tree, b: StoredObject) {
    Enc(text, seg, offset, end, target) && InsideOf(seg, offset, end, target, b)
  }

  /** The object is part of the root, or of a value that a handle leads to. */
  ghost predicate Reached(text: seq<Byte>, doc: Doc, end: nat, t: Tree, b: StoredObject) {
    && b.segment < |doc| && b.kvs != []
    && if b.segment == 0 then InsideOf(doc[0], 0, end, t, b)
       else exists offset: nat, target: Tree, stop: nat ::
              LeadsTo(t, b.segment, offset, target) && Within(text, doc[b.segment], offset, stop, target, b)
  }

  ghost predicate BesideTarget(text: seq<Byte>, seg: seq<Byte>, offset: nat, target: Tree, b: StoredObject) {
    exists end: nat ::
      && Enc(text, seg, offset, end, target)
      && (end <= b.offset || b.end <= offset || InsideOf(seg, offset, end, target, b))
  }

  /** Wherever a handle leads into the object's segment, the object is inside the value there, or beside it. */
  ghost predicate Beside(text: seq<Byte>, doc: Doc, t: Tree, b: StoredObject) {
    && b.segment < |doc|
    && forall offset: nat, target: Tree :: LeadsTo(t, b.segment, offset, target) ==>
         BesideTarget(text, doc[b.segment], offset, target, b)
  }

  /** The root is stored at the beginning, and every handle leads to a value without handles. */
  ghost predicate Intact(text: seq<Byte>, doc: Doc, end: nat, t: Tree) {
    doc != [] && Enc(text, doc[0], 0, end, t) && Linked(text, doc, t) && !t.Ref?
  }

  /** A document whose objects do not overlap values they are no part of. */
  ghost predicate Sortable(text: seq<Byte>, doc: Doc, end: nat, t: Tree) {
    && Intact(text, doc, end, t)
    && forall b: StoredObject :: Reached(text, doc, end, t, b) ==> Beside(text, doc, t, b)
  }

  /** A document for a value, ready for lookups. */
  ghost predicate Searchable(text: seq<Byte>, doc: Doc, value: Tree) {
    doc != [] && exists t: Tree :: Sortable(text, doc, |doc[0]|, t) && Deref(t) == value
  }

  lemma ReachedEnc(text: seq<Byte>, doc: Doc, end: nat, t: Tree, b: StoredObject)
    requires Intact(text, doc, end, t) && Reached(text, doc, end, t, b)
    ensures Enc(text, doc[b.segment], b.offset, b.end, Obj(b.kvs))
  {
    hide Enc, Inside, LeadsTo;
    if b.segment == 0 {
      InsideEnc(text, doc[0], 0, end, t, b.offset, b.end, b.kvs);
    } else {
      var offset: nat, target: Tree, stop: nat :|
        LeadsTo(t, b.segment, offset, target) && Within(text, doc[b.segment], offset, stop, target, b);
      InsideEnc(text, doc[b.segment], offset, stop, target, b.offset, b.end, b.kvs);
    }
  }

  // ----- One sort -----

  /** One segment holds the object with another order of its index, and all else is the same. */
  ghost predicate Resorts(text: seq<Byte>, doc: Doc, doc': Doc, a: StoredObject) {
    && a.segment < |doc| == |doc'| && a.kvs != [] && doc' == doc[a.segment := doc'[a.segment]]
    && Enc(text, doc[a.segment], a.offset, a.end, Obj(a.kvs)) && Enc(text, doc'[a.segment], a.offset, a.end, Obj(a.kvs))
    && Resorted(doc[a.segment], doc'[a.segment], a.offset, a.end, |a.kvs|)
  }

  /** Undoing a sort looks the same. */
  lemma ResortsBack(text: seq<Byte>, doc: Doc, doc': Doc, a: StoredObject)
    requires Resorts(text, doc, doc', a)
    ensures Resorts(text, doc', doc, a)
  {
    hide Enc;
  }

  /** A value in the object's segment that the object is inside of, or beside, and what is inside that value. */
  lemma ValueStays(text: seq<Byte>, doc: Doc, doc': Doc, a: StoredObject, off: nat, end: nat, t: Tree)
    requires Resorts(text, doc, doc', a) && Enc(text, doc[a.segment], off, end, t)
    requires end <= a.offset || a.end <= off || InsideOf(doc[a.segment], off, end, t, a)
    ensures Enc(text, doc'[a.segment], off, end, t)
    ensures forall b: StoredObject ::
      InsideOf(doc[a.segment], off, end, t, b) ==> InsideOf(doc'[a.segment], off, end, t, b)
  {
    hide Enc, Inside;
    var seg, r := doc[a.segment], doc'[a.segment];
    EncBounds(text, seg, off, end, t);
    BesideKept(text, seg, r, off, end, t, a.offset, a.end, a.kvs);
    forall b: StoredObject | InsideOf(seg, off, end, t, b) ensures InsideOf(r, off, end, t, b) {
      if InsideOf(seg, off, end, t, a) {
        InsideKept(text, seg, r, off, end, t, a.offset, a.end, a.kvs, b.offset, b.end, b.kvs);
      } else {
        InsideLocal(text, seg, r, off, end, t, b.offset, b.end, b.kvs);
      }
    }
  }

  lemma IntactStays(text: seq<Byte>, doc: Doc, doc': Doc, end: nat, t: Tree, a: StoredObject)
    requires Intact(text, doc, end, t) && Reached(text, doc, end, t, a) && Beside(text, doc, t, a)
    requires Resorts(text, doc, doc', a)
    ensures Intact(text, doc', end, t)
  {
    hide Enc, Inside, InsideOf, LeadsTo, Linked, Resorted;
    if a.segment == 0 {
      ValueStays(text, doc, doc', a, 0, end, t);
    }
    forall s: nat, o: nat, v: Tree | LeadsTo(t, s, o, v) ensures LinkedRef(text, doc', s, o, v) {
      RefsLinked(text, doc, t, s, o, v);
      if s == a.segment {
        assert BesideTarget(text, doc[s], o, v, a);
        var stop: nat :| Enc(text, doc[s], o, stop, v) &&
          (stop <= a.offset || a.end <= o || InsideOf(doc[s], o, stop, v, a));
        ValueStays(text, doc, doc', a, o, stop, v);
        assert Enc(text, doc'[s], o, stop, v);
      } else {
        var stop: nat :| Enc(text, doc[s], o, stop, v);
        assert Enc(text, doc'[s], o, stop, v);
      }
    }
    LinkedFromRefs(text, doc', t);
  }

  lemma ReachedStays(text: seq<Byte>, doc: Doc, doc': Doc, end: nat, t: Tree, a: StoredObject, b: StoredObject)
    requires Intact(text, doc, end, t) && Reached(text, doc, end, t, a) && Beside(text, doc, t, a)
    requires Resorts(text, doc, doc', a) && Reached(text, doc, end, t, b)
    ensures Reached(text, doc', end, t, b)
  {
    hide Enc, Inside, InsideOf, LeadsTo, Linked, Resorted;
    if b.segment == a.segment {
      if b.segment == 0 {
        ValueStays(text, doc, doc', a, 0, end, t);
      } else {
        var offset: nat, target: Tree, stop: nat :|
          LeadsTo(t, b.segment, offset, target) && Within(text, doc[b.segment], offset, stop, target, b);
        assert BesideTarget(text, doc[a.segment], offset, target, a);
        var stop': nat :| Enc(text, doc[a.segment], offset, stop', target) &&
          (stop' <= a.offset || a.end <= offset || InsideOf(doc[a.segment], offset, stop', target, a));
        EndUnique(text, doc[a.segment], offset, stop, stop', target);
        ValueStays(text, doc, doc', a, offset, stop, target);
        assert Within(text, doc'[b.segment], offset, stop, target, b);
      }
    } else if b.segment != 0 {
      var offset: nat, target: Tree, stop: nat :|
        LeadsTo(t, b.segment, offset, target) && Within(text, doc[b.segment], offset, stop, target, b);
      assert Within(text, doc'[b.segment], offset, stop, target, b);
    }
  }

  lemma BesideStays(text: seq<Byte>, doc: Doc, doc': Doc, t: Tree, a: StoredObject, b: StoredObject)
    requires Resorts(text, doc, doc', a) && Beside(text, doc, t, a) && Beside(text, doc, t, b)
    ensures Beside(text, doc', t, b)
  {
    hide Enc, Inside, InsideOf, LeadsTo, Resorted;
    forall o: nat, v: Tree | LeadsTo(t, b.segment, o, v) ensures BesideTarget(text, doc'[b.segment], o, v, b) {
      assert BesideTarget(text, doc[b.segment], o, v, b);
      if b.segment == a.segment {
        assert BesideTarget(text, doc[a.segment], o, v, a);
        var stop: nat :| Enc(text, doc[a.segment], o, stop, v) &&
          (stop <= a.offset || a.end <= o || InsideOf(doc[a.segment], o, stop, v, a));
        var stop': nat :| Enc(text, doc[a.segment], o, stop', v) &&
          (stop' <= b.offset || b.end <= o || InsideOf(doc[a.segment], o, stop', v, b));
        EndUnique(text, doc[a.segment], o, stop, stop', v);
        ValueStays(text, doc, doc', a, o, stop, v);
      }
    }
  }

  /** Sorting any object's index leaves a sortable document: with the same root, and with the same objects at the same
      places, no more and no fewer. */
  lemma SortableStays(text: seq<Byte>, doc: Doc, doc': Doc, end: nat, t: Tree, a: StoredObject)
    requires Sortable(text, doc, end, t) && Reached(text, doc, end, t, a) && Resorts(text, doc, doc', a)
    ensures Sortable(text, doc', end, t)
    ensures forall b: StoredObject :: Reached(text, doc', end, t, b) <==> Reached(text, doc, end, t, b)
  {
    hide Intact, Reached, Beside, Resorts;
    IntactStays(text, doc, doc', end, t, a);
    ReachedStays(text, doc, doc', end, t, a, a);
    SegmentsOf(text, doc, doc', end, t, a);
    BesideStays(text, doc, doc', t, a, a);
    ResortsBack(text, doc, doc', a);
    forall b: StoredObject ensures Reached(text, doc', end, t, b) <==> Reached(text, doc, end, t, b) {
      if Reached(text, doc, end, t, b) {
        ReachedStays(text, doc, doc', end, t, a, b);
      }
      if Reached(text, doc', end, t, b) {
        ReachedStays(text, doc', doc, end, t, a, b);
      }
    }
    forall b: StoredObject | Reached(text, doc', end, t, b) ensures Beside(text, doc', t, b) {
      SegmentsOf(text, doc, doc', end, t, b);
      BesideStays(text, doc, doc', t, a, b);
    }
  }

  lemma SegmentsOf(text: seq<Byte>, doc: Doc, doc': Doc, end: nat, t: Tree, b: StoredObject)
    requires Reached(text, doc, end, t, b)
    ensures b.segment < |doc|
  {
  }

  // ----- Any number of sorted lookups -----

  /** What a sorted read makes of a document: the same again, or another order of the object's index. */
  ghost predicate SortedRead(text: seq<Byte>, doc: Doc, doc': Doc, a: StoredObject) {
    && a.segment < |doc|
    && (|| doc' == doc
        || exists table: seq<Word>, r: seq<Byte> ::
             && RearrangedTo(text, doc[a.segment], a.offset, a.end, a.kvs, table, r)
             && doc' == doc[a.segment := r])
  }

  /** One sorted read after the other, each of an object that is in the document by then. */
  ghost predicate Session(text: seq<Byte>, end: nat, t: Tree, docs: seq<Doc>, lookups: seq<StoredObject>) {
    && |docs| == |lookups| + 1
    && forall i :: 0 <= i < |lookups| ==>
         Reached(text, docs[i], end, t, lookups[i]) && SortedRead(text, docs[i], docs[i + 1], lookups[i])
  }

  lemma SortResorts(text: seq<Byte>, doc: Doc, r: seq<Byte>, a: StoredObject, table: seq<Word>)
    requires a.segment < |doc| && a.kvs != [] && Enc(text, doc[a.segment], a.offset, a.end, Obj(a.kvs))
    requires RearrangedTo(text, doc[a.segment], a.offset, a.end, a.kvs, table, r)
    ensures Resorts(text, doc, doc[a.segment := r], a)
  {
    hide Enc, Ordered, WordAt, TableAt, Sorted;
    var seg := doc[a.segment];
    SortedEnc(text, seg, a.offset, a.end, a.kvs, table);
    SortedSameBut(seg, a.offset, a.end, table);
    SortedParts(seg, a.offset, a.end, table);
  }

  /** Lookups in any objects, in any order and any number: the document goes on to hold the same objects at the same
      places, to be readable from its root, and to decode to the same value. */
  lemma {:induction false} SortKeepsDocument(text: seq<Byte>, end: nat, t: Tree, docs: seq<Doc>,
                                                lookups: seq<StoredObject>, i: nat)
    requires Session(text, end, t, docs, lookups) && Sortable(text, docs[0], end, t) && i <= |lookups|
    ensures Sortable(text, docs[i], end, t)
    ensures DecodesTo(text, docs[i], Deref(t)) && Settled(text, docs[i], ROOT, Deref(t))
    ensures forall b: StoredObject :: Reached(text, docs[i], end, t, b) <==> Reached(text, docs[0], end, t, b)
  {
    hide Sortable, Reached, DecodesTo, Settled, Deref, Enc, RearrangedTo, Resorts;
    if i > 0 {
      SortKeepsDocument(text, end, t, docs, lookups, i - 1);
      ReadKeepsDocument(text, docs[i - 1], docs[i], end, t, lookups[i - 1]);
    }
    SortableDecodes(text, docs[i], end, t);
  }

  lemma ReadKeepsDocument(text: seq<Byte>, doc: Doc, doc': Doc, end: nat, t: Tree, a: StoredObject)
    requires Sortable(text, doc, end, t) && Reached(text, doc, end, t, a) && SortedRead(text, doc, doc', a)
    ensures Sortable(text, doc', end, t)
    ensures forall b: StoredObject :: Reached(text, doc', end, t, b) <==> Reached(text, doc, end, t, b)
  {
    hide Intact, Reached, Beside, Resorts, Enc, RearrangedTo;
    if doc' != doc {
      var table: seq<Word>, r: seq<Byte> :|
        && RearrangedTo(text, doc[a.segment], a.offset, a.end, a.kvs, table, r)
        && doc' == doc[a.segment := r];
      ReachedEnc(text, doc, end, t, a);
      ReachedMembers(text, doc, end, t, a);
      SortResorts(text, doc, r, a, table);
      SortableStays(text, doc, doc', end, t, a);
    }
  }

  lemma ReachedMembers(text: seq<Byte>, doc: Doc, end: nat, t: Tree, a: StoredObject)
    requires Reached(text, doc, end, t, a)
    ensures a.kvs != []
  {
  }

  lemma SortableDecodes(text: seq<Byte>, doc: Doc, end: nat, t: Tree)
    requires Sortable(text, doc, end, t)
    ensures DecodesTo(text, doc, Deref(t)) && Settled(text, doc, ROOT, Deref(t))
  {
    hide Enc, Linked, Reached, Beside, DecodesTo, Settled;
    RootDecodes(text, doc, end, t);
  }

  // ----- Documents of the sequential parse -----

  /** A single segment without handles is sortable. */
  lemma PlainSortable(text: seq<Byte>, seg: seq<Byte>, t: Tree)
    requires Enc(text, seg, 0, |seg|, t) && NoRefs(t)
    ensures Sortable(text, [seg], |seg|, t)
  {
    hide Enc, Linked, Reached, LeadsTo;
    NoRefsLinked(text, [seg], t);
    forall b: StoredObject | Reached(text, [seg], |seg|, t, b) ensures Beside(text, [seg], t, b) {
      SegmentsOf(text, [seg], [seg], |seg|, t, b);
      forall o: nat, v: Tree ensures !LeadsTo(t, b.segment, o, v) {
        NoRefsLeadNowhere(t, b.segment, o, v);
      }
    }
  }

  // ----- Documents of the parallel parse -----

  /** The object is part of what entry `j` of a worker's table stands for. */
  ghost predicate PartOf(env: Input, limit: nat, seg: seq<Byte>, entry: Entry, b: StoredObject)
    requires limit <= |env.text|
  {
    var v := TreeAt(env, limit, entry.start);
    exists end: nat :: Enc(env.text, seg, entry.offset, end, v) && InsideOf(seg, entry.offset, end, v, b)
  }

  /** Values of one table lie one behind the other, so an object inside one of them is beside all others. */
  lemma EntriesBeside(env: Input, limit: nat, chunks: seq<Chunk>, k: nat, s: bool, i: nat, j: nat,
                      b: StoredObject)
    requires ChunksOk(env, limit, chunks) && limit <= |env.text| && 1 <= k < |chunks|
    requires i < |TableOf(chunks[k], s)| && j < |TableOf(chunks[k], s)|
    requires PartOf(env, limit, ResultOf(chunks[k], s).segment, TableOf(chunks[k], s)[j], b)
    requires b.kvs != []
    ensures var entry := TableOf(chunks[k], s)[i];
            BesideTarget(env.text, ResultOf(chunks[k], s).segment, entry.offset, TreeAt(env, limit, entry.start), b)
  {
    hide Enc, Inside, ChunksOk, TreeAt;
    var seg, table := ResultOf(chunks[k], s).segment, TableOf(chunks[k], s);
    var v := TreeAt(env, limit, table[j].start);
    var end: nat :| Enc(env.text, seg, table[j].offset, end, v) && InsideOf(seg, table[j].offset, end, v, b);
    InsideEnc(env.text, seg, table[j].offset, end, v, b.offset, b.end, b.kvs);
    InsideBounds(env.text, seg, table[j].offset, end, v, b.offset, b.end, b.kvs);
    if i < j {
      OneBehind(env, limit, chunks, k, s, i, j);
    } else if j < i {
      OneBehind(env, limit, chunks, k, s, j, i);
      var end': nat :| Enc(env.text, seg, table[j].offset, end', v) && end' <= table[i].offset;
      EndUnique(env.text, seg, table[j].offset, end, end', v);
      EntryStored(env, limit, chunks, k, s, i);
    }
  }

  lemma OneBehind(env: Input, limit: nat, chunks: seq<Chunk>, k: nat, s: bool, i: nat, j: nat)
    requires ChunksOk(env, limit, chunks) && limit <= |env.text| && 1 <= k < |chunks|
    requires i < j < |TableOf(chunks[k], s)|
    ensures var seg, table := ResultOf(chunks[k], s).segment, TableOf(chunks[k], s);
            LiesBelow(env.text, seg, table[i].offset, TreeAt(env, limit, table[i].start), table[j].offset)
  {
    hide Enc, Regions, Value, NextToken, LiesBelow, Stored;
    RegionsValid(env, chunks[k].hi, limit, EntryPoint(env, chunks[k], s), i);
  }

  lemma EntryStored(env: Input, limit: nat, chunks: seq<Chunk>, k: nat, s: bool, i: nat)
    requires ChunksOk(env, limit, chunks) && limit <= |env.text| && 1 <= k < |chunks| && i < |TableOf(chunks[k], s)|
    ensures var entry := TableOf(chunks[k], s)[i];
            Stored(env.text, ResultOf(chunks[k], s).segment, entry.offset, TreeAt(env, limit, entry.start))
  {
    hide ChunksOk, Value, Stored;
    EntriesOk(env, limit, chunks, k, s, i);
    EntryBefore(env, limit, chunks[k], TableOf(chunks[k], s)[i]);
  }

  /** A handle of the finished document, and the table entry it stands for. */
  lemma {:induction false} TiedRef(env: Input, limit: nat, chunks: seq<Chunk>, scenarios: seq<bool>, t: Tree,
                                   segment: nat, offset: nat, target: Tree) returns (i: nat)
    requires limit <= |env.text| && |scenarios| == |chunks|
    requires Tied(env, limit, chunks, scenarios, |chunks|, t) && LeadsTo(t, segment, offset, target)
    ensures 0 < segment < |chunks| && i < |TableOf(chunks[segment], scenarios[segment])|
    ensures var entry := TableOf(chunks[segment], scenarios[segment])[i];
            entry.offset == offset && target == TreeAt(env, limit, entry.start)
    decreases t
  {
    hide TreeAt;
    match t
    case Ref(_, _, _) =>
      var table := TableOf(chunks[segment], scenarios[segment]);
      var entry :| entry in table && entry.offset == offset && target == TreeAt(env, limit, entry.start);
      i :| 0 <= i < |table| && table[i] == entry;
    case Arr(elems) =>
      var j :| 0 <= j < |elems| && LeadsTo(elems[j], segment, offset, target);
      i := TiedRef(env, limit, chunks, scenarios, elems[j], segment, offset, target);
    case Obj(kvs) =>
      var j :| 0 <= j < |kvs| && LeadsTo(kvs[j].value, segment, offset, target);
      i := TiedRef(env, limit, chunks, scenarios, kvs[j].value, segment, offset, target);
  }

  lemma TiedBeside(env: Input, limit: nat, chunks: seq<Chunk>, main: seq<Byte>, scenarios: seq<bool>, end: nat, t: Tree,
                   b: StoredObject)
    requires ChunksOk(env, limit, chunks) && limit <= |env.text| && |scenarios| == |chunks|
    requires Tied(env, limit, chunks, scenarios, |chunks|, t)
    requires Reached(env.text, DocumentOf(chunks, main, scenarios), end, t, b)
    ensures b.segment < |chunks| && Beside(env.text, DocumentOf(chunks, main, scenarios), t, b)
  {
    hide ChunksOk, TreeAt, Enc, InsideOf, LeadsTo, Tied, BesideTarget;
    var doc, k := DocumentOf(chunks, main, scenarios), b.segment;
    forall o: nat, v: Tree | LeadsTo(t, k, o, v) ensures BesideTarget(env.text, doc[k], o, v, b) {
      var i := TiedRef(env, limit, chunks, scenarios, t, k, o, v);
      var offset: nat, target: Tree, stop: nat :|
        LeadsTo(t, k, offset, target) && Within(env.text, doc[k], offset, stop, target, b);
      var j := TiedRef(env, limit, chunks, scenarios, t, k, offset, target);
      assert PartOf(env, limit, doc[k], TableOf(chunks[k], scenarios[k])[j], b);
      EntriesBeside(env, limit, chunks, k, scenarios[k], i, j, b);
    }
  }

  /** The document of any parallel parse is sortable: in the main segment and in every worker's. */
  lemma ParallelSortable(env: Input, limit: nat, chunks: seq<Chunk>, main: seq<Byte>)
    requires ChunksOk(env, limit, chunks) && limit <= |env.text| && chunks != []
    requires var m := MainAnswer(env, limit, chunks);
             m.Some? && m.value.root.Some? && Enc(env.text, main, 0, |main|, m.value.root.value)
    ensures var m := MainAnswer(env, limit, chunks).value;
            && |m.scenarios| == |chunks|
            && Sortable(env.text, DocumentOf(chunks, main, m.scenarios), |main|, m.root.value)
  {
    hide ChunksOk, MainRun, Enc, IterOk, Tied, Linked, Reached, Beside;
    InitOk(env, limit, chunks);
    MainTied(env, limit, chunks, IterInit(chunks), Pushdown.START, 0);
    var m := MainAnswer(env, limit, chunks).value;
    var doc, t := DocumentOf(chunks, main, m.scenarios), m.root.value;
    TiedLinked(env, limit, chunks, main, m.scenarios, t);
    forall b: StoredObject | Reached(env.text, doc, |main|, t, b) ensures Beside(env.text, doc, t, b) {
      SegmentsOf(env.text, doc, doc, |main|, t, b);
      TiedBeside(env, limit, chunks, main, m.scenarios, |main|, t, b);
    }
  }

  /** In the document of any parallel parse, any sorted lookups of any objects, whichever threads stored them, change
      nothing that can be read. */
  lemma SortKeepsParallelDocument(env: Input, limit: nat, chunks: seq<Chunk>, main: seq<Byte>, docs: seq<Doc>,
                                     lookups: seq<StoredObject>, i: nat)
    requires ChunksOk(env, limit, chunks) && limit <= |env.text| && chunks != []
    requires var m := MainAnswer(env, limit, chunks);
             m.Some? && m.value.root.Some? && Enc(env.text, main, 0, |main|, m.value.root.value)
    requires |MainAnswer(env, limit, chunks).value.scenarios| == |chunks|
    requires var m := MainAnswer(env, limit, chunks).value;
             && Session(env.text, |main|, m.root.value, docs, lookups)
             && docs[0] == DocumentOf(chunks, main, m.scenarios) && i <= |lookups|
    ensures var m := MainAnswer(env, limit, chunks).value;
            && Sortable(env.text, docs[i], |main|, m.root.value)
            && DecodesTo(env.text, docs[i], Deref(m.root.value))
            && Settled(env.text, docs[i], ROOT, Deref(m.root.value))
  {
    hide ChunksOk, MainRun, Enc, Sortable, Session, DecodesTo, Settled;
    ParallelSortable(env, limit, chunks, main);
    SortKeepsDocument(env.text, |main|, MainAnswer(env, limit, chunks).value.root.value, docs, lookups, i);
  }

  // ----- What a lookup returns -----

  /** `thsn_document_object_index` returns the place of the member's value without following a handle there. So the
      type of the result can be read exactly when there is no handle's tag at that place, which is when the value was
      stored by the same thread as the object. */
  lemma IndexedValue(text: seq<Byte>, doc: Doc, k: nat, off: nat, kvs: seq<Member>, i: nat, element: nat)
    requires k < |doc| && i < |kvs| && MemberValueAt(text, doc[k], off, kvs, i, element)
      && Linked(text, doc, kvs[i].value)
    ensures ValueAt(text, doc, Handle(k, element), Deref(kvs[i].value))
    ensures ValueType(doc, Handle(k, element)).Some? <==> !kvs[i].value.Ref?
    ensures element < |doc[k]| && (kvs[i].value.Ref? <==> TagType(doc[k][element]) == TAG_VALUE_HANDLE)
    ensures !kvs[i].value.Ref? ==> Settled(text, doc, Handle(k, element), Deref(kvs[i].value))
  {
    hide Enc, Linked, Deref, WordAt, TableAt, StringSize;
    var end := Next(FirstTable(doc[k], off, |kvs|), WordAt(doc[k], off + 9), i);
    assert Reads(text, doc, Handle(k, element), kvs[i].value, end, Deref(kvs[i].value));
    NotAHandle(text, doc[k], element, end, kvs[i].value);
    PlainTag(text, doc[k], element, end, kvs[i].value);
  }

  lemma PlainTag(text: seq<Byte>, seg: seq<Byte>, off: nat, end: nat, t: Tree)
    requires Enc(text, seg, off, end, t)
    ensures off < |seg| && TagType(seg[off]) <= TAG_VALUE_HANDLE
  {
    hide ElementsAt, MembersAt, WordAt, SignedFromLE, FromLE, TableAt;
  }

  lemma {:induction false} InsideNoRefs(seg: seq<Byte>, off: nat, end: nat, t: Tree, o: nat, e: nat, kvs: seq<Member>)
    requires NoRefs(t) && Inside(seg, off, end, t, o, e, kvs)
    ensures NoRefs(Obj(kvs))
    decreases t
  {
    hide Inside, WordAt, TableAt, StringSize;
    InsideKind(seg, off, end, t, o, e, kvs);
    if o == off && e == end && t == Obj(kvs) {
    } else if t.Arr? {
      var i := ElementAround(seg, off, end, t.elems, o, e, kvs);
      var offs, stop := FirstTable(seg, off, |t.elems|), WordAt(seg, off + 9);
      InsideNoRefs(seg, offs[i], Next(offs, stop, i), t.elems[i], o, e, kvs);
    } else {
      var i := MemberAround(seg, off, end, t.kvs, o, e, kvs);
      var offs, stop := FirstTable(seg, off, |t.kvs|), WordAt(seg, off + 9);
      InsideNoRefs(seg, offs[i] + StringSize(|t.kvs[i].key|), Next(offs, stop, i), t.kvs[i].value, o, e, kvs);
    }
  }

  /** In the document of a sequential parse, and in any document behind the main segment, what a lookup returns can
      always be read. */
  lemma PlainIndexed(text: seq<Byte>, doc: Doc, end: nat, t: Tree, b: StoredObject, i: nat, element: nat)
    requires Intact(text, doc, end, t) && Reached(text, doc, end, t, b) && (NoRefs(t) || b.segment != 0)
    requires i < |b.kvs| && MemberValueAt(text, doc[b.segment], b.offset, b.kvs, i, element)
    ensures ValueType(doc, Handle(b.segment, element)).Some?
    ensures Settled(text, doc, Handle(b.segment, element), b.kvs[i].value)
  {
    hide Enc, Inside, Linked, LeadsTo, ValueType, Settled, MemberValueAt;
    if b.segment == 0 {
      InsideNoRefs(doc[0], 0, end, t, b.offset, b.end, b.kvs);
    } else {
      var offset: nat, target: Tree, stop: nat :|
        LeadsTo(t, b.segment, offset, target) && Within(text, doc[b.segment], offset, stop, target, b);
      RefsLinked(text, doc, t, b.segment, offset, target);
      InsideNoRefs(doc[b.segment], offset, stop, target, b.offset, b.end, b.kvs);
    }
    NoRefsLinked(text, doc, b.kvs[i].value);
    DerefNoRefs(b.kvs[i].value);
    IndexedValue(text, doc, b.segment, b.offset, b.kvs, i, element);
  }
}
