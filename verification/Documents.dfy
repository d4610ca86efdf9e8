/** Reading a document: tags, numbers, strings, element tables and value handles, as the public functions do it, and
    the recursive meaning of a document put together from them. */
module Documents {
  import opened Bytes
  import opened Trees
  import opened Encoding
  import opened Doubles

  /** `ThsnValueHandle`. */
  datatype Handle = Handle(segment: nat, offset: nat)

  type Doc = seq<seq<Byte>>

  const ROOT: Handle := Handle(0, 0)

  function ReadTag(doc: Doc, h: Handle): Option<Byte> {
    if h.segment < |doc| && h.offset < |doc[h.segment]| then Some(doc[h.segment][h.offset]) else None
  }

  function ReadBool(seg: seq<Byte>, off: nat): Option<bool> {
    if off >= |seg| || TagType(seg[off]) != TAG_BOOL then None
    else if TagSize(seg[off]) == 0 then Some(false)
    else if TagSize(seg[off]) == 1 then Some(true)
    else None
  }

  /** The number as it is stored. */
  function StoredNumber(seg: seq<Byte>, off: nat): (n: Option<Tree>)
    ensures n.Some? ==> n.value.Int? || n.value.Double?
  {
    if off >= |seg| then None
    else
      var size := TagSize(seg[off]);
      if TagType(seg[off]) == TAG_INT then
        if size == 0 then Some(Tree.Int(0))
        else if (size == 1 || size == 2 || size == 4 || size == 8) && off + 1 + size <= |seg|
        then Some(Tree.Int(SignedFromLE(seg[off + 1..off + 1 + size])))
        else None
      else if TagType(seg[off]) == TAG_DOUBLE && size == 0 && off + 9 <= |seg| then Some(Double(WordAt(seg, off + 1)))
      else None
  }

  /** A number as readers see it. */
  function AsDouble(t: Tree): Word
    requires t.Int? || t.Double?
  {
    if t.Int? then FromInteger(t.n) else t.bits
  }

  /** `thsn_segment_read_number`: integers of all widths are converted. */
  function ReadNumber(seg: seq<Byte>, off: nat): Option<Word> {
    var n := StoredNumber(seg, off);
    if n.None? then None else Some(AsDouble(n.value))
  }

  /** `thsn_segment_read_composite` for the insertion-order table. */
  function ReadTable(seg: seq<Byte>, off: nat, kind: nat): Option<seq<Word>> {
    if off >= |seg| || TagType(seg[off]) != kind then None
    else if TagSize(seg[off]) == SIZE_ZERO then Some([])
    else if TagSize(seg[off]) == SIZE_INBOUND || TagSize(seg[off]) == SIZE_INBOUND_SORTED then
      if off + 17 > |seg| then None
      else
        var n, table := WordAt(seg, off + 1), WordAt(seg, off + 9);
        if table + 8 * n > |seg| then None else Some(TableAt(seg, table, n))
    else None
  }

  /** The handle stored behind a tag. */
  function StoredHandle(seg: seq<Byte>, off: nat): Option<Handle> {
    if off + 9 > |seg| then None else Some(Handle(seg[off + 1], FromLE(seg[off + 2..off + 9])))
  }

  /** `thsn_document_follow_handle`, with at most `hops` reads. */
  function Follow(doc: Doc, h: Handle, hops: nat): Option<Handle>
    decreases hops
  {
    var tag := ReadTag(doc, h);
    if hops == 0 || tag.None? then None
    else if TagType(tag.value) == TAG_VALUE_HANDLE then
      var next := StoredHandle(doc[h.segment], h.offset);
      if next.None? then None else Follow(doc, next.value, hops - 1)
    else Some(h)
  }

  // ----- The meaning of a document -----

  /** The value at `h`, read to a depth of `fuel`. A handle in place of a value is an error, as for the reader. */
  function Decode(text: seq<Byte>, doc: Doc, h: Handle, fuel: nat): Option<Tree>
    decreases fuel, 0
  {
    var tag := ReadTag(doc, h);
    if fuel == 0 || tag.None? then None
    else
      var seg, kind := doc[h.segment], TagType(tag.value);
      if kind == TAG_NULL then Some(Null)
      else if kind == TAG_BOOL then
        var b := ReadBool(seg, h.offset);
        if b.None? then None else Some(Bool(b.value))
      else if kind == TAG_SMALL_STRING || kind == TAG_REF_STRING then
        var s := ReadString(text, seg, h.offset);
        if s.None? then None else Some(Str(s.value))
      else if kind == TAG_INT || kind == TAG_DOUBLE then StoredNumber(seg, h.offset)
      else if kind == TAG_ARRAY then
        var table := ReadTable(seg, h.offset, TAG_ARRAY);
        if table.None? then None
        else
          var elems := DecodeElements(text, doc, h.segment, table.value, fuel - 1);
          if elems.None? then None else Some(Arr(elems.value))
      else if kind == TAG_OBJECT then
        var table := ReadTable(seg, h.offset, TAG_OBJECT);
        if table.None? then None
        else
          var kvs := DecodeMembers(text, doc, h.segment, table.value, fuel - 1);
          if kvs.None? then None else Some(Obj(kvs.value))
      else None
  }

  function DecodeElement(text: seq<Byte>, doc: Doc, h: Handle, fuel: nat): Option<Tree>
    decreases fuel, 1
  {
    var target := Follow(doc, h, fuel);
    if target.None? then None else Decode(text, doc, target.value, fuel)
  }

  function DecodeElements(text: seq<Byte>, doc: Doc, segment: nat, table: seq<Word>, fuel: nat): Option<seq<Tree>>
    decreases fuel, 2, |table|
  {
    if table == [] then Some([])
    else
      var first := DecodeElement(text, doc, Handle(segment, table[0]), fuel);
      var rest := DecodeElements(text, doc, segment, table[1..], fuel);
      if first.None? || rest.None? then None else Some([first.value] + rest.value)
  }

  function DecodeMembers(text: seq<Byte>, doc: Doc, segment: nat, table: seq<Word>, fuel: nat): Option<seq<Member>>
    decreases fuel, 2, |table|
  {
    if table == [] then Some([])
    else if segment >= |doc| then None
    else
      var key := ReadString(text, doc[segment], table[0]);
      if key.None? then None
      else
        var first := DecodeElement(text, doc, Handle(segment, table[0] + StoredSize(doc[segment], table[0])), fuel);
        var rest := DecodeMembers(text, doc, segment, table[1..], fuel);
        if first.None? || rest.None? then None else Some([Member(key.value, first.value)] + rest.value)
  }

  /** How many bytes the string at `off` takes up. */
  function StoredSize(seg: seq<Byte>, off: nat): nat {
    if off < |seg| && TagType(seg[off]) == TAG_SMALL_STRING then 1 + TagSize(seg[off]) else 17
  }

  /** The document as a whole: read deep enough, its root is always the same value. */
  ghost predicate DecodesTo(text: seq<Byte>, doc: Doc, v: Tree) {
    exists n: nat :: DecodesFrom(text, doc, ROOT, n, v)
  }

  ghost predicate DecodesFrom(text: seq<Byte>, doc: Doc, h: Handle, n: nat, v: Tree) {
    forall fuel: nat :: fuel >= n ==> Decode(text, doc, h, fuel) == Some(v)
  }

  /** A document has one meaning. */
  lemma DecodesToOne(text: seq<Byte>, doc: Doc, v: Tree, w: Tree)
    requires DecodesTo(text, doc, v) && DecodesTo(text, doc, w)
    ensures v == w
  {
    hide Decode;
    var n: nat :| DecodesFrom(text, doc, ROOT, n, v);
    var m: nat :| DecodesFrom(text, doc, ROOT, m, w);
    assert Decode(text, doc, ROOT, n + m) == Some(v);
    assert Decode(text, doc, ROOT, n + m) == Some(w);
  }

  // ----- Encoded trees decode to what they encode -----

  /** Every handle in the tree leads to a value that holds none: one hop, and no more. */
  ghost predicate Linked(text: seq<Byte>, doc: Doc, t: Tree) {
    match t
    case Ref(segment, offset, target) =>
      && segment < |doc| && NoRefs(target)
      && exists end :: Enc(text, doc[segment], offset, end, target)
    case Arr(elems) => forall i :: 0 <= i < |elems| ==> Linked(text, doc, elems[i])
    case Obj(kvs) => forall i :: 0 <= i < |kvs| ==> Linked(text, doc, kvs[i].value)
    case _ => true
  }

  lemma {:induction false} NoRefsLinked(text: seq<Byte>, doc: Doc, t: Tree)
    requires NoRefs(t)
    ensures Linked(text, doc, t)
  {
    match t
    case Arr(elems) =>
      forall i | 0 <= i < |elems| ensures Linked(text, doc, elems[i]) {
        NoRefsLinked(text, doc, elems[i]);
      }
    case Obj(kvs) =>
      forall i | 0 <= i < |kvs| ensures Linked(text, doc, kvs[i].value) {
        NoRefsLinked(text, doc, kvs[i].value);
      }
    case _ =>
  }

  /** How deep a reader must go: the number of nodes is always enough. */
  ghost function Bulk(t: Tree): (n: nat)
    ensures n >= 1
    decreases t, 0
  {
    match t
    case Arr(elems) => 1 + BulkOf(elems)
    case Obj(kvs) => 1 + BulkOfMembers(kvs)
    case Ref(_, _, target) => 1 + Bulk(target)
    case _ => 1
  }

  ghost function BulkOf(ts: seq<Tree>): (n: nat)
    ensures forall i :: 0 <= i < |ts| ==> Bulk(ts[i]) <= n
    decreases ts, 1
  {
    if ts == [] then 0 else Bulk(ts[0]) + BulkOf(ts[1..])
  }

  ghost function BulkOfMembers(kvs: seq<Member>): (n: nat)
    ensures forall i :: 0 <= i < |kvs| ==> Bulk(kvs[i].value) <= n
    decreases kvs, 1
  {
    if kvs == [] then 0 else Bulk(kvs[0].value) + BulkOfMembers(kvs[1..])
  }

  /** An encoded value is read back with its handles followed. */
  lemma {:induction false} EncDecodes(text: seq<Byte>, doc: Doc, h: Handle, end: nat, t: Tree, fuel: nat)
    requires h.segment < |doc| && Enc(text, doc[h.segment], h.offset, end, t)
    requires Linked(text, doc, t) && !t.Ref? && fuel >= Bulk(t)
    ensures Decode(text, doc, h, fuel) == Some(Deref(t))
    decreases t, 1
  {
    match t
    case Arr(elems) => ArrayDecodes(text, doc, h, end, elems, fuel);
    case Obj(kvs) => ObjectDecodes(text, doc, h, end, kvs, fuel);
    case _ => AtomDecodes(text, doc, h, end, t, fuel);
  }

  lemma AtomDecodes(text: seq<Byte>, doc: Doc, h: Handle, end: nat, t: Tree, fuel: nat)
    requires h.segment < |doc| && Enc(text, doc[h.segment], h.offset, end, t) && fuel >= 1
    requires !t.Ref? && !t.Arr? && !t.Obj?
    ensures Decode(text, doc, h, fuel) == Some(t)
  {
    hide DecodeElements, DecodeMembers, ReadTable, SignedFromLE, WordAt, StringAt, ReadString;
    if t.Str? {
      StringAtReads(text, doc[h.segment], h.offset, end, t.s);
      StringTag(text, doc[h.segment], h.offset, end, t.s);
    }
  }

  lemma StringTag(text: seq<Byte>, seg: seq<Byte>, off: nat, end: nat, s: seq<Byte>)
    requires StringAt(text, seg, off, end, s)
    ensures off < |seg| && (TagType(seg[off]) == TAG_SMALL_STRING || TagType(seg[off]) == TAG_REF_STRING)
    ensures off + StoredSize(seg, off) == end
  {
    hide WordAt;
  }

  /** An element of a composite, handle or not, is read as the value it stands for. */
  lemma {:induction false} ElementDecodes(text: seq<Byte>, doc: Doc, h: Handle, end: nat, t: Tree, fuel: nat)
    requires h.segment < |doc| && Enc(text, doc[h.segment], h.offset, end, t)
    requires Linked(text, doc, t) && fuel >= Bulk(t)
    ensures DecodeElement(text, doc, h, fuel) == Some(Deref(t))
    decreases t, 2
  {
    hide Decode;
    FollowsTo(text, doc, h, end, t, fuel);
    if t.Ref? {
      var e :| Enc(text, doc[t.segment], t.offset, e, t.target);
      NoRefsLinked(text, doc, t.target);
      DerefNoRefs(t.target);
      EncDecodes(text, doc, Handle(t.segment, t.offset), e, t.target, fuel);
    } else {
      EncDecodes(text, doc, h, end, t, fuel);
    }
  }

  /** Handles are followed in at most one hop. */
  lemma FollowsTo(text: seq<Byte>, doc: Doc, h: Handle, end: nat, t: Tree, hops: nat)
    requires h.segment < |doc| && Enc(text, doc[h.segment], h.offset, end, t)
    requires Linked(text, doc, t) && hops >= (if t.Ref? then 2 else 1)
    ensures Follow(doc, h, hops) == Some(if t.Ref? then Handle(t.segment, t.offset) else h)
  {
    NotAHandle(text, doc[h.segment], h.offset, end, t);
    if t.Ref? {
      var e :| Enc(text, doc[t.segment], t.offset, e, t.target);
      NotAHandle(text, doc[t.segment], t.offset, e, t.target);
      HandleReads(text, doc[h.segment], h.offset, end, t);
      hide Enc, StoredHandle;
    }
  }

  lemma NotAHandle(text: seq<Byte>, seg: seq<Byte>, off: nat, end: nat, t: Tree)
    requires Enc(text, seg, off, end, t)
    ensures off < |seg| && (t.Ref? <==> TagType(seg[off]) == TAG_VALUE_HANDLE)
  {
    hide ElementsAt, MembersAt, WordAt, SignedFromLE, FromLE;
  }

  lemma HandleReads(text: seq<Byte>, seg: seq<Byte>, off: nat, end: nat, t: Tree)
    requires t.Ref? && Enc(text, seg, off, end, t)
    ensures StoredHandle(seg, off) == Some(Handle(t.segment, t.offset))
  {
  }

  /** The table of a stored composite is read as its first table. */
  lemma TableReads(text: seq<Byte>, seg: seq<Byte>, off: nat, end: nat, t: Tree)
    requires Enc(text, seg, off, end, t) && (t.Arr? || t.Obj?)
    ensures off < |seg| && TagType(seg[off]) == if t.Arr? then TAG_ARRAY else TAG_OBJECT
    ensures var n := if t.Arr? then |t.elems| else |t.kvs|;
            if n == 0 then ReadTable(seg, off, if t.Arr? then TAG_ARRAY else TAG_OBJECT) == Some([])
            else
              && off + 17 <= |seg| && WordAt(seg, off + 9) + 8 * n <= |seg|
              && ReadTable(seg, off, if t.Arr? then TAG_ARRAY else TAG_OBJECT) == Some(FirstTable(seg, off, n))
  {
    hide ElementsAt, MembersAt, WordAt, TableAt, Ordered;
  }

  lemma {:induction false} ArrayDecodes(text: seq<Byte>, doc: Doc, h: Handle, end: nat, elems: seq<Tree>, fuel: nat)
    requires h.segment < |doc| && Enc(text, doc[h.segment], h.offset, end, Arr(elems))
    requires Linked(text, doc, Arr(elems)) && fuel >= 1 + BulkOf(elems)
    ensures Decode(text, doc, h, fuel) == Some(Arr(DerefAll(elems)))
    decreases elems, 3
  {
    hide DecodeElements, DecodeMembers, WordAt, TableAt, ReadTable, ElementsAt, ArrayShape;
    var seg := doc[h.segment];
    TableReads(text, seg, h.offset, end, Arr(elems));
    if elems == [] {
      EmptyDecodes(text, doc, h.segment, fuel - 1);
    } else {
      ElementsDecode(text, doc, h.segment, FirstTable(seg, h.offset, |elems|), WordAt(seg, h.offset + 9), elems, 0,
        fuel - 1);
    }
  }

  lemma EmptyDecodes(text: seq<Byte>, doc: Doc, segment: nat, fuel: nat)
    ensures DecodeElements(text, doc, segment, [], fuel) == Some([])
    ensures DecodeMembers(text, doc, segment, [], fuel) == Some([])
  {
  }

  lemma {:induction false} ElementsDecode(text: seq<Byte>, doc: Doc, segment: nat, offs: seq<Word>, stop: nat,
                                          elems: seq<Tree>, i: nat, fuel: nat)
    requires segment < |doc| && ElementsAt(text, doc[segment], offs, stop, elems) && |offs| == |elems|
    requires i <= |elems| && fuel >= BulkOf(elems)
    requires forall j :: 0 <= j < |elems| ==> Linked(text, doc, elems[j])
    ensures DecodeElements(text, doc, segment, offs[i..], fuel) == Some(DerefAll(elems)[i..])
    decreases elems, 2, |elems| - i
  {
    hide DecodeElement, Enc, Linked, Deref;
    if i < |elems| {
      ElementDecodes(text, doc, Handle(segment, offs[i]), Next(offs, stop, i), elems[i], fuel);
      ElementsDecode(text, doc, segment, offs, stop, elems, i + 1, fuel);
      assert offs[i..][1..] == offs[i + 1..];
      assert DerefAll(elems)[i..] == [Deref(elems[i])] + DerefAll(elems)[i + 1..];
    } else {
      assert offs[i..] == [] && DerefAll(elems)[i..] == [];
    }
  }

  lemma {:induction false} ObjectDecodes(text: seq<Byte>, doc: Doc, h: Handle, end: nat, kvs: seq<Member>, fuel: nat)
    requires h.segment < |doc| && Enc(text, doc[h.segment], h.offset, end, Obj(kvs))
    requires Linked(text, doc, Obj(kvs)) && fuel >= 1 + BulkOfMembers(kvs)
    ensures Decode(text, doc, h, fuel) == Some(Obj(DerefMembers(kvs)))
    decreases kvs, 3
  {
    hide DecodeElements, DecodeMembers, WordAt, TableAt, ReadTable, ObjectShape, MembersAt;
    var seg := doc[h.segment];
    TableReads(text, seg, h.offset, end, Obj(kvs));
    if kvs == [] {
      EmptyDecodes(text, doc, h.segment, fuel - 1);
    } else {
      MembersDecode(text, doc, h.segment, FirstTable(seg, h.offset, |kvs|), WordAt(seg, h.offset + 9), kvs, 0,
        fuel - 1);
    }
  }

  lemma MemberSpan(text: seq<Byte>, seg: seq<Byte>, offs: seq<Word>, stop: nat, kvs: seq<Member>, i: nat)
    requires MembersAt(text, seg, offs, stop, kvs) && i < |kvs|
    ensures StringAt(text, seg, offs[i], offs[i] + StringSize(|kvs[i].key|), kvs[i].key)
    ensures Enc(text, seg, offs[i] + StringSize(|kvs[i].key|), Next(offs, stop, i), kvs[i].value)
  {
    hide StringAt, Enc;
  }

  lemma {:induction false} MembersDecode(text: seq<Byte>, doc: Doc, segment: nat, offs: seq<Word>, stop: nat,
                                         kvs: seq<Member>, i: nat, fuel: nat)
    requires segment < |doc| && MembersAt(text, doc[segment], offs, stop, kvs) && |offs| == |kvs|
    requires i <= |kvs| && fuel >= BulkOfMembers(kvs)
    requires forall j :: 0 <= j < |kvs| ==> Linked(text, doc, kvs[j].value)
    ensures DecodeMembers(text, doc, segment, offs[i..], fuel) == Some(DerefMembers(kvs)[i..])
    decreases kvs, 2, |kvs| - i
  {
    hide DecodeElement, Enc, Linked, Deref, StringAt, ReadString, StoredSize, MembersAt, StringSize;
    if i < |kvs| {
      var seg, mid := doc[segment], offs[i] + StringSize(|kvs[i].key|);
      MemberSpan(text, seg, offs, stop, kvs, i);
      MemberKey(text, seg, offs, stop, kvs, i);
      StringTag(text, seg, offs[i], mid, kvs[i].key);
      ElementDecodes(text, doc, Handle(segment, mid), Next(offs, stop, i), kvs[i].value, fuel);
      MembersDecode(text, doc, segment, offs, stop, kvs, i + 1, fuel);
      assert offs[i..][1..] == offs[i + 1..];
      assert DerefMembers(kvs)[i..] == [Member(kvs[i].key, Deref(kvs[i].value))] + DerefMembers(kvs)[i + 1..];
    } else {
      assert offs[i..] == [] && DerefMembers(kvs)[i..] == [];
    }
  }

  // ----- What a place in a document stands for -----

  /** The bytes at `h` encode a tree, possibly with handles, that reads as `v`. */
  ghost predicate Reads(text: seq<Byte>, doc: Doc, h: Handle, raw: Tree, end: nat, v: Tree) {
    && h.segment < |doc| && Enc(text, doc[h.segment], h.offset, end, raw)
    && Linked(text, doc, raw) && Deref(raw) == v
  }

  /** At `h` there is the value `v`, or a handle to it. */
  ghost predicate ValueAt(text: seq<Byte>, doc: Doc, h: Handle, v: Tree) {
    exists raw, end :: Reads(text, doc, h, raw, end, v)
  }

  /** At `h` there is the value `v` itself. */
  ghost predicate Settled(text: seq<Byte>, doc: Doc, h: Handle, v: Tree) {
    exists raw, end :: Reads(text, doc, h, raw, end, v) && !raw.Ref?
  }

  /** The root of a document, once encoded with all its handles linked. */
  lemma RootDecodes(text: seq<Byte>, doc: Doc, end: nat, t: Tree)
    requires doc != [] && Enc(text, doc[0], 0, end, t) && Linked(text, doc, t) && !t.Ref?
    ensures DecodesTo(text, doc, Deref(t)) && Settled(text, doc, ROOT, Deref(t))
  {
    hide Decode, Enc, Linked;
    assert Reads(text, doc, ROOT, t, end, Deref(t)) && !t.Ref?;
    forall fuel: nat | fuel >= Bulk(t) ensures Decode(text, doc, ROOT, fuel) == Some(Deref(t)) {
      EncDecodes(text, doc, ROOT, end, t, fuel);
    }
    assert DecodesFrom(text, doc, ROOT, Bulk(t), Deref(t));
  }
}
