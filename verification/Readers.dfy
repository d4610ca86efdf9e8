/** The reading functions that a client of a document calls, on documents that hold encoded values. */
module Readers {
  import opened Bytes
  import opened Trees
  import opened Encoding
  import opened Doubles
  import opened Documents

  datatype ValueKind = NullValue | BoolValue | NumberValue | StringValue | ArrayValue | ObjectValue

  /** `thsn_document_value_type`: a handle in place of a value is an error. */
  function ValueType(doc: Doc, h: Handle): Option<ValueKind> {
    var tag := ReadTag(doc, h);
    if tag.None? then None
    else
      var kind := TagType(tag.value);
      if kind == TAG_NULL then Some(NullValue)
      else if kind == TAG_BOOL then Some(BoolValue)
      else if kind == TAG_SMALL_STRING || kind == TAG_REF_STRING then Some(StringValue)
      else if kind == TAG_INT || kind == TAG_DOUBLE then Some(NumberValue)
      else if kind == TAG_ARRAY then Some(ArrayValue)
      else if kind == TAG_OBJECT then Some(ObjectValue)
      else None
  }

  function KindOf(v: Tree): ValueKind
    requires !v.Ref?
  {
    match v
    case Null => NullValue
    case Bool(_) => BoolValue
    case Int(_) => NumberValue
    case Double(_) => NumberValue
    case Str(_) => StringValue
    case Arr(_) => ArrayValue
    case Obj(_) => ObjectValue
  }

  // ----- What a place in a document stands for -----

  /** `ThsnValueCompositeTable`: what is left of the element offsets of a composite in a segment. */
  datatype Table = Table(segment: nat, offsets: seq<Word>)

  ghost predicate HoldsElements(text: seq<Byte>, doc: Doc, table: Table, elems: seq<Tree>) {
    && |table.offsets| == |elems|
    && forall i :: 0 <= i < |elems| ==> ValueAt(text, doc, Handle(table.segment, table.offsets[i]), elems[i])
  }

  /** At `h` there is a key, and behind it the member's value or a handle to it. */
  ghost predicate MemberAt(text: seq<Byte>, doc: Doc, h: Handle, kv: Member) {
    && h.segment < |doc|
    && ReadString(text, doc[h.segment], h.offset) == Some(kv.key)
    && ValueAt(text, doc, Handle(h.segment, h.offset + StoredSize(doc[h.segment], h.offset)), kv.value)
  }

  ghost predicate HoldsMembers(text: seq<Byte>, doc: Doc, table: Table, kvs: seq<Member>) {
    && |table.offsets| == |kvs|
    && forall i :: 0 <= i < |kvs| ==> MemberAt(text, doc, Handle(table.segment, table.offsets[i]), kvs[i])
  }

  lemma SettledMeans(text: seq<Byte>, doc: Doc, h: Handle, v: Tree) returns (raw: Tree, end: nat)
    requires Settled(text, doc, h, v)
    ensures Reads(text, doc, h, raw, end, v) && !raw.Ref? && !v.Ref? && Decode(text, doc, h, Bulk(raw)) == Some(v)
  {
    hide Enc, Decode, Linked;
    raw, end :| Reads(text, doc, h, raw, end, v) && !raw.Ref?;
    EncDecodes(text, doc, h, end, raw, Bulk(raw));
  }

  /** What is read holds no handles. */
  lemma SettledNoRefs(text: seq<Byte>, doc: Doc, h: Handle, v: Tree)
    requires Settled(text, doc, h, v)
    ensures NoRefs(v)
  {
    hide Enc, Linked;
    var raw, end :| Reads(text, doc, h, raw, end, v) && !raw.Ref?;
    LinkedDerefs(text, doc, raw);
  }

  lemma {:induction false} LinkedDerefs(text: seq<Byte>, doc: Doc, t: Tree)
    requires Linked(text, doc, t)
    ensures NoRefs(Deref(t))
  {
    hide Enc;
    match t
    case Arr(elems) =>
      forall i | 0 <= i < |elems| ensures NoRefs(DerefAll(elems)[i]) {
        LinkedDerefs(text, doc, elems[i]);
      }
    case Obj(kvs) =>
      forall i | 0 <= i < |kvs| ensures NoRefs(DerefMembers(kvs)[i].value) {
        LinkedDerefs(text, doc, kvs[i].value);
      }
    case _ =>
  }

  /** Following handles, in at most two reads, comes to the value itself. */
  lemma FollowSettles(text: seq<Byte>, doc: Doc, h: Handle, v: Tree)
    requires ValueAt(text, doc, h, v)
    ensures Follow(doc, h, 2).Some? && Settled(text, doc, Follow(doc, h, 2).value, v)
  {
    hide Enc, Follow;
    var raw, end :| Reads(text, doc, h, raw, end, v);
    FollowsTo(text, doc, h, end, raw, 2);
    if raw.Ref? {
      var target := Handle(raw.segment, raw.offset);
      var e :| Enc(text, doc[raw.segment], raw.offset, e, raw.target);
      NoRefsLinked(text, doc, raw.target);
      DerefNoRefs(raw.target);
      assert Reads(text, doc, target, raw.target, e, v) && !raw.target.Ref?;
    }
  }

  // ----- The readers -----

  /** Following the handle comes to an end within so many reads, at a value or at an error. */
  predicate FollowEnds(doc: Doc, h: Handle, hops: nat)
    decreases hops
  {
    var tag := ReadTag(doc, h);
    hops > 0 &&
    (tag.Some? && TagType(tag.value) == TAG_VALUE_HANDLE ==>
       var next := StoredHandle(doc[h.segment], h.offset);
       next.Some? ==> FollowEnds(doc, next.value, hops - 1))
  }

  lemma {:induction false} FollowedEnds(doc: Doc, h: Handle, hops: nat)
    requires Follow(doc, h, hops).Some?
    ensures FollowEnds(doc, h, hops)
    decreases hops
  {
    var tag := ReadTag(doc, h);
    if TagType(tag.value) == TAG_VALUE_HANDLE {
      FollowedEnds(doc, StoredHandle(doc[h.segment], h.offset).value, hops - 1);
    }
  }

  /** `thsn_document_follow_handle`. */
  method FollowHandle(doc: Doc, start: Handle, ghost hops: nat) returns (h: Option<Handle>)
    requires FollowEnds(doc, start, hops)
    ensures h == Follow(doc, start, hops)
  {
    var at := start;
    ghost var left: nat := hops;
    while true
      invariant left <= hops && FollowEnds(doc, at, left) && Follow(doc, start, hops) == Follow(doc, at, left)
      decreases left
    {
      var tag := ReadTag(doc, at);
      if tag.None? {
        return None;
      }
      if TagType(tag.value) != TAG_VALUE_HANDLE {
        return Some(at);
      }
      var next := StoredHandle(doc[at.segment], at.offset);
      if next.None? {
        return None;
      }
      at := next.value;
      left := left - 1;
    }
  }

  /** A value that is no composite is read as what it is, by the one reader for its type. */
  lemma AtomReads(text: seq<Byte>, doc: Doc, h: Handle, v: Tree)
    requires Settled(text, doc, h, v) && !v.Arr? && !v.Obj?
    ensures h.segment < |doc| && !v.Ref? && ValueType(doc, h) == Some(KindOf(v))
    ensures v.Bool? ==> ReadBool(doc[h.segment], h.offset) == Some(v.b)
    ensures v.Null? ==> ValueType(doc, h) == Some(NullValue)
    ensures v.Bool? ==> ValueType(doc, h) == Some(BoolValue)
    ensures v.Int? || v.Double? ==> ValueType(doc, h) == Some(NumberValue)
    ensures v.Str? ==> ValueType(doc, h) == Some(StringValue)
    ensures v.Int? ==> ReadNumber(doc[h.segment], h.offset) == Some(FromInteger(v.n))
    ensures v.Double? ==> ReadNumber(doc[h.segment], h.offset) == Some(v.bits)
    ensures v.Str? ==> ReadString(text, doc[h.segment], h.offset) == Some(v.s)
  {
    hide Enc, Linked, ReadTable, DecodeElements, DecodeMembers, ReadString, TagType, StoredNumber;
    var raw, end := SettledMeans(text, doc, h, v);
  }

  lemma ArrayOpens(text: seq<Byte>, doc: Doc, h: Handle, elems: seq<Tree>)
    requires Settled(text, doc, h, Arr(elems))
    ensures h.segment < |doc| && ValueType(doc, h) == Some(ArrayValue)
    ensures var table := ReadTable(doc[h.segment], h.offset, TAG_ARRAY);
            table.Some? && HoldsElements(text, doc, Table(h.segment, table.value), elems)
  {
    hide Decode, WordAt, TableAt, FirstTable, ReadTable, Enc, Linked, HoldsElements, Settled;
    var raw, end := SettledMeans(text, doc, h, Arr(elems));
    var seg := doc[h.segment];
    TableReads(text, seg, h.offset, end, raw);
    LinkedElements(text, doc, raw);
    if elems != [] {
      ArrayElements(text, seg, h.offset, end, raw.elems);
      ElementsHeld(text, doc, h.segment, FirstTable(seg, h.offset, |elems|), WordAt(seg, h.offset + 9), raw.elems);
    } else {
      ElementsHeld(text, doc, h.segment, [], 0, []);
      assert DerefAll([]) == [];
    }
  }

  lemma LinkedElements(text: seq<Byte>, doc: Doc, t: Tree)
    requires Linked(text, doc, t)
    ensures t.Arr? ==> forall i :: 0 <= i < |t.elems| ==> Linked(text, doc, t.elems[i])
    ensures t.Obj? ==> forall i :: 0 <= i < |t.kvs| ==> Linked(text, doc, t.kvs[i].value)
  {
  }

  lemma ElementsHeld(text: seq<Byte>, doc: Doc, segment: nat, offs: seq<Word>, stop: nat, elems: seq<Tree>)
    requires elems != [] ==> segment < |doc| && ElementsAt(text, doc[segment], offs, stop, elems)
    requires |offs| == |elems| && forall i :: 0 <= i < |elems| ==> Linked(text, doc, elems[i])
    ensures HoldsElements(text, doc, Table(segment, offs), DerefAll(elems))
  {
    hide Enc, Linked;
    forall i | 0 <= i < |elems| ensures ValueAt(text, doc, Handle(segment, offs[i]), Deref(elems[i])) {
      assert Reads(text, doc, Handle(segment, offs[i]), elems[i], Next(offs, stop, i), Deref(elems[i]));
    }
  }

  lemma ArrayElements(text: seq<Byte>, seg: seq<Byte>, off: nat, end: nat, elems: seq<Tree>)
    requires elems != [] && Enc(text, seg, off, end, Arr(elems))
    requires off + 17 <= |seg| && WordAt(seg, off + 9) + 8 * |elems| <= |seg|
    ensures ElementsAt(text, seg, FirstTable(seg, off, |elems|), WordAt(seg, off + 9), elems)
  {
    hide WordAt, TableAt;
  }

  lemma ObjectMembers(text: seq<Byte>, seg: seq<Byte>, off: nat, end: nat, kvs: seq<Member>)
    requires kvs != [] && Enc(text, seg, off, end, Obj(kvs))
    requires off + 17 <= |seg| && WordAt(seg, off + 9) + 8 * |kvs| <= |seg|
    ensures MembersAt(text, seg, FirstTable(seg, off, |kvs|), WordAt(seg, off + 9), kvs)
  {
    hide WordAt, TableAt, Ordered;
  }

  lemma ObjectOpens(text: seq<Byte>, doc: Doc, h: Handle, kvs: seq<Member>)
    requires Settled(text, doc, h, Obj(kvs))
    ensures h.segment < |doc| && ValueType(doc, h) == Some(ObjectValue)
    ensures var table := ReadTable(doc[h.segment], h.offset, TAG_OBJECT);
            table.Some? && HoldsMembers(text, doc, Table(h.segment, table.value), kvs)
  {
    hide Decode, WordAt, TableAt, FirstTable, ReadTable, Enc, Linked, HoldsMembers, Settled;
    var raw, end := SettledMeans(text, doc, h, Obj(kvs));
    var seg := doc[h.segment];
    TableReads(text, seg, h.offset, end, raw);
    LinkedElements(text, doc, raw);
    if kvs != [] {
      ObjectMembers(text, seg, h.offset, end, raw.kvs);
      MembersHeld(text, doc, h.segment, FirstTable(seg, h.offset, |kvs|), WordAt(seg, h.offset + 9), raw.kvs);
    } else {
      MembersHeld(text, doc, h.segment, [], 0, []);
      assert DerefMembers([]) == [];
    }
  }

  lemma MembersHeld(text: seq<Byte>, doc: Doc, segment: nat, offs: seq<Word>, stop: nat, kvs: seq<Member>)
    requires kvs != [] ==> segment < |doc| && MembersAt(text, doc[segment], offs, stop, kvs)
    requires |offs| == |kvs| && forall i :: 0 <= i < |kvs| ==> Linked(text, doc, kvs[i].value)
    ensures HoldsMembers(text, doc, Table(segment, offs), DerefMembers(kvs))
  {
    hide MemberAt, MembersAt, Linked;
    forall i | 0 <= i < |kvs| ensures MemberAt(text, doc, Handle(segment, offs[i]), DerefMembers(kvs)[i]) {
      MemberOpens(text, doc, segment, offs, stop, kvs, i);
    }
  }

  lemma MemberOpens(text: seq<Byte>, doc: Doc, segment: nat, offs: seq<Word>, stop: nat, kvs: seq<Member>, i: nat)
    requires segment < |doc| && MembersAt(text, doc[segment], offs, stop, kvs) && i < |kvs| == |offs|
    requires Linked(text, doc, kvs[i].value)
    ensures MemberAt(text, doc, Handle(segment, offs[i]), Member(kvs[i].key, Deref(kvs[i].value)))
  {
    hide Enc, StringAt, StringSize, StoredSize, ReadString, MembersAt, Linked;
    var seg, mid := doc[segment], offs[i] + StringSize(|kvs[i].key|);
    MemberSpan(text, seg, offs, stop, kvs, i);
    MemberKey(text, seg, offs, stop, kvs, i);
    StringTag(text, seg, offs[i], mid, kvs[i].key);
    assert Reads(text, doc, Handle(segment, mid), kvs[i].value, Next(offs, stop, i), Deref(kvs[i].value));
  }

  /** `thsn_document_array_consume_element`: the first element, handles followed, and the table behind it. */
  method ConsumeElement(text: seq<Byte>, doc: Doc, table: Table, ghost elems: seq<Tree>)
    returns (rest: Table, element: Option<Handle>)
    requires HoldsElements(text, doc, table, elems)
    ensures element.Some? <==> elems != []
    ensures elems != [] ==> HoldsElements(text, doc, rest, elems[1..]) && Settled(text, doc, element.value, elems[0])
    ensures elems != [] ==> rest.segment == table.segment
  {
    hide ValueAt, Settled, Follow, FollowEnds;
    if table.offsets == [] {
      return table, None;
    }
    var h := Handle(table.segment, table.offsets[0]);
    rest := table.(offsets := table.offsets[1..]);
    FollowSettles(text, doc, h, elems[0]);
    FollowedEnds(doc, h, 2);
    element := FollowHandle(doc, h, 2);
  }

  const INDEX_PERIOD: int := 0x2000_0000_0000_0000

  /** `thsn_document_index_array_element`. The byte offset of the entry is computed as a `size_t`, so numbers that are
      equal modulo 2^61 name the same element. */
  method IndexElement(text: seq<Byte>, doc: Doc, table: Table, elementNo: Word, ghost elems: seq<Tree>)
    returns (element: Option<Handle>)
    requires HoldsElements(text, doc, table, elems) && |elems| < INDEX_PERIOD
    ensures element.Some? <==> elementNo % INDEX_PERIOD < |elems|
    ensures element.Some? ==> Settled(text, doc, element.value, elems[elementNo % INDEX_PERIOD])
  {
    hide ValueAt, Settled, Follow, FollowEnds;
    var at := elementNo * 8 % WORD_LIMIT;
    assert at == 8 * (elementNo % INDEX_PERIOD);
    if at + 8 > 8 * |table.offsets| {
      return None;
    }
    var h := Handle(table.segment, table.offsets[at / 8]);
    FollowSettles(text, doc, h, elems[at / 8]);
    FollowedEnds(doc, h, 2);
    element := FollowHandle(doc, h, 2);
  }

  /** A key is no handle: following it stays where it is. */
  lemma KeyStays(text: seq<Byte>, doc: Doc, h: Handle, kv: Member)
    requires MemberAt(text, doc, h, kv)
    ensures Follow(doc, h, 1) == Some(h)
  {
    hide ValueAt;
  }

  /** `thsn_document_object_read_kv`. */
  method ReadKv(text: seq<Byte>, doc: Doc, kv: Handle, ghost m: Member) returns (key: seq<Byte>, value: Option<Handle>)
    requires MemberAt(text, doc, kv, m)
    ensures key == m.key && value.Some? && Settled(text, doc, value.value, m.value)
  {
    hide ValueAt, Settled, Follow, FollowEnds, ReadString, StoredSize;
    key := ReadString(text, doc[kv.segment], kv.offset).value;
    var h := Handle(kv.segment, kv.offset + StoredSize(doc[kv.segment], kv.offset));
    FollowSettles(text, doc, h, m.value);
    FollowedEnds(doc, h, 2);
    value := FollowHandle(doc, h, 2);
  }

  /** `thsn_document_object_consume_element`: the first member's key and value, and the table behind it. */
  method ConsumeMember(text: seq<Byte>, doc: Doc, table: Table, ghost kvs: seq<Member>)
    returns (rest: Table, key: seq<Byte>, value: Option<Handle>)
    requires HoldsMembers(text, doc, table, kvs)
    ensures value.Some? <==> kvs != []
    ensures kvs != [] ==> HoldsMembers(text, doc, rest, kvs[1..]) && rest.segment == table.segment
    ensures kvs != [] ==> key == kvs[0].key && Settled(text, doc, value.value, kvs[0].value)
  {
    hide MemberAt, Settled, Follow, FollowEnds;
    if table.offsets == [] {
      return table, [], None;
    }
    var h := Handle(table.segment, table.offsets[0]);
    rest := table.(offsets := table.offsets[1..]);
    KeyStays(text, doc, h, kvs[0]);
    FollowedEnds(doc, h, 1);
    var kv := FollowHandle(doc, h, 1);
    key, value := ReadKv(text, doc, kv.value, kvs[0]);
  }

  /** `thsn_document_object_index_element`: the members of an object by number. */
  method IndexMember(text: seq<Byte>, doc: Doc, table: Table, elementNo: Word, ghost kvs: seq<Member>)
    returns (key: seq<Byte>, value: Option<Handle>)
    requires HoldsMembers(text, doc, table, kvs) && |kvs| < INDEX_PERIOD
    ensures value.Some? <==> elementNo % INDEX_PERIOD < |kvs|
    ensures value.Some? ==>
      var m := kvs[elementNo % INDEX_PERIOD]; key == m.key && Settled(text, doc, value.value, m.value)
  {
    hide MemberAt, Settled, Follow, FollowEnds;
    var at := elementNo * 8 % WORD_LIMIT;
    assert at == 8 * (elementNo % INDEX_PERIOD);
    if at + 8 > 8 * |table.offsets| {
      return [], None;
    }
    var h := Handle(table.segment, table.offsets[at / 8]);
    KeyStays(text, doc, h, kvs[at / 8]);
    FollowedEnds(doc, h, 1);
    var kv := FollowHandle(doc, h, 1);
    key, value := ReadKv(text, doc, kv.value, kvs[at / 8]);
  }
}
