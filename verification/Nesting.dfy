/** Objects inside stored values, and what sorting one object's index does to the others. */
module Nesting {
  import opened Bytes
  import opened Trees
  import opened Encoding
  import opened Documents
  import opened SortedIndex

  // ----- Objects inside a value -----

  /** The element of an array that the object is inside of. */
  lemma ElementAround(seg: seq<Byte>, off: nat, end: nat, elems: seq<Tree>, o: nat, e: nat, kvs: seq<Member>)
    returns (i: nat)
    requires Inside(seg, off, end, Arr(elems), o, e, kvs)
    ensures i < |elems| && off + 17 <= |seg| && WordAt(seg, off + 9) + 8 * |elems| <= |seg|
    ensures var offs, stop := FirstTable(seg, off, |elems|), WordAt(seg, off + 9);
            Inside(seg, offs[i], Next(offs, stop, i), elems[i], o, e, kvs)
  {
    hide WordAt, TableAt;
    var offs, stop := FirstTable(seg, off, |elems|), WordAt(seg, off + 9);
    assert InsideElements(seg, offs, stop, elems, o, e, kvs);
    i :| 0 <= i < |elems| && Inside(seg, offs[i], Next(offs, stop, i), elems[i], o, e, kvs);
  }

  lemma InsideElement(seg: seq<Byte>, off: nat, end: nat, elems: seq<Tree>, i: nat, o: nat, e: nat, kvs: seq<Member>)
    requires i < |elems| && off + 17 <= |seg| && WordAt(seg, off + 9) + 8 * |elems| <= |seg|
    requires var offs, stop := FirstTable(seg, off, |elems|), WordAt(seg, off + 9);
             Inside(seg, offs[i], Next(offs, stop, i), elems[i], o, e, kvs)
    ensures Inside(seg, off, end, Arr(elems), o, e, kvs)
  {
    hide WordAt, TableAt;
    assert InsideElements(seg, FirstTable(seg, off, |elems|), WordAt(seg, off + 9), elems, o, e, kvs);
  }

  /** The member of an object that another object is inside of. */
  lemma MemberAround(seg: seq<Byte>, off: nat, end: nat, ms: seq<Member>, o: nat, e: nat, kvs: seq<Member>)
    returns (i: nat)
    requires Inside(seg, off, end, Obj(ms), o, e, kvs) && !(o == off && e == end && ms == kvs)
    ensures i < |ms| && off + 17 <= |seg| && WordAt(seg, off + 9) + 8 * |ms| <= |seg|
    ensures var offs, stop := FirstTable(seg, off, |ms|), WordAt(seg, off + 9);
            Inside(seg, offs[i] + StringSize(|ms[i].key|), Next(offs, stop, i), ms[i].value, o, e, kvs)
  {
    hide WordAt, TableAt, StringSize, Next;
    var offs, stop := FirstTable(seg, off, |ms|), WordAt(seg, off + 9);
    assert InsideMembers(seg, offs, stop, ms, o, e, kvs);
    i :| 0 <= i < |ms| &&
      Inside(seg, offs[i] + StringSize(|ms[i].key|), Next(offs, stop, i), ms[i].value, o, e, kvs);
  }

  lemma InsideMember(seg: seq<Byte>, off: nat, end: nat, ms: seq<Member>, i: nat, o: nat, e: nat, kvs: seq<Member>)
    requires i < |ms| && off + 17 <= |seg| && WordAt(seg, off + 9) + 8 * |ms| <= |seg|
    requires var offs, stop := FirstTable(seg, off, |ms|), WordAt(seg, off + 9);
             Inside(seg, offs[i] + StringSize(|ms[i].key|), Next(offs, stop, i), ms[i].value, o, e, kvs)
    ensures Inside(seg, off, end, Obj(ms), o, e, kvs)
  {
    hide WordAt, TableAt, StringSize;
    assert InsideMembers(seg, FirstTable(seg, off, |ms|), WordAt(seg, off + 9), ms, o, e, kvs);
  }

  lemma InsideItself(seg: seq<Byte>, off: nat, end: nat, kvs: seq<Member>)
    ensures Inside(seg, off, end, Obj(kvs), off, end, kvs)
  {
  }

  /** Only arrays and objects have anything inside. */
  lemma InsideKind(seg: seq<Byte>, off: nat, end: nat, t: Tree, o: nat, e: nat, kvs: seq<Member>)
    requires Inside(seg, off, end, t, o, e, kvs)
    ensures t.Arr? || t.Obj?
  {
  }

  /** Element `i` of an encoded array, within the array's bytes. */
  lemma ElementSpan(text: seq<Byte>, seg: seq<Byte>, off: nat, end: nat, elems: seq<Tree>, i: nat)
    requires Enc(text, seg, off, end, Arr(elems)) && i < |elems|
    ensures off + ARRAY_HEADER <= |seg| && WordAt(seg, off + 9) + 8 * |elems| <= end <= |seg|
    ensures var offs, stop := FirstTable(seg, off, |elems|), WordAt(seg, off + 9);
            && Rising(offs, stop) && off + ARRAY_HEADER <= offs[i] && Next(offs, stop, i) <= stop
            && Enc(text, seg, offs[i], Next(offs, stop, i), elems[i])
  {
    hide Enc, WordAt, TableAt;
    ArrayParts(text, seg, off, end, elems);
    ArrayRising(text, seg, off, end, elems);
    var offs, stop := FirstTable(seg, off, |elems|), WordAt(seg, off + 9);
    RisingFrom(offs, stop, i);
    RisingTo(offs, stop, i);
  }

  /** The value of member `i` of an encoded object, within the object's bytes. */
  lemma ValueSpan(text: seq<Byte>, seg: seq<Byte>, off: nat, end: nat, kvs: seq<Member>, i: nat)
    requires Enc(text, seg, off, end, Obj(kvs)) && i < |kvs|
    ensures off + OBJECT_HEADER <= |seg| && WordAt(seg, off + 9) + 16 * |kvs| == end <= |seg|
    ensures var offs, stop := FirstTable(seg, off, |kvs|), WordAt(seg, off + 9);
            && Rising(offs, stop) && off + OBJECT_HEADER <= offs[i] && Next(offs, stop, i) <= stop
            && Enc(text, seg, offs[i] + StringSize(|kvs[i].key|), Next(offs, stop, i), kvs[i].value)
  {
    hide Enc, WordAt, TableAt, StringSize, StringAt;
    MemberParts(text, seg, off, end, kvs);
    ObjectRising(text, seg, off, end, kvs);
    var offs, stop := FirstTable(seg, off, |kvs|), WordAt(seg, off + 9);
    MemberSpan(text, seg, offs, stop, kvs, i);
    RisingFrom(offs, stop, i);
    RisingTo(offs, stop, i);
  }

  /** An object inside an encoded value is encoded itself. */
  lemma {:induction false} InsideEnc(text: seq<Byte>, seg: seq<Byte>, off: nat, end: nat, t: Tree, o: nat, e: nat,
                                     kvs: seq<Member>)
    requires Enc(text, seg, off, end, t) && Inside(seg, off, end, t, o, e, kvs)
    ensures Enc(text, seg, o, e, Obj(kvs))
    decreases t
  {
    hide Enc, Inside, StringSize, WordAt, TableAt;
    InsideKind(seg, off, end, t, o, e, kvs);
    if o == off && e == end && t == Obj(kvs) {
    } else if t.Arr? {
      var i := ElementAround(seg, off, end, t.elems, o, e, kvs);
      var offs, stop := FirstTable(seg, off, |t.elems|), WordAt(seg, off + 9);
      ElementSpan(text, seg, off, end, t.elems, i);
      InsideEnc(text, seg, offs[i], Next(offs, stop, i), t.elems[i], o, e, kvs);
    } else {
      var i := MemberAround(seg, off, end, t.kvs, o, e, kvs);
      var offs, stop := FirstTable(seg, off, |t.kvs|), WordAt(seg, off + 9);
      ValueSpan(text, seg, off, end, t.kvs, i);
      InsideEnc(text, seg, offs[i] + StringSize(|t.kvs[i].key|), Next(offs, stop, i), t.kvs[i].value, o, e, kvs);
    }
  }

  /** The first table of a composite, and where its elements stop, in a segment that agrees on header and table. */
  lemma SameTable(seg: seq<Byte>, r: seq<Byte>, off: nat, end: nat, n: nat)
    requires off + 17 <= |seg| && WordAt(seg, off + 9) + 8 * n <= |seg| == |r|
    requires Agree(seg, r, off + 9, off + 17) && Agree(seg, r, WordAt(seg, off + 9), WordAt(seg, off + 9) + 8 * n)
    ensures WordAt(r, off + 9) == WordAt(seg, off + 9) && FirstTable(r, off, n) == FirstTable(seg, off, n)
  {
    hide WordAt, TableAt;
    AgreeWord(seg, r, off + 9, off + 17, off + 9);
    AgreeTable(seg, r, WordAt(seg, off + 9), WordAt(seg, off + 9) + 8 * n, WordAt(seg, off + 9), n);
  }

  /** What is inside a value depends on the value's bytes only. */
  lemma {:induction false} InsideLocal(text: seq<Byte>, seg: seq<Byte>, r: seq<Byte>, off: nat, end: nat, t: Tree,
                                       o: nat, e: nat, kvs: seq<Member>)
    requires Enc(text, seg, off, end, t) && Agree(seg, r, off, end) && |r| == |seg|
    requires Inside(seg, off, end, t, o, e, kvs)
    ensures Inside(r, off, end, t, o, e, kvs)
    decreases t
  {
    hide Enc, Inside, StringSize, WordAt, TableAt, FirstTable;
    InsideKind(seg, off, end, t, o, e, kvs);
    if o == off && e == end && t == Obj(kvs) {
      InsideItself(r, off, end, kvs);
    } else if t.Arr? {
      var i := ElementAround(seg, off, end, t.elems, o, e, kvs);
      ElementKept(text, seg, r, off, end, t.elems, i);
      var offs, stop := FirstTable(seg, off, |t.elems|), WordAt(seg, off + 9);
      InsideLocal(text, seg, r, offs[i], Next(offs, stop, i), t.elems[i], o, e, kvs);
      InsideElement(r, off, end, t.elems, i, o, e, kvs);
    } else {
      var i := MemberAround(seg, off, end, t.kvs, o, e, kvs);
      ValueKept(text, seg, r, off, end, t.kvs, i);
      var offs, stop := FirstTable(seg, off, |t.kvs|), WordAt(seg, off + 9);
      InsideLocal(text, seg, r, offs[i] + StringSize(|t.kvs[i].key|), Next(offs, stop, i), t.kvs[i].value, o, e, kvs);
      InsideMember(r, off, end, t.kvs, i, o, e, kvs);
    }
  }

  lemma ElementKept(text: seq<Byte>, seg: seq<Byte>, r: seq<Byte>, off: nat, end: nat, elems: seq<Tree>, i: nat)
    requires Enc(text, seg, off, end, Arr(elems)) && i < |elems| && Agree(seg, r, off, end) && |r| == |seg|
    ensures off + 17 <= |seg| && WordAt(seg, off + 9) + 8 * |elems| <= |seg|
    ensures WordAt(r, off + 9) == WordAt(seg, off + 9) && FirstTable(r, off, |elems|) == FirstTable(seg, off, |elems|)
    ensures var offs, stop := FirstTable(seg, off, |elems|), WordAt(seg, off + 9);
            && Enc(text, seg, offs[i], Next(offs, stop, i), elems[i])
            && Agree(seg, r, offs[i], Next(offs, stop, i))
  {
    hide Enc, WordAt, TableAt;
    ElementSpan(text, seg, off, end, elems, i);
    SameTable(seg, r, off, end, |elems|);
  }

  lemma ValueKept(text: seq<Byte>, seg: seq<Byte>, r: seq<Byte>, off: nat, end: nat, kvs: seq<Member>, i: nat)
    requires Enc(text, seg, off, end, Obj(kvs)) && i < |kvs| && Agree(seg, r, off + 1, end - 8 * |kvs|) && |r| == |seg|
    ensures off + 17 <= |seg| && WordAt(seg, off + 9) + 8 * |kvs| <= |seg|
    ensures WordAt(r, off + 9) == WordAt(seg, off + 9) && FirstTable(r, off, |kvs|) == FirstTable(seg, off, |kvs|)
    ensures var offs, stop := FirstTable(seg, off, |kvs|), WordAt(seg, off + 9);
            var mid := offs[i] + StringSize(|kvs[i].key|);
            && Enc(text, seg, mid, Next(offs, stop, i), kvs[i].value)
            && Agree(seg, r, mid, Next(offs, stop, i))
  {
    hide Enc, WordAt, TableAt, StringSize;
    ValueSpan(text, seg, off, end, kvs, i);
    SameTable(seg, r, off, end, |kvs|);
  }

  lemma InsideBounds(text: seq<Byte>, seg: seq<Byte>, off: nat, end: nat, t: Tree, o: nat, e: nat, kvs: seq<Member>)
    requires Enc(text, seg, off, end, t) && Inside(seg, off, end, t, o, e, kvs) && kvs != []
      && Enc(text, seg, o, e, Obj(kvs))
    ensures off <= o && e <= end
  {
    hide Enc, Inside;
    RearrangedKeeps(text, seg, seg, off, end, t, o, e, kvs);
  }

  /** The segment once the index of the object has been sorted: changed at most in the tag and the second table. */
  predicate Resorted(seg: seq<Byte>, r: seq<Byte>, o: nat, e: nat, n: nat) {
    && SameBut(seg, r, o, e) && 8 * n <= e && Agree(seg, r, o + 1, e - 8 * n)
  }

  /** Objects stay inside what they are inside of when another object's index is sorted, or their own. */
  lemma {:induction false} InsideKept(text: seq<Byte>, seg: seq<Byte>, r: seq<Byte>, off: nat, end: nat, t: Tree,
                                      o: nat, e: nat, kvs: seq<Member>, o': nat, e': nat, kvs': seq<Member>)
    requires Enc(text, seg, off, end, t)
    requires Inside(seg, off, end, t, o, e, kvs) && Inside(seg, off, end, t, o', e', kvs')
    requires kvs != [] && Enc(text, seg, o, e, Obj(kvs)) && Resorted(seg, r, o, e, |kvs|)
    ensures Inside(r, off, end, t, o', e', kvs')
    decreases t, 1
  {
    hide Enc, Inside, StringSize, WordAt, TableAt, FirstTable, Agree, SameBut;
    InsideKind(seg, off, end, t, o, e, kvs);
    if o' == off && e' == end && t == Obj(kvs') {
      InsideItself(r, off, end, kvs');
    } else if t.Arr? {
      InsideArrayKept(text, seg, r, off, end, t.elems, o, e, kvs, o', e', kvs');
    } else if o == off && e == end && t == Obj(kvs) {
      var i := MemberAround(seg, off, end, kvs, o', e', kvs');
      SameLength(seg, r, o, e);
      ValueKept(text, seg, r, off, end, kvs, i);
      var offs, stop := FirstTable(seg, off, |kvs|), WordAt(seg, off + 9);
      InsideLocal(text, seg, r, offs[i] + StringSize(|kvs[i].key|), Next(offs, stop, i), kvs[i].value, o', e', kvs');
      InsideMember(r, off, end, kvs, i, o', e', kvs');
    } else {
      InsideObjectKept(text, seg, r, off, end, t.kvs, o, e, kvs, o', e', kvs');
    }
  }

  lemma {:induction false} InsideArrayKept(text: seq<Byte>, seg: seq<Byte>, r: seq<Byte>, off: nat, end: nat,
                                           elems: seq<Tree>, o: nat, e: nat, kvs: seq<Member>,
                                           o': nat, e': nat, kvs': seq<Member>)
    requires Enc(text, seg, off, end, Arr(elems)) && Inside(seg, off, end, Arr(elems), o, e, kvs)
    requires Inside(seg, off, end, Arr(elems), o', e', kvs')
    requires kvs != [] && Enc(text, seg, o, e, Obj(kvs)) && Resorted(seg, r, o, e, |kvs|)
    ensures Inside(r, off, end, Arr(elems), o', e', kvs')
    decreases elems, 0
  {
    hide Enc, Inside, WordAt, TableAt, FirstTable, Agree, SameBut, Rising;
    var i := ElementAround(seg, off, end, elems, o, e, kvs);
    var j := ElementAround(seg, off, end, elems, o', e', kvs');
    var offs, stop := FirstTable(seg, off, |elems|), WordAt(seg, off + 9);
    ElementSpan(text, seg, off, end, elems, i);
    ElementSpan(text, seg, off, end, elems, j);
    InsideBounds(text, seg, offs[i], Next(offs, stop, i), elems[i], o, e, kvs);
    SameLength(seg, r, o, e);
    OutsideSpan(seg, r, o, e, off + 9, off + 17);
    OutsideSpan(seg, r, o, e, stop, stop + 8 * |elems|);
    SameTable(seg, r, off, end, |elems|);
    if i == j {
      InsideKept(text, seg, r, offs[i], Next(offs, stop, i), elems[i], o, e, kvs, o', e', kvs');
    } else {
      OtherSpan(seg, r, offs, stop, o, e, i, j);
      InsideLocal(text, seg, r, offs[j], Next(offs, stop, j), elems[j], o', e', kvs');
    }
    InsideElement(r, off, end, elems, j, o', e', kvs');
  }

  lemma {:induction false} InsideObjectKept(text: seq<Byte>, seg: seq<Byte>, r: seq<Byte>, off: nat, end: nat,
                                            ms: seq<Member>, o: nat, e: nat, kvs: seq<Member>,
                                            o': nat, e': nat, kvs': seq<Member>)
    requires Enc(text, seg, off, end, Obj(ms)) && Inside(seg, off, end, Obj(ms), o, e, kvs)
    requires Inside(seg, off, end, Obj(ms), o', e', kvs')
    requires !(o == off && e == end && ms == kvs) && !(o' == off && e' == end && ms == kvs')
    requires kvs != [] && Enc(text, seg, o, e, Obj(kvs)) && Resorted(seg, r, o, e, |kvs|)
    ensures Inside(r, off, end, Obj(ms), o', e', kvs')
    decreases ms, 0
  {
    hide Enc, Inside, StringSize, WordAt, TableAt, FirstTable, Agree, SameBut, Rising;
    var i := MemberAround(seg, off, end, ms, o, e, kvs);
    var j := MemberAround(seg, off, end, ms, o', e', kvs');
    var offs, stop := FirstTable(seg, off, |ms|), WordAt(seg, off + 9);
    ValueSpan(text, seg, off, end, ms, i);
    ValueSpan(text, seg, off, end, ms, j);
    var at, at' := offs[i] + StringSize(|ms[i].key|), offs[j] + StringSize(|ms[j].key|);
    InsideBounds(text, seg, at, Next(offs, stop, i), ms[i].value, o, e, kvs);
    SameLength(seg, r, o, e);
    OutsideSpan(seg, r, o, e, off + 9, off + 17);
    OutsideSpan(seg, r, o, e, stop, stop + 8 * |ms|);
    SameTable(seg, r, off, end, |ms|);
    if i == j {
      InsideKept(text, seg, r, at, Next(offs, stop, i), ms[i].value, o, e, kvs, o', e', kvs');
    } else {
      OtherSpan(seg, r, offs, stop, o, e, i, j);
      AgreePart(seg, r, offs[j], at', Next(offs, stop, j));
      InsideLocal(text, seg, r, at', Next(offs, stop, j), ms[j].value, o', e', kvs');
    }
    InsideMember(r, off, end, ms, j, o', e', kvs');
  }

  lemma SameLength(seg: seq<Byte>, r: seq<Byte>, o: nat, e: nat)
    requires SameBut(seg, r, o, e)
    ensures |r| == |seg|
  {
  }

  lemma AgreePart(s: seq<Byte>, r: seq<Byte>, lo: nat, mid: nat, hi: nat)
    requires Agree(s, r, lo, hi) && lo <= mid
    ensures Agree(s, r, mid, hi)
  {
  }

  /** A value that the object is inside of, or beside, is encoded as before. */
  lemma BesideKept(text: seq<Byte>, seg: seq<Byte>, r: seq<Byte>, off: nat, end: nat, t: Tree, o: nat, e: nat,
                   kvs: seq<Member>)
    requires Enc(text, seg, off, end, t) && (end <= o || e <= off || Inside(seg, off, end, t, o, e, kvs))
    requires kvs != [] && SameBut(seg, r, o, e) && Enc(text, r, o, e, Obj(kvs))
    ensures Enc(text, r, off, end, t)
  {
    hide Enc, Inside;
    EncBounds(text, seg, off, end, t);
    if Inside(seg, off, end, t, o, e, kvs) {
      RearrangedKeeps(text, seg, r, off, end, t, o, e, kvs);
    } else {
      EncLocal(text, seg, r, off, end, t);
    }
  }

  /** A value's end is determined by where it begins. */
  lemma EndUnique(text: seq<Byte>, seg: seq<Byte>, off: nat, end: nat, end': nat, t: Tree)
    requires Enc(text, seg, off, end, t) && Enc(text, seg, off, end', t)
    ensures end == end'
  {
    hide ElementsAt, MembersAt, WordAt, TableAt, Ordered, SignedFromLE, FromLE;
  }
}
