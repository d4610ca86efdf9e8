/** The lazily sorted key index of objects: sorting it in place, and looking keys up in it. */
module SortedIndex {
  import opened Bytes
  import opened Trees
  import opened Encoding
  import opened Documents
  import opened Sequential

  // ----- The order of keys -----

  lemma {:induction false} CompareReverse(a: seq<Byte>, b: seq<Byte>)
    ensures Compare(b, a) == -Compare(a, b)
  {
    if a != [] && b != [] {
      CompareReverse(a[1..], b[1..]);
    }
  }

  lemma {:induction false} CompareEqual(a: seq<Byte>, b: seq<Byte>)
    ensures Compare(a, b) == 0 <==> a == b
  {
    if a != [] && b != [] {
      CompareEqual(a[1..], b[1..]);
      assert a == [a[0]] + a[1..] && b == [b[0]] + b[1..];
    }
  }

  lemma {:induction false} CompareTransitive(a: seq<Byte>, b: seq<Byte>, c: seq<Byte>)
    requires Compare(a, b) <= 0 && Compare(b, c) <= 0
    ensures Compare(a, c) <= 0
    ensures Compare(a, b) < 0 || Compare(b, c) < 0 ==> Compare(a, c) < 0
  {
    if a != [] && b != [] && c != [] && a[0] == b[0] == c[0] {
      CompareTransitive(a[1..], b[1..], c[1..]);
    }
  }

  // ----- Sorting -----

  predicate Readable(text: seq<Byte>, seg: seq<Byte>, table: seq<Word>) {
    forall i :: 0 <= i < |table| ==> ReadString(text, seg, table[i]).Some?
  }

  /** `qsort` with `thsn_compare_kv_keys`, as sorting by insertion. */
  function SortKeys(text: seq<Byte>, seg: seq<Byte>, table: seq<Word>): (r: seq<Word>)
    ensures multiset(r) == multiset(table)
  {
    if table == [] then []
    else
      assert table == [table[0]] + table[1..];
      InsertKey(text, seg, table[0], SortKeys(text, seg, table[1..]))
  }

  function InsertKey(text: seq<Byte>, seg: seq<Byte>, x: Word, table: seq<Word>): (r: seq<Word>)
    ensures multiset(r) == multiset(table) + multiset{x}
  {
    if table == [] || CompareKeys(text, seg, x, table[0]) <= 0 then [x] + table
    else
      assert table == [table[0]] + table[1..];
      [table[0]] + InsertKey(text, seg, x, table[1..])
  }

  lemma {:induction false} SortKeysOrdered(text: seq<Byte>, seg: seq<Byte>, table: seq<Word>)
    requires Readable(text, seg, table)
    ensures Ordered(text, seg, SortKeys(text, seg, table)) && Readable(text, seg, SortKeys(text, seg, table))
  {
    hide ReadString, CompareKeys;
    if table != [] {
      SortKeysOrdered(text, seg, table[1..]);
      InsertKeyOrdered(text, seg, table[0], SortKeys(text, seg, table[1..]));
    }
  }

  lemma KeysTransitive(text: seq<Byte>, seg: seq<Byte>, a: nat, b: nat, c: nat)
    requires ReadString(text, seg, a).Some? && ReadString(text, seg, b).Some? && ReadString(text, seg, c).Some?
    requires CompareKeys(text, seg, a, b) <= 0 && CompareKeys(text, seg, b, c) <= 0
    ensures CompareKeys(text, seg, a, c) <= 0
  {
    hide ReadString;
    CompareTransitive(ReadString(text, seg, a).value, ReadString(text, seg, b).value, ReadString(text, seg, c).value);
  }

  lemma KeysReverse(text: seq<Byte>, seg: seq<Byte>, a: nat, b: nat)
    ensures CompareKeys(text, seg, b, a) == -CompareKeys(text, seg, a, b)
  {
    hide ReadString;
    var ka, kb := ReadString(text, seg, a), ReadString(text, seg, b);
    if ka.Some? && kb.Some? {
      CompareReverse(ka.value, kb.value);
    }
  }

  lemma {:induction false} InsertKeyOrdered(text: seq<Byte>, seg: seq<Byte>, x: Word, table: seq<Word>)
    requires Readable(text, seg, table) && ReadString(text, seg, x).Some? && Ordered(text, seg, table)
    ensures Ordered(text, seg, InsertKey(text, seg, x, table)) && Readable(text, seg, InsertKey(text, seg, x, table))
  {
    hide ReadString, CompareKeys;
    var r := InsertKey(text, seg, x, table);
    if table == [] {
    } else if CompareKeys(text, seg, x, table[0]) <= 0 {
      forall i | 0 <= i < |table| ensures CompareKeys(text, seg, x, table[i]) <= 0 {
        if i > 0 {
          KeysTransitive(text, seg, x, table[0], table[i]);
        }
      }
    } else {
      var rest := InsertKey(text, seg, x, table[1..]);
      InsertKeyOrdered(text, seg, x, table[1..]);
      KeysReverse(text, seg, table[0], x);
      forall i | 0 <= i < |rest| ensures CompareKeys(text, seg, table[0], rest[i]) <= 0 {
        InsertedFrom(text, seg, x, table[1..], i);
        if rest[i] != x {
          var j :| 0 <= j < |table[1..]| && table[1..][j] == rest[i];
          assert table[j + 1] == rest[i];
        }
      }
    }
  }

  lemma InsertedFrom(text: seq<Byte>, seg: seq<Byte>, x: Word, table: seq<Word>, i: nat)
    requires i < |InsertKey(text, seg, x, table)|
    ensures var y := InsertKey(text, seg, x, table)[i]; y == x || y in table
  {
    var r := InsertKey(text, seg, x, table);
    assert r[i] in multiset(r);
  }

  // ----- Reading an object with its sorted table -----

  /** The segment after the second table has been put in order and the tag says so. */
  function Sorted(seg: seq<Byte>, off: nat, end: nat, table: seq<Word>): (r: seq<Byte>)
    requires off < end - 8 * |table| <= end <= |seg| && end - 8 * |table| >= 0
    ensures |r| == |seg|
  {
    seg[..off] + [TagMake(TAG_OBJECT,
      SIZE_INBOUND_SORTED)] + seg[off + 1..end - 8 * |table|] + Words(table) + seg[end..]
  }

  lemma SortedParts(seg: seq<Byte>, off: nat, end: nat, table: seq<Word>)
    requires 0 <= off < end - 8 * |table| <= end <= |seg|
    ensures var r := Sorted(seg, off, end, table);
            && Agree(seg, r, 0, off) && Agree(seg, r, off + 1, end - 8 * |table|)
            && (forall i :: end <= i < |seg| ==> seg[i] == r[i])
            && r[off] == TagMake(TAG_OBJECT, SIZE_INBOUND_SORTED)
            && TableAt(r, end - 8 * |table|, |table|) == table
  {
    hide Words, TableAt;
    var r, n := Sorted(seg, off, end, table), |table|;
    assert r[end - 8 * n..end - 8 * n + 8 * n] == Words(table);
    TableAtWritten(r, end - 8 * n, table);
  }

  /** Sorting keeps the object: same members, same insertion order, and now an ordered second table. */
  lemma SortedEnc(text: seq<Byte>, seg: seq<Byte>, off: nat, end: nat, kvs: seq<Member>, table: seq<Word>)
    requires kvs != [] && Enc(text, seg, off, end, Obj(kvs)) && |table| == |kvs|
    requires multiset(table) == multiset(FirstTable(seg, off, |kvs|)) && Ordered(text, seg, table)
    ensures off + OBJECT_HEADER + 16 * |kvs| <= end <= |seg|
    ensures var r := Sorted(seg, off, end, table);
            && Enc(text, r, off, end, Obj(kvs))
            && WordAt(r, off + 9) == WordAt(seg, off + 9) && FirstTable(r, off, |kvs|) == FirstTable(seg, off, |kvs|)
  {
    hide WordAt, TableAt, Ordered, MembersAt, Sorted, ReadString;
    var n := |kvs|;
    ObjectShapeTable(text, seg, off, end, n);
    var r, first, stop := Sorted(seg, off, end, table), FirstTable(seg, off, n), WordAt(seg, off + 9);
    SortedParts(seg, off, end, table);
    AgreeWord(seg, r, off + 1, end - 8 * n, off + 1);
    AgreeWord(seg, r, off + 1, end - 8 * n, off + 9);
    AgreeWord(seg, r, off + 1, end - 8 * n, off + 17);
    AgreeTable(seg, r, off + 1, end - 8 * n, stop, n);
    ObjectRising(text, seg, off, end, kvs);
    MembersLocal(text, seg, r, first, stop, kvs);
    forall j | 0 <= j < n ensures ReadString(text, r, table[j]) == ReadString(text, seg, table[j]) {
      var i := EntryInFirst(table, first, j);
      MemberKey(text, seg, first, stop, kvs, i);
      MemberKey(text, r, first, stop, kvs, i);
    }
    OrderSame(text, seg, r, table);
  }

  lemma EntryInFirst(table: seq<Word>, first: seq<Word>, j: nat) returns (i: nat)
    requires multiset(table) == multiset(first) && j < |table|
    ensures i < |first| && first[i] == table[j]
  {
    assert table[j] in multiset(table);
    assert table[j] in first;
    i :| 0 <= i < |first| && first[i] == table[j];
  }

  lemma KeysReadable(text: seq<Byte>, seg: seq<Byte>, off: nat, end: nat, kvs: seq<Member>)
    requires kvs != [] && Enc(text, seg, off, end, Obj(kvs))
    ensures off + OBJECT_HEADER + 16 * |kvs| <= end <= |seg|
    ensures Readable(text, seg, TableAt(seg, end - 8 * |kvs|, |kvs|))
  {
    hide WordAt, TableAt, Ordered, MembersAt, ReadString;
    ObjectShapeTable(text, seg, off, end, |kvs|);
    var second := TableAt(seg, end - 8 * |kvs|, |kvs|);
    forall j | 0 <= j < |kvs| ensures ReadString(text, seg, second[j]).Some? {
      var i := SecondTableEntry(text, seg, off, end, kvs, j);
    }
  }

  /** Overwrite part of a segment in place. */
  method Overwrite(seg: MutSlice, at: nat, data: seq<Byte>)
    requires seg.Valid() && at + |data| <= seg.size
    modifies seg.data
    ensures seg.Bytes() == old(seg.Bytes())[..at] + data + old(seg.Bytes())[at + |data|..]
  {
    var i := 0;
    while i < |data|
      invariant 0 <= i <= |data|
      invariant forall k :: 0 <= k < i ==> seg.data[at + k] == data[k]
      invariant forall k :: 0 <= k < at || at + i <= k < seg.data.Length ==> seg.data[k] == old(seg.data[k])
    {
      seg.data[at + i] := data[i];
      i := i + 1;
    }
  }

  /** `thsn_segment_sort_elements_table` and `thsn_segment_update_tag`, in place. */
  method SortTable(text: seq<Byte>, seg: MutSlice, off: nat, table: nat, count: nat, ghost end: nat,
                   ghost kvs: seq<Member>)
    returns (ghost sorted: seq<Word>)
    requires seg.Valid() && kvs != [] && Enc(text, seg.Bytes(), off, end, Obj(kvs))
    requires count == |kvs| && table == end - 8 * count
    modifies seg.data
    ensures off + OBJECT_HEADER + 16 * count <= end <= seg.size && |sorted| == count
    ensures seg.Bytes() == Sorted(old(seg.Bytes()), off, end, sorted)
    ensures multiset(sorted) == multiset(old(FirstTable(seg.Bytes(), off, count)))
      && Ordered(text, old(seg.Bytes()), sorted)
  {
    hide WordAt, TableAt, Ordered, Enc, Words, Sorted, SortKeys;
    ghost var was := seg.Bytes();
    ObjectTables(text, was, off, end, kvs);
    KeysReadable(text, was, off, end, kvs);
    var t := TableAt(seg.data[..seg.size], table, count);
    var s := SortKeys(text, seg.data[..seg.size], t);
    SortKeysOrdered(text, was, t);
    SameSize(s, t);
    Overwrite(seg, table, Words(s));
    Overwrite(seg, off, [TagMake(TAG_OBJECT, SIZE_INBOUND_SORTED)]);
    WrittenSorted(was, off, end, s);
    sorted := s;
  }

  lemma ObjectTables(text: seq<Byte>, seg: seq<Byte>, off: nat, end: nat, kvs: seq<Member>)
    requires kvs != [] && Enc(text, seg, off, end, Obj(kvs))
    ensures off + OBJECT_HEADER + 16 * |kvs| <= end <= |seg|
    ensures WordAt(seg, off + 1) == |kvs| && WordAt(seg, off + 9) == end - 16 * |kvs|
      && WordAt(seg, off + 17) == end - 8 * |kvs|
    ensures multiset(TableAt(seg, end - 8 * |kvs|, |kvs|)) == multiset(FirstTable(seg, off, |kvs|))
    ensures seg[off] == TagMake(TAG_OBJECT, SIZE_INBOUND) || seg[off] == TagMake(TAG_OBJECT, SIZE_INBOUND_SORTED)
    ensures seg[off] == TagMake(TAG_OBJECT, SIZE_INBOUND_SORTED)
      ==> Ordered(text, seg, TableAt(seg, end - 8 * |kvs|, |kvs|))
  {
    hide WordAt, TableAt, Ordered, MembersAt;
  }

  lemma ObjectTag(text: seq<Byte>, seg: seq<Byte>, off: nat, end: nat, kvs: seq<Member>)
    requires Enc(text, seg, off, end, Obj(kvs))
    ensures off < |seg| && (TagSize(seg[off]) == SIZE_ZERO <==> kvs == [])
  {
    hide WordAt, TableAt, Ordered, MembersAt;
  }

  lemma SortedOrdered(text: seq<Byte>, seg: seq<Byte>, off: nat, end: nat, kvs: seq<Member>, table: seq<Word>)
    requires kvs != [] && Enc(text, seg, off, end, Obj(kvs)) && |table| == |kvs|
    requires off + OBJECT_HEADER + 16 * |kvs| <= end <= |seg|
    requires multiset(table) == multiset(FirstTable(seg, off, |kvs|)) && Ordered(text, seg, table)
    ensures var r := Sorted(seg, off, end, table);
            && Enc(text, r, off, end, Obj(kvs)) && r[off] == TagMake(TAG_OBJECT, SIZE_INBOUND_SORTED)
            && FirstTable(r, off, |kvs|) == FirstTable(seg, off, |kvs|)
            && Ordered(text, r, TableAt(r, end - 8 * |kvs|, |kvs|))
  {
    hide WordAt, TableAt, Ordered, Enc, Sorted, FirstTable;
    SortedEnc(text, seg, off, end, kvs, table);
    SortedParts(seg, off, end, table);
    ObjectTables(text, Sorted(seg, off, end, table), off, end, kvs);
  }

  // ----- The order of keys, told without comparing -----

  /** The first place where the strings differ, and there the first has the lesser byte. */
  predicate LessAt(a: seq<Byte>, b: seq<Byte>, k: nat) {
    k < |a| && k < |b| && a[..k] == b[..k] && a[k] < b[k]
  }

  /** A proper prefix of the other string, or less where they first differ. */
  ghost predicate Precedes(a: seq<Byte>, b: seq<Byte>) {
    (|a| < |b| && a == b[..|a|]) || exists k: nat :: LessAt(a, b, k)
  }

  /** Keys are compared byte by byte, and a prefix comes first. */
  lemma {:induction false} CompareLess(a: seq<Byte>, b: seq<Byte>)
    ensures Compare(a, b) < 0 <==> Precedes(a, b)
    decreases |a|
  {
    if a != [] && b != [] {
      assert a == [a[0]] + a[1..] && b == [b[0]] + b[1..];
      if a[0] < b[0] {
        assert LessAt(a, b, 0);
      } else if a[0] == b[0] {
        CompareLess(a[1..], b[1..]);
        if Precedes(a[1..], b[1..]) {
          PrecedesBehind(a, b);
        } else if Precedes(a, b) {
          PrecedesWithin(a, b);
        }
      }
    }
  }

  lemma PrecedesBehind(a: seq<Byte>, b: seq<Byte>)
    requires a != [] && b != [] && a[0] == b[0] && Precedes(a[1..], b[1..])
    ensures Precedes(a, b)
  {
    if k: nat :| LessAt(a[1..], b[1..], k) {
      assert a[..k + 1] == [a[0]] + a[1..][..k] && b[..k + 1] == [b[0]] + b[1..][..k];
      assert LessAt(a, b, k + 1);
    } else {
      assert b[..|a|] == [b[0]] + b[1..][..|a| - 1];
      assert a == [a[0]] + a[1..];
    }
  }

  lemma PrecedesWithin(a: seq<Byte>, b: seq<Byte>)
    requires a != [] && b != [] && a[0] == b[0] && Precedes(a, b)
    ensures Precedes(a[1..], b[1..])
  {
    if k: nat :| LessAt(a, b, k) {
      assert k > 0;
      assert a[1..][..k - 1] == a[..k][1..] && b[1..][..k - 1] == b[..k][1..];
      assert LessAt(a[1..], b[1..], k - 1);
    } else {
      assert b[1..][..|a| - 1] == b[..|a|][1..];
    }
  }

  /** All keys can be read through the table, and none of them precedes one before it. */
  ghost predicate KeysAscend(text: seq<Byte>, seg: seq<Byte>, table: seq<Word>) {
    && (forall i :: 0 <= i < |table| ==> ReadString(text, seg, table[i]).Some?)
    && forall i, j :: 0 <= i < j < |table| ==>
         !Precedes(ReadString(text, seg, table[j]).value, ReadString(text, seg, table[i]).value)
  }

  /** The index of an object, once in order, lists the members by ascending keys. */
  lemma OrderedAscends(text: seq<Byte>, seg: seq<Byte>, off: nat, end: nat, kvs: seq<Member>)
    requires kvs != [] && Enc(text, seg, off, end, Obj(kvs)) && 8 * |kvs| <= end <= |seg|
    requires Ordered(text, seg, TableAt(seg, end - 8 * |kvs|, |kvs|))
    ensures KeysAscend(text, seg, TableAt(seg, end - 8 * |kvs|, |kvs|))
  {
    hide Enc, TableAt, ReadString, Compare, Precedes, FirstTable;
    var table := TableAt(seg, end - 8 * |kvs|, |kvs|);
    forall j | 0 <= j < |table| ensures ReadString(text, seg, table[j]).Some? {
      var i := SecondTableEntry(text, seg, off, end, kvs, j);
    }
    forall i, j | 0 <= i < j < |table|
      ensures !Precedes(ReadString(text, seg, table[j]).value, ReadString(text, seg, table[i]).value)
    {
      var a, b := ReadString(text, seg, table[i]).value, ReadString(text, seg, table[j]).value;
      assert CompareKeys(text, seg, table[i], table[j]) <= 0;
      CompareReverse(a, b);
      CompareLess(b, a);
    }
  }

  /** `thsn_segment_read_composite` with `read_sorted_table` on an object: sort on the first such read, and only then.
      */
  method ReadObjectSorted(text: seq<Byte>, seg: MutSlice, off: nat, ghost end: nat, ghost kvs: seq<Member>)
    returns (table: nat, count: nat)
    requires seg.Valid() && Enc(text, seg.Bytes(), off, end, Obj(kvs))
    modifies seg.data
    ensures count == |kvs| && Enc(text, seg.Bytes(), off, end, Obj(kvs))
    ensures kvs == [] ==> seg.Bytes() == old(seg.Bytes())
    ensures kvs != [] ==>
      && table == end - 8 * count && off + OBJECT_HEADER + 16 * |kvs| <= end <= seg.size
      && seg.Bytes()[off] == TagMake(TAG_OBJECT, SIZE_INBOUND_SORTED)
      && Ordered(text, seg.Bytes(), TableAt(seg.Bytes(), table, count))
      && KeysAscend(text, seg.Bytes(), TableAt(seg.Bytes(), table, count))
      && FirstTable(seg.Bytes(), off, count) == old(FirstTable(seg.Bytes(), off, |kvs|))
    // The sort is lazy: at most once, and then it rearranges the second table and sets the tag, nothing else.
    ensures kvs != [] ==>
      if old(seg.Bytes()[off]) == TagMake(TAG_OBJECT, SIZE_INBOUND_SORTED) then seg.Bytes() == old(seg.Bytes())
      else exists t: seq<Word> :: RearrangedTo(text, old(seg.Bytes()), off, end, kvs, t, seg.Bytes())
  {
    hide WordAt, TableAt, Ordered, Enc, Sorted, FirstTable, KeysAscend;
    ghost var was := seg.Bytes();
    ObjectTag(text, was, off, end, kvs);
    var tag := seg.data[off];
    assert tag == was[off];
    if TagSize(tag) == SIZE_ZERO {
      return 0, 0;
    }
    ObjectTables(text, was, off, end, kvs);
    count := WordAt(seg.data[..seg.size], off + 1);
    table := WordAt(seg.data[..seg.size], off + 17);
    if TagSize(tag) != SIZE_INBOUND_SORTED {
      ghost var sorted := SortTable(text, seg, off, table, count, end, kvs);
      SortedOrdered(text, was, off, end, kvs, sorted);
      assert RearrangedTo(text, was, off, end, kvs, sorted, seg.Bytes());
    }
    OrderedAscends(text, seg.Bytes(), off, end, kvs);
  }

  /** The segment differs only in the object's tag and the order of its second table. */
  ghost predicate RearrangedTo(text: seq<Byte>, seg: seq<Byte>, off: nat, end: nat, kvs: seq<Member>, t: seq<Word>,
                               r: seq<Byte>) {
    && |t| == |kvs| && off + OBJECT_HEADER + 16 * |kvs| <= end <= |seg|
    && WordAt(seg, off + 9) + 8 * |kvs| <= |seg|
    && multiset(t) == multiset(FirstTable(seg, off, |kvs|)) && Ordered(text, seg, t)
    && r == Sorted(seg, off, end, t)
  }

  lemma SameSize(a: seq<Word>, b: seq<Word>)
    requires multiset(a) == multiset(b)
    ensures |a| == |b|
  {
    assert |multiset(a)| == |a| && |multiset(b)| == |b|;
  }

  lemma WrittenSorted(seg: seq<Byte>, off: nat, end: nat, table: seq<Word>)
    requires 0 <= off < end - 8 * |table| <= end <= |seg|
    ensures var at := end - 8 * |table|;
            var s := seg[..at] + Words(table) + seg[at + 8 * |table|..];
            s[..off] + [TagMake(TAG_OBJECT, SIZE_INBOUND_SORTED)] + s[off + 1..] == Sorted(seg, off, end, table)
  {
    hide Words;
  }

  // ----- Sorting one object leaves every value of the document -----

  /** The object `kvs`, stored at `o` up to `e`, is a part of the value `t` stored at `off` up to `end`. */
  ghost predicate Inside(seg: seq<Byte>, off: nat, end: nat, t: Tree, o: nat, e: nat, kvs: seq<Member>)
    decreases t, 1
  {
    || (o == off && e == end && t == Obj(kvs))
    || (t.Arr? && off + 17 <= |seg| && WordAt(seg, off + 9) + 8 * |t.elems| <= |seg|
        && InsideElements(seg, FirstTable(seg, off, |t.elems|), WordAt(seg, off + 9), t.elems, o, e, kvs))
    || (t.Obj? && off + 17 <= |seg| && WordAt(seg, off + 9) + 8 * |t.kvs| <= |seg|
        && InsideMembers(seg, FirstTable(seg, off, |t.kvs|), WordAt(seg, off + 9), t.kvs, o, e, kvs))
  }

  ghost predicate InsideElements(seg: seq<Byte>, offs: seq<Word>, stop: nat, elems: seq<Tree>, o: nat, e: nat,
                                 kvs: seq<Member>)
    requires |offs| == |elems|
    decreases elems, 0
  {
    exists i :: 0 <= i < |elems| && Inside(seg, offs[i], Next(offs, stop, i), elems[i], o, e, kvs)
  }

  ghost predicate InsideMembers(seg: seq<Byte>, offs: seq<Word>, stop: nat, ms: seq<Member>, o: nat, e: nat,
                                kvs: seq<Member>)
    requires |offs| == |ms|
    decreases ms, 0
  {
    exists i :: 0 <= i < |ms| &&
      Inside(seg, offs[i] + StringSize(|ms[i].key|), Next(offs, stop, i), ms[i].value, o, e, kvs)
  }

  /** Two segments that differ at most in a stretch. */
  predicate SameBut(seg: seq<Byte>, r: seq<Byte>, o: nat, e: nat) {
    |r| == |seg| && forall i :: 0 <= i < |seg| && !(o <= i < e) ==> r[i] == seg[i]
  }

  lemma {:induction false} RisingBetween(offs: seq<Word>, stop: nat, i: nat, j: nat)
    requires Rising(offs, stop) && i < j < |offs|
    ensures Next(offs, stop, i) <= offs[j]
    decreases j - i
  {
    if i + 1 < j {
      RisingBetween(offs, stop, i, j - 1);
      assert offs[j - 1] <= Next(offs, stop, j - 1);
    }
  }

  lemma OutsideSpan(seg: seq<Byte>, r: seq<Byte>, o: nat, e: nat, a: nat, b: nat)
    requires SameBut(seg, r, o, e) && b <= |seg| && (b <= o || e <= a)
    ensures Agree(seg, r, a, b)
  {
  }

  /** Of elements back to back, only the one that contains the stretch is touched. */
  lemma OtherSpan(seg: seq<Byte>, r: seq<Byte>, offs: seq<Word>, stop: nat, o: nat, e: nat, i: nat, j: nat)
    requires Rising(offs, stop) && i < |offs| && j < |offs| && i != j && SameBut(seg, r, o, e) && stop <= |seg|
    requires offs[i] <= o && e <= Next(offs, stop, i)
    ensures Agree(seg, r, offs[j], Next(offs, stop, j))
  {
    RisingTo(offs, stop, j);
    if i < j {
      RisingBetween(offs, stop, i, j);
    } else {
      RisingBetween(offs, stop, j, i);
    }
  }

  /** A value that is rearranged inside keeps its encoding: no decoded value changes, and no insertion order. */
  lemma {:induction false} RearrangedKeeps(text: seq<Byte>, seg: seq<Byte>, r: seq<Byte>, off: nat, end: nat, t: Tree,
                                           o: nat, e: nat, kvs: seq<Member>)
    requires Enc(text, seg, off, end, t) && Inside(seg, off, end, t, o, e, kvs)
    requires kvs != [] && SameBut(seg, r, o, e) && Enc(text, r, o, e, Obj(kvs))
    ensures Enc(text, r, off, end, t) && off <= o && e <= end
    decreases t, 1
  {
    if o == off && e == end && t == Obj(kvs) {
    } else if t.Arr? {
      ElementsKeep(text, seg, r, off, end, t.elems, o, e, kvs);
    } else {
      MembersKeep(text, seg, r, off, end, t.kvs, o, e, kvs);
    }
  }

  lemma {:induction false} ElementsKeep(text: seq<Byte>, seg: seq<Byte>, r: seq<Byte>, off: nat, end: nat,
                                        elems: seq<Tree>,
                                        o: nat, e: nat, kvs: seq<Member>)
    requires Enc(text, seg, off, end, Arr(elems)) && off + 17 <= |seg| && WordAt(seg, off + 9) + 8 * |elems| <= |seg|
    requires InsideElements(seg, FirstTable(seg, off, |elems|), WordAt(seg, off + 9), elems, o, e, kvs)
    requires kvs != [] && SameBut(seg, r, o, e) && Enc(text, r, o, e, Obj(kvs))
    ensures Enc(text, r, off, end, Arr(elems)) && off <= o && e <= end
    decreases elems, 0
  {
    hide WordAt, TableAt, Inside, Enc;
    var n, offs, stop := |elems|, FirstTable(seg, off, |elems|), WordAt(seg, off + 9);
    var i :| 0 <= i < n && Inside(seg, offs[i], Next(offs, stop, i), elems[i], o, e, kvs);
    ArrayParts(text, seg, off, end, elems);
    ArrayRising(text, seg, off, end, elems);
    RearrangedKeeps(text, seg, r, offs[i], Next(offs, stop, i), elems[i], o, e, kvs);
    RisingFrom(offs, stop, i);
    RisingTo(offs, stop, i);
    forall j | 0 <= j < n ensures Enc(text, r, offs[j], Next(offs, stop, j), elems[j]) {
      if j != i {
        OtherSpan(seg, r, offs, stop, o, e, i, j);
        EncLocal(text, seg, r, offs[j], Next(offs, stop, j), elems[j]);
      }
    }
    ArrayFrom(text, seg, r, off, end, elems);
  }

  lemma ArrayParts(text: seq<Byte>, seg: seq<Byte>, off: nat, end: nat, elems: seq<Tree>)
    requires elems != [] && Enc(text, seg, off, end, Arr(elems))
    ensures ArrayShape(seg, off, end, |elems|)
    ensures ElementsAt(text, seg, FirstTable(seg, off, |elems|), WordAt(seg, off + 9), elems)
  {
    hide WordAt, TableAt;
  }

  /** The array around elements that are encoded where they were. */
  lemma ArrayFrom(text: seq<Byte>, seg: seq<Byte>, r: seq<Byte>, off: nat, end: nat, elems: seq<Tree>)
    requires ArrayShape(seg, off, end, |elems|)
    requires Agree(seg, r, off, off + ARRAY_HEADER) && Agree(seg, r, WordAt(seg, off + 9), end)
    requires ElementsAt(text, r, FirstTable(seg, off, |elems|), WordAt(seg, off + 9), elems)
    ensures Enc(text, r, off, end, Arr(elems))
  {
    hide WordAt, TableAt, ElementsAt;
    AgreeWord(seg, r, off, off + ARRAY_HEADER, off + 1);
    AgreeWord(seg, r, off, off + ARRAY_HEADER, off + 9);
    AgreeTable(seg, r, WordAt(seg, off + 9), end, WordAt(seg, off + 9), |elems|);
  }

  lemma {:induction false} MembersKeep(text: seq<Byte>, seg: seq<Byte>, r: seq<Byte>, off: nat, end: nat,
                                       ms: seq<Member>,
                                       o: nat, e: nat, kvs: seq<Member>)
    requires Enc(text, seg, off, end, Obj(ms)) && off + 17 <= |seg| && WordAt(seg, off + 9) + 8 * |ms| <= |seg|
    requires InsideMembers(seg, FirstTable(seg, off, |ms|), WordAt(seg, off + 9), ms, o, e, kvs)
    requires kvs != [] && SameBut(seg, r, o, e) && Enc(text, r, o, e, Obj(kvs))
    ensures Enc(text, r, off, end, Obj(ms)) && off <= o && e <= end
    decreases ms, 0
  {
    hide WordAt, TableAt, FirstTable, Inside, Enc, StringAt, StringSize, MembersAt, ObjectShape, MemberAt, SameBut,
      Rising, Next;
    var n, offs, stop := |ms|, FirstTable(seg, off, |ms|), WordAt(seg, off + 9);
    var i :| 0 <= i < n && Inside(seg, offs[i] + StringSize(|ms[i].key|), Next(offs, stop, i), ms[i].value, o, e, kvs);
    MemberParts(text, seg, off, end, ms);
    ObjectRising(text, seg, off, end, ms);
    MemberSpan(text, seg, offs, stop, ms, i);
    RearrangedKeeps(text, seg, r, offs[i] + StringSize(|ms[i].key|), Next(offs, stop, i), ms[i].value, o, e, kvs);
    RisingFrom(offs, stop, i);
    RisingTo(offs, stop, i);
    forall j | 0 <= j < n ensures MemberAt(text, r, offs, stop, ms, j) {
      MemberKeeps(text, seg, r, offs, stop, ms, o, e, i, j);
    }
    MembersFrom(text, r, offs, stop, ms);
    OutsideSpan(seg, r, o, e, off, off + OBJECT_HEADER);
    OutsideSpan(seg, r, o, e, stop, end);
    ObjectFrom(text, seg, r, off, end, ms);
  }

  predicate MemberAt(text: seq<Byte>, seg: seq<Byte>, offs: seq<Word>, stop: nat, ms: seq<Member>, j: nat)
    requires j < |ms| == |offs|
  {
    var mid := offs[j] + StringSize(|ms[j].key|);
    StringAt(text, seg, offs[j], mid, ms[j].key) && Enc(text, seg, mid, Next(offs, stop, j), ms[j].value)
  }

  lemma MembersFrom(text: seq<Byte>, seg: seq<Byte>, offs: seq<Word>, stop: nat, ms: seq<Member>)
    requires |ms| == |offs| && forall j :: 0 <= j < |ms| ==> MemberAt(text, seg, offs, stop, ms, j)
    ensures MembersAt(text, seg, offs, stop, ms)
  {
    hide StringAt, Enc, StringSize;
    forall j | 0 <= j < |ms|
      ensures StringAt(text, seg, offs[j], offs[j] + StringSize(|ms[j].key|), ms[j].key)
      ensures Enc(text, seg, offs[j] + StringSize(|ms[j].key|), Next(offs, stop, j), ms[j].value)
    {
      assert MemberAt(text, seg, offs, stop, ms, j);
    }
  }

  /** One member next to, or around, the rearranged stretch in member `i`. */
  lemma MemberKeeps(text: seq<Byte>, seg: seq<Byte>, r: seq<Byte>, offs: seq<Word>, stop: nat, ms: seq<Member>,
                    o: nat, e: nat, i: nat, j: nat)
    requires |ms| == |offs| && MembersAt(text, seg, offs, stop, ms) && Rising(offs, stop) && i < |ms| && j < |ms|
    requires SameBut(seg, r, o, e) && stop <= |seg|
    requires offs[i] + StringSize(|ms[i].key|) <= o && e <= Next(offs, stop, i)
    requires Enc(text, r, offs[i] + StringSize(|ms[i].key|), Next(offs, stop, i), ms[i].value)
    ensures MemberAt(text, r, offs, stop, ms, j)
  {
    hide StringAt, Enc, StringSize, MembersAt, Rising;
    var mid := offs[j] + StringSize(|ms[j].key|);
    MemberSpan(text, seg, offs, stop, ms, j);
    EncBounds(text, seg, mid, Next(offs, stop, j), ms[j].value);
    if j != i {
      OtherSpan(seg, r, offs, stop, o, e, i, j);
      EncLocal(text, seg, r, mid, Next(offs, stop, j), ms[j].value);
    }
    StringAtLocal(text, seg, r, offs[j], mid, ms[j].key);
  }

  lemma MemberParts(text: seq<Byte>, seg: seq<Byte>, off: nat, end: nat, ms: seq<Member>)
    requires ms != [] && Enc(text, seg, off, end, Obj(ms))
    ensures ObjectShape(text, seg, off, end, |ms|)
    ensures off + OBJECT_HEADER + 16 * |ms| <= end <= |seg|
    ensures off + OBJECT_HEADER <= WordAt(seg, off + 9) == end - 16 * |ms|
    ensures FirstTable(seg, off, |ms|)[0] == off + OBJECT_HEADER
    ensures MembersAt(text, seg, FirstTable(seg, off, |ms|), WordAt(seg, off + 9), ms)
  {
    hide WordAt, TableAt, Ordered;
  }

  lemma ObjectFrom(text: seq<Byte>, seg: seq<Byte>, r: seq<Byte>, off: nat, end: nat, ms: seq<Member>)
    requires ms != [] && Enc(text, seg, off, end, Obj(ms)) && off + OBJECT_HEADER <= |seg|
    requires WordAt(seg, off + 9) <= end && WordAt(seg, off + 9) + 8 * |ms| <= |seg|
    requires Agree(seg, r, off, off + OBJECT_HEADER) && Agree(seg, r, WordAt(seg, off + 9), end)
    requires MembersAt(text, r, FirstTable(seg, off, |ms|), WordAt(seg, off + 9), ms)
    ensures Enc(text, r, off, end, Obj(ms))
  {
    hide WordAt, TableAt, MembersAt, Ordered;
    AgreeWord(seg, r, off, off + OBJECT_HEADER, off + 1);
    AgreeWord(seg, r, off, off + OBJECT_HEADER, off + 9);
    AgreeWord(seg, r, off, off + OBJECT_HEADER, off + 17);
    AgreeTable(seg, r, WordAt(seg, off + 9), end, WordAt(seg, off + 9), |ms|);
    AgreeTable(seg, r, WordAt(seg, off + 9), end, end - 8 * |ms|, |ms|);
    OrderLocal(text, seg, r, off, end, ms);
  }

  /** A sorted read anywhere in a segment leaves the value around it as it was. */
  lemma SortedReadKeeps(text: seq<Byte>, seg: seq<Byte>, r: seq<Byte>, off: nat, end: nat, t: Tree, o: nat, e: nat,
                        kvs: seq<Member>, table: seq<Word>)
    requires Enc(text, seg, off, end, t) && Inside(seg, off, end, t, o, e, kvs) && kvs != []
    requires Enc(text, seg, o, e, Obj(kvs)) && RearrangedTo(text, seg, o, e, kvs, table, r)
    ensures Enc(text, r, off, end, t)
  {
    hide Enc, Inside, Ordered, WordAt, TableAt, Sorted;
    SortedEnc(text, seg, o, e, kvs, table);
    SortedParts(seg, o, e, table);
    SortedSameBut(seg, o, e, table);
    RearrangedKeeps(text, seg, r, off, end, t, o, e, kvs);
  }

  lemma SortedSameBut(seg: seq<Byte>, off: nat, end: nat, table: seq<Word>)
    requires 0 <= off < end - 8 * |table| <= end <= |seg|
    ensures SameBut(seg, Sorted(seg, off, end, table), off, end)
  {
    hide Words;
  }

  // ----- Lookup -----

  /** The key behind entry `j` of a table. */
  function KeyOf(text: seq<Byte>, seg: seq<Byte>, table: seq<Word>, j: nat): seq<Byte>
    requires j < |table| && Readable(text, seg, table)
  {
    ReadString(text, seg, table[j]).value
  }

  /** `thsn_segment_object_index`: binary search finds a key exactly when some member has it, and returns the place of
      the value of such a member. */
  method ObjectIndex(text: seq<Byte>, seg: seq<Byte>, table: nat, count: nat, key: seq<Byte>, ghost off: nat,
                     ghost end: nat, ghost kvs: seq<Member>) returns (found: bool, element: nat)
    requires Enc(text, seg, off, end, Obj(kvs)) && count == |kvs|
    requires kvs != [] ==> table == end - 8 * count && 0 <= end - 8 * count && end <= |seg|
    requires kvs != [] ==> Ordered(text, seg, TableAt(seg, table, count))
    ensures found <==> exists i :: 0 <= i < |kvs| && kvs[i].key == key
    ensures found ==> exists i :: 0 <= i < |kvs| && kvs[i].key == key && MemberValueAt(text, seg, off, kvs, i, element)
  {
    hide Enc, WordAt, TableAt, ReadString, Compare, MemberValueAt;
    if count == 0 {
      return false, 0;
    }
    KeysReadable(text, seg, off, end, kvs);
    ghost var second := TableAt(seg, table, count);
    var lo, n := 0, count;
    found, element := false, 0;
    while n > 0
      invariant 0 <= lo <= lo + n <= count
      invariant forall j :: 0 <= j < lo ==> Compare(key, KeyOf(text, seg, second, j)) > 0
      invariant forall j :: lo + n <= j < count ==> Compare(key, KeyOf(text, seg, second, j)) < 0
      decreases n
    {
      var mid := n / 2;
      var kv := WordAt(seg, table + 8 * (lo + mid));
      assert kv == second[lo + mid];
      var k := ReadString(text, seg, kv).value;
      element := kv + StoredSize(seg, kv);
      var cmp := Compare(key, k);
      if cmp == 0 {
        FoundMember(text, seg, off, end, kvs, lo + mid, key);
        return true, element;
      } else if cmp < 0 {
        KeysAbove(text, seg, second, lo + mid, key);
        n := mid;
      } else {
        KeysBelow(text, seg, second, lo + mid, key);
        lo, n := lo + mid + 1, n - mid - 1;
      }
    }
    NotFound(text, seg, off, end, kvs, second, key);
  }

  /** The value of member `i` is stored at `element`. */
  ghost predicate MemberValueAt(text: seq<Byte>, seg: seq<Byte>, off: nat, kvs: seq<Member>, i: nat, element: nat)
    requires i < |kvs|
  {
    && off + 17 <= |seg| && WordAt(seg, off + 9) + 8 * |kvs| <= |seg|
    && var offs := FirstTable(seg, off, |kvs|);
       && element == offs[i] + StringSize(|kvs[i].key|)
       && Enc(text, seg, element, Next(offs, WordAt(seg, off + 9), i), kvs[i].value)
  }

  lemma FoundMember(text: seq<Byte>, seg: seq<Byte>, off: nat, end: nat, kvs: seq<Member>, j: nat, key: seq<Byte>)
    requires kvs != [] && Enc(text, seg, off, end, Obj(kvs)) && j < |kvs| && 0 <= end - 8 * |kvs| && end <= |seg|
    requires var kv := TableAt(seg, end - 8 * |kvs|, |kvs|)[j];
             ReadString(text, seg, kv).Some? && Compare(key, ReadString(text, seg, kv).value) == 0
    ensures var kv := TableAt(seg, end - 8 * |kvs|, |kvs|)[j];
            exists i :: 0 <= i < |kvs| && kvs[i].key == key &&
              MemberValueAt(text, seg, off, kvs, i, kv + StoredSize(seg, kv))
  {
    hide Enc, WordAt, TableAt, ReadString, Compare, StoredSize, StringSize, StringAt;
    var kv := TableAt(seg, end - 8 * |kvs|, |kvs|)[j];
    MemberParts(text, seg, off, end, kvs);
    var i := SecondTableEntry(text, seg, off, end, kvs, j);
    CompareEqual(key, kvs[i].key);
    MemberSpan(text, seg, FirstTable(seg, off, |kvs|), WordAt(seg, off + 9), kvs, i);
    StringTag(text, seg, kv, kv + StringSize(|kvs[i].key|), kvs[i].key);
    assert MemberValueAt(text, seg, off, kvs, i, kv + StoredSize(seg, kv));
  }

  lemma KeysAbove(text: seq<Byte>, seg: seq<Byte>, table: seq<Word>, m: nat, key: seq<Byte>)
    requires Readable(text, seg, table) && Ordered(text, seg, table) && m < |table|
    requires Compare(key, KeyOf(text, seg, table, m)) < 0
    ensures forall j :: m <= j < |table| ==> Compare(key, KeyOf(text, seg, table, j)) < 0
  {
    hide ReadString, Compare;
    forall j | m < j < |table| ensures Compare(key, KeyOf(text, seg, table, j)) < 0 {
      assert CompareKeys(text, seg, table[m], table[j]) <= 0;
      CompareTransitive(key, KeyOf(text, seg, table, m), KeyOf(text, seg, table, j));
    }
  }

  lemma KeysBelow(text: seq<Byte>, seg: seq<Byte>, table: seq<Word>, m: nat, key: seq<Byte>)
    requires Readable(text, seg, table) && Ordered(text, seg, table) && m < |table|
    requires Compare(key, KeyOf(text, seg, table, m)) > 0
    ensures forall j :: 0 <= j <= m ==> Compare(key, KeyOf(text, seg, table, j)) > 0
  {
    hide ReadString, Compare;
    forall j | 0 <= j < m ensures Compare(key, KeyOf(text, seg, table, j)) > 0 {
      assert CompareKeys(text, seg, table[j], table[m]) <= 0;
      var kj, km := KeyOf(text, seg, table, j), KeyOf(text, seg, table, m);
      CompareReverse(key, km);
      CompareTransitive(kj, km, key);
      CompareReverse(kj, key);
    }
  }

  /** A key that is nowhere in the second table belongs to no member. */
  lemma NotFound(text: seq<Byte>, seg: seq<Byte>, off: nat, end: nat, kvs: seq<Member>, second: seq<Word>,
                 key: seq<Byte>)
    requires kvs != [] && Enc(text, seg, off, end, Obj(kvs)) && 0 <= end - 8 * |kvs| && end <= |seg|
    requires second == TableAt(seg, end - 8 * |kvs|, |kvs|) && Readable(text, seg, second)
    requires forall j :: 0 <= j < |second| ==> Compare(key, KeyOf(text, seg, second, j)) != 0
    ensures !exists i :: 0 <= i < |kvs| && kvs[i].key == key
  {
    hide Enc, WordAt, TableAt, ReadString, Compare, StringAt;
    MemberParts(text, seg, off, end, kvs);
    ObjectTables(text, seg, off, end, kvs);
    var first := FirstTable(seg, off, |kvs|);
    forall i | 0 <= i < |kvs| ensures kvs[i].key != key {
      var j := EntryInFirst(first, second, i);
      MemberKey(text, seg, first, WordAt(seg, off + 9), kvs, i);
      assert Compare(key, KeyOf(text, seg, second, j)) != 0;
      CompareEqual(key, kvs[i].key);
    }
  }
}
