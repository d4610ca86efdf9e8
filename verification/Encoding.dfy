/** The byte layout of a segment: tagged values, composite headers and offset tables. */
module Encoding {
  import opened Bytes
  import opened Tokenizer
  import opened Trees

  const TAG_NULL: nat := 0
  const TAG_BOOL: nat := 1
  const TAG_SMALL_STRING: nat := 2
  const TAG_REF_STRING: nat := 3
  const TAG_INT: nat := 4
  const TAG_DOUBLE: nat := 5
  const TAG_ARRAY: nat := 6
  const TAG_OBJECT: nat := 7
  const TAG_VALUE_HANDLE: nat := 8

  const SIZE_ZERO: nat := 0
  const SIZE_INBOUND: nat := 1
  const SIZE_INBOUND_SORTED: nat := 2
  const SIZE_MAX_INLINE: nat := 15

  function TagMake(kind: nat, size: nat): (tag: Byte)
    requires kind < 16 && size < 16
    ensures TagType(tag) == kind && TagSize(tag) == size
  {
    kind * 16 + size
  }

  function TagType(tag: Byte): nat {
    tag / 16
  }

  function TagSize(tag: Byte): nat {
    tag % 16
  }

  // ----- Values as bytes -----

  function IntWidth(n: int): (w: nat)
    ensures w <= 8
  {
    if n == 0 then 0
    else if -0x80 <= n <= 0x7f then 1
    else if -0x8000 <= n <= 0x7fff then 2
    else if -0x8000_0000 <= n <= 0x7fff_ffff then 4
    else 8
  }

  /** A string as stored: inline when short, else the slice of the text that holds it. */
  function StringBytes(text: seq<Byte>, start: Word, size: Word): (b: seq<Byte>)
    requires start + size <= |text|
    ensures |b| == StringSize(size) <= 17
  {
    if size <= SIZE_MAX_INLINE then [TagMake(TAG_SMALL_STRING, size)] + text[start..start + size]
    else [TagMake(TAG_REF_STRING, SIZE_INBOUND)] + WordBytes(size) + WordBytes(start)
  }

  function StringSize(length: nat): nat {
    if length <= SIZE_MAX_INLINE then 1 + length else 17
  }

  const HANDLE_OFFSET_LIMIT: int := 0x100_0000_0000_0000

  /** `ThsnValueHandle`: a segment number and a 56-bit offset. */
  function HandleBytes(segment: nat, offset: nat): (b: seq<Byte>)
    requires segment < 256
    ensures |b| == 8
  {
    [segment] + LE(offset % HANDLE_OFFSET_LIMIT, 7)
  }

  /** What is stored for a token that is a value by itself. */
  function AtomBytes(env: Input, tok: Scan): (b: seq<Byte>)
    requires tok.Token? && tok.start + tok.size <= |env.text| < WORD_LIMIT && Atom(env, tok).Some?
    ensures 1 <= |b| <= 17
  {
    match Atom(env, tok).value
    case Null => [TagMake(TAG_NULL, 0)]
    case Bool(b) => [TagMake(TAG_BOOL, if b then 1 else 0)]
    case Int(n) => [TagMake(TAG_INT, IntWidth(n))] + SignedLE(n, IntWidth(n))
    case Double(bits) => [TagMake(TAG_DOUBLE, 0)] + WordBytes(bits)
    case Str(_) => StringBytes(env.text, tok.start, tok.size)
  }

  // ----- What a stretch of a segment means -----

  predicate StringAt(text: seq<Byte>, seg: seq<Byte>, off: nat, end: nat, s: seq<Byte>) {
    && off < end <= |seg|
    && end == off + StringSize(|s|)
    && if |s| <= SIZE_MAX_INLINE then
         seg[off] == TagMake(TAG_SMALL_STRING, |s|) && seg[off + 1..end] == s
       else
         && seg[off] == TagMake(TAG_REF_STRING, SIZE_INBOUND)
         && WordAt(seg, off + 1) == |s|
         && var d := WordAt(seg, off + 9);
            d + |s| <= |text| && text[d..d + |s|] == s
  }

  const ARRAY_HEADER: nat := 17
  const OBJECT_HEADER: nat := 25

  /** Where element `i` ends: where the next one begins, or else at `stop`. */
  function Next(offs: seq<Word>, stop: nat, i: nat): nat
    requires i < |offs|
  {
    if i + 1 < |offs| then offs[i + 1] else stop
  }

  /** The bytes `off..end` of the segment encode the tree, with every offset inside pointing at an element start,
      elements back to back, and the offset table behind them. */
  predicate Enc(text: seq<Byte>, seg: seq<Byte>, off: nat, end: nat, t: Tree)
    decreases t, 1
  {
    && off < end <= |seg|
    && match t
       case Null => end == off + 1 && seg[off] == TagMake(TAG_NULL, 0)
       case Bool(b) => end == off + 1 && seg[off] == TagMake(TAG_BOOL, if b then 1 else 0)
       case Int(n) =>
         && end == off + 1 + IntWidth(n)
         && seg[off] == TagMake(TAG_INT, IntWidth(n))
         && SignedFromLE(seg[off + 1..end]) == n
       case Double(bits) => end == off + 9 && seg[off] == TagMake(TAG_DOUBLE, 0) && WordAt(seg, off + 1) == bits
       case Str(s) => StringAt(text, seg, off, end, s)
       case Ref(segment, offset, _) =>
         && end == off + 9
         && seg[off] == TagMake(TAG_VALUE_HANDLE, 0)
         && seg[off + 1] == segment
         && FromLE(seg[off + 2..end]) == offset
       case Arr(elems) =>
         if elems == [] then end == off + 1 && seg[off] == TagMake(TAG_ARRAY, SIZE_ZERO)
         else
           && ArrayShape(seg, off, end, |elems|)
           && ElementsAt(text, seg, FirstTable(seg, off, |elems|), WordAt(seg, off + 9), elems)
       case Obj(kvs) =>
         if kvs == [] then end == off + 1 && seg[off] == TagMake(TAG_OBJECT, SIZE_ZERO)
         else
           && ObjectShape(text, seg, off, end, |kvs|)
           && MembersAt(text, seg, FirstTable(seg, off, |kvs|), WordAt(seg, off + 9), kvs)
  }

  /** The elements are encoded at the given offsets, each up to the next; there may be one more offset. */
  predicate ElementsAt(text: seq<Byte>, seg: seq<Byte>, offs: seq<Word>, stop: nat, elems: seq<Tree>)
    decreases elems, 0
  {
    |elems| <= |offs| && forall i :: 0 <= i < |elems| ==> Enc(text, seg, offs[i], Next(offs, stop, i), elems[i])
  }

  /** A member is its key, and right behind it its value. */
  predicate MembersAt(text: seq<Byte>, seg: seq<Byte>, offs: seq<Word>, stop: nat, kvs: seq<Member>)
    decreases kvs, 0
  {
    && |kvs| <= |offs|
    && forall i :: 0 <= i < |kvs| ==>
         && StringAt(text, seg, offs[i], offs[i] + StringSize(|kvs[i].key|), kvs[i].key)
         && Enc(text, seg, offs[i] + StringSize(|kvs[i].key|), Next(offs, stop, i), kvs[i].value)
  }

  /** The offset table of a composite of `n` elements, in insertion order. */
  function FirstTable(seg: seq<Byte>, off: nat, n: nat): (t: seq<Word>)
    requires off + 17 <= |seg| && WordAt(seg, off + 9) + 8 * n <= |seg|
    ensures |t| == n
  {
    TableAt(seg, WordAt(seg, off + 9), n)
  }

  predicate ArrayShape(seg: seq<Byte>, off: nat, end: nat, n: nat) {
    && n > 0
    && off + ARRAY_HEADER + 8 * n <= end <= |seg|
    && seg[off] == TagMake(TAG_ARRAY, SIZE_INBOUND)
    && WordAt(seg, off + 1) == n
    && off + ARRAY_HEADER <= WordAt(seg, off + 9) == end - 8 * n
    && FirstTable(seg, off, n)[0] == off + ARRAY_HEADER
  }

  /** An object has a second table of the same offsets; once the tag says so, it is in key order. */
  predicate ObjectShape(text: seq<Byte>, seg: seq<Byte>, off: nat, end: nat, n: nat) {
    && n > 0
    && off + OBJECT_HEADER + 16 * n <= end <= |seg|
    && WordAt(seg, off + 1) == n
    && off + OBJECT_HEADER <= WordAt(seg, off + 9) == end - 16 * n
    && WordAt(seg, off + 17) == end - 8 * n
    && FirstTable(seg, off, n)[0] == off + OBJECT_HEADER
    && multiset(TableAt(seg, end - 8 * n, n)) == multiset(FirstTable(seg, off, n))
    && (seg[off] == TagMake(TAG_OBJECT, SIZE_INBOUND)
        || (seg[off] == TagMake(TAG_OBJECT, SIZE_INBOUND_SORTED) && Ordered(text, seg, TableAt(seg, end - 8 * n, n))))
  }

  // ----- Keys and their order -----

  /** `thsn_segment_read_string_from_slice`: the string stored at `off`. */
  function ReadString(text: seq<Byte>, seg: seq<Byte>, off: nat): Option<seq<Byte>> {
    if off >= |seg| then None
    else if TagType(seg[off]) == TAG_REF_STRING then
      if TagSize(seg[off]) != SIZE_INBOUND || off + 17 > |seg| then None
      else
        var size, data := WordAt(seg, off + 1), WordAt(seg, off + 9);
        if data + size > |text| then None else Some(text[data..data + size])
    else if TagType(seg[off]) == TAG_SMALL_STRING then
      var size := TagSize(seg[off]);
      if off + 1 + size > |seg| then None else Some(seg[off + 1..off + 1 + size])
    else None
  }

  lemma StringAtReads(text: seq<Byte>, seg: seq<Byte>, off: nat, end: nat, s: seq<Byte>)
    requires StringAt(text, seg, off, end, s)
    ensures ReadString(text, seg, off) == Some(s)
  {
  }

  /** `memcmp` on the common length, then the shorter string first: -1, 0 or 1. */
  function Compare(a: seq<Byte>, b: seq<Byte>): (c: int)
    ensures -1 <= c <= 1
  {
    if a == [] && b == [] then 0
    else if a == [] then -1
    else if b == [] then 1
    else if a[0] < b[0] then -1
    else if a[0] > b[0] then 1
    else Compare(a[1..], b[1..])
  }

  /** `thsn_compare_kv_keys`: unreadable keys compare equal to everything. */
  function CompareKeys(text: seq<Byte>, seg: seq<Byte>, a: nat, b: nat): int {
    var ka, kb := ReadString(text, seg, a), ReadString(text, seg, b);
    if ka.None? || kb.None? then 0 else Compare(ka.value, kb.value)
  }

  predicate Ordered(text: seq<Byte>, seg: seq<Byte>, table: seq<Word>) {
    forall i, j :: 0 <= i < j < |table| ==> CompareKeys(text, seg, table[i], table[j]) <= 0
  }

  // ----- A value's bytes are all that matters to it -----

  predicate Agree(s: seq<Byte>, r: seq<Byte>, lo: nat, hi: nat) {
    hi <= |s| && hi <= |r| && forall i :: lo <= i < hi ==> s[i] == r[i]
  }

  lemma AgreeSlice(s: seq<Byte>, r: seq<Byte>, lo: nat, hi: nat, a: nat, b: nat)
    requires Agree(s, r, lo, hi) && lo <= a <= b <= hi
    ensures s[a..b] == r[a..b]
  {
  }

  lemma AgreeWith(s: seq<Byte>, hi: nat)
    requires hi <= |s|
    ensures Agree(s, s, 0, hi)
  {
  }

  lemma AgreeOn(s: seq<Byte>, r: seq<Byte>, t: seq<Byte>, lo: nat, hi: nat)
    requires Agree(s, r, lo, hi) && Agree(r, t, lo, hi)
    ensures Agree(s, t, lo, hi)
  {
  }

  lemma AgreeWord(s: seq<Byte>, r: seq<Byte>, lo: nat, hi: nat, at: nat)
    requires Agree(s, r, lo, hi) && lo <= at && at + 8 <= hi
    ensures WordAt(s, at) == WordAt(r, at)
  {
    AgreeSlice(s, r, lo, hi, at, at + 8);
  }

  lemma AgreeTable(s: seq<Byte>, r: seq<Byte>, lo: nat, hi: nat, at: nat, n: nat)
    requires Agree(s, r, lo, hi) && lo <= at && at + 8 * n <= hi
    ensures TableAt(s, at, n) == TableAt(r, at, n)
  {
    forall i | 0 <= i < n ensures TableAt(s, at, n)[i] == TableAt(r, at, n)[i] {
      AgreeSlice(s, r, lo, hi, at + 8 * i, at + 8 * i + 8);
    }
  }

  lemma StringAtLocal(text: seq<Byte>, seg: seq<Byte>, seg': seq<Byte>, off: nat, end: nat, s: seq<Byte>)
    requires StringAt(text, seg, off, end, s) && Agree(seg, seg', off, end)
    ensures StringAt(text, seg', off, end, s)
  {
    AgreeSlice(seg, seg', off, end, off + 1, end);
    if |s| > SIZE_MAX_INLINE {
      AgreeSlice(seg, seg', off, end, off + 1, off + 9);
      AgreeSlice(seg, seg', off, end, off + 9, off + 17);
    }
  }

  /** Offsets and the place where the last element stops come in order. */
  predicate Rising(offs: seq<Word>, stop: nat) {
    forall i :: 0 <= i < |offs| ==> offs[i] <= Next(offs, stop, i)
  }

  lemma {:induction false} RisingFrom(offs: seq<Word>, stop: nat, i: nat)
    requires Rising(offs, stop) && i < |offs|
    ensures offs[0] <= offs[i]
  {
    if i > 0 {
      RisingFrom(offs, stop, i - 1);
      assert offs[i - 1] <= Next(offs, stop, i - 1);
    }
  }

  lemma {:induction false} RisingTo(offs: seq<Word>, stop: nat, i: nat)
    requires Rising(offs, stop) && i < |offs|
    ensures Next(offs, stop, i) <= stop
    decreases |offs| - i
  {
    if i + 1 < |offs| {
      RisingTo(offs, stop, i + 1);
    }
  }

  lemma {:induction false} EncLocal(text: seq<Byte>, seg: seq<Byte>, seg': seq<Byte>, off: nat, end: nat, t: Tree)
    requires Enc(text, seg, off, end, t) && Agree(seg, seg', off, end)
    ensures Enc(text, seg', off, end, t)
    decreases t, 1
  {
    match t
    case Str(s) => StringAtLocal(text, seg, seg', off, end, s);
    case Arr(elems) => if elems != [] { ArrayLocal(text, seg, seg', off, end, elems); }
    case Obj(kvs) => if kvs != [] { ObjectLocal(text, seg, seg', off, end, kvs); }
    case Null =>
    case Bool(_) =>
    case Int(_) => AgreeSlice(seg, seg', off, end, off + 1, end);
    case Double(_) => AgreeSlice(seg, seg', off, end, off + 1, end);
    case Ref(_, _, _) => AgreeSlice(seg, seg', off, end, off + 2, end);
  }

  lemma {:induction false} ElementsLocal(text: seq<Byte>, seg: seq<Byte>, seg': seq<Byte>, offs: seq<Word>, stop: nat,
                                         elems: seq<Tree>)
    requires ElementsAt(text, seg, offs, stop, elems) && Rising(offs, stop)
    requires offs != [] && Agree(seg, seg', offs[0], stop)
    ensures ElementsAt(text, seg', offs, stop, elems)
    decreases elems, 0
  {
    forall i | 0 <= i < |elems| ensures Enc(text, seg', offs[i], Next(offs, stop, i), elems[i]) {
      RisingFrom(offs, stop, i);
      RisingTo(offs, stop, i);
      EncLocal(text, seg, seg', offs[i], Next(offs, stop, i), elems[i]);
    }
  }

  lemma {:induction false} MembersLocal(text: seq<Byte>, seg: seq<Byte>, seg': seq<Byte>, offs: seq<Word>, stop: nat,
                                        kvs: seq<Member>)
    requires MembersAt(text, seg, offs, stop, kvs) && Rising(offs, stop)
    requires offs != [] && Agree(seg, seg', offs[0], stop)
    ensures MembersAt(text, seg', offs, stop, kvs)
    decreases kvs, 0
  {
    hide StringAt, Enc;
    forall i | 0 <= i < |kvs|
      ensures StringAt(text, seg', offs[i], offs[i] + StringSize(|kvs[i].key|), kvs[i].key)
      ensures Enc(text, seg', offs[i] + StringSize(|kvs[i].key|), Next(offs, stop, i), kvs[i].value)
    {
      RisingFrom(offs, stop, i);
      RisingTo(offs, stop, i);
      var mid := offs[i] + StringSize(|kvs[i].key|);
      EncBounds(text, seg, mid, Next(offs, stop, i), kvs[i].value);
      StringAtLocal(text, seg, seg', offs[i], mid, kvs[i].key);
      EncLocal(text, seg, seg', mid, Next(offs, stop, i), kvs[i].value);
    }
  }

  lemma EncBounds(text: seq<Byte>, seg: seq<Byte>, off: nat, end: nat, t: Tree)
    requires Enc(text, seg, off, end, t)
    ensures off < end <= |seg|
  {
  }

  lemma ElementsRising(text: seq<Byte>, seg: seq<Byte>, offs: seq<Word>, stop: nat, elems: seq<Tree>)
    requires ElementsAt(text, seg, offs, stop, elems) && |offs| == |elems|
    ensures Rising(offs, stop)
  {
    hide Enc;
    forall i | 0 <= i < |offs| ensures offs[i] <= Next(offs, stop, i) {
      EncBounds(text, seg, offs[i], Next(offs, stop, i), elems[i]);
    }
  }

  lemma ArrayRising(text: seq<Byte>, seg: seq<Byte>, off: nat, end: nat, elems: seq<Tree>)
    requires elems != [] && Enc(text, seg, off, end, Arr(elems))
    ensures Rising(FirstTable(seg, off, |elems|), WordAt(seg, off + 9))
  {
    hide WordAt, TableAt;
    var offs, stop := FirstTable(seg, off, |elems|), WordAt(seg, off + 9);
    ElementsRising(text, seg, offs, stop, elems);
  }

  lemma MembersRising(text: seq<Byte>, seg: seq<Byte>, offs: seq<Word>, stop: nat, kvs: seq<Member>)
    requires MembersAt(text, seg, offs, stop, kvs) && |offs| == |kvs|
    ensures Rising(offs, stop)
  {
    hide Enc, StringAt;
    forall i | 0 <= i < |offs| ensures offs[i] <= Next(offs, stop, i) {
      EncBounds(text, seg, offs[i] + StringSize(|kvs[i].key|), Next(offs, stop, i), kvs[i].value);
    }
  }

  lemma ObjectRising(text: seq<Byte>, seg: seq<Byte>, off: nat, end: nat, kvs: seq<Member>)
    requires kvs != [] && Enc(text, seg, off, end, Obj(kvs))
    ensures Rising(FirstTable(seg, off, |kvs|), WordAt(seg, off + 9))
  {
    hide WordAt, TableAt, Ordered, StringAt, StringSize;
    var offs, stop := FirstTable(seg, off, |kvs|), WordAt(seg, off + 9);
    MembersRising(text, seg, offs, stop, kvs);
  }

  lemma ArrayShapeLocal(seg: seq<Byte>, seg': seq<Byte>, off: nat, end: nat, n: nat)
    requires ArrayShape(seg, off, end, n) && Agree(seg, seg', off, end)
    ensures ArrayShape(seg', off, end, n) && off + ARRAY_HEADER <= |seg| && off + ARRAY_HEADER <= |seg'|
    ensures WordAt(seg', off + 9) == WordAt(seg, off + 9) == end - 8 * n && end <= |seg| && end <= |seg'|
    ensures FirstTable(seg', off, n) == FirstTable(seg, off, n) && FirstTable(seg, off, n)[0] == off + ARRAY_HEADER
  {
    hide WordAt, TableAt;
    AgreeWord(seg, seg', off, end, off + 1);
    AgreeWord(seg, seg', off, end, off + 9);
    AgreeTable(seg, seg', off, end, WordAt(seg, off + 9), n);
  }

  lemma {:induction false} ArrayLocal(text: seq<Byte>, seg: seq<Byte>, seg': seq<Byte>, off: nat, end: nat,
                                      elems: seq<Tree>)
    requires elems != [] && Enc(text, seg, off, end, Arr(elems)) && Agree(seg, seg', off, end)
    ensures Enc(text, seg', off, end, Arr(elems))
    decreases elems, 1
  {
    var n, table := |elems|, WordAt(seg, off + 9);
    hide WordAt, TableAt, FirstTable, ElementsAt, Rising, ArrayShape;
    ArrayShapeLocal(seg, seg', off, end, |elems|);
    ArrayRising(text, seg, off, end, elems);
    ElementsLocal(text, seg, seg', FirstTable(seg, off, n), table, elems);
  }

  lemma ObjectShapeLocal(text: seq<Byte>, seg: seq<Byte>, seg': seq<Byte>, off: nat, end: nat, n: nat)
    requires ObjectShape(text, seg, off, end, n) && Agree(seg, seg', off, end)
    ensures off + OBJECT_HEADER <= |seg'| && WordAt(seg', off + 9) == WordAt(seg, off + 9)
    ensures WordAt(seg', off + 9) + 8 * n <= |seg'| && FirstTable(seg', off, n) == FirstTable(seg, off, n)
    ensures TableAt(seg', end - 8 * n, n) == TableAt(seg, end - 8 * n, n)
    ensures (Ordered(text, seg, TableAt(seg, end - 8 * n, n)) ==> Ordered(text, seg', TableAt(seg, end - 8 * n, n)))
      ==> ObjectShape(text, seg', off, end, n)
  {
    hide WordAt, TableAt, Ordered;
    AgreeWord(seg, seg', off, end, off + 1);
    AgreeWord(seg, seg', off, end, off + 9);
    AgreeWord(seg, seg', off, end, off + 17);
    AgreeTable(seg, seg', off, end, WordAt(seg, off + 9), n);
    AgreeTable(seg, seg', off, end, end - 8 * n, n);
  }

  lemma {:induction false} ObjectLocal(text: seq<Byte>, seg: seq<Byte>, seg': seq<Byte>, off: nat, end: nat,
                                       kvs: seq<Member>)
    requires kvs != [] && Enc(text, seg, off, end, Obj(kvs)) && Agree(seg, seg', off, end)
    ensures Enc(text, seg', off, end, Obj(kvs))
    decreases kvs, 1
  {
    hide WordAt, TableAt, Ordered, ObjectShape, MembersAt;
    ObjectShapeTable(text, seg, off, end, |kvs|);
    ObjectShapeLocal(text, seg, seg', off, end, |kvs|);
    ObjectRising(text, seg, off, end, kvs);
    MembersLocal(text, seg, seg', FirstTable(seg, off, |kvs|), WordAt(seg, off + 9), kvs);
    OrderLocal(text, seg, seg', off, end, kvs);
  }

  lemma ObjectShapeTable(text: seq<Byte>, seg: seq<Byte>, off: nat, end: nat, n: nat)
    requires ObjectShape(text, seg, off, end, n)
    ensures n > 0 && off + OBJECT_HEADER + 16 * n <= end <= |seg|
    ensures off + OBJECT_HEADER <= WordAt(seg, off + 9) == end - 16 * n
    ensures FirstTable(seg, off, n)[0] == off + OBJECT_HEADER
    ensures multiset(TableAt(seg, end - 8 * n, n)) == multiset(FirstTable(seg, off, n))
  {
    hide WordAt, TableAt, Ordered;
  }

  /** A member's key is read back at the member's offset. */
  lemma MemberKey(text: seq<Byte>, seg: seq<Byte>, offs: seq<Word>, stop: nat, kvs: seq<Member>, i: nat)
    requires MembersAt(text, seg, offs, stop, kvs) && i < |kvs|
    ensures ReadString(text, seg, offs[i]) == Some(kvs[i].key)
  {
    hide StringAt, ReadString;
    StringAtReads(text, seg, offs[i], offs[i] + StringSize(|kvs[i].key|), kvs[i].key);
  }

  /** Every entry of the second table is the offset of a member, whose key can be read there. */
  lemma SecondTableEntry(text: seq<Byte>, seg: seq<Byte>, off: nat, end: nat, kvs: seq<Member>, j: nat) returns (i: nat)
    requires kvs != [] && Enc(text, seg, off, end, Obj(kvs)) && j < |kvs|
    ensures i < |kvs| && TableAt(seg, end - 8 * |kvs|, |kvs|)[j] == FirstTable(seg, off, |kvs|)[i]
    ensures ReadString(text, seg, FirstTable(seg, off, |kvs|)[i]) == Some(kvs[i].key)
  {
    hide WordAt, TableAt, Ordered, ReadString;
    var n := |kvs|;
    var first, second := FirstTable(seg, off, n), TableAt(seg, end - 8 * n, n);
    assert second[j] in multiset(second);
    assert second[j] in first;
    i :| 0 <= i < n && first[i] == second[j];
    MemberKey(text, seg, first, WordAt(seg, off + 9), kvs, i);
  }

  lemma OrderSame(text: seq<Byte>, seg: seq<Byte>, seg': seq<Byte>, table: seq<Word>)
    requires forall j :: 0 <= j < |table| ==> ReadString(text, seg', table[j]) == ReadString(text, seg, table[j])
    ensures Ordered(text, seg, table) ==> Ordered(text, seg', table)
  {
    hide ReadString, Compare;
    if Ordered(text, seg, table) {
      forall i, j | 0 <= i < j < |table| ensures CompareKeys(text, seg', table[i], table[j]) <= 0 {
        assert CompareKeys(text, seg, table[i], table[j]) <= 0;
      }
    }
  }

  /** The key order of the second table only depends on the object's own bytes. */
  lemma OrderLocal(text: seq<Byte>, seg: seq<Byte>, seg': seq<Byte>, off: nat, end: nat, kvs: seq<Member>)
    requires kvs != [] && Enc(text, seg, off, end, Obj(kvs))
    requires MembersAt(text, seg', FirstTable(seg, off, |kvs|), WordAt(seg, off + 9), kvs)
    ensures var second := TableAt(seg, end - 8 * |kvs|, |kvs|);
            Ordered(text, seg, second) ==> Ordered(text, seg', second)
  {
    hide WordAt, TableAt, ReadString, Ordered, ObjectShape, MembersAt, FirstTable;
    ObjectShapeTable(text, seg, off, end, |kvs|);
    var n := |kvs|;
    var first, second := FirstTable(seg, off, n), TableAt(seg, end - 8 * n, n);
    forall j | 0 <= j < n ensures ReadString(text, seg', second[j]) == ReadString(text, seg, second[j]) {
      var i := SecondTableEntry(text, seg, off, end, kvs, j);
      MemberKey(text, seg', first, WordAt(seg, off + 9), kvs, i);
    }
    OrderSame(text, seg, seg', second);
  }
}
