/** Every value that a text holds has an encoding, in room that the text bounds. */
module Storing {
  import opened Bytes
  import opened Tokenizer
  import opened Trees
  import opened Grammar
  import opened Encoding
  import opened Pushdown
  import opened Layout

  // ----- What can be stored -----

  predicate OccursAt(text: seq<Byte>, s: seq<Byte>, d: nat) {
    d + |s| <= |text| && text[d..d + |s|] == s
  }

  ghost predicate Occurs(text: seq<Byte>, s: seq<Byte>) {
    exists d: nat :: OccursAt(text, s, d)
  }

  /** Strings are part of the text, integers fit 64 bits, and handles their nine bytes. */
  ghost predicate Storable(text: seq<Byte>, t: Tree) {
    match t
    case Int(n) => n == Wrap64(n)
    case Str(s) => Occurs(text, s)
    case Arr(elems) => forall i :: 0 <= i < |elems| ==> Storable(text, elems[i])
    case Obj(kvs) => forall i :: 0 <= i < |kvs| ==> Occurs(text, kvs[i].key) && Storable(text, kvs[i].value)
    case Ref(segment, offset, _) => segment < 256 && offset < HANDLE_OFFSET_LIMIT
    case _ => true
  }

  /** More bytes than an encoding takes. */
  function Room(t: Tree): (n: nat)
    ensures n >= 17
    decreases t, 1
  {
    match t
    case Arr(elems) => 17 + RoomOf(elems)
    case Obj(kvs) => 25 + RoomOfMembers(kvs)
    case _ => 17
  }

  /** Elements, and the entries of their table. */
  function RoomOf(elems: seq<Tree>): (n: nat)
    ensures n >= 8 * |elems|
    decreases elems, 0
  {
    if elems == [] then 0 else Room(elems[0]) + 8 + RoomOf(elems[1..])
  }

  /** Keys, values, and the entries of both tables. */
  function RoomOfMembers(kvs: seq<Member>): (n: nat)
    ensures n >= 16 * |kvs|
    decreases kvs, 0
  {
    if kvs == [] then 0 else 17 + Room(kvs[0].value) + 16 + RoomOfMembers(kvs[1..])
  }

  // ----- An encoding behind any bytes -----

  /** The segment goes on to hold the value, and takes no more room for it than that. */
  ghost predicate Grown(text: seq<Byte>, was: seq<Byte>, seg: seq<Byte>, t: Tree) {
    was <= seg && |seg| <= |was| + Room(t) && Enc(text, seg, |was|, |seg|, t)
  }

  lemma {:induction false} Stores(text: seq<Byte>, was: seq<Byte>, t: Tree) returns (seg: seq<Byte>)
    requires Storable(text, t) && |text| < WORD_LIMIT && |was| + Room(t) < WORD_LIMIT
    ensures Grown(text, was, seg, t)
    decreases t, 2
  {
    hide FrameLaid, StringAt, StringBytes;
    match t
    case Arr(elems) =>
      seg := was + [TagMake(TAG_ARRAY, SIZE_ZERO)];
      if elems != [] {
        seg := StoresArray(text, was, elems);
      }
    case Obj(kvs) =>
      seg := was + [TagMake(TAG_OBJECT, SIZE_ZERO)];
      if kvs != [] {
        seg := StoresObject(text, was, kvs);
      }
    case _ => seg := StoresAtom(text, was, t);
  }

  lemma StoresAtom(text: seq<Byte>, was: seq<Byte>, t: Tree) returns (seg: seq<Byte>)
    requires Storable(text, t) && |text| < WORD_LIMIT && !t.Arr? && !t.Obj?
    ensures Grown(text, was, seg, t)
  {
    hide StringAt, StringBytes, SignedLE, SignedFromLE, WordAt, WordBytes;
    match t
    case Null => seg := was + [TagMake(TAG_NULL, 0)];
    case Bool(b) => seg := was + [TagMake(TAG_BOOL, if b then 1 else 0)];
    case Int(n) =>
      seg := was + ([TagMake(TAG_INT, IntWidth(n))] + SignedLE(n, IntWidth(n)));
      IntStored(was, n);
    case Double(bits) =>
      seg := was + ([TagMake(TAG_DOUBLE, 0)] + WordBytes(bits));
      DoubleStored(text, was, bits);
    case Str(s) => seg := StoresString(text, was, s);
    case Ref(segment, offset, target) =>
      seg := was + ([TagMake(TAG_VALUE_HANDLE, 0)] + HandleBytes(segment, offset));
      HandleStored(text, was, segment, offset, target);
  }

  lemma StoresString(text: seq<Byte>, was: seq<Byte>, s: seq<Byte>) returns (seg: seq<Byte>)
    requires Occurs(text, s) && |text| < WORD_LIMIT
    ensures was <= seg && |seg| == |was| + StringSize(|s|) <= |was| + 17
    ensures StringAt(text, seg, |was|, |seg|, s)
  {
    hide StringAt;
    var d: nat :| OccursAt(text, s, d);
    seg := was + StringBytes(text, d, |s|);
    StringStored(text, was, d, |s|);
    StringAtEnd(text, seg, |was|, |was| + StringSize(|s|), s);
  }

  lemma StringAtEnd(text: seq<Byte>, seg: seq<Byte>, off: nat, end: nat, s: seq<Byte>)
    requires StringAt(text, seg, off, end, s)
    ensures end <= |seg|
  {
  }

  // ----- Arrays -----

  lemma {:induction false} StoresArray(text: seq<Byte>, was: seq<Byte>, elems: seq<Tree>) returns (seg: seq<Byte>)
    requires Storable(text, Arr(elems)) && elems != [] && |text| < WORD_LIMIT && |was| + Room(Arr(elems)) < WORD_LIMIT
    ensures Grown(text, was, seg, Arr(elems))
    decreases elems, 1
  {
    hide FrameLaid, Enc, Closed;
    var open := was + [TagMake(TAG_ARRAY, SIZE_INBOUND)] + seq(16, i => 0);
    OpenedArray(text, open, |was|, |open|);
    var m, full := StoresElements(text, open, Mark(|was|, [|open|]), [], elems);
    assert [] + elems == elems;
    CloseArray(text, full, m, elems);
    seg := Closed(full, |was|, m.offsets, false);
    assert was <= seg;
  }

  /** The remaining elements of an open array that waits for one. */
  lemma {:induction false} StoresElements(text: seq<Byte>, was: seq<Byte>, m: Mark, done: seq<Tree>, rest: seq<Tree>)
    returns (m': Mark, seg: seq<Byte>)
    requires rest != [] && (forall i :: 0 <= i < |rest| ==> Storable(text, rest[i])) && |text| < WORD_LIMIT
    requires FrameLaid(text, was, m, ArrFrame(done, true), |was|) && |was| + RoomOf(rest) < WORD_LIMIT
    requires |done| <= |was|
    ensures was <= seg && m'.header == m.header && |m'.offsets| == |done| + |rest|
    ensures |seg| + 8 * |rest| <= |was| + RoomOf(rest)
    ensures FrameLaid(text, seg, m', ArrFrame(done + rest, false), |seg|)
    decreases rest, 0
  {
    hide Enc, FrameLaid, Room;
    var one := Stores(text, was, rest[0]);
    EncBounds(text, one, |was|, |one|, rest[0]);
    FrameLocal(text, was, one, m, ArrFrame(done, true), |was|);
    PlugArray(text, one, m, done, |was|, |one|, rest[0]);
    MarkSize(text, one, m, ArrFrame(done + [rest[0]], false), |one|);
    if |rest| == 1 {
      m', seg := m, one;
      assert done + rest == done + [rest[0]];
    } else {
      BeginElement(text, one, m, done + [rest[0]], |one|);
      m', seg := StoresElements(text, one, NextMark(m, |one|), done + [rest[0]], rest[1..]);
      assert done + [rest[0]] + rest[1..] == done + rest;
    }
  }

  lemma MarkSize(text: seq<Byte>, seg: seq<Byte>, m: Mark, f: Frame, stop: nat)
    requires FrameLaid(text, seg, m, f, stop)
    ensures |m.offsets| == Held(f) + (if Awaiting(f) then 1 else 0)
  {
  }

  // ----- Objects -----

  lemma {:induction false} StoresObject(text: seq<Byte>, was: seq<Byte>, kvs: seq<Member>) returns (seg: seq<Byte>)
    requires Storable(text, Obj(kvs)) && kvs != [] && |text| < WORD_LIMIT && |was| + Room(Obj(kvs)) < WORD_LIMIT
    ensures Grown(text, was, seg, Obj(kvs))
    decreases kvs, 1
  {
    hide FrameLaid, Enc, Closed, StringAt;
    var open := was + [TagMake(TAG_OBJECT, SIZE_INBOUND)] + seq(24, i => 0);
    var keyed := StoresString(text, open, kvs[0].key);
    OpenedObject(text, keyed, |was|, |open|, |keyed|, kvs[0].key);
    var m, full := StoresMembers(text, keyed, Mark(|was|, [|open|]), [], kvs);
    assert [] + kvs == kvs;
    CloseObject(text, full, m, kvs);
    seg := Closed(full, |was|, m.offsets, true);
    assert was <= seg;
  }

  /** The remaining members of an open object, the first of whose keys is there already. */
  lemma {:induction false} StoresMembers(text: seq<Byte>, was: seq<Byte>, m: Mark, done: seq<Member>, rest: seq<Member>)
    returns (m': Mark, seg: seq<Byte>)
    requires rest != [] && |text| < WORD_LIMIT
    requires forall i :: 0 <= i < |rest| ==> Occurs(text, rest[i].key) && Storable(text, rest[i].value)
    requires FrameLaid(text, was, m, ObjFrame(done, Some(rest[0].key)), |was|)
    requires |was| + RoomOfMembers(rest) < WORD_LIMIT + 17 && |done| <= |was|
    ensures was <= seg && m'.header == m.header && |m'.offsets| == |done| + |rest|
    ensures |seg| + 16 * |rest| + 17 <= |was| + RoomOfMembers(rest)
    ensures FrameLaid(text, seg, m', ObjFrame(done + rest, None), |seg|)
    decreases rest, 0
  {
    hide Enc, FrameLaid, Room, StringAt;
    var one := Stores(text, was, rest[0].value);
    var key := rest[0].key;
    var more := done + [Member(key, rest[0].value)];
    EncBounds(text, one, |was|, |one|, rest[0].value);
    FrameLocal(text, was, one, m, ObjFrame(done, Some(key)), |was|);
    PlugObject(text, one, m, done, key, |was|, |one|, rest[0].value);
    MarkSize(text, one, m, ObjFrame(more, None), |one|);
    if |rest| == 1 {
      m', seg := m, one;
      assert done + rest == more;
    } else {
      var keyed := StoresString(text, one, rest[1].key);
      FrameLocal(text, one, keyed, m, ObjFrame(more, None), |one|);
      BeginMember(text, keyed, m, more, |one|, |keyed|, rest[1].key);
      m', seg := StoresMembers(text, keyed, NextMark(m, |one|), more, rest[1..]);
      assert more + rest[1..] == done + rest;
    }
  }

  // ----- What the grammar yields can be stored -----

  /** No character of a text needs more room. */
  const ROOM: nat := 64

  lemma AtomStorable(env: Input, tok: Scan)
    requires tok.Token? && tok.start + tok.size <= |env.text| && Atom(env, tok).Some?
    ensures Storable(env.text, Atom(env, tok).value) && Room(Atom(env, tok).value) == 17
  {
    hide IntegerValue, DoubleValue, Wrap64;
    SliceOccurs(env, tok);
    WrapTwice(IntegerValue(Slice(env, tok)));
  }

  lemma SliceOccurs(env: Input, tok: Scan)
    requires tok.Token? && tok.start + tok.size <= |env.text|
    ensures Occurs(env.text, Slice(env, tok))
  {
    assert OccursAt(env.text, Slice(env, tok), tok.start);
  }

  /** A value of the grammar can be stored, in room that its own text bounds. */
  lemma {:induction false} ValueStorable(env: Input, limit: nat, pos: nat)
    requires pos <= limit <= |env.text| && Value(env, limit, pos).Some?
    ensures var v := Value(env, limit, pos).value;
            Storable(env.text, v.value) && Room(v.value) <= ROOM * (v.next - pos)
    decreases limit - pos, 0
  {
    hide NextToken, Atom, Storable, Room;
    var tok := NextToken(env.text, limit, pos);
    var v := Value(env, limit, pos).value;
    if tok.kind == OpenBracket {
      if v.value == Arr([]) {
        EmptyStorable(env.text);
      } else {
        ElementsStorable(env, limit, tok.next);
        ArrayStorable(env.text, v.value.elems);
      }
    } else if tok.kind == OpenBrace {
      if v.value == Obj([]) {
        EmptyStorable(env.text);
      } else {
        MembersStorable(env, limit, tok.next);
        ObjectStorable(env.text, v.value.kvs);
      }
    } else {
      AtomStorable(env, tok);
    }
  }

  lemma EmptyStorable(text: seq<Byte>)
    ensures Storable(text, Arr([])) && Room(Arr([])) == 17
    ensures Storable(text, Obj([])) && Room(Obj([])) == 25
  {
  }

  lemma ArrayStorable(text: seq<Byte>, elems: seq<Tree>)
    ensures (forall i :: 0 <= i < |elems| ==> Storable(text, elems[i])) ==> Storable(text, Arr(elems))
    ensures Room(Arr(elems)) == 17 + RoomOf(elems)
  {
  }

  lemma ObjectStorable(text: seq<Byte>, kvs: seq<Member>)
    ensures (forall i :: 0 <= i < |kvs| ==> Occurs(text, kvs[i].key) && Storable(text, kvs[i].value)) ==>
              Storable(text, Obj(kvs))
    ensures Room(Obj(kvs)) == 25 + RoomOfMembers(kvs)
  {
  }

  lemma {:induction false} ElementsStorable(env: Input, limit: nat, pos: nat)
    requires pos <= limit <= |env.text| && Elements(env, limit, pos).Some?
    ensures var r := Elements(env, limit, pos).value;
            && (forall i :: 0 <= i < |r.value| ==> Storable(env.text, r.value[i]))
            && RoomOf(r.value) <= ROOM * (r.next - pos)
    decreases limit - pos, 1
  {
    hide NextToken, Value, Storable, Room;
    var v := Value(env, limit, pos).value;
    ValueStorable(env, limit, pos);
    var sep := NextToken(env.text, limit, v.next);
    if sep.kind == Comma {
      ElementsStorable(env, limit, sep.next);
      var rest := Elements(env, limit, sep.next).value.value;
      assert ([v.value] + rest)[1..] == rest;
    } else {
      assert [v.value][1..] == [];
    }
  }

  lemma {:induction false} MembersStorable(env: Input, limit: nat, pos: nat)
    requires pos <= limit <= |env.text| && Members(env, limit, pos).Some?
    ensures var r := Members(env, limit, pos).value;
            && (forall i :: 0 <= i < |r.value| ==>
                  Occurs(env.text, r.value[i].key) && Storable(env.text, r.value[i].value))
            && RoomOfMembers(r.value) <= ROOM * (r.next - pos)
    decreases limit - pos, 1
  {
    hide NextToken, Value, Storable, Room, Occurs;
    var key := NextToken(env.text, limit, pos);
    var colon := NextToken(env.text, limit, key.next);
    var v := Value(env, limit, colon.next).value;
    SliceOccurs(env, key);
    ValueStorable(env, limit, colon.next);
    var sep := NextToken(env.text, limit, v.next);
    var m := Member(Slice(env, key), v.value);
    if sep.kind == Comma {
      MembersStorable(env, limit, sep.next);
      var rest := Members(env, limit, sep.next).value.value;
      assert ([m] + rest)[1..] == rest;
    } else {
      assert [m][1..] == [];
    }
  }

  // ----- Handles take no more room than what they stand for -----

  /** A tree can be stored if it can with its handles followed, and if its handles fit. */
  lemma {:induction false} RefsStorable(text: seq<Byte>, t: Tree)
    requires Storable(text, Deref(t)) && RefsFit(t)
    ensures Storable(text, t) && Room(t) <= Room(Deref(t))
    decreases t, 1
  {
    match t
    case Arr(elems) =>
      forall i | 0 <= i < |elems| ensures Storable(text, elems[i]) && Room(elems[i]) <= Room(DerefAll(elems)[i]) {
        assert Storable(text, DerefAll(elems)[i]);
        RefsStorable(text, elems[i]);
      }
      RoomsOver(elems, DerefAll(elems));
    case Obj(kvs) =>
      forall i | 0 <= i < |kvs|
        ensures Occurs(text, kvs[i].key) && Storable(text, kvs[i].value)
        ensures Room(kvs[i].value) <= Room(DerefMembers(kvs)[i].value)
      {
        assert DerefMembers(kvs)[i] == Member(kvs[i].key, Deref(kvs[i].value));
        RefsStorable(text, kvs[i].value);
      }
      MemberRoomsOver(kvs, DerefMembers(kvs));
    case _ =>
  }

  ghost predicate RefsFit(t: Tree) {
    match t
    case Arr(elems) => forall i :: 0 <= i < |elems| ==> RefsFit(elems[i])
    case Obj(kvs) => forall i :: 0 <= i < |kvs| ==> RefsFit(kvs[i].value)
    case Ref(segment, offset, _) => segment < 256 && offset < HANDLE_OFFSET_LIMIT
    case _ => true
  }

  lemma {:induction false} RoomsOver(elems: seq<Tree>, elems': seq<Tree>)
    requires |elems| == |elems'| && forall i :: 0 <= i < |elems| ==> Room(elems[i]) <= Room(elems'[i])
    ensures RoomOf(elems) <= RoomOf(elems')
  {
    hide Room;
    if elems != [] {
      RoomsOver(elems[1..], elems'[1..]);
    }
  }

  lemma {:induction false} MemberRoomsOver(kvs: seq<Member>, kvs': seq<Member>)
    requires |kvs| == |kvs'| && forall i :: 0 <= i < |kvs| ==> Room(kvs[i].value) <= Room(kvs'[i].value)
    ensures RoomOfMembers(kvs) <= RoomOfMembers(kvs')
  {
    hide Room;
    if kvs != [] {
      MemberRoomsOver(kvs[1..], kvs'[1..]);
    }
  }
}
