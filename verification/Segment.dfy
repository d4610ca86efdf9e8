/** Storing into a segment: `thsn_segment_store_*` on the growable buffer. */
module Segments {
  import opened Bytes
  import opened Vectors
  import opened Encoding
  import opened Layout

  /** Room for `size` more bytes within what a C object can hold. */
  ghost predicate Room(v: Vector, size: nat)
    reads v
  {
    v.offset + size <= PTRDIFF_MAX
  }

  method StoreTaggedValue(segment: Vector, tag: Byte, value: seq<Byte>)
    requires segment.Valid() && Room(segment, 1 + |value|)
    modifies segment, segment.buffer
    ensures segment.Valid() && (segment.buffer == old(segment.buffer) || fresh(segment.buffer))
    ensures segment.Contents() == old(segment.Contents()) + ([tag] + value)
  {
    var at := segment.offset;
    var ok := segment.Grow(1 + |value|);
    segment.Write(at, [tag]);
    segment.Write(at + 1, value);
  }

  /** `thsn_segment_store_int`: the narrowest of 0, 1, 2, 4 or 8 bytes that holds the value. */
  method StoreInt(segment: Vector, value: int)
    requires segment.Valid() && Room(segment, 9)
    modifies segment, segment.buffer
    ensures segment.Valid() && (segment.buffer == old(segment.buffer) || fresh(segment.buffer))
    ensures segment.Contents() ==
      old(segment.Contents()) + ([TagMake(TAG_INT, IntWidth(value))] + SignedLE(value, IntWidth(value)))
  {
    if value == 0 {
      StoreTaggedValue(segment, TagMake(TAG_INT, SIZE_ZERO), []);
    } else if -0x80 <= value <= 0x7f {
      StoreTaggedValue(segment, TagMake(TAG_INT, 1), SignedLE(value, 1));
    } else if -0x8000 <= value <= 0x7fff {
      StoreTaggedValue(segment, TagMake(TAG_INT, 2), SignedLE(value, 2));
    } else if -0x8000_0000 <= value <= 0x7fff_ffff {
      StoreTaggedValue(segment, TagMake(TAG_INT, 4), SignedLE(value, 4));
    } else {
      StoreTaggedValue(segment, TagMake(TAG_INT, 8), SignedLE(value, 8));
    }
  }

  /** `thsn_segment_store_string`: short strings are copied, long ones referred to. */
  method StoreString(segment: Vector, text: seq<Byte>, start: nat, size: nat)
    requires segment.Valid() && Room(segment, 17) && start + size <= |text| < WORD_LIMIT
    modifies segment, segment.buffer
    ensures segment.Valid() && (segment.buffer == old(segment.buffer) || fresh(segment.buffer))
    ensures segment.Contents() == old(segment.Contents()) + StringBytes(text, start, size)
  {
    if size <= SIZE_MAX_INLINE {
      StoreTaggedValue(segment, TagMake(TAG_SMALL_STRING, size), text[start..start + size]);
    } else {
      StoreTaggedValue(segment, TagMake(TAG_REF_STRING, SIZE_INBOUND), WordBytes(size) + WordBytes(start));
      assert [TagMake(TAG_REF_STRING, SIZE_INBOUND)] + (WordBytes(size) + WordBytes(start))
          == StringBytes(text, start, size);
    }
  }

  method StoreValueHandle(segment: Vector, segmentNo: nat, offset: nat)
    requires segment.Valid() && Room(segment, 9) && segmentNo < 256
    modifies segment, segment.buffer
    ensures segment.Valid() && (segment.buffer == old(segment.buffer) || fresh(segment.buffer))
    ensures segment.Contents() ==
      old(segment.Contents()) + ([TagMake(TAG_VALUE_HANDLE, 0)] + HandleBytes(segmentNo, offset))
  {
    StoreTaggedValue(segment, TagMake(TAG_VALUE_HANDLE, 0), HandleBytes(segmentNo, offset));
  }

  /** `thsn_segment_store_composite_header`: the tag is written, the words behind it are left as they are. */
  method StoreCompositeHeader(segment: Vector, tag: Byte, reserveSorted: bool) returns (header: nat)
    requires segment.Valid() && Room(segment, FullHeader(reserveSorted))
    modifies segment, segment.buffer
    ensures segment.Valid() && (segment.buffer == old(segment.buffer) || fresh(segment.buffer))
    ensures header == old(segment.offset) && segment.offset == header + FullHeader(reserveSorted)
    ensures old(segment.Contents()) + [tag] <= segment.Contents()
  {
    header := segment.offset;
    ghost var was := segment.Contents();
    var ok := segment.Grow(FullHeader(reserveSorted));
    ghost var grown := segment.Contents();
    segment.Write(header, [tag]);
    assert grown[..header] == was;
  }

  /** The table once, or twice with room to be sorted later. */
  method AppendTables(segment: Vector, table: seq<Byte>, reserveSorted: bool) returns (second: nat)
    requires segment.Valid() && Room(segment, (if reserveSorted then 2 else 1) * |table|)
    modifies segment, segment.buffer
    ensures segment.Valid() && (segment.buffer == old(segment.buffer) || fresh(segment.buffer))
    ensures second == old(segment.offset) + |table|
    ensures segment.Contents() == old(segment.Contents()) + (if reserveSorted then table + table else table)
  {
    hide Vector.Valid;
    var ok := segment.Push(table);
    second := segment.offset;
    if reserveSorted {
      ok := segment.Push(table);
    }
  }

  /** `thsn_segment_store_composite_elements_table`: append the table, and patch the header to point at it. */
  method StoreCompositeElementsTable(segment: Vector, header: nat, table: seq<Byte>, reserveSorted: bool,
                                     ghost offsets: seq<Word>)
    requires segment.Valid() && Room(segment, (if reserveSorted then 2 else 1) * |table|)
    requires header + FullHeader(reserveSorted) <= segment.offset
    requires table == Words(offsets)
    modifies segment, segment.buffer
    ensures segment.Valid() && (segment.buffer == old(segment.buffer) || fresh(segment.buffer))
    ensures segment.Contents() == Closed(old(segment.Contents()), header, offsets, reserveSorted)
  {
    hide Words, WordBytes, Vector.Valid;
    ghost var was := segment.Contents();
    var count := |table| / 8;
    var tableOffset := segment.offset;
    var sortedTableOffset := AppendTables(segment, table, reserveSorted);
    ghost var tables := if reserveSorted then table + table else table;
    assert count == |offsets|;
    var words := WordBytes(count) + WordBytes(tableOffset)
      + (if reserveSorted then WordBytes(sortedTableOffset) else []);
    segment.Write(header + 1, words);
    PatchThenAppend(was, header, words, tables);
  }

  lemma PatchThenAppend(seg: seq<Byte>, header: nat, words: seq<Byte>, tables: seq<Byte>)
    requires header + 1 + |words| <= |seg|
    ensures var all := seg + tables;
            all[..header + 1] + words + all[header + 1 + |words|..] == Patched(seg, header, words) + tables
  {
  }
}
