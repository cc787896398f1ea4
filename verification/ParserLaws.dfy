/** What the vote extension parser refuses: ill-formed fields, lengths that leave the buffer, and messages cut
    off inside an entry. */
module ParserLaws {
  import opened Wrappers
  import opened Varint
  import opened VarintLaws
  import opened VoteExtensionWire
  import opened VoteExtensionParse
  import opened VoteExtensionRoundTrip

  // ---------------------------------------------------------------- ill-formed fields

  /** After a tag of field number f (as a 32-bit integer) and wire type w: group ends, field numbers that are
      not positive, and price fields that are not length-delimited are errors, whatever follows. */
  lemma BadTagsAreRefused(data: Buffer, i: nat, m: Prices, tag: Read)
    requires i < |data| && ReadVarint(data, i, 0, 0) == Ok(tag)
    ensures tag.value % 8 == 4 ==> ParseFrom(data, i, m).Err?
    ensures (tag.value / 8) % TWO_32 == 0 || (tag.value / 8) % TWO_32 >= TWO_31 ==> ParseFrom(data, i, m).Err?
    ensures (tag.value / 8) % TWO_32 == 1 && tag.value % 8 != 2 ==> ParseFrom(data, i, m).Err?
    ensures tag.value % 8 == 6 || tag.value % 8 == 7 ==> ParseFrom(data, i, m).Err?
  {
    hide ReadVarint, PayloadEnd, ParseEntry, SkipWithin;
    var f := (tag.value / 8) % TWO_32;
    assert ToInt32(tag.value / 8) == if f < TWO_31 then f else f - TWO_32;
    if f != 1 && (tag.value % 8 == 6 || tag.value % 8 == 7) {
      assert data[i..][0..] == data[i..];
      SuffixTag(data, i, tag);
    }
  }

  /** Reading in a suffix of the buffer is reading in the buffer. */
  lemma {:induction false} ReadInSuffix(data: bytes, from: nat, i: nat, shift: nat, acc: uint64)
    requires from <= |data|
    ensures ReadVarint(data[from..], i, shift, acc)
         == match ReadVarint(data, from + i, shift, acc)
            case Ok(r) => if r.next >= from then Ok(Read(r.value, r.next - from)) else Err(IntOverflow)
            case Err(e) => Err(e)
    decreases if shift < 64 then 64 - shift else 0
  {
    if shift < 64 && from + i < |data| {
      assert data[from..][i] == data[from + i];
      AccumulatorBound(acc, ShiftLeft64(data[from + i] % 128, shift));
      var acc' := BitOr(acc, ShiftLeft64(data[from + i] % 128, shift));
      ReadInSuffix(data, from, i + 1, shift + 7, acc');
    }
  }

  lemma SuffixTag(data: Buffer, i: nat, tag: Read)
    requires i < |data| && ReadVarint(data, i, 0, 0) == Ok(tag)
    requires tag.value % 8 == 6 || tag.value % 8 == 7
    ensures SkipWithin(data, i, |data|).Err?
  {
    ReadInSuffix(data, i, 0, 0, 0);
  }

  lemma LongPayloadIsRefused(data: Buffer, i: nat, length: uint64)
    requires i <= |data| < i + length
    ensures PayloadEnd(data, i, length).Err?
  {
  }

  /** A price entry whose length, as an unsigned 64-bit number, leads past the buffer is an error. */
  lemma LongEntriesAreRefused(data: Buffer, i: nat, m: Prices, tag: Read, len: Read)
    requires i < |data| && ReadVarint(data, i, 0, 0) == Ok(tag) && tag.value == 10
    requires ReadVarint(data, tag.next, 0, 0) == Ok(len) && len.next + len.value > |data|
    ensures ParseFrom(data, i, m).Err?
  {
    hide ReadVarint, PayloadEnd, ParseEntry, SkipWithin;
    LongPayloadIsRefused(data, len.next, len.value);
    assert ToInt32(10 / 8) == 1;
  }

  /** Skipping refuses a group end without a start, and a length that is negative as a 64-bit integer. */
  lemma SkipRefuses(data: Buffer, i: nat, depth: nat, tag: Read, len: Read)
    requires i < |data| && ReadVarint(data, i, 0, 0) == Ok(tag)
    ensures tag.value % 8 == 4 && depth == 0 ==> SkipFrom(data, i, depth) == Err(UnexpectedEndOfGroup)
    ensures tag.value % 8 == 2 && ReadVarint(data, tag.next, 0, 0) == Ok(len) && len.value >= TWO_63 ==>
              SkipFrom(data, i, depth) == Err(InvalidLength)
  {
    hide ReadVarint;
  }

  // ---------------------------------------------------------------- two habits of the generated code

  /** A key given twice in one entry is the bitwise or of both: 1 and 2 make 3. */
  lemma RepeatedKeysAreOred()
    ensures Parse([0x0a, 4, 0x08, 1, 0x08, 2]) == Ok(map[3 := []])
  {
    var data: Buffer := [0x0a, 4, 0x08, 1, 0x08, 2];
    ReadByte(data, 0, 0x0a);
    ReadByte(data, 1, 4);
    ReadByte(data, 2, 0x08);
    ReadByte(data, 3, 1);
    ReadByte(data, 4, 0x08);
    assert ReadVarint(data, 5, 0, 1) == Ok(Read(3, 6)) by {
      assert ShiftLeft64(2, 0) == 2;
      assert BitOr(1, 2) == 2 * BitOr(0, 1) + 1;
    }
    hide ReadVarint;
    assert ToInt32(10 / 8) == 1 && ToInt32(8 / 8) == 1;
    assert ParseEntry(data, 6, 6, KeyValue(3, [])) == Ok(KeyValue(3, []));
    assert ParseEntry(data, 4, 6, KeyValue(1, [])) == Ok(KeyValue(3, []));
    assert ParseEntry(data, 2, 6, KeyValue(0, [])) == Ok(KeyValue(3, []));
    assert ParseFrom(data, 6, map[3 := []]) == Ok(map[3 := []]);
  }

  /** A value may run past the end of its entry, as long as it stays in the buffer; its bytes are then read
      again as the fields that follow. */
  lemma ValueMayPassItsEntry()
    ensures Parse([0x0a, 2, 0x12, 2, 0x10, 1]) == Ok(map[0 := [0x10, 1]])
  {
    hide ReadVarint, SkipWithin, PayloadEnd, ParseEntry;
    var data: Buffer := [0x0a, 2, 0x12, 2, 0x10, 1];
    ReadByte(data, 0, 0x0a);
    ReadByte(data, 1, 2);
    PassingValue(data);
    PayloadFits(data, 2, 2);
    assert ToInt32(10 / 8) == 1;
    PassedBytes(data, map[0 := [0x10, 1]]);
  }

  /** An unknown field may not: it has to end within its entry. */
  lemma UnknownFieldMustEndInItsEntry()
    ensures Parse([0x0a, 1, 0x18, 1]) == Err(UnexpectedEOF)
  {
    hide ReadVarint, PayloadEnd;
    var data: Buffer := [0x0a, 1, 0x18, 1];
    ReadByte(data, 0, 0x0a);
    ReadByte(data, 1, 1);
    ReadByte(data, 2, 0x18);
    PayloadFits(data, 2, 1);
    var rest: Buffer := data[2..];
    assert rest == [0x18, 1];
    ReadByte(rest, 0, 0x18);
    ReadByte(rest, 1, 1);
    assert ToInt32(10 / 8) == 1 && ToInt32(24 / 8) == 3;
    assert SkipRound(rest, 0, 0) == Ok(Skip(2, 0));
    assert SkipWithin(data, 2, 3) == Err(UnexpectedEOF);
    assert ParseEntry(data, 2, 3, KeyValue(0, [])) == Err(UnexpectedEOF);
  }

  /** The bytes of one entry: key 300 with the value 5, 6. */
  lemma EntryBytesExample()
    ensures Entry(300, [5, 6]) == [0x0a, 7, 0x08, 0xac, 0x02, 0x12, 2, 5, 6]
    ensures Entry(7, []) == [0x0a, 2, 0x08, 7]
  {
    assert VarintBytes(300) == [0xac] + VarintBytes(2) == [0xac, 0x02];
    assert VarintBytes(2) == [2] && VarintBytes(7) == [7];
    assert EntryBody(300, [5, 6]) == [0x08, 0xac, 0x02, 0x12, 2, 5, 6];
    assert EntryBody(7, []) == [0x08, 7];
  }

  lemma PassingValue(data: Buffer)
    requires data == [0x0a, 2, 0x12, 2, 0x10, 1]
    ensures ParseEntry(data, 2, 4, KeyValue(0, [])) == Ok(KeyValue(0, [0x10, 1]))
  {
    hide ReadVarint, SkipWithin, PayloadEnd;
    ReadByte(data, 2, 0x12);
    ReadByte(data, 3, 2);
    PayloadFits(data, 4, 2);
    assert ToInt32(18 / 8) == 2 && data[4..6] == [0x10, 1];
    assert ParseEntry(data, 6, 4, KeyValue(0, [0x10, 1])) == Ok(KeyValue(0, [0x10, 1]));
  }

  lemma PassedBytes(data: Buffer, m: Prices)
    requires data == [0x0a, 2, 0x12, 2, 0x10, 1]
    ensures ParseFrom(data, 4, m) == Ok(m)
  {
    hide ReadVarint, SkipWithin, PayloadEnd, ParseEntry;
    var f := VarintField(2, 1);
    assert VarintBytes(16) == [0x10] && VarintBytes(1) == [1];
    assert FieldBytes(f) == [0x10, 1];
    SkipsUnknown(data, 4, f, m);
    assert ParseFrom(data, 6, m) == Ok(m);
  }

  // ---------------------------------------------------------------- cut-off messages

  lemma {:induction false} WrittenIsVarint(data: bytes, i: nat, v: nat)
    requires At(data, i, VarintBytes(v))
    ensures IsVarint(data, i, |VarintBytes(v)|)
    decreases v
  {
    FirstByte(data, i, v);
    if v >= 128 {
      WrittenIsVarint(data, i + 1, v / 128);
    }
  }

  lemma VarintLength(v: uint64)
    ensures |VarintBytes(v)| <= 10
  {
    SovIsLength(v);
    ShlSixtyFour();
    var odd := if v % 2 == 0 then v + 1 else v;
    BitLengthBound(odd, 64);
  }

  /** The length prefix of an entry, cut off before its last byte at the end of the buffer. */
  lemma CutVarint(data: Buffer, i: nat, v: uint64, n: nat)
    requires n < |VarintBytes(v)| && i + n == |data| && data[i..] == VarintBytes(v)[..n]
    ensures ReadVarint(data, i, 0, 0) == Err(UnexpectedEOF)
  {
    VarintLength(v);
    var whole := VarintBytes(v);
    assert whole[0..0 + |whole|] == whole;
    WrittenIsVarint(whole, 0, v);
    forall k | i <= k < i + n
      ensures data[k] >= 128
    {
      assert data[k] == data[i..][k - i] == whole[k - i];
    }
    ReadVarintExactly(data, i, n);
  }

  /** No proper part of an entry parses at the end of a message: a map cut off inside an entry is refused. */
  lemma CutEntriesAreRefused(data: Buffer, i: nat, k: uint64, v: bytes, cut: nat, m: Prices)
    requires |EntryBody(k, v)| < TWO_63
    requires 0 < cut < |Entry(k, v)| && i + cut == |data| && data[i..] == Entry(k, v)[..cut]
    ensures ParseFrom(data, i, m).Err?
  {
    hide ReadVarint, EntryBody, ParseEntry, SkipWithin, PayloadEnd, VarintBytes;
    var body := EntryBody(k, v);
    var length := VarintBytes(|body|);
    var tail := length + body;
    assert Entry(k, v) == [0x0a] + tail;
    assert data[i] == data[i..][0];
    ReadByte(data, i, 0x0a);
    assert data[i + 1..] == tail[..cut - 1];
    if cut - 1 < |length| {
      assert tail[..cut - 1] == length[..cut - 1];
      CutVarint(data, i + 1, |body|, cut - 1);
      assert ToInt32(10 / 8) == 1;
    } else {
      assert data[i + 1..i + 1 + |length|] == data[i + 1..][..|length|] == length;
      ReadBack(data, i + 1, |body|);
      LongEntriesAreRefused(data, i, m, Read(10, i + 1), Read(|body|, i + 1 + |length|));
    }
  }
}
