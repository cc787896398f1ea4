/** What the decoder makes of encoder output: the same map for every iteration order, also when
    well-formed fields it does not know, nested groups included, stand between the entries. */
module VoteExtensionRoundTrip {
  import opened Wrappers
  import opened Varint
  import opened FiniteSums
  import opened VoteExtensionWire
  import opened VoteExtensionParse

  // ---------------------------------------------------------------- entries

  lemma AtThree(data: bytes, i: nat, p: bytes, q: bytes, r: bytes)
    requires At(data, i, p + q + r)
    ensures At(data, i, p) && At(data, i + |p|, q) && At(data, i + |p| + |q|, r)
  {
    AtSplit(data, i, p + q, r);
    AtSplit(data, i, p, q);
  }

  /** A one-byte varint. */
  lemma ReadByte(data: bytes, i: nat, b: byte)
    requires b < 128 && At(data, i, [b])
    ensures ReadVarint(data, i, 0, 0) == Ok(Read(b, i + 1))
  {
    assert VarintBytes(b) == [b];
    ReadBack(data, i, b);
  }

  lemma PayloadFits(data: Buffer, i: nat, length: uint64)
    requires i + length <= |data|
    ensures PayloadEnd(data, i, length) == Ok(i + length)
  {
  }

  lemma ParsesValue(data: Buffer, i: nat, post: nat, kv: KeyValue, v: bytes)
    requires At(data, i, ValueField(v)) && i + |ValueField(v)| == post <= |data|
    requires kv.value == []
    ensures ParseEntry(data, i, post, kv) == Ok(kv.(value := v))
  {
    hide At, VarintBytes, ReadVarint;
    if v != [] {
      AtThree(data, i, [0x12], VarintBytes(|v|), v);
      ReadByte(data, i, 0x12);
      ReadBack(data, i + 1, |v|);
      PayloadFits(data, i + 1 + |VarintBytes(|v|)|, |v|);
      assert ToInt32(0x12 / 8) == 2;
      assert ParseEntry(data, post, post, kv.(value := v)) == Ok(kv.(value := v));
    }
  }

  lemma BodyParts(data: bytes, i: nat, k: uint64, v: bytes)
    requires At(data, i, EntryBody(k, v))
    ensures i + |EntryBody(k, v)| <= |data|
    ensures |EntryBody(k, v)| == 1 + |VarintBytes(k)| + |ValueField(v)|
    ensures At(data, i, [0x08]) && At(data, i + 1, VarintBytes(k))
    ensures At(data, i + 1 + |VarintBytes(k)|, ValueField(v))
  {
    hide VarintBytes, ValueField;
    AtThree(data, i, [0x08], VarintBytes(k), ValueField(v));
  }

  lemma KeyRound(data: Buffer, i: nat, post: nat, k: uint64, at: nat)
    requires i < post <= |data|
    requires ReadVarint(data, i, 0, 0) == Ok(Read(0x08, i + 1))
    requires ReadVarint(data, i + 1, 0, 0) == Ok(Read(k, at))
    ensures at <= |data|
    ensures ParseEntry(data, i, post, KeyValue(0, [])) == ParseEntry(data, at, post, KeyValue(k, []))
  {
    hide ReadVarint, PayloadEnd, SkipWithin;
    assert ToInt32(0x08 / 8) == 1;
  }

  lemma ParsesBody(data: Buffer, i: nat, k: uint64, v: bytes)
    requires At(data, i, EntryBody(k, v))
    ensures ParseEntry(data, i, i + |EntryBody(k, v)|, KeyValue(0, [])) == Ok(KeyValue(k, v))
  {
    hide At, VarintBytes, ReadVarint, ValueField, EntryBody, ParseEntry;
    BodyParts(data, i, k, v);
    var post := i + |EntryBody(k, v)|;
    ReadByte(data, i, 0x08);
    ReadBack(data, i + 1, k);
    KeyRound(data, i, post, k, i + 1 + |VarintBytes(k)|);
    ParsesValue(data, i + 1 + |VarintBytes(k)|, post, KeyValue(k, []), v);
  }

  /** An encoded entry is consumed exactly, and binds its key to its value. */
  lemma ParsesEntry(data: Buffer, i: nat, k: uint64, v: bytes, m: Prices)
    requires At(data, i, Entry(k, v))
    ensures ParseFrom(data, i, m) == ParseFrom(data, i + |Entry(k, v)|, m[k := v])
  {
    hide At, VarintBytes, ReadVarint, ParseEntry, EntryBody;
    var body := EntryBody(k, v);
    AtThree(data, i, [0x0a], VarintBytes(|body|), body);
    ReadByte(data, i, 0x0a);
    ReadBack(data, i + 1, |body|);
    assert ToInt32(0x0a / 8) == 1;
    var at := i + 1 + |VarintBytes(|body|)|;
    PayloadFits(data, at, |body|);
    ParsesBody(data, at, k, v);
  }

  // ---------------------------------------------------------------- unknown fields

  datatype Field =
    | VarintField(num: nat, v: uint64)
    | Fixed64(num: nat, payload: bytes)
    | Delimited(num: nat, payload: bytes)
    | Group(num: nat, fields: seq<Field>)
    | Fixed32(num: nat, payload: bytes)

  /** Protobuf field numbers fit in 29 bits. */
  const FIELD_NUMBERS: int := 0x2000_0000

  ghost predicate WellFormed(f: Field) {
    && f.num < FIELD_NUMBERS
    && match f
       case VarintField(_, _) => true
       case Fixed64(_, payload) => |payload| == 8
       case Delimited(_, payload) => true
       case Group(_, fields) => forall g | g in fields :: WellFormed(g)
       case Fixed32(_, payload) => |payload| == 4
  }

  function Tag(num: nat, wireType: nat): (t: bytes)
    ensures |t| >= 1
  {
    VarintBytes(8 * num + wireType)
  }

  function FieldBytes(f: Field): bytes {
    match f
    case VarintField(num, v) => Tag(num, 0) + VarintBytes(v)
    case Fixed64(num, payload) => Tag(num, 1) + payload
    case Delimited(num, payload) => Tag(num, 2) + VarintBytes(|payload|) + payload
    case Group(num, fields) => Tag(num, 3) + FieldsBytes(fields) + Tag(num, 4)
    case Fixed32(num, payload) => Tag(num, 5) + payload
  }

  function FieldsBytes(fields: seq<Field>): bytes {
    if fields == [] then [] else FieldBytes(fields[0]) + FieldsBytes(fields[1..])
  }

  lemma TagNumbers(num: nat, wireType: nat)
    requires num < FIELD_NUMBERS && wireType < 8
    ensures (8 * num + wireType) % 8 == wireType && ToInt32((8 * num + wireType) / 8) == num
  {
  }

  lemma ReadTag(data: bytes, i: nat, num: nat, wireType: nat)
    requires num < FIELD_NUMBERS && wireType < 8 && At(data, i, Tag(num, wireType))
    ensures ReadVarint(data, i, 0, 0) == Ok(Read(8 * num + wireType, i + |Tag(num, wireType)|))
  {
    ReadBack(data, i, 8 * num + wireType);
  }

  /** What the skip loop does once it stands at j with the given open groups. */
  ghost function Resume(data: Buffer, j: nat, depth: nat): Result<nat, Error> {
    if depth == 0 then Ok(j) else SkipFrom(data, j, depth)
  }

  lemma AtNonEmpty(data: bytes, i: nat, f: Field)
    requires At(data, i, FieldBytes(f))
    ensures i < |data| && i + |FieldBytes(f)| <= |data|
  {
  }

  lemma SkipsVarint(data: Buffer, i: nat, num: nat, v: uint64, depth: nat)
    requires num < FIELD_NUMBERS && i < |data| && At(data, i, Tag(num, 0) + VarintBytes(v))
    ensures SkipRound(data, i, depth) == Ok(Skip(i + |Tag(num, 0) + VarintBytes(v)|, depth))
  {
    hide At, Tag, VarintBytes, ReadVarint;
    AtSplit(data, i, Tag(num, 0), VarintBytes(v));
    ReadTag(data, i, num, 0);
    TagNumbers(num, 0);
    ReadBack(data, i + |Tag(num, 0)|, v);
  }

  lemma SkipsFixed(data: Buffer, i: nat, num: nat, payload: bytes, depth: nat)
    requires num < FIELD_NUMBERS && i < |data| && (|payload| == 8 || |payload| == 4)
    requires At(data, i, Tag(num, if |payload| == 8 then 1 else 5) + payload)
    requires i + |Tag(num, if |payload| == 8 then 1 else 5) + payload| <= |data|
    ensures SkipRound(data, i, depth) == Ok(Skip(i + |Tag(num, if |payload| == 8 then 1 else 5) + payload|, depth))
  {
    hide At, Tag, VarintBytes, ReadVarint;
    var wireType := if |payload| == 8 then 1 else 5;
    AtSplit(data, i, Tag(num, wireType), payload);
    ReadTag(data, i, num, wireType);
    TagNumbers(num, wireType);
  }

  lemma SkipsDelimited(data: Buffer, i: nat, num: nat, payload: bytes, depth: nat)
    requires num < FIELD_NUMBERS && i < |data|
    requires At(data, i, Tag(num, 2) + VarintBytes(|payload|) + payload)
    requires i + |Tag(num, 2) + VarintBytes(|payload|) + payload| <= |data|
    ensures SkipRound(data, i, depth) == Ok(Skip(i + |Tag(num, 2) + VarintBytes(|payload|) + payload|, depth))
  {
    hide At, Tag, VarintBytes, ReadVarint;
    AtThree(data, i, Tag(num, 2), VarintBytes(|payload|), payload);
    ReadTag(data, i, num, 2);
    TagNumbers(num, 2);
    ReadBack(data, i + |Tag(num, 2)|, |payload|);
  }

  lemma ScalarRound(data: Buffer, i: nat, f: Field, depth: nat)
    requires WellFormed(f) && !f.Group? && i < |data|
    requires i + |FieldBytes(f)| <= |data| && At(data, i, FieldBytes(f))
    ensures SkipRound(data, i, depth) == Ok(Skip(i + |FieldBytes(f)|, depth))
  {
    hide At, Tag, VarintBytes, ReadVarint, SkipRound;
    match f
    case VarintField(num, v) => SkipsVarint(data, i, num, v, depth);
    case Fixed64(num, payload) => SkipsFixed(data, i, num, payload, depth);
    case Delimited(num, payload) => SkipsDelimited(data, i, num, payload, depth);
    case Fixed32(num, payload) => SkipsFixed(data, i, num, payload, depth);
  }

  lemma SkipsScalar(data: Buffer, i: nat, f: Field, depth: nat)
    requires WellFormed(f) && !f.Group? && At(data, i, FieldBytes(f))
    ensures SkipFrom(data, i, depth) == Resume(data, i + |FieldBytes(f)|, depth)
  {
    hide At, FieldBytes, WellFormed, SkipRound;
    AtNonEmpty(data, i, f);
    ScalarRound(data, i, f, depth);
  }

  lemma OpensGroup(data: Buffer, i: nat, num: nat, depth: nat)
    requires num < FIELD_NUMBERS && i < |data| && At(data, i, Tag(num, 3))
    ensures SkipFrom(data, i, depth) == SkipFrom(data, i + |Tag(num, 3)|, depth + 1)
  {
    hide At, Tag, VarintBytes, ReadVarint;
    ReadTag(data, i, num, 3);
    TagNumbers(num, 3);
    assert SkipRound(data, i, depth) == Ok(Skip(i + |Tag(num, 3)|, depth + 1));
  }

  lemma ClosesGroup(data: Buffer, i: nat, num: nat, depth: nat)
    requires num < FIELD_NUMBERS && i < |data| && At(data, i, Tag(num, 4))
    ensures SkipFrom(data, i, depth + 1) == Resume(data, i + |Tag(num, 4)|, depth)
  {
    hide At, Tag, VarintBytes, ReadVarint;
    ReadTag(data, i, num, 4);
    TagNumbers(num, 4);
    assert SkipRound(data, i, depth + 1) == Ok(Skip(i + |Tag(num, 4)|, depth));
  }

  lemma GroupParts(data: bytes, i: nat, f: Field)
    requires f.Group? && WellFormed(f) && At(data, i, FieldBytes(f))
    ensures var open, inner, close := Tag(f.num, 3), FieldsBytes(f.fields), Tag(f.num, 4);
            && f.num < FIELD_NUMBERS && (forall g | g in f.fields :: WellFormed(g))
            && At(data, i, open) && At(data, i + |open|, inner) && At(data, i + |open| + |inner|, close)
            && |FieldBytes(f)| == |open| + |inner| + |close| && |close| >= 1
            && i + |open| + |inner| < |data|
  {
    hide VarintBytes, Tag;
    AtThree(data, i, Tag(f.num, 3), FieldsBytes(f.fields), Tag(f.num, 4));
  }

  lemma {:induction false} SkipsGroup(data: Buffer, i: nat, f: Field, depth: nat)
    requires f.Group? && WellFormed(f) && At(data, i, FieldBytes(f))
    ensures SkipFrom(data, i, depth) == Resume(data, i + |FieldBytes(f)|, depth)
    decreases f, 0
  {
    hide At, FieldBytes, FieldsBytes, WellFormed, SkipFrom, Resume, Tag;
    AtNonEmpty(data, i, f);
    GroupParts(data, i, f);
    OpensGroup(data, i, f.num, depth);
    SkipsFields(data, i + |Tag(f.num, 3)|, f.fields, depth + 1);
    ClosesGroup(data, i + |Tag(f.num, 3)| + |FieldsBytes(f.fields)|, f.num, depth);
  }

  /** The depth counter of the skip loop matches nested groups: skipping a well-formed field lands
      exactly behind it, at any nesting. */
  lemma {:induction false} SkipsField(data: Buffer, i: nat, f: Field, depth: nat)
    requires WellFormed(f) && At(data, i, FieldBytes(f))
    ensures SkipFrom(data, i, depth) == Resume(data, i + |FieldBytes(f)|, depth)
    decreases f, 1
  {
    hide At, FieldBytes, WellFormed, SkipFrom, Resume;
    if f.Group? {
      SkipsGroup(data, i, f, depth);
    } else {
      SkipsScalar(data, i, f, depth);
    }
  }

  lemma {:induction false} SkipsFields(data: Buffer, i: nat, fields: seq<Field>, depth: nat)
    requires depth > 0 && At(data, i, FieldsBytes(fields))
    requires forall g | g in fields :: WellFormed(g)
    ensures SkipFrom(data, i, depth) == SkipFrom(data, i + |FieldsBytes(fields)|, depth)
    decreases fields, 2
  {
    hide At, FieldBytes, SkipFrom;
    if fields != [] {
      AtSplit(data, i, FieldBytes(fields[0]), FieldsBytes(fields[1..]));
      SkipsField(data, i, fields[0], depth);
      SkipsFields(data, i + |FieldBytes(fields[0])|, fields[1..], depth);
    }
  }

  function FieldType(f: Field): nat {
    match f
    case VarintField(_, _) => 0
    case Fixed64(_, _) => 1
    case Delimited(_, _) => 2
    case Group(_, _) => 3
    case Fixed32(_, _) => 5
  }

  lemma StartsWithTag(data: bytes, i: nat, f: Field)
    requires WellFormed(f) && At(data, i, FieldBytes(f))
    ensures At(data, i, Tag(f.num, FieldType(f)))
  {
    var t := Tag(f.num, FieldType(f));
    assert t <= FieldBytes(f);
    AtSplit(data, i, t, FieldBytes(f)[|t|..]);
  }

  lemma AtSuffix(data: bytes, i: nat, piece: bytes)
    requires At(data, i, piece)
    ensures At(data[i..], 0, piece)
  {
    assert data[i..][0..0 + |piece|] == data[i..i + |piece|];
  }

  lemma SkipsWithin(data: Buffer, i: nat, f: Field)
    requires WellFormed(f) && i <= |data| && At(data, i, FieldBytes(f))
    ensures SkipWithin(data, i, |data|) == Ok(i + |FieldBytes(f)|)
  {
    AtNonEmpty(data, i, f);
    AtSuffix(data, i, FieldBytes(f));
    hide At, WellFormed, FieldBytes, SkipFrom;
    SkipsField(data[i..], 0, f, 0);
  }

  lemma UnknownRound(data: Buffer, i: nat, tag: Read, next: nat, m: Prices)
    requires i < |data| && ReadVarint(data, i, 0, 0) == Ok(tag)
    requires ToInt32(tag.value / 8) >= 2 && tag.value % 8 != 4
    requires SkipWithin(data, i, |data|) == Ok(next)
    ensures ParseFrom(data, i, m) == ParseFrom(data, next, m)
  {
    hide ReadVarint, SkipWithin, PayloadEnd, ParseEntry;
  }

  lemma SkipsUnknown(data: Buffer, i: nat, f: Field, m: Prices)
    requires WellFormed(f) && f.num >= 2 && At(data, i, FieldBytes(f))
    ensures i + |FieldBytes(f)| <= |data|
    ensures ParseFrom(data, i, m) == ParseFrom(data, i + |FieldBytes(f)|, m)
  {
    AtNonEmpty(data, i, f);
    assert f.num < FIELD_NUMBERS;
    hide At, WellFormed, FieldBytes, SkipWithin, ReadVarint, Tag, ParseFrom;
    SkipsWithin(data, i, f);
    StartsWithTag(data, i, f);
    ReadTag(data, i, f.num, FieldType(f));
    TagNumbers(f.num, FieldType(f));
    UnknownRound(data, i, Read(8 * f.num + FieldType(f), i + |Tag(f.num, FieldType(f))|), i + |FieldBytes(f)|, m);
  }

  // ---------------------------------------------------------------- whole messages

  /** What a message may hold: price entries, and fields of a later schema. */
  datatype Item = PriceItem(k: uint64, v: bytes) | UnknownItem(f: Field)

  ghost predicate Admissible(item: Item) {
    item.UnknownItem? ==> WellFormed(item.f) && item.f.num >= 2
  }

  function ItemBytes(item: Item): bytes {
    match item
    case PriceItem(k, v) => Entry(k, v)
    case UnknownItem(f) => FieldBytes(f)
  }

  function MessageBytes(items: seq<Item>): bytes {
    if items == [] then [] else ItemBytes(items[0]) + MessageBytes(items[1..])
  }

  function Bound(m: Prices, item: Item): Prices {
    if item.PriceItem? then m[item.k := item.v] else m
  }

  /** Later entries win, unknown fields count for nothing. */
  function Bindings(m: Prices, items: seq<Item>): Prices
    decreases |items|
  {
    if items == [] then m else Bindings(Bound(m, items[0]), items[1..])
  }

  lemma ParsesItem(data: Buffer, i: nat, item: Item, m: Prices)
    requires Admissible(item) && At(data, i, ItemBytes(item))
    ensures i + |ItemBytes(item)| <= |data|
    ensures ParseFrom(data, i, m) == ParseFrom(data, i + |ItemBytes(item)|, Bound(m, item))
  {
    hide ParseFrom, Entry, FieldBytes;
    match item
    case PriceItem(k, v) => ParsesEntry(data, i, k, v, m);
    case UnknownItem(f) => SkipsUnknown(data, i, f, m);
  }

  lemma MessageParts(data: bytes, i: nat, items: seq<Item>)
    requires At(data, i, MessageBytes(items))
    ensures items == [] ==> |MessageBytes(items)| == 0
    ensures items != [] ==>
              && |MessageBytes(items)| == |ItemBytes(items[0])| + |MessageBytes(items[1..])|
              && At(data, i, ItemBytes(items[0]))
              && At(data, i + |ItemBytes(items[0])|, MessageBytes(items[1..]))
  {
    hide ItemBytes;
    if items != [] {
      AtSplit(data, i, ItemBytes(items[0]), MessageBytes(items[1..]));
    }
  }

  lemma ParsesNothing(data: Buffer, m: Prices)
    ensures ParseFrom(data, |data|, m) == Ok(m)
  {
  }

  lemma {:induction false} ParsesItems(data: Buffer, i: nat, items: seq<Item>, m: Prices)
    requires forall item | item in items :: Admissible(item)
    requires At(data, i, MessageBytes(items)) && i + |MessageBytes(items)| == |data|
    ensures ParseFrom(data, i, m) == Ok(Bindings(m, items))
    decreases |items|
  {
    hide At, ItemBytes, MessageBytes, ParseFrom, Admissible;
    MessageParts(data, i, items);
    if items == [] {
      ParsesNothing(data, m);
    } else {
      ParsesItem(data, i, items[0], m);
      ParsesItems(data, i + |ItemBytes(items[0])|, items[1..], Bound(m, items[0]));
    }
  }

  /** Decoding a message with unknown fields yields exactly its price entries. */
  lemma DecodesMessage(items: seq<Item>)
    requires forall item | item in items :: Admissible(item)
    requires |MessageBytes(items)| < TWO_63
    ensures Parse(MessageBytes(items)) == Ok(Bindings(map[], items))
  {
    var data: Buffer := MessageBytes(items);
    assert data[0..0 + |data|] == data;
    ParsesItems(data, 0, items, map[]);
  }

  // ---------------------------------------------------------------- round trip

  function PriceItems(m: Prices, order: seq<uint64>): seq<Item>
    requires forall k | k in order :: k in m
  {
    if order == [] then [] else [PriceItem(order[0], m[order[0]])] + PriceItems(m, order[1..])
  }

  lemma {:induction false} WireIsMessage(m: Prices, order: seq<uint64>)
    requires forall k | k in order :: k in m
    ensures MessageBytes(PriceItems(m, order)) == WireOf(m, order)
    ensures forall item | item in PriceItems(m, order) :: Admissible(item)
  {
    hide Entry;
    if order != [] {
      WireIsMessage(m, order[1..]);
      assert PriceItems(m, order)[1..] == PriceItems(m, order[1..]);
    }
  }

  lemma {:induction false} BindingsOfItems(m: Prices, order: seq<uint64>, seen: Prices)
    requires forall k | k in order :: k in m
    ensures var out := Bindings(seen, PriceItems(m, order));
            && (forall k :: k in out <==> k in seen || k in order)
            && (forall k | k in out :: out[k] == if k in order then m[k] else seen[k])
    decreases |order|
  {
    if order != [] {
      var k := order[0];
      assert PriceItems(m, order)[1..] == PriceItems(m, order[1..]);
      BindingsOfItems(m, order[1..], seen[k := m[k]]);
      assert order == [k] + order[1..];
    }
  }

  /** Unmarshal(Marshal(m)) == m, whatever order the marshaller visited the map in. */
  lemma RoundTrip(m: Prices, order: seq<uint64>)
    requires Enumerates(order, m)
    requires forall k | k in order :: k in m
    requires |WireOf(m, order)| < TWO_63
    ensures Parse(WireOf(m, order)) == Ok(m)
  {
    hide Parse, Bindings, PriceItems, WireOf;
    WireIsMessage(m, order);
    DecodesMessage(PriceItems(m, order));
    ItemsBindTheMap(m, order);
  }

  lemma ItemsBindTheMap(m: Prices, order: seq<uint64>)
    requires Enumerates(order, m)
    requires forall k | k in order :: k in m
    ensures Bindings(map[], PriceItems(m, order)) == m
  {
    BindingsOfItems(m, order, map[]);
    assert forall k :: k in order <==> k in m.Keys;
  }

  lemma EnumeratedKeys(m: Prices, order: seq<uint64>)
    requires Enumerates(order, m)
    ensures forall k | k in order :: k in m
  {
    assert forall k | k in order :: k in set x | x in order;
  }

  /** The codec as a node runs it: encode, then decode the bytes again. */
  method EncodeThenDecode(m: Prices) returns (r: Result<Prices, Error>)
    requires Sum(m.Keys, Sizes(m)) < TWO_63 // a longer slice cannot be made
    ensures r == Ok(m)
  {
    var dAtA, order := Marshal(m);
    EnumeratedKeys(m, order);
    RoundTrip(m, order);
    r := Unmarshal(dAtA[..]);
  }
}
