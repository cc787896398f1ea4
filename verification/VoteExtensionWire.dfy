/** The generated codec of OracleVoteExtension: a marshaller that fills its buffer from the end
    towards index 0, and an unmarshaller that walks tags, entries and unknown fields. */
module VoteExtensionWire {
  import opened Wrappers
  import opened Varint
  import opened FiniteSums

  /** OracleVoteExtension.Prices. */
  type Prices = map<uint64, bytes>

  // ---------------------------------------------------------------- the wire format

  function ValueField(v: bytes): bytes {
    if v == [] then [] else [0x12] + VarintBytes(|v|) + v
  }

  function EntryBody(k: uint64, v: bytes): bytes {
    [0x08] + VarintBytes(k) + ValueField(v)
  }

  function Entry(k: uint64, v: bytes): bytes {
    [0x0a] + VarintBytes(|EntryBody(k, v)|) + EntryBody(k, v)
  }

  /** The entries of m in the given order. */
  function WireOf(m: Prices, order: seq<uint64>): bytes
    requires forall k | k in order :: k in m
  {
    if order == [] then [] else Entry(order[0], m[order[0]]) + WireOf(m, order[1..])
  }

  /** order lists every key of m exactly once. */
  ghost predicate Enumerates(order: seq<uint64>, m: Prices) {
    && (forall i, j :: 0 <= i < j < |order| ==> order[i] != order[j])
    && (set k | k in order) == m.Keys
  }

  ghost function Sizes(m: Prices): map<uint64, nat> {
    map k | k in m :: |Entry(k, m[k])|
  }

  // ---------------------------------------------------------------- marshalling

  function EntrySize(k: uint64, v: bytes): nat {
    var l := if |v| > 0 then 1 + |v| + Sov(|v|) else 0;
    var mapEntrySize := 1 + Sov(k) + l;
    mapEntrySize + 1 + Sov(mapEntrySize)
  }

  lemma EntrySizeIsLength(k: uint64, v: bytes)
    ensures EntrySize(k, v) == |Entry(k, v)|
  {
    SovIsLength(|v|);
    SovIsLength(k);
    SovIsLength(|EntryBody(k, v)|);
  }

  /** Size(), visiting the map in an arbitrary order. */
  method Size(m: Prices) returns (n: nat)
    ensures n == Sum(m.Keys, Sizes(m))
  {
    n := 0;
    var left := m.Keys;
    assert m.Keys - left == {};
    while left != {}
      invariant left <= m.Keys
      invariant n == Sum(m.Keys - left, Sizes(m))
    {
      var k :| k in left;
      EntrySizeIsLength(k, m[k]);
      SizeGrows(m, left, k);
      n := n + EntrySize(k, m[k]);
      left := left - {k};
    }
    assert m.Keys - left == m.Keys;
  }

  /** i--; dAtA[i] = b */
  method PutByte(dAtA: array<byte>, i: nat, b: byte) returns (at: nat)
    requires 1 <= i <= dAtA.Length
    modifies dAtA
    ensures at == i - 1 && dAtA[at..] == [b] + old(dAtA[i..])
  {
    at := i - 1;
    dAtA[at] := b;
  }

  /** i -= len(v); copy(dAtA[i:], v) */
  method PutBytes(dAtA: array<byte>, i: nat, v: bytes) returns (at: nat)
    requires |v| <= i <= dAtA.Length
    modifies dAtA
    ensures at == i - |v| && dAtA[at..] == v + old(dAtA[i..])
  {
    at := i - |v|;
    for j := 0 to |v|
      invariant dAtA[at..at + j] == v[..j]
      invariant dAtA[i..] == old(dAtA[i..])
    {
      dAtA[at + j] := v[j];
      assert dAtA[at..at + j + 1] == dAtA[at..at + j] + [v[j]];
    }
    assert dAtA[at..] == dAtA[at..i] + dAtA[i..];
  }

  lemma FourParts(a: bytes, b: bytes, c: bytes, d: bytes)
    ensures a + (b + (c + d)) == a + b + c + d
  {
    Assoc(a, b, c + d);
    Assoc(a + b, c, d);
  }

  method WriteValue(dAtA: array<byte>, i: nat, v: bytes) returns (at: nat)
    requires |ValueField(v)| <= i <= dAtA.Length
    modifies dAtA
    ensures at == i - |ValueField(v)| && dAtA[at..] == ValueField(v) + old(dAtA[i..])
  {
    at := i;
    if |v| > 0 {
      SovIsLength(|v|);
      ghost var tail := dAtA[i..];
      at := PutBytes(dAtA, at, v);
      at := EncodeVarint(dAtA, at, |v|);
      at := PutByte(dAtA, at, 0x12);
      FourParts([0x12], VarintBytes(|v|), v, tail);
    }
  }

  /** Writes one entry so that it ends just before i. */
  method WriteEntry(dAtA: array<byte>, i: nat, k: uint64, v: bytes) returns (at: nat)
    requires |Entry(k, v)| <= i <= dAtA.Length
    modifies dAtA
    ensures at == i - |Entry(k, v)| && dAtA[at..] == Entry(k, v) + old(dAtA[i..])
  {
    SovIsLength(k);
    SovIsLength(|EntryBody(k, v)|);
    ghost var tail, value, body := dAtA[i..], ValueField(v), EntryBody(k, v);
    at := WriteValue(dAtA, i, v);
    at := EncodeVarint(dAtA, at, k);
    at := PutByte(dAtA, at, 0x08);
    FourParts([0x08], VarintBytes(k), value, tail);
    at := EncodeVarint(dAtA, at, i - at);
    at := PutByte(dAtA, at, 0x0a);
    FourParts([0x0a], VarintBytes(|body|), body, tail);
  }

  ghost predicate Listing(order: seq<uint64>, m: Prices, keys: set<uint64>) {
    && (forall i, j :: 0 <= i < j < |order| ==> order[i] != order[j])
    && (set x | x in order) == keys
    && keys <= m.Keys
    && forall k | k in order :: k in m
  }

  /** k has not been visited: putting it in front keeps the order duplicate-free. */
  lemma OrderGrows(m: Prices, order: seq<uint64>, left: set<uint64>, k: uint64)
    requires left <= m.Keys && k in left && Listing(order, m, m.Keys - left)
    ensures Listing([k] + order, m, m.Keys - (left - {k}))
    ensures WireOf(m, [k] + order) == Entry(k, m[k]) + WireOf(m, order)
  {
    assert k !in set x | x in order;
    assert forall x :: x in [k] + order <==> x == k || x in order;
    assert forall x :: x in order <==> x in m.Keys - left;
    assert ([k] + order)[1..] == order;
  }

  lemma SizeGrows(m: Prices, left: set<uint64>, k: uint64)
    requires left <= m.Keys && k in left
    ensures Sum(m.Keys - (left - {k}), Sizes(m)) == Sum(m.Keys - left, Sizes(m)) + |Entry(k, m[k])|
    ensures Sum(m.Keys - (left - {k}), Sizes(m)) <= Sum(m.Keys, Sizes(m))
  {
    var done := m.Keys - (left - {k});
    SumRemove(done, Sizes(m), k);
    assert done - {k} == m.Keys - left;
    SumSubset(done, m.Keys, Sizes(m));
  }

  /** What the loop has done when `left` is still to come: the entries of the other keys, once each in
      front-to-back order, make up the end of the buffer from index i on. */
  ghost predicate Written(m: Prices, left: set<uint64>, order: seq<uint64>, tail: bytes) {
    && left <= m.Keys && Listing(order, m, m.Keys - left)
    && tail == WireOf(m, order) && |tail| == Sum(m.Keys - left, Sizes(m))
  }

  lemma NothingWritten(m: Prices)
    ensures Written(m, m.Keys, [], [])
  {
    assert m.Keys - m.Keys == {};
  }

  lemma OneMoreWritten(m: Prices, left: set<uint64>, order: seq<uint64>, tail: bytes, k: uint64)
    requires Written(m, left, order, tail) && k in left
    ensures Written(m, left - {k}, [k] + order, Entry(k, m[k]) + tail)
    ensures |Entry(k, m[k])| + |tail| <= Sum(m.Keys, Sizes(m))
  {
    hide Entry, Sum, Sizes;
    OrderGrows(m, order, left, k);
    SizeGrows(m, left, k);
  }

  lemma AllWritten(m: Prices, order: seq<uint64>, tail: bytes)
    requires Written(m, {}, order, tail)
    ensures Enumerates(order, m) && (forall k | k in order :: k in m) && tail == WireOf(m, order)
            && |tail| == Sum(m.Keys, Sizes(m))
  {
    assert m.Keys - {} == m.Keys;
  }

  /** MarshalToSizedBuffer: every visited entry goes in front of the ones already written. */
  method MarshalToSizedBuffer(m: Prices, dAtA: array<byte>) returns (n: nat, ghost order: seq<uint64>)
    requires Sum(m.Keys, Sizes(m)) <= dAtA.Length
    modifies dAtA
    ensures n == Sum(m.Keys, Sizes(m))
    ensures Enumerates(order, m)
    ensures dAtA[dAtA.Length - n..] == WireOf(m, order)
  {
    hide Written, Entry, Sum, Sizes, WireOf;
    var i := dAtA.Length;
    order := [];
    var left := m.Keys;
    NothingWritten(m);
    assert dAtA[i..] == [];
    while left != {}
      invariant 0 <= i <= dAtA.Length
      invariant Written(m, left, order, dAtA[i..])
    {
      var k :| k in left;
      WrittenKeys(m, left, order, dAtA[i..]);
      OneMoreWritten(m, left, order, dAtA[i..], k);
      i := WriteEntry(dAtA, i, k, m[k]);
      order := [k] + order;
      left := left - {k};
    }
    AllWritten(m, order, dAtA[i..]);
    n := dAtA.Length - i;
  }

  lemma WrittenKeys(m: Prices, left: set<uint64>, order: seq<uint64>, tail: bytes)
    requires Written(m, left, order, tail)
    ensures left <= m.Keys
  {
  }

  /** Marshal: the buffer is exactly filled, down to index 0. */
  method Marshal(m: Prices) returns (dAtA: array<byte>, ghost order: seq<uint64>)
    ensures fresh(dAtA)
    ensures Enumerates(order, m) && dAtA[..] == WireOf(m, order)
    ensures dAtA.Length == Sum(m.Keys, Sizes(m))
  {
    var size := Size(m);
    dAtA := new byte[size](_ => 0);
    var n;
    n, order := MarshalToSizedBuffer(m, dAtA);
    assert dAtA[dAtA.Length - n..] == dAtA[..];
  }
}
