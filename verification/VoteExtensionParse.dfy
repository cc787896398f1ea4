/** Unmarshal and skipVoteExtensions. Both are total on every byte string a Go slice can hold: the
    index only moves forward and never leaves the buffer. */
module VoteExtensionParse {
  import opened Wrappers
  import opened Varint
  import opened VoteExtensionWire

  /** A Go slice is never longer than an int can count. */
  type Buffer = s: bytes | |s| < TWO_63

  // ---------------------------------------------------------------- skipping one field

  datatype Skip = Skip(next: nat, depth: nat)

  /** One round of the skip loop: a tag and its payload, or a group delimiter. The new index may lie
      beyond the buffer; a negative one (an overflowed addition) is an error. */
  function SkipRound(data: Buffer, i: nat, depth: nat): (r: Result<Skip, Error>)
    requires i < |data|
    ensures r.Ok? ==> r.value.next > i
  {
    var tag :- ReadVarint(data, i, 0, 0);
    match tag.value % 8
    case 0 =>
      var v :- ReadVarint(data, tag.next, 0, 0);
      Ok(Skip(v.next, depth))
    case 1 => Advance(tag.next, 8, depth)
    case 2 =>
      var len :- ReadVarint(data, tag.next, 0, 0);
      if ToInt64(len.value) < 0 then Err(InvalidLength)
      else Advance(len.next, ToInt64(len.value), depth)
    case 3 => Ok(Skip(tag.next, depth + 1))
    case 4 => if depth == 0 then Err(UnexpectedEndOfGroup) else Ok(Skip(tag.next, depth - 1))
    case 5 => Advance(tag.next, 4, depth)
    case _ => Err(IllegalWireType)
  }

  function Advance(i: nat, count: nat, depth: nat): (r: Result<Skip, Error>)
    requires i < TWO_63 && count < TWO_63
    ensures r.Ok? ==> r.value.next == i + count
  {
    if AddInt64(i, count) < 0 then Err(InvalidLength) else Ok(Skip(AddInt64(i, count), depth))
  }

  /** The length of the field that starts at i, groups included. */
  function SkipFrom(data: Buffer, i: nat, depth: nat): (r: Result<nat, Error>)
    ensures r.Ok? ==> r.value > i
    decreases |data| - i
  {
    if i >= |data| then Err(UnexpectedEOF)
    else
      var round :- SkipRound(data, i, depth);
      if round.depth == 0 then Ok(round.next)
      else SkipFrom(data, round.next, round.depth)
  }

  /** The switch on the wire type inside the skip loop. */
  method SkipOne(data: Buffer, i: nat, depth: nat) returns (r: Result<Skip, Error>)
    requires i < |data|
    ensures r == SkipRound(data, i, depth)
  {
    hide ReadVarint;
    var tag :- DecodeVarint(data, i, 0);
    var next: int, newDepth := tag.next, depth;
    match tag.value % 8 {
      case 0 =>
        var v :- DecodeVarint(data, next, 0);
        next := v.next;
      case 1 =>
        next := AddInt64(next, 8);
      case 2 =>
        var len :- DecodeVarint(data, next, 0);
        if ToInt64(len.value) < 0 {
          return Err(InvalidLength);
        }
        next := AddInt64(len.next, ToInt64(len.value));
      case 3 =>
        newDepth := depth + 1;
      case 4 =>
        if depth == 0 {
          return Err(UnexpectedEndOfGroup);
        }
        newDepth := depth - 1;
      case 5 =>
        next := AddInt64(next, 4);
      case _ =>
        return Err(IllegalWireType);
    }
    if next < 0 {
      return Err(InvalidLength);
    }
    return Ok(Skip(next, newDepth));
  }

  method SkipVoteExtensions(data: Buffer) returns (r: Result<nat, Error>)
    ensures r == SkipFrom(data, 0, 0)
    ensures r.Ok? ==> r.value >= 1
  {
    hide SkipRound;
    var i, depth := 0, 0;
    while i < |data|
      invariant SkipFrom(data, 0, 0) == SkipFrom(data, i, depth)
    {
      var round :- SkipOne(data, i, depth);
      if round.depth == 0 {
        return Ok(round.next);
      }
      i, depth := round.next, round.depth;
    }
    return Err(UnexpectedEOF);
  }

  // ---------------------------------------------------------------- one map entry

  datatype KeyValue = KeyValue(key: uint64, value: bytes)

  /** A length-delimited payload that must end inside the buffer. */
  function PayloadEnd(data: Buffer, i: nat, length: uint64): (r: Result<nat, Error>)
    requires i <= |data|
    ensures r.Ok? ==> i <= r.value <= |data|
  {
    if ToInt64(length) < 0 then Err(InvalidLength)
    else if AddInt64(i, ToInt64(length)) < 0 then Err(InvalidLength)
    else if AddInt64(i, ToInt64(length)) > |data| then Err(UnexpectedEOF)
    else Ok(AddInt64(i, ToInt64(length)))
  }

  /** An unknown field from i on, which must end by `limit`. */
  function SkipWithin(data: Buffer, i: nat, limit: nat): (r: Result<nat, Error>)
    requires i <= limit <= |data|
    ensures r.Ok? ==> i < r.value <= limit
  {
    var n :- SkipFrom(data[i..], 0, 0);
    if i + n >= TWO_63 then Err(InvalidLength)
    else if i + n > limit then Err(UnexpectedEOF)
    else Ok(i + n)
  }

  /** The fields of an entry from i to `post`. A repeated key is or-ed into the earlier one, and a
      value may run past `post` as long as it stays inside the buffer: both as the code does. */
  function ParseEntry(data: Buffer, i: nat, post: nat, kv: KeyValue): (r: Result<KeyValue, Error>)
    requires i <= |data| && post <= |data|
    decreases |data| - i
  {
    if i >= post then Ok(kv)
    else
      var tag :- ReadVarint(data, i, 0, 0);
      var fieldNum := ToInt32(tag.value / 8);
      if fieldNum == 1 then
        var key :- ReadVarint(data, tag.next, 0, kv.key);
        ParseEntry(data, key.next, post, kv.(key := key.value))
      else if fieldNum == 2 then
        var len :- ReadVarint(data, tag.next, 0, 0);
        var end :- PayloadEnd(data, len.next, len.value);
        ParseEntry(data, end, post, kv.(value := data[len.next..end]))
      else
        var next :- SkipWithin(data, i, post);
        ParseEntry(data, next, post, kv)
  }

  method UnmarshalEntry(data: Buffer, start: nat, post: nat) returns (r: Result<KeyValue, Error>)
    requires start <= post <= |data|
    ensures r == ParseEntry(data, start, post, KeyValue(0, []))
  {
    hide ReadVarint, SkipFrom, PayloadEnd;
    var i, kv := start, KeyValue(0, []);
    while i < post
      invariant i <= |data|
      invariant ParseEntry(data, start, post, KeyValue(0, [])) == ParseEntry(data, i, post, kv)
      decreases |data| - i
    {
      var tag :- DecodeVarint(data, i, 0);
      var fieldNum := ToInt32(tag.value / 8);
      if fieldNum == 1 {
        var key :- DecodeVarint(data, tag.next, kv.key);
        i, kv := key.next, kv.(key := key.value);
      } else if fieldNum == 2 {
        var len :- DecodeVarint(data, tag.next, 0);
        var end :- PayloadEnd(data, len.next, len.value);
        i, kv := end, kv.(value := data[len.next..end]);
      } else {
        var n :- SkipVoteExtensions(data[i..]);
        if i + n >= TWO_63 {
          return Err(InvalidLength);
        }
        if i + n > post {
          return Err(UnexpectedEOF);
        }
        i := i + n;
      }
    }
    return Ok(kv);
  }

  // ---------------------------------------------------------------- the message

  function ParseFrom(data: Buffer, i: nat, m: Prices): Result<Prices, Error>
    requires i <= |data|
    decreases |data| - i
  {
    if i == |data| then Ok(m)
    else
      var tag :- ReadVarint(data, i, 0, 0);
      var fieldNum, wireType := ToInt32(tag.value / 8), tag.value % 8;
      if wireType == 4 then Err(EndGroupForNonGroup)
      else if fieldNum <= 0 then Err(IllegalTag)
      else if fieldNum == 1 then
        if wireType != 2 then Err(WrongWireType)
        else
          var len :- ReadVarint(data, tag.next, 0, 0);
          var post :- PayloadEnd(data, len.next, len.value);
          var kv :- ParseEntry(data, len.next, post, KeyValue(0, []));
          ParseFrom(data, post, m[kv.key := kv.value])
      else
        var next :- SkipWithin(data, i, |data|);
        ParseFrom(data, next, m)
  }

  function Parse(data: Buffer): Result<Prices, Error> {
    ParseFrom(data, 0, map[])
  }

  method Unmarshal(data: Buffer) returns (r: Result<Prices, Error>)
    ensures r == Parse(data)
  {
    hide ReadVarint, SkipFrom, PayloadEnd, ParseEntry;
    var i, m: Prices := 0, map[];
    while i < |data|
      invariant i <= |data|
      invariant Parse(data) == ParseFrom(data, i, m)
    {
      var tag :- DecodeVarint(data, i, 0);
      var fieldNum, wireType := ToInt32(tag.value / 8), tag.value % 8;
      if wireType == 4 {
        return Err(EndGroupForNonGroup);
      }
      if fieldNum <= 0 {
        return Err(IllegalTag);
      }
      if fieldNum == 1 {
        if wireType != 2 {
          return Err(WrongWireType);
        }
        var len :- DecodeVarint(data, tag.next, 0);
        var post :- PayloadEnd(data, len.next, len.value);
        var kv :- UnmarshalEntry(data, len.next, post);
        m := m[kv.key := kv.value];
        i := post;
      } else {
        var n :- SkipVoteExtensions(data[i..]);
        if i + n >= TWO_63 {
          return Err(InvalidLength);
        }
        if i + n > |data| {
          return Err(UnexpectedEOF);
        }
        i := i + n;
      }
    }
    return Ok(m);
  }
}
