/** The vote extension codecs a node is configured with: the plain one, and the one that compresses its
    bytes. Both rest on the generated marshaller and parser. */
module ExtensionCodec {
  import opened Wrappers
  import opened Varint
  import opened VoteExtensionWire
  import opened VoteExtensionParse
  import VoteExtensionRoundTrip
  import Proposals

  datatype Compressor = Compressor(compress: bytes -> Option<bytes>, decompress: bytes -> Option<Buffer>)

  datatype Codec = Plain | Compressing(compressor: Compressor)

  /** Decompression undoes compression, and empty bytes decompress to empty bytes. */
  ghost predicate Lossless(codec: Codec) {
    codec.Compressing? ==>
      && codec.compressor.decompress([]) == Some([])
      && forall raw: Buffer | codec.compressor.compress(raw).Some? ::
           codec.compressor.decompress(codec.compressor.compress(raw).value) == Some(raw)
  }

  /** The bytes that leave the codec for a marshalled extension. No slice is longer than an int can count. */
  function Packed(codec: Codec, raw: bytes): Result<bytes, Proposals.ProposalError> {
    if |raw| >= TWO_63 then Err(Proposals.CodecFailure)
    else match codec
      case Plain => Ok(raw)
      case Compressing(c) => if c.compress(raw).Some? then Ok(c.compress(raw).value) else Err(Proposals.CodecFailure)
  }

  function Unpacked(codec: Codec, bz: bytes): Option<Buffer> {
    match codec
    case Plain => if |bz| < TWO_63 then Some(bz) else None
    case Compressing(c) => c.decompress(bz)
  }

  /** r is what encoding ve can answer, in some order of its map. */
  ghost predicate IsEncoding(codec: Codec, ve: Prices, r: Result<bytes, Proposals.ProposalError>) {
    exists order :: Enumerates(order, ve) && (forall k | k in order :: k in ve) && r == Packed(codec, WireOf(ve, order))
  }

  function Decoded(codec: Codec, bz: bytes): Result<Prices, Proposals.ProposalError> {
    match Unpacked(codec, bz)
    case None => Err(Proposals.CodecFailure)
    case Some(raw) => if Parse(raw).Ok? then Ok(Parse(raw).value) else Err(Proposals.CodecFailure)
  }

  method Encode(codec: Codec, ve: Prices) returns (r: Result<bytes, Proposals.ProposalError>)
    ensures IsEncoding(codec, ve, r)
  {
    var dAtA, order := Marshal(ve);
    VoteExtensionRoundTrip.EnumeratedKeys(ve, order);
    r := Packed(codec, dAtA[..]);
  }

  method Decode(codec: Codec, bz: bytes) returns (r: Result<Prices, Proposals.ProposalError>)
    ensures r == Decoded(codec, bz)
  {
    var raw := Unpacked(codec, bz);
    if raw.None? {
      return Err(Proposals.CodecFailure);
    }
    var ve := Unmarshal(raw.value);
    return if ve.Ok? then Ok(ve.value) else Err(Proposals.CodecFailure);
  }

  /** Whatever order the map was marshalled in, with or without compression. */
  lemma DecodeUndoesEncode(codec: Codec, ve: Prices, r: Result<bytes, Proposals.ProposalError>)
    requires Lossless(codec) && IsEncoding(codec, ve, r) && r.Ok?
    ensures Decoded(codec, r.value) == Ok(ve)
  {
    hide Parse, WireOf, Enumerates;
    var order :| Enumerates(order, ve) && (forall k | k in order :: k in ve) && r == Packed(codec, WireOf(ve, order));
    VoteExtensionRoundTrip.RoundTrip(ve, order);
    var raw: Buffer := WireOf(ve, order);
    assert Unpacked(codec, r.value) == Some(raw);
  }

  lemma EmptyDecodes(codec: Codec)
    requires Lossless(codec)
    ensures Decoded(codec, []) == Ok(map[])
  {
    assert Parse([]) == Ok(map[]);
  }

  /** The handler decodes vote extensions with this codec. */
  ghost predicate Uses(h: Proposals.Config, codec: Codec) {
    forall bz :: h.decodeExtension(bz) == Decoded(codec, bz)
  }
}
