/**
 * The four foreign codec classes BinaryString dispatches to (Base02Utils,
 * Base16Utils, Base32Utils and Base64Utils). Their algorithms are not part of
 * this model: each codec is a pair of functions handed in by the caller, and
 * the only thing ever assumed of it is the round-trip predicate below.
 */
module Codecs {
  import opened Errors
  import opened JavaLang

  /** encode(bytes, indentation) and decode(string) of one base. */
  datatype Codec = Codec(encode: (seq<int8>, string) -> string, decode: string -> Result<seq<int8>>)

  /** The codec of every supported base. */
  datatype CodecSuite = CodecSuite(base02: Codec, base16: Codec, base32: Codec, base64: Codec)

  predicate IsSupportedBase(base: int)
  {
    base == 2 || base == 16 || base == 32 || base == 64
  }

  /** The switch on the base: bases other than 2, 16, 32 and 64 raise NumberFormatException. */
  function Select(codecs: CodecSuite, base: int): (r: Result<Codec>)
    ensures base == 2 ==> r == Success(codecs.base02)
    ensures base == 16 ==> r == Success(codecs.base16)
    ensures base == 32 ==> r == Success(codecs.base32)
    ensures base == 64 ==> r == Success(codecs.base64)
    ensures r.Success? <==> IsSupportedBase(base)
    ensures r.Failure? ==> r.error == NumberFormat
  {
    if base == 2 then Success(codecs.base02)
    else if base == 16 then Success(codecs.base16)
    else if base == 32 then Success(codecs.base32)
    else if base == 64 then Success(codecs.base64)
    else Failure(NumberFormat)
  }

  /** Decoding an unindented encoding gives back the bytes. */
  ghost predicate RoundTrips(codec: Codec)
  {
    forall bytes: seq<int8> :: codec.decode(codec.encode(bytes, "")) == Success(bytes)
  }

  ghost predicate AllRoundTrip(codecs: CodecSuite)
  {
    RoundTrips(codecs.base02) && RoundTrips(codecs.base16) && RoundTrips(codecs.base32) && RoundTrips(codecs.base64)
  }
}
