/**
 * Tag: a self-hashing unique identifier. A tag keeps the number of bytes it was
 * made from, a hash taken from those bytes and their base 32 string; its bytes
 * are recovered by decoding the string again.
 */
module Tags {
  import opened Errors
  import opened JavaLang
  import opened Codecs
  import Ordering

  /** The number of random bytes of a tag made by the default constructor. */
  const DefaultTagSize: int32 := 20

  /**
   * The foreign helpers a tag calls: the base 32 codec (Base32Utils, whose
   * one-argument encode is the unindented encoding) and ByteUtils.bytesToInt.
   */
  datatype Externals = Externals(base32: Codec, bytesToInt: seq<int8> -> int32)

  datatype Tag = Tag(tagSize: int, hash: int32, text: string)

  /** A tag whose size and hash are those of the bytes its string decodes to. */
  ghost predicate Coherent(ext: Externals, t: Tag)
  {
    var bytes := ext.base32.decode(t.text);
    bytes.Success? && t.tagSize == |bytes.value| && t.hash == ext.bytesToInt(bytes.value)
  }

  // ---------------------------------------------------------------------
  // Construction

  /** Tag(byte[]): the size, hash and base 32 string of the given bytes. */
  function FromBytes(ext: Externals, bytes: seq<int8>): (t: Tag)
    ensures t.tagSize == |bytes| && HashCode(t) == ext.bytesToInt(bytes)
    ensures ToString(t) == ext.base32.encode(bytes, "")
  {
    Tag(|bytes|, ext.bytesToInt(bytes), ext.base32.encode(bytes, ""))
  }

  /**
   * Tag(int): a tag of tagSize random bytes. The random bytes
   * (RandomUtils.generateRandomBytes) are handed in.
   */
  function NewTag(ext: Externals, tagSize: int32, random: seq<int8>): (t: Tag)
    requires |random| == tagSize
    ensures t.tagSize == tagSize && HashCode(t) == ext.bytesToInt(random)
    ensures ToString(t) == ext.base32.encode(random, "")
  {
    Tag(tagSize, ext.bytesToInt(random), ext.base32.encode(random, ""))
  }

  /** Tag(): a tag of DefaultTagSize random bytes. */
  function NewDefaultTag(ext: Externals, random: seq<int8>): (t: Tag)
    requires |random| == DefaultTagSize
    ensures t.tagSize == 20 && HashCode(t) == ext.bytesToInt(random)
    ensures ToString(t) == ext.base32.encode(random, "")
  {
    Tag(DefaultTagSize, ext.bytesToInt(random), ext.base32.encode(random, ""))
  }

  /**
   * Tag(String): keeps the string as given and takes size and hash from its
   * decoding; a NumberFormatException of the decoder becomes an
   * IllegalArgumentException, any other failure passes through.
   */
  function FromString(ext: Externals, value: string): (r: Result<Tag>)
    ensures r.Success? <==> ext.base32.decode(value).Success?
    ensures r.Success? ==> ToString(r.value) == value && Coherent(ext, r.value)
    ensures ext.base32.decode(value) == Failure(NumberFormat) ==> r == Failure(IllegalArgument)
    ensures ext.base32.decode(value).Failure? && ext.base32.decode(value).error != NumberFormat
            ==> r == Failure(ext.base32.decode(value).error)
  {
    match ext.base32.decode(value)
    case Success(bytes) => Success(Tag(|bytes|, ext.bytesToInt(bytes), value))
    case Failure(NumberFormat) => Failure(IllegalArgument)
    case Failure(e) => Failure(e)
  }

  // ---------------------------------------------------------------------
  // Accessors

  /** toString: the base 32 string the tag was made from or with. */
  function ToString(t: Tag): (r: string)
    ensures r == t.text
  {
    t.text
  }

  /**
   * toBytes: decodes the string again. For a coherent tag these are tagSize
   * bytes whose bytesToInt is the hash.
   */
  function ToBytes(ext: Externals, t: Tag): (r: Result<seq<int8>>)
    ensures r == ext.base32.decode(ToString(t))
    ensures Coherent(ext, t) ==> r.Success? && |r.value| == t.tagSize && ext.bytesToInt(r.value) == HashCode(t)
  {
    ext.base32.decode(t.text)
  }

  /** hashCode: the hash fixed when the tag was made. */
  function HashCode(t: Tag): (r: int32)
    ensures r == t.hash
  {
    t.hash
  }

  // ---------------------------------------------------------------------
  // Equality and ordering

  /**
   * equals: false for null and for a different hash; otherwise the strings
   * decide.
   */
  function Equals(t: Tag, that: Option<Tag>): (r: bool)
    ensures r ==> that.Some? && HashCode(t) == HashCode(that.value) && ToString(t) == ToString(that.value)
    ensures that.Some? && HashCode(t) != HashCode(that.value) ==> !r
    ensures that.Some? && HashCode(t) == HashCode(that.value) ==> (r <==> ToString(t) == ToString(that.value))
  {
    that.Some? && t.hash == that.value.hash && t.text == that.value.text
  }

  /** compareTo: the signum of String.compareTo on the two strings. */
  function CompareTo(t: Tag, that: Tag): (r: int)
    ensures r in {-1, 0, 1}
  {
    Signum(StringCompareTo(t.text, that.text))
  }

  /** The signum of String.compareTo is the lexicographic order of the char codes. */
  lemma {:induction false} SignumStringCompareIsLex(a: string, b: string)
    ensures Signum(StringCompareTo(a, b)) == Ordering.Lex(Codes(a), Codes(b))
    decreases |a|
  {
    if a != [] && b != [] && a[0] == b[0] {
      SignumStringCompareIsLex(a[1..], b[1..]);
      assert Codes(a)[1..] == Codes(a[1..]) && Codes(b)[1..] == Codes(b[1..]);
    }
  }

  lemma CodesInjective(a: string, b: string)
    requires Codes(a) == Codes(b)
    ensures a == b
  {
    assert |a| == |b|;
    forall i | 0 <= i < |a|
      ensures a[i] == b[i]
    {
      assert Codes(a)[i] == Codes(b)[i];
    }
  }

  /** Tags are ordered by the char codes of their strings, first difference first. */
  lemma CompareToIsLex(t: Tag, that: Tag)
    ensures CompareTo(t, that) == Ordering.Lex(Codes(ToString(t)), Codes(ToString(that)))
  {
    SignumStringCompareIsLex(t.text, that.text);
  }

  lemma CompareToZeroIffSameString(t: Tag, that: Tag)
    ensures CompareTo(t, that) == 0 <==> ToString(t) == ToString(that)
  {
    CompareToIsLex(t, that);
    Ordering.LexZeroIffEqual(Codes(t.text), Codes(that.text));
    if Codes(t.text) == Codes(that.text) {
      CodesInjective(t.text, that.text);
    }
  }

  lemma CompareToAntisymmetric(t: Tag, that: Tag)
    ensures CompareTo(that, t) == -CompareTo(t, that)
  {
    CompareToIsLex(t, that);
    CompareToIsLex(that, t);
    Ordering.LexAntisymmetric(Codes(t.text), Codes(that.text));
  }

  lemma CompareToTransitive(a: Tag, b: Tag, c: Tag)
    requires CompareTo(a, b) == -1 && CompareTo(b, c) == -1
    ensures CompareTo(a, c) == -1
  {
    CompareToIsLex(a, b);
    CompareToIsLex(b, c);
    CompareToIsLex(a, c);
    Ordering.LexTransitive(Codes(a.text), Codes(b.text), Codes(c.text));
  }

  /** Between coherent tags, equals agrees with the string and with compareTo. */
  lemma EqualsIffSameString(ext: Externals, t: Tag, that: Tag)
    requires Coherent(ext, t) && Coherent(ext, that)
    ensures Equals(t, Some(that)) <==> ToString(t) == ToString(that)
    ensures Equals(t, Some(that)) <==> t == that
    ensures Equals(t, Some(that)) <==> CompareTo(t, that) == 0
  {
    CompareToZeroIffSameString(t, that);
  }

  /** Two tags made from bytes are equal exactly when the bytes are the same. */
  lemma EqualsIffSameBytes(ext: Externals, x: seq<int8>, y: seq<int8>)
    requires RoundTrips(ext.base32)
    ensures Equals(FromBytes(ext, x), Some(FromBytes(ext, y))) <==> x == y
  {
    if ext.base32.encode(x, "") == ext.base32.encode(y, "") {
      assert ext.base32.decode(ext.base32.encode(x, "")) == Success(x);
      assert ext.base32.decode(ext.base32.encode(y, "")) == Success(y);
    }
  }

  /**
   * The round trip of the unit test: a new tag, rebuilt from its bytes and
   * again from its string, is the same tag each time.
   */
  lemma RoundTrip(ext: Externals, tagSize: int32, random: seq<int8>)
    requires RoundTrips(ext.base32) && |random| == tagSize
    ensures ToBytes(ext, NewTag(ext, tagSize, random)) == Success(random)
    ensures FromBytes(ext, random) == NewTag(ext, tagSize, random)
    ensures FromString(ext, ToString(NewTag(ext, tagSize, random))) == Success(NewTag(ext, tagSize, random))
    ensures Coherent(ext, NewTag(ext, tagSize, random))
  {
    assert ext.base32.decode(ext.base32.encode(random, "")) == Success(random);
  }

  /** Under a round-tripping codec, every tag made from bytes is coherent. */
  lemma FromBytesCoherent(ext: Externals, bytes: seq<int8>)
    requires RoundTrips(ext.base32)
    ensures Coherent(ext, FromBytes(ext, bytes))
    ensures ToBytes(ext, FromBytes(ext, bytes)) == Success(bytes)
  {
    assert ext.base32.decode(ext.base32.encode(bytes, "")) == Success(bytes);
  }

  // ---------------------------------------------------------------------
  // String size

  /**
   * calculateStringSize: the number of 5-bit base 32 characters that hold
   * tagSize bytes, computed in 32-bit Java arithmetic.
   */
  function CalculateStringSize(tagSize: int32): (r: int32)
    ensures 0 <= tagSize <= MaxInt / 8 ==> 5 * (r - 1) < 8 * tagSize <= 5 * r
  {
    var numberOfBits := Wrap(tagSize * 8);
    var stringSize := Quotient(numberOfBits, 5);
    stringSize + if Remainder(numberOfBits, 5) > 0 then 1 else 0
  }

  /**
   * Beyond MaxInt / 8 bytes the 32-bit bit count wraps, so the result is no
   * longer the character count: it is negative from 2^28 bytes on and comes
   * back to 0 at 2^29 bytes.
   */
  lemma CalculateStringSizeWraps()
    ensures CalculateStringSize(0x1000_0000) == -429496729
    ensures CalculateStringSize(0x2000_0000) == 0
    ensures CalculateStringSize(0x2000_0001) == 2
  {
    assert Wrap(0x1000_0000 * 8) == MinInt;
    assert Wrap(0x2000_0000 * 8) == 0;
    assert Wrap(0x2000_0001 * 8) == 8;
  }
}
