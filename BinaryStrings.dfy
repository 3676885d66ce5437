/**
 * BinaryString: an immutable byte sequence that can be written and read in
 * base 2, 16, 32 or 64. The byte array of the Java class is modelled as a
 * sequence, so the value cannot be changed through any array once built;
 * the methods that take or give arrays copy them.
 */
module BinaryStrings {
  import opened Errors
  import opened JavaLang
  import opened Codecs
  import Ordering

  datatype BinaryString = BinaryString(bytes: seq<int8>)

  /** ByteUtils.byteToUnsigned: the byte read as a value in 0..255. */
  function ByteToUnsigned(b: int8): (r: int)
    ensures 0 <= r < 256
    ensures r == b % 256
  {
    if b < 0 then b + 256 else b
  }

  /** The unsigned values of the bytes, in order. */
  function Unsigneds(bytes: seq<int8>): (r: seq<int>)
    ensures |r| == |bytes|
    ensures forall i :: 0 <= i < |bytes| ==> r[i] == ByteToUnsigned(bytes[i])
  {
    seq(|bytes|, i requires 0 <= i < |bytes| => ByteToUnsigned(bytes[i]))
  }

  lemma UnsignedsInjective(a: seq<int8>, b: seq<int8>)
    requires Unsigneds(a) == Unsigneds(b)
    ensures a == b
  {
    forall i | 0 <= i < |a| ensures a[i] == b[i] {
      assert ByteToUnsigned(a[i]) == Unsigneds(a)[i] == Unsigneds(b)[i] == ByteToUnsigned(b[i]);
    }
  }

  // ---------------------------------------------------------------------
  // Construction

  /** BinaryString(): the empty binary string. */
  function Empty(): (s: BinaryString)
    ensures IsEmpty(s) && NumberOfElements(s) == 0
  {
    BinaryString([])
  }

  /** BinaryString(byte[]): keeps a copy of the array's current contents. */
  method FromBytes(bytes: array<int8>) returns (s: BinaryString)
    ensures s.bytes == bytes[..]
  {
    s := BinaryString(bytes[..]);
  }

  /** BinaryString(Byte[]): copies the boxed bytes one by one into a new array. */
  method FromBoxedBytes(bytes: array<int8>) returns (s: BinaryString)
    ensures s.bytes == bytes[..]
  {
    var size := bytes.Length;
    var copy := new int8[size];
    for i := 0 to size
      invariant copy[..i] == bytes[..i]
    {
      copy[i] := bytes[i];
    }
    s := BinaryString(copy[..]);
  }

  /** BinaryString(String, int): decodes the string with the codec of the base. */
  function Decode(codecs: CodecSuite, text: string, base: int): (r: Result<BinaryString>)
    ensures !IsSupportedBase(base) ==> r == Failure(NumberFormat)
    ensures IsSupportedBase(base) ==> (r.Success? <==> Select(codecs, base).value.decode(text).Success?)
    ensures r.Success? ==> Select(codecs, base).value.decode(text) == Success(r.value.bytes)
    ensures IsSupportedBase(base) && r.Failure? ==> Select(codecs, base).value.decode(text) == Failure(r.error)
  {
    match Select(codecs, base)
    case Failure(e) => Failure(e)
    case Success(codec) =>
      match codec.decode(text)
      case Failure(e) => Failure(e)
      case Success(bytes) => Success(BinaryString(bytes))
  }

  // ---------------------------------------------------------------------
  // Comparison and equality

  /** compareTo on a non-null argument: lexicographic over the unsigned byte values. */
  function Compare(s: BinaryString, that: BinaryString): (r: int)
    ensures r in {-1, 0, 1}
  {
    Ordering.Lex(Unsigneds(s.bytes), Unsigneds(that.bytes))
  }

  /**
   * compareTo: walks both strings with their iterators until the first pair of
   * bytes whose unsigned values differ; if none does, the shorter string is less.
   * A null argument compares as 1.
   */
  method CompareTo(s: BinaryString, that: Option<BinaryString>) returns (result: int)
    ensures that.None? ==> result == 1
    ensures that.Some? ==> result == Compare(s, that.value)
  {
    if that.None? {
      return 1;
    }
    var other := that.value;
    ghost var a, b := Unsigneds(s.bytes), Unsigneds(other.bytes);
    result := 0;
    var thisIterator := new BinaryIterator(s);
    var thatIterator := new BinaryIterator(other);
    while thisIterator.HasNext() && thatIterator.HasNext()
      invariant thisIterator.Valid() && thatIterator.Valid()
      invariant thisIterator.index == thatIterator.index
      invariant result == 0
      invariant Ordering.Lex(a, b) == Ordering.Lex(a[thisIterator.index..], b[thisIterator.index..])
      decreases |s.bytes| - thisIterator.index
    {
      ghost var i := thisIterator.index;
      var thisElement := thisIterator.Next();
      var thatElement := thatIterator.Next();
      result := IntegerCompare(ByteToUnsigned(thisElement.value), ByteToUnsigned(thatElement.value));
      Ordering.LexStep(a, b, i);
      if result != 0 {
        break;
      }
    }
    if result == 0 {
      // same so far: the lengths decide
      result := IntegerCompare(NumberOfElements(s), NumberOfElements(other));
    }
  }

  /** equals: a non-null binary string argument with the same bytes, element by element. */
  function Equals(s: BinaryString, that: Option<BinaryString>): (r: bool)
    ensures r <==> that.Some? && |s.bytes| == |that.value.bytes|
                   && forall i :: 0 <= i < |s.bytes| ==> s.bytes[i] == that.value.bytes[i]
  {
    that.Some? && s.bytes == that.value.bytes
  }

  /** compareTo answers 0 exactly when equals holds. */
  lemma {:induction false} CompareZeroIffEquals(s: BinaryString, that: BinaryString)
    ensures Compare(s, that) == 0 <==> Equals(s, Some(that))
  {
    Ordering.LexZeroIffEqual(Unsigneds(s.bytes), Unsigneds(that.bytes));
    if Unsigneds(s.bytes) == Unsigneds(that.bytes) {
      UnsignedsInjective(s.bytes, that.bytes);
    }
  }

  lemma CompareAntisymmetric(s: BinaryString, that: BinaryString)
    ensures Compare(that, s) == -Compare(s, that)
  {
    Ordering.LexAntisymmetric(Unsigneds(s.bytes), Unsigneds(that.bytes));
  }

  lemma CompareTransitive(s: BinaryString, t: BinaryString, u: BinaryString)
    requires Compare(s, t) == -1 && Compare(t, u) == -1
    ensures Compare(s, u) == -1
  {
    Ordering.LexTransitive(Unsigneds(s.bytes), Unsigneds(t.bytes), Unsigneds(u.bytes));
  }

  /** The first differing byte decides, by its unsigned value. */
  lemma CompareFirstDifference(s: BinaryString, that: BinaryString, k: nat)
    requires k < |s.bytes| && k < |that.bytes|
    requires s.bytes[..k] == that.bytes[..k] && s.bytes[k] != that.bytes[k]
    ensures Compare(s, that) == IntegerCompare(ByteToUnsigned(s.bytes[k]), ByteToUnsigned(that.bytes[k]))
  {
    var a, b := Unsigneds(s.bytes), Unsigneds(that.bytes);
    assert a[..k] == b[..k];
    Ordering.LexDropCommonPrefix(a, b, k);
    Ordering.LexStep(a, b, k);
  }

  /** A proper prefix compares less. */
  lemma ComparePrefix(s: BinaryString, that: BinaryString)
    requires |s.bytes| < |that.bytes| && s.bytes == that.bytes[..|s.bytes|]
    ensures Compare(s, that) == -1
  {
    var a, b := Unsigneds(s.bytes), Unsigneds(that.bytes);
    assert a == b[..|a|];
    Ordering.LexBeforeIffPrecedes(a, b);
  }

  /** The empty string is equal to itself and less than every other string. */
  lemma EmptyIsLeast(s: BinaryString)
    ensures Equals(Empty(), Some(Empty()))
    ensures Compare(Empty(), s) == (if IsEmpty(s) then 0 else -1)
  {
  }

  // ---------------------------------------------------------------------
  // Encoding

  /** toString(int, String): encodes with the codec of the base and the indentation. */
  function Encode(codecs: CodecSuite, s: BinaryString, base: int, indentation: string): (r: Result<string>)
    ensures r.Success? <==> IsSupportedBase(base)
    ensures r.Success? ==> r.value == Select(codecs, base).value.encode(s.bytes, indentation)
    ensures r.Failure? ==> r.error == NumberFormat
  {
    match Select(codecs, base)
    case Failure(e) => Failure(e)
    case Success(codec) => Success(codec.encode(s.bytes, indentation))
  }

  /** toString(int): the given base without indentation. */
  function ToStringInBase(codecs: CodecSuite, s: BinaryString, base: int): (r: Result<string>)
    ensures r == Encode(codecs, s, base, "")
  {
    Encode(codecs, s, base, "")
  }

  /** toString(String): base 64 with the given indentation. */
  function ToStringIndented(codecs: CodecSuite, s: BinaryString, indentation: string): (r: string)
    ensures Encode(codecs, s, 64, indentation) == Success(r)
  {
    codecs.base64.encode(s.bytes, indentation)
  }

  /** toString(): base 64 without indentation. */
  function ToString(codecs: CodecSuite, s: BinaryString): (r: string)
    ensures ToStringInBase(codecs, s, 64) == Success(r)
    ensures r == ToStringIndented(codecs, s, "")
  {
    ToStringIndented(codecs, s, "")
  }

  /** Decoding what toString(base) wrote gives back the same binary string, for every supported base. */
  lemma DecodeToStringInBase(codecs: CodecSuite, s: BinaryString, base: int)
    requires AllRoundTrip(codecs) && IsSupportedBase(base)
    ensures ToStringInBase(codecs, s, base).Success?
    ensures Decode(codecs, ToStringInBase(codecs, s, base).value, base) == Success(s)
  {
    var codec := Select(codecs, base).value;
    assert codec.decode(codec.encode(s.bytes, "")) == Success(s.bytes);
  }

  // ---------------------------------------------------------------------
  // Size, arrays, iteration

  /** toBytes: a new array holding the bytes, shared with nobody. */
  method ToBytes(s: BinaryString) returns (bytes: array<int8>)
    ensures fresh(bytes) && bytes[..] == s.bytes
  {
    bytes := new int8[|s.bytes|](i requires 0 <= i < |s.bytes| => s.bytes[i]);
  }

  /** isEmpty: holds exactly for the empty binary string. */
  function IsEmpty(s: BinaryString): (r: bool)
    ensures r <==> s == BinaryString([])
  {
    |s.bytes| == 0
  }

  /** getNumberOfElements: the number of bytes. */
  function NumberOfElements(s: BinaryString): (r: nat)
    ensures r == |s.bytes|
  {
    |s.bytes|
  }

  /** toArray: fills a new array by iterating over the bytes. */
  method ToArray(s: BinaryString) returns (elements: array<int8>)
    ensures fresh(elements) && elements[..] == s.bytes
  {
    elements := new int8[NumberOfElements(s)];
    var index := 0;
    var cursor := new BinaryIterator(s);
    while cursor.HasNext()
      invariant cursor.Valid() && index == cursor.index
      invariant elements[..index] == s.bytes[..index]
      decreases |s.bytes| - index
    {
      var b := cursor.Next();
      elements[index] := b.value;
      index := index + 1;
    }
  }

  /** toArray followed by the Byte[] constructor reproduces the binary string. */
  method ToArrayRoundTrip(s: BinaryString) returns (copy: BinaryString)
    ensures copy == s
  {
    var elements := ToArray(s);
    copy := FromBoxedBytes(elements);
  }

  /** A full iteration visits exactly as many bytes as toBytes returns. */
  method CountByIteration(s: BinaryString) returns (count: nat)
    ensures count == NumberOfElements(s)
  {
    count := 0;
    var cursor := new BinaryIterator(s);
    while cursor.HasNext()
      invariant cursor.Valid() && count == cursor.index
      decreases |s.bytes| - count
    {
      var b := cursor.Next();
      count := count + 1;
    }
  }

  /** The forward cursor over the bytes. */
  class BinaryIterator {
    const bytes: seq<int8>
    var index: int

    ghost predicate Valid()
      reads this
    {
      0 <= index <= |bytes|
    }

    constructor (s: BinaryString)
      ensures bytes == s.bytes && index == 0 && Valid()
    {
      bytes := s.bytes;
      index := 0;
    }

    /** hasNext: false exactly at the end. */
    function HasNext(): (r: bool)
      reads this
      ensures r <==> index < |bytes|
    {
      index < |bytes|
    }

    /** next: the byte at the cursor, then one step forward; NoSuchElementException at the end. */
    method Next() returns (element: Result<int8>)
      requires Valid()
      modifies this
      ensures Valid()
      ensures old(index) == |bytes| ==> element == Failure(NoSuchElement) && index == old(index)
      ensures old(index) < |bytes| ==> element == Success(bytes[old(index)]) && index == old(index) + 1
    {
      if index == |bytes| {
        return Failure(NoSuchElement);
      }
      element := Success(bytes[index]);
      index := index + 1;
    }
  }
}
