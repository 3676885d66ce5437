# Primitive types: binary strings, version strings, text strings and tags

This project models four immutable value types of the craterdog Java
primitive-types library and proves their contracts in Dafny.

- **BinaryString** is a sequence of bytes. It can be built from a byte
  array, from boxed bytes, or by decoding a base 2, 16, 32 or 64 string, and
  it prints itself in any of those bases. Its ordering walks two byte
  iterators and compares unsigned byte values; a shorter prefix comes first.
- **VersionString** is a dotted list of version numbers such as `1.3` or
  `24.7.5`. Every number is at least 1, and the list is never empty. It is
  parsed with `String.split` and `Integer.parseInt`, printed with a string
  builder, and ordered number by number. `getNextVersion` and
  `getNewVersion` derive later versions from it.
- **TextString** wraps a Java string. It implements the `CharSequence`
  members `length`, `charAt` and `subSequence`, converts to a character
  array, and has a bidirectional cursor.
- **Tag** is a self-hashing identifier. It holds its size in bytes, a hash
  taken from its bytes, and the base 32 string of those bytes. It is ordered
  by its string.

Each Java value class becomes a `datatype` over `seq`, because no field
changes after construction. BinaryString, TextString and Tag declare their
fields final. VersionString's `value` array is not final, but only its
constructors assign it. Each iterator class becomes a Dafny `class` whose methods
update its `index` field. Loops in the source become methods with loop
invariants. Each such method is proved against a specification function:
- the `Byte[]` and `Character[]` constructors;
- `toArray`;
- `compareTo` of BinaryString and of VersionString;
- `toString` of VersionString;
- the parsing loop of the VersionString string constructor;
- `getNextVersion` and `getNewVersion`.

Java behaviour is written out explicitly in module `JavaLang`:
- 32-bit `int` wrap-around;
- truncating `/` and `%`;
- `Integer.compare` and `Integer.signum`;
- `String.compareTo`;
- `String.split("\\.")`, including the dropping of trailing empty pieces;
- `Integer.parseInt`.

Exceptions become `Failure` values of a `Result`, and a `null` argument
becomes `None`.

Most calls into code outside these four classes become parameters:
- the base 2/16/32/64 codecs (`Base02Utils` … `Base64Utils`);
- `ByteUtils.bytesToInt`;
- the random bytes of `RandomUtils`.

The only thing ever required of a codec is that it decodes its own
unindented encoding (`Codecs.RoundTrips`). All round-trip results are
proved under that hypothesis. Two foreign calls are given a meaning rather
than passed in, as listed under "Left out":
- `ByteUtils.byteToUnsigned` is defined in `BinaryStrings.ByteToUnsigned`.
- Tag's one-argument `Base32Utils.encode(bytes)` is taken to be the
  unindented encoding `encode(bytes, "")`.

Some facts about the model:
- `VersionString("1.2.")` parses as version 1.2, because `split` drops the
  trailing empty piece (`VersionStrings.ParseAcceptsTrailingDot`).
- `getNextVersion` of a version whose last number is the largest `int`
  overflows to a negative number. The constructor then rejects it with a
  `NumberFormatException` (`VersionStrings.NextVersion`).
- `Tag.calculateStringSize` gives the exact number of base 32 characters
  only up to `Integer.MAX_VALUE / 8` bytes. Beyond that, the 32-bit bit count
  wraps and the result is no longer the character count: it is negative from
  2^28 bytes on (-429496729 at 2^28) and back to 0 at 2^29 bytes
  (`Tags.CalculateStringSizeWraps`).

## Model

| member | source | states |
|---|---|---|
| Ordering.LexZeroIffEqual | src/main/java/craterdog/primitives/VersionString.java:79-86 | the element-by-element walk answers 0 exactly when the two sequences are equal |
| Ordering.LexAntisymmetric | src/main/java/craterdog/primitives/VersionString.java:79-86 | swapping the operands negates the answer |
| Ordering.LexTransitive | src/main/java/craterdog/primitives/VersionString.java:79-86 | "before" is transitive |
| Ordering.LexBeforeIffPrecedes | src/main/java/craterdog/primitives/VersionString.java:79-85 | the walk answers -1 exactly when the first difference is smaller or the first sequence is a proper prefix of the second |
| Codecs.Select | src/main/java/craterdog/primitives/BinaryString.java:78-93 | base 2, 16, 32 and 64 select the Base02, Base16, Base32 and Base64 codec respectively; any other base is a NumberFormatException |
| BinaryStrings.ByteToUnsigned | src/main/java/craterdog/primitives/BinaryString.java:117-120 | a byte reads as the value in 0..255 congruent to it modulo 256 |
| BinaryStrings.Empty | src/main/java/craterdog/primitives/BinaryString.java:41-43 | the default binary string is empty and has no elements |
| BinaryStrings.FromBytes | src/main/java/craterdog/primitives/BinaryString.java:51-53 | the binary string holds the array's contents |
| BinaryStrings.FromBoxedBytes | src/main/java/craterdog/primitives/BinaryString.java:61-67 | the copy loop copies every boxed byte, in order |
| BinaryStrings.Decode | src/main/java/craterdog/primitives/BinaryString.java:77-94 | an unsupported base is a NumberFormatException; otherwise the result holds exactly the bytes that base's decoder returns, and a decoder failure passes through with its error |
| BinaryStrings.CompareTo | src/main/java/craterdog/primitives/BinaryString.java:107-128 | null compares as 1; otherwise the iterator walk equals the lexicographic order on unsigned byte values |
| BinaryStrings.Equals | src/main/java/craterdog/primitives/BinaryString.java:131-137 | equal exactly to a non-null binary string of the same length and the same byte at every position |
| BinaryStrings.CompareZeroIffEquals | src/main/java/craterdog/primitives/BinaryString.java:107-137 | compareTo answers 0 exactly when equals holds |
| BinaryStrings.CompareAntisymmetric | src/main/java/craterdog/primitives/BinaryString.java:107-128 | compareTo(b, a) is -compareTo(a, b) |
| BinaryStrings.CompareTransitive | src/main/java/craterdog/primitives/BinaryString.java:107-128 | compareTo is a transitive order |
| BinaryStrings.CompareFirstDifference | src/main/java/craterdog/primitives/BinaryString.java:114-122 | the first differing byte decides, by its unsigned value |
| BinaryStrings.ComparePrefix | src/main/java/craterdog/primitives/BinaryString.java:123-126 | a proper prefix compares less |
| BinaryStrings.EmptyIsLeast | src/test/java/craterdog/primitives/BinaryStringTest.java:93-98 | the empty binary string equals itself, compares 0 with itself and is below every non-empty one |
| BinaryStrings.Encode | src/main/java/craterdog/primitives/BinaryString.java:181-194 | for a supported base, the result is that base's codec applied to the bytes and the indentation; any other base is a NumberFormatException |
| BinaryStrings.ToStringInBase | src/main/java/craterdog/primitives/BinaryString.java:166-168 | toString(base) is the unindented encoding in that base |
| BinaryStrings.ToStringIndented | src/main/java/craterdog/primitives/BinaryString.java:152-155 | toString(indentation) is the base 64 encoding with that indentation |
| BinaryStrings.ToString | src/main/java/craterdog/primitives/BinaryString.java:146-149 | toString() is the unindented base 64 encoding |
| BinaryStrings.DecodeToStringInBase | src/main/java/craterdog/primitives/BinaryString.java:77-94 | for every supported base, decoding what toString(base) wrote gives back the same binary string (the byte-level round trip; the unit test at BinaryStringTest.java:54-77 checks the converse, string-level one) |
| BinaryStrings.ToBytes | src/main/java/craterdog/primitives/BinaryString.java:202-204 | a fresh array with exactly the bytes |
| BinaryStrings.IsEmpty | src/main/java/craterdog/primitives/BinaryString.java:207-210 | true exactly for the empty binary string |
| BinaryStrings.NumberOfElements | src/main/java/craterdog/primitives/BinaryString.java:213-216 | the number of bytes |
| BinaryStrings.ToArray | src/main/java/craterdog/primitives/BinaryString.java:219-227 | iterating fills a fresh array with exactly the bytes, in order |
| BinaryStrings.ToArrayRoundTrip | src/test/java/craterdog/primitives/BinaryStringTest.java:137-143 | building a binary string from toArray gives an equal binary string |
| BinaryStrings.CountByIteration | src/test/java/craterdog/primitives/BinaryStringTest.java:151-158 | a full iteration visits as many bytes as the binary string has |
| BinaryStrings.BinaryIterator.constructor | src/main/java/craterdog/primitives/BinaryString.java:240-242 | a new iterator stands before the first byte |
| BinaryStrings.BinaryIterator.HasNext | src/main/java/craterdog/primitives/BinaryString.java:245-247 | true exactly before the end |
| BinaryStrings.BinaryIterator.Next | src/main/java/craterdog/primitives/BinaryString.java:250-254 | at the end, NoSuchElementException and no move; otherwise the byte at the cursor, and one step forward |
| VersionStrings.AllPositive | src/main/java/craterdog/primitives/VersionString.java:42-44 | the check loop accepts exactly the arrays whose numbers are all at least 1 |
| VersionStrings.FromNumbers | src/main/java/craterdog/primitives/VersionString.java:39-45 | succeeds exactly for a non-empty array of numbers that are all at least 1; otherwise NumberFormatException |
| VersionStrings.ParseNumbers | src/main/java/craterdog/primitives/VersionString.java:53-55 | succeeds exactly when every piece is an int, and then gives each piece's value |
| VersionStrings.Parse | src/main/java/craterdog/primitives/VersionString.java:48-59 | succeeds exactly when the text splits into at least one piece and every piece parses as an int of at least 1; the numbers are the pieces' parseInt values, in order; every failure is a NumberFormatException |
| VersionStrings.ParseVersion | src/main/java/craterdog/primitives/VersionString.java:48-59 | the constructor's parse and check loops compute exactly Parse |
| VersionStrings.ToString | src/main/java/craterdog/primitives/VersionString.java:62-70 | the builder loop produces the decimal numbers joined by '.', and the result never ends in '.' |
| VersionStrings.ParseFormat | src/main/java/craterdog/primitives/VersionString.java:48-70 | parsing the output of toString gives back the same version |
| VersionStrings.ParseRejectsZero | src/test/java/craterdog/primitives/VersionStringTest.java:78-83 | "2.0" is rejected with NumberFormatException |
| VersionStrings.ParseAcceptsTrailingDot | src/main/java/craterdog/primitives/VersionString.java:49-51 | "1.2." reads as 1.2, because split drops the trailing empty piece |
| VersionStrings.CompareTo | src/main/java/craterdog/primitives/VersionString.java:73-87 | null compares as 1; otherwise the loop equals the lexicographic order on the numbers |
| VersionStrings.CompareZeroIffEqual | src/main/java/craterdog/primitives/VersionString.java:73-87 | compareTo answers 0 exactly for equal versions |
| VersionStrings.CompareAntisymmetric | src/main/java/craterdog/primitives/VersionString.java:73-87 | swapping the operands negates compareTo |
| VersionStrings.CompareTransitive | src/main/java/craterdog/primitives/VersionString.java:73-87 | compareTo is a transitive order |
| VersionStrings.GetSize | src/main/java/craterdog/primitives/VersionString.java:96-99 | the number of version numbers, at least 1 for a valid version |
| VersionStrings.ToArray | src/main/java/craterdog/primitives/VersionString.java:102-110 | iterating fills a fresh array with exactly the numbers, in order |
| VersionStrings.Increment | src/main/java/craterdog/primitives/VersionString.java:124 | Java's ++ adds one below the largest int and wraps that one to the smallest |
| VersionStrings.NextVersion | src/main/java/craterdog/primitives/VersionString.java:121-126 | succeeds exactly when the last number is below the largest int; the result keeps all other numbers and adds one to the last |
| VersionStrings.GetNextVersion | src/main/java/craterdog/primitives/VersionString.java:121-126 | the copy, increment and construct steps compute NextVersion |
| VersionStrings.CopyOf | src/main/java/craterdog/primitives/VersionString.java:141 | Arrays.copyOf keeps the numbers below the new length and pads with zeros |
| VersionStrings.NewVersion | src/main/java/craterdog/primitives/VersionString.java:139-144 | succeeds exactly for depth 1..size+1 without overflow; keeps the numbers above the depth, increments the one at the depth (1 for a new level) and drops the rest |
| VersionStrings.GetNewVersion | src/main/java/craterdog/primitives/VersionString.java:139-144 | the depth check, copy, increment and construct steps compute NewVersion |
| VersionStrings.NextVersionIsLater | src/main/java/craterdog/primitives/VersionString.java:121-126 | the next version compares after the version it came from |
| VersionStrings.NewVersionIsLater | src/main/java/craterdog/primitives/VersionString.java:139-144 | every new version compares after the version it came from |
| VersionStrings.UnitTestVersions | src/test/java/craterdog/primitives/VersionStringTest.java:55-90 | the next and new versions of 3, 1.2 and 1.2.3 are those of the unit test; the lists [-1] and [] are rejected |
| VersionStrings.VersionIterator.constructor | src/main/java/craterdog/primitives/VersionString.java:151-153 | a new iterator stands before the first number |
| VersionStrings.VersionIterator.ToStart | src/main/java/craterdog/primitives/VersionString.java:155-158 | the cursor moves before the first number |
| VersionStrings.VersionIterator.ToIndex | src/main/java/craterdog/primitives/VersionString.java:160-167 | a positive index is ordinal, and zero or a negative index counts from the end; the cursor is in range exactly for an index in -size..size+1 |
| VersionStrings.VersionIterator.ToEnd | src/main/java/craterdog/primitives/VersionString.java:169-172 | the cursor moves after the last number |
| VersionStrings.VersionIterator.HasPrevious | src/main/java/craterdog/primitives/VersionString.java:174-177 | true exactly after the start |
| VersionStrings.VersionIterator.GetPrevious | src/main/java/craterdog/primitives/VersionString.java:179-184 | at the start, NoSuchElementException and no move; otherwise one step back, then the number there, or an index-out-of-bounds failure when the cursor had been moved out of range |
| VersionStrings.VersionIterator.HasNext | src/main/java/craterdog/primitives/VersionString.java:186-189 | true exactly before the end |
| VersionStrings.VersionIterator.GetNext | src/main/java/craterdog/primitives/VersionString.java:191-196 | at the end, NoSuchElementException and no move; otherwise one step forward, and the number at the old cursor or an index-out-of-bounds failure |
| TextStrings.ToString | src/main/java/craterdog/primitives/TextString.java:84-87 | the wrapped string, from which the same text is rebuilt |
| TextStrings.Empty | src/main/java/craterdog/primitives/TextString.java:32-34 | the default text is empty |
| TextStrings.FromString | src/main/java/craterdog/primitives/TextString.java:41-52 | the String and CharSequence constructors keep exactly the given characters |
| TextStrings.FromChars | src/main/java/craterdog/primitives/TextString.java:59-61 | the text holds the char array's contents |
| TextStrings.FromBoxedChars | src/main/java/craterdog/primitives/TextString.java:68-75 | the copy loop copies every boxed character, in order |
| TextStrings.Length | src/main/java/craterdog/primitives/TextString.java:90-93 | the length of the underlying string |
| TextStrings.CharAt | src/main/java/craterdog/primitives/TextString.java:96-99 | the character at an index in 0..length-1; any other index is an index-out-of-bounds failure |
| TextStrings.SubSequence | src/main/java/craterdog/primitives/TextString.java:102-105 | succeeds exactly for 0 <= start <= end <= length, with the end-start characters from start on; otherwise an index-out-of-bounds failure |
| TextStrings.GetSize | src/main/java/craterdog/primitives/TextString.java:114-117 | the size is the length |
| TextStrings.IsEmpty | src/main/java/craterdog/primitives/TextString.java:108-111 | true exactly for the empty text |
| TextStrings.ToArray | src/main/java/craterdog/primitives/TextString.java:120-128 | iterating fills a fresh array with exactly the characters, in order |
| TextStrings.ToArrayRoundTrip | src/test/java/craterdog/primitives/TextStringTest.java:138-146 | building a text from toArray gives an equal text |
| TextStrings.CountByIteration | src/test/java/craterdog/primitives/TextStringTest.java:153-163 | a full iteration visits exactly length characters |
| TextStrings.TextIterator.constructor | src/main/java/craterdog/primitives/TextString.java:135-137 | a new iterator stands before the first character |
| TextStrings.TextIterator.ToStart | src/main/java/craterdog/primitives/TextString.java:139-142 | the cursor moves before the first character |
| TextStrings.TextIterator.ToIndex | src/main/java/craterdog/primitives/TextString.java:144-151 | a positive index is ordinal, and zero or a negative index counts from the end; the cursor is in range exactly for an index in -length..length+1 |
| TextStrings.TextIterator.ToEnd | src/main/java/craterdog/primitives/TextString.java:153-156 | the cursor moves after the last character |
| TextStrings.TextIterator.HasPrevious | src/main/java/craterdog/primitives/TextString.java:158-161 | true exactly after the start |
| TextStrings.TextIterator.GetPrevious | src/main/java/craterdog/primitives/TextString.java:163-168 | at the start, NoSuchElementException and no move; otherwise one step back, then the character there or an index-out-of-bounds failure |
| TextStrings.TextIterator.HasNext | src/main/java/craterdog/primitives/TextString.java:170-173 | true exactly before the end |
| TextStrings.TextIterator.GetNext | src/main/java/craterdog/primitives/TextString.java:175-180 | at the end, NoSuchElementException and no move; otherwise one step forward, and the character at the old cursor or an index-out-of-bounds failure |
| Tags.FromBytes | src/main/java/craterdog/primitives/Tag.java:62-66 | the tag of given bytes has their count as size, their bytesToInt as hash and their base 32 encoding as string |
| Tags.NewTag | src/main/java/craterdog/primitives/Tag.java:49-54 | a new tag of tagSize random bytes has that size, their hash and their base 32 encoding |
| Tags.NewDefaultTag | src/main/java/craterdog/primitives/Tag.java:26-41 | the default tag is made of 20 random bytes |
| Tags.FromString | src/main/java/craterdog/primitives/Tag.java:74-83 | succeeds exactly when the string decodes; then it keeps the string verbatim and is coherent with its bytes; a NumberFormatException of the decoder becomes IllegalArgumentException, and other failures pass through |
| Tags.ToString | src/main/java/craterdog/primitives/Tag.java:90-93 | the string stored when the tag was made; FromBytes, NewTag and FromString state what that string is |
| Tags.ToBytes | src/main/java/craterdog/primitives/Tag.java:100-102 | the decoding of the tag's string; for a coherent tag, tagSize bytes whose bytesToInt is the hash |
| Tags.HashCode | src/main/java/craterdog/primitives/Tag.java:112-115 | the hash stored when the tag was made; equal tags have equal hash codes (Tags.Equals) |
| Tags.Equals | src/main/java/craterdog/primitives/Tag.java:125-131 | null is never equal, and neither is a tag with a different hash; with the same hash, equal exactly when the strings are equal |
| Tags.CompareTo | src/main/java/craterdog/primitives/Tag.java:141-144 | the result is -1, 0 or 1; which one is given by Tags.CompareToIsLex |
| Tags.CompareToIsLex | src/test/java/craterdog/primitives/TagTest.java:63-65 | tags are ordered lexicographically by the char codes of their strings |
| Tags.CompareToZeroIffSameString | src/main/java/craterdog/primitives/Tag.java:141-144 | compareTo answers 0 exactly for tags with the same string |
| Tags.CompareToAntisymmetric | src/main/java/craterdog/primitives/Tag.java:141-144 | swapping the operands negates compareTo |
| Tags.CompareToTransitive | src/main/java/craterdog/primitives/Tag.java:141-144 | compareTo is a transitive order |
| Tags.EqualsIffSameString | src/main/java/craterdog/primitives/Tag.java:125-144 | between coherent tags, equals holds exactly when the strings are equal, when the tags are identical in value, and when compareTo answers 0 |
| Tags.EqualsIffSameBytes | src/main/java/craterdog/primitives/Tag.java:118-131 | two tags made from bytes are equal exactly when the bytes are the same |
| Tags.RoundTrip | src/test/java/craterdog/primitives/TagTest.java:54-62 | a new tag gives back its random bytes, is rebuilt identically from them and from its string, and is coherent |
| Tags.FromBytesCoherent | src/main/java/craterdog/primitives/Tag.java:100-102 | toBytes of a tag made from bytes gives those bytes back |
| Tags.CalculateStringSize | src/main/java/craterdog/primitives/Tag.java:153-158 | for 0..MAX_VALUE/8 bytes, the result is the least number of 5-bit characters that hold 8 bits per byte |
| Tags.CalculateStringSizeWraps | src/main/java/craterdog/primitives/Tag.java:154-157 | past MAX_VALUE/8 bytes the wrapped bit count no longer gives the character count: -429496729 for 2^28 bytes, 0 for 2^29 bytes and 2 for 2^29+1 bytes |

## Left out

- The codec classes (`Base02Utils`, `Base16Utils`, `Base32Utils`, `Base64Utils`) are not part of this model. Their algorithms, alphabets and line wrapping are not modelled. They are parameters, and only their round trip is ever assumed, so the concrete strings of the unit tests (for example that `UQ==` is re-encoded verbatim) are outside the model.
- `ByteUtils.bytesToInt` and `RandomUtils.generateRandomBytes` are not part of this model. They are parameters: a function and a sequence of random bytes.
- Tags.NewTag: a negative tag size, which makes the random generator fail, is excluded by requiring exactly tagSize random bytes.
- `Angle` and `Probability` are outside the modelled core.
- The `BinaryString(BitSet)` constructor is not modelled, because `BitSet.toByteArray` is foreign code.
- `hashCode` of BinaryString (`Arrays.hashCode`) is not modelled, because it is a foreign hash function. `Tags.HashCode` is the stored hash.
- The `Primitive` and `Sequential` superclasses are not part of this model. Their `equals`, `compareTo`, `hashCode`, `iterator` and default `isEmpty` are not modelled. This covers equality and ordering of TextString, and TextString's `isEmpty` is taken to be `getSize() == 0`.
- `equals(Object)` applied to an object of another class returns false (BinaryString.java:133, Tag.java:127). The model's `Equals` takes an optional value of the same type, so it cannot be given such an argument, and this case is not modelled.
- BinaryStrings.ByteToUnsigned: `ByteUtils.byteToUnsigned` is not part of this model. It is defined here as the usual unsigned reading of a byte (the value in 0..255 congruent to it modulo 256), not passed in.
- Tags.FromBytes: Tag's one-argument `Base32Utils.encode(bytes)` (Tag.java:40, 53, 65) is taken to be the unindented encoding `encode(bytes, "")` of the same codec that BinaryString uses. The same applies to Tags.NewTag and Tags.NewDefaultTag.
- BinaryStrings.DecodeToStringInBase: the string-level round trip the unit test checks (decode a string, re-encode it, get the same string) is not proved. It holds only for the canonical strings of each codec, and the codecs are parameters.
- Null elements in a `Byte[]` or `Character[]`, which make unboxing throw `NullPointerException`, are not modelled. A null argument is modelled only where the source tests for it, in `compareTo` and `equals`. Other null arguments (for example `Tag.compareTo(null)`) are excluded by the types.
- `Integer.parseInt` is modelled for ASCII digits only. Non-ASCII Unicode digits, which Java also accepts, are not modelled.
- Java `char` is modelled as a Dafny `char`, so surrogate pairs are not split into two UTF-16 units.
- VersionStrings.FromNumbers: the `int...` constructor keeps the caller's array without copying it, so a later change to that array shows through. The model takes a copy and does not capture this aliasing.
- The identity shortcuts `this == that` in `compareTo` and `equals` are not modelled. A value model has no object identity, and the shortcut gives the same answer as the comparison it skips.
- Exception messages and logging are not modelled.
- The iterator index is an unbounded integer. Java's wrap-around of an iterator index that reaches the largest `int` is not modelled.
- The `BinaryString(String)` constructor that the BinaryString unit test calls (`BinaryStringTest.java:75-77`) does not appear in the class, so it is not modelled.
