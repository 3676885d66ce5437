/**
 * VersionString: a dotted list of version numbers such as 1, 1.3 or 24.7.5,
 * every one of them at least 1. The int array of the Java class is modelled
 * as a sequence of 32-bit ints; the constructors check the class invariant
 * and every other operation relies on it.
 */
module VersionStrings {
  import opened Errors
  import opened JavaLang
  import Ordering

  datatype VersionString = VersionString(value: seq<int32>)

  /** The invariant both constructors establish: at least one number, and no number below 1. */
  predicate IsVersionNumbers(value: seq<int32>)
  {
    |value| >= 1 && forall i :: 0 <= i < |value| ==> value[i] >= 1
  }

  predicate Valid(v: VersionString)
  {
    IsVersionNumbers(v.value)
  }

  /** What a constructor yields for a list of numbers: the version, or NumberFormatException. */
  function Make(value: seq<int32>): Result<VersionString>
  {
    if IsVersionNumbers(value) then Success(VersionString(value)) else Failure(NumberFormat)
  }

  /** The check loop of both constructors: is every number at least 1? */
  method AllPositive(value: array<int32>) returns (ok: bool)
    ensures ok <==> forall i :: 0 <= i < value.Length ==> value[i] >= 1
  {
    for i := 0 to value.Length
      invariant forall j :: 0 <= j < i ==> value[j] >= 1
    {
      if value[i] < 1 {
        return false;
      }
    }
    return true;
  }

  /** VersionString(int...): an empty list or a number below 1 raises NumberFormatException. */
  method FromNumbers(value: array<int32>) returns (r: Result<VersionString>)
    ensures r.Success? <==> value.Length >= 1 && forall i :: 0 <= i < value.Length ==> value[i] >= 1
    ensures r.Success? ==> r.value.value == value[..] && Valid(r.value)
    ensures r.Failure? ==> r.error == NumberFormat
  {
    if value.Length == 0 {
      return Failure(NumberFormat);
    }
    var ok := AllPositive(value);
    if !ok {
      return Failure(NumberFormat);
    }
    return Success(VersionString(value[..]));
  }

  // ---------------------------------------------------------------------
  // Parsing and printing

  /** The numbers of the pieces, or NumberFormatException if some piece is not an int. */
  function ParseNumbers(pieces: seq<string>): (r: Result<seq<int32>>)
    ensures r.Success? <==> forall i :: 0 <= i < |pieces| ==> ParseInt(pieces[i]).Success?
    ensures r.Success? ==> |r.value| == |pieces| && forall i :: 0 <= i < |pieces| ==> ParseInt(pieces[i]) == Success(r.value[i])
    ensures r.Failure? ==> r.error == NumberFormat
  {
    if forall i | 0 <= i < |pieces| :: ParseInt(pieces[i]).Success? then
      Success(seq(|pieces|, i requires 0 <= i < |pieces| => ParseInt(pieces[i]).value))
    else
      Failure(NumberFormat)
  }

  /** VersionString(String): split at the dots, parse every piece, then check the numbers. */
  function Parse(text: string): (r: Result<VersionString>)
    ensures r.Success? <==> |Split(text)| >= 1
                            && forall i :: 0 <= i < |Split(text)| ==>
                                 ParseInt(Split(text)[i]).Success? && ParseInt(Split(text)[i]).value >= 1
    ensures r.Success? ==> Valid(r.value) && |r.value.value| == |Split(text)|
                           && forall i :: 0 <= i < |Split(text)| ==> ParseInt(Split(text)[i]) == Success(r.value.value[i])
    ensures r.Failure? ==> r.error == NumberFormat
  {
    var pieces := Split(text);
    if |pieces| == 0 then Failure(NumberFormat)
    else
      match ParseNumbers(pieces)
      case Failure(e) => Failure(e)
      case Success(numbers) => Make(numbers)
  }

  /** The constructor's loops, proved to compute Parse. */
  method ParseVersion(text: string) returns (r: Result<VersionString>)
    ensures r == Parse(text)
  {
    var integers := Split(text);
    var count := |integers|;
    if count == 0 {
      return Failure(NumberFormat);
    }
    var value := new int32[count];
    for i := 0 to count
      invariant forall j :: 0 <= j < i ==> ParseInt(integers[j]) == Success(value[j])
    {
      var parsed := ParseInt(integers[i]);
      if parsed.Failure? {
        return Failure(NumberFormat);
      }
      value[i] := parsed.value;
    }
    ghost var numbers := ParseNumbers(integers);
    assert numbers.Success? && numbers.value == value[..];
    var ok := AllPositive(value);
    if !ok {
      return Failure(NumberFormat);
    }
    return Success(VersionString(value[..]));
  }

  /** The pieces joined with '.' between them. */
  function Join(pieces: seq<string>): string
    requires |pieces| >= 1
  {
    if |pieces| == 1 then pieces[0] else pieces[0] + "." + Join(pieces[1..])
  }

  lemma {:induction false} JoinSnoc(pieces: seq<string>, last: string)
    requires |pieces| >= 1
    ensures Join(pieces + [last]) == Join(pieces) + "." + last
    decreases |pieces|
  {
    if |pieces| > 1 {
      assert (pieces + [last])[1..] == pieces[1..] + [last];
      JoinSnoc(pieces[1..], last);
    } else {
      assert (pieces + [last])[1..] == [last];
    }
  }

  /** The decimal form of every number. */
  function Decimals(value: seq<int32>): (r: seq<string>)
    requires forall i :: 0 <= i < |value| ==> value[i] >= 0
    ensures |r| == |value| && forall i :: 0 <= i < |value| ==> r[i] == Decimal(value[i])
  {
    seq(|value|, i requires 0 <= i < |value| && value[i] >= 0 => Decimal(value[i]))
  }

  /** The text toString produces: the numbers in decimal, joined with '.'. */
  function Format(v: VersionString): string
    requires Valid(v)
  {
    Join(Decimals(v.value))
  }

  /** toString: appends every number followed by '.', then trims the last '.'. */
  method ToString(v: VersionString) returns (s: string)
    requires Valid(v)
    ensures s == Format(v)
    ensures s[|s| - 1] != '.'
  {
    var builder := "";
    for i := 0 to |v.value|
      invariant i == 0 ==> builder == ""
      invariant i > 0 ==> builder == Join(Decimals(v.value[..i])) + "."
    {
      var piece := Decimal(v.value[i]);
      if i > 0 {
        assert Decimals(v.value[..i + 1]) == Decimals(v.value[..i]) + [piece];
        JoinSnoc(Decimals(v.value[..i]), piece);
      } else {
        assert Decimals(v.value[..1]) == [piece];
      }
      builder := builder + piece;
      builder := builder + ".";
    }
    assert v.value[..|v.value|] == v.value;
    s := builder[..|builder| - 1];
    assert s == Format(v);
    LastOfJoin(Decimals(v.value));
  }

  lemma {:induction false} LastOfJoin(pieces: seq<string>)
    requires |pieces| >= 1 && forall i :: 0 <= i < |pieces| ==> pieces[i] != "" && '.' !in pieces[i]
    ensures |Join(pieces)| >= 1 && Join(pieces)[|Join(pieces)| - 1] != '.'
    decreases |pieces|
  {
    if |pieces| > 1 {
      LastOfJoin(pieces[1..]);
    } else {
      assert pieces[0][|pieces[0]| - 1] in pieces[0];
    }
  }

  /** Splitting a join of dot-free, non-empty pieces at the dots gives the pieces back. */
  lemma {:induction false} SplitJoin(pieces: seq<string>)
    requires |pieces| >= 1 && forall i :: 0 <= i < |pieces| ==> pieces[i] != "" && '.' !in pieces[i]
    ensures Split(Join(pieces)) == pieces
  {
    PiecesJoin(pieces);
    if |pieces| == 1 {
      PiecesWithoutDot(pieces[0]);
    } else {
      assert '.' in Join(pieces) by {
        assert Join(pieces)[|pieces[0]|] == '.';
      }
      assert pieces[|pieces| - 1] != "";
    }
  }

  lemma {:induction false} PiecesJoin(pieces: seq<string>)
    requires |pieces| >= 1 && forall i :: 0 <= i < |pieces| ==> '.' !in pieces[i]
    ensures Pieces(Join(pieces)) == pieces
    decreases |pieces|
  {
    if |pieces| == 1 {
      PiecesWithoutDot(pieces[0]);
    } else {
      PiecesJoin(pieces[1..]);
      PiecesAfterDot(pieces[0], Join(pieces[1..]));
    }
  }

  /** Parsing what toString printed gives the same version back. */
  lemma {:induction false} ParseFormat(v: VersionString)
    requires Valid(v)
    ensures Parse(Format(v)) == Success(v)
  {
    var pieces := Decimals(v.value);
    SplitJoin(pieces);
    forall i | 0 <= i < |pieces| ensures ParseInt(pieces[i]) == Success(v.value[i]) {
      ParseIntDecimal(v.value[i]);
    }
    ghost var numbers := ParseNumbers(pieces);
    assert numbers.Success? && numbers.value == v.value;
  }

  /** "2.0" is rejected: a version number of zero. */
  lemma ParseRejectsZero()
    ensures Parse("2.0") == Failure(NumberFormat)
  {
    assert Pieces("2.0") == ["2", "0"] by {
      PiecesAfterDot("2", "0");
      PiecesWithoutDot("0");
    }
    assert Split("2.0") == ["2", "0"] by {
      assert "2.0"[1] == '.';
    }
    assert ParseInt("0") == Success(0);
  }

  /** String.split drops trailing empty pieces, so a trailing dot is accepted: "1.2." reads as 1.2. */
  lemma ParseAcceptsTrailingDot()
    ensures Parse("1.2.") == Success(VersionString([1, 2]))
  {
    assert Pieces("1.2.") == ["1", "2", ""] by {
      PiecesAfterDot("1", "2.");
      PiecesAfterDot("2", "");
    }
    assert Split("1.2.") == ["1", "2"] by {
      assert "1.2."[1] == '.';
    }
    assert ParseInt("1") == Success(1) && ParseInt("2") == Success(2);
    ghost var numbers := ParseNumbers(["1", "2"]);
    assert numbers.Success? && numbers.value == [1, 2];
  }

  // ---------------------------------------------------------------------
  // Comparison

  /** compareTo on a non-null argument: lexicographic over the version numbers. */
  function Compare(v: VersionString, that: VersionString): (r: int)
    ensures r in {-1, 0, 1}
  {
    Ordering.Lex(v.value, that.value)
  }

  /**
   * compareTo: the first differing number decides; when the shorter list is a
   * prefix of the longer one, the shorter version is less. Null compares as 1.
   */
  method CompareTo(v: VersionString, that: Option<VersionString>) returns (r: int)
    ensures that.None? ==> r == 1
    ensures that.Some? ==> r == Compare(v, that.value)
  {
    if that.None? {
      return 1;
    }
    var other := that.value;
    var shortestLength := if |v.value| < |other.value| then |v.value| else |other.value|;
    for i := 0 to shortestLength
      invariant Ordering.Lex(v.value, other.value) == Ordering.Lex(v.value[i..], other.value[i..])
    {
      Ordering.LexStep(v.value, other.value, i);
      if v.value[i] < other.value[i] {
        return -1;
      }
      if v.value[i] > other.value[i] {
        return 1;
      }
    }
    if |v.value| < |other.value| {
      return -1;
    }
    if |v.value| > |other.value| {
      return 1;
    }
    return 0;
  }

  lemma CompareZeroIffEqual(v: VersionString, that: VersionString)
    ensures Compare(v, that) == 0 <==> v == that
  {
    Ordering.LexZeroIffEqual(v.value, that.value);
  }

  lemma CompareAntisymmetric(v: VersionString, that: VersionString)
    ensures Compare(that, v) == -Compare(v, that)
  {
    Ordering.LexAntisymmetric(v.value, that.value);
  }

  lemma CompareTransitive(u: VersionString, v: VersionString, w: VersionString)
    requires Compare(u, v) == -1 && Compare(v, w) == -1
    ensures Compare(u, w) == -1
  {
    Ordering.LexTransitive(u.value, v.value, w.value);
  }

  // ---------------------------------------------------------------------
  // Size and arrays

  /** getSize: the number of version numbers; at least 1 for every constructed version. */
  function GetSize(v: VersionString): (r: nat)
    ensures r == |v.value|
    ensures Valid(v) ==> r >= 1
  {
    |v.value|
  }

  /** toArray: fills a new array by iterating over the version numbers. */
  method ToArray(v: VersionString) returns (elements: array<int32>)
    ensures fresh(elements) && elements[..] == v.value
  {
    elements := new int32[|v.value|];
    var index := 0;
    var cursor := new VersionIterator(v);
    while cursor.HasNext()
      invariant cursor.Valid() && index == cursor.index
      invariant elements[..index] == v.value[..index]
      decreases |v.value| - index
    {
      var number := cursor.GetNext();
      elements[index] := number.value;
      index := index + 1;
    }
  }

  // ---------------------------------------------------------------------
  // Next versions

  /** Java's `x++` on an int: wraps around from the largest int to the smallest. */
  function Increment(x: int32): (r: int32)
    ensures x < MaxInt ==> r == x + 1
    ensures x == MaxInt ==> r == MinInt
  {
    Wrap(x + 1)
  }

  /**
   * getNextVersion: the same numbers with the last one incremented. Incrementing
   * the largest int wraps to a negative number, which the constructor rejects.
   */
  function NextVersion(v: VersionString): (r: Result<VersionString>)
    requires Valid(v)
    ensures var n := |v.value|;
      && (r.Success? <==> v.value[n - 1] < MaxInt)
      && (r.Failure? ==> r.error == NumberFormat)
      && (r.Success? ==>
            Valid(r.value) && |r.value.value| == n
            && r.value.value[..n - 1] == v.value[..n - 1]
            && r.value.value[n - 1] == v.value[n - 1] + 1)
  {
    var n := |v.value|;
    Make(v.value[..n - 1] + [Increment(v.value[n - 1])])
  }

  /** The method form of getNextVersion: copy the array, increment its last slot, construct. */
  method GetNextVersion(v: VersionString) returns (r: Result<VersionString>)
    requires Valid(v)
    ensures r == NextVersion(v)
  {
    var length := |v.value|;
    var nextVersion := new int32[length](i requires 0 <= i < length => v.value[i]);
    nextVersion[length - 1] := Increment(nextVersion[length - 1]);
    r := FromNumbers(nextVersion);
    assert nextVersion[..] == v.value[..length - 1] + [Increment(v.value[length - 1])];
  }

  /** Arrays.copyOf on an int array: truncated, or padded with zeros, to the new length. */
  function CopyOf(value: seq<int32>, length: nat): (r: seq<int32>)
    ensures |r| == length
    ensures forall i :: 0 <= i < length ==> r[i] == if i < |value| then value[i] else 0
  {
    seq(length, i requires 0 <= i < length => if i < |value| then value[i] else 0)
  }

  /**
   * getNewVersion: keeps the numbers above the depth, increments the number at the
   * depth (a new number 1 one level below the last) and drops the rest. A depth
   * outside 1..length+1 raises NumberFormatException.
   */
  function NewVersion(v: VersionString, depth: int32): (r: Result<VersionString>)
    requires Valid(v)
    ensures var n := |v.value|;
      && (r.Success? <==> 1 <= depth <= n + 1 && (depth <= n ==> v.value[depth - 1] < MaxInt))
      && (r.Failure? ==> r.error == NumberFormat)
      && (r.Success? ==>
            Valid(r.value) && |r.value.value| == depth
            && r.value.value[..depth - 1] == v.value[..depth - 1]
            && r.value.value[depth - 1] == if depth == n + 1 then 1 else v.value[depth - 1] + 1)
  {
    if depth < 1 || depth > |v.value| + 1 then Failure(NumberFormat)
    else
      var newVersion := CopyOf(v.value, depth);
      var numbers := newVersion[..depth - 1] + [Increment(newVersion[depth - 1])];
      assert newVersion[..depth - 1] == v.value[..depth - 1];
      assert IsVersionNumbers(numbers) <==> numbers[depth - 1] >= 1;
      Make(numbers)
  }

  /** The method form of getNewVersion: check the depth, copy to the depth, increment, construct. */
  method GetNewVersion(v: VersionString, depth: int32) returns (r: Result<VersionString>)
    requires Valid(v)
    ensures r == NewVersion(v, depth)
  {
    if depth < 1 || depth > |v.value| + 1 {
      return Failure(NumberFormat);
    }
    var newVersion := new int32[depth](i requires 0 <= i < depth => if i < |v.value| then v.value[i] else 0);
    newVersion[depth - 1] := Increment(newVersion[depth - 1]);
    r := FromNumbers(newVersion);
    ghost var copy := CopyOf(v.value, depth);
    assert newVersion[..] == copy[..depth - 1] + [Increment(copy[depth - 1])];
  }

  /** The next version always comes after the version it was made from. */
  lemma NextVersionIsLater(v: VersionString)
    requires Valid(v) && NextVersion(v).Success?
    ensures Compare(v, NextVersion(v).value) == -1
  {
    var w := NextVersion(v).value;
    var n := |v.value|;
    Ordering.LexDropCommonPrefix(v.value, w.value, n - 1);
    Ordering.LexStep(v.value, w.value, n - 1);
  }

  /** So does every new version, whatever the depth. */
  lemma NewVersionIsLater(v: VersionString, depth: int32)
    requires Valid(v) && NewVersion(v, depth).Success?
    ensures Compare(v, NewVersion(v, depth).value) == -1
  {
    var w := NewVersion(v, depth).value;
    var n := |v.value|;
    if depth == n + 1 {
      assert w.value[..n] == v.value;
      Ordering.LexBeforeIffPrecedes(v.value, w.value);
    } else {
      Ordering.LexDropCommonPrefix(v.value, w.value, depth - 1);
      Ordering.LexStep(v.value, w.value, depth - 1);
    }
  }

  /** The versions of the unit test: next and new versions of 3, 1.2 and 1.2.3, and the rejected lists. */
  lemma UnitTestVersions()
    ensures NextVersion(VersionString([3])) == Success(VersionString([4]))
    ensures NewVersion(VersionString([3]), 2) == Success(VersionString([3, 1]))
    ensures NextVersion(VersionString([1, 2])) == Success(VersionString([1, 3]))
    ensures NewVersion(VersionString([1, 2]), 3) == Success(VersionString([1, 2, 1]))
    ensures NextVersion(VersionString([1, 2, 3])) == Success(VersionString([1, 2, 4]))
    ensures NewVersion(VersionString([1, 2, 3]), 2) == Success(VersionString([1, 3]))
    ensures Make([-1]) == Failure(NumberFormat) && Make([]) == Failure(NumberFormat)
  {
    SameNumbers(NextVersion(VersionString([3])), [4]);
    SameNumbers(NewVersion(VersionString([3]), 2), [3, 1]);
    SameNumbers(NextVersion(VersionString([1, 2])), [1, 3]);
    SameNumbers(NewVersion(VersionString([1, 2]), 3), [1, 2, 1]);
    SameNumbers(NextVersion(VersionString([1, 2, 3])), [1, 2, 4]);
    SameNumbers(NewVersion(VersionString([1, 2, 3]), 2), [1, 3]);
    assert !IsVersionNumbers([-1]) by { assert [-1][0] < 1; }
  }

  lemma SameNumbers(r: Result<VersionString>, numbers: seq<int32>)
    requires r.Success? && |r.value.value| == |numbers|
    requires forall i :: 0 <= i < |numbers| ==> r.value.value[i] == numbers[i]
    ensures r == Success(VersionString(numbers))
  {
    assert r.value.value == numbers;
  }

  // ---------------------------------------------------------------------
  // Iteration

  /**
   * The bidirectional cursor over the version numbers. The index is not range-checked
   * by toIndex; a later getNext or getPrevious then moves it and fails with
   * ArrayIndexOutOfBoundsException.
   */
  class VersionIterator {
    const value: seq<int32>
    var index: int

    /** The cursor stands between two version numbers, or at either end. */
    ghost predicate Valid()
      reads this
    {
      0 <= index <= |value|
    }

    constructor (v: VersionString)
      ensures value == v.value && index == 0 && Valid()
    {
      value := v.value;
      index := 0;
    }

    /** toStart: before the first number. */
    method ToStart()
      modifies this
      ensures Valid() && index == 0
    {
      index := 0;
    }

    /**
     * toIndex: a positive index is ordinal (1 is the first number); zero or a
     * negative index counts back from the end.
     */
    method ToIndex(i: int32)
      modifies this
      ensures index == if i > 0 then i - 1 else |value| + i
      ensures Valid() <==> -|value| <= i <= |value| + 1
    {
      if i > 0 {
        index := i - 1;
      } else {
        index := |value| + i;
      }
    }

    /** toEnd: after the last number. */
    method ToEnd()
      modifies this
      ensures Valid() && index == |value|
    {
      index := |value|;
    }

    function HasPrevious(): (r: bool)
      reads this
      ensures r <==> index > 0
    {
      index > 0
    }

    /** getPrevious: one step back, then the number there; NoSuchElementException at the start. */
    method GetPrevious() returns (element: Result<int32>)
      modifies this
      ensures old(Valid()) ==> Valid()
      ensures old(index) == 0 ==> element == Failure(NoSuchElement) && index == 0
      ensures old(index) != 0 ==> index == old(index) - 1
      ensures old(index) != 0 ==>
                element == if 0 <= index < |value| then Success(value[index]) else Failure(IndexOutOfBounds)
    {
      if index == 0 {
        return Failure(NoSuchElement);
      }
      index := index - 1;
      if 0 <= index < |value| {
        element := Success(value[index]);
      } else {
        element := Failure(IndexOutOfBounds);
      }
    }

    function HasNext(): (r: bool)
      reads this
      ensures r <==> index < |value|
    {
      index < |value|
    }

    /** getNext: the number at the cursor, then one step forward; NoSuchElementException at the end. */
    method GetNext() returns (element: Result<int32>)
      modifies this
      ensures old(Valid()) ==> Valid()
      ensures old(index) == |value| ==> element == Failure(NoSuchElement) && index == old(index)
      ensures old(index) != |value| ==> index == old(index) + 1
      ensures old(index) != |value| ==>
                element == if 0 <= old(index) < |value| then Success(value[old(index)]) else Failure(IndexOutOfBounds)
    {
      if index == |value| {
        return Failure(NoSuchElement);
      }
      var at := index;
      index := index + 1;
      if 0 <= at < |value| {
        element := Success(value[at]);
      } else {
        element := Failure(IndexOutOfBounds);
      }
    }
  }
}
