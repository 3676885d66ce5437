/**
 * TextString: an immutable wrapper around a Java string that can also be
 * walked with a bidirectional cursor.
 */
module TextStrings {
  import opened Errors
  import opened JavaLang

  datatype TextString = TextString(value: string)

  // ---------------------------------------------------------------------
  // Construction

  /** TextString(): the empty text. */
  function Empty(): (t: TextString)
    ensures IsEmpty(t) && Length(t) == 0
  {
    TextString("")
  }

  /** TextString(String) and TextString(CharSequence): holds exactly the given characters. */
  function FromString(value: string): (t: TextString)
    ensures ToString(t) == value && Length(t) == |value|
  {
    TextString(value)
  }

  /** TextString(char[]): String.copyValueOf, a copy of the array's current contents. */
  method FromChars(value: array<char>) returns (t: TextString)
    ensures ToString(t) == value[..]
  {
    t := TextString(value[..]);
  }

  /** TextString(Character[]): copies the boxed characters one by one into a char array. */
  method FromBoxedChars(value: array<char>) returns (t: TextString)
    ensures ToString(t) == value[..]
  {
    var size := value.Length;
    var chars := new char[size];
    for i := 0 to size
      invariant chars[..i] == value[..i]
    {
      chars[i] := value[i];
    }
    t := TextString(chars[..]);
  }

  // ---------------------------------------------------------------------
  // CharSequence

  /** toString: the wrapped string, from which the String constructor rebuilds the same text. */
  function ToString(t: TextString): (r: string)
    ensures TextString(r) == t
  {
    t.value
  }

  /** length: the number of characters. */
  function Length(t: TextString): (r: nat)
    ensures r == |ToString(t)|
  {
    |t.value|
  }

  /** charAt: the character at the index; StringIndexOutOfBoundsException outside 0..length-1. */
  function CharAt(t: TextString, index: int): (r: Result<char>)
    ensures r.Success? <==> 0 <= index < Length(t)
    ensures r.Success? ==> r.value == ToString(t)[index]
    ensures r.Failure? ==> r.error == IndexOutOfBounds
  {
    if 0 <= index < |t.value| then Success(t.value[index]) else Failure(IndexOutOfBounds)
  }

  /**
   * subSequence: the text of the characters from start up to (not including) end;
   * StringIndexOutOfBoundsException unless 0 <= start <= end <= length.
   */
  function SubSequence(t: TextString, start: int, end: int): (r: Result<TextString>)
    ensures r.Success? <==> 0 <= start <= end <= Length(t)
    ensures r.Success? ==> Length(r.value) == end - start
                           && forall i :: 0 <= i < end - start ==> CharAt(r.value, i) == CharAt(t, start + i)
    ensures r.Failure? ==> r.error == IndexOutOfBounds
  {
    if 0 <= start <= end <= |t.value| then Success(TextString(t.value[start..end]))
    else Failure(IndexOutOfBounds)
  }

  /** getSize: the number of characters, as length. */
  function GetSize(t: TextString): (r: nat)
    ensures r == Length(t)
  {
    |t.value|
  }

  /** isEmpty: holds exactly for the empty text. */
  function IsEmpty(t: TextString): (r: bool)
    ensures r <==> t == TextString("")
  {
    GetSize(t) == 0
  }

  // ---------------------------------------------------------------------
  // Arrays and iteration

  /** toArray: fills a new array by iterating over the characters. */
  method ToArray(t: TextString) returns (elements: array<char>)
    ensures fresh(elements) && elements[..] == ToString(t)
  {
    elements := new char[Length(t)];
    var index := 0;
    var cursor := new TextIterator(t);
    while cursor.HasNext()
      invariant cursor.Valid() && index == cursor.index
      invariant elements[..index] == t.value[..index]
      decreases |t.value| - index
    {
      var c := cursor.GetNext();
      elements[index] := c.value;
      index := index + 1;
    }
  }

  /** toArray followed by the Character[] constructor reproduces the text. */
  method ToArrayRoundTrip(t: TextString) returns (copy: TextString)
    ensures copy == t
  {
    var elements := ToArray(t);
    copy := FromBoxedChars(elements);
  }

  /** A full forward iteration visits exactly length characters. */
  method CountByIteration(t: TextString) returns (count: nat)
    ensures count == Length(t)
  {
    count := 0;
    var cursor := new TextIterator(t);
    while cursor.HasNext()
      invariant cursor.Valid() && count == cursor.index
      decreases |t.value| - count
    {
      var c := cursor.GetNext();
      count := count + 1;
    }
  }

  /**
   * The bidirectional cursor over the characters. The index is not range-checked
   * by toIndex; a later getNext or getPrevious then moves it and fails with
   * StringIndexOutOfBoundsException.
   */
  class TextIterator {
    const value: string
    var index: int

    /** The cursor stands between two characters, or at either end. */
    ghost predicate Valid()
      reads this
    {
      0 <= index <= |value|
    }

    constructor (t: TextString)
      ensures value == t.value && index == 0 && Valid()
    {
      value := t.value;
      index := 0;
    }

    /** toStart: before the first character. */
    method ToStart()
      modifies this
      ensures Valid() && index == 0
    {
      index := 0;
    }

    /**
     * toIndex: a positive index is ordinal (1 is the first character); zero or a
     * negative index counts back from the end.
     */
    method ToIndex(i: int32)
      modifies this
      ensures index == if i > 0 then i - 1 else |value| + i
      ensures Valid() <==> -|value| <= i <= |value| + 1
    {
      if i > 0 {
        index := i - 1;
      } else {
        index := |value| + i;
      }
    }

    /** toEnd: after the last character. */
    method ToEnd()
      modifies this
      ensures Valid() && index == |value|
    {
      index := |value|;
    }

    function HasPrevious(): (r: bool)
      reads this
      ensures r <==> index > 0
    {
      index > 0
    }

    /** getPrevious: one step back, then the character there; NoSuchElementException at the start. */
    method GetPrevious() returns (element: Result<char>)
      modifies this
      ensures old(Valid()) ==> Valid()
      ensures old(index) == 0 ==> element == Failure(NoSuchElement) && index == 0
      ensures old(index) != 0 ==> index == old(index) - 1
      ensures old(index) != 0 ==>
                element == if 0 <= index < |value| then Success(value[index]) else Failure(IndexOutOfBounds)
    {
      if index == 0 {
        return Failure(NoSuchElement);
      }
      index := index - 1;
      if 0 <= index < |value| {
        element := Success(value[index]);
      } else {
        element := Failure(IndexOutOfBounds);
      }
    }

    function HasNext(): (r: bool)
      reads this
      ensures r <==> index < |value|
    {
      index < |value|
    }

    /** getNext: the character at the cursor, then one step forward; NoSuchElementException at the end. */
    method GetNext() returns (element: Result<char>)
      modifies this
      ensures old(Valid()) ==> Valid()
      ensures old(index) == |value| ==> element == Failure(NoSuchElement) && index == old(index)
      ensures old(index) != |value| ==> index == old(index) + 1
      ensures old(index) != |value| ==>
                element == if 0 <= old(index) < |value| then Success(value[old(index)]) else Failure(IndexOutOfBounds)
    {
      if index == |value| {
        return Failure(NoSuchElement);
      }
      var at := index;
      index := index + 1;
      if 0 <= at < |value| {
        element := Success(value[at]);
      } else {
        element := Failure(IndexOutOfBounds);
      }
    }
  }
}
