/**
 * Three-way lexicographic comparison of integer sequences, the order that
 * BinaryString (over unsigned byte values), VersionString (over version
 * numbers) and Tag (over char codes) all use: the first differing element
 * decides, and a proper prefix comes first.
 */
module Ordering {
  import opened JavaLang

  /** -1, 0 or 1 as a comes before, equals or comes after b. */
  function Lex(a: seq<int>, b: seq<int>): (r: int)
    ensures r in {-1, 0, 1}
    decreases |a|
  {
    if a == [] || b == [] then IntegerCompare(|a|, |b|)
    else if a[0] != b[0] then IntegerCompare(a[0], b[0])
    else Lex(a[1..], b[1..])
  }

  /** a and b agree on their first k elements and a is smaller at position k. */
  ghost predicate SmallerAt(a: seq<int>, b: seq<int>, k: nat)
  {
    k < |a| && k < |b| && a[..k] == b[..k] && a[k] < b[k]
  }

  /** a is a proper prefix of b. */
  ghost predicate ProperPrefix(a: seq<int>, b: seq<int>)
  {
    |a| < |b| && a == b[..|a|]
  }

  /** The lexicographic order, stated without recursion. */
  ghost predicate Precedes(a: seq<int>, b: seq<int>)
  {
    (exists k: nat :: SmallerAt(a, b, k)) || ProperPrefix(a, b)
  }

  lemma {:induction false} LexZeroIffEqual(a: seq<int>, b: seq<int>)
    ensures Lex(a, b) == 0 <==> a == b
    decreases |a|
  {
    if a != [] && b != [] && a[0] == b[0] {
      LexZeroIffEqual(a[1..], b[1..]);
      if a[1..] == b[1..] {
        assert a == [a[0]] + a[1..] && b == [b[0]] + b[1..];
      }
    }
  }

  lemma {:induction false} LexAntisymmetric(a: seq<int>, b: seq<int>)
    ensures Lex(b, a) == -Lex(a, b)
    decreases |a|
  {
    if a != [] && b != [] && a[0] == b[0] {
      LexAntisymmetric(a[1..], b[1..]);
    }
  }

  lemma {:induction false} LexTransitive(a: seq<int>, b: seq<int>, c: seq<int>)
    requires Lex(a, b) == -1 && Lex(b, c) == -1
    ensures Lex(a, c) == -1
    decreases |a|
  {
    if a != [] && b != [] && c != [] && a[0] == b[0] && b[0] == c[0] {
      LexTransitive(a[1..], b[1..], c[1..]);
    }
  }

  /** Lex says "before" exactly when a precedes b in the non-recursive sense. */
  lemma {:induction false} LexBeforeIffPrecedes(a: seq<int>, b: seq<int>)
    ensures Lex(a, b) == -1 <==> Precedes(a, b)
    decreases |a|
  {
    if a == [] || b == [] {
      if Precedes(a, b) {
        var k: nat :| SmallerAt(a, b, k) || ProperPrefix(a, b);
      }
    } else if a[0] != b[0] {
      if a[0] < b[0] {
        assert SmallerAt(a, b, 0);
      }
    } else {
      LexBeforeIffPrecedes(a[1..], b[1..]);
      if Precedes(a[1..], b[1..]) {
        if k: nat :| SmallerAt(a[1..], b[1..], k) {
          assert a[..k + 1] == [a[0]] + a[1..][..k];
          assert b[..k + 1] == [b[0]] + b[1..][..k];
          assert SmallerAt(a, b, k + 1);
        } else {
          assert ProperPrefix(a[1..], b[1..]);
          assert a == [a[0]] + a[1..];
          assert b[..|a|] == [b[0]] + b[1..][..|a| - 1];
          assert ProperPrefix(a, b);
        }
      }
      if Precedes(a, b) {
        if k: nat :| SmallerAt(a, b, k) {
          assert k != 0;
          assert a[1..][..k - 1] == a[..k][1..] && b[1..][..k - 1] == b[..k][1..];
          assert SmallerAt(a[1..], b[1..], k - 1);
        } else {
          assert ProperPrefix(a, b);
          assert a[1..] == b[..|a|][1..] == b[1..][..|a| - 1];
          assert ProperPrefix(a[1..], b[1..]);
        }
      }
    }
  }

  /** Once two sequences agree on their first i elements, only the rest decides. */
  lemma {:induction false} LexDropCommonPrefix(a: seq<int>, b: seq<int>, i: nat)
    requires i <= |a| && i <= |b| && a[..i] == b[..i]
    ensures Lex(a, b) == Lex(a[i..], b[i..])
    decreases i
  {
    if i > 0 {
      assert a[0] == a[..i][0] && b[0] == b[..i][0];
      assert a[1..][..i - 1] == a[..i][1..] && b[1..][..i - 1] == b[..i][1..];
      LexDropCommonPrefix(a[1..], b[1..], i - 1);
      assert a[1..][i - 1..] == a[i..] && b[1..][i - 1..] == b[i..];
    }
  }

  /** A step of a left-to-right walk: equal elements at position i pass the decision on. */
  lemma LexStep(a: seq<int>, b: seq<int>, i: nat)
    requires i < |a| && i < |b|
    ensures a[i] == b[i] ==> Lex(a[i..], b[i..]) == Lex(a[i + 1..], b[i + 1..])
    ensures a[i] != b[i] ==> Lex(a[i..], b[i..]) == IntegerCompare(a[i], b[i])
  {
    assert a[i..][1..] == a[i + 1..] && b[i..][1..] == b[i + 1..];
  }
}
