/**
 * String length as .NET reports it. A Dafny `string` is a sequence of
 * Unicode scalar values, while `String.Length` counts UTF-16 code units:
 * a character outside the Basic Multilingual Plane takes two of them.
 */
module Text {
  /** The largest scalar value that UTF-16 encodes in a single code unit. */
  const MaxSingleUnit := 0xFFFF

  predicate InBasicPlane(c: char) {
    c as int <= MaxSingleUnit
  }

  /** The number of UTF-16 code units of `c`. */
  function Units(c: char): (n: nat)
    ensures n == 1 || n == 2
    ensures n == 1 <==> InBasicPlane(c)
  {
    if c as int <= MaxSingleUnit then 1 else 2
  }

  /** `String.Length`: the number of UTF-16 code units of `s`. */
  function Utf16Length(s: string): (n: nat)
    ensures |s| <= n <= 2 * |s|
  {
    if |s| == 0 then 0 else Units(s[0]) + Utf16Length(s[1..])
  }

  /** The lengths of the two parts of a string add up to its length. */
  lemma {:induction false} Utf16LengthAppend(a: string, b: string)
    ensures Utf16Length(a + b) == Utf16Length(a) + Utf16Length(b)
    decreases |a|
  {
    if |a| != 0 {
      assert (a + b)[0] == a[0] && (a + b)[1..] == a[1..] + b;
      Utf16LengthAppend(a[1..], b);
    } else {
      assert a + b == b;
    }
  }

  /**
   * `String.Length` agrees with the number of characters exactly when every
   * character lies in the Basic Multilingual Plane.
   */
  lemma {:induction false} Utf16LengthIsLength(s: string)
    ensures Utf16Length(s) == |s| <==> forall k :: 0 <= k < |s| ==> InBasicPlane(s[k])
  {
    if |s| != 0 {
      Utf16LengthIsLength(s[1..]);
      assert forall k :: 1 <= k < |s| ==> s[k] == s[1..][k - 1];
    }
  }
}
