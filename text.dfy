/** The text the state key is built from: `int.ToString()` in decimal and `string.Join`
    with a one-character separator, together with the split that undoes a join. */
module Text {

  /** The decimal digit for 0 <= d < 10. */
  function Digit(d: int): (ch: char)
    requires 0 <= d < 10
    ensures '0' <= ch <= '9'
  {
    (('0' as int) + d) as char
  }

  predicate IsDigit(ch: char)
  {
    '0' <= ch <= '9'
  }

  /** The decimal text of a natural number, without leading zeros. */
  function NatText(n: nat): (s: string)
    ensures |s| > 0 && forall k :: 0 <= k < |s| ==> IsDigit(s[k])
    ensures |s| == 1 <==> n < 10
    decreases n
  {
    if n < 10 then [Digit(n)] else NatText(n / 10) + [Digit(n % 10)]
  }

  /** `int.ToString()`: a minus sign before the digits of a negative number. */
  function IntText(n: int): (s: string)
    ensures |s| > 0 && (s[0] == '-' <==> n < 0)
    ensures forall k :: 0 <= k < |s| ==> IsDigit(s[k]) || s[k] == '-'
  {
    if n < 0 then ['-'] + NatText(-n) else NatText(n)
  }

  lemma {:induction false} NatTextInjective(a: nat, b: nat)
    requires NatText(a) == NatText(b)
    ensures a == b
    decreases a
  {
    if a < 10 && b < 10 {
      assert Digit(a) == NatText(a)[0];
    } else if a >= 10 && b >= 10 {
      var sa, sb := NatText(a), NatText(b);
      assert sa[|sa| - 1] == Digit(a % 10) && sb[|sb| - 1] == Digit(b % 10);
      assert sa[..|sa| - 1] == NatText(a / 10) && sb[..|sb| - 1] == NatText(b / 10);
      NatTextInjective(a / 10, b / 10);
    }
  }

  /** Different numbers have different texts. */
  lemma IntTextInjective(a: int, b: int)
    requires IntText(a) == IntText(b)
    ensures a == b
  {
    if a < 0 && b < 0 {
      assert NatText(-a) == IntText(a)[1..] && NatText(-b) == IntText(b)[1..];
      NatTextInjective(-a, -b);
    } else if a >= 0 && b >= 0 {
      NatTextInjective(a, b);
    }
  }

  /** `string.Join(sep, parts)`. */
  function Join(sep: char, parts: seq<string>): string
  {
    if |parts| == 0 then []
    else if |parts| == 1 then parts[0]
    else parts[0] + [sep] + Join(sep, parts[1..])
  }

  /** The pieces between the occurrences of sep (there is always at least one). */
  function Split(sep: char, s: string): (parts: seq<string>)
    ensures |parts| > 0
  {
    if s == [] then [[]]
    else
      var rest := Split(sep, s[1..]);
      if s[0] == sep then [[]] + rest else [[s[0]] + rest[0]] + rest[1..]
  }

  predicate Free(ch: char, s: string)
  {
    forall k :: 0 <= k < |s| ==> s[k] != ch
  }

  predicate AllFree(ch: char, parts: seq<string>)
  {
    forall i :: 0 <= i < |parts| ==> Free(ch, parts[i])
  }

  /** Splitting a piece without sep followed by the rest of the text. */
  lemma {:induction false} SplitFreePrefix(sep: char, a: string, rest: string)
    requires Free(sep, a)
    ensures Split(sep, a + rest) == [a + Split(sep, rest)[0]] + Split(sep, rest)[1..]
    decreases |a|
  {
    if a != [] {
      assert (a + rest)[1..] == a[1..] + rest;
      SplitFreePrefix(sep, a[1..], rest);
      assert [a[0]] + (a[1..] + Split(sep, rest)[0]) == a + Split(sep, rest)[0];
    } else {
      var parts := Split(sep, rest);
      assert a + rest == rest && a + parts[0] == parts[0];
      assert [parts[0]] + parts[1..] == parts;
    }
  }

  /** Splitting a join of separator-free pieces gives the pieces back. */
  lemma {:induction false} SplitJoin(sep: char, parts: seq<string>)
    requires |parts| > 0 && AllFree(sep, parts)
    ensures Split(sep, Join(sep, parts)) == parts
    decreases |parts|
  {
    if |parts| == 1 {
      SplitFreePrefix(sep, parts[0], []);
      assert parts[0] + [] == parts[0];
    } else {
      var tail := Join(sep, parts[1..]);
      SplitJoin(sep, parts[1..]);
      assert Join(sep, parts) == parts[0] + ([sep] + tail);
      SplitFreePrefix(sep, parts[0], [sep] + tail);
      assert ([sep] + tail)[1..] == tail;
      assert Split(sep, [sep] + tail) == [[]] + parts[1..];
      assert parts[0] + [] == parts[0];
    }
  }

  /** A join of separator-free pieces determines its pieces. */
  lemma JoinInjective(sep: char, p: seq<string>, q: seq<string>)
    requires |p| > 0 && |q| > 0 && AllFree(sep, p) && AllFree(sep, q)
    requires Join(sep, p) == Join(sep, q)
    ensures p == q
  {
    SplitJoin(sep, p);
    SplitJoin(sep, q);
  }

  /** A character that is neither the separator nor in any piece is not in the join. */
  lemma {:induction false} JoinFree(ch: char, sep: char, parts: seq<string>)
    requires ch != sep && AllFree(ch, parts)
    ensures Free(ch, Join(sep, parts))
    decreases |parts|
  {
    if |parts| > 1 {
      JoinFree(ch, sep, parts[1..]);
    }
  }
}
