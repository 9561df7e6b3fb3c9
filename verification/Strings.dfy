/** Splitting and joining texts at a separator, stripping, and lower case. */
module Strings {

  /** s.lower(), of ASCII texts */
  function Lower(s: string): string {
    seq(|s|, i requires 0 <= i < |s| => if 'A' <= s[i] <= 'Z' then s[i] - 'A' + 'a' else s[i])
  }

  /** The first position of a character. */
  function IndexOf(s: string, c: char): (i: nat)
    requires c in s
    ensures i < |s| && s[i] == c && c !in s[..i]
  {
    if s[0] == c then 0
    else
      var i := 1 + IndexOf(s[1..], c);
      assert s[..i] == [s[0]] + s[1..][..i - 1];
      i
  }

  /** s.split(separator) */
  function SplitAt(s: string, separator: char): seq<string>
    decreases |s|
  {
    if separator in s
    then [s[..IndexOf(s, separator)]] + SplitAt(s[IndexOf(s, separator) + 1..], separator)
    else [s]
  }

  /** separator.join(parts) */
  function Join(parts: seq<string>, separator: char): string {
    if parts == [] then ""
    else if |parts| == 1 then parts[0]
    else parts[0] + ([separator] + Join(parts[1..], separator))
  }

  /** Equal concatenations with equally long first parts agree part by part. */
  lemma Peel(a: string, rest: string, b: string, rest': string)
    requires a + rest == b + rest' && |a| == |b|
    ensures a == b && rest == rest'
  {
    assert a == (a + rest)[..|a|] && b == (b + rest')[..|b|];
    assert rest == (a + rest)[|a|..] && rest' == (b + rest')[|b|..];
  }

  /** Splitting at the first separator undoes putting one there. */
  lemma {:induction false} SplitFirst(left: string, separator: char, right: string)
    requires separator !in left
    ensures var s := left + ([separator] + right);
            && separator in s && IndexOf(s, separator) == |left|
            && s[..IndexOf(s, separator)] == left && s[IndexOf(s, separator) + 1..] == right
  {
    var s := left + ([separator] + right);
    assert s[|left|] == separator;
    if left != "" {
      SplitFirst(left[1..], separator, right);
      assert s[1..] == left[1..] + ([separator] + right);
    }
  }

  /** The text before the first separator and the text after it are determined by the whole. */
  lemma PeelSegment(separator: char, a: string, rest: string, b: string, rest': string)
    requires separator !in a && separator !in b
    requires a + ([separator] + rest) == b + ([separator] + rest')
    ensures a == b && rest == rest'
  {
    SplitFirst(a, separator, rest);
    SplitFirst(b, separator, rest');
  }

  lemma {:induction false} SplitUndoesJoin(parts: seq<string>, separator: char)
    requires parts != [] && forall i | 0 <= i < |parts| :: separator !in parts[i]
    ensures SplitAt(Join(parts, separator), separator) == parts
  {
    if |parts| > 1 {
      SplitFirst(parts[0], separator, Join(parts[1..], separator));
      SplitUndoesJoin(parts[1..], separator);
    }
  }

  // ---------------------------------------------------------------- stripping

  function StripLeft(s: string, drop: char -> bool): string {
    if s != "" && drop(s[0]) then StripLeft(s[1..], drop) else s
  }

  function StripRight(s: string, drop: char -> bool): string {
    if s != "" && drop(s[|s| - 1]) then StripRight(s[..|s| - 1], drop) else s
  }

  lemma {:induction false} StripRightKeepsOut(s: string, drop: char -> bool, c: char)
    requires c !in s
    ensures c !in StripRight(s, drop)
  {
    if s != "" {
      StripRightKeepsOut(s[..|s| - 1], drop, c);
    }
  }

  lemma {:induction false} StripLeftKeepsOut(s: string, drop: char -> bool, c: char)
    requires c !in s
    ensures c !in StripLeft(s, drop)
  {
    if s != "" {
      StripLeftKeepsOut(s[1..], drop, c);
    }
  }
}
