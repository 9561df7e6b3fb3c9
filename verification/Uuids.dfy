/** UUIDs and their text: thirty-two hexadecimal digits in five groups. */
module Uuids {
  type Uuid = s: seq<nat> | |s| == 32 && forall i | 0 <= i < 32 :: s[i] < 16 witness seq(32, _ => 0)

  function HexDigit(d: nat): char
    requires d < 16
  {
    if d < 10 then ('0' as int + d) as char else ('a' as int + (d - 10)) as char
  }

  predicate IsHyphen(i: nat) {
    i == 8 || i == 13 || i == 18 || i == 23
  }

  /** The digit shown at a position of the text. */
  function DigitAt(i: nat): (j: nat)
    requires i < 36 && !IsHyphen(i)
    ensures j < 32
  {
    if i < 8 then i else if i < 13 then i - 1 else if i < 18 then i - 2 else if i < 23 then i - 3 else i - 4
  }

  /** The position at which a digit is shown. */
  function PositionOf(j: nat): (i: nat)
    requires j < 32
    ensures i < 36 && !IsHyphen(i) && DigitAt(i) == j
  {
    if j < 8 then j else if j < 12 then j + 1 else if j < 16 then j + 2 else if j < 20 then j + 3 else j + 4
  }

  function Text(u: Uuid): (s: string)
    ensures |s| == 36
  {
    seq(36, i requires 0 <= i < 36 => if IsHyphen(i) then '-' else HexDigit(u[DigitAt(i)]))
  }

  lemma TextInjective(u: Uuid, v: Uuid)
    requires Text(u) == Text(v)
    ensures u == v
  {
    forall j | 0 <= j < 32 ensures u[j] == v[j] {
      assert Text(u)[PositionOf(j)] == Text(v)[PositionOf(j)];
    }
  }

  /** No separator that the keys and settings use occurs in the text. */
  lemma TextIsPlain(u: Uuid)
    ensures ',' !in Text(u) && '/' !in Text(u) && ':' !in Text(u) && '_' !in Text(u)
  {
  }

  function Hex(digits: seq<nat>): (s: string)
    requires forall i | 0 <= i < |digits| :: digits[i] < 16
    ensures |s| == |digits|
  {
    seq(|digits|, i requires 0 <= i < |digits| => "0123456789abcdef"[digits[i]])
  }

  /** Groups of eight, four, four, four and twelve digits, in lower case. */
  lemma TextGroups(u: Uuid)
    ensures Text(u) == Hex(u[..8]) + ("-" + (Hex(u[8..12]) + ("-" + (Hex(u[12..16]) + ("-" + (Hex(u[16..20])
                       + ("-" + Hex(u[20..]))))))))
  {
  }
}
