/** Unpadded base64url (section 5 of RFC 4648) with the check that rejects non-canonical spellings. */
module Base64Url {
  import opened Wrappers

  /** Eight bits and six bits, the highest first. */
  datatype Byte = Byte(a: bool, b: bool, c: bool, d: bool, e: bool, f: bool, g: bool, h: bool)
  datatype Sextet = Sextet(a: bool, b: bool, c: bool, d: bool, e: bool, f: bool)

  function Bit(b: bool, weight: nat): nat {
    if b then weight else 0
  }

  function ValueIndex(x: Sextet): nat {
    Bit(x.a, 32) + Bit(x.b, 16) + Bit(x.c, 8) + Bit(x.d, 4) + Bit(x.e, 2) + Bit(x.f, 1)
  }

  function AtIndex(n: nat): Sextet {
    Sextet(n / 32 % 2 == 1, n / 16 % 2 == 1, n / 8 % 2 == 1, n / 4 % 2 == 1, n / 2 % 2 == 1, n % 2 == 1)
  }

  lemma IndexRoundTrip(x: Sextet)
    ensures ValueIndex(x) < 64 && AtIndex(ValueIndex(x)) == x
  {
  }

  /** The alphabet: A-Z, a-z, 0-9, then '-' and '_'. */
  function CharAt(n: nat): char
    requires n < 64
  {
    if n < 26 then ('A' as int + n) as char
    else if n < 52 then ('a' as int + (n - 26)) as char
    else if n < 62 then ('0' as int + (n - 52)) as char
    else if n == 62 then '-'
    else '_'
  }

  /** The decoder's table: it also takes '+' and '/', which the encoder never writes. */
  function IndexOfChar(c: char): Option<nat> {
    if 'A' <= c <= 'Z' then Some(c as int - 'A' as int)
    else if 'a' <= c <= 'z' then Some(c as int - 'a' as int + 26)
    else if '0' <= c <= '9' then Some(c as int - '0' as int + 52)
    else if c == '-' || c == '+' then Some(62)
    else if c == '_' || c == '/' then Some(63)
    else None
  }

  lemma CharRoundTrip(n: nat)
    requires n < 64
    ensures IndexOfChar(CharAt(n)) == Some(n) && CharAt(n) != '=' && CharAt(n) != '.'
  {
  }

  function CharOf(x: Sextet): char {
    IndexRoundTrip(x);
    CharAt(ValueIndex(x))
  }

  function ValueOf(c: char): Option<Sextet> {
    if IndexOfChar(c).Some? then Some(AtIndex(IndexOfChar(c).value)) else None
  }

  lemma ValueOfChar(x: Sextet)
    ensures ValueOf(CharOf(x)) == Some(x)
    ensures CharOf(x) != '=' && CharOf(x) != '.'
  {
    IndexRoundTrip(x);
    CharRoundTrip(ValueIndex(x));
  }

  // ---------------------------------------------------------------- bytes and sextets

  function First(x: Byte): Sextet { Sextet(x.a, x.b, x.c, x.d, x.e, x.f) }
  function Second(x: Byte, y: Byte): Sextet { Sextet(x.g, x.h, y.a, y.b, y.c, y.d) }
  function Third(y: Byte, z: Byte): Sextet { Sextet(y.e, y.f, y.g, y.h, z.a, z.b) }
  function Fourth(z: Byte): Sextet { Sextet(z.c, z.d, z.e, z.f, z.g, z.h) }

  const ZERO := Byte(false, false, false, false, false, false, false, false)

  function ToSextets(bytes: seq<Byte>): seq<Sextet> {
    if |bytes| == 0 then []
    else if |bytes| == 1 then [First(bytes[0]), Second(bytes[0], ZERO)]
    else if |bytes| == 2 then [First(bytes[0]), Second(bytes[0], bytes[1]), Third(bytes[1], ZERO)]
    else [First(bytes[0]), Second(bytes[0], bytes[1]), Third(bytes[1], bytes[2]), Fourth(bytes[2])]
         + ToSextets(bytes[3..])
  }

  function High(w: Sextet, x: Sextet): Byte { Byte(w.a, w.b, w.c, w.d, w.e, w.f, x.a, x.b) }
  function Middle(x: Sextet, y: Sextet): Byte { Byte(x.c, x.d, x.e, x.f, y.a, y.b, y.c, y.d) }
  function Low(y: Sextet, z: Sextet): Byte { Byte(y.e, y.f, z.a, z.b, z.c, z.d, z.e, z.f) }

  /** Left-over bits of a short last group are dropped. */
  function FromSextets(sextets: seq<Sextet>): Option<seq<Byte>> {
    if |sextets| == 0 then Some([])
    else if |sextets| == 1 then None
    else if |sextets| == 2 then Some([High(sextets[0], sextets[1])])
    else if |sextets| == 3 then Some([High(sextets[0], sextets[1]), Middle(sextets[1], sextets[2])])
    else
      match FromSextets(sextets[4..])
      case None => None
      case Some(rest) =>
        Some([High(sextets[0], sextets[1]), Middle(sextets[1], sextets[2]), Low(sextets[2], sextets[3])] + rest)
  }

  lemma {:induction false} SextetsRoundTrip(bytes: seq<Byte>)
    ensures FromSextets(ToSextets(bytes)) == Some(bytes)
  {
    if |bytes| >= 3 {
      SextetsRoundTrip(bytes[3..]);
      assert ToSextets(bytes)[4..] == ToSextets(bytes[3..]);
      assert bytes == [bytes[0], bytes[1], bytes[2]] + bytes[3..];
    } else if |bytes| == 2 {
      assert bytes == [bytes[0], bytes[1]];
    } else if |bytes| == 1 {
      assert bytes == [bytes[0]];
    }
  }

  // ---------------------------------------------------------------- text

  function Spell(sextets: seq<Sextet>): string {
    if sextets == [] then "" else [CharOf(sextets[0])] + Spell(sextets[1..])
  }

  function Read(text: string): Option<seq<Sextet>> {
    if text == "" then Some([])
    else
      var x, rest := ValueOf(text[0]), Read(text[1..]);
      if x.Some? && rest.Some? then Some([x.value] + rest.value) else None
  }

  lemma {:induction false} SpellRoundTrip(sextets: seq<Sextet>)
    ensures Read(Spell(sextets)) == Some(sextets)
    ensures '=' !in Spell(sextets) && '.' !in Spell(sextets)
  {
    if sextets != [] {
      ValueOfChar(sextets[0]);
      SpellRoundTrip(sextets[1..]);
      assert Spell(sextets)[1..] == Spell(sextets[1..]);
      assert [sextets[0]] + sextets[1..] == sextets;
    }
  }

  function WithoutPadding(text: string): string {
    if text != "" && text[|text| - 1] == '=' then WithoutPadding(text[..|text| - 1]) else text
  }

  /** urlsafe_b64encode with the padding stripped. */
  function Encode(bytes: seq<Byte>): string {
    Spell(ToSextets(bytes))
  }

  /** The library decoder, given the text with its padding restored. */
  function DecodeLeniently(text: string): Option<seq<Byte>> {
    match Read(WithoutPadding(text))
    case None => None
    case Some(sextets) => FromSextets(sextets)
  }

  function Decode(text: string): Option<seq<Byte>> {
    match DecodeLeniently(text)
    case None => None
    case Some(bytes) => if Encode(bytes) == text then Some(bytes) else None
  }

  /** Main result: decoding accepts exactly the encodings, and gives back what was encoded. */
  lemma DecodeIffEncoded(text: string, bytes: seq<Byte>)
    ensures Decode(text) == Some(bytes) <==> text == Encode(bytes)
  {
    SextetsRoundTrip(bytes);
    SpellRoundTrip(ToSextets(bytes));
  }

  /** The canonicality check is needed: the library decoder alone reads two spellings alike. */
  lemma LenientDecoderIsNotInjective()
    ensures DecodeLeniently("QQ") == DecodeLeniently("QR") && DecodeLeniently("QQ").Some?
    ensures Decode("QR") == None
  {
    var q, r := AtIndex(16), AtIndex(17);
    assert ValueOf('Q') == Some(q) && ValueOf('R') == Some(r);
    assert "QQ"[1..] == "Q" && "QR"[1..] == "R" && "Q"[1..] == "" && "R"[1..] == "";
    assert Read("Q").value == [q] && Read("R").value == [r];
    assert Read("QQ").value == [q, q] && Read("QR").value == [q, r];
    var a := High(q, r);
    assert FromSextets([q, q]) == FromSextets([q, r]) == Some([a]);
    assert ToSextets([a]) == [q, q];
    assert [q, q][1..] == [q] && [q][1..] == [];
    assert CharOf(q) == 'Q' && Spell([q]) == "Q";
    assert Spell([q, q]) == "QQ";
  }

  // ---------------------------------------------------------------- the standard's description

  /** The bits of a byte are numbered from the highest. */
  function BitOf(x: Byte, k: nat): bool
    requires k < 8
  {
    if k == 0 then x.a else if k == 1 then x.b else if k == 2 then x.c else if k == 3 then x.d
    else if k == 4 then x.e else if k == 5 then x.f else if k == 6 then x.g else x.h
  }

  /** The bytes as one row of bits, followed by zeros. */
  function BitAt(bytes: seq<Byte>, k: nat): bool {
    k / 8 < |bytes| && BitOf(bytes[k / 8], k % 8)
  }

  function SixFrom(bytes: seq<Byte>, k: nat): Sextet {
    Sextet(BitAt(bytes, k), BitAt(bytes, k + 1), BitAt(bytes, k + 2), BitAt(bytes, k + 3), BitAt(bytes, k + 4),
           BitAt(bytes, k + 5))
  }

  /** The byte at a position of the row, zeros behind its end. */
  function ByteAt(bytes: seq<Byte>, i: nat): Byte {
    if i < |bytes| then bytes[i] else ZERO
  }

  /** The bits of three bytes, six by six. */
  lemma SixesOfGroup(x: Byte, y: Byte, z: Byte)
    ensures SixFrom([x, y, z], 0) == First(x) && SixFrom([x, y, z], 6) == Second(x, y)
    ensures SixFrom([x, y, z], 12) == Third(y, z) && SixFrom([x, y, z], 18) == Fourth(z)
  {
  }

  function Piece(x: Byte, y: Byte, z: Byte, j: nat): Sextet
    requires j < 4
  {
    if j == 0 then First(x) else if j == 1 then Second(x, y) else if j == 2 then Third(y, z) else Fourth(z)
  }

  lemma FirstGroup(bytes: seq<Byte>, j: nat)
    requires j < 4 && j < |ToSextets(bytes)|
    ensures ToSextets(bytes)[j] == Piece(ByteAt(bytes, 0), ByteAt(bytes, 1), ByteAt(bytes, 2), j)
  {
  }

  lemma LaterSextets(bytes: seq<Byte>, i: nat)
    requires 4 <= i < |ToSextets(bytes)|
    ensures |bytes| >= 3 && i - 4 < |ToSextets(bytes[3..])| && ToSextets(bytes)[i] == ToSextets(bytes[3..])[i - 4]
  {
  }

  /** Every three bytes become four sextets, in their order. */
  lemma {:induction false} GroupsInOrder(bytes: seq<Byte>, g: nat, j: nat)
    requires j < 4 && 4 * g + j < |ToSextets(bytes)|
    ensures ToSextets(bytes)[4 * g + j] ==
            Piece(ByteAt(bytes, 3 * g), ByteAt(bytes, 3 * g + 1), ByteAt(bytes, 3 * g + 2), j)
    decreases g
  {
    if g == 0 {
      FirstGroup(bytes, j);
    } else {
      LaterSextets(bytes, 4 * g + j);
      GroupsInOrder(bytes[3..], g - 1, j);
    }
  }

  /** Table 2 of RFC 4648. */
  function Letter(n: nat): char
    requires n < 64
  {
    if n < 26 then "ABCDEFGHIJKLMNOPQRSTUVWXYZ"[n]
    else if n < 52 then "abcdefghijklmnopqrstuvwxyz"[n - 26]
    else "0123456789-_"[n - 52]
  }

  lemma AlphabetIsStandard(x: Sextet)
    ensures var n := Bit(x.a, 32) + Bit(x.b, 16) + Bit(x.c, 8) + Bit(x.d, 4) + Bit(x.e, 2) + Bit(x.f, 1);
            n < 64 && CharOf(x) == Letter(n)
  {
    IndexRoundTrip(x);
  }

  lemma {:induction false} SpellAt(sextets: seq<Sextet>)
    ensures |Spell(sextets)| == |sextets|
    ensures forall i | 0 <= i < |sextets| :: Spell(sextets)[i] == CharOf(sextets[i])
  {
    if sextets != [] {
      SpellAt(sextets[1..]);
    }
  }

  lemma {:induction false} SextetCount(bytes: seq<Byte>)
    ensures |ToSextets(bytes)| == (8 * |bytes| + 5) / 6
  {
    if |bytes| >= 3 {
      SextetCount(bytes[3..]);
    }
  }

  /** An encoding has as many characters as the bits need. */
  lemma EncodedLength(bytes: seq<Byte>)
    ensures |Encode(bytes)| == (8 * |bytes| + 5) / 6 == |ToSextets(bytes)|
  {
    SpellAt(ToSextets(bytes));
    SextetCount(bytes);
  }

  /** Main result: each four characters of an encoding stand for the bits of the next three bytes, six by six. */
  lemma EncodingIsStandard(bytes: seq<Byte>, g: nat, j: nat)
    requires j < 4 && 4 * g + j < |Encode(bytes)|
    ensures var group := [ByteAt(bytes, 3 * g), ByteAt(bytes, 3 * g + 1), ByteAt(bytes, 3 * g + 2)];
            Encode(bytes)[4 * g + j] == CharOf(SixFrom(group, 6 * j))
  {
    SpellAt(ToSextets(bytes));
    GroupsInOrder(bytes, g, j);
    SixesOfGroup(ByteAt(bytes, 3 * g), ByteAt(bytes, 3 * g + 1), ByteAt(bytes, 3 * g + 2));
  }
}
