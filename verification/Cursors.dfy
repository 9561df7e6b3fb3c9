/** Signed pagination cursors: `payload.signature`, both parts in canonical base64url. */
module Cursors {
  import opened Wrappers
  import opened Strings
  import opened Base64Url

  datatype Payload = Payload(
    tenantId: string,
    dataDomainId: string,
    sortKey: string,
    tieBreaker: string,
    expiresAt: int)

  datatype Page = Accepted(payload: Payload) | InvalidCursor | ScopeMismatch

  /** The texts before and after the first dot. */
  function Parts(s: string): Option<(string, string)> {
    if '.' in s then Some((s[..IndexOf(s, '.')], s[IndexOf(s, '.') + 1..])) else None
  }

  lemma PartsIff(s: string, left: string, right: string)
    requires '.' !in left
    ensures Parts(s) == Some((left, right)) <==> s == left + "." + right
  {
    SplitFirst(left, '.', right);
    assert left + (['.'] + right) == left + "." + right;
    if Parts(s) == Some((left, right)) {
      assert s == s[..IndexOf(s, '.')] + "." + s[IndexOf(s, '.') + 1..];
    }
  }

  lemma EncodingHasNoDot(bytes: seq<Byte>)
    ensures '.' !in Base64Url.Encode(bytes)
  {
    SpellRoundTrip(ToSextets(bytes));
  }

  /** The two byte strings a cursor carries: the payload and the supplied signature. */
  function Carried(cursor: string): Option<(seq<Byte>, seq<Byte>)> {
    match Parts(cursor)
    case None => None
    case Some(parts) =>
      var raw, supplied := Base64Url.Decode(parts.0), Base64Url.Decode(parts.1);
      if raw.Some? && supplied.Some? then Some((raw.value, supplied.value)) else None
  }

  /** A pair of byte strings is carried by exactly one text. */
  lemma CarriedIff(cursor: string, raw: seq<Byte>, supplied: seq<Byte>)
    ensures Carried(cursor) == Some((raw, supplied)) <==>
            cursor == Base64Url.Encode(raw) + "." + Base64Url.Encode(supplied)
  {
    EncodingHasNoDot(raw);
    PartsIff(cursor, Base64Url.Encode(raw), Base64Url.Encode(supplied));
    if Parts(cursor).Some? {
      DecodeIffEncoded(Parts(cursor).value.0, raw);
      DecodeIffEncoded(Parts(cursor).value.1, supplied);
    }
  }

  /** The keyed digest, and the dumping and parsing of payloads as JSON text. */
  datatype Codec = Codec(
    hmac: seq<Byte> -> seq<Byte>,
    dump: Payload -> seq<Byte>,
    parse: seq<Byte> -> Option<Payload>)

  function Sign(codec: Codec, raw: seq<Byte>): string {
    Base64Url.Encode(raw) + "." + Base64Url.Encode((codec.hmac)(raw))
  }

  /** The cursor for a payload whose expiry the caller has set. */
  function EncodeCursor(codec: Codec, payload: Payload): string {
    Sign(codec, (codec.dump)(payload))
  }

  /** What the decoder says of a correctly signed payload. */
  function Judge(parsed: Option<Payload>, tenantId: string, dataDomainId: string, now: int): Page {
    match parsed
    case None => InvalidCursor
    case Some(payload) =>
      if payload.expiresAt <= now then InvalidCursor
      else if payload.tenantId != tenantId || payload.dataDomainId != dataDomainId then ScopeMismatch
      else Accepted(payload)
  }

  function DecodeCursor(codec: Codec, cursor: string, tenantId: string, dataDomainId: string, now: int): Page {
    match Carried(cursor)
    case None => InvalidCursor
    case Some(carried) =>
      if (codec.hmac)(carried.0) != carried.1 then InvalidCursor
      else Judge((codec.parse)(carried.0), tenantId, dataDomainId, now)
  }

  /** Main result: a cursor is accepted exactly when it is the one signed spelling of a live payload of this scope. */
  lemma AcceptedIffSigned(codec: Codec, cursor: string, tenantId: string, dataDomainId: string, now: int,
                          payload: Payload)
    ensures DecodeCursor(codec, cursor, tenantId, dataDomainId, now) == Accepted(payload) <==>
            exists raw :: cursor == Sign(codec, raw)
                          && Judge((codec.parse)(raw), tenantId, dataDomainId, now) == Accepted(payload)
  {
    if DecodeCursor(codec, cursor, tenantId, dataDomainId, now) == Accepted(payload) {
      var carried := Carried(cursor).value;
      CarriedIff(cursor, carried.0, carried.1);
      assert cursor == Sign(codec, carried.0);
    }
    forall raw | cursor == Sign(codec, raw) ensures Carried(cursor) == Some((raw, (codec.hmac)(raw))) {
      CarriedIff(cursor, raw, (codec.hmac)(raw));
    }
  }

  /** Two cursors that pass the signature check and carry the same payload bytes are the same text. */
  lemma OneSpellingPerPayload(codec: Codec, first: string, second: string, raw: seq<Byte>)
    requires Carried(first) == Some((raw, (codec.hmac)(raw)))
    requires Carried(second) == Some((raw, (codec.hmac)(raw)))
    ensures first == second == Sign(codec, raw)
  {
    CarriedIff(first, raw, (codec.hmac)(raw));
    CarriedIff(second, raw, (codec.hmac)(raw));
  }

  lemma DecodeSigned(codec: Codec, raw: seq<Byte>, tenantId: string, dataDomainId: string, now: int)
    ensures DecodeCursor(codec, Sign(codec, raw), tenantId, dataDomainId, now) ==
            Judge((codec.parse)(raw), tenantId, dataDomainId, now)
  {
    CarriedIff(Sign(codec, raw), raw, (codec.hmac)(raw));
  }

  /** The codec reads back what it dumps. */
  ghost predicate ParsesDumps(codec: Codec) {
    forall p: Payload :: (codec.parse)((codec.dump)(p)) == Some(p)
  }

  /** A cursor comes back as it was issued until it expires, and never under another scope. */
  lemma IssuedCursorReturns(codec: Codec, payload: Payload, tenantId: string, dataDomainId: string, now: int)
    requires ParsesDumps(codec)
    ensures DecodeCursor(codec, EncodeCursor(codec, payload), tenantId, dataDomainId, now) ==
            if payload.expiresAt <= now then InvalidCursor
            else if payload.tenantId != tenantId || payload.dataDomainId != dataDomainId then ScopeMismatch
            else Accepted(payload)
  {
    DecodeSigned(codec, (codec.dump)(payload), tenantId, dataDomainId, now);
  }
}
