/** Local references as JSON Pointers (RFC 6901) and their evaluation in a document. */
module JsonPointers {
  import opened Wrappers
  import opened Strings
  import opened Json

  /** str.replace of a two-character text by one character. */
  function Replace(s: string, first: char, second: char, into: char): string {
    if |s| < 2 then s
    else if s[0] == first && s[1] == second then [into] + Replace(s[2..], first, second, into)
    else [s[0]] + Replace(s[1..], first, second, into)
  }

  /** Undoes the escapes, "~1" before "~0". */
  function Unescape(token: string): string {
    Replace(Replace(token, '~', '1', '/'), '~', '0', '~')
  }

  /** Section 4 of RFC 6901: "~" is written "~0" and "/" is written "~1". */
  function Escape(key: string): string {
    if key == "" then ""
    else (if key[0] == '~' then "~0" else if key[0] == '/' then "~1" else [key[0]]) + Escape(key[1..])
  }

  /** The half-way text: slashes restored, tildes still escaped. */
  function EscapeTildes(key: string): string {
    if key == "" then ""
    else (if key[0] == '~' then "~0" else [key[0]]) + EscapeTildes(key[1..])
  }

  lemma {:induction false} SlashesUndone(key: string)
    ensures Replace(Escape(key), '~', '1', '/') == EscapeTildes(key)
  {
    if key != "" {
      SlashesUndone(key[1..]);
      var e := Escape(key[1..]);
      if key[0] == '~' {
        assert ("~0" + e)[1..] == "0" + e;
        ReplaceCons('0', e, '1', '/');
      } else if key[0] == '/' {
        assert ("~1" + e)[2..] == e;
      } else {
        ReplaceCons(key[0], e, '1', '/');
      }
    }
  }

  lemma ReplaceCons(c: char, rest: string, second: char, into: char)
    requires c != '~'
    ensures Replace([c] + rest, '~', second, into) == [c] + Replace(rest, '~', second, into)
  {
    if rest != "" {
      assert ([c] + rest)[1..] == rest;
    }
  }

  lemma {:induction false} TildesUndone(key: string)
    ensures Replace(EscapeTildes(key), '~', '0', '~') == key
  {
    if key != "" {
      TildesUndone(key[1..]);
      var e := EscapeTildes(key[1..]);
      assert key == [key[0]] + key[1..];
      if key[0] == '~' {
        assert ("~0" + e)[2..] == e;
      } else {
        ReplaceCons(key[0], e, '0', '~');
      }
    }
  }

  lemma UnescapeUndoesEscape(key: string)
    ensures Unescape(Escape(key)) == key
  {
    SlashesUndone(key);
    TildesUndone(key);
  }

  /** The other order would turn the escape of "~1" into a slash. */
  lemma OrderMatters()
    ensures Unescape(Escape("~1")) == "~1"
    ensures Replace(Replace(Escape("~1"), '~', '0', '~'), '~', '1', '/') == "/"
  {
    UnescapeUndoesEscape("~1");
    assert "~1"[1..] == "1" && "1"[1..] == "";
    assert Escape("1") == "1";
    assert Escape("~1") == "~01";
    assert "~01"[2..] == "1";
    assert Replace("~01", '~', '0', '~') == "~1";
    assert "~1"[2..] == "";
  }

  lemma {:induction false} EscapedHasNoSlash(key: string)
    ensures '/' !in Escape(key)
  {
    if key != "" {
      EscapedHasNoSlash(key[1..]);
    }
  }

  // ---------------------------------------------------------------- evaluation

  /** The value reached by following keys through dictionaries. */
  function Follow(value: Json, keys: seq<string>): Option<Json> {
    if keys == [] then Some(value)
    else if !value.Obj? || keys[0] !in value.fields then None
    else Follow(value.fields[keys[0]], keys[1..])
  }

  datatype Evaluation = Found(value: Json) | ExternalReference | Unresolvable

  /** The loop over the tokens; it descends one dictionary per token. */
  method JsonPointer(document: Json, ref: string) returns (r: Evaluation)
    ensures r.ExternalReference? <==> |ref| < 2 || ref[..2] != "#/"
    ensures |ref| >= 2 && ref[..2] == "#/" ==>
              r == match Follow(document, UnescapeAll(SplitAt(ref[2..], '/')))
                   case Some(value) => Found(value)
                   case None => Unresolvable
  {
    if |ref| < 2 || ref[..2] != "#/" {
      return ExternalReference;
    }
    var tokens := SplitAt(ref[2..], '/');
    ghost var keys := UnescapeAll(tokens);
    var value := document;
    for i := 0 to |tokens|
      invariant Follow(value, keys[i..]) == Follow(document, keys)
    {
      var token := Unescape(tokens[i]);
      assert keys[i..][0] == token && keys[i..][1..] == keys[i + 1..];
      if !value.Obj? || token !in value.fields {
        return Unresolvable;
      }
      value := value.fields[token];
    }
    return Found(value);
  }

  function UnescapeAll(tokens: seq<string>): (r: seq<string>)
    ensures |r| == |tokens| && forall i | 0 <= i < |r| :: r[i] == Unescape(tokens[i])
  {
    seq(|tokens|, i requires 0 <= i < |tokens| => Unescape(tokens[i]))
  }

  function EscapeAll(keys: seq<string>): (r: seq<string>)
    ensures |r| == |keys| && forall i | 0 <= i < |r| :: r[i] == Escape(keys[i])
  {
    seq(|keys|, i requires 0 <= i < |keys| => Escape(keys[i]))
  }

  /** The reference text of a path of keys. */
  function ReferenceTo(keys: seq<string>): string {
    "#/" + Join(EscapeAll(keys), '/')
  }

  /** The keys that the evaluation of a reference follows. */
  function KeysOf(ref: string): seq<string>
    requires |ref| >= 2
  {
    UnescapeAll(SplitAt(ref[2..], '/'))
  }

  /** Main result: a path of keys, escaped and joined, evaluates to exactly the value at that path. */
  lemma PointerRoundTrip(document: Json, keys: seq<string>)
    requires keys != []
    ensures ReferenceTo(keys)[..2] == "#/" && KeysOf(ReferenceTo(keys)) == keys
    ensures Follow(document, KeysOf(ReferenceTo(keys))) == Follow(document, keys)
  {
    forall i | 0 <= i < |keys| ensures '/' !in EscapeAll(keys)[i] && Unescape(EscapeAll(keys)[i]) == keys[i] {
      EscapedHasNoSlash(keys[i]);
      UnescapeUndoesEscape(keys[i]);
    }
    SplitUndoesJoin(EscapeAll(keys), '/');
    assert ReferenceTo(keys)[2..] == Join(EscapeAll(keys), '/');
    assert KeysOf(ReferenceTo(keys)) == keys;
  }

  /** Different paths have different reference texts. */
  lemma ReferencesDistinct(keys: seq<string>, keys': seq<string>)
    requires keys != [] && keys' != [] && ReferenceTo(keys) == ReferenceTo(keys')
    ensures keys == keys'
  {
    PointerRoundTrip(Null, keys);
    PointerRoundTrip(Null, keys');
  }

  /** The escapes of section 4 of RFC 6901, and its example of their order. */
  lemma StandardEscapes()
    ensures Unescape("~1") == "/" && Unescape("~0") == "~" && Unescape("~01") == "~1"
    ensures Unescape("a~1b") == "a/b" && Unescape("m~0n") == "m~n"
  {
    assert "~01"[1..] == "01" && "01"[1..] == "1" && "~01"[2..] == "1";
    assert "a~1b"[1..] == "~1b" && "~1b"[2..] == "b" && "a/b"[1..] == "/b" && "/b"[1..] == "b";
    assert "m~0n"[1..] == "~0n" && "~0n"[1..] == "0n" && "0n"[1..] == "n" && "~0n"[2..] == "n";
  }
}
