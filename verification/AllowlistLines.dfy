/** What each line of the allowlist file stands for, in terms of the text on it. */
module AllowlistLines {
  import opened Wrappers
  import opened Strings
  import opened Allowlist

  predicate AllDrop(s: string, drop: char -> bool) {
    forall i | 0 <= i < |s| :: drop(s[i])
  }

  lemma {:induction false} StripLeftTo(left: string, rest: string, drop: char -> bool)
    requires AllDrop(left, drop) && (rest == "" || !drop(rest[0]))
    ensures StripLeft(left + rest, drop) == rest
  {
    if left != "" {
      assert (left + rest)[1..] == left[1..] + rest;
      StripLeftTo(left[1..], rest, drop);
    } else {
      assert left + rest == rest;
    }
  }

  lemma {:induction false} StripRightTo(rest: string, right: string, drop: char -> bool)
    requires AllDrop(right, drop) && (rest == "" || !drop(rest[|rest| - 1]))
    ensures StripRight(rest + right, drop) == rest
  {
    if right != "" {
      assert (rest + right)[..|rest + right| - 1] == rest + right[..|right| - 1];
      StripRightTo(rest, right[..|right| - 1], drop);
    } else {
      assert rest + right == rest;
    }
  }

  /** A name as it may be written: it neither starts nor ends with white space, nor ends with a dot. */
  predicate IsName(body: string) {
    body != "" && !IsSpace(body[0]) && !IsSpace(body[|body| - 1]) && body[|body| - 1] != '.' && '#' !in body
  }

  /** The name on a line, between white space, before final dots, and before a comment. */
  ghost predicate Shows(line: string, body: string) {
    exists left, dots, right, comment ::
      && line == left + (body + (dots + (right + comment)))
      && AllDrop(left, IsSpace) && AllDrop(dots, c => c == '.') && AllDrop(right, IsSpace)
      && (comment == "" || comment[0] == '#')
  }

  lemma BeforeComment(text: string, comment: string)
    requires '#' !in text && (comment == "" || comment[0] == '#')
    ensures BeforeHash(text + comment) == text
  {
    if comment == "" {
      assert text + comment == text;
    } else {
      assert text + comment == text + (['#'] + comment[1..]);
      SplitFirst(text, '#', comment[1..]);
    }
  }

  lemma Regrouped(left: string, body: string, dots: string, right: string, comment: string)
    ensures left + (body + (dots + (right + comment))) == (left + ((body + dots) + right)) + comment
  {
  }

  lemma StrippedParts(left: string, body: string, dots: string, right: string)
    requires IsName(body) && AllDrop(left, IsSpace) && AllDrop(dots, c => c == '.') && AllDrop(right, IsSpace)
    ensures var stripped := StripRight(StripLeft(left + ((body + dots) + right), IsSpace), IsSpace);
            StripRight(stripped, c => c == '.') == body
  {
    assert ((body + dots) + right)[0] == body[0];
    StripLeftTo(left, (body + dots) + right, IsSpace);
    assert (body + dots)[|body + dots| - 1] == if dots == "" then body[|body| - 1] else dots[|dots| - 1];
    StripRightTo(body + dots, right, IsSpace);
    StripRightTo(body, dots, c => c == '.');
  }

  lemma NoHash(left: string, body: string, dots: string, right: string)
    requires IsName(body) && AllDrop(left, IsSpace) && AllDrop(dots, c => c == '.') && AllDrop(right, IsSpace)
    ensures '#' !in left + ((body + dots) + right)
  {
  }

  lemma EntryOfParts(left: string, body: string, dots: string, right: string, comment: string)
    requires IsName(body) && AllDrop(left, IsSpace) && AllDrop(dots, c => c == '.') && AllDrop(right, IsSpace)
    requires comment == "" || comment[0] == '#'
    ensures Entry(left + (body + (dots + (right + comment)))) == Lower(body)
  {
    Regrouped(left, body, dots, right, comment);
    NoHash(left, body, dots, right);
    BeforeComment(left + ((body + dots) + right), comment);
    StrippedParts(left, body, dots, right);
  }

  /**
   * Main result: what a line with a name means.  It names a domain when the name,
   * in lower case, has no scheme, path, port or wildcard, is no address, and is a
   * name of more than one label; every other name makes the line bad.
   */
  lemma LineDecided(lib: Libraries, line: string, body: string)
    requires IsName(body) && Shows(line, body)
    ensures var value := Lower(body);
            var plain := '/' !in value && '*' !in value && ':' !in value;
            && (ReadLine(lib, line) == Bad(IpLiteral) <==> plain && lib.isIp(value))
            && (forall name :: ReadLine(lib, line) == Domain(name) <==>
                  plain && !lib.isIp(value) && lib.idna(value) == Some(name) && '.' in name)
            && (ReadLine(lib, line) == Bad(EntryInvalid) <==>
                  !plain || (!lib.isIp(value) && (lib.idna(value) == None || '.' !in lib.idna(value).value)))
  {
    var left, dots, right, comment :|
      && line == left + (body + (dots + (right + comment)))
      && AllDrop(left, IsSpace) && AllDrop(dots, c => c == '.') && AllDrop(right, IsSpace)
      && (comment == "" || comment[0] == '#');
    EntryOfParts(left, body, dots, right, comment);
  }

  /** A line of white space and a comment names nothing. */
  lemma BlankLines(lib: Libraries, left: string, comment: string)
    requires AllDrop(left, IsSpace) && (comment == "" || comment[0] == '#')
    ensures ReadLine(lib, left + comment) == Blank
  {
    BeforeComment(left, comment);
    StripLeftTo(left, "", IsSpace);
    assert left + "" == left;
  }

  lemma SplitAtFirst(left: string, separator: char, right: string)
    requires separator !in left
    ensures SplitAt(left + ([separator] + right), separator) == [left] + SplitAt(right, separator)
  {
    SplitFirst(left, separator, right);
  }

  lemma FirstLine(first: string, rest: seq<string>)
    ensures Lines([first] + rest) == first + (['\n'] + Lines(rest))
  {
    assert ([first] + rest)[1..] == rest;
    assert "\n" == ['\n'];
  }

  /** In the canonical text every domain has a line of its own, ended by a line break. */
  lemma {:induction false} LinesAreLines(domains: seq<string>)
    requires forall i | 0 <= i < |domains| :: '\n' !in domains[i]
    ensures SplitAt(Lines(domains), '\n') == domains + [""]
  {
    if domains != [] {
      var first, rest := domains[0], domains[1..];
      LinesAreLines(rest);
      FirstLine(first, rest);
      SplitAtFirst(first, '\n', Lines(rest));
      assert [first] + rest == domains;
      assert domains + [""] == [first] + (rest + [""]);
    }
  }
}
