/**
 * The provider allowlist: reading the file line by line and pinning its content
 * by the digest of a canonical text.
 */
module Allowlist {
  import opened Wrappers
  import opened Strings
  import opened Listings
  import opened CanonicalForms

  // ---------------------------------------------------------------- one line

  /** ASCII white space, as str.strip() takes it. */
  predicate IsSpace(c: char) {
    c == ' ' || '\t' <= c <= '\r' || 28 as char <= c <= 31 as char
  }

  function BeforeHash(line: string): string {
    if '#' in line then line[..IndexOf(line, '#')] else line
  }

  function Entry(line: string): string {
    Lower(StripRight(StripRight(StripLeft(BeforeHash(line), IsSpace), IsSpace), c => c == '.'))
  }

  datatype Denial = EntryInvalid | IpLiteral | Empty | HashMismatch

  datatype Reading = Blank | Domain(name: string) | Bad(reason: Denial)

  /** What the address and name libraries say of a text. */
  datatype Libraries = Libraries(isIp: string -> bool, idna: string -> Option<string>)

  function ReadLine(lib: Libraries, line: string): Reading {
    var value := Entry(line);
    if value == "" then Blank
    else if '/' in value || '*' in value || ':' in value then Bad(EntryInvalid)
    else if lib.isIp(value) then Bad(IpLiteral)
    else match lib.idna(value)
         case None => Bad(EntryInvalid)
         case Some(name) => if '.' in name then Domain(name) else Bad(EntryInvalid)
  }

  // ---------------------------------------------------------------- the file

  predicate Named(lib: Libraries, lines: seq<string>, name: string) {
    exists i | 0 <= i < |lines| :: ReadLine(lib, lines[i]) == Domain(name)
  }

  predicate NoneBad(lib: Libraries, lines: seq<string>) {
    forall i | 0 <= i < |lines| :: !ReadLine(lib, lines[i]).Bad?
  }

  predicate FirstBad(lib: Libraries, lines: seq<string>, reason: Denial) {
    exists i | 0 <= i < |lines| :: ReadLine(lib, lines[i]) == Bad(reason) && NoneBad(lib, lines[..i])
  }

  datatype Outcome = Accepted(domains: set<string>) | Denied(reason: Denial)

  lemma OneMoreLine(lib: Libraries, lines: seq<string>, line: string)
    ensures NoneBad(lib, lines + [line]) <==> NoneBad(lib, lines) && !ReadLine(lib, line).Bad?
    ensures forall name ::
              Named(lib, lines + [line], name) <==> Named(lib, lines, name) || ReadLine(lib, line) == Domain(name)
  {
    var longer := lines + [line];
    assert longer[|lines|] == line;
    assert forall i | 0 <= i < |lines| :: longer[i] == lines[i];
  }

  /** The domains that the file names, or the first reason to refuse it. */
  method ReadAllowlist(lib: Libraries, lines: seq<string>) returns (r: Outcome)
    ensures r.Accepted? ==>
              NoneBad(lib, lines) && r.domains != {} && forall name :: name in r.domains <==> Named(lib, lines, name)
    ensures r.Denied? ==>
              if r.reason == Empty then NoneBad(lib, lines) && !exists name :: Named(lib, lines, name)
              else FirstBad(lib, lines, r.reason)
  {
    var domains: set<string> := {};
    for i := 0 to |lines|
      invariant NoneBad(lib, lines[..i])
      invariant forall name :: name in domains <==> Named(lib, lines[..i], name)
    {
      var reading := ReadLine(lib, lines[i]);
      assert lines[..i + 1] == lines[..i] + [lines[i]];
      OneMoreLine(lib, lines[..i], lines[i]);
      match reading
      case Blank =>
      case Bad(reason) =>
        return Denied(reason);
      case Domain(name) =>
        domains := domains + {name};
    }
    assert lines[..|lines|] == lines;
    if domains == {} {
      return Denied(Empty);
    }
    return Accepted(domains);
  }

  // ---------------------------------------------------------------- the canonical text

  /** The sorted domains, one line each. */
  function Lines(domains: seq<string>): string {
    if domains == [] then "" else domains[0] + ("\n" + Lines(domains[1..]))
  }

  lemma {:induction false} LinesInjective(xs: seq<string>, ys: seq<string>)
    requires forall i | 0 <= i < |xs| :: '\n' !in xs[i]
    requires forall i | 0 <= i < |ys| :: '\n' !in ys[i]
    requires Lines(xs) == Lines(ys)
    ensures xs == ys
    decreases |xs|
  {
    if xs != [] && ys != [] {
      PeelSegment('\n', xs[0], Lines(xs[1..]), ys[0], Lines(ys[1..]));
      LinesInjective(xs[1..], ys[1..]);
    }
  }

  /** The accepted domains of a file: a set, listed without repetition, none with a line break. */
  ghost predicate ListsDomains(listing: seq<string>, domains: set<string>) {
    && (forall d :: d in listing <==> d in domains)
    && (forall i, j | 0 <= i < j < |listing| :: listing[i] != listing[j])
    && (forall d | d in domains :: '\n' !in d)
  }

  lemma {:induction false} DistinctBag(listing: seq<string>, domains: set<string>)
    requires ListsDomains(listing, domains)
    ensures multiset(listing) == multiset(domains)
    decreases |listing|
  {
    if listing != [] {
      var rest := listing[1..];
      assert listing == [listing[0]] + rest;
      forall d ensures d in rest <==> d in domains - {listing[0]} {
        if d in rest {
          var i :| 0 <= i < |rest| && rest[i] == d;
          assert listing[i + 1] == d && listing[0] != listing[i + 1];
        }
      }
      forall i, j | 0 <= i < j < |rest| ensures rest[i] != rest[j] {
        assert listing[i + 1] != listing[j + 1];
      }
      DistinctBag(rest, domains - {listing[0]});
      assert multiset(domains) == multiset{listing[0]} + multiset(domains - {listing[0]});
    } else {
      assert domains == {};
    }
  }

  /** Main result: two accepted allowlists have the same digest exactly when they name the same domains. */
  lemma AllowlistDigestIsExact(leq: (string, string) -> bool, digest: string -> string,
                               xs: seq<string>, first: set<string>, ys: seq<string>, second: set<string>)
    requires TotalOrder(leq) && forall s, t | digest(s) == digest(t) :: s == t
    requires ListsDomains(xs, first) && ListsDomains(ys, second)
    ensures digest(Lines(Sort(leq, xs))) == digest(Lines(Sort(leq, ys))) <==> first == second
  {
    DistinctBag(xs, first);
    DistinctBag(ys, second);
    SortSorts(leq, xs);
    SortSorts(leq, ys);
    SortIsCanonical(leq, xs, ys);
    forall d | d in Sort(leq, xs) || d in Sort(leq, ys) ensures '\n' !in d {
      assert d in multiset(Sort(leq, xs)) || d in multiset(Sort(leq, ys));
    }
    if digest(Lines(Sort(leq, xs))) == digest(Lines(Sort(leq, ys))) {
      LinesInjective(Sort(leq, xs), Sort(leq, ys));
      assert multiset(first) == multiset(second);
      assert first == second by {
        assert forall d :: d in first <==> d in multiset(first);
        assert forall d :: d in second <==> d in multiset(second);
      }
    }
  }

  // ---------------------------------------------------------------- the pinned file

  lemma EntryHasNoLineBreak(line: string)
    requires '\n' !in line
    ensures '\n' !in Entry(line)
  {
    StripLeftKeepsOut(BeforeHash(line), IsSpace, '\n');
    StripRightKeepsOut(StripLeft(BeforeHash(line), IsSpace), IsSpace, '\n');
    StripRightKeepsOut(StripRight(StripLeft(BeforeHash(line), IsSpace), IsSpace), c => c == '.', '\n');
  }

  /** The name library brings no line break into a name, and the lines have none. */
  ghost predicate Printable(lib: Libraries, lines: seq<string>) {
    && (forall value, name | lib.idna(value) == Some(name) && '\n' !in value :: '\n' !in name)
    && (forall i | 0 <= i < |lines| :: '\n' !in lines[i])
  }

  /** The domains have this digest. */
  ghost predicate Pins(leq: (string, string) -> bool, digest: string -> string, domains: set<string>, pinned: string) {
    exists listing :: ListsDomains(listing, domains) && digest(Lines(Sort(leq, listing))) == pinned
  }

  /** Loading: the file is taken when it reads well and its domains have the pinned digest. */
  method LoadAllowlist(lib: Libraries, leq: (string, string) -> bool, digest: string -> string,
                       lines: seq<string>, pinned: string) returns (r: Outcome)
    requires Printable(lib, lines)
    ensures r.Accepted? ==>
              && NoneBad(lib, lines) && r.domains != {}
              && (forall name :: name in r.domains <==> Named(lib, lines, name))
              && Pins(leq, digest, r.domains, pinned)
    ensures r.Denied? && r.reason != HashMismatch ==>
              if r.reason == Empty then NoneBad(lib, lines) && !exists name :: Named(lib, lines, name)
              else FirstBad(lib, lines, r.reason)
    ensures r == Denied(HashMismatch) && TotalOrder(leq) ==>
              NoneBad(lib, lines)
              && exists domains ::
                   (forall name :: name in domains <==> Named(lib, lines, name)) && !Pins(leq, digest, domains, pinned)
  {
    r := ReadAllowlist(lib, lines);
    if r.Denied? {
      return;
    }
    forall d | d in r.domains ensures '\n' !in d {
      var i :| 0 <= i < |lines| && ReadLine(lib, lines[i]) == Domain(d);
      EntryHasNoLineBreak(lines[i]);
    }
    var listing := Listed(r.domains);
    var canonical := Lines(Sort(leq, listing));
    if digest(canonical) != pinned {
      if TotalOrder(leq) {
        OneDigestPerSet(leq, digest, r.domains, listing, pinned);
      }
      return Denied(HashMismatch);
    }
  }

  lemma OneDigestPerSet(leq: (string, string) -> bool, digest: string -> string,
                        domains: set<string>, listing: seq<string>, pinned: string)
    requires TotalOrder(leq) && ListsDomains(listing, domains)
    ensures Pins(leq, digest, domains, pinned) <==> digest(Lines(Sort(leq, listing))) == pinned
  {
    forall other | ListsDomains(other, domains) ensures Sort(leq, other) == Sort(leq, listing) {
      DistinctBag(other, domains);
      DistinctBag(listing, domains);
      SortIsCanonical(leq, other, listing);
    }
  }

  /**
   * Main result: files taken under one pinned digest name the same domains, line by
   * line order, comments and repeats aside.
   */
  lemma PinnedFilesAgree(lib: Libraries, leq: (string, string) -> bool, digest: string -> string, pinned: string,
                         lines: seq<string>, first: set<string>, lines': seq<string>, second: set<string>)
    requires TotalOrder(leq) && forall s, t | digest(s) == digest(t) :: s == t
    requires forall name :: name in first <==> Named(lib, lines, name)
    requires forall name :: name in second <==> Named(lib, lines', name)
    requires Pins(leq, digest, first, pinned)
    ensures Pins(leq, digest, second, pinned) <==> forall name :: Named(lib, lines, name) <==> Named(lib, lines', name)
  {
    if Pins(leq, digest, second, pinned) {
      var xs :| ListsDomains(xs, first) && digest(Lines(Sort(leq, xs))) == pinned;
      var ys :| ListsDomains(ys, second) && digest(Lines(Sort(leq, ys))) == pinned;
      AllowlistDigestIsExact(leq, digest, xs, first, ys, second);
    }
    if forall name :: Named(lib, lines, name) <==> Named(lib, lines', name) {
      assert first == second;
    }
  }
}
