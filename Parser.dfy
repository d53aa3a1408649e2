/**
 * `parse_ip_list`: turns a fetched text body into records, one per line whose
 * first token is a valid address, all tagged with the same provenance.
 */
module Parser {
  import opened Wrappers
  import opened Text

  const Source: string := "blocklist.de/lists"

  /** One stored document: `ip`, `service`, `source` and `fetched_at`. */
  datatype Record = Record(ip: string, service: string, source: string, fetchedAt: int)

  /** The address token a line offers: none for a blank or `#` line, else the stripped line's first token. */
  function Candidate(line: string): Option<string> {
    var t := Strip(line);
    if t == [] || t[0] == '#' then None else Some(FirstToken(t))
  }

  /** The records one line contributes: none, or one for its token when `valid` accepts it. */
  function ParseLine(line: string, service: string, now: int, valid: string -> bool): seq<Record> {
    match Candidate(line)
    case None => []
    case Some(token) => if valid(token) then [Record(token, service, Source, now)] else []
  }

  /** The records of `lines`, in line order. */
  function ParseLines(lines: seq<string>, service: string, now: int, valid: string -> bool): seq<Record> {
    if lines == [] then []
    else ParseLines(lines[..|lines| - 1], service, now, valid) + ParseLine(lines[|lines| - 1], service, now, valid)
  }

  /**
   * `parse_ip_list(text, service)` with `datetime.utcnow()` given as `now` and
   * `ipaddress.ip_address` as the predicate `valid`.
   */
  method ParseIpList(text: string, service: string, now: int, valid: string -> bool) returns (docs: seq<Record>)
    ensures docs == ParseLines(SplitLines(text), service, now, valid)
    ensures |docs| <= |SplitLines(text)|
    ensures forall k :: 0 <= k < |docs| ==>
      docs[k].service == service && docs[k].source == Source && docs[k].fetchedAt == now && valid(docs[k].ip)
  {
    var lines := SplitLines(text);
    docs := [];
    for k := 0 to |lines|
      invariant docs == ParseLines(lines[..k], service, now, valid)
    {
      assert lines[..k + 1][..k] == lines[..k];
      var line := Strip(lines[k]);
      if line == [] || line[0] == '#' {
        continue;
      }
      var token := FirstToken(line);
      if !valid(token) {
        continue;
      }
      docs := docs + [Record(token, service, Source, now)];
    }
    assert lines[..|lines|] == lines;
    ParsedRecords(lines, service, now, valid);
  }

  // ---------------------------------------------------------------------------
  // Properties

  /**
   * A line yields a record exactly when, stripped, it is non-empty, does not start
   * with `#` and its first token is valid; the record carries that token.
   */
  lemma ParseLineMeaning(line: string, service: string, now: int, valid: string -> bool)
    ensures |ParseLine(line, service, now, valid)| <= 1
    ensures ParseLine(line, service, now, valid) != [] <==>
      Strip(line) != [] && Strip(line)[0] != '#' && valid(FirstToken(Strip(line)))
    ensures ParseLine(line, service, now, valid) != [] ==>
      ParseLine(line, service, now, valid)[0] == Record(FirstToken(Strip(line)), service, Source, now)
  {
  }

  lemma ParseLinesSnoc(lines: seq<string>, line: string, service: string, now: int, valid: string -> bool)
    ensures ParseLines(lines + [line], service, now, valid) ==
      ParseLines(lines, service, now, valid) + ParseLine(line, service, now, valid)
  {
    assert (lines + [line])[..|lines|] == lines;
  }

  /** Parsing distributes over concatenation: each line is parsed on its own. */
  lemma {:induction false} ParseLinesAppend(a: seq<string>, b: seq<string>, service: string, now: int, valid: string -> bool)
    ensures ParseLines(a + b, service, now, valid) == ParseLines(a, service, now, valid) + ParseLines(b, service, now, valid)
    decreases |b|
  {
    if b == [] {
      assert a + b == a;
    } else {
      var b', line := b[..|b| - 1], b[|b| - 1];
      assert a + b == (a + b') + [line];
      assert b == b' + [line];
      var pa, pb, pl := ParseLines(a, service, now, valid), ParseLines(b', service, now, valid), ParseLine(line, service, now, valid);
      calc {
        ParseLines(a + b, service, now, valid);
        == { ParseLinesSnoc(a + b', line, service, now, valid); }
        ParseLines(a + b', service, now, valid) + pl;
        == { ParseLinesAppend(a, b', service, now, valid); }
        pa + pb + pl;
        == pa + (pb + pl);
        == { ParseLinesSnoc(b', line, service, now, valid); }
        pa + ParseLines(b, service, now, valid);
      }
    }
  }

  /** A line that yields nothing (blank, comment or invalid token) does not affect its neighbours. */
  lemma DroppedLineIsInert(a: seq<string>, line: string, b: seq<string>, service: string, now: int, valid: string -> bool)
    requires ParseLine(line, service, now, valid) == []
    ensures ParseLines(a + [line] + b, service, now, valid) == ParseLines(a + b, service, now, valid)
  {
    ParseLinesAppend(a + [line], b, service, now, valid);
    ParseLinesAppend(a, [line], service, now, valid);
    ParseLinesAppend(a, b, service, now, valid);
    ParseSingleLine(line, service, now, valid);
  }

  lemma ParseSingleLine(line: string, service: string, now: int, valid: string -> bool)
    ensures ParseLines([line], service, now, valid) == ParseLine(line, service, now, valid)
  {
    assert [line][..0] == [];
  }

  /**
   * Every record carries the argument `service`, the constant source, the one
   * timestamp and a valid, non-empty, whitespace-free token not starting with `#`;
   * there are at most as many records as lines.
   */
  lemma {:induction false} ParsedRecords(lines: seq<string>, service: string, now: int, valid: string -> bool)
    ensures |ParseLines(lines, service, now, valid)| <= |lines|
    ensures forall k :: 0 <= k < |ParseLines(lines, service, now, valid)| ==>
      var d := ParseLines(lines, service, now, valid)[k];
      && d.service == service && d.source == Source && d.fetchedAt == now
      && valid(d.ip) && d.ip != [] && NoSpace(d.ip) && d.ip[0] != '#'
    decreases |lines|
  {
    if lines != [] {
      var init := lines[..|lines| - 1];
      ParsedRecords(init, service, now, valid);
      var line := lines[|lines| - 1];
      var t := Strip(line);
      if t != [] && t[0] != '#' {
        var i, j := StripSlice(line);
        assert !IsSpace(t[0]);
      }
    }
  }

  // ---------------------------------------------------------------------------
  // IPv4 dotted-decimal, as `ipaddress.IPv4Address` accepts it

  /** The first index at or after `i` holding `sep`, or `|s|`. */
  function IndexOf(s: string, sep: char, i: nat): (j: nat)
    requires i <= |s|
    ensures i <= j <= |s|
    ensures forall k :: i <= k < j ==> s[k] != sep
    ensures j < |s| ==> s[j] == sep
    decreases |s| - i
  {
    if i == |s| || s[i] == sep then i else IndexOf(s, sep, i + 1)
  }

  /** Python's `s.split(sep)`: always one more piece than there are separators. */
  function SplitOn(s: string, sep: char): (parts: seq<string>)
    ensures |parts| >= 1
    decreases |s|
  {
    var j := IndexOf(s, sep, 0);
    if j == |s| then [s] else [s[..j]] + SplitOn(s[j + 1..], sep)
  }

  /** An octet: one to three ASCII digits, no leading zero, at most 255. */
  predicate IsOctet(o: string) {
    && 0 < |o| <= 3
    && (forall k :: 0 <= k < |o| ==> IsDigit(o[k]))
    && (o == "0" || o[0] != '0')
    && DigitsValue(o) <= 255
  }

  /** `ipaddress.IPv4Address(s)` succeeds: four dot-separated octets. */
  predicate IsIPv4Address(s: string) {
    var parts := SplitOn(s, '.');
    |parts| == 4 && forall k :: 0 <= k < 4 ==> IsOctet(parts[k])
  }

  /** Four strings joined by dots. */
  function Dotted(a: string, b: string, c: string, d: string): string {
    a + ['.'] + (b + ['.'] + (c + ['.'] + d))
  }

  /** `f"{a}.{b}.{c}.{d}"` for natural numbers. */
  function DottedQuad(a: nat, b: nat, c: nat, d: nat): string {
    Dotted(NatToString(a), NatToString(b), NatToString(c), NatToString(d))
  }

  lemma {:induction false} NatToStringShape(n: nat)
    ensures NatToString(n)[0] != '0' || n == 0
    ensures n == 0 ==> NatToString(n) == "0"
    ensures n <= 255 ==> |NatToString(n)| <= 3
  {
    if n >= 10 {
      NatToStringShape(n / 10);
      assert NatToString(n)[0] == NatToString(n / 10)[0];
    }
  }

  lemma OctetOfNat(n: nat)
    requires n <= 255
    ensures IsOctet(NatToString(n))
  {
    NatToStringShape(n);
    DigitsValueOfNatToString(n);
  }

  /** Splitting `a + [sep] + b`, where `a` holds no `sep`, gives `a` and then the pieces of `b`. */
  lemma SplitOnCons(a: string, sep: char, b: string)
    requires forall k :: 0 <= k < |a| ==> a[k] != sep
    ensures SplitOn(a + [sep] + b, sep) == [a] + SplitOn(b, sep)
  {
    var s := a + [sep] + b;
    IndexOfAt(s, sep, 0, |a|);
    assert s[..|a|] == a;
    assert s[|a| + 1..] == b;
  }

  lemma {:induction false} IndexOfAt(s: string, sep: char, i: nat, j: nat)
    requires i <= j < |s| && s[j] == sep
    requires forall k :: i <= k < j ==> s[k] != sep
    ensures IndexOf(s, sep, i) == j
    decreases j - i
  {
    if i < j {
      IndexOfAt(s, sep, i + 1, j);
    }
  }

  lemma SplitOnNone(a: string, sep: char)
    requires forall k :: 0 <= k < |a| ==> a[k] != sep
    ensures SplitOn(a, sep) == [a]
  {
  }

  lemma OctetHasNoDot(o: string)
    requires IsOctet(o)
    ensures NoDot(o)
  {
    forall k | 0 <= k < |o|
      ensures o[k] != '.'
    {
      assert IsDigit(o[k]);
    }
  }

  predicate NoDot(s: string) {
    forall k :: 0 <= k < |s| ==> s[k] != '.'
  }

  /** Splitting four dot-free strings joined by dots gives them back. */
  lemma SplitDotted(sa: string, sb: string, sc: string, sd: string)
    requires NoDot(sa) && NoDot(sb) && NoDot(sc) && NoDot(sd)
    ensures SplitOn(Dotted(sa, sb, sc, sd), '.') == [sa, sb, sc, sd]
  {
    var t3 := sc + ['.'] + sd;
    var t2 := sb + ['.'] + t3;
    var t1 := sa + ['.'] + t2;
    var p4 := SplitOn(sd, '.');
    var p3 := SplitOn(t3, '.');
    var p2 := SplitOn(t2, '.');
    var p1 := SplitOn(t1, '.');
    assert p4 == [sd] by { SplitOnNone(sd, '.'); }
    assert p3 == [sc] + p4 by { SplitOnCons(sc, '.', sd); }
    assert p2 == [sb] + p3 by { SplitOnCons(sb, '.', t3); }
    assert p1 == [sa] + p2 by { SplitOnCons(sa, '.', t2); }
    assert Dotted(sa, sb, sc, sd) == t1;
    assert [sa] + ([sb] + ([sc] + [sd])) == [sa, sb, sc, sd];
  }

  /** Four octets joined by dots form a valid IPv4 address. */
  lemma OctetsJoinedAreIPv4(sa: string, sb: string, sc: string, sd: string)
    requires IsOctet(sa) && IsOctet(sb) && IsOctet(sc) && IsOctet(sd)
    ensures IsIPv4Address(Dotted(sa, sb, sc, sd))
  {
    OctetHasNoDot(sa);
    OctetHasNoDot(sb);
    OctetHasNoDot(sc);
    OctetHasNoDot(sd);
    SplitDotted(sa, sb, sc, sd);
  }

  /** Every dotted quad of numbers 0..255, written in decimal, is a valid IPv4 address. */
  lemma DottedQuadIsIPv4(a: nat, b: nat, c: nat, d: nat)
    requires a <= 255 && b <= 255 && c <= 255 && d <= 255
    ensures IsIPv4Address(DottedQuad(a, b, c, d))
  {
    OctetOfNat(a);
    OctetOfNat(b);
    OctetOfNat(c);
    OctetOfNat(d);
    OctetsJoinedAreIPv4(NatToString(a), NatToString(b), NatToString(c), NatToString(d));
  }

  // ---------------------------------------------------------------------------
  // A worked body

  predicate IsPrintableAscii(s: string) {
    forall k :: 0 <= k < |s| ==> ' ' <= s[k] <= '~'
  }

  lemma PrintableHasNoLineBreak(s: string)
    requires IsPrintableAscii(s)
    ensures NoLineBreak(s)
  {
  }

  lemma PrintableConcat(s: string, t: string)
    requires IsPrintableAscii(s) && IsPrintableAscii(t)
    ensures IsPrintableAscii(s + t)
  {
    forall k | 0 <= k < |s + t|
      ensures ' ' <= (s + t)[k] <= '~'
    {
      if k < |s| {
        assert (s + t)[k] == s[k];
      } else {
        assert (s + t)[k] == t[k - |s|];
      }
    }
  }

  /** Three printable lines, each ended by "\n", split back into themselves. */
  lemma PrintableLinesSplit(x: string, y: string, z: string)
    requires IsPrintableAscii(x) && IsPrintableAscii(y) && IsPrintableAscii(z)
    ensures SplitLines(Terminated([x, y, z])) == [x, y, z]
  {
    var lines := [x, y, z];
    forall k | 0 <= k < |lines|
      ensures NoLineBreak(lines[k])
    {
      PrintableHasNoLineBreak(lines[k]);
    }
    SplitLinesTerminated(lines);
  }

  lemma ParseThreeLines(a: string, b: string, c: string, service: string, now: int, valid: string -> bool)
    ensures ParseLines([a, b, c], service, now, valid) ==
      ParseLine(a, service, now, valid) + ParseLine(b, service, now, valid) + ParseLine(c, service, now, valid)
  {
    var pa, pb, pc := ParseLines([a], service, now, valid), ParseLines([b], service, now, valid), ParseLines([c], service, now, valid);
    assert pa == ParseLine(a, service, now, valid) by { ParseSingleLine(a, service, now, valid); }
    assert pb == ParseLine(b, service, now, valid) by { ParseSingleLine(b, service, now, valid); }
    assert pc == ParseLine(c, service, now, valid) by { ParseSingleLine(c, service, now, valid); }
    assert ParseLines([a, b], service, now, valid) == pa + pb by {
      assert [a, b] == [a] + [b];
      ParseLinesAppend([a], [b], service, now, valid);
    }
    assert ParseLines([a, b, c], service, now, valid) == ParseLines([a, b], service, now, valid) + pc by {
      assert [a, b, c] == [a, b] + [c];
      ParseLinesAppend([a, b], [c], service, now, valid);
    }
  }

  /**
   * A line made of a valid token, then optionally whitespace and trailing fields,
   * yields exactly one record, for that token.
   */
  lemma AddressLineParses(ip: string, rest: string, service: string, now: int, valid: string -> bool)
    requires ip != [] && NoSpace(ip) && ip[0] != '#' && valid(ip)
    requires rest == [] || (IsSpace(rest[0]) && !IsSpace(rest[|rest| - 1]))
    ensures ParseLine(ip + rest, service, now, valid) == [Record(ip, service, Source, now)]
  {
    var line := ip + rest;
    assert line[0] == ip[0];
    assert line[|line| - 1] == if rest == [] then ip[|ip| - 1] else rest[|rest| - 1];
    StripNoop(line);
    TokenEndAt(line, 0, |ip|);
    assert line[..|ip|] == ip;
  }

  /** A line that, stripped, starts with `#` yields nothing, whatever follows the `#`. */
  lemma CommentLineDropped(line: string, service: string, now: int, valid: string -> bool)
    requires Strip(line) != [] && Strip(line)[0] == '#'
    ensures ParseLine(line, service, now, valid) == []
  {
  }

  /** A dotted quad is non-empty, holds no whitespace and starts with a digit. */
  lemma DottedQuadShape(a: nat, b: nat, c: nat, d: nat)
    ensures DottedQuad(a, b, c, d) != []
    ensures NoSpace(DottedQuad(a, b, c, d))
    ensures IsDigit(DottedQuad(a, b, c, d)[0])
  {
    var sa, sb, sc, sd := NatToString(a), NatToString(b), NatToString(c), NatToString(d);
    var s := Dotted(sa, sb, sc, sd);
    assert s[0] == sa[0];
    forall k | 0 <= k < |s|
      ensures IsDigit(s[k]) || s[k] == '.'
    {
      var t3 := sc + ['.'] + sd;
      var t2 := sb + ['.'] + t3;
      if k < |sa| {
        assert s[k] == sa[k];
      } else if k > |sa| {
        assert s[k] == t2[k - |sa| - 1];
        var k2 := k - |sa| - 1;
        if k2 < |sb| {
          assert t2[k2] == sb[k2];
        } else if k2 > |sb| {
          assert t2[k2] == t3[k2 - |sb| - 1];
          var k3 := k2 - |sb| - 1;
          if k3 < |sc| {
            assert t3[k3] == sc[k3];
          } else if k3 > |sc| {
            assert t3[k3] == sd[k3 - |sc| - 1];
          }
        }
      }
    }
  }

  /**
   * A line holding a dotted quad of octets, then optionally whitespace and
   * trailing fields, yields one record for the quad under `ipaddress` validation.
   */
  lemma QuadLineParses(a: nat, b: nat, c: nat, d: nat, rest: string, service: string, now: int)
    requires a <= 255 && b <= 255 && c <= 255 && d <= 255
    requires rest == [] || (IsSpace(rest[0]) && !IsSpace(rest[|rest| - 1]))
    ensures ParseLine(DottedQuad(a, b, c, d) + rest, service, now, IsIPv4Address) ==
      [Record(DottedQuad(a, b, c, d), service, Source, now)]
  {
    DottedQuadShape(a, b, c, d);
    DottedQuadIsIPv4(a, b, c, d);
    AddressLineParses(DottedQuad(a, b, c, d), rest, service, now, IsIPv4Address);
  }

  /** The three lines of such a body split back into themselves. */
  lemma ListBodySplits(a: nat, b: nat, c: nat, d: nat, e: nat, f: nat, g: nat, h: nat, comment: string, field: string)
    requires IsPrintableAscii(comment) && IsPrintableAscii(field)
    ensures
      var lines := [DottedQuad(a, b, c, d), comment, DottedQuad(e, f, g, h) + field];
      SplitLines(Terminated(lines)) == lines
  {
    var q1, q2 := DottedQuad(a, b, c, d), DottedQuad(e, f, g, h);
    DottedQuadShape(a, b, c, d);
    DottedQuadShape(e, f, g, h);
    PrintableConcat(q2, field);
    PrintableLinesSplit(q1, comment, q2 + field);
  }

  /**
   * A list body of three lines -- an address, a comment, and an address followed
   * by a trailing field -- yields two records, for the two addresses in order,
   * both for `service` and the same timestamp.
   */
  lemma ListBodyParses(a: nat, b: nat, c: nat, d: nat, e: nat, f: nat, g: nat, h: nat,
                       comment: string, field: string, service: string, now: int)
    requires a <= 255 && b <= 255 && c <= 255 && d <= 255
    requires e <= 255 && f <= 255 && g <= 255 && h <= 255
    requires IsPrintableAscii(comment) && comment != [] && comment[0] == '#' && !IsSpace(comment[|comment| - 1])
    requires IsPrintableAscii(field) && field != [] && IsSpace(field[0]) && !IsSpace(field[|field| - 1])
    ensures
      var body := Terminated([DottedQuad(a, b, c, d), comment, DottedQuad(e, f, g, h) + field]);
      ParseLines(SplitLines(body), service, now, IsIPv4Address) ==
        [Record(DottedQuad(a, b, c, d), service, Source, now), Record(DottedQuad(e, f, g, h), service, Source, now)]
  {
    ListBodySplits(a, b, c, d, e, f, g, h, comment, field);
    ListBodyRecords(a, b, c, d, e, f, g, h, comment, field, service, now);
  }

  /** The records of the three lines themselves: one per address line, none for the comment. */
  lemma ListBodyRecords(a: nat, b: nat, c: nat, d: nat, e: nat, f: nat, g: nat, h: nat,
                        comment: string, field: string, service: string, now: int)
    requires a <= 255 && b <= 255 && c <= 255 && d <= 255
    requires e <= 255 && f <= 255 && g <= 255 && h <= 255
    requires comment != [] && comment[0] == '#' && !IsSpace(comment[|comment| - 1])
    requires field != [] && IsSpace(field[0]) && !IsSpace(field[|field| - 1])
    ensures
      ParseLines([DottedQuad(a, b, c, d), comment, DottedQuad(e, f, g, h) + field], service, now, IsIPv4Address) ==
        [Record(DottedQuad(a, b, c, d), service, Source, now), Record(DottedQuad(e, f, g, h), service, Source, now)]
  {
    var q1, q2 := DottedQuad(a, b, c, d), DottedQuad(e, f, g, h);
    var third := q2 + field;
    var r1, r2 := Record(q1, service, Source, now), Record(q2, service, Source, now);
    assert ParseLine(q1, service, now, IsIPv4Address) == [r1] by {
      QuadLineParses(a, b, c, d, "", service, now);
      assert q1 + "" == q1;
    }
    assert ParseLine(comment, service, now, IsIPv4Address) == [] by {
      StripNoop(comment);
      CommentLineDropped(comment, service, now, IsIPv4Address);
    }
    assert ParseLine(third, service, now, IsIPv4Address) == [r2] by {
      QuadLineParses(e, f, g, h, field, service, now);
    }
    assert ParseLines([q1, comment, third], service, now, IsIPv4Address) == [r1] + [] + [r2] by {
      ParseThreeLines(q1, comment, third, service, now, IsIPv4Address);
    }
    assert [r1] + [] + [r2] == [r1, r2];
  }

  /** The address 1.2.3.4 and the address 5.6.7.8 are dotted quads. */
  lemma ExampleAddresses()
    ensures DottedQuad(1, 2, 3, 4) == "1.2.3.4" && DottedQuad(5, 6, 7, 8) == "5.6.7.8"
  {
  }

  /**
   * The `ssh` list body "1.2.3.4\n#comment\n5.6.7.8 extra-field\n" yields the
   * records for 1.2.3.4 and 5.6.7.8, in that order.
   */
  lemma ExampleParse(now: int)
    ensures
      var body := Terminated([DottedQuad(1, 2, 3, 4), "#comment", DottedQuad(5, 6, 7, 8) + " extra-field"]);
      ParseLines(SplitLines(body), "ssh", now, IsIPv4Address) ==
        [Record(DottedQuad(1, 2, 3, 4), "ssh", Source, now), Record(DottedQuad(5, 6, 7, 8), "ssh", Source, now)]
  {
    ListBodyParses(1, 2, 3, 4, 5, 6, 7, 8, "#comment", " extra-field", "ssh", now);
  }
}
