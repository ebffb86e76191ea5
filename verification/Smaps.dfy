/** Which mappings of a process may be paged out (daemon/src/compressor.rs, parse_anon_regions).

The parser is specified on every text by what the latest header line before a line says, and on the text the kernel
writes for a list of mappings by the mappings themselves. */
module Smaps {
  import opened Base
  import opened Text
  import opened Compressor

  // ---------------------------------------------------------------- lines

  /** The part before the first occurrence of a character; the whole string when there is none. */
  function Until(s: string, c: char): (n: nat)
    ensures n <= |s|
    ensures forall i | 0 <= i < n :: s[i] != c
    ensures n < |s| ==> s[n] == c
  {
    if |s| == 0 || s[0] == c then 0 else 1 + Until(s[1..], c)
  }

  function StripCr(s: string): string {
    if |s| > 0 && s[|s| - 1] == '\r' then s[..|s| - 1] else s
  }

  /** `str::lines`. */
  function Lines(s: string): seq<string>
    decreases |s|
  {
    if |s| == 0 then []
    else
      var n := Until(s, '\n');
      if n == |s| then [s] else [StripCr(s[..n])] + Lines(s[n + 1..])
  }

  // ---------------------------------------------------------------- the parser's specification

  datatype Header = Header(start: u64, size: u64, pageable: bool)

  /** End minus start as the 64-bit machine subtracts. */
  function Distance(start: u64, end: u64): (r: u64)
    ensures start <= end ==> start + r == end
    ensures start > end ==> start + r == end + 0x1_0000_0000_0000_0000
  {
    if start <= end then end - start else end + U64_LIMIT - start
  }

  function HeaderOf(line: string): Option<Header> {
    var dash := Until(line, '-');
    if dash == |line| then None
    else
      var rest := line[dash + 1..];
      var space := Until(rest, ' ');
      if space == |rest| then None
      else
        var parts := Split(rest[space + 1..]);
        var start, end := ParseU64(line[..dash], 16), ParseU64(rest[..space], 16);
        if |parts| < 4 || start.None? || end.None? then None
        else Some(Header(start.value, Distance(start.value, end.value), 'p' in parts[0] && parts[3] == "0"))
  }

  /** A line is a header exactly if it reads start, dash, end, blank, and at least four more words, the first of them
      the permissions and the fourth the inode. */
  lemma {:induction false} HeaderExactly(line: string, h: Header)
    ensures HeaderOf(line) == Some(h) <==> exists a: string, b: string, c: string :: HeaderParts(line, h, a, b, c)
  {
    hide HeaderOf, HeaderParts;
    if HeaderOf(line) == Some(h) {
      var a, b, c := HeaderHasParts(line, h);
    }
    forall a: string, b: string, c: string | HeaderParts(line, h, a, b, c)
      ensures HeaderOf(line) == Some(h)
    {
      PartsAreHeader(line, h, a, b, c);
    }
  }

  lemma {:induction false} HeaderHasParts(line: string, h: Header) returns (a: string, b: string, c: string)
    requires HeaderOf(line) == Some(h)
    ensures HeaderParts(line, h, a, b, c)
  {
    hide Split, ParseU64;
    var dash := Until(line, '-');
    var rest := line[dash + 1..];
    var space := Until(rest, ' ');
    a, b, c := line[..dash], rest[..space], rest[space + 1..];
    hide Until;
    assert rest == b + " " + c;
    assert line == a + "-" + (b + " " + c);
  }

  lemma {:induction false} PartsAreHeader(line: string, h: Header, a: string, b: string, c: string)
    requires HeaderParts(line, h, a, b, c)
    ensures HeaderOf(line) == Some(h)
  {
    hide Split, ParseU64, Until;
    UntilFirst(a, '-', b + " " + c);
    var rest := line[|a| + 1..];
    assert rest == b + " " + c;
    UntilFirst(b, ' ', c);
    assert line[..|a|] == a && rest[..|b|] == b && rest[|b| + 1..] == c;
  }

  predicate HeaderParts(line: string, h: Header, a: string, b: string, c: string) {
    && line == a + "-" + (b + " " + c) && '-' !in a && ' ' !in b
    && ParseU64(a, 16) == Some(h.start) && ParseU64(b, 16).Some?
    && var end := ParseU64(b, 16).value;
    && h.start + h.size == (if h.start <= end then end else end + 0x1_0000_0000_0000_0000)
    && |Split(c)| >= 4 && h.pageable == ('p' in Split(c)[0] && Split(c)[3] == "0")
  }

  lemma {:induction false} UntilFirst(a: string, c: char, b: string)
    requires c !in a
    ensures Until(a + [c] + b, c) == |a|
  {
    var s := a + [c] + b;
    assert s[|a|] == c;
    assert forall i | 0 <= i < |a| :: s[i] == a[i];
  }

  const ANONYMOUS: string := "Anonymous:"

  /** The count an `Anonymous:` line gives, 0 when it gives none. */
  function Kib(line: string): nat {
    var words := Split(line);
    var n := if |words| > 1 then ParseU64(words[1], 10) else None;
    if n.Some? then n.value else 0
  }

  predicate Resident(line: string) { ANONYMOUS <= line && Kib(line) > 0 }

  function LatestHeader(lines: seq<string>): Option<Header> {
    if |lines| == 0 then None
    else
      var h := HeaderOf(lines[|lines| - 1]);
      if h.Some? then h else LatestHeader(lines[..|lines| - 1])
  }

  /** One region for each line that reports anonymous pages under a pageable header. */
  function RegionsOf(lines: seq<string>): seq<Region> {
    if |lines| == 0 then []
    else
      var h := LatestHeader(lines);
      RegionsOf(lines[..|lines| - 1])
      + if h.Some? && h.value.pageable && Resident(lines[|lines| - 1])
        then [Region(h.value.start, h.value.size)] else []
  }

  lemma {:induction false} NextLine(lines: seq<string>, line: string)
    ensures var h := HeaderOf(line); LatestHeader(lines + [line]) == if h.Some? then h else LatestHeader(lines)
    ensures
      var h := LatestHeader(lines + [line]);
      RegionsOf(lines + [line]) == RegionsOf(lines)
        + if h.Some? && h.value.pageable && Resident(line) then [Region(h.value.start, h.value.size)] else []
  {
    hide HeaderOf, Resident;
    assert (lines + [line])[..|lines|] == lines;
  }

  method ParseAnonRegions(smaps: string) returns (regions: seq<Region>)
    ensures regions == RegionsOf(Lines(smaps))
  {
    hide HeaderOf, Lines, LatestHeader, RegionsOf, Kib;
    var lines := Lines(smaps);
    regions := [];
    var start: u64, size: u64, pageable := 0, 0, false;
    EmptyText();
    for i := 0 to |lines|
      invariant regions == RegionsOf(lines[..i])
      invariant pageable ==> LatestHeader(lines[..i]) == Some(Header(start, size, true))
      invariant !pageable ==> LatestHeader(lines[..i]).None? || !LatestHeader(lines[..i]).value.pageable
    {
      var line := lines[i];
      NextLine(lines[..i], line);
      assert lines[..i + 1] == lines[..i] + [line];
      var header := HeaderOf(line);
      if header.Some? {
        start, size, pageable := header.value.start, header.value.size, header.value.pageable;
      }
      if pageable && ANONYMOUS <= line {
        var kib := Kib(line);
        if kib > 0 {
          regions := regions + [Region(start, size)];
        }
      }
    }
    assert lines[..|lines|] == lines;
  }

  lemma EmptyText()
    ensures RegionsOf([]) == [] && LatestHeader([]) == None
  {
  }

  // ---------------------------------------------------------------- the text the kernel writes

  /** One mapping: its header fields, the detail lines around the `Anonymous:` line, and the count on that line. */
  datatype Mapping = Mapping(
    start: u64,
    end: u64,
    perms: string,
    offset: string,
    dev: string,
    inode: u64,
    path: string,
    before: seq<string>,
    gap: nat,
    kib: u64,
    after: seq<string>)

  /** Bytes from start to end; the kernel never lists a mapping that ends before it starts, but the text may. */
  function Size(m: Mapping): (r: u64)
    ensures m.start <= m.end ==> r == m.end - m.start
  {
    (m.end - m.start) % 0x1_0000_0000_0000_0000
  }

  function Pad(s: string, width: nat): string
    decreases width - |s|
  {
    if |s| < width then Pad("0" + s, width) else s
  }

  /** An address, at least eight hexadecimal digits. */
  function Address(n: u64): string { Pad(Print(n, 16), 8) }

  function Spaces(n: nat): string { if n == 0 then "" else " " + Spaces(n - 1) }

  function HeaderLine(m: Mapping): string {
    Address(m.start) + "-" + Address(m.end) + " "
    + (m.perms + " " + (m.offset + " " + (m.dev + " " + (Print(m.inode, 10) + m.path))))
  }

  function AnonymousLine(m: Mapping): string {
    ANONYMOUS + (Spaces(m.gap + 1) + (Print(m.kib, 10) + " kB"))
  }

  /** Neither a line feed inside nor a carriage return at the end. */
  predicate IsLine(s: string) { '\n' !in s && (s == "" || s[|s| - 1] != '\r') }

  predicate AreLines(lines: seq<string>) { forall i | 0 <= i < |lines| :: IsLine(lines[i]) }

  /** A line that is neither a header nor the `Anonymous:` line. */
  predicate IsDetail(line: string) { IsLine(line) && HeaderOf(line).None? && !(ANONYMOUS <= line) }

  predicate Details(lines: seq<string>) { forall i | 0 <= i < |lines| :: IsDetail(lines[i]) }

  predicate IsMapping(m: Mapping) {
    && IsToken(m.perms) && IsToken(m.offset) && IsToken(m.dev)
    && (m.path == "" || IsSpace(m.path[0])) && IsLine(m.path)
    && Details(m.before) && Details(m.after)
  }

  predicate IsSmaps(ms: seq<Mapping>) { forall i | 0 <= i < |ms| :: IsMapping(ms[i]) }

  function LinesOf(m: Mapping): seq<string> {
    [HeaderLine(m)] + m.before + [AnonymousLine(m)] + m.after
  }

  function AllLines(ms: seq<Mapping>): seq<string> {
    if |ms| == 0 then [] else AllLines(ms[..|ms| - 1]) + LinesOf(ms[|ms| - 1])
  }

  /** The lines, each with a line ending. */
  function Joined(lines: seq<string>, eol: string): string {
    if |lines| == 0 then "" else lines[0] + eol + Joined(lines[1..], eol)
  }

  function Rendered(ms: seq<Mapping>): string { Joined(AllLines(ms), "\n") }

  // ---------------------------------------------------------------- lines survive

  lemma {:induction false} FirstLine(head: string, rest: string)
    requires '\n' !in head
    ensures Lines(head + "\n" + rest) == [StripCr(head)] + Lines(rest)
  {
    hide StripCr;
    var s := head + "\n" + rest;
    UntilFirst(head, '\n', rest);
    assert s[..|head|] == head && s[|head| + 1..] == rest;
  }

  lemma {:induction false} LastLine(last: string)
    requires '\n' !in last
    ensures Lines(last) == if last == "" then [] else [last]
  {
    var n := Until(last, '\n');
  }

  /** Lines are recovered from either line ending, and an unterminated last one is a line as it stands. */
  lemma {:induction false} LinesJoined(lines: seq<string>, eol: string, last: string)
    requires AreLines(lines) && (eol == "\n" || eol == "\r\n") && '\n' !in last
    ensures Lines(Joined(lines, eol) + last) == lines + if last == "" then [] else [last]
  {
    hide Lines;
    LastLine(last);
    if |lines| == 0 {
      assert Joined(lines, eol) + last == last;
    } else {
      var rest := Joined(lines[1..], eol) + last;
      var head := if eol == "\n" then lines[0] else lines[0] + "\r";
      assert IsLine(lines[0]);
      assert Joined(lines, eol) + last == head + "\n" + rest;
      FirstLine(head, rest);
      assert StripCr(head) == lines[0];
      LinesJoined(lines[1..], eol, last);
      assert lines == [lines[0]] + lines[1..];
    }
  }

  // ---------------------------------------------------------------- what a header line says

  predicate AllDigits(s: string) { forall i | 0 <= i < |s| :: exists d | 0 <= d < 16 :: s[i] == DIGITS[d] }

  lemma {:induction false} LeadingZero(s: string)
    ensures Value("0" + s, 16) == Value(s, 16)
  {
    if |s| == 0 {
      assert "0"[..0] == "";
    } else {
      LeadingZero(s[..|s| - 1]);
      assert ("0" + s)[..|s|] == "0" + s[..|s| - 1];
    }
  }

  lemma {:induction false} PadMeans(s: string, width: nat)
    requires AllDigits(s)
    ensures Value(Pad(s, width), 16) == Value(s, 16) && AllDigits(Pad(s, width)) && |Pad(s, width)| >= |s|
    decreases width - |s|
  {
    if |s| < width {
      assert "0"[0] == DIGITS[0];
      LeadingZero(s);
      PadMeans("0" + s, width);
    }
  }

  lemma {:induction false} AddressMeans(n: u64)
    ensures ParseU64(Address(n), 16) == Some(n)
    ensures IsToken(Address(n)) && '-' !in Address(n) && '\n' !in Address(n)
  {
    var s := Address(n);
    PrintMeans(n, 16);
    PadMeans(Print(n, 16), 8);
    forall i | 0 <= i < |s| ensures !IsSpace(s[i]) && s[i] != '-' && s[i] != '+' && s[i] != '\n' {
      var d :| 0 <= d < 16 && s[i] == DIGITS[d];
      DigitRoundTrip(d);
    }
  }

  /** The fields after the address range. */
  lemma {:induction false} FieldsMean(m: Mapping)
    requires IsMapping(m)
    ensures
      var fields := m.perms + " " + (m.offset + " " + (m.dev + " " + (Print(m.inode, 10) + m.path)));
      Split(fields) == [m.perms, m.offset, m.dev, Print(m.inode, 10)] + Split(m.path)
  {
    hide Split, IsSpace, Print, Details, IsLine;
    var inode := Print(m.inode, 10);
    PrintMeans(m.inode, 10);
    SplitToken(inode, m.path);
    LeadingField(m.dev, inode + m.path);
    LeadingField(m.offset, m.dev + " " + (inode + m.path));
    LeadingField(m.perms, m.offset + " " + (m.dev + " " + (inode + m.path)));
  }

  lemma {:induction false} LeadingField(w: string, rest: string)
    requires IsToken(w)
    ensures Split(w + " " + rest) == [w] + Split(rest)
  {
    hide Split;
    assert IsSpace(' ');
    assert w + " " + rest == w + (" " + rest);
    SplitToken(w, " " + rest);
    SplitSpace(' ', rest);
  }

  lemma {:induction false} InodeZero(n: u64)
    ensures Print(n, 10) == "0" <==> n == 0
  {
    if Print(n, 10) == "0" {
      ParsePrint(n, 10);
      ParsePrint(0, 10);
      assert Print(0, 10) == "0";
    }
  }

  lemma {:induction false} SizeIsDistance(m: Mapping)
    ensures Distance(m.start, m.end) == Size(m)
  {
  }

  lemma {:induction false} HeaderMeans(m: Mapping)
    requires IsMapping(m)
    ensures HeaderOf(HeaderLine(m))
         == Some(Header(m.start, Size(m), 'p' in m.perms && m.inode == 0))
  {
    hide Split, Address, Print, Until, ParseU64, IsSpace, Distance, Size, Details, IsLine;
    var fields := m.perms + " " + (m.offset + " " + (m.dev + " " + (Print(m.inode, 10) + m.path)));
    var line := HeaderLine(m);
    var start, end := Address(m.start), Address(m.end);
    AddressMeans(m.start);
    AddressMeans(m.end);
    FieldsMean(m);
    InodeZero(m.inode);
    SizeIsDistance(m);
    NoBlank(end);
    UntilFirst(start, '-', end + " " + fields);
    assert line == start + "-" + (end + " " + fields);
    var rest := line[|start| + 1..];
    assert rest == end + " " + fields;
    UntilFirst(end, ' ', fields);
    assert line[..|start|] == start && rest[..|end|] == end && rest[|end| + 1..] == fields;
  }

  lemma NoBlank(w: string)
    requires IsToken(w)
    ensures ' ' !in w
  {
    assert IsSpace(' ');
  }

  // ---------------------------------------------------------------- what an `Anonymous:` line says

  lemma {:induction false} SplitSpaces(n: nat, rest: string)
    ensures Split(Spaces(n) + rest) == Split(rest)
  {
    if n == 0 {
      assert Spaces(n) + rest == rest;
    } else {
      SplitSpaces(n - 1, rest);
      assert IsSpace(' ');
      SplitSpace(' ', Spaces(n - 1) + rest);
      assert Spaces(n) + rest == [' '] + (Spaces(n - 1) + rest);
    }
  }

  lemma {:induction false} AnonymousMeans(m: Mapping)
    ensures ANONYMOUS <= AnonymousLine(m) && Kib(AnonymousLine(m)) == m.kib
  {
    hide Split, Print, ParseU64, IsSpace;
    var number := Print(m.kib, 10);
    var gap := Spaces(m.gap + 1);
    PrintMeans(m.kib, 10);
    ParsePrint(m.kib, 10);
    assert IsSpace(' ') && IsToken(ANONYMOUS) by { Blank(); }
    SplitToken(number, " kB");
    SplitSpaces(m.gap + 1, number + " kB");
    SplitToken(ANONYMOUS, gap + (number + " kB"));
  }

  lemma Blank()
    ensures IsSpace(' ') && IsToken(ANONYMOUS)
  {
  }

  lemma {:induction false} AnonymousIsNoHeader(m: Mapping)
    ensures HeaderOf(AnonymousLine(m)).None?
  {
    hide Split, Print, Spaces;
    var line := AnonymousLine(m);
    var dash := Until(line, '-');
    if dash < |line| {
      assert line[1] == 'n';
      assert dash > 9;
      NotHex(line[..dash], 1);
    }
  }

  lemma {:induction false} NotHex(s: string, k: nat)
    requires 0 < k < |s| && (DigitValue(s[k]).None? || DigitValue(s[k]).value >= 16)
    ensures ParseU64(s, 16).None?
  {
    hide DigitValue, Value;
    ValueExactly(s, 16);
    ValueExactly(s[1..], 16);
    assert s[1..][k - 1] == s[k];
  }

  // ---------------------------------------------------------------- the parser reads the mappings back

  lemma {:induction false} DetailsAreQuiet(lines: seq<string>, details: seq<string>)
    requires Details(details)
    ensures LatestHeader(lines + details) == LatestHeader(lines) && RegionsOf(lines + details) == RegionsOf(lines)
  {
    hide HeaderOf, Kib;
    if |details| == 0 {
      assert lines + details == lines;
    } else {
      var front, last := details[..|details| - 1], details[|details| - 1];
      assert lines + details == (lines + front) + [last];
      DetailsAreQuiet(lines, front);
      NextLine(lines + front, last);
    }
  }

  predicate Pageable(m: Mapping) { 'p' in m.perms && m.inode == 0 && m.kib > 0 }

  function PageableRegions(ms: seq<Mapping>): seq<Region> {
    if |ms| == 0 then []
    else
      var m := ms[|ms| - 1];
      PageableRegions(ms[..|ms| - 1]) + if Pageable(m) then [Region(m.start, Size(m))] else []
  }

  lemma {:induction false} OneMapping(lines: seq<string>, m: Mapping)
    requires IsMapping(m)
    ensures RegionsOf(lines + LinesOf(m))
         == RegionsOf(lines) + if Pageable(m) then [Region(m.start, Size(m))] else []
  {
    hide HeaderOf, Kib, HeaderLine, AnonymousLine, RegionsOf, LatestHeader, Details, Size;
    var a := lines + [HeaderLine(m)];
    var b := a + m.before;
    var c := b + [AnonymousLine(m)];
    NextLine(lines, HeaderLine(m));
    HeaderMeans(m);
    DetailsAreQuiet(a, m.before);
    NextLine(b, AnonymousLine(m));
    AnonymousMeans(m);
    AnonymousIsNoHeader(m);
    DetailsAreQuiet(c, m.after);
    assert lines + LinesOf(m) == c + m.after;
    assert !Resident(HeaderLine(m)) by { HeaderIsNotAnonymous(m); }
  }

  lemma {:induction false} HeaderIsNotAnonymous(m: Mapping)
    ensures !(ANONYMOUS <= HeaderLine(m))
  {
    hide Print;
    AddressMeans(m.start);
    var start := Address(m.start);
    PrintMeans(m.start, 16);
    PadMeans(Print(m.start, 16), 8);
    assert HeaderLine(m)[0] == start[0];
    var d :| 0 <= d < 16 && start[0] == DIGITS[d];
  }

  lemma {:induction false} AllMappings(ms: seq<Mapping>)
    requires IsSmaps(ms)
    ensures RegionsOf(AllLines(ms)) == PageableRegions(ms)
  {
    hide RegionsOf, LinesOf, Pageable, IsMapping;
    if |ms| == 0 {
      EmptyText();
    } else {
      var front := ms[..|ms| - 1];
      AllMappings(front);
      OneMapping(AllLines(front), ms[|ms| - 1]);
    }
  }

  lemma {:induction false} LineFrom(a: string, b: string)
    requires forall i | 0 <= i < |a| :: a[i] != '\n'
    requires IsLine(b) && (b == "" ==> IsLine(a))
    ensures IsLine(a + b)
  {
    if b == "" {
      assert a + b == a;
    }
  }

  lemma {:induction false} TokenIsLine(w: string)
    requires IsToken(w)
    ensures IsLine(w) && forall i | 0 <= i < |w| :: w[i] != '\n'
  {
    assert IsSpace('\n') && IsSpace('\r');
  }

  lemma {:induction false} HeaderIsLine(m: Mapping)
    requires IsMapping(m)
    ensures IsLine(HeaderLine(m))
  {
    hide Address, Print, IsSpace, IsLine, Details;
    var inode := Print(m.inode, 10);
    var start, end := Address(m.start), Address(m.end);
    AddressMeans(m.start);
    AddressMeans(m.end);
    PrintMeans(m.inode, 10);
    TokenIsLine(start);
    TokenIsLine(end);
    TokenIsLine(m.perms);
    TokenIsLine(m.offset);
    TokenIsLine(m.dev);
    TokenIsLine(inode);
    LineFrom(inode, m.path);
    LineFrom(m.dev + " ", inode + m.path);
    LineFrom(m.offset + " ", m.dev + " " + (inode + m.path));
    LineFrom(m.perms + " ", m.offset + " " + (m.dev + " " + (inode + m.path)));
    LineFrom(start + "-" + end + " ", m.perms + " " + (m.offset + " " + (m.dev + " " + (inode + m.path))));
  }

  lemma {:induction false} SpacesAreBlank(n: nat)
    ensures forall i | 0 <= i < |Spaces(n)| :: Spaces(n)[i] == ' '
  {
    if n > 0 {
      SpacesAreBlank(n - 1);
    }
  }

  lemma {:induction false} AnonymousIsLine(m: Mapping)
    ensures IsLine(AnonymousLine(m))
  {
    hide Print, Spaces, IsSpace;
    var number := Print(m.kib, 10);
    PrintMeans(m.kib, 10);
    TokenIsLine(number);
    SpacesAreBlank(m.gap + 1);
    LineFrom(number, " kB");
    LineFrom(Spaces(m.gap + 1), number + " kB");
    LineFrom(ANONYMOUS, Spaces(m.gap + 1) + (number + " kB"));
  }

  lemma {:induction false} MappingLines(m: Mapping)
    requires IsMapping(m)
    ensures AreLines(LinesOf(m))
  {
    hide HeaderLine, AnonymousLine, IsLine;
    HeaderIsLine(m);
    AnonymousIsLine(m);
  }

  lemma {:induction false} SmapsLines(ms: seq<Mapping>)
    requires IsSmaps(ms)
    ensures AreLines(AllLines(ms))
  {
    hide LinesOf, IsMapping, IsLine;
    if |ms| > 0 {
      SmapsLines(ms[..|ms| - 1]);
      MappingLines(ms[|ms| - 1]);
    }
  }

  /** From the text of any list of mappings the parser recovers exactly the private anonymous ones that hold pages, in
      order and with their addresses. */
  lemma {:induction false} SmapsRoundTrip(ms: seq<Mapping>)
    requires IsSmaps(ms)
    ensures RegionsOf(Lines(Rendered(ms))) == PageableRegions(ms)
  {
    hide Lines, RegionsOf, AllLines, AreLines, PageableRegions, Joined, IsSmaps;
    SmapsLines(ms);
    LinesJoined(AllLines(ms), "\n", "");
    assert Rendered(ms) + "" == Rendered(ms) && AllLines(ms) + [] == AllLines(ms);
    AllMappings(ms);
  }

  // ---------------------------------------------------------------- byte counts

  /** The mappings of one address space: in address order, none overlapping. */
  predicate IsAddressSpace(ms: seq<Mapping>) {
    && (forall i | 0 <= i < |ms| :: ms[i].start <= ms[i].end)
    && (forall i, j | 0 <= i < j < |ms| :: ms[i].end <= ms[j].start)
  }

  lemma {:induction false} RegionsAreMappings(ms: seq<Mapping>)
    requires IsAddressSpace(ms)
    ensures SortedDisjoint(PageableRegions(ms))
    ensures
      var rs := PageableRegions(ms);
      |ms| > 0 ==> forall i | 0 <= i < |rs| :: rs[i].start + rs[i].size <= ms[|ms| - 1].end
  {
    hide Pageable;
    if |ms| > 0 {
      var front := ms[..|ms| - 1];
      RegionsAreMappings(front);
    }
  }

  /** The mappings that may be paged out, in order. */
  function Chosen(ms: seq<Mapping>): seq<Mapping> {
    if |ms| == 0 then []
    else Chosen(ms[..|ms| - 1]) + if Pageable(ms[|ms| - 1]) then [ms[|ms| - 1]] else []
  }

  lemma {:induction false} RegionsAreChosen(ms: seq<Mapping>)
    requires IsAddressSpace(ms)
    ensures var rs, cs := PageableRegions(ms), Chosen(ms);
            |rs| == |cs| && forall i | 0 <= i < |rs| :: rs[i].start == cs[i].start && rs[i].start + rs[i].size == cs[i].end
  {
    hide Pageable;
    if |ms| > 0 {
      RegionsAreChosen(ms[..|ms| - 1]);
    }
  }

  /** For the text of an address space the parser returns the start and the length of exactly the private, inode-0
      mappings with anonymous pages. */
  lemma {:induction false} AddressSpaceRoundTrip(ms: seq<Mapping>)
    requires IsSmaps(ms) && IsAddressSpace(ms)
    ensures var rs, cs := RegionsOf(Lines(Rendered(ms))), Chosen(ms);
            |rs| == |cs| && forall i | 0 <= i < |rs| :: rs[i].start == cs[i].start && rs[i].size == cs[i].end - cs[i].start
    ensures forall m | m in ms :: m in Chosen(ms) <==> 'p' in m.perms && m.inode == 0 && m.kib > 0
  {
    hide RegionsOf, Lines, Rendered;
    SmapsRoundTrip(ms);
    RegionsAreChosen(ms);
    ChosenExactly(ms);
  }

  lemma {:induction false} ChosenExactly(ms: seq<Mapping>)
    ensures forall m :: m in Chosen(ms) <==> m in ms && 'p' in m.perms && m.inode == 0 && m.kib > 0
  {
    if |ms| > 0 {
      var n := |ms| - 1;
      ChosenExactly(ms[..n]);
      assert ms == ms[..n] + [ms[n]];
    }
  }

  /** What a pass asks the kernel to page out is every address of the chosen mappings once, and the count fits the
      64-bit byte counter, whatever the process maps. */
  lemma {:induction false} RequestFits(ms: seq<Mapping>)
    requires IsSmaps(ms) && IsAddressSpace(ms)
    ensures var rs := RegionsOf(Lines(Rendered(ms))); TotalSize(rs) == |Covered(rs)| <= U64_MAX
  {
    hide RegionsOf, Lines, Rendered, Covered, TotalSize;
    SmapsRoundTrip(ms);
    RegionsAreMappings(ms);
    AddressSpaceBound(PageableRegions(ms), 0);
    TotalSizeCounts(PageableRegions(ms));
  }
}
