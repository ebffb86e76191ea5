/** Command lines, profiles and the plain /proc walk (daemon/src/scanner.rs). */
module Scanner {
  import opened Base
  import opened Ascii
  import opened Text

  type Bytes = seq<byte>

  datatype Profile = Profile(
    name: string,
    binarySubstringAny: seq<string>,
    argRequiredAll: seq<string>,
    argExcludedAny: seq<string>,
    argLast: Option<string>)

  // ---------------------------------------------------------------- tokenising a cmdline

  /** One byte of a cmdline; NUL counts as a blank. */
  function DecodeByte(b: byte): char { if b == 0 then ' ' else b as char }

  function Decode(raw: Bytes): (s: string)
    ensures |s| == |raw| && forall i | 0 <= i < |raw| :: s[i] == DecodeByte(raw[i])
  {
    seq(|raw|, i requires 0 <= i < |raw| => DecodeByte(raw[i]))
  }

  function ParseCmdline(raw: Bytes): seq<string> { Split(Decode(raw)) }

  /** An argument without NUL and white space. */
  predicate IsArg(a: Bytes) {
    |a| > 0 && forall i | 0 <= i < |a| :: a[i] != 0 && !IsSpace(DecodeByte(a[i]))
  }

  predicate IsBlank(raw: Bytes) {
    forall i | 0 <= i < |raw| :: IsSpace(DecodeByte(raw[i]))
  }

  /** The arguments with one separator between neighbours and some blank tail. */
  function Render(args: seq<Bytes>, sep: byte, tail: Bytes): Bytes {
    if |args| == 0 then tail
    else if |args| == 1 then args[0] + tail
    else args[0] + [sep] + Render(args[1..], sep, tail)
  }

  function Decoded(args: seq<Bytes>): (r: seq<string>)
    ensures |r| == |args| && forall i | 0 <= i < |args| :: r[i] == Decode(args[i])
  {
    seq(|args|, i requires 0 <= i < |args| => Decode(args[i]))
  }

  lemma {:induction false} BlankSplits(raw: Bytes)
    requires IsBlank(raw)
    ensures ParseCmdline(raw) == []
  {
    if |raw| > 0 {
      BlankSplits(raw[1..]);
      assert Decode(raw)[1..] == Decode(raw[1..]);
    }
  }

  /** The words of each argument on its own. */
  function Words(args: seq<Bytes>): seq<string> {
    if |args| == 0 then [] else ParseCmdline(args[0]) + Words(args[1..])
  }

  lemma {:induction false} ParseCut(a: Bytes, sep: byte, b: Bytes)
    requires IsSpace(DecodeByte(sep))
    ensures ParseCmdline(a + [sep] + b) == ParseCmdline(a) + ParseCmdline(b)
  {
    hide Split;
    assert Decode(a + [sep] + b) == Decode(a) + [DecodeByte(sep)] + Decode(b);
    SplitCut(Decode(a), DecodeByte(sep), Decode(b));
  }

  /** Trailing blanks do not count. */
  lemma {:induction false} BlankTail(a: Bytes, tail: Bytes)
    requires IsBlank(tail)
    ensures ParseCmdline(a + tail) == ParseCmdline(a)
  {
    hide ParseCmdline, IsSpace;
    if |tail| == 0 {
      assert a + tail == a;
    } else {
      assert a + tail == a + [tail[0]] + tail[1..];
      ParseCut(a, tail[0], tail[1..]);
      BlankSplits(tail[1..]);
    }
  }

  /** However the arguments are separated by single blanks, each one is tokenised on its own. */
  lemma {:induction false} RenderedWords(args: seq<Bytes>, sep: byte, tail: Bytes)
    requires IsSpace(DecodeByte(sep)) && IsBlank(tail)
    ensures ParseCmdline(Render(args, sep, tail)) == Words(args)
  {
    hide ParseCmdline, IsSpace;
    if |args| == 0 {
      BlankSplits(tail);
    } else if |args| == 1 {
      BlankTail(args[0], tail);
      assert Words(args[1..]) == [];
    } else {
      RenderedWords(args[1..], sep, tail);
      ParseCut(args[0], sep, Render(args[1..], sep, tail));
    }
  }

  /** The kernel's NUL-terminated form and Firefox's blank-separated rewrite tokenise alike, whatever the arguments. */
  lemma {:induction false} BothFormsTokeniseAlike(args: seq<Bytes>)
    ensures ParseCmdline(Render(args, 0, [0])) == ParseCmdline(Render(args, 32, []))
  {
    hide ParseCmdline;
    RenderedWords(args, 0, [0]);
    RenderedWords(args, 32, []);
  }

  lemma {:induction false} WordsOfArgs(args: seq<Bytes>)
    requires forall i | 0 <= i < |args| :: IsArg(args[i])
    ensures Words(args) == Decoded(args)
  {
    hide Split, IsSpace;
    if |args| > 0 {
      WordsOfArgs(args[1..]);
      TokenIsArg(args[0]);
      var w := Decode(args[0]);
      assert Split("") == [] by { NoWords(); }
      SplitToken(w, "");
      assert w + "" == w;
      assert Decoded(args) == [w] + Decoded(args[1..]);
    }
  }

  lemma NoWords()
    ensures Split("") == []
  {
  }

  /** The arguments are recovered, from either form, exactly if each one is non-empty and free of the bytes taken for
      blanks. Bytes are decoded one by one, so 0x85 and 0xA0 are among these even inside a UTF-8 character. */
  lemma {:induction false} ParseRendered(args: seq<Bytes>, sep: byte, tail: Bytes)
    requires IsSpace(DecodeByte(sep)) && IsBlank(tail)
    ensures ParseCmdline(Render(args, sep, tail)) == Decoded(args) <==> forall i | 0 <= i < |args| :: IsArg(args[i])
  {
    hide Split, IsSpace;
    RenderedWords(args, sep, tail);
    if forall i | 0 <= i < |args| :: IsArg(args[i]) {
      WordsOfArgs(args);
    }
    var words := ParseCmdline(Render(args, sep, tail));
    if words == Decoded(args) {
      forall i | 0 <= i < |args|
        ensures IsArg(args[i])
      {
        TokenIsArg(args[i]);
        assert IsToken(words[i]) && words[i] == Decode(args[i]);
      }
    }
  }

  lemma {:induction false} TokenIsArg(a: Bytes)
    ensures IsToken(Decode(a)) <==> IsArg(a)
  {
    assert forall i | 0 <= i < |a| :: Decode(a)[i] == DecodeByte(a[i]);
    assert IsSpace(DecodeByte(0));
  }

  predicate IsAscii(s: string) { forall i | 0 <= i < |s| :: 0 < s[i] as int < 128 }

  /** The bytes of an ASCII string. */
  function Encoded(s: string): (b: Bytes)
    requires IsAscii(s)
    ensures |b| == |s| && forall i | 0 <= i < |s| :: b[i] == s[i] as int
  {
    seq(|s|, i requires 0 <= i < |s| => s[i] as int)
  }

  function EncodedAll(args: seq<string>): (r: seq<Bytes>)
    requires forall i | 0 <= i < |args| :: IsAscii(args[i])
    ensures |r| == |args| && forall i | 0 <= i < |args| :: r[i] == Encoded(args[i])
  {
    seq(|args|, i requires 0 <= i < |args| => Encoded(args[i]))
  }

  /** The argv of ASCII words that a process was started with is what the daemon sees, in either form. */
  lemma {:induction false} AsciiArgv(args: seq<string>)
    requires forall i | 0 <= i < |args| :: IsAscii(args[i]) && IsToken(args[i])
    ensures ParseCmdline(Render(EncodedAll(args), 0, [0])) == args == ParseCmdline(Render(EncodedAll(args), 32, []))
  {
    hide ParseCmdline, IsSpace;
    var raw := EncodedAll(args);
    forall i | 0 <= i < |args|
      ensures IsArg(raw[i]) && Decode(raw[i]) == args[i]
    {
      assert Decode(Encoded(args[i])) == args[i];
      TokenIsArg(raw[i]);
    }
    assert IsSpace(DecodeByte(0)) && IsSpace(DecodeByte(32)) by { NulIsBlank(); }
    ParseRendered(raw, 0, [0]);
    ParseRendered(raw, 32, []);
    assert Decoded(raw) == args;
  }

  lemma NulIsBlank()
    ensures IsSpace(DecodeByte(0)) && IsSpace(DecodeByte(32))
  {
  }

  /** The UTF-8 argument "a", U+00E0, "b" has no blank in it and comes out as two words. */
  lemma {:induction false} AccentSplitsArgument()
    ensures ParseCmdline([0x61, 0xC3, 0xA0, 0x62]) == [Decode([0x61, 0xC3]), Decode([0x62])]
  {
    hide ParseCmdline;
    var a: Bytes, b: Bytes := [0x61, 0xC3], [0x62];
    assert [0x61, 0xC3, 0xA0, 0x62] == a + [0xA0] + b;
    assert IsSpace(DecodeByte(0xA0));
    ParseCut(a, 0xA0, b);
    WordsOfArgs([a]);
    WordsOfArgs([b]);
    assert Words([a]) == ParseCmdline(a) + Words([a][1..]) && Words([b]) == ParseCmdline(b) + Words([b][1..]);
    assert [a][1..] == [] && [b][1..] == [];
  }

  // ---------------------------------------------------------------- matching

  predicate Contains(hay: string, needle: string) {
    needle <= hay || (|hay| > 0 && Contains(hay[1..], needle))
  }

  /** The needle occurs at some place of the hay. */
  lemma {:induction false} ContainsExactly(hay: string, needle: string)
    ensures Contains(hay, needle) <==> exists i | 0 <= i <= |hay| :: needle <= hay[i..]
  {
    assert hay[0..] == hay;
    if |hay| > 0 {
      var rest := hay[1..];
      ContainsExactly(rest, needle);
      forall i | 0 <= i <= |rest|
        ensures rest[i..] == hay[i + 1..]
      {
      }
      if exists i | 0 <= i <= |hay| :: needle <= hay[i..] {
        var i :| 0 <= i <= |hay| && needle <= hay[i..];
        if i > 0 {
          assert needle <= rest[i - 1..];
        }
      }
    }
  }

  /** A substring stays one when text is put around it. */
  lemma {:induction false} ContainsAround(before: string, needle: string, after: string)
    ensures Contains(before + needle + after, needle)
  {
    var hay := before + needle + after;
    ContainsExactly(hay, needle);
    assert hay[|before|..] == needle + after;
  }

  /** What it means for a command line to satisfy a profile. */
  predicate Matches(args: seq<string>, p: Profile) {
    && |args| > 0
    && (|p.binarySubstringAny| > 0 ==>
          exists i | 0 <= i < |p.binarySubstringAny| :: Contains(ToLower(args[0]), ToLower(p.binarySubstringAny[i])))
    && (forall i | 0 <= i < |p.argRequiredAll| :: p.argRequiredAll[i] in args)
    && (forall i | 0 <= i < |p.argExcludedAny| :: p.argExcludedAny[i] !in args)
    && (p.argLast.Some? ==> args[|args| - 1] == p.argLast.value)
  }

  method MatchProfile(args: seq<string>, p: Profile) returns (r: bool)
    ensures r <==> Matches(args, p)
  {
    if |args| == 0 {
      return false;
    }
    if |p.binarySubstringAny| > 0 {
      var bin := ToLower(args[0]);
      var found := false;
      for i := 0 to |p.binarySubstringAny|
        invariant found <==> exists j | 0 <= j < i :: Contains(bin, ToLower(p.binarySubstringAny[j]))
      {
        found := found || Contains(bin, ToLower(p.binarySubstringAny[i]));
      }
      if !found {
        return false;
      }
    }
    for i := 0 to |p.argRequiredAll|
      invariant forall j | 0 <= j < i :: p.argRequiredAll[j] in args
    {
      if p.argRequiredAll[i] !in args {
        return false;
      }
    }
    for i := 0 to |p.argExcludedAny|
      invariant forall j | 0 <= j < i :: p.argExcludedAny[j] !in args
    {
      if p.argExcludedAny[i] in args {
        return false;
      }
    }
    if p.argLast.Some? && args[|args| - 1] != p.argLast.value {
      return false;
    }
    return true;
  }

  /** The name of the first profile that matches. */
  function FirstMatch(args: seq<string>, profiles: seq<Profile>): (r: Option<string>)
    ensures r.None? <==> forall i | 0 <= i < |profiles| :: !Matches(args, profiles[i])
    ensures r.Some? ==> exists i | 0 <= i < |profiles| ::
              Matches(args, profiles[i]) && profiles[i].name == r.value
              && forall j | 0 <= j < i :: !Matches(args, profiles[j])
  {
    if |profiles| == 0 then None
    else if Matches(args, profiles[0]) then Some(profiles[0].name)
    else
      var r := FirstMatch(args, profiles[1..]);
      assert r.Some? ==> exists i | 0 <= i < |profiles| ::
        Matches(args, profiles[i]) && profiles[i].name == r.value
        && forall j | 0 <= j < i :: !Matches(args, profiles[j]) by {
        if r.Some? {
          var i :| 0 <= i < |profiles[1..]| && Matches(args, profiles[1..][i]) && profiles[1..][i].name == r.value
                   && forall j | 0 <= j < i :: !Matches(args, profiles[1..][j]);
          assert Matches(args, profiles[i + 1]) && profiles[i + 1].name == r.value;
          assert forall j | 0 < j < i + 1 :: profiles[j] == profiles[1..][j - 1];
        }
      }
      r
  }

  // ---------------------------------------------------------------- the profiles shipped with the daemon

  const DEFAULT_PROFILES: seq<Profile> := [
    Profile("firefox", ["firefox", "librewolf", "waterfox", "icecat", "zen"], ["-isForBrowser"], [], Some("tab")),
    Profile("chromium", [], ["--type=renderer"], ["--extension-process"], None)
  ]

  /** The binary's name, in any case and under any path, holds the word. */
  predicate Named(binary: string, word: string) { exists i | 0 <= i <= |binary| :: word <= ToLower(binary)[i..] }

  predicate IsFirefoxTab(args: seq<string>) {
    && |args| > 0
    && (|| Named(args[0], "firefox") || Named(args[0], "librewolf") || Named(args[0], "waterfox")
        || Named(args[0], "icecat") || Named(args[0], "zen"))
    && "-isForBrowser" in args
    && args[|args| - 1] == "tab"
  }

  predicate IsChromiumRenderer(args: seq<string>) { "--type=renderer" in args && "--extension-process" !in args }

  lemma {:induction false} SmallLetters(i: nat)
    requires i < 5
    ensures var word := DEFAULT_PROFILES[0].binarySubstringAny[i]; ToLower(word) == word
  {
    hide ToLower;
    if i == 0 {
      LowerFixes("firefox");
    } else if i == 1 {
      LowerFixes("librewolf");
    } else if i == 2 {
      LowerFixes("waterfox");
    } else if i == 3 {
      LowerFixes("icecat");
    } else {
      LowerFixes("zen");
    }
  }

  lemma {:induction false} NamedExactly(binary: string, i: nat)
    requires i < 5
    ensures var word := DEFAULT_PROFILES[0].binarySubstringAny[i];
            Contains(ToLower(binary), ToLower(word)) <==> Named(binary, word)
  {
    hide ToLower, Contains;
    SmallLetters(i);
    ContainsExactly(ToLower(binary), DEFAULT_PROFILES[0].binarySubstringAny[i]);
  }

  lemma {:induction false} FirefoxProfile(args: seq<string>)
    ensures Matches(args, DEFAULT_PROFILES[0]) <==> IsFirefoxTab(args)
  {
    hide ToLower, Contains, Named;
    var p := DEFAULT_PROFILES[0];
    assert p.argRequiredAll[0] == "-isForBrowser";
    if |args| > 0 {
      var bin, words := ToLower(args[0]), p.binarySubstringAny;
      NamedExactly(args[0], 0);
      NamedExactly(args[0], 1);
      NamedExactly(args[0], 2);
      NamedExactly(args[0], 3);
      NamedExactly(args[0], 4);
      assert (exists i | 0 <= i < |words| :: Contains(bin, ToLower(words[i]))) <==>
             (exists i | 0 <= i < 5 :: Named(args[0], words[i]));
      assert words[0] == "firefox" && words[1] == "librewolf" && words[2] == "waterfox" && words[3] == "icecat"
             && words[4] == "zen";
    }
  }

  lemma {:induction false} ChromiumProfile(args: seq<string>)
    ensures Matches(args, DEFAULT_PROFILES[1]) <==> IsChromiumRenderer(args)
  {
    assert DEFAULT_PROFILES[1].argRequiredAll[0] == "--type=renderer";
    assert DEFAULT_PROFILES[1].argExcludedAny[0] == "--extension-process";
  }

  /** With the shipped profiles a process is a Firefox tab, else a Chromium renderer, else no target. */
  lemma {:induction false} DefaultsExactly(args: seq<string>)
    ensures FirstMatch(args, DEFAULT_PROFILES)
            == if IsFirefoxTab(args) then Some("firefox") else if IsChromiumRenderer(args) then Some("chromium") else None
  {
    hide Matches;
    FirefoxProfile(args);
    ChromiumProfile(args);
    var rest := DEFAULT_PROFILES[1..];
    assert rest == [DEFAULT_PROFILES[1]] && rest[1..] == [];
    assert FirstMatch(args, rest) == if Matches(args, rest[0]) then Some("chromium") else None;
  }

  /** Wherever the browser is installed its tabs are found. */
  lemma {:induction false} AnyPathIsFound(path: string, suffix: string, flags: seq<string>)
    requires "-isForBrowser" in flags
    ensures FirstMatch([path + "firefox" + suffix] + flags + ["tab"], DEFAULT_PROFILES) == Some("firefox")
  {
    hide FirstMatch, ToLower;
    var args := [path + "firefox" + suffix] + flags + ["tab"];
    DefaultsExactly(args);
    SmallLetters(0);
    var low := ToLower(args[0]);
    assert low[|path|..] == "firefox" + ToLower(suffix);
  }

  // ---------------------------------------------------------------- /proc

  /** The live processes and the command line each one shows. */
  type World = map<u32, Bytes>

  datatype Target = Target(pid: u32, profile: string)

  /** The profile the table's classifier gives a cmdline: an empty one is skipped before tokenising. */
  function Label(profiles: seq<Profile>, raw: Bytes): Option<string> {
    if |raw| == 0 then None else FirstMatch(ParseCmdline(raw), profiles)
  }

  function Classify(profiles: seq<Profile>, world: World, pid: u32): Option<string> {
    if pid !in world then None else Label(profiles, world[pid])
  }

  /** The profile the plain walk finds: no test for an empty cmdline. */
  function ScanChoice(profiles: seq<Profile>, world: World, pid: u32): Option<string> {
    if pid !in world then None else FirstMatch(ParseCmdline(world[pid]), profiles)
  }

  /** On every cmdline the classifier and the walk choose the same profile. */
  lemma {:induction false} SameChoice(profiles: seq<Profile>, world: World, pid: u32)
    ensures Classify(profiles, world, pid) == ScanChoice(profiles, world, pid)
  {
    if pid in world && |world[pid]| == 0 {
      assert ParseCmdline(world[pid]) == [];
      assert FirstMatch([], profiles).None?;
    }
  }

  predicate DistinctPids(pids: seq<u32>) { forall i, j | 0 <= i < j < |pids| :: pids[i] != pids[j] }

  /** The per-cycle walk over a directory listing of distinct PIDs, some of which may be gone by now. */
  method ScanTargets(profiles: seq<Profile>, world: World, listing: seq<u32>) returns (ts: seq<Target>)
    requires DistinctPids(listing)
    ensures forall t: Target :: t in ts <==> t.pid in listing && ScanChoice(profiles, world, t.pid) == Some(t.profile)
    ensures forall i, j | 0 <= i < j < |ts| :: ts[i].pid != ts[j].pid
  {
    hide Matches, FirstMatch, ParseCmdline;
    ts := [];
    for n := 0 to |listing|
      invariant forall t: Target ::
                  t in ts <==> t.pid in listing[..n] && ScanChoice(profiles, world, t.pid) == Some(t.profile)
      invariant forall i, j | 0 <= i < j < |ts| :: ts[i].pid != ts[j].pid
    {
      var pid := listing[n];
      assert listing[..n + 1] == listing[..n] + [pid];
      assert forall i | 0 <= i < |ts| :: ts[i].pid != pid by {
        assert forall i | 0 <= i < |ts| :: ts[i] in ts;
      }
      if pid in world {
        var choice := FirstMatch(ParseCmdline(world[pid]), profiles);
        if choice.Some? {
          ts := ts + [Target(pid, choice.value)];
        }
      }
    }
    assert listing[..|listing|] == listing;
  }
}
