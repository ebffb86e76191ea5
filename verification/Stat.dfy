/** CPU ticks and start time out of a process status line (daemon/src/compressor.rs, parse_proc_stats). */
module Stat {
  import opened Base
  import opened Text

  datatype ProcStats = ProcStats(starttime: u64, utime: u64, stime: u64)

  /** Where the last occurrence of a character is. */
  function LastIndex(s: string, c: char): (r: Option<nat>)
    ensures r.Some? ==> r.value < |s| && s[r.value] == c && forall i | r.value < i < |s| :: s[i] != c
    ensures r.None? ==> forall i | 0 <= i < |s| :: s[i] != c
  {
    if |s| == 0 then None
    else if s[|s| - 1] == c then Some(|s| - 1) else LastIndex(s[..|s| - 1], c)
  }

  /** The source skips two bytes from the parenthesis on. That is None past the end, and None again when the character
      after the parenthesis takes more than one byte of UTF-8, since the cut would fall inside it. */
  function AfterComm(stat: string): Option<string> {
    var paren := LastIndex(stat, ')');
    if paren.None? || paren.value + 1 == |stat| || stat[paren.value + 1] as int >= 128 then None
    else Some(stat[paren.value + 2..])
  }

  function Field(fields: seq<string>, i: nat): Option<u64> {
    if i < |fields| then ParseU64(fields[i], 10) else None
  }

  function ParseProcStats(stat: string): Option<ProcStats> {
    var rest := AfterComm(stat);
    if rest.None? then None
    else
      var fields := Split(rest.value);
      var utime, stime, starttime := Field(fields, 11), Field(fields, 12), Field(fields, 19);
      if utime.Some? && stime.Some? && starttime.Some?
      then Some(ProcStats(starttime.value, utime.value, stime.value)) else None
  }

  // ---------------------------------------------------------------- the line the kernel writes

  predicate IsField(w: string) { IsToken(w) && forall i | 0 <= i < |w| :: w[i] != ')' }

  predicate AreFields(ws: seq<string>) { forall i | 0 <= i < |ws| :: IsField(ws[i]) }

  /** Each field behind a blank. */
  function Spaced(ws: seq<string>): string {
    if |ws| == 0 then "" else " " + (ws[0] + Spaced(ws[1..]))
  }

  /** Everything after the command name: `early` are the fields from the state to the last fault counter, `mid` those
      between the system time and the start time. */
  function Fields(early: seq<string>, mid: seq<string>, late: seq<string>, v: ProcStats): seq<string> {
    early + [Print(v.utime, 10), Print(v.stime, 10)] + mid + [Print(v.starttime, 10)] + late
  }

  lemma {:induction false} SpacedSplits(ws: seq<string>)
    requires AreFields(ws)
    ensures Split(Spaced(ws)) == ws
    ensures forall i | 0 <= i < |Spaced(ws)| :: Spaced(ws)[i] != ')'
    ensures |ws| > 0 ==> |Spaced(ws)| > 0 && Spaced(ws)[0] == ' '
  {
    hide Split;
    if |ws| == 0 {
      assert Split("") == [] by { SplitEmpty(); }
    } else {
      var rest := Spaced(ws[1..]);
      SpacedSplits(ws[1..]);
      assert IsSpace(' ');
      SplitSpace(' ', ws[0] + rest);
      SplitToken(ws[0], rest);
      assert ws == [ws[0]] + ws[1..];
    }
  }

  lemma SplitEmpty()
    ensures Split("") == []
  {
  }

  lemma {:induction false} PrintIsField(n: u64)
    ensures IsField(Print(n, 10))
  {
    PrintMeans(n, 10);
    var s := Print(n, 10);
    forall i | 0 <= i < |s| ensures s[i] != ')' {
      var d :| 0 <= d < 16 && s[i] == DIGITS[d];
      DigitRoundTrip(d);
    }
  }

  /** What precedes the last closing parenthesis has no influence. */
  lemma {:induction false} OnlyTheTailCounts(a: string, b: string, tail: string)
    requires forall i | 0 <= i < |tail| :: tail[i] != ')'
    ensures ParseProcStats(a + ")" + tail) == ParseProcStats(b + ")" + tail)
  {
    hide Split, Field;
    TailAt(a, tail);
    TailAt(b, tail);
  }

  lemma {:induction false} TailAt(a: string, tail: string)
    requires forall i | 0 <= i < |tail| :: tail[i] != ')'
    ensures AfterComm(a + ")" + tail)
         == if tail == "" || tail[0] as int >= 128 then None else Some(tail[1..])
  {
    var s := a + ")" + tail;
    assert s[|a|] == ')';
    assert forall i | 0 <= i < |tail| :: s[|a| + 1 + i] == tail[i];
    assert LastIndex(s, ')') == Some(|a|);
    assert s[|a| + 1..] == tail;
    if tail != "" {
      assert s[|a| + 2..] == tail[1..];
    }
  }

  /** Whatever the command is called, with blanks and parentheses of its own, the three numbers are read back. */
  lemma {:induction false} StatRoundTrip(pid: string, comm: string, early: seq<string>, mid: seq<string>,
                                         late: seq<string>, v: ProcStats)
    requires |early| == 11 && |mid| == 6 && AreFields(early + mid + late)
    ensures ParseProcStats(pid + " (" + comm + ")" + Spaced(Fields(early, mid, late, v)) + "\n") == Some(v)
  {
    hide Split, Print, IsToken, ParseU64, Spaced, AfterComm;
    var fields := Fields(early, mid, late, v);
    PrintIsField(v.utime);
    PrintIsField(v.stime);
    PrintIsField(v.starttime);
    assert AreFields(fields) by { FieldsAreFields(early, mid, late, v); }
    SpacedSplits(fields);
    var tail := Spaced(fields) + "\n";
    var a := pid + " (" + comm;
    TailAt(a, tail);
    assert pid + " (" + comm + ")" + Spaced(fields) + "\n" == a + ")" + tail;
    LineFeedEnds(fields);
    ParsePrint(v.utime, 10);
    ParsePrint(v.stime, 10);
    ParsePrint(v.starttime, 10);
  }

  lemma {:induction false} FieldsAreFields(early: seq<string>, mid: seq<string>, late: seq<string>, v: ProcStats)
    requires AreFields(early + mid + late)
    ensures AreFields(Fields(early, mid, late, v))
  {
    hide IsField, Print;
    var all := early + mid + late;
    assert forall i | 0 <= i < |early| :: early[i] == all[i];
    assert forall i | 0 <= i < |mid| :: mid[i] == all[|early| + i];
    assert forall i | 0 <= i < |late| :: late[i] == all[|early| + |mid| + i];
    PrintIsField(v.utime);
    PrintIsField(v.stime);
    PrintIsField(v.starttime);
  }

  /** The blank in front and the line feed behind do not count. */
  lemma {:induction false} LineFeedEnds(ws: seq<string>)
    requires AreFields(ws) && |ws| > 0
    ensures Split((Spaced(ws) + "\n")[1..]) == ws
  {
    hide Split;
    var s := Spaced(ws) + "\n";
    SpacedSplits(ws);
    assert IsSpace(' ') && IsSpace('\n');
    SplitSpace(' ', s[1..]);
    assert [' '] + s[1..] == s;
    SplitCut(Spaced(ws), '\n', "");
    assert s == Spaced(ws) + ['\n'] + "";
    SplitEmpty();
  }
}
