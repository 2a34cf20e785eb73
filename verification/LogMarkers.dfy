/** Reading the `[index/total] name` markers back out of a job log.

    `MatchHead` is the marker pattern applied at the start of a line; it includes the two
    things that pattern does beyond one line: white space after the bracket may run over
    line ends, and trailing white space is given back when nothing follows it. */
module LogMarkers {
  import opened Wrappers
  import opened Text
  import opened Recorder
  import JobLog

  /** One match: what the groups captured, and the text from the end of the match on. */
  datatype Hit = Hit(index: nat, total: nat, name: string, rest: string)

  function SpaceRun(s: string): (n: nat)
    ensures n <= |s|
    ensures n < |s| ==> !IsSpace(s[n])
  {
    if s != "" && IsSpace(s[0]) then 1 + SpaceRun(s[1..]) else 0
  }

  /** Where the first line of `s` ends. */
  function LineEnd(s: string): (n: nat)
    ensures n <= |s| && '\n' !in s[..n]
    ensures n < |s| ==> s[n] == '\n'
  {
    if s != "" && s[0] != '\n' then 1 + LineEnd(s[1..]) else 0
  }

  /** `s` without its first line. */
  function NextLine(s: string): (r: string)
    ensures s != "" ==> |r| < |s|
    ensures |r| <= |s|
  {
    var e := LineEnd(s);
    if e < |s| then s[e + 1..] else ""
  }

  /** A numeral at the start of `s`, and the text behind it. */
  function Numeral(s: string): (r: Option<(nat, string)>)
    ensures r.Some? ==> |r.value.1| < |s|
  {
    var d := DigitRun(s);
    if d == 0 then None else Some((ParseDecimal(s[..d]), s[d..]))
  }

  /** The bracketed numerals at the start of `s`, and the text behind the bracket. */
  function Head(s: string): (h: Option<(nat, nat, string)>)
    ensures h.Some? ==> |h.value.2| < |s|
  {
    if s == "" || s[0] != '[' then None
    else match Numeral(s[1..])
         case None => None
         case Some((index, a)) =>
           if a == "" || a[0] != '/' then None
           else match Numeral(a[1..])
                case None => None
                case Some((total, b)) =>
                  if b == "" || b[0] != ']' then None else Some((index, total, b[1..]))
  }

  /** The last position of a character other than a line end, if there is one. */
  function LastOnLine(s: string): (p: Option<nat>)
    ensures p.Some? ==> p.value < |s|
  {
    if s == "" then None
    else if s[|s| - 1] != '\n' then Some(|s| - 1)
    else LastOnLine(s[..|s| - 1])
  }

  /** The name group behind the bracket, and the text from the end of the match on. */
  function NameGroup(tail: string): (g: Option<(string, string)>)
    ensures g.Some? ==> |g.value.1| <= |tail|
  {
    var w := SpaceRun(tail);
    if w < |tail| then
      var e := LineEnd(tail[w..]);
      Some((Strip(tail[w..][..e], IsSpace), tail[w..][e..]))
    else
      match LastOnLine(tail)
      case None => None
      case Some(q) => Some(("", tail[q + 1..]))
  }

  function MatchHead(s: string): (hit: Option<Hit>)
    ensures hit.Some? ==> |hit.value.rest| < |s|
  {
    match Head(s)
    case None => None
    case Some((index, total, tail)) =>
      match NameGroup(tail)
      case None => None
      case Some((name, rest)) => Some(Hit(index, total, name, rest))
  }

  /** Every marker of a text that starts at a line start; the last one for an index wins. */
  function Stages(s: string): map<nat, (nat, string)>
    decreases |s|
  {
    hide MatchHead, NextLine;
    if s == "" then map[]
    else
      match MatchHead(s)
      case None => Stages(NextLine(s))
      case Some(hit) => map[hit.index := (hit.total, hit.name)] + Stages(NextLine(hit.rest))
  }

  lemma UpdateThenRest<K, V>(m: map<K, V>, k: K, v: V, rest: map<K, V>)
    ensures m[k := v] + rest == m + (map[k := v] + rest)
  {
  }

  method ParseLogStages(log: string) returns (out: map<nat, (nat, string)>)
    ensures out == Stages(log)
  {
    out := map[];
    var rest := log;
    while rest != ""
      invariant out + Stages(rest) == Stages(log)
      decreases |rest|
    {
      var hit := MatchHead(rest);
      if hit.Some? {
        var next := NextLine(hit.value.rest);
        UpdateThenRest(out, hit.value.index, (hit.value.total, hit.value.name), Stages(next));
        out := out[hit.value.index := (hit.value.total, hit.value.name)];
        rest := next;
      } else {
        rest := NextLine(rest);
      }
    }
  }

  // ----- reading back one printed line -----

  /** A name `_step` can print and read back: on one line, with no white space at its ends. */
  predicate OneLine(name: string) {
    Trimmed(name) && '\n' !in name
  }

  lemma {:induction false} LineEndOf(s: string, rest: string)
    requires '\n' !in s
    ensures LineEnd(s + "\n" + rest) == |s|
    ensures NextLine(s + "\n" + rest) == rest
  {
    if s != "" {
      assert (s + "\n" + rest)[1..] == s[1..] + "\n" + rest;
      assert s[0] in s;
      LineEndOf(s[1..], rest);
    }
  }

  lemma NumeralOf(n: nat, rest: string)
    requires rest != "" && !IsDigit(rest[0])
    ensures Numeral(Decimal(n) + rest) == Some((n, rest))
  {
    DigitRunOf(Decimal(n), rest);
    ParseOfDecimal(n);
    assert (Decimal(n) + rest)[..|Decimal(n)|] == Decimal(n);
    assert (Decimal(n) + rest)[|Decimal(n)|..] == rest;
  }

  lemma HeadOfMarker(index: nat, total: nat, tail: string)
    ensures Head("[" + (Decimal(index) + ("/" + (Decimal(total) + ("]" + tail))))) == Some((index, total, tail))
  {
    var b := "]" + tail;
    var a := "/" + (Decimal(total) + b);
    assert b[1..] == tail;
    assert a[1..] == Decimal(total) + b;
    NumeralOf(total, b);
    NumeralOf(index, a);
    assert ("[" + (Decimal(index) + a))[1..] == Decimal(index) + a;
  }

  lemma MarkerLineShape(index: nat, total: nat, name: string, rest: string)
    ensures Marker(index, total, name) + "\n" + rest
         == "[" + (Decimal(index) + ("/" + (Decimal(total) + ("]" + (" " + (name + "\n" + rest))))))
  {
  }

  lemma OneBlank(line: string)
    requires line != "" && !IsSpace(line[0])
    ensures SpaceRun(" " + line) == 1 && (" " + line)[1..] == line
  {
    assert (" " + line)[1..] == line;
    assert SpaceRun(line) == 0;
  }

  /** Behind the bracket of a printed marker: one blank, the name, the end of the line. */
  lemma NameGroupOf(name: string, rest: string)
    requires OneLine(name)
    ensures NameGroup(" " + (name + "\n" + rest)) == Some((name, "\n" + rest))
  {
    hide SpaceRun, LineEnd, LastOnLine, Strip;
    var line := name + "\n" + rest;
    assert line[0] == name[0];
    OneBlank(line);
    LineEndOf(name, rest);
    assert line[..|name|] == name && line[|name|..] == "\n" + rest;
    StripOfTrimmed(name);
  }

  /** A printed marker line is read back as it was printed, and nothing behind it is lost. */
  lemma StagesOfMarkerLine(index: nat, total: nat, name: string, rest: string)
    requires OneLine(name)
    ensures Stages(Marker(index, total, name) + "\n" + rest) == map[index := (total, name)] + Stages(rest)
  {
    MatchOfMarkerLine(index, total, name, rest);
    StagesOfHit(Marker(index, total, name) + "\n" + rest, Hit(index, total, name, "\n" + rest));
    NextLineOfBreak(rest);
  }

  lemma StagesOfHit(s: string, hit: Hit)
    requires MatchHead(s) == Some(hit)
    ensures Stages(s) == map[hit.index := (hit.total, hit.name)] + Stages(NextLine(hit.rest))
  {
  }

  lemma NextLineOfBreak(rest: string)
    ensures NextLine("\n" + rest) == rest
  {
  }

  lemma MatchOfMarkerLine(index: nat, total: nat, name: string, rest: string)
    requires OneLine(name)
    ensures MatchHead(Marker(index, total, name) + "\n" + rest) == Some(Hit(index, total, name, "\n" + rest))
  {
    MarkerLineShape(index, total, name, rest);
    HeadOfMarker(index, total, " " + (name + "\n" + rest));
    NameGroupOf(name, rest);
  }

  // ----- what counts as a marker, whoever printed it -----

  /** `s` starts with two numerals in brackets, a slash between them, and `tail` follows. */
  predicate IsHead(s: string, a: string, b: string, tail: string) {
    && a != "" && AllDigits(a) && b != "" && AllDigits(b)
    && s == "[" + (a + ("/" + (b + ("]" + tail))))
  }

  lemma NumeralIs(digits: string, rest: string)
    requires digits != "" && AllDigits(digits) && rest != "" && !IsDigit(rest[0])
    ensures Numeral(digits + rest) == Some((ParseDecimal(digits), rest))
  {
    hide ParseDecimal;
    DigitRunOf(digits, rest);
    assert (digits + rest)[..|digits|] == digits && (digits + rest)[|digits|..] == rest;
  }

  lemma HeadOfBrackets(s: string, a: string, b: string, tail: string)
    requires IsHead(s, a, b, tail)
    ensures Head(s) == Some((ParseDecimal(a), ParseDecimal(b), tail))
  {
    hide Numeral, ParseDecimal;
    var second := "]" + tail;
    var first := "/" + (b + second);
    assert s[1..] == a + first && first[1..] == b + second && second[1..] == tail;
    NumeralIs(b, second);
    NumeralIs(a, first);
  }

  /** A head is found exactly where two numerals stand in brackets, and its numbers are theirs. */
  lemma HeadIff(s: string)
    ensures Head(s).Some? <==> exists a, b, tail :: IsHead(s, a, b, tail)
    ensures forall a, b, tail :: IsHead(s, a, b, tail) ==> Head(s) == Some((ParseDecimal(a), ParseDecimal(b), tail))
  {
    forall a, b, tail | IsHead(s, a, b, tail)
      ensures Head(s) == Some((ParseDecimal(a), ParseDecimal(b), tail))
    {
      HeadOfBrackets(s, a, b, tail);
    }
    if Head(s).Some? {
      HeadHasBrackets(s);
    }
  }

  lemma HeadHasBrackets(s: string)
    requires Head(s).Some?
    ensures exists a, b, tail :: IsHead(s, a, b, tail)
  {
    hide Numeral;
    var first := s[1..];
    var a := NumeralHas(first);
    var second := Numeral(first).value.1;
    var b := NumeralHas(second[1..]);
    var last := Numeral(second[1..]).value.1;
    assert s == "[" + first && second == "/" + second[1..] && last == "]" + last[1..];
    assert IsHead(s, a, b, last[1..]);
  }

  lemma NumeralHas(s: string) returns (digits: string)
    requires Numeral(s).Some?
    ensures digits != "" && AllDigits(digits) && s == digits + Numeral(s).value.1
  {
    digits := s[..DigitRun(s)];
  }

  lemma {:induction false} SpaceRunOf(blanks: string, rest: string)
    requires forall i :: 0 <= i < |blanks| ==> IsSpace(blanks[i])
    requires rest == "" || !IsSpace(rest[0])
    ensures SpaceRun(blanks + rest) == |blanks|
  {
    if blanks == "" {
      assert blanks + rest == rest;
    } else {
      assert (blanks + rest)[1..] == blanks[1..] + rest;
      SpaceRunOf(blanks[1..], rest);
    }
  }

  /** Behind a head the name is what stands on the next line that is not blank, without the white
      space at its ends; line ends before it do not matter. */
  lemma MatchOfName(s: string, a: string, b: string, blanks: string, line: string, rest: string)
    requires IsHead(s, a, b, blanks + (line + rest))
    requires forall i :: 0 <= i < |blanks| ==> IsSpace(blanks[i])
    requires line != "" && !IsSpace(line[0]) && '\n' !in line && (rest == "" || rest[0] == '\n')
    ensures MatchHead(s) == Some(Hit(ParseDecimal(a), ParseDecimal(b), Strip(line, IsSpace), rest))
  {
    hide Head, SpaceRun, LineEnd, Strip, LastOnLine;
    HeadOfBrackets(s, a, b, blanks + (line + rest));
    SpaceRunOf(blanks, line + rest);
    assert (blanks + (line + rest))[|blanks|..] == line + rest;
    EndOfLine(line, rest);
    assert (line + rest)[..|line|] == line && (line + rest)[|line|..] == rest;
  }

  lemma {:induction false} EndOfLine(line: string, rest: string)
    requires '\n' !in line && (rest == "" || rest[0] == '\n')
    ensures LineEnd(line + rest) == |line|
  {
    if line == "" {
      assert line + rest == rest;
    } else {
      assert (line + rest)[1..] == line[1..] + rest;
      assert line[0] in line;
      EndOfLine(line[1..], rest);
    }
  }

  /** With nothing but white space behind it, a head still counts, with an empty name, when any of
      that is on its line; otherwise it does not. */
  lemma MatchOfBlanks(s: string, a: string, b: string, blanks: string, ends: string)
    requires IsHead(s, a, b, blanks + ends)
    requires forall i :: 0 <= i < |blanks| ==> IsSpace(blanks[i])
    requires forall i :: 0 <= i < |ends| ==> ends[i] == '\n'
    requires blanks != "" ==> blanks[|blanks| - 1] != '\n'
    ensures MatchHead(s) == if blanks == "" then None else Some(Hit(ParseDecimal(a), ParseDecimal(b), "", ends))
  {
    hide Head, SpaceRun;
    HeadOfBrackets(s, a, b, blanks + ends);
    SpaceRunOf(blanks + ends, "");
    assert (blanks + ends) + "" == blanks + ends;
    LastBeforeEnds(blanks, ends);
    assert (blanks + ends)[|blanks|..] == ends;
  }

  lemma {:induction false} LastBeforeEnds(blanks: string, ends: string)
    requires forall i :: 0 <= i < |ends| ==> ends[i] == '\n'
    requires blanks != "" ==> blanks[|blanks| - 1] != '\n'
    ensures LastOnLine(blanks + ends) == if blanks == "" then None else Some(|blanks| - 1)
  {
    if ends == "" {
      assert blanks + ends == blanks;
    } else {
      assert (blanks + ends)[..|blanks + ends| - 1] == blanks + ends[..|ends| - 1];
      LastBeforeEnds(blanks, ends[..|ends| - 1]);
    }
  }

  // ----- other output -----

  /** No line of `text` starts like a marker. */
  predicate Unmarked(text: string)
    decreases |text|
  {
    Head(text).None? && (text == "" || Unmarked(NextLine(text)))
  }

  /** Whether a text starts with a marker head is decided within its first line. */
  lemma HeadWithinLine(line: string, rest: string)
    ensures Head(line + "\n" + rest).Some? <==> Head(line).Some?
  {
    if line != "" && line[0] == '[' {
      assert (line + "\n" + rest)[1..] == line[1..] + "\n" + rest;
      NumeralWithin(line[1..], rest);
      if Numeral(line[1..]).Some? {
        var a := Numeral(line[1..]).value.1;
        if a != "" && a[0] == '/' {
          assert (a + "\n" + rest)[1..] == a[1..] + "\n" + rest;
          NumeralWithin(a[1..], rest);
        }
      }
    }
  }

  lemma NumeralWithin(line: string, rest: string)
    ensures Numeral(line + "\n" + rest) ==
            match Numeral(line) case None => None case Some((n, a)) => Some((n, a + "\n" + rest))
  {
    DigitRunWithin(line, rest);
    var d := DigitRun(line);
    assert (line + "\n" + rest)[..d] == line[..d];
    assert (line + "\n" + rest)[d..] == line[d..] + "\n" + rest;
  }

  lemma {:induction false} DigitRunWithin(line: string, rest: string)
    ensures DigitRun(line + "\n" + rest) == DigitRun(line)
  {
    if line != "" {
      assert (line + "\n" + rest)[1..] == line[1..] + "\n" + rest;
      DigitRunWithin(line[1..], rest);
    }
  }

  /** Output without marker heads contributes nothing, whatever follows it. */
  lemma {:induction false} StagesOfUnmarked(text: string, rest: string)
    requires Unmarked(text)
    ensures Stages(text + "\n" + rest) == Stages(rest)
    decreases |text|
  {
    var e := LineEnd(text);
    if e == |text| {
      UnmarkedLine(text, rest);
    } else {
      var line, more := text[..e], text[e + 1..];
      SplitAtBreak(text, e, rest);
      UnmarkedSplit(line, more);
      calc {
        Stages(text + "\n" + rest);
        Stages(line + "\n" + (more + "\n" + rest));
        { UnmarkedLine(line, more + "\n" + rest); }
        Stages(more + "\n" + rest);
        { StagesOfUnmarked(more, rest); }
        Stages(rest);
      }
    }
  }

  lemma SplitAtBreak(text: string, e: nat, rest: string)
    requires e < |text| && text[e] == '\n'
    ensures text == text[..e] + "\n" + text[e + 1..]
    ensures text + "\n" + rest == text[..e] + "\n" + (text[e + 1..] + "\n" + rest)
  {
  }

  lemma UnmarkedSplit(line: string, more: string)
    requires '\n' !in line && Unmarked(line + "\n" + more)
    ensures Head(line).None? && Unmarked(more)
  {
    HeadWithinLine(line, more);
    LineEndOf(line, more);
  }

  lemma UnmarkedLine(line: string, rest: string)
    requires '\n' !in line && Head(line).None?
    ensures Stages(line + "\n" + rest) == Stages(rest)
  {
    HeadWithinLine(line, rest);
    LineEndOf(line, rest);
  }

  // ----- the log of a whole run -----

  /** Everything a run writes to its log, write by write. */
  function Chunks(events: History<Event>, scrub: string -> string): History<string> {
    match events
    case Start => Start
    case Then(earlier, Line(text)) => Then(Chunks(earlier, scrub), scrub(text) + "\n")
    case Then(earlier, StepCall(index, total, name, _, _)) =>
      Then(Chunks(earlier, scrub), scrub(Marker(index, total, name)) + "\n")
    case Then(earlier, _) => Chunks(earlier, scrub)
  }

  lemma {:induction false} RunLog(s: JobState, events: History<Event>, scrub: string -> string)
    requires s.log == ""
    requires Run(s, events, scrub).Stored?
    ensures Run(s, events, scrub).state.log ==
            JobLog.LogOf(Chunks(events, scrub), JobLog.LOG_CAP, JobLog.TruncationMarker())
  {
    hide JobLog.Appended, JobLog.TruncationMarker, Marker;
    match events
    case Start =>
    case Then(earlier, e) => RunLog(s, earlier, scrub);
  }

  /** Whatever a job prints, its stored log stays within 200000 characters and keeps the tail. */
  lemma RecordedLogIsFaithful(status: JobStatus, events: History<Event>, scrub: string -> string)
    requires Run(Fresh(status), events, scrub).Stored?
    ensures JobLog.Faithful(Run(Fresh(status), events, scrub).state.log,
                            JobLog.Written(Chunks(events, scrub)), 200_000, JobLog.TruncationMarker())
  {
    hide JobLog.TruncationMarker, JobLog.Faithful;
    RunLog(Fresh(status), events, scrub);
    JobLog.LogIsFaithful(Chunks(events, scrub), JobLog.LOG_CAP, JobLog.TruncationMarker());
  }

  /** Markers reach the log as printed, and no other line of output looks like one. */
  predicate Readable(events: History<Event>, scrub: string -> string) {
    match events
    case Start => true
    case Then(earlier, e) =>
      && Readable(earlier, scrub)
      && match e
         case StepCall(index, total, name, _, _) =>
           OneLine(name) && scrub(Marker(index, total, name)) == Marker(index, total, name)
         case Line(text) => Unmarked(scrub(text))
         case _ => true
  }

  /** Reading a readable run's text finds what was announced, and then reads on. */
  lemma {:induction false} StagesOfWritten(events: History<Event>, scrub: string -> string, tail: string)
    requires Readable(events, scrub)
    ensures Stages(JobLog.Written(Chunks(events, scrub)) + tail) == Announced(events) + Stages(tail)
  {
    hide Stages, Marker, Unmarked;
    match events
    case Start =>
      assert "" + tail == tail;
      NothingAdded(Stages(tail));
    case Then(earlier, StepCall(index, total, name, closing, at)) =>
      var m := Marker(index, total, name);
      var text := JobLog.Written(Chunks(earlier, scrub));
      StagesOfWritten(earlier, scrub, m + "\n" + tail);
      assert text + (m + "\n") + tail == text + (m + "\n" + tail);
      StagesOfMarkerLine(index, total, name, tail);
      UpdateThenRest(Announced(earlier), index, (total, name), Stages(tail));
    case Then(earlier, Line(text)) =>
      var line := scrub(text);
      var before := JobLog.Written(Chunks(earlier, scrub));
      StagesOfWritten(earlier, scrub, line + "\n" + tail);
      assert before + (line + "\n") + tail == before + (line + "\n" + tail);
      StagesOfUnmarked(line, tail);
    case Then(earlier, _) =>
      StagesOfWritten(earlier, scrub, tail);
  }

  lemma NothingAdded<K, V>(m: map<K, V>)
    ensures map[] + m == m && m + map[] == m
  {
  }

  /** The log and the rows tell the same story. As long as the log was never truncated, reading
      the markers back gives exactly the indices, totals and names that the rows hold. */
  lemma LogAgreesWithRows(status: JobStatus, events: History<Event>, scrub: string -> string)
    requires Run(Fresh(status), events, scrub).Stored?
    requires Readable(events, scrub)
    requires |JobLog.Written(Chunks(events, scrub))| <= JobLog.LOG_CAP
    ensures var s := Run(Fresh(status), events, scrub).state;
            Stages(s.log) == Shown(s.rows)
  {
    hide JobLog.TruncationMarker, Run;
    var text := JobLog.Written(Chunks(events, scrub));
    RecordedLogIsFaithful(status, events, scrub);
    StagesOfWritten(events, scrub, "");
    assert text + "" == text;
    NothingAdded(Announced(events));
    RowsShowAnnounced(Fresh(status), events, scrub);
  }
}
