/** The capped job log: `_append_log` drops text from the head once the log
    outgrows the cap, and puts a marker in front of what is left.

    The cap and the marker are parameters of the lemmas, so that nothing here depends
    on how long the marker happens to be; `LOG_CAP` and `TruncationMarker` are the
    source's own values. */
module JobLog {
  import opened Wrappers
  import opened Text

  const LOG_CAP: nat := 200_000
  const DROPPED_NOTE: string := "[... truncated — first bytes dropped,"
  const KEPT_NOTE: string := " keeping last "
  const KEPT_UNIT: string := " bytes ...]"

  /** The line that stands in front of a truncated log, with the line ends around it. */
  function TruncationMarker(): (m: string)
    ensures |m| < LOG_CAP && IsOneLine(m)
  {
    DecimalIsShort(LOG_CAP);
    assert '\n' !in DROPPED_NOTE && '\n' !in KEPT_NOTE && '\n' !in KEPT_UNIT && '\n' !in Decimal(LOG_CAP);
    var text := DROPPED_NOTE + KEPT_NOTE + Decimal(LOG_CAP) + KEPT_UNIT;
    assert ("\n" + text + "\n")[1..|text| + 1] == text;
    "\n" + text + "\n"
  }

  lemma MarkerText()
    ensures TruncationMarker() ==
            "\n" + ("[... truncated — first bytes dropped," + " keeping last " + "200000" + " bytes ...]") + "\n"
  {
    DecimalOfCap();
  }

  lemma DecimalOfCap()
    ensures Decimal(LOG_CAP) == "200000"
  {
    assert Decimal(20) == "20";
    assert Decimal(200) == Decimal(20) + "0";
    assert Decimal(2000) == Decimal(200) + "0";
    assert Decimal(20000) == Decimal(2000) + "0";
  }

  lemma {:induction false} DecimalIsShort(n: nat)
    ensures |Decimal(n)| <= n / 10 + 1
  {
    if n >= 10 {
      DecimalIsShort(n / 10);
    }
  }

  /** One line of text with a line end on either side, and no other. */
  predicate IsOneLine(marker: string) {
    && |marker| >= 2 && marker[0] == '\n' && marker[|marker| - 1] == '\n'
    && '\n' !in marker[1..|marker| - 1]
  }

  lemma NoBreakInside(marker: string)
    requires IsOneLine(marker)
    ensures forall i :: 0 < i < |marker| - 1 ==> marker[i] != '\n'
  {
    forall i | 0 < i < |marker| - 1
      ensures marker[i] != '\n'
    {
      assert marker[i] == marker[1..|marker| - 1][i - 1];
    }
  }

  function LastN(s: string, n: nat): string {
    if n <= |s| then s[|s| - n..] else s
  }

  /** One append: `chunk` is the scrubbed line with its newline. */
  function Appended(log: string, chunk: string, cap: nat, marker: string): string
    requires |marker| < cap
  {
    var grown := log + chunk;
    if |grown| > cap then
      var front := if marker <= log then "" else marker;
      front + LastN(grown, cap - |front|)
    else
      grown
  }

  function LogOf(chunks: History<string>, cap: nat, marker: string): string
    requires |marker| < cap
  {
    match chunks
    case Start => ""
    case Then(before, chunk) => Appended(LogOf(before, cap, marker), chunk, cap, marker)
  }

  /** Everything ever written, without any cap. */
  function Written(chunks: History<string>): string {
    match chunks
    case Start => ""
    case Then(before, chunk) => Written(before) + chunk
  }

  /** `log` is the marker from position `a` on, followed by the history from `b` on. */
  ghost predicate SplitsAt(log: string, history: string, marker: string, a: nat, b: nat) {
    a <= |marker| && b <= |history| && log == marker[a..] + history[b..]
  }

  /** A reader still has at least the last `cap - |marker|` characters of the history. */
  ghost predicate KeepsTail(log: string, history: string, cap: nat, marker: string) {
    exists a: nat, b: nat ::
      SplitsAt(log, history, marker, a, b) && (b > 0 ==> |history| - b >= cap - |marker|)
  }

  /** What a reader of a capped log may rely on. */
  ghost predicate Faithful(log: string, history: string, cap: nat, marker: string) {
    && |log| <= cap
    && (|history| <= cap ==> log == history)
    && KeepsTail(log, history, cap, marker)
  }

  /** Dropping `cut` characters from a log that splits at `a` and `b` leaves one that splits too. */
  lemma CutKeepsSplit(log: string, history: string, marker: string, a: nat, b: nat, cut: nat)
    returns (a': nat, b': nat)
    requires SplitsAt(log, history, marker, a, b) && cut <= |log|
    ensures SplitsAt(log[cut..], history, marker, a', b')
    ensures |history| - b' >= |log| - cut - |marker|
  {
    if cut <= |marker| - a {
      a', b' := a + cut, b;
      assert log[cut..] == marker[a'..] + history[b'..];
    } else {
      a', b' := |marker|, b + (cut - (|marker| - a));
      assert log[cut..] == history[b'..] == marker[a'..] + history[b'..];
    }
  }

  /** The truncation of a log that no longer opens with the whole marker drops what is left
      of the old one, and keeps only history behind the new one. */
  lemma FreshMarkerSplits(grown: string, history: string, marker: string, a: nat, b: nat, keep: nat)
    requires SplitsAt(grown, history, marker, a, b)
    requires keep <= |history| - b
    ensures SplitsAt(marker + LastN(grown, keep), history, marker, 0, |history| - keep)
  {
  }

  lemma GrowKeepsSplit(log: string, history: string, chunk: string, marker: string, a: nat, b: nat)
    requires SplitsAt(log, history, marker, a, b)
    ensures SplitsAt(log + chunk, history + chunk, marker, a, b)
  {
  }

  lemma WholeMarkerIsPrefix(log: string, history: string, marker: string, a: nat, b: nat)
    requires SplitsAt(log, history, marker, a, b)
    ensures a == 0 ==> marker <= log
  {
  }

  lemma AppendKeepsTail(
      log: string, history: string, chunk: string, cap: nat, marker: string, a: nat, b: nat)
    requires |marker| < cap
    requires SplitsAt(log, history, marker, a, b) && (b > 0 ==> |history| - b >= cap - |marker|)
    ensures KeepsTail(Appended(log, chunk, cap, marker), history + chunk, cap, marker)
  {
    var grown, all := log + chunk, history + chunk;
    var next := Appended(log, chunk, cap, marker);
    GrowKeepsSplit(log, history, chunk, marker, a, b);
    if |grown| <= cap {
      assert SplitsAt(next, all, marker, a, b);
    } else if marker <= log {
      var a', b' := CutKeepsSplit(grown, all, marker, a, b, |grown| - cap);
      assert "" + LastN(grown, cap) == grown[|grown| - cap..];
      assert SplitsAt(next, all, marker, a', b');
    } else {
      WholeMarkerIsPrefix(log, history, marker, a, b);
      var keep := cap - |marker|;
      FreshMarkerSplits(grown, all, marker, a, b, keep);
      assert SplitsAt(next, all, marker, 0, |all| - keep);
    }
  }

  lemma AppendKeepsFaithful(log: string, history: string, chunk: string, cap: nat, marker: string)
    requires |marker| < cap
    requires Faithful(log, history, cap, marker)
    ensures Faithful(Appended(log, chunk, cap, marker), history + chunk, cap, marker)
  {
    var a: nat, b: nat :| SplitsAt(log, history, marker, a, b)
                          && (b > 0 ==> |history| - b >= cap - |marker|);
    AppendKeepsTail(log, history, chunk, cap, marker, a, b);
  }

  /** After any sequence of appends the log is within the cap, is the whole history while
      that fits, and otherwise is a tail of the marker followed by a tail of the history
      that is at least `cap - |marker|` characters long. */
  lemma {:induction false} LogIsFaithful(chunks: History<string>, cap: nat, marker: string)
    requires |marker| < cap
    ensures Faithful(LogOf(chunks, cap, marker), Written(chunks), cap, marker)
  {
    match chunks
    case Start =>
      assert SplitsAt("", "", marker, |marker|, 0);
    case Then(before, chunk) =>
      LogIsFaithful(before, cap, marker);
      AppendKeepsFaithful(LogOf(before, cap, marker), Written(before), chunk, cap, marker);
  }

  predicate OccursAt(part: string, text: string, i: nat) {
    i + |part| <= |text| && text[i..i + |part|] == part
  }

  ghost predicate Occurs(part: string, text: string) {
    exists i: nat :: OccursAt(part, text, i)
  }

  /** The marker is meant to tell a truncated log from a short one. It does not always: on a log
      that already opens with the marker, the next truncation cuts into it. As long as the marker's
      own line is not printed again, a truncating append leaves the whole marker in front exactly
      when the log did not open with it before. */
  lemma MarkerAlternates(log: string, chunk: string, cap: nat, marker: string)
    requires IsOneLine(marker) && |marker| < cap
    requires |log + chunk| > cap && |log| <= cap
    requires marker <= log ==> !Occurs(marker[1..], (log + chunk)[|marker|..])
    ensures marker <= Appended(log, chunk, cap, marker) <==> !(marker <= log)
  {
    var grown := log + chunk;
    if marker <= log {
      assert Appended(log, chunk, cap, marker) == grown[|grown| - cap..];
      if marker <= grown[|grown| - cap..] {
        hide Occurs;
        ShiftedMarkerOccurs(marker, grown, |grown| - cap);
      }
    }
  }

  /** A second marker in a text that opens with one: its line occurs behind the first. */
  lemma ShiftedMarkerOccurs(marker: string, text: string, cut: nat)
    requires IsOneLine(marker) && marker <= text && 1 <= cut <= |text| && marker <= text[cut..]
    ensures Occurs(marker[1..], text[|marker|..])
  {
    NoBreakInside(marker);
    forall j | 0 <= j < |marker|
      ensures text[cut + j] == marker[j]
    {
      assert text[cut..][j] == marker[j];
    }
    assert text[cut + 0] == '\n';
    var i := cut + 1 - |marker|;
    var rest, line := text[|marker|..], marker[1..];
    forall j | 0 <= j < |line|
      ensures rest[i + j] == line[j]
    {
      assert rest[i + j] == text[cut + (j + 1)];
    }
    assert rest[i..i + |line|] == line;
    assert OccursAt(line, rest, i);
  }

  /** Over any run that never prints the marker's line itself, every truncating append puts the
      marker in front or cuts into it, in turn. */
  lemma TruncationsAlternate(chunks: History<string>, chunk: string, cap: nat, marker: string)
    requires IsOneLine(marker) && |marker| < cap
    requires |LogOf(chunks, cap, marker) + chunk| > cap
    requires !Occurs(marker[1..], Written(chunks) + chunk)
    ensures marker <= LogOf(Then(chunks, chunk), cap, marker) <==> !(marker <= LogOf(chunks, cap, marker))
  {
    var log, history := LogOf(chunks, cap, marker), Written(chunks);
    LogIsFaithful(chunks, cap, marker);
    var a: nat, b: nat :| SplitsAt(log, history, marker, a, b);
    if marker <= log {
      OpeningMarkerIsWhole(log, history, chunk, marker, a, b);
      if j: nat :| OccursAt(marker[1..], (log + chunk)[|marker|..], j) {
        OccursInWhole(marker[1..], history + chunk, b, j);
      }
    }
    MarkerAlternates(log, chunk, cap, marker);
  }

  lemma OccursInWhole(part: string, text: string, b: nat, j: nat)
    requires b <= |text| && OccursAt(part, text[b..], j)
    ensures Occurs(part, text)
  {
    assert OccursAt(part, text, b + j);
  }

  /** A log that opens with the marker has all of it in front, and only history behind. */
  lemma OpeningMarkerIsWhole(log: string, history: string, chunk: string, marker: string, a: nat, b: nat)
    requires IsOneLine(marker) && SplitsAt(log, history, marker, a, b) && marker <= log
    requires !Occurs(marker[1..], history + chunk)
    ensures (log + chunk)[|marker|..] == (history + chunk)[b..]
  {
    if a == |marker| {
      assert OccursAt(marker[1..], history[b..], 1);
      OccursInWhole(marker[1..], history, b, 1);
      OccursInLonger(marker[1..], history, chunk);
    } else if a == |marker| - 1 {
      assert log[1..] == history[b..];
      assert OccursAt(marker[1..], history[b..], 0);
      OccursInWhole(marker[1..], history, b, 0);
      OccursInLonger(marker[1..], history, chunk);
    } else {
      NoBreakInside(marker);
      assert log[0] == marker[a];
    }
  }

  lemma OccursInLonger(part: string, text: string, more: string)
    requires Occurs(part, text)
    ensures Occurs(part, text + more)
  {
    var i: nat :| OccursAt(part, text, i);
    assert OccursAt(part, text + more, i);
  }

  /** A concrete run of that kind: a flood of one letter, then one more line end. */
  lemma TruncatedLogWithoutItsMarker(cap: nat, marker: string)
    requires IsOneLine(marker) && 2 < |marker| < cap && marker[1] == '['
    ensures var flood := Then(Start, seq(cap + 1, _ => 'a'));
            && |Written(Then(flood, "\n"))| > cap
            && marker <= LogOf(flood, cap, marker)
            && !(marker <= LogOf(Then(flood, "\n"), cap, marker))
  {
    var text := seq(cap + 1, _ => 'a');
    var flood := Then(Start, text);
    assert "" + text == text;
    assert LogOf(flood, cap, marker) == marker + text[|marker| + 1..];
    forall i: nat
      ensures !OccursAt(marker[1..], text + "\n", i)
    {
      assert i < |text + "\n"| ==> (text + "\n")[i] != '[';
      assert marker[1..][0] == '[';
    }
    TruncationsAlternate(flood, "\n", cap, marker);
  }
}
