/** Collecting the output of a sandboxed command: the read loop, the wall-clock timeout and
    the final drain, against a process that writes and exits whenever it likes. */
module SandboxOutput {

  /** What happens around one turn of the read loop: the lines that reach the pipe before the
      process is polled, whether it has exited by then, the clock, the lines that arrive while
      the loop waits, and whether the pipe is reported ready. */
  datatype Turn = Turn(before: seq<string>, exited: bool, now: int, during: seq<string>, ready: bool)

  datatype SandboxResult = SandboxResult(output: string, timedOut: bool, exitCode: int)

  /** `line.rstrip("\n")` */
  function StripNewlines(line: string): (s: string)
    ensures s <= line
  {
    if line != "" && line[|line| - 1] == '\n' then StripNewlines(line[..|line| - 1]) else line
  }

  /** `"\n".join(lines)` over the first `n` of them. */
  function JoinFirst(lines: seq<string>, n: nat): string
    requires n <= |lines|
  {
    if n == 0 then "" else if n == 1 then lines[0] else JoinFirst(lines, n - 1) + "\n" + lines[n - 1]
  }

  /** The pipe: lines the process has written and nobody has read. */
  class Pipe {
    var unread: seq<string>
    ghost var written: seq<string>

    constructor ()
      ensures unread == [] && written == []
    {
      unread, written := [], [];
    }

    /** Nothing in the pipe is lost or reordered: `taken` lines have been read, the rest are here. */
    ghost predicate Holds(taken: nat)
      reads this
    {
      taken <= |written| && unread == written[taken..]
    }

    method Write(lines: seq<string>, ghost taken: nat)
      requires Holds(taken)
      modifies this
      ensures written == old(written) + lines && Holds(taken)
    {
      unread, written := unread + lines, written + lines;
    }

    /** The next line, or the empty string when there is none. */
    method ReadLine(ghost taken: nat) returns (line: string)
      requires Holds(taken)
      modifies this`unread
      ensures taken == |written| ==> line == "" && Holds(taken)
      ensures taken < |written| ==> line == written[taken] && Holds(taken + 1)
    {
      if unread == [] {
        return "";
      }
      line := unread[0];
      unread := unread[1..];
    }
  }

  /** The turn at which the loop ends: the process has exited, or the time is up. */
  predicate EndsLoop(turn: Turn, deadline: int) {
    turn.exited || turn.now >= deadline
  }

  function EndTurn(turns: seq<Turn>, deadline: int, i: nat): (e: nat)
    requires i <= |turns|
    ensures i <= e <= |turns|
    decreases |turns| - i
  {
    if i == |turns| || EndsLoop(turns[i], deadline) then i else EndTurn(turns, deadline, i + 1)
  }

  /** Everything the process writes during the first `i` turns of the loop. */
  function WrittenBy(turns: seq<Turn>, i: nat): seq<string>
    requires i <= |turns|
  {
    if i == 0 then [] else WrittenBy(turns, i - 1) + turns[i - 1].before + turns[i - 1].during
  }

  /** The whole stream of a run: what was written up to the turn the loop ended at, and, when
      the command was killed, what it still got out before the kill. */
  function Stream(turns: seq<Turn>, deadline: int, lastWords: seq<string>): seq<string>
    requires EndTurn(turns, deadline, 0) < |turns|
  {
    var e := EndTurn(turns, deadline, 0);
    WrittenBy(turns, e) + turns[e].before + (if turns[e].exited then [] else lastWords)
  }

  predicate AreLines(lines: seq<string>) {
    forall i :: 0 <= i < |lines| ==> lines[i] != ""
  }

  predicate TurnsWriteLines(turns: seq<Turn>) {
    forall i :: 0 <= i < |turns| ==> AreLines(turns[i].before) && AreLines(turns[i].during)
  }

  /** `text` is the line without the newlines at its end. */
  predicate IsStripped(line: string, text: string) {
    && text <= line
    && (text == "" || text[|text| - 1] != '\n')
    && forall i :: |text| <= i < |line| ==> line[i] == '\n'
  }

  lemma {:induction false} StripIsStripped(line: string)
    ensures IsStripped(line, StripNewlines(line))
  {
    if line != "" && line[|line| - 1] == '\n' {
      StripIsStripped(line[..|line| - 1]);
    }
  }

  /** What is told of a line: the text without the newlines at its end, scrubbed when there is a
      listener and as it is when there is none. */
  ghost predicate TellsLine(told: string, line: string, streamed: bool, scrub: string -> string) {
    exists text :: IsStripped(line, text) && told == if streamed then scrub(text) else text
  }

  lemma CleanTells(line: string, streamed: bool, scrub: string -> string)
    ensures TellsLine(Clean(line, streamed, scrub), line, streamed, scrub)
  {
    StripIsStripped(line);
    assert Clean(line, streamed, scrub) == if streamed then scrub(StripNewlines(line)) else StripNewlines(line);
  }

  /** A line has one such text, so what is told of it is fixed. */
  lemma StrippedIsUnique(line: string, text: string, other: string)
    requires IsStripped(line, text) && IsStripped(line, other)
    ensures text == other
  {
    NoLonger(line, text, other);
    NoLonger(line, other, text);
  }

  lemma NoLonger(line: string, text: string, other: string)
    requires IsStripped(line, text) && IsStripped(line, other)
    ensures |other| <= |text|
  {
    if other != "" {
      assert other[|other| - 1] == line[|other| - 1];
    }
  }

  function Clean(line: string, streamed: bool, scrub: string -> string): string {
    if streamed then scrub(StripNewlines(line)) else StripNewlines(line)
  }

  /** `lines` is the given stream, line by line, cleaned. */
  ghost predicate Collected(lines: seq<string>, stream: seq<string>, streamed: bool, scrub: string -> string) {
    |lines| == |stream| && forall i :: 0 <= i < |lines| ==> lines[i] == Clean(stream[i], streamed, scrub)
  }

  /** What the reader has to show while it reads: the lines taken so far, collected and, with
      a listener, heard; the rest of what has been written is still in the pipe. */
  ghost predicate Reading(
      pipe: Pipe, written: seq<string>, lines: seq<string>, heard: seq<string>, streamed: bool, scrub: string -> string)
    reads pipe
  {
    && pipe.written == written && pipe.Holds(|lines|)
    && Collected(lines, written[..|lines|], streamed, scrub)
    && heard == if streamed then lines else []
  }

  method Receive(pipe: Pipe, more: seq<string>, ghost lines: seq<string>, ghost heard: seq<string>,
                 ghost streamed: bool, ghost scrub: string -> string)
    requires Reading(pipe, pipe.written, lines, heard, streamed, scrub)
    modifies pipe
    ensures Reading(pipe, old(pipe.written) + more, lines, heard, streamed, scrub)
  {
    KeepsTaken(lines, pipe.written, more, streamed, scrub);
    pipe.Write(more, |lines|);
  }

  /** Takes the next line, if there is one: cleaned, kept, and passed on to the listener. */
  method TakeLine(pipe: Pipe, lines: seq<string>, heard: seq<string>, streamed: bool, scrub: string -> string)
    returns (lines': seq<string>, heard': seq<string>)
    requires Reading(pipe, pipe.written, lines, heard, streamed, scrub) && AreLines(pipe.written)
    modifies pipe`unread
    ensures Reading(pipe, old(pipe.written), lines', heard', streamed, scrub)
    ensures |lines'| == |lines| + if |lines| < |old(pipe.written)| then 1 else 0
  {
    lines', heard' := lines, heard;
    TakeOne(lines, pipe.written, streamed, scrub);
    var line := pipe.ReadLine(|lines|);
    if line != "" {
      var clean := Clean(line, streamed, scrub);
      lines' := lines + [clean];
      if streamed {
        heard' := heard + [clean];
      }
    }
  }

  /** The read loop: it ends the instant the process has exited or the time is up. */
  method ReadLoop(pipe: Pipe, turns: seq<Turn>, deadline: int, streamed: bool, scrub: string -> string)
    returns (timedOut: bool, lines: seq<string>, heard: seq<string>)
    requires pipe.unread == [] && pipe.written == []
    requires TurnsWriteLines(turns) && EndTurn(turns, deadline, 0) < |turns|
    modifies pipe
    ensures var e := EndTurn(turns, deadline, 0);
            && Reading(pipe, WrittenBy(turns, e) + turns[e].before, lines, heard, streamed, scrub)
            && (timedOut <==> !turns[e].exited)
  {
    lines, heard := [], [];
    var i := 0;
    assert Reading(pipe, WrittenBy(turns, 0), lines, heard, streamed, scrub);
    hide Reading;
    while true
      invariant 0 <= i < |turns| && EndTurn(turns, deadline, i) == EndTurn(turns, deadline, 0) < |turns|
      invariant Reading(pipe, WrittenBy(turns, i), lines, heard, streamed, scrub)
      decreases |turns| - i
    {
      ReadingWritten(pipe, WrittenBy(turns, i), lines, heard, streamed, scrub);
      Receive(pipe, turns[i].before, lines, heard, streamed, scrub);
      if turns[i].exited {
        return false, lines, heard;
      }
      if turns[i].now >= deadline {
        return true, lines, heard;
      }
      ReadingWritten(pipe, WrittenBy(turns, i) + turns[i].before, lines, heard, streamed, scrub);
      Receive(pipe, turns[i].during, lines, heard, streamed, scrub);
      ReadingWritten(pipe, WrittenBy(turns, i + 1), lines, heard, streamed, scrub);
      if turns[i].ready {
        LinesSoFar(turns, i + 1);
        lines, heard := TakeLine(pipe, lines, heard, streamed, scrub);
      }
      i := i + 1;
    }
  }

  lemma ReadingWritten(
      pipe: Pipe, written: seq<string>, lines: seq<string>, heard: seq<string>, streamed: bool, scrub: string -> string)
    requires Reading(pipe, written, lines, heard, streamed, scrub)
    ensures pipe.written == written && |lines| <= |written|
    ensures |lines| == |written| ==> Collected(lines, written, streamed, scrub) && heard == if streamed then lines else []
  {
  }

  /** The drain that follows the loop on every path. */
  method Drain(pipe: Pipe, before: seq<string>, told: seq<string>, streamed: bool, scrub: string -> string)
    returns (lines: seq<string>, heard: seq<string>)
    requires Reading(pipe, pipe.written, before, told, streamed, scrub) && AreLines(pipe.written)
    modifies pipe`unread
    ensures Collected(lines, old(pipe.written), streamed, scrub)
    ensures heard == if streamed then lines else []
  {
    lines, heard := before, told;
    ghost var written := pipe.written;
    ReadingWritten(pipe, written, lines, heard, streamed, scrub);
    while pipe.unread != []
      invariant Reading(pipe, written, lines, heard, streamed, scrub)
      decreases |written| - |lines|
    {
      hide Reading;
      PipeNotEmpty(pipe, written, lines, heard, streamed, scrub);
      lines, heard := TakeLine(pipe, lines, heard, streamed, scrub);
      ReadingWritten(pipe, written, lines, heard, streamed, scrub);
    }
    ReadingWritten(pipe, written, lines, heard, streamed, scrub);
  }

  lemma PipeNotEmpty(
      pipe: Pipe, written: seq<string>, lines: seq<string>, heard: seq<string>, streamed: bool, scrub: string -> string)
    requires Reading(pipe, written, lines, heard, streamed, scrub) && pipe.unread != []
    ensures pipe.written == written && |lines| < |written|
  {
  }

  /** For every schedule of writes, select results and exit, the output is the whole stream in
      order, each line cleaned once; the listener hears each line exactly once, as collected;
      and on a timeout the notice follows what was written before the kill. */
  method RunSandbox(
      pipe: Pipe, turns: seq<Turn>, deadline: int, lastWords: seq<string>, returnCode: int,
      streamed: bool, scrub: string -> string, notice: string)
    returns (result: SandboxResult, lines: seq<string>, heard: seq<string>)
    requires pipe.unread == [] && pipe.written == []
    requires TurnsWriteLines(turns) && AreLines(lastWords)
    requires EndTurn(turns, deadline, 0) < |turns|
    modifies pipe
    ensures Collected(lines, Stream(turns, deadline, lastWords), streamed, scrub)
    ensures |lines| == |Stream(turns, deadline, lastWords)|
    ensures forall i :: 0 <= i < |lines| ==> TellsLine(lines[i], Stream(turns, deadline, lastWords)[i], streamed, scrub)
    ensures heard == if streamed then lines else []
    ensures result.timedOut <==> !turns[EndTurn(turns, deadline, 0)].exited
    ensures result.output == JoinFirst(lines, |lines|) + if result.timedOut then "\n" + notice else ""
    ensures result.exitCode == if result.timedOut then -1 else returnCode
  {
    hide Reading, Collected;
    ghost var e := EndTurn(turns, deadline, 0);
    ghost var before := WrittenBy(turns, e) + turns[e].before;
    var timedOut;
    timedOut, lines, heard := ReadLoop(pipe, turns, deadline, streamed, scrub);
    ReadingWritten(pipe, before, lines, heard, streamed, scrub);
    LinesSoFar(turns, e);
    if timedOut {
      Receive(pipe, lastWords, lines, heard, streamed, scrub);
      ReadingWritten(pipe, before + lastWords, lines, heard, streamed, scrub);
    } else {
      assert before + [] == before;
    }
    lines, heard := Drain(pipe, lines, heard, streamed, scrub);
    CollectedLines(lines, Stream(turns, deadline, lastWords), streamed, scrub);
    var output := JoinFirst(lines, |lines|);
    output := output + if timedOut then "\n" + notice else "";
    result := SandboxResult(output, timedOut, if timedOut then -1 else returnCode);
  }

  lemma CollectedLines(lines: seq<string>, stream: seq<string>, streamed: bool, scrub: string -> string)
    requires Collected(lines, stream, streamed, scrub)
    ensures |lines| == |stream|
    ensures forall i :: 0 <= i < |lines| ==> TellsLine(lines[i], stream[i], streamed, scrub)
  {
    forall i | 0 <= i < |lines|
      ensures TellsLine(lines[i], stream[i], streamed, scrub)
    {
      CleanTells(stream[i], streamed, scrub);
    }
  }

  lemma KeepsTaken(lines: seq<string>, written: seq<string>, more: seq<string>, streamed: bool, scrub: string -> string)
    requires |lines| <= |written| && Collected(lines, written[..|lines|], streamed, scrub)
    ensures Collected(lines, (written + more)[..|lines|], streamed, scrub)
  {
  }

  lemma TakeOne(lines: seq<string>, written: seq<string>, streamed: bool, scrub: string -> string)
    requires |lines| <= |written| && Collected(lines, written[..|lines|], streamed, scrub)
    ensures |lines| < |written| ==>
              Collected(lines + [Clean(written[|lines|], streamed, scrub)], written[..|lines| + 1], streamed, scrub)
  {
  }

  lemma {:induction false} LinesSoFar(turns: seq<Turn>, i: nat)
    requires TurnsWriteLines(turns) && i <= |turns|
    ensures AreLines(WrittenBy(turns, i))
  {
    if i > 0 {
      LinesSoFar(turns, i - 1);
    }
  }

  // ----- the output is the stream -----

  /** A line as a text stream is read: no line end except at the very end. */
  predicate IsLine(line: string) {
    line != "" && forall i :: 0 <= i < |line| - 1 ==> line[i] != '\n'
  }

  predicate Complete(line: string) {
    line != "" && line[|line| - 1] == '\n'
  }

  function Concat(stream: seq<string>, n: nat): string
    requires n <= |stream|
  {
    if n == 0 then "" else Concat(stream, n - 1) + stream[n - 1]
  }

  lemma StripOfLine(line: string)
    requires IsLine(line)
    ensures line == StripNewlines(line) + if Complete(line) then "\n" else ""
  {
    assert StripNewlines(line) == if Complete(line) then line[..|line| - 1] else line;
  }

  /** One more line behind a joined text. */
  lemma LineJoins(before: string, clean: string, end: string)
    ensures before + "\n" + (clean + end) == before + "\n" + clean + end
  {
  }

  /** The joined text, closed by one more line end, is the lines with a line end behind each. */
  lemma {:induction false} JoinEndsEachLine(lines: seq<string>, ended: seq<string>, n: nat)
    requires 0 < n <= |lines| == |ended| && forall i :: 0 <= i < |lines| ==> ended[i] == lines[i] + "\n"
    ensures JoinFirst(lines, n) + "\n" == Concat(ended, n)
  {
    if n == 1 {
      assert Concat(ended, 0) == "" && "" + ended[0] == ended[0];
    } else {
      JoinEndsEachLine(lines, ended, n - 1);
      LineJoins(JoinFirst(lines, n - 1), lines[n - 1], "\n");
    }
  }

  /** Without a listener to scrub for, the output is the text the process wrote, up to one
      final line end: nothing is dropped, doubled, or moved. */
  lemma {:induction false} OutputIsStream(stream: seq<string>, lines: seq<string>, n: nat, scrub: string -> string)
    requires Collected(lines, stream, false, scrub) && n <= |stream|
    requires forall i :: 0 <= i < |stream| ==> IsLine(stream[i])
    requires forall i :: 0 <= i < |stream| - 1 ==> Complete(stream[i])
    ensures n > 0 && Complete(stream[n - 1]) ==> Concat(stream, n) == JoinFirst(lines, n) + "\n"
    ensures n == 0 || !Complete(stream[n - 1]) ==> Concat(stream, n) == JoinFirst(lines, n)
  {
    hide IsLine, Complete, StripNewlines;
    if n > 0 {
      OutputIsStream(stream, lines, n - 1, scrub);
      var last, clean := stream[n - 1], lines[n - 1];
      var end := if Complete(last) then "\n" else "";
      StripOfLine(last);
      assert last == clean + end;
      assert clean + "" == clean;
      if n == 1 {
        assert Concat(stream, 0) == "" && "" + last == last;
      } else {
        var before := JoinFirst(lines, n - 1);
        assert Complete(stream[n - 2]);
        LineJoins(before, clean, end);
        assert before + "\n" + clean + "" == before + "\n" + clean;
      }
    }
  }
}
