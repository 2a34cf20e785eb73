/** The output buffer of a console script: bounded, with a running offset that clients poll by. */
module ScriptBuffer {
  import opened Wrappers

  const MAX_SCRIPT_LINES: nat := 4000

  function Max(a: int, b: int): int {
    if a < b then b else a
  }

  /** The position of the oldest of `printed` lines that is still held. */
  function Base(printed: nat): nat {
    if printed > 4000 then printed - 4000 else 0
  }

  class ScriptJob {
    var lines: seq<string>
    var offsetBase: nat
    ghost var history: seq<string>

    constructor ()
      ensures Valid() && history == []
    {
      lines, offsetBase, history := [], 0, [];
    }

    /** The buffer is the last 4000 lines of everything printed, and the offset counts the rest. */
    ghost predicate Valid()
      reads this
    {
      && offsetBase == Base(|history|)
      && lines == history[offsetBase..]
    }

    method Append(line: string)
      requires Valid()
      modifies this
      ensures Valid() && history == old(history) + [line]
    {
      lines := lines + [line];
      if |lines| > MAX_SCRIPT_LINES {
        lines := lines[|lines| - MAX_SCRIPT_LINES..];
        offsetBase := offsetBase + 1;
      }
      history := history + [line];
    }

    /** The lines from `offset` on that are still there, and the offset to ask with next. */
    method Output(offset: int) returns (unread: seq<string>, next: nat)
      requires Valid()
      ensures next == |history|
      ensures var from := Max(offset, Base(|history|));
              unread == if from <= |history| then history[from..] else []
    {
      var visible := if offset < offsetBase then offsetBase else offset;
      var from := visible - offsetBase;
      unread := if from <= |lines| then lines[from..] else [];
      next := offsetBase + |lines|;
    }
  }

  // ----- a client that polls with the offsets it is given -----

  datatype Act = Print(line: string) | Poll

  /** How many lines have been printed, the client's offset, and the positions it has received. */
  datatype Session = Session(printed: nat, offset: nat, received: seq<nat>)

  function Positions(from: nat, to: nat): (s: seq<nat>)
    requires from <= to
    ensures |s| == to - from && forall i :: 0 <= i < |s| ==> s[i] == from + i
  {
    seq(to - from, i requires 0 <= i < to - from => from + i)
  }

  function Follow(acts: History<Act>): (s: Session)
    ensures s.offset <= s.printed
  {
    match acts
    case Start => Session(0, 0, [])
    case Then(before, Print(_)) =>
      var s := Follow(before);
      s.(printed := s.printed + 1)
    case Then(before, Poll) =>
      var s := Follow(before);
      var from := Max(s.offset, Base(s.printed));
      Session(s.printed, s.printed, s.received + Positions(from, s.printed))
  }

  /** At every poll, at most 4000 lines had been printed since the one before. */
  predicate KeepsUp(acts: History<Act>) {
    match acts
    case Start => true
    case Then(before, Print(_)) => KeepsUp(before)
    case Then(before, Poll) => KeepsUp(before) && Follow(before).printed - Follow(before).offset <= 4000
  }

  ghost predicate InOrder(received: seq<nat>, offset: nat) {
    && (forall i :: 0 <= i < |received| ==> received[i] < offset)
    && (forall i, j :: 0 <= i < j < |received| ==> received[i] < received[j])
  }

  lemma InOrderExtends(received: seq<nat>, offset: nat, from: nat, to: nat)
    requires InOrder(received, offset) && offset <= from <= to
    ensures InOrder(received + Positions(from, to), to)
  {
  }

  /** Polling with the returned offsets delivers each line at most once and in order, and
      never one that is still to be asked for. */
  lemma {:induction false} ReceivedOnceInOrder(acts: History<Act>)
    ensures InOrder(Follow(acts).received, Follow(acts).offset)
  {
    match acts
    case Start =>
    case Then(before, act) =>
      ReceivedOnceInOrder(before);
      var s := Follow(before);
      if act.Poll? {
        InOrderExtends(s.received, s.offset, Max(s.offset, Base(s.printed)), s.printed);
      }
  }

  /** It delivers all of them, up to the last poll, exactly when the client never fell more than
      4000 lines behind. */
  lemma {:induction false} ReceivedAllIffKeptUp(acts: History<Act>)
    ensures var s := Follow(acts);
            && |s.received| <= s.offset
            && (|s.received| == s.offset <==> KeepsUp(acts))
            && (KeepsUp(acts) ==> s.received == Positions(0, s.offset))
  {
    match acts
    case Start =>
    case Then(before, Print(_)) => ReceivedAllIffKeptUp(before);
    case Then(before, Poll) =>
      ReceivedAllIffKeptUp(before);
      var s := Follow(before);
      var from := Max(s.offset, Base(s.printed));
      var kept := KeepsUp(before);
      assert KeepsUp(acts) <==> kept && s.printed - s.offset <= MAX_SCRIPT_LINES;
      assert from == s.offset <==> s.printed - s.offset <= MAX_SCRIPT_LINES;
      assert Follow(acts).received == s.received + Positions(from, s.printed);
      if kept && from == s.offset {
        assert Positions(0, s.printed) == Positions(0, s.offset) + Positions(s.offset, s.printed);
      } else {
        assert |s.received| < s.offset || from > s.offset;
      }
  }

  // ----- the same client against the buffer itself -----

  /** `lines` are the lines of the history at the given positions. */
  ghost predicate AreLinesAt(lines: seq<string>, history: seq<string>, positions: seq<nat>) {
    && |lines| == |positions|
    && forall i :: 0 <= i < |lines| ==> positions[i] < |history| && lines[i] == history[positions[i]]
  }

  lemma PrintKeepsLines(lines: seq<string>, history: seq<string>, positions: seq<nat>, line: string)
    requires AreLinesAt(lines, history, positions)
    ensures AreLinesAt(lines, history + [line], positions)
  {
  }

  lemma PollAddsLines(lines: seq<string>, history: seq<string>, positions: seq<nat>, from: nat)
    requires AreLinesAt(lines, history, positions) && from <= |history|
    ensures AreLinesAt(lines + history[from..], history, positions + Positions(from, |history|))
  {
  }

  /** Plays a session on a buffer: what the client is given are the lines at the positions the session
      receives. */
  method Replay(acts: History<Act>) returns (job: ScriptJob, offset: nat, received: seq<string>)
    ensures fresh(job) && job.Valid()
    ensures |job.history| == Follow(acts).printed && offset == Follow(acts).offset
    ensures AreLinesAt(received, job.history, Follow(acts).received)
    decreases acts
  {
    hide AreLinesAt;
    match acts
    case Start =>
      job := new ScriptJob();
      offset, received := 0, [];
      NothingReceived();
    case Then(before, Print(line)) =>
      job, offset, received := Replay(before);
      PrintKeepsLines(received, job.history, Follow(before).received, line);
      job.Append(line);
    case Then(before, Poll) =>
      job, offset, received := Replay(before);
      PollAddsLines(received, job.history, Follow(before).received, Max(offset, Base(|job.history|)));
      var unread;
      unread, offset := job.Output(offset);
      received := received + unread;
  }

  lemma NothingReceived()
    ensures AreLinesAt([], [], [])
  {
  }

  /** So the client of a session is given as many lines as had been printed by its last poll exactly
      when it never fell more than 4000 behind, and then they are those lines, in order. */
  lemma ReplayedIffKeptUp(acts: History<Act>, history: seq<string>, received: seq<string>)
    requires |history| == Follow(acts).printed && AreLinesAt(received, history, Follow(acts).received)
    ensures |received| == Follow(acts).offset <==> KeepsUp(acts)
    ensures KeepsUp(acts) ==> received == history[..Follow(acts).offset]
  {
    ReceivedAllIffKeptUp(acts);
  }
}
