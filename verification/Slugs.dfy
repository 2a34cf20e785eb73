/** What the slug of a name is: its words in lower case, joined by single dashes. */
module Slugs {
  import opened Text

  /** A text as words with gaps between them. */
  datatype Words = Last(word: string) | More(word: string, gap: string, rest: Words)

  function TextOf(w: Words): string {
    match w
    case Last(word) => word
    case More(word, gap, rest) => word + gap + TextOf(rest)
  }

  function Joined(w: Words): string {
    match w
    case Last(word) => word
    case More(word, _, rest) => word + "-" + Joined(rest)
  }

  /** Each word is of the given characters, and each gap of others; neither is empty. */
  predicate AreWords(w: Words, chars: char -> bool) {
    && w.word != "" && (forall i :: 0 <= i < |w.word| ==> chars(w.word[i]))
    && (w.More? ==> w.gap != "" && (forall i :: 0 <= i < |w.gap| ==> !chars(w.gap[i])) && AreWords(w.rest, chars))
  }

  function LowerWords(w: Words): Words {
    match w
    case Last(word) => Last(Lower(word))
    case More(word, gap, rest) => More(Lower(word), Lower(gap), LowerWords(rest))
  }

  // ----- runs -----

  lemma LowerOfBoth(a: string, b: string)
    ensures Lower(a + b) == Lower(a) + Lower(b)
  {
  }

  lemma {:induction false} LowerOfWords(w: Words)
    ensures Lower(TextOf(w)) == TextOf(LowerWords(w))
    ensures Lower(Joined(w)) == Joined(LowerWords(w))
  {
    hide Lower;
    match w
    case Last(_) =>
    case More(word, gap, rest) =>
      LowerOfWords(rest);
      LowerOfBoth(word, gap);
      LowerOfBoth(word + gap, TextOf(rest));
      LowerOfBoth(word, "-");
      LowerOfBoth(word + "-", Joined(rest));
      LowerOfDash();
  }

  lemma LowerOfDash()
    ensures Lower("-") == "-"
  {
  }

  lemma {:induction false} FirstDropped(a: string, b: string, drop: char -> bool)
    requires b == "" || !drop(b[0]) || StripLeft(a, drop) != ""
    ensures StripLeft(a + b, drop) == StripLeft(a, drop) + b
    decreases |a|
  {
    if a == "" {
      assert a + b == b;
    } else {
      assert (a + b)[1..] == a[1..] + b;
      if drop(a[0]) {
        FirstDropped(a[1..], b, drop);
      }
    }
  }

  /** Runs on the two sides of a character that is kept do not meet. */
  lemma {:induction false} DashRunsSplit(a: string, b: string, ok: char -> bool)
    requires a == "" || b == "" || ok(b[0]) || ok(a[|a| - 1])
    ensures DashRuns(a + b, ok) == DashRuns(a, ok) + DashRuns(b, ok)
    decreases |a|
  {
    hide DashRuns, StripLeft;
    if a == "" {
      DashRunsOfNone(ok);
      assert a + b == b;
    } else if ok(a[0]) {
      DashRunsSplit(a[1..], b, ok);
      KeptFirst(a[0], a[1..], b, ok);
      assert a == [a[0]] + a[1..];
    } else {
      var left := StripLeft(a, Other(ok));
      if left == "" {
        LastIsDropped(a, Other(ok));
      }
      DashRunsOfOther(a, ok);
      DashRunsSplit(left, b, ok);
      FirstDropped(a, b, Other(ok));
      OtherFirst(a, b, ok);
    }
  }

  lemma KeptFirst(c: char, rest: string, b: string, ok: char -> bool)
    requires ok(c) && DashRuns(rest + b, ok) == DashRuns(rest, ok) + DashRuns(b, ok)
    ensures DashRuns([c] + rest + b, ok) == DashRuns([c] + rest, ok) + DashRuns(b, ok)
  {
    hide DashRuns;
    assert [c] + rest + b == [c] + (rest + b);
    DashRunsOfKept(c, rest, ok);
    DashRunsOfKept(c, rest + b, ok);
  }

  lemma OtherFirst(a: string, b: string, ok: char -> bool)
    requires a != "" && !ok(a[0])
    requires StripLeft(a + b, Other(ok)) == StripLeft(a, Other(ok)) + b
    requires DashRuns(StripLeft(a, Other(ok)) + b, ok) == DashRuns(StripLeft(a, Other(ok)), ok) + DashRuns(b, ok)
    ensures DashRuns(a + b, ok) == DashRuns(a, ok) + DashRuns(b, ok)
  {
    hide DashRuns, StripLeft;
    var left, both := StripLeft(a, Other(ok)), StripLeft(a + b, Other(ok));
    DashRunsOfOther(a, ok);
    assert !ok((a + b)[0]);
    DashRunsOfOther(a + b, ok);
    OneDash(DashRuns(left, ok), DashRuns(b, ok));
    assert DashRuns(both, ok) == DashRuns(left, ok) + DashRuns(b, ok);
  }

  lemma OneDash(a: string, b: string)
    ensures "-" + (a + b) == ("-" + a) + b
  {
  }

  lemma DashRunsOfNone(ok: char -> bool)
    ensures DashRuns("", ok) == ""
  {
  }

  lemma DashRunsOfKept(c: char, rest: string, ok: char -> bool)
    requires ok(c)
    ensures DashRuns([c] + rest, ok) == [c] + DashRuns(rest, ok)
  {
    assert ([c] + rest)[1..] == rest;
  }

  lemma DashRunsOfOther(s: string, ok: char -> bool)
    requires s != "" && !ok(s[0])
    ensures DashRuns(s, ok) == "-" + DashRuns(StripLeft(s, Other(ok)), ok)
    ensures |StripLeft(s, Other(ok))| < |s|
  {
  }

  lemma LastIsDropped(s: string, drop: char -> bool)
    requires s != "" && StripLeft(s, drop) == ""
    ensures drop(s[|s| - 1])
  {
  }

  lemma {:induction false} DashRunsOfWord(word: string, ok: char -> bool)
    requires forall i :: 0 <= i < |word| ==> ok(word[i])
    ensures DashRuns(word, ok) == word
  {
    if word != "" {
      DashRunsOfWord(word[1..], ok);
    }
  }

  lemma DashRunsOfGap(gap: string, ok: char -> bool)
    requires gap != "" && forall i :: 0 <= i < |gap| ==> !ok(gap[i])
    ensures DashRuns(gap, ok) == "-"
  {
    AllDropped(gap, Other(ok));
    DashRunsOfOther(gap, ok);
  }

  lemma {:induction false} AllDropped(s: string, drop: char -> bool)
    requires forall i :: 0 <= i < |s| ==> drop(s[i])
    ensures StripLeft(s, drop) == ""
  {
    if s != "" {
      AllDropped(s[1..], drop);
    }
  }

  lemma {:induction false} DashRunsOfWords(w: Words, ok: char -> bool)
    requires AreWords(w, ok)
    ensures DashRuns(TextOf(w), ok) == Joined(w)
  {
    DashRunsOfWord(w.word, ok);
    if w.More? {
      DashRunsOfWords(w.rest, ok);
      DashRunsOfGap(w.gap, ok);
      EndsOfWords(w.rest, ok);
      DashRunsSplit(w.word, w.gap, ok);
      DashRunsSplit(w.word + w.gap, TextOf(w.rest), ok);
    }
  }

  lemma {:induction false} EndsOfWords(w: Words, ok: char -> bool)
    requires AreWords(w, ok)
    ensures TextOf(w) != "" && ok(TextOf(w)[0]) && ok(TextOf(w)[|TextOf(w)| - 1])
    ensures Joined(w) != "" && Joined(w)[0] == TextOf(w)[0]
    ensures Joined(w)[|Joined(w)| - 1] == TextOf(w)[|TextOf(w)| - 1]
  {
    if w.More? {
      EndsOfWords(w.rest, ok);
    }
  }

  lemma {:induction false} FillerIsDashes(s: string, ok: char -> bool)
    requires forall i :: 0 <= i < |s| ==> s[i] == '-' || !ok(s[i])
    ensures forall i :: 0 <= i < |DashRuns(s, ok)| ==> DashRuns(s, ok)[i] == '-'
    decreases |s|
  {
    hide DashRuns, StripLeft;
    if s == "" {
      DashRunsOfNone(ok);
    } else if ok(s[0]) {
      FillerIsDashes(s[1..], ok);
      DashRunsOfKept(s[0], s[1..], ok);
      assert s == [s[0]] + s[1..];
    } else {
      DashRunsOfOther(s, ok);
      FillerIsDashes(StripLeft(s, Other(ok)), ok);
    }
  }

  // ----- slugs -----

  /** Characters around the words of a name that its slug does not show. */
  predicate IsFiller(s: string, ok: char -> bool) {
    forall i :: 0 <= i < |s| ==> s[i] == '-' || !ok(LowerChar(s[i]))
  }

  lemma DashesAround(front: string, core: string, back: string)
    requires forall i :: 0 <= i < |front| ==> front[i] == '-'
    requires forall i :: 0 <= i < |back| ==> back[i] == '-'
    requires core != "" && core[0] != '-' && core[|core| - 1] != '-'
    ensures Strip(front + core + back, IsDash) == core
  {
    StripOfCore(front + core + back, IsDash, core, |front|);
  }

  /** Without the blanks at its ends, a name still has its words. */
  lemma BlanksAround(front: string, text: string, back: string) returns (f: string, b: string)
    requires text != "" && !IsSpace(text[0]) && !IsSpace(text[|text| - 1])
    ensures Strip(front + text + back, IsSpace) == f + text + b
    ensures |f| <= |front| && f == front[|front| - |f|..] && b <= back
  {
    hide Strip;
    var s := front + text + back;
    StripIsCore(s, IsSpace);
    var core := Strip(s, IsSpace);
    var n: nat :| IsCore(s, IsSpace, core, n);
    var k := |front| + |text|;
    assert s[|front|] == text[0] && s[k - 1] == text[|text| - 1];
    CoreAround(s, IsSpace, core, n, |front|, k);
    f, b := s[n..|front|], s[k..n + |core|];
    assert f == front[n..] && b == back[..n + |core| - k];
    assert s[|front|..k] == text;
  }

  lemma CoreAround(s: string, drop: char -> bool, core: string, n: nat, i: nat, k: nat)
    requires IsCore(s, drop, core, n) && i < k <= |s| && !drop(s[i]) && !drop(s[k - 1])
    ensures n <= i && k <= n + |core| && core == s[n..i] + s[i..k] + s[k..n + |core|]
  {
  }

  lemma SlugOfLowered(f: string, w: Words, b: string, ok: char -> bool)
    requires AreWords(w, ok) && TextOf(w)[0] != '-' && TextOf(w)[|TextOf(w)| - 1] != '-'
    requires forall i :: 0 <= i < |f| ==> f[i] == '-' || !ok(f[i])
    requires forall i :: 0 <= i < |b| ==> b[i] == '-' || !ok(b[i])
    ensures Strip(DashRuns(f + TextOf(w) + b, ok), IsDash) == Joined(w)
  {
    hide DashRuns, TextOf, Joined, Strip, AreWords;
    EndsOfWords(w, ok);
    DashRunsSplit(f, TextOf(w), ok);
    DashRunsSplit(f + TextOf(w), b, ok);
    DashRunsOfWords(w, ok);
    FillerIsDashes(f, ok);
    FillerIsDashes(b, ok);
    DashesAround(DashRuns(f, ok), Joined(w), DashRuns(b, ok));
  }

  /** Words of `raw` characters become, in lower case, words of the allowed ones. */
  lemma {:induction false} LowerKeepsWords(w: Words, raw: char -> bool, ok: char -> bool)
    requires forall c :: raw(c) <==> ok(LowerChar(c))
    requires AreWords(w, raw)
    ensures AreWords(LowerWords(w), ok)
  {
    if w.More? {
      LowerKeepsWords(w.rest, raw, ok);
    }
  }

  /** The slug of a name is its words in lower case, joined by single dashes: whatever stands
      between two words is one dash, and what stands around them is not there. */
  lemma SlugOfWords(front: string, w: Words, back: string, ok: char -> bool)
    requires forall c :: IsSpace(c) ==> !ok(c)
    requires AreWords(LowerWords(w), ok) && IsFiller(front, ok) && IsFiller(back, ok)
    requires TextOf(w)[..1] != "-" && TextOf(w)[|TextOf(w)| - 1..] != "-"
    ensures Slug(front + TextOf(w) + back, ok) == Lower(Joined(w))
  {
    hide DashRuns, TextOf, Joined, Strip, AreWords, LowerWords;
    var text := TextOf(w);
    LowerOfWords(w);
    EndsOfWords(LowerWords(w), ok);
    assert Lower(text)[0] == LowerChar(text[0]) && Lower(text)[|text| - 1] == LowerChar(text[|text| - 1]);
    var f, b := BlanksAround(front, text, back);
    LowerOfBoth(f, text);
    LowerOfBoth(f + text, b);
    SlugOfLowered(Lower(f), LowerWords(w), Lower(b), ok);
  }

  /** A name without words has no slug. */
  lemma SlugOfFiller(name: string, ok: char -> bool)
    requires IsFiller(name, ok)
    ensures Slug(name, ok) == ""
  {
    hide Strip, DashRuns;
    StripIsCore(name, IsSpace);
    var core := Strip(name, IsSpace);
    var n: nat :| IsCore(name, IsSpace, core, n);
    assert forall i :: 0 <= i < |core| ==> core[i] == name[n + i];
    FillerIsDashes(Lower(core), ok);
    StripOfCore(DashRuns(Lower(core), ok), IsDash, "", 0);
  }
}
