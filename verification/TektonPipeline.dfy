/** The Tekton pipeline of one deploy: the names of its tasks, the chain they form, and
    where each lands in the numbering of the deploy job. */
module TektonPipeline {
  import opened Text
  import opened Slugs

  const NAME_CAP: nat := 57
  const STAGE: string := "stage-"

  predicate IsNameChar(c: char) {
    IsDigit(c) || 'a' <= c <= 'z' || c == '-'
  }

  function StageSlug(stageName: string): (slug: string)
    ensures forall i :: 0 <= i < |slug| ==> IsNameChar(slug[i])
  {
    Slug(stageName, IsNameChar)
  }

  /** A head and the slug, joined by a dash, cut to 57 characters and stripped of dashes at the end;
      the head alone should nothing be left. */
  function Capped(head: string, slug: string): string {
    var full := head + "-" + slug;
    var cut := StripRight(if |full| > NAME_CAP then full[..NAME_CAP] else full, IsDash);
    if cut == "" then head else cut
  }

  /** The head is "stage-" and the number of the stage. */
  function TaskNameFrom(index: nat, slug: string): string {
    Capped(STAGE + Decimal(index), slug)
  }

  function StageTaskName(index: nat, stageName: string): string {
    TaskNameFrom(index, StageSlug(stageName))
  }

  /** A letter, a digit, or a dash. */
  predicate IsWordChar(c: char) {
    'a' <= c <= 'z' || 'A' <= c <= 'Z' || '0' <= c <= '9' || c == '-'
  }

  /** The slug of a stage's name: its words in lower case with one dash between them, whatever
      stands between and around the words; a name without words has none. */
  lemma SlugOfStage(front: string, w: Words, back: string)
    requires AreWords(w, IsWordChar)
    requires forall i :: 0 <= i < |front| ==> front[i] == '-' || !IsWordChar(front[i])
    requires forall i :: 0 <= i < |back| ==> back[i] == '-' || !IsWordChar(back[i])
    requires TextOf(w)[..1] != "-" && TextOf(w)[|TextOf(w)| - 1..] != "-"
    ensures StageSlug(front + TextOf(w) + back) == Lower(Joined(w))
    ensures StageSlug(front) == "" && StageSlug(back) == ""
  {
    hide Slug, AreWords, TextOf, Joined;
    LowerKeepsWords(w, IsWordChar, IsNameChar);
    SlugOfWords(front, w, back, IsNameChar);
    SlugOfFiller(front, IsNameChar);
    SlugOfFiller(back, IsNameChar);
  }

  /** A task's name is the longest prefix of "stage", number and slug that has at most 57
      characters and no dash at its end: all of it when it fits, without the last dash when
      there is no slug. */
  lemma TaskNameIs(index: nat, slug: string)
    requires slug != "" ==> slug[|slug| - 1] != '-'
    requires |Decimal(index)| <= MAX_DIGITS
    ensures var name, head := TaskNameFrom(index, slug), "stage-" + Decimal(index);
            var full := head + "-" + slug;
            && name <= full && |name| <= 57 && name != "" && name[|name| - 1] != '-'
            && (forall i :: |name| <= i < |full| && i < 57 ==> full[i] == '-')
            && (slug != "" && |full| <= 57 ==> name == full)
            && (slug == "" ==> name == head)
  {
    hide Decimal, Capped;
    CappedIs(STAGE + Decimal(index), slug);
  }

  lemma CappedIs(head: string, slug: string)
    requires 1 <= |head| <= 57 && head[|head| - 1] != '-'
    requires slug != "" ==> slug[|slug| - 1] != '-'
    ensures var name, full := Capped(head, slug), head + "-" + slug;
            && name <= full && head <= name && |name| <= 57 && name[|name| - 1] != '-'
            && (forall i :: |name| <= i < |full| && i < 57 ==> full[i] == '-')
            && (slug != "" && |full| <= 57 ==> name == full)
            && (slug == "" ==> name == head)
  {
    hide StripRight;
    var full := head + "-" + slug;
    var text := if |full| > NAME_CAP then full[..NAME_CAP] else full;
    assert head <= text && text <= full;
    CutIs(full, head, text, StripRight(text, IsDash));
    assert slug == "" ==> full[|full| - 1] == '-';
    assert slug != "" ==> full[|full| - 1] == slug[|slug| - 1];
  }

  lemma CutIs(full: string, head: string, text: string, name: string)
    requires head <= text <= full && |text| == (if |full| <= 57 then |full| else 57) && name == StripRight(text, IsDash)
    requires head != "" && head[|head| - 1] != '-'
    ensures name <= full && head <= name && |name| <= 57 && name[|name| - 1] != '-'
    ensures forall i :: |name| <= i < |full| && i < 57 ==> full[i] == '-'
    ensures |full| <= 57 && full[|full| - 1] != '-' ==> name == full
    ensures |full| == |head| + 1 && full[|head|] == '-' && |full| <= 57 ==> name == head
  {
    hide StripRight;
    StripRightKeepsPrefix(text, head);
    forall i | |name| <= i < |full| && i < 57
      ensures full[i] == '-'
    {
      assert full[i] == text[i] && IsDash(text[i]);
    }
    if |name| < |full| <= 57 {
      assert IsDash(text[|full| - 1]);
    }
  }

  datatype Task = Task(name: string, runAfter: seq<string>)

  const CLONE := "clone"
  const SECRET_SCAN := "secret-scan"
  const DEPENDENCY_SCAN := "dependency-scan"
  const BUILD := "build"
  const SCAN := "scan"

  // ----- what the tasks are, as a specification -----

  function TaskName(stages: seq<string>, p: nat): string
    requires p < 5 + |stages|
  {
    if p == 0 then CLONE
    else if p == 1 then SECRET_SCAN
    else if p == 2 then DEPENDENCY_SCAN
    else if p < 3 + |stages| then StageTaskName(p - 2, stages[p - 3])
    else if p == 3 + |stages| then BUILD
    else SCAN
  }

  function TaskNames(stages: seq<string>): (names: seq<string>)
    ensures |names| == 5 + |stages|
  {
    seq(5 + |stages|, p requires 0 <= p < 5 + |stages| => TaskName(stages, p))
  }

  /** The step index of the task at position `p`: the push step sits between build and scan. */
  function IndexAt(stages: seq<string>, p: nat): nat {
    if p < 4 + |stages| then p + 1 else p + 2
  }

  function PushIndex(stages: seq<string>): nat {
    5 + |stages|
  }

  predicate IsTaskIndex(stages: seq<string>, i: nat) {
    exists p :: 0 <= p < 5 + |stages| && IndexAt(stages, p) == i
  }

  // ----- the source's three constructions -----

  /** The task at position `p` has its name and runs after the task right before it. */
  predicate IsTaskAt(tasks: seq<Task>, stages: seq<string>, p: nat)
    requires p < |tasks| <= 5 + |stages|
  {
    tasks[p] == Task(TaskName(stages, p), if p == 0 then [] else [tasks[p - 1].name])
  }

  predicate IsTaskChain(tasks: seq<Task>, stages: seq<string>) {
    |tasks| <= 5 + |stages| && forall p :: 0 <= p < |tasks| ==> IsTaskAt(tasks, stages, p)
  }

  lemma TaskChainSnoc(tasks: seq<Task>, stages: seq<string>)
    requires IsTaskChain(tasks, stages) && 0 < |tasks| < 5 + |stages|
    ensures IsTaskChain(tasks + [Task(TaskName(stages, |tasks|), [tasks[|tasks| - 1].name])], stages)
  {
    hide TaskName;
    var all := tasks + [Task(TaskName(stages, |tasks|), [tasks[|tasks| - 1].name])];
    forall p | 0 <= p < |all|
      ensures IsTaskAt(all, stages, p)
    {
      assert p < |tasks| ==> IsTaskAt(tasks, stages, p);
    }
  }

  method BuildPipelineSpec(stages: seq<string>) returns (tasks: seq<Task>)
    ensures |tasks| == 5 + |stages| && IsTaskChain(tasks, stages)
  {
    hide StageTaskName, IsTaskChain;
    tasks := [Task("clone", []), Task("secret-scan", ["clone"]), Task("dependency-scan", ["secret-scan"])];
    var previous := "dependency-scan";
    BuiltInPrefix(stages);
    for i := 0 to |stages|
      invariant |tasks| == 3 + i && previous == tasks[|tasks| - 1].name
      invariant IsTaskChain(tasks, stages)
    {
      TaskChainSnoc(tasks, stages);
      var task := Task(StageTaskName(i + 1, stages[i]), [previous]);
      tasks := tasks + [task];
      previous := task.name;
    }
    TaskChainSnoc(tasks, stages);
    tasks := tasks + [Task("build", [previous])];
    TaskChainSnoc(tasks, stages);
    tasks := tasks + [Task("scan", ["build"])];
  }

  lemma BuiltInPrefix(stages: seq<string>)
    ensures IsTaskChain(
              [Task(CLONE, []), Task(SECRET_SCAN, [CLONE]), Task(DEPENDENCY_SCAN, [SECRET_SCAN])], stages)
  {
  }

  method PipelineTaskNames(stages: seq<string>) returns (names: seq<string>)
    ensures names == TaskNames(stages)
  {
    hide StageTaskName;
    names := ["clone", "secret-scan", "dependency-scan"];
    for i := 0 to |stages|
      invariant |names| == 3 + i
      invariant forall p :: 0 <= p < |names| ==> names[p] == TaskName(stages, p)
    {
      hide StageTaskName;
      names := names + [StageTaskName(i + 1, stages[i])];
    }
    names := names + ["build", "scan"];
  }

  predicate IsTask(stages: seq<string>, name: string) {
    exists p :: 0 <= p < 5 + |stages| && TaskName(stages, p) == name
  }

  /** The built-in tasks and the first `n` stages have their indices, and nothing else has one. */
  ghost predicate AreIndices(indices: map<string, nat>, stages: seq<string>, n: nat) {
    && (forall name :: name in indices ==> IsTask(stages, name))
    && (forall p :: (0 <= p < 3 + n || 3 + |stages| <= p < 5 + |stages|) && p < 5 + |stages| ==>
          TaskName(stages, p) in indices && indices[TaskName(stages, p)] == IndexAt(stages, p))
  }

  lemma IndicesSnoc(indices: map<string, nat>, stages: seq<string>, i: nat)
    requires |Decimal(|stages|)| <= MAX_DIGITS
    requires AreIndices(indices, stages, i) && i < |stages|
    ensures AreIndices(indices[StageTaskName(i + 1, stages[i]) := 4 + i], stages, i + 1)
  {
    hide TaskName, StageTaskName, Decimal;
    TaskNamesDistinct(stages);
    StageTaskAt(stages, i);
    assert IsTask(stages, TaskName(stages, 3 + i));
  }

  method StepIndices(stages: seq<string>) returns (indices: map<string, nat>)
    requires |Decimal(|stages|)| <= MAX_DIGITS
    ensures forall name :: name in indices ==> IsTask(stages, name)
    ensures forall p :: 0 <= p < 5 + |stages| ==>
              TaskName(stages, p) in indices && indices[TaskName(stages, p)] == IndexAt(stages, p)
  {
    hide StageTaskName, Decimal;
    BuiltInIndices(stages);
    indices := map["clone" := 1, "secret-scan" := 2, "dependency-scan" := 3,
                   "build" := 4 + |stages|, "scan" := 6 + |stages|];
    assert forall name :: name in indices ==> IsTask(stages, name);
    for i := 0 to |stages|
      invariant AreIndices(indices, stages, i)
    {
      hide AreIndices;
      IndicesSnoc(indices, stages, i);
      indices := indices[StageTaskName(i + 1, stages[i]) := 4 + i];
    }
  }

  lemma StageTaskAt(stages: seq<string>, i: nat)
    requires i < |stages|
    ensures TaskName(stages, 3 + i) == StageTaskName(i + 1, stages[i])
  {
    hide StageTaskName;
  }

  lemma BuiltInIndices(stages: seq<string>)
    ensures TaskName(stages, 0) == CLONE && TaskName(stages, 1) == SECRET_SCAN && TaskName(stages, 2) == DEPENDENCY_SCAN
    ensures TaskName(stages, 3 + |stages|) == BUILD && TaskName(stages, 4 + |stages|) == SCAN
  {
    hide StageTaskName;
  }

  // ----- names are unique and well-formed -----

  /** The most digits a stage number can have before the cap on names cuts into them. */
  const MAX_DIGITS: nat := 51

  lemma StripRightKeepsPrefix(s: string, prefix: string)
    requires prefix <= s && prefix != "" && !IsDash(prefix[|prefix| - 1])
    ensures prefix <= StripRight(s, IsDash)
  {
  }

  /** A stage's task name starts with its number, and the number ends there. */
  lemma TaskNameShowsNumber(index: nat, slug: string)
    requires |Decimal(index)| <= MAX_DIGITS
    ensures var name := TaskNameFrom(index, slug);
            && STAGE + Decimal(index) <= name
            && (|name| > |STAGE + Decimal(index)| ==> name[|STAGE + Decimal(index)|] == '-')
  {
    hide Decimal, Capped;
    CappedShowsHead(STAGE + Decimal(index), slug);
  }

  lemma CappedShowsHead(head: string, slug: string)
    requires 1 <= |head| <= 57 && head[|head| - 1] != '-'
    ensures head <= Capped(head, slug)
    ensures |Capped(head, slug)| > |head| ==> Capped(head, slug)[|head|] == '-'
  {
    hide StripRight;
    var full := head + "-" + slug;
    var cut := if |full| > NAME_CAP then full[..NAME_CAP] else full;
    assert head <= cut;
    assert |cut| > |head| ==> cut[|head|] == '-';
    StripRightKeepsPrefix(cut, head);
  }

  lemma TaskNameDeterminesIndex(i: nat, a: string, j: nat, b: string)
    requires |Decimal(i)| <= MAX_DIGITS && |Decimal(j)| <= MAX_DIGITS
    requires TaskNameFrom(i, a) == TaskNameFrom(j, b)
    ensures i == j
  {
    hide TaskNameFrom, Decimal;
    TaskNameShowsNumber(i, a);
    TaskNameShowsNumber(j, b);
    NumberIsReadable(TaskNameFrom(i, a), Decimal(i), Decimal(j));
    DecimalInjective(i, j);
  }

  lemma NumberIsReadable(name: string, a: string, b: string)
    requires AllDigits(a) && AllDigits(b)
    requires STAGE + a <= name && (|name| > |STAGE + a| ==> name[|STAGE + a|] == '-')
    requires STAGE + b <= name && (|name| > |STAGE + b| ==> name[|STAGE + b|] == '-')
    ensures a == b
  {
    var rest := name[|STAGE|..];
    assert a <= rest && b <= rest;
    NumberAtStart(rest, a);
    NumberAtStart(rest, b);
  }

  lemma StageNamesDiffer(i: nat, a: string, j: nat, b: string)
    requires |Decimal(i)| <= MAX_DIGITS && |Decimal(j)| <= MAX_DIGITS
    requires StageTaskName(i, a) == StageTaskName(j, b)
    ensures i == j
  {
    hide TaskNameFrom, StageSlug;
    TaskNameDeterminesIndex(i, StageSlug(a), j, StageSlug(b));
  }

  lemma NumberAtStart(s: string, digits: string)
    requires digits <= s && AllDigits(digits) && (|s| > |digits| ==> s[|digits|] == '-')
    ensures s[..DigitRun(s)] == digits
  {
    hide DigitRun;
    var rest := s[|digits|..] + "-";
    assert rest[0] == '-' by {
      assert |s| > |digits| ==> rest[0] == s[|digits|];
    }
    assert s + "-" == digits + rest;
    DigitRunOf(digits, rest);
    DigitRunBeforeDash(s);
    assert s[..|digits|] == digits;
  }

  lemma {:induction false} DigitRunBeforeDash(s: string)
    ensures DigitRun(s + "-") == DigitRun(s)
  {
    if s != "" {
      assert (s + "-")[1..] == s[1..] + "-";
      DigitRunBeforeDash(s[1..]);
    }
  }

  lemma StageTaskIsNotBuiltIn(index: nat, stageName: string)
    requires |Decimal(index)| <= MAX_DIGITS
    ensures StageTaskName(index, stageName) !in {CLONE, SECRET_SCAN, DEPENDENCY_SCAN, BUILD, SCAN}
  {
    hide StageSlug, TaskNameFrom, Decimal;
    TaskNameShowsNumber(index, StageSlug(stageName));
    StartsLikeStage(StageTaskName(index, stageName), Decimal(index));
  }

  lemma StartsLikeStage(name: string, digits: string)
    requires STAGE + digits <= name
    ensures name !in {CLONE, SECRET_SCAN, DEPENDENCY_SCAN, BUILD, SCAN}
  {
    assert name[0] == (STAGE + digits)[0] == 's' && name[1] == (STAGE + digits)[1] == 't';
    assert SECRET_SCAN[1] == 'e' && SCAN[1] == 'c';
  }

  /** Whatever the stages are called, the tasks of the pipeline have pairwise distinct names:
      slugging and truncation never make two stages, or a stage and a built-in task, collide. */
  lemma TaskNamesDistinct(stages: seq<string>)
    requires |Decimal(|stages|)| <= MAX_DIGITS
    ensures forall p, q :: 0 <= p < q < 5 + |stages| ==> TaskName(stages, p) != TaskName(stages, q)
  {
    hide StageTaskName, Decimal;
    forall p, q | 0 <= p < q < 5 + |stages|
      ensures TaskName(stages, p) != TaskName(stages, q)
    {
      if 3 <= p < 3 + |stages| {
        DecimalLengthGrows(p - 2, |stages|);
        StageTaskIsNotBuiltIn(p - 2, stages[p - 3]);
      }
      if 3 <= q < 3 + |stages| {
        DecimalLengthGrows(q - 2, |stages|);
        StageTaskIsNotBuiltIn(q - 2, stages[q - 3]);
      }
      if 3 <= p && q < 3 + |stages| && TaskName(stages, p) == TaskName(stages, q) {
        StageNamesDiffer(p - 2, stages[p - 3], q - 2, stages[q - 3]);
      }
    }
  }

  /** Every task name is a DNS-1123 label: at most 57 characters out of `[a-z0-9-]`, beginning
      with a letter and not ending with a dash. */
  lemma TaskNameIsLabel(index: nat, stageName: string)
    requires |Decimal(index)| <= MAX_DIGITS
    ensures var name := StageTaskName(index, stageName);
            && 1 <= |name| <= NAME_CAP && name[0] == 's'
            && !IsDash(name[|name| - 1])
            && forall i :: 0 <= i < |name| ==> IsNameChar(name[i])
  {
    hide StageSlug;
    TaskNameFromIsLabel(index, StageSlug(stageName));
  }

  lemma TaskNameFromIsLabel(index: nat, slug: string)
    requires |Decimal(index)| <= MAX_DIGITS
    requires forall i :: 0 <= i < |slug| ==> IsNameChar(slug[i])
    ensures var name := TaskNameFrom(index, slug);
            && 1 <= |name| <= NAME_CAP && name[0] == 's'
            && !IsDash(name[|name| - 1])
            && forall i :: 0 <= i < |name| ==> IsNameChar(name[i])
  {
  }

  // ----- the numbering is a bijection -----

  /** Along the chain the step indices strictly increase, they miss only the push step, and
      with it they are exactly 1 to 6 + n. */
  lemma IndicesFillTheRange(stages: seq<string>)
    ensures forall p, q :: 0 <= p < q < 5 + |stages| ==> IndexAt(stages, p) < IndexAt(stages, q)
    ensures forall i: nat :: i == PushIndex(stages) || IsTaskIndex(stages, i) <==> 1 <= i <= 6 + |stages|
    ensures !IsTaskIndex(stages, PushIndex(stages))
  {
    forall i: nat
      ensures i == PushIndex(stages) || IsTaskIndex(stages, i) <==> 1 <= i <= 6 + |stages|
    {
      if 1 <= i < PushIndex(stages) {
        assert IndexAt(stages, i - 1) == i;
      } else if i == 6 + |stages| {
        assert IndexAt(stages, i - 2) == i;
      }
    }
  }
}
