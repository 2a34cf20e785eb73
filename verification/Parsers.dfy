/** The scanner parsers: a tool's report in, a severity summary and a list of findings out.

    Reports are taken after JSON decoding. A list-valued key may be absent, which reads as
    empty, or null, which iterating over raises. */
module Parsers {
  import opened Wrappers
  import opened Text

  datatype Severity = Critical | High | Medium | Low | Unknown

  function NormalizeSeverity(raw: Option<string>): Severity {
    var key := Lower(if raw.None? || raw.value == "" then "unknown" else raw.value);
    if key == "critical" then Critical
    else if key == "high" then High
    else if key == "medium" then Medium
    else if key == "low" then Low
    else Unknown
  }

  /** `text` is the word, in capitals, small letters or both. */
  predicate IsWord(text: string, word: string) {
    && |text| == |word|
    && forall i :: 0 <= i < |text| ==>
         text[i] == word[i] || ('A' <= text[i] <= 'Z' && text[i] as int + 32 == word[i] as int)
  }

  /** Each level is given to its own word alone, in any case; whatever else is reported, or nothing,
      is unknown. */
  lemma EachLevelHasItsWord(raw: Option<string>)
    ensures NormalizeSeverity(raw) == Critical <==> raw.Some? && IsWord(raw.value, "critical")
    ensures NormalizeSeverity(raw) == High <==> raw.Some? && IsWord(raw.value, "high")
    ensures NormalizeSeverity(raw) == Medium <==> raw.Some? && IsWord(raw.value, "medium")
    ensures NormalizeSeverity(raw) == Low <==> raw.Some? && IsWord(raw.value, "low")
    ensures NormalizeSeverity(raw) == Unknown <==>
            raw.None? || !(IsWord(raw.value, "critical") || IsWord(raw.value, "high")
                           || IsWord(raw.value, "medium") || IsWord(raw.value, "low"))
  {
    hide Lower;
    assert Lower("unknown") == "unknown" by { LowerIsWord("unknown", "unknown"); }
    if raw.Some? {
      LowerIsWord(raw.value, "critical");
      LowerIsWord(raw.value, "high");
      LowerIsWord(raw.value, "medium");
      LowerIsWord(raw.value, "low");
    }
  }

  /** Lower-casing gives a word of small letters exactly for the spellings of that word. */
  lemma LowerIsWord(text: string, word: string)
    requires forall i :: 0 <= i < |word| ==> 'a' <= word[i] <= 'z'
    ensures Lower(text) == word <==> IsWord(text, word)
  {
    if Lower(text) == word {
      forall i | 0 <= i < |text|
        ensures text[i] == word[i] || ('A' <= text[i] <= 'Z' && text[i] as int + 32 == word[i] as int)
      {
        assert Lower(text)[i] == word[i];
      }
    }
  }

  datatype Finding = Finding(
    severity: Severity,
    identifier: Option<string>,
    package: Option<string>,
    installed: Option<string>,
    fixed: Option<string>,
    title: Option<string>,
    description: Option<string>,
    path: Option<string>,
    lineNumber: Option<int>)

  // ----- summaries -----

  type Summary = map<Severity, nat>

  function EmptySummary(): Summary {
    map[Critical := 0, High := 0, Medium := 0, Low := 0, Unknown := 0]
  }

  function Bump(summary: Summary, severity: Severity): Summary {
    summary[severity := (if severity in summary then summary[severity] else 0) + 1]
  }

  datatype Parsed = Parsed(summary: Summary, findings: seq<Finding>)

  /** How many of the first `n` findings have the given severity. */
  function CountOf(findings: seq<Finding>, severity: Severity, n: nat): nat
    requires n <= |findings|
  {
    if n == 0 then 0
    else CountOf(findings, severity, n - 1) + if findings[n - 1].severity == severity then 1 else 0
  }

  /** The summary is the exact severity histogram of the findings. */
  ghost predicate IsHistogram(summary: Summary, findings: seq<Finding>) {
    forall s: Severity :: s in summary && summary[s] == CountOf(findings, s, |findings|)
  }

  function Total(summary: Summary): nat
    requires forall s: Severity :: s in summary
  {
    summary[Critical] + summary[High] + summary[Medium] + summary[Low] + summary[Unknown]
  }

  lemma EmptyIsHistogram()
    ensures IsHistogram(EmptySummary(), [])
  {
    forall s: Severity
      ensures s in EmptySummary() && EmptySummary()[s] == 0
    {
      match s
      case Critical =>
      case High =>
      case Medium =>
      case Low =>
      case Unknown =>
    }
  }

  lemma {:induction false} CountOfExtended(findings: seq<Finding>, f: Finding, s: Severity, n: nat)
    requires n <= |findings|
    ensures CountOf(findings + [f], s, n) == CountOf(findings, s, n)
  {
    if n > 0 {
      CountOfExtended(findings, f, s, n - 1);
      assert (findings + [f])[n - 1] == findings[n - 1];
    }
  }

  lemma BumpKeepsHistogram(summary: Summary, findings: seq<Finding>, f: Finding)
    requires IsHistogram(summary, findings)
    ensures IsHistogram(Bump(summary, f.severity), findings + [f])
  {
    forall s: Severity
      ensures CountOf(findings + [f], s, |findings| + 1) ==
              CountOf(findings, s, |findings|) + if f.severity == s then 1 else 0
    {
      CountOfExtended(findings, f, s, |findings|);
      assert (findings + [f])[|findings|] == f;
    }
  }

  lemma {:induction false} CountsAddUp(findings: seq<Finding>, n: nat)
    requires n <= |findings|
    ensures CountOf(findings, Critical, n) + CountOf(findings, High, n) + CountOf(findings, Medium, n)
            + CountOf(findings, Low, n) + CountOf(findings, Unknown, n) == n
  {
    if n > 0 {
      CountsAddUp(findings, n - 1);
    }
  }

  /** The sum of a summary is the number of findings, so "the sum is zero" means "found nothing". */
  lemma TotalIsNumberOfFindings(parsed: Parsed)
    requires IsHistogram(parsed.summary, parsed.findings)
    ensures Total(parsed.summary) == |parsed.findings|
  {
    CountsAddUp(parsed.findings, |parsed.findings|);
    assert forall s: Severity :: parsed.summary[s] == CountOf(parsed.findings, s, |parsed.findings|);
  }

  lemma {:induction false} CountPositive(findings: seq<Finding>, s: Severity, n: nat)
    requires n <= |findings|
    ensures CountOf(findings, s, n) > 0 <==> exists i :: 0 <= i < n && findings[i].severity == s
  {
    if n > 0 {
      CountPositive(findings, s, n - 1);
    }
  }

  // ----- gitleaks -----

  datatype JsonList<+T> = Absent | Null | List(items: seq<T>)

  datatype Leak = Leak(ruleId: Option<string>, description: Option<string>, file: Option<string>, startLine: Option<int>)

  datatype GitleaksReport = NotJson | Scalar | Leaks(leaks: seq<Leak>) | Wrapped(wrapped: JsonList<Leak>)

  function LeakFinding(leak: Leak): Finding {
    Finding(High, leak.ruleId, None, None, None, leak.description, None, leak.file, leak.startLine)
  }

  /** A finding about a leak: always high, with the rule, its description, the file and the line. */
  predicate TellsLeak(f: Finding, leak: Leak) {
    && f.severity == High && f.identifier == leak.ruleId && f.title == leak.description
    && f.path == leak.file && f.lineNumber == leak.startLine
    && f.package == f.installed == f.fixed == f.description == None
  }

  /** What a report lists as leaks: the list itself or, in an object, the one under its key. */
  predicate IsLeakList(report: GitleaksReport, leaks: seq<Leak>) {
    || (report.NotJson? && leaks == [])
    || (report.Leaks? && leaks == report.leaks)
    || (report.Wrapped? && report.wrapped.Absent? && leaks == [])
    || (report.Wrapped? && report.wrapped.List? && leaks == report.wrapped.items)
  }

  lemma ListedLeaksAre(report: GitleaksReport, leaks: seq<Leak>)
    ensures ListedLeaks(report) == Some(leaks) <==> IsLeakList(report, leaks)
    ensures ListedLeaks(report).None? <==> report.Scalar? || (report.Wrapped? && report.wrapped.Null?)
  {
  }

  /** The leaks a report lists; None when reading it raises. */
  function ListedLeaks(report: GitleaksReport): Option<seq<Leak>> {
    match report
    case NotJson => Some([])
    case Scalar => None
    case Leaks(leaks) => Some(leaks)
    case Wrapped(Absent) => Some([])
    case Wrapped(Null) => None
    case Wrapped(List(leaks)) => Some(leaks)
  }

  method ParseGitleaks(report: GitleaksReport) returns (r: Result<Parsed>)
    ensures r.Raised? <==> report.Scalar? || (report.Wrapped? && report.wrapped.Null?)
    ensures r.Success? ==>
              && ListedLeaks(report).Some? && IsLeakList(report, ListedLeaks(report).value)
              && IsHistogram(r.value.summary, r.value.findings)
              && |r.value.findings| == |ListedLeaks(report).value|
              && forall i :: 0 <= i < |r.value.findings| ==>
                   TellsLeak(r.value.findings[i], ListedLeaks(report).value[i])
  {
    hide IsHistogram;
    EmptyIsHistogram();
    if report.NotJson? {
      return Success(Parsed(EmptySummary(), []));
    }
    if ListedLeaks(report).None? {
      return Raised("the report is not a list of leaks");
    }
    var leaks := ListedLeaks(report).value;
    var summary, findings := EmptySummary(), [];
    for i := 0 to |leaks|
      invariant IsHistogram(summary, findings)
      invariant |findings| == i && forall j :: 0 <= j < i ==> findings[j] == LeakFinding(leaks[j])
    {
      var finding := LeakFinding(leaks[i]);
      BumpKeepsHistogram(summary, findings, finding);
      summary := Bump(summary, finding.severity);
      findings := findings + [finding];
    }
    return Success(Parsed(summary, findings));
  }

  // ----- trivy -----

  datatype TrivyVuln = TrivyVuln(
    severity: Option<string>, id: Option<string>, package: Option<string>,
    installed: Option<string>, fixed: Option<string>, title: Option<string>, description: Option<string>)

  datatype TrivyResult = TrivyResult(target: Option<string>, vulnerabilities: JsonList<TrivyVuln>)

  datatype TrivyReport = TrivyNotJson | TrivyNotDict | TrivyDict(results: JsonList<TrivyResult>)

  /** A report Trivy actually produced carries a `Results` key. */
  predicate IsUsableTrivyReport(report: TrivyReport) {
    report.TrivyDict? && !report.results.Absent?
  }

  function VulnsOf(result: TrivyResult): seq<TrivyVuln> {
    if result.vulnerabilities.List? then result.vulnerabilities.items else []
  }

  function ResultsOf(report: TrivyReport): seq<TrivyResult> {
    if report.TrivyDict? && report.results.List? then report.results.items else []
  }

  /** Some vulnerability of the report is of this severity, in the report's own words. */
  predicate Reports(report: TrivyReport, word: string) {
    && report.TrivyDict? && report.results.List?
    && exists i :: 0 <= i < |report.results.items| && ResultReports(report.results.items[i], word)
  }

  predicate ResultReports(result: TrivyResult, word: string) {
    && result.vulnerabilities.List?
    && exists k :: 0 <= k < |result.vulnerabilities.items| && IsOfSeverity(result.vulnerabilities.items[k], word)
  }

  predicate IsOfSeverity(vuln: TrivyVuln, word: string) {
    vuln.severity.Some? && IsWord(vuln.severity.value, word)
  }

  predicate TrivyRaises(report: TrivyReport) {
    && report.TrivyDict?
    && (report.results.Null? || exists i :: 0 <= i < |ResultsOf(report)| && ResultsOf(report)[i].vulnerabilities.Null?)
  }

  function VulnFinding(result: TrivyResult, vuln: TrivyVuln): Finding {
    Finding(NormalizeSeverity(vuln.severity), vuln.id, vuln.package, vuln.installed,
            if vuln.fixed == Some("") then None else vuln.fixed, vuln.title, vuln.description, result.target, None)
  }

  /** A finding about a vulnerability: its severity by its own word, and every field from its place. */
  predicate TellsVuln(f: Finding, target: Option<string>, vuln: TrivyVuln) {
    && (f.severity == Critical <==> IsOfSeverity(vuln, "critical")) && (f.severity == High <==> IsOfSeverity(vuln, "high"))
    && (f.severity == Medium <==> IsOfSeverity(vuln, "medium")) && (f.severity == Low <==> IsOfSeverity(vuln, "low"))
    && f.identifier == vuln.id && f.package == vuln.package && f.installed == vuln.installed
    && (f.fixed == None <==> vuln.fixed == None || vuln.fixed == Some("")) && (f.fixed.Some? ==> f.fixed == vuln.fixed)
    && f.title == vuln.title && f.description == vuln.description && f.path == target && f.lineNumber == None
  }

  /** The vulnerabilities of the first `i` results, each with its target, in report order. */
  function Reported(results: seq<TrivyResult>, i: nat): seq<(Option<string>, TrivyVuln)>
    requires i <= |results|
  {
    if i == 0 then []
    else if results[i - 1].vulnerabilities.List? then
      Reported(results, i - 1)
      + seq(|results[i - 1].vulnerabilities.items|, k requires 0 <= k < |results[i - 1].vulnerabilities.items| =>
              (results[i - 1].target, results[i - 1].vulnerabilities.items[k]))
    else Reported(results, i - 1)
  }

  ghost predicate TellAll(findings: seq<Finding>, reported: seq<(Option<string>, TrivyVuln)>) {
    |findings| == |reported| && forall i :: 0 <= i < |findings| ==> TellsVuln(findings[i], reported[i].0, reported[i].1)
  }

  lemma {:induction false} WithVulnsTell(
      acc: seq<Finding>, result: TrivyResult, j: nat, before: seq<(Option<string>, TrivyVuln)>)
    requires j <= |VulnsOf(result)| && TellAll(acc, before)
    ensures TellAll(WithVulns(acc, result, j),
                    before + seq(j, k requires 0 <= k < j => (result.target, VulnsOf(result)[k])))
  {
    hide NormalizeSeverity, TellsVuln;
    if j > 0 {
      WithVulnsTell(acc, result, j - 1, before);
      VulnFindingTells(result, VulnsOf(result)[j - 1]);
    }
  }

  lemma VulnFindingTells(result: TrivyResult, vuln: TrivyVuln)
    ensures TellsVuln(VulnFinding(result, vuln), result.target, vuln)
  {
    hide NormalizeSeverity, IsWord;
    EachLevelHasItsWord(vuln.severity);
  }

  lemma {:induction false} TrivyFindingsTell(results: seq<TrivyResult>, i: nat)
    requires i <= |results|
    ensures TellAll(TrivyFindings(results, i), Reported(results, i))
  {
    hide TellsVuln;
    if i > 0 {
      TrivyFindingsTell(results, i - 1);
      var last := results[i - 1];
      WithVulnsTell(TrivyFindings(results, i - 1), last, |VulnsOf(last)|, Reported(results, i - 1));
      assert Reported(results, i) ==
             Reported(results, i - 1) + seq(|VulnsOf(last)|, k requires 0 <= k < |VulnsOf(last)| => (last.target, VulnsOf(last)[k]));
    }
  }

  /** `acc`, then one finding for each of the first `j` vulnerabilities of `result`. */
  function WithVulns(acc: seq<Finding>, result: TrivyResult, j: nat): seq<Finding>
    requires j <= |VulnsOf(result)|
  {
    if j == 0 then acc else WithVulns(acc, result, j - 1) + [VulnFinding(result, VulnsOf(result)[j - 1])]
  }

  /** One finding for each vulnerability of the first `i` results, in report order. */
  function TrivyFindings(results: seq<TrivyResult>, i: nat): seq<Finding>
    requires i <= |results|
  {
    if i == 0 then []
    else WithVulns(TrivyFindings(results, i - 1), results[i - 1], |VulnsOf(results[i - 1])|)
  }

  method ParseTrivy(report: TrivyReport) returns (r: Result<Parsed>)
    ensures r.Raised? <==> TrivyRaises(report)
    ensures r.Success? ==>
              && IsHistogram(r.value.summary, r.value.findings)
              && r.value.findings == TrivyFindings(ResultsOf(report), |ResultsOf(report)|)
              && TellAll(r.value.findings, Reported(ResultsOf(report), |ResultsOf(report)|))
  {
    TrivyFindingsTell(ResultsOf(report), |ResultsOf(report)|);
    hide IsHistogram, NormalizeSeverity, VulnFinding, TellAll, Reported;
    EmptyIsHistogram();
    if !report.TrivyDict? {
      return Success(Parsed(EmptySummary(), []));
    }
    if report.results.Null? {
      return Raised("'NoneType' object is not iterable");
    }
    var results := ResultsOf(report);
    var summary, findings := EmptySummary(), [];
    for i := 0 to |results|
      invariant forall k :: 0 <= k < i ==> !results[k].vulnerabilities.Null?
      invariant IsHistogram(summary, findings) && findings == TrivyFindings(results, i)
    {
      if results[i].vulnerabilities.Null? {
        return Raised("'NoneType' object is not iterable");
      }
      var vulns := VulnsOf(results[i]);
      for j := 0 to |vulns|
        invariant IsHistogram(summary, findings)
        invariant findings == WithVulns(TrivyFindings(results, i), results[i], j)
      {
        var finding := VulnFinding(results[i], vulns[j]);
        BumpKeepsHistogram(summary, findings, finding);
        summary := Bump(summary, finding.severity);
        findings := findings + [finding];
      }
    }
    return Success(Parsed(summary, findings));
  }

  /** Some vulnerability among the first `j` of a result has this severity, once normalised. */
  predicate Lists(result: TrivyResult, j: nat, s: Severity)
    requires j <= |VulnsOf(result)|
  {
    exists k :: 0 <= k < j && NormalizeSeverity(VulnsOf(result)[k].severity) == s
  }

  predicate Mentions(results: seq<TrivyResult>, i: nat, s: Severity)
    requires i <= |results|
  {
    exists k :: 0 <= k < i && Lists(results[k], |VulnsOf(results[k])|, s)
  }

  predicate Has(findings: seq<Finding>, s: Severity) {
    exists f :: 0 <= f < |findings| && findings[f].severity == s
  }

  lemma {:induction false} WithVulnsHas(acc: seq<Finding>, result: TrivyResult, j: nat, s: Severity)
    requires j <= |VulnsOf(result)|
    ensures Has(WithVulns(acc, result, j), s) <==>
            Has(acc, s) || Lists(result, j, s)
  {
    hide NormalizeSeverity;
    if j > 0 {
      WithVulnsHas(acc, result, j - 1, s);
      HasSnoc(WithVulns(acc, result, j - 1), VulnFinding(result, VulnsOf(result)[j - 1]), s);
    }
  }

  lemma HasSnoc(findings: seq<Finding>, f: Finding, s: Severity)
    ensures Has(findings + [f], s) <==> Has(findings, s) || f.severity == s
  {
    var all := findings + [f];
    if Has(findings, s) {
      var i :| 0 <= i < |findings| && findings[i].severity == s;
      assert all[i].severity == s;
    }
    if f.severity == s {
      assert all[|findings|].severity == s;
    }
  }

  lemma {:induction false} TrivyFindingsHave(results: seq<TrivyResult>, i: nat, s: Severity)
    requires i <= |results|
    ensures Has(TrivyFindings(results, i), s) <==> Mentions(results, i, s)
  {
    hide Lists, VulnsOf, Has;
    if i > 0 {
      TrivyFindingsHave(results, i - 1, s);
      WithVulnsHas(TrivyFindings(results, i - 1), results[i - 1], |VulnsOf(results[i - 1])|, s);
      assert Mentions(results, i, s) <==>
             Mentions(results, i - 1, s) || Lists(results[i - 1], |VulnsOf(results[i - 1])|, s);
    } else {
      assert !Has([], s) by {
        NothingHas(s);
      }
    }
  }

  lemma NothingHas(s: Severity)
    ensures !Has([], s)
  {
  }

  lemma ListsAreReports(result: TrivyResult)
    ensures Lists(result, |VulnsOf(result)|, Critical) <==> ResultReports(result, "critical")
    ensures Lists(result, |VulnsOf(result)|, High) <==> ResultReports(result, "high")
  {
    hide NormalizeSeverity, IsWord;
    forall k | 0 <= k < |VulnsOf(result)|
      ensures NormalizeSeverity(VulnsOf(result)[k].severity) == Critical <==> IsOfSeverity(VulnsOf(result)[k], "critical")
      ensures NormalizeSeverity(VulnsOf(result)[k].severity) == High <==> IsOfSeverity(VulnsOf(result)[k], "high")
    {
      EachLevelHasItsWord(VulnsOf(result)[k].severity);
    }
  }

  lemma MentionsAreReports(report: TrivyReport)
    ensures Mentions(ResultsOf(report), |ResultsOf(report)|, Critical) <==> Reports(report, "critical")
    ensures Mentions(ResultsOf(report), |ResultsOf(report)|, High) <==> Reports(report, "high")
  {
    hide Lists, ResultReports, VulnsOf;
    forall i | 0 <= i < |ResultsOf(report)|
      ensures Lists(ResultsOf(report)[i], |VulnsOf(ResultsOf(report)[i])|, Critical) <==> ResultReports(ResultsOf(report)[i], "critical")
      ensures Lists(ResultsOf(report)[i], |VulnsOf(ResultsOf(report)[i])|, High) <==> ResultReports(ResultsOf(report)[i], "high")
    {
      ListsAreReports(ResultsOf(report)[i]);
    }
  }

  /** The number the image gate reads is zero exactly when no vulnerability in the whole report is
      called critical or high, in any case. */
  lemma TrivyGateMeansClean(report: TrivyReport, parsed: Parsed)
    requires IsHistogram(parsed.summary, parsed.findings)
    requires parsed.findings == TrivyFindings(ResultsOf(report), |ResultsOf(report)|)
    ensures Critical in parsed.summary && High in parsed.summary
    ensures parsed.summary[Critical] + parsed.summary[High] == 0 <==>
            !Reports(report, "critical") && !Reports(report, "high")
  {
    hide NormalizeSeverity;
    MentionsAreReports(report);
    var results, findings := ResultsOf(report), parsed.findings;
    TrivyFindingsHave(results, |results|, Critical);
    TrivyFindingsHave(results, |results|, High);
    CountPositive(findings, Critical, |findings|);
    CountPositive(findings, High, |findings|);
  }

  // ----- pip-audit -----

  /** A severity as advisories carry it: a plain string, or a CVSS detail with a vector, a
      numeric score, or a worded one. */
  datatype RawSeverity =
    | Plain(text: Option<string>)
    | Vector(vector: string)
    | Scored(score: real)
    | Worded(word: Option<string>)

  datatype PipVuln = PipVuln(
    id: Option<string>, severity: RawSeverity, fixVersions: seq<string>, aliases: seq<string>, description: Option<string>)

  datatype Dependency = Dependency(name: Option<string>, version: Option<string>, vulns: JsonList<PipVuln>)

  datatype PipReport = PipNotJson | PipNotDict | PipDict(dependencies: JsonList<Dependency>)

  function ScoreToLevel(score: real): Severity {
    if score >= 9.0 then Critical
    else if score >= 7.0 then High
    else if score >= 4.0 then Medium
    else if score > 0.0 then Low
    else Unknown
  }

  function SeverityOf(raw: RawSeverity, baseScore: string -> real): Severity {
    match raw
    case Plain(text) => NormalizeSeverity(text)
    case Vector(vector) => ScoreToLevel(baseScore(vector))
    case Scored(score) => ScoreToLevel(score)
    case Worded(word) => NormalizeSeverity(word)
  }

  /** `str(value)`, where a missing value prints as "None". */
  function PyStr(value: Option<string>): string {
    if value.None? then "None" else value.value
  }

  function Join(words: seq<string>): string {
    if words == [] then "" else if |words| == 1 then words[0] else Join(words[..|words| - 1]) + ", " + words[|words| - 1]
  }

  function NonEmpty(words: seq<string>): seq<string> {
    if words == [] then []
    else NonEmpty(words[..|words| - 1]) + (if words[|words| - 1] == "" then [] else [words[|words| - 1]])
  }

  function PipFinding(dep: Dependency, vuln: PipVuln, baseScore: string -> real): Finding {
    Finding(SeverityOf(vuln.severity, baseScore), vuln.id, dep.name, dep.version,
            if vuln.fixVersions == [] then None else Some(vuln.fixVersions[0]),
            if NonEmpty(vuln.aliases) == [] then None else Some(Join(NonEmpty(vuln.aliases))),
            vuln.description, None, None)
  }

  /** The bands of a numeric score. */
  lemma ScoreBands(score: real)
    ensures ScoreToLevel(score) == Critical <==> score >= 9.0
    ensures ScoreToLevel(score) == High <==> 7.0 <= score < 9.0
    ensures ScoreToLevel(score) == Medium <==> 4.0 <= score < 7.0
    ensures ScoreToLevel(score) == Low <==> 0.0 < score < 4.0
    ensures ScoreToLevel(score) == Unknown <==> score <= 0.0
  {
  }

  /** The level of an advisory: by its word or, with a vector or a number, by the band of the score. */
  predicate IsLevelOf(level: Severity, raw: RawSeverity, baseScore: string -> real) {
    match raw
    case Plain(text) => IsLevelOfWord(level, text)
    case Worded(word) => IsLevelOfWord(level, word)
    case Vector(vector) => IsLevelOfScore(level, baseScore(vector))
    case Scored(score) => IsLevelOfScore(level, score)
  }

  predicate IsLevelOfWord(level: Severity, text: Option<string>) {
    match level
    case Critical => text.Some? && IsWord(text.value, "critical")
    case High => text.Some? && IsWord(text.value, "high")
    case Medium => text.Some? && IsWord(text.value, "medium")
    case Low => text.Some? && IsWord(text.value, "low")
    case Unknown =>
      text.None? || !(IsWord(text.value, "critical") || IsWord(text.value, "high")
                      || IsWord(text.value, "medium") || IsWord(text.value, "low"))
  }

  predicate IsLevelOfScore(level: Severity, score: real) {
    match level
    case Critical => score >= 9.0
    case High => 7.0 <= score < 9.0
    case Medium => 4.0 <= score < 7.0
    case Low => 0.0 < score < 4.0
    case Unknown => score <= 0.0
  }

  lemma SeverityIsLevel(level: Severity, raw: RawSeverity, baseScore: string -> real)
    ensures SeverityOf(raw, baseScore) == level <==> IsLevelOf(level, raw, baseScore)
  {
    hide NormalizeSeverity, IsWord;
    match raw
    case Plain(text) => EachLevelHasItsWord(text);
    case Worded(word) => EachLevelHasItsWord(word);
    case Vector(vector) => ScoreBands(baseScore(vector));
    case Scored(score) => ScoreBands(score);
  }

  /** A finding about an advisory; its title lists the aliases that are not empty. */
  predicate TellsAdvisory(f: Finding, dep: Dependency, vuln: PipVuln, baseScore: string -> real) {
    && IsLevelOf(f.severity, vuln.severity, baseScore)
    && f.identifier == vuln.id && f.package == dep.name && f.installed == dep.version
    && (vuln.fixVersions == [] ==> f.fixed == None) && (vuln.fixVersions != [] ==> f.fixed == Some(vuln.fixVersions[0]))
    && (f.title == None <==> forall a :: a in vuln.aliases ==> a == "")
    && (f.title.Some? ==> f.title.value == Join(NonEmpty(vuln.aliases)))
    && f.description == vuln.description && f.path == None && f.lineNumber == None
  }

  lemma PipFindingTells(dep: Dependency, vuln: PipVuln, baseScore: string -> real)
    ensures TellsAdvisory(PipFinding(dep, vuln, baseScore), dep, vuln, baseScore)
  {
    hide IsWord, NormalizeSeverity, Join;
    SeverityIsLevel(SeverityOf(vuln.severity, baseScore), vuln.severity, baseScore);
    NonEmptyKeeps(vuln.aliases);
    var kept := NonEmpty(vuln.aliases);
    assert kept != [] ==> kept[0] in kept;
  }

  lemma {:induction false} NonEmptyKeeps(words: seq<string>)
    ensures forall w :: w in NonEmpty(words) <==> w in words && w != ""
  {
    if words != [] {
      NonEmptyKeeps(words[..|words| - 1]);
      assert words == words[..|words| - 1] + [words[|words| - 1]];
    }
  }

  /** Dropping the empty words keeps the order of the others. */
  lemma NonEmptyOfMore(words: seq<string>, word: string)
    ensures NonEmpty([]) == []
    ensures NonEmpty(words + [word]) == if word == "" then NonEmpty(words) else NonEmpty(words) + [word]
  {
    var more := words + [word];
    assert more[..|more| - 1] == words && more[|more| - 1] == word;
  }

  /** Joined words are separated by a comma and a blank. */
  lemma JoinOfMore(words: seq<string>, word: string)
    ensures Join([]) == "" && Join([word]) == word
    ensures words != [] ==> Join(words + [word]) == Join(words) + ", " + word
  {
    var more := words + [word];
    assert more[..|more| - 1] == words && more[|more| - 1] == word;
    assert words != [] ==> Join(more) == Join(more[..|more| - 1]) + ", " + more[|more| - 1];
  }

  /** Two texts print alike; one that is missing prints as "None". */
  predicate PrintAlike(a: Option<string>, b: Option<string>) {
    a == b || (a == None && b == Some("None")) || (a == Some("None") && b == None)
  }

  lemma SameKeyIff(f: Finding, g: Finding)
    ensures Key(f) == Key(g) <==> PrintAlike(f.package, g.package) && PrintAlike(f.identifier, g.identifier)
  {
  }

  /** The (package, advisory) pair findings are deduplicated by. */
  function Key(f: Finding): (string, string) {
    (PyStr(f.package), PyStr(f.identifier))
  }

  function DependenciesOf(report: PipReport): seq<Dependency> {
    if report.PipDict? && report.dependencies.List? then report.dependencies.items else []
  }

  predicate PipRaises(report: PipReport) {
    || report.PipNotDict?
    || (report.PipDict? && report.dependencies.Null?)
    || exists i :: 0 <= i < |DependenciesOf(report)| && DependenciesOf(report)[i].vulns.Null?
  }

  function PipVulnsOf(dep: Dependency): seq<PipVuln> {
    if dep.vulns.List? then dep.vulns.items else []
  }

  /** Every advisory reported, duplicates included, in report order. */
  function WithAdvisories(acc: seq<Finding>, dep: Dependency, j: nat, baseScore: string -> real): seq<Finding>
    requires j <= |PipVulnsOf(dep)|
  {
    if j == 0 then acc else WithAdvisories(acc, dep, j - 1, baseScore) + [PipFinding(dep, PipVulnsOf(dep)[j - 1], baseScore)]
  }

  function Advisories(deps: seq<Dependency>, i: nat, baseScore: string -> real): seq<Finding>
    requires i <= |deps|
  {
    if i == 0 then []
    else WithAdvisories(Advisories(deps, i - 1, baseScore), deps[i - 1], |PipVulnsOf(deps[i - 1])|, baseScore)
  }

  /** Every advisory of the first `i` dependencies, with its dependency, in report order. */
  function Listed(deps: seq<Dependency>, i: nat): seq<(Dependency, PipVuln)>
    requires i <= |deps|
  {
    if i == 0 then []
    else if deps[i - 1].vulns.List? then
      Listed(deps, i - 1)
      + seq(|deps[i - 1].vulns.items|, k requires 0 <= k < |deps[i - 1].vulns.items| => (deps[i - 1], deps[i - 1].vulns.items[k]))
    else Listed(deps, i - 1)
  }

  ghost predicate TellAllAdvisories(findings: seq<Finding>, listed: seq<(Dependency, PipVuln)>, baseScore: string -> real) {
    |findings| == |listed| && forall i :: 0 <= i < |findings| ==> TellsAdvisory(findings[i], listed[i].0, listed[i].1, baseScore)
  }

  lemma {:induction false} WithAdvisoriesTell(
      acc: seq<Finding>, dep: Dependency, j: nat, baseScore: string -> real, before: seq<(Dependency, PipVuln)>)
    requires j <= |PipVulnsOf(dep)| && TellAllAdvisories(acc, before, baseScore)
    ensures TellAllAdvisories(WithAdvisories(acc, dep, j, baseScore),
                              before + seq(j, k requires 0 <= k < j => (dep, PipVulnsOf(dep)[k])), baseScore)
  {
    hide TellsAdvisory, PipFinding;
    if j > 0 {
      WithAdvisoriesTell(acc, dep, j - 1, baseScore, before);
      PipFindingTells(dep, PipVulnsOf(dep)[j - 1], baseScore);
    }
  }

  /** What is deduplicated are findings about exactly the advisories listed, in report order. */
  lemma {:induction false} AdvisoriesTell(deps: seq<Dependency>, i: nat, baseScore: string -> real)
    requires i <= |deps|
    ensures TellAllAdvisories(Advisories(deps, i, baseScore), Listed(deps, i), baseScore)
  {
    hide TellsAdvisory;
    if i > 0 {
      AdvisoriesTell(deps, i - 1, baseScore);
      var last := deps[i - 1];
      WithAdvisoriesTell(Advisories(deps, i - 1, baseScore), last, |PipVulnsOf(last)|, baseScore, Listed(deps, i - 1));
      assert Listed(deps, i) == Listed(deps, i - 1) + seq(|PipVulnsOf(last)|, k requires 0 <= k < |PipVulnsOf(last)| => (last, PipVulnsOf(last)[k]));
    }
  }

  function Keys(findings: seq<Finding>): set<(string, string)> {
    set i | 0 <= i < |findings| :: Key(findings[i])
  }

  /** `kept` has one finding for every key in `all`: the first one, in the order the keys first appear. */
  ghost predicate IsFirstSeen(all: seq<Finding>, kept: seq<Finding>) {
    && Keys(kept) == Keys(all)
    && (forall i, j :: 0 <= i < j < |kept| ==> Key(kept[i]) != Key(kept[j]))
    && exists at: seq<int> :: IsFirstSeenAt(all, kept, at)
  }

  /** `at[i]` is where the i-th kept finding stands in `all`: increasing, and the first of its key. */
  ghost predicate IsFirstSeenAt(all: seq<Finding>, kept: seq<Finding>, at: seq<int>) {
    && |at| == |kept|
    && (forall i :: 0 <= i < |at| ==> 0 <= at[i] < |all| && all[at[i]] == kept[i])
    && (forall i, j :: 0 <= i < j < |at| ==> at[i] < at[j])
    && forall i, k :: 0 <= i < |at| && 0 <= k < at[i] ==> Key(all[k]) != Key(kept[i])
  }

  lemma NothingSeen()
    ensures IsFirstSeen([], []) && Keys([]) == {}
  {
    assert IsFirstSeenAt([], [], []);
  }

  lemma KeysSnoc(findings: seq<Finding>, f: Finding)
    ensures Keys(findings + [f]) == Keys(findings) + {Key(f)}
  {
    hide Key;
    var all := findings + [f];
    assert Key(all[|findings|]) in Keys(all);
    forall k | k in Keys(findings)
      ensures k in Keys(all)
    {
      var i :| 0 <= i < |findings| && Key(findings[i]) == k;
      assert Key(all[i]) == k;
    }
  }

  lemma SeenAgain(all: seq<Finding>, kept: seq<Finding>, f: Finding)
    requires IsFirstSeen(all, kept) && Key(f) in Keys(kept)
    ensures IsFirstSeen(all + [f], kept)
  {
    hide Key;
    KeysSnoc(all, f);
    var at :| IsFirstSeenAt(all, kept, at);
    assert IsFirstSeenAt(all + [f], kept, at);
  }

  lemma SeenFirst(all: seq<Finding>, kept: seq<Finding>, f: Finding)
    requires IsFirstSeen(all, kept) && Key(f) !in Keys(kept)
    ensures IsFirstSeen(all + [f], kept + [f])
  {
    hide Key;
    KeysSnoc(all, f);
    KeysSnoc(kept, f);
    var at :| IsFirstSeenAt(all, kept, at);
    forall k | 0 <= k < |all|
      ensures Key(all[k]) != Key(f)
    {
      assert Key(all[k]) in Keys(all);
    }
    forall i | 0 <= i < |kept|
      ensures Key(kept[i]) != Key(f)
    {
      assert Key(kept[i]) in Keys(kept);
    }
    assert IsFirstSeenAt(all + [f], kept + [f], at + [|all|]);
  }

  lemma KeepFinding(reported: seq<Finding>, summary: Summary, findings: seq<Finding>, f: Finding)
    requires IsHistogram(summary, findings) && IsFirstSeen(reported, findings) && Key(f) !in Keys(findings)
    ensures IsHistogram(Bump(summary, f.severity), findings + [f])
    ensures IsFirstSeen(reported + [f], findings + [f])
    ensures Keys(findings + [f]) == Keys(findings) + {Key(f)}
  {
    hide *;
    SeenFirst(reported, findings, f);
    KeysSnoc(findings, f);
    BumpKeepsHistogram(summary, findings, f);
  }

  method ParsePipAudit(report: PipReport, baseScore: string -> real) returns (r: Result<Parsed>)
    ensures r.Raised? <==> PipRaises(report)
    ensures r.Success? ==>
              && IsHistogram(r.value.summary, r.value.findings)
              && IsFirstSeen(Advisories(DependenciesOf(report), |DependenciesOf(report)|, baseScore), r.value.findings)
  {
    hide IsHistogram, PipFinding, Keys, Key, IsFirstSeen;
    EmptyIsHistogram();
    if report.PipNotDict? || (report.PipDict? && report.dependencies.Null?) {
      return Raised("not a pip-audit report");
    }
    NothingSeen();
    var summary, findings := EmptySummary(), [];
    if report.PipNotJson? {
      return Success(Parsed(summary, findings));
    }
    var deps := DependenciesOf(report);
    var seen: set<(string, string)> := {};
    for i := 0 to |deps|
      invariant forall k :: 0 <= k < i ==> !deps[k].vulns.Null?
      invariant IsHistogram(summary, findings) && seen == Keys(findings)
      invariant IsFirstSeen(Advisories(deps, i, baseScore), findings)
    {
      if deps[i].vulns.Null? {
        return Raised("'NoneType' object is not iterable");
      }
      var vulns := PipVulnsOf(deps[i]);
      for j := 0 to |vulns|
        invariant IsHistogram(summary, findings) && seen == Keys(findings)
        invariant IsFirstSeen(WithAdvisories(Advisories(deps, i, baseScore), deps[i], j, baseScore), findings)
      {
        var finding := PipFinding(deps[i], vulns[j], baseScore);
        if Key(finding) in seen {
          SeenAgain(WithAdvisories(Advisories(deps, i, baseScore), deps[i], j, baseScore), findings, finding);
        } else {
          KeepFinding(WithAdvisories(Advisories(deps, i, baseScore), deps[i], j, baseScore), summary, findings, finding);
          seen := seen + {Key(finding)};
          summary := Bump(summary, finding.severity);
          findings := findings + [finding];
        }
      }
    }
    return Success(Parsed(summary, findings));
  }

  lemma {:induction false} DistinctKeysCount(findings: seq<Finding>, n: nat)
    requires n <= |findings|
    requires forall i, j :: 0 <= i < j < |findings| ==> Key(findings[i]) != Key(findings[j])
    ensures |set i | 0 <= i < n :: Key(findings[i])| == n
  {
    hide Key;
    if n > 0 {
      DistinctKeysCount(findings, n - 1);
      var before := set i | 0 <= i < n - 1 :: Key(findings[i]);
      assert (set i | 0 <= i < n :: Key(findings[i])) == before + {Key(findings[n - 1])};
      assert Key(findings[n - 1]) !in before;
    }
  }

  /** What the dependency gate counts is the number of distinct (package, advisory) pairs in
      the report, and it is zero exactly when the report lists no advisory at all. */
  lemma PipGateCountsDistinct(all: seq<Finding>, parsed: Parsed)
    requires IsHistogram(parsed.summary, parsed.findings) && IsFirstSeen(all, parsed.findings)
    ensures Total(parsed.summary) == |Keys(all)|
    ensures Total(parsed.summary) == 0 <==> all == []
  {
    hide Key;
    TotalIsNumberOfFindings(parsed);
    DistinctKeysCount(parsed.findings, |parsed.findings|);
    if all != [] {
      assert Key(all[0]) in Keys(all);
    }
  }

  /** Advisories there are, exactly when some dependency lists one. */
  lemma {:induction false} AdvisoriesEmpty(deps: seq<Dependency>, i: nat, baseScore: string -> real)
    requires i <= |deps|
    ensures Advisories(deps, i, baseScore) == [] <==> forall k :: 0 <= k < i ==> PipVulnsOf(deps[k]) == []
  {
    if i > 0 {
      AdvisoriesEmpty(deps, i - 1, baseScore);
      WithAdvisoriesGrows(Advisories(deps, i - 1, baseScore), deps[i - 1], |PipVulnsOf(deps[i - 1])|, baseScore);
    }
  }

  lemma {:induction false} WithAdvisoriesGrows(acc: seq<Finding>, dep: Dependency, j: nat, baseScore: string -> real)
    requires j <= |PipVulnsOf(dep)|
    ensures |WithAdvisories(acc, dep, j, baseScore)| == |acc| + j
  {
    hide PipFinding, PipVulnsOf;
    if j > 0 {
      WithAdvisoriesGrows(acc, dep, j - 1, baseScore);
    }
  }
}
