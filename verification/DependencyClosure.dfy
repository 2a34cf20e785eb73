/** The closure of the pinned requirements over the installed distributions, what it leaves out of
    the closure that was promised, and the order in which the pinned file lists it. */
module DependencyClosure {
  import opened Wrappers

  /** The name of an extra is never empty. */
  type Extra = name: string | name != "" witness "x"

  /** One entry of a distribution's metadata: the package and the extras of it that are asked for,
      whether the entry's text contains the word "extra", and its marker (true when it has none),
      evaluated for this interpreter with the variable `extra` set to the given text. */
  datatype Requirement = Requirement(name: string, extras: set<Extra>, mentionsExtra: bool, marker: string -> bool)

  datatype Dist = Dist(version: string, requirements: seq<Requirement>)

  /** A line of the requirements file. */
  datatype Line = Line(name: string, extras: set<Extra>)

  /** A package waiting to be visited, with the extras of the line it descends from. */
  datatype Entry = Entry(name: string, extras: set<Extra>)

  /** What `extra` is when a marker is evaluated without an environment. */
  const NO_EXTRA: string := ""

  /** Whether a requirement applies under an extra. One that never mentions extras cannot depend on them. */
  predicate Applies(req: Requirement, extra: string) {
    req.marker(if req.mentionsExtra then extra else NO_EXTRA)
  }

  /** `extra == "…"`, evaluated as the script does. */
  predicate ExtraMarkerHolds(extra: Extra) {
    NO_EXTRA == extra
  }

  predicate IsEnabled(req: Requirement, extras: set<Extra>) {
    (req.mentionsExtra ==> exists e :: e in extras && ExtraMarkerHolds(e)) && req.marker(NO_EXTRA)
  }

  /** The requirements the script follows, whatever extras are asked for. */
  predicate IsFollowed(req: Requirement) {
    !req.mentionsExtra && Applies(req, NO_EXTRA)
  }

  lemma OnlyPlainRequirementsAreFollowed(req: Requirement, extras: set<Extra>)
    ensures IsEnabled(req, extras) <==> IsFollowed(req)
  {
  }

  // ----- what is needed without extras -----

  function NamesOf(lines: seq<Line>): seq<string> {
    seq(|lines|, i requires 0 <= i < |lines| => lines[i].name)
  }

  predicate Requires(dists: map<string, Dist>, a: string, b: string) {
    a in dists
    && exists i :: 0 <= i < |dists[a].requirements| && dists[a].requirements[i].name == b && IsFollowed(dists[a].requirements[i])
  }

  /** A chain of packages from a line of the file, each required by the one before. */
  predicate IsRoute(lines: seq<Line>, dists: map<string, Dist>, route: History<string>) {
    match route
    case Start => false
    case Then(Start, n) => n in NamesOf(lines)
    case Then(before, n) => IsRoute(lines, dists, before) && Requires(dists, before.last, n)
  }

  ghost predicate IsNeeded(lines: seq<Line>, dists: map<string, Dist>, name: string) {
    exists route :: IsRoute(lines, dists, route) && route.last == name
  }

  lemma TopIsNeeded(lines: seq<Line>, dists: map<string, Dist>, name: string)
    requires name in NamesOf(lines)
    ensures IsNeeded(lines, dists, name)
  {
    assert IsRoute(lines, dists, Then(Start, name));
  }

  lemma RequiredIsNeeded(lines: seq<Line>, dists: map<string, Dist>, a: string, b: string)
    requires IsNeeded(lines, dists, a) && Requires(dists, a, b)
    ensures IsNeeded(lines, dists, b)
  {
    hide NamesOf, Requires;
    var route :| IsRoute(lines, dists, route) && route.last == a;
    assert IsRoute(lines, dists, Then(route, b));
  }

  // ----- the worklist -----

  ghost predicate IsWaiting(pending: seq<Entry>, name: string) {
    exists i :: 0 <= i < |pending| && pending[i].name == name
  }

  /** What holds between two visits. */
  ghost predicate InProgress(lines: seq<Line>, dists: map<string, Dist>, pending: seq<Entry>, resolved: map<string, string>) {
    && (forall i :: 0 <= i < |pending| ==> IsNeeded(lines, dists, pending[i].name))
    && (forall n :: n in resolved ==> n in dists && resolved[n] == dists[n].version && IsNeeded(lines, dists, n))
    && (forall n, m :: n in resolved && Requires(dists, n, m) ==> m in resolved || IsWaiting(pending, m))
    && (forall n :: n in NamesOf(lines) ==> n in resolved || IsWaiting(pending, n))
  }

  function MissingMessage(name: string): string {
    "missing installed dist for " + name
  }

  /** The extras the file asks for on behalf of one package, over all its lines. */
  function ExtrasOf(lines: seq<Line>, name: string): set<Extra> {
    set line, e | line in lines && line.name == name && e in line.extras :: e
  }

  /** The top packages in file order, each waiting with all the extras any line asks of it. */
  function Tops(lines: seq<Line>): seq<Entry> {
    seq(|lines|, i requires 0 <= i < |lines| => Entry(lines[i].name, ExtrasOf(lines, lines[i].name)))
  }

  /** The entries a visit appends: one for each enabled requirement, in metadata order. */
  function Added(requirements: seq<Requirement>, extras: set<Extra>): seq<Entry> {
    if requirements == [] then []
    else
      (if IsEnabled(requirements[0], extras) then [Entry(requirements[0].name, extras)] else [])
      + Added(requirements[1..], extras)
  }

  /** What the worklist comes to, first in first out. */
  function Visit(dists: map<string, Dist>, pending: seq<Entry>, resolved: map<string, string>): Result<map<string, string>>
    decreases dists.Keys - resolved.Keys, |pending|
  {
    if pending == [] then Success(resolved)
    else if pending[0].name in resolved then Visit(dists, pending[1..], resolved)
    else if pending[0].name !in dists then Raised(MissingMessage(pending[0].name))
    else
      var dist := dists[pending[0].name];
      var resolved' := resolved[pending[0].name := dist.version];
      assert pending[0].name in dists.Keys - resolved.Keys && pending[0].name !in dists.Keys - resolved'.Keys;
      Visit(dists, pending[1..] + Added(dist.requirements, pending[0].extras), resolved')
  }

  /** A success holds exactly the needed packages, each in its installed version; there is one
      exactly when every needed package is installed, and a failure names one that is not. */
  method Closure(lines: seq<Line>, dists: map<string, Dist>) returns (top: seq<string>, r: Result<map<string, string>>)
    ensures top == NamesOf(lines)
    ensures r == Visit(dists, Tops(lines), map[])
    ensures r.Success? ==> forall n :: n in r.value <==> IsNeeded(lines, dists, n)
    ensures r.Success? ==> forall n :: n in r.value ==> n in dists && r.value[n] == dists[n].version
    ensures r.Raised? ==> exists n :: r.message == MissingMessage(n) && n !in dists && IsNeeded(lines, dists, n)
    ensures r.Success? <==> forall n :: IsNeeded(lines, dists, n) ==> n in dists
  {
    hide IsNeeded, Requires, NamesOf, IsEnabled, MissingMessage, Added, Tops;
    var pending: seq<Entry>;
    top, pending := ReadLines(lines);
    var seen: set<string> := {};
    var resolved: map<string, string> := map[];
    StartInProgress(lines, dists);
    while pending != []
      invariant seen == resolved.Keys && seen <= dists.Keys
      invariant Visit(dists, pending, resolved) == Visit(dists, Tops(lines), map[])
      invariant InProgress(lines, dists, pending, resolved)
      decreases dists.Keys - seen, |pending|
    {
      hide InProgress;
      var entry := pending[0];
      ghost var before := pending;
      pending := pending[1..];
      if entry.name in seen {
        SkipKeeps(lines, dists, before, resolved);
        continue;
      }
      if entry.name !in dists {
        HeadIsNeeded(lines, dists, before, resolved);
        return top, Raised(MissingMessage(entry.name));
      }
      var dist := dists[entry.name];
      var added := EnabledEntries(dist, entry.extras);
      VisitKeeps(lines, dists, before, resolved);
      seen := seen + {entry.name};
      resolved := resolved[entry.name := dist.version];
      pending := pending + added;
    }
    ResolvedIsNeeded(lines, dists, resolved);
    return top, Success(resolved);
  }

  method ReadLines(lines: seq<Line>) returns (top: seq<string>, pending: seq<Entry>)
    ensures top == NamesOf(lines) && pending == Tops(lines)
  {
    top := [];
    var extras: map<string, set<Extra>> := map[];
    for i := 0 to |lines|
      invariant |top| == i && forall j :: 0 <= j < i ==> top[j] == lines[j].name
      invariant forall n, e :: n in extras && e in extras[n] ==> exists j :: 0 <= j < i && lines[j].name == n && e in lines[j].extras
      invariant forall j, e :: 0 <= j < i && e in lines[j].extras ==> lines[j].name in extras && e in extras[lines[j].name]
    {
      var line := lines[i];
      top := top + [line.name];
      if line.extras != {} {
        extras := extras[line.name := (if line.name in extras then extras[line.name] else {}) + line.extras];
      }
    }
    pending := [];
    for i := 0 to |top|
      invariant |pending| == i
      invariant forall j :: 0 <= j < i ==> pending[j] == Entry(lines[j].name, ExtrasOf(lines, lines[j].name))
    {
      var mine := if top[i] in extras then extras[top[i]] else {};
      assert mine == ExtrasOf(lines, top[i]);
      pending := pending + [Entry(top[i], mine)];
    }
  }

  method EnabledEntries(dist: Dist, extras: set<Extra>) returns (added: seq<Entry>)
    ensures added == Added(dist.requirements, extras)
  {
    hide Added, ExtraMarkerHolds;
    added := [];
    assert dist.requirements[0..] == dist.requirements;
    for i := 0 to |dist.requirements|
      invariant added + Added(dist.requirements[i..], extras) == Added(dist.requirements, extras)
    {
      var req := dist.requirements[i];
      AddedFrom(dist.requirements, extras, i);
      if req.mentionsExtra && !exists e :: e in extras && ExtraMarkerHolds(e) {
        continue;
      }
      if !req.marker(NO_EXTRA) {
        continue;
      }
      added := added + [Entry(req.name, extras)];
    }
    assert dist.requirements[|dist.requirements|..] == [];
    NothingAdded(extras);
  }

  lemma AddedFrom(requirements: seq<Requirement>, extras: set<Extra>, i: nat)
    requires i < |requirements|
    ensures Added(requirements[i..], extras) ==
            (if IsEnabled(requirements[i], extras) then [Entry(requirements[i].name, extras)] else [])
            + Added(requirements[i + 1..], extras)
  {
    assert requirements[i..][1..] == requirements[i + 1..];
  }

  lemma NothingAdded(extras: set<Extra>)
    ensures Added([], extras) == []
  {
  }

  ghost predicate AddedBy(requirements: seq<Requirement>, entry: Entry) {
    exists j :: 0 <= j < |requirements| && requirements[j].name == entry.name && IsFollowed(requirements[j])
  }

  lemma {:induction false} AddedAreFollowed(requirements: seq<Requirement>, extras: set<Extra>)
    ensures forall i :: 0 <= i < |Added(requirements, extras)| ==> AddedBy(requirements, Added(requirements, extras)[i])
    ensures forall j :: 0 <= j < |requirements| && IsFollowed(requirements[j]) ==>
                          IsWaiting(Added(requirements, extras), requirements[j].name)
  {
    hide IsEnabled, IsFollowed;
    if requirements != [] {
      var rest := requirements[1..];
      AddedAreFollowed(rest, extras);
      OnlyPlainRequirementsAreFollowed(requirements[0], extras);
      var head: seq<Entry> := if IsEnabled(requirements[0], extras) then [Entry(requirements[0].name, extras)] else [];
      var added := head + Added(rest, extras);
      forall i | 0 <= i < |added|
        ensures AddedBy(requirements, added[i])
      {
        if i >= |head| {
          assert AddedBy(rest, added[i]);
          var j :| 0 <= j < |rest| && rest[j].name == added[i].name && IsFollowed(rest[j]);
          assert requirements[j + 1] == rest[j];
        }
      }
      forall j | 0 <= j < |requirements| && IsFollowed(requirements[j])
        ensures IsWaiting(added, requirements[j].name)
      {
        if j == 0 {
          assert head[0].name == requirements[0].name;
        } else {
          assert requirements[j] == rest[j - 1];
        }
        WaitsInSum(head, Added(rest, extras), requirements[j].name);
      }
    }
  }

  lemma StartInProgress(lines: seq<Line>, dists: map<string, Dist>)
    ensures InProgress(lines, dists, Tops(lines), map[])
  {
    hide IsNeeded, Requires;
    var pending := Tops(lines);
    forall i | 0 <= i < |pending|
      ensures IsNeeded(lines, dists, pending[i].name)
    {
      assert NamesOf(lines)[i] == lines[i].name;
      TopIsNeeded(lines, dists, lines[i].name);
    }
    forall n | n in NamesOf(lines)
      ensures IsWaiting(pending, n)
    {
      var i :| 0 <= i < |lines| && NamesOf(lines)[i] == n;
      assert pending[i].name == n;
    }
  }

  lemma HeadIsNeeded(lines: seq<Line>, dists: map<string, Dist>, pending: seq<Entry>, resolved: map<string, string>)
    requires pending != [] && InProgress(lines, dists, pending, resolved)
    ensures IsNeeded(lines, dists, pending[0].name)
  {
    hide IsNeeded, Requires, NamesOf;
  }

  lemma TailWaits(pending: seq<Entry>, name: string)
    requires pending != [] && IsWaiting(pending, name) && pending[0].name != name
    ensures IsWaiting(pending[1..], name)
  {
  }

  /** Dropping an entry whose package is already resolved. */
  lemma SkipKeeps(lines: seq<Line>, dists: map<string, Dist>, pending: seq<Entry>, resolved: map<string, string>)
    requires pending != [] && InProgress(lines, dists, pending, resolved)
    requires pending[0].name in resolved
    ensures InProgress(lines, dists, pending[1..], resolved)
  {
    hide IsNeeded, Requires, NamesOf, IsWaiting;
    forall m | IsWaiting(pending, m)
      ensures m in resolved || IsWaiting(pending[1..], m)
    {
      if m != pending[0].name {
        TailWaits(pending, m);
      }
    }
  }

  /** Resolving an entry and queueing what it requires. */
  lemma VisitKeeps(lines: seq<Line>, dists: map<string, Dist>, pending: seq<Entry>, resolved: map<string, string>)
    requires pending != [] && InProgress(lines, dists, pending, resolved)
    requires pending[0].name in dists && pending[0].name !in resolved
    ensures
      var name := pending[0].name;
      InProgress(lines, dists, pending[1..] + Added(dists[name].requirements, pending[0].extras),
                 resolved[name := dists[name].version])
  {
    hide IsNeeded, Requires, NamesOf, IsWaiting, Added;
    var name := pending[0].name;
    var added := Added(dists[name].requirements, pending[0].extras);
    var resolved' := resolved[name := dists[name].version];
    forall i | 0 <= i < |pending[1..] + added|
      ensures IsNeeded(lines, dists, (pending[1..] + added)[i].name)
    {
      if i >= |pending| - 1 {
        AddedIsRequired(dists, pending[0], i - (|pending| - 1));
        RequiredIsNeeded(lines, dists, name, added[i - (|pending| - 1)].name);
      }
    }
    forall m | IsWaiting(pending, m)
      ensures m in resolved' || IsWaiting(pending[1..] + added, m)
    {
      if m != name {
        TailWaits(pending, m);
        WaitsInSum(pending[1..], added, m);
      }
    }
    forall m | Requires(dists, name, m)
      ensures IsWaiting(pending[1..] + added, m)
    {
      RequiredIsAdded(dists, pending[0], m);
      WaitsInSum(pending[1..], added, m);
    }
  }

  lemma AddedIsRequired(dists: map<string, Dist>, entry: Entry, i: nat)
    requires entry.name in dists && i < |Added(dists[entry.name].requirements, entry.extras)|
    ensures Requires(dists, entry.name, Added(dists[entry.name].requirements, entry.extras)[i].name)
  {
    hide IsFollowed, Added, IsWaiting;
    AddedAreFollowed(dists[entry.name].requirements, entry.extras);
    assert AddedBy(dists[entry.name].requirements, Added(dists[entry.name].requirements, entry.extras)[i]);
  }

  lemma RequiredIsAdded(dists: map<string, Dist>, entry: Entry, m: string)
    requires entry.name in dists && Requires(dists, entry.name, m)
    ensures IsWaiting(Added(dists[entry.name].requirements, entry.extras), m)
  {
    hide IsFollowed, IsWaiting, Added;
    AddedAreFollowed(dists[entry.name].requirements, entry.extras);
  }

  lemma WaitsInSum(a: seq<Entry>, b: seq<Entry>, m: string)
    requires IsWaiting(a, m) || IsWaiting(b, m)
    ensures IsWaiting(a + b, m)
  {
    if IsWaiting(a, m) {
      var i :| 0 <= i < |a| && a[i].name == m;
      assert (a + b)[i].name == m;
    } else {
      var i :| 0 <= i < |b| && b[i].name == m;
      assert (a + b)[|a| + i].name == m;
    }
  }

  /** When nothing waits any more, everything needed has been resolved. */
  lemma ResolvedIsNeeded(lines: seq<Line>, dists: map<string, Dist>, resolved: map<string, string>)
    requires InProgress(lines, dists, [], resolved)
    ensures forall n :: n in resolved <==> IsNeeded(lines, dists, n)
    ensures forall n :: n in resolved ==> n in dists && resolved[n] == dists[n].version
  {
    hide Requires, NamesOf, InProgress;
    assert forall n :: n in resolved ==> IsNeeded(lines, dists, n) && n in dists && resolved[n] == dists[n].version by {
      InProgressFacts(lines, dists, resolved);
    }
    forall n | IsNeeded(lines, dists, n)
      ensures n in resolved
    {
      var route :| IsRoute(lines, dists, route) && route.last == n;
      RouteIsResolved(lines, dists, resolved, route);
    }
  }

  lemma InProgressFacts(lines: seq<Line>, dists: map<string, Dist>, resolved: map<string, string>)
    requires InProgress(lines, dists, [], resolved)
    ensures forall n :: n in resolved ==> n in dists && resolved[n] == dists[n].version && IsNeeded(lines, dists, n)
    ensures forall n, m :: n in resolved && Requires(dists, n, m) ==> m in resolved
    ensures forall n :: n in NamesOf(lines) ==> n in resolved
  {
    hide IsNeeded, Requires, NamesOf;
    assert forall m :: !IsWaiting([], m);
  }

  lemma {:induction false} RouteIsResolved(
      lines: seq<Line>, dists: map<string, Dist>, resolved: map<string, string>, route: History<string>)
    requires InProgress(lines, dists, [], resolved) && IsRoute(lines, dists, route)
    ensures route.last in resolved
    decreases route
  {
    hide Requires, NamesOf, InProgress, IsNeeded;
    InProgressFacts(lines, dists, resolved);
    match route
    case Then(Start, n) =>
    case Then(before, n) => RouteIsResolved(lines, dists, resolved, before);
  }

  // ----- the closure that was promised: the extras included -----

  /** A package asked for with one of its extras, or, with the empty text, for itself. */
  datatype Ask = Ask(name: string, extra: string)

  predicate IsAskedBy(extras: set<Extra>, extra: string) {
    extra == NO_EXTRA || extra in extras
  }

  predicate IsTopAsk(lines: seq<Line>, ask: Ask) {
    exists i :: 0 <= i < |lines| && lines[i].name == ask.name && IsAskedBy(lines[i].extras, ask.extra)
  }

  predicate IsPulledBy(req: Requirement, a: Ask, b: Ask) {
    req.name == b.name && Applies(req, a.extra) && IsAskedBy(req.extras, b.extra)
  }

  predicate Pulls(dists: map<string, Dist>, a: Ask, b: Ask) {
    a.name in dists
    && exists i :: 0 <= i < |dists[a.name].requirements| && IsPulledBy(dists[a.name].requirements[i], a, b)
  }

  /** A chain of packages, each asked for by the one before with its extras taken into account. */
  predicate IsAskRoute(lines: seq<Line>, dists: map<string, Dist>, route: History<Ask>) {
    match route
    case Start => false
    case Then(Start, ask) => IsTopAsk(lines, ask)
    case Then(before, ask) => IsAskRoute(lines, dists, before) && Pulls(dists, before.last, ask)
  }

  ghost predicate IsAsked(lines: seq<Line>, dists: map<string, Dist>, ask: Ask) {
    exists route :: IsAskRoute(lines, dists, route) && route.last == ask
  }

  ghost predicate IsPromised(lines: seq<Line>, dists: map<string, Dist>, name: string) {
    exists extra :: IsAsked(lines, dists, Ask(name, extra))
  }

  lemma PulledIsAsked(lines: seq<Line>, dists: map<string, Dist>, a: Ask, b: Ask)
    requires IsAsked(lines, dists, a) && Pulls(dists, a, b)
    ensures IsAsked(lines, dists, b)
  {
    hide IsTopAsk, Pulls;
    var route :| IsAskRoute(lines, dists, route) && route.last == a;
    assert IsAskRoute(lines, dists, Then(route, b));
  }

  lemma {:induction false} RouteIsAsked(lines: seq<Line>, dists: map<string, Dist>, route: History<string>)
    requires IsRoute(lines, dists, route)
    ensures IsAsked(lines, dists, Ask(route.last, NO_EXTRA))
    decreases route
  {
    match route
    case Then(Start, n) =>
      hide Requires, Pulls;
      var i :| 0 <= i < |lines| && NamesOf(lines)[i] == n;
      assert IsTopAsk(lines, Ask(lines[i].name, NO_EXTRA));
      assert IsAskRoute(lines, dists, Then(Start, Ask(n, NO_EXTRA)));
    case Then(before, n) =>
      hide IsAsked, IsTopAsk, NamesOf;
      RouteIsAsked(lines, dists, before);
      RequiredIsPulled(dists, before.last, n);
      PulledIsAsked(lines, dists, Ask(before.last, NO_EXTRA), Ask(n, NO_EXTRA));
  }

  lemma RequiredIsPulled(dists: map<string, Dist>, a: string, b: string)
    requires Requires(dists, a, b)
    ensures Pulls(dists, Ask(a, NO_EXTRA), Ask(b, NO_EXTRA))
  {
    var i :| 0 <= i < |dists[a].requirements| && dists[a].requirements[i].name == b && IsFollowed(dists[a].requirements[i]);
    assert IsPulledBy(dists[a].requirements[i], Ask(a, NO_EXTRA), Ask(b, NO_EXTRA));
  }

  lemma NeededIsPromised(lines: seq<Line>, dists: map<string, Dist>, name: string)
    requires IsNeeded(lines, dists, name)
    ensures IsPromised(lines, dists, name)
  {
    hide IsAsked;
    var route :| IsRoute(lines, dists, route) && route.last == name;
    RouteIsAsked(lines, dists, route);
  }

  /** A requirement the script skips for the word "extra" in it, although it applies. */
  predicate IsSkippedAlthoughItApplies(req: Requirement, extra: string) {
    req.mentionsExtra && Applies(req, extra)
  }

  /** Whatever the script skips of a package it resolves, under any extra the package is asked for
      with, is needed without extras anyway. */
  ghost predicate NothingSkippedIsMissed(lines: seq<Line>, dists: map<string, Dist>) {
    forall ask, i :: IsAsked(lines, dists, ask) && IsNeeded(lines, dists, ask.name) && ask.name in dists
                     && 0 <= i < |dists[ask.name].requirements|
                     && IsSkippedAlthoughItApplies(dists[ask.name].requirements[i], ask.extra) ==>
      IsNeeded(lines, dists, dists[ask.name].requirements[i].name)
  }

  /** The script resolves the closure it promises, extras included, exactly when nothing it skips is
      missed. */
  lemma PromiseIsMetIff(lines: seq<Line>, dists: map<string, Dist>)
    ensures (forall n :: IsPromised(lines, dists, n) <==> IsNeeded(lines, dists, n)) <==> NothingSkippedIsMissed(lines, dists)
  {
    hide IsRoute, IsAskRoute, IsAsked, IsNeeded, IsPromised, NothingSkippedIsMissed;
    forall n | IsNeeded(lines, dists, n)
      ensures IsPromised(lines, dists, n)
    {
      NeededIsPromised(lines, dists, n);
    }
    if NothingSkippedIsMissed(lines, dists) {
      forall n | IsPromised(lines, dists, n)
        ensures IsNeeded(lines, dists, n)
      {
        PromisedIsNeeded(lines, dists, n);
      }
    }
    if forall n :: IsPromised(lines, dists, n) <==> IsNeeded(lines, dists, n) {
      PromiseMissesNothing(lines, dists);
    }
  }

  lemma PromiseMissesNothing(lines: seq<Line>, dists: map<string, Dist>)
    requires forall n :: IsPromised(lines, dists, n) <==> IsNeeded(lines, dists, n)
    ensures NothingSkippedIsMissed(lines, dists)
  {
    hide IsAsked, IsNeeded;
    forall ask, i | IsAsked(lines, dists, ask) && ask.name in dists && 0 <= i < |dists[ask.name].requirements|
                    && IsSkippedAlthoughItApplies(dists[ask.name].requirements[i], ask.extra)
      ensures IsNeeded(lines, dists, dists[ask.name].requirements[i].name)
    {
      var req := dists[ask.name].requirements[i];
      assert IsPulledBy(req, ask, Ask(req.name, NO_EXTRA));
      PulledIsAsked(lines, dists, ask, Ask(req.name, NO_EXTRA));
    }
  }

  lemma PromisedIsNeeded(lines: seq<Line>, dists: map<string, Dist>, name: string)
    requires NothingSkippedIsMissed(lines, dists) && IsPromised(lines, dists, name)
    ensures IsNeeded(lines, dists, name)
  {
    hide NothingSkippedIsMissed, IsNeeded;
    var extra :| IsAsked(lines, dists, Ask(name, extra));
    var route :| IsAskRoute(lines, dists, route) && route.last == Ask(name, extra);
    AskRouteIsNeeded(lines, dists, route);
  }

  lemma {:induction false} AskRouteIsNeeded(lines: seq<Line>, dists: map<string, Dist>, route: History<Ask>)
    requires NothingSkippedIsMissed(lines, dists) && IsAskRoute(lines, dists, route)
    ensures IsNeeded(lines, dists, route.last.name)
    decreases route
  {
    hide IsNeeded, Requires;
    match route
    case Then(Start, ask) =>
      hide NothingSkippedIsMissed;
      var i :| 0 <= i < |lines| && lines[i].name == ask.name;
      assert NamesOf(lines)[i] == ask.name;
      TopIsNeeded(lines, dists, ask.name);
    case Then(before, ask) =>
      hide IsTopAsk, NamesOf;
      AskRouteIsNeeded(lines, dists, before);
      var a := before.last;
      assert IsAsked(lines, dists, a);
      var i :| 0 <= i < |dists[a.name].requirements| && IsPulledBy(dists[a.name].requirements[i], a, ask);
      var req := dists[a.name].requirements[i];
      if !req.mentionsExtra {
        FollowedIsRequired(dists, a.name, i);
        RequiredIsNeeded(lines, dists, a.name, req.name);
      } else {
        assert IsSkippedAlthoughItApplies(req, a.extra);
      }
  }

  lemma FollowedIsRequired(dists: map<string, Dist>, a: string, i: nat)
    requires a in dists && i < |dists[a].requirements| && IsFollowed(dists[a].requirements[i])
    ensures Requires(dists, a, dists[a].requirements[i].name)
  {
  }

  /** The shape of `uvicorn[standard]`: a line that asks for an extra, and a package that requires
      another one under it. The script stops at the first. */
  lemma ExtraOfALineIsIgnored(marker: string -> bool)
    requires forall x :: marker(x) <==> x == "standard"
    ensures
      var lines := [Line("uvicorn", {"standard"})];
      var dists := map["uvicorn" := Dist("0.34.0", [Requirement("httptools", {}, true, marker)]),
                       "httptools" := Dist("0.6.4", [])];
      && IsPromised(lines, dists, "httptools")
      && !IsNeeded(lines, dists, "httptools")
  {
    var lines := [Line("uvicorn", {"standard"})];
    var req := Requirement("httptools", {}, true, marker);
    var dists := map["uvicorn" := Dist("0.34.0", [req]), "httptools" := Dist("0.6.4", [])];
    SkippedIsMissed(lines, dists, req, Ask("uvicorn", "standard"));
  }

  /** The guard looks for a word, not for a marker: a requirement on a package that merely has
      "extra" in its name is skipped as well. */
  lemma NameWithExtraIsIgnored(marker: string -> bool)
    requires forall x :: marker(x)
    ensures
      var lines := [Line("app", {})];
      var dists := map["app" := Dist("1", [Requirement("sphinx-extras", {}, true, marker)]),
                       "sphinx-extras" := Dist("1", [])];
      && IsPromised(lines, dists, "sphinx-extras")
      && !IsNeeded(lines, dists, "sphinx-extras")
  {
    var lines := [Line("app", {})];
    var req := Requirement("sphinx-extras", {}, true, marker);
    var dists := map["app" := Dist("1", [req]), "sphinx-extras" := Dist("1", [])];
    SkippedIsMissed(lines, dists, req, Ask("app", NO_EXTRA));
  }

  /** A file of one line, whose package has one requirement: when it is skipped although it applies,
      it is promised and not needed. */
  lemma SkippedIsMissed(lines: seq<Line>, dists: map<string, Dist>, req: Requirement, ask: Ask)
    requires |lines| == 1 && lines[0].name == ask.name && IsAskedBy(lines[0].extras, ask.extra)
    requires ask.name in dists && dists[ask.name].requirements == [req]
    requires IsSkippedAlthoughItApplies(req, ask.extra) && req.name != ask.name
    ensures IsPromised(lines, dists, req.name) && !IsNeeded(lines, dists, req.name)
  {
    assert IsTopAsk(lines, ask);
    assert IsAskRoute(lines, dists, Then(Start, ask));
    assert dists[ask.name].requirements[0] == req && IsPulledBy(req, ask, Ask(req.name, NO_EXTRA));
    PulledIsAsked(lines, dists, ask, Ask(req.name, NO_EXTRA));
    forall route | IsRoute(lines, dists, route)
      ensures route.last == ask.name
    {
      RouteStays(lines, dists, req, ask.name, route);
    }
  }

  lemma {:induction false} RouteStays(lines: seq<Line>, dists: map<string, Dist>, req: Requirement, name: string, route: History<string>)
    requires |lines| == 1 && lines[0].name == name && name in dists && dists[name].requirements == [req] && req.mentionsExtra
    requires IsRoute(lines, dists, route)
    ensures route.last == name
    decreases route
  {
    match route
    case Then(Start, n) =>
    case Then(before, n) => RouteStays(lines, dists, req, name, before);
  }

  // ----- the listing -----

  /** Python's order on strings. */
  predicate IsAtMost(a: string, b: string) {
    a == [] || (b != [] && (a[0] < b[0] || (a[0] == b[0] && IsAtMost(a[1..], b[1..]))))
  }

  lemma {:induction false} OrderIsTotal(a: string, b: string)
    ensures IsAtMost(a, b) || IsAtMost(b, a)
    ensures IsAtMost(a, b) && IsAtMost(b, a) ==> a == b
  {
    if a != [] && b != [] && a[0] == b[0] {
      OrderIsTotal(a[1..], b[1..]);
      assert a == [a[0]] + a[1..] && b == [b[0]] + b[1..];
    }
  }

  lemma {:induction false} OrderIsTransitive(a: string, b: string, c: string)
    requires IsAtMost(a, b) && IsAtMost(b, c)
    ensures IsAtMost(a, c)
  {
    if a != [] && b != [] && c != [] && a[0] == b[0] == c[0] {
      OrderIsTransitive(a[1..], b[1..], c[1..]);
    }
  }

  predicate IsLeast(names: set<string>, least: string) {
    least in names && forall n :: n in names ==> IsAtMost(least, n)
  }

  lemma {:induction false} LeastExists(names: set<string>)
    requires names != {}
    ensures exists least :: IsLeast(names, least)
  {
    var x :| x in names;
    OrderIsTotal(x, x);
    if names == {x} {
      assert IsLeast(names, x);
    } else {
      LeastExists(names - {x});
      var y :| IsLeast(names - {x}, y);
      OrderIsTotal(x, y);
      if IsAtMost(y, x) {
        assert IsLeast(names, y);
      } else {
        forall n | n in names
          ensures IsAtMost(x, n)
        {
          if n != x {
            OrderIsTransitive(x, y, n);
          }
        }
        assert IsLeast(names, x);
      }
    }
  }

  lemma LeastIsUnique(names: set<string>)
    ensures forall a, b :: IsLeast(names, a) && IsLeast(names, b) ==> a == b
  {
    hide IsAtMost;
    forall a, b | IsLeast(names, a) && IsLeast(names, b)
      ensures a == b
    {
      OrderIsTotal(a, b);
    }
  }

  /** `s` lists exactly `names`, each once, in ascending order. */
  ghost predicate IsSortedListing(s: seq<string>, names: set<string>) {
    && (forall n :: n in s <==> n in names)
    && forall i, j :: 0 <= i < j < |s| ==> s[i] != s[j] && IsAtMost(s[i], s[j])
  }

  lemma LeastFirst(names: set<string>, least: string, rest: seq<string>)
    requires IsLeast(names, least) && IsSortedListing(rest, names - {least})
    ensures IsSortedListing([least] + rest, names)
  {
  }

  function Sorted(names: set<string>): (s: seq<string>)
    ensures IsSortedListing(s, names)
    decreases |names|
  {
    if names == {} then []
    else
      LeastExists(names);
      LeastIsUnique(names);
      var least :| IsLeast(names, least);
      var rest := Sorted(names - {least});
      LeastFirst(names, least, rest);
      [least] + rest
  }

  /** The wheels in the cache: the versions found for each package. */
  type Wheels = map<string, set<string>>

  /** A wheel of the installed version of a package is cached. */
  predicate HasWheel(resolved: map<string, string>, wheels: Wheels, name: string) {
    name in resolved && name in wheels && resolved[name] in wheels[name]
  }

  predicate AreCached(resolved: map<string, string>, wheels: Wheels) {
    forall n :: n in resolved ==> HasWheel(resolved, wheels, n)
  }

  /** Lists the given packages, unless one has no wheel of the installed version. */
  method PickAll(names: seq<string>, resolved: map<string, string>, wheels: Wheels) returns (picked: Option<seq<string>>)
    ensures picked.Some? <==> forall n :: n in names ==> HasWheel(resolved, wheels, n)
    ensures picked.Some? ==> picked.value == names
  {
    var listed := [];
    for i := 0 to |names|
      invariant listed == names[..i]
      invariant forall j :: 0 <= j < i ==> HasWheel(resolved, wheels, names[j])
    {
      if !HasWheel(resolved, wheels, names[i]) {
        return None;
      }
      listed := listed + [names[i]];
    }
    return Some(listed);
  }

  /** The packages the file pins, in the order of its lines: the top packages as the requirements
      file lists them, then the others in ascending order; nothing without wheels, or when one of
      the installed version is missing. */
  method ListMembers(top: seq<string>, resolved: map<string, string>, wheels: Wheels) returns (members: Option<seq<string>>)
    requires forall n :: n in top ==> n in resolved
    ensures members.Some? <==>
              wheels != map[] && forall n :: n in resolved ==> n in wheels && resolved[n] in wheels[n]
    ensures members.Some? ==> top <= members.value && IsSortedListing(members.value[|top|..], resolved.Keys - Set(top))
  {
    hide IsSortedListing;
    assert AreCached(resolved, wheels) <==> forall n :: n in resolved ==> n in wheels && resolved[n] in wheels[n];
    hide HasWheel;
    if wheels == map[] {
      return None;
    }
    if resolved.Keys - wheels.Keys != {} {
      MissingIsNotCached(resolved, wheels);
      return None;
    }
    var others := Sorted(resolved.Keys - Set(top));
    SortedHasAll(resolved.Keys - Set(top));
    var first := PickAll(top, resolved, wheels);
    if first.None? {
      return None;
    }
    var rest := PickAll(others, resolved, wheels);
    if rest.None? {
      return None;
    }
    assert (top + others)[|top|..] == others;
    return Some(first.value + rest.value);
  }

  lemma MissingIsNotCached(resolved: map<string, string>, wheels: Wheels)
    requires resolved.Keys - wheels.Keys != {}
    ensures !AreCached(resolved, wheels)
  {
    var n :| n in resolved.Keys - wheels.Keys;
    assert !HasWheel(resolved, wheels, n);
  }

  lemma SortedHasAll(names: set<string>)
    ensures forall n :: n in Sorted(names) <==> n in names
  {
  }

  function Set(s: seq<string>): set<string> {
    set n | n in s
  }

  /** Every resolved package is listed, nothing else is, and each exactly once if and only if no
      line of the requirements file repeats a package. */
  lemma ListedOnceIff(top: seq<string>, resolved: map<string, string>, members: seq<string>)
    requires forall n :: n in top ==> n in resolved
    requires top <= members && IsSortedListing(members[|top|..], resolved.Keys - Set(top))
    ensures forall n :: n in members <==> n in resolved
    ensures (forall i, j :: 0 <= i < j < |members| ==> members[i] != members[j])
            <==> (forall i, j :: 0 <= i < j < |top| ==> top[i] != top[j])
  {
    hide IsAtMost;
    var others := members[|top|..];
    assert members == top + others;
    assert forall i :: 0 <= i < |top| ==> members[i] == top[i];
    assert forall n :: n in members <==> n in top || n in others;
    forall i, j | 0 <= i < j < |members| && j >= |top|
      ensures members[i] != members[j]
    {
      assert members[j] == others[j - |top|] && members[j] in others;
      if i >= |top| {
        assert members[i] == others[i - |top|];
      } else {
        assert members[i] in top;
      }
    }
  }
}
