/** The stages a repository declares in `.platform.yml`: which files are accepted, what the
    accepted stages are, and what the rest of the pipeline may rely on about them.

    The file is taken after YAML decoding. Whether an image reference is well-formed is left to
    a predicate of the caller's. */
module PipelineConfig {
  import opened Wrappers
  import opened Text
  import LogMarkers

  const MAX_STAGES: nat := 20
  const MAX_NAME_LENGTH: nat := 60
  const MAX_COMMAND_LENGTH: nat := 2000

  /** A `run:` value; YAML reads bare words such as `true` or `1` as something else than text. */
  datatype RunValue = NumberOrBool | Command(text: string) | NoText

  datatype ImageValue = Unset | Image(text: string) | NotText

  /** A list entry. `name` is the text of its name, empty when there is none. */
  datatype Entry = NotAMapping | Entry(name: string, run: RunValue, image: ImageValue)

  datatype Document = NoFile | Unreadable | NotMapping | NoStages | StagesNotAList | Declared(entries: seq<Entry>)

  datatype Stage = Stage(name: string, command: string, image: string)

  predicate IsStageNameChar(c: char) {
    IsDigit(c) || 'a' <= c <= 'z' || 'A' <= c <= 'Z' || c in {' ', '.', '_', ':', '+', '/', '(', ')', '-'}
  }

  predicate IsStageName(name: string) {
    1 <= |name| <= MAX_NAME_LENGTH && forall i :: 0 <= i < |name| ==> IsStageNameChar(name[i])
  }

  function Clean(text: string): string {
    Strip(text, IsSpace)
  }

  function ImageOf(image: ImageValue): string {
    if image.Image? then Clean(image.text) else ""
  }

  /** An entry that is fine on its own. */
  predicate IsSound(entry: Entry, isImage: string -> bool) {
    && entry.Entry?
    && IsStageName(Clean(entry.name))
    && entry.run.Command? && Clean(entry.run.text) != "" && |entry.run.text| <= MAX_COMMAND_LENGTH
    && !entry.image.NotText?
    && (ImageOf(entry.image) == "" || isImage(ImageOf(entry.image)))
  }

  function StageOf(entry: Entry): Stage
    requires entry.Entry? && entry.run.Command?
  {
    Stage(Clean(entry.name), Clean(entry.run.text), ImageOf(entry.image))
  }

  predicate SameName(a: Entry, b: Entry) {
    a.Entry? && b.Entry? && Lower(Clean(a.name)) == Lower(Clean(b.name))
  }

  predicate AreSound(entries: seq<Entry>, n: nat, isImage: string -> bool)
    requires n <= |entries|
  {
    && (forall i :: 0 <= i < n ==> IsSound(entries[i], isImage))
    && (forall i, j :: 0 <= i < j < n ==> !SameName(entries[i], entries[j]))
  }

  /** A file that can be honoured as written. */
  predicate IsAcceptable(doc: Document, isImage: string -> bool) {
    match doc
    case NoFile => true
    case NoStages => true
    case Declared(entries) => |entries| <= MAX_STAGES && AreSound(entries, |entries|, isImage)
    case _ => false
  }

  /** The condition, written out for one list: at most 20 entries; each a mapping with a name of 1 to
      60 letters, digits, blanks and `._:+/()-` between the white space around it, a text to run that
      is not blank and at most 2000 long, and no image or one that is a reference; and no two names
      the same in lower case. */
  lemma AcceptableIff(entries: seq<Entry>, isImage: string -> bool)
    ensures IsAcceptable(Declared(entries), isImage) <==>
            && |entries| <= 20
            && (forall i :: 0 <= i < |entries| ==> IsUsable(entries[i], isImage))
            && (forall i, j :: 0 <= i < j < |entries| ==>
                  Lower(Strip(entries[i].name, IsSpace)) != Lower(Strip(entries[j].name, IsSpace)))
  {
    hide Strip, Lower;
    forall i | 0 <= i < |entries|
      ensures IsSound(entries[i], isImage) <==> IsUsable(entries[i], isImage)
    {
    }
    forall i, j | 0 <= i < j < |entries| && entries[i].Entry? && entries[j].Entry?
      ensures SameName(entries[i], entries[j]) <==>
              Lower(Strip(entries[i].name, IsSpace)) == Lower(Strip(entries[j].name, IsSpace))
    {
    }
  }

  predicate IsUsable(entry: Entry, isImage: string -> bool) {
    && entry.Entry?
    && (var name := Strip(entry.name, IsSpace);
        && 1 <= |name| <= 60
        && forall i :: 0 <= i < |name| ==>
             'a' <= name[i] <= 'z' || 'A' <= name[i] <= 'Z' || '0' <= name[i] <= '9'
             || name[i] in {' ', '.', '_', ':', '+', '/', '(', ')', '-'})
    && entry.run.Command? && Strip(entry.run.text, IsSpace) != "" && |entry.run.text| <= 2000
    && (entry.image == Unset
        || (entry.image.Image? && (var image := Strip(entry.image.text, IsSpace); image == "" || isImage(image))))
  }

  function EntriesOf(doc: Document): seq<Entry> {
    if doc.Declared? then doc.entries else []
  }

  /** `stages` are the first entries, cleaned, in file order. */
  predicate AreStagesOf(stages: seq<Stage>, entries: seq<Entry>) {
    && |stages| <= |entries|
    && forall i :: 0 <= i < |stages| ==> entries[i].Entry? && entries[i].run.Command? && stages[i] == StageOf(entries[i])
  }

  ghost predicate AreSeen(seen: set<string>, entries: seq<Entry>, n: nat)
    requires n <= |entries|
  {
    forall s :: s in seen <==> exists i :: 0 <= i < n && entries[i].Entry? && Lower(Clean(entries[i].name)) == s
  }

  method LoadStages(doc: Document, isImage: string -> bool) returns (r: Result<seq<Stage>>)
    ensures r.Success? <==> IsAcceptable(doc, isImage)
    ensures r.Success? ==> |r.value| == |EntriesOf(doc)| && AreStagesOf(r.value, EntriesOf(doc))
  {
    hide Clean, IsStageName;
    match doc
    case NoFile => return Success([]);
    case NoStages => return Success([]);
    case Unreadable => return Raised("not valid YAML");
    case NotMapping => return Raised("must be a mapping");
    case StagesNotAList => return Raised("'stages' must be a list");
    case Declared(entries) =>
      if |entries| > MAX_STAGES {
        return Raised("too many stages declared");
      }
      var stages: seq<Stage> := [];
      var seen: set<string> := {};
      for position := 0 to |entries|
        invariant |stages| == position && AreStagesOf(stages, entries)
        invariant AreSound(entries, position, isImage) && AreSeen(seen, entries, position)
      {
        hide AreStagesOf, AreSeen;
        var entry := entries[position];
        if entry.NotAMapping? {
          return Raised("stage must be a mapping");
        }
        var name := Clean(entry.name);
        if name == "" {
          NamesAreNotEmpty(name);
          return Raised("stage is missing 'name'");
        }
        if !IsStageName(name) {
          return Raised("stage name must be 1-60 printable characters");
        }
        if Lower(name) in seen {
          SeenIsRepeated(seen, entries, position);
          return Raised("duplicate stage name");
        }
        SeenSnoc(seen, entries, position);
        seen := seen + {Lower(name)};
        if entry.run.NumberOrBool? {
          return Raised("stage has a non-string 'run'");
        }
        if !entry.run.Command? || Clean(entry.run.text) == "" {
          return Raised("stage is missing 'run'");
        }
        if |entry.run.text| > MAX_COMMAND_LENGTH {
          return Raised("stage command is too long");
        }
        if entry.image.NotText? {
          return Raised("stage has a non-string 'image'");
        }
        var image := ImageOf(entry.image);
        if image != "" && !isImage(image) {
          return Raised("stage image is not a valid image reference");
        }
        StagesSnoc(stages, entries);
        stages := stages + [Stage(name, Clean(entry.run.text), image)];
      }
      return Success(stages);
  }

  lemma NamesAreNotEmpty(name: string)
    ensures name == "" ==> !IsStageName(name)
  {
  }

  lemma SeenIsRepeated(seen: set<string>, entries: seq<Entry>, n: nat)
    requires n < |entries| && entries[n].Entry? && AreSeen(seen, entries, n)
    ensures Lower(Clean(entries[n].name)) in seen <==> exists i :: 0 <= i < n && SameName(entries[i], entries[n])
  {
    hide Clean, Lower;
    if Lower(Clean(entries[n].name)) in seen {
      var i :| 0 <= i < n && entries[i].Entry? && Lower(Clean(entries[i].name)) == Lower(Clean(entries[n].name));
      assert SameName(entries[i], entries[n]);
    }
  }

  lemma SeenSnoc(seen: set<string>, entries: seq<Entry>, n: nat)
    requires n < |entries| && entries[n].Entry? && AreSeen(seen, entries, n)
    requires Lower(Clean(entries[n].name)) !in seen
    ensures AreSeen(seen + {Lower(Clean(entries[n].name))}, entries, n + 1)
    ensures forall i :: 0 <= i < n ==> !SameName(entries[i], entries[n])
  {
    hide Clean, Lower;
    SeenIsRepeated(seen, entries, n);
    var last := Lower(Clean(entries[n].name));
    forall s
      ensures s in seen + {last} <==> exists i :: 0 <= i < n + 1 && entries[i].Entry? && Lower(Clean(entries[i].name)) == s
    {
      if s in seen {
        var i :| 0 <= i < n && entries[i].Entry? && Lower(Clean(entries[i].name)) == s;
        assert entries[i].Entry? && Lower(Clean(entries[i].name)) == s;
      } else if s == last {
        assert entries[n].Entry? && Lower(Clean(entries[n].name)) == s;
      }
    }
  }

  lemma StagesSnoc(stages: seq<Stage>, entries: seq<Entry>)
    requires AreStagesOf(stages, entries) && |stages| < |entries|
    requires entries[|stages|].Entry? && entries[|stages|].run.Command?
    ensures AreStagesOf(stages + [StageOf(entries[|stages|])], entries)
  {
    hide StageOf;
  }

  // ----- what the pipeline may rely on -----

  function NamesOf(stages: seq<Stage>): seq<string> {
    seq(|stages|, i requires 0 <= i < |stages| => stages[i].name)
  }

  /** Accepted stages are few enough for their task names to be distinct, are what the entries hold
      but for white space at the ends, and are called differently from each other, whatever the case
      of the letters. */
  lemma AcceptedStagesFit(doc: Document, isImage: string -> bool, stages: seq<Stage>)
    requires IsAcceptable(doc, isImage)
    requires |stages| == |EntriesOf(doc)| && AreStagesOf(stages, EntriesOf(doc))
    ensures |stages| <= 20 && |Decimal(|stages|)| <= 2
    ensures forall i :: 0 <= i < |stages| ==>
              var entry := EntriesOf(doc)[i];
              && entry.Entry? && entry.run.Command?
              && stages[i].name == Strip(entry.name, IsSpace) && 1 <= |stages[i].name| <= 60
              && stages[i].command == Strip(entry.run.text, IsSpace) && |stages[i].command| <= 2000
              && stages[i].image == if entry.image.Image? then Strip(entry.image.text, IsSpace) else ""
    ensures forall i, j :: 0 <= i < j < |stages| ==> Lower(stages[i].name) != Lower(stages[j].name)
  {
  }

  /** The name of an accepted stage can be printed as a step marker and read back. */
  lemma AcceptedNamesAreReadable(doc: Document, isImage: string -> bool, stages: seq<Stage>)
    requires IsAcceptable(doc, isImage)
    requires |stages| == |EntriesOf(doc)| && AreStagesOf(stages, EntriesOf(doc))
    ensures forall i :: 0 <= i < |stages| ==> LogMarkers.OneLine(NamesOf(stages)[i])
  {
    hide Clean, IsStageName, LogMarkers.OneLine;
    forall i | 0 <= i < |stages|
      ensures LogMarkers.OneLine(NamesOf(stages)[i])
    {
      assert IsSound(EntriesOf(doc)[i], isImage);
      StageNameIsOneLine(EntriesOf(doc)[i].name);
    }
  }

  lemma StageNameIsOneLine(raw: string)
    requires IsStageName(Clean(raw))
    ensures LogMarkers.OneLine(Clean(raw))
  {
    var name := Clean(raw);
    assert forall c :: c in name ==> IsStageNameChar(c);
  }
}
