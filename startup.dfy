/**
 * The start-up logic of main.py: the background-colour menu, the prompt that
 * decides whether existing output is deleted, the resume scan that recovers
 * source stems from output file names, the split of the input videos into
 * already-processed and still-to-scan by stem, and the order in which the
 * scanner and the processor are then run.
 */
module Startup {
  import opened Wrappers
  import opened Text
  import opened Config
  import opened Detection
  import opened Writer
  import opened Processor
  import Scanner

  // ---------------------------------------------------------------------------
  // select_background_color
  // ---------------------------------------------------------------------------

  /** The menu of main.py lines 17-23: key to BGR colour. */
  const Menu: map<string, Bgr> := map[
    "1" := Bgr(0, 255, 0),
    "2" := Bgr(0, 0, 0),
    "3" := Bgr(255, 255, 255),
    "4" := Bgr(255, 0, 0),
    "5" := Bgr(255, 0, 255)]

  /** `select_background_color`: the colour of the stripped answer, or the colour of key "2". */
  function SelectBackgroundColor(line: string): (c: Bgr)
    ensures c in Menu.Values
  {
    var choice := Strip(line);
    if choice in Menu then Menu[choice] else Menu["2"]
  }

  /**
   * Black is chosen exactly when the stripped answer is not one of the
   * other four keys, and every other key gives its own colour.
   */
  lemma BackgroundColorChoice(line: string)
    ensures SelectBackgroundColor(line) == Black <==> Strip(line) !in {"1", "3", "4", "5"}
    ensures forall k :: k in Menu && Strip(line) == k ==> SelectBackgroundColor(line) == Menu[k]
  {
  }

  /** No two menu keys share a colour, so the chosen colour identifies the key. */
  lemma ColorIdentifiesChoice(a: string, b: string)
    requires Strip(a) in Menu && Strip(b) in Menu
    requires SelectBackgroundColor(a) == SelectBackgroundColor(b)
    ensures Strip(a) == Strip(b)
  {
  }

  // ---------------------------------------------------------------------------
  // The delete prompt
  // ---------------------------------------------------------------------------

  /** The typed line as the prompt compares it: stripped, then lower-cased. */
  function Choice(line: string): string {
    Lower(Strip(line))
  }

  /** What a choice means (the two membership tests of main.py lines 53-58): yes, no, or ask again. */
  function AnswerOf(choice: string): Option<bool> {
    if choice == "y" || choice == "yes" then Some(true)
    else if choice == "n" || choice == "no" then Some(false)
    else None
  }

  /** One answer to the delete prompt. */
  function Answer(line: string): Option<bool> {
    AnswerOf(Choice(line))
  }

  /** The decision the prompt reaches on these input lines; None when input ends first. */
  function FirstAnswer(lines: seq<string>): Option<bool>
    decreases |lines|
  {
    if lines == [] then None
    else if Answer(lines[0]).Some? then Answer(lines[0])
    else FirstAnswer(lines[1..])
  }

  /** Reading one more line either settles the prompt or leaves it to the lines after. */
  lemma FirstAnswerStep(lines: seq<string>, read: nat)
    requires read < |lines|
    ensures FirstAnswer(lines[read..])
      == if Answer(lines[read]).Some? then Answer(lines[read]) else FirstAnswer(lines[read + 1..])
  {
    assert lines[read..][0] == lines[read] && lines[read..][1..] == lines[read + 1..];
  }

  /**
   * The `while True` loop of main.py lines 51-58 over the lines typed in:
   * re-prompt until an answer is yes or no. `read` is the number of lines
   * consumed; when the input ends first (`EOFError`), the answer is None.
   */
  method AskDelete(lines: seq<string>) returns (answer: Option<bool>, read: nat)
    ensures answer == FirstAnswer(lines)
    ensures read <= |lines|
    ensures answer.None? ==> read == |lines|
    ensures answer.Some? ==> 0 < read && Answer(lines[read - 1]) == answer
    ensures forall j :: 0 <= j < read - 1 ==> Answer(lines[j]).None?
  {
    answer := None;
    read := 0;
    while read < |lines|
      invariant read <= |lines|
      invariant FirstAnswer(lines[read..]) == FirstAnswer(lines)
      invariant forall j :: 0 <= j < read ==> Answer(lines[j]).None?
    {
      var choice := Choice(lines[read]);
      var decided := AnswerOf(choice);
      FirstAnswerStep(lines, read);
      read := read + 1;
      if decided.Some? {
        answer := decided;
        break;
      }
    }
  }

  // ---------------------------------------------------------------------------
  // Resume scan
  // ---------------------------------------------------------------------------

  const CowSeparator := "_cow_"

  /** The source stem main.py lines 76-83 read from one output file name, if any. */
  function OutputStem(name: string, ext: string): Option<string> {
    if EndsWith(name, ext) then BeforeFirst(name, CowSeparator) else None
  }

  /** What each listed output file yields. */
  function OutputStems(files: seq<string>, ext: string): (r: seq<Option<string>>)
    ensures |r| == |files| && forall i :: 0 <= i < |files| ==> r[i] == OutputStem(files[i], ext)
  {
    seq(|files|, i requires 0 <= i < |files| => OutputStem(files[i], ext))
  }

  /** The stems present in a list of per-file results. */
  function StemSet(stems: seq<Option<string>>): set<string>
    decreases |stems|
  {
    if stems == [] then {}
    else
      var front := StemSet(stems[..|stems| - 1]);
      match stems[|stems| - 1]
      case Some(s) => front + {s}
      case None => front
  }

  lemma {:induction false} StemSetMembers(stems: seq<Option<string>>)
    ensures forall s :: s in StemSet(stems) <==> exists i :: 0 <= i < |stems| && stems[i] == Some(s)
    decreases |stems|
  {
    if stems != [] {
      var front := stems[..|stems| - 1];
      StemSetMembers(front);
      forall s
        ensures s in StemSet(stems) <==> exists i :: 0 <= i < |stems| && stems[i] == Some(s)
      {
        if s in StemSet(front) {
          var i :| 0 <= i < |front| && front[i] == Some(s);
          assert stems[i] == front[i];
        }
        if exists i :: 0 <= i < |stems| && stems[i] == Some(s) {
          var i :| 0 <= i < |stems| && stems[i] == Some(s);
          if i < |front| {
            assert front[i] == stems[i];
          }
        }
      }
    }
  }

  /** `processed_stems` after the resume scan of the listed output file names. */
  function ResumeStems(files: seq<string>, ext: string): set<string> {
    StemSet(OutputStems(files, ext))
  }

  /** A stem is recovered exactly when some listed file yields it. */
  lemma ResumeStemsMembers(files: seq<string>, ext: string)
    ensures forall s :: s in ResumeStems(files, ext) <==>
      exists i :: 0 <= i < |files| && OutputStem(files[i], ext) == Some(s)
  {
    StemSetMembers(OutputStems(files, ext));
  }

  /** main.py lines 74-83: collect the stems of the listed output files. */
  method CollectProcessedStems(files: seq<string>, ext: string) returns (stems: set<string>)
    ensures stems == ResumeStems(files, ext)
  {
    ghost var found := OutputStems(files, ext);
    stems := {};
    var i := 0;
    while i < |files|
      invariant 0 <= i <= |files|
      invariant stems == StemSet(found[..i])
    {
      assert found[..i + 1][..i] == found[..i];
      var f := files[i];
      if EndsWith(f, ext) {
        var parts := BeforeFirst(f, CowSeparator);
        if parts.Some? {
          stems := stems + {parts.value};
        }
      }
      i := i + 1;
    }
    assert found[..i] == found;
  }

  /** A name of the form the comment at main.py line 77 expects gives back its stem. */
  lemma StemNameYieldsStem(stem: string, n: nat, ext: string)
    requires '_' !in stem
    ensures OutputStem(stem + CowSeparator + ZeroPad(n, 4) + ext, ext) == Some(stem)
  {
    var rest := CowSeparator + ZeroPad(n, 4) + ext;
    var name := stem + rest;
    assert name == stem + CowSeparator + ZeroPad(n, 4) + ext;
    assert EndsWith(name, ext) by {
      assert name[|name| - |ext|..] == rest[|rest| - |ext|..] == ext;
    }
    assert rest[..5] == CowSeparator;
    StemBeforeSeparator(stem, rest);
  }

  /** A stem free of `_` followed by `_cow_` is exactly what precedes the first separator. */
  lemma StemBeforeSeparator(stem: string, rest: string)
    requires '_' !in stem
    requires |rest| >= 5 && rest[..5] == CowSeparator
    ensures BeforeFirst(stem + rest, CowSeparator) == Some(stem)
  {
    var name := stem + rest;
    assert name[|stem|..|stem| + 5] == rest[..5];
    assert OccursAt(name, CowSeparator, |stem|);
    forall j | 0 <= j < |stem|
      ensures !OccursAt(name, CowSeparator, j)
    {
      assert name[j] == stem[j];
    }
    var r := BeforeFirst(name, CowSeparator);
    assert |r.value| == |stem|;
    assert r.value == name[..|stem|] == stem;
  }

  /**
   * The names the writer actually produces (`cow_0001.mp4`, src/writer.py
   * line 28) contain no `_cow_`, so they yield no stem.
   */
  lemma ArtifactNameYieldsNoStem(n: nat, ext: string)
    requires '_' !in ext
    ensures OutputStem(ArtifactName(n, ext), ext) == None
  {
    var name := ArtifactName(n, ext);
    var pad := ZeroPad(n, 4);
    ZeroPadRoundTrip(n, 4);
    assert name == "cow_" + pad + ext;
    forall j | 0 <= j < |name|
      ensures name[j] == '_' <==> j == 3
    {
      if j < 4 {
        assert name[j] == "cow_"[j];
      } else if j < 4 + |pad| {
        assert name[j] == pad[j - 4];
      } else {
        assert name[j] == ext[j - 4 - |pad|];
      }
    }
    assert name[4] == pad[0] && IsDigit(pad[0]);
    forall j | 0 <= j <= |name|
      ensures !OccursAt(name, CowSeparator, j)
    {
      if j + 5 <= |name| {
        if j == 3 {
          assert name[j + 1] != CowSeparator[1];
        } else {
          assert name[j] != CowSeparator[0];
        }
      }
    }
  }

  /** An output folder holding only writer artifacts resumes nothing. */
  lemma WriterOutputResumesNothing(counters: seq<nat>, ext: string)
    requires '_' !in ext
    ensures ResumeStems(seq(|counters|, i requires 0 <= i < |counters| => ArtifactName(counters[i], ext)), ext) == {}
  {
    var names := seq(|counters|, i requires 0 <= i < |counters| => ArtifactName(counters[i], ext));
    ResumeStemsMembers(names, ext);
    forall i | 0 <= i < |names|
      ensures OutputStem(names[i], ext) == None
    {
      ArtifactNameYieldsNoStem(counters[i], ext);
    }
  }

  // ---------------------------------------------------------------------------
  // Partition of the input videos
  // ---------------------------------------------------------------------------

  /** `os.path.splitext(os.path.basename(path))[0]` */
  function VideoStem(path: string): string {
    Stem(Basename(path))
  }

  /** The paths, in order, whose stem is (`processed`) or is not (`!processed`) in `stems`. */
  function WithStem(paths: seq<string>, stems: set<string>, processed: bool): seq<string>
    decreases |paths|
  {
    if paths == [] then []
    else
      var p := paths[|paths| - 1];
      WithStem(paths[..|paths| - 1], stems, processed) + (if (VideoStem(p) in stems) == processed then [p] else [])
  }

  /** Each list holds just the input paths of its kind. */
  lemma {:induction false} WithStemMembers(paths: seq<string>, stems: set<string>, processed: bool)
    ensures forall p :: p in WithStem(paths, stems, processed) <==> p in paths && (VideoStem(p) in stems) == processed
    decreases |paths|
  {
    if paths != [] {
      var front := paths[..|paths| - 1];
      WithStemMembers(front, stems, processed);
      assert paths == front + [paths[|paths| - 1]];
    }
  }

  /** Every input path lands in exactly one of the two lists: together they are the input as a multiset. */
  lemma {:induction false} PartitionComplete(paths: seq<string>, stems: set<string>)
    ensures multiset(WithStem(paths, stems, true)) + multiset(WithStem(paths, stems, false)) == multiset(paths)
    decreases |paths|
  {
    if paths != [] {
      var front := paths[..|paths| - 1];
      PartitionComplete(front, stems);
      assert paths == front + [paths[|paths| - 1]];
    }
  }

  /** Extending the prefix by one path extends its list by that path alone, if it is of the kind. */
  lemma WithStemStep(paths: seq<string>, i: nat, stems: set<string>, processed: bool)
    requires i < |paths|
    ensures WithStem(paths[..i + 1], stems, processed)
      == WithStem(paths[..i], stems, processed) + (if (VideoStem(paths[i]) in stems) == processed then [paths[i]] else [])
  {
    var front := paths[..i + 1];
    assert front[..i] == paths[..i] && front[i] == paths[i];
  }

  /** main.py lines 107-115: split the input paths by whether their stem was already processed. */
  method PartitionByStem(allVideos: seq<string>, stems: set<string>)
    returns (processedPaths: seq<string>, videosToScan: seq<string>)
    ensures processedPaths == WithStem(allVideos, stems, true)
    ensures videosToScan == WithStem(allVideos, stems, false)
  {
    processedPaths := [];
    videosToScan := [];
    var i := 0;
    while i < |allVideos|
      invariant 0 <= i <= |allVideos|
      invariant processedPaths == WithStem(allVideos[..i], stems, true)
      invariant videosToScan == WithStem(allVideos[..i], stems, false)
    {
      WithStemStep(allVideos, i, stems, true);
      WithStemStep(allVideos, i, stems, false);
      var stem := VideoStem(allVideos[i]);
      if stem in stems {
        processedPaths := processedPaths + [allVideos[i]];
      } else {
        videosToScan := videosToScan + [allVideos[i]];
      }
      i := i + 1;
    }
    assert allVideos[..i] == allVideos;
  }

  // ---------------------------------------------------------------------------
  // main
  // ---------------------------------------------------------------------------

  /** What `main` settles before any video is read. */
  datatype Plan = Plan(settings: Settings, processedPaths: seq<string>, videosToScan: seq<string>)

  /**
   * The plan for a run: `colorLine` answers the colour menu (None when the
   * input has already ended there), `output` lists the output folder (None
   * when it does not exist), `promptLines` are the answers typed at the
   * delete prompt and `allVideos` the input videos. None when the input ends
   * before either prompt is answered.
   */
  function PlanFor(colorLine: Option<string>, output: Option<seq<string>>, promptLines: seq<string>, allVideos: seq<string>): Option<Plan>
  {
    if colorLine.None? then None
    else
      var cfg := RepositorySettings(SelectBackgroundColor(colorLine.value));
      var delete := if output.Some? && |output.value| > 0 then FirstAnswer(promptLines) else Some(false);
      if delete.None? then None
      else
        var stems := if !delete.value && output.Some? then ResumeStems(output.value, cfg.videoExt) else {};
        Some(Plan(cfg, WithStem(allVideos, stems, true), WithStem(allVideos, stems, false)))
  }

  /**
   * An end of input at either prompt (`EOFError` from `input`) ends `main`
   * before anything is scanned or processed: at the colour prompt always, at
   * the delete prompt when the output folder holds files.
   */
  lemma EndOfInputPlansNothing(colorLine: Option<string>, output: Option<seq<string>>, promptLines: seq<string>, allVideos: seq<string>)
    requires colorLine.None? || (output.Some? && |output.value| > 0 && FirstAnswer(promptLines).None?)
    ensures PlanFor(colorLine, output, promptLines, allVideos).None?
  {
  }

  /** With no processed stems, no path counts as processed and every path is still to scan. */
  lemma {:induction false} NoStemsSkipNothing(paths: seq<string>)
    ensures WithStem(paths, {}, true) == [] && WithStem(paths, {}, false) == paths
    decreases |paths|
  {
    if paths == [] {
      assert WithStem(paths, {}, false) == [];
    } else {
      var i := |paths| - 1;
      assert paths[..i + 1] == paths == paths[..i] + [paths[i]];
      NoStemsSkipNothing(paths[..i]);
      WithStemStep(paths, i, {}, true);
      WithStemStep(paths, i, {}, false);
    }
  }

  /** Deleting the output, or having none, means nothing is skipped and every video is scanned. */
  lemma FreshStartSkipsNothing(colorLine: Option<string>, output: Option<seq<string>>, promptLines: seq<string>, allVideos: seq<string>)
    requires colorLine.Some?
    requires output.None? || output.value == [] || FirstAnswer(promptLines) == Some(true)
    ensures PlanFor(colorLine, output, promptLines, allVideos).Some?
    ensures PlanFor(colorLine, output, promptLines, allVideos).value.processedPaths == []
    ensures PlanFor(colorLine, output, promptLines, allVideos).value.videosToScan == allVideos
  {
    NoStemsSkipNothing(allVideos);
  }

  /** The paths of the videos the processor is given, in order. */
  function Paths(videos: seq<Video>): (r: seq<string>)
    ensures |r| == |videos| && forall i :: 0 <= i < |videos| ==> r[i] == videos[i].path
  {
    seq(|videos|, i requires 0 <= i < |videos| => videos[i].path)
  }

  /** Skipping the paths whose stem is in `stems` leaves exactly the videos whose stem is not. */
  lemma SkipProcessedStems(videos: seq<Video>, stems: set<string>)
    ensures forall v :: v in videos ==>
      (v in Unskipped(videos, WithStem(Paths(videos), stems, true)) <==> v.path in WithStem(Paths(videos), stems, false))
  {
    var paths := Paths(videos);
    WithStemMembers(paths, stems, true);
    WithStemMembers(paths, stems, false);
    forall v | v in videos
      ensures v.path in paths
    {
      var i :| 0 <= i < |videos| && videos[i] == v;
      assert v.path == paths[i];
    }
  }

  /**
   * main.py lines 119 and 130: the processor skips exactly the already
   * processed paths, so a video is processed exactly when it was handed to
   * the scanner, whatever the scanner decided about it.
   */
  lemma ProcessedExactlyTheScanned(colorLine: Option<string>, output: Option<seq<string>>, promptLines: seq<string>,
                                   videos: seq<Video>)
    requires PlanFor(colorLine, output, promptLines, Paths(videos)).Some?
    ensures var plan := PlanFor(colorLine, output, promptLines, Paths(videos)).value;
      forall v :: v in videos ==> (v in Unskipped(videos, plan.processedPaths) <==> v.path in plan.videosToScan)
  {
    var cfg := RepositorySettings(SelectBackgroundColor(colorLine.value));
    var delete := if output.Some? && |output.value| > 0 then FirstAnswer(promptLines) else Some(false);
    var stems := if !delete.value && output.Some? then ResumeStems(output.value, cfg.videoExt) else {};
    SkipProcessedStems(videos, stems);
  }

  /** main.py lines 43-115: colour, prompt, resume scan and partition. */
  method PlanRun(colorLine: Option<string>, output: Option<seq<string>>, promptLines: seq<string>, allVideos: seq<string>)
    returns (plan: Option<Plan>)
    ensures plan == PlanFor(colorLine, output, promptLines, allVideos)
  {
    if colorLine.None? {
      return None;
    }
    var cfg := RepositorySettings(SelectBackgroundColor(colorLine.value));
    var shouldDelete := false;
    if output.Some? && |output.value| > 0 {
      var answer, _ := AskDelete(promptLines);
      if answer.None? {
        return None;
      }
      shouldDelete := answer.value;
    }
    var stems: set<string> := {};
    if !shouldDelete && output.Some? {
      stems := CollectProcessedStems(output.value, cfg.videoExt);
    }
    var processedPaths, videosToScan := PartitionByStem(allVideos, stems);
    plan := Some(Plan(cfg, processedPaths, videosToScan));
  }

  /** What the scanner is given for the paths still to scan. */
  function ScanList(toScan: seq<string>, scanned: string -> Scanner.ScanVideo): (r: seq<Scanner.ScanVideo>)
    ensures |r| == |toScan| && forall i :: 0 <= i < |toScan| ==> r[i] == scanned(toScan[i])
  {
    seq(|toScan|, i requires 0 <= i < |toScan| => scanned(toScan[i]))
  }

  /**
   * When the scanner's record of each path carries that path, every name the
   * single-subject folder gains is the basename of a video that was to be scanned.
   */
  lemma CopiedFromToScan(toScan: seq<string>, scanned: string -> Scanner.ScanVideo, copyOk: string -> bool)
    requires forall p :: scanned(p).path == p
    ensures forall name :: name in Scanner.CopiedNames(Scanner.Selected(ScanList(toScan, scanned), copyOk)) ==>
      exists p :: p in toScan && Basename(p) == name
  {
    var list := ScanList(toScan, scanned);
    var selected := Scanner.Selected(list, copyOk);
    Scanner.SelectedMembers(list, copyOk);
    forall name | name in Scanner.CopiedNames(selected)
      ensures exists p :: p in toScan && Basename(p) == name
    {
      var q :| q in selected && Basename(q) == name;
      var i :| Scanner.CopiedAt(list, copyOk, q, i);
      assert toScan[i] == q;
    }
  }

  /**
   * main.py lines 98-130 once the plan is settled: scan and copy the videos
   * still to scan, then create the writer and the processor and process
   * every input video except the already processed ones.
   */
  method ExecutePlan(plan: Plan, videos: seq<Video>, scanned: string -> Scanner.ScanVideo, copyOk: string -> bool,
                     folder: set<string>, existing: Disk<Canvas>,
                     suffixes: string -> int -> string, stuck: set<string>)
    returns (folderAfter: set<string>, processor: ExtractionProcessor, raised: Option<Failure>)
    requires forall p :: scanned(p).path == p
    ensures folderAfter == folder + Scanner.CopiedNames(Scanner.Selected(ScanList(plan.videosToScan, scanned), copyOk))
    ensures forall name :: name in folderAfter && name !in folder ==>
      exists p :: p in plan.videosToScan && Basename(p) == name
    ensures fresh(processor) && processor.cfg == plan.settings
    ensures processor.Current(raised)
         == ProcessAllSpec(plan.settings, plan.settings.smoothingAlpha, videos, plan.processedPaths,
                           suffixes, stuck, Pipe(map[], WriterState(map[], [], 0, existing), None))
  {
    var cfg := plan.settings;
    var _, copied := Scanner.ScanAndFilter(ScanList(plan.videosToScan, scanned), copyOk, folder);
    folderAfter := copied;
    CopiedFromToScan(plan.videosToScan, scanned, copyOk);
    var writer := new TrackWriterManager<Canvas>(existing, cfg.minTrackDurationSec, cfg.videoExt);
    processor := new ExtractionProcessor(cfg, writer);
    raised := processor.ProcessAllVideos(videos, Some(plan.processedPaths), suffixes, stuck);
  }

  /**
   * `main`: plan the run, then execute the plan. `scanned` gives, per path,
   * what the scanner sees of the video; `folder` is the single-subject
   * folder and `existing` the output folder the writer starts from. When the
   * input ends before the colour or the delete prompt is answered, nothing runs.
   */
  method RunMain(colorLine: Option<string>, output: Option<seq<string>>, promptLines: seq<string>,
                 videos: seq<Video>, scanned: string -> Scanner.ScanVideo, copyOk: string -> bool,
                 folder: set<string>, existing: Disk<Canvas>,
                 suffixes: string -> int -> string, stuck: set<string>)
    returns (plan: Option<Plan>, folderAfter: set<string>, processor: ExtractionProcessor?, raised: Option<Failure>)
    requires forall p :: scanned(p).path == p
    ensures plan == PlanFor(colorLine, output, promptLines, Paths(videos))
    ensures plan.None? ==> folderAfter == folder && processor == null && raised.None?
    ensures plan.Some? ==>
      && folderAfter == folder + Scanner.CopiedNames(Scanner.Selected(ScanList(plan.value.videosToScan, scanned), copyOk))
      && processor != null && fresh(processor) && processor.cfg == plan.value.settings
      && processor.Current(raised)
         == ProcessAllSpec(plan.value.settings, plan.value.settings.smoothingAlpha, videos, plan.value.processedPaths,
                           suffixes, stuck, Pipe(map[], WriterState(map[], [], 0, existing), None))
  {
    plan := PlanRun(colorLine, output, promptLines, Paths(videos));
    if plan.None? {
      return plan, folder, null, None;
    }
    folderAfter, processor, raised := ExecutePlan(plan.value, videos, scanned, copyOk, folder, existing, suffixes, stuck);
  }
}
