/** The script's top level: pick the run folder, annotate every `.jpg` in the input folder in
    listing order, stop at the first failure, and export the collected records. */
module Batch {
  import opened Wrappers
  import opened Text
  import opened Paths
  import opened RunVersioner
  import opened Annotation
  import opened Exporter

  const InputDir: string := "input/"
  const OutputDir: string := "output/"

  function BatchError(reason: string): string {
    "Error processing images or saving metadata: " + reason
  }

  /** The `.jpg` names of a listing, in listing order. */
  function Jpgs(names: seq<string>): (jpgs: seq<string>)
    ensures forall k :: 0 <= k < |jpgs| ==> EndsWith(jpgs[k], ".jpg")
    ensures |jpgs| <= |names|
    decreases |names|
  {
    if names == [] then []
    else (if EndsWith(names[0], ".jpg") then [names[0]] else []) + Jpgs(names[1..])
  }

  /** Only names of the listing are kept, and every `.jpg` name of the listing is. */
  lemma {:induction false} JpgsKeeps(names: seq<string>)
    ensures forall k :: 0 <= k < |Jpgs(names)| ==> Jpgs(names)[k] in names
    ensures forall k :: 0 <= k < |names| && EndsWith(names[k], ".jpg") ==> names[k] in Jpgs(names)
    decreases |names|
  {
    if names != [] {
      JpgsKeeps(names[1..]);
      assert forall k :: 1 <= k < |names| ==> names[k] == names[1..][k - 1];
    }
  }

  /** Filtering keeps the listing order: the `.jpg` names of two listings one after the other
      are those of the first, then those of the second. */
  lemma {:induction false} JpgsAppend(a: seq<string>, b: seq<string>)
    ensures Jpgs(a + b) == Jpgs(a) + Jpgs(b)
    decreases |a|
  {
    if a == [] {
      assert a + b == b;
    } else {
      assert (a + b)[1..] == a[1..] + b;
      JpgsAppend(a[1..], b);
    }
  }

  /** The records gathered so far and, if the loop stopped, the error that stopped it. */
  datatype Progress = Progress(records: seq<map<string, string>>, failure: Option<string>)

  /** What the loop does with one `.jpg` name. */
  type Step = string -> Result<map<string, string>, string>

  /** Annotating the named image from the input folder into the run folder. */
  function ImageStep(outDir: string, svc: Services): Step {
    name => Annotate(PathJoin(InputDir, name), outDir, svc)
  }

  /** The loop over the listing: other names are skipped, each `.jpg` goes through the step,
      and the first error ends the loop. */
  function Process(names: seq<string>, step: Step): Progress
    decreases |names|
  {
    if names == [] then Progress([], None)
    else if !EndsWith(names[0], ".jpg") then Process(names[1..], step)
    else
      match step(names[0])
      case Err(e) => Progress([], Some(e))
      case Ok(record) =>
        var rest := Process(names[1..], step);
        Progress([record] + rest.records, rest.failure)
  }

  /** Every column is a key of every finished record. */
  lemma HeadersAreRecordKeys()
    ensures forall j :: 0 <= j < |Headers| ==> Headers[j] in RecordKeys
    ensures forall k :: k in RecordKeys ==> k in Headers
  {
  }

  /** The records are the annotations of the `.jpg` names, in listing order, up to the first
      failing one; the failure, if any, is that image's error; with no failure every `.jpg`
      has its record. */
  lemma {:induction false} ProcessSpec(names: seq<string>, step: Step)
    ensures var p, jpgs := Process(names, step), Jpgs(names);
      && |p.records| <= |jpgs|
      && (forall k :: 0 <= k < |p.records| ==> step(jpgs[k]) == Ok(p.records[k]))
      && (p.failure.None? ==> |p.records| == |jpgs|)
      && (p.failure.Some? ==>
            |p.records| < |jpgs| && step(jpgs[|p.records|]) == Err(p.failure.value))
    decreases |names|
  {
    if names != [] {
      ProcessSpec(names[1..], step);
      if EndsWith(names[0], ".jpg") {
        assert Jpgs(names) == [names[0]] + Jpgs(names[1..]);
      } else {
        assert Jpgs(names) == Jpgs(names[1..]);
      }
    }
  }

  /** Names that do not end in `.jpg` play no part. */
  lemma {:induction false} OnlyJpgsMatter(names: seq<string>, step: Step)
    ensures Process(names, step) == Process(Jpgs(names), step)
    decreases |names|
  {
    if names != [] {
      OnlyJpgsMatter(names[1..], step);
      if EndsWith(names[0], ".jpg") {
        assert Jpgs(names) == [names[0]] + Jpgs(names[1..]);
        assert Jpgs(names)[1..] == Jpgs(names[1..]);
      } else {
        assert Jpgs(names) == Jpgs(names[1..]);
      }
    }
  }

  /** Once an image fails, nothing listed after it is looked at. */
  lemma {:induction false} FailureStops(names: seq<string>, later: seq<string>, step: Step)
    requires Process(names, step).failure.Some?
    ensures Process(names + later, step) == Process(names, step)
    decreases |names|
  {
    assert names != [];
    assert (names + later)[1..] == names[1..] + later;
    if !EndsWith(names[0], ".jpg") || step(names[0]).Ok? {
      FailureStops(names[1..], later, step);
    }
  }

  /** Without a failure, the loop over a longer listing carries on from where it was. */
  lemma {:induction false} ProcessAppend(names: seq<string>, later: seq<string>, step: Step)
    requires Process(names, step).failure.None?
    ensures var p, q := Process(names, step), Process(later, step);
      Process(names + later, step) == Progress(p.records + q.records, q.failure)
    decreases |names|
  {
    if names == [] {
      assert names + later == later;
    } else {
      assert (names + later)[1..] == names[1..] + later;
      ProcessAppend(names[1..], later, step);
    }
  }

  /** Records with the twelve keys have every column, so the export finds no missing one. */
  lemma ExportableRecords(records: seq<map<string, string>>)
    requires forall k :: 0 <= k < |records| ==> records[k].Keys == RecordKeys
    ensures forall k :: 0 <= k < |records| ==> HasKeys(records[k], Headers)
    ensures MissingKey(Headers, records).None?
  {
    HeadersAreRecordKeys();
  }

  /** Every record the loop gathers has the twelve keys. */
  lemma RecordsComplete(names: seq<string>, outDir: string, svc: Services)
    ensures forall k :: 0 <= k < |Process(names, ImageStep(outDir, svc)).records| ==>
      Process(names, ImageStep(outDir, svc)).records[k].Keys == RecordKeys
  {
    var step := ImageStep(outDir, svc);
    ProcessSpec(names, step);
    var p, jpgs := Process(names, step), Jpgs(names);
    forall k | 0 <= k < |p.records|
      ensures p.records[k].Keys == RecordKeys
    {
      assert step(jpgs[k]) == Annotate(PathJoin(InputDir, jpgs[k]), outDir, svc);
      AnnotateKeys(PathJoin(InputDir, jpgs[k]), outDir, svc);
    }
  }

  /** One turn of the loop, from position i of the listing. */
  lemma ProcessFrom(names: seq<string>, i: nat, step: Step)
    requires i < |names|
    ensures var rest, next := Process(names[i..], step), Process(names[i + 1..], step);
      && (!EndsWith(names[i], ".jpg") ==> rest == next)
      && (EndsWith(names[i], ".jpg") && step(names[i]).Err? ==> rest == Progress([], Some(step(names[i]).error)))
      && (EndsWith(names[i], ".jpg") && step(names[i]).Ok? ==>
            rest == Progress([step(names[i]).value] + next.records, next.failure))
  {
    assert names[i..][1..] == names[i + 1..];
  }

  /** The loop of the script's top level: each `.jpg` of the listing is annotated in turn and
      its record appended, until one fails. `step` stands for annotating a listed name. */
  method AnnotateAll(listing: seq<string>, runFolder: string, svc: Services, ghost step: Step)
    returns (allMetadata: seq<map<string, string>>, failure: Option<string>)
    requires forall name {:trigger Annotate(PathJoin(InputDir, name), runFolder, svc)} ::
      step(name) == Annotate(PathJoin(InputDir, name), runFolder, svc)
    ensures Progress(allMetadata, failure) == Process(listing, step)
  {
    allMetadata := [];
    for i := 0 to |listing|
      invariant var rest := Process(listing[i..], step);
        Process(listing, step) == Progress(allMetadata + rest.records, rest.failure)
    {
      var filename := listing[i];
      ProcessFrom(listing, i, step);
      if EndsWith(filename, ".jpg") {
        var metadata := ProcessImage(PathJoin(InputDir, filename), runFolder, svc);
        if metadata.Err? {
          return allMetadata, Some(metadata.error);
        }
        allMetadata := allMetadata + [metadata.value];
      }
    }
    assert listing[|listing|..] == [];
    return allMetadata, None;
  }

  /** The script's top level. The existing output folders, the timestamp and the input
      listing are given; the result is the run folder, the workbook's path in it, and the
      sheet or the error that ended the run. */
  method RunBatch(folders: seq<string>, timestamp: string, listing: seq<string>, svc: Services)
    returns (runFolder: string, outputFile: string, outcome: Result<Worksheet, string>)
    ensures runFolder == PathJoin(OutputDir, RunFolderName(NextRunNumber(folders), timestamp))
    ensures outputFile == PathJoin(runFolder, "metadata.xlsx")
    ensures var p := Process(listing, ImageStep(runFolder, svc));
      && (p.failure.Some? ==> outcome == Err(BatchError(p.failure.value)))
      && (p.failure.None? ==>
            && outcome.Ok? && fresh(outcome.value)
            && (forall k :: 0 <= k < |p.records| ==> HasKeys(p.records[k], Headers))
            && Shows(outcome.value.cells, Table(Headers, p.records)))
  {
    var runNumber := NextRunNumber(folders);
    runFolder := PathJoin(OutputDir, RunFolderName(runNumber, timestamp));
    outputFile := PathJoin(runFolder, "metadata.xlsx");
    var allMetadata, failure := AnnotateAll(listing, runFolder, svc, ImageStep(runFolder, svc));
    if failure.Some? {
      outcome := Err(BatchError(failure.value));
      return;
    }
    RecordsComplete(listing, runFolder, svc);
    ExportableRecords(allMetadata);
    var saved := SaveMetadata(allMetadata);
    outcome := match saved
      case Ok(sheet) => Ok(sheet)
      case Err(e) => Err(BatchError(e));
  }
}
