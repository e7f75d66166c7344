/** compare_models.py lines 14-61 as the script writes them: two nested loops that
    append to the per-image log and the summary list while updating three running
    totals in place. `RunBenchmark` is proved to compute exactly
    `Benchmark.CompareModels`, so every property proved of the fold holds of the loops. */
module Runner {
  import opened Wrappers
  import Corpus
  import Render
  import opened Benchmark

  /** One model's pass (lines 26-61): the records it appends, in corpus order, and
      its summary row. */
  method RunModel(name: Name, images: seq<Name>, detect: Detector, clock: Clock)
    returns (records: seq<ImageRecord>, summary: Summary)
    requires |images| > 0
    ensures records == Records(name, images, detect, clock)
    ensures summary == SummaryOf(name, images, detect, clock)
  {
    var totalTime: real := 0.0;
    var totalDetections: nat := 0;
    var uniqueClasses: set<int> := {};
    records := [];
    var j := 0;
    while j < |images|
      invariant 0 <= j <= |images|
      invariant Scan(name, images[j..], Totals(totalTime, totalDetections, uniqueClasses), detect, clock)
        == Scan(name, images, Fresh, detect, clock)
      invariant records == Records(name, images[..j], detect, clock)
    {
      var image := images[j];
      var classIds := detect(name, image);
      var elapsed := clock(name, image);
      ghost var before := Totals(totalTime, totalDetections, uniqueClasses);
      ScanFrom(name, images, before, detect, clock, j);
      RecordsSnoc(name, images, detect, clock, j);
      totalTime := totalTime + elapsed;
      totalDetections := totalDetections + |classIds|;
      uniqueClasses := uniqueClasses + Elements(classIds);
      assert Totals(totalTime, totalDetections, uniqueClasses) == Step(before, classIds, elapsed);
      records := records + [ImageRecord(image, name, elapsed, |classIds|, Render.Join(classIds))];
      j := j + 1;
    }
    PassEnd(name, images, detect, clock, Totals(totalTime, totalDetections, uniqueClasses));
    assert images[..j] == images;
    summary := Summary(name, totalTime / (|images| as real), totalDetections, |uniqueClasses|);
  }

  /** One turn of the inner loop: the call on image j is folded in first. */
  lemma ScanFrom(name: Name, images: seq<Name>, t: Totals, detect: Detector, clock: Clock, j: nat)
    requires j < |images|
    ensures Scan(name, images[j..], t, detect, clock)
      == Scan(name, images[j + 1..], Step(t, detect(name, images[j]), clock(name, images[j])), detect, clock)
  {
    assert images[j..][1..] == images[j + 1..];
  }

  /** The records of the first j + 1 images extend those of the first j by the record of call j. */
  lemma RecordsSnoc(name: Name, images: seq<Name>, detect: Detector, clock: Clock, j: nat)
    requires j < |images|
    ensures Records(name, images[..j + 1], detect, clock)
      == Records(name, images[..j], detect, clock)
         + [ImageRecord(images[j], name, clock(name, images[j]), |detect(name, images[j])|, Render.Join(detect(name, images[j])))]
  {
  }

  /** Once the loop has consumed every image, its totals are the pass's summary row. */
  lemma PassEnd(name: Name, images: seq<Name>, detect: Detector, clock: Clock, t: Totals)
    requires |images| > 0
    requires Scan(name, images[|images|..], t, detect, clock) == Scan(name, images, Fresh, detect, clock)
    ensures SummaryOf(name, images, detect, clock) == Summary(name, t.time / (|images| as real), t.detections, |t.classes|)
  {
    assert images[|images|..] == [];
  }

  /** One turn of the outer loop: model i's records come next in the log, and
      its row next in the summary list. */
  lemma LogFrom(models: seq<Name>, images: seq<Name>, detect: Detector, clock: Clock, i: nat)
    requires |images| > 0 && i < |models|
    ensures AllRecords(models[i..], images, detect, clock)
      == Records(models[i], images, detect, clock) + AllRecords(models[i + 1..], images, detect, clock)
    ensures AllSummaries(models[i..], images, detect, clock)
      == [SummaryOf(models[i], images, detect, clock)] + AllSummaries(models[i + 1..], images, detect, clock)
  {
    assert models[i..][1..] == models[i + 1..];
  }

  /** Appending model i's records and row keeps the outer loop's invariants. */
  lemma OuterStep(models: seq<Name>, images: seq<Name>, detect: Detector, clock: Clock, i: nat,
                  perImage: seq<ImageRecord>, summaries: seq<Summary>)
    requires |images| > 0 && i < |models|
    requires perImage + AllRecords(models[i..], images, detect, clock) == AllRecords(models, images, detect, clock)
    requires summaries + AllSummaries(models[i..], images, detect, clock) == AllSummaries(models, images, detect, clock)
    ensures (perImage + Records(models[i], images, detect, clock)) + AllRecords(models[i + 1..], images, detect, clock)
      == AllRecords(models, images, detect, clock)
    ensures (summaries + [SummaryOf(models[i], images, detect, clock)]) + AllSummaries(models[i + 1..], images, detect, clock)
      == AllSummaries(models, images, detect, clock)
  {
    LogFrom(models, images, detect, clock, i);
    Regroup(perImage, Records(models[i], images, detect, clock), AllRecords(models[i + 1..], images, detect, clock));
    Regroup(summaries, [SummaryOf(models[i], images, detect, clock)], AllSummaries(models[i + 1..], images, detect, clock));
  }

  lemma Regroup<T>(a: seq<T>, b: seq<T>, c: seq<T>)
    ensures (a + b) + c == a + (b + c)
  {
  }

  /** Once every model has run, the two lists are the fold's log and summaries. */
  lemma LoopsDone(models: seq<Name>, images: seq<Name>, detect: Detector, clock: Clock,
                  perImage: seq<ImageRecord>, summaries: seq<Summary>)
    requires |images| > 0
    requires perImage + AllRecords(models[|models|..], images, detect, clock) == AllRecords(models, images, detect, clock)
    requires summaries + AllSummaries(models[|models|..], images, detect, clock) == AllSummaries(models, images, detect, clock)
    ensures Run(models, images, detect, clock) == Success(Report(perImage, summaries))
  {
    assert models[|models|..] == [];
    assert AllRecords([], images, detect, clock) == [];
    assert AllSummaries([], images, detect, clock) == [];
    assert summaries == AllSummaries(models, images, detect, clock);
    assert perImage == AllRecords(models, images, detect, clock);
    assert Run(models, images, detect, clock)
      == Success(Report(AllRecords(models, images, detect, clock), AllSummaries(models, images, detect, clock)));
  }

  /** The outer loop (lines 25-61): every model in registration order runs its
      pass, its records are appended to the log and its row to the summary list. */
  method RunModels(models: seq<Name>, images: seq<Name>, detect: Detector, clock: Clock)
    returns (report: Report)
    requires |images| > 0
    ensures Run(models, images, detect, clock) == Success(report)
  {
    var perImage: seq<ImageRecord> := [];
    var summaries: seq<Summary> := [];
    var i := 0;
    while i < |models|
      invariant 0 <= i <= |models|
      invariant perImage + AllRecords(models[i..], images, detect, clock) == AllRecords(models, images, detect, clock)
      invariant summaries + AllSummaries(models[i..], images, detect, clock) == AllSummaries(models, images, detect, clock)
    {
      var records, summary := RunModel(models[i], images, detect, clock);
      OuterStep(models, images, detect, clock, i, perImage, summaries);
      perImage := perImage + records;
      summaries := summaries + [summary];
      i := i + 1;
    }
    LoopsDone(models, images, detect, clock, perImage, summaries);
    report := Report(perImage, summaries);
  }

  /** The script from corpus selection to the two finished tables (lines 14-61). */
  method RunBenchmark(listing: seq<Name>, models: seq<Name>, detect: Detector, clock: Clock)
    returns (outcome: Result<Report, RunError>)
    ensures outcome == CompareModels(listing, models, detect, clock)
  {
    var images := Corpus.SelectCorpus(listing);
    if |images| == 0 {
      return Failure(EmptyCorpus);
    }
    var report := RunModels(models, images, detect, clock);
    return Success(report);
  }
}
