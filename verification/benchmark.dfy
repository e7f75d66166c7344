/** The inference loop of compare_models.py (lines 25-61) as a fold. Each model,
    in registration order, walks the whole corpus; every (model, image) call yields
    one per-image record and is folded into that model's running totals, which
    become the model's summary row once the corpus is exhausted.

    The detector is a function from (model name, image name) to the class ids of
    the boxes it reports, and the clock a function from the same pair to the
    elapsed seconds of that call; with those two the run is a pure function. */
module Benchmark {
  import opened Wrappers
  import Render
  import Corpus

  type Name = string

  /** Class id of every box the model reports for the image, in box order. */
  type Detector = (Name, Name) -> seq<int>

  /** Elapsed seconds of the model's call on the image. */
  type Clock = (Name, Name) -> real

  /** One row of the per-image log. */
  datatype ImageRecord = ImageRecord(
    image: Name,
    model: Name,
    elapsed: real,
    detectionCount: nat,
    detectedClasses: string)

  /** One row of the comparison summary. */
  datatype Summary = Summary(
    model: Name,
    avgTime: real,
    totalDetections: nat,
    uniqueClasses: nat)

  /** The running totals of one model's pass over the corpus. */
  datatype Totals = Totals(time: real, detections: nat, classes: set<int>)

  /** Both outputs of a completed run. */
  datatype Report = Report(perImage: seq<ImageRecord>, summaries: seq<Summary>)

  /** The corpus held no image, so the run stopped before any inference. */
  datatype RunError = EmptyCorpus

  /** The totals every model's pass starts from. */
  const Fresh: Totals := Totals(0.0, 0, {})

  function Elements(ids: seq<int>): set<int> {
    set x | x in ids
  }

  /** One inference call and the record it appends (lines 33-51). */
  function Measure(model: Name, image: Name, detect: Detector, clock: Clock): (r: ImageRecord)
    ensures r.image == image && r.model == model && r.elapsed == clock(model, image)
    ensures r.detectionCount == |detect(model, image)|
    ensures r.detectedClasses == Render.Join(detect(model, image))
    ensures Render.Decode(r.detectedClasses) == Some(detect(model, image))
    ensures r.detectedClasses == "" <==> r.detectionCount == 0
  {
    var ids := detect(model, image);
    Render.DecodeJoin(ids);
    ImageRecord(image, model, clock(model, image), |ids|, Render.Join(ids))
  }

  /** Folding one call into the running totals (lines 40-42): no class seen
      before is forgotten, and the set of seen classes grows by at most the
      number of detections the call adds. */
  function Step(t: Totals, ids: seq<int>, elapsed: real): (r: Totals)
    ensures t.classes <= r.classes && t.detections <= r.detections
    ensures |r.classes| + t.detections <= |t.classes| + r.detections
    ensures forall x :: x in ids ==> x in r.classes
  {
    ElementsBound(ids);
    Totals(t.time + elapsed, t.detections + |ids|, t.classes + Elements(ids))
  }

  /** The inner loop: the totals threaded through the images in corpus order.
      Over a whole pass, too, the seen classes only grow, and by at most the
      number of detections added. */
  function Scan(model: Name, images: seq<Name>, t: Totals, detect: Detector, clock: Clock): (r: Totals)
    ensures t.classes <= r.classes && t.detections <= r.detections
    ensures |r.classes| + t.detections <= |t.classes| + r.detections
    decreases |images|
  {
    if |images| == 0 then t
    else
      var image := images[0];
      Scan(model, images[1..], Step(t, detect(model, image), clock(model, image)), detect, clock)
  }

  /** The records one model's pass appends: one per image, in corpus order. */
  function Records(model: Name, images: seq<Name>, detect: Detector, clock: Clock): (recs: seq<ImageRecord>)
    ensures |recs| == |images|
  {
    seq(|images|, j requires 0 <= j < |images| => Measure(model, images[j], detect, clock))
  }

  // Reference definitions: the summary columns as folds over per-image records.

  function TotalTime(records: seq<ImageRecord>): real {
    if |records| == 0 then 0.0 else records[0].elapsed + TotalTime(records[1..])
  }

  function TotalCount(records: seq<ImageRecord>): nat {
    if |records| == 0 then 0 else records[0].detectionCount + TotalCount(records[1..])
  }

  /** The class ids a record's "Detected Classes" column lists. */
  function RecordClasses(r: ImageRecord): set<int> {
    match Render.Decode(r.detectedClasses)
    case Some(ids) => Elements(ids)
    case None => {}
  }

  function ClassesIn(records: seq<ImageRecord>): set<int> {
    if |records| == 0 then {} else RecordClasses(records[0]) + ClassesIn(records[1..])
  }

  /** The number of boxes the detector reports for the model over the images. */
  function Detections(model: Name, images: seq<Name>, detect: Detector): nat {
    if |images| == 0 then 0 else |detect(model, images[0])| + Detections(model, images[1..], detect)
  }

  /** The detection counts of a pass add up to the boxes the detector reported. */
  lemma {:induction false} TotalCountMatchesDetector(model: Name, images: seq<Name>, detect: Detector, clock: Clock)
    ensures TotalCount(Records(model, images, detect, clock)) == Detections(model, images, detect)
  {
    if |images| > 0 {
      RecordsCons(model, images, detect, clock);
      var recs := Records(model, images, detect, clock);
      assert recs[0].detectionCount == |detect(model, images[0])|;
      assert TotalCount(recs) == recs[0].detectionCount + TotalCount(recs[1..]);
      TotalCountMatchesDetector(model, images[1..], detect, clock);
    }
  }

  lemma {:induction false} ScanTotals(model: Name, images: seq<Name>, t: Totals, detect: Detector, clock: Clock)
    ensures var recs := Records(model, images, detect, clock);
      Scan(model, images, t, detect, clock)
        == Totals(t.time + TotalTime(recs), t.detections + TotalCount(recs), t.classes + ClassesIn(recs))
    decreases |images|
  {
    if |images| > 0 {
      var ids := detect(model, images[0]);
      var next := Step(t, ids, clock(model, images[0]));
      FoldsCons(model, images, detect, clock);
      ScanTotals(model, images[1..], next, detect, clock);
      var later := ClassesIn(Records(model, images[1..], detect, clock));
      assert t.classes + (Elements(ids) + later) == (t.classes + Elements(ids)) + later;
    } else {
      assert Records(model, images, detect, clock) == [];
    }
  }

  /** The three folds over a pass, unfolded at its first image. */
  lemma FoldsCons(model: Name, images: seq<Name>, detect: Detector, clock: Clock)
    requires |images| > 0
    ensures var recs := Records(model, images, detect, clock);
      var rest := Records(model, images[1..], detect, clock);
      var ids := detect(model, images[0]);
      && TotalTime(recs) == clock(model, images[0]) + TotalTime(rest)
      && TotalCount(recs) == |ids| + TotalCount(rest)
      && ClassesIn(recs) == Elements(ids) + ClassesIn(rest)
  {
    RecordsCons(model, images, detect, clock);
    var recs := Records(model, images, detect, clock);
    assert recs[0] == Measure(model, images[0], detect, clock);
    assert recs[1..] == Records(model, images[1..], detect, clock);
    MeasureColumns(model, images[0], detect, clock);
  }

  /** The three summary-relevant columns of one record. */
  lemma MeasureColumns(model: Name, image: Name, detect: Detector, clock: Clock)
    ensures var r := Measure(model, image, detect, clock);
      && r.elapsed == clock(model, image)
      && r.detectionCount == |detect(model, image)|
      && RecordClasses(r) == Elements(detect(model, image))
  {
  }

  /** The summary row of one model (lines 53-61): the average of the elapsed
      times of its records over the corpus size, the sum of their detection
      counts, and the number of distinct ids their class columns list. */
  function SummaryOf(model: Name, images: seq<Name>, detect: Detector, clock: Clock): (s: Summary)
    requires |images| > 0
    ensures var recs := Records(model, images, detect, clock);
      && s.model == model
      && s.avgTime == TotalTime(recs) / (|images| as real)
      && s.totalDetections == TotalCount(recs)
      && s.uniqueClasses == |ClassesIn(recs)|
  {
    ScanTotals(model, images, Fresh, detect, clock);
    var t := Scan(model, images, Fresh, detect, clock);
    Summary(model, t.time / (|images| as real), t.detections, |t.classes|)
  }

  /** A model's Total Detections is the number of boxes the detector reported
      for it over the whole corpus. */
  lemma TotalDetectionsFromDetector(model: Name, images: seq<Name>, detect: Detector, clock: Clock)
    requires |images| > 0
    ensures SummaryOf(model, images, detect, clock).totalDetections == Detections(model, images, detect)
  {
    TotalCountMatchesDetector(model, images, detect, clock);
  }

  /** The outer loop's per-image log: each model's records, models in
      registration order, one record per (model, image) pair. */
  function AllRecords(models: seq<Name>, images: seq<Name>, detect: Detector, clock: Clock): (log: seq<ImageRecord>)
    ensures |log| == |models| * |images|
  {
    if |models| == 0 then []
    else
      MulPred(|models|, |images|);
      Records(models[0], images, detect, clock) + AllRecords(models[1..], images, detect, clock)
  }

  /** The outer loop's summary list: one row per model, in registration order,
      row i being model i's own pass and totalling exactly the boxes the
      detector reported for that model. */
  function AllSummaries(models: seq<Name>, images: seq<Name>, detect: Detector, clock: Clock): (rows: seq<Summary>)
    requires |images| > 0
    ensures |rows| == |models|
    ensures forall i :: 0 <= i < |models| ==> rows[i] == SummaryOf(models[i], images, detect, clock)
    ensures forall i :: 0 <= i < |models| ==>
      rows[i].model == models[i] && rows[i].totalDetections == Detections(models[i], images, detect)
  {
    if |models| == 0 then []
    else
      var rest := AllSummaries(models[1..], images, detect, clock);
      var rows := [SummaryOf(models[0], images, detect, clock)] + rest;
      forall i | 0 <= i < |models|
        ensures rows[i] == SummaryOf(models[i], images, detect, clock)
        ensures rows[i].totalDetections == Detections(models[i], images, detect)
      {
        if i > 0 {
          assert rows[i] == rest[i - 1] && models[1..][i - 1] == models[i];
        }
        TotalDetectionsFromDetector(models[i], images, detect, clock);
      }
      rows
  }

  lemma MulPred(m: int, n: int)
    ensures m * n == n + (m - 1) * n
  {
  }

  lemma MulMonotone(a: int, n: int)
    requires a >= 1 && n > 0
    ensures a * n >= n
  {
  }

  lemma DivModUnique(k: int, n: int, q: int, r: int)
    requires 0 < n && 0 <= r < n && k == q * n + r
    ensures k / n == q && k % n == r
  {
    var q0, r0 := k / n, k % n;
    assert k == q0 * n + r0;
    assert (q - q0) * n == r0 - r by {
      MulPred(q - q0 + 1, n);
      assert (q - q0) * n == q * n - q0 * n;
    }
    if q > q0 {
      MulMonotone(q - q0, n);
    } else if q < q0 {
      MulMonotone(q0 - q, n);
    }
  }

  lemma DivModShift(k: int, n: int)
    requires 0 < n <= k
    ensures k / n == (k - n) / n + 1 && k % n == (k - n) % n
  {
    var q, r := (k - n) / n, (k - n) % n;
    MulPred(q + 1, n);
    DivModUnique(k, n, q + 1, r);
  }

  lemma {:induction false} AllRecordsAt(models: seq<Name>, images: seq<Name>, detect: Detector, clock: Clock, k: nat)
    requires |images| > 0 && k < |models| * |images|
    ensures k / |images| < |models|
    ensures k < |AllRecords(models, images, detect, clock)|
    ensures AllRecords(models, images, detect, clock)[k]
      == Measure(models[k / |images|], images[k % |images|], detect, clock)
  {
    var n := |images|;
    var head := Records(models[0], images, detect, clock);
    var rest := AllRecords(models[1..], images, detect, clock);
    assert AllRecords(models, images, detect, clock) == head + rest;
    MulPred(|models|, n);
    if k < n {
      DivModUnique(k, n, 0, k);
      assert (head + rest)[k] == head[k];
    } else {
      var q, r := (k - n) / n, (k - n) % n;
      DivModShift(k, n);
      assert k / n == q + 1 && k % n == r;
      AllRecordsAt(models[1..], images, detect, clock, k - n);
      assert rest[k - n] == Measure(models[1..][q], images[r], detect, clock);
      assert models[1..][q] == models[q + 1];
      assert (head + rest)[k] == rest[k - n];
    }
  }

  /** The log holds |models| * |images| records, model-outer and image-inner:
      the k-th comes from model k / |images| on image k % |images|. */
  lemma AllRecordsIndex(models: seq<Name>, images: seq<Name>, detect: Detector, clock: Clock)
    requires |images| > 0
    ensures var log := AllRecords(models, images, detect, clock);
      && |log| == |models| * |images|
      && forall k :: 0 <= k < |log| ==>
           log[k] == Measure(models[k / |images|], images[k % |images|], detect, clock)
  {
    forall k | 0 <= k < |models| * |images| {
      AllRecordsAt(models, images, detect, clock, k);
    }
  }

  /** Model i's records are the i-th block of |images| consecutive log entries. */
  lemma {:induction false} AllRecordsBlock(models: seq<Name>, images: seq<Name>, detect: Detector, clock: Clock, i: nat)
    requires |images| > 0 && i < |models|
    ensures var n := |images|; var log := AllRecords(models, images, detect, clock);
      && 0 <= i * n <= (i + 1) * n <= |log|
      && log[i * n..(i + 1) * n] == Records(models[i], images, detect, clock)
  {
    var n := |images|;
    var head := Records(models[0], images, detect, clock);
    var rest := AllRecords(models[1..], images, detect, clock);
    assert AllRecords(models, images, detect, clock) == head + rest;
    MulPred(i + 1, n);
    if i == 0 {
      assert (i + 1) * n == |head|;
      assert (head + rest)[..n] == head;
    } else {
      AllRecordsBlock(models[1..], images, detect, clock, i - 1);
      MulPred(i, n);
      var lo, hi := (i - 1) * n, i * n;
      assert rest[lo..hi] == Records(models[i], images, detect, clock) by {
        assert models[1..][i - 1] == models[i];
      }
      assert i * n == |head| + lo && (i + 1) * n == |head| + hi;
      SliceAfter(head, rest, lo, hi);
    }
  }

  /** A slice lying past the first part of a concatenation is a slice of the second. */
  lemma SliceAfter<T>(head: seq<T>, rest: seq<T>, lo: nat, hi: nat)
    requires lo <= hi <= |rest|
    ensures (head + rest)[|head| + lo..|head| + hi] == rest[lo..hi]
  {
  }

  lemma RecordsCons(model: Name, images: seq<Name>, detect: Detector, clock: Clock)
    requires |images| > 0
    ensures Records(model, images, detect, clock)
      == [Measure(model, images[0], detect, clock)] + Records(model, images[1..], detect, clock)
  {
  }

  lemma {:induction false} ElementsBound(ids: seq<int>)
    ensures |Elements(ids)| <= |ids|
    ensures |Elements(ids)| == 0 <==> |ids| == 0
  {
    if |ids| > 0 {
      assert ids[0] in Elements(ids);
      assert Elements(ids) == {ids[0]} + Elements(ids[1..]);
      ElementsBound(ids[1..]);
    }
  }

  /** The ids the class columns of a pass list are exactly the ids the detector
      returned for some image of the corpus. */
  lemma {:induction false} ClassesInRecords(model: Name, images: seq<Name>, detect: Detector, clock: Clock, x: int)
    ensures x in ClassesIn(Records(model, images, detect, clock))
      <==> exists j :: 0 <= j < |images| && x in detect(model, images[j])
  {
    if |images| > 0 {
      RecordsCons(model, images, detect, clock);
      ClassesInRecords(model, images[1..], detect, clock, x);
      var recs := Records(model, images, detect, clock);
      assert RecordClasses(recs[0]) == Elements(detect(model, images[0]));
      if x in detect(model, images[0]) {
      } else if exists j :: 0 <= j < |images| && x in detect(model, images[j]) {
        var j :| 0 <= j < |images| && x in detect(model, images[j]);
        assert x in detect(model, images[1..][j - 1]);
      }
    }
  }

  lemma {:induction false} ClassesInBound(model: Name, images: seq<Name>, detect: Detector, clock: Clock)
    ensures var recs := Records(model, images, detect, clock);
      && |ClassesIn(recs)| <= TotalCount(recs)
      && (ClassesIn(recs) == {} <==> TotalCount(recs) == 0)
  {
    if |images| > 0 {
      RecordsCons(model, images, detect, clock);
      ClassesInBound(model, images[1..], detect, clock);
      var ids := detect(model, images[0]);
      var recs := Records(model, images, detect, clock);
      assert RecordClasses(recs[0]) == Elements(ids);
      ElementsBound(ids);
    }
  }

  /** A model never reports more distinct classes than detections, and reports
      none exactly when it detected nothing on any image. */
  lemma UniqueAtMostTotal(model: Name, images: seq<Name>, detect: Detector, clock: Clock)
    requires |images| > 0
    ensures var s := SummaryOf(model, images, detect, clock);
      && s.uniqueClasses <= s.totalDetections
      && (s.uniqueClasses == 0 <==> s.totalDetections == 0)
      && (s.totalDetections == 0 <==> forall j :: 0 <= j < |images| ==> detect(model, images[j]) == [])
  {
    ClassesInBound(model, images, detect, clock);
    NoDetections(model, images, detect, clock);
  }

  lemma {:induction false} NoDetections(model: Name, images: seq<Name>, detect: Detector, clock: Clock)
    ensures TotalCount(Records(model, images, detect, clock)) == 0
      <==> forall j :: 0 <= j < |images| ==> detect(model, images[j]) == []
  {
    if |images| > 0 {
      RecordsCons(model, images, detect, clock);
      NoDetections(model, images[1..], detect, clock);
      if TotalCount(Records(model, images, detect, clock)) == 0 {
        forall j | 0 <= j < |images| ensures detect(model, images[j]) == [] {
          if j > 0 {
            assert images[j] == images[1..][j - 1];
          }
        }
      } else if forall j :: 0 <= j < |images| ==> detect(model, images[j]) == [] {
        forall j | 0 <= j < |images| - 1 ensures detect(model, images[1..][j]) == [] {
          assert images[1..][j] == images[j + 1];
        }
      }
    }
  }

  lemma {:induction false} TotalTimeNonNegative(model: Name, images: seq<Name>, detect: Detector, clock: Clock)
    requires forall j :: 0 <= j < |images| ==> clock(model, images[j]) >= 0.0
    ensures TotalTime(Records(model, images, detect, clock)) >= 0.0
  {
    if |images| > 0 {
      RecordsCons(model, images, detect, clock);
      forall j | 0 <= j < |images| - 1 ensures clock(model, images[1..][j]) >= 0.0 {
        assert images[1..][j] == images[j + 1];
      }
      TotalTimeNonNegative(model, images[1..], detect, clock);
    }
  }

  /** The average is non-negative whenever every call's elapsed time is. */
  lemma AverageNonNegative(model: Name, images: seq<Name>, detect: Detector, clock: Clock)
    requires |images| > 0
    requires forall j :: 0 <= j < |images| ==> clock(model, images[j]) >= 0.0
    ensures SummaryOf(model, images, detect, clock).avgTime >= 0.0
  {
    TotalTimeNonNegative(model, images, detect, clock);
    var total := TotalTime(Records(model, images, detect, clock));
    assert SummaryOf(model, images, detect, clock).avgTime == total / (|images| as real);
    QuotientNonNegative(total, |images| as real);
  }

  lemma QuotientNonNegative(x: real, n: real)
    requires x >= 0.0 && n > 0.0
    ensures x / n >= 0.0
  {
  }

  /** A model's records and summary depend only on that model's detector outputs
      and elapsed times over the corpus. In the fold this holds by construction,
      since each pass starts from `Fresh`; that the script's loops reset their
      totals per model (lines 26-28) is what `Runner.RunBenchmark` establishes. */
  lemma PassIsLocal(model: Name, images: seq<Name>, detect: Detector, clock: Clock, detect': Detector, clock': Clock)
    requires forall j :: 0 <= j < |images| ==>
      detect(model, images[j]) == detect'(model, images[j]) && clock(model, images[j]) == clock'(model, images[j])
    ensures Records(model, images, detect, clock) == Records(model, images, detect', clock')
    ensures |images| > 0 ==> SummaryOf(model, images, detect, clock) == SummaryOf(model, images, detect', clock')
  {
  }

  /** Inside a whole run, model i's summary row is the row that model would get
      if it were the only one registered, under any oracles agreeing on it. The
      fold maps each model to its own pass, so this is a consequence of the
      fold's shape; the reset of the script's totals is carried by
      `Runner.RunBenchmark`, which proves the loops equal to the fold. */
  lemma SummaryIsLocal(models: seq<Name>, images: seq<Name>, detect: Detector, clock: Clock,
                       i: nat, detect': Detector, clock': Clock)
    requires |images| > 0 && i < |models|
    requires forall j :: 0 <= j < |images| ==>
      detect(models[i], images[j]) == detect'(models[i], images[j])
      && clock(models[i], images[j]) == clock'(models[i], images[j])
    ensures Run(models, images, detect, clock).value.summaries[i]
      == Run([models[i]], images, detect', clock').value.summaries[0]
  {
    PassIsLocal(models[i], images, detect, clock, detect', clock');
  }

  /** Each summary row agrees with that model's block of the per-image log:
      average of its elapsed times over the corpus size, sum of its detection
      counts, number of distinct ids its class columns list. */
  lemma SummariesMatchLog(models: seq<Name>, images: seq<Name>, detect: Detector, clock: Clock, i: nat)
    requires |images| > 0 && i < |models|
    ensures 0 <= i * |images| && i * |images| + |images| == (i + 1) * |images| <= |models| * |images|
    ensures var report := Run(models, images, detect, clock);
      report.Success? && |report.value.perImage| == |models| * |images| && |report.value.summaries| == |models|
    ensures var n := |images|; var report := Run(models, images, detect, clock).value;
      var block := report.perImage[i * n..(i + 1) * n];
      && (forall j :: 0 <= j < n ==> block[j].model == models[i] && block[j].image == images[j])
      && report.summaries[i].avgTime == TotalTime(block) / (n as real)
      && report.summaries[i].totalDetections == TotalCount(block)
      && report.summaries[i].uniqueClasses == |ClassesIn(block)|
  {
    var n := |images|;
    MulLeq(i + 1, |models|, n);
    MulPred(i + 1, n);
    AllRecordsBlock(models, images, detect, clock, i);
    var report := Run(models, images, detect, clock).value;
    assert report == Report(AllRecords(models, images, detect, clock), AllSummaries(models, images, detect, clock));
    var recs := Records(models[i], images, detect, clock);
    assert report.perImage[i * n..(i + 1) * n] == recs;
    assert report.summaries[i] == SummaryOf(models[i], images, detect, clock);
  }

  lemma MulLeq(a: nat, b: nat, n: nat)
    requires a <= b
    ensures a * n <= b * n
  {
  }

  /** The whole benchmark over a given corpus (lines 16-61). */
  function Run(models: seq<Name>, images: seq<Name>, detect: Detector, clock: Clock): (r: Result<Report, RunError>)
    ensures r.Failure? <==> |images| == 0
    ensures r.Success? ==>
      && |r.value.perImage| == |models| * |images|
      && forall k :: 0 <= k < |r.value.perImage| ==>
           r.value.perImage[k] == Measure(models[k / |images|], images[k % |images|], detect, clock)
    ensures r.Success? ==>
      && |r.value.summaries| == |models|
      && forall i :: 0 <= i < |models| ==> r.value.summaries[i].model == models[i]
  {
    if |images| == 0 then Failure(EmptyCorpus)
    else
      AllRecordsIndex(models, images, detect, clock);
      Success(Report(AllRecords(models, images, detect, clock), AllSummaries(models, images, detect, clock)))
  }

  /** The script end to end: the corpus is selected from the directory listing,
      and an empty one stops the run with no records and no summary rows. */
  function CompareModels(listing: seq<Name>, models: seq<Name>, detect: Detector, clock: Clock): (r: Result<Report, RunError>)
    ensures r.Failure? <==> forall i :: 0 <= i < |listing| ==> !Corpus.IsImage(listing[i])
    ensures r.Success? ==> |r.value.perImage| == |models| * |Corpus.SelectCorpus(listing)|
  {
    Run(models, Corpus.SelectCorpus(listing), detect, clock)
  }
}
