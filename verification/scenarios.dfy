/** Concrete runs of the benchmark, worked out in full. */
module Scenarios {
  import opened Wrappers
  import Render
  import Corpus
  import opened Benchmark

  function DetectA(model: Name, image: Name): seq<int> {
    if image == "a.jpg" then [0, 1] else [1]
  }

  function ClockA(model: Name, image: Name): real {
    if image == "a.jpg" then 0.10 else 0.20
  }

  lemma JoinExamples()
    ensures Render.Join([0, 1]) == "0, 1" && Render.Join([1]) == "1" && Render.Join([]) == ""
  {
    assert Render.ShowInt(0) == "0";
    assert Render.ShowInt(1) == "1";
    assert [0, 1][1..] == [1];
  }

  const RowA := ImageRecord("a.jpg", "YOLOv5n", 0.10, 2, "0, 1")
  const RowB := ImageRecord("b.jpg", "YOLOv5n", 0.20, 1, "1")

  lemma RecordsA()
    ensures Records("YOLOv5n", ["a.jpg", "b.jpg"], DetectA, ClockA) == [RowA, RowB]
  {
    JoinExamples();
    var recs := Records("YOLOv5n", ["a.jpg", "b.jpg"], DetectA, ClockA);
    assert recs[0] == RowA;
    assert recs[1] == RowB;
  }

  lemma TotalsA()
    ensures TotalTime([RowA, RowB]) == 0.30
    ensures TotalCount([RowA, RowB]) == 3
    ensures |ClassesIn([RowA, RowB])| == 2
  {
    JoinExamples();
    assert [RowA, RowB][1..] == [RowB] && [RowB][1..] == [];
    assert TotalTime([RowA, RowB]) == 0.10 + TotalTime([RowB]) == 0.10 + (0.20 + TotalTime([]));
    assert TotalCount([RowA, RowB]) == 2 + TotalCount([RowB]) == 2 + (1 + TotalCount([]));
    Render.DecodeJoin([0, 1]);
    Render.DecodeJoin([1]);
    assert RecordClasses(RowA) == {0, 1} by {
      assert Elements([0, 1]) == {0, 1};
    }
    assert RecordClasses(RowB) == {1} by {
      assert Elements([1]) == {1};
    }
    assert ClassesIn([RowA, RowB]) == RecordClasses(RowA) + ClassesIn([RowB]);
    assert ClassesIn([RowB]) == RecordClasses(RowB) + ClassesIn([]);
    assert |{0, 1}| == 2 by {
      assert {0, 1} == {0} + {1};
    }
  }

  /** One model, two images: classes {0, 1} in 0.10 s, then class {1} in 0.20 s. */
  lemma OneModelTwoImages()
    ensures Run(["YOLOv5n"], ["a.jpg", "b.jpg"], DetectA, ClockA)
      == Success(Report([RowA, RowB], [Summary("YOLOv5n", 0.15, 3, 2)]))
  {
    var images := ["a.jpg", "b.jpg"];
    RecordsA();
    TotalsA();
    var s := SummaryOf("YOLOv5n", images, DetectA, ClockA);
    assert s.avgTime == 0.30 / 2.0 == 0.15;
    assert s == Summary("YOLOv5n", 0.15, 3, 2);
    assert AllRecords(["YOLOv5n"], images, DetectA, ClockA) == [RowA, RowB] + AllRecords([], images, DetectA, ClockA);
    assert AllRecords([], images, DetectA, ClockA) == [];
    assert [RowA, RowB] + [] == [RowA, RowB];
    assert AllSummaries(["YOLOv5n"], images, DetectA, ClockA) == [s];
    assert Run(["YOLOv5n"], images, DetectA, ClockA)
      == Success(Report(AllRecords(["YOLOv5n"], images, DetectA, ClockA), AllSummaries(["YOLOv5n"], images, DetectA, ClockA)));
  }

  function DetectNothing(model: Name, image: Name): seq<int> {
    []
  }

  function ClockB(model: Name, image: Name): real {
    if model == "YOLOv5n" then 0.05 else 0.08
  }

  lemma OnePass(model: Name, time: real)
    requires ClockB(model, "street.png") == time
    ensures Records(model, ["street.png"], DetectNothing, ClockB) == [ImageRecord("street.png", model, time, 0, "")]
    ensures SummaryOf(model, ["street.png"], DetectNothing, ClockB) == Summary(model, time, 0, 0)
  {
    JoinExamples();
    var recs := Records(model, ["street.png"], DetectNothing, ClockB);
    assert recs[0] == ImageRecord("street.png", model, time, 0, "");
    assert recs[1..] == [];
    assert Render.Decode("") == Some([]);
    assert ClassesIn(recs) == {};
  }

  const RowN := ImageRecord("street.png", "YOLOv5n", 0.05, 0, "")
  const RowS := ImageRecord("street.png", "YOLOv5s", 0.08, 0, "")

  /** Two models, one image, nothing detected: both rows report no detections and
      no classes, each average is that single call's time, and the class columns
      are empty. */
  lemma TwoModelsNothingDetected()
    ensures Run(["YOLOv5n", "YOLOv5s"], ["street.png"], DetectNothing, ClockB)
      == Success(Report([RowN, RowS], [Summary("YOLOv5n", 0.05, 0, 0), Summary("YOLOv5s", 0.08, 0, 0)]))
  {
    var models := ["YOLOv5n", "YOLOv5s"];
    var images := ["street.png"];
    OnePass("YOLOv5n", 0.05);
    OnePass("YOLOv5s", 0.08);
    assert models[1..] == ["YOLOv5s"] && models[1..][1..] == [];
    assert AllRecords([], images, DetectNothing, ClockB) == [];
    assert AllRecords(["YOLOv5s"], images, DetectNothing, ClockB) == [RowS] + [];
    assert AllRecords(models, images, DetectNothing, ClockB) == [RowN] + [RowS];
    assert [RowN] + [RowS] == [RowN, RowS];
    assert AllSummaries(models, images, DetectNothing, ClockB)
      == [SummaryOf("YOLOv5n", images, DetectNothing, ClockB), SummaryOf("YOLOv5s", images, DetectNothing, ClockB)];
    assert Run(models, images, DetectNothing, ClockB)
      == Success(Report(AllRecords(models, images, DetectNothing, ClockB), AllSummaries(models, images, DetectNothing, ClockB)));
  }

  /** The listing order is not the corpus order: ".jpg" entries come first, and
      entries with other extensions are ignored. */
  lemma JpgBeforePng()
    ensures Corpus.SelectCorpus(["b.png", "notes.txt", "a.jpg"]) == ["a.jpg", "b.png"]
  {
    GlobExample();
  }

  lemma GlobExample()
    ensures Corpus.Glob(["b.png", "notes.txt", "a.jpg"], Corpus.Jpg) == ["a.jpg"]
    ensures Corpus.Glob(["b.png", "notes.txt", "a.jpg"], Corpus.Png) == ["b.png"]
  {
    ExtensionExamples();
    var listing := ["b.png", "notes.txt", "a.jpg"];
    assert listing[1..] == ["notes.txt", "a.jpg"] && listing[1..][1..] == ["a.jpg"] && ["a.jpg"][1..] == [];
  }

  lemma ExtensionExamples()
    ensures Corpus.EndsWith("b.png", Corpus.Png) && !Corpus.EndsWith("b.png", Corpus.Jpg)
    ensures Corpus.EndsWith("a.jpg", Corpus.Jpg) && !Corpus.EndsWith("a.jpg", Corpus.Png)
    ensures !Corpus.EndsWith("notes.txt", Corpus.Jpg) && !Corpus.EndsWith("notes.txt", Corpus.Png)
  {
    assert "b.png"[1..] == Corpus.Png && "a.jpg"[1..] == Corpus.Jpg && "notes.txt"[5..] == ".txt";
  }

  /** A directory without images stops the run before any model is called. */
  lemma NoImagesNoOutput(models: seq<Name>, detect: Detector, clock: Clock)
    ensures CompareModels(["readme.md", "photo.jpeg"], models, detect, clock) == Failure(EmptyCorpus)
  {
    var listing := ["readme.md", "photo.jpeg"];
    assert !Corpus.IsImage(listing[0]);
    assert !Corpus.IsImage(listing[1]);
  }
}
