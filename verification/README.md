# YOLO model comparison — a Dafny model of the benchmark fold

`compare_models.py` runs several object-detection models over one corpus of
images and writes two tables: a per-image log (Image, Model, Inference Time,
Detection Count, Detected Classes), one row per (model, image) call, and a
comparison summary (Model, Avg Inference Time, Total Detections, Unique Classes
Detected), one row per model. This project models the bookkeeping of that
script as pure Dafny functions and proves what the two tables say about each other.

- `corpus.dfy` (`Corpus`): the image list is every directory entry ending in
  `.jpg`, followed by every entry ending in `.png`.
- `render.dfy` (`Render`): the Detected Classes column, `", ".join` of the class
  ids written as Python decimal integers, with `Decode` (split on `", "`, read
  each piece as an integer) as its inverse.
- `benchmark.dfy` (`Benchmark`): one inference call (`Measure`), the running
  totals threaded through a model's pass (`Step`, `Scan`), the summary row
  (`SummaryOf`), the whole run (`Run`), and the script from directory listing
  to both tables (`CompareModels`). The totals are also defined independently
  as folds over the per-image records (`TotalTime`, `TotalCount`, `ClassesIn`),
  and the summary is proved to agree with them.
- `runner.dfy` (`Runner`): the two nested loops as the script writes them, with
  in-place totals, proved to compute exactly `CompareModels`.
- `scenarios.dfy` (`Scenarios`): concrete runs worked out in full.
- `wrappers.dfy` (`Wrappers`): `Option` and `Result`.

The detector is a parameter: a function from (model name, image name) to the
class ids of the boxes it reports, so a record's detection count is the length
of that list. Elapsed time is a second parameter, a `real` per (model, image).
A registered model is its name; the registration list is an input sequence.
An empty corpus ends the run with `Failure(EmptyCorpus)`. No records and no
summary rows exist then, which is what the script's `exit()` amounts to.

Elapsed times are not assumed non-negative. The code takes the difference of
two wall-clock readings, and nothing forces that difference to be non-negative,
so the model accepts any real. Non-negativity of the average is proved
only under the hypothesis that every elapsed time is non-negative
(`Benchmark.AverageNonNegative`).

## Model

| member | source | states |
|---|---|---|
| `Corpus.Glob` | compare_models.py:14 | every matched entry carries the extension; each name occurs in the result exactly as often as in the listing if it carries the extension, otherwise never |
| `Corpus.GlobAppend` | compare_models.py:14 | globbing a concatenated listing is the concatenation of the globs, so matched entries keep their listing order |
| `Corpus.SelectCorpus` | compare_models.py:14 | every image ends in `.jpg` or `.png`; the `.jpg` ones come first, exactly as many positions as there are `.jpg` entries; each image-named entry of the listing appears as often as it is listed, and nothing else appears; the corpus is empty iff no listed name has either extension |
| `Render.Join` | compare_models.py:50 | the Detected Classes string is empty iff there are no class ids |
| `Render.ParseShowInt` | compare_models.py:50 | reading back the decimal text of any integer, negative ones included, gives that integer |
| `Render.DecodeJoin` | compare_models.py:50 | splitting the rendered string on `", "` and parsing the pieces recovers the original id sequence, order and duplicates included |
| `Render.JoinInjective` | compare_models.py:50 | two different class-id lists never render to the same string |
| `Benchmark.Measure` | compare_models.py:33-51 | one call's record names the image and the model, carries that call's elapsed time, counts exactly the boxes the detector returned, and its Detected Classes text is the `", "`-joined decimal rendering of the ids the detector returned, which decodes back to exactly those ids in box order; its class string is empty iff its detection count is 0 |
| `Benchmark.Step` | compare_models.py:40-42 | folding one call into the running totals forgets no class seen before and no detection counted before; every id of the call is seen afterwards; the seen-class set grows by at most the call's detection count (its full effect on all three totals is stated by `Benchmark.ScanTotals`) |
| `Benchmark.Scan` | compare_models.py:32-42 | over a whole pass, too, the detection count and the seen-class set only grow, the set by at most the detections added; the time total is not monotone, since elapsed times may be negative (its closed form over the pass's records is `Benchmark.ScanTotals`) |
| `Benchmark.Records` | compare_models.py:32-51 | one pass appends one record per image of the corpus (which record for which image is stated by `Benchmark.AllRecordsIndex`) |
| `Benchmark.TotalCountMatchesDetector` | compare_models.py:38-49 | the detection counts of a pass's records add up to the number of boxes the detector reported for the model over the corpus |
| `Benchmark.ScanTotals` | compare_models.py:26-42 | folding the images into totals that start at `t` yields `t` plus the elapsed sum, plus the detection-count sum, and `t`'s classes united with every class listed in the pass's records |
| `Benchmark.SummaryOf` | compare_models.py:53-61 | a model's summary row names the model; its average is the elapsed sum of its records divided by the number of images; its total detections is the sum of their detection counts; its unique classes is the number of distinct ids in their class columns |
| `Benchmark.TotalDetectionsFromDetector` | compare_models.py:38-59 | a model's Total Detections is the number of boxes the detector reported for it, summed over every image of the corpus |
| `Benchmark.AllRecords` | compare_models.py:25-51 | the per-image log of all passes has (number of models) × (number of images) records (their order and contents are `Benchmark.AllRecordsIndex` and `Benchmark.AllRecordsBlock`) |
| `Benchmark.AllSummaries` | compare_models.py:25-61 | one summary row per model, in registration order; row i is model i's own pass and its Total Detections is the number of boxes the detector reported for model i over the corpus (the row's agreement with the log is `Benchmark.SummariesMatchLog`) |
| `Benchmark.AllRecordsIndex` | compare_models.py:25-51 | with n images, the log has (number of models) × n records, model-outer and image-inner: record k is model k / n on image k % n |
| `Benchmark.AllRecordsBlock` | compare_models.py:25-51 | model i's records are exactly log positions i·n to (i+1)·n, where n is the number of images |
| `Benchmark.Run` | compare_models.py:16-61 | an empty corpus, and only an empty corpus, gives the error and no tables; otherwise the log has (number of models) × (number of images) records in model-outer, image-inner order, and there is one summary row per model, in registration order |
| `Benchmark.CompareModels` | compare_models.py:14-18 | the run fails iff no entry of the listing ends in `.jpg` or `.png`; otherwise the log has (number of models) × (corpus size) records |
| `Benchmark.ClassesInRecords` | compare_models.py:42-50 | an id is listed in some class column of a model's pass iff the detector returned it for that model on some image of the corpus |
| `Benchmark.UniqueAtMostTotal` | compare_models.py:41-60 | unique classes never exceed total detections; unique classes is 0 iff total detections is 0; total detections is 0 iff the detector returned nothing on every image |
| `Benchmark.AverageNonNegative` | compare_models.py:53 | if every elapsed time of the model is non-negative, so is its average |
| `Benchmark.PassIsLocal` | compare_models.py:26-28 | a model's records and summary are equal under any two detector/clock pairs that agree on that model over the corpus |
| `Benchmark.SummaryIsLocal` | compare_models.py:25-61 | model i's summary row in a full run equals its row when it is registered alone, under any oracles agreeing on it: the totals are reset per model, so other models cannot leak in |
| `Benchmark.SummariesMatchLog` | compare_models.py:45-60 | summary row i agrees with block i of the per-image log: all of that block's records are model i, on the images in corpus order; the row's average, total detections and unique classes are the block's elapsed sum over the corpus size, its detection-count sum, and the number of distinct ids its class columns list |
| `Runner.RunModel` | compare_models.py:26-61 | the inner loop, with totals updated in place, appends exactly the pass's records and produces exactly the model's summary row |
| `Runner.RunModels` | compare_models.py:25-61 | the outer loop, appending each model's records and summary row in registration order, produces exactly the successful run's report |
| `Runner.RunBenchmark` | compare_models.py:14-61 | the script's corpus selection, empty-corpus guard and nested loops compute exactly `CompareModels`, so every property above holds of the loops |
| `Scenarios.OneModelTwoImages` | compare_models.py:25-61 | one model over two images, with classes [0, 1] in 0.10 s and [1] in 0.20 s, gives records "0, 1" and "1" and the summary (0.15, 3, 2) |
| `Scenarios.TwoModelsNothingDetected` | compare_models.py:25-61 | two models over one image, neither detecting anything: empty class strings, and each summary has 0 detections, 0 classes, and an average equal to its single call's time |
| `Scenarios.JpgBeforePng` | compare_models.py:14 | the listing ["b.png", "notes.txt", "a.jpg"] gives the corpus ["a.jpg", "b.png"] |
| `Scenarios.NoImagesNoOutput` | compare_models.py:16-18 | the listing ["readme.md", "photo.jpeg"], whose `photo.jpeg` matches neither the `*.jpg` nor the `*.png` glob, ends the run with the empty-corpus error for any models and oracles (the general statement is `Benchmark.CompareModels`) |

## Left out

- Model construction and inference with the `ultralytics` YOLO library (lines 4, 7-10, 34, 37-38): foreign code. It is replaced by the detector parameter. Converting the box class tensor to `int` is part of it. A detector that raises an exception is not modelled: the parameter is a total function, and a failure would abort the script anyway.
- `time.time()` (lines 33, 35): wall clock. It is replaced by the elapsed-time parameter.
- `round(..., 4)` (lines 48, 58): floating-point rounding. Times and averages are exact reals.
- Benchmark.Measure: the record's Inference Time is the exact elapsed value, not that value rounded to 4 decimal places, because rounding of floats is left out.
- Benchmark.SummaryOf: the row's Avg Inference Time is the exact quotient, not rounded to 4 decimal places, for the same reason.
- Float accumulation of `total_time` (line 40): the sum is exact over reals.
- Directory globbing (lines 13-14): the listing is an input sequence of entry names. Enumeration order, case sensitivity, hidden files and directories whose names match are properties of the filesystem and `pathlib`. The detector receives the image name where the script passes the full path.
- The `models` dictionary (lines 7-10): the registration list is a sequence of names. The dictionary's key uniqueness is not imposed, and the fold does not need it.
- Console output, the fixed-width summary table and the two CSV files (lines 17, 30, 63-90): I/O. The parse-back of the written CSV files is not modelled. Only the Detected Classes column has an inverse (`Render.Decode`), which the script itself never uses.
- `exit()` (line 18): modelled as the `EmptyCorpus` failure result.
