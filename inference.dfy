/**
 * The detection logger (rpicam_infer.py).
 *
 * Every `interval` seconds a frame is read from the camera stream and run
 * through the object-detection model. The boxes the model reports with a
 * confidence of at least 0.07 become the detections of a frame record, which
 * is appended to the JSON list kept in annotations.json. The capture loop
 * stops once more than 100 frames have been processed.
 *
 * The model, the camera, the clock and the file system are external: the
 * model's output, the camera's read results, the clock readings and the
 * file's parsed content are inputs here.
 */
module Inference {
  import opened Wrappers

  const ConfidenceThreshold: real := 0.07
  const AnnotatedDir: string := "/home/efelsenthal/frame_annotated"
  const FrameLimit: nat := 100

  /** One row of a result's `boxes.data`: corners, confidence and class index. */
  datatype Box = Box(x1: real, y1: real, x2: real, y2: real, conf: real, cls: real)

  /** One result of `model.predict`; `boxes` is None when the attribute is missing or None. */
  datatype Prediction = Prediction(boxes: Option<seq<Box>>)

  datatype Detection = Detection(className: string, confidence: real, bbox: seq<int>)

  datatype FrameRecord = FrameRecord(timestamp: string, imageFile: string, detections: seq<Detection>)

  /** Python's `int()` on a number: truncation toward zero. */
  function Trunc(x: real): int
  {
    if x >= 0.0 then x.Floor else -((-x).Floor)
  }

  /** Trunc drops the fractional part: it never moves away from zero, and by less than one. */
  lemma TruncTowardZero(x: real)
    ensures 0.0 <= x ==> Trunc(x) as real <= x < Trunc(x) as real + 1.0
    ensures x < 0.0 ==> Trunc(x) as real - 1.0 < x <= Trunc(x) as real
  {
  }

  /** `os.path.join(dir, name)` on POSIX. */
  function Join(dir: string, name: string): string
  {
    if |name| > 0 && name[0] == '/' then name
    else if dir == [] || dir[|dir| - 1] == '/' then dir + name
    else dir + "/" + name
  }

  /** The joined path ends with the name and, unless the name is absolute, starts with the directory. */
  lemma JoinKeepsParts(dir: string, name: string)
    ensures var path := Join(dir, name);
            && |path| >= |name| && path[|path| - |name|..] == name
            && ((|name| == 0 || name[0] != '/') ==> |path| >= |dir| && path[..|dir|] == dir)
  {
  }

  function ImageFile(dir: string, timestamp: string): string
  {
    Join(dir, "annotated_" + timestamp + ".jpg")
  }

  predicate Qualifies(b: Box)
  {
    b.conf >= ConfidenceThreshold
  }

  /** The detection stored for a kept box whose class index is in `names`. */
  function Describe(b: Box, names: map<int, string>): Detection
    requires Trunc(b.cls) in names
  {
    Detection(names[Trunc(b.cls)], b.conf, [Trunc(b.x1), Trunc(b.y1), Trunc(b.x2), Trunc(b.y2)])
  }

  // ---------------------------------------------------------------------------
  // Filtering the model's boxes
  // ---------------------------------------------------------------------------

  /**
   * The detections kept from a sequence of boxes, walked in order. A kept box
   * whose class index is not in `names` raises KeyError, reported as Failure
   * with that index.
   */
  function Kept(boxes: seq<Box>, names: map<int, string>): (r: Result<seq<Detection>, int>)
    ensures r.Success? ==> |r.value| <= |boxes|
    ensures r.Success? ==> forall d | d in r.value :: d.confidence >= ConfidenceThreshold
    ensures r.Failure? ==> r.error !in names
  {
    if boxes == [] then Success([])
    else
      var b := boxes[|boxes| - 1];
      match Kept(boxes[..|boxes| - 1], names)
      case Failure(k) => Failure(k)
      case Success(ds) =>
        if Qualifies(b) then
          var k := Trunc(b.cls);
          if k in names then Success(ds + [Describe(b, names)]) else Failure(k)
        else
          Success(ds)
  }

  /** The walk succeeds exactly when every box at or above the threshold names a known class. */
  lemma {:induction false} KeptSucceeds(boxes: seq<Box>, names: map<int, string>)
    ensures Kept(boxes, names).Success? <==> forall i | 0 <= i < |boxes| && Qualifies(boxes[i]) :: Trunc(boxes[i].cls) in names
  {
    if boxes != [] {
      var init := boxes[..|boxes| - 1];
      KeptSucceeds(init, names);
      assert forall i | 0 <= i < |init| :: init[i] == boxes[i];
    }
  }

  /** Reference definition: the boxes at or above the threshold, in order. */
  function Qualifying(boxes: seq<Box>): (q: seq<Box>)
    ensures forall b | b in q :: Qualifies(b) && b in boxes
  {
    if boxes == [] then []
    else (if Qualifies(boxes[0]) then [boxes[0]] else []) + Qualifying(boxes[1..])
  }

  lemma {:induction false} QualifyingAppend(a: seq<Box>, b: seq<Box>)
    ensures Qualifying(a + b) == Qualifying(a) + Qualifying(b)
  {
    if a != [] {
      assert (a + b)[1..] == a[1..] + b;
      QualifyingAppend(a[1..], b);
    } else {
      assert a + b == b;
    }
  }

  /**
   * The kept detections are exactly the qualifying boxes, in the order they
   * were reported, each described by its class name, confidence and corners.
   */
  lemma {:induction false} KeptInOrder(boxes: seq<Box>, names: map<int, string>)
    requires Kept(boxes, names).Success?
    ensures var ds, q := Kept(boxes, names).value, Qualifying(boxes);
            && |ds| == |q|
            && forall i | 0 <= i < |q| :: Trunc(q[i].cls) in names && ds[i] == Describe(q[i], names)
  {
    if boxes != [] {
      var init, last := boxes[..|boxes| - 1], boxes[|boxes| - 1];
      KeptInOrder(init, names);
      assert init + [last] == boxes;
      QualifyingAppend(init, [last]);
      assert Qualifying([last]) == if Qualifies(last) then [last] else [] by {
        assert [last][1..] == [];
      }
    }
  }

  /** A kept box whose class is unknown spoils every longer walk: the KeyError is raised there first. */
  lemma {:induction false} KeptFailurePersists(a: seq<Box>, b: seq<Box>, names: map<int, string>)
    requires Kept(a, names).Failure?
    ensures Kept(a + b, names) == Kept(a, names)
  {
    if b != [] {
      var init := b[..|b| - 1];
      KeptFailurePersists(a, init, names);
      assert (a + b)[..|a + b| - 1] == a + init;
    } else {
      assert a + b == a;
    }
  }

  // ---------------------------------------------------------------------------
  // The frame record
  // ---------------------------------------------------------------------------

  function BoxesOf(p: Prediction): seq<Box>
  {
    match p.boxes
    case None => []
    case Some(bs) => bs
  }

  /** The boxes of all results, results first, then boxes within a result. */
  function AllBoxes(predictions: seq<Prediction>): seq<Box>
  {
    if predictions == [] then []
    else AllBoxes(predictions[..|predictions| - 1]) + BoxesOf(predictions[|predictions| - 1])
  }

  lemma {:induction false} AllBoxesAppend(a: seq<Prediction>, b: seq<Prediction>)
    ensures AllBoxes(a + b) == AllBoxes(a) + AllBoxes(b)
  {
    if b != [] {
      var init := b[..|b| - 1];
      AllBoxesAppend(a, init);
      assert (a + b)[..|a + b| - 1] == a + init;
      assert (a + b)[|a + b| - 1] == b[|b| - 1];
    } else {
      assert a + b == a;
    }
  }

  /** The record `infer` builds (lines 30-55), or the class index whose lookup raised. */
  function FrameRecordFor(predictions: seq<Prediction>, names: map<int, string>, timestamp: string, dir: string)
    : Result<FrameRecord, int>
  {
    match Kept(AllBoxes(predictions), names)
    case Success(ds) => Success(FrameRecord(timestamp, ImageFile(dir, timestamp), ds))
    case Failure(k) => Failure(k)
  }

  /** A result without boxes contributes nothing, wherever it stands. */
  lemma IgnoredPrediction(a: seq<Prediction>, b: seq<Prediction>, names: map<int, string>, timestamp: string, dir: string)
    ensures FrameRecordFor(a + [Prediction(None)] + b, names, timestamp, dir) == FrameRecordFor(a + b, names, timestamp, dir)
  {
    var none := Prediction(None);
    assert AllBoxes(a + [none] + b) == AllBoxes(a + b) by {
      AllBoxesAppend(a + [none], b);
      AllBoxesSnoc(a, none);
      AllBoxesAppend(a, b);
      assert AllBoxes(a) + BoxesOf(none) == AllBoxes(a);
    }
  }

  lemma AllBoxesSnoc(a: seq<Prediction>, p: Prediction)
    ensures AllBoxes(a + [p]) == AllBoxes(a) + BoxesOf(p)
  {
    assert (a + [p])[..|a|] == a;
  }

  /** The boxes walked so far: all of the first i results and the first j boxes of result i. */
  lemma WalkedPrefix(predictions: seq<Prediction>, i: nat, j: nat)
    requires i < |predictions| && j <= |BoxesOf(predictions[i])|
    ensures var bs := BoxesOf(predictions[i]);
            AllBoxes(predictions) == (AllBoxes(predictions[..i]) + bs[..j]) + (bs[j..] + AllBoxes(predictions[i + 1..]))
  {
    var bs := BoxesOf(predictions[i]);
    var before, after := predictions[..i], predictions[i + 1..];
    assert predictions == (before + [predictions[i]]) + after;
    AllBoxesAppend(before + [predictions[i]], after);
    AllBoxesSnoc(before, predictions[i]);
    Regroup(AllBoxes(before), bs[..j], bs[j..], AllBoxes(after));
    assert bs[..j] + bs[j..] == bs;
  }

  /** Regrouping four concatenated sequences. */
  lemma Regroup<T>(w: seq<T>, x: seq<T>, y: seq<T>, z: seq<T>)
    ensures (w + x) + (y + z) == (w + (x + y)) + z
  {
  }

  /**
   * The record-building part of `infer` (lines 30-55): walks the results and
   * their boxes, appending a detection for every box at or above the threshold.
   */
  method BuildFrameRecord(predictions: seq<Prediction>, names: map<int, string>, timestamp: string, outputDir: string)
    returns (r: Result<FrameRecord, int>)
    ensures r == FrameRecordFor(predictions, names, timestamp, outputDir)
  {
    var annotated := Join(outputDir, "annotated_" + timestamp + ".jpg");
    var detections: seq<Detection> := [];
    var i := 0;
    assert predictions[..0] == [];
    while i < |predictions|
      invariant 0 <= i <= |predictions|
      invariant Kept(AllBoxes(predictions[..i]), names) == Success(detections)
    {
      var result := predictions[i];
      ghost var walked := AllBoxes(predictions[..i]);
      if result.boxes.Some? {
        var boxes := result.boxes.value;
        var kept := KeepBoxes(walked, boxes, names, detections);
        if kept.Failure? {
          assert boxes[..|boxes|] == boxes;
          FailureEscapes(predictions, i, |boxes|, names);
          return Failure(kept.error);
        }
        detections := kept.value;
      } else {
        assert walked + BoxesOf(result) == walked;
      }
      AllBoxesPrefixStep(predictions, i);
      i := i + 1;
    }
    assert predictions[..i] == predictions;
    r := Success(FrameRecord(timestamp, annotated, detections));
  }

  /**
   * The inner loop of the walk (lines 37-55): the boxes of one result, after
   * `walked` has already produced `detections`.
   */
  method KeepBoxes(ghost walked: seq<Box>, boxes: seq<Box>, names: map<int, string>, detections: seq<Detection>)
    returns (r: Result<seq<Detection>, int>)
    requires Kept(walked, names) == Success(detections)
    ensures r == Kept(walked + boxes, names)
  {
    var kept := detections;
    var j := 0;
    assert walked + boxes[..0] == walked;
    while j < |boxes|
      invariant 0 <= j <= |boxes|
      invariant Kept(walked + boxes[..j], names) == Success(kept)
    {
      var box := boxes[j];
      WalkOneMore(walked, boxes, j, names);
      if box.conf >= ConfidenceThreshold {
        var k := Trunc(box.cls);
        if k !in names {
          KeptFailurePersists(walked + boxes[..j + 1], boxes[j + 1..], names);
          assert (walked + boxes[..j + 1]) + boxes[j + 1..] == walked + boxes;
          return Failure(k);
        }
        kept := kept + [Describe(box, names)];
      }
      j := j + 1;
    }
    assert boxes[..j] == boxes;
    r := Success(kept);
  }

  /** A KeyError raised partway through the walk is the outcome of the whole walk. */
  lemma FailureEscapes(predictions: seq<Prediction>, i: nat, j: nat, names: map<int, string>)
    requires i < |predictions| && j <= |BoxesOf(predictions[i])|
    requires Kept(AllBoxes(predictions[..i]) + BoxesOf(predictions[i])[..j], names).Failure?
    ensures Kept(AllBoxes(predictions), names) == Kept(AllBoxes(predictions[..i]) + BoxesOf(predictions[i])[..j], names)
  {
    var bs := BoxesOf(predictions[i]);
    WalkedPrefix(predictions, i, j);
    KeptFailurePersists(AllBoxes(predictions[..i]) + bs[..j], bs[j..] + AllBoxes(predictions[i + 1..]), names);
  }

  /** One more box walked after a successful walk. */
  lemma WalkOneMore(walked: seq<Box>, boxes: seq<Box>, j: nat, names: map<int, string>)
    requires j < |boxes|
    requires Kept(walked + boxes[..j], names).Success?
    ensures var ds, b := Kept(walked + boxes[..j], names).value, boxes[j];
            Kept(walked + boxes[..j + 1], names) ==
              if !Qualifies(b) then Success(ds)
              else if Trunc(b.cls) in names then Success(ds + [Describe(b, names)])
              else Failure(Trunc(b.cls))
  {
    var w := walked + boxes[..j + 1];
    assert w[..|w| - 1] == walked + boxes[..j];
    assert w[|w| - 1] == boxes[j];
  }

  lemma AllBoxesPrefixStep(predictions: seq<Prediction>, i: nat)
    requires i < |predictions|
    ensures AllBoxes(predictions[..i + 1]) == AllBoxes(predictions[..i]) + BoxesOf(predictions[i])
  {
    assert predictions[..i + 1][..i] == predictions[..i];
  }

  // ---------------------------------------------------------------------------
  // The annotations file
  // ---------------------------------------------------------------------------

  /** annotations.json as `json.load` sees it: absent, not a JSON list, or a list of records. */
  datatype JsonFile = Missing | Unreadable | Records(entries: seq<FrameRecord>)

  /** The file after appending records one at a time: only a readable list grows. */
  function AppendAll(file: JsonFile, records: seq<FrameRecord>): JsonFile
  {
    if file.Records? then Records(file.entries + records) else file
  }

  lemma AppendAllSnoc(file: JsonFile, records: seq<FrameRecord>, record: FrameRecord)
    ensures AppendAll(AppendAll(file, records), [record]) == AppendAll(file, records + [record])
  {
    if file.Records? {
      assert (file.entries + records) + [record] == file.entries + (records + [record]);
    }
  }

  class AnnotationsFile {
    var content: JsonFile

    constructor (content: JsonFile)
      ensures this.content == content
    {
      this.content := content;
    }

    /** Lines 94-98 remove every file in the annotated-frames directory, this one included. */
    method Remove()
      modifies this
      ensures content == Missing
    {
      content := Missing;
    }

    /** Lines 103-106: a missing file is created holding an empty list. */
    method CreateIfMissing()
      modifies this
      ensures content == if old(content).Missing? then Records([]) else old(content)
    {
      if content.Missing? {
        content := Records([]);
      }
    }

    /**
     * Lines 62-70: load the list, append the record, write the list back. A
     * missing or unreadable file raises, the error is logged, and the file is
     * left as it was.
     */
    method Append(record: FrameRecord) returns (ok: bool)
      modifies this
      ensures ok <==> old(content).Records?
      ensures content == AppendAll(old(content), [record])
    {
      if content.Records? {
        var data := content.entries;
        data := data + [record];
        content := Records(data);
        ok := true;
      } else {
        ok := false;
      }
    }
  }

  /** `infer`: builds the frame record and appends it to the file; a KeyError skips the append. */
  method Infer(predictions: seq<Prediction>, names: map<int, string>, timestamp: string, outputDir: string, file: AnnotationsFile)
    returns (r: Result<FrameRecord, int>)
    modifies file
    ensures r == FrameRecordFor(predictions, names, timestamp, outputDir)
    ensures file.content == if r.Success? then AppendAll(old(file.content), [r.value]) else old(file.content)
  {
    r := BuildFrameRecord(predictions, names, timestamp, outputDir);
    if r.Success? {
      var _ := file.Append(r.value);
    }
  }

  // ---------------------------------------------------------------------------
  // The capture loop
  // ---------------------------------------------------------------------------

  /** A frame decoded by `cap.read()`: what the model reports for it and the timestamp `infer` reads. */
  datatype Shot = Shot(predictions: seq<Prediction>, timestamp: string)

  /**
   * One pass of `while True`: the clock at the interval check (line 120), the
   * frame if `cap.read()` succeeds (None when it returns False), and the clock
   * after inference (line 135).
   */
  datatype Tick = Tick(checkedAt: real, frame: Option<Shot>, finishedAt: real)

  datatype Ending = OutOfTicks | LimitReached | Crashed(classIndex: int)

  /** The ticks whose frames were processed, the records built for them, and how the loop ended. */
  datatype Run = Run(taken: seq<int>, records: seq<FrameRecord>, ending: Ending)

  /** The record `infer` builds for a frame, saved under the annotated-frames directory. */
  function ShotRecord(shot: Shot, names: map<int, string>): Result<FrameRecord, int>
  {
    FrameRecordFor(shot.predictions, names, shot.timestamp, AnnotatedDir)
  }

  /** The record builder `capture_frames` runs on each frame. */
  function RecordsFor(names: map<int, string>): Shot -> Result<FrameRecord, int>
  {
    shot => ShotRecord(shot, names)
  }

  predicate Due(t: Tick, startTime: real, interval: real)
  {
    t.checkedAt - startTime >= interval
  }

  /**
   * The capture loop from tick i on, with the given clock reference and frame
   * count. The record builder is a parameter, so what is proved about the loop
   * holds whatever the model reports; CaptureFrames runs it with RecordsFor.
   */
  function Capture(ticks: seq<Tick>, infer: Shot -> Result<FrameRecord, int>, interval: real, i: nat, startTime: real, count: nat): Run
    requires i <= |ticks|
    decreases |ticks| - i
  {
    if count > FrameLimit then Run([], [], LimitReached)
    else if i == |ticks| then Run([], [], OutOfTicks)
    else
      var t := ticks[i];
      if Due(t, startTime, interval) && t.frame.Some? then
        match infer(t.frame.value)
        case Failure(k) => Run([], [], Crashed(k))
        case Success(record) =>
          var rest := Capture(ticks, infer, interval, i + 1, t.finishedAt, count + 1);
          Run([i] + rest.taken, [record] + rest.records, rest.ending)
      else
        Capture(ticks, infer, interval, i + 1, startTime, count)
  }

  /**
   * The frame count grows by one per processed frame, never passes 101, and
   * the loop stops for the frame limit exactly when it reaches 101.
   */
  lemma {:induction false} CaptureCounts(ticks: seq<Tick>, infer: Shot -> Result<FrameRecord, int>, interval: real, i: nat, startTime: real, count: nat)
    requires i <= |ticks| && count <= FrameLimit + 1
    ensures var run := Capture(ticks, infer, interval, i, startTime, count);
            && |run.records| == |run.taken|
            && count + |run.taken| <= FrameLimit + 1
            && (run.ending == LimitReached <==> count + |run.taken| == FrameLimit + 1)
    decreases |ticks| - i
  {
    if count <= FrameLimit && i < |ticks| {
      CaptureCounts(ticks, infer, interval, i + 1, ticks[i].finishedAt, count + 1);
      CaptureCounts(ticks, infer, interval, i + 1, startTime, count);
    }
  }

  /** Every processed tick lies in [from, |ticks|) and carries a frame that was read. */
  predicate TakenFrames(ticks: seq<Tick>, taken: seq<int>, from: nat)
  {
    forall k | 0 <= k < |taken| :: from <= taken[k] < |ticks| && ticks[taken[k]].frame.Some?
  }

  predicate Increasing(taken: seq<int>)
  {
    forall k | 0 < k < |taken| :: taken[k - 1] < taken[k]
  }

  /** Record k is what `infer` builds for the frame of processed tick k. */
  predicate RecordsMatch(ticks: seq<Tick>, infer: Shot -> Result<FrameRecord, int>, taken: seq<int>, records: seq<FrameRecord>)
  {
    && |records| == |taken|
    && forall k | 0 <= k < |taken| ::
         0 <= taken[k] < |ticks| && ticks[taken[k]].frame.Some? && infer(ticks[taken[k]].frame.value) == Success(records[k])
  }

  /**
   * The first processed tick is checked at least `interval` after the start;
   * each later one at least `interval` after the previous inference ended.
   */
  predicate Spaced(ticks: seq<Tick>, taken: seq<int>, startTime: real, interval: real)
  {
    && (forall k | 0 <= k < |taken| :: 0 <= taken[k] < |ticks|)
    && (|taken| > 0 ==> Due(ticks[taken[0]], startTime, interval))
    && (forall k | 0 < k < |taken| :: Due(ticks[taken[k]], ticks[taken[k - 1]].finishedAt, interval))
  }

  /** One step of Capture: what a run from tick i is made of. */
  lemma CaptureUnfold(ticks: seq<Tick>, infer: Shot -> Result<FrameRecord, int>, interval: real, i: nat, startTime: real, count: nat)
    requires i < |ticks| && count <= FrameLimit
    ensures var t, run := ticks[i], Capture(ticks, infer, interval, i, startTime, count);
            if !(Due(t, startTime, interval) && t.frame.Some?) then
              run == Capture(ticks, infer, interval, i + 1, startTime, count)
            else if infer(t.frame.value).Failure? then
              run == Run([], [], Crashed(infer(t.frame.value).error))
            else
              var rest := Capture(ticks, infer, interval, i + 1, t.finishedAt, count + 1);
              run == Run([i] + rest.taken, [infer(t.frame.value).value] + rest.records, rest.ending)
  {
  }

  lemma ConsTaken(ticks: seq<Tick>, i: nat, rest: seq<int>)
    requires i < |ticks| && ticks[i].frame.Some?
    requires TakenFrames(ticks, rest, i + 1) && Increasing(rest)
    ensures TakenFrames(ticks, [i] + rest, i) && Increasing([i] + rest)
  {
    var run := [i] + rest;
    forall k | 0 < k < |run|
      ensures run[k] == rest[k - 1]
    {
    }
  }

  lemma ConsRecord(ticks: seq<Tick>, infer: Shot -> Result<FrameRecord, int>, i: nat, record: FrameRecord, taken: seq<int>, records: seq<FrameRecord>)
    requires i < |ticks| && ticks[i].frame.Some? && infer(ticks[i].frame.value) == Success(record)
    requires RecordsMatch(ticks, infer, taken, records)
    ensures RecordsMatch(ticks, infer, [i] + taken, [record] + records)
  {
    var t, r := [i] + taken, [record] + records;
    forall k | 0 < k < |t|
      ensures t[k] == taken[k - 1] && r[k] == records[k - 1]
    {
    }
  }

  lemma ConsSpaced(ticks: seq<Tick>, i: nat, rest: seq<int>, startTime: real, interval: real)
    requires i < |ticks| && Due(ticks[i], startTime, interval)
    requires Spaced(ticks, rest, ticks[i].finishedAt, interval)
    ensures Spaced(ticks, [i] + rest, startTime, interval)
  {
    var run := [i] + rest;
    forall k | 0 < k < |run|
      ensures run[k] == rest[k - 1]
    {
    }
    if |rest| > 0 {
      assert run[1] == rest[0];
    }
  }

  /** Only frames that were read successfully are processed, in tick order. */
  lemma {:induction false} CaptureTakes(ticks: seq<Tick>, infer: Shot -> Result<FrameRecord, int>, interval: real, i: nat, startTime: real, count: nat)
    requires i <= |ticks|
    ensures var run := Capture(ticks, infer, interval, i, startTime, count);
            TakenFrames(ticks, run.taken, i) && Increasing(run.taken)
    decreases |ticks| - i
  {
    if count <= FrameLimit && i < |ticks| {
      var t := ticks[i];
      CaptureUnfold(ticks, infer, interval, i, startTime, count);
      if !(Due(t, startTime, interval) && t.frame.Some?) {
        CaptureTakes(ticks, infer, interval, i + 1, startTime, count);
      } else if infer(t.frame.value).Success? {
        CaptureTakes(ticks, infer, interval, i + 1, t.finishedAt, count + 1);
        ConsTaken(ticks, i, Capture(ticks, infer, interval, i + 1, t.finishedAt, count + 1).taken);
      } else {
        assert Capture(ticks, infer, interval, i, startTime, count).taken == [];
      }
    }
  }

  /** The k-th record is the one `infer` builds for the k-th processed frame. */
  lemma {:induction false} CaptureRecords(ticks: seq<Tick>, infer: Shot -> Result<FrameRecord, int>, interval: real, i: nat, startTime: real, count: nat)
    requires i <= |ticks|
    ensures var run := Capture(ticks, infer, interval, i, startTime, count);
            RecordsMatch(ticks, infer, run.taken, run.records)
    decreases |ticks| - i
  {
    if count <= FrameLimit && i < |ticks| {
      var t := ticks[i];
      CaptureUnfold(ticks, infer, interval, i, startTime, count);
      if !(Due(t, startTime, interval) && t.frame.Some?) {
        CaptureRecords(ticks, infer, interval, i + 1, startTime, count);
      } else if infer(t.frame.value).Success? {
        var rest := Capture(ticks, infer, interval, i + 1, t.finishedAt, count + 1);
        CaptureRecords(ticks, infer, interval, i + 1, t.finishedAt, count + 1);
        ConsRecord(ticks, infer, i, infer(t.frame.value).value, rest.taken, rest.records);
      } else {
        assert Capture(ticks, infer, interval, i, startTime, count).taken == [];
      }
    }
  }

  /** Frames are taken no more often than the interval allows. */
  lemma {:induction false} CaptureSpacing(ticks: seq<Tick>, infer: Shot -> Result<FrameRecord, int>, interval: real, i: nat, startTime: real, count: nat)
    requires i <= |ticks|
    ensures var run := Capture(ticks, infer, interval, i, startTime, count);
            Spaced(ticks, run.taken, startTime, interval)
    decreases |ticks| - i
  {
    if count <= FrameLimit && i < |ticks| {
      var t := ticks[i];
      CaptureUnfold(ticks, infer, interval, i, startTime, count);
      if !(Due(t, startTime, interval) && t.frame.Some?) {
        CaptureSpacing(ticks, infer, interval, i + 1, startTime, count);
      } else if infer(t.frame.value).Success? {
        CaptureSpacing(ticks, infer, interval, i + 1, t.finishedAt, count + 1);
        ConsSpaced(ticks, i, Capture(ticks, infer, interval, i + 1, t.finishedAt, count + 1).taken, startTime, interval);
      } else {
        assert Capture(ticks, infer, interval, i, startTime, count).taken == [];
      }
    }
  }

  /** No tick in [from, to) is due relative to `since` with a frame read. */
  predicate Quiet(ticks: seq<Tick>, from: int, to: int, since: real, interval: real)
  {
    && 0 <= from
    && to <= |ticks|
    && forall j | from <= j < to :: !(Due(ticks[j], since, interval) && ticks[j].frame.Some?)
  }

  /**
   * No due tick with a frame is passed over: none before the first processed
   * tick, none between two processed ticks, and, when the ticks run out, none
   * after the last processed one.
   */
  predicate NoneSkipped(ticks: seq<Tick>, run: Run, i: nat, startTime: real, interval: real)
  {
    var taken := run.taken;
    && (forall k | 0 <= k < |taken| :: i <= taken[k] < |ticks|)
    && (|taken| > 0 ==> Quiet(ticks, i, taken[0], startTime, interval))
    && (forall k | 0 < k < |taken| :: Quiet(ticks, taken[k - 1] + 1, taken[k], ticks[taken[k - 1]].finishedAt, interval))
    && (run.ending == OutOfTicks ==>
          if |taken| == 0 then Quiet(ticks, i, |ticks|, startTime, interval)
          else Quiet(ticks, taken[|taken| - 1] + 1, |ticks|, ticks[taken[|taken| - 1]].finishedAt, interval))
  }

  lemma SkipQuiet(ticks: seq<Tick>, run: Run, i: nat, startTime: real, interval: real)
    requires i < |ticks| && !(Due(ticks[i], startTime, interval) && ticks[i].frame.Some?)
    requires NoneSkipped(ticks, run, i + 1, startTime, interval)
    ensures NoneSkipped(ticks, run, i, startTime, interval)
  {
  }

  lemma ConsNoneSkipped(ticks: seq<Tick>, i: nat, record: FrameRecord, rest: Run, startTime: real, interval: real)
    requires i < |ticks|
    requires NoneSkipped(ticks, rest, i + 1, ticks[i].finishedAt, interval)
    ensures NoneSkipped(ticks, Run([i] + rest.taken, [record] + rest.records, rest.ending), i, startTime, interval)
  {
    var taken := [i] + rest.taken;
    forall k | 0 < k < |taken|
      ensures taken[k] == rest.taken[k - 1]
    {
    }
    if |rest.taken| > 0 {
      assert taken[1] == rest.taken[0];
      assert taken[|taken| - 1] == rest.taken[|rest.taken| - 1];
    }
  }

  /** Frames are taken as soon as the interval allows: no due frame is passed over. */
  lemma {:induction false} CaptureNoSkip(ticks: seq<Tick>, infer: Shot -> Result<FrameRecord, int>, interval: real, i: nat, startTime: real, count: nat)
    requires i <= |ticks|
    ensures NoneSkipped(ticks, Capture(ticks, infer, interval, i, startTime, count), i, startTime, interval)
    decreases |ticks| - i
  {
    if count <= FrameLimit && i < |ticks| {
      var t := ticks[i];
      CaptureUnfold(ticks, infer, interval, i, startTime, count);
      if !(Due(t, startTime, interval) && t.frame.Some?) {
        CaptureNoSkip(ticks, infer, interval, i + 1, startTime, count);
        SkipQuiet(ticks, Capture(ticks, infer, interval, i + 1, startTime, count), i, startTime, interval);
      } else if infer(t.frame.value).Success? {
        var rest := Capture(ticks, infer, interval, i + 1, t.finishedAt, count + 1);
        CaptureNoSkip(ticks, infer, interval, i + 1, t.finishedAt, count + 1);
        ConsNoneSkipped(ticks, i, infer(t.frame.value).value, rest, startTime, interval);
      } else {
        assert Capture(ticks, infer, interval, i, startTime, count).taken == [];
      }
    }
  }

  /**
   * `capture_frames` from the clearing of the annotated-frames directory on
   * (lines 94-141), over a finite supply of ticks: the ticks it processes, its
   * frame count and how it ended, and the annotations file it leaves, which
   * holds exactly the records of this run.
   */
  method CaptureFrames(ticks: seq<Tick>, names: map<int, string>, interval: real, start: real, file: AnnotationsFile)
    returns (taken: seq<int>, frameCount: nat, ending: Ending)
    modifies file
    ensures var run := Capture(ticks, RecordsFor(names), interval, 0, start, 0);
            taken == run.taken && ending == run.ending && frameCount == |taken|
    ensures file.content == Records(Capture(ticks, RecordsFor(names), interval, 0, start, 0).records)
  {
    file.Remove();
    file.CreateIfMissing();
    ghost var created := file.content;
    ghost var whole := Capture(ticks, RecordsFor(names), interval, 0, start, 0);
    ghost var records: seq<FrameRecord> := [];
    var startTime := start;
    frameCount := 0;
    taken := [];
    var i := 0;
    while true
      invariant 0 <= i <= |ticks|
      invariant frameCount == |taken| <= FrameLimit
      invariant Continues(whole, taken, records, Capture(ticks, RecordsFor(names), interval, i, startTime, frameCount))
      invariant file.content == AppendAll(created, records)
      decreases |ticks| - i
    {
      if i == |ticks| {
        ending := OutOfTicks;
        break;
      }
      ghost var here := Capture(ticks, RecordsFor(names), interval, i, startTime, frameCount);
      var tick := ticks[i];
      i := i + 1;
      if tick.checkedAt - startTime >= interval {
        if tick.frame.None? {
          assert here == Capture(ticks, RecordsFor(names), interval, i, startTime, frameCount) by {
            CaptureUnfold(ticks, RecordsFor(names), interval, i - 1, startTime, frameCount);
          }
          continue;
        }
        var shot := tick.frame.value;
        var r := Infer(shot.predictions, names, shot.timestamp, AnnotatedDir, file);
        if r.Failure? {
          assert here == Run([], [], Crashed(r.error)) by {
            CaptureUnfold(ticks, RecordsFor(names), interval, i - 1, startTime, frameCount);
          }
          ending := Crashed(r.error);
          ContinuesDone(whole, taken, records, here);
          return;
        }
        ghost var rest := Capture(ticks, RecordsFor(names), interval, i, tick.finishedAt, frameCount + 1);
        assert here == Run([i - 1] + rest.taken, [r.value] + rest.records, rest.ending) by {
          CaptureUnfold(ticks, RecordsFor(names), interval, i - 1, startTime, frameCount);
        }
        ContinuesStep(whole, taken, records, i - 1, r.value, rest);
        AppendAllSnoc(created, records, r.value);
        records := records + [r.value];
        taken := taken + [i - 1];
        startTime := tick.finishedAt;
        frameCount := frameCount + 1;
      } else {
        assert here == Capture(ticks, RecordsFor(names), interval, i, startTime, frameCount) by {
          CaptureUnfold(ticks, RecordsFor(names), interval, i - 1, startTime, frameCount);
        }
      }
      if frameCount > FrameLimit {
        ending := LimitReached;
        break;
      }
    }
    ContinuesDone(whole, taken, records, Capture(ticks, RecordsFor(names), interval, i, startTime, frameCount));
  }

  /** The whole run is what has been done so far followed by the run from here on. */
  predicate Continues(whole: Run, taken: seq<int>, records: seq<FrameRecord>, rest: Run)
  {
    whole.taken == taken + rest.taken && whole.records == records + rest.records && whole.ending == rest.ending
  }

  lemma ContinuesDone(whole: Run, taken: seq<int>, records: seq<FrameRecord>, rest: Run)
    requires Continues(whole, taken, records, rest) && rest.taken == [] && rest.records == []
    ensures whole.taken == taken && whole.records == records && whole.ending == rest.ending
  {
    assert taken + [] == taken && records + [] == records;
  }

  lemma ContinuesStep(whole: Run, taken: seq<int>, records: seq<FrameRecord>, i: nat, record: FrameRecord, rest: Run)
    requires Continues(whole, taken, records, Run([i] + rest.taken, [record] + rest.records, rest.ending))
    ensures Continues(whole, taken + [i], records + [record], rest)
  {
    assert taken + ([i] + rest.taken) == (taken + [i]) + rest.taken;
    assert records + ([record] + rest.records) == (records + [record]) + rest.records;
  }
}
