# Knotweed robot: a verified model of its control, streaming and detection code

This project models, in Dafny, three pieces of the knotweed robot's Python code
and proves properties of them:

- **Manual drive** (`joystick.py`, module `Joystick` in `joystick.dfy`). Raw
  controller stick samples are normalised to [-1, 1] and mixed into commands for
  the two track motors: outside a 0.2 dead-zone on the forward stick, a turn is
  mixed into one track with weight 0.9; inside it, both motors are stopped and
  then spun in opposite directions at 0.75 of the turn stick. Two buttons switch
  the camera between its HTTP-streaming and file-recording systemd services.
  The motors and systemd are objects (`Motors`, `Services`) that record, in
  order, the calls made on them. `Controller` holds the two axis registers, and
  its methods `ControlTracks`, `StopMotors`, `HandleEvent` and `Listen` update
  that state in place, as the script's globals are.
- **MJPEG relay** (`webserver/app.py`, module `Mjpeg` in `mjpeg.dfy`). The
  bytes received from the camera accumulate in a buffer. While the buffer holds
  both a JPEG start marker (FF D8) and an end marker (FF D9), the bytes from the
  first start marker through the first end marker are cut out as a frame, and
  the buffer drops everything through that end marker. Each frame is sent in a
  multipart part. `Generate` and `CutFrames` keep the source's nested loops.
  They are proved equal to `SplitFrames`, a specification that splits all the
  accepted bytes at once, whatever the chunking.
- **Detection logger** (`rpicam_infer.py`, module `Inference` in
  `inference.dfy`). The model's boxes with confidence at least 0.07 become the
  detections of a frame record. The record is appended to the JSON list in
  `annotations.json`. The capture loop takes a frame at the first check, with
  a successful read, that comes at least one interval after the last inference
  ended. It never takes one earlier and never passes one over. It stops after
  frame 101.
  `BuildFrameRecord` and `CaptureFrames` keep the source's loops. The file is a
  class, `AnnotationsFile`, whose content the methods update.

`wrappers.dfy` holds the `Option` and `Result` types shared by the modules.

A few facts worth knowing about the code:

- No raw stick sample in -32768..32767 normalises to exactly 0. A released stick
  (raw 0) reads as 1/65535, so with both sticks released the controller still
  sends the two motors opposite-direction commands at the non-zero speed
  0.75/65535 (`AxisNeverCentred`, `SpinInPlace`). Whether a motor turns at that
  duty cycle is outside the model.
- When the first end marker comes before the first start marker, the relay
  emits an empty frame and drops the bytes up to that end marker. This follows
  Python's slice semantics and is modelled as written (`NextFrameCuts`).
- `capture_frames` clears every file in the annotated-frames directory,
  `annotations.json` included, before it checks whether that file exists. Each
  run therefore starts from an empty list, and the file ends up holding exactly
  the records of that run (`CaptureFrames`).
- A class index missing from the model's name table raises KeyError outside any
  `try`. This ends the whole capture loop (`Crashed`).

The system's design description also covers an autonomous search-and-approach
state machine, the arbitration between it and manual drive, and a third
"start-search" button. None of these exist in the code. The model follows the
code: manual drive, two buttons, the relay, and the detection logger.

## Model

Source paths are relative to the repository root.

| member | source | states |
|---|---|---|
| Joystick.Normalize | robot-source/home/efelsenthal/projects/joystick.py:48-50 | the result always lies in [-1, 1]; for a sample inside a non-empty range it is exactly the linear map of line 49 |
| Joystick.NormalizeEndpoints | robot-source/home/efelsenthal/projects/joystick.py:48-50 | the range's minimum maps to -1 and its maximum to 1 |
| Joystick.NormalizeMonotone | robot-source/home/efelsenthal/projects/joystick.py:48-50 | a larger sample never normalises to a smaller value |
| Joystick.AxisEndpoints | robot-source/home/efelsenthal/projects/joystick.py:57-58 | with the stick range -32768..32767, full deflection reads -1 and 1 |
| Joystick.AxisNeverCentred | robot-source/home/efelsenthal/projects/joystick.py:57-58 | no raw sample normalises to 0; raw 0 reads as 1/65535 |
| Joystick.Clamp | robot-source/home/efelsenthal/projects/joystick.py:52-53 | result within [min, max] when min <= max; identity inside the range; saturates at either end; min when the bounds are inverted |
| Joystick.ClampMonotone | robot-source/home/efelsenthal/projects/joystick.py:52-53 | clamping preserves order |
| Joystick.TrackCalls | robot-source/home/efelsenthal/projects/joystick.py:55-91 | every speed handed to a motor lies in [0, 1] |
| Joystick.ForwardMixing | robot-source/home/efelsenthal/projects/joystick.py:61-69 | stick forward past the dead-zone: A then B both forward; the turn-side track (A when rx > 0) gets the forward intent less 0.9·abs(rx), clamped, never more than the other track |
| Joystick.BackwardMixing | robot-source/home/efelsenthal/projects/joystick.py:70-78 | the mirror image for the stick pulled back: both tracks backward, turn-side track reduced |
| Joystick.SpinInPlace | robot-source/home/efelsenthal/projects/joystick.py:79-88 | inside the dead-zone: stop A, stop B, then A and B in opposite directions (A forward iff rx > 0) at 0.75·abs(rx), which is never 0 |
| Joystick.Motors.Forward | robot-source/home/efelsenthal/projects/joystick.py:64-65 | a forward call is recorded after all earlier calls |
| Joystick.Motors.Backward | robot-source/home/efelsenthal/projects/joystick.py:73-74 | a backward call is recorded after all earlier calls |
| Joystick.Motors.Stop | robot-source/home/efelsenthal/projects/joystick.py:95-96 | a stop call is recorded after all earlier calls |
| Joystick.Services.Stop | robot-source/home/efelsenthal/projects/joystick.py:123-124 | a stop request is recorded after all earlier requests |
| Joystick.Services.Start | robot-source/home/efelsenthal/projects/joystick.py:126-127 | a start request is recorded after all earlier requests |
| Joystick.Controller.StopMotors | robot-source/home/efelsenthal/projects/joystick.py:93-99 | appends exactly stop A, stop B |
| Joystick.Controller.ControlTracks | robot-source/home/efelsenthal/projects/joystick.py:55-91 | appends exactly the calls TrackCalls describes, and nothing else changes |
| Joystick.ServiceCalls | robot-source/home/efelsenthal/projects/joystick.py:113-119 | requests are made iff the event is a press (value 1) of button 305 or 304; the first stops the other mode's service; a start is requested iff that stop succeeded, and it is the second and last request, starting rpicam-vid.service for 305 and rpicam-file.service for 304 |
| Joystick.ButtonsMirror | robot-source/home/efelsenthal/projects/joystick.py:114-119 | button 304 makes the same requests as button 305 with the two services swapped |
| Joystick.Controller.HandleEvent | robot-source/home/efelsenthal/projects/joystick.py:101-121 | the new state is Dispatch of the old one: an ABS_Y or ABS_RX event sets its own register only, and every ABS event then drives the tracks from both registers; key events touch only the services |
| Joystick.ReplayAxes | robot-source/home/efelsenthal/projects/joystick.py:104-111 | after any event sequence, each register holds the value of the last event for its own axis, or its old value if there was none; the motor log only grows |
| Joystick.ReplaySpeedsInRange | robot-source/home/efelsenthal/projects/joystick.py:138-139 | after any event sequence every speed ever sent to a motor lies in [0, 1] |
| Joystick.Controller.Listen | robot-source/home/efelsenthal/projects/joystick.py:132-141 | handling the events one by one yields Replay of the whole sequence |
| Mjpeg.IndexOf | robot-source/home/efelsenthal/projects/webserver/app.py:51-53 | None iff the marker does not occur; otherwise the first position where it occurs |
| Mjpeg.IndexOfPrefix | robot-source/home/efelsenthal/projects/webserver/app.py:48-53 | appending bytes does not move a marker's first occurrence already present |
| Mjpeg.NextFrame | robot-source/home/efelsenthal/projects/webserver/app.py:51-55 | a cut is made iff both markers occur, and it shrinks the buffer by at least 2 bytes |
| Mjpeg.NextFrameCuts | robot-source/home/efelsenthal/projects/webserver/app.py:52-55 | the buffer keeps only the bytes after the first end marker; the frame is empty when that marker precedes the first start marker, and otherwise runs from the start marker through the end marker with no end marker in between |
| Mjpeg.NextFrameAppend | robot-source/home/efelsenthal/projects/webserver/app.py:48-55 | bytes arriving later do not change a cut the buffer already allows |
| Mjpeg.SplitFrames | robot-source/home/efelsenthal/projects/webserver/app.py:51-55 | when cutting stops, the buffer lacks one of the two markers, and it is never longer than before |
| Mjpeg.SplitLeavesTail | robot-source/home/efelsenthal/projects/webserver/app.py:55 | what is left is a suffix of the buffer: bytes are only dropped from the front |
| Mjpeg.SplitFramesShaped | robot-source/home/efelsenthal/projects/webserver/app.py:51-55 | every emitted frame is empty or starts with FF D8, ends with FF D9 and has no earlier FF D9 |
| Mjpeg.SplitAppend | robot-source/home/efelsenthal/projects/webserver/app.py:43-55 | splitting a + b gives a's frames, then the frames of a's leftover followed by b: how the bytes were chunked does not matter |
| Mjpeg.SplitOneImage | robot-source/home/efelsenthal/projects/webserver/app.py:51-55 | a single complete image splits into itself with nothing left over |
| Mjpeg.SplitImages | robot-source/home/efelsenthal/projects/webserver/app.py:51-55 | round trip: complete images sent back to back split into exactly those images with nothing left over |
| Mjpeg.WrapRoundTrip | robot-source/home/efelsenthal/projects/webserver/app.py:58-59 | the frame can be read back out of its multipart part; the part is the header, the frame and CRLF |
| Mjpeg.WrapAll | robot-source/home/efelsenthal/projects/webserver/app.py:58-59 | one part per frame, in order |
| Mjpeg.WrapAllAppend | robot-source/home/efelsenthal/projects/webserver/app.py:58-59 | wrapping distributes over concatenation |
| Mjpeg.Accepted | robot-source/home/efelsenthal/projects/webserver/app.py:45-47 | reading stops at the first empty chunk: all earlier chunks are non-empty |
| Mjpeg.AcceptedIs | robot-source/home/efelsenthal/projects/webserver/app.py:45-47 | the first empty chunk's position is the only count with that property |
| Mjpeg.StreamStep | robot-source/home/efelsenthal/projects/webserver/app.py:45-55 | one more chunk adds exactly the frames of the old leftover followed by that chunk |
| Mjpeg.CutFrames | robot-source/home/efelsenthal/projects/webserver/app.py:51-59 | the inner loop yields the wrapped frames of SplitFrames and leaves its remainder |
| Mjpeg.Generate | robot-source/home/efelsenthal/projects/webserver/app.py:42-59 | the parts yielded and the final buffer are those of splitting all accepted bytes at once; the final buffer lacks one marker |
| Inference.TruncTowardZero | robot-source/home/efelsenthal/projects/rpicam_infer.py:54 | int() drops the fractional part toward zero, by less than one |
| Inference.JoinKeepsParts | robot-source/home/efelsenthal/projects/rpicam_infer.py:31 | the joined path ends with the file name and, for a relative name, starts with the directory |
| Inference.Kept | robot-source/home/efelsenthal/projects/rpicam_infer.py:35-55 | on success no more detections than boxes, each with confidence at least 0.07; a failure names a class index absent from the table |
| Inference.KeptSucceeds | robot-source/home/efelsenthal/projects/rpicam_infer.py:41-42 | the walk succeeds iff every box at or above the threshold has a class index in the name table |
| Inference.KeptInOrder | robot-source/home/efelsenthal/projects/rpicam_infer.py:35-55 | the detections are exactly the qualifying boxes in reported order, each with its class name, confidence and truncated corners |
| Inference.KeptFailurePersists | robot-source/home/efelsenthal/projects/rpicam_infer.py:42 | once a lookup fails, no later box changes the outcome |
| Inference.AllBoxesAppend | robot-source/home/efelsenthal/projects/rpicam_infer.py:35-37 | results are walked in order, each result's boxes in order |
| Inference.IgnoredPrediction | robot-source/home/efelsenthal/projects/rpicam_infer.py:36 | a result without boxes contributes nothing, wherever it stands |
| Inference.KeepBoxes | robot-source/home/efelsenthal/projects/rpicam_infer.py:37-55 | the loop over one result's boxes continues the walk: its outcome is Kept of the boxes walked before followed by these boxes, including the KeyError exit |
| Inference.BuildFrameRecord | robot-source/home/efelsenthal/projects/rpicam_infer.py:30-55 | the nested loops build FrameRecordFor: the record of the qualifying detections, or the class index whose lookup raised |
| Inference.AnnotationsFile.Remove | robot-source/home/efelsenthal/projects/rpicam_infer.py:94-98 | clearing the directory deletes the file |
| Inference.AnnotationsFile.CreateIfMissing | robot-source/home/efelsenthal/projects/rpicam_infer.py:103-106 | a missing file becomes an empty list; an existing one is untouched |
| Inference.AnnotationsFile.Append | robot-source/home/efelsenthal/projects/rpicam_infer.py:62-70 | a readable list gains the record at its end; otherwise the file is unchanged and the error reported |
| Inference.Infer | robot-source/home/efelsenthal/projects/rpicam_infer.py:21-70 | returns FrameRecordFor; the record is appended to the file exactly when it was built |
| Inference.CaptureCounts | robot-source/home/efelsenthal/projects/rpicam_infer.py:135-141 | the frame count never passes 101, and the loop stops for the limit exactly when it reaches 101 |
| Inference.CaptureTakes | robot-source/home/efelsenthal/projects/rpicam_infer.py:120-124 | only ticks with a successfully read frame are processed, in strictly increasing order |
| Inference.CaptureRecords | robot-source/home/efelsenthal/projects/rpicam_infer.py:120-133 | record k is what inference builds for the frame of processed tick k |
| Inference.CaptureSpacing | robot-source/home/efelsenthal/projects/rpicam_infer.py:120-135 | the first frame is taken at least one interval after the start, and each later one at least one interval after the previous inference finished |
| Inference.CaptureNoSkip | robot-source/home/efelsenthal/projects/rpicam_infer.py:115-124 | no check that is due and has a successful read is passed over: none before the first processed one, none between two processed ones, and, when the checks run out, none after the last processed one |
| Inference.CaptureFrames | robot-source/home/efelsenthal/projects/rpicam_infer.py:94-141 | the loop processes the ticks Capture describes, counts them, ends as Capture says, and leaves the file holding exactly the records of this run |

## Left out

- Device discovery, the motor and GPIO set-up and the `exit(1)` when no controller is found (joystick.py lines 17-40): start-up I/O, before any of the modelled logic runs.
- `restart_service` (joystick.py lines 129-130): it is never called.
- Logging everywhere: it has no effect on the modelled state.
- Joystick.Controller.ControlTracks: motor calls are assumed not to raise. In the source, an exception from gpiozero is swallowed at line 90 and the remaining calls are skipped.
- Joystick.Normalize, Joystick.TrackCalls: arithmetic is on exact reals, not IEEE doubles. The stated bounds and orderings do not depend on rounding.
- Joystick.TrackCalls: the branch where the forward value is 0 but outside the dead-zone cannot be reached; it is modelled as making no call, as the source does.
- Joystick.Controller.HandleEvent: a failing `systemctl stop` is an input flag (`stopSucceeds`). Whether `systemctl start` then succeeds changes no modelled state.
- Joystick.Controller.Listen: `device.read_loop()` never ends; the model takes a finite sequence of events.
- The Flask app, the socket connection and the HTTP response (app.py outside lines 42-59): network I/O. The bytes returned by `recv` are an input sequence; the 4096-byte bound on a chunk is not needed by any property.
- Mjpeg.Generate: the model takes a finite list of `recv` results. A stream that never ends is its limit.
- The YOLO model, OpenCV capture, drawing and image writing, `cap.grab()`, the raw-frame copy and `time.strftime`: external libraries and I/O. The model's output per frame, whether `cap.read()` succeeds, the clock readings and the timestamp are inputs.
- `cap.isOpened()` failing, and `os.makedirs`: start-up I/O before the loop.
- Inference.AnnotationsFile.CreateIfMissing: a failure to create the file, which re-raises at line 110, is not modelled.
- Inference.AnnotationsFile.Append: the JSON text, `seek(0)` without truncation and the `indent=4` layout are not modelled. A rewritten list is never shorter than the text it overwrites, so the file stays a readable list.
- Inference.Kept: box coordinates and confidences are exact reals, not float32 tensor values. The 0.07 comparison is exact.
- Inference.CaptureFrames: `while True` is driven by a finite sequence of ticks; running out of ticks ends the model (`OutOfTicks`).
- `source/training/train.py`: model training is not part of this model.
- The autonomous search-and-approach behaviour and mode arbitration: they are not in the code (see above).
