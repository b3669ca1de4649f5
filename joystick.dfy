/**
 * Manual tank-drive control of the two-track robot (joystick.py).
 *
 * Raw stick samples are normalised to [-1, 1]; the left stick's Y axis is the
 * forward intent and the right stick's X axis the turn intent. Outside a 0.2
 * dead-zone the turn is mixed into one track; inside it the robot is stopped
 * and then spun in place. Two buttons switch the camera between streaming to
 * the network and recording to a file.
 *
 * The motors and systemd are external: they are modelled as objects that
 * record, in order, the calls made to them.
 */
module Joystick {

  // Raw range of an analog axis of the controller (signed 16-bit samples).
  const AxisMin: int := -32768
  const AxisMax: int := 32767

  const DeadZone: real := 0.2
  const TurnWeight: real := 0.9
  const SpinGain: real := 0.75

  // evdev event types and codes.
  const EvKey: int := 1
  const EvAbs: int := 3
  const AbsY: int := 1
  const AbsRx: int := 3

  // Button codes that switch the camera mode.
  const StreamToHttp: int := 305
  const StreamToFile: int := 304

  const VidService: string := "rpicam-vid.service"
  const FileService: string := "rpicam-file.service"

  // ---------------------------------------------------------------------------
  // Axis normalisation and clamping
  // ---------------------------------------------------------------------------

  function Abs(x: real): real { if x < 0.0 then -x else x }

  // Python's min and max on two numbers.
  function Min(a: real, b: real): real { if b < a then b else a }
  function Max(a: real, b: real): real { if b > a then b else a }

  /** The linear map of line 49, before clamping: minValue to -1, maxValue to 1. */
  function Scale(value: int, minValue: int, maxValue: int): real
    requires minValue != maxValue
  {
    (value - minValue) as real / (maxValue - minValue) as real * 2.0 - 1.0
  }

  /** `normalize`: maps a raw sample linearly onto [-1, 1] and clamps it there. */
  function Normalize(value: int, minValue: int, maxValue: int): (r: real)
    requires minValue != maxValue
    ensures -1.0 <= r <= 1.0
    ensures minValue < maxValue && minValue <= value <= maxValue ==> r == Scale(value, minValue, maxValue)
  {
    var n := Scale(value, minValue, maxValue);
    assert minValue < maxValue && minValue <= value <= maxValue ==> -1.0 <= n <= 1.0 by {
      if minValue < maxValue && minValue <= value <= maxValue {
        ScaleInRange(value, minValue, maxValue);
      }
    }
    Max(Min(n, 1.0), -1.0)
  }

  lemma ScaleInRange(value: int, minValue: int, maxValue: int)
    requires minValue < maxValue && minValue <= value <= maxValue
    ensures -1.0 <= Scale(value, minValue, maxValue) <= 1.0
  {
    var q := (value - minValue) as real / (maxValue - minValue) as real;
    assert 0.0 <= q <= 1.0 by {
      assert (value - minValue) as real <= (maxValue - minValue) as real;
      assert q * (maxValue - minValue) as real == (value - minValue) as real;
    }
  }

  /** `clamp`: truncates value to [minValue, maxValue] (callers use [0, 1]). */
  function Clamp(value: real, minValue: real, maxValue: real): (r: real)
    ensures minValue <= maxValue ==> minValue <= r <= maxValue
    ensures minValue <= value <= maxValue ==> r == value
    ensures value > maxValue >= minValue ==> r == maxValue
    ensures value < minValue ==> r == minValue
    ensures minValue > maxValue ==> r == minValue
  {
    Max(Min(value, maxValue), minValue)
  }

  function Clamp01(value: real): real { Clamp(value, 0.0, 1.0) }

  lemma {:induction false} ClampMonotone(x: real, y: real, minValue: real, maxValue: real)
    requires x <= y
    ensures Clamp(x, minValue, maxValue) <= Clamp(y, minValue, maxValue)
  {
  }

  /** Both ends of the range are hit exactly. */
  lemma NormalizeEndpoints(minValue: int, maxValue: int)
    requires minValue < maxValue
    ensures Normalize(minValue, minValue, maxValue) == -1.0
    ensures Normalize(maxValue, minValue, maxValue) == 1.0
  {
    assert Scale(minValue, minValue, maxValue) == -1.0;
    assert Scale(maxValue, minValue, maxValue) == 1.0;
  }

  lemma AxisEndpoints()
    ensures Normalize(AxisMin, AxisMin, AxisMax) == -1.0
    ensures Normalize(AxisMax, AxisMin, AxisMax) == 1.0
  {
    NormalizeEndpoints(AxisMin, AxisMax);
  }

  /** `normalize` is monotone non-decreasing in the sample. */
  lemma NormalizeMonotone(v: int, w: int, minValue: int, maxValue: int)
    requires minValue < maxValue && v <= w
    ensures Normalize(v, minValue, maxValue) <= Normalize(w, minValue, maxValue)
  {
    var d := (maxValue - minValue) as real;
    var qv := (v - minValue) as real / d;
    var qw := (w - minValue) as real / d;
    assert qv <= qw by {
      assert qw - qv == (w - v) as real / d;
    }
    assert Scale(v, minValue, maxValue) <= Scale(w, minValue, maxValue);
    ClampMonotone(Min(Scale(v, minValue, maxValue), 1.0), Min(Scale(w, minValue, maxValue), 1.0), -1.0, 1.0);
  }

  /**
   * The raw range -32768..32767 has no middle sample: no raw value normalises
   * to exactly 0. A released stick (raw 0) reads as 1/65535.
   */
  lemma {:induction false} AxisNeverCentred(raw: int)
    ensures Normalize(raw, AxisMin, AxisMax) != 0.0
    ensures Normalize(0, AxisMin, AxisMax) == 1.0 / 65535.0
  {
    assert Scale(0, AxisMin, AxisMax) == 1.0 / 65535.0;
    if AxisMin <= raw <= AxisMax {
      var k := raw - AxisMin;
      var q := k as real / 65535.0;
      assert k as real != 32767.5 by {
        if k <= 32767 {
          assert k as real <= 32767.0;
        } else {
          assert k as real >= 32768.0;
        }
      }
      assert q * 65535.0 == k as real;
      assert q != 0.5;
    }
  }

  // ---------------------------------------------------------------------------
  // Motor commands
  // ---------------------------------------------------------------------------

  datatype Motor = MotorA | MotorB

  datatype Command = Forward(speed: real) | Backward(speed: real) | Halt

  datatype MotorCall = MotorCall(motor: Motor, command: Command)

  function Drive(forward: bool, speed: real): Command
  {
    if forward then Forward(speed) else Backward(speed)
  }

  /** gpiozero accepts only speeds in [0, 1]. */
  predicate SpeedInRange(c: Command)
  {
    match c
    case Forward(s) => 0.0 <= s <= 1.0
    case Backward(s) => 0.0 <= s <= 1.0
    case Halt => true
  }

  function StopCalls(): seq<MotorCall>
  {
    [MotorCall(MotorA, Halt), MotorCall(MotorB, Halt)]
  }

  /** The calls `control_tracks(leftY, rightX)` makes on the two motors, in order. */
  function TrackCalls(leftY: int, rightX: int): (calls: seq<MotorCall>)
    ensures forall c | c in calls :: SpeedInRange(c.command)
  {
    var ly := Normalize(leftY, AxisMin, AxisMax);
    var rx := Normalize(rightX, AxisMin, AxisMax);
    if Abs(ly) > DeadZone then
      if ly > 0.0 then
        if rx > 0.0 then
          [MotorCall(MotorA, Forward(Clamp01(ly - rx * TurnWeight))), MotorCall(MotorB, Forward(Clamp01(ly)))]
        else
          [MotorCall(MotorA, Forward(Clamp01(ly))), MotorCall(MotorB, Forward(Clamp01(ly + rx * TurnWeight)))]
      else if ly < 0.0 then
        if rx > 0.0 then
          [MotorCall(MotorA, Backward(Clamp01(-(ly + rx * TurnWeight)))), MotorCall(MotorB, Backward(Clamp01(-ly)))]
        else
          [MotorCall(MotorA, Backward(Clamp01(-ly))), MotorCall(MotorB, Backward(Clamp01(-(ly - rx * TurnWeight))))]
      else
        []
    else
      var speed := SpinGain * rx;
      if rx > 0.0 then
        StopCalls() + [MotorCall(MotorA, Forward(Abs(speed))), MotorCall(MotorB, Backward(Abs(speed)))]
      else
        StopCalls() + [MotorCall(MotorA, Backward(Abs(speed))), MotorCall(MotorB, Forward(Abs(speed)))]
  }

  /**
   * A mixed turn: A then B, both in the same direction; the reduced track (A
   * when reduceA, else B) gets `reduced`, the other gets `kept`.
   */
  predicate MixedTurn(calls: seq<MotorCall>, forward: bool, kept: real, reduced: real, reduceA: bool)
  {
    && |calls| == 2
    && calls[0] == MotorCall(MotorA, Drive(forward, if reduceA then reduced else kept))
    && calls[1] == MotorCall(MotorB, Drive(forward, if reduceA then kept else reduced))
  }

  /**
   * Stick pushed forward past the dead-zone: both tracks forward; the track on
   * the turn side gets the forward intent less 0.9 of the turn magnitude, and
   * never more than the other track.
   */
  lemma ForwardMixing(leftY: int, rightX: int)
    requires Normalize(leftY, AxisMin, AxisMax) > DeadZone
    ensures var ly, rx := Normalize(leftY, AxisMin, AxisMax), Normalize(rightX, AxisMin, AxisMax);
            && MixedTurn(TrackCalls(leftY, rightX), true, Clamp01(ly), Clamp01(ly - TurnWeight * Abs(rx)), rx > 0.0)
            && Clamp01(ly - TurnWeight * Abs(rx)) <= Clamp01(ly)
  {
    var ly, rx := Normalize(leftY, AxisMin, AxisMax), Normalize(rightX, AxisMin, AxisMax);
    ClampMonotone(ly - TurnWeight * Abs(rx), ly, 0.0, 1.0);
  }

  /** Stick pulled back past the dead-zone: the mirror image, both tracks backward. */
  lemma BackwardMixing(leftY: int, rightX: int)
    requires Normalize(leftY, AxisMin, AxisMax) < -DeadZone
    ensures var ly, rx := Normalize(leftY, AxisMin, AxisMax), Normalize(rightX, AxisMin, AxisMax);
            && MixedTurn(TrackCalls(leftY, rightX), false, Clamp01(-ly), Clamp01(-ly - TurnWeight * Abs(rx)), rx > 0.0)
            && Clamp01(-ly - TurnWeight * Abs(rx)) <= Clamp01(-ly)
  {
    var ly, rx := Normalize(leftY, AxisMin, AxisMax), Normalize(rightX, AxisMin, AxisMax);
    ClampMonotone(-ly - TurnWeight * Abs(rx), -ly, 0.0, 1.0);
  }

  /**
   * Stick inside the dead-zone: both motors are stopped first, then spun in
   * opposite directions at 0.75 of the turn magnitude; A forward when the turn
   * stick points right (rx > 0), A backward otherwise. Because no sample
   * normalises to 0, the spin speed is never 0.
   */
  lemma SpinInPlace(leftY: int, rightX: int)
    requires Abs(Normalize(leftY, AxisMin, AxisMax)) <= DeadZone
    ensures var rx := Normalize(rightX, AxisMin, AxisMax);
            var s := SpinGain * Abs(rx);
            var calls := TrackCalls(leftY, rightX);
            && |calls| == 4
            && calls[..2] == StopCalls()
            && calls[2] == MotorCall(MotorA, Drive(rx > 0.0, s))
            && calls[3] == MotorCall(MotorB, Drive(!(rx > 0.0), s))
            && 0.0 < s <= SpinGain
  {
    AxisNeverCentred(rightX);
    var rx := Normalize(rightX, AxisMin, AxisMax);
    assert Abs(SpinGain * rx) == SpinGain * Abs(rx);
  }

  // ---------------------------------------------------------------------------
  // The motors and the service manager as recording objects
  // ---------------------------------------------------------------------------

  /** motor_a and motor_b, seen through the calls made on them, in issue order. */
  class Motors {
    var issued: seq<MotorCall>

    constructor ()
      ensures issued == []
    {
      issued := [];
    }

    method Forward(m: Motor, speed: real)
      modifies this
      ensures issued == old(issued) + [MotorCall(m, Command.Forward(speed))]
    {
      issued := issued + [MotorCall(m, Command.Forward(speed))];
    }

    method Backward(m: Motor, speed: real)
      modifies this
      ensures issued == old(issued) + [MotorCall(m, Command.Backward(speed))]
    {
      issued := issued + [MotorCall(m, Command.Backward(speed))];
    }

    method Stop(m: Motor)
      modifies this
      ensures issued == old(issued) + [MotorCall(m, Halt)]
    {
      issued := issued + [MotorCall(m, Halt)];
    }
  }

  datatype ServiceCall = StopService(name: string) | StartService(name: string)

  /** systemd, seen through the `systemctl stop/start` requests made to it. */
  class Services {
    var requested: seq<ServiceCall>

    constructor ()
      ensures requested == []
    {
      requested := [];
    }

    method Stop(name: string)
      modifies this
      ensures requested == old(requested) + [StopService(name)]
    {
      requested := requested + [StopService(name)];
    }

    method Start(name: string)
      modifies this
      ensures requested == old(requested) + [StartService(name)]
    {
      requested := requested + [StartService(name)];
    }
  }

  // ---------------------------------------------------------------------------
  // Event dispatch
  // ---------------------------------------------------------------------------

  datatype InputEvent = InputEvent(kind: int, code: int, value: int)

  /**
   * One event as delivered to `handle_event`, with the outcome of the
   * `systemctl stop` it may trigger: a failing stop raises (check=True), the
   * exception is swallowed, and the matching start is never requested.
   */
  datatype Input = Input(event: InputEvent, stopSucceeds: bool)

  /** What the controller has done so far: the two axis registers and the two call logs. */
  datatype Snapshot = Snapshot(leftY: int, rightX: int, motorCalls: seq<MotorCall>, serviceCalls: seq<ServiceCall>)

  function Other(name: string): string
  {
    if name == VidService then FileService else VidService
  }

  /** The systemd requests an event makes. */
  function ServiceCalls(ev: InputEvent, stopSucceeds: bool): (r: seq<ServiceCall>)
    ensures r != [] <==> ev.kind == EvKey && ev.value == 1 && (ev.code == StreamToHttp || ev.code == StreamToFile)
    ensures r != [] ==> r[0] == StopService(if ev.code == StreamToHttp then FileService else VidService)
    ensures |r| == 2 <==> r != [] && stopSucceeds
    ensures |r| <= 2
    ensures |r| == 2 ==> r[1] == StartService(if ev.code == StreamToHttp then VidService else FileService)
    ensures forall k | 0 <= k < |r| && r[k].StartService? :: k == 1 && r[0] == StopService(Other(r[k].name))
  {
    if ev.kind == EvKey && ev.code == StreamToHttp && ev.value == 1 then
      [StopService(FileService)] + (if stopSucceeds then [StartService(VidService)] else [])
    else if ev.kind == EvKey && ev.code == StreamToFile && ev.value == 1 then
      [StopService(VidService)] + (if stopSucceeds then [StartService(FileService)] else [])
    else
      []
  }

  function Swap(c: ServiceCall): ServiceCall
  {
    match c
    case StopService(n) => StopService(Other(n))
    case StartService(n) => StartService(Other(n))
  }

  /** Button 304 does the mirror image of button 305. */
  lemma ButtonsMirror(stopSucceeds: bool)
    ensures var http := ServiceCalls(InputEvent(EvKey, StreamToHttp, 1), stopSucceeds);
            var file := ServiceCalls(InputEvent(EvKey, StreamToFile, 1), stopSucceeds);
            |file| == |http| && forall k | 0 <= k < |http| :: file[k] == Swap(http[k])
  {
  }

  /** The new state after `handle_event`. */
  function Dispatch(input: Input, s: Snapshot): Snapshot
  {
    var ev := input.event;
    if ev.kind == EvAbs then
      var ly := if ev.code == AbsY then ev.value else s.leftY;
      var rx := if ev.code != AbsY && ev.code == AbsRx then ev.value else s.rightX;
      Snapshot(ly, rx, s.motorCalls + TrackCalls(ly, rx), s.serviceCalls)
    else
      Snapshot(s.leftY, s.rightX, s.motorCalls, s.serviceCalls + ServiceCalls(ev, input.stopSucceeds))
  }

  /** The state after a sequence of events, replayed from the first. */
  function Replay(inputs: seq<Input>, s: Snapshot): Snapshot
  {
    if inputs == [] then s else Dispatch(inputs[|inputs| - 1], Replay(inputs[..|inputs| - 1], s))
  }

  /** The value of the last event in `inputs` that sets `code`, or `initial` if none does. */
  function LastAxisValue(inputs: seq<Input>, code: int, initial: int): int
  {
    if inputs == [] then initial
    else
      var ev := inputs[|inputs| - 1].event;
      if ev.kind == EvAbs && ev.code == code then ev.value
      else LastAxisValue(inputs[..|inputs| - 1], code, initial)
  }

  /**
   * After any sequence of events, each axis register holds the value of the
   * last sample of its own axis, whatever else arrived, and the motor log
   * only grows.
   */
  lemma {:induction false} ReplayAxes(inputs: seq<Input>, s: Snapshot)
    ensures Replay(inputs, s).leftY == LastAxisValue(inputs, AbsY, s.leftY)
    ensures Replay(inputs, s).rightX == LastAxisValue(inputs, AbsRx, s.rightX)
    ensures |Replay(inputs, s).motorCalls| >= |s.motorCalls|
  {
    if inputs != [] {
      ReplayAxes(inputs[..|inputs| - 1], s);
    }
  }

  lemma {:induction false} ReplaySpeedsInRange(inputs: seq<Input>, s: Snapshot)
    requires forall c | c in s.motorCalls :: SpeedInRange(c.command)
    ensures forall c | c in Replay(inputs, s).motorCalls :: SpeedInRange(c.command)
  {
    if inputs != [] {
      ReplaySpeedsInRange(inputs[..|inputs| - 1], s);
    }
  }

  /** The module state of joystick.py: the axis registers and the two motors. */
  class Controller {
    var leftY: int
    var rightX: int
    const motors: Motors
    const services: Services

    constructor (motors: Motors, services: Services)
      ensures leftY == 0 && rightX == 0
      ensures this.motors == motors && this.services == services
    {
      leftY, rightX := 0, 0;
      this.motors, this.services := motors, services;
    }

    function State(): Snapshot
      reads this, motors, services
    {
      Snapshot(leftY, rightX, motors.issued, services.requested)
    }

    /** `stop_motors`. */
    method StopMotors()
      modifies motors
      ensures motors.issued == old(motors.issued) + StopCalls()
    {
      motors.Stop(MotorA);
      motors.Stop(MotorB);
    }

    /** `control_tracks`. */
    method ControlTracks(leftY: int, rightX: int)
      modifies motors
      ensures motors.issued == old(motors.issued) + TrackCalls(leftY, rightX)
    {
      var ly := Normalize(leftY, AxisMin, AxisMax);
      var rx := Normalize(rightX, AxisMin, AxisMax);
      if Abs(ly) > DeadZone {
        if ly > 0.0 {
          if rx > 0.0 {
            var turn := ly - rx * TurnWeight;
            motors.Forward(MotorA, Clamp01(turn));
            motors.Forward(MotorB, Clamp01(ly));
          } else {
            var turn := ly + rx * TurnWeight;
            motors.Forward(MotorA, Clamp01(ly));
            motors.Forward(MotorB, Clamp01(turn));
          }
        } else if ly < 0.0 {
          if rx > 0.0 {
            var turn := ly + rx * TurnWeight;
            motors.Backward(MotorA, Clamp01(-turn));
            motors.Backward(MotorB, Clamp01(-ly));
          } else {
            var turn := ly - rx * TurnWeight;
            motors.Backward(MotorA, Clamp01(-ly));
            motors.Backward(MotorB, Clamp01(-turn));
          }
        }
      } else {
        StopMotors();
        rx := Normalize(rightX, AxisMin, AxisMax);
        var speed := SpinGain * rx;
        if rx > 0.0 {
          motors.Forward(MotorA, Abs(speed));
          motors.Backward(MotorB, Abs(speed));
        } else {
          motors.Backward(MotorA, Abs(speed));
          motors.Forward(MotorB, Abs(speed));
        }
      }
    }

    /** `handle_event`. */
    method HandleEvent(input: Input)
      modifies this, motors, services
      ensures State() == Dispatch(input, old(State()))
      ensures input.event.kind == EvAbs && input.event.code == AbsY ==> leftY == input.event.value && rightX == old(rightX)
      ensures input.event.kind == EvAbs && input.event.code == AbsRx ==> rightX == input.event.value && leftY == old(leftY)
      ensures !(input.event.kind == EvAbs && (input.event.code == AbsY || input.event.code == AbsRx))
              ==> leftY == old(leftY) && rightX == old(rightX)
    {
      var ev := input.event;
      if ev.kind == EvAbs {
        if ev.code == AbsY {
          leftY := ev.value;
        } else if ev.code == AbsRx {
          rightX := ev.value;
        }
        ControlTracks(leftY, rightX);
      } else if ev.kind == EvKey {
        if ev.code == StreamToHttp && ev.value == 1 {
          services.Stop(FileService);
          if input.stopSucceeds {
            services.Start(VidService);
          }
        } else if ev.code == StreamToFile && ev.value == 1 {
          services.Stop(VidService);
          if input.stopSucceeds {
            services.Start(FileService);
          }
        }
      }
    }

    /** The `for event in device.read_loop()` loop of `main`, over a finite event sequence. */
    method Listen(inputs: seq<Input>)
      modifies this, motors, services
      ensures State() == Replay(inputs, old(State()))
    {
      var i := 0;
      while i < |inputs|
        invariant 0 <= i <= |inputs|
        invariant State() == Replay(inputs[..i], old(State()))
      {
        assert inputs[..i + 1][..i] == inputs[..i];
        HandleEvent(inputs[i]);
        i := i + 1;
      }
      assert inputs[..i] == inputs;
    }
  }
}
