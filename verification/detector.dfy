/**
  The punch-measurement state machine of the Punch Power app.

  The app keeps three fields on its main screen (the peak power measured so
  far, whether a measurement is running, and when it started) and updates them
  from the linear-acceleration sensor callback. This module extracts those
  fields into an immutable `State` and the callback into the pure function
  `Step`, with the wall clock turned into an explicit timestamp parameter.
 */
module Detector {

  /** An optional value: the score handed over when a measurement completes. */
  datatype Option<+T> = None | Some(value: T)

  /** A sample whose power is strictly above this value starts a measurement. */
  const StartThreshold: real := 20.0

  /** A measurement completes once strictly more than this many milliseconds
      have passed since it started. */
  const WindowMs: int := 3000

  /** Android's numeric code for the linear-acceleration sensor type. */
  const TypeLinearAcceleration: int := 10

  /** The measurement fields of the main screen. */
  datatype State = State(maxPower: real, isStart: bool, startTime: int)

  /** What one sensor callback produces: the new fields, and the peak power
      handed to the completion routine if this sample ended the measurement. */
  datatype StepResult = StepResult(next: State, completedWith: Option<real>)

  /** A sensor event as the callback sees it: the sensor type and the first
      three values of the reading. */
  datatype SensorEvent = SensorEvent(sensorType: int, x: real, y: real, z: real)

  function Max(a: real, b: real): (r: real)
    ensures r >= a && r >= b
    ensures r == a || r == b
  {
    if a < b then b else a
  }

  /** The scalar punch power of one reading: the sum of the squared axes.
      It never goes negative and is at least each axis's own square. */
  function Power(x: real, y: real, z: real): (p: real)
    ensures p >= 0.0
    ensures p >= x * x && p >= y * y && p >= z * z
  {
    x * x + y * y + z * z
  }

  /** The fields as declared on the main screen. */
  function Init(): (s: State)
    ensures !s.isStart
  {
    State(0.0, false, 0)
  }

  /** The reset routine: every field gets its initial value, whatever the
      current state. */
  function InitGame(s: State): (r: State)
    ensures r.maxPower == 0.0 && !r.isStart && r.startTime == 0
  {
    Init()
  }

  /** One linear-acceleration reading (x, y, z) processed at time `now`.
      The first reading whose power exceeds the threshold while idle starts a
      measurement at `now`; while a measurement runs (including on the reading
      that started it) the peak power is raised to the reading's power, and
      once more than `WindowMs` have passed since the start the measurement
      ends and the peak is reported. Completion clears only `isStart`. */
  function Step(s: State, x: real, y: real, z: real, now: int): (r: StepResult)
    // idle and below threshold: nothing changes
    ensures !s.isStart && Power(x, y, z) <= StartThreshold ==> r == StepResult(s, None)
    // idle and above threshold: start now, fold this reading into the peak
    ensures !s.isStart && Power(x, y, z) > StartThreshold ==>
              r == StepResult(State(Max(s.maxPower, Power(x, y, z)), true, now), None)
    // running: the start time is never overwritten and the peak is a running maximum
    ensures s.isStart ==> r.next.startTime == s.startTime
    ensures s.isStart ==> r.next.maxPower == Max(s.maxPower, Power(x, y, z))
    // completion happens exactly when a running measurement is strictly past the window
    ensures r.completedWith.Some? <==> s.isStart && now - s.startTime > WindowMs
    ensures s.isStart ==> (r.next.isStart <==> r.completedWith.None?)
    // the reported score is the peak kept in the state
    ensures r.completedWith.Some? ==> r.completedWith.value == r.next.maxPower
    // the peak never decreases
    ensures r.next.maxPower >= s.maxPower
  {
    var power := Power(x, y, z);
    var started := if power > StartThreshold && !s.isStart
                   then s.(startTime := now, isStart := true)
                   else s;
    if started.isStart then
      var peaked := started.(maxPower := if started.maxPower < power then power else started.maxPower);
      if now - peaked.startTime > WindowMs then
        StepResult(peaked.(isStart := false), Some(peaked.maxPower))
      else
        StepResult(peaked, None)
    else
      StepResult(started, None)
  }

  /** The sensor callback: a missing event, or one from any sensor other than
      linear acceleration, leaves the state alone and reports nothing. */
  function OnSensorChanged(s: State, event: Option<SensorEvent>, now: int): (r: StepResult)
    ensures event.None? ==> r == StepResult(s, None)
    ensures event.Some? && event.value.sensorType != TypeLinearAcceleration ==> r == StepResult(s, None)
    ensures event.Some? && event.value.sensorType == TypeLinearAcceleration ==>
              r == Step(s, event.value.x, event.value.y, event.value.z, now)
  {
    match event
    case None => StepResult(s, None)
    case Some(e) =>
      if e.sensorType != TypeLinearAcceleration then StepResult(s, None)
      else Step(s, e.x, e.y, e.z, now)
  }

  /** Resetting twice is the same as resetting once, and the result does not
      depend on the state that was reset. */
  lemma InitGameIdempotent(s: State, t: State)
    ensures InitGame(InitGame(s)) == InitGame(s)
    ensures InitGame(s) == InitGame(t)
  {
  }

  /** After a reset, a reading below the threshold is ignored, and one above
      it starts a measurement whose peak is exactly that reading's power. */
  lemma StepAfterInit(x: real, y: real, z: real, now: int)
    ensures Power(x, y, z) <= StartThreshold ==> Step(Init(), x, y, z, now) == StepResult(Init(), None)
    ensures Power(x, y, z) > StartThreshold ==>
              Step(Init(), x, y, z, now) == StepResult(State(Power(x, y, z), true, now), None)
  {
  }

  /** The reading that starts a measurement never also completes it: with
      both clock reads taken as the same `now`, its elapsed time is zero,
      which is not strictly more than the window. */
  lemma ActivationNeverCompletes(s: State, x: real, y: real, z: real, now: int)
    requires !s.isStart
    ensures Step(s, x, y, z, now).completedWith.None?
  {
  }

  /** A reading exactly `WindowMs` after the start keeps the measurement
      running; one a millisecond later ends it. */
  lemma WindowBoundary(s: State, x: real, y: real, z: real)
    requires s.isStart
    ensures Step(s, x, y, z, s.startTime + WindowMs).next.isStart
    ensures Step(s, x, y, z, s.startTime + WindowMs + 1).completedWith
            == Some(Max(s.maxPower, Power(x, y, z)))
  {
  }
}
