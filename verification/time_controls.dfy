/** The forecast time slider (tracker page and `TimeControls`): 49 three-hour steps, step 0
    a day before the clock and step 8 the clock itself; the play button advances the shown
    time by three hours per tick. Instants are epoch milliseconds; each function takes the
    clock reading it makes as a parameter. */
module TimeControls {
  import opened Wrappers
  import Text
  import Calendar

  const HourMs: int := Calendar.MsPerHour
  const StepMs: int := 3 * HourMs
  const DayMs: int := 24 * HourMs
  const LastStep: int := 48

  /** `Math.max(0, Math.min(48, x))`. */
  function Clamp(x: int): (r: int)
    ensures 0 <= r <= LastStep
    ensures 0 <= x <= LastStep ==> r == x
    ensures x < 0 ==> r == 0
    ensures x > LastStep ==> r == LastStep
  {
    if x < 0 then 0 else if x > LastStep then LastStep else x
  }

  /** `handleTimeStepUpdate`: the instant of a step, counted from a day before the clock
      reading `now` (daylight-saving shifts of the local `setHours` are not modelled). */
  function TimeOfStep(step: int, now: int): (t: int)
    ensures t - now == step * StepMs - DayMs
  {
    now - DayMs + step * StepMs
  }

  /** `getCurrentTimeStep` as written: whole hours since a day before the clock, floored,
      then whole steps, floored and clamped. Inside the range the step is the one whose
      three-hour window holds the shown time. */
  function StepAsWritten(current: int, now: int): (r: int)
    ensures 0 <= r <= LastStep
    ensures 0 < r < LastStep ==>
              TimeOfStep(r, now) <= current < TimeOfStep(r + 1, now)
  {
    var diffHours := (current - (now - DayMs)) / HourMs;
    FloorSteps(current - (now - DayMs));
    Clamp(diffHours / 3)
  }

  /** Flooring to hours and then to steps floors to steps. */
  lemma FloorSteps(x: int)
    ensures x / HourMs / 3 == x / StepMs
    ensures (x / StepMs) * StepMs <= x < (x / StepMs + 1) * StepMs
  {
    var h := x / HourMs;
    var q := h / 3;
    assert q * 3 <= h < q * 3 + 3;
    assert h * HourMs <= x < h * HourMs + HourMs;
    assert q * StepMs <= x < q * StepMs + StepMs;
  }

  /** Read back at the very instant it was set, a step is the step. */
  lemma StepAsWrittenSameInstant(s: int, now: int)
    requires 0 <= s <= LastStep
    ensures StepAsWritten(TimeOfStep(s, now), now) == s
  {
    FloorSteps(s * StepMs);
  }

  /** Read back any later instant within three hours, a positive step reads one less. */
  lemma StepAsWrittenLags(s: int, now0: int, now1: int)
    requires 1 <= s <= LastStep && now0 < now1 <= now0 + StepMs
    ensures StepAsWritten(TimeOfStep(s, now0), now1) == s - 1
  {
    var x := TimeOfStep(s, now0) - (now1 - DayMs);
    assert x == s * StepMs - (now1 - now0);
    assert (s - 1) * StepMs <= x < s * StepMs;
    FloorSteps(x);
    assert x / StepMs == s - 1;
  }

  /** `handleNextTime` / `handlePreviousTime` as written: the step read from the slider,
      moved by one when not at the end; `None` when the button does nothing. */
  function NextAsWritten(current: int, now: int): (r: Option<int>)
    ensures r.Some? <==> StepAsWritten(current, now) < LastStep
    ensures r.Some? ==> r.value == StepAsWritten(current, now) + 1 && 1 <= r.value <= LastStep
  {
    var step := StepAsWritten(current, now);
    if step < LastStep then Some(step + 1) else None
  }

  function PreviousAsWritten(current: int, now: int): (r: Option<int>)
    ensures r.Some? <==> StepAsWritten(current, now) > 0
    ensures r.Some? ==> r.value == StepAsWritten(current, now) - 1 && 0 <= r.value < LastStep
  {
    var step := StepAsWritten(current, now);
    if step > 0 then Some(step - 1) else None
  }

  /** Pressing "next" after "next" set step `s` (any millisecond later, within three hours)
      sets `s` again: the button cannot get past the step it has just set. Pressing
      "previous" after setting `s` lands on `s - 2`. */
  lemma NextStuck(s: int, now0: int, now1: int)
    requires 1 <= s <= LastStep && now0 < now1 <= now0 + StepMs
    ensures NextAsWritten(TimeOfStep(s, now0), now1) == Some(s)
    ensures s >= 2 ==> PreviousAsWritten(TimeOfStep(s, now0), now1) == Some(s - 2)
  {
    StepAsWrittenLags(s, now0, now1);
  }

  /** The page opens with the shown time on the clock, which is step 8. A "next" pressed
      within three hours reads step 7 and sets 8, and a second "next" within three hours
      of the first reads 7 again and sets 8 again: "next" never leaves step 8. */
  lemma NextStuckFromOpening(now0: int, now1: int, now2: int)
    requires now0 < now1 <= now0 + StepMs && now1 < now2 <= now1 + StepMs
    ensures NextAsWritten(now0, now1) == Some(8)
    ensures NextAsWritten(TimeOfStep(8, now1), now2) == Some(8)
  {
    assert TimeOfStep(8, now0) == now0;
    NextStuck(8, now0, now1);
    NextStuck(8, now1, now2);
  }

  /** The slider step as intended: the nearest step to the shown time, so a step read back
      within half a step of when it was set is the step. */
  function Step(current: int, now: int): (r: int)
    ensures 0 <= r <= LastStep
    ensures 0 < r < LastStep ==>
              TimeOfStep(r, now) - StepMs / 2 <= current < TimeOfStep(r, now) + StepMs / 2
  {
    var x := current - (now - DayMs) + StepMs / 2;
    FloorSteps(x);
    Clamp(x / StepMs)
  }

  /** The corrected read-back: set at `now0`, read at any `now1` up to an hour and a half
      later, a step reads as itself. */
  lemma StepRoundTrip(s: int, now0: int, now1: int)
    requires 0 <= s <= LastStep && now0 <= now1 < now0 + StepMs / 2
    ensures Step(TimeOfStep(s, now0), now1) == s
  {
    var x := TimeOfStep(s, now0) - (now1 - DayMs) + StepMs / 2;
    assert x == s * StepMs + StepMs / 2 - (now1 - now0);
    assert s * StepMs <= x < (s + 1) * StepMs;
    FloorSteps(x);
    assert x / StepMs == s;
  }

  /** `handleNextTime` / `handlePreviousTime` over the corrected step. */
  function Next(current: int, now: int): (r: Option<int>)
    ensures r.Some? <==> Step(current, now) < LastStep
    ensures r.Some? ==> r.value == Step(current, now) + 1
  {
    var step := Step(current, now);
    if step < LastStep then Some(step + 1) else None
  }

  function Previous(current: int, now: int): (r: Option<int>)
    ensures r.Some? <==> Step(current, now) > 0
    ensures r.Some? ==> r.value == Step(current, now) - 1
  {
    var step := Step(current, now);
    if step > 0 then Some(step - 1) else None
  }

  /** With the corrected step, "next" and "previous" pressed within an hour and a half of
      the last setting move exactly one step, and undo each other. */
  lemma NextPreviousMoveOne(s: int, now0: int, now1: int)
    requires 0 <= s <= LastStep && now0 <= now1 < now0 + StepMs / 2
    ensures s < LastStep ==> Next(TimeOfStep(s, now0), now1) == Some(s + 1)
    ensures s == LastStep ==> Next(TimeOfStep(s, now0), now1).None?
    ensures s > 0 ==> Previous(TimeOfStep(s, now0), now1) == Some(s - 1)
    ensures s == 0 ==> Previous(TimeOfStep(s, now0), now1).None?
    ensures s < LastStep ==> Previous(TimeOfStep(s + 1, now1), now1) == Some(s)
  {
    StepRoundTrip(s, now0, now1);
    if s < LastStep {
      StepRoundTrip(s + 1, now1, now1);
    }
  }

  /** The playback tick: three hours later. */
  function Tick(current: int): (r: int)
    ensures r - current == StepMs
  {
    current + 3 * HourMs
  }

  /** At a fixed clock a tick moves the slider one step, up to the last. */
  lemma TickAdvancesStep(s: int, now: int)
    requires 0 <= s < LastStep
    ensures Step(Tick(TimeOfStep(s, now)), now) == s + 1
    ensures StepAsWritten(Tick(TimeOfStep(s, now)), now) == s + 1
  {
    assert Tick(TimeOfStep(s, now)) == TimeOfStep(s + 1, now);
    StepRoundTrip(s + 1, now, now);
    StepAsWrittenSameInstant(s + 1, now);
  }

  /** `handleTogglePlayPause`. */
  function PlayPause(playing: bool): (r: bool)
    ensures r != playing
  {
    !playing
  }

  /** `getForecastOffset`: whole hours ahead of the clock, floored; an hour or more ahead is
      a forecast, more than three hours behind is "ago", and anything between is current. */
  function ForecastOffset(current: int, now: int): (r: string)
    ensures -3 * HourMs <= current - now < HourMs ==> r == "Current"
    ensures current - now >= HourMs ==> r == "+" + Text.NatToString((current - now) / HourMs) + "h forecast"
    ensures current - now < -3 * HourMs ==> r == Text.NatToString(-((current - now) / HourMs)) + "h ago"
  {
    var diffHours := (current - now) / HourMs;
    HourBounds(current - now);
    if diffHours > 0 then "+" + Text.NatToString(diffHours) + "h forecast"
    else if diffHours < -3 then Text.NatToString(-diffHours) + "h ago"
    else "Current"
  }

  lemma HourBounds(x: int)
    ensures x / HourMs > 0 <==> x >= HourMs
    ensures x / HourMs < -3 <==> x < -3 * HourMs
  {
    var h := x / HourMs;
    assert h * HourMs <= x < h * HourMs + HourMs;
    if h > 0 { assert x >= HourMs; }
    if x >= HourMs { assert h >= 1; }
    if h < -3 { assert x < -3 * HourMs; }
    if x < -3 * HourMs { assert h < -3; }
  }
}
