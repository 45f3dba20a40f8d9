/**
 * The timing helpers of the process timer widget
 * (frontend/webapp/src/components/brewing/ProcessTimerWidget.tsx). The widget's clock
 * `currentTime`, refreshed every second, is the parameter `now`.
 */
module ProcessTimerWidget {
  import opened Common
  import opened BreweryTypes
  import opened BreweryContext

  /** Integer division rounded toward zero (JavaScript's `Math.trunc(a / b)`), for a positive divisor. */
  function TruncDiv(a: int, b: int): int
    requires b > 0
  {
    if a >= 0 then a / b else -((-a) / b)
  }

  /** JavaScript's `a % b`: the remainder takes the sign of the dividend. */
  function JsRem(a: int, b: int): int
    requires b > 0
  {
    if a >= 0 then a % b else -((-a) % b)
  }

  /** date-fns `differenceInMinutes(later, earlier)`: whole minutes between two instants, truncated toward zero. */
  function DifferenceInMinutes(later: Time, earlier: Time): int {
    TruncDiv(later - earlier, 60000)
  }

  /** The text `getElapsedTime` shows: 'No iniciado', `${hours}h ${minutes}m` or `${minutes}m`. */
  datatype ElapsedLabel = NotStarted | HoursAndMinutes(hours: int, minutes: int) | MinutesOnly(minutes: int)

  function ElapsedMinutes(p: BrewingProcess, now: Time): int
    requires p.startTime.Some?
  {
    DifferenceInMinutes(now, p.startTime.value)
  }

  /** `getElapsedTime`: hours are `Math.floor(elapsed / 60)`, minutes `elapsed % 60`. */
  function ElapsedTime(p: BrewingProcess, now: Time): ElapsedLabel {
    if p.startTime.None? then NotStarted
    else
      var elapsed := ElapsedMinutes(p, now);
      var hours := elapsed / 60;   // the divisor is positive, so this is the floor
      var minutes := JsRem(elapsed, 60);
      if hours > 0 then HoursAndMinutes(hours, minutes) else MinutesOnly(minutes)
  }

  /**
   * For a non-negative elapsed time the label splits it into whole hours and 0..59 minutes,
   * and the hours part is shown exactly when there is at least one full hour.
   */
  lemma ElapsedTimeSplits(p: BrewingProcess, now: Time)
    ensures p.startTime.None? <==> ElapsedTime(p, now) == NotStarted
    ensures p.startTime.Some? && ElapsedMinutes(p, now) >= 0 ==>
      var e := ElapsedMinutes(p, now);
      match ElapsedTime(p, now)
      case NotStarted => false
      case HoursAndMinutes(h, m) => e >= 60 && h > 0 && 0 <= m <= 59 && h * 60 + m == e
      case MinutesOnly(m) => e < 60 && m == e && 0 <= m <= 59
  {
  }

  /** Before the start time (a clock that went backwards) only minutes are shown, with the sign of the difference. */
  lemma ElapsedTimeNegative(p: BrewingProcess, now: Time)
    requires p.startTime.Some? && ElapsedMinutes(p, now) < 0
    ensures ElapsedTime(p, now).MinutesOnly?
    ensures -59 <= ElapsedTime(p, now).minutes <= 0
  {
  }

  /**
   * The minute difference rounds toward zero: forwards it is the number of whole minutes that
   * fit in the difference, backwards the negated number of whole minutes that fit in its
   * magnitude (so 90 seconds either way is 1 or -1 minute).
   */
  lemma DifferenceInMinutesTruncates(later: Time, earlier: Time)
    ensures var (d, e) := (DifferenceInMinutes(later, earlier), later - earlier);
      && (e >= 0 ==> 0 <= d && d * 60000 <= e < (d + 1) * 60000)
      && (e < 0 ==> d <= 0 && (d - 1) * 60000 < e <= d * 60000)
  {
  }

  /** `getStepElapsedTime`: minutes since the current step started, 0 when it has no start. */
  function StepElapsed(p: BrewingProcess, now: Time): int {
    if p.currentStepStartTime.None? then 0 else DifferenceInMinutes(now, p.currentStepStartTime.value)
  }

  /** `state.recipes.find(r => r.id === process.recipeId)`. */
  function FindRecipe(recipes: seq<Recipe>, id: Option<string>): (r: Option<Recipe>)
    ensures r.Some? ==> exists i :: 0 <= i < |recipes| && recipes[i] == r.value && Some(recipes[i].id) == id &&
                          forall k :: 0 <= k < i ==> Some(recipes[k].id) != id
    ensures r.None? <==> forall i :: 0 <= i < |recipes| ==> Some(recipes[i].id) != id
  {
    if recipes == [] then None
    else if Some(recipes[0].id) == id then Some(recipes[0])
    else
      var rest := FindRecipe(recipes[1..], id);
      assert forall i :: 1 <= i < |recipes| ==> recipes[i] == recipes[1..][i - 1];
      rest
  }

  /** `recipe?.steps[process.currentStep - 1]`: a 1-based step index; out of range means no step. */
  function CurrentStep(recipes: seq<Recipe>, p: BrewingProcess): Option<BrewingStep> {
    match FindRecipe(recipes, p.recipeId)
    case None => None
    case Some(r) => if 1 <= p.currentStep <= |r.steps| then Some(r.steps[p.currentStep - 1]) else None
  }

  lemma CurrentStepIndexing(recipes: seq<Recipe>, p: BrewingProcess)
    ensures CurrentStep(recipes, p).Some? <==>
      FindRecipe(recipes, p.recipeId).Some? && 1 <= p.currentStep <= |FindRecipe(recipes, p.recipeId).value.steps|
    ensures CurrentStep(recipes, p).Some? ==>
      CurrentStep(recipes, p).value == FindRecipe(recipes, p.recipeId).value.steps[p.currentStep - 1]
    ensures p.recipeId.None? ==> CurrentStep(recipes, p).None?
  {
  }

  /** `getStepRemainingTime`: minutes left in the current step, never below zero. */
  function StepRemaining(step: Option<BrewingStep>, p: BrewingProcess, now: Time): real {
    if step.None? || p.currentStepStartTime.None? then 0.0
    else Max(0.0, step.value.duration - StepElapsed(p, now) as real)
  }

  lemma StepRemainingBounds(step: Option<BrewingStep>, p: BrewingProcess, now: Time)
    ensures StepRemaining(step, p, now) >= 0.0
    ensures step.None? || p.currentStepStartTime.None? ==> StepRemaining(step, p, now) == 0.0
    ensures step.Some? && StepElapsed(p, now) >= 0 && step.value.duration >= 0.0 ==>
      StepRemaining(step, p, now) <= step.value.duration
    ensures step.Some? && p.currentStepStartTime.Some? && step.value.duration - StepElapsed(p, now) as real >= 0.0 ==>
      StepRemaining(step, p, now) == step.value.duration - StepElapsed(p, now) as real
  {
  }

  /** `stepProgress`: percentage of the current step's duration that has elapsed, capped at 100. */
  function StepProgress(step: Option<BrewingStep>, p: BrewingProcess, now: Time): real
    requires step.Some? ==> step.value.duration > 0.0
  {
    if step.None? then 0.0 else Min(100.0, (StepElapsed(p, now) as real / step.value.duration) * 100.0)
  }

  lemma StepProgressBounds(step: Option<BrewingStep>, p: BrewingProcess, now: Time)
    requires step.Some? ==> step.value.duration > 0.0
    ensures StepProgress(step, p, now) <= 100.0
    ensures step.None? ==> StepProgress(step, p, now) == 0.0
    ensures step.Some? && p.currentStepStartTime.None? ==> StepProgress(step, p, now) == 0.0
    ensures StepElapsed(p, now) >= 0 ==> StepProgress(step, p, now) >= 0.0
    ensures step.Some? && StepElapsed(p, now) as real >= step.value.duration ==> StepProgress(step, p, now) == 100.0
  {
  }

  /** The "step ending" warning: shown while a step has more than 0 and at most 5 minutes left. */
  predicate EndingSoon(step: Option<BrewingStep>, p: BrewingProcess, now: Time) {
    step.Some? && StepRemaining(step, p, now) <= 5.0 && StepRemaining(step, p, now) > 0.0
  }

  lemma EndingSoonExactly(step: Option<BrewingStep>, p: BrewingProcess, now: Time)
    ensures EndingSoon(step, p, now) <==>
      step.Some? && p.currentStepStartTime.Some? &&
      0.0 < step.value.duration - StepElapsed(p, now) as real <= 5.0
  {
  }

  /** `handleToggleProcess`: pause a running process, start any other. */
  function ToggleAction(p: BrewingProcess): Action {
    if p.status == Running then PauseProcess(p.id) else StartProcess(p.id, None)
  }

  /** Dispatching the toggle pauses a running process and runs any other, stamping the start time only then. */
  lemma ToggleProcessEffect(s: BreweryState, p: BrewingProcess, env: Env, i: nat)
    requires i < |s.processes| && s.processes[i].id == p.id
    ensures var q := Reduce(s, ToggleAction(p), env).processes[i];
      && (p.status == Running ==> q == s.processes[i].(status := Paused))
      && (p.status != Running ==> q.status == Running && q.startTime == Some(env.now) &&
                                  q.currentStepStartTime == Some(env.now))
  {
  }
}
