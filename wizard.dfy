/**
 * The wizard page: a step counter in 1..6 and the form record, with guarded
 * next/previous moves, a progress-bar jump that may only go backwards, a
 * one-key record update, and the dispatch from the step number to the view
 * that is rendered.
 */
module Wizard {
  import opened JsText
  import opened Form

  const FirstStep: int := 1
  const LastStep: int := 6

  predicate InRange(step: int) {
    FirstStep <= step <= LastStep
  }

  /** `nextStep`: one step forward unless already on the last step. */
  function Advance(step: int): (r: int)
    ensures r == step || r == step + 1
    ensures r == step + 1 <==> step < LastStep
    ensures InRange(step) ==> InRange(r)
  {
    if step < LastStep then step + 1 else step
  }

  /** `prevStep`: one step back unless already on the first step. */
  function Retreat(step: int): (r: int)
    ensures r == step || r == step - 1
    ensures r == step - 1 <==> step > FirstStep
    ensures InRange(step) ==> InRange(r)
  {
    if step > FirstStep then step - 1 else step
  }

  /** The progress-bar guard: go to `target` only when it is not ahead of `current`. */
  function Jump(current: int, target: int): (r: int)
    ensures r <= current
    ensures target <= current ==> r == target
    ensures target > current ==> r == current
  {
    if target <= current then target else current
  }

  /** A click on a next or a previous button. */
  datatype Move = Next | Prev

  /** The step after a run of next/previous clicks. */
  function Navigate(step: int, moves: seq<Move>): int
    decreases |moves|
  {
    if moves == [] then step
    else Navigate(if moves[0] == Next then Advance(step) else Retreat(step), moves[1..])
  }

  /** Any run of next/previous moves from a step in range stays in range. */
  lemma {:induction false} NavigateStaysInRange(step: int, moves: seq<Move>)
    requires InRange(step)
    ensures InRange(Navigate(step, moves))
    decreases |moves|
  {
    if moves != [] {
      NavigateStaysInRange(if moves[0] == Next then Advance(step) else Retreat(step), moves[1..]);
    }
  }

  /** Moves change the step by at most one each. */
  lemma {:induction false} NavigateDistance(step: int, moves: seq<Move>)
    ensures step - |moves| <= Navigate(step, moves) <= step + |moves|
    decreases |moves|
  {
    if moves != [] {
      NavigateDistance(if moves[0] == Next then Advance(step) else Retreat(step), moves[1..]);
    }
  }

  /** The step components the page can render. */
  datatype StepView = CompanyInfoView | VideoTypeView | VisualStyleView | ScriptView | ImageView | VideoView

  /** `renderCurrentStep`: one view for each step 1..6 and nothing for any other value. */
  function Render(step: int): (v: Option<StepView>)
    ensures v.Some? <==> InRange(step)
  {
    match step
    case 1 => Some(CompanyInfoView)
    case 2 => Some(VideoTypeView)
    case 3 => Some(VisualStyleView)
    case 4 => Some(ScriptView)
    case 5 => Some(ImageView)
    case 6 => Some(VideoView)
    case _ => None
  }

  /** The step on which a view is rendered. */
  function StepOf(v: StepView): (step: int)
    ensures InRange(step)
  {
    match v
    case CompanyInfoView => 1
    case VideoTypeView => 2
    case VisualStyleView => 3
    case ScriptView => 4
    case ImageView => 5
    case VideoView => 6
  }

  /** Every view is rendered on exactly one step: `Render` and `StepOf` are inverse. */
  lemma RenderStepOf(v: StepView)
    ensures Render(StepOf(v)) == Some(v)
  {
  }

  lemma StepOfRender(step: int)
    requires InRange(step)
    ensures StepOf(Render(step).value) == step
  {
  }

  /** The page component's state: `currentStep` and `formData`. */
  class Index {
    var currentStep: int
    var formData: FormData

    ghost predicate Valid()
      reads this
    {
      InRange(currentStep)
    }

    /** `useState(1)` and the default record. */
    constructor ()
      ensures Valid()
      ensures currentStep == FirstStep && formData == Initial()
    {
      currentStep := FirstStep;
      formData := Initial();
    }

    method UpdateFormData(key: Field, value: string)
      requires Valid()
      modifies this
      ensures Valid()
      ensures formData == Set(old(formData), key, value)
      ensures currentStep == old(currentStep)
    {
      formData := Set(formData, key, value);
    }

    method NextStep()
      requires Valid()
      modifies this
      ensures Valid()
      ensures currentStep == Advance(old(currentStep))
      ensures formData == old(formData)
    {
      if currentStep < LastStep {
        currentStep := currentStep + 1;
      }
    }

    method PrevStep()
      requires Valid()
      modifies this
      ensures Valid()
      ensures currentStep == Retreat(old(currentStep))
      ensures formData == old(formData)
    {
      if currentStep > FirstStep {
        currentStep := currentStep - 1;
      }
    }

    /** The progress bar's `onStepClick`; the bar only ever passes a step number of at least 1. */
    method OnStepClick(step: int)
      requires Valid()
      requires FirstStep <= step
      modifies this
      ensures Valid()
      ensures currentStep == Jump(old(currentStep), step)
      ensures formData == old(formData)
    {
      if step <= currentStep {
        currentStep := step;
      }
    }

    /** The view rendered for the current step; on a valid page there always is one. */
    function CurrentView(): (v: Option<StepView>)
      reads this
      ensures Valid() ==> v.Some? && StepOf(v.value) == currentStep
    {
      Render(currentStep)
    }
  }
}
