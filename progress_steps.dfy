/**
 * The progress bar: one round button per listed step and a connector after
 * every button but the last. Its `totalSteps` argument is ignored; only the
 * four steps of the constant list are drawn.
 */
module Progress {
  import Wizard

  datatype ProgressStep = ProgressStep(number: int, caption: string)

  /** `steps` */
  const Steps: seq<ProgressStep> := [
    ProgressStep(1, "主題資訊"),
    ProgressStep(2, "影片需求"),
    ProgressStep(3, "風格偏好"),
    ProgressStep(4, "腳本生成")
  ]

  /** `disabled={step.number > currentStep}` */
  predicate ButtonDisabled(n: int, currentStep: int) {
    n > currentStep
  }

  /** The active colouring, `step.number <= currentStep`. */
  predicate ButtonActive(n: int, currentStep: int) {
    n <= currentStep
  }

  /** The pulsing marker, `step.number === currentStep`. */
  predicate ButtonCurrent(n: int, currentStep: int) {
    n == currentStep
  }

  /** The connector colouring, `step.number < currentStep`. */
  predicate ConnectorActive(n: int, currentStep: int) {
    n < currentStep
  }

  /** The step number the i-th button passes to `onStepClick`. */
  function ClickTarget(i: nat): (n: int)
    requires i < |Steps|
    ensures 1 <= n <= 4 && n == i + 1
  {
    Steps[i].number
  }

  /** The connectors drawn (`index < steps.length - 1`), each with its active flag. */
  function Connectors(currentStep: int): (cs: seq<bool>)
    ensures |cs| == |Steps| - 1 == 3
    ensures forall i :: 0 <= i < |cs| ==> (cs[i] <==> i + 1 < currentStep)
  {
    seq(|Steps| - 1, i requires 0 <= i < |Steps| - 1 => ConnectorActive(Steps[i].number, currentStep))
  }

  /** A button is coloured active exactly when it is enabled. */
  lemma ActiveIffEnabled(i: nat, currentStep: int)
    requires i < |Steps|
    ensures ButtonActive(Steps[i].number, currentStep) <==> !ButtonDisabled(Steps[i].number, currentStep)
  {
  }

  /** At most one button is marked current. */
  lemma AtMostOneCurrent(currentStep: int, i: nat, j: nat)
    requires i < |Steps| && j < |Steps|
    requires ButtonCurrent(Steps[i].number, currentStep) && ButtonCurrent(Steps[j].number, currentStep)
    ensures i == j
  {
    assert ClickTarget(i) == i + 1 && ClickTarget(j) == j + 1;
  }

  /** An active connector joins two active buttons. */
  lemma ActiveConnectorBetweenActiveButtons(currentStep: int, i: nat)
    requires i < |Connectors(currentStep)| && Connectors(currentStep)[i]
    ensures ButtonActive(Steps[i].number, currentStep) && ButtonActive(Steps[i + 1].number, currentStep)
  {
    assert ClickTarget(i) == i + 1 && ClickTarget(i + 1) == i + 2;
  }

  /**
   * A click on an enabled button, passed through the page's guard, lands on a
   * listed step that is not ahead of the current one: the bar never jumps forward.
   */
  lemma EnabledClickNeverForward(currentStep: int, i: nat)
    requires i < |Steps| && !ButtonDisabled(Steps[i].number, currentStep)
    ensures Wizard.Jump(currentStep, ClickTarget(i)) == ClickTarget(i)
    ensures 1 <= Wizard.Jump(currentStep, ClickTarget(i)) <= currentStep
  {
  }
}
