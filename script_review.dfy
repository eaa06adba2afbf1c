/**
 * Step 4, script review: an editable copy of the script handed in by the
 * page, a generating flag, and a regeneration counter. Regeneration is a
 * simulated two-second job: the click sets the flag and arms a timer, and the
 * timer's completion writes a sample text naming the attempt, clears the flag
 * and counts the attempt. The button is enabled for at most three attempts.
 */
module ScriptReview {
  import opened JsText

  /** How many regenerations the button allows. */
  const MaxRegenerations: nat := 3

  /** The text shown in place of the script while generating. */
  const LoadingMessage: string := "正在生成腳本，請稍候..."

  /** The sample text a completed regeneration writes, naming the attempt. */
  function RegeneratedSample(attempt: nat): string {
    "這是 AI 重新生成 (第 " + Decimal(attempt) + " 次) 的腳本內容。"
  }

  /** Each attempt's sample is different, and it names the attempt it belongs to. */
  lemma SampleNamesAttempt(a: nat, b: nat)
    ensures RegeneratedSample(a) == RegeneratedSample(b) <==> a == b
  {
    var prefix := "這是 AI 重新生成 (第 ";
    var suffix := " 次) 的腳本內容。";
    if RegeneratedSample(a) == RegeneratedSample(b) {
      var sa, sb := RegeneratedSample(a), RegeneratedSample(b);
      assert |Decimal(a)| == |Decimal(b)|;
      assert Decimal(a) == sa[|prefix|..|sa| - |suffix|];
      assert Decimal(b) == sb[|prefix|..|sb| - |suffix|];
      DecimalInjective(a, b);
    }
  }

  /** `displayScript`: the loading message while generating, the editable script otherwise. */
  function DisplayScript(isGenerating: bool, editableScript: string): string {
    if isGenerating then LoadingMessage else editableScript
  }

  /** The loading message is on screen exactly while generating, unless the script itself reads the same. */
  lemma DisplayShowsLoadingWhileGenerating(isGenerating: bool, editableScript: string)
    ensures DisplayScript(isGenerating, editableScript) == LoadingMessage <==>
      isGenerating || editableScript == LoadingMessage
    ensures !isGenerating ==> DisplayScript(isGenerating, editableScript) == editableScript
  {
  }

  /** The regenerate button's enable condition (the negation of its `disabled` expression). */
  predicate RegenerateEnabled(isGenerating: bool, generationCount: nat, editableScript: string) {
    !isGenerating && generationCount < MaxRegenerations && !IsBlank(editableScript)
  }

  /** `disabled={isGenerating || !editableScript}` on the next button: no trimming here. */
  predicate NextDisabled(isGenerating: bool, editableScript: string) {
    isGenerating || editableScript == ""
  }

  /** The regenerate button is enabled exactly when not generating, under the cap, and the trimmed script is non-empty. */
  lemma RegenerateEnabledIff(isGenerating: bool, generationCount: nat, editableScript: string)
    ensures RegenerateEnabled(isGenerating, generationCount, editableScript) <==>
      !isGenerating && generationCount < 3 && Trim(editableScript) != ""
  {
    TrimEmptyIffBlank(editableScript);
  }

  /** Whenever regeneration is possible, so is moving on; a whitespace-only script allows moving on but not regenerating. */
  lemma RegenerateEnabledImpliesNextEnabled(isGenerating: bool, generationCount: nat, editableScript: string)
    ensures RegenerateEnabled(isGenerating, generationCount, editableScript) ==> !NextDisabled(isGenerating, editableScript)
    ensures !isGenerating && editableScript != "" && (forall i :: 0 <= i < |editableScript| ==> IsWhitespace(editableScript[i])) ==>
      !NextDisabled(isGenerating, editableScript) && !RegenerateEnabled(isGenerating, generationCount, editableScript)
  {
  }

  /** The script step's own state. */
  class ScriptGeneration {
    var editableScript: string
    var isGenerating: bool
    var generationCount: nat

    /** The `useState` initial values from the props. */
    constructor (scriptContent: Option<string>, isInitialLoading: bool)
      ensures editableScript == (if scriptContent.Some? then scriptContent.value else "")
      ensures isGenerating == isInitialLoading
      ensures generationCount == 0
    {
      editableScript := if scriptContent.Some? then scriptContent.value else "";
      isGenerating := isInitialLoading;
      generationCount := 0;
    }

    /**
     * The effect that runs after mounting and whenever the props change: a
     * present script is copied in, and if it arrives while initially loading
     * the generating flag is cleared too; an absent script changes nothing.
     */
    method SyncProps(scriptContent: Option<string>, isInitialLoading: bool)
      modifies this
      ensures scriptContent.Some? ==> editableScript == scriptContent.value
      ensures scriptContent.None? ==> editableScript == old(editableScript)
      ensures isGenerating == (if scriptContent.Some? && isInitialLoading then false else old(isGenerating))
      ensures generationCount == old(generationCount)
    {
      if scriptContent.Some? && isInitialLoading {
        editableScript := scriptContent.value;
        isGenerating := false;
      } else if scriptContent.Some? && !isInitialLoading {
        editableScript := scriptContent.value;
      }
    }

    /** The regenerate click: sets the flag and arms the timer, which keeps the count it saw. */
    method GenerateScript() returns (captured: nat)
      modifies this
      ensures isGenerating && TextAreaDisabled()
      ensures captured == old(generationCount)
      ensures editableScript == old(editableScript) && generationCount == old(generationCount)
    {
      isGenerating := true;
      captured := generationCount;
    }

    /** The timer's completion: the sample for attempt `captured + 1`, the flag cleared, one more attempt counted. */
    method CompleteGeneration(captured: nat)
      modifies this
      ensures editableScript == RegeneratedSample(captured + 1)
      ensures !isGenerating && !TextAreaDisabled()
      ensures generationCount == old(generationCount) + 1
    {
      editableScript := RegeneratedSample(captured + 1);
      isGenerating := false;
      generationCount := generationCount + 1;
    }

    /** `disabled={isGenerating}` on the text area: it takes no input while a regeneration runs. */
    predicate TextAreaDisabled()
      reads this
    {
      isGenerating
    }

    /** The text area's `onChange`, which only an enabled area can fire. */
    method EditScript(text: string)
      requires !TextAreaDisabled()
      modifies this
      ensures editableScript == text
      ensures isGenerating == old(isGenerating) && generationCount == old(generationCount)
    {
      editableScript := text;
    }

    /**
     * A click on the enabled button followed by that click's completion: the
     * count goes up by one and never past the cap, and the script names the
     * attempt just counted.
     */
    method RegenerateThroughButton()
      requires RegenerateEnabled(isGenerating, generationCount, editableScript)
      modifies this
      ensures generationCount == old(generationCount) + 1 <= MaxRegenerations
      ensures editableScript == RegeneratedSample(generationCount)
      ensures !isGenerating
    {
      var captured := GenerateScript();
      CompleteGeneration(captured);
    }
  }
}
