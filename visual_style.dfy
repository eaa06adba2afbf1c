/**
 * Step 3, visual style: five technique tiles and five aspect-ratio buttons,
 * the selected one of each highlighted, and a next button enabled by
 * `isFormValid`. The step never reports a style change, so `visualStyle`
 * plays no part in it.
 */
module VisualStyle {
  import opened JsText
  import opened Form

  /** One selectable option: the id written to the record and the caption shown. */
  datatype Choice = Choice(id: string, caption: string)

  /** `videoTechniques` (the tile images are assets and are left out). */
  const Techniques: seq<Choice> := [
    Choice("realistic-photo", "寫實照片風格"),
    Choice("3d-animation", "3D動畫風格"),
    Choice("japanese-handdrawn", "日式手繪風格"),
    Choice("clay-animation", "立體黏土風格"),
    Choice("paper-cut", "剪紙風格")
  ]

  /** `aspectRatios` */
  const AspectRatios: seq<Choice> := [
    Choice("9:16", "9:16"),
    Choice("16:9", "16:9"),
    Choice("1:1", "1:1"),
    Choice("3:4", "3:4"),
    Choice("4:3", "4:3")
  ]

  /** `isFormValid`: both the technique and the aspect ratio are non-blank after trimming. */
  predicate IsFormValid(selectedTechnique: string, selectedAspectRatio: string) {
    !IsBlank(selectedTechnique) && !IsBlank(selectedAspectRatio)
  }

  /** The form is valid exactly when trimming leaves something of both selections. */
  lemma IsFormValidIffTrimmed(selectedTechnique: string, selectedAspectRatio: string)
    ensures IsFormValid(selectedTechnique, selectedAspectRatio) <==>
      Trim(selectedTechnique) != "" && Trim(selectedAspectRatio) != ""
  {
    TrimEmptyIffBlank(selectedTechnique);
    TrimEmptyIffBlank(selectedAspectRatio);
  }

  /** `disabled={!isFormValid}` on the next button. */
  predicate NextDisabled(selectedTechnique: string, selectedAspectRatio: string) {
    !IsFormValid(selectedTechnique, selectedAspectRatio)
  }

  /** A tile or ratio button is highlighted when its id equals the current selection. */
  predicate Highlighted(c: Choice, selection: string) {
    selection == c.id
  }

  /** The click handler of the i-th technique tile, written to `videoTechniques`. */
  function TechniqueClicked(i: nat): (e: Edit)
    requires i < |Techniques|
    ensures e.key == VideoTechniques && e.value == Techniques[i].id
  {
    Edit(VideoTechniques, Techniques[i].id)
  }

  /** The click handler of the i-th ratio button, written to `aspectRatio`. */
  function RatioClicked(i: nat): (e: Edit)
    requires i < |AspectRatios|
    ensures e.key == AspectRatio && e.value == AspectRatios[i].id
  {
    Edit(AspectRatio, AspectRatios[i].id)
  }

  predicate IsTechniqueId(s: string) {
    exists i :: 0 <= i < |Techniques| && Techniques[i].id == s
  }

  predicate IsRatioId(s: string) {
    exists i :: 0 <= i < |AspectRatios| && AspectRatios[i].id == s
  }

  /** Every listed id has a visible first character, so choosing any pair makes the form valid. */
  lemma ListedChoicesAreValid(i: nat, j: nat)
    requires i < |Techniques| && j < |AspectRatios|
    ensures IsFormValid(Techniques[i].id, AspectRatios[j].id)
  {
    ListedIdIsVisible(Techniques, i);
    ListedIdIsVisible(AspectRatios, j);
  }

  /** Every id in either list starts with a printable ASCII character. */
  lemma ListedIdIsVisible(choices: seq<Choice>, i: nat)
    requires choices == Techniques || choices == AspectRatios
    requires i < |choices|
    ensures !IsBlank(choices[i].id)
  {
    var id := choices[i].id;
    assert id != [] && '!' <= id[0] <= '~';
    PrintableAsciiIsVisible(id[0]);
    NotBlankWhenFirstIsVisible(id);
  }

  /** The record's default ratio is a listed one, so from the start only a technique is missing. */
  lemma DefaultRatioIsListed()
    ensures IsRatioId(DefaultAspectRatio)
    ensures forall t :: IsFormValid(t, DefaultAspectRatio) <==> !IsBlank(t)
  {
    assert AspectRatios[1].id == DefaultAspectRatio;
    ListedIdIsVisible(AspectRatios, 1);
  }

  /** Neither list repeats an id, so at most one option of each list is highlighted. */
  lemma AtMostOneTechniqueHighlighted(selection: string, i: nat, j: nat)
    requires i < |Techniques| && j < |Techniques|
    requires Highlighted(Techniques[i], selection) && Highlighted(Techniques[j], selection)
    ensures i == j
  {
  }

  lemma AtMostOneRatioHighlighted(selection: string, i: nat, j: nat)
    requires i < |AspectRatios| && j < |AspectRatios|
    requires Highlighted(AspectRatios[i], selection) && Highlighted(AspectRatios[j], selection)
    ensures i == j
  {
  }
}
