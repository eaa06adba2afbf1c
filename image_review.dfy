/**
 * Step 5, image review: a list of generated images (url and prompt) and a
 * parallel list of editable prompts. Generation is a simulated three-second
 * job that installs four fixed images; regenerating one image is a
 * simulated two-second job that gives that slot a cache-busting url.
 */
module ImageReview {
  import opened JsText

  datatype Image = Image(url: string, prompt: string)

  /** How many edit prompts the step starts with, one per image it will show. */
  const PromptSlots: nat := 4

  /** The four images the simulated generation produces. */
  const MockImages: seq<Image> := [
    Image("https://images.unsplash.com/photo-1492691527719-9d1e07e534b4?w=800&h=600&fit=crop", "開場畫面 - 公司標誌展示"),
    Image("https://images.unsplash.com/photo-1516321318423-f06f85e504b3?w=800&h=600&fit=crop", "產品特寫 - 細節展示"),
    Image("https://images.unsplash.com/photo-1551434678-e076c223a692?w=800&h=600&fit=crop", "團隊工作場景"),
    Image("https://images.unsplash.com/photo-1542744173-8e7e53415bb0?w=800&h=600&fit=crop", "結尾畫面 - 品牌信息")
  ]

  /** `images.map(img => img.prompt)` */
  function Prompts(images: seq<Image>): (ps: seq<string>)
    ensures |ps| == |images|
    ensures forall i :: 0 <= i < |images| ==> ps[i] == images[i].prompt
  {
    seq(|images|, i requires 0 <= i < |images| => images[i].prompt)
  }

  /** The url a regenerated image gets: the old url with a `?v=<timestamp>` suffix. */
  function CacheBusted(url: string, timestamp: nat): (r: string)
    ensures |r| > |url| + 3 && r[..|url| + 3] == url + "?v="
    ensures forall i :: |url| + 3 <= i < |r| ==> '0' <= r[i] <= '9'
    ensures DecimalValue(r[|url| + 3..]) == timestamp
  {
    var r := url + "?v=" + Decimal(timestamp);
    assert r[|url| + 3..] == Decimal(timestamp);
    DecimalRoundTrip(timestamp);
    r
  }

  /** The step's own state. */
  class ImageGeneration {
    var images: seq<Image>
    var isGenerating: bool
    var editPrompts: seq<string>

    /** One prompt per slot, and no more images than prompt slots. */
    ghost predicate Valid()
      reads this
    {
      |editPrompts| == PromptSlots && |images| <= PromptSlots
    }

    /** The `useState` initial values. */
    constructor ()
      ensures Valid()
      ensures images == [] && !isGenerating && editPrompts == ["", "", "", ""]
    {
      images := [];
      isGenerating := false;
      editPrompts := ["", "", "", ""];
    }

    /** The generate click: sets the flag and arms the timer. */
    method GenerateImages()
      requires Valid()
      modifies this
      ensures Valid()
      ensures isGenerating && GenerateButtonDisabled()
      ensures images == old(images) && editPrompts == old(editPrompts)
    {
      isGenerating := true;
    }

    /** The timer's completion: four images, each prompt copied into the edit box of its slot, the flag cleared. */
    method CompleteGeneration()
      requires Valid()
      modifies this
      ensures Valid()
      ensures images == MockImages && |images| == 4
      ensures forall i :: 0 <= i < |images| ==> editPrompts[i] == images[i].prompt
      ensures !isGenerating
      ensures ShowsGrid() && !GenerateButtonDisabled()
    {
      images := MockImages;
      editPrompts := Prompts(MockImages);
      isGenerating := false;
    }

    /**
     * `regenerateImage(index)` once its timer fires: only slot `index`
     * changes, its url gains the timestamp suffix and its prompt stays; the
     * edited prompt is not used.
     */
    method RegenerateImage(index: nat, timestamp: nat)
      requires Valid() && index < |images|
      modifies this
      ensures Valid()
      ensures |images| == |old(images)|
      ensures images[index] == Image(CacheBusted(old(images)[index].url, timestamp), old(images)[index].prompt)
      ensures forall j :: 0 <= j < |images| && j != index ==> images[j] == old(images)[j]
      ensures editPrompts == old(editPrompts) && isGenerating == old(isGenerating)
      ensures ShowsGrid()
    {
      var newImages := images;
      newImages := newImages[index := newImages[index].(url := newImages[index].url + "?v=" + Decimal(timestamp))];
      images := newImages;
    }

    /** `updatePrompt(index, value)` from the prompt box of an image in the grid. */
    method UpdatePrompt(index: nat, value: string)
      requires Valid() && index < |images|
      modifies this
      ensures Valid()
      ensures |editPrompts| == |old(editPrompts)| && editPrompts[index] == value
      ensures forall j :: 0 <= j < |editPrompts| && j != index ==> editPrompts[j] == old(editPrompts)[j]
      ensures images == old(images) && isGenerating == old(isGenerating)
      ensures ShowsGrid()
    {
      var newPrompts := editPrompts;
      newPrompts := newPrompts[index := value];
      editPrompts := newPrompts;
    }

    /** `downloadAllImages` only shows a notification: no image or prompt changes. */
    method DownloadAllImages()
      requires Valid()
      ensures images == old(images) && editPrompts == old(editPrompts) && isGenerating == old(isGenerating)
    {
    }

    /** The grid (with its prompt boxes and per-image buttons) is shown exactly when there are images. */
    predicate ShowsGrid()
      reads this
    {
      |images| > 0
    }

    /**
     * The per-image prompt box and regenerate button exist only for an index
     * of the grid: the grid is on screen, and the box's `editPrompts[index]`
     * is defined.
     */
    lemma GridControlsInRange(index: nat)
      requires Valid() && index < |images|
      ensures ShowsGrid() && index < |editPrompts|
    {
    }

    /** `disabled={isGenerating}` on the single generate button shown before any image exists. */
    predicate GenerateButtonDisabled()
      reads this
    {
      isGenerating
    }
  }
}
