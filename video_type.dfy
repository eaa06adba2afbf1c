/**
 * Step 2, video type and target platform: a row of eight type buttons, the
 * one equal to the current `videoType` highlighted, a free-text platform
 * input, and a next button that needs a type and a non-blank platform.
 */
module VideoTypeChoice {
  import opened JsText
  import opened Form

  /** `videoTypes`, in display order. */
  const VideoTypes: seq<string> := [
    "一鏡到底",
    "ASMR風格",
    "手持紀錄感",
    "慢動作氛圍",
    "Split Screen 分割畫面",
    "延遲攝影",
    "光影敘事",
    "蒙太奇剪接"
  ]

  /** `disabled={!videoType || !targetPlatform.trim()}` on the next button. */
  predicate NextDisabled(videoType: string, targetPlatform: string) {
    videoType == "" || IsBlank(targetPlatform)
  }

  /** The next button is enabled exactly when a type is chosen and the platform has a visible character. */
  lemma NextEnabledIff(videoType: string, targetPlatform: string)
    ensures !NextDisabled(videoType, targetPlatform) <==> videoType != "" && Trim(targetPlatform) != ""
    ensures !NextDisabled(videoType, targetPlatform) <==>
      videoType != "" && exists i :: 0 <= i < |targetPlatform| && !IsWhitespace(targetPlatform[i])
  {
    TrimEmptyIffBlank(targetPlatform);
  }

  /** A type button is highlighted when its entry equals the current `videoType`. */
  predicate Highlighted(entry: string, videoType: string) {
    videoType == entry
  }

  /** The click handler of the i-th type button: exactly that entry, written to `videoType`. */
  function TypeClicked(i: nat): (e: Edit)
    requires i < |VideoTypes|
    ensures e.key == VideoType && e.value == VideoTypes[i] && e.value in VideoTypes
  {
    Edit(VideoType, VideoTypes[i])
  }

  /** The platform input's `onChange`: the untrimmed text, written to `targetPlatform`. */
  function PlatformTyped(text: string): (e: Edit)
    ensures e.key == TargetPlatform && e.value == text
  {
    Edit(TargetPlatform, text)
  }

  /** The eight entries are pairwise different. */
  lemma VideoTypesDistinct(i: nat, j: nat)
    requires i < j < |VideoTypes|
    ensures VideoTypes[i] != VideoTypes[j]
  {
  }

  /** At most one type button is highlighted at any time. */
  lemma AtMostOneHighlighted(videoType: string, i: nat, j: nat)
    requires i < |VideoTypes| && j < |VideoTypes|
    requires Highlighted(VideoTypes[i], videoType) && Highlighted(VideoTypes[j], videoType)
    ensures i == j
  {
    if i < j {
      VideoTypesDistinct(i, j);
    } else if j < i {
      VideoTypesDistinct(j, i);
    }
  }

  /** After clicking the i-th type, exactly that button is highlighted. */
  lemma ClickHighlightsOnlyThatType(fd: FormData, i: nat, j: nat)
    requires i < |VideoTypes| && j < |VideoTypes|
    ensures Highlighted(VideoTypes[j], Get(Apply(fd, TypeClicked(i)), VideoType)) <==> i == j
  {
    if Highlighted(VideoTypes[j], Get(Apply(fd, TypeClicked(i)), VideoType)) {
      AtMostOneHighlighted(VideoTypes[i], i, j);
    }
  }
}
