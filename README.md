# Video-script wizard: a Dafny model of its client-side state

The application is a six-step wizard for commissioning a short marketing
video:

1. the company and its product;
2. the video type and the target platform;
3. the visual technique and the aspect ratio;
4. an editable AI script;
5. four AI images with editable prompts;
6. a remotely rendered video.

A page component keeps the step number (1 to 6) and a flat record of string
fields. Next and previous buttons move between steps under guards, and a
progress bar jumps back to an earlier step. Each step component offers
selections and text fields and decides when its own next button is enabled.
Steps 4 to 6 also keep their own state: a regeneration counter, an image
list with a parallel list of edit prompts, and a two-request video job.
A separate utility removes the background of a logo image. It resizes the
canvas, then lowers a per-pixel alpha mask using segmentation results and a
near-white colour test.

The model has one Dafny module per modelled source file, plus three modules that no single file maps to. Two of them are shared:

- `JsText`: JavaScript's `trim`, the "blank" test built on it, and decimal
  rendering inside template literals.
- `Form`: the form record and its one-key update.

The remaining modules are:

- `Wizard` for the page;
- `CompanyInfo`, `VideoTypeChoice`, `VisualStyle` and `Progress` for the pure
  enable and highlight predicates;
- `Session`, the third of those modules, which composes steps 1 to 3 with
  the page as a fold over user actions;
- `ScriptReview`, `ImageReview` and `VideoReview` for the stateful steps;
- `BackgroundRemoval` for the logo utility.

Stateful code is modelled as classes whose methods are specified by pure
functions. The following become parameters:

- timer completions, as separate methods;
- `Date.now()` values;
- fetch outcomes;
- segmentation results;
- pixel bytes.

Where a specification and the code differ, the model follows the code. Two
examples:

- The script step's next button tests `!editableScript` without trimming, so
  a whitespace-only script enables it.
- The progress bar draws only four steps, whatever `totalSteps` says.

## Model

| member | source | states |
|---|---|---|
| `JsText.Trim` | src/components/steps/CompanyInfoStep.tsx:36 | `trim` keeps one contiguous piece of the text. Everything around the piece is whitespace, and the piece neither starts nor ends with whitespace. |
| `JsText.TrimEmptyIffBlank` | src/components/steps/VisualStyleStep.tsx:67 | Trimming leaves the empty string exactly when every character is whitespace. |
| `JsText.Decimal` | src/components/steps/ScriptGenerationStep.tsx:44 | A non-negative integer below 10^21 in a template literal renders as a non-empty string of digits with no leading zero. Larger values are covered under "Left out". |
| `JsText.DecimalRoundTrip` | src/components/steps/ImageGenerationStep.tsx:57 | Reading back the digits that a number renders to gives the number. |
| `JsText.DecimalInjective` | src/components/steps/ScriptGenerationStep.tsx:44 | Different numbers render to different strings. |
| `Form.Initial` | src/pages/Index.tsx:25-39 | Every field of the initial record is empty except `aspectRatio`, which is "16:9". |
| `Form.Set` | src/pages/Index.tsx:43-47 | `{ ...prev, [key]: value }` gives `key` the new value and leaves every other key unchanged. |
| `Form.SetCurrentValue` | src/pages/Index.tsx:45 | Writing a key its current value changes nothing. |
| `Form.SetIdempotent` | src/pages/Index.tsx:45 | Repeating the same update changes nothing more. |
| `Form.LastWriteWins` | src/pages/Index.tsx:45 | Of two writes to one key, the second decides its value. |
| `Form.SetsCommute` | src/pages/Index.tsx:45 | Writes to different keys can be applied in either order. |
| `Wizard.Advance` | src/pages/Index.tsx:51-59 | `nextStep` adds exactly 1 below step 6, changes nothing at step 6, and keeps the step in 1..6. |
| `Wizard.Retreat` | src/pages/Index.tsx:63-71 | `prevStep` subtracts exactly 1 above step 1, changes nothing at step 1, and keeps the step in 1..6. |
| `Wizard.Jump` | src/pages/Index.tsx:229-237 | A progress click moves to a target that is not ahead of the current step. Otherwise nothing changes, so the step never increases. |
| `Wizard.NavigateStaysInRange` | src/pages/Index.tsx:51-71 | Any sequence of next and previous moves from a step in 1..6 stays in 1..6. |
| `Wizard.NavigateDistance` | src/pages/Index.tsx:51-71 | Each move changes the step by at most one. |
| `Wizard.Render` | src/pages/Index.tsx:75-195 | `renderCurrentStep` renders a view exactly for steps 1..6 and nothing for any other value. |
| `Wizard.StepOf` | src/pages/Index.tsx:77-191 | Every view belongs to a step in 1..6. |
| `Wizard.RenderStepOf` | src/pages/Index.tsx:77-191 | Rendering a view's step gives back that view. |
| `Wizard.StepOfRender` | src/pages/Index.tsx:77-191 | Each step in 1..6 renders a view of its own, so the dispatch is one to one. |
| `Wizard.Index.constructor` | src/pages/Index.tsx:23-39 | The page starts on step 1 with the initial record. |
| `Wizard.Index.UpdateFormData` | src/pages/Index.tsx:43-47 | The record becomes the one-key update of the old record, and the step is unchanged. |
| `Wizard.Index.NextStep` | src/pages/Index.tsx:51-59 | The new step is `Advance` of the old step, it stays in 1..6, and the record is unchanged. |
| `Wizard.Index.PrevStep` | src/pages/Index.tsx:63-71 | The new step is `Retreat` of the old step, it stays in 1..6, and the record is unchanged. |
| `Wizard.Index.OnStepClick` | src/pages/Index.tsx:229-237 | The new step is `Jump` of the old step and the target, it stays in 1..6, and the record is unchanged. |
| `Wizard.Index.CurrentView` | src/pages/Index.tsx:75-195 | On a valid page some view is always rendered, and it is the current step's view. |
| `CompanyInfo.NextDisabledIffTrimEmpty` | src/components/steps/CompanyInfoStep.tsx:36 | Next is disabled exactly when `value.trim()` is empty, which is exactly when the text is empty or whitespace only. |
| `CompanyInfo.Changed` | src/components/steps/CompanyInfoStep.tsx:20-31 | Either text area forwards its raw, untrimmed text to the `companyInfo` field. |
| `CompanyInfo.MostRecentAreaWins` | src/components/steps/CompanyInfoStep.tsx:20-31 | Both areas write the same field, so the area edited last decides the field's value. |
| `VideoTypeChoice.NextEnabledIff` | src/components/steps/VideoTypeStep.tsx:82 | Next is enabled exactly when a type is chosen and the trimmed platform is non-empty, that is, when the platform has a visible character. |
| `VideoTypeChoice.TypeClicked` | src/components/steps/VideoTypeStep.tsx:45-50 | A type click writes exactly that entry to `videoType`, and the entry is one of the eight listed types. |
| `VideoTypeChoice.PlatformTyped` | src/components/steps/VideoTypeStep.tsx:66 | Platform input is written untrimmed to `targetPlatform`. |
| `VideoTypeChoice.VideoTypesDistinct` | src/components/steps/VideoTypeStep.tsx:15-24 | The eight listed types are pairwise different. |
| `VideoTypeChoice.AtMostOneHighlighted` | src/components/steps/VideoTypeStep.tsx:45-50 | At most one type button is highlighted. |
| `VideoTypeChoice.ClickHighlightsOnlyThatType` | src/components/steps/VideoTypeStep.tsx:45-50 | After a click on type i, exactly button i is highlighted. |
| `VisualStyle.IsFormValidIffTrimmed` | src/components/steps/VisualStyleStep.tsx:67 | `isFormValid` holds exactly when both the trimmed technique and the trimmed ratio are non-empty. |
| `VisualStyle.TechniqueClicked` | src/components/steps/VisualStyleStep.tsx:84-88 | A technique click writes that tile's id to `videoTechniques`. |
| `VisualStyle.RatioClicked` | src/components/steps/VisualStyleStep.tsx:111-115 | A ratio click writes that button's id to `aspectRatio`. |
| `VisualStyle.ListedChoicesAreValid` | src/components/steps/VisualStyleStep.tsx:33-47 | Any listed technique with any listed ratio makes the form valid. |
| `VisualStyle.ListedIdIsVisible` | src/components/steps/VisualStyleStep.tsx:33-47 | No listed id is blank. |
| `VisualStyle.DefaultRatioIsListed` | src/components/steps/VisualStyleStep.tsx:41-47 | The record's default "16:9" is a listed ratio, so from the start the form is valid exactly when a technique is chosen. |
| `VisualStyle.AtMostOneTechniqueHighlighted` | src/components/steps/VisualStyleStep.tsx:84-90 | Technique ids are distinct, so at most one tile is highlighted. |
| `VisualStyle.AtMostOneRatioHighlighted` | src/components/steps/VisualStyleStep.tsx:111-117 | Ratio ids are distinct, so at most one ratio button is highlighted. |
| `Progress.ClickTarget` | src/components/ProgressSteps.tsx:7-21 | The i-th button passes step number i+1, so clicks only ever pass 1..4. |
| `Progress.Connectors` | src/components/ProgressSteps.tsx:39-45 | There are exactly 3 connectors, and the one after step n is active exactly when n < currentStep. |
| `Progress.ActiveIffEnabled` | src/components/ProgressSteps.tsx:22-26 | A button is coloured active exactly when it is enabled, that is, when n <= currentStep. |
| `Progress.AtMostOneCurrent` | src/components/ProgressSteps.tsx:27 | At most one button pulses as the current step. |
| `Progress.ActiveConnectorBetweenActiveButtons` | src/components/ProgressSteps.tsx:22-45 | An active connector joins two active buttons. |
| `Progress.EnabledClickNeverForward` | src/components/ProgressSteps.tsx:20-22 | An enabled button's click, after the page's guard, lands on a step in 1..currentStep. |
| `Session.StartConsistent` | src/pages/Index.tsx:23-39 | The initial page satisfies the wizard invariant. |
| `Session.HandleStep` | src/pages/Index.tsx:77-191 | One user action moves at most one step forward, and only through an enabled next button. A progress click never moves forward. |
| `Session.HandlePreserves` | src/pages/Index.tsx:77-191 | Every user action keeps the invariant: the step is in range, each passed step had its required fields, selections are listed values, and `visualStyle` is empty. |
| `Session.RunPreserves` | src/pages/Index.tsx:77-191 | Any sequence of actions from a consistent page ends on a consistent page. |
| `Session.Reachable` | src/pages/Index.tsx:77-191 | On every reachable page past step 3, the company text and the platform are non-blank, and the type, technique and ratio are listed values. `visualStyle` is never written. |
| `Session.NoBackFromFirstStep` | src/components/steps/CompanyInfoStep.tsx:32-39 | Step 1 offers no way back, and `prevStep` would leave step 1 unchanged anyway. |
| `ScriptReview.SampleNamesAttempt` | src/components/steps/ScriptGenerationStep.tsx:44 | Two attempts produce the same regenerated sample exactly when they are the same attempt. |
| `ScriptReview.DisplayShowsLoadingWhileGenerating` | src/components/steps/ScriptGenerationStep.tsx:54-56 | The loading message is displayed while generating. Otherwise the editable script is displayed. |
| `ScriptReview.RegenerateEnabledIff` | src/components/steps/ScriptGenerationStep.tsx:77 | Regenerate is enabled exactly when not generating, the count is below 3, and the trimmed script is non-empty. |
| `ScriptReview.RegenerateEnabledImpliesNextEnabled` | src/components/steps/ScriptGenerationStep.tsx:77-101 | Whenever regenerate is enabled, next is too. A whitespace-only script enables next but not regenerate, because next does not trim. |
| `ScriptReview.ScriptGeneration.constructor` | src/components/steps/ScriptGenerationStep.tsx:19-22 | The script starts as the given content, or "" for null. The flag starts as `isInitialLoading`, and the count starts at 0. |
| `ScriptReview.ScriptGeneration.SyncProps` | src/components/steps/ScriptGenerationStep.tsx:25-34 | Non-null content is copied, and the flag is cleared only when it arrives while loading. Null content changes nothing. |
| `ScriptReview.ScriptGeneration.GenerateScript` | src/components/steps/ScriptGenerationStep.tsx:38-43 | The click sets the flag, which also disables the text area, and captures the current count. Nothing else changes. |
| `ScriptReview.ScriptGeneration.CompleteGeneration` | src/components/steps/ScriptGenerationStep.tsx:43-48 | The timer writes the sample for attempt captured+1, clears the flag, which re-enables the text area, and raises the count by exactly 1. |
| `ScriptReview.ScriptGeneration.EditScript` | src/components/steps/ScriptGenerationStep.tsx:86-91 | Only an enabled text area (`disabled={isGenerating}`) takes an edit. The edit replaces the script and leaves the flag and the count alone. |
| `ScriptReview.ScriptGeneration.RegenerateThroughButton` | src/components/steps/ScriptGenerationStep.tsx:38-77 | A regeneration started from the enabled button raises the count by 1 and never past 3. The new script names the attempt just counted. |
| `ImageReview.Prompts` | src/components/steps/ImageGenerationStep.tsx:38 | The prompts of a list of images, in the same order and with the same length. |
| `ImageReview.CacheBusted` | src/components/steps/ImageGenerationStep.tsx:55-58 | The new url is the old url followed by "?v=" and the digits of the timestamp, and those digits read back as the timestamp. |
| `ImageReview.ImageGeneration.constructor` | src/components/steps/ImageGenerationStep.tsx:22-24 | The step starts with no images, four empty edit prompts, and the flag off. |
| `ImageReview.ImageGeneration.GenerateImages` | src/components/steps/ImageGenerationStep.tsx:26-27 | The click sets the flag, which disables the generate button, and changes nothing else. |
| `ImageReview.ImageGeneration.CompleteGeneration` | src/components/steps/ImageGenerationStep.tsx:30-44 | The timer installs exactly the four listed images and sets `editPrompts[i]` to `images[i].prompt`. It clears the flag, and the grid replaces the generate button. |
| `ImageReview.ImageGeneration.RegenerateImage` | src/components/steps/ImageGenerationStep.tsx:47-65 | Only slot i changes: its url gains the cache-busting suffix and its prompt stays. The edit prompts and the other slots are unchanged, and the grid stays on screen. |
| `ImageReview.ImageGeneration.UpdatePrompt` | src/components/steps/ImageGenerationStep.tsx:74-78 | Only `editPrompts[i]` changes, to the typed value. The length and every other entry stay, and the grid stays on screen. |
| `ImageReview.ImageGeneration.GridControlsInRange` | src/components/steps/ImageGenerationStep.tsx:91-117 | The per-image prompt box and regenerate button exist only for an index of the image list. For such an index the grid is shown, not the generate button, and `editPrompts[index]` is defined. |
| `ImageReview.ImageGeneration.DownloadAllImages` | src/components/steps/ImageGenerationStep.tsx:67-72 | No image, prompt or flag changes. |
| `VideoReview.FinalUrl` | src/components/steps/VideoGenerationStep.tsx:87-97 | A url is produced exactly when the reply is an object with a truthy `final_video_url`. It always starts with the video service's base, and a string value is appended verbatim. |
| `VideoReview.AttemptResult` | src/components/steps/VideoGenerationStep.tsx:44-97 | An attempt yields a url only when both replies were ok and parsed. When both were, the result is exactly `FinalUrl` of the video reply. Any url starts with the video service's base. |
| `VideoReview.FailuresGiveNoUrl` | src/components/steps/VideoGenerationStep.tsx:53-97 | A failed or non-ok prompt reply, a failed or non-ok video reply, or a missing `final_video_url` each give no url. |
| `VideoReview.VideoGeneration.constructor` | src/components/steps/VideoGenerationStep.tsx:22-24 | The step starts with no url, the flag off, and no status text. |
| `VideoReview.VideoGeneration.GenerateVideo` | src/components/steps/VideoGenerationStep.tsx:26-110 | Without a script, nothing is sent and nothing changes. Otherwise the script is sent first. The second request goes out only after an ok, parsed prompt reply, and its body is that reply. The url changes only on success, which brings up the player. The flag and the status text end reset, so the generate button is enabled again. |
| `VideoReview.VideoGeneration.Regenerate` | src/components/steps/VideoGenerationStep.tsx:209-211 | The url is cleared before the job re-runs, so it ends as the new url or as "", and the player stays only on success. Without a script, nothing is sent and the flag and status text keep their values. With a script, the same requests as `GenerateVideo` are sent, and the flag and status text end reset. |
| `VideoReview.VideoGeneration.DownloadVideo` | src/components/steps/VideoGenerationStep.tsx:112-127 | A download link exists exactly when the url is non-empty, which is exactly when the player is shown. It points at the url and suggests "generated-video.mp4". |
| `BackgroundRemoval.JsRound` | src/utils/backgroundRemoval.ts:15 | `Math.round` gives the integer within a half of x, with halves rounding up. |
| `BackgroundRemoval.ScaledSide` | src/utils/backgroundRemoval.ts:14-19 | `(1024*side + longer) div (2*longer)` equals `Math.round(side*512/longer)`, is at most 512, and is the nearest integer to the exact proportion. |
| `BackgroundRemoval.Resized` | src/utils/backgroundRemoval.ts:9-23 | The longer side becomes 512; on a tie, the height does. The other side is scaled in proportion and is at most 512. A square becomes 512 by 512. |
| `BackgroundRemoval.SquareScalesToMax` | src/utils/backgroundRemoval.ts:17-19 | A square image's scaled side is exactly 512. |
| `BackgroundRemoval.Canvas.constructor` | src/utils/backgroundRemoval.ts:38 | A new canvas is 300 by 150, the HTML default. |
| `BackgroundRemoval.ResizeImageIfNeeded` | src/utils/backgroundRemoval.ts:9-26 | The canvas ends with the `Resized` dimensions, and the function always returns true. |
| `BackgroundRemoval.SegmentNeverRaises` | src/utils/backgroundRemoval.ts:80-93 | The segmentation pass never raises an alpha entry. |
| `BackgroundRemoval.SegmentCap` | src/utils/backgroundRemoval.ts:80-93 | A background segment that covers pixel i caps its entry at `1 - mask[i]`, whatever segments come later. |
| `BackgroundRemoval.SegmentUncovered` | src/utils/backgroundRemoval.ts:80-93 | An entry that no background segment covers keeps its value. |
| `BackgroundRemoval.BackgroundOnly` | src/utils/backgroundRemoval.ts:81-86 | Every segment with one of the ten background labels is kept, every kept segment has such a label and comes from the input, and there are never more of them than in the input. |
| `BackgroundRemoval.OnlyBackgroundLabelsMatter` | src/utils/backgroundRemoval.ts:80-93 | Dropping every segment whose label is not a background label leaves the mask unchanged. |
| `BackgroundRemoval.HardWhiteCutoff` | src/utils/backgroundRemoval.ts:100-106 | On integer channels, an average above 245 means a sum above 735. Every near-white pixel also passes the light-grey test. |
| `BackgroundRemoval.Clamp01` | src/utils/backgroundRemoval.ts:119 | The clamp lies in [0, 1] and leaves values already in [0, 1] unchanged. |
| `BackgroundRemoval.FadeCap` | src/utils/backgroundRemoval.ts:111-113 | The soft-fade cap lies in [0.15, 1]. |
| `BackgroundRemoval.WhiteAlpha` | src/utils/backgroundRemoval.ts:96-115 | A near-white pixel gets 0. A pixel that is not light grey keeps its entry. Otherwise the entry is lowered but keeps at least min(entry, 0.15). The clamped value never rises. |
| `BackgroundRemoval.AlphaByte` | src/utils/backgroundRemoval.ts:119 | The written byte lies in [0, 255]. It is 0 for a non-positive entry and 255 for an entry of at least 1. |
| `BackgroundRemoval.AlphaByteMonotone` | src/utils/backgroundRemoval.ts:119 | A lower clamped entry never gives a higher byte. |
| `BackgroundRemoval.AlphaBytes` | src/utils/backgroundRemoval.ts:118-120 | The final pass writes byte 4p+3 of each pixel and leaves every other byte unchanged. |
| `BackgroundRemoval.MaskNeverAboveOne` | src/utils/backgroundRemoval.ts:77-115 | The mask starts at 1 and neither pass raises an entry above 1, so no entry of the final mask is above 1. |
| `BackgroundRemoval.FinalByte` | src/utils/backgroundRemoval.ts:77-120 | Pixel p's alpha byte comes from the colour test applied to its entry after the segments. |
| `BackgroundRemoval.ColourKept` | src/utils/backgroundRemoval.ts:117-120 | The red, green and blue bytes of every pixel are unchanged. |
| `BackgroundRemoval.HardWhiteTransparent` | src/utils/backgroundRemoval.ts:105-109 | A near-white pixel ends fully transparent, whatever the segments say. |
| `BackgroundRemoval.BackgroundCapsOpacity` | src/utils/backgroundRemoval.ts:80-120 | A background segment covering pixel p caps its alpha byte at the byte for `1 - mask[p]`. |
| `BackgroundRemoval.UncoveredStaysOpaque` | src/utils/backgroundRemoval.ts:77-120 | A pixel that no background segment covers and that is not light grey stays at 255. |
| `BackgroundRemoval.LowerByMask` | src/utils/backgroundRemoval.ts:87-91 | The inner loop leaves the mask lowered by one segment's mask. Mask entries past the end of the array are ignored. |
| `BackgroundRemoval.ApplySegmentation` | src/utils/backgroundRemoval.ts:80-93 | The array ends equal to the segmentation fold over the old mask. |
| `BackgroundRemoval.WhiteTest` | src/utils/backgroundRemoval.ts:97-114 | The per-pixel branch structure, including the early `continue`, computes `WhiteAlpha`. |
| `BackgroundRemoval.ApplyWhiteThreshold` | src/utils/backgroundRemoval.ts:96-115 | The array ends equal to the colour-threshold pass over the old mask. |
| `BackgroundRemoval.ApplyAlpha` | src/utils/backgroundRemoval.ts:118-120 | The bytes end equal to `AlphaBytes` of the old bytes and the mask. |
| `BackgroundRemoval.RemoveBackgroundAlpha` | src/utils/backgroundRemoval.ts:57-120 | An empty segmentation result is an error that leaves the bytes alone. Otherwise the bytes end as `Composite`: an opaque mask, then the three passes in order. |

## Left out

- HTTP is not modelled: no request headers, no `JSON.stringify`, no response streams. Each fetch is an outcome parameter (a network error, or a status flag with an optionally parsed body). Toasts, `console` output and DOM anchor clicks are not modelled either, because they are I/O.
- `setTimeout` delays and `Date.now()` are not modelled. Each timer is a start method and a completion method, and the clock reading is a parameter.
- Interleavings of pending timers are not modelled; completions happen one at a time. One consequence: if `regenerateImage` timers overlap, each writes back the array copy it took at click time, so one regeneration can undo another.
- The transformers.js segmentation model is a foreign call, so segments are an input. Canvas creation and drawing, `getImageData`, `putImageData`, `toBlob` and image loading are browser I/O. `loadImage` and `loadImageFromUrl` are not modelled.
- The alpha mask is a `Float32Array`, but the model uses exact reals. The exact float values of the soft-fade ramp are not modelled, only its bounds.
- Segmentation results that are not arrays, and segments whose `mask` is missing (a `TypeError` in the source), are not modelled. Segments are a sequence of labels with numeric masks; only the empty result's error is modelled.
- `BackgroundRemoval.WhiteAlpha`: setting a near-white pixel to 0 can raise an entry that a mask value above 1 pushed below 0. So the contract says the entry is lowered "or set to 0", and that the clamped entry never rises.
- `BackgroundRemoval.ApplyWhiteThreshold`: requires 4 bytes per mask entry. Both sizes come from the same canvas in the source.
- `BackgroundRemoval.ResizeImageIfNeeded`: `drawImage` is not modelled. A 0 by 0 image gives a `NaN` width, which the canvas stores as 0; the model says so directly rather than computing with `NaN`.
- `Wizard.Index.OnStepClick`: requires a step of at least 1. The page's guard has no lower bound, but its only caller, the progress bar, passes 1 to 4.
- `ImageReview.ImageGeneration.RegenerateImage`: requires an index inside the image list. The grid only offers existing indexes, and the source throws for any other index.
- `ImageReview.ImageGeneration.UpdatePrompt`: requires an index inside the image list, which is the only place the grid calls it from.
- `Session.Handle` treats the next buttons of steps 4 and 5 and the back buttons of steps 2 to 6 as always available. Those steps' own enable conditions are modelled in `ScriptReview`, `ImageReview` and `VideoReview`. As a result, the composed runs include more runs than the real page allows, never fewer.
- `updateFormData` also accepts a `string[]` value, but no caller uses it, so the record holds strings only.
- The page passes props that do not match the step components' declared props. For example, the script step receives `formData` instead of `scriptContent`, and the company step reads undeclared `Brandvalue` and `Topicvalue`. Each component is modelled against its own declared props.
- `JsText.Decimal`: renders every non-negative integer as plain digits. JavaScript switches to exponent notation (`1e+21`) from 10^21 up. The attempt counts and `Date.now()` values the steps interpolate stay far below that. `VideoReview.TemplateString` applies `Decimal` to any JSON integer, so a `final_video_url` of 10^21 or more renders differently in the model.
- `VideoReview.Json`: numbers are integers, and objects are maps, so duplicate keys collapse.
- `VideoReview.TemplateString` renders these cases of `final_video_url` without proof: nested arrays, integers and `"[object Object]"`.
- The source files `LogoProcessor.tsx` and `Header.tsx` and the build configuration are not part of this model. They hold effect-driven image loading with a fallback, static markup, and build settings.
- JSX layout, CSS classes, icons and spinners are not modelled, apart from the `disabled`, highlight and visibility predicates above. The script step's `downloadScript` is elided in the source file and is not part of this model.
