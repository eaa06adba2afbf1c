/**
 * The page and its first three steps put together: which controls each step
 * renders, what their handlers write into the record through the page's
 * `updateFormData`, and when the page's `nextStep`, `prevStep` and progress
 * jump run. The script, image and video steps keep their own state, so here
 * their next/previous buttons are taken to be always available, which only
 * allows more runs than the real page does.
 */
module Session {
  import opened JsText
  import opened Form
  import opened Wizard
  import CompanyInfo
  import VideoTypeChoice
  import VisualStyle
  import Progress

  /** What the page holds: the step number and the form record. */
  datatype Page = Page(step: int, form: FormData)

  /** A user action on one of the controls on screen. */
  datatype UiEvent =
    | AreaTyped(area: CompanyInfo.TextArea, text: string)
    | TypeClicked(index: nat)
    | PlatformTyped(text: string)
    | TechniqueClicked(index: nat)
    | RatioClicked(index: nat)
    | NextClicked
    | PrevClicked
    | ProgressClicked(index: nat)

  function Start(): Page {
    Page(FirstStep, Initial())
  }

  /** The rendered step's next button exists and is enabled (steps 4 and 5 over-approximated). */
  predicate NextEnabled(p: Page) {
    if p.step == 1 then !CompanyInfo.NextDisabled(p.form.companyInfo)
    else if p.step == 2 then !VideoTypeChoice.NextDisabled(p.form.videoType, p.form.targetPlatform)
    else if p.step == 3 then !VisualStyle.NextDisabled(p.form.videoTechniques, p.form.aspectRatio)
    else p.step == 4 || p.step == 5
  }

  /** Every step but the first renders a back button (steps 4, 5 and 6 over-approximated). */
  predicate PrevShown(p: Page) {
    FirstStep < p.step <= LastStep
  }

  /** The page after one action; an action on a control that is not on screen or is disabled changes nothing. */
  function Handle(p: Page, e: UiEvent): Page {
    match e
    case AreaTyped(area, text) =>
      if p.step == 1 then p.(form := Apply(p.form, CompanyInfo.Changed(area, text))) else p
    case TypeClicked(i) =>
      if p.step == 2 && i < |VideoTypeChoice.VideoTypes| then p.(form := Apply(p.form, VideoTypeChoice.TypeClicked(i))) else p
    case PlatformTyped(text) =>
      if p.step == 2 then p.(form := Apply(p.form, VideoTypeChoice.PlatformTyped(text))) else p
    case TechniqueClicked(i) =>
      if p.step == 3 && i < |VisualStyle.Techniques| then p.(form := Apply(p.form, VisualStyle.TechniqueClicked(i))) else p
    case RatioClicked(i) =>
      if p.step == 3 && i < |VisualStyle.AspectRatios| then p.(form := Apply(p.form, VisualStyle.RatioClicked(i))) else p
    case NextClicked =>
      if NextEnabled(p) then p.(step := Advance(p.step)) else p
    case PrevClicked =>
      if PrevShown(p) then p.(step := Retreat(p.step)) else p
    case ProgressClicked(i) =>
      if i < |Progress.Steps| && !Progress.ButtonDisabled(Progress.Steps[i].number, p.step)
      then p.(step := Jump(p.step, Progress.ClickTarget(i)))
      else p
  }

  /** The page after a sequence of actions. */
  function Run(p: Page, events: seq<UiEvent>): Page
    decreases |events|
  {
    if events == [] then p else Run(Handle(p, events[0]), events[1..])
  }

  /**
   * What holds of every page the user can reach: the step is in range, every
   * step already passed had its required fields filled, each selection is a
   * listed option (or still empty), and `visualStyle` was never written.
   */
  predicate Consistent(p: Page) {
    && InRange(p.step)
    && (p.step > 1 ==> !CompanyInfo.NextDisabled(p.form.companyInfo))
    && (p.step > 2 ==> !VideoTypeChoice.NextDisabled(p.form.videoType, p.form.targetPlatform))
    && (p.step > 3 ==> VisualStyle.IsFormValid(p.form.videoTechniques, p.form.aspectRatio))
    && (p.form.videoType == "" || p.form.videoType in VideoTypeChoice.VideoTypes)
    && (p.form.videoTechniques == "" || VisualStyle.IsTechniqueId(p.form.videoTechniques))
    && VisualStyle.IsRatioId(p.form.aspectRatio)
    && p.form.visualStyle == ""
  }

  lemma StartConsistent()
    ensures Consistent(Start())
  {
    VisualStyle.DefaultRatioIsListed();
  }

  /** An edit made on step `p.step` to a field that belongs to that step keeps the page consistent. */
  lemma EditPreserves(p: Page, e: Edit)
    requires Consistent(p)
    requires p.step == 1 ==> e.key == CompanyInfo
    requires p.step == 2 ==> e.key == TargetPlatform || (e.key == VideoType && e.value in VideoTypeChoice.VideoTypes)
    requires p.step == 3 ==>
      || (e.key == VideoTechniques && VisualStyle.IsTechniqueId(e.value))
      || (e.key == AspectRatio && VisualStyle.IsRatioId(e.value))
    requires p.step <= 3
    ensures Consistent(p.(form := Apply(p.form, e)))
  {
    var q := p.(form := Apply(p.form, e));
    assert q.step == p.step;
    assert p.step > 1 ==> q.form.companyInfo == p.form.companyInfo;
    assert p.step > 2 ==> q.form.videoType == p.form.videoType && q.form.targetPlatform == p.form.targetPlatform;
    assert q.form.visualStyle == "";
  }

  /** A step move keeps the page consistent when a forward move passes the current step's check. */
  lemma MovePreserves(p: Page, step: int)
    requires Consistent(p) && InRange(step)
    requires step <= p.step || (step == p.step + 1 && NextEnabled(p))
    ensures Consistent(p.(step := step))
  {
  }

  /** One action moves at most one step forward, only through an enabled next button, and a bar click never moves forward. */
  lemma HandleStep(p: Page, e: UiEvent)
    ensures Handle(p, e).step <= p.step + 1
    ensures e.ProgressClicked? ==> Handle(p, e).step <= p.step
    ensures Handle(p, e).step > p.step ==> e == NextClicked && NextEnabled(p)
  {
  }

  /** One action keeps the page consistent. */
  lemma HandlePreserves(p: Page, e: UiEvent)
    requires Consistent(p)
    ensures Consistent(Handle(p, e))
  {
    if e.NextClicked? || e.PrevClicked? || e.ProgressClicked? {
      MoveEventPreserves(p, e);
    } else {
      EditEventPreserves(p, e);
    }
  }

  lemma MoveEventPreserves(p: Page, e: UiEvent)
    requires Consistent(p)
    requires e.NextClicked? || e.PrevClicked? || e.ProgressClicked?
    ensures Consistent(Handle(p, e))
  {
    match e
    case NextClicked => NextPreserves(p);
    case PrevClicked => PrevPreserves(p);
    case ProgressClicked(i) => ProgressPreserves(p, i);
  }

  lemma NextPreserves(p: Page)
    requires Consistent(p)
    ensures Consistent(Handle(p, NextClicked))
  {
    if NextEnabled(p) {
      MovePreserves(p, Advance(p.step));
    }
  }

  lemma PrevPreserves(p: Page)
    requires Consistent(p)
    ensures Consistent(Handle(p, PrevClicked))
  {
    if PrevShown(p) {
      MovePreserves(p, Retreat(p.step));
    }
  }

  lemma ProgressPreserves(p: Page, i: nat)
    requires Consistent(p)
    ensures Consistent(Handle(p, ProgressClicked(i)))
  {
    if i < |Progress.Steps| && !Progress.ButtonDisabled(Progress.Steps[i].number, p.step) {
      var target := Jump(p.step, Progress.ClickTarget(i));
      assert Handle(p, ProgressClicked(i)) == p.(step := target);
      MovePreserves(p, target);
    }
  }

  lemma EditEventPreserves(p: Page, e: UiEvent)
    requires Consistent(p)
    requires !(e.NextClicked? || e.PrevClicked? || e.ProgressClicked?)
    ensures Consistent(Handle(p, e))
  {
    match e
    case AreaTyped(area, text) => AreaPreserves(p, area, text);
    case TypeClicked(i) => TypePreserves(p, i);
    case PlatformTyped(text) => PlatformPreserves(p, text);
    case TechniqueClicked(i) => TechniquePreserves(p, i);
    case RatioClicked(i) => RatioPreserves(p, i);
  }

  lemma AreaPreserves(p: Page, area: CompanyInfo.TextArea, text: string)
    requires Consistent(p)
    ensures Consistent(Handle(p, AreaTyped(area, text)))
  {
    if p.step == 1 { EditPreserves(p, CompanyInfo.Changed(area, text)); }
  }

  lemma TypePreserves(p: Page, i: nat)
    requires Consistent(p)
    ensures Consistent(Handle(p, TypeClicked(i)))
  {
    if p.step == 2 && i < |VideoTypeChoice.VideoTypes| { EditPreserves(p, VideoTypeChoice.TypeClicked(i)); }
  }

  lemma PlatformPreserves(p: Page, text: string)
    requires Consistent(p)
    ensures Consistent(Handle(p, PlatformTyped(text)))
  {
    if p.step == 2 { EditPreserves(p, VideoTypeChoice.PlatformTyped(text)); }
  }

  lemma TechniquePreserves(p: Page, i: nat)
    requires Consistent(p)
    ensures Consistent(Handle(p, TechniqueClicked(i)))
  {
    if p.step == 3 && i < |VisualStyle.Techniques| {
      var e := VisualStyle.TechniqueClicked(i);
      assert VisualStyle.IsTechniqueId(e.value);
      assert Handle(p, TechniqueClicked(i)) == p.(form := Apply(p.form, e));
      EditPreserves(p, e);
    }
  }

  lemma RatioPreserves(p: Page, i: nat)
    requires Consistent(p)
    ensures Consistent(Handle(p, RatioClicked(i)))
  {
    if p.step == 3 && i < |VisualStyle.AspectRatios| {
      var e := VisualStyle.RatioClicked(i);
      assert VisualStyle.IsRatioId(e.value);
      assert Handle(p, RatioClicked(i)) == p.(form := Apply(p.form, e));
      EditPreserves(p, e);
    }
  }

  /** Any run of actions from a consistent page ends on a consistent page. */
  lemma {:induction false} RunPreserves(p: Page, events: seq<UiEvent>)
    requires Consistent(p)
    ensures Consistent(Run(p, events))
    decreases |events|
  {
    if events != [] {
      HandlePreserves(p, events[0]);
      RunPreserves(Handle(p, events[0]), events[1..]);
    }
  }

  /**
   * Whatever the user does, the step stays in 1..6, the page is past step 3
   * only with a company description, a listed video type, a platform, a listed
   * technique and a listed ratio, and `visualStyle` stays empty.
   */
  lemma Reachable(events: seq<UiEvent>)
    ensures var p := Run(Start(), events);
      && InRange(p.step)
      && (p.step > 3 ==>
            && !IsBlank(p.form.companyInfo)
            && p.form.videoType in VideoTypeChoice.VideoTypes
            && !IsBlank(p.form.targetPlatform)
            && VisualStyle.IsTechniqueId(p.form.videoTechniques)
            && VisualStyle.IsRatioId(p.form.aspectRatio))
      && p.form.visualStyle == ""
  {
    StartConsistent();
    RunPreserves(Start(), events);
  }

  /** The first step has no back button; even if it had one, `prevStep` would leave step 1 alone. */
  lemma NoBackFromFirstStep(form: FormData)
    ensures Handle(Page(1, form), PrevClicked) == Page(1, form)
    ensures Retreat(1) == 1
  {
  }
}
