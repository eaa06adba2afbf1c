/**
 * Step 1, the company/brand question: two text areas that both report their
 * raw text to the one `companyInfo` field, and a next button that is
 * disabled while that field is blank after trimming. There is no back button.
 */
module CompanyInfo {
  import opened JsText
  import opened Form

  /** `disabled={!value.trim()}` on the next button. */
  predicate NextDisabled(value: string) {
    IsBlank(value)
  }

  /** The next button is disabled exactly when trimming leaves nothing, that is, when the text is empty or whitespace only. */
  lemma NextDisabledIffTrimEmpty(value: string)
    ensures NextDisabled(value) <==> Trim(value) == ""
    ensures NextDisabled(value) <==> forall i :: 0 <= i < |value| ==> IsWhitespace(value[i])
  {
    TrimEmptyIffBlank(value);
  }

  /** The two text areas of the step. */
  datatype TextArea = BrandArea | TopicArea

  /** Either text area's `onChange`: the untrimmed text, written by the page to `companyInfo`. */
  function Changed(area: TextArea, text: string): (e: Edit)
    ensures e.key == CompanyInfo && e.value == text
  {
    Edit(CompanyInfo, text)
  }

  /** Both text areas write one field, so whichever was edited last decides its value. */
  lemma MostRecentAreaWins(fd: FormData, first: TextArea, t1: string, second: TextArea, t2: string)
    ensures Apply(Apply(fd, Changed(first, t1)), Changed(second, t2)) == Apply(fd, Changed(second, t2))
  {
    LastWriteWins(fd, CompanyInfo, t1, t2);
  }
}
