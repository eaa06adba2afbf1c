/**
 * The wizard's form record: a flat record of string fields with a fixed set
 * of keys, created with defaults and changed one key at a time by a shallow
 * merge (`{ ...prev, [key]: value }`).
 */
module Form {

  /** The keys of the record. */
  datatype Field = CompanyInfo | VideoType | TargetPlatform | VisualStyle | VideoTechniques | AspectRatio

  datatype FormData = FormData(
    companyInfo: string,
    videoType: string,
    targetPlatform: string,
    visualStyle: string,
    videoTechniques: string,
    aspectRatio: string)

  /** One call of the page's `updateFormData(key, value)`, as a step component's handler requests it. */
  datatype Edit = Edit(key: Field, value: string)

  /** The aspect ratio the record starts with. */
  const DefaultAspectRatio: string := "16:9"

  /** `formData[key]` */
  function Get(fd: FormData, key: Field): string {
    match key
    case CompanyInfo => fd.companyInfo
    case VideoType => fd.videoType
    case TargetPlatform => fd.targetPlatform
    case VisualStyle => fd.visualStyle
    case VideoTechniques => fd.videoTechniques
    case AspectRatio => fd.aspectRatio
  }

  /** Two records that agree on every key are the same record. */
  lemma Extensionality(a: FormData, b: FormData)
    requires forall key :: Get(a, key) == Get(b, key)
    ensures a == b
  {
    assert Get(a, CompanyInfo) == Get(b, CompanyInfo);
    assert Get(a, VideoType) == Get(b, VideoType);
    assert Get(a, TargetPlatform) == Get(b, TargetPlatform);
    assert Get(a, VisualStyle) == Get(b, VisualStyle);
    assert Get(a, VideoTechniques) == Get(b, VideoTechniques);
    assert Get(a, AspectRatio) == Get(b, AspectRatio);
  }

  /** The record the wizard starts with: every field empty except the aspect ratio. */
  function Initial(): (fd: FormData)
    ensures forall key :: Get(fd, key) == if key == AspectRatio then DefaultAspectRatio else ""
  {
    FormData("", "", "", "", "", DefaultAspectRatio)
  }

  /** `{ ...fd, [key]: value }`: the key takes the new value and every other key keeps its old one. */
  function Set(fd: FormData, key: Field, value: string): (r: FormData)
    ensures Get(r, key) == value
    ensures forall other :: other != key ==> Get(r, other) == Get(fd, other)
  {
    match key
    case CompanyInfo => fd.(companyInfo := value)
    case VideoType => fd.(videoType := value)
    case TargetPlatform => fd.(targetPlatform := value)
    case VisualStyle => fd.(visualStyle := value)
    case VideoTechniques => fd.(videoTechniques := value)
    case AspectRatio => fd.(aspectRatio := value)
  }

  /** Applies a requested edit to the record. */
  function Apply(fd: FormData, e: Edit): FormData {
    Set(fd, e.key, e.value)
  }

  /** Writing a key its current value changes nothing. */
  lemma SetCurrentValue(fd: FormData, key: Field)
    ensures Set(fd, key, Get(fd, key)) == fd
  {
    Extensionality(Set(fd, key, Get(fd, key)), fd);
  }

  /** Repeating the same update is idempotent. */
  lemma SetIdempotent(fd: FormData, key: Field, value: string)
    ensures Set(Set(fd, key, value), key, value) == Set(fd, key, value)
  {
    SetCurrentValue(Set(fd, key, value), key);
  }

  /** Of two writes to one key, the last one wins. */
  lemma LastWriteWins(fd: FormData, key: Field, first: string, second: string)
    ensures Set(Set(fd, key, first), key, second) == Set(fd, key, second)
  {
    Extensionality(Set(Set(fd, key, first), key, second), Set(fd, key, second));
  }

  /** Writes to different keys do not interfere: their order does not matter. */
  lemma SetsCommute(fd: FormData, k1: Field, v1: string, k2: Field, v2: string)
    requires k1 != k2
    ensures Set(Set(fd, k1, v1), k2, v2) == Set(Set(fd, k2, v2), k1, v1)
  {
    Extensionality(Set(Set(fd, k1, v1), k2, v2), Set(Set(fd, k2, v2), k1, v1));
  }
}
