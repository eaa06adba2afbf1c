/**
 * The few pieces of JavaScript string behaviour the wizard relies on:
 * `String.prototype.trim` (and the "blank after trim" test every step uses
 * to disable its next button), the decimal rendering of a non-negative
 * integer inside a template literal, and an Option type for nullable values.
 */
module JsText {

  datatype Option<+T> = None | Some(value: T)

  /** The characters `trim` removes: ECMAScript WhiteSpace and LineTerminator code points. */
  const Whitespace: set<char> := {
    ' ', '\t', '\n', '\U{000B}', '\U{000C}', '\r', '\U{00A0}', '\U{1680}',
    '\U{2000}', '\U{2001}', '\U{2002}', '\U{2003}', '\U{2004}', '\U{2005}',
    '\U{2006}', '\U{2007}', '\U{2008}', '\U{2009}', '\U{200A}',
    '\U{2028}', '\U{2029}', '\U{202F}', '\U{205F}', '\U{3000}', '\U{FEFF}'
  }

  predicate IsWhitespace(c: char) {
    c in Whitespace
  }

  /** Where the text after position `i` stops being whitespace: everything skipped is whitespace. */
  function SkipWhitespace(s: string, i: nat): (k: nat)
    requires i <= |s|
    ensures i <= k <= |s|
    ensures forall j :: i <= j < k ==> IsWhitespace(s[j])
    ensures k < |s| ==> !IsWhitespace(s[k])
    decreases |s| - i
  {
    if i < |s| && IsWhitespace(s[i]) then SkipWhitespace(s, i + 1) else i
  }

  /** Where the text before position `j` (and not before `k`) stops being whitespace, reading backwards. */
  function SkipWhitespaceBack(s: string, k: nat, j: nat): (e: nat)
    requires k <= j <= |s|
    ensures k <= e <= j
    ensures forall m :: e <= m < j ==> IsWhitespace(s[m])
    ensures k < e ==> !IsWhitespace(s[e - 1])
    decreases j - k
  {
    if k < j && IsWhitespace(s[j - 1]) then SkipWhitespaceBack(s, k, j - 1) else j
  }

  /**
   * `s.trim()`: the piece of `s` between its leading and its trailing
   * whitespace. Everything around the piece is whitespace, and the piece
   * neither starts nor ends with whitespace.
   */
  function Trim(s: string): (r: string)
    ensures var k := SkipWhitespace(s, 0); k + |r| <= |s| && r == s[k..k + |r|]
    ensures var k := SkipWhitespace(s, 0);
      forall i :: 0 <= i < |s| && !(k <= i < k + |r|) ==> IsWhitespace(s[i])
    ensures r != [] ==> !IsWhitespace(r[0]) && !IsWhitespace(r[|r| - 1])
  {
    var k := SkipWhitespace(s, 0);
    s[k..SkipWhitespaceBack(s, k, |s|)]
  }

  /** `!s.trim()` in the source, read as what it means: the text is empty or whitespace only. */
  predicate IsBlank(s: string) {
    forall i :: 0 <= i < |s| ==> IsWhitespace(s[i])
  }

  /** The source's test `!s.trim()` holds exactly for blank text. */
  lemma TrimEmptyIffBlank(s: string)
    ensures Trim(s) == "" <==> IsBlank(s)
  {
    var k := SkipWhitespace(s, 0);
    if IsBlank(s) && k < |s| {
      assert false;
    }
  }

  /** No printable ASCII character is whitespace. */
  lemma PrintableAsciiIsVisible(c: char)
    requires '!' <= c <= '~'
    ensures !IsWhitespace(c)
  {
  }

  /** A text whose first character is not whitespace is never blank. */
  lemma NotBlankWhenFirstIsVisible(s: string)
    requires s != [] && !IsWhitespace(s[0])
    ensures !IsBlank(s) && Trim(s) != ""
  {
    TrimEmptyIffBlank(s);
  }

  /** The character of one decimal digit. */
  function DigitChar(d: nat): (c: char)
    requires d < 10
    ensures '0' <= c <= '9' && (c as int) - ('0' as int) == d
  {
    (('0' as int) + d) as char
  }

  /** `${n}` for a non-negative integer below 10^21: its decimal digits without leading zeros. */
  function Decimal(n: nat): (s: string)
    ensures |s| >= 1
    ensures forall i :: 0 <= i < |s| ==> '0' <= s[i] <= '9'
    ensures s[0] == '0' ==> n == 0
  {
    if n < 10 then [DigitChar(n)] else Decimal(n / 10) + [DigitChar(n % 10)]
  }

  /** Reads a string of decimal digits back as a number. */
  function DecimalValue(s: string): nat
    requires forall i :: 0 <= i < |s| ==> '0' <= s[i] <= '9'
  {
    if s == [] then 0
    else DecimalValue(s[..|s| - 1]) * 10 + ((s[|s| - 1] as int) - ('0' as int))
  }

  /** Reading back what `Decimal` renders gives the original number. */
  lemma {:induction false} DecimalRoundTrip(n: nat)
    ensures DecimalValue(Decimal(n)) == n
  {
    if n >= 10 {
      var s := Decimal(n);
      assert s[..|s| - 1] == Decimal(n / 10);
      DecimalRoundTrip(n / 10);
    }
  }

  /** Different numbers render differently. */
  lemma DecimalInjective(m: nat, n: nat)
    requires Decimal(m) == Decimal(n)
    ensures m == n
  {
    DecimalRoundTrip(m);
    DecimalRoundTrip(n);
  }
}
