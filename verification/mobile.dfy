/** The two mobile-number checks of the plugin and the phone-input cleaning
    of its front-end script.

    The server check (`Utils::is_valid_mobile`) and the browser check
    (`isValidMobile`) share the character class — digits, whitespace, `-`,
    `+`, `(`, `)` — and the seven-digit minimum, but bound the length
    differently: the server caps the whole string at 20 characters, the
    browser caps the digit count at 15.  They also disagree on whitespace:
    PCRE's `\s` on a byte string is ASCII whitespace only, JavaScript's `\s`
    includes the Unicode space separators. */
module Mobile {
  import opened PhpValue
  import opened Text

  /** The punctuation both checks allow. */
  predicate Punctuation(c: char) {
    c == '-' || c == '+' || c == '(' || c == ')'
  }

  /** `[\d\s\-\+\(\)]` as PHP's PCRE reads it. */
  predicate PhpAllowed(c: char) {
    IsDigit(c) || AsciiSpace(c) || Punctuation(c)
  }

  /** `[\d\s\-\+\(\)]` as JavaScript reads it. */
  predicate JsAllowed(c: char) {
    IsDigit(c) || JsSpace(c) || Punctuation(c)
  }

  /** `^[…]+$`: non-empty and made only of characters of the class. */
  predicate AllOf(s: string, allowed: char -> bool) {
    |s| > 0 && forall i :: 0 <= i < |s| ==> allowed(s[i])
  }

  /** `replace(/[^\d]/g, '')` / `preg_replace('/[^\d]/', '', …)`. */
  function Digits(s: string): (d: string)
    ensures forall i :: 0 <= i < |d| ==> IsDigit(d[i])
  {
    Filter(s, IsDigit)
  }

  /** The server-side minimum number of digits. */
  const MinDigits := 7
  /** The server-side maximum length of the whole string, formatting included. */
  const PhpMaxLength := 20
  /** The browser-side maximum number of digits. */
  const JsMaxDigits := 15

  /** `Utils::is_valid_mobile`: the three checks in the source's order. */
  function IsValidMobilePhp(s: string): (ok: bool)
    ensures !AllOf(s, PhpAllowed) ==> !ok
    ensures |Digits(s)| < MinDigits ==> !ok
    ensures |s| > PhpMaxLength ==> !ok
    ensures ok <==> AllOf(s, PhpAllowed) && |Digits(s)| >= MinDigits && |s| <= PhpMaxLength
  {
    var digitsOnly := Digits(s);
    if !AllOf(s, PhpAllowed) then false
    else if |digitsOnly| < MinDigits then false
    else if |s| > PhpMaxLength then false
    else true
  }

  /** `isValidMobile` of the front-end script. */
  function IsValidMobileJs(s: string): (ok: bool)
    ensures ok <==> AllOf(s, JsAllowed) && MinDigits <= |Digits(s)| <= JsMaxDigits
  {
    if !AllOf(s, JsAllowed) then false
    else
      var digitsOnly := Digits(s);
      if |digitsOnly| < MinDigits then false
      else if |digitsOnly| > JsMaxDigits then false
      else true
  }

  /** The phone-input handler's `value.replace(/[^\d\s\-\+\(\)]/g, '')`. */
  function CleanPhone(s: string): (r: string)
    ensures |r| <= |s|
    ensures forall i :: 0 <= i < |r| ==> JsAllowed(r[i])
  {
    Filter(s, JsAllowed)
  }

  // ---------------------------------------------------------------------
  // Properties of cleaning
  // ---------------------------------------------------------------------

  /** Cleaning keeps exactly the allowed characters: every allowed character
      of the input survives and nothing else appears. */
  lemma CleanPhoneKeepsAllowed(s: string, c: char)
    ensures c in CleanPhone(s) <==> c in s && JsAllowed(c)
  {
    if c in s && JsAllowed(c) {
      var i :| 0 <= i < |s| && s[i] == c;
      FilterKeeps(s, JsAllowed, i);
    }
    if c in CleanPhone(s) {
      FilterSubset(s, JsAllowed, c);
    }
  }

  /** Input that is already clean is left as it is. */
  lemma CleanPhoneOfCleanInput(s: string)
    requires forall i :: 0 <= i < |s| ==> JsAllowed(s[i])
    ensures CleanPhone(s) == s
  {
    FilterAll(s, JsAllowed);
  }

  /** Cleaning twice is cleaning once. */
  lemma CleanPhoneIdempotent(s: string)
    ensures CleanPhone(CleanPhone(s)) == CleanPhone(s)
  {
    CleanPhoneOfCleanInput(CleanPhone(s));
  }

  /** Cleaning never removes a digit, so the digit count the validator
      measures is the digit count of what was typed. */
  lemma CleanPhoneKeepsDigits(s: string)
    ensures Digits(CleanPhone(s)) == Digits(s)
  {
    FilterNarrow(s, JsAllowed, IsDigit);
  }

  /** After cleaning, the browser check depends only on the number of digits
      typed (and on something being left at all). */
  lemma CleanedValidity(s: string)
    ensures IsValidMobileJs(CleanPhone(s))
        <==> |CleanPhone(s)| > 0 && MinDigits <= |Digits(s)| <= JsMaxDigits
  {
    CleanPhoneKeepsDigits(s);
  }

  // ---------------------------------------------------------------------
  // Where the two checks agree and where they do not
  // ---------------------------------------------------------------------

  /** Every character the server accepts the browser accepts too. */
  lemma PhpClassInJsClass(s: string)
    requires AllOf(s, PhpAllowed)
    ensures AllOf(s, JsAllowed)
  {
  }

  /** The checks agree on a string of ASCII characters that is at most 20
      characters long and carries at most 15 digits. */
  lemma PhpJsAgreeWithinBounds(s: string)
    requires |s| <= PhpMaxLength && |Digits(s)| <= JsMaxDigits
    requires forall i :: 0 <= i < |s| ==> (JsAllowed(s[i]) <==> PhpAllowed(s[i]))
    ensures IsValidMobilePhp(s) == IsValidMobileJs(s)
  {
  }

  /** A string of digits only is its own digit string. */
  lemma DigitsOfNumber(a: string)
    requires forall i :: 0 <= i < |a| ==> IsDigit(a[i])
    ensures Digits(a) == a
  {
    FilterAll(a, IsDigit);
  }

  /** Sixteen digits pass the server and fail the browser. */
  lemma SixteenDigitsDiverge()
    ensures IsValidMobilePhp("1234567890123456")
    ensures !IsValidMobileJs("1234567890123456")
  {
    var s := "1234567890123456";
    assert forall i :: 0 <= i < |s| ==> IsDigit(s[i]);
    DigitsOfNumber(s);
    assert |Digits(s)| == 16;
  }

  /** Formatting longer than 20 characters around at most 15 digits fails
      the server and passes the browser. */
  lemma LongFormattingDiverges(s: string)
    requires AllOf(s, PhpAllowed) && MinDigits <= |Digits(s)| <= JsMaxDigits
    requires |s| > PhpMaxLength
    ensures !IsValidMobilePhp(s) && IsValidMobileJs(s)
  {
  }

  lemma DigitsOfPadded(a: string, b: string)
    requires forall i :: 0 <= i < |a| ==> IsDigit(a[i])
    requires forall i :: 0 <= i < |b| ==> b[i] == ' '
    ensures Digits(a + b) == a
    ensures forall i :: 0 <= i < |a + b| ==> PhpAllowed((a + b)[i])
  {
    FilterAppend(a, b, IsDigit);
    FilterAll(a, IsDigit);
    FilterNone(b, IsDigit);
  }

  /** A seven-digit number followed by fourteen spaces is such a string. */
  lemma PaddedNumberDiverges()
    ensures !IsValidMobilePhp("1234567" + "              ")
    ensures IsValidMobileJs("1234567" + "              ")
  {
    var a, b := "1234567", "              ";
    assert forall i :: 0 <= i < |a| ==> IsDigit(a[i]);
    assert forall i :: 0 <= i < |b| ==> b[i] == ' ';
    DigitsOfPadded(a, b);
    LongFormattingDiverges(a + b);
  }

  /** The digits of `555<no-break space>1234`. */
  lemma NoBreakSpaceDigits()
    ensures Digits("555\U{00A0}1234") == "5551234"
  {
    var s := "555\U{00A0}1234";
    assert s[1..] == "55\U{00A0}1234";
    assert s[2..] == "5\U{00A0}1234";
    assert s[3..] == "\U{00A0}1234";
    assert s[4..] == "1234";
    var b := "1234";
    assert forall i :: 0 <= i < |b| ==> IsDigit(b[i]);
    DigitsOfNumber(b);
  }

  /** A no-break space is whitespace to the browser but not to the server. */
  lemma NoBreakSpaceDiverges()
    ensures !IsValidMobilePhp("555\U{00A0}1234")
    ensures IsValidMobileJs("555\U{00A0}1234")
  {
    var s := "555\U{00A0}1234";
    assert !PhpAllowed(s[3]);
    NoBreakSpaceDigits();
    assert forall i :: 0 <= i < |s| ==> JsAllowed(s[i]);
  }
}
