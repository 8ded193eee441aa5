/** The login helper userscript: it reads a student code from the page's URL
    fragment, and when the code is well formed it selects student login,
    fills the code in, clears the fragment and submits the form. The timers
    and the page's postback are collapsed into one step. */
module Autofill {
  import opened Wrappers
  import opened Text

  /** The code length the script accepts (`/^\d{5}$/`). */
  const CodeLength := 5

  /** Exactly five ASCII digits. */
  predicate IsStudentCode(s: string) {
    |s| == CodeLength && AllDigits(s)
  }

  /** The code carried by `location.hash`: everything after its first
      character, and only if the fragment is at least two characters long
      and the rest is exactly five digits. */
  function ExtractCode(hash: string): (r: Option<string>)
    ensures |hash| < 2 ==> r.None?
    ensures r.Some? ==> IsStudentCode(r.value) && r.value == hash[1..]
  {
    if |hash| < 2 then None
    else
      var code := hash[1..];
      if IsStudentCode(code) then Some(code) else None
  }

  /** A code is found exactly when the fragment is six characters whose last
      five are digits, and then it is those five. */
  lemma ExtractCodeIff(hash: string, code: string)
    ensures ExtractCode(hash) == Some(code) <==> |hash| == CodeLength + 1 && AllDigits(hash[1..]) && code == hash[1..]
  {
  }

  /** The first character of the fragment is dropped unread: `#` or anything else. */
  lemma FirstCharacterIgnored(a: char, b: char, rest: string)
    ensures ExtractCode([a] + rest) == ExtractCode([b] + rest)
  {
    assert ([a] + rest)[1..] == rest;
    assert ([b] + rest)[1..] == rest;
  }

  /** A link built as `#` followed by a five-digit code gives that code back. */
  lemma LinkRoundTrip(code: string)
    requires IsStudentCode(code)
    ensures ExtractCode("#" + code) == Some(code)
  {
    assert ("#" + code)[1..] == code;
  }

  /** The login page as the script sees it. `studentRadio` is `None` when
      the radio button is not on the page and otherwise whether it is
      checked. */
  datatype LoginPage = LoginPage(
    studentRadio: Option<bool>,
    codeValue: string,
    hasSubmitButton: bool,
    submitted: bool,
    hash: string)

  /** The whole run of the script on a page. Without a valid code nothing
      happens. Otherwise student login ends up selected (when the radio is
      there), the code field holds the code, the fragment is cleared, and
      the form is submitted when its button exists. */
  function Run(page: LoginPage): (r: LoginPage)
    ensures ExtractCode(page.hash).None? ==> r == page
    ensures ExtractCode(page.hash).Some? ==>
      && r.codeValue == ExtractCode(page.hash).value
      && r.hash == ""
      && r.submitted == (page.submitted || page.hasSubmitButton)
      && r.studentRadio == (if page.studentRadio.Some? then Some(true) else None)
      && r.hasSubmitButton == page.hasSubmitButton
  {
    match ExtractCode(page.hash)
    case None => page
    case Some(code) =>
      var selected := if page.studentRadio.Some? then Some(true) else None;
      LoginPage(selected, code, page.hasSubmitButton, page.submitted || page.hasSubmitButton, "")
  }

  /** Running the script twice is the same as running it once: the first
      run clears the fragment, so a reload does not log in again. */
  lemma RunIsIdempotent(page: LoginPage)
    ensures Run(Run(page)) == Run(page)
  {
  }

  /** The value filled in is the five digits after the fragment's first character. */
  lemma FilledValueIsCode(page: LoginPage)
    requires |page.hash| == CodeLength + 1 && AllDigits(page.hash[1..])
    ensures Run(page).codeValue == page.hash[1..] && IsStudentCode(Run(page).codeValue)
  {
  }
}
