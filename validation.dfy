/**
 * `isValidTextAddition`: the check made on the rename text before it is used.
 * The warning the controller would raise on the form is returned instead.
 */
module Validation {
  import opened Strings

  const MAX_ADD_TEXT_LENGTH := 50

  /** `Character.isLetterOrDigit`, restricted to ASCII letters and digits. */
  predicate IsLetterOrDigit(c: char) {
    'a' <= c <= 'z' || 'A' <= c <= 'Z' || '0' <= c <= '9'
  }

  predicate AllowedChar(c: char) {
    IsLetterOrDigit(c) || c == '_' || c == '-'
  }

  /** Reference definition of an acceptable rename text. */
  predicate ValidText(phrase: string) {
    0 < |phrase| <= MAX_ADD_TEXT_LENGTH && forall i :: 0 <= i < |phrase| ==> AllowedChar(phrase[i])
  }

  /** The three warnings the form can show for a rejected text. */
  datatype TextWarning = WarningEmptyText | WarningExceededTextLimit | WarningInvalidText(c: char)

  /** The index of the first character at or after `from` that is not allowed. */
  function FirstIllegalFrom(phrase: string, from: nat): (r: Option<nat>)
    requires from <= |phrase|
    ensures r.None? <==> forall j :: from <= j < |phrase| ==> AllowedChar(phrase[j])
    ensures r.Some? ==>
      from <= r.value < |phrase| && !AllowedChar(phrase[r.value]) &&
      forall j :: from <= j < r.value ==> AllowedChar(phrase[j])
    decreases |phrase| - from
  {
    if from == |phrase| then None
    else if !AllowedChar(phrase[from]) then Some(from)
    else FirstIllegalFrom(phrase, from + 1)
  }

  function FirstIllegal(phrase: string): Option<nat> {
    FirstIllegalFrom(phrase, 0)
  }

  /**
   * `isValidTextAddition`: empty, then too long, then the first character that is
   * neither a letter, a digit, '_' nor '-'; each failure carries its warning.
   */
  method IsValidTextAddition(phrase: string) returns (ok: bool, warning: Option<TextWarning>)
    ensures ok <==> ValidText(phrase)
    ensures ok <==> warning.None?
    ensures |phrase| == 0 ==> warning == Some(WarningEmptyText)
    ensures |phrase| > MAX_ADD_TEXT_LENGTH ==> warning == Some(WarningExceededTextLimit)
    ensures 0 < |phrase| <= MAX_ADD_TEXT_LENGTH && !ok ==>
      FirstIllegal(phrase).Some? &&
      warning == Some(WarningInvalidText(phrase[FirstIllegal(phrase).value]))
  {
    if |phrase| == 0 {
      return false, Some(WarningEmptyText);
    }
    if |phrase| > MAX_ADD_TEXT_LENGTH {
      return false, Some(WarningExceededTextLimit);
    }
    for charIndex := 0 to |phrase|
      invariant forall j :: 0 <= j < charIndex ==> AllowedChar(phrase[j])
    {
      var curChar := phrase[charIndex];
      if !IsLetterOrDigit(curChar) {
        if curChar != '_' && curChar != '-' {
          return false, Some(WarningInvalidText(curChar));
        }
      }
    }
    return true, None;
  }

  /** A valid text holds no path separator, no '.', no line break and no bullet. */
  lemma ValidTextIsPlain(phrase: string)
    requires ValidText(phrase)
    ensures '.' !in phrase && '/' !in phrase && '\n' !in phrase && '•' !in phrase
  {
    forall c | c in phrase ensures AllowedChar(c) {
      var i :| 0 <= i < |phrase| && phrase[i] == c;
    }
  }

  /** The worked cases: a space is reported at index 3, and a mixed text passes. */
  lemma ValidationExamples()
    ensures FirstIllegal("abc def") == Some(3)
    ensures ValidText("abc_123-XYZ")
    ensures ValidText("_fix")
    ensures !ValidText("")
  {
    var p := "abc def";
    assert AllowedChar(p[0]) && AllowedChar(p[1]) && AllowedChar(p[2]) && !AllowedChar(p[3]);
  }

  /** A 51-character text of letters is rejected for its length alone. */
  lemma TooLongExample(phrase: string)
    requires |phrase| == MAX_ADD_TEXT_LENGTH + 1
    requires forall i :: 0 <= i < |phrase| ==> phrase[i] == 'a'
    ensures !ValidText(phrase)
    ensures ValidText(phrase[1..])
  {
  }
}
