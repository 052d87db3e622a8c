/**
 * The phone-number input: a prefix chosen from a fixed carrier list, and a
 * local-number field validated on every change against "exactly seven
 * decimal digits".
 */
module PhoneNumber {

  /** The prefixes offered, in the order the selector lists them. */
  const PrefixOptions: seq<string> := ["052", "054", "050", "053", "055"]

  const LengthError := "Phone number should contain exactly 7 digits."

  /** What `\d` matches in a regular expression: an ASCII decimal digit. */
  predicate IsDigit(c: char)
  {
    '0' <= c <= '9'
  }

  /** A well-formed local number: exactly seven characters, each a decimal digit. */
  predicate IsLocalNumber(s: string)
  {
    |s| == 7 && forall i :: 0 <= i < |s| ==> IsDigit(s[i])
  }

  /**
   * The anchored pattern `^\d{n}$` read left to right: `n` digits, and then
   * the end of the input (`$` without the `m` flag matches only there).
   */
  function MatchesDigits(s: string, n: nat): bool
  {
    if n == 0 then s == [] else |s| > 0 && IsDigit(s[0]) && MatchesDigits(s[1..], n - 1)
  }

  /** `^\d{n}$` accepts exactly the strings of `n` digits. */
  lemma {:induction false} MatchesDigitsIff(s: string, n: nat)
    ensures MatchesDigits(s, n) <==> |s| == n && forall i :: 0 <= i < |s| ==> IsDigit(s[i])
  {
    if n > 0 && |s| > 0 {
      MatchesDigitsIff(s[1..], n - 1);
      assert forall i :: 1 <= i < |s| ==> s[i] == s[1..][i - 1];
    }
  }

  /** `/^\d{7}$/.test(s)` is the local-number predicate. */
  lemma PatternIsLocalNumber(s: string)
    ensures MatchesDigits(s, 7) <==> IsLocalNumber(s)
  {
    MatchesDigitsIff(s, 7);
  }

  /**
   * The message shown under the field for a value: empty when the pattern
   * accepts it, the fixed length message otherwise.
   */
  function ErrorFor(value: string): (message: string)
    ensures message == "" <==> IsLocalNumber(value)
    ensures message != "" ==> message == LengthError
  {
    PatternIsLocalNumber(value);
    if !MatchesDigits(value, 7) then LengthError else ""
  }

  /** Every prefix offered is three digits starting "05", and none is offered twice. */
  lemma PrefixOptionsWellFormed()
    ensures |PrefixOptions| == 5
    ensures forall k :: 0 <= k < |PrefixOptions| ==>
      |PrefixOptions[k]| == 3 && PrefixOptions[k][..2] == "05" &&
      forall i :: 0 <= i < 3 ==> IsDigit(PrefixOptions[k][i])
    ensures forall k, m :: 0 <= k < m < |PrefixOptions| ==> PrefixOptions[k] != PrefixOptions[m]
  {
  }

  /** One thing the component does: a call into a caller's handler, or a state update. */
  datatype Step =
    | ForwardInput(value: string)   // onInputValueChange(event)
    | ForwardPrefix(value: string)  // onSelectedValueChange(value)
    | SetPhone(value: string)
    | SetPhoneNumberError(message: string)

  class PhoneNumberEl {
    var phone: string
    var phoneNumberError: string
    /** Everything the component has done since it was mounted, in order. */
    var steps: seq<Step>

    /** On mount the field shows the placeholder and no error. */
    constructor (phoneInputPlaceholder: string)
      ensures phone == phoneInputPlaceholder && phoneNumberError == "" && steps == []
    {
      phone := phoneInputPlaceholder;
      phoneNumberError := "";
      steps := [];
    }

    /**
     * A change to the local-number field: the caller's handler is called
     * first with the new value, whether it is valid or not; then the field
     * holds the value, and the error is set from it.
     */
    method HandleInputValueChange(value: string)
      modifies this
      ensures phone == value
      ensures phoneNumberError == (if IsLocalNumber(value) then "" else LengthError)
      ensures steps == old(steps) + [ForwardInput(value), SetPhone(value), SetPhoneNumberError(phoneNumberError)]
    {
      steps := steps + [ForwardInput(value)];
      phone := value;
      steps := steps + [SetPhone(value)];
      phoneNumberError := ErrorFor(value);
      steps := steps + [SetPhoneNumberError(phoneNumberError)];
    }

    /**
     * A prefix chosen in the selector is passed on to the caller unchanged
     * and unchecked; the field and its error are not touched.
     */
    method HandlePrefixSelected(value: string)
      modifies this`steps
      ensures steps == old(steps) + [ForwardPrefix(value)]
    {
      steps := steps + [ForwardPrefix(value)];
    }
  }
}
