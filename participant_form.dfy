/**
 * The add-participant form: its own validation rule and the state changes of
 * its submit handler.
 */
module ParticipantForm {
  import opened Wrappers
  import opened JsString
  import PhoneValidation

  const NameRequired := "Name ist erforderlich"
  const PhoneRequired := "Telefonnummer ist erforderlich"
  const PhoneInvalid := "Ung\U{FC}ltige Telefonnummer"
  /** The message shown when `onAdd` rejects with something that is not an `Error`. */
  const AddFailed := "Fehler beim Hinzuf\U{FC}gen"

  /** `[0-9\s()-]` */
  predicate InPhoneClass(c: char) {
    IsDigit(c) || IsWhiteSpace(c) || c == '(' || c == ')' || c == '-'
  }

  predicate AllInPhoneClass(s: string) {
    forall i :: 0 <= i < |s| ==> InPhoneClass(s[i])
  }

  /** `/^[+]?[0-9\s()-]{8,}$/`, read as a regular expression: some choice of
      the optional '+' (taking the first character or nothing) leaves at least
      eight characters of the class to the end of the input. */
  predicate MatchesPhonePattern(s: string) {
    exists k :: 0 <= k <= 1 && k <= |s| && (k == 1 ==> s[0] == '+')
      && |s| - k >= 8 && AllInPhoneClass(s[k..])
  }

  /** The same pattern decided directly: a leading '+' is skipped, and the
      rest must be eight or more characters of the class. */
  predicate PhonePatternOk(s: string) {
    var rest := if StartsWith(s, "+") then s[1..] else s;
    |rest| >= 8 && AllInPhoneClass(rest)
  }

  /** '+' is not in the class, so the optional '+' never needs backtracking. */
  lemma {:induction false} PhonePatternDecided(s: string)
    ensures PhonePatternOk(s) <==> MatchesPhonePattern(s)
  {
    if StartsWith(s, "+") {
      assert !InPhoneClass(s[0..][0]);
      assert MatchesPhonePattern(s) <==> |s| - 1 >= 8 && AllInPhoneClass(s[1..]);
    } else {
      assert s[0..] == s;
      assert MatchesPhonePattern(s) <==> |s| >= 8 && AllInPhoneClass(s[0..]);
    }
  }

  /** The checks of `handleSubmit`, in order; on success the values `onAdd`
      receives. */
  function Validate(name: string, phoneNumber: string): Result<(string, string), string> {
    if Trim(name) == [] then Failure(NameRequired)
    else if Trim(phoneNumber) == [] then Failure(PhoneRequired)
    else if !PhonePatternOk(phoneNumber) then Failure(PhoneInvalid)
    else Success((Trim(name), Trim(phoneNumber)))
  }

  /** Only the first failing check is reported, and `onAdd` gets the trimmed
      values exactly when every check passes. */
  lemma {:induction false} ValidationOrder(name: string, phoneNumber: string)
    ensures var v := Validate(name, phoneNumber);
      && (v == Failure(NameRequired) <==> forall i :: 0 <= i < |name| ==> IsWhiteSpace(name[i]))
      && (v == Failure(PhoneRequired) <==>
            (exists i :: 0 <= i < |name| && !IsWhiteSpace(name[i]))
            && forall i :: 0 <= i < |phoneNumber| ==> IsWhiteSpace(phoneNumber[i]))
      && (v == Failure(PhoneInvalid) <==>
            Trim(name) != [] && Trim(phoneNumber) != [] && !MatchesPhonePattern(phoneNumber))
      && (v.Success? <==> Trim(name) != [] && Trim(phoneNumber) != [] && MatchesPhonePattern(phoneNumber))
      && (v.Success? ==> v.value == (Trim(name), Trim(phoneNumber)))
  {
    TrimIsEmpty(name);
    TrimIsEmpty(phoneNumber);
    PhonePatternDecided(phoneNumber);
  }

  /** The form's rule accepts only numbers `isValidPhoneNumber` reads as well
      formed; with 7 to 15 digits they are valid there too. */
  lemma {:induction false} FormRuleImpliesWellFormed(s: string)
    requires PhonePatternOk(s)
    ensures PhoneValidation.WellFormedNumber(s)
    ensures 7 <= PhoneValidation.DigitCount(s) <= 15 ==> PhoneValidation.IsValidPhoneNumber(s)
  {
    var r := PhoneValidation.SkipSeparators(s);
    SkipSeparatorsIsSuffix(s);
    if StartsWith(s, "+") {
      assert r == s;
    } else {
      assert forall i :: 0 <= i < |r| ==> r[i] == s[|s| - |r| + i];
    }
    PhoneValidation.ValidPhoneNumberShape(s);
  }

  lemma {:induction false} SkipSeparatorsIsSuffix(s: string)
    ensures var r := PhoneValidation.SkipSeparators(s); r == s[|s| - |r|..]
  {
    if s != [] && PhoneValidation.IsSeparator(s[0]) {
      SkipSeparatorsIsSuffix(s[1..]);
    }
  }

  /** A value of eight or more brackets passes the form's rule, though it
      holds no digit and `isValidPhoneNumber` rejects it. */
  predicate AllBrackets(s: string) {
    forall i :: 0 <= i < |s| ==> s[i] == '(' || s[i] == ')'
  }

  lemma {:induction false} FormRuleAcceptsNoDigits(name: string, s: string)
    requires Trim(name) != []
    requires |s| >= 8 && AllBrackets(s)
    ensures Validate(name, s) == Success((Trim(name), s))
    ensures !PhoneValidation.IsValidPhoneNumber(s)
  {
    BracketsPassForm(s);
    BracketsCleanToNothing(s);
  }

  lemma {:induction false} BracketsPassForm(s: string)
    requires |s| >= 8 && AllBrackets(s)
    ensures Trim(s) == s && PhonePatternOk(s)
  {
    assert !IsWhiteSpace(s[0]) && !IsWhiteSpace(s[|s| - 1]);
    TrimKeepsPrefix(s, |s|);
    assert s[0] != '+';
    assert AllInPhoneClass(s);
  }

  lemma {:induction false} BracketsCleanToNothing(s: string)
    requires AllBrackets(s)
    ensures PhoneValidation.Clean(s) == []
    ensures !PhoneValidation.IsValidPhoneNumber(s)
  {
    if s != [] {
      BracketsCleanToNothing(s[1..]);
    }
  }

  /** What `onAdd` does: resolves, rejects with an `Error` carrying a
      message, or rejects with a value that is not an `Error`. */
  datatype AddOutcome = Added | Rejected(message: string) | RejectedWithoutError

  /** The message `handleSubmit` shows, or "" when it succeeds. */
  function SubmitError(v: Result<(string, string), string>, outcome: AddOutcome): string {
    match v
    case Failure(e) => e
    case Success(_) =>
      match outcome
      case Added => ""
      case Rejected(m) => m
      case RejectedWithoutError => AddFailed
  }

  /** The state of the form component. */
  class Form {
    var name: string
    var phoneNumber: string
    var loading: bool
    var error: string

    constructor ()
      ensures name == "" && phoneNumber == "" && !loading && error == ""
    {
      name := "";
      phoneNumber := "";
      loading := false;
      error := "";
    }

    /** `handleSubmit`. `onAdd` is the outcome of the callback; `call` is the
        pair the callback received, if it was called. */
    method HandleSubmit(onAdd: AddOutcome) returns (call: Option<(string, string)>)
      modifies this
      ensures var v := Validate(old(name), old(phoneNumber));
        && call == (if v.Success? then Some(v.value) else None)
        && !loading
        && error == SubmitError(v, onAdd)
        && (if v.Success? && onAdd == Added
            then name == "" && phoneNumber == ""
            else name == old(name) && phoneNumber == old(phoneNumber))
    {
      // The handler sees the state values of the render it was created in.
      var n, p := name, phoneNumber;
      loading := true;
      error := "";
      call := None;
      if Trim(n) == [] {
        error := NameRequired;
      } else if Trim(p) == [] {
        error := PhoneRequired;
      } else if !PhonePatternOk(p) {
        error := PhoneInvalid;
      } else {
        call := Some((Trim(n), Trim(p)));
        match onAdd {
          case Added =>
            name := "";
            phoneNumber := "";
          case Rejected(m) =>
            error := m;
          case RejectedWithoutError =>
            error := AddFailed;
        }
      }
      loading := false;
    }
  }
}
