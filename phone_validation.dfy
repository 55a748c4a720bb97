/**
 * Phone number validation, normalisation to the digits WhatsApp expects,
 * display formatting and country-code detection.
 */
module PhoneValidation {
  import opened Wrappers
  import opened JsString

  /** `[\s()\-]`: the characters the validator and the normaliser ignore. */
  predicate IsSeparator(c: char) {
    IsWhiteSpace(c) || c == '(' || c == ')' || c == '-'
  }

  /** `s.replace(/[\s()\-]/g, '')` */
  function Clean(s: string): string
  {
    if s == [] then []
    else if IsSeparator(s[0]) then Clean(s[1..])
    else [s[0]] + Clean(s[1..])
  }

  lemma {:induction false} CleanAppend(a: string, b: string)
    ensures Clean(a + b) == Clean(a) + Clean(b)
  {
    if a == [] {
      assert a + b == b;
    } else {
      assert (a + b)[0] == a[0];
      assert (a + b)[1..] == a[1..] + b;
      CleanAppend(a[1..], b);
    }
  }

  /** Cleaning only removes characters: every kept one comes from the input. */
  lemma {:induction false} CleanIsSubsequence(s: string)
    ensures forall i :: 0 <= i < |Clean(s)| ==> Clean(s)[i] in s
  {
    if s != [] {
      CleanIsSubsequence(s[1..]);
      var c := Clean(s);
      var t := Clean(s[1..]);
      forall i | 0 <= i < |c|
        ensures c[i] in s
      {
        if IsSeparator(s[0]) {
          assert c[i] == t[i] && t[i] in s[1..];
        } else if i > 0 {
          assert c[i] == t[i - 1] && t[i - 1] in s[1..];
        } else {
          assert c[0] == s[0];
        }
      }
    }
  }

  /** No separator is left after cleaning. */
  lemma {:induction false} CleanRemovesSeparators(s: string)
    ensures forall i :: 0 <= i < |Clean(s)| ==> !IsSeparator(Clean(s)[i])
  {
    if s != [] {
      CleanRemovesSeparators(s[1..]);
    }
  }

  /** Cleaning keeps a string without separators as it is; in particular
      cleaning twice is cleaning once. */
  lemma {:induction false} CleanKeepsClean(s: string)
    requires forall i :: 0 <= i < |s| ==> !IsSeparator(s[i])
    ensures Clean(s) == s
  {
    if s != [] {
      CleanKeepsClean(s[1..]);
    }
  }

  lemma {:induction false} CleanKeepsDigits(d: string)
    requires AllDigits(d)
    ensures Clean(d) == d
  {
    if d != [] {
      CleanKeepsDigits(d[1..]);
    }
  }

  lemma {:induction false} CleanDropsSpace(a: string, b: string)
    ensures Clean(a + " " + b) == Clean(a) + Clean(b)
  {
    CleanAppend(a + " ", b);
    CleanAppend(a, " ");
    assert Clean(" ") == Clean("");
  }

  lemma {:induction false} CleanDigitGroup(a: string, b: string)
    requires AllDigits(a)
    ensures Clean(a + " " + b) == a + Clean(b)
  {
    CleanDropsSpace(a, b);
    CleanKeepsDigits(a);
  }

  // ---------------------------------------------------------------------------
  // isValidPhoneNumber

  /** `/^\+?\d+$/` */
  predicate IsPlusDigits(s: string) {
    if s != [] && s[0] == '+' then |s| > 1 && AllDigits(s[1..]) else s != [] && AllDigits(s)
  }

  /** `s.replace(/^\+/, '')` */
  function DropPlus(s: string): string {
    if StartsWith(s, "+") then s[1..] else s
  }

  /** `isValidPhoneNumber`: after the separators are removed, an optional '+'
      and then 7 to 15 digits (the E.164 length range). */
  predicate IsValidPhoneNumber(phoneNumber: string) {
    var cleaned := Clean(phoneNumber);
    IsPlusDigits(cleaned) && 7 <= |DropPlus(cleaned)| <= 15
  }

  /** `s` without its leading separators. */
  function SkipSeparators(s: string): (r: string)
    ensures |r| <= |s|
    ensures r != [] ==> !IsSeparator(r[0])
  {
    if s != [] && IsSeparator(s[0]) then SkipSeparators(s[1..]) else s
  }

  predicate DigitsAndSeparators(s: string) {
    forall i :: 0 <= i < |s| ==> IsDigit(s[i]) || IsSeparator(s[i])
  }

  function DigitCount(s: string): nat {
    if s == [] then 0 else (if IsDigit(s[0]) then 1 else 0) + DigitCount(s[1..])
  }

  /** The accepted shape stated on the raw input: after any leading separators,
      an optional '+', and from there on only digits and separators. */
  predicate WellFormedNumber(s: string) {
    var r := SkipSeparators(s);
    DigitsAndSeparators(r) || (r != [] && r[0] == '+' && DigitsAndSeparators(r[1..]))
  }

  lemma {:induction false} SkipSeparatorsKeeps(s: string)
    ensures Clean(SkipSeparators(s)) == Clean(s)
    ensures DigitCount(SkipSeparators(s)) == DigitCount(s)
  {
    if s != [] && IsSeparator(s[0]) {
      SkipSeparatorsKeeps(s[1..]);
    }
  }

  lemma {:induction false} CleanOfDigitsAndSeparators(t: string)
    ensures DigitsAndSeparators(t) <==> AllDigits(Clean(t))
    ensures DigitsAndSeparators(t) ==> |Clean(t)| == DigitCount(t)
  {
    if t != [] {
      CleanOfDigitsAndSeparators(t[1..]);
      DigitsAndSeparatorsCons(t);
      if !IsSeparator(t[0]) {
        AllDigitsCons(t[0], Clean(t[1..]));
      }
    }
  }

  lemma {:induction false} DigitsAndSeparatorsCons(t: string)
    requires t != []
    ensures DigitsAndSeparators(t) <==> (IsDigit(t[0]) || IsSeparator(t[0])) && DigitsAndSeparators(t[1..])
  {
    if (IsDigit(t[0]) || IsSeparator(t[0])) && DigitsAndSeparators(t[1..]) {
      forall i | 0 <= i < |t| ensures IsDigit(t[i]) || IsSeparator(t[i]) {
        if i > 0 { assert t[i] == t[1..][i - 1]; }
      }
    }
  }

  lemma {:induction false} AllDigitsCons(x: char, c: string)
    ensures AllDigits([x] + c) <==> IsDigit(x) && AllDigits(c)
  {
    if IsDigit(x) && AllDigits(c) {
      forall i | 0 <= i < |c| + 1 ensures IsDigit(([x] + c)[i]) {
        if i > 0 { assert ([x] + c)[i] == c[i - 1]; }
      }
    }
    if AllDigits([x] + c) {
      assert IsDigit(([x] + c)[0]);
      forall i | 0 <= i < |c| ensures IsDigit(c[i]) {
        assert ([x] + c)[i + 1] == c[i];
      }
    }
  }

  /** The validator accepts exactly the well-formed numbers with 7 to 15 digits. */
  lemma {:induction false} ValidPhoneNumberShape(s: string)
    ensures IsValidPhoneNumber(s) <==> WellFormedNumber(s) && 7 <= DigitCount(s) <= 15
  {
    var r := SkipSeparators(s);
    SkipSeparatorsKeeps(s);
    if r != [] {
      CleanOfDigitsAndSeparators(r);
      CleanOfDigitsAndSeparators(r[1..]);
      assert Clean(r) == [r[0]] + Clean(r[1..]);
      if r[0] == '+' {
        assert !DigitsAndSeparators(r) by { assert !IsDigit(r[0]) && !IsSeparator(r[0]); }
        assert DropPlus(Clean(r)) == Clean(r[1..]);
      } else {
        assert Clean(r)[0] == r[0];
        assert DropPlus(Clean(r)) == Clean(r);
      }
    }
  }

  // ---------------------------------------------------------------------------
  // normalizePhoneNumber

  /** Numbers written without an international prefix are Swiss. */
  const DefaultCountryCode := "41"

  /** `normalizePhoneNumber`: the digits WhatsApp takes, without '+' or "00";
      a national number (leading 0), and any other number of at most 10
      UTF-16 code units, gets the default country code. */
  function NormalizePhoneNumber(phoneNumber: string, defaultCountryCode: string): string {
    var cleaned := Clean(phoneNumber);
    var prefixed := if StartsWith(cleaned, "00") then "+" + cleaned[2..] else cleaned;
    if StartsWith(prefixed, "+") then prefixed[1..]
    else if StartsWith(prefixed, "0") then defaultCountryCode + prefixed[1..]
    else if Utf16Length(prefixed) <= 10 then defaultCountryCode + prefixed
    else prefixed
  }

  /** A valid number normalises to digits only, at least five of them (a
      leading "00" counts among the 7 to 15). */
  lemma {:induction false} NormalizeValid(s: string, cc: string)
    requires IsValidPhoneNumber(s) && AllDigits(cc)
    ensures var r := NormalizePhoneNumber(s, cc);
      AllDigits(r) && 5 <= |r| <= |cc| + 15
  {
    var cleaned := Clean(s);
    if StartsWith(cleaned, "00") {
      assert ("+" + cleaned[2..])[1..] == cleaned[2..];
    }
  }

  /** The "at most 10" rule counts UTF-16 code units: six characters outside
      the Basic Multilingual Plane are twelve units, so no code is added. */
  lemma {:induction false} AstralCharactersCountTwice(s: string, e: char)
    requires e == '\U{1F600}' && s == [e, e, e, e, e, e]
    ensures NormalizePhoneNumber(s, DefaultCountryCode) == s
  {
    assert !IsSeparator(e);
    CleanKeepsClean(s);
    assert forall i :: 0 <= i < |s| ==> s[i] == e;
    Utf16LengthOfAstral(s);
  }

  /** With BMP characters only, the rule is the plain length. */
  lemma {:induction false} BmpLengthRule(s: string, cc: string)
    requires forall i :: 0 <= i < |s| ==> s[i] as int < 0x10000
    requires var c := Clean(s); !StartsWith(c, "+") && !StartsWith(c, "0")
    ensures NormalizePhoneNumber(s, cc) == if |Clean(s)| <= 10 then cc + Clean(s) else Clean(s)
  {
    CleanIsSubsequence(s);
    Utf16LengthOfBmp(Clean(s));
  }

  /** "00" and "+" are the same international prefix. */
  lemma {:induction false} InternationalPrefixesAgree(s: string, cc: string)
    ensures NormalizePhoneNumber("00" + s, cc) == NormalizePhoneNumber("+" + s, cc)
  {
    CleanAppend("00", s);
    CleanAppend("+", s);
    assert ("00" + Clean(s))[2..] == Clean(s);
    assert ("+" + Clean(s))[1..] == Clean(s);
  }

  /** A national number means the same as the number written with the default
      country code. */
  lemma {:induction false} NationalUsesDefaultCode(x: string, cc: string, other: string)
    requires AllDigits(cc) && !StartsWith(Clean(x), "0")
    ensures NormalizePhoneNumber("0" + x, cc) == NormalizePhoneNumber("+" + cc + x, other)
  {
    NationalNormalizes(x, cc);
    InternationalNormalizes(cc, x, other);
  }

  lemma {:induction false} NationalNormalizes(x: string, cc: string)
    requires !StartsWith(Clean(x), "0")
    ensures NormalizePhoneNumber("0" + x, cc) == cc + Clean(x)
  {
    var cx := Clean(x);
    var national := "0" + cx;
    CleanAppend("0", x);
    assert Clean("0" + x) == national;
    assert !StartsWith(national, "00") by {
      if |national| >= 2 { assert national[1] == cx[0]; }
    }
    assert national[1..] == cx;
  }

  lemma {:induction false} InternationalNormalizes(cc: string, x: string, other: string)
    requires AllDigits(cc)
    ensures NormalizePhoneNumber("+" + cc + x, other) == cc + Clean(x)
  {
    var international := "+" + (cc + Clean(x));
    assert Clean("+" + cc + x) == international by {
      CleanAppend("+" + cc, x);
      CleanAppend("+", cc);
      CleanKeepsClean(cc);
    }
    assert international[1..] == cc + Clean(x);
  }

  // ---------------------------------------------------------------------------
  // formatPhoneNumber

  /** The length of the run of digits `s` starts with. */
  function DigitRun(s: string): (n: nat)
    ensures n <= |s|
  {
    if s != [] && IsDigit(s[0]) then DigitRun(s[1..]) + 1 else 0
  }

  lemma {:induction false} DigitRunIsMaximal(s: string)
    ensures var n := DigitRun(s); AllDigits(s[..n]) && (n < |s| ==> !IsDigit(s[n]))
  {
    if s != [] && IsDigit(s[0]) {
      DigitRunIsMaximal(s[1..]);
      var n := DigitRun(s[1..]);
      assert s[..n + 1] == [s[0]] + s[1..][..n];
    }
  }

  lemma {:induction false} DigitRunOf(d: string, rest: string)
    requires AllDigits(d) && (rest == [] || !IsDigit(rest[0]))
    ensures DigitRun(d + rest) == |d|
  {
    if d == [] {
      assert d + rest == rest;
    } else {
      assert (d + rest)[1..] == d[1..] + rest;
      DigitRunOf(d[1..], rest);
    }
  }

  /** `s.replace(/(\d{3})(?=\d)/g, '$1 ')`: scanning left to right, a space
      after every three digits that another digit follows. */
  function GroupDigits(s: string): string {
    if |s| >= 4 && AllDigits(s[..4]) then s[..3] + " " + GroupDigits(s[3..])
    else if s == [] then []
    else [s[0]] + GroupDigits(s[1..])
  }

  /** `s.replace(/(\+\d{1,3})(\d{3})(\d{3})(\d+)/, '$1 $2 $3 $4')`: at the first
      '+' followed by at least eight digits, the digits are split into a code
      of up to three (as many as leave seven for the rest: the first group is
      greedy), two groups of three and the remainder. */
  function SplitInternational(s: string): string {
    if s == [] then []
    else if s[0] == '+' && DigitRun(s[1..]) >= 8 then
      var d := DigitRun(s[1..]);
      "+" + SplitDigits(s[1..d + 1]) + s[d + 1..]
    else [s[0]] + SplitInternational(s[1..])
  }

  /** `'$1 $2 $3 $4'` on a run of at least eight digits. */
  function SplitDigits(digits: string): string
    requires |digits| >= 8
  {
    var g := if |digits| >= 10 then 3 else |digits| - 7;
    digits[..g] + " " + digits[g..g + 3] + " " + digits[g + 3..g + 6] + " " + digits[g + 6..]
  }

  /** `formatPhoneNumber` */
  function FormatPhoneNumber(phoneNumber: string): string {
    var cleaned := Clean(phoneNumber);
    if StartsWith(cleaned, "+") then SplitInternational(cleaned) else GroupDigits(cleaned)
  }

  /** `s` without its ' ' characters. */
  function RemoveSpaces(s: string): string {
    if s == [] then [] else (if s[0] == ' ' then [] else [s[0]]) + RemoveSpaces(s[1..])
  }

  lemma {:induction false} RemoveSpacesAppend(a: string, b: string)
    ensures RemoveSpaces(a + b) == RemoveSpaces(a) + RemoveSpaces(b)
  {
    if a == [] {
      assert a + b == b;
    } else {
      assert (a + b)[0] == a[0];
      assert (a + b)[1..] == a[1..] + b;
      RemoveSpacesAppend(a[1..], b);
    }
  }

  lemma {:induction false} RemoveSpacesKeeps(s: string)
    requires forall i :: 0 <= i < |s| ==> s[i] != ' '
    ensures RemoveSpaces(s) == s
  {
    if s != [] {
      RemoveSpacesKeeps(s[1..]);
    }
  }

  /** Removing the spaces first does not change what cleaning gives. */
  lemma {:induction false} CleanAfterRemoveSpaces(s: string)
    ensures Clean(RemoveSpaces(s)) == Clean(s)
  {
    if s != [] {
      CleanAfterRemoveSpaces(s[1..]);
      CleanAppend(if s[0] == ' ' then [] else [s[0]], RemoveSpaces(s[1..]));
    }
  }

  lemma {:induction false} RemoveSpacesDropsSpace(a: string, b: string)
    ensures RemoveSpaces(a + " " + b) == RemoveSpaces(a) + RemoveSpaces(b)
  {
    RemoveSpacesAppend(a + " ", b);
    RemoveSpacesAppend(a, " ");
    assert RemoveSpaces(" ") == RemoveSpaces("");
  }

  lemma {:induction false} RemoveSpacesOfGroups(a: string, b: string, c: string, e: string)
    ensures RemoveSpaces(a + " " + b + " " + c + " " + e) == RemoveSpaces(a + b + c + e)
  {
    RemoveSpacesDropsSpace(a + " " + b + " " + c, e);
    RemoveSpacesDropsSpace(a + " " + b, c);
    RemoveSpacesDropsSpace(a, b);
    RemoveSpacesAppend(a + b + c, e);
    RemoveSpacesAppend(a + b, c);
    RemoveSpacesAppend(a, b);
  }

  lemma {:induction false} GroupDigitsOnlyAddsSpaces(s: string)
    ensures RemoveSpaces(GroupDigits(s)) == RemoveSpaces(s)
  {
    if |s| >= 4 && AllDigits(s[..4]) {
      GroupDigitsOnlyAddsSpaces(s[3..]);
      RemoveSpacesDropsSpace(s[..3], GroupDigits(s[3..]));
      RemoveSpacesAppend(s[..3], s[3..]);
      assert s[..3] + s[3..] == s;
    } else if s != [] {
      GroupDigitsOnlyAddsSpaces(s[1..]);
      RemoveSpacesAppend([s[0]], GroupDigits(s[1..]));
      RemoveSpacesAppend([s[0]], s[1..]);
      assert [s[0]] + s[1..] == s;
    }
  }

  lemma {:induction false} SplitDigitsOnlyAddsSpaces(digits: string)
    requires |digits| >= 8
    ensures RemoveSpaces(SplitDigits(digits)) == RemoveSpaces(digits)
  {
    var g := if |digits| >= 10 then 3 else |digits| - 7;
    var a, b, c, e := digits[..g], digits[g..g + 3], digits[g + 3..g + 6], digits[g + 6..];
    RemoveSpacesOfGroups(a, b, c, e);
    assert digits[..g + 3] == a + b;
    assert digits[..g + 6] == a + b + c;
    assert digits == digits[..g + 6] + e;
  }

  lemma {:induction false} SplitInternationalOnlyAddsSpaces(s: string)
    ensures RemoveSpaces(SplitInternational(s)) == RemoveSpaces(s)
  {
    if s == [] {
    } else if s[0] == '+' && DigitRun(s[1..]) >= 8 {
      var d := DigitRun(s[1..]);
      var digits := s[1..d + 1];
      SplitDigitsOnlyAddsSpaces(digits);
      RemoveSpacesAppend("+" + SplitDigits(digits), s[d + 1..]);
      RemoveSpacesAppend("+", SplitDigits(digits));
      RemoveSpacesAppend("+" + digits, s[d + 1..]);
      RemoveSpacesAppend("+", digits);
      assert "+" + digits + s[d + 1..] == s;
    } else {
      SplitInternationalOnlyAddsSpaces(s[1..]);
      RemoveSpacesAppend([s[0]], SplitInternational(s[1..]));
      RemoveSpacesAppend([s[0]], s[1..]);
      assert [s[0]] + s[1..] == s;
    }
  }

  /** With ten or more digits after the '+', the first group is greedy and
      takes three of them, whatever the length of the country code. */
  lemma {:induction false} FormatInternationalGroups(digits: string)
    requires AllDigits(digits) && |digits| >= 10
    ensures FormatPhoneNumber("+" + digits)
         == "+" + (digits[..3] + " " + digits[3..6] + " " + digits[6..9] + " " + digits[9..])
  {
    var s := "+" + digits;
    CleanAppend("+", digits);
    CleanKeepsDigits(digits);
    assert Clean(s) == s;
    SplitWholeRun(digits);
  }

  lemma {:induction false} SplitWholeRun(digits: string)
    requires AllDigits(digits) && |digits| >= 8
    ensures SplitInternational("+" + digits) == "+" + SplitDigits(digits)
  {
    var s := "+" + digits;
    assert s[1..] == digits + [];
    DigitRunOf(digits, []);
    var d := DigitRun(s[1..]);
    assert s[1..d + 1] == digits && s[d + 1..] == [];
  }

  /** Formatting inserts spaces only: deleting them gives back the cleaned
      input, so the formatted number validates and normalises as the
      original does. */
  lemma {:induction false} FormattingIsTransparent(s: string, cc: string)
    ensures RemoveSpaces(FormatPhoneNumber(s)) == Clean(s)
    ensures Clean(FormatPhoneNumber(s)) == Clean(s)
    ensures IsValidPhoneNumber(FormatPhoneNumber(s)) == IsValidPhoneNumber(s)
    ensures NormalizePhoneNumber(FormatPhoneNumber(s), cc) == NormalizePhoneNumber(s, cc)
  {
    var cleaned := Clean(s);
    CleanRemovesSeparators(s);
    CleanKeepsClean(cleaned);
    assert forall i :: 0 <= i < |cleaned| ==> cleaned[i] != ' ' by {
      assert IsSeparator(' ');
    }
    RemoveSpacesKeeps(cleaned);
    if StartsWith(cleaned, "+") {
      SplitInternationalOnlyAddsSpaces(cleaned);
    } else {
      GroupDigitsOnlyAddsSpaces(cleaned);
    }
    CleanAfterRemoveSpaces(FormatPhoneNumber(s));
  }

  /** A separator anywhere in the input changes neither the verdict nor the
      normalised number. */
  lemma {:induction false} SeparatorsAreIgnored(a: string, c: char, b: string, cc: string)
    requires IsSeparator(c)
    ensures Clean(a + [c] + b) == Clean(a + b)
    ensures IsValidPhoneNumber(a + [c] + b) == IsValidPhoneNumber(a + b)
    ensures NormalizePhoneNumber(a + [c] + b, cc) == NormalizePhoneNumber(a + b, cc)
  {
    CleanAppend(a + [c], b);
    CleanAppend(a, [c]);
    CleanAppend(a, b);
    assert Clean([c]) == [];
  }

  // ---------------------------------------------------------------------------
  // detectCountryCode

  /** After the prefix: `/^(\d{1,3})(?:\s|$)/` and, failing that, `/^(\d{2})/`.
      The first matches only when the whole leading digit run, 1 to 3 digits
      long, ends at white space or at the end. */
  function CountryCodeAfterPrefix(r: string): Option<string> {
    var d := DigitRun(r);
    if 1 <= d <= 3 && (d == |r| || IsWhiteSpace(r[d])) then Some(r[..d])
    else if d >= 2 then Some(r[..2])
    else None
  }

  /** `detectCountryCode` */
  function DetectCountryCode(phoneNumber: string): Option<string> {
    var t := Trim(phoneNumber);
    if StartsWith(t, "+") then CountryCodeAfterPrefix(t[1..])
    else if StartsWith(t, "00") then CountryCodeAfterPrefix(t[2..])
    else None
  }

  /** What the two regular expressions can return: one to three digits the
      remainder starts with. */
  lemma {:induction false} CountryCodeShape(r: string)
    ensures var c := CountryCodeAfterPrefix(r);
      c.Some? ==> 1 <= |c.value| <= 3 && AllDigits(c.value) && c.value <= r
  {
    DigitRunIsMaximal(r);
    var d := DigitRun(r);
    if d >= 2 {
      assert r[..2] == r[..d][..2];
    }
  }

  /** Once the trimmed number starts with one of the prefixes, detection reads
      what follows it. */
  lemma {:induction false} DetectAfterPrefix(s: string, prefix: string)
    requires prefix == "+" || prefix == "00"
    requires prefix <= Trim(s)
    ensures DetectCountryCode(s) == CountryCodeAfterPrefix(Trim(s)[|prefix|..])
  {
    var t := Trim(s);
    if prefix == "00" {
      assert t[0] == '0';
      assert !StartsWith(t, "+");
    } else {
      assert StartsWith(t, "+");
    }
  }

  /** A detected code is one to three digits that follow the '+' or "00"
      the trimmed number starts with; without such a prefix nothing is detected. */
  lemma {:induction false} DetectedCodeShape(s: string)
    ensures var c := DetectCountryCode(s);
      && (c.Some? ==>
            && 1 <= |c.value| <= 3 && AllDigits(c.value)
            && (StartsWith(Trim(s), "+" + c.value) || StartsWith(Trim(s), "00" + c.value)))
      && (!StartsWith(Trim(s), "+") && !StartsWith(Trim(s), "00") ==> c.None?)
  {
    var t := Trim(s);
    if StartsWith(t, "+") {
      PrefixThenCode(t, "+");
    } else if StartsWith(t, "00") {
      PrefixThenCode(t, "00");
    }
  }

  lemma {:induction false} PrefixThenCode(t: string, prefix: string)
    requires prefix <= t
    ensures var c := CountryCodeAfterPrefix(t[|prefix|..]);
      c.Some? ==> 1 <= |c.value| <= 3 && AllDigits(c.value) && prefix + c.value <= t
  {
    var r := t[|prefix|..];
    CountryCodeShape(r);
    var c := CountryCodeAfterPrefix(r);
    if c.Some? {
      assert t == prefix + r;
      assert (prefix + r)[..|prefix| + |c.value|] == prefix + r[..|c.value|];
    }
  }

  lemma {:induction false} CodeBeforeWhiteSpace(code: string, rest: string)
    requires AllDigits(code) && 1 <= |code| <= 3
    requires rest == [] || IsWhiteSpace(rest[0])
    ensures CountryCodeAfterPrefix(code + rest) == Some(code)
  {
    DigitRunOf(code, rest);
    assert (code + rest)[..|code|] == code;
  }

  /** Trimming a number that starts with its prefix and a code keeps both. */
  lemma {:induction false} TrimKeepsPrefixAndCode(s: string, prefix: string, code: string, rest: string)
    requires prefix == "+" || prefix == "00"
    requires AllDigits(code) && code != []
    requires s == prefix + code + rest
    ensures |prefix| + |code| <= |Trim(s)|
    ensures Trim(s) == prefix + (code + Trim(s)[|prefix| + |code|..])
    ensures Trim(s)[|prefix| + |code|..] <= rest
  {
    var head := prefix + code;
    var n := |head|;
    assert s[n - 1] == code[|code| - 1];
    assert s[0] == prefix[0];
    TrimKeepsPrefix(s, n);
    var t := Trim(s);
    var m := |t|;
    assert t == s[..m];
    assert s == head + rest;
    TakeOfConcat(head, rest, m);
    var tail := rest[..m - n];
    assert t == head + tail;
    assert t[n..] == tail;
    assert head + tail == prefix + (code + tail);
  }

  lemma {:induction false} TakeOfConcat(head: string, rest: string, m: nat)
    requires |head| <= m <= |head| + |rest|
    ensures (head + rest)[..m] == head + rest[..m - |head|]
  {
    var n := |head|;
    var lhs := (head + rest)[..m];
    var rhs := head + rest[..m - n];
    assert |lhs| == |rhs|;
    forall i | 0 <= i < m
      ensures lhs[i] == rhs[i]
    {
      if i < n {
        assert lhs[i] == head[i];
      } else {
        assert lhs[i] == rest[i - n];
      }
    }
  }

  /** A code of one to three digits written after the prefix and followed by
      white space (or nothing) is detected as written. */
  lemma {:induction false} DetectsWrittenCode(prefix: string, code: string, rest: string)
    requires prefix == "+" || prefix == "00"
    requires AllDigits(code) && 1 <= |code| <= 3
    ensures DetectCountryCode(prefix + code + " " + rest) == Some(code)
  {
    var s := prefix + code + " " + rest;
    assert s == prefix + code + (" " + rest);
    TrimKeepsPrefixAndCode(s, prefix, code, " " + rest);
    var t := Trim(s);
    var after := t[|prefix| + |code|..];
    assert after != [] ==> after[0] == ' ';
    CodeBeforeWhiteSpace(code, after);
    assert t[|prefix|..] == code + after;
    DetectAfterPrefix(s, prefix);
  }

  lemma {:induction false} DigitRunAtLeast(r: string, k: nat)
    requires k <= |r| && AllDigits(r[..k])
    ensures DigitRun(r) >= k
  {
    if k > 0 {
      assert IsDigit(r[..k][0]);
      assert r[1..][..k - 1] == r[..k][1..];
      DigitRunAtLeast(r[1..], k - 1);
    }
  }

  lemma {:induction false} LongRunGivesTwoDigits(four: string, rest: string)
    requires |four| == 4 && AllDigits(four)
    ensures CountryCodeAfterPrefix(four + rest) == Some(four[..2])
  {
    var r := four + rest;
    assert r[..4] == four;
    DigitRunAtLeast(r, 4);
    assert r[..2] == four[..2];
  }

  /** Without white space within the first four digits after the prefix, the
      first two digits are taken. */
  lemma {:induction false} DetectsTwoDigitsWithoutSpace(prefix: string, digits: string, rest: string)
    requires prefix == "+" || prefix == "00"
    requires AllDigits(digits) && |digits| >= 4
    ensures DetectCountryCode(prefix + digits + rest) == Some(digits[..2])
  {
    var s := prefix + digits + rest;
    var four := digits[..4];
    assert AllDigits(four);
    assert four[..2] == digits[..2];
    assert s == prefix + four + (digits[4..] + rest);
    TrimKeepsPrefixAndCode(s, prefix, four, digits[4..] + rest);
    var t := Trim(s);
    var r := t[|prefix|..];
    assert r == four + t[|prefix| + 4..];
    LongRunGivesTwoDigits(four, t[|prefix| + 4..]);
    assert prefix <= t;
    DetectAfterPrefix(s, prefix);
  }

  // ---------------------------------------------------------------------------
  // The cases the unit tests list

  lemma {:induction false} SwissNationalClean(s: string)
    requires s == "079 123 45 67"
    ensures Clean(s) == "0791234567"
  {
    var a, b, c, d := "079", "123", "45", "67";
    assert s == a + " " + b + " " + c + " " + d;
    CleanFourGroups(a, b, c, d);
    assert a + b + c + d == "0791234567";
  }

  /** Four groups of digits separated by single spaces clean to the digits. */
  lemma {:induction false} CleanFourGroups(a: string, b: string, c: string, d: string)
    requires AllDigits(a) && AllDigits(b) && AllDigits(c) && AllDigits(d)
    ensures Clean(a + " " + b + " " + c + " " + d) == a + b + c + d
  {
    CleanDropsSpace(a + " " + b + " " + c, d);
    CleanDropsSpace(a + " " + b, c);
    CleanDropsSpace(a, b);
    CleanKeepsDigits(a);
    CleanKeepsDigits(b);
    CleanKeepsDigits(c);
    CleanKeepsDigits(d);
  }

  lemma {:induction false} SwissNationalExample(s: string)
    requires s == "079 123 45 67"
    ensures IsValidPhoneNumber(s)
    ensures NormalizePhoneNumber(s, DefaultCountryCode) == "41791234567"
    ensures DetectCountryCode(s) == None
  {
    SwissNationalClean(s);
    var cleaned := "0791234567";
    assert cleaned[0] == '0' && cleaned[1] == '7';
    assert !StartsWith(cleaned, "00") && !StartsWith(cleaned, "+") && StartsWith(cleaned, "0");
    assert DefaultCountryCode + cleaned[1..] == "41791234567";
    TrimKeepsPrefix(s, 2);
  }

  lemma {:induction false} SwissInternationalExample(s: string, code: string, rest: string)
    requires code == "41" && rest == "79 123 45 67" && s == "+41 79 123 45 67"
    ensures DetectCountryCode(s) == Some(code)
  {
    assert s == "+" + code + " " + rest;
    DetectsWrittenCode("+", code, rest);
  }

  /** The German number written with "00": valid, normalised without the
      prefix, and its code detected. */
  lemma {:induction false} GermanZeroZeroExample(s: string, code: string, area: string, subscriber: string)
    requires code == "49" && area == "170" && subscriber == "1234567"
    requires s == "00" + code + " " + (area + " " + subscriber)
    ensures IsValidPhoneNumber(s)
    ensures NormalizePhoneNumber(s, DefaultCountryCode) == "491701234567"
    ensures DetectCountryCode(s) == Some(code)
  {
    DetectsWrittenCode("00", code, area + " " + subscriber);
    GermanZeroZeroNormalized(s, code, area, subscriber);
  }

  lemma {:induction false} GermanZeroZeroNormalized(s: string, code: string, area: string, subscriber: string)
    requires code == "49" && area == "170" && subscriber == "1234567"
    requires s == "00" + code + " " + (area + " " + subscriber)
    ensures IsValidPhoneNumber(s)
    ensures NormalizePhoneNumber(s, DefaultCountryCode) == "491701234567"
  {
    var d := code + (area + subscriber);
    GermanDigits(code, area, subscriber);
    CleanThreeGroups("00" + code, area, subscriber);
    assert "00" + code + (area + subscriber) == "00" + d;
    ZeroZeroNormalizes(s, d, DefaultCountryCode);
  }

  lemma {:induction false} GermanDigits(code: string, area: string, subscriber: string)
    requires code == "49" && area == "170" && subscriber == "1234567"
    ensures AllDigits("00" + code) && AllDigits(area) && AllDigits(subscriber)
    ensures AllDigits(code + (area + subscriber)) && code + (area + subscriber) == "491701234567"
  {
    AllDigitsAppend(area, subscriber);
    AllDigitsAppend(code, area + subscriber);
  }

  lemma {:induction false} CleanThreeGroups(a: string, b: string, c: string)
    requires AllDigits(a) && AllDigits(b) && AllDigits(c)
    ensures Clean(a + " " + (b + " " + c)) == a + (b + c)
  {
    CleanDigitGroup(a, b + " " + c);
    CleanDigitGroup(b, c);
    CleanKeepsDigits(c);
  }

  /** A number that cleans to "00" and 5 to 13 digits is valid and normalises
      to those digits. */
  lemma {:induction false} ZeroZeroNormalizes(s: string, d: string, cc: string)
    requires Clean(s) == "00" + d && AllDigits(d) && 5 <= |d| <= 13
    ensures IsValidPhoneNumber(s)
    ensures NormalizePhoneNumber(s, cc) == d
  {
    var c := "00" + d;
    assert c[..2] == "00" && c[2..] == d;
    assert AllDigits(c) by {
      assert forall i :: 2 <= i < |c| ==> c[i] == d[i - 2];
    }
    assert ("+" + d)[1..] == d;
  }

  lemma {:induction false} CustomCountryCodeExample(s: string, area: string, subscriber: string)
    requires area == "170" && subscriber == "1234567" && s == "0" + area + " " + subscriber
    ensures NormalizePhoneNumber(s, "49") == "491701234567"
  {
    var x := area + " " + subscriber;
    assert s == "0" + x;
    CustomCodeClean(area, subscriber);
    assert Clean(x)[0] == '1';
    NationalNormalizes(x, "49");
  }

  lemma {:induction false} CustomCodeClean(area: string, subscriber: string)
    requires area == "170" && subscriber == "1234567"
    ensures Clean(area + " " + subscriber) == "1701234567"
  {
    CleanDigitGroup(area, subscriber);
    CleanKeepsDigits(subscriber);
  }

  lemma {:induction false} TooLongExample(s: string, digits: string)
    requires digits == "1234567890123456" && s == "+" + digits
    ensures !IsValidPhoneNumber(s)
  {
    var a, b := "12345678", "90123456";
    assert digits == a + b;
    AllDigitsAppend(a, b);
    PlusDigitsValidity(digits);
  }

  lemma {:induction false} AllDigitsAppend(a: string, b: string)
    requires AllDigits(a) && AllDigits(b)
    ensures AllDigits(a + b)
  {
    forall i | 0 <= i < |a + b|
      ensures IsDigit((a + b)[i])
    {
      if i < |a| {
        assert (a + b)[i] == a[i];
      } else {
        assert (a + b)[i] == b[i - |a|];
      }
    }
  }

  /** A '+' and digits alone is valid exactly when there are 7 to 15 digits. */
  lemma {:induction false} PlusDigitsValidity(digits: string)
    requires AllDigits(digits)
    ensures IsValidPhoneNumber("+" + digits) <==> 7 <= |digits| <= 15
  {
    var c := "+" + digits;
    CleanAppend("+", digits);
    CleanKeepsDigits(digits);
    assert Clean(c) == c;
    assert c[0] == '+' && c[1..] == digits;
    assert DropPlus(c) == digits;
  }

  lemma {:induction false} RejectedExamples()
    ensures !IsValidPhoneNumber("")
    ensures !IsValidPhoneNumber("abc")
    ensures !IsValidPhoneNumber("123")
  {
    CleanKeepsDigits("123");
    assert Clean("abc") == "abc";
  }
}
