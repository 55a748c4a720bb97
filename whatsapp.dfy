/**
 * The WhatsApp deep link the organizer sends to each participant: the
 * participant's phone number as digits, and the greeting with the link to
 * their reveal page, percent-encoded.
 */
module WhatsApp {
  import opened Wrappers
  import opened JsString
  import opened UriEncoding
  import opened Database
  import PhoneValidation

  /** `s.replace(/[^0-9]/g, '')`: the ASCII digits of `s`, in order. */
  function Digits(s: string): string {
    if s == [] then [] else (if IsDigit(s[0]) then [s[0]] else []) + Digits(s[1..])
  }

  /** The phone number WhatsApp receives: its digits, with a leading '0'
      read as the Swiss national prefix and replaced by 41. */
  function WhatsAppPhone(phoneNumber: string): string {
    var phone := Digits(phoneNumber);
    if StartsWith(phone, "0") then "41" + phone[1..] else phone
  }

  /** `sessionName || 'unser Wichteln'` */
  function SessionTitle(sessionName: Option<string>): string {
    if sessionName.None? || sessionName.value == "" then "unser Wichteln" else sessionName.value
  }

  const Greeting := "Hallo "
  const Tree := '\U{1F384}'
  const Gift := '\U{1F381}'
  const LinkIntro := "\n\nHier ist dein Link f\U{FC}r "
  const Closing := "\n\n\U{D6}ffne den Link, um zu sehen, wen du beschenkst! "

  /** "Hallo <name>! " */
  function Opening(name: string): string {
    Greeting + name + "! "
  }

  /** The line naming the session, then the link. */
  function Invitation(title: string, assignmentUrl: string): string {
    LinkIntro + title + ":\n" + assignmentUrl + Closing
  }

  /** The message template. */
  function Message(name: string, assignmentUrl: string, sessionName: Option<string>): string {
    Opening(name) + [Tree] + Invitation(SessionTitle(sessionName), assignmentUrl) + [Gift]
  }

  const SendPrefix := "https://api.whatsapp.com/send?phone="
  const TextParameter := "&text="

  /** `generateWhatsAppUrl` */
  function GenerateWhatsAppUrl(participant: ParticipantAdmin, assignmentUrl: string, sessionName: Option<string>): string {
    var message := Message(participant.name, assignmentUrl, sessionName);
    SendPrefix + WhatsAppPhone(participant.phoneNumber) + TextParameter + EncodeURIComponent(message)
  }

  // ---------------------------------------------------------------------------
  // Properties

  predicate IsAscii(s: string) {
    forall i :: 0 <= i < |s| ==> s[i] < '\U{80}'
  }

  /** `sub` occurs in `s`. */
  predicate Contains(s: string, sub: string)
    decreases |s|
  {
    sub <= s || (s != [] && Contains(s[1..], sub))
  }

  lemma {:induction false} ContainsItself(s: string)
    ensures Contains(s, s)
  {
  }

  lemma {:induction false} ContainsBefore(s: string, sub: string, t: string)
    requires Contains(s, sub)
    ensures Contains(s + t, sub)
  {
    if sub <= s {
      assert sub <= s + t by {
        assert (s + t)[..|sub|] == s[..|sub|];
      }
    } else {
      ContainsBefore(s[1..], sub, t);
      assert (s + t)[1..] == s[1..] + t;
    }
  }

  lemma {:induction false} ContainsAfter(s: string, sub: string, t: string)
    requires Contains(t, sub)
    ensures Contains(s + t, sub)
  {
    if s == [] {
      assert s + t == t;
    } else {
      ContainsAfter(s[1..], sub, t);
      assert (s + t)[1..] == s[1..] + t;
    }
  }

  lemma {:induction false} DigitsAppend(a: string, b: string)
    ensures Digits(a + b) == Digits(a) + Digits(b)
  {
    if a == [] {
      assert a + b == b;
    } else {
      var head := if IsDigit(a[0]) then [a[0]] else [];
      assert (a + b)[0] == a[0];
      assert (a + b)[1..] == a[1..] + b;
      DigitsAppend(a[1..], b);
      assert Digits(a + b) == head + (Digits(a[1..]) + Digits(b));
      assert Digits(a) == head + Digits(a[1..]);
    }
  }

  /** Only digits are kept, and a string of digits is kept whole. */
  lemma {:induction false} DigitsAreDigits(s: string)
    ensures AllDigits(Digits(s))
    ensures AllDigits(s) ==> Digits(s) == s
  {
    if s != [] {
      DigitsAreDigits(s[1..]);
      var head := if IsDigit(s[0]) then [s[0]] else [];
      var d := Digits(s[1..]);
      assert Digits(s) == head + d;
      assert forall i :: 0 <= i < |d| ==> (head + d)[|head| + i] == d[i];
    }
  }

  /** The phone parameter is digits only. */
  lemma {:induction false} WhatsAppPhoneIsDigits(phoneNumber: string)
    ensures AllDigits(WhatsAppPhone(phoneNumber))
  {
    DigitsAreDigits(phoneNumber);
    var phone := Digits(phoneNumber);
    if StartsWith(phone, "0") {
      var t := phone[1..];
      assert forall i :: 0 <= i < |t| ==> ("41" + t)[i + 2] == t[i];
    }
  }

  /** The URL is the send endpoint, the phone, and the encoded message; the
      encoded text is plain ASCII, holds no character that ends a query
      parameter, and decodes back to the message exactly. */
  lemma {:induction false} UrlStructure(participant: ParticipantAdmin, assignmentUrl: string, sessionName: Option<string>)
    ensures var message := Message(participant.name, assignmentUrl, sessionName);
      var text := EncodeURIComponent(message);
      && GenerateWhatsAppUrl(participant, assignmentUrl, sessionName)
         == SendPrefix + WhatsAppPhone(participant.phoneNumber) + TextParameter + text
      && AllDigits(WhatsAppPhone(participant.phoneNumber))
      && IsAscii(text)
      && (forall i :: 0 <= i < |text| ==> text[i] != '&' && text[i] != '#' && text[i] != '+' && text[i] != ' ')
      && DecodeURIComponent(text) == Some(message)
  {
    var message := Message(participant.name, assignmentUrl, sessionName);
    WhatsAppPhoneIsDigits(participant.phoneNumber);
    EncodedIsQuerySafe(message);
    DecodeEncode(message);
  }

  /** Encoded text is ASCII and never holds '&', '#', '+' or a space. */
  lemma {:induction false} EncodedIsQuerySafe(message: string)
    ensures var text := EncodeURIComponent(message);
      && IsAscii(text)
      && (forall i :: 0 <= i < |text| ==> text[i] != '&' && text[i] != '#' && text[i] != '+' && text[i] != ' ')
  {
    var text := EncodeURIComponent(message);
    forall i | 0 <= i < |text|
      ensures text[i] < '\U{80}' && text[i] != '&' && text[i] != '#' && text[i] != '+' && text[i] != ' '
    {
      assert IsUnreserved(text[i]) || text[i] == '%';
    }
  }

  /** The message greets the participant by name, carries the link, and names
      the session or, when there is none, 'unser Wichteln'. */
  lemma {:induction false} MessageContents(name: string, assignmentUrl: string, sessionName: Option<string>)
    ensures var m := Message(name, assignmentUrl, sessionName);
      && Greeting + name + "!" <= m
      && Contains(m, assignmentUrl)
      && Contains(m, SessionTitle(sessionName))
      && (sessionName.Some? && sessionName.value != "" ==> Contains(m, sessionName.value))
      && (sessionName.None? || sessionName == Some("") ==> Contains(m, "unser Wichteln"))
      && Contains(m, [Tree]) && Contains(m, [Gift])
  {
    var title := SessionTitle(sessionName);
    var opening := Opening(name);
    var invitation := Invitation(title, assignmentUrl);
    assert Message(name, assignmentUrl, sessionName) == opening + [Tree] + invitation + [Gift];
    assert opening[..|Greeting + name + "!"|] == Greeting + name + "!";
    assert (opening + [Tree] + invitation + [Gift])[..|opening|] == opening;
    ContainsItself([Tree]);
    ContainsAfter(opening, [Tree], [Tree]);
    ContainsBefore(opening + [Tree], [Tree], invitation);
    ContainsBefore(opening + [Tree] + invitation, [Tree], [Gift]);
    ContainsItself([Gift]);
    ContainsAfter(opening + [Tree] + invitation, [Gift], [Gift]);
    InvitationContents(title, assignmentUrl);
    ContainsAfter(opening + [Tree], title, invitation);
    ContainsBefore(opening + [Tree] + invitation, title, [Gift]);
    ContainsAfter(opening + [Tree], assignmentUrl, invitation);
    ContainsBefore(opening + [Tree] + invitation, assignmentUrl, [Gift]);
  }

  lemma {:induction false} InvitationContents(title: string, assignmentUrl: string)
    ensures Contains(Invitation(title, assignmentUrl), title)
    ensures Contains(Invitation(title, assignmentUrl), assignmentUrl)
  {
    ContainsItself(title);
    ContainsAfter(LinkIntro, title, title);
    ContainsBefore(LinkIntro + title, title, ":\n");
    ContainsBefore(LinkIntro + title + ":\n", title, assignmentUrl);
    ContainsBefore(LinkIntro + title + ":\n" + assignmentUrl, title, Closing);
    ContainsItself(assignmentUrl);
    ContainsAfter(LinkIntro + title + ":\n", assignmentUrl, assignmentUrl);
    ContainsBefore(LinkIntro + title + ":\n" + assignmentUrl, assignmentUrl, Closing);
  }

  /** A leading '0' becomes 41; any other digits are kept as they are. In
      particular a number written with the international prefix "00" is sent
      with "410" in front of its country code. */
  lemma {:induction false} ZeroPrefixRewrite(phoneNumber: string)
    ensures var phone := Digits(phoneNumber);
      && (StartsWith(phone, "0") ==> WhatsAppPhone(phoneNumber) == "41" + phone[1..])
      && (!StartsWith(phone, "0") ==> WhatsAppPhone(phoneNumber) == phone)
      && (StartsWith(phone, "00") ==> StartsWith(WhatsAppPhone(phoneNumber), "410"))
  {
    var phone := Digits(phoneNumber);
    if StartsWith(phone, "00") {
      assert phone[1] == '0';
      assert ("41" + phone[1..])[..3] == "410";
    }
  }

  /** For a number `isValidPhoneNumber` accepts, the digits are the cleaned
      number without its '+'. */
  lemma {:induction false} DigitsOfValidNumber(s: string)
    requires PhoneValidation.IsValidPhoneNumber(s)
    ensures Digits(s) == PhoneValidation.DropPlus(PhoneValidation.Clean(s))
  {
    DigitsOfClean(s);
    var cleaned := PhoneValidation.Clean(s);
    if StartsWith(cleaned, "+") {
      assert cleaned == "+" + cleaned[1..];
      DigitsAppend("+", cleaned[1..]);
      DigitsAreDigits(cleaned[1..]);
    } else {
      DigitsAreDigits(cleaned);
    }
  }

  lemma {:induction false} DigitsOfClean(s: string)
    ensures Digits(PhoneValidation.Clean(s)) == Digits(s)
  {
    if s != [] {
      DigitsOfClean(s[1..]);
      if !PhoneValidation.IsSeparator(s[0]) {
        DigitsAppend([s[0]], PhoneValidation.Clean(s[1..]));
      }
    }
  }

  /** The phone numbers of the unit tests: an international number keeps its
      digits. */
  lemma {:induction false} SwissInternationalPhone(s: string, d: string)
    requires d == "41791234567" && s == "+" + d
    ensures WhatsAppPhone(s) == d
  {
    DigitsAppend("+", d);
    DigitsAreDigits(d);
    assert Digits(s) == d;
    assert d[0] == '4';
  }

  /** A Swiss national number has its leading 0 replaced by 41. */
  lemma {:induction false} SwissNationalPhone(s: string)
    requires s == "079 123 45 67"
    ensures WhatsAppPhone(s) == "41791234567"
  {
    SwissNationalDigits(s);
    assert Digits(s)[0] == '0';
    assert "41" + Digits(s)[1..] == "41791234567";
  }

  lemma {:induction false} SwissNationalDigits(s: string)
    requires s == "079 123 45 67"
    ensures Digits(s) == "0791234567"
  {
    var a, b, c, d := "079", "123", "45", "67";
    assert s == a + " " + b + " " + c + " " + d;
    DigitsOfGroups(a, b, c, d);
  }

  /** A German number written with "+" and spaces. */
  lemma {:induction false} GermanPhone(s: string, code: string, area: string, subscriber: string)
    requires code == "49" && area == "170" && subscriber == "1234567"
    requires s == "+" + (code + " " + area + " " + subscriber)
    ensures WhatsAppPhone(s) == "491701234567"
  {
    var x := code + " " + area + " " + subscriber;
    GermanDigits(code, area, subscriber);
    assert Digits(x)[0] == '4';
    PlusIsDropped(x);
  }

  lemma {:induction false} GermanDigits(code: string, area: string, subscriber: string)
    requires code == "49" && area == "170" && subscriber == "1234567"
    ensures Digits(code + " " + area + " " + subscriber) == "491701234567"
  {
    DigitsOfGroups3(code, area, subscriber);
  }

  /** After a '+', the digits are passed on as they are, unless the first is a zero. */
  lemma {:induction false} PlusIsDropped(x: string)
    requires !StartsWith(Digits(x), "0")
    ensures WhatsAppPhone("+" + x) == Digits(x)
  {
    DigitsAppend("+", x);
    assert Digits("+") == [];
  }

  lemma {:induction false} DigitsDropSpace(a: string, b: string)
    ensures Digits(a + " " + b) == Digits(a) + Digits(b)
  {
    DigitsAppend(a + " ", b);
    DigitsAppend(a, " ");
    assert Digits(" ") == [];
  }

  lemma {:induction false} DigitsOfGroups3(a: string, b: string, c: string)
    requires AllDigits(a) && AllDigits(b) && AllDigits(c)
    ensures Digits(a + " " + b + " " + c) == a + b + c
  {
    DigitsDropSpace(a + " " + b, c);
    DigitsDropSpace(a, b);
    DigitsAreDigits(a);
    DigitsAreDigits(b);
    DigitsAreDigits(c);
  }

  lemma {:induction false} DigitsOfGroups(a: string, b: string, c: string, d: string)
    requires AllDigits(a) && AllDigits(b) && AllDigits(c) && AllDigits(d)
    ensures Digits(a + " " + b + " " + c + " " + d) == a + b + c + d
  {
    DigitsDropSpace(a + " " + b + " " + c, d);
    DigitsOfGroups3(a, b, c);
    DigitsAreDigits(d);
  }

  /** The Christmas tree appears in the link as %F0%9F%8E%84. */
  lemma {:induction false} TreeIsEncoded(participant: ParticipantAdmin, assignmentUrl: string, sessionName: Option<string>)
    ensures Contains(GenerateWhatsAppUrl(participant, assignmentUrl, sessionName), "%F0%9F%8E%84")
  {
    var opening := Opening(participant.name);
    var invitation := Invitation(SessionTitle(sessionName), assignmentUrl);
    var message := Message(participant.name, assignmentUrl, sessionName);
    assert message == opening + [Tree] + invitation + [Gift];
    EncodeAppend(opening + [Tree] + invitation, [Gift]);
    EncodeAppend(opening + [Tree], invitation);
    EncodeAppend(opening, [Tree]);
    var tree := EncodeURIComponent([Tree]);
    assert tree == "%F0%9F%8E%84" by {
      assert [Tree][1..] == [];
      ChristmasTreeEncoding();
    }
    var text := EncodeURIComponent(message);
    assert text == EncodeURIComponent(opening) + tree + EncodeURIComponent(invitation) + EncodeURIComponent([Gift]);
    ContainsItself(tree);
    ContainsAfter(EncodeURIComponent(opening), tree, tree);
    ContainsBefore(EncodeURIComponent(opening) + tree, tree, EncodeURIComponent(invitation));
    ContainsBefore(EncodeURIComponent(opening) + tree + EncodeURIComponent(invitation), tree, EncodeURIComponent([Gift]));
    ContainsAfter(SendPrefix + WhatsAppPhone(participant.phoneNumber) + TextParameter, tree, text);
  }

  lemma {:induction false} EncodeAppend(a: string, b: string)
    ensures EncodeURIComponent(a + b) == EncodeURIComponent(a) + EncodeURIComponent(b)
  {
    if a == [] {
      assert a + b == b;
    } else {
      assert (a + b)[0] == a[0];
      assert (a + b)[1..] == a[1..] + b;
      EncodeAppend(a[1..], b);
    }
  }

  // ---------------------------------------------------------------------------
  // The "00" prefix

  /** The digit rule as evidently intended: "00" is the international prefix
      and is dropped; a single leading '0' is the Swiss national prefix. */
  function WhatsAppPhoneFixed(phoneNumber: string): string {
    var phone := Digits(phoneNumber);
    if StartsWith(phone, "00") then phone[2..]
    else if StartsWith(phone, "0") then "41" + phone[1..]
    else phone
  }

  /** As written, the "00" and "+" spellings of one Swiss number give two
      different numbers, though `isValidPhoneNumber` accepts both. */
  lemma {:induction false} ZeroZeroPrefixMisread(plus: string, zeroZero: string, d: string)
    requires d == "41791234567" && plus == "+" + d && zeroZero == "00" + d
    ensures WhatsAppPhone(plus) == d
    ensures WhatsAppPhone(zeroZero) == "410" + d
  {
    SwissInternationalPhone(plus, d);
    DigitsAreDigits(d);
    ZeroZeroKeepsAZero(d);
  }

  /** As written, a number spelt with "00" keeps one of its zeros after the
      41 that replaces the other. */
  lemma {:induction false} ZeroZeroKeepsAZero(x: string)
    ensures WhatsAppPhone("00" + x) == "410" + Digits(x)
  {
    DigitsAppend("00", x);
    assert Digits("00") == "00";
    var phone := Digits("00" + x);
    assert phone == "00" + Digits(x);
    assert phone[1..] == "0" + Digits(x);
    assert "41" + phone[1..] == "410" + Digits(x);
  }

  /** The corrected rule reads both spellings of that number alike. */
  lemma {:induction false} ZeroZeroPrefixFixed(plus: string, zeroZero: string, d: string)
    requires d == "41791234567" && plus == "+" + d && zeroZero == "00" + d
    ensures WhatsAppPhoneFixed(zeroZero) == WhatsAppPhoneFixed(plus) == "41791234567"
  {
    DigitsAreDigits(d);
    assert d[0] == '4';
    FixedPrefixesAgree(d);
  }

  lemma {:induction false} ZeroZeroNumberIsValid(s: string)
    requires s == "0041791234567"
    ensures PhoneValidation.IsValidPhoneNumber(s)
  {
    PhoneValidation.CleanKeepsDigits(s);
  }

  /** With the corrected rule, "00" and "+" mean the same, and for every
      valid number written with a prefix the link carries the number
      `normalizePhoneNumber` gives. */
  lemma {:induction false} FixedPhoneAgreesWithNormalize(s: string)
    requires PhoneValidation.IsValidPhoneNumber(s)
    requires var c := PhoneValidation.Clean(s);
      (StartsWith(c, "+") || StartsWith(c, "0")) && !StartsWith(c, "+0")
    ensures WhatsAppPhoneFixed(s) == PhoneValidation.NormalizePhoneNumber(s, PhoneValidation.DefaultCountryCode)
  {
    DigitsOfValidNumber(s);
    var c := PhoneValidation.Clean(s);
    if StartsWith(c, "00") {
      assert ("+" + c[2..])[1..] == c[2..];
    }
  }

  lemma {:induction false} FixedPrefixesAgree(x: string)
    requires !StartsWith(Digits(x), "0")
    ensures WhatsAppPhoneFixed("00" + x) == WhatsAppPhoneFixed("+" + x) == Digits(x)
  {
    DigitsAppend("00", x);
    DigitsAppend("+", x);
    assert ("00" + Digits(x))[2..] == Digits(x);
  }
}
