/**
 * Locale resolution: the `NEXT_LOCALE` cookie, then the first entry of the
 * Accept-Language header, then German.
 */
module I18n {
  import opened Wrappers
  import opened JsString

  const Locales: seq<string> := ["de", "fr", "it", "en"]
  const DefaultLocale := "de"

  /** `acceptLanguage.split(',')[0].split('-')[0].toLowerCase()` */
  function BrowserLanguage(acceptLanguage: string): string {
    ToLowerAscii(BeforeFirst(BeforeFirst(acceptLanguage, ','), '-'))
  }

  /** `getLocale`, with the cookie value and the header value as parameters
      (`None` when absent). */
  function GetLocale(cookieLocale: Option<string>, acceptLanguage: Option<string>): (r: string)
    ensures r in Locales
  {
    if cookieLocale.Some? && cookieLocale.value != "" && cookieLocale.value in Locales then
      cookieLocale.value
    else if acceptLanguage.Some? && acceptLanguage.value != "" && BrowserLanguage(acceptLanguage.value) in Locales then
      BrowserLanguage(acceptLanguage.value)
    else
      DefaultLocale
  }

  /** The locale the default `getRequestConfig` settles on. */
  function RequestLocale(requestLocale: Option<string>, cookieLocale: Option<string>, acceptLanguage: Option<string>): (r: string)
    ensures r in Locales
  {
    if requestLocale.None? || requestLocale.value == "" || requestLocale.value !in Locales then
      GetLocale(cookieLocale, acceptLanguage)
    else
      requestLocale.value
  }

  /** A supported cookie is returned as it is, whatever the header says. */
  lemma {:induction false} CookieWins(cookie: string, acceptLanguage: Option<string>)
    requires cookie in Locales
    ensures GetLocale(Some(cookie), acceptLanguage) == cookie
  {
  }

  /** Without a supported cookie the header decides, and only through the
      language of its first entry: German unless that language is a supported
      locale. */
  lemma {:induction false} HeaderDecides(cookieLocale: Option<string>, acceptLanguage: string)
    requires cookieLocale.None? || cookieLocale.value !in Locales
    ensures var lang := BrowserLanguage(acceptLanguage);
      GetLocale(cookieLocale, Some(acceptLanguage)) == (if lang in Locales then lang else DefaultLocale)
    ensures GetLocale(cookieLocale, None) == DefaultLocale
  {
    if acceptLanguage == "" {
      assert BrowserLanguage(acceptLanguage) == "";
    }
  }

  /** Entries after the first ',' are never looked at. */
  lemma {:induction false} OnlyFirstEntryCounts(cookieLocale: Option<string>, first: string, rest: string)
    requires first != [] && ',' !in first
    ensures GetLocale(cookieLocale, Some(first + "," + rest)) == GetLocale(cookieLocale, Some(first))
  {
    BeforeFirstStopsAt(first, ',', rest);
    BeforeFirstKeeps(first, ',');
  }

  /** The region after '-' is ignored, and the language is read without
      regard to ASCII case. */
  lemma {:induction false} RegionAndCaseIgnored(cookieLocale: Option<string>, lang: string, region: string)
    requires lang != [] && ',' !in lang && '-' !in lang && ',' !in region
    ensures GetLocale(cookieLocale, Some(lang + "-" + region)) == GetLocale(cookieLocale, Some(ToLowerAscii(lang)))
  {
    var h := lang + "-" + region;
    assert ',' !in h by {
      assert forall i :: 0 <= i < |h| ==> h[i] == if i < |lang| then lang[i] else if i == |lang| then '-' else region[i - |lang| - 1];
    }
    BeforeFirstKeeps(h, ',');
    BeforeFirstStopsAt(lang, '-', region);
    assert BrowserLanguage(h) == ToLowerAscii(lang);
    LowerLanguageAlone(lang);
  }

  /** A language already free of ',' and '-' is read as its lower-case form. */
  lemma {:induction false} LowerLanguageAlone(lang: string)
    requires ',' !in lang && '-' !in lang
    ensures BrowserLanguage(ToLowerAscii(lang)) == ToLowerAscii(lang)
  {
    var low := ToLowerAscii(lang);
    assert ',' !in low && '-' !in low;
    BeforeFirstKeeps(low, ',');
    BeforeFirstKeeps(low, '-');
    ToLowerAsciiIdempotent(lang);
  }

  lemma {:induction false} BeforeFirstKeeps(s: string, sep: char)
    requires sep !in s
    ensures BeforeFirst(s, sep) == s
  {
    if s != [] {
      BeforeFirstKeeps(s[1..], sep);
    }
  }

  lemma {:induction false} BeforeFirstStopsAt(s: string, sep: char, rest: string)
    requires sep !in s
    ensures BeforeFirst(s + [sep] + rest, sep) == s
  {
    if s == [] {
      assert (s + [sep] + rest)[0] == sep;
    } else {
      assert (s + [sep] + rest)[1..] == s[1..] + [sep] + rest;
      BeforeFirstStopsAt(s[1..], sep, rest);
    }
  }

  lemma {:induction false} ToLowerAsciiIdempotent(s: string)
    ensures ToLowerAscii(ToLowerAscii(s)) == ToLowerAscii(s)
  {
  }

  /** Parameters are not stripped from the first entry, so a header whose
      first entry carries a weight falls back to German. */
  lemma {:induction false} WeightedFirstEntryFallsBack(h: string, first: string, rest: string)
    requires first == "fr;q=0.9" && rest == "en" && h == first + "," + rest
    ensures GetLocale(None, Some(h)) == DefaultLocale
  {
    OnlyFirstEntryCounts(None, first, rest);
    BeforeFirstKeeps(first, ',');
    BeforeFirstKeeps(first, '-');
  }

  /** The header of the source's own comment, "de-DE,de;q=0.9,en;q=0.8",
      resolves to German. */
  lemma {:induction false} GermanHeaderExample(h: string, lang: string, region: string, rest: string)
    requires lang == "de" && region == "DE" && rest == "de;q=0.9,en;q=0.8"
    requires h == lang + "-" + region + "," + rest
    ensures GetLocale(None, Some(h)) == "de"
  {
    var first := lang + "-" + region;
    assert ',' !in first;
    OnlyFirstEntryCounts(None, first, rest);
    RegionAndCaseIgnored(None, lang, region);
    LanguageAlone(lang);
  }

  /** A Swiss French header, "FR-CH", resolves to French. */
  lemma {:induction false} SwissFrenchHeaderExample(h: string, lang: string, region: string)
    requires lang == "FR" && region == "CH" && h == lang + "-" + region
    ensures GetLocale(None, Some(h)) == "fr"
  {
    RegionAndCaseIgnored(None, lang, region);
    var low := ToLowerAscii(lang);
    assert low[0] == 'f' && low[1] == 'r';
    assert low == "fr";
    LanguageAlone(low);
    ToLowerAsciiIdempotent(lang);
  }

  lemma {:induction false} LanguageAlone(lang: string)
    requires lang != [] && ',' !in lang && '-' !in lang
    ensures BrowserLanguage(lang) == ToLowerAscii(lang)
  {
    BeforeFirstKeeps(lang, ',');
    BeforeFirstKeeps(lang, '-');
  }

  /** A supported request locale is kept; any other falls back to the
      cookie-and-header rule. */
  lemma {:induction false} RequestLocaleFallback(requestLocale: Option<string>, cookieLocale: Option<string>, acceptLanguage: Option<string>)
    ensures requestLocale.Some? && requestLocale.value in Locales ==>
      RequestLocale(requestLocale, cookieLocale, acceptLanguage) == requestLocale.value
    ensures (requestLocale.None? || requestLocale.value !in Locales) ==>
      RequestLocale(requestLocale, cookieLocale, acceptLanguage) == GetLocale(cookieLocale, acceptLanguage)
  {
  }
}
