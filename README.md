# Wichtel app: a verified model of its core

The Wichtel app runs a Secret Santa ("Wichteln"). An organizer collects
participants, draws an assignment of giver to receiver in which nobody draws
themselves, and sends each participant a personal reveal link over WhatsApp.

This project models the parts of the app that decide something, and proves
what they promise:

- **The assignment engine** (`DrawAlgorithm`). `generateDerangement` is
  rejection sampling. Each attempt is a Fisher–Yates shuffle, then a check
  that nobody drew themselves. There are at most 1000 attempts, and fewer than
  3 participants is refused. `performDraw` turns the result into the
  request body for the draw route.
- **The draw route** (`DrawRoute`). It writes each `assigned_to_id`, then marks
  the session `drawn`.
- **The reveal-tracking route** (`TrackViewRoute`). It records the first time a
  participant opens their reveal.
- **Phone numbers** (`PhoneValidation`). This covers validation, normalisation to the
  digits WhatsApp expects, display formatting and country-code detection.
- **The WhatsApp deep link** (`WhatsApp`). It holds the message template, the phone digits
  and `encodeURIComponent` (`UriEncoding`).
- **The add-participant form** (`ParticipantForm`). This is its own validation rule
  and the state changes of its submit handler.
- **Locale resolution** (`I18n`). The order is the `NEXT_LOCALE` cookie, the first
  Accept-Language entry, then German.

Supporting modules:

- `Wrappers`: `Option` and `Result`.
- `JsString`: the JavaScript built-ins used. These are `trim` with the `\s` character set, ASCII
  `toLowerCase`, `startsWith` and `split(sep)[0]`.
- `Database`: the table rows and the `Store` the two routes act on.
- `Http`: a response status and an optional error text.

Form of the model:

- Pure TypeScript becomes functions and lemmas.
- The three loops of `generateDerangement` are methods over an `array`, each
  proved against a function on sequences:
  - the Fisher–Yates shuffle;
  - the self-assignment check;
  - the map construction.
- The two routes are methods on a `Store` class. Their `ensures` tie the new
  tables to a function of the old ones, and the route properties are lemmas
  about that function.
- The submit handler is a method on a `Form` class whose fields are the
  component's four pieces of state.

`Math.random` is an oracle parameter `random(attempt, i)`. `Pick` keeps a
proposal in `[0, i]` and caps a larger one at `i`, so exactly the indices
`Math.floor(Math.random() * (i + 1))` can produce are reachable. Database
failures are parameters too: a set of failing write indices, or a flag per
query. The timestamp `new Date().toISOString()` is a string parameter `now`.

## Model

| member | source | states |
|---|---|---|
| DrawAlgorithm.Shuffle | services/drawAlgorithm.ts:23-27 | the Fisher–Yates result: swaps from the last index down to 1 with the oracle's index, keeping the length; its properties are in ShufflePermutes and IdsOfShuffle |
| DrawAlgorithm.MapSet | services/drawAlgorithm.ts:41 | `Map.set` on insertion-ordered entries: replace in place when the key exists, else append; its properties are in MapSetEntries |
| DrawAlgorithm.Outcome | services/drawAlgorithm.ts:8-48 | the size error below 3 participants, else the first valid of the 1000 attempts or the budget error; its properties are in FailureCases, AcceptFirst and OutcomeIsDerangement |
| DrawAlgorithm.Pick | services/drawAlgorithm.ts:25 | the chosen swap index lies in `[0, i]`, and any proposal in that range is taken as it is |
| DrawAlgorithm.FisherYates | services/drawAlgorithm.ts:23-27 | the array after the in-place loop is `Shuffle` of the array before it |
| DrawAlgorithm.ShufflePermutes | services/drawAlgorithm.ts:23-27 | a shuffle is a permutation (same multiset), and it keeps distinct elements distinct |
| DrawAlgorithm.ShuffleDownPermutes | services/drawAlgorithm.ts:24-27 | each pass of swaps from index `i` down keeps the multiset and distinctness |
| DrawAlgorithm.IdsOfShuffle | services/drawAlgorithm.ts:23-27 | shuffling participants and reading their ids is shuffling the ids |
| DrawAlgorithm.CheckNoSelfAssignment | services/drawAlgorithm.ts:30-36 | the early-exit loop returns true exactly when no position holds the same id in both sequences |
| DrawAlgorithm.FillAssignments | services/drawAlgorithm.ts:38-44 | the map the loop builds with `Map.set` is `Pairing` of the two sequences |
| DrawAlgorithm.MapSetEntries | services/drawAlgorithm.ts:41 | `Map.set` stores the pair, adds no other key, and appends when the key is new |
| DrawAlgorithm.PairingOfDistinct | services/drawAlgorithm.ts:38-44 | with distinct ids the map holds the pairs `(participants[i].id, shuffled[i].id)` in order |
| DrawAlgorithm.PairingNoFixedPoint | services/drawAlgorithm.ts:30-44 | a checked shuffle yields a map with no key mapped to itself |
| DrawAlgorithm.Attempt | services/drawAlgorithm.ts:19-46 | one attempt is valid exactly when its shuffle leaves nobody on their own place, and then yields the accepted map, which has no self pair |
| DrawAlgorithm.GenerateDerangement | services/drawAlgorithm.ts:8-48 | the result is `Outcome` of participants and oracle; on success no participant is their own receiver |
| DrawAlgorithm.AttemptsFromSuccess | services/drawAlgorithm.ts:19-46 | a success comes from the first valid attempt, and every earlier attempt was invalid |
| DrawAlgorithm.AttemptsFromFirstValid | services/drawAlgorithm.ts:19-46 | the first valid attempt within the budget is the one accepted |
| DrawAlgorithm.AttemptsFromExhausted | services/drawAlgorithm.ts:19-47 | the loop fails exactly when none of the remaining attempts up to 1000 is valid |
| DrawAlgorithm.AcceptFirst | services/drawAlgorithm.ts:11-46 | with at least 3 participants the first valid attempt decides the outcome |
| DrawAlgorithm.FailureCases | services/drawAlgorithm.ts:11-47 | too few participants iff fewer than 3; no assignment iff at least 3 and all 1000 attempts invalid |
| DrawAlgorithm.OutcomeIsDerangement | services/drawAlgorithm.ts:8-48 | with distinct ids a success maps each participant to exactly one other, as a bijection onto the participants |
| DrawAlgorithm.OutcomeHasNoFixedPoint | services/drawAlgorithm.ts:30-44 | no entry of a successful outcome maps an id to itself, even without distinct ids |
| DrawAlgorithm.ThreeParticipantsGiveACycle | services/__tests__/drawAlgorithm.test.ts:25-53 | with three participants a success is one of the two 3-cycles |
| DrawAlgorithm.ThreeIdsDerange | services/__tests__/drawAlgorithm.test.ts:25-53 | a map over three distinct ids that is a bijection without fixed points is one of the two 3-cycles |
| DrawAlgorithm.NeverMovingOracleExhausts | services/drawAlgorithm.ts:19-47 | an oracle that never moves anything makes every attempt invalid and the draw fails after 1000 attempts |
| DrawAlgorithm.AlwaysZeroOracleOnThree | services/drawAlgorithm.ts:23-44 | the oracle that always picks 0 maps 1→2, 2→3, 3→1 on the first attempt |
| DrawAlgorithm.DerangementPassesChecker | services/__tests__/drawAlgorithm.test.ts:4-21 | a derangement's pairs pass the test suite's checker: no self pair, distinct givers, distinct receivers |
| DrawAlgorithm.DistinctCardinality | services/__tests__/drawAlgorithm.test.ts:13-16 | a set built from distinct values has as many elements as there are values |
| DrawAlgorithm.PerformDraw | services/drawAlgorithm.ts:54-87 | refuses fewer than 3; otherwise fails exactly when the engine fails, or returns that session's non-empty pairs, a valid derangement when ids are distinct |
| DrawAlgorithm.PairsNonEmpty | services/drawAlgorithm.ts:63-69 | a successful draw sends at least one pair |
| DrawAlgorithm.ToPairs | services/drawAlgorithm.ts:63-69 | flattening the map keeps one pair per entry |
| DrawRoute.PostOutcome | app/api/draw/route.ts:24-67 | the response and tables after the request: 400 for a bad body, the writes, then 500 on a failed write or status update, else 200 with the session drawn; its properties are in the DrawRoute lemmas below |
| DrawRoute.Post | app/api/draw/route.ts:24-67 | the response and new tables are `PostOutcome` of the request, the failing writes and the old tables |
| DrawRoute.ApplyWritesFrame | app/api/draw/route.ts:34-39 | the writes change only `assigned_to_id`, and only on rows whose id is a giver |
| DrawRoute.ApplyWritesEffect | app/api/draw/route.ts:34-39 | with distinct givers a giver row holds its receiver, or its old value when its own write failed |
| DrawRoute.AllWritesStored | app/api/draw/route.ts:34-67 | when no write fails every giver row holds its receiver, other rows are unchanged, and the response is success or the status error |
| DrawRoute.SessionDrawnOnlyOnSuccess | app/api/draw/route.ts:29-67 | the sessions table changes only on success; success iff the request is valid and no write fails; then the session's status is `drawn` |
| DrawRoute.WriteFailureKeepsPartialWrites | app/api/draw/route.ts:41-51 | a failing write gives 500 'Failed to save some assignments', keeps the other writes, and leaves the session as it was |
| DrawRoute.InvalidRequestWritesNothing | app/api/draw/route.ts:29-31 | a missing session id or a missing or empty assignment list gives 400 and changes nothing |
| DrawRoute.AssignTo | app/api/draw/route.ts:35-38 | one update keeps the number of rows |
| TrackViewRoute.TrackOutcome | app/api/reveal/track-view/route.ts:16-48 | the response and table after the request: 400 without token, 404 when the lookup fails or finds no unique row, 200 with nothing written when already viewed, 500 on a failed update, else 200 with `now` recorded; its properties are in FirstViewRecorded, ViewedAtSetOnce, SecondViewChangesNothing and ErrorsWriteNothing |
| TrackViewRoute.Matching | app/api/reveal/track-view/route.ts:25-29 | the indices listed are exactly the rows holding the token, in increasing order |
| TrackViewRoute.SingleByToken | app/api/reveal/track-view/route.ts:25-29 | `.single()` yields a row only if it is the one row holding the token |
| TrackViewRoute.SingleByTokenNone | app/api/reveal/track-view/route.ts:25-33 | when `.single()` fails on a token some row holds, another row holds it too |
| TrackViewRoute.Post | app/api/reveal/track-view/route.ts:16-48 | the response and new participants table are `TrackOutcome` of the old one; sessions are untouched |
| TrackViewRoute.FirstViewRecorded | app/api/reveal/track-view/route.ts:36-48 | a unique token not yet viewed gets `now` as its view time, answered 200, and no other row changes |
| TrackViewRoute.ViewedAtSetOnce | app/api/reveal/track-view/route.ts:36-46 | only `reveal_viewed_at` ever changes, and never on a row already viewed or with another token |
| TrackViewRoute.SecondViewChangesNothing | app/api/reveal/track-view/route.ts:36-48 | after a successful call, the same call at any later time answers 200 and changes nothing |
| TrackViewRoute.ErrorsWriteNothing | app/api/reveal/track-view/route.ts:20-45 | an error writes nothing; 400 iff the token is missing or empty; 404 iff the lookup fails or is not unique |
| TrackViewRoute.MatchingSameTokens | app/api/reveal/track-view/route.ts:25-29 | the lookup depends only on the token column |
| TrackViewRoute.MarkViewed | app/api/reveal/track-view/route.ts:36-40 | the update keeps the number of rows |
| JsString.Utf16Length | services/phoneValidation.ts:79 | `.length` counts 2 for a character outside the BMP and 1 otherwise, so it lies between the number of characters and twice that |
| JsString.Utf16LengthOfBmp | services/phoneValidation.ts:79 | on BMP characters `.length` is the number of characters |
| JsString.Utf16LengthOfAstral | services/phoneValidation.ts:79 | on characters outside the BMP `.length` is twice the number of characters |
| JsString.Trim | components/sessions/ParticipantForm.tsx:23-36 | the trimmed string is no longer than the input and neither starts nor ends with white space |
| JsString.TrimIsEmpty | components/sessions/ParticipantForm.tsx:23-28 | trimming gives "" exactly when the string is all white space |
| JsString.TrimKeepsPrefix | components/sessions/ParticipantForm.tsx:36 | a string with no white space at either end is kept as it is by trimming, at least to its first `n` characters |
| JsString.TrimStartRemovesWhiteSpace | services/phoneValidation.ts:112 | only white space is removed at the front |
| JsString.TrimEndRemovesWhiteSpace | services/phoneValidation.ts:112 | only white space is removed at the end |
| JsString.BeforeFirst | i18n.ts:24 | `split(sep)[0]` is a prefix free of `sep`, cut at the first `sep` |
| JsString.ToLowerAscii | i18n.ts:24 | each ASCII capital becomes its small letter and every other character stays |
| PhoneValidation.Clean | services/phoneValidation.ts:18 | removes every `\s`, bracket and '-' and keeps the rest in order; its properties are in CleanRemovesSeparators, CleanAppend and CleanIsSubsequence |
| PhoneValidation.IsValidPhoneNumber | services/phoneValidation.ts:16-39 | the cleaned number is an optional '+' then digits, 7 to 15 of them; characterised by ValidPhoneNumberShape |
| PhoneValidation.NormalizePhoneNumber | services/phoneValidation.ts:58-84 | "00" read as '+', which is dropped; a leading 0 or a short number gets the default code; its properties are in NormalizeValid, InternationalPrefixesAgree and NationalUsesDefaultCode |
| PhoneValidation.FormatPhoneNumber | services/phoneValidation.ts:92-102 | the international grouping after '+', else groups of three; its properties are in FormattingIsTransparent and FormatInternationalGroups |
| PhoneValidation.DetectCountryCode | services/phoneValidation.ts:110-139 | after trimming, the code read after '+' or "00" by the two regular expressions; its properties are in DetectedCodeShape and DetectsWrittenCode |
| PhoneValidation.CleanIsSubsequence | services/phoneValidation.ts:18 | every character that cleaning keeps comes from the input |
| PhoneValidation.CleanRemovesSeparators | services/phoneValidation.ts:18 | no white space, bracket or '-' survives cleaning |
| PhoneValidation.CleanKeepsClean | services/phoneValidation.ts:18 | cleaning a cleaned number changes nothing |
| PhoneValidation.CleanAppend | services/phoneValidation.ts:18 | cleaning distributes over concatenation |
| PhoneValidation.ValidPhoneNumberShape | services/phoneValidation.ts:16-39 | valid iff after leading separators there is an optional '+' then only digits and separators, with 7 to 15 digits |
| PhoneValidation.NormalizeValid | services/phoneValidation.ts:58-84 | a valid number normalises to digits only, between 5 and 15 plus the country code's length |
| PhoneValidation.InternationalPrefixesAgree | services/phoneValidation.ts:66-73 | "00" and "+" give the same normalised number |
| PhoneValidation.NationalUsesDefaultCode | services/phoneValidation.ts:75-77 | a national "0" number normalises like the number written with "+" and the country code |
| PhoneValidation.ZeroZeroNormalizes | services/phoneValidation.ts:16-73 | a number that cleans to "00" and 5 to 13 digits is valid and normalises to those digits |
| PhoneValidation.NationalNormalizes | services/phoneValidation.ts:63-77 | a number written "0" then a rest not starting with 0 normalises to the default code followed by the cleaned rest |
| PhoneValidation.InternationalNormalizes | services/phoneValidation.ts:63-73 | a number written "+", a code and a rest normalises to the code and the cleaned rest, whatever the default code |
| PhoneValidation.SeparatorsAreIgnored | services/phoneValidation.ts:16-84 | inserting a separator changes neither validity nor the normalised number |
| PhoneValidation.AstralCharactersCountTwice | services/phoneValidation.ts:79-81 | the at-most-10 rule counts UTF-16 code units: six characters outside the BMP are kept without a country code |
| PhoneValidation.BmpLengthRule | services/phoneValidation.ts:79-81 | with BMP characters only, a number without prefix gets the default code exactly when it has at most 10 characters |
| PhoneValidation.FormatInternationalGroups | services/phoneValidation.ts:96-98 | a number of ten or more digits after '+' is shown as `+ddd ddd ddd rest` |
| PhoneValidation.SplitWholeRun | services/phoneValidation.ts:97 | when the whole number after '+' is eight or more digits, the international grouping applies to all of them |
| PhoneValidation.FormattingIsTransparent | services/phoneValidation.ts:92-102 | formatting only inserts spaces, so validity and normalisation of its output are those of its input |
| PhoneValidation.GroupDigitsOnlyAddsSpaces | services/phoneValidation.ts:101 | the national grouping only inserts spaces |
| PhoneValidation.SplitInternationalOnlyAddsSpaces | services/phoneValidation.ts:96-98 | the international grouping only inserts spaces |
| PhoneValidation.DigitRunIsMaximal | services/phoneValidation.ts:114-136 | the digit run read by the regular expressions is the longest run of digits at the start |
| PhoneValidation.DetectedCodeShape | services/phoneValidation.ts:110-139 | a detected code is one to three digits, and a result exists only for a '+' or '00' start |
| PhoneValidation.DetectsWrittenCode | services/phoneValidation.ts:114-136 | a one- to three-digit code followed by white space after '+' or '00' is returned as it is |
| PhoneValidation.DetectsTwoDigitsWithoutSpace | services/phoneValidation.ts:117-133 | without a space after the code, four or more digits give their first two as the code |
| PhoneValidation.SwissNationalExample | services/__tests__/phoneValidation.test.ts:10-66 | "079 123 45 67" is valid, normalises to 41791234567, and has no detectable code |
| PhoneValidation.SwissNationalClean | services/phoneValidation.ts:18 | "079 123 45 67" cleans to 0791234567 |
| PhoneValidation.CleanFourGroups | services/phoneValidation.ts:18 | four digit groups separated by spaces clean to the digits alone |
| PhoneValidation.CleanThreeGroups | services/phoneValidation.ts:18 | three digit groups separated by spaces clean to the digits alone |
| PhoneValidation.SwissInternationalExample | services/__tests__/phoneValidation.test.ts:69-85 | "+41 79 123 45 67" is detected as code 41 |
| PhoneValidation.GermanZeroZeroExample | services/__tests__/phoneValidation.test.ts:23-80 | "0049 170 1234567" is valid, normalises to 491701234567, and is detected as code 49 |
| PhoneValidation.CustomCountryCodeExample | services/__tests__/phoneValidation.test.ts:41-66 | "0170 1234567" with code 49 normalises to 491701234567 |
| PhoneValidation.TooLongExample | services/__tests__/phoneValidation.test.ts:10-38 | sixteen digits are rejected |
| PhoneValidation.PlusDigitsValidity | services/phoneValidation.ts:16-39 | a '+' followed by digits is valid exactly when there are 7 to 15 digits |
| PhoneValidation.RejectedExamples | services/__tests__/phoneValidation.test.ts:10-38 | "", "abc" and "123" are rejected |
| UriEncoding.EncodeURIComponent | services/whatsappService.ts:28 | the encoding holds only unreserved characters and '%' |
| UriEncoding.DecodeEncode | services/whatsappService.ts:28 | decoding the encoding gives back the input exactly |
| UriEncoding.Utf8 | services/whatsappService.ts:28 | a character is one to four UTF-8 octets |
| UriEncoding.DecodeEscapeEncoded | services/whatsappService.ts:28 | the escapes of one encoded character decode to that character and consume all of them |
| UriEncoding.ChristmasTreeEncoding | services/__tests__/whatsappService.test.ts:147-167 | 🎄 is encoded as %F0%9F%8E%84 |
| WhatsApp.WhatsAppPhone | services/whatsappService.ts:20-25 | the digits of the number, a leading 0 replaced by 41; its properties are in WhatsAppPhoneIsDigits and ZeroPrefixRewrite |
| WhatsApp.Message | services/whatsappService.ts:12-17 | the template: greeting and name, 🎄, the session line and link, the closing line, 🎁; its properties are in MessageContents |
| WhatsApp.GenerateWhatsAppUrl | services/whatsappService.ts:7-31 | the send endpoint, the phone and the encoded message; its properties are in UrlStructure and TreeIsEncoded |
| WhatsApp.WhatsAppPhoneIsDigits | services/whatsappService.ts:20-25 | the phone parameter holds digits only |
| WhatsApp.DigitsAreDigits | services/whatsappService.ts:20 | the digit filter keeps only digits and keeps a digit string whole |
| WhatsApp.DigitsAppend | services/whatsappService.ts:20 | the digit filter distributes over concatenation |
| WhatsApp.PlusIsDropped | services/whatsappService.ts:20-25 | after a '+' the digits are sent as they are unless the first is 0 |
| WhatsApp.ZeroPrefixRewrite | services/whatsappService.ts:20-25 | a leading '0' becomes 41, anything else is kept, so "00" numbers start with 410 |
| WhatsApp.DigitsOfValidNumber | services/whatsappService.ts:20 | for a valid number the digits are the cleaned number without its '+' |
| WhatsApp.UrlStructure | services/whatsappService.ts:12-31 | the URL is the send endpoint, the phone digits and the encoded message, which is ASCII, free of '&', '#', '+' and space, and decodes to the message |
| WhatsApp.EncodedIsQuerySafe | services/whatsappService.ts:28-31 | the encoded text is ASCII and holds no '&', '#', '+' or space, so it stays one query parameter |
| WhatsApp.MessageContents | services/whatsappService.ts:12-17 | the message starts with "Hallo name!", contains the link, the session name or 'unser Wichteln', 🎄 and 🎁 |
| WhatsApp.InvitationContents | services/whatsappService.ts:14-15 | the middle of the message contains the session title and the link |
| WhatsApp.TreeIsEncoded | services/__tests__/whatsappService.test.ts:147-167 | the URL contains %F0%9F%8E%84 |
| WhatsApp.SwissInternationalPhone | services/__tests__/whatsappService.test.ts:7-37 | '+41791234567' gives 41791234567 |
| WhatsApp.SwissNationalPhone | services/__tests__/whatsappService.test.ts:42-59 | '079 123 45 67' gives 41791234567 |
| WhatsApp.GermanPhone | services/__tests__/whatsappService.test.ts:61-78 | '+49 170 1234567' gives 491701234567 |
| WhatsApp.ZeroZeroPrefixMisread | services/whatsappService.ts:20-25 | as written, 0041791234567 gives 41041791234567 while +41791234567 gives 41791234567 |
| WhatsApp.ZeroZeroKeepsAZero | services/whatsappService.ts:20-25 | as written, every number spelt with "00" is sent as 410 followed by its remaining digits |
| WhatsApp.ZeroZeroNumberIsValid | services/phoneValidation.ts:16-39 | 0041791234567 passes `isValidPhoneNumber` |
| WhatsApp.ZeroZeroPrefixFixed | services/whatsappService.ts:20-25 | with the corrected rule both spellings give 41791234567 |
| WhatsApp.FixedPrefixesAgree | services/whatsappService.ts:20-25 | with the corrected rule "00" and "+" give the same digits |
| WhatsApp.FixedPhoneAgreesWithNormalize | services/whatsappService.ts:20-25 | with the corrected rule a valid number written with a prefix gets the digits `normalizePhoneNumber` gives |
| ParticipantForm.Validate | components/sessions/ParticipantForm.tsx:21-36 | the first failing check's message, else the trimmed name and phone; its properties are in ValidationOrder |
| ParticipantForm.PhonePatternDecided | components/sessions/ParticipantForm.tsx:31-32 | the regular expression matches iff, after an optional leading '+', eight or more characters of `[0-9\s()-]` remain |
| ParticipantForm.ValidationOrder | components/sessions/ParticipantForm.tsx:21-36 | name, then phone present, then phone pattern, first failure only; success iff all pass, with the trimmed values |
| ParticipantForm.Form.HandleSubmit | components/sessions/ParticipantForm.tsx:16-46 | `onAdd` gets the trimmed pair only if every check passes; fields cleared only after it succeeds; the error shown; `loading` false at the end |
| ParticipantForm.Form.constructor | components/sessions/ParticipantForm.tsx:11-14 | the form starts empty, not loading, with no error |
| ParticipantForm.FormRuleImpliesWellFormed | components/sessions/ParticipantForm.tsx:31 | what the form accepts is well formed for `isValidPhoneNumber`, and valid there with 7 to 15 digits |
| ParticipantForm.FormRuleAcceptsNoDigits | components/sessions/ParticipantForm.tsx:31-36 | eight or more brackets pass the form and reach `onAdd`, though `isValidPhoneNumber` rejects them |
| ParticipantForm.SubmitError | components/sessions/ParticipantForm.tsx:41-42 | maps a validation failure or rejection to the message shown |
| I18n.BrowserLanguage | i18n.ts:24 | the first entry's language, lower-cased; its properties are in OnlyFirstEntryCounts and RegionAndCaseIgnored |
| I18n.GetLocale | i18n.ts:9-32 | the result is always one of de, fr, it, en |
| I18n.RequestLocale | i18n.ts:34-40 | the locale of the request configuration is always supported |
| I18n.CookieWins | i18n.ts:11-16 | a supported cookie is returned whatever the header says (read directly off the definition) |
| I18n.HeaderDecides | i18n.ts:19-31 | without a supported cookie the first entry's language is returned if supported, otherwise 'de'; no header gives 'de' (an unfolding of the definition) |
| I18n.OnlyFirstEntryCounts | i18n.ts:24 | entries after the first ',' never matter |
| I18n.RegionAndCaseIgnored | i18n.ts:24 | the region after '-' and ASCII case never matter |
| I18n.LowerLanguageAlone | i18n.ts:24 | a language tag without ',' or '-' resolves to its lower-case form |
| I18n.WeightedFirstEntryFallsBack | i18n.ts:24-25 | 'fr;q=0.9,en' resolves to 'de' |
| I18n.GermanHeaderExample | i18n.ts:23-26 | 'de-DE,de;q=0.9,en;q=0.8' resolves to 'de' |
| I18n.SwissFrenchHeaderExample | i18n.ts:24-26 | 'FR-CH' resolves to 'fr' |
| I18n.RequestLocaleFallback | i18n.ts:36-40 | a supported request locale is kept, any other falls back to `getLocale` (an unfolding of the definition) |

## Left out

- Partner exclusion is not implemented in the source. The repository mentions partners in a test that checks a hand-written assignment (services/__tests__/drawAlgorithm.test.ts:75-78) and in the participant list, which shows a partner's name (components/sessions/WhatsAppList.tsx:189-192). `generateDerangement` never reads a partner, and `ParticipantAdmin` has no partner field (types/database.types.ts:84-92). The model follows the code.
- Distribution of the shuffle: `Math.random` and `Math.floor` are floating point. The model proves safety and termination for every oracle, not uniformity.
- `Math.random() * (i + 1)` floored is taken to lie in `[0, i]`; `Pick` caps an oracle value above `i` rather than wrapping it.
- The network call in `performDraw` (services/drawAlgorithm.ts:72-86) is left out: `PerformDraw` returns the request body it would send.
- Supabase client construction, JSON body parsing and the `catch` branches of both routes are left out. Each `console.error` is left out too.
- `Promise.all` runs the assignment writes concurrently. The model performs them in order. For a request whose givers are distinct (`DrawRoute.DistinctGivers`), each write touches only the rows of its own giver, so the final table is the same. The route does not check that givers are distinct. With a repeated giver the model keeps the receiver of that giver's last write, while in the source it depends on which concurrent update commits last.
- DrawRoute.Post: the `details` field of the 500 response isn't modelled; the response carries only the status and the error text.
- The route's writes are Supabase updates filtered by id, so the model updates every row with a matching id. No prior-status guard exists in the source, and none is modelled.
- `reveal_viewed_at` is missing from the generated types (types/database.types.ts:42-53). The route reads and writes it, so the participant row carries it.
- `openWhatsApp` (services/whatsappService.ts:37-39) only calls `window.open` and is left out.
- `COUNTRY_CODES` (services/phoneValidation.ts:144-160) is a display table used by the UI and is left out.
- The UI components (WhatsAppList, SlotMachineReveal and the rest), middleware and authentication are not part of this model.
- In the form, the `disabled` prop and the rendering aren't modelled. `onAdd` is modelled as its outcome: resolve, reject with an `Error`, or reject with another value.
- The I/O of i18n.ts is left out: `cookies()`, `headers()`, and the dynamic import of the message files and the time zone in the returned configuration. The cookie and header values are parameters.
- JsString.ToLowerAscii: lowercases ASCII letters only, where JavaScript's `toLowerCase` maps all of Unicode. No non-ASCII character lowercases to a string in de/fr/it/en, so locale resolution is unaffected.
- Characters are Unicode scalar values, so `encodeURIComponent`'s URIError on a lone surrogate cannot arise in the model. Where the source compares a `.length` that can see non-ASCII text (the at-most-10 rule of `normalizePhoneNumber`), the model counts UTF-16 code units with `JsString.Utf16Length`. The other `.length` checks and the `{8,}` of the form only ever see ASCII digits or BMP characters, so their counts agree.
- The test file for the WhatsApp service writes the emojis garbled (services/__tests__/whatsappService.test.ts:38-39). The model follows the service's template: U+1F384 and U+1F381.
- Only the phone vectors that have their own `...Example`, `...Clean` or `...Phone` lemma are proved as literals. These are PhoneValidation.SwissNationalExample, SwissNationalClean, SwissInternationalExample, GermanZeroZeroExample, CustomCountryCodeExample, TooLongExample and RejectedExamples, and the WhatsApp phone vectors. The other vectors of services/__tests__/phoneValidation.test.ts are not proved as literals, because unfolding them is too costly. Examples are `isValidPhoneNumber('+1 555 123 4567')`, `'+41-79-123-45-67'`, `'+41(79)1234567'`, `normalizePhoneNumber('+41 (79) 123-45-67')` and `detectCountryCode('+1 555 123 4567')`. They follow from these general lemmas:
  - validity: ValidPhoneNumberShape and SeparatorsAreIgnored;
  - normalisation: InternationalNormalizes, NationalNormalizes and ZeroZeroNormalizes;
  - detection: DetectsWrittenCode.

## Findings

| source | as written | input that shows it | evidently intended | confidence | as-written member | corrected member |
|---|---|---|---|---|---|---|
| services/whatsappService.ts:20-25 | after the non-digits are removed, any leading '0' becomes "41", including the first '0' of the international prefix "00" | "0041791234567", which `isValidPhoneNumber` accepts, is sent as phone 41041791234567, while "+41791234567" is sent as 41791234567 | "00" is the international prefix, as in `normalizePhoneNumber`, and is dropped; only a single national '0' becomes 41 | not executed | WhatsApp.ZeroZeroPrefixMisread | WhatsApp.WhatsAppPhoneFixed (WhatsApp.FixedPrefixesAgree, WhatsApp.FixedPhoneAgreesWithNormalize) |
