# tatakai-api identifier layer and fetch retry, in Dafny

A verified model of the parts of tatakai-api's watchanimeworld scraper that
every route depends on, plus its CORS origin list:

- **Language labels** (`LANGUAGE_MAP`, `normalizeLanguage`). A scraped
  label is lowercased and trimmed, then looked up in a twelve-entry table.
  On a miss the result is a fallback entry that keeps the caller's text, has
  code `"und"`, and is a dub unless the key is `japanese` or `jpn`.
- **Episode identifiers** (`parseEpisodeUrl`). Input is a bare slug such as
  `naruto-shippuden-1x1` or a full `http…` URL whose path ends in
  `/episode/<slug>` or `/episode/<slug>/`. The slug splits into anime slug,
  season and episode by the pattern `^(.+?)-(\d+)x(\d+)$`. Output is a parsed
  record or nothing.
- **Fetch with retry** (`fetchWithRetry`). At most `retries` attempts. A
  2xx, 206 or 302 response is returned. So is a 4xx other than 429, except
  404, which throws. Every other outcome is recorded, and the loop sleeps
  `2^i * 500` ms before the next attempt, except after the last. When the
  attempts run out, the last recorded failure is thrown.
- **CORS origins** (`parseOrigins`). Returns `["*"]` for the wildcard.
  Otherwise it returns the comma-separated entries, trimmed, with blank ones
  dropped.

Modules:

- `JsText` (`js_text.dfy`) holds the JavaScript string behaviour the code
  relies on: `trim` with ECMAScript's white-space and line-terminator set,
  `toLowerCase` (for the characters whose lower case is ASCII), `startsWith`, `split`/`join` on one character, and
  `parseInt(…, 10)`.
- `Language` (`language.dfy`), `EpisodeUrl` (`episode_url.dfy`), `Retry`
  (`fetch_retry.dfy`) and `Cors` (`cors.dfy`) model the four operations.

`new URL(…).pathname` is a parameter `pathnameOf: string -> Option<string>`,
where `None` stands for a constructor that throws. The network is a
parameter `network: nat -> Attempt`, the outcome of the `i`-th `fetch` call
(a response, or a rejection such as the timeout). `FetchWithRetry` mirrors
the loop statement by statement. Its result, the delays it would sleep and
its number of fetches are proved equal to `Expected`, a declarative
description of a whole run. The properties of the loop are proved about
`Expected`.

Behaviours of the code worth knowing, all modelled as written:

- An unmapped label gets the code `"und"`.
- Season and episode `0` are accepted, because `\d+` matches `0`.
- The table's own `"und"` entry is not a dub.
- A 404 is retried, although the comment at
  `src/routes/watchanimeworld/index.ts:133` says it should not be (see
  Findings).
- A bare slug may hold `/`, because the slug pattern's `.` accepts it:
  `a/b-1x1` is accepted. Its canonical URL does not parse back to the same
  record, because the path pattern's segment excludes `/`.
- A slug that starts with `http`, such as `httpx-1x1`, is taken for a URL
  and goes through the URL parser. `new URL` throws on it, since it has no
  scheme, so the result is nothing. In the model the parser is a parameter,
  and `EpisodeUrl.HttpLookingSlugNeedsUrlParser` states the outcome for a
  parser that throws.

## Model

| member | source | states |
|---|---|---|
| JsText.Trim | src/routes/watchanimeworld/index.ts:65 | `trim` result has no leading or trailing white space or line terminator, and is an infix of the input with only such characters removed around it |
| JsText.TrimPadded | src/routes/watchanimeworld/index.ts:65 | trimming `p + r + q` with white-space padding `p`, `q` and trimmed `r` gives exactly `r` |
| JsText.TrimIdempotent | src/routes/watchanimeworld/index.ts:65 | trimming twice is trimming once |
| JsText.TrimKeepsOut | src/config/cors.ts:6 | trimming introduces no character that was not in the input (a trimmed piece stays comma-free) |
| JsText.Split | src/config/cors.ts:6 | `split(",")` always yields at least one piece (`"".split(",")` is `[""]`) |
| JsText.SplitCount | src/config/cors.ts:6 | a split yields exactly one more piece than there are separators |
| JsText.SplitPiecesFree | src/config/cors.ts:6 | no piece of a split holds the separator |
| JsText.SplitFree | src/config/cors.ts:6 | a string without the separator splits into itself alone |
| JsText.JoinSplit | src/config/cors.ts:6 | joining the pieces of a split with the separator restores the string |
| JsText.SplitJoin | src/config/cors.ts:6 | splitting a join of separator-free pieces restores the pieces |
| JsText.SplitConcat | src/config/cors.ts:6 | splitting `a + "," + b` is splitting `a` followed by splitting `b` |
| JsText.NatToDecimal | src/routes/watchanimeworld/index.ts:138 | the decimal rendering of a status is a digit string without leading zeros whose value is the status |
| JsText.LeadingZeroIgnored | src/routes/watchanimeworld/index.ts:99-100 | a leading `0` does not change a digit string's decimal value |
| JsText.ParseInt10ReadsDigitPrefix | src/routes/watchanimeworld/index.ts:99-100 | `parseInt(s, 10)` reads only the leading digits: digits followed by any non-digit give the digits' value, whatever comes after |
| JsText.ToLowerOnlyFoldsCase | src/routes/watchanimeworld/index.ts:65 | the modelled `toLowerCase`, restricted to characters whose lower case is ASCII, keeps the length, changes only `A`-`Z` and the KELVIN SIGN, produces only lower-case ASCII letters where it changes anything, and is idempotent |
| JsText.ParseInt10OfDigits | src/routes/watchanimeworld/index.ts:99-100 | `parseInt(s, 10)` of a digit string is its decimal value (never NaN) |
| Language.LookupKeyIsNormal | src/routes/watchanimeworld/index.ts:65 | the lookup key `lang.toLowerCase().trim()` is trimmed, lower case, and its own lookup key |
| Language.TableFacts | src/routes/watchanimeworld/index.ts:46-59 | the table has `japanese` and `und` and not `jpn`; every entry's code is one of the twelve codes; an entry's code is `und` iff its key is `und`; an entry is not a dub iff its key is `und` or `japanese` |
| Language.NormalizeLanguage | src/routes/watchanimeworld/index.ts:46-71 | total; a key in the table gives that entry; a miss keeps the caller's text as name with code `"und"`; the code is always one of the twelve known codes; the code is `"und"` iff the key misses or is `"und"`; not a dub iff the key is `japanese`, `jpn` or `und` |
| Language.LookupKeyOfPadded | src/routes/watchanimeworld/index.ts:65 | the lookup key of a lower-case trimmed word, spelled in any letter case and padded with white space, is the word |
| Language.TableHitIgnoresCaseAndPadding | src/routes/watchanimeworld/index.ts:64-66 | every table key matches in any letter case with any white-space padding (`" HINDI "` gives Hindi) |
| Language.KeyIsLowerWord | src/routes/watchanimeworld/index.ts:47-58 | every table key is a non-empty run of lower-case ASCII letters, so lowercasing and trimming leave it alone |
| Language.NameCapitalisesKey | src/routes/watchanimeworld/index.ts:47-57 | every display name other than "Unknown" is its key with the first letter in upper case |
| Language.CapitalisedNameLooksUpItsKey | src/routes/watchanimeworld/index.ts:47-65 | looking up a display name other than "Unknown" finds that name's own key |
| Language.UnknownNameIsUnmapped | src/routes/watchanimeworld/index.ts:58-70 | the name "Unknown" of the `und` entry misses the table and comes back as `("Unknown", "und", dub)` |
| Language.NameIsStable | src/routes/watchanimeworld/index.ts:46-71 | normalising a result's name again gives the same result iff the key was not `"und"` (the name `"Unknown"` is not a key) |
| Language.Unmapped | src/routes/watchanimeworld/index.ts:66-70 | a miss is exactly `(lang, "und", key is neither japanese nor jpn)` |
| Language.PaddedUppercaseHindi | src/routes/watchanimeworld/index.ts:47-66 | `" HINDI "` normalises to `("Hindi", "hi", dub)` |
| Language.JapaneseIsNotADub | src/routes/watchanimeworld/index.ts:55 | `"japanese"` normalises to `("Japanese", "ja", not a dub)` |
| Language.KelvinSignIsK | src/routes/watchanimeworld/index.ts:65-66 | a label spelled with the KELVIN SIGN for its `k` (`"\u212Aorean"`) lowercases to `korean` and gives the Korean entry |
| Language.UnmappedLabels | src/routes/watchanimeworld/index.ts:66-70 | `"Klingon"` gives `("Klingon", "und", dub)`; `" JPN"` gives `(" JPN", "und", not a dub)` |
| EpisodeUrl.MatchSlug | src/routes/watchanimeworld/index.ts:95-98 | a match splits the slug as `anime + "-" + digits + "x" + digits` with a non-empty anime part free of line terminators |
| EpisodeUrl.MatchSlugComplete | src/routes/watchanimeworld/index.ts:95-98 | every slug of that shape matches, with exactly those three groups (the decomposition is unique) |
| EpisodeUrl.MatchEpisodePath | src/routes/watchanimeworld/index.ts:86-88 | a match means the path is `prefix + "/episode/" + segment + ("" or "/")` with a non-empty slash-free segment, which is the result |
| EpisodeUrl.MatchEpisodePathComplete | src/routes/watchanimeworld/index.ts:86-88 | every path of that shape matches and yields its segment |
| EpisodeUrl.FromSlugIffMatch | src/routes/watchanimeworld/index.ts:95-110 | building the record from a slug succeeds iff the slug matches the pattern, and then gives the slug and full URL it was given with the groups' anime part and decimal values |
| EpisodeUrl.NaNGuardUnreachable | src/routes/watchanimeworld/index.ts:99-102 | after the slug pattern matched, the `isNaN` guard never rejects, and season and episode are the digit groups' values |
| EpisodeUrl.ParseEpisodeUrl | src/routes/watchanimeworld/index.ts:78-115 | a result has a slug of the pattern's shape whose numbers are season and episode (both at least 0); a bare slug keeps the input as slug and builds the canonical `https://watchanimeworld.in/episode/<slug>/`; a URL keeps itself as full URL and takes its slug from the path's episode segment; a URL the parser rejects gives nothing |
| EpisodeUrl.BareSlugAccepted | src/routes/watchanimeworld/index.ts:90-110 | a non-URL slug of the pattern's shape parses to exactly its parts and the canonical URL |
| EpisodeUrl.BareSlugRejected | src/routes/watchanimeworld/index.ts:95-96 | a non-URL input of no such shape gives nothing |
| EpisodeUrl.UrlAccepted | src/routes/watchanimeworld/index.ts:84-110 | a URL whose path has an episode segment of the pattern's shape parses to that slug, its parts and the URL itself |
| EpisodeUrl.UrlWithoutEpisodePathRejected | src/routes/watchanimeworld/index.ts:86-87 | a URL whose path has no episode segment gives nothing |
| EpisodeUrl.SlugRoundTrip | src/routes/watchanimeworld/index.ts:91-110 | building `anime-SxE` from a non-empty anime slug without line terminators and two numbers, where the built slug does not start with `http`, and parsing it gives those three values back |
| EpisodeUrl.CanonicalUrlReparses | src/routes/watchanimeworld/index.ts:84-92 | for an accepted bare slug without `/`, and a URL parser that reads the canonical URL's path as `/episode/<slug>/`, parsing the canonical URL gives the same record as parsing the slug |
| EpisodeUrl.SlashedSlugDoesNotReparse | src/routes/watchanimeworld/index.ts:86-95 | for a bare slug holding `/`, the canonical URL never parses back to the slug's record, because the path pattern's segment excludes `/` |
| EpisodeUrl.SlashedSlugAccepted | src/routes/watchanimeworld/index.ts:91-110 | the bare slug `a/b-1x1` is accepted, with anime slug `a/b` and season and episode 1 |
| EpisodeUrl.HttpLookingSlugNeedsUrlParser | src/routes/watchanimeworld/index.ts:84-85 | a built slug that starts with `http`, such as `httpx-1x1`, is parsed as a URL, and gives nothing when the URL parser throws |
| EpisodeUrl.LeadingZerosDropped | src/routes/watchanimeworld/index.ts:99-100 | `show-01x002` parses to season 1, episode 2 |
| EpisodeUrl.SeasonZeroAccepted | src/routes/watchanimeworld/index.ts:95-102 | `show-0x0` is accepted with season and episode 0 |
| EpisodeUrl.NarutoShippuden | src/routes/watchanimeworld/index.ts:91-110 | the bare slug `naruto-shippuden-1x1` parses to anime `naruto-shippuden`, season 1, episode 1 and the canonical URL `https://watchanimeworld.in/episode/naruto-shippuden-1x1/` |
| EpisodeUrl.NotAValidFormat | src/routes/watchanimeworld/index.ts:95-96 | `not-a-valid-format` gives nothing |
| Retry.ClassifyByStatus | src/routes/watchanimeworld/index.ts:128-141 | one attempt's response is handed back iff it is a 2xx, a 302, or a 4xx other than 404 and 429, and it is handed back unchanged; a rejection is recorded as itself, a 404 as the explicit Not Found error, and any other status as its status-line error |
| Retry.IntendedDiffersOnlyAtNotFound | src/routes/watchanimeworld/index.ts:133-134 | the intended classification stops the run iff the response is a 404, and differs from the written one exactly there |
| Retry.BackoffDoubles | src/routes/watchanimeworld/index.ts:145 | the first sleep is 500 ms and each later sleep doubles the one before |
| Retry.BackoffsExtend | src/routes/watchanimeworld/index.ts:144-146 | one more attempt adds one sleep at the end and changes none before it; the default budget of three attempts can sleep only 500 ms and 1000 ms |
| Retry.DefaultRunSleepsAtMostTwice | src/routes/watchanimeworld/index.ts:118-146 | whatever the network answers, a run with the default budget of three attempts sleeps at most twice, each time 500 ms or 1000 ms |
| Retry.HttpMessageCarriesStatus | src/routes/watchanimeworld/index.ts:138 | a status-line error's message starts with `HTTP `, and the status can be read back from what follows with `parseInt` |
| Retry.NotFoundMessage | src/routes/watchanimeworld/index.ts:134-138 | the explicit 404 error carries the message that a `404 Not Found` status-line error would |
| Retry.FirstDecisive | src/routes/watchanimeworld/index.ts:121-142 | finds the first attempt before the budget that is not retried, with every earlier one retried; or says every attempt in the budget is retried |
| Retry.Expected | src/routes/watchanimeworld/index.ts:118-150 | a run makes at most `retries` fetches (at least one when `retries > 0`) and sleeps `2^k * 500` ms after each but the last |
| Retry.FetchWithRetry | src/routes/watchanimeworld/index.ts:118-150 | the loop's result, recorded delays and fetch count are those of `Expected` under the source's classification |
| Retry.StopsAtFirstDecisive | src/routes/watchanimeworld/index.ts:128-136 | the run ends at the first attempt that is not retried, after `i + 1` fetches and the delays for the `i` before it |
| Retry.ExhaustionRejectsWithLastFailure | src/routes/watchanimeworld/index.ts:138-149 | when every attempt is retried, all `retries` fetches are made and the run rejects with the last failure, or with the generic error when `retries <= 0` |
| Retry.ClassifyNeverAborts | src/routes/watchanimeworld/index.ts:128-141 | as written, no response ends the loop with an error |
| Retry.ResolvesIffSomeAttemptDelivers | src/routes/watchanimeworld/index.ts:128-136 | the call resolves iff some attempt in the budget gets a response that is returned, and then resolves with the first such response after retrying all earlier ones |
| Retry.ClientErrorHandedBack | src/routes/watchanimeworld/index.ts:132-135 | a 4xx other than 404 and 429 on the first attempt is returned after one fetch and no sleep |
| Retry.SuccessHandedBack | src/routes/watchanimeworld/index.ts:128-130 | a 2xx or 302 on the first attempt is returned after one fetch and no sleep |
| Retry.AlwaysUnavailable | src/routes/watchanimeworld/index.ts:118-149 | with the default three attempts against a constant 503: three fetches, sleeps of 500 and 1000 ms, rejection with the 503 |
| Retry.NotFoundIsRetried | src/routes/watchanimeworld/index.ts:132-142 | as written, a 404 (whatever its status text) then a 200 resolves with the 200 after one 500 ms sleep and two fetches |
| Retry.NotFoundExhaustsBudget | src/routes/watchanimeworld/index.ts:132-149 | as written, a constant 404 uses every attempt and then rejects with the 404 error |
| Retry.FetchWithRetryFailFast | src/routes/watchanimeworld/index.ts:132-135 | the loop with the 404 rejecting at once follows `Expected` under the intended classification |
| Retry.IntendedNotFoundFailsFast | src/routes/watchanimeworld/index.ts:133-134 | with the intended classification, a 404 ends the run with the 404 error at that attempt; a first-attempt 404 is exactly one fetch |
| Retry.IntendedAgreesAwayFromNotFound | src/routes/watchanimeworld/index.ts:128-142 | when no attempt in the budget is a 404, the intended and the written behaviour give the same run |
| Cors.TrimAll | src/config/cors.ts:6 | `.map(trim)` keeps the number of pieces, and every result is trimmed |
| Cors.EntriesOf | src/config/cors.ts:6 | the split/trim/filter chain yields only non-empty, trimmed, comma-free entries, no more than there are comma-separated pieces |
| Cors.ParseIsEntries | src/config/cors.ts:4-6 | the wildcard test only short-cuts: every setting, `"*"` included, gives the same list as the split/trim/filter chain |
| Cors.DropEmpty | src/config/cors.ts:6 | `filter(Boolean)` keeps exactly the non-empty strings and never lengthens the list |
| Cors.ParseOrigins | src/config/cors.ts:4-7 | the wildcard gives `["*"]`; every entry is non-empty, trimmed and comma-free; no more entries than comma-separated pieces |
| Cors.AllowedIffTrimmedPiece | src/config/cors.ts:6 | for every setting, a string is an entry iff it is non-empty and the trim of some comma-separated piece |
| Cors.TrimAllMembers | src/config/cors.ts:6 | the trimmed pieces are exactly the trims of the pieces |
| Cors.EmptySettingAllowsNothing | src/config/cors.ts:6 | an empty setting gives no origins |
| Cors.DropEmptyConcat | src/config/cors.ts:6 | filtering a concatenation is concatenating the filtered parts (order is kept) |
| Cors.TrimAllConcat | src/config/cors.ts:6 | trimming every piece of a concatenation is trimming each part's pieces, in order |
| Cors.DropEmptyKeepsNonEmpty | src/config/cors.ts:6 | `filter(Boolean)` leaves a list with no empty string unchanged |
| Cors.OriginsOfConcatenation | src/config/cors.ts:4-7 | for any two settings, the wildcard included, the origins of `o1 + "," + o2` are those of `o1` followed by those of `o2` |
| Cors.PaddedEntry | src/config/cors.ts:4-7 | a single entry padded with white space gives that entry, or nothing when it is blank |
| Cors.FormatRoundTrip | src/config/cors.ts:4-7 | writing non-empty, trimmed, comma-free origins as a comma-separated setting and parsing it gives them back |
| Cors.ParseIsStable | src/config/cors.ts:4-7 | re-joining the parsed origins with commas and parsing again gives the same list |

## Left out

- Language.NormalizeLanguage: case folding covers `A`-`Z` and U+212A KELVIN SIGN, which lowercases to `k`. These are the only characters whose lower case is ASCII; U+0130 lowercases to `i` plus a combining dot and so still holds a non-ASCII character. The model leaves every other non-ASCII letter unchanged, where `toLowerCase` folds it. The key then differs from the source's, but in both readings it holds a non-ASCII character. Every table key is ASCII, so the lookup misses in both, and the result is the same: the caller's text, `"und"`, and a dub.
- JsText.ToLowerOnlyFoldsCase: the modelled `toLowerCase` folds only `A`-`Z` and U+212A. `toLowerCase` also folds every other cased letter, such as `É` to `é`, and lengthens U+0130 to two characters, which the model does not. For `normalizeLanguage` this changes no result: see the `Language.NormalizeLanguage` line above.
- JsText: a `string` is a sequence of Unicode scalar values. JavaScript strings are UTF-16 code units and can hold lone surrogates, which the model cannot represent. No modelled operation treats a surrogate specially: none is white space, a line terminator, a digit, or a letter with an ASCII lower case.
- Language.NormalizeLanguage: `LANGUAGE_MAP[normalized]` is a plain object lookup, so a key such as `constructor` finds an inherited property. The model treats the table as a map with exactly its twelve keys.
- EpisodeUrl.ParseEpisodeUrl: WHATWG URL parsing is not modelled. The pathname comes from the parameter `pathnameOf`, whose `None` is the constructor throwing.
- EpisodeUrl.ParseEpisodeUrl: season and episode are unbounded integers. JavaScript's `parseInt` loses precision above 2^53.
- EpisodeUrl.ParseEpisodeUrl: the error log written in the `catch` is not modelled.
- Retry.FetchWithRetry: `fetch`, its request options, the 30-second timeout, `setTimeout` sleeping and the warning log are not modelled. Each attempt's outcome comes from the parameter `network`, and the delays are returned rather than slept.
- Retry.FetchWithRetry: `retries` is an integer. A fractional budget is not modelled.
- Retry.FetchWithRetry: delays are exact products. `Math.pow` on floats and the timer's 2^31 - 1 ms ceiling are not modelled; they matter only past about 23 attempts.
- `getEpisodeSources` and its Supabase-backed source lookup are not part of this model (it rejects when the parse gives nothing). The TTL cache is not part of this model either.
- The route handlers and HTML scraping are not part of this model, nor are the other providers (animelok, consumet), the scripts and the documentation content.
- `cors()` middleware options (methods, headers, max age, credentials) and reading `CORS_ALLOWED_ORIGINS` from the environment are not modelled. `ParseOrigins` takes the setting as its argument.

## Findings

| source | as written | input that shows it | evidently intended | confidence | as-written member | corrected member |
|---|---|---|---|---|---|---|
| src/routes/watchanimeworld/index.ts:132-140 | a 404 throws inside the `try`, so the `catch` records it as the last error and the loop sleeps and retries | `retries = 3`, attempt 0 answers 404, attempt 1 answers 200: resolves with the 200 after a 500 ms sleep and two fetches | a 404 rejects at once after a single fetch, as the comment on the 404 branch says | not executed | Retry.NotFoundIsRetried | Retry.IntendedNotFoundFailsFast |
