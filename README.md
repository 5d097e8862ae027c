# TrendStory request validation and trend aggregation, in Dafny

This project models the decision logic of TrendStory's `GenerateStory` RPC.

- The handler `StoryServiceServicer.GenerateStory` (`trendstory/server.py`):
  - the allow-lists `VALID_REGIONS` and `VALID_THEMES`, built once at start-up; the region list is empty when the region fetch fails;
  - the fixed chain of guards that rejects a request with `INVALID_ARGUMENT` and a literal message;
  - the source-dependent fetch of trending topics, the call to the script generator, and the single opaque `INTERNAL` "Internal server error".
- The trend clients of `trendstory/logic.py`:
  - the form body posted to the scraped Google Trends endpoint;
  - `extract_json_from_response`, which scans a line-oriented response for a JSON array whose `[0][2]` field is a JSON string whose `[1]` element is the payload;
  - term extraction, which lower-cases the terms, then de-duplication by first occurrence and truncation to `top_n`;
  - the title list of `get_youtube_trending` and the code-to-name map of `fetch_youtube_regions`.

Modules, one per source file plus three for the Python built-ins the code relies on:

- `PyValues` (`py_values.dfy`): decoded JSON values, the exception classes, and Python's `v[i]`, `v[key]` and truthiness.
- `PyStrings` (`py_strings.dfy`): `str.lower`/`upper`, `strip()`, `splitlines()`, the code-point order used by `sorted()`, and `repr` of a list or set of str.
- `PyLists` (`py_lists.dfy`): `list(dict.fromkeys(xs))` and `xs[:n]`.
- `Logic` (`logic.dfy`): `trendstory/logic.py`.
- `Server` (`server.dfy`): `trendstory/server.py`.
- `ServiceScenarios` (`service_scenarios.dfy`): the request scenarios of `tests/test_service.py`, stated against the model with the same stubs and allow-lists.

External calls are parameters:
- `session.post` is `post`, returning an `HttpResponse` or an exception.
- `json.loads` is `decode`, returning `None` where Python raises.
- The YouTube `.execute()` calls are `execute`, or the response they produced.
- In the handler, the Google client, the YouTube client and the generator are three function parameters. Each returns a value or an exception.

The handler also returns the list of collaborator calls it made, with their arguments. This makes "which fetcher is called, with what, and whether anything is called at all" part of its contract.
`context.abort(code, details)` ends the handler, as it does with the test suite's context. In the model it is the returned `Abort(code, details)`.

Points where the code behaves differently from what its surface suggests, all modelled as the code does:
- A temperature of exactly 0.0 is rejected with "temperature must be provided", although 0.0 reads like a valid boundary of the range [0.0, 1.0].
- An empty source gets "source must be provided" before the membership check.
- The unreachable "top_n must be provided" guard is kept, and it is proved never to fire.
- A candidate line is any stripped line that starts with `[` and ends with `]`, whether or not it is a well-formed JSON array.
- Not every exception is absorbed by the scraped Google client. The code catches only `requests.RequestException` around the POST and the status check (trendstory/logic.py:45-50). A payload item whose first field is not a str makes `.lower()` raise AttributeError, and a truthy number payload makes the comprehension raise TypeError; both propagate to the handler, which answers INTERNAL.

## Model

| member | source | states |
|---|---|---|
| `PyStrings.Lower` | trendstory/logic.py:52 | `.lower()` keeps the length, turns each upper-case letter into its lower-case partner (code point + 32), leaves no upper-case letter and keeps every other character |
| `PyStrings.Upper` | trendstory/logic.py:43 | `.upper()` keeps the length, turns each lower-case letter into its upper-case partner (code point - 32), leaves no lower-case letter and keeps every other character |
| `PyStrings.Strip` | trendstory/logic.py:28 | `strip()` returns a slice of the line that neither starts nor ends with whitespace, and everything it removed is whitespace |
| `PyStrings.SplitLines` | trendstory/logic.py:27 | `splitlines()` yields lines that contain no line-boundary character, and never more lines than characters |
| `PyStrings.SplitLinesCons` | trendstory/logic.py:27 | a boundary-free first line followed by "\n" becomes the first line on its own, and the rest is split independently |
| `PyStrings.SplitLinesEmpty` | trendstory/logic.py:27 | only the empty text has no lines: any non-empty text, even a lone boundary, yields at least one |
| `PyStrings.SplitLinesOne` | trendstory/logic.py:27 | a non-empty text without a boundary is one line, itself |
| `PyStrings.SplitLinesAt` | trendstory/logic.py:27 | a boundary-free first line followed by any boundary ("\n", "\r" not followed by "\n", "\v", "\f", "\x1c"-"\x1e", "\x85", "\u2028", "\u2029") is split off on its own, and the rest is split independently |
| `PyStrings.SplitLinesCRLF` | trendstory/logic.py:27 | "\r\n" after a boundary-free first line is one boundary: the line is split off and the rest is split independently (with the last three rows these determine `splitlines()` on every text) |
| `PyStrings.Sorted` | trendstory/server.py:67 | `sorted()` of the region set lists every member exactly once, in ascending code-point order |
| `PyStrings.ListRepr` | trendstory/server.py:67 | definition of `repr` of a list of str inside the f-string; specified by `ServiceScenarios.TestRegionMessage` |
| `PyStrings.SetRepr` | trendstory/server.py:74 | definition of `repr` of a set of str inside the f-string, `set()` when empty; specified by `ServiceScenarios.TestThemeMessage` |
| `PyValues.Truthy` | trendstory/logic.py:51 | definition of the truth test behind `... or []`; specified by `Logic.TrendTerms` and `Logic.PayloadTopTermsSpec` |
| `PyValues.Subscript` | trendstory/logic.py:32-33 | definition of `v[i]` on decoded JSON (IndexError, KeyError and TypeError as None); specified by `Logic.FirstPayloadIsFirstSuccess` through `Logic.Attempt` |
| `PyValues.GetItem` | trendstory/logic.py:64 | definition of `v[key]` on decoded JSON (KeyError, TypeError), also used at trendstory/logic.py:111; specified by `Logic.TitlesOf`, `Logic.TrendingTitles` and `Logic.RegionEntries` |
| `PyLists.FromKeys` | trendstory/logic.py:53 | `list(dict.fromkeys(terms))` has no repeated term and holds exactly the terms of its input |
| `PyLists.FromKeysFirstOccurrenceOrder` | trendstory/logic.py:53 | the de-duplicated terms come in the order of their first occurrence in the input |
| `PyLists.FromKeysLength` | trendstory/logic.py:53 | there are as many de-duplicated terms as distinct input terms |
| `PyLists.SliceTo` | trendstory/logic.py:53 | `[:top_n]` is a prefix, of length min(top_n, length) for a non-negative top_n |
| `Logic.GooglePayload` | trendstory/logic.py:43-44 | definition of the form body; specified by `Logic.PayloadRoundTrip` and `Logic.PayloadIdentifiesRegion` |
| `Logic.PayloadRoundTrip` | trendstory/logic.py:43-44 | the POST body `f.req=[[[i0OFE,"[null,null,'<GEO>',0,null,48]"]]]` carries exactly the upper-cased region code, which reads back from it |
| `Logic.PayloadIdentifiesRegion` | trendstory/logic.py:43-44 | two region codes produce the same body exactly when they agree after upper-casing |
| `Logic.Attempt` | trendstory/logic.py:31-33 | definition of one try block: outer decode, `outer[0][2]`, inner decode, `inner[1]`; specified by `Logic.FirstPayloadIsFirstSuccess` |
| `Logic.IsCandidate` | trendstory/logic.py:29 | definition of the candidate test `startswith("[") and endswith("]")`; specified by `Logic.NonCandidateLineIrrelevant` |
| `Logic.LinePayload` | trendstory/logic.py:28-29 | definition of what one raw line yields after `strip()` and the candidate test; specified by `Logic.FirstPayloadIsFirstSuccess` and `Logic.NonCandidateLineIrrelevant` |
| `Logic.FirstPayload` | trendstory/logic.py:26-37 | definition of the scan over the lines; specified by `Logic.FirstPayloadIsFirstSuccess` and `Logic.NonCandidateLineIrrelevant` |
| `Logic.FirstPayloadIsFirstSuccess` | trendstory/logic.py:26-37 | the scan yields None exactly when no line yields a payload; otherwise it yields the payload of the first such line in text order, and failing lines before it are skipped |
| `Logic.NonCandidateLineIrrelevant` | trendstory/logic.py:27-29 | a line that does not start with `[` and end with `]` after stripping cannot change the result, wherever it is inserted |
| `Logic.ExtractJsonFromResponse` | trendstory/logic.py:26-37 | the loop over the stripped lines, with early return and per-line exception swallowing, returns exactly the first payload of the scan, and never raises |
| `Logic.ItemTerm` | trendstory/logic.py:52 | definition of one item's contribution to the comprehension; specified by `Logic.TermsOfSpec` |
| `Logic.TermsOf` | trendstory/logic.py:52 | definition of the comprehension over the items; specified by `Logic.TermsOfSpec`, `Logic.TermsOfAppend` and `Logic.TermsOfFollowsItems` |
| `Logic.TermsOfAppend` | trendstory/logic.py:52 | the comprehension keeps item order: the terms of two item lists joined are the terms of the first followed by those of the second, and the first raising item decides |
| `Logic.FirstItem` | trendstory/logic.py:52 | the index of the first payload item whose term is t, or the number of items when there is none |
| `Logic.TermsOfFollowsItems` | trendstory/logic.py:52 | of two terms, the one that occurs first in the comprehension's output is produced by an earlier item |
| `Logic.TermsOfSpec` | trendstory/logic.py:52 | the comprehension raises exactly when a non-empty list item has a non-str first field; otherwise its terms are exactly the lower-cased first fields of the non-empty list items, at most one per item; non-list and empty items contribute nothing |
| `Logic.TopTerms` | trendstory/logic.py:53 | definition of `list(dict.fromkeys(terms))[:top_n]`; specified by `Logic.TopTermsSpec` |
| `Logic.TopTermsSpec` | trendstory/logic.py:53 | the returned terms are distinct, come from the input in first-occurrence order, and number min(top_n, number of distinct terms) |
| `Logic.TrendTerms` | trendstory/logic.py:51-52 | `extract_json_from_response(...) or []` then the comprehension: a missing or falsy payload gives no terms; for a list, an exception exactly when some item raises, and otherwise the same set of terms the items produce (their order is stated end to end by `Logic.PayloadTopTermsSpec`); a non-list gives no terms or raises; every exception is AttributeError or TypeError, never a RequestException; terms are lower-case |
| `Logic.PayloadTopTerms` | trendstory/logic.py:51-53 | definition of the terms returned for a decoded payload; specified by `Logic.PayloadTopTermsSpec` |
| `Logic.PayloadTopTermsSpec` | trendstory/logic.py:51-53 | a falsy payload, a str or a dict give `[]`; a truthy number or bool raises TypeError; a list raises AttributeError exactly when some item does, and otherwise gives distinct lower-case terms, each produced by an item, ordered by the first item producing them, with no dropped term ahead of a kept one, min(top_n, number of distinct terms) of them |
| `Logic.TopItemTermsSpec` | trendstory/logic.py:52-53 | the list case of `PayloadTopTermsSpec`: distinct, from the items, in first-item order, the first min(top_n, distinct) of them |
| `Logic.RaiseForStatus` | trendstory/logic.py:47 | raises exactly for a 4xx or 5xx status, and then a RequestException; otherwise the response is unchanged |
| `Logic.Fetch` | trendstory/logic.py:45-47 | definition of the POST followed by `raise_for_status()`; specified by `Logic.RaiseForStatus` and `Logic.GoogleTrendsSpec` |
| `Logic.TopTermsOf` | trendstory/logic.py:51-53 | definition of `(data or [])`'s terms, de-duplicated and truncated; specified by `Logic.TopTermsOfShape` and `Logic.ScanTopTermsSpec` |
| `Logic.TopTermsOfShape` | trendstory/logic.py:51-53 | no payload gives `[]`; an error is never a RequestException; returned terms are distinct, lower-case and at most top_n |
| `Logic.ScanTopTermsSpec` | trendstory/logic.py:51-53 | over the response's lines: no line with a payload gives `[]`, and otherwise the result is the `PayloadTopTerms` of the first line in text order that yields one; the terms are distinct, lower-case and at most top_n |
| `Logic.GoogleTrends` | trendstory/logic.py:39-53 | definition of the Google client's outcome; specified by `Logic.GoogleTrendsSpec` |
| `Logic.GoogleTrendsSpec` | trendstory/logic.py:39-53 | a RequestException from the POST or from the status check gives `[]`; any other exception propagates; after a successful POST, no line with a payload gives `[]`, and otherwise the result is the `PayloadTopTerms` of the first line in text order that yields one; a result error is never a RequestException; returned terms are distinct, lower-case and at most top_n |
| `Logic.GetGoogleTrendsApi` | trendstory/logic.py:39-53 | the client posts the region-scoped body, checks the status, scans the text and extracts, de-duplicates and truncates, with exactly the outcome stated by `GoogleTrendsSpec`'s function |
| `Logic.TrendingRequest` | trendstory/logic.py:57-62 | definition of the videos request; specified by `Logic.TrendingRequestCaseInsensitive` |
| `Logic.Title` | trendstory/logic.py:64 | definition of `item["snippet"]["title"]`; specified by `Logic.TitlesOf` and `Logic.TrendingTitles` |
| `Logic.TitlesOf` | trendstory/logic.py:64 | one `item["snippet"]["title"]` per item, in response order; the comprehension raises exactly when some item lacks one |
| `Logic.TrendingTitles` | trendstory/logic.py:64 | a response without `items` gives `[]`; for a list of items, an exception exactly when some item has no title, and otherwise the k-th result is `items[k]["snippet"]["title"]`, one per item |
| `Logic.GetYouTubeTrending` | trendstory/logic.py:55-64 | an error of the API call propagates unchanged (no fallback, unlike the Google client); otherwise the titles of its response are returned |
| `Logic.TrendingRequestCaseInsensitive` | trendstory/logic.py:57-62 | two region codes select the same videos request exactly when they agree after upper-casing, and, for the ASCII case mapping (see Left out), a code and its lower-cased form always do |
| `PyStrings.UpperOfLower` | trendstory/logic.py:60 | for the ASCII case mapping (see Left out), `s.lower().upper()` equals `s.upper()` |
| `Logic.RegionEntry` | trendstory/logic.py:110-113 | definition of one item's (`snippet.gl`, `snippet.name`) entry; specified by `Logic.RegionEntries` and `Logic.RegionMapOf` |
| `Logic.RegionEntries` | trendstory/logic.py:110-113 | each item contributes its (`snippet.gl`, `snippet.name`) pair in order; the comprehension raises exactly when some item lacks one or has an unhashable code |
| `Logic.ToDict` | trendstory/logic.py:110-113 | definition of inserting the entries into a dict in order; specified by `Logic.ToDictKeys`, `Logic.ToDictLastWins` and `Logic.ToDictLastWinsAll` |
| `Logic.ToDictKeys` | trendstory/logic.py:110-113 | the region map's keys are exactly the codes of the items |
| `Logic.ToDictLastWins` | trendstory/logic.py:110-113 | a code repeated across items maps to the name of its last item |
| `Logic.ToDictLastWinsAll` | trendstory/logic.py:110-113 | every code maps to the name of the last entry that has it |
| `Logic.RegionMapOf` | trendstory/logic.py:110-113 | the comprehension raises exactly when some item has no entry; otherwise its keys are exactly the items' codes, and each code maps to the `snippet.name` of the last item with that code |
| `Logic.FetchYouTubeRegions` | trendstory/logic.py:109-113 | an error of the API call propagates; a non-dict response raises AttributeError; a dict without `items` gives an empty map; for a list of items, an exception exactly when some item has no entry, and otherwise the keys are exactly the items' codes, each mapped to the `snippet.name` of the last item with that code |
| `Server.RegionAllowlist` | trendstory/server.py:12-17 | a failed region fetch gives the empty allow-list; otherwise a region is allowed exactly when it is a key of the fetched map |
| `Server.ValidRegions` | trendstory/server.py:12-17 | a failed fetch, a response without items, or one malformed item leaves `VALID_REGIONS` empty; otherwise it holds exactly the str codes of the items |
| `Server.RegionFetchFailureFailsClosed` | trendstory/server.py:12-17 | whatever exception the region request raised, `VALID_REGIONS` is empty |
| `Server.ThemeAllowlist` | trendstory/server.py:20-23 | a config without `themes` gives the empty set; for a list, a theme is allowed exactly when it occurs in the list |
| `Server.RegionMessage` | trendstory/server.py:67 | definition of the region rejection message over `sorted(VALID_REGIONS)`; specified by `Server.AllowListRules` and `ServiceScenarios.TestRegionMessage` |
| `Server.ThemeMessage` | trendstory/server.py:74 | definition of the theme rejection message over `VALID_THEMES`; specified by `Server.AllowListRules` and `ServiceScenarios.TestThemeMessage` |
| `Server.Validate` | trendstory/server.py:31-75 | a request passes exactly when 1 <= top_n <= 20, 0 < temperature <= 1, source is "google" or "youtube", and region and theme are non-empty and in their allow-lists; every failure is INVALID_ARGUMENT; top_n <= 0 always gives "top_n must be > 0"; "top_n must be provided" is never produced |
| `Server.ValidateFollowsGuards` | trendstory/server.py:31-75 | the handler's if-chain equals evaluating the table of its eleven guards in source order with early exit |
| `Server.PassesExactlyWhenNoGuardFires` | trendstory/server.py:31-75 | a request gets through the handler's guards exactly when none of the eleven guards fires |
| `Server.EarliestGuardDecides` | trendstory/server.py:31-75 | if guard k is the first to fire, the request fails with guard k's message whatever the later guards say |
| `Server.ThemeThenRegionRequired` | trendstory/server.py:31-36 | with top_n > 0, an empty theme gives "Theme must be provided"; with a non-empty theme, an empty region gives "Region code must be provided" |
| `Server.TemperatureRules` | trendstory/server.py:39-60 | once the earlier guards pass, 0.0 gives "temperature must be provided"; past the source and count checks, any other value outside [0, 1] gives the range message; 1.0 with everything else valid passes |
| `Server.SourceRules` | trendstory/server.py:41-50 | once the earlier guards pass, an empty source gives "source must be provided" and any other unknown source gives "source must be one of: 'google', 'youtube'", whatever the count, temperature range and allow-lists |
| `Server.AllowListRules` | trendstory/server.py:63-75 | once the earlier guards pass, an unknown region gives a message starting "region_code must be one of", before any theme check; a known region with an unknown theme gives a message starting "theme must be one of" |
| `Server.EmptyRegionsRejectAll` | trendstory/server.py:64-68 | with an empty region allow-list every request is rejected |
| `Server.ReplyFor` | trendstory/server.py:90-95 | definition of the reply for the generator's outcome: its script, or INTERNAL "Internal server error"; specified by `Server.GenerateStory` |
| `Server.GenerateStory` | trendstory/server.py:27-95 | a rejected request aborts with INVALID_ARGUMENT and its message, and calls nothing; any call made implies the request is admissible; "google" calls only the Google fetcher with (region_code, top_n), and "youtube" calls only the YouTube fetcher with max_results = top_n; the generator gets (theme, topics, temperature) and the script is its output; an exception from fetch or generate gives INTERNAL "Internal server error" and no script |
| `Server.GenerateStoryWithGoogleClient` | trendstory/server.py:78-92 | with the real Google client, the topics handed to the generator are distinct, lower-case and at most top_n <= 20 |
| `ServiceScenarios.HandleWithStubs` | tests/test_service.py:24-50 | with the tests' allow-lists and stubs, a rejected request aborts with the validation message and calls nothing, and every admitted request returns "SCRIPT" |
| `ServiceScenarios.GenerateSuccess` | tests/test_service.py:37-61 | the success request returns "SCRIPT" after calling the Google stub with ("US", 2) and the generator with ["one", "two"] |
| `ServiceScenarios.InvalidTopN` | tests/test_service.py:64-76 | top_n = 0 gives INVALID_ARGUMENT "top_n must be > 0" |
| `ServiceScenarios.MissingTheme` | tests/test_service.py:79-91 | an empty theme gives INVALID_ARGUMENT "Theme must be provided" |
| `ServiceScenarios.BadTemperature` | tests/test_service.py:94-107 | -0.1 gives the range message; the 1.2 request sets no source, so it is rejected with "source must be provided" before the range check is reached (the test checks only the code) |
| `ServiceScenarios.InvalidRegion` | tests/test_service.py:110-122 | region "ZZ" gives INVALID_ARGUMENT "region_code must be one of: ['GB', 'US']" |
| `ServiceScenarios.TestRegionMessage` | trendstory/server.py:64-68 | under the tests' allow-list the region rejection reads "region_code must be one of: ['GB', 'US']" |
| `ServiceScenarios.SortedTestRegions` | trendstory/server.py:67 | `sorted({"US", "GB"})` is ["GB", "US"] |
| `ServiceScenarios.InvalidTheme` | tests/test_service.py:125-137 | theme "tragedy" gives INVALID_ARGUMENT "theme must be one of: {'comedy', 'drama'}" (set order as in `## Left out`) |
| `ServiceScenarios.TestThemeMessage` | trendstory/server.py:71-75 | under the tests' allow-list the theme rejection reads "theme must be one of: {'comedy', 'drama'}" (set order as in `## Left out`) |
| `ServiceScenarios.FetchFailureIsInternal` | tests/test_service.py:140-157 | a Google fetcher that raises gives INTERNAL "Internal server error", and the generator is never called |
| `ServiceScenarios.InvalidSource` | tests/test_service.py:161-173 | source "invalid" gives INVALID_ARGUMENT "source must be one of: 'google', 'youtube'" |

## Left out

- `context.abort`: the model ends the handler at an abort, as the tests' context does. With the `grpc.aio` server context, `abort` is a coroutine, and the handler calls it without `await`. That behaviour is not modelled.
- `generate_story_gemini` is an opaque parameter that may raise. The environment lookup, `sys.exit`, prompt text and model configuration are not modelled.
- Network and SDK calls are parameters. Not modelled: the request headers of `make_requests_session`, the 10-second timeout, the client construction `build("youtube", "v3", developerKey=api_key)` (trendstory/logic.py:56, 108), the `part="snippet"` argument of `i18nRegions().list` (trendstory/logic.py:109), and the `YOUTUBE_API_KEY` environment lookup.
- Default arguments: `region_code="US"` and `top_n=20` of `get_google_trends_api` (trendstory/logic.py:39), `region_code="US"` and `max_results=10` of `get_youtube_trending` (trendstory/logic.py:55), and `temp=0.8` of `generate_story_gemini` (trendstory/logic.py:66). The handler passes every argument (trendstory/server.py:81, 85, 90), so the defaults are never used and the model has none.
- The YAML file read and the region fetch at import time are I/O. The model takes the loaded document and the fetched response or exception as inputs.
- `serve()`, asyncio, logging and `app.py` have no decision logic.
- `json.loads` is an uninterpreted parameter; its parser is not modelled.
- `PyStrings.Lower`, `PyStrings.Upper`: only ASCII letters change case; Python's full Unicode case mapping (including mappings that change length) is not modelled.
- `Server.Validate`: the temperature is a `real`, so NaN (which passes every guard in Python) and float32 rounding are not modelled.
- `Server.ThemeAllowlist`: Python prints `VALID_THEMES` in hash order, which varies between runs; the model lists the themes in sorted order. `PyStrings.Quote` does not model how `repr` escapes quotes, backslashes and non-printable characters.
- `Logic.ToDictKeys`: region codes are compared as JSON values. Python's `1 == 1.0 == True` key merging is not modelled. It merges only non-str keys, which the model's allow-list leaves out (next line).
- `Server.RegionAllowlist`: the model drops region codes that are not str. Python keeps them in `VALID_REGIONS` (trendstory/server.py:17). Membership of a request's str region is unchanged. `RegionMessage` does not list them, though. Python would also raise TypeError from `sorted()` on a mix of str and non-str codes (trendstory/server.py:67). That happens outside the `try`, so such a request would end with an uncaught exception instead of INVALID_ARGUMENT, and the model does not capture that.
- `Server.ThemeAllowlist`: the model drops themes that are not str. Python keeps them in `VALID_THEMES` (trendstory/server.py:23). Membership of a request's str theme is unchanged. `ThemeMessage` does not print them, though.
- `Logic.TrendingTitles`: titles are returned as decoded JSON values. `Server.GenerateStory` types the YouTube collaborator's result as a list of str, following the function's annotation.
- `ServiceScenarios` restates the requests of the test suite as proved scenarios; the suite itself is not executed.
