# REDI diacritic restoration: a Dafny model of the restorer and its gatekeeping

REDI restores the diacritics missing from Croatian, Slovene and Serbian words ("Zavrsio" becomes "Završio"). A per-language lexicon maps each lower-case token to its candidate forms with weights. An optional language model can score whole sentences to break ties between candidates.

The project covers two parts of the repository.

- `fast_redi.py`: the class `SmartCachingRestorer`. Its cache bookkeeping loads a lexicon on demand, capped at two simultaneous loads, counts the requests that use each language, and evicts idle languages. Its token algorithm records which letters are capital, lower-cases, looks each token up, optionally rescores ambiguous tokens with the scorer, and puts the capitals back. `restore_text` wraps that algorithm, and `suggest_correction` builds on `restore_text`.
- `main.py`: the per-client fixed-window rate limiter `check_rate_limit`, the choice of client address in `get_client_ip`, and the optional API-key gate `verify_api_key`.

Modules, one per file:

| file | module | models |
|---|---|---|
| `wrappers.dfy` | `Wrappers` | `Option`, `Result`, and `Outcome` (pass or fail) |
| `errors.dfy` | `Errors` | the exceptions the restorer raises, as values |
| `text.dfy` | `Text` | the Python `str` operations the code relies on: case, `isspace`, `strip`, `split`, `join`, `replace(' ', '')` |
| `case_map.dfy` | `CaseMap` | `get_uppers`, `apply_uppers` |
| `conllu.dfy` | `Conllu` | the token filter over the tokenizer's CoNLL-U output in `restore_text` |
| `restoration.dfy` | `Restoration` | `restore_diacritics_tokens` for a loaded lexicon |
| `cache.dfy` | `Cache` | the cache state, its operations as pure transitions, and the class `SmartCachingRestorer` |
| `service.dfy` | `Service` | `verify_api_key`, `get_client_ip`, `check_rate_limit`, and the class `RateLimiter` |

Each operation that updates the cache or the rate-limit storage in place is modelled twice:
- as a method of a class whose fields are the source's fields;
- as a pure transition function on the state.

The method's postcondition equates its new state, and the value it returns or raises, with the transition applied to the old state. The lemmas prove what the source promises about the transitions.

Choices that hold throughout the model:
- **Time** is an integer `now` passed to each operation.
- **Files.** The model directory is an oracle `files` that maps the path of each lexicon file that exists to its contents.
- **The tokenizer and the language model** are uninterpreted functions.
- **Weights and scores** are integers. The source maximises `0.8*lm + 0.2*tm`; the model maximises `4*lm + 1*tm`. That is the same quantity times 5, so the same candidates win.
- **Candidates** of an entry are a sequence in dictionary insertion order. Where weights or scores tie, the first maximal candidate wins, as with a stable `sorted(...)[0]` and with Python's `max`.
- **Errors.** Exceptions become `Failure` values (`Errors.Error`, `Service.HttpError`).

## Model

| member | source | states |
|---|---|---|
| Text.Lower | fast_redi.py:180 | a letter in the case table is mapped to its lower-case mate; every other character is unchanged |
| Text.Upper | fast_redi.py:169 | a lower-case letter in the table is mapped to its capital; every other character is unchanged |
| Text.UpperLower | fast_redi.py:169-180 | upper-casing the lower-case form of a capital gives the capital back |
| Text.UpperIdempotent | fast_redi.py:169 | upper-casing twice is the same as upper-casing once |
| Text.LowerString | fast_redi.py:180 | `t.lower()` keeps the length and lowers each character in place |
| Text.StripLeft | fast_redi.py:227 | only leading whitespace is removed, and the result does not start with whitespace |
| Text.StripRight | fast_redi.py:227 | only trailing whitespace is removed, and the result does not end with whitespace |
| Text.Strip | fast_redi.py:227-228 | the result neither starts nor ends with whitespace, and it is empty exactly when the input is all whitespace; `StripCutsOnlyWhitespace` states that only whitespace around the kept part is cut |
| Text.StripParts | fast_redi.py:228 | `strip()` is empty exactly when every character is whitespace |
| Text.StripEnds | fast_redi.py:227 | right-stripping a string that does not start with whitespace gives one that neither starts nor ends with whitespace |
| Text.StripCutsOnlyWhitespace | fast_redi.py:227 | `strip()` keeps a contiguous part of the input, and everything it cuts before and after that part is whitespace |
| Text.StripCut | fast_redi.py:227 | the kept part starts where `lstrip()` stopped cutting |
| Text.Join | fast_redi.py:199 | joining a single part gives that part |
| Text.Split | fast_redi.py:227-229 | `split(d)` gives at least one part; no part contains `d`; every character comes from the input; joining the parts with `d` gives the input back |
| Text.JoinHasSep | fast_redi.py:229-230 | joining two or more parts puts the separator into the result |
| Text.SplitNoSep | main.py:72 | a string without the separator splits into that string alone |
| Text.RemoveSpaces | fast_redi.py:250 | `replace(' ', '')` leaves no space, changes a string without spaces not at all, deletes an all-space string entirely, and never lengthens; with `RemoveSpacesConcat` this pins the deletion |
| Text.RemoveSpacesConcat | fast_redi.py:250 | removing spaces distributes over concatenation |
| CaseMap.UpperPositionsFrom | fast_redi.py:157 | the upper-case positions from a given index on, strictly increasing, in range, and all of them |
| CaseMap.UpperPositions | fast_redi.py:157 | a position is listed exactly when its character is upper-case; the list is strictly increasing and in range |
| CaseMap.ApplyCase | fast_redi.py:165-170 | the length is kept; listed positions inside the token are upper-cased, and positions beyond its end are ignored |
| CaseMap.GetUppers | fast_redi.py:152-159 | one position list per token, each the token's upper-case positions |
| CaseMap.ApplyUppers | fast_redi.py:162-171 | pairs lists and tokens as `zip` does, so the result has the length of the shorter input, and each result token carries its list's capitals |
| CaseMap.ApplyPositions | fast_redi.py:166-170 | the loop over one token's positions upper-cases exactly the listed positions inside the token, as `ApplyCase` states |
| CaseMap.CaseRoundTrip | fast_redi.py:157-180 | replaying a token's upper-case positions on its lower-case form gives the token back |
| Conllu.LineToken | fast_redi.py:228-231 | a line carries a token exactly when it is non-blank, not a comment, and holds a tab; the token holds no tab and only characters of the line |
| Conllu.LineTokenField | fast_redi.py:229-231 | the token is the second tab-separated field: the line is a tab-free first field, a tab, the token, and then nothing or a tab and the rest |
| Conllu.JoinSecondField | fast_redi.py:229-231 | joining two or more tab-free leading fields with tabs puts the second field after the first tab, ended by the end or a tab |
| Conllu.Present | fast_redi.py:227-231 | the present values of a list of optional values, in order: never more than there are entries |
| Conllu.PresentEmpty | fast_redi.py:227-231 | nothing is present exactly when every entry is absent |
| Conllu.PresentFrom | fast_redi.py:227-231 | every present value is the value of some entry |
| Conllu.LineTokens | fast_redi.py:227-231 | the token each line carries, if any, line by line |
| Conllu.TokensOf | fast_redi.py:227-231 | at most one token per line |
| Conllu.NoTokensExactly | fast_redi.py:227-234 | there is no token at all exactly when no line carries one |
| Conllu.TokenFromLine | fast_redi.py:229-231 | every token holds no tab, and no line break when no line holds one |
| Conllu.OutputTokensClean | fast_redi.py:227-231 | the tokens of tokenizer output hold neither a tab nor a line break |
| Conllu.TokensOfSnoc | fast_redi.py:227-231 | each further line adds its own token, if it has one, at the end |
| Conllu.ParseTokens | fast_redi.py:226-231 | the loop yields the tokens of `strip().split('\n')` in order, and none of them holds a tab or a newline |
| Conllu.ParseLine | fast_redi.py:228-231 | the loop body for one line computes exactly that line's `LineToken` |
| Conllu.BlankOutputHasNoTokens | fast_redi.py:226-234 | tokenizer output that is all whitespace yields no token |
| Restoration.FirstMaxIndex | fast_redi.py:189-192 | the index of the first maximal element: no element is larger, and every earlier one is smaller |
| Restoration.Weights | fast_redi.py:190 | the weights of the candidates, in order |
| Restoration.LowerAll | fast_redi.py:180 | each token lower-cased, count kept |
| Restoration.LookupToken | fast_redi.py:183-194 | first pass: an unknown token is kept; a single candidate is taken; with no scorer the first heaviest candidate is taken; with a scorer an ambiguous token waits |
| Restoration.LookupAll | fast_redi.py:183-194 | the first pass applied at every position |
| Restoration.HypothesisScores | fast_redi.py:198-204 | one combined score per candidate, for the sentence with that candidate at the position |
| Restoration.Rescore | fast_redi.py:196-205 | the second pass after the first `n` positions: the length is kept |
| Restoration.RestoredLower | fast_redi.py:180-205 | the tokens after both loops, before the capitals go back: `NoCandidates` when a lowered token's entry is empty, else the first pass alone without a scorer or `Rescore` over every position with one; `RestoredLowerUnambiguous`, `RestoreBestHypothesis` and `HeavierFormWins` state what it picks |
| Restoration.RestoreTokens | fast_redi.py:173-207 | fails exactly when a lowered token's entry has no candidate, and then with `NoCandidates`; otherwise one output token per input token |
| Restoration.RescoreAhead | fast_redi.py:196-205 | positions not yet reached still hold the first pass's choice |
| Restoration.RescoreSettled | fast_redi.py:196-205 | a position already rescored is not changed by later steps |
| Restoration.RescoreUnambiguous | fast_redi.py:196-205 | a position that is not ambiguous is never rescored |
| Restoration.RescoreSkip | fast_redi.py:196 | steps over positions that are not ambiguous change nothing |
| Restoration.RestoredLowerUnambiguous | fast_redi.py:183-194 | every unambiguous token, and every token when there is no scorer, keeps the first pass's choice |
| Restoration.RestoreUnknownToken | fast_redi.py:179-207 | a token not in the lexicon comes back exactly as it was, capitals included |
| Restoration.RestoreSingleCandidate | fast_redi.py:185-207 | a token with one candidate becomes that candidate, with the token's capitals put back |
| Restoration.RestoreHeaviestCandidate | fast_redi.py:188-207 | with no scorer, an ambiguous token becomes a candidate whose weight no other candidate exceeds (the first such), with its capitals put back |
| Restoration.RestoreBestHypothesis | fast_redi.py:196-207 | with a scorer, each ambiguous position takes a candidate that maximises `LM_LAMBDA*score + TM_LAMBDA*weight`; the sentence holds the final tokens before the position and the first-pass tokens after it |
| Restoration.RescoreView | fast_redi.py:196-205 | when a position is rescored, the positions before it already hold their final tokens and the positions after it still hold the first pass's choice |
| Restoration.HeavierFormWins | fast_redi.py:188-207 | for the entry `zavrsio` with candidates `završio` (weight 9) and `zavrsio` (weight 1) and no scorer, "Zavrsio" becomes `završio` with the capitals of "Zavrsio" put back |
| Restoration.RestoreOneToken | fast_redi.py:207 | a one-token input comes back as its restored form with its capitals put back |
| Restoration.RestoreDiacriticsTokens | fast_redi.py:178-207 | the method (both loops, in place) computes exactly `RestoreTokens` |
| Restoration.LookupPass | fast_redi.py:182-194 | the first loop gives the first pass and the increasing list of deferred positions, which is every ambiguous position when there is a scorer; with no scorer it fails exactly on an empty entry |
| Restoration.RescorePass | fast_redi.py:196-205 | the second loop computes `Rescore` over all positions, and it fails exactly when some entry is empty |
| Restoration.HypothesisLoop | fast_redi.py:197-204 | the innermost loop computes the combined score of every hypothesis |
| Restoration.DeferredNonEmpty | fast_redi.py:194-198 | if every deferred entry has a candidate, no looked-up entry is empty |
| Restoration.RescoreStep | fast_redi.py:205 | one rescoring step puts the best-scoring candidate at its position |
| Restoration.NoAmbiguousBetween | fast_redi.py:183-196 | no position between two consecutive deferred positions is ambiguous |
| Cache.LexiconPath | fast_redi.py:122 | the lexicon file `wikitweetweb.<lang>.tm` inside the model directory; `LexiconPathInjective` proves that no two languages share one |
| Cache.LexiconPathInjective | fast_redi.py:121 | two languages never share a lexicon file |
| Cache.Load | fast_redi.py:109-141 | no-op for a loaded language; fails with no change at the load cap; otherwise the language ends up not loading; on failure lexicons and last-use times are unchanged; a missing file gives `ModelNotFound(path)`; on success the lexicon is stored and `now` recorded; request counts never change; the invariant is kept |
| Cache.MarkUsed | fast_redi.py:143-146 | the cache invariant is kept |
| Cache.MarkDone | fast_redi.py:148-150 | the cache invariant is kept |
| Cache.MarkUsedCounts | fast_redi.py:143-146 | the last-use time becomes `now`; the count goes up by exactly 1; other languages' counts and last-use times, the lexicons and the loading set are unchanged |
| Cache.MarkDoneCounts | fast_redi.py:148-150 | the count goes down by 1 but never below 0; other counts, the lexicons, the last-use times and the loading set are unchanged |
| Cache.UsedThenDone | fast_redi.py:143-150 | marking used then done restores every request count |
| Cache.Expired | fast_redi.py:86-97 | the test of the cleanup walk: not preloaded, no active request, and idle for more than 30 s; `CleanupEvictsExactlyExpired` and `CollectExpired` are stated with it |
| Cache.CountsRead | fast_redi.py:92 | the request counts after the walk's `defaultdict` reads: a 0 stored for each walked language that is not preloaded and has no count; `CountsReadAdd` gives its step and `CollectExpired` computes it |
| Cache.Evicted | fast_redi.py:86-107 | the languages the cleanup removes: the loaded ones that are expired; `CleanupEvictsExactlyExpired` states what their removal does |
| Cache.Cleanup | fast_redi.py:80-107 | the cache invariant is kept |
| Cache.CountsReadAdd | fast_redi.py:86-93 | reading one more language's count stores a 0 for it exactly when it is not preloaded and has no count yet |
| Cache.CleanupEvictsExactlyExpired | fast_redi.py:80-107 | a loaded language is removed exactly when it is not preloaded, has no active request and has been idle more than 30 s; it is removed from all three maps at once; a language kept keeps its lexicon, last-use time and count |
| Cache.CleanupLeavesUnloaded | fast_redi.py:80-107 | languages that are not loaded are left alone, apart from the 0 count the `defaultdict` read stores; the loading set is unchanged |
| Cache.PreloadSurvivesCleanups | fast_redi.py:87-89 | no number of cleanup cycles, at any times, removes a preloaded language or changes its lexicon |
| Cache.TextTokens | fast_redi.py:223-231 | the tokens `restore_text` keeps from the tokenizer's answer for the text and the language; `OutputTokensClean`, `NoTokensExactly` and `BlankOutputHasNoTokens` describe them |
| Cache.RestoredText | fast_redi.py:233-239 | the answer once the language is in use: the text itself when there is no token, otherwise the restored tokens joined by spaces or the restoration's failure; `RestoredTextOutcome` states its outcomes |
| Cache.RestoreTextStep | fast_redi.py:209-244 | `restore_text` as a transition: reject an unsupported language, load if needed, count the request in, answer, count it out; `RestoreTextRejectsUnsupported`, `RestoreTextBalancesCounts`, `RestoreTextOutcome` and `NoLoadInProgressBetweenSteps` state its effect, and the method `RestoreText` is proved equal to it |
| Cache.RestoreIn | fast_redi.py:175-176 | `restore_diacritics_tokens` fails with `LanguageNotLoaded` exactly when the language has no lexicon; for a loaded language its only failure is `NoCandidates` |
| Cache.RestoreTextRejectsUnsupported | fast_redi.py:211-212 | an unsupported language is rejected before any state change |
| Cache.RestoreTextBalancesCounts | fast_redi.py:215-244 | after `restore_text` every request count is back to its prior value, and the invariant holds |
| Cache.RestoreTextOutcome | fast_redi.py:215-239 | when the language is loaded or loadable, it is loaded afterwards; the call succeeds unless an entry is empty; with no token it returns the text itself |
| Cache.RestoredTextOutcome | fast_redi.py:233-239 | once the language is loaded, only `NoCandidates` can fail the request, and with no token the text comes back unchanged |
| Cache.MissingModelNotLoaded | fast_redi.py:122-124 | a language whose file is missing fails with `ModelNotFound` and is not loaded afterwards |
| Cache.NoLoadInProgressBetweenSteps | fast_redi.py:109-141 | a state with no load in progress keeps none after any operation, and then no load fails for the cap |
| Cache.Suggestion | fast_redi.py:250-252 | no suggestion exactly when the restored text equals the name once spaces are removed; otherwise the restored text |
| Cache.SuggestStep | fast_redi.py:246-252 | `suggest_correction` as a transition: the state of `RestoreTextStep`, its failure passed on, or the `Suggestion` for its answer; `NoSuggestionForUnchangedTokens` states an outcome, and `SuggestCorrection` is proved equal to it |
| Cache.RemoveSpacesJoin | fast_redi.py:239-250 | tokens joined by spaces equal their concatenation once spaces are removed |
| Cache.NoSuggestionForUnchangedTokens | fast_redi.py:246-252 | a restoration that changes no token gives no suggestion, when the tokens spell the name apart from spaces |
| Cache.PreloadDefault | fast_redi.py:41 | `preload_languages or ['hr']`: a non-empty list is kept; `None` and `[]` both give `['hr']` |
| Cache.PreloadAll | fast_redi.py:60-63 | the preloading loop keeps the cache invariant |
| Cache.PreloadLoadsAll | fast_redi.py:60-63 | after a successful preload, every supported preload language is loaded |
| Cache.PreloadStopsAtFailure | fast_redi.py:60-63 | the first failed load ends the preloading: later languages are not tried |
| Cache.StatsOf | fast_redi.py:264-276 | the loaded languages, the request counts, and the elapsed seconds since each language's last use |
| Cache.UnsupportedLeavesNoStats | fast_redi.py:264-276 | a request for an unsupported language adds no trace of it to the statistics |
| Cache.SmartCachingRestorer.constructor | fast_redi.py:32-53 | the fields as `__init__` sets them before preloading, with the defaulted preload list |
| Cache.SmartCachingRestorer.Preload | fast_redi.py:59-63 | the preload loop leaves exactly the state and outcome of `PreloadAll` |
| Cache.SmartCachingRestorer.LoadLanguage | fast_redi.py:109-141 | updates the fields exactly as `Load` says and returns its outcome |
| Cache.SmartCachingRestorer.MarkLanguageUsed | fast_redi.py:143-146 | updates the fields exactly as `MarkUsed` says |
| Cache.SmartCachingRestorer.MarkLanguageDone | fast_redi.py:148-150 | updates the fields exactly as `MarkDone` says |
| Cache.SmartCachingRestorer.CleanupUnusedLanguages | fast_redi.py:80-107 | updates the fields exactly as `Cleanup` says |
| Cache.SmartCachingRestorer.CollectExpired | fast_redi.py:82-97 | the walk over `_last_used` collects exactly the expired languages, storing the 0 counts the `defaultdict` reads create |
| Cache.SmartCachingRestorer.Unload | fast_redi.py:99-107 | each listed language that is loaded leaves all three maps; nothing else changes |
| Cache.SmartCachingRestorer.RestoreDiacriticsTokens | fast_redi.py:173-207 | returns exactly `RestoreIn` of the current state |
| Cache.SmartCachingRestorer.RestoreText | fast_redi.py:209-244 | the new state and answer are exactly those of `RestoreTextStep` |
| Cache.SmartCachingRestorer.SuggestCorrection | fast_redi.py:246-252 | the new state and answer are exactly those of `SuggestStep` |
| Cache.SmartCachingRestorer.LoadedLanguages | fast_redi.py:259-262 | the loaded languages of the statistics |
| Cache.SmartCachingRestorer.Stats | fast_redi.py:264-276 | the statistics of the current state |
| Service.ApiKeyEnabled | main.py:38 | `ENABLE_API_KEY` lower-cased equals `true`, with `false` when unset; `ApiKeyEnabledValues` evaluates it on typical values |
| Service.ApiKeyEnabledValues | main.py:38 | an unset `ENABLE_API_KEY` disables the check; `TRUE` and `True` enable it; `1` and `yes` do not |
| Service.VerifyApiKey | main.py:49-60 | disabled: always True; enabled: a 403 `Invalid or missing API key` exactly when the supplied key differs from the configured one |
| Service.ConfiguredKeyRequired | main.py:54-58 | with a key configured, a missing or wrong header is refused and the right one accepted |
| Service.UnsetKeyAdmitsMissingHeader | main.py:37-54 | with the check on and no key configured, a request passes exactly when it has no key header |
| Service.HeaderValue | main.py:65-70 | `headers.get` gives the value of the first header with that name, or nothing when there is none |
| Service.GetClientIp | main.py:62-75 | a non-empty `X-Real-IP` wins; otherwise a non-empty `X-Forwarded-For` yields a comma-free, stripped address; otherwise the connection host; `ForwardedForFirstHop` and `SingleHop` give the forwarded address itself |
| Service.StripNoComma | main.py:72 | stripping a comma-free string gives a string with no comma and no whitespace at either end |
| Service.StripKeeps | main.py:72 | `strip` only removes characters |
| Service.SplitFirst | main.py:72 | the first comma-separated element is the text before the first comma |
| Service.ForwardedForFirstHop | main.py:69-72 | behind proxies, the client is the stripped first hop of `X-Forwarded-For` |
| Service.SingleHop | main.py:69-72 | behind a single proxy, a comma-free `X-Forwarded-For` gives the client as that header, stripped |
| Service.RealIpWins | main.py:65-67 | a non-empty `X-Real-IP` decides, whatever the other headers and the host say |
| Service.Limit | main.py:81-83 | 20 requests per window for `hr`, 10 for any other language |
| Service.Key | main.py:88 | the storage key `<address>:<lang>`; `KeyInjective` and `LastColon` state when two keys differ |
| Service.KeyInjective | main.py:88 | for languages without a colon, distinct address/language pairs have distinct keys, IPv6 addresses included |
| Service.LastColon | main.py:88 | in such a key the last colon ends the address |
| Service.Entry | main.py:78-91 | the `defaultdict` read: a key without an entry reads as a fresh window with count 0 starting now |
| Service.Current | main.py:91-96 | the window after the expiry check: restarted at `now` with count 0 when older than 60 s |
| Service.RateStep | main.py:85-105 | `check_rate_limit` on one key: deny a full live window, count the call in otherwise, and store the window; `RateStepFrame`, `DenialChangesNothing`, `AllowanceCounts`, `ExpiredWindowRestarts`, `RateStepBounded` and `WindowAllowance` state its effect, and `CheckKey` is proved equal to it |
| Service.RateStepFrame | main.py:88-91 | only the entry of the request's key is read or changed; it exists afterwards |
| Service.DenialChangesNothing | main.py:101-102 | a denied call leaves the storage exactly as it was: the entry existed, its window was live and full |
| Service.AllowanceCounts | main.py:94-104 | an allowed call adds exactly 1 to the current window's count, which stays within the language's limit |
| Service.ExpiredWindowRestarts | main.py:91-96 | a missing entry or a window older than 60 s restarts at `now` with count 1, and the call is allowed |
| Service.RateStepBounded | main.py:85-105 | no entry's count ever exceeds 20, whatever keys and languages are used |
| Service.WindowAllowance | main.py:85-105 | within one window, a key gets at most its limit minus the count already used, and the window's start stays fixed |
| Service.RateLimiter.constructor | main.py:78 | the storage starts empty |
| Service.RateLimiter.CheckRateLimit | main.py:85-105 | the answer and the new storage are exactly those of `RateStep` for the key of the client address and language |
| Service.RateLimiter.CheckKey | main.py:90-105 | the part after the key is built: the answer and the new storage are exactly those of `RateStep`, and no count exceeds 20 |

## Left out

- **Threads and locks.** `threading.Lock`, the cleanup thread with its 30-second sleep, and `shutdown` are not modelled; concurrency is out of scope for this model. Every operation is one atomic step. So a load of another thread is never in progress at a step's start, and `TooManyLoads` arises only from a state that carries such loads (`Cache.NoLoadInProgressBetweenSteps`).
- **File I/O.** `os.path.exists`, `open` and `pickle.load` become the `files` oracle. A file that exists but fails to unpickle is not modelled.
- **Logging.** `print` and `gc.collect` have no modelled effect.
- **Time.** `time.time()` returns floats; here it is the integer `now`. Under that assumption `int(time.time() - ts)` in `stats` is exact.
- **The tokenizer.** `reldi_tokeniser.run` is an uninterpreted function. The model does not cover it raising, which in the source would still run the `finally` clause.
- **The scorer.** `lm.score` is an uninterpreted integer function.
- **Floating point.** Weights and both λ weights are integers.
- **Character case.** Python's full Unicode case tables are replaced by a table of ASCII, Latin-1, č ć đ š ž and basic Cyrillic. Characters outside it are treated as caseless. Multi-character case mappings such as 'ß' are not modelled.
- **The `languages` property.** It returns the constant `SUPPORTED_LANGS` and has no behaviour to state.
- **`persistent`.** The `persistent` flag of `_load_language` only changes a log line, so the model drops it.
- **Construction.** The constructor is split into two steps: `constructor` sets the empty fields, and `Preload` runs the preloading loop. Starting the cleanup thread is not modelled.
- **FastAPI.** The routes, CORS, Pydantic models, the `psutil` memory check and the module-level `restorer` are not modelled. That includes the `/suggest` handler, which chains `verify_api_key`, `check_rate_limit` (429) and `suggest_correction` (500 on error).
- **Headers.** The request headers are the server's raw list with lower-case names, where the first occurrence of a name wins. `request.client` being `None` is not modelled.
- **Environment.** `REDI_API_KEY` is the `apiKey` parameter of `VerifyApiKey`. `ENABLE_API_KEY` is its `enabled` parameter, which `ApiKeyEnabled` computes from the variable.
- Service.KeyInjective: keys are proved distinct only for languages without a colon. The source does not validate `lang`, so a language such as `b:hr` can share a key with another pair, and the entry then takes the limit of whichever language calls. `Service.RateStepBounded` still bounds every count by 20; the per-language bound is proved for one key used by one language (`Service.WindowAllowance`).
- Cache.Load: the nominal promise is that the language is never in `_loading_languages` after the call. That is proved only when the cap is not reached. At the cap, the source raises before its `try`, so its `finally` never runs, and a language already being loaded elsewhere stays in the set.
- **Behaviour of the code that is easy to miss:**
  - two simultaneous loads of the same language are not merged;
  - `_load_language` reads the lexicon while holding `_lock`;
  - ties between equal candidates go to the first candidate in dictionary order;
  - `_mark_language_used` does not check that the language is loaded.
