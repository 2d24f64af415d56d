# Rate limiter and text statistics, modelled in Dafny

This project models two small components of a JavaScript code base:

- **`RateLimiter`** (`Task3_RateLimiter/solution.js`): a per-user sliding-window
  rate limiter. It keeps a map from each user id to a log of the instants at
  which that user's requests were admitted. `isAllowed(userId)` lazily creates
  the log, drops every timestamp `t` with `now - t >= windowMs`, denies when the
  surviving log already holds `limit` entries (reporting
  `ceil((windowMs - (now - earliest)) / 1000)` seconds to wait, from the oldest
  entry), and otherwise appends `now` and admits.
- **`analyzeText`** (`Task1_TextAnalyzer/solution.js`): lower-cases a text,
  removes every character that is neither `\w` nor `\s`, splits on white-space
  runs, and returns the word count, the average word length, the distinct
  longest words in first-occurrence order, and a word-frequency map. It
  computes the total word length, from which it derives the average.

`rate_limiter.dfy` (module `RateLimiting`) holds the limiter as a class with a
mutable `users: map<UserId, seq<int>>` field and a method `IsAllowed` that
updates it. Its new state and decision are tied to a pure function `Decide` on
one user's log, and the lemmas prove the properties about `Decide` and about a
replay of many calls. `text_analyzer.dfy` (module `TextAnalysis`) holds the
normalisation and splitting as functions and the statistics as one method per
loop of the source, each proved against its specification. `AnalyzeText`
composes them.

Two behaviours of the code are kept as they are:

- The constructor (`Task3_RateLimiter/solution.js:4-8`) validates nothing, so
  the model's constructor accepts any integers. Properties that need
  `limit > 0` or `windowMs > 0` require it.
- With `limit <= 0` the purged log can be empty when the request is denied. The
  code then reads `users[userId][0]`, which is `undefined`, and reports a NaN
  wait. The model has a separate decision `DeniedNaN` for this case.

## Model

| member | source | states |
|---|---|---|
| `RateLimiting.CeilDiv` | Task3_RateLimiter/solution.js:25 | the result `q` is the ceiling of `a / d`: `(q - 1) * d < a <= q * d` |
| `RateLimiting.Purge` | Task3_RateLimiter/solution.js:18-20 | a timestamp survives exactly when it was in the log and `now - t < windowMs`, so an entry exactly `windowMs` old is dropped; the log never grows |
| `RateLimiting.RateLimiter.constructor` | Task3_RateLimiter/solution.js:4-8 | stores `limit` and `windowMs` (defaults 5 and 60000) and starts with no users |
| `RateLimiting.RateLimiter.IsAllowed` | Task3_RateLimiter/solution.js:10-36 | the decision and the user's new log are those of `Decide` on the old log (empty for a new user); every other user's log is unchanged; no log exceeds `limit`; a new user is admitted when `limit > 0` |
| `RateLimiting.ExampleUsage` | Task3_RateLimiter/solution.js:41-47 | seven requests of `"user123"` at one instant with the defaults give five admissions, then two denials each reporting 60 seconds |
| `RateLimiting.PurgeKeepsFresh` | Task3_RateLimiter/solution.js:18-20 | purging a log whose entries are all inside the window leaves it unchanged |
| `RateLimiting.PurgeDropsPrefix` | Task3_RateLimiter/solution.js:18-20 | on a sorted log, purging removes a prefix and keeps the rest in order |
| `RateLimiting.PurgeKeepsSorted` | Task3_RateLimiter/solution.js:18-20 | purging a sorted log gives a sorted log |
| `RateLimiting.PurgeTwice` | Task3_RateLimiter/solution.js:18-20 | purging at `now` and then at a later `now2` equals purging at `now2` |
| `RateLimiting.PurgeAppend` | Task3_RateLimiter/solution.js:18-20 | purging a log extended by `x` is purging the log, followed by `x` when `x` is inside the window |
| `RateLimiting.PurgeDropsStaleHead` | Task3_RateLimiter/solution.js:18-20 | a log whose first entry has expired is strictly shorter once purged |
| `RateLimiting.DecideRule` | Task3_RateLimiter/solution.js:23-35 | a request is admitted exactly when the purged log holds fewer than `limit` entries; a denial stores the purged log unchanged; an admission stores the purged log followed by `now`, one entry longer |
| `RateLimiting.DecideLeavesNoStaleEntry` | Task3_RateLimiter/solution.js:18-34 | with `windowMs > 0`, every stored timestamp satisfies `now - t < windowMs` after the call |
| `RateLimiting.DecideKeepsBound` | Task3_RateLimiter/solution.js:18-34 | a log that is empty or within `limit` stays empty or within `limit` |
| `RateLimiting.DecideKeepsSorted` | Task3_RateLimiter/solution.js:18-34 | for a sorted log with no entry after `now`, the stored log stays sorted with no entry after `now`, and its first entry is its minimum |
| `RateLimiting.FirstRequestAllowed` | Task3_RateLimiter/solution.js:13-15 | with `limit > 0`, a user without a log is admitted and its log becomes `[now]` |
| `RateLimiting.RetryHintBounds` | Task3_RateLimiter/solution.js:23-25 | on a denial whose earliest entry is not after `now`, the reported wait is at least 1 and at most `ceil(windowMs / 1000)` seconds |
| `RateLimiting.RetryHintRecovers` | Task3_RateLimiter/solution.js:18-25 | for a log within `limit`, retrying after the reported number of seconds is admitted; one second earlier the earliest entry would still be inside the window |
| `RateLimiting.DenialIsIdempotent` | Task3_RateLimiter/solution.js:18-31 | a denial consumes no quota: an immediate repeat yields the same decision and the same log |
| `RateLimiting.OnePerSecondScenario` | Task3_RateLimiter/solution.js:18-35 | with `limit = 1`, `windowMs = 1000`: admitted at 0, denied with 1 second at 500, admitted at 1000 because the boundary entry is purged |
| `RateLimiting.ReplayInvariant` | Task3_RateLimiter/solution.js:10-36 | over non-decreasing call instants, the stored log is exactly the admitted instants still inside the window at the last call, and holds at most `limit` entries |
| `RateLimiting.AdmissionBound` | Task3_RateLimiter/solution.js:10-36 | over non-decreasing call instants, at most `limit` admissions lie in the window ending at the last call |
| `TextAnalysis.ToLower` | Task1_TextAnalyzer/solution.js:9 | `A`-`Z` become the letter at the same place in `a`-`z`; every other character is left as it is |
| `TextAnalysis.Clean` | Task1_TextAnalyzer/solution.js:8-10 | the cleaned text contains only lower-case word characters and white space, and is no longer than the text |
| `TextAnalysis.CleanOneChar` | Task1_TextAnalyzer/solution.js:8-10 | a single character is kept lower-cased when it is a word or white-space character, and dropped otherwise |
| `TextAnalysis.CleanAppend` | Task1_TextAnalyzer/solution.js:8-10 | cleaning a concatenation is concatenating the cleaned parts, so cleaning acts character by character |
| `TextAnalysis.CleanIgnoresCase` | Task1_TextAnalyzer/solution.js:6-10 | texts that differ only in the case of their letters clean to the same text and have the same words |
| `TextAnalysis.CleanFixesCleanText` | Task1_TextAnalyzer/solution.js:8-10 | a text made only of lower-case word characters and white space is left unchanged by cleaning |
| `TextAnalysis.CleanIsIdempotent` | Task1_TextAnalyzer/solution.js:8-10 | cleaning twice is cleaning once |
| `TextAnalysis.Split` | Task1_TextAnalyzer/solution.js:17 | every piece is non-empty and contains no white space |
| `TextAnalysis.Words` | Task1_TextAnalyzer/solution.js:17 | every word is non-empty and contains no white space |
| `TextAnalysis.SplitKeepsNonSpace` | Task1_TextAnalyzer/solution.js:17 | the pieces, concatenated, are the current partial word followed by the non-white-space characters of the rest |
| `TextAnalysis.WordsKeepNonSpace` | Task1_TextAnalyzer/solution.js:17 | the words, concatenated, are exactly the non-white-space characters of the text, in order |
| `TextAnalysis.SplitAtSpace` | Task1_TextAnalyzer/solution.js:17 | a white-space character ends the current piece: splitting `a + [c] + b` is splitting `a` followed by splitting `b` |
| `TextAnalysis.WordsSplitAtSpace` | Task1_TextAnalyzer/solution.js:15-17 | any white-space character separates words: the words of `a + [c] + b` are the words of `a` followed by those of `b`, so runs of white space separate like one |
| `TextAnalysis.SplitReadsRun` | Task1_TextAnalyzer/solution.js:17 | a run of non-white-space characters is appended to the current word |
| `TextAnalysis.WordsOfJoin` | Task1_TextAnalyzer/solution.js:17 | splitting words joined by single spaces gives back the same words |
| `TextAnalysis.SumLengthsIsFlattenLength` | Task1_TextAnalyzer/solution.js:28-31 | the sum of the word lengths is the length of their concatenation |
| `TextAnalysis.TotalLengthCountsNonSpace` | Task1_TextAnalyzer/solution.js:17-31 | the total length of the words of a text is its number of non-white-space characters |
| `TextAnalysis.FirstIndex` | Task1_TextAnalyzer/solution.js:51-56 | the result is the index of the first occurrence of `w`, or the length when `w` does not occur |
| `TextAnalysis.LongestExists` | Task1_TextAnalyzer/solution.js:43-48 | a non-empty list of words has a word no other word is longer than |
| `TextAnalysis.TotalLength` | Task1_TextAnalyzer/solution.js:28-31 | the total is the sum of the lengths of all words |
| `TextAnalysis.MaxLength` | Task1_TextAnalyzer/solution.js:43-48 | the result is at least every word's length, is some word's length when there are words, and is 0 when there are none |
| `TextAnalysis.LongestWords` | Task1_TextAnalyzer/solution.js:51-56 | the result has no duplicates, holds exactly the words of length `maxLen`, and lists them in order of first occurrence |
| `TextAnalysis.WordFrequency` | Task1_TextAnalyzer/solution.js:61-65 | the keys are exactly the distinct words and each maps to its number of occurrences |
| `TextAnalysis.FrequenciesSumToWordCount` | Task1_TextAnalyzer/solution.js:22-65 | the frequencies of a frequency map add up to the number of words |
| `TextAnalysis.LongestOfMaxLength` | Task1_TextAnalyzer/solution.js:43-56 | the words of the maximum length are exactly the longest words, and there is one exactly when there is a word |
| `TextAnalysis.AnalyzeText` | Task1_TextAnalyzer/solution.js:1-76 | the word count is the number of words; the total length is the sum of their lengths; the longest words are the distinct words no word is longer than, in first-occurrence order, empty exactly when there are no words; the frequency map counts every word and its values add up to the word count |

## Left out

- `Date.now()` (`Task3_RateLimiter/solution.js:11`): the clock is the `now` parameter of `IsAllowed`.
- The message strings of the limiter's results (`Task3_RateLimiter/solution.js:27-35`): a result is the `Decision` datatype; its `timeLeft` is the number the message would show.
- Console output of the example driver (`Task3_RateLimiter/solution.js:46`): `ExampleUsage` returns the decisions instead.
- RateLimiter.IsAllowed: `users` is modelled as a plain map. In the code it is a JavaScript object, so for an id such as `constructor`, `toString`, `valueOf`, `hasOwnProperty` or `__proto__` the lookup at `Task3_RateLimiter/solution.js:13` finds an inherited value, no log is created, and the `filter` call at line 18 throws a TypeError; the model instead treats such an id as a new user.
- Concurrency: the code is single-threaded JavaScript and the model covers sequential calls only; the atomicity of concurrent requests for one user is not modelled.
- Timestamps, `limit` and `windowMs` are integers; JavaScript's dynamic typing (non-numeric or fractional arguments) is not modelled. User ids are strings, as JavaScript object keys are.
- AdmissionBound: states the sliding-window bound for windows ending at a call instant over one user's non-decreasing call instants; windows ending between calls and non-monotonic clocks are not covered.
- `Task2_AsyncRetryFetcher/solution.js` is not part of this model: it is an asynchronous retry loop around a random mock with timer delays.
- The average word length and its rounding to two decimals (`Task1_TextAnalyzer/solution.js:34-37`) are floating point; `Analysis` keeps the integer word count and total length it is computed from.
- ToLower: maps only `A`-`Z`. JavaScript lower-cases every Unicode letter, and a few non-ASCII letters (such as U+212A KELVIN SIGN and U+0130) lower-case to ASCII letters that would then survive cleaning; the model drops them.
- WordFrequency: the map is a plain Dafny map. In the code the counts live on a JavaScript object, so a word such as `constructor` or `__proto__` meets an inherited property and is counted differently.
- `module.exports` and the interactive `readline` harness (`Task1_TextAnalyzer/solution.js:83-102`) are I/O.
- The `includes` scan over `longestWords` (`Task1_TextAnalyzer/solution.js:53`) is modelled by sequence membership rather than a loop of its own.
