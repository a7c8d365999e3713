# The Curlfather: header completion and URL history

The Curlfather is a small interactive HTTP client (`main.py`). It asks for a
URL, some headers and some JSON fields, and posts the request. This project
models the two parts of it that are more than console I/O:

- **Header completion** (`completion.dfy`, module `HeaderCompletion`). This
  covers the fixed table `COMMON_HTTP_HEADERS` of 38 header names and the
  readline completer `completer(text, state)`. The completer keeps the
  headers whose lower-cased name starts with the lower-cased text, in table
  order, and returns the `state`-th of them, or `None` once `state` reaches
  the number of matches. The model keeps Python's list indexing:
  - a negative `state` passes the `state < len(options)` guard and counts
    from the end;
  - a state below `-len(options)` raises `IndexError`.

  All of this is pure functions and lemmas.
- **URL history** (`url_history.dfy`, module `UrlHistory`). A history is a
  list of records `{url, added_on, usage_count}`.
  - Saving a URL adds one use to its record, or appends a fresh record with
    one use.
  - A history file that is missing or is not valid JSON reads as the empty
    history.
  - The record-update loop changes the list step by step, so it is modelled
    as methods with loops. Each method is proved equal to a specification
    function, and the lemmas are about those functions.
  - The loop in the source attaches its `else` to the `if` instead of the
    `for` (see Findings). The model keeps both forms:
    - `Recorded` and `RecordUse` are the evidently intended for-else loop;
      the rest of the model uses them.
    - `RecordedAsWritten` and `RecordUseAsWritten` keep the misplaced `else`,
      with the `data` that line 77 iterates read as the loaded history `file`
      (see Left out).

The day a record is added is a parameter (`today`), not the wall clock.

## Model

| member | source | states |
|---|---|---|
| HeaderCompletion.Lower | main.py:39 | `str.lower()` on ASCII: same length, and each character is folded by itself |
| HeaderCompletion.LowerIdempotent | main.py:39 | lower-casing an already lower-cased text changes nothing |
| HeaderCompletion.MatchesIffLowerPrefix | main.py:39 | the match test holds exactly when the lower-cased text is a prefix of the lower-cased header, in both directions |
| HeaderCompletion.OptionsMembers | main.py:39 | a header is among the options iff it is in the input list and matches the text; there are never more options than headers |
| HeaderCompletion.OptionsKeepOrder | main.py:39 | the filter preserves order: options at positions i < j come from header positions p < q |
| HeaderCompletion.OptionsOfConcat | main.py:39 | filtering a concatenation is the concatenation of the filtered parts |
| HeaderCompletion.OptionsAllMatch | main.py:39 | when every header matches, the options are the whole list, in order |
| HeaderCompletion.OptionsSameMatches | main.py:39 | two texts that match the same headers produce the same options |
| HeaderCompletion.Completer | main.py:21-58 | `None` exactly when state >= number of matches; `IndexError` exactly when state < -(number of matches); any header returned is a match; for 0 <= state < matches, returns the state-th match; for -matches <= state < 0, returns the match at position matches + state, as Python's negative index does |
| HeaderCompletion.CompleterSound | main.py:8-18 | every header returned is in `COMMON_HTTP_HEADERS`, and its lower-cased name starts with the lower-cased text |
| HeaderCompletion.CompleterIgnoresCase | main.py:39 | `completer(t, s) == completer(t.lower(), s)` for every text and state |
| HeaderCompletion.CompleterOffersEveryMatch | main.py:39-58 | every matching header in the table is returned for some state 0 <= state < 38 |
| HeaderCompletion.MatchingHeadersByRows | main.py:8-18 | the matches of the table are the matches of its rows, concatenated in row order |
| HeaderCompletion.MatchingHeadersFromRows | main.py:8-18 | given the matches of each row, the matches of the whole table are their concatenation |
| HeaderCompletion.CompleterEmptyText | main.py:8-18 | the table has 38 entries; the empty text gives the i-th header for i < 38 and `None` from 38 on |
| HeaderCompletion.MatchingHeadersAuth | main.py:8-18 | "auth" matches exactly `["Authorization"]` |
| HeaderCompletion.CompleterAuth | main.py:55-58 | `completer("auth", 0) == "Authorization"`, `completer("auth", 1) is None`, and state -1 also returns "Authorization" |
| HeaderCompletion.MatchingHeadersXDashByRows | main.py:8-18 | the matches of "X-", row by row of the table: none in the first six rows, then the X- headers of the last three |
| HeaderCompletion.MatchingHeadersXDash | main.py:8-18 | "X-" matches exactly the seven X- headers, in table order |
| HeaderCompletion.CompleterXDash | main.py:55-58 | "X-" returns "X-Requested-With" at 0 and "X-API-Key" at 6; counting from the end, -1 is "X-API-Key", -2 "X-CSRF-Token" and -7 "X-Requested-With"; 7 gives `None`; -8 raises `IndexError`; lower-case "x-" gives the same result as "X-" at every state |
| UrlHistory.Bumped | main.py:79 | `usage_count += 1`: the count goes up by one; URL and date are unchanged |
| UrlHistory.IndexOfUrl | main.py:77-78 | the position of the first record whose URL equals the argument exactly; no earlier record has it; `len` when none does |
| UrlHistory.RecordUse | main.py:77-86 | the for-else loop (scan, bump the first match, break, else append once) yields exactly `Recorded` |
| UrlHistory.RecordUseAsWritten | main.py:77-86 | the loop with its `else` on the `if`, line 77's `data` read as the loaded history, yields exactly `RecordedAsWritten`: each non-matching entry appends a record to the list being iterated, and the loop visits the appended records |
| UrlHistory.Copies | main.py:82-86 | m fresh records of the URL, each with the given date and count 1 |
| UrlHistory.SaveUrl | main.py:71-89 | the written history is the loaded history (empty after a failed read) with one use recorded; after a failed read it is one record with count 1 |
| UrlHistory.LoadOrEmptyPolicy | main.py:97-103 | a missing file or malformed JSON loads as the empty history; a parsed history loads unchanged |
| UrlHistory.RecordedOnPresent | main.py:77-80 | present URL: the length is kept; the first record with the URL gets exactly one more use and keeps its URL and date; every other record is unchanged |
| UrlHistory.RecordedOnAbsent | main.py:81-86 | absent URL: the history gains exactly one record at the end, with the URL, the given date and count 1 |
| UrlHistory.RecordedKeepsWellFormed | main.py:77-86 | recording a use keeps the URLs pairwise distinct and every count >= 1 |
| UrlHistory.UsageOfConcat | main.py:77-86 | the use count of a URL in a concatenation is the sum of the parts' counts |
| UrlHistory.UsageOfUpdate | main.py:79 | replacing one record by one with the same URL changes that URL's total by the change in count, and leaves every other URL's total as it was |
| UrlHistory.RecordedCountsOneUse | main.py:77-86 | one save adds exactly one use to the saved URL and none to any other URL |
| UrlHistory.ReplayCountsUses | main.py:77-86 | after a sequence of saves, each URL's count has grown by the number of times it was saved |
| UrlHistory.ReplayKeepsWellFormed | main.py:77-86 | any sequence of saves keeps a well-formed history well-formed |
| UrlHistory.FirstSaveAfterFailedLoad | main.py:71-86 | after a failed read, saving writes exactly one record for the URL, used once |
| UrlHistory.AsWrittenAgreesExactly | main.py:77-86 | the loop with the misplaced `else` agrees with the for-else loop iff the first record already has the URL |
| UrlHistory.AsWrittenBreaksUniqueness | main.py:81-86 | with the misplaced `else`, saving a new URL into a well-formed history of two or more records creates duplicates, and credits the URL with len+1 uses instead of 1 |
| UrlHistory.UsageOfAbsent | main.py:77-78 | a URL that no record has is used zero times |
| UrlHistory.UsageOfCopies | main.py:82-86 | m fresh copies account for m uses |
| UrlHistory.AsWrittenLosesFirstUse | main.py:77-86 | with the misplaced `else`, saving into an empty history records no use; the for-else loop records one |

## Left out

- Interactive I/O is not modelled: the prompts, `int(...)` parsing of the counts, and the `readline.set_completer` / `parse_and_bind` wiring (main.py:107-128).
- `requests.post` and the printing of the response (main.py:130-135) are network calls into a library, so they are not modelled.
- File access and JSON are not modelled: `open`, `json.load` and `json.dump` (main.py:71-75, 88-89, 98-100). A read is an abstract `ReadOutcome`, and the history is returned instead of written.
- `datetime.now().strftime("%Y-%m-%d")` (main.py:84) is the parameter `today`. All records appended in one call share it, even across midnight.
- HeaderCompletion.Lower: folds ASCII letters only. Python's `str.lower` also folds non-ASCII letters (e.g. "İ" and the Kelvin sign), so `completer` on non-ASCII text is modelled weaker than Python.
- UrlHistory.RecordUse: iterates the loaded history `file`. The code as written iterates `data` at line 77 and dumps `data` at line 89; `data` is the request-body dict built at main.py:122-127, the wrong variable. Iterating a dict gives its string keys, so `entry["url"]` raises `TypeError` as soon as `data` has a field. With an empty `data`, the loop does nothing and `{}` is written back. The model follows the evident intent and leaves out that crash.
- UrlHistory.SaveUrl: returns the updated history `file` as what is written. Line 89 dumps `data` instead; the method models the evident intent.
- UrlHistory.RecordUseAsWritten: keeps the misplaced `else` of main.py:81, but iterates the loaded history `file`, to which line 82 appends, not `data`, which line 77 iterates. Under that reading the loop iterates the list it appends to, so it visits the records it appended. Those revisits follow from the reading, not from the text. They give the count of 2 on the first appended copy, and with it the `len+1` of `AsWrittenBreaksUniqueness` and the `{b, 2}` example under Findings. With `data` iterated literally, the loop raises `TypeError` once `data` has a field (see the `UrlHistory.RecordUse` line). The empty-history case of `AsWrittenLosesFirstUse` holds either way.
- `save_url` (main.py:62) and `load_urls` (main.py:91) are both defined but never called by the script.
- `load_urls` returns `file["urls"]` (main.py:100). That expects an object with a "urls" key, while `save_url` writes a bare list; on a bare list it raises `TypeError`, which is not caught. Only the failure-to-empty policy is modelled (`LoadOrEmpty`).
- The `records` / `usage_count` values are unbounded integers, as in Python.
- A `remove` command, a URL completer and certificate validation do not appear in `main.py`, so they are not part of this model.

## Findings

| source | as written | input that shows it | evidently intended | confidence | as-written member | corrected member |
|---|---|---|---|---|---|---|
| main.py:77-86 | `else` is attached to the `if`, so every non-matching record appends a fresh record. With line 77's `data` read as `file`, that record goes onto the list being iterated, which then visits it | history `[{url: "a", added_on: d, usage_count: 1}]`, saving "b": with `data` read as `file`, the result is `[a, {b, 2}]` (first use counted twice); with history `[]`, nothing is saved at all, however line 77 is read | `for ... else`: bump the first match, or append exactly one record with count 1 | high (not executed) | UrlHistory.AsWrittenAgreesExactly | UrlHistory.RecordUse |
