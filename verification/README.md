# KHL player-statistics bot: a verified model of its core

`khl_bot.py` is a Telegram bot. It answers a player's name with a card of that
player's season statistics, taken from the KHL table on allhockey.ru. This project
models the four pieces of decision logic behind that answer:

- **Refresh cache** (`cache.dfy`, module `RefreshCache`). `fetch_table_rows` keeps a
  process-wide memo `{ts, rows}`. The memo is served, with no request, while it holds
  rows and is younger than 60 seconds. Otherwise the page is fetched and parsed, and
  the memo is replaced only when a table was found. The memo is the class `Cache`,
  with fields `ts` and `rows`. Its method `FetchTableRows` takes the clock reading
  `now` and the outcome of the HTTP request as inputs. It is proved against the pure
  transition `Refresh`, and the lemmas about the cache are stated on `Refresh`.
- **Row extractor** (`extractor.dfy`, module `Extractor`). The parsed page is a
  sequence of tables. Each table has its header texts and its rows; each row is a
  sequence of cells. A cell has its stripped text and an optional anchor, which has
  a text and an optional href.
  - Table selection is the first table carrying both the "Игрок" and the "Команда"
    headers. Failing that, it is the first table. A page with no tables yields
    nothing.
  - Rows with fewer than ten cells are skipped. Every other row becomes a 14-field
    `PlayerRecord`, read by fixed column.
  - The player and team names prefer the anchor's text.
  - The profile link is the player anchor's href. A root-relative href is made
    absolute against `https://allhockey.ru`.
  - Both loops of the source (the table search with its `break`, and the row loop
    with its `continue`) are methods proved equal to recursive specification
    functions.
- **Name matcher** (`matcher.dfy`, module `Matcher`). `find_best_matches` works in
  five steps:
  1. It scores the rows whose names `difflib.get_close_matches` proposes, using
     `SequenceMatcher.ratio`.
  2. It adds, at 0.99, every row whose lower-cased name contains the lower-cased
     query, unless an equal record is already scored.
  3. It sorts stably by score, best first.
  4. It keeps the first entry per name.
  5. It truncates the result to `limit`.

  The two `difflib` routines are function-valued parameters. Python's stable
  `list.sort` is modelled by an insertion sort, proved to be a permutation, ordered
  and stable. The method `FindBestMatches` runs the source's three loops and is
  proved equal to the pure pipeline `BestMatches`, about which the shape lemmas are
  stated.
- **Formatter** (`formatter.dfy`, module `Formatter`). `_rus_pos` and
  `format_player_card` assemble the card, in this order:
  1. four fixed lines;
  2. a " | "-joined line of the optional statistics that are present;
  3. a profile link when there is a URL.

  `FormatPlayerCard` joins the lines with newlines. The card's layout is proved by
  splitting the card back into lines, for records whose fields hold no newline.

Support modules: `wrappers.dfy` (`Option`, `Result`), `records.dfy` (`PlayerRecord`),
and `text.dfy`. The last models the Python string operations the source uses: `strip()`
with Python's whitespace set, `lower()`, the substring `in`, `str.join` and a split
used to read joined text back.

Points where the model follows the code rather than its documentation:

- The key for forwards in `_rus_pos` is the Latin capital `H` (U+0048), not the
  Cyrillic `Н`. A Cyrillic `Н` therefore passes through unchanged. The model keeps
  the Latin key and proves that pass-through in `CyrillicEnPassesThrough`.
- A row found by both passes keeps its fuzzy ratio, even when that ratio is below
  0.99. The rescue pass skips records that are already scored; it does not compare
  scores. So a substring hit is not "0.99 unless higher": a lower fuzzy ratio wins.
- The rescue pass compares each row with the growing list, which includes its own
  earlier additions. Two equal records in `rows` are therefore added once.
- An optional statistic is `""` when the row is too short to have its column. A row
  that has the column but an empty cell also gives `""`. So "empty" does not imply
  "short row", and `ExtractRow` states the rule in the code's direction only.
- A record's name is not required to be non-empty. The code stores whatever the cell
  holds.
- The label "Апмлуа" is kept as the source spells it.

## Model

| member | source | states |
|---|---|---|
| Text.Strip | khl_bot.py:20 | the result is no longer than the input and has no leading or trailing Python whitespace |
| Text.StripDropsSpace | khl_bot.py:20 | `strip()` returns a contiguous slice of its input, and only whitespace lies outside it |
| Text.StripOfStripped | khl_bot.py:20 | a string with no whitespace at either end is returned unchanged |
| Text.StripIdempotent | khl_bot.py:20 | stripping twice equals stripping once |
| Text.Lower | khl_bot.py:94 | `lower()` keeps the length; every capital (Basic Latin, Latin-1, basic Cyrillic) becomes a different, non-capital character, every other character is kept, and no capital is left |
| Text.LowerIdempotent | khl_bot.py:97 | lower-casing twice equals lower-casing once |
| Text.SplitJoin | khl_bot.py:128 | a non-empty list of parts joined with a separator character splits back into the same parts, when no part holds the separator |
| Extractor.FirstStatsTable | khl_bot.py:33-37 | the result is the least index of a table with both "Игрок" and "Команда" headers, or none when no table has both |
| Extractor.TargetTable | khl_bot.py:32-42 | the target is the first table with both headers; otherwise the first table; on a page without tables, none |
| Extractor.SelectTarget | khl_bot.py:32-42 | the search loop with `break` and its fall-back choose exactly `TargetTable` |
| Extractor.CellName | khl_bot.py:49-51 | no contract of its own: the anchor's text when the cell has an anchor, else the cell's text; `ExtractRow` states it for the name and team fields |
| Extractor.OptionalText | khl_bot.py:59-62 | no contract of its own: the text of an optional column, or `""` on a short row; `ExtractRow` and `FullRowFillsOptionalFields` state it per field |
| Extractor.ProfileUrl | khl_bot.py:64-66 | no contract of its own: the player anchor's href made absolute, or `""`; `ExtractRow` states it for the url field |
| Extractor.AbsoluteUrl | khl_bot.py:65-66 | an href starting with "/" gets "https://allhockey.ru" in front, any other is kept, and the result never starts with "/" |
| Extractor.ExtractRow | khl_bot.py:49-83 | each field comes from its fixed column; names prefer anchor text; columns 10-13 give `""` when the row is too short; the url is the anchor's href made absolute, or `""` without an anchor or href |
| Extractor.TableRecords | khl_bot.py:44-48 | no more records than rows, and no record's url is root-relative |
| Extractor.TableRecordsAppend | khl_bot.py:45-83 | extraction distributes over concatenation of rows, so records come out one per data row in document order |
| Extractor.TableRecordsOfRow | khl_bot.py:45-48 | a row with fewer than ten cells contributes nothing; any other row contributes exactly its record |
| Extractor.FullRowFillsOptionalFields | khl_bot.py:59-62 | a fourteen-cell row fills pim, fo_w, fo_pct and toi from cells 10 to 13 |
| Extractor.ExtractRows | khl_bot.py:44-83 | the row loop with `continue` returns exactly `TableRecords` of the target's rows |
| RefreshCache.Serves | khl_bot.py:24 | no contract of its own: the memo is non-empty and less than 60 s old; `Refresh` and `EmptyMemoFetches` use it as the hit rule |
| RefreshCache.Refresh | khl_bot.py:22-86 | a fetch happens iff the memo is empty or at least 60 s old; a hit returns the memo unchanged; a failure or a page without tables leaves the memo unchanged; a parse replaces both fields with `(now, rows)` |
| RefreshCache.ReplacedTogether | khl_bot.py:84-85 | the memo either stays as it was or has both fields replaced by a successful parse stamped with `now` |
| RefreshCache.HitWithinTtl | khl_bot.py:23-25 | after a refresh that produced rows, a call less than 60 s later is served from the memo with no fetch |
| RefreshCache.FailureRetries | khl_bot.py:27-29 | a failed request leaves a stale memo stale, so every later call fetches again |
| RefreshCache.NoTableLeavesMemo | khl_bot.py:38-42 | a page without tables returns no rows and leaves the memo as it was |
| RefreshCache.EmptyMemoFetches | khl_bot.py:24 | an empty memo is never served, whatever its timestamp |
| RefreshCache.Cache.constructor | khl_bot.py:16 | the memo starts as `ts = 0`, `rows = []` |
| RefreshCache.Cache.FetchTableRows | khl_bot.py:22-86 | the new fields and the result are the `Refresh` transition of the old fields; a hit changes nothing; a change happens only on a received page, with `ts = now` and the returned rows stored |
| Matcher.Fuzzy | khl_bot.py:91-95 | no contract of its own: the fuzzy pass; `FuzzyAppend`, `FuzzyOfRow` and `FuzzyEntries` state what it computes |
| Matcher.FuzzyAppend | khl_bot.py:92-95 | the fuzzy pass distributes over concatenation of rows, so it yields one entry per candidate row, in row order |
| Matcher.FuzzyOfRow | khl_bot.py:93-95 | a single row yields one entry scored by the ratio when its name is a candidate, and none otherwise |
| Matcher.FuzzyEntries | khl_bot.py:91-95 | the fuzzy pass scores exactly the rows whose names are candidates, each by the ratio of the lower-cased strings |
| Matcher.RescuedAdds | khl_bot.py:96-98 | the substring pass keeps the fuzzy entries in front and appends only hits at 0.99 whose record was not already scored |
| Matcher.Rescued | khl_bot.py:96-98 | no contract of its own: the substring pass checked against the growing list; `RescuedInRowOrder`, `RescuedAdds` and `RescuedCovers` state what it computes |
| Matcher.FreshHitsRecords | khl_bot.py:96-98 | the reference list of fresh hits holds exactly the rows whose name contains the query and that have no entry yet, each at 0.99 |
| Matcher.FreshHitsDistinct | khl_bot.py:97 | no record appears twice among the fresh hits |
| Matcher.RescuedInRowOrder | khl_bot.py:96-98 | the substring pass appends exactly the fresh hits, in row order, each equal record once |
| Matcher.RescuedCovers | khl_bot.py:96-98 | after the substring pass every row whose name contains the query has an entry |
| Matcher.ScoredEntries | khl_bot.py:89-98 | every scored entry is a row, scored by the ratio if its name is a candidate and otherwise at 0.99 as a hit; every hit and every candidate row is scored |
| Matcher.SortByScore | khl_bot.py:99 | no contract of its own: the stable sort, best first; `SortProps` and `SortStable` state that it is a permutation, non-increasing in score and stable |
| Matcher.InsertAdds | khl_bot.py:99 | insertion adds exactly one entry and changes nothing else in the multiset |
| Matcher.InsertSorted | khl_bot.py:99 | insertion keeps a best-first list best-first |
| Matcher.InsertProps | khl_bot.py:99 | insertion is a permutation step that preserves order by score |
| Matcher.SortProps | khl_bot.py:99 | the sort is a permutation, and its result is non-increasing in score |
| Matcher.InsertWithScore | khl_bot.py:99 | among entries of equal score, insertion puts the new entry before those already in the list |
| Matcher.SortStable | khl_bot.py:99 | sorting keeps the input order of entries with equal scores, as `list.sort` does |
| Matcher.SortedHoldsScored | khl_bot.py:99 | the sorted list has the same entries and names, best first |
| Matcher.Dedup | khl_bot.py:100-104 | no contract of its own: the first entry per name, in order; `DedupIsFilter`, `DedupProps` and `DedupSorted` state what it computes |
| Matcher.DedupContents | khl_bot.py:100-104 | deduplication keeps only entries of its input and loses no name |
| Matcher.DedupIsFilter | khl_bot.py:100-104 | deduplication is the in-order filter of the entries that are first of their name, so the kept entries keep the sorted order |
| Matcher.DedupDistinct | khl_bot.py:100-104 | no two kept entries share a name |
| Matcher.DedupKeepsFirst | khl_bot.py:100-104 | the first entry of each name is kept |
| Matcher.DedupOnlyFirst | khl_bot.py:100-104 | every kept entry is the first entry of its name |
| Matcher.DedupProps | khl_bot.py:100-104 | deduplication keeps exactly the first entry of each name |
| Matcher.DedupSorted | khl_bot.py:100-104 | deduplication keeps a best-first list best-first |
| Matcher.DistinctNamesCount | khl_bot.py:100-105 | a list with distinct names has as many entries as names |
| Matcher.BestMatches | khl_bot.py:88-105 | no contract of its own: the whole pipeline as functions; `BestMatchesLength`, `BestMatchesShape`, `BestMatchesFirstOfName` and `HitReported` state its result |
| Matcher.BestMatchesLength | khl_bot.py:100-105 | the result has `min(limit, number of distinct ranked names)` matches |
| Matcher.BestMatchesShape | khl_bot.py:88-105 | exactly `min(limit, distinct ranked names)` matches, distinct names, non-increasing scores, and every match is a row of `rows` with a score its kind explains |
| Matcher.BestMatchesFirstOfName | khl_bot.py:99-105 | each returned match is the first entry of its name in the stably sorted list |
| Matcher.NoRowsNoMatches | khl_bot.py:88-105 | no rows gives no matches |
| Matcher.HitReported | khl_bot.py:92-105 | a row that is scored (its name contains the query, or is a fuzzy candidate) has a ranked entry that is first for its name; it is reported, or else `limit` matches are reported and each scores at least as much |
| Matcher.HitReportedOrFull | khl_bot.py:92-105 | a scored row is reported under its name unless the result already holds `limit` matches |
| Matcher.FirstEntryKept | khl_bot.py:99-104 | a scored record's name has a first entry in the sorted list, and deduplication keeps it |
| Matcher.TruncatedOrOutranked | khl_bot.py:105 | cutting a best-first list to `limit` keeps an entry, or keeps `limit` entries scoring at least as much |
| Matcher.SubstringHitsInRowOrder | khl_bot.py:96-99 | with no fuzzy candidates the ranked list is the substring hits in row order: the stable sort keeps equal 0.99 scores in row order |
| Matcher.SingleSubstringRow | khl_bot.py:96-105 | a lone row that contains the query and is not a candidate is returned with score 0.99 |
| Matcher.ScoresInUnitInterval | khl_bot.py:94-98 | when the ratio lies in [0, 1], so does every returned score |
| Matcher.ScoreCandidates | khl_bot.py:91-95 | the fuzzy loop computes exactly the fuzzy pass |
| Matcher.RescueSubstrings | khl_bot.py:96-98 | the substring loop computes exactly the substring pass over the fuzzy entries |
| Matcher.DropRepeatedNames | khl_bot.py:100-104 | the loop with its `seen` set computes exactly the first-of-each-name deduplication |
| Matcher.FindBestMatches | khl_bot.py:88-105 | the method, with `limit` defaulting to 3, returns `BestMatches`: `min(limit, distinct ranked names)` matches, distinct names, non-increasing scores, every match a row with an explained score |
| Formatter.RusPos | khl_bot.py:19-20 | the stripped codes "H", "З" and "В" map to "Нападающий", "Защитник" and "Вратарь"; any other code comes back stripped |
| Formatter.CyrillicEnPassesThrough | khl_bot.py:20 | the Cyrillic "Н" is not the forward's key and is shown as is |
| Formatter.HeaderLines | khl_bot.py:109-114 | no contract of its own: the four fixed lines (bold name, team with abbreviation, position label, stat line in the order gp, g, a, pts, +/-); `CardLines` and `CardLayout` place them first |
| Formatter.Part | khl_bot.py:116-123 | a statistic contributes exactly its label and value when the value is non-empty, and nothing otherwise |
| Formatter.ExtraParts | khl_bot.py:115-123 | one part per non-empty statistic among pim, fo_w, fo_pct and toi, all non-empty, and none iff all four are empty |
| Formatter.ExtraPartsMembers | khl_bot.py:115-123 | "Штр: ", "БВ: ", "%БВ: " and "Ср.время: " followed by their value are parts exactly when that value is non-empty |
| Formatter.ExtraPartsInColumnOrder | khl_bot.py:115-123 | the parts come in source-column order (10 to 13), each column at most once |
| Formatter.LabelColumns | khl_bot.py:117-123 | each of the four labels identifies its own column |
| Formatter.CardLines | khl_bot.py:107-127 | four header lines, then the extras line iff an optional statistic is present, then the link line iff the url is non-empty |
| Formatter.FormatPlayerCard | khl_bot.py:107-128 | no contract of its own: `format_player_card`, the card's lines joined with newlines; `CardLines`, `CardLayout` and `BareCard` state its layout |
| Formatter.CardLinesWithoutNewlines | khl_bot.py:109-127 | no card line holds a newline when no field does |
| Formatter.CardLayout | khl_bot.py:107-128 | when no field of the record holds a newline, splitting the card at newlines gives back exactly its lines in order: header, extras iff present, link iff url |
| Formatter.BareCard | khl_bot.py:124-128 | a record with no optional statistics and no url gives exactly the four header lines |

## Left out

- The Telegram transport is not modelled: `start`, `handle_name` and `main`
  (khl_bot.py:130-172), the webhook set-up and the `len(q) < 2` guard of the
  handler. They are asynchronous network I/O.
- The HTTP request is an input, `Response`: either a failure or a received page.
  The request itself, its 20-second timeout, the forced UTF-8 decoding and
  `raise_for_status` are not modelled. Any exception they raise is the one
  `Failed` outcome, and the exception propagating to the caller is a `Failure`
  result.
- HTML parsing is not modelled. The model starts from the parsed page: the stripped
  header and cell texts, and the first anchor per cell. Nested tables, and the way
  `get_text(strip=True)` joins inner text fragments, are outside the model.
- `difflib` is not modelled. `get_close_matches` and `SequenceMatcher.ratio` are
  parameters. Only `ScoresInUnitInterval` assumes anything of the ratio: that it
  lies in [0, 1].
- Scores are mathematical reals, not IEEE doubles. The only arithmetic is
  comparison.
- The clock is an input. `time.time()` is the `now` parameter.
- Logging, environment variables and configuration are not modelled, apart from the
  TTL, the origin and the header labels.
- Text.Lower: covers ASCII, the Latin-1 capitals and the Cyrillic block
  U+0400-U+042F. The rest of Unicode case mapping is not modelled.
- Matcher.SortByScore: an insertion sort over values stands in for the in-place
  Timsort of `list.sort`. Order, permutation and stability are proved, but the
  in-place update is not modelled.
- Matcher.FindBestMatches: requires `limit >= 1`. `difflib.get_close_matches`
  raises `ValueError` for `n <= 0`, and the bot always passes 3.
- Formatter.RusPos: the `letter or ""` fallback for a missing (None) position is
  outside the model, because a record's fields are always strings here.
- RefreshCache.Cache.FetchTableRows: the cached list is returned by reference in
  the source. The model returns an equal value, so aliasing of the list is not
  modelled.
- Concurrent calls of `fetch_table_rows` from overlapping handlers are not
  modelled. The model treats calls as sequential.
- Formatter.CardLayout: requires that no field holds a newline. `get_text(strip=True)`
  strips only the ends of text fragments, so a cell can keep an inner newline; the
  card then has more lines than its layout, and the lemma says nothing about it.
