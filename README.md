# US News CS ranking scraper — a Dafny model of its in-memory core

`main.py` downloads the US News "computer science graduate schools" listing
page by page, flattens every listing into a record (name, city, state, url,
academic-reputation score, id, FICE code, integer rank) and groups the
records in a dictionary keyed by the listing's display-rank text. Seven
search functions then scan that dictionary for the records with a given
state, city, name, score, score range, id or FICE code, and `get_by_rank`
looks one display rank up directly.

The model:

- `wrappers.dfy` — `Option` and `Result`.
- `seqs.dfy` — `Concat`, flattening a list of lists in order.
- `text.dfy` — ASCII `Upper`/`Lower` (Python's `str.upper`/`str.lower` on
  ASCII text) and the "same text up to letter case" relation.
- `records.dfy` — the record (`College`) and the insertion-ordered
  dictionary (`Colleges`: a key list plus a map, keys `Distinct` and equal to
  the map's domain); `Add` is one step of the collector's inner loop (create
  the key's group when the key is new, then append the record to it);
  `Flatten` is the order in which the search loops visit the records.
- `collector.dfy` — `get_data` as the method `GetData` over a sequence of
  pages, with its inner loop `AddPage`; both are proved equal to the fold
  `Collect`. `Normalize` builds one item's record, converting the score
  before the rank.
- `grouping.dfy` — what `Collect` promises: when it fails, which keys it
  creates and in what order, what each group holds, and how many records
  there are.
- `search.dfy` — the scan shared by the search functions (`ScanAll`,
  `ScanFirst`), proved equal to the filter `Select` and its first element.
- `queries.dfy` — the eight `get_by_*` functions and their properties.

The network request in `get_page` is replaced by an input sequence of pages;
a page number past the end of that sequence yields an empty page. The
conversions `float(...)` and `int(...)` are parameters (`parseScore`,
`parseRank`) returning `None` where Python raises `ValueError`; a raised
conversion abandons the whole collection, so `GetData` returns `Failure`
with the offending text. Within one item the score is converted before the
rank, as the dictionary literal is evaluated in that order.

Behaviour of the code that the model follows:

- The page walk stops only at an empty page; there is no page ceiling.
- `get_by_name` returns every record whose name matches ignoring case, not
  only the first one.
- `get_by_score_within` does not validate its bounds: an inverted range
  simply finds nothing, and no upper limit is enforced.
- `get_by_state` upper-cases only the query; the stored state is compared
  as it is, so a record stored with a lower-case letter is never found.
- `get_by_rank` raises `KeyError` for an absent key (modelled as
  `Failure(KeyError(pos))`) and returns `None` for an empty group (modelled
  as `Success(None)`); on a mapping built by `get_data` the second case
  cannot happen.
- `get_by_id` and `get_by_fice` return `{}` when nothing matches, modelled
  as `None`.

## Model

| member | source | states |
|---|---|---|
| Collector.GetData | main.py:26-42 | the returned mapping is the fold `Collect` of the items of the pages before the first empty page, or its first conversion error; on success exactly `LiveCount + 1` pages were requested; on failure between 1 and `LiveCount`, every item of the pages before the last one requested converts, and that last page holds the item that raised |
| Collector.PrefixStep | main.py:30-41 | when the pages before page `p` collect to a mapping, the pages up to `p` collect to page `p`'s items added to that mapping |
| Collector.NormalizeOutcome | main.py:35-38 | an item converts exactly when both its score and rank texts do; the record copies name, city, state, url, id and FICE code and holds the converted score and rank; a bad score text is reported even when the rank text is bad too, a bad rank text only after the score converted |
| Collector.AddPage | main.py:31-39 | one page's items added in order (creating a rank's group on first sight, then appending), or the first conversion error, is `CollectFrom` over that page |
| Collector.CollectFromAppend | main.py:30-41 | processing two runs of items is processing the first and, unless it raised, continuing with the second |
| Collector.LiveCount | main.py:28-41 | the number of pages before the first empty page: all of them are non-empty and the next one, if any, is empty |
| Records.AddGroups | main.py:33-39 | adding a record lists a new key last and keeps the key order otherwise; the record is appended to its own key's group (a new key's group holds just it) and every other group is unchanged |
| Records.AddCount | main.py:33-39 | adding one record (new key or existing key) makes the flattened mapping exactly one record longer |
| Grouping.CollectFromSucceeds | main.py:35-39 | processing items succeeds exactly when every one of them converts, whatever was collected before |
| Grouping.CollectFails | main.py:35-39 | collection fails exactly when some item's score or rank text does not convert, and then with the error of the first such item, all earlier items converting |
| Grouping.CollectKeys | main.py:32-34 | the keys are exactly the display ranks that occur among the items, each once, ordered by the position of the first item carrying them |
| Grouping.FirstSeenFromGrows | main.py:32-34 | key creation only adds: earlier keys stay in front, and a key is present exactly when it was there before or some item carries it |
| Grouping.FirstSeenFromDistinct | main.py:33-34 | a key is never created twice |
| Grouping.FirstSeenFromOrder | main.py:31-34 | newly created keys are ordered by first occurrence |
| Grouping.CollectGroups | main.py:31-39 | each group holds the records of exactly the items with that display rank, in arrival order; no group is empty; every record's `rank` is the integer its key converts to |
| Grouping.CollectFromGroups | main.py:33-39 | each group grows by the records of the new items carrying its key, appended after its earlier records |
| Grouping.CollectCount | main.py:31-39 | the mapping holds exactly one record per item |
| Grouping.GetDataCount | main.py:28-41 | the number of records equals the total number of items on the pages before the first empty page |
| Search.SelectAtMatchIndices | main.py:47-52 | the records a scan keeps are exactly those at the matching positions, each once, in increasing position order |
| Search.SelectMembers | main.py:47-52 | a record is kept exactly when it is in the mapping and satisfies the query; no more records are kept than there are |
| Search.FirstNone | main.py:93-97 | a scan that stops at the first match finds nothing exactly when no record matches |
| Search.FirstMatch | main.py:93-97 | when there is a match, the first kept record is the record at the first matching position |
| Search.SelectNone | main.py:87-88 | a test that no record can pass keeps nothing |
| Search.SelectAppend | main.py:48-49 | scanning two runs of records keeps the matches of the first run, then those of the second |
| Search.ScanAll | main.py:47-52 | the nested loops over groups and records return all matches in mapping order (`Select` of the flattened mapping) |
| Search.ScanGroup | main.py:49-51 | the inner loop keeps the matches of one group in order |
| Search.ScanFirst | main.py:93-97 | the nested loops with an early return yield the first match in mapping order, or nothing |
| Search.FirstInGroup | main.py:94-96 | the inner loop returns the first match of one group, or nothing |
| Queries.GetByState | main.py:45-52 | the records whose stored state equals the upper-cased query, all of them and only them, in mapping order, at most as many as the mapping holds |
| Queries.GetByCity | main.py:55-61 | the records whose city equals the query exactly, all of them and only them, in mapping order |
| Queries.GetByName | main.py:64-71 | every record whose name equals the query up to ASCII letter case, and only those, in mapping order |
| Queries.GetByScore | main.py:74-80 | the records whose score equals the query, all of them and only them, in mapping order |
| Queries.GetByScoreWithin | main.py:83-89 | the records with `minimum <= score <= maximum` (both bounds inclusive), in mapping order; empty when `minimum > maximum` |
| Queries.GetById | main.py:92-97 | the first record in mapping order whose id equals the argument; `None` (for `{}`) exactly when no record has that id |
| Queries.GetByFice | main.py:100-105 | the first record in mapping order whose FICE code equals the argument; `None` (for `{}`) exactly when none has it |
| Queries.GetByRank | main.py:108-109 | `KeyError` exactly for a key not in the mapping; `None` exactly for an empty group; otherwise that key's group unchanged |
| Queries.RankOfCollected | main.py:108-109 | on a mapping built by `get_data`, the lookup fails exactly when no item had that display rank, never yields `None`, and otherwise yields the records of the items with that rank in arrival order |
| Queries.StateQueryIgnoresCase | main.py:46-50 | state queries that differ only in letter case find the same records |
| Queries.StateSearchMissesLowerCase | main.py:46-50 | a record whose stored state contains a lower-case letter is never found by any state query |
| Queries.NameQueryIgnoresCase | main.py:65-69 | name queries that differ only in letter case find the same records |
| Queries.ScoreWithinPoint | main.py:78-87 | a range search with equal bounds finds exactly what the exact score search finds |
| Queries.ScoreWithinWiden | main.py:87 | widening the range keeps every record the narrower range found |
| Text.UpperIdentifiesCaseVariants | main.py:46 | two texts upper-case to the same text exactly when they differ only in ASCII letter case |
| Text.LowerIdentifiesCaseVariants | main.py:65-69 | two texts lower-case to the same text exactly when they differ only in ASCII letter case |
| Text.UpperIdempotent | main.py:46 | an upper-cased text has no lower-case letter left and upper-casing it again changes nothing |

## Left out

- `get_page` (main.py:5-23) is an HTTP request with JSON decoding; it is replaced by the input sequence of pages, and network errors, non-JSON replies and responses missing `data`, `items` or any item field (Python's `KeyError`) are not modelled: items are typed records. The page sequence is finite, so the modelled walk always ends; the source has no page ceiling (main.py:30-41) and walks forever against a server that never returns an empty page.
- `dump_data` (main.py:112-123) reads and rewrites `./colleges.json` with a wall-clock timestamp: file I/O and time.
- The interactive menu (main.py:126-163): `input`/`print` only; it also parses the query scores with `float`, which the search functions receive as values.
- `float(...)` and `int(...)` are given as conversion functions: their text grammar (signs, whitespace, underscores, `inf`, `nan`) is not modelled.
- Scores are exact reals: IEEE double rounding and NaN (which compares unequal to everything) are not modelled in `get_by_score` and `get_by_score_within`.
- Text.Upper: only ASCII letters change case; Python's full Unicode case mapping (including mappings that change the length, such as `ß` to `SS`) is not modelled, and the same holds for Text.Lower.
- `id` and `fice_code` are whatever JSON values the API returns; they are modelled as text compared for equality with the query text.
- The search functions receive the mapping as a value and return new sequences, so "they never modify the mapping" holds by construction rather than by a proof about aliasing; the records returned are copies rather than references to the stored dictionaries.
