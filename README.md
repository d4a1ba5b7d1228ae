# mangaUpdates web scraper, modelled in Dafny

The scraper walks the manga ids of mangaupdates.com from 1 up to a ceiling
(10 in the script) and fetches the series page of each id. It extracts the
following fields from the page in this order:

- the title;
- the description;
- the media type, status, authors, artists, year and original publisher;
- three numbers from the user-rating block: the average, the vote count and
  the Bayesian average;
- whether the series is licensed in English;
- five list positions;
- ten rating-distribution percentages.

These 27 fields become one row of a CSV file whose header is the fixed list
of column names. A missing element on a page raises `IndexError`. That id is
then skipped, unless the id lies beyond the catalog's highest id (176901), in
which case the run stops. Any other error, such as a failed HTTP request,
ends the run.

The project has six modules:

- `Wrappers`: `Option` and `Result`, the latter failure-compatible so that
  lookups can be chained with `:-`.
- `Text`: the parts of Python's `str` the scraper uses.
  - `strip()` and `strip(chars)`, characterised by `StrippedAt` and proved
    unique, idempotent and the identity exactly on bare strings.
  - `replace(pat, "")`, a single left-to-right pass.
  - `str(n)`, proved injective through a round trip.
- `Rating`: the user-rating regular expression
  `Average: (\d?\d?[.]?\d?\d).*\((\d+).*Average: (\d?\d?[.]?\d?\d)` as a
  matcher for this one pattern.
  - It tries alternatives in a backtracking engine's order and returns the
    groups of the match `re.findall` reports first.
  - `Greedy` states that order without reference to the search. A match is
    greedy when:
    - no match starts further left;
    - its first group ends at the first end, in the engine's order, that
      admits the rest of the pattern;
    - the parenthesis is the last one that still admits the rest;
    - the vote count is the longest run that still admits the rest;
    - the second label is the last one that still admits the rest;
    - the second group ends where the engine ends it.
  - Its contracts prove that the result is the greedy match, that only one
    match is greedy, and that "nothing found" means no match exists at all.
- `RatingSample`: the rating fields of one rating text where shorter groups also match.
- `Extractor`: `parse_soup`. The parsed page is a `Document`: for each CSS
  selector, the `.text` of every element the selector returns. Each field
  takes the first element, stripped or not exactly as the code does. Lemmas
  state:
  - when the parse succeeds (every selector non-empty and the rating pattern
    matching);
  - what each field of the record is.
- `Driver`: `main`.
  - The column list and the page URL.
  - The dictionary the record turns into, and `DictWriter.writerow` against
    the columns.
  - The `while` loop as the method `Scrape`, proved against `FirstStop`
    (where the run stops) and `Rows` (which rows it writes).

## Model

| member | source | states |
|---|---|---|
| Text.IsSpaceAscii | mangaUpdatesWebscraper.py:43 | on ASCII, the characters `strip()` removes are exactly tab, line feed, vertical tab, form feed, carriage return, the four information separators and the space |
| Text.StripWs | mangaUpdatesWebscraper.py:43 | the stripped text has no whitespace at either end |
| Text.Strip | mangaUpdatesWebscraper.py:128 | `strip(chars)`: the result is `s` minus a leading and a trailing run of those chars, and is bare of them at both ends |
| Text.StripUnique | mangaUpdatesWebscraper.py:50 | at most one string satisfies the characterisation of stripping, so it pins down what `strip` returns |
| Text.StripIdempotent | mangaUpdatesWebscraper.py:50 | stripping twice equals stripping once |
| Text.StripIdentity | mangaUpdatesWebscraper.py:50 | stripping leaves a string unchanged iff neither of its ends is a stripped character |
| Text.RemoveAll | mangaUpdatesWebscraper.py:81 | removing "&nbsp;" never lengthens the text |
| Text.RemoveAllUnchanged | mangaUpdatesWebscraper.py:81 | the replacement leaves the text unchanged iff "&nbsp;" does not occur in it |
| Text.RemoveAllKeeps | mangaUpdatesWebscraper.py:81 | a prefix without the first character of "&nbsp;" passes through the replacement unchanged |
| Text.RemoveAllDrops | mangaUpdatesWebscraper.py:81 | an occurrence of "&nbsp;" at the front is deleted and the scan goes on after it |
| Text.RemoveAllSinglePass | mangaUpdatesWebscraper.py:81 | the replacement is one pass: "&nb&nbsp;sp;" becomes "&nbsp;" |
| Text.Decimal | mangaUpdatesWebscraper.py:207 | `str(id)` is a non-empty digit string with no leading zero |
| Text.DecimalRoundTrip | mangaUpdatesWebscraper.py:207 | reading the digits of `str(id)` back gives `id` |
| Text.DecimalInjective | mangaUpdatesWebscraper.py:207 | different ids have different decimal strings |
| Rating.Ends | mangaUpdatesWebscraper.py:80 | lists exactly the ends at which the number group `\d?\d?[.]?\d?\d` can match from a position |
| Rating.NumberSyntax | mangaUpdatesWebscraper.py:80 | the number group matches exactly 1 to 4 digits, or up to two digits, a point and one or two digits |
| Rating.NumberShape | mangaUpdatesWebscraper.py:80 | a number group match has length 1 to 5, consists of digits and at most one point, and ends in a digit |
| Rating.FirstOfEnds | mangaUpdatesWebscraper.py:80 | when nothing follows the number group, the end the engine settles on exists iff the group can match, and is the first of its ends in backtracking order |
| Rating.ScanBay | mangaUpdatesWebscraper.py:80 | the second `.*` backs off from the end of the line: the result is the last label within reach that is followed by a number group, ending where the engine ends that group; "none" means no label in reach admits one |
| Rating.TryVotes | mangaUpdatesWebscraper.py:80 | `\d+` backs off from its longest run: the result is the longest vote count that admits the rest of the pattern, with the rest in the engine's order; "none" means no run does |
| Rating.ScanParen | mangaUpdatesWebscraper.py:80 | the first `.*` backs off from the end of the line: the result is the last parenthesis that admits the rest of the pattern, with the rest in the engine's order; "none" means none does |
| Rating.TryAverages | mangaUpdatesWebscraper.py:80 | the ends of the first group are tried in backtracking order: the result is the first that admits the rest of the pattern, with the rest in the engine's order; "none" means none does |
| Rating.MatchAt | mangaUpdatesWebscraper.py:80-82 | the match from one position is the one the engine's order picks there, and "none" means no match starts there |
| Rating.FirstMatch | mangaUpdatesWebscraper.py:82 | the search from a position returns the match the engine's order picks at the first position, there or later, where a match starts, or reports that every match starts before it |
| Rating.FindRating | mangaUpdatesWebscraper.py:82-84 | `findall(...)[0]` exists iff some match exists, and is the groups of a greedy match: leftmost, then first in the engine's order |
| Rating.GreedyUnique | mangaUpdatesWebscraper.py:80-84 | at most one match is greedy, so `Greedy` pins down the match `findall` reports first |
| Rating.PreferredUnique | mangaUpdatesWebscraper.py:80 | from one starting position the engine's order picks one match |
| Rating.FindRatingGreedy | mangaUpdatesWebscraper.py:82-94 | whatever match is greedy, its groups are the average, vote count and Bayesian average the search reports |
| RatingSample.SampleGreedy | mangaUpdatesWebscraper.py:80-94 | on every text with the characters of "Average: 7.23(1234 votes) ... Average: 7.10", the groups are "7.23", "1234" and "7.10", although "7.2", "12" and "7.1" would also give matches |
| RatingSample.SampleRating | mangaUpdatesWebscraper.py:80-94 | on "Average: 7.23(1234 votes) ... Average: 7.10" the groups are "7.23", "1234" and "7.10" |
| RatingSample.SampleParseRating | mangaUpdatesWebscraper.py:78-94 | on the rating text "Average: 7.23&nbsp;(1234 votes) ... Average: 7.10" the average is "7.23", the vote count "1234" and the Bayesian average "7.10" |
| Rating.MatchDecomposes | mangaUpdatesWebscraper.py:80 | the groups of every match are returned, and the match splits the text into prefix, "Average: ", average, one-line gap, "(", digits, one-line gap, "Average: ", Bayesian average, rest |
| Rating.Decompose | mangaUpdatesWebscraper.py:80 | positions that delimit the labels, groups, parenthesis and one-line gaps of the pattern cut the text into exactly those pieces |
| Rating.FindRatingSound | mangaUpdatesWebscraper.py:80-94 | the average, vote count and Bayesian average found come from such a split of the text |
| Extractor.CssInjective | mangaUpdatesWebscraper.py:101-184 | different rank positions, and different rows of the distribution, are looked up with different selector texts |
| Extractor.SelectFirst | mangaUpdatesWebscraper.py:36 | `select(...)[0].text` succeeds iff the selector selects something, and yields the first element's text |
| Extractor.SelectEach | mangaUpdatesWebscraper.py:101-124 | a run of selections succeeds iff every selector selects something, and yields each first text in order |
| Extractor.SearchDescription | mangaUpdatesWebscraper.py:42-44 | `re.search(r'.*[\.{3}]?', t)[0]` is the first line of `t` |
| Extractor.Description | mangaUpdatesWebscraper.py:40-45 | the description is the first line of the stripped text, and does not start with whitespace |
| Extractor.FirstLineUnique | mangaUpdatesWebscraper.py:42-45 | a text has only one first line |
| Extractor.Percent | mangaUpdatesWebscraper.py:126-130 | a percentage has no whitespace at either end |
| Extractor.PercentStrips | mangaUpdatesWebscraper.py:126-130 | a percentage is the cell text stripped of its surrounding '%' characters, and the result then stripped of its surrounding whitespace |
| Extractor.PercentSignless | mangaUpdatesWebscraper.py:126-130 | a cell text with no whitespace at all gives a percentage with no '%' at either end |
| Extractor.PercentKeepsSignBeforeNewline | mangaUpdatesWebscraper.py:128-129 | a '%' followed by a line feed survives: "12.34%\n" gives "12.34%" |
| Extractor.PercentKeepsInnerSign | mangaUpdatesWebscraper.py:128-129 | a '%' behind whitespace is not stripped first: "5% %" gives "5%" |
| Extractor.ParseSoupDefined | mangaUpdatesWebscraper.py:31-187 | `parse_soup` returns a record iff all 25 selectors select something and the rating pattern matches; otherwise it raises `IndexError` |
| Extractor.ParseSoupComplete | mangaUpdatesWebscraper.py:31-187 | every selector selecting something and the rating pattern matching suffice for a record |
| Extractor.ParseSoupNeeds | mangaUpdatesWebscraper.py:31-187 | a record needs every selector to select something and the rating pattern to match |
| Extractor.ParseSoupBuilds | mangaUpdatesWebscraper.py:31-187 | a successful parse takes the first text of every selector and the rating of the rating block, and builds the record from them |
| Extractor.ParseSoupVerbatim | mangaUpdatesWebscraper.py:101-124 | the title and the five positions are the first texts of their selectors, unstripped |
| Extractor.ParseSoupDescription | mangaUpdatesWebscraper.py:40-45 | the description field is the first line of the stripped description text |
| Extractor.ParseSoupTrimmed | mangaUpdatesWebscraper.py:48-99 | media type, status, authors, artists, year, publisher and licensing are their texts stripped of surrounding whitespace |
| Extractor.ParseSoupPercents | mangaUpdatesWebscraper.py:126-184 | each of the ten percentages is `Percent` of the text of its distribution row, rows 5 to 14 |
| Extractor.ParseSoupRating | mangaUpdatesWebscraper.py:78-94 | the three rating fields come from a match of the rating pattern in the rating text with "&nbsp;" removed |
| Driver.Url | mangaUpdatesWebscraper.py:207 | the page address starts with the home URL and extends it |
| Driver.UrlInjective | mangaUpdatesWebscraper.py:207 | different ids are fetched from different addresses |
| Driver.DictOf | mangaUpdatesWebscraper.py:34-37 | the dictionary built by the assignments has exactly the assigned keys |
| Driver.DictOfLookup | mangaUpdatesWebscraper.py:34-37 | with distinct keys, each assigned value is the one the dictionary holds |
| Driver.WriteRow | mangaUpdatesWebscraper.py:203-207 | `writerow` fails iff the dictionary has a key that is not a column, and otherwise writes each column's value or "" |
| Driver.FieldnamesDistinct | mangaUpdatesWebscraper.py:196-200 | the 27 column names are distinct |
| Driver.EntriesKeys | mangaUpdatesWebscraper.py:196-200 | the keys of a record's dictionary, in insertion order, are exactly the columns |
| Driver.WriteDistinct | mangaUpdatesWebscraper.py:207 | writing a dictionary built from distinct keys, with those keys as columns, writes the values in order |
| Driver.WriteRecord | mangaUpdatesWebscraper.py:207 | writing a record never raises, and puts each field under its own column |
| Driver.RowOf | mangaUpdatesWebscraper.py:207 | the row written for a record is its field values in column order |
| Driver.Csv | mangaUpdatesWebscraper.py:203-207 | the CSV is the header followed by one line per record |
| Driver.CsvAppend | mangaUpdatesWebscraper.py:207 | writing one more row appends its line |
| Driver.Attempt | mangaUpdatesWebscraper.py:207-210 | an id is fatal iff its fetch fails, and parses iff its page was fetched and `parse_soup` succeeds on it, giving that record |
| Driver.Rows | mangaUpdatesWebscraper.py:205-209 | at most one row per id, and every row is the record of an id in the range whose page parsed |
| Driver.RowIds | mangaUpdatesWebscraper.py:205-209 | lists exactly the ids in a range whose page parsed, in ascending order |
| Driver.RowsByIds | mangaUpdatesWebscraper.py:205-209 | the rows are the records of those ids, one per id, in the same order |
| Driver.RowCount | mangaUpdatesWebscraper.py:205-209 | there are as many rows as ids whose page parsed |
| Driver.FirstStop | mangaUpdatesWebscraper.py:205-217 | the loop goes on at every id before the stop, and does not go on at the stop unless the stop is past the ceiling |
| Driver.Range | mangaUpdatesWebscraper.py:205-208 | the ids tried are consecutive and ascending |
| Driver.Scrape | mangaUpdatesWebscraper.py:205-217 | the loop stops at `FirstStop`; it writes the header and the rows of the parsed ids before the stop; it completes iff it passes the ceiling, hits the `break` iff it meets an `IndexError` beyond the catalog bound, and fails iff it meets a fatal error; the ids attempted are 1, 2, ... in order |
| Driver.ScrapeManga | mangaUpdatesWebscraper.py:205-217 | with ceiling 10 and bound 176901 the `break` never happens; a run that does not meet a fatal error completes; one that meets one stops at the first |
| Driver.Outcomes | mangaUpdatesWebscraper.py:207 | the outcome of an id is fatal iff fetching its address fails |
| Driver.OutcomeParsed | mangaUpdatesWebscraper.py:207 | an id whose outcome is a record had its page fetched, and `parse_soup` of that page gave the record |
| Driver.ScrapeSite | mangaUpdatesWebscraper.py:190-217 | `main` against a web: every page before the stop was fetched, the rows are those of the ids before the stop, and the run ends early iff the fetch at the stop failed |

## Left out

- Fetching (`get_soup`, `requests`, `raise_for_status`) is a parameter: `get` maps a URL to a parsed page or to a transport failure.
- HTML parsing and the CSS selector semantics of BeautifulSoup are a parameter: the `Document` gives each selector's element texts. The selector strings are written out as in the code (`Extractor.Css`), as documentation; the contracts use them only to show that the numbered selectors are distinct queries (`Extractor.CssInjective`).
- Extractor.ParseSoup, Extractor.Build and Extractor.Entries: have no contracts of their own. `ParseSoupDefined`, `ParseSoupComplete`, `ParseSoupNeeds`, `ParseSoupBuilds` and the other `ParseSoup…` lemmas state what `ParseSoup` and `Build` yield, and `Driver.EntriesKeys`, `Driver.DictOf` and `Driver.WriteRecord` state what `Entries` yields.
- Text.IsSpace: only its ASCII part is characterised by a lemma (`Text.IsSpaceAscii`); above ASCII it lists the code points Python's `str.isspace` accepts, which no lemma restates.
- Only the one regular expression of the rating block and the one of the description are modelled, each by a matcher written for it; the general `re` engine is not part of this model.
- `\d` is modelled as the ASCII digits; Python's `\d` on `str` also accepts other Unicode decimal digits.
- `findall` returns every match; only its first element is used by the code, and only that is modelled (`Rating.FindRating`).
- Rating.ParseRating: has no contract of its own; it is `FindRating` of the text with "&nbsp;" removed, and `Extractor.ParseSoupRating` states what it yields inside `parse_soup`.
- The order in which `parse_soup` raises among several missing elements is not modelled: every failure is the same `IndexError`, so all failures give the same result.
- Logging, `print`, `time.sleep(1)` and the opening, encoding and quoting of the CSV file are left out; the CSV is a list of rows of field strings.
- Driver.Outcomes: its contract states only which ids are fatal; what a record is tied to is stated by `Driver.OutcomeParsed` and `Driver.Attempt`.
- Driver.ScrapeManga and Driver.Scrape: take the outcome of each id as a function instead of fetching and parsing inside the loop; `Driver.ScrapeSite` supplies `Outcomes(get)`.

## Where the description of the system and the code differ

The model follows the code in each case below.

- A percentage can keep a '%'. The code strips '%' first and whitespace second. A '%' with whitespace outside it therefore survives: "12.34%\n" gives "12.34%" and "5% %" gives "5%". No '%' is left at either end whenever the cell text contains no whitespace (`Extractor.PercentSignless`), though some texts with whitespace qualify too. Requiring just that the text has no surrounding whitespace is not enough.
- The pause of one second runs only after a page was written, not after an `IndexError`.
- There are 25 selections, not 27: the rating block's one selection yields three fields.
- An `IndexError` stops the run only for an id strictly above the catalog bound (`manga_id > 176901`). At the bound itself the id is skipped like any other gap. The description of the system says "at or above" (`Driver.FirstStop`, `Driver.Scrape`).
