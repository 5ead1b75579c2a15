# Fondos.gob.cl scraper — a verified model of its parsing and write protocol

`fondos_scraper.py` collects the public funds listed on fondos.gob.cl. It
fetches the search page and takes each fund "card" from it. For each card it:

- extracts ten listing fields (`extract_fondo_info`);
- fetches the fund's detail page and takes description, category and rules link from it (`get_detail_info`);
- appends the merged record to `fondos.csv` at once (`save_fondo_to_csv`), under an id that counts the rows written so far.

This project models that core in Dafny and proves what it promises:

- `wrappers.dfy`: `Option` and `Result`.
- `text.dfy` (`Text`): the Python string operations the scraper uses.
  - `strip()` over the `str.isspace` characters.
  - `startswith`, and the substring test `in`.
  - `replace(p, '')`: left-to-right removal of non-overlapping occurrences.
  - `split` and `join` on one character.
  - Their laws: `strip` undoes padding and is idempotent; `join(split(s)) == s`; `split(join(ps)) == ps`.
- `html.dfy` (`Html`): an abstract parsed page and the two BeautifulSoup queries the scraper uses.
  - The page is a tree of elements: tag, classes, `id`, text, `href`, children.
  - `find_all` returns every matching descendant in document order.
  - `find` returns the first of them.
  - A `class_=` value matches one class, or the whole space-joined class attribute.
- `card.dfy` (`Card`): `extract_fondo_info`.
  - URL normalisation.
  - The first-match choice of the scope badge.
  - The fields taken from paragraphs by position.
  - The `Inicio:` / `Fin:` date splitter, including the case where it fails.
- `detail.dfy` (`Detail`): the parsing half of `get_detail_info`.
  - The description.
  - The category, found by a scan that stops at the first labelled block, written as a method with a loop.
  - The rules ("bases") link.
- `pipeline.dfy` (`Pipeline`): `get_fondos` and `save_fondo_to_csv`.
  - `fondos.csv` is a class whose methods update its lines in place.
  - The card loop is a method proved against a functional description of a whole run (`CrawlCards`); each pass of the loop is the method `SaveCard`.

Exceptions that abort the run are modelled as `Failure` results (`Card.ScrapeError`):

- the first anchor of a card has no `href` (a `KeyError`);
- a dates text has both markers but no `|` (an `IndexError`, which the `ValueError` handler does not catch);
- a page cannot be fetched.

A page fetch is the parameter `fetch: string -> Option<Node>`. The extraction timestamp of card `k` is `clock(k)`.

With zero cards on the listing, `to_csv` is never called. A `fondos.csv` left by an earlier run is therefore kept unchanged, even though a run with at least one card replaces it (`Pipeline.FileAfter`, `Pipeline.FileLayout`).

## Model

| member | source | states |
|---|---|---|
| Text.Strip | fondos_scraper.py:178 | `strip()` never lengthens its input and leaves no whitespace at either end |
| Text.StripPadded | fondos_scraper.py:202-203 | any whitespace padding around a string with non-whitespace ends is exactly what `strip()` removes |
| Text.StripFixed | fondos_scraper.py:181-182 | a string with no whitespace at its ends is unchanged by `strip()` |
| Text.StripStrip | fondos_scraper.py:181-182 | `strip()` is idempotent, so the second strip of the scope text changes nothing |
| Text.RemoveAll | fondos_scraper.py:202-203 | `replace(p, '')` never lengthens its input, and it changes nothing when `p` does not occur |
| Text.RemoveSingleOccurrence | fondos_scraper.py:202-203 | with exactly one occurrence of the marker, removal leaves the text before it followed by the text after it |
| Text.RemoveAllKeepsOut | fondos_scraper.py:202-203 | marker removal introduces no character that was absent, so a part free of a bar stays free of it |
| Text.StripKeepsOut | fondos_scraper.py:202-203 | `strip()` introduces no character that was absent |
| Text.Split | fondos_scraper.py:201 | splitting on the bar gives at least one part, a second part exactly when a bar occurs, and no part contains a bar |
| Text.JoinSplit | fondos_scraper.py:201 | joining the parts of a split with the separator gives back the original text |
| Text.SplitJoin | fondos_scraper.py:201 | splitting the join of separator-free parts gives back those parts |
| Text.SplitFirstTwo | fondos_scraper.py:201-203 | part 0 is the text before the first bar, part 1 the text between the first and second bar, whatever follows |
| Text.SplitNoSeparator | fondos_scraper.py:201 | a text without a bar splits into itself alone |
| Text.PaddedNotContains | fondos_scraper.py:202-203 | a marker that starts and ends with non-whitespace occurs in a whitespace-padded text only if it occurs in the padded value |
| Html.Filter | fondos_scraper.py:292 | `find_all` returns only matching elements, never more than it searched |
| Html.FilterMembership | fondos_scraper.py:292 | an element is returned by `find_all` exactly when it is a descendant and matches |
| Html.Find | fondos_scraper.py:171 | what `find` returns matches the query |
| Html.FindSpec | fondos_scraper.py:177-178 | `find` returns a descendant, and returns nothing exactly when no descendant matches |
| Html.FindIsFirstMatch | fondos_scraper.py:180 | `find` returns the first matching descendant in document order |
| Html.DescendantOfDescendant | fondos_scraper.py:124-128 | an element found inside a found element is a descendant of the whole page |
| Html.TextOrEmpty | fondos_scraper.py:177-178 | the `x.text.strip() if x else ''` value is always stripped |
| Card.NormalizeUrl | fondos_scraper.py:173-174 | an href starting with `http` is kept; any other href gets the site origin prepended; the result starts with `http` and ends with the href |
| Card.NormalizeUrlIdempotent | fondos_scraper.py:173-174 | normalising a normalised URL changes nothing |
| Card.CardUrl | fondos_scraper.py:171-174 | fails, with the missing-`href` error, exactly when the first anchor lacks an `href`; a first anchor with `href` h gives the normalised h (h itself when it starts with `http`, else the site origin followed by h); without an anchor the URL is exactly `https://fondos.gob.cl` |
| Card.CardScope | fondos_scraper.py:180-182 | the scope is stripped text |
| Card.SplitDates | fondos_scraper.py:197-203 | both dates are `""` unless both markers occur; it fails exactly when both markers occur and a bar does not; successful dates are stripped and contain no bar |
| Card.DatesFromParts | fondos_scraper.py:200-203 | with both markers, the start date is the text before the first bar without `Inicio:`, stripped; the end date is the text between the first and second bar without `Fin:`, stripped; later parts are ignored |
| Card.DatesRoundTrip | fondos_scraper.py:197-203 | the text `Inicio: d1`, bar, `Fin: d2` gives back `d1` and `d2` for any stripped dates without a bar, where `d1` does not contain `Inicio:` and `d2` does not contain `Fin:` |
| Card.DatesNeedBothMarkers | fondos_scraper.py:198-200 | a text with only the start marker loses its start date, and one with only the end marker loses its end date: both dates are `""` and nothing fails |
| Card.ParagraphText | fondos_scraper.py:195-205 | a positional paragraph field is stripped text, `""` when there are too few paragraphs |
| Card.BodyFields | fondos_scraper.py:192-210 | without a card body all four fields are `""`; with one, beneficiary, dates and amount come from paragraphs 0, 1 and 2; it fails exactly when the dates cannot be split |
| Card.ExtractFondoInfo | fondos_scraper.py:169-223 | fails exactly when the first anchor lacks an `href` or the dates cannot be split; a missing `href` is reported first, and a failure of the dates alone is the missing-separator error; on success the URL is the normalised `href` of the first anchor (the origin without an anchor), the timestamp is the given one, the eight text fields are stripped, and the body fields are those of `BodyFields` |
| Card.ScopeFirstMatchWins | fondos_scraper.py:180-182 | the scope is the stripped `text-white` span text if such a span exists, else the `text-dark` one, else `""` |
| Card.SimpleFields | fondos_scraper.py:176-189 | status, institution and name are the stripped texts of the first badge span, `text-uppercase` small and `h6`, each `""` when absent |
| Card.FieldsAreStripped | fondos_scraper.py:176-210 | stripping any text field of an extracted fund again changes nothing |
| Detail.CategoryText | fondos_scraper.py:118-120 | the category read from a block is stripped text, `""` without a `bg-rosa` span |
| Detail.FirstCategoryBlock | fondos_scraper.py:115-117 | the position returned holds a labelled block and no earlier block is labelled; nothing is returned exactly when no block is labelled |
| Detail.CategoryOf | fondos_scraper.py:113-121 | the category is stripped, and `""` when no block is labelled |
| Detail.CategoryFromFirstBlock | fondos_scraper.py:115-121 | the category comes from the first labelled block only, and is `""` when that block has no `bg-rosa` span, whatever later blocks hold |
| Detail.CategoryWithoutBlock | fondos_scraper.py:114-117 | without a labelled block the category is `""` |
| Detail.FindCategory | fondos_scraper.py:113-121 | the scan-with-break loop computes exactly the category of the first labelled block |
| Detail.DescriptionOf | fondos_scraper.py:106-111 | the description is the stripped text of the first `p` in the first `mb-4 d-block` block, `""` without that block or without a `p` in it |
| Detail.DescriptionIsFirstParagraph | fondos_scraper.py:106-111 | for the first `mb-4 d-block` block in document order and its first paragraph, the description is that paragraph's stripped text, whatever later blocks and paragraphs hold |
| Detail.BasesLinkOf | fondos_scraper.py:123-128 | `""` without a `pills-04` block; otherwise the `href` of the first anchor inside it, `""` when there is no anchor or that anchor has no `href`; a non-empty link is the `href` of an anchor of the page |
| Detail.BasesLinkIsFirstAnchor | fondos_scraper.py:123-128 | for the first `pills-04` block in document order and its first anchor, the link is that anchor's `href`, or `""` when it has none, whatever later anchors carry |
| Pipeline.CsvFile.ToCsv | fondos_scraper.py:247-255 | mode `'w'` replaces the file and mode `'a'` appends; the header row is written only when asked for, then the one row with its id |
| Pipeline.SaveFondoToCsv | fondos_scraper.py:253-255 | a file not known to exist is rewritten as header plus row; an existing one gets the row appended; the call is made with mode `'a'` and no header exactly when the file exists |
| Pipeline.Run | fondos_scraper.py:295-308 | the records are the successes of the cards before the first failing card, in order; without a failure every card gave a record; with one, that card's error ends the run |
| Pipeline.RunStopsAtFailure | fondos_scraper.py:295-304 | once a card fails, later cards add no row and change nothing in the outcome |
| Pipeline.RunPrefix | fondos_scraper.py:295-304 | the rows of a shorter run begin the rows of a longer one, so earlier rows are never touched |
| Pipeline.RunStep | fondos_scraper.py:296-304 | one more card either ends the run with its error or appends its record |
| Pipeline.CrawlRecordsFromCards | fondos_scraper.py:295-300 | row k of a run holds card k's listing fields extracted at time `clock(k)`, merged with the detail of the page fetched at that card's own URL |
| Pipeline.CrawlFailureCause | fondos_scraper.py:295-300 | a run that stops names the card after the last row: its extraction error, or, when extraction succeeded, the failed fetch of its URL |
| Pipeline.FileLayout | fondos_scraper.py:294-304 | after at least one row, the file is one header followed by rows with ids 1..n in card order, and nothing from before the run |
| Pipeline.FileAfterStep | fondos_scraper.py:303-304 | saving row n+1 appends to the file written for rows 1..n, with `file_exists` set from the second row on |
| Pipeline.WriteProtocol | fondos_scraper.py:253-254 | the k-th write has id k+1; only the first uses mode `'w'` and writes the header |
| Pipeline.SaveCard | fondos_scraper.py:296-304 | one pass of the loop: a failing card leaves the file and the records as they were and ends the run; otherwise the card's record is saved as row i+1 and the file and write calls are those of a run one card longer |
| Pipeline.SaveCards | fondos_scraper.py:294-308 | the card loop leaves the file and its write calls as the run prescribes, and returns the number of rows written or the error of the first failing card |
| Pipeline.GetFondos | fondos_scraper.py:279-308 | a failed listing fetch fails and leaves the file unchanged; otherwise the whole run over the listing's cards is as `SaveCards` states |

## Left out

- HTTP: `requests.get`, the request headers, `raise_for_status`, the random user agent (`get_user_agent`). A fetch is the parameter `fetch`, a deterministic function from URL to a parsed page or `None`.
- Parsing with lxml: pages arrive as `Html.Node` trees. An element's `.text` is stored in the node, not computed from its children.
- `time.sleep(random.uniform(1, 3))`: it has no effect on what is written.
- `datetime.now().strftime(...)`: the timestamp of card `k` is the given string `clock(k)`.
- pandas serialisation (quoting, escaping, the textual layout of a row) and every `print`. A CSV line is a header line or a record with its id. A write to `fondos.csv` never fails here, so `IOError` is not modelled.
- Card.CardScope: `replace('', '')` at fondos_scraper.py:182 removes nothing as written. It is modelled as the identity followed by the second `strip()`, which changes nothing. The icon glyph it was meant to remove is not in the source.
- `if fondo_info:` at fondos_scraper.py:297: a non-empty dictionary is always true, so the branch is always taken. The model has no branch there.
- `main` (top-level error reporting) and `fondos_scraper - estable.py` (an earlier variant of the script) are not part of this model.
