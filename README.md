# MateScore scraper, modelled in Dafny

MateScore's backend builds a football squad and per-player statistics by scraping
OneFootball pages (`backend/scraper.py`). This project models that scraper's logic:

- **Team resolution** (`get_team_squad_url`):
  - build the search URL;
  - take the first `/en/team/` link;
  - make the link absolute;
  - derive the squad page.
- **Squad assembly** (`scrape_squad`):
  - choose the player cells;
  - parse each link text `"<Position><Name>(<Number>)"` against the four-word position vocabulary;
  - make the image and profile URLs absolute;
  - de-duplicate entries by name, keeping the first;
  - return nothing when the squad is empty.
- **Player details** (`get_player_details`):
  - derive the `/stats` URL;
  - gather the stat list items;
  - filter the label/value pairs by length and junk words;
  - fill in up to six keywords when fewer than three stats survive.

Fetching a page is a parameter, a total function from URL to `Fetched(page) | Failed`.
A page is what the scraper reads from it:
- the search page is its anchors in document order;
- the squad page is its class-marked cells plus every anchor with its `li`/`div` parent;
- the stats page is its container item lists, its `li.stat-item` list, and the text that follows each keyword.

Modules:
- `Text` holds the Python string operations used: `startswith`, `in`, `rstrip`, `strip`, `split`, `replace`, `lower`.
- `Urls` holds the URL derivations.
- `Web` holds pages, fetches, anchors and `find('a', href=...)`.
- `Team`, `PlayerText`, `Squad`/`SquadFacts` and `Stats` follow the three functions of the scraper.

Where the code works by updating variables in a loop, the model has a method with a loop. Each such method is proved equal to a specification function, and the properties are proved about that function:
- the position loop with its `break`;
- the cell loop that appends to `squad`;
- the two loops that fill `stats`.

Points where the code's behaviour is easy to misread, and which the model follows:
- Only the `/stats` page is fetched. There is no second, concurrent fetch of the profile page, no main-page label vocabulary, no `Age` truncation and no `Country` to `Nationality` rename.
- A repeated stat label overwrites the earlier value (last writer wins), both in the main loop and in the keyword fallback.
- An `<img>` with neither a usable `src` nor a `data-src` gives a null image (`None`), not `""`. Only a cell without `<img>` gives `""`.
- A player name can be empty: a link text that is exactly a position word parses to the name `""` (`PlayerText.BareWordExample`).
- The team resolver derives the squad page exactly as the code does, including the doubled suffix on a team link ending in `/squad/` (see "## Findings"). The corrected derivation `Urls.SquadUrl` is modelled and proved beside it.

## Model

| member | source | states |
|---|---|---|
| Urls.SearchUrl | backend/scraper.py:8 | the search URL is the search prefix followed by the team name with every space turned into `+`, character by character; no space remains |
| Urls.Absolutize | backend/scraper.py:24-26 | the result starts with `http` and ends with the href; it equals the href exactly when the href starts with `http`, otherwise it is the site origin followed by the href |
| Urls.SquadUrlAsWritten | backend/scraper.py:29-32 | the squad URL as the code derives it ends with `/squad`; a URL already ending in `/squad` is unchanged; any other URL becomes its prefix without trailing slashes (the dropped part is all slashes) followed by `/squad`; an absolute URL stays absolute |
| Urls.SquadUrl | backend/scraper.py:29-32 | the corrected squad URL ends with `/squad`; a URL already ending in `/squad` is unchanged; a URL that is `.../squad` plus slashes loses the slashes; any other URL becomes its prefix without trailing slashes (the dropped part is all slashes) followed by `/squad`; an absolute URL stays absolute |
| Urls.SquadUrlIdempotent | backend/scraper.py:29-32 | deriving the corrected squad URL (`Urls.SquadUrl`) twice gives the same URL as deriving it once |
| Urls.SquadUrlAsWrittenIdempotent | backend/scraper.py:29-32 | deriving the squad URL as the code does twice gives the same URL as deriving it once |
| Urls.SquadUrlIgnoresTrailingSlash | backend/scraper.py:29-32 | a trailing slash on the team URL does not change the corrected squad URL (`Urls.SquadUrl`); as written it can, see `Urls.SquadSuffixDoubled` |
| Urls.SquadUrlAgreement | backend/scraper.py:29-32 | the as-written and the corrected derivations agree on every URL except those ending in `/squad` followed by slashes |
| Urls.SquadSuffixDoubled | backend/scraper.py:29-32 | as written, `u + "/"` with `u` ending in `/squad` becomes `u + "/squad"`; the corrected derivation gives `u` |
| Urls.StatsUrl | backend/scraper.py:123 | the stats URL is a prefix of the profile URL with no trailing slash, followed by `/stats`; what the prefix leaves out is all slashes |
| Urls.StatsUrlIgnoresTrailingSlash | backend/scraper.py:123 | a trailing slash on the profile URL does not change the stats URL |
| Web.FirstAnchor | backend/scraper.py:21 | no anchor is found exactly when no href contains the marker; otherwise the anchor found is the first, in document order, whose href contains it |
| Team.ResolveTeam | backend/scraper.py:6-38 | a team is found exactly when the search page was fetched and has a `/en/team/` link; its name is the text of the first such link and its squad URL is that link's href made absolute and passed through the as-written `/squad` derivation, starting with `http` and ending with `/squad` |
| PlayerText.MatchIndex | backend/scraper.py:85-86 | the index found is that of the first position word, in list order, that prefixes the text, or the list length when none does |
| PlayerText.SplitRest | backend/scraper.py:88-93 | with both parentheses in the rest, the name is the stripped text before the first `(` and the number the stripped text after it (up to the next `(`) with every `)` removed; both carry no surrounding whitespace, neither contains `(` and the number contains no `)`; otherwise the name is the rest unchanged and the number is empty |
| PlayerText.ParseWith | backend/scraper.py:80-94 | the position is `Unknown` exactly when no word prefixes the text, and then the name is the whole text and the number is empty; otherwise the position is the first matching word and name and number are split from what follows it |
| PlayerText.ParsePlayerText | backend/scraper.py:80-94 | the loop over the vocabulary with its `break` computes exactly the specified parse |
| PlayerText.WordsExclusive | backend/scraper.py:80 | no two distinct position words both prefix one text, so the first match is the only match |
| PlayerText.ParseKnownPrefix | backend/scraper.py:85-88 | a text starting with a vocabulary word is parsed with that word as position and the remainder as the rest |
| PlayerText.SplitFormatted | backend/scraper.py:89-91 | splitting `name + "(" + number + ")"` gives back the name and the number when they are trimmed and free of the delimiters |
| PlayerText.ParseFormatted | backend/scraper.py:80-94 | formatting a player as `"<Position><Name>(<Number>)"` and parsing the text gives back the position, name and number |
| PlayerText.ParseWithoutNumber | backend/scraper.py:92-93 | without both parentheses the name is the unstripped remainder after the position word and the number is empty |
| PlayerText.ParseExample | backend/scraper.py:80-94 | `"MidfielderJude Bellingham(5)"` parses to name `Jude Bellingham`, position Midfielder, number `5` |
| PlayerText.BareWordExample | backend/scraper.py:86-93 | the text `"Goalkeeper"` parses to position Goalkeeper with an empty name |
| Squad.ImageUrl | backend/scraper.py:75-78 | no `<img>` gives `""`; the result is null exactly when the `<img>` has neither a non-empty `src` nor a `data-src`; `src` is preferred; a value starting with `/` becomes the site origin followed by it, and any other is unchanged; no result starts with `/` |
| Squad.CandidateCells | backend/scraper.py:62-66 | the class-marked cells when there are any, otherwise the parents of the player links |
| Squad.LinkParents | backend/scraper.py:65-66 | every cell returned is the parent of a player link, and every player link that has a parent contributes it |
| Squad.CellEntry | backend/scraper.py:69-99 | a cell yields an entry exactly when it has a player link with non-empty text; the entry carries the parse of that text, the cell's image and the link's href made absolute (`Urls.Absolutize`) |
| Squad.Dedup | backend/scraper.py:96-107 | the de-duplicated entries have pairwise distinct names, the same set of names as the input and no more entries than it |
| Squad.AppendNew | backend/scraper.py:96-101 | appending an entry whose name is absent keeps names distinct and adds exactly that name |
| Squad.FirstIndex | backend/scraper.py:96 | the index returned holds the name and no earlier entry does |
| Squad.BuildSquad | backend/scraper.py:68-107 | the cell loop, with its `continue`s and guarded append, builds exactly the de-duplicated entries of the accepted cells |
| Squad.Scrape | backend/scraper.py:40-119 | a result exists exactly when the team resolves, its squad page is fetched and some cell yields an entry; the result names the team by its link text and holds the collected squad, non-empty with distinct names |
| Squad.ScrapeSquad | backend/scraper.py:40-119 | the scraping procedure returns exactly the specified result |
| SquadFacts.DedupFirstAt | backend/scraper.py:96-107 | each kept entry is the first entry of the input with its name |
| SquadFacts.DedupOrderAt | backend/scraper.py:96-107 | kept entries appear in the order of their names' first occurrences |
| SquadFacts.DedupKeepsFirsts | backend/scraper.py:96-107 | every kept entry is the first entry of the input with its name |
| SquadFacts.DedupKeepsOrder | backend/scraper.py:96-107 | document order of first occurrences is preserved |
| SquadFacts.DistinctNamesCount | backend/scraper.py:96-107 | a sequence with distinct names has as many names as entries |
| SquadFacts.DedupSize | backend/scraper.py:96-107 | the squad length equals the number of distinct names among the accepted entries |
| SquadFacts.SkippedCellAddsNothing | backend/scraper.py:69-73 | a cell without a player link, or with empty link text, leaves the squad unchanged |
| SquadFacts.DuplicateCellAddsNothing | backend/scraper.py:96 | a cell whose name is already in the squad leaves the squad unchanged |
| SquadFacts.NewNameAppends | backend/scraper.py:96-107 | a cell with a new name appends its entry at the end of the squad |
| SquadFacts.LinkParentsOne | backend/scraper.py:65-66 | one anchor contributes its parent exactly when it is a player link that has a parent |
| SquadFacts.LinkParentsAppend | backend/scraper.py:65-66 | the fallback cells of a concatenation are those of its first part followed by those of its second, so document order and repeats are kept |
| SquadFacts.CollectSpec | backend/scraper.py:68-107 | the squad has distinct names, the same names as the accepted entries, one entry per name, each the first accepted entry with that name, in document order |
| Stats.MainStats | backend/scraper.py:147-157 | every stored pair has a non-empty label under 40 characters and a non-empty value under 20 characters, and a label free of junk words; every accepted item's label is stored |
| Stats.MainStatsLastWins | backend/scraper.py:157 | each stored value is that of the last accepted item with its label |
| Stats.LaterLabelWins | backend/scraper.py:157 | of two accepted items with the same label, the later one's value is stored |
| Stats.JunkExample | backend/scraper.py:155-157 | the label `Instagram` is junk after lower-casing and is never stored |
| Stats.Fallback | backend/scraper.py:160-170 | the fallback keeps every earlier key, adds only keywords, stores each keyword's usable value (non-empty, under 10 characters), overwriting, and leaves every other entry unchanged |
| Stats.Details | backend/scraper.py:121-175 | a failed fetch gives an empty mapping; otherwise every main stat's label is present, three or more main stats are returned unchanged, fewer are passed through the keyword fallback (`Stats.Fallback`), which sets every usable keyword value, and every entry either passes the filter or is a keyword with a usable value |
| Stats.GetPlayerDetails | backend/scraper.py:121-175 | the details procedure returns exactly the specified mapping |
| Stats.CollectItems | backend/scraper.py:137-145 | the items are the container items in container order, or the `li.stat-item` elements when there is no container |
| Stats.FilterPairs | backend/scraper.py:147-157 | the main loop stores exactly the specified filtered mapping |
| Stats.ApplyFallback | backend/scraper.py:160-170 | the keyword loop stores exactly the specified fallback mapping |
| Text.RStrip | backend/scraper.py:30 | `rstrip(c)` leaves a prefix not ending in `c`, and what it drops is all `c` |
| Text.Strip | backend/scraper.py:90 | `strip()` leaves no whitespace at either end; what it drops is stated by `Text.StripInfix` |
| Text.StripInfix | backend/scraper.py:90-91 | what `strip()` returns occurs in its argument at some index, with only whitespace before it and only whitespace after it |
| Text.StripChars | backend/scraper.py:90-91 | `strip()` introduces no character |
| Text.StripTrimmed | backend/scraper.py:90-91 | a string without surrounding whitespace is its own strip |
| Text.Before | backend/scraper.py:90 | `split(c)[0]` is a prefix without `c`, followed by `c` when shorter than the string, and the whole string when `c` is absent |
| Text.After | backend/scraper.py:91 | the string is the text before the first `c`, then `c`, then the result |
| Text.SecondField | backend/scraper.py:91 | `split(c)[1]` is a prefix of the text after the first `c`, contains no `c`, and is followed by `c` when shorter than that text (it is all of it when there is no second `c`) |
| Text.RemoveAll | backend/scraper.py:91 | `replace(c, "")` leaves no `c`, adds no character and changes nothing when `c` is absent |
| Text.RemoveAllOne | backend/scraper.py:91 | on one character, `replace(c, "")` drops it exactly when it is `c` |
| Text.RemoveAllConcat | backend/scraper.py:91 | `replace(c, "")` distributes over concatenation, so every other character survives in order |
| Text.ReplaceChar | backend/scraper.py:8 | `replace(a, b)` keeps the length and maps each `a` to `b`, leaving other characters unchanged |

## Left out

- HTTP fetching (`requests.get`, `raise_for_status`, request headers) is a parameter returning a page or a failure. The broad exception handlers appear only as that failure's result (`None` or an empty mapping).
- HTML parsing and the DOM queries are abstracted into the page datatypes above. This covers `find`, `find_all`, `find_parent`, `find_next`, `get_text(strip=True)` and the class-attribute lambdas. Which elements a query returns is an input, not computed.
- The keyword fallback's `find(text=...)`/`find_next` pair is the page's `following` map from a keyword to the text of the element after it.
- Writing `squad.json` and all `print` logging are left out, because they are file and console output.
- backend/heatmap_generator.py, backend/graph_generator.py and backend/app.py are not part of this model. They are floating-point chart rendering and HTTP route glue.
- Text.Lower: lower-cases ASCII letters only, while Python's `lower()` covers all of Unicode. The junk words are ASCII, but a non-ASCII capital in a label is not lowered here.
- Stats.Details: a Python dict keeps insertion order and the model's `map` does not, so the order of the stats is not modelled.
- Text.IsSpace: Python's `isspace()` is modelled by its character set rather than by the Unicode database.
- The text of an anchor is taken as already stripped (`get_text(strip=True)`), not computed from the element's children.

## Findings

| source | as written | input that shows it | evidently intended | confidence | as-written member | corrected member |
|---|---|---|---|---|---|---|
| backend/scraper.py:29-32 | the `/squad` suffix test runs before trailing slashes are stripped | team href `https://onefootball.com/en/team/x/squad/` gives `https://onefootball.com/en/team/x/squad/squad` | strip trailing slashes, then add `/squad` only when it is not already there, giving `https://onefootball.com/en/team/x/squad` | not executed | Urls.SquadUrlAsWritten (with Urls.SquadSuffixDoubled) | Urls.SquadUrl |
