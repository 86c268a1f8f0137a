# MTG deck scraper: a Dafny model of its extraction and flattening logic

The repository holds two scripts that scrape a Magic: The Gathering deck
site (tappedout.net):

- `commander.py` walks three levels: a listing page of commanders; each
  commander's list of decks; each deck's own page with its card lists. It
  flattens the result into rows `(commander, deck, card, quantity)` and writes
  only the complete rows to a CSV file. A page fetch is tried up to three
  times, with a linearly growing sleep after each failure.
- `card_scraper.py` walks one level: a listing page of decks, each with a list
  of card links. It writes rows `(deck, card, card URL)` unfiltered. Each page
  fetch is tried only once.

The model replaces the network, the clock and the HTML parser by inputs:

- a document is a `Dom.Node` tree. `find` is the first match among a node's
  descendants in document order, and `find_all` is every such match, in order;
- the network is an oracle `respond(k)`, the outcome of the k-th request.
  Sleeps are returned as data;
- the deck pages fetched during a crawl are a map from URL to `Page` (the
  response text and its parsed tree). A URL missing from the map is a fetch
  that returned nothing.

Files:

- `dom.dfy` has the tree and the two searches.
- `fetch.dfy` has the retry loop and its schedule.
- `site.dfy` has what both scripts share: the site origin, the selectors, how a
  list item's first anchor is read, and how the CSV writer renders a null field.
- `commander.dfy` and `card_scraper.dfy` hold the two scripts.

Each loop of the source is a `method` with a `for` or `while` loop. Its
`ensures` ties the result to a functional specification: `Schedule`,
`ListedLinks`, `CardsOf`, `DeckRows`, `ContainerRows`, `CrawlRows`,
`KeepComplete`. Lemmas state what the
scripts promise about those specifications.

Three behaviours of the scripts that a reader might not expect:

- Reading `a_tag['href']` on an anchor that has no `href` raises `KeyError`, and
  nothing catches it. The whole run then stops and no file is written. The model
  returns `None` from the list reading, and the run ends as `Aborted`.
- A deck page that was fetched but holds no cards yields no row at all. Only a
  failed fetch yields a placeholder row for the deck.
- The URL of every extracted deck begins with the site origin. The branch for a
  deck without a URL is modelled, but it is never taken (`DeckUrlsNonEmpty`).

## Model

| member | source | states |
|---|---|---|
| `Dom.FindAll` | commander.py:31 | every match among the descendants is in the result, and nothing else is |
| `Dom.Find` | commander.py:46 | None exactly when no descendant matches; otherwise the result is a matching descendant |
| `Dom.FindIsFirst` | commander.py:50 | the node `find` returns comes first among the matches in document order |
| `Dom.SelectFirst` | commander.py:50 | in a sequence holding a match, the first selected node is the earliest match |
| `Fetch.FetchHtml` | commander.py:8-23 | the retry loop's result, its sleeps and its number of requests are those of `Schedule` |
| `Fetch.ScheduleShape` | commander.py:12-22 | from attempt k on: one sleep per failed attempt, of `delay*(k+i+1)`; a result is the text of the first success within the budget; no result means every attempt up to the budget failed |
| `Fetch.FirstSuccessWins` | commander.py:12-19 | at most `retries` requests; a result exists exactly when some attempt within the budget succeeds, and it is the text of the first one |
| `Fetch.BackoffIsLinear` | commander.py:20-23 | the k-th sleep lasts `delay*(k+1)`; when every attempt fails, there is one sleep per attempt, the last one included |
| `Fetch.DefaultsAllFail` | commander.py:8-23 | with the defaults (3 tries, delay 10), a fetch that always fails sleeps 10, 20 and 30 and returns nothing |
| `Fetch.DefaultsThirdSucceeds` | commander.py:8-23 | with the defaults, two failures then a success return the third response after sleeping 10 and 20 |
| `Site.CardLinkText` | commander.py:38-39 | None exactly when there is no card-link anchor; otherwise the text of the first card-link anchor in document order |
| `Site.ReadItem` | commander.py:50-53 | no anchor exactly when the item has none; an anchor without `href` (the script raises) exactly when the first anchor in document order has no `href`; otherwise a link carrying that first anchor's text and the origin followed by its `href`, so never empty |
| `Site.LinksFromFails` | commander.py:49-54 | reading a list fails exactly when some item's first anchor has no `href` |
| `Site.LinksFromMeaning` | commander.py:48-54 | a list that is read gives one link per item with an anchor, in document order, read from that item's first anchor; items without an anchor are skipped |
| `Site.LinksFromAborts` | commander.py:53 | once an item without `href` has been read, the whole list reading fails |
| `Site.NoListNoLinks` | commander.py:46-48 | a container without a list yields no links |
| `Commander.ExtractCommander` | commander.py:34-39 | None exactly when the container has no card-link anchor; otherwise the text of the first card-link anchor in document order |
| `Commander.ExtractDecks` | commander.py:42-55 | the loop returns the specification `ListedLinks`: one link per anchored item of the first list, or None when an `href` is missing |
| `Commander.DeckUrlsNonEmpty` | commander.py:53 | every deck URL is non-empty and starts with the site origin, so the branch at commander.py:113 is never taken |
| `Commander.Quantity` | commander.py:68 | the text minus its last character: a prefix of the text, one shorter, and empty for an empty text |
| `Commander.QuantityExamples` | commander.py:68 | "3x" gives "3", and "x" and "" both give "" |
| `Commander.ExtractCards` | commander.py:58-71 | the loop returns the specification `CardsOf` for the container's member items |
| `Commander.CardsFromMeaning` | commander.py:63-70 | one card per member item with at least two anchors, in document order; the name is the second anchor's text and the quantity comes from the first anchor; other items are skipped |
| `Commander.AppendDeckRows` | commander.py:113-126 | the body of the deck loop appends exactly the rows `DeckRows` gives for that deck |
| `Commander.AppendContainerRows` | commander.py:103-126 | the body of the container loop appends exactly the rows `ContainerRows` gives for that container, or aborts when it does |
| `Commander.Crawl` | commander.py:102-131 | the nested loops over containers, decks, card lists and cards produce the flat-map specification `CrawlRows`; None when a missing `href` aborts the run |
| `Commander.CrawlRowsAborts` | commander.py:53 | once a container aborts, the whole crawl aborts |
| `Commander.CardRowsMeaning` | commander.py:123-124 | one row per card, in order, with the given commander and deck |
| `Commander.BoardRowsAreCardRows` | commander.py:120-124 | the rows of a fetched deck are the card rows of all its card lists, list by list |
| `Commander.DeckRowsCases` | commander.py:117-126 | a failed fetch (None or empty text) gives exactly the row `[c, deck, None, None]`; a fetched page gives exactly one row per card across all its card lists, in order, and none when it has no cards |
| `Commander.DeckRowsOwner` | commander.py:114-126 | every row of a deck carries its commander and its name |
| `Commander.DecksRowsOwner` | commander.py:112-126 | every row of a deck list carries the commander and the name of one of the decks |
| `Commander.ContainerRowsCases` | commander.py:103-110 | a container whose commander is missing or empty gives no rows; an empty deck list gives exactly `[c, None, None, None]`; every row carries the container's non-empty commander |
| `Commander.EveryRowHasCommander` | commander.py:102-126 | every row of a crawl has a non-empty commander read from one of the containers |
| `Commander.SaveToCsv` | commander.py:74-85 | the header first, then the cells of exactly the complete rows, in input order |
| `Commander.KeptPositions` | commander.py:82-84 | the written rows are a subsequence of the input: positions strictly increasing, and a position is written exactly when its row has all four fields present |
| `Commander.WrittenRowsAreComplete` | commander.py:83 | a row is written exactly when it is in the input and all its fields are present, so placeholder rows and empty quantities are dropped |
| `Commander.Run` | commander.py:88-134 | nothing is written when the listing fetch fails or gives an empty text; the run aborts exactly when the crawl does; otherwise the table is the header followed by the complete crawled rows |
| `CardScraper.FetchHtml` | card_scraper.py:6-16 | a single attempt: the response text when the request succeeds, None when it raises; the same result as the retrying fetcher with a budget of one |
| `CardScraper.ExtractDeck` | card_scraper.py:27-32 | None exactly when there is no card-link anchor; otherwise the text of the first card-link anchor in document order |
| `CardScraper.ExtractCards` | card_scraper.py:35-49 | the loop returns the specification `ListedLinks`: one (text, origin + href) pair per anchored item of the first list, or None when an `href` is missing |
| `CardScraper.LinkRowsMeaning` | card_scraper.py:82-83 | one row per card link, in order, carrying the deck name, the card text and its URL |
| `CardScraper.ContainerRowsCases` | card_scraper.py:76-85 | a falsy deck name gives no rows; a deck without cards gives exactly `[deck, None, None]`; otherwise exactly one row per card, in card order |
| `CardScraper.EveryRowHasDeck` | card_scraper.py:75-85 | every row of a crawl starts with a non-empty deck name read from one of the containers |
| `CardScraper.CrawlRowsAborts` | card_scraper.py:47 | once a container aborts on an anchor without `href`, the whole crawl aborts |
| `CardScraper.AppendContainerRows` | card_scraper.py:76-85 | the body of the container loop appends exactly the rows `ContainerRows` gives for that container, or aborts when it does |
| `CardScraper.Crawl` | card_scraper.py:72-85 | the loop over containers and cards produces the specification `CrawlRows`; None when a missing `href` aborts the run |
| `CardScraper.SaveToCsv` | card_scraper.py:56-61 | the header `Decks, Cards, Cards URL`, then every input row in order, unfiltered: `1 + len(data)` lines |
| `CardScraper.Run` | card_scraper.py:64-88 | nothing is written when the listing fetch fails or gives an empty text; the run aborts exactly when the crawl does; otherwise every crawled row is written after the header |

## Left out

- `Fetch.Schedule`, `Fetch.FetchHtml`: a negative `delay` gives negative sleep durations in the trace. In the script `time.sleep` raises `ValueError` on a negative argument, which the `except` for request errors does not catch, so `fetch_html` itself raises. Every call uses the default delay of 10, so this case never arises in the scripts.
- HTTP itself: the request headers, `raise_for_status` and the exception types. A request is an `Attempt`: a text or a failure.
- The deck fetches inside a crawl are not unfolded into retry schedules. The map of fetched pages stands for the results of `fetch_html`, so one URL always gives the same page.
- `time.sleep`: backoff durations are returned as data. The random 1 to 3 second pause after each deck (`random.uniform`) is not modelled, because it is timing and randomness, not logic.
- HTML parsing (`BeautifulSoup(html, 'html.parser')`): a page carries its already-built tree. `get_text(strip=True)` is the node's `text` field, so the joining of text fragments and the whitespace stripping are not modelled.
- Class matching: a selector's class matches when it is one of the node's class entries. bs4 matches a multi-word selector such as `"card-link card-hover"` against the whole `class` attribute string; the model expects a document to list that whole string as an entry of its own, beside the single tokens, and does not derive the entries from the attribute text.
- CSV quoting, escaping, file handling and UTF-8 encoding: the writer produces a sequence of rows of cells, with a null field as an empty cell.
- `print` progress messages, and the `processed_commanders` counter that only feeds them.
- The `__main__` wiring and the hard-coded URLs and file names. In `card_scraper.py` the entry point compares `__name__` with `'__mani__'`, so that script's `main` never runs on its own.
- `parse_containers` is `FindAll` on the page's tree with the given selector; it has no member of its own.
