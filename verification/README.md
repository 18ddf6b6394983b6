# Tour planner core: theme filter, record filters, greedy route, Wikidata ids

This project is a Dafny model of the pure core of a Vancouver sightseeing-tour planner.
The planner works on an OpenStreetMap amenity table. `main.py` does four things:

- it drops the rows without a name;
- it keeps the "interesting" rows, those whose tags carry one of eight informative keys;
- it keeps the rows of the chosen theme through a fixed theme-to-category table, then the first `n` of them;
- it orders their coordinates by the greedy nearest-neighbour heuristic.

`test.py` adds a `wikidata_id` column to the table, read from each row's tag dictionary.

Modules:

- `Values`: Python's dynamic values as the table holds them. A cell is a tag dictionary or a scalar. The module also gives Python's truthiness, `dict.get` and `or`.
- `Sequences`: pandas' boolean-mask row selection (`KeepIf`) and `head(n)`, with the order-preserving-subsequence specification `Filtered` and its uniqueness.
- `Amenities`: the row type and the filters in `main` for names present, interesting tags and starting points.
- `Themes`: the theme table and `filter_by_theme`.
- `Route`: `nearest_neighbor_route` over any point type. The distance function is a parameter about which nothing is assumed.
- `Tour`: the pipeline of `main` from the loaded rows to the route.
- `Wikidata`: `get_wikidata_id` and `extract_wikidata_ids` over a table of columns and rows.

Python exceptions are modelled as results:

- the TypeError that `k in tags` raises on a non-dictionary, non-string cell;
- the KeyError on `'amenity'` when no row has a name: the tag test's mask over no rows is an empty object-typed series, pandas reads it as a list of column labels, and `filter_by_theme` then indexes a frame without columns;
- the IndexError of `points[0]` when rows remain but none of them is a tour point.

Two behaviours of `main.py` are easy to misread:

- For an unknown theme, `filter_by_theme` prints a warning and keeps the rows whose amenity equals one of the seven theme names (`isin` on a dictionary reads its keys).
- The route orders all of the first `n` themed rows.

## Model

| member | source | states |
|---|---|---|
| Sequences.KeepIf | main.py:131 | boolean-mask selection keeps exactly the rows satisfying the predicate, each as often as in the input, in input order (an order-preserving subsequence) |
| Sequences.FilteredUnique | main.py:122 | the selection specification pins the result down: two sequences meeting it for the same input and predicate are equal |
| Sequences.KeepIfIdempotent | main.py:122 | selecting again with the same predicate changes nothing |
| Sequences.Head | main.py:156 | `head(n)` is a prefix of length min(n, length), or length+n floored at 0 for negative n |
| Amenities.Named | main.py:131 | the rows kept are exactly those with a name present, in order |
| Amenities.AnyMentioned | main.py:135-142 | the short-circuit `or` of membership tests raises exactly when the tags are neither a dictionary nor a string; otherwise it is true exactly when some listed key is mentioned |
| Amenities.InterestingFilter | main.py:135-142 | fails exactly when some row's tags make `in` raise; otherwise keeps exactly the rows whose tags mention one of the eight keys, with multiplicities, in order |
| Amenities.InterestingDictIff | main.py:135-142 | for dictionary tags a row survives iff one of brand:wikidata, brand:wikipedia, official_name, opening_hours, cuisine, addr:street, addr:housenumber, website is a key |
| Amenities.StartingPoints | main.py:145-151 | keeps exactly the rows whose amenity is in the transit-and-housing list, in order |
| Themes.FilterByTheme | main.py:110-125 | known theme: exactly the rows whose amenity is in that theme's list; unknown theme: exactly the rows whose amenity is a theme name; an order-preserving subsequence either way |
| Themes.KnownThemeSelects | main.py:121-122 | for a theme in the table, a row is in the result iff it is in the input and its amenity is in the theme's list |
| Themes.UnknownThemeSelectsThemeNames | main.py:123-125 | for a name outside the table, a row is kept iff its amenity is one of "nature", "food", "history", "science", "art", "entertainment", "mode of travel" |
| Themes.UnknownThemesAgree | main.py:123-125 | any two unknown theme names give the same result: the requested name plays no role |
| Themes.FilterByThemeIdempotent | main.py:121-125 | filtering twice by the same theme equals filtering once |
| Themes.ThemeScenario | main.py:112-125 | a park is kept by "nature" and dropped by a misspelt theme; an amenity literally named "science" is kept by both "science" and a misspelt theme |
| Route.Nearest | main.py:86 | `min` with a distance key returns the first position of a minimum distance |
| Route.ScanMin | main.py:86 | the left-to-right scan that replaces the running best only on a strictly smaller key ends at the first minimum |
| Route.RemoveFirst | main.py:88 | `list.remove` deletes the first element equal to the argument and keeps the rest in order; the list shortens by one and loses exactly one copy of the element |
| Route.RemoveChosenIsPositional | main.py:86-88 | removing the point `min` chose deletes exactly the chosen position |
| Route.Extend | main.py:83-89 | the loop keeps the route built so far as a prefix, and ends with every unvisited point placed exactly once |
| Route.NearestNeighborRoute | main.py:78-90 | the route has the input's length, starts at `points[0]` and is a permutation of the input |
| Route.RouteIsGreedy | main.py:83-88 | every later point is the first nearest of the points not yet placed, measured from its predecessor, in remaining-list order |
| Route.RouteStepsAreNearest | main.py:84-88 | no point still to be placed is strictly nearer to `route[k-1]` than `route[k]` |
| Route.UnplacedMultiset | main.py:81-88 | the unvisited list holds the input after the start, minus the points already placed, as multisets |
| Tour.TourPoints | main.py:131-156 | fails with the `'amenity'` KeyError exactly when no row has a name, and with the tag error exactly when a named row's tags make `in` raise; never fails for lack of tour points; otherwise at most `n` rows, an order-preserving subsequence of the input, each named, interesting and of the theme (or named like a theme, for an unknown theme) |
| Tour.TourPointsArePrefix | main.py:131-156 | when the tag test does not raise, the tour points are the `'amenity'` KeyError if no row has a name, and otherwise the first min(n, length) rows of the theme-filtered interesting named rows |
| Tour.Coordinates | main.py:159 | the list of `[lat, lon]` pairs has one entry per tour point, in row order, carrying that row's latitude and longitude |
| Tour.NoneNamed | main.py:131 | dropping the unnamed rows leaves nothing exactly when no input row has a name |
| Tour.NamedRaises | main.py:131-142 | the tag test raises on the named rows exactly when some named input row has tags that make `in` raise |
| Tour.TourRoute | main.py:131-162 | fails with the tour points' error when they fail, and with the index error exactly when the tour points are empty; succeeds exactly when there is at least one tour point, and the route is then a permutation of their coordinates starting at the first one |
| Tour.TourRouteIsGreedy | main.py:159-162 | the tour route is the greedy route over the tour points' coordinates and every step of it is greedy |
| Wikidata.GetWikidataId | test.py:17-20 | a non-dictionary yields None; a truthy "wikidata" entry is returned; otherwise the "brand:wikidata" entry, or None when absent |
| Wikidata.WikidataIdSource | test.py:20 | a non-None id is a truthy "wikidata" entry or the "brand:wikidata" entry of a dictionary; with both keys absent the id is None |
| Wikidata.WithColumn | test.py:22 | assigning a column keeps the existing columns in order; a new label is appended once, and an existing label keeps its place without being duplicated |
| Wikidata.ExtractWikidataIds | test.py:12-23 | without a "tags" column the table is unchanged; otherwise same rows, a "wikidata_id" column added or overwritten from each row's tags, and every other cell unchanged |
| Wikidata.ExtractKeepsRectangular | test.py:22-23 | a table whose rows have cells for exactly its columns keeps that shape |
| Wikidata.ExtractIdempotent | test.py:14-23 | extracting a second time changes nothing |

## Left out

- `input_field` (main.py:11-64): interactive prompting on standard input. The theme and `n` are parameters of the pipeline. The start coordinates and the transport and hotel answers are unused by the modelled code.
- `haversine` (main.py:66-75): floating-point trigonometry. The route takes the distance as a function parameter and assumes neither symmetry nor zero self-distance.
- `create_tour_map` and saving the map (main.py:92-107, 166): map rendering.
- Loading the gzip JSON table and printing the distinct amenities (main.py:128, test.py:92-96): file I/O and output.
- `fetch_wikidata_info` (test.py:59-88) and its commented-out variant: SPARQL network queries.
- The warning printed for an unknown theme (main.py:124): output only.
- The osmnx, networkx and geopy imports: unused by the modelled code.
- Floats are modelled as reals. NaN coordinates, whose comparisons and list equality behave differently, are not modelled.
- Tag values are strings, numbers, booleans or None. Lists and nested dictionaries as tag values are not modelled.
- The pandas row index is not modelled. Rows are a sequence, and selection keeps their order.
- Wikidata.ExtractWikidataIds: returns a new table rather than mutating the caller's frame in place. The returned frame is the same either way.
- Route.NearestNeighborRoute: requires a non-empty input, because `main.py` raises IndexError on `points[0]`. Tour.TourRoute models that error for the pipeline.
