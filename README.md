# PokeApi data pipeline, modelled in Dafny

This project models the data pipeline of `main.py`. The pipeline fetches every
Pokémon from the paginated PokeAPI listing. It then fetches each Pokémon's
detail record, flattens each record, collects the distinct type names, and
groups the flattened records by type.

- `options.dfy` (`Options`): the `Option` datatype, which stands in for Python's `None`.
- `text.dfy` (`Text`): Python's `", ".join(...)` and `s.split(", ")`.
  - `IndexOf` finds the first occurrence of the separator.
  - `Split` cuts at every occurrence, leftmost first.
  - Two round trips are proved: `JoinSplit` for every string, and `SplitJoin`
    for a non-empty list of names that contain no `", "`.
- `listing.dfy` (`Listing`): `getPokemonUrl`, the pagination loop.
  - The listing endpoint is a total function from (offset, limit) to a
    response made of a status and a `results` list.
  - `FetchListing` is the loop as a `while` loop. It is proved against
    `Collected`, the in-order concatenation of what each request contributes.
    Its ghost `requested` records the offset of every request.
  - `Serving` is an endpoint that always succeeds and holds N entries. For it,
    `ServingEverything` proves that the loop issues N / pageSize + 1 requests
    and returns exactly the N entries.
- `details.dfy` (`Details`): the detail side.
  - `FetchDetail` models `fetchPokemonData`: a payload on status 200, `None` otherwise.
  - `Gather` models the position-preserving result of `asyncio.gather`.
  - `Successes` models the `None` filter of `getPokemonData`.
- `catalog.dfy` (`Catalog`): `pokemonList` (`ProjectAll`),
  `getPokemonType` (`Categories`) and `groupPokemonByType` (`Group`).
  `Report` composes them as the script does.
- `scenarios.dfy` (`Scenarios`): worked instances.
  - A two-page listing of three entries.
  - Its report: "fire" holds a and c, "water" holds b.
  - The same report when the detail request for b answers 404: "water" disappears.
  - A type name that itself contains `", "`.

Two behaviours of `main.py` are easy to misread. The model follows the code in both:

- One might expect ceil(N / pageSize) listing requests. The code stops only
  on a page shorter than `pageSize`, so it issues N / pageSize + 1 requests
  (integer division). On an exact multiple of `pageSize`, the last request
  returns an empty page (`ServingEverything`).
- `getPokemonType` reads the type names from the raw payloads. Grouping
  instead splits each flattened record's `types` string. The two agree only
  when no type name contains `", "`. `ReportFilesByOwnTypes` proves they agree
  when names are non-empty and free of `", "`. `SeparatorInTypeName` shows a
  name containing `", "`: it becomes a key of the report, but its own record
  is not filed under it.

## Model

| member | source | states |
|---|---|---|
| `Text.IndexOf` | main.py:78 | Returns the first index at which the separator occurs, with no occurrence before it; returns `None` exactly when the separator does not occur at all. |
| `Text.Join` | main.py:65-66 | The join starts with the first name. Its length is the names' total length plus one separator between each neighbouring pair; joining no names gives the empty string. |
| `Text.Split` | main.py:78 | Splitting always gives at least one piece, and no piece contains the separator. |
| `Text.JoinSplit` | main.py:78 | Joining the pieces of `s.split(sep)` with `sep` gives back `s`, for every string. |
| `Text.SplitJoin` | main.py:65-66 | Splitting on `", "` a record's `", "`-joined names gives back the names in order, when there is at least one name and none contains `", "`. |
| `Text.SplitEmptyJoin` | main.py:65 | A payload with no types gets the empty `types` string, which splits into one empty piece, not into none. |
| `Listing.StopIndexFrom` | main.py:29-35 | Searching from request k, returns the first request whose response ends the loop; every request between k and it returned a full page. |
| `Listing.StopIndex` | main.py:29-35 | The request that ends the loop: every earlier request returned a full successful page, and this one failed or came back short. |
| `Listing.OffsetIs` | main.py:21-32 | The offset of the k-th request, built by adding the page size once per full page starting from the initial offset, equals pageStart + k * pageSize. |
| `Listing.FetchListing` | main.py:17-36 | Exactly StopIndex + 1 requests are made, and request k goes to offset pageStart + k * pageSize. The result is the in-order concatenation of what each of those requests contributed: a successful page its results, a failed last page nothing. |
| `Listing.StopsAtFirstLast` | main.py:29-35 | Up to the stopping request, a request ends the loop exactly when it is the stopping one. |
| `Listing.StopIndexUnique` | main.py:29-35 | At most one request can be the first to fail or to come back short, so the loop's stopping point is determined by the endpoint. |
| `Listing.CollectedLength` | main.py:26-32 | After n full pages the list holds at least n * pageSize entries, and exactly that many when no page exceeds its limit. |
| `Listing.CollectedGrows` | main.py:26 | The list only grows: what m requests collected is a prefix of what n >= m requests collected. |
| `Listing.FailureKeepsEarlierPages` | main.py:33-35 | A failed response ends the loop and adds nothing, so the result is exactly the earlier pages. |
| `Listing.ServingPrefix` | main.py:26-32 | Against an endpoint serving N entries, the first n pages that fit inside N are full and together collect the first n * pageSize entries. |
| `Listing.ServingLastPage` | main.py:29-32 | Against an endpoint serving N entries, request N / pageSize is the one that returns the short remainder. It ends the loop with all N entries collected, and returns an empty page when N is a multiple of pageSize. |
| `Listing.ServingEverything` | main.py:19-32 | From offset 0 against an endpoint serving N entries, whatever request ends the loop is number N / pageSize (so N / pageSize + 1 requests are made). The result is exactly the N entries, and on an exact multiple the last request returns an empty page. |
| `Details.FetchDetail` | main.py:41-47 | A detail fetch yields the response body exactly when the status is 200, and `None` otherwise. |
| `Details.Gather` | main.py:53-54 | Gathering gives one outcome per summary, in summary order; outcome i is present exactly when the request for summary i succeeded, and then it holds that response's body. |
| `Details.Successes` | main.py:56 | The filter loses exactly one entry per `None`: its length is the input length minus the number of `None`s. |
| `Details.SuccessesMembers` | main.py:56 | A payload is in the filtered list exactly when it was a present outcome. |
| `Details.SuccessesAppend` | main.py:56 | The filter keeps order: filtering a concatenation is the concatenation of the filtered parts. |
| `Details.SuccessesSingle` | main.py:56 | A single present outcome is kept as its payload, and a single `None` is dropped. |
| `Details.SuccessesAllPresent` | main.py:56 | When no request failed, the filtered list is every payload, in order. |
| `Details.FetchAll` | main.py:51-57 | `getPokemonData` returns at most one payload per summary. |
| `Details.FetchAllAppend` | main.py:53-56 | Payloads come back in request order: fetching two batches of summaries returns the first batch's payloads followed by the second's. |
| `Details.FetchAllSingle` | main.py:41-56 | One request contributes its body when it answers 200 and nothing otherwise; with FetchAllAppend this fixes the whole result, order and repetitions included. |
| `Details.FetchAllCount` | main.py:51-57 | The number of payloads returned is the number of summaries minus the number of summaries whose detail request failed. |
| `Details.FetchAllMembers` | main.py:51-57 | A payload is returned exactly when some summary's detail request answered 200 with it. |
| `Catalog.Project` | main.py:62-67 | A record keeps the payload's id and name. Splitting its `types` (`abilities`) string on `", "` gives back the payload's type (ability) names in order, when there is at least one and none contains `", "`. With no types, `types` is empty. In every case `types` and `abilities` are the `", "`-joins of the names, even when a name contains `", "` or a list is empty. |
| `Catalog.ProjectAll` | main.py:60-69 | `pokemonList` has one record per payload, in order, with `out[i].id == in[i].id` and `out[i].name == in[i].name`; record i is the projection of payload i. |
| `Catalog.Flatten` | main.py:73 | A name is in the flattened list exactly when it is in one of the per-payload lists. |
| `Catalog.Dedup` | main.py:74 | `list(set(s))` has no duplicates and exactly the elements of `s`. |
| `Catalog.Categories` | main.py:72-74 | `getPokemonType` has no duplicates, and a name is in it exactly when it is a type name of some payload. |
| `Catalog.Members` | main.py:78 | The records filed under a type name are a subsequence of the record list, so they keep its order. |
| `Catalog.MembersMembership` | main.py:78 | A record is filed under a type name exactly when it is in the list and its split `types` contain that name. |
| `Catalog.MembersMultiplicity` | main.py:78 | A record carrying the type name is kept as many times as it occurs in the list, and any other record is never kept. |
| `Catalog.Group` | main.py:77-79 | The keys are exactly the supplied type names. Each group is a subsequence of the records, and a record is in group t exactly when t is in its split `types`. Group t is `Members(t, records)`, so each matching record keeps its position and every repetition (`MembersMultiplicity`). |
| `Catalog.Report` | main.py:108-125 | The report produced by the script: its keys are the extracted type names, and each maps to the matching projected records in order. |
| `Catalog.ReportKeys` | main.py:72-79 | The report's keys are exactly the type names seen in the payloads. |
| `Catalog.ReportFilesByOwnTypes` | main.py:72-79 | When every type name is non-empty and free of `", "`, payload i's record is in group t exactly when t is one of payload i's type names. |
| `Scenarios.ListingOfThree` | main.py:17-36 | Listing a, b, c with page size 2 takes two requests, the second of which returns the short page [c]; the result is [a, b, c]. |
| `Scenarios.ReportOfThree` | main.py:51-79 | With all detail requests succeeding, the payloads are [a, b, c], and the report maps "fire" to [a, c] and "water" to [b]. |
| `Scenarios.ReportWithoutB` | main.py:41-57 | When b's detail request answers 404, the payloads are [a, c] and the report maps only "fire" to [a, c]; "water" is not a key. |
| `Scenarios.SeparatorInTypeName` | main.py:73-78 | A payload whose single type name is "x, y" makes "x, y" a key of the report, yet that key's group is empty, because the record's `types` splits into "x" and "y". |

## Left out

- HTTP and JSON (`requests.get`, `aiohttp.ClientSession`, `response.json()`): the listing and detail endpoints are function parameters from query to response. A response is its status plus the decoded fields `main.py` reads.
- Concurrency of `asyncio.gather` and the event loop: only the position-preserving sequence of outcomes is modelled, not completion order or the shared session.
- A missing key in a listing response or a detail payload (a `KeyError` that ends the run): responses and payloads always carry the fields read.
- Exceptions raised by the transport or by JSON decoding (`requests.get` at main.py:21, `asyncSession.get` and `response.json()` at main.py:42-44). These end the run, and since `asyncio.gather` at main.py:54 is called without `return_exceptions`, one raising detail request discards every detail result. The model's endpoints are total and always answer with a status, so these paths are not modelled.
- `showDisplay` and the diagnostic `print`s: console output only.
- The module-level script (main.py:90-128): fixed constants and commented-out test loops. `Catalog.Report` composes the steps in the script's order.
- The iteration order of `list(set(...))` in `getPokemonType`, which Python leaves unspecified: `Dedup` keeps first occurrences, and only no-duplicates and the element set are promised.
- Listing.FetchListing: takes as a ghost argument the index of some request that fails or comes back short. Without one the source loops forever, which a terminating method cannot express.
- Negative offsets and page sizes: offsets and page sizes are natural numbers.
- Listing.FetchListing: the listing endpoint is a fixed function of (offset, limit), so repeated requests for the same page get the same answer. With page size 0 the source re-requests one URL until a request fails, and a live server could answer those requests differently; the model gives every one of them the same response.
