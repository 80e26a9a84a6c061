# py-software-repo: the search page's logic in Dafny

This project models the two pieces of sequential logic in a small software catalogue
web application and proves their properties. The application is a Flask server over a
SQLite `software` table, plus a browser script that pages through the catalogue.

- **Server** (`app/main.py`). Modelled here:
  - the upload-extension filter `allowed_file`;
  - the tag vocabulary that the index page offers;
  - the `/api/software` handler: reading its arguments, building its two parameterised SQL statements, the offset, the page count and the JSON response;
  - the path guard of the `/download/<path>` route.

  The model works on already-parsed values. A database query becomes a function from statement to result. The normalised download name and the file-existence test are inputs.
- **Client** (`app/static/js/app.js`). This becomes the class `Client.ViewController`:
  - its module-level state becomes fields: list or grid view, current page and page size, plus the current search text, category and column count that the script reads from its inputs;
  - each event handler becomes a method;
  - a reload becomes the request it records;
  - `renderSoftwares` and `renderPagination` become loops that rebuild abstract node sequences. The card container holds one card per item. The pagination bar holds page buttons, each with a number and a highlight flag, beside the per-page selector.

Each handler is proved against the pure transition `Client.Step` and the validity invariant `ViewController.Valid`. The render methods are proved against `Client.Paginated` and `Client.LayoutFor`. Separate lemmas describe those functions.

Files:

| file | module | contents |
|---|---|---|
| `wrappers.dfy` | `Wrappers` | `Option` and `Result` |
| `arith.dfy` | `Arith` | a sign fact about products with a positive factor |
| `text.dfy` | `Text` | Python's `lower`, `strip`, `split`, `startswith` and string order |
| `tags.dfy` | `Tags` | the tag vocabulary |
| `server.dfy` | `Server` | upload filter, arguments, statements, page count, response, download guard |
| `client.dfy` | `Client` | view state, transitions, page buttons, cards, the controller class |

Behaviour of the code worth noting:
- An empty item list renders no cards. There is no placeholder node.
- With no rows, the server still reports `pages` = 1 (`app/main.py:79`), but the client draws no page buttons.
- Clearing the search box does not go back to page 1 (`app/static/js/app.js:94`).
- The client renders no tag badges.

## Model

| member | source | states |
|---|---|---|
| Text.Lower | app/main.py:49-51 | every upper-case ASCII letter becomes lower case and nothing else changes; the result has no upper-case letter |
| Text.LowerOfLower | app/main.py:49-51 | lower-casing is idempotent and leaves a string with no upper-case letter alone |
| Text.Strip | app/main.py:40 | the result has no white space (Python's `isspace` set) at either end |
| Text.StripCutsOnlySpace | app/main.py:40 | `strip` removes only white space, and only at the two ends: `s == front + strip(s) + back` with both parts all space |
| Text.StripIdempotent | app/main.py:40 | stripping twice is stripping once |
| Text.Split | app/main.py:40 | `split(',')` returns at least one piece and no piece contains the separator |
| Text.JoinSplit | app/main.py:40 | joining the pieces of a split with the separator gives back the string |
| Text.SplitJoin | app/main.py:40 | splitting a join of separator-free pieces gives back the pieces |
| Text.StartsWith | app/main.py:99 | `startswith`: true exactly when the prefix is no longer than the string and agrees with it position by position |
| Text.Less | app/main.py:40 | the `<` that `sorted` uses: a string is never less than itself, and a proper prefix is less than the longer string |
| Text.LessIrreflexive | app/main.py:40 | the string order used by `sorted` is irreflexive |
| Text.LessTransitive | app/main.py:40 | the string order is transitive |
| Text.LessTotal | app/main.py:40 | any two different strings are ordered one way or the other |
| Tags.Insert | app/main.py:40 | inserting into a sorted list keeps it sorted, adds exactly the new element and drops a repeat |
| Tags.SortedSet | app/main.py:40 | `sorted(set(xs))` is sorted and holds exactly the elements of `xs` |
| Tags.ChainedIsStrictlySorted | app/main.py:40 | each element below the next implies every element below every later one |
| Tags.SegmentsMembers | app/main.py:40 | a string is a segment exactly when it is the j-th comma piece of the i-th tag string |
| Tags.CandidatesMembers | app/main.py:40 | a string is a candidate exactly when it is non-empty and the strip of some segment |
| Tags.Segments | app/main.py:40 | every comma segment of every tag string, in order |
| Tags.Candidates | app/main.py:40 | the stripped segments that are not blank |
| Tags.UniqueTags | app/main.py:40 | `sorted(set(...))` of the candidates; the result is sorted |
| Tags.UniqueTagsMember | app/main.py:40 | one string is in the vocabulary exactly when it is a non-blank trimmed comma piece of some tag string |
| Tags.UniqueTagsSpec | app/main.py:40 | the vocabulary is strictly sorted, with no repeats; it holds exactly the non-blank trimmed comma segments of the inputs; every element is non-empty and its own strip |
| Tags.UniqueTagsExample | app/main.py:40 | `"cli, tools ,  "` gives `["cli", "tools"]`, dropping the blank trailing segment |
| Server.Extension | app/main.py:27 | `rsplit('.', 1)[1]`: the text after the last dot: a suffix of the name, holding no dot and preceded by a dot |
| Server.AllowedFile | app/main.py:26-27 | a dot in the name, and the lower-cased extension in the allowed set |
| Server.LastIndexOf | app/main.py:27 | the index of the last dot, with no dot after it, or -1 when there is no dot |
| Server.AllowedFileSpec | app/main.py:26-27 | a filename is allowed exactly when some dot has no dot after it and the lower-cased text after it is png, jpg, jpeg or gif |
| Server.AllowedFileAccepts | app/main.py:14 | `a.PNG` and `.gif` are accepted |
| Server.AllowedFileRefuses | app/main.py:26-27 | `png` (no dot), `a.tar.gz` (only the last extension counts) and `a.` are refused |
| Server.ReadArgs | app/main.py:49-53 | each filter is `Lower` of the value sent, or empty when absent, so it holds no upper-case letter; page defaults to 1 and per_page to 9 |
| Server.FilterClauses | app/main.py:59-69 | one clause per non-empty filter, in the order name, category, tag |
| Server.FilterParams | app/main.py:59-69 | the parameters those clauses bind, one per clause and in the same order: `%search%`, the bare category, `%tag%` |
| Server.FilterClausesSpec | app/main.py:59-69 | a clause is there exactly when its filter is non-empty; clauses keep the order search, category, tag; the k-th parameter is the k-th clause's: `%search%`, the bare category, `%tag%` |
| Server.Offset | app/main.py:72 | for page at least 1 and a positive page size, the offset is non-negative and a multiple of the page size; a page size of 0 gives offset 0 |
| Server.ClauseSql | app/main.py:56-68 | the SQL text of each fragment, non-empty; every appended fragment starts with a space, so appending never fuses two tokens |
| Server.Sql | app/main.py:56-73 | the text built by `query +=`: empty exactly when no fragment was appended, and starting with the selection when the fragments do |
| Server.StatementSql | app/main.py:71-75 | the count statement is `SELECT COUNT(*) FROM (` ... `)` around the query; the page query starts with the selection |
| Server.Placeholders | app/main.py:71-75 | the number of `?` in a SQL text, counted as sqlite binds parameters; its bounds are PlaceholdersBounds |
| Server.PlaceholdersBounds | app/main.py:71-75 | a text holds at most one placeholder per character, and none exactly when it has no `?` |
| Server.ClausePlaceholders | app/main.py:56-73 | each SQL fragment holds exactly its number of `?` placeholders |
| Server.SqlPlaceholders | app/main.py:56-73 | the placeholders of the concatenated SQL are the sum of the fragments' |
| Server.CountOfBalanced | app/main.py:71 | wrapping a balanced query in `SELECT COUNT(*) FROM (...)` keeps it balanced |
| Server.FilterStatementsBalanced | app/main.py:71-74 | the count statement and the page statement each have as many placeholders as parameters |
| Server.BuildQuery | app/main.py:56-74 | the page statement is the selection, then the filter clauses in order, then `LIMIT ? OFFSET ?`; its parameters are the filter parameters, then `per_page` and the offset; the count statement counts the selection before LIMIT; both are balanced |
| Server.FloorDiv | app/main.py:79 | Python's `//`: the quotient rounded toward negative infinity, for either sign of divisor |
| Server.TotalPages | app/main.py:79 | `max(1, (total + per_page - 1) // per_page)`; always at least 1 |
| Server.TotalPagesBounds | app/main.py:79 | for a positive page size and a non-negative total there is at least one page; the pages hold every row; with rows, the last page is not empty; with no rows there is exactly one page |
| Server.ApiSoftware | app/main.py:48-87 | a page size or an offset outside the signed 64-bit range fails with OverflowError when the page query is bound (line 75); otherwise a page size of 0 fails with ZeroDivisionError (line 79); every other request succeeds: the response echoes page and per_page, reports the count and page count, and returns the fetched rows; the last two page parameters are `[per_page, offset]` and the count statement binds the rest |
| Server.DownloadAsWritten | app/main.py:95-103 | 403 exactly when the joined path does not start with `/mnt/repo`; 404 when it does but nothing exists there; otherwise the file is sent from `/mnt/repo` |
| Server.DownloadAsWrittenAdmitsRelative | app/main.py:97-100 | the guard as written never refuses a relative name |
| Server.DownloadAsWrittenEscapesUp | app/main.py:97-100 | `../etc/passwd` passes the guard although its joined path leaves `/mnt/repo` |
| Server.DownloadAsWrittenEscapesSibling | app/main.py:97-100 | `/mnt/repository/secret` passes the guard although it is outside `/mnt/repo` |
| Server.JoinPath | app/main.py:97 | `os.path.join` of two parts: the result ends with the second part, and an absolute second part replaces the first |
| Server.Download | app/main.py:95-103 | the download handler with the corrected guard: 403 for absolute names and for relative names whose first `/`-component is `..`, then 404 or the file as before |
| Server.JoinRelative | app/main.py:97 | joining a relative name to the base gives the base, a slash, then the name |
| Server.DownloadContainedSpec | app/main.py:95-100 | with the corrected guard an absolute name is refused, and a normalised relative name is refused exactly when its joined path leaves `/mnt/repo` |
| Client.Initial | app/static/js/app.js:10-12 | the first state is grid view, page 1, 9 per page |
| Client.Step | app/static/js/app.js:24-97 | choosing a page size sets it and goes back to page 1 (lines 24-28); category change and search input go back to page 1; clear-search, the view buttons and a column change keep the page; grid and list set the view mode whatever it was (lines 92-97); a page button sets the page and nothing else (line 86); the category, search text and column count an event carries are stored, clearing sets the search to empty, and an event leaves every field it does not name unchanged; a valid state stays valid |
| Client.RequestOf | app/static/js/app.js:34 | a reload asks for the current page, page size, search text and category |
| Client.Reloads | app/static/js/app.js:97 | every handler reloads, except a column change in list view |
| Client.CeilDiv | app/static/js/app.js:79 | `Math.ceil(total / perPage)`: the least r with r * perPage ≥ total, that is (r - 1) * perPage < total <= r * perPage; non-positive exactly when total is |
| Client.Buttons | app/static/js/app.js:82-88 | n buttons numbered 1 to n in order, each highlighted exactly when its number is the page |
| Client.PageButtons | app/static/js/app.js:79-88 | the buttons for pages 1 to `ceil(total / perPage)`, the requested page highlighted |
| Client.PageButtonsSpec | app/static/js/app.js:79-88 | `ceil(total / perPage)` buttons, numbered 1, 2, ... in order, and none when total is 0 |
| Client.SingleHighlight | app/static/js/app.js:85 | at most one button is highlighted; one is exactly when 1 <= page <= n, and its number is the page |
| Client.PageButtonsExample | app/static/js/app.js:78-88 | 25 rows at 9 per page on page 2 give three buttons with the second highlighted |
| Client.OfKind | app/static/js/app.js:80 | `querySelectorAll("button.page-btn")` and its complement: the nodes that are, or are not, page buttons |
| Client.OfKindConcat | app/static/js/app.js:80 | selecting by kind distributes over concatenation |
| Client.SelectorIndex | app/static/js/app.js:87 | the position of the per-page selector, with no selector before it |
| Client.Place | app/static/js/app.js:87 | the new buttons inserted before the selector: the bar grows by exactly their number (PlaceContents gives the contents) |
| Client.PlaceContents | app/static/js/app.js:87 | `insertBefore(btn, perPageSelect)` adds exactly the new nodes to the bar, and the selector comes right after them |
| Client.PlaceAppend | app/static/js/app.js:87 | inserting one more button before the selector appends it after the buttons already placed |
| Client.Paginated | app/static/js/app.js:80-88 | the bar with its page buttons removed and the new buttons placed just before the selector |
| Client.PaginatedSpec | app/static/js/app.js:80-87 | after rendering, the selector and every other non-button node are still there in order, and the page buttons are exactly the new ones |
| Client.PaginatedIdempotent | app/static/js/app.js:80-88 | rendering the pagination twice with the same arguments gives the same bar as once |
| Client.PaginatedLabels | app/static/js/app.js:84 | every page button of a rendered bar has a number of at least 1 |
| Client.RemovePageButtons | app/static/js/app.js:80 | the removal loop keeps exactly the nodes that are not page buttons, in order |
| Client.InsertPageButtons | app/static/js/app.js:82-88 | the insertion loop leaves buttons 1 to n, in order, just before the selector |
| Client.LayoutFor | app/static/js/app.js:43-46 | one column in list view; in grid view a grid with the selected column count, which matters only there |
| Client.ViewController.constructor | app/static/js/app.js:10-100 | the initial state and the selector as the bar's only child (lines 10-23), and the initial load sent (line 100) |
| Client.ViewController.LoadSoftwares | app/static/js/app.js:31-34 | records the request built from the current state; the state is unchanged |
| Client.ViewController.ChangePerPage | app/static/js/app.js:24-28 | the `PerPageChanged` transition and its reload |
| Client.ViewController.ChangeCategory | app/static/js/app.js:92 | the `CategoryChanged` transition and its reload |
| Client.ViewController.InputSearch | app/static/js/app.js:93 | the `SearchInput` transition and its reload |
| Client.ViewController.ClearSearch | app/static/js/app.js:94 | the search emptied, the page kept, and a reload |
| Client.ViewController.ClickGrid | app/static/js/app.js:95 | grid view and a reload |
| Client.ViewController.ClickList | app/static/js/app.js:96 | list view and a reload |
| Client.ViewController.ChangeColumns | app/static/js/app.js:97 | the column count changed; a reload only in grid view |
| Client.ViewController.ClickPage | app/static/js/app.js:86 | the page set to the button's number, nothing else in the state changed, and a reload |
| Client.ViewController.RenderSoftwares | app/static/js/app.js:41-75 | the container emptied, then exactly one card per item in input order, styled by the view mode; the layout from view mode and columns |
| Client.ViewController.RenderPagination | app/static/js/app.js:78-89 | the bar becomes `Paginated` of the old bar: old page buttons removed, new ones inserted before the selector; the invariant kept |
| Client.ViewController.OnResponse | app/static/js/app.js:35-37 | the cards and then the pagination rendered from a response |

## Left out

- `init_db.py`: table creation and seed rows. It has no logic to verify, and its schema lacks the `tag` column that the server queries.
- Flask routing and `request.args` parsing: arguments arrive already parsed, and the integer conversion `int()` with its ValueError is not modelled.
- SQLite execution and `dict(row)`: the count query and the page query are parameters of `Server.ApiSoftware`.
- Server.ApiSoftware: `countRows` and `fetchRows` never fail. The one execution error modelled is the driver's OverflowError for a page size or offset beyond 64 bits. A locked or missing database and any other SQLite error are not modelled.
- `send_from_directory`, `secure_filename`, uploads, image serving and the admin insert and delete handlers: these are file system and library calls.
- `os.path.normpath`: the normalised name is an input of the download functions.
- `os.path.join`: modelled for two parts only.
- `os.path.exists`: a parameter of the download functions.
- `str.lower()`: modelled for ASCII letters only, because non-ASCII case mapping (Unicode tables) is not modelled.
- A NULL `tag` column value: the tag strings are taken as strings.
- `fetch`, `await` and `res.json()` (`app/static/js/app.js:34-37`): a reload is the recorded request, and a response is delivered by calling `OnResponse`. No order is imposed between requests and responses, so out-of-order responses are possible in the model as in the source.
- The client reads from `/api/softwares` and `data.softwares`, while the server serves `/api/software` with `items`. The two sides are modelled separately and not connected.
- The DOM: element creation, `innerHTML` templates, the Tailwind class strings and event wiring are abstracted to cards, layouts and pager nodes.
- The clear button's visibility toggling (`app/static/js/app.js:93-94`): it is presentation only.
- The pagination container's markup from the page template is not part of this model. The bar starts with the selector as its only child.
- The card container's layout before the first render: it comes from the markup and is a constructor argument.
- Client.CeilDiv: floating-point division is not modelled. `Math.ceil(total / perPage)` is taken as the exact integer ceiling.
- Client.ViewController.RenderPagination: requires a positive page size. With 0, the JavaScript loop bound is `Infinity` or `NaN`.
- Client.ViewController.ChangePerPage: requires one of the offered values, because the selector can produce no other.

## Findings

| source | as written | input that shows it | evidently intended | confidence | as-written member | corrected member |
|---|---|---|---|---|---|---|
| app/main.py:97-100 | the guard joins the name to `/mnt/repo` and then checks only for the text prefix `/mnt/repo` | `../etc/passwd` (unchanged by `normpath`) joins to `/mnt/repo/../etc/passwd` and passes; `/mnt/repository/secret` replaces the base in the join and also passes | refuse any name that leaves `/mnt/repo`: absolute names, and relative names whose first component is `..` | not executed; `send_from_directory` applies its own safe join afterwards, which may stop the read; `/mnt/repository/secret` cannot reach `download` at all, because the `<path:filename>` route refuses a leading `/` and `normpath` never makes a relative name absolute, so only the `..` input is reachable through the route | Server.DownloadAsWritten, Server.DownloadAsWrittenEscapesUp | Server.Download, Server.DownloadContainedSpec |
