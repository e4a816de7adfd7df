# AMR webcam dashboard — a Dafny model of its core

The dashboard (`app.py`) polls four robots (`x01`–`x04`) for a camera frame
every ten seconds. It shows the frames as a 2×2 grid, and keeps a 7-day count
of error onsets per robot. This project models the logic behind that and proves
what it does:

- **Error ledger** (`ledger.dfy`). This is a map from robot id to day key
  (`%Y-%m-%d`) to count.
  - `record_error` bumps today's cell.
  - `get_error_count` sums the days whose key is `>=` the key written for
    "now − 7 days".
  - `cleanup_old_error_counts` deletes the keys `<` that same key, then drops
    robots left without days.
  - Saving the ledger and loading it back is a round trip.

  Keys are compared as strings, the way Python compares them. `text.dfy` and
  `dates.dfy` prove that this string order is chronological order.
- **Edge-triggered accounting** (`fetcher.dfy`). `get_robot_image` remembers
  each robot's last outcome; a robot never seen counts as "success".
  - A failure records an error only when the previous outcome was a success, so
    a sustained outage counts once.
  - A success leaves every 7-day total unchanged, including when the 1% random
    draw triggers a prune.
  - The class `RobotImageFetcher` holds the outcome map and the shared
    `ErrorLedger`.
- **Payload extraction** (`payload.dfy`). The first known field that is present
  (`base64`, `image`, `data`, `color_image`, `image_base64`) is used if its
  value is truthy. Otherwise the first string field longer than 100 characters
  is used. Otherwise the reply fails with "No base64 data found in response".
  Everything up to and including the first comma (a data-URL prefix) is then
  removed.
- **Composite** (`composite.dfy`, `raster.dfy`).
  - The tile size is taken from the first robot's image.
  - The canvas is black and twice as wide and twice as high as a tile.
  - The tiles are pasted in robot order at (0,0), (w,0), (0,h) and (w,h).
  - Pastes are clipped at the canvas edge, and a later paste wins where two
    overlap. This is done in place on an `array2`.
- **Archive retention** (`archive.dfy`). A directory is deleted when its name
  is 8 digits that parse as a `%Y%m%d` date more than 7 whole days before now.
  `last_cleanup_time` moves only when something was deleted.
- **One refresh cycle** (`cycle.dfy`). `create_combined_image` runs the
  archive sweep, fetches every robot in order, builds the grid and publishes it
  as the latest composite. The error-statistics page reads every robot's 7-day
  total.

The clock, the random draw and the HTTP replies are parameters. So are the
directory listing, base64 and image decoding, and whether writing a file
succeeds. Python's `datetime.now()` becomes a `DateTime` argument.

Two details of the code that its own wording does not show:
- The error window. `get_error_count`'s docstring (app.py:90) and the
  statistics page (app.py:683) speak of "the last 7 days". The test
  `date >= seven_days_ago` at app.py:96 keeps the key of today minus 7 days,
  so the window spans 8 calendar days: today and the 7 days before it.
  `Ledger.WindowIsSevenDays` states exactly this.
- The tile size. app.py:381-382 takes the width and height of the first
  robot's image, in `ROBOTS` order, and falls back to 640×480 only when there
  are no images. Every fetch yields an image (a placeholder on failure), so the
  first robot's image always decides.

## Model

| member | source | states |
|---|---|---|
| Text.Less | app.py:74 | definition of Python's `<` on `str`; properties in LessIrreflexive, LessAsymmetric, LessTotal, Complement and IsoOrder |
| Text.AtMost | app.py:96 | definition of Python's `<=` on `str` (`date >= seven_days_ago` read right to left); properties in Complement and IsoWindow |
| Text.PaddedOrder | app.py:85 | zero-padded numerals of one width compare as strings exactly as their values compare |
| Text.Complement | app.py:96 | `d >= c` holds exactly when `d < c` fails: the window test and the prune test are complements |
| Dates.DaysEarlier | app.py:70 | `now - timedelta(days=n)` gives a valid date exactly `n` days earlier |
| Dates.DayNumberOrder | app.py:148 | the calendar order (year, month, day) is the order of day numbers, and equal day numbers are equal dates |
| Dates.ElapsedWholeDays | app.py:148 | `(now - folder_date).days` is the difference of day numbers, whatever the time of day |
| Dates.FormatIso | app.py:85 | a day key is 10 characters with dashes at positions 4 and 7 |
| Dates.IsoOrder | app.py:74 | comparing two day keys with string `<` is comparing their dates |
| Dates.IsoInjective | app.py:86 | different dates never share a day key |
| Dates.IsoWindow | app.py:91-96 | `key >= cutoff` holds exactly when the key's date is at most `n` days before today |
| Dates.FormatCompact | app.py:320 | a folder name is 8 ASCII digits |
| Dates.ParseCompact | app.py:146 | a name that parses yields a real date in years 1–9999 |
| Dates.ParseFormatCompact | app.py:146 | parsing the folder name written for a date gives that date back |
| Dates.FormatParseCompact | app.py:143-146 | every name that parses is exactly the folder name of its date |
| Ledger.Cutoff | app.py:70 | the cutoff is a 10-character day key |
| Ledger.Cell | app.py:86 | definition of the defaultdict read, 0 for a missing robot or day; properties in Recorded, FailureCells and Merged |
| Ledger.Recorded | app.py:86 | exactly the cell (robot, today) grows by one, created at 0 if absent, and the robot and day keys are added |
| Ledger.RecordedKeepsInvariants | app.py:83-87 | recording keeps counts non-negative and never leaves a robot without days |
| Ledger.RecordedWindowTotal | app.py:83-99 | recording raises that robot's 7-day total by one when the day is in the window, and no other robot's total changes |
| Ledger.WindowTotalBasics | app.py:94-99 | an unknown robot has total 0, and with non-negative counts no total is negative |
| Ledger.WindowIsSevenDays | app.py:89-97 | a day is counted exactly when it is at most 7 days before today, and today always is |
| Ledger.SumOverRemove | app.py:95-97 | the window sum does not depend on the order the days are visited |
| Ledger.KeepRecent | app.py:73-75 | exactly the day keys `>= cutoff` survive, with their counts |
| Ledger.Pruned | app.py:72-79 | pruning never adds a robot |
| Ledger.PrunedExactly | app.py:68-79 | a cell survives exactly when its key is not `< cutoff`, its count is kept, and a robot goes only when all its days went |
| Ledger.PrunedWindowTotal | app.py:68-99 | pruning changes no robot's 7-day total |
| Ledger.PrunedIdempotent | app.py:68-79 | pruning twice with one cutoff is pruning once |
| Ledger.PrunedKeepsNonNegative | app.py:68-79 | pruning keeps counts non-negative |
| Ledger.Merged | app.py:51-53 | loading overwrites exactly the saved cells, keeps all others, and creates robots only for non-empty saved entries |
| Ledger.RestartRoundTrip | app.py:43-66 | loading a saved ledger into a fresh process restores it exactly, as long as no robot was saved without days |
| Ledger.RestartWindowTotal | app.py:43-66 | after a restart every robot shows the same 7-day total |
| Dates.ElapsedDays | app.py:148 | definition of `(now - folder_date).days`; its meaning is in ElapsedWholeDays |
| Ledger.WindowKeys | app.py:95-96 | the days the window test admits, all of them stored days; properties in IsoWindow and WindowIsSevenDays |
| Ledger.WindowTotal | app.py:89-99 | definition of the 7-day total; properties in RecordedWindowTotal, PrunedWindowTotal, RestartWindowTotal and WindowTotalBasics |
| Ledger.PrunedKeepsInvariants | app.py:68-79 | pruning never leaves a robot without days, and keeps counts non-negative |
| Ledger.MergedKeepsInvariants | app.py:43-56 | loading never leaves a robot without days, and keeps counts non-negative when the record has no negative count |
| Ledger.ErrorLedger.Valid | app.py:41-99 | the invariant: no negative count and no robot without days; the constructor sets it up, RecordError and CleanupOldErrorCounts keep it, and Load keeps it when the record has no negative count |
| Ledger.ErrorLedger.constructor | app.py:41 | the ledger starts empty, which satisfies `Valid` |
| Ledger.ErrorLedger.RecordError | app.py:83-87 | the new ledger is `Recorded(old, robot, today's key)`, and `Valid` is kept |
| Ledger.ErrorLedger.GetErrorCount | app.py:89-99 | the returned total is the robot's window sum |
| Ledger.ErrorLedger.PruneDays | app.py:73-75 | only the robot's days `< cutoff` are deleted |
| Ledger.ErrorLedger.CleanupOldErrorCounts | app.py:68-81 | the new ledger is `Pruned(old, cutoff of today)`; it has no robot without days, and `Valid` is kept |
| Ledger.ErrorLedger.Save | app.py:58-66 | the record written is the ledger itself, and for a valid ledger loading the record into a fresh process restores it exactly |
| Ledger.ErrorLedger.Load | app.py:43-56 | the new ledger is the old one merged with the record; no robot is left without days, and `Valid` is kept when the record has no negative count |
| Payload.Truthy | app.py:275 | definition of Python truthiness, the negation of `not base64_data` at app.py:275 and app.py:282; used by SelectPayloadCases and KnownFieldWins |
| Payload.IsLongString | app.py:278 | definition of the fallback test `isinstance(value, str) and len(value) > 100`; properties in FirstLongString and SelectPayloadCases |
| Payload.Lookup | app.py:271-272 | `key in data` fails exactly when no field has the key, and otherwise yields a field's value |
| Payload.LookupField | app.py:271-272 | in a dict, looking up a field's key yields that field's value |
| Payload.FirstPresent | app.py:270-273 | the value of the first priority key present, or none exactly when no priority key is present |
| Payload.FirstLongString | app.py:277-280 | the first string field longer than 100 characters, or none exactly when there is no such field |
| Payload.SelectPayload | app.py:267-283 | a selected payload is truthy, and the only failure is NoPayload; the full case split is in SelectPayloadCases and FindPayload |
| Payload.StripDataUrlPrefix | app.py:285-287 | definition of the prefix strip; properties in StripDataUrlPrefixSpec and StripDataUrlPrefixOfUrl |
| Payload.SelectPayloadCases | app.py:267-283 | a truthy known field wins; otherwise the first long string wins, and failure (NoPayload) happens exactly when there is none |
| Payload.NoPayloadSelected | app.py:275-283 | with no truthy known field and no long string, the payload search and the extraction both fail with NoPayload |
| Payload.KnownFieldWins | app.py:268-273 | the first priority key present with a truthy value is the payload |
| Payload.FirstComma | app.py:286 | the position of the first comma, or none exactly when there is no comma |
| Payload.StripDataUrlPrefixSpec | app.py:285-287 | a comma-free string is unchanged; otherwise the result follows a comma-free prefix and the first comma |
| Payload.StripDataUrlPrefixOfUrl | app.py:285-287 | stripping `prefix,body` with comma-free parts gives back `body`, and bare base64 is unchanged |
| Payload.ExtractBase64 | app.py:267-287 | text is produced exactly when the selected payload is a string; otherwise the error is NoPayload or PayloadNotString |
| Payload.FindPayload | app.py:267-283 | the two search loops with `break` compute `SelectPayload` |
| Raster.Blank | app.py:354 | the placeholder has the requested size and every pixel is black |
| Fetcher.Attempt | app.py:261-325 | definition of one fetch's outcome: the image, or the first failure in source order; properties in AttemptWithoutPayload and AttemptOfExtractFailure, and Fetch computes it |
| Fetcher.Previous | app.py:259 | definition of the remembered state, "success" for an unseen robot; used by TransitionEffect |
| Fetcher.Transition | app.py:327-348 | definition of one fetch's state change; properties in TransitionEffect, FailureCells and RunCountsOnsets |
| Fetcher.AttemptWithoutPayload | app.py:282-283 | a reply with no truthy known field and no long string fails with NoPayload whatever the decoder does |
| Fetcher.AttemptOfExtractFailure | app.py:264-290 | an extraction failure is the fetch's failure, and decoding is never reached |
| Fetcher.TransitionEffect | app.py:327-348 | a failure sets "error" and adds one to the robot's total exactly after a success; a success sets "success" and changes no total, even when it prunes; other robots are untouched |
| Fetcher.FailureCells | app.py:341-343 | a failure changes only the cell (robot, today), by one or by nothing |
| Fetcher.RunCountsOnsets | app.py:256-348 | over any run of fetches on one day the robot's total grows by the number of outage onsets, and the remembered state is the last outcome |
| Fetcher.RunLeavesOthers | app.py:341-343 | fetching one robot never changes another robot's total |
| Fetcher.Failures | app.py:338-348 | a run of `n` failed fetches |
| Fetcher.OnsetsOfFailures | app.py:341-348 | a block of failures counts one onset if it follows a success and none otherwise |
| Fetcher.TwoOutagesCountTwice | app.py:341-348 | N≥1 failures, a success, then M≥1 failures add exactly 2 |
| Fetcher.RobotImageFetcher.constructor | app.py:259 | no robot has a remembered outcome |
| Fetcher.RobotImageFetcher.Fetch | app.py:261-325 | the request, payload search, prefix strip, decoding and archiving yield `Attempt`: the image or the first failure |
| Fetcher.RobotImageFetcher.GetRobotImage | app.py:256-363 | state and ledger follow `Transition`; on success it returns the frame and the total read before the update; on failure it returns a black 640×480 tile, the error and the total read after the increment; the ledger stays valid |
| Composite.TileSize | app.py:380-382 | definition of the tile size: the first robot's image, else 640×480; BuildComposite sizes the canvas from it |
| Composite.SlotOrigin | app.py:387-392 | definition of the four paste corners; properties in QuadrantsPartitionCanvas |
| Composite.Layered | app.py:384-396 | definition of a canvas pixel after the pastes; properties in LayeredInQuadrant and CompositeLayout, and BuildComposite computes it |
| Composite.QuadrantsPartitionCanvas | app.py:384-392 | every canvas point lies in exactly one quadrant, and no quadrant point is off the canvas |
| Composite.LayeredInQuadrant | app.py:394-396 | with tiles that fit, a point of quadrant `i` shows tile `i` or black, never a neighbour |
| Composite.CompositeLayout | app.py:380-396 | the finished grid shows tile `i` at slot `i`, and black where robot `i` has no image |
| Composite.Paste | app.py:396 | covered pixels take the tile's pixel, clipped to the canvas; every other pixel is unchanged |
| Composite.BuildComposite | app.py:380-396 | a fresh `2h × 2w` canvas whose every pixel is the last pasted tile covering it, or black |
| Archive.LooksLikeDate | app.py:143 | definition of `len(item) == 8 and item.isdigit()` on ASCII names (see Left out); used by ShouldDelete and NonDateKept |
| Archive.ShouldDelete | app.py:142-148 | definition of the retention rule; properties in ShouldDeleteByDays, FolderOfDaysAgo and NonDateKept |
| Archive.ShouldDeleteByDays | app.py:142-154 | a directory goes exactly when its name parses as a date at least 8 days before today; nothing else goes |
| Archive.FolderOfDaysAgo | app.py:146-148 | the folder written `n` days ago is deleted exactly when `n > 7` |
| Archive.NonDateKept | app.py:143-154 | plain files and names that do not parse as dates are never deleted |
| Archive.OldFolders | app.py:142-149 | the deleted names are exactly the selected entries' names |
| Archive.OldFoldersAppend | app.py:142-149 | listing one more entry appends its name exactly when it is selected |
| Archive.Archivist.constructor | app.py:37 | no cleanup has happened yet |
| Archive.Archivist.DeleteOldFolders | app.py:134-160 | deletes `OldFolders` in listing order, and sets `last_cleanup_time` to now only when something was deleted |
| Cycle.Upper | app.py:324 | upper-casing keeps the length |
| Cycle.Stamp | app.py:324 | the timestamp is 19 characters |
| Cycle.TilePath | app.py:324 | definition of a frame's file name; its folder is stated in FilesGoToTodaysFolder |
| Cycle.CombinedPath | app.py:401 | definition of the grid's file name; its folder is stated in FilesGoToTodaysFolder |
| Cycle.FilesGoToTodaysFolder | app.py:319-324 | frames and grids go into today's folder, whose name parses back to today and is kept by a sweep at that moment |
| Cycle.ErrorsOf | app.py:376-377 | one error entry per robot, in order: none on success, the failure otherwise |
| Cycle.TileOf | app.py:336-363 | the tile of a fetch is its frame on success and the black 640×480 placeholder on failure |
| Cycle.FetchAll | app.py:376-377 | one tile per robot; what each tile is, is in FetchAllTiles |
| Cycle.FetchAllTiles | app.py:376-377 | tile `i` of a cycle is robot `i`'s frame when its fetch succeeds and the black placeholder when it fails |
| Cycle.FetchAllTotals | app.py:376-377 | in one cycle each robot's total grows by one exactly when its fetch fails after a success, and its state is its own outcome |
| Cycle.FetchAllUntouched | app.py:376-377 | a robot that is not fetched keeps its state and total |
| Cycle.FetchAllStep | app.py:376-377 | each loop step adds one transition and one tile |
| Cycle.Present | app.py:394-395 | every robot has an image in the grid |
| Cycle.Dashboard.constructor | app.py:35-36 | nothing is published yet |
| Cycle.Dashboard.FetchRobots | app.py:375-377 | fetches the robots in order; state and tiles follow `FetchAll`, tile `i` is robot `i`'s frame or the placeholder, error `i` is robot `i`'s failure, and the ledger stays valid |
| Cycle.Dashboard.CreateCombinedImage | app.py:365-406 | sweep, then fetch, then build; each grid tile is traced to its robot's outcome; publishes the grid and its path only when the grid was written |
| Cycle.Dashboard.ErrorSnapshot | app.py:473-479 | every configured robot's 7-day total, and nothing else |

## Left out

- HTTP requests, JSON parsing, base64 and image decoding. The reply is a
  parameter: a decoded JSON object, or the reason there is none. A body that
  is not a JSON object counts as a request failure. Decoding is an opaque
  function from text to an image or an error message.
- Text overlay and error message rendering (fonts, `textbbox`, the black
  label box). The model returns the decoded frame, not the annotated one. The
  failure tile is the black 640×480 image without its text.
- Error message wording. Failures are kinds (`RequestFailed`, `NoPayload`,
  `PayloadNotString`, `DecodeFailed`, `SaveFailed`). A non-string payload
  fails in Python with a `TypeError` or `AttributeError` whose text the model
  does not reproduce.
- JSON values. Numbers, arrays and objects are kept only as far as their truth
  value and type matter to the payload search.
- Filesystem effects. These are `os.makedirs`, `image.save`, `shutil.rmtree`
  and the JSON file of the ledger. A failed frame save is a parameter of the
  fetch, and a failed grid save is a parameter of the cycle. `rmtree` is
  assumed to succeed. In the code, a failing `rmtree` or `listdir` ends the
  sweep through the outer `except`, which the model does not represent.
- `Ledger.ErrorLedger.Save`, `Ledger.ErrorLedger.Load`: the file is a value
  passed in and out. A failing read or write (logged and ignored by the code)
  is not modelled.
- Clock. `datetime.now()` is a parameter. Each operation takes one instant,
  although the code calls `now()` several times and those calls could
  straddle midnight.
- Dates before 0001-01-08. Members that compute "now − 7 days" require
  `DayNumber(today) >= 7`. Below that, Python raises `OverflowError`.
- The 1% draw is a parameter (`prune`) of each fetch.
- Threads and scheduling. The background thread that repeats the cycle every
  ten seconds, and any race between it and the web routes, are left out.
- Web layer. The Flask routes, login/logout, `load_users`, the templates and
  `get_latest_image` serving the file or a gray placeholder are left out.
- `get_robot_image_old` is dead code that is never called, so it is left out.
- `Archive.ShouldDelete`, `Archive.LooksLikeDate`, `Dates.ParseCompact`:
  names are modelled with ASCII digits only. `str.isdigit` (app.py:143) and
  the `\d` of `strptime`'s `%Y` and `%d` patterns also accept other Unicode
  decimal digits, and `int()` reads them. So a directory such as
  `٢٠٢٠0101` (Arabic-Indic year digits) parses as 2020-01-01 and is deleted
  by the program once it is more than 7 days old. The model keeps every such
  name. `Cycle.Upper` likewise upper-cases ASCII letters only.
- Years below 1000. `strftime("%Y")` is modelled as four zero-padded digits.
- Pixel formats. Images are RGB rasters, and PIL's mode conversion on paste
  (for example RGBA or grayscale frames) is not modelled.
- `Cycle.FetchAll`, `Cycle.Stamp`, `Cycle.Upper`: these only state lengths.
  The meaning of `FetchAll` is carried by `FetchAllTiles`, `FetchAllTotals`
  and `FetchAllUntouched`. The file names built from `Stamp` and `Upper` are
  described only as far as `FilesGoToTodaysFolder` states: the folder they go to.
