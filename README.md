# table42 core, modelled in Dafny

table42 finds restaurants with a table free at a chosen time inside a chosen
area of a map. This project models the deterministic parts of that pipeline
and proves properties about them:

- **Area filter** (`RestaurantFilter` in `restaurant_filter.py` and its copy
  `restaraunt_filter.py`; modules `AreaFilter`, `RestarauntFilter`,
  `Selection`). `filter` keeps, in order, the restaurants a criterion accepts.
  `filter_by_area` uses a parity ray-crossing test against a GeoJSON ring of
  `[lng, lat]` points. Two loops make up the criterion: one collects the sides
  and one counts the crossings. Both are modelled as `for` loops proved equal
  to specification functions. The test is modelled as written:
  - the ray goes to (0.0, 0.0);
  - only each side's first endpoint is consulted.
- **Opening-hours filter** (`filter_restaurants` in `app.py`; module
  `OpeningHours`).
  - A request without a truthy dining time or map selection is rejected with
    status 400.
  - Times are parsed as `%H:%M`.
  - A loop keeps every restaurant of the fixed table with
    `open_time <= dining_time <= close_time`.
  - A `strptime` failure becomes an `Unhandled` (status 500) answer.
- **Website walker** (`WebsiteWalker.walk_website` in `selenium_ai.py`;
  module `Walker`).
  - The retry loop makes at most five page loads, each followed by an
    extraction.
  - It is followed by an unconditional reload, a click on "Book Now", a final
    extraction and closing the driver.
  - The browser is abstract: extractions come from an oracle sequence, and
    every helper call is recorded in a ghost log.
- **Prompt builder** (`PromptStorage.get` in `prompt_storage.py`; module
  `PromptStorage`). The dispatch table admits only `"image_1"`. Its content is
  a text block followed by a base64 JPEG data-URL image block. The text block
  includes the sentence listing already-tried buttons only when there are any.
- **Dataset naming** (inside `DatasetBuilder.build_dataset` in
  `dataset_builder.py`; module `DatasetNaming`).
  - The site name strips `http://`, `https://` and `www.` with Python's
    single-pass `replace`, then cuts at the first `.`.
  - The paths are built with POSIX `os.path.dirname` and `os.path.join`.
  - Each website gets a four-field CSV row.

The docstring of `walk_website` (selenium_ai.py:31-36) promises "the available
times if found, otherwise None". The code does something else, and the model
follows the code. The loop at selenium_ai.py:41-47 stops at the first non-empty
extraction. Lines 48-52 then always reload the page, click "Book Now" and return
the extraction made after that click. The loop's own result is therefore thrown
away (`Walker.LoopResultDiscarded`).

## Model

| member | source | states |
|---|---|---|
| Selection.Select | restaurant_filter.py:16 | the comprehension `[x for x in xs if keep(x)]` is never longer than its input |
| Selection.SelectMembers | restaurant_filter.py:16 | every selected element is kept and comes from the input; an input element is selected exactly when it is kept |
| Selection.SelectIsSubsequence | restaurant_filter.py:16 | the selection keeps the input order: it is a subsequence of the input |
| Selection.SelectAppend | restaurant_filter.py:16 | selection distributes over concatenation, so it never reorders |
| Selection.SelectSnoc | restaurant_filter.py:16 | one more input element extends the selection by that element exactly when it is kept |
| Selection.SelectSingleton | restaurant_filter.py:16 | a one-element input gives that element when kept and nothing otherwise |
| Selection.SelectCount | restaurant_filter.py:16 | each kept value occurs in the selection exactly as often as in the input, and a value not kept does not occur: duplicates are kept, not merged |
| Selection.SubsequenceMultiset | restaurant_filter.py:16 | a subsequence holds no value more often than its sequence |
| Selection.SelectUnique | restaurant_filter.py:16 | any subsequence of the input with those multiplicities is the comprehension's result, so the filter contracts below fix the result completely |
| Selection.SelectExtremes | restaurant_filter.py:16 | keeping everything returns the input; keeping nothing returns the empty list |
| AreaFilter.SidesOf | restaurant_filter.py:30-38 | the sides of a ring: one side per consecutive pair of points, `[1]` as lat and `[0]` as lng, so n-1 sides for n points |
| AreaFilter.Crossings | restaurant_filter.py:40-44 | the number of sides meeting the crossing condition, at most the number of sides |
| AreaFilter.Crosses | restaurant_filter.py:43 | the crossing condition, reading only the side's `lat1` and `lng1`; written out against (0.0, 0.0) in `CrossedSideAgainstOrigin` |
| AreaFilter.Inside | restaurant_filter.py:46 | the value `criteria` returns: the crossing count of the test line against the ring's sides is odd |
| AreaFilter.Criteria | restaurant_filter.py:19-46 | the nested `criteria` answers true exactly when the number of crossed sides is odd (`Inside`); it needs only a non-empty ring whose points have two entries once there are sides |
| AreaFilter.CollectSides | restaurant_filter.py:30-38 | the first loop yields n-1 sides for n points, one per consecutive pair, with lat from index 1 and lng from index 0 |
| AreaFilter.CountCrossings | restaurant_filter.py:40-44 | the second loop counts exactly the sides that meet the crossing condition |
| AreaFilter.RestaurantFilter.constructor | restaurant_filter.py:8-13 | the filter holds the list it is given |
| AreaFilter.RestaurantFilter.Filter | restaurant_filter.py:15-16 | `filter` returns a subsequence of the stored restaurants in which every value `criteria` accepts occurs as often as in the list and no other value occurs (by `SelectUnique`, the comprehension's result); it reads the object and changes nothing |
| AreaFilter.RestaurantFilter.FilterByArea | restaurant_filter.py:18-48 | `filter_by_area` accepts any ring: with no stored restaurant `criteria` never runs and the answer is `[]`; otherwise it raises `IndexError` exactly when the ring is empty or a point lacks `[0]` or `[1]` once there are sides; on a readable ring it keeps, in order and with their multiplicities, exactly the stored restaurants with an odd crossing count; the stored list is unchanged |
| AreaFilter.CrossedSideAgainstOrigin | restaurant_filter.py:29-44 | with the test line ending at (0.0, 0.0), a side is crossed iff `(lat > lat1) != (0.0 > lat1)` and `(lng < lng1 or 0.0 < lng1)` |
| AreaFilter.CrossingsReadFirstEndpoints | restaurant_filter.py:41-44 | the crossing count depends only on each side's first endpoint |
| AreaFilter.LastPointNeverConsulted | restaurant_filter.py:30-46 | two rings that agree on `[0]` and `[1]` of every point but the last get the same verdict |
| AreaFilter.SinglePointRingKeepsNothing | restaurant_filter.py:30-46 | a ring of one point has no sides, so the area filter keeps no restaurant |
| AreaFilter.SampleRingKeepsBoth | tests/test_restaurant_filter.py:48-52 | with the sample four-corner ring, both sample restaurants are kept, Olle first and Bab n Sul second |
| AreaFilter.SampleRingCrossedOnce | restaurant_filter.py:41-46 | a point in the sample ring's latitude band, between the fourth and third corners' longitudes, crosses exactly one side and is inside |
| AreaFilter.SampleRingWestOfFourthCornerRejected | restaurant_filter.py:41-46 | a point in the same band but west of the fourth corner crosses two sides and is rejected, although the ring's slanted west edge is further west |
| RestarauntFilter.RestaurantFilter.constructor | restaraunt_filter.py:4-5 | the filter holds the list it is given |
| RestarauntFilter.RestaurantFilter.Filter | restaraunt_filter.py:7-8 | `filter` returns a subsequence in which every stored value `criteria` accepts occurs as often as in the list and no other value occurs |
| RestarauntFilter.RestaurantFilter.FilterByArea | restaraunt_filter.py:10-40 | the copy's `filter_by_area` answers `[]` for an empty list and raises `IndexError` exactly when there is a restaurant and the ring cannot be read; on a readable ring it keeps, in order and with their multiplicities, exactly the restaurants with an odd crossing count, as the first copy does |
| RestarauntFilter.RestaurantFilter.FilterByTime | restaraunt_filter.py:42-43 | the stub `filter_by_time` returns `None` for every input |
| OpeningHours.ParseClock | app.py:32 | a successful `%H:%M` parse gives an hour below 24 and a minute below 60 |
| OpeningHours.ParseFormatRoundTrip | app.py:32-38 | parsing the zero-padded `HH:MM` text of any valid time gives that time back |
| OpeningHours.ParseClockEdges | app.py:32 | single-digit fields parse ("9:5" is 09:05); "24:00", "12:000" and "1200" are refused |
| OpeningHours.NotAfterIsMinuteOrder | app.py:39 | comparing two parsed times as `datetime.time` values is comparing minutes since midnight |
| OpeningHours.Truthy | app.py:28 | Python truthiness of a JSON value: `None`, `False`, zero, "" and empty containers are falsy |
| OpeningHours.OpenEntries | app.py:35-40 | what the loop yields over a table: nothing once a time fails to parse, otherwise the open entries in table order, never more than the table holds |
| OpeningHours.Handle | app.py:24-45 | the handler as a function of the table and the two request values: a 400 answer carries "Invalid input", and a successful list is never longer than the table; its full behaviour is in `RejectedExactlyWhenInputMissing`, `HandleOutcome`, `IncludedExactlyWhenOpen` and `MapSelectionOnlyChecked` |
| OpeningHours.App.constructor | app.py:7-11 | the application starts with the three-entry `RESTAURANTS` table |
| OpeningHours.App.FilterRestaurants | app.py:24-45 | the handler's early return and loop give exactly `Handle`'s answer; it has no `modifies`, so a request leaves the table unchanged |
| OpeningHours.OpenEntriesIsSelect | app.py:35-40 | the loop succeeds exactly when every opening and closing time parses, and then its list is the open restaurants in table order |
| OpeningHours.FailurePersists | app.py:36-38 | once one entry's time fails to parse, the request fails whatever follows in the table |
| OpeningHours.RejectedExactlyWhenInputMissing | app.py:25-29 | the answer is `{"error": "Invalid input"}` with status 400 exactly when the dining time or the map selection is missing or falsy |
| OpeningHours.IncludedExactlyWhenOpen | app.py:32-45 | a successful answer is a subsequence of the table holding exactly the restaurants whose opening minute is at most, and whose closing minute is at least, the dining minute, each as often as the table holds it |
| OpeningHours.OpenIsMinuteWindow | app.py:39 | the chained comparison `open_time <= dining_time <= close_time` on parsed times is the same window on minutes since midnight |
| OpeningHours.HandleOutcome | app.py:24-45 | the handler raises (an unhandled request) exactly when both inputs are truthy and the dining time is not a string, does not parse as `%H:%M`, or some table entry's opening or closing time does not parse |
| OpeningHours.TableParses | app.py:7-11 | every opening and closing time of the `RESTAURANTS` table parses |
| OpeningHours.ParsedTimeGetsList | app.py:28-45 | on the `RESTAURANTS` table, a truthy map selection and a dining time that parses always get a list of restaurants, never an error |
| OpeningHours.ClosingBeforeOpeningNeverIncluded | app.py:39 | a restaurant closing before it opens is never included: there is no wrap past midnight |
| OpeningHours.MapSelectionOnlyChecked | app.py:26-45 | any two truthy map selections give the same answer |
| OpeningHours.WholeHourParses | app.py:37-38 | a zero-padded whole hour `HH:00` parses to that hour |
| OpeningHours.TableHours | app.py:8-10 | every time in `RESTAURANTS` parses to its whole hour |
| OpeningHours.OpenAtElevenPm | app.py:7-40 | at 23:00 the two restaurants closing at 23:00 are kept and the one closing at 22:00 is not |
| OpeningHours.ClosingMinuteIncluded | app.py:24-45 | a request for 23:00 with a map selection answers with Olle and Haidilao, in table order: the closing minute is inclusive |
| Walker.Rounds | selenium_ai.py:41-47 | the number of iterations of the `while` loop for a given sequence of extractions; `RoundsBounded` and `LoopStopsAtFirstFound` fix it |
| Walker.LoopLog | selenium_ai.py:41-43 | the calls of n loop iterations: a load of the url, then an extraction, n times |
| Walker.WalkLog | selenium_ai.py:41-51 | the calls of a whole walk: the loop's calls, then a reload, the "Book Now" click, an extraction and a close |
| Walker.WebsiteWalker.constructor | selenium_ai.py:13-16 | a new walker has made no extraction, is not closed and has an empty call log |
| Walker.WebsiteWalker.LoadPage | selenium_ai.py:42-48 | `_load_page` records a load of the given url |
| Walker.WebsiteWalker.ExtractAvailableTimes | selenium_ai.py:43-50 | `_extract_available_times` returns the next oracle entry and records one extraction |
| Walker.WebsiteWalker.ClickButtonByLabel | selenium_ai.py:49 | `_click_button_by_label` records a click on the given label |
| Walker.WebsiteWalker.Close | selenium_ai.py:51 | `_close` closes the driver and records it |
| Walker.WebsiteWalker.WalkWebsite | selenium_ai.py:30-52 | the walk ends closed; it makes one extraction per loop iteration plus one; it returns the extraction made after "Book Now"; its calls are the loop's reload-and-extract pairs, then a reload, the "Book Now" click, an extraction and a close |
| Walker.WebsiteWalker.RetryLoop | selenium_ai.py:37-47 | the `while` loop runs `Rounds` iterations, each reloading the same url and extracting, and leaves the last extraction in `available_times`; its exit `depth` is `FinalDepth`, at most 5, and it exits with times found or with `depth` equal to 5 |
| Walker.RoundsBounded | selenium_ai.py:41-47 | the loop runs at least once and at most five times, so the walk terminates |
| Walker.LoopStopsAtFirstFound | selenium_ai.py:41-47 | every iteration but the last saw an empty extraction; the loop stops on a non-empty one or when the depth budget is spent |
| Walker.ExitCondition | selenium_ai.py:41-47 | for the exit depth `FinalDepth` (the depth `RetryLoop` ends with): the loop found times or `depth` is 5, and `depth` never exceeds 5 |
| Walker.EmptyPagesExhaustDepth | selenium_ai.py:44-47 | five empty extractions in a row use up the whole depth budget |
| Walker.LoopLogShape | selenium_ai.py:41-43 | each loop iteration reloads the same starting url and then extracts |
| Walker.WalkEndsWithBookNow | selenium_ai.py:48-51 | after the loop come exactly one reload, one click on "Book Now", one extraction and one close; the driver is closed once, as the last call |
| Walker.LoopResultDiscarded | selenium_ai.py:43-52 | times found by the first extraction end the loop, but the walk returns the later extraction: with extractions `["19:00"]` then `["20:00"]` the loop ends on the first and the walk returns the second |
| PromptStorage.Get | prompt_storage.py:88-98 | any prompt type other than "image_1" raises the "Prompt type ... not found." error; "image_1", the default, fails only without a time window |
| PromptStorage.Image1Content | prompt_storage.py:45-86 | the `image_1` content fails exactly when there is no time window (`None.get_start()` raises), and otherwise is two blocks, text then image |
| PromptStorage.Image1Text | prompt_storage.py:49-80 | the text block: instructions, start, " and ", end, the example, the rejected-labels sentence and the closing line; its layout is proved in `WindowStartBeforeEnd` and `RejectedSentenceOnlyWithLabels` |
| PromptStorage.StrRepr | prompt_storage.py:79 | Python's `repr` of one label: at least two characters longer than the label and enclosed in matching single or double quotes |
| PromptStorage.ListRepr | prompt_storage.py:79 | `str()` of the label list: the items' `repr`s joined by ", " between '[' and ']' |
| PromptStorage.Html1NotRegistered | prompt_storage.py:88-93 | "html_1" has content defined but is not registered, so asking for it raises the not-found error |
| PromptStorage.Image1Blocks | prompt_storage.py:45-86 | "image_1" yields exactly two blocks: the text block, then an `image_url` block that is the JPEG base64 data-URL prefix followed by the encoded image verbatim |
| PromptStorage.WindowStartBeforeEnd | prompt_storage.py:63-65 | the text holds the window's start, then " and ", then its end, right after the fixed instructions |
| PromptStorage.RejectedSentenceOnlyWithLabels | prompt_storage.py:74-80 | without truthy labels the text is the label-free text; with labels it is that text with the tried-buttons sentence and the list's `str` inserted before the closing line |
| PromptStorage.RejectedSentenceAbsent | prompt_storage.py:74-80 | without truthy labels the text equals the one built with no labels |
| PromptStorage.RejectedSentenceInserted | prompt_storage.py:74-80 | with truthy labels the tried-buttons sentence and the list's `str` sit just before the closing line |
| PromptStorage.EscapePlain | prompt_storage.py:79 | a string without quotes, backslashes or control characters is escaped as itself by `repr` |
| PromptStorage.PlainLabelRepr | prompt_storage.py:79 | such a label appears in the list's `str` between single quotes, unchanged |
| DatasetNaming.RemoveAll | dataset_builder.py:22 | `replace(pattern, "")` never lengthens the string |
| DatasetNaming.BeforeFirstDot | dataset_builder.py:23 | `split(".")[0]` is a prefix without '.', followed by a '.' unless it is the whole string |
| DatasetNaming.SiteName | dataset_builder.py:22-23 | the name: `http://`, `https://` and `www.` removed in that order, cut before the first '.'; it holds no '.' and is never longer than the website |
| DatasetNaming.Dirname | dataset_builder.py:20 | POSIX `os.path.dirname`: the text up to the last '/', without trailing slashes unless it is all slashes; `BaseUrlIsDataset` evaluates it on "dataset/" |
| DatasetNaming.Join | dataset_builder.py:24-25 | POSIX `os.path.join` of two parts: an absolute second part replaces the first, otherwise one '/' separates them |
| DatasetNaming.ScreenshotPath | dataset_builder.py:24 | the screenshot path of a website, in closed form in `PathsOfWebsite` |
| DatasetNaming.HtmlPath | dataset_builder.py:25 | the HTML path of a website, in closed form in `PathsOfWebsite` |
| DatasetNaming.ActionRow | dataset_builder.py:32 | the CSV row of a website, shown to be four fields in `PathsOfWebsite` |
| DatasetNaming.BaseUrlIsDataset | dataset_builder.py:20 | `os.path.dirname("dataset/")` is "dataset" |
| DatasetNaming.PathsOfWebsite | dataset_builder.py:20-32 | the paths are `dataset/screenshots/<name>.png` and `dataset/html/<name>.html`, or only `<name>.png` and `<name>.html` when the name starts with '/'; the CSV row is the website, the two paths and " " |
| DatasetNaming.UnderDirectory | dataset_builder.py:24-25 | joining "dataset", a subdirectory and a file name gives `dataset/<sub>/<file>` unless the file name is absolute |
| DatasetNaming.RemoveAllWithoutOccurrence | dataset_builder.py:22 | `replace` returns the string unchanged when the pattern does not occur |
| DatasetNaming.RemoveAllLeading | dataset_builder.py:22 | a leading occurrence is removed and the scan resumes after it |
| DatasetNaming.RemovalIsSinglePass | dataset_builder.py:22 | removal is a single pass: removing "http://" from "hthttp://tp://" leaves "http://" |
| DatasetNaming.NoSchemeWithoutColon | dataset_builder.py:22 | neither scheme is removed from a string without ':' |
| DatasetNaming.NameIgnoresSchemeAndWww | dataset_builder.py:22-23 | a host without ':' or "www." gets the same name bare, after "http://", after "https://" and after "https://www." |
| DatasetNaming.FirstLabel | dataset_builder.py:23 | the name of `first.rest` is `first` when `first` has no '.' |
| DatasetNaming.FirstLabelCollides | dataset_builder.py:22-25 | `https://www.<first>.<tld1>` and `http://<first>.<tld2>` get the same name `<first>`, so the same paths |

## Left out

- Flask plumbing: routing, `render_template`, `jsonify`, and `request.json` being `None` (a body that is not JSON) are not modelled. The handler receives the two values read from the body, with a missing key read as `null`.
- `strptime` accepts non-ASCII Unicode decimal digits in `%H` and `%M`; the model accepts ASCII digits only, so such a time is refused here and accepted by the code.
- Any exception other than a failed time parse (for example a non-string dining time) is folded into the same `Unhandled` answer.
- The driver helpers `_load_page`, `_extract_available_times`, `_click_button_by_label` and `_close` are not part of this model; they act on an abstract browser. Driver setup (`_setup_driver`) is also not modelled, and neither are page contents or timeouts.
- The extraction's result is modelled as a list of strings, with `None` and `[]` merged into the empty list. The loop reads only their truthiness, but `walk_website` also returns the last extraction: the modelled return value is never `None`, while the code can return `None`, and a caller such as `dining_time in restaurant_times` (restaurant_filter.py:67) raises on `None` but not on `[]`.
- The `html_1` content builder is not modelled, since it is not reachable through `get`. Only the fact that it is not registered is modelled.
- PromptStorage.WindowStartBeforeEnd and PromptStorage.RejectedSentenceOnlyWithLabels are stated for any prose, not only for the literal instruction text.
- PromptStorage.StrRepr: `repr` of non-printable characters other than newline, carriage return and tab (hex escapes) is not modelled.
- The `time_range` object is reduced to the two strings its getters yield.
- `build_dataset` I/O is not modelled: the scraper and API calls, page loads, screenshot and HTML capture, and CSV file appends. The quoting `csv.writer` applies to the four fields is also left out.
- `DatasetNaming.Dirname` and `DatasetNaming.Join` model POSIX path semantics only.
- `google_restaraunt_info.py` and `google_list_scraper.py` are not part of this model: they are network and browser clients.
- `filter_by_time` of `restaurant_filter.py` is not modelled: it walks every restaurant's website through the Google API.
- The `__main__` demo blocks are not modelled.
- Structure only: the model splits the nested `criteria` into CollectSides and CountCrossings, and splits the retry loop of `walk_website` into RetryLoop. The loops and their order are unchanged.
- Restaurant records are reduced for the area filter to `geometry.location`'s `lat` and `lng`, the only fields `criteria` reads (restaurant_filter.py:27-28), plus the name the sample restaurants are told apart by (tests/test_restaurant_filter.py:51-52); for the hours filter to the table's name, cuisine and two times. A record missing `geometry` or `location` (a `KeyError`) is not modelled.
- `FilterByArea` models the `IndexError` raised on an unreadable ring as `Failure(IndexError)`; the exception's message and traceback are not modelled.
