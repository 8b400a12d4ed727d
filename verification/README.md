# The logic of elasticsearch-head, in Dafny

elasticsearch-head is a browser client for Elasticsearch clusters. Among drawing code and requests, its two bundles
(`_site/vendor.js` and `_site/app.js`) and its query builder hold algorithms with precise promises: a date range
language, Raphael's rewriting of SVG paths, jQuery's `Deferred` and `when`, Sizzle's selector matching, a query builder
with an undo history, the refresh of the cluster's state, the table of shards and a CSV printer. This project models
them and proves what they promise, or exactly when they keep it.

`dafny verify dfyconfig.toml` checks everything.

## How the model is laid out

| files | what they hold |
|---|---|
| `Calendar`, `Decimal` | time values, field arrays and `Date.UTC` as in section 15.9.1 of ECMA-262 5.1; decimal digits |
| `DateRange`, `DateRoundTrip`, `RelativeRanges`, `KeywordRanges` | the date range language: printing and parsing, relative and open ranges, the keywords |
| `SvgPath`, `PathRewriting`, `PathMeaning`, `PathDrift`, `PathDriftExact` | what path data draws, implied control points included (section 8.3 of SVG 1.1), the two rewritings, their meaning, bounds on their rounding and the paths that attain them |
| `Bezier`, `Colour`, `ZOrder` | Raphael's curve points, its HSL conversions and its list of elements |
| `Deferred`, `DeferredRuns`, `DeferredObject`, `When` | the callback lists, all runs of a Deferred, the object whose methods are the steps of a run, `when` |
| `Selectors`, `GreedySelectors`, `SelectorExactness`, `SelectorEngine`, `SelectorCase` | what a chain of tag selectors means (section 8 of Selectors Level 3), the greedy choice, the nodes on which it is right, the search with marks, letter case |
| `QueryBuilder`, `DeepCopy`, `QueryHistory`, `QueryClone` | the bool query and its default clause, `jQuery.extend` as a deep copy, the undo history, `clone` on the objects themselves |
| `Sequences`, `Wrappers` | sequences without repetition; a value that may be missing |
| `ClusterRefresh`, `ShardTable`, `ShardCells`, `ShardRows`, `Csv` | overlapping refreshes, the layout of the shard table, its cells, its rows and columns, the CSV text |

Code that changes state is a class or a method with loops, and is tied to a function on values (`Value()`, `Built()`,
`Absolute`, `Layout`, ...); the theorems are about those functions. Numbers are `int` or `real`, undefined and null are
options, DOM nodes and clause objects are numbers or small objects with the fields that the code uses. The clock is a
parameter.

## What the code does not keep

Where a promise fails, the model keeps the code as it is, and a theorem says exactly when it holds.

- `parse` takes one millisecond off the exclusive end of a range unless that end is 0, so the unit before the epoch is
  read one millisecond too long; it takes 0 for a missing "now"; and it takes a length of 0 for a missing one, so that
  "2010 -> 0days" has no end and "0days -> 2010" no start (`PrintThenParse`, `PrintedTo`, `KeywordParsed` and all of
  `RelativeRanges`, with "1969" as the example).
- `Date.UTC` reads years 0 to 99 as 1900 to 1999, so field arrays do not round-trip there and the keyword ranges do
  not tile (`FieldsRoundTrip`, `KeywordsTile`, `KeywordParsed`).
- `pathToRelative` rounds positions but remembers subpath starts unrounded: every later subpath that an absolute moveto
  opens and a closepath closes can add 0.0005 to the error. `Drift` bounds the error for every path, and for every
  sequence of commands a path attains the bound in all absolute coordinates (`DriftAttained`). So 0.0005 is enough if
  and only if no closepath of a later subpath comes before a command with absolute coordinates
  (`HalfIffNoLaterClose`), and no constant is enough for all paths (`DriftUnbounded`).
- The control points that S and T imply by reflection drift further, even without a closepath: each reflection in a row
  can add 0.001 (`ReflectionsAttained`, `ImpliedGrows`). The bound for named points holds for them too if and only if no
  smooth curve directly follows an absolute curve of its degree (`PlainIffNotTurned`).
- Sizzle keeps one candidate per element and never goes back. It misses matches exactly for those sequences of
  combinators in which, from right to left, a descendant step is followed by another kind of step, or a sibling step by
  an adjacent one (`CompleteIffForgiving`).
- Sizzle compares names in lower case, also those of XML and of SVG elements in a page, whose case counts: "a ~ c" is
  found behind an element A (`CaseMisleads`). And it compares them before it looks at the type of a node: the doctype of
  a page is a candidate for "html ~ html" until the last test drops it (`DoctypeIsCandidate`), and a processing
  instruction between the elements of an XML document gets by that test, so that "b ~ a ~ c" is found where a is no
  element (`InstructionMisleads`). For each tree and set of tags: all elements kept match if and only if there is no such
  detour by way of a node that the tag does not select (`SoundIffNoDetour`), and for forgiving combinators all matches
  are kept if and only if no node that is no element stands before the element of its name (`CompleteIffNoShadow`).
  Pages whose elements are all HTML's own have neither (`DocumentHasNoDetour`, `DocumentHasNoShadow`).
- A child step on a node without a parent ends in an exception: for some chain if and only if some element, or some
  ancestor of one that has the name of a tag, has no parent (`NeverThrowsIffAttached`).
- The CSV header is not quoted: names with a quote, a comma or a line break do not come back (`HeaderRoundTrip`). And a
  reader that allows a line break at the end loses the last row when it is a single null (`FinalBreak`).
- Two copies of one shard on one node share a cell of the shard table (`EveryEntryOnceExactly`).
- `setSort` passes "asc" when its argument is called `desc`; the model does the same.

## Model
| member | source | states |
|---|---|---|
| Calendar.YearLength | elasticsearch-head-master/_site/vendor.js:14382-14390 | The year numbering behind `Date`: consecutive years are 365 or 366 days apart exactly by the Gregorian leap rule, for every integer year, and 1970 starts on day 0. |
| Calendar.YearOfDayUnique | elasticsearch-head-master/_site/vendor.js:14382-14385 | The year that `makeArray` reads off a day is the only one that contains it. |
| Calendar.MonthLength | elasticsearch-head-master/_site/vendor.js:14382-14390 | Months have 31, 30, 28 or 29 days, and January starts the year. |
| Calendar.MonthUnique | elasticsearch-head-master/_site/vendor.js:14382-14385 | The year and month that `makeArray` reads off a day are the only ones that contain it, leap years included. |
| Calendar.FirstAndLastTime | elasticsearch-head-master/_site/vendor.js:14387-14390 | `fromArray` gives times from 20 April of the year -271821 to 13 September 275760, to the millisecond, and NaN outside. |
| Calendar.FieldsRoundTrip | elasticsearch-head-master/_site/vendor.js:14382-14390 | `fromArray(makeArray(t))` is t if and only if the year of t is not one of 0 to 99. |
| Calendar.UnitMembers | elasticsearch-head-master/_site/vendor.js:14395-14409 | The calendar unit of precision p around t, as a half-open interval, holds exactly the times whose fields up to p are those of t. |
| Calendar.UnitInterval | elasticsearch-head-master/_site/vendor.js:14395-14409 | Truncating the fields and adding one to field p, with overflow into the larger fields, bounds exactly the times that share the fields up to p, if and only if `Date.UTC` shifts none of the years involved. |
| Decimal.PaddedYearUnique | elasticsearch-head-master/_site/vendor.js:14341-14349 | No other year prints like a year of four digits. |
| DateRange.Print | elasticsearch-head-master/_site/vendor.js:14341-14349 | The printing loop yields the fields up to p, each after its separator and at least two digits wide. |
| DateRange.NumericRange | elasticsearch-head-master/_site/vendor.js:14436-14450 | The loop over the captured groups: a given field stands, fields after a given one take their least value, fields before stay those of now; the range runs from there to one unit of the last given field later. |
| DateRoundTrip.PrintedInjective | elasticsearch-head-master/_site/vendor.js:14341-14349 | For a year of four digits, another time prints the same if and only if it lies in the same calendar unit. |
| DateRoundTrip.EpochPrinted | elasticsearch-head-master/_site/vendor.js:14341-14349 | The epoch to the millisecond is printed as "1970-01-01 00:00:00.00". |
| DateRoundTrip.NumericGroupsOfPrinted | elasticsearch-head-master/_site/vendor.js:14436-14441 | The numeric pattern recognises a printed time and captures exactly its fields. |
| DateRoundTrip.TermOfPrinted | elasticsearch-head-master/_site/vendor.js:14410-14450 | A printed time, read as a term at whatever moment, is its calendar unit as a half-open interval. |
| DateRoundTrip.PrintThenParse | elasticsearch-head-master/_site/vendor.js:14331-14349 | For years 1000 to 9999 and every precision down to the second, parsing what t prints gives a range that holds exactly the times that print the same, if and only if the last millisecond before the epoch does not print so. |
| DateRoundTrip.YearBeforeEpoch | elasticsearch-head-master/_site/vendor.js:14331-14339 | The text "1969" is read as a range that ends at 0, one millisecond too far. |
| DateRoundTrip.PrintedTo | elasticsearch-head-master/_site/vendor.js:14468-14481 | "a -> b" of two printed times holds exactly the times between one that prints like a and one that prints like b, unless b ends at the epoch and a does not start after it: an exact condition. |
| RelativeRanges.RelTerm | elasticsearch-head-master/_site/vendor.js:14451-14454 | A count followed by any alias of a unit is read as that many units. |
| RelativeRanges.PrintedAround | elasticsearch-head-master/_site/vendor.js:14482-14488 | "a <> 2days" holds exactly the times within that of one that prints like a, unless the last of these is the millisecond before the epoch: an exact condition. |
| RelativeRanges.PrintedAroundDay | elasticsearch-head-master/_site/vendor.js:14482-14484 | "a <>" does the same with a day. |
| RelativeRanges.PrintedThenRel | elasticsearch-head-master/_site/vendor.js:14468-14475 | "a -> 2days" holds exactly the times from a until that long after it, if and only if the count is not 0, which leaves the end undefined, and the same condition on the epoch holds. |
| RelativeRanges.RelThenPrinted | elasticsearch-head-master/_site/vendor.js:14476-14478 | "2days -> a" holds exactly the times from that long before a until its end, if and only if the count is not 0, which leaves the start undefined, and a does not end at the epoch. |
| RelativeRanges.PrintedOpen | elasticsearch-head-master/_site/vendor.js:14468-14473 | "a ->" holds exactly the times from a on; "-> a" those up to its end, if and only if a does not end at the epoch. |
| RelativeRanges.PrintedToNow | elasticsearch-head-master/_site/vendor.js:14468-14481 | "a -> now" holds exactly the times from a until before now, and "now -> a" those from now until the end of a, each under an exact condition on the epoch. |
| RelativeRanges.ClockParsed | elasticsearch-head-master/_site/vendor.js:14436-14450 | A time of day alone, like "12:30", is read as that hour, minute or second of now's day, if and only if the year is not shifted, its boundaries are times, and it does not end at the epoch. |
| RelativeRanges.ClockUnits | elasticsearch-head-master/_site/vendor.js:14354-14378 | Every alias of second, minute and hour stands for that many milliseconds. |
| RelativeRanges.CalendarUnits | elasticsearch-head-master/_site/vendor.js:14354-14378 | A day is 24 hours, a month 31 days and a year 365, by every alias. |
| RelativeRanges.AroundNow | elasticsearch-head-master/_site/vendor.js:14489-14497 | "2days" is the half-open interval of that length on both sides of now, also for a count of 0, and "now" that of a day, if and only if no bound or moment that is 0 gets in the way. |
| KeywordRanges.EdgeWhole | elasticsearch-head-master/_site/vendor.js:14395-14409 | The calendar's boundaries around now, any number of periods away, delimit whole years, months, days, and weeks from Sunday to Sunday. |
| KeywordRanges.KeywordIsEdges | elasticsearch-head-master/_site/vendor.js:14413-14434 | What a keyword's overflowing field arrays denote (month 0, day -6) is two consecutive calendar boundaries, away from years 0 to 99 and within the times that `Date` holds. |
| KeywordRanges.KeywordsTile | elasticsearch-head-master/_site/vendor.js:14413-14434 | For day, week, month and year, last, this and next are adjacent whole periods with now in the middle one, if and only if no year they name is shifted by `Date.UTC` and their outer boundaries are times. |
| KeywordRanges.KeywordParsed | elasticsearch-head-master/_site/vendor.js:14413-14434 | Each of the twelve words, given to `parse`, is read as exactly the calendar period it names, the one before now's, now's or the next, if and only if no year of it is shifted, both its boundaries are times, and it does not end at the epoch. |
| PathRewriting.PathToAbsolute | elasticsearch-head-master/_site/vendor.js:9730-9803 | The loop over x, y, mx and my writes the absolute form of every well-formed path. |
| PathRewriting.PathToRelative | elasticsearch-head-master/_site/vendor.js:9656-9729 | The loop writes the relative form, with its rounding to thousandths and its unrounded subpath starts. |
| PathRewriting.TrackRelative | elasticsearch-head-master/_site/vendor.js:9710-9725 | The last switch moves x and y by what was written, not by what was read. |
| PathMeaning.AbsoluteDraws | elasticsearch-head-master/_site/vendor.js:9730-9803 | The absolute form draws the same segments, by section 8.3 of SVG 1.1, for every well-formed path, and has no relative command. |
| PathMeaning.AbsoluteIdempotent | elasticsearch-head-master/_site/vendor.js:9730-9803 | The absolute form of an absolute form is itself. |
| PathMeaning.RelativeIsRelative | elasticsearch-head-master/_site/vendor.js:9656-9729 | The relative form of every path has only relative commands after its first moveto. |
| PathMeaning.RelativeExact | elasticsearch-head-master/_site/vendor.js:9656-9729 | On coordinates that are multiples of 0.001, the relative form has the same absolute form as the path. |
| PathMeaning.RelativeDraws | elasticsearch-head-master/_site/vendor.js:9656-9729 | On such coordinates the relative form draws the same segments. |
| PathDrift.Drift | elasticsearch-head-master/_site/vendor.js:9674-9726 | For every well-formed path, each coordinate of the relative form is within 0.0005 * (k + 1) of the original where a command names it, and within 0.0005 * (k + 2m + 1) at a control point that m reflections in a row imply; k counts the subpaths closed before, other than the first and those that a relative moveto opens. For arcs the end point is bounded, and the radii and flags agree. |
| PathDrift.StepFollows | elasticsearch-head-master/_site/vendor.js:9692-9725 | The loop's x and y stay within 0.0005 of the original's current point for ever; only the result's current point moves away from them, and only when a later absolute subpath is closed. |
| PathDriftExact.DriftAttained | elasticsearch-head-master/_site/vendor.js:9674-9726 | For every sequence of commands there is a path that the relative form draws off by the whole bound, in every coordinate that an absolute command after the first names. |
| PathDriftExact.HalfIffNoLaterClose | elasticsearch-head-master/_site/vendor.js:9692-9715 | For every sequence of commands, relative ones included: 0.0005 bounds all named coordinates of all its paths if and only if no closepath of a later subpath precedes a command with absolute coordinates. |
| PathDriftExact.PlainIffNotTurned | elasticsearch-head-master/_site/vendor.js:9692-9699 | For every sequence of commands: the bound for named coordinates bounds the implied control points too, in all its paths, if and only if no S or s directly follows C or S, and no T or t directly Q or T. |
| PathDriftExact.ReflectionsAttained | elasticsearch-head-master/_site/vendor.js:9692-9699 | For every sequence of commands: the control point that a smooth curve implies can be off by exactly its bound, 0.0005 * (k + 2m + 1), if the commands of the row before it are absolute and the row begins at a control point that is given. |
| PathDriftExact.ImpliedGrows | elasticsearch-head-master/_site/vendor.js:9692-9699 | Without any closepath that bound grows by 0.001 with each T of a row, and is three times 0.0005 for an S after a C. |
| PathDriftExact.DriftUnbounded | elasticsearch-head-master/_site/vendor.js:9692-9715 | No bound without k holds: after n later subpaths have been closed, a moveto is drawn exactly 0.0005 * (n + 1) off. |
| Bezier.LeftPart | elasticsearch-head-master/_site/vendor.js:9592-9606 | The cubic through start and m, as the splitting code uses it, is the original curve at t * u, for all real t and u. |
| Bezier.RightPart | elasticsearch-head-master/_site/vendor.js:9592-9606 | The cubic through n and end is the original curve at t + (1 - t) * u, for all real t and u. |
| Bezier.QuadraticIsCubic | elasticsearch-head-master/_site/vendor.js:9807-9818 | The cubic that `q2c` gives equals the quadratic at every parameter. |
| Bezier.LineIsCubic | elasticsearch-head-master/_site/vendor.js:9804-9806 | The cubic that `l2c` gives is on the line, between its ends. |
| Colour.UnitRoundTrip | elasticsearch-head-master/_site/vendor.js:9432-9449 | Hue, saturation and lightness of components in [0, 1] are in [0, 1], and converting back recovers the components, in every hue sector and across both hue wrap-arounds; a grey has hue and saturation 0. |
| Colour.RoundTrip | elasticsearch-head-master/_site/vendor.js:9321-9365 | `hsl2rgb(rgb2hsl(r, g, b))` is (255r, 255g, 255b) for components in [0, 1], and (r, g, b) for components out of 255. |
| Colour.HslIsReference | elasticsearch-head-master/_site/vendor.js:9332-9362 | `hsl2rgb` agrees in all three channels with the reference formula of section 7.1 of CSS Color Module Level 4. |
| Colour.DegreesAndPercent | elasticsearch-head-master/_site/vendor.js:9327-9331 | A hue in degrees with percentages gives the same colour. |
| ZOrder.Paper.Append | elasticsearch-head-master/_site/vendor.js:10594-10598 | A new element comes on top; prev and next stay mutually inverse and top and bottom the ends. |
| ZOrder.Paper.Tear | elasticsearch-head-master/_site/vendor.js:10127-10132 | The element leaves the list, all others keep their order, and its own links stay as they were. |
| ZOrder.Paper.ToFront | elasticsearch-head-master/_site/vendor.js:10133-10142 | The element moves to the top of the list, which stays properly linked. |
| ZOrder.Paper.ToBack | elasticsearch-head-master/_site/vendor.js:10143-10152 | The element moves to the bottom of the list, which stays properly linked. |
| ZOrder.Paper.InsertAfter | elasticsearch-head-master/_site/vendor.js:10153-10160 | The element moves to just above another one. |
| ZOrder.Paper.InsertBefore | elasticsearch-head-master/_site/vendor.js:10161-10168 | The element moves to just below another one. |
| ZOrder.MovesKeepOthers | elasticsearch-head-master/_site/vendor.js:10127-10168 | None of the four moves changes the relative order of the other elements. |
| ZOrder.MovedNextTo | elasticsearch-head-master/_site/vendor.js:10153-10168 | After insertafter and insertbefore the two elements are neighbours, the right way round. |
| ZOrder.ToFrontUndone | elasticsearch-head-master/_site/vendor.js:10133-10160 | tofront is undone by insertafter with the element that was below. |
| Deferred.CallbackList.Register | elasticsearch-head-master/_site/vendor.js:959-985 | `done` adds the functions among its arguments, nested arrays included, in reading order, unless cancelled, and says which settlement is to be fired again. |
| Deferred.FlattenPlain | elasticsearch-head-master/_site/vendor.js:970-978 | Of arguments that are functions, the list gets exactly those, one for one and in order. |
| Deferred.FlattenNested | elasticsearch-head-master/_site/vendor.js:970-978 | An array among the arguments counts as its items in its place, and anything else as nothing. |
| Deferred.FlattenTimes | elasticsearch-head-master/_site/vendor.js:970-978 | A function is added as often as it stands among the arguments, at whatever depth. |
| Deferred.CallbackList.StartFiring | elasticsearch-head-master/_site/vendor.js:988-992 | `resolveWith` starts only if the list is neither cancelled nor fired nor firing. |
| Deferred.CallbackList.Next | elasticsearch-head-master/_site/vendor.js:993-1002 | One turn of the loop takes the first callback, or records the settlement when there is none. |
| Deferred.CallbackList.CancelAll | elasticsearch-head-master/_site/vendor.js:1018-1022 | Cancelling empties the list for good. |
| Deferred.CallbackList.IsResolved | elasticsearch-head-master/_site/vendor.js:1013-1015 | A list is resolved while it fires and once it has fired. |
| DeferredObject.Promise.Register | elasticsearch-head-master/_site/vendor.js:959-985 | `done` or `fail` on the object of two lists, with the firing that it may start again, is the step of a run. |
| DeferredObject.Promise.Settle | elasticsearch-head-master/_site/vendor.js:988-992 | `resolveWith` or `rejectWith` on the object is the step of a run. |
| DeferredObject.Promise.Turn | elasticsearch-head-master/_site/vendor.js:993-1002 | A turn of the loop on top of the stack is the step of a run: the next callback is called, or the other list cancelled, or the loop ends. |
| DeferredObject.Promise.constructor | elasticsearch-head-master/_site/vendor.js:1029-1089 | A new Deferred is in the first state of every run: each list will cancel the other. |
| DeferredRuns.RunInv | elasticsearch-head-master/_site/vendor.js:1029-1095 | The invariant over all runs: what ran, what waits, and which list is cancelled follow from the first settlement. |
| DeferredRuns.AcceptsAll | elasticsearch-head-master/_site/vendor.js:959-985 | Until the other side settles, a list accepts every callback it is asked for, in order. |
| DeferredRuns.RunsInOrder | elasticsearch-head-master/_site/vendor.js:946-1095 | In every run, also of calls from inside callbacks: the losing side never runs a callback; of the winning side the callbacks registered first have run, each once, in order, with the first settlement; and when the stack is empty, all have. |
| DeferredRuns.CalledAsOftenAsAsked | elasticsearch-head-master/_site/vendor.js:946-1095 | In every run: no callback is called more often than it was registered with the list that settled first, counted over nested arrays, and when the stack is empty, each has been called exactly that often. |
| DeferredRuns.CalledOnce | elasticsearch-head-master/_site/vendor.js:946-1095 | If every callback is registered at most once, none is called twice. |
| DeferredRuns.ResolvedIsFirst | elasticsearch-head-master/_site/vendor.js:1040-1045 | isResolved and isRejected name the side that settled first, whenever user code can ask. |
| DeferredRuns.Drains | elasticsearch-head-master/_site/vendor.js:993-1002 | If callbacks only return, the loops end and the stack empties. |
| When.Call.constructor | elasticsearch-head-master/_site/vendor.js:1098-1129 | The loop over the inputs, with those that have settled already calling back at once. |
| When.Call.Resolve | elasticsearch-head-master/_site/vendor.js:1107-1114 | A promise's callback puts its value in its place, one value as it is and several as an array, counts down, and resolves at zero. |
| When.LoopInvariant | elasticsearch-head-master/_site/vendor.js:1118-1127 | After any part of the loop the count is the number of inputs without a value, and the first rejection so far decides. |
| When.WhenIsExact | elasticsearch-head-master/_site/vendor.js:1098-1132 | For two or more inputs and every order of settlement, at every moment: rejected with the first rejection if there is one, else resolved with each value in its own position once all inputs have one, else pending. |
| When.SettlesOnce | elasticsearch-head-master/_site/vendor.js:1098-1132 | Once settled, the outcome never changes. |
| GreedySelectors.NearestDominates | elasticsearch-head-master/_site/vendor.js:4988-5019 | Every other node of the name, in any case, that can be reached is reached from the nearest one. |
| GreedySelectors.GreedySound | elasticsearch-head-master/_site/vendor.js:3811-3860 | On nodes without a detour every element that is kept matches the chain, for all combinators, where names match as the language of the document has it. |
| SelectorExactness.SoundIffNoDetour | elasticsearch-head-master/_site/vendor.js:3811-3860 | In a tree of nodes, for each set of tags: every element that is kept matches, whatever the combinators, if and only if from no element one comes to a node that has the name of a tag in some case, is not selected by it, and is an element or leads to one with the name of a tag. |
| GreedySelectors.DocumentHasNoDetour | elasticsearch-head-master/_site/vendor.js:3811-3860 | A document where all that has the name of a tag is selected by it, or stands before all elements as a doctype does, has no detour. |
| GreedySelectors.DocumentHasNoShadow | elasticsearch-head-master/_site/vendor.js:3811-3860 | Nor does it have a node that is no element before an element of its name. |
| SelectorExactness.DoctypeIsCandidate | elasticsearch-head-master/_site/vendor.js:3852-3857 | On a page with a doctype, the loop leaves the doctype as the candidate for "html ~ html", and only the test of its type keeps the root from being returned. |
| SelectorExactness.InstructionMisleads | elasticsearch-head-master/_site/vendor.js:4988-5019 | In an XML document with a processing instruction between elements, an element that does not match is kept. |
| SelectorExactness.CaseMisleads | elasticsearch-head-master/_site/vendor.js:5008-5008 | In an XML document, an element that does not match is kept by way of another whose name differs from the tag in case. |
| SelectorExactness.NeverThrowsIffAttached | elasticsearch-head-master/_site/vendor.js:4083-4097 | For each set of tags: no chain ends in an exception for any element if and only if all elements have a parent, and all ancestors of elements that have the name of a tag. |
| GreedySelectors.GreedyComplete | elasticsearch-head-master/_site/vendor.js:3811-3860 | For forgiving combinators, descendant chains among them, every element that matches is kept, if in the directions that the chain searches no node that is no element stands before an element of its name. |
| SelectorExactness.CompleteIffNoShadow | elasticsearch-head-master/_site/vendor.js:3811-3860 | In a tree of nodes, for each set of tags and directions: every element that matches a chain of forgiving combinators is kept, if and only if no node that is no element stands before an element of its name. |
| GreedySelectors.CompleteIffForgiving | elasticsearch-head-master/_site/vendor.js:4058-4145 | For each sequence of combinators: what is kept misses no match, for all nodes and tags without such a shadow, if and only if the sequence is forgiving. |
| SelectorEngine.Page.Walk | elasticsearch-head-master/_site/vendor.js:4995-5015 | The walk with marks finds what the naive search finds, and leaves marks that lead to such results. |
| SelectorEngine.Page.Check | elasticsearch-head-master/_site/vendor.js:4988-5060 | With a fresh name, every entry becomes exactly the nearest passing node in the direction or false, whatever stale marks the nodes carry, for both functions that share this loop. |
| SelectorEngine.Page.Along | elasticsearch-head-master/_site/vendor.js:4118-4145 | The descendant and sibling combinators take the nearest ancestor or earlier sibling that has the tag in any case. |
| SelectorEngine.Page.ToParent | elasticsearch-head-master/_site/vendor.js:4083-4097 | The child combinator takes the parent if it has the tag in any case, for every entry, or fails, exactly when an entry has no parent. |
| SelectorEngine.Page.ToPrevious | elasticsearch-head-master/_site/vendor.js:4059-4077 | The adjacent combinator takes the previous element sibling if it has the tag in any case, for every entry. |
| SelectorEngine.Page.Narrow | elasticsearch-head-master/_site/vendor.js:3811-3826 | The loop over the parts leaves each entry's greedy candidate, or fails, exactly when a child step meets a node without a parent. |
| SelectorEngine.Page.Evaluate | elasticsearch-head-master/_site/vendor.js:3799-3860 | On any tree of nodes the results are those found nodes whose last candidate is an element, in order; elements among them all match if there is no detour, and for forgiving combinators without shadows they are all that match. |
| SelectorEngine.KeptInOrder | elasticsearch-head-master/_site/vendor.js:3845-3857 | The results stand in the order in which the nodes were found. |
| SelectorEngine.SearchIsNearest | elasticsearch-head-master/_site/vendor.js:4988-5019 | The naive search for a name finds the nearest node of that name. |
| SelectorCase.NamedIsSameLetters | elasticsearch-head-master/_site/vendor.js:5008-5008 | A node has the name of a tag, for Sizzle, if and only if both have the same length and at each position the same character or the two forms of one letter of the alphabet. |
| SelectorCase.KeptInAnyCase | elasticsearch-head-master/_site/vendor.js:4058-4145 | Writing tags and names in another case changes no candidate, no exception and nothing that is kept, in any document. |
| SelectorCase.ResultsInAnyCase | elasticsearch-head-master/_site/vendor.js:3799-3860 | So an evaluation returns the same nodes. |
| SelectorCase.MatchesInAnyCase | elasticsearch-head-master/_site/vendor.js:4058-4145 | Where all elements fold, as on an HTML page, it does not change what a selector means either. |
| SelectorCase.CapitalsAreFound | elasticsearch-head-master/_site/vendor.js:5008-5008 | "div p" finds a paragraph in an element whose name is DIV. |
| QueryBuilder.Query.AddClause | elasticsearch-head-master/src/app/data/query.js:151-163 | Adding files the clause under a new id at the end of its array, and takes the default out when there are then two must and should clauses; it terminates together with removing. |
| QueryBuilder.Query.RemoveClause | elasticsearch-head-master/src/app/data/query.js:164-171 | Removing takes the clause out of its array, puts a new default in when no must or should clause is left, and otherwise changes nothing else. |
| QueryBuilder.Query.SetClause | elasticsearch-head-master/src/app/data/query.js:182-200 | The clause goes to the end of the array of its bool, and no other array changes. |
| QueryBuilder.Query.constructor | elasticsearch-head-master/src/app/data/query.js:11-28 | A new query has its default clause among the should clauses and no other. |
| QueryBuilder.Query.Add | elasticsearch-head-master/src/app/data/query.js:151-200 | A caller's clause gets an id that was never issued; as the object that Elasticsearch takes for its operator, with the caller's field and value, it ends the array that the caller names, or should; no other array changes, but that the default leaves if it stood alone and the clause is scored. |
| QueryBuilder.Query.Remove | elasticsearch-head-master/src/app/data/query.js:164-171 | Removing any issued id, again or not, the default's too, takes exactly its clause out of the arrays, and puts a new default in if no must or should clause is left; no other reference changes, and an id that was not issued is an error. |
| QueryBuilder.Query.AddAggs | elasticsearch-head-master/src/app/data/query.js:172-177 | Aggregations draw fresh ids from the same counter and leave the clauses alone. |
| QueryBuilder.Query.SetSort | elasticsearch-head-master/src/app/data/query.js:125-134 | The new entry comes first, and the first older entry of the index goes. |
| QueryBuilder.UnsortedOnce | elasticsearch-head-master/src/app/data/query.js:125-134 | setSort keeps at most one entry per index and loses no entry of another index. |
| QueryBuilder.UnsortedParts | elasticsearch-head-master/src/app/data/query.js:125-134 | The entries of other indices stay, in their order. |
| QueryBuilder.Query.Clone | elasticsearch-head-master/src/app/data/query.js:29-36 | Over the builder's invariant: in the clone, removing the new query's default takes nothing out and adds nothing, so clauses, order and aggregations are those of the original, array by array and content by content. |
| QueryBuilder.SizeOfPresent | elasticsearch-head-master/src/app/data/query.js:159-170 | There is always a must or should clause; without a live one it is the default alone. |
| Sequences.WithoutParts | elasticsearch-head-master/_site/app.js:186-191 | `remove` takes out the first occurrence and leaves all other elements where they were. |
| QueryBuilder.DefaultAlone | elasticsearch-head-master/src/app/data/query.js:159-170 | The default is in the query if and only if it is the only must or should clause, and if and only if no live clause is must or should. |
| QueryBuilder.SelectsWanted | elasticsearch-head-master/src/app/data/query.js:151-171 | Under the meaning of Elasticsearch's bool query, the query built selects exactly the documents that the calls of addClause whose clauses were not removed ask for, by their own arguments, where no must or should clause means "all". |
| DeepCopy.Extend | elasticsearch-head-master/_site/vendor.js:317-379 | A deep extend of an empty target makes only new objects, refers only to them, and says the same tree without undefined properties, whatever structure is shared in the original. |
| DeepCopy.JsonLocal | elasticsearch-head-master/_site/vendor.js:342-374 | What an object says depends only on what can be reached from it. |
| DeepCopy.SayingTheSame | elasticsearch-head-master/_site/vendor.js:342-374 | Two objects say the same if and only if both are arrays or none is, the same names are defined, and under each stands the same value, or two objects that say the same. |
| QueryHistory.Query.constructor | elasticsearch-head-master/src/app/data/query.js:26-27 | The history starts with one snapshot, of the state that was just built. |
| QueryHistory.Query.GetState | elasticsearch-head-master/src/app/data/query.js:37-39 | A snapshot says what search, indices and types say, and shares nothing with them. |
| QueryHistory.Query.RestoreState | elasticsearch-head-master/src/app/data/query.js:40-45 | The live objects say what the snapshot says, and share nothing with it or with the objects before. |
| QueryHistory.Query.RestoreFrom | elasticsearch-head-master/src/app/data/query.js:31-31 | A state restored from another query equals that query's, which is unchanged, in objects of its own. |
| QueryClone.NewQuery | elasticsearch-head-master/src/app/data/query.js:11-28 | init builds a valid query of new objects: search says three clause arrays, empty but for the default in should, a page of the given size from 0, no sorting and no aggregations; the history holds that one state; and refmap refers to the default clause. |
| QueryClone.Tests | elasticsearch-head-master/src/app/data/query.js:164-170 | removeClause does not find a clause object that is not reachable from search, and finds a must or should clause left if there was one. |
| QueryClone.Clone | elasticsearch-head-master/src/app/data/query.js:29-36 | All of clone on the objects: the new query says what the original says, in new objects that refer only to new objects; the loop over refmap changes nothing, and the original is unchanged. |
| QueryHistory.Query.Send | elasticsearch-head-master/src/app/data/query.js:49-53 | Sending keeps a snapshot of the moment for the callback, and changes neither state nor history. |
| QueryHistory.Query.Respond | elasticsearch-head-master/src/app/data/query.js:54-64 | Whichever open request is answered: a failure brings the newest history entry back and leaves the history; a success adds what the state was when that request went out; and it is open no more. |
| QueryHistory.Query.Change | elasticsearch-head-master/src/app/data/query.js:122-200 | Whatever callers do to the objects that they can reach, no snapshot in the history or of an open request changes what it says. |
| QueryHistory.HistoryGrows | elasticsearch-head-master/src/app/data/query.js:49-64 | In no run does an entry of the history change or go away. |
| QueryHistory.HistoryIsAnswered | elasticsearch-head-master/src/app/data/query.js:49-64 | At every moment of every run: the history is the initial one and then, for exactly the requests that succeeded, in the order of their responses, the states at the moments when they went out, whatever changed meanwhile; the open requests are exactly those sent and not answered. |
| QueryHistory.SucceedsOnce | elasticsearch-head-master/src/app/data/query.js:49-64 | No request adds to the history twice. |
| QueryHistory.StateFollows | elasticsearch-head-master/src/app/data/query.js:40-64 | The state is what a caller last made it or, after a failed response to an open request, the newest entry of the history; nothing else changes it. |
| ClusterRefresh.ClusterState.Refresh | elasticsearch-head-master/_site/app.js:1337-1338 | Every refresh has five variables of its own. |
| ClusterRefresh.ClusterState.UpdateModel | elasticsearch-head-master/_site/app.js:1339-1348 | All five fields are published and "data" fires, or nothing happens. |
| ClusterRefresh.ClusterState.Receive | elasticsearch-head-master/_site/app.js:1350-1394 | A callback changes its round's variable and then publishes if all five are there; other rounds are not touched. |
| ClusterRefresh.Atomic | elasticsearch-head-master/_site/app.js:1337-1395 | For any overlapping rounds and any arrivals at all: the fields, and what every "data" event shows, are five values that arrived in one and the same round. |
| ClusterRefresh.ExactlyOnce | elasticsearch-head-master/_site/app.js:1337-1395 | If each request is answered at most once, a round fires exactly once if values arrive for all five slots, the cluster state's from the request or its fallback, and otherwise never. |
| ShardTable.Table.GetIndexForNode | elasticsearch-head-master/_site/app.js:3519-3521 | A node's row, a new one at the end if it has none; no name gets two rows. |
| ShardTable.Table.GetIndexForIndex | elasticsearch-head-master/_site/app.js:3522-3528 | An index's column, the next one if it has none, with a routing in the given row. |
| ShardTable.Table.Place | elasticsearch-head-master/_site/app.js:3542-3560 | An entry goes to the row of its node and the column of its index, in the place of its shard or at the end. |
| ShardTable.Table.FillRow | elasticsearch-head-master/_site/app.js:3586-3592 | The missing routings of a row are filled in, and the others stay. |
| ShardTable.Table.Draw | elasticsearch-head-master/_site/app.js:3529-3593 | The nested loops compute the layout for any nodes, indices and closed indices. |
| ShardCells.SameColumns | elasticsearch-head-master/_site/app.js:3581-3593 | For every cluster state, all rows have exactly one routing per displayed index, and a column names the same index in all of them. |
| ShardCells.PlacedRouting | elasticsearch-head-master/_site/app.js:3542-3560 | Placing an entry changes what is shown for its own node and index only. |
| ShardCells.StatusIsEntry | elasticsearch-head-master/_site/app.js:3553-3558 | If no node holds two copies of a shard, the status found for a cell is its own entry. |
| ShardCells.EveryEntryOnce | elasticsearch-head-master/_site/app.js:3539-3562 | If keys match and no node holds two copies of one shard, every entry of a displayed index is in exactly one cell. |
| ShardCells.EveryCellIsAnEntry | elasticsearch-head-master/_site/app.js:3539-3562 | Under the same condition every cell shows an entry of the routing table, in the row of its node, the column of its index and the place of its shard. |
| ShardCells.HiddenCopy | elasticsearch-head-master/_site/app.js:3550-3558 | Of two copies of one shard on one node, at most one is shown: no two cells show both. |
| ShardCells.EveryEntryOnceExactly | elasticsearch-head-master/_site/app.js:3539-3562 | If keys match, every entry is in exactly one cell if and only if no node holds two copies of one shard. |
| ShardRows.Rows | elasticsearch-head-master/_site/app.js:3519-3544 | There is a row for every node of the cluster, with shards or without, for every other node that an entry names, and for "Unassigned" if some entry has no node; and no two for one name. |
| ShardRows.Columns | elasticsearch-head-master/_site/app.js:3522-3580 | There is one column for every index that an entry names, and then come the closed indices. |
| ShardRows.Lengths | elasticsearch-head-master/_site/app.js:3550-3558 | Every array of cells is as long as its last cell demands, so that an entry without a place goes right behind it; routings that are filled in are empty. |
| Csv.Lookup | elasticsearch-head-master/_site/app.js:2184-2188 | The pointer loop finds what stands at the end of a column's path, and nothing if the path leads through null. |
| Csv.AtIsLast | elasticsearch-head-master/_site/app.js:2184-2188 | That is the last of the values on the way down, each the property of the one before, or null where there is none. |
| Csv.InsideDoubled | elasticsearch-head-master/_site/app.js:2189-2189 | A reader of quoted fields gets back any text whose quotes were doubled. |
| Csv.RoundTrip | elasticsearch-head-master/_site/app.js:2181-2192 | For at least one row and column, a reader for section 2 of RFC 4180 gets back every cell of the results, with any quotes, commas and line breaks, and tells null from the empty text. |
| Csv.HeaderRoundTrip | elasticsearch-head-master/_site/app.js:2173-2180 | The whole text with its header comes back if and only if no column name holds a quote, a comma or a line break. |
| Csv.FinalBreak | elasticsearch-head-master/_site/app.js:2181-2192 | A reader that also takes a line break after the last record gets all rows if and only if it is not the case that null in a single column ends several rows. |

## Left out
- The regular expressions that split a date range text and a selector: the model starts from the two terms and the operator, and from the list of tags and combinators. White space and letter case are those of ASCII, and the empty date range text is not modelled.
- `drp.now` and the system clock: the present time is a parameter.
- Floating point rounding: real numbers are exact, and the only rounding in the model is `toFixed(3)` of `pathToRelative`.
- Arc arguments other than the end point are opaque, so that the drift of an arc is bounded at its end point only; and `a2c`, `path2curve`, `curveDim` and all trigonometry are not part of this model; neither is the angle that `findDotsAtSegment` returns.
- `rgb.hex`, the object and string forms of the colour functions, and colours outside their ranges.
- `insertafter` and `insertbefore` of an element relative to itself, which leaves it linked to itself; elements in sets.
- Callbacks that throw, and the wrappers `pipe`, `promise` and `always`; `when` with fewer than two inputs; the object that a promise is.
- Selector parts that are not tags (filters), and contexts that are elements, for which results are also tested with `Sizzle.contains`; the nodes found for the last part are given.
- Deferred.CallbackList.Register: a callback is a number, and what it does is a later action of the run.
- QueryBuilder.Query.Clone: that copied clauses are other objects is part of how they are numbered here, and proved by QueryClone.Clone; it is made from a query whose clauses carry the ids that it issued, since the ids of a query after restoreState refer to clauses that its search no longer holds.
- QueryClone.Clone: a query without any must or should clause, to which clone adds a default; the builder never has one. An array is empty when it has no elements.
- QueryBuilder.Query.Add: the value of a clause is a number that stands for any value, and the array is one of the three.
- QueryBuilder.Query.Remove: removeAggs, setPage, setIndex and setType are not modelled, nor the events that the builder fires.
- DeepCopy.Extend: objects that contain themselves, on which the original does not return, properties inherited from Object.prototype or Array.prototype, and targets that are not empty; the length of an array is read off its elements. The functions that app.js:169-190 puts on Array.prototype are inherited ones, which the loop over names copies into every copied array; JSON text does not show them.
- QueryHistory.Query.Change: one step replaces the properties of one object; the methods of the builder are sequences of such steps.
- ClusterRefresh.ClusterState.Receive: the contents of the five responses are numbers, so that the fallback's translation of "_all" to a cluster state is not modelled; it is never falsy.
- ShardTable.Table.Draw: the order of the indices and the filter belong to the caller, since any list of index objects is allowed; the statistics, the metadata, the flag of open indices, the aliases and their bounds, and the sorting of the nodes are not modelled. Names are ordinary keys: neither "length" nor the names in Object.prototype.
- Csv.RoundTrip: a value is a text and its properties; the discovery of the columns and inherited properties of primitive values are not modelled.
- `BoolQuery`, request history, panels, preferences, formatting helpers and `versionAtLeast` have no property as hard as the ones above; DOM, CSS, drawing, animation, AJAX and language tables are input and output.
