# junat: departure board logic in Dafny

junat is a small browser page that shows the next commuter-train departures
between Helsinki (HKI) and Oulunkylä (OLK). Every few seconds it asks the
Digitraffic live-trains API for the trains in a window around the current
time. For each train it picks the departure row at the line's origin
station. Then it renders one HTML `train-row` block per train, holding the
line id, the departure time (`hh:mm:ss`), an optional `cancelled` class and
the track. A separate script chooses the page's initial colour theme.

This project models the pure logic of those scripts as Dafny functions and
proves what they promise:

- `departures.dfy` (module `Departures`): the API's rows and trains;
  `trainData` (`Find`, `TrainData`); the `map`/`join` rendering in
  `trainDataToHTML` (`TrainRecords`, `RowHtml`, `JoinRows`, `Render`).
- `js_string.dfy` (module `JsString`): JavaScript's clamped
  `String.prototype.slice`.
- `rfc3339.dfy` (module `Rfc3339`): the date-time format of section 5.6 of
  RFC 3339, with the day ranges of section 5.7. It is used to show that `slice(11, 19)` of a well-formed
  timestamp is its `hh:mm:ss`.
- `query.dfy` (module `Query`): the query window around the current time
  and the URL built in `getTrainLineDateData`.
- `theme.dfy` (module `Theme`): the theme choice and the `theme-color` meta
  colour of `theme-init.js`.
- `wrappers.dfy` (module `Wrappers`): `Option` for `undefined` and `Result`
  for thrown exceptions.

Behaviour of the code that the model keeps:

- The query window runs from 5 minutes before the clock reading to 30
  minutes after it. Start and end each read the clock themselves.
- Every train of the response becomes one row. There is no filtering by
  track, no cap on the number of rows and no fallback label.
- A train without a departure row at the station makes `trainData` throw a
  TypeError, and the whole rendering of the line fails. `Render` returns
  `Err` with the index of the first such train.
- A storage read that throws skips the rest of the theme script: no theme
  and no meta colour are applied.

Inputs the scripts read from the browser are parameters:

- the two clock readings `startNow` and `endNow` (integral milliseconds),
  one for each `new Date()` of junat.js:33-34;
- `toISOString` (`toIso`);
- the result of reading the stored theme (`Result<Option<string>, StorageError>`);
- the `matchMedia` result (`Option<bool>`, `None` when `matchMedia` is
  missing).

The API field `type` is called `rowType`, because `type` is a Dafny keyword.

## Model

| member | source | states |
|---|---|---|
| `Departures.Find` | junat.js:42 | what `find` returns is a row of the timetable and is a departure at the station |
| `Departures.FindNoneIff` | junat.js:42 | `find` yields `undefined` if and only if no row is a departure at the station |
| `Departures.FindReturnsFirst` | junat.js:42 | when row `i` is the first departure at the station, `find` returns exactly row `i` |
| `Departures.FindIgnoresLaterRows` | junat.js:42 | once a match exists, appending further rows (matching or not) does not change what `find` returns |
| `Departures.TrainData` | junat.js:41-49 | a returned record's `id` is the train's `commuterLineID` |
| `Departures.TrainDataFailsIff` | junat.js:42-45 | `trainData` throws (reads `scheduledTime` of `undefined`) if and only if the train has no departure row at the station |
| `Departures.TrainDataCopiesFirstDeparture` | junat.js:43-48 | the record copies `commuterLineID` and the first departure row's `scheduledTime`, `cancelled` and `commercialTrack` verbatim |
| `Departures.TrainRecords` | junat.js:52 | the mapped list has one record per train; a failure names a train of the response |
| `Departures.TrainRecordsInOrder` | junat.js:52 | record `i` of a successful mapping is `trainData` of train `i` |
| `Departures.TrainRecordsFailsAtFirst` | junat.js:52 | a failed mapping reports the first train whose `trainData` throws; all trains before it succeed |
| `Departures.TrainRecordsOkIff` | junat.js:52 | the mapping succeeds if and only if every train has a departure row at the station |
| `Departures.TrainRecordsAppend` | junat.js:52 | mapping a concatenated response gives the concatenation of the parts' records |
| `Departures.DepartureText` | junat.js:57 | the displayed time has at most 8 characters, exactly 8 if and only if the timestamp has at least 19, and is characters 11 to 19 of the timestamp (empty for 11 or fewer) |
| `JsString.Slice` | junat.js:57 | a JavaScript slice is no longer than the string or the requested span, equals the substring for in-range positions and is empty when start passes end or the string |
| `Rfc3339.SliceOfFormatIsTimeOfDay` | junat.js:57 | for every valid RFC 3339 date-time, `slice(11, 19)` of its text is its `hh:mm:ss` |
| `Rfc3339.TimeOfDayDetermines` | junat.js:57 | the hour, minute and second read back from the displayed `hh:mm:ss` are those of the timestamp |
| `Departures.RowHtml` | junat.js:54-59 | a row starts with the `train-row` opening and is exactly the fixed markup plus the id, the cancelled class, the departure text and the track |
| `Departures.RowHtmlIdField` | junat.js:55-56 | the line id sits right after the `train-id` div's opening tag, followed by the departure div's opening |
| `Departures.RowHtmlTimeField` | junat.js:57 | the departure text `slice(11, 19)` sits right after the departure div's opening tag |
| `Departures.RowHtmlTrackField` | junat.js:58-59 | the track sits right after the `track` div's opening tag, followed only by the closing of the block |
| `Departures.JoinRows` | junat.js:53-60 | `join('')` of the rows is empty if and only if there are no records, and otherwise opens with a `train-row` block |
| `Departures.RowHtmlShape` | junat.js:54-59 | each row opens a `train-row` block, and its departure div carries the class ` cancelled` if and only if the record is cancelled |
| `Departures.JoinRowsAppend` | junat.js:53-60 | `join('')` of concatenated row lists is the concatenation of their joins |
| `Departures.Render` | junat.js:52-60 | an empty response renders to the empty string; a failure names a train of the response |
| `Departures.RenderOkIff` | junat.js:52-60 | rendering succeeds if and only if every train has a departure row; otherwise it fails at the first train that has none |
| `Departures.RenderSingle` | junat.js:52-60 | a response of one train with a departure row renders to exactly that train's row |
| `Departures.RenderPartsOk` | junat.js:52-60 | when a response renders, each train has a record and the trains before and after it render too |
| `Departures.RenderAppend` | junat.js:52-60 | rendering a concatenated response concatenates the parts' renderings, in order |
| `Departures.RenderOneRowPerTrain` | junat.js:52-60 | the output is the rendering of the trains before `i`, then exactly one row for train `i`, then the rendering of the trains after it |
| `Query.QueryWindow` | junat.js:33-34 | the start is 5 minutes before the first clock reading and the end 30 minutes after the second, so the window is 35 minutes plus the time between the readings wide |
| `Query.QueryWindowWidth` | junat.js:33-34 | when the clock does not go back between the readings, start < end and the window is at least 35 minutes wide, exactly 35 if and only if both readings are the same millisecond |
| `Query.QueryUrl` | junat.js:33-35 | the URL is `url?startDate=<start>&endDate=<end>`; a RangeError is thrown if and only if start or end leaves the valid `Date` range |
| `Query.QueryUrlParameters` | junat.js:35 | the URL begins with the line's endpoint, then `?startDate=` and the start instant, and ends with `&endDate=` and the end instant |
| `Theme.Parse` | theme-init.js:6 | a stored value is a theme if and only if it is exactly `light` or `dark`, and names that theme |
| `Theme.ParseName` | theme-init.js:6 | every theme's name is read back as that theme |
| `Theme.PrefersLight` | theme-init.js:5 | the light preference holds if and only if `matchMedia` exists and the query matches |
| `Theme.InitialTheme` | theme-init.js:6-10 | the theme is always `light` or `dark`; a valid stored value wins; otherwise it is `light` if and only if the light preference matches, and `dark` when `matchMedia` is missing |
| `Theme.InitialThemeStable` | theme-init.js:6-10 | storing the chosen theme and choosing again yields the same theme, whatever the colour-scheme preference is then |
| `Theme.MetaColor` | theme-init.js:16 | the meta colour is `#f8fafc` if and only if the theme is `light`, and `#121826` otherwise |
| `Theme.ThemeInit` | theme-init.js:2-20 | nothing is applied if and only if the storage read throws; otherwise the applied theme is `light` or `dark`, a valid stored value wins, and the meta colour is `#f8fafc` if and only if the theme is `light` |

## Left out

- `fetchTimeTables` (junat.js:17-29) is left out: it is timer polling (`setTimeout`, every 5000 ms) and a clock write into the DOM.
- The `fetch` and `response.json()` in `getTrainLineDateData` (junat.js:36-38) are network I/O. The model stops at the URL.
- `getTime`, `new Date()`, `toISOString` and `toLocaleTimeString` (junat.js:33-34, 63-66) are library date and locale formatting. "Now" is an integer parameter and `toISOString` is the function parameter `toIso`.
- Every DOM write is left out: `innerHTML` of the line's element (`line.id`), `dataset.theme`, and `querySelector`/`setAttribute` of the meta element (junat.js:53, theme-init.js:12-17). Because of this, `line.id` plays no part in the model.
- `localStorage.getItem` and `window.matchMedia` are not modelled as calls. Their results are parameters of `Theme.InitialTheme`.
- The `console.warn` in the `catch` of theme-init.js (lines 18-20) is logging and is left out. The control flow of the `try` is modelled by `Theme.ThemeInit`: a storage read that throws applies nothing. `Theme.InitialTheme`'s "always `light` or `dark`" covers only storage reads that succeed. Exceptions from the DOM calls inside the `try` (lines 12-17) are not modelled.
- The `trainLines` table (junat.js:2-13) is configuration data. Its `url` and `station` values are parameters.
- API fields are modelled with the types the API documents. `commuterLineID`, `commercialTrack` and `scheduledTime` are strings, and `cancelled` is a boolean. Missing or non-string fields are not modelled: the template would interpolate them as `undefined`, and a non-string `scheduledTime` would make `slice` throw.
- JavaScript strings are sequences of UTF-16 code units. The model uses Dafny characters. For the ASCII timestamps the API sends, the two are the same.
- `Departures.TrainData`: its own contract states only that the `id` is copied. The full field-by-field copy is `Departures.TrainDataCopiesFirstDeparture`, and the error case is `Departures.TrainDataFailsIff`.
