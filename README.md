# Pool temperature server core, in Dafny

This project models the sequential logic inside the pool-temperature image server.
The server polls a sensor API for water-temperature readings and renders them into cached
PNG images of several sizes. It also keeps a few counters that it persists to a state file.
The model covers five parts:

- **The sensor timestamp codec** (`MessageDate`). The API writes instants as
  `"\/Date(<epoch-ms>)\/"`.
  - `UnmarshalJSON` trims that wrapper (each half only when present), parses a base-10
    `int64` with Go's `strconv.ParseInt` rules, and truncates the milliseconds to whole
    seconds toward zero. On any error the receiver is left unchanged.
  - `MarshalJSON` writes the instant as a quoted RFC 3339 date-time (section 5.6 of
    RFC 3339).
  - `String` writes it in the layout `Mon, 02 Jan 2006 15:04:05`.
  - Instants are Unix seconds plus nanoseconds, shown in UTC. The proleptic Gregorian
    calendar is modelled and proved: day numbers to dates and back.
  - Two independent reference parsers read both layouts back. They carry round-trip
    proofs for four-digit years.
- **The reading store** (`Monnit`).
  - `GetLast` and `LastReading` choose the reading shown, or the zero reading when there
    is none.
  - `LoadData` builds the request for a seven-day window. It replaces the stored response
    only when the request is built, sent and decoded; every error leaves it untouched.
- **The image cache** (`ImageGenerator`, and its older twin `Display`). Both follow one
  protocol over `buffer` and `lastUpdate`.
  - `NeedsUpdate` is a strict "before" test.
  - `Refresh` renders, empties the buffer, encodes into it, and only then records the
    reading's date.
  - The model states what each failure path leaves behind. It shows that `lastUpdate` can
    move backwards, and proves when a history of refreshes leaves the cache current.
- **The application state** (`StateManager`).
  - Each mutator changes exactly one field; counters wrap like Go's 64-bit `int`.
  - `Load` decides between a missing, unopenable, undecodable and readable state file,
    then removes and saves as the code does.
  - Gob decoding overlays only the non-zero fields it received.
- **The display renderers** (`GenerateDisplayImage`, `GenerateMaintenanceDisplayImage`).
  An image is modelled as its size and the texts drawn on it, each with its font.
  - The model captures the labels drawn and the font-loading failures.
  - It captures the maintenance rule: split at `"\n"`, then draw one line, two lines, or
    nothing.

Rendering, PNG encoding, the network and the file system stay outside the model. What they
return is an input: a font loader, an encoder outcome, an exchange outcome, or a state-file
value.

Four behaviours of the code differ from what a caller would likely expect. The model
follows the code:

- Encode failure in `Refresh`: a caller would expect the previous image to stay cached.
  But generator.go:64 (and display.go:61) reset the buffer before `png.Encode` runs. After
  an encode failure the buffer holds whatever the encoder wrote, possibly nothing
  (`ImageCache.EncodeFailureLosesImage`).
- Undecodable state file: a caller would expect a clean zero state. But state.go:71-77
  decodes straight into the state in memory, then removes the file and saves that state.
  Fields that gob stored before it failed stay in memory and are written back
  (`AppState.LoadCorrupt`).
- Freshness of the cache: a caller would expect `lastUpdate` to be the newest reading
  shown so far. But generator.go:70 sets it to the date of the latest successful refresh,
  so a refresh with an older reading moves it back (`ImageCache.OlderReadingMovesBack`).
  "Needs an update exactly when no refresh showed a reading at least as new" holds only when
  readings never go back in time (`ImageCache.NeedsUpdateAfterRun`); otherwise it fails
  (`ImageCache.OutOfOrderRefreshesNeedUpdate`).
- A response without readings: a caller would expect the previous reading to stay shown.
  But monnit.go:113-120 stores any body that decodes, and unknown fields are ignored. A
  JSON error body with no "Result" field therefore replaces the stored response, and
  `LastReading` then shows the zero reading: "0.0°C", dated January 1 of year 1
  (`Monnit.NoResultShowsZero`, `Monnit.NoReadingIsZero`).

## Model

| member | source | states |
|---|---|---|
| `Common.WrappingIncrement` | state.go:108 | `x++` on a 64-bit int: one more, except that the largest value wraps to the smallest |
| `Strings.TrimPrefix` | message_date.go:21 | the prefix is removed exactly when the text starts with it, and the rest is what follows it; otherwise the text is unchanged |
| `Strings.TrimSuffix` | message_date.go:22 | the suffix is removed exactly when the text ends with it; otherwise the text is unchanged |
| `Strings.Split` | image_display.go:58 | one piece more than there are separators, no piece holds the separator, and joining the pieces with it gives back the text |
| `Strconv.ParseInt` | message_date.go:23-26 | every error names ParseInt and carries the text it was given |
| `Strconv.ParseUintCorrect` | message_date.go:23 | ParseUint, the digit scan inside ParseInt, accepts exactly a non-empty run of digits whose value fits in 64 unsigned bits and gives that value; too large a run is a range error |
| `Strconv.ParseIntCorrect` | message_date.go:23-26 | parsing succeeds exactly for an optional sign and one or more digits whose value fits in int64, giving that value; a well-formed text out of range is a range error |
| `Strconv.DecimalRoundTrip` | message_date.go:23 | the decimal form of every int64 is a valid integer text that parses back to it |
| `Calendar.CivilFromDays` | message_date.go:13 | every day number maps to a valid date that converts back to the same day number |
| `Calendar.DaysFromCivilInjective` | message_date.go:13 | two valid dates with the same day number are the same date |
| `GoTime.CivilRoundTrip` | message_date.go:13 | the date and clock of an instant give back its Unix second |
| `GoTime.BeforeOrder` | generator.go:48 | Time.Before is a strict total order: irreflexive, transitive, and of two different instants exactly one is before the other |
| `GoTime.AddDays` | monnit.go:76 | moving by n days in UTC moves the instant by exactly n * 86400 seconds, nanoseconds kept |
| `GoTime.TwoDigits` | message_date.go:13 | a two-character all-digit field whose value is the number |
| `GoTime.YearTextFourDigits` | message_date.go:35 | years 0 to 9999 are written as exactly four digits with the year's value |
| `GoTime.FormatRFC3339` | message_date.go:35 | the date, "T", the clock and "Z": at least 20 characters, with "T", ":", ":" and "Z" at their places from the end; TimeParse.RFC3339RoundTrip shows it reads back as the instant |
| `GoTime.FormatDayLayout` | message_date.go:13 | at least 25 characters, ending in " hh:mm:ss"; TimeParse.DayLayoutShape gives its start and TimeParse.DayLayoutRoundTrip shows it reads back as the instant |
| `TimeParse.FourDigitYearIsYearRange` | message_date.go:35 | the instants from 0000-01-01T00:00:00Z to 9999-12-31T23:59:59Z are exactly those whose UTC year is 0 to 9999, the years RFC 3339 can write |
| `TimeParse.RFC3339RoundTrip` | message_date.go:35 | the RFC 3339 text of an instant with a four-digit year is 20 characters long and an RFC 3339 parser reads back its Unix second |
| `TimeParse.DayLayoutShape` | message_date.go:13 | the day layout starts with the three-letter weekday name and ", " |
| `TimeParse.DayLayoutRoundTrip` | message_date.go:13 | the day layout of an instant with a four-digit year is 25 characters long and parses back to its Unix second |
| `MessageDates.MillisToSeconds` | message_date.go:27 | division by 1000 truncated toward zero: the remainder is under 1000 in size and has the sign of the milliseconds |
| `MessageDates.Floor1000` | message_date.go:27 | the floored quotient that Go's division does not compute, as a reference for the truncation |
| `MessageDates.DateText` | message_date.go:21-22 | a text wrapped in the prefix and suffix yields exactly what lies between them; a text with neither is unchanged; the result is never longer than the input |
| `MessageDates.UnmarshalJSON` | message_date.go:19-30 | succeeds exactly when the trimmed text is a signed decimal within int64, then holds the truncated second; on an error the receiver keeps its value and the error carries the trimmed text |
| `MessageDates.MarshalJSON` | message_date.go:34-36 | never fails, and is the RFC 3339 text between double quotes |
| `MessageDates.String` | message_date.go:12-14 | weekday name and ", " first; for four-digit years exactly the 25-character layout, which parses back to the instant's second |
| `MessageDates.DateTextOfPlain` | message_date.go:21-22 | a text with no quote at either end comes out of the trims unchanged, whether wrapped, half-wrapped or bare |
| `MessageDates.WrapperIsOptional` | message_date.go:21-27 | the wrapped, prefix-only, suffix-only and bare decimal forms of any int64 all give the same truncated second |
| `MessageDates.ParsesDocumentedExample` | message_date.go:16-28 | `"\/Date(1730328597000)\/"` gives Unix second 1730328597 |
| `MessageDates.NegativeMillisTruncate` | message_date.go:27 | -1500 ms gives second -1, where flooring would give -2 |
| `MessageDates.MarshalRoundTrip` | message_date.go:35 | the text between MarshalJSON's quotes parses as RFC 3339 to the instant's second (four-digit years) |
| `MessageDates.UnmarshalThenMarshal` | message_date.go:27-35 | after a successful UnmarshalJSON, MarshalJSON's text parses back to the input milliseconds truncated to seconds (years 0–9999) |
| `MessageDates.UnmarshalRejectsMarshal` | message_date.go:19-36 | UnmarshalJSON refuses MarshalJSON's output and keeps the receiver, so the two are not inverses |
| `Monnit.GetLast` | monnit.go:143-148 | the zero reading for an empty list, otherwise the first reading |
| `Monnit.GetLastIsNewest` | monnit.go:143-148 | on a newest-first list the reading chosen is in the list and no reading in it is newer |
| `Monnit.WindowStart` | monnit.go:75-76 | the window starts exactly seven days (7 * 86400 s) before it ends |
| `Monnit.DecodeInto` | monnit.go:113-120 | each of the three fields the decoded body holds (method, readings, LastUpdated) replaces that of the value decoded into; absent fields keep it |
| `Monnit.DecodeKeepsFetchTime` | monnit.go:70-72 | a response without a LastUpdated field keeps the time the fetch started, and its first reading is the one shown |
| `Monnit.NoResultShowsZero` | monnit.go:143-146 | a response without readings shows the zero reading |
| `Monnit.Monnit.constructor` | monnit.go:26-31 | a new store keeps the credentials and URL and holds no data |
| `Monnit.Monnit.LastReading` | monnit.go:125-133 | the zero reading when no data was ever loaded, otherwise GetLast of the data |
| `Monnit.Monnit.RequestFor` | monnit.go:77-92 | a GET to the API URL with both key headers and the sensor id, window start and window end in the day layout |
| `Monnit.Monnit.BuildRequest` | monnit.go:77-92 | appending the two key headers and the three query parameters one at a time yields exactly that request |
| `Monnit.Monnit.LoadData` | monnit.go:66-123 | a failure to build, send or decode returns that error with the stored data unchanged; success stores the decoded response over one stamped with the fetch start |
| `Monnit.QueryWindowSevenDays` | monnit.go:75-92 | both query dates, read back in their layout, are the window's end and exactly seven days before it (both ends in years 0–9999) |
| `Monnit.NoReadingIsZero` | monnit.go:129-131 | with no data or no readings the reading shown is the zero reading, dated at the zero instant, temperature "0.0°C" |
| `Monnit.LastReadingIsNewest` | monnit.go:129-133 | with a newest-first response the reading shown is one no stored reading is newer than |
| `ImageDisplay.GenerateDisplayImage` | image_display.go:11-42 | the first font that fails to load (title, temperature or updated face, in that order) is the error and there is no image; otherwise the size given and "POOL TEMP", the temperature and "Last updated " before the last-modified text |
| `ImageDisplay.MaintenanceLines` | image_display.go:58-65 | no break: the message; one break: the texts before and after it, in order; two or more: nothing |
| `ImageDisplay.GenerateMaintenanceDisplayImage` | image_display.go:45-68 | fails exactly when its font fails to load; otherwise the size given with the maintenance lines drawn in that font |
| `ImageDisplay.MaintenanceIgnoresReading` | image_display.go:45-68 | the maintenance image does not depend on the temperature or last-modified text |
| `ImageDisplay.MaintenanceSingleLine` | image_display.go:63-64 | a message without a break is drawn as one line, the whole message |
| `ImageDisplay.MaintenanceTwoLines` | image_display.go:60-62 | a message with one break is drawn as the text before it and then the text after it |
| `ImageDisplay.MaintenanceTooManyLines` | image_display.go:59-65 | a message with two or more breaks gives an image with no text |
| `ImageCache.Refreshed` | generator.go:53-73 | the error returned is the render error, or else the encoder's |
| `ImageCache.RenderFailureKeepsCache` | generator.go:59-62 | a render failure returns its error and changes neither buffer nor last update |
| `ImageCache.EncodeFailureLosesImage` | generator.go:64-68 | an encode failure keeps the last update but leaves only the encoder's partial output in the buffer, whatever it held before |
| `ImageCache.RefreshedIsCurrent` | generator.go:64-72 | a successful refresh holds the encoded image and the reading's date, and then needs no update for that date |
| `ImageCache.OnlySuccessMovesDate` | generator.go:59-70 | the last update becomes the reading's date on success and is unchanged on every failure |
| `ImageCache.OlderReadingMovesBack` | generator.go:70 | a successful refresh with an older reading moves the last update back, and the cache needs an update for the date it had shown |
| `ImageCache.FreshNotStaleAtZero` | generator.go:48 | a new cache needs no update for the zero instant, and needs one exactly for later instants |
| `ImageCache.NeedsUpdateAfterRun` | generator.go:44-73 | when successful refreshes never go back in time, the cache needs an update for t exactly when it needed one at the start and no successful refresh showed a reading dated t or later |
| `ImageCache.OutOfOrderRefreshesNeedUpdate` | generator.go:48-70 | a newer reading refreshed and then an older one leave the cache needing an update for the newer date |
| `Generator.ImageGenerator.constructor` | generator.go:24-32 | the size, message and renderer given, an empty buffer and the zero last update |
| `Generator.ImageGenerator.GetImageBytes` | generator.go:36-41 | the bytes of the cached image, with nothing changed |
| `Generator.ImageGenerator.NeedsUpdate` | generator.go:44-49 | true exactly when the last update is strictly before the instant checked, with nothing changed |
| `Generator.ImageGenerator.Refresh` | generator.go:53-73 | buffer, last update and error are the cache transition applied to the render of the reading's temperature, date text and message |
| `Generator.DisplayShowsReading` | generator.go:59 | a generator built with the large-display renderer, whose fonts load, renders a reading as its temperature and "Last updated " before its date; that date reads back as the reading's second (years 0–9999) |
| `Generator.NoRedrawBeforeFirstReading` | generator.go:48 | a new generator needs no update for the zero reading an empty store shows |
| `Displays.Display.constructor` | display.go:23-29 | the size given, an empty buffer and the zero last update |
| `Displays.Display.GenerateImage` | display.go:74-98 | the first font that fails to load (temperature face, then updated face) is the error; otherwise the temperature and "Last updated " before the last-modified text |
| `Displays.Display.GetImageBytes` | display.go:33-38 | the bytes of the cached image, with nothing changed |
| `Displays.Display.NeedsUpdate` | display.go:41-46 | true exactly when the last update is strictly before the instant checked, with nothing changed |
| `Displays.Display.Refresh` | display.go:50-70 | buffer, last update and error are the cache transition applied to the fixed renderer's image of the reading |
| `Displays.DisplayRefreshDate` | display.go:56-67 | once the fonts load, the reading's date becomes the last update exactly when encoding succeeds, older or not |
| `AppState.Overlay` | state.go:71 | a decoded field replaces the one in memory only when it is not zero |
| `AppState.OverlayOnZero` | state.go:71 | decoding into the zero State gives exactly the saved State |
| `AppState.OverlayOfZero` | state.go:71 | a saved zero State changes nothing in memory |
| `AppState.OverlayKeepsZeroFields` | state.go:71 | decoding into a non-zero State can differ from the saved State |
| `AppState.Saved` | state.go:83-90 | no error exactly when the file is written, and the file then holds the State; a create failure leaves the file as it was |
| `AppState.Loaded` | state.go:61-81 | a readable file is decoded into memory with no error; a missing file is created from the State in memory |
| `AppState.Discarded` | state.go:71-78 | after a failed decode: a remove error is returned with nothing saved, otherwise the save's result; the State is kept |
| `AppState.LoadCorrupt` | state.go:71-78 | an undecodable file keeps its partly decoded fields in memory, never resets to zero, and is removed and saved over unless removing fails |
| `AppState.LoadUnopenable` | state.go:63-78 | a file that cannot be opened is treated as undecodable and leaves the State unchanged |
| `AppState.LoadFromZeroAgrees` | state.go:61-81 | from the zero State, a Load without error leaves the file holding exactly the State in memory |
| `AppState.LoadFailureFromZero` | state.go:61-81 | unless a partial decode stored fields, a failed Load from the zero State leaves the zero State |
| `AppState.StateManager.constructor` | state.go:35-38 | the zero State and the file name |
| `AppState.StateManager.SetLastRequest` | state.go:99-103 | the last request becomes the time given; both counters stay |
| `AppState.StateManager.IncrementImageRedraws` | state.go:105-109 | one more redraw, wrapping at the top of int64; the other fields stay |
| `AppState.StateManager.IncrementImageRequests` | state.go:111-115 | one more request, wrapping at the top of int64; the other fields stay |
| `AppState.StateManager.Save` | state.go:92-97 | the file and error are those of save for the current State, which is not changed; on success the file holds it |
| `AppState.StateManager.Load` | state.go:61-81 | State, file and error are those Loaded gives for the old State |
| `AppState.NewStateManager` | state.go:34-47 | a new manager holding what Load gives from the zero State; with no error the file holds exactly that State |

## Left out

- Temperatures: Temperature is a float64, parsed with `strconv.ParseFloat` and shown with one decimal. The model carries only the text `Temperature.String()` gives; the zero reading's is "0.0°C". Floating point is not modelled, and temperature.go is not part of this model.
- Voltage is a `real`, not an IEEE double.
- HTTP:
  - how `http.NewRequest` validates the URL (its outcome is an input);
  - header-key canonicalisation by `Header.Set`;
  - query parameters already present in the API URL;
  - `url.Values.Encode`'s key sorting and percent-encoding (the query is modelled as the ordered pairs added);
  - `client.Do` and JSON decoding (one exchange outcome);
  - the partial decode discarded on a JSON error.
- The response cache file `monnit.json`: its `io.TeeReader` write in `LoadData`, and the startup load in `NewMonnit`. Also left out: `NewMonnit`'s fallback to `LoadData` and its ticker goroutine (`refresh`). The store's constructor models only the struct literal.
- Clock reads: the two `time.Now()` reads in `LoadData` are inputs, and the local time zone is fixed to UTC. `time.Unix` and `Format` in Go use the host's zone.
- The wire format of `UnmarshalJSON`: its input is a byte slice, modelled as a string of characters.
- MessageDates.String: layout round trip stated for four-digit years. Beyond them Go prints a sign or more digits, and the layout has no fixed length.
- MessageDates.MarshalRoundTrip: stated for four-digit years only. Likewise `TimeParse.RFC3339RoundTrip`, because RFC 3339 has no other years.
- The reference RFC 3339 parser drops fractional seconds and rejects second 60. `MarshalJSON` never writes either.
- Locks and aliasing: the mutexes of the store, the caches and the state manager are left out; every operation is sequential. So is the aliasing of the slice `GetImageBytes` returns with the live buffer.
- Pixels, fonts and PNG:
  - drawing positions, colours and anchors;
  - the `gg` context;
  - PNG encoding, which is an input giving the bytes written and an optional error.
- State background work: the `autoSave` goroutine and its interval. Gob encoding is modelled only as "the file holds this State".
- Unmodelled files: image_website.go, image_tiny.go, api.go, fiber.go, main.go, config.go and telegram.go are not part of this model. They hold pure drawing, type declarations, HTTP routing, configuration and bot wiring.
