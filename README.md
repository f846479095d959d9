# busEtaAndroid data pipeline, modelled in Dafny

This project models the data pipeline of the busEtaAndroid activity. The app shows
Kowloon Motor Bus stops near the device and the predicted arrivals at them. The model covers:

- **Downloads and promotion.** The activity asks the Android DownloadManager for the stop
  catalog and for one ETA feed per nearest stop. A 10 ms timer then polls each download. On
  every tick that finds the job's row, the timer promotes the temporary file to its canonical
  name (`removeTmpFile`). It cancels itself once the row reports `STATUS_SUCCESSFUL`.
- **Nearest stops.** `createDistanceArray` builds one `BusStop` per catalog record, with its
  plane distance from the current location, or from (0, 0) when no location is known.
  `sortDistanceArray` sorts the stops stably by distance. `outputDistanceData` keeps the first
  20 and labels each with `BusStop.toString`.
- **Arrivals.** `createEtaArray` builds one `StopEta` per arrival record of a stop's feed.
  `outputEtaData` then builds one text per nearest stop. The text for stop i holds the name and
  arrival lines of every stop from 0 to i, because `etaString` is never reset.
- **The two record classes.** `StopEta` (whose `getEtaTimeLeft` gives a minute of the hour in
  0..59, not a signed count) and `BusStop` (whose `toString` rounds the distance to whole
  metres), with their setters.

## How the model is built

- **Mutable objects.** `BusStop`, `StopEta`, the download directory and the activity are
  Dafny classes, with their fields.
  - Each setter states the object's whole new field snapshot (`Fields()`).
  - The activity's handlers are methods of `Activity.MainActivity`.
  - The list-building loops (`createDistanceArray`, `createEtaArray`, the two output
    functions, the ETA read loop and `deleteStopEtaJsonButtonHandler`) are methods with
    `while` loops. Each is proved against a specification function on values:
    `Records.Collect`, `NearestStops.Nearest`, `EtaReport.Cumulative` and
    `Activity.EtaLists`. The properties are then proved as lemmas about those functions.
- **Files.** The file system is a map from path (relative to the app's download directory)
  to bytes (`Files.Store`).
- **JSON.** A JSON record is a map from key to the key's value as text, which is what
  `get(key).toString()` returns. The JSON parser is a parameter, `parseFeed`, that maps a
  file's bytes to the records of its `data` array.
- **Exceptions.** An exception the code throws is a `Records.Thrown` value returned beside
  the result. Each model keeps the objects the code has already appended when it throws.
- **Library adapters.** Five small functions encode library calls and nothing more:
  - `Records.Get` is `JSONObject.get(key)`: the value, or a missing-key exception naming the key.
  - `NearestStops.Coordinate` is `Float.parseFloat`: the parsed value, or a number-format
    exception naming the text.
  - `Feeds.ReadFeed` is `convertJsonToArrayList`: a missing file throws a file-not-found
    exception, bytes `parseFeed` rejects throw a JSON exception, and otherwise the records of
    `data` come back in order.
  - `StopEtas.TimeLeft` and `StopEtas.NullableText` give the value `getEtaTimeLeft` returns
    (absent when the arrival time does not parse) and how Java prints a possibly-null string.
  What the rest of the model proves about them is stated by `StopFromRecord`,
  `StopEtaListSucceeds`, `UnparsableEtaLine` and `ParsableEtaLine`.
- **Distances.** A distance is held as its square, in squared degrees, so no square root is
  needed.
  - `Geometry.CompareOfSquares` shows that comparing squares orders stops as comparing
    distances does.
  - `Geometry.RoundedMetresOfDistance` shows that the rounded metres computed from the
    square are the code's `round(d * 111.139 * 1000)` for the distance `d`.
- **Platform answers.** These are parameters:
  - `Float.parseFloat` (`parseFloat`);
  - `SimpleDateFormat.parse` of an arrival time (`Platform.parseEta`);
  - `DateUtil.returnTimeString` (`Platform.timeString`);
  - the clock and the zone offset (`EtaTime.Clock`);
  - each poll's DownloadManager row and the bytes it wrote since the last tick
    (`Polling.Sample`).

### Behaviour of the code worth knowing

The code behaves as follows:

- **Promotion.** A poll tick promotes the temporary file on every row it finds, whatever the
  status, not only on success. A tick that sees a running job promotes the partial file
  (`Polling.TickPromotesWhileRunning`).
- **Failed jobs.** A failed or paused job is never cancelled and keeps polling
  (`Polling.NeverSuccessfulPollsForever`). No failure reason reaches the caller:
  `DownloadStatus` returns the status code unchanged.
- **The catalog download.** It is written straight to `stop/busStop`, but the poller is
  given `stop/busStop_Tmp` as its temporary file. Promotion of the catalog therefore never
  happens (`Activity.CatalogPollIsWrites`).
- **Minutes left.** This is the minute of the hour of the difference, in 0..59. It never
  goes negative: one minute in the past shows 59 (`EtaTime.MinutesLeftExamples`). An arrival
  time that does not parse is not an error; its line shows `nullmin(s)`.
- **Partial failure.** Reading the ETA feeds has none. The first stop whose feed is missing
  or malformed, or has a record missing a key, ends the whole read with that exception, and
  nothing is shown (`Activity.EtaListsFailed`).
- **Fewer than 20 catalog stops.** `outputDistanceData` then throws
  `IndexOutOfBoundsException` after appending them all. The handler catches it, so
  `closestStop` keeps every stop.

## Model

| member | source | states |
|---|---|---|
| Decimal.DecimalString | LocationUpdates/app/src/main/java/com/google/android/gms/location/sample/locationupdates/BusStop.java:87-89 | the decimal text of a whole number: at least one digit, only digits, and no leading zero except for 0 itself |
| Decimal.DecimalRoundTrip | LocationUpdates/app/src/main/java/com/google/android/gms/location/sample/locationupdates/BusStop.java:87-89 | reading the digits of a printed number back gives the number |
| Decimal.DecimalStringInjective | LocationUpdates/app/src/main/java/com/google/android/gms/location/sample/locationupdates/BusStop.java:87-89 | distinct numbers print differently |
| EtaTime.MinuteOfHour | LocationUpdates/app/src/main/java/com/google/android/gms/location/sample/locationupdates/StopEta.java:143-147 | `Date.getMinutes()` of an instant is always in 0..59 |
| EtaTime.MinutesLeft | LocationUpdates/app/src/main/java/com/google/android/gms/location/sample/locationupdates/StopEta.java:139-147 | the value `getEtaTimeLeft` computes from the arrival time and the clock is in 0..59, never negative |
| EtaTime.WholeHourOffset | LocationUpdates/app/src/main/java/com/google/android/gms/location/sample/locationupdates/StopEta.java:143-147 | under a whole-hour zone offset the minute of the hour is `(millis floor-div 60000) mod 60`, independent of the zone |
| EtaTime.MinutesLeftHourly | LocationUpdates/app/src/main/java/com/google/android/gms/location/sample/locationupdates/StopEta.java:143-147 | an arrival one hour later gives the same minutes left (the value wraps every hour) |
| EtaTime.MinutesLeftWithinHour | LocationUpdates/app/src/main/java/com/google/android/gms/location/sample/locationupdates/StopEta.java:143-147 | for an arrival less than an hour ahead, under a whole-hour offset, the value is the whole number of minutes until it |
| EtaTime.MinutesLeftExamples | LocationUpdates/app/src/main/java/com/google/android/gms/location/sample/locationupdates/StopEta.java:143-147 | an arrival now gives 0, five minutes ahead gives 5, 65 minutes ahead gives 5, one minute ago gives 59 |
| StopEtas.MinutesLeftText | LocationUpdates/app/src/main/java/com/google/android/gms/location/sample/locationupdates/StopEta.java:147 | `String.valueOf` of the minutes: one or two digits whose value is the minutes left |
| StopEtas.AfterTimeLeft | LocationUpdates/app/src/main/java/com/google/android/gms/location/sample/locationupdates/StopEta.java:174-179 | after `toString` or `getEtaTimeLeft`, only `etaTimeLeft` may have changed: it holds the new minutes when the arrival parses and keeps its old value when the parse throws |
| StopEtas.Line | LocationUpdates/app/src/main/java/com/google/android/gms/location/sample/locationupdates/StopEta.java:189 | the line format; its shape is stated by `LineShape` |
| StopEtas.Rendered | LocationUpdates/app/src/main/java/com/google/android/gms/location/sample/locationupdates/StopEta.java:174-189 | the line `toString` returns for given fields; stated by `UnparsableEtaLine`, `ParsableEtaLine` and `RenderedIgnoresTimeLeft` |
| StopEtas.LineShape | LocationUpdates/app/src/main/java/com/google/android/gms/location/sample/locationupdates/StopEta.java:189 | the line is co, route, dir, service type, destTc, arrival time and minutes left separated by single spaces, ending in "min(s)" |
| StopEtas.UnparsableEtaLine | LocationUpdates/app/src/main/java/com/google/android/gms/location/sample/locationupdates/StopEta.java:174-189 | when the arrival time does not parse, the line ends in "nullmin(s)" |
| StopEtas.ParsableEtaLine | LocationUpdates/app/src/main/java/com/google/android/gms/location/sample/locationupdates/StopEta.java:174-189 | when it parses, the line ends in the minutes left (0..59) followed by "min(s)" |
| StopEtas.RenderedIgnoresTimeLeft | LocationUpdates/app/src/main/java/com/google/android/gms/location/sample/locationupdates/StopEta.java:157-189 | the line does not depend on the stored `etaTimeLeft` |
| StopEtas.AfterTimeLeftIdempotent | LocationUpdates/app/src/main/java/com/google/android/gms/location/sample/locationupdates/StopEta.java:137-150 | at one clock reading, computing the minutes left twice leaves the same fields as once |
| StopEtas.StopEta.constructor | LocationUpdates/app/src/main/java/com/google/android/gms/location/sample/locationupdates/StopEta.java:7-23 | a new arrival has every string field empty and `etaTimeLeft` absent; Java starts the strings as null (see "## Left out") |
| StopEtas.StopEta.SetCo | LocationUpdates/app/src/main/java/com/google/android/gms/location/sample/locationupdates/StopEta.java:29-31 | `co` then reads back the value set, and the other fourteen fields are unchanged |
| StopEtas.StopEta.SetRoute | LocationUpdates/app/src/main/java/com/google/android/gms/location/sample/locationupdates/StopEta.java:37-39 | `route` then reads back the value set, and the other fourteen fields are unchanged |
| StopEtas.StopEta.SetDir | LocationUpdates/app/src/main/java/com/google/android/gms/location/sample/locationupdates/StopEta.java:45-47 | `dir` then reads back the value set, and the other fourteen fields are unchanged |
| StopEtas.StopEta.SetServiceType | LocationUpdates/app/src/main/java/com/google/android/gms/location/sample/locationupdates/StopEta.java:53-55 | `serviceType` then reads back the value set, and the other fourteen fields are unchanged |
| StopEtas.StopEta.SetStopSeq | LocationUpdates/app/src/main/java/com/google/android/gms/location/sample/locationupdates/StopEta.java:61-63 | `seq` then reads back the value set, and the other fourteen fields are unchanged |
| StopEtas.StopEta.SetDestTc | LocationUpdates/app/src/main/java/com/google/android/gms/location/sample/locationupdates/StopEta.java:69-71 | `destTc` then reads back the value set, and the other fourteen fields are unchanged |
| StopEtas.StopEta.SetDestSc | LocationUpdates/app/src/main/java/com/google/android/gms/location/sample/locationupdates/StopEta.java:77-79 | `destSc` then reads back the value set, and the other fourteen fields are unchanged |
| StopEtas.StopEta.SetDestEn | LocationUpdates/app/src/main/java/com/google/android/gms/location/sample/locationupdates/StopEta.java:85-87 | `destEn` then reads back the value set, and the other fourteen fields are unchanged |
| StopEtas.StopEta.SetEtaSeq | LocationUpdates/app/src/main/java/com/google/android/gms/location/sample/locationupdates/StopEta.java:93-95 | `etaSeq` then reads back the value set, and the other fourteen fields are unchanged |
| StopEtas.StopEta.SetEta | LocationUpdates/app/src/main/java/com/google/android/gms/location/sample/locationupdates/StopEta.java:101-103 | `eta` then reads back the value set, and the other fourteen fields are unchanged |
| StopEtas.StopEta.SetRmkTc | LocationUpdates/app/src/main/java/com/google/android/gms/location/sample/locationupdates/StopEta.java:109-111 | `rmkTc` then reads back the value set, and the other fourteen fields are unchanged |
| StopEtas.StopEta.SetRmkSc | LocationUpdates/app/src/main/java/com/google/android/gms/location/sample/locationupdates/StopEta.java:117-119 | `rmkSc` then reads back the value set, and the other fourteen fields are unchanged |
| StopEtas.StopEta.SetRmkEn | LocationUpdates/app/src/main/java/com/google/android/gms/location/sample/locationupdates/StopEta.java:125-127 | `rmkEn` then reads back the value set, and the other fourteen fields are unchanged |
| StopEtas.StopEta.SetDataTimestamp | LocationUpdates/app/src/main/java/com/google/android/gms/location/sample/locationupdates/StopEta.java:133-135 | `dataTimestamp` then reads back the value set, and the other fourteen fields are unchanged |
| StopEtas.StopEta.SetEtaTimeLeft | LocationUpdates/app/src/main/java/com/google/android/gms/location/sample/locationupdates/StopEta.java:152-154 | `etaTimeLeft` then reads back the value set, and the other fourteen fields are unchanged |
| StopEtas.StopEta.GetEtaTimeLeft | LocationUpdates/app/src/main/java/com/google/android/gms/location/sample/locationupdates/StopEta.java:137-150 | returns the minutes left for the arrival time, stores that same value in `etaTimeLeft`, and changes no other field |
| StopEtas.StopEta.ToString | LocationUpdates/app/src/main/java/com/google/android/gms/location/sample/locationupdates/StopEta.java:157-190 | returns the line for the fields before the call; its only effect is the one `getEtaTimeLeft` has |
| BusStops.LabelParts | LocationUpdates/app/src/main/java/com/google/android/gms/location/sample/locationupdates/BusStop.java:87-89 | the label is nameTc, one space, the rounded metres in decimal, then "m" |
| BusStops.LabelDependsOnNameAndDistance | LocationUpdates/app/src/main/java/com/google/android/gms/location/sample/locationupdates/BusStop.java:87-89 | two stops have the same label exactly when their nameTc and rounded metres agree; stop ID, latitude and longitude play no part |
| BusStops.LabelForDistance | LocationUpdates/app/src/main/java/com/google/android/gms/location/sample/locationupdates/BusStop.java:87-89 | for a distance d (degrees) the label shows `floor(d * 111139 + 0.5)` metres |
| BusStops.Label | LocationUpdates/app/src/main/java/com/google/android/gms/location/sample/locationupdates/BusStop.java:87-89 | the line `toString` returns for given fields; stated by `LabelParts`, `LabelDependsOnNameAndDistance` and `LabelForDistance` |
| BusStops.LabelSplit | LocationUpdates/app/src/main/java/com/google/android/gms/location/sample/locationupdates/BusStop.java:89 | two labels agree only when their names and their digits agree |
| BusStops.BusStop.constructor | LocationUpdates/app/src/main/java/com/google/android/gms/location/sample/locationupdates/BusStop.java:5-13 | a new stop has every string field empty and distance 0; Java starts them as null (see "## Left out") |
| BusStops.BusStop.SetStopID | LocationUpdates/app/src/main/java/com/google/android/gms/location/sample/locationupdates/BusStop.java:19-21 | `stopID` then reads back the value set, and the other six fields are unchanged |
| BusStops.BusStop.SetNameEn | LocationUpdates/app/src/main/java/com/google/android/gms/location/sample/locationupdates/BusStop.java:27-29 | `nameEn` then reads back the value set, and the other six fields are unchanged |
| BusStops.BusStop.SetNameTc | LocationUpdates/app/src/main/java/com/google/android/gms/location/sample/locationupdates/BusStop.java:35-37 | `nameTc` then reads back the value set, and the other six fields are unchanged |
| BusStops.BusStop.SetNameSc | LocationUpdates/app/src/main/java/com/google/android/gms/location/sample/locationupdates/BusStop.java:43-45 | `nameSc` then reads back the value set, and the other six fields are unchanged |
| BusStops.BusStop.SetLat | LocationUpdates/app/src/main/java/com/google/android/gms/location/sample/locationupdates/BusStop.java:51-53 | `lat` then reads back the value set, and the other six fields are unchanged |
| BusStops.BusStop.SetLon | LocationUpdates/app/src/main/java/com/google/android/gms/location/sample/locationupdates/BusStop.java:59-61 | `lon` then reads back the value set, and the other six fields are unchanged |
| BusStops.BusStop.SetDistance | LocationUpdates/app/src/main/java/com/google/android/gms/location/sample/locationupdates/BusStop.java:67-69 | `distance` then reads back the value set, and the other six fields are unchanged |
| BusStops.BusStop.ToString | LocationUpdates/app/src/main/java/com/google/android/gms/location/sample/locationupdates/BusStop.java:73-90 | the line starts with nameTc and a space, ends in "m", and the digits between read back as the rounded metres of the distance |
| Geometry.SquaredDistance | LocationUpdates/app/src/main/java/com/google/android/gms/location/sample/locationupdates/MainActivity.java:1005-1008 | the squared plane distance of a point from itself is zero |
| Geometry.SquaredDistanceZeroIff | LocationUpdates/app/src/main/java/com/google/android/gms/location/sample/locationupdates/MainActivity.java:1005-1008 | the distance is zero exactly when the two points are equal |
| Geometry.SquaredDistanceSymmetric | LocationUpdates/app/src/main/java/com/google/android/gms/location/sample/locationupdates/MainActivity.java:1005-1008 | the distance is symmetric |
| Geometry.Compare | LocationUpdates/app/src/main/java/com/google/android/gms/location/sample/locationupdates/MainActivity.java:1142-1150 | the comparator returns -1, 0 or 1, negative exactly when the first is smaller and zero exactly when they are equal |
| Geometry.CompareOfSquares | LocationUpdates/app/src/main/java/com/google/android/gms/location/sample/locationupdates/MainActivity.java:1141-1151 | comparing squared distances gives the same answer as comparing the distances, so sorting by either is the same |
| Geometry.SquareMonotone | LocationUpdates/app/src/main/java/com/google/android/gms/location/sample/locationupdates/MainActivity.java:1141-1151 | on non-negative reals squaring preserves both `<` and `==` |
| Geometry.RoundedMetres | LocationUpdates/app/src/main/java/com/google/android/gms/location/sample/locationupdates/BusStop.java:87-89 | the rounded metres m of a squared distance satisfy `m - 1/2 <= d * 111139 < m + 1/2` (stated on squares) |
| Geometry.RoundedMetresUnique | LocationUpdates/app/src/main/java/com/google/android/gms/location/sample/locationupdates/BusStop.java:87-89 | only one whole number meets those bounds |
| Geometry.RoundedMetresOfDistance | LocationUpdates/app/src/main/java/com/google/android/gms/location/sample/locationupdates/BusStop.java:87-89 | the rounded metres of `d * d` are `floor(d * 111139 + 0.5)`, what `round(distance * 111.139 * 1000)` computes |
| Files.EtaFile | LocationUpdates/app/src/main/java/com/google/android/gms/location/sample/locationupdates/MainActivity.java:145 | the feed file of a stop is "eta/ETA_" followed by its ID |
| Files.EtaTmpFile | LocationUpdates/app/src/main/java/com/google/android/gms/location/sample/locationupdates/MainActivity.java:146 | the download file of a stop is "eta/ETA_Tmp_" followed by its ID |
| Files.EtaFilesInjective | LocationUpdates/app/src/main/java/com/google/android/gms/location/sample/locationupdates/MainActivity.java:145-146 | distinct stops have distinct feed files and distinct download files |
| Files.EtaTmpFileIsEtaFile | LocationUpdates/app/src/main/java/com/google/android/gms/location/sample/locationupdates/MainActivity.java:145-146 | a download file coincides with a feed file only for the stop whose ID is "Tmp_" plus the other ID, and never for the same stop |
| Files.EtaFilesInEtaFolder | LocationUpdates/app/src/main/java/com/google/android/gms/location/sample/locationupdates/MainActivity.java:142-147 | every feed and download file of a stop lies in the "eta" folder; the catalog files do not |
| Files.Removed | LocationUpdates/app/src/main/java/com/google/android/gms/location/sample/locationupdates/MainActivity.java:913 | `File.delete`: the path is gone and no other path changes |
| Files.Moved | LocationUpdates/app/src/main/java/com/google/android/gms/location/sample/locationupdates/MainActivity.java:914 | `File.renameTo`: the target path holds the source content, the source is gone, and no other path changes; nothing happens without a source |
| Files.Promote | LocationUpdates/app/src/main/java/com/google/android/gms/location/sample/locationupdates/MainActivity.java:905-919 | `removeTmpFile` on the files: delete the canonical file, rename the temp file over it, delete the temp file, all only when the temp file exists; stated by `PromoteEffect` and `PromoteIdempotent` |
| Files.PromoteEffect | LocationUpdates/app/src/main/java/com/google/android/gms/location/sample/locationupdates/MainActivity.java:905-919 | with a temp file, afterwards the canonical path holds its former content and the temp path is absent; without one, nothing changes; no other path is touched |
| Files.PromoteIdempotent | LocationUpdates/app/src/main/java/com/google/android/gms/location/sample/locationupdates/MainActivity.java:905-919 | a second promotion changes nothing |
| Files.DownloadDir.constructor | LocationUpdates/app/src/main/java/com/google/android/gms/location/sample/locationupdates/MainActivity.java:907 | the download directory starts with the given files |
| Files.DownloadDir.Children | LocationUpdates/app/src/main/java/com/google/android/gms/location/sample/locationupdates/MainActivity.java:433 | `dir.list()`: exactly the files directly in the folder |
| Files.DownloadDir.Write | LocationUpdates/app/src/main/java/com/google/android/gms/location/sample/locationupdates/MainActivity.java:766-767 | what the DownloadManager writes into the directory is added to it |
| Files.DownloadDir.DeleteFolder | LocationUpdates/app/src/main/java/com/google/android/gms/location/sample/locationupdates/MainActivity.java:439 | deleting a folder succeeds exactly when it is no longer a directory, i.e. holds no file |
| Files.DownloadDir.Delete | LocationUpdates/app/src/main/java/com/google/android/gms/location/sample/locationupdates/MainActivity.java:913 | reports whether the path existed and removes it |
| Files.DownloadDir.RenameTo | LocationUpdates/app/src/main/java/com/google/android/gms/location/sample/locationupdates/MainActivity.java:914 | reports whether the source existed and moves it over the target |
| Polling.StatusText | LocationUpdates/app/src/main/java/com/google/android/gms/location/sample/locationupdates/MainActivity.java:789-851 | the status names `DownloadStatus` computes: non-empty exactly for the five listed codes, each starting with "STATUS_" |
| Polling.ReasonText | LocationUpdates/app/src/main/java/com/google/android/gms/location/sample/locationupdates/MainActivity.java:792-841 | a reason name only for a failed or paused job; the nine failure codes name an "ERROR_", the four pause codes a "PAUSED_" |
| Polling.DownloadStatus | LocationUpdates/app/src/main/java/com/google/android/gms/location/sample/locationupdates/MainActivity.java:775-856 | returns the status column unchanged |
| Polling.TickFiles | LocationUpdates/app/src/main/java/com/google/android/gms/location/sample/locationupdates/MainActivity.java:873-879 | the files after one tick: promotion whenever a row is found, nothing without one; stated by `TickPromotesWhileRunning` and `Tick` |
| Polling.Cancels | LocationUpdates/app/src/main/java/com/google/android/gms/location/sample/locationupdates/MainActivity.java:886-888 | a tick cancels the timer exactly when its row reports success |
| Polling.PollRun | LocationUpdates/app/src/main/java/com/google/android/gms/location/sample/locationupdates/MainActivity.java:859-903 | the timer runs at most one tick per sample |
| Polling.FirstSuccess | LocationUpdates/app/src/main/java/com/google/android/gms/location/sample/locationupdates/MainActivity.java:886-888 | the first sample whose row reports success: no earlier row does |
| Polling.PollStopsAtFirstSuccess | LocationUpdates/app/src/main/java/com/google/android/gms/location/sample/locationupdates/MainActivity.java:873-888 | the timer runs exactly up to and including the first tick that sees success, or through every sample when none does |
| Polling.NeverSuccessfulPollsForever | LocationUpdates/app/src/main/java/com/google/android/gms/location/sample/locationupdates/MainActivity.java:886-888 | a failed, paused or missing job is never cancelled: every sample gets its tick |
| Polling.TickPromotesWhileRunning | LocationUpdates/app/src/main/java/com/google/android/gms/location/sample/locationupdates/MainActivity.java:873-879 | a tick that sees a running job still promotes the partial temp file, and does not cancel |
| Polling.PollWithoutTmpIsWrites | LocationUpdates/app/src/main/java/com/google/android/gms/location/sample/locationupdates/MainActivity.java:873-879 | when the temp file never appears, polling leaves exactly what the DownloadManager wrote during the ticks that ran |
| Polling.SuccessfulTickPromotes | LocationUpdates/app/src/main/java/com/google/android/gms/location/sample/locationupdates/MainActivity.java:873-888 | the run ends on the first successful tick, with what was written to the temp path by then at the canonical path and no temp file left |
| Records.FirstMissingSpec | LocationUpdates/app/src/main/java/com/google/android/gms/location/sample/locationupdates/MainActivity.java:1034-1047 | the first of the keys read in order that a record lacks, or none exactly when it has them all |
| Records.FirstMissingAt | LocationUpdates/app/src/main/java/com/google/android/gms/location/sample/locationupdates/MainActivity.java:1034-1047 | the key at the first missing position is the one reported |
| Records.Collect | LocationUpdates/app/src/main/java/com/google/android/gms/location/sample/locationupdates/MainActivity.java:1028-1051 | the append loop over records shared by `createDistanceArray` and `createEtaArray`; stated by `CollectSpec` and the lemmas after it |
| Records.CollectSpec | LocationUpdates/app/src/main/java/com/google/android/gms/location/sample/locationupdates/MainActivity.java:1028-1051 | the loop over records keeps the decoded prefix in order; without a failure every record is decoded, and a failure is the error of the record right after the prefix |
| Records.CollectAt | LocationUpdates/app/src/main/java/com/google/android/gms/location/sample/locationupdates/MainActivity.java:1028-1051 | a record at a position the loop reaches either adds its entry there or stops the loop with its error |
| Records.CollectLength | LocationUpdates/app/src/main/java/com/google/android/gms/location/sample/locationupdates/MainActivity.java:1028-1051 | the loop fails exactly when it decodes fewer entries than there are records |
| Records.CollectStep | LocationUpdates/app/src/main/java/com/google/android/gms/location/sample/locationupdates/MainActivity.java:1028-1051 | one more record appends its entry or records its error |
| Records.CollectAfterFailure | LocationUpdates/app/src/main/java/com/google/android/gms/location/sample/locationupdates/MainActivity.java:1028-1051 | after a failure, later records change nothing |
| StableSort.InsertPermutes | LocationUpdates/app/src/main/java/com/google/android/gms/location/sample/locationupdates/MainActivity.java:1139-1152 | insertion adds exactly the inserted element |
| StableSort.InsertSorted | LocationUpdates/app/src/main/java/com/google/android/gms/location/sample/locationupdates/MainActivity.java:1139-1152 | insertion into a sorted list keeps it sorted |
| StableSort.InsertWithKey | LocationUpdates/app/src/main/java/com/google/android/gms/location/sample/locationupdates/MainActivity.java:1139-1152 | insertion places the new element after every element with the same key |
| StableSort.Sort | LocationUpdates/app/src/main/java/com/google/android/gms/location/sample/locationupdates/MainActivity.java:1139-1152 | `Collections.sort` with the comparator: the result is sorted by key, a permutation of the input, and keeps the order among equal keys |
| StableSort.SortedPermutationUnique | LocationUpdates/app/src/main/java/com/google/android/gms/location/sample/locationupdates/MainActivity.java:1139-1152 | two sorted lists with the same elements of every key in the same order are equal, so the stable sort is unique |
| StableSort.StableSortIsSort | LocationUpdates/app/src/main/java/com/google/android/gms/location/sample/locationupdates/MainActivity.java:1139-1152 | any sorted, order-keeping rearrangement is the result of `Sort` |
| StableSort.SortMap | LocationUpdates/app/src/main/java/com/google/android/gms/location/sample/locationupdates/MainActivity.java:1139-1152 | sorting objects and then taking their fields is sorting their fields |
| NearestStops.StopFromRecord | LocationUpdates/app/src/main/java/com/google/android/gms/location/sample/locationupdates/MainActivity.java:997-1018 | a catalog record yields a stop with `stop`, `name_en`, `name_tc`, `name_sc`, `lat`, `long` copied and its squared distance from the reference point; it throws naming the first missing key, or the coordinate that does not parse, in the order the code reads them |
| NearestStops.ReferencePoint | LocationUpdates/app/src/main/java/com/google/android/gms/location/sample/locationupdates/MainActivity.java:980-988 | the current location, or (0, 0) when none is known |
| NearestStops.DistanceEntries | LocationUpdates/app/src/main/java/com/google/android/gms/location/sample/locationupdates/MainActivity.java:990-1022 | what `createDistanceArray` appends for the catalog records and what it throws; stated by `CreateDistanceArray` and `CollectSpec` |
| NearestStops.EntryDistance | LocationUpdates/app/src/main/java/com/google/android/gms/location/sample/locationupdates/MainActivity.java:980-1008 | with no location the distance is from (0, 0); at the stop's own coordinates it is zero |
| NearestStops.NewBusStop | LocationUpdates/app/src/main/java/com/google/android/gms/location/sample/locationupdates/MainActivity.java:994-1018 | a fresh `BusStop` holding the given fields |
| NearestStops.NextBusStop | LocationUpdates/app/src/main/java/com/google/android/gms/location/sample/locationupdates/MainActivity.java:991-1020 | one iteration yields the next decoded stop, or the error that ends the loop |
| NearestStops.CreateDistanceArray | LocationUpdates/app/src/main/java/com/google/android/gms/location/sample/locationupdates/MainActivity.java:977-1024 | appends one fresh, distinct `BusStop` per decoded catalog record, in catalog order, keeps what the list held before, and throws the error of the first record that cannot be decoded after appending the records before it |
| NearestStops.DistanceKey | LocationUpdates/app/src/main/java/com/google/android/gms/location/sample/locationupdates/MainActivity.java:1143-1145 | the comparator key of each stop is its distance |
| NearestStops.SortDistanceArray | LocationUpdates/app/src/main/java/com/google/android/gms/location/sample/locationupdates/MainActivity.java:1139-1152 | the sorted list is a permutation of its input in non-decreasing distance, with equal distances in their original order |
| NearestStops.SortedFields | LocationUpdates/app/src/main/java/com/google/android/gms/location/sample/locationupdates/MainActivity.java:1139-1152 | sorting the stops and reading their fields is the stable sort of their fields |
| NearestStops.SortedStops | LocationUpdates/app/src/main/java/com/google/android/gms/location/sample/locationupdates/MainActivity.java:1139-1152 | the sorted list has the same length and only stops of the input |
| NearestStops.SortedStopFields | LocationUpdates/app/src/main/java/com/google/android/gms/location/sample/locationupdates/MainActivity.java:1139-1152 | the fields of the sorted stops are the stable sort of the fields of the input |
| NearestStops.Nearest | LocationUpdates/app/src/main/java/com/google/android/gms/location/sample/locationupdates/MainActivity.java:1115-1118 | the kept stops are min(20, n) many, sorted by distance, drawn from the input |
| NearestStops.NearestAreNearest | LocationUpdates/app/src/main/java/com/google/android/gms/location/sample/locationupdates/MainActivity.java:1115-1118 | every kept stop is at least as near as every stop left out |
| NearestStops.NearestRest | LocationUpdates/app/src/main/java/com/google/android/gms/location/sample/locationupdates/MainActivity.java:1115-1118 | the kept stops are the first min(20, n) of the sorted list and those left out are the rest |
| NearestStops.OutputDistanceData | LocationUpdates/app/src/main/java/com/google/android/gms/location/sample/locationupdates/MainActivity.java:1111-1137 | appends the first min(20, n) stops to `closestStop`, labels each with its `toString`, and with fewer than 20 stops throws `IndexOutOfBoundsException` at index n after appending them all |
| EtaReport.EtaFromRecord | LocationUpdates/app/src/main/java/com/google/android/gms/location/sample/locationupdates/MainActivity.java:1032-1047 | an arrival record yields the fourteen fields copied from their fixed keys and no minutes left |
| EtaReport.EtaFromRecordKeys | LocationUpdates/app/src/main/java/com/google/android/gms/location/sample/locationupdates/MainActivity.java:1034-1047 | decoding succeeds exactly when no key is missing, and otherwise throws naming the first missing key in the order the setters read them |
| EtaReport.NewStopEta | LocationUpdates/app/src/main/java/com/google/android/gms/location/sample/locationupdates/MainActivity.java:1030-1047 | a fresh `StopEta` holding the given fields |
| EtaReport.NextStopEta | LocationUpdates/app/src/main/java/com/google/android/gms/location/sample/locationupdates/MainActivity.java:1029-1049 | one iteration yields the next decoded arrival, or the error that ends the loop |
| EtaReport.CreateEtaArray | LocationUpdates/app/src/main/java/com/google/android/gms/location/sample/locationupdates/MainActivity.java:1026-1053 | appends one fresh, distinct `StopEta` per arrival record, in order, keeps what the list held before, and throws the error of the first record missing a key after appending the records before it |
| EtaReport.LinesAppend | LocationUpdates/app/src/main/java/com/google/android/gms/location/sample/locationupdates/MainActivity.java:1090-1094 | the lines of two lists are the lines of the first followed by those of the second |
| EtaReport.EtaLinesIgnoreTimeLeft | LocationUpdates/app/src/main/java/com/google/android/gms/location/sample/locationupdates/MainActivity.java:1090-1094 | the lines of a stop do not depend on the stored minutes left |
| EtaReport.Blocks | LocationUpdates/app/src/main/java/com/google/android/gms/location/sample/locationupdates/MainActivity.java:1096-1098 | the block of each stop is its nameTc, a newline, and its arrival lines |
| EtaReport.Block | LocationUpdates/app/src/main/java/com/google/android/gms/location/sample/locationupdates/MainActivity.java:1096-1098 | one stop's block: its nameTc, a newline, then each arrival line followed by a newline |
| EtaReport.Cumulative | LocationUpdates/app/src/main/java/com/google/android/gms/location/sample/locationupdates/MainActivity.java:1062-1103 | one text per stop, as many as there are blocks; stated by `CumulativeStep`, `CumulativeIsConcat` and `CumulativePrefix` |
| EtaReport.CumulativeStep | LocationUpdates/app/src/main/java/com/google/android/gms/location/sample/locationupdates/MainActivity.java:1096-1103 | each stop's text is the previous stop's text followed by its own block |
| EtaReport.CumulativeNext | LocationUpdates/app/src/main/java/com/google/android/gms/location/sample/locationupdates/MainActivity.java:1096-1103 | one more stop appends its block to the text shown so far |
| EtaReport.CumulativeIsConcat | LocationUpdates/app/src/main/java/com/google/android/gms/location/sample/locationupdates/MainActivity.java:1062-1103 | the text shown for stop i is the concatenation of the blocks of stops 0..i |
| EtaReport.CumulativePrefix | LocationUpdates/app/src/main/java/com/google/android/gms/location/sample/locationupdates/MainActivity.java:1062-1103 | each stop's text is a prefix of every later stop's text |
| EtaReport.AppendEtaLine | LocationUpdates/app/src/main/java/com/google/android/gms/location/sample/locationupdates/MainActivity.java:1090-1094 | one inner iteration appends the arrival line and a newline, and that arrival then holds its stored minutes left |
| EtaReport.StopEtaLines | LocationUpdates/app/src/main/java/com/google/android/gms/location/sample/locationupdates/MainActivity.java:1088-1094 | the inner loop builds a stop's arrival lines from the fields the arrivals had before |
| EtaReport.ShowStop | LocationUpdates/app/src/main/java/com/google/android/gms/location/sample/locationupdates/MainActivity.java:1087-1103 | one outer iteration appends the stop's block to `etaString` and shows the result |
| EtaReport.ShowStops | LocationUpdates/app/src/main/java/com/google/android/gms/location/sample/locationupdates/MainActivity.java:1066-1105 | the texts shown are the cumulative blocks, and one list too few throws `IndexOutOfBoundsException` |
| EtaReport.OutputEtaData | LocationUpdates/app/src/main/java/com/google/android/gms/location/sample/locationupdates/MainActivity.java:1055-1109 | the texts shown are the cumulative blocks of the stops' names and arrival lines as they were before the call; each arrival in the lists of the stops shown afterwards holds its minutes left; every arrival outside those lists is unchanged |
| Activity.DownloadTargets | LocationUpdates/app/src/main/java/com/google/android/gms/location/sample/locationupdates/MainActivity.java:450-529 | the catalog downloads straight to the file it is read from, so its temp path is never written; each stop's feed downloads to its temp file, promoted to the file read later; distinct stops use distinct files |
| Activity.EtaDownload | LocationUpdates/app/src/main/java/com/google/android/gms/location/sample/locationupdates/MainActivity.java:511-524 | the request for one stop's feed: the ETA URL plus its ID, titled "<id> Stop ETA", downloaded to its temp file and promoted to its feed file; stated by `DownloadTargets` |
| Activity.CatalogPollIsWrites | LocationUpdates/app/src/main/java/com/google/android/gms/location/sample/locationupdates/MainActivity.java:453-454 | polling the catalog download never promotes anything: the files are what the DownloadManager wrote |
| Activity.CatalogNearest | LocationUpdates/app/src/main/java/com/google/android/gms/location/sample/locationupdates/MainActivity.java:459-482 | the stops the catalog reading keeps: the nearest ones, or none when the feed or a record throws; stated by `ReadStopCatalog`, `Nearest` and `NearestAreNearest` |
| Activity.StopEtaList | LocationUpdates/app/src/main/java/com/google/android/gms/location/sample/locationupdates/MainActivity.java:551-557 | one stop's arrivals read from its feed file, or the exception thrown; stated by `StopEtaListSucceeds` |
| Activity.StopEtaListSucceeds | LocationUpdates/app/src/main/java/com/google/android/gms/location/sample/locationupdates/MainActivity.java:551-557 | a stop's arrivals are read exactly when its feed file exists, parses, and every record has all keys; the list then has one entry per record, in order |
| Activity.EtaLists | LocationUpdates/app/src/main/java/com/google/android/gms/location/sample/locationupdates/MainActivity.java:548-560 | when every stop's feed is read, there is one arrival list per nearest stop |
| Activity.EtaListsNext | LocationUpdates/app/src/main/java/com/google/android/gms/location/sample/locationupdates/MainActivity.java:548-560 | one more stop appends its list, or stops with its error |
| Activity.EtaListsSucceed | LocationUpdates/app/src/main/java/com/google/android/gms/location/sample/locationupdates/MainActivity.java:548-560 | on success, list i is exactly the arrivals read from the feed of stop i |
| Activity.EtaListsFailed | LocationUpdates/app/src/main/java/com/google/android/gms/location/sample/locationupdates/MainActivity.java:548-560 | after a stop fails, later stops change nothing: the first error is the one thrown |
| Activity.ReadStopEtas | LocationUpdates/app/src/main/java/com/google/android/gms/location/sample/locationupdates/MainActivity.java:551-557 | one iteration of the read loop: fresh `StopEta` objects with the arrivals of the stop's feed, or the exception the read throws |
| Activity.ChooseNearest | LocationUpdates/app/src/main/java/com/google/android/gms/location/sample/locationupdates/MainActivity.java:471-472 | sorting and truncating the decoded stops keeps exactly the nearest stops' fields, objects from the input, and their labels |
| Activity.NearestOfSorted | LocationUpdates/app/src/main/java/com/google/android/gms/location/sample/locationupdates/MainActivity.java:471-472 | the first kept entries of the sorted objects have the fields of the nearest stops |
| Activity.ReadEtaArrays | LocationUpdates/app/src/main/java/com/google/android/gms/location/sample/locationupdates/MainActivity.java:548-560 | the read loop yields one list of fresh arrivals per stop ID, with the arrivals of each stop's feed, or the first exception in stop order |
| Activity.EtaListsAfter | LocationUpdates/app/src/main/java/com/google/android/gms/location/sample/locationupdates/MainActivity.java:548-560 | the read loop's step: the next stop extends the lists read so far or ends the whole read with its error |
| Activity.ShowEtas | LocationUpdates/app/src/main/java/com/google/android/gms/location/sample/locationupdates/MainActivity.java:571 | output of the arrival lists read: the cumulative blocks of the stops' names and arrival lines, and every arrival afterwards holds its old fields with the minutes left stored |
| Activity.MainActivity.constructor | LocationUpdates/app/src/main/java/com/google/android/gms/location/sample/locationupdates/MainActivity.java:225 | the activity starts with no location, no nearest stops, and the given download directory |
| Activity.MainActivity.RemoveTmpFile | LocationUpdates/app/src/main/java/com/google/android/gms/location/sample/locationupdates/MainActivity.java:905-919 | the directory afterwards is the promotion of the temp file to the canonical file |
| Activity.MainActivity.Tick | LocationUpdates/app/src/main/java/com/google/android/gms/location/sample/locationupdates/MainActivity.java:867-901 | a tick that finds a row promotes whatever the status; it cancels exactly when the status is successful; without a row nothing happens |
| Activity.MainActivity.CheckDownloadStatus | LocationUpdates/app/src/main/java/com/google/android/gms/location/sample/locationupdates/MainActivity.java:859-903 | the timer leaves the files and runs the ticks `PollRun` describes, ending at the first successful tick |
| Activity.MainActivity.EtaDownloads | LocationUpdates/app/src/main/java/com/google/android/gms/location/sample/locationupdates/MainActivity.java:511-524 | one download per nearest stop, in their order, from the ETA URL plus the stop ID to that stop's temp file, promoted to its feed file |
| Activity.MainActivity.DeleteBusStopJson | LocationUpdates/app/src/main/java/com/google/android/gms/location/sample/locationupdates/MainActivity.java:412-425 | removes the catalog file and shows whether it existed; nothing else changes |
| Activity.MainActivity.DeleteStopEtaJson | LocationUpdates/app/src/main/java/com/google/android/gms/location/sample/locationupdates/MainActivity.java:428-447 | removes exactly the files directly in "eta", leaves every other file as it was, and shows "not found" when there was no folder, "deleted" when the folder is gone, and the old text otherwise |
| Activity.MainActivity.ReadStopCatalog | LocationUpdates/app/src/main/java/com/google/android/gms/location/sample/locationupdates/MainActivity.java:459-482 | `closestStop` ends up holding fresh stops with the fields of the 20 nearest catalog stops in order (all of them when fewer), or none when reading or decoding the catalog throws before output; the labels are each kept stop's `toString` |
| Activity.MainActivity.ReadEtaFeeds | LocationUpdates/app/src/main/java/com/google/android/gms/location/sample/locationupdates/MainActivity.java:543-579 | reads every nearest stop's feed in order; the first exception is thrown; otherwise the texts shown are the cumulative blocks of the stops' names and arrival lines |

## Left out

- Location provider, permissions, settings, Snackbar and activity lifecycle: platform plumbing. The current location is the `currentLocation` field, supplied by the caller.
- DownloadManager enqueue and query, and cursor column reads: foreign calls. A download request is returned as an `Activity.Download` value, and each tick receives its row and the bytes written as a `Polling.Sample`.
- Timer threads, `runOnUiThread`, the 10 ms period and the shared `downloadReference` field: concurrency. The poller is a sequential run of ticks over the given samples, one download at a time.
- The progress percentage `downloadedBytes * 100f / totalBytes` and the progress text: float arithmetic shown only on screen.
- Exact float behaviour of `Float.parseFloat`, `Math.pow`, `Math.sqrt` and `Double.valueOf`: the model uses reals. The distance is stored as its square rather than as the decimal `String` the code stores and parses back.
- `BusStops.BusStop.SetDistance`: takes the squared distance as a real, not the decimal text of the distance.
- Catalog records that already have a `distance` key: `JSONObject.accumulate` would turn the value into an array. The model stores the computed distance; for such a record it differs from the code.
- JSON text parsing (org.json), `convertStreamToString`, and the file stream: a library and I/O. They are the `parseFeed` parameter. The `generated_timestamp` and its display through `DateUtil.returnDatetimeString` are not modelled.
- `SimpleDateFormat` and `DateUtil.returnTimeString`: platform parameters (`Platform.parseEta`, `Platform.timeString`). `DateUtil` is not part of this model.
- The getters of `BusStop` and `StopEta`: plain field reads, which the model reads directly.
- All `TextView`, `ProgressBar` and `RelativeLayout` creation and id wiring. The texts and labels the code would show are returned as results.
- `System.out` and `printStackTrace` diagnostics, and the catch blocks that only print.
- The `JSON_SUFFIX` constant: the code never uses it.
- Empty directories: a folder exists in the model exactly when some file lies in it.
  - An existing but empty "eta" folder reads as "Stop ETA JSON not found." where the app would delete the folder.
  - `Files.DownloadDir.DeleteFolder` succeeds exactly when no file is left under the folder.
- StopEtas.StopEta.constructor: the Java fields start as null, the model's strings as empty and `etaTimeLeft` as absent. `new StopEta().toString()` would throw a NullPointerException from `dateFormat.parse(null)`, which its `catch (ParseException)` does not catch; the model renders a line. The pipeline never shows the difference, because `createEtaArray` calls every setter before use.
- BusStops.BusStop.constructor: the Java fields start as null, the model's as empty strings and distance 0. `new BusStop().toString()` would throw a NullPointerException from `Double.valueOf(null)`; the model renders a label. The pipeline never shows the difference, because `createDistanceArray` calls every setter before use.
- EtaReport.OutputEtaData: one clock reading (the `Platform` value) stands for the whole output. Java reads `new Date()` inside every `getEtaTimeLeft`, so lines rendered on either side of a minute boundary can show different minutes. An arrival rendered twice can also store two different values. The model does not capture this.
- Activity.ShowEtas: takes one clock reading for every line, as `EtaReport.OutputEtaData` does.
- Activity.MainActivity.ReadEtaFeeds: takes one clock reading for every line, as `EtaReport.OutputEtaData` does.
- `deleteStopEtaJsonButtonHandler` on sub-folders of "eta": `dir.list()` also names sub-folders, and `delete` removes only empty ones. The model lists and deletes files only.
- `startDownloadEtaJSONButtonHandler`: modelled as `Activity.MainActivity.EtaDownloads`, the requests it makes, plus `CheckDownloadStatus` for each one's poll. Its per-stop catch has nothing to catch in the model, because `closestStop.get(i)` stays in range.
