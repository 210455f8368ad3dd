# nyt_xword_downloader, modelled in Dafny

The downloader fetches the New York Times crossword as PDF files, one per
date over a date range. The model covers its two logic files:

- `src/date_utils.rs`, the calendar side:
  - the forward-only `DateIter` over a half-open range of dates, with its optional Sunday skipping;
  - the three-letter month abbreviations;
  - the `2011-04-01` lower bound that `parse_date` enforces;
  - the New York UTC offset that `get_current_ny_offset` derives from the current instant.
- `src/fetch.rs`, the pipeline:
  - finding the `NYT-S` token cookie in four browsers' cookie stores;
  - the request URL and the destination path of a date's puzzle;
  - accepting a body only when it starts with the PDF signature `%PDF-` (section 7.5.2 of ISO 32000-1:2008), and otherwise logging a preview of at most 255 bytes;
  - the `execute` loop, which checks the range and then fetches date after date until the first date later than today.

Files:

- `wrappers.dfy`: `Option` and `Result`.
- `calendar.dfy`: the proleptic-Gregorian dates of the `time` crate.
  - It gives a day number to each date, with 0001-01-01 as day 0, a Monday.
  - It proves that the date order, `next_day` and the weekday all agree with that count.
- `decimal.dfy`: decimal text.
  - It covers `to_string`, the zero-padded `{:02}` form, and the value of a string of digits.
- `date_utils.dfy`: the model of `src/date_utils.rs`.
  - `DateUtils.DateIter` is a class whose methods update its `next` field.
  - The dates it still yields are the function `Emitted`.
- `fetch.dfy`: the model of `src/fetch.rs`.
  - `Fetch.Execute` and `Fetch.DrainIter` are methods over a real `DateIter`.
  - They are proved equal to the specification function `Fetch.Run`, and the lemmas about `Run` state what a run does.

The program's inputs are made parameters:

- the clock: the current UTC date `today`, the current Unix time `now` in whole seconds, and the instant given to the offset computation;
- each browser's cookie store, or `None` when reading it failed;
- the body the server sends for each request, as a function from request to bytes.

Rust's `%` on `i32` truncates toward zero, which `Fetch.RemTrunc` writes out. `{:02}` counts a minus sign toward the width, which `Decimal.Formatted` writes out.

## Model

| member | source | states |
|---|---|---|
| Calendar.NextDay | src/date_utils.rs:43-46 | `next_day` returns a valid later date whose day number is one higher. It returns `None` exactly for the last representable date, 9999-12-31. |
| Calendar.BeforeIffDayNumber | src/date_utils.rs:38 | The derived (year, month, day) order of dates is the order of their day numbers. Equal day numbers mean equal dates. |
| Calendar.NextDayWeekday | src/date_utils.rs:48-50 | The weekday advances by one each day. The day after a Sunday is never a Sunday, so the skipping loop steps at most twice. |
| Decimal.Digits | src/fetch.rs:98 | `to_string` of a non-negative number is a string of digits with no leading zero, and its value is the number. |
| Decimal.Formatted | src/fetch.rs:99 | `{:0w}` gives at least `w` characters. For a non-negative number they are digits whose value is the number. For a negative number they are a minus sign followed by the digits of its magnitude. The result is exactly `w` characters long, unless the number is too wide for that. Then it is the number's plain decimal form, with no padding (`"-"` followed by the digits for a negative number). |
| Decimal.FormattedFits | src/fetch.rs:106 | A number below 10^w, padded to width w, gives exactly w digits. |
| Decimal.FormattedInjective | src/fetch.rs:98-99 | Distinct numbers never format alike at the same width. |
| Decimal.FormattedValue | src/date_utils.rs:76 | Formatting the value of a fixed-width digit field, to that width, gives the field back. |
| DateUtils.Advance | src/date_utils.rs:42-53 | The pending date after `d` is one or two days later. When skipping, it is not a Sunday. It is `None` only at the end of the calendar. |
| DateUtils.Emitted | src/date_utils.rs:36-55 | Every date the iterator still yields is valid and before `end`. The first date yielded is the pending date, and the first is the smallest. |
| DateUtils.NonSundays | src/date_utils.rs:48-50 | It keeps exactly the dates of `s` that are not Sundays. |
| DateUtils.NonSundaysCount | src/date_utils.rs:48-50 | Filtering drops exactly one date per Sunday: the result is as long as `s` less the number of Sundays in it (`SundayCount`). |
| DateUtils.EmittedIncreasing | src/date_utils.rs:36-55 | The yielded dates strictly increase. |
| DateUtils.EmittedBound | src/date_utils.rs:42-53 | Termination: the iterator yields at most as many dates as there are days from the pending date to `end`. |
| DateUtils.EmittedConsecutive | src/date_utils.rs:36-55 | Without skipping, the iterator yields exactly start, start+1, …, end−1, each the `next_day` of the one before, and nothing when start ≥ end. |
| DateUtils.EmittedSkipping | src/date_utils.rs:48-50 | With skipping and a non-Sunday pending date, the iterator yields exactly the non-Sunday dates of the unskipped enumeration. |
| DateUtils.SkippedStart | src/date_utils.rs:24-28 | `skip_sunday` always leaves a pending date, equal to the start or one day later. It is never a Sunday when the range is non-empty, and it is the start itself when the range is empty. |
| DateUtils.SkipSundayFromStart | src/date_utils.rs:24-30 | `new(start, end)` followed by `skip_sunday()` yields exactly the non-Sunday dates of [start, end), in order. |
| DateUtils.YearEnumeration | src/date_utils.rs:147-158 | Over a whole year without skipping (the test uses 2001), the iterator yields the year's days from January 1 to December 31, one per day of the year, each the `next_day` of the one before. |
| DateUtils.SundayTestAsWritten | src/date_utils.rs:161-175 | The iterator that this test builds without skipping yields Sunday 1970-01-04 as its fourth date. |
| DateUtils.SundayTestCorrected | src/date_utils.rs:161-175 | With skipping, the same range yields the non-Sunday dates, and the first four are 1970-01-01, 02, 03 and 05. |
| DateUtils.DateIter.constructor | src/date_utils.rs:17-23 | `new` stores `start` as the pending date and `end` as the bound, with skipping off. It will yield [start, end) day by day. |
| DateUtils.DateIter.SkipSunday | src/date_utils.rs:24-30 | A pending Sunday is stepped past by one `next` while the flag is still off, then the flag is set. `end` does not change. |
| DateUtils.DateIter.Next | src/date_utils.rs:36-55 | It returns the first pending date and drops it from the pending dates. Once nothing is pending, it returns `None`, leaves the state alone, and returns `None` on every later call. |
| DateUtils.MonthStr | src/date_utils.rs:58-73 | Each abbreviation is exactly 3 characters: the first three letters of the month's English name. |
| DateUtils.MonthStrInjective | src/date_utils.rs:58-73 | Distinct months have distinct abbreviations. |
| DateUtils.ParseIsoDate | src/date_utils.rs:76 | A successful parse gives a valid date that prints back as exactly the input. Every failure is `InvalidFormat`. |
| DateUtils.IsoFormat | src/date_utils.rs:76-80 | The `[year]-[month]-[day]` format. DateUtils.ParseDateOfFormat proves that parsing it gives the date back, and DateUtils.ParseDate's contract proves that every accepted string is this format of its date. |
| DateUtils.ParseDate | src/date_utils.rs:75-86 | An accepted date is valid, not before 2011-04-01, and prints back as the input. A date before 2011-04-01 is refused. |
| DateUtils.ParseDateOfFormat | src/date_utils.rs:75-86 | Parsing a printed date gives the date unchanged on or after 2011-04-01, and the too-early error before it. |
| DateUtils.ParseDateTooEarly | src/date_utils.rs:77-84 | `2011-03-31` is refused as too early. |
| DateUtils.ParseDateEarliest | src/date_utils.rs:77-85 | `2011-04-01` is accepted unchanged. |
| DateUtils.FirstSunday | src/date_utils.rs:129-132 | The first Sunday of a month falls on day 1 to 7. |
| DateUtils.FirstSundayIsFirst | src/date_utils.rs:129-132 | The day the November walk stops at is a Sunday, and no earlier day of the month is. |
| DateUtils.SecondSundayIsSecond | src/date_utils.rs:111-121 | The March walk stops on day 8 to 14. That day is a Sunday, and exactly one Sunday of the month comes before it. |
| DateUtils.MarchBoundary | src/date_utils.rs:111-121 | The instant `march_offset` compares against is a Sunday, day 8 to 14 of March of the same year, at the same time of day. |
| DateUtils.NovemberBoundary | src/date_utils.rs:129-132 | The instant `november_offset` compares against is a Sunday, day 1 to 7 of November of the same year, at the same time of day. |
| DateUtils.MarchOffset | src/date_utils.rs:110-127 | The loop counts Sundays from the 1st and stops on the second one. The result is −5 when the instant is later than that Sunday at the same time of day, and −4 otherwise. |
| DateUtils.NovemberOffset | src/date_utils.rs:128-138 | The loop walks from the 1st to the first Sunday. The result is −5 when the instant is earlier than that Sunday at the same time of day, and −4 otherwise. |
| DateUtils.CurrentNyOffset | src/date_utils.rs:88-108 | March and November use the two walks. December to February give −5, and April to October give −4. |
| DateUtils.NyOffsetHours | src/date_utils.rs:91-106 | The offset is −5 or −4. DateUtils.NyOffsetByDate gives it month by month, and DateUtils.CurrentNyOffset is proved equal to it. |
| DateUtils.NyOffsetByDate | src/date_utils.rs:91-106 | The offset is always −5 or −4, and the month rules above hold. In March and November the time of day does not matter. |
| DateUtils.UsEasternOffsetHours | src/date_utils.rs:110-138 | The corrected offset is −4 exactly on the days of daylight time (second Sunday of March up to the first Sunday of November) and −5 otherwise. |
| DateUtils.NyOffsetInverted | src/date_utils.rs:122-137 | In March and November, on every day except the second Sunday of March, the code's offset is the opposite of the daylight rule's. |
| DateUtils.NyOffsetInvertedExamples | src/date_utils.rs:122-137 | At noon UTC on 2024-03-01 the code gives −4 and the rule gives −5. On 2024-11-01 the code gives −5 and the rule gives −4. |
| Fetch.ScanCookies | src/fetch.rs:72-92 | The result is `None` exactly when no cookie's name contains `NYT-S` with an expiry that is absent or later than now. Otherwise it is the value of the first such cookie. |
| Fetch.Usable | src/fetch.rs:74-86 | A cookie is usable when its name contains `NYT-S` and its expiry, if any, is later than now. Fetch.UsableExpiry states its consequences. |
| Fetch.StoreMatch | src/fetch.rs:48-50 | A store that could not be read gives no match. Otherwise the match is its first usable cookie, as Fetch.ScanCookies states. |
| Fetch.UsableExpiry | src/fetch.rs:75-86 | A cookie expiring at or before now is never chosen. A cookie without an expiry is chosen exactly when its name matches. |
| Fetch.FirstStoreMatch | src/fetch.rs:47-70 | The result is the match of the first store, in order, that has one. It is `None` only if every store failed or had no match. |
| Fetch.TryFindCookie | src/fetch.rs:47-70 | The stores are consulted in the order firefox, chrome, brave, safari. A store that failed or has no match is passed over. |
| Fetch.RemTrunc | src/fetch.rs:96 | Rust's `%`: `a` is a multiple of `b` plus the remainder. The remainder has the sign of the dividend and is smaller than the divisor in magnitude. |
| Fetch.CenturyRem | src/fetch.rs:96 | For the years 2000 to 3999, `year % 2000` is the year minus 2000. |
| Fetch.HasPdfSignature | src/fetch.rs:115 | A body is accepted exactly when it starts with the five bytes `%PDF-`. |
| Fetch.Preview | src/fetch.rs:122-123 | The preview is a prefix of the body: all of it, or its first 255 bytes. |
| Fetch.PuzzleUrl | src/fetch.rs:95-107 | The URL starts with the fixed prefix and ends in `.pdf`. Fetch.PuzzleUrlShape and Fetch.PuzzleUrlInjective give its fields and show distinct dates get distinct URLs. |
| Fetch.PuzzleRequest | src/fetch.rs:104-108 | A GET of the date's URL, with the cookie header `NYT-S=<token>`. Fetch.FetchPuzzleFor's contract states that every fetch sends it. |
| Fetch.PuzzlePath | src/fetch.rs:98-99 | The path is `dest` followed by three components: the year, the month and the day file. Fetch.PuzzlePathShape gives what each component holds. Fetch.PuzzlePathInjective shows distinct dates get distinct paths. |
| Fetch.PuzzlePathShape | src/fetch.rs:98-99 | For a valid date in a year from 0 on, the components after `dest` are: the decimal digits of the year; two digits whose value is the month; and a six-character file name of two digits whose value is the day, followed by `.pdf`. |
| Fetch.FetchPuzzleFor | src/fetch.rs:94-131 | The request is the puzzle URL with the cookie `NYT-S=<token>`. A body with the PDF signature is saved, unchanged, at `<dest>/<year>/<MM>/<DD>.pdf`. Any other body is rejected, with a preview of `min(len, 255)` bytes. |
| Fetch.PuzzleUrlShape | src/fetch.rs:95-107 | For 2000 to 2099, the URL is the fixed prefix, then the month abbreviation, two digits of day, two digits of `year % 2000`, and `.pdf`. |
| Fetch.PuzzleUrlInjective | src/fetch.rs:105-107 | For the years 2000 to 3999, distinct dates have distinct URLs. |
| Fetch.PuzzlePathInjective | src/fetch.rs:98-128 | Distinct dates are saved at distinct paths. |
| Fetch.PastPrefix | src/fetch.rs:32-36 | It counts the leading dates that are not after today. The date just past them, if any, is after today. |
| Fetch.PastPrefixAll | src/fetch.rs:32-36 | When no date is after today, all of them are past. |
| Fetch.PastPrefixAt | src/fetch.rs:32-36 | The past prefix ends at the first date after today. |
| Fetch.PlannedDates | src/fetch.rs:28-31 | The iterator's dates over [start, bound). Fetch.PlannedDatesFacts states their range, order and Sunday-freedom, and DateUtils.SkipSundayFromStart shows that with skipping they are the non-Sunday days. |
| Fetch.Drive | src/fetch.rs:32-44 | The loop as a value. Fetch.DriveFacts states what it fetches and where it stops, and Fetch.DrainIter is proved equal to it. |
| Fetch.FetchesAppend | src/fetch.rs:32-44 | Fetching two runs of dates one after the other gives the records of the first run followed by those of the second. `Fetch.FetchesSnoc`, the one-date step that the loop proofs use, follows from it. |
| Fetch.FetchesDates | src/fetch.rs:32-44 | The log has one record per date, and the i-th record is of the i-th date. |
| Fetch.DrainIter | src/fetch.rs:32-44 | The `for` loop draws dates from the iterator and fetches them up to the first date after today, where it stops. Its result equals `Drive` of the iterator's pending dates. |
| Fetch.Execute | src/fetch.rs:8-45 | `execute` equals `Run`. Both ends default to today, and the end is made inclusive with `next_day`. The range is checked before any token lookup, then the token is found, the iterator is built and the loop runs. |
| Fetch.Run | src/fetch.rs:8-45 | `execute` as a value. Fetch.Execute is proved equal to it. Fetch.RunStages, Fetch.RunLog and Fetch.RunAllPast state its exits and what it fetches. |
| Fetch.RunToken | src/fetch.rs:25-27 | The token given, or else the first match in the cookie stores. Fetch.TryFindCookie is proved equal to that lookup. |
| Fetch.PlannedDatesFacts | src/fetch.rs:28-31 | The iterator's dates lie in [start, bound), strictly increase, and include no Sunday when skipping. |
| Fetch.BeforeNextDay | src/fetch.rs:17 | A date is before `next_day(end)` exactly when it is not after `end`. |
| Fetch.DriveFacts | src/fetch.rs:32-44 | The loop fetches the dates in order, none after today. It completes exactly when all dates were fetched. Otherwise it halts at the next date, which is after today. |
| Fetch.RunStages | src/fetch.rs:15-27 | The run overflows exactly when the end is the last representable date. It rejects the range exactly when `next_day(end) < start`. It fails for lack of a token exactly when no token was given or found. None of these fetches anything. |
| Fetch.RunLog | src/fetch.rs:15-44 | Every fetched date lies in [start, end] and is not after today. The fetched dates strictly increase and include no Sunday when skipping. A run halted by a future date halts at a date within the range, after every fetched one. |
| Fetch.RunSavedPathsDistinct | src/fetch.rs:128-130 | No two saved puzzles of a run go to the same path. |
| Fetch.RunSavedPaths | src/fetch.rs:98-130 | Each puzzle a run saves goes to the path of its own date. |
| Fetch.RunAllPast | src/fetch.rs:15-44 | The range ends no later than today, and a token was given or found in a cookie store. Then the run completes after fetching every planned date, with or without skipping. |
| Fetch.DriveAllPast | src/fetch.rs:32-44 | When no planned date is after today, the loop fetches them all and completes. |
| Fetch.PlannedNotAfter | src/fetch.rs:17-36 | When the end is not after today, no planned date is after today. |
| Fetch.RunFetchesEveryDay | src/fetch.rs:15-44 | Without skipping, with a token given or found, and with an end not after today, the run completes and fetches every day of [start, end] in turn. When the end is the day before the start, this is nothing. |

## Left out

- HTTP through `reqwest`, the `.await`s and the one-second sleep between requests (src/fetch.rs:43, 103-114) are left out. The response body is an input function of the request. The `unwrap` panics on a failed request are not modelled.
- Filesystem effects are left out: creating the destination and month directories (src/fetch.rs:18-20, 100-102) and writing the file (src/fetch.rs:130). A saved puzzle is recorded as a `Saved(path, contents)` entry of the run's log. The panics these can raise, each of which ends the run, are not modelled either: `expect("create dest dir")` (src/fetch.rs:19), and the `unwrap`s of `create_dir_all` and `fs::write` (src/fetch.rs:101, 130).
- Reading the browsers' cookie stores through `rookie` (src/fetch.rs:48-63) is left out. Each store is an input `Option<seq<Cookie>>`, with `None` where reading failed.
- The clock reads (`now_utc`) are inputs, and `today` and `now` are independent parameters. The `from_unix_timestamp` panic for an out-of-range expiry is not modelled.
- `date_utils::today()` (src/date_utils.rs:9-14) is not used by the pipeline, so it is not modelled. Nothing else in the model consumes the New York offset.
- The messages written to standard error and standard output, including the "token expires in" line, are left out. So is the `from_utf8_lossy` decoding of the preview: the preview is kept as bytes.
- The two `std::process::exit(1)` calls of `execute` are modelled as the outcomes `InvalidRange` and `FuturePuzzle`. Two of its `expect` panics are modelled as outcomes too: `expect("the future")` (src/fetch.rs:17) as `EndOverflow`, and `expect("could not find token")` (src/fetch.rs:27) as `NoToken`.
- src/args.rs (argument parsing and the working-directory default for the destination) and src/main.rs (wiring) are not part of this model.
- DateUtils.ParseIsoDate: only the plain `YYYY-MM-DD` form with an unsigned four-digit year is modelled. Other spellings the `time` crate's parser may accept, such as a signed year, and its error messages are not.
- DateUtils.MarchOffset: instants are whole seconds of a UTC day. The sub-second part of `OffsetDateTime` is not modelled, and neither is the crate's range limit on instants. The same holds for DateUtils.NovemberOffset and DateUtils.CurrentNyOffset.
- Fetch.ScanCookies: `now` is the current time rounded down to a whole second. For whole-second expiries this gives the same comparison as the source's full-precision one.
- Fetch.PuzzleUrlInjective is stated only for the years 2000 to 3999. Outside that range, `year % 2000` makes dates 2000 years apart share a URL.
- DateUtils.UsEasternOffsetHours switches at the start of the boundary day. It does not switch at 2 a.m. local time as the daylight rule does, because the source compares at the same time of day as the instant.
- The offset is meant to follow the US daylight-saving rule (section 260a of title 15 of the United States Code): daylight time from the second Sunday of March to the first Sunday of November. The code's comparisons are inverted (see Findings). The model follows the code in `CurrentNyOffset` and states the rule separately in `UsEasternOffsetHours`.

## Findings

| source | as written | input that shows it | evidently intended | confidence | as-written member | corrected member |
|---|---|---|---|---|---|---|
| src/date_utils.rs:122-126 | `march_offset` returns −4 up to the second Sunday of March and −5 after it | noon UTC on 2024-03-01 gives −4 | −5 before the second Sunday (standard time), −4 from it on (daylight time) | high; not executed | DateUtils.NyOffsetInvertedExamples | DateUtils.UsEasternOffsetHours |
| src/date_utils.rs:133-137 | `november_offset` returns −5 before the first Sunday of November and −4 from it on | noon UTC on 2024-11-01 gives −5 | −4 before the first Sunday (daylight time), −5 from it on | high; not executed | DateUtils.NyOffsetInverted | DateUtils.UsEasternOffsetHours |
| src/date_utils.rs:161-175 | the test builds its iterator with `skip_sunday: false` but expects Sundays to be skipped | its fourth date is Sunday 1970-01-04, where the test expects 1970-01-05 | the iterator built with Sunday skipping on | high; not executed | DateUtils.SundayTestAsWritten | DateUtils.SundayTestCorrected |
