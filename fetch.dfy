/**
 * The decision logic of `src/fetch.rs`: finding the `NYT-S` token in the
 * browsers' cookie stores, building the request and the destination path of
 * a date's puzzle, accepting a response body only when it is a PDF, and the
 * `execute` loop over a `DateIter` that halts at the first future date.
 *
 * The clock, the cookie stores and the web server are inputs: `today` is the
 * UTC date, `now` the current Unix time in whole seconds, each store the
 * cookies its browser gave (or `None` when reading it failed), and `server`
 * the body the server sends back for each request.
 */
module Fetch {
  import opened Wrappers
  import opened Calendar
  import opened Decimal
  import opened DateUtils

  type Byte = b: int | 0 <= b < 256

  // ---------------------------------------------------------------------------
  // scan_cookies, try_find_cookie
  // ---------------------------------------------------------------------------

  /** A browser cookie; `expires` is a Unix time in seconds. */
  datatype Cookie = Cookie(name: string, value: string, expires: Option<int>)

  /** What reading one browser's cookie store gave: `None` when it failed. */
  type CookieStore = Option<seq<Cookie>>

  /** The four stores `try_find_cookie` reads. */
  datatype CookieStores = CookieStores(firefox: CookieStore, chrome: CookieStore, brave: CookieStore, safari: CookieStore)

  /** The marker a token cookie's name contains. */
  const TokenMarker: string := "NYT-S"

  predicate Contains(s: string, part: string) {
    exists i | 0 <= i <= |s| :: part <= s[i..]
  }

  /**
   * The test `scan_cookies` applies: the name contains `NYT-S`, and the
   * expiry, if there is one, is later than `now`. (`now` is the current
   * time rounded down to a whole second; for a whole-second expiry that
   * rounding does not change the comparison.)
   */
  predicate Usable(c: Cookie, now: int) {
    Contains(c.name, TokenMarker) && (c.expires.None? || now < c.expires.value)
  }

  /** `scan_cookies`: the value of the first usable cookie, if any. */
  function ScanCookies(cookies: seq<Cookie>, now: int): (r: Option<string>)
    ensures r.None? <==> forall i | 0 <= i < |cookies| :: !Usable(cookies[i], now)
    ensures r.Some? ==> exists i | 0 <= i < |cookies| ::
      && Usable(cookies[i], now)
      && r.value == cookies[i].value
      && forall j | 0 <= j < i :: !Usable(cookies[j], now)
  {
    if cookies == [] then None
    else if Usable(cookies[0], now) then Some(cookies[0].value)
    else
      ScanCookies(cookies[1..], now)
  }

  /** An expired cookie is never chosen, and one without an expiry is always usable if its name matches. */
  lemma UsableExpiry(c: Cookie, now: int)
    ensures c.expires.Some? && c.expires.value <= now ==> !Usable(c, now)
    ensures c.expires.None? ==> (Usable(c, now) <==> Contains(c.name, TokenMarker))
    ensures ScanCookies([c], now).Some? <==> Usable(c, now)
  {
  }

  /** The match one store gives: none when reading it failed. */
  function StoreMatch(store: CookieStore, now: int): Option<string> {
    match store
    case None => None
    case Some(cookies) => ScanCookies(cookies, now)
  }

  /** The stores in the order `try_find_cookie` consults them. */
  function StoreOrder(stores: CookieStores): seq<CookieStore> {
    [stores.firefox, stores.chrome, stores.brave, stores.safari]
  }

  /** The match of the first store, in order, that has one. */
  function FirstStoreMatch(stores: seq<CookieStore>, now: int): (r: Option<string>)
    ensures r.None? <==> forall k | 0 <= k < |stores| :: StoreMatch(stores[k], now).None?
    ensures r.Some? ==> exists k | 0 <= k < |stores| ::
      && r == StoreMatch(stores[k], now)
      && forall j | 0 <= j < k :: StoreMatch(stores[j], now).None?
  {
    if stores == [] then None
    else if StoreMatch(stores[0], now).Some? then StoreMatch(stores[0], now)
    else
      FirstStoreMatch(stores[1..], now)
  }

  /**
   * `try_find_cookie`: firefox, chrome, brave, then safari; a store that
   * could not be read or has no usable cookie is passed over.
   */
  method TryFindCookie(stores: CookieStores, now: int) returns (r: Option<string>)
    ensures r == FirstStoreMatch(StoreOrder(stores), now)
  {
    ghost var order := StoreOrder(stores);
    if stores.firefox.Some? {
      var found := ScanCookies(stores.firefox.value, now);
      if found.Some? {
        return found;
      }
    }
    assert FirstStoreMatch(order, now) == FirstStoreMatch(order[1..], now);
    if stores.chrome.Some? {
      var found := ScanCookies(stores.chrome.value, now);
      if found.Some? {
        return found;
      }
    }
    assert FirstStoreMatch(order[1..], now) == FirstStoreMatch(order[2..], now);
    if stores.brave.Some? {
      var found := ScanCookies(stores.brave.value, now);
      if found.Some? {
        return found;
      }
    }
    assert FirstStoreMatch(order[2..], now) == FirstStoreMatch(order[3..], now);
    if stores.safari.Some? {
      var found := ScanCookies(stores.safari.value, now);
      if found.Some? {
        return found;
      }
    }
    assert FirstStoreMatch(order[3..], now) == FirstStoreMatch(order[4..], now);
    return None;
  }

  // ---------------------------------------------------------------------------
  // fetch_puzzle_for
  // ---------------------------------------------------------------------------

  const UrlPrefix: string := "https://www.nytimes.com/svc/crosswords/v2/puzzle/print/"

  /** Rust's `%` on a signed integer: the remainder has the sign of the dividend. */
  function RemTrunc(a: int, b: int): (r: int)
    requires b > 0
    ensures -b < r < b && (a >= 0 ==> 0 <= r) && (a < 0 ==> r <= 0)
    ensures exists q :: a == b * q + r
  {
    if a >= 0 then
      var q := a / b;
      assert a == b * q + a % b;
      a % b
    else
      var q := (-a) / b;
      assert -a == b * q + (-a) % b;
      assert a == b * -q + -((-a) % b);
      -((-a) % b)
  }

  /** The URL of a date's puzzle: month abbreviation, two-digit day, the year modulo 2000. */
  function PuzzleUrl(d: Date): (u: string)
    ensures UrlPrefix <= u && |u| >= 4 && u[|u| - 4..] == ".pdf"
  {
    UrlEnds(UrlPrefix, MonthStr(d.month), Formatted(d.day, 2), Formatted(RemTrunc(d.year, 2000), 2), ".pdf");
    UrlPrefix + MonthStr(d.month) + Formatted(d.day, 2) + Formatted(RemTrunc(d.year, 2000), 2) + ".pdf"
  }

  /** A string built as `p + m + d + y + z` starts with `p` and ends with `z`. */
  lemma UrlEnds(p: string, m: string, d: string, y: string, z: string)
    ensures p <= p + m + d + y + z
    ensures (p + m + d + y + z)[|p + m + d + y + z| - |z|..] == z
  {
    var u := p + m + d + y + z;
    assert u[..|p|] == p;
  }

  /** A GET request: its URL and its `cookie` header. */
  datatype Request = Request(url: string, cookie: string)

  function PuzzleRequest(d: Date, token: string): Request {
    Request(PuzzleUrl(d), "NYT-S=" + token)
  }

  /** A file-system path as its components. */
  type Path = seq<string>

  /** `<dest>/<year>/<month, two digits>/<day, two digits>.pdf`. */
  function PuzzlePath(dest: Path, d: Date): (p: Path)
    ensures |p| == |dest| + 3 && p[..|dest|] == dest
  {
    dest + [Formatted(d.year, 0), Formatted(d.month, 2), Formatted(d.day, 2) + ".pdf"]
  }

  /** The signature a PDF file starts with, `%PDF-`. */
  const PdfMagic: seq<Byte> := [0x25, 0x50, 0x44, 0x46, 0x2D]

  /** The payload check: a body shorter than five bytes, or not starting `%PDF-`, is rejected. */
  predicate HasPdfSignature(body: seq<Byte>)
    ensures HasPdfSignature(body) <==> PdfMagic <= body
  {
    !(|body| < 5 || body[..5] != PdfMagic)
  }

  function Min(a: int, b: int): int {
    if a < b then a else b
  }

  /** The part of a rejected body that is logged: its first 255 bytes at most. */
  function Preview(body: seq<Byte>): (p: seq<Byte>)
    ensures p <= body && |p| <= 255
    ensures |p| == 255 || p == body
  {
    body[..Min(|body|, 255)]
  }

  /** What happened to one date: the body saved at a path, or rejected with a preview logged. */
  datatype FetchResult = Saved(path: Path, contents: seq<Byte>) | Rejected(preview: seq<Byte>)

  datatype FetchRecord = FetchRecord(date: Date, request: Request, result: FetchResult)

  /** `fetch_puzzle_for`, given the body the server sent in answer to its request. */
  function FetchPuzzleFor(d: Date, dest: Path, token: string, body: seq<Byte>): (r: FetchRecord)
    ensures r.date == d && r.request == PuzzleRequest(d, token)
    ensures r.result.Saved? <==> PdfMagic <= body
    ensures r.result.Saved? ==> r.result.path == PuzzlePath(dest, d) && r.result.contents == body
    ensures r.result.Rejected? ==> r.result.preview <= body && |r.result.preview| == Min(|body|, 255)
  {
    var request := PuzzleRequest(d, token);
    if !HasPdfSignature(body) then FetchRecord(d, request, Rejected(Preview(body)))
    else FetchRecord(d, request, Saved(PuzzlePath(dest, d), body))
  }

  /** The request for `d` sent, and its answer handled. */
  function FetchOne(d: Date, dest: Path, token: string, server: Request -> seq<Byte>): FetchRecord {
    FetchPuzzleFor(d, dest, token, server(PuzzleRequest(d, token)))
  }

  /** The fields of a URL built as prefix, month, day, year and `.pdf`. */
  lemma UrlFields(url: string, prefix: string, month: string, day: string, year: string)
    requires url == prefix + month + day + year + ".pdf" && |month| == 3 && |day| == 2
    ensures var n := |prefix|;
      && |url| == n + 9 + |year|
      && url[..n] == prefix && url[n..n + 3] == month && url[n + 3..n + 5] == day
      && url[n + 5..|url| - 4] == year && url[|url| - 4..] == ".pdf"
  {
  }

  /**
   * For the years 2000–2099 the URL ends in exactly eleven characters: the
   * month abbreviation, two digits of day, two digits of year, `.pdf`.
   */
  lemma PuzzleUrlShape(d: Date)
    requires ValidDate(d) && 2000 <= d.year <= 2099
    ensures var url := PuzzleUrl(d); var n := |UrlPrefix|;
      && |url| == n + 11
      && url[..n] == UrlPrefix
      && url[n..n + 3] == MonthStr(d.month)
      && AllDigits(url[n + 3..n + 5]) && Value(url[n + 3..n + 5]) == d.day
      && AllDigits(url[n + 5..n + 7]) && Value(url[n + 5..n + 7]) == d.year - 2000
      && url[n + 7..] == ".pdf"
  {
    CenturyRem(d.year);
    var day, year := Formatted(d.day, 2), Formatted(d.year - 2000, 2);
    FormattedFits(d.day, 2);
    FormattedFits(d.year - 2000, 2);
    UrlFields(PuzzleUrl(d), UrlPrefix, MonthStr(d.month), day, year);
  }

  /** For the years 2000–3999, `year % 2000` is the year less 2000. */
  lemma CenturyRem(year: int)
    requires 2000 <= year <= 3999
    ensures RemTrunc(year, 2000) == year - 2000
  {
    var r := year - 2000;
    assert year == 1 * 2000 + r && 0 <= r < 2000;
  }

  /** Within the years 2000–3999 distinct dates have distinct URLs. */
  lemma PuzzleUrlInjective(a: Date, b: Date)
    requires ValidDate(a) && ValidDate(b)
    requires 2000 <= a.year <= 3999 && 2000 <= b.year <= 3999
    requires PuzzleUrl(a) == PuzzleUrl(b)
    ensures a == b
  {
    var ya, yb := RemTrunc(a.year, 2000), RemTrunc(b.year, 2000);
    CenturyRem(a.year);
    CenturyRem(b.year);
    FormattedFits(a.day, 2);
    FormattedFits(b.day, 2);
    UrlFields(PuzzleUrl(a), UrlPrefix, MonthStr(a.month), Formatted(a.day, 2), Formatted(ya, 2));
    UrlFields(PuzzleUrl(b), UrlPrefix, MonthStr(b.month), Formatted(b.day, 2), Formatted(yb, 2));
    MonthStrInjective(a.month, b.month);
    FormattedInjective(a.day, b.day, 2);
    FormattedInjective(ya, yb, 2);
  }

  /**
   * The path of a date's puzzle: `dest`, then the year as `to_string` prints
   * it, then the month as two digits, then the day as two digits and `.pdf`.
   */
  lemma PuzzlePathShape(dest: Path, d: Date)
    requires ValidDate(d) && 0 <= d.year
    ensures var p, n := PuzzlePath(dest, d), |dest|;
      && p[n] == Digits(d.year)
      && |p[n + 1]| == 2 && AllDigits(p[n + 1]) && Value(p[n + 1]) == d.month
      && |p[n + 2]| == 6 && AllDigits(p[n + 2][..2]) && Value(p[n + 2][..2]) == d.day
      && p[n + 2][2..] == ".pdf"
  {
    FormattedFits(d.month, 2);
    FormattedFits(d.day, 2);
    var day := Formatted(d.day, 2);
    assert (day + ".pdf")[..2] == day && (day + ".pdf")[2..] == ".pdf";
  }

  /** Distinct dates are saved at distinct paths. */
  lemma PuzzlePathInjective(dest: Path, a: Date, b: Date)
    requires PuzzlePath(dest, a) == PuzzlePath(dest, b)
    ensures a == b
  {
    PathFields(dest, Formatted(a.year, 0), Formatted(a.month, 2), Formatted(a.day, 2),
               Formatted(b.year, 0), Formatted(b.month, 2), Formatted(b.day, 2));
    FormattedInjective(a.year, b.year, 0);
    FormattedInjective(a.month, b.month, 2);
    FormattedInjective(a.day, b.day, 2);
  }

  /** Two paths of the shape `dest/y/m/d.pdf` that are equal have equal components. */
  lemma PathFields(dest: Path, y1: string, m1: string, d1: string, y2: string, m2: string, d2: string)
    requires dest + [y1, m1, d1 + ".pdf"] == dest + [y2, m2, d2 + ".pdf"]
    ensures y1 == y2 && m1 == m2 && d1 == d2
  {
    var n := |dest|;
    var p1, p2 := dest + [y1, m1, d1 + ".pdf"], dest + [y2, m2, d2 + ".pdf"];
    assert p1[n] == y1 && p1[n + 1] == m1 && p1[n + 2] == d1 + ".pdf";
    assert p2[n] == y2 && p2[n + 1] == m2 && p2[n + 2] == d2 + ".pdf";
    assert d1 == (d1 + ".pdf")[..|d1|];
    assert d2 == (d2 + ".pdf")[..|d2|];
  }

  // ---------------------------------------------------------------------------
  // execute
  // ---------------------------------------------------------------------------

  /** How a run ends. */
  datatype RunOutcome =
    | Completed            // the iterator ran dry
    | EndOverflow          // `next_day` of the end date failed (a panic)
    | InvalidRange         // the exclusive end is before the start (exit 1)
    | NoToken              // no token given and none found (a panic)
    | FuturePuzzle(date: Date)  // the iterator reached a date after today (exit 1)

  /** The dates the loop of `execute` draws from its iterator over [start, bound). */
  function PlannedDates(start: Date, bound: Date, skipSunday: bool): seq<Date>
    requires ValidDate(start) && ValidDate(bound)
  {
    if skipSunday then Emitted(SkippedStart(start, bound), bound, true)
    else Emitted(Some(start), bound, false)
  }

  /** How many of the leading dates of `dates` are not after `today`. */
  function PastPrefix(dates: seq<Date>, today: Date): (k: nat)
    ensures k <= |dates|
    ensures forall i | 0 <= i < k :: !Before(today, dates[i])
    ensures k < |dates| ==> Before(today, dates[k])
  {
    if dates == [] || Before(today, dates[0]) then 0
    else 1 + PastPrefix(dates[1..], today)
  }

  /** When no date is after `today`, the whole sequence is past. */
  lemma {:induction false} PastPrefixAll(dates: seq<Date>, today: Date)
    requires forall i | 0 <= i < |dates| :: !Before(today, dates[i])
    ensures PastPrefix(dates, today) == |dates|
  {
    if dates != [] {
      PastPrefixAll(dates[1..], today);
    }
  }

  /** The past prefix ends at the first date after `today`. */
  lemma {:induction false} PastPrefixAt(dates: seq<Date>, today: Date, k: nat)
    requires k < |dates| && Before(today, dates[k])
    requires forall i | 0 <= i < k :: !Before(today, dates[i])
    ensures PastPrefix(dates, today) == k
  {
    if k > 0 {
      PastPrefixAt(dates[1..], today, k - 1);
    }
  }

  /** The records of fetching `dates` in order. */
  function Fetches(dates: seq<Date>, dest: Path, token: string, server: Request -> seq<Byte>): (log: seq<FetchRecord>)
    ensures |log| == |dates|
    ensures forall i | 0 <= i < |dates| :: log[i] == FetchOne(dates[i], dest, token, server)
  {
    seq(|dates|, i requires 0 <= i < |dates| => FetchOne(dates[i], dest, token, server))
  }

  /** Fetching two runs of dates one after the other gives their records one after the other. */
  lemma FetchesAppend(a: seq<Date>, b: seq<Date>, dest: Path, token: string, server: Request -> seq<Byte>)
    ensures Fetches(a + b, dest, token, server) == Fetches(a, dest, token, server) + Fetches(b, dest, token, server)
  {
    var whole, left, right := Fetches(a + b, dest, token, server), Fetches(a, dest, token, server), Fetches(b, dest, token, server);
    forall i | 0 <= i < |whole|
      ensures whole[i] == (left + right)[i]
    {
      if i >= |a| {
        assert (a + b)[i] == b[i - |a|];
      }
    }
  }

  /** Fetching one more date appends its record. */
  lemma FetchesSnoc(dates: seq<Date>, n: nat, dest: Path, token: string, server: Request -> seq<Byte>)
    requires n < |dates|
    ensures Fetches(dates[..n + 1], dest, token, server)
         == Fetches(dates[..n], dest, token, server) + [FetchOne(dates[n], dest, token, server)]
  {
    assert dates[..n + 1] == dates[..n] + [dates[n]];
    FetchesAppend(dates[..n], [dates[n]], dest, token, server);
  }

  /** The inputs `execute` and the code it calls read. */
  predicate ValidInputs(start: Option<Date>, end: Option<Date>, today: Date) {
    ValidDate(today) && (start.Some? ==> ValidDate(start.value)) && (end.Some? ==> ValidDate(end.value))
  }

  /**
   * The `for` loop of `execute` over the dates its iterator yields, as a
   * value: the records of the dates up to the first one after `today`, and
   * whether the loop ran dry or stopped at that date.
   */
  function Drive(dates: seq<Date>, today: Date, dest: Path, token: string,
                 server: Request -> seq<Byte>): (RunOutcome, seq<FetchRecord>)
  {
    var k := PastPrefix(dates, today);
    (if k < |dates| then FuturePuzzle(dates[k]) else Completed, Fetches(dates[..k], dest, token, server))
  }

  /** The token a run uses: the one given, or else the first found in the cookie stores. */
  function RunToken(token: Option<string>, stores: CookieStores, now: int): Option<string> {
    if token.Some? then token else FirstStoreMatch(StoreOrder(stores), now)
  }

  /** What `execute` does, as a value: how it ends and the dates it fetched, in order. */
  function Run(start: Option<Date>, end: Option<Date>, token: Option<string>, skipSunday: bool,
               dest: Path, today: Date, now: int, stores: CookieStores,
               server: Request -> seq<Byte>): (RunOutcome, seq<FetchRecord>)
    requires ValidInputs(start, end, today)
  {
    var first := start.GetOr(today);
    var last := end.GetOr(today);
    if last == MaxDate then (EndOverflow, [])
    else
      var bound := NextDay(last).value;
      if Before(bound, first) then (InvalidRange, [])
      else
        var found := RunToken(token, stores, now);
        match found
        case None => (NoToken, [])
        case Some(tok) => Drive(PlannedDates(first, bound, skipSunday), today, dest, tok, server)
  }

  /** `log` holds the records of the leading dates, none of them after `today`. */
  ghost predicate FetchedSoFar(log: seq<FetchRecord>, dates: seq<Date>, today: Date, dest: Path, token: string,
                               server: Request -> seq<Byte>)
  {
    && |log| <= |dates|
    && (forall i | 0 <= i < |log| :: !Before(today, dates[i]))
    && log == Fetches(dates[..|log|], dest, token, server)
  }

  /** Fetching the next date, when it is not after `today`, keeps `FetchedSoFar`. */
  lemma FetchedStep(log: seq<FetchRecord>, dates: seq<Date>, today: Date, dest: Path, token: string,
                    server: Request -> seq<Byte>)
    requires FetchedSoFar(log, dates, today, dest, token, server)
    requires |log| < |dates| && !Before(today, dates[|log|])
    ensures FetchedSoFar(log + [FetchOne(dates[|log|], dest, token, server)], dates, today, dest, token, server)
  {
    var n := |log|;
    var next := log + [FetchOne(dates[n], dest, token, server)];
    FetchesSnoc(dates, n, dest, token, server);
    assert next == Fetches(dates[..n + 1], dest, token, server);
    assert forall i | 0 <= i < n + 1 :: !Before(today, dates[i]) by {
      assert forall i | 0 <= i < n :: !Before(today, dates[i]);
    }
  }

  /** The loop's two exits give what `Drive` says. */
  lemma FetchedExit(log: seq<FetchRecord>, dates: seq<Date>, today: Date, dest: Path, token: string,
                    server: Request -> seq<Byte>)
    requires FetchedSoFar(log, dates, today, dest, token, server)
    ensures |log| == |dates| ==> Drive(dates, today, dest, token, server) == (Completed, log)
    ensures |log| < |dates| && Before(today, dates[|log|]) ==>
      Drive(dates, today, dest, token, server) == (FuturePuzzle(dates[|log|]), log)
  {
    if |log| == |dates| {
      assert dates[..|log|] == dates;
      PastPrefixAll(dates, today);
    } else if Before(today, dates[|log|]) {
      PastPrefixAt(dates, today, |log|);
    }
  }

  /**
   * The loop of `execute`: draws dates from `iter` and fetches each, until
   * the iterator runs dry or yields a date after `today`.
   */
  method DrainIter(iter: DateIter, today: Date, dest: Path, token: string, server: Request -> seq<Byte>)
    returns (outcome: RunOutcome, log: seq<FetchRecord>)
    requires iter.Valid()
    modifies iter`next
    ensures (outcome, log) == Drive(old(iter.Pending()), today, dest, token, server)
  {
    ghost var dates := iter.Pending();
    log := [];
    while true
      invariant iter.Valid()
      invariant FetchedSoFar(log, dates, today, dest, token, server)
      invariant iter.Pending() == dates[|log|..]
      decreases |iter.Pending()|
    {
      var item := iter.Next();
      FetchedExit(log, dates, today, dest, token, server);
      if item.None? {
        return Completed, log;
      }
      var date := item.value;
      if Before(today, date) {
        return FuturePuzzle(date), log;
      }
      var body := server(PuzzleRequest(date, token));
      FetchedStep(log, dates, today, dest, token, server);
      log := log + [FetchPuzzleFor(date, dest, token, body)];
    }
  }

  /**
   * `execute`: defaults both ends to today, makes the end inclusive by
   * taking its `next_day`, refuses a range whose exclusive end is before
   * its start, finds a token, then fetches the iterator's dates one by one
   * and stops the whole run at the first date after today.
   */
  method Execute(start: Option<Date>, end: Option<Date>, token: Option<string>, skipSunday: bool,
                 dest: Path, today: Date, now: int, stores: CookieStores,
                 server: Request -> seq<Byte>)
    returns (outcome: RunOutcome, log: seq<FetchRecord>)
    requires ValidInputs(start, end, today)
    ensures (outcome, log) == Run(start, end, token, skipSunday, dest, today, now, stores, server)
  {
    var first := start.GetOr(today);
    var bound := NextDay(end.GetOr(today));
    if bound.None? {
      return EndOverflow, [];
    }
    if Before(bound.value, first) {
      return InvalidRange, [];
    }
    var found := token;
    if found.None? {
      found := TryFindCookie(stores, now);
    }
    if found.None? {
      return NoToken, [];
    }
    var iter := new DateIter(first, bound.value);
    if skipSunday {
      iter.SkipSunday();
    }
    assert iter.Pending() == PlannedDates(first, bound.value, skipSunday);
    outcome, log := DrainIter(iter, today, dest, found.value, server);
  }

  // ---------------------------------------------------------------------------
  // Properties of a run
  // ---------------------------------------------------------------------------

  /**
   * The planned dates lie in [start, bound), strictly increase, and are
   * free of Sundays when skipping.
   */
  lemma PlannedDatesFacts(start: Date, bound: Date, skipSunday: bool)
    requires ValidDate(start) && ValidDate(bound)
    ensures var s := PlannedDates(start, bound, skipSunday);
      && (forall i | 0 <= i < |s| :: ValidDate(s[i]) && !Before(s[i], start) && Before(s[i], bound))
      && (forall i, j | 0 <= i < j < |s| :: Before(s[i], s[j]))
      && (skipSunday ==> forall i | 0 <= i < |s| :: !IsSunday(s[i]))
  {
    var s := PlannedDates(start, bound, skipSunday);
    var plain := Emitted(Some(start), bound, false);
    var next := if skipSunday then SkippedStart(start, bound) else Some(start);
    assert s == Emitted(next, bound, skipSunday);
    EmittedIncreasing(next, bound, skipSunday);
    if skipSunday {
      SkipSundayFromStart(start, bound);
    }
    forall i | 0 <= i < |s|
      ensures !Before(s[i], start)
    {
      assert s[i] in plain;
      var j :| 0 <= j < |plain| && plain[j] == s[i];
      BeforeIffDayNumber(s[i], start);
    }
  }

  /** `x < next_day(last)` means `x <= last`. */
  lemma BeforeNextDay(x: Date, last: Date)
    requires ValidDate(x) && ValidDate(last) && last != MaxDate
    ensures Before(x, NextDay(last).value) <==> !Before(last, x)
  {
    BeforeIffDayNumber(x, NextDay(last).value);
    BeforeIffDayNumber(last, x);
  }

  /**
   * The loop fetches the dates in order up to the first one after today,
   * and halts there or when the dates run out.
   */
  lemma DriveFacts(dates: seq<Date>, today: Date, dest: Path, token: string, server: Request -> seq<Byte>)
    ensures var (outcome, log) := Drive(dates, today, dest, token, server);
      && |log| <= |dates|
      && (forall i | 0 <= i < |log| :: log[i].date == dates[i] && !Before(today, dates[i]))
      && (outcome.Completed? || outcome.FuturePuzzle?)
      && (outcome.Completed? <==> |log| == |dates|)
      && (outcome.FuturePuzzle? ==> outcome.date == dates[|log|] && Before(today, outcome.date))
  {
  }

  /** The run's outcome before the loop, and its loop over the planned dates after. */
  lemma RunStages(start: Option<Date>, end: Option<Date>, token: Option<string>, skipSunday: bool,
                  dest: Path, today: Date, now: int, stores: CookieStores, server: Request -> seq<Byte>)
    requires ValidInputs(start, end, today)
    ensures var r := Run(start, end, token, skipSunday, dest, today, now, stores, server);
      var first, last := start.GetOr(today), end.GetOr(today);
      var found := RunToken(token, stores, now);
      && (r.0 == EndOverflow <==> last == MaxDate)
      && (r.0 == InvalidRange <==> last != MaxDate && Before(NextDay(last).value, first))
      && (r.0 == NoToken <==> last != MaxDate && !Before(NextDay(last).value, first) && found.None?)
      && (r.0 in {EndOverflow, InvalidRange, NoToken} ==> r.1 == [])
      && (last != MaxDate && !Before(NextDay(last).value, first) && found.Some? ==>
            r == Drive(PlannedDates(first, NextDay(last).value, skipSunday), today, dest, found.value, server))
  {
    var first, last := start.GetOr(today), end.GetOr(today);
    if last != MaxDate && !Before(NextDay(last).value, first) {
      var found := RunToken(token, stores, now);
      if found.Some? {
        DriveFacts(PlannedDates(first, NextDay(last).value, skipSunday), today, dest, found.value, server);
      }
    }
  }

  /** The loop keeps what holds of every planned date, and its order. */
  lemma DriveWithin(dates: seq<Date>, first: Date, last: Date, skipSunday: bool,
                    today: Date, dest: Path, token: string, server: Request -> seq<Byte>)
    requires forall i | 0 <= i < |dates| :: !Before(dates[i], first) && !Before(last, dates[i])
    requires forall i, j | 0 <= i < j < |dates| :: Before(dates[i], dates[j])
    requires skipSunday ==> forall i | 0 <= i < |dates| :: !IsSunday(dates[i])
    ensures var (outcome, log) := Drive(dates, today, dest, token, server);
      && (forall i | 0 <= i < |log| ::
            !Before(today, log[i].date) && !Before(log[i].date, first) && !Before(last, log[i].date))
      && (forall i, j | 0 <= i < j < |log| :: Before(log[i].date, log[j].date))
      && (skipSunday ==> forall i | 0 <= i < |log| :: !IsSunday(log[i].date))
      && (outcome.FuturePuzzle? ==>
            && Before(today, outcome.date) && !Before(outcome.date, first) && !Before(last, outcome.date)
            && forall i | 0 <= i < |log| :: Before(log[i].date, outcome.date))
  {
    DriveFacts(dates, today, dest, token, server);
  }

  /**
   * What a run fetches: nothing when it fails before the loop; otherwise
   * dates within [start, end], none after today, in strictly increasing
   * order, no Sunday when skipping; a run halted by a future date halts at
   * a date within the range that follows every fetched one.
   */
  lemma RunLog(start: Option<Date>, end: Option<Date>, token: Option<string>, skipSunday: bool,
               dest: Path, today: Date, now: int, stores: CookieStores, server: Request -> seq<Byte>)
    requires ValidInputs(start, end, today)
    ensures var (outcome, log) := Run(start, end, token, skipSunday, dest, today, now, stores, server);
      var first, last := start.GetOr(today), end.GetOr(today);
      && (forall i | 0 <= i < |log| ::
            !Before(today, log[i].date) && !Before(log[i].date, first) && !Before(last, log[i].date))
      && (forall i, j | 0 <= i < j < |log| :: Before(log[i].date, log[j].date))
      && (skipSunday ==> forall i | 0 <= i < |log| :: !IsSunday(log[i].date))
      && (outcome.FuturePuzzle? ==>
            && Before(today, outcome.date) && !Before(outcome.date, first) && !Before(last, outcome.date)
            && forall i | 0 <= i < |log| :: Before(log[i].date, outcome.date))
  {
    var first, last := start.GetOr(today), end.GetOr(today);
    var found := RunToken(token, stores, now);
    RunStages(start, end, token, skipSunday, dest, today, now, stores, server);
    if last != MaxDate && !Before(NextDay(last).value, first) && found.Some? {
      var bound := NextDay(last).value;
      var dates := PlannedDates(first, bound, skipSunday);
      PlannedDatesFacts(first, bound, skipSunday);
      forall i | 0 <= i < |dates|
        ensures !Before(last, dates[i])
      {
        BeforeNextDay(dates[i], last);
      }
      DriveWithin(dates, first, last, skipSunday, today, dest, found.value, server);
    }
  }

  /** The puzzles a run saves go to distinct paths. */
  lemma RunSavedPathsDistinct(start: Option<Date>, end: Option<Date>, token: Option<string>, skipSunday: bool,
                              dest: Path, today: Date, now: int, stores: CookieStores,
                              server: Request -> seq<Byte>)
    requires ValidInputs(start, end, today)
    ensures var log := Run(start, end, token, skipSunday, dest, today, now, stores, server).1;
      forall i, j | 0 <= i < j < |log| && log[i].result.Saved? && log[j].result.Saved? ::
        log[i].result.path != log[j].result.path
  {
    var log := Run(start, end, token, skipSunday, dest, today, now, stores, server).1;
    RunLog(start, end, token, skipSunday, dest, today, now, stores, server);
    RunSavedPaths(start, end, token, skipSunday, dest, today, now, stores, server);
    SavedPathsDistinct(log, dest);
  }

  /** Each puzzle a run saves goes to the path of its own date. */
  lemma RunSavedPaths(start: Option<Date>, end: Option<Date>, token: Option<string>, skipSunday: bool,
                      dest: Path, today: Date, now: int, stores: CookieStores, server: Request -> seq<Byte>)
    requires ValidInputs(start, end, today)
    ensures var log := Run(start, end, token, skipSunday, dest, today, now, stores, server).1;
      forall i | 0 <= i < |log| && log[i].result.Saved? :: log[i].result.path == PuzzlePath(dest, log[i].date)
  {
    RunStages(start, end, token, skipSunday, dest, today, now, stores, server);
  }

  /** Records of strictly increasing dates, each saved at its date's path, never share a path. */
  lemma SavedPathsDistinct(log: seq<FetchRecord>, dest: Path)
    requires forall i, j | 0 <= i < j < |log| :: Before(log[i].date, log[j].date)
    requires forall i | 0 <= i < |log| && log[i].result.Saved? :: log[i].result.path == PuzzlePath(dest, log[i].date)
    ensures forall i, j | 0 <= i < j < |log| && log[i].result.Saved? && log[j].result.Saved? ::
      log[i].result.path != log[j].result.path
  {
    forall i, j | 0 <= i < j < |log| && log[i].result.Saved? && log[j].result.Saved?
      ensures log[i].result.path != log[j].result.path
    {
      if log[i].result.path == log[j].result.path {
        PuzzlePathInjective(dest, log[i].date, log[j].date);
      }
    }
  }

  /** When no planned date is after today, the loop fetches them all and completes. */
  lemma DriveAllPast(dates: seq<Date>, today: Date, dest: Path, token: string, server: Request -> seq<Byte>)
    requires forall i | 0 <= i < |dates| :: !Before(today, dates[i])
    ensures Drive(dates, today, dest, token, server) == (Completed, Fetches(dates, dest, token, server))
  {
    PastPrefixAll(dates, today);
    assert dates[..|dates|] == dates;
  }

  /** When the range ends no later than today, no planned date is after today. */
  lemma PlannedNotAfter(first: Date, last: Date, today: Date, skipSunday: bool)
    requires ValidDate(first) && ValidDate(last) && ValidDate(today)
    requires last != MaxDate && !Before(today, last)
    ensures var dates := PlannedDates(first, NextDay(last).value, skipSunday);
      forall i | 0 <= i < |dates| :: !Before(today, dates[i])
  {
    var dates := PlannedDates(first, NextDay(last).value, skipSunday);
    PlannedDatesFacts(first, NextDay(last).value, skipSunday);
    forall i | 0 <= i < |dates|
      ensures !Before(today, dates[i])
    {
      BeforeNextDay(dates[i], last);
      BeforeIffDayNumber(dates[i], last);
      BeforeIffDayNumber(last, today);
      BeforeIffDayNumber(dates[i], today);
    }
  }

  /**
   * Without skipping, a run over a range that ends no later than today
   * completes and fetches every day of [start, end] in turn (nothing when
   * the end is the day before the start).
   */
  lemma RunFetchesEveryDay(start: Option<Date>, end: Option<Date>, token: Option<string>,
                           dest: Path, today: Date, now: int, stores: CookieStores,
                           server: Request -> seq<Byte>)
    requires ValidInputs(start, end, today)
    requires RunToken(token, stores, now).Some?
    requires var first, last := start.GetOr(today), end.GetOr(today);
      last != MaxDate && !Before(today, last) && !Before(NextDay(last).value, first)
    ensures var (outcome, log) := Run(start, end, token, false, dest, today, now, stores, server);
      var first, last := start.GetOr(today), end.GetOr(today);
      && outcome == Completed
      && |log| == DayNumber(last) + 1 - DayNumber(first)
      && (forall i | 0 <= i < |log| :: DayNumber(log[i].date) == DayNumber(first) + i)
      && (forall i | 0 <= i < |log| - 1 :: NextDay(log[i].date) == Some(log[i + 1].date))
  {
    var first, last := start.GetOr(today), end.GetOr(today);
    var bound := NextDay(last).value;
    var dates := PlannedDates(first, bound, false);
    var tok := RunToken(token, stores, now).value;
    var log := Fetches(dates, dest, tok, server);
    RunAllPast(start, end, token, false, dest, today, now, stores, server);
    FetchesDates(dates, dest, tok, server);
    EmittedConsecutive(first, bound);
    BeforeIffDayNumber(bound, first);
    assert |dates| == DayNumber(last) + 1 - DayNumber(first);
    forall i | 0 <= i < |log|
      ensures DayNumber(log[i].date) == DayNumber(first) + i
    {
      assert log[i].date == dates[i];
    }
    forall i | 0 <= i < |log| - 1
      ensures NextDay(log[i].date) == Some(log[i + 1].date)
    {
      assert log[i].date == dates[i] && log[i + 1].date == dates[i + 1];
    }
  }

  /**
   * A run over a range that ends no later than today, with a token given
   * or found in a cookie store, completes after fetching every planned date.
   */
  lemma RunAllPast(start: Option<Date>, end: Option<Date>, token: Option<string>, skipSunday: bool,
                   dest: Path, today: Date, now: int, stores: CookieStores, server: Request -> seq<Byte>)
    requires ValidInputs(start, end, today)
    requires RunToken(token, stores, now).Some?
    requires var first, last := start.GetOr(today), end.GetOr(today);
      last != MaxDate && !Before(today, last) && !Before(NextDay(last).value, first)
    ensures var first, last := start.GetOr(today), end.GetOr(today);
      Run(start, end, token, skipSunday, dest, today, now, stores, server)
        == (Completed, Fetches(PlannedDates(first, NextDay(last).value, skipSunday), dest,
                               RunToken(token, stores, now).value, server))
  {
    var first, last := start.GetOr(today), end.GetOr(today);
    RunStages(start, end, token, skipSunday, dest, today, now, stores, server);
    PlannedNotAfter(first, last, today, skipSunday);
    DriveAllPast(PlannedDates(first, NextDay(last).value, skipSunday), today, dest,
                 RunToken(token, stores, now).value, server);
  }

  /** Fetching a sequence of dates records them in the same order. */
  lemma FetchesDates(dates: seq<Date>, dest: Path, token: string, server: Request -> seq<Byte>)
    ensures var log := Fetches(dates, dest, token, server);
      |log| == |dates| && forall i | 0 <= i < |log| :: log[i].date == dates[i]
  {
  }
}
