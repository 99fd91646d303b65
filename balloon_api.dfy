/** utils/balloon_api.py: the hourly file names, the entry-parsing loops of
    `fetch_balloon_data`, and `clean_balloon_data`. The HTTP requests are a
    parameter `fetch` from file name to response; the clock read is a
    parameter `now`. */
module BalloonApi {
  import opened PyValues

  const BaseUrl: string := "https://a.windbornesystems.com/treasure/"

  /** `range(24)`: one file per hour of history. */
  const HoursOfHistory: nat := 24


  // ---------------------------------------------------------------------
  // File names: f"{BASE_URL}{hour:02d}.json"

  function DigitChar(d: nat): (c: char)
    requires d < 10
    ensures '0' <= c <= '9' && c as int - '0' as int == d
  {
    (d + '0' as int) as char
  }

  predicate AllDigits(s: string) {
    forall k :: 0 <= k < |s| ==> '0' <= s[k] <= '9'
  }

  /** The decimal numeral of `n`, without leading zeros. */
  function Decimal(n: nat): (s: string)
    ensures |s| >= 1 && AllDigits(s)
    ensures n < 10 <==> |s| == 1
    ensures 10 <= n < 100 ==> |s| == 2
  {
    if n < 10 then [DigitChar(n)] else Decimal(n / 10) + [DigitChar(n % 10)]
  }

  /** The number a string of decimal digits denotes. */
  function DigitsValue(s: string): nat
    requires AllDigits(s)
  {
    if s == [] then 0 else DigitsValue(s[..|s| - 1]) * 10 + (s[|s| - 1] as int - '0' as int)
  }

  /** Reading back a numeral gives the number. */
  lemma {:induction false} DecimalRoundTrip(n: nat)
    ensures DigitsValue(Decimal(n)) == n
  {
    if n >= 10 {
      DecimalRoundTrip(n / 10);
      var s := Decimal(n);
      assert s[..|s| - 1] == Decimal(n / 10);
    }
  }

  /** `f"{n:02d}"`: at least two digits, zero-padded on the left. */
  function ZeroPad2(n: nat): string {
    if n < 10 then ['0', DigitChar(n)] else Decimal(n)
  }

  /** The padded numeral has at least two digits, exactly two below 100, and
      reads back as `n`. */
  lemma ZeroPad2Digits(n: nat)
    ensures var s := ZeroPad2(n);
            && AllDigits(s) && |s| >= 2
            && (n < 100 <==> |s| == 2)
            && DigitsValue(s) == n
  {
    DecimalRoundTrip(n);
    if n < 10 {
      assert ZeroPad2(n)[..1] == "0";
    }
  }

  /** The URL of the file holding the positions from `hour` hours ago. */
  function HourUrl(hour: nat): string {
    BaseUrl + ZeroPad2(hour) + ".json"
  }

  /** Each URL is the base, the zero-padded hour and `.json`; for the hours
      fetched, two digits exactly. */
  lemma HourUrlForm(hour: nat)
    ensures var url := HourUrl(hour);
            && |url| >= |BaseUrl| + 2 + 5
            && url[..|BaseUrl|] == BaseUrl && url[|url| - 5..] == ".json"
            && DigitsValue(url[|BaseUrl|..|url| - 5]) == hour
            && (hour < 100 ==> |url| == |BaseUrl| + 7)
  {
    ZeroPad2Digits(hour);
    var url := HourUrl(hour);
    assert url[|BaseUrl|..|url| - 5] == ZeroPad2(hour);
  }

  /** Distinct hours are fetched from distinct files. */
  lemma HourUrlInjective(h1: nat, h2: nat)
    requires HourUrl(h1) == HourUrl(h2)
    ensures h1 == h2
  {
    ZeroPad2Digits(h1);
    ZeroPad2Digits(h2);
    var u := HourUrl(h1);
    assert u[|BaseUrl|..|u| - 5] == ZeroPad2(h1);
    assert u[|BaseUrl|..|u| - 5] == ZeroPad2(h2);
  }

  // ---------------------------------------------------------------------
  // Entry parsing: the hour loop and the entry loop of fetch_balloon_data

  /** What one `requests.get` of an hourly file gives the parser. */
  datatype HourResponse =
    | RequestFailed          // RequestException, including raise_for_status
    | MalformedJson          // response.json() raised ValueError
    | Decoded(body: Json)

  /** One appended row of `all_data`. The timestamp is kept as an instant in
      seconds; its `isoformat()` rendering is not modelled. */
  datatype BalloonRecord = BalloonRecord(latitude: real, longitude: real, altitude: real, timestamp: int)

  /** The instant stamped on every entry of the file for `hour`:
      `timedelta(hours=hour)` before `now`, in seconds. */
  function HourTimestamp(now: int, hour: int): int {
    now - hour * 3600
  }

  /** The record for one entry, or `None` where the entry is dropped: it is not
      a list, has fewer than three elements, or one of its first three
      elements does not convert with `float`. */
  function ParseEntry(entry: Json, timestamp: int, parse: FloatParser): Option<BalloonRecord>
  {
    if entry.JArr? && |entry.items| >= 3 then
      var lat := ToFloat(entry.items[0], parse);
      var lon := ToFloat(entry.items[1], parse);
      var alt := ToFloat(entry.items[2], parse);
      if lat.Ok? && lon.Ok? && alt.Ok? then Some(BalloonRecord(lat.value, lon.value, alt.value, timestamp))
      else None
    else None
  }

  /** An entry is kept exactly when it is a list of at least three elements
      whose first three convert with `float`, as latitude, longitude and
      altitude. */
  lemma ParseEntryAccepts(entry: Json, timestamp: int, parse: FloatParser)
    ensures var r := ParseEntry(entry, timestamp, parse);
            r.Some? <==> entry.JArr? && |entry.items| >= 3
                         && ToFloat(entry.items[0], parse).Ok?
                         && ToFloat(entry.items[1], parse).Ok?
                         && ToFloat(entry.items[2], parse).Ok?
    ensures var r := ParseEntry(entry, timestamp, parse);
            r.Some? ==> r.value == BalloonRecord(ToFloat(entry.items[0], parse).value,
                                                  ToFloat(entry.items[1], parse).value,
                                                  ToFloat(entry.items[2], parse).value,
                                                  timestamp)
  {
  }

  /** Elements after the third are ignored. */
  lemma ExtraElementsIgnored(items: seq<Json>, timestamp: int, parse: FloatParser)
    requires |items| >= 3
    ensures ParseEntry(JArr(items), timestamp, parse) == ParseEntry(JArr(items[..3]), timestamp, parse)
  {
  }

  /** The entry loop: the records of the accepted entries, in entry order. */
  function EntryRecords(entries: seq<Json>, timestamp: int, parse: FloatParser): (r: seq<BalloonRecord>)
    ensures |r| <= |entries|
    ensures forall k :: 0 <= k < |r| ==> r[k].timestamp == timestamp
  {
    if entries == [] then []
    else
      var rest := EntryRecords(entries[..|entries| - 1], timestamp, parse);
      match ParseEntry(entries[|entries| - 1], timestamp, parse)
      case Some(record) => rest + [record]
      case None => rest
  }

  /** The records one hourly file contributes: none unless its body decodes to
      a list. */
  function HourRecords(response: HourResponse, hour: nat, now: int, parse: FloatParser): seq<BalloonRecord> {
    if response.Decoded? && response.body.JArr? then EntryRecords(response.body.items, HourTimestamp(now, hour), parse)
    else []
  }

  /** The hour loop over the first `hours` files, in hour order. */
  function CollectedRecords(fetch: string -> HourResponse, hours: nat, now: int, parse: FloatParser)
    : seq<BalloonRecord>
  {
    if hours == 0 then []
    else
      CollectedRecords(fetch, hours - 1, now, parse)
      + HourRecords(fetch(HourUrl(hours - 1)), hours - 1, now, parse)
  }

  /** The hour loop as the source runs it, appending to `all_data` in place. */
  method FetchBalloonData(fetch: string -> HourResponse, now: int, parse: FloatParser)
    returns (allData: seq<BalloonRecord>)
    ensures allData == CollectedRecords(fetch, HoursOfHistory, now, parse)
    ensures NewestFirst(allData)
    ensures NotBefore(allData, HourTimestamp(now, HoursOfHistory - 1))
  {
    allData := [];
    for hour := 0 to HoursOfHistory
      invariant allData == CollectedRecords(fetch, hour, now, parse)
    {
      var url := HourUrl(hour);
      var response := fetch(url);
      if response.Decoded? && response.body.JArr? {
        allData := AppendEntryRecords(allData, response.body.items, hour, now, parse);
      }
    }
    TimestampsAreNewestFirst(fetch, HoursOfHistory, now, parse);
  }

  /** The entry loop over one decoded hourly list, appending to `all_data`. */
  method AppendEntryRecords(allData: seq<BalloonRecord>, entries: seq<Json>, hour: nat, now: int, parse: FloatParser)
    returns (result: seq<BalloonRecord>)
    ensures result == allData + EntryRecords(entries, HourTimestamp(now, hour), parse)
  {
    ghost var stamp := HourTimestamp(now, hour);
    result := allData;
    for e := 0 to |entries|
      invariant result == allData + EntryRecords(entries[..e], stamp, parse)
    {
      var entry := entries[e];
      ghost var before := EntryRecords(entries[..e], stamp, parse);
      EntryRecordsStep(entries, e, stamp, parse);
      var parsed := ReadEntry(entry, hour, now, parse);
      if parsed.Some? {
        assert allData + before + [parsed.value] == allData + (before + [parsed.value]);
        result := result + [parsed.value];
      }
    }
    assert entries[..|entries|] == entries;
  }

  /** The checks and conversions of one entry (the inner `try`): the record,
      or `None` where the entry is reported and skipped. */
  method ReadEntry(entry: Json, hour: nat, now: int, parse: FloatParser) returns (record: Option<BalloonRecord>)
    ensures record == ParseEntry(entry, HourTimestamp(now, hour), parse)
  {
    if entry.JArr? && |entry.items| >= 3 {
      var lat := ToFloat(entry.items[0], parse);
      var lon := ToFloat(entry.items[1], parse);
      var alt := ToFloat(entry.items[2], parse);
      if lat.Ok? && lon.Ok? && alt.Ok? {
        var timestamp := now - hour * 3600;
        return Some(BalloonRecord(lat.value, lon.value, alt.value, timestamp));
      }
    }
    return None;
  }

  /** One more turn of the entry loop. */
  lemma EntryRecordsStep(entries: seq<Json>, e: nat, timestamp: int, parse: FloatParser)
    requires e < |entries|
    ensures var parsed := ParseEntry(entries[e], timestamp, parse);
            EntryRecords(entries[..e + 1], timestamp, parse)
            == if parsed.Some? then EntryRecords(entries[..e], timestamp, parse) + [parsed.value]
               else EntryRecords(entries[..e], timestamp, parse)
  {
    assert entries[..e + 1][..e] == entries[..e];
  }

  /** Every record of the file for `hour` carries that hour's instant. */
  lemma HourRecordsStamped(response: HourResponse, hour: nat, now: int, parse: FloatParser)
    ensures forall k :: 0 <= k < |HourRecords(response, hour, now, parse)| ==>
              HourRecords(response, hour, now, parse)[k].timestamp == HourTimestamp(now, hour)
  {
  }

  /** Timestamps never increase along `rs`. */
  predicate NewestFirst(rs: seq<BalloonRecord>) {
    forall k1, k2 :: 0 <= k1 < k2 < |rs| ==> rs[k1].timestamp >= rs[k2].timestamp
  }

  /** No timestamp in `rs` is earlier than `t`. */
  predicate NotBefore(rs: seq<BalloonRecord>, t: int) {
    forall k :: 0 <= k < |rs| ==> rs[k].timestamp >= t
  }

  /** Every timestamp in `rs` is `now` less a whole number of hours below
      `hours`. */
  ghost predicate FromFetchedHours(rs: seq<BalloonRecord>, now: int, hours: nat) {
    forall k :: 0 <= k < |rs| ==> FromFetchedHour(rs[k], now, hours)
  }

  /** `record` is stamped `now` less a whole number of hours below `hours`. */
  ghost predicate FromFetchedHour(record: BalloonRecord, now: int, hours: nat) {
    exists h: nat :: h < hours && record.timestamp == HourTimestamp(now, h)
  }

  /** Appending one hour's records, all stamped `t`, after records no older
      than `t`. */
  lemma AppendHour(prev: seq<BalloonRecord>, last: seq<BalloonRecord>, t: int)
    requires NewestFirst(prev) && NotBefore(prev, t)
    requires forall k :: 0 <= k < |last| ==> last[k].timestamp == t
    ensures NewestFirst(prev + last) && NotBefore(prev + last, t)
  {
    var rs := prev + last;
    forall k1, k2 | 0 <= k1 < k2 < |rs|
      ensures rs[k1].timestamp >= rs[k2].timestamp
    {
      if k2 < |prev| {
        assert rs[k1] == prev[k1] && rs[k2] == prev[k2];
      } else if k1 < |prev| {
        assert rs[k1] == prev[k1] && rs[k2] == last[k2 - |prev|];
      } else {
        assert rs[k1] == last[k1 - |prev|] && rs[k2] == last[k2 - |prev|];
      }
    }
    forall k | 0 <= k < |rs|
      ensures rs[k].timestamp >= t
    {
      if k < |prev| {
        assert rs[k] == prev[k];
      } else {
        assert rs[k] == last[k - |prev|];
      }
    }
  }

  /** Appending the records of hour `hours`. */
  lemma AppendFetchedHour(prev: seq<BalloonRecord>, last: seq<BalloonRecord>, now: int, hours: nat)
    requires FromFetchedHours(prev, now, hours)
    requires forall k :: 0 <= k < |last| ==> last[k].timestamp == HourTimestamp(now, hours)
    ensures FromFetchedHours(prev + last, now, hours + 1)
  {
    var rs := prev + last;
    forall k | 0 <= k < |rs|
      ensures FromFetchedHour(rs[k], now, hours + 1)
    {
      if k < |prev| {
        assert rs[k] == prev[k];
        assert FromFetchedHour(prev[k], now, hours);
        var h: nat :| h < hours && prev[k].timestamp == HourTimestamp(now, h);
        assert rs[k].timestamp == HourTimestamp(now, h) && h < hours + 1;
      } else {
        assert rs[k] == last[k - |prev|];
        assert rs[k].timestamp == HourTimestamp(now, hours);
      }
    }
  }

  /** Every timestamp is `now` less a whole number of hours inside the fetched
      window. */
  lemma {:induction false} TimestampsFromFetchedHours(fetch: string -> HourResponse, hours: nat, now: int,
                                                      parse: FloatParser)
    ensures FromFetchedHours(CollectedRecords(fetch, hours, now, parse), now, hours)
  {
    if hours > 0 {
      TimestampsFromFetchedHours(fetch, hours - 1, now, parse);
      var prev := CollectedRecords(fetch, hours - 1, now, parse);
      var last := HourRecords(fetch(HourUrl(hours - 1)), hours - 1, now, parse);
      assert CollectedRecords(fetch, hours, now, parse) == prev + last;
      HourRecordsStamped(fetch(HourUrl(hours - 1)), hours - 1, now, parse);
      AppendFetchedHour(prev, last, now, hours - 1);
    }
  }

  /** Records come hour by hour from hour 0 on, so the timestamps never
      increase along the list and none is older than the last fetched hour. */
  lemma {:induction false} TimestampsAreNewestFirst(fetch: string -> HourResponse, hours: nat, now: int,
                                                    parse: FloatParser)
    ensures NewestFirst(CollectedRecords(fetch, hours, now, parse))
    ensures NotBefore(CollectedRecords(fetch, hours, now, parse), HourTimestamp(now, hours - 1))
  {
    if hours > 0 {
      TimestampsAreNewestFirst(fetch, hours - 1, now, parse);
      var prev := CollectedRecords(fetch, hours - 1, now, parse);
      var response := fetch(HourUrl(hours - 1));
      HourRecordsStamped(response, hours - 1, now, parse);
      var t := HourTimestamp(now, hours - 1);
      assert NotBefore(prev, t) by {
        assert t <= HourTimestamp(now, hours - 1 - 1);
      }
      AppendHour(prev, HourRecords(response, hours - 1, now, parse), t);
    }
  }

  /** The entry loop over `a + b` is the loop over `a` followed by the loop
      over `b`. */
  lemma {:induction false} EntryRecordsConcat(a: seq<Json>, b: seq<Json>, timestamp: int, parse: FloatParser)
    ensures EntryRecords(a + b, timestamp, parse) == EntryRecords(a, timestamp, parse) + EntryRecords(b, timestamp, parse)
    decreases |b|
  {
    if b == [] {
      assert a + b == a;
    } else {
      var n := |b| - 1;
      EntryRecordsConcat(a, b[..n], timestamp, parse);
      assert (a + b)[..|a + b| - 1] == a + b[..n];
      assert (a + b)[|a + b| - 1] == b[n];
    }
  }

  /** A dropped entry does not affect the entries around it. */
  lemma DroppedEntryIsInvisible(before: seq<Json>, entry: Json, after: seq<Json>, timestamp: int, parse: FloatParser)
    requires ParseEntry(entry, timestamp, parse).None?
    ensures EntryRecords(before + [entry] + after, timestamp, parse) == EntryRecords(before + after, timestamp, parse)
  {
    EntryRecordsConcat(before + [entry], after, timestamp, parse);
    EntryRecordsConcat(before, [entry], timestamp, parse);
    EntryRecordsConcat(before, after, timestamp, parse);
    assert [entry][..0] == [];
  }

  /** Every accepted entry of the file contributes its record, and every
      record comes from an accepted entry. */
  lemma {:induction false} EntryRecordsEnumerate(entries: seq<Json>, timestamp: int, parse: FloatParser)
    ensures forall i :: 0 <= i < |entries| && ParseEntry(entries[i], timestamp, parse).Some?
              ==> ParseEntry(entries[i], timestamp, parse).value in EntryRecords(entries, timestamp, parse)
    ensures forall r :: r in EntryRecords(entries, timestamp, parse)
              ==> exists i :: 0 <= i < |entries| && ParseEntry(entries[i], timestamp, parse) == Some(r)
    decreases |entries|
  {
    if entries != [] {
      var n := |entries| - 1;
      EntryRecordsEnumerate(entries[..n], timestamp, parse);
      assert forall i :: 0 <= i < n ==> entries[..n][i] == entries[i];
    }
  }

  // ---------------------------------------------------------------------
  // clean_balloon_data

  /** A row of the frame handed to `clean_balloon_data`. `None` stands for a
      missing value (NaN) in a numeric column. */
  datatype FrameRow = FrameRow(latitude: Option<real>, longitude: Option<real>, altitude: Option<real>, timestamp: int)

  /** `dropna(subset=['latitude', 'longitude', 'altitude'])` keeps a row. */
  predicate Complete(row: FrameRow) {
    row.latitude.Some? && row.longitude.Some? && row.altitude.Some?
  }

  /** The `query` condition; a missing value fails every comparison. */
  predicate InBounds(row: FrameRow) {
    && Complete(row)
    && -90.0 <= row.latitude.value <= 90.0
    && -180.0 <= row.longitude.value <= 180.0
    && row.altitude.value >= 0.0
  }

  /** `a` is `b` with some elements removed, the rest in their order. */
  ghost predicate IsSubsequence<T>(a: seq<T>, b: seq<T>)
    decreases |b|
  {
    if a == [] then true
    else if b == [] then false
    else if a[|a| - 1] == b[|b| - 1] then IsSubsequence(a[..|a| - 1], b[..|b| - 1])
    else IsSubsequence(a, b[..|b| - 1])
  }

  /** The positions of the rows that satisfy a row condition. */
  ghost function Qualifying(rows: seq<FrameRow>, keep: FrameRow -> bool): set<nat> {
    set k: nat | k < |rows| && keep(rows[k])
  }

  /** The rows of a frame that satisfy a row condition, in frame order: a
      subsequence of qualifying rows as long as the number of qualifying
      positions, so every qualifying row is kept as often as it occurs. */
  function Select(rows: seq<FrameRow>, keep: FrameRow -> bool): (r: seq<FrameRow>)
    ensures IsSubsequence(r, rows)
    ensures forall row :: row in r ==> keep(row)
    ensures forall k :: 0 <= k < |rows| && keep(rows[k]) ==> rows[k] in r
    ensures |r| == |Qualifying(rows, keep)|
  {
    if rows == [] then
      assert Qualifying(rows, keep) == {};
      []
    else
      var rest := Select(rows[..|rows| - 1], keep);
      var last := rows[|rows| - 1];
      assert forall k :: 0 <= k < |rows| - 1 ==> rows[..|rows| - 1][k] == rows[k];
      QualifyingStep(rows, keep);
      if keep(last) then rest + [last] else rest
  }

  /** One more row adds its position when it qualifies. */
  lemma QualifyingStep(rows: seq<FrameRow>, keep: FrameRow -> bool)
    requires rows != []
    ensures var n := |rows| - 1;
            |Qualifying(rows, keep)| == |Qualifying(rows[..n], keep)| + (if keep(rows[n]) then 1 else 0)
  {
    var n := |rows| - 1;
    var before := Qualifying(rows[..n], keep);
    assert forall k :: 0 <= k < n ==> rows[..n][k] == rows[k];
    if keep(rows[n]) {
      assert Qualifying(rows, keep) == before + {n};
      assert n !in before;
    } else {
      assert Qualifying(rows, keep) == before;
    }
  }

  /** Selecting rows that all qualify keeps them all. */
  lemma {:induction false} SelectAllQualify(rows: seq<FrameRow>, keep: FrameRow -> bool)
    requires forall row :: row in rows ==> keep(row)
    ensures Select(rows, keep) == rows
    decreases |rows|
  {
    if rows != [] {
      var init := rows[..|rows| - 1];
      assert forall row :: row in init ==> row in rows;
      SelectAllQualify(init, keep);
      assert init + [rows[|rows| - 1]] == rows;
    }
  }

  /** `clean_balloon_data`: an empty frame unchanged, otherwise the complete
      rows within bounds, in their order, duplicates included. */
  function CleanBalloonData(frame: seq<FrameRow>): (r: seq<FrameRow>)
    ensures frame == [] ==> r == frame
    ensures forall row :: row in r ==> InBounds(row)
    ensures forall k :: 0 <= k < |frame| && InBounds(frame[k]) ==> frame[k] in r
    ensures IsSubsequence(r, frame)
    ensures |r| == |Qualifying(frame, InBounds)|
  {
    if frame == [] then
      assert Qualifying(frame, InBounds) == {};
      frame
    else
      SelectFusion(frame);
      Select(Select(frame, Complete), InBounds)
  }

  /** Cleaning a cleaned frame changes nothing. */
  lemma CleanIsIdempotent(frame: seq<FrameRow>)
    ensures CleanBalloonData(CleanBalloonData(frame)) == CleanBalloonData(frame)
  {
    var once := CleanBalloonData(frame);
    if once != [] {
      SelectAllQualify(once, Complete);
      SelectAllQualify(once, InBounds);
    }
  }

  /** `dropna` removes nothing the `query` would keep: cleaning is the bounds
      filter alone. */
  lemma DropnaIsSubsumed(frame: seq<FrameRow>)
    ensures CleanBalloonData(frame) == Select(frame, InBounds)
  {
    if frame != [] {
      SelectFusion(frame);
    }
  }

  lemma {:induction false} SelectFusion(rows: seq<FrameRow>)
    ensures Select(Select(rows, Complete), InBounds) == Select(rows, InBounds)
    decreases |rows|
  {
    if rows != [] {
      var init := rows[..|rows| - 1];
      var last := rows[|rows| - 1];
      SelectFusion(init);
      var c := Select(init, Complete);
      if Complete(last) {
        assert Select(rows, Complete) == c + [last];
        assert (c + [last])[..|c|] == c;
      } else {
        assert Select(rows, Complete) == c;
      }
    }
  }
}
