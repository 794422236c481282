/**
 * The e-solat prayer-time records, their decoding from the server's fields,
 * the request URL, and the text report printed for today's times.
 */
module PrayerTimes {
  import opened Wrappers
  import opened Text
  import opened Calendar
  import opened Normaliser
  import opened Decoders
  import opened Zones

  // ---------------------------------------------------------------------------
  // Records
  // ---------------------------------------------------------------------------

  /** One day's entry: the Hijri date as sent, the Gregorian date and seven times. */
  datatype PrayerTime = PrayerTime(
    hijri: string,
    date: Date,
    imsak: DateTime,
    fajr: DateTime,
    syuruk: DateTime,
    dhuhr: DateTime,
    asr: DateTime,
    maghrib: DateTime,
    isha: DateTime)

  /** A whole response: the entries and the metadata fields copied as text. */
  datatype PrayerData = PrayerData(
    prayerTime: seq<PrayerTime>,
    status: string,
    serverTime: string,
    periodType: string,
    lang: string,
    zone: string)

  /** An entry as it arrives: every field is still the server's string. */
  datatype RawPrayerTime = RawPrayerTime(
    hijri: string,
    date: string,
    imsak: string,
    fajr: string,
    syuruk: string,
    dhuhr: string,
    asr: string,
    maghrib: string,
    isha: string)

  /** A response whose JSON was read, with its entries not yet decoded. */
  datatype RawPrayerData = RawPrayerData(
    prayerTime: seq<RawPrayerTime>,
    status: string,
    serverTime: string,
    periodType: string,
    lang: string,
    zone: string)

  /** The entry's date is a real day and each of its times a real time of day. */
  predicate ValidPrayerTime(p: PrayerTime) {
    ValidDate(p.date)
    && ValidTime(p.imsak.time) && ValidTime(p.fajr.time) && ValidTime(p.syuruk.time)
    && ValidTime(p.dhuhr.time) && ValidTime(p.asr.time) && ValidTime(p.maghrib.time)
    && ValidTime(p.isha.time)
  }

  /** Every timestamp of the entry lies on `today`. */
  predicate AnchoredTo(p: PrayerTime, today: Date) {
    p.imsak.date == today && p.fajr.date == today && p.syuruk.date == today
    && p.dhuhr.date == today && p.asr.date == today && p.maghrib.date == today
    && p.isha.date == today
  }

  /** Each time of `p` is written as the matching time string of `raw`. */
  predicate TimesWrittenAs(p: PrayerTime, raw: RawPrayerTime)
    requires ValidPrayerTime(p)
  {
    FormatTime(p.imsak.time) == raw.imsak && FormatTime(p.fajr.time) == raw.fajr
    && FormatTime(p.syuruk.time) == raw.syuruk && FormatTime(p.dhuhr.time) == raw.dhuhr
    && FormatTime(p.asr.time) == raw.asr && FormatTime(p.maghrib.time) == raw.maghrib
    && FormatTime(p.isha.time) == raw.isha
  }

  /** Every time string of `raw` parses. */
  predicate TimesParse(raw: RawPrayerTime) {
    ParseTime(raw.imsak).Some? && ParseTime(raw.fajr).Some? && ParseTime(raw.syuruk).Some?
    && ParseTime(raw.dhuhr).Some? && ParseTime(raw.asr).Some? && ParseTime(raw.maghrib).Some?
    && ParseTime(raw.isha).Some?
  }

  predicate ValidPrayerData(d: PrayerData) {
    forall i :: 0 <= i < |d.prayerTime| ==> ValidPrayerTime(d.prayerTime[i])
  }

  // ---------------------------------------------------------------------------
  // Decoding
  // ---------------------------------------------------------------------------

  /**
   * Decodes one entry: the date through the Malay-month rewrite and `%d-%b-%Y`,
   * each time through `%H:%M:%S` on `today`. `None` is the panic of a failed
   * `unwrap`.
   */
  function DecodePrayerTime(raw: RawPrayerTime, today: Date): (r: Option<PrayerTime>)
    ensures r.Some? ==> ValidPrayerTime(r.value) && r.value.date.year <= 9999
  {
    var date :- DeserializeToDate(raw.date);
    var imsak :- DeserializeToTime(raw.imsak, today);
    var fajr :- DeserializeToTime(raw.fajr, today);
    var syuruk :- DeserializeToTime(raw.syuruk, today);
    var dhuhr :- DeserializeToTime(raw.dhuhr, today);
    var asr :- DeserializeToTime(raw.asr, today);
    var maghrib :- DeserializeToTime(raw.maghrib, today);
    var isha :- DeserializeToTime(raw.isha, today);
    Some(PrayerTime(raw.hijri, date, imsak, fajr, syuruk, dhuhr, asr, maghrib, isha))
  }

  /**
   * An entry decodes exactly when its date and its seven times parse; the
   * result keeps the Hijri text, lies on `today`, and its date and times are
   * written as the raw strings (the date after the month rewrite).
   */
  lemma DecodePrayerTimeFields(raw: RawPrayerTime, today: Date)
    ensures DecodePrayerTime(raw, today).Some? <==> DeserializeToDate(raw.date).Some? && TimesParse(raw)
    ensures DecodePrayerTime(raw, today).Some? ==>
              var p := DecodePrayerTime(raw, today).value;
              AnchoredTo(p, today) && p.hijri == raw.hijri
              && ConvertMyToEnDate(raw.date) == FormatDate(p.date)
              && TimesWrittenAs(p, raw)
  {
  }

  /** The server's text for an entry, with the month in English. */
  function EncodePrayerTime(p: PrayerTime): (raw: RawPrayerTime)
    requires ValidPrayerTime(p) && p.date.year <= 9999
  {
    RawPrayerTime(p.hijri, FormatDate(p.date),
      FormatTime(p.imsak.time), FormatTime(p.fajr.time), FormatTime(p.syuruk.time),
      FormatTime(p.dhuhr.time), FormatTime(p.asr.time), FormatTime(p.maghrib.time),
      FormatTime(p.isha.time))
  }

  /** A decoded entry re-encodes to the raw entry, its date rewritten to English. */
  lemma EncodeDecodedPrayerTime(raw: RawPrayerTime, today: Date)
    requires DecodePrayerTime(raw, today).Some?
    ensures EncodePrayerTime(DecodePrayerTime(raw, today).value) == raw.(date := ConvertMyToEnDate(raw.date))
  {
    DecodePrayerTimeFields(raw, today);
  }

  /** Every valid entry on `today` is decoded back from its own encoding. */
  lemma DecodeEncodedPrayerTime(p: PrayerTime, today: Date)
    requires ValidPrayerTime(p) && p.date.year <= 9999 && AnchoredTo(p, today)
    ensures DecodePrayerTime(EncodePrayerTime(p), today) == Some(p)
  {
    var raw := EncodePrayerTime(p);
    DecodeEnglishDate(p.date);
    ParseFormattedTime(p.imsak.time);
    ParseFormattedTime(p.fajr.time);
    ParseFormattedTime(p.syuruk.time);
    ParseFormattedTime(p.dhuhr.time);
    ParseFormattedTime(p.asr.time);
    ParseFormattedTime(p.maghrib.time);
    ParseFormattedTime(p.isha.time);
  }

  /**
   * A sequence decoded element by element, as serde decodes a `Vec`: all
   * elements in order, or nothing once one of them fails.
   */
  function DecodeEach<T, U>(xs: seq<T>, decode: T -> Option<U>): (r: Option<seq<U>>)
    ensures r.Some? <==> forall i :: 0 <= i < |xs| ==> decode(xs[i]).Some?
    ensures r.Some? ==>
              |r.value| == |xs| && forall i :: 0 <= i < |xs| ==> decode(xs[i]) == Some(r.value[i])
  {
    if |xs| == 0 then Some([])
    else
      match decode(xs[0])
      case None => None
      case Some(first) =>
        match DecodeEach(xs[1..], decode)
        case None =>
          assert exists i :: 0 <= i < |xs[1..]| && decode(xs[1..][i]).None?;
          None
        case Some(rest) => Some([first] + rest)
  }

  /** Decodes the entries in order; one bad entry makes the whole decode panic. */
  function DecodeEntries(raws: seq<RawPrayerTime>, today: Date): (r: Option<seq<PrayerTime>>)
    ensures r.Some? <==> forall i :: 0 <= i < |raws| ==> DecodePrayerTime(raws[i], today).Some?
    ensures r.Some? ==>
              |r.value| == |raws|
              && forall i :: 0 <= i < |raws| ==> DecodePrayerTime(raws[i], today) == Some(r.value[i])
    ensures r.Some? ==> forall i :: 0 <= i < |r.value| ==> ValidPrayerTime(r.value[i])
  {
    DecodeEach(raws, raw => DecodePrayerTime(raw, today))
  }

  /** Deserialising a response: the entries decoded, the metadata copied. */
  function DecodePrayerData(raw: RawPrayerData, today: Date): (r: Option<PrayerData>)
    ensures r.Some? <==> DecodeEntries(raw.prayerTime, today).Some?
    ensures r.Some? ==>
              ValidPrayerData(r.value) && |r.value.prayerTime| == |raw.prayerTime|
              && r.value.status == raw.status && r.value.serverTime == raw.serverTime
              && r.value.periodType == raw.periodType && r.value.lang == raw.lang
              && r.value.zone == raw.zone
    ensures r.Some? ==> Some(r.value.prayerTime) == DecodeEntries(raw.prayerTime, today)
  {
    var entries :- DecodeEntries(raw.prayerTime, today);
    Some(PrayerData(entries, raw.status, raw.serverTime, raw.periodType, raw.lang, raw.zone))
  }

  // ---------------------------------------------------------------------------
  // Request URL
  // ---------------------------------------------------------------------------

  const RequestPrefix: string := "https://www.e-solat.gov.my/index.php?r=esolatApi/TakwimSolat&period="
  const ZoneKey: string := "&zone="
  const DefaultPeriod: string := "today"
  const DefaultZone: string := "SGR01"

  /** The e-solat request: the period (default `today`) and zone (default `SGR01`) inserted verbatim. */
  function RequestUrl(zone: Option<string>, period: Option<string>): (url: string)
    ensures StartsWith(url, RequestPrefix)
  {
    RequestPrefix + period.UnwrapOr(DefaultPeriod) + ZoneKey + zone.UnwrapOr(DefaultZone)
  }

  /**
   * Reads the period and zone back out of a request URL: the period runs to
   * the first `&`, which must begin `&zone=`, and the zone is the rest.
   */
  function QueryParams(url: string): (r: Option<(string, string)>)
    ensures r.Some? ==> url == RequestPrefix + r.value.0 + ZoneKey + r.value.1 && '&' !in r.value.0
  {
    SplitAround(url, RequestPrefix, ZoneKey)
  }

  /** A period without `&` and any zone are read back from the URL as given, defaults filled in. */
  lemma QueryParamsOfRequestUrl(zone: Option<string>, period: Option<string>)
    requires '&' !in period.UnwrapOr(DefaultPeriod)
    ensures QueryParams(RequestUrl(zone, period)) == Some((period.UnwrapOr(DefaultPeriod), zone.UnwrapOr(DefaultZone)))
  {
    SplitAroundOfParts(RequestPrefix, period.UnwrapOr(DefaultPeriod), ZoneKey, zone.UnwrapOr(DefaultZone));
  }

  /**
   * A URL whose period holds `&` does not read back as given: the inserted
   * period is not escaped.
   */
  lemma AmpersandInPeriodIsNotRecovered(zone: Option<string>, period: string)
    requires '&' in period
    ensures QueryParams(RequestUrl(zone, Some(period))) != Some((period, zone.UnwrapOr(DefaultZone)))
  {
  }

  /** The default zone of a request is one of the known zones. */
  lemma DefaultZoneIsKnown()
    ensures ParseZone(DefaultZone) == Some(SGR01)
  {
  }

  /** The request made for today's times. */
  function TodayRequestUrl(zone: Option<string>): (url: string)
    ensures QueryParams(url) == Some((DefaultPeriod, zone.UnwrapOr(DefaultZone)))
  {
    QueryParamsOfRequestUrl(zone, Some(DefaultPeriod));
    RequestUrl(zone, Some(DefaultPeriod))
  }

  /**
   * The `today` command: the zone chosen on the command line is written into
   * the request by name, and that name reads back as the same zone.
   */
  lemma TodayCommandRequestsChosenZone(z: Zone)
    ensures QueryParams(TodayRequestUrl(Some(ZoneName(z)))) == Some((DefaultPeriod, ZoneName(z)))
    ensures ParseZone(QueryParams(TodayRequestUrl(Some(ZoneName(z)))).value.1) == Some(z)
  {
    ParseZoneName(z);
  }

  // ---------------------------------------------------------------------------
  // Report
  // ---------------------------------------------------------------------------

  /** The hour on a 12-hour clock face, as `%I` writes it. */
  function Hour12(h: nat): (r: nat)
    requires h < 24
    ensures 1 <= r <= 12
    ensures r % 12 == h % 12
  {
    if h % 12 == 0 then 12 else h % 12
  }

  /** `%p`. */
  function Meridiem(h: nat): (m: string)
    ensures m == "AM" || m == "PM"
    ensures m == "AM" <==> h < 12
  {
    if h < 12 then "AM" else "PM"
  }

  /** `time.format("%I:%M %p")`: seconds are not shown. */
  function Format12(t: TimeOfDay): (s: string)
    requires ValidTime(t)
    ensures |s| == 8
  {
    Pad2(Hour12(t.hour)) + ":" + Pad2(t.minute) + " " + Meridiem(t.hour)
  }

  /** Reads a `%I:%M %p` string back to the 24-hour hour and the minute. */
  function Parse12(s: string): (r: Option<(nat, nat)>)
    ensures r.Some? ==> r.value.0 < 24 && r.value.1 < 60
  {
    if |s| == 8 && AllDigits(s[..2]) && s[2] == ':' && AllDigits(s[3..5]) && s[5] == ' '
       && (s[6..] == "AM" || s[6..] == "PM")
    then
      var h12 := Value2(s[..2]);
      var m := Value2(s[3..5]);
      if 1 <= h12 <= 12 && m < 60 then
        Some(((h12 % 12) + (if s[6..] == "PM" then 12 else 0), m))
      else None
    else None
  }

  /** The 12-hour text of a time gives back its hour and minute. */
  lemma Parse12OfFormat12(t: TimeOfDay)
    requires ValidTime(t)
    ensures Parse12(Format12(t)) == Some((t.hour, t.minute))
  {
    var s := Format12(t);
    assert s[..2] == Pad2(Hour12(t.hour));
    assert s[3..5] == Pad2(t.minute);
    assert s[6..] == Meridiem(t.hour);
  }

  /** The labels of the six printed times, padded to one width. */
  const Labels: seq<string> := ["Imsak:   ", "Subuh:   ", "Zohor:   ", "Asar:    ", "Maghrib: ", "Isyak:   "]

  /** The six printed timestamps; syuruk is not printed. */
  function PrintedTimes(p: PrayerTime): (ts: seq<TimeOfDay>)
    requires ValidPrayerTime(p)
    ensures |ts| == 6 && forall i :: 0 <= i < 6 ==> ValidTime(ts[i])
  {
    [p.imsak.time, p.fajr.time, p.dhuhr.time, p.asr.time, p.maghrib.time, p.isha.time]
  }

  /** The heading line: weekday name, date and the response's zone. */
  function Header(zone: string, d: Date): (h: string)
    requires ValidDate(d)
    ensures StartsWith(h, "Prayer times for ") && |h| > |zone| && h[|h| - |zone|..] == zone
  {
    "Prayer times for " + WeekdayName(d) + ", " + FormatIsoDate(d) + ", zone " + zone
  }

  /** The heading shows the entry's weekday name and then its date, which reads back as that date. */
  lemma HeaderReadBack(zone: string, d: Date)
    requires ValidDate(d) && d.year <= 9999
    ensures var h, w := Header(zone, d), WeekdayName(d);
            |h| >= 29 + |w| && h[17..17 + |w|] == w && ParseIsoDate(h[19 + |w|..29 + |w|]) == Some(d)
  {
    var w, iso := WeekdayName(d), FormatIsoDate(d);
    var h := Header(zone, d);
    assert h == "Prayer times for " + w + ", " + iso + ", zone " + zone;
    assert h[17..17 + |w|] == w;
    assert h[19 + |w|..29 + |w|] == iso;
    IsoDateRoundTrip(d);
  }

  /** One time line of the report: the label, then the time on a 12-hour clock. */
  function TimeLine(name: string, t: TimeOfDay): (line: string)
    requires ValidTime(t)
    ensures |line| == |name| + 8 && line[..|name|] == name
  {
    name + Format12(t)
  }

  /** `print_prayer_time`: the lines printed for one entry. */
  function PrintPrayerTime(data: PrayerData, p: PrayerTime): (lines: seq<string>)
    requires ValidPrayerTime(p)
    ensures |lines| == 7
    ensures lines[0] == Header(data.zone, p.date)
    ensures forall i :: 0 <= i < 6 ==> lines[i + 1] == TimeLine(Labels[i], PrintedTimes(p)[i])
  {
    [ Header(data.zone, p.date),
      TimeLine(Labels[0], p.imsak.time),
      TimeLine(Labels[1], p.fajr.time),
      TimeLine(Labels[2], p.dhuhr.time),
      TimeLine(Labels[3], p.asr.time),
      TimeLine(Labels[4], p.maghrib.time),
      TimeLine(Labels[5], p.isha.time) ]
  }

  /** Each time line carries its label and reads back as that time's hour and minute. */
  lemma ReportShowsTimes(data: PrayerData, p: PrayerTime, i: nat)
    requires ValidPrayerTime(p) && i < 6
    ensures |Labels[i]| == 9
    ensures PrintPrayerTime(data, p)[i + 1][..9] == Labels[i]
    ensures Parse12(PrintPrayerTime(data, p)[i + 1][9..])
              == Some((PrintedTimes(p)[i].hour, PrintedTimes(p)[i].minute))
  {
    var line := PrintPrayerTime(data, p)[i + 1];
    var t := PrintedTimes(p)[i];
    assert |Labels[i]| == 9;
    assert line[9..] == Format12(t);
    Parse12OfFormat12(t);
  }

  /**
   * The report depends only on the zone, the entry's date and the hours and
   * minutes of the six printed times: not on syuruk, the Hijri date, seconds,
   * the other metadata or the dates inside the timestamps.
   */
  lemma ReportIgnoresUnprintedFields(data1: PrayerData, p: PrayerTime, data2: PrayerData, q: PrayerTime)
    requires ValidPrayerTime(p) && ValidPrayerTime(q)
    requires data1.zone == data2.zone && p.date == q.date
    requires forall i :: 0 <= i < 6 ==>
               PrintedTimes(p)[i].hour == PrintedTimes(q)[i].hour
               && PrintedTimes(p)[i].minute == PrintedTimes(q)[i].minute
    ensures PrintPrayerTime(data1, p) == PrintPrayerTime(data2, q)
  {
    var a := PrintPrayerTime(data1, p);
    var b := PrintPrayerTime(data2, q);
    forall k | 1 <= k < 7
      ensures a[k] == b[k]
    {
      assert Format12(PrintedTimes(p)[k - 1]) == Format12(PrintedTimes(q)[k - 1]);
    }
  }

  // ---------------------------------------------------------------------------
  // Today's report
  // ---------------------------------------------------------------------------

  const NoPrayerTimeMessage: string := "No valid prayer time found"

  /** How a run of `print_prayer_time_today` ends. */
  datatype Outcome =
    | Printed(lines: seq<string>)
    | Failed(message: string)
    | Panicked

  /**
   * `print_prayer_time_today`: requests today's times for `zone`; `fetch`
   * stands for the HTTP request and the JSON reading of its body (the
   * response's fields, or the error of that step), and `today` for the
   * local date during decoding. The outcome is the report for the first
   * entry, the fetch error, an error for a response without entries, or a
   * panic from a field that does not decode.
   */
  function PrintPrayerTimeToday(zone: Option<string>, fetch: string -> Result<RawPrayerData, string>, today: Date)
    : (r: Outcome)
    ensures var response := fetch(TodayRequestUrl(zone));
            && (response.Failure? ==> r == Failed(response.error))
            && (response.Success? ==>
                  (r.Panicked? <==> DecodeEntries(response.value.prayerTime, today).None?))
            && (response.Success? && !r.Panicked? ==>
                  (r.Failed? <==> |response.value.prayerTime| == 0)
                  && (r.Failed? ==> r.message == NoPrayerTimeMessage))
    ensures r.Printed? ==> |r.lines| == 7
  {
    match fetch(TodayRequestUrl(zone))
    case Failure(e) => Failed(e)
    case Success(raw) =>
      match DecodePrayerData(raw, today)
      case None => Panicked
      case Some(data) =>
        if |data.prayerTime| == 0 then Failed(NoPrayerTimeMessage)
        else Printed(PrintPrayerTime(data, data.prayerTime[0]))
  }

  /**
   * A printed report is that of the first raw entry: its converted date in
   * the heading with the response's zone, and each label with the time read
   * from the matching field.
   */
  lemma TodayReportShowsFirstEntry(
    zone: Option<string>, fetch: string -> Result<RawPrayerData, string>, raw: RawPrayerData, today: Date)
    requires fetch(TodayRequestUrl(zone)) == Success(raw)
    requires PrintPrayerTimeToday(zone, fetch, today).Printed?
    ensures |raw.prayerTime| > 0
    ensures DecodePrayerTime(raw.prayerTime[0], today).Some?
    ensures
      var p := DecodePrayerTime(raw.prayerTime[0], today).value;
      var lines := PrintPrayerTimeToday(zone, fetch, today).lines;
      ConvertMyToEnDate(raw.prayerTime[0].date) == FormatDate(p.date)
      && lines[0] == Header(raw.zone, p.date)
      && forall i :: 0 <= i < 6 ==>
           lines[i + 1] == TimeLine(Labels[i], PrintedTimes(p)[i])
  {
    var data := DecodePrayerData(raw, today).value;
    assert DecodePrayerTime(raw.prayerTime[0], today) == Some(data.prayerTime[0]);
    DecodePrayerTimeFields(raw.prayerTime[0], today);
  }

  /**
   * Only the zone and the first entry shape a printed report: two responses
   * to the same request that both decode, with equal zones and first
   * entries, print the same.
   */
  lemma OnlyFirstEntryPrinted(
    zone: Option<string>, fetch1: string -> Result<RawPrayerData, string>,
    fetch2: string -> Result<RawPrayerData, string>, raw1: RawPrayerData, raw2: RawPrayerData, today: Date)
    requires fetch1(TodayRequestUrl(zone)) == Success(raw1) && fetch2(TodayRequestUrl(zone)) == Success(raw2)
    requires DecodeEntries(raw1.prayerTime, today).Some? && DecodeEntries(raw2.prayerTime, today).Some?
    requires |raw1.prayerTime| > 0 && |raw2.prayerTime| > 0
    requires raw1.zone == raw2.zone && raw1.prayerTime[0] == raw2.prayerTime[0]
    ensures PrintPrayerTimeToday(zone, fetch1, today) == PrintPrayerTimeToday(zone, fetch2, today)
  {
    var d1 := DecodePrayerData(raw1, today).value;
    var d2 := DecodePrayerData(raw2, today).value;
    assert d1.prayerTime[0] == d2.prayerTime[0];
  }

  // ---------------------------------------------------------------------------
  // A sample response
  // ---------------------------------------------------------------------------

  const SampleEntry: RawPrayerTime := RawPrayerTime(
    "1442-08-25", "08-Apr-2021",
    "05:52:00", "06:02:00", "07:09:00", "13:18:00", "16:25:00", "19:22:00", "20:32:00")

  const SampleResponse: RawPrayerData :=
    RawPrayerData([SampleEntry], "OK!", "2021-04-09 10:04:55", "today", "ms_my", "SGR01")

  /** The decoding day of the sample, a day after the entry's own date. */
  const SampleDay: Date := Date(2021, 4, 9)

  const SampleDecoded: PrayerTime := PrayerTime(
    "1442-08-25", Date(2021, 4, 8),
    DateTime(SampleDay, TimeOfDay(5, 52, 0)), DateTime(SampleDay, TimeOfDay(6, 2, 0)),
    DateTime(SampleDay, TimeOfDay(7, 9, 0)), DateTime(SampleDay, TimeOfDay(13, 18, 0)),
    DateTime(SampleDay, TimeOfDay(16, 25, 0)), DateTime(SampleDay, TimeOfDay(19, 22, 0)),
    DateTime(SampleDay, TimeOfDay(20, 32, 0)))

  /**
   * The sample response decodes to its one entry, the date as sent and the
   * times on the decoding day, with the metadata copied.
   */
  lemma SampleResponseDecodes()
    ensures DecodePrayerData(SampleResponse, SampleDay)
            == Some(PrayerData([SampleDecoded], "OK!", "2021-04-09 10:04:55", "today", "ms_my", "SGR01"))
  {
    SampleEntryDecodes();
    DecodeSingleEntry(SampleResponse, SampleDay, SampleDecoded);
  }

  /** A response holding one entry decodes to that entry alone. */
  lemma DecodeSingleEntry(raw: RawPrayerData, today: Date, p: PrayerTime)
    requires |raw.prayerTime| == 1 && DecodePrayerTime(raw.prayerTime[0], today) == Some(p)
    ensures DecodePrayerData(raw, today)
            == Some(PrayerData([p], raw.status, raw.serverTime, raw.periodType, raw.lang, raw.zone))
  {
    var entries := DecodeEntries(raw.prayerTime, today);
    assert entries.Some? && entries.value == [p];
  }

  /** The sample entry decodes to its date and to its times on the decoding day. */
  lemma SampleEntryDecodes()
    ensures DecodePrayerTime(SampleEntry, SampleDay) == Some(SampleDecoded)
  {
    SampleEncodes();
    DecodeEncodedPrayerTime(SampleDecoded, SampleDay);
  }

  /** The decoded sample entry is written back as the raw sample entry. */
  lemma SampleEncodes()
    ensures ValidPrayerTime(SampleDecoded) && EncodePrayerTime(SampleDecoded) == SampleEntry
  {
    SampleDateText();
    SampleTimeTexts();
  }

  lemma SampleDateText()
    ensures FormatDate(Date(2021, 4, 8)) == "08-Apr-2021"
  {
  }

  lemma SampleTimeTexts()
    ensures FormatTime(TimeOfDay(5, 52, 0)) == "05:52:00" && FormatTime(TimeOfDay(6, 2, 0)) == "06:02:00"
    ensures FormatTime(TimeOfDay(7, 9, 0)) == "07:09:00" && FormatTime(TimeOfDay(13, 18, 0)) == "13:18:00"
    ensures FormatTime(TimeOfDay(16, 25, 0)) == "16:25:00" && FormatTime(TimeOfDay(19, 22, 0)) == "19:22:00"
    ensures FormatTime(TimeOfDay(20, 32, 0)) == "20:32:00"
  {
    SampleMorningTimeTexts();
    SampleAfternoonTimeTexts();
  }

  lemma SampleMorningTimeTexts()
    ensures FormatTime(TimeOfDay(5, 52, 0)) == "05:52:00" && FormatTime(TimeOfDay(6, 2, 0)) == "06:02:00"
    ensures FormatTime(TimeOfDay(7, 9, 0)) == "07:09:00"
  {
  }

  lemma SampleAfternoonTimeTexts()
    ensures FormatTime(TimeOfDay(13, 18, 0)) == "13:18:00"
    ensures FormatTime(TimeOfDay(16, 25, 0)) == "16:25:00" && FormatTime(TimeOfDay(19, 22, 0)) == "19:22:00"
    ensures FormatTime(TimeOfDay(20, 32, 0)) == "20:32:00"
  {
  }

  /** The sample's heading names Thursday, 8 April 2021, and zone SGR01. */
  lemma SampleHeader()
    ensures Header("SGR01", Date(2021, 4, 8)) == "Prayer times for Thursday, 2021-04-08, zone SGR01"
  {
    SampleWeekday();
    SampleIsoDate();
  }

  /** 8 April 2021 was a Thursday: day 738253 counted from 0000-01-01, a Saturday. */
  lemma SampleWeekday()
    ensures WeekdayName(Date(2021, 4, 8)) == "Thursday"
  {
    assert DaysBeforeYear(2021) == 738156;
    assert DayNumber(Date(2021, 4, 8)) == 738253;
  }

  lemma SampleIsoDate()
    ensures FormatIsoDate(Date(2021, 4, 8)) == "2021-04-08"
  {
    assert Pad4(2021) == "2021";
  }

  /** The request for SGR01 answered with the sample response. */
  function SampleFetch(url: string): Result<RawPrayerData, string> {
    if url == TodayRequestUrl(Some("SGR01")) then Success(SampleResponse) else Failure("404 Not Found")
  }

  /** Today's report for the sample: the heading, then the six times on a 12-hour clock. */
  lemma SampleReport()
    ensures PrintPrayerTimeToday(Some("SGR01"), SampleFetch, SampleDay) == Printed([
      "Prayer times for Thursday, 2021-04-08, zone SGR01",
      "Imsak:   05:52 AM",
      "Subuh:   06:02 AM",
      "Zohor:   01:18 PM",
      "Asar:    04:25 PM",
      "Maghrib: 07:22 PM",
      "Isyak:   08:32 PM"])
  {
    SampleResponseDecodes();
    var data := PrayerData([SampleDecoded], "OK!", "2021-04-09 10:04:55", "today", "ms_my", "SGR01");
    assert SampleFetch(TodayRequestUrl(Some("SGR01"))) == Success(SampleResponse);
    assert PrintPrayerTimeToday(Some("SGR01"), SampleFetch, SampleDay) == Printed(PrintPrayerTime(data, SampleDecoded));
    SampleLines(data);
  }

  lemma SampleLines(data: PrayerData)
    requires data.zone == "SGR01"
    ensures PrintPrayerTime(data, SampleDecoded) == [
      "Prayer times for Thursday, 2021-04-08, zone SGR01",
      "Imsak:   05:52 AM",
      "Subuh:   06:02 AM",
      "Zohor:   01:18 PM",
      "Asar:    04:25 PM",
      "Maghrib: 07:22 PM",
      "Isyak:   08:32 PM"]
  {
    SampleHeader();
    SampleMorningLines();
    SampleAfternoonLines();
    var lines := PrintPrayerTime(data, SampleDecoded);
    assert lines[1] == "Imsak:   05:52 AM";
    assert lines[2] == "Subuh:   06:02 AM";
    assert lines[3] == "Zohor:   01:18 PM";
    assert lines[4] == "Asar:    04:25 PM";
    assert lines[5] == "Maghrib: 07:22 PM";
    assert lines[6] == "Isyak:   08:32 PM";
    assert lines[0] == "Prayer times for Thursday, 2021-04-08, zone SGR01";
  }

  lemma SampleMorningLines()
    ensures TimeLine(Labels[0], TimeOfDay(5, 52, 0)) == "Imsak:   05:52 AM"
    ensures TimeLine(Labels[1], TimeOfDay(6, 2, 0)) == "Subuh:   06:02 AM"
    ensures TimeLine(Labels[2], TimeOfDay(13, 18, 0)) == "Zohor:   01:18 PM"
  {
    SampleMorningClockTimes();
  }

  lemma SampleAfternoonLines()
    ensures TimeLine(Labels[3], TimeOfDay(16, 25, 0)) == "Asar:    04:25 PM"
    ensures TimeLine(Labels[4], TimeOfDay(19, 22, 0)) == "Maghrib: 07:22 PM"
    ensures TimeLine(Labels[5], TimeOfDay(20, 32, 0)) == "Isyak:   08:32 PM"
  {
    SampleAfternoonClockTimes();
  }

  lemma SampleMorningClockTimes()
    ensures Format12(TimeOfDay(5, 52, 0)) == "05:52 AM" && Format12(TimeOfDay(6, 2, 0)) == "06:02 AM"
    ensures Format12(TimeOfDay(13, 18, 0)) == "01:18 PM"
  {
  }

  lemma SampleAfternoonClockTimes()
    ensures Format12(TimeOfDay(16, 25, 0)) == "04:25 PM"
    ensures Format12(TimeOfDay(19, 22, 0)) == "07:22 PM" && Format12(TimeOfDay(20, 32, 0)) == "08:32 PM"
  {
  }
}
