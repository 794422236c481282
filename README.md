# malaysia-prayertimes: a Dafny model of the prayer-time core

`malaysia-prayertimes` is a command-line client for JAKIM's e-solat service.
It fetches today's Islamic prayer times for one Malaysian zone, decodes the
JSON response and prints a seven-line report. Its `list` command prints the
58 zone codes. This project models the core of that client in Dafny:

- `Zones` (`zones.dfy`) covers the zone enumeration. It has the 58 codes in
  declaration order, with `PHGO2`–`PHGO6` spelt with a letter O as in the
  source. It also has the name each code is printed and parsed as, and the
  `list` output.
- `Normaliser` (`normaliser.dfy`) covers `convert_my_to_en_date`. The date
  text is tested for the Malay month tokens `Mei`, `Ogos`, `Okt` and `Dis`,
  in that order. Every occurrence of the first one present is rewritten to
  its English name. `str::contains` and `str::replace` are modelled in
  `Text` (`text.dfy`).
- `Decoders` (`decoders.dfy`) covers the two field decoders. The entry date
  goes through the month rewrite and then chrono's `%d-%b-%Y`. Each time goes
  through `%H:%M:%S` and is placed on the local date of the moment of
  decoding.
- `Calendar` (`calendar.dfy`) covers the proleptic Gregorian calendar the
  decoders and the report need. This includes day validity, the `%A`
  weekday name and the `YYYY-MM-DD` display of a date.
- `PrayerTimes` (`prayertime.dfy`) covers the rest:
  - the `PrayerTime` and `PrayerData` records;
  - decoding of a whole response;
  - the request URL;
  - the report of `print_prayer_time`;
  - the outcome of `print_prayer_time_today`.

Panics from `unwrap` are modelled as values:
- a field decoder returns `None`;
- today's report ends as `Panicked`.

The local clock is a `today` parameter. Printed lines are returned as a
sequence of strings. The HTTP fetch and the JSON reading are one function
parameter, `fetch`, applied to the request URL. It returns a `Result`
holding either the response's fields, still as text, or the error of that
step.

The model follows the code where the two can be read differently:

- The source's English table has `Mac` at the March position, and March is
  never rewritten. A date sent as `DD-Mac-YYYY` therefore reaches chrono
  unchanged and fails to parse, so decoding the response panics.
  `Decoders.MarchIsRejected` and `Decoders.DecodeServerDate` state this. For
  every other month, the Malay and the English spellings decode to the same
  date.
- Only the first Malay token found is rewritten. Every other rewritten token
  in the text is kept (`Normaliser.OtherTokensSurvive`), as in the example
  `Mei Dis`, which becomes `May Dis` (`Normaliser.OnlyFirstTokenRewritten`).
- Times are placed on the decoding day, not on the entry's own date. The
  sample response's 8 April entry has its times on 9 April when decoded on
  9 April.

## Model

| member | source | states |
|---|---|---|
| Zones.ZoneIndex | src/prayertime.rs:7-24 | every zone has a position below 58 in declaration order, and the zone at that position is itself |
| Zones.IndexOfZoneAt | src/prayertime.rs:7-24 | each of the 58 positions holds the zone whose position it is |
| Zones.AllZones | src/prayertime.rs:7-24 | the iteration order holds 58 zones, position by position as declared |
| Zones.AllZonesListsEachZoneOnce | src/prayertime.rs:7-24 | every zone is iterated, and at exactly one position |
| Zones.ZoneName | src/prayertime.rs:7 | every zone is displayed as a five-character code |
| Zones.ParseZone | src/prayertime.rs:7-9 | only a five-character text can be read as a zone |
| Zones.ParseZoneName | src/prayertime.rs:7-10 | the upper-case name of every zone parses back to that zone |
| Zones.ParseZoneOnlyNames | src/prayertime.rs:7-10 | a string parses to a zone only if it is that zone's printed name |
| Zones.ZoneNamesDistinct | src/prayertime.rs:7-24 | two zones are printed with the same name exactly when they are the same zone |
| Zones.ZoneListing | src/main.rs:24-29 | `list` prints a heading and then 58 lines, the zone names in declaration order, so every zone's name is among them |
| Zones.ZoneListingHasNoRepeats | src/main.rs:24-29 | no zone name is printed twice by `list` |
| Text.Contains | src/prayertime.rs:150-156 | `contains` holds when the text starts with the pattern, and only when the pattern is no longer than the text |
| Text.ContainsIffOccurs | src/prayertime.rs:150-156 | `contains` holds exactly when the pattern occurs at some index |
| Text.ReplaceAll | src/prayertime.rs:151-157 | `replace` leaves a text without the pattern unchanged, and keeps the length when the replacement has the pattern's length |
| Text.ReplaceAllAtPattern | src/prayertime.rs:151-157 | `replace` on a text starting with the pattern emits the replacement and continues after the match |
| Text.FindChar | src/prayertime.rs:40-44 | helper of the URL read-back (nothing in the client searches a string): reports the first index holding the character, and none exactly when the text lacks it |
| Text.SplitAround | src/prayertime.rs:40-44 | helper of the URL read-back: a split text is the prefix, the part before the key, the key and the rest, and the part before holds no key character |
| Text.SplitAroundOfParts | src/prayertime.rs:40-44 | helper of the URL read-back: a text built from prefix, part, key and rest splits back into that part and rest when the part holds no key character |
| Text.ReplaceAllKeepsSeparate | src/prayertime.rs:151-157 | `replace` keeps every occurrence of a pattern that cannot overlap the replaced one |
| Text.ReplaceAllSkipsPrefix | src/prayertime.rs:151-157 | `replace` copies a prefix that cannot start a match and continues on the rest |
| Normaliser.FirstContained | src/prayertime.rs:150-160 | reports the first token in the test order that the text contains, and none exactly when the text holds none of them |
| Normaliser.PriorityMonthInOrder | src/prayertime.rs:150-160 | the chosen month is `Mei`, else `Ogos`, else `Okt`, else `Dis`, else none |
| Normaliser.ConvertMyToEnDate | src/prayertime.rs:142-161 | every occurrence of the first Malay token present is replaced by its English name, and a text with none is returned unchanged |
| Normaliser.NoMalayTokenPassesThrough | src/prayertime.rs:158-160 | a text holding none of the four tokens comes back unchanged |
| Normaliser.UnrewrittenMonthsAgree | src/prayertime.rs:143-148 | the months the code does not rewrite are spelt the same in both tables |
| Normaliser.MonthTokenContents | src/prayertime.rs:143-145 | a month token contains a rewritten token exactly when it is that token |
| Normaliser.LettersOnlyInMonth | src/prayertime.rs:150-156 | in a `DD-Mon-YYYY` text, a run of letters can only be found inside the month |
| Normaliser.LetterPositions | src/prayertime.rs:150-156 | in a `DD-Mon-YYYY` text, every letter sits at a month position |
| Normaliser.ReplaceMonthToken | src/prayertime.rs:151-157 | replacing the month token of a `DD-Mon-YYYY` text changes the month and nothing else |
| Normaliser.ConvertWireDate | src/prayertime.rs:142-161 | a `DD-Mon-YYYY` text with any Malay month comes back with the month from the English table |
| Normaliser.EnglishTokenIsNotRewritten | src/prayertime.rs:143-148 | no English month name is one of the rewritten Malay tokens |
| Normaliser.EnglishTokenHoldsNoRewrittenToken | src/prayertime.rs:143-148 | no English month name contains a rewritten Malay token |
| Normaliser.ConvertedWireDateHasNoRewrittenToken | src/prayertime.rs:142-161 | after conversion, a `DD-Mon-YYYY` text holds no rewritten Malay token |
| Normaliser.RewrittenTokensSeparate | src/prayertime.rs:150-157 | no two of `Mei`, `Ogos`, `Okt` and `Dis` can overlap in a text |
| Normaliser.OtherTokensSurvive | src/prayertime.rs:150-157 | in any text, every rewritten Malay token other than the chosen one is still present after the conversion |
| Normaliser.OnlyFirstTokenRewritten | src/prayertime.rs:150-157 | the example text `Mei Dis` becomes `May Dis` |
| Calendar.DaysInMonth | src/prayertime.rs:138 | months have 28 to 31 days, and 29 exactly for February of a leap year |
| Calendar.DaysBeforeNextYear | src/prayertime.rs:85 | the day count advances by the length of each year |
| Calendar.DaysBeforeMonthIsSum | src/prayertime.rs:85 | the day count within a year advances by the length of each month |
| Calendar.NextDay | src/prayertime.rs:85 | the next valid day is numbered one higher |
| Calendar.WeekdayOfNextDay | src/prayertime.rs:85 | the weekday advances by one, modulo seven, from one day to the next |
| Calendar.Weekday | src/prayertime.rs:85 | the weekday index of a valid date is below seven (0 is Monday) |
| Calendar.WeekdayName | src/prayertime.rs:85 | `%A` writes one of the seven English weekday names |
| Calendar.FormatIsoDate | src/prayertime.rs:86 | a date up to year 9999 is displayed in ten characters with dashes at positions 4 and 7; a later year starts with `+` |
| Calendar.IsoDateRoundTrip | src/prayertime.rs:86 | the `YYYY-MM-DD` display of a date reads back as that date |
| Decoders.MonthOfName | src/prayertime.rs:138 | `%b` accepts exactly the twelve English abbreviations, and yields the month of the matching one |
| Decoders.ParseDate | src/prayertime.rs:138 | a parsed date is a real day, and its `%d-%b-%Y` text is the input |
| Decoders.ParseFormattedDate | src/prayertime.rs:138 | every date up to year 9999 reads back from its `%d-%b-%Y` text |
| Decoders.DeserializeToDate | src/prayertime.rs:132-140 | a decoded date is a real day, and the rewritten input is its `%d-%b-%Y` text |
| Decoders.EnglishTableMatchesChrono | src/prayertime.rs:146-148 | the source's English table agrees with chrono's `%b` names except at March |
| Decoders.DecodeServerDate | src/prayertime.rs:132-161 | a date sent with the Malay month decodes to itself, except in March, where decoding fails |
| Decoders.DecodeEnglishDate | src/prayertime.rs:132-140 | a date sent with the English month decodes to itself |
| Decoders.MalaySpellingDecodesAsEnglish | src/prayertime.rs:132-161 | for the rewritten months, the Malay and the English spelling decode alike |
| Decoders.MarchIsRejected | src/prayertime.rs:143-148 | any `DD-Mac-YYYY` text fails to decode |
| Decoders.ChronoNameIsNotRewritten | src/prayertime.rs:143-148 | no chrono month name is one of the rewritten Malay tokens |
| Decoders.ParseTime | src/prayertime.rs:128 | a parsed time is a real time of day, and its `%H:%M:%S` text is the input |
| Decoders.ParseFormattedTime | src/prayertime.rs:128 | every time of day reads back from its `%H:%M:%S` text |
| Decoders.DeserializeToTime | src/prayertime.rs:122-130 | a time field decodes exactly when it parses, to that time on the decoding day |
| Decoders.DecodeTimeOnTwoDays | src/prayertime.rs:122-130 | the decoded time of day does not depend on the day, and the timestamps are equal exactly when the days are |
| PrayerTimes.DecodePrayerTime | src/prayertime.rs:99-119 | a decoded entry has a real date up to year 9999 and real times of day |
| PrayerTimes.DecodePrayerTimeFields | src/prayertime.rs:99-140 | an entry decodes exactly when its date and all seven times parse; the result keeps the Hijri text, lies on the decoding day and re-encodes to the raw fields |
| PrayerTimes.EncodeDecodedPrayerTime | src/prayertime.rs:99-140 | encoding a decoded entry gives back the raw entry, with its date month-rewritten |
| PrayerTimes.DecodeEncodedPrayerTime | src/prayertime.rs:99-140 | every valid entry whose times lie on the decoding day decodes from its own encoding |
| PrayerTimes.DecodeEach | src/prayertime.rs:26-28 | a list decodes exactly when every element does, to the decoded elements position by position |
| PrayerTimes.DecodeEntries | src/prayertime.rs:26-28 | the entry list decodes exactly when every entry does, to the decoded entries position by position, each valid |
| PrayerTimes.DecodePrayerData | src/prayertime.rs:26-36 | a response decodes exactly when its entries do; the decoded entries are those of the entry list, all valid and as many as were sent, and the metadata is copied |
| PrayerTimes.DecodeSingleEntry | src/prayertime.rs:26-36 | a response with one decodable entry decodes to that entry alone, metadata copied |
| PrayerTimes.RequestUrl | src/prayertime.rs:40-44 | the request starts with the e-solat TakwimSolat address |
| PrayerTimes.QueryParams | src/prayertime.rs:40-44 | a read-back period and zone rebuild the URL, and the period holds no `&` |
| PrayerTimes.QueryParamsOfRequestUrl | src/prayertime.rs:40-44 | a period without `&` and any zone are read back as given, with the defaults `today` and `SGR01` filled in |
| PrayerTimes.AmpersandInPeriodIsNotRecovered | src/prayertime.rs:40-44 | a period holding `&` is not read back, because nothing is escaped |
| PrayerTimes.DefaultZoneIsKnown | src/prayertime.rs:43 | the default zone `SGR01` is a known zone |
| PrayerTimes.TodayRequestUrl | src/prayertime.rs:72 | today's request asks for period `today` and the given zone or the default |
| PrayerTimes.TodayCommandRequestsChosenZone | src/main.rs:20-22 | `today` requests the zone chosen on the command line, by a name that parses back to it |
| PrayerTimes.Hour12 | src/prayertime.rs:90-95 | `%I` shows an hour from 1 to 12 that agrees with the 24-hour hour modulo 12 |
| PrayerTimes.Meridiem | src/prayertime.rs:90-95 | `%p` is `AM` exactly before noon and `PM` otherwise |
| PrayerTimes.Format12 | src/prayertime.rs:90-95 | `%I:%M %p` is eight characters long |
| PrayerTimes.Parse12OfFormat12 | src/prayertime.rs:90-95 | the 12-hour text gives back the hour and minute it was written from |
| PrayerTimes.PrintedTimes | src/prayertime.rs:90-95 | the report shows six times, each a real time of day |
| PrayerTimes.Header | src/prayertime.rs:83-88 | the heading starts with `Prayer times for ` and ends with the response's zone |
| PrayerTimes.HeaderReadBack | src/prayertime.rs:83-88 | after the prefix the heading shows the date's `%A` weekday name, then after `, ` its `YYYY-MM-DD` display, which reads back as the date |
| PrayerTimes.TimeLine | src/prayertime.rs:90-95 | a time line is its label followed by eight characters of clock time |
| PrayerTimes.PrintPrayerTime | src/prayertime.rs:82-96 | the report is the heading and then the six labelled times (imsak, fajr, dhuhr, asr, maghrib, isha) on a 12-hour clock |
| PrayerTimes.ReportShowsTimes | src/prayertime.rs:90-95 | each time line starts with its label and reads back as that time's hour and minute |
| PrayerTimes.ReportIgnoresUnprintedFields | src/prayertime.rs:82-96 | the report does not depend on syuruk, the Hijri date, seconds, other metadata or the timestamps' dates |
| PrayerTimes.PrintPrayerTimeToday | src/prayertime.rs:71-80 | today's request URL for the zone is fetched; a fetch error is returned as is, a failing field panics, a response without entries fails with "No valid prayer time found", and otherwise seven lines are printed |
| PrayerTimes.TodayReportShowsFirstEntry | src/prayertime.rs:73-78 | a printed report is that of the first entry, with its rewritten date in the heading and its times from the raw fields |
| PrayerTimes.OnlyFirstEntryPrinted | src/prayertime.rs:73-78 | two decodable responses with the same zone and first entry print the same report |
| PrayerTimes.SampleResponseDecodes | src/prayertime.rs:171-175 | the sample response decodes to its entry dated 8 April 2021 with its times on the decoding day, 9 April 2021 |
| PrayerTimes.SampleEntryDecodes | src/prayertime.rs:171-173 | the sample entry decodes to its 8 April 2021 date and its times on the decoding day |
| PrayerTimes.SampleEncodes | src/prayertime.rs:171-173 | the sample's decoded entry encodes to the raw sample entry |
| PrayerTimes.SampleDateText | src/prayertime.rs:138 | 8 April 2021 is written `08-Apr-2021` |
| PrayerTimes.SampleTimeTexts | src/prayertime.rs:128 | the sample's seven times are written in `%H:%M:%S` as sent |
| PrayerTimes.SampleWeekday | src/prayertime.rs:85 | 8 April 2021 is a Thursday |
| PrayerTimes.SampleIsoDate | src/prayertime.rs:86 | 8 April 2021 is displayed as `2021-04-08` |
| PrayerTimes.SampleHeader | src/prayertime.rs:83-88 | the sample's heading reads "Prayer times for Thursday, 2021-04-08, zone SGR01" |
| PrayerTimes.SampleReport | src/prayertime.rs:71-96 | today's report for the sample is its heading and the six times from 05:52 AM to 08:32 PM |
| PrayerTimes.SampleLines | src/prayertime.rs:82-96 | the report lines of the sample entry, exactly |
| PrayerTimes.SampleMorningLines | src/prayertime.rs:90-92 | the imsak, subuh and zohor lines of the sample, exactly |
| PrayerTimes.SampleAfternoonLines | src/prayertime.rs:93-95 | the asar, maghrib and isyak lines of the sample, exactly |
| PrayerTimes.SampleMorningClockTimes | src/prayertime.rs:90-92 | the sample's imsak, subuh and zohor times on a 12-hour clock |
| PrayerTimes.SampleAfternoonClockTimes | src/prayertime.rs:93-95 | the sample's asar, maghrib and isyak times on a 12-hour clock |

## Left out

- The HTTP request (`reqwest::get`, the response text) and `serde_json` are not modelled. The JSON grammar, camelCase field names and ignored extra fields such as `day` and `bearing` are not modelled either. The `fetch` parameter returns the response already split into fields, or the error of that step.
- `Local::now()` is a `today` parameter. The source reads the clock once per time field. A decode that straddles midnight could therefore place the times of one entry on two days. The model uses one day for the whole response.
- `println!` is modelled as the returned lines. Writing to the terminal is left out.
- `main`'s command-line parsing (`clap`), the configuration file (`src/config.rs`) and the `eyre` error types are not modelled. Of `main`, only the `today` and `list` commands are covered.
- `PrayerData::print_waktu_solat_today` is deprecated and unused. It prints the same report as `print_prayer_time`, but panics on an empty list.
- `get_waktu_zones` is an unused HTTP fetch with no result.
- Decoders.MonthOfName: chrono's `%b` also accepts month names in any letter case; the model accepts only the canonical spelling, as the `Decoders.ParseDate` line below says.
- Decoders.ParseDate: chrono's leniencies are not modelled. These are one-digit or space-padded days, case-insensitive month names, and years other than four unsigned digits. The model accepts only the strict `DD-Mon-YYYY` form, so for such inputs it is weaker than chrono.
- Decoders.ParseTime: chrono's acceptance of one-digit fields and of whitespace before a numeric field is not modelled. Only `HH:MM:SS` with two-digit fields is accepted.
- Calendar.FormatIsoDate: negative years are not modelled. Dates are `nat` years, and a year above 9999 is written with a `+` sign.
- The source has no encoder. `Decoders.FormatDate` (`%d-%b-%Y`) and `PrayerTimes.EncodePrayerTime` exist only so that the round-trip lemmas can be stated.
- `CACHE_DIR` (src/config.rs:17) is not used by the prayer-time code and is not modelled. The requested period is a plain string (src/prayertime.rs:42), as in the model.
- PrayerTimes.PrintPrayerTimeToday: the model reads the whole JSON body first and decodes the fields afterwards, so a JSON error always wins over a field that fails to decode. In the source, `serde_json::from_str` (src/prayertime.rs:48) runs the field decoders while it reads the body (src/prayertime.rs:103-118). A field whose `unwrap` fails (src/prayertime.rs:128, :138) before the JSON error is reached therefore panics. An example is an entry dated `01-Mac-2024` in a body without a `status` key. The model gives `Failed` for it, but the source panics.
