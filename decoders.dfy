/**
 * The per-field decoders of a prayer-time entry: `deserialize_to_date`
 * (a `DD-Mon-YYYY` field, normalised from Malay first) and
 * `deserialize_to_time` (a bare `HH:MM:SS` field pinned to today's date).
 * A parse failure is a panic in the source; here it is `None`.
 */
module Decoders {
  import opened Wrappers
  import opened Text
  import opened Calendar
  import opened Normaliser

  // ---------------------------------------------------------------------------
  // Dates: `%d-%b-%Y`
  // ---------------------------------------------------------------------------

  /** The English month abbreviations that `%b` reads and writes, January first. */
  const ShortMonthNames: seq<string> :=
    ["Jan", "Feb", "Mar", "Apr", "May", "Jun", "Jul", "Aug", "Sep", "Oct", "Nov", "Dec"]

  /** The month (1 to 12) that a `%b` field names. */
  function MonthOfName(t: string): (r: Option<nat>)
    ensures r.Some? ==> 1 <= r.value <= 12 && ShortMonthNames[r.value - 1] == t
    ensures r.None? ==> t !in ShortMonthNames
  {
    match t
    case "Jan" => Some(1)
    case "Feb" => Some(2)
    case "Mar" => Some(3)
    case "Apr" => Some(4)
    case "May" => Some(5)
    case "Jun" => Some(6)
    case "Jul" => Some(7)
    case "Aug" => Some(8)
    case "Sep" => Some(9)
    case "Oct" => Some(10)
    case "Nov" => Some(11)
    case "Dec" => Some(12)
    case _ => None
  }

  /** `date.format("%d-%b-%Y")` for a year of at most four digits. */
  function FormatDate(d: Date): (s: string)
    requires ValidDate(d) && d.year <= 9999
    ensures |s| == 11
  {
    WireDate(Pad2(d.day), ShortMonthNames[d.month - 1], Pad4(d.year))
  }

  /**
   * `NaiveDate::parse_from_str(s, "%d-%b-%Y")`: a two-digit day, a dash, an
   * English month abbreviation, a dash and a four-digit year naming a real day.
   */
  function ParseDate(s: string): (r: Option<Date>)
    ensures r.Some? ==> ValidDate(r.value) && r.value.year <= 9999 && FormatDate(r.value) == s
  {
    if |s| == 11 && AllDigits(s[..2]) && s[2] == '-' && s[6] == '-' && AllDigits(s[7..]) then
      match MonthOfName(s[3..6])
      case None => None
      case Some(m) =>
        var d := Date(Value4(s[7..]), m, Value2(s[..2]));
        if ValidDate(d) then
          Pad2OfValue(s[..2]);
          Pad4OfValue(s[7..]);
          assert FormatDate(d) == s[..2] + "-" + s[3..6] + "-" + s[7..];
          Some(d)
        else None
    else None
  }

  /** Every date with a four-digit year is read back from its own `%d-%b-%Y` text. */
  lemma ParseFormattedDate(d: Date)
    requires ValidDate(d) && d.year <= 9999
    ensures ParseDate(FormatDate(d)) == Some(d)
  {
    var s := FormatDate(d);
    assert s[..2] == Pad2(d.day) && s[3..6] == ShortMonthNames[d.month - 1] && s[7..] == Pad4(d.year);
    assert MonthOfName(ShortMonthNames[d.month - 1]) == Some(d.month) by {
      var k := d.month - 1;
      assert ShortMonthNames[k] in ShortMonthNames;
    }
  }

  /** `deserialize_to_date`: normalise the month spelling, then parse (a failure panics). */
  function DeserializeToDate(s: string): (r: Option<Date>)
    ensures r.Some? ==> ValidDate(r.value) && r.value.year <= 9999
    ensures r.Some? ==> ConvertMyToEnDate(s) == FormatDate(r.value)
  {
    ParseDate(ConvertMyToEnDate(s))
  }

  /** The replacement table and `%b` agree on every month but March. */
  lemma EnglishTableMatchesChrono(k: nat)
    requires k < 12
    ensures EnglishMonths[k] == ShortMonthNames[k] <==> k != 2
  {
  }

  /** A date as the server writes it: the month in its Malay spelling. */
  function ServerDate(d: Date): string
    requires ValidDate(d) && d.year <= 9999
  {
    WireDate(Pad2(d.day), MalayMonths[d.month - 1], Pad4(d.year))
  }

  /**
   * Decoding a date in the server's spelling gives that date back, for
   * every month except March: "Mac" is kept as it is and `%b` rejects it.
   */
  lemma DecodeServerDate(d: Date)
    requires ValidDate(d) && d.year <= 9999
    ensures DeserializeToDate(ServerDate(d)) == if d.month == 3 then None else Some(d)
  {
    var k := d.month - 1;
    ConvertWireDate(Pad2(d.day), k, Pad4(d.year));
    EnglishTableMatchesChrono(k);
    if k == 2 {
      var t := WireDate(Pad2(d.day), EnglishMonths[2], Pad4(d.year));
      assert t[3..6] == "Mac";
      assert MonthOfName(t[3..6]).None?;
    } else {
      ParseFormattedDate(d);
    }
  }

  /** No `%b` abbreviation is one of the four rewritten Malay tokens. */
  lemma ChronoNameIsNotRewritten(k: nat, j: nat)
    requires k < 12 && j in RewrittenMonths
    ensures ShortMonthNames[k] != MalayMonths[j]
  {
  }

  /** Decoding a date written in English gives that date back. */
  lemma DecodeEnglishDate(d: Date)
    requires ValidDate(d) && d.year <= 9999
    ensures DeserializeToDate(FormatDate(d)) == Some(d)
  {
    var dd, mon, yyyy := Pad2(d.day), ShortMonthNames[d.month - 1], Pad4(d.year);
    forall j | j in RewrittenMonths ensures !Contains(FormatDate(d), MalayMonths[j]) {
      MonthTokensAreWords(j);
      ChronoNameIsNotRewritten(d.month - 1, j);
      if Contains(FormatDate(d), MalayMonths[j]) {
        LettersOnlyInMonth(dd, mon, yyyy, MalayMonths[j]);
        ContainsNoLonger(mon, MalayMonths[j]);
      }
    }
    NoMalayTokenPassesThrough(FormatDate(d));
    ParseFormattedDate(d);
  }

  /**
   * For the four rewritten months, a field spelt in Malay decodes exactly as
   * the same field spelt in English, whatever the digits are.
   */
  lemma MalaySpellingDecodesAsEnglish(dd: string, k: nat, yyyy: string)
    requires WellFormedParts(dd, yyyy) && k in RewrittenMonths
    ensures DeserializeToDate(WireDate(dd, MalayMonths[k], yyyy))
            == DeserializeToDate(WireDate(dd, EnglishMonths[k], yyyy))
  {
    ConvertWireDate(dd, k, yyyy);
    var e := WireDate(dd, EnglishMonths[k], yyyy);
    forall j | j in RewrittenMonths ensures !Contains(e, MalayMonths[j]) {
      MonthTokensAreWords(j);
      EnglishTokenIsNotRewritten(k, j);
      if Contains(e, MalayMonths[j]) {
        LettersOnlyInMonth(dd, EnglishMonths[k], yyyy, MalayMonths[j]);
        ContainsNoLonger(EnglishMonths[k], MalayMonths[j]);
      }
    }
    NoMalayTokenPassesThrough(e);
  }

  /** A field naming March in the server's spelling makes the decoder panic, whatever the digits. */
  lemma MarchIsRejected(dd: string, yyyy: string)
    requires WellFormedParts(dd, yyyy)
    ensures DeserializeToDate(WireDate(dd, "Mac", yyyy)) == None
  {
    assert MalayMonths[2] == "Mac" && EnglishMonths[2] == "Mac";
    ConvertWireDate(dd, 2, yyyy);
    var t := WireDate(dd, "Mac", yyyy);
    assert t[3..6] == "Mac";
    assert MonthOfName(t[3..6]).None?;
  }

  // ---------------------------------------------------------------------------
  // Times of day: `%H:%M:%S`
  // ---------------------------------------------------------------------------

  /** `time.format("%H:%M:%S")`. */
  function FormatTime(t: TimeOfDay): (s: string)
    requires ValidTime(t)
    ensures |s| == 8
  {
    Pad2(t.hour) + ":" + Pad2(t.minute) + ":" + Pad2(t.second)
  }

  /**
   * `NaiveTime::parse_from_str(s, "%H:%M:%S")`: two digits each for hour
   * (below 24), minute (below 60) and second (at most 60, a leap second),
   * separated by colons.
   */
  function ParseTime(s: string): (r: Option<TimeOfDay>)
    ensures r.Some? ==> ValidTime(r.value) && FormatTime(r.value) == s
  {
    if |s| == 8 && AllDigits(s[..2]) && s[2] == ':' && AllDigits(s[3..5]) && s[5] == ':'
       && AllDigits(s[6..])
    then
      var t := TimeOfDay(Value2(s[..2]), Value2(s[3..5]), Value2(s[6..]));
      if ValidTime(t) then
        Pad2OfValue(s[..2]);
        Pad2OfValue(s[3..5]);
        Pad2OfValue(s[6..]);
        assert FormatTime(t) == s[..2] + ":" + s[3..5] + ":" + s[6..];
        Some(t)
      else None
    else None
  }

  /** Every valid time of day is read back from its own `%H:%M:%S` text. */
  lemma ParseFormattedTime(t: TimeOfDay)
    requires ValidTime(t)
    ensures ParseTime(FormatTime(t)) == Some(t)
  {
    var s := FormatTime(t);
    assert s[..2] == Pad2(t.hour) && s[3..5] == Pad2(t.minute) && s[6..] == Pad2(t.second);
  }

  /**
   * `deserialize_to_time`: the parsed time of day on `today`, the local date
   * at the moment of decoding (a failure panics).
   */
  function DeserializeToTime(s: string, today: Date): (r: Option<DateTime>)
    ensures r.Some? <==> ParseTime(s).Some?
    ensures r.Some? ==> r.value.date == today && ValidTime(r.value.time) && FormatTime(r.value.time) == s
  {
    match ParseTime(s)
    case None => None
    case Some(t) => Some(DateTime(today, t))
  }

  /**
   * The same field decoded on two days gives the same time of day, and the
   * dates of the two timestamps differ exactly when the days do.
   */
  lemma DecodeTimeOnTwoDays(s: string, day1: Date, day2: Date)
    requires DeserializeToTime(s, day1).Some?
    ensures DeserializeToTime(s, day2).Some?
    ensures DeserializeToTime(s, day1).value.time == DeserializeToTime(s, day2).value.time
    ensures DeserializeToTime(s, day1) == DeserializeToTime(s, day2) <==> day1 == day2
  {
  }
}
