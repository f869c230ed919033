/**
 * DateTime values as the date field handles them: a tick count and a kind. The culture-dependent
 * services of the runtime (parsing with a culture, formatting with a pattern, conversion to UTC)
 * are uninterpreted functions passed in a Globalization value.
 */
module DateValues {
  import opened Wrappers
  import opened Text
  import opened Decimal

  /** DateTime.MaxValue.Ticks: the last tick of 31 December 9999. */
  const MaxTicks: int := 3155378975999999999

  /** The ticks a DateTime can hold; new DateTime(long) throws outside this range. */
  type Ticks = t: int | 0 <= t <= MaxTicks

  datatype DateTimeKind = Unspecified | Utc | Local

  /**
   * A System.DateTime. C# compares two DateTime values by their ticks alone, ignoring the kind,
   * so every comparison the field makes (with MinValue, across a round trip) is on `ticks`.
   */
  datatype DateTime = DateTime(ticks: Ticks, kind: DateTimeKind)

  /** DateTime.MinValue */
  const MinValue: DateTime := DateTime(0, Unspecified)

  /** Why a read threw: long.Parse refused the text, the ticks were out of range, or a null was dereferenced. */
  datatype Fault = Unparsable(reason: ParseFault) | TicksOutOfRange | NullReference

  /**
   * The runtime services the field calls and the model does not interpret:
   * DateTime.TryParse(text, culture), whether new CultureInfo(name) succeeds, DateTime.ToString(format),
   * DateTime.ToUniversalTime() (as the ticks of the UTC value), and CustomData's ParseDateTime.
   */
  datatype Globalization = Globalization(
    tryParse: (string, string) -> Option<DateTime>,
    cultureExists: string -> bool,
    format: (DateTime, string) -> string,
    toUniversalTicks: DateTime -> Ticks,
    parseStored: Option<string> -> Option<DateTime>)

  /** The culture of values written by earlier versions of the platform. */
  const LegacyCulture: string := "NL-nl"

  /** new DateTime(long.Parse(raw)) */
  function FromTickText(raw: string): (r: Result<DateTime, Fault>)
    ensures ParseLong(raw).Err? ==> r == Err(Unparsable(ParseLong(raw).error))
    ensures ParseLong(raw).Ok? ==> (r.Ok? <==> 0 <= ParseLong(raw).value <= MaxTicks)
    ensures r.Ok? ==> r.value == DateTime(ParseLong(raw).value, Unspecified)
    ensures r.Err? && ParseLong(raw).Ok? ==> r == Err(TicksOutOfRange)
  {
    match ParseLong(raw)
    case Err(e) => Err(Unparsable(e))
    case Ok(t) => if 0 <= t <= MaxTicks then Ok(DateTime(t, Unspecified)) else Err(TicksOutOfRange)
  }

  /**
   * The dual encoding of stored date text: empty or null reads as no date; text with a '-' is a date
   * written with the NL culture by earlier versions and reads as no date when it does not parse;
   * any other text is a tick count, and long.Parse or the DateTime constructor throw when it is not one.
   */
  function ReadLegacyDate(g: Globalization, raw: Option<string>): (r: Result<Option<DateTime>, Fault>)
    ensures IsNullOrEmpty(raw) ==> r == Ok(None)
    ensures !IsNullOrEmpty(raw) && '-' in raw.value ==> r == Ok(g.tryParse(raw.value, LegacyCulture))
    ensures r.Err? ==> !IsNullOrEmpty(raw) && '-' !in raw.value
    ensures r == Ok(None) && !IsNullOrEmpty(raw) ==> '-' in raw.value
    ensures r.Ok? && r.value.Some? && '-' !in raw.value ==>
              r.value.value.kind == Unspecified && ParseLong(raw.value) == Ok(r.value.value.ticks)
    ensures !IsNullOrEmpty(raw) && '-' !in raw.value ==>
              (r.Ok? <==> ParseLong(raw.value).Ok? && 0 <= ParseLong(raw.value).value <= MaxTicks)
    ensures !IsNullOrEmpty(raw) && '-' !in raw.value && r.Ok? ==>
              r.value == Some(DateTime(ParseLong(raw.value).value, Unspecified))
  {
    if IsNullOrEmpty(raw) then Ok(None)
    else if '-' in raw.value then Ok(g.tryParse(raw.value, LegacyCulture))
    else
      match FromTickText(raw.value)
      case Err(e) => Err(e)
      case Ok(d) => Ok(Some(d))
  }

  /** The text WriteCandidate hands back: the candidate's ticks in decimal, or null. */
  function TickText(c: Option<DateTime>): (r: Option<string>)
    ensures r.None? <==> c.None?
    ensures r.Some? ==> AllDigits(r.value) && |r.value| >= 1
  {
    if c.Some? then Some(NatToString(c.value.ticks)) else None
  }

  /**
   * The round trip of the date field: the tick text written for a candidate reads back, through the
   * dual encoding, as a date with the same ticks; an absent candidate reads back as absent.
   */
  lemma TickTextRoundTrip(g: Globalization, c: Option<DateTime>)
    ensures ReadLegacyDate(g, TickText(c)).Ok?
    ensures c.None? ==> ReadLegacyDate(g, TickText(c)) == Ok(None)
    ensures c.Some? ==> ReadLegacyDate(g, TickText(c)) == Ok(Some(DateTime(c.value.ticks, Unspecified)))
  {
    if c.Some? {
      var s := NatToString(c.value.ticks);
      assert forall i :: 0 <= i < |s| ==> s[i] != '-';
      ParseNatToString(c.value.ticks);
    }
  }

  /**
   * What a custom-data bag stores for a candidate: null for no date and for DateTime.MinValue,
   * otherwise the ticks in decimal.
   */
  function StoredText(c: Option<DateTime>): (r: Option<string>)
    ensures r.None? <==> c.None? || c.value.ticks == MinValue.ticks
    ensures r.Some? ==> AllDigits(r.value) && DigitsValue(r.value) == c.value.ticks
  {
    if c.None? || c.value.ticks == MinValue.ticks then None
    else
      NatToStringValue(c.value.ticks);
      Some(NatToString(c.value.ticks))
  }

  /**
   * The candidate read from the submitted form in edit mode. An empty value, an unknown culture name
   * (the CultureInfo constructor throws and the exception is swallowed) or text that does not parse
   * give no date. A parsed date is converted to UTC when the current list asks for it and it is not
   * UTC already; without a current list the test throws after the date was taken, and the exception
   * is swallowed, so the parsed date stays.
   */
  function ReadSubmitted(g: Globalization, form: Option<string>, culture: string, convertUtc: Option<bool>): (r: Option<DateTime>)
    ensures r.Some? <==> !IsNullOrEmpty(form) && g.cultureExists(culture) && g.tryParse(form.value, culture).Some?
    ensures r.Some? ==>
              var parsed := g.tryParse(form.value, culture).value;
              if convertUtc == Some(true) && parsed.kind != Utc
              then r.value == DateTime(g.toUniversalTicks(parsed), Utc)
              else r.value == parsed
    ensures r.Some? && convertUtc == Some(true) ==> r.value.kind == Utc
  {
    if IsNullOrEmpty(form) || !g.cultureExists(culture) then None
    else
      match g.tryParse(form.value, culture)
      case None => None
      case Some(parsed) =>
        if convertUtc == Some(true) && parsed.kind != Utc
        then Some(DateTime(g.toUniversalTicks(parsed), Utc))
        else Some(parsed)
  }
}
