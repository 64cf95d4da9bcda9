/** The text form of an instant, as bytes: what the job-state writer prints and what the transcript
    readers parse. Both work on the calendar of module Calendar. */
module Timestamps {
  import opened Basics
  import opened Calendar

  const DASH: byte := 45
  const DOT: byte := 46
  const PLUS: byte := 43
  const COLON: byte := 58
  const TEE: byte := 84
  const ZED: byte := 90

  const LAST_DAY_OF_9999: int := 2_932_896
  const END_OF_9999_MS: int := 253_402_300_799_999

  // ---------------------------------------------------------------- numbers

  function Pow10(n: nat): nat {
    if n == 0 then 1 else 10 * Pow10(n - 1)
  }

  /** `{n:0width$}`: decimal digits, zero-padded to at least `width`. */
  function Padded(n: nat, width: nat): seq<byte>
    decreases n + width
  {
    if width == 0 && n == 0 then []
    else Padded(n / 10, if width == 0 then 0 else width - 1) + [48 + n % 10]
  }

  predicate IsDigits(s: seq<byte>) {
    forall i :: 0 <= i < |s| ==> 48 <= s[i] <= 57
  }

  function Value(s: seq<byte>): nat
    requires IsDigits(s)
  {
    if s == [] then 0 else 10 * Value(s[..|s| - 1]) + (s[|s| - 1] - 48)
  }

  /** `str::parse::<i64>`: an optional sign and at least one digit. */
  function ParseI64(s: seq<byte>): Option<int> {
    var signed := s != [] && (s[0] == PLUS || s[0] == DASH);
    var digits := if signed then s[1..] else s;
    if digits == [] || !IsDigits(digits) then None
    else
      var value: int := if signed && s[0] == DASH then -(Value(digits) as int) else Value(digits);
      if I64_MIN <= value <= I64_MAX then Some(value) else None
  }

  lemma {:induction false} PaddedIsValue(n: nat, width: nat)
    requires n < Pow10(width)
    ensures |Padded(n, width)| == width && IsDigits(Padded(n, width)) && Value(Padded(n, width)) == n
    decreases width
  {
    if width > 0 {
      PaddedIsValue(n / 10, width - 1);
      var front := Padded(n / 10, width - 1);
      assert Padded(n, width)[..width - 1] == front;
    }
  }

  lemma {:induction false} ValueIsPadded(s: seq<byte>)
    requires IsDigits(s)
    ensures Value(s) < Pow10(|s|) && Padded(Value(s), |s|) == s
  {
    if s != [] {
      var front := s[..|s| - 1];
      ValueIsPadded(front);
      assert Value(s) / 10 == Value(front) && Value(s) % 10 == s[|s| - 1] - 48;
      assert s == front + [s[|s| - 1]];
    }
  }

  lemma ParsesDigits(s: seq<byte>)
    requires IsDigits(s) && 0 < |s| <= 4
    ensures ParseI64(s) == Some(Value(s)) && 0 <= Value(s) < 10_000 && (|s| == 3 ==> Value(s) < 1_000)
  {
    ValueIsPadded(s);
    Powers();
  }

  lemma ParsesNegative(k: byte)
    requires 48 <= k <= 57
    ensures ParseI64([DASH, k]) == Some(-(k - 48))
  {
    var digits: seq<byte> := [k];
    var s: seq<byte> := [DASH, k];
    assert s[1..] == digits && digits[..0] == [];
    assert IsDigits(digits) && Value(digits) == k - 48;
  }

  lemma ParsesMillis(millis: seq<byte>)
    requires IsDigits(millis) && |millis| == 3
    ensures ParseFraction([DOT] + millis) == Some(Value(millis))
  {
    assert ([DOT] + millis)[1..] == millis && millis[..3] == millis;
  }

  lemma Powers()
    ensures Pow10(1) == 10 && Pow10(2) == 100 && Pow10(3) == 1_000 && Pow10(4) == 10_000
  {
  }

  // ---------------------------------------------------------------- printing

  lemma {:induction false} YearsAdvance(a: int, b: int)
    requires a <= b
    ensures CivilFromDays(a).year <= CivilFromDays(b).year
    decreases b - a
  {
    hide CivilFromDays;
    if a < b {
      YearsAdvance(a, b - 1);
      PrintsTheCalendar(b - 1);
    }
  }

  lemma PrintedYear(days: nat)
    ensures 1970 <= CivilFromDays(days).year && IsDate(CivilFromDays(days))
    ensures days <= LAST_DAY_OF_9999 <==> CivilFromDays(days).year <= 9999
  {
    hide CivilFromDays;
    PrintsTheCalendar(0);
    YearsAdvance(0, days);
    DaysRoundTrip(days);
    LastDay();
    DateRoundTrip(Date(9999, 12, 31));
    if days <= LAST_DAY_OF_9999 {
      YearsAdvance(days, LAST_DAY_OF_9999);
    } else {
      PrintsTheCalendar(LAST_DAY_OF_9999);
      YearsAdvance(LAST_DAY_OF_9999 + 1, days);
    }
  }

  lemma LastDay()
    ensures DaysFromCivil(Date(9999, 12, 31)) == LAST_DAY_OF_9999
  {
  }

  /** The fields of a 24-byte text, at their fixed places. */
  datatype Fields = Fields(year: seq<byte>, month: seq<byte>, day: seq<byte>,
                           hour: seq<byte>, minute: seq<byte>, second: seq<byte>, millis: seq<byte>)

  predicate Fits(f: Fields) {
    && |f.year| == 4 && |f.month| == 2 && |f.day| == 2 && |f.hour| == 2 && |f.minute| == 2 && |f.second| == 2
       && |f.millis| == 3
  }

  predicate Sized(f: Fields) {
    && Fits(f)
    && IsDigits(f.year) && IsDigits(f.month) && IsDigits(f.day)
    && IsDigits(f.hour) && IsDigits(f.minute) && IsDigits(f.second) && IsDigits(f.millis)
  }

  /** Three fields with two separators between. */
  function Joined(a: seq<byte>, b: seq<byte>, c: seq<byte>, separator: byte): seq<byte> {
    a + [separator] + b + [separator] + c
  }

  function Text(f: Fields): seq<byte> {
    Joined(f.year, f.month, f.day, DASH) + [TEE] + Joined(f.hour, f.minute, f.second, COLON) + [DOT] + f.millis + [ZED]
  }

  /** Instants before the epoch print as the epoch. */
  function FieldsOf(epochMs: int): Fields {
    var since := Max(epochMs, 0);
    var secs, millis := since / 1_000, since % 1_000;
    var days, secsOfDay := secs / 86_400, secs % 86_400;
    PrintedYear(days);
    var date := CivilFromDays(days);
    Fields(Padded(date.year, 4), Padded(date.month, 2), Padded(date.day, 2),
           Padded(secsOfDay / 3_600, 2), Padded(secsOfDay % 3_600 / 60, 2), Padded(secsOfDay % 60, 2),
           Padded(millis, 3))
  }

  function Print(epochMs: int): seq<byte> {
    Text(FieldsOf(epochMs))
  }

  // ---------------------------------------------------------------- parsing

  predicate HasShape(body: seq<byte>) {
    |body| >= 19 && body[4] == DASH && body[7] == DASH && body[10] == TEE && body[13] == COLON && body[16] == COLON
  }

  /** The fraction is cut to milliseconds. */
  function ParseFraction(fraction: seq<byte>): Option<int> {
    if fraction == [] then Some(0)
    else if fraction[0] != DOT then None
    else
      var digits := fraction[1..];
      if digits == [] || !IsDigits(digits) then None
      else
        var kept := digits[..Min(|digits|, 3)];
        Some(Value(kept) * (if |kept| == 1 then 100 else if |kept| == 2 then 10 else 1))
  }

  function CheckedI64(x: int): Option<int> {
    if I64_MIN <= x <= I64_MAX then Some(x) else None
  }

  function Instant(date: Date, hour: int, minute: int, second: int, millis: int): Option<int> {
    var daySeconds := CheckedI64(DaysFromCivil(date) * 86_400);
    if daySeconds.None? then None else
    var secs := CheckedI64(daySeconds.value + (hour * 3_600 + minute * 60 + second));
    if secs.None? then None else
    var ms := CheckedI64(secs.value * 1_000);
    if ms.None? then None else CheckedI64(ms.value + millis)
  }

  function Parse(text: seq<byte>): Option<int> {
    if text == [] || text[|text| - 1] != ZED then None else
    var body := text[..|text| - 1];
    if !HasShape(body) then None else
    var year, month, day := ParseI64(body[0..4]), ParseI64(body[5..7]), ParseI64(body[8..10]);
    var hour, minute, second := ParseI64(body[11..13]), ParseI64(body[14..16]), ParseI64(body[17..19]);
    if year.None? || month.None? || day.None? || hour.None? || minute.None? || second.None? then None
    else if !(1 <= month.value <= 12) || hour.value > 23 || minute.value > 59 || second.value > 59 then None
    else if day.value < 1 || day.value > DaysInMonth(year.value, month.value) then None
    else
      var millis := ParseFraction(body[19..]);
      if millis.None? then None
      else Instant(Date(year.value, month.value, day.value), hour.value, minute.value, second.value, millis.value)
  }

  // ---------------------------------------------------------------- round trips

  lemma JoinedInPlace(a: seq<byte>, b: seq<byte>, c: seq<byte>, separator: byte)
    ensures var j, n, m := Joined(a, b, c, separator), |a|, |a| + 1 + |b|;
            && |j| == m + 1 + |c| && j[n] == separator && j[m] == separator
            && j[..n] == a && j[n + 1..m] == b && j[m + 1..] == c
  {
  }

  lemma FieldsInPlace(f: Fields)
    requires Fits(f)
    ensures var t := Text(f); var body := t[..|t| - 1];
            && |t| == 24 && t[23] == ZED && HasShape(body)
            && body[0..4] == f.year && body[5..7] == f.month && body[8..10] == f.day
            && body[11..13] == f.hour && body[14..16] == f.minute && body[17..19] == f.second
            && body[19..] == [DOT] + f.millis
  {
    hide Joined;
    var date, time := Joined(f.year, f.month, f.day, DASH), Joined(f.hour, f.minute, f.second, COLON);
    JoinedInPlace(f.year, f.month, f.day, DASH);
    JoinedInPlace(f.hour, f.minute, f.second, COLON);
    var body := Text(f)[..23];
    assert body[..10] == date && body[11..19] == time && body[10] == TEE && body[19..] == [DOT] + f.millis;
    assert body[0..4] == date[..4] && body[5..7] == date[5..7] && body[8..10] == date[8..];
    assert body[11..13] == time[..2] && body[14..16] == time[3..5] && body[17..19] == time[6..];
    assert body[4] == date[4] && body[7] == date[7] && body[13] == time[2] && body[16] == time[5];
  }

  predicate InRange(f: Fields)
    requires Sized(f)
  {
    && IsDate(Date(Value(f.year), Value(f.month), Value(f.day)))
    && Value(f.hour) <= 23 && Value(f.minute) <= 59 && Value(f.second) <= 59
  }

  function MillisOf(f: Fields): int
    requires Sized(f)
  {
    ((DaysFromCivil(Date(Value(f.year), Value(f.month), Value(f.day))) * 86_400
      + Value(f.hour) * 3_600 + Value(f.minute) * 60 + Value(f.second)) * 1_000) + Value(f.millis)
  }

  lemma DaysAreSmall(d: Date)
    requires IsDate(d) && -999 <= d.year <= 9999
    ensures -2_000_000 <= DaysFromCivil(d) <= 5_000_000
  {
  }

  /** With unsigned fields the parser accepts exactly the texts that name a real date and time, and
      yields that instant. */
  lemma ParsesFields(f: Fields)
    requires Sized(f)
    ensures Parse(Text(f)) == if InRange(f) then Some(MillisOf(f)) else None
  {
    hide DaysFromCivil, Text, ParseI64, ParseFraction, Value, HasShape;
    FieldsInPlace(f);
    ParsesDigits(f.year);
    ParsesDigits(f.month);
    ParsesDigits(f.day);
    ParsesDigits(f.hour);
    ParsesDigits(f.minute);
    ParsesDigits(f.second);
    ParsesDigits(f.millis);
    ParsesMillis(f.millis);
    if InRange(f) {
      DaysAreSmall(Date(Value(f.year), Value(f.month), Value(f.day)));
    }
  }

  lemma PrintedFields(epochMs: int)
    requires 0 <= epochMs <= END_OF_9999_MS
    ensures Sized(FieldsOf(epochMs)) && InRange(FieldsOf(epochMs)) && MillisOf(FieldsOf(epochMs)) == epochMs
  {
    hide CivilFromDays, DaysFromCivil, Padded, Value, Pow10, IsDigits;
    var secs, millis := epochMs / 1_000, epochMs % 1_000;
    var days, secsOfDay := secs / 86_400, secs % 86_400;
    PrintedYear(days);
    DaysRoundTrip(days);
    var date := CivilFromDays(days);
    Powers();
    PaddedIsValue(date.year, 4);
    PaddedIsValue(date.month, 2);
    PaddedIsValue(date.day, 2);
    PaddedIsValue(secsOfDay / 3_600, 2);
    PaddedIsValue(secsOfDay % 3_600 / 60, 2);
    PaddedIsValue(secsOfDay % 60, 2);
    PaddedIsValue(millis, 3);
  }

  lemma {:induction false} PaddedIsDigits(n: nat, width: nat)
    ensures IsDigits(Padded(n, width)) && |Padded(n, width)| >= width
    ensures n >= Pow10(width) ==> |Padded(n, width)| > width
    decreases n + width
  {
    if width > 0 || n > 0 {
      PaddedIsDigits(n / 10, if width == 0 then 0 else width - 1);
    }
  }

  lemma LongYearHasNoShape(f: Fields)
    requires |f.year| > 4 && IsDigits(f.year)
    ensures var t := Text(f); t != [] && !HasShape(t[..|t| - 1])
  {
    var t := Text(f);
    assert t[4] == f.year[4];
    assert |t| > 5 && t[..|t| - 1][4] == t[4];
  }

  lemma LateIsRejected(epochMs: int)
    requires epochMs > END_OF_9999_MS
    ensures Parse(Print(epochMs)) == None
  {
    hide CivilFromDays, Padded, IsDigits, Text;
    var days := epochMs / 1_000 / 86_400;
    PrintedYear(days);
    Powers();
    PaddedIsDigits(CivilFromDays(days).year, 4);
    LongYearHasNoShape(FieldsOf(epochMs));
  }

  /** Printing any instant and parsing it back: the identity for every millisecond from the epoch to the
      end of year 9999, the epoch for earlier ones, and a rejection for later ones, whose year has five
      digits. */
  lemma PrintThenParse(epochMs: int)
    ensures epochMs <= END_OF_9999_MS ==> |Print(epochMs)| == 24
    ensures Parse(Print(epochMs)) == if epochMs <= END_OF_9999_MS then Some(Max(epochMs, 0)) else None
  {
    hide Parse, FieldsOf, MillisOf, InRange, Text, HasShape;
    if epochMs <= END_OF_9999_MS {
      var shown := Max(epochMs, 0);
      EarlyPrintsEpoch(epochMs);
      PrintedFields(shown);
      FieldsInPlace(FieldsOf(shown));
      ParsesFields(FieldsOf(shown));
    } else {
      LateIsRejected(epochMs);
    }
  }

  lemma EarlyPrintsEpoch(epochMs: int)
    ensures Print(epochMs) == Print(Max(epochMs, 0))
  {
  }

  lemma SplitInstant(days: nat, hour: nat, minute: nat, second: nat, millis: nat)
    requires hour <= 23 && minute <= 59 && second <= 59 && millis < 1_000
    ensures var ms := (days * 86_400 + hour * 3_600 + minute * 60 + second) * 1_000 + millis;
            var secsOfDay := ms / 1_000 % 86_400;
            && ms % 1_000 == millis && ms / 1_000 / 86_400 == days
            && secsOfDay / 3_600 == hour && secsOfDay % 3_600 / 60 == minute && secsOfDay % 60 == second
  {
  }

  /** Parsing a full-precision text and printing the result gives the text back, unless it names an
      instant before the epoch. */
  lemma ParseThenPrint(f: Fields)
    requires Sized(f) && InRange(f) && Value(f.year) >= 1970
    ensures Parse(Text(f)).Some? && Print(Parse(Text(f)).value) == Text(f)
  {
    hide CivilFromDays, DaysFromCivil, Text, Parse, Padded, Value, Pow10, IsDigits;
    ParsesFields(f);
    var date := Date(Value(f.year), Value(f.month), Value(f.day));
    DateRoundTrip(date);
    NotBeforeEpoch(date);
    ParsesDigits(f.millis);
    SplitInstant(DaysFromCivil(date), Value(f.hour), Value(f.minute), Value(f.second), Value(f.millis));
    ValueIsPadded(f.year);
    ValueIsPadded(f.month);
    ValueIsPadded(f.day);
    ValueIsPadded(f.hour);
    ValueIsPadded(f.minute);
    ValueIsPadded(f.second);
    ValueIsPadded(f.millis);
    assert FieldsOf(MillisOf(f)) == f;
  }

  lemma NotBeforeEpoch(d: Date)
    requires IsDate(d) && d.year >= 1970
    ensures DaysFromCivil(d) >= 0
  {
  }

  /** The parser takes a sign where the RFC has a digit: the hour field "-k" is accepted and means
      k hours before midnight. */
  lemma SignedHourIsAccepted(f: Fields, k: byte)
    requires Sized(f) && InRange(f) && Value(f.hour) == 0 && 48 <= k <= 57
    ensures Parse(Text(f.(hour := [DASH, k]))) == Some(MillisOf(f) - (k - 48) * 3_600_000)
  {
    hide DaysFromCivil, Text, ParseI64, ParseFraction, Value, HasShape;
    var g := f.(hour := [DASH, k]);
    FieldsInPlace(g);
    ParsesDigits(f.year);
    ParsesDigits(f.month);
    ParsesDigits(f.day);
    ParsesDigits(f.minute);
    ParsesDigits(f.second);
    ParsesDigits(f.millis);
    ParsesMillis(f.millis);
    ParsesNegative(k);
    DaysAreSmall(Date(Value(f.year), Value(f.month), Value(f.day)));
  }

  // ---------------------------------------------------------------- exactly which texts are accepted

  predicate HasSign(s: seq<byte>) {
    s != [] && (s[0] == PLUS || s[0] == DASH)
  }

  /** A field the parser takes for a number: digits, or a sign in place of the first of them. */
  predicate IsNumber(s: seq<byte>) {
    IsDigits(s) || (HasSign(s) && IsDigits(s[1..]))
  }

  function Number(s: seq<byte>): int
    requires IsNumber(s)
  {
    if IsDigits(s) then Value(s) else if s[0] == DASH then -(Value(s[1..]) as int) else Value(s[1..])
  }

  lemma ParsesNumber(s: seq<byte>)
    requires 2 <= |s| <= 4
    ensures ParseI64(s) == if IsNumber(s) then Some(Number(s)) else None
    ensures IsNumber(s) ==> -999 <= Number(s) <= 9_999 && (|s| == 2 ==> -9 <= Number(s) <= 99)
    ensures IsNumber(s) ==> (IsDigits(s) <==> !HasSign(s))
  {
    Powers();
    if IsDigits(s) {
      ValueIsPadded(s);
    } else if IsNumber(s) {
      ValueIsPadded(s[1..]);
    }
  }

  /** Nothing, or a point and any number of digits, at least one. */
  predicate IsFraction(fraction: seq<byte>) {
    fraction == [] || (|fraction| >= 2 && fraction[0] == DOT && IsDigits(fraction[1..]))
  }

  /** The digits cut, or filled up with zeros, to three. */
  function FractionMillis(fraction: seq<byte>): nat
    requires IsFraction(fraction)
  {
    if fraction == [] then 0 else Value((fraction[1..] + [48, 48, 48])[..3])
  }

  lemma ParsesAnyFraction(fraction: seq<byte>)
    ensures ParseFraction(fraction) == if IsFraction(fraction) then Some(FractionMillis(fraction)) else None
    ensures IsFraction(fraction) ==> FractionMillis(fraction) < 1_000
  {
    if fraction != [] && IsFraction(fraction) {
      var digits := fraction[1..];
      var three := (digits + [48, 48, 48])[..3];
      ValueIsPadded(three);
      Powers();
      if |digits| == 1 {
        assert three == digits + [48, 48] && three[..2] == digits + [48] && three[..2][..1] == digits
            && digits[..1] == digits;
      } else if |digits| == 2 {
        assert three == digits + [48] && three[..2] == digits && digits[..2] == digits;
      } else {
        assert three == digits[..3];
      }
    }
  }

  /** Six fields at their places, each a number. */
  predicate HasNumbers(body: seq<byte>) {
    && HasShape(body)
    && IsNumber(body[0..4]) && IsNumber(body[5..7]) && IsNumber(body[8..10])
    && IsNumber(body[11..13]) && IsNumber(body[14..16]) && IsNumber(body[17..19])
  }

  predicate IsReal(body: seq<byte>)
    requires HasNumbers(body)
  {
    && IsDate(Date(Number(body[0..4]), Number(body[5..7]), Number(body[8..10])))
    && Number(body[11..13]) <= 23 && Number(body[14..16]) <= 59 && Number(body[17..19]) <= 59
  }

  predicate IsTime(text: seq<byte>) {
    text != [] && text[|text| - 1] == ZED
    && var body := text[..|text| - 1];
       HasNumbers(body) && IsFraction(body[19..]) && IsReal(body)
  }

  function InstantOf(body: seq<byte>): int
    requires HasNumbers(body) && IsFraction(body[19..])
  {
    (DaysFromCivil(Date(Number(body[0..4]), Number(body[5..7]), Number(body[8..10]))) * 86_400
     + Number(body[11..13]) * 3_600 + Number(body[14..16]) * 60 + Number(body[17..19])) * 1_000
    + FractionMillis(body[19..])
  }

  /** On every text whatever: the parser accepts exactly these, and yields the instant named. */
  lemma ParsesExactly(text: seq<byte>)
    ensures Parse(text) == if IsTime(text) then Some(InstantOf(text[..|text| - 1])) else None
  {
    hide DaysFromCivil, ParseI64, ParseFraction, Value, IsNumber, Number, IsFraction, FractionMillis;
    if text != [] && text[|text| - 1] == ZED && HasShape(text[..|text| - 1]) {
      var body := text[..|text| - 1];
      ParsesNumber(body[0..4]);
      ParsesNumber(body[5..7]);
      ParsesNumber(body[8..10]);
      ParsesNumber(body[11..13]);
      ParsesNumber(body[14..16]);
      ParsesNumber(body[17..19]);
      ParsesAnyFraction(body[19..]);
      if HasNumbers(body) && IsReal(body) {
        DaysAreSmall(Date(Number(body[0..4]), Number(body[5..7]), Number(body[8..10])));
      }
    }
  }

  /** The shape the documentation names: every field in digits. */
  predicate IsRfcShaped(text: seq<byte>) {
    text != [] && text[|text| - 1] == ZED
    && var body := text[..|text| - 1];
       && HasShape(body) && IsFraction(body[19..])
       && IsDigits(body[0..4]) && IsDigits(body[5..7]) && IsDigits(body[8..10])
       && IsDigits(body[11..13]) && IsDigits(body[14..16]) && IsDigits(body[17..19])
  }

  /** An accepted text has another shape exactly if one of its fields starts with a sign. */
  lemma ForeignIffSigned(text: seq<byte>)
    requires Parse(text).Some?
    ensures |text| >= 20
    ensures !IsRfcShaped(text) <==>
              || HasSign(text[0..4]) || HasSign(text[5..7]) || HasSign(text[8..10])
              || HasSign(text[11..13]) || HasSign(text[14..16]) || HasSign(text[17..19])
  {
    hide Parse, ParseI64, IsNumber, Number, IsReal, InstantOf, HasSign, IsFraction, IsDigits;
    ParsesExactly(text);
    var body := text[..|text| - 1];
    ParsesNumber(body[0..4]);
    ParsesNumber(body[5..7]);
    ParsesNumber(body[8..10]);
    ParsesNumber(body[11..13]);
    ParsesNumber(body[14..16]);
    ParsesNumber(body[17..19]);
    assert text[0..4] == body[0..4] && text[5..7] == body[5..7] && text[8..10] == body[8..10];
    assert text[11..13] == body[11..13] && text[14..16] == body[14..16] && text[17..19] == body[17..19];
  }
}
