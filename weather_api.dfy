/**
 * The pure and loop helpers of the forecast client: the base date and base
 * time of a forecast request, the lookup of one forecast value, the
 * sky/precipitation description and the hourly temperature list.
 */
module WeatherApi {
  import opened Text

  /** `WeatherTimeEnumValues.BASE_HOURS`: the hours a forecast is issued at. */
  const BaseHours: seq<nat> := [2, 5, 8, 11, 14, 17, 20, 23]

  /** `WeatherTimeEnum.HOURS_PER_DAY`. */
  const HoursPerDay: nat := 24

  // ---------------------------------------------------------------------
  // getBaseTime
  // ---------------------------------------------------------------------

  /**
   * The issue hour for a request made at `hour`: the latest base hour not
   * after `hour`, or 23 before the first. The request pairs this hour with
   * the current date from `getBaseDate`, so before 02 it names the 23:00
   * issue of the same calendar day.
   */
  function BaseHourFor(hour: int): (b: nat)
    ensures b in BaseHours
    ensures hour < BaseHours[0] ==> b == BaseHours[|BaseHours| - 1]
    ensures hour >= BaseHours[0] ==>
              b <= hour && forall i | 0 <= i < |BaseHours| && BaseHours[i] <= hour :: BaseHours[i] <= b
  {
    if hour < 2 then 23
    else if hour < 5 then 2
    else if hour < 8 then 5
    else if hour < 11 then 8
    else if hour < 14 then 11
    else if hour < 17 then 14
    else if hour < 20 then 17
    else if hour < 23 then 20
    else 23
  }

  /** `getBaseTime` at `hour`: scan the base hours backwards for the first one not after `hour`. */
  method GetBaseTime(hour: int) returns (r: string)
    ensures r == TwoDigits(BaseHourFor(hour)) + "00"
    ensures |r| == 4 && r[2..] == "00" && IsDigits(r)
    ensures DecimalValue(r[..2]) == BaseHourFor(hour)
  {
    var baseHour := BaseHours[0];
    if hour < BaseHours[0] {
      baseHour := BaseHours[|BaseHours| - 1];
    } else {
      var i := |BaseHours| - 1;
      while i >= 0
        invariant -1 <= i < |BaseHours|
        invariant forall k | i < k < |BaseHours| :: hour < BaseHours[k]
        decreases i + 1
      {
        if hour >= BaseHours[i] {
          baseHour := BaseHours[i];
          break;
        }
        i := i - 1;
      }
    }
    assert baseHour == BaseHourFor(hour);
    r := PadStart(NatToDecimal(baseHour), 2, '0') + "00";
    BaseTimeShape(baseHour);
  }

  /** An hour below 100 followed by "00" is four digits whose first two read back as the hour. */
  lemma BaseTimeShape(h: nat)
    requires h < 100
    ensures var r := TwoDigits(h) + "00";
            |r| == 4 && r[2..] == "00" && IsDigits(r) && DecimalValue(r[..2]) == h
  {
    TwoDigitsRoundTrip(h);
    var t := TwoDigits(h);
    ZerosAfterDigits(t);
    assert (t + "00")[..2] == t;
  }

  /** Digits followed by "00" are digits. */
  lemma ZerosAfterDigits(t: string)
    requires IsDigits(t)
    ensures IsDigits(t + "00")
  {
    assert IsDigits("00") by {
      assert forall i | 0 <= i < 2 :: "00"[i] == '0';
    }
    DigitsConcat(t, "00");
  }


  // ---------------------------------------------------------------------
  // getBaseDate
  // ---------------------------------------------------------------------

  /**
   * `getBaseDate` for a local date: the year, then the month (from the
   * zero-based month index) and the day, each padded to two digits.
   */
  function BaseDate(year: nat, monthIndex: nat, day: nat): (r: string)
    ensures monthIndex + 1 < 100 && day < 100 ==> |r| == |NatToDecimal(year)| + 4
  {
    NatToDecimal(year) + TwoDigits(monthIndex + 1) + TwoDigits(day)
  }

  /** A four-digit year gives an eight-character date. */
  lemma FourDigitYear(year: nat)
    requires 1000 <= year < 10000
    ensures |NatToDecimal(year)| == 4
  {
    assert 10 <= year / 100 < 100;
    assert NatToDecimal(year / 10) == NatToDecimal(year / 10 / 10) + [DigitChar(year / 10 % 10)];
  }

  /** The date reads back: the year, the month number and the day sit at fixed places from the end. */
  lemma BaseDateRoundTrip(year: nat, monthIndex: nat, day: nat)
    requires monthIndex < 12 && 1 <= day <= 31
    ensures var r := BaseDate(year, monthIndex, day);
            && DecimalValue(r[..|r| - 4]) == year
            && DecimalValue(r[|r| - 4..|r| - 2]) == monthIndex + 1
            && DecimalValue(r[|r| - 2..]) == day
            && (1000 <= year < 10000 ==> |r| == 8)
            && IsDigits(r)
  {
    var y := NatToDecimal(year);
    var m := TwoDigits(monthIndex + 1);
    var d := TwoDigits(day);
    TwoDigitsRoundTrip(monthIndex + 1);
    TwoDigitsRoundTrip(day);
    DecimalRoundTrip(year);
    assert BaseDate(year, monthIndex, day) == y + m + d;
    DateFields(y, m, d, year, monthIndex + 1, day);
    DigitsConcat(y, m);
    DigitsConcat(y + m, d);
    if 1000 <= year < 10000 {
      FourDigitYear(year);
    }
  }

  /** Two two-digit fields after a prefix read back from their fixed places at the end. */
  lemma DateFields(y: string, m: string, d: string, year: int, month: int, day: int)
    requires |m| == 2 && |d| == 2
    requires DecimalValue(y) == year && DecimalValue(m) == month && DecimalValue(d) == day
    ensures var r := y + m + d;
            && DecimalValue(r[..|r| - 4]) == year
            && DecimalValue(r[|r| - 4..|r| - 2]) == month
            && DecimalValue(r[|r| - 2..]) == day
  {
    var r := y + m + d;
    assert r[..|r| - 4] == y;
    assert r[|r| - 4..|r| - 2] == m;
    assert r[|r| - 2..] == d;
  }

  // ---------------------------------------------------------------------
  // getWeatherDescription
  // ---------------------------------------------------------------------

  /** A precipitation code of rain, rain/snow, snow or shower. */
  predicate IsPrecipitation(pty: Option<string>) {
    pty == Some("1") || pty == Some("2") || pty == Some("3") || pty == Some("4")
  }

  /** `getWeatherDescription(sky, pty)`; a missing value is `None`. */
  function WeatherDescription(sky: Option<string>, pty: Option<string>): (r: string)
    ensures r == "비" <==> IsPrecipitation(pty)
    ensures !IsPrecipitation(pty) ==>
              && (r == "맑음" <==> sky == Some("1"))
              && (r == "구름많음" <==> sky == Some("3"))
              && (r == "흐림" <==> sky == Some("4"))
    ensures r in {"비", "맑음", "구름많음", "흐림", "알 수 없음"}
  {
    if IsPrecipitation(pty) then "비"
    else if sky == Some("1") then "맑음"
    else if sky == Some("3") then "구름많음"
    else if sky == Some("4") then "흐림"
    else "알 수 없음"
  }

  /** Precipitation decides the description whatever the sky code. */
  lemma PrecipitationOverridesSky(sky1: Option<string>, sky2: Option<string>, pty: Option<string>)
    requires IsPrecipitation(pty)
    ensures WeatherDescription(sky1, pty) == WeatherDescription(sky2, pty)
  {
  }

  // ---------------------------------------------------------------------
  // findItem
  // ---------------------------------------------------------------------

  /** One row of the forecast response. */
  datatype ForecastItem = ForecastItem(category: string, fcstTime: string, fcstValue: string)

  /** The `fcstTime` a lookup compares with: the hour padded to two digits, then "00". */
  function TimeKey(fcstTime: string): string {
    PadStart(fcstTime, 2, '0') + "00"
  }

  predicate Matches(item: ForecastItem, category: string, fcstTime: string) {
    item.category == category && item.fcstTime == TimeKey(fcstTime)
  }

  /** Position of the first matching item, or `|items|` (`Array.find`). */
  function FirstMatch(items: seq<ForecastItem>, category: string, fcstTime: string): (i: nat)
    ensures i <= |items|
    ensures i < |items| ==> Matches(items[i], category, fcstTime)
    ensures forall j | 0 <= j < i :: !Matches(items[j], category, fcstTime)
  {
    if |items| == 0 then 0
    else if Matches(items[0], category, fcstTime) then 0
    else 1 + FirstMatch(items[1..], category, fcstTime)
  }

  /**
   * `findItem`: the value of the first item with the category and time;
   * nothing when there is none, or when that first item's value is empty.
   */
  function FindItem(items: seq<ForecastItem>, category: string, fcstTime: string): (r: Option<string>)
    ensures r.Some? ==>
              && r.value != ""
              && exists i | 0 <= i < |items| ::
                   && Matches(items[i], category, fcstTime) && items[i].fcstValue == r.value
                   && forall j | 0 <= j < i :: !Matches(items[j], category, fcstTime)
    ensures r.None? ==> forall i | 0 <= i < |items| && Matches(items[i], category, fcstTime) ::
              items[i].fcstValue == "" || exists j | 0 <= j < i :: Matches(items[j], category, fcstTime)
  {
    var i := FirstMatch(items, category, fcstTime);
    if i == |items| || items[i].fcstValue == "" then None else Some(items[i].fcstValue)
  }

  /** Only the first matching item counts: a later item with the same key never changes the answer. */
  lemma FindItemAppend(items: seq<ForecastItem>, more: seq<ForecastItem>, category: string, fcstTime: string)
    requires exists i | 0 <= i < |items| :: Matches(items[i], category, fcstTime)
    ensures FindItem(items + more, category, fcstTime) == FindItem(items, category, fcstTime)
  {
    var i := FirstMatch(items, category, fcstTime);
    FirstMatchAppend(items, more, category, fcstTime);
    assert (items + more)[i] == items[i];
  }

  /** Appending items after a match leaves the position of the first match alone. */
  lemma FirstMatchAppend(items: seq<ForecastItem>, more: seq<ForecastItem>, category: string, fcstTime: string)
    requires exists i | 0 <= i < |items| :: Matches(items[i], category, fcstTime)
    ensures FirstMatch(items + more, category, fcstTime) == FirstMatch(items, category, fcstTime)
  {
    var i := FirstMatch(items, category, fcstTime);
    var k := FirstMatch(items + more, category, fcstTime);
    assert (items + more)[i] == items[i];
  }

  // ---------------------------------------------------------------------
  // The hourly list of parseWeatherData
  // ---------------------------------------------------------------------

  /** One point of the hourly chart. */
  datatype HourlyTemp = HourlyTemp(time: string, temp: real)

  /** The "HH:00" label of an hour. */
  function HourLabel(h: nat): string {
    TwoDigits(h) + ":00"
  }

  /** The entry for hour `h`, when a temperature is forecast for it. */
  function HourEntry(items: seq<ForecastItem>, parseFloat: string -> real, h: nat): Option<HourlyTemp> {
    var temp := FindItem(items, "TMP", NatToDecimal(h));
    if temp.Some? then Some(HourlyTemp(HourLabel(h), parseFloat(temp.value))) else None
  }

  /** The list after the loop has handled hours 1 to `n`. */
  function HourlyUpTo(items: seq<ForecastItem>, parseFloat: string -> real, n: nat): seq<HourlyTemp> {
    if n == 0 then []
    else
      var e := HourEntry(items, parseFloat, n);
      HourlyUpTo(items, parseFloat, n - 1) + (if e.Some? then [e.value] else [])
  }

  /** The hours from 1 to `n` with a forecast temperature, in increasing order. */
  function TempHours(items: seq<ForecastItem>, n: nat): seq<nat> {
    if n == 0 then []
    else TempHours(items, n - 1) + (if FindItem(items, "TMP", NatToDecimal(n)).Some? then [n] else [])
  }

  /** The hourly loop of `parseWeatherData`: hours 1 to 24, one entry per hour with a temperature. */
  method ParseHourly(items: seq<ForecastItem>, parseFloat: string -> real) returns (hourly: seq<HourlyTemp>)
    ensures hourly == HourlyUpTo(items, parseFloat, HoursPerDay)
    ensures |hourly| <= HoursPerDay
  {
    hourly := [];
    for i := 1 to HoursPerDay + 1
      invariant hourly == HourlyUpTo(items, parseFloat, i - 1)
    {
      var temp := FindItem(items, "TMP", NatToDecimal(i));
      if temp.Some? {
        hourly := hourly + [HourlyTemp(TwoDigits(i) + ":00", parseFloat(temp.value))];
      }
    }
    HourlyLength(items, parseFloat, HoursPerDay);
    TempHoursBounds(items, HoursPerDay);
  }

  /** The hours with a temperature are strictly increasing and within 1..n; so there are at most n. */
  lemma {:induction false} TempHoursBounds(items: seq<ForecastItem>, n: nat)
    ensures |TempHours(items, n)| <= n
    ensures forall k | 0 <= k < |TempHours(items, n)| :: 1 <= TempHours(items, n)[k] <= n
    ensures forall k, l | 0 <= k < l < |TempHours(items, n)| :: TempHours(items, n)[k] < TempHours(items, n)[l]
  {
    if n > 0 {
      TempHoursBounds(items, n - 1);
      var prev := TempHours(items, n - 1);
      var hs := TempHours(items, n);
      assert hs[..|prev|] == prev;
      forall k | 0 <= k < |hs| ensures 1 <= hs[k] <= n {
        if k < |prev| {
          assert hs[k] == prev[k];
        }
      }
      forall k, l | 0 <= k < l < |hs| ensures hs[k] < hs[l] {
        assert hs[k] == prev[k];
        if l < |prev| {
          assert hs[l] == prev[l];
        }
      }
    }
  }

  /** An hour from 1 to n is listed exactly when a temperature is forecast for it. */
  lemma {:induction false} TempHoursComplete(items: seq<ForecastItem>, n: nat, h: nat)
    requires 1 <= h <= n
    ensures h in TempHours(items, n) <==> FindItem(items, "TMP", NatToDecimal(h)).Some?
  {
    var prev := TempHours(items, n - 1);
    var found := FindItem(items, "TMP", NatToDecimal(n)).Some?;
    var extra := if found then [n] else [];
    assert TempHours(items, n) == prev + extra;
    assert h in prev + extra <==> h in prev || h in extra;
    if h < n {
      TempHoursComplete(items, n - 1, h);
      assert h !in extra;
    } else {
      TempHoursBounds(items, n - 1);
      assert h !in prev by {
        forall k | 0 <= k < |prev| ensures prev[k] != h {
          assert prev[k] <= n - 1;
        }
      }
    }
  }

  /** The list has one entry per hour with a temperature. */
  lemma {:induction false} HourlyLength(items: seq<ForecastItem>, parseFloat: string -> real, n: nat)
    ensures |HourlyUpTo(items, parseFloat, n)| == |TempHours(items, n)|
  {
    if n > 0 {
      HourlyLength(items, parseFloat, n - 1);
    }
  }

  /** The k-th entry is labelled with the k-th hour that has a temperature and carries that hour's parsed value. */
  lemma {:induction false} HourlyEntryAt(items: seq<ForecastItem>, parseFloat: string -> real, n: nat, k: nat)
    requires k < |TempHours(items, n)|
    ensures k < |HourlyUpTo(items, parseFloat, n)|
    ensures Some(HourlyUpTo(items, parseFloat, n)[k]) == HourEntry(items, parseFloat, TempHours(items, n)[k])
  {
    HourlyLength(items, parseFloat, n);
    HourlyLength(items, parseFloat, n - 1);
    var prev := HourlyUpTo(items, parseFloat, n - 1);
    var ps := TempHours(items, n - 1);
    if k < |ps| {
      HourlyEntryAt(items, parseFloat, n - 1, k);
      assert HourlyUpTo(items, parseFloat, n)[k] == prev[k];
      assert TempHours(items, n)[k] == ps[k];
    }
  }

  /** Every label is "HH:00" for its hour: five characters that read back as the hour. */
  lemma HourLabelShape(h: nat)
    requires 1 <= h <= HoursPerDay
    ensures |HourLabel(h)| == 5 && HourLabel(h)[2..] == ":00"
    ensures DecimalValue(HourLabel(h)[..2]) == h
  {
    TwoDigitsRoundTrip(h);
    assert HourLabel(h)[..2] == TwoDigits(h);
  }
}
