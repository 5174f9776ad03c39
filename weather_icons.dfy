/**
 * The icon and icon colour for a weather description: the icon of the first
 * keyword, in table order, the description contains, and a colour from an
 * ordered chain of keyword tests.
 */
module WeatherIcons {
  import opened Text
  import WeatherApi

  /** The icons of the table (`FaSun`, `FaCloud`, `FaCloudRain`, `FaSnowflake`, `FaBolt`, `FaSmog`). */
  datatype Icon = Sun | Cloud | CloudRain | Snowflake | Bolt | Smog

  /** The table's keywords in declaration order, and their icons at the same positions. */
  const IconKeys: seq<string> := ["맑음", "구름많음", "흐림", "비", "소나기", "비/눈", "눈", "눈비", "천둥번개", "안개"]
  const IconValues: seq<Icon> := [Sun, Cloud, Cloud, CloudRain, CloudRain, CloudRain, Snowflake, Snowflake, Bolt, Smog]

  /**
   * `getWeatherIcon`: the icon of the first keyword the trimmed description
   * contains, or the sun when it contains none.
   */
  function GetWeatherIcon(description: string): (r: Icon)
    ensures r != Sun ==> exists i | 0 <= i < |IconKeys| :: Contains(Trim(description), IconKeys[i])
  {
    var i := FirstContainedKey(IconKeys, Trim(description));
    if i < |IconKeys| then IconValues[i] else Sun
  }

  /** The icon is that of the first keyword, in table order, the trimmed description contains; the sun when none. */
  lemma IconFirstMatch(description: string)
    ensures var n := Trim(description);
            var r := GetWeatherIcon(description);
            || (exists i | 0 <= i < |IconKeys| ::
                  && Contains(n, IconKeys[i]) && r == IconValues[i]
                  && forall j | 0 <= j < i :: !Contains(n, IconKeys[j]))
            || ((forall j | 0 <= j < |IconKeys| :: !Contains(n, IconKeys[j])) && r == Sun)
  {
    var i := FirstContainedKey(IconKeys, Trim(description));
    if i < |IconKeys| {
      assert Contains(Trim(description), IconKeys[i]);
    }
  }

  /**
   * A description whose trim contains the i-th keyword, and none of the
   * earlier keywords' first characters, gets the i-th icon.
   */
  lemma IconResolvesTo(description: string, i: nat)
    requires i <= |IconKeys|
    requires i < |IconKeys| ==> Contains(Trim(description), IconKeys[i])
    requires NoInitialBefore(IconKeys, Trim(description), i)
    ensures GetWeatherIcon(description) == if i < |IconKeys| then IconValues[i] else Sun
  {
    FirstContainedKeyByFirstChars(IconKeys, Trim(description), i);
  }

  /**
   * The entries "비/눈" and "눈비" are never the first match: both contain
   * the earlier keyword "비".
   */
  lemma ShadowedEntries(description: string)
    ensures FirstContainedKey(IconKeys, Trim(description)) != 5
    ensures FirstContainedKey(IconKeys, Trim(description)) != 7
  {
    var rainSnow := IconKeys[5];
    var snowRain := IconKeys[7];
    assert rainSnow == ['비', '/', '눈'] && snowRain == ['눈', '비'];
    assert OccursAt(rainSnow, IconKeys[3], 0);
    assert OccursAt(snowRain, IconKeys[3], 1);
    ShadowedKey(IconKeys, Trim(description), 3, 5);
    ShadowedKey(IconKeys, Trim(description), 3, 7);
  }

  /** So the snowflake is shown only for descriptions that contain 눈 and not 비. */
  lemma SnowflakeOnlyWithoutRain(description: string)
    ensures GetWeatherIcon(description) == Snowflake ==>
              Contains(Trim(description), "눈") && !Contains(Trim(description), "비")
  {
    var n := Trim(description);
    var i := FirstContainedKey(IconKeys, n);
    if GetWeatherIcon(description) == Snowflake {
      ShadowedEntries(description);
      SnowflakeMatch(n, i);
    }
  }

  /** A first match with the snowflake icon that is not the shadowed "눈비" entry is the 눈 entry, after 비. */
  lemma SnowflakeMatch(n: string, i: nat)
    requires i < |IconKeys| && IconValues[i] == Snowflake && i != 7
    requires Contains(n, IconKeys[i]) && forall j | 0 <= j < i :: !Contains(n, IconKeys[j])
    ensures Contains(n, "눈") && !Contains(n, "비")
  {
    assert i == 6;
    assert IconKeys[6] == "눈" && IconKeys[3] == "비";
  }

  /** Rain with snow, "비/눈", shows the rain icon (`d` spelled out by its characters). */
  lemma RainSnowShowsRain(d: string)
    requires |d| == 3 && d[0] == '비' && d[1] == '/' && d[2] == '눈'
    ensures GetWeatherIcon(d) == CloudRain
  {
    TrimIdentity(d);
    assert d[0..1] == IconKeys[3];
    assert OccursAt(d, IconKeys[3], 0);
    IconResolvesTo(d, 3);
  }

  /** Snow with rain, "눈비", also shows the rain icon, not the snowflake its own entry names. */
  lemma SnowRainShowsRain(d: string)
    requires |d| == 2 && d[0] == '눈' && d[1] == '비'
    ensures GetWeatherIcon(d) == CloudRain
  {
    TrimIdentity(d);
    assert d[1..2] == IconKeys[3];
    assert OccursAt(d, IconKeys[3], 1);
    IconResolvesTo(d, 3);
  }

  /** The icon each keyword of the table actually gets: its own, except for the two shadowed entries. */
  function ShownIcon(k: nat): Icon
    requires k < |IconKeys|
  {
    if k == 5 || k == 7 then CloudRain else IconValues[k]
  }

  /** Each weather condition the table is written for gets the icon `ShownIcon` names. */
  lemma ConditionIcon(k: nat)
    requires k < |IconKeys|
    ensures GetWeatherIcon(IconKeys[k]) == ShownIcon(k)
  {
    var c := IconKeys[k];
    TrimIdentity(c);
    if k == 5 {
      RainSnowShowsRain(c);
    } else if k == 7 {
      SnowRainShowsRain(c);
    } else {
      ContainsSelf(c);
      IconResolvesTo(c, k);
    }
  }

  /** `getWeatherIconColor`: the first of the keyword tests the trimmed description passes. */
  function GetWeatherIconColor(description: string): (r: string)
    ensures r in ColorValues || r == DefaultColor
  {
    var n := Trim(description);
    if Contains(n, "맑음") then "text-yellow-500"
    else if Contains(n, "구름") || Contains(n, "흐림") then "text-gray-500"
    else if Contains(n, "비") || Contains(n, "소나기") then "text-blue-500"
    else if Contains(n, "눈") then "text-blue-300"
    else if Contains(n, "천둥") then "text-purple-500"
    else if Contains(n, "안개") then "text-gray-400"
    else "text-gray-600 dark:text-gray-400"
  }

  /** The colour keywords in the order they are tested, and the class each test yields. */
  const ColorKeys: seq<string> := ["맑음", "구름", "흐림", "비", "소나기", "눈", "천둥", "안개"]
  const ColorValues: seq<string> :=
    ["text-yellow-500", "text-gray-500", "text-gray-500", "text-blue-500",
     "text-blue-500", "text-blue-300", "text-purple-500", "text-gray-400"]
  /** The class when no test passes. */
  const DefaultColor: string := "text-gray-600 dark:text-gray-400"

  /** The colour chain read as a table: the class of the first colour keyword `n` contains. */
  function ColorScan(n: string): string {
    var i := FirstContainedKey(ColorKeys, n);
    if i < |ColorKeys| then ColorValues[i] else DefaultColor
  }

  /** The chain of tests and the first-match reading of the table agree on every description. */
  lemma ColorChainIsScan(description: string)
    ensures GetWeatherIconColor(description) == ColorScan(Trim(description))
  {
    var i := FirstContainedKey(ColorKeys, Trim(description));
    ColorChainAt(description, i);
  }

  /**
   * The chain gives the i-th class when the trimmed description contains
   * the i-th colour keyword and none before it, and the default when it
   * contains none.
   */
  lemma ColorChainAt(description: string, i: nat)
    requires i <= |ColorKeys|
    requires i < |ColorKeys| ==> Contains(Trim(description), ColorKeys[i])
    requires forall j | 0 <= j < i :: !Contains(Trim(description), ColorKeys[j])
    ensures GetWeatherIconColor(description) == if i < |ColorKeys| then ColorValues[i] else DefaultColor
  {
    ChainPicksFirst(Trim(description), ColorKeys, ColorValues, DefaultColor, i);
    assert ColorKeys[0] == "맑음" && ColorKeys[1] == "구름" && ColorKeys[2] == "흐림" && ColorKeys[3] == "비";
    assert ColorKeys[4] == "소나기" && ColorKeys[5] == "눈" && ColorKeys[6] == "천둥" && ColorKeys[7] == "안개";
  }

  /** The shape of the colour chain, over any eight keywords whose second and fourth tests share their class with the first and third. */
  lemma ChainPicksFirst(n: string, keys: seq<string>, values: seq<string>, default: string, i: nat)
    requires |keys| == 8 && |values| == 8 && i <= 8
    requires values[1] == values[2] && values[3] == values[4]
    requires i < 8 ==> Contains(n, keys[i])
    requires forall j | 0 <= j < i :: !Contains(n, keys[j])
    ensures (if Contains(n, keys[0]) then values[0]
             else if Contains(n, keys[1]) || Contains(n, keys[2]) then values[1]
             else if Contains(n, keys[3]) || Contains(n, keys[4]) then values[3]
             else if Contains(n, keys[5]) then values[5]
             else if Contains(n, keys[6]) then values[6]
             else if Contains(n, keys[7]) then values[7]
             else default) == (if i < 8 then values[i] else default)
  {
  }

  /** Every description gets one of the seven classes, and the default exactly when no colour keyword occurs. */
  lemma IconColorRange(description: string)
    ensures GetWeatherIconColor(description) in
              {"text-yellow-500", "text-gray-500", "text-blue-500", "text-blue-300",
               "text-purple-500", "text-gray-400", DefaultColor}
    ensures GetWeatherIconColor(description) == DefaultColor <==>
              forall k | 0 <= k < |ColorKeys| :: !Contains(Trim(description), ColorKeys[k])
  {
    ColorChainIsScan(description);
  }

  /**
   * A description whose trim contains the i-th colour keyword, and none of
   * the earlier ones' first characters, gets the i-th class.
   */
  lemma ColorResolvesTo(description: string, i: nat)
    requires i <= |ColorKeys|
    requires i < |ColorKeys| ==> Contains(Trim(description), ColorKeys[i])
    requires NoInitialBefore(ColorKeys, Trim(description), i)
    ensures GetWeatherIconColor(description) == if i < |ColorKeys| then ColorValues[i] else DefaultColor
  {
    var n := Trim(description);
    FirstContainedKeyByFirstChars(ColorKeys, n, i);
    assert ColorScan(n) == if i < |ColorKeys| then ColorValues[i] else DefaultColor;
    ColorChainIsScan(description);
  }

  /** For each keyword of the icon table, the position of the colour test it first passes. */
  const ColorTestOfKey: seq<nat> := [0, 1, 2, 3, 4, 3, 5, 3, 6, 7]

  /** Each weather condition of the icon table gets the class of the colour test `ColorTestOfKey` names. */
  lemma ConditionColor(k: nat)
    requires k < |IconKeys|
    ensures GetWeatherIconColor(IconKeys[k]) == ColorValues[ColorTestOfKey[k]]
  {
    ConditionColorKeys(k);
    TrimIdentity(IconKeys[k]);
    ColorResolvesTo(IconKeys[k], ColorTestOfKey[k]);
  }

  /** Each keyword of the icon table holds the colour keyword of its test and none of the earlier ones' first characters. */
  lemma ConditionColorKeys(k: nat)
    requires k < |IconKeys|
    ensures Contains(IconKeys[k], ColorKeys[ColorTestOfKey[k]])
    ensures NoInitialBefore(ColorKeys, IconKeys[k], ColorTestOfKey[k])
  {
    var c := IconKeys[k];
    var m := ColorTestOfKey[k];
    if k == 0 || k == 2 || k == 3 || k == 4 || k == 6 || k == 9 {
      ContainsSelf(c);
      assert c == ColorKeys[m];
    } else if k == 7 {
      assert OccursAt(c, ColorKeys[m], 1);
    } else {
      assert OccursAt(c, ColorKeys[m], 0);
    }
  }

  /** The colour class that goes with each icon. */
  function ColorOf(icon: Icon): string {
    match icon
    case Sun => "text-yellow-500"
    case Cloud => "text-gray-500"
    case CloudRain => "text-blue-500"
    case Snowflake => "text-blue-300"
    case Bolt => "text-purple-500"
    case Smog => "text-gray-400"
  }

  lemma ColorTablesAgree(k: nat)
    requires k < |IconKeys|
    ensures ColorValues[ColorTestOfKey[k]] == ColorOf(ShownIcon(k))
  {
  }

  /** For every weather condition the icon table is written for, the icon and its colour agree. */
  lemma IconColorAgree(k: nat)
    requires k < |IconKeys|
    ensures var c := IconKeys[k]; GetWeatherIconColor(c) == ColorOf(GetWeatherIcon(c))
  {
    ConditionIcon(k);
    ConditionColor(k);
    ColorTablesAgree(k);
  }

  /**
   * The descriptions the forecast client produces get their own icons:
   * precipitation the rain icon, sky code 1 the sun, 3 and 4 the cloud, and
   * the unknown description the sun default.
   */
  lemma IconForForecast(sky: Option<string>, pty: Option<string>)
    ensures GetWeatherIcon(WeatherApi.WeatherDescription(sky, pty)) ==
              if WeatherApi.IsPrecipitation(pty) then CloudRain
              else if sky == Some("1") then Sun
              else if sky == Some("3") || sky == Some("4") then Cloud
              else Sun
  {
    var d := WeatherApi.WeatherDescription(sky, pty);
    if WeatherApi.IsPrecipitation(pty) {
      ForecastConditionIcon(d, 3, CloudRain);
    } else if sky == Some("1") {
      ForecastConditionIcon(d, 0, Sun);
    } else if sky == Some("3") {
      ForecastConditionIcon(d, 1, Cloud);
    } else if sky == Some("4") {
      ForecastConditionIcon(d, 2, Cloud);
    } else {
      UnknownShowsSun(d);
    }
  }

  /** A description that is the k-th keyword of the table gets the icon `ShownIcon` names. */
  lemma ForecastConditionIcon(d: string, k: nat, icon: Icon)
    requires k < |IconKeys| && d == IconKeys[k] && icon == ShownIcon(k)
    ensures GetWeatherIcon(d) == icon
  {
    ConditionIcon(k);
  }

  /** The forecast client's unknown description, "알 수 없음" (`d`, spelled out by its characters), gets the sun default. */
  lemma UnknownShowsSun(d: string)
    requires |d| == 6 && d[0] == '알' && d[1] == ' ' && d[2] == '수' && d[3] == ' ' && d[4] == '없' && d[5] == '음'
    ensures GetWeatherIcon(d) == Sun
  {
    UnknownIconChars(d);
    TrimIdentity(d);
    IconResolvesTo(d, |IconKeys|);
  }

  /** "알 수 없음" holds no keyword's first character. */
  lemma UnknownIconChars(d: string)
    requires |d| == 6 && d[0] == '알' && d[1] == ' ' && d[2] == '수' && d[3] == ' ' && d[4] == '없' && d[5] == '음'
    ensures NoInitialBefore(IconKeys, d, |IconKeys|)
  {
    assert d == ['알', ' ', '수', ' ', '없', '음'];
  }
}
