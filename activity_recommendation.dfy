/** The activity table: weather keywords in order, and one list of suggestions per keyword. */
module ActivityData {
  datatype Activity = Activity(name: string, description: string, icon: string)

  /** The lists of the table, one constant per keyword. */
  const ClearActivities: seq<Activity> := [
    Activity("산책", "날씨가 좋아 산책하기 좋은 날입니다", "🚶"),
    Activity("운동", "야외 운동하기 좋은 날씨입니다", "🏃"),
    Activity("피크닉", "공원에서 피크닉을 즐기세요", "🧺"),
    Activity("자전거", "자전거 타기 좋은 날입니다", "🚴")]
  const CloudyActivities: seq<Activity> := [
    Activity("산책", "구름이 있어 산책하기 좋습니다", "🚶"),
    Activity("카페", "카페에서 여유롭게 시간 보내기", "☕"),
    Activity("쇼핑", "실내 쇼핑몰 나들이", "🛍️")]
  const OvercastActivities: seq<Activity> := [
    Activity("영화", "실내에서 영화 감상하기", "🎬"),
    Activity("독서", "도서관이나 카페에서 독서", "📚"),
    Activity("박물관", "박물관 관람하기", "🏛️")]
  const RainActivities: seq<Activity> := [
    Activity("영화", "비 오는 날 영화 보기", "🎬"),
    Activity("카페", "카페에서 따뜻한 음료 마시기", "☕"),
    Activity("독서", "집에서 책 읽기", "📚"),
    Activity("요리", "집에서 요리하기", "👨‍🍳")]
  const SnowActivities: seq<Activity> := [
    Activity("눈사람", "눈사람 만들기", "⛄"),
    Activity("스키", "스키장 나들이", "⛷️"),
    Activity("핫초코", "따뜻한 핫초코 마시기", "☕")]
  const ThunderActivities: seq<Activity> := [
    Activity("실내 활동", "안전을 위해 실내에서 활동하세요", "🏠"),
    Activity("영화", "집에서 영화 보기", "🎬")]
  const FogActivities: seq<Activity> := [
    Activity("실내 활동", "시야가 좋지 않아 실내 활동 권장", "🏠"),
    Activity("독서", "집에서 책 읽기", "📚")]

  /** The keywords of the table in declaration order. */
  const ActivityKeys: seq<string> := ["맑음", "구름많음", "흐림", "비", "눈", "천둥번개", "안개"]

  /** Position of the 맑음 list, the default. */
  const Clear: nat := 0
  /** Position of the 비 list. */
  const Rain: nat := 3

  /** The lists of the keywords, at the same positions. */
  const ActivityLists: seq<seq<Activity>> := [
    ClearActivities, CloudyActivities, OvercastActivities, RainActivities,
    SnowActivities, ThunderActivities, FogActivities]

  /** Every keyword has a list, and every list has at least one activity. */
  lemma ListsNonEmpty()
    ensures |ActivityLists| == |ActivityKeys|
    ensures forall i | 0 <= i < |ActivityLists| :: |ActivityLists[i]| > 0
  {
  }
}

/**
 * Activity suggestions for a weather description: the list of the first
 * weather keyword, in table order, that the description contains.
 */
module ActivityRecommendation {
  import opened Text
  import WeatherApi
  import opened ActivityData

  /**
   * `getRecommendedActivities`: the list of the first keyword the trimmed
   * description contains, or the 맑음 list when it contains none.
   */
  function RecommendedActivities(description: string): (r: seq<Activity>)
    ensures |r| > 0
  {
    ListsNonEmpty();
    var i := FirstContainedKey(ActivityKeys, Trim(description));
    if i < |ActivityKeys| then ActivityLists[i] else ActivityLists[Clear]
  }

  /** The list is that of the first keyword, in table order, the trimmed description contains; 맑음 when none. */
  lemma ActivitiesFirstMatch(description: string)
    ensures var n := Trim(description);
            var r := RecommendedActivities(description);
            || (exists i | 0 <= i < |ActivityKeys| ::
                  && Contains(n, ActivityKeys[i]) && r == ActivityLists[i]
                  && forall j | 0 <= j < i :: !Contains(n, ActivityKeys[j]))
            || ((forall j | 0 <= j < |ActivityKeys| :: !Contains(n, ActivityKeys[j]))
                && r == ActivityLists[Clear])
  {
    var i := FirstContainedKey(ActivityKeys, Trim(description));
    if i < |ActivityKeys| {
      assert Contains(Trim(description), ActivityKeys[i]);
    }
  }

  /**
   * A description whose trim contains the i-th keyword, and none of the
   * earlier keywords' first characters, gets the i-th list.
   */
  lemma ResolvesTo(description: string, i: nat)
    requires i <= |ActivityKeys|
    requires i < |ActivityKeys| ==> Contains(Trim(description), ActivityKeys[i])
    requires NoInitialBefore(ActivityKeys, Trim(description), i)
    ensures RecommendedActivities(description) == if i < |ActivityKeys| then ActivityLists[i] else ActivityLists[Clear]
  {
    FirstContainedKeyByFirstChars(ActivityKeys, Trim(description), i);
  }

  /**
   * Keyword order decides overlaps: "비/눈" (`d`, spelled out by its
   * characters) contains both 비 and 눈 and gets the 비 list.
   */
  lemma RainAndSnowGivesRain(d: string)
    requires |d| == 3 && d[0] == '비' && d[1] == '/' && d[2] == '눈'
    ensures Contains(Trim(d), ActivityKeys[Rain]) && Contains(Trim(d), ActivityKeys[Rain + 1])
    ensures RecommendedActivities(d) == ActivityLists[Rain]
  {
    RainAndSnowKeys(d);
    TrimIdentity(d);
    ResolvesTo(d, Rain);
  }

  /** "비/눈" holds the 비 and 눈 keywords but none of the earlier keywords' first characters. */
  lemma RainAndSnowKeys(d: string)
    requires |d| == 3 && d[0] == '비' && d[1] == '/' && d[2] == '눈'
    ensures Contains(d, ActivityKeys[Rain]) && Contains(d, ActivityKeys[Rain + 1])
    ensures NoInitialBefore(ActivityKeys, d, Rain)
  {
    assert d[0..1] == ActivityKeys[Rain];
    assert OccursAt(d, ActivityKeys[Rain], 0);
    assert d[2..3] == ActivityKeys[Rain + 1];
    assert OccursAt(d, ActivityKeys[Rain + 1], 2);
  }

  /** A description holding no keyword's first character gets the 맑음 list. */
  lemma UnknownGivesClear(description: string)
    requires NoInitialBefore(ActivityKeys, Trim(description), |ActivityKeys|)
    ensures RecommendedActivities(description) == ActivityLists[Clear]
  {
    ResolvesTo(description, |ActivityKeys|);
  }

  /**
   * The descriptions the forecast client produces map to their own lists:
   * precipitation to 비, sky codes 1, 3 and 4 to 맑음, 구름많음 and 흐림, and
   * the unknown description to the 맑음 default.
   */
  lemma ActivitiesForForecast(sky: Option<string>, pty: Option<string>)
    ensures var r := RecommendedActivities(WeatherApi.WeatherDescription(sky, pty));
            && (WeatherApi.IsPrecipitation(pty) ==> r == ActivityLists[Rain])
            && (!WeatherApi.IsPrecipitation(pty) && sky == Some("1") ==> r == ActivityLists[0])
            && (!WeatherApi.IsPrecipitation(pty) && sky == Some("3") ==> r == ActivityLists[1])
            && (!WeatherApi.IsPrecipitation(pty) && sky == Some("4") ==> r == ActivityLists[2])
            && (!WeatherApi.IsPrecipitation(pty) && sky !in {Some("1"), Some("3"), Some("4")} ==> r == ActivityLists[Clear])
  {
    var d := WeatherApi.WeatherDescription(sky, pty);
    if WeatherApi.IsPrecipitation(pty) {
      assert d == ActivityKeys[Rain];
      KeywordGetsOwnList(Rain);
    } else if sky == Some("1") {
      assert d == ActivityKeys[0];
      KeywordGetsOwnList(0);
    } else if sky == Some("3") {
      assert d == ActivityKeys[1];
      KeywordGetsOwnList(1);
    } else if sky == Some("4") {
      assert d == ActivityKeys[2];
      KeywordGetsOwnList(2);
    } else {
      UnknownDescriptionGivesClear(d);
    }
  }

  /** Each keyword, as a description, gets its own list. */
  lemma KeywordGetsOwnList(k: nat)
    requires k < |ActivityKeys|
    ensures RecommendedActivities(ActivityKeys[k]) == ActivityLists[k]
  {
    var c := ActivityKeys[k];
    TrimIdentity(c);
    ContainsSelf(c);
    ResolvesTo(c, k);
  }

  /** The forecast client's unknown description, "알 수 없음", gets the default list. */
  lemma UnknownDescriptionGivesClear(d: string)
    requires |d| == 6 && d[0] == '알' && d[1] == ' ' && d[2] == '수' && d[3] == ' ' && d[4] == '없' && d[5] == '음'
    ensures RecommendedActivities(d) == ActivityLists[Clear]
  {
    UnknownKeyChars(d);
    TrimIdentity(d);
    UnknownGivesClear(d);
  }

  /** "알 수 없음" holds no keyword's first character. */
  lemma UnknownKeyChars(d: string)
    requires |d| == 6 && d[0] == '알' && d[1] == ' ' && d[2] == '수' && d[3] == ' ' && d[4] == '없' && d[5] == '음'
    ensures NoInitialBefore(ActivityKeys, d, |ActivityKeys|)
  {
    assert d == ['알', ' ', '수', ' ', '없', '음'];
  }
}
