/** The four summary cards shown above the charts: current AQI of the first
    selected city, highest and lowest reading with the first row that has it,
    and the city with the largest mean AQI. */
module Kpis {
  import opened Wrappers
  import opened Records
  import opened Stats
  import opened Groups

  /** An extreme reading and the city and date of the first row holding it. */
  datatype Extremum = Extremum(aqi: int, city: string, date: int)

  /** Position of the first row with the given AQI. */
  function FirstWithAqi(s: seq<Record>, v: int): (i: nat)
    requires exists j :: 0 <= j < |s| && s[j].aqi == v
    ensures i < |s| && s[i].aqi == v
    ensures forall j :: 0 <= j < i ==> s[j].aqi != v
  {
    if s[0].aqi == v then 0
    else
      var j :| 0 <= j < |s| && s[j].aqi == v;
      assert s[1..][j - 1] == s[j];
      1 + FirstWithAqi(s[1..], v)
  }

  /** "Highest AQI": the largest reading, credited to the first row that has it. */
  function Highest(s: seq<Record>): (e: Extremum)
    requires |s| > 0
    ensures forall j :: 0 <= j < |s| ==> s[j].aqi <= e.aqi
    ensures exists i :: && 0 <= i < |s|
                        && s[i] == Record(e.date, e.city, s[i].pollutant, e.aqi)
                        && forall j :: 0 <= j < i ==> s[j].aqi < e.aqi
  {
    var xs := Aqis(s);
    var top := MaxOf(xs);
    assert forall j :: 0 <= j < |s| ==> xs[j] == s[j].aqi;
    var i := FirstWithAqi(s, top);
    Extremum(top, s[i].city, s[i].date)
  }

  /** "Lowest AQI": the smallest reading, credited to the first row that has it. */
  function Lowest(s: seq<Record>): (e: Extremum)
    requires |s| > 0
    ensures forall j :: 0 <= j < |s| ==> e.aqi <= s[j].aqi
    ensures exists i :: && 0 <= i < |s|
                        && s[i] == Record(e.date, e.city, s[i].pollutant, e.aqi)
                        && forall j :: 0 <= j < i ==> e.aqi < s[j].aqi
  {
    var xs := Aqis(s);
    var bottom := MinOf(xs);
    assert forall j :: 0 <= j < |s| ==> xs[j] == s[j].aqi;
    var i := FirstWithAqi(s, bottom);
    Extremum(bottom, s[i].city, s[i].date)
  }

  /** `df_filtered['Date'].max()`. */
  function LatestDate(s: seq<Record>): (day: int)
    requires |s| > 0
    ensures exists i :: 0 <= i < |s| && s[i].date == day
    ensures forall i :: 0 <= i < |s| ==> s[i].date <= day
  {
    var days := seq(|s|, i requires 0 <= i < |s| => s[i].date);
    var day := MaxOf(days);
    assert forall i :: 0 <= i < |s| ==> days[i] == s[i].date;
    day
  }

  /** The rows of `city` dated on the latest date of the whole frame. */
  function LatestRowsOf(s: seq<Record>, city: string): (rows: seq<Record>)
    requires |s| > 0
    ensures forall r :: r in rows <==> r in s && r.city == city && r.date == LatestDate(s)
    ensures forall x :: multiset(rows)[x] ==
              if x.city == city && x.date == LatestDate(s) then multiset(s)[x] else 0
  {
    var latest := LatestDate(s);
    var onLatest := Select(s, (r: Record) => r.date == latest);
    var rows := Select(onLatest, (r: Record) => r.city == city);
    assert forall x :: multiset(rows)[x] == if x.city == city && x.date == latest then multiset(s)[x] else 0 by {
      forall x
        ensures multiset(rows)[x] == if x.city == city && x.date == latest then multiset(s)[x] else 0
      {
        SelectCounts(s, (r: Record) => r.date == latest, x);
        SelectCounts(onLatest, (r: Record) => r.city == city, x);
      }
    }
    rows
  }

  /** "Current AQI" of a city: present exactly when the city has a reading on
      the frame's latest date; then it is `int(...)` of the mean of those
      readings, so it lies between the smallest and the largest of them. */
  function CurrentAqi(s: seq<Record>, city: string): (cur: Option<int>)
    requires |s| > 0
    ensures cur.Some? <==> exists r :: r in s && r.city == city && r.date == LatestDate(s)
    ensures cur.Some? ==> cur.value == Trunc(Mean(Aqis(LatestRowsOf(s, city))))
    ensures cur.Some? ==> exists r :: r in s && r.city == city && r.date == LatestDate(s) && r.aqi <= cur.value
    ensures cur.Some? ==> exists r :: r in s && r.city == city && r.date == LatestDate(s) && cur.value <= r.aqi
  {
    var rows := LatestRowsOf(s, city);
    if rows == [] then None
    else
      assert rows[0] in rows;
      var xs := Aqis(rows);
      TruncMeanWithin(xs);
      var lo :| 0 <= lo < |xs| && xs[lo] == MinOf(xs);
      assert rows[lo] in rows;
      var hi :| 0 <= hi < |xs| && xs[hi] == MaxOf(xs);
      assert rows[hi] in rows;
      Some(Trunc(Mean(xs)))
  }

  /** What the four cards show. */
  datatype Cards = Cards(
    current: Option<int>,
    highest: Extremum,
    lowest: Extremum,
    mostPolluted: string,
    mostPollutedAvg: int)

  /** The card row: shown only when the filtered frame is non-empty and at
      least one city is selected. The current AQI is that of the first
      selected city; the most polluted city is the row of the per-city table
      that `idxmax` picks, with its mean truncated. */
  function KpiCards(s: seq<Record>, selected: seq<string>): (k: Option<Cards>)
    ensures k.Some? <==> |s| > 0 && |selected| > 0
    ensures k.Some? ==> && k.value.current == CurrentAqi(s, selected[0])
                        && k.value.highest == Highest(s)
                        && k.value.lowest == Lowest(s)
    ensures k.Some? ==> && |CityTable(s)| > 0
                        && k.value.mostPolluted == CityTable(s)[MostPolluted(CityTable(s))].city
                        && k.value.mostPollutedAvg == Trunc(CityTable(s)[MostPolluted(CityTable(s))].mean)
  {
    if |s| == 0 || |selected| == 0 then None
    else
      var t := CityTable(s);
      CityTableNonEmpty(s);
      var i := MostPolluted(t);
      Some(Cards(CurrentAqi(s, selected[0]), Highest(s), Lowest(s), t[i].city, Trunc(t[i].mean)))
  }

  lemma CityTableNonEmpty(s: seq<Record>)
    requires |s| > 0
    ensures |CityTable(s)| > 0
  {
  }

  /** "Most Polluted City" is a city of the frame whose mean AQI is at least
      every city's mean; among cities with that mean it is the smallest in
      string order, the first group of `groupby('City')`. */
  lemma MostPollutedIsFirstLargestMean(s: seq<Record>, selected: seq<string>)
    requires |s| > 0 && |selected| > 0
    ensures KpiCards(s, selected).value.mostPolluted in CitySet(s)
    ensures var m := KpiCards(s, selected).value.mostPolluted;
            forall j :: 0 <= j < |CityTable(s)| ==> CityTable(s)[j].mean <= StatsOf(s, m).mean
    ensures var m := KpiCards(s, selected).value.mostPolluted;
            forall j :: 0 <= j < |CityTable(s)| && Below(CityTable(s)[j].city, m) ==>
              CityTable(s)[j].mean < StatsOf(s, m).mean
  {
    CityTableNonEmpty(s);
    IdxmaxRow(s);
  }

  /** The `idxmax` row of the per-city table holds the statistics of a city of
      the frame, and every row before it in string order comes before it in
      the table. */
  lemma IdxmaxRow(s: seq<Record>)
    requires |CityTable(s)| > 0
    ensures var t := CityTable(s);
            var i := MostPolluted(t);
            && t[i].city in CitySet(s)
            && t[i] == StatsOf(s, t[i].city)
            && forall j :: 0 <= j < |t| && Below(t[j].city, t[i].city) ==> j < i
  {
    var keys, t := Cities(s), CityTable(s);
    var i := MostPolluted(t);
    assert keys[i] in keys;
    assert t[i] == StatsOf(s, keys[i]);
    forall j | 0 <= j < |t| && Below(t[j].city, keys[i])
      ensures j < i
    {
      if i < j {
        assert Below(keys[i], keys[j]);
        BelowTransitive(keys[i], keys[j], keys[i]);
      }
    }
  }

  /** Every value on the cards lies between the lowest and the highest reading. */
  lemma CardsWithinExtremes(s: seq<Record>, selected: seq<string>)
    requires |s| > 0 && |selected| > 0
    ensures var k := KpiCards(s, selected).value;
            && k.lowest.aqi <= k.highest.aqi
            && (k.current.Some? ==> k.lowest.aqi <= k.current.value <= k.highest.aqi)
            && k.lowest.aqi <= k.mostPollutedAvg <= k.highest.aqi
  {
    var k := KpiCards(s, selected).value;
    var t := CityTable(s);
    CityTableNonEmpty(s);
    var i := MostPolluted(t);
    assert t[i] == StatsOf(s, Cities(s)[i]);
    StatsOfBounds(s, Cities(s)[i]);
    var rLo :| rLo in s && rLo.city == t[i].city && rLo.aqi == t[i].min;
    var rHi :| rHi in s && rHi.city == t[i].city && rHi.aqi == t[i].max;
    TruncWithin(t[i].mean, k.lowest.aqi, k.highest.aqi);
  }
}
