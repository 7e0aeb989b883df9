/** The group-by views: per-key mean AQI (trend lines, comparison bars,
    calendar cells) and the per-city statistics table, whose rows pandas lists
    in ascending key order. */
module Groups {
  import opened Wrappers
  import opened Records
  import opened Stats
  import Filters

  /** Python's `a < b` on strings: code-point lexicographic order, a proper
      prefix coming first. No string precedes itself. */
  predicate Below(a: string, b: string)
    ensures Below(a, b) ==> a != b
    decreases |a|
  {
    if |a| == 0 then |b| > 0
    else |b| > 0 && (a[0] < b[0] || (a[0] == b[0] && Below(a[1..], b[1..])))
  }

  lemma {:induction false} BelowTransitive(a: string, b: string, c: string)
    requires Below(a, b) && Below(b, c)
    ensures Below(a, c)
    decreases |a|
  {
    if |a| > 0 && a[0] == b[0] && b[0] == c[0] {
      BelowTransitive(a[1..], b[1..], c[1..]);
    }
  }

  lemma {:induction false} BelowTotal(a: string, b: string)
    ensures a == b || Below(a, b) || Below(b, a)
    decreases |a|
  {
    if |a| > 0 && |b| > 0 && a[0] == b[0] {
      BelowTotal(a[1..], b[1..]);
      if a[1..] == b[1..] {
        assert a == [a[0]] + a[1..] && b == [b[0]] + b[1..];
      }
    }
  }

  predicate Ascending(keys: seq<string>) {
    forall i, j :: 0 <= i < j < |keys| ==> Below(keys[i], keys[j])
  }

  /** Adds a key to an ascending list of distinct keys. */
  function Insert(keys: seq<string>, x: string): (r: seq<string>)
    requires Ascending(keys)
    ensures Ascending(r)
    ensures forall y :: y in r <==> y in keys || y == x
  {
    if keys == [] then [x]
    else if x == keys[0] then keys
    else if Below(x, keys[0]) then
      assert forall j :: 0 < j < |keys| ==> Below(x, keys[j]) by {
        forall j | 0 < j < |keys| ensures Below(x, keys[j]) {
          BelowTransitive(x, keys[0], keys[j]);
        }
      }
      [x] + keys
    else
      BelowTotal(x, keys[0]);
      var rest := Insert(keys[1..], x);
      assert forall y :: y in rest ==> Below(keys[0], y);
      [keys[0]] + rest
  }

  /** The cities present in a frame: the keys of `groupby('City')`. */
  function CitySet(s: seq<Record>): set<string> {
    set r | r in s :: r.city
  }

  /** The distinct cities of a frame in ascending order: the group order of
      `groupby('City')`. */
  function Cities(s: seq<Record>): (keys: seq<string>)
    ensures Ascending(keys)
    ensures forall c :: c in keys <==> c in CitySet(s)
  {
    if s == [] then []
    else
      var keys := Insert(Cities(s[1..]), s[0].city);
      assert CitySet(s) == CitySet(s[1..]) + {s[0].city} by {
        assert forall r :: r in s <==> r == s[0] || r in s[1..];
      }
      keys
  }

  /** The rows of one city, in frame order. */
  function RowsOf(s: seq<Record>, city: string): (rows: seq<Record>)
    ensures forall r :: r in rows <==> r in s && r.city == city
    ensures forall x :: multiset(rows)[x] == if x.city == city then multiset(s)[x] else 0
  {
    var rows := Select(s, (r: Record) => r.city == city);
    assert forall x :: multiset(rows)[x] == if x.city == city then multiset(s)[x] else 0 by {
      forall x { SelectCounts(s, (r: Record) => r.city == city, x); }
    }
    rows
  }

  /** Every reading of a non-empty list of rows lies between the column's min
      and max, and both are readings of some row. */
  lemma ReadingsBetween(rows: seq<Record>)
    requires |rows| > 0
    ensures forall r :: r in rows ==> MinOf(Aqis(rows)) <= r.aqi <= MaxOf(Aqis(rows))
    ensures exists r :: r in rows && r.aqi == MinOf(Aqis(rows))
    ensures exists r :: r in rows && r.aqi == MaxOf(Aqis(rows))
  {
    var xs := Aqis(rows);
    forall r | r in rows
      ensures MinOf(xs) <= r.aqi <= MaxOf(xs)
    {
      var i :| 0 <= i < |rows| && rows[i] == r;
      assert xs[i] == r.aqi;
    }
    var lo :| 0 <= lo < |xs| && xs[lo] == MinOf(xs);
    assert rows[lo] in rows && rows[lo].aqi == MinOf(xs);
    var hi :| 0 <= hi < |xs| && xs[hi] == MaxOf(xs);
    assert rows[hi] in rows && rows[hi].aqi == MaxOf(xs);
  }

  /** One row of the per-city table: mean, min and max AQI of the city. */
  datatype CityStats = CityStats(city: string, mean: real, min: int, max: int)

  /** The statistics of one city: the mean of exactly its readings, lying
      between its min and max. */
  function StatsOf(s: seq<Record>, city: string): (st: CityStats)
    requires city in CitySet(s)
    ensures st.city == city
    ensures |RowsOf(s, city)| > 0 && st.mean == Mean(Aqis(RowsOf(s, city)))
    ensures st.min as real <= st.mean <= st.max as real
  {
    var rows := RowsOf(s, city);
    var r0 :| r0 in s && r0.city == city;
    assert r0 in rows;
    var xs := Aqis(rows);
    MeanWithin(xs);
    CityStats(city, Mean(xs), MinOf(xs), MaxOf(xs))
  }

  /** A city's min and max bound every reading of the city and are attained. */
  lemma StatsOfBounds(s: seq<Record>, city: string)
    requires city in CitySet(s)
    ensures var st := StatsOf(s, city);
            && (forall r :: r in s && r.city == city ==> st.min <= r.aqi <= st.max)
            && (exists r :: r in s && r.city == city && r.aqi == st.min)
            && (exists r :: r in s && r.city == city && r.aqi == st.max)
  {
    var rows := RowsOf(s, city);
    var r0 :| r0 in s && r0.city == city;
    assert r0 in rows;
    ReadingsBetween(rows);
  }

  function StatsFor(s: seq<Record>, keys: seq<string>): (t: seq<CityStats>)
    requires forall k :: k in keys ==> k in CitySet(s)
    ensures |t| == |keys|
    ensures forall i :: 0 <= i < |t| ==> t[i] == StatsOf(s, keys[i])
  {
    seq(|keys|, i requires 0 <= i < |keys| => StatsOf(s, keys[i]))
  }

  /** `groupby('City')['AQI'].agg(['mean', 'min', 'max'])`: the rows follow
      the group order, one per distinct city in ascending order. */
  function CityTable(s: seq<Record>): (t: seq<CityStats>)
    ensures |t| == |Cities(s)|
    ensures forall i :: 0 <= i < |t| ==> t[i].city == Cities(s)[i]
  {
    StatsFor(s, Cities(s))
  }

  /** The per-city table in full: one row per distinct city, in ascending
      city order; each row's mean is the mean of exactly that city's
      readings, its min and max bound every reading of the city and are
      attained, and its mean lies between them. */
  lemma CityTableSpec(s: seq<Record>)
    ensures var t := CityTable(s);
            && (forall i, j :: 0 <= i < j < |t| ==> Below(t[i].city, t[j].city))
            && (forall c :: c in CitySet(s) <==> exists i :: 0 <= i < |t| && t[i].city == c)
            && (forall i :: 0 <= i < |t| ==>
                  |RowsOf(s, t[i].city)| > 0 && t[i].mean == Mean(Aqis(RowsOf(s, t[i].city))))
            && (forall i :: 0 <= i < |t| ==> t[i].min as real <= t[i].mean <= t[i].max as real)
            && (forall i, r :: 0 <= i < |t| && r in s && r.city == t[i].city ==> t[i].min <= r.aqi <= t[i].max)
            && (forall i :: 0 <= i < |t| ==> exists r :: r in s && r.city == t[i].city && r.aqi == t[i].min)
            && (forall i :: 0 <= i < |t| ==> exists r :: r in s && r.city == t[i].city && r.aqi == t[i].max)
  {
    var keys, t := Cities(s), CityTable(s);
    forall c | c in CitySet(s)
      ensures exists i :: 0 <= i < |t| && t[i].city == c
    {
      var i :| 0 <= i < |keys| && keys[i] == c;
      assert t[i].city == c;
    }
    forall i | 0 <= i < |t|
      ensures |RowsOf(s, t[i].city)| > 0 && t[i].mean == Mean(Aqis(RowsOf(s, t[i].city)))
      ensures t[i].min as real <= t[i].mean <= t[i].max as real
      ensures forall r :: r in s && r.city == t[i].city ==> t[i].min <= r.aqi <= t[i].max
      ensures exists r :: r in s && r.city == t[i].city && r.aqi == t[i].min
      ensures exists r :: r in s && r.city == t[i].city && r.aqi == t[i].max
    {
      assert t[i] == StatsOf(s, keys[i]);
      StatsOfBounds(s, keys[i]);
    }
  }

  /** `idxmax` over the mean column: the first row whose mean is largest. */
  function MostPolluted(t: seq<CityStats>): (i: nat)
    requires |t| > 0
    ensures i < |t|
    ensures forall j :: 0 <= j < |t| ==> t[j].mean <= t[i].mean
    ensures forall j :: 0 <= j < i ==> t[j].mean < t[i].mean
  {
    if |t| == 1 then 0
    else
      var k := MostPolluted(t[1..]) + 1;
      if t[0].mean >= t[k].mean then 0 else k
  }

  /** The set of group keys present in a frame. */
  function KeysOf<K(==)>(s: seq<Record>, key: Record -> K): set<K> {
    set r | r in s :: key(r)
  }

  /** The mask of the rows whose key is `k`. */
  function HasKey<K(==)>(key: Record -> K, k: K): Record -> bool {
    (r: Record) => key(r) == k
  }

  /** The mean AQI of the rows whose key is `k`. */
  function GroupMean<K(==)>(s: seq<Record>, key: Record -> K, k: K): (m: real)
    requires k in KeysOf(s, key)
    ensures exists r :: r in s && key(r) == k && r.aqi as real <= m
    ensures exists r :: r in s && key(r) == k && m <= r.aqi as real
  {
    var rows := Select(s, HasKey(key, k));
    var xs := Aqis(rows);
    var r0 :| r0 in s && key(r0) == k;
    assert r0 in rows;
    MeanWithin(xs);
    var lo :| 0 <= lo < |xs| && xs[lo] == MinOf(xs);
    assert rows[lo] in rows;
    var hi :| 0 <= hi < |xs| && xs[hi] == MaxOf(xs);
    assert rows[hi] in rows;
    Mean(xs)
  }

  /** `groupby(key)['AQI'].mean()`: one entry per distinct key, each the mean
      of exactly the rows with that key, so it lies between the smallest and
      the largest of their readings. */
  function GroupMeans<K(==)>(s: seq<Record>, key: Record -> K): (g: map<K, real>)
    ensures g.Keys == KeysOf(s, key)
    ensures forall k :: k in g ==>
              var rows := Select(s, HasKey(key, k));
              |rows| > 0 && g[k] == Mean(Aqis(rows))
    ensures forall k :: k in g ==> exists r :: r in s && key(r) == k && r.aqi as real <= g[k]
    ensures forall k :: k in g ==> exists r :: r in s && key(r) == k && g[k] <= r.aqi as real
  {
    forall k | k in KeysOf(s, key) ensures |Select(s, HasKey(key, k))| > 0 {
      GroupNonEmpty(s, key, k);
    }
    map k | k in KeysOf(s, key) :: GroupMean(s, key, k)
  }

  /** Every key present in the frame has at least one row. */
  lemma GroupNonEmpty<K>(s: seq<Record>, key: Record -> K, k: K)
    requires k in KeysOf(s, key)
    ensures |Select(s, HasKey(key, k))| > 0
  {
    var r0 :| r0 in s && key(r0) == k;
    assert r0 in Select(s, HasKey(key, k));
  }

  /** The keys of a selection are the keys of the rows the mask keeps. */
  lemma KeysOfSelection<K>(s: seq<Record>, keep: Record -> bool, key: Record -> K)
    ensures forall k :: k in KeysOf(Select(s, keep), key) <==> exists r :: r in s && keep(r) && key(r) == k
  {
    forall k | exists r :: r in s && keep(r) && key(r) == k
      ensures k in KeysOf(Select(s, keep), key)
    {
      var r :| r in s && keep(r) && key(r) == k;
      assert r in Select(s, keep);
    }
  }

  /** Grouping a selection by `key` and taking group `k` selects, from the
      whole frame, the rows the selection keeps whose key is `k`. */
  lemma GroupOfSelection<K>(s: seq<Record>, keep: Record -> bool, key: Record -> K, k: K, cell: Record -> bool)
    requires forall r :: cell(r) == (keep(r) && key(r) == k)
    ensures Select(Select(s, keep), HasKey(key, k)) == Select(s, cell)
  {
    SelectBoth(s, keep, HasKey(key, k), cell);
  }

  // Group keys of the chart views.
  function DateCity(r: Record): (int, string) { (r.date, r.city) }
  function CityPollutant(r: Record): (string, string) { (r.city, r.pollutant) }
  function DateOf(r: Record): int { r.date }
  function CityOf(r: Record): string { r.city }

  /** Whether the pollutant selection is in force for the charts. */
  predicate PollutantFocus(hasPollutant: bool, pollutants: seq<string>) {
    hasPollutant && |pollutants| > 0
  }

  /** A row belongs to the charts' pollutant: the first selected one when the
      selection is in force, any otherwise. */
  predicate OfFocus(r: Record, hasPollutant: bool, pollutants: seq<string>) {
    PollutantFocus(hasPollutant, pollutants) ==> r.pollutant == pollutants[0]
  }

  /** The charts' pre-selection of the first selected pollutant keeps exactly
      the rows of the focus pollutant. */
  lemma FocusSelection(s: seq<Record>, hasPollutant: bool, pollutants: seq<string>)
    ensures (if PollutantFocus(hasPollutant, pollutants)
             then Select(s, (r: Record) => r.pollutant == pollutants[0])
             else s)
            == Select(s, (r: Record) => OfFocus(r, hasPollutant, pollutants))
  {
    if PollutantFocus(hasPollutant, pollutants) {
      SelectSameMask(s, (r: Record) => r.pollutant == pollutants[0], (r: Record) => OfFocus(r, hasPollutant, pollutants));
    } else {
      SelectKeepsAll(s, (r: Record) => OfFocus(r, hasPollutant, pollutants));
    }
  }

  /** Trend lines: mean AQI per (date, city), restricted to the first selected
      pollutant when the selection is in force. Each point is the mean of
      exactly the rows of its date and city (and focus pollutant). */
  function TrendSeries(s: seq<Record>, hasPollutant: bool, pollutants: seq<string>): (g: map<(int, string), real>)
    ensures forall k :: k in g <==>
              exists r :: r in s && (r.date, r.city) == k && OfFocus(r, hasPollutant, pollutants)
    ensures forall k :: k in g ==>
              var cell := Select(s, (r: Record) => (r.date, r.city) == k && OfFocus(r, hasPollutant, pollutants));
              |cell| > 0 && g[k] == Mean(Aqis(cell))
  {
    var rows := if PollutantFocus(hasPollutant, pollutants)
                then Select(s, (r: Record) => r.pollutant == pollutants[0])
                else s;
    FocusSelection(s, hasPollutant, pollutants);
    KeysOfSelection(s, (r: Record) => OfFocus(r, hasPollutant, pollutants), DateCity);
    var g := GroupMeans(rows, DateCity);
    assert forall k :: k in g ==>
             Select(rows, HasKey(DateCity, k))
             == Select(s, (r: Record) => (r.date, r.city) == k && OfFocus(r, hasPollutant, pollutants)) by {
      forall k | k in g
        ensures Select(rows, HasKey(DateCity, k))
                == Select(s, (r: Record) => (r.date, r.city) == k && OfFocus(r, hasPollutant, pollutants))
      {
        GroupOfSelection(s, (r: Record) => OfFocus(r, hasPollutant, pollutants), DateCity, k,
                         (r: Record) => (r.date, r.city) == k && OfFocus(r, hasPollutant, pollutants));
      }
    }
    g
  }

  /** The comparison bars: per (city, pollutant) over the selected pollutants
      when the selection is in force, otherwise per city. */
  datatype Bars = PerCityAndPollutant(means: map<(string, string), real>) | PerCity(table: seq<CityStats>)

  /** The per-(city, pollutant) bars over the selected pollutants: one bar
      per pair present among those rows, each the mean of exactly the rows of
      that city and pollutant. */
  function PollutantBars(s: seq<Record>, pollutants: seq<string>): (g: map<(string, string), real>)
    ensures forall k :: k in g <==>
              exists r :: r in s && (r.city, r.pollutant) == k && Filters.AmongSelected(r, pollutants)
    ensures forall k :: k in g ==>
              var cell := Select(s, (r: Record) => (r.city, r.pollutant) == k && Filters.AmongSelected(r, pollutants));
              |cell| > 0 && g[k] == Mean(Aqis(cell))
  {
    var rows := Select(s, (r: Record) => Filters.AmongSelected(r, pollutants));
    KeysOfSelection(s, (r: Record) => Filters.AmongSelected(r, pollutants), CityPollutant);
    var g := GroupMeans(rows, CityPollutant);
    forall k | k in g
      ensures var cell := Select(s, (r: Record) => (r.city, r.pollutant) == k && Filters.AmongSelected(r, pollutants));
              |cell| > 0 && g[k] == Mean(Aqis(cell))
    {
      GroupOfSelection(s, (r: Record) => Filters.AmongSelected(r, pollutants), CityPollutant, k,
                       (r: Record) => (r.city, r.pollutant) == k && Filters.AmongSelected(r, pollutants));
    }
    g
  }

  function ComparisonBars(s: seq<Record>, hasPollutant: bool, pollutants: seq<string>): (b: Bars)
    ensures b.PerCityAndPollutant? <==> PollutantFocus(hasPollutant, pollutants)
    ensures b.PerCityAndPollutant? ==>
              forall k :: k in b.means <==>
                exists r :: r in s && (r.city, r.pollutant) == k && Filters.AmongSelected(r, pollutants)
    ensures b.PerCityAndPollutant? ==>
              forall k :: k in b.means ==>
                var cell := Select(s, (r: Record) => (r.city, r.pollutant) == k && Filters.AmongSelected(r, pollutants));
                |cell| > 0 && b.means[k] == Mean(Aqis(cell))
    ensures b.PerCity? ==> b.table == CityTable(s)
  {
    if PollutantFocus(hasPollutant, pollutants)
    then PerCityAndPollutant(PollutantBars(s, pollutants))
    else PerCity(CityTable(s))
  }

  /** The calendar cells of one city: mean AQI per date, restricted to the
      first selected pollutant when the selection is in force; nothing when
      the city has no rows. Each cell is the mean of exactly the city's rows
      of that date (and focus pollutant). */
  function CalendarSeries(s: seq<Record>, hasPollutant: bool, pollutants: seq<string>, city: string): (cal: Option<map<int, real>>)
    ensures cal.Some? <==> city in CitySet(s)
    ensures cal.Some? ==>
              forall day :: day in cal.value <==>
                exists r :: r in s && r.city == city && r.date == day && OfFocus(r, hasPollutant, pollutants)
    ensures cal.Some? ==>
              forall day :: day in cal.value ==>
                var cell := Select(s, (r: Record) => r.city == city && r.date == day && OfFocus(r, hasPollutant, pollutants));
                |cell| > 0 && cal.value[day] == Mean(Aqis(cell))
  {
    var cityRows := RowsOf(s, city);
    if cityRows == [] then None
    else
      assert city in CitySet(s) by { assert cityRows[0] in cityRows; }
      var rows := if PollutantFocus(hasPollutant, pollutants)
                  then Select(cityRows, (r: Record) => r.pollutant == pollutants[0])
                  else cityRows;
      FocusSelection(cityRows, hasPollutant, pollutants);
      SelectBoth(s, (r: Record) => r.city == city, (r: Record) => OfFocus(r, hasPollutant, pollutants),
                 (r: Record) => r.city == city && OfFocus(r, hasPollutant, pollutants));
      var g := GroupMeans(rows, DateOf);
      assert forall day :: day in g ==>
               Select(rows, HasKey(DateOf, day))
               == Select(s, (r: Record) => r.city == city && r.date == day && OfFocus(r, hasPollutant, pollutants)) by {
        forall day | day in g
          ensures Select(rows, HasKey(DateOf, day))
                  == Select(s, (r: Record) => r.city == city && r.date == day && OfFocus(r, hasPollutant, pollutants))
        {
          GroupOfSelection(s, (r: Record) => r.city == city && OfFocus(r, hasPollutant, pollutants), DateOf, day,
                           (r: Record) => r.city == city && r.date == day && OfFocus(r, hasPollutant, pollutants));
        }
      }
      Some(g)
  }

  /** The per-city table agrees with the generic group-by on the city: row
      `i`'s mean is the group mean of its city. */
  lemma CityTableIsGroupMeans(s: seq<Record>)
    ensures var t, g := CityTable(s), GroupMeans(s, CityOf);
            && g.Keys == CitySet(s)
            && forall i :: 0 <= i < |t| ==> t[i].city in g && g[t[i].city] == t[i].mean
  {
    var t, g := CityTable(s), GroupMeans(s, CityOf);
    CityTableSpec(s);
    forall i | 0 <= i < |t| ensures t[i].city in g && g[t[i].city] == t[i].mean {
      SelectSameMask(s, (r: Record) => r.city == t[i].city, HasKey(CityOf, t[i].city));
    }
  }

  /** On the filtered frame the comparison tab's re-selection of the chosen
      pollutants removes nothing: the sidebar already kept only those. */
  lemma ComparisonReselectionIsIdentity(d: Dataset, c: Filters.Criteria)
    requires PollutantFocus(d.hasPollutant, c.pollutants)
    ensures var f := Filters.Filtered(d, c);
            Select(f, (r: Record) => Filters.AmongSelected(r, c.pollutants)) == f
  {
    var f := Filters.Filtered(d, c);
    forall r | r in f ensures Filters.AmongSelected(r, c.pollutants) {
      assert Filters.Passes(r, Filters.PollutantStage, c, d.hasPollutant);
    }
    SelectKeepsAll(f, (r: Record) => Filters.AmongSelected(r, c.pollutants));
  }
}
