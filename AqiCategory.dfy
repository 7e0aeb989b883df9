/** The six AQI categories of the US EPA index (40 CFR Part 58, Appendix G)
    with the display colour the dashboard gives each. */
module AqiCategory {

  datatype Band = Good | Moderate | SensitiveGroups | Unhealthy | VeryUnhealthy | Hazardous

  /** Position of a band in the ascending order of severity. */
  function Rank(b: Band): nat {
    match b
    case Good => 0
    case Moderate => 1
    case SensitiveGroups => 2
    case Unhealthy => 3
    case VeryUnhealthy => 4
    case Hazardous => 5
  }

  function Label(b: Band): string {
    match b
    case Good => "Good"
    case Moderate => "Moderate"
    case SensitiveGroups => "Unhealthy for Sensitive Groups"
    case Unhealthy => "Unhealthy"
    case VeryUnhealthy => "Very Unhealthy"
    case Hazardous => "Hazardous"
  }

  function Colour(b: Band): string {
    match b
    case Good => "#00e400"
    case Moderate => "#ffff00"
    case SensitiveGroups => "#ff7e00"
    case Unhealthy => "#ff0000"
    case VeryUnhealthy => "#99004c"
    case Hazardous => "#7e0023"
  }

  /** Inclusive upper bounds of the first five bands; the last is unbounded. */
  const UPPER_BOUNDS: seq<int> := [50, 100, 150, 200, 300]

  /** The six (label, colour) pairs the classifier can return, mildest first. */
  const PALETTE: seq<(string, string)> := [
    ("Good", "#00e400"),
    ("Moderate", "#ffff00"),
    ("Unhealthy for Sensitive Groups", "#ff7e00"),
    ("Unhealthy", "#ff0000"),
    ("Very Unhealthy", "#99004c"),
    ("Hazardous", "#7e0023")
  ]

  /** The band of an AQI value: the value lies above the bound of the band
      below it and at or under the band's own bound. Values under 0 fall in Good. */
  function BandOf(aqi: int): (b: Band)
    ensures Rank(b) < 5 ==> aqi <= UPPER_BOUNDS[Rank(b)]
    ensures Rank(b) > 0 ==> UPPER_BOUNDS[Rank(b) - 1] < aqi
  {
    if aqi <= 50 then Good
    else if aqi <= 100 then Moderate
    else if aqi <= 150 then SensitiveGroups
    else if aqi <= 200 then Unhealthy
    else if aqi <= 300 then VeryUnhealthy
    else Hazardous
  }

  /** `get_aqi_category`: the (label, colour) pair of an AQI value. */
  function Category(aqi: int): (lc: (string, string))
    ensures lc in PALETTE
    ensures lc == PALETTE[Rank(BandOf(aqi))]
  {
    (Label(BandOf(aqi)), Colour(BandOf(aqi)))
  }

  /** How many of the bounds lie strictly below a value. */
  function CountBelow(bounds: seq<int>, aqi: int): nat {
    if bounds == [] then 0
    else (if bounds[0] < aqi then 1 else 0) + CountBelow(bounds[1..], aqi)
  }

  /** Reference reading of the category table: the band's rank is the number
      of upper bounds the value exceeds. */
  lemma {:induction false} RankCountsBoundsExceeded(aqi: int)
    ensures Rank(BandOf(aqi)) == CountBelow(UPPER_BOUNDS, aqi)
  {
    var c5 := CountBelow([300], aqi);
    assert [300][1..] == [] && CountBelow([], aqi) == 0;
    assert c5 == if 300 < aqi then 1 else 0;
    assert [200, 300][1..] == [300];
    var c4 := CountBelow([200, 300], aqi);
    assert c4 == (if 200 < aqi then 1 else 0) + c5;
    assert [150, 200, 300][1..] == [200, 300];
    var c3 := CountBelow([150, 200, 300], aqi);
    assert c3 == (if 150 < aqi then 1 else 0) + c4;
    assert [100, 150, 200, 300][1..] == [150, 200, 300];
    var c2 := CountBelow([100, 150, 200, 300], aqi);
    assert c2 == (if 100 < aqi then 1 else 0) + c3;
    assert UPPER_BOUNDS[1..] == [100, 150, 200, 300];
    assert CountBelow(UPPER_BOUNDS, aqi) == (if 50 < aqi then 1 else 0) + c2;
  }

  /** Counting exceeded bounds is monotone in the value. */
  lemma {:induction false} CountBelowMonotone(bounds: seq<int>, v: int, w: int)
    requires v <= w
    ensures CountBelow(bounds, v) <= CountBelow(bounds, w)
  {
    if bounds != [] {
      CountBelowMonotone(bounds[1..], v, w);
    }
  }

  /** A larger AQI never lands in a milder band. */
  lemma BandMonotone(v: int, w: int)
    requires v <= w
    ensures Rank(BandOf(v)) <= Rank(BandOf(w))
  {
    RankCountsBoundsExceeded(v);
    RankCountsBoundsExceeded(w);
    CountBelowMonotone(UPPER_BOUNDS, v, w);
  }

  /** Every value maps to exactly one of the six pairs, and a label always
      comes with the same colour. */
  lemma CategoryExactlyOne(v: int, w: int)
    ensures exists i :: 0 <= i < |PALETTE| && Category(v) == PALETTE[i]
    ensures forall i, j :: 0 <= i < j < |PALETTE| ==> PALETTE[i].0 != PALETTE[j].0
    ensures Category(v).0 == Category(w).0 ==> Category(v).1 == Category(w).1
  {
    assert Category(v) == PALETTE[Rank(BandOf(v))];
  }
}
