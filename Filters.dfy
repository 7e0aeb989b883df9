/** The sidebar filter stage: date range, cities, pollutants and AQI range,
    each a row mask that is skipped when its widget imposes nothing. */
module Filters {
  import opened Records

  /** What the sidebar widgets return. `dateRange` is the date picker's value:
      a (start, end) pair once both ends are picked, fewer dates otherwise.
      The AQI slider's ends are inclusive. */
  datatype Criteria = Criteria(
    dateRange: seq<int>,
    cities: seq<string>,
    pollutants: seq<string>,
    aqiLow: int,
    aqiHigh: int)

  /** A row's pollutant is one of the selected ones: `isin(selected_pollutants)`. */
  predicate AmongSelected(r: Record, pollutants: seq<string>) {
    r.pollutant in pollutants
  }

  datatype Stage = DateStage | CityStage | PollutantStage | AqiStage

  /** Whether a row survives one stage. An inactive stage lets every row through. */
  predicate Passes(r: Record, stage: Stage, c: Criteria, hasPollutant: bool) {
    match stage
    case DateStage => |c.dateRange| == 2 ==> c.dateRange[0] <= r.date <= c.dateRange[1]
    case CityStage => |c.cities| > 0 ==> r.city in c.cities
    case PollutantStage => hasPollutant && |c.pollutants| > 0 ==> AmongSelected(r, c.pollutants)
    case AqiStage => c.aqiLow <= r.aqi <= c.aqiHigh
  }

  /** A row is shown when it passes all four stages. */
  predicate Matches(r: Record, c: Criteria, hasPollutant: bool) {
    && Passes(r, DateStage, c, hasPollutant)
    && Passes(r, CityStage, c, hasPollutant)
    && Passes(r, PollutantStage, c, hasPollutant)
    && Passes(r, AqiStage, c, hasPollutant)
  }

  /** `df_filtered`: the rows of the dataset that match, in storage order. */
  function Filtered(d: Dataset, c: Criteria): (f: seq<Record>)
    ensures forall r :: r in f <==> r in d.rows && Matches(r, c, d.hasPollutant)
    ensures forall x :: multiset(f)[x] == if Matches(x, c, d.hasPollutant) then multiset(d.rows)[x] else 0
  {
    var f := Select(d.rows, (r: Record) => Matches(r, c, d.hasPollutant));
    forall x
      ensures multiset(f)[x] == if Matches(x, c, d.hasPollutant) then multiset(d.rows)[x] else 0
    {
      SelectCounts(d.rows, (r: Record) => Matches(r, c, d.hasPollutant), x);
    }
    f
  }

  /** The filter stage as the sidebar runs it: each active mask in turn
      narrows the frame of the previous step. */
  method ApplySidebarFilters(d: Dataset, c: Criteria) returns (filtered: seq<Record>)
    ensures filtered == Filtered(d, c)
  {
    ghost var hp := d.hasPollutant;
    if |c.dateRange| == 2 {
      var start, end := c.dateRange[0], c.dateRange[1];
      filtered := Select(d.rows, (r: Record) => start <= r.date <= end);
      SelectSameMask(d.rows, (r: Record) => start <= r.date <= end, (r: Record) => Passes(r, DateStage, c, hp));
    } else {
      filtered := d.rows;
      InactiveStageIsIdentity(d.rows, DateStage, c, hp);
    }
    ghost var f1 := filtered;
    assert f1 == ApplyStage(d.rows, DateStage, c, hp);
    if |c.cities| > 0 {
      filtered := Select(filtered, (r: Record) => r.city in c.cities);
    }
    StepIsStage(f1, filtered, CityStage, c, hp);
    ghost var f2 := filtered;
    if d.hasPollutant && |c.pollutants| > 0 {
      filtered := Select(filtered, (r: Record) => AmongSelected(r, c.pollutants));
    }
    StepIsStage(f2, filtered, PollutantStage, c, hp);
    ghost var f3 := filtered;
    filtered := Select(filtered, (r: Record) => c.aqiLow <= r.aqi <= c.aqiHigh);
    StepIsStage(f3, filtered, AqiStage, c, hp);
    assert filtered == Pipeline(d.rows, SIDEBAR_ORDER, c, hp) by {
      assert Pipeline(filtered, [], c, hp) == filtered;
      assert Pipeline(f3, [AqiStage], c, hp) == filtered;
      assert Pipeline(f2, [PollutantStage, AqiStage], c, hp) == filtered;
      assert Pipeline(f1, [CityStage, PollutantStage, AqiStage], c, hp) == filtered;
      assert SIDEBAR_ORDER[0] == DateStage && SIDEBAR_ORDER[1..] == [CityStage, PollutantStage, AqiStage];
    }
    SidebarOrderGivesFiltered(d, c);
  }

  /** One stage applied to a frame. */
  function ApplyStage(s: seq<Record>, stage: Stage, c: Criteria, hasPollutant: bool): seq<Record> {
    Select(s, (r: Record) => Passes(r, stage, c, hasPollutant))
  }

  /** The stages applied one after another in the given order. */
  function Pipeline(s: seq<Record>, order: seq<Stage>, c: Criteria, hasPollutant: bool): seq<Record>
    decreases |order|
  {
    if order == [] then s else Pipeline(ApplyStage(s, order[0], c, hasPollutant), order[1..], c, hasPollutant)
  }

  const SIDEBAR_ORDER: seq<Stage> := [DateStage, CityStage, PollutantStage, AqiStage]

  predicate PassesAll(r: Record, order: seq<Stage>, c: Criteria, hasPollutant: bool) {
    forall i :: 0 <= i < |order| ==> Passes(r, order[i], c, hasPollutant)
  }

  /** Whether a stage imposes nothing. */
  predicate Inactive(stage: Stage, c: Criteria, hasPollutant: bool) {
    match stage
    case DateStage => |c.dateRange| != 2
    case CityStage => |c.cities| == 0
    case PollutantStage => !hasPollutant || |c.pollutants| == 0
    case AqiStage => false
  }

  /** The date stage is the identity unless the picker holds a pair, the city
      stage on an empty selection, the pollutant stage without the column or
      on an empty selection. */
  lemma InactiveStageIsIdentity(s: seq<Record>, stage: Stage, c: Criteria, hasPollutant: bool)
    ensures Inactive(stage, c, hasPollutant) ==> ApplyStage(s, stage, c, hasPollutant) == s
  {
    if Inactive(stage, c, hasPollutant) {
      SelectKeepsAll(s, (r: Record) => Passes(r, stage, c, hasPollutant));
    }
  }

  /** One guarded rebinding of the sidebar equals the corresponding stage. */
  lemma StepIsStage(before: seq<Record>, after: seq<Record>, stage: Stage, c: Criteria, hasPollutant: bool)
    requires stage != DateStage
    requires Inactive(stage, c, hasPollutant) ==> after == before
    requires !Inactive(stage, c, hasPollutant) ==>
               after == match stage
                        case CityStage => Select(before, (r: Record) => r.city in c.cities)
                        case PollutantStage => Select(before, (r: Record) => AmongSelected(r, c.pollutants))
                        case _ => Select(before, (r: Record) => c.aqiLow <= r.aqi <= c.aqiHigh)
    ensures after == ApplyStage(before, stage, c, hasPollutant)
  {
    InactiveStageIsIdentity(before, stage, c, hasPollutant);
    if !Inactive(stage, c, hasPollutant) {
      match stage
      case CityStage =>
        SelectSameMask(before, (r: Record) => r.city in c.cities, (r: Record) => Passes(r, stage, c, hasPollutant));
      case PollutantStage =>
        SelectSameMask(before, (r: Record) => AmongSelected(r, c.pollutants), (r: Record) => Passes(r, stage, c, hasPollutant));
      case AqiStage =>
        SelectSameMask(before, (r: Record) => c.aqiLow <= r.aqi <= c.aqiHigh, (r: Record) => Passes(r, stage, c, hasPollutant));
    }
  }

  /** Running stages in sequence keeps exactly the rows that pass every stage
      named in the order, whatever that order is. */
  lemma {:induction false} PipelineIsConjunction(s: seq<Record>, order: seq<Stage>, c: Criteria, hasPollutant: bool)
    ensures Pipeline(s, order, c, hasPollutant) == Select(s, (r: Record) => PassesAll(r, order, c, hasPollutant))
    decreases |order|
  {
    if order == [] {
      SelectKeepsAll(s, (r: Record) => PassesAll(r, order, c, hasPollutant));
    } else {
      var first := (r: Record) => Passes(r, order[0], c, hasPollutant);
      var rest := (r: Record) => PassesAll(r, order[1..], c, hasPollutant);
      PipelineIsConjunction(ApplyStage(s, order[0], c, hasPollutant), order[1..], c, hasPollutant);
      SelectSelect(s, first, rest);
      forall r | r in s
        ensures (first(r) && rest(r)) == PassesAll(r, order, c, hasPollutant)
      {
        if first(r) && rest(r) {
          forall i | 0 <= i < |order|
            ensures Passes(r, order[i], c, hasPollutant)
          {
            if i > 0 {
              assert order[i] == order[1..][i - 1];
            }
          }
        }
      }
      SelectSameMask(s, (x: Record) => first(x) && rest(x), (r: Record) => PassesAll(r, order, c, hasPollutant));
    }
  }

  /** Applying the stages in any order, any number of times each, gives the
      same frame as long as the same stages take part: the filter stage is
      commutative and idempotent. */
  lemma PipelineOrderIrrelevant(s: seq<Record>, o1: seq<Stage>, o2: seq<Stage>, c: Criteria, hasPollutant: bool)
    requires forall st :: st in o1 <==> st in o2
    ensures Pipeline(s, o1, c, hasPollutant) == Pipeline(s, o2, c, hasPollutant)
  {
    PipelineIsConjunction(s, o1, c, hasPollutant);
    PipelineIsConjunction(s, o2, c, hasPollutant);
    forall r | r in s
      ensures PassesAll(r, o1, c, hasPollutant) == PassesAll(r, o2, c, hasPollutant)
    {
      if PassesAll(r, o1, c, hasPollutant) {
        forall i | 0 <= i < |o2| ensures Passes(r, o2[i], c, hasPollutant) {
          assert o2[i] in o1;
        }
      }
      if PassesAll(r, o2, c, hasPollutant) {
        forall i | 0 <= i < |o1| ensures Passes(r, o1[i], c, hasPollutant) {
          assert o1[i] in o2;
        }
      }
    }
    SelectSameMask(s, (r: Record) => PassesAll(r, o1, c, hasPollutant), (r: Record) => PassesAll(r, o2, c, hasPollutant));
  }

  /** The sidebar's own order of stages yields `Filtered`. */
  lemma SidebarOrderGivesFiltered(d: Dataset, c: Criteria)
    ensures Pipeline(d.rows, SIDEBAR_ORDER, c, d.hasPollutant) == Filtered(d, c)
  {
    var hp := d.hasPollutant;
    PipelineIsConjunction(d.rows, SIDEBAR_ORDER, c, hp);
    forall r | r in d.rows
      ensures PassesAll(r, SIDEBAR_ORDER, c, hp) == Matches(r, c, hp)
    {
      assert SIDEBAR_ORDER[0] == DateStage && SIDEBAR_ORDER[1] == CityStage;
      assert SIDEBAR_ORDER[2] == PollutantStage && SIDEBAR_ORDER[3] == AqiStage;
    }
    SelectSameMask(d.rows, (r: Record) => PassesAll(r, SIDEBAR_ORDER, c, hp), (r: Record) => Matches(r, c, hp));
  }

  /** Filtering the filtered frame again with the same criteria changes nothing. */
  lemma FilteredIdempotent(d: Dataset, c: Criteria)
    ensures Filtered(Dataset(d.hasPollutant, Filtered(d, c)), c) == Filtered(d, c)
  {
    SelectKeepsAll(Filtered(d, c), (r: Record) => Matches(r, c, d.hasPollutant));
  }

  /** The filtered frame is the order-preserving subsequence of exactly the
      matching rows: `idx` lists the positions of the matching rows in
      increasing order and the frame lists the rows at those positions. */
  lemma FilteredIsSubsequence(d: Dataset, c: Criteria)
    ensures var idx := KeptIndices(d.rows, (r: Record) => Matches(r, c, d.hasPollutant), 0);
            && StrictlyIncreasing(idx)
            && (forall i :: i in idx <==> 0 <= i < |d.rows| && Matches(d.rows[i], c, d.hasPollutant))
            && |Filtered(d, c)| == |idx|
            && (forall k :: 0 <= k < |idx| ==> Filtered(d, c)[k] == d.rows[idx[k]])
  {
    SelectIsSubsequence(d.rows, (r: Record) => Matches(r, c, d.hasPollutant), 0);
    assert d.rows[0..] == d.rows;
  }
}
