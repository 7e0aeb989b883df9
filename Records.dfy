/** The measurements the dashboard works on and the row selection that every
    filter and every aggregate view is built from. */
module Records {

  /** One AQI measurement. `date` is the calendar date of the Date column as a
      day ordinal; `pollutant` carries meaning only when the dataset has a
      Pollutant column. */
  datatype Record = Record(date: int, city: string, pollutant: string, aqi: int)

  /** A loaded frame: its rows in storage order, and whether a Pollutant column
      is present (the column is optional and gates the pollutant paths). */
  datatype Dataset = Dataset(hasPollutant: bool, rows: seq<Record>)

  /** Boolean-mask selection `frame[mask]`: the rows the mask accepts, in their
      original order. */
  function Select(s: seq<Record>, keep: Record -> bool): (r: seq<Record>)
    ensures |r| <= |s|
    ensures forall x :: x in r <==> x in s && keep(x)
  {
    if s == [] then []
    else (if keep(s[0]) then [s[0]] else []) + Select(s[1..], keep)
  }

  /** The positions, from `from` on, of the rows the mask accepts: the index
      labels a pandas selection keeps. */
  function KeptIndices(s: seq<Record>, keep: Record -> bool, from: nat): (idx: seq<nat>)
    requires from <= |s|
    ensures StrictlyIncreasing(idx)
    ensures forall i :: i in idx <==> from <= i < |s| && keep(s[i])
    ensures forall k :: 0 <= k < |idx| ==> from <= idx[k] < |s|
    decreases |s| - from
  {
    if from == |s| then []
    else (if keep(s[from]) then [from] else []) + KeptIndices(s, keep, from + 1)
  }

  predicate StrictlyIncreasing(idx: seq<nat>) {
    forall i, j :: 0 <= i < j < |idx| ==> idx[i] < idx[j]
  }

  /** The AQI column of a frame. */
  function Aqis(s: seq<Record>): seq<int> {
    seq(|s|, i requires 0 <= i < |s| => s[i].aqi)
  }

  /** Selection is exactly the order-preserving subsequence of accepted rows:
      the kept positions are increasing, are precisely the accepted positions,
      and the selection lists the rows at those positions. */
  lemma {:induction false} SelectIsSubsequence(s: seq<Record>, keep: Record -> bool, from: nat)
    requires from <= |s|
    ensures |Select(s[from..], keep)| == |KeptIndices(s, keep, from)|
    ensures forall k :: 0 <= k < |KeptIndices(s, keep, from)| ==>
              Select(s[from..], keep)[k] == s[KeptIndices(s, keep, from)[k]]
    decreases |s| - from
  {
    if from < |s| {
      SelectIsSubsequence(s, keep, from + 1);
      assert s[from..][0] == s[from];
      assert s[from..][1..] == s[from + 1..];
    }
  }

  /** Selecting from a concatenation selects from each part. */
  lemma {:induction false} SelectAppend(a: seq<Record>, b: seq<Record>, keep: Record -> bool)
    ensures Select(a + b, keep) == Select(a, keep) + Select(b, keep)
  {
    if a == [] {
      assert a + b == b;
    } else {
      assert (a + b)[0] == a[0];
      assert (a + b)[1..] == a[1..] + b;
      SelectAppend(a[1..], b, keep);
    }
  }

  /** A selection keeps every accepted row as often as the input holds it and
      drops every other row. */
  lemma {:induction false} SelectCounts(s: seq<Record>, keep: Record -> bool, x: Record)
    ensures multiset(Select(s, keep))[x] == if keep(x) then multiset(s)[x] else 0
  {
    if s != [] {
      SelectCounts(s[1..], keep, x);
      assert s == [s[0]] + s[1..];
    }
  }

  /** Two selections in a row are one selection by the conjunction. */
  lemma {:induction false} SelectSelect(s: seq<Record>, p: Record -> bool, q: Record -> bool)
    ensures Select(Select(s, p), q) == Select(s, x => p(x) && q(x))
  {
    if s != [] {
      SelectSelect(s[1..], p, q);
      SelectAppend(if p(s[0]) then [s[0]] else [], Select(s[1..], p), q);
    }
  }

  /** Two selections in a row are one selection by any mask that accepts
      exactly the rows both accept. */
  lemma {:induction false} SelectBoth(s: seq<Record>, p: Record -> bool, q: Record -> bool, both: Record -> bool)
    requires forall x :: both(x) == (p(x) && q(x))
    ensures Select(Select(s, p), q) == Select(s, both)
  {
    if s != [] {
      SelectBoth(s[1..], p, q, both);
      SelectAppend(if p(s[0]) then [s[0]] else [], Select(s[1..], p), q);
    }
  }

  /** Masks that agree on every row select the same rows. */
  lemma {:induction false} SelectSameMask(s: seq<Record>, p: Record -> bool, q: Record -> bool)
    requires forall x :: x in s ==> p(x) == q(x)
    ensures Select(s, p) == Select(s, q)
  {
    if s != [] {
      SelectSameMask(s[1..], p, q);
    }
  }

  /** A mask that accepts every row leaves the frame as it is. */
  lemma {:induction false} SelectKeepsAll(s: seq<Record>, keep: Record -> bool)
    requires forall x :: x in s ==> keep(x)
    ensures Select(s, keep) == s
  {
    if s != [] {
      SelectKeepsAll(s[1..], keep);
    }
  }
}
