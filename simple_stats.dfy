/** The memory-light statistics of one CSV column: a single pass over the
    rows after the header that keeps the minimum, the maximum, the sum and
    count of all parsed values, and the sum and count of the positive ones.
    Each row is given as the already-parsed column: `None` where `float()`
    raised ValueError or the row was too short (IndexError). */
module SimpleStats {
  import opened Common

  /** min and max are `None` where the source leaves +inf / -inf. */
  datatype Stats = Stats(
    min: Option<real>,
    max: Option<real>,
    mean: real,
    meanNonZero: real,
    countTotal: nat,
    countNonZero: nat)

  /** `next(reader)` on an empty file raises StopIteration. */
  datatype StatsError = MissingHeader

  /** The values of the rows whose column parsed, in file order. */
  function Parsed(column: seq<Option<real>>): seq<real>
  {
    if column == [] then []
    else Parsed(column[..|column| - 1]) +
         (if column[|column| - 1].Some? then [column[|column| - 1].value] else [])
  }

  /** The strictly positive values, in order. */
  function Positives(vals: seq<real>): seq<real>
  {
    if vals == [] then []
    else Positives(vals[..|vals| - 1]) + (if vals[|vals| - 1] > 0.0 then [vals[|vals| - 1]] else [])
  }

  function Sum(vals: seq<real>): real
  {
    if vals == [] then 0.0 else Sum(vals[..|vals| - 1]) + vals[|vals| - 1]
  }

  /** The running minimum: replaced whenever a value is smaller. */
  function SeqMin(vals: seq<real>): real
    requires vals != []
  {
    if |vals| == 1 then vals[0]
    else
      var m := SeqMin(vals[..|vals| - 1]);
      if vals[|vals| - 1] < m then vals[|vals| - 1] else m
  }

  /** The running maximum: replaced whenever a value is larger. */
  function SeqMax(vals: seq<real>): real
    requires vals != []
  {
    if |vals| == 1 then vals[0]
    else
      var m := SeqMax(vals[..|vals| - 1]);
      if vals[|vals| - 1] > m then vals[|vals| - 1] else m
  }

  /** Mean guarded against an empty count, as the source writes it. */
  function Mean(total: real, count: nat): real
  {
    if count > 0 then total / count as real else 0.0
  }

  /** The statistics of the parsed values. */
  function StatsOf(vals: seq<real>): Stats
  {
    Stats(if vals == [] then None else Some(SeqMin(vals)),
          if vals == [] then None else Some(SeqMax(vals)),
          Mean(Sum(vals), |vals|),
          Mean(Sum(Positives(vals)), |Positives(vals)|),
          |vals|,
          |Positives(vals)|)
  }

  /** The accumulators of the fold hold the statistics of the values `seen`. */
  ghost predicate Tracks(seen: seq<real>, minVal: Option<real>, maxVal: Option<real>,
                         totalSum: real, totalSumNonZero: real, count: nat, countNonZero: nat)
  {
    count == |seen| && totalSum == Sum(seen) &&
    countNonZero == |Positives(seen)| && totalSumNonZero == Sum(Positives(seen)) &&
    minVal == (if seen == [] then None else Some(SeqMin(seen))) &&
    maxVal == (if seen == [] then None else Some(SeqMax(seen)))
  }

  /** The `calculate_simple_stats` loop body, on a row whose column parsed:
      the updated accumulators hold the statistics of one more value. */
  lemma TracksStep(seen: seq<real>, minVal: Option<real>, maxVal: Option<real>,
                   totalSum: real, totalSumNonZero: real, count: nat, countNonZero: nat, val: real)
    requires Tracks(seen, minVal, maxVal, totalSum, totalSumNonZero, count, countNonZero)
    ensures Tracks(seen + [val],
                   if minVal.None? || val < minVal.value then Some(val) else minVal,
                   if maxVal.None? || val > maxVal.value then Some(val) else maxVal,
                   totalSum + val,
                   if val > 0.0 then totalSumNonZero + val else totalSumNonZero,
                   count + 1,
                   if val > 0.0 then countNonZero + 1 else countNonZero)
  {
    AppendStep(seen, val);
  }

  /** `calculate_simple_stats`: skip the header row, then fold over the rows,
      skipping those whose column did not parse. */
  method CalculateSimpleStats(rows: seq<Option<real>>) returns (r: Result<Stats, StatsError>)
    ensures rows == [] <==> r == Failure(MissingHeader)
    ensures rows != [] ==> r == Success(StatsOf(Parsed(rows[1..])))
  {
    if rows == [] {
      return Failure(MissingHeader);
    }
    var data := rows[1..];
    var minVal: Option<real> := None;
    var maxVal: Option<real> := None;
    var totalSum := 0.0;
    var totalSumNonZero := 0.0;
    var count: nat := 0;
    var countNonZero: nat := 0;
    ghost var seen: seq<real> := [];
    for i := 0 to |data|
      invariant seen == Parsed(data[..i])
      invariant Tracks(seen, minVal, maxVal, totalSum, totalSumNonZero, count, countNonZero)
    {
      ParsedStep(data, i);
      if data[i].Some? {
        var val := data[i].value;
        TracksStep(seen, minVal, maxVal, totalSum, totalSumNonZero, count, countNonZero, val);
        seen := seen + [val];
        if minVal.None? || val < minVal.value {
          minVal := Some(val);
        }
        if maxVal.None? || val > maxVal.value {
          maxVal := Some(val);
        }
        totalSum := totalSum + val;
        count := count + 1;
        if val > 0.0 {
          totalSumNonZero := totalSumNonZero + val;
          countNonZero := countNonZero + 1;
        }
      }
    }
    assert data[..|data|] == data;
    var stats := Stats(minVal, maxVal, Mean(totalSum, count), Mean(totalSumNonZero, countNonZero),
                       count, countNonZero);
    return Success(stats);
  }

  /** One more row: its value is appended exactly when it parsed. */
  lemma ParsedStep(column: seq<Option<real>>, i: nat)
    requires i < |column|
    ensures Parsed(column[..i + 1]) ==
            Parsed(column[..i]) + (if column[i].Some? then [column[i].value] else [])
  {
    assert column[..i + 1][..i] == column[..i];
  }

  /** One more value: how each accumulator of the fold changes. */
  lemma AppendStep(before: seq<real>, val: real)
    ensures Sum(before + [val]) == Sum(before) + val
    ensures val > 0.0 ==> Positives(before + [val]) == Positives(before) + [val]
    ensures val <= 0.0 ==> Positives(before + [val]) == Positives(before)
    ensures Sum(Positives(before) + [val]) == Sum(Positives(before)) + val
    ensures before == [] ==> SeqMin(before + [val]) == val && SeqMax(before + [val]) == val
    ensures before != [] ==>
              SeqMin(before + [val]) == (if val < SeqMin(before) then val else SeqMin(before)) &&
              SeqMax(before + [val]) == (if val > SeqMax(before) then val else SeqMax(before))
  {
    assert (before + [val])[..|before|] == before;
    var pos := Positives(before);
    assert (pos + [val])[..|pos|] == pos;
  }

  // ---------------------------------------------------------------------
  // Properties of the statistics

  /** The positions of the rows whose column parsed. */
  function ParsedRows(column: seq<Option<real>>): set<nat>
  {
    set i: nat | i < |column| && column[i].Some?
  }

  /** The parsed values are exactly the values of the rows that parsed. */
  lemma {:induction false} ParsedMembers(column: seq<Option<real>>)
    ensures forall x :: x in Parsed(column) <==> Some(x) in column
    ensures forall x :: multiset(Parsed(column))[x] == multiset(column)[Some(x)]
  {
    if column != [] {
      var prefix := column[..|column| - 1];
      ParsedMembers(prefix);
      assert column == prefix + [column[|column| - 1]];
    }
  }

  /** One parsed value per row that parsed. */
  lemma {:induction false} ParsedCount(column: seq<Option<real>>)
    ensures |Parsed(column)| == |ParsedRows(column)|
    ensures |Parsed(column)| <= |column|
  {
    if column != [] {
      var n := |column|;
      var prefix := column[..n - 1];
      ParsedCount(prefix);
      var s0, s := ParsedRows(prefix), ParsedRows(column);
      if column[n - 1].Some? {
        assert s == s0 + {n - 1};
        assert n - 1 !in s0;
      } else {
        assert s == s0;
      }
    }
  }

  /** `count_total` counts exactly the rows whose column parsed. */
  lemma ParsedValues(column: seq<Option<real>>)
    ensures forall x :: x in Parsed(column) <==> Some(x) in column
    ensures |Parsed(column)| == |ParsedRows(column)|
    ensures |Parsed(column)| <= |column|
  {
    ParsedMembers(column);
    ParsedCount(column);
  }

  /** Only strictly positive values enter the non-zero sum and count, and all
      of them do. */
  lemma {:induction false} PositivesExactly(vals: seq<real>)
    ensures forall x :: x in Positives(vals) <==> x in vals && x > 0.0
    ensures forall x :: multiset(Positives(vals))[x] == if x > 0.0 then multiset(vals)[x] else 0
    ensures |Positives(vals)| <= |vals|
  {
    if vals != [] {
      var prefix := vals[..|vals| - 1];
      PositivesExactly(prefix);
      assert vals == prefix + [vals[|vals| - 1]];
    }
  }

  /** The running minimum is the least parsed value. */
  lemma {:induction false} MinIsLeast(vals: seq<real>)
    requires vals != []
    ensures SeqMin(vals) in vals
    ensures forall i :: 0 <= i < |vals| ==> SeqMin(vals) <= vals[i]
  {
    if |vals| > 1 {
      var prefix := vals[..|vals| - 1];
      MinIsLeast(prefix);
      assert forall i :: 0 <= i < |prefix| ==> prefix[i] == vals[i];
    }
  }

  /** The running maximum is the greatest parsed value. */
  lemma {:induction false} MaxIsGreatest(vals: seq<real>)
    requires vals != []
    ensures SeqMax(vals) in vals
    ensures forall i :: 0 <= i < |vals| ==> vals[i] <= SeqMax(vals)
  {
    if |vals| > 1 {
      var prefix := vals[..|vals| - 1];
      MaxIsGreatest(prefix);
      assert forall i :: 0 <= i < |prefix| ==> prefix[i] == vals[i];
    }
  }

  /** A sum of values between lo and hi lies between count * lo and count * hi. */
  lemma {:induction false} SumBetween(vals: seq<real>, lo: real, hi: real)
    requires forall i :: 0 <= i < |vals| ==> lo <= vals[i] <= hi
    ensures |vals| as real * lo <= Sum(vals) <= |vals| as real * hi
  {
    if vals != [] {
      var prefix := vals[..|vals| - 1];
      assert forall i :: 0 <= i < |prefix| ==> prefix[i] == vals[i];
      SumBetween(prefix, lo, hi);
      assert Sum(vals) == Sum(prefix) + vals[|vals| - 1];
      assert |vals| as real == |prefix| as real + 1.0;
      BoundsStep(|prefix| as real, Sum(prefix), vals[|vals| - 1], lo, hi);
    }
  }

  /** One more value between lo and hi keeps the sum between the bounds. */
  lemma BoundsStep(n: real, total: real, x: real, lo: real, hi: real)
    requires n * lo <= total <= n * hi
    requires lo <= x <= hi
    ensures (n + 1.0) * lo <= total + x <= (n + 1.0) * hi
  {
    assert (n + 1.0) * lo == n * lo + lo;
    assert (n + 1.0) * hi == n * hi + hi;
  }

  /** Dividing a total between n * lo and n * hi by n gives a value between lo and hi. */
  lemma QuotientBetween(total: real, n: real, lo: real, hi: real)
    requires n > 0.0
    requires n * lo <= total <= n * hi
    ensures lo <= total / n <= hi
  {
    assert (total / n) * n == total;
  }

  /** The mean of values between lo and hi lies between lo and hi. */
  lemma MeanBetween(vals: seq<real>, lo: real, hi: real)
    requires vals != []
    requires forall i :: 0 <= i < |vals| ==> lo <= vals[i] <= hi
    ensures lo <= Mean(Sum(vals), |vals|) <= hi
  {
    SumBetween(vals, lo, hi);
    QuotientBetween(Sum(vals), |vals| as real, lo, hi);
  }

  /** What the returned statistics promise: min and max are present exactly
      when some row parsed and then bracket the mean; the non-zero count never
      exceeds the total count; the non-zero mean is positive when defined and
      both means are 0 when their counts are 0. */
  lemma StatsProperties(vals: seq<real>)
    ensures var s := StatsOf(vals);
            s.countTotal == |vals| &&
            s.countNonZero <= s.countTotal &&
            (s.min.Some? <==> s.countTotal > 0) &&
            (s.max.Some? <==> s.countTotal > 0) &&
            (s.countTotal > 0 ==> s.min.value <= s.mean <= s.max.value) &&
            (s.countTotal == 0 ==> s.mean == 0.0) &&
            (s.countNonZero > 0 ==> s.meanNonZero > 0.0) &&
            (s.countNonZero == 0 ==> s.meanNonZero == 0.0)
  {
    PositivesExactly(vals);
    if vals != [] {
      MinIsLeast(vals);
      MaxIsGreatest(vals);
      MeanBetween(vals, SeqMin(vals), SeqMax(vals));
    }
    var pos := Positives(vals);
    if pos != [] {
      MinIsLeast(pos);
      MaxIsGreatest(pos);
      assert SeqMin(pos) > 0.0;
      MeanBetween(pos, SeqMin(pos), SeqMax(pos));
    }
  }
}
