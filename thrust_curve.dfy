/**
 * The thrust curve of `Rocket.import_thrust_curve`: the row filter that
 * collects raw (time, thrust) samples, the uniform time grid of
 * `np.arange(0, max_time, dt)` and the piecewise-linear resampling of
 * `np.interp(times, raw_times, raw_thrusts, left=0, right=0)`.
 */
module ThrustCurve {
  import opened Wrappers

  // ---------------------------------------------------------------------
  // The uniform grid np.arange(0, max_time, dt)
  // ---------------------------------------------------------------------

  /** The least integer that is at least q. */
  function Ceil(q: real): int {
    if q.Floor as real == q then q.Floor else q.Floor + 1
  }

  /** Scaling a strict inequality a < b by d > 0, where b*d is m. */
  lemma ScaleLtTo(a: real, b: real, d: real, m: real)
    requires d > 0.0 && a < b && b * d == m
    ensures a * d < m
  {
  }

  /** Scaling a non-strict inequality a <= b by d > 0, where a*d is at least m. */
  lemma ScaleGeFrom(a: real, b: real, d: real, m: real)
    requires d > 0.0 && a <= b && a * d >= m
    ensures b * d >= m
  {
  }

  /** Scaling a non-strict inequality a <= b by d > 0, where b*d is below m. */
  lemma ScaleLeBelow(a: real, b: real, d: real, m: real)
    requires d > 0.0 && a <= b && b * d < m
    ensures a * d < m
  {
  }

  /**
   * The number of points of np.arange(0, max_time, dt): the least n
   * whose n-th grid point n*dt is no longer below max_time.
   */
  function GridLength(maxTime: real, dt: real): (n: nat)
    requires dt > 0.0
    ensures n as real * dt >= maxTime
    ensures n > 0 ==> (n - 1) as real * dt < maxTime
  {
    if maxTime <= 0.0 then 0
    else
      var q := maxTime / dt;
      var k := Ceil(q);
      var kr := k as real;
      var prev := (k - 1) as real;
      assert q * dt == maxTime;
      assert prev < q <= kr;
      ScaleGeFrom(q, kr, dt, maxTime);
      ScaleLtTo(prev, q, dt, maxTime);
      k
  }

  /** A grid point k*dt lies below the horizon exactly when k is a grid index. */
  lemma BelowHorizon(k: nat, maxTime: real, dt: real)
    requires dt > 0.0
    ensures k as real * dt < maxTime <==> k < GridLength(maxTime, dt)
  {
    var n := GridLength(maxTime, dt);
    var kr := k as real;
    if k < n {
      var last := (n - 1) as real;
      assert kr <= last;
      ScaleLeBelow(kr, last, dt, maxTime);
    } else {
      var nr := n as real;
      assert nr <= kr;
      ScaleGeFrom(nr, kr, dt, maxTime);
    }
  }

  /** np.arange(0, max_time, dt): k*dt for every k whose point lies below max_time. */
  function Arange(maxTime: real, dt: real): (ts: seq<real>)
    requires dt > 0.0
    ensures |ts| == GridLength(maxTime, dt)
    ensures forall i :: 0 <= i < |ts| ==> ts[i] == i as real * dt && 0.0 <= ts[i] < maxTime
  {
    var n := GridLength(maxTime, dt);
    var ts := seq(n, i requires 0 <= i < n => i as real * dt);
    assert forall i :: 0 <= i < |ts| ==> ts[i] < maxTime by {
      forall i | 0 <= i < |ts| ensures ts[i] < maxTime {
        BelowHorizon(i, maxTime, dt);
      }
    }
    ts
  }

  // ---------------------------------------------------------------------
  // Piecewise-linear interpolation, np.interp with left=0 and right=0
  // ---------------------------------------------------------------------

  predicate StrictlyIncreasing(xs: seq<real>) {
    forall i, j :: 0 <= i < j < |xs| ==> xs[i] < xs[j]
  }

  /** v lies between a and b, whichever of the two is larger. */
  predicate Between(v: real, a: real, b: real) {
    (a <= v <= b) || (b <= v <= a)
  }

  /**
   * The straight line through (x0, f0) and (x1, f1) at x, in np.interp's
   * form: slope times the distance from x0, plus f0.
   */
  function Lerp(x0: real, f0: real, x1: real, f1: real, x: real): (r: real)
    requires x0 < x1
    ensures x == x0 ==> r == f0
    ensures x == x1 ==> r == f1
  {
    SlopeSpan(x0, f0, x1, f1);
    (f1 - f0) / (x1 - x0) * (x - x0) + f0
  }

  /** Across the whole segment the line climbs exactly f1 - f0. */
  lemma SlopeSpan(x0: real, f0: real, x1: real, f1: real)
    requires x0 < x1
    ensures (f1 - f0) / (x1 - x0) * (x1 - x0) == f1 - f0
  {
  }

  /** Scaling 0 <= u <= w by m keeps m*u between 0 and m*w. */
  lemma PartialRise(m: real, u: real, w: real)
    requires 0.0 <= u <= w
    ensures m >= 0.0 ==> 0.0 <= m * u <= m * w
    ensures m < 0.0 ==> m * w <= m * u <= 0.0
  {
  }

  /** On its segment the line stays between its two end samples. */
  lemma LerpBetween(x0: real, f0: real, x1: real, f1: real, x: real)
    requires x0 < x1
    ensures x0 <= x <= x1 ==> Between(Lerp(x0, f0, x1, f1, x), f0, f1)
  {
    var m := (f1 - f0) / (x1 - x0);
    SlopeSpan(x0, f0, x1, f1);
    if x0 <= x <= x1 {
      PartialRise(m, x - x0, x1 - x0);
    }
  }

  /** The interpolant on [xp[0], xp[|xp|-1]]: the segment that brackets x. */
  function Inside(x: real, xp: seq<real>, fp: seq<real>): (r: real)
    requires |xp| == |fp| > 0 && StrictlyIncreasing(xp)
    requires xp[0] <= x <= xp[|xp| - 1]
    ensures forall j :: 0 <= j < |xp| - 1 && xp[j] <= x <= xp[j + 1] ==>
              r == Lerp(xp[j], fp[j], xp[j + 1], fp[j + 1], x)
    ensures forall k :: 0 <= k < |xp| && xp[k] == x ==> r == fp[k]
    decreases |xp|
  {
    if |xp| == 1 then
      fp[0]
    else if x <= xp[1] then
      LerpBetween(xp[0], fp[0], xp[1], fp[1], x);
      assert |xp| > 2 ==> Lerp(xp[1], fp[1], xp[2], fp[2], xp[1]) == fp[1] by {
        if |xp| > 2 { LerpBetween(xp[1], fp[1], xp[2], fp[2], x); }
      }
      Lerp(xp[0], fp[0], xp[1], fp[1], x)
    else
      var r := Inside(x, xp[1..], fp[1..]);
      assert forall j :: 1 <= j < |xp| ==> xp[1..][j - 1] == xp[j] && fp[1..][j - 1] == fp[j];
      r
  }

  /**
   * np.interp(x, xp, fp, left=0, right=0): zero before the first and
   * after the last sample time, the bracketing segment in between.
   */
  function Interp(x: real, xp: seq<real>, fp: seq<real>): (r: real)
    requires |xp| == |fp| > 0 && StrictlyIncreasing(xp)
    ensures x < xp[0] || x > xp[|xp| - 1] ==> r == 0.0
    ensures forall j :: 0 <= j < |xp| - 1 && xp[j] <= x <= xp[j + 1] ==>
              r == Lerp(xp[j], fp[j], xp[j + 1], fp[j + 1], x)
    ensures forall k :: 0 <= k < |xp| && xp[k] == x ==> r == fp[k]
  {
    if x < xp[0] || x > xp[|xp| - 1] then 0.0 else Inside(x, xp, fp)
  }

  /** Inside the sampled range, every value lies between the two bracketing samples. */
  lemma InterpBetween(x: real, xp: seq<real>, fp: seq<real>, j: nat)
    requires |xp| == |fp| > 0 && StrictlyIncreasing(xp)
    requires j < |xp| - 1 && xp[j] <= x <= xp[j + 1]
    ensures Between(Interp(x, xp, fp), fp[j], fp[j + 1])
  {
    LerpBetween(xp[j], fp[j], xp[j + 1], fp[j + 1], x);
  }

  /** The segment that brackets a time inside the sampled range. */
  function Bracket(x: real, xp: seq<real>): (j: nat)
    requires |xp| > 1 && StrictlyIncreasing(xp)
    requires xp[0] <= x <= xp[|xp| - 1]
    ensures j < |xp| - 1 && xp[j] <= x <= xp[j + 1]
    decreases |xp|
  {
    if x <= xp[1] then 0
    else
      var j := Bracket(x, xp[1..]);
      assert xp[1..][j] == xp[j + 1] && xp[1..][j + 1] == xp[j + 2];
      j + 1
  }

  // ---------------------------------------------------------------------
  // The thrust table of lines 60-61
  // ---------------------------------------------------------------------

  /** The two ValueErrors np.interp raises on bad sample arrays. */
  datatype InterpError =
    | EmptySamples     // "array of sample points is empty"
    | LengthMismatch   // "fp and xp are not of the same length"

  /** The pair (times, thrusts) that import_thrust_curve returns. */
  datatype Table = Table(times: seq<real>, thrusts: seq<real>)

  /**
   * np.interp applied to every grid time: zero outside the sampled range,
   * the bracketing segment's line inside it, never beyond the two
   * bracketing samples, and the sample itself at a sample time.
   */
  function Resample(ts: seq<real>, xp: seq<real>, fp: seq<real>): (r: seq<real>)
    requires |xp| == |fp| > 0 && StrictlyIncreasing(xp)
    ensures |r| == |ts|
    ensures forall i :: 0 <= i < |ts| && (ts[i] < xp[0] || ts[i] > xp[|xp| - 1]) ==> r[i] == 0.0
    ensures forall i, j :: 0 <= i < |ts| && 0 <= j < |xp| - 1 && xp[j] <= ts[i] <= xp[j + 1] ==>
              r[i] == Lerp(xp[j], fp[j], xp[j + 1], fp[j + 1], ts[i]) && Between(r[i], fp[j], fp[j + 1])
    ensures forall i, k :: 0 <= i < |ts| && 0 <= k < |xp| && xp[k] == ts[i] ==> r[i] == fp[k]
  {
    var r := seq(|ts|, i requires 0 <= i < |ts| => Interp(ts[i], xp, fp));
    assert forall i, j :: 0 <= i < |ts| && 0 <= j < |xp| - 1 && xp[j] <= ts[i] <= xp[j + 1] ==>
             Between(r[i], fp[j], fp[j + 1]) by {
      forall i, j | 0 <= i < |ts| && 0 <= j < |xp| - 1 && xp[j] <= ts[i] <= xp[j + 1]
        ensures Between(r[i], fp[j], fp[j + 1])
      {
        InterpBetween(ts[i], xp, fp, j);
      }
    }
    r
  }

  /** Lines 60-61: the grid and the thrust resampled onto it, or the error np.interp raises. */
  function BuildTable(maxTime: real, dt: real, rawTimes: seq<real>, rawThrusts: seq<real>)
    : (r: Result<Table, InterpError>)
    requires dt > 0.0 && StrictlyIncreasing(rawTimes)
    ensures r.Failure? <==> rawTimes == [] || |rawTimes| != |rawThrusts|
    ensures r.Failure? ==> r.error == (if rawTimes == [] then EmptySamples else LengthMismatch)
    ensures r.Success? ==> r.value.times == Arange(maxTime, dt)
    ensures r.Success? ==> |r.value.thrusts| == |r.value.times| == GridLength(maxTime, dt)
  {
    if rawTimes == [] then Failure(EmptySamples)
    else if |rawTimes| != |rawThrusts| then Failure(LengthMismatch)
    else
      var times := Arange(maxTime, dt);
      Success(Table(times, Resample(times, rawTimes, rawThrusts)))
  }

  /**
   * The resampled thrust at grid index i: zero when i*dt is before the
   * first or after the last raw time, otherwise the line through the two
   * bracketing raw samples, which lies between their thrusts.
   */
  lemma ResampledThrust(maxTime: real, dt: real, rawTimes: seq<real>, rawThrusts: seq<real>, i: nat)
    requires dt > 0.0 && StrictlyIncreasing(rawTimes)
    requires BuildTable(maxTime, dt, rawTimes, rawThrusts).Success?
    requires i < GridLength(maxTime, dt)
    ensures var tbl := BuildTable(maxTime, dt, rawTimes, rawThrusts).value;
            var t := i as real * dt;
            tbl.times[i] == t &&
            (t < rawTimes[0] || t > rawTimes[|rawTimes| - 1] ==> tbl.thrusts[i] == 0.0) &&
            (rawTimes[0] <= t <= rawTimes[|rawTimes| - 1] ==>
              if |rawTimes| == 1 then tbl.thrusts[i] == rawThrusts[0]
              else exists j :: 0 <= j < |rawTimes| - 1 && rawTimes[j] <= t <= rawTimes[j + 1] &&
                     tbl.thrusts[i] == Lerp(rawTimes[j], rawThrusts[j], rawTimes[j + 1], rawThrusts[j + 1], t) &&
                     Between(tbl.thrusts[i], rawThrusts[j], rawThrusts[j + 1]))
  {
    var tbl := BuildTable(maxTime, dt, rawTimes, rawThrusts).value;
    var t := i as real * dt;
    assert tbl.times[i] == t;
    if rawTimes[0] <= t <= rawTimes[|rawTimes| - 1] && |rawTimes| > 1 {
      var j := Bracket(t, rawTimes);
      assert tbl.thrusts[i] == Lerp(rawTimes[j], rawThrusts[j], rawTimes[j + 1], rawThrusts[j + 1], t);
    }
  }

  // ---------------------------------------------------------------------
  // The row filter of lines 50-58
  // ---------------------------------------------------------------------

  /**
   * One CSV row after text-to-float conversion: cell k is Some(v) when
   * float(row[k]) yields v and None when it raises.
   */
  type Row = seq<Option<real>>

  /** row[k] converted; a missing column raises IndexError, which the loop also skips. */
  function Cell(row: Row, k: nat): Option<real> {
    if k < |row| then row[k] else None
  }

  /** What the loop appends to raw_times: column 0 of every row where it converts. */
  function TimeColumn(rows: seq<Row>): (r: seq<real>)
    ensures |r| <= |rows|
    decreases |rows|
  {
    if rows == [] then []
    else
      var init := rows[..|rows| - 1];
      var row := rows[|rows| - 1];
      TimeColumn(init) + (if Cell(row, 0).Some? then [Cell(row, 0).value] else [])
  }

  /** What the loop appends to raw_thrusts: column 1 of every row where both columns convert. */
  function ThrustColumn(rows: seq<Row>): (r: seq<real>)
    ensures |r| <= |rows|
    decreases |rows|
  {
    if rows == [] then []
    else
      var init := rows[..|rows| - 1];
      var row := rows[|rows| - 1];
      ThrustColumn(init) +
        (if Cell(row, 0).Some? && Cell(row, 1).Some? then [Cell(row, 1).value] else [])
  }

  /**
   * Every time that converts is collected and nothing else is; every
   * thrust whose row converts in both columns is collected and nothing else is.
   */
  lemma {:induction false} ColumnsFromRows(rows: seq<Row>)
    ensures forall k :: 0 <= k < |rows| && Cell(rows[k], 0).Some? ==> Cell(rows[k], 0).value in TimeColumn(rows)
    ensures forall v :: v in TimeColumn(rows) ==> exists k :: 0 <= k < |rows| && Cell(rows[k], 0) == Some(v)
    ensures forall k :: 0 <= k < |rows| && Cell(rows[k], 0).Some? && Cell(rows[k], 1).Some? ==>
              Cell(rows[k], 1).value in ThrustColumn(rows)
    ensures forall v :: v in ThrustColumn(rows) ==>
              exists k :: 0 <= k < |rows| && Cell(rows[k], 0).Some? && Cell(rows[k], 1) == Some(v)
    decreases |rows|
  {
    if rows != [] {
      var init := rows[..|rows| - 1];
      ColumnsFromRows(init);
      assert forall k :: 0 <= k < |init| ==> init[k] == rows[k];
    }
  }

  /** A row whose time converts but whose thrust does not. */
  predicate Unpaired(row: Row) {
    Cell(row, 0).Some? && Cell(row, 1).None?
  }

  /**
   * The loop at lines 53-58: raw_times.append(float(row[0])) runs before
   * float(row[1]) is tried, and a failure of either skips the rest of the row.
   */
  method CollectSamples(rows: seq<Row>) returns (rawTimes: seq<real>, rawThrusts: seq<real>)
    ensures rawTimes == TimeColumn(rows)
    ensures rawThrusts == ThrustColumn(rows)
  {
    rawTimes, rawThrusts := [], [];
    var k := 0;
    while k < |rows|
      invariant 0 <= k <= |rows|
      invariant rawTimes == TimeColumn(rows[..k])
      invariant rawThrusts == ThrustColumn(rows[..k])
    {
      assert rows[..k + 1][..k] == rows[..k];
      var row := rows[k];
      if Cell(row, 0).Some? {
        rawTimes := rawTimes + [Cell(row, 0).value];
        if Cell(row, 1).Some? {
          rawThrusts := rawThrusts + [Cell(row, 1).value];
        }
      }
      k := k + 1;
    }
    assert rows[..k] == rows;
  }

  /**
   * The two raw lists have equal length exactly when no row is unpaired;
   * otherwise raw_times is the longer one.
   */
  lemma {:induction false} ColumnsAlign(rows: seq<Row>)
    ensures |ThrustColumn(rows)| <= |TimeColumn(rows)|
    ensures |ThrustColumn(rows)| == |TimeColumn(rows)| <==> forall k :: 0 <= k < |rows| ==> !Unpaired(rows[k])
    decreases |rows|
  {
    if rows != [] {
      var init := rows[..|rows| - 1];
      ColumnsAlign(init);
      assert forall k :: 0 <= k < |init| ==> init[k] == rows[k];
    }
  }

  /** Lines 44-63 after the file is read: collect the samples, then build the table. */
  method ImportThrustCurve(rows: seq<Row>, maxTime: real, dt: real) returns (r: Result<Table, InterpError>)
    requires dt > 0.0 && StrictlyIncreasing(TimeColumn(rows))
    ensures r == BuildTable(maxTime, dt, TimeColumn(rows), ThrustColumn(rows))
    ensures r.Failure? <==> TimeColumn(rows) == [] || exists k :: 0 <= k < |rows| && Unpaired(rows[k])
  {
    var rawTimes, rawThrusts := CollectSamples(rows);
    ColumnsAlign(rows);
    r := BuildTable(maxTime, dt, rawTimes, rawThrusts);
  }

  /**
   * A header row is skipped, yet one row with a time and no thrust makes
   * np.interp reject the whole curve.
   */
  lemma UnpairedRowRejectsCurve()
    ensures var rows: seq<Row> := [[None, None], [Some(0.0), Some(0.0)], [Some(1.0), Some(10.0)]];
            TimeColumn(rows) == [0.0, 1.0] && ThrustColumn(rows) == [0.0, 10.0]
    ensures var rows: seq<Row> := [[Some(0.0), Some(0.0)], [Some(1.0), Some(10.0)], [Some(2.0)]];
            TimeColumn(rows) == [0.0, 1.0, 2.0] && ThrustColumn(rows) == [0.0, 10.0]
    ensures BuildTable(1.0, 0.5, [0.0, 1.0], [0.0, 10.0]).Success?
    ensures BuildTable(1.0, 0.5, [0.0, 1.0, 2.0], [0.0, 10.0]) == Failure(LengthMismatch)
  {
    var a: seq<Row> := [[None, None], [Some(0.0), Some(0.0)], [Some(1.0), Some(10.0)]];
    assert a[..2][..1][..0] == [];
    assert TimeColumn(a[..1]) == [];
    assert ThrustColumn(a[..1]) == [];
    assert TimeColumn(a[..2]) == [0.0] && ThrustColumn(a[..2]) == [0.0];
    var b: seq<Row> := [[Some(0.0), Some(0.0)], [Some(1.0), Some(10.0)], [Some(2.0)]];
    assert b[..2][..1][..0] == [];
    assert TimeColumn(b[..1]) == [0.0] && ThrustColumn(b[..1]) == [0.0];
    assert TimeColumn(b[..2]) == [0.0, 1.0] && ThrustColumn(b[..2]) == [0.0, 10.0];
  }
}
