/**
 * The statistics of `calc_statistics` (utils.py) as a function of the whole
 * input frame: the per-city rolling mean, the per-(city, season) mean and
 * sample standard deviation, the confidence band and the outlier flag.
 */
module Statistics {
  import opened Wrappers
  import opened Floats
  import opened Stats
  import opened Frame

  /**
   * `rolling(window=30).mean()` at the last of one city's temperatures: NaN
   * until the window is full, then the mean of the trailing 30 values.
   */
  function MovingAverage(temps: seq<real>): Num
  {
    if |temps| < Window then None
    else Some(Sum(temps[|temps| - Window..]) / (Window as real))
  }

  /**
   * The row-wise columns computed from the moving average, the group mean and
   * the group std: `ci_up = std * 1.96 + moving_average`,
   * `ci_down = std * -1.96 + moving_average`, and `is_outlier` set when the
   * temperature compares below `mean - std * 1.96` or above `mean + std * 1.96`,
   * with NaN-aware arithmetic.
   */
  function Assemble(row: Row, ma: Num, mean: Num, std: Num): Enriched
  {
    var t := Some(row.temperature);
    var ciUp := Add(Mul(std, Some(Z)), ma);
    var ciDown := Add(Mul(std, Some(-Z)), ma);
    var low := Sub(mean, Mul(std, Some(Z)));
    var high := Add(mean, Mul(std, Some(Z)));
    var outlier := if Lt(t, low) || Gt(t, high) then 1 else 0;
    Enriched(row, ma, std, mean, ciUp, ciDown, outlier)
  }

  /** What the NaN-aware column arithmetic of `Assemble` amounts to. */
  lemma AssembleColumns(row: Row, ma: Num, mean: Num, std: Num)
    ensures var e := Assemble(row, ma, mean, std);
            && e.row == row && e.movingAverage == ma && e.mean == mean && e.std == std
            // the band exists exactly when both the moving average and the std do,
            && (e.ciUp.Some? <==> ma.Some? && std.Some?)
            && (e.ciDown.Some? <==> ma.Some? && std.Some?)
            // and it is centred on the moving average with half-width 1.96 std
            && (e.ciUp.Some? ==>
                  && e.ciUp.value - e.ciDown.value == 2.0 * Z * std.value
                  && (e.ciUp.value + e.ciDown.value) / 2.0 == ma.value)
            // the flag is 0/1, and 1 exactly when the temperature is strictly outside mean +- 1.96 std
            && (e.isOutlier == 0 || e.isOutlier == 1)
            && (e.isOutlier == 1 <==>
                  && mean.Some? && std.Some?
                  && (row.temperature < mean.value - Z * std.value
                      || row.temperature > mean.value + Z * std.value))
  {
  }

  /**
   * The output row for the last row of `upTo`, the rows up to and including
   * it: its moving average over the rows of its city in `upTo`, and the mean
   * and std of its (city, season) group taken over the frame `all`.
   */
  function RowStatistics(upTo: seq<Row>, all: seq<Row>, root: real -> real): Enriched
    requires |upTo| > 0
  {
    var r := upTo[|upTo| - 1];
    var group := GroupTemps(all, r.city, r.season);
    Assemble(r, MovingAverage(CityTemps(upTo, r.city)), Mean(group), SampleStd(group, root))
  }

  /** Every row of `rows` enriched, with group statistics taken over `all`. */
  function EnrichAgainst(rows: seq<Row>, all: seq<Row>, root: real -> real): (out: seq<Enriched>)
    ensures |out| == |rows|
  {
    if |rows| == 0 then []
    else EnrichAgainst(rows[..|rows| - 1], all, root) + [RowStatistics(rows, all, root)]
  }

  /** Output row `i` is the enrichment of the rows up to and including row `i`. */
  lemma {:induction false} EnrichAgainstAt(rows: seq<Row>, all: seq<Row>, i: int, root: real -> real)
    requires 0 <= i < |rows|
    ensures EnrichAgainst(rows, all, root)[i] == RowStatistics(rows[..i + 1], all, root)
  {
    var p := rows[..|rows| - 1];
    if i < |rows| - 1 {
      EnrichAgainstAt(p, all, i, root);
      assert p[..i + 1] == rows[..i + 1];
    } else {
      assert rows[..i + 1] == rows;
    }
  }

  /** The output row for the last row of `upTo` carries that row unchanged. */
  lemma {:induction false} RowStatisticsRow(upTo: seq<Row>, all: seq<Row>, root: real -> real)
    requires |upTo| > 0
    ensures RowStatistics(upTo, all, root).row == upTo[|upTo| - 1]
  {
  }

  /** Enriching keeps every input row, in order. */
  lemma {:induction false} EnrichAgainstRows(rows: seq<Row>, all: seq<Row>, root: real -> real)
    ensures forall i :: 0 <= i < |rows| ==> EnrichAgainst(rows, all, root)[i].row == rows[i]
  {
    forall i | 0 <= i < |rows|
      ensures EnrichAgainst(rows, all, root)[i].row == rows[i]
    {
      EnrichAgainstAt(rows, all, i, root);
      RowStatisticsRow(rows[..i + 1], all, root);
    }
  }

  /**
   * `calc_statistics`: one output row per input row, in input order, each the
   * input row with the six statistics columns added. `root` is the square root
   * used for the standard deviation.
   */
  function CalcStatistics(rows: seq<Row>, root: real -> real): (out: seq<Enriched>)
    ensures |out| == |rows|
    ensures forall i :: 0 <= i < |rows| ==> out[i].row == rows[i]
  {
    EnrichAgainstRows(rows, rows, root);
    EnrichAgainst(rows, rows, root)
  }

  lemma CalcStatisticsAt(rows: seq<Row>, i: int, root: real -> real)
    requires 0 <= i < |rows|
    ensures CalcStatistics(rows, root)[i] == RowStatistics(rows[..i + 1], rows, root)
    ensures rows[..i + 1][i] == rows[i]
  {
    EnrichAgainstAt(rows, rows, i, root);
  }

  /**
   * `ma` is the trailing rolling mean at a value `t` preceded by the values
   * `before` of the same city: NaN while fewer than 29 values precede it,
   * otherwise the mean of `t` and the 29 values just before it.
   */
  predicate IsTrailingMean(before: seq<real>, t: real, ma: Num)
  {
    && (|before| < Window - 1 ==> ma.None?)
    && (|before| >= Window - 1 ==>
          ma == Some((Sum(before[|before| - (Window - 1)..]) + t) / (Window as real)))
  }

  /** The rolling mean after one more value is that value's trailing mean. */
  lemma MovingAverageSnoc(before: seq<real>, t: real)
    ensures IsTrailingMean(before, t, MovingAverage(before + [t]))
  {
    var temps := before + [t];
    if |temps| >= Window {
      var earlier := before[|before| - (Window - 1)..];
      assert temps[|temps| - Window..] == earlier + [t];
      SumSnoc(earlier, t);
    }
  }

  lemma MovingAverageAt(rows: seq<Row>, i: int, root: real -> real)
    requires 0 <= i < |rows|
    ensures CalcStatistics(rows, root)[i].movingAverage
         == MovingAverage(CityTemps(rows[..i], rows[i].city) + [rows[i].temperature])
  {
    CityTempsThrough(rows, i, rows[i].city);
    CalcStatisticsAt(rows, i, root);
  }

  /**
   * The rolling mean at row `i` is NaN while fewer than 29 earlier rows share
   * its city; otherwise it is the mean of row `i`'s temperature and its city's
   * 29 previous temperatures in row order.
   */
  lemma MovingAverageWindow(rows: seq<Row>, i: int, root: real -> real)
    requires 0 <= i < |rows|
    ensures IsTrailingMean(CityTemps(rows[..i], rows[i].city), rows[i].temperature,
                           CalcStatistics(rows, root)[i].movingAverage)
  {
    MovingAverageAt(rows, i, root);
    MovingAverageSnoc(CityTemps(rows[..i], rows[i].city), rows[i].temperature);
  }

  /**
   * Every row carries the mean of its (city, season) group's temperatures and,
   * with a true square root, a non-negative std whose square is the group's
   * sample variance; the std is NaN exactly when the group has a single row.
   */
  lemma GroupColumns(rows: seq<Row>, i: int, root: real -> real)
    requires 0 <= i < |rows|
    requires IsSquareRoot(root)
    ensures var g := GroupTemps(rows, rows[i].city, rows[i].season);
            var e := CalcStatistics(rows, root)[i];
            && |g| >= 1
            && e.mean == Some(Sum(g) / (|g| as real))
            && (|g| == 1 ==> e.std.None?)
            && (|g| >= 2 ==> e.std.Some? && IsRootOf(e.std.value, SampleVariance(g)))
  {
    var g := GroupTemps(rows, rows[i].city, rows[i].season);
    CalcStatisticsAt(rows, i, root);
    var e := CalcStatistics(rows, root)[i];
    assert e.mean == Mean(g) && e.std == SampleStd(g, root);
    GroupOfMember(rows, i);
    SampleStdSquares(g, root);
  }

  /**
   * A row is flagged exactly when its group has at least two rows and its
   * temperature lies strictly outside the group mean +- 1.96 std; a group of
   * one row has NaN std, so its row is never flagged and has no band.
   */
  lemma OutlierFlag(rows: seq<Row>, i: int, root: real -> real)
    requires 0 <= i < |rows|
    ensures var g := GroupTemps(rows, rows[i].city, rows[i].season);
            var e := CalcStatistics(rows, root)[i];
            var t := rows[i].temperature;
            && (e.isOutlier == 0 || e.isOutlier == 1)
            && (|g| < 2 ==> e.isOutlier == 0 && e.ciUp.None? && e.ciDown.None?)
            && (|g| >= 2 ==>
                  && e.std.Some?
                  && (e.isOutlier == 1 <==>
                        t < Sum(g) / (|g| as real) - Z * e.std.value
                        || t > Sum(g) / (|g| as real) + Z * e.std.value))
  {
    CalcStatisticsAt(rows, i, root);
    var g := GroupTemps(rows, rows[i].city, rows[i].season);
    AssembleColumns(rows[i], CalcStatistics(rows, root)[i].movingAverage, Mean(g), SampleStd(g, root));
  }

  /**
   * Every row's band `ci_up`/`ci_down` exists exactly when both its rolling mean
   * and its std do, and is then centred on the rolling mean with half-width
   * 1.96 std.
   */
  lemma BandColumns(rows: seq<Row>, i: int, root: real -> real)
    requires 0 <= i < |rows|
    ensures var e := CalcStatistics(rows, root)[i];
            && (e.ciUp.Some? <==> e.movingAverage.Some? && e.std.Some?)
            && (e.ciDown.Some? <==> e.movingAverage.Some? && e.std.Some?)
            && (e.ciUp.Some? ==>
                  && e.ciUp.value - e.ciDown.value == 2.0 * Z * e.std.value
                  && (e.ciUp.value + e.ciDown.value) / 2.0 == e.movingAverage.value)
  {
    var upTo := rows[..i + 1];
    var r := upTo[|upTo| - 1];
    var g := GroupTemps(rows, r.city, r.season);
    CalcStatisticsAt(rows, i, root);
    AssembleColumns(r, MovingAverage(CityTemps(upTo, r.city)), Mean(g), SampleStd(g, root));
  }

  /**
   * With a true square root the std is non-negative, so a temperature exactly on
   * either bound of mean +- 1.96 std is not flagged.
   */
  lemma BoundaryIsNotOutlier(rows: seq<Row>, i: int, root: real -> real)
    requires 0 <= i < |rows|
    requires IsSquareRoot(root)
    ensures var e := CalcStatistics(rows, root)[i];
            var t := rows[i].temperature;
            (e.mean.Some? && e.std.Some?
             && (t == e.mean.value - Z * e.std.value || t == e.mean.value + Z * e.std.value))
            ==> e.isOutlier == 0
  {
    var g := GroupTemps(rows, rows[i].city, rows[i].season);
    var e := CalcStatistics(rows, root)[i];
    GroupColumns(rows, i, root);
    OutlierFlag(rows, i, root);
    if e.std.Some? {
      assert |g| >= 2;
      var m, w := Sum(g) / (|g| as real), Z * e.std.value;
      assert e.mean.value == m && 0.0 <= w;
    }
  }

  /** A city with fewer than 30 rows has no rolling mean on any of its rows. */
  lemma ShortCityHasNoMovingAverage(rows: seq<Row>, c: string, root: real -> real)
    requires |CityTemps(rows, c)| < Window
    ensures forall i :: 0 <= i < |rows| && rows[i].city == c ==>
              CalcStatistics(rows, root)[i].movingAverage.None?
  {
    forall i | 0 <= i < |rows| && rows[i].city == c
      ensures CalcStatistics(rows, root)[i].movingAverage.None?
    {
      CityTempsThrough(rows, i, c);
      CityTempsPrefix(rows, i + 1, c);
      MovingAverageAt(rows, i, root);
    }
  }

  /** `mean` and `std` are the same on every row of a (city, season) group. */
  lemma GroupConstant(rows: seq<Row>, i: int, j: int, root: real -> real)
    requires 0 <= i < |rows| && 0 <= j < |rows|
    requires rows[i].city == rows[j].city && rows[i].season == rows[j].season
    ensures CalcStatistics(rows, root)[i].mean == CalcStatistics(rows, root)[j].mean
    ensures CalcStatistics(rows, root)[i].std == CalcStatistics(rows, root)[j].std
  {
    CalcStatisticsAt(rows, i, root);
    CalcStatisticsAt(rows, j, root);
  }

  /** Appending a row appends its enrichment and leaves the earlier output rows alone. */
  lemma EnrichAgainstSnoc(rows: seq<Row>, x: Row, all: seq<Row>, root: real -> real)
    ensures EnrichAgainst(rows + [x], all, root)
         == EnrichAgainst(rows, all, root) + [RowStatistics(rows + [x], all, root)]
  {
    assert (rows + [x])[..|rows|] == rows;
  }

  /**
   * Enriching and then keeping city `c` gives what enriching only city `c`'s rows
   * gives, provided the frames the groups are taken over agree on city `c`.
   */
  lemma {:induction false} EnrichAgainstOfCity(
    rows: seq<Row>, all: seq<Row>, all': seq<Row>, c: string, root: real -> real)
    requires forall s :: GroupTemps(all, c, s) == GroupTemps(all', c, s)
    ensures EnrichedOfCity(EnrichAgainst(rows, all, root), c)
         == EnrichAgainst(OfCity(rows, c), all', root)
  {
    if |rows| == 0 {
      assert EnrichAgainst(rows, all, root) == [];
    } else {
      var p, x := rows[..|rows| - 1], rows[|rows| - 1];
      assert rows == p + [x];
      var e := RowStatistics(rows, all, root);
      EnrichAgainstOfCity(p, all, all', c, root);
      EnrichAgainstSnoc(p, x, all, root);
      EnrichedOfCitySnoc(EnrichAgainst(p, all, root), e, c);
      OfCitySnoc(p, x, c);
      if x.city == c {
        var q := OfCity(p, c);
        EnrichAgainstSnoc(q, x, all', root);
        CityTempsSnoc(q, x, c);
        CityTempsSnoc(p, x, c);
        CityTempsOfCity(p, c);
        assert RowStatistics(q + [x], all', root) == e;
      } else {
        assert OfCity(rows, c) == OfCity(p, c);
      }
    }
  }

  /**
   * The output rows of city `c` are exactly the enrichment of city `c`'s input
   * rows alone: cities never influence each other's statistics.
   */
  lemma CityCommutes(rows: seq<Row>, c: string, root: real -> real)
    ensures EnrichedOfCity(CalcStatistics(rows, root), c) == CalcStatistics(OfCity(rows, c), root)
  {
    forall s
      ensures GroupTemps(rows, c, s) == GroupTemps(OfCity(rows, c), c, s)
    {
      GroupTempsOfCity(rows, c, s);
    }
    EnrichAgainstOfCity(rows, rows, OfCity(rows, c), c, root);
  }

  /**
   * Two frames whose rows of city `c` agree produce the same output rows for
   * city `c`, whatever their other cities' rows are.
   */
  lemma CityIndependence(rows: seq<Row>, rows': seq<Row>, c: string, root: real -> real)
    requires OfCity(rows, c) == OfCity(rows', c)
    ensures EnrichedOfCity(CalcStatistics(rows, root), c)
         == EnrichedOfCity(CalcStatistics(rows', root), c)
  {
    CityCommutes(rows, c, root);
    CityCommutes(rows', c, root);
  }
}
