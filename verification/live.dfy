/**
 * The pure logic of the dashboard (app.py) on one city's enriched table: the
 * per-season summary and the classification of a live temperature reading
 * against the current season's 95% band. The month and the reading are
 * parameters; the clock and the weather service that supply them are not
 * modelled.
 */
module Live {
  import opened Wrappers
  import opened Floats
  import opened Stats
  import opened Frame
  import opened Statistics
  import opened Seasons

  /** The season labels present in the table: the index of the grouped summary. */
  function SeasonsIn(es: seq<Enriched>): set<string>
  {
    set i | 0 <= i < |es| :: es[i].row.season
  }

  /** The largest `mean` over the rows labelled `season`, skipping NaN; NaN when there is none. */
  function SeasonMax(es: seq<Enriched>, season: string): Num
  {
    if |es| == 0 then None
    else
      var m := SeasonMax(es[..|es| - 1], season);
      var e := es[|es| - 1];
      if e.row.season != season || e.mean.None? then m
      else if m.None? || m.value < e.mean.value then e.mean
      else m
  }

  /** `groupby('season')['mean'].max()`: one entry per season present in the table. */
  function SeasonSummary(es: seq<Enriched>): (summary: map<string, Num>)
    ensures summary.Keys == SeasonsIn(es)
  {
    map s | s in SeasonsIn(es) :: SeasonMax(es, s)
  }

  /**
   * The season maximum is defined exactly when some row of the season has a
   * defined mean; it then bounds every such mean and is one of them.
   */
  lemma {:induction false} SeasonMaxIsMaximum(es: seq<Enriched>, season: string)
    ensures SeasonMax(es, season).Some? <==>
              exists i :: 0 <= i < |es| && es[i].row.season == season && es[i].mean.Some?
    ensures SeasonMax(es, season).Some? ==>
              && (forall i :: 0 <= i < |es| && es[i].row.season == season && es[i].mean.Some? ==>
                    es[i].mean.value <= SeasonMax(es, season).value)
              && (exists i :: 0 <= i < |es| && es[i].row.season == season
                                            && es[i].mean == SeasonMax(es, season))
  {
    if |es| > 0 {
      var p := es[..|es| - 1];
      SeasonMaxIsMaximum(p, season);
      assert forall i :: 0 <= i < |p| ==> es[i] == p[i];
    }
  }

  /**
   * On the table of a single city, the summary entry of every season present
   * is the mean of that season's temperatures: grouping an already per-group
   * constant column by its maximum returns that constant.
   */
  lemma SummaryIsGroupMean(rows: seq<Row>, c: string, root: real -> real)
    requires forall i :: 0 <= i < |rows| ==> rows[i].city == c
    ensures var summary := SeasonSummary(CalcStatistics(rows, root));
            forall s :: s in summary ==>
              && |GroupTemps(rows, c, s)| >= 1
              && summary[s] == Mean(GroupTemps(rows, c, s))
  {
    var es := CalcStatistics(rows, root);
    forall s | s in SeasonSummary(es)
      ensures |GroupTemps(rows, c, s)| >= 1
      ensures SeasonSummary(es)[s] == Mean(GroupTemps(rows, c, s))
    {
      var g := GroupTemps(rows, c, s);
      var k :| 0 <= k < |es| && es[k].row.season == s;
      GroupOfMember(rows, k);
      CalcStatisticsAt(rows, k, root);
      assert es[k].mean == Mean(g) && es[k].mean.Some?;
      forall i | 0 <= i < |es| && es[i].row.season == s
        ensures es[i].mean == Mean(g)
      {
        CalcStatisticsAt(rows, i, root);
      }
      SeasonMaxIsMaximum(es, s);
    }
  }

  datatype LiveError =
    | UnknownMonth(month: int)   // the month is not a key of the season table
    | NoBaseline(season: Season) // the table has no row of the current season

  /** The classification of a reading and the band it was compared against. */
  datatype Verdict = Verdict(anomalous: bool, down: Num, up: Num)

  /**
   * `up = mean + std * 1.96`, `down = mean - std * 1.96`, anomalous when
   * `temp > up or temp < down`, all in NaN-aware arithmetic.
   */
  function Classify(mean: Num, std: Num, temp: real): (v: Verdict)
    // anomalous exactly when strictly outside a defined band
    ensures v.anomalous <==>
              && mean.Some? && std.Some?
              && (temp > mean.value + Z * std.value || temp < mean.value - Z * std.value)
    // the band exists exactly when mean and std do, centred on the mean with half-width 1.96 std
    ensures v.up.Some? <==> mean.Some? && std.Some?
    ensures v.down.Some? <==> mean.Some? && std.Some?
    ensures v.up.Some? ==>
              && (v.up.value + v.down.value) / 2.0 == mean.value
              && v.up.value - v.down.value == 2.0 * Z * std.value
              && (std.value >= 0.0 ==> v.down.value <= v.up.value)
    // with a non-negative std, a reading on either bound is not anomalous
    ensures (v.up.Some? && std.value >= 0.0 && (temp == v.up.value || temp == v.down.value))
            ==> !v.anomalous
  {
    var up := Add(mean, Mul(std, Some(Z)));
    var down := Sub(mean, Mul(std, Some(Z)));
    Verdict(Gt(Some(temp), up) || Lt(Some(temp), down), down, up)
  }

  /**
   * A winter baseline of mean 4 and std 2 gives the band (0.08, 7.92): a
   * reading of 9 is anomalous and a reading of 5 is not.
   */
  lemma WinterBaselineExample()
    ensures Classify(Some(4.0), Some(2.0), 9.0) == Verdict(true, Some(0.08), Some(7.92))
    ensures Classify(Some(4.0), Some(2.0), 5.0) == Verdict(false, Some(0.08), Some(7.92))
  {
  }

  /** `query('season == @season').iloc[0]`: the first row labelled `season`, if any. */
  function FirstOfSeason(es: seq<Enriched>, season: string): (r: Option<Enriched>)
    ensures r.None? <==> forall i :: 0 <= i < |es| ==> es[i].row.season != season
    ensures r.Some? ==>
              exists k :: && 0 <= k < |es| && es[k] == r.value && es[k].row.season == season
                          && forall j :: 0 <= j < k ==> es[j].row.season != season
  {
    if |es| == 0 then None
    else if es[0].row.season == season then Some(es[0])
    else
      var r := FirstOfSeason(es[1..], season);
      assert forall i :: 0 < i < |es| ==> es[i] == es[1..][i - 1];
      r
  }

  /**
   * The live check: the current month's season, that season's mean and std
   * read from the first row of the season, and the classification. A month
   * outside the table and an empty selection are the two ways it raises.
   */
  function LiveAnomaly(es: seq<Enriched>, month: int, temp: real): (r: Result<Verdict, LiveError>)
    ensures r == Failure(UnknownMonth(month)) <==> !(1 <= month <= 12)
    ensures 1 <= month <= 12 ==>
              var s := MonthToSeason(month).value;
              (r == Failure(NoBaseline(s)) <==>
                 forall i :: 0 <= i < |es| ==> es[i].row.season != Name(s))
    ensures r.Success? <==>
              && 1 <= month <= 12
              && exists i :: 0 <= i < |es| && es[i].row.season == Name(MonthToSeason(month).value)
    ensures r.Failure? ==>
              || r.error == UnknownMonth(month)
              || (1 <= month <= 12 && r.error == NoBaseline(MonthToSeason(month).value))
    ensures r.Success? ==>
              1 <= month <= 12 &&
              var name := Name(MonthToSeason(month).value);
              exists k :: && 0 <= k < |es| && es[k].row.season == name
                          && (forall j :: 0 <= j < k ==> es[j].row.season != name)
                          && r.value == Classify(es[k].mean, es[k].std, temp)
  {
    match MonthToSeason(month)
    case None => Failure(UnknownMonth(month))
    case Some(s) =>
      match FirstOfSeason(es, Name(s))
      case None => Failure(NoBaseline(s))
      case Some(e) => Success(Classify(e.mean, e.std, temp))
  }

  /**
   * On a single city's table, the live check compares against that city's
   * seasonal baseline: it fails for want of a baseline exactly when the season
   * has no rows, and otherwise classifies against the season group's mean and
   * sample std, which every row of the season carries alike.
   */
  lemma LiveBaseline(rows: seq<Row>, c: string, month: int, temp: real, root: real -> real)
    requires forall i :: 0 <= i < |rows| ==> rows[i].city == c
    requires 1 <= month <= 12
    ensures var s := MonthToSeason(month).value;
            var g := GroupTemps(rows, c, Name(s));
            var es := CalcStatistics(rows, root);
            && (|g| == 0 ==> LiveAnomaly(es, month, temp) == Failure(NoBaseline(s)))
            && (|g| >= 1 ==>
                  LiveAnomaly(es, month, temp) == Success(Classify(Mean(g), SampleStd(g, root), temp)))
            && (forall j :: 0 <= j < |es| && es[j].row.season == Name(s) ==>
                  LiveAnomaly(es, month, temp) == Success(Classify(es[j].mean, es[j].std, temp)))
  {
    var s := MonthToSeason(month).value;
    var name := Name(s);
    var g := GroupTemps(rows, c, name);
    var es := CalcStatistics(rows, root);
    forall j | 0 <= j < |es| && es[j].row.season == name
      ensures es[j].mean == Mean(g) && es[j].std == SampleStd(g, root)
      ensures |g| >= 1
    {
      CalcStatisticsAt(rows, j, root);
      GroupOfMember(rows, j);
    }
    if |g| >= 1 {
      GroupHasMember(rows, c, name);
      var k :| 0 <= k < |rows| && rows[k].city == c && rows[k].season == name;
      assert es[k].row.season == name;
    }
  }
}
