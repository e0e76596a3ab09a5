/**
 * A two-scan implementation of `calc_statistics`, in the manner of the
 * grouped transforms it delegates to pandas: one pass accumulating the
 * running moments of every (city, season) group, then one pass carrying a
 * 30-value window per city and emitting the rows. It is proved to produce
 * exactly the table `Statistics.CalcStatistics` defines.
 */
module Engine {
  import opened Wrappers
  import opened Floats
  import opened Stats
  import opened Frame
  import opened Statistics

  /** Running moments of one group: count, sum and sum of squares. */
  datatype Moments = Moments(count: nat, sum: real, sumSq: real)

  function MomentsOf(xs: seq<real>): Moments
  {
    Moments(|xs|, Sum(xs), SumSq(xs))
  }

  function MomentsIn(acc: map<(string, string), Moments>, c: string, s: string): Moments
  {
    if (c, s) in acc then acc[(c, s)] else Moments(0, 0.0, 0.0)
  }

  function WindowIn(windows: map<string, seq<real>>, c: string): seq<real>
  {
    if c in windows then windows[c] else []
  }

  function MeanOfMoments(m: Moments): Num
  {
    if m.count == 0 then None else Some(m.sum / (m.count as real))
  }

  function StdOfMoments(m: Moments, root: real -> real): Num
  {
    if m.count < 2 then None else Some(root(VarianceOfMoments(m.count, m.sum, m.sumSq)))
  }

  /** Mean and std read off the moments are the two-pass mean and sample std. */
  lemma MomentsAgree(xs: seq<real>, root: real -> real)
    ensures MeanOfMoments(MomentsOf(xs)) == Mean(xs)
    ensures StdOfMoments(MomentsOf(xs), root) == SampleStd(xs, root)
  {
    if |xs| >= 2 {
      VarianceFromMoments(xs);
    }
  }

  /** The rolling mean read off a city's trailing window. */
  function MeanOfWindow(w: seq<real>): Num
  {
    if |w| < Window then None else Some(Sum(w) / (Window as real))
  }

  lemma MeanOfWindowAgrees(temps: seq<real>)
    ensures MeanOfWindow(LastN(temps, Window)) == MovingAverage(temps)
  {
  }

  /** The moments after one more value. */
  function Push(m: Moments, t: real): Moments
  {
    Moments(m.count + 1, m.sum + t, m.sumSq + t * t)
  }

  /** Pushing a value onto the moments of `xs` gives the moments of `xs` extended by it. */
  lemma PushSnoc(xs: seq<real>, t: real)
    ensures Push(MomentsOf(xs), t) == MomentsOf(xs + [t])
  {
    SumSnoc(xs, t);
    SumSqSnoc(xs, t);
  }

  /** Pushing row `i`'s temperature onto its group's moments keeps every group's moments current. */
  lemma AdvanceMoments(
    rows: seq<Row>, i: int, acc: map<(string, string), Moments>, next: map<(string, string), Moments>)
    requires 0 <= i < |rows|
    requires forall c, s :: MomentsIn(acc, c, s) == MomentsOf(GroupTemps(rows[..i], c, s))
    requires next == acc[(rows[i].city, rows[i].season) :=
                Push(MomentsIn(acc, rows[i].city, rows[i].season), rows[i].temperature)]
    ensures forall c, s :: MomentsIn(next, c, s) == MomentsOf(GroupTemps(rows[..i + 1], c, s))
  {
    var r := rows[i];
    forall c, s
      ensures MomentsIn(next, c, s) == MomentsOf(GroupTemps(rows[..i + 1], c, s))
    {
      GroupTempsThrough(rows, i, c, s);
      if c == r.city && s == r.season {
        PushSnoc(GroupTemps(rows[..i], c, s), r.temperature);
      } else {
        assert GroupTemps(rows[..i + 1], c, s) == GroupTemps(rows[..i], c, s);
      }
    }
  }

  /** One scan over the rows accumulating the moments of every (city, season) group. */
  method GroupMoments(rows: seq<Row>) returns (acc: map<(string, string), Moments>)
    ensures forall c, s :: MomentsIn(acc, c, s) == MomentsOf(GroupTemps(rows, c, s))
  {
    acc := map[];
    var i := 0;
    while i < |rows|
      invariant 0 <= i <= |rows|
      invariant forall c, s :: MomentsIn(acc, c, s) == MomentsOf(GroupTemps(rows[..i], c, s))
    {
      var r := rows[i];
      var key := (r.city, r.season);
      var next := acc[key := Push(MomentsIn(acc, r.city, r.season), r.temperature)];
      AdvanceMoments(rows, i, acc, next);
      acc := next;
      i := i + 1;
    }
    assert rows[..i] == rows;
  }

  /** Updating the row's city window to its trailing values after row `i` keeps every window current. */
  lemma AdvanceWindows(
    rows: seq<Row>, i: int, windows: map<string, seq<real>>, next: map<string, seq<real>>)
    requires 0 <= i < |rows|
    requires forall c :: WindowIn(windows, c) == LastN(CityTemps(rows[..i], c), Window)
    requires next == windows[rows[i].city :=
                LastN(WindowIn(windows, rows[i].city) + [rows[i].temperature], Window)]
    ensures forall c :: WindowIn(next, c) == LastN(CityTemps(rows[..i + 1], c), Window)
  {
    var r := rows[i];
    forall c
      ensures WindowIn(next, c) == LastN(CityTemps(rows[..i + 1], c), Window)
    {
      CityTempsThrough(rows, i, c);
      if c == r.city {
        LastNSnoc(CityTemps(rows[..i], c), r.temperature, Window);
      } else {
        assert CityTemps(rows[..i + 1], c) == CityTemps(rows[..i], c);
      }
    }
  }

  /** The output row the emitting scan produces for `r` from the group moments and the city windows. */
  function EmitRow(
    r: Row, acc: map<(string, string), Moments>, windows: map<string, seq<real>>, root: real -> real): Enriched
  {
    var m := MomentsIn(acc, r.city, r.season);
    Assemble(r, MeanOfWindow(LastN(WindowIn(windows, r.city) + [r.temperature], Window)),
             MeanOfMoments(m), StdOfMoments(m, root))
  }

  /** The city windows after `r`: its city's window takes `r`'s temperature and keeps the trailing 30. */
  function Slide(windows: map<string, seq<real>>, r: Row): map<string, seq<real>>
  {
    windows[r.city := LastN(WindowIn(windows, r.city) + [r.temperature], Window)]
  }

  /** The row emitted for row `i` from its group's moments and its city's window is the table's row `i`. */
  lemma {:induction false} ScanStep(
    rows: seq<Row>, i: int, acc: map<(string, string), Moments>,
    windows: map<string, seq<real>>, root: real -> real)
    requires 0 <= i < |rows|
    requires WindowIn(windows, rows[i].city) == LastN(CityTemps(rows[..i], rows[i].city), Window)
    requires MomentsIn(acc, rows[i].city, rows[i].season)
          == MomentsOf(GroupTemps(rows, rows[i].city, rows[i].season))
    ensures EmitRow(rows[i], acc, windows, root) == CalcStatistics(rows, root)[i]
  {
    var r := rows[i];
    CalcStatisticsAt(rows, i, root);
    CityTempsThrough(rows, i, r.city);
    LastNSnoc(CityTemps(rows[..i], r.city), r.temperature, Window);
    MeanOfWindowAgrees(CityTemps(rows[..i + 1], r.city));
    MomentsAgree(GroupTemps(rows, r.city, r.season), root);
  }

  /** Extending a prefix of `table` by its next element gives the next prefix. */
  lemma PrefixSnoc<T>(table: seq<T>, i: int, out: seq<T>)
    requires 0 <= i < |table|
    requires out == table[..i]
    ensures out + [table[i]] == table[..i + 1]
  {
  }

  /** `calc_statistics` in two scans, equal to the table the statistics define. */
  method CalcStatisticsScan(rows: seq<Row>, root: real -> real) returns (out: seq<Enriched>)
    ensures out == CalcStatistics(rows, root)
  {
    var acc := GroupMoments(rows);
    var windows: map<string, seq<real>> := map[];
    ghost var table := CalcStatistics(rows, root);
    out := [];
    var i := 0;
    while i < |rows|
      invariant 0 <= i <= |rows|
      invariant out == table[..i]
      invariant forall c :: WindowIn(windows, c) == LastN(CityTemps(rows[..i], c), Window)
    {
      ScanStep(rows, i, acc, windows, root);
      AdvanceWindows(rows, i, windows, Slide(windows, rows[i]));
      PrefixSnoc(table, i, out);
      out := out + [EmitRow(rows[i], acc, windows, root)];
      windows := Slide(windows, rows[i]);
      i := i + 1;
    }
    assert table[..i] == table;
  }
}
