/**
 * The rows of the temperature data frame and the selections the statistics
 * are computed over: one city's rows, and one (city, season) group's rows.
 */
module Frame {
  import opened Floats

  /** A calendar date; only carried through, never inspected by the statistics. */
  datatype Date = Date(year: int, month: int, day: int)

  /** One input row: the columns `city`, `timestamp`, `temperature` and `season`. */
  datatype Row = Row(city: string, timestamp: Date, temperature: real, season: string)

  /**
   * One output row: the input row unchanged plus the six columns the
   * statistics add, in the order they are added.
   */
  datatype Enriched = Enriched(
    row: Row,
    movingAverage: Num,
    std: Num,
    mean: Num,
    ciUp: Num,
    ciDown: Num,
    isOutlier: int)

  /** Temperatures of the rows of city `c`, in row order. */
  function CityTemps(rows: seq<Row>, c: string): seq<real>
  {
    if |rows| == 0 then []
    else
      var last := rows[|rows| - 1];
      CityTemps(rows[..|rows| - 1], c) + (if last.city == c then [last.temperature] else [])
  }

  /** Temperatures of the rows of the (city, season) group (c, s), in row order. */
  function GroupTemps(rows: seq<Row>, c: string, s: string): seq<real>
  {
    if |rows| == 0 then []
    else
      var last := rows[|rows| - 1];
      GroupTemps(rows[..|rows| - 1], c, s)
        + (if last.city == c && last.season == s then [last.temperature] else [])
  }

  /** The rows of city `c`, in row order. */
  function OfCity(rows: seq<Row>, c: string): seq<Row>
  {
    if |rows| == 0 then []
    else
      var last := rows[|rows| - 1];
      OfCity(rows[..|rows| - 1], c) + (if last.city == c then [last] else [])
  }

  /** The output rows of city `c`, in row order. */
  function EnrichedOfCity(es: seq<Enriched>, c: string): seq<Enriched>
  {
    if |es| == 0 then []
    else
      var last := es[|es| - 1];
      EnrichedOfCity(es[..|es| - 1], c) + (if last.row.city == c then [last] else [])
  }

  lemma CityTempsSnoc(rows: seq<Row>, x: Row, c: string)
    ensures CityTemps(rows + [x], c)
         == CityTemps(rows, c) + (if x.city == c then [x.temperature] else [])
  {
    assert (rows + [x])[..|rows|] == rows;
  }

  /** The temperatures of city `c` up to and including row `i`. */
  lemma CityTempsThrough(rows: seq<Row>, i: int, c: string)
    requires 0 <= i < |rows|
    ensures CityTemps(rows[..i + 1], c)
         == CityTemps(rows[..i], c) + (if rows[i].city == c then [rows[i].temperature] else [])
  {
    assert rows[..i + 1] == rows[..i] + [rows[i]];
    CityTempsSnoc(rows[..i], rows[i], c);
  }

  lemma GroupTempsSnoc(rows: seq<Row>, x: Row, c: string, s: string)
    ensures GroupTemps(rows + [x], c, s)
         == GroupTemps(rows, c, s) + (if x.city == c && x.season == s then [x.temperature] else [])
  {
    assert (rows + [x])[..|rows|] == rows;
  }

  /** The temperatures of group (c, s) up to and including row `i`. */
  lemma GroupTempsThrough(rows: seq<Row>, i: int, c: string, s: string)
    requires 0 <= i < |rows|
    ensures GroupTemps(rows[..i + 1], c, s)
         == GroupTemps(rows[..i], c, s)
            + (if rows[i].city == c && rows[i].season == s then [rows[i].temperature] else [])
  {
    assert rows[..i + 1] == rows[..i] + [rows[i]];
    GroupTempsSnoc(rows[..i], rows[i], c, s);
  }

  lemma OfCitySnoc(rows: seq<Row>, x: Row, c: string)
    ensures OfCity(rows + [x], c) == OfCity(rows, c) + (if x.city == c then [x] else [])
  {
    assert (rows + [x])[..|rows|] == rows;
  }

  lemma EnrichedOfCitySnoc(es: seq<Enriched>, e: Enriched, c: string)
    ensures EnrichedOfCity(es + [e], c) == EnrichedOfCity(es, c) + (if e.row.city == c then [e] else [])
  {
    assert (es + [e])[..|es|] == es;
  }

  /** Selecting a city first does not change that city's temperatures. */
  lemma {:induction false} CityTempsOfCity(rows: seq<Row>, c: string)
    ensures CityTemps(OfCity(rows, c), c) == CityTemps(rows, c)
  {
    if |rows| > 0 {
      var p, x := rows[..|rows| - 1], rows[|rows| - 1];
      assert rows == p + [x];
      CityTempsOfCity(p, c);
      OfCitySnoc(p, x, c);
      CityTempsSnoc(p, x, c);
      if x.city == c {
        CityTempsSnoc(OfCity(p, c), x, c);
      } else {
        assert OfCity(rows, c) == OfCity(p, c);
        assert CityTemps(rows, c) == CityTemps(p, c);
      }
    }
  }

  /** Selecting a city first does not change any of that city's (city, season) groups. */
  lemma {:induction false} GroupTempsOfCity(rows: seq<Row>, c: string, s: string)
    ensures GroupTemps(OfCity(rows, c), c, s) == GroupTemps(rows, c, s)
  {
    if |rows| > 0 {
      var p, x := rows[..|rows| - 1], rows[|rows| - 1];
      assert rows == p + [x];
      GroupTempsOfCity(p, c, s);
      OfCitySnoc(p, x, c);
      GroupTempsSnoc(p, x, c, s);
      if x.city == c {
        GroupTempsSnoc(OfCity(p, c), x, c, s);
      } else {
        assert OfCity(rows, c) == OfCity(p, c);
        assert GroupTemps(rows, c, s) == GroupTemps(p, c, s);
      }
    }
  }

  /** A non-empty group comes from some row of that city and season. */
  lemma {:induction false} GroupHasMember(rows: seq<Row>, c: string, s: string)
    requires |GroupTemps(rows, c, s)| >= 1
    ensures exists i :: 0 <= i < |rows| && rows[i].city == c && rows[i].season == s
  {
    var p, x := rows[..|rows| - 1], rows[|rows| - 1];
    if !(x.city == c && x.season == s) {
      GroupHasMember(p, c, s);
      var i :| 0 <= i < |p| && p[i].city == c && p[i].season == s;
      assert rows[i] == p[i];
    }
  }

  /** A prefix of the frame holds no more of a city's rows than the whole frame. */
  lemma {:induction false} CityTempsPrefix(rows: seq<Row>, k: int, c: string)
    requires 0 <= k <= |rows|
    ensures |CityTemps(rows[..k], c)| <= |CityTemps(rows, c)|
  {
    if k < |rows| {
      var p := rows[..|rows| - 1];
      assert rows[..k] == p[..k];
      CityTempsPrefix(p, k, c);
    } else {
      assert rows[..k] == rows;
    }
  }

  /** The group of a row that is present contains at least that row's temperature. */
  lemma {:induction false} GroupOfMember(rows: seq<Row>, i: int)
    requires 0 <= i < |rows|
    ensures rows[i].temperature in GroupTemps(rows, rows[i].city, rows[i].season)
  {
    if i < |rows| - 1 {
      GroupOfMember(rows[..|rows| - 1], i);
    }
  }
}
