/** The month-to-season lookup table of utils.py. */
module Seasons {
  import opened Wrappers

  datatype Season = Winter | Spring | Summer | Autumn

  /** The label a season carries in the `season` column of the data frame. */
  function Name(s: Season): string
  {
    match s
    case Winter => "winter"
    case Spring => "spring"
    case Summer => "summer"
    case Autumn => "autumn"
  }

  /** The lookup table itself: a dictionary keyed by month number. */
  const Table: map<int, Season> :=
    map[12 := Winter, 1 := Winter, 2 := Winter,
        3 := Spring, 4 := Spring, 5 := Spring,
        6 := Summer, 7 := Summer, 8 := Summer,
        9 := Autumn, 10 := Autumn, 11 := Autumn]

  /** Indexing the table; a month that is not a key raises, which is `None` here. */
  function MonthToSeason(month: int): (r: Option<Season>)
    ensures r.Some? <==> 1 <= month <= 12
  {
    if month in Table then Some(Table[month]) else None
  }

  /** The three months of each season, written out independently of the table. */
  function MonthsOf(s: Season): (ms: set<int>)
    ensures |ms| == 3
  {
    match s
    case Winter => {12, 1, 2}
    case Spring => {3, 4, 5}
    case Summer => {6, 7, 8}
    case Autumn => {9, 10, 11}
  }

  /** The table and the per-season month sets describe the same mapping. */
  lemma MonthToSeasonMatchesMonths(month: int, s: Season)
    ensures MonthToSeason(month) == Some(s) <==> month in MonthsOf(s)
  {
  }

  /** Every calendar month lies in exactly one season, and no other integer lies in any. */
  lemma SeasonsPartitionMonths(month: int)
    ensures 1 <= month <= 12 <==> exists s :: month in MonthsOf(s)
    ensures forall s, t :: month in MonthsOf(s) && month in MonthsOf(t) ==> s == t
  {
    if 1 <= month <= 12 {
      var s := MonthToSeason(month).value;
      MonthToSeasonMatchesMonths(month, s);
    }
  }

  /** Distinct seasons carry distinct labels, so a lookup by label finds one season only. */
  lemma NameInjective(s: Season, t: Season)
    ensures Name(s) == Name(t) <==> s == t
  {
  }
}
