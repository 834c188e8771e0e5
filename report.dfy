/** The rows that `make_clever_print` in main.py hands to the table renderer: one header
    row, then one row per language in the order the statistics were inserted. The
    rendering itself is done by an external library and is not modelled. */
module Report {
  import opened Aggregation

  /** A row of the table: the header, or the statistics of one language. */
  datatype Row =
    | HeaderRow(columns: seq<string>)
    | LanguageRow(language: string, found: int, processed: nat, average: int)

  /** Column titles: language, vacancies found, vacancies processed, average salary. */
  const Header: Row :=
    HeaderRow(["Язык программирования", "Вакансий найдено", "Вакансий обработано", "Средняя зарплата"])

  /** The row for one language's statistics. */
  function StatsRow(language: string, stats: LanguageStats): Row
  {
    LanguageRow(language, stats.found, stats.processed, stats.average)
  }

  /** `table_data` of `make_clever_print`; `statistics` lists the language dictionary's
      entries in insertion order. */
  method TableData(statistics: seq<(string, LanguageStats)>) returns (rows: seq<Row>)
    ensures |rows| == |statistics| + 1
    ensures rows[0] == Header
    ensures forall i | 0 <= i < |statistics| :: rows[i + 1] == StatsRow(statistics[i].0, statistics[i].1)
  {
    rows := [Header];
    for i := 0 to |statistics|
      invariant |rows| == i + 1 && rows[0] == Header
      invariant forall k | 0 <= k < i :: rows[k + 1] == StatsRow(statistics[k].0, statistics[k].1)
    {
      var (language, info) := statistics[i];
      rows := rows + [StatsRow(language, info)];
    }
  }
}
