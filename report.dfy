/**
 * The rows of the report table: a header row, then one row per entry of
 * `jobs_stats` in the dict's order, holding the language's name followed by
 * its three statistics. Rendering the rows as a text table is not modelled.
 */
module Report {
  import opened Stats

  /** A table cell: the header and the language names are text, the statistics numbers. */
  datatype Cell = Text(text: string) | Number(number: int)

  /** The header row: language, vacancies found, vacancies processed, average salary. */
  const HEADER: seq<Cell> := [Text("Язык программирования"), Text("Вакансий найдено"),
                              Text("Вакансий обработано"), Text("Средняя зарплата")]

  /** `[language] + list(lang_stats.values())`. */
  function Row(language: string, st: LanguageStats): seq<Cell> {
    [Text(language), Number(st.vacanciesFound), Number(st.vacanciesProcessed), Number(st.averageSalary)]
  }

  /**
   * `create_jobs_table` without the rendering: the header, then the rows of
   * the entries in order, one per entry.
   */
  method CreateJobsTable(jobsStats: JobsStats) returns (tableData: seq<seq<Cell>>)
    ensures |tableData| == |jobsStats| + 1 && tableData[0] == HEADER
    ensures forall k :: 0 <= k < |jobsStats| ==> tableData[k + 1] == Row(jobsStats[k].0, jobsStats[k].1)
  {
    tableData := [HEADER];
    for i := 0 to |jobsStats|
      invariant |tableData| == i + 1 && tableData[0] == HEADER
      invariant forall k :: 0 <= k < i ==> tableData[k + 1] == Row(jobsStats[k].0, jobsStats[k].1)
    {
      var (language, langStats) := jobsStats[i];
      tableData := tableData + [[Text(language)] + [Number(langStats.vacanciesFound),
                                Number(langStats.vacanciesProcessed), Number(langStats.averageSalary)]];
    }
  }

  /**
   * The table of the dict filled from `languages`: with distinct language
   * names, row `k + 1` is the `k`-th language and its statistics, so the
   * rows follow the input order and every language has exactly one row.
   */
  lemma TableInInputOrder(jobsStats: JobsStats, languages: seq<string>, stats: seq<LanguageStats>, tableData: seq<seq<Cell>>)
    requires FilledFrom(jobsStats, languages, stats) && Distinct(languages)
    requires |tableData| == |jobsStats| + 1
    requires forall k :: 0 <= k < |jobsStats| ==> tableData[k + 1] == Row(jobsStats[k].0, jobsStats[k].1)
    ensures |tableData| == |languages| + 1
    ensures forall k :: 0 <= k < |languages| ==> tableData[k + 1] == Row(languages[k], stats[k])
  {
    FilledInInputOrder(jobsStats, languages, stats);
  }
}
