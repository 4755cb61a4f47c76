/** The discovery request of `handle_estrenos_callback`: which dates and
    sort order each releases button asks for, with "today" given. */
module Releases {
  import opened Wrappers
  import opened Decimal
  import opened Calendar
  import opened TmdbClient

  const MonthChoice := "estrenos_mes"
  const YearChoice := "estrenos_ano"
  const MonthHeading := "\U{1F4C5} *Estrenos de este Mes:*\n"
  const YearHeading := "\U{1F5D3}\U{FE0F} *Próximos Estrenos del Año:*\n"

  /** What the callback does with the choice it was sent. */
  datatype ReleasesQuery =
    | InvalidChoice                      // "Opción no válida."
    | DateOverflow                       // the OverflowError of December 9999
    | Discover(params: map<string, Param>, title: string)  // sent escaped as a whole (line 246)

  /** Lines 221-226: the month request's parameters. */
  function MonthParams(first: Date, last: Date): (p: map<string, Param>)
    requires Valid(first) && Valid(last)
    ensures p.Keys == {"primary_release_date.gte", "primary_release_date.lte", "sort_by", "region"}
    ensures p["primary_release_date.gte"] == Text(FormatDate(first))
    ensures p["primary_release_date.lte"] == Text(FormatDate(last))
    ensures p["sort_by"] == Text("popularity.desc") && p["region"] == Text("ES")
  {
    map[
      "primary_release_date.gte" := Text(FormatDate(first)),
      "primary_release_date.lte" := Text(FormatDate(last)),
      "sort_by" := Text("popularity.desc"),
      "region" := Text("ES")]
  }

  /** Lines 212-238: the parameters and the title text for each choice. */
  function ReleasesRequest(choice: string, today: Date): (r: ReleasesQuery)
    requires Valid(today)
    ensures r.InvalidChoice? <==> choice != MonthChoice && choice != YearChoice
    ensures r.DateOverflow? ==> choice == MonthChoice
    ensures r.Discover? ==> r.params.Keys >= {"primary_release_date.gte", "sort_by", "region"}
  {
    if choice == MonthChoice then
      match CurrentMonthRange(today)
      case None => DateOverflow
      case Some((first, last)) => Discover(MonthParams(first, last), MonthHeading)
    else if choice == YearChoice then
      Discover(map[
        "primary_release_year" := Number(today.year),
        "primary_release_date.gte" := Text(FormatDate(today)),
        "sort_by" := Text("primary_release_date.asc"),
        "region" := Text("ES")],
        YearHeading)
    else InvalidChoice
  }

  /** "This month" asks, most popular first, for releases from the first
      to the last day of today's month, as full-dates; only in December
      9999 does the date arithmetic overflow. */
  lemma MonthWindow(today: Date)
    requires Valid(today)
    ensures var r := ReleasesRequest(MonthChoice, today);
      (r.DateOverflow? <==> today.year == MaxYear && today.month == 12)
      && (r.Discover? ==>
            r.params.Keys == {"primary_release_date.gte", "primary_release_date.lte", "sort_by", "region"}
            && r.params["primary_release_date.gte"].Text?
            && ParseDate(r.params["primary_release_date.gte"].text) == Some(Date(today.year, today.month, 1))
            && r.params["primary_release_date.lte"].Text?
            && ParseDate(r.params["primary_release_date.lte"].text)
                 == Some(Date(today.year, today.month, DaysInMonth(today.year, today.month)))
            && r.params["sort_by"] == Text("popularity.desc")
            && r.params["region"] == Text("ES"))
  {
    CurrentMonthRangeIsWholeMonth(today);
    if !(today.year == MaxYear && today.month == 12) {
      var first := Date(today.year, today.month, 1);
      var last := Date(today.year, today.month, DaysInMonth(today.year, today.month));
      assert CurrentMonthRange(today) == Some((first, last));
      ParseFormatDate(first);
      ParseFormatDate(last);
      assert ReleasesRequest(MonthChoice, today).params == MonthParams(first, last);
    }
  }

  /** A leap February, as the strings sent to the API: 2024-02-15 asks for
      2024-02-01 to 2024-02-29. */
  lemma MonthWindowFebruary2024()
    ensures var r := ReleasesRequest(MonthChoice, Date(2024, 2, 15));
      r.Discover?
      && r.params["primary_release_date.gte"] == Text("2024-02-01")
      && r.params["primary_release_date.lte"] == Text("2024-02-29")
  {
    LeapFebruaryExample();
    var first, last := Date(2024, 2, 1), Date(2024, 2, 29);
    FormatDateParts(first);
    FormatDateParts(last);
    assert PadDigits(2024, 4) == "2024";
    assert PadDigits(2, 2) == "02";
    assert PadDigits(1, 2) == "01";
    assert PadDigits(29, 2) == "29";
  }

  /** "This year" asks for releases of today's year from today on, earliest first,
      with no upper date bound. */
  lemma YearWindow(today: Date)
    requires Valid(today)
    ensures var r := ReleasesRequest(YearChoice, today);
      r.Discover?
      && r.params.Keys == {"primary_release_year", "primary_release_date.gte", "sort_by", "region"}
      && r.params["primary_release_year"] == Number(today.year)
      && r.params["primary_release_date.gte"].Text?
      && ParseDate(r.params["primary_release_date.gte"].text) == Some(today)
      && r.params["sort_by"] == Text("primary_release_date.asc")
      && r.params["region"] == Text("ES")
  {
    ParseFormatDate(today);
  }
}
