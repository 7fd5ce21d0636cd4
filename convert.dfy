/** `convert_json_to_xlsx`: picks the summary and boss-match entries out of
    the dump's results list and builds the three pages in order. */
module Convert {
  import opened Wrappers
  import opened Records
  import opened Sheet
  import opened PlayerSummary
  import opened MatchDetail
  import opened RowCursor
  import opened HeroSummary

  /** One entry of the dump's `results` list, as far as the pages read it. */
  datatype ResultEntry =
    | SummaryResult(stats: SummaryResponse)
    | MatchesResult(response: MatchResponse)
    | OtherResult

  /** The (summary, minion matches, boss matches) entries: four results carry
      an extra leading entry, three do not, any other count is a fault. */
  function SelectResults<T>(results: seq<T>): (r: Result<(T, T, T), Fault>)
    ensures r.Failure? <==> |results| != 3 && |results| != 4
    ensures r.Failure? ==> r.error == UnknownResultCount(|results|)
    ensures r.Success? ==>
      r.value == (results[|results| - 3], results[|results| - 2], results[|results| - 1])
  {
    if |results| == 4 then Success((results[1], results[2], results[3]))
    else if |results| == 3 then Success((results[0], results[1], results[2]))
    else Failure(UnknownResultCount(|results|))
  }

  /** The written workbook: the player summary rows, the match detail writes
      and the hero summary writes. */
  datatype Workbook = Workbook(summary: seq<seq<Write>>, matchDetail: seq<Write>, heroSummary: seq<Write>)

  /** The conversion as a function of its inputs; the first page to fail ends it. */
  function Conversion(results: seq<ResultEntry>, guild: Guild, data: HeroData): (r: Result<Workbook, Fault>)
    ensures |results| != 3 && |results| != 4 ==> r == Failure(UnknownResultCount(|results|))
    ensures |results| == 3 || |results| == 4 ==>
      var summaryEntry, bossEntry := results[|results| - 3], results[|results| - 1];
      && (!summaryEntry.SummaryResult? ==> r == Failure(MalformedResponse))
      && (summaryEntry.SummaryResult? ==>
        var summary := SummarySheet(guild, summaryEntry.stats);
        && (summary.Failure? ==> r == Failure(summary.error))
        && (summary.Success? && !bossEntry.MatchesResult? ==> r == Failure(MalformedResponse))
        && (summary.Success? && bossEntry.MatchesResult? ==>
          var detail, heroes := MatchDetailRows(guild, data, bossEntry.response), HeroSummarySheet(bossEntry.response, data);
          && (detail.Failure? ==> r == Failure(detail.error))
          && (detail.Success? && heroes.Failure? ==> r == Failure(heroes.error))
          && (detail.Success? && heroes.Success? ==> r.Success?)))
    ensures r.Success? ==> results[|results| - 3].SummaryResult? && results[|results| - 1].MatchesResult?
    ensures r.Success? ==>
      && SummarySheet(guild, results[|results| - 3].stats) == Success(r.value.summary)
      && MatchDetailRows(guild, data, results[|results| - 1].response).Success?
      && r.value.matchDetail == SheetWrites(0, MatchDetailRows(guild, data, results[|results| - 1].response).value)
      && HeroSummarySheet(results[|results| - 1].response, data) == Success(r.value.heroSummary)
  {
    match SelectResults(results)
    case Failure(err) => Failure(err)
    case Success((summaryEntry, _, bossEntry)) =>
      if !summaryEntry.SummaryResult? then Failure(MalformedResponse)
      else
        match SummarySheet(guild, summaryEntry.stats)
        case Failure(err) => Failure(err)
        case Success(summary) =>
          if !bossEntry.MatchesResult? then Failure(MalformedResponse)
          else
            match MatchDetailRows(guild, data, bossEntry.response)
            case Failure(err) => Failure(err)
            case Success(rows) =>
              match HeroSummarySheet(bossEntry.response, data)
              case Failure(err) => Failure(err)
              case Success(heroes) => Success(Workbook(summary, SheetWrites(0, rows), heroes))
  }

  /** The pages built in the source's order, the match and hero pages by
      their cursor and array procedures. */
  method Convert(results: seq<ResultEntry>, guild: Guild, data: HeroData) returns (r: Result<Workbook, Fault>)
    ensures r == Conversion(results, guild, data)
  {
    var selected := SelectResults(results);
    if selected.Failure? {
      return Failure(selected.error);
    }
    var (summaryEntry, _, bossEntry) := selected.value;
    if !summaryEntry.SummaryResult? {
      return Failure(MalformedResponse);
    }
    var summary := SummarySheet(guild, summaryEntry.stats);
    if summary.Failure? {
      return Failure(summary.error);
    }
    if !bossEntry.MatchesResult? {
      return Failure(MalformedResponse);
    }
    var detail := MatchDetailPage(guild, data, bossEntry.response);
    if detail.Failure? {
      return Failure(detail.error);
    }
    var heroes := HeroSummaryPage(bossEntry.response, data);
    if heroes.Failure? {
      return Failure(heroes.error);
    }
    return Success(Workbook(summary.value, detail.value, heroes.value));
  }
}
