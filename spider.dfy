/**
 * The spider itself: its fixed configuration, the collection of the
 * per-endpoint tables, the processing pipeline and the run that writes the
 * full table and returns the filtered one.
 *
 * The network, the HTML and the JSON are not modelled: `fetch(url)` stands
 * for everything `fetch_data` does with one URL up to and including the
 * construction of the DataFrame, `None` meaning that any of it raised.
 */
module Spider {
  import opened Wrappers
  import opened Seqs
  import opened Tables
  import opened Frames

  /** The errors the pipeline can raise. */
  datatype Error =
    | NoObjectsToConcatenate  // `pd.concat` of an empty list
    | MissingKeyColumn        // `combined_df['keyName']` on a table without that column

  /** A file written by the run: its name and the table it holds. */
  datatype CsvFile = CsvFile(name: string, table: Table)

  /** How a run ends. */
  datatype RunOutcome =
    | NoData                                       // no endpoint produced a table
    | Failed(error: Error)                         // the pipeline raised after the file was written
    | Finished(filtered: Table, combined: Table)   // `(df_filtered, combined_df)`

  /** The indicators kept by the filter, in the order of the source. */
  const KeepIndicators: seq<string> := [
    "营业收入", "营业总成本", "营业利润", "扣非净利润", "毛利率", "净利率",
    "净资产收益率(ROE)", "资产总计", "流动资产合计", "固定资产", "在建工程", "负债总计",
    "货币资金", "应收账款",
    "应收票据", "存货",
    "流动负债合计", "非流动负债合计", "负债合计", "资产负债率",
    "期末现金及现金等价物余额"
  ]

  /** The allow-list holds 21 distinct indicator names. */
  lemma KeepIndicatorsDistinct()
    ensures |KeepIndicators| == 21 && Distinct(KeepIndicators)
  {
  }

  /** The three endpoints: profit statement, balance sheet, cash-flow statement. */
  function EndpointUrls(stockCode: string): (urls: seq<string>)
    ensures |urls| == 3 && Distinct(urls)
    ensures forall i :: 0 <= i < |urls| ==> |urls[i]| > 23 && urls[i][..23] == "https://eniu.com/table/"
  {
    var urls := [ "https://eniu.com/table/cwzba/" + stockCode + "/q/0",
                  "https://eniu.com/table/fzba/" + stockCode + "/q/0",
                  "https://eniu.com/table/llba/" + stockCode + "/q/0/q/all" ];
    // the category names differ in their first letter
    assert urls[0][23] == 'c' && urls[1][23] == 'f' && urls[2][23] == 'l';
    urls
  }

  /** The name of the file that receives the full table. */
  function FullOutputFilename(stockCode: string): (name: string)
    ensures |name| == |stockCode| + 12
    ensures name[..3] == "FS_" && name[|name| - 9..] == "_full.csv"
    ensures name[3..|name| - 9] == stockCode
  {
    "FS_" + stockCode + "_full.csv"
  }

  /**
   * The tables `fetch_data` returns: one per endpoint that did not raise, in
   * URL order, each cut to its first 25 columns. The list is empty exactly
   * when every endpoint failed.
   */
  function Fetched(urls: seq<string>, fetch: string -> Option<Table>): (dfs: seq<Table>)
    ensures |dfs| <= |urls|
    ensures forall t :: t in dfs ==> |t.columns| <= MaxColumns
    decreases |urls|
  {
    if urls == [] then []
    else
      var prev := Fetched(urls[..|urls| - 1], fetch);
      match fetch(urls[|urls| - 1])
      case None => prev
      case Some(t) => prev + [Truncate(t)]
  }

  /** Visiting one more URL appends its truncated table, or nothing when it failed. */
  lemma FetchedSnoc(urls: seq<string>, u: string, fetch: string -> Option<Table>)
    ensures Fetched(urls + [u], fetch) ==
      Fetched(urls, fetch) + (if fetch(u).Some? then [Truncate(fetch(u).value)] else [])
  {
    assert (urls + [u])[..|urls|] == urls;
  }

  /** The list is empty exactly when every endpoint failed: then `run` reports no data. */
  lemma {:induction false} FetchedEmpty(urls: seq<string>, fetch: string -> Option<Table>)
    ensures Fetched(urls, fetch) == [] <==> forall u :: u in urls ==> fetch(u).None?
    decreases |urls|
  {
    if urls != [] {
      var init := urls[..|urls| - 1];
      var last := urls[|urls| - 1];
      FetchedEmpty(init, fetch);
      assert urls == init + [last];
      FetchedSnoc(init, last, fetch);
      assert forall u :: u in urls <==> u in init || u == last;
    }
  }

  /** When every endpoint succeeds, the list holds each endpoint's truncated table, in URL order. */
  lemma {:induction false} FetchedAllSucceed(urls: seq<string>, fetch: string -> Option<Table>)
    requires forall i :: 0 <= i < |urls| ==> fetch(urls[i]).Some?
    ensures |Fetched(urls, fetch)| == |urls|
    ensures forall i :: 0 <= i < |urls| ==> Fetched(urls, fetch)[i] == Truncate(fetch(urls[i]).value)
    decreases |urls|
  {
    if urls != [] {
      var init := urls[..|urls| - 1];
      var last := urls[|urls| - 1];
      assert forall i :: 0 <= i < |init| ==> init[i] == urls[i];
      FetchedAllSucceed(init, fetch);
      assert urls == init + [last];
      FetchedSnoc(init, last, fetch);
      var prev := Fetched(init, fetch);
      assert Fetched(urls, fetch) == prev + [Truncate(fetch(last).value)];
      forall i | 0 <= i < |urls|
        ensures Fetched(urls, fetch)[i] == Truncate(fetch(urls[i]).value)
      {
        if i < |init| {
          assert Fetched(urls, fetch)[i] == prev[i];
        }
      }
    }
  }

  /** If only the first endpoint answers, the tables are that endpoint's table alone. */
  lemma OnlyFirstEndpoint(stockCode: string, fetch: string -> Option<Table>, t: Table)
    requires fetch(EndpointUrls(stockCode)[0]) == Some(t)
    requires fetch(EndpointUrls(stockCode)[1]).None? && fetch(EndpointUrls(stockCode)[2]).None?
    ensures Fetched(EndpointUrls(stockCode), fetch) == [Truncate(t)]
    ensures |Combined(Fetched(EndpointUrls(stockCode), fetch)).rows| == |t.rows|
    ensures WellFormed(t) ==> Combined(Fetched(EndpointUrls(stockCode), fetch)) == CleanTable(Truncate(t))
  {
    var urls := EndpointUrls(stockCode);
    var u0, u1, u2 := urls[0], urls[1], urls[2];
    var dfs := [Truncate(t)];
    FetchedSnoc([], u0, fetch);
    assert [] + [u0] == [u0];
    FetchedSnoc([u0], u1, fetch);
    assert [u0] + [u1] == [u0, u1];
    FetchedSnoc([u0, u1], u2, fetch);
    assert [u0, u1] + [u2] == urls;
    assert Fetched(urls, fetch) == dfs;
    assert dfs[..0] == [];
    assert SumRows(dfs) == |Truncate(t).rows|;
    if WellFormed(t) {
      var tt := Truncate(t);
      TruncateWellFormed(t);
      ConcatSameColumns(dfs, tt.columns);
      assert AllRows(dfs) == [] + tt.rows;
      assert Concat(dfs) == tt;
    }
  }

  /** The concatenated tables with every cell cleaned: the table written to the file. */
  function Combined(dfs: seq<Table>): (c: Table)
    ensures c.columns == UnionColumns(dfs)
    ensures |c.rows| == SumRows(dfs)
    ensures WellFormed(c)
    ensures forall i, col :: 0 <= i < |c.rows| && col in c.rows[i] ==> TagStrip.NoTagSubstring(c.rows[i][col])
  {
    CleanTableWellFormed(Concat(dfs));
    CleanTableSpec(Concat(dfs));
    CleanTable(Concat(dfs))
  }

  /** Once the combined table has the `keyName` column, every row's indicator is its `keyName` cell. */
  lemma KeyOfCombined(dfs: seq<Table>, i: nat)
    requires KeyColumn in UnionColumns(dfs) && i < |Combined(dfs).rows|
    ensures KeyColumn in Combined(dfs).rows[i]
    ensures KeyOf(Combined(dfs).rows[i]) == Combined(dfs).rows[i][KeyColumn]
  {
    assert Combined(dfs).rows[i] in Combined(dfs).rows;
  }

  /** What `process_data` computes from the fetched tables. */
  function Process(dfs: seq<Table>, keep: seq<string>): (r: Result<Table, Error>)
    ensures r.Ok? ==> r.value.columns == UnionColumns(dfs) && WellFormed(r.value)
    ensures r.Ok? ==> UniqueKeys(r.value.rows) && forall x :: x in r.value.rows ==> KeyOf(x) in keep
  {
    if dfs == [] then Err(NoObjectsToConcatenate)
    else
      var c := Combined(dfs);
      if KeyColumn !in c.columns then Err(MissingKeyColumn)
      else Ok(Table(c.columns, Dedup(Filter(c.rows, keep))))
  }

  /** The pipeline raises exactly when there is no table or no table has the indicator column. */
  lemma ProcessFails(dfs: seq<Table>, keep: seq<string>)
    ensures Process(dfs, keep).Err? <==> dfs == [] || KeyColumn !in UnionColumns(dfs)
    ensures Process(dfs, keep) == Err(NoObjectsToConcatenate) <==> dfs == []
  {
  }

  /**
   * The filtered table holds exactly one row per allow-listed indicator that
   * occurs in the cleaned combined table and nothing else: the earliest row
   * with that indicator, with the rows in their original relative order.
   */
  lemma ProcessResult(dfs: seq<Table>, keep: seq<string>)
    ensures Process(dfs, keep).Ok? ==> var f := Process(dfs, keep).value; var c := Combined(dfs);
      && f.columns == c.columns
      && WellFormed(f)
      && UniqueKeys(f.rows)
      && (forall x :: x in f.rows ==> x in c.rows && KeyOf(x) in keep)
      && KeySet(f.rows) == KeySet(c.rows) * Elements(keep)
      && (forall k :: 0 <= k < |f.rows| ==>
            KeyOf(f.rows[k]) in KeySet(c.rows) && f.rows[k] == c.rows[FirstIndex(c.rows, KeyOf(f.rows[k]))])
      && Subsequence(f.rows, c.rows)
      && (forall i, j :: 0 <= i < j < |f.rows| ==>
            KeyOf(f.rows[i]) in KeySet(c.rows) && KeyOf(f.rows[j]) in KeySet(c.rows) &&
            FirstIndex(c.rows, KeyOf(f.rows[i])) < FirstIndex(c.rows, KeyOf(f.rows[j])))
  {
    if Process(dfs, keep).Err? {
      return;
    }
    var c := Combined(dfs);
    var filtered := Filter(c.rows, keep);
    var f := Process(dfs, keep).value;
    CleanTableWellFormed(Concat(dfs));
    FilterKeySet(c.rows, keep);
    DedupKeepsFirst(filtered);
    forall k | 0 <= k < |f.rows|
      ensures KeyOf(f.rows[k]) in KeySet(c.rows)
      ensures f.rows[k] == c.rows[FirstIndex(c.rows, KeyOf(f.rows[k]))]
    {
      var key := KeyOf(f.rows[k]);
      assert f.rows[k] in f.rows;
      assert key in keep;
      FilterFirst(c.rows, keep, key);
    }
    DedupOrder(filtered);
    forall i, j | 0 <= i < j < |f.rows|
      ensures FirstIndex(c.rows, KeyOf(f.rows[i])) < FirstIndex(c.rows, KeyOf(f.rows[j]))
    {
      assert f.rows[i] in f.rows && f.rows[j] in f.rows;
      FilterFirstIndexOrder(c.rows, keep, KeyOf(f.rows[i]), KeyOf(f.rows[j]));
    }
    FilterSubsequence(c.rows, keep);
    DedupSubsequence(filtered);
    SubsequenceTransitive(f.rows, filtered, c.rows);
  }

  /** The scenario of two `营业收入` rows: the full table keeps both, the filtered table one. */
  lemma DuplicateRevenueExample()
    ensures var row := map[KeyColumn := "营业收入", "2023" := "100"];
      var t := Table([KeyColumn, "2023"], [row, row]);
      && |Combined([t]).rows| == 2
      && Process([t], KeepIndicators) == Ok(Table([KeyColumn, "2023"], [row]))
  {
    var row := map[KeyColumn := "营业收入", "2023" := "100"];
    var t := Table([KeyColumn, "2023"], [row, row]);
    RevenueCombined(row, t);
    RevenueFilter(row);
    RevenueDedup(row);
  }

  lemma RevenueCombined(row: Row, t: Table)
    requires row == map[KeyColumn := "营业收入", "2023" := "100"]
    requires t == Table([KeyColumn, "2023"], [row, row])
    ensures Combined([t]) == t
  {
    RevenueConcat(row, t);
    CleanRowNoOpen(row);
    assert CleanTable(t).rows == [CleanRow(row), CleanRow(row)];
  }

  lemma RevenueConcat(row: Row, t: Table)
    requires row == map[KeyColumn := "营业收入", "2023" := "100"]
    requires t == Table([KeyColumn, "2023"], [row, row])
    ensures Concat([t]) == t
  {
    var cols := [KeyColumn, "2023"];
    assert Distinct(cols);
    assert WellFormed(t) by {
      assert Elements(cols) == {KeyColumn, "2023"};
      assert row.Keys == {KeyColumn, "2023"};
    }
    ConcatSameColumns([t], cols);
    assert [t][..0] == [];
    assert AllRows([t]) == [] + t.rows;
  }

  lemma RevenueFilter(row: Row)
    requires row == map[KeyColumn := "营业收入", "2023" := "100"]
    ensures Filter([row, row], KeepIndicators) == [row, row]
  {
    assert KeyOf(row) == KeepIndicators[0];
    assert [row, row][1..] == [row];
    assert [row][1..] == [];
  }

  lemma RevenueDedup(row: Row)
    ensures Dedup([row, row]) == [row]
  {
    assert [row, row][1..] == [row];
    assert [row][1..] == [];
    var k := KeyOf(row);
    assert {} + {k} == {k};
    assert DedupFrom([row], {k}) == [];
    assert DedupFrom([row, row], {}) == [row] + DedupFrom([row], {k});
  }

  lemma CleanRowNoOpen(row: Row)
    requires row == map[KeyColumn := "营业收入", "2023" := "100"]
    ensures CleanRow(row) == row
  {
    TagStrip.StripWithoutOpen("营业收入");
    TagStrip.StripWithoutOpen("100");
  }

  /** `combined_df` after `pd.concat` and the cleaning loop, shared by `process_data` and `run`. */
  method CombineAndClean(allDfs: seq<Table>) returns (df: DataFrame)
    requires allDfs != []
    ensures fresh(df) && df.Valid()
    ensures df.Value() == Combined(allDfs)
  {
    df := new DataFrame(Concat(allDfs));
    df.CleanCells();
  }

  class FinancialSpider {
    const stockCode: string
    const urls: seq<string>
    const keepIndicators: seq<string>

    constructor (stockCode: string)
      ensures this.stockCode == stockCode
      ensures urls == EndpointUrls(stockCode) && keepIndicators == KeepIndicators
    {
      this.stockCode := stockCode;
      urls := EndpointUrls(stockCode);
      keepIndicators := KeepIndicators;
    }

    /** Visits the URLs in order and keeps the truncated table of every one that did not raise. */
    method FetchData(fetch: string -> Option<Table>) returns (allDfs: seq<Table>)
      ensures allDfs == Fetched(urls, fetch)
    {
      allDfs := [];
      var i := 0;
      while i < |urls|
        invariant 0 <= i <= |urls|
        invariant allDfs == Fetched(urls[..i], fetch)
      {
        assert urls[..i + 1][..i] == urls[..i];
        match fetch(urls[i]) {
          case None =>
          case Some(t) =>
            allDfs := allDfs + [Truncate(t)];
        }
        i := i + 1;
      }
      assert urls[..i] == urls;
    }

    /** Concatenate, clean in place, filter to the allow-list, keep the first row per indicator. */
    method ProcessData(allDfs: seq<Table>) returns (r: Result<Table, Error>)
      ensures r == Process(allDfs, keepIndicators)
    {
      if allDfs == [] {
        return Err(NoObjectsToConcatenate);
      }
      var df := CombineAndClean(allDfs);
      if KeyColumn !in df.columns {
        return Err(MissingKeyColumn);
      }
      r := Ok(Table(df.columns, Dedup(Filter(df.rows, keepIndicators))));
    }

    /**
     * Fetches, and with no table reports no data and writes nothing; otherwise
     * writes the full cleaned table, then filters it as `process_data` does.
     */
    method Run(fetch: string -> Option<Table>) returns (outcome: RunOutcome, written: Option<CsvFile>)
      ensures outcome.NoData? <==> forall u :: u in urls ==> fetch(u).None?
      ensures written.None? <==> outcome.NoData?
      ensures var dfs := Fetched(urls, fetch);
        && (dfs == [] ==> outcome == NoData && written == None)
        && (dfs != [] ==>
              && written == Some(CsvFile(FullOutputFilename(stockCode), Combined(dfs)))
              && outcome == match Process(dfs, keepIndicators)
                            case Ok(f) => Finished(f, Combined(dfs))
                            case Err(e) => Failed(e))
    {
      var allDfs := FetchData(fetch);
      FetchedEmpty(urls, fetch);
      if allDfs == [] {
        return NoData, None;
      }
      var df := CombineAndClean(allDfs);
      var combined := df.Value();
      written := Some(CsvFile(FullOutputFilename(stockCode), combined));
      if KeyColumn !in df.columns {
        return Failed(MissingKeyColumn), written;
      }
      var filtered := Table(df.columns, Dedup(Filter(df.rows, keepIndicators)));
      outcome := Finished(filtered, combined);
    }
  }
}
