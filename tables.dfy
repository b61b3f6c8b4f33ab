/**
 * The spider's tables as values: a table is its ordered column names and its
 * rows, a row maps column names to cell text. Every step of the processing
 * pipeline except the in-place cell cleaning is a function here.
 */
module Tables {
  import opened Seqs
  import TagStrip

  type Column = string
  type Row = map<Column, string>

  datatype Table = Table(columns: seq<Column>, rows: seq<Row>)

  /** The column that names the financial indicator of a row. */
  const KeyColumn: Column := "keyName"
  /** The text a missing cell becomes once every column is converted to `str` (pandas' NaN). */
  const MissingCell: string := "nan"
  /** Each fetched table keeps at most this many columns. */
  const MaxColumns: nat := 25

  /** Column names are unique and every row has a cell for exactly the table's columns. */
  ghost predicate WellFormed(t: Table)
  {
    Distinct(t.columns) && forall r :: r in t.rows ==> r.Keys == Elements(t.columns)
  }

  /** The indicator name of a row; a row without that cell reads as the missing-value text. */
  function KeyOf(r: Row): string
  {
    if KeyColumn in r then r[KeyColumn] else MissingCell
  }

  /** The indicator names that occur in `rows`. */
  function KeySet(rows: seq<Row>): set<string>
  {
    set r | r in rows :: KeyOf(r)
  }

  /** No two rows share an indicator name. */
  predicate UniqueKeys(rows: seq<Row>)
  {
    forall i, j :: 0 <= i < j < |rows| ==> KeyOf(rows[i]) != KeyOf(rows[j])
  }

  function Min(a: nat, b: nat): nat
  {
    if a <= b then a else b
  }

  // ---------------------------------------------------------------- truncation

  /** `iloc[:, :25]`: keep the first 25 columns, in their order, and drop the other cells. */
  function Truncate(t: Table): (r: Table)
    ensures |r.columns| == Min(|t.columns|, MaxColumns)
    ensures r.columns == t.columns[..|r.columns|]
    ensures |r.rows| == |t.rows|
    ensures forall i, c :: 0 <= i < |r.rows| ==> (c in r.rows[i] <==> c in t.rows[i] && c in r.columns)
    ensures forall i, c :: 0 <= i < |r.rows| && c in r.rows[i] ==> c in t.rows[i] && r.rows[i][c] == t.rows[i][c]
  {
    var cols := t.columns[..Min(|t.columns|, MaxColumns)];
    Table(cols, seq(|t.rows|, i requires 0 <= i < |t.rows| => map c | c in cols && c in t.rows[i] :: t.rows[i][c]))
  }

  lemma TruncateWellFormed(t: Table)
    requires WellFormed(t)
    ensures WellFormed(Truncate(t))
  {
    var r := Truncate(t);
    forall i, j | 0 <= i < j < |r.columns|
      ensures r.columns[i] != r.columns[j]
    {
      assert r.columns[i] == t.columns[i] && r.columns[j] == t.columns[j];
    }
    forall x | x in r.rows
      ensures x.Keys == Elements(r.columns)
    {
      var i :| 0 <= i < |r.rows| && r.rows[i] == x;
      assert t.rows[i] in t.rows;
      forall c | c in r.columns
        ensures c in x
      {
        assert c in t.columns;
      }
    }
  }

  // ------------------------------------------------------------- concatenation

  /** Appends the columns of `cols` that `acc` does not already hold, in their order. */
  function AppendNew(acc: seq<Column>, cols: seq<Column>): (r: seq<Column>)
    ensures Distinct(acc) ==> Distinct(r)
    ensures Elements(r) == Elements(acc) + Elements(cols)
    ensures |acc| <= |r| && r[..|acc|] == acc
    decreases |cols|
  {
    if cols == [] then acc
    else
      var acc' := if cols[0] in acc then acc else acc + [cols[0]];
      assert Elements(cols) == {cols[0]} + Elements(cols[1..]);
      var r := AppendNew(acc', cols[1..]);
      assert r[..|acc|] == r[..|acc'|][..|acc|];
      r
  }

  /** The columns appended after `acc` keep the order they have in `cols`. */
  lemma {:induction false} AppendNewOrder(acc: seq<Column>, cols: seq<Column>)
    ensures Subsequence(AppendNew(acc, cols)[|acc|..], cols)
    decreases |cols|
  {
    if cols != [] {
      var acc' := if cols[0] in acc then acc else acc + [cols[0]];
      var r := AppendNew(acc, cols);
      AppendNewOrder(acc', cols[1..]);
      if cols[0] in acc {
        SubsequenceSkip(r[|acc|..], cols, 1);
      } else {
        assert r[|acc|..][1..] == r[|acc'|..];
      }
    }
  }

  /** The column index of the concatenation: the union of all columns, in order of first appearance. */
  function UnionColumns(ts: seq<Table>): (r: seq<Column>)
    ensures Distinct(r)
    ensures forall k, c :: 0 <= k < |ts| && c in ts[k].columns ==> c in r
    ensures forall c :: c in r ==> exists k :: 0 <= k < |ts| && c in ts[k].columns
    decreases |ts|
  {
    if ts == [] then []
    else
      var init := ts[..|ts| - 1];
      var last := ts[|ts| - 1];
      var prev := UnionColumns(init);
      var r := AppendNew(prev, last.columns);
      assert Elements(r) == Elements(prev) + Elements(last.columns);
      assert forall k :: 0 <= k < |init| ==> ts[k] == init[k];
      assert forall k, c :: 0 <= k < |ts| && c in ts[k].columns ==> c in r by {
        forall k, c | 0 <= k < |ts| && c in ts[k].columns
          ensures c in r
        {
          if k < |init| {
            assert c in init[k].columns;
            assert c in Elements(prev);
          } else {
            assert c in Elements(last.columns);
          }
        }
      }
      assert forall c :: c in r ==> exists k :: 0 <= k < |ts| && c in ts[k].columns by {
        forall c | c in r
          ensures exists k :: 0 <= k < |ts| && c in ts[k].columns
        {
          assert c in Elements(r);
          if c in prev {
            var k :| 0 <= k < |init| && c in init[k].columns;
            assert c in ts[k].columns;
          } else {
            assert c in Elements(last.columns);
            assert c in ts[|ts| - 1].columns;
          }
        }
      }
      r
  }

  /** The row of the concatenation for `r`: the union columns, filled with the missing-value text. */
  function Pad(r: Row, cols: seq<Column>): (p: Row)
    ensures p.Keys == Elements(cols)
    ensures forall c :: c in p && c in r ==> p[c] == r[c]
    ensures forall c :: c in p && c !in r ==> p[c] == MissingCell
  {
    map c | c in cols :: if c in r then r[c] else MissingCell
  }

  /** The rows of all tables, table after table, in list order. */
  function AllRows(ts: seq<Table>): (rows: seq<Row>)
    ensures |rows| == SumRows(ts)
    decreases |ts|
  {
    if ts == [] then [] else AllRows(ts[..|ts| - 1]) + ts[|ts| - 1].rows
  }

  /** The total number of rows over the tables. */
  function SumRows(ts: seq<Table>): nat
    decreases |ts|
  {
    if ts == [] then 0 else SumRows(ts[..|ts| - 1]) + |ts[|ts| - 1].rows|
  }

  /** `pd.concat(all_dfs, axis=0, ignore_index=True)`. */
  function Concat(ts: seq<Table>): (r: Table)
    ensures r.columns == UnionColumns(ts)
    ensures WellFormed(r)
    ensures |r.rows| == SumRows(ts)
  {
    var cols := UnionColumns(ts);
    var rows := AllRows(ts);
    var r := Table(cols, seq(|rows|, i requires 0 <= i < |rows| => Pad(rows[i], cols)));
    assert forall x :: x in r.rows ==> x.Keys == Elements(cols);
    r
  }

  /** Row `i` of table `k` lands at position `SumRows(ts[..k]) + i` of the concatenated rows. */
  lemma {:induction false} AllRowsAt(ts: seq<Table>, k: nat, i: nat)
    requires k < |ts| && i < |ts[k].rows|
    ensures SumRows(ts[..k]) + i < |AllRows(ts)|
    ensures AllRows(ts)[SumRows(ts[..k]) + i] == ts[k].rows[i]
    decreases |ts|
  {
    var init := ts[..|ts| - 1];
    if k == |ts| - 1 {
      assert ts[..k] == init;
    } else {
      assert init[..k] == ts[..k];
      AllRowsAt(init, k, i);
    }
  }

  /** Concatenation keeps every row of every table, in list order, padded to the union columns. */
  lemma ConcatRowsInOrder(ts: seq<Table>, k: nat, i: nat)
    requires k < |ts| && i < |ts[k].rows|
    ensures SumRows(ts[..k]) + i < |Concat(ts).rows|
    ensures Concat(ts).rows[SumRows(ts[..k]) + i] == Pad(ts[k].rows[i], Concat(ts).columns)
  {
    AllRowsAt(ts, k, i);
  }

  /** Two statements sharing `keyName` and some periods: new columns follow in order of first appearance. */
  lemma UnionMixedExample()
    ensures UnionColumns([Table([KeyColumn, "2024"], []), Table([KeyColumn, "2023", "2024", "2022"], [])])
      == [KeyColumn, "2024", "2023", "2022"]
  {
    var t0 := Table([KeyColumn, "2024"], []);
    var t1 := Table([KeyColumn, "2023", "2024", "2022"], []);
    assert UnionColumns([t0]) == [KeyColumn, "2024"] by {
      assert [t0][..0] == [];
      AppendNewFresh([], t0.columns);
      assert [] + t0.columns == t0.columns;
    }
    assert [t0, t1][..1] == [t0];
    AppendMixed();
  }

  lemma AppendMixed()
    ensures AppendNew([KeyColumn, "2024"], [KeyColumn, "2023", "2024", "2022"]) == [KeyColumn, "2024", "2023", "2022"]
  {
    var p := [KeyColumn, "2024"];
    var q := p + ["2023"];
    assert AppendNew(q, ["2022"]) == q + ["2022"] by {
      assert "2022" !in q;
      assert AppendNew(q + ["2022"], []) == q + ["2022"];
    }
    assert AppendNew(q, ["2024", "2022"]) == AppendNew(q, ["2022"]) by {
      assert "2024" in q;
      assert ["2024", "2022"][1..] == ["2022"];
    }
    assert AppendNew(p, ["2023", "2024", "2022"]) == AppendNew(q, ["2024", "2022"]) by {
      assert "2023" !in p;
      assert ["2023", "2024", "2022"][1..] == ["2024", "2022"];
    }
    assert AppendNew(p, [KeyColumn, "2023", "2024", "2022"]) == AppendNew(p, ["2023", "2024", "2022"]) by {
      assert KeyColumn in p;
      assert [KeyColumn, "2023", "2024", "2022"][1..] == ["2023", "2024", "2022"];
    }
    assert q + ["2022"] == [KeyColumn, "2024", "2023", "2022"];
  }

  /** A row that already has a cell for exactly the given columns is not changed by padding. */
  lemma PadFull(r: Row, cols: seq<Column>)
    requires r.Keys == Elements(cols)
    ensures Pad(r, cols) == r
  {
  }

  lemma {:induction false} AppendNewKnown(acc: seq<Column>, cols: seq<Column>)
    requires forall c :: c in cols ==> c in acc
    ensures AppendNew(acc, cols) == acc
    decreases |cols|
  {
    if cols != [] {
      AppendNewKnown(acc, cols[1..]);
    }
  }

  lemma {:induction false} AppendNewFresh(acc: seq<Column>, cols: seq<Column>)
    requires Distinct(acc + cols)
    ensures AppendNew(acc, cols) == acc + cols
    decreases |cols|
  {
    if cols != [] {
      assert cols[0] == (acc + cols)[|acc|];
      assert cols[0] !in acc by {
        forall j | 0 <= j < |acc|
          ensures acc[j] != cols[0]
        {
          assert acc[j] == (acc + cols)[j];
        }
      }
      assert (acc + [cols[0]]) + cols[1..] == acc + cols;
      AppendNewFresh(acc + [cols[0]], cols[1..]);
    }
  }

  /** Tables that share one column list concatenate to that list. */
  lemma {:induction false} UnionSameColumns(ts: seq<Table>, cols: seq<Column>)
    requires ts != [] && Distinct(cols)
    requires forall k :: 0 <= k < |ts| ==> ts[k].columns == cols
    ensures UnionColumns(ts) == cols
    decreases |ts|
  {
    if |ts| == 1 {
      assert [] + cols == cols;
      AppendNewFresh([], cols);
    } else {
      UnionSameColumns(ts[..|ts| - 1], cols);
      AppendNewKnown(cols, cols);
    }
  }

  /** Concatenating well-formed tables with the same columns just appends their rows. */
  lemma ConcatSameColumns(ts: seq<Table>, cols: seq<Column>)
    requires ts != [] && Distinct(cols)
    requires forall k :: 0 <= k < |ts| ==> ts[k].columns == cols && WellFormed(ts[k])
    ensures Concat(ts) == Table(cols, AllRows(ts))
  {
    UnionSameColumns(ts, cols);
    var rows := AllRows(ts);
    forall i | 0 <= i < |rows|
      ensures Pad(rows[i], cols) == rows[i]
    {
      AllRowsMember(ts, i);
      var k :| 0 <= k < |ts| && rows[i] in ts[k].rows;
      PadFull(rows[i], cols);
    }
  }

  /** Each row of the concatenation comes from one of the tables. */
  lemma {:induction false} AllRowsMember(ts: seq<Table>, i: nat)
    requires i < |AllRows(ts)|
    ensures exists k :: 0 <= k < |ts| && AllRows(ts)[i] in ts[k].rows
    decreases |ts|
  {
    var init := ts[..|ts| - 1];
    var last := |ts| - 1;
    if i < |AllRows(init)| {
      AllRowsMember(init, i);
      var k :| 0 <= k < |init| && AllRows(init)[i] in init[k].rows;
      assert AllRows(ts)[i] in ts[k].rows;
    } else {
      assert AllRows(ts)[i] == ts[last].rows[i - |AllRows(init)|];
    }
  }

  // ------------------------------------------------------------------ cleaning

  /** Every cell of the row with its tags deleted. */
  function CleanRow(r: Row): (c: Row)
    ensures c.Keys == r.Keys
    ensures forall k :: k in c ==> |c[k]| <= |r[k]|
  {
    map c | c in r :: TagStrip.Strip(r[c])
  }

  /** The cleaned table: same columns, same rows in the same order, every cell cleaned. */
  function CleanTable(t: Table): (c: Table)
    ensures c.columns == t.columns
    ensures |c.rows| == |t.rows|
    ensures forall i :: 0 <= i < |t.rows| ==> c.rows[i].Keys == t.rows[i].Keys
  {
    Table(t.columns, seq(|t.rows|, i requires 0 <= i < |t.rows| => CleanRow(t.rows[i])))
  }

  /**
   * Cleaning rewrites cell text only: the columns, the number of rows and each
   * row's set of cells stay; each new cell is a sub-sequence of the old one
   * in which no substring matches `<[^>]+>`.
   */
  lemma CleanTableSpec(t: Table)
    ensures forall i, c :: 0 <= i < |t.rows| && c in t.rows[i] ==>
      Subsequence(CleanTable(t).rows[i][c], t.rows[i][c]) && TagStrip.NoTagSubstring(CleanTable(t).rows[i][c])
  {
    forall i, c | 0 <= i < |t.rows| && c in t.rows[i]
      ensures Subsequence(CleanTable(t).rows[i][c], t.rows[i][c])
      ensures TagStrip.NoTagSubstring(CleanTable(t).rows[i][c])
    {
      TagStrip.StripSubsequence(t.rows[i][c]);
      TagStrip.StripLeavesNoTag(t.rows[i][c]);
    }
  }

  lemma CleanTableWellFormed(t: Table)
    requires WellFormed(t)
    ensures WellFormed(CleanTable(t))
  {
    var c := CleanTable(t);
    forall x | x in c.rows
      ensures x.Keys == Elements(c.columns)
    {
      var i :| 0 <= i < |c.rows| && c.rows[i] == x;
      assert t.rows[i] in t.rows;
    }
  }

  lemma CleanRowIdempotent(r: Row)
    ensures CleanRow(CleanRow(r)) == CleanRow(r)
  {
    forall c | c in r
      ensures TagStrip.Strip(TagStrip.Strip(r[c])) == TagStrip.Strip(r[c])
    {
      TagStrip.StripIdempotent(r[c]);
    }
  }

  /** Cleaning a cleaned table changes nothing. */
  lemma CleanTableIdempotent(t: Table)
    ensures CleanTable(CleanTable(t)) == CleanTable(t)
  {
    forall i | 0 <= i < |t.rows|
      ensures CleanRow(CleanRow(t.rows[i])) == CleanRow(t.rows[i])
    {
      CleanRowIdempotent(t.rows[i]);
    }
  }

  // ----------------------------------------------------------------- filtering

  /** `df[df['keyName'].isin(keep)]`: the rows whose indicator is in `keep`, in their order. */
  function Filter(rows: seq<Row>, keep: seq<string>): (r: seq<Row>)
    ensures forall x :: x in r <==> x in rows && KeyOf(x) in keep
    ensures |r| <= |rows|
    decreases |rows|
  {
    if rows == [] then []
    else (if KeyOf(rows[0]) in keep then [rows[0]] else []) + Filter(rows[1..], keep)
  }

  lemma {:induction false} FilterSubsequence(rows: seq<Row>, keep: seq<string>)
    ensures Subsequence(Filter(rows, keep), rows)
    decreases |rows|
  {
    if rows != [] {
      FilterSubsequence(rows[1..], keep);
      if KeyOf(rows[0]) in keep {
        assert Filter(rows, keep)[1..] == Filter(rows[1..], keep);
      } else {
        assert Filter(rows, keep) == Filter(rows[1..], keep);
      }
    }
  }

  /** The indicators left after filtering are those of the input that are in `keep`. */
  lemma FilterKeySet(rows: seq<Row>, keep: seq<string>)
    ensures KeySet(Filter(rows, keep)) == KeySet(rows) * Elements(keep)
  {
    var f := Filter(rows, keep);
    forall k | k in KeySet(rows) * Elements(keep)
      ensures k in KeySet(f)
    {
      var x :| x in rows && KeyOf(x) == k;
      assert x in f;
    }
  }

  // -------------------------------------------------------------- deduplication

  /** The position of the first row whose indicator is `key`. */
  function FirstIndex(rows: seq<Row>, key: string): (i: nat)
    requires key in KeySet(rows)
    ensures i < |rows| && KeyOf(rows[i]) == key
    ensures forall j :: 0 <= j < i ==> KeyOf(rows[j]) != key
    decreases |rows|
  {
    if KeyOf(rows[0]) == key then 0
    else
      assert key in KeySet(rows[1..]) by {
        var x :| x in rows && KeyOf(x) == key;
        assert x in rows[1..];
      }
      1 + FirstIndex(rows[1..], key)
  }

  lemma KeySetCons(rows: seq<Row>)
    requires rows != []
    ensures KeySet(rows) == {KeyOf(rows[0])} + KeySet(rows[1..])
  {
    forall k | k in KeySet(rows)
      ensures k in {KeyOf(rows[0])} + KeySet(rows[1..])
    {
      var x :| x in rows && KeyOf(x) == k;
      if x != rows[0] {
        assert x in rows[1..];
      }
    }
  }

  /** Drops the rows whose indicator is in `seen` or was met before, keeping first occurrences. */
  function DedupFrom(rows: seq<Row>, seen: set<string>): (d: seq<Row>)
    ensures forall x :: x in d ==> x in rows && KeyOf(x) !in seen
    ensures KeySet(d) == KeySet(rows) - seen
    ensures UniqueKeys(d)
    decreases |rows|
  {
    if rows == [] then []
    else
      KeySetCons(rows);
      var k := KeyOf(rows[0]);
      if k in seen then DedupFrom(rows[1..], seen)
      else
        var rest := DedupFrom(rows[1..], seen + {k});
        var d := [rows[0]] + rest;
        assert forall j :: 0 <= j < |rest| ==> rest[j] in rest;
        KeySetCons(d);
        assert d[1..] == rest;
        d
  }

  /** `drop_duplicates(subset=['keyName'])`, which keeps the first row of every indicator. */
  function Dedup(rows: seq<Row>): (d: seq<Row>)
    ensures UniqueKeys(d)
    ensures KeySet(d) == KeySet(rows)
    ensures forall x :: x in d ==> x in rows
  {
    DedupFrom(rows, {})
  }

  lemma {:induction false} DedupFromFirst(rows: seq<Row>, seen: set<string>)
    ensures forall k :: 0 <= k < |DedupFrom(rows, seen)| ==>
      KeyOf(DedupFrom(rows, seen)[k]) in KeySet(rows) &&
      DedupFrom(rows, seen)[k] == rows[FirstIndex(rows, KeyOf(DedupFrom(rows, seen)[k]))]
    decreases |rows|
  {
    if rows != [] {
      var k0 := KeyOf(rows[0]);
      var d := DedupFrom(rows, seen);
      var seen' := if k0 in seen then seen else seen + {k0};
      var rest := DedupFrom(rows[1..], seen');
      DedupFromFirst(rows[1..], seen');
      assert d == if k0 in seen then rest else [rows[0]] + rest;
      forall k | 0 <= k < |d|
        ensures KeyOf(d[k]) in KeySet(rows)
        ensures d[k] == rows[FirstIndex(rows, KeyOf(d[k]))]
      {
        assert d[k] in d;
        if k0 !in seen && k == 0 {
        } else {
          var e := if k0 in seen then rest[k] else rest[k - 1];
          assert e == d[k];
          assert e in rest;
          assert KeyOf(e) != k0;
          assert KeyOf(e) in KeySet(rows[1..]);
        }
      }
    }
  }

  /** Every row that survives deduplication is the earliest row of `rows` with its indicator. */
  lemma DedupKeepsFirst(rows: seq<Row>)
    ensures forall k :: 0 <= k < |Dedup(rows)| ==>
      KeyOf(Dedup(rows)[k]) in KeySet(rows) &&
      Dedup(rows)[k] == rows[FirstIndex(rows, KeyOf(Dedup(rows)[k]))]
  {
    DedupFromFirst(rows, {});
  }

  lemma {:induction false} DedupFromSubsequence(rows: seq<Row>, seen: set<string>)
    ensures Subsequence(DedupFrom(rows, seen), rows)
    decreases |rows|
  {
    if rows != [] {
      var k0 := KeyOf(rows[0]);
      if k0 in seen {
        DedupFromSubsequence(rows[1..], seen);
        SubsequenceSkip(DedupFrom(rows, seen), rows, 1);
      } else {
        DedupFromSubsequence(rows[1..], seen + {k0});
        assert DedupFrom(rows, seen)[1..] == DedupFrom(rows[1..], seen + {k0});
      }
    }
  }

  /** Deduplication keeps the relative order of the rows it keeps. */
  lemma DedupSubsequence(rows: seq<Row>)
    ensures Subsequence(Dedup(rows), rows)
  {
    DedupFromSubsequence(rows, {});
  }

  lemma {:induction false} DedupFromOrder(rows: seq<Row>, seen: set<string>)
    ensures forall i, j :: 0 <= i < j < |DedupFrom(rows, seen)| ==>
      KeyOf(DedupFrom(rows, seen)[i]) in KeySet(rows) &&
      KeyOf(DedupFrom(rows, seen)[j]) in KeySet(rows) &&
      FirstIndex(rows, KeyOf(DedupFrom(rows, seen)[i])) < FirstIndex(rows, KeyOf(DedupFrom(rows, seen)[j]))
    decreases |rows|
  {
    if rows != [] {
      var k0 := KeyOf(rows[0]);
      var d := DedupFrom(rows, seen);
      var seen' := if k0 in seen then seen else seen + {k0};
      var rest := DedupFrom(rows[1..], seen');
      DedupFromOrder(rows[1..], seen');
      KeySetCons(rows);
      assert d == if k0 in seen then rest else [rows[0]] + rest;
      forall e | e in rest
        ensures KeyOf(e) in KeySet(rows[1..]) && KeyOf(e) != k0
        ensures FirstIndex(rows, KeyOf(e)) == 1 + FirstIndex(rows[1..], KeyOf(e))
      {
        assert KeyOf(e) in KeySet(rest);
      }
      forall i, j | 0 <= i < j < |d|
        ensures KeyOf(d[i]) in KeySet(rows) && KeyOf(d[j]) in KeySet(rows)
        ensures FirstIndex(rows, KeyOf(d[i])) < FirstIndex(rows, KeyOf(d[j]))
      {
        if k0 in seen {
          assert d[i] in rest && d[j] in rest;
        } else if i == 0 {
          assert d[j] == rest[j - 1];
          assert d[j] in rest;
        } else {
          assert d[i] == rest[i - 1] && d[j] == rest[j - 1];
          assert d[i] in rest && d[j] in rest;
        }
      }
      assert forall i, j :: 0 <= i < j < |d| ==>
        KeyOf(d[i]) in KeySet(rows) && KeyOf(d[j]) in KeySet(rows) &&
        FirstIndex(rows, KeyOf(d[i])) < FirstIndex(rows, KeyOf(d[j]));
    } else {
      assert DedupFrom(rows, seen) == [];
    }
  }

  /**
   * The survivors of deduplication stand in the order of their indicators'
   * first occurrences: the position-wise order of the rows `drop_duplicates` keeps.
   */
  lemma DedupOrder(rows: seq<Row>)
    ensures forall i, j :: 0 <= i < j < |Dedup(rows)| ==>
      KeyOf(Dedup(rows)[i]) in KeySet(rows) &&
      KeyOf(Dedup(rows)[j]) in KeySet(rows) &&
      FirstIndex(rows, KeyOf(Dedup(rows)[i])) < FirstIndex(rows, KeyOf(Dedup(rows)[j]))
  {
    DedupFromOrder(rows, {});
    assert Dedup(rows) == DedupFrom(rows, {});
  }

  /** Filtering keeps every row with an allow-listed indicator as many times as it occurs, and no other row. */
  lemma {:induction false} FilterMultiset(rows: seq<Row>, keep: seq<string>)
    ensures forall x :: multiset(Filter(rows, keep))[x] == if KeyOf(x) in keep then multiset(rows)[x] else 0
    decreases |rows|
  {
    if rows != [] {
      FilterMultiset(rows[1..], keep);
      assert rows == [rows[0]] + rows[1..];
      assert multiset(rows) == multiset([rows[0]]) + multiset(rows[1..]);
      var head := if KeyOf(rows[0]) in keep then [rows[0]] else [];
      assert multiset(Filter(rows, keep)) == multiset(head) + multiset(Filter(rows[1..], keep));
    }
  }

  /** Among allow-listed indicators, filtering keeps the order of first occurrences. */
  lemma {:induction false} FilterFirstIndexOrder(rows: seq<Row>, keep: seq<string>, a: string, b: string)
    requires a in keep && b in keep && a in KeySet(rows) && b in KeySet(rows)
    ensures a in KeySet(Filter(rows, keep)) && b in KeySet(Filter(rows, keep))
    ensures FirstIndex(Filter(rows, keep), a) < FirstIndex(Filter(rows, keep), b) <==>
      FirstIndex(rows, a) < FirstIndex(rows, b)
    decreases |rows|
  {
    FilterKeySet(rows, keep);
    var f := Filter(rows, keep);
    var k0 := KeyOf(rows[0]);
    if k0 == a || k0 == b {
      assert f[0] == rows[0];
    } else {
      var f' := Filter(rows[1..], keep);
      KeySetCons(rows);
      FilterFirstIndexOrder(rows[1..], keep, a, b);
      FilterKeySet(rows[1..], keep);
      if k0 in keep {
        assert f == [rows[0]] + f';
        assert f[1..] == f';
      } else {
        assert f == f';
      }
    }
  }

  /** For an indicator in `keep`, the first row of the filtered rows is its first row overall. */
  lemma {:induction false} FilterFirst(rows: seq<Row>, keep: seq<string>, key: string)
    requires key in keep && key in KeySet(rows)
    ensures key in KeySet(Filter(rows, keep))
    ensures Filter(rows, keep)[FirstIndex(Filter(rows, keep), key)] == rows[FirstIndex(rows, key)]
    decreases |rows|
  {
    FilterKeySet(rows, keep);
    var f := Filter(rows, keep);
    if KeyOf(rows[0]) == key {
      assert f[0] == rows[0];
    } else {
      var f' := Filter(rows[1..], keep);
      KeySetCons(rows);
      assert key in KeySet(rows[1..]);
      FilterFirst(rows[1..], keep, key);
      assert FirstIndex(rows, key) == 1 + FirstIndex(rows[1..], key);
      if KeyOf(rows[0]) in keep {
        assert f == [rows[0]] + f';
        assert f[1..] == f';
        assert FirstIndex(f, key) == 1 + FirstIndex(f', key);
      } else {
        assert f == f';
      }
    }
  }
}
