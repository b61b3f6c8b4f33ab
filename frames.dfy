/**
 * The combined DataFrame that the spider cleans in place, one column at a
 * time: for every column, the whole column is replaced by its cells with the
 * tags deleted.
 */
module Frames {
  import opened Seqs
  import opened Tables
  import TagStrip

  /** The row with its cells in `done` cleaned and the others as they were. */
  function CleanOn(r: Row, done: set<Column>): (c: Row)
    ensures c.Keys == r.Keys
  {
    map c | c in r :: if c in done then TagStrip.Strip(r[c]) else r[c]
  }

  /** One column assignment `df[col] = df[col].str.replace(...)`: the cell `col` of every row is cleaned. */
  function CleanColumn(rows: seq<Row>, col: Column): (r: seq<Row>)
    ensures |r| == |rows|
  {
    seq(|rows|, i requires 0 <= i < |rows| =>
      if col in rows[i] then rows[i][col := TagStrip.Strip(rows[i][col])] else rows[i])
  }

  /** Cleaning one more column extends the set of cleaned columns (a column seen twice is cleaned twice, to the same text). */
  lemma CleanOnStep(r: Row, done: set<Column>, col: Column)
    ensures (var c := CleanOn(r, done); if col in c then c[col := TagStrip.Strip(c[col])] else c)
      == CleanOn(r, done + {col})
  {
    if col in r {
      TagStrip.StripIdempotent(r[col]);
    }
  }

  /** Once every cell is in the cleaned set, the row is fully cleaned. */
  lemma CleanOnAll(r: Row, done: set<Column>)
    requires r.Keys <= done
    ensures CleanOn(r, done) == CleanRow(r)
  {
  }

  class DataFrame {
    var columns: seq<Column>
    var rows: seq<Row>

    ghost predicate Valid()
      reads this
    {
      WellFormed(Table(columns, rows))
    }

    /** The frame's content as a table value. */
    function Value(): Table
      reads this
    {
      Table(columns, rows)
    }

    constructor (t: Table)
      requires WellFormed(t)
      ensures Valid() && Value() == t
    {
      columns := t.columns;
      rows := t.rows;
    }

    /** The cleaning loop: every column in turn is rewritten in place. */
    method CleanCells()
      requires Valid()
      modifies this
      ensures Valid()
      ensures Value() == CleanTable(old(Value()))
    {
      var k := 0;
      while k < |columns|
        invariant 0 <= k <= |columns|
        invariant columns == old(columns)
        invariant |rows| == |old(rows)|
        invariant forall i :: 0 <= i < |rows| ==> rows[i] == CleanOn(old(rows)[i], Elements(columns[..k]))
      {
        forall i | 0 <= i < |rows|
          ensures CleanColumn(rows, columns[k])[i] == CleanOn(old(rows)[i], Elements(columns[..k + 1]))
        {
          assert Elements(columns[..k + 1]) == Elements(columns[..k]) + {columns[k]} by {
            assert columns[..k + 1] == columns[..k] + [columns[k]];
          }
          CleanOnStep(old(rows)[i], Elements(columns[..k]), columns[k]);
        }
        rows := CleanColumn(rows, columns[k]);
        k := k + 1;
      }
      forall i | 0 <= i < |rows|
        ensures rows[i] == CleanRow(old(rows)[i])
      {
        assert columns[..k] == columns;
        assert old(rows)[i] in old(rows);
        CleanOnAll(old(rows)[i], Elements(columns));
      }
      CleanTableWellFormed(old(Value()));
    }
  }
}
