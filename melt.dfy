/** The long-format reshape the chart needs: `pd.melt` with the five category
    columns as identifiers and the eleven year columns as values. The result
    is year-major: every row's value for the first year column, then every
    row's value for the second, and so on. */
module LongFormat {
  import opened Budget

  /** One row of the long table: the identifier columns, the year label
      (`Year`) and the value of that year column (`Value`). */
  datatype LongRow = LongRow(categories: Categories, year: string, value: int)

  /** The long row for year column i of row r. */
  function Cell(r: Row, i: nat): LongRow
    requires i < YearCount
  {
    LongRow(r.categories, YearColumns[i], r.years[i])
  }

  /** The start of block b when every block holds n long rows: b * n, written
      as repeated addition so that the proofs below stay linear. */
  function Blocks(b: nat, n: nat): nat {
    if b == 0 then 0 else n + Blocks(b - 1, n)
  }

  lemma {:induction false} BlocksIsProduct(b: nat, n: nat)
    ensures Blocks(b, n) == b * n
  {
    if b > 0 {
      BlocksIsProduct(b - 1, n);
      assert b * n == n + (b - 1) * n;
    }
  }

  /** The long rows one year column contributes, in table order. */
  function MeltColumn(rows: seq<Row>, i: nat): (block: seq<LongRow>)
    requires i < YearCount
    ensures |block| == |rows|
  {
    seq(|rows|, j requires 0 <= j < |rows| => Cell(rows[j], i))
  }

  /** The long rows of year columns i and after. */
  function MeltFrom(rows: seq<Row>, i: nat): seq<LongRow>
    requires i <= YearCount
    decreases YearCount - i
  {
    if i == YearCount then [] else MeltColumn(rows, i) + MeltFrom(rows, i + 1)
  }

  function Melt(rows: seq<Row>): seq<LongRow> {
    MeltFrom(rows, 0)
  }

  lemma {:induction false} MeltFromLength(rows: seq<Row>, c: nat)
    requires c <= YearCount
    ensures |MeltFrom(rows, c)| == Blocks(YearCount - c, |rows|)
    decreases YearCount - c
  {
    if c < YearCount {
      MeltFromLength(rows, c + 1);
    }
  }

  /** Position k of the long rows from year column c on is row j of year
      column i, where k counts i - c whole blocks and then j. */
  lemma {:induction false} MeltFromAt(rows: seq<Row>, c: nat, i: nat, j: nat, k: nat)
    requires c <= i < YearCount && j < |rows|
    requires k == Blocks(i - c, |rows|) + j
    ensures k < |MeltFrom(rows, c)|
    ensures MeltFrom(rows, c)[k] == Cell(rows[j], i)
    decreases YearCount - c
  {
    var n := |rows|;
    MeltFromLength(rows, c + 1);
    if i == c {
      assert MeltFrom(rows, c)[k] == MeltColumn(rows, c)[j];
    } else {
      MeltFromAt(rows, c + 1, i, j, k - n);
      assert MeltFrom(rows, c)[k] == MeltFrom(rows, c + 1)[k - n];
    }
  }

  /** Melting n rows gives 11 * n long rows. */
  lemma MeltLength(rows: seq<Row>)
    ensures |Melt(rows)| == YearCount * |rows|
  {
    MeltFromLength(rows, 0);
    BlocksIsProduct(YearCount, |rows|);
  }

  /** The long row at i * n + j carries row j's categories, the label of year
      column i and row j's value in that column: year-major order. */
  lemma MeltShape(rows: seq<Row>, i: nat, j: nat)
    requires i < YearCount && j < |rows|
    ensures i * |rows| + j < |Melt(rows)| &&
            Melt(rows)[i * |rows| + j] == LongRow(rows[j].categories, YearColumns[i], rows[j].years[i])
  {
    var n := |rows|;
    var k := Blocks(i, n) + j;
    assert Melt(rows) == MeltFrom(rows, 0);
    MeltFromLength(rows, 0);
    MeltFromAt(rows, 0, i, j, k);
    BlocksIsProduct(i, n);
  }
}
