/** The budget table: one row per line item, five category columns and eleven
    fiscal-year value columns. Year values and the percentage change are kept
    as opaque integers; nothing in the pipeline computes with them. */
module Budget {

  /** The year columns, in the order the chart uses them (`value_vars`). */
  const YearColumns: seq<string> :=
    ["Ist 2018", "Soll 2019", "Soll 2020", "Ist 2021", "Ist 2022", "Ist 2023",
     "Soll 2024", "Soll 2025", "Plan 2026", "Plan 2027", "Plan 2028"]

  const YearCount: nat := 11

  /** Positions of the two year columns the percentage-change table shows. */
  const Ist2018: nat := 0
  const Ist2023: nat := 5

  /** One value per year column, aligned with YearColumns. */
  type YearValues = s: seq<int> | |s| == YearCount witness [0, 0, 0, 0, 0, 0, 0, 0, 0, 0, 0]

  datatype Categories = Categories(
    hauptkategorie: string,
    subkategorie1: string,
    subkategorie2: string,
    produktgruppe: string,
    subprodukt: string)

  datatype Row = Row(categories: Categories, years: YearValues, percentageChange: int)

  /** The five category columns a user can filter by. */
  datatype Level = Produktgruppe | Subprodukt | Hauptkategorie | Subkategorie1 | Subkategorie2

  /** The value of one category column. */
  function Column(c: Categories, level: Level): string {
    match level
    case Produktgruppe => c.produktgruppe
    case Subprodukt => c.subprodukt
    case Hauptkategorie => c.hauptkategorie
    case Subkategorie1 => c.subkategorie1
    case Subkategorie2 => c.subkategorie2
  }

  /** A category column of a table, top to bottom. */
  function ColumnValues(rows: seq<Row>, level: Level): (vs: seq<string>)
    ensures |vs| == |rows|
    ensures forall i :: 0 <= i < |rows| ==> vs[i] == Column(rows[i].categories, level)
  {
    seq(|rows|, i requires 0 <= i < |rows| => Column(rows[i].categories, level))
  }
}
