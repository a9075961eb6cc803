/** One run of the dashboard script: the five cascading filters, then, when
    any value is selected, the long table with its hover labels (the chart's
    data) and the percentage-change table indexed by the distinct labels. */
module Dashboard {
  import opened Seqs
  import opened Budget
  import opened CascadingFilter
  import opened LongFormat
  import opened HoverLabels

  datatype Option<T> = None | Some(value: T)

  // ---------------------------------------------------------------------
  // Whether the chart is drawn

  /** The five selections as the list handed to `any`. */
  function SelectionLists(sel: Selections): (lists: seq<seq<string>>)
    ensures |lists| == 5
    ensures forall k :: 0 <= k < 5 ==> lists[k] == Stages(sel)[k].selection
  {
    [sel.produktgruppe, sel.subprodukt, sel.hauptkategorie, sel.subkategorie1, sel.subkategorie2]
  }

  /** Python's `any` over lists: true when some list is non-empty. */
  function Any(lists: seq<seq<string>>): bool {
    if lists == [] then false else lists[0] != [] || Any(lists[1..])
  }

  lemma {:induction false} AnyIffSomeNonEmpty(lists: seq<seq<string>>)
    ensures Any(lists) <==> exists k :: 0 <= k < |lists| && lists[k] != []
    decreases |lists|
  {
    if lists != [] {
      AnyIffSomeNonEmpty(lists[1..]);
      if lists[0] == [] && Any(lists) {
        var k :| 0 <= k < |lists[1..]| && lists[1..][k] != [];
        assert lists[k + 1] != [];
      }
      if !Any(lists) {
        forall k | 0 <= k < |lists| ensures lists[k] == [] {
          if k > 0 { assert lists[k] == lists[1..][k - 1]; }
        }
      }
    }
  }

  /** The guard of the chart branch, `not any(...) == False`. Python reads it
      as `not (any(...) == False)`. */
  predicate ShowChart(sel: Selections) {
    !(Any(SelectionLists(sel)) == false)
  }

  /** The chart is drawn exactly when at least one input has a selected value;
      with all five empty the placeholder text is shown instead. */
  lemma ShowChartIffSomeSelection(sel: Selections)
    ensures ShowChart(sel) <==> exists k :: 0 <= k < 5 && Stages(sel)[k].selection != []
    ensures ShowChart(sel) <==> sel != NoSelections
  {
    var lists := SelectionLists(sel);
    AnyIffSomeNonEmpty(lists);
    if sel != NoSelections {
      if sel.produktgruppe != [] { assert lists[0] != []; }
      else if sel.subprodukt != [] { assert lists[1] != []; }
      else if sel.hauptkategorie != [] { assert lists[2] != []; }
      else if sel.subkategorie1 != [] { assert lists[3] != []; }
      else { assert lists[4] != []; }
    }
  }

  // ---------------------------------------------------------------------
  // Hover labels of the long table

  /** The hover label of every row of a (wide) table, top to bottom. */
  function RowLabels(rows: seq<Row>): (labels: seq<string>)
    ensures |labels| == |rows|
  {
    seq(|rows|, k requires 0 <= k < |rows| => HoverLabel(rows[k].categories))
  }

  /** The `Hover_Label` column: the label of every long row, top to bottom. */
  function LabelColumn(long: seq<LongRow>): (labels: seq<string>)
    ensures |labels| == |long|
  {
    seq(|long|, k requires 0 <= k < |long| => HoverLabel(long[k].categories))
  }

  lemma LabelAt(long: seq<LongRow>, k: nat)
    requires k < |long|
    ensures LabelColumn(long)[k] == HoverLabel(long[k].categories)
  {
  }

  lemma LabelColumnAppend(a: seq<LongRow>, b: seq<LongRow>)
    ensures LabelColumn(a + b) == LabelColumn(a) + LabelColumn(b)
  {
    assert forall k :: 0 <= k < |a + b| ==>
      LabelColumn(a + b)[k] == (LabelColumn(a) + LabelColumn(b))[k];
  }

  /** The long rows of one year column carry the labels of the wide rows, in order. */
  lemma LabelsOfYearBlock(rows: seq<Row>, i: nat)
    requires i < YearCount
    ensures LabelColumn(MeltColumn(rows, i)) == RowLabels(rows)
  {
  }

  /** Every label of the long table is the label of some wide row. */
  lemma {:induction false} LabelsOfMeltFromAreRowLabels(rows: seq<Row>, c: nat)
    requires c <= YearCount
    ensures forall x :: x in LabelColumn(MeltFrom(rows, c)) ==> x in RowLabels(rows)
    decreases YearCount - c
  {
    if c < YearCount {
      LabelsOfMeltFromAreRowLabels(rows, c + 1);
      LabelColumnAppend(MeltColumn(rows, c), MeltFrom(rows, c + 1));
      LabelsOfYearBlock(rows, c);
    }
  }

  /** The label at position i * n + j of the long table is row j's label, for
      every year column i. */
  lemma ChartLabelAt(rows: seq<Row>, i: nat, j: nat)
    requires i < YearCount && j < |rows|
    ensures i * |rows| + j < |LabelColumn(Melt(rows))|
    ensures LabelColumn(Melt(rows))[i * |rows| + j] == HoverLabel(rows[j].categories)
  {
    var k := i * |rows| + j;
    var long := Melt(rows);
    MeltShape(rows, i, j);
    LabelAt(long, k);
  }

  /** The distinct hover labels of the long table are the distinct labels of
      the filtered rows, in row order: the first year block already holds
      every label and the later ones repeat them. */
  lemma MeltLabelsUnique(rows: seq<Row>)
    ensures Unique(LabelColumn(Melt(rows))) == Unique(RowLabels(rows))
  {
    var first, later := MeltColumn(rows, 0), MeltFrom(rows, 1);
    assert Melt(rows) == first + later;
    LabelColumnAppend(first, later);
    LabelsOfYearBlock(rows, 0);
    LabelsOfMeltFromAreRowLabels(rows, 1);
    UniqueAppendSeen(RowLabels(rows), LabelColumn(later));
  }

  // ---------------------------------------------------------------------
  // The page

  /** The percentage-change table, or the failure of its index assignment. */
  datatype Summary =
    | Table(index: seq<string>, ist2018: seq<int>, ist2023: seq<int>, percentageChange: seq<int>)
    | IndexLengthMismatch(expected: nat, given: nat)

  datatype Body =
    | Placeholder
    | Chart(long: seq<LongRow>, hoverLabels: seq<string>, summary: Summary)

  /** What one run shows: the five option lists, then the chart or the placeholder. */
  datatype Page = Page(options: seq<seq<string>>, body: Body)

  /** One year column of a table, top to bottom. */
  function YearColumn(rows: seq<Row>, i: nat): (vs: seq<int>)
    requires i < YearCount
    ensures |vs| == |rows|
    ensures forall k :: 0 <= k < |rows| ==> vs[k] == rows[k].years[i]
  {
    seq(|rows|, k requires 0 <= k < |rows| => rows[k].years[i])
  }

  function PercentageChanges(rows: seq<Row>): (vs: seq<int>)
    ensures |vs| == |rows|
    ensures forall k :: 0 <= k < |rows| ==> vs[k] == rows[k].percentageChange
  {
    seq(|rows|, k requires 0 <= k < |rows| => rows[k].percentageChange)
  }

  /** The three summary columns of the filtered rows, given a new index; the
      assignment fails unless the index has one entry per row. */
  function SummaryOf(rows: seq<Row>, index: seq<string>): (s: Summary)
    ensures s.Table? <==> |index| == |rows|
    ensures s.Table? ==> s.index == index && |s.ist2018| == |s.ist2023| == |s.percentageChange| == |rows|
    ensures s.IndexLengthMismatch? ==> s.expected == |rows| && s.given == |index|
  {
    if |index| == |rows| then
      Table(index, YearColumn(rows, Ist2018), YearColumn(rows, Ist2023), PercentageChanges(rows))
    else
      IndexLengthMismatch(|rows|, |index|)
  }

  /** The chart branch for the filtered rows. */
  function ChartOf(rows: seq<Row>): Body {
    var long := Melt(rows);
    var labels := LabelColumn(long);
    Chart(long, labels, SummaryOf(rows, Unique(labels)))
  }

  /** The page for a table and the five selections. */
  function PageOf(df: seq<Row>, sel: Selections): Page {
    var o := Cascade(df, Stages(sel));
    Page(o.options, if ShowChart(sel) then ChartOf(o.rows) else Placeholder)
  }

  /** With all five inputs empty the page shows the placeholder, and the
      filtered rows are the whole table. */
  lemma NoSelectionsShowPlaceholder(df: seq<Row>)
    ensures PageOf(df, NoSelections).body == Placeholder
    ensures Filtered(df, NoSelections) == df
  {
    ShowChartIffSomeSelection(NoSelections);
    NoSelectionsKeepFullTable(df);
  }

  /** The percentage-change table appears exactly when no two filtered rows
      share a hover label; then row k of the table is labelled with row k's
      label and shows row k's Ist 2018, Ist 2023 and percentage change.
      Otherwise the index assignment fails, with fewer labels than rows. */
  lemma SummaryIffDistinctLabels(rows: seq<Row>)
    ensures ChartOf(rows).summary.Table? <==> NoDuplicates(RowLabels(rows))
    ensures ChartOf(rows).summary.Table? ==>
      var t := ChartOf(rows).summary;
      forall k :: 0 <= k < |rows| ==>
        t.index[k] == HoverLabel(rows[k].categories) &&
        t.ist2018[k] == rows[k].years[Ist2018] &&
        t.ist2023[k] == rows[k].years[Ist2023] &&
        t.percentageChange[k] == rows[k].percentageChange
    ensures ChartOf(rows).summary.IndexLengthMismatch? ==>
      ChartOf(rows).summary.given < ChartOf(rows).summary.expected == |rows|
  {
    MeltLabelsUnique(rows);
    UniqueLengthIffDistinct(RowLabels(rows));
  }

  /** Two rows whose fields differ but whose labels coincide: the first drops
      the repeated Subkategorie_2, the second the repeated Subprodukt. */
  const CollidingRows: seq<Row> := [
    Row(Categories("A", "B", "B", "C", "D"), [0, 0, 0, 0, 0, 0, 0, 0, 0, 0, 0], 0),
    Row(Categories("A", "B", "C", "D", "D"), [0, 0, 0, 0, 0, 0, 0, 0, 0, 0, 0], 0)]

  /** With those two rows left by the filters, the chart has one line and the
      summary's index assignment fails: two rows, one label. */
  lemma CollidingLabelsBreakSummary()
    ensures Unique(LabelColumn(Melt(CollidingRows))) == ["A, B, C, D"]
    ensures ChartOf(CollidingRows).summary == IndexLengthMismatch(2, 1)
  {
    var labels := RowLabels(CollidingRows);
    assert labels[0] == HoverLabel(CollidingRows[0].categories) == "A, B, C, D";
    assert labels[1] == HoverLabel(CollidingRows[1].categories) == "A, B, C, D";
    assert labels == ["A, B, C, D", "A, B, C, D"];
    MeltLabelsUnique(CollidingRows);
    assert Unique(labels) == ["A, B, C, D"];
  }

  // ---------------------------------------------------------------------
  // The script, statement by statement

  /** The long table, which gains a `Hover_Label` column in place. */
  class MeltedFrame {
    var rows: seq<LongRow>
    var hoverLabel: Option<seq<string>>

    constructor(rows: seq<LongRow>)
      ensures this.rows == rows && hoverLabel == None
    {
      this.rows := rows;
      hoverLabel := None;
    }

    /** `apply(create_hover_label, axis=1)`: the label of each row in turn,
        stored as a new column. */
    method AddHoverLabel()
      modifies this
      ensures rows == old(rows)
      ensures hoverLabel.Some? && hoverLabel.value == LabelColumn(rows)
    {
      var labels: seq<string> := [];
      var k := 0;
      while k < |rows|
        invariant 0 <= k <= |rows|
        invariant |labels| == k
        invariant forall m :: 0 <= m < k ==> labels[m] == HoverLabel(rows[m].categories)
      {
        labels := labels + [HoverLabel(rows[k].categories)];
        k := k + 1;
      }
      hoverLabel := Some(labels);
    }
  }

  /** The three summary columns of the filtered rows; `index` is None while the
      frame still carries the filtered rows' original index. */
  class SummaryFrame {
    var ist2018: seq<int>
    var ist2023: seq<int>
    var percentageChange: seq<int>
    var index: Option<seq<string>>

    constructor(rows: seq<Row>)
      ensures ist2018 == YearColumn(rows, Ist2018) && ist2023 == YearColumn(rows, Ist2023)
      ensures percentageChange == PercentageChanges(rows) && index == None
    {
      ist2018 := YearColumn(rows, Ist2018);
      ist2023 := YearColumn(rows, Ist2023);
      percentageChange := PercentageChanges(rows);
      index := None;
    }

    /** Assigning a new index: accepted only with one label per row; a
        rejected assignment leaves the frame as it was. */
    method SetIndex(labels: seq<string>) returns (ok: bool)
      modifies this
      ensures ok <==> |labels| == |old(ist2018)|
      ensures ist2018 == old(ist2018) && ist2023 == old(ist2023)
      ensures percentageChange == old(percentageChange)
      ensures index == if ok then Some(labels) else old(index)
    {
      ok := |labels| == |ist2018|;
      if ok {
        index := Some(labels);
      }
    }
  }

  /** One filter step of the script: the input's options are the distinct
      values of its column among the rows retained so far, and a non-empty
      selection rebinds `dfFiltered` to the rows whose value is selected. */
  method FilterStep(dfFiltered: seq<Row>, stage: Stage) returns (options: seq<string>, kept: seq<Row>)
    ensures options == Options(dfFiltered, stage.level)
    ensures kept == ApplyStage(dfFiltered, stage)
  {
    options := Options(dfFiltered, stage.level);
    if stage.selection != [] {
      kept := Retain(dfFiltered, IsIn(stage));
    } else {
      kept := dfFiltered;
    }
  }

  /** The five filter steps, Produktgruppe first. */
  method FilterSteps(df: seq<Row>, sel: Selections) returns (options: seq<seq<string>>, dfFiltered: seq<Row>)
    ensures Cascade(df, Stages(sel)) == Outcome(options, dfFiltered)
  {
    var stages := Stages(sel);
    var produktgruppeOptions, d1 := FilterStep(df, stages[0]);
    var subproduktOptions, d2 := FilterStep(d1, stages[1]);
    var hauptkategorieOptions, d3 := FilterStep(d2, stages[2]);
    var subkategorie1Options, d4 := FilterStep(d3, stages[3]);
    var subkategorie2Options, d5 := FilterStep(d4, stages[4]);
    options := [produktgruppeOptions, subproduktOptions, hauptkategorieOptions,
                subkategorie1Options, subkategorie2Options];
    dfFiltered := d5;
    CascadeUnrolled(df, stages, [d1, d2, d3, d4, d5], options);
  }

  /** The chart branch of the script: melt, add the label column in place,
      then index the summary frame by the distinct labels. */
  method ChartSteps(dfFiltered: seq<Row>) returns (body: Body)
    ensures body == ChartOf(dfFiltered)
  {
    var melted := new MeltedFrame(Melt(dfFiltered));
    melted.AddHoverLabel();
    var labels := melted.hoverLabel.value;
    var summary := new SummaryFrame(dfFiltered);
    var ok := summary.SetIndex(Unique(labels));
    if ok {
      body := Chart(melted.rows, labels,
        Table(summary.index.value, summary.ist2018, summary.ist2023, summary.percentageChange));
    } else {
      body := Chart(melted.rows, labels, IndexLengthMismatch(|dfFiltered|, |Unique(labels)|));
    }
  }

  /** One run of the script. */
  method Render(df: seq<Row>, sel: Selections) returns (page: Page)
    ensures page == PageOf(df, sel)
  {
    var options, dfFiltered := FilterSteps(df, sel);
    var body: Body := Placeholder;
    if !(Any(SelectionLists(sel)) == false) {
      body := ChartSteps(dfFiltered);
    }
    page := Page(options, body);
  }
}
