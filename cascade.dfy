/** The cascading filter of the sidebar: five stages, Produktgruppe, Subprodukt,
    Hauptkategorie, Subkategorie_1, Subkategorie_2. Each stage offers the
    distinct values of its column among the rows still retained, then keeps
    the rows whose value is selected (all rows when nothing is selected). */
module CascadingFilter {
  import opened Seqs
  import opened Budget

  /** One stage: a category column and the values selected for it. */
  datatype Stage = Stage(level: Level, selection: seq<string>)

  /** The five multi-select inputs, one list of chosen values per column. */
  datatype Selections = Selections(
    produktgruppe: seq<string>,
    subprodukt: seq<string>,
    hauptkategorie: seq<string>,
    subkategorie1: seq<string>,
    subkategorie2: seq<string>)

  const NoSelections: Selections := Selections([], [], [], [], [])

  /** The stages in the order the script runs them. */
  function Stages(sel: Selections): (stages: seq<Stage>)
    ensures |stages| == 5
  {
    [Stage(Produktgruppe, sel.produktgruppe),
     Stage(Subprodukt, sel.subprodukt),
     Stage(Hauptkategorie, sel.hauptkategorie),
     Stage(Subkategorie1, sel.subkategorie1),
     Stage(Subkategorie2, sel.subkategorie2)]
  }

  /** The option list of a stage: `unique()` of its column over the retained rows. */
  function Options(rows: seq<Row>, level: Level): (opts: seq<string>)
    ensures NoDuplicates(opts)
    ensures forall v :: v in opts <==> exists r :: r in rows && Column(r.categories, level) == v
  {
    var vs := ColumnValues(rows, level);
    assert forall r :: r in rows ==> Column(r.categories, level) in vs by {
      forall r | r in rows ensures Column(r.categories, level) in vs {
        var i :| 0 <= i < |rows| && rows[i] == r;
        assert vs[i] == Column(r.categories, level);
      }
    }
    Unique(vs)
  }

  /** The options appear in the order their first row appears. */
  lemma OptionsInFirstAppearanceOrder(rows: seq<Row>, level: Level)
    ensures var vs := ColumnValues(rows, level);
      forall i, j :: 0 <= i < j < |Options(rows, level)| ==>
        FirstIndex(vs, Options(rows, level)[i]) < FirstIndex(vs, Options(rows, level)[j])
  {
    UniqueInFirstAppearanceOrder(ColumnValues(rows, level));
  }

  /** `isin`: the row's value in the stage's column is one of the selected values. */
  function IsIn(stage: Stage): Row -> bool {
    (r: Row) => Column(r.categories, stage.level) in stage.selection
  }

  /** Whether a row survives a stage: an empty selection restricts nothing. */
  predicate Admits(stage: Stage, r: Row) {
    |stage.selection| == 0 || Column(r.categories, stage.level) in stage.selection
  }

  /** One stage applied to the retained rows. */
  function ApplyStage(rows: seq<Row>, stage: Stage): seq<Row> {
    if |stage.selection| > 0 then Retain(rows, IsIn(stage)) else rows
  }

  /** A stage keeps, in order and with multiplicity, exactly the rows it admits;
      with nothing selected it keeps the rows unchanged. */
  lemma ApplyStageKeepsAdmittedRows(rows: seq<Row>, stage: Stage)
    ensures |stage.selection| == 0 ==> ApplyStage(rows, stage) == rows
    ensures IsSubsequence(ApplyStage(rows, stage), rows)
    ensures |ApplyStage(rows, stage)| <= |rows|
    ensures forall r :: multiset(ApplyStage(rows, stage))[r] ==
                       if Admits(stage, r) then multiset(rows)[r] else 0
  {
    if |stage.selection| > 0 {
      RetainIsSubsequence(rows, IsIn(stage));
      RetainCounts(rows, IsIn(stage));
    } else {
      SubsequenceReflexive(rows);
    }
  }

  /** A selected value that no retained row carries changes nothing, as long as
      some other value is selected with it. */
  lemma AbsentValuesAreInert(rows: seq<Row>, level: Level, sel: seq<string>, absent: seq<string>)
    requires |sel| > 0
    requires forall r :: r in rows ==> Column(r.categories, level) !in absent
    ensures ApplyStage(rows, Stage(level, sel + absent)) == ApplyStage(rows, Stage(level, sel))
  {
    RetainExtensional(rows, IsIn(Stage(level, sel + absent)), IsIn(Stage(level, sel)));
  }

  /** A non-empty selection of which no retained row carries any value keeps no row. */
  lemma OnlyAbsentValuesKeepNothing(rows: seq<Row>, level: Level, sel: seq<string>)
    requires |sel| > 0
    requires forall r :: r in rows ==> Column(r.categories, level) !in sel
    ensures ApplyStage(rows, Stage(level, sel)) == []
  {
    RetainNone(rows, IsIn(Stage(level, sel)));
  }

  /** What the cascade shows and keeps: one option list per stage, and the rows left. */
  datatype Outcome = Outcome(options: seq<seq<string>>, rows: seq<Row>)

  /** The stages folded left to right over the rows. */
  function Cascade(rows: seq<Row>, stages: seq<Stage>): (o: Outcome)
    ensures |o.options| == |stages|
    ensures |o.rows| <= |rows|
    decreases |stages|
  {
    if stages == [] then
      Outcome([], rows)
    else
      var next := ApplyStage(rows, stages[0]);
      var rest := Cascade(next, stages[1..]);
      Outcome([Options(rows, stages[0].level)] + rest.options, rest.rows)
  }

  /** The fold unrolled: given the rows after every stage, each stage's
      options are read off the rows before it, and the last rows are kept. */
  lemma {:induction false} CascadeUnrolled(rows: seq<Row>, stages: seq<Stage>, after: seq<seq<Row>>, options: seq<seq<string>>)
    requires |after| == |stages| == |options|
    requires stages != [] ==>
      after[0] == ApplyStage(rows, stages[0]) && options[0] == Options(rows, stages[0].level)
    requires forall k :: 0 < k < |stages| ==> after[k] == ApplyStage(after[k - 1], stages[k])
    requires forall k :: 0 < k < |stages| ==> options[k] == Options(after[k - 1], stages[k].level)
    ensures Cascade(rows, stages) == Outcome(options, if stages == [] then rows else after[|after| - 1])
    decreases |stages|
  {
    if stages != [] {
      var next := after[0];
      CascadeUnrolled(next, stages[1..], after[1..], options[1..]);
      assert Cascade(rows, stages).options == [options[0]] + options[1..] == options;
      assert |stages| > 1 ==> after[1..][|after| - 2] == after[|after| - 1];
    }
  }

  /** The option lists of the five sidebar inputs. */
  function OptionLists(df: seq<Row>, sel: Selections): seq<seq<string>> {
    Cascade(df, Stages(sel)).options
  }

  /** `df_filtered` after the fifth stage. */
  function Filtered(df: seq<Row>, sel: Selections): seq<Row> {
    Cascade(df, Stages(sel)).rows
  }

  /** A row passes every stage. */
  predicate AdmitsAll(stages: seq<Stage>, r: Row) {
    forall k :: 0 <= k < |stages| ==> Admits(stages[k], r)
  }

  function AdmittedBy(stages: seq<Stage>): Row -> bool {
    (r: Row) => AdmitsAll(stages, r)
  }

  lemma AdmitsAllUnfold(stages: seq<Stage>, r: Row)
    requires stages != []
    ensures AdmitsAll(stages, r) == (Admits(stages[0], r) && AdmitsAll(stages[1..], r))
  {
    if Admits(stages[0], r) && AdmitsAll(stages[1..], r) {
      forall k | 0 <= k < |stages| ensures Admits(stages[k], r) {
        if k > 0 { assert stages[k] == stages[1..][k - 1]; }
      }
    }
  }

  /** The rows the cascade keeps are exactly the input rows that pass every
      stage, in their original order. */
  lemma {:induction false} CascadeKeepsRowsAdmittedByAllStages(rows: seq<Row>, stages: seq<Stage>)
    ensures Cascade(rows, stages).rows == Retain(rows, AdmittedBy(stages))
    decreases |stages|
  {
    if stages == [] {
      RetainAll(rows, AdmittedBy(stages));
    } else {
      var st, rest := stages[0], stages[1..];
      var next := ApplyStage(rows, st);
      CascadeKeepsRowsAdmittedByAllStages(next, rest);
      forall r ensures AdmittedBy(stages)(r) == (Admits(st, r) && AdmittedBy(rest)(r)) {
        AdmitsAllUnfold(stages, r);
      }
      if |st.selection| > 0 {
        RetainRetain(rows, IsIn(st), AdmittedBy(rest), AdmittedBy(stages));
      } else {
        RetainExtensional(rows, AdmittedBy(rest), AdmittedBy(stages));
      }
    }
  }

  /** The rows left are in their original relative order. */
  lemma CascadeKeepsOrder(rows: seq<Row>, stages: seq<Stage>)
    ensures IsSubsequence(Cascade(rows, stages).rows, rows)
  {
    CascadeKeepsRowsAdmittedByAllStages(rows, stages);
    RetainIsSubsequence(rows, AdmittedBy(stages));
  }

  /** With every selection empty the cascade keeps the whole table. */
  lemma {:induction false} EmptySelectionsKeepAllRows(rows: seq<Row>, stages: seq<Stage>)
    requires forall k :: 0 <= k < |stages| ==> stages[k].selection == []
    ensures Cascade(rows, stages).rows == rows
    decreases |stages|
  {
    if stages != [] {
      EmptySelectionsKeepAllRows(rows, stages[1..]);
    }
  }

  /** With all five inputs empty the filtered rows are the whole table. */
  lemma NoSelectionsKeepFullTable(df: seq<Row>)
    ensures Filtered(df, NoSelections) == df
  {
    EmptySelectionsKeepAllRows(df, Stages(NoSelections));
  }

  /** The options of stage k are the distinct values of its column among the
      rows the stages before it keep. */
  lemma {:induction false} CascadeOptionAt(rows: seq<Row>, stages: seq<Stage>, k: nat)
    requires k < |stages|
    ensures Cascade(rows, stages).options[k] == Options(Cascade(rows, stages[..k]).rows, stages[k].level)
    decreases k
  {
    if k > 0 {
      var next := ApplyStage(rows, stages[0]);
      CascadeOptionAt(next, stages[1..], k - 1);
      assert stages[..k][0] == stages[0];
      assert stages[..k][1..] == stages[1..][..k - 1];
      assert Cascade(rows, stages).options[k] == Cascade(next, stages[1..]).options[k - 1];
    } else {
      assert stages[..0] == [];
    }
  }

  /** A stage's option list is fixed by the stages before it and its own column. */
  lemma {:induction false} OptionsDependOnEarlierStages(rows: seq<Row>, s1: seq<Stage>, s2: seq<Stage>, k: nat)
    requires k < |s1| && k < |s2|
    requires s1[..k] == s2[..k] && s1[k].level == s2[k].level
    ensures Cascade(rows, s1).options[k] == Cascade(rows, s2).options[k]
    decreases k
  {
    if k > 0 {
      assert s1[0] == s1[..k][0] == s2[..k][0] == s2[0];
      assert s1[1..][..k - 1] == s1[..k][1..] == s2[..k][1..] == s2[1..][..k - 1];
      var next := ApplyStage(rows, s1[0]);
      OptionsDependOnEarlierStages(next, s1[1..], s2[1..], k - 1);
      assert Cascade(rows, s1).options[k] == Cascade(next, s1[1..]).options[k - 1];
      assert Cascade(rows, s2).options[k] == Cascade(next, s2[1..]).options[k - 1];
    }
  }

  /** Changing the selection of a stage, or of any later one, does not change
      the option list a stage offers. */
  lemma LaterSelectionsDoNotChangeOptions(df: seq<Row>, a: Selections, b: Selections, k: nat)
    requires k < 5
    requires forall j :: 0 <= j < k ==> Stages(a)[j].selection == Stages(b)[j].selection
    ensures OptionLists(df, a)[k] == OptionLists(df, b)[k]
  {
    assert Stages(a)[..k] == Stages(b)[..k];
    OptionsDependOnEarlierStages(df, Stages(a), Stages(b), k);
  }

  lemma StrongerStagesAdmitFewer(s1: seq<Stage>, s2: seq<Stage>, r: Row)
    requires |s1| == |s2|
    requires forall k :: 0 <= k < |s2| ==> s2[k].selection == [] || s1[k] == s2[k]
    requires AdmitsAll(s1, r)
    ensures AdmitsAll(s2, r)
  {
    forall k | 0 <= k < |s2| ensures Admits(s2[k], r) {
      assert Admits(s1[k], r);
    }
  }

  /** Adding selections to stages that had none can only drop rows: the
      result is a subsequence of the less restricted one. */
  lemma StrongerStagesKeepFewerRows(rows: seq<Row>, s1: seq<Stage>, s2: seq<Stage>)
    requires |s1| == |s2|
    requires forall k :: 0 <= k < |s2| ==> s2[k].selection == [] || s1[k] == s2[k]
    ensures IsSubsequence(Cascade(rows, s1).rows, Cascade(rows, s2).rows)
    ensures |Cascade(rows, s1).rows| <= |Cascade(rows, s2).rows|
  {
    var p1, p2 := AdmittedBy(s1), AdmittedBy(s2);
    forall r | p1(r) ensures p2(r) {
      StrongerStagesAdmitFewer(s1, s2, r);
    }
    RetainStronger(rows, p1, p2);
    SubsequenceLength(Retain(rows, p1), Retain(rows, p2));
    CascadeKeepsRowsAdmittedByAllStages(rows, s1);
    CascadeKeepsRowsAdmittedByAllStages(rows, s2);
  }

  /** The same for the five sidebar inputs: selecting values at more levels
      never adds a row. */
  lemma MoreSelectionsKeepFewerRows(df: seq<Row>, a: Selections, b: Selections)
    requires forall j :: 0 <= j < 5 ==>
      Stages(b)[j].selection == [] || Stages(a)[j].selection == Stages(b)[j].selection
    ensures IsSubsequence(Filtered(df, a), Filtered(df, b))
    ensures |Filtered(df, a)| <= |Filtered(df, b)|
  {
    StrongerStagesKeepFewerRows(df, Stages(a), Stages(b));
  }

  /** Filtering an empty table offers no options and keeps nothing. */
  lemma {:induction false} CascadeOverNoRows(stages: seq<Stage>)
    ensures Cascade([], stages).rows == []
    ensures forall k :: 0 <= k < |stages| ==> Cascade([], stages).options[k] == []
    decreases |stages|
  {
    if stages != [] {
      CascadeOverNoRows(stages[1..]);
    }
  }

  /** A Produktgruppe selection that matches no row empties the table and every
      later option list. */
  lemma UnmatchedProduktgruppeEmptiesEverything(df: seq<Row>, sel: Selections)
    requires sel.produktgruppe != []
    requires forall r :: r in df ==> r.categories.produktgruppe !in sel.produktgruppe
    ensures Filtered(df, sel) == []
    ensures forall k :: 1 <= k < 5 ==> OptionLists(df, sel)[k] == []
  {
    var stages := Stages(sel);
    OnlyAbsentValuesKeepNothing(df, Produktgruppe, sel.produktgruppe);
    CascadeOverNoRows(stages[1..]);
  }
}
