/** The legend and hover text of a chart line: chosen category fields joined
    with ", ", by four rules tried in order, the first that holds deciding. */
module HoverLabels {
  import opened Seqs
  import opened Budget

  /** The label, one branch per rule, as the script builds it. */
  function HoverLabel(c: Categories): string {
    if c.subkategorie1 == c.subkategorie2 then
      c.hauptkategorie + ", " + c.subkategorie1 + ", " + c.produktgruppe + ", " + c.subprodukt
    else if c.hauptkategorie == c.subkategorie1 then
      c.subkategorie1 + ", " + c.subkategorie2 + ", " + c.produktgruppe + ", " + c.subprodukt
    else if c.produktgruppe == c.subprodukt then
      c.hauptkategorie + ", " + c.subkategorie1 + ", " + c.subkategorie2 + ", " + c.produktgruppe
    else
      c.hauptkategorie + ", " + c.subkategorie1 + ", " + c.subkategorie2 + ", "
        + c.produktgruppe + ", " + c.subprodukt
  }

  // The same rule written as data: an ordered table of (condition, fields).

  datatype Rule = SameSubcategories | HauptEqualsSub1 | ProductEqualsSubproduct | AllFields

  const Precedence: seq<Rule> := [SameSubcategories, HauptEqualsSub1, ProductEqualsSubproduct, AllFields]

  predicate Applies(rule: Rule, c: Categories) {
    match rule
    case SameSubcategories => c.subkategorie1 == c.subkategorie2
    case HauptEqualsSub1 => c.hauptkategorie == c.subkategorie1
    case ProductEqualsSubproduct => c.produktgruppe == c.subprodukt
    case AllFields => true
  }

  /** The fields a rule puts in the label, in label order. */
  function Fields(rule: Rule, c: Categories): seq<string> {
    match rule
    case SameSubcategories => [c.hauptkategorie, c.subkategorie1, c.produktgruppe, c.subprodukt]
    case HauptEqualsSub1 => [c.subkategorie1, c.subkategorie2, c.produktgruppe, c.subprodukt]
    case ProductEqualsSubproduct => [c.hauptkategorie, c.subkategorie1, c.subkategorie2, c.produktgruppe]
    case AllFields => [c.hauptkategorie, c.subkategorie1, c.subkategorie2, c.produktgruppe, c.subprodukt]
  }

  /** Position of the first rule that applies (|rules| when none does). */
  function FirstMatch(rules: seq<Rule>, c: Categories): (k: nat)
    ensures k <= |rules|
    ensures k < |rules| ==> Applies(rules[k], c)
    ensures forall j :: 0 <= j < k ==> !Applies(rules[j], c)
  {
    if rules == [] then 0
    else if Applies(rules[0], c) then 0
    else 1 + FirstMatch(rules[1..], c)
  }

  /** The rule that decides the label; the fallback always applies. */
  function Winner(c: Categories): (rule: Rule)
    ensures Applies(rule, c)
    ensures rule in Precedence
  {
    var k := FirstMatch(Precedence, c);
    assert Applies(Precedence[3], c);
    Precedence[k]
  }

  /** Fields joined with ", ". */
  function Join(parts: seq<string>): string {
    if |parts| == 0 then ""
    else if |parts| == 1 then parts[0]
    else parts[0] + ", " + Join(parts[1..])
  }

  /** The label is the winning rule's fields joined with ", ", and every rule
      ahead of the winner in the precedence fails. */
  lemma HoverLabelFollowsPrecedence(c: Categories)
    ensures HoverLabel(c) == Join(Fields(Winner(c), c))
    ensures forall j :: 0 <= j < |Precedence| && Precedence[j] == Winner(c) ==>
      forall i :: 0 <= i < j ==> !Applies(Precedence[i], c)
  {
    var h, s1, s2, p, sp := c.hauptkategorie, c.subkategorie1, c.subkategorie2, c.produktgruppe, c.subprodukt;
    if s1 == s2 {
      WinnerIs(c, 0);
      JoinFour(h, s1, p, sp);
    } else if h == s1 {
      WinnerIs(c, 1);
      JoinFour(s1, s2, p, sp);
    } else if p == sp {
      WinnerIs(c, 2);
      JoinFour(h, s1, s2, p);
    } else {
      WinnerIs(c, 3);
      JoinFour(s1, s2, p, sp);
      assert Join([h, s1, s2, p, sp]) == h + ", " + Join([s1, s2, p, sp]);
    }
  }

  lemma WinnerIs(c: Categories, k: nat)
    requires k < |Precedence| && Applies(Precedence[k], c)
    requires forall j :: 0 <= j < k ==> !Applies(Precedence[j], c)
    ensures Winner(c) == Precedence[k]
  {
    var m := FirstMatch(Precedence, c);
    assert m == k;
  }

  lemma JoinFour(a: string, b: string, c: string, d: string)
    ensures Join([a, b, c, d]) == a + ", " + b + ", " + c + ", " + d
  {
    assert Join([a, b, c, d]) == a + ", " + Join([b, c, d]);
    assert Join([b, c, d]) == b + ", " + Join([c, d]);
    assert Join([c, d]) == c + ", " + d;
  }

  /** The two worked examples: rule one collapses the equal subcategories,
      all-distinct fields give all five. */
  lemma LabelExamples()
    ensures HoverLabel(Categories("A", "B", "B", "C", "D")) == "A, B, C, D"
    ensures HoverLabel(Categories("A", "B", "C", "D", "E")) == "A, B, C, D, E"
  {
  }

  // Reading a label back: splitting at ", " returns the fields, as long as no
  // field itself contains a comma.

  function Split(s: string): seq<string>
    decreases |s|
  {
    if ',' !in s then [s]
    else
      var k := FirstIndex(s, ',');
      var rest := s[k + 1..];
      [s[..k]] + Split(if |rest| > 0 && rest[0] == ' ' then rest[1..] else rest)
  }

  predicate CommaFree(parts: seq<string>) {
    forall i :: 0 <= i < |parts| ==> ',' !in parts[i]
  }

  /** Splitting stops at the first separator. */
  lemma SplitStep(p: string, tail: string)
    requires ',' !in p
    ensures Split(p + ", " + tail) == [p] + Split(tail)
  {
    var s := p + ", " + tail;
    assert s[..|p|] == p && s[|p|] == ',';
    FirstIndexIs(s, ',', |p|);
    assert s[|p| + 1..] == " " + tail;
  }

  lemma {:induction false} SplitJoin(parts: seq<string>)
    requires |parts| > 0 && CommaFree(parts)
    ensures Split(Join(parts)) == parts
    decreases |parts|
  {
    if |parts| > 1 {
      assert ',' !in parts[0];
      SplitStep(parts[0], Join(parts[1..]));
      SplitJoin(parts[1..]);
      assert parts == [parts[0]] + parts[1..];
    } else {
      assert ',' !in parts[0];
    }
  }

  /** When no category value contains a comma, the label determines the
      winning rule's fields: splitting it at ", " gives them back. */
  lemma LabelGivesBackFields(c: Categories)
    requires CommaFree([c.hauptkategorie, c.subkategorie1, c.subkategorie2, c.produktgruppe, c.subprodukt])
    ensures Split(HoverLabel(c)) == Fields(Winner(c), c)
  {
    HoverLabelFollowsPrecedence(c);
    var all := [c.hauptkategorie, c.subkategorie1, c.subkategorie2, c.produktgruppe, c.subprodukt];
    var fields := Fields(Winner(c), c);
    assert forall i :: 0 <= i < |fields| ==> fields[i] in all;
    SplitJoin(fields);
  }
}
