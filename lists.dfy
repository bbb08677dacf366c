/**
  The selection lists of the "Anpassung" sheet: employees in column M, projects
  in column N and absence types in column P, each read from row 4 down as the
  distinct non-blank stripped texts in first-seen order.
 */
module Lists {
  import opened Strings
  import opened Optional
  import opened Sheets

  const ListSheet: string := "Anpassung"
  const EmployeeListCol: nat := 13
  const ProjectListCol: nat := 14
  const AbsenceListCol: nat := 16
  const FirstListRow: nat := 4

  /** `str(v).strip() if v is not None else ""`. */
  function CellLabel(v: Cell): string {
    Strip(CellText(v))
  }

  /** The stripped texts of column `col` from row `first` to `max_row`, top to bottom. */
  function ColumnTexts(sh: Sheet, col: nat, first: nat): (ts: seq<string>)
    ensures |ts| == if first <= sh.maxRow then sh.maxRow + 1 - first else 0
    ensures forall i :: 0 <= i < |ts| ==> ts[i] == CellLabel(Value(sh, first + i, col))
  {
    if first <= sh.maxRow then seq(sh.maxRow + 1 - first, (i: nat) => CellLabel(Value(sh, first + i, col))) else []
  }

  /** The non-blank texts of `xs`, each once, in the order of their first occurrence. */
  function Distinct(xs: seq<string>): seq<string> {
    if xs == [] then []
    else
      var d := Distinct(xs[..|xs| - 1]);
      var x := xs[|xs| - 1];
      if x != "" && x !in d then d + [x] else d
  }

  /** The position of the first occurrence of x in xs. */
  function IndexOf(xs: seq<string>, x: string): (i: nat)
    requires x in xs
    ensures i < |xs| && xs[i] == x && forall j :: 0 <= j < i ==> xs[j] != x
  {
    if xs[0] == x then 0 else 1 + IndexOf(xs[1..], x)
  }

  /** The list holds exactly the non-blank texts of the column. */
  lemma {:induction false} DistinctMembers(xs: seq<string>)
    ensures forall x :: x in Distinct(xs) <==> x in xs && x != ""
  {
    if xs != [] {
      var init := xs[..|xs| - 1];
      DistinctMembers(init);
      assert xs == init + [xs[|xs| - 1]];
    }
  }

  /** No text appears twice in the list. */
  lemma {:induction false} DistinctHasNoDuplicates(xs: seq<string>)
    ensures forall i, j :: 0 <= i < j < |Distinct(xs)| ==> Distinct(xs)[i] != Distinct(xs)[j]
  {
    if xs != [] {
      DistinctHasNoDuplicates(xs[..|xs| - 1]);
    }
  }

  lemma IndexOfPrefix(xs: seq<string>, x: string, y: string)
    requires x in xs
    ensures IndexOf(xs + [y], x) == IndexOf(xs, x)
  {
    if xs[0] != x {
      assert (xs + [y])[1..] == xs[1..] + [y];
      IndexOfPrefix(xs[1..], x, y);
    }
  }

  /** The list keeps first-seen order: an earlier entry first occurs earlier in the column. */
  lemma {:induction false} DistinctKeepsFirstSeenOrder(xs: seq<string>)
    ensures forall x :: x in Distinct(xs) ==> x in xs
    ensures forall i, j :: 0 <= i < j < |Distinct(xs)| ==>
      IndexOf(xs, Distinct(xs)[i]) < IndexOf(xs, Distinct(xs)[j])
    decreases |xs|
  {
    DistinctMembers(xs);
    if xs != [] {
      var init := xs[..|xs| - 1];
      assert xs == init + [xs[|xs| - 1]];
      DistinctKeepsFirstSeenOrder(init);
      OrderAfterSnoc(init, xs[|xs| - 1]);
    }
  }

  /** One more text keeps the list in first-seen order. */
  lemma OrderAfterSnoc(init: seq<string>, x: string)
    requires forall y :: y in Distinct(init) ==> y in init
    requires forall i, j :: 0 <= i < j < |Distinct(init)| ==>
      IndexOf(init, Distinct(init)[i]) < IndexOf(init, Distinct(init)[j])
    ensures forall y :: y in Distinct(init + [x]) ==> y in init + [x]
    ensures forall i, j :: 0 <= i < j < |Distinct(init + [x])| ==>
      IndexOf(init + [x], Distinct(init + [x])[i]) < IndexOf(init + [x], Distinct(init + [x])[j])
  {
    DistinctSnoc(init, x);
    DistinctMembers(init);
    var d := Distinct(init);
    var dx := Distinct(init + [x]);
    forall i, j | 0 <= i < j < |dx|
      ensures IndexOf(init + [x], dx[i]) < IndexOf(init + [x], dx[j])
    {
      assert dx[i] == d[i];
      IndexOfPrefix(init, d[i], x);
      if j < |d| {
        assert dx[j] == d[j];
        IndexOfPrefix(init, d[j], x);
      } else {
        assert dx[j] == x && x !in d && x != "";
        IndexOfLast(init, x);
      }
    }
  }

  /** A text not among xs first occurs in xs + [x] at the end. */
  lemma IndexOfLast(xs: seq<string>, x: string)
    requires x !in xs
    ensures IndexOf(xs + [x], x) == |xs|
  {
    assert forall j :: 0 <= j < |xs| ==> (xs + [x])[j] == xs[j];
  }

  /** Appending one text adds it to the list exactly when it is non-blank and new. */
  lemma DistinctSnoc(xs: seq<string>, x: string)
    ensures Distinct(xs + [x]) == if x != "" && x !in Distinct(xs) then Distinct(xs) + [x] else Distinct(xs)
  {
    assert (xs + [x])[..|xs|] == xs;
  }

  /** The texts down to row r are those down to row r - 1 followed by row r's text. */
  lemma ColumnTextsStep(sh: Sheet, col: nat, first: nat, r: nat)
    requires first <= r <= sh.maxRow
    ensures ColumnTexts(sh, col, first)[..r + 1 - first] ==
      ColumnTexts(sh, col, first)[..r - first] + [CellLabel(Value(sh, r, col))]
  {
    var ts := ColumnTexts(sh, col, first);
    assert ts[r - first] == CellLabel(Value(sh, r, col));
  }

  /** Reading the text of one more row adds it to the list exactly when it is non-blank and new. */
  lemma DistinctStep(sh: Sheet, col: nat, first: nat, r: nat)
    requires first <= r <= sh.maxRow
    ensures Distinct(ColumnTexts(sh, col, first)[..r + 1 - first]) ==
      var d := Distinct(ColumnTexts(sh, col, first)[..r - first]);
      var x := CellLabel(Value(sh, r, col));
      if x != "" && x !in d then d + [x] else d
  {
    ColumnTextsStep(sh, col, first, r);
    DistinctSnoc(ColumnTexts(sh, col, first)[..r - first], CellLabel(Value(sh, r, col)));
  }

  /** `_unique_from_col(ws, col, first_row)`. */
  method UniqueFromCol(sh: Sheet, col: nat, first: nat) returns (out: seq<string>)
    ensures out == Distinct(ColumnTexts(sh, col, first))
  {
    out := [];
    var seen: set<string> := {};
    var maxRow := sh.maxRow;
    var r := first;
    while r <= maxRow
      invariant first <= r <= Max(first, maxRow + 1)
      invariant out == Distinct(ColumnTexts(sh, col, first)[..r - first])
      invariant forall x :: x in seen <==> x in out
      decreases maxRow as int + 1 - r
    {
      DistinctStep(sh, col, first, r);
      var s := CellLabel(Value(sh, r, col));
      if s != "" && s !in seen {
        seen := seen + {s};
        out := out + [s];
      }
      r := r + 1;
    }
    assert ColumnTexts(sh, col, first)[..r - first] == ColumnTexts(sh, col, first);
  }

  /** The three lists `load_lists` returns. */
  datatype Selection = Selection(employees: seq<string>, projects: seq<string>, absences: seq<string>)

  /** The specification of `load_lists`: the three columns of "Anpassung", or the error that it is missing. */
  function ListsOf(wb: map<string, Sheet>): (r: Result<Selection, string>)
    ensures r.Failure? <==> ListSheet !in wb
  {
    if ListSheet !in wb then Failure("Blatt 'Anpassung' nicht gefunden.")
    else
      var sh := wb[ListSheet];
      Success(Selection(
        Distinct(ColumnTexts(sh, EmployeeListCol, FirstListRow)),
        Distinct(ColumnTexts(sh, ProjectListCol, FirstListRow)),
        Distinct(ColumnTexts(sh, AbsenceListCol, FirstListRow))))
  }

  /** `load_lists()` on an opened workbook. */
  method LoadLists(wb: map<string, Sheet>) returns (r: Result<Selection, string>)
    ensures r == ListsOf(wb)
  {
    if ListSheet !in wb {
      return Failure("Blatt 'Anpassung' nicht gefunden.");
    }
    var sh := wb[ListSheet];
    var emps := UniqueFromCol(sh, EmployeeListCol, FirstListRow);
    var projs := UniqueFromCol(sh, ProjectListCol, FirstListRow);
    var abss := UniqueFromCol(sh, AbsenceListCol, FirstListRow);
    return Success(Selection(emps, projs, abss));
  }

  /** Each loaded list holds every non-blank entry of its column once and nothing else. */
  lemma LoadedListsAreColumns(wb: map<string, Sheet>)
    requires ListSheet in wb
    ensures var s := ListsOf(wb).value; var sh := wb[ListSheet];
      (forall x :: x in s.employees <==> x in ColumnTexts(sh, EmployeeListCol, FirstListRow) && x != "")
      && (forall x :: x in s.projects <==> x in ColumnTexts(sh, ProjectListCol, FirstListRow) && x != "")
      && (forall x :: x in s.absences <==> x in ColumnTexts(sh, AbsenceListCol, FirstListRow) && x != "")
  {
    var sh := wb[ListSheet];
    DistinctMembers(ColumnTexts(sh, EmployeeListCol, FirstListRow));
    DistinctMembers(ColumnTexts(sh, ProjectListCol, FirstListRow));
    DistinctMembers(ColumnTexts(sh, AbsenceListCol, FirstListRow));
  }
}
