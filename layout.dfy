/**
  The Layout Resolver of excel_io.py: the merge-aware header read, the left-to-right
  search for an employee's column block in header row 3, and the search for a
  project's sub-column in subheader row 4 inside that block.
 */
module Layout {
  import opened Strings
  import opened Optional
  import opened Sheets
  import opened Search

  type Pos = n: nat | 1 <= n witness 1

  /** The header scan gives up after this many consecutive empty labels. */
  const EmptyRunLimit: nat := 15

  /** `EmployeeBlock(start_col, width)`: the columns `start_col .. start_col + width - 1`. */
  datatype Block = Block(startCol: Pos, width: Pos) {

    /** `abs_col`: the block's last column, which holds the absence type. */
    function AbsCol(): (c: nat)
      ensures startCol <= c && c + 1 == startCol + width
    {
      startCol + width - 1
    }

    predicate InBlock(c: nat) {
      startCol <= c < startCol + width
    }

    /** A project sub-column: any block column before the absence column. */
    predicate IsProjectCol(c: nat) {
      startCol <= c < AbsCol()
    }
  }

  /** Every block column is either a project column or the absence column, never both. */
  lemma BlockColumns(b: Block, c: nat)
    ensures b.InBlock(c) <==> (b.IsProjectCol(c) || c == b.AbsCol())
    ensures !(b.IsProjectCol(c) && c == b.AbsCol())
    ensures b.width == 1 ==> !b.IsProjectCol(c)
  {
  }

  /** What `_header_cell_value_and_width` returns: the label, the width, the next column. */
  datatype HeaderRead = HeaderRead(caption: string, width: Pos, next: nat)

  predicate Contains(m: MergedRange, row: nat, col: nat) {
    m.minRow <= row <= m.maxRow && m.minCol <= col <= m.maxCol
  }

  /** The index of the first merged range that contains (row, col), or |ms| when none does. */
  function FirstMergeIndex(ms: seq<MergedRange>, row: nat, col: nat): (i: nat)
    ensures i <= |ms|
    ensures i < |ms| ==> Contains(ms[i], row, col)
    ensures forall j :: 0 <= j < i ==> !Contains(ms[j], row, col)
  {
    if ms == [] then 0
    else if Contains(ms[0], row, col) then 0
    else 1 + FirstMergeIndex(ms[1..], row, col)
  }

  /** In a sheet whose merged ranges do not overlap, the range found is the one containing the cell. */
  lemma DisjointMergesFound(ms: seq<MergedRange>, row: nat, col: nat, k: nat)
    requires k < |ms| && Contains(ms[k], row, col)
    requires forall i, j :: 0 <= i < j < |ms| ==> !(Contains(ms[i], row, col) && Contains(ms[j], row, col))
    ensures FirstMergeIndex(ms, row, col) == k
  {
  }

  /** The specification of `_header_cell_value_and_width`. */
  function HeaderAt(sh: Sheet, row: nat, col: nat): (h: HeaderRead)
    ensures h.next > col
  {
    var i := FirstMergeIndex(sh.merged, row, col);
    if i < |sh.merged| then
      var m := sh.merged[i];
      var w := m.maxCol - m.minCol + 1;
      HeaderRead(Strip(CellText(Value(sh, m.minRow, m.minCol))), w, m.minCol + w)
    else
      HeaderRead(Strip(CellText(Value(sh, row, col))), 1, col + 1)
  }

  /** `_header_cell_value_and_width(ws, row, col)`. */
  method HeaderCellValueAndWidth(sh: Sheet, row: nat, col: nat) returns (name: string, width: Pos, next: nat)
    ensures HeaderRead(name, width, next) == HeaderAt(sh, row, col)
    ensures next > col
    ensures var i := FirstMergeIndex(sh.merged, row, col);
      i < |sh.merged| ==>
        var m := sh.merged[i];
        name == Strip(CellText(Value(sh, m.minRow, m.minCol)))
        && width == m.maxCol - m.minCol + 1 && next == m.maxCol + 1
    ensures (forall k :: 0 <= k < |sh.merged| ==> !Contains(sh.merged[k], row, col)) ==>
      name == Strip(CellText(Value(sh, row, col))) && width == 1 && next == col + 1
  {
    var i := 0;
    while i < |sh.merged|
      invariant 0 <= i <= |sh.merged|
      invariant forall j :: 0 <= j < i ==> !Contains(sh.merged[j], row, col)
    {
      var m := sh.merged[i];
      if m.minRow <= row <= m.maxRow && m.minCol <= col <= m.maxCol {
        var w := m.maxCol - m.minCol + 1;
        return Strip(CellText(Value(sh, m.minRow, m.minCol))), w, m.minCol + w;
      }
      i := i + 1;
    }
    return Strip(CellText(Value(sh, row, col))), 1, col + 1;
  }

  /** What the header scan sees at one column: the normalised label, the width and the next column. */
  datatype ColumnView = ColumnView(key: string, width: Pos, next: Pos)

  /** The header row of a sheet as `_find_employee_block` sees it, column by column. */
  function ViewAt(sh: Sheet, c: Pos): (v: ColumnView)
    ensures v.next > c
  {
    var h := HeaderAt(sh, HeaderRow, c);
    ColumnView(NormalizeKey(h.caption), h.width, h.next)
  }

  /** Every column's next column lies to its right. */
  ghost predicate Advances(view: Pos -> ColumnView) {
    forall c: Pos :: view(c).next > c
  }

  function HeaderView(sh: Sheet): (view: Pos -> ColumnView)
    ensures Advances(view)
  {
    (c: Pos) => ViewAt(sh, c)
  }

  predicate LabelMatches(view: Pos -> ColumnView, key: string, c: Pos) {
    view(c).key != "" && view(c).key == key
  }

  /**
    The loop of `_find_employee_block` over a header row, from column c with
    `streak` consecutive empty labels already seen.
   */
  function ScanView(view: Pos -> ColumnView, maxCol: nat, key: string, c: Pos, streak: nat): Option<Block>
    requires Advances(view)
    decreases maxCol as int + 1 - c
  {
    if c > maxCol then None
    else
      var v := view(c);
      if v.key != "" then
        if v.key == key then Some(Block(c, v.width)) else ScanView(view, maxCol, key, v.next, 0)
      else if streak + 1 >= EmptyRunLimit then None
      else ScanView(view, maxCol, key, v.next, streak + 1)
  }

  /** The specification of `_find_employee_block`: the scan of header row 3 from column 6. */
  function BlockOf(sh: Sheet, emp: string): Option<Block> {
    ScanView(HeaderView(sh), sh.maxColumn, NormalizeKey(emp), FirstEmployeeCol, 0)
  }

  /** The columns the scan examines, in order, when no label matches. */
  function Visits(view: Pos -> ColumnView, maxCol: nat, c: Pos, streak: nat): seq<Pos>
    requires Advances(view)
    decreases maxCol as int + 1 - c
  {
    if c > maxCol then []
    else
      var v := view(c);
      if v.key != "" then [c] + Visits(view, maxCol, v.next, 0)
      else if streak + 1 >= EmptyRunLimit then [c]
      else [c] + Visits(view, maxCol, v.next, streak + 1)
  }

  /** The columns of `vs` lie in [lo, hi], and each is the next column of the one before. */
  ghost predicate Chained(view: Pos -> ColumnView, vs: seq<Pos>, lo: nat, hi: nat) {
    (forall i :: 0 <= i < |vs| ==> lo <= vs[i] <= hi)
    && (forall i :: 0 <= i < |vs| - 1 ==> vs[i + 1] == view(vs[i]).next)
  }

  /** The scan visits columns from c up to `max_column`, each one the next column of the one before. */
  lemma {:induction false} VisitsShape(view: Pos -> ColumnView, maxCol: nat, c: Pos, streak: nat)
    requires Advances(view)
    ensures Chained(view, Visits(view, maxCol, c, streak), c, maxCol)
    ensures c <= maxCol ==> Visits(view, maxCol, c, streak) != [] && Visits(view, maxCol, c, streak)[0] == c
    decreases maxCol as int + 1 - c
  {
    if c <= maxCol {
      var v := view(c);
      var s' := if v.key != "" then 0 else streak + 1;
      if v.key != "" || streak + 1 < EmptyRunLimit {
        var rest := Visits(view, maxCol, v.next, s');
        VisitsShape(view, maxCol, v.next, s');
        assert Visits(view, maxCol, c, streak) == [c] + rest;
        assert rest != [] ==> rest[0] == v.next;
      }
    }
  }

  ghost predicate NoMatchIn(view: Pos -> ColumnView, key: string, vs: seq<Pos>) {
    forall i :: 0 <= i < |vs| ==> !LabelMatches(view, key, vs[i])
  }

  /** Column c is the first column of `vs` whose label matches. */
  ghost predicate FirstMatchIn(view: Pos -> ColumnView, key: string, vs: seq<Pos>, c: Pos) {
    exists i :: 0 <= i < |vs| && vs[i] == c && LabelMatches(view, key, c) && NoMatchIn(view, key, vs[..i])
  }

  /** The block found is at the first visited column whose label matches; none is found iff none matches. */
  lemma {:induction false} ScanIsFirstMatch(view: Pos -> ColumnView, maxCol: nat, key: string, c: Pos, streak: nat)
    requires Advances(view)
    ensures ScanView(view, maxCol, key, c, streak).None? <==> NoMatchIn(view, key, Visits(view, maxCol, c, streak))
    ensures ScanView(view, maxCol, key, c, streak).Some? ==>
      var b := ScanView(view, maxCol, key, c, streak).value;
      b.width == view(b.startCol).width && FirstMatchIn(view, key, Visits(view, maxCol, c, streak), b.startCol)
    decreases maxCol as int + 1 - c
  {
    if c <= maxCol {
      var v := view(c);
      var vs := Visits(view, maxCol, c, streak);
      if v.key != "" && v.key == key {
        assert vs[0] == c && LabelMatches(view, key, vs[0]) && vs[..0] == [];
      } else if v.key == "" && streak + 1 >= EmptyRunLimit {
        assert vs == [c] && !LabelMatches(view, key, vs[0]);
      } else {
        var s' := if v.key != "" then 0 else streak + 1;
        var rest := Visits(view, maxCol, v.next, s');
        assert vs == [c] + rest;
        ScanIsFirstMatch(view, maxCol, key, v.next, s');
        assert !LabelMatches(view, key, vs[0]);
        var r := ScanView(view, maxCol, key, c, streak);
        assert r == ScanView(view, maxCol, key, v.next, s');
        if r.Some? {
          var i :| 0 <= i < |rest| && rest[i] == r.value.startCol && LabelMatches(view, key, rest[i])
            && NoMatchIn(view, key, rest[..i]);
          assert vs[i + 1] == rest[i];
          assert vs[..i + 1] == [c] + rest[..i];
        } else {
          forall i | 0 <= i < |vs| ensures !LabelMatches(view, key, vs[i]) {
            if i > 0 { assert vs[i] == rest[i - 1]; }
          }
        }
      }
    }
  }

  /** The labels at positions lo .. hi - 1 of `vs` are all empty. */
  ghost predicate AllEmpty(view: Pos -> ColumnView, vs: seq<Pos>, lo: nat, hi: nat) {
    lo <= hi <= |vs| && forall j :: lo <= j < hi ==> view(vs[j]).key == ""
  }

  /** The fifteen visited columns from index i on all have empty labels. */
  ghost predicate EmptyRunAt(view: Pos -> ColumnView, vs: seq<Pos>, i: nat) {
    AllEmpty(view, vs, i, i + EmptyRunLimit)
  }

  /** Every run of fifteen empty labels in `vs` is at its very end. */
  ghost predicate RunsOnlyAtEnd(view: Pos -> ColumnView, vs: seq<Pos>) {
    forall i: nat :: EmptyRunAt(view, vs, i) ==> i + EmptyRunLimit == |vs|
  }

  /**
    Fifteen consecutive empty labels end the scan: nothing is visited after the
    fifteenth; from a streak s, the first 15 - s empty labels end it.
   */
  lemma {:induction false} EmptyRunEndsScan(view: Pos -> ColumnView, maxCol: nat, c: Pos, streak: nat)
    requires Advances(view) && streak < EmptyRunLimit
    ensures RunsOnlyAtEnd(view, Visits(view, maxCol, c, streak))
    ensures AllEmpty(view, Visits(view, maxCol, c, streak), 0, EmptyRunLimit - streak) ==>
      |Visits(view, maxCol, c, streak)| == EmptyRunLimit - streak
    decreases maxCol as int + 1 - c
  {
    var vs := Visits(view, maxCol, c, streak);
    if c <= maxCol {
      var v := view(c);
      var empty := v.key == "";
      if !empty || streak + 1 < EmptyRunLimit {
        var s' := if empty then streak + 1 else 0;
        var rest := Visits(view, maxCol, v.next, s');
        assert vs == [c] + rest;
        EmptyRunEndsScan(view, maxCol, v.next, s');
        forall i: nat | EmptyRunAt(view, vs, i)
          ensures i + EmptyRunLimit == |vs|
        {
          if i > 0 {
            assert forall j :: i - 1 <= j < i - 1 + EmptyRunLimit ==> rest[j] == vs[j + 1];
            assert EmptyRunAt(view, rest, i - 1);
          } else {
            assert view(vs[0]).key == "";
            assert forall j :: 0 <= j < EmptyRunLimit - s' ==> rest[j] == vs[j + 1];
            assert AllEmpty(view, rest, 0, EmptyRunLimit - s');
          }
        }
        if AllEmpty(view, vs, 0, EmptyRunLimit - streak) {
          assert view(vs[0]).key == "";
          assert forall j :: 0 <= j < EmptyRunLimit - s' ==> rest[j] == vs[j + 1];
          assert AllEmpty(view, rest, 0, EmptyRunLimit - s');
        }
      }
    }
  }

  /**
    The scan stops before `max_column` only because of empty labels: the last fifteen
    columns it visited (or, from a streak s, all of them, 15 - s in number) were empty.
   */
  lemma {:induction false} EarlyStopMeansEmptyRun(view: Pos -> ColumnView, maxCol: nat, c: Pos, streak: nat)
    requires Advances(view) && streak < EmptyRunLimit
    ensures Visits(view, maxCol, c, streak) != [] && view(Last(Visits(view, maxCol, c, streak))).next <= maxCol ==>
      var vs := Visits(view, maxCol, c, streak);
      (EmptyRunLimit <= |vs| && AllEmpty(view, vs, |vs| - EmptyRunLimit, |vs|))
      || (|vs| == EmptyRunLimit - streak && AllEmpty(view, vs, 0, |vs|))
    decreases maxCol as int + 1 - c
  {
    var vs := Visits(view, maxCol, c, streak);
    if c <= maxCol {
      var v := view(c);
      var empty := v.key == "";
      if !empty || streak + 1 < EmptyRunLimit {
        var s' := if empty then streak + 1 else 0;
        var rest := Visits(view, maxCol, v.next, s');
        assert vs == [c] + rest;
        EarlyStopMeansEmptyRun(view, maxCol, v.next, s');
        if rest != [] {
          assert Last(vs) == Last(rest);
          if EmptyRunLimit <= |rest| && AllEmpty(view, rest, |rest| - EmptyRunLimit, |rest|) {
            AllEmptyCons(view, c, rest, |rest| - EmptyRunLimit, |rest|);
          } else if |rest| == EmptyRunLimit - s' && AllEmpty(view, rest, 0, |rest|) {
            AllEmptyCons(view, c, rest, 0, |rest|);
          }
        } else {
          VisitsShape(view, maxCol, v.next, s');
        }
      }
    }
  }

  /** Putting a column in front shifts an empty stretch by one, and extends one at the front when its label is empty. */
  lemma AllEmptyCons(view: Pos -> ColumnView, c: Pos, rest: seq<Pos>, lo: nat, hi: nat)
    requires AllEmpty(view, rest, lo, hi)
    ensures AllEmpty(view, [c] + rest, lo + 1, hi + 1)
    ensures lo == 0 && view(c).key == "" ==> AllEmpty(view, [c] + rest, 0, hi + 1)
  {
    assert forall j :: 0 <= j < |rest| ==> ([c] + rest)[j + 1] == rest[j];
  }

  function Last(vs: seq<Pos>): Pos
    requires vs != []
  {
    vs[|vs| - 1]
  }

  /** A block found by the scan starts at or after c, within `max_column`, at a matching label, with that column's width. */
  lemma {:induction false} ScanViewBounds(view: Pos -> ColumnView, maxCol: nat, key: string, c: Pos, streak: nat)
    requires Advances(view)
    ensures ScanView(view, maxCol, key, c, streak).Some? ==>
      c <= ScanView(view, maxCol, key, c, streak).value.startCol <= maxCol
      && LabelMatches(view, key, ScanView(view, maxCol, key, c, streak).value.startCol)
      && ScanView(view, maxCol, key, c, streak).value.width == view(ScanView(view, maxCol, key, c, streak).value.startCol).width
    decreases maxCol as int + 1 - c
  {
    if c <= maxCol {
      var v := view(c);
      if v.key != "" && v.key != key {
        ScanViewBounds(view, maxCol, key, v.next, 0);
      } else if v.key == "" && streak + 1 < EmptyRunLimit {
        ScanViewBounds(view, maxCol, key, v.next, streak + 1);
      }
    }
  }

  /** Two views that agree on every column give the same scan. */
  lemma {:induction false} ScanViewCongruent(v1: Pos -> ColumnView, v2: Pos -> ColumnView, maxCol: nat, key: string, c: Pos, streak: nat)
    requires Advances(v1) && Advances(v2)
    requires forall k: Pos :: v1(k) == v2(k)
    ensures ScanView(v1, maxCol, key, c, streak) == ScanView(v2, maxCol, key, c, streak)
    decreases maxCol as int + 1 - c
  {
    if c <= maxCol {
      var v := v1(c);
      assert v2(c) == v;
      if v.key != "" && v.key != key {
        ScanViewCongruent(v1, v2, maxCol, key, v.next, 0);
      } else if v.key == "" && streak + 1 < EmptyRunLimit {
        ScanViewCongruent(v1, v2, maxCol, key, v.next, streak + 1);
      }
    }
  }

  /** A block found within `max_column` is found again when `max_column` grows. */
  lemma {:induction false} ScanViewWider(view: Pos -> ColumnView, maxCol: nat, maxCol': nat, key: string, c: Pos, streak: nat)
    requires Advances(view) && maxCol <= maxCol'
    requires ScanView(view, maxCol, key, c, streak).Some?
    ensures ScanView(view, maxCol', key, c, streak) == ScanView(view, maxCol, key, c, streak)
    decreases maxCol as int + 1 - c
  {
    var v := view(c);
    if v.key != "" && v.key != key {
      ScanViewWider(view, maxCol, maxCol', key, v.next, 0);
    } else if v.key == "" && streak + 1 < EmptyRunLimit {
      ScanViewWider(view, maxCol, maxCol', key, v.next, streak + 1);
    }
  }

  /** The block found for an employee lies right of column E, within `max_column`, under a label equal to the name. */
  lemma BlockOfBounds(sh: Sheet, emp: string)
    ensures BlockOf(sh, emp).Some? ==>
      FirstEmployeeCol <= BlockOf(sh, emp).value.startCol <= sh.maxColumn
      && NormalizeKey(emp) != ""
      && ViewAt(sh, BlockOf(sh, emp).value.startCol).key == NormalizeKey(emp)
      && BlockOf(sh, emp).value.width == HeaderAt(sh, HeaderRow, BlockOf(sh, emp).value.startCol).width
  {
    ScanViewBounds(HeaderView(sh), sh.maxColumn, NormalizeKey(emp), FirstEmployeeCol, 0);
  }

  /** The sheets agree on the merged ranges and on every cell above the first date row. */
  ghost predicate SameHeader(sh: Sheet, sh': Sheet) {
    sh'.merged == sh.merged
    && forall r: nat, c: nat :: r < DateFirstRow ==> Value(sh', r, c) == Value(sh, r, c)
  }

  /** The header read of rows 3 and 4 depends only on the merged ranges and on cells above row 5. */
  lemma HeaderStable(sh: Sheet, sh': Sheet, row: nat, col: nat)
    requires SameHeader(sh, sh') && row < DateFirstRow
    ensures HeaderAt(sh', row, col) == HeaderAt(sh, row, col)
  {
    var i := FirstMergeIndex(sh.merged, row, col);
    if i < |sh.merged| {
      var m := sh.merged[i];
      assert Value(sh', m.minRow, m.minCol) == Value(sh, m.minRow, m.minCol);
    } else {
      assert Value(sh', row, col) == Value(sh, row, col);
    }
  }

  /** Writing below the header keeps an employee's block, even when `max_column` grows. */
  lemma BlockOfStable(sh: Sheet, sh': Sheet, emp: string)
    requires SameHeader(sh, sh') && sh.maxColumn <= sh'.maxColumn
    requires BlockOf(sh, emp).Some?
    ensures BlockOf(sh', emp) == BlockOf(sh, emp)
  {
    forall k: Pos
      ensures HeaderView(sh')(k) == HeaderView(sh)(k)
    {
      HeaderStable(sh, sh', HeaderRow, k);
    }
    ScanViewCongruent(HeaderView(sh'), HeaderView(sh), sh'.maxColumn, NormalizeKey(emp), FirstEmployeeCol, 0);
    ScanViewWider(HeaderView(sh), sh.maxColumn, sh'.maxColumn, NormalizeKey(emp), FirstEmployeeCol, 0);
  }

  /** `_find_employee_block(ws, emp)`. */
  method FindEmployeeBlock(sh: Sheet, emp: string) returns (b: Option<Block>)
    ensures b == BlockOf(sh, emp)
  {
    var empKey := NormalizeKey(emp);
    ghost var view := HeaderView(sh);
    var c: Pos := FirstEmployeeCol;
    var emptyStreak := 0;
    var maxC := sh.maxColumn;
    while c <= maxC
      invariant FirstEmployeeCol <= c
      invariant emptyStreak < EmptyRunLimit
      invariant ScanView(view, maxC, empKey, c, emptyStreak) == BlockOf(sh, emp)
      decreases maxC as int + 1 - c
    {
      ghost var c0, streak0 := c, emptyStreak;
      var name, width, nextC := HeaderCellValueAndWidth(sh, HeaderRow, c);
      var nameKey := NormalizeKey(name);
      assert view(c) == ColumnView(nameKey, width, nextC);
      if nameKey != "" {
        emptyStreak := 0;
        if nameKey == empKey {
          return Some(Block(c, width));
        }
      } else {
        emptyStreak := emptyStreak + 1;
      }
      c := nextC;
      if emptyStreak >= EmptyRunLimit {
        assert ScanView(view, maxC, empKey, c0, streak0) == None;
        break;
      }
    }
    return None;
  }

  /** A subheader cell matches when its normalised text equals the normalised project name. */
  predicate SubheaderMatches(sh: Sheet, key: string, c: nat) {
    NormalizeKey(CellText(Value(sh, SubheaderRow, c))) == key
  }

  /** The specification of `_find_project_col`: the first column of the block, before its absence column, whose subheader matches. */
  function ProjectColOf(sh: Sheet, b: Block, key: string): nat {
    FirstFrom((k: nat) => SubheaderMatches(sh, key, k), b.startCol, b.AbsCol())
  }

  /** The project column found is the first project column whose subheader matches; 0 iff none does. */
  lemma ProjectColIsFirstMatch(sh: Sheet, b: Block, key: string)
    ensures ProjectColOf(sh, b, key) != 0 ==>
      b.IsProjectCol(ProjectColOf(sh, b, key)) && SubheaderMatches(sh, key, ProjectColOf(sh, b, key))
      && forall k :: b.startCol <= k < ProjectColOf(sh, b, key) ==> !SubheaderMatches(sh, key, k)
    ensures ProjectColOf(sh, b, key) == 0 <==> forall k :: b.IsProjectCol(k) ==> !SubheaderMatches(sh, key, k)
  {
    var p := (k: nat) => SubheaderMatches(sh, key, k);
    FirstFromIsFirst(p, b.startCol, b.AbsCol());
    var r := ProjectColOf(sh, b, key);
    assert r == FirstFrom(p, b.startCol, b.AbsCol());
    forall k | b.startCol <= k < r
      ensures !SubheaderMatches(sh, key, k)
    {
      assert !p(k);
    }
    if forall k :: b.IsProjectCol(k) ==> !SubheaderMatches(sh, key, k) {
      forall k | b.startCol <= k < b.AbsCol()
        ensures !p(k)
      {
        assert b.IsProjectCol(k);
      }
    } else {
      var k :| b.IsProjectCol(k) && SubheaderMatches(sh, key, k);
      assert p(k);
    }
  }

  /** `_find_project_col(ws, block, proj)`. */
  method FindProjectCol(sh: Sheet, b: Block, proj: string) returns (col: nat)
    ensures col == ProjectColOf(sh, b, NormalizeKey(proj))
  {
    var projKey := NormalizeKey(proj);
    ghost var p := (k: nat) => SubheaderMatches(sh, projKey, k);
    col := 0;
    for c := b.startCol to b.startCol + b.width - 1
      invariant FirstFrom(p, b.startCol, b.AbsCol()) == FirstFrom(p, c, b.AbsCol())
    {
      var v := Value(sh, SubheaderRow, c);
      if NormalizeKey(CellText(v)) == projKey {
        assert p(c);
        return c;
      }
      assert !p(c);
    }
  }

  /** The project column depends only on the subheader row: sheets that agree on row 4 find the same one. */
  lemma ProjectColStable(sh: Sheet, sh': Sheet, b: Block, key: string)
    requires forall c: nat :: Value(sh', SubheaderRow, c) == Value(sh, SubheaderRow, c)
    ensures ProjectColOf(sh', b, key) == ProjectColOf(sh, b, key)
  {
    var p' := (k: nat) => SubheaderMatches(sh', key, k);
    var p := (k: nat) => SubheaderMatches(sh, key, k);
    forall k | b.startCol <= k < b.AbsCol()
      ensures p'(k) == p(k)
    {
    }
    FirstFromCongruent(p', p, b.startCol, b.AbsCol());
  }

  /** A block of width 1 has no project column, so every project lookup in it fails. */
  lemma NarrowBlockHasNoProject(sh: Sheet, b: Block, key: string)
    requires b.width == 1
    ensures ProjectColOf(sh, b, key) == 0
  {
  }
}
