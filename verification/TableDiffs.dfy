/** Comparing two tables: columns matched by header or by position, rows by the
    first shared column or by their contents. */
module TableDiffs {
  import opened Basics
  import opened TableAlign
  import opened TableRows

  // ---- tables ----

  /** The first row is the header. */
  function HeaderOf(table: seq<Row>): Row {
    if table == [] then [] else table[0]
  }

  function BodyOf(table: seq<Row>): seq<Row> {
    if table == [] then [] else table[1..]
  }

  /** The width of the widest row. */
  function Width(head: Row, rows: seq<Row>): (w: nat)
    ensures |head| <= w && forall r :: r in rows ==> |r| <= w
  {
    if rows == [] then |head| else Max(Width(head, rows[..|rows| - 1]), |rows[|rows| - 1]|)
  }

  method Widest(head: Row, rows: seq<Row>) returns (w: nat)
    ensures w == Width(head, rows)
  {
    w := |head|;
    var i := 0;
    while i < |rows|
      invariant 0 <= i <= |rows| && w == Width(head, rows[..i])
    {
      assert rows[..i + 1][..i] == rows[..i];
      w := Max(w, |rows[i]|);
      i := i + 1;
    }
    assert rows[..i] == rows;
  }

  // ---- columns ----

  function PairsOf(cols: seq<Column>): (ps: seq<Pair>)
    ensures |ps| == |cols| && forall i :: 0 <= i < |cols| ==> ps[i] == Pair(cols[i].before, cols[i].after, false)
  {
    if cols == [] then []
    else PairsOf(cols[..|cols| - 1]) + [Pair(cols[|cols| - 1].before, cols[|cols| - 1].after, false)]
  }

  lemma {:induction false} SamePositions(ps: seq<Pair>, qs: seq<Pair>, i: int)
    requires |ps| == |qs| && forall k :: 0 <= k < |ps| ==> ps[k].before == qs[k].before && ps[k].after == qs[k].after
    ensures CountBefore(ps, i) == CountBefore(qs, i) && CountAfter(ps, i) == CountAfter(qs, i)
  {
    if ps != [] {
      SamePositions(ps[..|ps| - 1], qs[..|qs| - 1], i);
    }
  }

  lemma CoversAlike(ps: seq<Pair>, qs: seq<Pair>, n: nat, m: nat)
    requires |ps| == |qs| && forall k :: 0 <= k < |ps| ==> ps[k].before == qs[k].before && ps[k].after == qs[k].after
    requires Covers(ps, n, m)
    ensures Covers(qs, n, m)
  {
    hide CountBefore, CountAfter;
    forall i ensures CountBefore(ps, i) == CountBefore(qs, i) && CountAfter(ps, i) == CountAfter(qs, i) {
      SamePositions(ps, qs, i);
    }
    forall q | q in qs ensures -1 <= q.before < n && -1 <= q.after < m && (q.before >= 0 || q.after >= 0) {
      var k :| 0 <= k < |qs| && qs[k] == q;
      assert ps[k] in ps;
    }
  }

  /** A column is called by its new header, or by its old one where it has no other. */
  predicate Named(oh: Row, nh: Row, c: Column) {
    && c.oldName == Cell(oh, c.before)
    && c.name == if Cell(nh, c.after) != "" then Cell(nh, c.after) else c.oldName
  }

  /** Both headers name every column, and there is a name to match by or nothing
      to match. */
  ghost predicate ByHeader(oh: Row, nh: Row, ow: nat, nw: nat) {
    && UsableKeys(oh) && UsableKeys(nh) && ow == |oh| && nw == |nh|
    && (oh == [] || nh == [] || exists i, j :: 0 <= i < |oh| && 0 <= j < |nh| && oh[i] == nh[j])
  }

  /** Columns are matched by equal headers, or else by position. */
  ghost predicate ColumnMatched(oh: Row, nh: Row, byHeader: bool, c: Column) {
    c.before >= 0 && c.after >= 0 ==> if byHeader then Cell(oh, c.before) == Cell(nh, c.after) else c.before == c.after
  }

  /** Every two columns that are to be matched are shown as one. */
  ghost predicate ColumnsPaired(oh: Row, nh: Row, ow: nat, nw: nat, byHeader: bool, cols: seq<Column>) {
    forall i, j :: 0 <= i < ow && 0 <= j < nw && (if byHeader then Cell(oh, i) == Cell(nh, j) else i == j) ==>
      HasColumn(cols, i, j)
  }

  ghost predicate HasColumn(cols: seq<Column>, i: int, j: int) {
    exists c :: c in cols && c.before == i && c.after == j
  }

  /** Every old and every new column appears once, named, and two are shown as one
      exactly when they match. */
  ghost predicate Columns(oh: Row, nh: Row, ow: nat, nw: nat, cols: seq<Column>) {
    && Covers(PairsOf(cols), ow, nw) && ColumnsPaired(oh, nh, ow, nw, ByHeader(oh, nh, ow, nw), cols)
    && (forall c :: c in cols ==> Named(oh, nh, c) && ColumnMatched(oh, nh, ByHeader(oh, nh, ow, nw), c))
  }

  function NamedColumn(oh: Row, nh: Row, before: int, after: int): Column {
    Column(if Cell(nh, after) != "" then Cell(nh, after) else Cell(oh, before), Cell(oh, before), before, after)
  }

  /** The columns of an alignment of the headers. */
  method NameColumns(oh: Row, nh: Row, pairs: seq<Pair>) returns (cols: seq<Column>, matched: bool)
    ensures |cols| == |pairs| && forall k :: 0 <= k < |pairs| ==>
      cols[k] == NamedColumn(oh, nh, pairs[k].before, pairs[k].after)
    ensures matched <==> exists k :: 0 <= k < |pairs| && pairs[k].before >= 0 && pairs[k].after >= 0
  {
    hide Cell;
    cols, matched := [], false;
    var k := 0;
    while k < |pairs|
      invariant 0 <= k <= |pairs| && |cols| == k
      invariant forall x :: 0 <= x < k ==> cols[x] == NamedColumn(oh, nh, pairs[x].before, pairs[x].after)
      invariant matched <==> exists x :: 0 <= x < k && pairs[x].before >= 0 && pairs[x].after >= 0
    {
      var p := pairs[k];
      matched := matched || (p.before >= 0 && p.after >= 0);
      cols := cols + [NamedColumn(oh, nh, p.before, p.after)];
      k := k + 1;
    }
  }

  /** Column by column. */
  method ByPosition(oh: Row, nh: Row, ow: nat, nw: nat) returns (cols: seq<Column>)
    ensures Covers(PairsOf(cols), ow, nw)
    ensures forall c :: c in cols ==> Named(oh, nh, c) && (c.before >= 0 && c.after >= 0 ==> c.before == c.after)
    ensures forall x :: 0 <= x < Min(ow, nw) ==> HasColumn(cols, x, x)
  {
    hide Cell, Named, NamedColumn, PositionsSoFar, PairsOf, Covers, HasColumn;
    cols := [];
    var i := 0;
    NoneCounted(ow, nw);
    while i < Max(ow, nw)
      invariant 0 <= i <= Max(ow, nw)
      invariant forall c :: c in cols ==> Named(oh, nh, c) && (c.before >= 0 && c.after >= 0 ==> c.before == c.after)
      invariant PositionsSoFar(PairsOf(cols), ow, nw, i)
      invariant forall x :: 0 <= x < Min(i, Min(ow, nw)) ==> HasColumn(cols, x, x)
    {
      var before, after := if i < ow then i else -1, if i < nw then i else -1;
      var c := NamedColumn(oh, nh, before, after);
      NamedIsNamed(oh, nh, before, after);
      NamedPositions(oh, nh, before, after);
      PositionNext(PairsOf(cols), ow, nw, i);
      PairsMore(cols, c);
      HasMore(cols, c);
      cols := cols + [c];
      i := i + 1;
    }
    PositionsCover(PairsOf(cols), ow, nw);
  }

  lemma HasMore(cols: seq<Column>, c: Column)
    ensures HasColumn(cols + [c], c.before, c.after)
    ensures forall i, j :: HasColumn(cols, i, j) ==> HasColumn(cols + [c], i, j)
  {
    assert c in cols + [c];
    forall i, j | HasColumn(cols, i, j) ensures HasColumn(cols + [c], i, j) {
      var d :| d in cols && d.before == i && d.after == j;
      assert d in cols + [c];
    }
  }

  lemma PairsMore(cols: seq<Column>, c: Column)
    ensures PairsOf(cols + [c]) == PairsOf(cols) + [Pair(c.before, c.after, false)]
  {
    assert (cols + [c])[..|cols|] == cols;
  }

  lemma PositionsCover(ps: seq<Pair>, ow: nat, nw: nat)
    requires PositionsSoFar(ps, ow, nw, Max(ow, nw))
    ensures Covers(ps, ow, nw)
  {
    hide CountBefore, CountAfter;
  }

  /** The first i positions of each side are there, once. */
  ghost predicate PositionsSoFar(ps: seq<Pair>, ow: nat, nw: nat, i: nat) {
    && (forall p :: p in ps ==> -1 <= p.before < ow && -1 <= p.after < nw && (p.before >= 0 || p.after >= 0))
    && (forall x :: 0 <= x < ow ==> CountBefore(ps, x) == if x < i then 1 else 0)
    && (forall y :: 0 <= y < nw ==> CountAfter(ps, y) == if y < i then 1 else 0)
  }

  lemma PositionNext(ps: seq<Pair>, ow: nat, nw: nat, i: nat)
    requires i < Max(ow, nw) && PositionsSoFar(ps, ow, nw, i)
    ensures PositionsSoFar(ps + [Pair(if i < ow then i else -1, if i < nw then i else -1, false)], ow, nw, i + 1)
  {
    hide CountBefore, CountAfter;
    var p := Pair(if i < ow then i else -1, if i < nw then i else -1, false);
    forall x ensures CountBefore(ps + [p], x) == CountBefore(ps, x) + (if p.before == x then 1 else 0)
      && CountAfter(ps + [p], x) == CountAfter(ps, x) + (if p.after == x then 1 else 0)
    {
      CountOne(ps, p, x);
    }
  }

  lemma NoneCounted(ow: nat, nw: nat)
    ensures PositionsSoFar(PairsOf([]), ow, nw, 0)
  {
  }

  lemma NamedIsNamed(oh: Row, nh: Row, before: int, after: int)
    ensures Named(oh, nh, NamedColumn(oh, nh, before, after))
  {
  }

  /** The columns by header: what the alignment of the headers says. */
  lemma {:induction false} HeaderColumns(oh: Row, nh: Row, pairs: seq<Pair>, cols: seq<Column>)
    requires Covers(pairs, |oh|, |nh|) && |cols| == |pairs|
    requires forall p :: p in pairs && p.after >= 0 && p.before >= 0 ==>
      p.before < |oh| && p.after < |nh| && oh[p.before] == nh[p.after]
    requires forall k :: 0 <= k < |pairs| ==> cols[k] == NamedColumn(oh, nh, pairs[k].before, pairs[k].after)
    ensures Covers(PairsOf(cols), |oh|, |nh|)
    ensures forall c :: c in cols ==> Named(oh, nh, c) && ColumnMatched(oh, nh, true, c)
  {
    hide Covers, Named, NamedColumn;
    forall k | 0 <= k < |cols| ensures Named(oh, nh, cols[k]) && ColumnMatched(oh, nh, true, cols[k])
      ensures cols[k].before == pairs[k].before && cols[k].after == pairs[k].after
    {
      NamedIsNamed(oh, nh, pairs[k].before, pairs[k].after);
      NamedPositions(oh, nh, pairs[k].before, pairs[k].after);
      assert pairs[k] in pairs;
    }
    CoversAlike(pairs, PairsOf(cols), |oh|, |nh|);
  }

  lemma NamedPositions(oh: Row, nh: Row, before: int, after: int)
    ensures NamedColumn(oh, nh, before, after).before == before && NamedColumn(oh, nh, before, after).after == after
  {
  }

  /** A matched pair of headers is a common header, and a common header is matched. */
  lemma CommonHeader(oh: Row, nh: Row, pairs: seq<Pair>)
    requires Covers(pairs, |oh|, |nh|)
    requires forall p :: p in pairs && p.after >= 0 ==>
      p.after < |nh| && p.before < |oh| && if p.before >= 0 then oh[p.before] == nh[p.after] else nh[p.after] !in oh
    ensures (exists k :: 0 <= k < |pairs| && pairs[k].before >= 0 && pairs[k].after >= 0)
       <==> (exists i, j :: 0 <= i < |oh| && 0 <= j < |nh| && oh[i] == nh[j])
  {
    hide CountBefore;
    if k :| 0 <= k < |pairs| && pairs[k].before >= 0 && pairs[k].after >= 0 {
      assert pairs[k] in pairs;
    }
    if i, j :| 0 <= i < |oh| && 0 <= j < |nh| && oh[i] == nh[j] {
      assert CountAfter(pairs, j) == 1;
      var k := PositionOf(pairs, j);
      assert pairs[k] in pairs && nh[j] in oh;
    }
  }

  /** The columns of two usable headers, and whether any name is in both. */
  method AlignHeaders(oh: Row, nh: Row) returns (cols: seq<Column>, matched: bool)
    requires UsableKeys(oh) && UsableKeys(nh)
    ensures Covers(PairsOf(cols), |oh|, |nh|)
    ensures forall c :: c in cols ==> Named(oh, nh, c) && ColumnMatched(oh, nh, true, c)
    ensures matched <==> exists i, j :: 0 <= i < |oh| && 0 <= j < |nh| && oh[i] == nh[j]
    ensures ColumnsPaired(oh, nh, |oh|, |nh|, true, cols)
  {
    hide Covers, Unique, UsableKeys, CommonSubsequence, Kept, NewInOrder, Named, NamedColumn, ColumnMatched, PairsOf;
    hide Aligns, ColumnsPaired;
    KeysUnique(oh);
    KeysUnique(nh);
    var pairs := AlignUnique(oh, nh);
    cols, matched := NameColumns(oh, nh, pairs);
    HeaderPairs(oh, nh, pairs);
    CommonHeader(oh, nh, pairs);
    HeaderColumns(oh, nh, pairs, cols);
    HeadersPaired(oh, nh, pairs, cols);
  }

  /** Equal headers are shown as one. */
  lemma HeadersPaired(oh: Row, nh: Row, pairs: seq<Pair>, cols: seq<Column>)
    requires Aligns(oh, nh, pairs) && Unique(oh) && |cols| == |pairs|
    requires forall k :: 0 <= k < |pairs| ==> cols[k] == NamedColumn(oh, nh, pairs[k].before, pairs[k].after)
    ensures ColumnsPaired(oh, nh, |oh|, |nh|, true, cols)
  {
    hide Aligns, NamedColumn, Unique;
    forall i, j | 0 <= i < |oh| && 0 <= j < |nh| && Cell(oh, i) == Cell(nh, j) ensures HasColumn(cols, i, j) {
      AlignedIffEqual(oh, nh, pairs, i, j);
      var p :| p in pairs && p.before == i && p.after == j;
      var k :| 0 <= k < |pairs| && pairs[k] == p;
      NamedPositions(oh, nh, p.before, p.after);
      assert cols[k] in cols;
    }
  }

  method AlignColumns(oh: Row, nh: Row, oldRows: seq<Row>, newRows: seq<Row>) returns (cols: seq<Column>)
    ensures Columns(oh, nh, Width(oh, oldRows), Width(nh, newRows), cols)
  {
    hide Covers, Unique, UsableKeys, Named, ColumnMatched, PairsOf, Width, ByHeader, Columns, ColumnsPaired, HasColumn;
    var ow := Widest(oh, oldRows);
    var nw := Widest(nh, newRows);
    var usable := UniqueNonEmpty(oh);
    if usable {
      usable := UniqueNonEmpty(nh);
    }
    if usable && ow == |oh| && nw == |nh| {
      var matched;
      cols, matched := AlignHeaders(oh, nh);
      IsByHeader(oh, nh, matched);
      if matched || |oh| == 0 || |nh| == 0 {
        HeaderMatched(oh, nh, cols);
        return;
      }
    }
    NotByHeader(oh, nh, ow, nw, usable);
    cols := ByPosition(oh, nh, ow, nw);
    PositionMatched(oh, nh, ow, nw, cols);
  }

  lemma IsByHeader(oh: Row, nh: Row, matched: bool)
    requires UsableKeys(oh) && UsableKeys(nh)
    requires matched <==> exists i, j :: 0 <= i < |oh| && 0 <= j < |nh| && oh[i] == nh[j]
    ensures ByHeader(oh, nh, |oh|, |nh|) <==> matched || |oh| == 0 || |nh| == 0
  {
  }

  lemma NotByHeader(oh: Row, nh: Row, ow: nat, nw: nat, usable: bool)
    requires usable <==> UsableKeys(oh) && UsableKeys(nh)
    requires usable && ow == |oh| && nw == |nh| ==> !ByHeader(oh, nh, ow, nw)
    ensures !ByHeader(oh, nh, ow, nw)
  {
  }

  lemma HeaderMatched(oh: Row, nh: Row, cols: seq<Column>)
    requires ByHeader(oh, nh, |oh|, |nh|) && Covers(PairsOf(cols), |oh|, |nh|)
    requires forall c :: c in cols ==> Named(oh, nh, c) && ColumnMatched(oh, nh, true, c)
    requires ColumnsPaired(oh, nh, |oh|, |nh|, true, cols)
    ensures Columns(oh, nh, |oh|, |nh|, cols)
  {
    hide ColumnsPaired, Covers, Named, ColumnMatched, PairsOf, ByHeader;
  }

  lemma PositionMatched(oh: Row, nh: Row, ow: nat, nw: nat, cols: seq<Column>)
    requires !ByHeader(oh, nh, ow, nw) && Covers(PairsOf(cols), ow, nw)
    requires forall c :: c in cols ==> Named(oh, nh, c) && (c.before >= 0 && c.after >= 0 ==> c.before == c.after)
    requires forall x :: 0 <= x < Min(ow, nw) ==> HasColumn(cols, x, x)
    ensures Columns(oh, nh, ow, nw, cols)
  {
    hide Covers, Named, PairsOf, ByHeader, HasColumn;
  }

  lemma HeaderPairs(oh: Row, nh: Row, pairs: seq<Pair>)
    requires Covers(pairs, |oh|, |nh|)
    ensures forall p :: p in pairs ==> p.before < |oh| && p.after < |nh|
  {
  }

  // ---- shared columns and keys ----

  predicate Shared(c: Column) {
    c.before >= 0 && c.after >= 0
  }

  /** The columns that both tables have. */
  function Common(cols: seq<Column>): seq<Column> {
    if cols == [] then []
    else if Shared(cols[|cols| - 1]) then Common(cols[..|cols| - 1]) + [cols[|cols| - 1]]
    else Common(cols[..|cols| - 1])
  }

  function CountRemoved(cols: seq<Column>): nat {
    if cols == [] then 0
    else CountRemoved(cols[..|cols| - 1]) + if !Shared(cols[|cols| - 1]) && cols[|cols| - 1].before >= 0 then 1 else 0
  }

  function CountAdded(cols: seq<Column>): nat {
    if cols == [] then 0
    else CountAdded(cols[..|cols| - 1]) + if cols[|cols| - 1].before < 0 then 1 else 0
  }

  /** The position of the first shared column, or -1. */
  predicate IsFirstShared(cols: seq<Column>, k: int) {
    if k == -1 then Common(cols) == []
    else 0 <= k < |cols| && Common(cols) != [] && cols[k] == Common(cols)[0]
  }

  method SortColumns(cols: seq<Column>) returns (common: seq<Column>, first: int, removed: nat, added: nat)
    requires forall c :: c in cols ==> c.before >= 0 || c.after >= 0
    ensures common == Common(cols) && removed == CountRemoved(cols) && added == CountAdded(cols)
    ensures IsFirstShared(cols, first)
  {
    common, first, removed, added := [], -1, 0, 0;
    var i := 0;
    while i < |cols|
      invariant 0 <= i <= |cols|
      invariant common == Common(cols[..i]) && removed == CountRemoved(cols[..i]) && added == CountAdded(cols[..i])
      invariant if first == -1 then common == [] else 0 <= first < i && common != [] && cols[first] == common[0]
    {
      var c := cols[i];
      assert cols[..i + 1][..i] == cols[..i];
      if c.before >= 0 && c.after >= 0 {
        if first == -1 {
          first := i;
        }
        common := common + [c];
      } else if c.before >= 0 {
        removed := removed + 1;
      } else {
        added := added + 1;
      }
      i := i + 1;
    }
    assert cols[..i] == cols;
  }

  /** Shared and one-sided columns add up to each side's columns. */
  lemma {:induction false} ColumnTotals(cols: seq<Column>)
    requires forall c :: c in cols ==> c.before >= 0 || c.after >= 0
    ensures |Common(cols)| + CountRemoved(cols) == TotalBefore(PairsOf(cols))
    ensures |Common(cols)| + CountAdded(cols) == TotalAfter(PairsOf(cols))
  {
    if cols != [] {
      var init, last := cols[..|cols| - 1], cols[|cols| - 1];
      assert last in cols && forall c :: c in init ==> c in cols;
      ColumnTotals(init);
      assert PairsOf(cols)[..|cols| - 1] == PairsOf(init);
    }
  }

  function SideCell(row: Row, c: Column, left: bool): string {
    Cell(row, if left then c.before else c.after)
  }

  const UNIT: char := 31 as char

  /** The cells of the columns, joined by the unit separator. */
  function RowKey(row: Row, cols: seq<Column>, left: bool): string {
    if cols == [] then ""
    else if |cols| == 1 then SideCell(row, cols[0], left)
    else SideCell(row, cols[0], left) + [UNIT] + RowKey(row, cols[1..], left)
  }

  /** No cell of the columns contains the separator. */
  predicate Unseparated(row: Row, cols: seq<Column>, left: bool) {
    forall c :: c in cols ==> UNIT !in SideCell(row, c, left)
  }

  ghost predicate SameCells(o: Row, n: Row, cols: seq<Column>) {
    forall i :: 0 <= i < |cols| ==> SideCell(o, cols[i], true) == SideCell(n, cols[i], false)
  }

  lemma UnitAt(x: string, u: string)
    requires UNIT !in x
    ensures var s := x + [UNIT] + u;
            && s[|x|] == UNIT && s[..|x|] == x && s[|x| + 1..] == u && forall i :: 0 <= i < |x| ==> s[i] != UNIT
  {
    var s := x + [UNIT] + u;
    forall i | 0 <= i < |x| ensures s[i] != UNIT {
      assert s[i] == x[i];
    }
  }

  /** The text before the first separator can be told from the text after it. */
  lemma FirstCell(x: string, u: string, y: string, v: string)
    requires UNIT !in x && UNIT !in y && x + [UNIT] + u == y + [UNIT] + v
    ensures x == y && u == v
  {
    UnitAt(x, u);
    UnitAt(y, v);
    assert |x| == |y|;
  }

  lemma {:induction false} CellsMakeKey(o: Row, n: Row, cols: seq<Column>)
    requires SameCells(o, n, cols)
    ensures RowKey(o, cols, true) == RowKey(n, cols, false)
  {
    hide SideCell;
    if |cols| > 1 {
      assert forall i :: 0 <= i < |cols[1..]| ==> cols[1..][i] == cols[i + 1];
      CellsMakeKey(o, n, cols[1..]);
    }
  }

  /** Where no cell contains the separator, keys are equal exactly when all cells are. */
  lemma {:induction false} KeyIsCells(o: Row, n: Row, cols: seq<Column>)
    requires Unseparated(o, cols, true) && Unseparated(n, cols, false)
    ensures RowKey(o, cols, true) == RowKey(n, cols, false) <==> SameCells(o, n, cols)
  {
    hide SideCell;
    if SameCells(o, n, cols) {
      CellsMakeKey(o, n, cols);
    } else if |cols| > 1 {
      var rest := cols[1..];
      assert cols[0] in cols && forall c :: c in rest ==> c in cols;
      KeyIsCells(o, n, rest);
      if RowKey(o, cols, true) == RowKey(n, cols, false) {
        FirstCell(SideCell(o, cols[0], true), RowKey(o, rest, true), SideCell(n, cols[0], false),
                  RowKey(n, rest, false));
        SameCellsMore(o, n, cols);
      }
    }
  }

  lemma SameCellsMore(o: Row, n: Row, cols: seq<Column>)
    requires cols != [] && SideCell(o, cols[0], true) == SideCell(n, cols[0], false) && SameCells(o, n, cols[1..])
    ensures SameCells(o, n, cols)
  {
    hide SideCell;
    forall i | 0 <= i < |cols| ensures SideCell(o, cols[i], true) == SideCell(n, cols[i], false) {
      if i > 0 {
        assert cols[i] == cols[1..][i - 1];
      }
    }
  }

  /** A separator inside a cell can make different rows equal. */
  lemma SeparatorsConfuse(a: string, b: string, c: string, left: Column, right: Column)
    requires left.before == left.after == 0 && right.before == right.after == 1
    ensures var o, n, cols := [a + [UNIT] + b, c], [a, b + [UNIT] + c], [left, right];
            RowKey(o, cols, true) == RowKey(n, cols, false) && !SameCells(o, n, cols)
  {
    var o, n, cols := [a + [UNIT] + b, c], [a, b + [UNIT] + c], [left, right];
    assert cols[1..] == [right];
    assert RowKey(o, cols, true) == (a + [UNIT] + b) + [UNIT] + c;
    assert RowKey(n, cols, false) == a + [UNIT] + (b + [UNIT] + c);
    assert SideCell(o, cols[0], true) != SideCell(n, cols[0], false) by {
      assert |a + [UNIT] + b| > |a|;
    }
  }

  /** The keys of the rows of two tables. */
  ghost function KeysOf(t: Tables): (k: Keys)
    ensures KeysFit(t, k)
  {
    var key := t.common[..Min(1, |t.common|)];
    Keys(t.common != [], SideKeys(t.oldRows, key, true), SideKeys(t.newRows, key, false),
         SideKeys(t.oldRows, t.common, true), SideKeys(t.newRows, t.common, false))
  }

  ghost function SideKeys(rows: seq<Row>, cols: seq<Column>, left: bool): (keys: seq<string>)
    ensures |keys| == |rows| && forall r :: 0 <= r < |rows| ==> keys[r] == RowKey(rows[r], cols, left)
  {
    seq(|rows|, r requires 0 <= r < |rows| => RowKey(rows[r], cols, left))
  }

  method Project(rows: seq<Row>, cols: seq<Column>, left: bool) returns (out: seq<string>)
    ensures |out| == |rows| && forall r :: 0 <= r < |rows| ==> out[r] == RowKey(rows[r], cols, left)
    ensures out == SideKeys(rows, cols, left)
  {
    out := [];
    var r := 0;
    while r < |rows|
      invariant 0 <= r <= |rows| && |out| == r
      invariant forall x :: 0 <= x < r ==> out[x] == RowKey(rows[x], cols, left)
    {
      out := out + [RowKey(rows[r], cols, left)];
      r := r + 1;
    }
  }

  // ---- the comparison ----

  /** The first shared column has a different value in every row of both tables,
      none of them empty. */
  ghost predicate KeyUsable(oldRows: seq<Row>, newRows: seq<Row>, c: Column) {
    && (forall i :: 0 <= i < |oldRows| ==> Cell(oldRows[i], c.before) != "")
    && (forall j :: 0 <= j < |newRows| ==> Cell(newRows[j], c.after) != "")
    && (forall i, k :: 0 <= i < k < |oldRows| ==> Cell(oldRows[i], c.before) != Cell(oldRows[k], c.before))
    && (forall j, k :: 0 <= j < k < |newRows| ==> Cell(newRows[j], c.after) != Cell(newRows[k], c.after))
  }

  /** Why two rows are shown as one. */
  ghost predicate RowMatched(t: Tables, byKey: bool, p: Pair) {
    p.before >= 0 && p.after >= 0 ==>
      && p.before < |t.oldRows| && p.after < |t.newRows|
      && var o, n := t.oldRows[p.before], t.newRows[p.after];
         if byKey then t.common != [] && Cell(o, t.common[0].before) == Cell(n, t.common[0].after)
         else RowKey(o, t.common, true) == RowKey(n, t.common, false) || AreSimilar(o, n, t.common)
  }

  /** Rows whose first shared column agrees are shown as one. */
  ghost predicate RowsPaired(t: Tables, pairs: seq<Pair>) {
    t.common != [] && forall i, j :: 0 <= i < |t.oldRows| && 0 <= j < |t.newRows| && SameKey(t, i, j) ==>
      Paired(pairs, i, j)
  }

  predicate SameKey(t: Tables, i: nat, j: nat)
    requires t.common != [] && i < |t.oldRows| && j < |t.newRows|
  {
    Cell(t.oldRows[i], t.common[0].before) == Cell(t.newRows[j], t.common[0].after)
  }

  /** Rows are matched by the first shared column where it is a key on both sides,
      or else by content; they are an alignment of these keys, so that what has not
      moved is a longest common subsequence. */
  ghost predicate RowsMatched(t: Tables, byKey: bool, pairs: seq<Pair>) {
    && (byKey <==> t.common != [] && KeyUsable(t.oldRows, t.newRows, t.common[0]))
    && RowsAligned(t, KeysOf(t), byKey, pairs) && (byKey ==> RowsPaired(t, pairs))
    && (forall p :: p in pairs ==> RowMatched(t, byKey, p))
  }

  lemma OneColumnKey(rows: seq<Row>, c: Column, left: bool, keys: seq<string>)
    requires |keys| == |rows| && forall r :: 0 <= r < |rows| ==> keys[r] == RowKey(rows[r], [c], left)
    ensures forall r :: 0 <= r < |rows| ==> keys[r] == SideCell(rows[r], c, left)
    ensures UsableKeys(keys) <==>
      && (forall i :: 0 <= i < |rows| ==> SideCell(rows[i], c, left) != "")
      && (forall i, k :: 0 <= i < k < |rows| ==> SideCell(rows[i], c, left) != SideCell(rows[k], c, left))
  {
    hide SideCell;
    forall r | 0 <= r < |rows| ensures keys[r] == SideCell(rows[r], c, left) && keys[r] in keys {}
  }

  lemma KeyCells(t: Tables)
    requires t.common != []
    ensures var k, c := KeysOf(t), t.common[0];
            && (forall r :: 0 <= r < |t.oldRows| ==> k.oldKey[r] == Cell(t.oldRows[r], c.before))
            && (forall r :: 0 <= r < |t.newRows| ==> k.newKey[r] == Cell(t.newRows[r], c.after))
            && (UsableKeys(k.oldKey) && UsableKeys(k.newKey) <==> KeyUsable(t.oldRows, t.newRows, c))
  {
    hide RowKey, UsableKeys, Cell;
    assert t.common[..1] == [t.common[0]];
    OneColumnKey(t.oldRows, t.common[0], true, KeysOf(t).oldKey);
    OneColumnKey(t.newRows, t.common[0], false, KeysOf(t).newKey);
  }

  lemma KeysMean(t: Tables, byKey: bool, pairs: seq<Pair>)
    requires var k := KeysOf(t);
             && AllMatched(t, k, byKey, pairs) && RowsAligned(t, k, byKey, pairs)
             && (byKey <==> k.shared && UsableKeys(k.oldKey) && UsableKeys(k.newKey))
    ensures RowsMatched(t, byKey, pairs)
  {
    hide RowKey, UsableKeys, AreSimilar, RowsAligned, KeyUsable, Cell, Paired;
    if t.common != [] {
      KeyCells(t);
    }
    if byKey {
      forall i, j | 0 <= i < |t.oldRows| && 0 <= j < |t.newRows| && SameKey(t, i, j)
        ensures Paired(pairs, i, j)
      {
        EqualKeysPaired(t, KeysOf(t), pairs, i, j);
      }
    }
    forall p | p in pairs ensures RowMatched(t, byKey, p) {
      assert PairMatched(t, KeysOf(t), byKey, p);
    }
  }

  /** The pairs of rows and whether a key column matched them. */
  method MatchRows(t: Tables) returns (pairs: seq<Pair>, byKey: bool)
    ensures Covers(pairs, |t.oldRows|, |t.newRows|) && RowsMatched(t, byKey, pairs)
  {
    hide Covers, RowKey, AllMatched, UsableKeys, RowsMatched, RowsAligned, SideKeys;
    var oldContent := Project(t.oldRows, t.common, true);
    var newContent := Project(t.newRows, t.common, false);
    var oldKey, newKey := oldContent, newContent;
    if |t.common| > 0 {
      oldKey := Project(t.oldRows, t.common[..1], true);
      newKey := Project(t.newRows, t.common[..1], false);
    } else {
      assert t.common[..0] == t.common;
    }
    var keys := Keys(|t.common| > 0, oldKey, newKey, oldContent, newContent);
    pairs, byKey := AlignRows(t, keys);
    KeysMean(t, byKey, pairs);
  }

  /** A comparison of two tables: every column and every row of both appears once,
      described by its cells; the counters balance against both tables. */
  method DiffTables(oldTable: seq<Row>, newTable: seq<Row>) returns (d: TableDiff, pairs: seq<Pair>)
    ensures fresh(d) && d.Valid()
    ensures var oh, nh, o, n := HeaderOf(oldTable), HeaderOf(newTable), BodyOf(oldTable), BodyOf(newTable);
      && Columns(oh, nh, Width(oh, o), Width(nh, n), d.layout.columns)
      && |Common(d.layout.columns)| + d.layout.columnsRemoved == Width(oh, o)
      && |Common(d.layout.columns)| + d.layout.columnsAdded == Width(nh, n)
      && Covers(pairs, |o|, |n|) && RowsMatched(Tables(o, n, Common(d.layout.columns)), d.layout.keyColumn != -1, pairs)
      && (d.layout.keyColumn != -1 ==> IsFirstShared(d.layout.columns, d.layout.keyColumn))
      && |d.rows| == |pairs| && (forall k :: 0 <= k < |pairs| ==>
           Describes(d.layout.columns, o, n, pairs[k], d.rows[k]))
      && d.rowsRemoved + d.rowsChanged + CountStatus(d.rows, Same) == |o|
      && d.rowsAdded + d.rowsChanged + CountStatus(d.rows, Same) == |n|
  {
    hide Covers, Named, ColumnMatched, ByHeader, RowsMatched, Describes, CountStatus, Common, CountRemoved, CountAdded,
         Width;
    var oh, nh, o, n := HeaderOf(oldTable), HeaderOf(newTable), BodyOf(oldTable), BodyOf(newTable);
    var cols := AlignColumns(oh, nh, o, n);
    ColumnSides(cols, Width(oh, o), Width(nh, n));
    var common, first, removed, added := SortColumns(cols);
    ColumnTotals(cols);
    Totals(PairsOf(cols), Width(oh, o), Width(nh, n));
    var t := Tables(o, n, common);
    var byKey;
    pairs, byKey := MatchRows(t);
    KeyIsShared(t, cols, first, byKey, pairs);
    d := DiffRows(t, Layout(cols, if byKey then first else -1, added, removed), pairs);
  }

  lemma ColumnSides(cols: seq<Column>, ow: nat, nw: nat)
    requires Covers(PairsOf(cols), ow, nw)
    ensures forall c :: c in cols ==> c.before >= 0 || c.after >= 0
  {
    forall c | c in cols ensures c.before >= 0 || c.after >= 0 {
      var k :| 0 <= k < |cols| && cols[k] == c;
      assert PairsOf(cols)[k] in PairsOf(cols);
    }
  }

  lemma KeyIsShared(t: Tables, cols: seq<Column>, first: int, byKey: bool, pairs: seq<Pair>)
    requires t.common == Common(cols) && IsFirstShared(cols, first) && RowsMatched(t, byKey, pairs)
    ensures byKey ==> first != -1
  {
    hide Common;
  }
}
