/** The dashboard's derivations over the local task table (`app.py`): the
    save loops that send edited cells back and count them, the sorted list
    of responsible people, and the list of projects still open. */
module Dashboard {
  import opened Base
  import opened Text
  import opened Notion
  import SyncNotion

  // ---------------------------------------------------------------------
  // The save loops
  // ---------------------------------------------------------------------

  /** A row of the editor as submitted: its page id and the three editable
      cells ("Chat" is the observation column renamed). */
  datatype Edit = Edit(pageId: string, tarefa: string, status: string, chat: string)

  /** The editable columns, in the order a loop compares them. */
  datatype Column = StatusCol | ChatCol | TarefaCol

  /** The columns the project editor compares: Status, Chat, Tarefa. */
  const ProjectEditorColumns: seq<Column> := [StatusCol, ChatCol, TarefaCol]

  /** The columns the loose-task editor compares: Chat, Status. */
  const LooseEditorColumns: seq<Column> := [ChatCol, StatusCol]

  /** The column name passed to the write-back. */
  function ColumnName(c: Column): string {
    match c
    case StatusCol => "Status"
    case ChatCol => "Observacao"
    case TarefaCol => "Tarefa"
  }

  function EditedCell(e: Edit, c: Column): string {
    match c
    case StatusCol => e.status
    case ChatCol => e.chat
    case TarefaCol => e.tarefa
  }

  function OriginalCell(row: Row, c: Column): string {
    match c
    case StatusCol => row.status
    case ChatCol => row.observacao
    case TarefaCol => row.tarefa
  }

  /** One `atualizar_tarefa_notion(page_id, column, value)` call. */
  datatype Call = Call(pageId: string, column: string, value: string)

  /** The first original row with that page id (`df[df.page_id == pid].iloc[0]`). */
  function FindRow(rows: seq<Row>, pid: string): (r: Option<nat>)
    ensures r.Some? ==> r.value < |rows| && rows[r.value].pageId == pid
    ensures r.Some? ==> forall j :: 0 <= j < r.value ==> rows[j].pageId != pid
    ensures r.None? ==> forall j :: 0 <= j < |rows| ==> rows[j].pageId != pid
  {
    if rows == [] then None
    else if rows[0].pageId == pid then Some(0)
    else match FindRow(rows[1..], pid)
      case None => None
      case Some(i) => Some(i + 1)
  }

  /** The calls made for one edited row against its original, one per
      compared column whose cell changed, in column order. */
  function RowCalls(e: Edit, org: Row, cols: seq<Column>): (r: seq<Call>)
    ensures |r| <= |cols|
    ensures forall c :: c in r <==>
              exists k :: 0 <= k < |cols| && EditedCell(e, cols[k]) != OriginalCell(org, cols[k])
                          && c == Call(e.pageId, ColumnName(cols[k]), EditedCell(e, cols[k]))
  {
    if cols == [] then []
    else
      var rest := RowCalls(e, org, cols[1..]);
      assert forall k :: 1 <= k < |cols| ==> cols[k] == cols[1..][k - 1];
      if EditedCell(e, cols[0]) != OriginalCell(org, cols[0])
      then [Call(e.pageId, ColumnName(cols[0]), EditedCell(e, cols[0]))] + rest
      else rest
  }

  /** The calls of the whole loop: rows whose page id is not among the
      originals (new rows) are skipped. */
  function SaveCalls(edits: seq<Edit>, original: seq<Row>, cols: seq<Column>): (r: seq<Call>)
    ensures |r| <= |edits| * |cols|
    decreases |edits|
  {
    if edits == [] then []
    else
      var e := edits[|edits| - 1];
      var before := SaveCalls(edits[..|edits| - 1], original, cols);
      MulSucc(|edits| - 1, |cols|);
      match FindRow(original, e.pageId)
      case None => before
      case Some(i) => before + RowCalls(e, original[i], cols)
  }

  /** The save loop: for each edited row found among the originals, write
      back every compared cell that changed and count it, whatever the
      write-back answers. */
  method Save(edits: seq<Edit>, original: seq<Row>, cols: seq<Column>) returns (count: nat, calls: seq<Call>)
    ensures calls == SaveCalls(edits, original, cols)
    ensures count == |calls|
    ensures count <= |edits| * |cols|
  {
    count, calls := 0, [];
    var i := 0;
    while i < |edits|
      invariant 0 <= i <= |edits|
      invariant calls == SaveCalls(edits[..i], original, cols)
      invariant count == |calls|
    {
      var e := edits[i];
      assert edits[..i + 1][..i] == edits[..i];
      match FindRow(original, e.pageId) {
        case None =>
        case Some(j) =>
          var made := RowCalls(e, original[j], cols);
          calls := calls + made;
          count := count + |made|;
      }
      i := i + 1;
    }
    assert edits[..i] == edits;
  }

  lemma MulSucc(n: nat, k: nat)
    ensures (n + 1) * k == n * k + k
  {
  }

  /** A call is made exactly for each changed compared cell of an edited row
      whose page id is among the originals, with the new cell value. */
  lemma {:induction false} SaveCallsIff(edits: seq<Edit>, original: seq<Row>, cols: seq<Column>, c: Call)
    ensures c in SaveCalls(edits, original, cols) <==>
              exists i, k :: 0 <= i < |edits| && 0 <= k < |cols|
                && FindRow(original, edits[i].pageId).Some?
                && EditedCell(edits[i], cols[k]) != OriginalCell(original[FindRow(original, edits[i].pageId).value], cols[k])
                && c == Call(edits[i].pageId, ColumnName(cols[k]), EditedCell(edits[i], cols[k]))
    decreases |edits|
  {
    if edits != [] {
      var n := |edits| - 1;
      var init := edits[..n];
      SaveCallsIff(init, original, cols, c);
      assert forall i :: 0 <= i < n ==> init[i] == edits[i];
    }
  }

  /** A changed task name is counted as saved although the
      projects-and-tasks write-back refuses that column and sends nothing. */
  lemma TaskNameEditCounts(e: Edit, org: Row)
    requires e.status == org.status && e.chat == org.observacao && e.tarefa != org.tarefa
    ensures RowCalls(e, org, ProjectEditorColumns) == [Call(e.pageId, "Tarefa", e.tarefa)]
    ensures var w := SyncNotion.WriteBack("Tarefa", e.tarefa, None);
            !w.ok && w.update.None? && w.message == "Campo inv"
  {
    var cols := ProjectEditorColumns;
    assert cols[1..] == [ChatCol, TarefaCol] && cols[1..][1..] == [TarefaCol];
    assert RowCalls(e, org, [TarefaCol]) == [Call(e.pageId, "Tarefa", e.tarefa)];
  }

  // ---------------------------------------------------------------------
  // The responsible list
  // ---------------------------------------------------------------------

  /** A name that is listed: not empty and not the placeholder "-". */
  predicate Listed(u: string) {
    u != "" && u != "-"
  }

  /** `u` is one of the comma-separated pieces, stripped, and listed. */
  predicate NameIn(pieces: seq<string>, u: string) {
    exists j :: 0 <= j < |pieces| && u == Strip(pieces[j]) && Listed(u)
  }

  /** `u` is a listed name of some cell of the column. */
  predicate NameOfColumn(cells: seq<string>, u: string) {
    exists k :: 0 <= k < |cells| && NameIn(Split(cells[k], ','), u)
  }

  /** The stripped, listed pieces of one comma-separated cell. */
  function CellNames(pieces: seq<string>): seq<string> {
    if pieces == [] then []
    else (if Listed(Strip(pieces[0])) then [Strip(pieces[0])] else []) + CellNames(pieces[1..])
  }

  lemma NameInCons(pieces: seq<string>, u: string)
    requires pieces != []
    ensures NameIn(pieces, u) <==> (u == Strip(pieces[0]) && Listed(u)) || NameIn(pieces[1..], u)
  {
    var tail := pieces[1..];
    assert forall j :: 0 <= j < |tail| ==> tail[j] == pieces[j + 1];
    if NameIn(pieces, u) {
      var j :| 0 <= j < |pieces| && u == Strip(pieces[j]) && Listed(u);
      if j > 0 { assert u == Strip(tail[j - 1]); }
    }
  }

  lemma {:induction false} CellNamesIff(pieces: seq<string>, u: string)
    ensures u in CellNames(pieces) <==> NameIn(pieces, u)
  {
    if pieces != [] {
      CellNamesIff(pieces[1..], u);
      NameInCons(pieces, u);
    }
  }

  /** All listed names of the column, cell after cell. */
  function AllNames(cells: seq<string>): seq<string> {
    if cells == [] then [] else CellNames(Split(cells[0], ',')) + AllNames(cells[1..])
  }

  lemma NameOfColumnCons(cells: seq<string>, u: string)
    requires cells != []
    ensures NameOfColumn(cells, u) <==> NameIn(Split(cells[0], ','), u) || NameOfColumn(cells[1..], u)
  {
    var tail := cells[1..];
    assert forall k :: 0 <= k < |tail| ==> tail[k] == cells[k + 1];
    if NameOfColumn(cells, u) {
      var k :| 0 <= k < |cells| && NameIn(Split(cells[k], ','), u);
      if k > 0 { assert NameIn(Split(tail[k - 1], ','), u); }
    }
  }

  lemma {:induction false} AllNamesIff(cells: seq<string>, u: string)
    ensures u in AllNames(cells) <==> NameOfColumn(cells, u)
  {
    if cells != [] {
      AllNamesIff(cells[1..], u);
      CellNamesIff(Split(cells[0], ','), u);
      NameOfColumnCons(cells, u);
    }
  }

  /** Strictly increasing, hence without repetition. */
  predicate StrictlySorted(xs: seq<string>) {
    forall i, j :: 0 <= i < j < |xs| ==> Less(xs[i], xs[j])
  }

  /** Every element of `xs` comes after `x`. */
  predicate Above(x: string, xs: seq<string>) {
    forall v :: v in xs ==> Less(x, v)
  }

  lemma SortedCons(x: string, xs: seq<string>)
    requires StrictlySorted(xs) && Above(x, xs)
    ensures StrictlySorted([x] + xs)
  {
    var r := [x] + xs;
    forall i, j | 0 <= i < j < |r| ensures Less(r[i], r[j]) {
      assert r[j] == xs[j - 1];
      if i > 0 { assert r[i] == xs[i - 1]; }
    }
  }

  lemma SortedTail(xs: seq<string>)
    requires StrictlySorted(xs) && xs != []
    ensures StrictlySorted(xs[1..]) && Above(xs[0], xs[1..])
  {
    forall v | v in xs[1..] ensures Less(xs[0], v) {
      var m :| 0 <= m < |xs[1..]| && xs[1..][m] == v;
      assert xs[m + 1] == v;
    }
  }

  /** Insertion into a strictly sorted list, skipping a name already there. */
  function Insert(xs: seq<string>, u: string): (r: seq<string>)
    requires StrictlySorted(xs)
    ensures StrictlySorted(r)
    ensures forall v :: v in r <==> v in xs || v == u
    decreases |xs|
  {
    if xs == [] then [u]
    else if xs[0] == u then xs
    else
      SortedTail(xs);
      assert xs == [xs[0]] + xs[1..];
      LessTotal(u, xs[0]);
      if Less(u, xs[0]) then
        assert Above(u, xs) by {
          forall v | v in xs ensures Less(u, v) {
            if v != xs[0] { LessTransitive(u, xs[0], v); }
          }
        }
        SortedCons(u, xs);
        [u] + xs
      else
        var rest := Insert(xs[1..], u);
        SortedCons(xs[0], rest);
        [xs[0]] + rest
  }

  /** `sorted(set(names))`, built by insertion. */
  function SortedSet(names: seq<string>): (r: seq<string>)
    ensures StrictlySorted(r)
    ensures forall v :: v in r <==> v in names
  {
    if names == [] then []
    else
      var r := Insert(SortedSet(names[..|names| - 1]), names[|names| - 1]);
      assert names == names[..|names| - 1] + [names[|names| - 1]];
      r
  }

  /** The responsible list of the loose-task tab: every name that occurs,
      stripped, between the commas of some "Responsavel" cell, except the
      empty one and "-", each once, in increasing order. */
  function Responsibles(cells: seq<string>): (r: seq<string>)
    ensures StrictlySorted(r)
    ensures forall u :: u in r <==> NameOfColumn(cells, u)
  {
    var r := SortedSet(AllNames(cells));
    forall u ensures u in r <==> NameOfColumn(cells, u) {
      AllNamesIff(cells, u);
    }
    r
  }

  /** The list has no repetition. */
  lemma ResponsiblesDistinct(cells: seq<string>)
    ensures forall i, j :: 0 <= i < j < |Responsibles(cells)| ==> Responsibles(cells)[i] != Responsibles(cells)[j]
  {
    var r := Responsibles(cells);
    forall i, j | 0 <= i < j < |r| ensures r[i] != r[j] {
      LessIrreflexive(r[i]);
    }
  }

  /** A strictly sorted list is fixed by its elements: so the responsible
      list depends only on the set of names the column holds. */
  lemma {:induction false} SortedUnique(a: seq<string>, b: seq<string>)
    requires StrictlySorted(a) && StrictlySorted(b)
    requires forall v :: v in a <==> v in b
    ensures a == b
    decreases |a|
  {
    if a != [] && b != [] {
      SortedTail(a);
      SortedTail(b);
      assert a == [a[0]] + a[1..] && b == [b[0]] + b[1..];
      if a[0] != b[0] {
        HeadLeast(a, b[0]);
        HeadLeast(b, a[0]);
        LessAsymmetric(a[0], b[0]);
        assert false;
      }
      forall v ensures v in a[1..] <==> v in b[1..] {
        LessIrreflexive(v);
        if v in a[1..] {
          assert v in a && v != a[0];
        }
        if v in b[1..] {
          assert v in b && v != b[0];
        }
      }
      SortedUnique(a[1..], b[1..]);
    } else if a != [] {
      HeadIn(a);
      assert false;
    } else if b != [] {
      HeadIn(b);
      assert false;
    }
  }

  lemma HeadIn(a: seq<string>)
    requires a != []
    ensures a[0] in a
  {
  }

  /** The head of a strictly sorted list precedes every other element. */
  lemma HeadLeast(a: seq<string>, v: string)
    requires StrictlySorted(a) && v in a && v != a[0]
    ensures Less(a[0], v)
  {
  }

  /** Two columns holding the same names give the same list. */
  lemma ResponsiblesBySet(c1: seq<string>, c2: seq<string>)
    requires forall u :: NameOfColumn(c1, u) <==> NameOfColumn(c2, u)
    ensures Responsibles(c1) == Responsibles(c2)
  {
    SortedUnique(Responsibles(c1), Responsibles(c2));
  }

  // ---------------------------------------------------------------------
  // Projects still open
  // ---------------------------------------------------------------------

  /** `seq.unique()`: each value once, in order of first appearance. */
  function Unique(xs: seq<string>): (r: seq<string>)
    ensures forall v :: v in r <==> v in xs
    ensures Distinct(r)
  {
    if xs == [] then []
    else
      var init := xs[..|xs| - 1];
      var rest := Unique(init);
      assert xs == init + [xs[|xs| - 1]];
      if xs[|xs| - 1] in rest then rest else rest + [xs[|xs| - 1]]
  }

  /** The position of the first occurrence of `v`. */
  function FirstIndex(xs: seq<string>, v: string): (r: nat)
    requires v in xs
    ensures r < |xs| && xs[r] == v
    ensures forall k :: 0 <= k < r ==> xs[k] != v
  {
    if xs[0] == v then 0 else 1 + FirstIndex(xs[1..], v)
  }

  lemma FirstIndexExtend(xs: seq<string>, x: string, v: string)
    requires v in xs
    ensures v in xs + [x] && FirstIndex(xs + [x], v) == FirstIndex(xs, v)
  {
    var i := FirstIndex(xs, v);
    var ys := xs + [x];
    var j := FirstIndex(ys, v);
    assert ys[i] == v;
    assert xs[j] == v by {
      if j >= |xs| { assert false; }
    }
  }

  /** The values come in the order of their first appearance. */
  lemma {:induction false} UniqueOrder(xs: seq<string>)
    ensures forall i, j :: 0 <= i < j < |Unique(xs)| ==> FirstIndex(xs, Unique(xs)[i]) < FirstIndex(xs, Unique(xs)[j])
    decreases |xs|
  {
    if xs != [] {
      var init := xs[..|xs| - 1];
      var x := xs[|xs| - 1];
      assert xs == init + [x];
      UniqueOrder(init);
      var rest := Unique(init);
      var r := Unique(xs);
      forall i, j | 0 <= i < j < |r| ensures FirstIndex(xs, r[i]) < FirstIndex(xs, r[j]) {
        assert r[i] == rest[i];
        FirstIndexExtend(init, x, rest[i]);
        assert FirstIndex(xs, r[i]) == FirstIndex(init, rest[i]);
        if j < |rest| {
          assert r[j] == rest[j];
          FirstIndexExtend(init, x, rest[j]);
          assert FirstIndex(xs, r[j]) == FirstIndex(init, rest[j]);
          assert FirstIndex(init, rest[i]) < FirstIndex(init, rest[j]);
        } else {
          assert r[j] == x && x !in init;
          assert FirstIndex(xs, r[j]) == |init|;
          assert FirstIndex(init, rest[i]) < |init|;
        }
      }
    }
  }

  /** The project has a task whose status is not "Concluído". */
  predicate HasOpenTask(rows: seq<Row>, p: string) {
    exists k :: 0 <= k < |rows| && rows[k].projeto == p && rows[k].status != Label(Done)
  }

  function Projects(rows: seq<Row>): (r: seq<string>)
    ensures |r| == |rows|
    ensures forall k :: 0 <= k < |rows| ==> r[k] == rows[k].projeto
  {
    if rows == [] then [] else [rows[0].projeto] + Projects(rows[1..])
  }

  function KeepOpen(rows: seq<Row>, ps: seq<string>): (r: seq<string>)
    ensures forall v :: v in r <==> v in ps && HasOpenTask(rows, v)
    ensures |r| <= |ps|
  {
    if ps == [] then []
    else
      var rest := KeepOpen(rows, ps[1..]);
      assert forall j :: 1 <= j < |ps| ==> ps[j] == ps[1..][j - 1];
      (if HasOpenTask(rows, ps[0]) then [ps[0]] else []) + rest
  }

  /** The project list of the central tab: the projects of the rows, each
      once in order of first appearance, keeping those with at least one
      task not done. */
  function ActiveProjects(rows: seq<Row>): (r: seq<string>)
    ensures forall p :: p in r <==> HasOpenTask(rows, p)
    ensures Distinct(r)
  {
    OpenInProjects(rows);
    KeepOpenDistinct(rows, Unique(Projects(rows)));
    KeepOpen(rows, Unique(Projects(rows)))
  }

  /** No value occurs twice. */
  predicate Distinct(xs: seq<string>) {
    forall i, j :: 0 <= i < j < |xs| ==> xs[i] != xs[j]
  }

  lemma DistinctCons(x: string, xs: seq<string>)
    requires Distinct(xs) && x !in xs
    ensures Distinct([x] + xs)
  {
    var r := [x] + xs;
    forall i, j | 0 <= i < j < |r| ensures r[i] != r[j] {
      assert r[j] == xs[j - 1];
      if i > 0 { assert r[i] == xs[i - 1]; }
    }
  }

  lemma {:induction false} KeepOpenDistinct(rows: seq<Row>, ps: seq<string>)
    requires Distinct(ps)
    ensures Distinct(KeepOpen(rows, ps))
    decreases |ps|
  {
    if ps != [] {
      assert Distinct(ps[1..]) by {
        forall i, j | 0 <= i < j < |ps[1..]| ensures ps[1..][i] != ps[1..][j] {
          assert ps[1..][i] == ps[i + 1] && ps[1..][j] == ps[j + 1];
        }
      }
      KeepOpenDistinct(rows, ps[1..]);
      var rest := KeepOpen(rows, ps[1..]);
      assert ps[0] !in ps[1..] by {
        forall m | 0 <= m < |ps[1..]| ensures ps[1..][m] != ps[0] {
          assert ps[1..][m] == ps[m + 1];
        }
      }
      if HasOpenTask(rows, ps[0]) {
        DistinctCons(ps[0], rest);
      }
    }
  }

  /** A project with an open task is among the projects of the rows. */
  lemma OpenInProjects(rows: seq<Row>)
    ensures forall p :: HasOpenTask(rows, p) ==> p in Unique(Projects(rows))
  {
    var ps := Projects(rows);
    forall p | HasOpenTask(rows, p) ensures p in Unique(ps) {
      var k :| 0 <= k < |rows| && rows[k].projeto == p && rows[k].status != Label(Done);
      assert ps[k] == p;
    }
  }
}
