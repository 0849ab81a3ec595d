/** The projects-and-tasks synchronisation script (`sync_notion.py`): the
    exact-name property decoder, the project map, task row assembly with
    status normalisation, the paginated task loop that keeps partial rows,
    the sync result, and the write-back of an edited cell. */
module SyncNotion {
  import opened Base
  import opened Text
  import opened Notion
  import opened Comments

  // ---------------------------------------------------------------------
  // safe_get
  // ---------------------------------------------------------------------

  /** The first fragment's text; `""` for no fragment; `None` when that
      fragment has no `plain_text`. */
  function FirstFragment(fs: seq<Fragment>): (r: Option<Value>)
    ensures fs == [] ==> r == Some(Str(""))
    ensures fs != [] ==> (r.Some? <==> fs[0].plainText.Some?)
    ensures fs != [] && r.Some? ==> r.value == Str(fs[0].plainText.value)
  {
    if fs == [] then Some(Str(""))
    else match fs[0].plainText
      case None => None
      case Some(t) => Some(Str(t))
  }

  /** The decoding rule per declared kind: titles and rich text give the
      first fragment's text or `""`; a select gives its option name; a
      multi-select gives its names joined with `", "`; a date gives the date
      object; a relation gives its first target id. An empty select,
      multi-select, date or relation, the `status` and `people` kinds, any
      other kind, and a payload that raises all give `None`. */
  function Decode(p: Prop): (r: Option<Value>)
    ensures (p.Title? || p.RichText?) ==> r == FirstFragment(if p.Title? then p.title else p.richText)
    ensures p.Select? ==> (r.Some? <==> p.select.Some? && p.select.value.name.Some?)
    ensures p.Select? && r.Some? ==> r.value == Str(p.select.value.name.value)
    ensures p.MultiSelect? ==> (r.Some? <==> p.options != [] && ChoiceNames(p.options).Some?)
    ensures p.MultiSelect? && r.Some? ==> r.value == Str(Join(ChoiceNames(p.options).value, ", "))
    ensures p.Date? ==> (r.Some? <==> p.date.Some?)
    ensures p.Date? && r.Some? ==> r.value == DateV(p.date.value)
    ensures p.Relation? ==> (r.Some? <==> p.relation != [] && p.relation[0].id.Some?)
    ensures p.Relation? && r.Some? ==> r.value == Str(p.relation[0].id.value)
    ensures (p.Status? || p.People? || p.OtherKind? || p.Malformed?) ==> r.None?
  {
    match p
    case Title(fs) => FirstFragment(fs)
    case RichText(fs) => FirstFragment(fs)
    case Select(c) =>
      if c.None? || c.value.name.None? then None else Some(Str(c.value.name.value))
    case MultiSelect(items) =>
      (match ChoiceNames(items)
       case None => None
       case Some(names) => if names == [] then None else Some(Str(Join(names, ", "))))
    case Date(d) => if d.None? then None else Some(DateV(d.value))
    case Relation(links) =>
      if links == [] || links[0].id.None? then None else Some(Str(links[0].id.value))
    case _ => None
  }

  /** `safe_get`: `None` when the record has no property bag or no property
      of exactly that name, otherwise the decoded property. */
  function SafeGet(page: Page, name: string): (r: Option<Value>)
    ensures page.properties.None? ==> r.None?
    ensures page.properties.Some? && FindKey(page.properties.value, name).None? ==> r.None?
    ensures page.properties.Some? && FindKey(page.properties.value, name).Some? ==>
              r == Decode(page.properties.value[FindKey(page.properties.value, name).value].1)
  {
    match page.properties
    case None => None
    case Some(bag) =>
      match FindKey(bag, name)
      case None => None
      case Some(i) => Decode(bag[i].1)
  }

  // ---------------------------------------------------------------------
  // Project map
  // ---------------------------------------------------------------------

  /** What the task rows need of a project. */
  datatype Project = Project(name: string, area: string)

  /** The entry of a project record: its name is the text of its "Projeto"
      column, or "Sem Nome" when that is missing or empty, and its area the
      text of its "Área" column, or "Geral". */
  function ProjectOf(page: Page): (r: Project)
    ensures PicksFirst(r.name, [SafeGet(page, "Projeto")], "Sem Nome")
    ensures PicksFirst(r.area, [SafeGet(page, "Área")], "Geral")
  {
    OrElsePicks(SafeGet(page, "Projeto"), "Sem Nome");
    OrElsePicks(SafeGet(page, "Área"), "Geral");
    Project(PyStr(OrElse(SafeGet(page, "Projeto"), "Sem Nome")),
            PyStr(OrElse(SafeGet(page, "Área"), "Geral")))
  }

  /** Entering records one after the other; a later record with the same id
      replaces an earlier one. */
  function MapRecords(m: map<string, Project>, pages: seq<Page>): (r: map<string, Project>)
    ensures m.Keys <= r.Keys
    ensures forall i :: 0 <= i < |pages| ==> pages[i].id in r
    decreases |pages|
  {
    assert forall i :: 1 <= i < |pages| ==> pages[i] == pages[1..][i - 1];
    if pages == [] then m else MapRecords(m[pages[0].id := ProjectOf(pages[0])], pages[1..])
  }

  /** `mapear_projetos`: the paginated loop, stopping silently at the first
      failed query and keeping what it has. */
  function MapProjects(rs: seq<Response>, m: map<string, Project>): (r: map<string, Project>)
    ensures m.Keys <= r.Keys
    ensures forall i :: 0 <= i < |Served(rs)| ==> Served(rs)[i].id in r
    decreases |rs|
  {
    if rs == [] then m
    else match rs[0]
      case QueryError(_) => m
      case Batch(results, more) =>
        var m' := MapRecords(m, results);
        if more then MapProjects(rs[1..], m') else m'
  }

  lemma {:induction false} MapRecordsConcat(m: map<string, Project>, a: seq<Page>, b: seq<Page>)
    ensures MapRecords(m, a + b) == MapRecords(MapRecords(m, a), b)
    decreases |a|
  {
    if a == [] {
      assert a + b == b;
    } else {
      assert (a + b)[0] == a[0];
      assert (a + b)[1..] == a[1..] + b;
      MapRecordsConcat(m[a[0].id := ProjectOf(a[0])], a[1..], b);
    }
  }

  /** The paginated loop builds the same map as entering every served
      record in order. */
  lemma {:induction false} MapProjectsServed(rs: seq<Response>, m: map<string, Project>)
    ensures MapProjects(rs, m) == MapRecords(m, Served(rs))
    decreases |rs|
  {
    if rs != [] && rs[0].Batch? {
      var results := rs[0].results;
      if rs[0].hasMore {
        MapProjectsServed(rs[1..], MapRecords(m, results));
        MapRecordsConcat(m, results, Served(rs[1..]));
      } else {
        assert Served(rs) == results + [];
        assert results + [] == results;
      }
    }
  }

  /** Entering records in order: an id is in the map exactly when it was
      there before or some record carries it. */
  lemma {:induction false} MapRecordsKeys(m: map<string, Project>, pages: seq<Page>, id: string)
    ensures id in MapRecords(m, pages) <==> id in m || exists i :: 0 <= i < |pages| && pages[i].id == id
    decreases |pages|
  {
    if pages != [] {
      MapRecordsKeys(m[pages[0].id := ProjectOf(pages[0])], pages[1..], id);
      if exists i :: 0 <= i < |pages| && pages[i].id == id {
        var i :| 0 <= i < |pages| && pages[i].id == id;
        if i > 0 { assert pages[1..][i - 1] == pages[i]; }
      }
      if exists i :: 0 <= i < |pages[1..]| && pages[1..][i].id == id {
        var i :| 0 <= i < |pages[1..]| && pages[1..][i].id == id;
        assert pages[i + 1] == pages[1..][i];
      }
    }
  }

  /** An id that no record has keeps its entry. */
  lemma {:induction false} MapRecordsUntouched(m: map<string, Project>, pages: seq<Page>, id: string)
    requires id in m && forall i :: 0 <= i < |pages| ==> pages[i].id != id
    ensures id in MapRecords(m, pages) && MapRecords(m, pages)[id] == m[id]
    decreases |pages|
  {
    if pages != [] {
      assert forall i :: 0 <= i < |pages[1..]| ==> pages[1..][i] == pages[i + 1];
      MapRecordsUntouched(m[pages[0].id := ProjectOf(pages[0])], pages[1..], id);
    }
  }

  /** The last record with an id decides that id's entry. */
  lemma {:induction false} MapRecordsLast(m: map<string, Project>, pages: seq<Page>, i: nat)
    requires i < |pages| && forall j :: i < j < |pages| ==> pages[j].id != pages[i].id
    ensures pages[i].id in MapRecords(m, pages) && MapRecords(m, pages)[pages[i].id] == ProjectOf(pages[i])
    decreases |pages|
  {
    var m' := m[pages[0].id := ProjectOf(pages[0])];
    assert forall j :: 0 <= j < |pages[1..]| ==> pages[1..][j] == pages[j + 1];
    if i == 0 {
      MapRecordsUntouched(m', pages[1..], pages[0].id);
    } else {
      MapRecordsLast(m', pages[1..], i - 1);
    }
  }

  // ---------------------------------------------------------------------
  // Row assembly
  // ---------------------------------------------------------------------

  /** `obj.get("start")` on a decoded value: a date object answers with its
      start; a string raises (`None` here). */
  function StartOf(v: Value): Option<Option<string>> {
    match v
    case DateV(d) => Some(d.start)
    case Str(_) => None
  }

  datatype Dates = Dates(inicio: Option<string>, fim: Option<string>)

  /** The start and end of a task from its "Data Inicio" (`ini`) and "Data
      Entrega" (`ent`) values: start is the start of "Data Inicio", else the
      start of "Data Entrega", else `None`; end is the start of "Data
      Entrega", else the start. A column holding text instead of a date
      raises (`None` here). */
  function ResolveDates(ini: Option<Value>, ent: Option<Value>): (r: Option<Dates>)
    ensures r.None? <==> IsText(ini) || IsText(ent)
    ensures r.Some? ==>
              r.value.inicio == (if IsDate(ini) then ini.value.date.start
                                 else if IsDate(ent) then ent.value.date.start
                                 else None)
    ensures r.Some? ==> r.value.fim == (if IsDate(ent) then ent.value.date.start else r.value.inicio)
  {
    var inicio :=
      if Truthy(ini) then StartOf(ini.value)
      else if Truthy(ent) then StartOf(ent.value)
      else Some(None);
    var fim := if Truthy(ent) then StartOf(ent.value) else inicio;
    if inicio.None? || fim.None? then None else Some(Dates(inicio.value, fim.value))
  }

  /** The project and area of a task from its "Projeto" value (`pid`) and its
      own "Área" value: a non-empty id present in the map gives that
      project's name and area; otherwise the task is "Avulso" in its own area
      or "Geral". A date object as id raises (it cannot be a map key). */
  function JoinProject(pid: Option<Value>, ownArea: Option<Value>, projects: map<string, Project>): (r: Option<Project>)
    ensures r.None? <==> IsDate(pid)
    ensures IsText(pid) && pid.value.s in projects ==> r == Some(projects[pid.value.s])
    ensures !IsDate(pid) && !(IsText(pid) && pid.value.s in projects) ==>
              r == Some(Project("Avulso", PyStr(OrElse(ownArea, "Geral"))))
  {
    if Truthy(pid) && pid.value.DateV? then None
    else if Truthy(pid) && pid.value.s in projects then Some(projects[pid.value.s])
    else Some(Project("Avulso", PyStr(OrElse(ownArea, "Geral"))))
  }

  /** The keyword test of the status normalisation on a lower-cased status. */
  predicate SaysDone(l: string) {
    Contains(l, "conclu") || Contains(l, "done")
  }

  predicate SaysInProgress(l: string) {
    Contains(l, "andamento") || Contains(l, "aprov")
  }

  predicate SaysBlocked(l: string) {
    Contains(l, "cancel") || Contains(l, "stand")
  }

  /** Status normalisation: the lower-cased status is Done when it contains
      "conclu" or "done"; otherwise In Progress when it contains "andamento"
      or "aprov"; otherwise Blocked when it contains "cancel" or "stand";
      otherwise Not Started. */
  function Normalize(status: string): (r: Canonical)
    ensures r == Done <==> SaysDone(Lower(status))
    ensures r == InProgress <==> !SaysDone(Lower(status)) && SaysInProgress(Lower(status))
    ensures r == Blocked <==>
              !SaysDone(Lower(status)) && !SaysInProgress(Lower(status)) && SaysBlocked(Lower(status))
    ensures r == NotStarted <==>
              !SaysDone(Lower(status)) && !SaysInProgress(Lower(status)) && !SaysBlocked(Lower(status))
  {
    var l := Lower(status);
    if SaysDone(l) then Done
    else if SaysInProgress(l) then InProgress
    else if SaysBlocked(l) then Blocked
    else NotStarted
  }

  /** Casing never matters to the normalisation. */
  lemma NormalizeIgnoresCase(status: string)
    ensures Normalize(Lower(status)) == Normalize(status)
  {
    LowerIdempotent(status);
  }

  /** `safe_get(page, "Status") or "Não Iniciado"`. */
  function RawStatus(page: Page): Value {
    OrElse(SafeGet(page, "Status"), "Não Iniciado")
  }

  /** `safe_get(page, "Observação") or ""`. */
  function NoteColumn(page: Page): string {
    PyStr(OrElse(SafeGet(page, "Observação"), ""))
  }

  /** One task row from a record, its comment log and the project map:
      `None` when reading the record raises (a text value in a date column,
      a date object as project id), which ends the task loop. */
  function BuildRow(page: Page, projects: map<string, Project>, log: string): (r: Option<Row>)
    ensures r.None? <==>
              IsText(SafeGet(page, "Data Inicio")) || IsText(SafeGet(page, "Data Entrega"))
              || IsDate(SafeGet(page, "Projeto"))
    ensures r.Some? ==> r.value.pageId == page.id && r.value.statusOriginal.None?
    ensures r.Some? ==> LabelOf(r.value.status) == Some(Normalize(PyStr(RawStatus(page))))
    ensures r.Some? ==> r.value.observacao == (if log != "" then log else NoteColumn(page))
    ensures r.Some? ==> r.value.tarefa == PyStr(OrElse(SafeGet(page, "Tarefa"), "Sem Nome"))
    ensures r.Some? ==> r.value.responsavel == PyStr(OrElse(SafeGet(page, "Responsável"), "Time"))
    ensures r.Some? ==>
              Dates(r.value.inicio, r.value.fim) == ResolveDates(SafeGet(page, "Data Inicio"), SafeGet(page, "Data Entrega")).value
    ensures r.Some? ==>
              Project(r.value.projeto, r.value.area) == JoinProject(SafeGet(page, "Projeto"), SafeGet(page, "Área"), projects).value
  {
    var dates := ResolveDates(SafeGet(page, "Data Inicio"), SafeGet(page, "Data Entrega"));
    var project := JoinProject(SafeGet(page, "Projeto"), SafeGet(page, "Área"), projects);
    if dates.None? || project.None? then None
    else
      var status := Normalize(PyStr(RawStatus(page)));
      LabelOfLabel(status);
      Some(Row(
        pageId := page.id,
        area := project.value.area,
        projeto := project.value.name,
        tarefa := PyStr(OrElse(SafeGet(page, "Tarefa"), "Sem Nome")),
        responsavel := PyStr(OrElse(SafeGet(page, "Responsável"), "Time")),
        inicio := dates.value.inicio,
        fim := dates.value.fim,
        status := Label(status),
        statusOriginal := None,
        observacao := if log != "" then log else NoteColumn(page)))
  }

  // ---------------------------------------------------------------------
  // buscar_tarefas: the paginated task loop
  // ---------------------------------------------------------------------

  /** How a row is made from a record and its comment log; the loop below
      does not depend on it. */
  type Builder = (Page, string) -> Option<Row>

  /** The row assembly of the task loop, against a fixed project map. */
  function RowsAgainst(projects: map<string, Project>): Builder {
    (page: Page, log: string) => BuildRow(page, projects, log)
  }

  /** The rows of one batch, the cache afterwards, and whether a record
      raised (which breaks out of the whole loop). */
  datatype BatchRun = BatchRun(rows: seq<Row>, cache: Cache, broke: bool)

  /** The inner loop over one batch: fetch the comment log (updating the
      cache), then assemble the row; a record that raises ends the batch. */
  function TaskBatch(pages: seq<Page>, build: Builder, remote: Remote, cache: Cache): (r: BatchRun)
    ensures |r.rows| <= |pages|
    ensures !r.broke ==> |r.rows| == |pages|
    decreases |pages|
  {
    if pages == [] then BatchRun([], cache, false)
    else
      var step := CommentLog(ProjectsNaming, remote.users, cache, remote.threads(pages[0].id));
      match build(pages[0], step.log)
      case None => BatchRun([], step.cache, true)
      case Some(row) =>
        var rest := TaskBatch(pages[1..], build, remote, step.cache);
        BatchRun([row] + rest.rows, rest.cache, rest.broke)
  }

  /** The rows and the cache after the task loop. */
  datatype TaskRun = TaskRun(rows: seq<Row>, cache: Cache)

  /** `buscar_tarefas`: batch after batch while `has_more`; a failed query or
      a record that raises stops the loop, keeping the rows already made. */
  function FetchTasks(rs: seq<Response>, build: Builder, remote: Remote, cache: Cache): (r: TaskRun)
    ensures |r.rows| <= |Served(rs)|
    decreases |rs|
  {
    if rs == [] then TaskRun([], cache)
    else match rs[0]
      case QueryError(_) => TaskRun([], cache)
      case Batch(results, more) =>
        var b := TaskBatch(results, build, remote, cache);
        if b.broke || !more then TaskRun(b.rows, b.cache)
        else
          var rest := FetchTasks(rs[1..], build, remote, b.cache);
          TaskRun(b.rows + rest.rows, rest.cache)
  }

  // ---------------------------------------------------------------------
  // The same loop without pages or cache
  // ---------------------------------------------------------------------

  /** The row a record yields, with the uncached comment log. */
  function SpecRow(page: Page, build: Builder, remote: Remote): Option<Row> {
    build(page, SpecLog(ProjectsNaming, remote.users, remote.threads(page.id)))
  }

  /** One row per record, in order, up to the first record that raises. */
  function SpecRows(pages: seq<Page>, build: Builder, remote: Remote): seq<Row>
    decreases |pages|
  {
    if pages == [] then []
    else match SpecRow(pages[0], build, remote)
      case None => []
      case Some(row) => [row] + SpecRows(pages[1..], build, remote)
  }

  predicate AllBuild(pages: seq<Page>, build: Builder, remote: Remote) {
    forall k :: 0 <= k < |pages| ==> SpecRow(pages[k], build, remote).Some?
  }

  /** The rows are the records' rows in record order, cut just before the
      first record that raises. */
  lemma {:induction false} SpecRowsShape(pages: seq<Page>, build: Builder, remote: Remote)
    ensures var rows := SpecRows(pages, build, remote);
            && |rows| <= |pages|
            && (forall k :: 0 <= k < |rows| ==> SpecRow(pages[k], build, remote) == Some(rows[k]))
            && (|rows| < |pages| ==> SpecRow(pages[|rows|], build, remote).None?)
            && (|rows| == |pages| <==> AllBuild(pages, build, remote))
    decreases |pages|
  {
    if pages != [] {
      SpecRowsShape(pages[1..], build, remote);
      assert forall k :: 1 <= k < |pages| ==> pages[k] == pages[1..][k - 1];
    }
  }

  lemma {:induction false} SpecRowsConcat(a: seq<Page>, b: seq<Page>, build: Builder, remote: Remote)
    ensures SpecRows(a + b, build, remote) ==
              if AllBuild(a, build, remote) then SpecRows(a, build, remote) + SpecRows(b, build, remote)
              else SpecRows(a, build, remote)
    decreases |a|
  {
    if a == [] {
      assert a + b == b;
    } else {
      assert (a + b)[0] == a[0];
      assert (a + b)[1..] == a[1..] + b;
      SpecRowsConcat(a[1..], b, build, remote);
      assert forall k :: 1 <= k < |a| ==> a[k] == a[1..][k - 1];
    }
  }

  lemma {:induction false} TaskBatchSpec(pages: seq<Page>, build: Builder, remote: Remote, cache: Cache)
    requires Consistent(ProjectsNaming, remote.users, cache)
    ensures TaskBatch(pages, build, remote, cache).rows == SpecRows(pages, build, remote)
    ensures TaskBatch(pages, build, remote, cache).broke == !AllBuild(pages, build, remote)
    ensures Consistent(ProjectsNaming, remote.users, TaskBatch(pages, build, remote, cache).cache)
    decreases |pages|
  {
    if pages != [] {
      var step := CommentLog(ProjectsNaming, remote.users, cache, remote.threads(pages[0].id));
      CommentLogTransparent(ProjectsNaming, remote.users, cache, remote.threads(pages[0].id));
      TaskBatchSpec(pages[1..], build, remote, step.cache);
      assert forall k :: 1 <= k < |pages| ==> pages[k] == pages[1..][k - 1];
    }
  }

  /** The task loop yields, in order, the row of every record it was served
      up to the first record that raises; the user cache changes none of
      them and stays consistent. */
  lemma {:induction false} FetchTasksSpec(rs: seq<Response>, build: Builder, remote: Remote, cache: Cache)
    requires Consistent(ProjectsNaming, remote.users, cache)
    ensures FetchTasks(rs, build, remote, cache).rows == SpecRows(Served(rs), build, remote)
    ensures Consistent(ProjectsNaming, remote.users, FetchTasks(rs, build, remote, cache).cache)
    decreases |rs|
  {
    if rs != [] && rs[0].Batch? {
      var results := rs[0].results;
      var b := TaskBatch(results, build, remote, cache);
      TaskBatchSpec(results, build, remote, cache);
      if rs[0].hasMore {
        SpecRowsConcat(results, Served(rs[1..]), build, remote);
        if !b.broke {
          FetchTasksSpec(rs[1..], build, remote, b.cache);
        }
      } else {
        assert Served(rs) == results + [];
        assert results + [] == results;
      }
    }
  }

  // ---------------------------------------------------------------------
  // rodar_sincronizacao
  // ---------------------------------------------------------------------

  /** `fillna(today)` on the two date columns. */
  function Fill(row: Row, today: string): (r: Row)
    ensures r.inicio.Some? && r.fim.Some?
    ensures r.inicio == Some(row.inicio.GetOr(today)) && r.fim == Some(row.fim.GetOr(today))
    ensures r.(inicio := row.inicio, fim := row.fim) == row
  {
    row.(inicio := Some(row.inicio.GetOr(today)), fim := Some(row.fim.GetOr(today)))
  }

  function FillAll(rows: seq<Row>, today: string): (r: seq<Row>)
    ensures |r| == |rows|
    ensures forall k :: 0 <= k < |rows| ==> r[k] == Fill(rows[k], today)
  {
    if rows == [] then [] else [Fill(rows[0], today)] + FillAll(rows[1..], today)
  }

  /** `rodar_sincronizacao`: map the projects, run the task loop; no rows
      gives `(False, "0 tarefas")` and writes nothing; otherwise the rows,
      with missing dates set to `today`, replace the table. */
  function Sync(projectRs: seq<Response>, taskRs: seq<Response>, remote: Remote, cache: Cache, today: string): (r: SyncResult)
    ensures r.ok <==> r.snapshot.Some?
    ensures !r.ok ==> r.message == "0 tarefas"
    ensures r.ok ==> r.message == NatToString(|r.snapshot.value|) + " tarefas atualizadas."
    ensures r.ok ==> |r.snapshot.value| > 0
    ensures r.ok ==> forall k :: 0 <= k < |r.snapshot.value| ==>
              r.snapshot.value[k].inicio.Some? && r.snapshot.value[k].fim.Some?
  {
    var projects := MapProjects(projectRs, map[]);
    var run := FetchTasks(taskRs, RowsAgainst(projects), remote, cache);
    if run.rows == [] then SyncResult(false, "0 tarefas", None, run.cache)
    else
      var table := FillAll(run.rows, today);
      SyncResult(true, NatToString(|table|) + " tarefas atualizadas.", Some(table), run.cache)
  }

  /** The sync over the reference rows, with no pages and no cache: the
      table holds one row per served
      task record, in order, up to the first record that raises, each joined
      against the map of every served project record; it succeeds exactly
      when there is at least one such row. */
  lemma SyncSpec(projectRs: seq<Response>, taskRs: seq<Response>, remote: Remote, cache: Cache, today: string)
    requires Consistent(ProjectsNaming, remote.users, cache)
    ensures var rows := SpecRows(Served(taskRs), RowsAgainst(MapRecords(map[], Served(projectRs))), remote);
            var r := Sync(projectRs, taskRs, remote, cache, today);
            && (r.ok <==> rows != [])
            && (r.ok ==> r.snapshot.value == FillAll(rows, today))
            && Consistent(ProjectsNaming, remote.users, r.cache)
  {
    MapProjectsServed(projectRs, map[]);
    FetchTasksSpec(taskRs, RowsAgainst(MapRecords(map[], Served(projectRs))), remote, cache);
  }

  /** A task with no date at all gets today as both start and end; a task
      without a "Data Entrega" date ends when it starts. */
  lemma FilledDates(page: Page, projects: map<string, Project>, log: string, today: string)
    requires BuildRow(page, projects, log).Some?
    ensures var row := Fill(BuildRow(page, projects, log).value, today);
            && (!IsDate(SafeGet(page, "Data Inicio")) && !IsDate(SafeGet(page, "Data Entrega")) ==>
                  row.inicio == Some(today) && row.fim == Some(today))
            && (!IsDate(SafeGet(page, "Data Entrega")) ==> row.fim == row.inicio)
  {
    var built := BuildRow(page, projects, log).value;
    var d := ResolveDates(SafeGet(page, "Data Inicio"), SafeGet(page, "Data Entrega")).value;
    assert built.inicio == d.inicio && built.fim == d.fim;
  }

  // ---------------------------------------------------------------------
  // atualizar_tarefa_notion
  // ---------------------------------------------------------------------

  /** The record's own status label for each canonical status. */
  function Native(c: Canonical): string {
    match c
    case Done => "Concluída"
    case InProgress => "Em andamento"
    case NotStarted => "Não iniciado"
    case Blocked => "Stand By"
  }

  /** `mapa.get(value, value)`: a canonical label becomes the native label,
      anything else passes through unchanged. */
  function ReverseStatus(v: string): (r: string)
    ensures LabelOf(v).Some? ==> r == Native(LabelOf(v).value)
    ensures LabelOf(v).None? ==> r == v
  {
    match LabelOf(v)
    case Some(c) => Native(c)
    case None => v
  }

  /** The write-back of one edited cell: "Observacao" overwrites the
      "Observação" rich text, "Status" writes the native label as a select;
      any other column sends nothing and answers `(False, "Campo inv")`.
      `failure` is the error the update call raises, if it does. */
  function WriteBack(column: string, value: string, failure: Option<string>): (r: WriteResult)
    ensures r.update.Some? <==> column == "Observacao" || column == "Status"
    ensures column == "Observacao" ==> r.update == Some(Update("Observação", RichTextValue(value)))
    ensures column == "Status" ==> r.update == Some(Update("Status", SelectValue(ReverseStatus(value))))
    ensures r.update.None? ==> !r.ok && r.message == "Campo inv"
    ensures r.update.Some? ==> (r.ok <==> failure.None?)
    ensures r.update.Some? ==> r.message == (if failure.None? then "Ok" else failure.value)
    ensures r.commented.None?
  {
    var update :=
      if column == "Observacao" then Some(Update("Observação", RichTextValue(value)))
      else if column == "Status" then Some(Update("Status", SelectValue(ReverseStatus(value))))
      else None;
    match update
    case None => WriteResult(false, "Campo inv", None, None)
    case Some(u) =>
      match failure
      case None => WriteResult(true, "Ok", None, Some(u))
      case Some(e) => WriteResult(false, e, None, Some(u))
  }

  // ---------------------------------------------------------------------
  // The status round trip
  // ---------------------------------------------------------------------

  lemma LowerConcluida() ensures Lower("Concluída") == "concluída" {
    var s, t := "Concluída", "concluída";
    forall i | 0 <= i < |s| ensures LowerChar(s[i]) == t[i] {
    }
    LowerOf(s, t);
  }

  lemma NativeDone() ensures Normalize(Native(Done)) == Done {
    LowerConcluida();
    Present("concluída", "conclu", 0);
  }

  lemma LowerEmAndamento() ensures Lower("Em andamento") == "em andamento" {
    var s, t := "Em andamento", "em andamento";
    forall i | 0 <= i < |s| ensures LowerChar(s[i]) == t[i] {
    }
    LowerOf(s, t);
  }

  lemma EmAndamentoWords() ensures !SaysDone("em andamento") && SaysInProgress("em andamento") {
    Absent("em andamento", "conclu");
    Absent("em andamento", "done");
    Present("em andamento", "andamento", 3);
  }

  lemma NativeInProgress() ensures Normalize(Native(InProgress)) == InProgress {
    LowerEmAndamento();
    EmAndamentoWords();
  }

  lemma LowerNaoIniciado() ensures Lower("Não iniciado") == "não iniciado" {
    var s, t := "Não iniciado", "não iniciado";
    forall i | 0 <= i < |s| ensures LowerChar(s[i]) == t[i] {
    }
    LowerOf(s, t);
  }

  lemma NaoIniciadoNotDone() ensures !SaysDone("não iniciado") {
    Absent("não iniciado", "conclu");
    Absent("não iniciado", "done");
  }

  lemma NaoIniciadoNotInProgress() ensures !SaysInProgress("não iniciado") {
    Absent("não iniciado", "andamento");
    Absent("não iniciado", "aprov");
  }

  lemma NaoIniciadoNotBlocked() ensures !SaysBlocked("não iniciado") {
    Absent("não iniciado", "cancel");
    Absent("não iniciado", "stand");
  }

  lemma NaoIniciadoWords()
    ensures !SaysDone("não iniciado") && !SaysInProgress("não iniciado") && !SaysBlocked("não iniciado")
  {
    NaoIniciadoNotDone();
    NaoIniciadoNotInProgress();
    NaoIniciadoNotBlocked();
  }

  lemma NativeNotStarted() ensures Normalize(Native(NotStarted)) == NotStarted {
    LowerNaoIniciado();
    NaoIniciadoWords();
  }

  lemma LowerStandBy() ensures Lower("Stand By") == "stand by" {
    var s, t := "Stand By", "stand by";
    forall i | 0 <= i < |s| ensures LowerChar(s[i]) == t[i] {
    }
    LowerOf(s, t);
  }

  lemma StandByWords()
    ensures !SaysDone("stand by") && !SaysInProgress("stand by") && SaysBlocked("stand by")
  {
    Absent("stand by", "conclu");
    Absent("stand by", "done");
    Absent("stand by", "andamento");
    Absent("stand by", "aprov");
    Present("stand by", "stand", 0);
  }

  lemma NativeBlocked() ensures Normalize(Native(Blocked)) == Blocked {
    LowerStandBy();
    StandByWords();
  }

  /** Every native label normalises back to the canonical status it stands for. */
  lemma NativeRoundTrip(c: Canonical)
    ensures Normalize(Native(c)) == c
  {
    match c
    case Done => NativeDone();
    case InProgress => NativeInProgress();
    case NotStarted => NativeNotStarted();
    case Blocked => NativeBlocked();
  }

  /** Writing a status through the reverse map and normalising it again
      gives the canonical status back; an unmapped value normalises as it
      is. */
  lemma ReverseThenNormalize(v: string)
    ensures LabelOf(v).Some? ==> Normalize(ReverseStatus(v)) == LabelOf(v).value
    ensures LabelOf(v).None? ==> Normalize(ReverseStatus(v)) == Normalize(v)
  {
    if LabelOf(v).Some? {
      NativeRoundTrip(LabelOf(v).value);
    }
  }

  lemma LowerBloqueado() ensures Lower("Bloqueado") == "bloqueado" {
    var s, t := "Bloqueado", "bloqueado";
    forall i | 0 <= i < |s| ensures LowerChar(s[i]) == t[i] {
    }
    LowerOf(s, t);
  }

  lemma BloqueadoNotDone() ensures !SaysDone("bloqueado") {
    Absent("bloqueado", "conclu");
    Absent("bloqueado", "done");
  }

  lemma BloqueadoNotInProgress() ensures !SaysInProgress("bloqueado") {
    Absent("bloqueado", "andamento");
    Absent("bloqueado", "aprov");
  }

  lemma BloqueadoNotBlocked() ensures !SaysBlocked("bloqueado") {
    Absent("bloqueado", "cancel");
    Absent("bloqueado", "stand");
  }

  lemma BloqueadoWords()
    ensures !SaysDone("bloqueado") && !SaysInProgress("bloqueado") && !SaysBlocked("bloqueado")
  {
    BloqueadoNotDone();
    BloqueadoNotInProgress();
    BloqueadoNotBlocked();
  }

  /** Without the reverse map, "Bloqueado" written verbatim would read back
      as Not Started: it contains none of the keywords. */
  lemma BlockedLabelNeedsMap()
    ensures Normalize(Label(Blocked)) == NotStarted
  {
    LowerBloqueado();
    BloqueadoWords();
  }

  /** The raw status read back from a record whose "Status" holds the
      payload written for a canonical label is that label's native name. */
  lemma WrittenStatusReads(c: Canonical, page: Page)
    requires page.properties.Some?
    requires var bag := page.properties.value;
             FindKey(bag, "Status").Some?
             && bag[FindKey(bag, "Status").value].1 == Applied(WriteBack("Status", Label(c), None).update.value.payload)
    ensures PyStr(RawStatus(page)) == Native(c)
  {
    LabelOfLabel(c);
    var bag := page.properties.value;
    var i := FindKey(bag, "Status").value;
    assert ReverseStatus(Label(c)) == Native(c);
    assert bag[i].1 == Select(Some(Choice(Some(Native(c)))));
    assert SafeGet(page, "Status") == Some(Str(Native(c)));
  }

  /** The full round trip: once the remote stores the payload written for a
      canonical status under "Status", the next forward sync reads that
      record's status back as the same canonical status. */
  lemma StatusRoundTrip(c: Canonical, page: Page, projects: map<string, Project>, log: string)
    requires page.properties.Some?
    requires var bag := page.properties.value;
             FindKey(bag, "Status").Some?
             && bag[FindKey(bag, "Status").value].1 == Applied(WriteBack("Status", Label(c), None).update.value.payload)
    requires BuildRow(page, projects, log).Some?
    ensures BuildRow(page, projects, log).value.status == Label(c)
  {
    WrittenStatusReads(c, page);
    NativeRoundTrip(c);
    var row := BuildRow(page, projects, log).value;
    assert LabelOf(row.status) == Some(c);
  }
}
