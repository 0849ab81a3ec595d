/** The demands synchronisation script (`sync_notion_demandas.py`): the
    case-insensitive property decoder with its per-kind defaults, the demand
    row with its fallback column names, date window and merged observation,
    the all-or-nothing paginated sync, and the write-back that prefers a
    comment. */
module SyncDemandas {
  import opened Base
  import opened Text
  import opened Notion
  import opened Comments
  import SyncNotion

  // ---------------------------------------------------------------------
  // safe_get
  // ---------------------------------------------------------------------

  /** The first fragment's text, or `empty` for no fragment; `None` when that
      fragment has no `plain_text`. */
  function FirstText(fs: seq<Fragment>, empty: string): (r: Option<Value>)
    ensures fs == [] ==> r == Some(Str(empty))
    ensures fs != [] ==> (r.Some? <==> fs[0].plainText.Some?)
    ensures fs != [] && r.Some? ==> r.value == Str(fs[0].plainText.value)
  {
    if fs == [] then Some(Str(empty))
    else match fs[0].plainText
      case None => None
      case Some(t) => Some(Str(t))
  }

  /** The option's name, or `empty` for no option; `None` when the option
      has no name. */
  function ChoiceText(c: Option<Choice>, empty: string): (r: Option<Value>)
    ensures c.None? ==> r == Some(Str(empty))
    ensures c.Some? ==> (r.Some? <==> c.value.name.Some?)
    ensures c.Some? && r.Some? ==> r.value == Str(c.value.name.value)
  {
    match c
    case None => Some(Str(empty))
    case Some(Choice(n)) => if n.None? then None else Some(Str(n.value))
  }

  /** `p.get("name", "User")` for each listed person. */
  function PeopleNames(ps: seq<Person>): (r: seq<string>)
    ensures |r| == |ps|
    ensures forall k :: 0 <= k < |ps| ==> r[k] == ps[k].name.GetOr("User")
  {
    if ps == [] then [] else [ps[0].name.GetOr("User")] + PeopleNames(ps[1..])
  }

  /** The decoding rule per declared kind, each kind with its own default for
      an empty payload: a title gives "Sem Título", rich text `""`, a select
      "Geral", a status "Não Iniciado", a multi-select `""`, a people list
      "Time", a date `None`. A relation always gives "Relacionado", whatever
      its payload. A missing name or text raises inside the decoder and
      gives `None`, as does any other kind. */
  function Decode(p: Prop): (r: Option<Value>)
    ensures p.Title? ==> r == FirstText(p.title, "Sem Título")
    ensures p.RichText? ==> r == FirstText(p.richText, "")
    ensures p.Select? ==> r == ChoiceText(p.select, "Geral")
    ensures p.Status? ==> r == ChoiceText(p.status, "Não Iniciado")
    ensures p.MultiSelect? ==> (r.Some? <==> ChoiceNames(p.options).Some?)
    ensures p.MultiSelect? && r.Some? ==> r.value == Str(Join(ChoiceNames(p.options).value, ", "))
    ensures p.People? ==> r == Some(Str(if p.people == [] then "Time" else Join(PeopleNames(p.people), ", ")))
    ensures p.Date? ==> (r.Some? <==> p.date.Some?)
    ensures p.Date? && r.Some? ==> r.value == DateV(p.date.value)
    ensures p.Relation? || (p.Malformed? && p.kind == "relation") ==> r == Some(Str("Relacionado"))
    ensures p.OtherKind? || (p.Malformed? && p.kind != "relation") ==> r.None?
  {
    match p
    case Title(fs) => FirstText(fs, "Sem Título")
    case RichText(fs) => FirstText(fs, "")
    case Select(c) => ChoiceText(c, "Geral")
    case Status(c) => ChoiceText(c, "Não Iniciado")
    case MultiSelect(items) =>
      (match ChoiceNames(items)
       case None => None
       case Some(names) => Some(Str(Join(names, ", "))))
    case Date(d) => if d.None? then None else Some(DateV(d.value))
    case People(ps) => Some(Str(if ps == [] then "Time" else Join(PeopleNames(ps), ", ")))
    case Relation(_) => Some(Str("Relacionado"))
    case OtherKind => None
    case Malformed(kind) => if kind == "relation" then Some(Str("Relacionado")) else None
  }

  /** `safe_get`: the property whose name matches `name` ignoring case, the
      first such in key order; `None` when the record has no property bag,
      no key matches, or the matching key is the empty string. */
  function SafeGet(page: Page, name: string): (r: Option<Value>)
    ensures page.properties.None? ==> r.None?
    ensures page.properties.Some? && FindKeyFolded(page.properties.value, name).None? ==> r.None?
    ensures page.properties.Some? && FindKeyFolded(page.properties.value, name).Some? ==>
              var entry := page.properties.value[FindKeyFolded(page.properties.value, name).value];
              r == if entry.0 == "" then None else Decode(entry.1)
  {
    match page.properties
    case None => None
    case Some(bag) =>
      match FindKeyFolded(bag, name)
      case None => None
      case Some(i) => if bag[i].0 == "" then None else Decode(bag[i].1)
  }

  /** Where the projects-and-tasks decoder yields a value, this one yields
      the same, except for a relation (which only the former resolves to its
      target id) and an empty title (`""` there, "Sem Título" here); the two
      otherwise differ only in the defaults this one supplies. */
  lemma DecodersAgree(p: Prop)
    requires !p.Relation? && !(p.Title? && p.title == [])
    requires SyncNotion.Decode(p).Some?
    ensures Decode(p) == SyncNotion.Decode(p)
  {
  }

  /** A key spelled exactly as asked is found by this lookup too, unless an
      earlier key differs from it only in case. */
  lemma SafeGetExactKey(page: Page, name: string)
    requires name != "" && page.properties.Some?
    requires var bag := page.properties.value;
             FindKey(bag, name).Some?
             && forall j :: 0 <= j < FindKey(bag, name).value ==> Lower(bag[j].0) != Lower(name)
    ensures SafeGet(page, name) == Decode(page.properties.value[FindKey(page.properties.value, name).value].1)
  {
    FoldedFindsExact(page.properties.value, name);
  }

  // ---------------------------------------------------------------------
  // The demand row
  // ---------------------------------------------------------------------

  /** A string that Python counts as true. */
  predicate Filled(o: Option<string>) {
    o.Some? && o.value != ""
  }

  /** The start and end written for a demand. */
  datatype Window = Window(inicio: string, fim: string)

  /** The date window from the first truthy of the "Data", "Prazo" and
      "Timeline" values (`d`): with no date object both ends are today; the
      start is the object's start, else today; the end is the object's end,
      else the start. A non-empty text value raises (`None` here). */
  function DateWindow(d: Option<Value>, today: string): (r: Option<Window>)
    ensures r.None? <==> IsText(d)
    ensures r.Some? && !IsDate(d) ==> r.value == Window(today, today)
    ensures r.Some? && IsDate(d) ==>
              r.value.inicio == (if Filled(d.value.date.start) then d.value.date.start.value else today)
    ensures r.Some? && IsDate(d) ==>
              r.value.fim == (if Filled(d.value.date.end) then d.value.date.end.value else r.value.inicio)
    ensures r.Some? && today != "" ==> r.value.inicio != "" && r.value.fim != ""
  {
    if !Truthy(d) then Some(Window(today, today))
    else match d.value
      case Str(_) => None
      case DateV(o) =>
        // `fim = end or start`, then an empty start becomes today and an
        // empty end becomes the start.
        var start := o.start.GetOr("");
        var fim := if Filled(o.end) then o.end.value else start;
        var inicio := if start != "" then start else today;
        Some(Window(inicio, if fim != "" then fim else inicio))
  }

  /** The window of a record: "Data" decides it when truthy, then
      "Prazo", then "Timeline"; with none of them truthy the window is
      today alone. */
  function WindowOf(page: Page, today: string): (r: Option<Window>)
    ensures Truthy(SafeGet(page, "Data")) ==> r == DateWindow(SafeGet(page, "Data"), today)
    ensures !Truthy(SafeGet(page, "Data")) && Truthy(SafeGet(page, "Prazo")) ==>
              r == DateWindow(SafeGet(page, "Prazo"), today)
    ensures !Truthy(SafeGet(page, "Data")) && !Truthy(SafeGet(page, "Prazo")) && Truthy(SafeGet(page, "Timeline")) ==>
              r == DateWindow(SafeGet(page, "Timeline"), today)
    ensures !Truthy(SafeGet(page, "Data")) && !Truthy(SafeGet(page, "Prazo")) && !Truthy(SafeGet(page, "Timeline")) ==>
              r == Some(Window(today, today))
  {
    var data, prazo, timeline := SafeGet(page, "Data"), SafeGet(page, "Prazo"), SafeGet(page, "Timeline");
    FirstTruthyOptOfThree(data, prazo, timeline);
    DateWindow(FirstTruthyOpt([data, prazo, timeline]), today)
  }

  /** The observation cell: the comment log and a newline when there is a
      log, then the fixed note with its "(Nota Fixa): " marker when there is
      a note. */
  function Merge(log: string, note: string): (r: string)
    ensures r == "" <==> log == "" && note == ""
    ensures log != "" ==> |r| > |log| && r[..|log| + 1] == log + "\n"
    ensures note == "" ==> r == (if log == "" then "" else log + "\n")
    ensures note != "" ==> |r| >= |note| && r[|r| - |note|..] == note
    ensures note != "" ==> r == (if log == "" then "" else log + "\n") + "(Nota Fixa): " + note
  {
    var head := if log != "" then log + "\n" else "";
    var tail := if note != "" then "(Nota Fixa): " + note else "";
    head + tail
  }

  /** The keyword tests of this script's status normalisation, on the
      lower-cased status. */
  predicate SaysDone(l: string) {
    Contains(l, "conclu") || Contains(l, "done") || Contains(l, "final")
  }

  predicate SaysNotStarted(l: string) {
    Contains(l, "não") || Contains(l, "to do") || Contains(l, "backlog")
  }

  predicate SaysBlocked(l: string) {
    Contains(l, "trav") || Contains(l, "block") || Contains(l, "risco")
  }

  /** Status normalisation: Done when the lower-cased status contains
      "conclu", "done" or "final"; otherwise Not Started for "não", "to do"
      or "backlog"; otherwise Blocked for "trav", "block" or "risco";
      otherwise In Progress. */
  function Normalize(status: string): (r: Canonical)
    ensures r == Done <==> SaysDone(Lower(status))
    ensures r == NotStarted <==> !SaysDone(Lower(status)) && SaysNotStarted(Lower(status))
    ensures r == Blocked <==>
              !SaysDone(Lower(status)) && !SaysNotStarted(Lower(status)) && SaysBlocked(Lower(status))
    ensures r == InProgress <==>
              !SaysDone(Lower(status)) && !SaysNotStarted(Lower(status)) && !SaysBlocked(Lower(status))
  {
    var l := Lower(status);
    if SaysDone(l) then Done
    else if SaysNotStarted(l) then NotStarted
    else if SaysBlocked(l) then Blocked
    else InProgress
  }

  /** Casing never matters to the normalisation. */
  lemma NormalizeIgnoresCase(status: string)
    ensures Normalize(Lower(status)) == Normalize(status)
  {
    LowerIdempotent(status);
  }

  /** `safe_get(page, "Status") or "Não Iniciado"`, as stored. */
  function StatusText(page: Page): string {
    PyStr(OrElse(SafeGet(page, "Status"), "Não Iniciado"))
  }

  /** One demand row from a record, its window and its comment log. Each
      text column takes the first truthy of its candidate names. */
  function DemandRow(page: Page, w: Window, log: string): (r: Row)
    ensures r.pageId == page.id
    ensures r.inicio == Some(w.inicio) && r.fim == Some(w.fim)
    ensures r.statusOriginal == Some(StatusText(page))
    ensures LabelOf(r.status) == Some(Normalize(StatusText(page)))
    ensures r.observacao == Merge(log, PyStr(OrElse(SafeGet(page, "Observação"), "")))
    ensures PicksFirst(r.tarefa, [SafeGet(page, "Tarefa"), SafeGet(page, "Name"), SafeGet(page, "Nome")], "Sem Nome")
    ensures PicksFirst(r.responsavel,
              [SafeGet(page, "Responsável"), SafeGet(page, "Assignee"), SafeGet(page, "Pessoa")], "Time")
    ensures PicksFirst(r.area, [SafeGet(page, "Área"), SafeGet(page, "Team")], "Geral")
    ensures PicksFirst(r.projeto, [SafeGet(page, "Projeto"), SafeGet(page, "Project")], "Avulso")
  {
    var status := StatusText(page);
    LabelOfLabel(Normalize(status));
    var areas := [SafeGet(page, "Área"), SafeGet(page, "Team")];
    var projetos := [SafeGet(page, "Projeto"), SafeGet(page, "Project")];
    var tarefas := [SafeGet(page, "Tarefa"), SafeGet(page, "Name"), SafeGet(page, "Nome")];
    var responsaveis := [SafeGet(page, "Responsável"), SafeGet(page, "Assignee"), SafeGet(page, "Pessoa")];
    FirstTruthyPicks(areas, "Geral");
    FirstTruthyPicks(projetos, "Avulso");
    FirstTruthyPicks(tarefas, "Sem Nome");
    FirstTruthyPicks(responsaveis, "Time");
    Row(
      pageId := page.id,
      area := PyStr(FirstTruthy(areas, "Geral")),
      projeto := PyStr(FirstTruthy(projetos, "Avulso")),
      tarefa := PyStr(FirstTruthy(tarefas, "Sem Nome")),
      responsavel := PyStr(FirstTruthy(responsaveis, "Time")),
      inicio := Some(w.inicio),
      fim := Some(w.fim),
      status := Label(Normalize(status)),
      statusOriginal := Some(status),
      observacao := Merge(log, PyStr(OrElse(SafeGet(page, "Observação"), ""))))
  }

  // ---------------------------------------------------------------------
  // rodar_sincronizacao: the all-or-nothing paginated loop
  // ---------------------------------------------------------------------

  /** The message of the error a text value in a date column raises. */
  const AttributeErrorMessage := "Erro: 'str' object has no attribute 'get'"

  /** How a record is read: its window (`None` when that raises), then its
      row from the window and the comment log. The loop below does not
      depend on either. */
  datatype Reader = Reader(window: Page -> Option<Window>, row: (Page, Window, string) -> Row)

  /** The reading of this script, with `today` standing in for a missing date. */
  function DemandReader(today: string): Reader {
    Reader((page: Page) => WindowOf(page, today), (page: Page, w: Window, log: string) => DemandRow(page, w, log))
  }

  /** The rows collected, or the `"Erro: ..."` message that aborted the sync. */
  datatype Outcome = Rows(rows: seq<Row>) | Failed(message: string)

  /** An outcome and the cache the process keeps afterwards. */
  datatype DemandRun = DemandRun(outcome: Outcome, cache: Cache)

  /** The loop over one batch: the window is read first (a record whose
      window raises aborts everything), then the comment log is fetched. */
  function DemandBatch(pages: seq<Page>, rd: Reader, remote: Remote, cache: Cache): (r: DemandRun)
    ensures r.outcome.Rows? ==> |r.outcome.rows| == |pages|
    decreases |pages|
  {
    if pages == [] then DemandRun(Rows([]), cache)
    else match rd.window(pages[0])
      case None => DemandRun(Failed(AttributeErrorMessage), cache)
      case Some(w) =>
        var step := CommentLog(DemandsNaming, remote.users, cache, remote.threads(pages[0].id));
        var row := rd.row(pages[0], w, step.log);
        var rest := DemandBatch(pages[1..], rd, remote, step.cache);
        match rest.outcome
        case Failed(_) => rest
        case Rows(rows) => DemandRun(Rows([row] + rows), rest.cache)
  }

  /** Batch after batch while `has_more`; a failed query aborts with its
      message. */
  function FetchDemands(rs: seq<Response>, rd: Reader, remote: Remote, cache: Cache): (r: DemandRun)
    ensures r.outcome.Rows? ==> |r.outcome.rows| == |Served(rs)|
    decreases |rs|
  {
    if rs == [] then DemandRun(Rows([]), cache)
    else match rs[0]
      case QueryError(m) => DemandRun(Failed("Erro: " + m), cache)
      case Batch(results, more) =>
        var b := DemandBatch(results, rd, remote, cache);
        if b.outcome.Failed? || !more then b
        else
          var rest := FetchDemands(rs[1..], rd, remote, b.cache);
          match rest.outcome
          case Failed(_) => rest
          case Rows(rows) => DemandRun(Rows(b.outcome.rows + rows), rest.cache)
  }

  /** `rodar_sincronizacao`: an aborted loop answers its error and writes
      nothing; no rows answers "Nenhuma tarefa encontrada no Banco de
      Dados."; otherwise every row replaces the table. */
  function Sync(rs: seq<Response>, remote: Remote, cache: Cache, today: string): (r: SyncResult)
    ensures var run := FetchDemands(rs, DemandReader(today), remote, cache);
            && (r.ok <==> run.outcome.Rows? && run.outcome.rows != [])
            && (r.ok ==> r.snapshot == Some(run.outcome.rows))
            && (run.outcome.Failed? ==> r.message == run.outcome.message)
            && (run.outcome == Rows([]) ==> r.message == "Nenhuma tarefa encontrada no Banco de Dados.")
    ensures r.ok <==> r.snapshot.Some?
    ensures r.ok ==> |r.snapshot.value| > 0
    ensures r.ok ==> r.message == "Sucesso! " + NatToString(|r.snapshot.value|) + " demandas sincronizadas."
  {
    var run := FetchDemands(rs, DemandReader(today), remote, cache);
    match run.outcome
    case Failed(m) => SyncResult(false, m, None, run.cache)
    case Rows(rows) =>
      if rows == [] then SyncResult(false, "Nenhuma tarefa encontrada no Banco de Dados.", None, run.cache)
      else SyncResult(true, "Sucesso! " + NatToString(|rows|) + " demandas sincronizadas.", Some(rows), run.cache)
  }

  // ---------------------------------------------------------------------
  // The same loop without pages or cache
  // ---------------------------------------------------------------------

  /** The row a record yields with the uncached comment log, or `None` when
      its window raises. */
  function SpecDemand(page: Page, rd: Reader, remote: Remote): Option<Row> {
    match rd.window(page)
    case None => None
    case Some(w) => Some(rd.row(page, w, SpecLog(DemandsNaming, remote.users, remote.threads(page.id))))
  }

  /** Every record's row in order, or `None` when any record raises. */
  function SpecDemands(pages: seq<Page>, rd: Reader, remote: Remote): (r: Option<seq<Row>>)
    ensures r.Some? <==> forall k :: 0 <= k < |pages| ==> SpecDemand(pages[k], rd, remote).Some?
    ensures r.Some? ==> |r.value| == |pages|
    ensures r.Some? ==> forall k :: 0 <= k < |pages| ==> Some(r.value[k]) == SpecDemand(pages[k], rd, remote)
    decreases |pages|
  {
    if pages == [] then Some([])
    else
      var rest := SpecDemands(pages[1..], rd, remote);
      assert forall k :: 1 <= k < |pages| ==> pages[k] == pages[1..][k - 1];
      match SpecDemand(pages[0], rd, remote)
      case None => None
      case Some(row) => if rest.None? then None else Some([row] + rest.value)
  }

  lemma {:induction false} SpecDemandsConcat(a: seq<Page>, b: seq<Page>, rd: Reader, remote: Remote)
    ensures SpecDemands(a + b, rd, remote) ==
              if SpecDemands(a, rd, remote).None? || SpecDemands(b, rd, remote).None? then None
              else Some(SpecDemands(a, rd, remote).value + SpecDemands(b, rd, remote).value)
    decreases |a|
  {
    if a == [] {
      assert a + b == b;
      assert SpecDemands(a, rd, remote) == Some([]);
      if SpecDemands(b, rd, remote).Some? {
        assert [] + SpecDemands(b, rd, remote).value == SpecDemands(b, rd, remote).value;
      }
    } else {
      assert (a + b)[0] == a[0];
      assert (a + b)[1..] == a[1..] + b;
      SpecDemandsConcat(a[1..], b, rd, remote);
      var rest := SpecDemands(a[1..] + b, rd, remote);
      match SpecDemand(a[0], rd, remote)
      case None =>
      case Some(row) =>
        assert SpecDemands(a + b, rd, remote) == if rest.None? then None else Some([row] + rest.value);
        if rest.Some? {
          assert [row] + rest.value == [row] + SpecDemands(a[1..], rd, remote).value + SpecDemands(b, rd, remote).value;
        }
    }
  }

  lemma {:induction false} DemandBatchSpec(pages: seq<Page>, rd: Reader, remote: Remote, cache: Cache)
    requires Consistent(DemandsNaming, remote.users, cache)
    ensures var run := DemandBatch(pages, rd, remote, cache);
            && run.outcome == (match SpecDemands(pages, rd, remote)
                               case None => Failed(AttributeErrorMessage)
                               case Some(rows) => Rows(rows))
            && Consistent(DemandsNaming, remote.users, run.cache)
    decreases |pages|
  {
    if pages != [] && rd.window(pages[0]).Some? {
      var step := CommentLog(DemandsNaming, remote.users, cache, remote.threads(pages[0].id));
      CommentLogTransparent(DemandsNaming, remote.users, cache, remote.threads(pages[0].id));
      DemandBatchSpec(pages[1..], rd, remote, step.cache);
    }
  }

  /** The sync is all or nothing: when any record it was served raises, it
      answers the attribute error; otherwise, when a query failed, it
      answers that query's error; otherwise it yields every served record's
      row in order. The user cache changes none of this and stays
      consistent. */
  lemma {:induction false} FetchDemandsSpec(rs: seq<Response>, rd: Reader, remote: Remote, cache: Cache)
    requires Consistent(DemandsNaming, remote.users, cache)
    ensures var run := FetchDemands(rs, rd, remote, cache);
            var spec := SpecDemands(Served(rs), rd, remote);
            && (spec.None? ==> run.outcome == Failed(AttributeErrorMessage))
            && (spec.Some? && Interrupted(rs) ==> run.outcome == Failed("Erro: " + InterruptMessage(rs)))
            && (spec.Some? && !Interrupted(rs) ==> run.outcome == Rows(spec.value))
            && Consistent(DemandsNaming, remote.users, run.cache)
    decreases |rs|
  {
    if rs != [] && rs[0].Batch? {
      var results := rs[0].results;
      var b := DemandBatch(results, rd, remote, cache);
      DemandBatchSpec(results, rd, remote, cache);
      if rs[0].hasMore {
        SpecDemandsConcat(results, Served(rs[1..]), rd, remote);
        if b.outcome.Rows? {
          FetchDemandsSpec(rs[1..], rd, remote, b.cache);
        }
      } else {
        assert Served(rs) == results + [];
        assert results + [] == results;
      }
    }
  }

  /** The sync over the reference rows, with no pages and no cache: it
      succeeds exactly when no query
      failed, no served record raised and at least one record was served,
      and then the table holds every served record's row in order. */
  lemma SyncSpec(rs: seq<Response>, remote: Remote, cache: Cache, today: string)
    requires Consistent(DemandsNaming, remote.users, cache)
    ensures var spec := SpecDemands(Served(rs), DemandReader(today), remote);
            var r := Sync(rs, remote, cache, today);
            && (r.ok <==> !Interrupted(rs) && spec.Some? && Served(rs) != [])
            && (r.ok ==> r.snapshot == spec)
            && (spec.None? ==> r.message == AttributeErrorMessage)
            && (spec.Some? && Interrupted(rs) ==> r.message == "Erro: " + InterruptMessage(rs))
            && (!Interrupted(rs) && Served(rs) == [] ==> r.message == "Nenhuma tarefa encontrada no Banco de Dados.")
            && Consistent(DemandsNaming, remote.users, r.cache)
  {
    FetchDemandsSpec(rs, DemandReader(today), remote, cache);
  }

  /** Every row the sync writes carries its status as the record had it and
      the normalised label of that status, and a start and end date. */
  lemma SyncRowsCarryStatus(rs: seq<Response>, remote: Remote, cache: Cache, today: string)
    requires Consistent(DemandsNaming, remote.users, cache)
    requires Sync(rs, remote, cache, today).ok
    ensures var rows := Sync(rs, remote, cache, today).snapshot.value;
            forall k :: 0 <= k < |rows| ==>
              && rows[k].statusOriginal.Some?
              && LabelOf(rows[k].status) == Some(Normalize(rows[k].statusOriginal.value))
              && rows[k].inicio.Some? && rows[k].fim.Some?
  {
    var rd := DemandReader(today);
    FetchDemandsSpec(rs, rd, remote, cache);
    var rows := Sync(rs, remote, cache, today).snapshot.value;
    var pages := Served(rs);
    forall k | 0 <= k < |rows|
      ensures && rows[k].statusOriginal.Some?
              && LabelOf(rows[k].status) == Some(Normalize(rows[k].statusOriginal.value))
              && rows[k].inicio.Some? && rows[k].fim.Some?
    {
      assert Some(rows[k]) == SpecDemand(pages[k], rd, remote);
      var w := WindowOf(pages[k], today).value;
      assert rows[k] == DemandRow(pages[k], w, SpecLog(DemandsNaming, remote.users, remote.threads(pages[k].id)));
    }
  }

  // ---------------------------------------------------------------------
  // atualizar_tarefa_notion
  // ---------------------------------------------------------------------

  /** The write-back of one edited cell. "Observacao" posts a comment and
      stops there when that succeeds (`commentOk`), and otherwise overwrites
      the "Observação" rich text; "Status" writes the value verbatim as a
      status; "Tarefa" rewrites the title; any other column sends nothing.
      `failure` is the error the update call raises, if it does. */
  function WriteBack(column: string, value: string, commentOk: bool, failure: Option<string>): (r: WriteResult)
    ensures column == "Observacao" && commentOk ==> r == WriteResult(true, "Comentário adicionado", Some(value), None)
    ensures r.commented.Some? ==> column == "Observacao" && commentOk
    ensures r.update.Some? <==> (column == "Observacao" && !commentOk) || column == "Status" || column == "Tarefa"
    ensures column == "Observacao" && !commentOk ==> r.update == Some(Update("Observação", RichTextValue(value)))
    ensures column == "Status" ==> r.update == Some(Update("Status", StatusValue(value)))
    ensures column == "Tarefa" ==> r.update == Some(Update("Tarefa", TitleValue(value)))
    ensures r.update.Some? ==> (r.ok <==> failure.None?)
    ensures r.update.Some? ==>
              r.message == (if failure.None? then "Atualizado com sucesso" else "Erro Notion: " + failure.value)
    ensures r.update.None? && r.commented.None? ==> !r.ok && r.message == "Nenhuma alteração enviada"
  {
    if column == "Observacao" && commentOk then WriteResult(true, "Comentário adicionado", Some(value), None)
    else
      var update :=
        if column == "Observacao" then Some(Update("Observação", RichTextValue(value)))
        else if column == "Status" then Some(Update("Status", StatusValue(value)))
        else if column == "Tarefa" then Some(Update("Tarefa", TitleValue(value)))
        else None;
      match update
      case None => WriteResult(false, "Nenhuma alteração enviada", None, None)
      case Some(u) =>
        match failure
        case None => WriteResult(true, "Atualizado com sucesso", None, Some(u))
        case Some(e) => WriteResult(false, "Erro Notion: " + e, None, Some(u))
  }

  // ---------------------------------------------------------------------
  // The status round trip
  // ---------------------------------------------------------------------

  lemma LowerConcluido() ensures Lower("Concluído") == "concluído" {
    var s, t := "Concluído", "concluído";
    forall i | 0 <= i < |s| ensures LowerChar(s[i]) == t[i] {
    }
    LowerOf(s, t);
  }

  lemma ConcluidoWords() ensures SaysDone("concluído") {
    Present("concluído", "conclu", 0);
  }

  lemma LowerEmAndamento() ensures Lower("Em Andamento") == "em andamento" {
    var s, t := "Em Andamento", "em andamento";
    forall i | 0 <= i < |s| ensures LowerChar(s[i]) == t[i] {
    }
    LowerOf(s, t);
  }

  lemma EmAndamentoNotDone() ensures !SaysDone("em andamento") {
    Absent("em andamento", "conclu");
    Absent("em andamento", "done");
    Absent("em andamento", "final");
  }

  lemma EmAndamentoNotNotStarted() ensures !SaysNotStarted("em andamento") {
    Absent("em andamento", "não");
    Absent("em andamento", "to do");
    Absent("em andamento", "backlog");
  }

  lemma EmAndamentoNotBlocked() ensures !SaysBlocked("em andamento") {
    Absent("em andamento", "trav");
    Absent("em andamento", "block");
    Absent("em andamento", "risco");
  }

  lemma LowerNaoIniciado() ensures Lower("Não Iniciado") == "não iniciado" {
    var s, t := "Não Iniciado", "não iniciado";
    forall i | 0 <= i < |s| ensures LowerChar(s[i]) == t[i] {
    }
    LowerOf(s, t);
  }

  lemma NaoIniciadoWords() ensures !SaysDone("não iniciado") && SaysNotStarted("não iniciado") {
    Absent("não iniciado", "conclu");
    Absent("não iniciado", "done");
    Absent("não iniciado", "final");
    Present("não iniciado", "não", 0);
  }

  lemma LowerBloqueado() ensures Lower("Bloqueado") == "bloqueado" {
    var s, t := "Bloqueado", "bloqueado";
    forall i | 0 <= i < |s| ensures LowerChar(s[i]) == t[i] {
    }
    LowerOf(s, t);
  }

  lemma BloqueadoNotDone() ensures !SaysDone("bloqueado") {
    Absent("bloqueado", "conclu");
    Absent("bloqueado", "done");
    Absent("bloqueado", "final");
  }

  lemma BloqueadoNotNotStarted() ensures !SaysNotStarted("bloqueado") {
    Absent("bloqueado", "não");
    Absent("bloqueado", "to do");
    Absent("bloqueado", "backlog");
  }

  lemma BloqueadoNotBlocked() ensures !SaysBlocked("bloqueado") {
    Absent("bloqueado", "trav");
    Absent("bloqueado", "block");
    Absent("bloqueado", "risco");
  }

  /** What a canonical label becomes once written back verbatim and read
      again: three labels come back as themselves, but "Bloqueado" contains
      none of the blocked keywords and comes back as In Progress. */
  function Reread(c: Canonical): Canonical {
    if c == Blocked then InProgress else c
  }

  lemma LabelNormalizes(c: Canonical)
    ensures Normalize(Label(c)) == Reread(c)
  {
    match c
    case Done => LowerConcluido(); ConcluidoWords();
    case InProgress => LowerEmAndamento(); EmAndamentoNotDone(); EmAndamentoNotNotStarted(); EmAndamentoNotBlocked();
    case NotStarted => LowerNaoIniciado(); NaoIniciadoWords();
    case Blocked => LowerBloqueado(); BloqueadoNotDone(); BloqueadoNotNotStarted(); BloqueadoNotBlocked();
  }

  /** The full round trip: once the remote stores the status written for a
      canonical label under the key the lookup finds for "Status", the next
      sync keeps that label as the original status and normalises it to
      `Reread(c)`, so a blocked demand reads back as In Progress. */
  lemma StatusRoundTrip(c: Canonical, page: Page, w: Window, log: string)
    requires page.properties.Some?
    requires var bag := page.properties.value;
             && FindKeyFolded(bag, "Status").Some?
             && bag[FindKeyFolded(bag, "Status").value].0 != ""
             && bag[FindKeyFolded(bag, "Status").value].1 ==
                  Applied(WriteBack("Status", Label(c), false, None).update.value.payload)
    ensures DemandRow(page, w, log).statusOriginal == Some(Label(c))
    ensures DemandRow(page, w, log).status == Label(Reread(c))
  {
    var bag := page.properties.value;
    var i := FindKeyFolded(bag, "Status").value;
    assert bag[i].1 == Status(Some(Choice(Some(Label(c)))));
    assert SafeGet(page, "Status") == Some(Str(Label(c)));
    assert StatusText(page) == Label(c);
    LabelNormalizes(c);
    LabelOfLabel(Reread(c));
    var row := DemandRow(page, w, log);
    assert LabelOf(row.status) == Some(Reread(c));
  }
}
