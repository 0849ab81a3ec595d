# Notion task sync and PMO dashboard — a Dafny model

The system is a small project-management dashboard. Two synchronisers read
a Notion database of tasks (`sync_notion.py`) or of demands
(`sync_notion_demandas.py`). Each one turns every record into a flat row:
page id, area, project, task, owner, start, end, canonical status and an
observation built from the record's comment thread. Each one can also write
an edited cell back to Notion. The dashboard (`app.py`) then:

- cleans text for its Latin-1 PDF font;
- cuts the tagged AI summary into four sections;
- draws chapter blocks line by line;
- lists the responsible people;
- lists the projects that are still open;
- counts the cells it sends back on save.

This project models those record transformations and helpers as pure
Dafny functions and proves what they promise.

Modules:

- `Base`: `Option`.
- `Text`: Python's `strip`, `lower`, `in`, `split` and `join` on strings; a
  lexicographic order; and `str()` of a natural number.
- `Notion`: the shape of a Notion record and its typed properties; the
  Python values a property decodes to, with their truthiness; the canonical
  statuses; write-back payloads; paginated query answers.
- `Comments`: the cached user-name lookup and the comment thread rendered
  as `(dd/mm) [author]: text` lines. Each synchroniser has its own fallback
  names.
- `SyncNotion`: the core of `sync_notion.py`.
  - `safe_get`;
  - the project map;
  - task assembly: the date fallbacks, the project join and status
    normalisation;
  - the loop that breaks on the first record that raises;
  - the date fill of `rodar_sincronizacao`;
  - the write-back, with its status label map.
- `SyncDemandas`: the core of `sync_notion_demandas.py`.
  - `safe_get`: a key match that ignores case, with per-kind defaults;
  - the `or` chains over alternative column names;
  - the date window defaulting to today;
  - the merged observation;
  - the second normalisation table;
  - the all-or-nothing loop;
  - the write-back that comments first.
- `PdfText`: `limpar_texto_pdf` and the line formatting of `chapter_block`.
- `Summary`: the guard and the tag parsing of `gerar_resumo_ia`.
- `Dashboard`: the two save loops, the responsible list and the open
  projects.

The remote services are inputs, not calls:

- the comment threads and user lookups are `Comments.Remote`;
- the paginated query answers are `Notion.Response`;
- a write-back gets the error the update would raise (`failure`) and,
  for demands, whether posting the comment succeeds (`commentOk`);
- the AI call gets its reply or error (`Summary.Reply`);
- the current date is given as text (`today`).

## Model

| member | source | states |
|---|---|---|
| Comments.UserName | sync_notion.py:26-35 | a cached id is answered from the cache without a remote call; otherwise the remote is asked, a found user (named or "Usuário") is cached, a failed lookup yields the fallback ("Alguém") and is not cached |
| Comments.SecondLookupIsCached | sync_notion_demandas.py:20-30 | after a successful lookup, asking again for the same id makes no remote call and returns the same name |
| Comments.UserNameTransparent | sync_notion.py:26-35 | with a cache that agrees with the remote, the cache is invisible: the name is what the remote would say, and the cache stays in agreement |
| Comments.FormatThread | sync_notion.py:38-67 | the thread fails as a whole exactly when some comment carries an unparseable timestamp; at most one line per comment; the name cache only grows |
| Comments.FormatThreadTransparent | sync_notion.py:45-63 | without a bad timestamp the cached loop yields exactly the cache-free lines, one `(dd/mm) [author]: text` per comment with non-empty text |
| Comments.CommentLog | sync_notion.py:38-67 | an unavailable thread gives the empty log, and the cache only gains names |
| Comments.CommentLogTransparent | sync_notion_demandas.py:33-64 | the comment log equals its cache-free reference (empty when the thread is unavailable or a timestamp fails, else the lines joined by newline) and keeps the cache consistent |
| Comments.SpecLogEmptyIff | sync_notion.py:61-67 | the log is empty iff the thread is unavailable, a timestamp fails, or every comment's text is empty |
| SyncNotion.Decode | sync_notion.py:78-94 | per property kind: title/rich text give the first fragment's text or "" when empty; select its name; multi-select the names joined by ", " (None when empty); date the date object; relation the first id; other kinds and malformed values None |
| SyncNotion.SafeGet | sync_notion.py:70-77 | a record without properties or without that exact key gives None; otherwise the decoded property |
| SyncNotion.MapRecordsKeys | sync_notion.py:107-111 | an id is in the project map iff it was there before or some record has it |
| SyncNotion.MapRecordsLast | sync_notion.py:107-111 | the last record with an id decides its entry: the record's project name or "Sem Nome", its area or "Geral" |
| SyncNotion.MapRecordsUntouched | sync_notion.py:107-111 | an id that no record has keeps its entry |
| SyncNotion.ProjectOf | sync_notion.py:109-111 | a project's name is its "Projeto" text, or "Sem Nome" when missing or empty; its area is its "Área" text, or "Geral" |
| SyncNotion.MapRecords | sync_notion.py:107-111 | entering records keeps every id already mapped and maps the id of every record entered |
| SyncNotion.MapProjects | sync_notion.py:97-116 | the paginated loop keeps every id already mapped and maps the id of every record served before the loop stops |
| SyncNotion.MapProjectsServed | sync_notion.py:97-116 | mapping page by page equals mapping the concatenation of the records served before the first failing or last page |
| SyncNotion.ResolveDates | sync_notion.py:143-151 | start is "Data Inicio"'s start, else "Data Entrega"'s start, else none; end is "Data Entrega"'s start, else the start; a text value in either column raises |
| SyncNotion.JoinProject | sync_notion.py:153-161 | a project id found in the map gives that project and area; any other id gives "Avulso" with the record's own area or "Geral"; a date object as id raises |
| SyncNotion.Normalize | sync_notion.py:163-177 | Done iff the lower-cased status contains "conclu" or "done"; else In Progress iff "andamento" or "aprov"; else Blocked iff "cancel" or "stand"; else Not Started |
| SyncNotion.NormalizeIgnoresCase | sync_notion.py:164 | normalisation does not depend on letter case |
| SyncNotion.BuildRow | sync_notion.py:130-191 | a row is built iff neither date column holds text and the project id is not a date; it keeps the page id, the task name (or "Sem Nome"), the owner (or "Time"), the comment log when non-empty else the observation column, the resolved start and end, the joined project and area, and the normalised status label |
| SyncNotion.TaskBatch | sync_notion.py:130-191 | a batch yields at most one row per record, and one per record when no record raises |
| SyncNotion.FetchTasks | sync_notion.py:119-196 | the loop yields at most one row per record served before it stops |
| SyncNotion.TaskBatchSpec | sync_notion.py:130-191 | the batch loop yields the rows of the records in order, cut at the first record that raises, and reports the break iff some record raises |
| SyncNotion.SpecRowsShape | sync_notion.py:125-196 | the rows are a prefix-aligned image of the records: row k comes from record k, and when rows stop early the next record raises |
| SyncNotion.FetchTasksSpec | sync_notion.py:119-196 | across pages, the loop yields the reference rows of all records served, with the name cache kept consistent |
| SyncNotion.Fill | sync_notion.py:228-230 | a missing start or end becomes today, a present one is kept, and no other column changes |
| SyncNotion.FillAll | sync_notion.py:228-230 | every row is filled, in order, and no row is added or dropped |
| SyncNotion.Sync | sync_notion.py:221-234 | failure iff no row, with "0 tarefas"; success gives "N tarefas atualizadas." for the N rows, each with a start and an end |
| SyncNotion.SyncSpec | sync_notion.py:221-232 | the rows stored are the rows assembled against the project map, with missing dates filled by today, and success holds iff there is at least one |
| SyncNotion.FilledDates | sync_notion.py:146-151 | a task with no date object gets today as start and end; without an end date the end equals the start |
| SyncNotion.ReverseStatus | sync_notion.py:204-210 | a canonical label maps to its native Notion label; anything else passes unchanged |
| SyncNotion.WriteBack | sync_notion.py:199-218 | "Observacao" sets the rich text of "Observação", "Status" selects the mapped label; only then is an update issued, answering "Ok" or the error; any other column sends nothing and answers "Campo inv" |
| SyncNotion.NativeRoundTrip | sync_notion.py:163-177 | each native label the write-back sends normalises back to the status it stands for |
| SyncNotion.ReverseThenNormalize | sync_notion.py:204-210 | writing a canonical label and reading it back gives that status; other values read back as they normalise |
| SyncNotion.BlockedLabelNeedsMap | sync_notion.py:172-174 | the dashboard's own label "Bloqueado" would normalise to Not Started, which is why the write-back maps it to "Stand By" |
| SyncNotion.StatusRoundTrip | sync_notion.py:199-210 | after a status write-back of a canonical label, the next sync reads the same label for that task |
| SyncDemandas.Decode | sync_notion_demandas.py:84-110 | per kind with the demands defaults: "Sem Título", "", "Geral", "Não Iniciado", "" for an empty multi-select, "Time" for no people, "User" for an unnamed person, "Relacionado" for any relation; date gives its object; others None |
| SyncDemandas.SafeGet | sync_notion_demandas.py:72-82 | the first key equal to the name ignoring case is read; no such key, an empty key or no properties give None |
| SyncDemandas.SafeGetExactKey | sync_notion_demandas.py:77 | when the exact key comes first among the keys equal ignoring case, the case-folding lookup reads the same property as the exact one |
| SyncDemandas.DecodersAgree | sync_notion_demandas.py:85-100 | where the tasks decoder yields a value for a non-relation property with a non-empty title, the demands decoder yields the same |
| SyncDemandas.WindowOf | sync_notion_demandas.py:196-216 | the window is read from "Data" when it is truthy, else from "Prazo", else from "Timeline"; with none truthy it is today alone |
| SyncDemandas.DateWindow | sync_notion_demandas.py:196-216 | start is the date's start when non-empty, else today; end is its end when non-empty, else the start; no date gives today for both; a text value raises |
| SyncDemandas.Merge | sync_notion_demandas.py:218-227 | the observation is empty iff log and note are; a non-empty log comes first followed by a newline; a non-empty note comes last after "(Nota Fixa): " |
| SyncDemandas.Normalize | sync_notion_demandas.py:229-237 | Done iff the lower-cased status contains "conclu", "done" or "final"; else Not Started iff "não", "to do" or "backlog"; else Blocked iff "trav", "block" or "risco"; else In Progress |
| SyncDemandas.NormalizeIgnoresCase | sync_notion_demandas.py:230 | normalisation does not depend on letter case |
| SyncDemandas.DemandRow | sync_notion_demandas.py:178-252 | the task is the first truthy of "Tarefa", "Name", "Nome", else "Sem Nome"; the owner of "Responsável", "Assignee", "Pessoa", else "Time"; the area of "Área", "Team", else "Geral"; the project of "Projeto", "Project", else "Avulso" (a missing value and "" both count as absent); the row keeps the page id, the date window, the raw status and its normalised label, and the merged observation |
| SyncDemandas.SpecDemands | sync_notion_demandas.py:173-252 | rows exist iff every record's date window can be read; then one row per record, in order |
| SyncDemandas.DemandBatch | sync_notion_demandas.py:173-252 | a batch that completes yields one row per record |
| SyncDemandas.FetchDemands | sync_notion_demandas.py:163-262 | a loop that completes yields one row per record served |
| SyncDemandas.DemandBatchSpec | sync_notion_demandas.py:173-252 | a batch yields the reference rows, or the attribute-error message when any record's date column holds text, keeping the cache consistent |
| SyncDemandas.FetchDemandsSpec | sync_notion_demandas.py:163-262 | across pages: a record that raises fails the whole run with its message; a failing query fails it with "Erro: " and the error; otherwise all rows of all served records |
| SyncDemandas.Sync | sync_notion_demandas.py:255-270 | success iff the loop completed and collected at least one row, and then the table is those rows, with "Sucesso! N demandas sincronizadas."; an aborted loop answers its error; a completed loop with no rows answers "Nenhuma tarefa encontrada no Banco de Dados." |
| SyncDemandas.SyncSpec | sync_notion_demandas.py:149-270 | success iff no error occurred and at least one record was served, and then the stored rows are the reference rows; a record whose date column holds text answers the attribute error, a failed query its error, and no record served "Nenhuma tarefa encontrada no Banco de Dados." |
| SyncDemandas.SyncRowsCarryStatus | sync_notion_demandas.py:229-249 | every stored row keeps its raw status, has the normalised label of it, and has a start and an end |
| SyncDemandas.WriteBack | sync_notion_demandas.py:113-146 | "Observacao" posts a comment, and only if that fails writes the rich-text column; "Status" sets the status, "Tarefa" the title; an issued update answers "Atualizado com sucesso" or "Erro Notion: " and the error; otherwise "Nenhuma alteração enviada" |
| SyncDemandas.LabelNormalizes | sync_notion_demandas.py:229-237 | the dashboard's labels normalise to themselves except "Bloqueado", which contains no blocked keyword and reads back as In Progress |
| SyncDemandas.StatusRoundTrip | sync_notion_demandas.py:132-134 | after writing a status label, the next sync keeps it as the raw status and shows it, except that "Bloqueado" comes back as "Em Andamento" |
| PdfText.Clean | app.py:117-121 | the cleaned text is no longer than the input and holds only Latin-1 characters; CleanAlphabet adds that it holds no "*" |
| PdfText.CleanMatchesSpec | app.py:114-121 | the three passes (drop "*", replace typographic dashes and quotes, encode Latin-1 with "?") equal the per-character reference |
| PdfText.CleanChar | app.py:117-121 | "*" aside, a Latin-1 character is kept; an en or em dash becomes "-", curly quotes become straight ones, any other character becomes "?" |
| PdfText.CleanCell | app.py:115-116 | a value that is not text is rendered unchanged; text is cleaned |
| PdfText.CleanAlphabet | app.py:114-121 | cleaned text holds no "*" and only Latin-1 characters |
| PdfText.CleanIdempotent | app.py:114-121 | cleaning twice is cleaning once |
| PdfText.CleanConcat | app.py:117-121 | cleaning works character by character: it distributes over concatenation |
| PdfText.CleanKeepsPlainLatin1 | app.py:114-121 | Latin-1 text without "*" is left unchanged |
| PdfText.FormatLine | app.py:267-275 | a stripped line is drawn iff it is not empty, "*" or "**"; a line starting with "-" or "*" becomes an indented bullet item of the rest, stripped; any other line is indented |
| PdfText.ChapterLines | app.py:253-255 | content shorter than three characters draws nothing; longer content draws its newline-separated lines |
| PdfText.DrawLines | app.py:266-277 | at most one line is drawn per content line; DrawLinesCount and DrawLinesShape say which and how |
| PdfText.DrawLinesCount | app.py:266-270 | one line is drawn per line that is not skipped |
| PdfText.DrawLinesShape | app.py:271-277 | every drawn line starts with the indent, holds no "*" and only Latin-1 characters |
| PdfText.ChapterOfLines | app.py:266 | content made by joining lines with newlines is drawn as exactly those lines |
| PdfText.BulletLine | app.py:271-273 | a line marked "-" or "*" is drawn as the bullet marker followed by its cleaned, stripped rest |
| Summary.Summarize | app.py:36-110 | input under ten characters gives "Sem dados." and three empty sections; a failed model call gives "Erro OpenAI: " and the error; otherwise the reply is parsed |
| Summary.SecondPiece | app.py:86 | the piece sits right behind the first tag, holds no tag, and is followed by the end of the text or by the next tag |
| Summary.ParseReply | app.py:78-101 | a section whose tag does not occur in the reply is "Não identificado."; a section that is found is already stripped |
| Summary.SectionsOfReply | app.py:84-101 | each present section is the stripped text after its tag's first occurrence, up to the next occurrence of the same tag or of the following tag (S+2 runs to the end or a repeated tag) |
| Summary.CutTwice | app.py:86 | cutting at one tag and then at another cuts at whichever occurs first |
| Dashboard.RowCalls | app.py:699-715 | one write-back per compared column whose edited cell differs from the original, carrying the new value |
| Dashboard.Save | app.py:693-715 | the counter equals the number of write-backs made, which is at most rows times compared columns, and the calls are those of every edited row whose page id is among the originals |
| Dashboard.SaveCalls | app.py:697-715 | no more write-backs are made than edited rows times compared columns |
| Dashboard.SaveCallsIff | app.py:765-779 | a call is made exactly for a changed compared cell of an edited row with a known page id |
| Dashboard.TaskNameEditCounts | app.py:711-715 | a changed task name counts as saved although the tasks write-back refuses that column and sends nothing |
| Dashboard.Responsibles | app.py:730-741 | the list is strictly increasing and holds exactly the stripped comma-separated names of the column other than "" and "-" |
| Dashboard.ResponsiblesDistinct | app.py:730-741 | no name is listed twice |
| Dashboard.SortedUnique | app.py:730 | a strictly increasing list is determined by its elements |
| Dashboard.ResponsiblesBySet | app.py:730-741 | two columns with the same names give the same list |
| Dashboard.Unique | app.py:651 | the distinct projects, each once, holding exactly the projects of the rows |
| Dashboard.UniqueOrder | app.py:651 | the distinct projects come in the order of their first appearance |
| Dashboard.ActiveProjects | app.py:649-653 | a project is listed iff some task of it is not "Concluído", and it is listed once |
| Text.SplitJoin | app.py:266 | splitting text joined by a separator none of the parts holds gives the parts back |
| Text.NatToStringRoundTrip | sync_notion.py:232 | the decimal rendering of a count reads back as that count |
| Notion.FoldedFindsExact | sync_notion_demandas.py:77 | when no earlier key equals the name ignoring case, the first key equal ignoring case is the exact one |

## Left out

- The Notion client is not called. Queries, comment listings, user lookups,
  page updates and comment creation are inputs: what they answer, or the
  error they raise.
- `verificar_colunas.py` is a diagnostic script that prints the database's
  columns. It is not part of this model.
- CSV files and data frames are not modelled. A sync's result carries the
  rows it would store instead of writing them.
- The Streamlit interface is not modelled: tabs, widgets, charts, progress
  bars and reruns.
- The PDF layout is not modelled: fonts, colours, cells and page footers.
  Only the text of each chapter line is.
- The OpenAI request and its prompt are left out. The call is given as its
  reply or its error.
- Environment checks, tokens and the console prints of both synchronisers
  are left out.
- ISO timestamp parsing is not modelled. A comment's `created_time` is
  given as its `dd/mm` rendering, or as unparseable; an unparseable one
  makes the whole comment fetch return "".
- Notion.PyStr renders a date object like Python's `str()` of a dict, but
  without escaping quotes inside values.
- A JSON `null` under a fragment's `plain_text`, an option's or a person's
  `name`, or a link's `id` is not modelled: `None` in those fields means
  the key is absent. With a `null` name, Python's `", ".join` would raise.
- Text.Lower folds the case of ASCII and Latin-1 letters only.
- Pagination cursors are not modelled. The answers are given in the order
  the loop receives them. A list that ends while `has_more` is still true
  ends the loop.
- In `gerar_resumo_ia`, the inner `except` around the parsing cannot fire
  once the tags are tested first, so it is not modelled. A reply whose
  content is `None` is not modelled either.
- Every property is assumed to carry its `type` tag. A property without one
  would raise outside the `try` of `safe_get`.
- The area filter of the central tab is left out: it compares upper-cased
  area names. Dashboard.ActiveProjects takes the rows of the chosen area.
- A "Responsavel" column that pandas reads as numbers is not modelled:
  `.str.split` then raises AttributeError. An empty cell is modelled,
  because loading fills it with "-", which the list leaves out.
- The save loops compare cells as strings. The pandas comparisons with
  missing values (NaN differs from itself) are not modelled.
- The save loops discard what the write-back answers. Dashboard.Save
  therefore records the calls and leaves their effect to the write-back
  models.
- The responsible filter `str.contains(u)` of the loose-task tab is not
  modelled. It only narrows the rows shown.
