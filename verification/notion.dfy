/** The loosely typed records the remote task database hands back, the
    Python values the property decoders turn them into, the paginated query
    responses, and the flat task row both synchronisation scripts write. */
module Notion {
  import opened Base
  import opened Text

  // ---------------------------------------------------------------------
  // Records
  // ---------------------------------------------------------------------

  /** One rich-text fragment; `None` means its `plain_text` key is absent. */
  datatype Fragment = Fragment(plainText: Option<string>)

  /** An option of a select, status or multi-select property; `None` means
      its `name` key is absent. */
  datatype Choice = Choice(name: Option<string>)

  /** A user listed in a people property; `None` means its `name` key is
      absent. */
  datatype Person = Person(name: Option<string>)

  /** One target of a relation property; `None` means its `id` key is absent. */
  datatype Link = Link(id: Option<string>)

  /** The object held by a date property: its start, its end and its time
      zone, each `None` when it is `null`. */
  datatype DateObj = DateObj(start: Option<string>, end: Option<string>, timeZone: Option<string>)

  /** One entry of a record's property bag, tagged with its declared kind.
      `None` in a payload stands for a JSON `null`. */
  datatype Prop =
    | Title(title: seq<Fragment>)
    | RichText(richText: seq<Fragment>)
    | Select(select: Option<Choice>)
    | Status(status: Option<Choice>)
    | MultiSelect(options: seq<Choice>)
    | Date(date: Option<DateObj>)
    | People(people: seq<Person>)
    | Relation(relation: seq<Link>)
      /** A kind neither decoder knows (number, checkbox, formula, ...). */
    | OtherKind
      /** A record whose payload under the declared kind is absent or of the
          wrong shape: reading it raises inside the decoder. */
    | Malformed(kind: string)

  /** A property bag in key order; a Python dict has no repeated keys, and the
      lookups below take the first entry whose key matches. */
  type PropBag = seq<(string, Prop)>

  /** A record of a database query. `properties` is `None` when the record
      carries no property bag at all. */
  datatype Page = Page(id: string, properties: Option<PropBag>)

  // ---------------------------------------------------------------------
  // Decoded values and Python truthiness
  // ---------------------------------------------------------------------

  /** What a property decoder returns when it does not return `None`: a
      string, or the date object itself. */
  datatype Value = Str(s: string) | DateV(date: DateObj)

  /** Python truthiness: `None` and `""` are false, a date object is true. */
  predicate Truthy(v: Option<Value>) {
    v.Some? && (v.value.Str? ==> v.value.s != "")
  }

  /** A date object. */
  predicate IsDate(v: Option<Value>) {
    v.Some? && v.value.DateV?
  }

  /** A non-empty string: truthy, yet raises where a date object is expected. */
  predicate IsText(v: Option<Value>) {
    Truthy(v) && v.value.Str?
  }

  /** `v or default`. */
  function OrElse(v: Option<Value>, default: string): (r: Value)
    ensures Truthy(v) ==> r == v.value
    ensures !Truthy(v) ==> r == Str(default)
  {
    if Truthy(v) then v.value else Str(default)
  }

  /** `vs[0] or vs[1] or ... or default`: the first truthy candidate. */
  function FirstTruthy(vs: seq<Option<Value>>, default: string): (r: Value)
    ensures forall i :: 0 <= i < |vs| && Truthy(vs[i]) && (forall j :: 0 <= j < i ==> !Truthy(vs[j]))
              ==> r == vs[i].value
    ensures (forall i :: 0 <= i < |vs| ==> !Truthy(vs[i])) ==> r == Str(default)
  {
    if vs == [] then Str(default)
    else if Truthy(vs[0]) then vs[0].value
    else FirstTruthy(vs[1..], default)
  }

  /** `s` is the text Python's `str(vs[0] or vs[1] or ... or default)`
      gives: the text of the first truthy candidate, where a missing value
      and an empty string both count as absent, or `default` when no
      candidate is truthy. */
  predicate PicksFirst(s: string, vs: seq<Option<Value>>, default: string) {
    && (forall i :: 0 <= i < |vs| && Truthy(vs[i]) && (forall j :: 0 <= j < i ==> !Truthy(vs[j])) ==>
          s == PyStr(vs[i].value))
    && ((forall i :: 0 <= i < |vs| ==> !Truthy(vs[i])) ==> s == default)
  }

  /** The text of `FirstTruthy` is the one `PicksFirst` describes. */
  lemma FirstTruthyPicks(vs: seq<Option<Value>>, default: string)
    ensures PicksFirst(PyStr(FirstTruthy(vs, default)), vs, default)
  {
  }

  /** `OrElse` is the single-candidate case of `PicksFirst`. */
  lemma OrElsePicks(v: Option<Value>, default: string)
    ensures PicksFirst(PyStr(OrElse(v, default)), [v], default)
  {
    assert [v][0] == v;
  }

  /** `FirstTruthyOpt` over three candidates, link by link. */
  lemma FirstTruthyOptOfThree(a: Option<Value>, b: Option<Value>, c: Option<Value>)
    ensures Truthy(a) ==> FirstTruthyOpt([a, b, c]) == a
    ensures !Truthy(a) && Truthy(b) ==> FirstTruthyOpt([a, b, c]) == b
    ensures !Truthy(a) && !Truthy(b) && Truthy(c) ==> FirstTruthyOpt([a, b, c]) == c
    ensures !Truthy(a) && !Truthy(b) && !Truthy(c) ==> !Truthy(FirstTruthyOpt([a, b, c]))
  {
    assert [a, b, c][1..] == [b, c];
    assert [b, c][1..] == [c];
    assert FirstTruthyOpt([c]) == c;
  }

  /** `vs[0] or vs[1] or ...` without a final default: `None` when no
      candidate is truthy, otherwise the first truthy one. */
  function FirstTruthyOpt(vs: seq<Option<Value>>): (r: Option<Value>)
    ensures forall i :: 0 <= i < |vs| && Truthy(vs[i]) && (forall j :: 0 <= j < i ==> !Truthy(vs[j]))
              ==> r == vs[i]
    ensures (forall i :: 0 <= i < |vs| ==> !Truthy(vs[i])) ==> !Truthy(r)
  {
    if vs == [] then None
    else if Truthy(vs[0]) || |vs| == 1 then vs[0]
    else FirstTruthyOpt(vs[1..])
  }

  /** Python's `repr` of an optional string. */
  function Repr(o: Option<string>): string {
    match o
    case None => "None"
    case Some(s) => "'" + s + "'"
  }

  /** `str(v)`, which is also what the table writer stores in a cell. */
  function PyStr(v: Value): string {
    match v
    case Str(s) => s
    case DateV(d) =>
      "{'start': " + Repr(d.start) + ", 'end': " + Repr(d.end) + ", 'time_zone': " + Repr(d.timeZone) + "}"
  }

  /** The plain texts of the fragments, concatenated in order, a fragment
      without one contributing nothing. */
  function PlainText(fs: seq<Fragment>): string {
    if fs == [] then "" else fs[0].plainText.GetOr("") + PlainText(fs[1..])
  }

  // ---------------------------------------------------------------------
  // Canonical status vocabulary
  // ---------------------------------------------------------------------

  /** The four status labels the dashboard colours by. */
  datatype Canonical = NotStarted | InProgress | Blocked | Done

  function Label(c: Canonical): string {
    match c
    case NotStarted => "Não Iniciado"
    case InProgress => "Em Andamento"
    case Blocked => "Bloqueado"
    case Done => "Concluído"
  }

  /** The canonical status a string spells exactly, if any. */
  function LabelOf(s: string): (r: Option<Canonical>)
    ensures r.Some? ==> Label(r.value) == s
    ensures r.None? ==> forall c: Canonical :: Label(c) != s
  {
    if s == Label(NotStarted) then Some(NotStarted)
    else if s == Label(InProgress) then Some(InProgress)
    else if s == Label(Blocked) then Some(Blocked)
    else if s == Label(Done) then Some(Done)
    else None
  }

  /** Each label spells back its own status, so the four labels are distinct. */
  lemma LabelOfLabel(c: Canonical)
    ensures LabelOf(Label(c)) == Some(c)
  {
  }

  // ---------------------------------------------------------------------
  // The flat task row
  // ---------------------------------------------------------------------

  /** One line of the local task table. The dates are `None` where the
      Python value is `None` (NaN in the table); `statusOriginal` is present
      only in the table that carries a `Status_Original` column. */
  datatype Row = Row(
    pageId: string,
    area: string,
    projeto: string,
    tarefa: string,
    responsavel: string,
    inicio: Option<string>,
    fim: Option<string>,
    status: string,
    statusOriginal: Option<string>,
    observacao: string)

  /** `[item["name"] for item in items]`: `None` when an item has no name,
      which raises inside the decoder. */
  function ChoiceNames(items: seq<Choice>): (r: Option<seq<string>>)
    ensures r.Some? <==> forall k :: 0 <= k < |items| ==> items[k].name.Some?
    ensures r.Some? ==> |r.value| == |items|
    ensures r.Some? ==> forall k :: 0 <= k < |items| ==> r.value[k] == items[k].name.value
  {
    if items == [] then Some([])
    else match (items[0].name, ChoiceNames(items[1..]))
      case (Some(n), Some(ns)) => Some([n] + ns)
      case _ => None
  }

  /** The position of the first entry whose key is exactly `name` (Python's
      `name in props`, then `props[name]`). */
  function FindKey(bag: PropBag, name: string): (r: Option<nat>)
    ensures r.Some? ==> r.value < |bag| && bag[r.value].0 == name
    ensures r.Some? ==> forall j :: 0 <= j < r.value ==> bag[j].0 != name
    ensures r.None? ==> forall j :: 0 <= j < |bag| ==> bag[j].0 != name
  {
    if bag == [] then None
    else if bag[0].0 == name then Some(0)
    else match FindKey(bag[1..], name)
      case None => None
      case Some(i) => Some(i + 1)
  }

  /** The position of the first entry whose key equals `name` once both are
      lower-cased (`next(k for k in props.keys() if k.lower() == name.lower())`). */
  function FindKeyFolded(bag: PropBag, name: string): (r: Option<nat>)
    ensures r.Some? ==> r.value < |bag| && Lower(bag[r.value].0) == Lower(name)
    ensures r.Some? ==> forall j :: 0 <= j < r.value ==> Lower(bag[j].0) != Lower(name)
    ensures r.None? ==> forall j :: 0 <= j < |bag| ==> Lower(bag[j].0) != Lower(name)
  {
    if bag == [] then None
    else if Lower(bag[0].0) == Lower(name) then Some(0)
    else match FindKeyFolded(bag[1..], name)
      case None => None
      case Some(i) => Some(i + 1)
  }

  /** Where no other key differs from `name` only in case before it, the
      case-insensitive lookup finds the same entry as the exact one. */
  lemma FoldedFindsExact(bag: PropBag, name: string)
    requires FindKey(bag, name).Some?
    requires forall j :: 0 <= j < FindKey(bag, name).value ==> Lower(bag[j].0) != Lower(name)
    ensures FindKeyFolded(bag, name) == FindKey(bag, name)
  {
  }

  // ---------------------------------------------------------------------
  // Write-back payloads
  // ---------------------------------------------------------------------

  /** The value part of a single-property update. */
  datatype Payload =
    | RichTextValue(content: string)
    | SelectValue(name: string)
    | StatusValue(name: string)
    | TitleValue(content: string)

  /** `pages.update(properties={property: payload})`. */
  datatype Update = Update(property: string, payload: Payload)

  /** How the remote stores a payload, as the decoders later read it back. */
  function Applied(p: Payload): Prop {
    match p
    case RichTextValue(c) => RichText([Fragment(Some(c))])
    case SelectValue(n) => Select(Some(Choice(Some(n))))
    case StatusValue(n) => Status(Some(Choice(Some(n))))
    case TitleValue(c) => Title([Fragment(Some(c))])
  }

  /** The `(success, message)` pair of a write-back, together with the
      comment it posted and the page update it issued, if any. */
  datatype WriteResult = WriteResult(ok: bool, message: string, commented: Option<string>, update: Option<Update>)

  // ---------------------------------------------------------------------
  // Paginated queries
  // ---------------------------------------------------------------------

  /** One answer of the remote query endpoint: a batch of records and the
      `has_more` flag, or the error the call raised. The continuation cursor
      only chooses which answer comes next, so the answers are given in the
      order the loop receives them. */
  datatype Response = Batch(results: seq<Page>, hasMore: bool) | QueryError(message: string)

  /** The records a `while has_more` loop gets to see: batch after batch,
      until a batch says there is no more or a query fails. A sequence that
      runs out while `has_more` is still true ends the loop as well. */
  function Served(rs: seq<Response>): seq<Page> {
    if rs == [] then []
    else match rs[0]
      case QueryError(_) => []
      case Batch(results, more) => results + (if more then Served(rs[1..]) else [])
  }

  /** The loop ended on a failed query rather than on `has_more` being false. */
  predicate Interrupted(rs: seq<Response>) {
    rs != [] &&
    match rs[0]
    case QueryError(_) => true
    case Batch(_, more) => more && Interrupted(rs[1..])
  }

  /** The message of the failed query that ended the loop. */
  function InterruptMessage(rs: seq<Response>): string
    requires Interrupted(rs)
  {
    match rs[0]
    case QueryError(m) => m
    case Batch(_, _) => InterruptMessage(rs[1..])
  }
}
