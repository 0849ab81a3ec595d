/** The comment log shared by both synchronisation scripts: resolving each
    author's display name through a user-name cache, and formatting a page's
    comment thread as one dated, attributed line per comment. */
module Comments {
  import opened Base
  import opened Text
  import opened Notion

  // ---------------------------------------------------------------------
  // User-name cache
  // ---------------------------------------------------------------------

  /** The author id of a comment (`created_by.id`, possibly absent). */
  type UserId = Option<string>

  /** What a user lookup yields: it raises, or returns a user whose `name`
      key may be missing. */
  datatype Lookup = LookupFailed | Found(name: Option<string>)

  /** The remote user endpoint, as a function of the id asked for. */
  type Users = UserId -> Lookup

  /** The remote endpoints a forward sync reads besides the query: each
      page's comment listing (`None` when the call raises) and the user
      lookup. */
  datatype Remote = Remote(threads: string -> Option<seq<Comment>>, users: Users)

  /** The names the two scripts fall back to: `unnamed` when the user has no
      name, `fallback` when the lookup fails. */
  datatype Naming = Naming(unnamed: string, fallback: string)

  /** The fallbacks of the projects-and-tasks script. */
  const ProjectsNaming := Naming("Usuário", "Alguém")

  /** The fallbacks of the demands script. */
  const DemandsNaming := Naming("Desconhecido", "Time")

  /** The process-wide cache of resolved names. */
  type Cache = map<UserId, string>

  /** The name a lookup yields, with no cache involved. */
  function Resolved(naming: Naming, found: Lookup): string {
    match found
    case LookupFailed => naming.fallback
    case Found(n) => n.GetOr(naming.unnamed)
  }

  /** Every cached name is the one a lookup of that id would yield now. */
  ghost predicate Consistent(naming: Naming, users: Users, cache: Cache) {
    forall id :: id in cache ==> users(id).Found? && cache[id] == Resolved(naming, users(id))
  }

  /** The name returned, the cache afterwards, and whether the remote
      endpoint was asked. */
  datatype NameStep = NameStep(name: string, cache: Cache, fetched: bool)

  /** `get_user_name`: a cached id is answered from the cache without asking
      the remote; otherwise the remote is asked, a successful answer is
      cached, and a failed one yields the fallback name and is not cached. */
  function UserName(naming: Naming, users: Users, cache: Cache, id: UserId): (r: NameStep)
    ensures id in cache ==> r == NameStep(cache[id], cache, false)
    ensures id !in cache ==> r.fetched && r.name == Resolved(naming, users(id))
    ensures id !in cache && users(id).Found? ==> r.cache == cache[id := r.name]
    ensures id !in cache && users(id).LookupFailed? ==> r.cache == cache && r.name == naming.fallback
  {
    if id in cache then NameStep(cache[id], cache, false)
    else
      match users(id)
      case LookupFailed => NameStep(naming.fallback, cache, true)
      case Found(n) =>
        var name := n.GetOr(naming.unnamed);
        NameStep(name, cache[id := name], true)
  }

  /** The cache never changes an answer: with a consistent cache the name is
      the one an uncached lookup yields, and the cache stays consistent. */
  lemma UserNameTransparent(naming: Naming, users: Users, cache: Cache, id: UserId)
    requires Consistent(naming, users, cache)
    ensures UserName(naming, users, cache, id).name == Resolved(naming, users(id))
    ensures Consistent(naming, users, UserName(naming, users, cache, id).cache)
  {
  }

  /** Asking twice for the same id reaches the remote at most once when the
      first lookup succeeds. */
  lemma SecondLookupIsCached(naming: Naming, users: Users, cache: Cache, id: UserId)
    requires users(id).Found?
    ensures var first := UserName(naming, users, cache, id);
            var second := UserName(naming, users, first.cache, id);
            !second.fetched && second.name == first.name && second.cache == first.cache
  {
  }

  // ---------------------------------------------------------------------
  // Comment thread formatting
  // ---------------------------------------------------------------------

  /** The creation time of a comment: its day and month as `dd/mm`, or a
      timestamp the ISO parser rejects. */
  datatype Stamp = DayMonth(ddmm: string) | Unparseable

  /** One comment: its rich-text fragments, its author id and its creation
      time (`None` when absent or empty). */
  datatype Comment = Comment(text: seq<Fragment>, author: UserId, created: Option<Stamp>)

  /** The `dd/mm` part of a line; empty when the comment has no time. */
  function DayMonthOf(created: Option<Stamp>): string {
    match created
    case Some(DayMonth(d)) => d
    case _ => ""
  }

  /** `(dd/mm) [author]: text`. */
  function LogLine(ddmm: string, author: string, text: string): string {
    "(" + ddmm + ") [" + author + "]: " + text
  }

  predicate HasBadStamp(cs: seq<Comment>) {
    exists k :: 0 <= k < |cs| && cs[k].created == Some(Unparseable)
  }

  /** The lines formatted so far (`None` once a timestamp failed to parse,
      which makes the whole fetch fail) and the cache afterwards. */
  datatype ThreadStep = ThreadStep(lines: Option<seq<string>>, cache: Cache)

  /** The loop of `buscar_comentarios_nativos`: per comment, join its text,
      resolve its author (the cache is updated even if a later step fails),
      parse its date, and keep a line only when the text is not empty. */
  function FormatThread(naming: Naming, users: Users, cache: Cache, cs: seq<Comment>): (r: ThreadStep)
    ensures r.lines.None? <==> HasBadStamp(cs)
    ensures r.lines.Some? ==> |r.lines.value| <= |cs|
    ensures r.cache.Keys >= cache.Keys
    decreases |cs|
  {
    if cs == [] then ThreadStep(Some([]), cache)
    else
      var c := cs[0];
      var text := PlainText(c.text);
      var who := UserName(naming, users, cache, c.author);
      if c.created == Some(Unparseable) then
        ThreadStep(None, who.cache)
      else
        var rest := FormatThread(naming, users, who.cache, cs[1..]);
        assert HasBadStamp(cs) <==> HasBadStamp(cs[1..]) by {
          if HasBadStamp(cs[1..]) {
            var k :| 0 <= k < |cs[1..]| && cs[1..][k].created == Some(Unparseable);
            assert cs[k + 1].created == Some(Unparseable);
          }
          if HasBadStamp(cs) {
            var k :| 0 <= k < |cs| && cs[k].created == Some(Unparseable);
            assert k != 0;
            assert cs[1..][k - 1].created == Some(Unparseable);
          }
        }
        if text == "" || rest.lines.None? then rest
        else ThreadStep(Some([LogLine(DayMonthOf(c.created), who.name, text)] + rest.lines.value), rest.cache)
  }

  /** The log text and the cache afterwards. */
  datatype LogStep = LogStep(log: string, cache: Cache)

  /** `buscar_comentarios_nativos`: the newline-joined lines, or `""` when the
      comment listing (`thread`, `None` when the call raised) or a timestamp
      fails. */
  function CommentLog(naming: Naming, users: Users, cache: Cache, thread: Option<seq<Comment>>): (r: LogStep)
    ensures thread.None? ==> r == LogStep("", cache)
    ensures r.cache.Keys >= cache.Keys
  {
    match thread
    case None => LogStep("", cache)
    case Some(cs) =>
      var step := FormatThread(naming, users, cache, cs);
      match step.lines
      case None => LogStep("", step.cache)
      case Some(lines) => LogStep(Join(lines, "\n"), step.cache)
  }

  // ---------------------------------------------------------------------
  // The same log without the cache
  // ---------------------------------------------------------------------

  /** The lines of the comments with a non-empty text, in thread order, each
      naming its author as an uncached lookup would. */
  function SpecLines(naming: Naming, users: Users, cs: seq<Comment>): (r: seq<string>)
    ensures |r| <= |cs|
    ensures forall k :: 0 <= k < |r| ==> r[k] != ""
  {
    if cs == [] then []
    else
      var text := PlainText(cs[0].text);
      var rest := SpecLines(naming, users, cs[1..]);
      if text == "" then rest
      else [LogLine(DayMonthOf(cs[0].created), Resolved(naming, users(cs[0].author)), text)] + rest
  }

  /** The comment log with every author's name looked up directly rather
      than through the cache: empty when the thread cannot be read,
      otherwise one line per non-empty comment. */
  function SpecLog(naming: Naming, users: Users, thread: Option<seq<Comment>>): string {
    if thread.None? || HasBadStamp(thread.value) then ""
    else Join(SpecLines(naming, users, thread.value), "\n")
  }

  lemma {:induction false} FormatThreadTransparent(naming: Naming, users: Users, cache: Cache, cs: seq<Comment>)
    requires Consistent(naming, users, cache)
    ensures !HasBadStamp(cs) ==> FormatThread(naming, users, cache, cs).lines == Some(SpecLines(naming, users, cs))
    ensures Consistent(naming, users, FormatThread(naming, users, cache, cs).cache)
    decreases |cs|
  {
    if cs != [] {
      var who := UserName(naming, users, cache, cs[0].author);
      UserNameTransparent(naming, users, cache, cs[0].author);
      if cs[0].created != Some(Unparseable) {
        assert !HasBadStamp(cs) ==> !HasBadStamp(cs[1..]) by {
          if HasBadStamp(cs[1..]) {
            var k :| 0 <= k < |cs[1..]| && cs[1..][k].created == Some(Unparseable);
            assert cs[k + 1].created == Some(Unparseable);
          }
        }
        FormatThreadTransparent(naming, users, who.cache, cs[1..]);
      }
    }
  }

  /** The user cache is only an optimisation: started from a consistent
      cache, the log is the uncached one and the cache stays consistent. */
  lemma CommentLogTransparent(naming: Naming, users: Users, cache: Cache, thread: Option<seq<Comment>>)
    requires Consistent(naming, users, cache)
    ensures CommentLog(naming, users, cache, thread).log == SpecLog(naming, users, thread)
    ensures Consistent(naming, users, CommentLog(naming, users, cache, thread).cache)
  {
    if thread.Some? {
      FormatThreadTransparent(naming, users, cache, thread.value);
    }
  }

  /** The log is empty exactly when the thread cannot be read or no comment
      has any text. */
  lemma SpecLogEmptyIff(naming: Naming, users: Users, thread: Option<seq<Comment>>)
    ensures SpecLog(naming, users, thread) == "" <==>
              thread.None? || HasBadStamp(thread.value)
              || forall k :: 0 <= k < |thread.value| ==> PlainText(thread.value[k].text) == ""
  {
    if thread.Some? && !HasBadStamp(thread.value) {
      var lines := SpecLines(naming, users, thread.value);
      JoinEmptyIff(lines, "\n");
      SpecLinesEmptyIff(naming, users, thread.value);
    }
  }

  lemma {:induction false} SpecLinesEmptyIff(naming: Naming, users: Users, cs: seq<Comment>)
    ensures SpecLines(naming, users, cs) == [] <==> forall k :: 0 <= k < |cs| ==> PlainText(cs[k].text) == ""
  {
    if cs != [] {
      SpecLinesEmptyIff(naming, users, cs[1..]);
      assert forall k :: 1 <= k < |cs| ==> cs[k] == cs[1..][k - 1];
    }
  }

  // ---------------------------------------------------------------------
  // Outcome of a forward sync
  // ---------------------------------------------------------------------

  /** The outcome of a forward sync: the `(success, message)` pair, the table
      written (if any) and the user cache the process keeps afterwards. */
  datatype SyncResult = SyncResult(ok: bool, message: string, snapshot: Option<seq<Row>>, cache: Cache)
}
