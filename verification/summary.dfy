/** The dashboard's weekly summary (`gerar_resumo_ia` in `app.py`): the
    guard on short input and the parsing of the model's tagged reply into
    four sections. The model call itself is an input: its reply or its
    error. */
module Summary {
  import opened Base
  import opened Text

  /** The four section tags the reply is asked to use. */
  const Entregas := "[ENTREGAS]:"
  const Travas := "[TRAVAS]:"
  const Acao := "[ACAO]:"
  const S2 := "[S2]:"

  /** The default of a section whose tag is missing. */
  const Unidentified := "Não identificado."

  /** What the chat completion call gave: the reply text or the error it raised. */
  datatype Reply = Answer(text: string) | CallFailed(error: string)

  /** The four strings returned: deliveries, blockers, next actions, and the
      plan two weeks ahead. */
  datatype Sections = Sections(entregas: string, travas: string, acao: string, s2: string)

  /** The second piece of `s` split at `tag`: `s` is the text before the
      first `tag`, that `tag`, this piece, and a rest that is empty or
      starts with the next `tag`; the piece holds no `tag` itself. */
  function SecondPiece(s: string, tag: string): (r: string)
    requires Contains(s, tag)
    ensures |tag| > 0 ==> |r| <= |After(s, tag)| && s == Before(s, tag) + tag + r + After(s, tag)[|r|..]
    ensures |tag| > 0 ==> !Contains(r, tag)
    ensures |tag| > 0 ==> |r| == |After(s, tag)| || StartsWith(After(s, tag)[|r|..], tag)
  {
    if |tag| == 0 then Before(After(s, tag), tag)
    else
      AfterSpec(s, tag);
      BeforeSpec(After(s, tag), tag);
      Before(After(s, tag), tag)
  }

  /** The parsing of a reply: each section is the text after the first
      occurrence of its tag, cut at the next occurrence of the same tag or
      of the tag that follows it, then stripped. */
  function ParseReply(r: string): (out: Sections)
    ensures !Contains(r, Entregas) ==> out.entregas == Unidentified
    ensures !Contains(r, Travas) ==> out.travas == Unidentified
    ensures !Contains(r, Acao) ==> out.acao == Unidentified
    ensures !Contains(r, S2) ==> out.s2 == Unidentified
    ensures Contains(r, Entregas) ==> Strip(out.entregas) == out.entregas
    ensures Contains(r, Travas) ==> Strip(out.travas) == out.travas
    ensures Contains(r, Acao) ==> Strip(out.acao) == out.acao
    ensures Contains(r, S2) ==> Strip(out.s2) == out.s2
  {
    var ent :=
      if Contains(r, Entregas) then
        var x := Before(SecondPiece(r, Entregas), Travas);
        StripIdempotent(x);
        Strip(x)
      else Unidentified;
    var trv :=
      if Contains(r, Travas) then
        var x := Before(SecondPiece(r, Travas), Acao);
        StripIdempotent(x);
        Strip(x)
      else Unidentified;
    var aca :=
      if Contains(r, Acao) then
        var temp := SecondPiece(r, Acao);
        var x := if Contains(temp, S2) then Before(temp, S2) else temp;
        StripIdempotent(x);
        Strip(x)
      else Unidentified;
    var s2 :=
      if Contains(r, S2) then
        var x := SecondPiece(r, S2);
        StripIdempotent(x);
        Strip(x)
      else Unidentified;
    Sections(ent, trv, aca, s2)
  }

  /** `gerar_resumo_ia`: input shorter than ten characters gives "Sem dados."
      without calling the model; a failed call gives its error in the first
      section; otherwise the reply is parsed. */
  function Summarize(comments: string, reply: Reply): (out: Sections)
    ensures |comments| < 10 ==> out == Sections("Sem dados.", "", "", "")
    ensures |comments| >= 10 && reply.CallFailed? ==> out == Sections("Erro OpenAI: " + reply.error, "", "", "")
    ensures |comments| >= 10 && reply.Answer? ==> out == ParseReply(reply.text)
  {
    if |comments| < 10 then Sections("Sem dados.", "", "", "")
    else match reply
      case CallFailed(e) => Sections("Erro OpenAI: " + e, "", "", "")
      case Answer(r) => ParseReply(r)
  }

  // ---------------------------------------------------------------------
  // What a section holds
  // ---------------------------------------------------------------------

  /** `y` is what is left of `x` once cut at the first of two tags: a prefix
      of `x` holding neither tag, followed in `x` by one of them or by
      nothing. */
  predicate CutAtTags(x: string, y: string, t1: string, t2: string) {
    && |y| <= |x| && y == x[..|y|]
    && !Contains(y, t1) && !Contains(y, t2)
    && (|y| == |x| || StartsWith(x[|y|..], t1) || StartsWith(x[|y|..], t2))
  }

  /** Cutting first at one tag and then at the other cuts at whichever
      comes first. */
  lemma CutTwice(x: string, t1: string, t2: string)
    requires |t1| > 0 && |t2| > 0
    ensures CutAtTags(x, Before(Before(x, t1), t2), t1, t2)
  {
    var b1 := Before(x, t1);
    var b2 := Before(b1, t2);
    BeforeSpec(x, t1);
    BeforeSpec(b1, t2);
    assert b2 == x[..|b2|];
    if Contains(b2, t1) {
      var j := Find(b2, t1).value;
      assert b2[j..j + |t1|] == b1[j..j + |t1|];
      assert OccursAt(b1, t1, j);
    }
    if |b2| < |b1| {
      assert x[|b2|..][..|t2|] == b1[|b2|..][..|t2|];
    } else if |b2| < |x| {
      assert x[|b2|..] == x[|b1|..];
    }
  }

  /** The sections of a reply: each one present is the stripped text that
      follows the first occurrence of its tag, up to the first occurrence
      after it of its own tag or of the tag that comes next (the blockers
      section ends at the actions tag, the actions section at the S+2 tag);
      the S+2 section runs to a repeated S+2 tag or to the end. */
  lemma SectionsOfReply(r: string)
    ensures var out := ParseReply(r);
            && (Contains(r, Entregas) ==>
                  exists y :: CutAtTags(After(r, Entregas), y, Entregas, Travas) && out.entregas == Strip(y))
            && (Contains(r, Travas) ==>
                  exists y :: CutAtTags(After(r, Travas), y, Travas, Acao) && out.travas == Strip(y))
            && (Contains(r, Acao) ==>
                  exists y :: CutAtTags(After(r, Acao), y, Acao, S2) && out.acao == Strip(y))
            && (Contains(r, S2) ==>
                  exists y :: CutAtTags(After(r, S2), y, S2, S2) && out.s2 == Strip(y))
  {
    var out := ParseReply(r);
    if Contains(r, Entregas) {
      CutTwice(After(r, Entregas), Entregas, Travas);
    }
    if Contains(r, Travas) {
      CutTwice(After(r, Travas), Travas, Acao);
    }
    if Contains(r, Acao) {
      var temp := SecondPiece(r, Acao);
      BeforeSpec(temp, S2);
      CutTwice(After(r, Acao), Acao, S2);
    }
    if Contains(r, S2) {
      var x := After(r, S2);
      BeforeSpec(x, S2);
      BeforeSpec(Before(x, S2), S2);
      CutTwice(x, S2, S2);
    }
  }
}
