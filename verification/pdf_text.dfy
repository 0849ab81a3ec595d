/** The dashboard's text preparation for the PDF report (`app.py`): the
    sanitiser that brings any text into the Latin-1 range the PDF fonts can
    draw, and the line formatting of a report chapter. */
module PdfText {
  import opened Base
  import opened Text

  // ---------------------------------------------------------------------
  // limpar_texto_pdf, pass by pass
  // ---------------------------------------------------------------------

  /** `s.replace(c, "")`. */
  function RemoveChar(s: string, c: char): (r: string)
    ensures c !in r
    ensures |r| <= |s|
  {
    if s == [] then []
    else (if s[0] == c then [] else [s[0]]) + RemoveChar(s[1..], c)
  }

  /** `s.replace(a, b)` for one-character `a` and `b`. */
  function ReplaceChar(s: string, a: char, b: char): (r: string)
    ensures |r| == |s|
    ensures forall i :: 0 <= i < |s| ==> r[i] == (if s[i] == a then b else s[i])
  {
    if s == [] then [] else [if s[0] == a then b else s[0]] + ReplaceChar(s[1..], a, b)
  }

  /** The typographic characters replaced by plain ones, in the order the
      replacements run: en and em dash, curly double quotes, curly single
      quotes. */
  const Substitutions: seq<(char, char)> := [
    ('\U{2013}', '-'), ('\U{2014}', '-'),
    ('\U{201C}', '"'), ('\U{201D}', '"'),
    ('\U{2018}', '\''), ('\U{2019}', '\'')]

  /** The replacements, one whole pass per pair, in order. */
  function ReplaceAll(s: string, subs: seq<(char, char)>): (r: string)
    ensures |r| == |s|
    decreases |subs|
  {
    if subs == [] then s else ReplaceAll(ReplaceChar(s, subs[0].0, subs[0].1), subs[1..])
  }

  /** `s.encode("latin-1", "replace").decode("latin-1")`: a character beyond
      the Latin-1 range becomes `?`. */
  function EncodeLatin1(s: string): (r: string)
    ensures |r| == |s|
    ensures forall i :: 0 <= i < |s| ==> r[i] == (if s[i] as int <= 255 then s[i] else '?')
  {
    if s == [] then [] else [if s[0] as int <= 255 then s[0] else '?'] + EncodeLatin1(s[1..])
  }

  /** `limpar_texto_pdf` on a string: drop every `*`, replace the
      typographic dashes and quotes, then encode to Latin-1 with `?` for
      what does not fit. */
  function Clean(s: string): (r: string)
    ensures |r| <= |s|
    ensures forall i :: 0 <= i < |r| ==> r[i] as int <= 255
  {
    EncodeLatin1(ReplaceAll(RemoveChar(s, '*'), Substitutions))
  }

  /** A table cell handed to the sanitiser: text, or any other value, given
      by its `str()` rendering. */
  datatype Cell = Text(text: string) | Other(rendered: string)

  /** `limpar_texto_pdf`: a value that is not a string is returned as its
      `str()` rendering, without cleaning. */
  function CleanCell(x: Cell): (r: string)
    ensures x.Other? ==> r == x.rendered
    ensures x.Text? ==> r == CleanSpec(x.text)
  {
    match x
    case Text(s) => CleanMatchesSpec(s); Clean(s)
    case Other(rendered) => rendered
  }

  // ---------------------------------------------------------------------
  // The same sanitiser, one character at a time
  // ---------------------------------------------------------------------

  /** What becomes of one character other than `*`. */
  function CleanChar(c: char): (r: char)
    ensures r as int <= 255
    ensures c != '*' ==> r != '*'
    ensures c as int <= 255 ==> r == c
    ensures c as int > 255 ==> r == '-' || r == '"' || r == '\'' || r == '?'
  {
    if c == '\U{2013}' || c == '\U{2014}' then '-'
    else if c == '\U{201C}' || c == '\U{201D}' then '"'
    else if c == '\U{2018}' || c == '\U{2019}' then '\''
    else if c as int <= 255 then c
    else '?'
  }

  /** The sanitiser as a per-character rule: `*` vanishes, every other
      character is mapped on its own. */
  function CleanSpec(s: string): (r: string)
    ensures '*' !in r
    ensures forall i :: 0 <= i < |r| ==> r[i] as int <= 255
    ensures |r| <= |s|
  {
    if s == [] then []
    else if s[0] == '*' then CleanSpec(s[1..])
    else [CleanChar(s[0])] + CleanSpec(s[1..])
  }

  lemma {:induction false} RemoveCharConcat(a: string, b: string, c: char)
    ensures RemoveChar(a + b, c) == RemoveChar(a, c) + RemoveChar(b, c)
    decreases |a|
  {
    if a == [] {
      assert a + b == b;
    } else {
      assert (a + b)[0] == a[0];
      assert (a + b)[1..] == a[1..] + b;
      RemoveCharConcat(a[1..], b, c);
    }
  }

  lemma {:induction false} ReplaceAllConcat(a: string, b: string, subs: seq<(char, char)>)
    ensures ReplaceAll(a + b, subs) == ReplaceAll(a, subs) + ReplaceAll(b, subs)
    decreases |subs|
  {
    if subs != [] {
      var (x, y) := subs[0];
      assert ReplaceChar(a + b, x, y) == ReplaceChar(a, x, y) + ReplaceChar(b, x, y);
      ReplaceAllConcat(ReplaceChar(a, x, y), ReplaceChar(b, x, y), subs[1..]);
    }
  }

  /** Every pass works character by character, so cleaning a concatenation
      is concatenating the cleaned parts. */
  lemma CleanConcat(a: string, b: string)
    ensures Clean(a + b) == Clean(a) + Clean(b)
  {
    var a1, b1 := RemoveChar(a, '*'), RemoveChar(b, '*');
    RemoveCharConcat(a, b, '*');
    ReplaceAllConcat(a1, b1, Substitutions);
    EncodeLatin1Concat(ReplaceAll(a1, Substitutions), ReplaceAll(b1, Substitutions));
  }

  lemma EncodeLatin1Concat(x: string, y: string)
    ensures EncodeLatin1(x + y) == EncodeLatin1(x) + EncodeLatin1(y)
  {
    var l, r := EncodeLatin1(x + y), EncodeLatin1(x) + EncodeLatin1(y);
    forall i | 0 <= i < |l| ensures l[i] == r[i] {
      if i < |x| {
        assert (x + y)[i] == x[i];
      } else {
        assert (x + y)[i] == y[i - |x|];
      }
    }
  }

  lemma CleanOne(c: char)
    ensures Clean([c]) == if c == '*' then [] else [CleanChar(c)]
  {
    if c != '*' {
      assert RemoveChar([c], '*') == [c];
    }
  }

  /** The pass-by-pass sanitiser and the per-character rule agree on every
      string. */
  lemma {:induction false} CleanMatchesSpec(s: string)
    ensures Clean(s) == CleanSpec(s)
    decreases |s|
  {
    if s != [] {
      assert s == [s[0]] + s[1..];
      CleanConcat([s[0]], s[1..]);
      CleanOne(s[0]);
      CleanMatchesSpec(s[1..]);
    }
  }

  // ---------------------------------------------------------------------
  // Properties of the sanitiser
  // ---------------------------------------------------------------------

  /** The output holds no `*` and nothing beyond Latin-1. */
  lemma CleanAlphabet(s: string)
    ensures '*' !in Clean(s)
    ensures forall i :: 0 <= i < |Clean(s)| ==> Clean(s)[i] as int <= 255
  {
    CleanMatchesSpec(s);
  }

  lemma {:induction false} CleanSpecIdempotent(s: string)
    ensures CleanSpec(CleanSpec(s)) == CleanSpec(s)
    decreases |s|
  {
    if s != [] {
      CleanSpecIdempotent(s[1..]);
      if s[0] != '*' {
        var c := CleanChar(s[0]);
        assert ([c] + CleanSpec(s[1..]))[1..] == CleanSpec(s[1..]);
      }
    }
  }

  /** Cleaning twice is cleaning once. */
  lemma CleanIdempotent(s: string)
    ensures Clean(Clean(s)) == Clean(s)
  {
    CleanMatchesSpec(s);
    CleanMatchesSpec(Clean(s));
    CleanSpecIdempotent(s);
  }

  /** Latin-1 text without `*` comes out unchanged (the typographic dashes
      and quotes all lie beyond Latin-1). */
  lemma {:induction false} CleanKeepsPlainLatin1(s: string)
    requires forall i :: 0 <= i < |s| ==> s[i] as int <= 255 && s[i] != '*'
    ensures Clean(s) == s
    decreases |s|
  {
    CleanMatchesSpec(s);
    if s != [] {
      CleanKeepsPlainLatin1(s[1..]);
      CleanMatchesSpec(s[1..]);
      assert s == [s[0]] + s[1..];
    }
  }

  // ---------------------------------------------------------------------
  // PDF.chapter_block: the lines of a chapter
  // ---------------------------------------------------------------------

  /** `chr(149)`, the bullet drawn in front of list items. */
  const Bullet: char := '\U{95}'

  /** The indentation every drawn line starts with. */
  const Indent: string := "  "

  /** A stripped line that is drawn at all. */
  predicate Drawn(l: string) {
    l != "" && l != "*" && l != "**"
  }

  /** The text drawn for one line of the content, before cleaning: `None`
      for a line that is skipped, a bullet item for a stripped line starting
      with `-` or `*`, and the stripped line, indented, otherwise. */
  function FormatLine(line: string): (r: Option<string>)
    ensures r.Some? <==> Drawn(Strip(line))
    ensures r.Some? ==> |r.value| >= 2 && r.value[..2] == Indent
    ensures r.Some? && (Strip(line)[0] == '-' || Strip(line)[0] == '*') ==>
              r.value == Indent + [Bullet] + Indent + Strip(Strip(line)[1..])
    ensures r.Some? && Strip(line)[0] != '-' && Strip(line)[0] != '*' ==> r.value == Indent + Strip(line)
  {
    var l := Strip(line);
    if !Drawn(l) then None
    else if l[0] == '-' || l[0] == '*' then Some(Indent + [Bullet] + Indent + Strip(l[1..]))
    else Some(Indent + l)
  }

  /** The cleaned text drawn for each line that is not skipped, in order. */
  function DrawLines(lines: seq<string>): (r: seq<string>)
    ensures |r| <= |lines|
    decreases |lines|
  {
    if lines == [] then []
    else
      var rest := DrawLines(lines[1..]);
      match FormatLine(lines[0])
      case None => rest
      case Some(t) => [Clean(t)] + rest
  }

  /** `chapter_block`: content shorter than three characters draws nothing;
      otherwise the lines between newlines are drawn one by one. */
  function ChapterLines(content: string): (r: seq<string>)
    ensures |content| < 3 ==> r == []
    ensures |content| >= 3 ==> r == DrawLines(Split(content, '\n'))
  {
    if |content| < 3 then [] else DrawLines(Split(content, '\n'))
  }

  /** How many of the lines are drawn. */
  function CountDrawn(lines: seq<string>): nat {
    if lines == [] then 0 else (if Drawn(Strip(lines[0])) then 1 else 0) + CountDrawn(lines[1..])
  }

  lemma MarkerIsPlain()
    ensures forall i :: 0 <= i < |Indent| ==> Indent[i] as int <= 255 && Indent[i] != '*'
    ensures var m := Indent + [Bullet] + Indent;
            forall i :: 0 <= i < |m| ==> m[i] as int <= 255 && m[i] != '*'
  {
    var m := Indent + [Bullet] + Indent;
    assert |m| == 5 && m[0] == ' ' && m[1] == ' ' && m[2] == Bullet && m[3] == ' ' && m[4] == ' ';
  }

  /** Cleaning does not touch the indentation or the bullet marker. */
  lemma CleanKeepsMarker(t: string)
    ensures Clean(Indent + t) == Indent + Clean(t)
    ensures Clean(Indent + [Bullet] + Indent + t) == Indent + [Bullet] + Indent + Clean(t)
  {
    MarkerIsPlain();
    CleanConcat(Indent, t);
    CleanKeepsPlainLatin1(Indent);
    CleanKeepsPlainLatin1(Indent + [Bullet] + Indent);
    CleanConcat(Indent + [Bullet] + Indent, t);
  }

  /** What every drawn line looks like: indented, no `*`, only Latin-1. */
  predicate WellDrawn(d: string) {
    && |d| >= 2 && d[..2] == Indent
    && '*' !in d
    && (forall i :: 0 <= i < |d| ==> d[i] as int <= 255)
  }

  lemma CleanedLineShape(t: string)
    requires |t| >= 2 && t[..2] == Indent
    ensures WellDrawn(Clean(t))
  {
    CleanAlphabet(t);
    assert t == Indent + t[2..];
    CleanKeepsMarker(t[2..]);
  }

  /** One drawn line per line that is neither blank nor a lone `*` or `**`. */
  lemma {:induction false} DrawLinesCount(lines: seq<string>)
    ensures |DrawLines(lines)| == CountDrawn(lines)
    decreases |lines|
  {
    if lines != [] {
      DrawLinesCount(lines[1..]);
      assert FormatLine(lines[0]).Some? <==> Drawn(Strip(lines[0]));
    }
  }

  /** Every drawn line starts with the indentation and holds only Latin-1
      characters other than `*`. */
  lemma {:induction false} DrawLinesShape(lines: seq<string>)
    ensures forall k :: 0 <= k < |DrawLines(lines)| ==> WellDrawn(DrawLines(lines)[k])
    decreases |lines|
  {
    if lines != [] {
      DrawLinesShape(lines[1..]);
      var rest := DrawLines(lines[1..]);
      match FormatLine(lines[0])
      case None =>
      case Some(t) =>
        CleanedLineShape(t);
        AllWellDrawn(Clean(t), rest);
    }
  }

  lemma AllWellDrawn(d: string, rest: seq<string>)
    requires WellDrawn(d)
    requires forall k :: 0 <= k < |rest| ==> WellDrawn(rest[k])
    ensures forall k :: 0 <= k < |[d] + rest| ==> WellDrawn(([d] + rest)[k])
  {
    forall k | 0 <= k < |[d] + rest| ensures WellDrawn(([d] + rest)[k]) {
      if k > 0 {
        assert ([d] + rest)[k] == rest[k - 1];
      }
    }
  }

  /** The content is handled line by line: for lines holding no newline and
      joined with newlines into content of at least three characters, the
      chapter draws exactly what the lines draw one by one. */
  lemma ChapterOfLines(lines: seq<string>)
    requires |lines| >= 1
    requires forall k :: 0 <= k < |lines| ==> '\n' !in lines[k]
    requires |Join(lines, "\n")| >= 3
    ensures ChapterLines(Join(lines, "\n")) == DrawLines(lines)
  {
    SplitJoin(lines, '\n');
  }

  /** A bullet item keeps its marker and loses only its leading `-` or `*`
      and the space around the item text. */
  lemma BulletLine(line: string)
    requires Drawn(Strip(line)) && (Strip(line)[0] == '-' || Strip(line)[0] == '*')
    ensures DrawLines([line]) == [Indent + [Bullet] + Indent + Clean(Strip(Strip(line)[1..]))]
  {
    CleanKeepsMarker(Strip(Strip(line)[1..]));
  }
}
