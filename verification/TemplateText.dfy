/** Writing a template tree as text: the compiler reads back exactly the tree that was written. */
module TemplateText {
  import opened Basics
  import opened TemplateSyntax
  import opened TemplateEval

  /** What stands between the braces of a tag; `show` writes a variable's name. */
  function Inner<T>(p: Piece<T>, show: T -> string): string {
    match p
    case VarPiece(name, escape) => (if escape then "" else "!") + show(name)
    case OpenPiece(each, title, _) => "#" + ((if each then "each " else "if ") + title)
    case ClosePiece(each, title) => "/" + ((if each then "each " else "if ") + title)
    case _ => ""
  }

  function Write<T>(pieces: seq<Piece<T>>, show: T -> string): string {
    if pieces == [] then ""
    else if pieces[0].TextPiece? then pieces[0].text + Write(pieces[1..], show)
    else "{{" + Inner(pieces[0], show) + "}}" + Write(pieces[1..], show)
  }

  /** No doubled `c`, not even one made with a `c` that follows. */
  ghost predicate Free(s: string, c: char) {
    (forall i: nat :: !DoubledAt(s, c, i)) && (s != "" ==> s[|s| - 1] != c)
  }

  /** A name that survives trimming at its end. */
  ghost predicate Tight(s: string) {
    s != "" && !IsWhitespace(s[|s| - 1]) && Free(s, '}')
  }

  ghost predicate LegalPiece<T>(p: Piece<T>, fromStr: string -> Option<T>, show: T -> string) {
    match p
    case TextPiece(s) => s != "" && Free(s, '{')
    case VarPiece(name, escape) =>
      var s := show(name);
      fromStr(s) == Some(name) && Tight(s) && (escape ==> !IsWhitespace(s[0]) && s[0] !in {'#', '/', '!'})
    case OpenPiece(_, title, v) => fromStr(title) == Some(v) && Tight(title)
    case ClosePiece(_, title) => Tight(title)
    case BadPiece(_) => false
  }

  /** Legal pieces, with no two static texts in a row. */
  ghost predicate Legal<T>(pieces: seq<Piece<T>>, fromStr: string -> Option<T>, show: T -> string) {
    && (forall i :: 0 <= i < |pieces| ==> LegalPiece(pieces[i], fromStr, show))
    && (forall i :: 0 < i < |pieces| && pieces[i].TextPiece? ==> !pieces[i - 1].TextPiece?)
  }

  lemma {:induction false} SplitAt(a: string, b: string, c: char)
    requires Free(a, c)
    ensures SplitOnce(a + [c, c] + b, c) == Some((a, b))
  {
    var s := a + [c, c] + b;
    assert DoubledAt(s, c, |a|);
    FindDoubleIsFirst(s, c, 0, |a|);
    var i := FindDouble(s, c, 0).value;
    if i < |a| {
      assert i + 1 < |a| ==> DoubledAt(a, c, i);
    }
    assert s[..|a|] == a && s[|a| + 2..] == b;
  }

  lemma {:induction false} TrimKeeps(s: string)
    requires s == "" || (!IsWhitespace(s[0]) && !IsWhitespace(s[|s| - 1]))
    ensures Trim(s) == s
  {}

  lemma {:induction false} HeadReads(each: bool, title: string)
    requires Tight(title)
    ensures
      var head := (if each then "each " else "if ") + title;
      Trim(head) == head && BlockHead(head) == Some((each, title)) && Free(head, '}')
  {
    var word := if each then "each " else "if ";
    var head := word + title;
    assert head[0] == word[0] && head[|head| - 1] == title[|title| - 1];
    TrimKeeps(head);
    assert head[|word|..] == title;
    forall i: nat ensures !DoubledAt(head, '}', i) {
      assert i < |word| ==> head[i] == word[i];
      assert i >= |word| && i + 1 < |head| ==> head[i] == title[i - |word|] && head[i + 1] == title[i + 1 - |word|];
      assert !DoubledAt(title, '}', if i >= |word| then i - |word| else 0);
    }
  }

  lemma {:induction false} FreeAfter(c: char, s: string)
    requires Free(s, '}') && c != '}'
    ensures Free([c] + s, '}')
  {
    forall i: nat ensures !DoubledAt([c] + s, '}', i) {
      assert i >= 1 ==> !DoubledAt(s, '}', i - 1);
    }
  }

  lemma {:induction false} BlockTagReads<T>(c: char, head: string, each: bool, title: string, fromStr: string -> Option<T>)
    requires head != "" && Trim(head) == head && BlockHead(head) == Some((each, title)) && Trim([c] + head) == [c] + head
    ensures c == '#' && fromStr(title).Some? ==> ReadTag([c] + head, fromStr) == OpenPiece(each, title, fromStr(title).value)
    ensures c == '/' ==> ReadTag([c] + head, fromStr) == ClosePiece(each, title)
  {
    assert ([c] + head)[1..] == head;
  }

  lemma {:induction false} MarkedHead(c: char, each: bool, title: string)
    requires Tight(title) && (c == '#' || c == '/')
    ensures
      var tag := [c] + ((if each then "each " else "if ") + title);
      Trim(tag) == tag && Free(tag, '}')
  {
    var head := (if each then "each " else "if ") + title;
    HeadReads(each, title);
    FreeAfter(c, head);
    assert ([c] + head)[|head|] == title[|title| - 1];
    TrimKeeps([c] + head);
  }

  /** A block start or end reads back as itself. */
  lemma {:induction false} BlockReads<T>(p: Piece<T>, fromStr: string -> Option<T>, show: T -> string)
    requires LegalPiece(p, fromStr, show) && (p.OpenPiece? || p.ClosePiece?)
    ensures Free(Inner(p, show), '}') && ReadTag(Inner(p, show), fromStr) == p
  {
    var head := (if p.each then "each " else "if ") + p.title;
    var c := if p.OpenPiece? then '#' else '/';
    HeadReads(p.each, p.title);
    MarkedHead(c, p.each, p.title);
    BlockTagReads(c, head, p.each, p.title, fromStr);
  }

  lemma {:induction false} VariableReads<T>(p: Piece<T>, fromStr: string -> Option<T>, show: T -> string)
    requires LegalPiece(p, fromStr, show) && p.VarPiece?
    ensures Free(Inner(p, show), '}') && ReadTag(Inner(p, show), fromStr) == p
  {
    var s := show(p.name);
    var tag := Inner(p, show);
    assert tag == (if p.escape then s else ['!'] + s);
    FreeAfter('!', s);
    TrimKeeps(tag);
    assert !p.escape ==> tag[1..] == s;
  }

  /** Cutting what was written gives back the pieces. */
  lemma {:induction false} LexWrite<T>(pieces: seq<Piece<T>>, fromStr: string -> Option<T>, show: T -> string)
    requires Legal(pieces, fromStr, show)
    ensures Lex(Write(pieces, show), fromStr) == pieces
    decreases |pieces|
  {
    if pieces == [] {
      assert FindDouble("", '{', 0).None?;
    } else if pieces[0].TextPiece? {
      var s := pieces[0].text;
      if |pieces| == 1 {
        assert Write(pieces, show) == s;
      } else {
        assert Write(pieces, show) == s + Write(pieces[1..], show);
        LexTag(s, pieces[1..], fromStr, show);
        assert pieces == [pieces[0]] + pieces[1..];
      }
    } else {
      LexTag("", pieces, fromStr, show);
      assert "" + Write(pieces, show) == Write(pieces, show);
    }
  }

  lemma {:induction false} LexCut<T>(s: string, inner: string, rest: string, fromStr: string -> Option<T>)
    requires Free(s, '{') && Free(inner, '}')
    ensures Lex(s + "{{" + (inner + "}}" + rest), fromStr) == TextPieces(s) + ([ReadTag(inner, fromStr)] + Lex(rest, fromStr))
  {
    SplitAt(s, inner + "}}" + rest, '{');
    SplitAt(inner, rest, '}');
  }

  lemma {:induction false} WriteTag<T>(s: string, pieces: seq<Piece<T>>, show: T -> string)
    requires pieces != [] && !pieces[0].TextPiece?
    ensures s + Write(pieces, show) == s + "{{" + (Inner(pieces[0], show) + "}}" + Write(pieces[1..], show))
  {}

  lemma {:induction false} TagReads<T>(p: Piece<T>, fromStr: string -> Option<T>, show: T -> string)
    requires LegalPiece(p, fromStr, show) && !p.TextPiece?
    ensures Free(Inner(p, show), '}') && ReadTag(Inner(p, show), fromStr) == p
  {
    if p.VarPiece? {
      VariableReads(p, fromStr, show);
    } else {
      BlockReads(p, fromStr, show);
    }
  }

  lemma {:induction false} LexTag<T>(s: string, pieces: seq<Piece<T>>, fromStr: string -> Option<T>, show: T -> string)
    requires pieces != [] && !pieces[0].TextPiece? && Legal(pieces, fromStr, show) && Free(s, '{')
    ensures Lex(s + Write(pieces, show), fromStr) == TextPieces(s) + pieces
    decreases |pieces|, 0
  {
    LexWrite(pieces[1..], fromStr, show);
    TagReads(pieces[0], fromStr, show);
    LexCut(s, Inner(pieces[0], show), Write(pieces[1..], show), fromStr);
    WriteTag(s, pieces, show);
    assert [pieces[0]] + pieces[1..] == pieces;
  }

  /** Round trip: a written tree parses, to its own layout, and renders as itself. */
  lemma {:induction false} WrittenTreeRenders<T>(t: Tree<T>, fromStr: string -> Option<T>, show: T -> string, vars: Variables<T>)
    requires WellFormed(t) && Legal(Spell(t), fromStr, show)
    ensures Compile(Lex(Write(Spell(t), show), fromStr), [], []) == Ok(Flatten(t, 0))
    ensures Nested(Flatten(t, 0)) && EvalAt(Flatten(t, 0), 0, vars, "") == Render(t, vars)
  {
    LexWrite(Spell(t), fromStr, show);
    CompilerCorrect(Spell(t), t, vars);
  }
}
