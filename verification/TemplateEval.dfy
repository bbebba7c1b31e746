/** Rendering a compiled template, and the tree semantics it agrees with. */
module TemplateEval {
  import opened Basics
  import opened TemplateSyntax

  // ---------------------------------------------------------------- escaping

  function EscapeChar(c: char): string {
    match c
    case '&' => "&amp;"
    case '<' => "&lt;"
    case '>' => "&gt;"
    case '"' => "&quot;"
    case '\'' => "&#39;"
    case _ => [c]
  }

  function HtmlEscape(s: string): string {
    if s == "" then "" else EscapeChar(s[0]) + HtmlEscape(s[1..])
  }

  /** Reads the five entities back, and leaves everything else. */
  function HtmlUnescape(s: string): string
    decreases |s|
  {
    if s == "" then ""
    else if "&amp;" <= s then "&" + HtmlUnescape(s[5..])
    else if "&lt;" <= s then "<" + HtmlUnescape(s[4..])
    else if "&gt;" <= s then ">" + HtmlUnescape(s[4..])
    else if "&quot;" <= s then "\"" + HtmlUnescape(s[6..])
    else if "&#39;" <= s then "'" + HtmlUnescape(s[5..])
    else [s[0]] + HtmlUnescape(s[1..])
  }

  /** Escaping loses nothing: the five entities read back as what they replaced. */
  lemma {:induction false} EscapeRoundTrip(s: string)
    ensures HtmlUnescape(HtmlEscape(s)) == s
  {
    if s != "" {
      EscapeRoundTrip(s[1..]);
      UnescapeOne(s[0], HtmlEscape(s[1..]));
    }
  }

  /** An escaped text has no character that could open a tag or close an attribute. */
  lemma {:induction false} EscapeSafe(s: string, i: nat)
    requires i < |HtmlEscape(s)|
    ensures HtmlEscape(s)[i] !in {'<', '>', '"', '\''}
  {
    if i >= |EscapeChar(s[0])| {
      EscapeSafe(s[1..], i - |EscapeChar(s[0])|);
    }
  }

  lemma {:induction false} UnescapeOne(c: char, rest: string)
    ensures HtmlUnescape(EscapeChar(c) + rest) == [c] + HtmlUnescape(rest)
  {
    var whole := EscapeChar(c) + rest;
    assert whole[|EscapeChar(c)|..] == rest;
    assert whole[0] == EscapeChar(c)[0] && (c == '&' || c == '<' || c == '>' || c == '"' || c == '\'' ==> whole[1] == EscapeChar(c)[1]);
    match c
    case '&' => assert "&amp;" <= whole;
    case '<' => assert "&lt;" <= whole;
    case '>' => assert "&gt;" <= whole;
    case '"' => assert "&quot;" <= whole;
    case '\'' => assert "&#39;" <= whole;
    case _ =>
  }

  method HtmlEscapeInto(result: string, input: string) returns (r: string)
    ensures r == result + HtmlEscape(input)
  {
    r := result;
    for i := 0 to |input|
      invariant r + HtmlEscape(input[i..]) == result + HtmlEscape(input)
    {
      assert input[i..][1..] == input[i + 1..];
      r := r + EscapeChar(input[i]);
    }
  }

  function Shown(value: string, escape: bool): string {
    if escape then HtmlEscape(value) else value
  }

  // ---------------------------------------------------------------- the tree semantics

  /** A tree in the scope of one entry of a block: variables and tests look only at the entry, and an
      inner `each` renders its body for that same entry. */
  function RenderEntry<T>(t: Tree<T>, entry: map<T, string>): string {
    match t
    case Nil => ""
    case Text(s, rest) => s + RenderEntry(rest, entry)
    case Var(name, escape, rest) =>
      (if name in entry then Shown(entry[name], escape) else "") + RenderEntry(rest, entry)
    case Nest(each, _, v, body, rest) =>
      (if each || v in entry then RenderEntry(body, entry) else "") + RenderEntry(rest, entry)
    case Stray(_, _, rest) => RenderEntry(rest, entry)
  }

  function RenderEntries<T>(t: Tree<T>, entries: seq<map<T, string>>): string {
    if entries == [] then "" else RenderEntry(t, entries[0]) + RenderEntries(t, entries[1..])
  }

  /** A tree outside every `each`. */
  function Render<T>(t: Tree<T>, vars: Variables<T>): string {
    match t
    case Nil => ""
    case Text(s, rest) => s + Render(rest, vars)
    case Var(name, escape, rest) =>
      (if name in vars && vars[name].Single? then Shown(vars[name].text, escape) else "") + Render(rest, vars)
    case Nest(each, _, v, body, rest) =>
      (if v !in vars then ""
       else if !each then Render(body, vars)
       else if vars[v].Block? then RenderEntries(body, vars[v].entries)
       else "") + Render(rest, vars)
    case Stray(_, _, rest) => Render(rest, vars)
  }

  // ---------------------------------------------------------------- the flat form

  predicate IsBlock<T>(item: Item<T>) {
    item.If? || item.ForEach?
  }

  /** Every block in `items[lo..hi]` ends after it starts and no later than `hi`. */
  predicate Inside<T>(items: seq<Item<T>>, lo: nat, hi: nat) {
    hi <= |items| && forall j :: lo <= j < hi && IsBlock(items[j]) ==> j < items[j].blockEnd <= hi
  }

  /** Jump targets are in bounds and blocks are properly nested. */
  predicate Nested<T>(items: seq<Item<T>>) {
    && Inside(items, 0, |items|)
    && forall i :: 0 <= i < |items| && IsBlock(items[i]) ==> Inside(items, i + 1, items[i].blockEnd)
  }

  /** `out`, then `items[pc..hi]` in the scope of one entry, jumping over the tests that fail. */
  function EvalBody<T>(items: seq<Item<T>>, pc: nat, hi: nat, entry: map<T, string>, out: string): string
    requires pc <= hi && Inside(items, pc, hi)
    decreases hi - pc
  {
    if pc == hi then out
    else match items[pc]
      case Static(s) => EvalBody(items, pc + 1, hi, entry, out + s)
      case Variable(name, escape) =>
        EvalBody(items, pc + 1, hi, entry, if name in entry then out + Shown(entry[name], escape) else out)
      case If(v, end) => EvalBody(items, if v in entry then pc + 1 else end, hi, entry, out)
      case ForEach(_, _) => EvalBody(items, pc + 1, hi, entry, out)
  }

  function EvalEntries<T>(items: seq<Item<T>>, pc: nat, hi: nat, entries: seq<map<T, string>>, out: string): string
    requires pc <= hi && Inside(items, pc, hi)
    decreases |entries|
  {
    if entries == [] then out
    else EvalEntries(items, pc, hi, entries[1..], EvalBody(items, pc, hi, entries[0], out))
  }

  /** `out`, then what an `each` item writes before its block is jumped over. */
  function EvalEach<T>(items: seq<Item<T>>, pc: nat, vars: Variables<T>, out: string): string
    requires Nested(items) && pc < |items| && items[pc].ForEach?
  {
    var v := items[pc].variable;
    if v in vars && vars[v].Block? then EvalEntries(items, pc + 1, items[pc].blockEnd, vars[v].entries, out) else out
  }

  /** `out`, then `items[pc..]`. */
  function EvalAt<T>(items: seq<Item<T>>, pc: nat, vars: Variables<T>, out: string): string
    requires Nested(items) && pc <= |items|
    decreases |items| - pc
  {
    if pc == |items| then out
    else match items[pc]
      case Static(s) => EvalAt(items, pc + 1, vars, out + s)
      case Variable(name, escape) =>
        EvalAt(items, pc + 1, vars, if name in vars && vars[name].Single? then out + Shown(vars[name].text, escape) else out)
      case If(v, end) => EvalAt(items, if v in vars then pc + 1 else end, vars, out)
      case ForEach(v, end) => EvalAt(items, end, vars, EvalEach(items, pc, vars, out))
  }

  // ---------------------------------------------------------------- agreement

  /** `t` lies at `items[pc..]`. */
  ghost predicate LiesAt<T>(t: Tree<T>, items: seq<Item<T>>, pc: nat) {
    pc + |Flatten(t, pc)| <= |items| && items[pc..pc + |Flatten(t, pc)|] == Flatten(t, pc)
  }

  function EndOf<T>(t: Tree<T>, pc: nat): nat {
    pc + |Flatten(t, pc)|
  }

  lemma {:induction false} LiesAtRest<T>(t: Tree<T>, items: seq<Item<T>>, pc: nat)
    requires (t.Text? || t.Var?) && LiesAt(t, items, pc)
    ensures items[pc] == if t.Text? then Static(t.text) else Variable(t.name, t.escape)
    ensures LiesAt(t.rest, items, pc + 1) && EndOf(t.rest, pc + 1) == EndOf(t, pc)
  {
    var here := items[pc..EndOf(t, pc)];
    assert here[1..] == items[pc + 1..EndOf(t, pc)];
    assert items[pc] == here[0];
  }

  /** A block item, then its body up to the block end, then what follows. */
  lemma {:induction false} LiesAtNest<T>(t: Tree<T>, items: seq<Item<T>>, pc: nat)
    requires t.Nest? && LiesAt(t, items, pc)
    ensures
      var end := EndOf(t.body, pc + 1);
      && items[pc] == (if t.each then ForEach(t.variable, end) else If(t.variable, end))
      && LiesAt(t.body, items, pc + 1) && LiesAt(t.rest, items, end) && EndOf(t.rest, end) == EndOf(t, pc)
  {
    var here, end := items[pc..EndOf(t, pc)], EndOf(t.body, pc + 1);
    var inner, after := Flatten(t.body, pc + 1), Flatten(t.rest, end);
    var head := if t.each then ForEach(t.variable, end) else If(t.variable, end);
    assert here == [head] + inner + after;
    assert here[0] == items[pc];
    Thirds([head], inner, after);
    SliceOfSlice(items, pc, EndOf(t, pc), 1, 1 + |inner|);
    SliceOfSlice(items, pc, EndOf(t, pc), 1 + |inner|, |here|);
  }

  lemma {:induction false} SliceOfSlice<T>(s: seq<T>, a: nat, b: nat, i: nat, j: nat)
    requires a <= b <= |s| && i <= j <= b - a
    ensures s[a..b][i..j] == s[a + i..a + j]
  {
    var whole := s[a..b];
    forall k | 0 <= k < j - i ensures whole[i..j][k] == s[a + i..a + j][k] {
      assert whole[i + k] == s[a + i + k];
    }
  }

  lemma {:induction false} Thirds<T>(a: seq<T>, b: seq<T>, c: seq<T>)
    ensures (a + b + c)[|a|..|a| + |b|] == b && (a + b + c)[|a| + |b|..|a + b + c|] == c
  {}

  lemma {:induction false} EvalBodyTree<T>(t: Tree<T>, items: seq<Item<T>>, pc: nat, hi: nat, entry: map<T, string>, out: string)
    requires LiesAt(t, items, pc) && EndOf(t, pc) <= hi && Inside(items, pc, hi)
    ensures EvalBody(items, pc, hi, entry, out) == EvalBody(items, EndOf(t, pc), hi, entry, out + RenderEntry(t, entry))
    decreases t
  {
    match t
    case Nil =>
      assert out + "" == out;
    case Text(s, rest) =>
      LiesAtRest(t, items, pc);
      EvalBodyTree(rest, items, pc + 1, hi, entry, out + s);
      Assoc(out, s, RenderEntry(rest, entry));
    case Var(name, escape, rest) =>
      LiesAtRest(t, items, pc);
      var shown := if name in entry then Shown(entry[name], escape) else "";
      assert out + "" == out;
      EvalBodyTree(rest, items, pc + 1, hi, entry, out + shown);
      Assoc(out, shown, RenderEntry(rest, entry));
    case Nest(each, _, v, body, rest) =>
      LiesAtNest(t, items, pc);
      var inner := if each || v in entry then RenderEntry(body, entry) else "";
      if each || v in entry {
        EvalBodyTree(body, items, pc + 1, hi, entry, out);
      }
      assert out + "" == out;
      EvalBodyTree(rest, items, EndOf(body, pc + 1), hi, entry, out + inner);
      Assoc(out, inner, RenderEntry(rest, entry));
    case Stray(_, _, rest) =>
      EvalBodyTree(rest, items, pc, hi, entry, out);
  }

  lemma {:induction false} EvalEntriesTree<T>(t: Tree<T>, items: seq<Item<T>>, pc: nat, entries: seq<map<T, string>>, out: string)
    requires LiesAt(t, items, pc) && Inside(items, pc, EndOf(t, pc))
    ensures EvalEntries(items, pc, EndOf(t, pc), entries, out) == out + RenderEntries(t, entries)
    decreases |entries|
  {
    if entries != [] {
      EvalBodyTree(t, items, pc, EndOf(t, pc), entries[0], out);
      EvalEntriesTree(t, items, pc, entries[1..], out + RenderEntry(t, entries[0]));
      Assoc(out, RenderEntry(t, entries[0]), RenderEntries(t, entries[1..]));
    }
  }

  /** What the block of a tree renders to, outside every `each`. */
  function RenderNest<T>(t: Tree<T>, vars: Variables<T>): string
    requires t.Nest?
  {
    if t.variable !in vars then ""
    else if !t.each then Render(t.body, vars)
    else if vars[t.variable].Block? then RenderEntries(t.body, vars[t.variable].entries)
    else ""
  }

  lemma {:induction false} EvalEachTree<T>(t: Tree<T>, items: seq<Item<T>>, pc: nat, vars: Variables<T>, out: string)
    requires Nested(items) && LiesAt(t, items, pc) && t.Nest? && t.each
    ensures items[pc].ForEach?
    ensures EvalEach(items, pc, vars, out) == out + RenderNest(t, vars)
  {
    LiesAtNest(t, items, pc);
    var v := t.variable;
    if v in vars && vars[v].Block? {
      assert Inside(items, pc + 1, items[pc].blockEnd);
      EvalEntriesTree(t.body, items, pc + 1, vars[v].entries, out);
    }
  }

  lemma {:induction false} EvalTree<T>(t: Tree<T>, items: seq<Item<T>>, pc: nat, vars: Variables<T>, out: string)
    requires Nested(items) && LiesAt(t, items, pc)
    ensures EvalAt(items, pc, vars, out) == EvalAt(items, EndOf(t, pc), vars, out + Render(t, vars))
    decreases t
  {
    match t
    case Nil =>
      assert out + "" == out;
    case Text(s, rest) =>
      LiesAtRest(t, items, pc);
      EvalTree(rest, items, pc + 1, vars, out + s);
      Assoc(out, s, Render(rest, vars));
    case Var(name, escape, rest) =>
      LiesAtRest(t, items, pc);
      var shown := if name in vars && vars[name].Single? then Shown(vars[name].text, escape) else "";
      assert out + "" == out;
      EvalTree(rest, items, pc + 1, vars, out + shown);
      Assoc(out, shown, Render(rest, vars));
    case Nest(each, _, v, body, rest) =>
      LiesAtNest(t, items, pc);
      if each {
        EvalEachTree(t, items, pc, vars, out);
      } else {
        EvalTree(body, items, pc + 1, vars, out);
        assert out + "" == out;
      }
      EvalTree(rest, items, EndOf(body, pc + 1), vars, out + RenderNest(t, vars));
      Assoc(out, RenderNest(t, vars), Render(rest, vars));
    case Stray(_, _, rest) =>
      EvalTree(rest, items, pc, vars, out);
  }

  /** Wherever a tree is laid out, its blocks stay inside it and are properly nested. */
  lemma {:induction false} FlattenNested<T>(t: Tree<T>, items: seq<Item<T>>, pc: nat)
    requires LiesAt(t, items, pc)
    ensures Inside(items, pc, EndOf(t, pc))
    ensures forall i :: pc <= i < EndOf(t, pc) && IsBlock(items[i]) ==> Inside(items, i + 1, items[i].blockEnd)
    decreases t
  {
    match t
    case Nil =>
    case Text(s, rest) =>
      LiesAtRest(t, items, pc);
      FlattenNested(rest, items, pc + 1);
    case Var(name, escape, rest) =>
      LiesAtRest(t, items, pc);
      FlattenNested(rest, items, pc + 1);
    case Nest(each, _, v, body, rest) =>
      LiesAtNest(t, items, pc);
      FlattenNested(body, items, pc + 1);
      FlattenNested(rest, items, EndOf(body, pc + 1));
    case Stray(_, _, rest) =>
      FlattenNested(rest, items, pc);
  }

  lemma {:induction false} LayoutNested<T>(t: Tree<T>)
    ensures Nested(Flatten(t, 0))
  {
    var items := Flatten(t, 0);
    assert items[0..|items|] == items;
    FlattenNested(t, items, 0);
  }

  /** The jumping evaluator renders the layout of a tree as the tree. */
  lemma {:induction false} EvalIsRender<T>(t: Tree<T>, vars: Variables<T>)
    ensures Nested(Flatten(t, 0)) && EvalAt(Flatten(t, 0), 0, vars, "") == Render(t, vars)
  {
    var items := Flatten(t, 0);
    LayoutNested(t);
    assert items[0..|items|] == items;
    EvalTree(t, items, 0, vars, "");
    assert "" + Render(t, vars) == Render(t, vars);
  }

  /** Compiler correctness: compiled pieces have well-nested jumps, and render as any tree they spell. */
  lemma {:induction false} CompilerCorrect<T>(pieces: seq<Piece<T>>, t: Tree<T>, vars: Variables<T>)
    requires WellFormed(t) && Spell(t) == pieces
    ensures Compile(pieces, [], []) == Ok(Flatten(t, 0))
    ensures Nested(Flatten(t, 0))
    ensures EvalAt(Flatten(t, 0), 0, vars, "") == Render(t, vars)
  {
    CompilesIffTree(pieces);
    EvalIsRender(t, vars);
  }

  // ---------------------------------------------------------------- the imperative forms

  /** The UTF-8 length of a text. */
  function Utf8Length(s: string): nat {
    if s == "" then 0
    else (if s[0] < '\U{80}' then 1 else if s[0] < '\U{800}' then 2 else if s[0] < '\U{10000}' then 3 else 4) + Utf8Length(s[1..])
  }

  /** The bytes of static text in a template. */
  function StaticBytes<T>(items: seq<Item<T>>): nat {
    if items == [] then 0
    else StaticBytes(items[..|items| - 1]) + if items[|items| - 1].Static? then Utf8Length(items[|items| - 1].text) else 0
  }

  lemma {:induction false} StaticBytesAppend<T>(items: seq<Item<T>>, item: Item<T>)
    ensures StaticBytes(items + [item]) == StaticBytes(items) + if item.Static? then Utf8Length(item.text) else 0
  {
    assert (items + [item])[..|items|] == items;
  }

  lemma {:induction false} StaticBytesUpdate<T>(items: seq<Item<T>>, pos: nat, item: Item<T>)
    requires pos < |items| && IsBlock(items[pos]) && IsBlock(item)
    ensures StaticBytes(items[pos := item]) == StaticBytes(items)
  {
    var last := |items| - 1;
    if pos < last {
      StaticBytesUpdate(items[..last], pos, item);
      assert items[pos := item][..last] == items[..last][pos := item];
    } else {
      assert items[pos := item][..last] == items[..last];
    }
  }

  lemma {:induction false} CompileStart<T>(start: string, after: seq<Piece<T>>, items: seq<Item<T>>, stack: Stack)
    requires StackOk(items, stack)
    ensures start == "" ==> Compile(TextPieces(start) + after, items, stack) == Compile(after, items, stack)
    ensures start != "" ==> StackOk(items + [Static(start)], stack)
    ensures start != "" ==> Compile(TextPieces(start) + after, items, stack) == Compile(after, items + [Static(start)], stack)
  {
    assert (TextPieces(start) + after)[|TextPieces<T>(start)|..] == after;
  }

  lemma {:induction false} ParseResult<T>(template: string, fromStr: string -> Option<T>)
    ensures
      var pieces := Lex(template, fromStr);
      var r := Compile(pieces, [], []);
      && (r.Ok? <==> exists t: Tree<T> :: WellFormed(t) && Spell(t) == pieces)
      && (r.Ok? ==> Nested(r.value))
      && forall t: Tree<T> :: WellFormed(t) && Spell(t) == pieces ==> r == Ok(Flatten(t, 0))
  {
    var pieces := Lex(template, fromStr);
    CompilesIffTree(pieces);
    if t: Tree<T> :| WellFormed(t) && Spell(t) == pieces {
      LayoutNested(t);
    }
  }

  /** One tag of `Template::parse`: the items and open blocks after it. */
  method ApplyTag<T>(tag: Piece<T>, items0: seq<Item<T>>, stack0: Stack, ghost after: seq<Piece<T>>)
    returns (r: Result<(seq<Item<T>>, Stack), Error>)
    requires StackOk(items0, stack0) && !tag.TextPiece?
    ensures r.Err? ==> Compile([tag] + after, items0, stack0) == Err(r.error)
    ensures r.Ok? ==> StackOk(r.value.0, r.value.1) && StaticBytes(r.value.0) == StaticBytes(items0)
    ensures r.Ok? ==> Compile([tag] + after, items0, stack0) == Compile(after, r.value.0, r.value.1)
  {
    assert ([tag] + after)[1..] == after;
    var items, stack := items0, stack0;
    match tag {
      case OpenPiece(each, title, v) =>
        StaticBytesAppend(items, Opener(each, v));
        stack := stack + [(title, |items|)];
        items := items + [Opener(each, v)];
      case ClosePiece(each, title) =>
        if stack != [] {
          var top := stack[|stack| - 1];
          match CloseTop(items, top, each, title) {
            case Err(e) =>
              return Err(e);
            case Ok(patched) =>
              StaticBytesUpdate(items, top.1, patched[top.1]);
              items := patched;
              stack := stack[..|stack| - 1];
          }
        }
      case VarPiece(name, escape) =>
        StaticBytesAppend(items, Variable(name, escape));
        items := items + [Variable(name, escape)];
      case BadPiece(e) =>
        return Err(e);
    }
    return Ok((items, stack));
  }

  /** Cuts a text at its first tag: the static text before it, and what follows `{{`. */
  method CutTag<T>(text: string, fromStr: string -> Option<T>) returns (start: string, cut: Option<Option<(string, string)>>)
    ensures cut.None? ==> start == text && Lex(text, fromStr) == TextPieces(start)
    ensures cut == Some(None) ==> Lex(text, fromStr) == TextPieces(start) + [BadPiece(UnmatchedBraces)]
    ensures cut.Some? && cut.value.Some? ==>
      var (inner, rest) := cut.value.value;
      |rest| < |text| && Lex(text, fromStr) == TextPieces(start) + ([ReadTag(inner, fromStr)] + Lex(rest, fromStr))
  {
    match SplitOnce(text, '{') {
      case None =>
        return text, None;
      case Some((before, end)) =>
        return before, Some(SplitOnce(end, '}'));
    }
  }

  /** Static text before a tag: pushed unless it is empty. */
  method PushStatic<T>(start: string, items0: seq<Item<T>>, size0: nat, ghost after: seq<Piece<T>>, ghost stack: Stack)
    returns (items: seq<Item<T>>, size: nat)
    requires StackOk(items0, stack) && size0 == StaticBytes(items0)
    ensures StackOk(items, stack) && size == StaticBytes(items)
    ensures Compile(TextPieces(start) + after, items0, stack) == Compile(after, items, stack)
  {
    CompileStart(start, after, items0, stack);
    items, size := items0, size0;
    if start != "" {
      StaticBytesAppend(items, Static(start));
      items := items + [Static(start)];
      size := size + Utf8Length(start);
    }
  }

  /** The compiler between two tags. */
  datatype Progress<T> = Progress(text: string, items: seq<Item<T>>, stack: Stack, size: nat)

  ghost predicate Consistent<T>(p: Progress<T>) {
    StackOk(p.items, p.stack) && p.size == StaticBytes(p.items)
  }

  /** Static text and the tag after it. */
  method TakeTag<T>(start: string, tag: Piece<T>, rest: string, p: Progress<T>, ghost after: seq<Piece<T>>)
    returns (next: Result<Progress<T>, Error>)
    requires Consistent(p) && !tag.TextPiece?
    ensures next.Err? ==> Compile(TextPieces(start) + ([tag] + after), p.items, p.stack) == Err(next.error)
    ensures next.Ok? ==>
      && Consistent(next.value) && next.value.text == rest
      && Compile(TextPieces(start) + ([tag] + after), p.items, p.stack) == Compile(after, next.value.items, next.value.stack)
  {
    var items, size := PushStatic(start, p.items, p.size, [tag] + after, p.stack);
    var step := ApplyTag(tag, items, p.stack, after);
    match step {
      case Err(e) => return Err(e);
      case Ok((newItems, newStack)) => return Ok(Progress(rest, newItems, newStack, size));
    }
  }

  /** The last piece of static text. */
  method TakeLast<T>(start: string, p: Progress<T>) returns (next: Progress<T>)
    requires Consistent(p)
    ensures Consistent(next) && Compile(TextPieces(start), p.items, p.stack) == Compile([], next.items, next.stack)
  {
    assert TextPieces<T>(start) + [] == TextPieces(start);
    var items, size := PushStatic(start, p.items, p.size, [], p.stack);
    return Progress("", items, p.stack, size);
  }

  lemma {:induction false} BadCompiles<T>(e: Error, items: seq<Item<T>>, stack: Stack)
    requires StackOk(items, stack)
    ensures Compile([BadPiece(e)], items, stack) == Err(e)
  {}

  /** An opening pair of braces that nothing closes. */
  lemma {:induction false} UnmatchedCompiles<T>(start: string, items: seq<Item<T>>, stack: Stack)
    requires StackOk(items, stack)
    ensures Compile(TextPieces(start) + [BadPiece(UnmatchedBraces)], items, stack) == Err(UnmatchedBraces)
  {
    CompileStart(start, [BadPiece(UnmatchedBraces)], items, stack);
    BadCompiles(UnmatchedBraces, items, stack);
    if start != "" {
      BadCompiles(UnmatchedBraces, items + [Static(start)], stack);
    }
  }

  /** One round of the loop of `Template::parse`; `None` after the last piece of static text. */
  method ParseStep<T>(p: Progress<T>, fromStr: string -> Option<T>, ghost result: Result<seq<Item<T>>, Error>)
    returns (next: Result<Progress<T>, Error>, last: bool)
    requires Consistent(p) && Compile(Lex(p.text, fromStr), p.items, p.stack) == result
    ensures next.Err? ==> result == Err(next.error)
    ensures next.Ok? ==> Consistent(next.value)
    ensures next.Ok? && !last ==> |next.value.text| < |p.text|
    ensures next.Ok? && !last ==> Compile(Lex(next.value.text, fromStr), next.value.items, next.value.stack) == result
    ensures next.Ok? && last ==> Compile([], next.value.items, next.value.stack) == result
  {
    var start, cut := CutTag(p.text, fromStr);
    match cut {
      case None =>
        var end := TakeLast(start, p);
        return Ok(end), true;
      case Some(None) =>
        UnmatchedCompiles(start, p.items, p.stack);
        return Err(UnmatchedBraces), false;
      case Some(Some((inner, rest))) =>
        next := TakeTag(start, ReadTag(inner, fromStr), rest, p, Lex(rest, fromStr));
        return next, false;
    }
  }

  /** crates/utils/src/template.rs, `Template::parse`: the loop. */
  method ParseItems<T>(template: string, fromStr: string -> Option<T>) returns (r: Result<Template<T>, Error>)
    ensures
      match Compile(Lex(template, fromStr), [], [])
      case Ok(items) => r.Ok? && r.value.items == items && r.value.size == StaticBytes(items)
      case Err(e) => r == Err(e)
  {
    ghost var result := Compile(Lex(template, fromStr), [], []);
    var p: Progress<T> := Progress(template, [], [], 0);
    var last := false;
    while !last
      invariant Consistent(p)
      invariant Compile(if last then [] else Lex(p.text, fromStr), p.items, p.stack) == result
      decreases !last, |p.text|
    {
      var next;
      next, last := ParseStep(p, fromStr, result);
      if next.Err? {
        return Err(next.error);
      }
      p := next.value;
    }
    if p.stack == [] {
      return Ok(Template(p.items, p.size));
    } else {
      return Err(UnclosedBlock(p.stack[|p.stack| - 1].0));
    }
  }

  /** crates/utils/src/template.rs, `Template::parse`: a text parses exactly when a well-formed tree
      spells it, and then to that tree's layout, with every jump in bounds and properly nested. */
  method Parse<T>(template: string, fromStr: string -> Option<T>) returns (r: Result<Template<T>, Error>)
    ensures r.Ok? <==> exists t: Tree<T> :: WellFormed(t) && Spell(t) == Lex(template, fromStr)
    ensures r.Ok? ==> Nested(r.value.items) && r.value.size == StaticBytes(r.value.items)
    ensures r.Ok? ==> forall t: Tree<T> :: WellFormed(t) && Spell(t) == Lex(template, fromStr) ==> r.value.items == Flatten(t, 0)
    ensures r.Err? ==> Compile(Lex(template, fromStr), [], []) == Err(r.error)
  {
    r := ParseItems(template, fromStr);
    ParseResult(template, fromStr);
  }

  method WriteVariable(result: string, value: string, escape: bool) returns (r: string)
    ensures r == result + Shown(value, escape)
  {
    if escape {
      r := HtmlEscapeInto(result, value);
    } else {
      r := result + value;
    }
  }

  /** The inner loop of `Template::eval`: one pass over a block's items for one entry. */
  method EvalEntry<T>(items: seq<Item<T>>, lo: nat, hi: nat, entry: map<T, string>, before: string) returns (result: string)
    requires lo <= hi && Inside(items, lo, hi)
    ensures result == EvalBody(items, lo, hi, entry, before)
  {
    result := before;
    var pos := lo;
    while pos < hi
      invariant lo <= pos <= hi
      invariant EvalBody(items, pos, hi, entry, result) == EvalBody(items, lo, hi, entry, before)
      decreases hi - pos
    {
      match items[pos] {
        case Static(s) =>
          result, pos := result + s, pos + 1;
        case Variable(name, escape) =>
          if name in entry {
            result := WriteVariable(result, entry[name], escape);
          }
          pos := pos + 1;
        case If(v, end) =>
          pos := if v !in entry then end else pos + 1;
        case ForEach(_, _) =>
          pos := pos + 1;
      }
    }
  }

  /** The middle loop of `Template::eval`: a block's items once per entry. */
  method EvalBlock<T>(items: seq<Item<T>>, lo: nat, hi: nat, entries: seq<map<T, string>>, before: string) returns (result: string)
    requires lo <= hi && Inside(items, lo, hi)
    ensures result == EvalEntries(items, lo, hi, entries, before)
  {
    result := before;
    for k := 0 to |entries|
      invariant EvalEntries(items, lo, hi, entries[k..], result) == EvalEntries(items, lo, hi, entries, before)
    {
      assert entries[k..][1..] == entries[k + 1..];
      result := EvalEntry(items, lo, hi, entries[k], result);
    }
  }

  /** crates/utils/src/template.rs, `Template::eval`. */
  method Eval<T>(template: Template<T>, vars: Variables<T>) returns (result: string)
    requires Nested(template.items)
    ensures forall t: Tree<T> :: template.items == Flatten(t, 0) ==> result == Render(t, vars)
  {
    var items := template.items;
    result := "";
    var pos := 0;
    while pos < |items|
      invariant 0 <= pos <= |items|
      invariant EvalAt(items, pos, vars, result) == EvalAt(items, 0, vars, "")
      decreases |items| - pos
    {
      match items[pos] {
        case Static(s) =>
          result, pos := result + s, pos + 1;
        case Variable(name, escape) =>
          if name in vars && vars[name].Single? {
            result := WriteVariable(result, vars[name].text, escape);
          }
          pos := pos + 1;
        case If(v, end) =>
          pos := if v !in vars then end else pos + 1;
        case ForEach(v, end) =>
          if v in vars && vars[v].Block? {
            result := EvalBlock(items, pos + 1, end, vars[v].entries, result);
          }
          pos := end;
      }
    }
    forall t: Tree<T> | items == Flatten(t, 0) ensures result == Render(t, vars) {
      EvalIsRender(t, vars);
    }
  }
}
