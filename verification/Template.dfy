/**
 The template language of crates/utils/src/template.rs.

 `Parse` flattens nested `if` and `each` blocks into one array whose block items carry the index
 their block ends at; `Eval` renders that array by jumping.  The reference is a tree: which trees a
 text spells (`Spell`), and what a tree renders to (`Render`).
 */
module TemplateSyntax {
  import opened Basics

  datatype Item<T> =
    | Static(text: string)
    | Variable(name: T, escape: bool)
    | If(variable: T, blockEnd: nat)
    | ForEach(variable: T, blockEnd: nat)

  datatype Template<T> = Template(items: seq<Item<T>>, size: nat)

  datatype Value<T> = Single(text: string) | Block(entries: seq<map<T, string>>)

  type Variables<T> = map<T, Value<T>>

  datatype Error =
    | UnmatchedBraces
    | InvalidBlockStart(name: string)
    | InvalidBlockEnd(name: string)
    | InvalidVariable(name: string)
    | NameMismatch(expected: string, got: string)
    | KindMismatch(name: string)
    | UnclosedBlock(name: string)

  // ---------------------------------------------------------------- text

  /** The characters Rust's `str::trim` removes: the Unicode White_Space property. */
  predicate IsWhitespace(c: char) {
    || '\U{9}' <= c <= '\U{D}' || c == ' ' || c == '\U{85}' || c == '\U{A0}' || c == '\U{1680}'
    || '\U{2000}' <= c <= '\U{200A}' || c == '\U{2028}' || c == '\U{2029}' || c == '\U{202F}'
    || c == '\U{205F}' || c == '\U{3000}'
  }

  function TrimStart(s: string): (r: string)
    ensures |r| <= |s|
    ensures r != [] ==> !IsWhitespace(r[0])
  {
    if s != [] && IsWhitespace(s[0]) then TrimStart(s[1..]) else s
  }

  function TrimEnd(s: string): (r: string)
    ensures r <= s
    ensures r != [] ==> !IsWhitespace(r[|r| - 1])
  {
    if s != [] && IsWhitespace(s[|s| - 1]) then TrimEnd(s[..|s| - 1]) else s
  }

  function Trim(s: string): (r: string)
    ensures r != [] ==> !IsWhitespace(r[0]) && !IsWhitespace(r[|r| - 1])
  {
    TrimEnd(TrimStart(s))
  }

  /** What follows `prefix`, when `s` starts with it. */
  function StripPrefix(s: string, prefix: string): (r: Option<string>)
    ensures r.Some? ==> s == prefix + r.value
    ensures r.None? ==> !(prefix <= s)
  {
    if prefix <= s then Some(s[|prefix|..]) else None
  }

  predicate DoubledAt(s: string, c: char, i: nat) {
    i + 1 < |s| && s[i] == c && s[i + 1] == c
  }

  /** Where `cc` first occurs in `s`, at or after `from`. */
  function FindDouble(s: string, c: char, from: nat): (r: Option<nat>)
    requires from <= |s|
    ensures r.Some? ==> from <= r.value && DoubledAt(s, c, r.value)
    decreases |s| - from
  {
    if from == |s| then None
    else if DoubledAt(s, c, from) then Some(from)
    else FindDouble(s, c, from + 1)
  }

  lemma {:induction false} FindDoubleIsFirst(s: string, c: char, from: nat, i: nat)
    requires from <= i && DoubledAt(s, c, i)
    ensures FindDouble(s, c, from).Some? && FindDouble(s, c, from).value <= i
    decreases i - from
  {
    if !DoubledAt(s, c, from) {
      FindDoubleIsFirst(s, c, from + 1, i);
    }
  }

  /** `split_once` with a doubled character as the separator. */
  function SplitOnce(s: string, c: char): (r: Option<(string, string)>)
    ensures r.Some? ==> s == r.value.0 + [c, c] + r.value.1
  {
    match FindDouble(s, c, 0)
    case None => None
    case Some(i) => Some((s[..i], s[i + 2..]))
  }

  // ---------------------------------------------------------------- pieces

  /** What a text is cut into: static text, variables, block starts and ends; `Bad` ends the list. */
  datatype Piece<T> =
    | TextPiece(text: string)
    | VarPiece(name: T, escape: bool)
    | OpenPiece(each: bool, title: string, variable: T)
    | ClosePiece(each: bool, title: string)
    | BadPiece(error: Error)

  /** The block kind and name after `#` or `/`. */
  function BlockHead(s: string): Option<(bool, string)> {
    match StripPrefix(s, "each ")
    case Some(name) => Some((true, name))
    case None =>
      match StripPrefix(s, "if ")
      case Some(name) => Some((false, name))
      case None => None
  }

  /** The piece a tag is, from what stands between its braces. */
  function ReadTag<T>(inner: string, fromStr: string -> Option<T>): (p: Piece<T>)
    ensures !p.TextPiece?
  {
    var tag := Trim(inner);
    match StripPrefix(tag, "#")
    case Some(raw) => (
      var head := Trim(raw);
      match BlockHead(head)
      case None => BadPiece(InvalidBlockStart(head))
      case Some((each, title)) =>
        match fromStr(title)
        case None => BadPiece(InvalidVariable(title))
        case Some(variable) => OpenPiece(each, title, variable))
    case None =>
      match StripPrefix(tag, "/")
      case Some(raw) => (
        var head := Trim(raw);
        match BlockHead(head)
        case None => BadPiece(InvalidBlockEnd(head))
        case Some((each, title)) => ClosePiece(each, title))
      case None =>
        var unescaped := StripPrefix(tag, "!");
        var name := if unescaped.Some? then unescaped.value else tag;
        match fromStr(name)
        case None => BadPiece(InvalidVariable(name))
        case Some(variable) => VarPiece(variable, unescaped.None?)
  }

  function TextPieces<T>(s: string): seq<Piece<T>> {
    if s == "" then [] else [TextPiece(s)]
  }

  function Lex<T>(text: string, fromStr: string -> Option<T>): seq<Piece<T>>
    decreases |text|
  {
    match SplitOnce(text, '{')
    case None => TextPieces(text)
    case Some((start, end)) =>
      TextPieces(start) +
      match SplitOnce(end, '}')
      case None => [BadPiece(UnmatchedBraces)]
      case Some((inner, rest)) => [ReadTag(inner, fromStr)] + Lex(rest, fromStr)
  }

  // ---------------------------------------------------------------- the compiler

  type Stack = seq<(string, nat)>

  predicate StackOk<T>(items: seq<Item<T>>, stack: Stack) {
    forall i :: 0 <= i < |stack| ==> stack[i].1 < |items| && !items[stack[i].1].Static? && !items[stack[i].1].Variable?
  }

  function Opener<T>(each: bool, variable: T): Item<T> {
    if each then ForEach(variable, 0) else If(variable, 0)
  }

  /** Closing the innermost open block: its end is patched in, if the names and kinds agree. */
  function CloseTop<T>(items: seq<Item<T>>, top: (string, nat), each: bool, title: string): Result<seq<Item<T>>, Error>
    requires top.1 < |items|
  {
    if top.0 != title then Err(NameMismatch(top.0, title))
    else match items[top.1]
      case If(v, _) => if each then Err(KindMismatch(title)) else Ok(items[top.1 := If(v, |items|)])
      case ForEach(v, _) => if each then Ok(items[top.1 := ForEach(v, |items|)]) else Err(KindMismatch(title))
      case _ => Err(KindMismatch(title))
  }

  /** What the compiler makes of the remaining pieces, given its items and open blocks so far. */
  function Compile<T>(pieces: seq<Piece<T>>, items: seq<Item<T>>, stack: Stack): (r: Result<seq<Item<T>>, Error>)
    requires StackOk(items, stack)
    decreases |pieces|
  {
    if pieces == [] then
      if stack == [] then Ok(items) else Err(UnclosedBlock(stack[|stack| - 1].0))
    else
      match pieces[0]
      case TextPiece(s) => Compile(pieces[1..], items + [Static(s)], stack)
      case VarPiece(name, escape) => Compile(pieces[1..], items + [Variable(name, escape)], stack)
      case OpenPiece(each, title, v) =>
        Compile(pieces[1..], items + [Opener(each, v)], stack + [(title, |items|)])
      case ClosePiece(each, title) => (
        if stack == [] then Compile(pieces[1..], items, stack)
        else
          match CloseTop(items, stack[|stack| - 1], each, title)
          case Err(e) => Err(e)
          case Ok(patched) => Compile(pieces[1..], patched, stack[..|stack| - 1]))
      case BadPiece(e) => Err(e)
  }

  // ---------------------------------------------------------------- the tree

  /** A template as a tree, in first-child, next-sibling form.  A `Stray` is a block end outside every block. */
  datatype Tree<T> =
    | Nil
    | Text(text: string, rest: Tree<T>)
    | Var(name: T, escape: bool, rest: Tree<T>)
    | Nest(each: bool, title: string, variable: T, body: Tree<T>, rest: Tree<T>)
    | Stray(each: bool, title: string, rest: Tree<T>)

  predicate NoStray<T>(t: Tree<T>) {
    match t
    case Nil => true
    case Text(_, rest) => NoStray(rest)
    case Var(_, _, rest) => NoStray(rest)
    case Nest(_, _, _, body, rest) => NoStray(body) && NoStray(rest)
    case Stray(_, _, _) => false
  }

  /** A block end inside a block always closes one, so strays occur only outside all blocks. */
  predicate WellFormed<T>(t: Tree<T>) {
    match t
    case Nil => true
    case Text(_, rest) => WellFormed(rest)
    case Var(_, _, rest) => WellFormed(rest)
    case Nest(_, _, _, body, rest) => NoStray(body) && WellFormed(rest)
    case Stray(_, _, rest) => WellFormed(rest)
  }

  /** The pieces a tree is written as. */
  function Spell<T>(t: Tree<T>): seq<Piece<T>> {
    match t
    case Nil => []
    case Text(s, rest) => [TextPiece(s)] + Spell(rest)
    case Var(name, escape, rest) => [VarPiece(name, escape)] + Spell(rest)
    case Nest(each, title, v, body, rest) =>
      [OpenPiece(each, title, v)] + Spell(body) + [ClosePiece(each, title)] + Spell(rest)
    case Stray(each, title, rest) => [ClosePiece(each, title)] + Spell(rest)
  }

  /** The items of a tree laid out from index `base` on. */
  function Flatten<T>(t: Tree<T>, base: nat): seq<Item<T>> {
    match t
    case Nil => []
    case Text(s, rest) => [Static(s)] + Flatten(rest, base + 1)
    case Var(name, escape, rest) => [Variable(name, escape)] + Flatten(rest, base + 1)
    case Nest(each, title, v, body, rest) =>
      var inner := Flatten(body, base + 1);
      var end := base + 1 + |inner|;
      [if each then ForEach(v, end) else If(v, end)] + inner + Flatten(rest, end)
    case Stray(_, _, rest) => Flatten(rest, base)
  }

  /** The block item at `pos`, with its end set to the end of `items`. */
  function Patch<T>(items: seq<Item<T>>, pos: nat, each: bool, variable: T): (r: seq<Item<T>>)
    requires pos < |items|
  {
    items[pos := if each then ForEach(variable, |items|) else If(variable, |items|)]
  }

  /** Appending the items of a tree one at a time, patching each block when it closes. */
  function Append<T>(t: Tree<T>, items: seq<Item<T>>): (r: seq<Item<T>>)
    ensures items <= r
    decreases t
  {
    match t
    case Nil => items
    case Text(s, rest) => Append(rest, items + [Static(s)])
    case Var(name, escape, rest) => Append(rest, items + [Variable(name, escape)])
    case Nest(each, _, v, body, rest) =>
      var inner := Append(body, items + [Opener(each, v)]);
      assert inner[..|items|] == items;
      Append(rest, Patch(inner, |items|, each, v))
    case Stray(_, _, rest) => Append(rest, items)
  }

  lemma {:induction false} AppendIsFlatten<T>(t: Tree<T>, items: seq<Item<T>>)
    ensures Append(t, items) == items + Flatten(t, |items|)
    decreases t
  {
    match t
    case Nil =>
    case Text(s, rest) => AppendIsFlatten(rest, items + [Static(s)]);
    case Var(name, escape, rest) => AppendIsFlatten(rest, items + [Variable(name, escape)]);
    case Nest(each, _, v, body, rest) =>
      AppendIsFlatten(body, items + [Opener(each, v)]);
      AppendIsFlatten(rest, Closed(t, items));
      ClosedIsFlatten(t, items, Flatten(body, |items| + 1));
    case Stray(_, _, rest) => AppendIsFlatten(rest, items);
  }

  lemma {:induction false} ClosedIsFlatten<T>(t: Tree<T>, items: seq<Item<T>>, inner: seq<Item<T>>)
    requires t.Nest? && inner == Flatten(t.body, |items| + 1)
    requires Append(t.body, items + [Opener(t.each, t.variable)]) == items + [Opener(t.each, t.variable)] + inner
    ensures |Closed(t, items)| == |items| + 1 + |inner|
    ensures Closed(t, items) + Flatten(t.rest, |items| + 1 + |inner|) == items + Flatten(t, |items|)
  {
    var end := |items| + 1 + |inner|;
    assert Closed(t, items) == items + [if t.each then ForEach(t.variable, end) else If(t.variable, end)] + inner;
  }

  lemma {:induction false} StackGrows<T>(items: seq<Item<T>>, longer: seq<Item<T>>, stack: Stack)
    requires StackOk(items, stack) && items <= longer
    ensures StackOk(longer, stack)
  {}

  /** Compiling the pieces of a tree without strays appends its items, whatever follows. */
  lemma {:induction false} CompileBody<T>(t: Tree<T>, after: seq<Piece<T>>, items: seq<Item<T>>, stack: Stack)
    requires NoStray(t) && StackOk(items, stack)
    ensures StackOk(Append(t, items), stack)
    ensures Compile(Spell(t) + after, items, stack) == Compile(after, Append(t, items), stack)
    decreases t
  {
    StackGrows(items, Append(t, items), stack);
    match t
    case Nil =>
      assert Spell(t) + after == after;
    case Text(s, rest) =>
      assert Spell(t) + after == [TextPiece(s)] + (Spell(rest) + after);
      CompileBody(rest, after, items + [Static(s)], stack);
    case Var(name, escape, rest) =>
      assert Spell(t) + after == [VarPiece(name, escape)] + (Spell(rest) + after);
      CompileBody(rest, after, items + [Variable(name, escape)], stack);
    case Nest(each, title, v, body, rest) =>
      CompileNest(t, after, items, stack);
      CompileBody(rest, after, Closed(t, items), stack);
  }

  /** The items once the block `t` has been appended and closed. */
  function Closed<T>(t: Tree<T>, items: seq<Item<T>>): (r: seq<Item<T>>)
    requires t.Nest?
    ensures items <= r
  {
    var inner := Append(t.body, items + [Opener(t.each, t.variable)]);
    assert inner[..|items|] == items;
    Patch(inner, |items|, t.each, t.variable)
  }

  /** One whole block: begun, compiled, and its end patched to the index after its body. */
  lemma {:induction false} CompileNest<T>(t: Tree<T>, after: seq<Piece<T>>, items: seq<Item<T>>, stack: Stack)
    requires t.Nest? && NoStray(t.body) && StackOk(items, stack)
    ensures StackOk(Closed(t, items), stack)
    ensures Compile(Spell(t) + after, items, stack) == Compile(Spell(t.rest) + after, Closed(t, items), stack)
    decreases t, 0
  {
    StackGrows(items, Closed(t, items), stack);
    var begun := items + [Opener(t.each, t.variable)];
    var inside := stack + [(t.title, |items|)];
    var close := [ClosePiece(t.each, t.title)] + (Spell(t.rest) + after);
    assert Spell(t) + after == [OpenPiece(t.each, t.title, t.variable)] + (Spell(t.body) + close);
    StackGrows(items, begun, stack);
    CompileBody(t.body, close, begun, inside);
    CompileClose(close, Append(t.body, begun), stack, t.each, t.title, |items|, t.variable);
  }

  lemma {:induction false} CompileClose<T>(pieces: seq<Piece<T>>, items: seq<Item<T>>, stack: Stack,
                        each: bool, title: string, pos: nat, v: T)
    requires pieces != [] && pieces[0] == ClosePiece(each, title)
    requires pos < |items| && items[pos] == Opener(each, v)
    requires StackOk(items, stack) && StackOk(Patch(items, pos, each, v), stack)
    requires StackOk(items, stack + [(title, pos)])
    ensures Compile(pieces, items, stack + [(title, pos)]) == Compile(pieces[1..], Patch(items, pos, each, v), stack)
  {
    assert (stack + [(title, pos)])[..|stack|] == stack;
  }

  /** Every well-formed tree compiles to its items. */
  lemma {:induction false} CompileTree<T>(t: Tree<T>, items: seq<Item<T>>)
    requires WellFormed(t)
    ensures Compile(Spell(t), items, []) == Ok(Append(t, items))
    decreases t
  {
    match t
    case Nil =>
    case Text(s, rest) => CompileTree(rest, items + [Static(s)]);
    case Var(name, escape, rest) => CompileTree(rest, items + [Variable(name, escape)]);
    case Nest(each, title, v, body, rest) =>
      assert Spell(t) + [] == Spell(t) && Spell(rest) + [] == Spell(rest);
      CompileNest(t, [], items, []);
      CompileTree(rest, Closed(t, items));
    case Stray(each, title, rest) => CompileTree(rest, items);
  }

  /** With a block open, pieces that compile begin with a tree and then the end of that block. */
  lemma {:induction false} ReadBody<T>(pieces: seq<Piece<T>>, items: seq<Item<T>>, stack: Stack)
    returns (body: Tree<T>, after: seq<Piece<T>>)
    requires StackOk(items, stack) && stack != [] && Compile(pieces, items, stack).Ok?
    ensures NoStray(body) && pieces == Spell(body) + after
    ensures after != [] && after[0].ClosePiece?
    decreases |pieces|
  {
    match pieces[0]
    case TextPiece(s) =>
      body, after := ReadBody(pieces[1..], items + [Static(s)], stack);
      body := Text(s, body);
    case VarPiece(name, escape) =>
      body, after := ReadBody(pieces[1..], items + [Variable(name, escape)], stack);
      body := Var(name, escape, body);
    case ClosePiece(_, _) =>
      body, after := Nil, pieces;
    case OpenPiece(each, title, v) =>
      var nest, closing := ReadNest(pieces, items, stack);
      body, after := ReadBody(closing, Closed(nest, items), stack);
      ExtendNest(nest, body, after);
      body := Nest(each, title, v, nest.body, body);
    case BadPiece(_) =>
      assert false;
  }

  lemma {:induction false} ExtendNest<T>(nest: Tree<T>, rest: Tree<T>, after: seq<Piece<T>>)
    requires nest.Nest? && nest.rest.Nil?
    ensures Spell(Nest(nest.each, nest.title, nest.variable, nest.body, rest)) + after == Spell(nest) + (Spell(rest) + after)
  {}

  /** A block start that compiles is followed by a tree and its own block end. */
  lemma {:induction false} ReadNest<T>(pieces: seq<Piece<T>>, items: seq<Item<T>>, stack: Stack)
    returns (nest: Tree<T>, after: seq<Piece<T>>)
    requires StackOk(items, stack) && pieces != [] && pieces[0].OpenPiece? && Compile(pieces, items, stack).Ok?
    ensures nest.Nest? && NoStray(nest.body) && nest.rest.Nil? && pieces == Spell(nest) + after
    ensures pieces[0] == OpenPiece(nest.each, nest.title, nest.variable)
    ensures StackOk(Closed(nest, items), stack)
    ensures Compile(after, Closed(nest, items), stack) == Compile(pieces, items, stack)
    decreases |pieces|, 0
  {
    var OpenPiece(each, title, v) := pieces[0];
    var begun := items + [Opener(each, v)];
    var inside := stack + [(title, |items|)];
    StackGrows(items, begun, stack);
    var inner, closing := ReadBody(pieces[1..], begun, inside);
    CompileBody(inner, closing, begun, inside);
    assert Append(inner, begun)[|items|] == Opener(each, v);
    assert closing[0] == ClosePiece(each, title);
    after := closing[1..];
    nest := Nest(each, title, v, inner, Nil);
    SpellNest(nest, pieces, closing);
    CompileNest(nest, after, items, stack);
    assert Spell(nest.rest) + after == after;
  }

  lemma {:induction false} SpellNest<T>(nest: Tree<T>, pieces: seq<Piece<T>>, closing: seq<Piece<T>>)
    requires nest.Nest? && nest.rest.Nil? && pieces != [] && closing != []
    requires pieces[0] == OpenPiece(nest.each, nest.title, nest.variable)
    requires closing[0] == ClosePiece(nest.each, nest.title)
    requires pieces[1..] == Spell(nest.body) + closing
    ensures pieces == Spell(nest) + closing[1..]
  {
    assert pieces == [pieces[0]] + pieces[1..];
    assert closing == [closing[0]] + closing[1..];
  }

  /** Only the pieces of well-formed trees compile. */
  lemma {:induction false} ReadTree<T>(pieces: seq<Piece<T>>, items: seq<Item<T>>) returns (t: Tree<T>)
    requires Compile(pieces, items, []).Ok?
    ensures WellFormed(t) && Spell(t) == pieces
    decreases |pieces|
  {
    if pieces == [] { return Nil; }
    match pieces[0]
    case TextPiece(s) =>
      t := ReadTree(pieces[1..], items + [Static(s)]);
      t := Text(s, t);
    case VarPiece(name, escape) =>
      t := ReadTree(pieces[1..], items + [Variable(name, escape)]);
      t := Var(name, escape, t);
    case ClosePiece(each, title) =>
      t := ReadTree(pieces[1..], items);
      t := Stray(each, title, t);
    case OpenPiece(each, title, v) =>
      var nest, after := ReadNest(pieces, items, []);
      t := ReadTree(after, Closed(nest, items));
      ExtendNest(nest, t, []);
      t := Nest(each, title, v, nest.body, t);
    case BadPiece(_) =>
      assert false;
  }

  /** Pieces compile exactly when some well-formed tree spells them, and then to that tree's layout. */
  lemma {:induction false} CompilesIffTree<T>(pieces: seq<Piece<T>>)
    ensures Compile(pieces, [], []).Ok? <==> exists t: Tree<T> :: WellFormed(t) && Spell(t) == pieces
    ensures forall t: Tree<T> :: WellFormed(t) && Spell(t) == pieces ==> Compile(pieces, [], []) == Ok(Flatten(t, 0))
  {
    if Compile(pieces, [], []).Ok? {
      var t := ReadTree(pieces, []);
      assert WellFormed(t) && Spell(t) == pieces;
    }
    forall t: Tree<T> | WellFormed(t) && Spell(t) == pieces
      ensures Compile(pieces, [], []) == Ok(Flatten(t, 0))
    {
      CompileTree(t, []);
      AppendIsFlatten(t, []);
      assert [] + Flatten(t, 0) == Flatten(t, 0);
    }
  }
}
