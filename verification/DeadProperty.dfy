/**
 The dead properties of a WebDAV resource (crates/types/src/dead_property.rs): one flat sequence of
 start tags, end tags and text that has to behave like a table from property names to values.
 */
module DeadProperties {
  import opened Basics

  datatype Tag = Start(name: string, attrs: Option<string>) | End | Text(text: string)

  // ---------------------------------------------------------------- the scans

  function Minus1(depth: nat): nat {
    if depth == 0 then 0 else depth - 1
  }

  /** `find_tag` over the tags still to come, with `out` collected so far. */
  function FindFrom(tags: seq<Tag>, needle: string, depth: nat, found: bool, out: seq<Tag>): Option<seq<Tag>> {
    if tags == [] then (if found then Some(out) else None)
    else
      var tag := tags[0];
      var kept := if found then out + [tag] else out;
      match tag
      case Start(name, _) =>
        if depth == 0 && name == needle then FindFrom(tags[1..], needle, depth + 1, true, out)
        else FindFrom(tags[1..], needle, depth + 1, found, kept)
      case End =>
        if found && depth == 1 then Some(out)
        else FindFrom(tags[1..], needle, Minus1(depth), found, kept)
      case Text(_) => FindFrom(tags[1..], needle, depth, found, kept)
  }

  function Find(tags: seq<Tag>, needle: string): Option<seq<Tag>> {
    FindFrom(tags, needle, 0, false, [])
  }

  /** What `remove_element` retains of the tags still to come. */
  function KeptFrom(tags: seq<Tag>, name: string, depth: int, remove: bool): seq<Tag> {
    if tags == [] then []
    else
      match tags[0]
      case Start(n, _) =>
        var removing := remove || (depth == 0 && n == name);
        (if removing then [] else [tags[0]]) + KeptFrom(tags[1..], name, depth + 1, removing)
      case End =>
        (if remove then [] else [tags[0]]) + KeptFrom(tags[1..], name, depth - 1, remove && depth != 1)
      case Text(_) =>
        (if remove then [] else [tags[0]]) + KeptFrom(tags[1..], name, depth, remove)
  }

  function Remove(tags: seq<Tag>, name: string): seq<Tag> {
    KeptFrom(tags, name, 0, false)
  }

  function Add(tags: seq<Tag>, name: string, attrs: Option<string>, values: seq<Tag>): seq<Tag> {
    tags + [Start(name, attrs)] + values + [End]
  }

  // ---------------------------------------------------------------- forests

  /** XML content: its first node, and the nodes that follow it. */
  datatype Forest =
    | Nil
    | Words(text: string, rest: Forest)
    | Element(name: string, attrs: Option<string>, children: Forest, rest: Forest)

  function Flatten(f: Forest): seq<Tag> {
    match f
    case Nil => []
    case Words(text, rest) => [Text(text)] + Flatten(rest)
    case Element(name, attrs, children, rest) =>
      [Start(name, attrs)] + (Flatten(children) + ([End] + Flatten(rest)))
  }

  /** The content of the first element of that name, not looking inside any other. */
  function Lookup(f: Forest, needle: string): Option<seq<Tag>> {
    match f
    case Nil => None
    case Words(_, rest) => Lookup(rest, needle)
    case Element(name, _, children, rest) =>
      if name == needle then Some(Flatten(children)) else Lookup(rest, needle)
  }

  /** Everything but the elements of that name at the top. */
  function Without(f: Forest, name: string): Forest {
    match f
    case Nil => Nil
    case Words(text, rest) => Words(text, Without(rest, name))
    case Element(n, attrs, children, rest) =>
      if n == name then Without(rest, name) else Element(n, attrs, children, Without(rest, name))
  }

  function Then(f: Forest, g: Forest): Forest {
    match f
    case Nil => g
    case Words(text, rest) => Words(text, Then(rest, g))
    case Element(n, attrs, children, rest) => Element(n, attrs, children, Then(rest, g))
  }

  // ---------------------------------------------------------------- balance

  /** Every end tag closes an open element, and `depth` of those open now are closed at the end. */
  predicate BalancedFrom(tags: seq<Tag>, depth: nat) {
    if tags == [] then depth == 0
    else
      match tags[0]
      case Start(_, _) => BalancedFrom(tags[1..], depth + 1)
      case End => depth > 0 && BalancedFrom(tags[1..], depth - 1)
      case Text(_) => BalancedFrom(tags[1..], depth)
  }

  predicate Balanced(tags: seq<Tag>) {
    BalancedFrom(tags, 0)
  }

  /** Forests with end tags between them: what is left to read inside open elements. */
  function Joined(fs: seq<Forest>): seq<Tag>
    requires fs != []
  {
    if |fs| == 1 then Flatten(fs[0]) else Flatten(fs[0]) + ([End] + Joined(fs[1..]))
  }

  lemma {:induction false} JoinedHead(tag: Tag, f: Forest, g: Forest, fs: seq<Forest>)
    requires Flatten(g) == [tag] + Flatten(f)
    ensures Joined([g] + fs) == [tag] + Joined([f] + fs)
  {
    assert ([g] + fs)[1..] == fs && ([f] + fs)[1..] == fs;
    if fs != [] {
      Assoc([tag], Flatten(f), [End] + Joined(fs));
    }
  }

  lemma {:induction false} JoinedElement(name: string, attrs: Option<string>, f: Forest, g: Forest, fs: seq<Forest>)
    ensures Joined([Element(name, attrs, f, g)] + fs) == [Start(name, attrs)] + Joined([f, g] + fs)
  {
    assert [f, g] + fs == [f] + ([g] + fs);
    assert ([f] + ([g] + fs))[1..] == [g] + fs;
    assert ([g] + fs)[1..] == fs && ([Element(name, attrs, f, g)] + fs)[1..] == fs;
    if fs != [] {
      Shuffle([Start(name, attrs)], Flatten(f), [End], Flatten(g), [End] + Joined(fs));
    }
  }

  lemma {:induction false} Shuffle<T>(a: seq<T>, b: seq<T>, c: seq<T>, d: seq<T>, e: seq<T>)
    ensures (a + (b + (c + d))) + e == a + (b + (c + (d + e)))
  {}

  lemma {:induction false} Unflatten(tags: seq<Tag>, depth: nat) returns (fs: seq<Forest>)
    requires BalancedFrom(tags, depth)
    ensures |fs| == depth + 1 && Joined(fs) == tags
    decreases |tags|
  {
    if tags == [] {
      return [Nil];
    }
    assert tags == [tags[0]] + tags[1..];
    match tags[0]
    case Start(name, attrs) =>
      var gs := Unflatten(tags[1..], depth + 1);
      assert gs == [gs[0], gs[1]] + gs[2..];
      JoinedElement(name, attrs, gs[0], gs[1], gs[2..]);
      fs := [Element(name, attrs, gs[0], gs[1])] + gs[2..];
    case End =>
      var gs := Unflatten(tags[1..], depth - 1);
      fs := [Nil] + gs;
      assert fs[1..] == gs;
      assert [] + ([End] + Joined(gs)) == [End] + Joined(gs);
    case Text(text) =>
      var gs := Unflatten(tags[1..], depth);
      assert gs == [gs[0]] + gs[1..];
      JoinedHead(Text(text), gs[0], Words(text, gs[0]), gs[1..]);
      fs := [Words(text, gs[0])] + gs[1..];
  }

  lemma {:induction false} FlattenBalanced(f: Forest, depth: nat, tail: seq<Tag>)
    ensures BalancedFrom(Flatten(f) + tail, depth) == BalancedFrom(tail, depth)
    decreases f
  {
    match f
    case Nil =>
      assert [] + tail == tail;
    case Words(text, rest) =>
      Assoc([Text(text)], Flatten(rest), tail);
      FlattenBalanced(rest, depth, tail);
    case Element(name, attrs, children, rest) =>
      Shuffle([Start(name, attrs)], Flatten(children), [End], Flatten(rest), tail);
      FlattenBalanced(children, depth + 1, [End] + (Flatten(rest) + tail));
      FlattenBalanced(rest, depth, tail);
  }

  /** Balanced sequences are exactly the flattened forests. */
  lemma {:induction false} BalancedIffForest(tags: seq<Tag>)
    ensures Balanced(tags) <==> exists f :: Flatten(f) == tags
  {
    if Balanced(tags) {
      var fs := Unflatten(tags, 0);
      assert Flatten(fs[0]) == tags;
    }
    forall f | Flatten(f) == tags ensures Balanced(tags) {
      FlattenBalanced(f, 0, []);
      assert tags + [] == tags;
    }
  }

  lemma {:induction false} ForestOf(tags: seq<Tag>) returns (f: Forest)
    requires Balanced(tags)
    ensures Flatten(f) == tags
  {
    BalancedIffForest(tags);
    f :| Flatten(f) == tags;
  }

  // ---------------------------------------------------------------- finding

  /** Inside the element found, whole forests are collected. */
  lemma {:induction false} FindCollects(f: Forest, needle: string, depth: nat, out: seq<Tag>, tail: seq<Tag>)
    requires depth >= 1
    ensures FindFrom(Flatten(f) + tail, needle, depth, true, out) == FindFrom(tail, needle, depth, true, out + Flatten(f))
    decreases f
  {
    match f
    case Nil =>
      assert [] + tail == tail && out + [] == out;
    case Words(text, rest) =>
      Assoc([Text(text)], Flatten(rest), tail);
      FindCollects(rest, needle, depth, out + [Text(text)], tail);
      Assoc(out, [Text(text)], Flatten(rest));
    case Element(name, attrs, children, rest) =>
      var start := Start(name, attrs);
      Shuffle([start], Flatten(children), [End], Flatten(rest), tail);
      FindCollects(children, needle, depth + 1, out + [start], [End] + (Flatten(rest) + tail));
      var inner := (out + [start]) + Flatten(children);
      FindCollects(rest, needle, depth, inner + [End], tail);
      Unshuffle(out, [start], Flatten(children), [End], Flatten(rest));
  }

  lemma {:induction false} Unshuffle<T>(a: seq<T>, b: seq<T>, c: seq<T>, d: seq<T>, e: seq<T>)
    ensures (((a + b) + c) + d) + e == a + (b + (c + (d + e)))
  {}

  /** Inside other elements, whole forests are passed over, whatever names they hold. */
  lemma {:induction false} FindPasses(f: Forest, needle: string, depth: nat, tail: seq<Tag>)
    requires depth >= 1
    ensures FindFrom(Flatten(f) + tail, needle, depth, false, []) == FindFrom(tail, needle, depth, false, [])
    decreases f
  {
    match f
    case Nil =>
      assert [] + tail == tail;
    case Words(text, rest) =>
      Assoc([Text(text)], Flatten(rest), tail);
      FindPasses(rest, needle, depth, tail);
    case Element(name, attrs, children, rest) =>
      Shuffle([Start(name, attrs)], Flatten(children), [End], Flatten(rest), tail);
      FindPasses(children, needle, depth + 1, [End] + (Flatten(rest) + tail));
      FindPasses(rest, needle, depth, tail);
  }

  /** `find_tag` on a flattened forest is the lookup at its top. */
  lemma {:induction false} FindIsLookup(f: Forest, needle: string)
    ensures Find(Flatten(f), needle) == Lookup(f, needle)
    decreases f
  {
    match f
    case Nil =>
    case Words(text, rest) =>
      FindIsLookup(rest, needle);
    case Element(name, attrs, children, rest) =>
      var tail := [End] + Flatten(rest);
      if name == needle {
        FindCollects(children, needle, 1, [], tail);
        assert [] + Flatten(children) == Flatten(children);
      } else {
        FindPasses(children, needle, 1, tail);
        FindIsLookup(rest, needle);
      }
  }

  // ---------------------------------------------------------------- removing

  /** Below the top, forests are kept or dropped whole. */
  lemma {:induction false} KeptInside(f: Forest, name: string, depth: nat, remove: bool, tail: seq<Tag>)
    requires depth >= 1
    ensures KeptFrom(Flatten(f) + tail, name, depth, remove)
         == (if remove then [] else Flatten(f)) + KeptFrom(tail, name, depth, remove)
    decreases f
  {
    var last := KeptFrom(tail, name, depth, remove);
    match f
    case Nil =>
      assert [] + tail == tail;
    case Words(text, rest) =>
      Assoc([Text(text)], Flatten(rest), tail);
      KeptInside(rest, name, depth, remove, tail);
      Assoc([Text(text)], Flatten(rest), last);
    case Element(n, attrs, children, rest) =>
      Shuffle([Start(n, attrs)], Flatten(children), [End], Flatten(rest), tail);
      KeptInside(children, name, depth + 1, remove, [End] + (Flatten(rest) + tail));
      KeptInside(rest, name, depth, remove, tail);
      Shuffle([Start(n, attrs)], Flatten(children), [End], Flatten(rest), last);
  }

  /** `remove_element` drops exactly the elements of that name at the top, with all they hold. */
  lemma {:induction false} RemoveIsWithout(f: Forest, name: string)
    ensures Remove(Flatten(f), name) == Flatten(Without(f, name))
    decreases f
  {
    match f
    case Nil =>
    case Words(text, rest) =>
      RemoveIsWithout(rest, name);
    case Element(n, attrs, children, rest) =>
      KeptInside(children, name, 1, n == name, [End] + Flatten(rest));
      RemoveIsWithout(rest, name);
  }

  lemma {:induction false} LookupWithout(f: Forest, name: string, other: string)
    ensures Lookup(Without(f, name), other) == if other == name then None else Lookup(f, other)
    decreases f
  {
    match f
    case Nil =>
    case Words(_, rest) => LookupWithout(rest, name, other);
    case Element(_, _, _, rest) => LookupWithout(rest, name, other);
  }

  /** Removal keeps the sequence balanced, hides that name, and changes no other lookup. */
  lemma {:induction false} RemoveLaw(tags: seq<Tag>, name: string, other: string)
    requires Balanced(tags)
    ensures Balanced(Remove(tags, name))
    ensures Find(Remove(tags, name), other) == if other == name then None else Find(tags, other)
  {
    var f := ForestOf(tags);
    RemoveIsWithout(f, name);
    FindIsLookup(f, other);
    FindIsLookup(Without(f, name), other);
    LookupWithout(f, name, other);
    BalancedIffForest(Remove(tags, name));
  }

  // ---------------------------------------------------------------- adding

  lemma {:induction false} FlattenThen(f: Forest, g: Forest)
    ensures Flatten(Then(f, g)) == Flatten(f) + Flatten(g)
    decreases f
  {
    match f
    case Nil =>
      assert [] + Flatten(g) == Flatten(g);
    case Words(text, rest) =>
      FlattenThen(rest, g);
      Assoc([Text(text)], Flatten(rest), Flatten(g));
    case Element(n, attrs, children, rest) =>
      FlattenThen(rest, g);
      Shuffle([Start(n, attrs)], Flatten(children), [End], Flatten(rest), Flatten(g));
  }

  lemma {:induction false} LookupThen(f: Forest, g: Forest, needle: string)
    ensures Lookup(Then(f, g), needle) == if Lookup(f, needle).Some? then Lookup(f, needle) else Lookup(g, needle)
    decreases f
  {
    match f
    case Nil =>
    case Words(_, rest) => LookupThen(rest, g, needle);
    case Element(_, _, _, rest) => LookupThen(rest, g, needle);
  }

  /** A value added is found under its name, unless an older element of that name comes first. */
  lemma {:induction false} AddLaw(tags: seq<Tag>, name: string, attrs: Option<string>, values: seq<Tag>, other: string)
    requires Balanced(tags) && Balanced(values)
    ensures Balanced(Add(tags, name, attrs, values))
    ensures Find(Add(tags, name, attrs, values), other)
         == if Find(tags, other).Some? || other != name then Find(tags, other) else Some(values)
  {
    var f := ForestOf(tags);
    var v := ForestOf(values);
    var one := Element(name, attrs, v, Nil);
    AddFlattens(f, v, tags, name, attrs, values);
    FindIsLookup(f, other);
    FindIsLookup(Then(f, one), other);
    LookupThen(f, one, other);
    BalancedIffForest(Add(tags, name, attrs, values));
  }

  /** Adding an element is adding its tags. */
  lemma {:induction false} AddFlattens(
      f: Forest, v: Forest, tags: seq<Tag>, name: string, attrs: Option<string>, values: seq<Tag>)
    requires Flatten(f) == tags && Flatten(v) == values
    ensures Flatten(Then(f, Element(name, attrs, v, Nil))) == Add(tags, name, attrs, values)
  {
    var one := Element(name, attrs, v, Nil);
    FlattenThen(f, one);
    assert Flatten(one) == [Start(name, attrs)] + (values + ([End] + []));
  }

  /** One more value can be found, unless that name had one; nothing else changes. */
  ghost predicate Gains(before: seq<Tag>, after: seq<Tag>, name: string, values: seq<Tag>) {
    && Balanced(after)
    && forall other ::
         Find(after, other) == if Find(before, other).Some? || other != name then Find(before, other) else Some(values)
  }

  lemma {:induction false} AddGains(tags: seq<Tag>, name: string, attrs: Option<string>, values: seq<Tag>)
    requires Balanced(tags) && Balanced(values)
    ensures Gains(tags, Add(tags, name, attrs, values), name, values)
  {
    var after := Add(tags, name, attrs, values);
    AddLaw(tags, name, attrs, values, name);
    forall other
      ensures Find(after, other) == if Find(tags, other).Some? || other != name then Find(tags, other) else Some(values)
    {
      AddLaw(tags, name, attrs, values, other);
    }
  }

  // ---------------------------------------------------------------- sizes

  function ElementSize(name: string, attrs: Option<string>): nat {
    |name| + if attrs.Some? then |attrs.value| else 0
  }

  function TagSize(tag: Tag): nat {
    match tag
    case Start(name, attrs) => ElementSize(name, attrs)
    case End => 1
    case Text(text) => |text|
  }

  function Size(tags: seq<Tag>): nat {
    if tags == [] then 0 else TagSize(tags[0]) + Size(tags[1..])
  }

  lemma {:induction false} SizeConcat(a: seq<Tag>, b: seq<Tag>)
    ensures Size(a + b) == Size(a) + Size(b)
    decreases |a|
  {
    if a == [] {
      assert a + b == b;
    } else {
      assert (a + b)[1..] == a[1..] + b;
      SizeConcat(a[1..], b);
    }
  }

  lemma {:induction false} KeptSmaller(tags: seq<Tag>, name: string, depth: int, remove: bool)
    ensures Size(KeptFrom(tags, name, depth, remove)) <= Size(tags)
    decreases |tags|
  {
    if tags != [] {
      var rest := tags[1..];
      match tags[0]
      case Start(n, _) =>
        var removing := remove || (depth == 0 && n == name);
        KeptSmaller(rest, name, depth + 1, removing);
        SizeConcat(if removing then [] else [tags[0]], KeptFrom(rest, name, depth + 1, removing));
      case End =>
        KeptSmaller(rest, name, depth - 1, remove && depth != 1);
        SizeConcat(if remove then [] else [tags[0]], KeptFrom(rest, name, depth - 1, remove && depth != 1));
      case Text(_) =>
        KeptSmaller(rest, name, depth, remove);
        SizeConcat(if remove then [] else [tags[0]], KeptFrom(rest, name, depth, remove));
    }
  }

  lemma {:induction false} AddSize(tags: seq<Tag>, name: string, attrs: Option<string>, values: seq<Tag>)
    ensures Size(Add(tags, name, attrs, values)) == Size(tags) + Size(values) + ElementSize(name, attrs) + 1
  {
    SizeConcat(tags, [Start(name, attrs)]);
    SizeConcat(tags + [Start(name, attrs)], values);
    SizeConcat(tags + [Start(name, attrs)] + values, [End]);
  }

  // ---------------------------------------------------------------- whole runs

  datatype Property = Property(name: string, attrs: Option<string>, values: seq<Tag>)

  /**
   A PROPPATCH, or the properties of an MKCOL (`update` false, so nothing is cleared before it is
   written). Removals come first or last. `accepted` says that no property kept elsewhere was refused; a
   request that is refused, or has a value that does not fit, changes nothing.
   */
  datatype Request = Request(update: bool, setFirst: bool, sets: seq<Property>, removes: seq<string>, accepted: bool)

  predicate Fits(tags: seq<Tag>, p: Property, limit: nat) {
    Size(tags) + Size(p.values) + ElementSize(p.name, p.attrs) < limit
  }

  function RemoveAll(tags: seq<Tag>, names: seq<string>): seq<Tag>
    decreases |names|
  {
    if names == [] then tags else RemoveAll(Remove(tags, names[0]), names[1..])
  }

  function Cleared(tags: seq<Tag>, p: Property, update: bool): seq<Tag> {
    if update then Remove(tags, p.name) else tags
  }

  /** The properties written in turn, if all of them fit. */
  function SetAll(tags: seq<Tag>, ps: seq<Property>, update: bool, limit: nat): Option<seq<Tag>>
    decreases |ps|
  {
    if ps == [] then Some(tags)
    else
      var cleared := Cleared(tags, ps[0], update);
      if !Fits(cleared, ps[0], limit) then None
      else SetAll(Add(cleared, ps[0].name, ps[0].attrs, ps[0].values), ps[1..], update, limit)
  }

  /** What a request leaves, if it goes through. */
  function Outcome(tags: seq<Tag>, r: Request, limit: nat): Option<seq<Tag>> {
    if !r.accepted then None
    else
      match SetAll(if r.setFirst then tags else RemoveAll(tags, r.removes), r.sets, r.update, limit)
      case None => None
      case Some(after) => Some(if r.setFirst then RemoveAll(after, r.removes) else after)
  }

  function Apply(tags: seq<Tag>, r: Request, limit: nat): seq<Tag> {
    var after := Outcome(tags, r, limit);
    if after.Some? then after.value else tags
  }

  function Run(rs: seq<Request>, limit: nat): seq<Tag> {
    if rs == [] then [] else Apply(Run(rs[..|rs| - 1], limit), rs[|rs| - 1], limit)
  }

  // The same on a plain table, given whether a request went through.

  function RemoveAllTable(table: map<string, seq<Tag>>, names: seq<string>): map<string, seq<Tag>>
    decreases |names|
  {
    if names == [] then table else RemoveAllTable(table - {names[0]}, names[1..])
  }

  function SetAllTable(table: map<string, seq<Tag>>, ps: seq<Property>, update: bool): map<string, seq<Tag>>
    decreases |ps|
  {
    if ps == [] then table
    else
      var p := ps[0];
      SetAllTable(if update || p.name !in table then table[p.name := p.values] else table, ps[1..], update)
  }

  function ApplyTable(table: map<string, seq<Tag>>, r: Request): map<string, seq<Tag>> {
    var before := if r.setFirst then table else RemoveAllTable(table, r.removes);
    var after := SetAllTable(before, r.sets, r.update);
    if r.setFirst then RemoveAllTable(after, r.removes) else after
  }

  function RunTable(rs: seq<Request>, limit: nat): map<string, seq<Tag>> {
    if rs == [] then map[]
    else
      var front := rs[..|rs| - 1];
      if Outcome(Run(front, limit), rs[|rs| - 1], limit).Some? then ApplyTable(RunTable(front, limit), rs[|rs| - 1])
      else RunTable(front, limit)
  }

  predicate AllBalanced(ps: seq<Property>) {
    forall i :: 0 <= i < |ps| ==> Balanced(ps[i].values)
  }

  predicate Sound(rs: seq<Request>) {
    forall i :: 0 <= i < |rs| ==> AllBalanced(rs[i].sets)
  }

  /** The tags are balanced, and a lookup answers as the table does. */
  predicate Agrees(tags: seq<Tag>, table: map<string, seq<Tag>>, name: string) {
    Balanced(tags) && Find(tags, name) == At(table, name)
  }

  lemma {:induction false} RemoveAgrees(tags: seq<Tag>, table: map<string, seq<Tag>>, gone: string, name: string)
    requires Agrees(tags, table, name)
    ensures Agrees(Remove(tags, gone), table - {gone}, name)
  {
    RemoveLaw(tags, gone, name);
  }

  lemma {:induction false} RemoveAllAgrees(tags: seq<Tag>, table: map<string, seq<Tag>>, names: seq<string>, name: string)
    requires Agrees(tags, table, name)
    ensures Agrees(RemoveAll(tags, names), RemoveAllTable(table, names), name)
    decreases |names|
  {
    if names != [] {
      RemoveAgrees(tags, table, names[0], name);
      RemoveAllAgrees(Remove(tags, names[0]), table - {names[0]}, names[1..], name);
    }
  }

  lemma {:induction false} WriteAgrees(tags: seq<Tag>, table: map<string, seq<Tag>>, p: Property, update: bool, name: string)
    requires Agrees(tags, table, name) && Agrees(tags, table, p.name) && Balanced(p.values)
    ensures Agrees(Add(Cleared(tags, p, update), p.name, p.attrs, p.values),
      if update || p.name !in table then table[p.name := p.values] else table, name)
  {
    RemoveLaw(tags, p.name, name);
    AddLaw(Cleared(tags, p, update), p.name, p.attrs, p.values, name);
  }

  /** Agreement on every name. */
  ghost predicate AgreesOnAll(tags: seq<Tag>, table: map<string, seq<Tag>>) {
    forall name :: Agrees(tags, table, name)
  }

  lemma {:induction false} SetAllAgrees(
      tags: seq<Tag>, table: map<string, seq<Tag>>, ps: seq<Property>, update: bool, limit: nat)
    requires AgreesOnAll(tags, table) && AllBalanced(ps) && SetAll(tags, ps, update, limit).Some?
    ensures AgreesOnAll(SetAll(tags, ps, update, limit).value, SetAllTable(table, ps, update))
    decreases |ps|
  {
    if ps != [] {
      var p := ps[0];
      var next := Add(Cleared(tags, p, update), p.name, p.attrs, p.values);
      var nextTable := if update || p.name !in table then table[p.name := p.values] else table;
      forall name ensures Agrees(next, nextTable, name) {
        WriteAgrees(tags, table, p, update, name);
      }
      assert AllBalanced(ps[1..]) by {
        forall i | 0 <= i < |ps[1..]| ensures Balanced(ps[1..][i].values) {
          assert ps[1..][i] == ps[i + 1];
        }
      }
      SetAllAgrees(next, nextTable, ps[1..], update, limit);
    }
  }

  lemma {:induction false} RemovedAgree(tags: seq<Tag>, table: map<string, seq<Tag>>, names: seq<string>)
    requires AgreesOnAll(tags, table)
    ensures AgreesOnAll(RemoveAll(tags, names), RemoveAllTable(table, names))
  {
    forall name ensures Agrees(RemoveAll(tags, names), RemoveAllTable(table, names), name) {
      RemoveAllAgrees(tags, table, names, name);
    }
  }

  lemma {:induction false} OutcomeAgrees(tags: seq<Tag>, table: map<string, seq<Tag>>, r: Request, limit: nat)
    requires AgreesOnAll(tags, table) && AllBalanced(r.sets) && Outcome(tags, r, limit).Some?
    ensures AgreesOnAll(Outcome(tags, r, limit).value, ApplyTable(table, r))
  {
    if r.setFirst {
      SetAllAgrees(tags, table, r.sets, r.update, limit);
      RemovedAgree(SetAll(tags, r.sets, r.update, limit).value, SetAllTable(table, r.sets, r.update), r.removes);
    } else {
      RemovedAgree(tags, table, r.removes);
      SetAllAgrees(RemoveAll(tags, r.removes), RemoveAllTable(table, r.removes), r.sets, r.update, limit);
    }
  }

  /** After any run of requests, every lookup answers as the plain table does. */
  lemma {:induction false} RunIsTable(rs: seq<Request>, limit: nat)
    requires Sound(rs)
    ensures AgreesOnAll(Run(rs, limit), RunTable(rs, limit))
    decreases |rs|
  {
    if rs != [] {
      var front, r := rs[..|rs| - 1], rs[|rs| - 1];
      RunIsTable(front, limit);
      if Outcome(Run(front, limit), r, limit).Some? {
        OutcomeAgrees(Run(front, limit), RunTable(front, limit), r, limit);
      }
    }
  }

  lemma {:induction false} RemoveAllSmaller(tags: seq<Tag>, names: seq<string>)
    ensures Size(RemoveAll(tags, names)) <= Size(tags)
    decreases |names|
  {
    if names != [] {
      KeptSmaller(tags, names[0], 0, false);
      RemoveAllSmaller(Remove(tags, names[0]), names[1..]);
    }
  }

  lemma {:induction false} SetAllWithin(tags: seq<Tag>, ps: seq<Property>, update: bool, limit: nat)
    requires Size(tags) <= limit && SetAll(tags, ps, update, limit).Some?
    ensures Size(SetAll(tags, ps, update, limit).value) <= limit
    decreases |ps|
  {
    if ps != [] {
      var p, cleared := ps[0], Cleared(tags, ps[0], update);
      AddSize(cleared, p.name, p.attrs, p.values);
      SetAllWithin(Add(cleared, p.name, p.attrs, p.values), ps[1..], update, limit);
    }
  }

  /** No run of requests stores more than the limit. */
  lemma {:induction false} RunWithinLimit(rs: seq<Request>, limit: nat)
    ensures Size(Run(rs, limit)) <= limit
    decreases |rs|
  {
    if rs != [] {
      var tags, r := Run(rs[..|rs| - 1], limit), rs[|rs| - 1];
      RunWithinLimit(rs[..|rs| - 1], limit);
      if Outcome(tags, r, limit).Some? {
        RemoveAllSmaller(tags, r.removes);
        var before := if r.setFirst then tags else RemoveAll(tags, r.removes);
        SetAllWithin(before, r.sets, r.update, limit);
        RemoveAllSmaller(SetAll(before, r.sets, r.update, limit).value, r.removes);
      }
    }
  }

  // ---------------------------------------------------------------- the object

  class DeadProperty {
    var tags: seq<Tag>

    constructor ()
      ensures tags == []
    {
      tags := [];
    }

    method FindTag(needle: string) returns (r: Option<seq<Tag>>)
      ensures r == Find(tags, needle)
    {
      var depth: nat, out, found, i := 0, [], false, 0;
      assert tags[0..] == tags;
      while i < |tags|
        invariant 0 <= i <= |tags|
        invariant FindFrom(tags[i..], needle, depth, found, out) == Find(tags, needle)
      {
        var tag := tags[i];
        assert tags[i..][0] == tag && tags[i..][1..] == tags[i + 1..];
        match tag {
          case Start(name, _) =>
            if depth == 0 && name == needle {
              found := true;
            } else if found {
              out := out + [tag];
            }
            depth := depth + 1;
          case End =>
            if found {
              if depth == 1 {
                break;
              } else {
                out := out + [tag];
              }
            }
            depth := Minus1(depth);
          case Text(_) =>
            if found {
              out := out + [tag];
            }
        }
        i := i + 1;
      }
      return if found then Some(out) else None;
    }

    method RemoveElement(name: string)
      modifies this
      ensures tags == Remove(old(tags), name)
    {
      var depth, remove, kept: seq<Tag>, i := 0, false, [], 0;
      assert tags[0..] == tags && [] + Remove(tags, name) == Remove(tags, name);
      while i < |tags|
        invariant 0 <= i <= |tags| && tags == old(tags)
        invariant kept + KeptFrom(tags[i..], name, depth, remove) == Remove(tags, name)
      {
        var tag := tags[i];
        assert tags[i..][0] == tag && tags[i..][1..] == tags[i + 1..];
        var retain := true;
        match tag {
          case Start(n, _) =>
            if depth == 0 && !remove && n == name {
              remove := true;
            }
            depth := depth + 1;
            retain := !remove;
          case End =>
            depth := depth - 1;
            if remove && depth == 0 {
              remove := false;
              retain := false;
            } else {
              retain := !remove;
            }
          case Text(_) =>
            retain := !remove;
        }
        Assoc(kept, if retain then [tag] else [], KeptFrom(tags[i + 1..], name, depth, remove));
        kept := kept + if retain then [tag] else [];
        i := i + 1;
      }
      tags := kept;
    }

    method AddElement(name: string, attrs: Option<string>, values: seq<Tag>)
      modifies this
      ensures tags == Add(old(tags), name, attrs, values)
      ensures Balanced(old(tags)) && Balanced(values) ==> Gains(old(tags), tags, name, values)
    {
      if Balanced(tags) && Balanced(values) {
        AddGains(tags, name, attrs, values);
      }
      tags := tags + [Start(name, attrs)];
      tags := tags + values;
      tags := tags + [End];
    }

    method StoredSize() returns (size: nat)
      ensures size == Size(tags)
    {
      size := 0;
      assert tags[..0] == [];
      for i := 0 to |tags|
        invariant size == Size(tags[..i])
      {
        SizeConcat(tags[..i], [tags[i]]);
        assert tags[..i + 1] == tags[..i] + [tags[i]];
        size := size + TagSize(tags[i]);
      }
      assert tags[..|tags|] == tags;
    }

    method RemoveElements(names: seq<string>)
      modifies this
      ensures tags == RemoveAll(old(tags), names)
    {
      assert names[0..] == names;
      for i := 0 to |names|
        invariant RemoveAll(tags, names[i..]) == RemoveAll(old(tags), names)
      {
        assert names[i..][0] == names[i] && names[i..][1..] == names[i + 1..];
        RemoveElement(names[i]);
      }
    }

    /** Writes the properties in turn; one that does not fit is an error, and the rest go on. */
    method SetElements(ps: seq<Property>, update: bool, limit: nat) returns (ok: bool)
      modifies this
      ensures ok <==> SetAll(old(tags), ps, update, limit).Some?
      ensures ok ==> Some(tags) == SetAll(old(tags), ps, update, limit)
    {
      ok := true;
      assert ps[0..] == ps;
      for i := 0 to |ps|
        invariant ok ==> SetAll(tags, ps[i..], update, limit) == SetAll(old(tags), ps, update, limit)
        invariant !ok ==> SetAll(old(tags), ps, update, limit).None?
      {
        var p := ps[i];
        assert ps[i..][0] == p && ps[i..][1..] == ps[i + 1..];
        if update {
          RemoveElement(p.name);
        }
        var size := StoredSize();
        if size + Size(p.values) + ElementSize(p.name, p.attrs) < limit {
          AddElement(p.name, p.attrs, p.values);
        } else {
          ok := false;
        }
      }
    }

    /** A request works on a copy, which replaces the properties only if all went well. */
    method Patch(r: Request, limit: nat) returns (ok: bool)
      modifies this
      ensures ok <==> Outcome(old(tags), r, limit).Some?
      ensures tags == Apply(old(tags), r, limit)
    {
      var stored := tags;
      if !r.setFirst {
        RemoveElements(r.removes);
      }
      ok := SetElements(r.sets, r.update, limit);
      ok := ok && r.accepted;
      if ok {
        if r.setFirst {
          RemoveElements(r.removes);
        }
      } else {
        tags := stored;
      }
    }
  }
}
