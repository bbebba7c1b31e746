/**
 The glob matcher of crates/utils/src/glob.rs.

 `Matches` walks pattern and value with one pair of backtracking indices, those of the last star it
 passed.  The reference is the wildcard relation itself: the value splits into one part per pattern
 element, each part fitting its element.
 */
module Glob {
  import opened Basics

  /** A compiled pattern element; the source's `match_pos` is always 0 and never read. */
  datatype PatternChar = WildcardMany(num: nat) | WildcardSingle | Char(c: char)

  type Pattern = seq<PatternChar>

  datatype GlobPattern = GlobPattern(pattern: Pattern, toLower: bool)

  /** The Unicode case tables, as Rust's `char` and `str` apply them. */
  datatype Casing = Casing(isUpper: char -> bool, lowerChar: char -> string, lowerText: string -> string)

  // ---------------------------------------------------------------- the wildcard relation

  predicate Fits(p: PatternChar, part: string) {
    match p
    case WildcardMany(_) => true
    case WildcardSingle => |part| == 1
    case Char(c) => part == [c]
  }

  function Join(parts: seq<string>): string {
    if parts == [] then "" else parts[0] + Join(parts[1..])
  }

  ghost predicate SplitsInto(p: Pattern, value: string, parts: seq<string>) {
    |parts| == |p| && Join(parts) == value && forall i :: 0 <= i < |p| ==> Fits(p[i], parts[i])
  }

  /** The declarative meaning of a pattern. */
  ghost predicate Denotes(p: Pattern, value: string) {
    exists parts :: SplitsInto(p, value, parts)
  }

  /** The same relation, one character at a time. */
  predicate Accepts(p: Pattern, value: string)
    decreases |p| + |value|
  {
    if p == [] then value == ""
    else match p[0]
      case WildcardMany(_) => Accepts(p[1..], value) || (value != "" && Accepts(p, value[1..]))
      case WildcardSingle => value != "" && Accepts(p[1..], value[1..])
      case Char(c) => value != "" && value[0] == c && Accepts(p[1..], value[1..])
  }

  lemma {:induction false} AcceptsSplits(p: Pattern, value: string) returns (parts: seq<string>)
    requires Accepts(p, value)
    ensures SplitsInto(p, value, parts)
    decreases |p| + |value|
  {
    if p == [] {
      parts := [];
    } else if p[0].WildcardMany? && !Accepts(p[1..], value) {
      parts := AcceptsSplits(p, value[1..]);
      var first := [value[0]] + parts[0];
      var longer := [first] + parts[1..];
      assert longer[1..] == parts[1..];
      assert first + Join(parts[1..]) == [value[0]] + (parts[0] + Join(parts[1..]));
      parts := longer;
    } else {
      var n := if p[0].WildcardMany? then 0 else 1;
      var rest := AcceptsSplits(p[1..], value[n..]);
      parts := [value[..n]] + rest;
      assert parts[1..] == rest;
    }
  }

  lemma {:induction false} SplitsAccepts(p: Pattern, value: string, parts: seq<string>)
    requires SplitsInto(p, value, parts)
    ensures Accepts(p, value)
    decreases |p| + |value|
  {
    if p != [] {
      if p[0].WildcardMany? && parts[0] != "" {
        var shorter := [parts[0][1..]] + parts[1..];
        assert shorter[1..] == parts[1..];
        assert value == parts[0] + Join(parts[1..]);
        assert value[1..] == parts[0][1..] + Join(parts[1..]);
        SplitsAccepts(p, value[1..], shorter);
      } else {
        assert value == parts[0] + Join(parts[1..]);
        assert value[|parts[0]|..] == Join(parts[1..]);
        SplitsAccepts(p[1..], value[|parts[0]|..], parts[1..]);
      }
    }
  }

  lemma {:induction false} DenotesIffAccepts(p: Pattern, value: string)
    ensures Denotes(p, value) <==> Accepts(p, value)
  {
    if Accepts(p, value) {
      var parts := AcceptsSplits(p, value);
    }
    if parts :| SplitsInto(p, value, parts) {
      SplitsAccepts(p, value, parts);
    }
  }

  // ---------------------------------------------------------------- why one star is enough

  predicate StarFree(p: Pattern) {
    forall i :: 0 <= i < |p| ==> !p[i].WildcardMany?
  }

  /** A star takes up any text before the rest. */
  lemma {:induction false} StarAbsorbs(p: Pattern, value: string, k: nat)
    requires p != [] && p[0].WildcardMany? && k <= |value| && Accepts(p, value[k..])
    ensures Accepts(p, value)
    decreases k
  {
    if k > 0 {
      assert value[k - 1..][1..] == value[k..];
      StarAbsorbs(p, value, k - 1);
    } else {
      assert value[0..] == value;
    }
  }

  /** A star takes up some text, and the rest of the pattern the rest of the value. */
  lemma {:induction false} StarTakes(p: Pattern, value: string) returns (k: nat)
    requires p != [] && p[0].WildcardMany? && Accepts(p, value)
    ensures k <= |value| && Accepts(p[1..], value[k..])
    decreases |value|
  {
    if Accepts(p[1..], value) {
      k := 0;
      assert value[0..] == value;
    } else {
      k := StarTakes(p, value[1..]);
      assert value[1..][k..] == value[k + 1..];
      k := k + 1;
    }
  }

  /** Elements other than stars take up exactly one character each. */
  lemma {:induction false} FixedTakes(p: Pattern, n: nat, value: string)
    requires n <= |p| && StarFree(p[..n]) && Accepts(p, value)
    ensures n <= |value| && Accepts(p[n..], value[n..])
    decreases n
  {
    if n == 0 {
      assert p[0..] == p && value[0..] == value;
    } else {
      assert p[..n][0] == p[0];
      assert p[1..][..n - 1] == p[..n][1..];
      FixedTakes(p[1..], n - 1, value[1..]);
      assert p[1..][n - 1..] == p[n..] && value[1..][n - 1..] == value[n..];
    }
  }

  /** The exchange: once a later star is reached, returning to an earlier one can only lose.  If the
      earlier star could still succeed after taking one more character, the later one succeeds from
      where the walk stands, since the elements between them have a fixed length. */
  lemma {:induction false} Exchange(p: Pattern, value: string, earlier: nat, later: nat, from: nat, here: nat)
    requires earlier < later < |p| && p[earlier].WildcardMany? && p[later].WildcardMany?
    requires StarFree(p[earlier + 1..later])
    requires 0 < from <= |value| && here == from - 1 + (later - earlier - 1) && here <= |value|
    requires Accepts(p[earlier..], value[from..])
    ensures Accepts(p[later..], value[here..])
  {
    var k := StarTakes(p[earlier..], value[from..]);
    assert p[earlier..][1..] == p[earlier + 1..] && value[from..][k..] == value[from + k..];
    var n := later - earlier - 1;
    assert p[earlier + 1..][..n] == p[earlier + 1..later];
    FixedTakes(p[earlier + 1..], n, value[from + k..]);
    assert p[earlier + 1..][n..] == p[later..] && value[from + k..][n..] == value[from + k + n..];
    assert value[here..][k + 1..] == value[from + k + n..];
    StarAbsorbs(p[later..], value[here..], k + 1);
  }

  lemma {:induction false} AcceptsStep(p: Pattern, value: string, px: nat, nx: nat)
    requires px < |p| && nx <= |value|
    ensures p[px].Char? ==> (Accepts(p[px..], value[nx..]) <==>
                             nx < |value| && value[nx] == p[px].c && Accepts(p[px + 1..], value[nx + 1..]))
    ensures p[px].WildcardSingle? ==> (Accepts(p[px..], value[nx..]) <==>
                                       nx < |value| && Accepts(p[px + 1..], value[nx + 1..]))
    ensures p[px].WildcardMany? ==> (Accepts(p[px..], value[nx..]) <==>
                                     Accepts(p[px + 1..], value[nx..]) || (nx < |value| && Accepts(p[px..], value[nx + 1..])))
  {
    assert p[px..][0] == p[px] && p[px..][1..] == p[px + 1..];
    assert nx < |value| ==> value[nx..][0] == value[nx] && value[nx..][1..] == value[nx + 1..];
  }

  /** Where the walk may return to: a star before `px` with only fixed elements since, or the star it
      has just returned to. */
  ghost predicate Backtrack(p: Pattern, value: string, px: nat, nx: nat, nextPx: nat, nextNx: nat) {
    && px <= |p| && nx <= |value| && nextNx <= |value| + 1
    && (nextNx == 0 ==> nextPx == 0)
    && (nextNx > 0 ==>
        && nextPx < |p| && p[nextPx].WildcardMany?
        && (|| (px == nextPx && nx == nextNx)
            || (nextPx < px && nx + 1 - nextNx == px - nextPx - 1 && StarFree(p[nextPx + 1..px]))))
  }

  /** Whether the walk can still succeed: from where it stands, or from where it may return to. */
  ghost predicate Hopeful(p: Pattern, value: string, px: nat, nx: nat, nextPx: nat, nextNx: nat)
    requires Backtrack(p, value, px, nx, nextPx, nextNx)
  {
    || Accepts(p[px..], value[nx..])
    || (0 < nextNx <= |value| && Accepts(p[nextPx..], value[nextNx..]))
  }

  /** Passing a star keeps the answer, though it forgets the star before. */
  lemma {:induction false} PassStar(p: Pattern, value: string, px: nat, nx: nat, nextPx: nat, nextNx: nat)
    requires Backtrack(p, value, px, nx, nextPx, nextNx) && px < |p| && p[px].WildcardMany?
    ensures Backtrack(p, value, px + 1, nx, px, nx + 1)
    ensures Hopeful(p, value, px + 1, nx, px, nx + 1) == Hopeful(p, value, px, nx, nextPx, nextNx)
  {
    AcceptsStep(p, value, px, nx);
    if 0 < nextNx <= |value| && Accepts(p[nextPx..], value[nextNx..]) && nextPx < px {
      Exchange(p, value, nextPx, px, nextNx, nx);
    }
  }

  /** Passing any other element that fits keeps the answer. */
  lemma {:induction false} PassFixed(p: Pattern, value: string, px: nat, nx: nat, nextPx: nat, nextNx: nat)
    requires Backtrack(p, value, px, nx, nextPx, nextNx) && px < |p| && nx < |value|
    requires p[px].WildcardSingle? || (p[px].Char? && p[px].c == value[nx])
    ensures Backtrack(p, value, px + 1, nx + 1, nextPx, nextNx)
    ensures Hopeful(p, value, px + 1, nx + 1, nextPx, nextNx) == Hopeful(p, value, px, nx, nextPx, nextNx)
  {
    AcceptsStep(p, value, px, nx);
    if nextNx > 0 {
      var fixed := p[nextPx + 1..px];
      assert p[nextPx + 1..px + 1] == fixed + [p[px]];
    }
  }

  /** crates/utils/src/glob.rs, `GlobPattern::matches`, on the characters of the (lowered) value. */
  method Walk(p: Pattern, value: string) returns (r: bool)
    ensures r <==> Denotes(p, value)
  {
    DenotesIffAccepts(p, value);
    var px, nx, nextPx, nextNx := 0, 0, 0, 0;
    assert p[0..] == p && value[0..] == value;
    while px < |p| || nx < |value|
      invariant Backtrack(p, value, px, nx, nextPx, nextNx)
      invariant Hopeful(p, value, px, nx, nextPx, nextNx) <==> Accepts(p, value)
      decreases |p| - nextPx, |value| + 1 - nextNx, if nextNx > 0 && px == nextPx then 0 else 1 + |p| - px
    {
      if px < |p| {
        match p[px] {
          case Char(c) =>
            if nx < |value| && value[nx] == c {
              PassFixed(p, value, px, nx, nextPx, nextNx);
              px, nx := px + 1, nx + 1;
              continue;
            }
          case WildcardSingle =>
            if nx < |value| {
              PassFixed(p, value, px, nx, nextPx, nextNx);
              px, nx := px + 1, nx + 1;
              continue;
            }
          case WildcardMany(_) =>
            PassStar(p, value, px, nx, nextPx, nextNx);
            nextPx, nextNx, px := px, nx + 1, px + 1;
            continue;
        }
        AcceptsStep(p, value, px, nx);
      }
      if 0 < nextNx && nextNx <= |value| {
        px, nx := nextPx, nextNx;
        continue;
      }
      return false;
    }
    return true;
  }

  method Matches(glob: GlobPattern, value: string, casing: Casing) returns (r: bool)
    ensures r <==> Denotes(glob.pattern, if glob.toLower then casing.lowerText(value) else value)
  {
    r := Walk(glob.pattern, if glob.toLower then casing.lowerText(value) else value);
  }

  // ---------------------------------------------------------------- compiling

  /** How many stars a text starts with. */
  function Stars(s: string): (n: nat)
    ensures n <= |s|
    ensures forall i :: 0 <= i < n ==> s[i] == '*'
    ensures n < |s| ==> s[n] != '*'
  {
    if s != "" && s[0] == '*' then 1 + Stars(s[1..]) else 0
  }

  function Chars(s: string): (p: Pattern)
    ensures |p| == |s| && forall i :: 0 <= i < |s| ==> p[i] == Char(s[i])
  {
    seq(|s|, i requires 0 <= i < |s| => Char(s[i]))
  }

  function Literal(c: char, toLower: bool, casing: Casing): Pattern {
    if toLower && casing.isUpper(c) then Chars(casing.lowerChar(c)) else [Char(c)]
  }

  /** The elements a text compiles to; `escaped` after a backslash. */
  function Scan(s: string, escaped: bool, toLower: bool, casing: Casing): Pattern
    decreases |s|
  {
    if s == "" then []
    else if s[0] == '*' && !escaped then [WildcardMany(Stars(s))] + Scan(s[Stars(s)..], false, toLower, casing)
    else if s[0] == '?' && !escaped then [WildcardSingle] + Scan(s[1..], false, toLower, casing)
    else if s[0] == '\\' && !escaped then Scan(s[1..], true, toLower, casing)
    else Literal(s[0], toLower, casing) + Scan(s[1..], false, toLower, casing)
  }

  /** One element of a text moves from what is still to scan to what has been scanned. */
  lemma {:induction false} ScanStep(done: Pattern, s: string, escaped: bool, toLower: bool, casing: Casing)
    requires s != ""
    ensures
      var all := done + Scan(s, escaped, toLower, casing);
      if s[0] == '*' && !escaped then
        all == (done + [WildcardMany(Stars(s))]) + Scan(s[Stars(s)..], false, toLower, casing)
      else if s[0] == '?' && !escaped then
        all == (done + [WildcardSingle]) + Scan(s[1..], false, toLower, casing)
      else if s[0] == '\\' && !escaped then
        all == done + Scan(s[1..], true, toLower, casing)
      else
        all == (done + Literal(s[0], toLower, casing)) + Scan(s[1..], false, toLower, casing)
  {
    if s[0] == '*' && !escaped {
      Assoc(done, [WildcardMany(Stars(s))], Scan(s[Stars(s)..], false, toLower, casing));
    } else if s[0] == '?' && !escaped {
      Assoc(done, [WildcardSingle], Scan(s[1..], false, toLower, casing));
    } else {
      Assoc(done, Literal(s[0], toLower, casing), Scan(s[1..], false, toLower, casing));
    }
  }

  /** crates/utils/src/glob.rs, `GlobPattern::compile`. */
  method Compile(pattern: string, toLower: bool, casing: Casing) returns (r: GlobPattern)
    ensures r == GlobPattern(Scan(pattern, false, toLower, casing), toLower)
  {
    var chars: Pattern := [];
    var escaped := false;
    var i := 0;
    assert pattern[0..] == pattern;
    while i < |pattern|
      invariant 0 <= i <= |pattern|
      invariant chars + Scan(pattern[i..], escaped, toLower, casing) == Scan(pattern, false, toLower, casing)
    {
      ghost var here := pattern[i..];
      assert here[1..] == pattern[i + 1..];
      ScanStep(chars, here, escaped, toLower, casing);
      var c := pattern[i];
      i := i + 1;
      if c == '*' && !escaped {
        var num := CountStars(pattern, i);
        assert here[Stars(here)..] == pattern[i - 1 + num..];
        i := i - 1 + num;
        chars := chars + [WildcardMany(num)];
      } else if c == '?' && !escaped {
        chars := chars + [WildcardSingle];
      } else if c == '\\' && !escaped {
        escaped := true;
      } else {
        escaped := false;
        chars := chars + Literal(c, toLower, casing);
      }
    }
    return GlobPattern(chars, toLower);
  }

  /** The inner loop of `compile`: the star before `i` and those right after it. */
  method CountStars(pattern: string, i: nat) returns (num: nat)
    requires 0 < i <= |pattern| && pattern[i - 1] == '*'
    ensures num == Stars(pattern[i - 1..])
  {
    var j := i;
    num := 1;
    assert pattern[i - 1..][1..] == pattern[i..];
    while j < |pattern| && pattern[j] == '*'
      invariant i <= j <= |pattern| && num == 1 + j - i
      invariant num + Stars(pattern[j..]) == Stars(pattern[i - 1..])
    {
      assert pattern[j..][1..] == pattern[j + 1..];
      num, j := num + 1, j + 1;
    }
  }

  // ---------------------------------------------------------------- writing a pattern

  function Repeat(c: char, n: nat): string {
    seq(n, _ => c)
  }

  function Escape(p: Pattern): string {
    if p == [] then ""
    else (match p[0]
          case WildcardMany(num) => Repeat('*', num)
          case WildcardSingle => "?"
          case Char(c) => if c == '*' || c == '?' || c == '\\' then ['\\', c] else [c]) + Escape(p[1..])
  }

  /** Stars stand for at least one star, and never side by side. */
  predicate Normal(p: Pattern) {
    && (forall i :: 0 <= i < |p| && p[i].WildcardMany? ==> p[i].num > 0)
    && (forall i :: 0 < i < |p| && p[i].WildcardMany? ==> !p[i - 1].WildcardMany?)
  }

  lemma {:induction false} StarsThen(n: nat, rest: string)
    requires rest == "" || rest[0] != '*'
    ensures Stars(Repeat('*', n) + rest) == n
  {
    if n > 0 {
      assert (Repeat('*', n) + rest)[1..] == Repeat('*', n - 1) + rest;
      StarsThen(n - 1, rest);
    } else {
      assert Repeat('*', 0) + rest == rest;
    }
  }

  /** Every pattern in normal form can be written, and compiles back to itself. */
  lemma {:induction false} EscapeCompiles(p: Pattern, casing: Casing)
    requires Normal(p)
    ensures Scan(Escape(p), false, false, casing) == p
  {
    if p != [] {
      var rest := Escape(p[1..]);
      EscapeCompiles(p[1..], casing);
      assert [p[0]] + p[1..] == p;
      match p[0]
      case WildcardMany(num) =>
        assert rest == "" || rest[0] != '*' by {
          if |p| > 1 { assert !p[1].WildcardMany?; }
        }
        StarsThen(num, rest);
        assert Escape(p)[num..] == rest;
      case WildcardSingle =>
        assert Escape(p)[1..] == rest;
      case Char(c) =>
        if c == '*' || c == '?' || c == '\\' {
          assert Escape(p)[1..] == [c] + rest && ([c] + rest)[1..] == rest;
        } else {
          assert Escape(p)[1..] == rest;
        }
    }
  }

  // ---------------------------------------------------------------- telling globs from plain keys

  /** An unescaped-looking wildcard: one not directly after a backslash. */
  predicate WildcardAt(s: string, i: nat) {
    i < |s| && (s[i] == '*' || s[i] == '?') && (i > 0 ==> s[i - 1] != '\\')
  }

  predicate LooksGlob(s: string) {
    exists i :: 0 <= i < |s| && WildcardAt(s, i)
  }

  function Unslash(s: string): string {
    if s == "" then "" else (if s[0] == '\\' then "" else [s[0]]) + Unslash(s[1..])
  }

  /** crates/utils/src/glob.rs, `GlobPattern::try_compile`: a pattern, or the plain key it stands for. */
  method TryCompile(pattern: string, toLower: bool, casing: Casing) returns (r: Result<GlobPattern, string>)
    ensures r.Ok? <==> LooksGlob(pattern)
    ensures r.Ok? ==> r.value == GlobPattern(Scan(pattern, false, toLower, casing), toLower)
    ensures r.Err? ==> r.error == Unslash(pattern)
  {
    var lastCh := '\0';
    var hasEscape, isGlob := false, false;
    for i := 0 to |pattern|
      invariant lastCh == if i == 0 then '\0' else pattern[i - 1]
      invariant hasEscape <==> '\\' in pattern[..i]
      invariant isGlob <==> exists j :: 0 <= j < i && WildcardAt(pattern, j)
    {
      var ch := pattern[i];
      if ch == '\\' {
        hasEscape := true;
      } else if (ch == '*' || ch == '?') && lastCh != '\\' {
        isGlob := true;
        assert WildcardAt(pattern, i);
      }
      lastCh := ch;
    }
    if isGlob {
      var glob := Compile(pattern, toLower, casing);
      return Ok(glob);
    }
    assert pattern[..|pattern|] == pattern;
    if !hasEscape {
      UnslashPlain(pattern);
    }
    return Err(if hasEscape then Unslash(pattern) else pattern);
  }

  lemma {:induction false} UnslashPlain(s: string)
    requires '\\' !in s
    ensures Unslash(s) == s
  {
    if s != "" {
      UnslashPlain(s[1..]);
      assert s == [s[0]] + s[1..];
    }
  }

  predicate DoubleSlashAt(s: string, i: nat) {
    i + 1 < |s| && s[i] == '\\' && s[i + 1] == '\\'
  }

  predicate DoubleSlash(s: string) {
    exists i :: 0 <= i < |s| && DoubleSlashAt(s, i)
  }

  lemma {:induction false} UnslashHasNone(s: string)
    ensures '\\' !in Unslash(s)
  {
    if s != "" {
      UnslashHasNone(s[1..]);
    }
  }

  /** A text that does not look like a glob and has no doubled backslash compiles to its own characters. */
  lemma {:induction false} PlainScan(s: string, escaped: bool, casing: Casing)
    requires forall i :: 0 < i < |s| ==> !WildcardAt(s, i)
    requires s != "" && (s[0] == '*' || s[0] == '?') ==> escaped
    requires !DoubleSlash(s) && (escaped && s != "" ==> s[0] != '\\')
    ensures Scan(s, escaped, false, casing) == Chars(Unslash(s))
  {
    if s != "" {
      var rest := s[1..];
      assert forall i :: 0 < i < |rest| ==> WildcardAt(rest, i) == WildcardAt(s, i + 1);
      assert forall i :: 0 <= i < |rest| ==> DoubleSlashAt(rest, i) == DoubleSlashAt(s, i + 1);
      assert rest != "" ==> !WildcardAt(s, 1) && !DoubleSlashAt(s, 0);
      PlainScan(rest, s[0] == '\\', casing);
      assert Unslash(s) == (if s[0] == '\\' then "" else [s[0]]) + Unslash(rest);
    }
  }

  /** A doubled backslash compiles to a backslash to be matched. */
  lemma {:induction false} SlashScan(s: string, escaped: bool, casing: Casing)
    requires DoubleSlash(s) || (escaped && s != "" && s[0] == '\\')
    ensures Char('\\') in Scan(s, escaped, false, casing)
    decreases |s|
  {
    if escaped && s[0] == '\\' {
      return;
    }
    var i :| 0 <= i < |s| && DoubleSlashAt(s, i);
    var n := if s[0] == '*' && !escaped then Stars(s) else 1;
    if i >= n {
      assert DoubleSlashAt(s[n..], i - n);
      SlashScan(s[n..], s[0] == '\\', casing);
    } else {
      SlashScan(s[1..], true, casing);
    }
  }

  lemma {:induction false} AcceptsHas(p: Pattern, value: string, c: char)
    requires Accepts(p, value) && Char(c) in p
    ensures c in value
    decreases |p| + |value|
  {
    if p[0] == Char(c) {
    } else if p[0].WildcardMany? && !Accepts(p[1..], value) {
      AcceptsHas(p, value[1..], c);
    } else {
      AcceptsHas(p[1..], if p[0].WildcardMany? then value else value[1..], c);
    }
  }

  lemma {:induction false} CharsAccept(s: string, value: string)
    ensures Accepts(Chars(s), value) <==> value == s
    decreases |s|
  {
    if s != "" {
      assert Chars(s)[1..] == Chars(s[1..]);
      if value != "" {
        CharsAccept(s[1..], value[1..]);
        assert value == [value[0]] + value[1..] && s == [s[0]] + s[1..];
      }
    }
  }

  /** What a set holding only this pattern contains. */
  ghost predicate InsertedContains(pattern: string, key: string, casing: Casing) {
    if LooksGlob(pattern) then Denotes(Scan(pattern, false, false, casing), key) else key == Unslash(pattern)
  }

  /** `insert_pattern` takes the pattern for what `compile` makes of it except when it holds a doubled
      backslash and every wildcard in it directly follows a backslash. */
  lemma {:induction false} InsertAgreesWithCompile(pattern: string, casing: Casing)
    ensures (forall key :: InsertedContains(pattern, key, casing) <==> Denotes(Scan(pattern, false, false, casing), key))
            <==> LooksGlob(pattern) || !DoubleSlash(pattern)
  {
    var p := Scan(pattern, false, false, casing);
    var plain := Unslash(pattern);
    if !LooksGlob(pattern) {
      if DoubleSlash(pattern) {
        SlashScan(pattern, false, casing);
        UnslashHasNone(pattern);
        DenotesIffAccepts(p, plain);
        if Accepts(p, plain) {
          AcceptsHas(p, plain, '\\');
        }
        assert InsertedContains(pattern, plain, casing) && !Denotes(p, plain);
      } else {
        assert pattern != "" ==> !WildcardAt(pattern, 0);
        PlainScan(pattern, false, casing);
        forall key ensures InsertedContains(pattern, key, casing) <==> Denotes(p, key) {
          DenotesIffAccepts(p, key);
          CharsAccept(plain, key);
        }
      }
    }
  }

  /** The disagreement, on `\\*`: compiled it matches every text that starts with a backslash, but
      inserted it matches only `*`. */
  lemma {:induction false} DoubledBackslashDisagrees(casing: Casing)
    ensures InsertedContains("\\\\*", "*", casing) && !Denotes(Scan("\\\\*", false, false, casing), "*")
    ensures !InsertedContains("\\\\*", "\\", casing) && Denotes(Scan("\\\\*", false, false, casing), "\\")
  {
    var s := "\\\\*";
    assert s[1..] == "\\*" && s[1..][1..] == "*";
    var p := Scan(s, false, false, casing);
    assert p == [Char('\\'), WildcardMany(1)] by {
      assert Stars("*") == 1 && "*"[1..] == "";
      assert Scan("*", false, false, casing) == [WildcardMany(1)];
      assert Scan("\\*", true, false, casing) == [Char('\\'), WildcardMany(1)];
    }
    assert Unslash(s) == "*" by {
      assert Unslash("\\*") == "*";
    }
    SlashThenAny(p);
  }

  lemma {:induction false} SlashThenAny(p: Pattern)
    requires p == [Char('\\'), WildcardMany(1)]
    ensures !Denotes(p, "*") && Denotes(p, "\\")
  {
    DenotesIffAccepts(p, "*");
    assert SplitsInto(p, "\\", ["\\", ""]) by {
      var parts := ["\\", ""];
      assert parts[1..] == [""] && Join([""]) == "";
    }
  }

  // ---------------------------------------------------------------- sets of globs

  class GlobSet {
    var entries: set<string>
    var patterns: seq<GlobPattern>

    constructor ()
      ensures entries == {} && patterns == []
    {
      entries, patterns := {}, [];
    }

    /** What the set contains: its plain keys and whatever one of its patterns denotes. */
    ghost predicate Has(key: string)
      reads this
    {
      key in entries || exists g :: g in patterns && Denotes(g.pattern, key)
    }

    ghost predicate Valid()
      reads this
    {
      forall g :: g in patterns ==> !g.toLower
    }

    method InsertPattern(pattern: string, casing: Casing)
      requires Valid()
      modifies this
      ensures Valid()
      ensures forall key :: Has(key) <==> old(Has(key)) || InsertedContains(pattern, key, casing)
    {
      var r := TryCompile(pattern, false, casing);
      match r {
        case Ok(glob) =>
          patterns := patterns + [glob];
        case Err(entry) =>
          entries := entries + {entry};
      }
    }

    method InsertEntry(entry: string)
      requires Valid()
      modifies this
      ensures Valid()
      ensures forall key :: Has(key) <==> old(Has(key)) || key == entry
    {
      entries := entries + {entry};
    }

    method Contains(key: string, casing: Casing) returns (r: bool)
      requires Valid()
      ensures r <==> Has(key)
    {
      if key in entries {
        return true;
      }
      for i := 0 to |patterns|
        invariant forall g :: g in patterns[..i] ==> !Denotes(g.pattern, key)
      {
        var hit := Matches(patterns[i], key, casing);
        if hit {
          return true;
        }
        assert patterns[..i + 1] == patterns[..i] + [patterns[i]];
      }
      assert patterns[..|patterns|] == patterns;
      return false;
    }
  }
}
