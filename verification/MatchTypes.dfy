/** `MatchType` of crates/utils/src/glob.rs: the shortcuts it takes for a pattern, and when they are right. */
module MatchTypes {
  import opened Basics
  import opened Glob

  datatype MatchType = Equal(text: string) | StartsWith(text: string) | EndsWith(text: string) | Matches(glob: Pattern) | All

  /** `MatchType::parse`. */
  function Parse(value: string, casing: Casing): MatchType {
    if value == "*" then All
    else if value != "" && value[|value| - 1] == '*' then StartsWith(value[..|value| - 1])
    else if value != "" && value[0] == '*' then EndsWith(value[1..])
    else if '*' in value then Matches(Scan(value, false, false, casing))
    else Equal(value)
  }

  predicate Suffix(text: string, value: string) {
    |text| <= |value| && value[|value| - |text|..] == text
  }

  /** `MatchType::matches`. */
  ghost predicate Fires(m: MatchType, value: string) {
    match m
    case Equal(text) => value == text
    case StartsWith(text) => text <= value
    case EndsWith(text) => Suffix(text, value)
    case Matches(glob) => Denotes(glob, value)
    case All => true
  }

  // ---------------------------------------------------------------- plain texts

  predicate Special(c: char) {
    c == '*' || c == '?' || c == '\\'
  }

  predicate Plain(s: string) {
    forall i :: 0 <= i < |s| ==> !Special(s[i])
  }

  lemma {:induction false} PlainScans(s: string, rest: string, casing: Casing)
    requires Plain(s)
    ensures Scan(s + rest, false, false, casing) == Chars(s) + Scan(rest, false, false, casing)
    decreases |s|
  {
    if s == "" {
      assert s + rest == rest;
    } else {
      assert !Special(s[0]);
      assert (s + rest)[1..] == s[1..] + rest;
      PlainScans(s[1..], rest, casing);
      assert Chars(s) == [Char(s[0])] + Chars(s[1..]);
      Assoc([Char(s[0])], Chars(s[1..]), Scan(rest, false, false, casing));
    }
  }

  lemma {:induction false} StarScans(casing: Casing)
    ensures Scan("*", false, false, casing) == [WildcardMany(1)]
  {
    assert Stars("*") == 1 && "*"[1..] == "";
  }

  lemma {:induction false} ManyTakesAll(n: nat, value: string)
    ensures Accepts([WildcardMany(n)], value)
    decreases |value|
  {
    if value != "" {
      ManyTakesAll(n, value[1..]);
    } else {
      assert [WildcardMany(n)][1..] == [];
    }
  }

  lemma {:induction false} PrefixAccepted(text: string, n: nat, value: string)
    ensures Accepts(Chars(text) + [WildcardMany(n)], value) <==> text <= value
    decreases |text|
  {
    var p := Chars(text) + [WildcardMany(n)];
    if text == "" {
      assert p == [WildcardMany(n)];
      ManyTakesAll(n, value);
    } else {
      assert p[1..] == Chars(text[1..]) + [WildcardMany(n)];
      assert p[0] == Char(text[0]);
      if value != "" {
        PrefixAccepted(text[1..], n, value[1..]);
        assert text == [text[0]] + text[1..] && value == [value[0]] + value[1..];
      }
    }
  }

  lemma {:induction false} SuffixAccepted(text: string, n: nat, value: string)
    ensures Accepts([WildcardMany(n)] + Chars(text), value) <==> Suffix(text, value)
    decreases |value|
  {
    var p := [WildcardMany(n)] + Chars(text);
    assert p[1..] == Chars(text);
    CharsAccept(text, value);
    if value != "" {
      SuffixAccepted(text, n, value[1..]);
      if |text| < |value| {
        assert value[1..][|value[1..]| - |text|..] == value[|value| - |text|..];
      }
    }
  }

  // ---------------------------------------------------------------- a text every pattern matches

  /** The pattern with its stars empty, `a` for a single wildcard, and what is escaped for itself. */
  function Sample(s: string, escaped: bool): string {
    if s == "" then ""
    else if s[0] == '*' && !escaped then Sample(s[1..], false)
    else if s[0] == '?' && !escaped then "a" + Sample(s[1..], false)
    else if s[0] == '\\' && !escaped then Sample(s[1..], true)
    else [s[0]] + Sample(s[1..], false)
  }

  lemma {:induction false} SamplePastStars(s: string)
    ensures Sample(s[Stars(s)..], false) == Sample(s, false)
  {
    if s != "" && s[0] == '*' {
      SamplePastStars(s[1..]);
      assert s[1..][Stars(s[1..])..] == s[Stars(s)..];
    } else {
      assert s[0..] == s;
    }
  }

  lemma {:induction false} SampleAccepted(s: string, escaped: bool, casing: Casing)
    ensures Accepts(Scan(s, escaped, false, casing), Sample(s, escaped))
    decreases |s|
  {
    if s != "" {
      if s[0] == '*' && !escaped {
        var rest := Scan(s[Stars(s)..], false, false, casing);
        SampleAccepted(s[Stars(s)..], false, casing);
        SamplePastStars(s);
        assert ([WildcardMany(Stars(s))] + rest)[1..] == rest;
      } else if s[0] == '\\' && !escaped {
        SampleAccepted(s[1..], true, casing);
      } else {
        SampleAccepted(s[1..], false, casing);
        var rest, tail := Scan(s[1..], false, false, casing), Sample(s[1..], false);
        var head := if s[0] == '?' && !escaped then WildcardSingle else Char(s[0]);
        var c := if s[0] == '?' && !escaped then 'a' else s[0];
        assert Scan(s, escaped, false, casing) == [head] + rest && ([head] + rest)[1..] == rest;
        assert Sample(s, escaped) == [c] + tail && ([c] + tail)[1..] == tail;
      }
    }
  }

  lemma {:induction false} SampleShort(s: string, escaped: bool)
    ensures |Sample(s, escaped)| <= |s|
    decreases |s|
  {
    if s != "" {
      SampleShort(s[1..], s[0] == '\\' && !escaped);
    }
  }

  /** A pattern with anything special in it does not stand for itself. */
  lemma {:induction false} SampleDiffers(s: string)
    requires !Plain(s)
    ensures Sample(s, false) != s
    decreases |s|
  {
    if s[0] == '*' || s[0] == '\\' {
      SampleShort(s[1..], s[0] == '\\');
    } else if !Special(s[0]) {
      var i :| 0 <= i < |s| && Special(s[i]);
      assert Special(s[1..][i - 1]);
      SampleDiffers(s[1..]);
      assert Sample(s, false)[1..] == Sample(s[1..], false);
    }
  }

  lemma {:induction false} EscapedStar(s: string)
    requires |s| == 2 && s[0] == '\\' && s[1] == '*'
    ensures Sample(s, false) == "*"
  {
    var rest := s[1..];
    assert rest[0] == '*' && rest[1..] == "";
    assert Sample(rest, true) == [rest[0]] + Sample(rest[1..], false);
  }

  /** The same with a star behind it, which what is left of an escape may take. */
  lemma {:induction false} SampleShortBeforeStar(s: string, escaped: bool)
    requires s != "" || !escaped
    ensures |Sample(s + "*", escaped)| <= |s|
    decreases |s|
  {
    if s == "" {
      assert s + "*" == "*" && "*"[1..] == "";
    } else {
      assert (s + "*")[1..] == s[1..] + "*";
      var next := s[0] == '\\' && !escaped;
      if s[1..] == "" && next {
        EscapedStar(s + "*");
      } else {
        SampleShortBeforeStar(s[1..], next);
      }
    }
  }

  lemma {:induction false} PrefixTail(s: string, all: string)
    requires s != "" && all != ""
    ensures s <= all ==> s[1..] <= all[1..]
  {}

  lemma {:induction false} SampleNoPrefix(s: string)
    requires !Plain(s)
    ensures !(s <= Sample(s + "*", false))
    decreases |s|
  {
    var rest, all := s[1..], Sample(s + "*", false);
    assert (s + "*")[1..] == rest + "*";
    if s[0] == '*' {
      SampleShortBeforeStar(rest, false);
    } else if s[0] == '\\' {
      if rest == "" {
        EscapedStar(s + "*");
      } else {
        SampleShortBeforeStar(rest, true);
      }
    } else if !Special(s[0]) {
      var i :| 0 <= i < |s| && Special(s[i]);
      assert Special(rest[i - 1]);
      SampleNoPrefix(rest);
      assert all == [s[0]] + Sample(rest + "*", false);
      PrefixTail(s, all);
    }
  }

  // ---------------------------------------------------------------- when the shortcuts are right

  /** Nothing special but one star at an end, or stars inside only, or all. */
  predicate Sound(value: string) {
    || value == "*"
    || (if value != "" && value[|value| - 1] == '*' then Plain(value[..|value| - 1])
        else if value != "" && value[0] == '*' then Plain(value[1..])
        else '*' in value || Plain(value))
  }

  ghost predicate Agrees(value: string, casing: Casing) {
    forall v :: Fires(Parse(value, casing), v) <==> Denotes(Scan(value, false, false, casing), v)
  }

  lemma {:induction false} PrefixAgrees(text: string, value: string, casing: Casing)
    requires Plain(text) && value == text + "*"
    ensures forall v :: text <= v <==> Denotes(Scan(value, false, false, casing), v)
  {
    PlainScans(text, "*", casing);
    StarScans(casing);
    var p := Scan(value, false, false, casing);
    forall v ensures text <= v <==> Denotes(p, v) {
      DenotesIffAccepts(p, v);
      PrefixAccepted(text, 1, v);
    }
  }

  lemma {:induction false} StarThenPlain(text: string, casing: Casing)
    requires Plain(text)
    ensures Scan("*" + text, false, false, casing) == [WildcardMany(1)] + Chars(text)
  {
    var s := "*" + text;
    assert s[1..] == text;
    assert text != "" ==> !Special(text[0]);
    assert Stars(text) == 0;
    assert text + "" == text;
    PlainScans(text, "", casing);
    assert Chars(text) + [] == Chars(text);
  }

  lemma {:induction false} SuffixAgrees(text: string, value: string, casing: Casing)
    requires Plain(text) && value == "*" + text
    ensures forall v :: Suffix(text, v) <==> Denotes(Scan(value, false, false, casing), v)
  {
    StarThenPlain(text, casing);
    var p := Scan(value, false, false, casing);
    forall v ensures Suffix(text, v) <==> Denotes(p, v) {
      DenotesIffAccepts(p, v);
      SuffixAccepted(text, 1, v);
    }
  }

  lemma {:induction false} EqualAgrees(value: string, casing: Casing)
    requires Plain(value)
    ensures forall v :: v == value <==> Denotes(Scan(value, false, false, casing), v)
  {
    PlainScans(value, "", casing);
    assert value + "" == value && Chars(value) + [] == Chars(value);
    var p := Scan(value, false, false, casing);
    forall v ensures v == value <==> Denotes(p, v) {
      DenotesIffAccepts(p, v);
      CharsAccept(value, v);
    }
  }

  lemma {:induction false} AllAgrees(casing: Casing)
    ensures forall v :: Denotes(Scan("*", false, false, casing), v)
  {
    StarScans(casing);
    forall v ensures Denotes([WildcardMany(1)], v) {
      ManyTakesAll(1, v);
      DenotesIffAccepts([WildcardMany(1)], v);
    }
  }

  lemma {:induction false} SampleDenoted(value: string, casing: Casing)
    ensures Denotes(Scan(value, false, false, casing), Sample(value, false))
  {
    SampleAccepted(value, false, casing);
    DenotesIffAccepts(Scan(value, false, false, casing), Sample(value, false));
  }

  lemma {:induction false} SoundAgrees(value: string, casing: Casing)
    requires Sound(value)
    ensures Agrees(value, casing)
  {
    if value == "*" {
      AllAgrees(casing);
    } else if value != "" && value[|value| - 1] == '*' {
      assert value == value[..|value| - 1] + "*";
      PrefixAgrees(value[..|value| - 1], value, casing);
    } else if value != "" && value[0] == '*' {
      assert value == "*" + value[1..];
      SuffixAgrees(value[1..], value, casing);
    } else if '*' !in value {
      EqualAgrees(value, casing);
    }
  }

  lemma {:induction false} SuffixOfShort(text: string, value: string)
    requires |value| <= |text|
    ensures Suffix(text, value) ==> value == text
  {}

  /** Where a shortcut is not right, it misses the sample of the pattern. */
  lemma {:induction false} UnsoundMisses(value: string, casing: Casing)
    requires !Sound(value)
    ensures !Fires(Parse(value, casing), Sample(value, false))
  {
    if value != "" && value[|value| - 1] == '*' {
      assert value == value[..|value| - 1] + "*";
      SampleNoPrefix(value[..|value| - 1]);
    } else if value != "" && value[0] == '*' {
      SampleDiffers(value[1..]);
      SampleShort(value[1..], false);
      SuffixOfShort(value[1..], Sample(value, false));
    } else {
      SampleDiffers(value);
    }
  }

  /** The shortcuts match what the pattern matches, for every value, exactly when they are sound. */
  lemma {:induction false} AgreesIffSound(value: string, casing: Casing)
    ensures Agrees(value, casing) <==> Sound(value)
  {
    if Sound(value) {
      SoundAgrees(value, casing);
    } else {
      UnsoundMisses(value, casing);
      SampleDenoted(value, casing);
    }
  }

  /** A star inside and one at the end: `ab` matches the pattern and not the shortcut. */
  lemma {:induction false} SecondStarIsLiteral(casing: Casing)
    ensures Denotes(Scan("a*b*", false, false, casing), "ab") && !Fires(Parse("a*b*", casing), "ab")
  {
    var s := "a*b*";
    assert s[1..] == "*b*" && "*b*"[1..] == "b*" && "b*"[1..] == "*" && "*"[1..] == "";
    assert Sample("*", false) == "" && Sample("b*", false) == "b" && Sample("*b*", false) == "b";
    assert Sample(s, false) == "ab";
    assert s[..3] == "a*b" && Special("a*b"[1]);
    assert !Sound(s);
    SampleDenoted(s, casing);
    UnsoundMisses(s, casing);
  }
}
