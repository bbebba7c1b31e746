/**
 Modified UTF-7 mailbox names (section 5.1.3 of RFC 3501), as crates/imap-proto/src/utf7.rs encodes
 and decodes them.  Strings are sequences of Unicode scalar values; 32-bit accumulators are written
 as integers modulo 2^32.
 */
module Utf7 {
  import opened Arithmetic
  import opened Basics

  /** A UTF-16 code unit. */
  type Unit = u: int | 0 <= u < 0x10000

  const WORD: int := 0x1_0000_0000

  // ---------------------------------------------------------------- UTF-16

  function CharUnits(c: char): seq<Unit> {
    var n := c as int;
    if n < 0x10000 then [n] else [0xD800 + (n - 0x10000) / 0x400, 0xDC00 + (n - 0x10000) % 0x400]
  }

  function ToUtf16(s: string): seq<Unit> {
    if s == "" then [] else CharUnits(s[0]) + ToUtf16(s[1..])
  }

  predicate IsHigh(u: Unit) {
    0xD800 <= u < 0xDC00
  }

  predicate IsLow(u: Unit) {
    0xDC00 <= u < 0xE000
  }

  function PairChar(high: Unit, low: Unit): char
    requires IsHigh(high) && IsLow(low)
  {
    (0x10000 + (high as int - 0xD800) * 0x400 + (low as int - 0xDC00)) as char
  }

  lemma {:induction false} PairUnits(high: Unit, low: Unit)
    requires IsHigh(high) && IsLow(low)
    ensures CharUnits(PairChar(high, low)) == [high, low]
  {}

  /** `String::from_utf16`: fails on a surrogate that is not part of a pair. */
  function FromUtf16(units: seq<Unit>): Option<string>
    decreases |units|
  {
    if units == [] then Some("")
    else if !IsHigh(units[0]) && !IsLow(units[0]) then
      match FromUtf16(units[1..])
      case None => None
      case Some(rest) => Some([units[0] as char] + rest)
    else if IsHigh(units[0]) && |units| > 1 && IsLow(units[1]) then
      match FromUtf16(units[2..])
      case None => None
      case Some(rest) => Some([PairChar(units[0], units[1])] + rest)
    else None
  }

  lemma {:induction false} CharReads(c: char, rest: seq<Unit>)
    ensures FromUtf16(CharUnits(c) + rest) ==
      match FromUtf16(rest)
      case None => None
      case Some(s) => Some([c] + s)
  {
    var units := CharUnits(c) + rest;
    assert units[|CharUnits(c)|..] == rest;
    if c as int >= 0x10000 {
      var n := c as int - 0x10000;
      assert units[0] == 0xD800 + n / 0x400 && units[1] == 0xDC00 + n % 0x400;
      assert PairChar(units[0], units[1]) == c;
    }
  }

  lemma {:induction false} Utf16RoundTrip(s: string)
    ensures FromUtf16(ToUtf16(s)) == Some(s)
  {
    if s != "" {
      Utf16RoundTrip(s[1..]);
      CharReads(s[0], ToUtf16(s[1..]));
      assert FromUtf16(CharUnits(s[0]) + ToUtf16(s[1..])) == Some([s[0]] + s[1..]);
      assert s == [s[0]] + s[1..];
    }
  }

  /** Only a text's own units read as that text. */
  lemma {:induction false} Utf16Unique(units: seq<Unit>, s: string)
    requires FromUtf16(units) == Some(s)
    ensures units == ToUtf16(s)
    decreases |units|
  {
    if units == [] {
    } else if !IsHigh(units[0]) && !IsLow(units[0]) {
      var rest := FromUtf16(units[1..]).value;
      Utf16Unique(units[1..], rest);
      assert s[1..] == rest;
      assert units == [units[0]] + units[1..];
    } else {
      var rest := FromUtf16(units[2..]).value;
      Utf16Unique(units[2..], rest);
      assert s[1..] == rest;
      PairUnits(units[0], units[1]);
      assert units == [units[0], units[1]] + units[2..];
    }
  }

  // ---------------------------------------------------------------- base 64

  /** The character of a digit: `UTF_7_MAP`. */
  function DigitChar(d: nat): char
    requires d < 64
  {
    if d < 26 then 'A' + d as char
    else if d < 52 then 'a' + (d - 26) as char
    else if d < 62 then '0' + (d - 52) as char
    else if d == 62 then '+' else ','
  }

  /** The digit of a character: `UTF_7_RANK`, where 0xff is none. */
  function Rank(c: char): (r: Option<nat>)
    ensures r.Some? ==> r.value < 64
  {
    if 'A' <= c <= 'Z' then Some((c - 'A') as nat)
    else if 'a' <= c <= 'z' then Some((c - 'a') as nat + 26)
    else if '0' <= c <= '9' then Some((c - '0') as nat + 52)
    else if c == '+' then Some(62)
    else if c == ',' then Some(63)
    else None
  }

  lemma {:induction false} RankOfDigit(d: nat)
    requires d < 64
    ensures Rank(DigitChar(d)) == Some(d) && '+' <= DigitChar(d) <= 'z' && DigitChar(d) != '-'
  {}

  // ---------------------------------------------------------------- the reference encoding

  /** Units that stand for themselves: printable ASCII. */
  predicate Direct(u: Unit) {
    0x20 <= u < 0x7f
  }

  /** The base-64 digits of a run of units, three units to eight digits, zero bits added at the end. */
  function Pack(run: seq<Unit>): (r: seq<nat>)
    ensures forall i :: 0 <= i < |r| ==> r[i] < 64
  {
    if |run| == 0 then []
    else if |run| == 1 then
      var a := run[0] as int;
      [a / 1024, a / 16 % 64, a % 16 * 4]
    else if |run| == 2 then
      var a, b := run[0] as int, run[1] as int;
      [a / 1024, a / 16 % 64, a % 16 * 4 + b / 16384, b / 256 % 64, b / 4 % 64, b % 4 * 16]
    else Group(run[0], run[1], run[2]) + Pack(run[3..])
  }

  function Group(a0: Unit, b0: Unit, c0: Unit): (r: seq<nat>)
    ensures |r| == 8 && forall i :: 0 <= i < |r| ==> r[i] < 64
  {
    var a, b, c := a0 as int, b0 as int, c0 as int;
    [a / 1024, a / 16 % 64, a % 16 * 4 + b / 16384, b / 256 % 64, b / 4 % 64, b % 4 * 16 + c / 4096, c / 64 % 64, c % 64]
  }

  function DigitChars(digits: seq<nat>): (r: string)
    requires forall i :: 0 <= i < |digits| ==> digits[i] < 64
    ensures |r| == |digits| && forall i :: 0 <= i < |digits| ==> r[i] == DigitChar(digits[i])
  {
    seq(|digits|, i requires 0 <= i < |digits| => DigitChar(digits[i]))
  }

  /** The length of the longest run of units at the start that cannot stand for themselves. */
  function RunLength(units: seq<Unit>): (n: nat)
    ensures n <= |units|
    ensures forall i :: 0 <= i < n ==> !Direct(units[i])
    ensures n < |units| ==> Direct(units[n])
  {
    if units == [] || Direct(units[0]) then 0 else 1 + RunLength(units[1..])
  }

  function DirectChars(u: Unit): string
    requires Direct(u)
  {
    if u == 0x26 then "&-" else [u as char]
  }

  /** One shift for a whole run. */
  function Shifted(run: seq<Unit>): string {
    "&" + DigitChars(Pack(run)) + "-"
  }

  /** Printable ASCII as itself, `&` as `&-`, and every longest run of anything else in one shift. */
  function Canonical(units: seq<Unit>): string
    decreases |units|
  {
    if units == [] then ""
    else if Direct(units[0]) then DirectChars(units[0]) + Canonical(units[1..])
    else Shifted(units[..RunLength(units)]) + Canonical(units[RunLength(units)..])
  }

  /** The encoding is printable ASCII. */
  lemma {:induction false} CanonicalPrintable(units: seq<Unit>, i: nat)
    requires i < |Canonical(units)|
    ensures ' ' <= Canonical(units)[i] <= '~'
    decreases |units|
  {
    if Direct(units[0]) {
      var head := DirectChars(units[0]);
      if i >= |head| {
        CanonicalPrintable(units[1..], i - |head|);
      }
    } else {
      var head := Shifted(units[..RunLength(units)]);
      if i >= |head| {
        CanonicalPrintable(units[RunLength(units)..], i - |head|);
      } else if 0 < i < |head| - 1 {
        RankOfDigit(Pack(units[..RunLength(units)])[i - 1]);
      }
    }
  }

  /** The encoding falls apart between two units unless both need shifting. */
  lemma {:induction false} CanonicalSplits(a: seq<Unit>, b: seq<Unit>)
    requires a == [] || b == [] || Direct(a[|a| - 1]) || Direct(b[0])
    ensures Canonical(a + b) == Canonical(a) + Canonical(b)
    decreases |a|
  {
    if a == [] {
      assert a + b == b;
    } else if b == [] {
      assert a + b == a;
    } else if Direct(a[0]) {
      CanonicalDirectSplits(a, b);
    } else {
      CanonicalRunSplits(a, b);
    }
  }

  lemma {:induction false} CanonicalDirectSplits(a: seq<Unit>, b: seq<Unit>)
    requires a != [] && b != [] && Direct(a[0]) && (Direct(a[|a| - 1]) || Direct(b[0]))
    ensures Canonical(a + b) == Canonical(a) + Canonical(b)
    decreases |a|, 0
  {
    assert (a + b)[1..] == a[1..] + b;
    CanonicalSplits(a[1..], b);
    Assoc(DirectChars(a[0]), Canonical(a[1..]), Canonical(b));
  }

  lemma {:induction false} CanonicalRunSplits(a: seq<Unit>, b: seq<Unit>)
    requires a != [] && b != [] && !Direct(a[0]) && (Direct(a[|a| - 1]) || Direct(b[0]))
    ensures Canonical(a + b) == Canonical(a) + Canonical(b)
    decreases |a|, 0
  {
    var n := RunLength(a);
    RunLengthSplits(a, b);
    assert (a + b)[..n] == a[..n] && (a + b)[n..] == a[n..] + b;
    CanonicalSplits(a[n..], b);
    Assoc(Shifted(a[..n]), Canonical(a[n..]), Canonical(b));
  }

  lemma {:induction false} RunLengthSplits(a: seq<Unit>, b: seq<Unit>)
    requires b == [] || Direct(b[0]) || (a != [] && Direct(a[|a| - 1]))
    ensures RunLength(a + b) == RunLength(a)
  {
    if a == [] {
      assert a + b == b;
    } else if !Direct(a[0]) {
      assert (a + b)[1..] == a[1..] + b;
      RunLengthSplits(a[1..], b);
    }
  }

  // ---------------------------------------------------------------- the encoder's accumulator

  /** The digits of a run that are complete, before the last bits are flushed. */
  function Full(run: seq<Unit>): (r: seq<nat>)
    ensures forall i :: 0 <= i < |r| ==> r[i] < 64
  {
    if |run| == 0 then []
    else if |run| == 1 then [run[0] as int / 1024, run[0] as int / 16 % 64]
    else if |run| == 2 then
      var a, b := run[0] as int, run[1] as int;
      [a / 1024, a / 16 % 64, a % 16 * 4 + b / 16384, b / 256 % 64, b / 4 % 64]
    else Group(run[0], run[1], run[2]) + Full(run[3..])
  }

  lemma {:induction false} Powers()
    ensures Pow2(0) == 1 && Pow2(2) == 4 && Pow2(4) == 16 && Pow2(6) == 64 && Pow2(8) == 256 && Pow2(10) == 1024
    ensures Pow2(12) == 4096 && Pow2(14) == 16384 && Pow2(16) == 65536
  {
    assert Pow2(8) == 256;
    assert Pow2(16) == 65536;
  }

  /** How many bits a run leaves over, and their value. */
  function LeftBits(run: seq<Unit>): nat {
    if |run| % 3 == 0 then 0 else if |run| % 3 == 1 then 4 else 2
  }

  function LeftValue(run: seq<Unit>): (v: nat)
    ensures v < Pow2(LeftBits(run))
  {
    if |run| % 3 == 0 then 0
    else if |run| % 3 == 1 then assert Pow2(4) == 16; run[|run| - 1] % 16
    else assert Pow2(2) == 4; run[|run| - 1] % 4
  }

  lemma {:induction false} LeftLater(run: seq<Unit>)
    requires |run| >= 3
    ensures LeftBits(run[3..]) == LeftBits(run) && LeftValue(run[3..]) == LeftValue(run)
  {
    assert |run[3..]| % 3 == |run| % 3;
    assert |run| > 3 ==> run[3..][|run| - 4] == run[|run| - 1];
  }

  /** The digit the bits left over are flushed into. */
  function LastDigit(run: seq<Unit>): seq<nat> {
    if LeftBits(run) == 0 then [] else [LeftValue(run) * Pow2(6 - LeftBits(run))]
  }

  lemma {:induction false} PackIsFull(run: seq<Unit>)
    ensures Pack(run) == Full(run) + LastDigit(run)
    decreases |run|
  {
    if |run| >= 3 {
      PackIsFull(run[3..]);
      LeftLater(run);
      Assoc(Group(run[0], run[1], run[2]), Full(run[3..]), LastDigit(run));
    } else {
      assert Pow2(2) == 4 && Pow2(4) == 16;
    }
  }

  /** What one more unit adds. */
  function More(run: seq<Unit>, x: Unit): (r: seq<nat>)
    ensures forall i :: 0 <= i < |r| ==> r[i] < 64
  {
    Powers();
    var p, u := LeftValue(run), x as int;
    if |run| % 3 == 0 then [u / 1024, u / 16 % 64]
    else if |run| % 3 == 1 then [p * 4 + u / 16384, u / 256 % 64, u / 4 % 64]
    else [p * 16 + u / 4096, u / 64 % 64, u % 64]
  }

  lemma {:induction false} FullSnoc(run: seq<Unit>, x: Unit)
    ensures Full(run + [x]) == Full(run) + More(run, x)
    decreases |run|
  {
    if |run| >= 3 {
      var longer := run + [x];
      assert longer[3..] == run[3..] + [x];
      FullStep(longer);
      FullStep(run);
      FullSnoc(run[3..], x);
      MoreLater(run, x);
      Assoc(Group(run[0], run[1], run[2]), Full(run[3..]), More(run, x));
    } else if |run| == 2 {
      FullThree(run, x);
    }
  }

  lemma {:induction false} FullStep(run: seq<Unit>)
    requires |run| >= 3
    ensures Full(run) == Group(run[0], run[1], run[2]) + Full(run[3..])
  {}

  lemma {:induction false} FullThree(run: seq<Unit>, x: Unit)
    requires |run| == 2
    ensures Full(run + [x]) == Full(run) + More(run, x)
  {
    var longer := run + [x];
    assert longer[3..] == [];
    FullStep(longer);
    assert LeftValue(run) == run[1] % 4;
  }

  lemma {:induction false} MoreLater(run: seq<Unit>, x: Unit)
    requires |run| >= 3
    ensures More(run, x) == More(run[3..], x)
  {
    LeftLater(run);
  }

  /** The digits in the low `bits` bits of the accumulator, from the top; fewer than six bits stay. */
  function TopDigits(u: nat, bits: nat): (r: seq<nat>)
    ensures forall i :: 0 <= i < |r| ==> r[i] < 64
  {
    if bits < 6 then [] else [u / Pow2(bits - 6) % 64] + TopDigits(u, bits - 6)
  }

  /** Six bits of a word above its low `x` part are those of `x`, if `x` reaches that far. */
  lemma {:induction false} SixBits(v: int, d: int, h: int, x: int)
    requires d > 0 && v == h * (64 * d) + x && x >= 0
    ensures v / d % 64 == x / d % 64
  {
    DivMod(v, d, h * 64 + x / d, x % d);
    DivMod(h * 64 + x / d, 64, h + x / d / 64, x / d % 64);
  }

  lemma {:induction false} TopDigits16(u: nat)
    ensures TopDigits(u, 16) == [u / 1024 % 64, u / 16 % 64]
  {
    Powers();
    assert TopDigits(u, 10) == [u / 16 % 64];
  }

  lemma {:induction false} TopDigits20(u: nat)
    ensures TopDigits(u, 20) == [u / 16384 % 64, u / 256 % 64, u / 4 % 64]
  {
    Powers();
    assert TopDigits(u, 8) == [u / 4 % 64];
    assert TopDigits(u, 14) == [u / 256 % 64, u / 4 % 64];
  }

  lemma {:induction false} TopDigits18(u: nat)
    ensures TopDigits(u, 18) == [u / 4096 % 64, u / 64 % 64, u % 64]
  {
    Powers();
    assert TopDigits(u, 6) == [u / 1 % 64];
    assert TopDigits(u, 12) == [u / 64 % 64, u % 64];
  }

  /** A new unit pushed into a 32-bit accumulator lands right under the bits left over. */
  lemma {:induction false} PushUnit(u: nat, x: int)
    requires 0 <= x < 65536
    ensures
      var v := (u * 65536 + x) % WORD;
      v % 65536 == x && v / 65536 % 16 == u % 16 && v / 65536 % 4 == u % 4
  {
    var q := (u * 65536 + x) / WORD;
    var v := (u * 65536 + x) % WORD;
    var w := u - q * 65536;
    assert v == w * 65536 + x;
    DivMod(v, 65536, w, x);
    DivMod(w, 16, u / 16 - q * 4096, u % 16);
    DivMod(w, 4, u / 4 - q * 16384, u % 4);
  }

  lemma {:induction false} Digits16(v: nat, x: int)
    requires v % 65536 == x
    ensures v / 1024 % 64 == x / 1024 && v / 16 % 64 == x / 16 % 64 && v % 16 == x % 16
  {
    var h := v / 65536;
    SixBits(v, 1024, h, x);
    SixBits(v, 16, h * 64, x);
    DivMod(v, 16, h * 4096 + x / 16, x % 16);
  }

  lemma {:induction false} Digits20(v: nat, p: int, x: int)
    requires v % 65536 == x && v / 65536 % 16 == p
    ensures v / 16384 % 64 == p * 4 + x / 16384
  {
    var h := v / 65536;
    SixBits(v, 16384, h / 16, p * 65536 + x);
    DivMod(p * 65536 + x, 16384, p * 4 + x / 16384, x % 16384);
  }

  lemma {:induction false} Digits14(v: nat, x: int)
    requires v % 65536 == x
    ensures v / 256 % 64 == x / 256 % 64 && v / 4 % 64 == x / 4 % 64 && v % 4 == x % 4
  {
    var h := v / 65536;
    SixBits(v, 256, h * 4, x);
    SixBits(v, 4, h * 256, x);
    DivMod(v, 4, h * 16384 + x / 4, x % 4);
  }

  lemma {:induction false} Digits18(v: nat, p: int, x: int)
    requires v % 65536 == x && v / 65536 % 4 == p
    ensures v / 4096 % 64 == p * 16 + x / 4096 && v / 64 % 64 == x / 64 % 64 && v % 64 == x % 64
  {
    var h := v / 65536;
    SixBits(v, 4096, h / 4, p * 65536 + x);
    DivMod(p * 65536 + x, 4096, p * 16 + x / 4096, x % 4096);
    SixBits(v, 64, h * 16, x);
    SixBits(v, 1, h * 1024, x);
  }

  lemma {:induction false} Accumulates0(v: nat, x: int)
    requires v % 65536 == x
    ensures TopDigits(v, 16) == [x / 1024, x / 16 % 64] && v % 16 == x % 16
  {
    Digits16(v, x);
    TopDigits16(v);
  }

  lemma {:induction false} Accumulates4(v: nat, p: int, x: int)
    requires v % 65536 == x && v / 65536 % 16 == p
    ensures TopDigits(v, 20) == [p * 4 + x / 16384, x / 256 % 64, x / 4 % 64] && v % 4 == x % 4
  {
    Digits20(v, p, x);
    Digits14(v, x);
    TopDigits20(v);
  }

  lemma {:induction false} Accumulates2(v: nat, p: int, x: int)
    requires v % 65536 == x && v / 65536 % 4 == p
    ensures TopDigits(v, 18) == [p * 16 + x / 4096, x / 64 % 64, x % 64]
  {
    Digits18(v, p, x);
    TopDigits18(v);
  }

  /** The accumulator's low bits are those the run leaves over. */
  predicate Holding(u: nat, bits: nat, run: seq<Unit>) {
    bits == LeftBits(run) && u % Pow2(bits) == LeftValue(run)
  }

  /** One unit through the accumulator: its complete digits, and the bits left over. */
  lemma {:induction false} Accumulates(run: seq<Unit>, u: nat, x: Unit)
    requires Holding(u, LeftBits(run), run)
    ensures
      var u' := (u * 65536 + x) % WORD;
      TopDigits(u', LeftBits(run) + 16) == More(run, x) && Holding(u', (LeftBits(run) + 16) % 6, run + [x])
  {
    Powers();
    PushUnit(u, x);
    var v := (u * 65536 + x) % WORD;
    if |run| % 3 == 0 {
      assert LeftBits(run) == 0 && LeftBits(run + [x]) == 4;
      Accumulates0(v, x);
    } else if |run| % 3 == 1 {
      assert LeftBits(run) == 4 && LeftBits(run + [x]) == 2;
      Accumulates4(v, LeftValue(run), x);
    } else {
      assert LeftBits(run) == 2 && LeftBits(run + [x]) == 0;
      Accumulates2(v, LeftValue(run), x);
    }
  }

  // ---------------------------------------------------------------- the encoder

  /** The inner loop of `utf7_encode`: the complete digits of the accumulator, top first. */
  method EmitDigits(result: string, u: nat, bits: nat) returns (r: string, left: nat)
    ensures r == result + DigitChars(TopDigits(u, bits))
    ensures left == bits % 6
  {
    r, left := result, bits;
    ghost var groups := bits / 6;
    while left >= 6
      invariant left == 6 * groups + bits % 6 && groups >= 0
      invariant r + DigitChars(TopDigits(u, left)) == result + DigitChars(TopDigits(u, bits))
    {
      EmitOne(r, u, left);
      r := r + [DigitChar(u / Pow2(left - 6) % 64)];
      left, groups := left - 6, groups - 1;
    }
    NoDigits(r, u, left);
  }

  lemma {:induction false} NoDigits(r: string, u: nat, left: nat)
    requires left < 6
    ensures r + DigitChars(TopDigits(u, left)) == r
  {}

  lemma {:induction false} EmitOne(r: string, u: nat, left: nat)
    requires left >= 6
    ensures r + DigitChars(TopDigits(u, left))
         == r + [DigitChar(u / Pow2(left - 6) % 64)] + DigitChars(TopDigits(u, left - 6))
  {
    var d := u / Pow2(left - 6) % 64;
    assert DigitChars(TopDigits(u, left)) == [DigitChar(d)] + DigitChars(TopDigits(u, left - 6));
  }

  /** Ending a shift: the bits left over, filled up with zeros, and `-`. */
  method CloseShift(result: string, u: nat, bits: nat, ghost run: seq<Unit>) returns (r: string)
    requires Holding(u, bits, run)
    ensures r == result + (LastChars(run) + "-")
  {
    r := result;
    if bits > 0 {
      FlushDigit(u, bits, LeftValue(run));
      r := r + [DigitChar(u * Pow2(6 - bits) % WORD % 64)];
    }
    r := r + "-";
  }

  function LastChars(run: seq<Unit>): string {
    Powers();
    DigitChars(LastDigit(run))
  }

  lemma {:induction false} FlushDigit(u: nat, bits: nat, p: nat)
    requires (bits == 2 || bits == 4) && u % Pow2(bits) == p
    ensures u * Pow2(6 - bits) % WORD % 64 == p * Pow2(6 - bits)
  {
    Powers();
    if bits == 2 {
      Flush2(u);
    } else {
      Flush4(u);
    }
  }

  lemma {:induction false} Flush2(u: nat)
    ensures u * 16 % WORD % 64 == u % 4 * 16
  {
    assert u * 16 == 64 * (u / 4) + u % 4 * 16;
    var q := u * 16 / WORD;
    assert u * 16 % WORD == 64 * (u / 4 - q * 67108864) + u % 4 * 16;
  }

  lemma {:induction false} Flush4(u: nat)
    ensures u * 4 % WORD % 64 == u % 16 * 4
  {
    assert u * 4 == 64 * (u / 16) + u % 16 * 4;
    var q := u * 4 / WORD;
    assert u * 4 % WORD == 64 * (u / 16 - q * 67108864) + u % 16 * 4;
  }

  predicate AllShifted(run: seq<Unit>) {
    forall i :: 0 <= i < |run| ==> !Direct(run[i])
  }

  lemma {:induction false} RunLengthAll(run: seq<Unit>)
    requires AllShifted(run)
    ensures RunLength(run) == |run|
  {
    if run != [] {
      RunLengthAll(run[1..]);
    }
  }

  lemma {:induction false} CanonicalRun(run: seq<Unit>)
    requires AllShifted(run) && run != []
    ensures Canonical(run) == Shifted(run)
  {
    RunLengthAll(run);
    assert run[..|run|] == run && Canonical(run[|run|..]) == "" && Shifted(run) + "" == Shifted(run);
  }

  lemma {:induction false} DigitCharsAppend(a: seq<nat>, b: seq<nat>)
    requires (forall i :: 0 <= i < |a| ==> a[i] < 64) && (forall i :: 0 <= i < |b| ==> b[i] < 64)
    ensures DigitChars(a + b) == DigitChars(a) + DigitChars(b)
  {}

  lemma {:induction false} ShiftedIsFull(run: seq<Unit>)
    ensures Shifted(run) == ("&" + DigitChars(Full(run))) + (LastChars(run) + "-")
  {
    Powers();
    PackIsFull(run);
    DigitCharsAppend(Full(run), LastDigit(run));
  }

  /** What the encoder has written after the units `before` and, in a shift, `run`. */
  function Written(before: seq<Unit>, run: seq<Unit>): string {
    Canonical(before) + if run == [] then "" else "&" + DigitChars(Full(run))
  }

  /** No shift is open at the end of `before`. */
  predicate Boundary(before: seq<Unit>, run: seq<Unit>) {
    AllShifted(run) && (before == [] || Direct(before[|before| - 1]))
  }

  lemma {:induction false} WrittenCloses(before: seq<Unit>, run: seq<Unit>)
    requires Boundary(before, run) && run != []
    ensures Written(before, run) + (LastChars(run) + "-") == Canonical(before + run)
  {
    CanonicalSplits(before, run);
    CanonicalRun(run);
    ShiftedIsFull(run);
    Assoc(Canonical(before), "&" + DigitChars(Full(run)), LastChars(run) + "-");
  }

  lemma {:induction false} WrittenDirect(done: seq<Unit>, u: Unit)
    requires Direct(u)
    ensures Canonical(done + [u]) == Canonical(done) + DirectChars(u)
  {
    CanonicalSplits(done, [u]);
    assert [u][1..] == [] && DirectChars(u) + "" == DirectChars(u);
  }

  lemma {:induction false} WrittenMore(before: seq<Unit>, run: seq<Unit>, x: Unit)
    ensures Written(before, run + [x]) == (Written(before, run) + (if run == [] then "&" else "")) + DigitChars(More(run, x))
  {
    FullSnoc(run, x);
    DigitCharsAppend(Full(run), More(run, x));
    if run == [] {
      assert Full(run) == [] && DigitChars(Full(run)) == "";
    }
  }

  /** crates/imap-proto/src/utf7.rs, `utf7_encode`. */
  method Encode(text: string) returns (result: string)
    ensures result == Canonical(ToUtf16(text))
  {
    var units := ToUtf16(text);
    result := "";
    var shifted, bits, u: nat := false, 0, 0;
    ghost var before: seq<Unit>, run: seq<Unit> := [], [];
    for i := 0 to |units|
      invariant units[..i] == before + run && Boundary(before, run) && shifted == (run != [])
      invariant Holding(u, bits, run) && result == Written(before, run)
    {
      assert units[..i + 1] == units[..i] + [units[i]];
      result, shifted, bits, u, before, run := EncodeUnit(result, units[i], shifted, bits, u, before, run);
    }
    assert units[..|units|] == units;
    result := EncodeEnd(result, shifted, bits, u, before, run);
  }

  method EncodeEnd(result: string, shifted: bool, bits: nat, u: nat, ghost before: seq<Unit>, ghost run: seq<Unit>)
    returns (r: string)
    requires Boundary(before, run) && shifted == (run != []) && result == Written(before, run) && Holding(u, bits, run)
    ensures r == Canonical(before + run)
  {
    r := result;
    if shifted {
      WrittenCloses(before, run);
      r := CloseShift(r, u, bits, run);
    } else {
      assert before + run == before;
    }
  }

  /** The body of the loop. */
  method EncodeUnit(result: string, ch: Unit, shifted: bool, bits: nat, u: nat, ghost before: seq<Unit>, ghost run: seq<Unit>)
    returns (r: string, shifted': bool, bits': nat, u': nat, ghost before': seq<Unit>, ghost run': seq<Unit>)
    requires Boundary(before, run) && shifted == (run != []) && result == Written(before, run) && Holding(u, bits, run)
    ensures before' + run' == before + run + [ch] && Boundary(before', run') && shifted' == (run' != [])
    ensures Holding(u', bits', run') && r == Written(before', run')
  {
    if Direct(ch) {
      r, before' := EncodeDirect(result, ch, shifted, bits, u, before, run);
      shifted', bits', u', run' := false, 0, u, [];
      assert before' + run' == before';
    } else {
      r, u', bits' := EncodeShifted(result, ch, shifted, bits, u, before, run);
      shifted', before', run' := true, before, run + [ch];
      assert before + (run + [ch]) == before + run + [ch];
    }
  }

  method EncodeDirect(result: string, ch: Unit, shifted: bool, bits: nat, u: nat, ghost before: seq<Unit>, ghost run: seq<Unit>)
    returns (r: string, ghost after: seq<Unit>)
    requires Direct(ch) && Boundary(before, run) && shifted == (run != []) && result == Written(before, run)
    requires Holding(u, bits, run)
    ensures after == before + run + [ch] && r == Written(after, []) && Boundary(after, [])
  {
    r := EncodeEnd(result, shifted, bits, u, before, run);
    WrittenDirect(before + run, ch);
    if ch == 0x26 {
      r := r + "&-";
    } else {
      r := r + [ch as char];
    }
    after := before + run + [ch];
  }

  method EncodeShifted(result: string, ch: Unit, shifted: bool, bits: nat, u: nat, ghost before: seq<Unit>, ghost run: seq<Unit>)
    returns (r: string, u': nat, left: nat)
    requires !Direct(ch) && shifted == (run != []) && result == Written(before, run)
    requires Holding(u, bits, run)
    ensures r == Written(before, run + [ch])
    ensures Holding(u', left, run + [ch])
  {
    Accumulates(run, u, ch);
    WrittenMore(before, run, ch);
    u' := (u * 65536 + ch) % WORD;
    r := if shifted then result else result + "&";
    assert r == Written(before, run) + (if run == [] then "&" else "");
    r, left := EmitDigits(r, u', bits + 16);
  }

  // ---------------------------------------------------------------- the decoder

  function Prepend(u: Unit, r: Option<seq<Unit>>): Option<seq<Unit>> {
    if r.Some? then Some([u] + r.value) else None
  }

  /** What the decoder makes of the rest of a text; `bits` and `v` are its accumulator. */
  function Units(text: string, shifted: bool, bits: nat, v: nat): Option<seq<Unit>>
    requires bits < 16
    decreases |text|
  {
    if text == "" then Some([])
    else
      var c, rest := text[0], text[1..];
      if shifted then
        if c == '-' then Units(rest, false, 0, 0)
        else
          match Rank(c)
          case None => None
          case Some(d) =>
            var v' := (v * 64 + d) % WORD;
            if bits + 6 >= 16 then Prepend(v' / Pow2(bits + 6 - 16) % 0x10000, Units(rest, true, bits + 6 - 16, v'))
            else Units(rest, true, bits + 6, v')
      else if c == '&' then
        if rest == "" then Some([0x26])
        else if rest[0] == '-' then Prepend(0x26, Units(rest[1..], false, bits, v))
        else Units(rest, true, bits, v)
      else Prepend(c as int % 0x10000, Units(rest, false, bits, v))
  }

  /** crates/imap-proto/src/utf7.rs, `utf7_decode`. */
  function Decode(text: string): Option<string> {
    match Units(text, false, 0, 0)
    case None => None
    case Some(units) => FromUtf16(units)
  }

  /** The same loop, as the source runs it. */
  method DecodeLoop(text: string) returns (r: Option<string>)
    ensures r == Decode(text)
  {
    var bytes: seq<Unit> := [];
    var bits, v, shifted, i := 0, 0, false, 0;
    ghost var all := Units(text, false, 0, 0);
    assert text[0..] == text && (all.Some? ==> [] + all.value == all.value);
    while i < |text|
      invariant 0 <= i <= |text| && 0 <= bits < 16 && 0 <= v
      invariant all == After(bytes, Units(text[i..], shifted, bits, v))
    {
      var ch := text[i];
      assert text[i..][1..] == text[i + 1..];
      assert i + 1 < |text| ==> text[i + 1..][0] == text[i + 1] && text[i + 1..][1..] == text[i + 2..];
      ghost var rest := text[i + 1..];
      i := i + 1;
      if shifted {
        if ch == '-' {
          shifted, bits, v := false, 0, 0;
        } else {
          var rank := Rank(ch);
          if rank.None? {
            return None;
          }
          v := (v * 64 + rank.value) % WORD;
          bits := bits + 6;
          if bits >= 16 {
            AfterPrepend(bytes, v / Pow2(bits - 16) % 0x10000, Units(rest, true, bits - 16, v));
            bytes := bytes + [v / Pow2(bits - 16) % 0x10000];
            bits := bits - 16;
          }
        }
      } else if ch == '&' {
        if i < |text| && text[i] == '-' {
          AfterPrepend(bytes, 0x26, Units(text[i + 1..], false, bits, v));
          bytes := bytes + [0x26];
          i := i + 1;
        } else if i < |text| {
          shifted := true;
        } else {
          ghost var amp: seq<Unit> := [0x26];
          assert rest == "" && amp + [] == amp;
          AfterPrepend(bytes, 0x26, Some([]));
          bytes := bytes + [0x26];
        }
      } else {
        AfterPrepend(bytes, ch as int % 0x10000, Units(rest, false, bits, v));
        bytes := bytes + [ch as int % 0x10000];
      }
    }
    assert bytes + [] == bytes;
    return FromUtf16(bytes);
  }

  ghost function After(bytes: seq<Unit>, r: Option<seq<Unit>>): Option<seq<Unit>> {
    if r.Some? then Some(bytes + r.value) else None
  }

  lemma {:induction false} AfterPrepend(bytes: seq<Unit>, u: Unit, r: Option<seq<Unit>>)
    ensures After(bytes, Prepend(u, r)) == After(bytes + [u], r)
  {
    if r.Some? {
      assert bytes + ([u] + r.value) == (bytes + [u]) + r.value;
    }
  }

  // ---------------------------------------------------------------- decoding what was encoded

  /** A digit pushed into the accumulator, seen in its low bits; `m` is the modulus of the bits before. */
  lemma {:induction false} PushDigit(v: nat, m: nat, t: nat, d: nat)
    requires m > 0 && WORD == 64 * m * t && d < 64
    ensures (v * 64 + d) % WORD % (64 * m) == v % m * 64 + d
  {
    var k, p := v / m, v % m;
    var x := v * 64 + d;
    var q := x / WORD;
    assert x == (64 * m) * k + (p * 64 + d);
    assert x % WORD == (k - q * t) * (64 * m) + (p * 64 + d);
    DivMod(x % WORD, 64 * m, k - q * t, p * 64 + d);
  }

  /** The sixteen bits above the low `k`. */
  lemma {:induction false} SixteenBits(w: nat, k: nat, y: nat)
    requires k > 0 && w % (65536 * k) == y
    ensures w / k % 65536 == y / k && w % k == y % k
  {
    var h := w / (65536 * k);
    assert w == h * (65536 * k) + y;
    DivMod(w, k, h * 65536 + y / k, y % k);
    assert y / k < 65536 by {
      DivLess(y, k);
    }
    DivMod(h * 65536 + y / k, 65536, h, y / k);
  }

  lemma {:induction false} DivLess(y: nat, k: nat)
    requires k > 0 && y < 65536 * k
    ensures y / k < 65536
  {
    Multiples(y / k - 65535, k);
    assert y == y / k * k + y % k;
  }

  lemma {:induction false} DigitReads(d: nat, rest: string, bits: nat, v: nat)
    requires d < 64 && bits < 16
    ensures
      var v' := (v * 64 + d) % WORD;
      Units([DigitChar(d)] + rest, true, bits, v) ==
        if bits + 6 >= 16 then Prepend(v' / Pow2(bits + 6 - 16) % 0x10000, Units(rest, true, bits + 6 - 16, v'))
        else Units(rest, true, bits + 6, v')
  {
    RankOfDigit(d);
    assert ([DigitChar(d)] + rest)[1..] == rest;
  }

  /** The first two digits of a unit. */
  lemma {:induction false} ReadFirst(a: int, rest: string, v: nat) returns (w: nat)
    requires 0 <= a < 65536
    ensures w % 4096 == a / 16
    ensures Units([DigitChar(a / 1024)] + ([DigitChar(a / 16 % 64)] + rest), true, 0, v) == Units(rest, true, 12, w)
  {
    var u := (v * 64 + a / 1024) % WORD;
    w := (u * 64 + a / 16 % 64) % WORD;
    DigitReads(a / 1024, [DigitChar(a / 16 % 64)] + rest, 0, v);
    DigitReads(a / 16 % 64, rest, 6, u);
    PushDigit(v, 1, 67108864, a / 1024);
    PushDigit(u, 64, 1048576, a / 16 % 64);
    Quarter(a);
  }

  lemma {:induction false} Quarter(a: int)
    requires 0 <= a
    ensures a / 1024 * 64 + a / 16 % 64 == a / 16
  {
    DivMod(a / 16, 64, a / 1024, a / 16 % 64);
    DivMod(a, 1024, a / 16 / 64, a / 16 % 64 * 16 + a % 16);
  }

  /** The third digit ends the unit and starts the next one with two bits. */
  lemma {:induction false} ReadThird(a: Unit, hi: nat, rest: string, v: nat) returns (w: nat)
    requires v % 4096 == a as int / 16 && hi < 4
    ensures w % 4 == hi
    ensures Units([DigitChar(a as int % 16 * 4 + hi)] + rest, true, 12, v) == Prepend(a, Units(rest, true, 2, w))
  {
    var d := a as int % 16 * 4 + hi;
    w := (v * 64 + d) % WORD;
    DigitReads(d, rest, 12, v);
    PushDigit(v, 4096, 16384, d);
    assert Pow2(2) == 4;
    SixteenBits(w, 4, a as int / 16 * 64 + d);
    DivMod(a as int / 16 * 64 + d, 4, a, hi);
  }

  /** The fourth and fifth digits. */
  lemma {:induction false} ReadFourth(b: int, rest: string, v: nat) returns (w: nat)
    requires 0 <= b < 65536 && v % 4 == b / 16384
    ensures w % 16384 == b / 4
    ensures Units([DigitChar(b / 256 % 64)] + ([DigitChar(b / 4 % 64)] + rest), true, 2, v) == Units(rest, true, 14, w)
  {
    var u := (v * 64 + b / 256 % 64) % WORD;
    w := (u * 64 + b / 4 % 64) % WORD;
    DigitReads(b / 256 % 64, [DigitChar(b / 4 % 64)] + rest, 2, v);
    DigitReads(b / 4 % 64, rest, 8, u);
    PushDigit(v, 4, 16777216, b / 256 % 64);
    PushDigit(u, 256, 262144, b / 4 % 64);
    DivMod(b, 16384, b / 256 / 64, b / 256 % 64 * 256 + b % 256);
    DivMod(b, 256, b / 4 / 64, b / 4 % 64 * 4 + b % 4);
  }

  /** The sixth digit ends the second unit and starts the third with four bits. */
  lemma {:induction false} ReadSixth(b: Unit, hi: nat, rest: string, v: nat) returns (w: nat)
    requires v % 16384 == b as int / 4 && hi < 16
    ensures w % 16 == hi
    ensures Units([DigitChar(b as int % 4 * 16 + hi)] + rest, true, 14, v) == Prepend(b, Units(rest, true, 4, w))
  {
    var d := b as int % 4 * 16 + hi;
    w := (v * 64 + d) % WORD;
    DigitReads(d, rest, 14, v);
    PushDigit(v, 16384, 4096, d);
    assert Pow2(4) == 16;
    SixteenBits(w, 16, b as int / 4 * 64 + d);
    DivMod(b as int / 4 * 64 + d, 16, b, hi);
  }

  /** The last two digits of three units. */
  lemma {:induction false} ReadLast(c: Unit, rest: string, v: nat) returns (w: nat)
    requires v % 16 == c as int / 4096
    ensures Units([DigitChar(c as int / 64 % 64)] + ([DigitChar(c as int % 64)] + rest), true, 4, v) == Prepend(c, Units(rest, true, 0, w))
  {
    var x := c as int;
    var u := (v * 64 + x / 64 % 64) % WORD;
    w := (u * 64 + x % 64) % WORD;
    DigitReads(x / 64 % 64, [DigitChar(x % 64)] + rest, 4, v);
    DigitReads(x % 64, rest, 10, u);
    PushDigit(v, 16, 4194304, x / 64 % 64);
    PushDigit(u, 1024, 65536, x % 64);
    DivMod(x, 4096, x / 64 / 64, x / 64 % 64 * 64 + x % 64);
    SixteenBits(w, 1, x);
  }

  lemma {:induction false} ReadGroup(a: Unit, b: Unit, c: Unit, rest: string, v: nat) returns (w: nat)
    ensures Units(DigitChars(Group(a, b, c)) + rest, true, 0, v) == Prepend(a, Prepend(b, Prepend(c, Units(rest, true, 0, w))))
  {
    var x, y, z := a as int, b as int, c as int;
    var d := DigitChars(Group(a, b, c));
    var r6 := [d[6]] + ([d[7]] + rest);
    var r5 := [d[5]] + r6;
    var r3 := [d[3]] + ([d[4]] + r5);
    var r2 := [d[2]] + r3;
    assert d + rest == [d[0]] + ([d[1]] + r2);
    var v2 := ReadFirst(x, r2, v);
    var v3 := ReadThird(a, y / 16384, r3, v2);
    var v5 := ReadFourth(y, r5, v3);
    var v6 := ReadSixth(b, z / 4096, r6, v5);
    w := ReadLast(c, rest, v6);
  }

  lemma {:induction false} ReadOne(a: Unit, tail: string, v: nat)
    ensures Units(DigitChars(Pack([a])) + ("-" + tail), true, 0, v) == Prepend(a, Units(tail, false, 0, 0))
  {
    var rest := "-" + tail;
    var d := DigitChars(Pack([a]));
    assert d + rest == [d[0]] + ([d[1]] + ([d[2]] + rest));
    var v2 := ReadFirst(a, [d[2]] + rest, v);
    var v3 := ReadThird(a, 0, rest, v2);
    assert rest[1..] == tail;
  }

  lemma {:induction false} ReadTwo(a: Unit, b: Unit, tail: string, v: nat)
    ensures Units(DigitChars(Pack([a, b])) + ("-" + tail), true, 0, v) == Prepend(a, Prepend(b, Units(tail, false, 0, 0)))
  {
    var rest := "-" + tail;
    var d := DigitChars(Pack([a, b]));
    var r5 := [d[5]] + rest;
    var r3 := [d[3]] + ([d[4]] + r5);
    assert d + rest == [d[0]] + ([d[1]] + ([d[2]] + r3));
    var v2 := ReadFirst(a, [d[2]] + r3, v);
    var v3 := ReadThird(a, b as int / 16384, r3, v2);
    var v5 := ReadFourth(b, r5, v3);
    var v6 := ReadSixth(b, 0, rest, v5);
    assert rest[1..] == tail;
  }

  /** A whole shift reads back as its run. */
  lemma {:induction false} ReadRun(run: seq<Unit>, tail: string, v: nat)
    ensures Units(DigitChars(Pack(run)) + ("-" + tail), true, 0, v) == After(run, Units(tail, false, 0, 0))
    decreases |run|
  {
    var rest := "-" + tail;
    if |run| == 0 {
      assert DigitChars(Pack(run)) + rest == rest && rest[1..] == tail;
      AfterNothing(Units(tail, false, 0, 0));
    } else if |run| == 1 {
      assert run == [run[0]];
      ReadOne(run[0], tail, v);
    } else if |run| == 2 {
      assert run == [run[0], run[1]];
      ReadTwo(run[0], run[1], tail, v);
      AfterTwo(run, Units(tail, false, 0, 0));
    } else {
      var later := DigitChars(Pack(run[3..])) + rest;
      DigitCharsAppend(Group(run[0], run[1], run[2]), Pack(run[3..]));
      Assoc(DigitChars(Group(run[0], run[1], run[2])), DigitChars(Pack(run[3..])), rest);
      var w := ReadGroup(run[0], run[1], run[2], later, v);
      ReadRun(run[3..], tail, w);
      AfterThree(run, Units(tail, false, 0, 0));
    }
  }

  lemma {:induction false} AfterNothing(r: Option<seq<Unit>>)
    ensures After([], r) == r
  {
    assert r.Some? ==> [] + r.value == r.value;
  }

  lemma {:induction false} AfterTwo(run: seq<Unit>, r: Option<seq<Unit>>)
    requires |run| == 2
    ensures Prepend(run[0], Prepend(run[1], r)) == After(run, r)
  {
    assert r.Some? ==> [run[0]] + ([run[1]] + r.value) == run + r.value;
  }

  lemma {:induction false} AfterThree(run: seq<Unit>, r: Option<seq<Unit>>)
    requires |run| >= 3
    ensures Prepend(run[0], Prepend(run[1], Prepend(run[2], After(run[3..], r)))) == After(run, r)
  {
    assert r.Some? ==> [run[0]] + ([run[1]] + ([run[2]] + (run[3..] + r.value))) == run + r.value;
  }

  lemma {:induction false} ReadDirect(u: Unit, tail: string)
    requires Direct(u)
    ensures Units(DirectChars(u) + tail, false, 0, 0) == Prepend(u, Units(tail, false, 0, 0))
  {
    var text := DirectChars(u) + tail;
    if u == 0x26 {
      assert text[1..] == "-" + tail && text[1..][1..] == tail;
    } else {
      assert text[1..] == tail;
    }
  }

  lemma {:induction false} ReadShifted(run: seq<Unit>, tail: string)
    requires run != []
    ensures Units(Shifted(run) + tail, false, 0, 0) == After(run, Units(tail, false, 0, 0))
  {
    var inner := DigitChars(Pack(run)) + ("-" + tail);
    assert Shifted(run) + tail == ['&'] + inner && (['&'] + inner)[1..] == inner;
    assert inner[0] == DigitChar(Pack(run)[0]);
    RankOfDigit(Pack(run)[0]);
    ReadRun(run, tail, 0);
  }

  /** The decoder undoes the encoding of any units. */
  lemma {:induction false} UnitsRoundTrip(units: seq<Unit>)
    ensures Units(Canonical(units), false, 0, 0) == Some(units)
    decreases |units|
  {
    if units == [] {
    } else if Direct(units[0]) {
      UnitsRoundTrip(units[1..]);
      DirectRoundTrip(units);
    } else {
      UnitsRoundTrip(units[RunLength(units)..]);
      ShiftedRoundTrip(units);
    }
  }

  lemma {:induction false} DirectRoundTrip(units: seq<Unit>)
    requires units != [] && Direct(units[0]) && Units(Canonical(units[1..]), false, 0, 0) == Some(units[1..])
    ensures Units(Canonical(units), false, 0, 0) == Some(units)
  {
    ReadDirect(units[0], Canonical(units[1..]));
    assert units == [units[0]] + units[1..];
  }

  lemma {:induction false} ShiftedRoundTrip(units: seq<Unit>)
    requires units != [] && !Direct(units[0])
    requires Units(Canonical(units[RunLength(units)..]), false, 0, 0) == Some(units[RunLength(units)..])
    ensures Units(Canonical(units), false, 0, 0) == Some(units)
  {
    var n := RunLength(units);
    RunComesFirst(units);
    ReadShifted(units[..n], Canonical(units[n..]));
    RunJoins(units, n);
  }

  lemma {:induction false} RunComesFirst(units: seq<Unit>)
    requires units != [] && !Direct(units[0])
    ensures Canonical(units) == Shifted(units[..RunLength(units)]) + Canonical(units[RunLength(units)..])
  {}

  lemma {:induction false} RunJoins(units: seq<Unit>, n: nat)
    requires n <= |units|
    ensures After(units[..n], Some(units[n..])) == Some(units)
  {
    assert units == units[..n] + units[n..];
  }

  /** Round trip: every string decodes from its encoding. */
  lemma {:induction false} RoundTrip(s: string)
    ensures Decode(Canonical(ToUtf16(s))) == Some(s)
  {
    UnitsRoundTrip(ToUtf16(s));
    Utf16RoundTrip(s);
  }

  // ---------------------------------------------------------------- text that was never encoded

  predicate Basic(s: string) {
    forall i :: 0 <= i < |s| ==> s[i] as int < 0x10000
  }

  function Truncated(s: string): seq<Unit> {
    if s == "" then [] else [s[0] as int % 0x10000] + Truncated(s[1..])
  }

  lemma {:induction false} UnitsOfPlain(s: string)
    requires '&' !in s
    ensures Units(s, false, 0, 0) == Some(Truncated(s)) && |Truncated(s)| == |s|
  {
    if s != "" {
      UnitsOfPlain(s[1..]);
    }
  }

  lemma {:induction false} PlainUnits(s: string)
    ensures |ToUtf16(s)| >= |s| && (|ToUtf16(s)| == |s| <==> Basic(s))
    ensures Basic(s) ==> ToUtf16(s) == Truncated(s)
  {
    if s != "" {
      PlainUnits(s[1..]);
      assert Basic(s) <==> s[0] as int < 0x10000 && Basic(s[1..]);
    }
  }

  /** Text without `&` decodes to itself exactly when it has no character beyond U+FFFF: outside a shift
      the decoder cuts every character to sixteen bits. */
  lemma {:induction false} PlainText(s: string)
    requires '&' !in s
    ensures Decode(s) == Some(s) <==> Basic(s)
  {
    UnitsOfPlain(s);
    PlainUnits(s);
    Utf16RoundTrip(s);
    if Decode(s) == Some(s) {
      Utf16Unique(Truncated(s), s);
    }
  }

  /** U+1F600 comes back as U+F600. */
  lemma {:induction false} PlainTextIsCut()
    ensures Decode("\U{1F600}") == Some("\U{F600}")
  {
    var s := "\U{1F600}";
    assert s[0] as int % 0x10000 == 0xF600 && s[1..] == "";
    UnitsOfPlain(s);
    assert Truncated(s) == [0xF600];
    assert Truncated(s)[1..] == [] && FromUtf16(Truncated(s)) == Some([0xF600 as char] + "");
    assert [0xF600 as char] + "" == "\U{F600}";
    assert Decode(s) == FromUtf16(Truncated(s));
  }
}
