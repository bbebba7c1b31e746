/**
 JMAP ids: the server prints a 64-bit number in base 32 with a stop bit in place of a length
 (crates/types/src/id.rs), and the console reads it back as a number (console/src/lib/directory.ts).
 64-bit words are written as integers modulo 2^64.
 */
module JmapId {
  import opened Arithmetic
  import opened Basics

  const WORD: nat := 0x1_0000_0000_0000_0000
  const STOP_BIT: nat := 0x1000_0000_0000_0000

  function Pow32(k: nat): (r: nat)
    ensures r > 0
  {
    if k == 0 then 1 else 32 * Pow32(k - 1)
  }

  // ---------------------------------------------------------------- digits

  /** The character of a digit, in the alphabet `abcdefghijklmnopqrstuvwxyz792013`. */
  function DigitChar(d: nat): char
    requires d < 32
  {
    if d < 26 then 'a' + d as char
    else match d
      case 26 => '7'
      case 27 => '9'
      case 28 => '2'
      case 29 => '0'
      case 30 => '1'
      case _ => '3'
  }

  /** The console's digit of a character: its place in the alphabet. */
  function ConsoleDigit(c: char): (r: Option<nat>)
    ensures r.Some? ==> r.value < 32
  {
    if 'a' <= c <= 'z' then Some((c - 'a') as nat)
    else match c
      case '7' => Some(26)
      case '9' => Some(27)
      case '2' => Some(28)
      case '0' => Some(29)
      case '1' => Some(30)
      case '3' => Some(31)
      case _ => None
  }

  /** The server's digit of a character, from its inverse table: `K` to `Z` count as lower case. */
  function ServerDigit(c: char): (r: Option<nat>)
    ensures r.Some? ==> r.value < 32
  {
    if 'K' <= c <= 'Z' then Some((c - 'A') as nat) else ConsoleDigit(c)
  }

  lemma {:induction false} DigitsAgree(d: nat)
    requires d < 32
    ensures ServerDigit(DigitChar(d)) == Some(d) && ConsoleDigit(DigitChar(d)) == Some(d)
  {}

  predicate ServerText(s: string) {
    forall i :: 0 <= i < |s| ==> ServerDigit(s[i]).Some?
  }

  predicate ConsoleText(s: string) {
    forall i :: 0 <= i < |s| ==> ConsoleDigit(s[i]).Some?
  }

  /** The number a text writes in base 32, the most significant digit first. */
  function Value(s: string): nat
    requires ServerText(s)
  {
    if s == "" then 0 else Value(s[..|s| - 1]) * 32 + ServerDigit(s[|s| - 1]).value
  }

  /** The numeral of a number: no leading zero digit, except for zero itself. */
  function Numeral(n: nat): (r: string)
    ensures r != ""
  {
    if n < 32 then [DigitChar(n)] else Numeral(n / 32) + [DigitChar(n % 32)]
  }

  lemma {:induction false} ValueSnoc(s: string, c: char)
    requires ServerText(s) && ServerDigit(c).Some?
    ensures ServerText(s + [c]) && Value(s + [c]) == Value(s) * 32 + ServerDigit(c).value
  {
    assert (s + [c])[..|s|] == s;
  }

  lemma {:induction false} NumeralValue(n: nat)
    ensures ConsoleText(Numeral(n)) && ServerText(Numeral(n)) && Value(Numeral(n)) == n
  {
    DigitsAgree(n % 32);
    if n < 32 {
      ValueSnoc("", DigitChar(n));
      assert "" + [DigitChar(n)] == [DigitChar(n)];
    } else {
      NumeralValue(n / 32);
      ValueSnoc(Numeral(n / 32), DigitChar(n % 32));
    }
  }

  lemma {:induction false} NumeralLength(n: nat, k: nat)
    requires n < Pow32(k) && k > 0
    ensures |Numeral(n)| <= k
    ensures |Numeral(n)| > 1 ==> Numeral(n)[0] != 'a'
    decreases k
  {
    if n >= 32 {
      NumeralLength(n / 32, k - 1);
    }
  }

  /** At most thirteen digits, and no leading zero digit. */
  lemma {:induction false} NumeralCanonical(n: nat)
    requires n < WORD
    ensures |Numeral(n)| <= 13 && (|Numeral(n)| > 1 ==> Numeral(n)[0] != 'a')
  {
    assert Pow32(6) == 1073741824;
    assert Pow32(12) == STOP_BIT;
    NumeralLength(n, 13);
  }

  // ---------------------------------------------------------------- reading

  /** The id the server reads in a text. */
  function ServerReads(s: string): Option<nat> {
    if ServerText(s) then Some(Value(s) % WORD) else None
  }

  /** The number the console reads in a text. */
  function ConsoleReads(s: string): Option<nat> {
    if s != "" && ConsoleText(s) && ServerText(s) && Value(s) < SAFE then Some(Value(s)) else None
  }

  /** Both read the same exactly in texts that are no numeral to the server, and in those the console reads. */
  lemma {:induction false} ReadersAgree(s: string)
    ensures ServerReads(s) == ConsoleReads(s) <==> !ServerText(s) || (s != "" && ConsoleText(s) && Value(s) < SAFE)
  {}

  /** An upper-case letter, and no text at all: digits to the server only. */
  lemma {:induction false} ServerOnly()
    ensures ServerReads("K") == Some(10) && ConsoleReads("K") == None
    ensures ServerReads("") == Some(0) && ConsoleReads("") == None
  {
    assert "K"[..0] == "";
    assert Value("K") == 10;
    assert ConsoleDigit("K"[0]) == None;
  }

  /** 2^53 is the first number the console gives up on. */
  lemma {:induction false} TooLargeForTheConsole(n: nat)
    requires SAFE <= n < WORD
    ensures ServerReads(Numeral(n)) == Some(n) && ConsoleReads(Numeral(n)) == None
  {
    NumeralValue(n);
  }

  /** Past 64 bits the server reads another number. */
  lemma {:induction false} ServerWraps(n: nat)
    requires n >= WORD
    ensures ServerReads(Numeral(n)) == Some(n % WORD) && n % WORD != n && ConsoleReads(Numeral(n)) == None
  {
    NumeralValue(n);
  }

  /** `Id::from_str`: shifts drop what does not fit in 64 bits. */
  method FromStr(s: string) returns (r: Option<nat>)
    ensures r == ServerReads(s)
  {
    var id := 0;
    assert s[..0] == "";
    for i := 0 to |s|
      invariant 0 <= id && ServerText(s[..i]) && id == Value(s[..i]) % WORD
    {
      assert s[..i + 1] == s[..i] + [s[i]];
      match ServerDigit(s[i]) {
        case None =>
          return None;
        case Some(d) =>
          ValueSnoc(s[..i], s[i]);
          ShiftIn(Value(s[..i]), d);
          id := id * 32 % WORD + d;
      }
    }
    assert s[..|s|] == s;
    return Some(id);
  }

  /** `(id << 5) | d` on 64-bit words. */
  lemma {:induction false} ShiftIn(v: nat, d: nat)
    requires d < 32
    ensures v % WORD * 32 % WORD + d == (v * 32 + d) % WORD
  {
    var id := v % WORD;
    var high := id * 32 / WORD;
    var low := id * 32 % WORD;
    assert low % 32 == 0;
    assert low + d < WORD;
    DivMod(v * 32 + d, WORD, v / WORD * 32 + high, low + d);
  }

  lemma {:induction false} ValueGrows(s: string, i: nat)
    requires i <= |s| && ServerText(s)
    ensures ServerText(s[..i]) && Value(s[..i]) <= Value(s)
    decreases |s|
  {
    if i == |s| {
      assert s[..i] == s;
    } else {
      var front := s[..|s| - 1];
      ValueGrows(front, i);
      assert front[..i] == s[..i];
    }
  }

  lemma {:induction false} ConsoleIsServer(s: string)
    requires ConsoleText(s)
    ensures ServerText(s)
  {}

  /** `decodeServerId`: a number that a double holds exactly, or null. */
  method DecodeServerId(s: string) returns (r: Option<nat>)
    ensures r == ConsoleReads(s)
  {
    if s == "" {
      return None;
    }
    var value := 0;
    assert s[..0] == "";
    for i := 0 to |s|
      invariant ConsoleText(s[..i]) && ServerText(s[..i]) && value == Value(s[..i]) < SAFE
    {
      assert s[..i + 1] == s[..i] + [s[i]];
      var digit := ConsoleDigit(s[i]);
      if digit.None? {
        return None;
      }
      ValueSnoc(s[..i], s[i]);
      value := value * 32 + digit.value;
      if value >= SAFE {
        if ConsoleText(s) {
          ConsoleIsServer(s);
          ValueGrows(s, i + 1);
        }
        return None;
      }
    }
    assert s[..|s|] == s;
    return Some(value);
  }

  // ---------------------------------------------------------------- printing

  /** `m` in exactly `k` digits. */
  function Padded(k: nat, m: nat): string
    requires m < Pow32(k)
  {
    if k == 0 then ""
    else
      TopDigit(k, m);
      [DigitChar(m / Pow32(k - 1))] + Padded(k - 1, m % Pow32(k - 1))
  }

  lemma {:induction false} TopDigit(k: nat, m: nat)
    requires k > 0 && m < Pow32(k)
    ensures m / Pow32(k - 1) < 32
  {
    var p := Pow32(k - 1);
    assert m == m / p * p + m % p;
    Multiples(m / p - 31, p);
  }

  /** Splitting off the last digit instead. */
  lemma {:induction false} PaddedSnoc(k: nat, m: nat)
    requires k > 0 && m < Pow32(k)
    ensures m / 32 < Pow32(k - 1) && Padded(k, m) == Padded(k - 1, m / 32) + [DigitChar(m % 32)]
    decreases k
  {
    if k == 1 {
      assert m / 1 == m && m % 1 == 0 && Padded(0, 0) == "";
    } else {
      var p := Pow32(k - 2);
      TopDigit(k, m);
      PaddedSnoc(k - 1, m % (32 * p));
      LastDigit(m, p);
      TopDigit(k - 1, m / 32);
    }
  }

  lemma {:induction false} LastDigit(m: nat, p: nat)
    requires p > 0
    ensures m % (32 * p) % 32 == m % 32 && m % (32 * p) / 32 == m / 32 % p && m / (32 * p) == m / 32 / p
  {
    var q, r := m / 32, m % 32;
    var a, b := q / p, q % p;
    assert q == a * p + b && m == q * 32 + r;
    assert m == a * (32 * p) + (b * 32 + r);
    Multiples(p - b, 32);
    DivMod(m, 32 * p, a, b * 32 + r);
    DivMod(b * 32 + r, 32, b, r);
  }

  /** A number written in as many digits as it needs is its numeral. */
  lemma {:induction false} PaddedIsNumeral(k: nat, n: nat)
    requires k > 0 && n < Pow32(k) && (k > 1 ==> Pow32(k - 1) <= n)
    ensures Padded(k, n) == Numeral(n)
    decreases k
  {
    PaddedSnoc(k, n);
    if k == 1 {
      assert Padded(0, n / 32) == "";
    } else {
      PaddedIsNumeral(k - 1, n / 32);
    }
  }

  lemma {:induction false} Pow32Plus(a: nat, b: nat)
    ensures Pow32(a + b) == Pow32(a) * Pow32(b)
    decreases b
  {
    if b > 0 {
      Pow32Plus(a, b - 1);
      assert Pow32(a + b) == 32 * Pow32(a + (b - 1));
    }
  }

  lemma {:induction false} Pow32Stop()
    ensures Pow32(12) == STOP_BIT
  {
    assert Pow32(6) == 1073741824;
  }

  /** The word with `k` digits, those of `m`, still to print, and the stop bit under them. */
  ghost predicate Stopped(n: nat, k: nat, m: nat) {
    k <= 12 && m < Pow32(k) && n == (16 * m + 1) * Pow32(12 - k)
  }

  /** The stop bit is reached exactly when no digits are left. */
  lemma {:induction false} StopReached(n: nat, k: nat, m: nat)
    requires Stopped(n, k, m)
    ensures n == STOP_BIT <==> k == 0
  {
    Pow32Stop();
    if k == 0 {
      assert Pow32(0) == 1 && m == 0;
    } else {
      Pow32Plus(k, 12 - k);
      var s := Pow32(12 - k);
      assert Pow32(k) == 32 * Pow32(k - 1);
      if n == STOP_BIT {
        assert (16 * m + 1) * s == Pow32(k) * s;
        Cancel(16 * m + 1, Pow32(k), s);
      }
    }
  }

  lemma {:induction false} Cancel(a: int, b: int, s: int)
    requires s > 0 && a * s == b * s
    ensures a == b
  {
    Multiples(a - b, s);
    assert (a - b) * s == 0;
  }

  lemma {:induction false} SplitDigit(d: nat, p: nat, r: nat, s: nat)
    requires s * p == 0x80_0000_0000_0000
    ensures (16 * (d * p + r) + 1) * s == d * 0x800_0000_0000_0000 + (16 * r + 1) * s
  {
    assert (16 * (d * p + r) + 1) * s == 16 * (d * p) * s + (16 * r + 1) * s;
    assert (d * p) * s == d * (s * p);
  }

  lemma {:induction false} Complement(k: nat)
    requires 0 < k <= 12
    ensures Pow32(12 - k) * Pow32(k - 1) == 0x80_0000_0000_0000
    ensures Pow32(12 - (k - 1)) == 32 * Pow32(12 - k)
  {
    Pow32Stop();
    Pow32Plus(12 - k, k - 1);
    assert Pow32(12) == 32 * Pow32(11);
  }

  /** A word whose top five bits are `d`, shifted left by five. */
  lemma {:induction false} ShiftDigit(n: nat, d: nat, low: nat)
    requires n == d * 0x800_0000_0000_0000 + low && low < 0x800_0000_0000_0000
    ensures n / 0x800_0000_0000_0000 == d && n * 32 % WORD == low * 32
  {
    DivMod(n, 0x800_0000_0000_0000, d, low);
    DivMod(n * 32, WORD, d, low * 32);
  }

  lemma {:induction false} ShiftParts(n: nat, d: nat, r: nat, p: nat, s: nat)
    requires s > 0 && r < p && s * p == 0x80_0000_0000_0000 && n == (16 * (d * p + r) + 1) * s
    ensures n == d * 0x800_0000_0000_0000 + (16 * r + 1) * s && (16 * r + 1) * s < 0x800_0000_0000_0000
  {
    SplitDigit(d, p, r, s);
    LowPart(r, p, s);
  }

  lemma {:induction false} ShiftOut(n: nat, k: nat, m: nat, d: nat, r: nat)
    requires Stopped(n, k, m) && k > 0 && m == d * Pow32(k - 1) + r && r < Pow32(k - 1)
    ensures n / 0x800_0000_0000_0000 == d && Stopped(n * 32 % WORD, k - 1, r)
  {
    var s := Pow32(12 - k);
    Complement(k);
    ShiftParts(n, d, r, Pow32(k - 1), s);
    ShiftDigit(n, d, (16 * r + 1) * s);
    ScaleLow(r, s);
  }

  /** The five bits at the top are the next digit; shifting them out leaves the rest. */
  lemma {:induction false} NextDigit(n: nat, k: nat, m: nat)
    requires Stopped(n, k, m) && k > 0
    ensures n / 0x800_0000_0000_0000 == m / Pow32(k - 1)
    ensures Stopped(n * 32 % WORD, k - 1, m % Pow32(k - 1))
  {
    var d, r := Euclid(m, Pow32(k - 1));
    ShiftOut(n, k, m, d, r);
  }

  lemma {:induction false} ScaleLow(r: nat, s: nat)
    ensures (16 * r + 1) * s * 32 == (16 * r + 1) * (32 * s)
  {}

  lemma {:induction false} LowPart(r: nat, p: nat, s: nat)
    requires r < p && s > 0 && s * p == 0x80_0000_0000_0000
    ensures 0 <= (16 * r + 1) * s < 0x800_0000_0000_0000
  {
    assert (16 * r + 1) * s == 16 * (r * s) + s;
    assert r * s <= (p - 1) * s;
    assert (p - 1) * s == s * p - s;
  }

  /** `u64::leading_zeros`. */
  function BitLength(n: nat): nat {
    if n == 0 then 0 else 1 + BitLength(n / 2)
  }

  lemma {:induction false} BitLengthBounds(n: nat, b: nat)
    requires n > 0
    ensures n < Pow2(b) ==> BitLength(n) <= b
    ensures b > 0 && n >= Pow2(b - 1) ==> BitLength(n) >= b
    decreases b
  {
    if b > 0 && n > 1 {
      BitLengthBounds(n / 2, b - 1);
    }
  }

  lemma {:induction false} Pow2Of5(k: nat)
    ensures Pow2(5 * k) == Pow32(k) && Pow2(5 * k + 4) == 16 * Pow32(k)
    decreases k
  {
    if k > 0 {
      Pow2Of5(k - 1);
      Pow2Four(5 * (k - 1));
      assert Pow2(5 * k) == 2 * Pow2(5 * (k - 1) + 4);
    }
    Pow2Four(5 * k);
  }

  lemma {:induction false} Pow2Four(n: nat)
    ensures Pow2(n + 4) == 16 * Pow2(n)
  {
    assert Pow2(n + 2) == 2 * Pow2(n + 1);
    assert Pow2(n + 4) == 2 * Pow2(n + 3);
  }

  /** How many base-32 digits a number has. */
  lemma {:induction false} DigitCount(n: nat, max: nat) returns (k: nat)
    requires 0 < n < Pow32(max)
    ensures 0 < k <= max && Pow32(k - 1) <= n < Pow32(k)
    decreases max
  {
    if n >= Pow32(max - 1) {
      k := max;
    } else {
      k := DigitCount(n, max - 1);
    }
  }

  /** Leading zero bits are eaten in steps of five: the first digit left is not zero. */
  lemma {:induction false} EatZeros(id: nat, k: nat)
    requires 0 < k <= 12 && Pow32(k - 1) <= id < Pow32(k)
    ensures
      var n := id * 16 + 1;
      (64 - BitLength(n)) / 5 == 12 - k
  {
    var n := id * 16 + 1;
    Pow2Of5(k);
    Pow2Of5(k - 1);
    assert 5 * k - 1 == 5 * (k - 1) + 4;
    BitLengthBounds(n, 5 * k + 4);
    BitLengthBounds(n, 5 * k);
  }

  lemma {:induction false} ShiftLeft(id: nat, k: nat)
    requires 0 < k <= 12 && id < Pow32(k)
    ensures (16 * id + 1) * Pow32(12 - k) < WORD
  {
    var s := Pow32(12 - k);
    Pow32Stop();
    Pow32Plus(12 - k, k);
    ShiftFits(id, Pow32(k), s);
  }

  lemma {:induction false} ShiftFits(id: nat, p: nat, s: nat)
    requires id < p && s > 0 && s * p == STOP_BIT
    ensures (16 * id + 1) * s < WORD
  {
    assert (16 * id + 1) * s == 16 * (id * s) + s;
    assert id * s <= (p - 1) * s;
    assert (p - 1) * s == s * p - s;
  }

  /** The loop of `as_string`. */
  method PrintDigits(prefix: string, start: nat, ghost k0: nat, ghost m0: nat) returns (buf: string)
    requires Stopped(start, k0, m0)
    ensures buf == prefix + Padded(k0, m0)
  {
    buf := prefix;
    var n: nat := start;
    ghost var k: nat, m: nat := k0, m0;
    StopReached(n, k, m);
    while n != STOP_BIT
      invariant Stopped(n, k, m) && (n == STOP_BIT <==> k == 0)
      invariant buf + Padded(k, m) == prefix + Padded(k0, m0)
      decreases k
    {
      NextDigit(n, k, m);
      TopDigit(k, m);
      var d := n / 0x800_0000_0000_0000;
      assert Padded(k, m) == [DigitChar(d)] + Padded(k - 1, m % Pow32(k - 1));
      buf := buf + [DigitChar(d)];
      n := n * 32 % WORD;
      k, m := k - 1, m % Pow32(k - 1);
      StopReached(n, k, m);
    }
  }

  /** The word of an id with its top four bits clear, once leading zeros are eaten. */
  function EatenWord(id: nat): nat
    requires 0 < id < STOP_BIT
  {
    ShortWord(id);
    var n := id * 16 + 1;
    n * Pow32((64 - BitLength(n)) / 5) % WORD
  }

  lemma {:induction false} ShortWord(id: nat)
    requires 0 < id < STOP_BIT
    ensures BitLength(id * 16 + 1) <= 64 && id * 16 % WORD == id * 16
  {
    Pow2Four(60);
    Pow2Of5(12);
    Pow32Stop();
    BitLengthBounds(id * 16 + 1, 64);
    DivMod(id * 16, WORD, 0, id * 16);
  }

  lemma {:induction false} LowId(id: nat) returns (k: nat)
    requires 0 < id < STOP_BIT
    ensures Stopped(EatenWord(id), k, id) && Padded(k, id) == Numeral(id)
  {
    Pow32Stop();
    k := DigitCount(id, 12);
    EatenIs(id, k);
    PaddedIsNumeral(k, id);
  }

  lemma {:induction false} EatenIs(id: nat, k: nat)
    requires 0 < id < STOP_BIT && 0 < k <= 12 && Pow32(k - 1) <= id < Pow32(k)
    ensures EatenWord(id) == (16 * id + 1) * Pow32(12 - k)
  {
    EatZeros(id, k);
    ShiftLeft(id, k);
    var shifted := (16 * id + 1) * Pow32(12 - k);
    DivMod(shifted, WORD, 0, shifted);
  }

  /** `Id::as_string`: every 64-bit id prints as its numeral. */
  method AsString(id: nat) returns (s: string)
    requires id < WORD
    ensures s == Numeral(id)
  {
    if id == 0 {
      return "a";
    }
    var i := id / STOP_BIT;
    var n := id * 16 % WORD + 1;
    if i == 0 {
      ShortWord(id);
      ghost var k := LowId(id);
      n := n * Pow32((64 - BitLength(n)) / 5) % WORD;
      s := PrintDigits("", n, k, id);
    } else {
      HighDigit(id);
      s := PrintDigits([DigitChar(i)], n, 12, id % STOP_BIT);
    }
  }

  /** With the top four bits set, they are the first of thirteen digits. */
  lemma {:induction false} HighDigit(id: nat)
    requires STOP_BIT <= id < WORD
    ensures id / STOP_BIT < 16 && Stopped(id * 16 % WORD + 1, 12, id % STOP_BIT)
    ensures [DigitChar(id / STOP_BIT)] + Padded(12, id % STOP_BIT) == Numeral(id)
  {
    Pow32Stop();
    var d, r := id / STOP_BIT, id % STOP_BIT;
    assert id == d * STOP_BIT + r;
    DivMod(id * 16, WORD, d, r * 16);
    assert Pow32(12 - 12) == 1;
    assert Pow32(13) == 32 * Pow32(12);
    PaddedIsNumeral(13, id);
  }

  /** The server reads back every id it prints; the console reads the same number below 2^53, and
      nothing from there on. */
  lemma {:induction false} IdsRoundTrip(id: nat)
    requires id < WORD
    ensures
      var s := Numeral(id);
      && s != "" && ServerText(s) && ConsoleText(s) && Value(s) % WORD == id
      && (Value(s) < SAFE <==> id < SAFE)
  {
    NumeralValue(id);
  }

  /** Printing and reading back, by the server and by the console. */
  method PrintAndRead(id: nat) returns (s: string, server: Option<nat>, console: Option<nat>)
    requires id < WORD
    ensures |s| <= 13 && (|s| > 1 ==> s[0] != 'a')
    ensures server == Some(id)
    ensures console == if id < SAFE then Some(id) else None
  {
    s := AsString(id);
    NumeralCanonical(id);
    IdsRoundTrip(id);
    NumeralValue(id);
    server := FromStr(s);
    console := DecodeServerId(s);
  }

  /** Only the numeral writes a number without a leading zero digit. */
  lemma {:induction false} NumeralUnique(s: string)
    requires s != "" && ConsoleText(s) && ServerText(s) && (|s| > 1 ==> ConsoleDigit(s[0]) != Some(0))
    ensures s == Numeral(Value(s))
    decreases |s|
  {
    var front, last := s[..|s| - 1], s[|s| - 1];
    assert s == front + [last];
    var d := ConsoleDigit(last).value;
    assert DigitChar(d) == last;
    if |s| == 1 {
      assert front == "" && Value(front) == 0;
    } else {
      NumeralUnique(front);
      PositiveValue(front);
      DivMod(Value(s), 32, Value(front), d);
    }
  }

  lemma {:induction false} PositiveValue(s: string)
    requires s != "" && ServerText(s) && ServerDigit(s[0]) != Some(0)
    ensures Value(s) > 0
  {
    if |s| > 1 {
      PositiveValue(s[..|s| - 1]);
    } else {
      assert s[..0] == "";
    }
  }
}
