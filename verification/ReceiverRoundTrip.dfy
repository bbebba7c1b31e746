/** Requests written to the wire come back from the receiver as they were. */
module ReceiverRoundTrip {
  import opened Basics
  import opened Receiver

  // ---------------------------------------------------------------- writing

  /** An argument on the wire. */
  datatype Arg =
    | Lit(data: Bytes, sync: bool, binary: bool)
    | Quoted(data: Bytes)
    | Atom(data: Bytes)
    | Mark(token: Token)

  /** A request on the wire; `name` in any case, `uid` with the UID prefix. */
  datatype Line = Line(tag: Bytes, uid: bool, name: Bytes, args: seq<Arg>)

  function Digits(n: nat): (r: Bytes)
    ensures r != [] && AllDigits(r)
    decreases n
  {
    if n < 10 then [48 + n] else Digits(n / 10) + [48 + n % 10]
  }

  function EscapeByte(b: Byte): Bytes {
    if b == QUOTE || b == BACKSLASH then [BACKSLASH, b] else [b]
  }

  function EscapeBytes(data: Bytes): Bytes {
    if data == [] then [] else EscapeByte(data[0]) + EscapeBytes(data[1..])
  }

  function MarkByte(token: Token): Byte {
    match token
    case ParenthesisOpen => PAREN_OPEN
    case ParenthesisClose => PAREN_CLOSE
    case BracketOpen => BRACKET_OPEN
    case BracketClose => BRACKET_CLOSE
    case Lt => LESS
    case Gt => GREATER
    case Dot => DOT
    case _ => SPACE
  }

  /** The start of a literal; `~` announces a binary one. */
  function Opening(binary: bool): Bytes {
    if binary then [TILDE] + [BRACE_OPEN] else [BRACE_OPEN]
  }

  /** `{n}`, or `{n+}` for a literal that is not waited with. */
  function Announce(n: nat, sync: bool, binary: bool): Bytes {
    Opening(binary) + (Digits(n) + ((if sync then [] else [PLUS]) + [BRACE_CLOSE]))
  }

  function WriteArg(a: Arg): Bytes {
    match a
    case Lit(data, sync, binary) => Announce(|data|, sync, binary) + ([CR, LF] + data)
    case Quoted(data) => [QUOTE] + (EscapeBytes(data) + [QUOTE])
    case Atom(data) => data
    case Mark(token) => [MarkByte(token)]
  }

  /** The byte before the rest of the line: a space before an argument, the CR of the line end after the last. */
  function Sep(args: seq<Arg>): Byte {
    if args == [] then CR else SPACE
  }

  /** The arguments, space-separated, and the line end. */
  function Tail(args: seq<Arg>): Bytes {
    if args == [] then [LF] else (WriteArg(args[0]) + [Sep(args[1..])]) + Tail(args[1..])
  }

  function WriteHead(l: Line): Bytes {
    (if l.tag == [] then [] else l.tag + [SPACE]) + ((if l.uid then UID + [SPACE] else []) + (l.name + [Sep(l.args)]))
  }

  function Write(l: Line): Bytes {
    WriteHead(l) + Tail(l.args)
  }

  // ---------------------------------------------------------------- what is expected back

  function TokenOf(a: Arg): Token {
    match a
    case Mark(token) => token
    case _ => if a.data == [] then Nil else Argument(a.data)
  }

  /** What an argument counts towards the limit; an empty literal counts one. */
  function Cost(a: Arg): nat {
    match a
    case Mark(_) => 1
    case Lit(data, _, _) => if data == [] then 1 else |data|
    case _ => |a.data|
  }

  function CostAll(args: seq<Arg>): nat {
    if args == [] then 0 else Cost(args[0]) + CostAll(args[1..])
  }

  function TokensOf(args: seq<Arg>): seq<Token> {
    if args == [] then [] else [TokenOf(args[0])] + TokensOf(args[1..])
  }

  /** The client is asked to go on once for each synchronizing literal. */
  function Prompts<C>(a: Arg): seq<Event<C>> {
    if a.Lit? && a.sync then [Prompt(|a.data|)] else []
  }

  function PromptsAll<C>(args: seq<Arg>): seq<Event<C>> {
    if args == [] then [] else Prompts(args[0]) + PromptsAll(args[1..])
  }

  // ---------------------------------------------------------------- what may be written

  predicate AtomByte(b: Byte, brackets: bool) {
    !IsSpace(b) && b != QUOTE && b != BRACE_OPEN && Punctuation(b, brackets).None?
  }

  predicate LegalArg(a: Arg, brackets: bool) {
    match a
    case Lit(data, _, _) => |data| <= U32_MAX
    case Quoted(data) => |data| <= ARGUMENT_MAX && LF !in data
    case Atom(data) => 0 < |data| <= ARGUMENT_MAX && forall b :: b in data ==> AtomByte(b, brackets)
    case Mark(token) => Punctuation(MarkByte(token), brackets) == Some(token)
  }

  predicate LegalTag<C>(g: Config<C>, tag: Bytes) {
    if g.startState.Start? then
      0 < |tag| <= TAG_MAX && !IsSpace(tag[0]) && g.utf8(tag) && forall b :: b in tag ==> TagByte(b)
    else g.startState == InCommand(false) && tag == []
  }

  predicate LegalName(name: Bytes) {
    0 < |name| <= COMMAND_MAX && UpperAll(name) != UID && forall b :: b in name ==> IsAlnum(b)
  }

  predicate Legal<C>(g: Config<C>, l: Line) {
    && LegalTag(g, l.tag) && LegalName(l.name)
    && g.parse(UpperAll(l.name), l.uid).Some?
    && (forall a :: a in l.args ==> LegalArg(a, g.brackets(g.parse(UpperAll(l.name), l.uid).value)))
    && CostAll(l.args) <= g.maxSize
  }

  function RequestOf<C>(g: Config<C>, l: Line): Request<C>
    requires g.parse(UpperAll(l.name), l.uid).Some?
  {
    Request(l.tag, g.parse(UpperAll(l.name), l.uid).value, TokensOf(l.args))
  }

  // ---------------------------------------------------------------- numbers

  lemma {:induction false} DecimalSnoc(digits: Bytes, d: Byte)
    requires AllDigits(digits) && IsDigit(d)
    ensures AllDigits(digits + [d]) && Decimal(digits + [d]) == Decimal(digits) * 10 + (d as int - 48)
  {
    assert (digits + [d])[..|digits|] == digits;
  }

  lemma {:induction false} DigitsRead(n: nat)
    ensures Decimal(Digits(n)) == n
  {
    if n < 10 {
      assert Digits(n) == [] + [48 + n];
      DecimalSnoc([], 48 + n);
    } else {
      DigitsRead(n / 10);
      DecimalSnoc(Digits(n / 10), 48 + n % 10);
    }
  }

  lemma {:induction false} DigitsShort(n: nat, k: nat, bound: nat)
    requires n < bound && k > 0 && IsPow10(k, bound)
    ensures |Digits(n)| <= k
    decreases k
  {
    if n >= 10 {
      DigitsShort(n / 10, k - 1, bound / 10);
    }
  }

  predicate IsPow10(k: nat, bound: nat) {
    if k == 0 then bound == 1 else bound % 10 == 0 && IsPow10(k - 1, bound / 10)
  }

  lemma {:induction false} LengthDigits(n: nat)
    requires n <= U32_MAX
    ensures |Digits(n)| <= DIGITS_MAX
  {
    assert IsPow10(4, 10_000);
    assert IsPow10(8, 100_000_000);
    assert IsPow10(10, 10_000_000_000);
    DigitsShort(n, 10, 10_000_000_000);
  }

  // ---------------------------------------------------------------- feeding

  lemma {:induction false} FeedThen<C>(g: Config<C>, c: Conf<C>, a: Bytes, b: Bytes, c1: Conf<C>, e1: seq<Event<C>>)
    requires Feed(g, c, a) == (c1, e1)
    ensures Feed(g, c, a + b) == (Feed(g, c1, b).0, e1 + Feed(g, c1, b).1)
    ensures e1 == [] ==> Feed(g, c, a + b) == Feed(g, c1, b)
  {
    FeedConcat(g, c, a, b);
    assert e1 == [] ==> e1 + Feed(g, c1, b).1 == Feed(g, c1, b).1;
  }

  lemma {:induction false} AtomBuffered<C>(g: Config<C>, c: Conf<C>, data: Bytes)
    requires c.state.InArgument? && |c.buf| + |data| <= ARGUMENT_MAX && data != []
    requires forall b :: b in data ==> AtomByte(b, g.brackets(c.request.command))
    ensures Feed(g, c, data) == (c.(buf := c.buf + data, state := InArgument(data[|data| - 1])), [])
    decreases |data|
  {
    var c1 := c.(buf := c.buf + [data[0]], state := InArgument(data[0]));
    assert AtomByte(data[0], g.brackets(c.request.command));
    assert data == [data[0]] + data[1..];
    FeedQuiet(g, c, data[0], data[1..]);
    if |data| > 1 {
      AtomBuffered(g, c1, data[1..]);
      assert c1.buf + data[1..] == c.buf + data;
    } else {
      assert data[1..] == [] && c1.buf == c.buf + data;
    }
  }

  lemma {:induction false} EscapedByte<C>(g: Config<C>, c: Conf<C>, b: Byte, rest: Bytes)
    requires c.state == InQuoted(false) && |c.buf| < ARGUMENT_MAX && b != LF
    ensures Feed(g, c, EscapeByte(b) + rest) == Feed(g, c.(buf := c.buf + [b]), rest)
  {
    if b == QUOTE || b == BACKSLASH {
      assert EscapeByte(b) + rest == [BACKSLASH] + ([b] + rest);
      FeedQuiet(g, c, BACKSLASH, [b] + rest);
      FeedQuiet(g, c.(state := InQuoted(true)), b, rest);
    } else {
      FeedQuiet(g, c, b, rest);
    }
  }

  lemma {:induction false} EscapedBuffered<C>(g: Config<C>, c: Conf<C>, data: Bytes)
    requires c.state == InQuoted(false) && |c.buf| + |data| <= ARGUMENT_MAX && LF !in data
    ensures Feed(g, c, EscapeBytes(data)) == (c.(buf := c.buf + data), [])
    decreases |data|
  {
    if data == [] {
      assert c.buf + data == c.buf;
    } else {
      var c1 := c.(buf := c.buf + [data[0]]);
      EscapedByte(g, c, data[0], EscapeBytes(data[1..]));
      EscapedBuffered(g, c1, data[1..]);
      assert c1.buf + data[1..] == c.buf + data;
    }
  }

  /** Between arguments. */
  predicate Ready<C>(c: Conf<C>) {
    c.state.InArgument? && IsSpace(c.state.lastCh) && c.buf == []
  }

  predicate IsSep(b: Byte) {
    b == SPACE || b == CR
  }

  function After<C>(c: Conf<C>, a: Arg, sep: Byte): Conf<C> {
    AddToken(c, TokenOf(a)).(size := c.size + Cost(a), state := InArgument(sep))
  }

  lemma {:induction false} SepFeeds<C>(g: Config<C>, c: Conf<C>, sep: Byte)
    requires c.state.InArgument? && c.buf == [] && IsSep(sep)
    ensures Feed(g, c, [sep]) == (c.(state := InArgument(sep)), [])
  {
    FeedQuiet(g, c, sep, []);
    assert [sep] + [] == [sep];
  }

  lemma {:induction false} AtomEnds<C>(g: Config<C>, c: Conf<C>, sep: Byte)
    requires c.state.InArgument? && c.buf != [] && IsSep(sep) && c.size + |c.buf| <= g.maxSize
    ensures Feed(g, c, [sep]) ==
      (AddToken(c, Argument(c.buf)).(buf := [], size := c.size + |c.buf|, state := InArgument(sep)), [])
  {
    FeedQuiet(g, c, sep, []);
    assert [sep] + [] == [sep];
  }

  lemma {:induction false} AtomFeeds<C>(g: Config<C>, c: Conf<C>, a: Arg, sep: Byte)
    requires Ready(c) && IsSep(sep) && a.Atom? && LegalArg(a, g.brackets(c.request.command))
    requires c.size + Cost(a) <= g.maxSize
    ensures Feed(g, c, WriteArg(a) + [sep]) == (After(c, a, sep), [])
  {
    var data := a.data;
    AtomBuffered(g, c, data);
    assert c.buf + data == data;
    var c1 := c.(buf := data, state := InArgument(data[|data| - 1]));
    FeedThen(g, c, data, [sep], c1, []);
    AtomEnds(g, c1, sep);
  }

  lemma {:induction false} MarkFeeds<C>(g: Config<C>, c: Conf<C>, a: Arg, sep: Byte)
    requires Ready(c) && IsSep(sep) && a.Mark? && LegalArg(a, g.brackets(c.request.command))
    requires c.size + Cost(a) <= g.maxSize
    ensures Feed(g, c, WriteArg(a) + [sep]) == (After(c, a, sep), [])
  {
    FeedQuiet(g, c, MarkByte(a.token), [sep]);
    SepFeeds(g, Step(g, c, MarkByte(a.token)).0, sep);
  }

  lemma {:induction false} QuoteOpens<C>(g: Config<C>, c: Conf<C>, rest: Bytes)
    requires Ready(c)
    ensures Feed(g, c, [QUOTE] + rest) == Feed(g, c.(state := InQuoted(false)), rest)
  {
    FeedQuiet(g, c, QUOTE, rest);
  }

  lemma {:induction false} QuoteCloses<C>(g: Config<C>, c: Conf<C>, full: Conf<C>, a: Arg, sep: Byte)
    requires Ready(c) && IsSep(sep) && a.Quoted? && c.size + Cost(a) <= g.maxSize
    requires full == c.(state := InQuoted(false), buf := a.data)
    ensures Feed(g, full, [QUOTE] + [sep]) == (After(c, a, sep), [])
  {
    FeedQuiet(g, full, QUOTE, [sep]);
    SepFeeds(g, After(c, a, SPACE), sep);
  }

  lemma {:induction false} QuotedFeeds<C>(g: Config<C>, c: Conf<C>, a: Arg, sep: Byte)
    requires Ready(c) && IsSep(sep) && a.Quoted? && LegalArg(a, g.brackets(c.request.command))
    requires c.size + Cost(a) <= g.maxSize
    ensures Feed(g, c, WriteArg(a) + [sep]) == (After(c, a, sep), [])
  {
    var inside := c.(state := InQuoted(false));
    var full := inside.(buf := a.data);
    var body := EscapeBytes(a.data);
    assert WriteArg(a) + [sep] == [QUOTE] + (body + ([QUOTE] + [sep]));
    QuoteOpens(g, c, body + ([QUOTE] + [sep]));
    assert Feed(g, inside, body) == (full, []) by {
      EscapedBuffered(g, inside, a.data);
      assert inside.buf + a.data == a.data;
    }
    FeedThen(g, inside, body, [QUOTE] + [sep], full, []);
    QuoteCloses(g, c, full, a, sep);
  }

  lemma {:induction false} OpeningFeeds<C>(g: Config<C>, c: Conf<C>, binary: bool, rest: Bytes)
    requires Ready(c)
    ensures Feed(g, c, Opening(binary) + rest) == Feed(g, c.(state := InLiteral(false)), rest)
  {
    if binary {
      var c1 := c.(buf := [TILDE], state := InArgument(TILDE));
      assert Opening(binary) + rest == [TILDE] + ([BRACE_OPEN] + rest);
      assert c.buf + [TILDE] == [TILDE];
      FeedQuiet(g, c, TILDE, [BRACE_OPEN] + rest);
      FeedQuiet(g, c1, BRACE_OPEN, rest);
    } else {
      FeedQuiet(g, c, BRACE_OPEN, rest);
    }
  }

  /** The announcement `{n}` of a literal that fits, or `{n+}` of any. */
  lemma {:induction false} AnnouncementFeeds<C>(g: Config<C>, c: Conf<C>, n: nat, sync: bool, binary: bool)
    requires Ready(c) && n <= U32_MAX && (sync ==> c.size + n <= g.maxSize)
    ensures Feed(g, c, Announce(n, sync, binary)) == (c.(state := LiteralSeek(n, !sync)), [])
  {
    var digits := Digits(n);
    var close := (if sync then [] else [PLUS]) + [BRACE_CLOSE];
    var c1 := c.(state := InLiteral(false));
    OpeningFeeds(g, c, binary, digits + close);
    LengthDigits(n);
    DigitsRead(n);
    DigitsBuffered(g, c1, digits);
    assert c1.buf + digits == digits;
    var c2 := c1.(buf := digits);
    FeedThen(g, c1, digits, close, c2, []);
    CloseFeeds(g, c2, n, sync);
  }

  lemma {:induction false} DigitByte<C>(g: Config<C>, c: Conf<C>, d: Byte, rest: Bytes)
    requires c.state == InLiteral(false) && |c.buf| < DIGITS_MAX && IsDigit(d)
    ensures Feed(g, c, [d] + rest) == Feed(g, c.(buf := c.buf + [d]), rest)
  {
    FeedQuiet(g, c, d, rest);
  }

  lemma {:induction false} DigitsBuffered<C>(g: Config<C>, c: Conf<C>, digits: Bytes)
    requires c.state == InLiteral(false) && |c.buf| + |digits| <= DIGITS_MAX && AllDigits(digits)
    ensures Feed(g, c, digits) == (c.(buf := c.buf + digits), [])
    decreases |digits|
  {
    if digits == [] {
      assert c.buf + digits == c.buf;
    } else {
      assert digits == [digits[0]] + digits[1..];
      DigitByte(g, c, digits[0], digits[1..]);
      DigitsBuffered(g, c.(buf := c.buf + [digits[0]]), digits[1..]);
      assert (c.buf + [digits[0]]) + digits[1..] == c.buf + digits;
    }
  }

  lemma {:induction false} CloseFeeds<C>(g: Config<C>, c: Conf<C>, n: nat, sync: bool)
    requires c.state == InLiteral(false) && c.buf != [] && AllDigits(c.buf) && Decimal(c.buf) == n
    requires n <= U32_MAX && (sync ==> c.size + n <= g.maxSize)
    ensures Feed(g, c, (if sync then [] else [PLUS]) + [BRACE_CLOSE]) == (c.(buf := [], state := LiteralSeek(n, !sync)), [])
  {
    if sync {
      assert [] + [BRACE_CLOSE] == [BRACE_CLOSE] + [];
      FeedQuiet(g, c, BRACE_CLOSE, []);
    } else {
      var c1 := c.(state := InLiteral(true));
      FeedQuiet(g, c, PLUS, [BRACE_CLOSE]);
      assert [BRACE_CLOSE] == [BRACE_CLOSE] + [];
      FeedQuiet(g, c1, BRACE_CLOSE, []);
    }
  }

  /** The line end after the announcement, and the literal itself. */
  lemma {:induction false} LiteralBodyFeeds<C>(g: Config<C>, c: Conf<C>, a: Arg)
    requires a.Lit? && c.state == LiteralSeek(|a.data|, !a.sync) && c.buf == [] && c.size + Cost(a) <= g.maxSize
    requires ArgumentBytes(c.request.tokens) <= c.size
    ensures Feed(g, c, [CR, LF] + a.data) == (After(c, a, SPACE), Prompts(a))
  {
    var data := a.data;
    assert [CR, LF] + data == [CR] + ([LF] + data);
    FeedQuiet(g, c, CR, [LF] + data);
    var c1 := Step(g, c, LF).0;
    if a.sync {
      FeedEvent(g, c, LF, data);
    } else {
      FeedQuiet(g, c, LF, data);
    }
    if data != [] {
      LiteralTaken(g, c1, data);
      assert c1.buf + data == data;
    }
    assert Prompts<C>(a) + [] == Prompts(a);
  }

  lemma {:induction false} LitFeeds<C>(g: Config<C>, c: Conf<C>, a: Arg, sep: Byte)
    requires Ready(c) && IsSep(sep) && a.Lit? && LegalArg(a, g.brackets(c.request.command))
    requires c.size + Cost(a) <= g.maxSize && ArgumentBytes(c.request.tokens) <= c.size
    ensures Feed(g, c, WriteArg(a) + [sep]) == (After(c, a, sep), Prompts(a))
  {
    var n := |a.data|;
    var announce := Announce(n, a.sync, a.binary);
    var body := [CR, LF] + a.data;
    Assoc(announce, body, [sep]);
    AnnouncementFeeds(g, c, n, a.sync, a.binary);
    var c1 := c.(state := LiteralSeek(n, !a.sync));
    LiteralBodyFeeds(g, c1, a);
    var c2 := After(c1, a, SPACE);
    FeedThen(g, c1, body, [sep], c2, Prompts(a));
    SepFeeds(g, c2, sep);
    FeedThen(g, c, announce, body + [sep], c1, []);
    assert Prompts<C>(a) + [] == Prompts(a) && [] + Prompts<C>(a) == Prompts(a);
  }

  /** An oversized literal that is not waited with: all of `{n+}`, the line end and the n bytes, whatever
      they are, is swallowed, raises one error and leaves the receiver as new. */
  lemma {:induction false} OversizedFeeds<C>(g: Config<C>, c: Conf<C>, data: Bytes, binary: bool)
    requires Ready(c) && |data| <= U32_MAX && c.size <= g.maxSize < c.size + |data|
    ensures Feed(g, c, WriteArg(Lit(data, false, binary))) == (Fresh(g), [Reset(g, c, LiteralTooLarge).1])
  {
    var c1 := c.(state := LiteralSeek(|data|, true));
    AnnouncementFeeds(g, c, |data|, false, binary);
    FeedThen(g, c, Announce(|data|, false, binary), [CR, LF] + data, c1, []);
    OversizedLiteral(g, c1, data);
  }

  /** One written argument and the byte after it yield one token. */
  lemma {:induction false} ArgFeeds<C>(g: Config<C>, c: Conf<C>, a: Arg, sep: Byte)
    requires Ready(c) && IsSep(sep) && LegalArg(a, g.brackets(c.request.command))
    requires c.size + Cost(a) <= g.maxSize && ArgumentBytes(c.request.tokens) <= c.size
    ensures Feed(g, c, WriteArg(a) + [sep]) == (After(c, a, sep), Prompts(a))
  {
    match a
    case Lit(_, _, _) => LitFeeds(g, c, a, sep);
    case Quoted(_) => QuotedFeeds(g, c, a, sep);
    case Atom(_) => AtomFeeds(g, c, a, sep);
    case Mark(_) => MarkFeeds(g, c, a, sep);
  }

  /** The prompts of the arguments, and then the request with all their tokens. */
  function LineEvents<C>(r: Request<C>, args: seq<Arg>): seq<Event<C>> {
    PromptsAll(args) + [Done(r.(tokens := r.tokens + TokensOf(args)))]
  }

  /** All arguments and the line end yield the prompts and then the request. */
  lemma {:induction false} TailFeeds<C>(g: Config<C>, c: Conf<C>, args: seq<Arg>)
    requires Ready(c) && c.size + CostAll(args) <= g.maxSize && ArgumentBytes(c.request.tokens) <= c.size
    requires forall a :: a in args ==> LegalArg(a, g.brackets(c.request.command))
    ensures Feed(g, c, Tail(args)) == (Fresh(g), LineEvents(c.request, args))
    decreases |args|
  {
    if args == [] {
      EndFeeds(g, c);
      assert c.request.tokens + TokensOf(args) == c.request.tokens;
      assert PromptsAll<C>(args) + [Done(c.request)] == [Done(c.request)];
    } else {
      var c1 := After(c, args[0], Sep(args[1..]));
      TokenBytes(c.request.tokens, TokenOf(args[0]));
      TailFeeds(g, c1, args[1..]);
      TailStep(g, c, args, c1);
    }
  }

  /** The first argument, and the rest of the line after it. */
  lemma {:induction false} TailStep<C>(g: Config<C>, c: Conf<C>, args: seq<Arg>, c1: Conf<C>)
    requires args != [] && Ready(c) && LegalArg(args[0], g.brackets(c.request.command))
    requires c.size + Cost(args[0]) <= g.maxSize && ArgumentBytes(c.request.tokens) <= c.size
    requires c1 == After(c, args[0], Sep(args[1..])) && Feed(g, c1, Tail(args[1..])) == (Fresh(g), LineEvents(c1.request, args[1..]))
    ensures Feed(g, c, Tail(args)) == (Fresh(g), LineEvents(c.request, args))
  {
    ArgFeeds(g, c, args[0], Sep(args[1..]));
    FeedThen(g, c, WriteArg(args[0]) + [Sep(args[1..])], Tail(args[1..]), c1, Prompts(args[0]));
    TailJoins(c.request, args);
  }

  lemma {:induction false} TailJoins<C>(r: Request<C>, args: seq<Arg>)
    requires args != []
    ensures Prompts<C>(args[0]) + LineEvents(r.(tokens := r.tokens + [TokenOf(args[0])]), args[1..]) == LineEvents(r, args)
  {
    var a, rest := args[0], args[1..];
    Assoc(r.tokens, [TokenOf(a)], TokensOf(rest));
    Assoc<Event<C>>(Prompts(a), PromptsAll(rest), [Done(r.(tokens := r.tokens + TokensOf(args)))]);
  }

  lemma {:induction false} EndFeeds<C>(g: Config<C>, c: Conf<C>)
    requires Ready(c)
    ensures Feed(g, c, [LF]) == (Fresh(g), [Done(c.request)])
  {
    FeedEvent(g, c, LF, []);
    assert [LF] + [] == [LF] && [Done(c.request)] + [] == [Done(c.request)];
  }

  // ---------------------------------------------------------------- the head of a line

  predicate TagByte(b: Byte) {
    b != SPACE && b != TAB && b != CR && b != LF
  }

  lemma {:induction false} TagByteFeeds<C>(g: Config<C>, c: Conf<C>, b: Byte, rest: Bytes)
    requires c.state == InTag && |c.buf| < TAG_MAX && TagByte(b)
    ensures Feed(g, c, [b] + rest) == Feed(g, c.(buf := c.buf + [b]), rest)
  {
    FeedQuiet(g, c, b, rest);
  }

  lemma {:induction false} TagBuffered<C>(g: Config<C>, c: Conf<C>, bytes: Bytes)
    requires c.state == InTag && |c.buf| + |bytes| <= TAG_MAX && forall b :: b in bytes ==> TagByte(b)
    ensures Feed(g, c, bytes) == (c.(buf := c.buf + bytes), [])
    decreases |bytes|
  {
    if bytes == [] {
      assert c.buf + bytes == c.buf;
    } else {
      assert bytes == [bytes[0]] + bytes[1..];
      TagByteFeeds(g, c, bytes[0], bytes[1..]);
      TagBuffered(g, c.(buf := c.buf + [bytes[0]]), bytes[1..]);
      assert (c.buf + [bytes[0]]) + bytes[1..] == c.buf + bytes;
    }
  }

  lemma {:induction false} TagStarts<C>(g: Config<C>, b: Byte, rest: Bytes)
    requires g.startState.Start? && !IsSpace(b)
    ensures Feed(g, Fresh(g), [b] + rest) == Feed(g, Fresh(g).(buf := [b], state := InTag), rest)
  {
    FeedQuiet(g, Fresh(g), b, rest);
    assert [] + [b] == [b];
  }

  lemma {:induction false} TagEnds<C>(g: Config<C>, c: Conf<C>)
    requires c.state == InTag && c.buf != [] && g.utf8(c.buf)
    ensures Feed(g, c, [SPACE]) == (c.(buf := [], request := c.request.(tag := c.buf), state := InCommand(false)), [])
  {
    assert [SPACE] == [SPACE] + [];
    FeedQuiet(g, c, SPACE, []);
  }

  lemma {:induction false} TagFeeds<C>(g: Config<C>, tag: Bytes)
    requires LegalTag(g, tag)
    ensures Feed(g, Fresh(g), if tag == [] then [] else tag + [SPACE]) ==
      (Conf([], Request(tag, g.noCommand, []), InCommand(false), 0), [])
  {
    if tag != [] {
      var c1 := Fresh(g).(buf := [tag[0]], state := InTag);
      var c2 := c1.(buf := tag);
      var rest := tag[1..];
      assert tag + [SPACE] == [tag[0]] + (rest + [SPACE]) && [tag[0]] + rest == tag;
      TagStarts(g, tag[0], rest + [SPACE]);
      TagBuffered(g, c1, rest);
      FeedThen(g, c1, rest, [SPACE], c2, []);
      TagEnds(g, c2);
    }
  }

  lemma {:induction false} NameByte<C>(g: Config<C>, c: Conf<C>, b: Byte, rest: Bytes)
    requires c.state.InCommand? && |c.buf| < COMMAND_MAX && IsAlnum(b)
    ensures Feed(g, c, [b] + rest) == Feed(g, c.(buf := c.buf + [Upper(b)]), rest)
  {
    FeedQuiet(g, c, b, rest);
  }

  lemma {:induction false} UpperCons(before: Bytes, name: Bytes)
    requires name != []
    ensures (before + [Upper(name[0])]) + UpperAll(name[1..]) == before + UpperAll(name)
  {}

  lemma {:induction false} NameBuffered<C>(g: Config<C>, c: Conf<C>, name: Bytes)
    requires c.state.InCommand? && |c.buf| + |name| <= COMMAND_MAX && forall b :: b in name ==> IsAlnum(b)
    ensures Feed(g, c, name) == (c.(buf := c.buf + UpperAll(name)), [])
    decreases |name|
  {
    if name == [] {
      assert c.buf + UpperAll(name) == c.buf;
    } else {
      assert name == [name[0]] + name[1..];
      NameByte(g, c, name[0], name[1..]);
      NameBuffered(g, c.(buf := c.buf + [Upper(name[0])]), name[1..]);
      UpperCons(c.buf, name);
    }
  }

  lemma {:induction false} UidFeeds<C>(g: Config<C>, c: Conf<C>, uid: bool)
    requires c.state == InCommand(false) && c.buf == []
    ensures Feed(g, c, if uid then UID + [SPACE] else []) == (c.(state := InCommand(uid)), [])
  {
    if uid {
      NameBuffered(g, c, UID);
      var c1 := c.(buf := UID);
      assert c.buf + UpperAll(UID) == UID;
      FeedThen(g, c, UID, [SPACE], c1, []);
      assert [SPACE] == [SPACE] + [];
      FeedQuiet(g, c1, SPACE, []);
    }
  }

  lemma {:induction false} NameFeeds<C>(g: Config<C>, c: Conf<C>, name: Bytes, sep: Byte)
    requires c.state.InCommand? && c.buf == [] && LegalName(name) && IsSep(sep)
    requires g.parse(UpperAll(name), c.state.isUid).Some?
    ensures Feed(g, c, name + [sep]) ==
      (c.(request := c.request.(command := g.parse(UpperAll(name), c.state.isUid).value), state := InArgument(SPACE)), [])
  {
    NameBuffered(g, c, name);
    var c1 := c.(buf := UpperAll(name));
    assert c.buf + UpperAll(name) == UpperAll(name);
    FeedThen(g, c, name, [sep], c1, []);
    assert UpperAll(UpperAll(name)) == UpperAll(name);
    NameEnds(g, c1, sep);
  }

  /** The separator after a command name. */
  lemma {:induction false} NameEnds<C>(g: Config<C>, c: Conf<C>, sep: Byte)
    requires c.state.InCommand? && c.buf != [] && UpperAll(c.buf) != UID && IsSep(sep) && g.parse(c.buf, c.state.isUid).Some?
    ensures Feed(g, c, [sep]) ==
      (c.(buf := [], request := c.request.(command := g.parse(c.buf, c.state.isUid).value), state := InArgument(SPACE)), [])
  {
    assert [sep] == [sep] + [];
    FeedQuiet(g, c, sep, []);
  }

  lemma {:induction false} HeadFeeds<C>(g: Config<C>, l: Line)
    requires Legal(g, l)
    ensures Feed(g, Fresh(g), WriteHead(l)) ==
      (Conf([], Request(l.tag, g.parse(UpperAll(l.name), l.uid).value, []), InArgument(SPACE), 0), [])
  {
    var tag := if l.tag == [] then [] else l.tag + [SPACE];
    var uid := if l.uid then UID + [SPACE] else [];
    var name := l.name + [Sep(l.args)];
    TagFeeds(g, l.tag);
    var c1 := Conf([], Request(l.tag, g.noCommand, []), InCommand(false), 0);
    UidFeeds(g, c1, l.uid);
    var c2 := c1.(state := InCommand(l.uid));
    NameFeeds(g, c2, l.name, Sep(l.args));
    FeedThen(g, c1, uid, name, c2, []);
    FeedThen(g, Fresh(g), tag, uid + name, c1, []);
  }

  // ---------------------------------------------------------------- the theorems

  function EventsOf<C>(g: Config<C>, l: Line): seq<Event<C>>
    requires g.parse(UpperAll(l.name), l.uid).Some?
  {
    PromptsAll(l.args) + [Done(RequestOf(g, l))]
  }

  /** Round trip: a written request comes back with its tag, command and tokens, after one prompt per
      synchronizing literal, and leaves the receiver as new. */
  lemma {:induction false} RoundTrip<C>(g: Config<C>, l: Line)
    requires Legal(g, l)
    ensures Feed(g, Fresh(g), Write(l)) == (Fresh(g), EventsOf(g, l))
  {
    HeadFeeds(g, l);
    var c := Conf([], Request(l.tag, g.parse(UpperAll(l.name), l.uid).value, []), InArgument(SPACE), 0);
    TailFeeds(g, c, l.args);
    assert [] + TokensOf(l.args) == TokensOf(l.args);
    FeedThen(g, Fresh(g), WriteHead(l), Tail(l.args), c, []);
  }

  function WriteAll(lines: seq<Line>): Bytes {
    if lines == [] then [] else Write(lines[0]) + WriteAll(lines[1..])
  }

  function EventsOfAll<C>(g: Config<C>, lines: seq<Line>): seq<Event<C>>
    requires forall l :: l in lines ==> Legal(g, l)
  {
    if lines == [] then [] else assert Legal(g, lines[0]); EventsOf(g, lines[0]) + EventsOfAll(g, lines[1..])
  }

  /** Any number of requests in a row. */
  lemma {:induction false} StreamRoundTrip<C>(g: Config<C>, lines: seq<Line>)
    requires forall l :: l in lines ==> Legal(g, l)
    ensures Feed(g, Fresh(g), WriteAll(lines)) == (Fresh(g), EventsOfAll(g, lines))
  {
    if lines != [] {
      RoundTrip(g, lines[0]);
      StreamRoundTrip(g, lines[1..]);
      FeedThen(g, Fresh(g), Write(lines[0]), WriteAll(lines[1..]), Fresh(g), EventsOf(g, lines[0]));
    }
  }
}
