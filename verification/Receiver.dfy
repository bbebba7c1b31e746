/**
 The request receiver of crates/imap-proto/src/receiver.rs, as a machine that reads one byte at a
 time.  It serves IMAP (section 9 of RFC 9051, with the non-synchronizing literals of section 4 of
 RFC 7888) and ManageSieve, which start in different states.
 */
module Receiver {
  import opened Basics

  type Byte = b: int | 0 <= b < 256
  type Bytes = seq<Byte>

  const TAB: Byte := 9
  const LF: Byte := 10
  const FF: Byte := 12
  const CR: Byte := 13
  const SPACE: Byte := 32
  const QUOTE: Byte := 34
  const PAREN_OPEN: Byte := 40
  const PAREN_CLOSE: Byte := 41
  const PLUS: Byte := 43
  const DOT: Byte := 46
  const LESS: Byte := 60
  const GREATER: Byte := 62
  const BRACKET_OPEN: Byte := 91
  const BACKSLASH: Byte := 92
  const BRACKET_CLOSE: Byte := 93
  const BRACE_OPEN: Byte := 123
  const BRACE_CLOSE: Byte := 125
  const TILDE: Byte := 126
  const UID: Bytes := [85, 73, 68]

  const TAG_MAX: nat := 128
  const COMMAND_MAX: nat := 15
  const ARGUMENT_MAX: nat := 8000
  const DIGITS_MAX: nat := 15
  const U32_MAX: nat := 0xFFFF_FFFF

  /** `u8::is_ascii_whitespace`. */
  predicate IsSpace(b: Byte) {
    b == TAB || b == LF || b == FF || b == CR || b == SPACE
  }

  predicate IsDigit(b: Byte) {
    48 <= b <= 57
  }

  predicate IsAlnum(b: Byte) {
    IsDigit(b) || 65 <= b <= 90 || 97 <= b <= 122
  }

  function Upper(b: Byte): Byte {
    if 97 <= b <= 122 then b - 32 else b
  }

  function UpperAll(s: Bytes): (r: Bytes)
    ensures |r| == |s| && forall i :: 0 <= i < |s| ==> r[i] == Upper(s[i])
  {
    seq(|s|, i requires 0 <= i < |s| => Upper(s[i]))
  }

  /** The number a run of digits writes. */
  function Decimal(digits: Bytes): (n: nat)
    requires forall d :: d in digits ==> IsDigit(d)
  {
    if digits == [] then 0
    else
      var last := digits[|digits| - 1];
      assert IsDigit(last);
      Decimal(digits[..|digits| - 1]) * 10 + (last as int - 48)
  }

  datatype Token =
    | Argument(data: Bytes)
    | ParenthesisOpen | ParenthesisClose
    | BracketOpen | BracketClose
    | Lt | Gt | Dot
    | Nil

  datatype State =
    | Start
    | InTag
    | InCommand(isUid: bool)
    | InArgument(lastCh: Byte)
    | InQuoted(escaped: bool)
    | InLiteral(nonSync: bool)
    | LiteralSeek(size: nat, nonSync: bool)
    | LiteralData(remaining: nat)
    | LiteralDiscard(remaining: nat)

  datatype Request<C> = Request(tag: Bytes, command: C, tokens: seq<Token>)

  /** A receiver's fixed part: the command table, UTF-8 validity, the size limit and the start state. */
  datatype Config<!C> = Config(
    parse: (Bytes, bool) -> Option<C>, brackets: C -> bool, noCommand: C, utf8: Bytes -> bool,
    maxSize: nat, startState: State)

  /** A receiver's changing part. */
  datatype Conf<C> = Conf(buf: Bytes, request: Request<C>, state: State, size: nat)

  datatype Message =
    | TagNotUtf8 | MissingCommand(buf: Bytes) | TagTooLong
    | CommandTooLong | UnrecognizedCommand(buf: Bytes) | BadCommandChar(ch: Byte)
    | RequestTooLarge | ArgumentTooLong | QuotedTooLong | UnterminatedQuote
    | BadLiteralSize | LiteralTooLarge | EmptyLiteral | BadNonSync | TooManyDigits
    | BadLiteral | BadLiteralChar(ch: Byte) | ExpectedCrlf

  /** What reading a byte returns to the caller, if anything. */
  datatype Event<C> =
    | Quiet
    | Done(request: Request<C>)
    | Prompt(size: nat)
    | Fail(tag: Option<Bytes>, message: Message)

  type Outcome<C> = (Conf<C>, Event<C>)

  function NoRequest<C>(g: Config<C>): Request<C> {
    Request([], g.noCommand, [])
  }

  /** A receiver that has read nothing. */
  function Fresh<C>(g: Config<C>): Conf<C> {
    Conf([], NoRequest(g), g.startState, 0)
  }

  /** `error_reset`. */
  function Reset<C>(g: Config<C>, c: Conf<C>, message: Message): Outcome<C> {
    (Fresh(g), Fail(if c.request.tag == [] then None else Some(c.request.tag), message))
  }

  function AddToken<C>(c: Conf<C>, token: Token): Conf<C> {
    c.(request := c.request.(tokens := c.request.tokens + [token]))
  }

  /** `push_argument`: the buffer becomes an argument; an empty quoted one becomes `Nil`. */
  function PushArgument<C>(g: Config<C>, c: Conf<C>, inQuote: bool): Outcome<C> {
    if c.buf != [] then
      if c.size + |c.buf| > g.maxSize then Reset(g, c, RequestTooLarge)
      else (AddToken(c, Argument(c.buf)).(buf := [], size := c.size + |c.buf|), Quiet)
    else if inQuote then (AddToken(c, Nil), Quiet)
    else (c, Quiet)
  }

  /** `push_token`. */
  function PushToken<C>(g: Config<C>, c: Conf<C>, token: Token): Outcome<C> {
    if c.size + 1 > g.maxSize then Reset(g, c, RequestTooLarge)
    else (AddToken(c, token).(size := c.size + 1), Quiet)
  }

  function PushChecked<C>(g: Config<C>, c: Conf<C>, ch: Byte, limit: nat, message: Message): Outcome<C> {
    if |c.buf| < limit then (c.(buf := c.buf + [ch]), Quiet) else Reset(g, c, message)
  }

  /** What the `?` operator does: goes on unless there is something to return. */
  function Goto<C>(o: Outcome<C>, state: State): Outcome<C> {
    if o.1.Quiet? then (o.0.(state := state), Quiet) else o
  }

  function StepStart<C>(c: Conf<C>, ch: Byte): Outcome<C> {
    if IsSpace(ch) then (c, Quiet) else (c.(buf := c.buf + [ch], state := InTag), Quiet)
  }

  function StepTag<C>(g: Config<C>, c: Conf<C>, ch: Byte): Outcome<C> {
    if ch == SPACE then
      if c.buf == [] then (c, Quiet)
      else if g.utf8(c.buf) then (c.(buf := [], request := c.request.(tag := c.buf), state := InCommand(false)), Quiet)
      else Reset(g, c, TagNotUtf8)
    else if ch == TAB || ch == CR then (c, Quiet)
    else if ch == LF then Reset(g, c, MissingCommand(c.buf))
    else PushChecked(g, c, ch, TAG_MAX, TagTooLong)
  }

  function StepCommand<C>(g: Config<C>, c: Conf<C>, isUid: bool, ch: Byte): Outcome<C> {
    if IsAlnum(ch) then PushChecked(g, c, Upper(ch), COMMAND_MAX, CommandTooLong)
    else if !IsSpace(ch) then Reset(g, c, BadCommandChar(ch))
    else if c.buf == [] then (c, Quiet)
    else if UpperAll(c.buf) == UID then (c.(buf := [], state := InCommand(true)), Quiet)
    else
      match g.parse(c.buf, isUid)
      case None => Reset(g, c, UnrecognizedCommand(c.buf))
      case Some(command) =>
        var request := c.request.(command := command);
        if ch == LF then (Fresh(g), Done(request))
        else (c.(buf := [], request := request, state := InArgument(SPACE)), Quiet)
  }

  /** The one-byte tokens; brackets, angles and dots only for commands that ask for them. */
  function Punctuation(ch: Byte, brackets: bool): Option<Token> {
    if ch == PAREN_OPEN then Some(ParenthesisOpen)
    else if ch == PAREN_CLOSE then Some(ParenthesisClose)
    else if !brackets then None
    else if ch == BRACKET_OPEN then Some(BracketOpen)
    else if ch == BRACKET_CLOSE then Some(BracketClose)
    else if ch == LESS then Some(Lt)
    else if ch == GREATER then Some(Gt)
    else if ch == DOT then Some(Dot)
    else None
  }

  /** Punctuation in an argument: what is before it, then its token. */
  function StepMark<C>(g: Config<C>, c: Conf<C>, token: Token): Outcome<C> {
    var pushed := PushArgument(g, c, false);
    if pushed.1.Quiet? then PushToken(g, pushed.0, token) else pushed
  }

  function StepArgument<C>(g: Config<C>, c: Conf<C>, lastCh: Byte, ch: Byte): Outcome<C> {
    if ch == QUOTE && IsSpace(lastCh) then
      Goto(PushArgument(g, c, false), InQuoted(false))
    else if ch == BRACE_OPEN && (IsSpace(lastCh) || (lastCh == TILDE && |c.buf| == 1)) then
      if lastCh != TILDE then Goto(PushArgument(g, c, false), InLiteral(false))
      else (c.(buf := [], state := InLiteral(false)), Quiet)
    else if Punctuation(ch, g.brackets(c.request.command)).Some? then
      StepMark(g, c, Punctuation(ch, g.brackets(c.request.command)).value)
    else if ch == LF then
      var pushed := PushArgument(g, c, false);
      if pushed.1.Quiet? then (pushed.0.(state := g.startState, size := 0, request := NoRequest(g)), Done(pushed.0.request))
      else pushed
    else if IsSpace(ch) then Goto(PushArgument(g, c, false), InArgument(ch))
    else Goto(PushChecked(g, c, ch, ARGUMENT_MAX, ArgumentTooLong), InArgument(ch))
  }

  function StepQuoted<C>(g: Config<C>, c: Conf<C>, escaped: bool, ch: Byte): Outcome<C> {
    if ch == QUOTE then
      if !escaped then Goto(PushArgument(g, c, true), InArgument(SPACE))
      else Goto(PushChecked(g, c, ch, ARGUMENT_MAX, QuotedTooLong), InQuoted(false))
    else if ch == BACKSLASH then
      if escaped then Goto(PushChecked(g, c, ch, ARGUMENT_MAX, QuotedTooLong), InQuoted(false))
      else (c.(state := InQuoted(true)), Quiet)
    else if ch == LF then Reset(g, c, UnterminatedQuote)
    else
      var kept := if escaped then c.(buf := c.buf + [BACKSLASH]) else c;
      Goto(PushChecked(g, kept, ch, ARGUMENT_MAX, QuotedTooLong), InQuoted(false))
  }

  function StepLiteral<C>(g: Config<C>, c: Conf<C>, nonSync: bool, ch: Byte): Outcome<C> {
    if ch == BRACE_CLOSE then
      if c.buf == [] then Reset(g, c, EmptyLiteral)
      else if exists d :: d in c.buf && !IsDigit(d) then Reset(g, c, BadLiteralSize)
      else
        var size := Decimal(c.buf);
        if size > U32_MAX then Reset(g, c, BadLiteralSize)
        else if c.size + size > g.maxSize && !nonSync then Reset(g, c, LiteralTooLarge)
        else (c.(buf := [], state := LiteralSeek(size, nonSync)), Quiet)
    else if ch == PLUS then
      if c.buf == [] then Reset(g, c, BadNonSync) else (c.(state := InLiteral(true)), Quiet)
    else if IsDigit(ch) then
      if nonSync then Reset(g, c, BadLiteral) else PushChecked(g, c, ch, DIGITS_MAX, TooManyDigits)
    else Reset(g, c, BadLiteralChar(ch))
  }

  function StepSeek<C>(g: Config<C>, c: Conf<C>, size: nat, nonSync: bool, ch: Byte): Outcome<C> {
    if ch == LF then
      if nonSync && c.size + size > g.maxSize then (c.(state := LiteralDiscard(size)), Quiet)
      else if size > 0 then (c.(state := LiteralData(size)), if nonSync then Quiet else Prompt(size))
      else
        var pushed := PushToken(g, c.(state := InArgument(SPACE)), Nil);
        if pushed.1.Quiet? && !nonSync then (pushed.0, Prompt(0)) else pushed
    else if IsSpace(ch) then (c, Quiet)
    else Reset(g, c, ExpectedCrlf)
  }

  function StepDiscard<C>(g: Config<C>, c: Conf<C>, remaining: nat): Outcome<C> {
    if remaining > 1 then (c.(state := LiteralDiscard(remaining - 1)), Quiet) else Reset(g, c, LiteralTooLarge)
  }

  function StepData<C>(g: Config<C>, c: Conf<C>, remaining: nat, ch: Byte): Outcome<C> {
    var grown := c.(buf := c.buf + [ch]);
    if remaining > 1 then (grown.(state := LiteralData(remaining - 1)), Quiet)
    else Goto(PushArgument(g, grown, false), InArgument(SPACE))
  }

  function Step<C>(g: Config<C>, c: Conf<C>, ch: Byte): Outcome<C> {
    match c.state
    case Start => StepStart(c, ch)
    case InTag => StepTag(g, c, ch)
    case InCommand(isUid) => StepCommand(g, c, isUid, ch)
    case InArgument(lastCh) => StepArgument(g, c, lastCh, ch)
    case InQuoted(escaped) => StepQuoted(g, c, escaped, ch)
    case InLiteral(nonSync) => StepLiteral(g, c, nonSync, ch)
    case LiteralSeek(size, nonSync) => StepSeek(g, c, size, nonSync, ch)
    case LiteralDiscard(remaining) => StepDiscard(g, c, remaining)
    case LiteralData(remaining) => StepData(g, c, remaining, ch)
  }

  /** Everything reading `bytes` returns, in order, and the receiver afterwards. */
  function Feed<C>(g: Config<C>, c: Conf<C>, bytes: Bytes): (Conf<C>, seq<Event<C>>)
    decreases |bytes|
  {
    if bytes == [] then (c, [])
    else
      var (c1, e) := Step(g, c, bytes[0]);
      var (c2, rest) := Feed(g, c1, bytes[1..]);
      (c2, (if e.Quiet? then [] else [e]) + rest)
  }

  // ---------------------------------------------------------------- resynchronisation

  lemma {:induction false} ArgumentReset<C>(g: Config<C>, c: Conf<C>, lastCh: Byte, ch: Byte)
    ensures var (c', e) := StepArgument(g, c, lastCh, ch); !e.Quiet? ==> c' == Fresh(g)
  {}

  lemma {:induction false} QuotedReset<C>(g: Config<C>, c: Conf<C>, escaped: bool, ch: Byte)
    ensures var (c', e) := StepQuoted(g, c, escaped, ch); !e.Quiet? ==> c' == Fresh(g)
  {}

  /** After every request and every error the receiver is as new. */
  lemma {:induction false} ResetAfter<C>(g: Config<C>, c: Conf<C>, ch: Byte)
    ensures var (c', e) := Step(g, c, ch); (e.Done? || e.Fail?) ==> c' == Fresh(g)
  {
    match c.state
    case InArgument(lastCh) => ArgumentReset(g, c, lastCh, ch);
    case InQuoted(escaped) => QuotedReset(g, c, escaped, ch);
    case _ =>
  }

  lemma {:induction false} FeedQuiet<C>(g: Config<C>, c: Conf<C>, ch: Byte, rest: Bytes)
    requires Step(g, c, ch).1.Quiet?
    ensures Feed(g, c, [ch] + rest) == Feed(g, Step(g, c, ch).0, rest)
  {
    assert ([ch] + rest)[1..] == rest;
    var after := Feed(g, Step(g, c, ch).0, rest);
    assert [] + after.1 == after.1;
  }

  lemma {:induction false} FeedEvent<C>(g: Config<C>, c: Conf<C>, ch: Byte, rest: Bytes)
    requires !Step(g, c, ch).1.Quiet?
    ensures
      var (c1, e) := Step(g, c, ch);
      Feed(g, c, [ch] + rest) == (Feed(g, c1, rest).0, [e] + Feed(g, c1, rest).1)
  {
    assert ([ch] + rest)[1..] == rest;
  }

  /** Feeding is split-independent. */
  lemma {:induction false} FeedConcat<C>(g: Config<C>, c: Conf<C>, a: Bytes, b: Bytes)
    ensures
      var (c1, e1) := Feed(g, c, a);
      var (c2, e2) := Feed(g, c1, b);
      Feed(g, c, a + b) == (c2, e1 + e2)
    decreases |a|
  {
    if a == [] {
      assert a + b == b && [] + Feed(g, c, b).1 == Feed(g, c, b).1;
    } else {
      assert (a + b)[0] == a[0] && (a + b)[1..] == a[1..] + b;
      var (c1, e) := Step(g, c, a[0]);
      FeedConcat(g, c1, a[1..], b);
      var (c2, e1) := Feed(g, c1, a[1..]);
      var e2 := Feed(g, c2, b).1;
      var first := if e.Quiet? then [] else [e];
      assert (first + e1) + e2 == first + (e1 + e2);
    }
  }

  function Concat(frames: seq<Bytes>): Bytes {
    if frames == [] then [] else frames[0] + Concat(frames[1..])
  }

  // ---------------------------------------------------------------- size accounting

  /** The argument bytes a request holds. */
  function ArgumentBytes(tokens: seq<Token>): nat {
    if tokens == [] then 0
    else
      var last := tokens[|tokens| - 1];
      ArgumentBytes(tokens[..|tokens| - 1]) + if last.Argument? then |last.data| else 0
  }

  /** The start states in use: `Start` for IMAP, `Command` for ManageSieve. */
  predicate Startable<C>(g: Config<C>) {
    g.startState.Start? || g.startState.InCommand?
  }

  predicate AllDigits(s: Bytes) {
    forall d :: d in s ==> IsDigit(d)
  }

  /** What holds of the buffer and the sizes in each state. */
  predicate Within<C>(g: Config<C>, c: Conf<C>) {
    match c.state
    case Start => c.buf == []
    case InTag => |c.buf| <= TAG_MAX
    case InCommand(_) => |c.buf| <= COMMAND_MAX
    case InArgument(_) => |c.buf| <= ARGUMENT_MAX
    case InQuoted(_) => |c.buf| <= ARGUMENT_MAX
    case InLiteral(_) => |c.buf| <= DIGITS_MAX && AllDigits(c.buf)
    case LiteralSeek(size, nonSync) => c.buf == [] && size <= U32_MAX && (nonSync || c.size + size <= g.maxSize)
    case LiteralData(remaining) => remaining > 0 && c.size + |c.buf| + remaining <= g.maxSize
    case LiteralDiscard(remaining) => c.buf == [] && 0 < remaining <= U32_MAX
  }

  predicate Sized<C>(g: Config<C>, c: Conf<C>) {
    ArgumentBytes(c.request.tokens) <= c.size <= g.maxSize && Within(g, c)
  }

  lemma {:induction false} TokenBytes(tokens: seq<Token>, token: Token)
    ensures ArgumentBytes(tokens + [token]) == ArgumentBytes(tokens) + if token.Argument? then |token.data| else 0
  {
    assert (tokens + [token])[..|tokens|] == tokens;
  }

  lemma {:induction false} PushArgumentSized<C>(g: Config<C>, c: Conf<C>, inQuote: bool)
    requires ArgumentBytes(c.request.tokens) <= c.size <= g.maxSize
    ensures
      var (c', e) := PushArgument(g, c, inQuote);
      e.Quiet? ==> ArgumentBytes(c'.request.tokens) <= c'.size <= g.maxSize && c'.buf == [] && c'.state == c.state
  {
    TokenBytes(c.request.tokens, Argument(c.buf));
    TokenBytes(c.request.tokens, Nil);
  }

  lemma {:induction false} PunctuationSized<C>(g: Config<C>, c: Conf<C>, token: Token)
    requires Startable(g) && Sized(g, c) && c.state.InArgument? && c.buf == [] && !token.Argument?
    ensures Sized(g, PushToken(g, c, token).0)
  {
    TokenBytes(c.request.tokens, token);
  }

  lemma {:induction false} MarkSized<C>(g: Config<C>, c: Conf<C>, token: Token)
    requires Startable(g) && Sized(g, c) && c.state.InArgument? && !token.Argument?
    ensures Sized(g, StepMark(g, c, token).0)
  {
    PushArgumentSized(g, c, false);
    var pushed := PushArgument(g, c, false);
    if pushed.1.Quiet? {
      PunctuationSized(g, pushed.0, token);
    }
  }

  lemma {:induction false} LeaveSized<C>(g: Config<C>, c: Conf<C>, state: State)
    requires Startable(g) && Sized(g, c) && c.state.InArgument?
    requires state.InArgument? || state.InQuoted? || state.InLiteral?
    ensures Sized(g, Goto(PushArgument(g, c, false), state).0)
  {
    PushArgumentSized(g, c, false);
  }

  lemma {:induction false} FreshSized<C>(g: Config<C>)
    requires Startable(g)
    ensures Sized(g, Fresh(g))
  {}

  lemma {:induction false} CheckedSized<C>(g: Config<C>, c: Conf<C>, ch: Byte)
    requires Startable(g) && Sized(g, c) && c.state.InArgument?
    ensures Sized(g, Goto(PushChecked(g, c, ch, ARGUMENT_MAX, ArgumentTooLong), InArgument(ch)).0)
  {
    FreshSized(g);
  }

  lemma {:induction false} ArgumentSized<C>(g: Config<C>, c: Conf<C>, ch: Byte)
    requires Startable(g) && Sized(g, c) && c.state.InArgument?
    ensures Sized(g, StepArgument(g, c, c.state.lastCh, ch).0)
  {
    var lastCh := c.state.lastCh;
    var mark := Punctuation(ch, g.brackets(c.request.command));
    if ch == QUOTE && IsSpace(lastCh) {
      LeaveSized(g, c, InQuoted(false));
    } else if ch == BRACE_OPEN && (IsSpace(lastCh) || (lastCh == TILDE && |c.buf| == 1)) {
      if lastCh != TILDE {
        LeaveSized(g, c, InLiteral(false));
      }
    } else if mark.Some? {
      MarkSized(g, c, mark.value);
    } else if ch == LF {
      FreshSized(g);
      ResetAfter(g, c, ch);
    } else if IsSpace(ch) {
      LeaveSized(g, c, InArgument(ch));
    } else {
      CheckedSized(g, c, ch);
    }
  }

  lemma {:induction false} LineSized<C>(g: Config<C>, c: Conf<C>, ch: Byte)
    requires Startable(g) && Sized(g, c) && (c.state.Start? || c.state.InTag? || c.state.InCommand?)
    ensures Sized(g, Step(g, c, ch).0)
  {}

  lemma {:induction false} QuotedPushSized<C>(g: Config<C>, c: Conf<C>, ch: Byte)
    requires Startable(g) && ArgumentBytes(c.request.tokens) <= c.size <= g.maxSize
    ensures Sized(g, Goto(PushChecked(g, c, ch, ARGUMENT_MAX, QuotedTooLong), InQuoted(false)).0)
  {
    FreshSized(g);
  }

  lemma {:induction false} QuotedSized<C>(g: Config<C>, c: Conf<C>, ch: Byte)
    requires Startable(g) && Sized(g, c) && c.state.InQuoted?
    ensures Sized(g, StepQuoted(g, c, c.state.escaped, ch).0)
  {
    FreshSized(g);
    if ch == QUOTE && !c.state.escaped {
      PushArgumentSized(g, c, true);
    } else {
      QuotedPushSized(g, c, ch);
      QuotedPushSized(g, c.(buf := c.buf + [BACKSLASH]), ch);
    }
  }

  lemma {:induction false} LiteralSized<C>(g: Config<C>, c: Conf<C>, ch: Byte)
    requires Startable(g) && Sized(g, c) && c.state.InLiteral?
    ensures Sized(g, StepLiteral(g, c, c.state.nonSync, ch).0)
  {}

  lemma {:induction false} SeekSized<C>(g: Config<C>, c: Conf<C>, ch: Byte)
    requires Startable(g) && Sized(g, c) && c.state.LiteralSeek?
    ensures Sized(g, StepSeek(g, c, c.state.size, c.state.nonSync, ch).0)
  {
    TokenBytes(c.request.tokens, Nil);
  }

  lemma {:induction false} DataSized<C>(g: Config<C>, c: Conf<C>, ch: Byte)
    requires Startable(g) && Sized(g, c) && c.state.LiteralData?
    ensures Sized(g, StepData(g, c, c.state.remaining, ch).0)
  {
    PushArgumentSized(g, c.(buf := c.buf + [ch]), false);
  }

  /** Every step keeps the sizes within the limits. */
  lemma {:induction false} StepSized<C>(g: Config<C>, c: Conf<C>, ch: Byte)
    requires Startable(g) && Sized(g, c)
    ensures Sized(g, Step(g, c, ch).0)
  {
    match c.state
    case InArgument(_) => ArgumentSized(g, c, ch);
    case InQuoted(_) => QuotedSized(g, c, ch);
    case InLiteral(_) => LiteralSized(g, c, ch);
    case LiteralSeek(_, _) => SeekSized(g, c, ch);
    case LiteralData(_) => DataSized(g, c, ch);
    case LiteralDiscard(_) =>
    case _ => LineSized(g, c, ch);
  }

  /** In every reachable state the stored argument bytes are at most the counted size, which is at most
      the limit, and a literal being read still fits. */
  lemma {:induction false} ReachableSized<C>(g: Config<C>, c: Conf<C>, bytes: Bytes)
    requires Startable(g) && Sized(g, c)
    ensures Sized(g, Feed(g, c, bytes).0)
    decreases |bytes|
  {
    if bytes != [] {
      StepSized(g, c, bytes[0]);
      ReachableSized(g, Step(g, c, bytes[0]).0, bytes[1..]);
    }
  }

  /** An accepted literal never fails: its bytes are taken whatever they are, and become one argument. */
  lemma {:induction false} LiteralTaken<C>(g: Config<C>, c: Conf<C>, data: Bytes)
    requires Sized(g, c) && c.state.LiteralData? && |data| == c.state.remaining
    ensures Feed(g, c, data) ==
      (AddToken(c, Argument(c.buf + data)).(buf := [], size := c.size + |c.buf + data|, state := InArgument(SPACE)), [])
    decreases |data|
  {
    var c1 := Step(g, c, data[0]).0;
    assert c.buf + data == (c.buf + [data[0]]) + data[1..];
    if |data| > 1 {
      LiteralTaken(g, c1, data[1..]);
    } else {
      assert data == [data[0]] && data[1..] == [];
    }
  }

  /** An oversized literal the client did not wait with is swallowed to its last byte, whatever the
      bytes, then raises one error and leaves the receiver as new. */
  lemma {:induction false} LiteralDiscarded<C>(g: Config<C>, c: Conf<C>, data: Bytes)
    requires c.state.LiteralDiscard? && |data| == c.state.remaining > 0
    ensures Feed(g, c, data) == (Fresh(g), [Reset(g, c, LiteralTooLarge).1])
    decreases |data|
  {
    assert data == [data[0]] + data[1..];
    if |data| > 1 {
      FeedQuiet(g, c, data[0], data[1..]);
      LiteralDiscarded(g, Step(g, c, data[0]).0, data[1..]);
    } else {
      assert data[1..] == [];
      FeedEvent(g, c, data[0], []);
      assert [Reset(g, c, LiteralTooLarge).1] + [] == [Reset(g, c, LiteralTooLarge).1];
    }
  }

  /** The same from the end of its `{n+}`: the line end, then exactly `n` bytes. */
  lemma {:induction false} OversizedLiteral<C>(g: Config<C>, c: Conf<C>, data: Bytes)
    requires c.state.LiteralSeek? && c.state.nonSync && |data| == c.state.size
    requires c.size <= g.maxSize < c.size + |data|
    ensures Feed(g, c, [CR, LF] + data) == (Fresh(g), [Reset(g, c, LiteralTooLarge).1])
  {
    var c1 := c.(state := LiteralDiscard(|data|));
    assert [CR, LF] + data == [CR] + ([LF] + data);
    FeedQuiet(g, c, CR, [LF] + data);
    FeedQuiet(g, c, LF, data);
    LiteralDiscarded(g, c1, data);
  }
}
