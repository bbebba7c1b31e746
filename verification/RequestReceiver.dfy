/** The receiver as the object the sessions hold: fields updated byte by byte. */
module RequestReceiver {
  import opened Basics
  import R = Receiver

  class Receiver<C> {
    const g: R.Config<C>
    var buf: R.Bytes
    var request: R.Request<C>
    var state: R.State
    var currentRequestSize: nat

    ghost function Conf(): R.Conf<C>
      reads this
    {
      R.Conf(buf, request, state, currentRequestSize)
    }

    constructor (g: R.Config<C>)
      ensures this.g == g && Conf() == R.Fresh(g)
    {
      this.g := g;
      buf := [];
      request := R.NoRequest(g);
      state := g.startState;
      currentRequestSize := 0;
    }

    method ErrorReset(message: R.Message) returns (e: R.Event<C>)
      modifies this
      ensures (Conf(), e) == R.Reset(g, old(Conf()), message)
    {
      e := R.Fail(if request.tag == [] then None else Some(request.tag), message);
      request := R.NoRequest(g);
      buf := [];
      state := g.startState;
      currentRequestSize := 0;
    }

    method PushArgument(inQuote: bool) returns (e: R.Event<C>)
      modifies this
      ensures (Conf(), e) == R.PushArgument(g, old(Conf()), inQuote)
    {
      e := R.Quiet;
      if buf != [] {
        currentRequestSize := currentRequestSize + |buf|;
        if currentRequestSize > g.maxSize {
          e := ErrorReset(R.RequestTooLarge);
          return;
        }
        request := request.(tokens := request.tokens + [R.Argument(buf)]);
        buf := [];
      } else if inQuote {
        request := request.(tokens := request.tokens + [R.Nil]);
      }
    }

    method PushToken(token: R.Token) returns (e: R.Event<C>)
      modifies this
      ensures (Conf(), e) == R.PushToken(g, old(Conf()), token)
    {
      e := R.Quiet;
      currentRequestSize := currentRequestSize + 1;
      if currentRequestSize > g.maxSize {
        e := ErrorReset(R.RequestTooLarge);
        return;
      }
      request := request.(tokens := request.tokens + [token]);
    }

    method PushChecked(ch: R.Byte, limit: nat, message: R.Message) returns (e: R.Event<C>)
      modifies this
      ensures (Conf(), e) == R.PushChecked(g, old(Conf()), ch, limit, message)
    {
      e := R.Quiet;
      if |buf| < limit {
        buf := buf + [ch];
      } else {
        e := ErrorReset(message);
      }
    }

    method OnTag(ch: R.Byte) returns (e: R.Event<C>)
      modifies this
      ensures (Conf(), e) == R.StepTag(g, old(Conf()), ch)
    {
      e := R.Quiet;
      if ch == R.SPACE {
        if buf != [] {
          if g.utf8(buf) {
            request := request.(tag := buf);
            buf := [];
            state := R.InCommand(false);
          } else {
            e := ErrorReset(R.TagNotUtf8);
          }
        }
      } else if ch == R.TAB || ch == R.CR {
      } else if ch == R.LF {
        e := ErrorReset(R.MissingCommand(buf));
      } else {
        e := PushChecked(ch, R.TAG_MAX, R.TagTooLong);
      }
    }

    method OnCommand(isUid: bool, ch: R.Byte) returns (e: R.Event<C>)
      modifies this
      ensures (Conf(), e) == R.StepCommand(g, old(Conf()), isUid, ch)
    {
      e := R.Quiet;
      if R.IsAlnum(ch) {
        e := PushChecked(R.Upper(ch), R.COMMAND_MAX, R.CommandTooLong);
      } else if R.IsSpace(ch) {
        if buf != [] {
          if R.UpperAll(buf) != R.UID {
            match g.parse(buf, isUid) {
              case None =>
                e := ErrorReset(R.UnrecognizedCommand(buf));
              case Some(command) =>
                request := request.(command := command);
                buf := [];
                if ch != R.LF {
                  state := R.InArgument(R.SPACE);
                } else {
                  e := R.Done(request);
                  state := g.startState;
                  currentRequestSize := 0;
                  request := R.NoRequest(g);
                }
            }
          } else {
            buf := [];
            state := R.InCommand(true);
          }
        }
      } else {
        e := ErrorReset(R.BadCommandChar(ch));
      }
    }

    method OnMark(token: R.Token) returns (e: R.Event<C>)
      modifies this
      ensures (Conf(), e) == R.StepMark(g, old(Conf()), token)
    {
      e := PushArgument(false);
      if e.Quiet? {
        e := PushToken(token);
      }
    }

    method Leave(next: R.State) returns (e: R.Event<C>)
      modifies this
      ensures (Conf(), e) == R.Goto(R.PushArgument(g, old(Conf()), false), next)
    {
      e := PushArgument(false);
      if e.Quiet? {
        state := next;
      }
    }

    method OnArgument(lastCh: R.Byte, ch: R.Byte) returns (e: R.Event<C>)
      modifies this
      ensures (Conf(), e) == R.StepArgument(g, old(Conf()), lastCh, ch)
    {
      var mark := R.Punctuation(ch, g.brackets(request.command));
      if ch == R.QUOTE && R.IsSpace(lastCh) {
        e := Leave(R.InQuoted(false));
      } else if ch == R.BRACE_OPEN && (R.IsSpace(lastCh) || (lastCh == R.TILDE && |buf| == 1)) {
        if lastCh != R.TILDE {
          e := Leave(R.InLiteral(false));
        } else {
          buf := [];
          state := R.InLiteral(false);
          e := R.Quiet;
        }
      } else if mark.Some? {
        e := OnMark(mark.value);
      } else if ch == R.LF {
        e := PushArgument(false);
        if e.Quiet? {
          e := R.Done(request);
          state := g.startState;
          currentRequestSize := 0;
          request := R.NoRequest(g);
        }
      } else if R.IsSpace(ch) {
        e := Leave(R.InArgument(ch));
      } else {
        e := PushChecked(ch, R.ARGUMENT_MAX, R.ArgumentTooLong);
        if e.Quiet? {
          state := R.InArgument(ch);
        }
      }
    }

    method QuotedByte(ch: R.Byte) returns (e: R.Event<C>)
      modifies this
      ensures (Conf(), e) == R.Goto(R.PushChecked(g, old(Conf()), ch, R.ARGUMENT_MAX, R.QuotedTooLong), R.InQuoted(false))
    {
      e := PushChecked(ch, R.ARGUMENT_MAX, R.QuotedTooLong);
      if e.Quiet? {
        state := R.InQuoted(false);
      }
    }

    method OnQuoted(escaped: bool, ch: R.Byte) returns (e: R.Event<C>)
      modifies this
      ensures (Conf(), e) == R.StepQuoted(g, old(Conf()), escaped, ch)
    {
      e := R.Quiet;
      if ch == R.QUOTE {
        if !escaped {
          e := PushArgument(true);
          if e.Quiet? {
            state := R.InArgument(R.SPACE);
          }
        } else {
          e := QuotedByte(ch);
        }
      } else if ch == R.BACKSLASH {
        if escaped {
          e := QuotedByte(ch);
        } else {
          state := R.InQuoted(true);
        }
      } else if ch == R.LF {
        e := ErrorReset(R.UnterminatedQuote);
      } else {
        if escaped {
          buf := buf + [R.BACKSLASH];
        }
        e := QuotedByte(ch);
      }
    }

    method OnLiteral(nonSync: bool, ch: R.Byte) returns (e: R.Event<C>)
      modifies this
      ensures (Conf(), e) == R.StepLiteral(g, old(Conf()), nonSync, ch)
    {
      e := R.Quiet;
      if ch == R.BRACE_CLOSE {
        if buf == [] {
          e := ErrorReset(R.EmptyLiteral);
        } else if (exists d :: d in buf && !R.IsDigit(d)) || R.Decimal(buf) > R.U32_MAX {
          e := ErrorReset(R.BadLiteralSize);
        } else {
          var size := R.Decimal(buf);
          if currentRequestSize + size > g.maxSize && !nonSync {
            e := ErrorReset(R.LiteralTooLarge);
          } else {
            state := R.LiteralSeek(size, nonSync);
            buf := [];
          }
        }
      } else if ch == R.PLUS {
        if buf != [] {
          state := R.InLiteral(true);
        } else {
          e := ErrorReset(R.BadNonSync);
        }
      } else if R.IsDigit(ch) {
        if !nonSync {
          e := PushChecked(ch, R.DIGITS_MAX, R.TooManyDigits);
        } else {
          e := ErrorReset(R.BadLiteral);
        }
      } else {
        e := ErrorReset(R.BadLiteralChar(ch));
      }
    }

    method OnSeek(size: nat, nonSync: bool, ch: R.Byte) returns (e: R.Event<C>)
      modifies this
      ensures (Conf(), e) == R.StepSeek(g, old(Conf()), size, nonSync, ch)
    {
      e := R.Quiet;
      if ch == R.LF {
        if nonSync && currentRequestSize + size > g.maxSize {
          state := R.LiteralDiscard(size);
        } else if size > 0 {
          state := R.LiteralData(size);
          if !nonSync {
            e := R.Prompt(size);
          }
        } else {
          state := R.InArgument(R.SPACE);
          e := PushToken(R.Nil);
          if e.Quiet? && !nonSync {
            e := R.Prompt(size);
          }
        }
      } else if !R.IsSpace(ch) {
        e := ErrorReset(R.ExpectedCrlf);
      }
    }

    method OnData(remaining: nat, ch: R.Byte) returns (e: R.Event<C>)
      modifies this
      ensures (Conf(), e) == R.StepData(g, old(Conf()), remaining, ch)
    {
      e := R.Quiet;
      buf := buf + [ch];
      if remaining > 1 {
        state := R.LiteralData(remaining - 1);
      } else {
        e := Leave(R.InArgument(R.SPACE));
      }
    }

    method OnDiscard(remaining: nat) returns (e: R.Event<C>)
      modifies this
      ensures (Conf(), e) == R.StepDiscard(g, old(Conf()), remaining)
    {
      e := R.Quiet;
      if remaining > 1 {
        state := R.LiteralDiscard(remaining - 1);
      } else {
        e := ErrorReset(R.LiteralTooLarge);
      }
    }

    /** The body of the loop of `parse`. */
    method OnByte(ch: R.Byte) returns (e: R.Event<C>)
      modifies this
      ensures (Conf(), e) == R.Step(g, old(Conf()), ch)
    {
      match state {
        case Start =>
          e := R.Quiet;
          if !R.IsSpace(ch) {
            buf := buf + [ch];
            state := R.InTag;
          }
        case InTag => e := OnTag(ch);
        case InCommand(isUid) => e := OnCommand(isUid, ch);
        case InArgument(lastCh) => e := OnArgument(lastCh, ch);
        case InQuoted(escaped) => e := OnQuoted(escaped, ch);
        case InLiteral(nonSync) => e := OnLiteral(nonSync, ch);
        case LiteralSeek(size, nonSync) => e := OnSeek(size, nonSync, ch);
        case LiteralDiscard(remaining) => e := OnDiscard(remaining);
        case LiteralData(remaining) => e := OnData(remaining, ch);
      }
    }

    /** `parse`: reads until there is something to return; `Quiet` when the bytes ran out first. */
    method Parse(bytes: R.Bytes, from: nat) returns (e: R.Event<C>, next: nat)
      requires from <= |bytes|
      modifies this
      ensures from <= next <= |bytes|
      ensures e.Quiet? ==> next == |bytes| && R.Feed(g, old(Conf()), bytes[from..]) == (Conf(), [])
      ensures !e.Quiet? ==> from < next && R.Feed(g, old(Conf()), bytes[from..next]) == (Conf(), [e])
    {
      ghost var start := Conf();
      next := from;
      while next < |bytes|
        invariant from <= next <= |bytes|
        invariant R.Feed(g, start, bytes[from..next]) == (Conf(), [])
      {
        ghost var before := Conf();
        var ch := bytes[next];
        e := OnByte(ch);
        FeedSnoc(g, start, bytes[from..next], before, ch);
        assert bytes[from..next + 1] == bytes[from..next] + [ch];
        next := next + 1;
        if !e.Quiet? {
          return;
        }
      }
      e := R.Quiet;
      assert bytes[from..] == bytes[from..next];
    }

    /** Parses frame after frame, each until it is used up: what comes back depends only on the bytes,
        not on where they were cut. */
    method Drain(frames: seq<R.Bytes>) returns (events: seq<R.Event<C>>)
      modifies this
      ensures R.Feed(g, old(Conf()), R.Concat(frames)) == (Conf(), events)
    {
      ghost var start := Conf();
      events := [];
      for i := 0 to |frames|
        invariant R.Feed(g, start, R.Concat(frames[..i])) == (Conf(), events)
      {
        ghost var before := Conf();
        var more := DrainFrame(frames[i]);
        R.FeedConcat(g, start, R.Concat(frames[..i]), frames[i]);
        ConcatSnoc(frames[..i], frames[i]);
        assert frames[..i + 1] == frames[..i] + [frames[i]];
        events := events + more;
      }
      assert frames[..|frames|] == frames;
    }

    method DrainFrame(frame: R.Bytes) returns (events: seq<R.Event<C>>)
      modifies this
      ensures R.Feed(g, old(Conf()), frame) == (Conf(), events)
    {
      ghost var start := Conf();
      events := [];
      var pos := 0;
      var more := true;
      while more
        invariant pos <= |frame| && (!more ==> pos == |frame|)
        invariant R.Feed(g, start, frame[..pos]) == (Conf(), events)
        decreases more, |frame| - pos
      {
        ghost var before := Conf();
        var e, next := Parse(frame, pos);
        R.FeedConcat(g, start, frame[..pos], frame[pos..next]);
        assert frame[..next] == frame[..pos] + frame[pos..next] && frame[pos..] == frame[pos..|frame|];
        assert events + [] == events;
        pos := next;
        if e.Quiet? {
          more := false;
        } else {
          events := events + [e];
        }
      }
      assert frame[..|frame|] == frame;
    }
  }

  lemma {:induction false} FeedSnoc<C>(g: R.Config<C>, c: R.Conf<C>, bytes: R.Bytes, c1: R.Conf<C>, ch: R.Byte)
    requires R.Feed(g, c, bytes) == (c1, [])
    ensures
      var (c2, e) := R.Step(g, c1, ch);
      R.Feed(g, c, bytes + [ch]) == (c2, if e.Quiet? then [] else [e])
  {
    R.FeedConcat(g, c, bytes, [ch]);
    var (c2, e) := R.Step(g, c1, ch);
    assert [ch] == [ch] + [];
    if e.Quiet? {
      R.FeedQuiet(g, c1, ch, []);
    } else {
      R.FeedEvent(g, c1, ch, []);
      assert [e] + [] == [e] && [] + [e] == [e];
    }
  }

  lemma {:induction false} ConcatSnoc(frames: seq<R.Bytes>, frame: R.Bytes)
    ensures R.Concat(frames + [frame]) == R.Concat(frames) + frame
  {
    if frames == [] {
      assert frames + [frame] == [frame] && [frame][1..] == [];
    } else {
      assert (frames + [frame])[1..] == frames[1..] + [frame];
      ConcatSnoc(frames[1..], frame);
    }
  }
}
