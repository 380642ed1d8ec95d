/**
 * The line-splitting output buffer: characters collect in a buffer, a newline moves the line to
 * the history and the console, a flush emits the partial line.
 */
module StreamBuf {
  datatype Stream = Stream(
    buffer: string,
    history: seq<string>,
    maxHistory: nat,
    bufferEnabled: bool,
    directConsole: bool,
    out: string)

  /** The last n lines. */
  function LastN(lines: seq<string>, n: nat): seq<string> {
    if |lines| <= n then lines else lines[|lines| - n..]
  }

  function PushLine(history: seq<string>, line: string, maxHistory: nat): seq<string> {
    var h := history + [line];
    if |h| > maxHistory then h[1..] else h
  }

  function FlushLine(s: Stream): Stream {
    s.(buffer := "",
       history := if s.bufferEnabled then PushLine(s.history, s.buffer, s.maxHistory) else s.history,
       out := if s.directConsole then s.out + s.buffer + "\n" else s.out)
  }

  function FlushPartial(s: Stream): Stream {
    s.(buffer := "", out := if s.directConsole then s.out + s.buffer else s.out)
  }

  function Flush(s: Stream): Stream {
    if |s.buffer| > 0 then FlushPartial(s) else s
  }

  function PutChar(s: Stream, c: char): Stream {
    if c == '\n' then FlushLine(s) else s.(buffer := s.buffer + [c])
  }

  function Feed(s: Stream, text: string): Stream
    decreases |text|
  {
    if |text| == 0 then s else Feed(PutChar(s, text[0]), text[1..])
  }

  function SetMaxHistory(s: Stream, max: nat): Stream {
    s.(maxHistory := max, history := LastN(s.history, max))
  }

  /* ---------- Chunk independence ---------- */

  lemma {:induction false} FeedAppend(s: Stream, a: string, b: string)
    ensures Feed(s, a + b) == Feed(Feed(s, a), b)
    decreases |a|
  {
    if |a| == 0 {
      assert a + b == b;
    } else {
      assert (a + b)[1..] == a[1..] + b;
      FeedAppend(PutChar(s, a[0]), a[1..], b);
    }
  }

  function Concat(pieces: seq<string>): string {
    if |pieces| == 0 then "" else pieces[0] + Concat(pieces[1..])
  }

  function FeedPieces(s: Stream, pieces: seq<string>): Stream
    decreases |pieces|
  {
    if |pieces| == 0 then s else FeedPieces(Feed(s, pieces[0]), pieces[1..])
  }

  /** However a text is cut into writes, the stream ends up the same. */
  lemma {:induction false} ChunkIndependent(s: Stream, pieces: seq<string>)
    ensures FeedPieces(s, pieces) == Feed(s, Concat(pieces))
    decreases |pieces|
  {
    if |pieces| > 0 {
      FeedAppend(s, pieces[0], Concat(pieces[1..]));
      ChunkIndependent(Feed(s, pieces[0]), pieces[1..]);
    }
  }

  /* ---------- What a text leaves behind ---------- */

  /** The part of a text after its last newline. */
  function Pending(t: string): string {
    if |t| == 0 || t[|t| - 1] == '\n' then "" else Pending(t[..|t| - 1]) + [t[|t| - 1]]
  }

  /** The complete lines of a text. */
  function Completed(t: string): seq<string> {
    if |t| == 0 then []
    else if t[|t| - 1] == '\n' then Completed(t[..|t| - 1]) + [Pending(t[..|t| - 1])]
    else Completed(t[..|t| - 1])
  }

  function Unlines(lines: seq<string>): string {
    if |lines| == 0 then "" else Unlines(lines[..|lines| - 1]) + lines[|lines| - 1] + "\n"
  }

  predicate NoNewline(s: string) {
    forall i :: 0 <= i < |s| ==> s[i] != '\n'
  }

  /** Completed and Pending are the split of the text at its newlines. */
  lemma {:induction false} SplitIsExact(t: string)
    ensures Unlines(Completed(t)) + Pending(t) == t
    ensures NoNewline(Pending(t))
    ensures forall i :: 0 <= i < |Completed(t)| ==> NoNewline(Completed(t)[i])
    decreases |t|
  {
    hide Unlines;
    if |t| > 0 {
      var init, c := t[..|t| - 1], t[|t| - 1];
      SplitIsExact(init);
      assert t == init + [c];
      var lines, rest := Completed(init), Pending(init);
      if c == '\n' {
        assert Completed(t) == lines + [rest] && Pending(t) == "";
        UnlinesSnoc(lines, rest);
        assert Unlines(lines) + rest + "\n" + "" == (Unlines(lines) + rest) + [c];
      } else {
        assert Unlines(lines) + (rest + [c]) == (Unlines(lines) + rest) + [c];
      }
    } else {
      UnlinesNone();
    }
  }

  lemma UnlinesNone()
    ensures Unlines([]) == ""
  {
  }

  lemma UnlinesSnoc(lines: seq<string>, line: string)
    ensures Unlines(lines + [line]) == Unlines(lines) + line + "\n"
  {
    assert (lines + [line])[..|lines|] == lines;
  }

  lemma LastNPush(lines: seq<string>, line: string, n: nat)
    ensures PushLine(LastN(lines, n), line, n) == LastN(lines + [line], n)
  {
  }

  /** A stream that has seen the text `u` on top of `s`. */
  function After(s: Stream, u: string): Stream {
    s.(buffer := Pending(u),
       history := if s.bufferEnabled then LastN(s.history + Completed(u), s.maxHistory) else s.history,
       out := if s.directConsole then s.out + Unlines(Completed(u)) else s.out)
  }

  lemma {:induction false} NoLines(u: string)
    requires NoNewline(u)
    ensures Pending(u) == u && Completed(u) == []
    decreases |u|
  {
    if |u| > 0 {
      NoLines(u[..|u| - 1]);
      assert u == u[..|u| - 1] + [u[|u| - 1]];
    }
  }

  lemma AfterChar(s: Stream, u: string, c: char)
    ensures PutChar(After(s, u), c) == After(s, u + [c])
  {
    assert (u + [c])[..|u|] == u;
    if c == '\n' {
      var lines, line := Completed(u), Pending(u);
      hide Completed, Pending;
      assert s.history + (lines + [line]) == (s.history + lines) + [line];
      LastNPush(s.history + lines, line, s.maxHistory);
      UnlinesSnoc(lines, line);
      assert s.out + (Unlines(lines) + line + "\n") == s.out + Unlines(lines) + line + "\n";
    }
  }

  /** After any text, whatever the switches: the buffer is the part after the last newline of the
      old buffer and the text; with the history on it is the last maxHistory lines of the old
      history and the complete ones; with the console on it shows the complete lines. */
  lemma {:induction false} FeedMeaning(s: Stream, t: string)
    requires NoNewline(s.buffer) && |s.history| <= s.maxHistory
    ensures Feed(s, t) == After(s, s.buffer + t)
    decreases |t|
  {
    if |t| == 0 {
      NoLines(s.buffer);
      UnlinesNone();
      assert s.buffer + t == s.buffer && s.history + [] == s.history && s.out + "" == s.out;
    } else {
      var init, c := t[..|t| - 1], t[|t| - 1];
      assert t == init + [c] && s.buffer + t == (s.buffer + init) + [c];
      FeedMeaning(s, init);
      FeedAppend(s, init, [c]);
      AfterChar(s, s.buffer + init, c);
      assert Feed(Feed(s, init), [c]) == Feed(PutChar(Feed(s, init), c), []);
    }
  }

  /** A flush emits the partial line, if the console is on, and touches nothing else. */
  lemma FlushExact(s: Stream)
    ensures var r := Flush(s);
            && r.buffer == "" && r.out == (if s.directConsole then s.out + s.buffer else s.out)
            && r.history == s.history && r.maxHistory == s.maxHistory
            && r.bufferEnabled == s.bufferEnabled && r.directConsole == s.directConsole
  {
    if |s.buffer| == 0 { assert s.out + s.buffer == s.out; }
  }

  /** A new bound keeps the last `max` lines, in order. */
  lemma BoundExact(s: Stream, max: nat)
    ensures var r := SetMaxHistory(s, max);
            && r.maxHistory == max && |r.history| == (if |s.history| <= max then |s.history| else max)
            && (forall i :: 0 <= i < |r.history| ==> r.history[i] == s.history[|s.history| - |r.history| + i])
            && r.buffer == s.buffer && r.out == s.out
  {
  }

  /* ---------- Nothing is lost ---------- */

  datatype StreamOp = Text(text: string) | FlushOp | Resize(max: nat)

  function Exec(s: Stream, op: StreamOp): Stream {
    match op
    case Text(t) => Feed(s, t)
    case FlushOp => Flush(s)
    case Resize(n) => SetMaxHistory(s, n)
  }

  function RunStream(s: Stream, ops: seq<StreamOp>): Stream
    decreases |ops|
  {
    if |ops| == 0 then s else RunStream(Exec(s, ops[0]), ops[1..])
  }

  function TextOf(op: StreamOp): string {
    if op.Text? then op.text else ""
  }

  function Written(ops: seq<StreamOp>): string {
    if |ops| == 0 then "" else TextOf(ops[0]) + Written(ops[1..])
  }

  lemma {:induction false} FeedConserves(s: Stream, t: string)
    requires s.directConsole
    ensures Feed(s, t).directConsole && Feed(s, t).out + Feed(s, t).buffer == s.out + s.buffer + t
    ensures |s.history| <= s.maxHistory ==> |Feed(s, t).history| <= Feed(s, t).maxHistory
    decreases |t|
  {
    if |t| > 0 {
      FeedConserves(PutChar(s, t[0]), t[1..]);
      assert t == [t[0]] + t[1..];
      assert s.out + s.buffer + t == (s.out + s.buffer + [t[0]]) + t[1..];
      assert PutChar(s, t[0]).out + PutChar(s, t[0]).buffer == s.out + s.buffer + [t[0]];
    }
  }

  lemma StepConserves(s: Stream, op: StreamOp)
    requires s.directConsole && |s.history| <= s.maxHistory
    ensures var r := Exec(s, op);
            r.directConsole && r.out + r.buffer == s.out + s.buffer + TextOf(op) && |r.history| <= r.maxHistory
  {
    hide Feed;
    if op.Text? { FeedConserves(s, op.text); }
  }

  /** Over any run of writes, flushes and history changes, what was emitted followed by what is
      buffered is everything that was written, and the history never exceeds its bound. */
  lemma {:induction false} NothingLost(s: Stream, ops: seq<StreamOp>)
    requires s.directConsole && |s.history| <= s.maxHistory
    ensures var r := RunStream(s, ops);
            r.out + r.buffer == s.out + s.buffer + Written(ops) && |r.history| <= r.maxHistory
    decreases |ops|
  {
    if |ops| > 0 {
      var s1 := Exec(s, ops[0]);
      StepConserves(s, ops[0]);
      hide Exec, TextOf;
      NothingLost(s1, ops[1..]);
      assert s1.out + s1.buffer + Written(ops[1..]) == s.out + s.buffer + (TextOf(ops[0]) + Written(ops[1..]));
    }
  }

  lemma {:induction false} RunAppend(s: Stream, ops: seq<StreamOp>, op: StreamOp)
    ensures RunStream(s, ops + [op]) == Exec(RunStream(s, ops), op)
    decreases |ops|
  {
    if |ops| == 0 {
      assert RunStream(Exec(s, op), []) == Exec(s, op);
    } else {
      assert (ops + [op])[1..] == ops[1..] + [op];
      RunAppend(Exec(s, ops[0]), ops[1..], op);
    }
  }

  /** A run that ends in a flush has emitted everything that was written. */
  lemma FlushedRun(s: Stream, ops: seq<StreamOp>)
    requires s.directConsole && |s.history| <= s.maxHistory
    ensures var r := RunStream(s, ops + [FlushOp]);
            r.out == s.out + s.buffer + Written(ops) && r.buffer == ""
  {
    hide RunStream, Written, Flush;
    NothingLost(s, ops);
    RunConsole(s, ops);
    RunAppend(s, ops, FlushOp);
    FlushExact(RunStream(s, ops));
  }

  lemma {:induction false} RunConsole(s: Stream, ops: seq<StreamOp>)
    requires s.directConsole && |s.history| <= s.maxHistory
    ensures RunStream(s, ops).directConsole
    decreases |ops|
  {
    hide Exec;
    if |ops| > 0 {
      StepConserves(s, ops[0]);
      RunConsole(Exec(s, ops[0]), ops[1..]);
    }
  }

  /* ---------- The buffer ---------- */

  class LStreamBuf {
    var buffer: string
    var history: seq<string>
    var maxHistory: nat
    var bufferEnabled: bool
    var directConsole: bool
    var out: string

    ghost function State(): Stream
      reads this
    {
      Stream(buffer, history, maxHistory, bufferEnabled, directConsole, out)
    }

    constructor (historySize: nat)
      ensures State() == Stream("", [], historySize, true, true, "")
    {
      buffer, history, maxHistory := "", [], historySize;
      bufferEnabled, directConsole, out := true, true, "";
    }

    method FlushLineUnsafe()
      modifies this
      ensures State() == FlushLine(old(State()))
    {
      var line := buffer;
      buffer := "";
      if bufferEnabled {
        history := history + [line];
        if |history| > maxHistory { history := history[1..]; }
      }
      if directConsole { out := out + line + "\n"; }
    }

    method WriteChar(c: char)
      modifies this
      ensures State() == PutChar(old(State()), c)
    {
      if c == '\n' { FlushLineUnsafe(); } else { buffer := buffer + [c]; }
    }

    /** The block write: whole runs between newlines are appended at once. */
    method Write(s: string)
      modifies this
      ensures State() == Feed(old(State()), s)
    {
      hide FlushLine;
      var start, i := 0, 0;
      assert s[0..] == s;
      while i < |s|
        invariant 0 <= start <= i <= |s|
        invariant forall k :: start <= k < i ==> s[k] != '\n'
        invariant Feed(State(), s[start..]) == Feed(old(State()), s)
      {
        if s[i] == '\n' {
          FeedLine(State(), s, start, i);
          buffer := buffer + s[start..i];
          FlushLineUnsafe();
          start := i + 1;
        }
        i := i + 1;
      }
      FeedRest(State(), s, start);
      if start < |s| {
        buffer := buffer + s[start..];
      } else {
        assert buffer + s[start..] == buffer;
      }
    }

    method FlushBuffer()
      modifies this
      ensures State() == Flush(old(State()))
    {
      if |buffer| > 0 {
        if directConsole { out := out + buffer; }
        buffer := "";
      }
    }

    method SetHistoryBound(max: nat)
      modifies this
      ensures State() == SetMaxHistory(old(State()), max)
    {
      maxHistory := max;
      while |history| > maxHistory
        invariant State() == old(State()).(maxHistory := max, history := history)
        invariant LastN(history, max) == LastN(old(history), max)
        decreases |history|
      {
        history := history[1..];
      }
    }
  }

  /** One line of a block write. */
  lemma FeedLine(st: Stream, s: string, start: nat, i: nat)
    requires start <= i < |s| && s[i] == '\n' && forall k :: start <= k < i ==> s[k] != '\n'
    ensures Feed(st, s[start..]) == Feed(FlushLine(st.(buffer := st.buffer + s[start..i])), s[i + 1..])
  {
    hide FlushLine, Feed;
    var line, rest := s[start..i], s[i..];
    assert s[start..] == line + rest && rest[0] == '\n' && rest[1..] == s[i + 1..] && NoNewline(line);
    FeedRun(st, line, rest);
    FeedNewline(st.(buffer := st.buffer + line), rest);
  }

  lemma FeedNewline(st: Stream, text: string)
    requires |text| > 0 && text[0] == '\n'
    ensures Feed(st, text) == Feed(FlushLine(st), text[1..])
  {
  }

  /** What is left after the last newline of a block. */
  lemma FeedRest(st: Stream, s: string, start: nat)
    requires start <= |s| && forall k :: start <= k < |s| ==> s[k] != '\n'
    ensures Feed(st, s[start..]) == st.(buffer := st.buffer + s[start..])
  {
    FeedRun(st, s[start..], []);
    assert s[start..] + [] == s[start..];
    assert Feed(st.(buffer := st.buffer + s[start..]), []) == st.(buffer := st.buffer + s[start..]);
  }

  /** Text without newlines only extends the buffer. */
  lemma {:induction false} FeedRun(s: Stream, run: string, rest: string)
    requires NoNewline(run)
    ensures Feed(s, run + rest) == Feed(s.(buffer := s.buffer + run), rest)
    decreases |run|
  {
    if |run| == 0 {
      assert run + rest == rest && s.buffer + run == s.buffer;
    } else {
      assert (run + rest)[1..] == run[1..] + rest;
      assert s.buffer + [run[0]] + run[1..] == s.buffer + run;
      FeedRun(PutChar(s, run[0]), run[1..], rest);
    }
  }
}
