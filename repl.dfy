/** The interactive prompt (`src/repl.rs`): each input line is classified, executable lines are
    collected in a buffer that is run as one chunk, incomplete chunks keep the buffer for the
    next line, and a chunk that fails as a bare expression is retried wrapped in `inspect`. */
module Repl {
  import opened Wrappers
  import opened Text
  import opened Shared
  import opened Guest

  /** What the line editor returns: a line, Ctrl+C, Ctrl+D, or a failure of the terminal. */
  datatype Input = Line(text: string) | Interrupted | Eof | ReadFailed(message: string)

  /** What `readline` decides for an input. */
  datatype Action = Execute(code: string) | Reset | Exit

  /** The prompt shown before reading a line. */
  function Caret(incomplete: bool): string
  {
    if incomplete then ">> " else "> "
  }

  /** The inputs that end the prompt. */
  predicate IsExitWord(line: string)
  {
    line == "exit" || line == "q" || line == "quit"
  }

  /** `inspect(value)`: the chunk that prints the inspection of an expression. The expression
      is recovered from the chunk, so different expressions give different chunks. */
  function Inspect(value: string): (c: string)
    ensures |c| == |value| + 21 && c[..19] == "print(dfim.inspect(" && c[19..|c| - 2] == value && c[|c| - 2..] == "))"
  {
    "print(dfim.inspect(" + value + "))"
  }

  /** `load_lines`: the buffered lines as one chunk, separated by single spaces. */
  function LoadLines(lines: seq<string>): (chunk: string)
    ensures lines == [] ==> chunk == ""
    ensures |lines| == 1 ==> chunk == lines[0]
  {
    Join(lines, " ")
  }

  /** One more buffered line is appended to the chunk after a single space. */
  lemma LoadLinesSnoc(lines: seq<string>, line: string)
    ensures LoadLines(lines + [line]) == if lines == [] then line else LoadLines(lines) + " " + line
  {
    if lines == [] {
      assert [] + [line] == [line];
    } else {
      JoinSnoc(lines, line, " ");
    }
  }

  /** `inspect_lines`: the inspection of the buffered lines joined as by `load_lines`; the
      joined lines are recovered from it, and a single line is inspected as it is. */
  function InspectLines(lines: seq<string>): (c: string)
    ensures var chunk := LoadLines(lines); |c| == |chunk| + 21 && c[19..|c| - 2] == chunk
    ensures |lines| == 1 ==> c == Inspect(lines[0])
  {
    Inspect(LoadLines(lines))
  }

  /** `readline` on an input, given whether the buffer is empty (`firstline`). Recording the
      line in the history is done by the caller of this classification. */
  function Classify(input: Input, firstline: bool): (r: Result<Action, string>)
    ensures r.Err? <==> input.ReadFailed?
    ensures r == Ok(Exit) <==> input.Interrupted? || input.Eof? || (input.Line? && IsExitWord(input.text))
    ensures r == Ok(Reset) <==> input == Line("")
    ensures r.Ok? && r.value.Execute? ==> input.Line? && input.text != "" && !IsExitWord(input.text)
    ensures r.Ok? && r.value.Execute? ==>
      r.value.code == if firstline && StartsWith(input.text, "=") then Inspect(input.text[1..]) else input.text
  {
    match input
    case Line(line) =>
      if IsExitWord(line) then Ok(Exit)
      else if line == "" then Ok(Reset)
      else if firstline && StartsWith(line, "=") then Ok(Execute(Inspect(line[1..])))
      else Ok(Execute(line))
    case Interrupted => Ok(Exit)
    case Eof => Ok(Exit)
    case ReadFailed(e) => Err(e)
  }

  /** How running a chunk ends: success, a syntax error (with whether the input merely ended
      too early), or any other error. */
  datatype Outcome = Ran | SyntaxError(message: string, incompleteInput: bool) | OtherError(message: string)

  /** Running a chunk in the interpreter: its outcome and the interpreter state after. */
  type Exec = (Heap, string) -> (Outcome, Heap)

  /** The end of the message LuaJIT gives for a bare expression used as a statement. */
  const RetrySuffix: string := "'=' expected near '<eof>'"

  /** The state of the prompt loop: the buffer and `incomplete` flag, the interpreter, and what
      has been observed so far: the prompts shown, the history, the chunks run and the errors
      printed. */
  datatype Session = Session(
    buf: seq<string>, incomplete: bool, heap: Heap,
    prompts: seq<string>, history: seq<string>, chunks: seq<string>, printed: seq<Outcome>)

  /** The state when the loop starts. */
  function Start(heap: Heap): Session
  {
    Session([], false, heap, [], [], [], [])
  }

  /** The buffer is non-empty exactly when the last chunk was incomplete. */
  predicate Coherent(s: Session)
  {
    s.incomplete <==> s.buf != []
  }

  /** The outcome of running the buffer after the retry rule and its effect on `incomplete`
      and on what is printed, before the buffer is cleared. */
  function Settle(s: Session, o: Outcome, exec: Exec): (r: Session)
    requires s.buf != []
    ensures r.buf == s.buf && r.history == s.history && r.prompts == s.prompts
    ensures |r.chunks| >= |s.chunks| && r.chunks[..|s.chunks|] == s.chunks
    ensures |r.printed| >= |s.printed| && r.printed[..|s.printed|] == s.printed
  {
    match o
    case Ran => s.(incomplete := false)
    case SyntaxError(m, inc) =>
      if EndsWith(m, RetrySuffix) then
        var (o2, h2) := exec(s.heap, InspectLines(s.buf));
        s.(incomplete := false, heap := h2, chunks := s.chunks + [InspectLines(s.buf)],
           printed := if o2 == Ran then s.printed else s.printed + [o2])
      else if inc then s.(incomplete := true)
      else s.(incomplete := false, printed := s.printed + [o])
    case OtherError(_) => s.(incomplete := false, printed := s.printed + [o])
  }

  /** After a line is read: the line joins the buffer, the buffer is run, and it is cleared
      unless the chunk was incomplete. */
  function AfterExecute(s: Session, line: string, exec: Exec): (r: Session)
    ensures Coherent(r)
    ensures r.buf == [] || r.buf == s.buf + [line]
    ensures r.history == s.history && r.prompts == s.prompts
    ensures |r.chunks| > |s.chunks| && r.chunks[..|s.chunks| + 1] == s.chunks + [LoadLines(s.buf + [line])]
    ensures |r.printed| >= |s.printed| && r.printed[..|s.printed|] == s.printed
  {
    var buf := s.buf + [line];
    var (o, h1) := exec(s.heap, LoadLines(buf));
    var s1 := s.(buf := buf, heap := h1, chunks := s.chunks + [LoadLines(buf)]);
    var s2 := Settle(s1, o, exec);
    assert s2.chunks[..|s.chunks| + 1] == s2.chunks[..|s1.chunks|];
    if s2.incomplete then s2 else s2.(buf := [])
  }

  /** The result of one pass of the loop. */
  datatype Step = Continue(s: Session) | Stop(result: Result<(), string>, s: Session)

  /** One pass of the loop: show the prompt, classify the input, then stop, reset or run. */
  function StepSpec(s: Session, input: Input, exec: Exec): (r: Step)
    ensures r.s.prompts == s.prompts + [Caret(s.incomplete)]
    ensures r.Continue? ==> Coherent(r.s)
  {
    var s0 := s.(prompts := s.prompts + [Caret(s.incomplete)]);
    match Classify(input, s.buf == [])
    case Err(m) => Stop(Err(m), s0)
    case Ok(Exit) => Stop(Ok(()), s0)
    case Ok(Reset) => Continue(s0.(buf := [], incomplete := false))
    case Ok(Execute(code)) => Continue(AfterExecute(s0.(history := s0.history + [input.text]), code, exec))
  }

  /** `run_impl` from state `s` on the remaining inputs; past the last input the editor reports
      end of file. The loop fails only with the error of a line editor that failed, and it
      shows at least one more prompt. */
  function RunFrom(s: Session, inputs: seq<Input>, exec: Exec): (r: (Result<(), string>, Session))
    ensures r.0.Err? ==> exists i :: 0 <= i < |inputs| && inputs[i] == ReadFailed(r.0.error)
    ensures |r.1.prompts| > |s.prompts|
    decreases |inputs|
  {
    if inputs == [] then
      (Ok(()), s.(prompts := s.prompts + [Caret(s.incomplete)]))
    else
      match StepSpec(s, inputs[0], exec)
      case Stop(res, s') => (res, s')
      case Continue(s') => RunFrom(s', inputs[1..], exec)
  }

  // ---------------------------------------------------------------------------------------
  // properties of one pass

  /** The prompt is `>> ` exactly when the buffer holds an incomplete chunk. */
  lemma PromptShowsIncomplete(s: Session, input: Input, exec: Exec)
    requires Coherent(s)
    ensures var p := StepSpec(s, input, exec).s.prompts;
      p[|p| - 1] == ">> " <==> s.buf != []
  {
  }

  /** `exit`, `q`, `quit`, Ctrl+C and Ctrl+D end the loop whatever the buffer holds, running
      nothing and recording nothing. */
  lemma ExitAnywhere(s: Session, input: Input, exec: Exec)
    requires input.Interrupted? || input.Eof? || (input.Line? && IsExitWord(input.text))
    ensures StepSpec(s, input, exec) == Stop(Ok(()), s.(prompts := s.prompts + [Caret(s.incomplete)]))
  {
  }

  /** A failing line editor ends the loop with its error. */
  lemma ReadFailureStops(s: Session, m: string, exec: Exec)
    ensures StepSpec(s, ReadFailed(m), exec) == Stop(Err(m), s.(prompts := s.prompts + [Caret(s.incomplete)]))
  {
  }

  /** An empty line clears the buffer and `incomplete` and runs nothing. */
  lemma EmptyLineResets(s: Session, exec: Exec)
    ensures StepSpec(s, Line(""), exec)
      == Continue(s.(prompts := s.prompts + [Caret(s.incomplete)], buf := [], incomplete := false))
  {
  }

  /** Any other line is recorded in the history as typed, and the first chunk run is the
      buffer plus the line, rewritten to an inspection only when it starts with `=` and the
      buffer is empty. */
  lemma LineRuns(s: Session, line: string, exec: Exec)
    requires line != "" && !IsExitWord(line)
    ensures var r := StepSpec(s, Line(line), exec);
      var code := if s.buf == [] && StartsWith(line, "=") then Inspect(line[1..]) else line;
      && r.Continue? && r.s.history == s.history + [line]
      && r.s.chunks[..|s.chunks| + 1] == s.chunks + [LoadLines(s.buf + [code])]
  {
  }

  /** A syntax error ending in the bare-expression message is retried exactly once, as the
      inspection of the same text: `incomplete` ends false either way, the buffer is cleared,
      and only the retry's error is printed. */
  lemma RetryOnce(s: Session, line: string, exec: Exec, m: string, inc: bool)
    requires exec(s.heap, LoadLines(s.buf + [line])).0 == SyntaxError(m, inc) && EndsWith(m, RetrySuffix)
    ensures var r := AfterExecute(s, line, exec);
      var c := LoadLines(s.buf + [line]);
      var o2 := exec(exec(s.heap, c).1, Inspect(c)).0;
      && !r.incomplete && r.buf == []
      && r.chunks == s.chunks + [c, Inspect(c)]
      && r.printed == s.printed + (if o2 == Ran then [] else [o2])
  {
  }

  /** An incomplete chunk (other than the bare-expression case) keeps the buffer with the new
      line, sets `incomplete` and prints nothing. */
  lemma IncompleteKeeps(s: Session, line: string, exec: Exec, m: string)
    requires exec(s.heap, LoadLines(s.buf + [line])).0 == SyntaxError(m, true) && !EndsWith(m, RetrySuffix)
    ensures var r := AfterExecute(s, line, exec);
      && r.incomplete && r.buf == s.buf + [line]
      && r.chunks == s.chunks + [LoadLines(s.buf + [line])] && r.printed == s.printed
  {
  }

  /** Any other error is printed and the buffer is cleared. */
  lemma OtherErrorPrinted(s: Session, line: string, exec: Exec)
    requires var o := exec(s.heap, LoadLines(s.buf + [line])).0;
      o.OtherError? || (o.SyntaxError? && !o.incompleteInput && !EndsWith(o.message, RetrySuffix))
    ensures var r := AfterExecute(s, line, exec);
      && !r.incomplete && r.buf == []
      && r.printed == s.printed + [exec(s.heap, LoadLines(s.buf + [line])).0]
  {
  }

  /** A chunk that runs clears the buffer and prints nothing. */
  lemma SuccessClears(s: Session, line: string, exec: Exec)
    requires exec(s.heap, LoadLines(s.buf + [line])).0 == Ran
    ensures var r := AfterExecute(s, line, exec);
      !r.incomplete && r.buf == [] && r.printed == s.printed
  {
  }

  // ---------------------------------------------------------------------------------------
  // properties of whole runs

  /** Throughout a run, and when it ends, the buffer is empty exactly when `incomplete` is
      false. */
  lemma {:induction false} RunCoherent(s: Session, inputs: seq<Input>, exec: Exec)
    requires Coherent(s)
    ensures Coherent(RunFrom(s, inputs, exec).1)
    decreases |inputs|
  {
    if inputs != [] {
      match StepSpec(s, inputs[0], exec)
      case Stop(_, _) =>
      case Continue(s') => RunCoherent(s', inputs[1..], exec);
    }
  }

  /** `r` keeps every prompt, history entry, chunk and printed error of `s`, in order. */
  predicate KeepsLog(s: Session, r: Session)
  {
    && |r.prompts| >= |s.prompts| && r.prompts[..|s.prompts|] == s.prompts
    && |r.history| >= |s.history| && r.history[..|s.history|] == s.history
    && |r.chunks| >= |s.chunks| && r.chunks[..|s.chunks|] == s.chunks
    && |r.printed| >= |s.printed| && r.printed[..|s.printed|] == s.printed
  }

  /** One pass keeps what was recorded before it. */
  lemma StepKeepsLog(s: Session, input: Input, exec: Exec)
    ensures KeepsLog(s, StepSpec(s, input, exec).s)
  {
    var s0 := s.(prompts := s.prompts + [Caret(s.incomplete)]);
    assert s0.prompts[..|s.prompts|] == s.prompts;
    match Classify(input, s.buf == [])
    case Ok(Execute(code)) =>
      var s1 := s0.(history := s0.history + [input.text]);
      assert s1.history[..|s.history|] == s.history;
      var r := AfterExecute(s1, code, exec);
      assert r.chunks[..|s.chunks|] == r.chunks[..|s.chunks| + 1][..|s.chunks|];
    case _ =>
  }

  lemma KeepsLogTransitive(a: Session, b: Session, c: Session)
    requires KeepsLog(a, b) && KeepsLog(b, c)
    ensures KeepsLog(a, c)
  {
    assert c.prompts[..|a.prompts|] == c.prompts[..|b.prompts|][..|a.prompts|];
    assert c.history[..|a.history|] == c.history[..|b.history|][..|a.history|];
    assert c.chunks[..|a.chunks|] == c.chunks[..|b.chunks|][..|a.chunks|];
    assert c.printed[..|a.printed|] == c.printed[..|b.printed|][..|a.printed|];
  }

  /** A run keeps every prompt, history entry, chunk and printed error it has already
      recorded. */
  lemma {:induction false} RunExtendsLog(s: Session, inputs: seq<Input>, exec: Exec)
    ensures var r := RunFrom(s, inputs, exec).1;
      && |r.prompts| > |s.prompts| && r.prompts[..|s.prompts|] == s.prompts
      && |r.history| >= |s.history| && r.history[..|s.history|] == s.history
      && |r.chunks| >= |s.chunks| && r.chunks[..|s.chunks|] == s.chunks
      && |r.printed| >= |s.printed| && r.printed[..|s.printed|] == s.printed
    decreases |inputs|
  {
    StepKeepsLog(s, if inputs == [] then Eof else inputs[0], exec);
    if inputs != [] {
      match StepSpec(s, inputs[0], exec)
      case Stop(_, _) =>
      case Continue(s') =>
        RunExtendsLog(s', inputs[1..], exec);
        KeepsLogTransitive(s, s', RunFrom(s', inputs[1..], exec).1);
    }
  }

  /** An exit word ends the run at once with success, so the inputs after it are never read. */
  lemma RunStopsAtExit(s: Session, inputs: seq<Input>, exec: Exec)
    requires inputs != [] && inputs[0].Line? && IsExitWord(inputs[0].text)
    ensures RunFrom(s, inputs, exec) == (Ok(()), s.(prompts := s.prompts + [Caret(s.incomplete)]))
  {
    ExitAnywhere(s, inputs[0], exec);
  }

  // ---------------------------------------------------------------------------------------
  // the loop

  /** `run_impl`: the prompt loop over the inputs, starting with an empty buffer. */
  method RunImpl(heap: Heap, inputs: seq<Input>, exec: Exec) returns (r: Result<(), string>, s: Session)
    ensures (r, s) == RunFrom(Start(heap), inputs, exec)
  {
    s := Start(heap);
    var i := 0;
    while true
      invariant 0 <= i <= |inputs|
      invariant RunFrom(Start(heap), inputs, exec) == RunFrom(s, inputs[i..], exec)
      decreases |inputs| - i
    {
      var input := if i < |inputs| then inputs[i] else Eof;
      assert i < |inputs| ==> inputs[i..][0] == inputs[i] && inputs[i..][1..] == inputs[i + 1..];
      var caret := if s.incomplete then ">> " else "> ";
      s := s.(prompts := s.prompts + [caret]);
      var action := Classify(input, s.buf == []);
      assert i == |inputs| ==> action == Ok(Exit);
      match action {
        case Err(e) =>
          return Err(e), s;
        case Ok(Exit) =>
          return Ok(()), s;
        case Ok(Reset) =>
          s := s.(buf := [], incomplete := false);
        case Ok(Execute(line)) =>
          s := s.(history := s.history + [input.text]);
          s := RunBuffer(s, line, exec);
      }
      i := i + 1;
    }
  }

  /** The body of `run_impl` after a line is read: push the line, run the buffer, settle
      `incomplete` and clear the buffer when the chunk was not incomplete. */
  method RunBuffer(s: Session, line: string, exec: Exec) returns (s': Session)
    ensures s' == AfterExecute(s, line, exec)
  {
    var buf := s.buf + [line];
    var incomplete := s.incomplete;
    var chunks := s.chunks + [LoadLines(buf)];
    var printed := s.printed;
    var (o, heap) := exec(s.heap, LoadLines(buf));
    match o {
      case Ran =>
        incomplete := false;
      case SyntaxError(message, inc) =>
        if EndsWith(message, RetrySuffix) {
          var (o2, h2) := exec(heap, InspectLines(buf));
          heap := h2;
          chunks := chunks + [InspectLines(buf)];
          incomplete := false;
          if o2 != Ran {
            printed := printed + [o2];
          }
        } else if inc {
          incomplete := true;
        } else {
          incomplete := false;
          printed := printed + [o];
        }
      case OtherError(_) =>
        incomplete := false;
        printed := printed + [o];
    }
    if !incomplete {
      buf := [];
    }
    s' := s.(buf := buf, incomplete := incomplete, heap := heap, chunks := chunks, printed := printed);
  }
}
