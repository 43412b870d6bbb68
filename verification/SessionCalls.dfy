/** What the tool calls of a session do and answer, each call by itself and over runs. */
module SessionCalls {
  import opened Seqs
  import opened PromptDrain
  import opened OutputBuffer
  import opened ShellSession
  import opened SessionSafety

  // ---------------------------------------------------------------- what the shell is sent

  /** An accepted command goes out followed by a line end, and by a second one exactly when PowerShell is to run several
      lines; the call leaves an empty buffer, no event, no code, and a waiting session. */
  lemma AcceptedSend(cfg: Config, s: Session, command: seq<Byte>)
    requires s.state == Ready
    ensures var (t, reply) := SendBegin(cfg, s, command, true);
            && reply.None? && t.state == Waiting && t.lastCommand == Some(command)
            && t.buf == EMPTY && !t.promptSet && t.pendingCode.None?
            && t.stdin == s.stdin + command + (if cfg.powershell && LF in command then [LF, LF] else [LF])
            && (t.carry, t.afterSetup, t.exitReason, t.lastExitCode) == (s.carry, s.afterSetup, s.exitReason, s.lastExitCode)
  {
    assert command + [LF] + [] == command + [LF];
    assert [LF, LF] == [LF] + [LF];
    Assoc(s.stdin, command, [LF]);
    Assoc(s.stdin, command, [LF, LF]);
    Assoc(command, [LF], [LF]);
  }

  /** Any other send is refused and changes nothing, or breaks the pipe and ends the session; nothing goes out. */
  lemma RefusedSend(cfg: Config, s: Session, command: seq<Byte>, writeOk: bool)
    requires s.state != Ready || !writeOk
    ensures var (t, reply) := SendBegin(cfg, s, command, writeOk);
            && reply.Some? && reply.value.code.None? && reply.value.output == Some(Shown(None, []))
            && t.stdin == s.stdin
            && (s.state != Ready ==> t == s && reply.value.status == StatusError && reply.value.refused == Some(s.state))
            && (s.state == Ready ==> t.state == Terminated && t.exitReason == BrokenPipe
                                     && reply.value.status == StatusTerminated && reply.value.refused.None?)
  {
  }

  /** The lines in a stream, without their line ends, and what follows the last line end. */
  function Lines(s: seq<Byte>): (r: (seq<seq<Byte>>, seq<Byte>)) {
    if s == [] then ([], [])
    else
      var n := |s| - 1;
      var (lines, rest) := Lines(s[..n]);
      if s[n] == LF then (lines + [rest], []) else (lines, rest + [s[n]])
  }

  lemma LinesSnoc(s: seq<Byte>, c: Byte)
    ensures Lines(s + [c]) == if c == LF then (Lines(s).0 + [Lines(s).1], []) else (Lines(s).0, Lines(s).1 + [c])
  {
    assert (s + [c])[..|s|] == s;
  }

  lemma {:induction false} LinesText(s: seq<Byte>, text: seq<Byte>)
    requires LF !in text
    ensures Lines(s + text) == (Lines(s).0, Lines(s).1 + text)
    decreases |text|
  {
    hide Lines;
    if text == [] {
      assert s + text == s && Lines(s).1 + text == Lines(s).1;
    } else {
      var n := |text| - 1;
      var c := text[n];
      assert s + text == (s + text[..n]) + [c] && text == text[..n] + [c] && c in text;
      NotInSlice(text, LF, 0, n);
      assert text[0..n] == text[..n];
      LinesText(s, text[..n]);
      LinesSnoc(s + text[..n], c);
      Assoc(Lines(s).1, text[..n], [c]);
    }
  }

  /** The commands the run's sends got through, in order. */
  function AcceptedCommands(cfg: Config, s: Session, steps: seq<Step>): seq<seq<Byte>>
    requires Fits(cfg, s)
    decreases |steps|
  {
    if steps == [] then []
    else
      var rest := AcceptedCommands(cfg, Apply(cfg, s, steps[0]), steps[1..]);
      if AcceptsCommand(s, steps[0]) then [steps[0].command] + rest else rest
  }

  /** One-line commands, and nothing written to stdin besides. */
  predicate OneLiner(step: Step) { !step.WriteStdin? && (step.BeginSend? ==> LF !in step.command) }

  lemma StdinStep(cfg: Config, s: Session, step: Step)
    requires Fits(cfg, s) && OneLiner(step)
    ensures Apply(cfg, s, step).stdin == if AcceptsCommand(s, step) then (s.stdin + step.command) + [LF] else s.stdin
  {
    hide DrainStep, Store, Display, CommandLine, AfterPrompt, AfterSetupOk, Strip;
    if step.BeginSend? {
      if AcceptsCommand(s, step) { AcceptedSend(cfg, s, step.command); } else { RefusedSend(cfg, s, step.command, step.writeOk); }
    }
  }

  /** In every run, in any interleaving, the lines the shell gets are the accepted commands, each once and in order,
      and no line is left unfinished. */
  lemma {:induction false} LinesSent(cfg: Config, s: Session, steps: seq<Step>)
    requires Fits(cfg, s) && Lines(s.stdin).1 == [] && forall step :: step in steps ==> OneLiner(step)
    ensures Lines(Run(cfg, s, steps).stdin) == (Lines(s.stdin).0 + AcceptedCommands(cfg, s, steps), [])
    decreases |steps|
  {
    hide Apply, AcceptsCommand, OneLiner, Lines;
    if steps == [] {
      assert Lines(s.stdin).0 + [] == Lines(s.stdin).0;
    } else {
      var step := steps[0];
      var t := Apply(cfg, s, step);
      assert step in steps && forall x :: x in steps[1..] ==> x in steps;
      StdinStep(cfg, s, step);
      if AcceptsCommand(s, step) {
        OneLine(s, step);
        LinesText(s.stdin, step.command);
        LinesSnoc(s.stdin + step.command, LF);
        assert [] + step.command == step.command;
        Assoc(Lines(s.stdin).0, [step.command], AcceptedCommands(cfg, t, steps[1..]));
      }
      LinesSent(cfg, t, steps[1..]);
    }
  }

  lemma OneLine(s: Session, step: Step)
    requires AcceptsCommand(s, step) && OneLiner(step)
    ensures step.BeginSend? && LF !in step.command
  {
  }

  /** What write_stdin does: the bytes go out unchanged, or nothing does. */
  lemma StdinWritten(s: Session, data: seq<Byte>, writeOk: bool)
    ensures var (t, n) := WriteBytes(s, data, writeOk);
            && (s.state != Terminated && writeOk ==> t == s.(stdin := s.stdin + data) && n == |data|)
            && (s.state == Terminated || !writeOk ==> t == s.(state := Terminated) && n == 0)
  {
  }

  // ---------------------------------------------------------------- calls in the init and terminated states

  /** Before it is ready, a session takes no command, and read says so. */
  lemma InitCalls(cfg: Config, s: Session, command: seq<Byte>, writeOk: bool)
    requires s.state == Init
    ensures SendBegin(cfg, s, command, writeOk) == (s, Some(Reply(StatusError, Some(Shown(None, [])), None, Some(Init))))
    ensures ReadReply(cfg, s).0 == s && ReadReply(cfg, s).1.status == StatusInit && ReadReply(cfg, s).1.code.None?
  {
  }

  /** Whatever happens after a session has terminated, no byte goes out, a send is refused, and a read or a send that still
      waits answers that the session is terminated, with the text in the buffer and no exit code. */
  lemma {:induction false} TerminatedCalls(
    cfg: Config, s: Session, steps: seq<Step>, command: seq<Byte>, writeOk: bool, maxOutput: int
  )
    requires Fits(cfg, s) && s.state == Terminated
    ensures var t := Run(cfg, s, steps);
            && t.state == Terminated && t.stdin == s.stdin && t.lastCommand == s.lastCommand
            && SendBegin(cfg, t, command, writeOk) == (t, Some(Reply(StatusError, Some(Shown(None, [])), None, Some(Terminated))))
            && WriteBytes(t, command, writeOk) == (t, 0)
            && ReadReply(cfg, t) ==
               (t, Reply(StatusTerminated, Some(Display(t.buf.head + t.buf.tail, cfg.defaultMaxOutput,
                                                        if s.lastCommand.Some? then s.lastCommand.value else [])), None, None))
            && SendEnd(t, command, true, maxOutput) ==
               (t.(buf := EMPTY), Reply(StatusTerminated, Some(Display(t.buf.head + t.buf.tail, maxOutput, [])), None, None))
    decreases |steps|
  {
    hide DrainStep, Store, Display;
    if steps != [] {
      TerminatedStep(cfg, s, steps[0]);
      TerminatedCalls(cfg, Apply(cfg, s, steps[0]), steps[1..], command, writeOk, maxOutput);
    }
  }

  lemma TerminatedStep(cfg: Config, s: Session, step: Step)
    requires Fits(cfg, s) && s.state == Terminated
    ensures var t := Apply(cfg, s, step); t.state == Terminated && t.stdin == s.stdin && t.lastCommand == s.lastCommand
  {
    hide DrainStep, Store, Display;
  }

  /** A send whose wait runs out says so, with what is in the buffer, and changes nothing. */
  lemma WaitRunsOut(s: Session, command: seq<Byte>, maxOutput: int)
    ensures SendEnd(s, command, false, maxOutput) ==
            (s, Reply(StatusWaiting, Some(Display(s.buf.head + s.buf.tail, maxOutput, command)), None, None))
  {
  }

  /** Any read in the init state: the bytes are not stored; until SETUP_OK was seen nothing of them is kept; SETUP_OK and
      the prompt empty the buffer; and no code, event or other field is touched. */
  lemma InitRead(cfg: Config, s: Session, data: seq<Byte>)
    requires Fits(cfg, s) && s.state == Init
    ensures var t := OnRead(cfg, s, data); var x := Strip(s.carry + data);
            && t == s.(state := t.state, afterSetup := t.afterSetup, carry := t.carry, buf := t.buf)
            && (t.buf == s.buf || t.buf == EMPTY)
            && (AfterSetupOk(x).Some? || t.state == Ready ==> t.buf == EMPTY)
            && (t.state == Ready <==> (s.afterSetup || AfterSetupOk(x).Some?) && AfterPrompt(cfg.token, x).Some?)
            && (t.state != Ready ==> t.state == Init && (t.afterSetup <==> s.afterSetup || AfterSetupOk(x).Some?))
            && (AfterSetupOk(x).None? && !s.afterSetup ==> t == s.(carry := []))
            && (AfterSetupOk(x).None? && t.state == Init && s.afterSetup ==> t == s)
  {
    hide Strip, AfterSetupOk, AfterPrompt;
  }

  lemma SetupText()
    ensures Spells(SETUP_OK, "SETUP_OK")
  {
  }

  // ---------------------------------------------------------------- how a session ends

  /** The steps that end a session, and what they put on record. */
  function Cause(s: Session, step: Step): Option<ExitReason> {
    match step
    case InitTimer => if s.state == Init then Some(InitTimeout) else None
    case BeginSend(_, ok) => if s.state == Ready && !ok then Some(BrokenPipe) else None
    case DrainEof(rc) => if rc.None? then None else if rc.value < 0 then Some(Signal) else Some(Exit)
    case _ => None
  }

  predicate Ends(s: Session, step: Step) {
    step.DrainEof? || step.Close? || (step.InitTimer? && s.state == Init)
    || (step.BeginSend? && s.state == Ready && !step.writeOk) || (step.WriteStdin? && !step.inputOk)
  }

  /** A session is terminated exactly by a step that ends it; the end of the stream, the timer and close also set the
      event, so that a waiting send wakes up. */
  lemma EndingStep(cfg: Config, s: Session, step: Step)
    requires Fits(cfg, s)
    ensures var t := Apply(cfg, s, step);
            && (t.state == Terminated <==> s.state == Terminated || Ends(s, step))
            && (step.DrainEof? || step.Close? || (step.InitTimer? && s.state == Init) ==> t.promptSet)
            && t.exitReason == (if Cause(s, step).Some? then Cause(s, step).value else s.exitReason)
            && t.lastExitCode ==
               (if step.DrainEof? && step.rc.Some? then Some(if step.rc.value < 0 then -step.rc.value else step.rc.value)
                else s.lastExitCode)
            && (step.DrainEof? || step.InitTimer? || step.Close? ==>
                  (t.pendingCode, t.lastCommand, t.stdin, t.afterSetup) == (s.pendingCode, s.lastCommand, s.stdin, s.afterSetup))
            && (step.InitTimer? || step.Close? ==> (t.buf, t.carry) == (s.buf, s.carry))
            && (step.InitTimer? && s.state != Init ==> t == s)
  {
    hide DrainStep, Store, Display, AfterPrompt, AfterSetupOk, Strip;
  }

  /** A read that shows no prompt, once the session left its init state, changes the buffer and the carry only. */
  lemma QuietRead(cfg: Config, s: Session, data: seq<Byte>)
    requires Fits(cfg, s) && s.state != Init && !SeesPrompt(cfg, s, DrainRead(data))
    ensures var t := OnRead(cfg, s, data); t == s.(buf := t.buf, carry := t.carry)
  {
    hide DrainStep, Store;
  }

  /** The exit reason after a run. */
  function LastCause(cfg: Config, s: Session, steps: seq<Step>, before: ExitReason): ExitReason
    requires Fits(cfg, s)
    decreases |steps|
  {
    if steps == [] then before
    else
      var cause := Cause(s, steps[0]);
      LastCause(cfg, Apply(cfg, s, steps[0]), steps[1..], if cause.Some? then cause.value else before)
  }

  /** Some step of the run ends the session. */
  predicate SomeEnds(cfg: Config, s: Session, steps: seq<Step>)
    requires Fits(cfg, s)
    decreases |steps|
  {
    steps != [] && (Ends(s, steps[0]) || SomeEnds(cfg, Apply(cfg, s, steps[0]), steps[1..]))
  }

  /** In every run, the session has terminated exactly when some step ended it, and the exit reason is the last cause. */
  lemma {:induction false} TerminatedIff(cfg: Config, s: Session, steps: seq<Step>)
    requires Fits(cfg, s) && s.state != Terminated
    ensures Run(cfg, s, steps).state == Terminated <==> SomeEnds(cfg, s, steps)
    decreases |steps|
  {
    hide Apply, Ends;
    if steps != [] {
      EndingStep(cfg, s, steps[0]);
      var t := Apply(cfg, s, steps[0]);
      if t.state == Terminated { TerminatedForever(cfg, t, steps[1..]); } else { TerminatedIff(cfg, t, steps[1..]); }
    }
  }

  lemma {:induction false} ExitReasonRight(cfg: Config, s: Session, steps: seq<Step>)
    requires Fits(cfg, s)
    ensures Run(cfg, s, steps).exitReason == LastCause(cfg, s, steps, s.exitReason)
    decreases |steps|
  {
    hide Apply, Cause;
    if steps != [] {
      EndingStep(cfg, s, steps[0]);
      ExitReasonRight(cfg, Apply(cfg, s, steps[0]), steps[1..]);
    }
  }

  /** A new session: silent, empty, in its init state, with nothing on record. */
  lemma NewSession()
    ensures var s := Created();
            && s.state == Init && !s.promptSet && s.pendingCode.None? && s.lastCommand.None? && s.exitReason == Unknown
            && s.lastExitCode.None? && s.stdin == [] && s.carry == [] && !s.afterSetup && s.buf.head + s.buf.tail == []
  {
  }

  /** An empty read ends the loop: what would come after it is not looked at. */
  lemma {:induction false} EmptyReadEnds(cfg: Config, s: Session, chunks: seq<seq<Byte>>, later: seq<seq<Byte>>)
    requires Fits(cfg, s) && forall c :: c in chunks ==> c != []
    ensures DrainAll(cfg, s, chunks + [[]] + later) == DrainAll(cfg, s, chunks)
    decreases |chunks|
  {
    hide OnRead;
    var all := chunks + [[]] + later;
    if chunks == [] {
      assert all[0] == [];
    } else {
      assert chunks[0] in chunks && all[1..] == chunks[1..] + [[]] + later && all[0] == chunks[0];
      assert forall c :: c in chunks[1..] ==> c in chunks;
      EmptyReadEnds(cfg, OnRead(cfg, s, chunks[0]), chunks[1..], later);
    }
  }
}
