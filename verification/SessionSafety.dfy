/** What holds of a shell session in every run of its steps, in any interleaving. */
module SessionSafety {
  import opened Seqs
  import opened PromptDrain
  import opened OutputBuffer
  import opened ShellSession

  datatype Step =
    | DrainRead(data: seq<Byte>)
    | DrainEof(rc: Option<int>)
    | InitTimer
    | BeginSend(command: seq<Byte>, writeOk: bool)
    | EndSend(waited: seq<Byte>, seen: bool, maxOutput: int)
    | Poll
    | WriteStdin(input: seq<Byte>, inputOk: bool)
    | Close

  /** A wait returns true only on a set event. */
  predicate Enabled(s: Session, step: Step) {
    step.EndSend? && step.seen ==> s.promptSet
  }

  function Apply(cfg: Config, s: Session, step: Step): (t: Session)
    requires Fits(cfg, s)
    ensures Fits(cfg, t)
  {
    match step
    case DrainRead(data) => OnRead(cfg, s, data)
    case DrainEof(rc) => OnEof(cfg, s, rc)
    case InitTimer => OnInitTimer(s)
    case BeginSend(command, writeOk) => SendBegin(cfg, s, command, writeOk).0
    case EndSend(command, seen, maxOutput) => SendEnd(s, command, seen, maxOutput).0
    case Poll => ReadReply(cfg, s).0
    case WriteStdin(data, writeOk) => WriteBytes(s, data, writeOk).0
    case Close => OnClose(s)
  }

  /** The session after a run. */
  function Run(cfg: Config, s: Session, steps: seq<Step>): (t: Session)
    requires Fits(cfg, s)
    ensures Fits(cfg, t)
    decreases |steps|
  {
    if steps == [] then s else Run(cfg, Apply(cfg, s, steps[0]), steps[1..])
  }

  /** Every step of the run is enabled where it happens. */
  ghost predicate Possible(cfg: Config, s: Session, steps: seq<Step>)
    requires Fits(cfg, s)
    decreases |steps|
  {
    steps == [] || (Enabled(s, steps[0]) && Possible(cfg, Apply(cfg, s, steps[0]), steps[1..]))
  }

  lemma {:induction false} TerminatedForever(cfg: Config, s: Session, steps: seq<Step>)
    requires Fits(cfg, s) && s.state == Terminated
    ensures Run(cfg, s, steps).state == Terminated
    decreases |steps|
  {
    hide DrainStep, Store, Display;
    if steps != [] { TerminatedForever(cfg, Apply(cfg, s, steps[0]), steps[1..]); }
  }

  /** A set event outside the terminated state has an exit code to go with it. */
  predicate Coded(s: Session) {
    s.promptSet && s.state != Terminated ==> s.pendingCode.Some?
  }

  lemma CodedStep(cfg: Config, s: Session, step: Step)
    requires Fits(cfg, s) && Coded(s) && Enabled(s, step)
    ensures Coded(Apply(cfg, s, step))
  {
    hide DrainStep, Store, Display, AfterPrompt, AfterSetupOk, Strip;
  }

  lemma {:induction false} EventHasCode(cfg: Config, s: Session, steps: seq<Step>)
    requires Fits(cfg, s) && Coded(s) && Possible(cfg, s, steps)
    ensures Coded(Run(cfg, s, steps))
    decreases |steps|
  {
    hide Apply, Coded, Enabled;
    if steps != [] {
      CodedStep(cfg, s, steps[0]);
      EventHasCode(cfg, Apply(cfg, s, steps[0]), steps[1..]);
    }
  }

  lemma CreatedCoded(cfg: Config, steps: seq<Step>)
    requires Possible(cfg, Created(), steps)
    ensures Coded(Run(cfg, Created(), steps))
  {
    EventHasCode(cfg, Created(), steps);
  }

  // ---------------------------------------------------------------- one command at a time

  /** The step hands a command to the process. */
  predicate AcceptsCommand(s: Session, step: Step) {
    step.BeginSend? && Accepts(s, step.writeOk)
  }

  /** The step reports a prompt. */
  predicate SeesPrompt(cfg: Config, s: Session, step: Step) {
    step.DrainRead? && s.state != Init && DrainStep(cfg.token, s.carry, step.data).code.Some?
  }

  /** A command is running, or the shell is gone: no command can be accepted. */
  predicate Busy(s: Session) {
    s.state == Terminated || (s.state == Waiting && !s.promptSet)
  }

  lemma BusyStep(cfg: Config, s: Session, step: Step)
    requires Fits(cfg, s) && Busy(s) && Enabled(s, step) && !SeesPrompt(cfg, s, step)
    ensures Busy(Apply(cfg, s, step)) && !AcceptsCommand(s, step)
  {
    hide DrainStep, Store, Display;
  }

  lemma AcceptedIsBusy(cfg: Config, s: Session, step: Step)
    requires Fits(cfg, s) && AcceptsCommand(s, step)
    ensures Busy(Apply(cfg, s, step))
    ensures Apply(cfg, s, step).stdin ==
            s.stdin + (step.command + (if cfg.powershell && LF in step.command then [LF, LF] else [LF]))
    ensures Apply(cfg, s, step).buf == EMPTY && Apply(cfg, s, step).pendingCode.None?
  {
    assert step.command + [LF] + [] == step.command + [LF];
    assert step.command + [LF] + [LF] == step.command + [LF, LF];
  }

  /** The state in which step k of the run happens. */
  function StateAt(cfg: Config, s: Session, steps: seq<Step>, k: nat): (t: Session)
    requires Fits(cfg, s) && k <= |steps|
    ensures Fits(cfg, t)
    decreases k
  {
    if k == 0 then s else StateAt(cfg, Apply(cfg, s, steps[0]), steps[1..], k - 1)
  }

  /** From a busy state, a command is only accepted after a prompt was seen. */
  lemma {:induction false} BusyUntilPrompt(cfg: Config, s: Session, steps: seq<Step>, j: nat) returns (k: nat)
    requires Fits(cfg, s) && Busy(s) && Possible(cfg, s, steps) && j < |steps|
    requires AcceptsCommand(StateAt(cfg, s, steps, j), steps[j])
    ensures k < j && SeesPrompt(cfg, StateAt(cfg, s, steps, k), steps[k])
    decreases |steps|
  {
    hide Apply, Busy, SeesPrompt, AcceptsCommand, Enabled;
    if SeesPrompt(cfg, s, steps[0]) {
      k := 0;
      if j == 0 { AcceptsIsNoRead(cfg, s, steps[0]); }
    } else {
      BusyStep(cfg, s, steps[0]);
      assert j != 0;
      k := BusyUntilPrompt(cfg, Apply(cfg, s, steps[0]), steps[1..], j - 1);
      k := k + 1;
    }
  }

  lemma AcceptsIsNoRead(cfg: Config, s: Session, step: Step)
    ensures !(AcceptsCommand(s, step) && SeesPrompt(cfg, s, step))
  {
  }

  /** Between any two accepted commands of a run the drain thread sees a prompt:
      at most one command is ever in flight. */
  lemma {:induction false} OneInFlight(cfg: Config, s: Session, steps: seq<Step>, i: nat, j: nat) returns (k: nat)
    requires Fits(cfg, s) && Possible(cfg, s, steps) && i < j < |steps|
    requires AcceptsCommand(StateAt(cfg, s, steps, i), steps[i]) && AcceptsCommand(StateAt(cfg, s, steps, j), steps[j])
    ensures i < k < j && SeesPrompt(cfg, StateAt(cfg, s, steps, k), steps[k])
    decreases i
  {
    hide Apply, Busy, SeesPrompt, AcceptsCommand, Enabled;
    var t := Apply(cfg, s, steps[0]);
    if i == 0 {
      AcceptedIsBusy(cfg, s, steps[0]);
      k := BusyUntilPrompt(cfg, t, steps[1..], j - 1);
    } else {
      k := OneInFlight(cfg, t, steps[1..], i - 1, j - 1);
    }
    k := k + 1;
  }

  // ---------------------------------------------------------------- the buffer follows the drain thread

  /** The session's bounded buffer is the view of the unbounded one. */
  predicate Follows(cfg: Config, s: Session, p: Progress) {
    && s.carry == p.carry && Represents(cfg.sizes, s.buf, p.stored)
    && (p.codes != [] ==> s.promptSet && s.pendingCode == Some(p.codes[|p.codes| - 1]))
  }

  lemma FollowsStep(cfg: Config, s: Session, p: Progress, data: seq<Byte>)
    requires s.state != Init && Follows(cfg, s, p)
    ensures Fits(cfg, s)
    ensures var t, q := OnRead(cfg, s, data), Next(cfg.token, p, data);
            && t.state == s.state && t.lastCommand == s.lastCommand
            && (q.codes == p.codes ==> t.promptSet == s.promptSet)
            && Follows(cfg, t, q)
  {
    hide DrainStep, Store, Represents, OnInitRead;
    HeadBound(cfg.sizes, s.buf, p.stored);
    StoreRepresents(cfg.sizes, s.buf, p.stored, DrainStep(cfg.token, p.carry, data).stored);
  }

  lemma {:induction false} DrainFollows(cfg: Config, s: Session, p: Progress, chunks: seq<seq<Byte>>)
    requires s.state != Init && Follows(cfg, s, p) && forall c :: c in chunks ==> c != []
    ensures Fits(cfg, s) && DrainAll(cfg, s, chunks).state == s.state
    ensures Follows(cfg, DrainAll(cfg, s, chunks), Feed(cfg.token, p, chunks))
    decreases |chunks|
  {
    hide OnRead, Follows, Next;
    FollowsFits(cfg, s, p);
    if chunks != [] {
      assert chunks[0] in chunks && forall c :: c in chunks[1..] ==> c in chunks;
      FollowsStep(cfg, s, p, chunks[0]);
      DrainFollows(cfg, OnRead(cfg, s, chunks[0]), Next(cfg.token, p, chunks[0]), chunks[1..]);
    }
  }

  lemma FollowsFits(cfg: Config, s: Session, p: Progress)
    requires Follows(cfg, s, p)
    ensures Fits(cfg, s)
  {
  }

  /** When the stream ends before any prompt, the flush leaves nothing out: the buffer is the view of
      everything stored before and received since. */
  lemma EofFlush(cfg: Config, s: Session, before: seq<Byte>, chunks: seq<seq<Byte>>, rc: Option<int>)
    requires s.state != Init && Represents(cfg.sizes, s.buf, before) && Plain(s.carry)
    requires forall c :: c in chunks ==> c != [] && ESC !in c
    requires Feed(cfg.token, Progress(before, s.carry, []), chunks).codes == []
    ensures Fits(cfg, s)
    ensures var t := OnEof(cfg, DrainAll(cfg, s, chunks), rc);
            && t.state == Terminated && t.carry == []
            && Represents(cfg.sizes, t.buf, before + s.carry + MapCr(Flatten(chunks)))
  {
    hide DrainAll, Feed, Represents, Store, MapCr;
    var p := Progress(before, s.carry, []);
    DrainFollows(cfg, s, p, chunks);
    FeedConserves(cfg.token, p, chunks);
    var t, q := DrainAll(cfg, s, chunks), Feed(cfg.token, p, chunks);
    StoreRepresents(cfg.sizes, t.buf, q.stored, q.carry);
  }
}
