/** Whole runs of send and read calls against a well-behaved shell: every reply that reports completion
    carries the exit code and the output of the command it follows. */
module Attribution {
  import opened Seqs
  import opened PromptDrain
  import opened OutputBuffer
  import opened ShellSession
  import SessionSafety
  import opened SessionCalls
  import Handshake

  /** A command, and what the shell answers to it. */
  datatype Sent = Sent(command: seq<Byte>, out: seq<Byte>, code: int)

  /** The tool thread is idle, or inside a send waiting on the prompt event. */
  datatype Tool = Idle | Awaiting(maxOutput: int)

  /** The session, the bytes the shell has sent that the drain thread has not read yet, the tool thread, the last
      accepted command, and whether a send has already returned its completion. */
  datatype World = World(session: Session, pipe: seq<Byte>, tool: Tool, current: Option<Sent>, returned: bool)

  datatype Event =
    | Drain(n: nat)
    | Send(sent: Sent, wait: bool, maxOutput: int)
    | Finish(seen: bool)
    | Poll

  /** The shell is silent while ready and answers each command with escape-free output and one prompt,
      whose exit code the carry window has room for. */
  ghost predicate Enabled(cfg: Config, w: World, e: Event) {
    match e
    case Drain(n) => 0 < n <= |w.pipe|
    case Send(sent, _, _) =>
      w.tool.Idle? && GoodAnswer(cfg.token, sent.out, sent.code) && |Render(sent.code)| < SLACK
    case Finish(seen) => w.tool.Awaiting? && w.current.Some? && (seen ==> w.session.promptSet)
    case Poll => w.tool.Idle?
  }

  /** A shell answers a command once it has come in with its line end; PowerShell wants a second one after several lines. */
  predicate Arrives(cfg: Config, before: seq<Byte>, after: seq<Byte>, command: seq<Byte>) {
    after == before + command + (if cfg.powershell && LF in command then [LF, LF] else [LF])
  }

  /** The world after an event, and the reply a tool call returned in it. */
  ghost function Apply(cfg: Config, w: World, e: Event): (r: (World, Option<Reply>))
    requires Fits(cfg, w.session) && Enabled(cfg, w, e)
    ensures Fits(cfg, r.0.session)
  {
    match e
    case Drain(n) => (w.(session := OnRead(cfg, w.session, w.pipe[..n]), pipe := w.pipe[n..]), None)
    case Send(sent, wait, maxOutput) =>
      var (s, refused) := SendBegin(cfg, w.session, sent.command, true);
      var answer := if Arrives(cfg, w.session.stdin, s.stdin, sent.command) then Stream(cfg.token, sent.out, sent.code) else [];
      if refused.Some? then (w, refused)
      else
        (World(s, w.pipe + answer, if wait then Awaiting(maxOutput) else Idle, Some(sent), false),
         if wait then None else Some(Reply(StatusWaiting, None, None, None)))
    case Finish(seen) =>
      var (s, reply) := SendEnd(w.session, w.current.value.command, seen, w.tool.maxOutput);
      (w.(session := s, tool := Idle, returned := seen), Some(reply))
    case Poll =>
      var (s, reply) := ReadReply(cfg, w.session);
      (w.(session := s), Some(reply))
  }

  // ---------------------------------------------------------------- the invariant

  ghost predicate Good(cfg: Config, sent: Sent) {
    GoodAnswer(cfg.token, sent.out, sent.code) && |Render(sent.code)| < SLACK
  }

  function Received(cfg: Config, sent: Sent, pipe: seq<Byte>): int {
    |Stream(cfg.token, sent.out, sent.code)| - |pipe|
  }

  /** A command runs: the session is partway through its stream. */
  ghost predicate Running(cfg: Config, w: World, sent: Sent) {
    var s, n := w.session, Received(cfg, sent, w.pipe);
    && s.state == Waiting && !s.promptSet && !w.returned
    && 0 <= n < |Stream(cfg.token, sent.out, sent.code)| == |Clean(cfg.token, sent.out, sent.code)|
    && w.pipe == Stream(cfg.token, sent.out, sent.code)[n..]
    && s.carry == Partway(cfg.token, sent.out, sent.code, n).carry
    && Represents(cfg.sizes, s.buf, Partway(cfg.token, sent.out, sent.code, n).stored)
  }

  /** The command is complete: its code is pending, its output buffered until a send returns it. */
  ghost predicate Complete(cfg: Config, w: World, sent: Sent) {
    var s := w.session;
    && (s.state == Ready || (s.state == Waiting && !w.returned)) && s.promptSet && s.pendingCode == Some(sent.code)
    && w.pipe == [] && s.carry == []
    && Represents(cfg.sizes, s.buf, if w.returned then [] else MapCr(sent.out))
  }

  ghost predicate Fresh(w: World) {
    var s := w.session;
    && s.state == Ready && !s.promptSet && s.carry == [] && s.buf == EMPTY && s.lastCommand.None?
    && w.pipe == [] && w.tool == Idle && !w.returned
  }

  ghost predicate Inv(cfg: Config, w: World) {
    match w.current
    case None => Fresh(w)
    case Some(sent) =>
      && Good(cfg, sent)
      && w.session.lastCommand == Some(sent.command)
      && (Running(cfg, w, sent) || Complete(cfg, w, sent))
      && (w.tool.Awaiting? ==> w.session.state == Waiting)
  }

  /** What a reply must say, given the world its call found. */
  ghost predicate ReplyRight(cfg: Config, w: World, e: Event, reply: Reply) {
    match e
    case Drain(_) => false
    case Send(_, wait, _) =>
      // accepted without waiting, or refused because a command has not been seen to complete
      if w.session.state == Ready then !wait && reply == Reply(StatusWaiting, None, None, None)
      else reply == Reply(StatusError, Some(NOTHING), None, Some(Waiting)) && w.current.Some?
    case Finish(seen) =>
      w.current.Some? && w.tool.Awaiting? && CommandReply(cfg, w, w.tool.maxOutput, reply)
    case Poll =>
      if w.current.Some? then CommandReply(cfg, w, cfg.defaultMaxOutput, reply)
      else reply == Reply(StatusReady, Some(Display([], cfg.defaultMaxOutput, [])), None, None)
  }

  /** The session shows m bytes of the command's output; what was received beyond them fits the carry window. */
  ghost predicate ShowsPart(cfg: Config, w: World, sent: Sent, maxOutput: int, shown: Shown, m: nat) {
    && m <= |MapCr(sent.out)| && shown == Display(View(cfg.sizes, MapCr(sent.out)[..m]), maxOutput, sent.command)
    && (Received(cfg, sent, w.pipe) <= m + Window(cfg.token) || m == |sent.out|)
  }

  /** A ready reply has the command's own code and output, or no output when a send already returned it;
      a waiting reply has no code and shows the output received so far, up to the carry window. */
  ghost predicate CommandReply(cfg: Config, w: World, maxOutput: int, reply: Reply)
    requires w.current.Some?
  {
    var sent := w.current.value;
    && reply.refused.None? && reply.output.Some?
    && match reply.status
       case StatusReady =>
         && w.session.promptSet && reply.code == Some(sent.code)
         && reply.output.value ==
            Display(if w.returned then [] else View(cfg.sizes, MapCr(sent.out)), maxOutput, sent.command)
       case StatusWaiting =>
         && reply.code.None? && exists m: nat :: ShowsPart(cfg, w, sent, maxOutput, reply.output.value, m)
       case _ => false
  }

  // ---------------------------------------------------------------- every step keeps it

  lemma FitsInv(cfg: Config, w: World)
    requires Inv(cfg, w)
    ensures Fits(cfg, w.session)
  {
  }

  lemma DrainInv(cfg: Config, w: World, n: nat)
    requires Inv(cfg, w) && Enabled(cfg, w, Drain(n))
    ensures Fits(cfg, w.session) && Inv(cfg, Apply(cfg, w, Drain(n)).0)
  {
    hide GoodAnswer, Stream, Clean, Partway, Represents, OnRead, Render, MapCr;
    FitsInv(cfg, w);
    var sent := w.current.value;
    var tok, out, code := cfg.token, sent.out, sent.code;
    var stream, r, data := Stream(tok, out, code), Received(cfg, sent, w.pipe), w.pipe[..n];
    SliceOfSlice(stream, r, |stream|, 0, n);
    var p := Partway(tok, out, code, r);
    PartwaySilent(tok, out, code, r);
    SessionSafety.FollowsStep(cfg, w.session, p, data);
    if r + n < |stream| {
      StreamStepSilent(tok, out, code, r, data);
      PartwaySilent(tok, out, code, r + n);
      assert w.pipe[n..] == stream[r + n..];
    } else {
      SameLength(tok, out, code);
      StreamStepLast(tok, out, code, r, data);
    }
  }

  lemma SendInv(cfg: Config, w: World, sent: Sent, wait: bool, maxOutput: int)
    requires Inv(cfg, w) && Enabled(cfg, w, Send(sent, wait, maxOutput))
    ensures Fits(cfg, w.session)
    ensures var r := Apply(cfg, w, Send(sent, wait, maxOutput));
            Inv(cfg, r.0) && (r.1.Some? ==> ReplyRight(cfg, w, Send(sent, wait, maxOutput), r.1.value))
  {
    hide GoodAnswer, Stream, Clean, Represents, Render, MapCr, Display, CommandLine;
    FitsInv(cfg, w);
    if w.session.state == Ready { AcceptedSend(cfg, w.session, sent.command); }
    var stream := Stream(cfg.token, sent.out, sent.code);
    SameLength(cfg.token, sent.out, sent.code);
    EmptyRepresents(cfg.sizes);
    PartwayStart(cfg.token, sent.out, sent.code);
    assert w.session.state == Ready ==> w.pipe == [];
    assert [] + stream == stream == stream[0..];
  }

  lemma ShownComplete(cfg: Config, s: Session, out: seq<Byte>, returned: bool)
    requires Represents(cfg.sizes, s.buf, if returned then [] else MapCr(out))
    ensures s.buf.head + s.buf.tail == if returned then [] else View(cfg.sizes, MapCr(out))
  {
  }

  lemma ShownPart(cfg: Config, w: World, sent: Sent, maxOutput: int) returns (m: nat)
    requires w.current == Some(sent) && Good(cfg, sent) && (Running(cfg, w, sent) || (Complete(cfg, w, sent) && !w.returned))
    ensures ShowsPart(cfg, w, sent, maxOutput, Shows(w.session, maxOutput, Some(sent.command)), m)
  {
    hide GoodAnswer, Render, Display, Stream, Clean, MapCr;
    SameLength(cfg.token, sent.out, sent.code);
    CleanShape(cfg.token, sent.out, sent.code);
    if Running(cfg, w, sent) {
      m := WindowStart(cfg.token, Received(cfg, sent, w.pipe));
      assert Clean(cfg.token, sent.out, sent.code)[..m] == MapCr(sent.out)[..m];
    } else {
      m := |sent.out|;
      assert MapCr(sent.out)[..m] == MapCr(sent.out);
    }
  }

  lemma FinishInv(cfg: Config, w: World, seen: bool)
    requires Inv(cfg, w) && Enabled(cfg, w, Finish(seen))
    ensures Fits(cfg, w.session)
    ensures var r := Apply(cfg, w, Finish(seen));
            Inv(cfg, r.0) && r.1.Some? && ReplyRight(cfg, w, Finish(seen), r.1.value)
  {
    hide GoodAnswer, Render, Display, Represents, Stream, Clean, MapCr, Partway, ShowsPart;
    FitsInv(cfg, w);
    EmptyRepresents(cfg.sizes);
    var sent := w.current.value;
    if seen {
      ShownComplete(cfg, w.session, sent.out, w.returned);
    } else {
      var m := ShownPart(cfg, w, sent, w.tool.maxOutput);
      var reply := Apply(cfg, w, Finish(seen)).1.value;
      assert ShowsPart(cfg, w, sent, w.tool.maxOutput, reply.output.value, m);
    }
  }

  lemma PollInv(cfg: Config, w: World)
    requires Inv(cfg, w) && Enabled(cfg, w, Poll)
    ensures Fits(cfg, w.session)
    ensures var r := Apply(cfg, w, Poll);
            Inv(cfg, r.0) && r.1.Some? && ReplyRight(cfg, w, Poll, r.1.value)
  {
    hide GoodAnswer, Render, Display, Represents, Stream, Clean, MapCr, Partway, ShowsPart;
    FitsInv(cfg, w);
    if w.current.Some? {
      var sent := w.current.value;
      if w.session.promptSet {
        ShownComplete(cfg, w.session, sent.out, w.returned);
      } else {
        var m := ShownPart(cfg, w, sent, cfg.defaultMaxOutput);
        assert ShowsPart(cfg, w, sent, cfg.defaultMaxOutput, Apply(cfg, w, Poll).1.value.output.value, m);
      }
    } else {
      assert w.session.buf.head + w.session.buf.tail == [];
    }
  }

  // ---------------------------------------------------------------- whole runs

  ghost function Run(cfg: Config, w: World, events: seq<Event>): World
    requires Fits(cfg, w.session) && Possible(cfg, w, events)
    decreases |events|
  {
    if events == [] then w else Run(cfg, Apply(cfg, w, events[0]).0, events[1..])
  }

  ghost predicate Possible(cfg: Config, w: World, events: seq<Event>)
    requires Fits(cfg, w.session)
    decreases |events|
  {
    events == [] || (Enabled(cfg, w, events[0]) && Possible(cfg, Apply(cfg, w, events[0]).0, events[1..]))
  }

  lemma {:induction false} RunInv(cfg: Config, w: World, events: seq<Event>)
    requires Inv(cfg, w) && Fits(cfg, w.session) && Possible(cfg, w, events)
    ensures Inv(cfg, Run(cfg, w, events)) && Fits(cfg, Run(cfg, w, events).session)
    decreases |events|
  {
    hide Inv, Apply, Enabled;
    if events != [] {
      StepRight(cfg, w, events[0]);
      RunInv(cfg, Apply(cfg, w, events[0]).0, events[1..]);
    }
  }

  lemma StepRight(cfg: Config, w: World, e: Event)
    requires Inv(cfg, w) && Enabled(cfg, w, e)
    ensures Fits(cfg, w.session)
    ensures var r := Apply(cfg, w, e); Inv(cfg, r.0) && (r.1.Some? ==> ReplyRight(cfg, w, e, r.1.value))
  {
    hide Inv, Enabled, ReplyRight;
    FitsInv(cfg, w);
    match e
    case Drain(n) => DrainInv(cfg, w, n);
    case Send(sent, wait, maxOutput) => SendInv(cfg, w, sent, wait, maxOutput);
    case Finish(seen) => FinishInv(cfg, w, seen);
    case Poll => PollInv(cfg, w);
  }

  /** In every run from a fresh ready shell, under every split of the output into reads and every interleaving
      of the drain thread with the calls, every reply is right. */
  lemma EveryReplyIsRight(cfg: Config, w: World, events: seq<Event>, e: Event)
    requires Fresh(w) && w.current.None? && Fits(cfg, w.session)
    requires Possible(cfg, w, events) && Fits(cfg, Run(cfg, w, events).session) && Enabled(cfg, Run(cfg, w, events), e)
    ensures var now := Run(cfg, w, events); var reply := Apply(cfg, now, e).1;
            reply.Some? ==> ReplyRight(cfg, now, e, reply.value)
  {
    RunInv(cfg, w, events);
    StepRight(cfg, Run(cfg, w, events), e);
  }

  /** The world right after start-up, with all that the shell sent read, and no call made yet. */
  function AfterStart(cfg: Config, chunks: seq<seq<Byte>>): World {
    World(DrainAll(cfg, Created(), chunks), [], Idle, None, false)
  }

  /** So from the creation of a shell whose last start-up read ends in the prompt that completes the handshake. */
  lemma RightFromCreation(cfg: Config, chunks: seq<seq<Byte>>, events: seq<Event>, e: Event)
    requires Handshake.PromptLast(cfg.token, None, chunks)
    requires Possible(cfg, AfterStart(cfg, chunks), events)
    requires Fits(cfg, Run(cfg, AfterStart(cfg, chunks), events).session)
    requires Enabled(cfg, Run(cfg, AfterStart(cfg, chunks), events), e)
    ensures var now := Run(cfg, AfterStart(cfg, chunks), events); var reply := Apply(cfg, now, e).1;
            reply.Some? ==> ReplyRight(cfg, now, e, reply.value)
  {
    hide Handshake.PromptLast, DrainAll, Possible, Run, Enabled, Apply, ReplyRight;
    Handshake.FreshAfterPrompt(cfg, chunks);
    EveryReplyIsRight(cfg, AfterStart(cfg, chunks), events, e);
  }

  /** Once everything the shell sent has been read, a read call reports completion. */
  lemma AllReadThenReady(cfg: Config, w: World)
    requires Inv(cfg, w) && Enabled(cfg, w, Poll) && w.pipe == []
    ensures Fits(cfg, w.session) && Apply(cfg, w, Poll).1.value.status == StatusReady
  {
    hide GoodAnswer, Render, Display, Represents, Stream, Clean, Partway;
    PollInv(cfg, w);
  }

  /** In particular, a completion reports the command's exit code and the text it printed: all of it up to the limit,
      when the output fits the buffer. */
  lemma CompletionShowsText(
    cfg: Config, w: World, e: Event, before: seq<Byte>, text: seq<Byte>, after: seq<Byte>, maxOutput: int
  )
    requires Inv(cfg, w) && Enabled(cfg, w, e) && w.current.Some? && !w.returned
    requires (e == Finish(true) && w.tool == Awaiting(maxOutput)) || (e == Poll && w.session.promptSet && maxOutput == cfg.defaultMaxOutput)
    requires var sent := w.current.value;
             && sent.command != [] && MapCr(sent.out) == Echoed(sent.command, before, text, after)
             && |sent.out| <= cfg.sizes.head + cfg.sizes.tail && MarkerFree(MapCr(sent.out))
    requires AllLf(before) && AllLf(after) && (text != [] ==> text[0] != LF && text[|text| - 1] != LF)
    requires |text| <= maxOutput
    ensures Fits(cfg, w.session)
    ensures Apply(cfg, w, e).1 == Some(Reply(StatusReady, Some(Shown(None, text)), Some(w.current.value.code), None))
  {
    hide Inv, Display, View, Echoed, MarkerFree, Stream, Represents, GoodAnswer;
    StepRight(cfg, w, e);
    var sent := w.current.value;
    NoCrLeft(sent.out);
    TextShown(cfg.sizes, sent.command, before, text, after, maxOutput);
    InvAlive(cfg, w);
  }

  /** A read right after a send that returned its completion repeats the exit code, with no output. */
  lemma ReadAfterSend(cfg: Config, w: World, sent: Sent)
    requires Inv(cfg, w) && Enabled(cfg, w, Finish(true)) && w.current == Some(sent)
    ensures Fits(cfg, w.session)
    ensures var (after, reply) := Apply(cfg, w, Finish(true));
            && reply.Some? && reply.value.status == StatusReady && reply.value.code == Some(sent.code)
            && Enabled(cfg, after, Poll)
            && Apply(cfg, after, Poll).1 ==
               Some(Reply(StatusReady, Some(Display([], cfg.defaultMaxOutput, sent.command)), Some(sent.code), None))
            && Display([], cfg.defaultMaxOutput, sent.command).body == []
  {
    hide GoodAnswer, Render, Represents, Stream, Clean, MapCr, Partway, Display;
    FitsInv(cfg, w);
    ShowsNothing(cfg.defaultMaxOutput, sent.command);
    assert EMPTY.head + EMPTY.tail == [];
  }

  lemma ShowsNothing(maxOutput: int, command: seq<Byte>)
    ensures Display([], maxOutput, command).body == []
  {
  }

  lemma NoCrLeft(s: seq<Byte>)
    ensures CR !in MapCr(s) && |MapCr(s)| == |s|
  {
  }

  lemma InvAlive(cfg: Config, w: World)
    requires Inv(cfg, w)
    ensures w.session.state == Ready || w.session.state == Waiting
  {
  }
}
