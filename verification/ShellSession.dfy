/** A shell session: the state its tool calls, its drain thread and its init timer share.
    Each lock region and each drain iteration is one step. */
module ShellSession {
  import opened Seqs
  import opened PromptDrain
  import opened OutputBuffer

  datatype State = Init | Ready | Waiting | Terminated
  datatype ExitReason = Unknown | InitTimeout | Signal | Exit | BrokenPipe

  datatype Config = Config(token: seq<Byte>, sizes: Sizes, defaultMaxOutput: int, powershell: bool)

  datatype Session = Session(
    state: State,
    afterSetup: bool,
    carry: seq<Byte>,
    buf: Buffer,
    promptSet: bool,
    pendingCode: Option<int>,
    lastCommand: Option<seq<Byte>>,
    exitReason: ExitReason,
    lastExitCode: Option<int>,
    stdin: seq<Byte>
  )

  predicate Fits(cfg: Config, s: Session) { |s.buf.head| <= cfg.sizes.head }

  /** What a tool call returns. `refused` is the state a command was refused in. */
  datatype Status = StatusReady | StatusWaiting | StatusTerminated | StatusInit | StatusError
  datatype Reply = Reply(status: Status, output: Option<Shown>, code: Option<int>, refused: Option<State>)

  const NOTHING := Shown(None, [])
  const SETUP_OK: seq<Byte> := [83, 69, 84, 85, 80, 95, 79, 75]

  // ---------------------------------------------------------------- the drain thread

  /** What follows the first SETUP_OK, without leading line ends. */
  function AfterSetupOk(stripped: seq<Byte>): Option<seq<Byte>> {
    var idx := Find(stripped, SETUP_OK, 0);
    if idx.Some? then Some(LStripLf(stripped[idx.value + |SETUP_OK|..])) else None
  }

  /** What follows the first prompt. */
  function AfterPrompt(tok: seq<Byte>, stripped: seq<Byte>): Option<seq<Byte>> {
    var m := Search(tok, stripped, 0);
    if m.None? then None
    else
      PromptAtMatches(tok, stripped, m.value.start, m.value.bar);
      Some(stripped[m.value.bar + 1..])
  }

  function OnInitRead(cfg: Config, s: Session, data: seq<Byte>): Session {
    var stripped := Strip(s.carry + data);
    var rest := AfterSetupOk(stripped);
    var t := if rest.Some? then s.(buf := EMPTY, carry := rest.value, afterSetup := true) else s;
    if t.afterSetup then
      var next := AfterPrompt(cfg.token, stripped);
      if next.None? then t else t.(buf := EMPTY, state := Ready, carry := next.value, afterSetup := false)
    else t.(carry := [])
  }

  function OnRunRead(cfg: Config, s: Session, data: seq<Byte>): Session
    requires Fits(cfg, s)
  {
    var d := DrainStep(cfg.token, s.carry, data);
    var t := s.(buf := Store(cfg.sizes, s.buf, d.stored), carry := d.carry);
    if d.code.Some? then t.(pendingCode := d.code, promptSet := true) else t
  }

  function OnRead(cfg: Config, s: Session, data: seq<Byte>): (t: Session)
    requires Fits(cfg, s)
    ensures Fits(cfg, t)
  {
    if s.state == Init then OnInitRead(cfg, s, data) else OnRunRead(cfg, s, data)
  }

  /** The drain loop up to the end of the stream, which an empty read marks. */
  function DrainAll(cfg: Config, s: Session, chunks: seq<seq<Byte>>): (t: Session)
    requires Fits(cfg, s)
    ensures Fits(cfg, t)
    decreases |chunks|
  {
    if chunks == [] || chunks[0] == [] then s else DrainAll(cfg, OnRead(cfg, s, chunks[0]), chunks[1..])
  }

  function OnEof(cfg: Config, s: Session, rc: Option<int>): (t: Session)
    requires Fits(cfg, s)
    ensures Fits(cfg, t)
  {
    var t := s.(buf := Store(cfg.sizes, s.buf, s.carry), carry := [], state := Terminated, promptSet := true);
    if rc.None? then t
    else if rc.value < 0 then t.(exitReason := Signal, lastExitCode := Some(-rc.value))
    else t.(exitReason := Exit, lastExitCode := rc)
  }

  function OnInitTimer(s: Session): Session {
    if s.state == Init then s.(exitReason := InitTimeout, state := Terminated, promptSet := true) else s
  }

  // ---------------------------------------------------------------- tool calls

  function Shows(s: Session, maxOutput: int, command: Option<seq<Byte>>): Shown {
    Display(s.buf.head + s.buf.tail, maxOutput, if command.Some? then command.value else [])
  }

  /** The bytes a command is sent as. */
  function CommandLine(cfg: Config, command: seq<Byte>): seq<Byte> {
    command + [LF] + (if cfg.powershell && LF in command then [LF] else [])
  }

  predicate Accepts(s: Session, writeOk: bool) { s.state == Ready && writeOk }

  /** The locked part of send. A reply means the call ends here. */
  function SendBegin(cfg: Config, s: Session, command: seq<Byte>, writeOk: bool): (Session, Option<Reply>) {
    if s.state != Ready then (s, Some(Reply(StatusError, Some(NOTHING), None, Some(s.state))))
    else
      var t := s.(buf := EMPTY, promptSet := false, pendingCode := None, lastCommand := Some(command), state := Waiting);
      if writeOk then (t.(stdin := s.stdin + CommandLine(cfg, command)), None)
      else (t.(state := Terminated, exitReason := BrokenPipe), Some(Reply(StatusTerminated, Some(NOTHING), None, None)))
  }

  /** What send does after waiting on the prompt event; `seen` is what the wait returned. */
  function SendEnd(s: Session, command: seq<Byte>, seen: bool, maxOutput: int): (Session, Reply) {
    if seen then
      if s.state == Terminated then (s.(buf := EMPTY), Reply(StatusTerminated, Some(Shows(s, maxOutput, None)), None, None))
      else (s.(state := Ready, buf := EMPTY), Reply(StatusReady, Some(Shows(s, maxOutput, Some(command))), s.pendingCode, None))
    else (s, Reply(StatusWaiting, Some(Shows(s, maxOutput, Some(command))), None, None))
  }

  function ReadReply(cfg: Config, s: Session): (Session, Reply) {
    var output := Some(Shows(s, cfg.defaultMaxOutput, s.lastCommand));
    if s.state == Terminated then (s, Reply(StatusTerminated, output, None, None))
    else if s.state == Init then (s, Reply(StatusInit, output, None, None))
    else if s.promptSet then (s.(state := Ready), Reply(StatusReady, output, s.pendingCode, None))
    else (s, Reply(if s.state == Ready then StatusReady else StatusWaiting, output, None, None))
  }

  function WriteBytes(s: Session, data: seq<Byte>, writeOk: bool): (Session, nat) {
    if s.state == Terminated then (s, 0)
    else if writeOk then (s.(stdin := s.stdin + data), |data|)
    else (s.(state := Terminated), 0)
  }

  function OnClose(s: Session): Session { s.(state := Terminated, promptSet := true) }

  function Created(): Session {
    Session(Init, false, [], EMPTY, false, None, None, Unknown, None, [])
  }

  // ---------------------------------------------------------------- the object

  class ShellSession {
    const cfg: Config
    var state: State
    var afterSetup: bool
    var carry: seq<Byte>
    var head: seq<Byte>
    var tail: seq<Byte>
    var headDone: bool
    var promptSet: bool
    var pendingCode: Option<int>
    var lastCommand: Option<seq<Byte>>
    var exitReason: ExitReason
    var lastExitCode: Option<int>
    var stdin: seq<Byte>

    function Now(): Session
      reads this
    {
      Session(state, afterSetup, carry, Buffer(head, tail, headDone), promptSet, pendingCode, lastCommand,
              exitReason, lastExitCode, stdin)
    }

    ghost predicate Valid()
      reads this
    {
      |head| <= cfg.sizes.head
    }

    constructor (cfg: Config)
      ensures Valid() && this.cfg == cfg && Now() == Created()
    {
      this.cfg := cfg;
      state, afterSetup, carry := Init, false, [];
      head, tail, headDone := [], [], false;
      promptSet, pendingCode, lastCommand := false, None, None;
      exitReason, lastExitCode, stdin := Unknown, None, [];
    }

    method ClearBuffer()
      modifies this`head, this`tail, this`headDone
      ensures Valid() && Buffer(head, tail, headDone) == EMPTY
    {
      head, tail, headDone := [], [], false;
    }

    method StoreOutput(data: seq<Byte>)
      requires Valid()
      modifies this`head, this`tail, this`headDone
      ensures Valid()
      ensures Buffer(head, tail, headDone) == Store(cfg.sizes, old(Buffer(head, tail, headDone)), data)
    {
      if data == [] { return; }
      var rest := data;
      if !headDone {
        var remaining := cfg.sizes.head - |head|;
        var n := Min(remaining, |data|);
        head := head + data[..n];
        rest := data[n..];
        if rest != [] || remaining == 0 { headDone := true; }
      }
      tail := LastN(tail + rest, cfg.sizes.tail);
    }

    /** One iteration of the drain loop in the init state. */
    method DrainInit(data: seq<Byte>)
      requires Valid() && state == Init
      modifies this
      ensures Valid() && Now() == OnInitRead(cfg, old(Now()), data)
    {
      hide Strip, AfterSetupOk, AfterPrompt;
      var stripped := Strip(carry + data);
      var rest := AfterSetupOk(stripped);
      if rest.Some? {
        ClearBuffer();
        carry := rest.value;
        afterSetup := true;
      }
      if afterSetup {
        var next := AfterPrompt(cfg.token, stripped);
        if next.Some? {
          ClearBuffer();
          state := Ready;
          carry := next.value;
          afterSetup := false;
        }
        return;
      }
      carry := [];
    }

    /** One iteration of the drain loop. */
    method DrainRead(data: seq<Byte>)
      requires Valid()
      modifies this
      ensures Valid() && Now() == OnRead(cfg, old(Now()), data)
    {
      hide OnInitRead, DrainStep, Store;
      if state == Init {
        DrainInit(data);
        return;
      }
      var d := DrainStep(cfg.token, carry, data);
      StoreOutput(d.stored);
      carry := d.carry;
      if d.code.Some? {
        pendingCode := d.code;
        promptSet := true;
      }
    }

    lemma StoreNothing()
      requires Valid()
      ensures Store(cfg.sizes, Buffer(head, tail, headDone), []) == Buffer(head, tail, headDone)
    {
    }

    /** The end of the drain loop; rc is the process's exit status when it has one. */
    method DrainEof(rc: Option<int>)
      requires Valid()
      modifies this
      ensures Valid() && Now() == OnEof(cfg, old(Now()), rc)
    {
      hide Store;
      if carry != [] { StoreOutput(carry); } else { StoreNothing(); }
      carry := [];
      if rc.Some? {
        if rc.value < 0 {
          exitReason, lastExitCode := Signal, Some(-rc.value);
        } else {
          exitReason, lastExitCode := Exit, rc;
        }
      }
      state := Terminated;
      promptSet := true;
    }

    /** The whole drain thread, when nothing else runs in between. */
    method Drain(chunks: seq<seq<Byte>>, rc: Option<int>)
      requires Valid()
      modifies this
      ensures Valid() && Now() == OnEof(cfg, DrainAll(cfg, old(Now()), chunks), rc)
    {
      hide OnRead, OnEof;
      var k := 0;
      while k < |chunks| && chunks[k] != []
        invariant 0 <= k <= |chunks| && Valid()
        invariant DrainAll(cfg, Now(), chunks[k..]) == DrainAll(cfg, old(Now()), chunks)
      {
        assert chunks[k..][1..] == chunks[k + 1..];
        DrainRead(chunks[k]);
        k := k + 1;
      }
      DrainEof(rc);
    }

    method InitTimeoutKill()
      requires Valid()
      modifies this
      ensures Valid() && Now() == OnInitTimer(old(Now()))
    {
      if state == Init {
        exitReason := InitTimeout;
        state := Terminated;
        promptSet := true;
      }
    }

    method BeginSend(command: seq<Byte>, writeOk: bool) returns (reply: Option<Reply>)
      requires Valid()
      modifies this
      ensures Valid() && (Now(), reply) == SendBegin(cfg, old(Now()), command, writeOk)
    {
      hide CommandLine;
      if state != Ready {
        return Some(Reply(StatusError, Some(NOTHING), None, Some(state)));
      }
      ClearBuffer();
      promptSet := false;
      pendingCode := None;
      lastCommand := Some(command);
      state := Waiting;
      if !writeOk {
        state := Terminated;
        exitReason := BrokenPipe;
        return Some(Reply(StatusTerminated, Some(NOTHING), None, None));
      }
      stdin := stdin + CommandLine(cfg, command);
      return None;
    }

    method EndSend(command: seq<Byte>, seen: bool, maxOutput: int) returns (reply: Reply)
      requires Valid()
      modifies this
      ensures Valid() && (Now(), reply) == SendEnd(old(Now()), command, seen, maxOutput)
    {
      hide Display;
      if seen {
        if state == Terminated {
          reply := Reply(StatusTerminated, Some(Display(head + tail, maxOutput, [])), None, None);
          ClearBuffer();
          return;
        }
        state := Ready;
        reply := Reply(StatusReady, Some(Display(head + tail, maxOutput, command)), pendingCode, None);
        ClearBuffer();
        return;
      }
      reply := Reply(StatusWaiting, Some(Display(head + tail, maxOutput, command)), None, None);
    }

    method Read() returns (reply: Reply)
      requires Valid()
      modifies this
      ensures Valid() && (Now(), reply) == ReadReply(cfg, old(Now()))
    {
      hide Display;
      var output := Some(Display(head + tail, cfg.defaultMaxOutput, if lastCommand.Some? then lastCommand.value else []));
      if state == Terminated { return Reply(StatusTerminated, output, None, None); }
      if state == Init { return Reply(StatusInit, output, None, None); }
      if promptSet {
        state := Ready;
        return Reply(StatusReady, output, pendingCode, None);
      }
      return Reply(if state == Ready then StatusReady else StatusWaiting, output, None, None);
    }

    method WriteStdin(data: seq<Byte>, writeOk: bool) returns (written: nat)
      requires Valid()
      modifies this
      ensures Valid() && (Now(), written) == WriteBytes(old(Now()), data, writeOk)
    {
      if state == Terminated { return 0; }
      if !writeOk {
        state := Terminated;
        return 0;
      }
      stdin := stdin + data;
      return |data|;
    }

    method Close()
      requires Valid()
      modifies this
      ensures Valid() && Now() == OnClose(old(Now()))
    {
      state := Terminated;
      promptSet := true;
    }
  }
}
