# Verified model of sandbox-env-mcp

A Dafny model of the hard core of sandbox-env-mcp, the server that lets an agent drive persistent shells, containers
and files: the path from raw socket bytes to a command's reported result, the shell state machine, the machine and
shell registries under the `env` actions, file edits that keep line endings, paged reads, and paged audit queries.

`dafny verify dfyconfig.toml` checks everything. One module per component:

| module | what it models |
|---|---|
| `Seqs` | Python's `find` and slices, shared by the others |
| `Demux` | the loop that strips Docker's attach framing (`DockerExecProcess._demux_loop`) |
| `PromptDrain` | what one drain iteration does with a read, and what a series of reads adds up to |
| `Pipeline` | demultiplexer and drain thread together |
| `OutputBuffer` | the fixed head, the ring-buffer tail, and the text a call shows |
| `ShellSession` | the session object: state, buffer, prompt event, `send`, `read`, drain loop, init timer, close |
| `SessionSafety` | properties of a session in every interleaving of its steps |
| `SessionCalls` | what each call of a session sends, answers and leaves, and how a session ends |
| `Handshake` | how a new shell becomes ready: `SETUP_OK` and the first prompt |
| `Attribution` | whole runs of `send` and `read` against a well-behaved shell |
| `ShellRegistry`, `TargetRegistry` | the two registries |
| `SandboxEnv`, `EnvEffects` | the env actions over both registries and the Docker daemon, and what each changes |
| `FindReplace`, `LineEndings`, `FileOperations` | `str.replace`, line endings and BOMs, patch and write |
| `FileOutcomes` | what patch and write answer and leave on disk, case by case |
| `PagedRead`, `PageRows` | paged reads, following their hints, and what a page shows |
| `RegexNewline` | the escaped-newline test on search patterns |
| `AuditQuery` | audit queries and windows |

Objects whose methods update fields are classes (`ShellSession`, `ShellRegistry`, `TargetRegistry`, `SandboxEnv`,
`FileOperations`); each method is proved equal to a function on the object's value, and the properties are proved about
those functions and about runs of them. Each lock region of a session, each drain iteration and each timer check is one
step. The outcome of a write, a daemon call or a health check, the result of a timed wait and a generated shell id are
parameters. Bytes are integers from 0 to 255; text is a sequence of characters.

The wide claims that the code does not meet are stated with their exact conditions:

- A framed stream loses bytes exactly when a socket read ends 1 to 7 bytes into a frame header, because the leftover is
  dropped when the carry is reset (`LossIffHeaderCut`, `OneFrameTwoReads`); a loop that kept it would deliver every split
  right (`KeepingIsCorrect`). The exec is opened with a terminal, so its
  stream is unframed: it arrives whole exactly when every read is at least 8 bytes long and none starts with byte 1 or 2,
  which the loop takes for a frame type (`RawReads`).
- The carry window has room for a prompt with an exit code of up to 15 characters, and no more (`WindowIsExact`).
- A new shell becomes ready exactly when some read, joined to what the last read with `SETUP_OK` before it left, shows the
  prompt, and `SETUP_OK` was shown by then (`ReadyIff`, for any reads). With one read that shows `SETUP_OK`, that is when
  the prompt shows in it, or in what it left followed by some single later read (`HandshakeIff`). While no read alone
  shows `SETUP_OK`, nothing happens (`SetupMustBeWhole`). Start-up text in two reads that cut no escape sequence makes the
  shell ready exactly when the cut leaves some `SETUP_OK` whole (`HandshakeTwoReads`): always when the terminal echoes the
  set-up line (`EchoTwoReads`), and for a single `SETUP_OK` when the cut is not inside it (`OneSetupTwoReads`). When the
  read of `SETUP_OK` left nothing, the prompt is lost by any cut into two later reads (`FirstPromptMustBeWhole`).
- A `read` after a `send` that already returned a completion repeats the exit code with no output (`ReadAfterSend`).
- A limit of 0 shows everything (`BodyLimit`).
- LF normalisation is idempotent exactly on texts without CR CR LF (`LfIdempotentIff`).
- A written patch of a file where CRLF was detected is reported as persisted exactly when, in the parts of the file that
  are kept, every LF still has its CR: its own, or the end of the text now before it (`CrlfPatchPassesIff`). So a patch
  of a mixed file by a non-empty text, where neither text ends in CR, is reported as not persisted although it was
  written (`PlainPatchPassesIff`), and so is a patch of a uniform file by such a text that takes the CR off an LF
  (`CrEndingPatchPassesIff`, `CrEndingPatchFails`); a deletion in a mixed file can pass (`MixedDeletionPasses`).
- A read that times out passes for an empty file: a patch whose first read times out goes on to the write exactly when
  `old_string` is empty, and then replaces the whole file (`TimedOutRead`); one whose second read times out is reported as
  not persisted although it was written (`TimedOutReread`).
- Registry and daemon agree but for Docker machines whose removal raised after the container had gone, until they are
  next registered or unregistered (`EveryRun`). Where they agreed before, they still do right after such a removal exactly
  when the machine was on record with status error (`LateRaiseIff`, `LateRaiseRun`).
- `wc -l` does not count an unterminated last line, which paging misses exactly when it follows a full page
  (`PagesTileIff`).
- `count_shells` and `list_shells` disagree on an empty machine name (`CountIsListLength`).

## Model

| member | source | states |
|---|---|---|
| Demux.DemuxLoop | src/sandbox_mcp/backends/docker_backend.py:311-346 | the nested loops write what the recursive reference `Written` gives, for any reads, up to an empty one |
| Demux.ScanFrames | src/sandbox_mcp/backends/docker_backend.py:326-344 | from a frame boundary, one pass writes the stdout payloads of all whole frames, carries a partial frame and drops a partial header |
| Demux.DemuxCorrect | src/sandbox_mcp/backends/docker_backend.py:311-346 | for any frames and any split with no read ending inside a header, exactly the stdout payloads are written, in order |
| Demux.LossIffHeaderCut | src/sandbox_mcp/backends/docker_backend.py:326-344 | for any frames and any split, bytes are dropped if and only if some read ends 1 to 7 bytes into a frame |
| Demux.OneFrameTwoReads | src/sandbox_mcp/backends/docker_backend.py:326-344 | one output frame in two reads is delivered right if and only if the cut is not inside the header |
| Demux.RawReads | src/sandbox_mcp/backends/docker_backend.py:326-346 | for any non-empty reads of an unframed stream, it arrives whole if and only if every read has at least 8 bytes and none starts with byte 1 or 2 |
| Demux.RawPlainReads | src/sandbox_mcp/backends/docker_backend.py:326-346 | when no read starts with byte 1 or 2, exactly the reads of at least 8 bytes pass through |
| Demux.WrittenBound | src/sandbox_mcp/backends/docker_backend.py:326-346 | over any reads no more bytes are written than were received, and fewer once a read was carried over |
| Demux.WrittenSelects | src/sandbox_mcp/backends/docker_backend.py:326-346 | over any reads, what is written is some of the bytes received, in their order |
| Demux.KeepingIsCorrect | src/sandbox_mcp/backends/docker_backend.py:326-344 | with a leftover of 1 to 7 bytes kept in the carry, every split of every framed stream delivers exactly the stdout payloads |
| Demux.FramesThenRaw | src/sandbox_mcp/backends/docker_backend.py:329-344 | after whole frames in one buffer, bytes that start with no frame type are passed on as they are |
| Pipeline.FramedCommand | src/sandbox_mcp/backends/docker_backend.py:311-346 | a command's output in frames, cut clear of headers, then re-cut on the clean pipe, gives its exit code once and its output exactly |
| Pipeline.TerminalCommand | src/sandbox_mcp/shell_session.py:113-186 | the same for a terminal stream when every socket read is at least 8 bytes and does not look like a frame |
| PromptDrain.StripPieces | src/sandbox_mcp/shell_session.py:106-111 | stripping removes whole CSI and OSC sequences and nothing else |
| PromptDrain.StripWhole | src/sandbox_mcp/shell_session.py:108-111 | a read of text and whole escape sequences is stripped to its text, with CR mapped to LF |
| PromptDrain.EscapeIff | src/sandbox_mcp/shell_session.py:106 | a text starts with an escape sequence to remove if and only if it starts with a whole CSI or OSC sequence |
| PromptDrain.EscapesCut | src/sandbox_mcp/shell_session.py:108-111 | sequences are cut out where they stand, and all other bytes stay |
| PromptDrain.StripRead | src/sandbox_mcp/shell_session.py:108-125 | stripping carry plus an escape-free read leaves the carry alone and maps CR to LF in the read |
| PromptDrain.PromptAtMatches | src/sandbox_mcp/shell_session.py:53-55 | the left-to-right matcher finds a match at i ending at e if and only if token, colon, optional minus, digits and bar stand there |
| PromptDrain.ParseRender | src/sandbox_mcp/shell_session.py:153 | parsing the decimal text of any exit code gives that code |
| PromptDrain.MatchOnce | src/sandbox_mcp/shell_session.py:145-150 | in a command's stream the prompt pattern matches at the final prompt and nowhere else |
| PromptDrain.DetectedIff | src/sandbox_mcp/shell_session.py:145-155 | a read reports a prompt if and only if one stands on the last line, in what was carried and read, that is not blank |
| PromptDrain.FirstReported | src/sandbox_mcp/shell_session.py:145-155 | then the first prompt on that line gives the code, what came before it is stored, and what follows it is dropped |
| PromptDrain.StepSilent | src/sandbox_mcp/shell_session.py:145-184 | a read that leaves the prompt incomplete, or comes with the token out of the window, reports nothing and stores just what the window cannot hold |
| PromptDrain.StepLast | src/sandbox_mcp/shell_session.py:145-155 | the read that completes the prompt stores the rest of the output, reports the code and empties the carry, if the token is still in the window |
| PromptDrain.ChunkingIrrelevant | src/sandbox_mcp/shell_session.py:113-186 | for every split of output and prompt into non-empty reads, nothing is reported before the last read, which reports the exit code, and exactly the output is stored |
| PromptDrain.WindowIsExact | src/sandbox_mcp/shell_session.py:178-184 | every split is detected if and only if the exit code has at most 15 characters |
| PromptDrain.StepConserves | src/sandbox_mcp/shell_session.py:124-184 | without a match, stored bytes followed by the new carry are the old carry and the read; with a match the stored bytes are a prefix of them |
| PromptDrain.FeedConserves | src/sandbox_mcp/shell_session.py:124-184 | until a prompt is reported, stored bytes followed by the carry are everything received, and the carry fits the window |
| OutputBuffer.StoreRepresents | src/sandbox_mcp/shell_session.py:199-213 | a store call takes the buffer of any stored stream to the buffer of the extended stream |
| OutputBuffer.StoredCalls | src/sandbox_mcp/shell_session.py:199-213 | after any calls, head is the first bytes and tail the last bytes of the rest; together they are the stream if and only if it fits |
| OutputBuffer.BodyIsSuffix | src/sandbox_mcp/shell_session.py:328-338 | when the stream fits, or limit and final newlines fit the tail, the body is a contiguous end of the command's stream, up to final newlines: its last max_output bytes once the trimmed buffer has that many, else all of the trimmed buffer |
| OutputBuffer.BodyLimit | src/sandbox_mcp/shell_session.py:335-338 | the body respects the limit if and only if the limit is positive, or zero with nothing to show; a zero limit shows everything |
| OutputBuffer.TextShown | src/sandbox_mcp/shell_session.py:328-338 | of an echoed command whose output fits, the text is shown without echo and surrounding line ends, cut to its last characters only above the limit |
| OutputBuffer.EchoedShown | src/sandbox_mcp/shell_session.py:328-338 | whatever is in the buffer: without its markers and CRs, text after the echo is shown without surrounding line ends |
| OutputBuffer.UnechoedShown | src/sandbox_mcp/shell_session.py:328-338 | and text that does not start with the echo loses its surrounding line ends and nothing else |
| OutputBuffer.LimitExact | src/sandbox_mcp/shell_session.py:335-338 | what is shown for every integer limit, and when a banner gives limit and full length |
| OutputBuffer.RemoveCrExact | src/sandbox_mcp/shell_session.py:331 | removing CRs keeps all other bytes, in order |
| OutputBuffer.MarkerLongest | src/sandbox_mcp/shell_session.py:326 | a text starts with a marker of the longest length the pattern allows, or with none |
| OutputBuffer.MarkersCut | src/sandbox_mcp/shell_session.py:328-330 | markers are cut out where they stand, and other text stays |
| OutputBuffer.BytesOfCharacters | src/sandbox_mcp/shell_session.py:106-326 | the byte classes and marker texts are those of the characters in the patterns |
| ShellSession.ShellSession.StoreOutput | src/sandbox_mcp/shell_session.py:204-213 | the in-place update is the buffer function `Store` |
| ShellSession.ShellSession.DrainInit | src/sandbox_mcp/shell_session.py:127-143 | one iteration in the init state, with its whole new state |
| ShellSession.ShellSession.DrainRead | src/sandbox_mcp/shell_session.py:116-184 | one iteration in any state, with its whole new state |
| ShellSession.ShellSession.DrainEof | src/sandbox_mcp/shell_session.py:185-197 | the end of the loop: flush, exit reason, terminated, event set |
| ShellSession.ShellSession.Drain | src/sandbox_mcp/shell_session.py:113-197 | the whole loop is the fold of its iterations followed by the end |
| ShellSession.ShellSession.InitTimeoutKill | src/sandbox_mcp/shell_session.py:94-104 | the timer terminates a session still in init and touches no other |
| ShellSession.ShellSession.BeginSend | src/sandbox_mcp/shell_session.py:223-273 | refusals by state, or a cleared buffer and event, the command line on stdin and the waiting state; a broken pipe ends the session (what each means: `AcceptedSend`, `RefusedSend`) |
| ShellSession.ShellSession.EndSend | src/sandbox_mcp/shell_session.py:274-303 | what send returns and leaves after its wait, for either result of the wait |
| ShellSession.ShellSession.Read | src/sandbox_mcp/shell_session.py:305-321 | what read returns in each state, and that it acknowledges a set event |
| ShellSession.ShellSession.WriteStdin | src/sandbox_mcp/shell_session.py:340-350 | bytes written, or nothing when terminated, or termination on a broken pipe |
| ShellSession.ShellSession.Close | src/sandbox_mcp/shell_session.py:352-371 | terminated, with the event set |
| SessionSafety.TerminatedForever | src/sandbox_mcp/shell_session.py:94-104 | no run of steps leaves the terminated state |
| SessionSafety.EventHasCode | src/sandbox_mcp/shell_session.py:150-155 | in every run, a set event outside terminated comes with an exit code |
| SessionSafety.CreatedCoded | src/sandbox_mcp/shell_session.py:33-63 | so from creation on, in every interleaving |
| SessionSafety.OneInFlight | src/sandbox_mcp/shell_session.py:223-295 | between any two accepted commands of any run there is a step that sees a prompt |
| SessionSafety.AcceptedIsBusy | src/sandbox_mcp/shell_session.py:252-269 | accepting a command sends it with its line end, and a second one for several PowerShell lines, clears buffer and code, and leaves the session busy |
| SessionSafety.DrainFollows | src/sandbox_mcp/shell_session.py:150-184 | the bounded buffer stays the view of the unbounded stored stream, with the last reported code pending |
| SessionSafety.EofFlush | src/sandbox_mcp/shell_session.py:185-197 | at end of stream before any prompt, the buffer is the view of everything received and the carry is empty |
| SessionCalls.AcceptedSend | src/sandbox_mcp/shell_session.py:252-266 | an accepted command goes out followed by LF, and by a second LF if and only if the shell is PowerShell and the command holds LF; the new state is given field by field |
| SessionCalls.RefusedSend | src/sandbox_mcp/shell_session.py:223-273 | any other send writes nothing: it is refused and changes nothing, or breaks the pipe and ends the session |
| SessionCalls.LinesSent | src/sandbox_mcp/shell_session.py:252-266 | in every run of one-line sends, in any interleaving, the lines on stdin are the accepted commands, each once and in order, and none is unfinished |
| SessionCalls.StdinWritten | src/sandbox_mcp/shell_session.py:340-350 | the bytes go out unchanged and are counted, or none do and the session is terminated |
| SessionCalls.InitCalls | src/sandbox_mcp/shell_session.py:233-241 | in the init state a send is refused and changes nothing, and read says so |
| SessionCalls.TerminatedCalls | src/sandbox_mcp/shell_session.py:220-321 | in every run after termination nothing goes out, sends are refused, and read and a waiting send answer terminated, with the buffered text and no code |
| SessionCalls.WaitRunsOut | src/sandbox_mcp/shell_session.py:296-303 | a send whose wait runs out says waiting, with the buffered text, and changes nothing |
| SessionCalls.EndingStep | src/sandbox_mcp/shell_session.py:94-104 | a step terminates a session if and only if it is the end of the stream, close, the timer in init, or a broken pipe; with event, exit reason and exit code |
| SessionCalls.TerminatedIff | src/sandbox_mcp/shell_session.py:94-197 | in every run, the session has terminated if and only if some step ended it |
| SessionCalls.ExitReasonRight | src/sandbox_mcp/shell_session.py:185-197 | in every run, the exit reason is the last cause |
| SessionCalls.InitRead | src/sandbox_mcp/shell_session.py:127-143 | any read in the init state: nothing is stored, and what is kept and cleared |
| SessionCalls.QuietRead | src/sandbox_mcp/shell_session.py:178-184 | a read that shows no prompt changes buffer and carry only |
| SessionCalls.EmptyReadEnds | src/sandbox_mcp/shell_session.py:115-122 | an empty read ends the loop, and nothing after it is looked at |
| Handshake.ReadyIff | src/sandbox_mcp/shell_session.py:113-143 | for any reads, a new shell becomes ready if and only if some read, joined to what the last read with SETUP_OK before it left, shows the prompt, and SETUP_OK was shown by then |
| Handshake.HandshakeIff | src/sandbox_mcp/shell_session.py:113-143 | when one read shows SETUP_OK, the shell becomes ready if and only if the prompt shows in that read, or in what it left followed by some single later read |
| Handshake.SetupMustBeWhole | src/sandbox_mcp/shell_session.py:127-143 | while no read alone shows SETUP_OK, the session stays as created |
| Handshake.HandshakeTwoReads | src/sandbox_mcp/shell_session.py:113-143 | start-up text with a prompt after every SETUP_OK, in two reads that cut no escape sequence, makes the shell ready if and only if the cut leaves some SETUP_OK whole |
| Handshake.EchoTwoReads | src/sandbox_mcp/shell_providers/bash_provider.py:108-109 | when the echoed set-up line shows SETUP_OK too, no cut of that text into two reads does harm |
| Handshake.OneSetupTwoReads | src/sandbox_mcp/shell_session.py:113-143 | when SETUP_OK occurs once, the shell becomes ready if and only if the cut is not inside it |
| Handshake.FreshTwoReads | src/sandbox_mcp/shell_session.py:113-143 | when the only prompt ends the text, the session is then as created but ready, again if and only if some SETUP_OK is whole |
| Handshake.FreshAfterPrompt | src/sandbox_mcp/shell_session.py:127-143 | for any reads of which the last, and no earlier one, completes the handshake and ends in the prompt, the session is as created but ready |
| Handshake.FirstPromptMustBeWhole | src/sandbox_mcp/shell_session.py:127-143 | when the read of SETUP_OK left nothing, the first prompt makes the shell ready when read whole, and is lost by any cut into two reads |
| Handshake.SetupLeaves | src/sandbox_mcp/shell_session.py:128-133 | what follows the first SETUP_OK is kept without the line ends in front |
| Handshake.PromptLeaves | src/sandbox_mcp/shell_session.py:134-140 | what follows the first prompt is kept |
| Attribution.DrainInv | src/sandbox_mcp/shell_session.py:113-184 | a read of any length keeps the run invariant: running partway through the command's stream, or complete |
| Attribution.EveryReplyIsRight | src/sandbox_mcp/shell_session.py:220-321 | in every run from a fresh ready shell, each completion carries the command's own code and the view of exactly its output, each waiting reply a part of it no further behind than the window |
| Attribution.RightFromCreation | src/sandbox_mcp/shell_session.py:113-321 | the same from the creation of the session, through any start-up reads that end in the prompt |
| Attribution.AllReadThenReady | src/sandbox_mcp/shell_session.py:305-321 | once everything sent was read, a read call reports completion |
| Attribution.CompletionShowsText | src/sandbox_mcp/shell_session.py:276-338 | a completion reports the code and, when the output fits, exactly the printed text |
| Attribution.ReadAfterSend | src/sandbox_mcp/shell_session.py:276-321 | a read right after a send that returned its completion reports completion again, with the same exit code and no output |
| ShellRegistry.ShellRegistry.Open | src/sandbox_mcp/shell_registry.py:35-52 | an unhealthy session changes nothing; a healthy one is added last under the new id |
| ShellRegistry.ShellRegistry.Close | src/sandbox_mcp/shell_registry.py:62-71 | removes the shell, and the machine's default when it was that shell |
| ShellRegistry.ShellRegistry.GetOrCreateDefault | src/sandbox_mcp/shell_registry.py:73-80 | the live default, or a new shell made the default |
| ShellRegistry.ShellRegistry.SetDefault | src/sandbox_mcp/shell_registry.py:82-88 | makes a known shell the default of its machine |
| ShellRegistry.OpenEffect | src/sandbox_mcp/shell_registry.py:35-52 | a healthy session is added last with its machine and purpose; no default changes; an unhealthy one changes nothing |
| ShellRegistry.CloseEffect | src/sandbox_mcp/shell_registry.py:62-71 | exactly that shell goes, the others keep their order, and a default goes if and only if it was this shell |
| ShellRegistry.DefaultEffect | src/sandbox_mcp/shell_registry.py:73-80 | the live default as it is, else a new last shell that becomes this machine's default, and no other default changes |
| ShellRegistry.ChooseEffect | src/sandbox_mcp/shell_registry.py:82-88 | the shell becomes the default of its own machine; an unknown one changes nothing |
| ShellRegistry.ShellRegistry.ListShells | src/sandbox_mcp/shell_registry.py:90-111 | the loop builds the rows of the listed shells, in registration order |
| ShellRegistry.ShellRegistry.CountShells | src/sandbox_mcp/shell_registry.py:113-122 | the count of the machine's shells, or of all |
| ShellRegistry.ShellRegistry.CloseAllForMachine | src/sandbox_mcp/shell_registry.py:124-129 | the loop of single closes removes exactly the machine's shells at once and returns their number |
| ShellRegistry.CloseMachineRest | src/sandbox_mcp/shell_registry.py:124-129 | every other machine's shells are unchanged and the machine's default is gone |
| ShellRegistry.ClosedIsCounted | src/sandbox_mcp/shell_registry.py:113-129 | the number closed is what count_shells gives |
| ShellRegistry.CountIsListLength | src/sandbox_mcp/shell_registry.py:90-122 | counting equals the length of the listing if and only if the name is non-empty or all shells are on the empty name |
| ShellRegistry.RowsFaithful | src/sandbox_mcp/shell_registry.py:90-111 | the rows are exactly the machine's shells, each once |
| ShellRegistry.RowFields | src/sandbox_mcp/shell_registry.py:90-111 | a row is in the listing if and only if it has the fields of a shell of the machine, and its default mark says whether the machine has it as default |
| ShellRegistry.RowsConcat | src/sandbox_mcp/shell_registry.py:90-111 | rows come in registration order |
| ShellRegistry.OneDefault | src/sandbox_mcp/shell_registry.py:103 | at most one listed shell of a machine is marked default |
| ShellRegistry.DefaultShellStable | src/sandbox_mcp/shell_registry.py:73-80 | a default shell is a live shell of its machine, listed as default, and returned again by every later call |
| ShellRegistry.CountsAddUp | src/sandbox_mcp/shell_registry.py:113-122 | the counts over machines that hold all shells add up to the number of shells |
| TargetRegistry.TargetRegistry.Register | src/sandbox_mcp/target_registry.py:54-65 | records or replaces the machine, and makes it the default when there is none |
| TargetRegistry.TargetRegistry.Adopt | src/sandbox_mcp/target_registry.py:67-85 | adds an unknown machine; a known one is left as it is |
| TargetRegistry.TargetRegistry.Unregister | src/sandbox_mcp/target_registry.py:87-93 | removes the machine; a removed default passes to the first remaining one |
| TargetRegistry.TargetRegistry.SetDefault | src/sandbox_mcp/target_registry.py:107-110 | only a registered machine becomes the default |
| TargetRegistry.TargetRegistry.ResolveMachine | src/sandbox_mcp/target_registry.py:115-127 | the default for no name, a registered name as it is, otherwise nothing |
| TargetRegistry.DropKeeps | src/sandbox_mcp/target_registry.py:87-93 | after unregistering, the default is still registered, or none when nothing is left |
| TargetRegistry.AddEffect | src/sandbox_mcp/target_registry.py:54-65 | the name gets the machine, a new name comes last, a missing default is filled |
| TargetRegistry.AdoptEffect | src/sandbox_mcp/target_registry.py:67-85 | an unknown name is added with what is reported of it; a known one is left alone |
| TargetRegistry.DropEffect | src/sandbox_mcp/target_registry.py:87-93 | exactly that machine goes, the order of the others stays, and a removed default passes to the first of those left |
| TargetRegistry.ResolveEffect | src/sandbox_mcp/target_registry.py:115-127 | a machine is resolved if and only if it is the default and none is named, or it is named and registered |
| SandboxEnv.SandboxEnv.OpShellNew | src/sandbox_mcp/sandbox_env.py:642-671 | a healthy shell is added last under the new id on the named or default machine; an unknown machine, a failed start or an unhealthy shell changes neither registry |
| SandboxEnv.SandboxEnv.OpShellRemove | src/sandbox_mcp/sandbox_env.py:673-678 | the shell is gone, and the default of its machine when it was that shell; other shells and the machines are unchanged |
| SandboxEnv.SandboxEnv.OpDefaultSet | src/sandbox_mcp/sandbox_env.py:627-640 | given exactly one of the two, a registered machine becomes the default machine, or a known shell the default of its machine; otherwise nothing changes |
| SandboxEnv.SandboxEnv.OpDockerRun | src/sandbox_mcp/sandbox_env.py:685-701 | the new registry and daemon for every outcome of create, reattaching included |
| SandboxEnv.CreateKeeps | src/sandbox_mcp/backends/docker_backend.py:543-670 | create changes no existing container, and a status other than error comes with a container labelled with the reported purpose |
| SandboxEnv.SandboxEnv.OpDockerStop | src/sandbox_mcp/sandbox_env.py:775-778 | closes the machine's shells and changes nothing else |
| SandboxEnv.SandboxEnv.OpDockerRemove | src/sandbox_mcp/sandbox_env.py:784-789 | closes the shells, then removes the container and unregisters; when the removal raises, the machine stays registered, whether the container went or not |
| SandboxEnv.SandboxEnv.OpDockerPs | src/sandbox_mcp/sandbox_env.py:805-837 | the loop of adopts over the listing |
| SandboxEnv.SandboxEnv.OpConnect | src/sandbox_mcp/sandbox_env.py:894-926 | registers the target and makes its default shell when it runs |
| SandboxEnv.SandboxEnv.OpClose | src/sandbox_mcp/sandbox_env.py:928-942 | the same for a machine of either backend |
| SandboxEnv.SandboxEnv.ExecDefaultShell | src/sandbox_mcp/server.py:580-611 | finds or creates the default shell of the resolved machine |
| SandboxEnv.SandboxEnv.ProvisionDefaultMachine | src/sandbox_mcp/server.py:430-509 | reuses the machine, or creates it in Docker or over SSH, and makes it the default when it runs; otherwise the server refuses to start |
| SandboxEnv.ActInv | src/sandbox_mcp/sandbox_env.py:627-942 | every action keeps the cross-registry invariant |
| SandboxEnv.ActCached | src/sandbox_mcp/sandbox_env.py:627-942 | every action keeps registry and daemon in agreement, but for machines whose removal raised after the container had gone and that were not registered or unregistered since |
| SandboxEnv.EveryRun | src/sandbox_mcp/sandbox_env.py:627-942 | in every run: shells on registered machines, live defaults of their own machine, a registered default machine unless there is none, and, but for the lost machines, non-error Docker machines that exist with their recorded purpose |
| SandboxEnv.NothingLost | src/sandbox_mcp/sandbox_env.py:627-942 | in a run without a removal that raises late, that agreement holds for every machine |
| SandboxEnv.LateRaiseIff | src/sandbox_mcp/backends/docker_backend.py:768-775 | after docker_remove or close raises with the container gone, registry and daemon agree if and only if the machine's recorded status is error |
| SandboxEnv.LateRaiseRun | src/sandbox_mcp/sandbox_env.py:784-789 | a concrete run after which a machine is registered as running and has no container |
| SandboxEnv.DockerPsRefreshes | src/sandbox_mcp/sandbox_env.py:793-837 | docker_ps keeps known machines, adds exactly the missing labelled containers, and does nothing when repeated |
| SandboxEnv.ProvisionInv | src/sandbox_mcp/server.py:430-509 | provisioning keeps the invariant, and a started server has the configured default |
| SandboxEnv.CountsCoverShells | src/sandbox_mcp/sandbox_env.py:542-559 | the counts machine_list shows add up to all shells |
| EnvEffects.ShellNewEffect | src/sandbox_mcp/sandbox_env.py:642-671 | an opened healthy shell is added last on the named registered machine, or on the default when none is named, with its purpose; all else is unchanged, and everything when the machine is unknown or the shell fails |
| EnvEffects.ShellRemoveEffect | src/sandbox_mcp/sandbox_env.py:673-678 | exactly that shell and a default that was it go; machines and daemon stay |
| EnvEffects.DefaultSetEffect | src/sandbox_mcp/sandbox_env.py:627-640 | a registered machine becomes the default, or a registered shell its machine's default; both, neither or an unknown one change nothing |
| EnvEffects.ExecDefaultEffect | src/sandbox_mcp/server.py:580-611 | the named machine's default shell is found or made last; nothing else changes |
| EnvEffects.DockerStopEffect | src/sandbox_mcp/sandbox_env.py:775-778 | the named Docker machine's shells and default go; nothing else changes |
| EnvEffects.DockerRemoveEffect | src/sandbox_mcp/sandbox_env.py:784-789 | its shells go in any case, it is unregistered unless the removal raises, and its container goes when the daemon removed it |
| EnvEffects.CloseActionEffect | src/sandbox_mcp/sandbox_env.py:928-942 | the same for a registered machine of either backend; nothing for other names |
| EnvEffects.DockerRunEffect | src/sandbox_mcp/sandbox_env.py:685-701 | for every outcome: what is on record of the machine, and the container made or reattached |
| EnvEffects.DockerPsEffect | src/sandbox_mcp/sandbox_env.py:805-837 | every machine added is on record with the state listed and the purpose on its label |
| EnvEffects.ConnectEffect | src/sandbox_mcp/sandbox_env.py:894-926 | the target is on record with the status reported, and has a default shell when it runs; otherwise nothing changes |
| EnvEffects.ProvisionEffect | src/sandbox_mcp/server.py:430-509 | what is on record for each backend and outcome, and that the server starts if and only if the machine is known or runs |
| FindReplace.PartsSound | src/sandbox_mcp/file_operations.py:604-616 | text is the parts joined by the match, result the same parts joined by the replacement, matches one fewer than parts |
| FindReplace.PartsLeftmost | src/sandbox_mcp/file_operations.py:604-616 | each part is followed by the leftmost match there is, and none contains one |
| FindReplace.PartsUnique | src/sandbox_mcp/file_operations.py:604-616 | no other cut of the text has that shape |
| FindReplace.ReplaceLength | src/sandbox_mcp/file_operations.py:616 | the length changes by matches times the difference of the lengths |
| FindReplace.CountOccurs | src/sandbox_mcp/file_operations.py:604-613 | the count is positive if and only if the pattern occurs |
| LineEndings.LfOfInsertCr | src/sandbox_mcp/file_operations.py:75-79 | on every text, LF normalisation undoes inserting a CR before every LF, which leaves no bare LF |
| LineEndings.CrlfFixesUniform | src/sandbox_mcp/file_operations.py:75-79 | CRLF normalisation changes nothing if and only if every LF is preceded by CR |
| LineEndings.CrlfIdempotent | src/sandbox_mcp/file_operations.py:75-79 | CRLF normalisation leaves no bare LF and is idempotent |
| LineEndings.LfIdempotentIff | src/sandbox_mcp/file_operations.py:77-78 | LF normalisation is idempotent on a text if and only if CR CR LF does not occur in it |
| FileOperations.FileOperations.Patch | src/sandbox_mcp/file_operations.py:592-651 | result and files after every outcome of read, write and re-read (what each means: `PlanFor`, `NoMatchIff`, `PatchRefused`, `PatchAnswer`) |
| FileOperations.FileOperations.Overwrite | src/sandbox_mcp/file_operations.py:478-572 | result and files after every outcome of lint, probe, write and re-read (what each means: `SentPlain`, `SentCrlf`, `WriteAnswer`) |
| FileOperations.PatchIsJoin | src/sandbox_mcp/file_operations.py:599-625 | what is written is the file's parts joined by the new text, with BOM and final line end; without replace_all there is one match |
| FileOutcomes.PlanFor | src/sandbox_mcp/file_operations.py:599-625 | what is searched for is the normalised old_string whenever it occurs, else the suggestion; a patch reaches the write if and only if replace_all is set or there is one match, and is otherwise refused with their number; what it writes is given character by character |
| FileOutcomes.NoMatchIff | src/sandbox_mcp/file_operations.py:605-613 | no match is reported if and only if the normalised old_string does not occur and there is no suggestion to use |
| FileOutcomes.EmptyOldString | src/sandbox_mcp/file_operations.py:605-625 | an empty old_string is replaced at every place if and only if replace_all is set or the file is empty |
| FileOutcomes.InterleaveExact | src/sandbox_mcp/file_operations.py:616 | replacing the empty text puts the new one before every character and at the end |
| FileOutcomes.PatchRefused | src/sandbox_mcp/file_operations.py:596-615 | an unreadable file or a refused plan changes nothing |
| FileOutcomes.PatchAnswer | src/sandbox_mcp/file_operations.py:627-651 | the files after the write, and success if and only if it is reported done and the text read back is the one sent up to a BOM |
| FileOperations.PatchKeepsCrlf | src/sandbox_mcp/file_operations.py:599-647 | patching a uniform CRLF file with an old_string not ending in CR writes a uniform text ending in CRLF with its BOM, which passes the check |
| FileOperations.CrlfCheckIff | src/sandbox_mcp/file_operations.py:643-647 | re-read as written, a patch of a CRLF file passes if and only if the written text has no bare LF |
| FileOperations.CrlfPatchPassesIff | src/sandbox_mcp/file_operations.py:599-647 | on any CRLF-detected file, for any non-empty old_string and any new_string, a written patch passes the check if and only if every LF of the kept parts still has its CR |
| FileOperations.PlainPatchPassesIff | src/sandbox_mcp/file_operations.py:599-647 | for a non-empty new_string, neither text ending in CR, that is the case if and only if the file was uniform |
| FileOperations.CrEndingPatchPassesIff | src/sandbox_mcp/file_operations.py:599-647 | on a uniform file, for a non-empty new_string not ending in CR, it is the case if and only if no match is followed by LF |
| FileOperations.CrEndingPatchFails | src/sandbox_mcp/file_operations.py:599-647 | a concrete patch that is written and yet reported as not persisted |
| FileOperations.MixedDeletionPasses | src/sandbox_mcp/file_operations.py:599-647 | a concrete deletion in a mixed file that passes, because it brings a CR and an LF together |
| FileOperations.PatchOutcome | src/sandbox_mcp/file_operations.py:592-651 | with a faithful backend, a patch that reaches the write leaves exactly the planned text, and succeeds unless CRLF was detected and a kept LF lost its CR |
| LineEndings.JoinUniformIff | src/sandbox_mcp/file_operations.py:612-622 | a text joined by any uniform separator, empty or ending in CR included, is uniform if and only if its parts keep their CRs |
| FileOperations.PatchSucceeds | src/sandbox_mcp/file_operations.py:592-651 | with a faithful backend, a patch that reaches the write succeeds on LF files and uniform CRLF files, leaving exactly the planned text |
| FileOperations.TimedOutRead | src/sandbox_mcp/file_operations.py:595-615 | a patch whose first read times out finds no match if old_string is not empty, and else overwrites the file with the new text |
| FileOperations.TimedOutReread | src/sandbox_mcp/file_operations.py:639-647 | a written patch whose second read times out is always reported as not persisted |
| FileOperations.TimedOutWriteCheck | src/sandbox_mcp/file_operations.py:535-549 | after a write, such a read passes the check if and only if the content is nothing but line ends and a BOM |
| FileOperations.WriteKeeps | src/sandbox_mcp/file_operations.py:503-517 | writing over a file keeps CRLF endings and its BOM, with no second BOM added |
| FileOutcomes.SentPlain | src/sandbox_mcp/file_operations.py:503-517 | for a new file or one without CRLF the text sent is the content, with a BOM in front if and only if the file has one and the content none |
| FileOutcomes.SentCrlf | src/sandbox_mcp/file_operations.py:503-517 | for a CRLF file it is uniform, and without BOM and CRs it is the content without them |
| FileOutcomes.WriteLands | src/sandbox_mcp/file_operations.py:503-549 | a fault-free write succeeds and leaves that on disk |
| FileOutcomes.WriteAnswer | src/sandbox_mcp/file_operations.py:478-549 | a lint refusal changes nothing; else the files after the write, and success if and only if it is reported done and what is read back agrees up to line ends and a BOM |
| FileOperations.WriteCheckIff | src/sandbox_mcp/file_operations.py:535-555 | without lone CRs, the check accepts a re-read if and only if it differs only in CRLF versus LF, final newlines and a leading BOM |
| FileOperations.WriteSucceeds | src/sandbox_mcp/file_operations.py:519-572 | so such a re-read makes the write succeed |
| PagedRead.LineTextsShape | src/sandbox_mcp/shell_providers/bash_provider.py:32-44 | the lines put together are the file, and wc counts all of them but an unterminated last one |
| PagedRead.SplitRun | src/sandbox_mcp/file_operations.py:418-426 | splitting printed lines at newlines gives them back, with an empty row after a terminated last one |
| PagedRead.PageBody | src/sandbox_mcp/file_operations.py:344-436 | when no line starts with a BOM, a page holds exactly the requested lines under their own numbers, with the right total and truncation flag |
| PagedRead.PagesTileIff | src/sandbox_mcp/file_operations.py:408-426 | following the hints terminates and gives every line once, in order, if and only if the last line is terminated, alone, or not right after a full page; otherwise just that line is missing |
| PageRows.RowShows | src/sandbox_mcp/file_operations.py:418-426 | row i has its line's number, and shows the line whole up to the maximal length, else its first characters and a mark |
| PageRows.PageRowsExact | src/sandbox_mcp/file_operations.py:418-426 | besides its lines a page has one empty row if and only if its last line is terminated or it has none |
| PageRows.WholeFile | src/sandbox_mcp/file_operations.py:344-436 | when no line is too long and the last is terminated, the row texts of all pages joined by line ends are the file, numbered from 1 |
| PageRows.PageSizeIs | src/sandbox_mcp/file_operations.py:347-350 | the page size is the requested or configured limit brought between 1 and the maximum |
| PageRows.PageKinds | src/sandbox_mcp/file_operations.py:344-377 | an unreadable path, a file over the limit, and an offset below 1 |
| PageRows.PastTheEnd | src/sandbox_mcp/file_operations.py:352-426 | a page past the end has one empty row |
| PageRows.BomHidden | src/sandbox_mcp/file_operations.py:404-407 | a BOM at the start of a file is neither shown nor counted |
| RegexNewline.RegexAgreesWithScanner | src/sandbox_mcp/file_operations.py:258-263 | the test fires if and only if there is a real newline or a left-to-right escape scanner meets an escaped n, that is an n after an odd run of backslashes |
| AuditQuery.QueryCounts | src/sandbox_mcp/audit.py:237-302 | records are the reported window of the filtered tail, in id order, counts are bounded, and the handler's window is as long as the records |
| AuditQuery.PagesTile | src/sandbox_mcp/server.py:708-735 | consecutive windows put together are the whole filtered tail |
| AuditQuery.TailIsSuffix | src/sandbox_mcp/audit.py:270-284 | a query lists the end of what an unlimited tail would list |
| AuditQuery.FilteredExact | src/sandbox_mcp/audit.py:248-265 | filtering keeps exactly the matching rows, in id order |
| AuditQuery.KeepsExactly | src/sandbox_mcp/audit.py:248-265 | a row matches if and only if it has every name asked for and since <= ts < until |
| AuditQuery.RefusedIff | src/sandbox_mcp/audit.py:237-271 | a query is refused if and only if tail, start or end is out of range; the default window is 100; without a database it finds nothing |

## Left out

- The START/END marker branch of the drain loop, which no shell provider uses.
- Character codecs: output text is taken byte for byte, as for ASCII; file text is a sequence of characters, so sizes in bytes and characters coincide.
- Escape sequences split across reads: the streaming properties are stated for escape-free output. Whole sequences are covered by `StripPieces`.
- Python's limit on the length of decimal integers, which the size of a read keeps out of reach.
- Interleavings finer than a lock region, a drain iteration or a timer check: the drain thread and the timer set the state without the lock.
- Partial pipe writes, the stdin thread, process signals, file descriptors and wall-clock time.
- ShellRegistry.ShellRegistry.ListShells: rows leave out status, uptime, last command and hints, which come from the session and not the registry.
- ShellRegistry.ShellRegistry.Close: does not close the session object when its registry entry goes.
- Docker start, restart, commit, build, inspect, logs, diff, stats and images, which change neither registry; stopping leaves the recorded status as it is.
- The SSH backend beyond the status its create reports.
- Containers changed by anyone but this server.
- The choice difflib makes for a fuzzy patch: it is any non-empty line of the file.
- Unified diffs, linters, safety advisories, unified-diff patches, search commands and similar-file suggestions.
- Terminal escapes inside a file, image and binary detection, and base64 transport in file reads.
- The JSON details column of audit records, and the logger's writing side.
- Configuration, authentication, transport and help text.
