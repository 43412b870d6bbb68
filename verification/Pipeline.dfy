/** From the exec socket to the session: the demultiplexer and the drain thread together. */
module Pipeline {
  import opened Seqs
  import opened Demux
  import opened PromptDrain

  /** Framed output: when no socket read ends inside a frame header, a command's exit code and output come through,
      however the frames were cut into reads and the clean pipe is read. */
  lemma FramedCommand(
    frames: seq<Frame>, chunks: seq<seq<Byte>>, pipeReads: seq<seq<Byte>>, tok: seq<Byte>, out: seq<Byte>, code: int
  )
    requires AllWellFormed(frames) && Flatten(chunks) == EncodeAll(frames) && CutsClear(frames, chunks)
    requires forall c :: c in chunks + pipeReads ==> c != []
    requires Payloads(frames) == Stream(tok, out, code) && GoodAnswer(tok, out, code) && |Render(code)| < SLACK
    requires Flatten(pipeReads) == Written([], chunks)
    ensures Feed(tok, START, pipeReads) == Progress(MapCr(out), [], [code])
  {
    hide *;
    forall c | c in chunks ensures c != [] { assert c in chunks + pipeReads; }
    forall c | c in pipeReads ensures c != [] { assert c in chunks + pipeReads; }
    DemuxCorrect(frames, chunks);
    ChunkingIrrelevant(tok, out, code, pipeReads);
  }

  /** Terminal output, which carries no frames: the same, when every socket read is at least as long as a header
      and none starts like a frame. */
  lemma TerminalCommand(
    chunks: seq<seq<Byte>>, pipeReads: seq<seq<Byte>>, tok: seq<Byte>, out: seq<Byte>, code: int
  )
    requires forall c :: c in chunks ==> HEADER <= |c| && c[0] != STDOUT && c[0] != STDERR
    requires forall c :: c in pipeReads ==> c != []
    requires Flatten(chunks) == Stream(tok, out, code) && GoodAnswer(tok, out, code) && |Render(code)| < SLACK
    requires Flatten(pipeReads) == Written([], chunks)
    ensures Feed(tok, START, pipeReads) == Progress(MapCr(out), [], [code])
  {
    RawReads(chunks);
    ChunkingIrrelevant(tok, out, code, pipeReads);
  }
}
