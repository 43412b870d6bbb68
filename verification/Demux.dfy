/** The loop that strips Docker's attach framing off the exec socket. */
module Demux {
  import opened Seqs

  const HEADER := 8
  const STDOUT: Byte := 1
  const STDERR: Byte := 2

  // ---------------------------------------------------------------- the wire format

  /** One frame of the "Stream format" of Docker's ContainerAttach operation. */
  datatype Frame = Frame(kind: Byte, payload: seq<Byte>)

  predicate WellFormed(f: Frame) {
    (f.kind == STDOUT || f.kind == STDERR) && |f.payload| < 0x1_0000_0000
  }

  predicate AllWellFormed(frames: seq<Frame>) {
    frames == [] || (WellFormed(frames[0]) && AllWellFormed(frames[1..]))
  }

  function BigEndian(n: nat): seq<Byte>
    requires n < 0x1_0000_0000
  {
    [n / 0x100_0000, n / 0x1_0000 % 0x100, n / 0x100 % 0x100, n % 0x100]
  }

  function Encode(f: Frame): seq<Byte>
    requires WellFormed(f)
  {
    [f.kind, 0, 0, 0] + BigEndian(|f.payload|) + f.payload
  }

  function EncodeAll(frames: seq<Frame>): seq<Byte>
    requires AllWellFormed(frames)
  {
    if frames == [] then [] else Encode(frames[0]) + EncodeAll(frames[1..])
  }

  /** What a reader of the clean pipe should see: the stdout payloads, in order. */
  function Payloads(frames: seq<Frame>): seq<Byte> {
    if frames == [] then []
    else if frames[0].kind == STDOUT then frames[0].payload + Payloads(frames[1..])
    else Payloads(frames[1..])
  }

  // ---------------------------------------------------------------- the loop

  /** The frame size read from bytes 4 to 7 of the header, most significant byte first. */
  function SizeAt(buf: seq<Byte>, offset: nat): nat
    requires offset + HEADER <= |buf|
  {
    var a: int, b: int, c: int, d: int := buf[offset + 4], buf[offset + 5], buf[offset + 6], buf[offset + 7];
    a * 0x100_0000 + b * 0x1_0000 + c * 0x100 + d
  }

  /** One pass over a buffer: what is written, what is carried over, and what is thrown away. */
  datatype Pass = Pass(written: seq<Byte>, carry: seq<Byte>, dropped: seq<Byte>)

  function Scan(buf: seq<Byte>, offset: nat): Pass
    requires offset <= |buf|
    decreases |buf| - offset
  {
    if offset + HEADER > |buf| then Pass([], [], buf[offset..])
    else if buf[offset] != STDOUT && buf[offset] != STDERR then Pass(buf[offset..], [], [])
    else
      var next := offset + HEADER + SizeAt(buf, offset);
      if next > |buf| then Pass([], buf[offset..], [])
      else
        var rest := Scan(buf, next);
        if buf[offset] == STDOUT then rest.(written := buf[offset + HEADER..next] + rest.written) else rest
  }

  /** Everything written for a series of reads; an empty read is the end of the stream. */
  function Written(carry: seq<Byte>, chunks: seq<seq<Byte>>): seq<Byte>
    decreases |chunks|
  {
    if chunks == [] || chunks[0] == [] then []
    else
      var pass := Scan(carry + chunks[0], 0);
      pass.written + Written(pass.carry, chunks[1..])
  }

  /** Everything thrown away on the same reads. */
  function Dropped(carry: seq<Byte>, chunks: seq<seq<Byte>>): seq<Byte>
    decreases |chunks|
  {
    if chunks == [] || chunks[0] == [] then []
    else
      var pass := Scan(carry + chunks[0], 0);
      pass.dropped + Dropped(pass.carry, chunks[1..])
  }

  /** One turn of the inner loop. */
  lemma ScanStep(buf: seq<Byte>, offset: nat)
    requires offset + HEADER <= |buf|
    ensures var pass := Scan(buf, offset); var next := offset + HEADER + SizeAt(buf, offset);
            if buf[offset] != STDOUT && buf[offset] != STDERR then pass.written == buf[offset..] && pass.carry == []
            else if next > |buf| then pass.written == [] && pass.carry == buf[offset..]
            else pass.carry == Scan(buf, next).carry && pass.dropped == Scan(buf, next).dropped && pass.written ==
                 if buf[offset] == STDOUT then buf[offset + HEADER..next] + Scan(buf, next).written else Scan(buf, next).written
  {
  }

  lemma ScanEnd(buf: seq<Byte>, offset: nat)
    requires offset <= |buf| < offset + HEADER
    ensures Scan(buf, offset).written == [] && Scan(buf, offset).carry == []
  {
  }

  lemma WrittenStep(carry: seq<Byte>, chunks: seq<seq<Byte>>, k: nat)
    requires k < |chunks| && chunks[k] != []
    ensures var pass := Scan(carry + chunks[k], 0);
            Written(carry, chunks[k..]) == pass.written + Written(pass.carry, chunks[k + 1..])
  {
    assert chunks[k..][1..] == chunks[k + 1..];
  }

  lemma WrittenEnd(carry: seq<Byte>, chunks: seq<seq<Byte>>, k: nat)
    requires k == |chunks| || (k < |chunks| && chunks[k] == [])
    ensures Written(carry, chunks[k..]) == []
  {
  }

  /** The thread body. The socket is the sequence of its reads, the pipe the bytes written to it. */
  method DemuxLoop(chunks: seq<seq<Byte>>) returns (pipe: seq<Byte>)
    ensures pipe == Written([], chunks)
  {
    hide Scan, SizeAt, Written;
    assert chunks[0..] == chunks;
    pipe := [];
    var carry: seq<Byte> := [];
    var k := 0;
    while k < |chunks| && chunks[k] != []
      invariant 0 <= k <= |chunks|
      invariant pipe + Written(carry, chunks[k..]) == Written([], chunks)
    {
      WrittenStep(carry, chunks, k);
      var combined := carry + chunks[k];
      ghost var pass := Scan(combined, 0);
      ghost var target := pipe + pass.written;
      Assoc(pipe, pass.written, Written(pass.carry, chunks[k + 1..]));
      carry := [];
      var offset := 0;
      while offset + HEADER <= |combined|
        invariant 0 <= offset <= |combined|
        invariant carry == []
        invariant pipe + Scan(combined, offset).written == target
        invariant Scan(combined, offset).carry == pass.carry
        decreases |combined| - offset
      {
        ScanStep(combined, offset);
        var kind := combined[offset];
        if kind != STDOUT && kind != STDERR {
          pipe := pipe + combined[offset..];
          offset := |combined|;
          break;
        }
        var next := offset + HEADER + SizeAt(combined, offset);
        if next > |combined| {
          carry := combined[offset..];
          break;
        }
        if kind == STDOUT {
          Assoc(pipe, combined[offset + HEADER..next], Scan(combined, next).written);
          pipe := pipe + combined[offset + HEADER..next];
        }
        offset := next;
      }
      if offset + HEADER > |combined| { ScanEnd(combined, offset); }
      assert pipe == target && carry == pass.carry;
      k := k + 1;
    }
    WrittenEnd(carry, chunks, k);
  }

  // ---------------------------------------------------------------- framed streams

  lemma BigEndianDigits(n: nat)
    ensures n / 0x100_0000 * 0x100_0000 + n / 0x1_0000 % 0x100 * 0x1_0000 + n / 0x100 % 0x100 * 0x100 + n % 0x100 == n
  {
    assert n / 0x100 / 0x100 == n / 0x1_0000;
    assert n / 0x1_0000 / 0x100 == n / 0x100_0000;
  }

  /** A buffer that holds the start of the encoding shows the first frame's header fields. */
  lemma FirstHeader(f: Frame, later: seq<Byte>, buf: seq<Byte>, offset: nat, rest: seq<Byte>)
    requires WellFormed(f) && offset + HEADER <= |buf| && buf[offset..] + rest == Encode(f) + later
    ensures buf[offset] == f.kind && SizeAt(buf, offset) == |f.payload|
  {
    var n, all := |f.payload|, Encode(f) + later;
    forall i | offset <= i < offset + HEADER ensures buf[i] == Encode(f)[i - offset] {
      assert buf[offset..][i - offset] == (buf[offset..] + rest)[i - offset] == all[i - offset];
    }
    assert buf[offset + 4] == n / 0x100_0000 && buf[offset + 5] == n / 0x1_0000 % 0x100
        && buf[offset + 6] == n / 0x100 % 0x100 && buf[offset + 7] == n % 0x100;
    BigEndianDigits(n);
  }

  lemma FirstPayload(f: Frame, later: seq<Byte>, buf: seq<Byte>, offset: nat, rest: seq<Byte>)
    requires WellFormed(f) && offset + HEADER + |f.payload| <= |buf| && buf[offset..] + rest == Encode(f) + later
    ensures buf[offset + HEADER..offset + HEADER + |f.payload|] == f.payload
    ensures buf[offset + HEADER + |f.payload|..] + rest == later
  {
    var n, all := HEADER + |f.payload|, Encode(f) + later;
    assert f.payload == all[HEADER..n] == buf[offset..][HEADER..n] == buf[offset + HEADER..offset + n];
    assert later == all[n..] == buf[offset + n..] + rest;
  }

  /** How many bytes into its current frame a reader is after n bytes of the encoded stream. */
  function Into(frames: seq<Frame>, n: nat): nat {
    if frames == [] || n < HEADER + |frames[0].payload| then n
    else Into(frames[1..], n - HEADER - |frames[0].payload|)
  }

  /** The frames of which less than all has been received after n bytes. */
  function Remaining(frames: seq<Frame>, n: nat): seq<Frame> {
    if frames == [] || n < HEADER + |frames[0].payload| then frames
    else Remaining(frames[1..], n - HEADER - |frames[0].payload|)
  }

  /** The stdout payloads of the frames received whole within the first n bytes. */
  function Delivered(frames: seq<Frame>, n: nat): seq<Byte> {
    if frames == [] || n < HEADER + |frames[0].payload| then []
    else
      var rest := Delivered(frames[1..], n - HEADER - |frames[0].payload|);
      if frames[0].kind == STDOUT then frames[0].payload + rest else rest
  }

  /** The position n is 1 to 7 bytes into a frame. */
  predicate InHeader(frames: seq<Frame>, n: nat) {
    1 <= Into(frames, n) < HEADER
  }

  /** No read boundary falls inside a frame header. */
  ghost predicate CutsClear(frames: seq<Frame>, chunks: seq<seq<Byte>>) {
    forall i :: 0 <= i <= |chunks| ==> !InHeader(frames, |Flatten(chunks[..i])|)
  }

  function Outcome(delivered: seq<Byte>, left: seq<Byte>): Pass {
    if |left| < HEADER then Pass(delivered, [], left) else Pass(delivered, left, [])
  }

  lemma ScanPartial(frames: seq<Frame>, buf: seq<Byte>, offset: nat, rest: seq<Byte>)
    requires offset <= |buf| && AllWellFormed(frames) && buf[offset..] + rest == EncodeAll(frames)
    requires frames == [] || |buf| - offset < HEADER + |frames[0].payload|
    ensures Scan(buf, offset) == Outcome([], buf[offset..])
  {
    hide Encode;
    if offset + HEADER <= |buf| && frames != [] {
      FirstHeader(frames[0], EncodeAll(frames[1..]), buf, offset, rest);
    }
  }

  lemma ScanWhole(frames: seq<Frame>, buf: seq<Byte>, offset: nat, rest: seq<Byte>)
    returns (next: nat, later: Pass)
    requires offset <= |buf| && AllWellFormed(frames) && buf[offset..] + rest == EncodeAll(frames)
    requires frames != [] && |buf| - offset >= HEADER + |frames[0].payload|
    ensures next == offset + HEADER + |frames[0].payload| && later == Scan(buf, next)
    ensures buf[next..] + rest == EncodeAll(frames[1..])
    ensures Scan(buf, offset) ==
            if frames[0].kind == STDOUT then later.(written := frames[0].payload + later.written) else later
  {
    hide Encode, EncodeAll, AllWellFormed, Scan, SizeAt, WellFormed;
    EncodeCons(frames);
    FirstHeader(frames[0], EncodeAll(frames[1..]), buf, offset, rest);
    FirstPayload(frames[0], EncodeAll(frames[1..]), buf, offset, rest);
    KindOf(frames[0]);
    ScanStep(buf, offset);
    next := offset + HEADER + |frames[0].payload|;
    later := Scan(buf, next);
  }

  lemma EncodeCons(frames: seq<Frame>)
    requires AllWellFormed(frames) && frames != []
    ensures WellFormed(frames[0]) && AllWellFormed(frames[1..])
    ensures EncodeAll(frames) == Encode(frames[0]) + EncodeAll(frames[1..])
  {
  }

  lemma KindOf(f: Frame)
    requires WellFormed(f)
    ensures f.kind == STDOUT || f.kind == STDERR
  {
  }

  /** From a frame boundary on, a buffer gives up its whole frames; the rest is carried over,
      unless it is a partial header, which is thrown away. */
  lemma {:induction false} ScanFrames(frames: seq<Frame>, buf: seq<Byte>, offset: nat, rest: seq<Byte>)
    requires offset <= |buf| && AllWellFormed(frames) && buf[offset..] + rest == EncodeAll(frames)
    ensures Into(frames, |buf| - offset) <= |buf| - offset
    ensures AllWellFormed(Remaining(frames, |buf| - offset))
    ensures var left := buf[|buf| - Into(frames, |buf| - offset)..];
            && left + rest == EncodeAll(Remaining(frames, |buf| - offset))
            && Scan(buf, offset) == Outcome(Delivered(frames, |buf| - offset), left)
    decreases |frames|
  {
    hide Scan, Encode, EncodeAll;
    if frames == [] || |buf| - offset < HEADER + |frames[0].payload| {
      ScanPartial(frames, buf, offset, rest);
    } else {
      var next, later := ScanWhole(frames, buf, offset, rest);
      ScanFrames(frames[1..], buf, next, rest);
    }
  }

  /** Positions compose: after n bytes, the rest of the stream is read against the remaining frames. */
  lemma {:induction false} Compose(frames: seq<Frame>, n: nat, m: nat)
    ensures var rest, have := Remaining(frames, n), Into(frames, n);
            && Into(frames, n + m) == Into(rest, have + m)
            && Delivered(frames, n + m) == Delivered(frames, n) + Delivered(rest, have + m)
  {
    if frames != [] && n >= HEADER + |frames[0].payload| {
      Compose(frames[1..], n - HEADER - |frames[0].payload|, m);
    } else {
      assert Delivered(frames, n) == [];
    }
  }

  lemma {:induction false} DeliveredAll(frames: seq<Frame>)
    requires AllWellFormed(frames)
    ensures Delivered(frames, |EncodeAll(frames)|) == Payloads(frames)
    ensures Into(frames, |EncodeAll(frames)|) == 0
  {
    if frames != [] {
      DeliveredAll(frames[1..]);
      assert |Encode(frames[0])| == HEADER + |frames[0].payload|;
    }
  }

  /** CutsClear, read after read, for a reader that already has n bytes. */
  predicate ClearFrom(frames: seq<Frame>, n: nat, chunks: seq<seq<Byte>>)
    decreases |chunks|
  {
    !InHeader(frames, n) && (chunks == [] || ClearFrom(frames, n + |chunks[0]|, chunks[1..]))
  }

  lemma {:induction false} ClearFromShift(frames: seq<Frame>, n: nat, m: nat, chunks: seq<seq<Byte>>)
    ensures ClearFrom(frames, n + m, chunks) == ClearFrom(Remaining(frames, n), Into(frames, n) + m, chunks)
    decreases chunks
  {
    Compose(frames, n, m);
    if chunks != [] { ClearFromShift(frames, n, m + |chunks[0]|, chunks[1..]); }
  }

  lemma {:induction false} ClearFromCuts(frames: seq<Frame>, n: nat, chunks: seq<seq<Byte>>)
    ensures ClearFrom(frames, n, chunks) <==>
            forall i :: 0 <= i <= |chunks| ==> !InHeader(frames, n + |Flatten(chunks[..i])|)
    decreases |chunks|
  {
    hide InHeader;
    assert chunks[..0] == [];
    if chunks != [] {
      ClearFromCuts(frames, n + |chunks[0]|, chunks[1..]);
      forall i | 1 <= i <= |chunks| ensures |Flatten(chunks[..i])| == |chunks[0]| + |Flatten(chunks[1..][..i - 1])| {
        assert chunks[..i][1..] == chunks[1..][..i - 1];
      }
      if ClearFrom(frames, n, chunks) {
        forall i | 0 <= i <= |chunks| ensures !InHeader(frames, n + |Flatten(chunks[..i])|) {
          if i > 0 { assert !InHeader(frames, n + |chunks[0]| + |Flatten(chunks[1..][..i - 1])|); }
        }
      } else if !InHeader(frames, n) {
        var i :| 0 <= i <= |chunks[1..]| && InHeader(frames, n + |chunks[0]| + |Flatten(chunks[1..][..i])|);
        assert InHeader(frames, n + |Flatten(chunks[..i + 1])|);
      } else {
        assert InHeader(frames, n + |Flatten(chunks[..0])|);
      }
    }
  }

  /** One read: afterwards the reader holds the start of the first remaining frame. */
  lemma ReadFrames(frames: seq<Frame>, buf: seq<Byte>, rest: seq<Byte>) returns (later: seq<Frame>, left: seq<Byte>)
    requires AllWellFormed(frames) && buf + rest == EncodeAll(frames)
    ensures later == Remaining(frames, |buf|) && |left| == Into(frames, |buf|) == Into(later, |left|)
    ensures AllWellFormed(later) && left + rest == EncodeAll(later)
    ensures Scan(buf, 0) == Outcome(Delivered(frames, |buf|), left)
    ensures Delivered(frames, |buf| + |rest|) == Delivered(frames, |buf|) + Delivered(later, |left| + |rest|)
  {
    hide Scan, Encode, EncodeAll;
    assert buf[0..] == buf;
    ScanFrames(frames, buf, 0, rest);
    later, left := Remaining(frames, |buf|), buf[|buf| - Into(frames, |buf|)..];
    Compose(frames, |buf|, 0);
    Compose(frames, |buf|, |rest|);
  }

  /** One read, in terms of what it delivers and what is left of it. */
  lemma PassStep(carry: seq<Byte>, chunks: seq<seq<Byte>>, delivered: seq<Byte>, left: seq<Byte>)
    requires chunks != [] && chunks[0] != [] && Scan(carry + chunks[0], 0) == Outcome(delivered, left)
    ensures var kept, lost: seq<Byte> := (if |left| < HEADER then [] else left), if |left| < HEADER then left else [];
            && Written(carry, chunks) == delivered + Written(kept, chunks[1..])
            && Dropped(carry, chunks) == lost + Dropped(kept, chunks[1..])
  {
    hide Scan;
  }

  lemma RunEnd(carry: seq<Byte>)
    ensures Written(carry, []) == [] && Dropped(carry, []) == [] && Flatten<Byte>([]) == []
  {
  }

  lemma ClearStep(frames: seq<Frame>, n: nat, chunks: seq<seq<Byte>>)
    ensures ClearFrom(frames, n, chunks) <==>
            !InHeader(frames, n) && (chunks == [] || ClearFrom(frames, n + |chunks[0]|, chunks[1..]))
  {
    hide InHeader;
  }

  lemma {:induction false} RunFrames(frames: seq<Frame>, carry: seq<Byte>, chunks: seq<seq<Byte>>)
    requires AllWellFormed(frames) && carry + Flatten(chunks) == EncodeAll(frames)
    requires forall c :: c in chunks ==> c != []
    requires Into(frames, |carry|) == |carry| && !InHeader(frames, |carry|)
    ensures ClearFrom(frames, |carry|, chunks) <==> Dropped(carry, chunks) == []
    ensures ClearFrom(frames, |carry|, chunks) ==> Written(carry, chunks) == Delivered(frames, |carry| + |Flatten(chunks)|)
    decreases |chunks|
  {
    hide Scan, Encode, EncodeAll, Into, Delivered, Remaining, AllWellFormed, Written, Dropped, ClearFrom, Outcome;
    ClearStep(frames, |carry|, chunks);
    if chunks == [] {
      RunEnd(carry);
      DeliveredNone(frames, |carry|);
    } else {
      var buf, rest := carry + chunks[0], Flatten(chunks[1..]);
      assert chunks[0] in chunks && forall c :: c in chunks[1..] ==> c in chunks;
      Assoc(carry, chunks[0], rest);
      var later, left := ReadFrames(frames, buf, rest);
      PassStep(carry, chunks, Delivered(frames, |buf|), left);
      assert InHeader(frames, |buf|) == (1 <= |left| < HEADER);
      if !InHeader(frames, |buf|) {
        RunFrames(later, left, chunks[1..]);
        ClearFromShift(frames, |buf|, 0, chunks[1..]);
        assert [] + Dropped(left, chunks[1..]) == Dropped(left, chunks[1..]);
      } else {
        ClearStep(frames, |buf|, chunks[1..]);
      }
    }
  }

  lemma DeliveredNone(frames: seq<Frame>, n: nat)
    requires Into(frames, n) == n
    ensures Delivered(frames, n) == []
  {
    if frames != [] && n >= HEADER + |frames[0].payload| { IntoShrinks(frames[1..], n - HEADER - |frames[0].payload|); }
  }

  lemma {:induction false} IntoShrinks(frames: seq<Frame>, n: nat)
    ensures Into(frames, n) <= n
  {
    if frames != [] && n >= HEADER + |frames[0].payload| { IntoShrinks(frames[1..], n - HEADER - |frames[0].payload|); }
  }

  /** The loop loses bytes of a framed stream exactly when a read ends inside a frame header. */
  lemma LossIffHeaderCut(frames: seq<Frame>, chunks: seq<seq<Byte>>)
    requires AllWellFormed(frames) && Flatten(chunks) == EncodeAll(frames)
    requires forall c :: c in chunks ==> c != []
    ensures Dropped([], chunks) == [] <==> CutsClear(frames, chunks)
  {
    RunFrames(frames, [], chunks);
    ClearFromCuts(frames, 0, chunks);
  }

  /** Otherwise it writes the stdout payloads, in order, however the stream was cut. */
  lemma DemuxCorrect(frames: seq<Frame>, chunks: seq<seq<Byte>>)
    requires AllWellFormed(frames) && Flatten(chunks) == EncodeAll(frames)
    requires forall c :: c in chunks ==> c != []
    requires CutsClear(frames, chunks)
    ensures Written([], chunks) == Payloads(frames)
  {
    hide Scan, Encode, EncodeAll, Delivered, Written, Dropped;
    RunFrames(frames, [], chunks);
    ClearFromCuts(frames, 0, chunks);
    DeliveredAll(frames);
  }

  /** What the loop would write if it also kept a leftover shorter than a header. */
  function WrittenKeeping(carry: seq<Byte>, chunks: seq<seq<Byte>>): seq<Byte>
    decreases |chunks|
  {
    if chunks == [] || chunks[0] == [] then []
    else
      var pass := Scan(carry + chunks[0], 0);
      pass.written + WrittenKeeping(pass.carry + pass.dropped, chunks[1..])
  }

  lemma KeepingStep(carry: seq<Byte>, chunks: seq<seq<Byte>>, delivered: seq<Byte>, left: seq<Byte>)
    requires chunks != [] && chunks[0] != [] && Scan(carry + chunks[0], 0) == Outcome(delivered, left)
    ensures WrittenKeeping(carry, chunks) == delivered + WrittenKeeping(left, chunks[1..])
  {
    hide Scan;
    assert [] + left == left && left + [] == left;
  }

  lemma KeepingEnd(carry: seq<Byte>)
    ensures WrittenKeeping(carry, []) == []
  {
  }

  lemma {:induction false} RunKeeping(frames: seq<Frame>, carry: seq<Byte>, chunks: seq<seq<Byte>>)
    requires AllWellFormed(frames) && carry + Flatten(chunks) == EncodeAll(frames)
    requires forall c :: c in chunks ==> c != []
    requires Into(frames, |carry|) == |carry|
    ensures WrittenKeeping(carry, chunks) == Delivered(frames, |carry| + |Flatten(chunks)|)
    decreases |chunks|
  {
    hide Scan, Encode, EncodeAll, Into, Delivered, Remaining, AllWellFormed, WrittenKeeping, Outcome;
    if chunks == [] {
      KeepingEnd(carry);
      DeliveredNone(frames, |carry|);
    } else {
      var buf, rest := carry + chunks[0], Flatten(chunks[1..]);
      assert chunks[0] in chunks && forall c :: c in chunks[1..] ==> c in chunks;
      Assoc(carry, chunks[0], rest);
      var later, left := ReadFrames(frames, buf, rest);
      KeepingStep(carry, chunks, Delivered(frames, |buf|), left);
      RunKeeping(later, left, chunks[1..]);
    }
  }

  /** With the leftover kept, every split of every framed stream is delivered right. */
  lemma KeepingIsCorrect(frames: seq<Frame>, chunks: seq<seq<Byte>>)
    requires AllWellFormed(frames) && Flatten(chunks) == EncodeAll(frames)
    requires forall c :: c in chunks ==> c != []
    ensures WrittenKeeping([], chunks) == Payloads(frames)
  {
    hide Scan, Encode, EncodeAll, Delivered, WrittenKeeping;
    assert [] + Flatten(chunks) == EncodeAll(frames);
    RunKeeping(frames, [], chunks);
    DeliveredAll(frames);
  }

  /** A pass either writes everything from the offset on, or at least a header less than that. */
  lemma {:induction false} WrittenLength(buf: seq<Byte>, offset: nat)
    requires offset <= |buf|
    ensures var n := |Scan(buf, offset).written|;
            n == 0 || (n == |buf| - offset && HEADER <= n) || n + HEADER <= |buf| - offset
    decreases |buf| - offset
  {
    if offset + HEADER <= |buf| && (buf[offset] == STDOUT || buf[offset] == STDERR) {
      var next := offset + HEADER + SizeAt(buf, offset);
      if next <= |buf| { WrittenLength(buf, next); }
    }
  }

  lemma IntoOne(f: Frame, n: nat)
    requires n <= HEADER + |f.payload|
    ensures Into([f], n) == if n == HEADER + |f.payload| then 0 else n
  {
    var frames := [f];
    assert frames[1..] == [];
  }

  lemma OneFrameClear(f: Frame, a: seq<Byte>, b: seq<Byte>)
    requires WellFormed(f) && f.kind == STDOUT && a + b == Encode(f) && HEADER <= |a| && b != []
    ensures Written([], [a, b]) == f.payload
  {
    var chunks: seq<seq<Byte>>, frames: seq<Frame> := [a, b], [f];
    assert chunks[1..] == [b] && frames[1..] == [];
    FlattenPair(a, b);
    assert Flatten(chunks[..0]) == [];
    assert EncodeAll(frames) == Encode(f) + [] == Encode(f);
    assert Payloads(frames) == f.payload + [] == f.payload;
    assert |a| + |b| == HEADER + |f.payload|;
    IntoOne(f, 0);
    IntoOne(f, |a|);
    IntoOne(f, |a| + |b|);
    hide Encode, EncodeAll, Written, Payloads, Into, Flatten;
    forall i | 0 <= i <= 2 ensures !InHeader(frames, |Flatten(chunks[..i])|) {
      assert chunks[..0] == [] && chunks[..1] == [a] && chunks[..2] == chunks;
      assert |Flatten(chunks[..i])| == if i == 0 then 0 else if i == 1 then |a| else |a| + |b|;
    }
    DemuxCorrect(frames, chunks);
  }

  lemma OneFrameCut(f: Frame, a: seq<Byte>, b: seq<Byte>)
    requires WellFormed(f) && f.payload != [] && a + b == Encode(f) && 0 < |a| < HEADER
    ensures Written([], [a, b]) != f.payload
  {
    var chunks: seq<seq<Byte>> := [a, b];
    assert chunks[1..] == [b] && [] + a == a && [] + b == b;
    assert Scan(a, 0) == Pass([], [], a[0..]);
    WrittenLength(b, 0);
    hide Scan;
    assert Written(Scan(b, 0).carry, [b][1..]) == [];
    assert Written([], [b]) == Scan(b, 0).written + [] == Scan(b, 0).written;
    assert Written([], chunks) == [] + Written([], [b]) == Written([], [b]);
  }

  /** For one frame of output in two reads, the answer is right exactly when the cut is clear of the header. */
  lemma OneFrameTwoReads(payload: seq<Byte>, cut: nat)
    requires 0 < |payload| < 0x1_0000_0000 && 0 < cut < HEADER + |payload|
    ensures var wire := Encode(Frame(STDOUT, payload));
            Written([], [wire[..cut], wire[cut..]]) == payload <==> HEADER <= cut
  {
    var f := Frame(STDOUT, payload);
    var wire := Encode(f);
    assert wire[..cut] + wire[cut..] == wire;
    if HEADER <= cut { OneFrameClear(f, wire[..cut], wire[cut..]); } else { OneFrameCut(f, wire[..cut], wire[cut..]); }
  }

  // ---------------------------------------------------------------- unframed (terminal) streams

  function LongEnough(chunks: seq<seq<Byte>>): seq<seq<Byte>> {
    if chunks == [] then []
    else if HEADER <= |chunks[0]| then [chunks[0]] + LongEnough(chunks[1..])
    else LongEnough(chunks[1..])
  }

  /** Reads that do not look like a frame pass through unchanged, except that one shorter than a header is lost. */
  lemma {:induction false} RawPlainReads(chunks: seq<seq<Byte>>)
    requires forall c :: c in chunks ==> c != [] && !LikeFrame(c)
    ensures Written([], chunks) == Flatten(LongEnough(chunks))
  {
    if chunks != [] {
      var c := chunks[0];
      assert c in chunks && [] + c == c && forall d :: d in chunks[1..] ==> d in chunks;
      RawPlainReads(chunks[1..]);
      if HEADER <= |c| {
        assert Scan(c, 0) == Pass(c, [], []);
        assert LongEnough(chunks)[1..] == LongEnough(chunks[1..]);
      } else {
        assert Scan(c, 0).written == [];
      }
    }
  }

  /** The first byte is that of a stdout or stderr frame. */
  predicate LikeFrame(c: seq<Byte>) { c != [] && (c[0] == STDOUT || c[0] == STDERR) }

  /** A pass writes and carries no more than it was given, and what it carries over starts like a frame. */
  lemma {:induction false} ScanBound(buf: seq<Byte>, offset: nat)
    requires offset <= |buf|
    ensures |Scan(buf, offset).written| + |Scan(buf, offset).carry| <= |buf| - offset
    ensures Scan(buf, offset).carry != [] ==> LikeFrame(Scan(buf, offset).carry) && HEADER <= |Scan(buf, offset).carry|
    decreases |buf| - offset
  {
    if offset + HEADER <= |buf| && (buf[offset] == STDOUT || buf[offset] == STDERR) {
      var next := offset + HEADER + SizeAt(buf, offset);
      if next <= |buf| { ScanBound(buf, next); }
    }
  }

  /** A buffer that starts like a frame is carried over whole, or loses at least the eight bytes taken for a header. */
  lemma ScanLikeFrame(buf: seq<Byte>)
    requires LikeFrame(buf) && HEADER <= |buf|
    ensures var pass := Scan(buf, 0);
            pass == Pass([], buf, []) || |pass.written| + |pass.carry| <= |buf| - HEADER
  {
    var next := HEADER + SizeAt(buf, 0);
    if next <= |buf| { ScanBound(buf, next); }
  }

  /** Over many reads no more is written than was received, and less once a read was carried over. */
  lemma {:induction false} WrittenBound(carry: seq<Byte>, chunks: seq<seq<Byte>>)
    requires carry != [] ==> LikeFrame(carry) && HEADER <= |carry|
    ensures |Written(carry, chunks)| <= |carry| + |Flatten(chunks)|
    ensures carry != [] ==> |Written(carry, chunks)| < |carry| + |Flatten(chunks)|
    decreases |chunks|
  {
    hide Scan, LikeFrame;
    if chunks != [] && chunks[0] != [] {
      var buf := carry + chunks[0];
      ScanBound(buf, 0);
      WrittenBound(Scan(buf, 0).carry, chunks[1..]);
      if carry != [] {
        StillLikeFrame(carry, chunks[0]);
        ScanLikeFrame(buf);
      }
    }
  }

  /** a is some of the bytes of b, in their order. */
  predicate Selection(a: seq<Byte>, b: seq<Byte>) {
    a == [] || (b != [] && ((a[0] == b[0] && Selection(a[1..], b[1..])) || Selection(a, b[1..])))
  }

  lemma {:induction false} SelectAll(a: seq<Byte>)
    ensures Selection(a, a)
  {
    if a != [] { SelectAll(a[1..]); }
  }

  lemma {:induction false} SelectLater(a: seq<Byte>, skipped: seq<Byte>, b: seq<Byte>)
    requires Selection(a, b)
    ensures Selection(a, skipped + b)
  {
    if skipped == [] {
      assert skipped + b == b;
    } else {
      assert (skipped + b)[1..] == skipped[1..] + b;
      SelectLater(a, skipped[1..], b);
    }
  }

  lemma {:induction false} SelectBoth(a: seq<Byte>, b: seq<Byte>, c: seq<Byte>, d: seq<Byte>)
    requires Selection(a, b) && Selection(c, d)
    ensures Selection(a + c, b + d)
    decreases |b|
  {
    if a == [] {
      assert a + c == c;
      SelectLater(c, b, d);
    } else {
      assert (b + d)[1..] == b[1..] + d && (a + c)[1..] == a[1..] + c;
      if a[0] == b[0] && Selection(a[1..], b[1..]) {
        SelectBoth(a[1..], b[1..], c, d);
      } else {
        SelectBoth(a, b[1..], c, d);
      }
    }
  }

  lemma {:induction false} SelectTwice(a: seq<Byte>, b: seq<Byte>, c: seq<Byte>)
    requires Selection(a, b) && Selection(b, c)
    ensures Selection(a, c)
    decreases |c|
  {
    if a != [] {
      if b[0] == c[0] && Selection(b[1..], c[1..]) {
        if a[0] == b[0] && Selection(a[1..], b[1..]) {
          SelectTwice(a[1..], b[1..], c[1..]);
        } else {
          SelectTwice(a, b[1..], c[1..]);
        }
      } else {
        SelectTwice(a, b, c[1..]);
      }
    }
  }

  lemma {:induction false} ScanSelects(buf: seq<Byte>, offset: nat)
    requires offset <= |buf|
    ensures Selection(Scan(buf, offset).written + Scan(buf, offset).carry, buf[offset..])
    decreases |buf| - offset
  {
    hide SizeAt, Scan, Selection;
    var all := buf[offset..];
    assert all + [] == all && [] + all == all;
    SelectAll(all);
    SelectNone(all);
    if offset + HEADER > |buf| {
      ScanEnd(buf, offset);
      assert Scan(buf, offset).written + Scan(buf, offset).carry == [];
    } else {
      ScanStep(buf, offset);
      var next := offset + HEADER + SizeAt(buf, offset);
      if (buf[offset] == STDOUT || buf[offset] == STDERR) && next <= |buf| {
        ScanSelects(buf, next);
        SelectPayload(buf, offset, next, Scan(buf, next).written, Scan(buf, next).carry, buf[offset] == STDOUT);
      }
    }
  }

  lemma SelectPayload(buf: seq<Byte>, offset: nat, next: nat, w: seq<Byte>, c: seq<Byte>, kept: bool)
    requires offset + HEADER <= next <= |buf| && Selection(w + c, buf[next..])
    ensures Selection((if kept then buf[offset + HEADER..next] + w else w) + c, buf[offset..])
  {
    hide Selection;
    var head, payload := buf[offset..offset + HEADER], buf[offset + HEADER..next];
    assert buf[offset..] == head + (payload + buf[next..]);
    if kept {
      SelectAll(payload);
      SelectBoth(payload, payload, w + c, buf[next..]);
      assert (payload + w) + c == payload + (w + c);
      SelectLater(payload + (w + c), head, payload + buf[next..]);
    } else {
      SelectLater(w + c, payload, buf[next..]);
      SelectLater(w + c, head, payload + buf[next..]);
    }
  }

  /** Whatever is received, what is written is some of it, in order. */
  lemma {:induction false} WrittenSelects(carry: seq<Byte>, chunks: seq<seq<Byte>>)
    ensures Selection(Written(carry, chunks), carry + Flatten(chunks))
    decreases |chunks|
  {
    hide Scan, Selection;
    if chunks == [] || chunks[0] == [] {
      SelectNone(carry + Flatten(chunks));
    } else {
      var buf, rest := carry + chunks[0], Flatten(chunks[1..]);
      var pass := Scan(buf, 0);
      assert buf[0..] == buf && carry + Flatten(chunks) == buf + rest;
      ScanSelects(buf, 0);
      WrittenSelects(pass.carry, chunks[1..]);
      SelectAll(pass.written);
      SelectAll(rest);
      SelectBoth(pass.written, pass.written, Written(pass.carry, chunks[1..]), pass.carry + rest);
      assert pass.written + (pass.carry + rest) == (pass.written + pass.carry) + rest;
      SelectBoth(pass.written + pass.carry, buf, rest, rest);
      SelectTwice(Written(carry, chunks), (pass.written + pass.carry) + rest, buf + rest);
    }
  }

  lemma SelectNone(b: seq<Byte>)
    ensures Selection([], b)
  {
  }

  lemma StillLikeFrame(a: seq<Byte>, b: seq<Byte>)
    requires a != []
    ensures LikeFrame(a + b) == LikeFrame(a)
  {
  }

  lemma ScanPlainOrShort(c: seq<Byte>)
    ensures |c| < HEADER ==> Scan(c, 0).written == [] && Scan(c, 0).carry == []
    ensures HEADER <= |c| && !LikeFrame(c) ==> Scan(c, 0) == Pass(c, [], [])
  {
    assert c[0..] == c;
  }

  /** One read with nothing carried over passes through exactly when it is at least a header long and
      does not start like a frame; otherwise bytes are missing from then on. */
  lemma RawRead(c: seq<Byte>, later: seq<seq<Byte>>)
    requires c != []
    ensures Written([], [c] + later) == Scan(c, 0).written + Written(Scan(c, 0).carry, later)
    ensures HEADER <= |c| && !LikeFrame(c) ==> Scan(c, 0) == Pass(c, [], [])
    ensures |c| < HEADER || LikeFrame(c) ==> |Written([], [c] + later)| < |c| + |Flatten(later)|
  {
    hide Scan, LikeFrame;
    var chunks := [c] + later;
    assert chunks[1..] == later && [] + c == c;
    ScanBound(c, 0);
    ScanPlainOrShort(c);
    WrittenBound(Scan(c, 0).carry, later);
    if HEADER <= |c| && LikeFrame(c) { ScanLikeFrame(c); }
  }

  /** A terminal stream carries no frames. It arrives whole exactly when every read is at least as long as a header
      and none starts with a byte the loop takes for a frame type. */
  lemma {:induction false} RawReads(chunks: seq<seq<Byte>>)
    requires forall c :: c in chunks ==> c != []
    ensures |Written([], chunks)| <= |Flatten(chunks)|
    ensures Written([], chunks) == Flatten(chunks) <==>
            forall c :: c in chunks ==> 8 <= |c| && c[0] != 1 && c[0] != 2
  {
    hide Scan, Written;
    WrittenBound([], chunks);
    if chunks == [] {
      WrittenEnd([], chunks, 0);
      assert chunks[0..] == chunks;
    } else {
      var c, later := chunks[0], chunks[1..];
      assert c in chunks && chunks == [c] + later && forall d :: d in chunks <==> d == c || d in later;
      RawReads(later);
      RawRead(c, later);
      if HEADER <= |c| && !LikeFrame(c) { SamePrefix(c, Written([], later), Flatten(later)); }
    }
  }

  lemma SamePrefix(a: seq<Byte>, b: seq<Byte>, c: seq<Byte>)
    ensures a + b == a + c <==> b == c
  {
    if a + b == a + c { assert b == (a + b)[|a|..] == (a + c)[|a|..] == c; }
  }

  /** Once a byte that is no frame type stands where a header should, the rest of the buffer is passed on as it is. */
  lemma {:induction false} FramesThenRaw(frames: seq<Frame>, raw: seq<Byte>, buf: seq<Byte>, offset: nat)
    requires AllWellFormed(frames) && HEADER <= |raw| && !LikeFrame(raw)
    requires offset <= |buf| && buf[offset..] == EncodeAll(frames) + raw
    ensures Scan(buf, offset).written == Payloads(frames) + raw && Scan(buf, offset).carry == []
    decreases |frames|
  {
    hide Scan, Encode, EncodeAll, SizeAt, Payloads, LikeFrame, WellFormed, AllWellFormed;
    if frames == [] {
      NoFrames(frames);
      RawStart(raw);
      assert buf[offset..] == [] + raw == raw && buf[offset] == raw[0];
      ScanStep(buf, offset);
    } else {
      EncodeCons(frames);
      PayloadsCons(frames);
      var f, later := frames[0], EncodeAll(frames[1..]) + raw;
      Assoc(Encode(f), EncodeAll(frames[1..]), raw);
      assert buf[offset..] + [] == Encode(f) + later;
      EncodeLength(f);
      FirstHeader(f, later, buf, offset, []);
      FirstPayload(f, later, buf, offset, []);
      KindOf(f);
      ScanStep(buf, offset);
      var next := offset + HEADER + |f.payload|;
      assert buf[next..] + [] == buf[next..];
      FramesThenRaw(frames[1..], raw, buf, next);
      Assoc(f.payload, Payloads(frames[1..]), raw);
    }
  }

  lemma RawStart(raw: seq<Byte>)
    requires raw != [] && !LikeFrame(raw)
    ensures raw[0] != STDOUT && raw[0] != STDERR
  {
  }

  lemma PayloadsCons(frames: seq<Frame>)
    requires frames != []
    ensures Payloads(frames) == (if frames[0].kind == STDOUT then frames[0].payload + Payloads(frames[1..]) else Payloads(frames[1..]))
  {
  }

  lemma NoFrames(frames: seq<Frame>)
    requires frames == []
    ensures AllWellFormed(frames) && EncodeAll(frames) == [] && Payloads(frames) == []
  {
  }

  lemma EncodeLength(f: Frame)
    requires WellFormed(f)
    ensures |Encode(f)| == HEADER + |f.payload|
  {
  }

  /** An empty read ends the loop. */
  lemma {:induction false} EmptyReadEnds(carry: seq<Byte>, chunks: seq<seq<Byte>>, later: seq<seq<Byte>>)
    requires forall c :: c in chunks ==> c != []
    ensures Written(carry, chunks + [[]] + later) == Written(carry, chunks)
    decreases |chunks|
  {
    hide Scan;
    var all := chunks + [[]] + later;
    if chunks == [] {
      assert all[0] == [];
    } else {
      assert chunks[0] in chunks && all[1..] == chunks[1..] + [[]] + later && all[0] == chunks[0];
      assert forall c :: c in chunks[1..] ==> c in chunks;
      EmptyReadEnds(Scan(carry + chunks[0], 0).carry, chunks[1..], later);
    }
  }
}
