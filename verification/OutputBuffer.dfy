/** The bounded output buffer of a shell session, a fixed head and a ring-buffer tail,
    and the text a tool call shows of it. */
module OutputBuffer {
  import opened Seqs
  import opened PromptDrain

  // ---------------------------------------------------------------- head and tail

  datatype Sizes = Sizes(head: nat, tail: nat)
  datatype Buffer = Buffer(head: seq<Byte>, tail: seq<Byte>, headDone: bool)

  const EMPTY := Buffer([], [], false)

  function Store(sz: Sizes, b: Buffer, data: seq<Byte>): Buffer
    requires |b.head| <= sz.head
  {
    if data == [] then b
    else if b.headDone then b.(tail := LastN(b.tail + data, sz.tail))
    else
      var remaining := sz.head - |b.head|;
      var n := Min(remaining, |data|);
      Buffer(b.head + data[..n], LastN(b.tail + data[n..], sz.tail), data[n..] != [] || remaining == 0)
  }

  /** The first bytes of what was stored, up to the head size. */
  function HeadOf(sz: Sizes, s: seq<Byte>): seq<Byte> { s[..Min(sz.head, |s|)] }

  /** The last bytes of what came after the head, up to the tail size. */
  function TailOf(sz: Sizes, s: seq<Byte>): seq<Byte> { LastN(s[Min(sz.head, |s|)..], sz.tail) }

  function View(sz: Sizes, s: seq<Byte>): seq<Byte> { HeadOf(sz, s) + TailOf(sz, s) }

  /** b is what storing s leaves, however s was split into calls. */
  predicate Represents(sz: Sizes, b: Buffer, s: seq<Byte>) {
    && b.head == HeadOf(sz, s)
    && b.tail == TailOf(sz, s)
    && (if b.headDone then sz.head <= |s| else |s| <= sz.head)
  }

  lemma StoreTail(sz: Sizes, b: Buffer, s: seq<Byte>, data: seq<Byte>)
    requires Represents(sz, b, s) && b.headDone
    ensures Represents(sz, Store(sz, b, data), s + data)
  {
    if data == [] { assert s + data == s; }
    assert (s + data)[..sz.head] == s[..sz.head];
    assert (s + data)[sz.head..] == s[sz.head..] + data;
  }

  lemma StoreHead(sz: Sizes, b: Buffer, s: seq<Byte>, data: seq<Byte>)
    requires Represents(sz, b, s) && !b.headDone
    ensures |b.head| <= sz.head && Represents(sz, Store(sz, b, data), s + data)
  {
    HeadOnly(sz, b, s);
    if data == [] { assert s + data == s; } else { StoreFirst(sz, s, data); }
  }

  lemma HeadOnly(sz: Sizes, b: Buffer, s: seq<Byte>)
    requires Represents(sz, b, s) && !b.headDone
    ensures |s| <= sz.head && b == Buffer(s, [], false)
  {
    assert s[..|s|] == s && s[|s|..] == [];
  }

  lemma StoreFirst(sz: Sizes, s: seq<Byte>, data: seq<Byte>)
    requires |s| <= sz.head && data != []
    ensures Represents(sz, Store(sz, Buffer(s, [], false), data), s + data)
  {
    hide LastN;
    var n := Min(sz.head - |s|, |data|);
    assert (s + data)[..|s| + n] == s + data[..n];
    assert (s + data)[|s| + n..] == data[n..] == [] + data[n..];
  }

  lemma StoreRepresents(sz: Sizes, b: Buffer, s: seq<Byte>, data: seq<Byte>)
    requires Represents(sz, b, s)
    ensures |b.head| <= sz.head && Represents(sz, Store(sz, b, data), s + data)
  {
    hide Store, Represents;
    if b.headDone { StoreTail(sz, b, s, data); } else { StoreHead(sz, b, s, data); }
    assert |b.head| <= sz.head by { HeadBound(sz, b, s); }
  }

  lemma HeadBound(sz: Sizes, b: Buffer, s: seq<Byte>)
    requires Represents(sz, b, s)
    ensures |b.head| <= sz.head
  {
  }

  function StoreAll(sz: Sizes, b: Buffer, calls: seq<seq<Byte>>): (r: Buffer)
    requires |b.head| <= sz.head
    ensures |r.head| <= sz.head
    decreases |calls|
  {
    if calls == [] then b else StoreAll(sz, Store(sz, b, calls[0]), calls[1..])
  }

  lemma {:induction false} StoreAllRepresents(sz: Sizes, b: Buffer, calls: seq<seq<Byte>>, s: seq<Byte>)
    requires Represents(sz, b, s)
    ensures |b.head| <= sz.head && Represents(sz, StoreAll(sz, b, calls), s + Flatten(calls))
    decreases |calls|
  {
    hide Store, Represents;
    HeadBound(sz, b, s);
    if calls == [] {
      assert s + [] == s;
    } else {
      StoreRepresents(sz, b, s, calls[0]);
      Assoc(s, calls[0], Flatten(calls[1..]));
      StoreAllRepresents(sz, Store(sz, b, calls[0]), calls[1..], s + calls[0]);
    }
  }

  /** Whatever the call boundaries, head and tail are determined by the concatenation of the calls,
      and hold all of it when it fits. */
  lemma StoredCalls(sz: Sizes, calls: seq<seq<Byte>>)
    ensures var b, s := StoreAll(sz, EMPTY, calls), Flatten(calls);
            && b.head == s[..Min(sz.head, |s|)]
            && b.tail == LastN(s[Min(sz.head, |s|)..], sz.tail)
            && (|s| <= sz.head + sz.tail <==> b.head + b.tail == s)
  {
    hide StoreAll, Flatten;
    var s := Flatten(calls);
    EmptyRepresents(sz);
    StoreAllRepresents(sz, EMPTY, calls, []);
    assert [] + s == s;
    ViewLength(sz, s);
    if |s| <= sz.head + sz.tail { ViewWhole(sz, s); }
  }

  lemma ViewLength(sz: Sizes, s: seq<Byte>)
    ensures |View(sz, s)| == Min(|s|, sz.head + sz.tail)
  {
  }

  lemma EmptyRepresents(sz: Sizes)
    ensures Represents(sz, EMPTY, [])
  {
  }

  // ---------------------------------------------------------------- what a tool call shows

  const UNDERSCORE: Byte := 95
  const START_TEXT: seq<Byte> := [95, 95, 83, 84, 65, 82, 84, 95]
  const END_TEXT: seq<Byte> := [95, 95, 69, 78, 68, 95]

  predicate IsWord(b: Byte) { IsDigit(b) || IsLetter(b) || b == UNDERSCORE }
  predicate IsSpace(b: Byte) { 9 <= b <= 13 || b == 32 }

  function SkipWhile(p: Byte -> bool, s: seq<Byte>, i: nat): (k: nat)
    requires i <= |s|
    ensures i <= k <= |s|
    decreases |s| - i
  {
    if i < |s| && p(s[i]) then SkipWhile(p, s, i + 1) else i
  }

  /** The last index from lo on at which two underscores end no later than hi. */
  function LastDouble(s: seq<Byte>, lo: nat, hi: nat): (r: Option<nat>)
    requires hi <= |s|
    ensures r.Some? ==> lo <= r.value && r.value + 2 <= hi
  {
    if hi < lo + 2 then None
    else if s[hi - 2] == UNDERSCORE && s[hi - 1] == UNDERSCORE then Some(hi - 2)
    else LastDouble(s, lo, hi - 1)
  }

  /** Length of the marker s starts with, or 0: __START_\w+__\s* or __END_\w+__:\d+\s* */
  function MarkerLength(s: seq<Byte>): (n: nat)
    ensures n <= |s|
    ensures n > 0 ==> At(s, START_TEXT, 0) || At(s, END_TEXT, 0)
  {
    if At(s, START_TEXT, 0) then
      var double := LastDouble(s, |START_TEXT| + 1, SkipWhile(IsWord, s, |START_TEXT|));
      if double.Some? then SkipWhile(IsSpace, s, double.value + 2) else 0
    else if At(s, END_TEXT, 0) then
      var e := SkipWhile(IsWord, s, |END_TEXT|);
      if |END_TEXT| + 3 <= e < |s| && s[e - 2] == UNDERSCORE && s[e - 1] == UNDERSCORE && s[e] == COLON then
        var d := SkipDigits(s, e + 1);
        if d > e + 1 then SkipWhile(IsSpace, s, d) else 0
      else 0
    else 0
  }

  function StripMarkers(s: seq<Byte>): seq<Byte>
    decreases |s|
  {
    if s == [] then []
    else if MarkerLength(s) > 0 then StripMarkers(s[MarkerLength(s)..])
    else [s[0]] + StripMarkers(s[1..])
  }

  function RemoveCr(s: seq<Byte>): seq<Byte> {
    if s == [] then []
    else if s[0] == CR then RemoveCr(s[1..])
    else [s[0]] + RemoveCr(s[1..])
  }

  function LStripLf(s: seq<Byte>): seq<Byte> {
    if s != [] && s[0] == LF then LStripLf(s[1..]) else s
  }

  /** Without the echoed command line, when a command is given and the text starts with it. */
  function StripEcho(s: seq<Byte>, command: seq<Byte>): (r: seq<Byte>)
    ensures |r| <= |s| && r == s[|s| - |r|..]
  {
    if command != [] && At(s, command + [LF], 0) then s[|command| + 1..] else s
  }

  /** Python's s[-n:] for any integer n: all of s when n is 0. */
  function SliceFromEnd(s: seq<Byte>, n: int): (r: seq<Byte>)
    ensures |r| <= |s| && r == s[|s| - |r|..]
  {
    if n == 0 || n >= |s| then s
    else if n > 0 then s[|s| - n..]
    else s[Min(-n, |s|)..]
  }

  /** The text shown, with the numbers of the truncation banner when there is one. */
  datatype Shown = Shown(banner: Option<(int, nat)>, body: seq<Byte>)

  /** The text of the buffer without markers, CRs, echo and surrounding line ends. */
  function Trimmed(raw: seq<Byte>, command: seq<Byte>): seq<Byte> {
    RStripLf(LStripLf(StripEcho(RemoveCr(StripMarkers(raw)), command)))
  }

  function Display(raw: seq<Byte>, maxOutput: int, command: seq<Byte>): Shown { Limit(Trimmed(raw, command), maxOutput) }

  function Limit(full: seq<Byte>, maxOutput: int): Shown {
    if |full| <= maxOutput then Shown(None, full)
    else Shown(Some((maxOutput, |full|)), SliceFromEnd(full, maxOutput))
  }

  // ---------------------------------------------------------------- the shown text is a suffix of the output

  predicate MarkerFree(s: seq<Byte>) {
    forall i :: 0 <= i < |s| ==> !At(s, START_TEXT, i) && !At(s, END_TEXT, i)
  }

  ghost predicate EndsIn(s: seq<Byte>, t: seq<Byte>) { |t| <= |s| && t == s[|s| - |t|..] }

  lemma {:induction false} StripMarkersPlain(s: seq<Byte>)
    requires MarkerFree(s)
    ensures StripMarkers(s) == s
  {
    if s != [] {
      assert MarkerLength(s) == 0;
      forall i | 0 <= i < |s[1..]| ensures !At(s[1..], START_TEXT, i) && !At(s[1..], END_TEXT, i) {
        assert s[1..][i..] == s[i + 1..];
        AtTail(s, START_TEXT, i);
        AtTail(s, END_TEXT, i);
      }
      StripMarkersPlain(s[1..]);
    }
  }

  lemma AtTail(s: seq<Byte>, p: seq<Byte>, i: nat)
    requires s != []
    ensures At(s[1..], p, i) ==> At(s, p, i + 1)
  {
  }

  lemma {:induction false} RemoveCrPlain(s: seq<Byte>)
    requires CR !in s
    ensures RemoveCr(s) == s
  {
    if s != [] { RemoveCrPlain(s[1..]); }
  }

  /** The text before truncation is a range of the buffer that leaves out only newlines at its end. */
  lemma DisplayRange(raw: seq<Byte>, maxOutput: int, command: seq<Byte>) returns (p: nat, q: nat)
    requires CR !in raw && MarkerFree(raw)
    ensures p <= q <= |raw|
    ensures forall i :: q <= i < |raw| ==> raw[i] == LF
    ensures p < q ==> raw[q - 1] != LF
    ensures Display(raw, maxOutput, command) == Limit(raw[p..q], maxOutput)
  {
    hide StripMarkers, RemoveCr, StripEcho, LStripLf, RStripLf, Limit, MarkerFree;
    StripMarkersPlain(raw);
    RemoveCrPlain(raw);
    p, q := TrimRange(raw, command);
  }

  lemma TrimRange(raw: seq<Byte>, command: seq<Byte>) returns (p: nat, q: nat)
    ensures p <= q <= |raw|
    ensures forall i :: q <= i < |raw| ==> raw[i] == LF
    ensures p < q ==> raw[q - 1] != LF
    ensures RStripLf(LStripLf(StripEcho(raw, command))) == raw[p..q]
  {
    hide StripEcho, LStripLf, RStripLf;
    p := FrontRange(raw, command);
    RStripRange(raw, p);
    q := p + |RStripLf(raw[p..])|;
  }

  lemma {:induction false} LStripSuffix(s: seq<Byte>)
    ensures |LStripLf(s)| <= |s| && LStripLf(s) == s[|s| - |LStripLf(s)|..]
  {
    if s != [] && s[0] == LF { LStripSuffix(s[1..]); }
  }

  lemma FrontRange(raw: seq<Byte>, command: seq<Byte>) returns (p: nat)
    ensures p <= |raw| && LStripLf(StripEcho(raw, command)) == raw[p..]
  {
    hide StripEcho, LStripLf;
    var a := StripEcho(raw, command);
    LStripSuffix(a);
    SuffixOfSuffix(raw, a, LStripLf(a));
    p := |raw| - |LStripLf(a)|;
  }

  lemma RStripRange(raw: seq<Byte>, p: nat)
    requires p <= |raw|
    ensures var n := |RStripLf(raw[p..])|;
            && RStripLf(raw[p..]) == raw[p..p + n]
            && (forall i :: p + n <= i < |raw| ==> raw[i] == LF)
            && (n > 0 ==> raw[p + n - 1] != LF)
  {
    hide RStripLf;
    var b := raw[p..];
    assert forall i :: p <= i < |raw| ==> raw[i] == b[i - p];
  }

  lemma SuffixOfSuffix(s: seq<Byte>, a: seq<Byte>, b: seq<Byte>)
    requires |b| <= |a| <= |s| && a == s[|s| - |a|..] && b == a[|a| - |b|..]
    ensures b == s[|s| - |b|..]
  {
  }

  /** The shown body respects the limit exactly when the limit is positive, or zero with nothing to show:
      a zero limit shows everything. */
  lemma BodyLimit(full: seq<Byte>, maxOutput: int)
    ensures |Limit(full, maxOutput).body| <= maxOutput <==> 0 < maxOutput || (maxOutput == 0 && full == [])
    ensures maxOutput == 0 ==> Limit(full, maxOutput).body == full
  {
  }

  /** A range ending at q of the buffer is a range of the stored stream, when it stays in the tail. */
  lemma TailRange(sz: Sizes, s: seq<Byte>, r: nat, q: nat)
    requires |s| > sz.head + sz.tail && sz.head <= r <= q <= sz.head + sz.tail
    ensures |View(sz, s)| == sz.head + sz.tail
    ensures View(sz, s)[r..q] == s[|s| - sz.head - sz.tail + r..|s| - sz.head - sz.tail + q]
  {
    var skip := |s| - sz.head - sz.tail;
    assert TailOf(sz, s) == s[sz.head + skip..];
    forall i | r <= i < q ensures View(sz, s)[i] == s[skip + i] {}
  }

  /** The body as a range of the buffer. */
  lemma LimitRange(raw: seq<Byte>, p: nat, q: nat, maxOutput: int) returns (r: nat)
    requires p <= q <= |raw|
    ensures p <= r <= q && Limit(raw[p..q], maxOutput).body == raw[r..q]
    ensures 0 < maxOutput ==> q - r <= maxOutput && (r == p || r == q - maxOutput)
  {
    r := q - |Limit(raw[p..q], maxOutput).body|;
    SliceOfSlice(raw, p, q, r - p, q - p);
    assert raw[p..q][r - p..] == raw[p..q][r - p..q - p];
  }

  lemma SuffixWhole(s: seq<Byte>, r: nat, q: nat)
    requires r <= q == |RStripLf(s)|
    ensures EndsIn(RStripLf(s), s[r..q])
  {
    hide RStripLf;
    assert s[r..q] == RStripLf(s)[r..];
  }

  lemma SuffixDropped(sz: Sizes, s: seq<Byte>, r: nat, q: nat)
    requires |s| > sz.head + sz.tail && sz.head <= r <= q == sz.head + sz.tail - (|s| - |RStripLf(s)|)
    ensures |View(sz, s)| == sz.head + sz.tail && EndsIn(RStripLf(s), View(sz, s)[r..q])
  {
    hide RStripLf, View;
    TailRange(sz, s, r, q);
    SuffixWhole(s, |s| - sz.head - sz.tail + r, |RStripLf(s)|);
  }

  lemma DisplayLength(raw: seq<Byte>, maxOutput: int, command: seq<Byte>)
    ensures var body, full := Display(raw, maxOutput, command).body, Trimmed(raw, command);
            (|full| <= maxOutput ==> body == full) && (0 < maxOutput <= |full| ==> |body| == maxOutput)
  {
    hide Trimmed;
  }

  lemma EndOfLength(s: seq<Byte>, t: seq<Byte>)
    requires EndsIn(s, t)
    ensures |t| <= |s| && t == s[|s| - |t|..]
  {
  }

  /** The body is the end of the command's stream, up to final newlines: always when the stream fits the buffer,
      and otherwise when the limit and the final newlines together fit the tail. It is as long as the limit allows:
      its last maxOutput bytes once the trimmed buffer has that many, and all of the trimmed buffer before. */
  lemma BodyIsSuffix(sz: Sizes, s: seq<Byte>, maxOutput: int, command: seq<Byte>)
    requires CR !in s && MarkerFree(View(sz, s))
    requires |s| <= sz.head + sz.tail || (0 < maxOutput && maxOutput + |s| - |RStripLf(s)| <= sz.tail)
    ensures var body, full := Display(View(sz, s), maxOutput, command).body, Trimmed(View(sz, s), command);
            && EndsIn(RStripLf(s), body)
            && (|full| <= maxOutput ==> body == full)
            && (0 < maxOutput <= |full| ==>
                |RStripLf(s)| >= maxOutput && body == RStripLf(s)[|RStripLf(s)| - maxOutput..])
  {
    DisplayLength(View(sz, s), maxOutput, command);
    hide Display, Trimmed, MarkerFree, RStripLf, Limit, View, EndsIn;
    ViewChars(sz, s, CR);
    var p, q := DisplayRange(View(sz, s), maxOutput, command);
    var r := LimitRange(View(sz, s), p, q, maxOutput);
    if p == q {
      EndsInNothing(RStripLf(s), View(sz, s)[r..q]);
    } else if |s| <= sz.head + sz.tail {
      ViewWhole(sz, s);
      SuffixWhole(s, r, q);
    } else {
      ViewEnd(sz, s, q);
      SuffixDropped(sz, s, r, q);
    }
    EndOfLength(RStripLf(s), View(sz, s)[r..q]);
  }

  lemma EndsInNothing(s: seq<Byte>, t: seq<Byte>)
    requires t == []
    ensures EndsIn(s, t)
  {
  }

  lemma ViewWhole(sz: Sizes, s: seq<Byte>)
    requires |s| <= sz.head + sz.tail
    ensures View(sz, s) == s
  {
  }

  lemma ViewChars(sz: Sizes, s: seq<Byte>, c: Byte)
    requires c !in s
    ensures c !in View(sz, s)
  {
    NotInSlice(s, c, 0, Min(sz.head, |s|));
    assert TailOf(sz, s) == s[|s| - |TailOf(sz, s)|..|s|];
    NotInSlice(s, c, |s| - |TailOf(sz, s)|, |s|);
  }

  /** When the middle was dropped but not all of the tail is newlines, buffer and stream end alike. */
  lemma ViewEnd(sz: Sizes, s: seq<Byte>, q: nat)
    requires |s| > sz.head + sz.tail && |s| - |RStripLf(s)| < sz.tail
    requires 0 < q <= |View(sz, s)| && View(sz, s)[q - 1] != LF
    requires forall i :: q <= i < |View(sz, s)| ==> View(sz, s)[i] == LF
    ensures q == sz.head + sz.tail - (|s| - |RStripLf(s)|)
  {
    hide RStripLf;
    var raw, t := View(sz, s), RStripLf(s);
    var skip := |s| - sz.head - sz.tail;
    assert TailOf(sz, s) == s[sz.head + skip..];
    assert forall i :: sz.head <= i < |raw| ==> raw[i] == s[skip + i];
    var e := |t| - skip;
    assert raw[e - 1] == t[|t| - 1] != LF;
    assert forall i :: e <= i < |raw| ==> raw[i] == LF;
  }

  predicate AllLf(s: seq<Byte>) { forall b :: b in s ==> b == LF }

  lemma LStripOne(s: seq<Byte>)
    ensures LStripLf([LF] + s) == LStripLf(s)
  {
    assert ([LF] + s)[1..] == s;
  }

  lemma RStripOne(s: seq<Byte>)
    ensures RStripLf(s + [LF]) == RStripLf(s)
  {
    assert (s + [LF])[..|s|] == s;
  }

  lemma {:induction false} LStripLfs(lfs: seq<Byte>, t: seq<Byte>)
    requires AllLf(lfs) && (t != [] ==> t[0] != LF)
    ensures LStripLf(lfs + t) == t
    decreases |lfs|
  {
    if lfs == [] {
      assert lfs + t == t;
    } else {
      hide LStripLf;
      var more := lfs[1..];
      assert lfs[0] in lfs && lfs + t == [LF] + (more + t) && forall b :: b in more ==> b in lfs;
      LStripLfs(more, t);
      LStripOne(more + t);
    }
  }

  lemma {:induction false} RStripLfs(t: seq<Byte>, lfs: seq<Byte>)
    requires AllLf(lfs) && (t != [] ==> t[|t| - 1] != LF)
    ensures RStripLf(t + lfs) == t
    decreases |lfs|
  {
    if lfs == [] {
      assert t + lfs == t;
    } else {
      var n := |lfs| - 1;
      var less := lfs[..n];
      assert lfs[n] in lfs && t + lfs == (t + less) + [LF] && forall b :: b in less ==> b in lfs;
      RStripLfs(t, less);
      RStripOne(t + less);
    }
  }

  /** What a terminal shows of a command: its echo, line ends, the text it prints, line ends. */
  function Echoed(command: seq<Byte>, before: seq<Byte>, text: seq<Byte>, after: seq<Byte>): seq<Byte> {
    command + [LF] + (before + (text + after))
  }

  lemma TrimEchoed(command: seq<Byte>, before: seq<Byte>, text: seq<Byte>, after: seq<Byte>)
    requires command != [] && AllLf(before) && AllLf(after)
    requires text != [] ==> text[0] != LF && text[|text| - 1] != LF
    ensures RStripLf(LStripLf(StripEcho(Echoed(command, before, text, after), command))) == text
  {
    hide RStripLf, LStripLf;
    var s, rest := Echoed(command, before, text, after), before + (text + after);
    assert At(s, command + [LF], 0) && StripEcho(s, command) == rest;
    if text == [] {
      assert rest == (before + after) + [] && AllLf(before + after);
      LStripLfs(before + after, []);
      RStripLfs([], []);
      assert [] + [] == text;
    } else {
      LStripLfs(before, text + after);
      RStripLfs(text, after);
    }
  }

  /** When a command's output fits the buffer, what is shown is the text without echo and surrounding line ends,
      cut to its last characters, with a banner, only when it exceeds the limit. */
  lemma TextShown(
    sz: Sizes, command: seq<Byte>, before: seq<Byte>, text: seq<Byte>, after: seq<Byte>, maxOutput: int
  )
    requires command != [] && AllLf(before) && AllLf(after)
    requires text != [] ==> text[0] != LF && text[|text| - 1] != LF
    requires var s := Echoed(command, before, text, after); |s| <= sz.head + sz.tail && CR !in s && MarkerFree(s)
    ensures Display(View(sz, Echoed(command, before, text, after)), maxOutput, command) == Limit(text, maxOutput)
    ensures |text| <= maxOutput ==> Limit(text, maxOutput) == Shown(None, text)
    ensures 0 < maxOutput < |text| ==>
              Limit(text, maxOutput) == Shown(Some((maxOutput, |text|)), text[|text| - maxOutput..])
  {
    hide StripMarkers, RemoveCr, StripEcho, LStripLf, RStripLf, MarkerFree, View, Echoed;
    var s := Echoed(command, before, text, after);
    ViewWhole(sz, s);
    StripMarkersPlain(s);
    RemoveCrPlain(s);
    TrimEchoed(command, before, text, after);
  }

  /** Whatever is in the buffer: without its markers and CRs, text that does not start with the command's echo loses its
      surrounding line ends and nothing else. */
  lemma UnechoedShown(raw: seq<Byte>, command: seq<Byte>, before: seq<Byte>, text: seq<Byte>, after: seq<Byte>, maxOutput: int)
    requires RemoveCr(StripMarkers(raw)) == before + (text + after)
    requires AllLf(before) && AllLf(after) && (text != [] ==> text[0] != LF && text[|text| - 1] != LF)
    requires command != [] ==> !At(before + (text + after), command + [LF], 0)
    ensures Display(raw, maxOutput, command) == Limit(text, maxOutput)
  {
    hide StripMarkers, RemoveCr, LStripLf, RStripLf, Limit;
    var all := before + (text + after);
    if text == [] {
      assert all == (before + after) + [] && AllLf(before + after);
      LStripLfs(before + after, []);
      RStripLfs([], []);
      assert [] + [] == text;
    } else {
      LStripLfs(before, text + after);
      RStripLfs(text, after);
    }
  }

  /** And text that starts with the echo loses that too. */
  lemma EchoedShown(raw: seq<Byte>, command: seq<Byte>, before: seq<Byte>, text: seq<Byte>, after: seq<Byte>, maxOutput: int)
    requires RemoveCr(StripMarkers(raw)) == Echoed(command, before, text, after)
    requires command != [] && AllLf(before) && AllLf(after)
    requires text != [] ==> text[0] != LF && text[|text| - 1] != LF
    ensures Display(raw, maxOutput, command) == Limit(text, maxOutput)
  {
    hide StripMarkers, RemoveCr, StripEcho, LStripLf, RStripLf, Echoed, Limit;
    TrimEchoed(command, before, text, after);
  }

  /** Up to the limit the text is shown whole, without a banner. Beyond it a banner gives the limit and the full length;
      a positive limit shows that many last bytes, zero shows all, a negative one drops that many bytes from the front. */
  lemma LimitExact(full: seq<Byte>, maxOutput: int)
    ensures var shown := Limit(full, maxOutput);
            && (|full| <= maxOutput ==> shown.banner.None? && shown.body == full)
            && (|full| > maxOutput ==> shown.banner == Some((maxOutput, |full|)))
            && (0 < maxOutput < |full| ==> shown.body == full[|full| - maxOutput..])
            && (maxOutput == 0 ==> shown.body == full)
            && (maxOutput < 0 ==> shown.body == if -maxOutput <= |full| then full[-maxOutput..] else [])
  {
  }

  /** Removing CRs keeps every other byte, in order. */
  lemma {:induction false} RemoveCrExact(a: seq<Byte>, b: seq<Byte>)
    ensures RemoveCr(a + b) == RemoveCr(a) + RemoveCr(b)
    ensures CR !in RemoveCr(a) && (CR !in a ==> RemoveCr(a) == a)
  {
    if a == [] {
      assert a + b == b;
    } else {
      assert (a + b)[1..] == a[1..] + b;
      RemoveCrExact(a[1..], b);
    }
  }

  // ---------------------------------------------------------------- what counts as a marker

  /** The byte classes and texts are those of the characters they stand for. */
  lemma BytesOfCharacters(c: char, b: Byte)
    requires c as int == b
    ensures IsDigit(b) <==> '0' <= c <= '9'
    ensures IsLetter(b) <==> 'A' <= c <= 'Z' || 'a' <= c <= 'z'
    ensures IsWord(b) <==> '0' <= c <= '9' || 'A' <= c <= 'Z' || 'a' <= c <= 'z' || c == '_'
    ensures IsSpace(b) <==> c in " \t\n\r\U{0B}\U{0C}"
    ensures (b == LF <==> c == '\n') && (b == CR <==> c == '\r') && (b == COLON <==> c == ':') && (b == BAR <==> c == '|')
    ensures (b == MINUS <==> c == '-') && (b == ESC <==> c == '\U{1B}') && (b == BEL <==> c == '\U{07}')
    ensures (b == BRACKET <==> c == '[') && (b == END_BRACKET <==> c == ']') && (b == UNDERSCORE <==> c == '_')
    ensures Spells(START_TEXT, "__START_") && Spells(END_TEXT, "__END_")
  {
    var a := " \t\n\r\U{0B}\U{0C}";
    assert a[0] == ' ' && a[1] == '\t' && a[2] == '\n' && a[3] == '\r' && a[4] == '\U{0B}' && a[5] == '\U{0C}';
  }

  /** The bytes are the codes of the text's characters. */
  predicate Spells(bytes: seq<Byte>, text: string) {
    |bytes| == |text| && forall i :: 0 <= i < |text| ==> bytes[i] == text[i] as int
  }

  /** s starts with the first alternative, __START_ name __ and white space, the name ending at u, all of it at v. */
  predicate StartMarker(s: seq<Byte>, u: nat, v: nat) {
    && At(s, START_TEXT, 0) && |START_TEXT| < u && u + 2 <= v <= |s|
    && (forall k :: |START_TEXT| <= k < u ==> IsWord(s[k])) && s[u] == UNDERSCORE && s[u + 1] == UNDERSCORE
    && forall k :: u + 2 <= k < v ==> IsSpace(s[k])
  }

  /** s starts with the second, __END_ name __ : digits and white space, the digits ending at d. */
  predicate EndMarker(s: seq<Byte>, u: nat, d: nat, v: nat) {
    && At(s, END_TEXT, 0) && |END_TEXT| < u && u + 3 < d <= v <= |s|
    && (forall k :: |END_TEXT| <= k < u ==> IsWord(s[k])) && s[u] == UNDERSCORE && s[u + 1] == UNDERSCORE
    && s[u + 2] == COLON && (forall k :: u + 3 <= k < d ==> IsDigit(s[k]))
    && forall k :: d <= k < v ==> IsSpace(s[k])
  }

  ghost predicate StartsWithMarker(s: seq<Byte>, v: nat) {
    (exists u: nat :: StartMarker(s, u, v)) || exists u: nat, d: nat :: EndMarker(s, u, d, v)
  }

  lemma {:induction false} SkipWhileStops(p: Byte -> bool, s: seq<Byte>, i: nat)
    requires i <= |s|
    ensures var k := SkipWhile(p, s, i); (forall j :: i <= j < k ==> p(s[j])) && (k < |s| ==> !p(s[k]))
    decreases |s| - i
  {
    if i < |s| && p(s[i]) { SkipWhileStops(p, s, i + 1); }
  }

  lemma {:induction false} LastDoubleIsLast(s: seq<Byte>, lo: nat, hi: nat)
    requires hi <= |s|
    ensures var r := LastDouble(s, lo, hi);
            && (r.Some? ==> s[r.value] == UNDERSCORE && s[r.value + 1] == UNDERSCORE)
            && forall u :: lo <= u && u + 2 <= hi && s[u] == UNDERSCORE && s[u + 1] == UNDERSCORE ==> r.Some? && u <= r.value
    decreases hi
  {
    if lo + 2 <= hi && !(s[hi - 2] == UNDERSCORE && s[hi - 1] == UNDERSCORE) { LastDoubleIsLast(s, lo, hi - 1); }
  }

  lemma StartLongest(s: seq<Byte>, u: nat, v: nat)
    requires StartMarker(s, u, v)
    ensures v <= MarkerLength(s)
  {
    var e := SkipWhile(IsWord, s, |START_TEXT|);
    SkipWhileStops(IsWord, s, |START_TEXT|);
    assert u + 2 <= e;
    LastDoubleIsLast(s, |START_TEXT| + 1, e);
    var d := LastDouble(s, |START_TEXT| + 1, e).value;
    SkipWhileStops(IsSpace, s, d + 2);
    if u < d { assert IsWord(s[u + 2]); }
  }

  lemma EndLongest(s: seq<Byte>, u: nat, d: nat, v: nat)
    requires EndMarker(s, u, d, v)
    ensures v <= MarkerLength(s)
  {
    assert s[2] == START_TEXT[2] <==> !At(s, END_TEXT, 0) by { assert s[..|END_TEXT|][2] == END_TEXT[2]; }
    var e := SkipWhile(IsWord, s, |END_TEXT|);
    SkipWhileStops(IsWord, s, |END_TEXT|);
    assert e == u + 2;
    var dd := SkipDigits(s, e + 1);
    SkipWhileStops(IsSpace, s, dd);
    if d < dd { assert IsDigit(s[d]); }
  }

  lemma LengthIsStart(s: seq<Byte>)
    requires MarkerLength(s) > 0 && At(s, START_TEXT, 0)
    ensures StartsWithMarker(s, MarkerLength(s))
  {
    var e := SkipWhile(IsWord, s, |START_TEXT|);
    SkipWhileStops(IsWord, s, |START_TEXT|);
    LastDoubleIsLast(s, |START_TEXT| + 1, e);
    var d := LastDouble(s, |START_TEXT| + 1, e).value;
    SkipWhileStops(IsSpace, s, d + 2);
    assert StartMarker(s, d, MarkerLength(s));
  }

  lemma LengthIsEnd(s: seq<Byte>)
    requires MarkerLength(s) > 0 && !At(s, START_TEXT, 0)
    ensures StartsWithMarker(s, MarkerLength(s))
  {
    var e := SkipWhile(IsWord, s, |END_TEXT|);
    SkipWhileStops(IsWord, s, |END_TEXT|);
    SkipWhileStops(IsSpace, s, SkipDigits(s, e + 1));
    assert EndMarker(s, e - 2, SkipDigits(s, e + 1), MarkerLength(s));
  }

  /** A text starts with a marker of the longest length the pattern allows, and with none when the length is 0. */
  lemma MarkerLongest(s: seq<Byte>, v: nat)
    ensures MarkerLength(s) > 0 ==> StartsWithMarker(s, MarkerLength(s))
    ensures StartsWithMarker(s, v) ==> v <= MarkerLength(s)
  {
    hide MarkerLength, StartMarker, EndMarker;
    if MarkerLength(s) > 0 { if At(s, START_TEXT, 0) { LengthIsStart(s); } else { LengthIsEnd(s); } }
    if StartsWithMarker(s, v) {
      if u: nat :| StartMarker(s, u, v) {
        StartLongest(s, u, v);
      } else {
        var u: nat, d: nat :| EndMarker(s, u, d, v);
        EndLongest(s, u, d, v);
      }
    }
  }

  lemma MarkerFirst(marker: seq<Byte>, rest: seq<Byte>)
    requires marker != [] ==> MarkerLength(marker + rest) == |marker|
    ensures StripMarkers(marker + rest) == StripMarkers(rest)
  {
    hide MarkerLength;
    if marker == [] { assert marker + rest == rest; } else { assert (marker + rest)[|marker|..] == rest; }
  }

  lemma NoMarkerFirst(b: Byte, rest: seq<Byte>)
    requires MarkerLength([b] + rest) == 0
    ensures StripMarkers([b] + rest) == [b] + StripMarkers(rest)
  {
    hide MarkerLength;
    assert ([b] + rest)[1..] == rest;
  }

  /** Markers are cut out where they stand, and other text stays. */
  lemma {:induction false} MarkersCut(text: seq<Byte>, marker: seq<Byte>, rest: seq<Byte>)
    requires forall i :: 0 <= i < |text| ==> MarkerLength(text[i..] + (marker + rest)) == 0
    requires marker != [] ==> MarkerLength(marker + rest) == |marker|
    ensures StripMarkers(text + (marker + rest)) == text + StripMarkers(rest)
    decreases |text|
  {
    hide MarkerLength, StripMarkers;
    if text == [] {
      assert text + (marker + rest) == marker + rest && [] + StripMarkers(rest) == StripMarkers(rest);
      MarkerFirst(marker, rest);
    } else {
      var b, more := text[0], text[1..];
      assert text[0..] == text == [b] + more && text + (marker + rest) == [b] + (more + (marker + rest));
      forall i | 0 <= i < |more| ensures MarkerLength(more[i..] + (marker + rest)) == 0 { assert more[i..] == text[i + 1..]; }
      MarkersCut(more, marker, rest);
      NoMarkerFirst(b, more + (marker + rest));
      Assoc([b], more, StripMarkers(rest));
    }
  }
}
