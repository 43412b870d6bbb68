/** What one iteration of the drain thread does with a read, once the shell has left its init state:
    strip escapes, look for the prompt token on the last line, store output, keep a carry window. */
module PromptDrain {
  import opened Seqs

  const LF: Byte := 10
  const CR: Byte := 13
  const ESC: Byte := 27
  const BEL: Byte := 7
  const MINUS: Byte := 45
  const ZERO: Byte := 48
  const COLON: Byte := 58
  const BRACKET: Byte := 91
  const END_BRACKET: Byte := 93
  const BAR: Byte := 124
  /** What the carry window keeps beyond the token's own length. */
  const SLACK := 16

  predicate IsDigit(b: Byte) { ZERO <= b <= 57 }
  predicate IsLetter(b: Byte) { 65 <= b <= 90 || 97 <= b <= 122 }

  // ---------------------------------------------------------------- stripping

  function SkipParameters(s: seq<Byte>, i: nat): (k: nat)
    requires i <= |s|
    ensures i <= k <= |s|
    decreases |s| - i
  {
    if i < |s| && (IsDigit(s[i]) || s[i] == 59 || s[i] == 63) then SkipParameters(s, i + 1) else i
  }

  /** Length of the CSI or OSC sequence s starts with, or 0. */
  function EscapeLength(s: seq<Byte>): (n: nat)
    ensures n <= |s|
    ensures n > 0 ==> s[0] == ESC
  {
    if |s| < 2 || s[0] != ESC then 0
    else if s[1] == BRACKET then
      var k := SkipParameters(s, 2);
      if k < |s| && IsLetter(s[k]) then k + 1 else 0
    else if s[1] == END_BRACKET then
      var bell := Find(s, [BEL], 2);
      if bell.Some? then bell.value + 1 else 0
    else 0
  }

  function StripEscapes(s: seq<Byte>): seq<Byte>
    decreases |s|
  {
    if s == [] then []
    else if EscapeLength(s) > 0 then StripEscapes(s[EscapeLength(s)..])
    else [s[0]] + StripEscapes(s[1..])
  }

  function MapCr(s: seq<Byte>): (r: seq<Byte>)
    ensures |r| == |s|
  {
    seq(|s|, i requires 0 <= i < |s| => if s[i] == CR then LF else s[i])
  }

  function Strip(data: seq<Byte>): seq<Byte> { MapCr(StripEscapes(data)) }

  lemma {:induction false} StripEscapesPlain(s: seq<Byte>)
    requires ESC !in s
    ensures StripEscapes(s) == s
  {
    if s != [] { StripEscapesPlain(s[1..]); }
  }

  lemma MapCrConcat(a: seq<Byte>, b: seq<Byte>)
    ensures MapCr(a + b) == MapCr(a) + MapCr(b)
  {
  }

  lemma MapCrClean(s: seq<Byte>)
    requires CR !in s
    ensures MapCr(s) == s
  {
  }

  /** A carry never holds an escape or a CR, so a read is stripped as if it stood alone. */
  lemma StripRead(carry: seq<Byte>, data: seq<Byte>)
    requires ESC !in carry && CR !in carry && ESC !in data
    ensures Strip(carry + data) == carry + MapCr(data)
  {
    StripEscapesPlain(carry + data);
    MapCrConcat(carry, data);
    MapCrClean(carry);
  }

  /** A CSI sequence: parameters, then a letter. */
  predicate IsCsi(e: seq<Byte>) {
    && |e| >= 3 && e[0] == ESC && e[1] == BRACKET && IsLetter(e[|e| - 1])
    && forall i :: 2 <= i < |e| - 1 ==> IsDigit(e[i]) || e[i] == 59 || e[i] == 63
  }

  /** An OSC sequence: anything up to the first BEL. */
  predicate IsOsc(e: seq<Byte>) {
    && |e| >= 3 && e[0] == ESC && e[1] == END_BRACKET && e[|e| - 1] == BEL
    && forall i :: 2 <= i < |e| - 1 ==> e[i] != BEL
  }

  lemma {:induction false} SkipExact(s: seq<Byte>, i: nat, k: nat)
    requires i <= k < |s| && forall j :: i <= j < k ==> IsDigit(s[j]) || s[j] == 59 || s[j] == 63
    requires !(IsDigit(s[k]) || s[k] == 59 || s[k] == 63)
    ensures SkipParameters(s, i) == k
    decreases k - i
  {
    if i < k { SkipExact(s, i + 1, k); }
  }

  lemma EscapeWhole(e: seq<Byte>, rest: seq<Byte>)
    requires IsCsi(e) || IsOsc(e)
    ensures EscapeLength(e + rest) == |e|
  {
    var s, k := e + rest, |e| - 1;
    if IsCsi(e) {
      SkipExact(s, 2, k);
    } else {
      assert s[k..k + 1] == [s[k]] == [BEL];
      assert At(s, [BEL], k);
      forall j | 2 <= j < k ensures !At(s, [BEL], j) { assert s[j..j + 1] == [s[j]] && s[j] == e[j]; }
    }
  }

  /** A stream as text without ESC and whole escape sequences. */
  datatype Piece = Text(text: seq<Byte>) | Escape(sequence: seq<Byte>)

  predicate WholePiece(p: Piece) {
    match p
    case Text(t) => ESC !in t
    case Escape(e) => IsCsi(e) || IsOsc(e)
  }

  function Raw(pieces: seq<Piece>): seq<Byte> {
    if pieces == [] then [] else (if pieces[0].Text? then pieces[0].text else pieces[0].sequence) + Raw(pieces[1..])
  }

  function TextOnly(pieces: seq<Piece>): seq<Byte> {
    if pieces == [] then []
    else if pieces[0].Text? then pieces[0].text + TextOnly(pieces[1..])
    else TextOnly(pieces[1..])
  }

  lemma {:induction false} StripText(t: seq<Byte>, rest: seq<Byte>)
    requires ESC !in t
    ensures StripEscapes(t + rest) == t + StripEscapes(rest)
  {
    if t == [] {
      assert t + rest == rest;
    } else {
      assert (t + rest)[1..] == t[1..] + rest && t == [t[0]] + t[1..];
      StripText(t[1..], rest);
    }
  }

  /** Whole escape sequences are removed, and nothing else. */
  lemma {:induction false} StripPieces(pieces: seq<Piece>)
    requires forall p :: p in pieces ==> WholePiece(p)
    ensures StripEscapes(Raw(pieces)) == TextOnly(pieces)
  {
    hide EscapeLength, IsCsi, IsOsc;
    if pieces != [] {
      var first, rest := pieces[0], Raw(pieces[1..]);
      assert first in pieces && forall p :: p in pieces[1..] ==> p in pieces;
      StripPieces(pieces[1..]);
      match first
      case Text(t) => StripText(t, rest);
      case Escape(e) =>
        EscapeWhole(e, rest);
        assert e != [] by { EscapeNonEmpty(e); }
        assert (e + rest)[|e|..] == rest;
    }
  }

  /** So stripping a read leaves its text, CRs mapped to LF. */
  lemma StripWhole(pieces: seq<Piece>)
    requires forall p :: p in pieces ==> WholePiece(p)
    ensures Strip(Raw(pieces)) == MapCr(TextOnly(pieces))
  {
    StripPieces(pieces);
  }

  lemma {:induction false} SkipStops(s: seq<Byte>, i: nat)
    requires i <= |s|
    ensures var k := SkipParameters(s, i);
            && (forall j :: i <= j < k ==> IsDigit(s[j]) || s[j] == 59 || s[j] == 63)
            && (k < |s| ==> !(IsDigit(s[k]) || s[k] == 59 || s[k] == 63))
    decreases |s| - i
  {
    if i < |s| && (IsDigit(s[i]) || s[i] == 59 || s[i] == 63) { SkipStops(s, i + 1); }
  }

  /** A text starts with an escape sequence exactly when it starts with a whole CSI or OSC sequence. */
  lemma EscapeIff(s: seq<Byte>, n: nat)
    requires 0 < n <= |s|
    ensures EscapeLength(s) == n <==> IsCsi(s[..n]) || IsOsc(s[..n])
  {
    if IsCsi(s[..n]) || IsOsc(s[..n]) {
      EscapeWhole(s[..n], s[n..]);
      assert s[..n] + s[n..] == s;
    }
    if EscapeLength(s) == n {
      if s[1] == BRACKET {
        SkipStops(s, 2);
        assert IsCsi(s[..n]);
      } else {
        OscEnds(s, n);
      }
    }
  }

  lemma OscEnds(s: seq<Byte>, n: nat)
    requires 0 < n <= |s| && EscapeLength(s) == n && s[1] != BRACKET
    ensures IsOsc(s[..n])
  {
    var k := Find(s, [BEL], 2).value;
    assert At(s, [BEL], k) && s[k..k + 1][0] == s[k];
    forall j | 2 <= j < k ensures s[j] != BEL {
      assert !At(s, [BEL], j);
      assert s[j..j + 1] == [s[j]];
    }
  }

  lemma EscapeFirst(escape: seq<Byte>, rest: seq<Byte>)
    requires escape != [] ==> EscapeLength(escape + rest) == |escape|
    ensures StripEscapes(escape + rest) == StripEscapes(rest)
  {
    hide EscapeLength;
    if escape == [] { assert escape + rest == rest; } else { assert (escape + rest)[|escape|..] == rest; }
  }

  lemma ByteFirst(b: Byte, rest: seq<Byte>)
    requires EscapeLength([b] + rest) == 0
    ensures StripEscapes([b] + rest) == [b] + StripEscapes(rest)
  {
    hide EscapeLength;
    assert ([b] + rest)[1..] == rest;
  }

  /** Sequences are cut out where they stand, and other bytes stay, an unfinished sequence included. */
  lemma {:induction false} EscapesCut(text: seq<Byte>, escape: seq<Byte>, rest: seq<Byte>)
    requires forall i :: 0 <= i < |text| ==> EscapeLength(text[i..] + (escape + rest)) == 0
    requires escape != [] ==> EscapeLength(escape + rest) == |escape|
    ensures StripEscapes(text + (escape + rest)) == text + StripEscapes(rest)
    decreases |text|
  {
    hide EscapeLength, StripEscapes;
    if text == [] {
      assert text + (escape + rest) == escape + rest && [] + StripEscapes(rest) == StripEscapes(rest);
      EscapeFirst(escape, rest);
    } else {
      var b, more := text[0], text[1..];
      assert text[0..] == text == [b] + more && text + (escape + rest) == [b] + (more + (escape + rest));
      forall i | 0 <= i < |more| ensures EscapeLength(more[i..] + (escape + rest)) == 0 { assert more[i..] == text[i + 1..]; }
      EscapesCut(more, escape, rest);
      ByteFirst(b, more + (escape + rest));
      Assoc([b], more, StripEscapes(rest));
    }
  }

  lemma EscapeNonEmpty(e: seq<Byte>)
    requires IsCsi(e) || IsOsc(e)
    ensures e != []
  {
  }

  // ---------------------------------------------------------------- exit codes

  function Digits(n: nat): (t: seq<Byte>)
    ensures t != [] && forall b :: b in t ==> IsDigit(b)
  {
    if n < 10 then [ZERO + n] else Digits(n / 10) + [ZERO + n % 10]
  }

  /** The text the shell prints for an exit code. */
  function Render(code: int): seq<Byte> {
    if code < 0 then [MINUS] + Digits(-code) else Digits(code)
  }

  function Decimal(t: seq<Byte>): nat
    requires forall b :: b in t ==> IsDigit(b)
  {
    if t == [] then 0
    else
      var last: int := t[|t| - 1];
      assert IsDigit(t[|t| - 1]);
      Decimal(t[..|t| - 1]) * 10 + (last - ZERO)
  }

  /** The pattern -?\d+ */
  predicate IsCode(t: seq<Byte>) {
    t != [] && (t[0] == MINUS ==> |t| > 1) && (IsDigit(t[0]) || t[0] == MINUS) && forall b :: b in t[1..] ==> IsDigit(b)
  }

  function ParseInt(t: seq<Byte>): int
    requires IsCode(t)
  {
    if t[0] == MINUS then
      var n: int := Decimal(t[1..]);
      -n
    else
      assert forall b :: b in t ==> b == t[0] || b in t[1..];
      Decimal(t)
  }

  lemma {:induction false} DecimalDigits(n: nat)
    ensures Decimal(Digits(n)) == n
  {
    if n >= 10 {
      DecimalDigits(n / 10);
      var t := Digits(n);
      assert t[..|t| - 1] == Digits(n / 10);
    } else {
      assert Digits(n)[..0] == [];
    }
  }

  lemma ParseRender(code: int)
    ensures Render(code) != [] && IsCode(Render(code)) && ParseInt(Render(code)) == code
  {
    var t := Render(code);
    if code < 0 {
      assert t[1..] == Digits(-code);
      DecimalDigits(-code);
    } else {
      assert forall b :: b in t[1..] ==> b in t;
      DecimalDigits(code);
    }
  }

  // ---------------------------------------------------------------- the prompt pattern

  function SkipDigits(s: seq<Byte>, i: nat): (k: nat)
    requires i <= |s|
    ensures i <= k <= |s|
    ensures forall j :: i <= j < k ==> IsDigit(s[j])
    ensures k < |s| ==> !IsDigit(s[k])
    decreases |s| - i
  {
    if i < |s| && IsDigit(s[i]) then SkipDigits(s, i + 1) else i
  }

  /** A match of token:(-?\d+)\| starting at i, found left to right; the value is the index of the bar. */
  function PromptAt(tok: seq<Byte>, s: seq<Byte>, i: nat): Option<nat> {
    if !At(s, tok, i) || i + |tok| >= |s| || s[i + |tok|] != COLON then None
    else
      var j := i + |tok| + 1;
      var k := if j < |s| && s[j] == MINUS then j + 1 else j;
      var e := SkipDigits(s, k);
      if k < e < |s| && s[e] == BAR then Some(e) else None
  }

  /** The same match as a relation: what the regular expression says. */
  predicate Matches(tok: seq<Byte>, s: seq<Byte>, i: nat, e: nat) {
    i + |tok| + 1 < e < |s| && At(s, tok, i) && s[i + |tok|] == COLON && IsCode(s[i + |tok| + 1..e]) && s[e] == BAR
  }

  lemma PromptAtMatches(tok: seq<Byte>, s: seq<Byte>, i: nat, e: nat)
    ensures PromptAt(tok, s, i) == Some(e) <==> Matches(tok, s, i, e)
  {
    var j := i + |tok| + 1;
    if Matches(tok, s, i, e) {
      var k := if s[j] == MINUS then j + 1 else j;
      assert s[j..e][0] == s[j];
      forall x | j < x < e ensures IsDigit(s[x]) { assert s[x] == s[j..e][1..][x - j - 1]; }
    }
  }

  datatype Match = Match(start: nat, bar: nat)

  /** The leftmost match. */
  function Search(tok: seq<Byte>, s: seq<Byte>, from: nat): (r: Option<Match>)
    ensures r.Some? ==> from <= r.value.start && PromptAt(tok, s, r.value.start) == Some(r.value.bar)
    ensures r.Some? ==> forall i :: from <= i < r.value.start ==> PromptAt(tok, s, i).None?
    ensures r.None? ==> forall i :: from <= i ==> PromptAt(tok, s, i).None?
    decreases |s| - from
  {
    if from >= |s| then None
    else
      var p := PromptAt(tok, s, from);
      if p.Some? then Some(Match(from, p.value)) else Search(tok, s, from + 1)
  }

  // ---------------------------------------------------------------- one iteration

  function RStripLf(s: seq<Byte>): (r: seq<Byte>)
    ensures |r| <= |s| && r == s[..|r|]
    ensures forall i :: |r| <= i < |s| ==> s[i] == LF
    ensures r != [] ==> r[|r| - 1] != LF
  {
    if s != [] && s[|s| - 1] == LF then RStripLf(s[..|s| - 1]) else s
  }

  /** Where the last line starts. */
  function LastLine(s: seq<Byte>): (n: nat)
    ensures n <= |s|
    ensures n > 0 ==> s[n - 1] == LF
    ensures forall i :: n <= i < |s| ==> s[i] != LF
  {
    if s == [] || s[|s| - 1] == LF then |s| else LastLine(s[..|s| - 1])
  }

  datatype Drained = Drained(stored: seq<Byte>, carry: seq<Byte>, code: Option<int>)

  function Window(tok: seq<Byte>): nat { |tok| + SLACK }

  /** The stripped bytes without trailing newlines, unless there is nothing else. */
  function Content(stripped: seq<Byte>): (r: seq<Byte>)
    ensures |r| <= |stripped| && r == stripped[..|r|]
  {
    var trimmed := RStripLf(stripped);
    if trimmed == [] then stripped else trimmed
  }

  function Report(tok: seq<Byte>, content: seq<Byte>, m: Match): Drained
    requires PromptAt(tok, content, m.start) == Some(m.bar)
  {
    PromptAtMatches(tok, content, m.start, m.bar);
    Drained(content[..m.start], [], Some(ParseInt(content[m.start + |tok| + 1..m.bar])))
  }

  /** The last line reaches the end of the content, so it is searched in place, from where it starts. */
  function DrainStripped(tok: seq<Byte>, stripped: seq<Byte>): Drained {
    var content := Content(stripped);
    var found := Search(tok, content, LastLine(content));
    if found.Some? then
      Report(tok, content, found.value)
    else
      var keep := Min(|stripped|, Window(tok));
      if |stripped| > keep then Drained(stripped[..|stripped| - keep], stripped[|stripped| - keep..], None)
      else Drained([], stripped, None)
  }

  lemma DrainFound(tok: seq<Byte>, x: seq<Byte>, m: Match)
    requires Content(x) == x && Search(tok, x, LastLine(x)) == Some(m)
    ensures DrainStripped(tok, x) == Report(tok, x, m)
  {
    hide Search, LastLine, Content, PromptAt, Report;
  }

  lemma ReportParts(tok: seq<Byte>, x: seq<Byte>, m: Match, code: int)
    requires PromptAt(tok, x, m.start) == Some(m.bar) && m.start + |tok| + 1 < m.bar < |x|
    requires x[m.start + |tok| + 1..m.bar] == Render(code)
    ensures Report(tok, x, m) == Drained(x[..m.start], [], Some(code))
  {
    hide IsCode, ParseInt, PromptAt, Render;
    ParseRender(code);
  }

  lemma DrainMissed(tok: seq<Byte>, x: seq<Byte>)
    requires Search(tok, Content(x), LastLine(Content(x))).None?
    ensures DrainStripped(tok, x) == Drained(x[..WindowStart(tok, |x|)], x[WindowStart(tok, |x|)..], None)
  {
    hide Search, LastLine, Content;
    assert x[..0] == [] && x[0..] == x;
  }

  /** Where the carry window starts in n unread bytes. */
  function WindowStart(tok: seq<Byte>, n: nat): (w: nat)
    ensures w <= n
  {
    if n > Window(tok) then n - Window(tok) else 0
  }

  function DrainStep(tok: seq<Byte>, carry: seq<Byte>, data: seq<Byte>): Drained {
    DrainStripped(tok, Strip(carry + data))
  }

  // ---------------------------------------------------------------- a command's stream

  function Prompt(tok: seq<Byte>, code: int): seq<Byte> {
    tok + [COLON] + Render(code) + [BAR]
  }

  /** What a shell sends for one command: its output, then the prompt with its exit code. */
  function Stream(tok: seq<Byte>, out: seq<Byte>, code: int): seq<Byte> {
    out + Prompt(tok, code)
  }

  predicate GoodToken(tok: seq<Byte>) {
    ESC !in tok && CR !in tok && LF !in tok
  }

  /** The shell's answer to one command: no escapes, and the token nowhere but in the final prompt. */
  ghost predicate GoodAnswer(tok: seq<Byte>, out: seq<Byte>, code: int) {
    GoodToken(tok) && ESC !in out && forall i :: At(Stream(tok, out, code), tok, i) ==> i == |out|
  }

  /** The stream as the drain thread stores it. */
  function Clean(tok: seq<Byte>, out: seq<Byte>, code: int): seq<Byte> {
    MapCr(Stream(tok, out, code))
  }

  lemma CleanShape(tok: seq<Byte>, out: seq<Byte>, code: int)
    requires GoodAnswer(tok, out, code)
    ensures |MapCr(out)| == |out| && Clean(tok, out, code) == MapCr(out) + Prompt(tok, code)
    ensures ESC !in Stream(tok, out, code)
    ensures LF !in Prompt(tok, code)
  {
    ParseRender(code);
    var t, p := Render(code), Prompt(tok, code);
    forall b | b in t ensures IsDigit(b) || b == MINUS { assert b == t[0] || b in t[1..]; }
    assert forall b :: b in p ==> b in tok || b == COLON || b in t || b == BAR;
    MapCrConcat(out, p);
    MapCrClean(p);
    assert forall b :: b in Stream(tok, out, code) ==> b in out || b in p;
  }

  lemma TokenOnce(tok: seq<Byte>, out: seq<Byte>, code: int, i: nat)
    requires GoodAnswer(tok, out, code) && At(Clean(tok, out, code), tok, i)
    ensures i == |out|
  {
    var s, c := Stream(tok, out, code), Clean(tok, out, code);
    forall x | i <= x < i + |tok| ensures s[x] == tok[x - i] {
      assert c[i..i + |tok|][x - i] == tok[x - i] && tok[x - i] in tok;
    }
    assert s[i..i + |tok|] == tok;
    assert At(Stream(tok, out, code), tok, i);
  }

  lemma PromptParts(tok: seq<Byte>, before: seq<Byte>, code: int)
    ensures var s, n := before + Prompt(tok, code), |before| + |tok|;
            && At(s, tok, |before|) && s[n] == COLON && s[n + 1..|s| - 1] == Render(code) && s[|s| - 1] == BAR
            && |s| == n + 2 + |Render(code)|
  {
    var s, n := before + Prompt(tok, code), |before| + |tok|;
    assert s == (before + tok) + ([COLON] + Render(code) + [BAR]);
  }

  /** The pattern matches the stream in one place only: the final prompt. */
  lemma MatchOnce(tok: seq<Byte>, out: seq<Byte>, code: int, i: nat, e: nat)
    requires GoodAnswer(tok, out, code)
    ensures Matches(tok, Clean(tok, out, code), i, e) <==> i == |out| && e == |Clean(tok, out, code)| - 1
  {
    hide IsCode, ParseInt, Render, Clean, MapCr, Prompt, GoodAnswer;
    CleanShape(tok, out, code);
    ParseRender(code);
    PromptParts(tok, MapCr(out), code);
    var c := Clean(tok, out, code);
    if Matches(tok, c, i, e) {
      TokenOnce(tok, out, code, i);
      BarOnce(c, |out| + |tok| + 1, e);
    }
  }

  lemma BarOnce(s: seq<Byte>, j: nat, e: nat)
    requires j <= e < |s| && s[e] == BAR && j < |s| && IsCode(s[j..|s| - 1])
    ensures e == |s| - 1
  {
    var t := s[j..|s| - 1];
    forall x | j <= x < |s| - 1 ensures s[x] != BAR {
      assert s[x] == t[x - j];
      if x > j { assert t[x - j] == t[1..][x - j - 1] && t[x - j] in t[1..]; }
    }
  }

  /** A match in a slice is a match in the whole. */
  lemma MatchInSlice(tok: seq<Byte>, s: seq<Byte>, a: nat, b: nat, i: nat, e: nat)
    requires a <= b <= |s|
    ensures Matches(tok, s[a..b], i, e) <==> e < b - a && Matches(tok, s, a + i, a + e)
  {
    if e < b - a && i + |tok| + 1 < e {
      SliceOfSlice(s, a, b, i, i + |tok|);
      SliceOfSlice(s, a, b, i + |tok| + 1, e);
    }
  }

  // ---------------------------------------------------------------- which reads report a prompt

  /** The prompt at i stands on the last line that is not blank. */
  ghost predicate OnLastLine(tok: seq<Byte>, x: seq<Byte>, i: nat, e: nat) {
    Matches(tok, x, i, e) && forall k :: i <= k < |x| && x[k] == LF ==> forall l :: k <= l < |x| ==> x[l] == LF
  }

  /** Positions on the last line are those from LastLine on. */
  lemma LastLineHolds(tok: seq<Byte>, x: seq<Byte>, i: nat, e: nat)
    ensures var content := Content(x);
            OnLastLine(tok, x, i, e) <==> LastLine(content) <= i && Matches(tok, content, i, e)
  {
    hide Matches;
    var content := Content(x);
    var n, first := |content|, LastLine(content);
    assert content == x[0..n];
    MatchInSlice(tok, x, 0, n, i, e);
    if Matches(tok, x, i, e) {
      MatchEnd(tok, x, i, e);
      assert forall k :: n <= k < |x| ==> x[k] == LF;
      if first <= i {
        assert forall k :: i <= k < n ==> x[k] == content[k] != LF;
      } else {
        assert x[first - 1] == content[first - 1] == LF && x[n - 1] == content[n - 1] != LF;
      }
    }
  }

  lemma MatchEnd(tok: seq<Byte>, x: seq<Byte>, i: nat, e: nat)
    requires Matches(tok, x, i, e)
    ensures i < e < |x| && x[e] == BAR && Content(x) == RStripLf(x) != [] && e < |Content(x)|
  {
  }

  /** The search finds the first prompt on the last line. */
  lemma FoundIsFirst(tok: seq<Byte>, x: seq<Byte>, i: nat, e: nat)
    ensures var found := Search(tok, Content(x), LastLine(Content(x)));
            && (found.Some? ==> OnLastLine(tok, x, found.value.start, found.value.bar))
            && (OnLastLine(tok, x, i, e) ==> found.Some? && found.value.start <= i)
            && (OnLastLine(tok, x, i, e) && found.value.start == i ==> found.value.bar == e)
  {
    hide Matches, LastLine, Content, OnLastLine, PromptAt;
    var content := Content(x);
    var found := Search(tok, content, LastLine(content));
    LastLineHolds(tok, x, i, e);
    PromptAtMatches(tok, content, i, e);
    if found.Some? {
      PromptAtMatches(tok, content, found.value.start, found.value.bar);
      LastLineHolds(tok, x, found.value.start, found.value.bar);
    }
  }

  /** A read reports a prompt exactly when one stands on the last line that is not blank, in what was carried and read. */
  lemma DetectedIff(tok: seq<Byte>, x: seq<Byte>)
    ensures DrainStripped(tok, x).code.Some? <==> exists i: nat, e: nat :: OnLastLine(tok, x, i, e)
  {
    hide Matches, LastLine, Content, OnLastLine, PromptAt, Search, ParseInt;
    FoundIsFirst(tok, x, 0, 0);
    if i: nat, e: nat :| OnLastLine(tok, x, i, e) { FoundIsFirst(tok, x, i, e); }
  }

  /** Then the first one there counts: its code is reported, what came before it stored, and what follows it dropped. */
  lemma FirstReported(tok: seq<Byte>, x: seq<Byte>, i: nat, e: nat)
    requires OnLastLine(tok, x, i, e) && forall j: nat, k: nat :: OnLastLine(tok, x, j, k) ==> i <= j
    ensures i + |tok| + 1 < e < |x| && IsCode(x[i + |tok| + 1..e])
    ensures DrainStripped(tok, x) == Drained(x[..i], [], Some(ParseInt(x[i + |tok| + 1..e])))
  {
    CodeOf(tok, x, i, e);
    hide *;
    FoundIsFirst(tok, x, i, e);
    LastLineHolds(tok, x, i, e);
    ReportAt(tok, x, i, e);
  }

  lemma ReportAt(tok: seq<Byte>, x: seq<Byte>, i: nat, e: nat)
    requires Search(tok, Content(x), LastLine(Content(x))) == Some(Match(i, e)) && Matches(tok, Content(x), i, e)
    requires i + |tok| + 1 < e < |x| && IsCode(x[i + |tok| + 1..e])
    ensures DrainStripped(tok, x) == Drained(x[..i], [], Some(ParseInt(x[i + |tok| + 1..e])))
  {
    CodeOf(tok, Content(x), i, e);
    ContentPrefix(x);
    hide *;
    PromptAtMatches(tok, Content(x), i, e);
    DrainReports(tok, x, Match(i, e));
    ReportOfPrefix(tok, x, Content(x), i, e);
  }

  lemma ContentPrefix(x: seq<Byte>)
    ensures |Content(x)| <= |x| && Content(x) == x[..|Content(x)|]
  {
  }

  lemma ReportOfPrefix(tok: seq<Byte>, x: seq<Byte>, content: seq<Byte>, i: nat, e: nat)
    requires |content| <= |x| && content == x[..|content|] && PromptAt(tok, content, i) == Some(e)
    requires i + |tok| + 1 < e < |content| && IsCode(content[i + |tok| + 1..e])
    ensures IsCode(x[i + |tok| + 1..e])
    ensures Report(tok, content, Match(i, e)) == Drained(x[..i], [], Some(ParseInt(x[i + |tok| + 1..e])))
  {
    hide *;
    ReportIs(tok, content, Match(i, e));
    PrefixSlices(x, |content|, i, i + |tok| + 1, e);
  }

  lemma PrefixSlices(x: seq<Byte>, n: nat, i: nat, a: nat, b: nat)
    requires i <= n <= |x| && a <= b <= n
    ensures x[..n][..i] == x[..i] && x[..n][a..b] == x[a..b]
  {
  }

  lemma CodeOf(tok: seq<Byte>, x: seq<Byte>, i: nat, e: nat)
    requires Matches(tok, x, i, e)
    ensures i + |tok| + 1 < e < |x| && IsCode(x[i + |tok| + 1..e])
  {
  }

  lemma DrainReports(tok: seq<Byte>, x: seq<Byte>, m: Match)
    requires Search(tok, Content(x), LastLine(Content(x))) == Some(m)
    ensures DrainStripped(tok, x) == Report(tok, Content(x), m)
  {
    hide Search, LastLine, Content, PromptAt, Report;
  }

  lemma ReportIs(tok: seq<Byte>, x: seq<Byte>, m: Match)
    requires PromptAt(tok, x, m.start) == Some(m.bar) && m.start + |tok| + 1 < m.bar < |x|
    requires IsCode(x[m.start + |tok| + 1..m.bar])
    ensures Report(tok, x, m) == Drained(x[..m.start], [], Some(ParseInt(x[m.start + |tok| + 1..m.bar])))
  {
    hide IsCode, ParseInt, PromptAt;
  }

  // ---------------------------------------------------------------- reading a command's stream

  /** No match lies inside a slice of the stream that misses the end, or the start of the token. */
  lemma NoMatchInside(tok: seq<Byte>, out: seq<Byte>, code: int, a: nat, b: nat, from: nat)
    requires GoodAnswer(tok, out, code) && a <= b <= |Clean(tok, out, code)|
    requires b < |Clean(tok, out, code)| || |out| < a
    ensures Search(tok, Clean(tok, out, code)[a..b], from).None?
  {
    hide Matches, PromptAt, Clean, GoodAnswer;
    var s := Clean(tok, out, code);
    var found := Search(tok, s[a..b], from);
    if found.Some? {
      PromptAtMatches(tok, s[a..b], found.value.start, found.value.bar);
      MatchInSlice(tok, s, a, b, found.value.start, found.value.bar);
      MatchOnce(tok, out, code, a + found.value.start, a + found.value.bar);
    }
  }

  /** A read that leaves the prompt incomplete, or comes after the token left the window,
      stores what the window cannot hold, and nothing else. */
  lemma StepSilent(tok: seq<Byte>, out: seq<Byte>, code: int, c: nat, m: nat, w: nat)
    requires GoodAnswer(tok, out, code) && c <= m <= |Clean(tok, out, code)|
    requires m < |Clean(tok, out, code)| || |out| < c
    requires w == c + WindowStart(tok, m - c)
    ensures var s := Clean(tok, out, code);
            DrainStripped(tok, s[c..m]) == Drained(s[c..w], s[w..m], None)
  {
    hide *;
    var s := Clean(tok, out, code);
    var x := s[c..m];
    var n := |Content(x)|;
    SliceOfSlice(s, c, m, 0, n);
    NoMatchInside(tok, out, code, c, c + n, LastLine(Content(x)));
    DrainMissed(tok, x);
    SliceOfSlice(s, c, m, 0, w - c);
    SliceOfSlice(s, c, m, w - c, m - c);
  }

  /** In the stream from c on, the last line holds the prompt and ends with it. */
  lemma LastLineOfStream(tok: seq<Byte>, out: seq<Byte>, code: int, c: nat)
    requires GoodAnswer(tok, out, code) && c <= |out|
    ensures var s := Clean(tok, out, code);
            && |out| < |s| && Content(s[c..]) == s[c..] && LastLine(s[c..]) <= |out| - c
  {
    hide Clean, MapCr, GoodAnswer, Content, LastLine, Prompt;
    CleanShape(tok, out, code);
    PromptEnds(tok, code);
    LastLineAfter(MapCr(out), Prompt(tok, code), c);
  }

  lemma PromptEnds(tok: seq<Byte>, code: int)
    ensures Prompt(tok, code) != [] && Prompt(tok, code)[|Prompt(tok, code)| - 1] == BAR
  {
  }

  lemma LastLineAfter(a: seq<Byte>, p: seq<Byte>, c: nat)
    requires p != [] && LF !in p && c <= |a|
    ensures Content((a + p)[c..]) == (a + p)[c..] && LastLine((a + p)[c..]) <= |a| - c
  {
    var x := (a + p)[c..];
    assert x == a[c..] + p && x[|x| - 1] == p[|p| - 1] && p[|p| - 1] in p;
    forall k | |a| - c <= k < |x| ensures x[k] != LF { assert x[k] == p[k - (|a| - c)]; }
  }

  lemma SearchStream(tok: seq<Byte>, out: seq<Byte>, code: int, a: nat, from: nat)
    requires GoodAnswer(tok, out, code) && a + from <= |out| < |Clean(tok, out, code)|
    ensures var s := Clean(tok, out, code);
            Search(tok, s[a..], from) == Some(Match(|out| - a, |s| - 1 - a))
  {
    hide Matches, PromptAt, Clean, GoodAnswer;
    var s := Clean(tok, out, code);
    assert s[a..] == s[a..|s|];
    MatchOnce(tok, out, code, |out|, |s| - 1);
    MatchInSlice(tok, s, a, |s|, |out| - a, |s| - 1 - a);
    PromptAtMatches(tok, s[a..], |out| - a, |s| - 1 - a);
    var found := Search(tok, s[a..], from);
    PromptAtMatches(tok, s[a..], found.value.start, found.value.bar);
    MatchInSlice(tok, s, a, |s|, found.value.start, found.value.bar);
    MatchOnce(tok, out, code, a + found.value.start, a + found.value.bar);
  }

  lemma StreamSlices(tok: seq<Byte>, out: seq<Byte>, code: int, c: nat)
    requires GoodAnswer(tok, out, code) && c <= |out|
    ensures var s := Clean(tok, out, code); var j := |out| + |tok| + 1;
            && j < |s| - 1 && s[c..][..|out| - c] == MapCr(out)[c..]
            && s[c..][j - c..|s| - 1 - c] == Render(code)
  {
    hide *;
    StreamFacts(tok, out, code);
    SlicesFrom(Clean(tok, out, code), MapCr(out), Render(code), |out| + |tok| + 1, c);
  }

  lemma StreamFacts(tok: seq<Byte>, out: seq<Byte>, code: int)
    requires GoodAnswer(tok, out, code)
    ensures var s := Clean(tok, out, code); var j := |out| + |tok| + 1;
            j < |s| - 1 && |MapCr(out)| == |out| && s[..|out|] == MapCr(out) && s[j..|s| - 1] == Render(code)
  {
    hide Clean, Prompt, MapCr, Render, IsCode, GoodAnswer;
    CleanShape(tok, out, code);
    PromptParts(tok, MapCr(out), code);
    ParseRender(code);
  }

  lemma SlicesFrom(s: seq<Byte>, m: seq<Byte>, r: seq<Byte>, j: nat, c: nat)
    requires c <= |m| <= j < |s| - 1 && s[..|m|] == m && s[j..|s| - 1] == r
    ensures s[c..][..|m| - c] == m[c..] && s[c..][j - c..|s| - 1 - c] == r
  {
  }

  /** The read that completes the prompt reports it, provided the window still holds the whole token. */
  lemma StepLast(tok: seq<Byte>, out: seq<Byte>, code: int, c: nat)
    requires GoodAnswer(tok, out, code) && c <= |out|
    ensures c <= |Clean(tok, out, code)|
    ensures DrainStripped(tok, Clean(tok, out, code)[c..]) == Drained(MapCr(out)[c..], [], Some(code))
  {
    hide *;
    var s := Clean(tok, out, code);
    LastLineOfStream(tok, out, code, c);
    StreamSlices(tok, out, code, c);
    ParseRender(code);
    SearchStream(tok, out, code, c, LastLine(s[c..]));
    var m := Match(|out| - c, |s| - 1 - c);
    DrainFound(tok, s[c..], m);
    ReportParts(tok, s[c..], m, code);
  }

  // ---------------------------------------------------------------- many reads

  /** The drain thread's side of the buffer: all bytes stored, the carry, the prompts reported. */
  datatype Progress = Progress(stored: seq<Byte>, carry: seq<Byte>, codes: seq<int>)

  const START := Progress([], [], [])

  function Next(tok: seq<Byte>, p: Progress, data: seq<Byte>): Progress {
    Absorb(p, DrainStep(tok, p.carry, data))
  }

  function Absorb(p: Progress, d: Drained): Progress {
    Progress(p.stored + d.stored, d.carry, if d.code.Some? then p.codes + [d.code.value] else p.codes)
  }

  function Feed(tok: seq<Byte>, p: Progress, chunks: seq<seq<Byte>>): Progress
    decreases |chunks|
  {
    if chunks == [] then p else Feed(tok, Next(tok, p, chunks[0]), chunks[1..])
  }

  /** State after n bytes of a command's stream, before the prompt is complete. */
  function Partway(tok: seq<Byte>, out: seq<Byte>, code: int, n: nat): Progress
    requires n <= |Clean(tok, out, code)|
  {
    var s := Clean(tok, out, code);
    Progress(s[..WindowStart(tok, n)], s[WindowStart(tok, n)..n], [])
  }

  lemma StripStream(tok: seq<Byte>, out: seq<Byte>, code: int, n: nat, data: seq<Byte>)
    requires GoodAnswer(tok, out, code) && n + |data| <= |Stream(tok, out, code)|
    requires data == Stream(tok, out, code)[n..n + |data|]
    ensures Strip(Partway(tok, out, code, n).carry + data) ==
            Clean(tok, out, code)[WindowStart(tok, n)..n + |data|]
  {
    hide MapCr, Strip, Stream, GoodAnswer, WindowStart;
    var s, c, w := Stream(tok, out, code), Clean(tok, out, code), WindowStart(tok, n);
    CleanShape(tok, out, code);
    MapCrRange(s);
    MapCrSlice(s, n, n + |data|);
    NotInSlice(s, ESC, n, n + |data|);
    NotInSlice(c, ESC, w, n);
    NotInSlice(c, CR, w, n);
    StripRead(c[w..n], data);
  }

  lemma MapCrSlice(s: seq<Byte>, a: nat, b: nat)
    requires a <= b <= |s|
    ensures MapCr(s[a..b]) == MapCr(s)[a..b]
  {
  }

  lemma NotInSlice(s: seq<Byte>, b: Byte, i: nat, j: nat)
    requires b !in s && i <= j <= |s|
    ensures b !in s[i..j]
  {
    assert forall x :: x in s[i..j] ==> x in s;
  }

  lemma MapCrRange(s: seq<Byte>)
    requires ESC !in s
    ensures ESC !in MapCr(s) && CR !in MapCr(s)
  {
  }

  lemma SameLength(tok: seq<Byte>, out: seq<Byte>, code: int)
    ensures |Clean(tok, out, code)| == |Stream(tok, out, code)| == |out| + |tok| + 2 + |Render(code)|
  {
  }

  lemma WindowAdvance(tok: seq<Byte>, n: nat, m: nat)
    requires n < m
    ensures WindowStart(tok, n) + WindowStart(tok, m - WindowStart(tok, n)) == WindowStart(tok, m)
  {
  }

  lemma AbsorbSilent(s: seq<Byte>, carry: seq<Byte>, c: nat, w: nat, m: nat)
    requires c <= w <= m <= |s|
    ensures Absorb(Progress(s[..c], carry, []), Drained(s[c..w], s[w..m], None)) == Progress(s[..w], s[w..m], [])
  {
    assert s[..c] + s[c..w] == s[..w];
  }

  lemma AbsorbLast(s: seq<Byte>, out: seq<Byte>, carry: seq<Byte>, c: nat, code: int)
    requires c <= |out| <= |s| && s[..|out|] == out
    ensures Absorb(Progress(s[..c], carry, []), Drained(out[c..], [], Some(code))) == Progress(out, [], [code])
  {
    assert s[..c] + out[c..] == out;
  }

  /** A further read of the stream that leaves it unfinished, or that comes with the token out of the window. */
  lemma StreamStepSilent(tok: seq<Byte>, out: seq<Byte>, code: int, n: nat, data: seq<Byte>)
    requires GoodAnswer(tok, out, code) && n < n + |data| <= |Stream(tok, out, code)|
    requires data == Stream(tok, out, code)[n..n + |data|]
    requires n + |data| < |Stream(tok, out, code)| || WindowStart(tok, n) > |out|
    ensures |Clean(tok, out, code)| == |Stream(tok, out, code)|
    ensures Next(tok, Partway(tok, out, code, n), data) == Partway(tok, out, code, n + |data|)
  {
    hide DrainStripped, GoodAnswer, Strip, Stream, MapCr, Clean, WindowStart, Absorb;
    SameLength(tok, out, code);
    var s, c, m := Clean(tok, out, code), WindowStart(tok, n), n + |data|;
    var w := WindowStart(tok, m);
    WindowAdvance(tok, n, m);
    StepSilent(tok, out, code, c, m, w);
    StripStream(tok, out, code, n, data);
    AbsorbSilent(s, s[c..n], c, w, m);
  }

  /** The read that finishes the stream, with the token still in the window. */
  lemma StreamStepLast(tok: seq<Byte>, out: seq<Byte>, code: int, n: nat, data: seq<Byte>)
    requires GoodAnswer(tok, out, code) && n < n + |data| == |Stream(tok, out, code)|
    requires data == Stream(tok, out, code)[n..n + |data|]
    requires WindowStart(tok, n) <= |out|
    ensures |Clean(tok, out, code)| == |Stream(tok, out, code)|
    ensures Next(tok, Partway(tok, out, code, n), data) == Progress(MapCr(out), [], [code])
  {
    hide DrainStripped, GoodAnswer, Strip, Stream, MapCr, Clean, Prompt, WindowStart, Absorb;
    SameLength(tok, out, code);
    CleanShape(tok, out, code);
    var s, c := Clean(tok, out, code), WindowStart(tok, n);
    assert s[..|out|] == MapCr(out) && s[c..|s|] == s[c..];
    StripStream(tok, out, code, n, data);
    StepLast(tok, out, code, c);
    AbsorbLast(s, MapCr(out), s[c..n], c, code);
  }

  lemma {:induction false} FeedStream(tok: seq<Byte>, out: seq<Byte>, code: int, n: nat, chunks: seq<seq<Byte>>)
    requires GoodAnswer(tok, out, code) && |Render(code)| < SLACK
    requires n < |Stream(tok, out, code)| && Flatten(chunks) == Stream(tok, out, code)[n..]
    requires forall c :: c in chunks ==> c != []
    ensures chunks != []
    ensures Feed(tok, Partway(tok, out, code, n), chunks) == Progress(MapCr(out), [], [code])
    ensures Feed(tok, Partway(tok, out, code, n), chunks[..|chunks| - 1]).codes == []
    decreases |chunks|
  {
    hide Stream, GoodAnswer, Clean, Next, MapCr, Partway;
    SameLength(tok, out, code);
    var s := Stream(tok, out, code);
    assert |Flatten(chunks)| > 0;
    var data, rest := chunks[0], chunks[1..];
    assert data in chunks && forall c :: c in rest ==> c in chunks;
    var m := n + |data|;
    assert data == s[n..][..|data|] == s[n..m] && Flatten(rest) == s[n..][|data|..] == s[m..];
    var before := chunks[..|chunks| - 1];
    if m < |s| {
      StreamStepSilent(tok, out, code, n, data);
      FeedStream(tok, out, code, m, rest);
      assert before[1..] == rest[..|rest| - 1];
    } else {
      FlattenEmpty(rest);
      StreamStepLast(tok, out, code, n, data);
      assert Partway(tok, out, code, n).codes == [] by { PartwaySilent(tok, out, code, n); }
    }
  }

  lemma PartwaySilent(tok: seq<Byte>, out: seq<Byte>, code: int, n: nat)
    requires n <= |Clean(tok, out, code)|
    ensures Partway(tok, out, code, n).codes == []
  {
  }

  lemma FlattenEmpty(chunks: seq<seq<Byte>>)
    requires forall c :: c in chunks ==> c != []
    ensures chunks != [] ==> Flatten(chunks) != []
  {
    if chunks != [] { assert chunks[0] in chunks; }
  }

  /** The prompt is detected however the stream is cut into reads: nothing is reported before the last read,
      which reports the exit code, and the bytes stored are exactly the output. */
  lemma ChunkingIrrelevant(tok: seq<Byte>, out: seq<Byte>, code: int, chunks: seq<seq<Byte>>)
    requires GoodAnswer(tok, out, code) && |Render(code)| < SLACK
    requires Flatten(chunks) == Stream(tok, out, code) && forall c :: c in chunks ==> c != []
    ensures chunks != []
    ensures Feed(tok, START, chunks[..|chunks| - 1]).codes == []
    ensures Feed(tok, START, chunks) == Progress(MapCr(out), [], [code])
  {
    var s := Stream(tok, out, code);
    assert s[0..] == s && Partway(tok, out, code, 0) == START;
    FeedStream(tok, out, code, 0, chunks);
  }

  ghost predicate EverySplitDetects(tok: seq<Byte>, out: seq<Byte>, code: int) {
    forall chunks: seq<seq<Byte>> ::
      Flatten(chunks) == Stream(tok, out, code) && (forall c :: c in chunks ==> c != []) ==>
      Feed(tok, START, chunks).codes == [code]
  }

  /** The window is exactly long enough for 15 characters of exit code. */
  lemma WindowIsExact(tok: seq<Byte>, out: seq<Byte>, code: int)
    requires GoodAnswer(tok, out, code)
    ensures EverySplitDetects(tok, out, code) <==> |Render(code)| <= 15
  {
    if |Render(code)| < SLACK {
      forall chunks: seq<seq<Byte>>
        | Flatten(chunks) == Stream(tok, out, code) && (forall c :: c in chunks ==> c != [])
        ensures Feed(tok, START, chunks).codes == [code]
      {
        ChunkingIrrelevant(tok, out, code, chunks);
      }
    } else {
      BadSplit(tok, out, code);
    }
  }

  lemma FeedPair(tok: seq<Byte>, p: Progress, a: seq<Byte>, b: seq<Byte>)
    ensures Feed(tok, p, [a, b]) == Next(tok, Next(tok, p, a), b)
  {
    assert [a, b][1..] == [b];
    assert Feed(tok, Next(tok, p, a), [b]) == Feed(tok, Next(tok, Next(tok, p, a), b), [b][1..]);
  }

  lemma FeedBadSplit(tok: seq<Byte>, out: seq<Byte>, code: int)
    requires GoodAnswer(tok, out, code) && SLACK <= |Render(code)|
    ensures var s := Stream(tok, out, code); s != [] && Feed(tok, START, [s[..|s| - 1], s[|s| - 1..]]).codes == []
  {
    hide GoodAnswer, Stream, Next, Partway, Feed, Clean;
    SameLength(tok, out, code);
    var s := Stream(tok, out, code);
    var n := |s| - 1;
    assert s[..n] == s[0..n] && s[n..] == s[n..|s|];
    FeedPair(tok, START, s[..n], s[n..]);
    PartwayStart(tok, out, code);
    PartwaySilent(tok, out, code, n + 1);
    StreamStepSilent(tok, out, code, 0, s[..n]);
    StreamStepSilent(tok, out, code, n, s[n..]);
  }

  lemma PartwayStart(tok: seq<Byte>, out: seq<Byte>, code: int)
    ensures Partway(tok, out, code, 0) == START
  {
  }

  /** With a longer code, delivering the final bar on its own loses the prompt. */
  lemma BadSplit(tok: seq<Byte>, out: seq<Byte>, code: int)
    requires GoodAnswer(tok, out, code) && SLACK <= |Render(code)|
    ensures !EverySplitDetects(tok, out, code)
  {
    hide Stream, Feed, Flatten, GoodAnswer;
    SameLength(tok, out, code);
    FeedBadSplit(tok, out, code);
    var s := Stream(tok, out, code);
    var a, b := s[..|s| - 1], s[|s| - 1..];
    var chunks: seq<seq<Byte>> := [a, b];
    FlattenPair(a, b);
    assert a + b == s && a != [];
    assert Feed(tok, START, chunks).codes != [code];
  }

  // ---------------------------------------------------------------- nothing is lost before a prompt

  predicate Plain(carry: seq<Byte>) { ESC !in carry && CR !in carry }

  lemma PlainSlice(x: seq<Byte>, a: nat)
    requires Plain(x) && a <= |x|
    ensures Plain(x[a..])
  {
  }

  /** Without a match the bytes are stored or carried, in order. */
  lemma StrippedConserves(tok: seq<Byte>, x: seq<Byte>)
    ensures var d := DrainStripped(tok, x);
            && (d.code.None? ==> d.stored + d.carry == x && d.carry == x[|x| - Min(|x|, Window(tok))..])
            && (d.code.Some? ==> d.stored <= x && d.carry == [])
  {
    hide Search, LastLine, Content, Window, PromptAt, ParseInt, Report;
    var found := Search(tok, Content(x), LastLine(Content(x)));
    if found.Some? { ReportPrefix(tok, x, found.value); }
  }

  lemma ReportPrefix(tok: seq<Byte>, x: seq<Byte>, m: Match)
    requires PromptAt(tok, Content(x), m.start) == Some(m.bar)
    ensures var d := Report(tok, Content(x), m); d.code.Some? && d.carry == [] && d.stored <= x
  {
    hide PromptAt, Content, ParseInt, IsCode;
    PromptAtMatches(tok, Content(x), m.start, m.bar);
    ContentPrefix(x);
    PrefixSlices(x, |Content(x)|, m.start, 0, 0);
  }

  /** One read of escape-free bytes: without a match the bytes are stored or carried, in order. */
  lemma StepConserves(tok: seq<Byte>, carry: seq<Byte>, data: seq<Byte>)
    requires Plain(carry) && ESC !in data
    ensures var d, x := DrainStep(tok, carry, data), carry + MapCr(data);
            && (d.code.None? ==> d.stored + d.carry == x && |d.carry| == Min(|x|, Window(tok)) && Plain(d.carry))
            && (d.code.Some? ==> d.stored <= x && d.carry == [])
  {
    hide MapCr, Strip, DrainStripped;
    StripRead(carry, data);
    MapCrRange(data);
    var x := carry + MapCr(data);
    assert Plain(x);
    StrippedConserves(tok, x);
    PlainSlice(x, |x| - Min(|x|, Window(tok)));
  }

  lemma {:induction false} CodesGrow(tok: seq<Byte>, p: Progress, chunks: seq<seq<Byte>>)
    ensures |p.codes| <= |Feed(tok, p, chunks).codes|
    decreases |chunks|
  {
    if chunks != [] { CodesGrow(tok, Next(tok, p, chunks[0]), chunks[1..]); }
  }

  /** Until a prompt is reported, everything received is stored or in the carry window, in order and with CR
      stored as LF; so a reader of the buffer lags by at most the window. */
  lemma {:induction false} FeedConserves(tok: seq<Byte>, p: Progress, chunks: seq<seq<Byte>>)
    requires Plain(p.carry) && forall c :: c in chunks ==> ESC !in c
    requires Feed(tok, p, chunks).codes == []
    ensures var q := Feed(tok, p, chunks);
            && q.stored + q.carry == p.stored + p.carry + MapCr(Flatten(chunks))
            && (chunks != [] ==> |q.carry| <= Window(tok))
            && Plain(q.carry)
    decreases |chunks|
  {
    hide DrainStep, MapCr;
    CodesGrow(tok, p, chunks);
    if chunks == [] {
      assert MapCr(Flatten(chunks)) == [] by { MapCrEmpty(); }
    } else {
      var data, rest := chunks[0], chunks[1..];
      var q := Next(tok, p, data);
      assert data in chunks && forall c :: c in rest ==> c in chunks;
      CodesGrow(tok, q, rest);
      StepConserves(tok, p.carry, data);
      FeedConserves(tok, q, rest);
      MapCrConcat(data, Flatten(rest));
      var d := DrainStep(tok, p.carry, data);
      assert |q.codes| == 0 && d.code.None?;
      Assoc(p.stored, d.stored, d.carry);
      Assoc(p.stored, p.carry, MapCr(data));
      Assoc(p.stored + p.carry, MapCr(data), MapCr(Flatten(rest)));
    }
  }

  lemma MapCrEmpty()
    ensures MapCr([]) == []
  {
  }
}
