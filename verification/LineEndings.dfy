/** Line endings and byte order marks. */
module LineEndings {
  import opened Seqs
  import opened FindReplace

  const CRLF := "\r\n"
  const LF := "\n"
  const BOM: char := '\U{FEFF}'

  /** The dominant ending: CRLF as soon as one is present. */
  function DetectEnding(text: string): string { if Occurs(text, CRLF) then CRLF else LF }

  function ToLf(text: string): string { Replace(text, CRLF, LF) }
  function InsertCr(text: string): string { Replace(text, LF, CRLF) }

  function Normalize(text: string, ending: string): string {
    if ending == LF then ToLf(text) else InsertCr(ToLf(text))
  }

  function StripBom(text: string): (string, bool) {
    if text != "" && text[0] == BOM then (text[1..], true) else (text, false)
  }

  function RStripLf(s: string): (r: string)
    ensures |r| <= |s| && r == s[..|r|]
    ensures forall i :: |r| <= i < |s| ==> s[i] == '\n'
    ensures r != "" ==> r[|r| - 1] != '\n'
  {
    if s != "" && s[|s| - 1] == '\n' then RStripLf(s[..|s| - 1]) else s
  }

  predicate EndsWith(s: string, t: string) { |t| <= |s| && s[|s| - |t|..] == t }

  // ---------------------------------------------------------------- character by character

  predicate StartsCrlf(s: string) { |s| >= 2 && s[0] == '\r' && s[1] == '\n' }

  lemma AtCrlf(s: string, i: nat)
    ensures At(s, CRLF, i) <==> i + 2 <= |s| && s[i] == '\r' && s[i + 1] == '\n'
  {
    if i + 2 <= |s| { assert s[i..i + 2] == [s[i], s[i + 1]]; }
  }

  lemma AtLf(s: string, i: nat)
    ensures At(s, LF, i) <==> i < |s| && s[i] == '\n'
  {
    if i < |s| { assert s[i..i + 1] == [s[i]]; }
  }

  lemma ToLfHead(s: string)
    requires s != ""
    ensures ToLf(s) == if StartsCrlf(s) then ['\n'] + ToLf(s[2..]) else [s[0]] + ToLf(s[1..])
  {
    hide Replace;
    ReplaceHead(s, CRLF, LF);
    AtCrlf(s, 0);
  }

  lemma InsertCrHead(s: string)
    requires s != ""
    ensures InsertCr(s) == if s[0] == '\n' then CRLF + InsertCr(s[1..]) else [s[0]] + InsertCr(s[1..])
  {
    hide Replace;
    ReplaceHead(s, LF, CRLF);
    AtLf(s, 0);
  }

  lemma Empties()
    ensures ToLf("") == "" && InsertCr("") == ""
  {
  }

  // ---------------------------------------------------------------- uniform texts

  /** Every LF is preceded by a CR. */
  predicate Uniform(s: string) {
    forall i :: 0 <= i < |s| && s[i] == '\n' ==> i > 0 && s[i - 1] == '\r'
  }

  /** The same, not counting an LF at the very start. */
  predicate UniformInside(s: string) {
    forall i :: 0 < i < |s| && s[i] == '\n' ==> s[i - 1] == '\r'
  }

  predicate StartsLf(s: string) { s != "" && s[0] == '\n' }
  predicate EndsCr(s: string) { s != "" && s[|s| - 1] == '\r' }

  lemma UniformConcat(a: string, b: string)
    ensures Uniform(a + b) <==> Uniform(a) && UniformInside(b) && (StartsLf(b) ==> EndsCr(a))
  {
    var s := a + b;
    if Uniform(s) {
      forall i | 0 <= i < |a| && a[i] == '\n' ensures i > 0 && a[i - 1] == '\r' { assert s[i] == '\n' && s[i - 1] == a[i - 1]; }
      forall i | 0 < i < |b| && b[i] == '\n' ensures b[i - 1] == '\r' { assert s[|a| + i] == '\n' && s[|a| + i - 1] == b[i - 1]; }
      if StartsLf(b) { assert s[|a|] == '\n' && s[|a| - 1] == '\r' && s[|a| - 1] == a[|a| - 1]; }
    }
  }

  lemma UniformSplit(s: string)
    ensures Uniform(s) <==> UniformInside(s) && !StartsLf(s)
  {
  }

  /** Inserting a CR before every LF makes a text uniform, and LF normalisation undoes it, for every text. */
  lemma {:induction false} LfOfInsertCr(s: string)
    ensures ToLf(InsertCr(s)) == s && Uniform(InsertCr(s))
  {
    hide Replace, ToLf, InsertCr;
    Empties();
    if s != "" {
      var t := InsertCr(s[1..]);
      LfOfInsertCr(s[1..]);
      InsertCrHead(s);
      ToLfHead(InsertCr(s));
      UniformSplit(t);
      if s[0] == '\n' {
        assert (CRLF + t)[2..] == t;
        UniformConcat(CRLF, t);
      } else {
        assert ([s[0]] + t)[1..] == t;
        UniformConcat([s[0]], t);
      }
    }
  }

  lemma UniformTail(s: string)
    requires Uniform(s) && s != ""
    ensures s[0] != '\n'
    ensures if StartsCrlf(s) then Uniform(s[2..]) else Uniform(s[1..])
  {
    var n := if StartsCrlf(s) then 2 else 1;
    assert s == s[..n] + s[n..];
    UniformConcat(s[..n], s[n..]);
    UniformSplit(s[n..]);
    assert s[n..] != "" ==> s[n..][0] == s[n];
  }

  /** CRLF normalisation leaves a text alone exactly when it is uniform. */
  lemma {:induction false} CrlfFixesUniform(s: string)
    ensures Normalize(s, CRLF) == s <==> Uniform(s)
    decreases |s|
  {
    LfOfInsertCr(ToLf(s));
    if Uniform(s) { CrlfOfUniform(s); }
  }

  lemma {:induction false} CrlfOfUniform(s: string)
    requires Uniform(s)
    ensures InsertCr(ToLf(s)) == s
    decreases |s|
  {
    hide Replace, ToLf, InsertCr, Uniform;
    Empties();
    if s != "" {
      UniformTail(s);
      ToLfHead(s);
      InsertCrHead(ToLf(s));
      if StartsCrlf(s) {
        CrlfOfUniform(s[2..]);
        assert ToLf(s)[1..] == ToLf(s[2..]) && s == CRLF + s[2..];
      } else {
        CrlfOfUniform(s[1..]);
        assert ToLf(s)[1..] == ToLf(s[1..]) && s == [s[0]] + s[1..];
      }
    }
  }

  /** CRLF normalisation always gives a uniform text, and is idempotent. */
  lemma CrlfIdempotent(s: string)
    ensures Uniform(Normalize(s, CRLF))
    ensures Normalize(Normalize(s, CRLF), CRLF) == Normalize(s, CRLF)
  {
    hide ToLf, InsertCr;
    LfOfInsertCr(ToLf(s));
  }

  /** Normalising keeps a final CR, and adds none. */
  lemma {:induction false} LastOfToLf(s: string)
    ensures (ToLf(s) == "" <==> s == "") && (EndsCr(ToLf(s)) <==> EndsCr(s))
    decreases |s|
  {
    hide Replace, ToLf;
    Empties();
    if s != "" {
      ToLfHead(s);
      var n := if StartsCrlf(s) then 2 else 1;
      LastOfToLf(s[n..]);
      if s[n..] == "" { assert ToLf(s) == [if n == 2 then '\n' else s[0]]; }
    }
  }

  lemma {:induction false} LastOfInsertCr(s: string)
    ensures (InsertCr(s) == "" <==> s == "") && (EndsCr(InsertCr(s)) <==> EndsCr(s))
    decreases |s|
  {
    hide Replace, InsertCr;
    Empties();
    if s != "" {
      InsertCrHead(s);
      LastOfInsertCr(s[1..]);
      if s[1..] == "" { assert InsertCr(s) == if s[0] == '\n' then CRLF else [s[0]]; }
    }
  }

  lemma NormalizedNeutral(s: string)
    requires s != ""
    ensures Neutral(Normalize(s, CRLF)) <==> !EndsCr(s)
    ensures Normalize(s, CRLF) != "" && Uniform(Normalize(s, CRLF))
  {
    hide ToLf, InsertCr;
    LastOfToLf(s);
    LastOfInsertCr(ToLf(s));
    LfOfInsertCr(ToLf(s));
  }

  lemma PlainNeutral(s: string)
    requires s != "" && '\n' !in s && '\r' !in s
    ensures Neutral(s)
  {
  }

  // ---------------------------------------------------------------- replacing inside uniform texts

  /** A separator that leaves the line endings around it alone. */
  predicate Neutral(sep: string) { sep != "" && Uniform(sep) && !EndsCr(sep) }

  lemma NeutralConcat(a: string, sep: string, b: string)
    requires Neutral(sep)
    ensures Uniform(a + (sep + b)) <==> Uniform(a) && Uniform(b)
  {
    hide Uniform, UniformInside;
    UniformSplit(sep);
    UniformSplit(b);
    UniformConcat(sep, b);
    UniformSplit(sep + b);
    assert (sep + b)[0] == sep[0];
    UniformConcat(a, sep + b);
  }

  ghost predicate AllUniform(parts: seq<string>) { forall k :: 0 <= k < |parts| ==> Uniform(parts[k]) }

  /** Joined by a neutral separator, a text is uniform exactly when its parts are. */
  lemma {:induction false} NeutralJoin(parts: seq<string>, sep: string)
    requires parts != [] && Neutral(sep)
    ensures Uniform(Join(parts, sep)) <==> AllUniform(parts)
    decreases |parts|
  {
    hide Uniform, Neutral;
    if |parts| > 1 {
      NeutralJoin(parts[1..], sep);
      NeutralConcat(parts[0], sep, Join(parts[1..], sep));
      assert forall k :: 0 <= k < |parts| - 1 ==> parts[1..][k] == parts[k + 1];
      if AllUniform(parts) {
      } else if AllUniform(parts[1..]) {
        assert forall k :: 0 < k < |parts| ==> parts[k] == parts[1..][k - 1];
      }
    }
  }

  /** Uniform texts put together are uniform. */
  lemma {:induction false} UniformJoin(parts: seq<string>, sep: string)
    requires parts != [] && AllUniform(parts) && Uniform(sep)
    ensures Uniform(Join(parts, sep))
    decreases |parts|
  {
    hide Uniform, UniformInside;
    if |parts| > 1 {
      UniformJoin(parts[1..], sep);
      var rest := Join(parts[1..], sep);
      UniformSplit(rest);
      UniformConcat(sep, rest);
      UniformSplit(sep + rest);
      UniformConcat(parts[0], sep + rest);
    }
  }

  /** Every LF inside the parts has its CR, and a part starts with LF only after a CR: the end of the separator or,
      when that is empty, of the last text before it; cr tells whether what precedes the first part ends in CR. */
  predicate PartsKeepCr(cr: bool, parts: seq<string>, sep: string)
    requires parts != []
    decreases |parts|
  {
    && UniformInside(parts[0]) && (StartsLf(parts[0]) ==> cr)
    && (|parts| == 1 || PartsKeepCr(
         if sep != "" then EndsCr(sep) else if parts[0] != "" then EndsCr(parts[0]) else cr, parts[1..], sep))
  }

  /** A text joined by any uniform separator, the empty one and one ending in CR included, is uniform exactly when
      its parts keep their CRs. */
  lemma {:induction false} JoinUniformIff(a: string, parts: seq<string>, sep: string)
    requires parts != [] && Uniform(sep)
    ensures Uniform(a + Join(parts, sep)) <==> Uniform(a) && PartsKeepCr(EndsCr(a), parts, sep)
    decreases |parts|
  {
    hide Uniform, UniformInside, StartsLf, EndsCr;
    UniformConcat(a, parts[0]);
    if |parts| > 1 {
      var b, rest := a + parts[0], Join(parts[1..], sep);
      assert a + (parts[0] + (sep + rest)) == (b + sep) + rest;
      UniformConcat(b, sep);
      UniformSplit(sep);
      EndsCrConcat(a, parts[0]);
      EndsCrConcat(b, sep);
      JoinUniformIff(b + sep, parts[1..], sep);
    }
  }

  lemma EndsCrConcat(a: string, b: string)
    ensures EndsCr(a + b) == if b != "" then EndsCr(b) else EndsCr(a)
  {
    if b == "" { assert a + b == a; }
  }

  /** Where the separator does not end in CR, the condition is that every part is uniform. */
  lemma {:induction false} KeepCrNeutral(parts: seq<string>, sep: string)
    requires parts != [] && sep != "" && !EndsCr(sep)
    ensures PartsKeepCr(false, parts, sep) <==> AllUniform(parts)
    decreases |parts|
  {
    hide Uniform, UniformInside, StartsLf;
    UniformSplit(parts[0]);
    if |parts| > 1 {
      KeepCrNeutral(parts[1..], sep);
      assert forall k :: 0 <= k < |parts| - 1 ==> parts[1..][k] == parts[k + 1];
      if AllUniform(parts[1..]) {
        assert forall k :: 0 < k < |parts| ==> parts[k] == parts[1..][k - 1];
      }
    }
  }

  /** The parts of a uniform text are uniform, except that those after the first may start with an LF
      when the separator ends in CR. */
  lemma {:induction false} PartsOfUniform(parts: seq<string>, sep: string)
    requires parts != [] && sep != "" && Uniform(Join(parts, sep))
    ensures Uniform(parts[0]) && forall k :: 0 <= k < |parts| ==> UniformInside(parts[k])
    decreases |parts|
  {
    hide Uniform, UniformInside;
    UniformSplit(parts[0]);
    if |parts| > 1 {
      var rest := Join(parts[1..], sep);
      UniformConcat(parts[0], sep + rest);
      InsideSuffix(sep, rest);
      InsideJoin(parts[1..], sep);
      UniformSplit(parts[0]);
      assert forall k :: 0 < k < |parts| ==> parts[k] == parts[1..][k - 1];
    }
  }

  lemma InsideSuffix(a: string, b: string)
    requires UniformInside(a + b)
    ensures UniformInside(b)
  {
    var s := a + b;
    forall i | 0 < i < |b| && b[i] == '\n' ensures b[i - 1] == '\r' { assert s[|a| + i] == '\n' && s[|a| + i - 1] == b[i - 1]; }
  }

  lemma InsidePrefix(a: string, b: string)
    requires UniformInside(a + b)
    ensures UniformInside(a)
  {
    var s := a + b;
    forall i | 0 < i < |a| && a[i] == '\n' ensures a[i - 1] == '\r' { assert s[i] == '\n' && s[i - 1] == a[i - 1]; }
  }

  lemma {:induction false} InsideJoin(parts: seq<string>, sep: string)
    requires parts != [] && UniformInside(Join(parts, sep))
    ensures forall k :: 0 <= k < |parts| ==> UniformInside(parts[k])
    decreases |parts|
  {
    hide UniformInside;
    if |parts| > 1 {
      var rest := Join(parts[1..], sep);
      InsidePrefix(parts[0], sep + rest);
      assert parts[0] + (sep + rest) == (parts[0] + sep) + rest;
      InsideSuffix(parts[0] + sep, rest);
      InsideJoin(parts[1..], sep);
      assert forall k :: 0 < k < |parts| ==> parts[k] == parts[1..][k - 1];
    }
  }

  // ---------------------------------------------------------------- where LF normalisation is not idempotent

  /** CR CR LF occurs. */
  predicate HasCrCrLf(s: string) { exists i :: 0 <= i && i + 2 < |s| && s[i] == '\r' && s[i + 1] == '\r' && s[i + 2] == '\n' }
  predicate HasCrlf(s: string) { exists i :: 0 <= i && i + 1 < |s| && s[i] == '\r' && s[i + 1] == '\n' }

  lemma HasCrlfCons(c: char, s: string)
    ensures HasCrlf([c] + s) <==> HasCrlf(s) || (c == '\r' && StartsLf(s))
  {
    var t := [c] + s;
    if HasCrlf(s) {
      var i :| 0 <= i && i + 1 < |s| && s[i] == '\r' && s[i + 1] == '\n';
      assert t[i + 1] == '\r' && t[i + 2] == '\n';
    }
    if c == '\r' && StartsLf(s) { assert t[0] == '\r' && t[1] == '\n'; }
    if HasCrlf(t) {
      var i :| 0 <= i && i + 1 < |t| && t[i] == '\r' && t[i + 1] == '\n';
      if i > 0 { assert s[i - 1] == '\r' && s[i] == '\n'; }
    }
  }

  lemma HasCrCrLfCons(c: char, s: string)
    ensures HasCrCrLf([c] + s) <==> HasCrCrLf(s) || (c == '\r' && StartsCrlf(s))
  {
    var t := [c] + s;
    if HasCrCrLf(s) {
      var i :| 0 <= i && i + 2 < |s| && s[i] == '\r' && s[i + 1] == '\r' && s[i + 2] == '\n';
      assert t[i + 1] == '\r' && t[i + 2] == '\r' && t[i + 3] == '\n';
    }
    if c == '\r' && StartsCrlf(s) { assert t[0] == '\r' && t[1] == '\r' && t[2] == '\n'; }
    if HasCrCrLf(t) {
      var i :| 0 <= i && i + 2 < |t| && t[i] == '\r' && t[i + 1] == '\r' && t[i + 2] == '\n';
      if i > 0 { assert s[i - 1] == '\r' && s[i] == '\r' && s[i + 1] == '\n'; }
    }
  }

  lemma {:induction false} CrlfSurvives(s: string)
    ensures HasCrlf(ToLf(s)) <==> HasCrCrLf(s)
    ensures s != "" ==> (StartsLf(ToLf(s)) <==> StartsLf(s) || StartsCrlf(s))
    decreases |s|
  {
    hide Replace, ToLf, HasCrlf, HasCrCrLf;
    Empties();
    if s == "" {
      NoneInEmpty();
    } else {
      ToLfHead(s);
      if StartsCrlf(s) {
        CrlfSurvives(s[2..]);
        HasCrlfCons('\n', ToLf(s[2..]));
        assert s == ['\r'] + (['\n'] + s[2..]);
        HasCrCrLfCons('\n', s[2..]);
        HasCrCrLfCons('\r', ['\n'] + s[2..]);
      } else {
        CrlfSurvives(s[1..]);
        HasCrlfCons(s[0], ToLf(s[1..]));
        assert s == [s[0]] + s[1..];
        HasCrCrLfCons(s[0], s[1..]);
      }
    }
  }

  lemma NoneInEmpty()
    ensures !HasCrlf("") && !HasCrCrLf("")
  {
  }

  /** LF normalisation leaves a text alone exactly when it has no CRLF. */
  lemma {:induction false} LfFixes(s: string)
    ensures |ToLf(s)| <= |s|
    ensures ToLf(s) == s <==> !HasCrlf(s)
    decreases |s|
  {
    hide Replace, ToLf, HasCrlf, HasCrCrLf;
    Empties();
    if s == "" {
      NoneInEmpty();
    } else {
      ToLfHead(s);
      if StartsCrlf(s) {
        LfFixes(s[2..]);
        assert s == ['\r'] + (['\n'] + s[2..]);
        HasCrlfCons('\r', ['\n'] + s[2..]);
      } else {
        LfFixes(s[1..]);
        assert s == [s[0]] + s[1..];
        HasCrlfCons(s[0], s[1..]);
      }
    }
  }

  /** LF normalisation is idempotent on a text exactly when CR CR LF does not occur in it. */
  lemma LfIdempotentIff(s: string)
    ensures ToLf(ToLf(s)) == ToLf(s) <==> !HasCrCrLf(s)
  {
    hide ToLf, HasCrlf, HasCrCrLf;
    LfFixes(ToLf(s));
    CrlfSurvives(s);
  }
}
