/** file_patch (replace mode) and file_write over a machine's files. */
module FileOperations {
  import opened Seqs
  import opened FindReplace
  import opened LineEndings

  type Files = map<string, string>

  /** How a read goes: cat answers; it fails; or it times out, with no exit code and no output. */
  datatype Reading = Answers | Fails | TimesOut

  /** What the backend does in one call: how the first read, the write and the second read go, whether a write that is
      reported as failed took place all the same, and what is on disk after a write when it is not what was sent. */
  datatype Faults = Faults(read: Reading, writeOk: bool, lands: bool, reread: Reading, corrupt: Option<string>)

  const NO_FAULTS := Faults(Answers, true, true, Answers, None)

  /** The output of cat where a missing exit code counts as success. */
  function Cat(files: Files, path: string, how: Reading): Option<string> {
    match how
    case Answers => if path in files then Some(files[path]) else None
    case Fails => None
    case TimesOut => Some("")
  }

  /** The output of cat where only exit code 0 counts as success. */
  function Probe(files: Files, path: string, how: Reading): Option<string> {
    if how.TimesOut? then None else Cat(files, path, how)
  }

  function AfterWrite(files: Files, path: string, content: string, f: Faults): Files {
    if !f.writeOk && !f.lands then files
    else files[path := if f.corrupt.Some? then f.corrupt.value else content]
  }

  // ---------------------------------------------------------------- patch

  datatype PatchResult =
    | NotFound
    | NoMatch
    | Ambiguous(count: nat)
    | PatchWriteFailed
    | PatchRereadFailed
    | DidNotPersist
    | Patched(matches: nat, fuzzy: bool)

  /** difflib's suggestion: some line of the file. */
  predicate IsLineOf(text: string, suggestion: Option<string>) {
    suggestion.Some? ==>
      suggestion.value != "" && '\n' !in suggestion.value && '\r' !in suggestion.value && Occurs(text, suggestion.value)
  }

  /** The text actually searched for, and whether it is the suggestion. */
  function Needle(text: string, oldString: string, ending: string, suggestion: Option<string>): (string, bool) {
    var norm := if oldString != "" then Normalize(oldString, ending) else oldString;
    if Count(text, norm) == 0 && '\n' !in oldString && suggestion.Some? then (suggestion.value, true) else (norm, false)
  }

  datatype Plan = Refuse(result: PatchResult) | Write(full: string, ending: string, matches: nat, fuzzy: bool)

  function WithBom(bom: bool, text: string): string { if bom then [BOM] + text else text }

  function WithEnding(text: string, ending: string): string {
    if EndsWith(text, ending) then text else text + ending
  }

  function EndingOf(text: string): string { if text != "" then DetectEnding(text) else LF }

  function PlanPatch(output: string, oldString: string, newString: string, all: bool, suggestion: Option<string>): Plan {
    var (text, bom) := StripBom(output);
    var ending := EndingOf(text);
    var rep := if newString != "" then Normalize(newString, ending) else newString;
    var (needle, fuzzy) := Needle(text, oldString, ending, suggestion);
    var count := Count(text, needle);
    if count == 0 then Refuse(NoMatch)
    else if count > 1 && !all then Refuse(Ambiguous(count))
    else Write(WithEnding(WithBom(bom, Replace(text, needle, rep)), ending), ending, count, fuzzy)
  }

  /** The check after the write: `actual` is what was read back. */
  predicate PatchPersisted(actual: string, full: string, ending: string) {
    var expected := if ending == CRLF then InsertCr(ToLf(full)) else full;
    StripBom(actual).0 == StripBom(expected).0
  }

  function PatchReplace(
    files: Files, path: string, oldString: string, newString: string, all: bool, suggestion: Option<string>, f: Faults
  ): (Files, PatchResult)
  {
    var output := Cat(files, path, f.read);
    if output.None? then (files, NotFound)
    else
      match PlanPatch(output.value, oldString, newString, all, suggestion)
      case Refuse(r) => (files, r)
      case Write(full, ending, matches, fuzzy) =>
        var after := AfterWrite(files, path, full, f);
        var again := Cat(after, path, f.reread);
        if !f.writeOk then (after, PatchWriteFailed)
        else if again.None? then (after, PatchRereadFailed)
        else if !PatchPersisted(again.value, full, ending) then (after, DidNotPersist)
        else (after, Patched(matches, fuzzy))
  }

  // ---------------------------------------------------------------- write

  datatype WriteResult = LintRefused | WriteFailed | WriteRereadFailed | NotPersisted | Written

  /** What is sent for new content, given what cat printed of the file, if anything. */
  function ContentToWrite(before: Option<string>, content: string): string {
    var (pre, hasBom) := if before.Some? && before.value != "" then StripBom(before.value) else ("", false);
    var text := if EndingOf(pre) == CRLF then Normalize(content, CRLF) else content;
    if hasBom && !(text != "" && text[0] == BOM) then [BOM] + text else text
  }

  function Comparable(text: string): string { StripBom(RStripLf(ToLf(text))).0 }

  function WriteFile(files: Files, path: string, content: string, lintOk: bool, f: Faults): (Files, WriteResult) {
    if !lintOk then (files, LintRefused)
    else
      var text := ContentToWrite(Probe(files, path, f.read), content);
      var after := AfterWrite(files, path, text, f);
      var again := Cat(after, path, f.reread);
      if !f.writeOk then (after, WriteFailed)
      else if again.None? then (after, WriteRereadFailed)
      else if Comparable(again.value) != Comparable(text) then (after, NotPersisted)
      else (after, Written)
  }

  // ---------------------------------------------------------------- the object

  class FileOperations {
    var files: Files

    method ReadBack(path: string, how: Reading) returns (output: Option<string>)
      ensures output == Cat(files, path, how)
    {
      if how.TimesOut? { return Some(""); }
      if how.Answers? && path in files { return Some(files[path]); }
      return None;
    }

    method AtomicWrite(path: string, content: string, f: Faults) returns (ok: bool)
      modifies this
      ensures ok == f.writeOk && files == AfterWrite(old(files), path, content, f)
    {
      if f.writeOk || f.lands { files := files[path := if f.corrupt.Some? then f.corrupt.value else content]; }
      return f.writeOk;
    }

    method Patch(
      path: string, oldString: string, newString: string, all: bool, suggestion: Option<string>, f: Faults
    ) returns (r: PatchResult)
      modifies this
      ensures (files, r) == PatchReplace(old(files), path, oldString, newString, all, suggestion, f)
    {
      hide PlanPatch, PatchPersisted;
      var output := ReadBack(path, f.read);
      if output.None? { return NotFound; }
      var plan := PlanPatch(output.value, oldString, newString, all, suggestion);
      if plan.Refuse? { return plan.result; }
      var ok := AtomicWrite(path, plan.full, f);
      if !ok { return PatchWriteFailed; }
      var again := ReadBack(path, f.reread);
      if again.None? { return PatchRereadFailed; }
      if !PatchPersisted(again.value, plan.full, plan.ending) { return DidNotPersist; }
      return Patched(plan.matches, plan.fuzzy);
    }

    method Overwrite(path: string, content: string, lintOk: bool, f: Faults) returns (r: WriteResult)
      modifies this
      ensures (files, r) == WriteFile(old(files), path, content, lintOk, f)
    {
      hide Normalize, StripBom, DetectEnding, Comparable;
      if !lintOk { return LintRefused; }
      var cat := None;
      if !f.read.TimesOut? { cat := ReadBack(path, f.read); }
      var pre, hasBom := "", false;
      if cat.Some? && cat.value != "" {
        pre, hasBom := StripBom(cat.value).0, StripBom(cat.value).1;
      }
      var text := content;
      if pre != "" && DetectEnding(pre) == CRLF { text := Normalize(content, CRLF); }
      if hasBom && !(text != "" && text[0] == BOM) { text := [BOM] + text; }
      var ok := AtomicWrite(path, text, f);
      if !ok { return WriteFailed; }
      var again := ReadBack(path, f.reread);
      if again.None? { return WriteRereadFailed; }
      if Comparable(again.value) != Comparable(text) { return NotPersisted; }
      return Written;
    }
  }

  // ---------------------------------------------------------------- what a patch writes

  /** The pieces of a plan that reaches the write. */
  lemma PlanParts(output: string, oldString: string, newString: string, all: bool, suggestion: Option<string>)
    returns (text: string, bom: bool, needle: string, rep: string, replaced: string)
    requires PlanPatch(output, oldString, newString, all, suggestion).Write?
    ensures (text, bom) == StripBom(output)
    ensures var plan := PlanPatch(output, oldString, newString, all, suggestion);
            && plan.ending == EndingOf(text)
            && (needle, plan.fuzzy) == Needle(text, oldString, plan.ending, suggestion)
            && rep == (if newString != "" then Normalize(newString, plan.ending) else newString)
            && replaced == Replace(text, needle, rep)
            && plan.matches == Count(text, needle) > 0 && (plan.matches > 1 ==> all)
            && plan.full == WithEnding(WithBom(bom, replaced), plan.ending)
  {
    hide Normalize, Replace, Count, StripBom, EndsWith, DetectEnding;
    text, bom := StripBom(output).0, StripBom(output).1;
    var ending := EndingOf(text);
    rep := if newString != "" then Normalize(newString, ending) else newString;
    needle := Needle(text, oldString, ending, suggestion).0;
    replaced := Replace(text, needle, rep);
  }

  /** A patch that reaches the write cuts the text at the leftmost matches and joins the same parts by the replacement;
      the reported matches are one fewer than the parts, and without replace_all there is only one. */
  lemma PatchIsJoin(output: string, oldString: string, newString: string, all: bool, suggestion: Option<string>)
    returns (parts: seq<string>, needle: string, rep: string)
    requires PlanPatch(output, oldString, newString, all, suggestion).Write?
    requires oldString != "" && IsLineOf(StripBom(output).0, suggestion)
    ensures var plan := PlanPatch(output, oldString, newString, all, suggestion);
            && parts != [] && needle != "" && Leftmost(parts, needle)
            && StripBom(output).0 == Join(parts, needle)
            && plan.full == WithEnding(WithBom(StripBom(output).1, Join(parts, rep)), plan.ending)
            && |parts| == plan.matches + 1 && (!all ==> |parts| == 2)
  {
    hide Normalize, Count, StripBom, EndsWith, Leftmost, Occurs;
    var text, bom, n, r, replaced := PlanParts(output, oldString, newString, all, suggestion);
    NeedleNonEmpty(text, oldString, EndingOf(text), suggestion);
    parts, needle, rep := Parts(text, n), n, r;
    PartsSound(text, n, r);
    PartsLeftmost(text, n);
  }

  lemma NeedleNonEmpty(text: string, oldString: string, ending: string, suggestion: Option<string>)
    requires oldString != "" && IsLineOf(text, suggestion) && (ending == LF || ending == CRLF)
    ensures Needle(text, oldString, ending, suggestion).0 != ""
  {
    hide ToLf, InsertCr, Count;
    LastOfToLf(oldString);
    LastOfInsertCr(ToLf(oldString));
  }

  // ---------------------------------------------------------------- patching CRLF files

  lemma UniformFull(bom: bool, text: string)
    ensures Uniform(WithEnding(WithBom(bom, text), CRLF)) <==> Uniform(text)
    ensures EndsWith(WithEnding(WithBom(bom, text), CRLF), CRLF)
    ensures bom ==> StripBom(WithEnding(WithBom(bom, text), CRLF)).1
  {
    var a := WithBom(bom, text);
    UniformSplit(text);
    if bom { UniformConcat([BOM], text); }
    UniformConcat(a, CRLF);
  }

  lemma BomOfCrlf(full: string)
    ensures StripBom(full).1 == StripBom(InsertCr(ToLf(full))).1
    ensures StripBom(full).0 == StripBom(InsertCr(ToLf(full))).0 <==> full == InsertCr(ToLf(full))
  {
    hide Replace, ToLf, InsertCr;
    Empties();
    if full != "" {
      ToLfHead(full);
      InsertCrHead(ToLf(full));
      var t := InsertCr(ToLf(full));
      if full[0] == BOM { assert full == [BOM] + full[1..] && t == [BOM] + t[1..]; }
    }
  }

  /** Read back as written, a patch of a CRLF file passes its own check exactly when the written text is uniform. */
  lemma CrlfCheckIff(full: string)
    ensures PatchPersisted(full, full, CRLF) <==> Uniform(full)
  {
    hide ToLf, InsertCr, Uniform, StripBom;
    BomOfCrlf(full);
    CrlfFixesUniform(full);
  }

  /** A patch of an LF file always passes. */
  lemma LfCheck(full: string)
    ensures PatchPersisted(full, full, LF)
  {
  }

  /** What was searched for leaves the line endings around it alone when old_string does not end in CR. */
  lemma NeedleNeutral(text: string, oldString: string, suggestion: Option<string>)
    requires oldString != "" && !EndsCr(oldString) && IsLineOf(text, suggestion)
    ensures Neutral(Needle(text, oldString, CRLF, suggestion).0)
  {
    hide Normalize, Neutral, Count, Occurs, Uniform;
    NormalizedNeutral(oldString);
    if suggestion.Some? { PlainNeutral(suggestion.value); }
  }

  /** Patching a uniform CRLF file: the result is uniform, ends in CRLF, keeps its BOM, and passes the check. */
  lemma PatchKeepsCrlf(output: string, oldString: string, newString: string, all: bool, suggestion: Option<string>)
    requires var text := StripBom(output).0;
             EndingOf(text) == CRLF && Uniform(text) && IsLineOf(text, suggestion)
    requires oldString != "" && !EndsCr(oldString)
    requires PlanPatch(output, oldString, newString, all, suggestion).Write?
    ensures var plan := PlanPatch(output, oldString, newString, all, suggestion);
            && Uniform(plan.full) && EndsWith(plan.full, CRLF)
            && (StripBom(output).1 ==> StripBom(plan.full).1)
            && PatchPersisted(plan.full, plan.full, plan.ending)
  {
    hide Normalize, Count, StripBom, EndsWith, DetectEnding, Occurs, Uniform, Replace, Neutral, PatchPersisted, PlanPatch,
      WithEnding, WithBom, Needle, IsLineOf, EndsCr;
    var text, bom, needle, rep, replaced := PlanParts(output, oldString, newString, all, suggestion);
    NeedleNeutral(text, oldString, suggestion);
    NeedleNonEmpty(text, oldString, CRLF, suggestion);
    PartsSound(text, needle, rep);
    NeutralJoin(Parts(text, needle), needle);
    RepUniform(newString);
    UniformJoin(Parts(text, needle), rep);
    UniformFull(bom, replaced);
    CrlfCheckIff(PlanPatch(output, oldString, newString, all, suggestion).full);
  }

  lemma RepUniform(newString: string)
    ensures Uniform(if newString != "" then Normalize(newString, CRLF) else newString)
  {
    hide Normalize;
    if newString != "" { NormalizedNeutral(newString); }
  }

  /** On any file where CRLF was detected, for any texts: a written patch passes the check exactly when in the parts of the
      file that are kept every LF still has its CR, be it the part's own or the end of the text now before it. */
  lemma CrlfPatchPassesIff(output: string, oldString: string, newString: string, all: bool, suggestion: Option<string>)
    requires var text := StripBom(output).0; EndingOf(text) == CRLF && IsLineOf(text, suggestion)
    requires oldString != "" && PlanPatch(output, oldString, newString, all, suggestion).Write?
    ensures var plan := PlanPatch(output, oldString, newString, all, suggestion);
            var needle := Needle(StripBom(output).0, oldString, CRLF, suggestion).0;
            && needle != ""
            && (PatchPersisted(plan.full, plan.full, plan.ending) <==>
                PartsKeepCr(false, Parts(StripBom(output).0, needle), NewText(newString)))
  {
    hide Normalize, Count, StripBom, EndsWith, DetectEnding, Occurs, Uniform, Replace, Neutral, PatchPersisted, PlanPatch,
      WithEnding, WithBom, Needle, IsLineOf, EndsCr, PartsKeepCr;
    var text, bom, needle, rep, replaced := PlanParts(output, oldString, newString, all, suggestion);
    NeedleNonEmpty(text, oldString, CRLF, suggestion);
    PartsSound(text, needle, rep);
    RepUniform(newString);
    JoinAllUniformIff(Parts(text, needle), rep);
    UniformFull(bom, replaced);
    CrlfCheckIff(PlanPatch(output, oldString, newString, all, suggestion).full);
  }

  /** What replaces a match in a CRLF file. */
  function NewText(newString: string): string {
    if newString != "" then Normalize(newString, CRLF) else newString
  }

  lemma JoinAllUniformIff(parts: seq<string>, sep: string)
    requires parts != [] && Uniform(sep)
    ensures Uniform(Join(parts, sep)) <==> PartsKeepCr(false, parts, sep)
  {
    hide Join, PartsKeepCr, UniformInside;
    JoinUniformIff("", parts, sep);
    assert "" + Join(parts, sep) == Join(parts, sep);
  }

  /** In particular, when neither text ends in CR and the new one is not empty, the check passes exactly when every LF
      on disk is preceded by CR. */
  lemma PlainPatchPassesIff(output: string, oldString: string, newString: string, all: bool, suggestion: Option<string>)
    requires var text := StripBom(output).0; EndingOf(text) == CRLF && IsLineOf(text, suggestion)
    requires oldString != "" && !EndsCr(oldString) && newString != "" && !EndsCr(newString)
    requires PlanPatch(output, oldString, newString, all, suggestion).Write?
    ensures var plan := PlanPatch(output, oldString, newString, all, suggestion);
            PatchPersisted(plan.full, plan.full, plan.ending) <==> Uniform(StripBom(output).0)
  {
    hide Normalize, Count, StripBom, DetectEnding, Occurs, Uniform, Neutral, PatchPersisted, PlanPatch, Needle, IsLineOf, EndsCr,
      PartsKeepCr, Parts, Join, Replace;
    var text := StripBom(output).0;
    var needle := Needle(text, oldString, CRLF, suggestion).0;
    CrlfPatchPassesIff(output, oldString, newString, all, suggestion);
    NewTextEnd(newString);
    KeepCrNeutral(Parts(text, needle), NewText(newString));
    NeedleNeutral(text, oldString, suggestion);
    PartsSound(text, needle, needle);
    NeutralJoin(Parts(text, needle), needle);
  }

  lemma NewTextEnd(newString: string)
    requires newString != "" && !EndsCr(newString)
    ensures NewText(newString) != "" && !EndsCr(NewText(newString))
  {
    hide Normalize;
    NormalizedNeutral(newString);
  }

  /** When old_string does end in CR, such a patch of a uniform CRLF file passes the check exactly when
      no replaced match is followed by an LF. */
  lemma CrEndingPatchPassesIff(output: string, oldString: string, newString: string, all: bool, suggestion: Option<string>)
    requires var text := StripBom(output).0; EndingOf(text) == CRLF && Uniform(text) && IsLineOf(text, suggestion)
    requires oldString != "" && newString != "" && !EndsCr(newString)
    requires PlanPatch(output, oldString, newString, all, suggestion).Write?
    ensures var plan := PlanPatch(output, oldString, newString, all, suggestion);
            var needle := Needle(StripBom(output).0, oldString, CRLF, suggestion).0;
            && needle != ""
            && (PatchPersisted(plan.full, plan.full, plan.ending) <==>
                var parts := Parts(StripBom(output).0, needle); forall k :: 1 <= k < |parts| ==> !StartsLf(parts[k]))
  {
    hide Normalize, Count, StripBom, DetectEnding, Occurs, Uniform, UniformInside, PatchPersisted, PlanPatch, Needle, IsLineOf,
      EndsCr, PartsKeepCr, Parts, Join, Replace, StartsLf;
    CrlfPatchPassesIff(output, oldString, newString, all, suggestion);
    var text := StripBom(output).0;
    var needle := Needle(text, oldString, CRLF, suggestion).0;
    var parts := Parts(text, needle);
    NewTextEnd(newString);
    KeepCrNeutral(parts, NewText(newString));
    PartsSound(text, needle, needle);
    PartsOfUniform(parts, needle);
    forall k | 0 <= k < |parts| ensures Uniform(parts[k]) <==> UniformInside(parts[k]) && !StartsLf(parts[k]) {
      UniformSplit(parts[k]);
    }
  }

  /** For example: taking the CR off a line end writes a bare LF, and is reported as not persisted. */
  lemma CrEndingPatchFails()
    ensures var plan := PlanPatch("a\r\n", "a\r", "b", false, None);
            plan.Write? && !PatchPersisted(plan.full, plan.full, plan.ending)
  {
    hide PatchPersisted, Replace, Count, Normalize, Parts, Occurs, WithEnding, WithBom, Uniform;
    CutParts();
    PlainTexts();
    CrlfPatchPassesIff("a\r\n", "a\r", "b", false, None);
    var parts := ["", "\n"];
    assert parts[1..] == ["\n"] && !PartsKeepCr(false, ["\n"], "b");
  }

  lemma CutParts()
    ensures Parts("a\r\n", "a\r") == ["", "\n"] && Count("a\r\n", "a\r") == 1 && Occurs("a\r\n", CRLF)
  {
    hide Replace, Count, Parts, Leftmost;
    var parts := ["", "\n"];
    AtCrlf("a\r\n", 1);
    CutLeftmost();
    assert parts[1..] == ["\n"] && Join(parts, "a\r") == "a\r\n";
    PartsUnique(parts, "a\r");
    PartsSound("a\r\n", "a\r", "");
  }

  lemma CutLeftmost()
    ensures Leftmost(["", "\n"], "a\r")
  {
    var t := "" + "a\r";
    assert t == "a\r" && At(t, "a\r", 0);
    assert !Occurs("\n", "a\r");
  }

  lemma PlainTexts()
    ensures Normalize("a\r", CRLF) == "a\r" && Normalize("b", CRLF) == "b" && Normalize("X", CRLF) == "X"
  {
    hide Normalize;
    NormalizePlain("a\r");
    NormalizePlain("b");
    NormalizePlain("X");
  }

  /** And deleting what stands between a CR and an LF of a mixed file makes a line end of them, and passes. */
  lemma MixedDeletionPasses()
    ensures var plan := PlanPatch(MIXED, "X", "", false, None);
            !Uniform(MIXED) && plan.Write? && PatchPersisted(plan.full, plan.full, plan.ending)
  {
    hide PatchPersisted, Replace, Count, Normalize, Parts, Occurs, WithEnding, WithBom, Uniform;
    MixedParts();
    PlainTexts();
    CrlfPatchPassesIff(MIXED, "X", "", false, None);
    KeptHere();
  }

  const MIXED := "c\r\na\rX\nb"

  lemma MixedParts()
    ensures Parts(MIXED, "X") == ["c\r\na\r", "\nb"] && Count(MIXED, "X") == 1
    ensures Occurs(MIXED, CRLF) && !Uniform(MIXED)
  {
    hide Replace, Count, Parts, Leftmost;
    var parts := ["c\r\na\r", "\nb"];
    assert MIXED[6] == '\n' && MIXED[5] == 'X';
    AtCrlf(MIXED, 1);
    XOnce(parts[0], parts[1]);
    assert parts[1..] == [parts[1]] && Join(parts, "X") == MIXED;
    PartsUnique(parts, "X");
    PartsSound(MIXED, "X", "");
  }

  lemma KeptHere()
    ensures PartsKeepCr(false, ["c\r\na\r", "\nb"], "")
  {
    assert ["c\r\na\r", "\nb"][1..] == ["\nb"];
    assert PartsKeepCr(true, ["\nb"], "");
  }

  lemma XOnce(a: string, b: string)
    requires 'X' !in a && 'X' !in b
    ensures Leftmost([a, b], "X")
  {
    forall s: string, i: nat | i < |s| && s[i] != 'X' ensures !At(s, "X", i) {}
    var t := a + "X";
    assert t[|a|..|a| + 1] == "X";
    assert At(t, "X", |a|);
    assert forall i :: 0 <= i < |a| ==> !At(t, "X", i);
    assert Find(t, "X", 0) == Some(|a|);
    assert !Occurs(b, "X");
  }

  lemma NormalizePlain(s: string)
    requires Uniform(s)
    ensures Normalize(s, CRLF) == s
  {
    CrlfFixesUniform(s);
  }

  /** With a backend that reads back what it wrote, the planned text is on disk after every patch that reaches the write,
      and success is reported unless CRLF was detected and some kept LF lost its CR. */
  lemma PatchOutcome(files: Files, path: string, oldString: string, newString: string, all: bool, suggestion: Option<string>)
    requires path in files && oldString != ""
    requires IsLineOf(StripBom(files[path]).0, suggestion)
    requires PlanPatch(files[path], oldString, newString, all, suggestion).Write?
    ensures var text := StripBom(files[path]).0;
            var plan, needle := PlanPatch(files[path], oldString, newString, all, suggestion),
                                Needle(text, oldString, EndingOf(text), suggestion).0;
            && needle != ""
            && PatchReplace(files, path, oldString, newString, all, suggestion, NO_FAULTS) ==
               (files[path := plan.full],
                if EndingOf(text) == CRLF && !PartsKeepCr(false, Parts(text, needle), NewText(newString)) then DidNotPersist
                else Patched(plan.matches, plan.fuzzy))
  {
    hide PlanPatch, PatchPersisted, IsLineOf, StripBom, Needle, PartsKeepCr, Parts, NewText, Normalize, Occurs;
    var text, bom, needle, rep, replaced := PlanParts(files[path], oldString, newString, all, suggestion);
    NeedleNonEmpty(text, oldString, EndingOf(text), suggestion);
    if EndingOf(text) == CRLF {
      CrlfPatchPassesIff(files[path], oldString, newString, all, suggestion);
    } else {
      LfCheck(PlanPatch(files[path], oldString, newString, all, suggestion).full);
    }
  }

  /** So a patch that reaches the write of an LF file, or of a uniform CRLF file when old_string does not end in CR,
      succeeds; and the file then holds exactly the planned text. */
  lemma PatchSucceeds(files: Files, path: string, oldString: string, newString: string, all: bool, suggestion: Option<string>)
    requires path in files && oldString != ""
    requires IsLineOf(StripBom(files[path]).0, suggestion)
    requires EndingOf(StripBom(files[path]).0) == CRLF ==> Uniform(StripBom(files[path]).0) && !EndsCr(oldString)
    requires PlanPatch(files[path], oldString, newString, all, suggestion).Write?
    ensures var plan := PlanPatch(files[path], oldString, newString, all, suggestion);
            PatchReplace(files, path, oldString, newString, all, suggestion, NO_FAULTS) ==
            (files[path := plan.full], Patched(plan.matches, plan.fuzzy))
  {
    hide PlanPatch, PatchPersisted, IsLineOf, Uniform, StripBom;
    var text, bom, needle, rep, replaced := PlanParts(files[path], oldString, newString, all, suggestion);
    if EndingOf(text) == CRLF {
      PatchKeepsCrlf(files[path], oldString, newString, all, suggestion);
    } else {
      LfCheck(PlanPatch(files[path], oldString, newString, all, suggestion).full);
    }
  }

  // ---------------------------------------------------------------- timed-out reads

  lemma NothingInEmpty(s: string)
    ensures Count("", s) == if s == "" then 1 else 0
    ensures Replace("", "", s) == s
    ensures s != "" ==> !Occurs("", s)
  {
  }

  /** A first read that times out passes for an empty file: the patch goes on to the write exactly when old_string is
      empty, and then the new text replaces whatever the file held. */
  lemma TimedOutRead(
    files: Files, path: string, oldString: string, newString: string, all: bool, suggestion: Option<string>, f: Faults
  )
    requires f.read.TimesOut? && IsLineOf("", suggestion)
    ensures var (after, r) := PatchReplace(files, path, oldString, newString, all, suggestion, f);
            var text := if newString != "" then ToLf(newString) else "";
            if oldString != "" then after == files && r == NoMatch
            else after == AfterWrite(files, path, WithEnding(text, LF), f) && r != NoMatch && !r.Ambiguous? && r != NotFound
  {
    hide ToLf, InsertCr, Count, Replace, Occurs, PatchPersisted, EndsWith;
    NothingInEmpty(oldString);
    NeedleOfEmpty(oldString, suggestion);
    NothingInEmpty(if newString != "" then ToLf(newString) else "");
  }

  lemma NeedleOfEmpty(oldString: string, suggestion: Option<string>)
    requires IsLineOf("", suggestion)
    ensures var needle := Needle("", oldString, LF, suggestion); !needle.1 && (needle.0 == "" <==> oldString == "")
    ensures Count("", Needle("", oldString, LF, suggestion).0) == if oldString == "" then 1 else 0
  {
    hide ToLf, InsertCr, Count, Replace, Occurs;
    if suggestion.Some? { NothingInEmpty(suggestion.value); }
    LastOfToLf(oldString);
    NothingInEmpty(ToLf(oldString));
    NothingInEmpty("");
  }

  /** A second read that times out never passes the check: the patch is on disk and reported as not persisted. */
  lemma TimedOutReread(
    files: Files, path: string, oldString: string, newString: string, all: bool, suggestion: Option<string>, f: Faults
  )
    requires f.writeOk && f.reread.TimesOut? && Cat(files, path, f.read).Some?
    requires PlanPatch(Cat(files, path, f.read).value, oldString, newString, all, suggestion).Write?
    ensures var plan := PlanPatch(Cat(files, path, f.read).value, oldString, newString, all, suggestion);
            PatchReplace(files, path, oldString, newString, all, suggestion, f) ==
            (AfterWrite(files, path, plan.full, f), DidNotPersist)
  {
    hide PatchPersisted, StripBom;
    var output := Cat(files, path, f.read).value;
    var text, bom, needle, rep, replaced := PlanParts(output, oldString, newString, all, suggestion);
    var plan := PlanPatch(output, oldString, newString, all, suggestion);
    hide PlanPatch;
    EmptyNotPersisted(WithBom(bom, replaced), plan.ending);
  }

  lemma EmptyNotPersisted(a: string, ending: string)
    requires ending == LF || ending == CRLF
    ensures !PatchPersisted("", WithEnding(a, ending), ending)
  {
    hide ToLf, InsertCr;
    var full := WithEnding(a, ending);
    assert full != "" && full[|full| - 1] == '\n';
    Empties();
    LastOfToLf(full);
    LastOfInsertCr(ToLf(full));
    BomOfCrlf(full);
    if full[0] == BOM {
      assert full[1..] != "";
      ToLfHead(full);
      InsertCrHead(ToLf(full));
      LastOfToLf(full[1..]);
      LastOfInsertCr(ToLf(full[1..]));
      assert ToLf(full)[1..] == ToLf(full[1..]);
    }
  }

  /** After a write, it passes only for contents of nothing but line ends and a BOM. */
  lemma TimedOutWriteCheck(files: Files, path: string, content: string, f: Faults)
    requires f.writeOk && f.reread.TimesOut?
    ensures var sent := ContentToWrite(Probe(files, path, f.read), content);
            && WriteFile(files, path, content, true, f).0 == AfterWrite(files, path, sent, f)
            && (WriteFile(files, path, content, true, f).1 == Written <==> RStripLf(ToLf(sent)) in {"", [BOM]})
  {
    hide ToLf, ContentToWrite;
    Empties();
    var t := RStripLf(ToLf(ContentToWrite(Probe(files, path, f.read), content)));
    assert StripBom(t).0 == "" <==> t == "" || t == [BOM] by { BomAlone(t); }
  }

  lemma BomAlone(t: string)
    ensures StripBom(t).0 == "" <==> t == "" || t == [BOM]
  {
    if t != "" { assert t == [t[0]] + t[1..]; }
  }

  // ---------------------------------------------------------------- what a write sends

  /** Writing over a file keeps its CRLF endings and its BOM. */
  lemma WriteKeeps(before: string, content: string)
    ensures var sent := ContentToWrite(Some(before), content);
            && (Occurs(StripBom(before).0, CRLF) ==> Uniform(sent))
            && (StripBom(before).1 ==> StripBom(sent).1)
            && (StripBom(before).1 && !StripBom(StripBom(content).0).1 ==> !StripBom(StripBom(sent).0).1)
  {
    hide ToLf, InsertCr, Find, Uniform, UniformInside;
    var pre := StripBom(before).0;
    BomUniform();
    CrlfOfNone(pre);
    CrlfIdempotent(content);
    var text := if EndingOf(pre) == CRLF then Normalize(content, CRLF) else content;
    UniformSplit(text);
    UniformConcat([BOM], text);
    OneBom(content);
    assert StripBom([BOM] + text).0 == text;
  }

  lemma BomUniform()
    ensures Uniform([BOM])
  {
  }

  lemma CrlfOfNone(pre: string)
    ensures EndingOf(pre) == CRLF <==> Occurs(pre, CRLF)
  {
  }

  /** CRLF normalisation moves no BOM. */
  lemma OneBom(content: string)
    ensures StripBom(Normalize(content, CRLF)).1 == StripBom(content).1
    ensures !StripBom(StripBom(content).0).1 ==> !StripBom(StripBom(Normalize(content, CRLF)).0).1
  {
    hide Replace, ToLf, InsertCr;
    Empties();
    BomOfCrlf(content);
    if content != "" && content[0] == BOM {
      ToLfHead(content);
      InsertCrHead(ToLf(content));
      var rest := content[1..];
      assert ToLf(content)[1..] == ToLf(rest);
      BomOfCrlf(rest);
      assert Normalize(content, CRLF)[1..] == InsertCr(ToLf(rest));
    } else {
      BomOfCrlf(content);
    }
  }

  function DropCr(s: string): string {
    if s == "" then "" else if s[0] == '\r' then DropCr(s[1..]) else [s[0]] + DropCr(s[1..])
  }

  /** Every CR is part of a CRLF. */
  predicate NoLoneCr(s: string) { forall i :: 0 <= i < |s| && s[i] == '\r' ==> i + 1 < |s| && s[i + 1] == '\n' }

  lemma {:induction false} ToLfDropsCr(s: string)
    requires NoLoneCr(s)
    ensures ToLf(s) == DropCr(s)
    decreases |s|
  {
    hide Replace, ToLf;
    Empties();
    if s != "" {
      ToLfHead(s);
      var n := if StartsCrlf(s) then 2 else 1;
      assert forall i :: 0 <= i < |s| - n ==> s[n..][i] == s[n + i];
      ToLfDropsCr(s[n..]);
      if n == 2 { assert s[1..][0] == '\n' && s[1..][1..] == s[2..]; }
    }
  }

  /** The check after a write accepts exactly the texts that differ from what was sent in CRLF versus LF,
      in final newlines and in a leading BOM only, when neither has a lone CR. */
  lemma WriteCheckIff(sent: string, actual: string)
    requires NoLoneCr(sent) && NoLoneCr(actual)
    ensures Comparable(actual) == Comparable(sent) <==>
            StripBom(RStripLf(DropCr(actual))).0 == StripBom(RStripLf(DropCr(sent))).0
  {
    ToLfDropsCr(sent);
    ToLfDropsCr(actual);
  }

  /** So a backend that reads back what it wrote, in either line ending and with any number of final newlines, succeeds. */
  lemma WriteSucceeds(files: Files, path: string, content: string, readBack: string)
    requires var sent := ContentToWrite(Probe(files, path, Answers), content);
             NoLoneCr(sent) && NoLoneCr(readBack) && RStripLf(DropCr(readBack)) == RStripLf(DropCr(sent))
    ensures WriteFile(files, path, content, true, Faults(Answers, true, true, Answers, Some(readBack))) ==
            (files[path := readBack], Written)
  {
    hide ContentToWrite, Comparable, NoLoneCr;
    var sent := ContentToWrite(Probe(files, path, Answers), content);
    WriteCheckIff(sent, readBack);
  }
}
