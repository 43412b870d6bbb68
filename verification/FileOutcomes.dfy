/** What file_patch and file_write answer and leave on disk, case by case. */
module FileOutcomes {
  import opened Seqs
  import opened FindReplace
  import opened LineEndings
  import opened FileOperations

  // ---------------------------------------------------------------- what a patch searches for and writes

  /** CR LF stands somewhere in the text. */
  lemma EndingIff(text: string)
    ensures EndingOf(text) == (if HasCrlf(text) then "\r\n" else "\n")
  {
    hide Find;
    if HasCrlf(text) {
      var i :| 0 <= i && i + 1 < |text| && text[i] == '\r' && text[i + 1] == '\n';
      AtCrlf(text, i);
    } else if Occurs(text, CRLF) {
      AtCrlf(text, Find(text, CRLF, 0).value);
    }
  }

  /** A non-empty text in the file's line ending: with only LF ends, or with a CR before every LF. */
  function InEnding(t: string, text: string): string {
    if HasCrlf(text) then InsertCr(ToLf(t)) else ToLf(t)
  }

  /** What a patch searches for: old_string in the file's line ending when that occurs, whatever the suggestion; else the
      suggested line, for an old_string of one line. */
  predicate Searches(text: string, oldString: string, suggestion: Option<string>, needle: string, fuzzy: bool) {
    if fuzzy then !Occurs(text, InEnding(oldString, text)) && '\n' !in oldString && suggestion == Some(needle)
    else Occurs(text, InEnding(oldString, text)) && needle == InEnding(oldString, text)
  }

  lemma NormalizedIs(t: string, text: string)
    ensures Normalize(t, EndingOf(text)) == InEnding(t, text)
  {
    EndingIff(text);
  }

  lemma CountPositive(text: string, pat: string)
    ensures Count(text, pat) > 0 <==> Occurs(text, pat)
  {
  }

  lemma NeedleIs(text: string, oldString: string, suggestion: Option<string>, needle: string, fuzzy: bool)
    requires oldString != "" && IsLineOf(text, suggestion)
    ensures Searches(text, oldString, suggestion, needle, fuzzy) ==>
              Needle(text, oldString, EndingOf(text), suggestion) == (needle, fuzzy) && needle != "" && Occurs(text, needle)
    ensures !Occurs(text, InEnding(oldString, text)) && ('\n' in oldString || suggestion.None?) ==>
              Count(text, Needle(text, oldString, EndingOf(text), suggestion).0) == 0
  {
    hide Normalize, InEnding, Occurs, Count, EndingOf;
    NormalizedIs(oldString, text);
    CountPositive(text, InEnding(oldString, text));
    NeedleFull(text, oldString, suggestion);
  }

  lemma NeedleFull(text: string, oldString: string, suggestion: Option<string>)
    requires oldString != "" && IsLineOf(text, suggestion)
    ensures Needle(text, oldString, EndingOf(text), suggestion).0 != ""
  {
    hide Needle;
    NeedleNonEmpty(text, oldString, EndingOf(text), suggestion);
  }

  /** With a text to search for, a patch reaches the write exactly when every match may be replaced or there is only one;
      it then reports the matches and writes the file's parts joined by the new text in the file's line ending, behind the
      BOM if there was one, with a final line end added if there was none. Otherwise it reports how many matches there are. */
  lemma PlanFor(
    output: string, oldString: string, newString: string, all: bool, suggestion: Option<string>, needle: string, fuzzy: bool
  )
    requires oldString != "" && IsLineOf(StripBom(output).0, suggestion)
    requires Searches(StripBom(output).0, oldString, suggestion, needle, fuzzy)
    ensures needle != ""
    ensures var (text, bom) := StripBom(output);
            var parts, plan := Parts(text, needle), PlanPatch(output, oldString, newString, all, suggestion);
            var ending := if HasCrlf(text) then "\r\n" else "\n";
            var body := (if bom then [BOM] else "") + Join(parts, if newString == "" then "" else InEnding(newString, text));
            && |parts| >= 2 && (plan.Write? <==> all || |parts| == 2)
            && (plan.Write? ==>
                  && plan.matches == |parts| - 1 && plan.fuzzy == fuzzy && plan.ending == ending
                  && plan.full == if EndsWith(body, ending) then body else body + ending)
            && (!plan.Write? ==> plan == Refuse(Ambiguous(|parts| - 1)))
  {
    hide Normalize, InEnding, Occurs, Count, StripBom, Searches, EndsWith, Replace, Parts, Join, Needle;
    var (text, bom) := StripBom(output);
    NeedleIs(text, oldString, suggestion, needle, fuzzy);
    EndingIff(text);
    NormalizedIs(newString, text);
    var rep := if newString == "" then "" else InEnding(newString, text);
    PartsSound(text, needle, rep);
    CountPositive(text, needle);
    assert "" + Join(Parts(text, needle), rep) == Join(Parts(text, needle), rep);
  }

  /** A patch finds no match exactly when old_string does not occur in the file's line ending, and there is no suggestion
      or more than one line to find. */
  lemma NoMatchIff(output: string, oldString: string, newString: string, all: bool, suggestion: Option<string>)
    requires oldString != "" && IsLineOf(StripBom(output).0, suggestion)
    ensures PlanPatch(output, oldString, newString, all, suggestion) == Refuse(NoMatch) <==>
            !Occurs(StripBom(output).0, InEnding(oldString, StripBom(output).0)) && ('\n' in oldString || suggestion.None?)
  {
    var text := StripBom(output).0;
    hide Normalize, InEnding, Occurs, Count, StripBom, EndsWith, Replace, Parts, Join, Needle;
    if Occurs(text, InEnding(oldString, text)) {
      PlanFor(output, oldString, newString, all, suggestion, InEnding(oldString, text), false);
    } else if '\n' !in oldString && suggestion.Some? {
      PlanFor(output, oldString, newString, all, suggestion, suggestion.value, true);
    } else {
      NeedleIs(text, oldString, suggestion, "", false);
    }
  }

  /** Replacing the empty text puts the new one before every character and at the end. */
  lemma {:induction false} InterleaveExact(s: string, rep: string, i: nat)
    requires i < |s|
    ensures |Replace(s, "", rep)| == |s| + (|s| + 1) * |rep| && Count(s, "") == |s| + 1
    ensures var at := i * (|rep| + 1);
            0 <= at && at + |rep| < |Replace(s, "", rep)|
            && Replace(s, "", rep)[at..at + |rep|] == rep && Replace(s, "", rep)[at + |rep|] == s[i]
    decreases |s|
  {
    InterleaveLength(s, rep);
    var r, tail := Interleave(s, rep), Interleave(s[1..], rep);
    assert r == (rep + [s[0]]) + tail;
    if i > 0 {
      InterleaveExact(s[1..], rep, i - 1);
      var at, before := i * (|rep| + 1), (i - 1) * (|rep| + 1);
      assert at == before + (|rep| + 1);
      assert r[at..at + |rep|] == tail[before..before + |rep|] && r[at + |rep|] == tail[before + |rep|];
    } else {
      assert 0 * (|rep| + 1) == 0 && r[..|rep|] == rep;
    }
  }

  lemma {:induction false} InterleaveLength(s: string, rep: string)
    ensures |Interleave(s, rep)| == |s| + (|s| + 1) * |rep|
  {
    if s != "" {
      InterleaveLength(s[1..], rep);
      assert (|s| + 1) * |rep| == |s| * |rep| + |rep|;
    }
  }

  /** An empty old_string matches everywhere: it is replaced in an empty file, or with replace_all. */
  lemma EmptyOldString(output: string, newString: string, all: bool, suggestion: Option<string>)
    ensures var (text, bom) := StripBom(output);
            var plan := PlanPatch(output, "", newString, all, suggestion);
            var ending := if HasCrlf(text) then "\r\n" else "\n";
            var body := (if bom then [BOM] else "") + Replace(text, "", if newString == "" then "" else InEnding(newString, text));
            if all || text == "" then plan == Write(if EndsWith(body, ending) then body else body + ending, ending, |text| + 1, false)
            else plan == Refuse(Ambiguous(|text| + 1))
  {
    var (text, bom) := StripBom(output);
    hide Normalize, InEnding, EndsWith, Replace, StripBom, Occurs;
    EndingIff(text);
    NormalizedIs(newString, text);
    var t := Replace(text, "", if newString == "" then "" else InEnding(newString, text));
    assert "" + t == t;
  }

  // ---------------------------------------------------------------- how a patch is answered

  /** A patch that cannot read the file, or that its plan refuses, says so and changes nothing. */
  lemma PatchRefused(
    files: Files, path: string, oldString: string, newString: string, all: bool, suggestion: Option<string>, f: Faults
  )
    requires f.read.Answers?
    ensures var (after, r) := PatchReplace(files, path, oldString, newString, all, suggestion, f);
            && (path !in files ==> after == files && r == NotFound)
            && (path in files ==>
                  var plan := PlanPatch(files[path], oldString, newString, all, suggestion);
                  plan.Refuse? ==> after == files && r == plan.result)
    ensures PatchReplace(files, path, oldString, newString, all, suggestion, f.(read := Fails)) == (files, NotFound)
  {
    hide PlanPatch;
  }

  /** A patch that reaches the write: what is on disk is what the write left there, and the answer is success exactly when
      the write is reported done and the text read back is the one sent, in the file's line ending, up to a BOM. */
  lemma PatchAnswer(
    files: Files, path: string, oldString: string, newString: string, all: bool, suggestion: Option<string>, f: Faults
  )
    requires f.read.Answers? && path in files && f.reread.Answers?
    requires PlanPatch(files[path], oldString, newString, all, suggestion).Write?
    ensures var (after, r) := PatchReplace(files, path, oldString, newString, all, suggestion, f);
            var plan := PlanPatch(files[path], oldString, newString, all, suggestion);
            var sent := if plan.ending == "\r\n" then InsertCr(ToLf(plan.full)) else plan.full;
            && (!f.writeOk && !f.lands ==> after == files)
            && (f.writeOk || f.lands ==> after == files[path := if f.corrupt.Some? then f.corrupt.value else plan.full])
            && (!f.writeOk ==> r == PatchWriteFailed)
            && (f.writeOk ==> r == if StripBom(after[path]).0 == StripBom(sent).0 then Patched(plan.matches, plan.fuzzy)
                                   else DidNotPersist)
    ensures PatchReplace(files, path, oldString, newString, all, suggestion, f.(reread := Fails)).1 ==
            if f.writeOk then PatchRereadFailed else PatchWriteFailed
  {
    hide PlanPatch, StripBom;
  }

  // ---------------------------------------------------------------- what a write sends

  lemma BomFront(content: string)
    ensures StripBom([BOM] + content) == (content, true)
    ensures StripBom(content).1 <==> content != "" && content[0] == BOM
    ensures !StripBom(content).1 ==> StripBom(content).0 == content
    ensures StripBom(content).1 ==> content == [BOM] + StripBom(content).0
  {
    assert ([BOM] + content)[1..] == content;
    if content != "" { assert content == [content[0]] + content[1..]; }
  }

  /** What file_write sends over a file without CR LF, or a new one, is the content, with a BOM in front exactly when the
      file has one and the content has none. */
  lemma SentPlain(before: Option<string>, content: string)
    requires before.None? || !HasCrlf(StripBom(before.value).0)
    ensures ContentToWrite(before, content) ==
            (if before.Some? && StripBom(before.value).1 && !StripBom(content).1 then [BOM] else "") + content
  {
    hide Normalize;
    assert "" + content == content;
    EndingIff("");
    if before.Some? { EndingIff(StripBom(before.value).0); }
  }

  /** Over a file with CR LF it is uniform and, LF-normalised and without a BOM, the content; it has a BOM exactly when the
      file or the content has one. */
  lemma SentCrlf(before: string, content: string)
    requires HasCrlf(StripBom(before).0)
    ensures var sent := ContentToWrite(Some(before), content);
            && Uniform(sent) && (StripBom(sent).1 <==> StripBom(before).1 || StripBom(content).1)
            && ToLf(StripBom(sent).0) == ToLf(StripBom(content).0)
            && DropCr(StripBom(sent).0) == DropCr(StripBom(content).0)
  {
    hide ToLf, InsertCr, Find, Uniform, UniformInside, StripBom;
    EndingIff(StripBom(before).0);
    HasText(before);
    var t := Normalize(content, CRLF);
    CrlfIdempotent(content);
    BomUniform();
    UniformSplit(t);
    UniformConcat([BOM], t);
    BomFront(t);
    BomFront(content);
    OneBom(content);
    RestOfNormalized(content);
    LfOfInsertCr(ToLf(StripBom(content).0));
    DropOfNormalized(StripBom(content).0);
  }

  lemma HasText(before: string)
    requires HasCrlf(StripBom(before).0)
    ensures before != ""
  {
  }

  /** A BOM in front stays in front of the normalised rest. */
  lemma RestOfNormalized(content: string)
    ensures StripBom(Normalize(content, CRLF)).0 == Normalize(StripBom(content).0, CRLF)
  {
    hide Replace, ToLf, InsertCr;
    Empties();
    BomOfCrlf(content);
    if content != "" && content[0] == BOM {
      ToLfHead(content);
      InsertCrHead(ToLf(content));
      assert ToLf(content)[1..] == ToLf(content[1..]);
      assert Normalize(content, CRLF)[1..] == InsertCr(ToLf(content[1..]));
    }
  }

  lemma {:induction false} DropOfInsert(s: string)
    ensures DropCr(InsertCr(s)) == DropCr(s)
  {
    hide Replace, InsertCr;
    Empties();
    if s != "" {
      InsertCrHead(s);
      DropOfInsert(s[1..]);
      var t := InsertCr(s[1..]);
      if s[0] == '\n' {
        assert (CRLF + t)[1..] == ['\n'] + t && (['\n'] + t)[1..] == t;
      } else {
        assert ([s[0]] + t)[1..] == t;
      }
    }
  }

  lemma {:induction false} DropOfLf(s: string)
    ensures DropCr(ToLf(s)) == DropCr(s)
    decreases |s|
  {
    hide Replace, ToLf;
    Empties();
    if s != "" {
      ToLfHead(s);
      if StartsCrlf(s) {
        DropOfLf(s[2..]);
        assert s[1..][0] == '\n' && s[1..][1..] == s[2..] && (['\n'] + ToLf(s[2..]))[1..] == ToLf(s[2..]);
      } else {
        DropOfLf(s[1..]);
        assert ([s[0]] + ToLf(s[1..]))[1..] == ToLf(s[1..]);
      }
    }
  }

  lemma DropOfNormalized(s: string)
    ensures DropCr(Normalize(s, CRLF)) == DropCr(s)
  {
    hide ToLf, InsertCr, DropCr;
    DropOfInsert(ToLf(s));
    DropOfLf(s);
  }

  // ---------------------------------------------------------------- how a write is answered

  /** A fault-free write succeeds and leaves on disk what was sent: the content up to line ends and a BOM, and exactly the
      content for a new file or one with neither CR LF nor BOM. */
  lemma WriteLands(files: Files, path: string, content: string)
    ensures var (after, r) := WriteFile(files, path, content, true, NO_FAULTS);
            && r == Written && path in after && after == files[path := after[path]]
            && ToLf(StripBom(after[path]).0) == ToLf(StripBom(content).0)
            && (path !in files || (!HasCrlf(StripBom(files[path]).0) && !StripBom(files[path]).1) ==> after[path] == content)
            && (path in files && HasCrlf(StripBom(files[path]).0) ==> Uniform(after[path]))
            && (path in files && StripBom(files[path]).1 ==> StripBom(after[path]).1)
  {
    hide ContentToWrite, StripBom, ToLf, Comparable, Uniform, HasCrlf;
    var before := Probe(files, path, Answers);
    if before.Some? && HasCrlf(StripBom(before.value).0) {
      SentCrlf(before.value, content);
    } else {
      SentPlain(before, content);
      BomFront(content);
      assert "" + content == content;
    }
  }

  /** A write that lint refuses changes nothing. Otherwise what is on disk is what the write left there, and the answer is
      success exactly when the write is reported done and what is read back is what was sent, up to CR LF against LF,
      final line ends and a BOM. */
  lemma WriteAnswer(files: Files, path: string, content: string, f: Faults)
    requires f.reread.Answers?
    ensures var sent := ContentToWrite(Probe(files, path, f.read), content);
            var (after, r) := WriteFile(files, path, content, true, f);
            && (!f.writeOk && !f.lands ==> after == files)
            && (f.writeOk || f.lands ==> after == files[path := if f.corrupt.Some? then f.corrupt.value else sent])
            && (!f.writeOk ==> r == WriteFailed)
            && (f.writeOk ==>
                  (r == Written <==> StripBom(RStripLf(ToLf(after[path]))).0 == StripBom(RStripLf(ToLf(sent))).0)
                  && (r != Written ==> r == NotPersisted))
    ensures WriteFile(files, path, content, false, f) == (files, LintRefused)
    ensures WriteFile(files, path, content, true, f.(reread := Fails)).1 == if f.writeOk then WriteRereadFailed else WriteFailed
  {
    hide ContentToWrite, StripBom, RStripLf, ToLf;
  }
}
