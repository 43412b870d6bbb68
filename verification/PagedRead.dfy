/** file_read: one page of a text file with line numbers, and the whole file by following its hints. */
module PagedRead {
  import opened Seqs
  import LineEndings

  datatype Limits = Limits(maxFileSize: nat, maxLineLength: nat, defaultLimit: int, maxLimit: int)

  datatype Row = Row(number: nat, text: string)

  datatype Page =
    | NotFound
    | TooLarge(size: nat)
    | Page(rows: seq<Row>, endLine: nat, totalLines: nat, truncated: bool)

  // ---------------------------------------------------------------- the commands run on the machine

  /** The lines of a file with their terminators; only the last may lack one. */
  function LineTexts(s: string): seq<string>
    decreases |s|
  {
    var i := Find(s, "\n", 0);
    if i.Some? then [s[..i.value + 1]] + LineTexts(s[i.value + 1..])
    else if s == "" then [] else [s]
  }

  /** sed -n from,top p */
  function PrintLines(s: string, from: nat, top: nat): string
    requires 1 <= from
  {
    var lines := LineTexts(s);
    var a, b := Min(from - 1, |lines|), Min(top, |lines|);
    if a <= b then Flatten(lines[a..b]) else ""
  }

  /** wc -l */
  function CountNewlines(s: string): nat {
    if s == "" then 0 else (if s[0] == '\n' then 1 else 0) + CountNewlines(s[1..])
  }

  // ---------------------------------------------------------------- the read

  function SplitLf(s: string): (r: seq<string>)
    ensures r != []
    decreases |s|
  {
    var i := Find(s, "\n", 0);
    if i.None? then [s] else [s[..i.value]] + SplitLf(s[i.value + 1..])
  }

  function Shown(lim: Limits, line: string): string {
    if |line| > lim.maxLineLength then line[..lim.maxLineLength] + "... [truncated]" else line
  }

  function Numbered(lim: Limits, first: nat, lines: seq<string>): (rows: seq<Row>)
    ensures |rows| == |lines|
  {
    seq(|lines|, i requires 0 <= i < |lines| => Row(first + i, Shown(lim, lines[i])))
  }

  function PageSize(lim: Limits, limit: Option<int>): (n: nat)
    ensures 1 <= n
  {
    Max(1, Min(if limit.Some? then limit.value else lim.defaultLimit, lim.maxLimit))
  }

  /** `file` is none when the path is not readable. */
  function ReadPage(lim: Limits, file: Option<string>, offset: int, limit: Option<int>): Page {
    var from, n := Max(1, offset), PageSize(lim, limit);
    var endLine := from + n - 1;
    if file.None? then NotFound
    else if |file.value| > lim.maxFileSize then TooLarge(|file.value|)
    else
      var text := LineEndings.StripBom(PrintLines(file.value, from, endLine)).0;
      var total := CountNewlines(file.value);
      Page(Numbered(lim, from, SplitLf(text)), endLine, total, total > endLine)
  }

  /** The pages a caller gets by starting at an offset and following the hint offset = end_line + 1. */
  function FollowHints(lim: Limits, file: Option<string>, offset: nat, limit: Option<int>): seq<Page>
    requires 1 <= offset
    decreases (if file.Some? then CountNewlines(file.value) else 0) + 1 - offset
  {
    var page := ReadPage(lim, file, offset, limit);
    if page.Page? && page.truncated then [page] + FollowHints(lim, file, page.endLine + 1, limit) else [page]
  }

  /** A page's rows, without the empty row that a final newline leaves behind. */
  function Body(page: Page): seq<Row> {
    if !page.Page? || page.rows == [] then []
    else if page.rows[|page.rows| - 1].text == "" then page.rows[..|page.rows| - 1]
    else page.rows
  }

  function Bodies(pages: seq<Page>): seq<Row> {
    if pages == [] then [] else Body(pages[0]) + Bodies(pages[1..])
  }

  // ---------------------------------------------------------------- lines

  function Chop(t: string): string {
    if t != "" && t[|t| - 1] == '\n' then t[..|t| - 1] else t
  }

  function Chops(ts: seq<string>): (r: seq<string>)
    ensures |r| == |ts|
  {
    seq(|ts|, i requires 0 <= i < |ts| => Chop(ts[i]))
  }

  /** The file's lines without their terminators. */
  function Lines(s: string): seq<string> { Chops(LineTexts(s)) }

  predicate Terminated(s: string) { s != "" && s[|s| - 1] == '\n' }

  /** A line text: newlines only at its end, and not empty. */
  predicate IsLine(t: string) { t != "" && forall i :: 0 <= i < |t| - 1 ==> t[i] != '\n' }

  ghost predicate AreLines(ts: seq<string>) {
    && (forall k :: 0 <= k < |ts| ==> IsLine(ts[k]))
    && (forall k :: 0 <= k < |ts| - 1 ==> Terminated(ts[k]))
  }

  lemma FindLf(s: string)
    ensures match Find(s, "\n", 0)
            case None => '\n' !in s
            case Some(i) => i < |s| && s[i] == '\n' && '\n' !in s[..i]
  {
    forall i: nat ensures At(s, "\n", i) <==> i < |s| && s[i] == '\n' { LineEndings.AtLf(s, i); }
    var f := Find(s, "\n", 0);
    if f.None? {
      forall i | 0 <= i < |s| ensures s[i] != '\n' { assert !At(s, "\n", i); }
    } else {
      forall i | 0 <= i < f.value ensures s[i] != '\n' { assert !At(s, "\n", i); }
    }
  }

  lemma {:induction false} CountNone(s: string)
    requires '\n' !in s
    ensures CountNewlines(s) == 0
  {
    if s != "" { CountNone(s[1..]); }
  }

  lemma {:induction false} CountConcat(a: string, b: string)
    ensures CountNewlines(a + b) == CountNewlines(a) + CountNewlines(b)
  {
    if a == "" {
      assert a + b == b;
    } else {
      CountConcat(a[1..], b);
      assert (a + b)[1..] == a[1..] + b;
    }
  }

  lemma LineTextsStep(s: string) returns (line: string, rest: string)
    requires '\n' in s
    ensures '\n' !in line && |rest| < |s| && s == (line + ['\n']) + rest
    ensures LineTexts(s) == [line + ['\n']] + LineTexts(rest)
  {
    hide Find;
    FindLf(s);
    var i := Find(s, "\n", 0).value;
    line, rest := s[..i], s[i + 1..];
    assert s[..i + 1] == line + ['\n'];
  }

  lemma LineTextsNone(s: string)
    requires '\n' !in s
    ensures LineTexts(s) == if s == "" then [] else [s]
  {
    FindLf(s);
  }

  lemma ConsLines(first: string, ts: seq<string>)
    requires IsLine(first) && Terminated(first) && AreLines(ts)
    ensures AreLines([first] + ts)
  {
    var all := [first] + ts;
    forall k | 0 <= k < |all| - 1 ensures Terminated(all[k]) { if k > 0 { assert all[k] == ts[k - 1]; } }
  }

  lemma CountLine(line: string, rest: string)
    requires '\n' !in line
    ensures CountNewlines((line + ['\n']) + rest) == 1 + CountNewlines(rest)
  {
    CountConcat(line + ['\n'], rest);
    CountConcat(line, ['\n']);
    CountNone(line);
    assert CountNewlines(['\n']) == 1 + CountNewlines(['\n'][1..]) == 1;
  }

  lemma {:induction false} LineTextsShape(s: string)
    ensures AreLines(LineTexts(s)) && Flatten(LineTexts(s)) == s
    ensures CountNewlines(s) == |LineTexts(s)| - (if s == "" || Terminated(s) then 0 else 1)
    ensures EndsWhole(LineTexts(s)) <==> s == "" || Terminated(s)
    decreases |s|
  {
    hide LineTexts, CountNewlines;
    if '\n' !in s {
      LineTextsNone(s);
      CountNone(s);
      assert [s][1..] == [];
    } else {
      var line, rest := LineTextsStep(s);
      LineTextsShape(rest);
      CountLine(line, rest);
      ConsLines(line + ['\n'], LineTexts(rest));
      assert LineTexts(s)[1..] == LineTexts(rest);
    }
  }

  lemma SplitHere(line: string, rest: string)
    requires '\n' !in line
    ensures SplitLf(line + (['\n'] + rest)) == [line] + SplitLf(rest)
  {
    hide Find;
    var s := line + (['\n'] + rest);
    assert forall j :: 0 <= j < |line| ==> s[j] == line[j];
    FirstLf(s, |line|);
    assert s[..|line|] == line && s[|line| + 1..] == rest;
  }

  lemma SplitNone(s: string)
    requires '\n' !in s
    ensures SplitLf(s) == [s]
  {
    FindLf(s);
  }

  lemma ChopLine(t: string)
    requires IsLine(t)
    ensures '\n' !in Chop(t)
    ensures if Terminated(t) then t == Chop(t) + ['\n'] else Chop(t) == t
  {
  }

  lemma LinesTail(ts: seq<string>)
    requires AreLines(ts) && ts != []
    ensures IsLine(ts[0]) && AreLines(ts[1..]) && Chops(ts) == [Chop(ts[0])] + Chops(ts[1..])
    ensures |ts| == 1 || Terminated(ts[0])
  {
  }

  predicate EndsWhole(ts: seq<string>) { ts == [] || Terminated(ts[|ts| - 1]) }

  /** Splitting a run of lines at newlines gives them back without terminators, and an empty rest after a whole last one. */
  lemma {:induction false} SplitRun(ts: seq<string>)
    requires AreLines(ts)
    ensures SplitLf(Flatten(ts)) == if EndsWhole(ts) then Chops(ts) + [""] else Chops(ts)
  {
    hide SplitLf, IsLine, AreLines, Chop, Chops, Terminated;
    if ts == [] {
      SplitNone("");
      assert Chops(ts) == [];
    } else {
      LinesTail(ts);
      ChopLine(ts[0]);
      if Terminated(ts[0]) {
        SplitRun(ts[1..]);
        SplitHere(Chop(ts[0]), Flatten(ts[1..]));
        assert Flatten(ts) == Chop(ts[0]) + (['\n'] + Flatten(ts[1..]));
      } else {
        SplitNone(ts[0]);
        assert Flatten(ts) == ts[0] + [] == ts[0];
        assert Chops(ts[1..]) == [];
      }
    }
  }

  lemma FirstLf(s: string, i: nat)
    requires i < |s| && s[i] == '\n' && forall j :: 0 <= j < i ==> s[j] != '\n'
    ensures Find(s, "\n", 0) == Some(i)
  {
    FindLf(s);
    LineEndings.AtLf(s, i);
  }

  // ---------------------------------------------------------------- pages

  lemma RunOfLines(ts: seq<string>, a: nat, b: nat)
    requires AreLines(ts) && a <= b <= |ts|
    ensures AreLines(ts[a..b]) && Chops(ts[a..b]) == Chops(ts)[a..b]
  {
    assert forall k :: 0 <= k < b - a ==> ts[a..b][k] == ts[a + k];
  }

  /** No line starts with a BOM; so none is taken off the start of a page. */
  ghost predicate NoBomLines(s: string) {
    forall k :: 0 <= k < |LineTexts(s)| ==> LineTexts(s)[k] == "" || LineTexts(s)[k][0] != LineEndings.BOM
  }

  lemma NoBomInRun(s: string, a: nat, b: nat)
    requires NoBomLines(s) && a <= b <= |LineTexts(s)|
    ensures LineEndings.StripBom(Flatten(LineTexts(s)[a..b])).0 == Flatten(LineTexts(s)[a..b])
  {
    hide LineTexts;
    var ts := LineTexts(s);
    LineTextsShape(s);
    var run := ts[a..b];
    if a < b {
      assert run[0] == ts[a] && IsLine(ts[a]);
      assert Flatten(run) == run[0] + Flatten(run[1..]);
    }
  }

  lemma LastOfRun(lim: Limits, ts: seq<string>)
    requires AreLines(ts) && !EndsWhole(ts)
    ensures ts != [] && Shown(lim, Chops(ts)[|ts| - 1]) != ""
  {
  }

  /** The body of a page is the requested lines, numbered from the offset. */
  lemma PageBody(lim: Limits, s: string, from: nat, limit: Option<int>)
    requires |s| <= lim.maxFileSize && NoBomLines(s)
    requires 1 <= from <= |LineTexts(s)| + 1
    ensures var page := ReadPage(lim, Some(s), from, limit);
            var top := Min(from - 1 + PageSize(lim, limit), |Lines(s)|);
            && page.Page? && page.endLine == from - 1 + PageSize(lim, limit) && page.totalLines == CountNewlines(s)
            && (page.truncated <==> CountNewlines(s) > page.endLine)
            && Body(page) == Numbered(lim, from, Lines(s)[from - 1..top])
  {
    hide LineTexts, CountNewlines, AreLines, Chops, Numbered, PageSize, Body, EndsWhole, SplitLf;
    var n := PageSize(lim, limit);
    LinesLength(s);
    LineTextsShape(s);
    var a, b := from - 1, Min(from - 1 + n, |LineTexts(s)|);
    RunOfLines(LineTexts(s), a, b);
    PrintRun(s, from, n);
    NoBomInRun(s, a, b);
    BodyOfRun(lim, from, LineTexts(s)[a..b], ReadPage(lim, Some(s), from, limit));
  }

  lemma PrintRun(s: string, from: nat, n: nat)
    requires 1 <= from <= |LineTexts(s)| + 1
    ensures PrintLines(s, from, from + n - 1) == Flatten(LineTexts(s)[from - 1..Min(from - 1 + n, |LineTexts(s)|)])
  {
    hide LineTexts, Flatten;
  }

  lemma BodyOfRun(lim: Limits, from: nat, run: seq<string>, page: Page)
    requires AreLines(run) && page.Page? && page.rows == Numbered(lim, from, SplitLf(Flatten(run)))
    ensures Body(page) == Numbered(lim, from, Chops(run))
  {
    hide AreLines, Chops, SplitLf, EndsWhole, Flatten;
    SplitRun(run);
    if EndsWhole(run) {
      NumberedSnoc(lim, from, Chops(run));
    } else {
      LastOfRun(lim, run);
    }
  }

  lemma LinesLength(s: string)
    ensures |Lines(s)| == |LineTexts(s)|
  {
  }

  lemma NumberedSnoc(lim: Limits, from: nat, lines: seq<string>)
    ensures var rows := Numbered(lim, from, lines + [""]);
            rows[|lines|].text == "" && rows[..|lines|] == Numbered(lim, from, lines)
  {
  }

  lemma NumberedConcat(lim: Limits, from: nat, a: seq<string>, b: seq<string>)
    ensures Numbered(lim, from, a + b) == Numbered(lim, from, a) + Numbered(lim, from + |a|, b)
  {
  }

  /** Where the last page ends when pages of n lines start after line a: the first end not below the total. */
  function LastEnd(a: nat, n: nat, total: nat): nat
    requires 1 <= n
    decreases total + 1 - a
  {
    if a + n >= total then a + n else LastEnd(a + n, n, total)
  }

  lemma Cut<T>(s: seq<T>, a: nat, b: nat, c: nat)
    requires a <= b <= c <= |s|
    ensures s[a..c] == s[a..b] + s[b..c]
  {
  }

  lemma BodiesCons(page: Page, rest: seq<Page>)
    ensures Bodies([page] + rest) == Body(page) + Bodies(rest)
  {
    assert ([page] + rest)[1..] == rest;
  }

  lemma BodiesOne(page: Page)
    ensures Bodies([page]) == Body(page)
  {
    BodiesCons(page, []);
    assert [page] + [] == [page] && Body(page) + [] == Body(page);
  }

  lemma {:induction false} FollowFrom(lim: Limits, s: string, from: nat, limit: Option<int>)
    requires |s| <= lim.maxFileSize && NoBomLines(s)
    requires 1 <= from <= CountNewlines(s) + 1
    ensures var last := LastEnd(from - 1, PageSize(lim, limit), CountNewlines(s));
            from - 1 <= Min(last, |Lines(s)|)
            && Bodies(FollowHints(lim, Some(s), from, limit)) == Numbered(lim, from, Lines(s)[from - 1..Min(last, |Lines(s)|)])
    decreases CountNewlines(s) + 1 - from
  {
    hide Lines, LineTexts, CountNewlines, AreLines, Chops, PageSize, ReadPage, Numbered, Body, Terminated, Bodies, EndsWhole;
    LineTextsShape(s);
    LinesLength(s);
    PageBody(lim, s, from, limit);
    var page := ReadPage(lim, Some(s), from, limit);
    var lines, n := Lines(s), PageSize(lim, limit);
    var pages := FollowHints(lim, Some(s), from, limit);
    if page.truncated {
      FollowFrom(lim, s, from + n, limit);
      var last := Min(LastEnd(from - 1 + n, n, CountNewlines(s)), |lines|);
      assert pages[1..] == FollowHints(lim, Some(s), from + n, limit);
      Cut(lines, from - 1, from - 1 + n, last);
      NumberedConcat(lim, from, lines[from - 1..from - 1 + n], lines[from - 1 + n..last]);
      BodiesCons(page, FollowHints(lim, Some(s), from + n, limit));
    } else {
      BodiesOne(page);
    }
  }

  /** The last page ends at the total exactly when a whole number of pages, at least one, fits what is left. */
  lemma {:induction false} LastEndExact(a: nat, n: nat, total: nat)
    requires 1 <= n && a <= total
    ensures total <= LastEnd(a, n, total)
    ensures LastEnd(a, n, total) == total <==> total > a && (total - a) % n == 0
    decreases total - a
  {
    if a + n < total {
      LastEndExact(a + n, n, total);
      SubOnce(total - a, n);
    } else if a + n == total {
      SubOnce(n, n);
    }
  }

  lemma AtLeastOnce(d: int, n: nat)
    requires d >= 1
    ensures d * n >= n
  {
    assert d * n == (d - 1) * n + n;
  }

  lemma SubOnce(x: nat, n: nat)
    requires 1 <= n <= x
    ensures x % n == (x - n) % n
  {
    var q, r, p, t := x / n, x % n, (x - n) / n, (x - n) % n;
    assert x == q * n + r && x - n == p * n + t;
    assert (q - p - 1) * n == q * n - p * n - n == t - r;
    assert (p + 1 - q) * n == p * n + n - q * n == r - t;
    if q > p + 1 { AtLeastOnce(q - p - 1, n); }
    if q < p + 1 { AtLeastOnce(p + 1 - q, n); }
  }

  /** Following the hints from line 1 gives every line of the file once, in order, under its own number, exactly when
      the last line is terminated, or is the only one, or does not come right after a full page. Otherwise that line,
      which wc does not count, is the one thing missing. */
  lemma PagesTileIff(lim: Limits, s: string, limit: Option<int>)
    requires |s| <= lim.maxFileSize && NoBomLines(s)
    ensures var all := Bodies(FollowHints(lim, Some(s), 1, limit)); var n := CountNewlines(s);
            && (all == Numbered(lim, 1, Lines(s)) <==>
                  s == "" || Terminated(s) || n == 0 || n % PageSize(lim, limit) != 0)
            && (all != Numbered(lim, 1, Lines(s)) ==>
                  Lines(s) != [] && all == Numbered(lim, 1, Lines(s)[..|Lines(s)| - 1]))
  {
    hide LineTexts, CountNewlines, AreLines, Chops, PageSize, Terminated, FollowHints, Bodies;
    LineTextsShape(s);
    FollowFrom(lim, s, 1, limit);
    LastEndExact(0, PageSize(lim, limit), CountNewlines(s));
    var lines := Lines(s);
    var last := Min(LastEnd(0, PageSize(lim, limit), CountNewlines(s)), |lines|);
    assert lines[0..last] == lines[..last] && lines[..|lines|] == lines;
  }
}
