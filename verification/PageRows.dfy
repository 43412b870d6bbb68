/** What a page of file_read shows, row by row. */
module PageRows {
  import opened Seqs
  import LineEndings
  import FindReplace
  import opened PagedRead

  /** The page size is the requested one, or else the configured one, brought between 1 and the maximum. */
  lemma PageSizeIs(lim: Limits, limit: Option<int>)
    ensures var wanted, n := (if limit.Some? then limit.value else lim.defaultLimit), PageSize(lim, limit);
            && (1 <= wanted <= lim.maxLimit ==> n == wanted)
            && (wanted > lim.maxLimit >= 1 ==> n == lim.maxLimit)
            && (wanted < 1 || lim.maxLimit < 1 ==> n == 1)
  {
  }

  /** A path that cannot be read, a file over the size limit, and an offset before the first line. */
  lemma PageKinds(lim: Limits, file: Option<string>, offset: int, limit: Option<int>)
    ensures var page := ReadPage(lim, file, offset, limit);
            && (page.NotFound? <==> file.None?)
            && (page.TooLarge? <==> file.Some? && |file.value| > lim.maxFileSize)
            && (page.TooLarge? ==> page.size == |file.value|)
            && (offset < 1 ==> page == ReadPage(lim, file, 1, limit))
  {
    hide PrintLines, CountNewlines, SplitLf;
  }

  /** How many lines of the file a page covers. */
  function Covered(lim: Limits, s: string, from: nat, limit: Option<int>): (n: nat)
    requires 1 <= from <= |Lines(s)| + 1
  {
    Min(PageSize(lim, limit), |Lines(s)| - (from - 1))
  }

  /** Row i of a page has the number of its line. It shows the line whole up to the maximal length, and otherwise its first
      characters, that many, and a mark. */
  lemma RowShows(lim: Limits, s: string, from: nat, limit: Option<int>, i: nat)
    requires |s| <= lim.maxFileSize && NoBomLines(s)
    requires 1 <= from <= |Lines(s)| + 1 && i < Covered(lim, s, from, limit)
    ensures var rows, line := Body(ReadPage(lim, Some(s), from, limit)), Lines(s)[from - 1 + i];
            && |rows| == Covered(lim, s, from, limit) && rows[i].number == from + i
            && (|line| <= lim.maxLineLength ==> rows[i].text == line)
            && (|line| > lim.maxLineLength ==> rows[i].text == line[..lim.maxLineLength] + "... [truncated]")
  {
    hide Lines, PageSize, ReadPage, Body, LineTexts;
    LinesLength(s);
    PageBody(lim, s, from, limit);
  }

  /** Besides its lines a page has at most one row: an empty one, exactly when its last line is terminated or it has none. */
  lemma PageRowsExact(lim: Limits, s: string, from: nat, limit: Option<int>)
    requires |s| <= lim.maxFileSize && NoBomLines(s) && 1 <= from <= |Lines(s)| + 1
    ensures var page, n := ReadPage(lim, Some(s), from, limit), Covered(lim, s, from, limit);
            && |LineTexts(s)| == |Lines(s)| && page.Page?
            && page.rows == Body(page) +
               (if n == 0 || Terminated(LineTexts(s)[from - 1 + n - 1]) then [Row(from + n, "")] else [])
  {
    hide LineTexts, CountNewlines, AreLines, Chops, PageSize, SplitLf, Flatten, Body, Numbered, PrintLines, EndsWhole, Terminated;
    LinesLength(s);
    LineTextsShape(s);
    var n := Covered(lim, s, from, limit);
    var run := LineTexts(s)[from - 1..from - 1 + n];
    RunOfLines(LineTexts(s), from - 1, from - 1 + n);
    PrintRun(s, from, PageSize(lim, limit));
    NoBomInRun(s, from - 1, from - 1 + n);
    RowsOfRun(lim, from, run, ReadPage(lim, Some(s), from, limit));
    EndOfRun(LineTexts(s), from - 1, from - 1 + n);
  }

  lemma EndOfRun(ts: seq<string>, a: nat, b: nat)
    requires a <= b <= |ts|
    ensures EndsWhole(ts[a..b]) <==> a == b || Terminated(ts[b - 1])
  {
  }

  lemma RowsOfRun(lim: Limits, from: nat, run: seq<string>, page: Page)
    requires AreLines(run) && page.Page? && page.rows == Numbered(lim, from, SplitLf(Flatten(run)))
    ensures page.rows == Body(page) + (if EndsWhole(run) then [Row(from + |run|, "")] else [])
  {
    hide AreLines, Chops, SplitLf, EndsWhole, Flatten, Body, Numbered;
    SplitRun(run);
    BodyOfRun(lim, from, run, page);
    if EndsWhole(run) {
      LastRow(lim, from, Chops(run));
    } else {
      assert page.rows + [] == page.rows;
    }
  }

  lemma LastRow(lim: Limits, from: nat, lines: seq<string>)
    ensures Numbered(lim, from, lines + [""]) == Numbered(lim, from, lines) + [Row(from + |lines|, "")]
  {
  }

  /** A page past the end has no lines. */
  lemma PastTheEnd(lim: Limits, s: string, from: nat, limit: Option<int>)
    requires |s| <= lim.maxFileSize && from > |LineTexts(s)| && 1 <= from
    ensures var page := ReadPage(lim, Some(s), from, limit);
            && page.Page? && page.rows == [Row(from, "")] && Body(page) == []
            && page.endLine == from - 1 + PageSize(lim, limit) && page.totalLines == CountNewlines(s) && !page.truncated
  {
    hide LineTexts, CountNewlines;
    LineTextsShape(s);
    SplitNone("");
    NothingPrinted(s, from, from + PageSize(lim, limit) - 1);
  }

  lemma NothingPrinted(s: string, from: nat, top: nat)
    requires from > |LineTexts(s)| && 1 <= from <= top
    ensures PrintLines(s, from, top) == ""
  {
    hide LineTexts;
  }

  // ---------------------------------------------------------------- the whole file

  function Texts(rows: seq<Row>): (r: seq<string>)
    ensures |r| == |rows|
  {
    seq(|rows|, i requires 0 <= i < |rows| => rows[i].text)
  }

  lemma {:induction false} JoinedLines(ts: seq<string>)
    requires AreLines(ts) && ts != [] && Terminated(ts[|ts| - 1])
    ensures FindReplace.Join(Chops(ts), "\n") + "\n" == Flatten(ts)
    decreases |ts|
  {
    hide Chops, AreLines, IsLine;
    LinesTail(ts);
    ChopLine(ts[0]);
    if |ts| == 1 {
      assert Chops(ts) == [Chop(ts[0])] + Chops(ts[1..]) && Chops(ts[1..]) == [];
      assert Flatten(ts) == ts[0] + Flatten(ts[1..]) == ts[0] + [] == ts[0];
    } else {
      JoinedLines(ts[1..]);
      FindReplace.JoinCons(Chop(ts[0]), Chops(ts[1..]), "\n");
      var rest := FindReplace.Join(Chops(ts[1..]), "\n");
      Assoc(Chop(ts[0]), "\n" + rest, "\n");
      Assoc("\n", rest, "\n");
      Assoc(Chop(ts[0]), "\n", Flatten(ts[1..]));
    }
  }

  /** When the last line is terminated and none is too long, the rows got by following the hints from the start, their texts
      joined by line ends, are the file, and are numbered from 1. */
  lemma WholeFile(lim: Limits, s: string, limit: Option<int>)
    requires |s| <= lim.maxFileSize && NoBomLines(s) && Terminated(s)
    requires forall k :: 0 <= k < |Lines(s)| ==> |Lines(s)[k]| <= lim.maxLineLength
    ensures var rows := Bodies(FollowHints(lim, Some(s), 1, limit));
            && rows != [] && FindReplace.Join(Texts(rows), "\n") + "\n" == s
            && forall k :: 0 <= k < |rows| ==> rows[k].number == k + 1
  {
    hide LineTexts, CountNewlines, AreLines, PageSize, FollowHints, Bodies, Chops, Flatten;
    PagesTileIff(lim, s, limit);
    LineTextsShape(s);
    LinesLength(s);
    var rows := Bodies(FollowHints(lim, Some(s), 1, limit));
    assert rows == Numbered(lim, 1, Lines(s));
    assert Texts(rows) == Lines(s);
    if LineTexts(s) == [] { FlattenNone(LineTexts(s)); }
    JoinedLines(LineTexts(s));
  }

  lemma FlattenNone(ts: seq<string>)
    requires ts == []
    ensures Flatten(ts) == []
  {
  }

  // ---------------------------------------------------------------- files with a BOM

  lemma LinesAfterBom(t: string)
    requires NoBomLines(t)
    ensures LineTexts([LineEndings.BOM] + t) ==
            if t == "" then [[LineEndings.BOM]] else [[LineEndings.BOM] + LineTexts(t)[0]] + LineTexts(t)[1..]
    ensures t != "" ==> LineTexts(t) != []
    ensures CountNewlines([LineEndings.BOM] + t) == CountNewlines(t)
  {
    hide Find;
    var s := [LineEndings.BOM] + t;
    assert s[1..] == t;
    if '\n' in t {
      var line, rest := LineTextsStep(t);
      FindLf(t);
      var i := Find(t, "\n", 0).value;
      FirstLf(s, i + 1);
      assert s[..i + 2] == [LineEndings.BOM] + t[..i + 1] && s[i + 2..] == t[i + 1..];
    } else {
      LineTextsNone(t);
      LineTextsNone(s);
      assert t == "" ==> s == [LineEndings.BOM];
      assert [t][1..] == [];
    }
  }

  lemma PrintedAfterBom(t: string, from: nat, top: nat)
    requires NoBomLines(t) && 1 <= from <= top
    ensures LineEndings.StripBom(PrintLines([LineEndings.BOM] + t, from, top)).0 == PrintLines(t, from, top)
  {
    hide LineTexts, Flatten;
    LinesAfterBom(t);
    var ss, ts := LineTexts([LineEndings.BOM] + t), LineTexts(t);
    if t == "" {
      LineTextsNone(t);
      assert ts == [] && ss == [[LineEndings.BOM]];
      BomAlone(ss, Min(from - 1, 1), Min(top, 1));
    } else {
      var a, b := Min(from - 1, |ts|), Min(top, |ts|);
      NoBomInRun(t, a, b);
      if a == 0 { BomInFront(ts, ss, b); } else { SameFrom(ts, ss, a, b); }
    }
  }

  lemma SameFrom(ts: seq<string>, ss: seq<string>, a: nat, b: nat)
    requires 1 <= a <= b <= |ts| && ss == [[LineEndings.BOM] + ts[0]] + ts[1..]
    ensures |ss| == |ts| && ss[a..b] == ts[a..b]
  {
    assert forall k :: 1 <= k < |ts| ==> ss[k] == ts[k];
  }

  lemma BomAlone(ss: seq<string>, a: nat, b: nat)
    requires ss == [[LineEndings.BOM]] && a <= b <= 1
    ensures LineEndings.StripBom(Flatten(ss[a..b])).0 == Flatten<char>([]) == ""
  {
    if a < b { assert ss[a..b] == ss && ss[1..] == [] && Flatten(ss) == [LineEndings.BOM] + [] == [LineEndings.BOM]; }
    else { assert ss[a..b] == []; }
  }

  lemma BomInFront(ts: seq<string>, ss: seq<string>, b: nat)
    requires 1 <= b <= |ts| && ss == [[LineEndings.BOM] + ts[0]] + ts[1..]
    ensures Flatten(ss[0..b]) == [LineEndings.BOM] + Flatten(ts[0..b])
  {
    var run, other := ts[0..b], ss[0..b];
    assert other[1..] == run[1..] && other[0] == [LineEndings.BOM] + run[0];
  }

  /** A BOM at the start of a file is neither shown nor counted. */
  lemma BomHidden(lim: Limits, t: string, from: int, limit: Option<int>)
    requires NoBomLines(t) && |t| + 1 <= lim.maxFileSize
    ensures ReadPage(lim, Some([LineEndings.BOM] + t), from, limit) == ReadPage(lim, Some(t), from, limit)
  {
    hide LineTexts, PrintLines, CountNewlines, SplitLf;
    var first := Max(1, from);
    var top := first + PageSize(lim, limit) - 1;
    PrintedAfterBom(t, first, top);
    LinesAfterBom(t);
    NoBomPrinted(t, first, top);
  }

  lemma NoBomPrinted(t: string, from: nat, top: nat)
    requires NoBomLines(t) && 1 <= from <= top
    ensures LineEndings.StripBom(PrintLines(t, from, top)).0 == PrintLines(t, from, top)
  {
    hide LineTexts;
    var a, b := Min(from - 1, |LineTexts(t)|), Min(top, |LineTexts(t)|);
    NoBomInRun(t, a, b);
  }
}
