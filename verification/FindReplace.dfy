/** Python's str.count and str.replace, and what they mean: the text is cut at the leftmost matches. */
module FindReplace {
  import opened Seqs

  predicate Occurs(s: string, p: string) { Find(s, p, 0).Some? }

  function Count(s: string, pat: string): nat
    decreases |s|
  {
    if pat == "" then |s| + 1
    else
      var i := Find(s, pat, 0);
      if i.None? then 0 else 1 + Count(s[i.value + |pat|..], pat)
  }

  /** new before every character and at the end. */
  function Interleave(s: string, rep: string): string {
    if s == "" then rep else rep + [s[0]] + Interleave(s[1..], rep)
  }

  function Replace(s: string, pat: string, rep: string): string
    decreases |s|
  {
    if pat == "" then Interleave(s, rep)
    else
      var i := Find(s, pat, 0);
      if i.None? then s else s[..i.value] + (rep + Replace(s[i.value + |pat|..], pat, rep))
  }

  // ---------------------------------------------------------------- the parts between matches

  function Join(parts: seq<string>, sep: string): string
    requires parts != []
  {
    if |parts| == 1 then parts[0] else parts[0] + (sep + Join(parts[1..], sep))
  }

  function Parts(s: string, pat: string): (parts: seq<string>)
    requires pat != ""
    ensures parts != []
    decreases |s|
  {
    var i := Find(s, pat, 0);
    if i.None? then [s] else [s[..i.value]] + Parts(s[i.value + |pat|..], pat)
  }

  /** Each part is followed by the leftmost match there is, and the last part holds none. */
  ghost predicate Leftmost(parts: seq<string>, pat: string)
    requires parts != []
  {
    && !Occurs(parts[|parts| - 1], pat)
    && forall k :: 0 <= k < |parts| - 1 ==> Find(parts[k] + pat, pat, 0) == Some(|parts[k]|)
  }

  lemma AtPrefix(s: string, pat: string, i: nat, j: nat)
    requires At(s, pat, i) && j <= i
    ensures At(s, pat, j) <==> At(s[..i] + pat, pat, j)
  {
    assert s[..i] + pat == s[0..i + |pat|];
    SliceOfSlice(s, 0, i + |pat|, j, j + |pat|);
  }

  /** A match at i is the leftmost in s when it is the leftmost in what comes before and the match itself. */
  lemma FindPrefix(s: string, pat: string, i: nat)
    requires pat != "" && At(s, pat, i) && i <= |s|
    ensures Find(s, pat, 0) == Some(i) <==> Find(s[..i] + pat, pat, 0) == Some(i)
  {
    hide At;
    forall j: nat | j <= i ensures At(s, pat, j) <==> At(s[..i] + pat, pat, j) { AtPrefix(s, pat, i, j); }
  }

  lemma FindNonePrefix(s: string, pat: string, i: nat)
    requires pat != "" && Find(s, pat, 0) == Some(i)
    ensures !Occurs(s[..i], pat)
  {
    forall j | 0 <= j && At(s[..i], pat, j) ensures false {
      SliceOfSlice(s, 0, i, j, j + |pat|);
      assert s[0..i] == s[..i];
      assert At(s, pat, j);
    }
  }

  lemma StepNone(s: string, pat: string, rep: string)
    requires pat != "" && Find(s, pat, 0).None?
    ensures Parts(s, pat) == [s] && Replace(s, pat, rep) == s && Count(s, pat) == 0
  {
    hide At, Find, Interleave;
  }

  lemma StepSome(s: string, pat: string, rep: string) returns (i: nat, rest: string)
    requires pat != "" && Find(s, pat, 0).Some?
    ensures At(s, pat, i) && Find(s, pat, 0) == Some(i) && i + |pat| <= |s| && rest == s[i + |pat|..]
    ensures Parts(s, pat) == [s[..i]] + Parts(rest, pat)
    ensures Replace(s, pat, rep) == s[..i] + (rep + Replace(rest, pat, rep))
    ensures Count(s, pat) == 1 + Count(rest, pat)
  {
    hide Find, Interleave;
    i := Find(s, pat, 0).value;
    FindIsAt(s, pat, i);
    rest := s[i + |pat|..];
  }

  lemma JoinCons(first: string, rest: seq<string>, sep: string)
    requires rest != []
    ensures Join([first] + rest, sep) == first + (sep + Join(rest, sep))
  {
    assert ([first] + rest)[1..] == rest;
  }

  /** The parts joined by what was matched are the text, joined by the replacement are the result,
      and there is one more of them than matches. */
  lemma {:induction false} PartsSound(s: string, pat: string, rep: string)
    requires pat != ""
    ensures Join(Parts(s, pat), pat) == s
    ensures Join(Parts(s, pat), rep) == Replace(s, pat, rep)
    ensures |Parts(s, pat)| == Count(s, pat) + 1
    decreases |s|
  {
    hide At, Find, Parts, Replace, Count;
    if Find(s, pat, 0).None? {
      StepNone(s, pat, rep);
    } else {
      var i, rest := StepSome(s, pat, rep);
      PartsSound(rest, pat, rep);
      JoinCons(s[..i], Parts(rest, pat), pat);
      JoinCons(s[..i], Parts(rest, pat), rep);
      AtSplit(s, pat, i);
    }
  }

  lemma {:induction false} ReplaceLength(s: string, pat: string, rep: string)
    requires pat != ""
    ensures |Replace(s, pat, rep)| == |s| + Count(s, pat) * (|rep| - |pat|)
    decreases |s|
  {
    hide At, Find, Parts, Replace, Count;
    if Find(s, pat, 0).None? {
      StepNone(s, pat, rep);
    } else {
      var i, rest := StepSome(s, pat, rep);
      ReplaceLength(rest, pat, rep);
      Distribute(Count(rest, pat), |rep| - |pat|);
    }
  }

  lemma Distribute(n: nat, d: int)
    ensures (1 + n) * d == d + n * d
  {
  }

  lemma AtSplit(s: string, p: string, i: nat)
    requires At(s, p, i) && i + |p| <= |s|
    ensures s == s[..i] + (p + s[i + |p|..])
  {
  }

  lemma {:induction false} PartsLeftmost(s: string, pat: string)
    requires pat != ""
    ensures Leftmost(Parts(s, pat), pat)
    ensures forall p :: p in Parts(s, pat) ==> !Occurs(p, pat)
    decreases |s|
  {
    hide At, Find, Occurs;
    var i := Find(s, pat, 0);
    if i.None? {
      NotOccurs(s, pat);
    } else {
      FindIsAt(s, pat, i.value);
      var rest := s[i.value + |pat|..];
      PartsLeftmost(rest, pat);
      FindPrefix(s, pat, i.value);
      FindNonePrefix(s, pat, i.value);
      var parts := Parts(s, pat);
      assert parts[1..] == Parts(rest, pat);
      assert forall k :: 0 < k < |parts| ==> parts[k] == Parts(rest, pat)[k - 1];
    }
  }

  lemma NotOccurs(s: string, p: string)
    requires Find(s, p, 0).None?
    ensures !Occurs(s, p)
  {
  }

  lemma FindIsAt(s: string, p: string, i: nat)
    requires Find(s, p, 0) == Some(i)
    ensures At(s, p, i) && i + |p| <= |s|
  {
  }

  /** Only one way of cutting the text has this shape, so it defines what count and replace do. */
  lemma {:induction false} PartsUnique(parts: seq<string>, pat: string)
    requires pat != "" && parts != [] && Leftmost(parts, pat)
    ensures Parts(Join(parts, pat), pat) == parts
    decreases |parts|
  {
    hide At, Find, Occurs;
    var s := Join(parts, pat);
    if |parts| == 1 {
      OccursIsFind(s, pat);
    } else {
      var rest := parts[1..];
      var i := |parts[0]|;
      assert s == parts[0] + (pat + Join(rest, pat));
      AtAfter(parts[0], pat, Join(rest, pat));
      FindPrefix(s, pat, i);
      assert s[..i] == parts[0] && s[i + |pat|..] == Join(rest, pat);
      assert forall k :: 0 <= k < |rest| ==> rest[k] == parts[k + 1];
      PartsUnique(rest, pat);
      assert parts == [parts[0]] + rest;
    }
  }

  lemma OccursIsFind(s: string, p: string)
    requires !Occurs(s, p)
    ensures Find(s, p, 0).None?
  {
  }

  lemma AtAfter(a: string, p: string, b: string)
    ensures At(a + (p + b), p, |a|)
  {
    assert (a + (p + b))[|a|..|a| + |p|] == p;
  }

  lemma AtTail(s: string, pat: string, j: nat)
    requires s != ""
    ensures At(s, pat, j + 1) <==> At(s[1..], pat, j)
  {
    if j + 1 + |pat| <= |s| {
      SliceOfSlice(s, 1, |s|, j, j + |pat|);
      assert s[1..|s|] == s[1..];
    }
  }

  lemma FindTail(s: string, pat: string)
    requires pat != "" && s != "" && !At(s, pat, 0)
    ensures Find(s[1..], pat, 0).None? ==> Find(s, pat, 0).None?
    ensures Find(s[1..], pat, 0).Some? ==> Find(s, pat, 0) == Some(Find(s[1..], pat, 0).value + 1)
  {
    hide At, Find;
    var t, a, b := s[1..], Find(s, pat, 0), Find(s[1..], pat, 0);
    if a.Some? {
      AtTail(s, pat, a.value - 1);
      assert At(t, pat, a.value - 1);
      if b.value < a.value - 1 { AtTail(s, pat, b.value); }
    } else if b.Some? {
      AtTail(s, pat, b.value);
    }
  }

  lemma FindZero(s: string, pat: string)
    requires At(s, pat, 0)
    ensures Find(s, pat, 0) == Some(0)
  {
  }

  /** Replacing in terms of the first character, for the proofs about line endings. */
  lemma ReplaceHead(s: string, pat: string, rep: string)
    requires pat != "" && s != ""
    ensures Replace(s, pat, rep) ==
            if At(s, pat, 0) then rep + Replace(s[|pat|..], pat, rep) else [s[0]] + Replace(s[1..], pat, rep)
  {
    hide Find, Replace, Parts, Count, At;
    if At(s, pat, 0) {
      FindZero(s, pat);
      var i, rest := StepSome(s, pat, rep);
    } else {
      FindTail(s, pat);
      if Find(s[1..], pat, 0).None? {
        StepNone(s, pat, rep);
        StepNone(s[1..], pat, rep);
        assert s == [s[0]] + s[1..];
      } else {
        var i, rest := StepSome(s, pat, rep);
        var j, also := StepSome(s[1..], pat, rep);
        assert s[..i] == [s[0]] + s[1..][..j] && rest == also;
      }
    }
  }

  /** There is a match to count exactly when the pattern occurs. */
  lemma CountOccurs(s: string, pat: string)
    ensures Count(s, pat) > 0 <==> exists i: nat :: At(s, pat, i)
  {
    if pat == "" {
      assert At(s, pat, 0);
    } else if Find(s, pat, 0).Some? {
      assert At(s, pat, Find(s, pat, 0).value);
    }
  }
}
