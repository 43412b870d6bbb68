/** The test for an escaped newline in a search pattern. */
module RegexNewline {
  /** A match of (?<!\\)(?:\\\\)*\\n at i: not after a backslash, `pairs` pairs of backslashes, a backslash, an n. */
  ghost predicate MatchesAt(p: string, i: nat, pairs: nat) {
    && i + 2 * pairs + 1 < |p|
    && (i == 0 || p[i - 1] != '\\')
    && (forall k :: i <= k <= i + 2 * pairs ==> p[k] == '\\')
    && p[i + 2 * pairs + 1] == 'n'
  }

  ghost predicate HasRegexNewline(p: string) {
    '\n' in p || exists i: nat, pairs: nat :: MatchesAt(p, i, pairs)
  }

  /** Reading the pattern from left to right, a backslash escaping the character after it. */
  predicate ScansNewline(p: string, i: nat)
    decreases |p| - i
  {
    if i >= |p| then false
    else if p[i] == '\\' then i + 1 < |p| && (p[i + 1] == 'n' || ScansNewline(p, i + 2))
    else ScansNewline(p, i + 1)
  }

  /** The number of backslashes just before index k. */
  function RunBefore(p: string, k: nat): (n: nat)
    requires k <= |p|
    ensures n <= k
  {
    if k > 0 && p[k - 1] == '\\' then 1 + RunBefore(p, k - 1) else 0
  }

  /** An n after a maximal odd run of backslashes. */
  predicate OddN(p: string, k: nat) {
    k < |p| && p[k] == 'n' && RunBefore(p, k) % 2 == 1
  }

  ghost predicate OddFrom(p: string, i: nat) { exists k: nat :: i <= k && OddN(p, k) }

  lemma {:induction false} ScanIsOdd(p: string, i: nat)
    requires i <= |p| ==> RunBefore(p, i) % 2 == 0
    ensures ScansNewline(p, i) <==> OddFrom(p, i)
    decreases |p| - i
  {
    if i < |p| {
      if p[i] == '\\' {
        if i + 1 < |p| {
          assert RunBefore(p, i + 1) == RunBefore(p, i) + 1;
          assert OddN(p, i + 1) <==> p[i + 1] == 'n';
          ScanIsOdd(p, i + 2);
          assert OddFrom(p, i) <==> OddN(p, i) || OddN(p, i + 1) || OddFrom(p, i + 2);
        } else {
          assert OddFrom(p, i) <==> OddN(p, i);
        }
      } else {
        ScanIsOdd(p, i + 1);
        assert OddFrom(p, i) <==> OddN(p, i) || OddFrom(p, i + 1);
      }
    }
  }

  lemma {:induction false} RunIsBackslashes(p: string, k: nat)
    requires k <= |p|
    ensures forall x :: k - RunBefore(p, k) <= x < k ==> p[x] == '\\'
    ensures RunBefore(p, k) < k ==> p[k - RunBefore(p, k) - 1] != '\\'
  {
    if k > 0 && p[k - 1] == '\\' { RunIsBackslashes(p, k - 1); }
  }

  lemma {:induction false} RunOf(p: string, i: nat, k: nat)
    requires i <= k <= |p| && (i == 0 || p[i - 1] != '\\') && forall x :: i <= x < k ==> p[x] == '\\'
    ensures RunBefore(p, k) == k - i
  {
    if k > i { RunOf(p, i, k - 1); }
  }

  lemma MatchIsOdd(p: string)
    ensures (exists i: nat, pairs: nat :: MatchesAt(p, i, pairs)) <==> OddFrom(p, 0)
  {
    if i: nat, pairs: nat :| MatchesAt(p, i, pairs) {
      RunOf(p, i, i + 2 * pairs + 1);
      assert OddN(p, i + 2 * pairs + 1);
    }
    if k: nat :| OddN(p, k) {
      RunIsBackslashes(p, k);
      var n := RunBefore(p, k);
      assert MatchesAt(p, k - n, n / 2);
    }
  }

  /** The regular expression fires exactly when the scanner meets an escaped n, on every pattern. */
  lemma RegexAgreesWithScanner(p: string)
    ensures HasRegexNewline(p) <==> '\n' in p || ScansNewline(p, 0)
    ensures HasRegexNewline(p) <==> '\n' in p || exists k: nat :: OddN(p, k)
  {
    MatchIsOdd(p);
    ScanIsOdd(p, 0);
    if k: nat :| OddN(p, k) { assert OddFrom(p, 0); }
  }
}
