/** How a new shell becomes ready: which ways of cutting what it first sends into reads let the drain thread see
    SETUP_OK and the first prompt. */
module Handshake {
  import opened Seqs
  import opened PromptDrain
  import opened OutputBuffer
  import opened ShellSession

  ghost predicate ShowsSetup(stripped: seq<Byte>) { exists i :: At(stripped, SETUP_OK, i) }

  /** The prompt pattern matches somewhere. */
  ghost predicate ShowsPrompt(tok: seq<Byte>, stripped: seq<Byte>) {
    exists i: nat, e: nat :: Matches(tok, stripped, i, e)
  }

  lemma SetupShown(stripped: seq<Byte>)
    ensures AfterSetupOk(stripped).Some? <==> ShowsSetup(stripped)
  {
    if ShowsSetup(stripped) {
      var i :| At(stripped, SETUP_OK, i);
      assert i >= 0;
    }
  }

  lemma PromptShown(tok: seq<Byte>, stripped: seq<Byte>)
    ensures AfterPrompt(tok, stripped).Some? <==> ShowsPrompt(tok, stripped)
  {
    hide Matches, PromptAt;
    var m := Search(tok, stripped, 0);
    if m.Some? {
      PromptAtMatches(tok, stripped, m.value.start, m.value.bar);
    } else if ShowsPrompt(tok, stripped) {
      var i: nat, e: nat :| Matches(tok, stripped, i, e);
      PromptAtMatches(tok, stripped, i, e);
      assert false;
    }
  }

  /** What follows the first SETUP_OK is kept, without the line ends in front. */
  lemma SetupLeaves(before: seq<Byte>, lfs: seq<Byte>, rest: seq<Byte>)
    requires AllLf(lfs) && (rest != [] ==> rest[0] != LF)
    requires forall i :: 0 <= i < |before| ==> !At(before + (SETUP_OK + (lfs + rest)), SETUP_OK, i)
    ensures AfterSetupOk(before + (SETUP_OK + (lfs + rest))) == Some(rest)
  {
    hide LStripLf;
    var x := before + (SETUP_OK + (lfs + rest));
    assert x[|before|..|before| + |SETUP_OK|] == SETUP_OK;
    assert At(x, SETUP_OK, |before|);
    assert x[|before| + |SETUP_OK|..] == lfs + rest;
    LStripLfs(lfs, rest);
  }

  /** What follows the first prompt is kept. */
  lemma PromptLeaves(tok: seq<Byte>, x: seq<Byte>, i: nat, e: nat)
    requires Matches(tok, x, i, e) && forall j: nat, k: nat :: Matches(tok, x, j, k) ==> i <= j
    ensures AfterPrompt(tok, x) == Some(x[e + 1..])
  {
    hide Matches, PromptAt;
    PromptAtMatches(tok, x, i, e);
    var m := Search(tok, x, 0);
    PromptAtMatches(tok, x, m.value.start, m.value.bar);
  }

  // ---------------------------------------------------------------- any reads

  /** What the drain thread looks at for a read, given what it kept. */
  function Joined(kept: Option<seq<Byte>>, data: seq<Byte>): seq<Byte> {
    Strip((if kept.Some? then kept.value else []) + data)
  }

  /** What is kept after some reads: nothing before SETUP_OK was shown, then what the last read that showed it left.
      Later reads are joined to it one at a time; none extends it. */
  function Kept(kept: Option<seq<Byte>>, chunks: seq<seq<Byte>>): Option<seq<Byte>>
    decreases |chunks|
  {
    if chunks == [] then kept
    else
      var rest := AfterSetupOk(Joined(kept, chunks[0]));
      Kept(if rest.Some? then rest else kept, chunks[1..])
  }

  /** The read at j completes the handshake, after or together with SETUP_OK. */
  ghost predicate Completes(tok: seq<Byte>, kept: Option<seq<Byte>>, chunks: seq<seq<Byte>>, j: nat)
    requires j < |chunks|
  {
    Kept(kept, chunks[..j + 1]).Some? && ShowsPrompt(tok, Joined(Kept(kept, chunks[..j]), chunks[j]))
  }

  /** A new session that has kept that much. */
  function Pending(kept: Option<seq<Byte>>): Session {
    Created().(afterSetup := kept.Some?, carry := if kept.Some? then kept.value else [])
  }

  /** A new session that a prompt has made ready, with what followed the prompt as carry. */
  function ReadyWith(carry: seq<Byte>): Session { Created().(state := Ready, carry := carry) }

  /** One read in the init state. */
  lemma InitStep(cfg: Config, kept: Option<seq<Byte>>, data: seq<Byte>)
    ensures Fits(cfg, Pending(kept))
    ensures var next, rest := Kept(kept, [data]), AfterPrompt(cfg.token, Joined(kept, data));
            && (rest.Some? <==> ShowsPrompt(cfg.token, Joined(kept, data)))
            && OnRead(cfg, Pending(kept), data) == if next.Some? && rest.Some? then ReadyWith(rest.value) else Pending(next)
  {
    hide Strip, AfterSetupOk, AfterPrompt, ShowsPrompt;
    PromptShown(cfg.token, Joined(kept, data));
    KeptOne(kept, data);
  }

  lemma KeptOne(kept: Option<seq<Byte>>, data: seq<Byte>)
    ensures var rest := AfterSetupOk(Joined(kept, data)); Kept(kept, [data]) == if rest.Some? then rest else kept
  {
    hide Joined, AfterSetupOk;
    var one := [data];
    assert one[1..] == [];
  }

  lemma {:induction false} StaysReady(cfg: Config, s: Session, chunks: seq<seq<Byte>>)
    requires Fits(cfg, s) && s.state == Ready
    ensures DrainAll(cfg, s, chunks).state == Ready
    decreases |chunks|
  {
    hide DrainStep, Store, OnInitRead;
    if chunks != [] && chunks[0] != [] { StaysReady(cfg, OnRead(cfg, s, chunks[0]), chunks[1..]); }
  }

  lemma KeptCons(kept: Option<seq<Byte>>, chunks: seq<seq<Byte>>, j: nat)
    requires 0 < j <= |chunks|
    ensures Kept(kept, chunks[..j]) == Kept(Kept(kept, [chunks[0]]), chunks[1..][..j - 1])
  {
    hide Joined, AfterSetupOk;
    assert chunks[..j][1..] == chunks[1..][..j - 1];
    var one := [chunks[0]];
    assert one[1..] == [];
  }

  lemma CompletesCons(tok: seq<Byte>, kept: Option<seq<Byte>>, chunks: seq<seq<Byte>>, j: nat)
    requires j < |chunks|
    ensures j > 0 ==>
              (Completes(tok, kept, chunks, j) <==> Completes(tok, Kept(kept, [chunks[0]]), chunks[1..], j - 1))
    ensures j == 0 ==>
              (Completes(tok, kept, chunks, j) <==>
               Kept(kept, [chunks[0]]).Some? && ShowsPrompt(tok, Joined(kept, chunks[0])))
  {
    hide Kept, Joined, ShowsPrompt;
    KeptCons(kept, chunks, j + 1);
    if j > 0 {
      KeptCons(kept, chunks, j);
    } else {
      KeptNothing(kept);
      KeptNothing(Kept(kept, [chunks[0]]));
      assert chunks[1..][..0] == [] && chunks[..0] == [];
    }
  }

  lemma KeptNothing(kept: Option<seq<Byte>>)
    ensures Kept(kept, []) == kept
  {
  }

  lemma {:induction false} ReadyFrom(cfg: Config, kept: Option<seq<Byte>>, chunks: seq<seq<Byte>>)
    requires forall c :: c in chunks ==> c != []
    ensures Fits(cfg, Pending(kept))
    ensures DrainAll(cfg, Pending(kept), chunks).state == Ready <==>
            exists j: nat :: j < |chunks| && Completes(cfg.token, kept, chunks, j)
    decreases |chunks|
  {
    hide Completes, Joined, ShowsPrompt, OnRead, Kept, AfterPrompt;
    if chunks != [] {
      var data, later := chunks[0], chunks[1..];
      var next := Kept(kept, [data]);
      assert data in chunks && forall c :: c in later ==> c in chunks;
      InitStep(cfg, kept, data);
      CompletesCons(cfg.token, kept, chunks, 0);
      if Completes(cfg.token, kept, chunks, 0) {
        StaysReady(cfg, OnRead(cfg, Pending(kept), data), later);
      } else {
        ReadyFrom(cfg, next, later);
        forall j: nat | 0 < j < |chunks|
          ensures Completes(cfg.token, kept, chunks, j) <==> Completes(cfg.token, next, later, j - 1)
        {
          CompletesCons(cfg.token, kept, chunks, j);
        }
        if j: nat :| j < |later| && Completes(cfg.token, next, later, j) {
          assert Completes(cfg.token, kept, chunks, j + 1);
        }
      }
    }
  }

  /** For any reads at all: a new shell becomes ready exactly when some read, joined to what was kept, shows the prompt,
      and SETUP_OK was shown by then. */
  lemma ReadyIff(cfg: Config, chunks: seq<seq<Byte>>)
    requires forall c :: c in chunks ==> c != []
    ensures DrainAll(cfg, Created(), chunks).state == Ready <==>
            exists j: nat :: j < |chunks| && Completes(cfg.token, None, chunks, j)
  {
    ReadyFrom(cfg, None, chunks);
  }

  /** The last read, and no earlier one, completes the handshake, and nothing follows the prompt in it. */
  ghost predicate PromptLast(tok: seq<Byte>, kept: Option<seq<Byte>>, chunks: seq<seq<Byte>>) {
    && chunks != [] && (forall c :: c in chunks ==> c != [])
    && (forall j: nat :: j < |chunks| ==> (Completes(tok, kept, chunks, j) <==> j == |chunks| - 1))
    && AfterPrompt(tok, Joined(Kept(kept, chunks[..|chunks| - 1]), chunks[|chunks| - 1])) == Some([])
  }

  lemma {:induction false} ReadyExactly(cfg: Config, kept: Option<seq<Byte>>, chunks: seq<seq<Byte>>)
    requires PromptLast(cfg.token, kept, chunks)
    ensures Fits(cfg, Pending(kept)) && DrainAll(cfg, Pending(kept), chunks) == ReadyWith([])
    decreases |chunks|
  {
    hide Completes, Joined, ShowsPrompt, OnRead, Kept, AfterPrompt;
    var data, later, n := chunks[0], chunks[1..], |chunks| - 1;
    var next := Kept(kept, [data]);
    assert data in chunks && forall c :: c in later ==> c in chunks;
    InitStep(cfg, kept, data);
    CompletesCons(cfg.token, kept, chunks, 0);
    if n == 0 {
      KeptNothing(kept);
      assert chunks[..n] == [] && later == [];
    } else {
      assert !Completes(cfg.token, kept, chunks, 0);
      forall j: nat | j < |later| ensures Completes(cfg.token, next, later, j) <==> j == |later| - 1 {
        CompletesCons(cfg.token, kept, chunks, j + 1);
      }
      KeptCons(kept, chunks, n);
      ReadyExactly(cfg, next, later);
    }
  }

  /** When the last read ends in the prompt that completes the handshake, the session is as created, but ready. */
  lemma FreshAfterPrompt(cfg: Config, chunks: seq<seq<Byte>>)
    requires PromptLast(cfg.token, None, chunks)
    ensures DrainAll(cfg, Created(), chunks) == Created().(state := Ready)
  {
    ReadyExactly(cfg, None, chunks);
  }

  // ---------------------------------------------------------------- one read with SETUP_OK

  /** As long as no read alone shows SETUP_OK, whether or not reads together do, nothing happens. */
  lemma {:induction false} SetupMustBeWhole(cfg: Config, chunks: seq<seq<Byte>>)
    requires forall c :: c in chunks ==> c != [] && !ShowsSetup(Strip(c))
    ensures DrainAll(cfg, Created(), chunks) == Created()
    decreases |chunks|
  {
    hide ShowsSetup, Strip, OnRead, AfterSetupOk, ShowsPrompt, AfterPrompt;
    if chunks != [] {
      var data := chunks[0];
      assert data in chunks && forall c :: c in chunks[1..] ==> c in chunks;
      InitStep(cfg, None, data);
      SetupShown(Strip(data));
      KeptOne(None, data);
      assert [] + data == data;
      SetupMustBeWhole(cfg, chunks[1..]);
    }
  }

  lemma {:induction false} LaterReads(cfg: Config, c: seq<Byte>, later: seq<seq<Byte>>)
    requires forall d :: d in later ==> d != [] && !ShowsSetup(Strip(c + d))
    ensures Fits(cfg, Pending(Some(c)))
    ensures DrainAll(cfg, Pending(Some(c)), later).state == Ready <==>
            exists d :: d in later && ShowsPrompt(cfg.token, Strip(c + d))
    decreases |later|
  {
    hide ShowsSetup, Strip, OnRead, AfterSetupOk, ShowsPrompt, AfterPrompt;
    if later != [] {
      var data, rest := later[0], later[1..];
      assert data in later && forall d :: d in later <==> d == data || d in rest;
      InitStep(cfg, Some(c), data);
      SetupShown(Strip(c + data));
      KeptOne(Some(c), data);
      if ShowsPrompt(cfg.token, Strip(c + data)) {
        StaysReady(cfg, OnRead(cfg, Pending(Some(c)), data), rest);
      } else {
        LaterReads(cfg, c, rest);
      }
    }
  }

  lemma {:induction false} DrainConcat(cfg: Config, s: Session, a: seq<seq<Byte>>, b: seq<seq<Byte>>)
    requires Fits(cfg, s) && forall c :: c in a ==> c != []
    ensures DrainAll(cfg, s, a + b) == DrainAll(cfg, DrainAll(cfg, s, a), b)
    decreases |a|
  {
    hide OnRead;
    if a == [] {
      assert a + b == b;
    } else {
      assert a[0] in a && (a + b)[1..] == a[1..] + b && forall c :: c in a[1..] ==> c in a;
      DrainConcat(cfg, OnRead(cfg, s, a[0]), a[1..], b);
    }
  }

  lemma DrainOne(cfg: Config, s: Session, data: seq<Byte>, later: seq<seq<Byte>>)
    requires Fits(cfg, s) && data != []
    ensures DrainAll(cfg, s, [data] + later) == DrainAll(cfg, OnRead(cfg, s, data), later)
  {
    hide OnRead;
    assert ([data] + later)[1..] == later;
  }

  /** From a new shell, when one read shows SETUP_OK, none before it does, and none after it does when joined to what that
      read left behind SETUP_OK: the shell becomes ready exactly when the prompt shows in that read, or in what it left
      followed by some single later read. */
  lemma HandshakeIff(cfg: Config, before: seq<seq<Byte>>, setup: seq<Byte>, later: seq<seq<Byte>>)
    returns (c: seq<Byte>)
    requires setup != [] && forall d :: d in before + later ==> d != []
    requires ShowsSetup(Strip(setup)) && forall d :: d in before ==> !ShowsSetup(Strip(d))
    requires forall d :: d in later ==> !ShowsSetup(Strip(AfterSetup(setup) + d))
    ensures c == AfterSetup(setup)
    ensures DrainAll(cfg, Created(), before + [setup] + later).state == Ready <==>
            ShowsPrompt(cfg.token, Strip(setup)) || exists d :: d in later && ShowsPrompt(cfg.token, Strip(c + d))
  {
    hide ShowsSetup, Strip, OnRead, AfterSetupOk, ShowsPrompt, AfterPrompt, DrainAll;
    c := AfterSetup(setup);
    forall d | d in before ensures d != [] { assert d in before + later; }
    forall d | d in later ensures d != [] { assert d in before + later; }
    assert before + [setup] + later == before + ([setup] + later) && [] + setup == setup;
    DrainConcat(cfg, Created(), before, [setup] + later);
    SetupMustBeWhole(cfg, before);
    DrainOne(cfg, Created(), setup, later);
    InitStep(cfg, None, setup);
    SetupShown(Strip(setup));
    KeptOne(None, setup);
    if ShowsPrompt(cfg.token, Strip(setup)) {
      StaysReady(cfg, OnRead(cfg, Created(), setup), later);
    } else {
      LaterReads(cfg, c, later);
    }
  }

  /** What a read leaves behind SETUP_OK. */
  ghost function AfterSetup(setup: seq<Byte>): seq<Byte>
    requires ShowsSetup(Strip(setup))
  {
    SetupShown(Strip(setup));
    AfterSetupOk(Strip(setup)).value
  }

  // ---------------------------------------------------------------- two reads

  lemma {:induction false} LStripStops(s: seq<Byte>, n: nat)
    requires n < |s| && s[n] != LF
    ensures |s| - n <= |LStripLf(s)|
  {
    if n > 0 { LStripStops(s[1..], n - 1); }
  }

  lemma StripSlice(s: seq<Byte>, a: nat, b: nat)
    requires ESC !in s && a <= b <= |s|
    ensures Strip(s[a..b]) == MapCr(s)[a..b]
  {
    NotInSlice(s, ESC, a, b);
    StripEscapesPlain(s[a..b]);
    MapCrSlice(s, a, b);
  }

  /** What was kept holds no escape and no CR, so it does not change how a further read is stripped. */
  lemma StripAfter(c: seq<Byte>, data: seq<Byte>)
    requires Plain(c)
    ensures Strip(c + data) == c + Strip(data)
  {
    StripText(c, data);
    MapCrConcat(c, StripEscapes(data));
    MapCrClean(c);
  }

  /** A slice shows SETUP_OK exactly when it holds all of some occurrence. */
  lemma SetupInSlice(x: seq<Byte>, a: nat, b: nat)
    requires a <= b <= |x|
    ensures ShowsSetup(x[a..b]) <==> exists i :: At(x, SETUP_OK, i) && a <= i && i + |SETUP_OK| <= b
  {
    if i :| At(x, SETUP_OK, i) && a <= i && i + |SETUP_OK| <= b {
      SliceOfSlice(x, a, b, i - a, i - a + |SETUP_OK|);
      assert At(x[a..b], SETUP_OK, i - a);
    }
    if ShowsSetup(x[a..b]) {
      var i :| At(x[a..b], SETUP_OK, i);
      SliceOfSlice(x, a, b, i, i + |SETUP_OK|);
      assert At(x, SETUP_OK, a + i);
    }
  }

  ghost predicate SetupsEndBy(x: seq<Byte>, n: nat) { forall i :: At(x, SETUP_OK, i) ==> i + |SETUP_OK| <= n }

  /** The read that shows SETUP_OK leaves what follows, without leading line ends, so from no later than n on
      when something else than a line end stands there. */
  lemma LeftBehind(x: seq<Byte>, cut: nat, n: nat) returns (q: nat)
    requires cut <= |x| && ShowsSetup(x[..cut]) && SetupsEndBy(x, n) && (n < cut ==> x[n] != LF)
    ensures q <= n && q <= cut && AfterSetupOk(x[..cut]) == Some(x[q..cut])
  {
    hide At, Find, LStripLf, AfterSetupOk, ShowsSetup, SetupsEndBy;
    SetupShown(x[..cut]);
    var k := FoundThere(x, cut, n);
    var rest := x[..cut][k + |SETUP_OK|..];
    LStripSuffix(rest);
    q := cut - |LStripLf(rest)|;
    SuffixOfPrefix(x, cut, k + |SETUP_OK|, LStripLf(rest));
    if n < cut { LStripStops(rest, n - k - |SETUP_OK|); }
  }

  lemma SuffixOfPrefix(x: seq<Byte>, cut: nat, n: nat, r: seq<Byte>)
    requires n <= cut <= |x| && |r| <= cut - n && r == x[..cut][n..][cut - n - |r|..]
    ensures r == x[cut - |r|..cut]
  {
  }

  lemma FoundThere(x: seq<Byte>, cut: nat, n: nat) returns (k: nat)
    requires cut <= |x| && AfterSetupOk(x[..cut]).Some? && SetupsEndBy(x, n)
    ensures k + |SETUP_OK| <= cut && k + |SETUP_OK| <= n
    ensures AfterSetupOk(x[..cut]) == Some(LStripLf(x[..cut][k + |SETUP_OK|..]))
  {
    assert x[..cut] == x[0..cut];
    k := Find(x[..cut], SETUP_OK, 0).value;
    SliceOfSlice(x, 0, cut, k, k + |SETUP_OK|);
    assert At(x, SETUP_OK, k);
  }

  /** The prompt at p is still there in what follows q. */
  lemma ShownFrom(tok: seq<Byte>, x: seq<Byte>, p: nat, e: nat, q: nat)
    requires Matches(tok, x, p, e) && q <= p
    ensures q <= |x| && ShowsPrompt(tok, x[q..])
  {
    hide Matches;
    MatchesInside(tok, x, p, e);
    assert x[q..] == x[q..|x|];
    MatchInSlice(tok, x, q, |x|, p - q, e - q);
    assert Matches(tok, x[q..], p - q, e - q);
  }

  lemma MatchesInside(tok: seq<Byte>, x: seq<Byte>, p: nat, e: nat)
    requires Matches(tok, x, p, e)
    ensures p < e < |x| && (LF !in tok ==> x[p] != LF)
  {
    if tok != [] { assert x[p] == x[p..p + |tok|][0] == tok[0] && tok[0] in tok; }
  }

  /** Some occurrence of SETUP_OK is not cut. */
  ghost predicate SetupUncut(x: seq<Byte>, cut: nat) {
    exists i :: At(x, SETUP_OK, i) && !(i < cut < i + |SETUP_OK|)
  }

  /** What the drain thread has after two reads a and b of stripped text x. */
  lemma TwoInitReads(cfg: Config, a: seq<Byte>, b: seq<Byte>)
    requires a != [] && b != []
    ensures var next := AfterSetupOk(Strip(a)); var second := Joined(next, b);
            && (next.Some? && AfterPrompt(cfg.token, Strip(a)).Some? ==>
                DrainAll(cfg, Created(), [a, b]).state == Ready)
            && (!(next.Some? && AfterPrompt(cfg.token, Strip(a)).Some?) ==>
                DrainAll(cfg, Created(), [a, b]) ==
                if (next.Some? || AfterSetupOk(second).Some?) && AfterPrompt(cfg.token, second).Some?
                then ReadyWith(AfterPrompt(cfg.token, second).value)
                else Pending(if AfterSetupOk(second).Some? then AfterSetupOk(second) else next))
  {
    hide Strip, AfterSetupOk, AfterPrompt, OnRead, ShowsPrompt;
    assert [] + a == a && [a] + [b] == [a, b] && [b] + [] == [b];
    DrainOne(cfg, Created(), a, [b]);
    InitStep(cfg, None, a);
    KeptOne(None, a);
    var next := AfterSetupOk(Strip(a));
    var t := OnRead(cfg, Created(), a);
    DrainOne(cfg, t, b, []);
    if next.Some? && AfterPrompt(cfg.token, Strip(a)).Some? {
      StaysReady(cfg, t, [b]);
    } else {
      InitStep(cfg, next, b);
      KeptOne(next, b);
    }
  }

  /** What the second read is joined to: the text from q on, where q is past no prompt, or the second read alone. */
  lemma SecondLook(a: seq<Byte>, b: seq<Byte>, p: nat) returns (q: nat)
    requires ESC !in Strip(a) && SetupsEndBy(Strip(a) + Strip(b), p) && p < |Strip(a) + Strip(b)|
    requires (Strip(a) + Strip(b))[p] != LF
    ensures q <= |Strip(a)| && Joined(AfterSetupOk(Strip(a)), b) == (Strip(a) + Strip(b))[q..]
    ensures if ShowsSetup(Strip(a)) then q <= p else q == |Strip(a)|
  {
    hide Strip, AfterSetupOk, ShowsSetup, SetupsEndBy;
    var u, v := Strip(a), Strip(b);
    var x := u + v;
    assert x[..|u|] == u;
    SetupShown(u);
    if ShowsSetup(u) {
      q := LeftBehind(x, |u|, p);
      var c := x[q..|u|];
      StripNoCr(a);
      assert c == u[q..|u|];
      NotInSlice(u, ESC, q, |u|);
      NotInSlice(u, CR, q, |u|);
      StripAfter(c, b);
      assert c + v == x[q..];
    } else {
      q := |u|;
      assert [] + b == b && x[q..] == v;
    }
  }

  lemma StripNoCr(s: seq<Byte>)
    ensures CR !in Strip(s)
  {
  }

  /** The start-up text of a shell, in two reads that cut no escape sequence, with a prompt somewhere after every
      SETUP_OK: the shell becomes ready exactly when the cut leaves some SETUP_OK whole. So where the terminal echoes
      the set-up line, every cut does. A cut inside the prompt does no harm here. */
  lemma HandshakeTwoReads(cfg: Config, a: seq<Byte>, b: seq<Byte>, p: nat, e: nat)
    requires a != [] && b != [] && ESC !in Strip(a) && LF !in cfg.token
    requires Matches(cfg.token, Strip(a) + Strip(b), p, e) && SetupsEndBy(Strip(a) + Strip(b), p)
    ensures DrainAll(cfg, Created(), [a, b]).state == Ready <==> SetupUncut(Strip(a) + Strip(b), |Strip(a)|)
  {
    hide Strip, AfterSetupOk, ShowsSetup, SetupsEndBy, DrainAll, AfterPrompt, ShowsPrompt, Matches, Joined, SetupUncut;
    var u, x := Strip(a), Strip(a) + Strip(b);
    MatchesInside(cfg.token, x, p, e);
    var q := SecondLook(a, b, p);
    TwoInitReads(cfg, a, b);
    UncutParts(x, |u|);
    assert x[..|u|] == u;
    SetupShown(u);
    SetupShown(x[q..]);
    PromptShown(cfg.token, x[q..]);
    if ShowsSetup(u) {
      ShownFrom(cfg.token, x, p, e, q);
    } else if ShowsSetup(x[|u|..]) {
      SetupBefore(x, |u|, p);
      ShownFrom(cfg.token, x, p, e, q);
    }
  }

  lemma UncutParts(x: seq<Byte>, cut: nat)
    requires cut <= |x|
    ensures SetupUncut(x, cut) <==> ShowsSetup(x[..cut]) || ShowsSetup(x[cut..])
  {
    hide At;
    assert x[..cut] == x[0..cut] && x[cut..] == x[cut..|x|];
    SetupInSlice(x, 0, cut);
    SetupInSlice(x, cut, |x|);
    forall i | At(x, SETUP_OK, i) ensures 0 <= i && i + |SETUP_OK| <= |x| { AtInside(x, i); }
  }

  lemma AtInside(x: seq<Byte>, i: int)
    requires At(x, SETUP_OK, i)
    ensures 0 <= i && i + |SETUP_OK| <= |x|
  {
  }

  lemma SetupBefore(x: seq<Byte>, cut: nat, p: nat)
    requires cut <= |x| && ShowsSetup(x[cut..]) && SetupsEndBy(x, p)
    ensures cut <= p
  {
    assert x[cut..] == x[cut..|x|];
    SetupInSlice(x, cut, |x|);
  }

  /** When moreover that prompt is the only one and ends the text, the session is then as created, but ready. */
  lemma FreshTwoReads(cfg: Config, a: seq<Byte>, b: seq<Byte>, p: nat, e: nat)
    requires a != [] && b != [] && ESC !in Strip(a) && LF !in cfg.token && Strip(b) != []
    requires Matches(cfg.token, Strip(a) + Strip(b), p, e) && SetupsEndBy(Strip(a) + Strip(b), p)
    requires e == |Strip(a) + Strip(b)| - 1
    requires forall i: nat, k: nat :: Matches(cfg.token, Strip(a) + Strip(b), i, k) ==> i == p && k == e
    ensures DrainAll(cfg, Created(), [a, b]) == Created().(state := Ready) <==> SetupUncut(Strip(a) + Strip(b), |Strip(a)|)
  {
    hide Strip, AfterSetupOk, ShowsSetup, SetupsEndBy, DrainAll, AfterPrompt, ShowsPrompt, Matches, Joined, SetupUncut;
    HandshakeTwoReads(cfg, a, b, p, e);
    var u, x := Strip(a), Strip(a) + Strip(b);
    MatchesInside(cfg.token, x, p, e);
    var q := SecondLook(a, b, p);
    TwoInitReads(cfg, a, b);
    OnlyAtEnd(cfg.token, x, p, e, 0, |u|);
    OnlyAtEnd(cfg.token, x, p, e, q, |x|);
    assert x[0..|u|] == u && x[q..|x|] == x[q..];
  }

  /** Nothing follows the only prompt in a slice that shows it, and a slice that ends before it shows none. */
  lemma OnlyAtEnd(tok: seq<Byte>, x: seq<Byte>, p: nat, e: nat, q: nat, r: nat)
    requires q <= r <= |x| && e == |x| - 1 && forall i: nat, k: nat :: Matches(tok, x, i, k) ==> i == p && k == e
    ensures AfterPrompt(tok, x[q..r]).Some? ==> r == |x| && AfterPrompt(tok, x[q..r]) == Some([])
  {
    hide Matches, PromptAt;
    var y := x[q..r];
    var m := Search(tok, y, 0);
    if m.Some? {
      PromptAtMatches(tok, y, m.value.start, m.value.bar);
      MatchInSlice(tok, x, q, r, m.value.start, m.value.bar);
      assert Matches(tok, x, q + m.value.start, q + m.value.bar);
      assert m.value.bar + 1 == |y| && y[|y|..] == [];
    }
  }

  /** An echoed set-up line shows SETUP_OK before the command prints it, and then no cut of the text does harm. */
  lemma EchoTwoReads(cfg: Config, a: seq<Byte>, b: seq<Byte>, p: nat, e: nat, echo: nat, printed: nat)
    requires a != [] && b != [] && ESC !in Strip(a) && LF !in cfg.token
    requires Matches(cfg.token, Strip(a) + Strip(b), p, e) && SetupsEndBy(Strip(a) + Strip(b), p)
    requires At(Strip(a) + Strip(b), SETUP_OK, echo) && At(Strip(a) + Strip(b), SETUP_OK, printed)
    requires echo + |SETUP_OK| <= printed
    ensures DrainAll(cfg, Created(), [a, b]).state == Ready
  {
    hide Strip, SetupsEndBy, DrainAll, Matches, At;
    HandshakeTwoReads(cfg, a, b, p, e);
  }

  lemma StreamCut(tok: seq<Byte>, out: seq<Byte>, code: int, cut: nat)
    requires GoodAnswer(tok, out, code) && cut <= |Stream(tok, out, code)|
    ensures var s, x := Stream(tok, out, code), Clean(tok, out, code);
            && |x| == |s| && Strip(s[..cut]) == x[..cut] && Strip(s[cut..]) == x[cut..] && Plain(x)
  {
    hide Stream, MapCr, GoodAnswer, Prompt, Strip;
    var s, x := Stream(tok, out, code), Clean(tok, out, code);
    CleanShape(tok, out, code);
    MapCrRange(s);
    SameLength(tok, out, code);
    assert s[..cut] == s[0..cut] && s[cut..] == s[cut..|s|] && x[..cut] == x[0..cut] && x[cut..] == x[cut..|s|];
    StripSlice(s, 0, cut);
    StripSlice(s, cut, |s|);
  }

  /** Without an echo, where SETUP_OK occurs once: exactly when the cut is not inside it. */
  lemma OneSetupTwoReads(cfg: Config, out: seq<Byte>, code: int, k: nat, cut: nat)
    requires GoodAnswer(cfg.token, out, code) && k + |SETUP_OK| <= |out|
    requires forall i :: At(Clean(cfg.token, out, code), SETUP_OK, i) <==> i == k
    requires 0 < cut < |Stream(cfg.token, out, code)|
    ensures var s := Stream(cfg.token, out, code);
            DrainAll(cfg, Created(), [s[..cut], s[cut..]]).state == Ready <==> !(k < cut < k + |SETUP_OK|)
  {
    hide Stream, Clean, Strip, DrainAll, At, Matches;
    var s, x := Stream(cfg.token, out, code), Clean(cfg.token, out, code);
    StreamCut(cfg.token, out, code, cut);
    assert x[..cut] + x[cut..] == x;
    NotInSlice(x, ESC, 0, cut);
    assert x[..cut] == x[0..cut];
    MatchOnce(cfg.token, out, code, |out|, |x| - 1);
    HandshakeTwoReads(cfg, s[..cut], s[cut..], |out|, |x| - 1);
    assert At(x, SETUP_OK, k);
  }

  // ---------------------------------------------------------------- nothing left behind

  lemma NoSetupOk(s: seq<Byte>, a: nat, b: nat)
    requires a <= b <= |s| && forall i :: !At(s, SETUP_OK, i)
    ensures AfterSetupOk(s[a..b]).None?
  {
    NoneInSlice(s, SETUP_OK, a, b);
  }

  lemma NoPrompt(tok: seq<Byte>, code: int, a: nat, b: nat)
    requires GoodAnswer(tok, [], code) && a <= b <= |Prompt(tok, code)|
    requires b < |Prompt(tok, code)| || 0 < a
    ensures AfterPrompt(tok, Prompt(tok, code)[a..b]).None?
  {
    PromptIsClean(tok, code);
    NoMatchInside(tok, [], code, a, b, 0);
  }

  lemma PromptIsClean(tok: seq<Byte>, code: int)
    requires GoodAnswer(tok, [], code)
    ensures Clean(tok, [], code) == Prompt(tok, code)
    ensures ESC !in Prompt(tok, code) && CR !in Prompt(tok, code)
  {
    CleanShape(tok, [], code);
    MapCrRange(Stream(tok, [], code));
    assert MapCr([]) + Prompt(tok, code) == Prompt(tok, code);
  }

  /** So when the read of SETUP_OK left nothing behind it, the first prompt is only seen whole: read in one piece it makes
      the shell ready, cut anywhere into two reads it is lost and the shell stays in its init state. */
  lemma FirstPromptMustBeWhole(cfg: Config, s: Session, code: int, cut: nat)
    requires Fits(cfg, s) && s.state == Init && s.afterSetup && s.carry == []
    requires GoodAnswer(cfg.token, [], code) && forall i :: !At(Prompt(cfg.token, code), SETUP_OK, i)
    requires 0 < cut < |Prompt(cfg.token, code)|
    ensures var p := Prompt(cfg.token, code);
            && OnRead(cfg, s, p).state == Ready && OnRead(cfg, s, p).carry == []
            && OnRead(cfg, OnRead(cfg, s, p[..cut]), p[cut..]) == s
  {
    hide Prompt, GoodAnswer, Strip, AfterSetupOk, AfterPrompt;
    var p := Prompt(cfg.token, code);
    PromptIsClean(cfg.token, code);
    assert p[..cut] == p[0..cut] && p[cut..] == p[cut..|p|] && p == p[0..|p|];
    assert forall x: seq<Byte> :: [] + x == x;
    MapCrClean(p);
    StripSlice(p, 0, cut);
    StripSlice(p, cut, |p|);
    StripSlice(p, 0, |p|);
    NoSetupOk(p, 0, cut);
    NoSetupOk(p, cut, |p|);
    NoSetupOk(p, 0, |p|);
    NoPrompt(cfg.token, code, 0, cut);
    NoPrompt(cfg.token, code, cut, |p|);
    AfterWholePrompt(cfg.token, code);
  }

  lemma AfterWholePrompt(tok: seq<Byte>, code: int)
    requires GoodAnswer(tok, [], code)
    ensures AfterPrompt(tok, Prompt(tok, code)) == Some([])
  {
    hide GoodAnswer, Search, Clean, Matches;
    PromptIsClean(tok, code);
    SearchStream(tok, [], code, 0, 0);
    var p := Prompt(tok, code);
    assert p[0..] == p && p[|p|..] == [];
  }
}
