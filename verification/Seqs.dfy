/** Sequence operations with the meaning Python gives them, shared by every other module. */
module Seqs {
  datatype Option<+T> = None | Some(value: T)

  type Byte = b: int | 0 <= b < 256

  function Min(a: int, b: int): int { if a <= b then a else b }
  function Max(a: int, b: int): int { if a >= b then a else b }

  /** The concatenation of all pieces, in order. */
  function Flatten<T>(pieces: seq<seq<T>>): seq<T> {
    if pieces == [] then [] else pieces[0] + Flatten(pieces[1..])
  }

  lemma FlattenPair<T>(a: seq<T>, b: seq<T>)
    ensures Flatten([a]) == a
    ensures Flatten([a, b]) == a + b
  {
    var one, two := [b], [a, b];
    assert two[1..] == one && Flatten(one[1..]) == [] && Flatten(one) == b + [] == b;
    assert Flatten([a][1..]) == [] && Flatten([a]) == a + [] == a;
  }

  lemma Assoc<T>(a: seq<T>, b: seq<T>, c: seq<T>)
    ensures (a + b) + c == a + (b + c)
  {
  }

  lemma SliceOfSlice<T>(s: seq<T>, a: nat, b: nat, c: nat, d: nat)
    requires a <= b <= |s| && c <= d <= b - a
    ensures s[a..b][c..d] == s[a + c..a + d]
  {
    forall i | 0 <= i < d - c ensures s[a..b][c..d][i] == s[a + c..a + d][i] {}
  }

  /** The last n elements, or all of them when there are fewer. */
  function LastN<T>(s: seq<T>, n: nat): seq<T> {
    if |s| <= n then s else s[|s| - n..]
  }

  /** p occurs in s at index i. */
  predicate At<T(==)>(s: seq<T>, p: seq<T>, i: int) {
    0 <= i && i + |p| <= |s| && s[i..i + |p|] == p
  }

  /** Python's s.find(p, from), with None for -1. */
  function Find<T(==)>(s: seq<T>, p: seq<T>, from: nat): (r: Option<nat>)
    ensures r.Some? ==> from <= r.value && At(s, p, r.value) && forall i :: from <= i < r.value ==> !At(s, p, i)
    ensures r.None? ==> forall i :: from <= i ==> !At(s, p, i)
    decreases |s| - from
  {
    if from + |p| > |s| then None
    else if At(s, p, from) then Some(from)
    else Find(s, p, from + 1)
  }

  lemma NoneInSlice<T>(s: seq<T>, p: seq<T>, a: nat, b: nat)
    requires a <= b <= |s| && forall i :: !At(s, p, i)
    ensures Find(s[a..b], p, 0).None?
  {
    forall i: nat ensures !At(s[a..b], p, i) {
      if i + |p| <= b - a { SliceOfSlice(s, a, b, i, i + |p|); }
      assert !At(s, p, a + i);
    }
  }
}
