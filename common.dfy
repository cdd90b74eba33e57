/** Values and helpers shared by every stage of the vocabulary pipeline:
    optional values, Python's `"".join` over tokens and Python's slice
    arithmetic (negative bounds count from the end, bounds are clamped). */
module Common {

  datatype Option<T> = None | Some(value: T)

  function Min(a: int, b: int): int
  {
    if a <= b then a else b
  }

  /** `"".join(tokens)`: the characters of the tokens, one after the other. */
  function Concat(tokens: seq<string>): string
  {
    if tokens == [] then "" else Concat(tokens[..|tokens| - 1]) + tokens[|tokens| - 1]
  }

  lemma {:induction false} ConcatSplit(a: seq<string>, b: seq<string>)
    ensures Concat(a + b) == Concat(a) + Concat(b)
    decreases |b|
  {
    if b == [] {
      assert a + b == a;
    } else {
      var b' := b[..|b| - 1];
      assert (a + b)[..|a + b| - 1] == a + b';
      ConcatSplit(a, b');
    }
  }

  /** The concatenation of a run splits at any token boundary inside it. */
  lemma ConcatRunSplit(h: seq<string>, i: nat, j: nat, k: nat)
    requires i <= j <= k <= |h|
    ensures Concat(h[i..k]) == Concat(h[i..j]) + Concat(h[j..k])
  {
    assert h[i..k] == h[i..j] + h[j..k];
    ConcatSplit(h[i..j], h[j..k]);
  }

  lemma ConcatSingle(t: string)
    ensures Concat([t]) == t
  {
    assert [t][..0] == [];
  }

  /** Where Python puts the slice bound `i` in a sequence of length `n`:
      a negative bound counts from the end, and both ends are clamped. */
  function PyIndex(i: int, n: nat): (r: nat)
    ensures r <= n
    ensures 0 <= i <= n ==> r == i
    ensures i > n ==> r == n
    ensures i < 0 ==> r == if i + n < 0 then 0 else i + n
  {
    if i < 0 then (if i + n < 0 then 0 else i + n)
    else if i > n then n
    else i
  }

  /** Python's `s[lo:hi]`. */
  function PySlice<T>(s: seq<T>, lo: int, hi: int): (r: seq<T>)
    ensures 0 <= lo <= |s| && lo <= hi ==> r == s[lo..Min(hi, |s|)]
  {
    var a, b := PyIndex(lo, |s|), PyIndex(hi, |s|);
    if b <= a then [] else s[a..b]
  }

  /** Python's `(*s[:a], *s[b:])`: what is left of `s` once the slice `a:b`
      is cut out, with Python's reading of negative and oversized bounds. */
  function PyCut<T>(s: seq<T>, a: int, b: int): (r: seq<T>)
    ensures 0 <= a <= b <= |s| ==> r == s[..a] + s[b..] && |r| == |s| - (b - a)
  {
    s[..PyIndex(a, |s|)] + s[PyIndex(b, |s|)..]
  }

  /** `f` lists, in increasing order, the positions in `b` of the elements of `a`. */
  ghost predicate Embedding<T>(a: seq<T>, b: seq<T>, f: seq<nat>)
  {
    |f| == |a| &&
    (forall i :: 0 <= i < |f| ==> f[i] < |b| && a[i] == b[f[i]]) &&
    (forall i, j :: 0 <= i < j < |f| ==> f[i] < f[j])
  }

  /** `a` is `b` with some elements dropped and none reordered. */
  ghost predicate IsSubseq<T>(a: seq<T>, b: seq<T>)
  {
    exists f :: Embedding(a, b, f)
  }

  lemma SubseqRefl<T>(a: seq<T>)
    ensures IsSubseq(a, a)
  {
    var f := seq(|a|, i => i);
    assert Embedding(a, a, f);
  }

  lemma SubseqTrans<T>(a: seq<T>, b: seq<T>, c: seq<T>)
    requires IsSubseq(a, b) && IsSubseq(b, c)
    ensures IsSubseq(a, c)
  {
    var f: seq<nat> :| Embedding(a, b, f);
    var g: seq<nat> :| Embedding(b, c, g);
    var h := seq(|f|, i requires 0 <= i < |f| => g[f[i]]);
    assert Embedding(a, c, h);
  }

  /** Cutting a slice out leaves a subsequence. */
  lemma CutIsSubseq<T>(s: seq<T>, a: nat, b: nat)
    requires a <= b <= |s|
    ensures IsSubseq(s[..a] + s[b..], s)
  {
    var f := seq(|s| - (b - a), i => if i < a then i else i + (b - a));
    assert Embedding(s[..a] + s[b..], s, f);
  }

  lemma SubseqAppend<T>(a: seq<T>, b: seq<T>, x: T)
    requires IsSubseq(a, b)
    ensures IsSubseq(a, b + [x]) && IsSubseq(a + [x], b + [x])
  {
    var f: seq<nat> :| Embedding(a, b, f);
    assert Embedding(a, b + [x], f);
    assert Embedding(a + [x], b + [x], f + [|b|]);
  }

  /** Every element of a subsequence is an element of the whole. */
  lemma SubseqMember<T>(a: seq<T>, b: seq<T>, x: T)
    requires IsSubseq(a, b) && x in a
    ensures x in b
  {
    var f: seq<nat> :| Embedding(a, b, f);
    var i :| 0 <= i < |a| && a[i] == x;
    assert b[f[i]] == x;
  }

  /** Being a prefix is transitive. */
  lemma PrefixTrans<T>(a: seq<T>, b: seq<T>, c: seq<T>)
    requires a <= b && b <= c
    ensures a <= c
  {
    assert a == b[..|a|];
    assert b[..|a|] == c[..|b|][..|a|];
  }

  /** No element occurs twice. */
  predicate NoDup<T(==)>(s: seq<T>)
  {
    forall i, j :: 0 <= i < j < |s| ==> s[i] != s[j]
  }
}
