/** The subsequence matcher (`find_subseq`): every place where a contiguous
    run of tokens concatenates to a needle string. */
module Subsequence {
  import opened Common

  /** A run of `len` tokens beginning at index `start`. */
  datatype Run = Run(start: nat, len: nat)

  /** The tokens `h[start..start + len]`, at least one of them, concatenate to `needle`. */
  ghost predicate IsMatch(needle: string, h: seq<string>, start: nat, len: nat)
  {
    1 <= len && start + len <= |h| && Concat(h[start..start + len]) == needle
  }

  /** `r` is a match and no shorter run from the same start is one. */
  ghost predicate ShortestMatch(needle: string, h: seq<string>, r: Run)
  {
    IsMatch(needle, h, r.start, r.len) &&
    forall l :: 1 <= l < r.len ==> !IsMatch(needle, h, r.start, l)
  }

  /** The test `needle[plen : plen + clen] != chunk` of the inner loop, negated. */
  predicate ChunkFits(needle: string, plen: nat, chunk: string)
  {
    PySlice(needle, plen, plen + |chunk|) == chunk
  }

  /** The inner loop of `find_subseq`, started at `start` and now at token
      `subidx` with `plen` characters of the needle consumed: the run
      length it records, or None when it breaks off or runs out. */
  function ScanFrom(needle: string, h: seq<string>, start: nat, subidx: nat, plen: nat): Option<nat>
    requires start <= subidx <= |h| && plen <= |needle|
    decreases |h| - subidx
  {
    if subidx == |h| then None
    else if !ChunkFits(needle, plen, h[subidx]) then None
    else if plen + |h[subidx]| == |needle| then Some(subidx - start + 1)
    else ScanFrom(needle, h, start, subidx + 1, plen + |h[subidx]|)
  }

  /** What the inner loop records at start `i`, as a list of zero or one runs. */
  function RunsAt(needle: string, h: seq<string>, i: nat): seq<Run>
    requires i < |h|
  {
    match ScanFrom(needle, h, i, i, 0)
    case Some(l) => [Run(i, l)]
    case None => []
  }

  /** The runs `find_subseq` has collected once the outer loop has visited the starts `0..n`. */
  function MatchesBefore(needle: string, h: seq<string>, n: nat): seq<Run>
    requires n <= |h|
  {
    if n == 0 then [] else MatchesBefore(needle, h, n - 1) + RunsAt(needle, h, n - 1)
  }

  /** The result of `find_subseq(needle, h)`. */
  function Matches(needle: string, h: seq<string>): seq<Run>
  {
    MatchesBefore(needle, h, |h|)
  }

  /** `ChunkFits` in plain terms, once `plen` is inside the needle. */
  lemma ChunkFitsIff(needle: string, plen: nat, chunk: string)
    requires plen <= |needle|
    ensures ChunkFits(needle, plen, chunk) <==>
              plen + |chunk| <= |needle| && needle[plen..plen + |chunk|] == chunk
  {
  }

  /** A token that does not fit after `plen` matched characters rules out
      every longer run through it. */
  lemma MisfitBlocksLonger(needle: string, h: seq<string>, start: nat, subidx: nat, plen: nat, l: nat)
    requires start <= subidx < |h| && plen <= |needle|
    requires Concat(h[start..subidx + 1]) == needle[..plen] + h[subidx]
    requires IsMatch(needle, h, start, l) && l > subidx - start
    ensures ChunkFits(needle, plen, h[subidx])
  {
    var chunk := h[subidx];
    ConcatRunSplit(h, start, subidx + 1, start + l);
    var rest := Concat(h[subidx + 1..start + l]);
    assert needle == needle[..plen] + chunk + rest;
    assert needle[plen..plen + |chunk|] == chunk;
    ChunkFitsIff(needle, plen, chunk);
  }

  /** The greedy scan from `start` reports exactly the shortest match there, if one exists. */
  ghost predicate ScanCorrect(needle: string, h: seq<string>, start: nat, o: Option<nat>)
  {
    match o
    case Some(l) => ShortestMatch(needle, h, Run(start, l))
    case None => forall l :: !IsMatch(needle, h, start, l)
  }

  /** No run from `start` of at most `n` tokens concatenates to the needle. */
  ghost predicate NoMatchUpTo(needle: string, h: seq<string>, start: nat, n: nat)
  {
    forall l :: 1 <= l <= n ==> !IsMatch(needle, h, start, l)
  }

  /** The scan ran off the end of the haystack: no run from `start` matches. */
  lemma NoneAtEnd(needle: string, h: seq<string>, start: nat)
    requires start <= |h| && NoMatchUpTo(needle, h, start, |h| - start)
    ensures ScanCorrect(needle, h, start, None)
  {
  }

  /** The scan broke off at a token that does not fit: no run from `start` matches. */
  lemma NoneOnMisfit(needle: string, h: seq<string>, start: nat, subidx: nat, plen: nat)
    requires start <= subidx < |h| && plen <= |needle|
    requires Concat(h[start..subidx]) == needle[..plen]
    requires NoMatchUpTo(needle, h, start, subidx - start)
    requires !ChunkFits(needle, plen, h[subidx])
    ensures ScanCorrect(needle, h, start, None)
  {
    NextConcat(needle, h, start, subidx, plen);
    forall l | subidx - start < l
      ensures !IsMatch(needle, h, start, l)
    {
      if IsMatch(needle, h, start, l) {
        MisfitBlocksLonger(needle, h, start, subidx, plen, l);
      }
    }
  }

  /** The token completes the needle: the run so far is the shortest match. */
  lemma HitIsShortest(needle: string, h: seq<string>, start: nat, subidx: nat, plen: nat)
    requires start <= subidx < |h| && plen <= |needle|
    requires Concat(h[start..subidx]) == needle[..plen]
    requires NoMatchUpTo(needle, h, start, subidx - start)
    requires ChunkFits(needle, plen, h[subidx]) && plen + |h[subidx]| == |needle|
    ensures ScanCorrect(needle, h, start, Some(subidx - start + 1))
  {
    ChunkFitsIff(needle, plen, h[subidx]);
    NextConcat(needle, h, start, subidx, plen);
    assert needle[..plen] + h[subidx] == needle;
    assert IsMatch(needle, h, start, subidx - start + 1);
  }

  /** The token fits but leaves part of the needle: the scan moves on with
      its invariant intact. */
  lemma FitCarries(needle: string, h: seq<string>, start: nat, subidx: nat, plen: nat)
    requires start <= subidx < |h| && plen <= |needle|
    requires Concat(h[start..subidx]) == needle[..plen]
    requires NoMatchUpTo(needle, h, start, subidx - start)
    requires ChunkFits(needle, plen, h[subidx]) && plen + |h[subidx]| < |needle|
    ensures Concat(h[start..subidx + 1]) == needle[..plen + |h[subidx]|]
    ensures NoMatchUpTo(needle, h, start, subidx + 1 - start)
  {
    ChunkFitsIff(needle, plen, h[subidx]);
    NextConcat(needle, h, start, subidx, plen);
    assert needle[..plen + |h[subidx]|] == needle[..plen] + h[subidx];
    assert !IsMatch(needle, h, start, subidx + 1 - start) by {
      assert |Concat(h[start..subidx + 1])| < |needle|;
    }
  }

  lemma {:induction false} ScanFromSpec(needle: string, h: seq<string>, start: nat, subidx: nat, plen: nat)
    requires start <= subidx <= |h| && plen <= |needle|
    requires Concat(h[start..subidx]) == needle[..plen]
    requires NoMatchUpTo(needle, h, start, subidx - start)
    ensures ScanCorrect(needle, h, start, ScanFrom(needle, h, start, subidx, plen))
    decreases |h| - subidx
  {
    if subidx == |h| {
      assert ScanFrom(needle, h, start, subidx, plen) == None;
      NoneAtEnd(needle, h, start);
    } else if !ChunkFits(needle, plen, h[subidx]) {
      assert ScanFrom(needle, h, start, subidx, plen) == None;
      NoneOnMisfit(needle, h, start, subidx, plen);
    } else if plen + |h[subidx]| == |needle| {
      assert ScanFrom(needle, h, start, subidx, plen) == Some(subidx - start + 1);
      HitIsShortest(needle, h, start, subidx, plen);
    } else {
      assert ScanFrom(needle, h, start, subidx, plen) == ScanFrom(needle, h, start, subidx + 1, plen + |h[subidx]|);
      FitCarries(needle, h, start, subidx, plen);
      ScanFromSpec(needle, h, start, subidx + 1, plen + |h[subidx]|);
    }
  }

  /** One more token extends the concatenation of the run by that token. */
  lemma NextConcat(needle: string, h: seq<string>, start: nat, subidx: nat, plen: nat)
    requires start <= subidx < |h| && plen <= |needle|
    requires Concat(h[start..subidx]) == needle[..plen]
    ensures Concat(h[start..subidx + 1]) == needle[..plen] + h[subidx]
  {
    ConcatRunSplit(h, start, subidx, subidx + 1);
    assert h[subidx..subidx + 1] == [h[subidx]];
    ConcatSingle(h[subidx]);
  }

  lemma ScanSpec(needle: string, h: seq<string>, i: nat)
    requires i < |h|
    ensures ScanCorrect(needle, h, i, ScanFrom(needle, h, i, i, 0))
  {
    assert h[i..i] == [];
    ScanFromSpec(needle, h, i, i, 0);
  }

  /** Two shortest matches from the same start are the same run. */
  lemma ShortestUnique(needle: string, h: seq<string>, a: Run, b: Run)
    requires ShortestMatch(needle, h, a) && ShortestMatch(needle, h, b) && a.start == b.start
    ensures a == b
  {
  }

  /** What is recorded at start `i` is exactly the shortest match from `i`. */
  lemma RunsAtExact(needle: string, h: seq<string>, i: nat, r: Run)
    requires i < |h|
    ensures r in RunsAt(needle, h, i) <==> r.start == i && ShortestMatch(needle, h, r)
  {
    ScanSpec(needle, h, i);
    match ScanFrom(needle, h, i, i, 0)
    case Some(l) =>
      assert RunsAt(needle, h, i) == [Run(i, l)];
      if r.start == i && ShortestMatch(needle, h, r) {
        ShortestUnique(needle, h, r, Run(i, l));
      }
    case None =>
      assert RunsAt(needle, h, i) == [];
  }

  /** A run is reported exactly when it is the shortest match from its start. */
  lemma {:induction false} MatchesBeforeExact(needle: string, h: seq<string>, n: nat, r: Run)
    requires n <= |h|
    ensures r in MatchesBefore(needle, h, n) <==> r.start < n && ShortestMatch(needle, h, r)
  {
    if n > 0 {
      MatchesBeforeExact(needle, h, n - 1, r);
      RunsAtExact(needle, h, n - 1, r);
      assert MatchesBefore(needle, h, n) == MatchesBefore(needle, h, n - 1) + RunsAt(needle, h, n - 1);
    }
  }

  /** Soundness and minimality: `find_subseq` reports `r` iff `h[r.start..r.start + r.len]`
      concatenates to the needle and no shorter run from `r.start` does. */
  lemma MatchesExact(needle: string, h: seq<string>, r: Run)
    ensures r in Matches(needle, h) <==> ShortestMatch(needle, h, r)
  {
    MatchesBeforeExact(needle, h, |h|, r);
  }

  /** Completeness: every start from which some run concatenates to the
      needle is reported, with a run no longer than that one. */
  lemma MatchesComplete(needle: string, h: seq<string>, i: nat, l: nat)
    requires IsMatch(needle, h, i, l)
    ensures exists r :: r in Matches(needle, h) && r.start == i && r.len <= l
  {
    ScanSpec(needle, h, i);
    match ScanFrom(needle, h, i, i, 0)
    case Some(l') =>
      MatchesExact(needle, h, Run(i, l'));
    case None =>
  }

  /** Starts are strictly increasing, so there is at most one run per start. */
  lemma {:induction false} MatchesBeforeIncreasing(needle: string, h: seq<string>, n: nat)
    requires n <= |h|
    ensures forall k :: 0 <= k < |MatchesBefore(needle, h, n)| ==> MatchesBefore(needle, h, n)[k].start < n
    ensures forall a, b :: 0 <= a < b < |MatchesBefore(needle, h, n)| ==>
              MatchesBefore(needle, h, n)[a].start < MatchesBefore(needle, h, n)[b].start
  {
    if n > 0 {
      MatchesBeforeIncreasing(needle, h, n - 1);
    }
  }

  lemma MatchesIncreasing(needle: string, h: seq<string>)
    ensures forall a, b :: 0 <= a < b < |Matches(needle, h)| ==>
              Matches(needle, h)[a].start < Matches(needle, h)[b].start
  {
    MatchesBeforeIncreasing(needle, h, |h|);
  }

  /** Every reported run is non-empty and lies inside the haystack. */
  lemma MatchesInside(needle: string, h: seq<string>)
    ensures forall r :: r in Matches(needle, h) ==> 1 <= r.len && r.start + r.len <= |h|
  {
    forall r | r in Matches(needle, h)
      ensures 1 <= r.len && r.start + r.len <= |h|
    {
      MatchesExact(needle, h, r);
    }
  }

  lemma {:induction false} MatchesBeforeEmptyNeedle(h: seq<string>, n: nat)
    requires n <= |h|
    requires forall t :: t in h ==> t != ""
    ensures MatchesBefore("", h, n) == []
  {
    if n > 0 {
      MatchesBeforeEmptyNeedle(h, n - 1);
      var t := h[n - 1];
      assert t in h;
      assert PySlice("", 0, |t|) == [];
      assert ScanFrom("", h, n - 1, n - 1, 0) == None;
    }
  }

  /** Over non-empty tokens an empty needle is never matched. */
  lemma MatchesEmptyNeedle(h: seq<string>)
    requires forall t :: t in h ==> t != ""
    ensures Matches("", h) == []
  {
    MatchesBeforeEmptyNeedle(h, |h|);
  }

  /** One step of the scan, by the three outcomes of the token at `subidx`. */
  lemma ScanStep(needle: string, h: seq<string>, start: nat, subidx: nat, plen: nat)
    requires start <= subidx < |h| && plen <= |needle|
    ensures !ChunkFits(needle, plen, h[subidx]) ==> ScanFrom(needle, h, start, subidx, plen) == None
    ensures ChunkFits(needle, plen, h[subidx]) && plen + |h[subidx]| == |needle| ==>
              ScanFrom(needle, h, start, subidx, plen) == Some(subidx - start + 1)
    ensures ChunkFits(needle, plen, h[subidx]) && plen + |h[subidx]| != |needle| ==>
              plen + |h[subidx]| < |needle| &&
              ScanFrom(needle, h, start, subidx, plen) == ScanFrom(needle, h, start, subidx + 1, plen + |h[subidx]|)
  {
    ChunkFitsIff(needle, plen, h[subidx]);
  }

  /** The inner loop of `find_subseq` for start `idx`: extend the run token
      by token, break off at the first token that does not fit the needle,
      and stop at the first exact fit, returning the run length. */
  method ScanAt(needle: string, haystack: seq<string>, idx: nat) returns (found: Option<nat>)
    requires idx < |haystack|
    ensures found == ScanFrom(needle, haystack, idx, idx, 0)
  {
    var nlen, hlen := |needle|, |haystack|;
    var plen: nat := 0;
    found := None;
    for subidx := idx to hlen
      invariant plen <= nlen
      invariant ScanFrom(needle, haystack, idx, subidx, plen) == ScanFrom(needle, haystack, idx, idx, 0)
      invariant found == None
    {
      var chunk := haystack[subidx];
      var clen := |chunk|;
      ScanStep(needle, haystack, idx, subidx, plen);
      if !ChunkFits(needle, plen, chunk) {
        break;
      }
      plen := plen + clen;
      if plen == nlen {
        found := Some((subidx - idx) + 1);
        break;
      }
    }
  }

  /** `find_subseq`: the outer loop over the starts, collecting what the inner loop records. */
  method FindSubseq(needle: string, haystack: seq<string>) returns (result: seq<Run>)
    ensures result == Matches(needle, haystack)
  {
    var hlen := |haystack|;
    result := [];
    for idx := 0 to hlen
      invariant result == MatchesBefore(needle, haystack, idx)
    {
      var found := ScanAt(needle, haystack, idx);
      if found.Some? {
        result := result + [Run(idx, found.value)];
      }
    }
  }
}
