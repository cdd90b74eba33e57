/** The skip filter (`filter_skips`): repeated passes that cut every token
    run concatenating to a skip string out of a segment, until a whole pass
    finds nothing. Skip strings are a set in the source; here they are a
    sequence in the (fixed) order a pass visits them. */
module SkipFilter {
  import opened Common
  import opened Subsequence

  /** `runs` are sorted by start, pairwise disjoint, non-empty, begin at or
      after `from` and end inside a sequence of length `n`. */
  ghost predicate Disjoint(runs: seq<Run>, from: nat, n: nat)
    decreases |runs|
  {
    runs == [] ||
    (from <= runs[0].start && 1 <= runs[0].len && runs[0].start + runs[0].len <= n &&
     Disjoint(runs[1..], runs[0].start + runs[0].len, n))
  }

  /** Every run ends inside a sequence of length `n`. */
  ghost predicate Inside(runs: seq<Run>, n: nat)
  {
    forall k :: 0 <= k < |runs| ==> runs[k].start + runs[k].len <= n
  }

  lemma InsideSuffix(runs: seq<Run>, j: nat, n: nat)
    requires Inside(runs, n) && j <= |runs|
    ensures Inside(runs[j..], n)
  {
    forall k | 0 <= k < |runs[j..]|
      ensures runs[j..][k].start + runs[j..][k].len <= n
    {
      assert runs[j..][k] == runs[j + k];
    }
  }

  lemma {:induction false} DisjointInside(runs: seq<Run>, from: nat, n: nat)
    requires Disjoint(runs, from, n)
    ensures Inside(runs, n)
    decreases |runs|
  {
    if runs != [] {
      DisjointInside(runs[1..], runs[0].start + runs[0].len, n);
      forall k | 1 <= k < |runs|
        ensures runs[k].start + runs[k].len <= n
      {
        assert runs[k] == runs[1..][k - 1];
      }
    }
  }

  /** The tokens of `s` from index `from` on that lie in no run: what
      deleting exactly `runs` leaves, in the original order. */
  ghost function Outside<T>(s: seq<T>, runs: seq<Run>, from: nat): seq<T>
    requires from <= |s| && Disjoint(runs, from, |s|)
    decreases |runs|
  {
    if runs == [] then s[from..]
    else s[from..runs[0].start] + Outside(s, runs[1..], runs[0].start + runs[0].len)
  }

  /** The removal loop of `filter_skips` exactly as written: each run's start
      is shifted down by the tokens already removed (`offs`) and cut out with
      Python slices, whatever the shifted index turns out to be. */
  function RemoveRunsAsWritten<T>(segs: seq<T>, runs: seq<Run>, offs: int): seq<T>
    decreases |runs|
  {
    if runs == [] then segs
    else
      var skidx := runs[0].start - offs;
      RemoveRunsAsWritten(PyCut(segs, skidx, skidx + runs[0].len), runs[1..], offs + runs[0].len)
  }

  /** The removal loop with the overlap fixed: a run that starts before the
      end of the run removed last (`prevEnd`) is passed over, so the shifted
      index is always a valid one. At least the first run it is given goes. */
  function RemoveRuns<T>(segs: seq<T>, runs: seq<Run>, offs: nat, prevEnd: nat): (r: seq<T>)
    requires offs <= prevEnd && Inside(runs, |segs| + offs)
    ensures |r| <= |segs|
    ensures runs != [] && prevEnd <= runs[0].start && 1 <= runs[0].len ==> |r| < |segs|
    decreases |runs|
  {
    if runs == [] then segs
    else if runs[0].start < prevEnd then RemoveRuns(segs, runs[1..], offs, prevEnd)
    else
      var skidx := runs[0].start - offs;
      RemoveRuns(segs[..skidx] + segs[skidx + runs[0].len..], runs[1..], offs + runs[0].len, runs[0].start + runs[0].len)
  }

  /** The corrected loop only drops tokens: it never invents, duplicates
      or reorders one. */
  lemma {:induction false} RemoveRunsOnlyRemoves<T>(segs: seq<T>, runs: seq<Run>, offs: nat, prevEnd: nat)
    requires offs <= prevEnd && Inside(runs, |segs| + offs)
    ensures IsSubseq(RemoveRuns(segs, runs, offs, prevEnd), segs)
    decreases |runs|
  {
    if runs == [] {
      SubseqRefl(segs);
    } else if runs[0].start < prevEnd {
      RemoveRunsOnlyRemoves(segs, runs[1..], offs, prevEnd);
    } else {
      var skidx := runs[0].start - offs;
      var cut := segs[..skidx] + segs[skidx + runs[0].len..];
      assert RemoveRuns(segs, runs, offs, prevEnd) ==
             RemoveRuns(cut, runs[1..], offs + runs[0].len, runs[0].start + runs[0].len);
      CutIsSubseq(segs, skidx, skidx + runs[0].len);
      RemoveRunsOnlyRemoves(cut, runs[1..], offs + runs[0].len, runs[0].start + runs[0].len);
      SubseqTrans(RemoveRuns(cut, runs[1..], offs + runs[0].len, runs[0].start + runs[0].len), cut, segs);
    }
  }

  lemma Assoc<T>(a: seq<T>, b: seq<T>, c: seq<T>)
    ensures (a + b) + c == a + (b + c)
  {
  }

  /** Cutting `start..end` (positions in `s`) out of `p + s[e..]`. */
  lemma CutAfterPrefix<T>(p: seq<T>, s: seq<T>, e: nat, start: nat, end: nat)
    requires e <= start <= end <= |s|
    ensures (p + s[e..])[..|p| + (start - e)] == p + s[e..start]
    ensures (p + s[e..])[|p| + (end - e)..] == s[end..]
  {
  }

  /** For disjoint runs the corrected loop deletes exactly the runs: the
      part `p` already processed stays, and the rest is `Outside`. */
  lemma {:induction false} RemoveRunsDeletesExactly<T>(s: seq<T>, runs: seq<Run>, p: seq<T>, offs: nat, e: nat)
    requires offs <= e <= |s| && |p| + offs == e && Disjoint(runs, e, |s|)
    ensures Inside(runs, |p + s[e..]| + offs)
    ensures RemoveRuns(p + s[e..], runs, offs, e) == p + Outside(s, runs, e)
    decreases |runs|
  {
    var cur := p + s[e..];
    DisjointInside(runs, e, |s|);
    if runs == [] {
      return;
    }
    var r := runs[0];
    var end := r.start + r.len;
    var p' := p + s[e..r.start];
    CutAfterPrefix(p, s, e, r.start, end);
    assert e <= r.start;
    assert RemoveRuns(cur, runs, offs, e) == RemoveRuns(p' + s[end..], runs[1..], offs + r.len, end);
    assert Outside(s, runs, e) == s[e..r.start] + Outside(s, runs[1..], end);
    RemoveRunsDeletesExactly(s, runs[1..], p', offs + r.len, end);
    Assoc(p, s[e..r.start], Outside(s, runs[1..], end));
  }

  /** On disjoint runs the corrected loop and the loop as written agree. */
  lemma {:induction false} AsWrittenAgreesOnDisjoint<T>(segs: seq<T>, runs: seq<Run>, offs: nat, prevEnd: nat, n: nat)
    requires offs <= prevEnd && |segs| + offs == n && Disjoint(runs, prevEnd, n)
    ensures Inside(runs, |segs| + offs)
    ensures RemoveRunsAsWritten(segs, runs, offs) == RemoveRuns(segs, runs, offs, prevEnd)
    decreases |runs|
  {
    DisjointInside(runs, prevEnd, n);
    if runs != [] {
      var r := runs[0];
      var skidx := r.start - offs;
      var cut := segs[..skidx] + segs[skidx + r.len..];
      assert PyCut(segs, skidx, skidx + r.len) == cut;
      assert RemoveRunsAsWritten(segs, runs, offs) == RemoveRunsAsWritten(cut, runs[1..], offs + r.len);
      assert RemoveRuns(segs, runs, offs, prevEnd) == RemoveRuns(cut, runs[1..], offs + r.len, r.start + r.len);
      AsWrittenAgreesOnDisjoint(cut, runs[1..], offs + r.len, r.start + r.len, n);
    }
  }

  /** Sorted runs, each ending before the next one starts. */
  ghost predicate PairwiseDisjoint(runs: seq<Run>)
  {
    forall a, b :: 0 <= a < b < |runs| ==> runs[a].start + runs[a].len <= runs[b].start
  }

  /** Every run is non-empty and ends inside a sequence of length `n`. */
  ghost predicate NonEmptyInside(runs: seq<Run>, n: nat)
  {
    forall j :: 0 <= j < |runs| ==> 1 <= runs[j].len && runs[j].start + runs[j].len <= n
  }

  lemma {:induction false} PairwiseDisjointSuffix(runs: seq<Run>, k: nat, from: nat, n: nat)
    requires k <= |runs| && PairwiseDisjoint(runs) && NonEmptyInside(runs, n)
    requires k < |runs| ==> from <= runs[k].start
    ensures Disjoint(runs[k..], from, n)
    decreases |runs| - k
  {
    if k < |runs| {
      PairwiseDisjointSuffix(runs, k + 1, runs[k].start + runs[k].len, n);
      assert runs[k..][1..] == runs[k + 1..];
    }
  }

  /** Non-overlapping runs: the loop as written deletes exactly them. */
  lemma AsWrittenRemovesDisjoint<T>(segs: seq<T>, runs: seq<Run>)
    requires PairwiseDisjoint(runs) && NonEmptyInside(runs, |segs|)
    ensures Disjoint(runs, 0, |segs|)
    ensures RemoveRunsAsWritten(segs, runs, 0) == Outside(segs, runs, 0)
  {
    PairwiseDisjointSuffix(runs, 0, 0, |segs|);
    assert runs[0..] == runs;
    AsWrittenAgreesOnDisjoint(segs, runs, 0, 0, |segs|);
    RemoveRunsDeletesExactly(segs, runs, [], 0, 0);
    assert [] + segs[0..] == segs;
  }

  lemma MatchesInsideSeq(needle: string, segs: seq<string>)
    ensures NonEmptyInside(Matches(needle, segs), |segs|)
    ensures Inside(Matches(needle, segs), |segs|)
  {
    var runs := Matches(needle, segs);
    MatchesInside(needle, segs);
    forall k | 0 <= k < |runs|
      ensures runs[k].start + runs[k].len <= |segs| && 1 <= runs[k].len
    {
      assert runs[k] in runs;
    }
  }

  /** When the runs `find_subseq` reports for a skip string do not overlap,
      the removal loop as written deletes exactly those runs and keeps every
      other token in order. */
  lemma AsWrittenRemovesDisjointMatches(needle: string, segs: seq<string>)
    requires PairwiseDisjoint(Matches(needle, segs))
    ensures Disjoint(Matches(needle, segs), 0, |segs|)
    ensures RemoveRunsAsWritten(segs, Matches(needle, segs), 0) == Outside(segs, Matches(needle, segs), 0)
  {
    MatchesInsideSeq(needle, segs);
    AsWrittenRemovesDisjoint(segs, Matches(needle, segs));
  }

  /** One skip string's share of a pass: cut out what `find_subseq` reports. */
  function RemoveMatches(needle: string, segs: seq<string>): (r: seq<string>)
    ensures |r| <= |segs|
    ensures Matches(needle, segs) != [] ==> |r| < |segs|
  {
    assert Matches(needle, segs) != [] ==> 0 < |Matches(needle, segs)|;
    MatchesInsideSeq(needle, segs);
    RemoveRuns(segs, Matches(needle, segs), 0, 0)
  }

  /** The segment and the `found` counter of a pass. */
  datatype PassResult = PassResult(segs: seq<string>, found: nat)

  /** The state of a pass once it has visited the first `k` skip strings,
      for any test `reported` of whether a skip string is found in a
      segment and any way `cut` of cutting it out: a skip string that is
      not found is passed over (`continue`), one that is found adds one to
      `found` and has its runs cut out. */
  function PassWith(reported: (string, seq<string>) -> bool, cut: (string, seq<string>) -> seq<string>,
                    skips: seq<string>, segs: seq<string>, k: nat): PassResult
    requires k <= |skips|
  {
    if k == 0 then PassResult(segs, 0)
    else
      var p := PassWith(reported, cut, skips, segs, k - 1);
      if !reported(skips[k - 1], p.segs) then p
      else PassResult(cut(skips[k - 1], p.segs), p.found + 1)
  }

  /** A pass finds nothing exactly when no skip string it visited is found
      in the segment it was given, and then it leaves the segment alone. */
  lemma {:induction false} PassWithNoneFound(reported: (string, seq<string>) -> bool, cut: (string, seq<string>) -> seq<string>,
                                             skips: seq<string>, segs: seq<string>, k: nat)
    requires k <= |skips|
    ensures PassWith(reported, cut, skips, segs, k).found == 0 <==>
              forall j :: 0 <= j < k ==> !reported(skips[j], segs)
    ensures PassWith(reported, cut, skips, segs, k).found == 0 ==> PassWith(reported, cut, skips, segs, k).segs == segs
  {
    if k > 0 {
      PassWithNoneFound(reported, cut, skips, segs, k - 1);
    }
  }

  /** When cutting never lengthens a segment, and cutting a skip string
      that is found shortens it, so does a pass (strictly once it found
      something). */
  lemma {:induction false} PassWithShrinks(reported: (string, seq<string>) -> bool, cut: (string, seq<string>) -> seq<string>,
                                           skips: seq<string>, segs: seq<string>, k: nat)
    requires k <= |skips|
    requires forall s, h :: |cut(s, h)| <= |h|
    requires forall s, h :: reported(s, h) ==> |cut(s, h)| < |h|
    ensures |PassWith(reported, cut, skips, segs, k).segs| <= |segs|
    ensures PassWith(reported, cut, skips, segs, k).found > 0 ==> |PassWith(reported, cut, skips, segs, k).segs| < |segs|
  {
    if k > 0 {
      PassWithShrinks(reported, cut, skips, segs, k - 1);
    }
  }

  /** When cutting only drops tokens, so does a pass. */
  lemma {:induction false} PassWithOnlyRemoves(reported: (string, seq<string>) -> bool, cut: (string, seq<string>) -> seq<string>,
                                               skips: seq<string>, segs: seq<string>, k: nat)
    requires k <= |skips|
    requires forall s, h :: IsSubseq(cut(s, h), h)
    ensures IsSubseq(PassWith(reported, cut, skips, segs, k).segs, segs)
  {
    if k == 0 {
      SubseqRefl(segs);
    } else {
      PassWithOnlyRemoves(reported, cut, skips, segs, k - 1);
      var p := PassWith(reported, cut, skips, segs, k - 1);
      if reported(skips[k - 1], p.segs) {
        SubseqTrans(cut(skips[k - 1], p.segs), p.segs, segs);
      }
    }
  }

  /** The test of `filter_skips`: `find_subseq` reports the skip string. */
  function Reported(): (string, seq<string>) -> bool
  {
    (skip, segs) => Matches(skip, segs) != []
  }

  /** The cut of `filter_skips`: remove what `find_subseq` reports. */
  function CutReported(): (string, seq<string>) -> seq<string>
  {
    (skip, segs) => RemoveMatches(skip, segs)
  }

  /** The pass of `filter_skips` after the first `k` skip strings. */
  function PassFrom(skips: seq<string>, segs: seq<string>, k: nat): PassResult
    requires k <= |skips|
  {
    PassWith(Reported(), CutReported(), skips, segs, k)
  }

  /** One pass of the outer `while True` loop. */
  function Pass(skips: seq<string>, segs: seq<string>): PassResult
  {
    PassFrom(skips, segs, |skips|)
  }

  /** No skip string is found in `segs`. */
  ghost predicate NoSkipMatches(skips: seq<string>, segs: seq<string>)
  {
    forall j :: 0 <= j < |skips| ==> Matches(skips[j], segs) == []
  }

  /** A pass never lengthens the segment, and one that finds something
      strictly shortens it. */
  lemma PassFromShrinks(skips: seq<string>, segs: seq<string>, k: nat)
    requires k <= |skips|
    ensures |PassFrom(skips, segs, k).segs| <= |segs|
    ensures PassFrom(skips, segs, k).found > 0 ==> |PassFrom(skips, segs, k).segs| < |segs|
  {
    PassWithShrinks(Reported(), CutReported(), skips, segs, k);
  }

  /** Cutting out what `find_subseq` reports only drops tokens. */
  lemma RemoveMatchesOnlyRemoves(needle: string, segs: seq<string>)
    ensures IsSubseq(RemoveMatches(needle, segs), segs)
  {
    MatchesInsideSeq(needle, segs);
    RemoveRunsOnlyRemoves(segs, Matches(needle, segs), 0, 0);
  }

  /** A pass only drops tokens. */
  lemma PassFromOnlyRemoves(skips: seq<string>, segs: seq<string>, k: nat)
    requires k <= |skips|
    ensures IsSubseq(PassFrom(skips, segs, k).segs, segs)
  {
    forall s, h
      ensures IsSubseq(CutReported()(s, h), h)
    {
      RemoveMatchesOnlyRemoves(s, h);
    }
    PassWithOnlyRemoves(Reported(), CutReported(), skips, segs, k);
  }

  /** A pass finds nothing exactly when no skip string is found in the
      segment, and then it has not changed the segment. */
  lemma PassNoMatches(skips: seq<string>, segs: seq<string>)
    ensures Pass(skips, segs).found == 0 <==> NoSkipMatches(skips, segs)
    ensures Pass(skips, segs).found == 0 ==> Pass(skips, segs).segs == segs
  {
    PassWithNoneFound(Reported(), CutReported(), skips, segs, |skips|);
  }

  /** The result of `filter_skips`: passes until one finds nothing. */
  function Filtered(skips: seq<string>, segs: seq<string>): seq<string>
    decreases |segs|
  {
    var p := Pass(skips, segs);
    if p.found == 0 then segs
    else
      PassFromShrinks(skips, segs, |skips|);
      Filtered(skips, p.segs)
  }

  /** Fixpoint: no skip string is found in what `filter_skips` returns. */
  lemma {:induction false} FilteredHasNoSkips(skips: seq<string>, segs: seq<string>)
    ensures NoSkipMatches(skips, Filtered(skips, segs))
    decreases |segs|
  {
    PassNoMatches(skips, segs);
    if Pass(skips, segs).found != 0 {
      PassFromShrinks(skips, segs, |skips|);
      FilteredHasNoSkips(skips, Pass(skips, segs).segs);
    }
  }

  /** Nothing is filtered out of an empty segment. */
  lemma FilteredEmpty(skips: seq<string>)
    ensures Filtered(skips, []) == []
  {
    forall j | 0 <= j < |skips|
      ensures Matches(skips[j], []) == []
    {
    }
    PassNoMatches(skips, []);
  }

  /** Idempotence: filtering the result again changes nothing. */
  lemma FilteredIdempotent(skips: seq<string>, segs: seq<string>)
    ensures Filtered(skips, Filtered(skips, segs)) == Filtered(skips, segs)
  {
    FilteredHasNoSkips(skips, segs);
    PassNoMatches(skips, Filtered(skips, segs));
  }

  /** Filtering only drops tokens: it never invents, duplicates or reorders one. */
  lemma {:induction false} FilteredOnlyRemoves(skips: seq<string>, segs: seq<string>)
    ensures IsSubseq(Filtered(skips, segs), segs)
    decreases |segs|
  {
    PassFromShrinks(skips, segs, |skips|);
    PassFromOnlyRemoves(skips, segs, |skips|);
    if Pass(skips, segs).found != 0 {
      var next := Pass(skips, segs).segs;
      assert Filtered(skips, segs) == Filtered(skips, next);
      FilteredOnlyRemoves(skips, next);
      SubseqTrans(Filtered(skips, next), next, segs);
    } else {
      SubseqRefl(segs);
    }
  }

  /** The removal loop of `filter_skips` (the `for skidx_, sslen in skips`
      loop), with the overlap check that keeps the shifted index valid. */
  method RemoveReported(segs0: seq<string>, runs: seq<Run>) returns (segs: seq<string>)
    requires Inside(runs, |segs0|)
    ensures segs == RemoveRuns(segs0, runs, 0, 0)
  {
    segs := segs0;
    var offs: nat := 0;
    var prevEnd: nat := 0;
    assert runs[0..] == runs;
    for j := 0 to |runs|
      invariant offs <= prevEnd && |segs| + offs == |segs0|
      invariant Inside(runs[j..], |segs0|)
      invariant RemoveRuns(segs, runs[j..], offs, prevEnd) == RemoveRuns(segs0, runs, 0, 0)
    {
      assert runs[j..][1..] == runs[j + 1..];
      InsideSuffix(runs, j + 1, |segs0|);
      var run := runs[j];
      assert runs[j..][0] == run;
      if run.start < prevEnd {
        assert RemoveRuns(segs, runs[j..], offs, prevEnd) == RemoveRuns(segs, runs[j + 1..], offs, prevEnd);
        continue;
      }
      var skidx := run.start - offs;
      assert RemoveRuns(segs, runs[j..], offs, prevEnd) ==
             RemoveRuns(segs[..skidx] + segs[skidx + run.len..], runs[j + 1..], offs + run.len, run.start + run.len);
      segs := segs[..skidx] + segs[skidx + run.len..];
      offs := offs + run.len;
      prevEnd := run.start + run.len;
    }
  }

  /** One skip string more in a pass. */
  lemma PassFromStep(skips: seq<string>, segs: seq<string>, k: nat)
    requires k < |skips|
    ensures var p := PassFrom(skips, segs, k);
            PassFrom(skips, segs, k + 1) ==
              if Matches(skips[k], p.segs) == [] then p
              else PassResult(RemoveMatches(skips[k], p.segs), p.found + 1)
  {
  }

  /** What `VisitSkip` does to the state of a pass is the next step of `PassFrom`. */
  lemma PassFromVisit(skips: seq<string>, segs0: seq<string>, k: nat, p: PassResult, q: PassResult)
    requires k < |skips| && p == PassFrom(skips, segs0, k)
    requires Matches(skips[k], p.segs) == [] ==> q == p
    requires Matches(skips[k], p.segs) != [] ==> q == PassResult(RemoveMatches(skips[k], p.segs), p.found + 1)
    ensures q == PassFrom(skips, segs0, k + 1)
  {
    PassFromStep(skips, segs0, k);
  }

  /** One skip string of a pass: stop at `continue` when `find_subseq`
      reports nothing, otherwise count it and cut its runs out. */
  method VisitSkip(skip: string, segs0: seq<string>, found0: nat) returns (segs: seq<string>, found: nat)
    ensures Matches(skip, segs0) == [] ==> segs == segs0 && found == found0
    ensures Matches(skip, segs0) != [] ==> segs == RemoveMatches(skip, segs0) && found == found0 + 1
  {
    var reported := FindSubseq(skip, segs0);
    if reported == [] {
      return segs0, found0;
    }
    MatchesInsideSeq(skip, segs0);
    segs := RemoveReported(segs0, reported);
    found := found0 + 1;
  }

  /** The body of the `while True` loop of `filter_skips`: one pass over
      the skip strings, counting in `found` those it found and cutting out
      their runs. */
  method SkipPass(skips: seq<string>, segs0: seq<string>) returns (segs: seq<string>, found: nat)
    ensures PassResult(segs, found) == Pass(skips, segs0)
  {
    segs, found := segs0, 0;
    for k := 0 to |skips|
      invariant PassResult(segs, found) == PassFrom(skips, segs0, k)
    {
      ghost var before := PassResult(segs, found);
      segs, found := VisitSkip(skips[k], segs, found);
      PassFromVisit(skips, segs0, k, before, PassResult(segs, found));
    }
  }

  /** `filter_skips`: passes until one finds nothing. */
  method FilterSkips(skips: seq<string>, segs0: seq<string>) returns (segs: seq<string>)
    ensures segs == Filtered(skips, segs0)
  {
    segs := segs0;
    while true
      invariant Filtered(skips, segs) == Filtered(skips, segs0)
      decreases |segs|
    {
      ghost var before := segs;
      var found;
      segs, found := SkipPass(skips, segs);
      if found == 0 {
        PassNoMatches(skips, before);
        break;
      }
      PassFromShrinks(skips, before, |skips|);
      assert Filtered(skips, before) == Filtered(skips, segs);
    }
  }

  /** Skip string 的 against 你/的/书: the 的 is cut out. */
  lemma SkipScenario()
    ensures Filtered(["的"], ["你", "的", "书"]) == ["你", "书"]
  {
    var s: seq<string> := ["你", "的", "书"];
    assert PySlice("的", 0, 1) == "的";
    assert !ChunkFits("的", 0, "你");
    assert ScanFrom("的", s, 0, 0, 0) == None;
    assert ScanFrom("的", s, 1, 1, 0) == Some(1);
    assert ScanFrom("的", s, 2, 2, 0) == None;
    assert MatchesBefore("的", s, 1) == [];
    assert MatchesBefore("的", s, 2) == [Run(1, 1)];
    assert MatchesBefore("的", s, 3) == [Run(1, 1)];
    assert Matches("的", s) == [Run(1, 1)];
    assert Pass(["的"], s) == PassResult(["你", "书"], 1);
    var t: seq<string> := ["你", "书"];
    assert ScanFrom("的", t, 0, 0, 0) == None;
    assert ScanFrom("的", t, 1, 1, 0) == None;
    assert MatchesBefore("的", t, 1) == [];
    assert MatchesBefore("的", t, 2) == [];
    assert Matches("的", t) == [];
  }

  /** Overlapping runs as written: 哈哈 is reported at 0 and at 1 in
      哈/哈/哈/啊/吧; the second shifted start is -1, and the Python slices
      then keep 啊 twice, where the corrected loop leaves 哈/啊/吧. */
  lemma OverlappingRunsDuplicateTokens()
    ensures Matches("哈哈", ["哈", "哈", "哈", "啊", "吧"]) == [Run(0, 2), Run(1, 2)]
    ensures RemoveRunsAsWritten(["哈", "哈", "哈", "啊", "吧"], [Run(0, 2), Run(1, 2)], 0) == ["哈", "啊", "啊", "吧"]
    ensures RemoveMatches("哈哈", ["哈", "哈", "哈", "啊", "吧"]) == ["哈", "啊", "吧"]
  {
    var s: seq<string> := ["哈", "哈", "哈", "啊", "吧"];
    assert ScanFrom("哈哈", s, 0, 1, 1) == Some(2);
    assert ScanFrom("哈哈", s, 0, 0, 0) == Some(2);
    assert ScanFrom("哈哈", s, 1, 2, 1) == Some(2);
    assert ScanFrom("哈哈", s, 1, 1, 0) == Some(2);
    assert ScanFrom("哈哈", s, 2, 3, 1) == None;
    assert ScanFrom("哈哈", s, 2, 2, 0) == None;
    assert ScanFrom("哈哈", s, 3, 3, 0) == None;
    assert ScanFrom("哈哈", s, 4, 4, 0) == None;
    assert MatchesBefore("哈哈", s, 1) == [Run(0, 2)];
    assert MatchesBefore("哈哈", s, 2) == [Run(0, 2), Run(1, 2)];
    assert MatchesBefore("哈哈", s, 3) == [Run(0, 2), Run(1, 2)];
    assert MatchesBefore("哈哈", s, 4) == [Run(0, 2), Run(1, 2)];
    assert MatchesBefore("哈哈", s, 5) == [Run(0, 2), Run(1, 2)];
    assert Matches("哈哈", s) == [Run(0, 2), Run(1, 2)];
    assert PyCut(s, 0, 2) == ["哈", "啊", "吧"];
    assert PyCut(["哈", "啊", "吧"], -1, 1) == ["哈", "啊", "啊", "吧"];
  }

  /** Overlapping runs as written can lengthen the segment: 哈哈 is reported
      at 0 and at 1 in 哈/哈/哈/甲/乙/丙/丁; after the first cut the second
      shifted start is -1, and the Python slices then give eight tokens
      from seven, so a pass that found something grew the segment. */
  lemma OverlappingRunsLengthen()
    ensures Matches("哈哈", ["哈", "哈", "哈", "甲", "乙", "丙", "丁"]) == [Run(0, 2), Run(1, 2)]
    ensures RemoveRunsAsWritten(["哈", "哈", "哈", "甲", "乙", "丙", "丁"], [Run(0, 2), Run(1, 2)], 0) ==
              ["哈", "甲", "乙", "丙", "甲", "乙", "丙", "丁"]
  {
    var s: seq<string> := ["哈", "哈", "哈", "甲", "乙", "丙", "丁"];
    assert ScanFrom("哈哈", s, 0, 1, 1) == Some(2);
    assert ScanFrom("哈哈", s, 0, 0, 0) == Some(2);
    assert ScanFrom("哈哈", s, 1, 2, 1) == Some(2);
    assert ScanFrom("哈哈", s, 1, 1, 0) == Some(2);
    assert ScanFrom("哈哈", s, 2, 3, 1) == None;
    assert ScanFrom("哈哈", s, 2, 2, 0) == None;
    assert ScanFrom("哈哈", s, 3, 3, 0) == None;
    assert ScanFrom("哈哈", s, 4, 4, 0) == None;
    assert ScanFrom("哈哈", s, 5, 5, 0) == None;
    assert ScanFrom("哈哈", s, 6, 6, 0) == None;
    assert MatchesBefore("哈哈", s, 1) == [Run(0, 2)];
    assert MatchesBefore("哈哈", s, 2) == [Run(0, 2), Run(1, 2)];
    assert MatchesBefore("哈哈", s, 3) == [Run(0, 2), Run(1, 2)];
    assert MatchesBefore("哈哈", s, 4) == [Run(0, 2), Run(1, 2)];
    assert MatchesBefore("哈哈", s, 5) == [Run(0, 2), Run(1, 2)];
    assert MatchesBefore("哈哈", s, 6) == [Run(0, 2), Run(1, 2)];
    assert MatchesBefore("哈哈", s, 7) == [Run(0, 2), Run(1, 2)];
    assert PyCut(s, 0, 2) == ["哈", "甲", "乙", "丙", "丁"];
    assert PyCut(["哈", "甲", "乙", "丙", "丁"], -1, 1) == ["哈", "甲", "乙", "丙", "甲", "乙", "丙", "丁"];
  }
}
