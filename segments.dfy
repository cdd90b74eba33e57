/** The token cleaning of `get_segs`: the segmenter's output, one sequence
    of tokens per sentence chunk, becomes the segments the counter reads. */
module Segments {
  import opened Common
  import opened Text
  import opened SkipFilter

  /** The test of the generator expression: a stripped token is kept when it
      is non-empty, not made only of punctuation, and not all ASCII. */
  predicate Keep(w: string)
  {
    w != "" && !IsAllPunct(w) && !IsAscii(w)
  }

  /** Every token of the chunk, stripped. */
  function Stripped(chunk: seq<string>): seq<string>
  {
    if chunk == [] then [] else Stripped(chunk[..|chunk| - 1]) + [Strip(chunk[|chunk| - 1])]
  }

  /** The generator expression: strip every token, keep those that pass `Keep`. */
  function CleanTokens(chunk: seq<string>): seq<string>
  {
    if chunk == [] then []
    else
      var w := Strip(chunk[|chunk| - 1]);
      CleanTokens(chunk[..|chunk| - 1]) + (if Keep(w) then [w] else [])
  }

  /** A token survives cleaning exactly when it is the stripped form of one
      of the chunk's tokens and passes `Keep`. */
  lemma {:induction false} CleanTokensExact(chunk: seq<string>, t: string)
    ensures t in CleanTokens(chunk) <==> Keep(t) && exists i :: 0 <= i < |chunk| && t == Strip(chunk[i])
  {
    if chunk != [] {
      var init := chunk[..|chunk| - 1];
      CleanTokensExact(init, t);
      if exists i :: 0 <= i < |chunk| && t == Strip(chunk[i]) {
        var i :| 0 <= i < |chunk| && t == Strip(chunk[i]);
        if i < |init| {
          assert t == Strip(init[i]);
        }
      }
      if exists i :: 0 <= i < |init| && t == Strip(init[i]) {
        var i :| 0 <= i < |init| && t == Strip(init[i]);
        assert t == Strip(chunk[i]);
      }
    }
  }

  /** Cleaning only drops tokens: the result is a subsequence of the
      stripped chunk, so nothing is reordered. */
  lemma {:induction false} CleanTokensOrder(chunk: seq<string>)
    ensures IsSubseq(CleanTokens(chunk), Stripped(chunk))
  {
    if chunk == [] {
      SubseqRefl<string>([]);
    } else {
      var init := chunk[..|chunk| - 1];
      var w := Strip(chunk[|chunk| - 1]);
      CleanTokensOrder(init);
      SubseqAppend(CleanTokens(init), Stripped(init), w);
      if Keep(w) {
        assert CleanTokens(chunk) == CleanTokens(init) + [w];
      } else {
        assert CleanTokens(chunk) == CleanTokens(init);
      }
    }
  }

  /** One chunk after cleaning and `filter_skips`. */
  function CleanSegment(skips: seq<string>, chunk: seq<string>): seq<string>
  {
    Filtered(skips, CleanTokens(chunk))
  }

  /** Everything promised of a segment: its tokens are stripped, non-empty,
      not all punctuation and not all ASCII, they come from the chunk in
      its order, and no skip string is found in it. */
  lemma CleanSegmentSpec(skips: seq<string>, chunk: seq<string>)
    ensures forall t :: t in CleanSegment(skips, chunk) ==> Keep(t) && Strip(t) == t
    ensures IsSubseq(CleanSegment(skips, chunk), Stripped(chunk))
    ensures NoSkipMatches(skips, CleanSegment(skips, chunk))
  {
    var c := CleanTokens(chunk);
    FilteredOnlyRemoves(skips, c);
    CleanTokensOrder(chunk);
    SubseqTrans(CleanSegment(skips, chunk), c, Stripped(chunk));
    FilteredHasNoSkips(skips, c);
    forall t | t in CleanSegment(skips, chunk)
      ensures Keep(t) && Strip(t) == t
    {
      SubseqMember(CleanSegment(skips, chunk), c, t);
      CleanTokensExact(chunk, t);
      var i :| 0 <= i < |chunk| && t == Strip(chunk[i]);
      StripIdempotent(chunk[i]);
    }
  }

  /** The segment a chunk contributes: none for an empty chunk or an empty
      cleaned segment. */
  function SegmentOf(skips: seq<string>, chunk: seq<string>): seq<seq<string>>
  {
    if chunk == [] then []
    else
      var f := CleanSegment(skips, chunk);
      if f == [] then [] else [f]
  }

  /** The result of `get_segs` for the segmenter's output `chunks`. */
  function Segs(skips: seq<string>, chunks: seq<seq<string>>): seq<seq<string>>
  {
    if chunks == [] then [] else Segs(skips, chunks[..|chunks| - 1]) + SegmentOf(skips, chunks[|chunks| - 1])
  }

  /** An empty chunk cleans to an empty segment, so only a non-empty
      cleaned segment is ever contributed. */
  lemma SegmentOfExact(skips: seq<string>, chunk: seq<string>, s: seq<string>)
    ensures s in SegmentOf(skips, chunk) <==> s != [] && s == CleanSegment(skips, chunk)
  {
    if chunk == [] {
      assert CleanTokens(chunk) == [];
      FilteredEmpty(skips);
    }
  }

  /** Every chunk cleaned, empty or not. */
  function Cleaned(skips: seq<string>, chunks: seq<seq<string>>): seq<seq<string>>
  {
    if chunks == [] then [] else Cleaned(skips, chunks[..|chunks| - 1]) + [CleanSegment(skips, chunks[|chunks| - 1])]
  }

  /** `Cleaned` is `CleanSegment` applied to every chunk. */
  lemma {:induction false} CleanedIndex(skips: seq<string>, chunks: seq<seq<string>>)
    ensures |Cleaned(skips, chunks)| == |chunks|
    ensures forall k :: 0 <= k < |chunks| ==> Cleaned(skips, chunks)[k] == CleanSegment(skips, chunks[k])
  {
    if chunks != [] {
      var init := chunks[..|chunks| - 1];
      CleanedIndex(skips, init);
      forall k | 0 <= k < |chunks|
        ensures Cleaned(skips, chunks)[k] == CleanSegment(skips, chunks[k])
      {
        if k < |init| {
          assert Cleaned(skips, chunks)[k] == Cleaned(skips, init)[k];
          assert chunks[k] == init[k];
        }
      }
    }
  }

  /** The segments are exactly the non-empty cleaned chunks. */
  lemma {:induction false} SegsExact(skips: seq<string>, chunks: seq<seq<string>>, s: seq<string>)
    ensures s in Segs(skips, chunks) <==> s != [] && s in Cleaned(skips, chunks)
  {
    if chunks != [] {
      var init := chunks[..|chunks| - 1];
      var last := chunks[|chunks| - 1];
      SegsExact(skips, init, s);
      SegmentOfExact(skips, last, s);
      assert Segs(skips, chunks) == Segs(skips, init) + SegmentOf(skips, last);
      assert Cleaned(skips, chunks) == Cleaned(skips, init) + [CleanSegment(skips, last)];
    }
  }

  /** Every kept segment is non-empty, and all its tokens are clean. */
  lemma SegsClean(skips: seq<string>, chunks: seq<seq<string>>, s: seq<string>, t: string)
    requires s in Segs(skips, chunks) && t in s
    ensures s != [] && Keep(t) && Strip(t) == t
    ensures NoSkipMatches(skips, s)
  {
    SegsExact(skips, chunks, s);
    CleanedIndex(skips, chunks);
    var k :| 0 <= k < |chunks| && Cleaned(skips, chunks)[k] == s;
    CleanSegmentSpec(skips, chunks[k]);
  }

  /** `get_segs` after the segmenter has run: clean each chunk, filter the
      skip strings out and keep the segments that are left non-empty. */
  method GetSegs(skips: seq<string>, segmented: seq<seq<string>>) returns (result: seq<seq<string>>)
    ensures result == Segs(skips, segmented)
  {
    result := [];
    for i := 0 to |segmented|
      invariant result == Segs(skips, segmented[..i])
    {
      var chunk := segmented[i];
      assert segmented[..i + 1][..i] == segmented[..i];
      if chunk == [] {
        continue;
      }
      var filtered := CleanTokens(chunk);
      filtered := FilterSkips(skips, filtered);
      if filtered == [] {
        continue;
      }
      result := result + [filtered];
    }
    assert segmented[..|segmented|] == segmented;
  }
}
