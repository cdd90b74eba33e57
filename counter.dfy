/** `build_counts`: a window slides over the flattened token stream; at each
    position the token and the prefixes of the window's concatenation are
    collected as alternatives and counted in an insertion-ordered map. */
module Counter {
  import opened Common
  import opened Config
  import opened Lookup

  /** The entry `(count, (hsk2, hsk3, definition))` of a counted word. */
  datatype Entry = Entry(count: nat, meta: Meta)

  /** The OrderedDict `result`: its keys in insertion order, and its entries. */
  datatype Counts = Counts(order: seq<string>, entries: map<string, Entry>)

  /** The map's invariant: the order lists each key once, every count is at
      least one, and the metadata is the one looked up for the key. */
  ghost predicate Valid(c: Counts, lk: Lookups)
  {
    NoDup(c.order) && (forall w :: w in c.order <==> w in c.entries) &&
    forall w :: w in c.entries ==> c.entries[w].count >= 1 && c.entries[w].meta == MetaOf(lk, w)
  }

  /** How often `w` has been counted so far: 0 for a word not in the map. */
  function Count(c: Counts, w: string): nat
  {
    if w in c.entries then c.entries[w].count else 0
  }

  /** `result[w] = entry`: a new key goes to the end of the order, an old
      one keeps its place. */
  function Put(c: Counts, w: string, e: Entry): Counts
  {
    Counts(if w in c.entries then c.order else c.order + [w], c.entries[w := e])
  }

  /** Storing a valid entry keeps the map valid and changes only the count
      of `w`; the keys already there keep their places. */
  lemma PutSpec(c: Counts, lk: Lookups, w: string, e: Entry)
    requires Valid(c, lk) && e.count >= 1 && e.meta == MetaOf(lk, w)
    ensures Valid(Put(c, w, e), lk)
    ensures forall v :: Count(Put(c, w, e), v) == if v == w then e.count else Count(c, v)
    ensures c.order <= Put(c, w, e).order
  {
    var r := Put(c, w, e);
    if w !in c.entries {
      forall i, j | 0 <= i < j < |r.order|
        ensures r.order[i] != r.order[j]
      {
        if j == |c.order| {
          assert r.order[i] == c.order[i];
          assert c.order[i] in c.order;
        }
      }
    }
  }

  /** `tuple(w for ws in segslist for w in ws)`. */
  function Flatten(segslist: seq<seq<string>>): seq<string>
  {
    if segslist == [] then [] else Flatten(segslist[..|segslist| - 1]) + segslist[|segslist| - 1]
  }

  /** The window `"".join(flattened[idx : idx + try_alts])`. */
  function Window(cfg: Config, flat: seq<string>, idx: nat): string
    requires idx < |flat|
  {
    Concat(flat[idx..Min(idx + cfg.tryAlternatives, |flat|)])
  }

  /** The end of the prefix range, `min(len(chunk), length_max)`. */
  function Upper(cfg: Config, flat: seq<string>, idx: nat): int
    requires idx < |flat|
  {
    Min(|Window(cfg, flat, idx)|, cfg.lengthMax)
  }

  /** The prefix step for length `l` counts: the prefix is long enough and
      is not a skip string. */
  predicate Counted(cfg: Config, chunk: string, l: nat)
    requires l <= |chunk|
  {
    !(|chunk[..l]| < cfg.lengthMin || chunk[..l] in cfg.skipSequences)
  }

  /** `w` is in `alts` once the prefix steps below `l` have run: it is the
      token, or a prefix of the window that a step below `l` added. */
  predicate InAltsBefore(cfg: Config, token: string, chunk: string, w: string, l: int)
  {
    w == token ||
    (cfg.lengthMin <= |w| < l && |w| <= |chunk| && chunk[..|w|] == w && w !in cfg.skipSequences)
  }

  /** What the prefix steps below `l` add to the count of `w`: every step
      that counts adds one to every alternative collected so far that is
      long enough. */
  function HitsUpTo(cfg: Config, token: string, chunk: string, w: string, l: int): nat
    requires l <= cfg.lengthMin || l <= |chunk|
    decreases l
  {
    if l <= cfg.lengthMin then 0
    else
      HitsUpTo(cfg, token, chunk, w, l - 1) +
      (if Counted(cfg, chunk, l - 1) && |w| >= cfg.lengthMin && InAltsBefore(cfg, token, chunk, w, l) then 1 else 0)
  }

  /** What position `idx` adds to the count of `w`. */
  function Hits(cfg: Config, flat: seq<string>, idx: nat, w: string): nat
    requires idx < |flat|
  {
    HitsUpTo(cfg, flat[idx], Window(cfg, flat, idx), w, Upper(cfg, flat, idx))
  }

  /** The count of `w` once the positions `0..n` have been visited. */
  function OccBefore(cfg: Config, flat: seq<string>, n: nat, w: string): nat
    requires n <= |flat|
  {
    if n == 0 then 0 else OccBefore(cfg, flat, n - 1, w) + Hits(cfg, flat, n - 1, w)
  }

  /** The count `build_counts` reports for `w`. */
  function Occurrences(cfg: Config, flat: seq<string>, w: string): nat
  {
    OccBefore(cfg, flat, |flat|, w)
  }

  /** `alts.add(w)`. */
  function AddAlt(alts: seq<string>, w: string): seq<string>
  {
    if w in alts then alts else alts + [w]
  }

  /** The innermost loop (`for widx, w in enumerate(alts)`): every
      alternative that is long enough is counted once more, and a new one
      enters the map with count 1 and its metadata. */
  method CountAlts(lk: Lookups, lenMin: nat, alts: seq<string>, c0: Counts) returns (c: Counts)
    requires Valid(c0, lk) && NoDup(alts)
    ensures Valid(c, lk) && c0.order <= c.order
    ensures forall w :: Count(c, w) == Count(c0, w) + (if w in alts && |w| >= lenMin then 1 else 0)
  {
    c := c0;
    for widx := 0 to |alts|
      invariant Valid(c, lk) && c0.order <= c.order
      invariant forall w :: Count(c, w) == Count(c0, w) + (if w in alts[..widx] && |w| >= lenMin then 1 else 0)
    {
      ghost var cPrev := c;
      c := CountAlt(lk, lenMin, alts[widx], c);
      PrefixTrans(c0.order, cPrev.order, c.order);
      CountAltsStep(lenMin, alts, widx, c0, cPrev, c);
    }
    assert alts[..|alts|] == alts;
  }

  /** The body of the innermost loop for one alternative `w`. */
  method CountAlt(lk: Lookups, lenMin: nat, w: string, c0: Counts) returns (c: Counts)
    requires Valid(c0, lk)
    ensures Valid(c, lk) && c0.order <= c.order
    ensures forall v :: Count(c, v) == Count(c0, v) + (if v == w && |w| >= lenMin then 1 else 0)
  {
    if |w| < lenMin {
      return c0;
    }
    var entry: Entry;
    if w !in c0.entries {
      entry := Entry(1, MetaOf(lk, w));
    } else {
      entry := Entry(c0.entries[w].count + 1, c0.entries[w].meta);
    }
    PutSpec(c0, lk, w, entry);
    c := Put(c0, w, entry);
  }

  /** One alternative of the innermost loop, on the counts. */
  lemma CountAltsStep(lenMin: nat, alts: seq<string>, widx: nat, c0: Counts, cPrev: Counts, c: Counts)
    requires widx < |alts| && NoDup(alts)
    requires forall v :: Count(cPrev, v) == Count(c0, v) + (if v in alts[..widx] && |v| >= lenMin then 1 else 0)
    requires forall v :: Count(c, v) == Count(cPrev, v) + (if v == alts[widx] && |v| >= lenMin then 1 else 0)
    ensures forall v :: Count(c, v) == Count(c0, v) + (if v in alts[..widx + 1] && |v| >= lenMin then 1 else 0)
  {
    assert alts[..widx + 1] == alts[..widx] + [alts[widx]];
    assert alts[widx] !in alts[..widx];
  }

  lemma AddAltSpec(alts: seq<string>, w: string)
    requires NoDup(alts)
    ensures NoDup(AddAlt(alts, w))
    ensures forall v :: v in AddAlt(alts, w) <==> v in alts || v == w
  {
  }

  /** One prefix step, on the alternatives and on the counts it adds. */
  lemma PrefixStep(cfg: Config, token: string, chunk: string, l: nat, w: string)
    requires cfg.lengthMin <= l < |chunk|
    ensures InAltsBefore(cfg, token, chunk, w, l + 1) <==>
              InAltsBefore(cfg, token, chunk, w, l) || (Counted(cfg, chunk, l) && w == chunk[..l])
    ensures HitsUpTo(cfg, token, chunk, w, l + 1) ==
              HitsUpTo(cfg, token, chunk, w, l) +
              (if Counted(cfg, chunk, l) && |w| >= cfg.lengthMin && InAltsBefore(cfg, token, chunk, w, l + 1) then 1 else 0)
  {
  }

  /** The body of the prefix loop for one length `altlen`: the prefix of
      that length joins the alternatives and every alternative is counted,
      unless the prefix is too short or a skip string. */
  method CountPrefix(cfg: Config, lk: Lookups, token: string, chunk: string, altlen: nat,
                     alts0: seq<string>, c1: Counts, ghost c0: Counts) returns (alts: seq<string>, c: Counts)
    requires cfg.lengthMin <= altlen < |chunk|
    requires NoDup(alts0) && forall w :: w in alts0 <==> InAltsBefore(cfg, token, chunk, w, altlen)
    requires Valid(c1, lk) && c0.order <= c1.order
    requires forall w :: Count(c1, w) == Count(c0, w) + HitsUpTo(cfg, token, chunk, w, altlen)
    ensures NoDup(alts) && forall w :: w in alts <==> InAltsBefore(cfg, token, chunk, w, altlen + 1)
    ensures Valid(c, lk) && c0.order <= c.order
    ensures forall w :: Count(c, w) == Count(c0, w) + HitsUpTo(cfg, token, chunk, w, altlen + 1)
  {
    var lenMin := cfg.lengthMin;
    alts, c := alts0, c1;
    var curralt := chunk[..altlen];
    if |curralt| < lenMin || curralt in cfg.skipSequences {
      forall w
        ensures InAltsBefore(cfg, token, chunk, w, altlen + 1) == InAltsBefore(cfg, token, chunk, w, altlen)
        ensures HitsUpTo(cfg, token, chunk, w, altlen + 1) == HitsUpTo(cfg, token, chunk, w, altlen)
      {
        PrefixStep(cfg, token, chunk, altlen, w);
      }
      return;
    }
    AddAltSpec(alts, curralt);
    alts := AddAlt(alts, curralt);
    c := CountAlts(lk, lenMin, alts, c);
    forall w
      ensures w in alts <==> InAltsBefore(cfg, token, chunk, w, altlen + 1)
      ensures Count(c, w) == Count(c0, w) + HitsUpTo(cfg, token, chunk, w, altlen + 1)
    {
      PrefixStep(cfg, token, chunk, altlen, w);
      assert Count(c1, w) == Count(c0, w) + HitsUpTo(cfg, token, chunk, w, altlen);
    }
  }

  /** The prefix loop at one position (`for altlen in range(...)`): the
      window's prefixes from `length_min` up to `min(len(chunk), length_max)`,
      each one that counts joining `alts` and counting every alternative. */
  method CountPosition(cfg: Config, lk: Lookups, flat: seq<string>, idx: nat, c0: Counts) returns (c: Counts)
    requires idx < |flat| && Valid(c0, lk)
    ensures Valid(c, lk) && c0.order <= c.order
    ensures forall w :: Count(c, w) == Count(c0, w) + Hits(cfg, flat, idx, w)
  {
    var lenMin := cfg.lengthMin;
    var chunk := Concat(PySlice(flat, idx, idx + cfg.tryAlternatives));
    assert chunk == Window(cfg, flat, idx);
    var token := flat[idx];
    var alts := [token];
    var upper := Min(|chunk|, cfg.lengthMax);
    var altlen := lenMin;
    c := c0;
    while altlen < upper
      invariant lenMin <= altlen && (altlen <= upper || altlen == lenMin)
      invariant NoDup(alts) && forall w :: w in alts <==> InAltsBefore(cfg, token, chunk, w, altlen)
      invariant Valid(c, lk) && c0.order <= c.order
      invariant forall w :: Count(c, w) == Count(c0, w) + HitsUpTo(cfg, token, chunk, w, altlen)
      decreases upper - altlen
    {
      alts, c := CountPrefix(cfg, lk, token, chunk, altlen, alts, c, c0);
      altlen := altlen + 1;
    }
  }

  /** `build_counts`: every position of the flattened stream in turn. The
      count of every word is the one `Occurrences` gives, a word is a key
      exactly when that count is positive, and its metadata is the one
      looked up for it. */
  method BuildCounts(cfg: Config, lk: Lookups, segslist: seq<seq<string>>) returns (result: Counts)
    ensures Valid(result, lk)
    ensures forall w :: Count(result, w) == Occurrences(cfg, Flatten(segslist), w)
    ensures forall w :: w in result.entries <==> Occurrences(cfg, Flatten(segslist), w) > 0
    ensures forall w :: w in result.entries ==>
              result.entries[w] == Entry(Occurrences(cfg, Flatten(segslist), w), MetaOf(lk, w))
  {
    result := Counts([], map[]);
    var flattened := Flatten(segslist);
    for idx := 0 to |flattened|
      invariant Valid(result, lk)
      invariant forall w :: Count(result, w) == OccBefore(cfg, flattened, idx, w)
    {
      result := CountPosition(cfg, lk, flattened, idx, result);
    }
  }

  /** A position adds to the count of `w` only when its prefix range is not
      empty, `w` is long enough, and `w` is the token there or a prefix of
      the window shorter than the end of the range that is not a skip
      string. In particular a position whose range is empty counts
      nothing, not even its own token. */
  lemma {:induction false} HitsUpToShape(cfg: Config, token: string, chunk: string, w: string, l: int)
    requires l <= cfg.lengthMin || l <= |chunk|
    ensures HitsUpTo(cfg, token, chunk, w, l) > 0 ==>
              cfg.lengthMin < l && |w| >= cfg.lengthMin && InAltsBefore(cfg, token, chunk, w, l)
    decreases l
  {
    if l > cfg.lengthMin {
      HitsUpToShape(cfg, token, chunk, w, l - 1);
    }
  }

  lemma HitsShape(cfg: Config, flat: seq<string>, idx: nat, w: string)
    requires idx < |flat|
    ensures Hits(cfg, flat, idx, w) > 0 ==>
              cfg.lengthMin < Upper(cfg, flat, idx) && |w| >= cfg.lengthMin &&
              (w == flat[idx] ||
               (|w| < Upper(cfg, flat, idx) && Window(cfg, flat, idx)[..|w|] == w && w !in cfg.skipSequences))
  {
    HitsUpToShape(cfg, flat[idx], Window(cfg, flat, idx), w, Upper(cfg, flat, idx));
  }

  lemma {:induction false} OccBeforeSome(cfg: Config, flat: seq<string>, n: nat, w: string)
    requires n <= |flat| && OccBefore(cfg, flat, n, w) > 0
    ensures exists idx :: 0 <= idx < n && Hits(cfg, flat, idx, w) > 0
  {
    if Hits(cfg, flat, n - 1, w) == 0 {
      OccBeforeSome(cfg, flat, n - 1, w);
    }
  }

  /** Every counted word is at least `length_min` long and starts at a token
      boundary: it is a flattened token, or a prefix of some position's
      window, shorter than `min(len(chunk), length_max)`, that is not a skip
      string. */
  lemma CountedWordShape(cfg: Config, flat: seq<string>, w: string)
    requires Occurrences(cfg, flat, w) > 0
    ensures |w| >= cfg.lengthMin
    ensures exists idx :: 0 <= idx < |flat| &&
              (w == flat[idx] ||
               (cfg.lengthMin <= |w| < Upper(cfg, flat, idx) &&
                Window(cfg, flat, idx)[..|w|] == w && w !in cfg.skipSequences))
  {
    OccBeforeSome(cfg, flat, |flat|, w);
    var idx :| 0 <= idx < |flat| && Hits(cfg, flat, idx, w) > 0;
    HitsShape(cfg, flat, idx, w);
  }

  /** How many prefix steps in `lo..hi` count. */
  function CountedBetween(cfg: Config, chunk: string, lo: int, hi: int): nat
    requires 0 <= lo && (hi <= lo || hi <= |chunk|)
    decreases hi - lo
  {
    if hi <= lo then 0
    else CountedBetween(cfg, chunk, lo, hi - 1) + (if Counted(cfg, chunk, hi - 1) then 1 else 0)
  }

  /** The nesting of the counting loop inside the prefix loop, in closed
      form: the token is counted once for every step that counts, and a
      prefix once for its own step and once for every later step that
      counts. */
  lemma {:induction false} HitsUpToClosed(cfg: Config, token: string, chunk: string, w: string, l: int)
    requires l <= cfg.lengthMin || l <= |chunk|
    ensures HitsUpTo(cfg, token, chunk, w, l) ==
              if |w| < cfg.lengthMin then 0
              else if w == token then CountedBetween(cfg, chunk, cfg.lengthMin, l)
              else if InAltsBefore(cfg, token, chunk, w, l) then CountedBetween(cfg, chunk, |w|, l)
              else 0
    decreases l
  {
    if l > cfg.lengthMin {
      HitsUpToClosed(cfg, token, chunk, w, l - 1);
      if |w| >= cfg.lengthMin && w != token && InAltsBefore(cfg, token, chunk, w, l) {
        if |w| == l - 1 {
          assert chunk[..l - 1] == w;
          assert Counted(cfg, chunk, l - 1);
          assert CountedBetween(cfg, chunk, |w|, l - 1) == 0;
        }
      }
    }
  }

  /** The worked example: tokens 我/喜欢/学习/中文 with `length_min` 2,
      `length_max` 4, `try_alternatives` 2 and no skip strings. */
  function ExampleConfig(): Config
  {
    Config(false, {}, {}, 1, 9, 1, 9, 0, 0, 2, 4, 1, 9999999, 2, [])
  }

  function ExampleTokens(): seq<string>
  {
    ["我", "喜欢", "学习", "中文"]
  }

  lemma ExampleWindows()
    ensures Window(ExampleConfig(), ExampleTokens(), 0) == "我喜欢"
    ensures Window(ExampleConfig(), ExampleTokens(), 1) == "喜欢学习"
    ensures Window(ExampleConfig(), ExampleTokens(), 2) == "学习中文"
    ensures Window(ExampleConfig(), ExampleTokens(), 3) == "中文"
  {
    var flat := ExampleTokens();
    ConcatSingle("我");
    ConcatSingle("喜欢");
    ConcatSingle("学习");
    ConcatSingle("中文");
    ConcatSplit(["我"], ["喜欢"]);
    ConcatSplit(["喜欢"], ["学习"]);
    ConcatSplit(["学习"], ["中文"]);
    assert flat[0..2] == ["我"] + ["喜欢"];
    assert flat[1..3] == ["喜欢"] + ["学习"];
    assert flat[2..4] == ["学习"] + ["中文"];
    assert flat[3..4] == ["中文"];
  }

  /** Position 0: window 我喜欢, range(2, 3): only 我喜 is counted. */
  lemma ExampleHits0(w: string)
    ensures Hits(ExampleConfig(), ExampleTokens(), 0, w) == if w == "我喜" then 1 else 0
  {
    var cfg, flat := ExampleConfig(), ExampleTokens();
    ExampleWindows();
    var chunk := "我喜欢";
    assert chunk[..2] == "我喜";
    HitsUpToClosed(cfg, flat[0], chunk, w, 3);
    assert CountedBetween(cfg, chunk, 2, 3) == 1;
  }

  /** Positions 1 and 2: window of four characters, range(2, 4): the token
      is counted at both steps and the three-character prefix at one. */
  lemma ExampleHitsMiddle(idx: nat, w: string)
    requires idx == 1 || idx == 2
    ensures var t := ExampleTokens()[idx];
            var p := if idx == 1 then "喜欢学" else "学习中";
            Hits(ExampleConfig(), ExampleTokens(), idx, w) == if w == t then 2 else if w == p then 1 else 0
  {
    var cfg, flat := ExampleConfig(), ExampleTokens();
    ExampleWindows();
    var chunk := Window(cfg, flat, idx);
    var t := flat[idx];
    assert |chunk| == 4;
    assert chunk[..2] == t;
    assert chunk[..3] == if idx == 1 then "喜欢学" else "学习中";
    HitsUpToClosed(cfg, t, chunk, w, 4);
    assert CountedBetween(cfg, chunk, 2, 4) == 2;
    assert CountedBetween(cfg, chunk, 3, 4) == 1;
  }

  /** Position 3: window 中文, range(2, 2) is empty, so nothing is counted. */
  lemma ExampleHits3(w: string)
    ensures Hits(ExampleConfig(), ExampleTokens(), 3, w) == 0
  {
    ExampleWindows();
  }

  /** The counts of the worked example: 我喜:1, 喜欢:2, 喜欢学:1, 学习:2 and
      学习中:1, and no other word; 中文 is never recorded. */
  lemma WorkedExample(w: string)
    ensures var cfg, flat := ExampleConfig(), ExampleTokens();
            Occurrences(cfg, flat, w) ==
              if w == "我喜" || w == "喜欢学" || w == "学习中" then 1
              else if w == "喜欢" || w == "学习" then 2
              else 0
  {
    var cfg, flat := ExampleConfig(), ExampleTokens();
    ExampleHits0(w);
    ExampleHitsMiddle(1, w);
    ExampleHitsMiddle(2, w);
    ExampleHits3(w);
    assert OccBefore(cfg, flat, 1, w) == Hits(cfg, flat, 0, w);
    assert OccBefore(cfg, flat, 2, w) == OccBefore(cfg, flat, 1, w) + Hits(cfg, flat, 1, w);
    assert OccBefore(cfg, flat, 3, w) == OccBefore(cfg, flat, 2, w) + Hits(cfg, flat, 2, w);
    assert OccBefore(cfg, flat, 4, w) == OccBefore(cfg, flat, 3, w) + Hits(cfg, flat, 3, w);
    assert "我喜"[0] != "喜欢"[0] && "我喜"[0] != "学习"[0] && "喜欢"[0] != "学习"[0];
  }
}
