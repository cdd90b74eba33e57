/** `check_characters` and its global `CHAR_CACHE`: a word passes when its
    characters reach the per-character minimum levels. */
module CharGate {
  import opened Common
  import opened Config
  import opened Lookup

  /** Both minimums below 1 switch the check off. */
  predicate Disabled(cfg: Config)
  {
    cfg.hsk2MinChar < 1 && cfg.hsk3MinChar < 1
  }

  /** The HSK 2 and HSK 3 halves of the test on one character's levels: an
      unclassified level (0) passes, as does one at or above the minimum. */
  predicate Ok2(cfg: Config, lv: Levels)
  {
    lv.hsk2 == 0 || lv.hsk2 >= cfg.hsk2MinChar
  }

  predicate Ok3(cfg: Config, lv: Levels)
  {
    lv.hsk3 == 0 || lv.hsk3 >= cfg.hsk3MinChar
  }

  /** What `check_characters(w)` returns as written: the cache is keyed by
      the word, so every iteration of its loop sees the levels of the first
      character, and the answer depends on that character alone. */
  predicate GateAsWritten(cfg: Config, lk: Lookups, w: string)
  {
    Disabled(cfg) || (|w| > 0 && Ok2(cfg, CharLevels(lk, w[0])) && Ok3(cfg, CharLevels(lk, w[0])))
  }

  /** Some of the first `n` characters of `w` pass the HSK 2 test. */
  predicate SomeOk2(cfg: Config, lk: Lookups, w: string, n: nat)
    requires n <= |w|
  {
    exists j :: 0 <= j < n && Ok2(cfg, CharLevels(lk, w[j]))
  }

  /** Some of the first `n` characters of `w` pass the HSK 3 test. */
  predicate SomeOk3(cfg: Config, lk: Lookups, w: string, n: nat)
    requires n <= |w|
  {
    exists j :: 0 <= j < n && Ok3(cfg, CharLevels(lk, w[j]))
  }

  /** What the loop over the characters evidently means, and what the help
      text of the minimum-character options promises: some character of
      the word passes the HSK 2 test and some character passes the HSK 3
      test. */
  predicate GateIntended(cfg: Config, lk: Lookups, w: string)
  {
    Disabled(cfg) || (SomeOk2(cfg, lk, w, |w|) && SomeOk3(cfg, lk, w, |w|))
  }

  /** `CHAR_CACHE` together with the level tables it caches. */
  class CharCache {
    const lookups: Lookups
    var cache: map<string, Levels>

    /** Every cached entry holds the levels of the first character of its key. */
    ghost predicate Valid()
      reads this
    {
      forall k :: k in cache ==> |k| >= 1 && cache[k] == CharLevels(lookups, k[0])
    }

    constructor(lk: Lookups)
      ensures lookups == lk && cache == map[] && Valid()
    {
      lookups := lk;
      cache := map[];
    }

    /** `check_characters(w)` as written, cache keyed by `w`. The cache gains
        the entry for `w` (the levels of `w[0]`) once the check runs on a
        non-empty word. */
    method CheckAsWritten(cfg: Config, w: string) returns (ok: bool)
      requires Valid()
      modifies this
      ensures Valid()
      ensures ok == GateAsWritten(cfg, lookups, w)
      ensures cache == if !Disabled(cfg) && |w| > 0 then old(cache)[w := CharLevels(lookups, w[0])] else old(cache)
    {
      if cfg.hsk2MinChar < 1 && cfg.hsk3MinChar < 1 {
        return true;
      }
      var h2Ok, h3Ok := false, false;
      for i := 0 to |w|
        invariant Valid()
        invariant i == 0 ==> cache == old(cache) && !h2Ok && !h3Ok
        invariant i > 0 ==> cache == old(cache)[w := CharLevels(lookups, w[0])] &&
                            h2Ok == Ok2(cfg, CharLevels(lookups, w[0])) &&
                            h3Ok == Ok3(cfg, CharLevels(lookups, w[0])) && !(h2Ok && h3Ok)
      {
        var c := w[i];
        var entry: Levels;
        if w in cache {
          entry := cache[w];
        } else {
          entry := CharLevels(lookups, c);
          cache := cache[w := entry];
        }
        h2Ok := h2Ok || entry.hsk2 == 0 || entry.hsk2 >= cfg.hsk2MinChar;
        h3Ok := h3Ok || entry.hsk3 == 0 || entry.hsk3 >= cfg.hsk3MinChar;
        if h2Ok && h3Ok {
          return true;
        }
      }
      return false;
    }

    /** `check_characters(w)` with the cache keyed by the character, as the
        loop intends. The cache only gains entries for characters of `w`. */
    method CheckCharacters(cfg: Config, w: string) returns (ok: bool)
      requires Valid()
      modifies this
      ensures Valid()
      ensures ok == GateIntended(cfg, lookups, w)
      ensures forall k :: k in old(cache) ==> k in cache
      ensures forall k :: k in cache ==> k in old(cache) || (|k| == 1 && k[0] in w)
    {
      if cfg.hsk2MinChar < 1 && cfg.hsk3MinChar < 1 {
        return true;
      }
      var h2Ok, h3Ok := false, false;
      for i := 0 to |w|
        invariant Valid()
        invariant forall k :: k in old(cache) ==> k in cache
        invariant forall k :: k in cache ==> k in old(cache) || (|k| == 1 && k[0] in w)
        invariant h2Ok == SomeOk2(cfg, lookups, w, i)
        invariant h3Ok == SomeOk3(cfg, lookups, w, i)
        invariant !(h2Ok && h3Ok)
      {
        var c := w[i];
        var key := [c];
        var entry: Levels;
        if key in cache {
          entry := cache[key];
        } else {
          entry := CharLevels(lookups, c);
          cache := cache[key := entry];
        }
        assert entry == CharLevels(lookups, w[i]);
        SomeCharStep(cfg, lookups, w, i);
        h2Ok := h2Ok || entry.hsk2 == 0 || entry.hsk2 >= cfg.hsk2MinChar;
        h3Ok := h3Ok || entry.hsk3 == 0 || entry.hsk3 >= cfg.hsk3MinChar;
        if h2Ok && h3Ok {
          SomeGrows(cfg, lookups, w, i + 1, |w|);
          return true;
        }
      }
      return false;
    }
  }

  /** One more character of the word either passes a test or leaves the
      answer of the characters before it unchanged. */
  lemma SomeCharStep(cfg: Config, lk: Lookups, w: string, i: nat)
    requires i < |w|
    ensures SomeOk2(cfg, lk, w, i + 1) == (SomeOk2(cfg, lk, w, i) || Ok2(cfg, CharLevels(lk, w[i])))
    ensures SomeOk3(cfg, lk, w, i + 1) == (SomeOk3(cfg, lk, w, i) || Ok3(cfg, CharLevels(lk, w[i])))
  {
  }

  /** A character found among the first `n` is found among the first `m >= n`. */
  lemma SomeGrows(cfg: Config, lk: Lookups, w: string, n: nat, m: nat)
    requires n <= m <= |w|
    ensures SomeOk2(cfg, lk, w, n) ==> SomeOk2(cfg, lk, w, m)
    ensures SomeOk3(cfg, lk, w, n) ==> SomeOk3(cfg, lk, w, m)
  {
  }

  /** With the check switched on, the empty word never passes. */
  lemma EmptyWordFails(cfg: Config, lk: Lookups)
    requires !Disabled(cfg)
    ensures !GateAsWritten(cfg, lk, "") && !GateIntended(cfg, lk, "")
  {
  }

  /** The check as written is stricter than the intended one: it can only
      reject more words. On one-character words the two agree. */
  lemma AsWrittenStricter(cfg: Config, lk: Lookups, w: string)
    ensures GateAsWritten(cfg, lk, w) ==> GateIntended(cfg, lk, w)
    ensures |w| == 1 ==> (GateAsWritten(cfg, lk, w) <==> GateIntended(cfg, lk, w))
  {
    if |w| > 0 && GateAsWritten(cfg, lk, w) && !Disabled(cfg) {
      assert Ok2(cfg, CharLevels(lk, w[0]));
      assert Ok3(cfg, CharLevels(lk, w[0]));
    }
  }

  /** A word whose second character reaches the HSK 2 minimum but whose
      first does not: the check as written rejects it. */
  lemma FirstCharacterOnly()
    ensures var cfg := Config(false, {}, {}, 1, 9, 1, 9, 3, 0, 2, 5, 1, 9999999, 4, []);
            var lk := Lookups(s => if s == "难" then Some(5) else Some(1), s => None, s => None);
            !GateAsWritten(cfg, lk, "我难") && GateIntended(cfg, lk, "我难")
  {
    var cfg := Config(false, {}, {}, 1, 9, 1, 9, 3, 0, 2, 5, 1, 9999999, 4, []);
    var lk := Lookups(s => if s == "难" then Some(5) else Some(1), s => None, s => None);
    assert "我难"[0] == '我' && "我难"[1] == '难';
    assert ['我'] != "难";
    assert CharLevels(lk, '我') == Levels(1, 0);
    assert CharLevels(lk, '难') == Levels(5, 0);
    assert Ok2(cfg, CharLevels(lk, "我难"[1]));
    assert Ok3(cfg, CharLevels(lk, "我难"[0]));
  }
}
