/** `filter_counts`: the counted words that pass the configured tests,
    sorted by count, then HSK 3 level, then HSK 2 level, highest first. */
module Ranking {
  import opened Common
  import opened Config
  import opened Lookup
  import opened Counter
  import opened CharGate

  /** A row of the result, `(w, count, h2, h3, definition)`. */
  datatype Ranked = Ranked(word: string, count: nat, hsk2: nat, hsk3: nat, definition: Option<string>)

  function RankedOf(w: string, e: Entry): Ranked
  {
    Ranked(w, e.count, e.meta.hsk2, e.meta.hsk3, e.meta.definition)
  }

  /** The tests of `filter_counts` that come before `check_characters`: a
      definition unless words without one are allowed, neither level
      excluded, each non-zero level inside its range, the length inside
      its range, and the count inside its range. */
  predicate PassesTests(cfg: Config, w: string, e: Entry)
  {
    !((e.meta.definition.None? && !cfg.allowNoDefinition)
      || (e.meta.hsk2 in cfg.hsk2Exclude || e.meta.hsk3 in cfg.hsk3Exclude)
      || (e.meta.hsk2 > 0 && (e.meta.hsk2 < cfg.hsk2Min || e.meta.hsk2 > cfg.hsk2Max))
      || (e.meta.hsk3 > 0 && (e.meta.hsk3 < cfg.hsk3Min || e.meta.hsk3 > cfg.hsk3Max))
      || (|w| < cfg.lengthMin || |w| > cfg.lengthMax)
      || (e.count < cfg.countMin || e.count > cfg.countMax))
  }

  /** All the tests, the character check last. */
  predicate Passes(cfg: Config, lk: Lookups, w: string, e: Entry)
  {
    PassesTests(cfg, w, e) && GateIntended(cfg, lk, w)
  }

  /** The rows of the words of `order` that pass, in that order. */
  function PassingFrom(cfg: Config, lk: Lookups, entries: map<string, Entry>, order: seq<string>): seq<Ranked>
    requires forall w :: w in order ==> w in entries
  {
    if order == [] then []
    else
      var w := order[|order| - 1];
      PassingFrom(cfg, lk, entries, order[..|order| - 1]) +
        (if Passes(cfg, lk, w, entries[w]) then [RankedOf(w, entries[w])] else [])
  }

  /** The list `result` before sorting: the map's items in insertion order. */
  function Passing(cfg: Config, lk: Lookups, counts: Counts): seq<Ranked>
    requires forall w :: w in counts.order ==> w in counts.entries
  {
    PassingFrom(cfg, lk, counts.entries, counts.order)
  }

  /** A row is collected exactly when it is the row of a word of the order
      that passes every test. */
  lemma {:induction false} PassingFromExact(cfg: Config, lk: Lookups, entries: map<string, Entry>, order: seq<string>, r: Ranked)
    requires forall w :: w in order ==> w in entries
    ensures r in PassingFrom(cfg, lk, entries, order) <==>
              r.word in order && r == RankedOf(r.word, entries[r.word]) && Passes(cfg, lk, r.word, entries[r.word])
  {
    if order != [] {
      var init := order[..|order| - 1];
      var w := order[|order| - 1];
      PassingFromExact(cfg, lk, entries, init, r);
      assert order == init + [w];
      assert r.word in order <==> r.word in init || r.word == w;
    }
  }

  /** The sort key `(count, h3, h2)`: `KeyLess(a, b)` when `a`'s key is
      lexicographically smaller than `b`'s. */
  predicate KeyLess(a: Ranked, b: Ranked)
  {
    a.count < b.count ||
    (a.count == b.count && (a.hsk3 < b.hsk3 || (a.hsk3 == b.hsk3 && a.hsk2 < b.hsk2)))
  }

  predicate SameKey(a: Ranked, b: Ranked)
  {
    a.count == b.count && a.hsk3 == b.hsk3 && a.hsk2 == b.hsk2
  }

  /** Rows in descending order of their keys. */
  predicate SortedDesc(s: seq<Ranked>)
  {
    forall i, j :: 0 <= i < j < |s| ==> !KeyLess(s[i], s[j])
  }

  /** Places `x` after every row whose key is at least its own, so that rows
      with equal keys keep the order they were inserted in. */
  function Insert(x: Ranked, s: seq<Ranked>): seq<Ranked>
  {
    if s == [] then [x]
    else if KeyLess(s[0], x) then [x] + s
    else [s[0]] + Insert(x, s[1..])
  }

  /** `result.sort(key=..., reverse=True)`, a stable sort by descending key,
      written as an insertion sort. */
  function SortDesc(s: seq<Ranked>): seq<Ranked>
  {
    if s == [] then [] else Insert(s[|s| - 1], SortDesc(s[..|s| - 1]))
  }

  lemma {:induction false} InsertPerm(x: Ranked, s: seq<Ranked>)
    ensures multiset(Insert(x, s)) == multiset(s) + multiset{x}
  {
    if s != [] && !KeyLess(s[0], x) {
      InsertPerm(x, s[1..]);
      assert s == [s[0]] + s[1..];
    }
  }

  /** A row whose key is at least those of `x` and of every row of `s` has
      a key at least that of every row of `Insert(x, s)`. */
  lemma {:induction false} InsertBound(a: Ranked, x: Ranked, s: seq<Ranked>)
    requires !KeyLess(a, x) && forall i :: 0 <= i < |s| ==> !KeyLess(a, s[i])
    ensures forall i :: 0 <= i < |Insert(x, s)| ==> !KeyLess(a, Insert(x, s)[i])
  {
    if s != [] && !KeyLess(s[0], x) {
      InsertBound(a, x, s[1..]);
      assert Insert(x, s) == [s[0]] + Insert(x, s[1..]);
    }
  }

  lemma {:induction false} InsertSorted(x: Ranked, s: seq<Ranked>)
    requires SortedDesc(s)
    ensures SortedDesc(Insert(x, s))
  {
    if s == [] {
    } else if KeyLess(s[0], x) {
      var r := [x] + s;
      forall i, j | 0 <= i < j < |r|
        ensures !KeyLess(r[i], r[j])
      {
        if i == 0 && j > 1 {
          assert !KeyLess(s[0], s[j - 1]);
        }
      }
    } else {
      var t := s[1..];
      assert SortedDesc(t);
      InsertSorted(x, t);
      var it := Insert(x, t);
      var r := [s[0]] + it;
      InsertBound(s[0], x, t);
      forall i, j | 0 <= i < j < |r|
        ensures !KeyLess(r[i], r[j])
      {
        if i == 0 {
          assert r[j] == it[j - 1];
        } else {
          assert r[i] == it[i - 1] && r[j] == it[j - 1];
        }
      }
    }
  }

  /** The sort returns its rows in descending key order. */
  lemma {:induction false} SortDescSorted(s: seq<Ranked>)
    ensures SortedDesc(SortDesc(s))
  {
    if s != [] {
      SortDescSorted(s[..|s| - 1]);
      InsertSorted(s[|s| - 1], SortDesc(s[..|s| - 1]));
    }
  }

  /** The sort returns a permutation of its input. */
  lemma {:induction false} SortDescPerm(s: seq<Ranked>)
    ensures multiset(SortDesc(s)) == multiset(s)
  {
    if s != [] {
      var init := s[..|s| - 1];
      var x := s[|s| - 1];
      SortDescPerm(init);
      InsertPerm(x, SortDesc(init));
      assert SortDesc(s) == Insert(x, SortDesc(init));
      assert s == init + [x];
      assert multiset(s) == multiset(init) + multiset{x};
    }
  }

  /** The rows of `s` whose key equals that of `k`, in order. */
  function WithKey(s: seq<Ranked>, k: Ranked): seq<Ranked>
  {
    if s == [] then [] else (if SameKey(s[0], k) then [s[0]] else []) + WithKey(s[1..], k)
  }

  lemma {:induction false} WithKeyAppend(s: seq<Ranked>, t: seq<Ranked>, k: Ranked)
    ensures WithKey(s + t, k) == WithKey(s, k) + WithKey(t, k)
  {
    if s != [] {
      WithKeyAppend(s[1..], t, k);
      assert (s + t)[0] == s[0];
      assert (s + t)[1..] == s[1..] + t;
    } else {
      assert s + t == t;
    }
  }

  lemma WithKeySingle(x: Ranked, k: Ranked)
    ensures WithKey([x], k) == if SameKey(x, k) then [x] else []
  {
    assert [x][1..] == [];
  }

  /** Rows with a key smaller than `x`'s contribute nothing to `x`'s key. */
  lemma {:induction false} WithKeyBelow(s: seq<Ranked>, x: Ranked, k: Ranked)
    requires SameKey(x, k)
    requires forall i :: 0 <= i < |s| ==> KeyLess(s[i], x)
    ensures WithKey(s, k) == []
  {
    if s != [] {
      assert KeyLess(s[0], x);
      WithKeyBelow(s[1..], x, k);
    }
  }

  /** A row with a key greater than the first of a sorted sequence has a key
      greater than all of them. */
  lemma SortedBelow(s: seq<Ranked>, x: Ranked)
    requires SortedDesc(s) && s != [] && KeyLess(s[0], x)
    ensures forall i :: 0 <= i < |s| ==> KeyLess(s[i], x)
  {
    forall i | 0 <= i < |s|
      ensures KeyLess(s[i], x)
    {
      if i > 0 {
        assert !KeyLess(s[0], s[i]);
      }
    }
  }

  /** Inserting `x` into a sorted sequence puts it after every row of its
      own key. */
  lemma {:induction false} InsertStable(x: Ranked, s: seq<Ranked>, k: Ranked)
    requires SortedDesc(s)
    ensures WithKey(Insert(x, s), k) == WithKey(s, k) + (if SameKey(x, k) then [x] else [])
  {
    if s == [] {
      WithKeySingle(x, k);
    } else if KeyLess(s[0], x) {
      assert Insert(x, s) == [x] + s;
      WithKeyAppend([x], s, k);
      WithKeySingle(x, k);
      if SameKey(x, k) {
        SortedBelow(s, x);
        WithKeyBelow(s, x, k);
      }
    } else {
      var t := s[1..];
      assert SortedDesc(t);
      InsertStable(x, t, k);
      assert s == [s[0]] + t;
      assert Insert(x, s) == [s[0]] + Insert(x, t);
      WithKeyAppend([s[0]], t, k);
      WithKeyAppend([s[0]], Insert(x, t), k);
    }
  }

  /** The sort is stable: for every key, the rows with that key come out in
      the order they went in. */
  lemma {:induction false} SortDescStable(s: seq<Ranked>, k: Ranked)
    ensures WithKey(SortDesc(s), k) == WithKey(s, k)
  {
    if s != [] {
      var init := s[..|s| - 1];
      var x := s[|s| - 1];
      SortDescStable(init, k);
      SortDescSorted(init);
      InsertStable(x, SortDesc(init), k);
      assert s == init + [x];
      WithKeyAppend(init, [x], k);
      WithKeySingle(x, k);
    }
  }

  /** `filter_counts`: walk the map in insertion order, keep the rows that
      pass, calling the character check only for words that passed the
      other tests, then sort. The result is the stable descending sort of
      the passing rows. */
  method FilterCounts(cfg: Config, gate: CharCache, counts: Counts) returns (result: seq<Ranked>)
    requires gate.Valid()
    requires forall w :: w in counts.order ==> w in counts.entries
    modifies gate
    ensures gate.Valid()
    ensures result == SortDesc(Passing(cfg, gate.lookups, counts))
  {
    var rows: seq<Ranked> := [];
    var order := counts.order;
    for i := 0 to |order|
      invariant gate.Valid()
      invariant rows == PassingFrom(cfg, gate.lookups, counts.entries, order[..i])
    {
      var w := order[i];
      var e := counts.entries[w];
      assert order[..i + 1] == order[..i] + [w];
      assert order[..i + 1][..i] == order[..i];
      if !PassesTests(cfg, w, e) {
        continue;
      }
      var ok := gate.CheckCharacters(cfg, w);
      if !ok {
        continue;
      }
      rows := rows + [RankedOf(w, e)];
    }
    assert order[..|order|] == order;
    result := SortDesc(rows);
  }

  /** What `filter_counts` promises of its result: rows in descending key
      order, ties in insertion order, and exactly the rows of the words
      that pass every test, each with its own count and metadata. */
  lemma FilterCountsSpec(cfg: Config, lk: Lookups, counts: Counts, r: Ranked, k: Ranked)
    requires forall w :: w in counts.order ==> w in counts.entries
    ensures SortedDesc(SortDesc(Passing(cfg, lk, counts)))
    ensures multiset(SortDesc(Passing(cfg, lk, counts))) == multiset(Passing(cfg, lk, counts))
    ensures WithKey(SortDesc(Passing(cfg, lk, counts)), k) == WithKey(Passing(cfg, lk, counts), k)
    ensures r in SortDesc(Passing(cfg, lk, counts)) <==>
              r.word in counts.order && r == RankedOf(r.word, counts.entries[r.word]) &&
              Passes(cfg, lk, r.word, counts.entries[r.word])
  {
    var p := Passing(cfg, lk, counts);
    SortDescSorted(p);
    SortDescPerm(p);
    SortDescStable(p, k);
    PassingFromExact(cfg, lk, counts.entries, counts.order, r);
    assert r in SortDesc(p) <==> r in multiset(SortDesc(p));
  }
}
