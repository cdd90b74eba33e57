/** The HSK level tables and the dictionary, which live in a foreign
    library, as lookup functions, and the metadata the counter records. */
module Lookup {
  import opened Common
  import opened Text

  /** `HSK2.get_level_for_word`, the category index the `HSK3` table keeps
      for a stripped word, and `CELDICT.lookup`. */
  datatype Lookups = Lookups(
    hsk2: string -> Option<nat>,
    hsk3Category: string -> Option<nat>,
    define: string -> Option<string>)

  /** The `HSK3.get_level_for_word` override: the category index of the
      stripped word plus one, or None for a word not in the table. */
  function Hsk3Level(lk: Lookups, word: string): (r: Option<nat>)
    ensures r.Some? <==> lk.hsk3Category(Strip(word)).Some?
    ensures r.Some? ==> r.value == lk.hsk3Category(Strip(word)).value + 1 && r.value >= 1
  {
    match lk.hsk3Category(Strip(word))
    case None => None
    case Some(idx) => Some(idx + 1)
  }

  /** Python's `level or 0`: None and 0 both become 0. */
  function OrZero(level: Option<nat>): (r: nat)
    ensures r == 0 <==> level == None || level == Some(0)
    ensures level.Some? ==> r == level.value
  {
    match level
    case None => 0
    case Some(n) => n
  }

  /** The metadata tuple `(hsk2, hsk3, definition)` of a counted word. */
  datatype Meta = Meta(hsk2: nat, hsk3: nat, definition: Option<string>)

  /** The metadata `build_counts` records when it first sees `w`. */
  function MetaOf(lk: Lookups, w: string): Meta
  {
    Meta(OrZero(lk.hsk2(w)), OrZero(Hsk3Level(lk, w)), lk.define(w))
  }

  /** The levels of one character, as `check_characters` caches them. */
  datatype Levels = Levels(hsk2: nat, hsk3: nat)

  function CharLevels(lk: Lookups, c: char): Levels
  {
    Levels(OrZero(lk.hsk2([c])), OrZero(Hsk3Level(lk, [c])))
  }

  /** An HSK 3 level is 0 exactly for a word outside the table, since the
      override adds one to the category index. */
  lemma Hsk3LevelZero(lk: Lookups, w: string)
    ensures MetaOf(lk, w).hsk3 == 0 <==> lk.hsk3Category(Strip(w)) == None
  {
  }

  /** The override strips the word itself, so a word and its stripped form
      get the same HSK 3 level. */
  lemma Hsk3LevelStrip(lk: Lookups, w: string)
    ensures Hsk3Level(lk, Strip(w)) == Hsk3Level(lk, w)
    ensures MetaOf(lk, Strip(w)).hsk3 == MetaOf(lk, w).hsk3
  {
    StripIdempotent(w);
  }
}
