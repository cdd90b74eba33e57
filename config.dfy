/** The settings every stage reads from the global `CONFIG`, passed here as
    a value. */
module Config {

  /** The fields of `Config` that the pipeline reads. Python sets become
      Dafny sets where only membership is asked, and a sequence for the
      skip strings, whose set iteration order decides the order of the
      passes of `filter_skips`. Lengths and the window size are `nat`. */
  datatype Config = Config(
    allowNoDefinition: bool,
    hsk2Exclude: set<int>,
    hsk3Exclude: set<int>,
    hsk2Min: int,
    hsk2Max: int,
    hsk3Min: int,
    hsk3Max: int,
    hsk2MinChar: int,
    hsk3MinChar: int,
    lengthMin: nat,
    lengthMax: int,
    countMin: int,
    countMax: int,
    tryAlternatives: nat,
    skipSequences: seq<string>)
}
