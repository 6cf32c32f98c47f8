/**
 * The older categorisation orchestrator: the same raw-file selection, aggregation, inversion
 * and annotation as Categorization, but the categoriser answers with a category map of
 * locations directly, without compact IDs, and no raw reply is kept.
 */
module LegacyCategorization {
  import opened Wrappers
  import opened Text
  import opened Dicts
  import opened Records
  import ReplyParser
  import opened Categorization

  datatype Outcome =
    | UnsupportedModel
    | MissingField
    | NothingToCategorize
    | Written(categorized: seq<(string, seq<Item>)>)

  /**
   * run: pick the categoriser, aggregate the raw files, ask for a category map of the
   * (location, quote) pairs, invert it and annotate every record of every raw file.
   */
  method Run(dir: seq<SourceFile>, keyword: string, modelName: string,
             categorize: (Model, seq<(string, string)>, string) -> ReplyParser.CategoryMap)
    returns (outcome: Outcome)
    ensures SelectModel(modelName).None? <==> outcome == Outcome.UnsupportedModel
    ensures SelectModel(modelName).Some? && !AllHavePairs(RawFiles(dir, keyword)) <==> outcome == Outcome.MissingField
    ensures outcome == Outcome.NothingToCategorize <==>
      SelectModel(modelName).Some? && AllHavePairs(RawFiles(dir, keyword)) && Aggregate(RawFiles(dir, keyword)) == []
    ensures outcome.Written? ==>
      var raw := RawFiles(dir, keyword);
      && SelectModel(modelName).Some? && AllHavePairs(raw) && Aggregate(raw) != []
      && var categoryMap := categorize(SelectModel(modelName).value, Aggregate(raw), keyword);
         outcome.categorized == CategorizedFiles(FilesData(raw), modelName, Invert(categoryMap))
  {
    var model := SelectModel(modelName);
    if model.None? {
      return Outcome.UnsupportedModel;
    }
    var filesToProcess := RawFiles(dir, keyword);
    var allQuotesWithLocations, originalFilesData := AggregateFiles(filesToProcess);
    if allQuotesWithLocations.None? {
      return Outcome.MissingField;
    }
    if allQuotesWithLocations.value == [] {
      return Outcome.NothingToCategorize;
    }
    var categoryMap := categorize(model.value, allQuotesWithLocations.value, keyword);
    var locationToCategory := Invert(categoryMap);
    var written := WriteCategorized(originalFilesData, modelName, locationToCategory);
    return Outcome.Written(written);
  }

  /** The categoriser's fallback after failed attempts: every aggregated location under "Uncategorized". */
  function FallbackMap(quotes: seq<(string, string)>): (r: ReplyParser.CategoryMap)
    ensures |r| == 1 && r[0].0 == Uncategorized && |r[0].1| == |quotes|
    ensures forall i :: 0 <= i < |quotes| ==> r[0].1[i] == quotes[i].0
  {
    [(Uncategorized, seq(|quotes|, i requires 0 <= i < |quotes| => quotes[i].0))]
  }

  /** With the fallback map every record, listed or not, is titled "Uncategorized". */
  lemma FallbackTitlesUncategorized(quotes: seq<(string, string)>, item: Item)
    requires Get(item, "location").Some?
    ensures Get(Annotate(item, Invert(FallbackMap(quotes))), "title") == Some(Uncategorized)
  {
    AnnotateFields(item, Invert(FallbackMap(quotes)));
    AnnotationTitle(FallbackMap(quotes), item);
  }
}
