/**
 * Properties that span stages: the file names the categoriser and the distiller write lead the
 * wiki renderer back to the book's abbreviation, and the template line the renderer writes is
 * what the validator parses and checks.
 */
module Pipeline {
  import opened Wrappers
  import opened Text
  import opened Dicts
  import opened Records
  import opened Validator
  import opened WikiFormat
  import Distill
  import Categorization

  /** Which model a name spells, as the wiki suffixes do. */
  function ModelName(model: Model): string
  {
    if model == ChatGPT then "ChatGPT" else "Gemini"
  }

  /**
   * A raw file "<keyword>_<book>.txt", categorised by one model and distilled by another, is
   * rendered under the abbreviation key <book>.
   */
  lemma BookSurvivesRenaming(keyword: string, book: string, categorizer: Model, distiller: Model)
    requires !Contains(book + (if distiller == ChatGPT then ChatGPTWikiSuffix else GeminiWikiSuffix), keyword + "_")
    ensures
      var raw := keyword + "_" + book + ".txt";
      var categorized := Categorization.CategorizedName(raw, ModelName(categorizer));
      AbbreviationKey(Distill.FinalName(categorized, ModelName(distiller)), keyword) == book
  {
    var root := keyword + "_" + book;
    RawCategorized(keyword, book, ModelName(categorizer));
    Distill.FinalNameOfRawFile(root, categorizer, ModelName(distiller));
    WikiSuffixSpelled(root, distiller);
    AbbreviationKeyOfWikiFile(keyword, book, distiller);
  }

  lemma RawCategorized(keyword: string, book: string, modelName: string)
    ensures Categorization.CategorizedName(keyword + "_" + book + ".txt", modelName)
      == keyword + "_" + book + "_categorized-" + modelName + ".txt"
  {
    var raw := keyword + "_" + book + ".txt";
    assert raw[|keyword|] == '_';
    assert raw[..|raw| - 4] == keyword + "_" + book;
    Categorization.CategorizedNameOfTxt(raw, modelName);
  }

  lemma WikiSuffixSpelled(root: string, model: Model)
    ensures root + "_final_for_wiki-" + ModelName(model) + ".txt"
      == root + (if model == ChatGPT then ChatGPTWikiSuffix else GeminiWikiSuffix)
  {
  }

  /** What the validator reads back of a rendered line: its template, with the reference as source. */
  lemma RenderedLineParses(item: Item, abbreviation: string, quote: string, location: string,
                           title: string, line: string)
    requires Entry(item, abbreviation) == Some((title, line))
    requires Get(item, "quote") == Some(quote) && Get(item, "location") == Some(location)
    requires '|' !in quote && '\n' !in quote && '|' !in location && '\n' !in location
    requires '}' !in Reference(abbreviation, location) && '\n' !in Reference(abbreviation, location)
    ensures Search(line + "\n") == Some(Template(0, quote, location, Reference(abbreviation, location)))
  {
    TemplateParses(quote, location, Reference(abbreviation, location), "\n");
  }

  /**
   * With the abbreviation table the renderer uses, a line parses back whenever the quote and the
   * location are free of '|' and line breaks and the location also of '}'.
   */
  lemma MappedLineParses(item: Item, filename: string, keyword: string, quote: string, location: string,
                         title: string, line: string)
    requires Entry(item, Abbreviation(AbbreviationMap, AbbreviationKey(filename, keyword))) == Some((title, line))
    requires Get(item, "quote") == Some(quote) && Get(item, "location") == Some(location)
    requires '|' !in quote && '\n' !in quote && '|' !in location && '}' !in location && '\n' !in location
    ensures
      var abbreviation := Abbreviation(AbbreviationMap, AbbreviationKey(filename, keyword));
      Search(line + "\n") == Some(Template(0, quote, location, Reference(abbreviation, location)))
  {
    var abbreviation := Abbreviation(AbbreviationMap, AbbreviationKey(filename, keyword));
    ReferenceUsable(AbbreviationKey(filename, keyword), location);
    RenderedLineParses(item, abbreviation, quote, location, title, line);
  }

  /** The reference written for a key is either a table value or the location itself. */
  lemma ReferenceUsable(key: string, location: string)
    requires '}' !in location && '\n' !in location
    ensures var reference := Reference(Abbreviation(AbbreviationMap, key), location);
      '}' !in reference && '\n' !in reference
  {
    if Get(AbbreviationMap, key).Some? {
      GetInMap(AbbreviationMap, key);
      AbbreviationsUsable();
    }
  }

  /**
   * The validator's verdict on a rendered line whose location has a non-empty original: the
   * line passes exactly when the trimmed quote occurs in the original.
   */
  lemma RenderedLineChecked(item: Item, abbreviation: string, quote: string, location: string,
                            title: string, line: string, originals: seq<(string, string)>, original: string)
    requires Entry(item, abbreviation) == Some((title, line))
    requires Get(item, "quote") == Some(quote) && Get(item, "location") == Some(location)
    requires '|' !in quote && '\n' !in quote && '|' !in location && '\n' !in location
    requires '}' !in Reference(abbreviation, location) && '\n' !in Reference(abbreviation, location)
    requires !StartsWith(Strip(quote), WarningTag)
    requires Get(originals, location) == Some(original) && original != ""
    ensures Examine(line + "\n", originals) == (if Contains(original, ForCheck(quote)) then Verbatim else Mismatch)
  {
    RenderedLineParses(item, abbreviation, quote, location, title, line);
  }

  /** A rendered line whose quote was copied verbatim from the original is left as it is. */
  lemma VerbatimLineKept(item: Item, abbreviation: string, quote: string, location: string,
                         title: string, line: string, originals: seq<(string, string)>, original: string)
    requires Entry(item, abbreviation) == Some((title, line))
    requires Get(item, "quote") == Some(quote) && Get(item, "location") == Some(location)
    requires '|' !in quote && '\n' !in quote && '|' !in location && '\n' !in location
    requires '}' !in Reference(abbreviation, location) && '\n' !in Reference(abbreviation, location)
    requires !StartsWith(Strip(quote), WarningTag)
    requires Get(originals, location) == Some(original) && original != "" && Contains(original, quote)
    ensures Examine(line + "\n", originals) == Verbatim
    ensures Revised(line + "\n", originals) == line + "\n"
  {
    RenderedLineChecked(item, abbreviation, quote, location, title, line, originals, original);
    ForCheckContained(quote);
    ContainsTransitive(original, quote, ForCheck(quote));
  }
}
