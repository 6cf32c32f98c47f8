/**
 * Distillation of the categorised files: every record keeps its category and location and
 * gets the distiller's shortened quote; the output file is named for the wiki formatter.
 * The distiller is a parameter.
 */
module Distill {
  import opened Wrappers
  import opened Text
  import opened Dicts
  import opened Records

  /** source_model_name or model_name: an absent or empty source model name falls back to model_name. */
  function SourceSuffix(sourceModelName: Option<string>, modelName: string): (r: string)
    ensures sourceModelName.Some? && sourceModelName.value != [] ==> r == sourceModelName.value
    ensures sourceModelName.None? || sourceModelName.value == [] ==> r == modelName
  {
    if sourceModelName.Some? && sourceModelName.value != [] then sourceModelName.value else modelName
  }

  /** The directory-mode filter: a file written by the categorisation stage for that model. */
  predicate IsCategorizedFile(name: string, sourceSuffix: string)
  {
    EndsWith(name, "_categorized-" + sourceSuffix + ".txt")
  }

  const ChatGPTSuffix: string := "_categorized-ChatGPT.txt"
  const GeminiSuffix: string := "_categorized-Gemini.txt"

  /** s without a trailing p, where a regular expression's $ also matches before a final line break. */
  function DropAtEnd(s: string, p: string): Option<string>
  {
    if EndsWith(s, p) then Some(s[..|s| - |p|])
    else if |s| >= 1 && s[|s| - 1] == '\n' && EndsWith(s[..|s| - 1], p) then Some(s[..|s| - 1 - |p|] + "\n")
    else None
  }

  /** Removes a trailing "_categorized-ChatGPT.txt" or "_categorized-Gemini.txt": case-sensitive, at the end only. */
  function StripCategorizedSuffix(name: string): string
  {
    match DropAtEnd(name, ChatGPTSuffix)
    case Some(base) => base
    case None =>
      match DropAtEnd(name, GeminiSuffix)
      case Some(base) => base
      case None => name
  }

  /** The output name: the stripped base name, then "_final_for_wiki-", the model name and ".txt". */
  function FinalName(name: string, modelName: string): string
  {
    StripCategorizedSuffix(name) + "_final_for_wiki-" + modelName + ".txt"
  }

  /** A name carrying a categorisation suffix loses exactly that suffix. */
  lemma FinalNameOfCategorized(base: string, model: Model, modelName: string)
    ensures var suffix := if model == ChatGPT then ChatGPTSuffix else GeminiSuffix;
      FinalName(base + suffix, modelName) == base + "_final_for_wiki-" + modelName + ".txt"
  {
    var suffix := if model == ChatGPT then ChatGPTSuffix else GeminiSuffix;
    var name := base + suffix;
    assert name[..|name| - |suffix|] == base;
    assert name[|name| - 1] == 't';
    if model == Gemini && |name| >= |ChatGPTSuffix| {
      assert name[|name| - 11] == '-' && ChatGPTSuffix[13] == 'C';
      assert name[|name| - |ChatGPTSuffix|..][13] == name[|name| - 11];
    }
  }

  /** A name with neither suffix at its end (nor before a final line break) is kept whole. */
  lemma FinalNameOfOther(name: string, modelName: string)
    requires DropAtEnd(name, ChatGPTSuffix).None? && DropAtEnd(name, GeminiSuffix).None?
    ensures FinalName(name, modelName) == name + "_final_for_wiki-" + modelName + ".txt"
  {
  }

  /** Across the stages: raw file "X.txt" categorised by a model and distilled becomes "X_final_for_wiki-<model>.txt". */
  lemma FinalNameOfRawFile(root: string, model: Model, distillModelName: string)
    ensures var modelName := if model == ChatGPT then "ChatGPT" else "Gemini";
      FinalName(root + "_categorized-" + modelName + ".txt", distillModelName)
      == root + "_final_for_wiki-" + distillModelName + ".txt"
  {
    var modelName := if model == ChatGPT then "ChatGPT" else "Gemini";
    var suffix := if model == ChatGPT then ChatGPTSuffix else GeminiSuffix;
    assert root + "_categorized-" + modelName + ".txt" == root + suffix;
    FinalNameOfCategorized(root, model, distillModelName);
  }

  /** {"title": ..., "location": ..., "quote": ...}: exactly these three keys, in this order. */
  function FinalItem(title: string, location: string, quote: string): (r: Item)
    ensures Keys(r) == {"title", "location", "quote"}
    ensures Get(r, "title") == Some(title) && Get(r, "location") == Some(location) && Get(r, "quote") == Some(quote)
  {
    var r := [("title", title), ("location", location), ("quote", quote)];
    assert r[0].0 == "title" && r[1].0 == "location" && r[2].0 == "quote";
    assert r[1..] == [("location", location), ("quote", quote)] && r[2..] == [("quote", quote)];
    assert "title" != "location" && "title" != "quote" && "location" != "quote";
    assert Get(r[2..], "quote") == Some(quote);
    assert Get(r[1..], "quote") == Some(quote) && Get(r[1..], "location") == Some(location);
    r
  }

  /** item['quote'], item['title'] and item['location'] all exist. */
  predicate Distillable(item: Item)
  {
    Get(item, "quote").Some? && Get(item, "title").Some? && Get(item, "location").Some?
  }

  /** The final record of one input record, the distiller applied to its quote and the keyword. */
  function DistillItem(item: Item, model: Model, keyword: string, distill: (Model, string, string) -> string): Item
    requires Distillable(item)
  {
    FinalItem(Get(item, "title").value, Get(item, "location").value,
              distill(model, Get(item, "quote").value, keyword))
  }

  /** final_data for a list of records; None when a record lacks one of the three keys (KeyError). */
  function DistillAll(items: seq<Item>, model: Model, keyword: string, distill: (Model, string, string) -> string)
    : (r: Option<seq<Item>>)
    ensures r.Some? <==> forall i :: 0 <= i < |items| ==> Distillable(items[i])
    ensures r.Some? ==>
      && |r.value| == |items|
      && forall i :: 0 <= i < |items| ==> r.value[i] == DistillItem(items[i], model, keyword, distill)
  {
    if forall i :: 0 <= i < |items| ==> Distillable(items[i]) then
      Some(seq(|items|, i requires 0 <= i < |items| => DistillItem(items[i], model, keyword, distill)))
    else None
  }

  /** Record i of the output keeps record i's title and location and carries the distiller's result for its quote. */
  lemma DistilledRecord(items: seq<Item>, model: Model, keyword: string, distill: (Model, string, string) -> string, i: nat)
    requires DistillAll(items, model, keyword, distill).Some? && i < |items|
    ensures var out := DistillAll(items, model, keyword, distill).value[i];
      && Keys(out) == {"title", "location", "quote"}
      && Get(out, "title") == Get(items[i], "title")
      && Get(out, "location") == Get(items[i], "location")
      && Get(out, "quote") == Some(distill(model, Get(items[i], "quote").value, keyword))
  {
    assert Distillable(items[i]);
  }

  /** The per-record loop: build final_data by appending one final record per input record. */
  method DistillItems(data: seq<Item>, model: Model, keyword: string, distill: (Model, string, string) -> string)
    returns (finalData: Option<seq<Item>>)
    ensures finalData == DistillAll(data, model, keyword, distill)
  {
    var acc: seq<Item> := [];
    var i := 0;
    while i < |data|
      invariant 0 <= i <= |data|
      invariant forall j :: 0 <= j < i ==> Distillable(data[j])
      invariant |acc| == i && forall j :: 0 <= j < i ==> acc[j] == DistillItem(data[j], model, keyword, distill)
    {
      var quote := Get(data[i], "quote");
      var title := Get(data[i], "title");
      var location := Get(data[i], "location");
      if quote.None? || title.None? || location.None? {
        assert !Distillable(data[i]);
        assert DistillAll(data, model, keyword, distill).None?;
        return None;
      }
      var distilledQuoteText := distill(model, quote.value, keyword);
      acc := acc + [FinalItem(title.value, location.value, distilledQuoteText)];
      i := i + 1;
    }
    var all := DistillAll(data, model, keyword, distill);
    assert all.Some? && |all.value| == |acc|;
    assert forall j :: 0 <= j < |acc| ==> acc[j] == all.value[j];
    assert acc == all.value;
    finalData := Some(acc);
  }

  /** The files directory mode reads, in listing order. */
  function InputFiles(dir: seq<SourceFile>, sourceSuffix: string): (r: seq<SourceFile>)
    ensures forall f :: f in r <==> f in dir && IsCategorizedFile(f.0, sourceSuffix)
  {
    if dir == [] then []
    else
      var prev := InputFiles(dir[..|dir| - 1], sourceSuffix);
      assert forall f :: f in dir <==> f in dir[..|dir| - 1] || f == dir[|dir| - 1];
      if IsCategorizedFile(dir[|dir| - 1].0, sourceSuffix) then prev + [dir[|dir| - 1]] else prev
  }

  /** The files written before the loop stops, and whether it went through every file. */
  function DistillFiles(files: seq<SourceFile>, model: Model, modelName: string, keyword: string,
                        distill: (Model, string, string) -> string): (r: (seq<(string, seq<Item>)>, bool))
    ensures |r.0| <= |files|
    ensures r.1 ==> |r.0| == |files|
  {
    if files == [] then ([], true)
    else
      match DistillAll(files[0].1, model, keyword, distill)
      case None => ([], false)
      case Some(finalData) =>
        var rest := DistillFiles(files[1..], model, modelName, keyword, distill);
        ([(FinalName(files[0].0, modelName), finalData)] + rest.0, rest.1)
  }

  /** Output file k comes from input file k, and every file before the stop was complete. */
  lemma {:induction false} DistillFilesOrder(files: seq<SourceFile>, model: Model, modelName: string, keyword: string,
                                             distill: (Model, string, string) -> string, k: nat)
    requires k < |DistillFiles(files, model, modelName, keyword, distill).0|
    ensures DistillAll(files[k].1, model, keyword, distill).Some?
    ensures DistillFiles(files, model, modelName, keyword, distill).0[k]
            == (FinalName(files[k].0, modelName), DistillAll(files[k].1, model, keyword, distill).value)
  {
    if k > 0 {
      DistillFilesOrder(files[1..], model, modelName, keyword, distill, k - 1);
    }
  }

  /** The loop completes exactly when every record of every input file has the three keys. */
  lemma {:induction false} DistillFilesComplete(files: seq<SourceFile>, model: Model, modelName: string, keyword: string,
                                                distill: (Model, string, string) -> string)
    ensures DistillFiles(files, model, modelName, keyword, distill).1
            <==> forall f :: 0 <= f < |files| ==> DistillAll(files[f].1, model, keyword, distill).Some?
  {
    if files != [] {
      DistillFilesComplete(files[1..], model, modelName, keyword, distill);
      assert forall f :: 1 <= f < |files| ==> files[f] == files[1..][f - 1];
    }
  }

  datatype Outcome =
    | UnsupportedModel
    | InputMissing
    | Distilled(written: seq<(string, seq<Item>)>, completed: bool)

  /** Directory mode: every categorised file of the source model, distilled and written in listing order. */
  method Run(dir: seq<SourceFile>, keyword: string, modelName: string, sourceModelName: Option<string>,
             distill: (Model, string, string) -> string)
    returns (outcome: Outcome)
    ensures SelectModel(modelName).None? <==> outcome == UnsupportedModel
    ensures outcome.Distilled? ==>
      var files := InputFiles(dir, SourceSuffix(sourceModelName, modelName));
      outcome == Distilled(DistillFiles(files, SelectModel(modelName).value, modelName, keyword, distill).0,
                           DistillFiles(files, SelectModel(modelName).value, modelName, keyword, distill).1)
    ensures !outcome.InputMissing?
  {
    var model := SelectModel(modelName);
    if model.None? {
      return UnsupportedModel;
    }
    var sourceSuffix := SourceSuffix(sourceModelName, modelName);
    var filesToProcess := InputFiles(dir, sourceSuffix);
    var written, completed := DistillEach(filesToProcess, model.value, modelName, keyword, distill);
    return Distilled(written, completed);
  }

  lemma DistillFilesStep(files: seq<SourceFile>, k: nat, model: Model, modelName: string, keyword: string,
                         distill: (Model, string, string) -> string)
    requires k < |files|
    ensures DistillAll(files[k].1, model, keyword, distill).None? ==>
      DistillFiles(files[k..], model, modelName, keyword, distill) == ([], false)
    ensures DistillAll(files[k].1, model, keyword, distill).Some? ==>
      && DistillFiles(files[k..], model, modelName, keyword, distill).0
         == [(FinalName(files[k].0, modelName), DistillAll(files[k].1, model, keyword, distill).value)]
            + DistillFiles(files[k + 1..], model, modelName, keyword, distill).0
      && DistillFiles(files[k..], model, modelName, keyword, distill).1
         == DistillFiles(files[k + 1..], model, modelName, keyword, distill).1
  {
    assert files[k..][0] == files[k] && files[k..][1..] == files[k + 1..];
  }

  /** The loop over the selected files: distil each one and write it, until a record lacks a key. */
  method DistillEach(files: seq<SourceFile>, model: Model, modelName: string, keyword: string,
                     distill: (Model, string, string) -> string)
    returns (written: seq<(string, seq<Item>)>, completed: bool)
    ensures (written, completed) == DistillFiles(files, model, modelName, keyword, distill)
  {
    written := [];
    var k := 0;
    var all := DistillFiles(files, model, modelName, keyword, distill);
    assert files[k..] == files;
    assert all.0 == written + all.0;
    while k < |files|
      invariant 0 <= k <= |files|
      invariant all.0 == written + DistillFiles(files[k..], model, modelName, keyword, distill).0
      invariant all.1 == DistillFiles(files[k..], model, modelName, keyword, distill).1
    {
      var (filename, data) := files[k];
      var outputFilename := FinalName(filename, modelName);
      var finalData := DistillItems(data, model, keyword, distill);
      DistillFilesStep(files, k, model, modelName, keyword, distill);
      if finalData.None? {
        assert written + [] == written;
        return written, false;
      }
      var entry := (outputFilename, finalData.value);
      ghost var rest := DistillFiles(files[k + 1..], model, modelName, keyword, distill);
      assert DistillFiles(files[k..], model, modelName, keyword, distill).0 == [entry] + rest.0;
      AppendAssoc(written, [entry], rest.0);
      written := written + [entry];
      k := k + 1;
    }
    assert written + [] == written;
    return written, true;
  }

  /**
   * process_single_categorized_file: a missing input path ends the call before the model is
   * checked; otherwise the one file is distilled and written. The file system is a map from
   * path to parsed contents.
   */
  method ProcessSingleFile(files: map<string, seq<Item>>, inputPath: string, keyword: string, modelName: string,
                           distill: (Model, string, string) -> string)
    returns (outcome: Outcome)
    ensures inputPath !in files <==> outcome == InputMissing
    ensures inputPath in files && SelectModel(modelName).None? <==> outcome == UnsupportedModel
    ensures outcome.Distilled? ==>
      var finalData := DistillAll(files[inputPath], SelectModel(modelName).value, keyword, distill);
      && inputPath in files && SelectModel(modelName).Some?
      && (finalData.None? ==> outcome == Distilled([], false))
      && (finalData.Some? ==> outcome == Distilled([(FinalName(Basename(inputPath), modelName), finalData.value)], true))
  {
    if inputPath !in files {
      return InputMissing;
    }
    var model := SelectModel(modelName);
    if model.None? {
      return UnsupportedModel;
    }
    var filename := Basename(inputPath);
    var outputFilename := FinalName(filename, modelName);
    var finalData := DistillItems(files[inputPath], model.value, keyword, distill);
    if finalData.None? {
      return Distilled([], false);
    }
    return Distilled([(outputFilename, finalData.value)], true);
  }
}
