/**
 * Categorisation of the raw quote files: aggregate every (location, quote) pair, hand the
 * categoriser compact base-62 IDs, parse its reply, invert the category map and annotate each
 * record with its category. The aggregation, inversion and annotation steps are shared with
 * the older orchestrator in LegacyCategorization.
 */
module Categorization {
  import opened Wrappers
  import opened Text
  import opened Dicts
  import opened Records
  import Base62
  import ReplyParser

  /** A raw source file: named after the keyword, a .txt file, and not the output of a later stage. */
  predicate IsRawFile(name: string, keyword: string)
  {
    && StartsWith(name, keyword) && EndsWith(name, ".txt")
    && !Contains(name, "_distilled") && !Contains(name, "_organized")
    && !Contains(name, "_categorized") && !Contains(name, "_final")
  }

  /** The listing filtered to the raw files, in listing order. */
  function RawFiles(dir: seq<SourceFile>, keyword: string): (r: seq<SourceFile>)
    ensures |r| <= |dir|
    ensures forall f :: f in r <==> f in dir && IsRawFile(f.0, keyword)
  {
    if dir == [] then []
    else
      var prev := RawFiles(dir[..|dir| - 1], keyword);
      assert forall f :: f in dir <==> f in dir[..|dir| - 1] || f == dir[|dir| - 1];
      if IsRawFile(dir[|dir| - 1].0, keyword) then prev + [dir[|dir| - 1]] else prev
  }

  /** item['location'] and item['quote'] both exist. */
  predicate HasPair(item: Item)
  {
    Get(item, "location").Some? && Get(item, "quote").Some?
  }

  function PairOf(item: Item): (string, string)
    requires HasPair(item)
  {
    (Get(item, "location").value, Get(item, "quote").value)
  }

  predicate ItemsHavePairs(items: seq<Item>)
  {
    forall i :: 0 <= i < |items| ==> HasPair(items[i])
  }

  predicate FileHasPairs(file: SourceFile)
  {
    ItemsHavePairs(file.1)
  }

  /** No record of any file lacks a location or a quote (otherwise the run stops with KeyError). */
  predicate AllHavePairs(files: seq<SourceFile>)
  {
    forall f :: 0 <= f < |files| ==> FileHasPairs(files[f])
  }

  function Pairs(items: seq<Item>): (r: seq<(string, string)>)
    requires forall i :: 0 <= i < |items| ==> HasPair(items[i])
    ensures |r| == |items|
  {
    seq(|items|, i requires 0 <= i < |items| => PairOf(items[i]))
  }

  /** all_quotes_with_locations: the pairs of every file, file by file, item by item. */
  function Aggregate(files: seq<SourceFile>): seq<(string, string)>
    requires AllHavePairs(files)
  {
    if files == [] then []
    else
      var last := files[|files| - 1];
      assert FileHasPairs(last);
      Aggregate(files[..|files| - 1]) + Pairs(last.1)
  }

  /** The number of records in the first f files. */
  function Offset(files: seq<SourceFile>, f: nat): nat
    requires f <= |files|
  {
    if f == 0 then 0 else Offset(files, f - 1) + |files[f - 1].1|
  }

  lemma OffsetPrefix(files: seq<SourceFile>, k: nat, f: nat)
    requires f <= k <= |files|
    ensures Offset(files[..k], f) == Offset(files, f)
  {
    if f > 0 {
      OffsetPrefix(files, k, f - 1);
    }
  }

  lemma {:induction false} OffsetMonotone(files: seq<SourceFile>, f: nat, g: nat)
    requires f < g <= |files|
    ensures Offset(files, f) + |files[f].1| <= Offset(files, g)
  {
    if f < g - 1 {
      OffsetMonotone(files, f, g - 1);
    }
  }

  lemma PrefixHasPairs(files: seq<SourceFile>, k: nat)
    requires AllHavePairs(files) && k <= |files|
    ensures AllHavePairs(files[..k])
  {
    forall f | 0 <= f < k ensures FileHasPairs(files[..k][f]) {
      assert files[..k][f] == files[f];
    }
  }

  /** The aggregate holds exactly one pair per record. */
  lemma {:induction false} AggregateLength(files: seq<SourceFile>)
    requires AllHavePairs(files)
    ensures |Aggregate(files)| == Offset(files, |files|)
  {
    if files != [] {
      var n := |files| - 1;
      PrefixHasPairs(files, n);
      AggregateLength(files[..n]);
      OffsetPrefix(files, n, n);
    }
  }

  /** Record i of file f sits at position Offset(f) + i of the aggregate. */
  lemma {:induction false} AggregateAt(files: seq<SourceFile>, f: nat, i: nat)
    requires AllHavePairs(files) && f < |files| && i < |files[f].1|
    ensures Offset(files, f) + i < |Aggregate(files)|
    ensures Aggregate(files)[Offset(files, f) + i] == PairOf(files[f].1[i])
  {
    var n := |files| - 1;
    var prefix := files[..n];
    PrefixHasPairs(files, n);
    AggregateLength(prefix);
    OffsetPrefix(files, n, n);
    assert Aggregate(files) == Aggregate(prefix) + Pairs(files[n].1);
    if f < n {
      AggregateAt(prefix, f, i);
      OffsetPrefix(files, n, f);
      assert prefix[f] == files[f];
    }
  }

  /** original_files_data: each file's records under its name; a name seen again keeps its first position. */
  function FilesData(files: seq<SourceFile>): (r: seq<SourceFile>)
    ensures DistinctKeys(r)
    ensures forall e :: e in r ==> e in files
    ensures AllHavePairs(files) ==> AllHavePairs(r)
  {
    if files == [] then []
    else
      var last := files[|files| - 1];
      var prev := FilesData(files[..|files| - 1]);
      var r := Put(prev, last.0, last.1);
      assert forall e :: e in r ==> e in files by {
        forall e | e in r ensures e in files {
          if e != last {
            assert e in prev;
            assert e in files[..|files| - 1];
          }
        }
      }
      assert AllHavePairs(files) ==> AllHavePairs(r) by {
        if AllHavePairs(files) {
          forall f | 0 <= f < |r| ensures FileHasPairs(r[f]) {
            assert r[f] in files;
            var g :| 0 <= g < |files| && files[g] == r[f];
          }
        }
      }
      r
  }

  /** A listing has no repeated names, so the dict is the file list itself. */
  lemma {:induction false} FilesDataDistinct(files: seq<SourceFile>)
    requires DistinctKeys(files)
    ensures FilesData(files) == files
  {
    if files != [] {
      var n := |files| - 1;
      var prefix := files[..n];
      DistinctKeysInit(files);
      FilesDataDistinct(prefix);
      assert FilesData(files) == Put(prefix, files[n].0, files[n].1);
      assert prefix + [files[n]] == files;
    }
  }

  lemma AggregateSnoc(files: seq<SourceFile>, k: nat)
    requires k < |files| && AllHavePairs(files[..k]) && FileHasPairs(files[k])
    ensures AllHavePairs(files[..k + 1])
    ensures Aggregate(files[..k + 1]) == Aggregate(files[..k]) + Pairs(files[k].1)
    ensures FilesData(files[..k + 1]) == Put(FilesData(files[..k]), files[k].0, files[k].1)
  {
    var next := files[..k + 1];
    assert next[..k] == files[..k];
    forall f | 0 <= f < k + 1 ensures FileHasPairs(next[f]) {
      if f < k {
        assert next[f] == files[..k][f];
      }
    }
  }

  /** The inner loop: append each record's (location, quote) pair; None when a record lacks either key. */
  method AppendPairs(all: seq<(string, string)>, data: seq<Item>) returns (r: Option<seq<(string, string)>>)
    ensures r.Some? <==> ItemsHavePairs(data)
    ensures r.Some? ==> r.value == all + Pairs(data)
  {
    var acc := all;
    var j := 0;
    while j < |data|
      invariant 0 <= j <= |data|
      invariant ItemsHavePairs(data[..j])
      invariant acc == all + Pairs(data[..j])
    {
      var location := Get(data[j], "location");
      var quote := Get(data[j], "quote");
      if location.None? || quote.None? {
        return None;
      }
      assert Pairs(data[..j + 1]) == Pairs(data[..j]) + [(location.value, quote.value)];
      acc := acc + [(location.value, quote.value)];
      j := j + 1;
    }
    assert data[..j] == data;
    return Some(acc);
  }

  /** The aggregation loop: record each file's data under its name and append its pairs. */
  method AggregateFiles(files: seq<SourceFile>) returns (quotes: Option<seq<(string, string)>>, filesData: seq<SourceFile>)
    ensures quotes.Some? <==> AllHavePairs(files)
    ensures quotes.Some? ==> quotes.value == Aggregate(files) && filesData == FilesData(files)
  {
    var all: seq<(string, string)> := [];
    filesData := [];
    var k := 0;
    while k < |files|
      invariant 0 <= k <= |files|
      invariant AllHavePairs(files[..k])
      invariant all == Aggregate(files[..k]) && filesData == FilesData(files[..k])
    {
      var (filename, data) := files[k];
      filesData := Put(filesData, filename, data);
      var next := AppendPairs(all, data);
      if next.None? {
        assert !FileHasPairs(files[k]);
        return None, filesData;
      }
      AggregateSnoc(files, k);
      all := next.value;
      k := k + 1;
    }
    assert files[..k] == files;
    quotes := Some(all);
  }

  // ---------------------------------------------------------------------------
  // Compact IDs

  /** id_to_location_map after the loop over the first |quotes| records. */
  function IdMap(quotes: seq<(string, string)>, idLength: nat): map<string, string>
  {
    if quotes == [] then map[]
    else IdMap(quotes[..|quotes| - 1], idLength)[Base62.Encode(|quotes| - 1, idLength) := quotes[|quotes| - 1].0]
  }

  /** quotes_for_ai: each record's ID and quote, in aggregate order. */
  function PromptItems(quotes: seq<(string, string)>, idLength: nat): (r: seq<(string, string)>)
    ensures |r| == |quotes|
    ensures forall i :: 0 <= i < |quotes| ==> r[i] == (Base62.Encode(i, idLength), quotes[i].1)
  {
    if quotes == [] then []
    else
      var n := |quotes| - 1;
      PromptItems(quotes[..n], idLength) + [(Base62.Encode(n, idLength), quotes[n].1)]
  }

  /** Every key of the ID map is the ID of some record. */
  lemma {:induction false} IdMapOnly(quotes: seq<(string, string)>, w: nat)
    ensures forall id :: id in IdMap(quotes, w) ==> exists i :: 0 <= i < |quotes| && id == Base62.Encode(i, w)
  {
    if quotes != [] {
      var n := |quotes| - 1;
      var prefix := quotes[..n];
      IdMapOnly(prefix, w);
      var prev := IdMap(prefix, w);
      assert IdMap(quotes, w) == prev[Base62.Encode(n, w) := quotes[n].0];
      forall id | id in IdMap(quotes, w) ensures exists i :: 0 <= i < |quotes| && id == Base62.Encode(i, w) {
        if id != Base62.Encode(n, w) {
          assert id in prev;
          var i :| 0 <= i < |prefix| && id == Base62.Encode(i, w);
        }
      }
    }
  }

  /** The ID of the next record is not yet a key of the map. */
  lemma NextIdFresh(quotes: seq<(string, string)>, total: nat)
    requires |quotes| < total
    ensures Base62.Encode(|quotes|, Base62.IdLength(total)) !in IdMap(quotes, Base62.IdLength(total))
  {
    var w := Base62.IdLength(total);
    var n := |quotes|;
    IdMapOnly(quotes, w);
    forall i | 0 <= i < n ensures Base62.Encode(i, w) != Base62.Encode(n, w) {
      Base62.FixedWidthIds(total, i, n);
    }
  }

  /** With the run's width the map holds one entry per record. */
  lemma {:induction false} IdMapSize(quotes: seq<(string, string)>, total: nat)
    requires |quotes| <= total && total >= 1
    ensures |IdMap(quotes, Base62.IdLength(total))| == |quotes|
  {
    if quotes != [] {
      var n := |quotes| - 1;
      var w := Base62.IdLength(total);
      IdMapSize(quotes[..n], total);
      NextIdFresh(quotes[..n], total);
      var prev := IdMap(quotes[..n], w);
      assert |prev[Base62.Encode(n, w) := quotes[n].0]| == |prev| + 1;
    }
  }

  /** With the run's width, record i's ID maps to record i's location: no later ID overwrites it. */
  lemma {:induction false} IdMapHas(quotes: seq<(string, string)>, total: nat)
    requires |quotes| <= total && total >= 1
    ensures var w := Base62.IdLength(total);
      forall i :: 0 <= i < |quotes| ==> Base62.Encode(i, w) in IdMap(quotes, w) && IdMap(quotes, w)[Base62.Encode(i, w)] == quotes[i].0
  {
    if quotes != [] {
      var n := |quotes| - 1;
      var w := Base62.IdLength(total);
      var prefix := quotes[..n];
      IdMapHas(prefix, total);
      var prev := IdMap(prefix, w);
      var m := prev[Base62.Encode(n, w) := quotes[n].0];
      assert IdMap(quotes, w) == m;
      forall i | 0 <= i < |quotes| ensures Base62.Encode(i, w) in m && m[Base62.Encode(i, w)] == quotes[i].0 {
        if i < n {
          Base62.FixedWidthIds(total, i, n);
          assert prefix[i] == quotes[i];
          assert Base62.Encode(i, w) in prev && prev[Base62.Encode(i, w)] == quotes[i].0;
        }
      }
    }
  }

  /** With the run's width, record i's ID maps to record i's location, and the map has one entry per record. */
  lemma IdMapSpec(quotes: seq<(string, string)>, total: nat)
    requires |quotes| <= total && total >= 1
    ensures var m := IdMap(quotes, Base62.IdLength(total));
      && |m| == |quotes|
      && (forall i :: 0 <= i < |quotes| ==>
            Base62.Encode(i, Base62.IdLength(total)) in m && m[Base62.Encode(i, Base62.IdLength(total))] == quotes[i].0)
      && (forall id :: id in m ==> exists i :: 0 <= i < |quotes| && id == Base62.Encode(i, Base62.IdLength(total)))
  {
    IdMapSize(quotes, total);
    IdMapHas(quotes, total);
    IdMapOnly(quotes, Base62.IdLength(total));
  }

  /** Every handed-out ID has the run's width and is written in base-62 symbols. */
  lemma IdsAreFixedWidth(total: nat, i: nat)
    requires total >= 1 && i < total
    ensures |Base62.Encode(i, Base62.IdLength(total))| == Base62.IdLength(total)
    ensures Base62.AllBase62(Base62.Encode(i, Base62.IdLength(total)))
  {
    Base62.FixedWidthIds(total, i, i);
    Base62.EncodeIsBase62(i, Base62.IdLength(total));
  }

  lemma AssignStep(quotes: seq<(string, string)>, i: nat, idLength: nat)
    requires i < |quotes|
    ensures IdMap(quotes[..i + 1], idLength) == IdMap(quotes[..i], idLength)[Base62.Encode(i, idLength) := quotes[i].0]
    ensures PromptItems(quotes[..i + 1], idLength) == PromptItems(quotes[..i], idLength) + [(Base62.Encode(i, idLength), quotes[i].1)]
  {
    var next := quotes[..i + 1];
    assert next[..i] == quotes[..i] && next[i] == quotes[i];
  }

  /** The ID assignment loop: the width from N - 1, then one ID per record. */
  method AssignIds(quotes: seq<(string, string)>)
    returns (idToLocationMap: map<string, string>, quotesForAi: seq<(string, string)>, idLength: nat)
    requires |quotes| >= 1
    ensures idLength == Base62.IdLength(|quotes|) && idLength >= 1
    ensures idToLocationMap == IdMap(quotes, idLength) && |idToLocationMap| == |quotes|
    ensures quotesForAi == PromptItems(quotes, idLength)
  {
    var totalQuotes := |quotes|;
    var widest := Base62.ToBase62(totalQuotes - 1, 1);
    idLength := |widest|;
    assert idLength == Base62.IdLength(totalQuotes);
    idToLocationMap := map[];
    quotesForAi := [];
    var i := 0;
    while i < totalQuotes
      invariant 0 <= i <= totalQuotes
      invariant idToLocationMap == IdMap(quotes[..i], idLength)
      invariant quotesForAi == PromptItems(quotes[..i], idLength)
    {
      var sequentialId := Base62.ToBase62(i, idLength);
      AssignStep(quotes, i, idLength);
      idToLocationMap := idToLocationMap[sequentialId := quotes[i].0];
      quotesForAi := quotesForAi + [(sequentialId, quotes[i].1)];
      i := i + 1;
    }
    assert quotes[..i] == quotes;
    IdMapSpec(quotes, totalQuotes);
  }

  // ---------------------------------------------------------------------------
  // Inversion and annotation

  /** location_to_category: every location of every category, a later category overriding an earlier one. */
  function Invert(categoryMap: ReplyParser.CategoryMap): (r: map<string, string>)
    ensures forall l :: l in r <==> exists c :: 0 <= c < |categoryMap| && l in categoryMap[c].1
  {
    if categoryMap == [] then map[]
    else
      var n := |categoryMap| - 1;
      var prev := Invert(categoryMap[..n]);
      assert forall c :: 0 <= c < n ==> categoryMap[..n][c] == categoryMap[c];
      prev + map l | l in categoryMap[n].1 :: categoryMap[n].0
  }

  /** A location takes the last category whose list holds it. */
  lemma {:induction false} InvertLastWins(categoryMap: ReplyParser.CategoryMap, location: string, c: nat)
    requires c < |categoryMap| && location in categoryMap[c].1
    requires forall d :: c < d < |categoryMap| ==> location !in categoryMap[d].1
    ensures location in Invert(categoryMap) && Invert(categoryMap)[location] == categoryMap[c].0
  {
    var n := |categoryMap| - 1;
    if c < n {
      InvertLastWins(categoryMap[..n], location, c);
    }
  }

  const Uncategorized: string := "Uncategorized"

  /** A copy of the record whose title is its location's category, or "Uncategorized" for an unlisted location. */
  function Annotate(item: Item, locationToCategory: map<string, string>): Item
    requires Get(item, "location").Some?
  {
    var location := Get(item, "location").value;
    Put(item, "title", if location in locationToCategory then locationToCategory[location] else Uncategorized)
  }

  /** The annotated record is titled by its location's category, or Uncategorized, and keeps every other field. */
  lemma AnnotateFields(item: Item, locationToCategory: map<string, string>)
    requires Get(item, "location").Some?
    ensures var location := Get(item, "location").value;
      var r := Annotate(item, locationToCategory);
      && Get(r, "title") == Some(if location in locationToCategory then locationToCategory[location] else Uncategorized)
      && (forall k :: k != "title" ==> Get(r, k) == Get(item, k))
      && Keys(r) == Keys(item) + {"title"}
  {
  }

  /** The title a record receives from a category map: its last category, or Uncategorized when none lists it. */
  lemma AnnotationTitle(categoryMap: ReplyParser.CategoryMap, item: Item)
    requires Get(item, "location").Some?
    ensures var location := Get(item, "location").value;
      var title := Get(Annotate(item, Invert(categoryMap)), "title").value;
      && ((forall c :: 0 <= c < |categoryMap| ==> location !in categoryMap[c].1) ==> title == Uncategorized)
      && (forall c :: (0 <= c < |categoryMap| && location in categoryMap[c].1
                       && forall d :: c < d < |categoryMap| ==> location !in categoryMap[d].1)
                      ==> title == categoryMap[c].0)
  {
    var location := Get(item, "location").value;
    AnnotateFields(item, Invert(categoryMap));
    forall c | 0 <= c < |categoryMap| && location in categoryMap[c].1
      && (forall d :: c < d < |categoryMap| ==> location !in categoryMap[d].1)
      ensures Invert(categoryMap)[location] == categoryMap[c].0
    {
      InvertLastWins(categoryMap, location, c);
    }
  }

  /** The records of one file, each annotated, in their order. */
  function AnnotateAll(items: seq<Item>, locationToCategory: map<string, string>): (r: seq<Item>)
    requires forall i :: 0 <= i < |items| ==> Get(items[i], "location").Some?
    ensures |r| == |items|
  {
    if items == [] then []
    else
      var n := |items| - 1;
      AnnotateAll(items[..n], locationToCategory) + [Annotate(items[n], locationToCategory)]
  }

  /** Record i of the annotated file is record i of the input, annotated. */
  lemma {:induction false} AnnotateAllAt(items: seq<Item>, locationToCategory: map<string, string>, i: nat)
    requires forall j :: 0 <= j < |items| ==> Get(items[j], "location").Some?
    requires i < |items|
    ensures AnnotateAll(items, locationToCategory)[i] == Annotate(items[i], locationToCategory)
  {
    var n := |items| - 1;
    var prev := AnnotateAll(items[..n], locationToCategory);
    var last := Annotate(items[n], locationToCategory);
    assert AnnotateAll(items, locationToCategory) == prev + [last];
    if i < n {
      AnnotateAllAt(items[..n], locationToCategory, i);
      assert items[..n][i] == items[i];
      assert (prev + [last])[i] == prev[i];
      assert prev[i] == Annotate(items[i], locationToCategory);
      assert AnnotateAll(items, locationToCategory)[i] == Annotate(items[i], locationToCategory);
    } else {
      assert i == n;
      assert (prev + [last])[n] == last;
    }
  }

  lemma AnnotateAllSnoc(items: seq<Item>, i: nat, locationToCategory: map<string, string>)
    requires i < |items| && forall j :: 0 <= j < |items| ==> Get(items[j], "location").Some?
    ensures AnnotateAll(items[..i + 1], locationToCategory)
      == AnnotateAll(items[..i], locationToCategory) + [Annotate(items[i], locationToCategory)]
  {
    var next := items[..i + 1];
    assert next[..i] == items[..i] && next[i] == items[i];
  }

  /** The annotation loop over one file: same length and order, each record annotated. */
  method AnnotateItems(items: seq<Item>, locationToCategory: map<string, string>) returns (categorizedData: seq<Item>)
    requires forall i :: 0 <= i < |items| ==> Get(items[i], "location").Some?
    ensures categorizedData == AnnotateAll(items, locationToCategory)
  {
    categorizedData := [];
    var i := 0;
    while i < |items|
      invariant 0 <= i <= |items|
      invariant categorizedData == AnnotateAll(items[..i], locationToCategory)
    {
      var location := Get(items[i], "location").value;
      var category := if location in locationToCategory then locationToCategory[location] else Uncategorized;
      var newItem := Put(items[i], "title", category);
      AnnotateAllSnoc(items, i, locationToCategory);
      categorizedData := categorizedData + [newItem];
      i := i + 1;
    }
    assert items[..i] == items;
  }

  /** The output name: the input name without its extension, then "_categorized-", the model name and ".txt". */
  function CategorizedName(filename: string, modelName: string): string
  {
    SplitExtRoot(filename) + "_categorized-" + modelName + ".txt"
  }

  /** A raw file "X.txt" becomes "X_categorized-<model>.txt". */
  lemma CategorizedNameOfTxt(filename: string, modelName: string)
    requires EndsWith(filename, ".txt") && exists k :: 0 <= k < |filename| - 4 && filename[k] != '.'
    ensures CategorizedName(filename, modelName) == filename[..|filename| - 4] + "_categorized-" + modelName + ".txt"
  {
    SplitExtTxt(filename);
  }

  // ---------------------------------------------------------------------------
  // The run

  /** What one run of the stage produces. */
  datatype Outcome =
    | UnsupportedModel
    | MissingField
    | NothingToCategorize
    | Written(rawReply: (string, string), categorized: seq<(string, seq<Item>)>)

  /** The categorised files: one per entry of original_files_data, in its order. */
  function CategorizedFiles(filesData: seq<SourceFile>, modelName: string, locationToCategory: map<string, string>)
    : (r: seq<(string, seq<Item>)>)
    requires AllHavePairs(filesData)
    ensures |r| == |filesData|
  {
    if filesData == [] then []
    else
      var n := |filesData| - 1;
      var last := filesData[n];
      assert FileHasPairs(last);
      CategorizedFiles(filesData[..n], modelName, locationToCategory)
        + [(CategorizedName(last.0, modelName), AnnotateAll(last.1, locationToCategory))]
  }

  /** Categorised file f is file f renamed, with its records annotated. */
  lemma {:induction false} CategorizedFilesAt(filesData: seq<SourceFile>, modelName: string,
                                              locationToCategory: map<string, string>, f: nat)
    requires AllHavePairs(filesData) && f < |filesData|
    ensures FileHasPairs(filesData[f])
    ensures CategorizedFiles(filesData, modelName, locationToCategory)[f]
      == (CategorizedName(filesData[f].0, modelName), AnnotateAll(filesData[f].1, locationToCategory))
  {
    var n := |filesData| - 1;
    PrefixHasPairs(filesData, n);
    var prev := CategorizedFiles(filesData[..n], modelName, locationToCategory);
    assert FileHasPairs(filesData[n]);
    var last := (CategorizedName(filesData[n].0, modelName), AnnotateAll(filesData[n].1, locationToCategory));
    assert CategorizedFiles(filesData, modelName, locationToCategory) == prev + [last];
    if f < n {
      CategorizedFilesAt(filesData[..n], modelName, locationToCategory, f);
      assert filesData[..n][f] == filesData[f];
      assert (prev + [last])[f] == prev[f];
    } else {
      assert f == n;
      assert (prev + [last])[n] == last;
    }
  }

  lemma CategorizedFilesSnoc(filesData: seq<SourceFile>, k: nat, modelName: string, locationToCategory: map<string, string>)
    requires AllHavePairs(filesData) && k < |filesData|
    ensures AllHavePairs(filesData[..k]) && AllHavePairs(filesData[..k + 1]) && FileHasPairs(filesData[k])
    ensures CategorizedFiles(filesData[..k + 1], modelName, locationToCategory)
      == CategorizedFiles(filesData[..k], modelName, locationToCategory)
         + [(CategorizedName(filesData[k].0, modelName), AnnotateAll(filesData[k].1, locationToCategory))]
  {
    PrefixHasPairs(filesData, k);
    PrefixHasPairs(filesData, k + 1);
    assert FileHasPairs(filesData[k]);
    var next := filesData[..k + 1];
    assert next[..k] == filesData[..k] && next[k] == filesData[k];
  }

  /** The output loop: annotate each file's records and name the result after the file. */
  method WriteCategorized(filesData: seq<SourceFile>, modelName: string, locationToCategory: map<string, string>)
    returns (written: seq<(string, seq<Item>)>)
    requires AllHavePairs(filesData)
    ensures written == CategorizedFiles(filesData, modelName, locationToCategory)
  {
    written := [];
    var k := 0;
    while k < |filesData|
      invariant 0 <= k <= |filesData|
      invariant written == CategorizedFiles(filesData[..k], modelName, locationToCategory)
    {
      var (originalFilename, itemsList) := filesData[k];
      assert FileHasPairs(filesData[k]);
      var categorizedData := AnnotateItems(itemsList, locationToCategory);
      CategorizedFilesSnoc(filesData, k, modelName, locationToCategory);
      written := written + [(CategorizedName(originalFilename, modelName), categorizedData)];
      k := k + 1;
    }
    assert filesData[..k] == filesData;
  }

  function RawReplyName(modelName: string): string
  {
    "api_request_return_" + Lower(modelName) + ".txt"
  }

  /**
   * run: pick the categoriser, aggregate the raw files, assign compact IDs, ask the categoriser,
   * keep its raw reply, parse it, invert it and annotate every record of every raw file.
   * The categoriser is a parameter; the directory is given as its listing with parsed contents.
   */
  method Run(dir: seq<SourceFile>, keyword: string, modelName: string,
             categorize: (Model, seq<(string, string)>, string) -> string)
    returns (outcome: Outcome)
    ensures SelectModel(modelName).None? <==> outcome == UnsupportedModel
    ensures SelectModel(modelName).Some? && !AllHavePairs(RawFiles(dir, keyword)) <==> outcome == MissingField
    ensures outcome == NothingToCategorize <==>
      SelectModel(modelName).Some? && AllHavePairs(RawFiles(dir, keyword)) && Aggregate(RawFiles(dir, keyword)) == []
    ensures outcome.Written? ==>
      var raw := RawFiles(dir, keyword);
      && SelectModel(modelName).Some? && AllHavePairs(raw) && Aggregate(raw) != []
      && var quotes := Aggregate(raw);
         var idLength := Base62.IdLength(|quotes|);
         var reply := categorize(SelectModel(modelName).value, PromptItems(quotes, idLength), keyword);
         var categoryMap := ReplyParser.ParseReply(reply, IdMap(quotes, idLength), idLength);
         && outcome.rawReply == (RawReplyName(modelName), reply)
         && outcome.categorized == CategorizedFiles(FilesData(raw), modelName, Invert(categoryMap))
  {
    var model := SelectModel(modelName);
    if model.None? {
      return UnsupportedModel;
    }
    var filesToProcess := RawFiles(dir, keyword);
    var quotes, originalFilesData := AggregateFiles(filesToProcess);
    if quotes.None? {
      return MissingField;
    }
    if quotes.value == [] {
      return NothingToCategorize;
    }
    var idToLocationMap, quotesForAi, idLength := AssignIds(quotes.value);
    var rawTextResponse := categorize(model.value, quotesForAi, keyword);
    var rawOutput := (RawReplyName(modelName), rawTextResponse);
    var categoryMap := ReplyParser.ParseCustomFormat(rawTextResponse, idToLocationMap, idLength);
    var locationToCategory := Invert(categoryMap);
    var written := WriteCategorized(originalFilesData, modelName, locationToCategory);
    return Written(rawOutput, written);
  }
}
