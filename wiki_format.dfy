/**
 * The wiki formatter: every record of the distilled files of one model becomes a line
 * {{q|quote|location|reference}}; the lines are grouped by the record's category and written
 * as one section per category, categories ascending and the lines of each section ascending.
 */
module WikiFormat {
  import opened Wrappers
  import opened Text
  import opened Dicts
  import opened Records
  import opened Sorting

  /** The library's book names as they appear in file names, and their wiki abbreviations. */
  const AbbreviationMap: seq<(string, string)> := [
    ("days-remembrance", "DR"),
    ("epistle-son-wolf", "ESW"),
    ("gems-divine-mysteries", "GDM"),
    ("gleanings-writings-bahaullah", "GWB"),
    ("hidden-words", "HW"),
    ("kitab-i-aqdas", "KA"),
    ("kitab-i-iqan", "KI"),
    ("prayers-meditations-bahaullah", "PM"),
    ("call-divine-beloved", "CDB"),
    ("summons-lord-hosts", "SLH"),
    ("tabernacle-unity", "TU"),
    ("tablets-bahaullah", "TB"),
    ("additional-prayers-revealed-bahaullah", "APB"),
    ("additional-tablets-extracts-from-tablets-revealed-bahaullah", "ATB"),
    ("selections-writings-bab", "SWB"),
    ("memorials-faithful", "MF"),
    ("light-of-the-world", "LW"),
    ("paris-talks", "PT"),
    ("promulgation-universal-peace", "PUP"),
    ("secret-divine-civilization", "SDC"),
    ("selections-writings-abdul-baha", "SWAB"),
    ("some-answered-questions", "SAQ"),
    ("tablet-auguste-forel", "TAF"),
    ("tablets-divine-plan", "TDP"),
    ("tablets-hague-abdul-baha", "TTH"),
    ("travelers-narrative", "TN"),
    ("twelve-table-talks-abdul-baha", "TTT"),
    ("will-testament-abdul-baha", "WT"),
    ("prayers-abdul-baha", "TPR"),
    ("additional-tablets-extracts-talks-abdul-baha", "ATET"),
    ("additional-prayers-revealed-abdul-baha", "APR")
  ]

  const ChatGPTWikiSuffix: string := "_final_for_wiki-ChatGPT.txt"
  const GeminiWikiSuffix: string := "_final_for_wiki-Gemini.txt"

  /** Every abbreviation is non-empty and fits the source field of a template. */
  lemma AbbreviationsUsable()
    ensures forall i :: 0 <= i < |AbbreviationMap| ==>
      AbbreviationMap[i].1 != [] && '}' !in AbbreviationMap[i].1 && '\n' !in AbbreviationMap[i].1
  {
  }

  /** s without a trailing p compared ignoring ASCII case; $ also matches before a final line break. */
  function DropAtEndIgnoreCase(s: string, p: string): Option<string>
  {
    if EndsWithIgnoreCase(s, p) then Some(s[..|s| - |p|])
    else if |s| >= 1 && s[|s| - 1] == '\n' && EndsWithIgnoreCase(s[..|s| - 1], p) then Some(s[..|s| - 1 - |p|] + "\n")
    else None
  }

  /**
   * The book name of a file: every keyword + "_" removed, then a trailing
   * _final_for_wiki-(ChatGPT|Gemini).txt removed ignoring case.
   */
  function AbbreviationKey(filename: string, keyword: string): string
  {
    var temp := ReplaceAll(filename, keyword + "_", "");
    match DropAtEndIgnoreCase(temp, ChatGPTWikiSuffix)
    case Some(base) => base
    case None =>
      match DropAtEndIgnoreCase(temp, GeminiWikiSuffix)
      case Some(base) => base
      case None => temp
  }

  /** abbreviation_map.get(key, ""), for the formatter's table of books. */
  function Abbreviation(books: seq<(string, string)>, key: string): string
  {
    match Get(books, key)
    case Some(a) => a
    case None => ""
  }

  /** The abbreviation when there is one, the record's location otherwise. */
  function Reference(abbreviation: string, location: string): string
  {
    if abbreviation != "" then abbreviation else location
  }

  lemma GetInMap(m: seq<(string, string)>, k: string)
    requires Get(m, k).Some?
    ensures exists i :: 0 <= i < |m| && m[i] == (k, Get(m, k).value)
  {
    if m[0].0 != k {
      GetInMap(m[1..], k);
      var i :| 0 <= i < |m[1..]| && m[1..][i] == (k, Get(m, k).value);
      assert m[i + 1] == m[1..][i];
    }
  }

  /** A book in the map is cited by its abbreviation, any other file by each record's location. */
  lemma ReferenceChoice(key: string, location: string)
    ensures Get(AbbreviationMap, key).Some? ==> Reference(Abbreviation(AbbreviationMap, key), location) == Get(AbbreviationMap, key).value
    ensures Get(AbbreviationMap, key).None? ==> Reference(Abbreviation(AbbreviationMap, key), location) == location
  {
    if Get(AbbreviationMap, key).Some? {
      GetInMap(AbbreviationMap, key);
      AbbreviationsUsable();
    }
  }

  /** A name ending in p, in any case, loses exactly p. */
  lemma DropOwnSuffix(book: string, p: string)
    ensures DropAtEndIgnoreCase(book + p, p) == Some(book)
  {
    var s := book + p;
    assert s[|s| - |p|..] == p && s[..|s| - |p|] == book;
  }

  /** A Gemini file name does not end in the ChatGPT suffix, in any case. */
  lemma GeminiNotChatGPT(book: string)
    ensures DropAtEndIgnoreCase(book + GeminiWikiSuffix, ChatGPTWikiSuffix).None?
  {
    var s := book + GeminiWikiSuffix;
    var n := |ChatGPTWikiSuffix|;
    assert s[|s| - 1] == 't' && s[|s| - 5] == 'i';
    if n <= |s| {
      assert s[|s| - n..][n - 5] == s[|s| - 5];
      assert Lower(s[|s| - n..])[n - 5] == 'i';
      assert Lower(ChatGPTWikiSuffix)[n - 5] == 't';
    }
  }

  /** With no other keyword + "_" in it, a name starting with keyword + "_" loses just that. */
  lemma ReplaceLeadingKeyword(keyword: string, rest: string)
    requires !Contains(rest, keyword + "_")
    ensures ReplaceAll(keyword + "_" + rest, keyword + "_", "") == rest
  {
    var pat := keyword + "_";
    var name := pat + rest;
    assert StartsWith(name, pat) && name[|pat|..] == rest;
    ReplaceAllLeading(name, pat, "");
    ReplaceAllAbsent(rest, pat, "");
  }

  /** A file named keyword_<book>_final_for_wiki-<model>.txt yields the key <book>. */
  lemma AbbreviationKeyOfWikiFile(keyword: string, book: string, model: Model)
    requires var suffix := if model == ChatGPT then ChatGPTWikiSuffix else GeminiWikiSuffix;
      !Contains(book + suffix, keyword + "_")
    ensures var suffix := if model == ChatGPT then ChatGPTWikiSuffix else GeminiWikiSuffix;
      AbbreviationKey(keyword + "_" + book + suffix, keyword) == book
  {
    var suffix := if model == ChatGPT then ChatGPTWikiSuffix else GeminiWikiSuffix;
    assert keyword + "_" + book + suffix == keyword + "_" + (book + suffix);
    ReplaceLeadingKeyword(keyword, book + suffix);
    DropOwnSuffix(book, suffix);
    if model == Gemini {
      GeminiNotChatGPT(book);
    }
  }

  /** The (category, wiki line) of one record, or None where a field is missing and the lookup raises. */
  function Entry(item: Item, abbreviation: string): Option<(string, string)>
  {
    match (Get(item, "title"), Get(item, "location"), Get(item, "quote"))
    case (Some(title), Some(location), Some(quote)) =>
      Some((title, QuoteTemplate(quote, location, Reference(abbreviation, location))))
    case _ => None
  }

  /** The records of one file, each with the file's abbreviation. */
  function Tagged(data: seq<Item>, abbreviation: string): (r: seq<(Item, string)>)
    ensures |r| == |data| && forall k :: 0 <= k < |r| ==> r[k] == (data[k], abbreviation)
  {
    seq(|data|, k requires 0 <= k < |data| => (data[k], abbreviation))
  }

  /** The records of one file, each with the abbreviation its file name gives. */
  function FileRecords(file: SourceFile, keyword: string, books: seq<(string, string)>): seq<(Item, string)>
  {
    Tagged(file.1, Abbreviation(books, AbbreviationKey(file.0, keyword)))
  }

  /** The records of all files, file by file, in listing order. */
  function AllRecords(files: seq<SourceFile>, keyword: string, books: seq<(string, string)>): seq<(Item, string)>
  {
    if files == [] then []
    else AllRecords(files[..|files| - 1], keyword, books) + FileRecords(files[|files| - 1], keyword, books)
  }

  lemma {:induction false} AllRecordsAppend(a: seq<SourceFile>, b: seq<SourceFile>, keyword: string, books: seq<(string, string)>)
    ensures AllRecords(a + b, keyword, books) == AllRecords(a, keyword, books) + AllRecords(b, keyword, books)
    decreases |b|
  {
    if b == [] {
      assert a + b == a;
    } else {
      var b' := b[..|b| - 1];
      assert (a + b)[..|a + b| - 1] == a + b';
      AllRecordsAppend(a, b', keyword, books);
    }
  }

  lemma AllRecordsSplit(files: seq<SourceFile>, keyword: string, books: seq<(string, string)>, i: nat)
    requires i < |files|
    ensures AllRecords(files, keyword, books) == AllRecords(files[..i + 1], keyword, books) + AllRecords(files[i + 1..], keyword, books)
  {
    assert files == files[..i + 1] + files[i + 1..];
    AllRecordsAppend(files[..i + 1], files[i + 1..], keyword, books);
  }

  /** The (category, line) pairs of all records, or None when any record lacks a field. */
  function Entries(records: seq<(Item, string)>): (r: Option<seq<(string, string)>>)
    ensures r.Some? <==> forall i :: 0 <= i < |records| ==> Entry(records[i].0, records[i].1).Some?
    ensures r.Some? ==> |r.value| == |records|
    ensures r.Some? ==> forall i :: 0 <= i < |records| ==> Entry(records[i].0, records[i].1) == Some(r.value[i])
  {
    if records == [] then Some([])
    else
      var last := records[|records| - 1];
      match (Entries(records[..|records| - 1]), Entry(last.0, last.1))
      case (Some(e), Some(x)) => Some(e + [x])
      case _ => None
  }

  /** all_quotes_by_category[category]: a defaultdict(list) gives the empty list for a new key. */
  function Lines(groups: seq<(string, seq<string>)>, category: string): seq<string>
  {
    match Get(groups, category)
    case Some(lines) => lines
    case None => []
  }

  /** Appends one line to the list of its category, creating the list for a new category. */
  function AddLine(groups: seq<(string, seq<string>)>, category: string, line: string): seq<(string, seq<string>)>
  {
    Put(groups, category, Lines(groups, category) + [line])
  }

  /** The grouping the formatter builds, one line at a time. */
  function Grouped(entries: seq<(string, string)>): seq<(string, seq<string>)>
  {
    if entries == [] then []
    else
      var last := entries[|entries| - 1];
      AddLine(Grouped(entries[..|entries| - 1]), last.0, last.1)
  }

  /** Reference definition: the lines of one category, in the order of the records. */
  function LinesOf(entries: seq<(string, string)>, category: string): seq<string>
  {
    if entries == [] then []
    else
      var last := entries[|entries| - 1];
      LinesOf(entries[..|entries| - 1], category) + (if last.0 == category then [last.1] else [])
  }

  function Categories(entries: seq<(string, string)>): set<string>
  {
    set i | 0 <= i < |entries| :: entries[i].0
  }

  lemma CategoriesSnoc(entries: seq<(string, string)>)
    requires entries != []
    ensures Categories(entries) == Categories(entries[..|entries| - 1]) + {entries[|entries| - 1].0}
  {
    var p := entries[..|entries| - 1];
    forall c | c in Categories(entries) ensures c in Categories(p) + {entries[|entries| - 1].0} {
      var i :| 0 <= i < |entries| && entries[i].0 == c;
      if i < |p| {
        assert p[i] == entries[i];
      }
    }
    forall c | c in Categories(p) ensures c in Categories(entries) {
      var i :| 0 <= i < |p| && p[i].0 == c;
      assert entries[i] == p[i];
    }
  }

  /** The grouping has one key per category, and under each the category's lines in record order. */
  lemma {:induction false} GroupedSpec(entries: seq<(string, string)>)
    ensures DistinctKeys(Grouped(entries))
    ensures Keys(Grouped(entries)) == Categories(entries)
    ensures forall c :: Lines(Grouped(entries), c) == LinesOf(entries, c)
    decreases |entries|
  {
    if entries != [] {
      GroupedSpec(entries[..|entries| - 1]);
      CategoriesSnoc(entries);
    }
  }

  /** Each line of a category is there as often as a record with that category renders to it. */
  lemma {:induction false} LinesOfCount(entries: seq<(string, string)>, category: string, line: string)
    ensures multiset(LinesOf(entries, category))[line] == multiset(entries)[(category, line)]
    decreases |entries|
  {
    if entries != [] {
      var p := entries[..|entries| - 1];
      assert entries == p + [entries[|entries| - 1]];
      LinesOfCount(p, category, line);
    }
  }

  /** The keys of the grouping in insertion order. */
  function CategoryList(groups: seq<(string, seq<string>)>): (r: seq<string>)
    ensures forall c :: c in r <==> c in Keys(groups)
    ensures DistinctKeys(groups) ==> Distinct(r)
  {
    var r := seq(|groups|, i requires 0 <= i < |groups| => groups[i].0);
    assert forall c :: c in Keys(groups) ==> c in r by {
      forall c | c in Keys(groups) ensures c in r {
        var i :| 0 <= i < |groups| && groups[i].0 == c;
        assert r[i] == c;
      }
    }
    r
  }

  /** The document: each category in ascending order with its lines in ascending order. */
  function Layout(groups: seq<(string, seq<string>)>): (r: seq<(string, seq<string>)>)
  {
    var categories := Sort(CategoryList(groups));
    seq(|categories|, i requires 0 <= i < |categories| => (categories[i], Sort(Lines(groups, categories[i]))))
  }

  /** The headers of a layout, in order. */
  function Headers(layout: seq<(string, seq<string>)>): (r: seq<string>)
    ensures |r| == |layout| && forall i :: 0 <= i < |layout| ==> r[i] == layout[i].0
  {
    seq(|layout|, i requires 0 <= i < |layout| => layout[i].0)
  }

  /** The keys of a grouping without repeated keys, sorted: strictly ascending, and the same keys. */
  lemma SortedKeys(groups: seq<(string, seq<string>)>)
    requires DistinctKeys(groups)
    ensures Headers(Layout(groups)) == Sort(CategoryList(groups))
    ensures Increasing(Sort(CategoryList(groups)))
    ensures forall c :: c in Sort(CategoryList(groups)) <==> c in Keys(groups)
  {
    var categories := CategoryList(groups);
    SortDistinct(categories);
    forall c ensures c in Sort(categories) <==> c in categories {
      assert c in Sort(categories) <==> c in multiset(Sort(categories));
    }
  }

  /** The sections' headers are the records' categories, each once, strictly ascending. */
  lemma LayoutHeaders(entries: seq<(string, string)>)
    ensures var headers := Headers(Layout(Grouped(entries)));
      Increasing(headers) && forall c :: c in headers <==> c in Categories(entries)
  {
    GroupedSpec(entries);
    SortedKeys(Grouped(entries));
  }

  /** Each section's lines are ascending and are its category's records, each exactly once. */
  lemma LayoutSections(entries: seq<(string, string)>)
    ensures var layout := Layout(Grouped(entries));
      forall i :: 0 <= i < |layout| ==>
        && Sorted(layout[i].1)
        && forall line :: multiset(layout[i].1)[line] == multiset(entries)[(layout[i].0, line)]
  {
    var layout := Layout(Grouped(entries));
    GroupedSpec(entries);
    forall i, line | 0 <= i < |layout|
      ensures multiset(layout[i].1)[line] == multiset(entries)[(layout[i].0, line)]
    {
      LinesOfCount(entries, layout[i].0, line);
    }
  }

  lemma CategoriesSame(a: seq<(string, string)>, b: seq<(string, string)>)
    requires multiset(a) == multiset(b)
    ensures Categories(a) == Categories(b)
  {
    forall c | c in Categories(a) ensures c in Categories(b) {
      var i :| 0 <= i < |a| && a[i].0 == c;
      assert a[i] in multiset(b);
      var j :| 0 <= j < |b| && b[j] == a[i];
    }
    forall c | c in Categories(b) ensures c in Categories(a) {
      var j :| 0 <= j < |b| && b[j].0 == c;
      assert b[j] in multiset(a);
      var i :| 0 <= i < |a| && a[i] == b[j];
    }
  }

  lemma SectionLinesSame(a: seq<(string, string)>, b: seq<(string, string)>, c: string)
    requires multiset(a) == multiset(b)
    ensures Sort(LinesOf(a, c)) == Sort(LinesOf(b, c))
  {
    forall line ensures multiset(LinesOf(a, c))[line] == multiset(LinesOf(b, c))[line] {
      LinesOfCount(a, c, line);
      LinesOfCount(b, c, line);
    }
    assert multiset(LinesOf(a, c)) == multiset(LinesOf(b, c));
    SortedUnique(Sort(LinesOf(a, c)), Sort(LinesOf(b, c)));
  }

  /** The document depends only on which records there are, not on the order files or records come in. */
  lemma LayoutOrderFree(a: seq<(string, string)>, b: seq<(string, string)>)
    requires multiset(a) == multiset(b)
    ensures Layout(Grouped(a)) == Layout(Grouped(b))
  {
    var ga := Grouped(a);
    var gb := Grouped(b);
    GroupedSpec(a);
    GroupedSpec(b);
    CategoriesSame(a, b);
    SameElementsSort(CategoryList(ga), CategoryList(gb));
    forall c | c in Sort(CategoryList(ga)) ensures Sort(Lines(ga, c)) == Sort(Lines(gb, c)) {
      SectionLinesSame(a, b, c);
    }
    LayoutSame(ga, gb);
  }

  /** Groupings with the same sorted keys and the same sorted lines under each are laid out alike. */
  lemma LayoutSame(ga: seq<(string, seq<string>)>, gb: seq<(string, seq<string>)>)
    requires Sort(CategoryList(ga)) == Sort(CategoryList(gb))
    requires forall c :: c in Sort(CategoryList(ga)) ==> Sort(Lines(ga, c)) == Sort(Lines(gb, c))
    ensures Layout(ga) == Layout(gb)
  {
  }

  /** The lines of a section, each followed by a line break. */
  function LinesText(lines: seq<string>): string
  {
    if lines == [] then ""
    else LinesText(lines[..|lines| - 1]) + (lines[|lines| - 1] + "\n")
  }

  /** The header of a section. */
  function Header(category: string): string
  {
    "== " + category + " ==\n"
  }

  /** "== category ==", the lines, and a blank line. */
  function Section(category: string, lines: seq<string>): string
  {
    Header(category) + LinesText(lines) + "\n"
  }

  function Document(layout: seq<(string, seq<string>)>): string
  {
    if layout == [] then ""
    else Document(layout[..|layout| - 1]) + Section(layout[|layout| - 1].0, layout[|layout| - 1].1)
  }

  /** What the formatter writes for a grouping. */
  function Render(groups: seq<(string, seq<string>)>): string
  {
    Document(Layout(groups))
  }

  /** Writing a section's lines after what is already written, each followed by a line break. */
  method WriteLines(written: string, lines: seq<string>) returns (text: string)
    ensures text == written + LinesText(lines)
  {
    text := written;
    for j := 0 to |lines|
      invariant text == written + LinesText(lines[..j])
    {
      assert lines[..j + 1][..j] == lines[..j];
      AppendAssoc(written, LinesText(lines[..j]), lines[j] + "\n");
      text := text + (lines[j] + "\n");
    }
    assert lines[..|lines|] == lines;
  }

  /** Writing the output file: one section per sorted category, its sorted lines, a blank line. */
  method Emit(groups: seq<(string, seq<string>)>) returns (text: string)
    ensures text == Render(groups)
  {
    ghost var layout := Layout(groups);
    var categories := Sort(CategoryList(groups));
    text := "";
    for i := 0 to |categories|
      invariant text == Document(layout[..i])
    {
      var category := categories[i];
      ghost var written := text;
      var quoteLines := Sort(Lines(groups, category));
      text := WriteLines(text + Header(category), quoteLines);
      AppendAssoc(written, Header(category) + LinesText(quoteLines), "\n");
      AppendAssoc(written, Header(category), LinesText(quoteLines));
      text := text + "\n";
      assert layout[i] == (category, quoteLines);
      assert layout[..i + 1][..i] == layout[..i];
    }
    assert layout[..|categories|] == layout;
  }

  /** The distilled files of the chosen model: names ending in the model suffix, in listing order. */
  function WikiFiles(dir: seq<SourceFile>, modelSuffix: string): (r: seq<SourceFile>)
    ensures forall f :: f in r <==> f in dir && EndsWith(f.0, modelSuffix)
  {
    if dir == [] then []
    else (if EndsWith(dir[0].0, modelSuffix) then [dir[0]] else []) + WikiFiles(dir[1..], modelSuffix)
  }

  datatype Outcome =
    | NoFiles               // no file with the suffix: nothing is written
    | MissingField          // a record lacks title, location or quote: the lookup raises, nothing is written
    | Written(text: string) // the whole output file

  /** run(input_dir, final_output_file, model_suffix) with books as the abbreviation table. */
  function Format(dir: seq<SourceFile>, inputDir: string, modelSuffix: string, books: seq<(string, string)>): Outcome
  {
    var files := WikiFiles(dir, modelSuffix);
    if files == [] then NoFiles
    else
      match Entries(AllRecords(files, Basename(inputDir), books))
      case None => MissingField
      case Some(entries) => Written(Render(Grouped(entries)))
  }

  /** Nothing is written exactly when no listed file ends in the suffix. */
  lemma NoFilesIff(dir: seq<SourceFile>, inputDir: string, modelSuffix: string, books: seq<(string, string)>)
    ensures Format(dir, inputDir, modelSuffix, books) == NoFiles <==> forall i :: 0 <= i < |dir| ==> !EndsWith(dir[i].0, modelSuffix)
  {
    var files := WikiFiles(dir, modelSuffix);
    if files != [] {
      assert files[0] in files;
    }
    forall i | 0 <= i < |dir| && EndsWith(dir[i].0, modelSuffix) ensures files != [] {
      assert dir[i] in files;
    }
  }

  lemma SnocSlice<T>(before: seq<T>, s: seq<T>, j: nat)
    requires j < |s|
    ensures before + s[..j + 1] == before + s[..j] + [s[j]]
  {
    assert s[..j + 1] == s[..j] + [s[j]];
  }

  lemma EntriesSnoc(records: seq<(Item, string)>, r: (Item, string), entries: seq<(string, string)>, x: (string, string))
    requires Entries(records) == Some(entries) && Entry(r.0, r.1) == Some(x)
    ensures Entries(records + [r]) == Some(entries + [x])
  {
    assert (records + [r])[..|records|] == records;
  }

  lemma GroupedSnoc(entries: seq<(string, string)>, x: (string, string))
    ensures Grouped(entries + [x]) == AddLine(Grouped(entries), x.0, x.1)
  {
    assert (entries + [x])[..|entries|] == entries;
  }

  lemma AllRecordsSnoc(files: seq<SourceFile>, keyword: string, books: seq<(string, string)>, i: nat)
    requires i < |files|
    ensures AllRecords(files[..i + 1], keyword, books) == AllRecords(files[..i], keyword, books) + FileRecords(files[i], keyword, books)
  {
    assert files[..i + 1][..i] == files[..i];
  }

  /** A record that raises stops the whole run, whatever follows it. */
  lemma EntriesPrefixNone(a: seq<(Item, string)>, b: seq<(Item, string)>)
    requires Entries(a).None?
    ensures Entries(a + b).None?
  {
    var k :| 0 <= k < |a| && Entry(a[k].0, a[k].1).None?;
    assert (a + b)[k] == a[k];
  }

  /** One record's category and wiki line; None where item['title'], item['location'] or item['quote'] raises. */
  method RenderItem(item: Item, abbreviation: string) returns (entry: Option<(string, string)>)
    ensures entry == Entry(item, abbreviation)
  {
    var category := Get(item, "title");
    var location := Get(item, "location");
    var quote := Get(item, "quote");
    if category.None? || location.None? || quote.None? {
      return None;
    }
    var reference := Reference(abbreviation, location.value);
    var wikiLine := QuoteTemplate(quote.value, location.value, reference);
    return Some((category.value, wikiLine));
  }

  /** The records of one file added to the grouping, item by item; None where a record raises. */
  method AddFile(groups: seq<(string, seq<string>)>, data: seq<Item>, abbreviation: string,
                 ghost seen: seq<(Item, string)>, ghost done: seq<(string, string)>)
    returns (result: Option<seq<(string, seq<string>)>>, ghost seen': seq<(Item, string)>, ghost done': seq<(string, string)>)
    requires Entries(seen) == Some(done) && groups == Grouped(done)
    ensures seen' == seen + Tagged(data, abbreviation)
    ensures result.None? <==> Entries(seen').None?
    ensures result.Some? ==> Entries(seen') == Some(done') && result.value == Grouped(done')
  {
    ghost var records := Tagged(data, abbreviation);
    seen', done' := seen, done;
    var allQuotesByCategory := groups;
    for j := 0 to |data|
      invariant seen' == seen + records[..j]
      invariant Entries(seen') == Some(done')
      invariant allQuotesByCategory == Grouped(done')
    {
      var entry := RenderItem(data[j], abbreviation);
      if entry.None? {
        assert (seen + records)[|seen| + j] == records[j];
        return None, seen + records, done';
      }
      var (category, wikiLine) := entry.value;
      EntriesSnoc(seen', records[j], done', (category, wikiLine));
      GroupedSnoc(done', (category, wikiLine));
      SnocSlice(seen, records, j);
      seen' := seen' + [records[j]];
      done' := done' + [(category, wikiLine)];
      allQuotesByCategory := AddLine(allQuotesByCategory, category, wikiLine);
    }
    assert records[..|data|] == records;
    return Some(allQuotesByCategory), seen', done';
  }

  /** The formatter over a given abbreviation table. */
  method FormatWith(dir: seq<SourceFile>, inputDir: string, modelSuffix: string, books: seq<(string, string)>)
    returns (outcome: Outcome)
    ensures outcome == Format(dir, inputDir, modelSuffix, books)
  {
    var keyword := Basename(inputDir);
    var textFiles := WikiFiles(dir, modelSuffix);
    if textFiles == [] {
      return NoFiles;
    }
    var allQuotesByCategory: seq<(string, seq<string>)> := [];
    ghost var seen: seq<(Item, string)> := [];
    ghost var done: seq<(string, string)> := [];
    for i := 0 to |textFiles|
      invariant seen == AllRecords(textFiles[..i], keyword, books)
      invariant Entries(seen) == Some(done)
      invariant allQuotesByCategory == Grouped(done)
    {
      var (filename, data) := textFiles[i];
      var abbreviation := Abbreviation(books, AbbreviationKey(filename, keyword));
      var result;
      result, seen, done := AddFile(allQuotesByCategory, data, abbreviation, seen, done);
      AllRecordsSnoc(textFiles, keyword, books, i);
      if result.None? {
        AllRecordsSplit(textFiles, keyword, books, i);
        EntriesPrefixNone(seen, AllRecords(textFiles[i + 1..], keyword, books));
        return MissingField;
      }
      allQuotesByCategory := result.value;
    }
    assert textFiles[..|textFiles|] == textFiles;
    var text := Emit(allQuotesByCategory);
    return Written(text);
  }

  /** run(input_dir, final_output_file, model_suffix) with the formatter's own abbreviation table. */
  method Run(dir: seq<SourceFile>, inputDir: string, modelSuffix: string) returns (outcome: Outcome)
    ensures outcome == Format(dir, inputDir, modelSuffix, AbbreviationMap)
  {
    outcome := FormatWith(dir, inputDir, modelSuffix, AbbreviationMap);
  }
}
