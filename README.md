# Bahaiquest quote pipeline: a verified model of its string and collection core

The Bahaiquest scripts build thematic quote pages for a wiki. The pipeline has five stages:

1. It searches a text library for a keyword and saves each book's hits as a JSON file of records (`location`, `quote`, `title`).
2. A language model sorts every paragraph into categories. In the current version the paragraphs are sent under compact base-62 IDs, and the model answers with lines `Category:<IDs run together>`.
3. A second model shortens every paragraph to an excerpt.
4. The records are written as wiki markup. Each record becomes a `{{q|excerpt|location|reference}}` line, grouped under `== category ==` headers, with categories and lines in ascending order.
5. A validator checks that every excerpt still occurs verbatim in its original paragraph. It tags the lines that fail with `[Warning]`, in place.

This project models the deterministic layer around the two model calls and proves what that layer promises.

- **Base62** (`base62.dfy`) is the compact-ID codec: zero-padded base-62 encoding, the run's fixed ID width, decoding and injectivity.
- **ReplyParser** (`reply_parser.dfy`) parses the model's reply. It tolerates malformed lines, drops unresolved chunks, and lets the last non-empty line win. The render/parse round trip is proved here.
- **Categorization** (`categorization.dfy`) is the current categorisation run: raw-file selection, aggregation, ID assignment, inversion of the category map, annotation with the `Uncategorized` default, and output names. **LegacyCategorization** (`legacy_categorization.dfy`) is the older run, where the model answers with a map of locations directly.
- **Distill** (`distill.dfy`) covers the distillation stage: input-file selection, output-name derivation and the per-record mapping, in directory and single-file mode.
- **WikiFormat** (`wiki_format.dfy`) is the wiki formatter. It derives the abbreviation key, chooses the reference, builds the template line, groups by category and emits sorted sections.
- **Validator** (`validator.dfy`) is the verbatim validator. The lazy template regex is modelled exactly. The module also covers the skip rules, the check, the in-place rewrite of an array of lines with its counters, idempotence, and the loading of the original quotes.
- **Pipeline** (`pipeline.dfy`) holds properties across stages. File names survive renaming back to the book's abbreviation, and a rendered line whose quote and location contain no '|' or newline, and whose reference contains no '}' or newline, is exactly what the validator parses and checks.
- **Supporting modules:**
  - **Text** (`text.dfy`) models Python's `strip`, `find`, `replace`, `split`, `in` and `lower` over code points.
  - **Dicts** (`dicts.dfy`) models insertion-ordered dicts as association lists.
  - **Sorting** (`sorting.dfy`) models `sorted()` on strings as an insertion sort by code point, with uniqueness of the sorted permutation.
  - **Records** (`records.dfy`) holds the record types, model selection and the quote template.
  - **Wrappers** (`wrappers.dfy`) provides `Option`.

Loops in the source are methods with loops, each proved equal to a specification function whose properties are proved as lemmas. Examples are the divmod loop of the encoder, the reply and chunk loops, the ID and annotation loops, the distillation loops, the formatter's grouping and writing loops, and the validator's line loop over an `array<string>`. The language models are function-valued parameters. Directory listings and parsed JSON files are given as sequences.

Where the design description and the code disagree, the model follows the code. The design describes a validator that collapses whitespace and strips markup tags on both sides before the substring test. The code only trims the excerpt, strips `.` characters from its ends, trims again, and tests raw containment. Likewise, `strip('...')` strips a character set, not a literal ellipsis.

## Model

| member | source | states |
|---|---|---|
| Base62.DigitChar | Bahaiquest/CreatePages-AI/modules/categorize_quotes.py:10 | digit d below 62 maps to a symbol of the alphabet 0-9a-zA-Z |
| Base62.DigitValue | Bahaiquest/CreatePages-AI/modules/categorize_quotes.py:10 | every alphabet symbol has a digit below 62 that maps back to it, so the alphabet is a bijection with 0..61 |
| Base62.DigitValueOfChar | Bahaiquest/CreatePages-AI/modules/categorize_quotes.py:10 | reading back the symbol of digit d gives d |
| Base62.Repeat | Bahaiquest/CreatePages-AI/modules/categorize_quotes.py:15 | the padding string of k copies of one character has length max(k, 0) and only that character |
| Base62.ToBase62 | Bahaiquest/CreatePages-AI/modules/categorize_quotes.py:12-23 | the divmod loop returns exactly Encode(n, padToLength): '0' repeated for n = 0, otherwise the digits left-padded with '0' by zfill |
| Base62.DigitsAreBase62 | Bahaiquest/CreatePages-AI/modules/categorize_quotes.py:17-21 | the digits of n are all alphabet symbols |
| Base62.EncodeIsBase62 | Bahaiquest/CreatePages-AI/modules/categorize_quotes.py:12-23 | every encoding is over the alphabet |
| Base62.DecodeDigits | Bahaiquest/CreatePages-AI/modules/categorize_quotes.py:17-21 | the digits of n, read as a base-62 numeral most significant first, give back n |
| Base62.DecodeLeadingZeros | Bahaiquest/CreatePages-AI/modules/categorize_quotes.py:23 | left-padding with '0' does not change the value of a numeral |
| Base62.DecodeZeros | Bahaiquest/CreatePages-AI/modules/categorize_quotes.py:14-15 | a string of '0's has value 0 |
| Base62.DecodeEncode | Bahaiquest/CreatePages-AI/modules/categorize_quotes.py:12-23 | decoding the padded encoding of n gives n, whatever the pad width |
| Base62.EncodeInjective | Bahaiquest/CreatePages-AI/modules/categorize_quotes.py:12-23 | at one pad width, distinct numbers get distinct encodings |
| Base62.EncodeZero | Bahaiquest/CreatePages-AI/modules/categorize_quotes.py:14-15 | to_base_62(0, w) is exactly w copies of '0' (empty for w <= 0) |
| Base62.DigitsCount | Bahaiquest/CreatePages-AI/modules/categorize_quotes.py:17-21 | n needs k digits exactly when 62^(k-1) <= n < 62^k |
| Base62.EncodeLength | Bahaiquest/CreatePages-AI/modules/categorize_quotes.py:17-23 | for n > 0 the encoding has length max(w, digits(n)), ends in n's digits and is '0' before them: never truncated, never an error |
| Base62.DigitsMonotone | Bahaiquest/CreatePages-AI/modules/categorize_quotes.py:17-21 | a larger number never has fewer digits |
| Base62.IdLength | Bahaiquest/CreatePages-AI/modules/categorize_quotes.py:95-97 | the ID width of a run is at least 1 |
| Base62.IdLengthIsMinimal | Bahaiquest/CreatePages-AI/modules/categorize_quotes.py:95-97 | the ID width is the least k >= 1 with total <= 62^k |
| Base62.FixedWidthIds | Bahaiquest/CreatePages-AI/modules/categorize_quotes.py:95-100 | every index below the record count encodes to exactly the ID width, and distinct indices get distinct IDs |
| Text.TrimStartOf | Bahaiquest/CreatePages-AI/modules/categorize_quotes.py:35-36 | lstrip leaves a suffix of s that is empty or starts outside the set |
| Text.TrimEndOf | Bahaiquest/CreatePages-AI/modules/categorize_quotes.py:35-36 | rstrip leaves a prefix of s that is empty or ends outside the set |
| Text.StripOfIsSlice | Bahaiquest/CreatePages-AI/modules/validate_quotes.py:82 | strip returns a contiguous slice of its input |
| Text.StripOfEnds | Bahaiquest/CreatePages-AI/modules/validate_quotes.py:82 | the result of strip is empty or starts and ends outside the set |
| Text.StripOfFixed | Bahaiquest/CreatePages-AI/modules/validate_quotes.py:82 | strip leaves s unchanged exactly when s is empty or starts and ends outside the set |
| Text.StripOfChars | Bahaiquest/CreatePages-AI/modules/validate_quotes.py:82 | strip introduces no character |
| Text.StripOfKeepsPrefix | Bahaiquest/CreatePages-AI/modules/categorize_quotes.py:28 | a string that starts with p, where p starts and ends outside the set, still starts with p after strip |
| Text.FindFrom | Bahaiquest/CreatePages-AI/modules/categorize_quotes.py:34 | find returns the first occurrence at or after the start position, and None only if there is none |
| Text.ContainsAt | Bahaiquest/CreatePages-AI/modules/validate_quotes.py:84 | an occurrence at j makes the substring test true, and find returns j or less |
| Text.ContainsEmpty | Bahaiquest/CreatePages-AI/modules/validate_quotes.py:84 | the empty string is in every string, so an empty checked excerpt always passes |
| Text.StripOfContained | Bahaiquest/CreatePages-AI/modules/validate_quotes.py:82 | the stripped string occurs in the original |
| Text.OccursAtChar | Bahaiquest/CreatePages-AI/modules/categorize_quotes.py:31 | a one-character pattern occurs at j exactly when s[j] is that character |
| Text.FindCharNone | Bahaiquest/CreatePages-AI/modules/categorize_quotes.py:31 | find fails for a character exactly when the character is absent (the ':' test) |
| Text.ReplaceAllAbsent | Bahaiquest/modules/format_wiki.py:56 | replacing a pattern that does not occur changes nothing |
| Text.ReplaceAllLeading | Bahaiquest/modules/format_wiki.py:56 | a leading occurrence is replaced and the rest is processed after it |
| Text.Split | Bahaiquest/CreatePages-AI/modules/categorize_quotes.py:28 | split never returns an empty list, no piece holds the separator, and joining the pieces gives the input |
| Text.SplitJoin | Bahaiquest/CreatePages-AI/modules/categorize_quotes.py:28 | splitting the join of separator-free pieces gives the pieces back |
| Text.Lower | Bahaiquest/CreatePages-AI/modules/categorize_quotes.py:63-66 | lower() keeps the length and folds each character on its own |
| Text.LastIndexOf | Bahaiquest/CreatePages-AI/modules/categorize_quotes.py:132 | rfind returns the last occurrence of the character, and None only if it is absent |
| Text.Basename | Bahaiquest/CreatePages-AI/modules/distill_quotes.py:72 | the basename is a suffix of the path without '/', and either the whole path or the part after the last '/' |
| Text.SplitExtRoot | Bahaiquest/CreatePages-AI/modules/categorize_quotes.py:132 | splitext's root is a prefix of the name |
| Text.SplitExtTxt | Bahaiquest/CreatePages-AI/modules/categorize_quotes.py:132 | for a name ending in ".txt" with a non-dot before the extension, the root is the name without ".txt" |
| Dicts.Put | Bahaiquest/CreatePages-AI/modules/categorize_quotes.py:103 | assignment to a dict key: the key gets the value, every other key keeps its lookup, the key set grows by the key, distinct keys stay distinct, and a new key goes last (a present key keeps its position: Dicts.PutPresent) |
| Records.SelectModel | Bahaiquest/CreatePages-AI/modules/categorize_quotes.py:63-68 | the ChatGPT back end is chosen exactly when the name equals "chatgpt" ignoring case, Gemini exactly when it equals "gemini"; otherwise none (the run raises) |
| Sorting.BelowIrreflexive | Bahaiquest/modules/format_wiki.py:81 | no string sorts strictly before itself |
| Sorting.BelowTotal | Bahaiquest/modules/format_wiki.py:81 | of two distinct strings one sorts before the other |
| Sorting.BelowAsymmetric | Bahaiquest/modules/format_wiki.py:81 | strict string order is asymmetric |
| Sorting.BelowTransitive | Bahaiquest/modules/format_wiki.py:81 | strict string order is transitive |
| Sorting.AtMostTransitive | Bahaiquest/modules/format_wiki.py:81 | string order <= is transitive |
| Sorting.Insert | Bahaiquest/modules/format_wiki.py:84 | insertion keeps the list sorted and adds exactly the new element |
| Sorting.Sort | Bahaiquest/modules/format_wiki.py:81-84 | sorted() returns an ascending permutation of its input |
| Sorting.SortedUnique | Bahaiquest/modules/format_wiki.py:81-84 | two sorted permutations of the same elements are equal, so sorted()'s result does not depend on input order |
| Sorting.SortedDistinctIncreasing | Bahaiquest/modules/format_wiki.py:81 | a sorted list of distinct strings is strictly ascending |
| Sorting.SortDistinct | Bahaiquest/modules/format_wiki.py:81 | sorting distinct strings gives a strictly ascending list without repeats |
| Sorting.SameElementsSort | Bahaiquest/modules/format_wiki.py:81 | two repeat-free lists with the same elements sort to the same list |
| ReplyParser.ChunksConcat | Bahaiquest/CreatePages-AI/modules/categorize_quotes.py:39-40 | the chunks of the ID string, concatenated, give back the whole string: nothing is lost |
| ReplyParser.ChunksShape | Bahaiquest/CreatePages-AI/modules/categorize_quotes.py:39-40 | every chunk is non-empty and at most the ID width, and all but the last have exactly the width |
| ReplyParser.ResolveValues | Bahaiquest/CreatePages-AI/modules/categorize_quotes.py:41-43 | at most one location per chunk, and each resolved location is non-empty and a value of the ID map |
| ReplyParser.ParseLineOk | Bahaiquest/CreatePages-AI/modules/categorize_quotes.py:31-46 | a parsed line with locations has a trimmed category name without ':' and only non-empty mapped locations |
| ReplyParser.PartsOk | Bahaiquest/CreatePages-AI/modules/categorize_quotes.py:34-46 | the pieces around the first ':' give a well-formed entry once a location resolves |
| ReplyParser.NameOk | Bahaiquest/CreatePages-AI/modules/categorize_quotes.py:34-35 | the category name, the trimmed text before the first ':', holds no ':' and is already trimmed |
| ReplyParser.BeforeFirstColon | Bahaiquest/CreatePages-AI/modules/categorize_quotes.py:34 | no ':' comes before the first one |
| ReplyParser.ParseLines | Bahaiquest/CreatePages-AI/modules/categorize_quotes.py:30-48 | the category map built from any lines has distinct names, each without ':' and trimmed, and non-empty lists of mapped locations |
| ReplyParser.ParseLinesSnoc | Bahaiquest/CreatePages-AI/modules/categorize_quotes.py:30-46 | one more line updates the map built so far by exactly one line step |
| ReplyParser.ResolveFrom | Bahaiquest/CreatePages-AI/modules/categorize_quotes.py:39-43 | resolving from position i is the chunk at i, kept when it resolves, then the rest from i + width |
| ReplyParser.ResolveChunks | Bahaiquest/CreatePages-AI/modules/categorize_quotes.py:38-43 | the chunk loop returns exactly the resolved chunks of the ID string, in chunk order |
| ReplyParser.AddLine | Bahaiquest/CreatePages-AI/modules/categorize_quotes.py:31-46 | one pass of the loop body: a colonless line leaves the map alone, a line without resolved locations leaves it alone, any other sets its name to its locations |
| ReplyParser.StepParsed | Bahaiquest/CreatePages-AI/modules/categorize_quotes.py:34-46 | a line with a ':' either leaves the map unchanged (no location resolved) or puts its trimmed name with its locations |
| ReplyParser.ParseCustomFormat | Bahaiquest/CreatePages-AI/modules/categorize_quotes.py:25-48 | parse_custom_format returns the line-by-line fold of the trimmed reply's lines, which is well-formed |
| ReplyParser.NoColonNoParse | Bahaiquest/CreatePages-AI/modules/categorize_quotes.py:31-32 | a line without ':' is skipped |
| ReplyParser.ColonlessLineIgnored | Bahaiquest/CreatePages-AI/modules/categorize_quotes.py:31-32 | inserting a colonless line anywhere in the reply changes nothing |
| ReplyParser.LastNonEmptyLineWins | Bahaiquest/CreatePages-AI/modules/categorize_quotes.py:45-46 | a category named on several lines keeps the locations of the last line that resolves one |
| ReplyParser.UnresolvedCategoryAbsent | Bahaiquest/CreatePages-AI/modules/categorize_quotes.py:45-46 | a category no line gives a resolved location is absent from the map |
| ReplyParser.RenderLines | Bahaiquest/CreatePages-AI/modules/categorize_quotes.py:25-48 | rendering a map gives one line per entry, in order |
| ReplyParser.ResolveIds | Bahaiquest/CreatePages-AI/modules/categorize_quotes.py:41 | each valid ID maps to its location, in order |
| ReplyParser.ResolvedMap | Bahaiquest/CreatePages-AI/modules/categorize_quotes.py:41-46 | the expected parse of a rendered map: each entry's name with its IDs resolved |
| ReplyParser.ChunksOfConcat | Bahaiquest/CreatePages-AI/modules/categorize_quotes.py:39-40 | cutting a concatenation of fixed-width IDs gives the IDs back |
| ReplyParser.ResolveValid | Bahaiquest/CreatePages-AI/modules/categorize_quotes.py:41-43 | valid IDs all resolve, so nothing is dropped |
| ReplyParser.ParseRenderedLine | Bahaiquest/CreatePages-AI/modules/categorize_quotes.py:31-46 | a rendered entry line parses back to the name with its IDs resolved |
| ReplyParser.ParseRenderedLines | Bahaiquest/CreatePages-AI/modules/categorize_quotes.py:30-46 | parsing rendered lines of distinct, well-formed entries gives the resolved map |
| ReplyParser.RenderParseRoundTrip | Bahaiquest/CreatePages-AI/modules/categorize_quotes.py:25-48 | rendering a map of distinct trimmed names without ':' or newline and non-empty valid ID lists as "name:IDs" lines and parsing gives back the name-to-locations map |
| ReplyParser.TextEnds | Bahaiquest/CreatePages-AI/modules/categorize_quotes.py:28 | a rendered reply starts and ends with non-whitespace, so the outer strip removes nothing |
| ReplyParser.TextLastChar | Bahaiquest/CreatePages-AI/modules/categorize_quotes.py:28 | a rendered reply ends with an ID symbol |
| ReplyParser.TextFirstChar | Bahaiquest/CreatePages-AI/modules/categorize_quotes.py:28 | a rendered reply starts with the first name's first character, or ':' |
| ReplyParser.LinesUnbroken | Bahaiquest/CreatePages-AI/modules/categorize_quotes.py:28 | no rendered line holds a newline |
| Categorization.RawFiles | Bahaiquest/CreatePages-AI/modules/categorize_quotes.py:73 | the files read are exactly the listed files that start with the keyword, end in .txt and contain none of _distilled, _organized, _categorized, _final |
| Categorization.Pairs | Bahaiquest/CreatePages-AI/modules/categorize_quotes.py:81-85 | one (location, quote) pair per record |
| Categorization.OffsetPrefix | Bahaiquest/CreatePages-AI/modules/categorize_quotes.py:76-85 | the aggregate position of a file's first pair depends only on the files before it |
| Categorization.OffsetMonotone | Bahaiquest/CreatePages-AI/modules/categorize_quotes.py:76-85 | a later file's pairs come after all of an earlier file's pairs |
| Categorization.PrefixHasPairs | Bahaiquest/CreatePages-AI/modules/categorize_quotes.py:76-85 | files before a position also have complete records |
| Categorization.AggregateLength | Bahaiquest/CreatePages-AI/modules/categorize_quotes.py:76-85 | the aggregate has one pair per record of every file |
| Categorization.AggregateAt | Bahaiquest/CreatePages-AI/modules/categorize_quotes.py:76-85 | record i of file f is aggregated at file f's offset plus i: file order, then record order |
| Categorization.FilesData | Bahaiquest/CreatePages-AI/modules/categorize_quotes.py:80 | the per-file record table has distinct names and only listed entries, each with complete records |
| Categorization.FilesDataDistinct | Bahaiquest/CreatePages-AI/modules/categorize_quotes.py:80 | for distinctly named files the table is the files themselves, in order |
| Categorization.AggregateSnoc | Bahaiquest/CreatePages-AI/modules/categorize_quotes.py:76-85 | one more file extends the aggregate by its pairs and the table by its entry |
| Categorization.AppendPairs | Bahaiquest/CreatePages-AI/modules/categorize_quotes.py:81-85 | the record loop succeeds exactly when every record has location and quote, and appends their pairs in order |
| Categorization.AggregateFiles | Bahaiquest/CreatePages-AI/modules/categorize_quotes.py:76-85 | aggregation succeeds exactly when every record of every raw file has both keys (no KeyError), and gives the aggregate and the per-file table |
| Categorization.PromptItems | Bahaiquest/CreatePages-AI/modules/categorize_quotes.py:99-107 | record i is sent to the categoriser as (Encode(i, width), its quote), in aggregate order |
| Categorization.IdMapOnly | Bahaiquest/CreatePages-AI/modules/categorize_quotes.py:99-103 | every key of the ID map is the ID of some record index |
| Categorization.NextIdFresh | Bahaiquest/CreatePages-AI/modules/categorize_quotes.py:99-103 | the next index's ID is not yet in the map |
| Categorization.IdMapSize | Bahaiquest/CreatePages-AI/modules/categorize_quotes.py:95-103 | the ID map has exactly one entry per record |
| Categorization.IdMapHas | Bahaiquest/CreatePages-AI/modules/categorize_quotes.py:99-103 | record i's ID maps to record i's location |
| Categorization.IdMapSpec | Bahaiquest/CreatePages-AI/modules/categorize_quotes.py:95-103 | the ID map is a bijection between the record indices and their IDs with N entries, each ID naming its record's location |
| Categorization.IdsAreFixedWidth | Bahaiquest/CreatePages-AI/modules/categorize_quotes.py:95-100 | every ID has exactly the run's width and is over the alphabet |
| Categorization.AssignStep | Bahaiquest/CreatePages-AI/modules/categorize_quotes.py:99-107 | one loop step adds exactly record i's ID to the map and to the prompt list |
| Categorization.AssignIds | Bahaiquest/CreatePages-AI/modules/categorize_quotes.py:95-107 | the ID loop returns the width of N-1, the ID map with N entries and the prompt list |
| Categorization.Invert | Bahaiquest/CreatePages-AI/modules/categorize_quotes.py:123-127 | a location is in the inverted map exactly when some category lists it |
| Categorization.InvertLastWins | Bahaiquest/CreatePages-AI/modules/categorize_quotes.py:123-127 | a location maps to the last category in map order that lists it |
| Categorization.AnnotateFields | Bahaiquest/CreatePages-AI/modules/categorize_quotes.py:137-141 | annotation sets title to the location's category or "Uncategorized", leaves every other field unchanged and adds only the key title |
| Categorization.AnnotationTitle | Bahaiquest/CreatePages-AI/modules/categorize_quotes.py:123-141 | an unlisted location gets "Uncategorized", a listed one the last category listing it |
| Categorization.AnnotateAll | Bahaiquest/CreatePages-AI/modules/categorize_quotes.py:136-141 | annotation keeps the number of records |
| Categorization.AnnotateAllAt | Bahaiquest/CreatePages-AI/modules/categorize_quotes.py:136-141 | output record i is input record i annotated: order is kept |
| Categorization.AnnotateAllSnoc | Bahaiquest/CreatePages-AI/modules/categorize_quotes.py:137-141 | one more record appends its annotation |
| Categorization.AnnotateItems | Bahaiquest/CreatePages-AI/modules/categorize_quotes.py:136-141 | the annotation loop returns each record annotated, in input order |
| Categorization.CategorizedNameOfTxt | Bahaiquest/CreatePages-AI/modules/categorize_quotes.py:132-133 | for a raw ".txt" name the output name is the name without ".txt", then "_categorized-", the model name and ".txt" |
| Categorization.CategorizedFiles | Bahaiquest/CreatePages-AI/modules/categorize_quotes.py:131-141 | one output file per table entry |
| Categorization.CategorizedFilesAt | Bahaiquest/CreatePages-AI/modules/categorize_quotes.py:131-141 | output file f is the categorised name of table entry f with its records annotated |
| Categorization.CategorizedFilesSnoc | Bahaiquest/CreatePages-AI/modules/categorize_quotes.py:131-141 | one more table entry appends its output file |
| Categorization.WriteCategorized | Bahaiquest/CreatePages-AI/modules/categorize_quotes.py:131-146 | the writing loop produces exactly the categorised files, in table order |
| Categorization.Run | Bahaiquest/CreatePages-AI/modules/categorize_quotes.py:51-146 | unsupported model, missing record key and empty aggregate each stop the run before the categoriser, in that order; otherwise the raw reply is kept under the model's name and every raw file is written annotated from the parsed, inverted reply |
| LegacyCategorization.Run | Bahaiquest/modules/categorize_quotes.py:9-73 | the older run stops on an unsupported model, a missing key or an empty aggregate before the categoriser; otherwise every raw file is written annotated from the inverted category map |
| LegacyCategorization.FallbackMap | Bahaiquest/modules/ai_processors.py:93-95 | the categoriser's fallback is one category, "Uncategorized", listing every aggregated record's location in aggregate order |
| LegacyCategorization.FallbackTitlesUncategorized | Bahaiquest/modules/categorize_quotes.py:62-68 | under the fallback map every record is titled "Uncategorized" |
| Distill.SourceSuffix | Bahaiquest/CreatePages-AI/modules/distill_quotes.py:22 | the source suffix is the source model name when it is given and non-empty, else the model name |
| Distill.FinalNameOfCategorized | Bahaiquest/CreatePages-AI/modules/distill_quotes.py:29-30 | a name ending in a categorised suffix gets that suffix replaced by "_final_for_wiki-" + model + ".txt" |
| Distill.FinalNameOfOther | Bahaiquest/CreatePages-AI/modules/distill_quotes.py:29-30 | a name without such a suffix keeps its whole text before "_final_for_wiki-" + model + ".txt" |
| Distill.FinalNameOfRawFile | Bahaiquest/CreatePages-AI/modules/distill_quotes.py:29-30 | the categoriser's output name for a raw file turns into the raw root with the final suffix |
| Distill.FinalItem | Bahaiquest/CreatePages-AI/modules/distill_quotes.py:45-49 | an output record has exactly the keys title, location and quote with the given values |
| Distill.DistillAll | Bahaiquest/CreatePages-AI/modules/distill_quotes.py:38-50 | distillation succeeds exactly when every record has quote, title and location, and then gives one output per input, in order |
| Distill.DistilledRecord | Bahaiquest/CreatePages-AI/modules/distill_quotes.py:41-49 | output record i copies title and location of input i, its quote is the distiller's result for input i's quote and the keyword, and it has no other field |
| Distill.DistillItems | Bahaiquest/CreatePages-AI/modules/distill_quotes.py:38-50 | the per-record loop returns exactly DistillAll |
| Distill.InputFiles | Bahaiquest/CreatePages-AI/modules/distill_quotes.py:22-23 | the files processed are exactly those ending in "_categorized-" + source suffix + ".txt" |
| Distill.DistillFiles | Bahaiquest/CreatePages-AI/modules/distill_quotes.py:25-55 | at most one output per input file, and one per input when all succeed |
| Distill.DistillFilesOrder | Bahaiquest/CreatePages-AI/modules/distill_quotes.py:25-55 | output k is input file k's final name with its distilled records |
| Distill.DistillFilesComplete | Bahaiquest/CreatePages-AI/modules/distill_quotes.py:25-55 | every file is written exactly when every file's records are complete |
| Distill.DistillFilesStep | Bahaiquest/CreatePages-AI/modules/distill_quotes.py:25-55 | a failing file stops the run; a succeeding one is written before the rest |
| Distill.DistillEach | Bahaiquest/CreatePages-AI/modules/distill_quotes.py:25-55 | the file loop writes exactly DistillFiles's outputs and reports completion |
| Distill.Run | Bahaiquest/CreatePages-AI/modules/distill_quotes.py:11-55 | an unsupported model stops the run; otherwise the categorised files of the source suffix are distilled in listing order |
| Distill.ProcessSingleFile | Bahaiquest/CreatePages-AI/modules/distill_quotes.py:57-95 | a missing input path stops first; then an unsupported model; otherwise the single file is distilled under its basename's final name |
| Validator.SourceLenShape | Bahaiquest/CreatePages-AI/modules/validate_quotes.py:56 | the source field found ends right before "}}" |
| Validator.LocationLenShape | Bahaiquest/CreatePages-AI/modules/validate_quotes.py:56 | the location field ends right before a '|' followed by a source field and "}}" |
| Validator.ExcerptLenShape | Bahaiquest/CreatePages-AI/modules/validate_quotes.py:56 | the excerpt field ends right before '|', and the fields after it end in "}}" |
| Validator.MatchShape | Bahaiquest/CreatePages-AI/modules/validate_quotes.py:56 | a match at the start of a string gives fields that form a quote template there |
| Validator.FieldsAtTemplate | Bahaiquest/CreatePages-AI/modules/validate_quotes.py:56 | the matched fields spell out the template prefix of the string |
| Validator.SearchFrom | Bahaiquest/CreatePages-AI/modules/validate_quotes.py:59 | search from a position returns a start at or after it at which the template matches |
| Validator.Search | Bahaiquest/CreatePages-AI/modules/validate_quotes.py:59 | search returns a start inside the line |
| Validator.SearchTemplate | Bahaiquest/CreatePages-AI/modules/validate_quotes.py:59-69 | a match's excerpt, location and source form the template that starts at its start |
| Validator.SearchNoEarlier | Bahaiquest/CreatePages-AI/modules/validate_quotes.py:59 | no match starts between the search start and the match found |
| Validator.SearchLeftmost | Bahaiquest/CreatePages-AI/modules/validate_quotes.py:59 | search returns the leftmost start at which the pattern matches |
| Validator.SourceLenOf | Bahaiquest/CreatePages-AI/modules/validate_quotes.py:56 | a source without '}' or newline is read up to the first "}}" |
| Validator.LocationLenOf | Bahaiquest/CreatePages-AI/modules/validate_quotes.py:56 | a location without '|' or newline is read up to the next '|' |
| Validator.ExcerptLenAfter | Bahaiquest/CreatePages-AI/modules/validate_quotes.py:56 | after the excerpt the pattern finds the given location and source lengths |
| Validator.FieldsBody | Bahaiquest/CreatePages-AI/modules/validate_quotes.py:56 | fields without '|' (excerpt, location) or '}' (source) and without newline are read back exactly |
| Validator.MatchOpened | Bahaiquest/CreatePages-AI/modules/validate_quotes.py:56 | a template opener followed by parseable fields matches |
| Validator.TemplateParses | Bahaiquest/CreatePages-AI/modules/validate_quotes.py:56-69 | a template whose fields hold no separator or newline parses back at position 0 into its own fields |
| Validator.ValidateLines | Bahaiquest/CreatePages-AI/modules/validate_quotes.py:58-98 | the loop overwrites the array with the revised lines, counts the mismatches and the matched lines, and asks for a rewrite exactly when a warning was added |
| Validator.Advance | Bahaiquest/CreatePages-AI/modules/validate_quotes.py:58-90 | one loop step keeps the invariant: revised prefix, warning count, template count |
| Validator.RevisedLines | Bahaiquest/CreatePages-AI/modules/validate_quotes.py:58-90 | the validator keeps the number of lines |
| Validator.RevisedLinesAt | Bahaiquest/CreatePages-AI/modules/validate_quotes.py:58-90 | line i as left is line i revised on its own: each line is examined independently |
| Validator.RevisedLinesSnoc | Bahaiquest/CreatePages-AI/modules/validate_quotes.py:58-90 | one more line appends its revision |
| Validator.MismatchesSnoc | Bahaiquest/CreatePages-AI/modules/validate_quotes.py:85 | one more line adds one warning exactly when it mismatches |
| Validator.TemplatesSnoc | Bahaiquest/CreatePages-AI/modules/validate_quotes.py:60-61 | one more line adds one to the quote count exactly when it matches |
| Validator.ValidateLine | Bahaiquest/CreatePages-AI/modules/validate_quotes.py:59-89 | the body for one line reports a match, a mismatch and the revised line, and a line without a mismatch is kept |
| Validator.ExcerptInLine | Bahaiquest/CreatePages-AI/modules/validate_quotes.py:65-88 | the excerpt occurs in the line four characters after the template start |
| Validator.RevisedIffMismatch | Bahaiquest/CreatePages-AI/modules/validate_quotes.py:84-89 | a line changes exactly when it mismatches, and then grows by "[Warning] " |
| Validator.WarnedLonger | Bahaiquest/CreatePages-AI/modules/validate_quotes.py:87-88 | inserting the warning adds ten characters |
| Validator.ChangedCount | Bahaiquest/CreatePages-AI/modules/validate_quotes.py:85-89 | the set of changed line indices has DiffCount elements |
| Validator.MismatchesDiffCount | Bahaiquest/CreatePages-AI/modules/validate_quotes.py:85-89 | the warning count equals the number of lines that differ after revision |
| Validator.WarningsCountChangedLines | Bahaiquest/CreatePages-AI/modules/validate_quotes.py:85-89 | warnings_added is exactly the number of lines the validator rewrites |
| Validator.MatchAtInsert | Bahaiquest/CreatePages-AI/modules/validate_quotes.py:87-88 | text inserted after "{{q|" without '|' or newline becomes the front of the excerpt |
| Validator.WarnedShape | Bahaiquest/CreatePages-AI/modules/validate_quotes.py:87-88 | when the template's excerpt is its first occurrence, the warning is inserted right after "{{q|" |
| Validator.WarnedSearch | Bahaiquest/CreatePages-AI/modules/validate_quotes.py:56-89 | after the warning the line's template is found at the same start with "[Warning] " before the excerpt, same location and source |
| Validator.TaggedExcerpt | Bahaiquest/CreatePages-AI/modules/validate_quotes.py:73-87 | a warned excerpt, trimmed, starts with "[Warning]" |
| Validator.WarnedIsSkipped | Bahaiquest/CreatePages-AI/modules/validate_quotes.py:73-89 | a warned line is recognised as already warned on the next pass |
| Validator.Idempotent | Bahaiquest/CreatePages-AI/modules/validate_quotes.py:73-89 | when each mismatched line's excerpt first occurs in its template, a second pass leaves the lines unchanged and adds no warning |
| Validator.NoMismatches | Bahaiquest/CreatePages-AI/modules/validate_quotes.py:84-98 | with no mismatch the count is zero and every line is kept |
| Validator.NoMismatchesCount | Bahaiquest/CreatePages-AI/modules/validate_quotes.py:85 | with no mismatch no warning is added |
| Validator.NoRevisions | Bahaiquest/CreatePages-AI/modules/validate_quotes.py:84-89 | with no mismatch no line changes |
| Validator.ForCheckContained | Bahaiquest/CreatePages-AI/modules/validate_quotes.py:82 | the checked excerpt is a piece of the excerpt |
| Validator.VerbatimPasses | Bahaiquest/CreatePages-AI/modules/validate_quotes.py:73-84 | an unwarned excerpt that occurs in its non-empty original passes |
| Validator.MismatchCases | Bahaiquest/CreatePages-AI/modules/validate_quotes.py:76-84 | a mismatch has a template, an original, and a checked excerpt absent from it |
| Validator.EmptyExcerptPasses | Bahaiquest/CreatePages-AI/modules/validate_quotes.py:82-84 | an excerpt that is empty after trimming and stripping dots never mismatches |
| Validator.OriginalFiles | Bahaiquest/CreatePages-AI/modules/validate_quotes.py:15 | the originals are read exactly from the listed files that start with the keyword, end in .txt and contain neither _categorized nor _final |
| Validator.MergeItemsGet | Bahaiquest/CreatePages-AI/modules/validate_quotes.py:27-28 | after a file's records the map gives each location the quote of its last record, or the earlier value |
| Validator.MergeFilesGet | Bahaiquest/CreatePages-AI/modules/validate_quotes.py:20-28 | after the files the map gives each location the quote of its last record across files |
| Validator.LastItemWins | Bahaiquest/CreatePages-AI/modules/validate_quotes.py:15-31 | the loaded map gives each location the quote of its last record in listing order |
| Validator.InvalidFileAbortsMerge | Bahaiquest/CreatePages-AI/modules/validate_quotes.py:32-34 | one file that is not valid JSON makes the merge fail |
| Validator.InvalidSourceAborts | Bahaiquest/CreatePages-AI/modules/validate_quotes.py:15-34 | an invalid source file makes loading return None |
| Validator.MergeInto | Bahaiquest/CreatePages-AI/modules/validate_quotes.py:27-28 | the record loop returns exactly the merge of the records |
| Validator.MergeItemsFails | Bahaiquest/CreatePages-AI/modules/validate_quotes.py:28-37 | a record missing location or quote makes the merge fail |
| Validator.LoadOriginalQuotes | Bahaiquest/CreatePages-AI/modules/validate_quotes.py:7-37 | the loader returns None with no source file, skips empty files, fails on invalid JSON or a missing key, and otherwise returns the merged map |
| Validator.MergeFilesFails | Bahaiquest/CreatePages-AI/modules/validate_quotes.py:20-37 | a failed prefix makes the whole merge fail |
| WikiFormat.AbbreviationsUsable | Bahaiquest/modules/format_wiki.py:7-39 | every abbreviation is non-empty and holds no '}' or newline |
| WikiFormat.ReferenceChoice | Bahaiquest/modules/format_wiki.py:60-74 | the reference is the mapped abbreviation when the key is in the table, otherwise the location |
| WikiFormat.DropOwnSuffix | Bahaiquest/modules/format_wiki.py:58 | a name ending in a wiki suffix loses exactly that suffix |
| WikiFormat.GeminiNotChatGPT | Bahaiquest/modules/format_wiki.py:58 | a Gemini suffix is not taken for a ChatGPT suffix |
| WikiFormat.ReplaceLeadingKeyword | Bahaiquest/modules/format_wiki.py:56 | removing every keyword_ from keyword_ + rest gives rest when rest has no other |
| WikiFormat.AbbreviationKeyOfWikiFile | Bahaiquest/modules/format_wiki.py:56-58 | the key of keyword_book_final_for_wiki-Model.txt is the book name |
| WikiFormat.Tagged | Bahaiquest/modules/format_wiki.py:60-68 | each record of a file carries the file's abbreviation |
| WikiFormat.Entries | Bahaiquest/modules/format_wiki.py:68-76 | rendering succeeds exactly when every record has title, location and quote, and then gives one (category, line) per record, in order |
| WikiFormat.CategoriesSnoc | Bahaiquest/modules/format_wiki.py:77 | one more entry adds its category |
| WikiFormat.GroupedSpec | Bahaiquest/modules/format_wiki.py:77 | the grouping has one distinct key per category, and each category's lines are its records' lines in record order |
| WikiFormat.LinesOfCount | Bahaiquest/modules/format_wiki.py:68-77 | each line occurs in its category's list as often as its record does: every record appears exactly once, under its own title |
| WikiFormat.CategoryList | Bahaiquest/modules/format_wiki.py:81 | the category list holds exactly the grouping's keys, without repeats |
| WikiFormat.Headers | Bahaiquest/modules/format_wiki.py:82 | the section headers are the layout's categories in order |
| WikiFormat.SortedKeys | Bahaiquest/modules/format_wiki.py:81 | the headers are the sorted category list, strictly ascending |
| WikiFormat.LayoutHeaders | Bahaiquest/modules/format_wiki.py:81-82 | the sections are the distinct categories, strictly ascending |
| WikiFormat.LayoutSections | Bahaiquest/modules/format_wiki.py:81-85 | each section's lines are ascending and are exactly that category's records' lines |
| WikiFormat.CategoriesSame | Bahaiquest/modules/format_wiki.py:81 | the same records in another order have the same categories |
| WikiFormat.SectionLinesSame | Bahaiquest/modules/format_wiki.py:84 | the same records in another order give the same sorted section |
| WikiFormat.LayoutOrderFree | Bahaiquest/modules/format_wiki.py:55-85 | the output does not depend on the order files or records are listed in |
| WikiFormat.LayoutSame | Bahaiquest/modules/format_wiki.py:81-85 | equal sorted categories and sections give equal layouts |
| WikiFormat.WriteLines | Bahaiquest/modules/format_wiki.py:84-85 | the line loop writes each line followed by a newline |
| WikiFormat.Emit | Bahaiquest/modules/format_wiki.py:79-86 | the writer loop writes exactly the rendered document: for each category "== cat ==", its lines and a blank line |
| WikiFormat.WikiFiles | Bahaiquest/modules/format_wiki.py:47 | the files read are exactly those ending in the model suffix |
| WikiFormat.NoFilesIff | Bahaiquest/modules/format_wiki.py:47-51 | nothing is written exactly when no listed file ends in the suffix |
| WikiFormat.EntriesSnoc | Bahaiquest/modules/format_wiki.py:68-77 | one more complete record appends its entry |
| WikiFormat.GroupedSnoc | Bahaiquest/modules/format_wiki.py:77 | one more entry appends its line to its category |
| WikiFormat.AllRecordsSnoc | Bahaiquest/modules/format_wiki.py:55-68 | one more file appends its records |
| WikiFormat.EntriesPrefixNone | Bahaiquest/modules/format_wiki.py:68-71 | a record missing a key stops rendering whatever follows |
| WikiFormat.RenderItem | Bahaiquest/modules/format_wiki.py:69-76 | the record body returns exactly the (title, template line) entry, or None when a key is missing |
| WikiFormat.AddFile | Bahaiquest/modules/format_wiki.py:68-77 | the record loop of one file adds that file's lines to the grouping |
| WikiFormat.FormatWith | Bahaiquest/modules/format_wiki.py:41-86 | the formatter's loops compute exactly Format |
| WikiFormat.Run | Bahaiquest/modules/format_wiki.py:41-86 | run with the formatter's own abbreviation table computes Format |
| Pipeline.BookSurvivesRenaming | Bahaiquest/modules/format_wiki.py:56-58 | a raw file keyword_book.txt, categorised and distilled by any models, leads the formatter back to the key book |
| Pipeline.RawCategorized | Bahaiquest/CreatePages-AI/modules/categorize_quotes.py:132-133 | the categorised name of keyword_book.txt is keyword_book_categorized-model.txt |
| Pipeline.WikiSuffixSpelled | Bahaiquest/CreatePages-AI/modules/distill_quotes.py:30 | the distiller's suffix for each model is the formatter's wiki suffix |
| Pipeline.RenderedLineParses | Bahaiquest/modules/format_wiki.py:76 | a rendered line whose quote and location hold no '|' or newline and whose reference holds no '}' or newline parses back, via the validator's pattern, into the same quote, location and reference |
| Pipeline.MappedLineParses | Bahaiquest/modules/format_wiki.py:60-76 | with the formatter's table, a line whose location holds no '}' also parses back |
| Pipeline.ReferenceUsable | Bahaiquest/modules/format_wiki.py:60-74 | a table reference or a location without '}' and newline is a usable source field |
| Pipeline.RenderedLineChecked | Bahaiquest/CreatePages-AI/modules/validate_quotes.py:73-89 | the validator judges a rendered line by its quote against the original |
| Pipeline.VerbatimLineKept | Bahaiquest/CreatePages-AI/modules/validate_quotes.py:82-89 | a rendered line whose quote occurs verbatim in its original is kept as it is |
| Dicts.PutPresent | Bahaiquest/CreatePages-AI/modules/categorize_quotes.py:46 | assignment to a key already present keeps the dict's length and every entry's position, and replaces only that key's value |
| Base62.Digits | Bahaiquest/CreatePages-AI/modules/categorize_quotes.py:17-21 | definition: n's base-62 digits, most significant first, by repeated divmod by 62 (empty for 0) |
| Base62.ZFill | Bahaiquest/CreatePages-AI/modules/categorize_quotes.py:23 | definition: zfill for an unsigned string, '0's in front up to the width and never truncating |
| Base62.Encode | Bahaiquest/CreatePages-AI/modules/categorize_quotes.py:12-23 | definition of to_base_62's result: width copies of '0' for n = 0, otherwise n's digits zero-filled to the width |
| Base62.Decode | Bahaiquest/CreatePages-AI/modules/categorize_quotes.py:10-23 | definition: the value of a base-62 numeral, most significant digit first; the inverse partner of Encode |
| Text.StripOf | Bahaiquest/CreatePages-AI/modules/validate_quotes.py:82 | definition of strip with a character set: rstrip of lstrip |
| Text.Strip | Bahaiquest/CreatePages-AI/modules/categorize_quotes.py:35-36 | definition of strip(): StripOf over the characters isspace() accepts |
| Text.StartsWith | Bahaiquest/CreatePages-AI/modules/categorize_quotes.py:73 | definition of startswith: p is a prefix of s |
| Text.EndsWith | Bahaiquest/CreatePages-AI/modules/categorize_quotes.py:73 | definition of endswith: p is a suffix of s |
| Text.FindFirst | Bahaiquest/CreatePages-AI/modules/categorize_quotes.py:34 | definition of find: FindFrom from index 0 |
| Text.Contains | Bahaiquest/CreatePages-AI/modules/validate_quotes.py:84 | definition of the `in` test on strings: find succeeds |
| Text.ReplaceFirst | Bahaiquest/CreatePages-AI/modules/validate_quotes.py:88 | definition of replace with count 1: the first occurrence is replaced, or the string is kept when there is none |
| Text.ReplaceAll | Bahaiquest/modules/format_wiki.py:56 | definition of replace with no count: each occurrence, left to right, without overlap |
| Text.Join | Bahaiquest/CreatePages-AI/modules/categorize_quotes.py:28 | definition of a separator join, the inverse partner of Split |
| Text.EqualsIgnoreCase | Bahaiquest/CreatePages-AI/modules/categorize_quotes.py:63-66 | definition: the lower-cased strings are equal |
| Sorting.Below | Bahaiquest/modules/format_wiki.py:81 | definition of Python's < on strings: lexicographic by code point, a proper prefix first |
| Records.QuoteTemplate | Bahaiquest/modules/format_wiki.py:76 | definition of the wiki line "{{q|" quote "|" location "|" reference "}}" |
| ReplyParser.Chunks | Bahaiquest/CreatePages-AI/modules/categorize_quotes.py:39-40 | definition: the slices of width idLength at 0, width, 2*width, ..., the last possibly short |
| ReplyParser.Resolve | Bahaiquest/CreatePages-AI/modules/categorize_quotes.py:41-43 | definition: the locations of the chunks the ID map gives a non-empty location for, in chunk order |
| ReplyParser.ParseLine | Bahaiquest/CreatePages-AI/modules/categorize_quotes.py:31-43 | definition of one reply line: None without ':', else the trimmed text before the first ':' and the resolved chunks of the trimmed rest |
| ReplyParser.Step | Bahaiquest/CreatePages-AI/modules/categorize_quotes.py:31-46 | definition of one loop step: a colonless or unresolved line leaves the map, any other assigns its name |
| ReplyParser.ParseReply | Bahaiquest/CreatePages-AI/modules/categorize_quotes.py:25-48 | definition of parse_custom_format: the steps over the lines of the stripped reply split at '\n' |
| ReplyParser.RenderLine | Bahaiquest/CreatePages-AI/modules/categorize_quotes.py:34-39 | definition of a well-formed reply line: name, ':', the IDs run together |
| ReplyParser.Render | Bahaiquest/CreatePages-AI/modules/categorize_quotes.py:28 | definition of a well-formed reply: the rendered lines joined by '\n' |
| Categorization.IsRawFile | Bahaiquest/CreatePages-AI/modules/categorize_quotes.py:73 | definition of the raw-file filter: starts with the keyword, ends in .txt, contains none of _distilled, _organized, _categorized, _final |
| Categorization.Aggregate | Bahaiquest/CreatePages-AI/modules/categorize_quotes.py:76-85 | definition of all_quotes_with_locations: each file's pairs, file by file |
| Categorization.IdMap | Bahaiquest/CreatePages-AI/modules/categorize_quotes.py:99-103 | definition of id_to_location_map: index i's ID assigned record i's location, in index order |
| Categorization.Annotate | Bahaiquest/CreatePages-AI/modules/categorize_quotes.py:137-141 | definition: the record with title set to its location's category, or "Uncategorized" |
| Categorization.CategorizedName | Bahaiquest/CreatePages-AI/modules/categorize_quotes.py:132-133 | definition: splitext root, then "_categorized-", the model name and ".txt" |
| Categorization.RawReplyName | Bahaiquest/CreatePages-AI/modules/categorize_quotes.py:113 | definition: "api_request_return_" + the lower-cased model name + ".txt" |
| Distill.IsCategorizedFile | Bahaiquest/CreatePages-AI/modules/distill_quotes.py:23 | definition of the input filter: the name ends in "_categorized-" + source suffix + ".txt" |
| Distill.DropAtEnd | Bahaiquest/CreatePages-AI/modules/distill_quotes.py:29 | definition of a `$`-anchored suffix removal, where `$` also matches before a final newline |
| Distill.StripCategorizedSuffix | Bahaiquest/CreatePages-AI/modules/distill_quotes.py:29 | definition: a trailing _categorized-ChatGPT.txt or _categorized-Gemini.txt removed, case-sensitive; any other name kept whole |
| Distill.FinalName | Bahaiquest/CreatePages-AI/modules/distill_quotes.py:29-30 | definition: the stripped name, then "_final_for_wiki-", the model name and ".txt" |
| Distill.DistillItem | Bahaiquest/CreatePages-AI/modules/distill_quotes.py:41-49 | definition of a final record: title and location copied, quote replaced by the distiller's result for the quote and the keyword |
| Validator.SourceLen | Bahaiquest/CreatePages-AI/modules/validate_quotes.py:56 | definition of the lazy group (.*?) before "}}": the source field's length up to the first "}}", failing at a newline |
| Validator.LocationLen | Bahaiquest/CreatePages-AI/modules/validate_quotes.py:56 | definition of the lazy groups up to '|' and "}}" with backtracking: the location and source lengths |
| Validator.ExcerptLen | Bahaiquest/CreatePages-AI/modules/validate_quotes.py:56 | definition of the lazy groups of the whole pattern after "{{q|", with backtracking: the excerpt, location and source lengths |
| Validator.Opens | Bahaiquest/CreatePages-AI/modules/validate_quotes.py:56 | definition: the text starts with "{{q|" |
| Validator.Fields | Bahaiquest/CreatePages-AI/modules/validate_quotes.py:56 | definition: the three groups excerpt, location and source read from the lengths ExcerptLen gives |
| Validator.MatchAt | Bahaiquest/CreatePages-AI/modules/validate_quotes.py:56 | definition of a match anchored at a position: "{{q|" followed by the three fields |
| Validator.ForCheck | Bahaiquest/CreatePages-AI/modules/validate_quotes.py:82 | definition of excerpt_for_check: trim, strip every leading and trailing '.', trim again |
| Validator.Examine | Bahaiquest/CreatePages-AI/modules/validate_quotes.py:59-89 | definition of the verdict for one line: no template, already warned, no or empty original, verbatim or mismatch, tested in the source's order |
| Validator.Warned | Bahaiquest/CreatePages-AI/modules/validate_quotes.py:87-88 | definition: "[Warning] " inserted before the first occurrence of the excerpt on the line |
| Validator.Revised | Bahaiquest/CreatePages-AI/modules/validate_quotes.py:84-89 | definition of the line as left: warned on a mismatch, otherwise unchanged |
| Validator.Mismatches | Bahaiquest/CreatePages-AI/modules/validate_quotes.py:85 | definition of warnings_added: the number of mismatched lines |
| Validator.Templates | Bahaiquest/CreatePages-AI/modules/validate_quotes.py:60-61 | definition of quotes_processed: the number of lines the pattern matches |
| Validator.MergeItems | Bahaiquest/CreatePages-AI/modules/validate_quotes.py:27-28 | definition: each record's quote assigned to its location in order, None when a record lacks a key |
| Validator.MergeFiles | Bahaiquest/CreatePages-AI/modules/validate_quotes.py:20-28 | definition of the file loop: empty files skipped, an invalid file fails, parsed files merged in order |
| Validator.LoadOriginals | Bahaiquest/CreatePages-AI/modules/validate_quotes.py:7-37 | definition of load_original_quotes: None with no source file, otherwise the merge of the source files from an empty map |
| WikiFormat.DropAtEndIgnoreCase | Bahaiquest/modules/format_wiki.py:58 | definition of a `$`-anchored, case-insensitive suffix removal |
| WikiFormat.AbbreviationKey | Bahaiquest/modules/format_wiki.py:56-58 | definition: every keyword_ removed, then a trailing _final_for_wiki-ChatGPT.txt or -Gemini.txt removed ignoring case |
| WikiFormat.Abbreviation | Bahaiquest/modules/format_wiki.py:60 | definition: the table's value for the key, or "" when absent |
| WikiFormat.Reference | Bahaiquest/modules/format_wiki.py:74 | definition: the abbreviation when non-empty, otherwise the location |
| WikiFormat.Entry | Bahaiquest/modules/format_wiki.py:68-76 | definition of one record's (title, template line), or None when a key is missing |
| WikiFormat.Grouped | Bahaiquest/modules/format_wiki.py:77 | definition of all_quotes_by_category: each entry's line appended to its category's list, in record order |
| WikiFormat.Layout | Bahaiquest/modules/format_wiki.py:81-84 | definition: the sorted categories, each with its sorted lines |
| WikiFormat.Document | Bahaiquest/modules/format_wiki.py:81-86 | definition: the sections in layout order |
| WikiFormat.Render | Bahaiquest/modules/format_wiki.py:79-86 | definition of the output file's text: the document of the grouping's layout |
| WikiFormat.Format | Bahaiquest/modules/format_wiki.py:41-86 | definition of run: no files gives NoFiles, a missing key gives MissingField, otherwise the rendered text of all files' records |


## Left out

- Network search, the language-model calls and their retries are not part of this model: `search_library.py`, both `ai_processors.py`, `count_tokens.py` and `main_process.py`. The categorisers and the distiller are uninterpreted function parameters, so a distillation failure sentinel passes through like any other result.
- File I/O, `os.listdir`, JSON parsing and writing, `print` and log output, and `sys.exit` are not modelled. A directory is a sequence of (name, parsed records), and a written file is a returned value. Listing order is whatever order the sequence has.
- `validate()` finds final output files in the project root and calls `sys.exit` when no originals load. That file discovery and the exit are not modelled; the per-file validation and the loader are.
- The validator's early return when the output file cannot be read is not modelled: the lines are given.
- `load_original_quotes` catches every exception. The model covers the errors a parsed directory can raise: a source file that is not valid JSON, and a record missing `location` or `quote`. Both make the result None. Errors of the operating system are not modelled.
- Records are maps from string keys to string values. JSON values of other types are not modelled.
- The `ValueError` for an unsupported model name is an `UnsupportedModel` outcome, and a `KeyError` is a `MissingField` outcome or a None result. Nothing after the raise happens in the model either.
- Text.Lower: folds ASCII letters only. Python's full Unicode case mapping (for example the Kelvin sign or the dotless i) is not modelled, so Records.SelectModel and WikiFormat.AbbreviationKey follow `lower()` and `re.IGNORECASE` on ASCII names only.
- Validator.Idempotent: requires that each mismatched line's excerpt first occurs inside its own template. The source replaces the first occurrence anywhere on the line, and without this condition a second pass can warn again.
- Sorting.Sort: compares strings by code point, which is Python's `str` order. Locale-aware collation is not used by the source and not modelled.
- The `__main__` command-line blocks of the modules are not modelled.
