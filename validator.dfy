/**
 * The verbatim validator. Each line of a formatted wiki file is searched for its first
 * {{q|excerpt|location|source}} template; an excerpt that does not occur in the original quote
 * for its location gets "[Warning] " inserted in front of it, in place, and the warnings are
 * counted. The original quotes are merged from the keyword's source files.
 */
module Validator {
  import opened Wrappers
  import opened Text
  import opened Dicts
  import opened Records

  // The pattern (\{\{q\|)(.*?)(\|)(.*?)(\|)(.*?)(\}\}) is matched the way a backtracking engine
  // does: each lazy group first tries to stop, and only if the rest fails takes one more
  // character, never a newline. The three functions below give the lengths of the lazy groups
  // of a match that starts right after "{{q|".

  /** (.*?)(\}\}): the length of the source field, up to the first "}}" on the line. */
  function SourceLen(t: string): Option<nat>
  {
    if t == [] then None
    else if |t| >= 2 && t[0] == '}' && t[1] == '}' then Some(0)
    else if t[0] == '\n' then None
    else
      match SourceLen(t[1..])
      case None => None
      case Some(n) => Some(n + 1)
  }

  /** (.*?)(\|)(.*?)(\}\}): the lengths of the location and source fields. */
  function LocationLen(t: string): Option<(nat, nat)>
  {
    if t == [] then None
    else
      var after := if t[0] == '|' then SourceLen(t[1..]) else None;
      if after.Some? then Some((0, after.value))
      else if t[0] == '\n' then None
      else
        match LocationLen(t[1..])
        case None => None
        case Some((l, n)) => Some((l + 1, n))
  }

  /** (.*?)(\|)(.*?)(\|)(.*?)(\}\}): the lengths of the excerpt, location and source fields. */
  function ExcerptLen(t: string): Option<(nat, nat, nat)>
  {
    if t == [] then None
    else
      var after := if t[0] == '|' then LocationLen(t[1..]) else None;
      if after.Some? then Some((0, after.value.0, after.value.1))
      else if t[0] == '\n' then None
      else
        match ExcerptLen(t[1..])
        case None => None
        case Some((e, l, n)) => Some((e + 1, l, n))
  }

  lemma {:induction false} SourceLenShape(t: string)
    requires SourceLen(t).Some?
    ensures var n := SourceLen(t).value; n + 2 <= |t| && t[n] == '}' && t[n + 1] == '}'
  {
    if !(|t| >= 2 && t[0] == '}' && t[1] == '}') {
      SourceLenShape(t[1..]);
    }
  }

  lemma {:induction false} LocationLenShape(t: string)
    requires LocationLen(t).Some?
    ensures var (l, n) := LocationLen(t).value;
      l + 1 + n + 2 <= |t| && t[l] == '|' && t[l + 1 + n] == '}' && t[l + 2 + n] == '}'
  {
    if t[0] == '|' && SourceLen(t[1..]).Some? {
      SourceLenShape(t[1..]);
    } else {
      LocationLenShape(t[1..]);
    }
  }

  /** A match of the pattern after "{{q|": '|', '|' and "}}" stand where the lengths say. */
  lemma {:induction false} ExcerptLenShape(t: string)
    requires ExcerptLen(t).Some?
    ensures var (e, l, n) := ExcerptLen(t).value;
      && e + 1 + l + 1 + n + 2 <= |t| && t[e] == '|' && t[e + 1 + l] == '|'
      && t[e + 2 + l + n] == '}' && t[e + 3 + l + n] == '}'
  {
    if t[0] == '|' && LocationLen(t[1..]).Some? {
      LocationLenShape(t[1..]);
    } else {
      ExcerptLenShape(t[1..]);
    }
  }

  /** t starts with "{{q|". */
  predicate Opens(t: string)
  {
    |t| >= 4 && t[0] == '{' && t[1] == '{' && t[2] == 'q' && t[3] == '|'
  }

  /** The three fields of a template whose "{{q|" has just been read, as group(2), group(4), group(6). */
  function Fields(u: string): Option<(string, string, string)>
  {
    match ExcerptLen(u)
    case None => None
    case Some((e, l, n)) =>
      ExcerptLenShape(u);
      Some((u[..e], u[e + 1..e + 1 + l], u[e + 2 + l..e + 2 + l + n]))
  }

  /** The three fields (excerpt, location, source) of a template whose "{{q|" starts t. */
  function MatchAt(t: string): Option<(string, string, string)>
  {
    if !Opens(t) then None else Fields(t[4..])
  }

  /** A match spells out the template: "{{q|", the excerpt, '|', the location, '|', the source, "}}". */
  lemma MatchShape(t: string)
    requires MatchAt(t).Some?
    ensures FieldsAt(t, MatchAt(t).value.0, MatchAt(t).value.1, MatchAt(t).value.2)
  {
    var (e, l, n) := ExcerptLen(t[4..]).value;
    ExcerptLenShape(t[4..]);
    assert t[4..][..e] == t[4..4 + e];
    assert t[4..][e + 1..e + 1 + l] == t[5 + e..5 + e + l];
    assert t[4..][e + 2 + l..e + 2 + l + n] == t[6 + e + l..6 + e + l + n];
  }

  /** t spelled out as "{{q|" e "|" l "|" n "}}" followed by anything. */
  predicate FieldsAt(t: string, e: string, l: string, n: string)
  {
    var a := 4 + |e|;
    var b := a + 1 + |l|;
    var c := b + 1 + |n|;
    && c + 2 <= |t|
    && t[0] == '{' && t[1] == '{' && t[2] == 'q' && t[3] == '|'
    && t[4..a] == e && t[a] == '|' && t[a + 1..b] == l && t[b] == '|' && t[b + 1..c] == n
    && t[c] == '}' && t[c + 1] == '}'
  }

  lemma FieldsAtTemplate(t: string, e: string, l: string, n: string)
    requires FieldsAt(t, e, l, n)
    ensures StartsWith(t, QuoteTemplate(e, l, n))
  {
    var a := 4 + |e|;
    var b := a + 1 + |l|;
    var c := b + 1 + |n|;
    assert t[..4] == "{{q|";
    PrefixGrows(t, 4, a, e);
    PrefixGrows(t, a, a + 1, "|");
    PrefixGrows(t, a + 1, b, l);
    PrefixGrows(t, b, b + 1, "|");
    PrefixGrows(t, b + 1, c, n);
    PrefixGrows(t, c, c + 2, "}}");
  }

  /** A prefix followed by the slice up to j is the prefix up to j. */
  lemma PrefixGrows(t: string, i: nat, j: nat, w: string)
    requires i <= j <= |t| && t[i..j] == w
    ensures t[..j] == t[..i] + w
  {
  }

  /** A template found in a line: where its "{{q|" starts and its three fields. */
  datatype Template = Template(start: nat, excerpt: string, location: string, source: string)

  /** quote_template_regex.search(s) from position a on: the leftmost start at which the pattern matches. */
  function SearchFrom(s: string, a: nat): (r: Option<Template>)
    requires a <= |s|
    ensures r.Some? ==> (a <= r.value.start <= |s|
      && MatchAt(s[r.value.start..]) == Some((r.value.excerpt, r.value.location, r.value.source)))
    decreases |s| - a
  {
    match MatchAt(s[a..])
    case Some((e, l, n)) => Some(Template(a, e, l, n))
    case None => if a == |s| then None else SearchFrom(s, a + 1)
  }

  /** The first match of the quote-template pattern anywhere in s. */
  function Search(s: string): (r: Option<Template>)
    ensures r.Some? ==> r.value.start <= |s|
  {
    SearchFrom(s, 0)
  }

  /** What Search finds is a whole template, its three fields in place, starting at the reported position. */
  lemma SearchTemplate(s: string)
    requires Search(s).Some?
    ensures var t := Search(s).value;
      FieldsAt(s[t.start..], t.excerpt, t.location, t.source)
      && StartsWith(s[t.start..], QuoteTemplate(t.excerpt, t.location, t.source))
  {
    var t := Search(s).value;
    MatchShape(s[t.start..]);
    FieldsAtTemplate(s[t.start..], t.excerpt, t.location, t.source);
  }

  /** Search finds the leftmost match: the pattern matches at no earlier position. */
  lemma {:induction false} SearchNoEarlier(s: string, a: nat, b: nat)
    requires a <= b <= |s|
    requires SearchFrom(s, a).None? || b < SearchFrom(s, a).value.start
    ensures MatchAt(s[b..]).None?
    decreases b - a
  {
    if a < b {
      SearchNoEarlier(s, a + 1, b);
    }
  }

  /** A source field without '}' or line breaks ends at the "}}" that follows it. */
  lemma {:induction false} SourceLenOf(r: string, rest: string)
    requires '}' !in r && '\n' !in r
    ensures SourceLen(r + "}}" + rest) == Some(|r|)
    decreases |r|
  {
    var t := r + "}}" + rest;
    if r == [] {
      assert t[0] == '}' && t[1] == '}';
    } else {
      assert t[1..] == r[1..] + "}}" + rest;
      SourceLenOf(r[1..], rest);
    }
  }

  /** A location field without '|' or line breaks ends at the '|' that follows it. */
  lemma {:induction false} LocationLenOf(l: string, y: string)
    requires '|' !in l && '\n' !in l && SourceLen(y).Some?
    ensures LocationLen(l + "|" + y) == Some((|l|, SourceLen(y).value))
    decreases |l|
  {
    var t := l + "|" + y;
    if l == [] {
      assert t[1..] == y;
    } else {
      assert t[1..] == l[1..] + "|" + y;
      LocationLenOf(l[1..], y);
    }
  }

  /** What follows the excerpt of a written template: '|', the location, '|', the source, "}}". */
  function AfterExcerpt(l: string, r: string, rest: string): string
  {
    "|" + (l + "|" + (r + "}}" + rest))
  }

  lemma ExcerptLenAfter(l: string, r: string, rest: string)
    requires '|' !in l && '\n' !in l && '}' !in r && '\n' !in r
    ensures ExcerptLen(AfterExcerpt(l, r, rest)) == Some((0, |l|, |r|))
  {
    var y := r + "}}" + rest;
    var u := AfterExcerpt(l, r, rest);
    SourceLenOf(r, rest);
    LocationLenOf(l, y);
    assert u[1..] == l + "|" + y;
  }

  lemma SlicesAfter(q: string, l: string, r: string, rest: string, u: string)
    requires u == AfterExcerpt(l, r, rest)
    ensures q + u[..0] == q && u[1..1 + |l|] == l && u[2 + |l|..2 + |l| + |r|] == r
  {
    assert u == ['|'] + l + ['|'] + r + "}}" + rest;
  }

  lemma TemplateSplit(q: string, l: string, r: string, rest: string)
    ensures QuoteTemplate(q, l, r) + rest == "{{q|" + (q + AfterExcerpt(l, r, rest))
  {
  }

  lemma FieldsBody(q: string, l: string, r: string, rest: string)
    requires '|' !in q && '\n' !in q && '|' !in l && '\n' !in l && '}' !in r && '\n' !in r
    ensures Fields(q + AfterExcerpt(l, r, rest)) == Some((q, l, r))
  {
    var u := AfterExcerpt(l, r, rest);
    ExcerptLenAfter(l, r, rest);
    SlicesAfter(q, l, r, rest, u);
    FieldsWith(q, u, 0, |l|, |r|, q, l, r);
  }

  lemma FieldsWith(x: string, u: string, e: nat, l: nat, n: nat, a: string, b: string, c: string)
    requires '|' !in x && '\n' !in x && ExcerptLen(u) == Some((e, l, n))
    requires e + 2 + l + n <= |u|
    requires x + u[..e] == a && u[e + 1..e + 1 + l] == b && u[e + 2 + l..e + 2 + l + n] == c
    ensures Fields(x + u) == Some((a, b, c))
  {
    FieldsPrefix(x, u, e, l, n);
  }

  lemma MatchOpened(b: string, f: (string, string, string))
    requires Fields(b) == Some(f)
    ensures MatchAt("{{q|" + b) == Some(f)
  {
    assert ("{{q|" + b)[4..] == b;
  }

  /** The template the formatter writes is found at the start of the line, with its three fields. */
  lemma TemplateParses(q: string, l: string, r: string, rest: string)
    requires '|' !in q && '\n' !in q && '|' !in l && '\n' !in l && '}' !in r && '\n' !in r
    ensures Search(QuoteTemplate(q, l, r) + rest) == Some(Template(0, q, l, r))
  {
    var t := "{{q|" + (q + AfterExcerpt(l, r, rest));
    FieldsBody(q, l, r, rest);
    MatchOpened(q + AfterExcerpt(l, r, rest), (q, l, r));
    TemplateSplit(q, l, r, rest);
    assert t[0..] == t;
  }

  /** A match at start with no match before it is what Search finds. */
  lemma {:induction false} SearchLeftmost(s: string, a: nat, start: nat)
    requires a <= start <= |s|
    requires forall b :: a <= b < start ==> MatchAt(s[b..]).None?
    requires MatchAt(s[start..]).Some?
    ensures SearchFrom(s, a) == Some(Template(start, MatchAt(s[start..]).value.0,
      MatchAt(s[start..]).value.1, MatchAt(s[start..]).value.2))
    decreases start - a
  {
    if a < start {
      SearchLeftmost(s, a + 1, start);
    }
  }

  const WarningTag := "[Warning]"

  /** The outcome of examining one line. */
  datatype Verdict =
    | NoTemplate    // the pattern does not match; the line is not counted
    | AlreadyWarned // the trimmed excerpt starts with "[Warning]"
    | NoOriginal    // no original quote, or an empty one, for the location
    | Verbatim      // the trimmed excerpt occurs in the original
    | Mismatch      // it does not: the line gets a warning

  /** The excerpt as checked: trimmed, then every leading and trailing '.' removed, then trimmed again. */
  function ForCheck(excerpt: string): string
  {
    Strip(StripOf(Strip(excerpt), {'.'}))
  }

  function Examine(line: string, originals: seq<(string, string)>): Verdict
  {
    match Search(line)
    case None => NoTemplate
    case Some(t) =>
      if StartsWith(Strip(t.excerpt), WarningTag) then AlreadyWarned
      else
        match Get(originals, t.location)
        case None => NoOriginal
        case Some(original) =>
          if original == "" then NoOriginal
          else if Contains(original, ForCheck(t.excerpt)) then Verbatim
          else Mismatch
  }

  /** The line with "[Warning] " inserted before the first occurrence of the excerpt. */
  function Warned(line: string, excerpt: string): string
  {
    ReplaceFirst(line, excerpt, WarningTag + " " + excerpt)
  }

  /** The line as the validator leaves it. */
  function Revised(line: string, originals: seq<(string, string)>): string
  {
    if Examine(line, originals) == Mismatch then Warned(line, Search(line).value.excerpt) else line
  }

  /** The lines as the validator leaves them, in order. */
  function RevisedLines(lines: seq<string>, originals: seq<(string, string)>): (r: seq<string>)
    ensures |r| == |lines|
  {
    if lines == [] then []
    else RevisedLines(lines[..|lines| - 1], originals) + [Revised(lines[|lines| - 1], originals)]
  }

  /** Line i of the result is line i revised. */
  lemma {:induction false} RevisedLinesAt(lines: seq<string>, originals: seq<(string, string)>, i: nat)
    requires i < |lines|
    ensures RevisedLines(lines, originals)[i] == Revised(lines[i], originals)
  {
    var n := |lines| - 1;
    var prev := RevisedLines(lines[..n], originals);
    var last := Revised(lines[n], originals);
    assert RevisedLines(lines, originals) == prev + [last];
    if i < n {
      RevisedLinesAt(lines[..n], originals, i);
      assert lines[..n][i] == lines[i];
      assert (prev + [last])[i] == prev[i];
    } else {
      assert i == n;
      assert (prev + [last])[n] == last;
    }
  }

  /** warnings_added after the lines have been examined. */
  function Mismatches(lines: seq<string>, originals: seq<(string, string)>): nat
  {
    if lines == [] then 0
    else
      Mismatches(lines[..|lines| - 1], originals)
      + (if Examine(lines[|lines| - 1], originals) == Mismatch then 1 else 0)
  }

  /** quotes_processed after the lines have been examined: every line the pattern matches. */
  function Templates(lines: seq<string>): nat
  {
    if lines == [] then 0
    else Templates(lines[..|lines| - 1]) + (if Search(lines[|lines| - 1]).Some? then 1 else 0)
  }

  /**
   * _validate_and_update_wikitext_file, once the file has been read into lines: every line is
   * examined, the mismatched ones are rewritten in place, and the file is to be written back
   * exactly when a warning was added.
   */
  method ValidateLines(lines: array<string>, originals: seq<(string, string)>)
    returns (warningsAdded: nat, quotesProcessed: nat, rewrite: bool)
    modifies lines
    ensures lines[..] == RevisedLines(old(lines[..]), originals)
    ensures warningsAdded == Mismatches(old(lines[..]), originals)
    ensures quotesProcessed == Templates(old(lines[..]))
    ensures rewrite <==> warningsAdded > 0
  {
    ghost var before := lines[..];
    ghost var done: seq<string> := [];
    warningsAdded := 0;
    quotesProcessed := 0;
    for i := 0 to lines.Length
      invariant lines[..] == done + before[i..]
      invariant done == RevisedLines(before[..i], originals)
      invariant warningsAdded == Mismatches(before[..i], originals)
      invariant quotesProcessed == Templates(before[..i])
    {
      ghost var current := lines[..];
      assert lines[i] == before[i];
      var newLine, found, warned := ValidateLine(lines[i], originals);
      Advance(before, i, originals, done, warningsAdded, quotesProcessed, newLine, found, warned);
      if found {
        quotesProcessed := quotesProcessed + 1;
      }
      if warned {
        warningsAdded := warningsAdded + 1;
        lines[i] := newLine;
        assert lines[..] == current[i := newLine];
      }
      ReplaceNext(done, before[i..], newLine);
      done := done + [newLine];
    }
    assert before[..lines.Length] == before;
    rewrite := warningsAdded > 0;
  }

  /** What examining line i adds to each of the loop's running results. */
  lemma Advance(lines: seq<string>, i: nat, originals: seq<(string, string)>,
                done: seq<string>, warnings: nat, quotes: nat, newLine: string, found: bool, warned: bool)
    requires i < |lines|
    requires done == RevisedLines(lines[..i], originals)
    requires warnings == Mismatches(lines[..i], originals)
    requires quotes == Templates(lines[..i])
    requires found <==> Search(lines[i]).Some?
    requires warned <==> Examine(lines[i], originals) == Mismatch
    requires newLine == Revised(lines[i], originals)
    ensures done + [newLine] == RevisedLines(lines[..i + 1], originals)
    ensures warnings + (if warned then 1 else 0) == Mismatches(lines[..i + 1], originals)
    ensures quotes + (if found then 1 else 0) == Templates(lines[..i + 1])
  {
    var next := lines[..i + 1];
    assert next[..i] == lines[..i] && next[i] == lines[i];
    RevisedLinesSnoc(next, lines[..i], lines[i], originals);
    MismatchesSnoc(next, lines[..i], lines[i], originals);
    TemplatesSnoc(next, lines[..i], lines[i]);
  }

  lemma RevisedLinesSnoc(lines: seq<string>, init: seq<string>, last: string, originals: seq<(string, string)>)
    requires lines != [] && lines[..|lines| - 1] == init && lines[|lines| - 1] == last
    ensures RevisedLines(lines, originals) == RevisedLines(init, originals) + [Revised(last, originals)]
  {
  }

  lemma MismatchesSnoc(lines: seq<string>, init: seq<string>, last: string, originals: seq<(string, string)>)
    requires lines != [] && lines[..|lines| - 1] == init && lines[|lines| - 1] == last
    ensures Mismatches(lines, originals) == Mismatches(init, originals) + (if Examine(last, originals) == Mismatch then 1 else 0)
  {
  }

  lemma TemplatesSnoc(lines: seq<string>, init: seq<string>, last: string)
    requires lines != [] && lines[..|lines| - 1] == init && lines[|lines| - 1] == last
    ensures Templates(lines) == Templates(init) + (if Search(last).Some? then 1 else 0)
  {
  }

  /** Overwriting the first element after a prefix extends the prefix. */
  lemma ReplaceNext(done: seq<string>, rest: seq<string>, x: string)
    requires rest != []
    ensures (done + rest)[|done| := x] == (done + [x]) + rest[1..]
    ensures x == rest[0] ==> done + rest == (done + [x]) + rest[1..]
  {
  }

  /** The body of the loop over the lines: whether the template is found, whether a warning is added, and the new line. */
  method ValidateLine(line: string, originals: seq<(string, string)>) returns (newLine: string, found: bool, warned: bool)
    ensures found <==> Search(line).Some?
    ensures warned <==> Examine(line, originals) == Mismatch
    ensures newLine == Revised(line, originals)
    ensures !warned ==> newLine == line
  {
    newLine := line;
    warned := false;
    var templateMatch := Search(line);
    found := templateMatch.Some?;
    if found {
      var excerpt := templateMatch.value.excerpt;
      var location := templateMatch.value.location;
      if StartsWith(Strip(excerpt), WarningTag) {
        assert Examine(line, originals) == AlreadyWarned;
        return;
      }
      var originalQuote := Get(originals, location);
      if originalQuote.None? || originalQuote.value == "" {
        assert Examine(line, originals) == NoOriginal;
        return;
      }
      var excerptForCheck := ForCheck(excerpt);
      if Contains(originalQuote.value, excerptForCheck) {
        assert Examine(line, originals) == Verbatim;
        return;
      }
      assert Examine(line, originals) == Mismatch;
      warned := true;
      newLine := ReplaceFirst(line, excerpt, WarningTag + " " + excerpt);
    }
  }

  /** The excerpt a template was found with stands at start + 4 of its line. */
  lemma ExcerptInLine(line: string)
    requires Search(line).Some?
    ensures OccursAt(line, Search(line).value.excerpt, Search(line).value.start + 4)
  {
    var t := Search(line).value;
    MatchShape(line[t.start..]);
    assert line[t.start..][4..4 + |t.excerpt|] == line[t.start + 4..t.start + 4 + |t.excerpt|];
  }

  /** Only a mismatched line changes, and a mismatched line always changes: it grows by "[Warning] ". */
  lemma RevisedIffMismatch(line: string, originals: seq<(string, string)>)
    ensures Revised(line, originals) != line <==> Examine(line, originals) == Mismatch
    ensures Examine(line, originals) == Mismatch ==> |Revised(line, originals)| == |line| + 10
  {
    if Examine(line, originals) == Mismatch {
      ExcerptInLine(line);
      WarnedLonger(line, Search(line).value.excerpt, Search(line).value.start + 4);
    }
  }

  /** Tagging an excerpt that occurs in the line adds the ten characters of "[Warning] ". */
  lemma WarnedLonger(line: string, e: string, j: nat)
    requires OccursAt(line, e, j)
    ensures |Warned(line, e)| == |line| + 10
  {
    ContainsAt(line, e, j);
    var k := FindFirst(line, e).value;
    assert Warned(line, e) == line[..k] + (WarningTag + " " + e) + line[k + |e|..];
  }

  /** The indices at which two lists of lines differ. */
  function Changed(before: seq<string>, after: seq<string>): set<nat>
    requires |before| == |after|
  {
    set i: nat | i < |before| && before[i] != after[i]
  }

  /** The number of positions at which two lists of lines differ. */
  function DiffCount(before: seq<string>, after: seq<string>): nat
    requires |before| == |after|
  {
    if before == [] then 0
    else
      var n := |before| - 1;
      DiffCount(before[..n], after[..n]) + (if before[n] != after[n] then 1 else 0)
  }

  lemma {:induction false} ChangedCount(before: seq<string>, after: seq<string>)
    requires |before| == |after|
    ensures |Changed(before, after)| == DiffCount(before, after)
  {
    if before == [] {
      assert Changed(before, after) == {};
    } else {
      var n := |before| - 1;
      ChangedCount(before[..n], after[..n]);
      var now := Changed(before, after);
      var was := Changed(before[..n], after[..n]);
      assert now == was + (if before[n] != after[n] then {n} else {});
      assert n !in was;
    }
  }

  lemma {:induction false} MismatchesDiffCount(lines: seq<string>, originals: seq<(string, string)>)
    ensures Mismatches(lines, originals) == DiffCount(lines, RevisedLines(lines, originals))
  {
    if lines != [] {
      var n := |lines| - 1;
      MismatchesDiffCount(lines[..n], originals);
      assert RevisedLines(lines, originals)[..n] == RevisedLines(lines[..n], originals);
      RevisedIffMismatch(lines[n], originals);
    }
  }

  /** warnings_added is exactly the number of lines the validator rewrites. */
  lemma WarningsCountChangedLines(lines: seq<string>, originals: seq<(string, string)>)
    ensures Mismatches(lines, originals) == |Changed(lines, RevisedLines(lines, originals))|
  {
    MismatchesDiffCount(lines, originals);
    ChangedCount(lines, RevisedLines(lines, originals));
  }

  /** A mismatched line whose excerpt is found first at the template, with no "{{q|" before it. */
  predicate TemplateFirst(line: string)
  {
    Search(line).Some?
    && FindFirst(line, Search(line).value.excerpt) == Some(Search(line).value.start + 4)
    && forall a :: 0 <= a < Search(line).value.start ==> !Opens(line[a..])
  }

  /** Characters with neither a '|' nor a newline in front of a template's fields only lengthen its excerpt. */
  lemma ExcerptLenPrefix(x: string, u: string, e: nat, l: nat, n: nat)
    requires '|' !in x && '\n' !in x
    requires ExcerptLen(u) == Some((e, l, n))
    ensures ExcerptLen(x + u) == Some((|x| + e, l, n))
  {
    var t := x + u;
    assert t[|x|..] == u;
    forall i | 0 <= i < |x| ensures t[i] != '|' && t[i] != '\n' {
      assert t[i] == x[i] && x[i] in x;
    }
    ExcerptLenFrom(t, |x|, e, l, n);
  }

  /** Excerpt lengths found after k characters that are neither '|' nor line breaks grow by k. */
  lemma {:induction false} ExcerptLenFrom(t: string, k: nat, e: nat, l: nat, n: nat)
    requires k <= |t| && ExcerptLen(t[k..]) == Some((e, l, n))
    requires forall i :: 0 <= i < k ==> t[i] != '|' && t[i] != '\n'
    ensures ExcerptLen(t) == Some((k + e, l, n))
    decreases k
  {
    if k == 0 {
      assert t[k..] == t;
    } else {
      var w := t[1..];
      assert w[k - 1..] == t[k..];
      forall i | 0 <= i < k - 1 ensures w[i] != '|' && w[i] != '\n' {
        assert w[i] == t[i + 1];
      }
      ExcerptLenFrom(w, k - 1, e, l, n);
      ExcerptLenSkip(t, k - 1 + e, l, n);
    }
  }

  /** A character that is neither '|' nor a line break only lengthens the excerpt. */
  lemma ExcerptLenSkip(t: string, e: nat, l: nat, n: nat)
    requires t != [] && t[0] != '|' && t[0] != '\n' && ExcerptLen(t[1..]) == Some((e, l, n))
    ensures ExcerptLen(t) == Some((e + 1, l, n))
  {
  }

  lemma FieldsOf(w: string, e: nat, l: nat, n: nat)
    requires ExcerptLen(w) == Some((e, l, n)) && e + 2 + l + n <= |w|
    ensures Fields(w) == Some((w[..e], w[e + 1..e + 1 + l], w[e + 2 + l..e + 2 + l + n]))
  {
  }

  lemma FieldsAre(w: string, e: nat, l: nat, n: nat, excerpt: string, location: string, source: string)
    requires ExcerptLen(w) == Some((e, l, n)) && e + 2 + l + n <= |w|
    requires excerpt == w[..e] && location == w[e + 1..e + 1 + l] && source == w[e + 2 + l..e + 2 + l + n]
    ensures Fields(w) == Some((excerpt, location, source))
  {
    FieldsOf(w, e, l, n);
  }

  lemma SlicesShift(x: string, u: string, k: nat, e: nat, l: nat, n: nat)
    requires k == |x| + e && e + 2 + l + n <= |u|
    ensures (x + u)[..k] == x + u[..e]
    ensures (x + u)[k + 1..k + 1 + l] == u[e + 1..e + 1 + l]
    ensures (x + u)[k + 2 + l..k + 2 + l + n] == u[e + 2 + l..e + 2 + l + n]
  {
  }

  lemma FieldsPrefix(x: string, u: string, e: nat, l: nat, n: nat)
    requires '|' !in x && '\n' !in x && ExcerptLen(u) == Some((e, l, n)) && e + 2 + l + n <= |u|
    ensures Fields(x + u) == Some((x + u[..e], u[e + 1..e + 1 + l], u[e + 2 + l..e + 2 + l + n]))
  {
    var k := |x| + e;
    ExcerptLenPrefix(x, u, e, l, n);
    SlicesShift(x, u, k, e, l, n);
    FieldsAre(x + u, k, l, n, x + u[..e], u[e + 1..e + 1 + l], u[e + 2 + l..e + 2 + l + n]);
  }

  lemma MatchAtInsert(t: string, x: string)
    requires MatchAt(t).Some? && '|' !in x && '\n' !in x
    ensures MatchAt(t[..4] + x + t[4..]) == Some((x + MatchAt(t).value.0, MatchAt(t).value.1, MatchAt(t).value.2))
  {
    var w := t[..4] + x + t[4..];
    assert w[4..] == x + t[4..];
    var (e, l, n) := ExcerptLen(t[4..]).value;
    ExcerptLenShape(t[4..]);
    FieldsOf(t[4..], e, l, n);
    FieldsPrefix(x, t[4..], e, l, n);
  }

  /** str.replace(pat, rep, 1) where pat is first found at c. */
  lemma ReplaceFirstAt(line: string, pat: string, rep: string, c: nat)
    requires FindFirst(line, pat) == Some(c)
    ensures ReplaceFirst(line, pat, rep) == line[..c] + rep + line[c + |pat|..]
  {
  }

  lemma InsertBefore(line: string, e: string, x: string, c: nat)
    requires OccursAt(line, e, c)
    ensures line[..c] + (x + e) + line[c + |e|..] == line[..c] + x + line[c..]
  {
    assert line[c..] == e + line[c + |e|..];
  }

  /** The warned line is the line with "[Warning] " inserted right after the template's "{{q|". */
  lemma WarnedShape(line: string)
    requires TemplateFirst(line)
    ensures var c := Search(line).value.start + 4;
      Warned(line, Search(line).value.excerpt) == line[..c] + (WarningTag + " ") + line[c..]
  {
    var t := Search(line).value;
    ExcerptInLine(line);
    ReplaceFirstAt(line, t.excerpt, WarningTag + " " + t.excerpt, t.start + 4);
    InsertBefore(line, t.excerpt, WarningTag + " ", t.start + 4);
  }

  /** Where two strings agree on their first c characters, they open a template at the same places before c - 3. */
  lemma OpensAgree(s: string, line: string, b: nat, c: nat)
    requires b + 4 <= c <= |s| && c <= |line| && s[..c] == line[..c]
    ensures Opens(s[b..]) <==> Opens(line[b..])
  {
    assert s[b..][..4] == s[..c][b..b + 4];
    assert line[b..][..4] == line[..c][b..b + 4];
  }

  lemma SplitAt(line: string, x: string, a: nat, c: nat)
    requires a + 4 == c <= |line|
    ensures (line[..c] + x + line[c..])[a..] == line[a..][..4] + x + line[a..][4..]
    ensures (line[..c] + x + line[c..])[..c] == line[..c]
  {
  }

  /** After the warning is inserted the same template is found, its excerpt now tagged. */
  lemma WarnedSearch(line: string)
    requires TemplateFirst(line)
    ensures var t := Search(line).value;
      Search(Warned(line, t.excerpt))
      == Some(Template(t.start, WarningTag + " " + t.excerpt, t.location, t.source))
  {
    var t := Search(line).value;
    var c := t.start + 4;
    var x := WarningTag + " ";
    var s := Warned(line, t.excerpt);
    WarnedShape(line);
    SplitAt(line, x, t.start, c);
    forall b | 0 <= b < t.start ensures MatchAt(s[b..]).None? {
      OpensAgree(s, line, b, c);
    }
    MatchAtInsert(line[t.start..], x);
    SearchLeftmost(s, 0, t.start);
  }

  /** An excerpt carrying the tag starts with "[Warning]" once trimmed. */
  lemma TaggedExcerpt(e: string)
    ensures StartsWith(Strip(WarningTag + " " + e), WarningTag)
  {
    assert WarningTag + " " + e == WarningTag + (" " + e);
    StripOfKeepsPrefix(WarningTag, " " + e, Whitespace);
  }

  /** A tagged line is left alone: the validator's second pass adds no warning to it. */
  lemma WarnedIsSkipped(line: string, originals: seq<(string, string)>)
    requires TemplateFirst(line)
    ensures Examine(Warned(line, Search(line).value.excerpt), originals) == AlreadyWarned
  {
    WarnedSearch(line);
    TaggedExcerpt(Search(line).value.excerpt);
  }

  /**
   * Running the validator again changes nothing and adds no warning, provided each mismatched
   * line had its template as the first "{{q|" and its excerpt first occurring there.
   */
  lemma Idempotent(lines: seq<string>, originals: seq<(string, string)>)
    requires forall i :: 0 <= i < |lines| && Examine(lines[i], originals) == Mismatch ==> TemplateFirst(lines[i])
    ensures RevisedLines(RevisedLines(lines, originals), originals) == RevisedLines(lines, originals)
    ensures Mismatches(RevisedLines(lines, originals), originals) == 0
  {
    var once := RevisedLines(lines, originals);
    forall i | 0 <= i < |lines| ensures Examine(once[i], originals) != Mismatch {
      RevisedLinesAt(lines, originals, i);
      if Examine(lines[i], originals) == Mismatch {
        WarnedIsSkipped(lines[i], originals);
      }
    }
    NoMismatches(once, originals);
  }

  lemma NoMismatches(lines: seq<string>, originals: seq<(string, string)>)
    requires forall i :: 0 <= i < |lines| ==> Examine(lines[i], originals) != Mismatch
    ensures Mismatches(lines, originals) == 0
    ensures RevisedLines(lines, originals) == lines
  {
    NoMismatchesCount(lines, originals);
    NoRevisions(lines, originals);
  }

  lemma {:induction false} NoMismatchesCount(lines: seq<string>, originals: seq<(string, string)>)
    requires forall i :: 0 <= i < |lines| ==> Examine(lines[i], originals) != Mismatch
    ensures Mismatches(lines, originals) == 0
  {
    if lines != [] {
      var n := |lines| - 1;
      var init := lines[..n];
      forall i | 0 <= i < n ensures Examine(init[i], originals) != Mismatch {
        assert init[i] == lines[i];
      }
      NoMismatchesCount(init, originals);
      var last := lines[n];
      assert Examine(last, originals) != Mismatch;
      MismatchesSnoc(lines, init, last, originals);
    }
  }

  lemma {:induction false} NoRevisions(lines: seq<string>, originals: seq<(string, string)>)
    requires forall i :: 0 <= i < |lines| ==> Examine(lines[i], originals) != Mismatch
    ensures RevisedLines(lines, originals) == lines
  {
    if lines != [] {
      var n := |lines| - 1;
      var init := lines[..n];
      forall i | 0 <= i < n ensures Examine(init[i], originals) != Mismatch {
        assert init[i] == lines[i];
      }
      NoRevisions(init, originals);
      var last := lines[n];
      assert Revised(last, originals) == last;
      RevisedLinesSnoc(lines, init, last, originals);
      assert init + [last] == lines;
    }
  }

  /** What is checked is a piece of the excerpt. */
  lemma ForCheckContained(e: string)
    ensures Contains(e, ForCheck(e))
  {
    var a := Strip(e);
    var b := StripOf(a, {'.'});
    StripOfContained(e, Whitespace);
    StripOfContained(a, {'.'});
    StripOfContained(b, Whitespace);
    ContainsTransitive(a, b, ForCheck(e));
    ContainsTransitive(e, a, ForCheck(e));
  }

  /** An excerpt that occurs verbatim in the original for its location passes. */
  lemma VerbatimPasses(line: string, originals: seq<(string, string)>)
    requires Search(line).Some?
    requires !StartsWith(Strip(Search(line).value.excerpt), WarningTag)
    requires Get(originals, Search(line).value.location).Some?
    requires Get(originals, Search(line).value.location).value != ""
    requires Contains(Get(originals, Search(line).value.location).value, Search(line).value.excerpt)
    ensures Examine(line, originals) == Verbatim
  {
    var e := Search(line).value.excerpt;
    ForCheckContained(e);
    ContainsTransitive(Get(originals, Search(line).value.location).value, e, ForCheck(e));
  }

  /** When a line is judged a mismatch, spelled out. */
  lemma MismatchCases(line: string, originals: seq<(string, string)>)
    requires Examine(line, originals) == Mismatch
    ensures Search(line).Some? && Get(originals, Search(line).value.location).Some?
    ensures !Contains(Get(originals, Search(line).value.location).value, ForCheck(Search(line).value.excerpt))
  {
  }

  /** An excerpt that is empty once whitespace and dots are trimmed never draws a warning. */
  lemma EmptyExcerptPasses(line: string, originals: seq<(string, string)>)
    requires Search(line).Some? && ForCheck(Search(line).value.excerpt) == ""
    ensures Examine(line, originals) != Mismatch
  {
    if Examine(line, originals) == Mismatch {
      MismatchCases(line, originals);
      ContainsEmpty(Get(originals, Search(line).value.location).value, ForCheck(Search(line).value.excerpt));
      assert false;
    }
  }


  // ---------------------------------------------------------------------------------------
  // load_original_quotes

  /** A file of the keyword's directory as the loader sees it. */
  datatype Contents = Empty | Parsed(items: seq<Item>) | Invalid

  type ListedFile = (string, Contents)

  /** The original search results: they start with the keyword, end in .txt and are neither categorised nor final. */
  predicate IsOriginalFile(name: string, keyword: string)
  {
    && StartsWith(name, keyword) && EndsWith(name, ".txt")
    && !Contains(name, "_categorized") && !Contains(name, "_final")
  }

  function OriginalFiles(dir: seq<ListedFile>, keyword: string): (r: seq<ListedFile>)
    ensures |r| <= |dir|
    ensures forall f :: f in r <==> f in dir && IsOriginalFile(f.0, keyword)
  {
    if dir == [] then []
    else
      var rest := OriginalFiles(dir[..|dir| - 1], keyword);
      var last := dir[|dir| - 1];
      assert dir == dir[..|dir| - 1] + [last];
      if IsOriginalFile(last.0, keyword) then rest + [last] else rest
  }

  /** Each record's quote stored under its location, a later record overriding; None when a record lacks a key. */
  function MergeItems(acc: seq<(string, string)>, items: seq<Item>): Option<seq<(string, string)>>
  {
    if items == [] then Some(acc)
    else
      match MergeItems(acc, items[..|items| - 1])
      case None => None
      case Some(prev) =>
        var item := items[|items| - 1];
        match (Get(item, "location"), Get(item, "quote"))
        case (Some(location), Some(quote)) => Some(Put(prev, location, quote))
        case _ => None
  }

  /** The loop over the source files: an empty file is skipped, one that is not valid JSON raises. */
  function MergeFiles(acc: seq<(string, string)>, files: seq<ListedFile>): Option<seq<(string, string)>>
  {
    if files == [] then Some(acc)
    else
      match MergeFiles(acc, files[..|files| - 1])
      case None => None
      case Some(prev) =>
        match files[|files| - 1].1
        case Empty => Some(prev)
        case Invalid => None
        case Parsed(items) => MergeItems(prev, items)
  }

  /** load_original_quotes: None when there is no source file or a source file cannot be read. */
  function LoadOriginals(dir: seq<ListedFile>, keyword: string): Option<seq<(string, string)>>
  {
    var sources := OriginalFiles(dir, keyword);
    if sources == [] then None else MergeFiles([], sources)
  }

  /** The quote of the last item with this location. */
  function LastQuote(items: seq<Item>, location: string): Option<string>
  {
    if items == [] then None
    else if Get(items[|items| - 1], "location") == Some(location) then Get(items[|items| - 1], "quote")
    else LastQuote(items[..|items| - 1], location)
  }

  /** The quote of the last item with this location across the files, in listing order. */
  function LastQuoteIn(files: seq<ListedFile>, location: string): Option<string>
  {
    if files == [] then None
    else
      var last := files[|files| - 1].1;
      if last.Parsed? && LastQuote(last.items, location).Some? then LastQuote(last.items, location)
      else LastQuoteIn(files[..|files| - 1], location)
  }

  lemma {:induction false} MergeItemsGet(acc: seq<(string, string)>, items: seq<Item>, location: string)
    requires MergeItems(acc, items).Some?
    ensures Get(MergeItems(acc, items).value, location)
      == if LastQuote(items, location).Some? then LastQuote(items, location) else Get(acc, location)
  {
    if items != [] {
      MergeItemsGet(acc, items[..|items| - 1], location);
    }
  }

  lemma {:induction false} MergeFilesGet(acc: seq<(string, string)>, files: seq<ListedFile>, location: string)
    requires MergeFiles(acc, files).Some?
    ensures Get(MergeFiles(acc, files).value, location)
      == if LastQuoteIn(files, location).Some? then LastQuoteIn(files, location) else Get(acc, location)
  {
    if files != [] {
      var prev := MergeFiles(acc, files[..|files| - 1]);
      MergeFilesGet(acc, files[..|files| - 1], location);
      if files[|files| - 1].1.Parsed? {
        MergeItemsGet(prev.value, files[|files| - 1].1.items, location);
      }
    }
  }

  /** A later item overrides an earlier one with the same location: each location maps to its last quote. */
  lemma LastItemWins(dir: seq<ListedFile>, keyword: string, location: string)
    requires LoadOriginals(dir, keyword).Some?
    ensures Get(LoadOriginals(dir, keyword).value, location) == LastQuoteIn(OriginalFiles(dir, keyword), location)
  {
    MergeFilesGet([], OriginalFiles(dir, keyword), location);
  }

  lemma {:induction false} InvalidFileAbortsMerge(acc: seq<(string, string)>, files: seq<ListedFile>, k: nat)
    requires k < |files| && files[k].1 == Invalid
    ensures MergeFiles(acc, files).None?
  {
    if k < |files| - 1 {
      InvalidFileAbortsMerge(acc, files[..|files| - 1], k);
    }
  }

  /** A source file that is not valid JSON makes the whole load fail; other files do not matter. */
  lemma InvalidSourceAborts(dir: seq<ListedFile>, keyword: string, name: string)
    requires (name, Invalid) in dir && IsOriginalFile(name, keyword)
    ensures LoadOriginals(dir, keyword).None?
  {
    var sources := OriginalFiles(dir, keyword);
    var k :| 0 <= k < |sources| && sources[k] == (name, Invalid);
    InvalidFileAbortsMerge([], sources, k);
  }

  method MergeInto(acc: seq<(string, string)>, items: seq<Item>) returns (r: Option<seq<(string, string)>>)
    ensures r == MergeItems(acc, items)
  {
    var originals := acc;
    for j := 0 to |items|
      invariant MergeItems(acc, items[..j]) == Some(originals)
    {
      assert items[..j + 1][..j] == items[..j];
      var item := items[j];
      var location := Get(item, "location");
      var quote := Get(item, "quote");
      if location.None? || quote.None? {
        MergeItemsFails(acc, items, j);
        return None;
      }
      originals := Put(originals, location.value, quote.value);
    }
    assert items[..|items|] == items;
    return Some(originals);
  }

  lemma {:induction false} MergeItemsFails(acc: seq<(string, string)>, items: seq<Item>, j: nat)
    requires j < |items| && MergeItems(acc, items[..j]).Some?
    requires Get(items[j], "location").None? || Get(items[j], "quote").None?
    ensures MergeItems(acc, items).None?
    decreases |items|
  {
    if j < |items| - 1 {
      assert items[..|items| - 1][..j] == items[..j];
      MergeItemsFails(acc, items[..|items| - 1], j);
    } else {
      assert items[..j] == items[..|items| - 1];
    }
  }

  /** load_original_quotes, with the directory listing already read and each file parsed. */
  method LoadOriginalQuotes(dir: seq<ListedFile>, keyword: string) returns (originals: Option<seq<(string, string)>>)
    ensures originals == LoadOriginals(dir, keyword)
  {
    var sourceFiles := OriginalFiles(dir, keyword);
    if sourceFiles == [] {
      return None;
    }
    var acc: seq<(string, string)> := [];
    for k := 0 to |sourceFiles|
      invariant MergeFiles([], sourceFiles[..k]) == Some(acc)
    {
      assert sourceFiles[..k + 1][..k] == sourceFiles[..k];
      match sourceFiles[k].1
      case Empty =>
      case Invalid =>
        MergeFilesFails(sourceFiles, k);
        return None;
      case Parsed(items) =>
        var merged := MergeInto(acc, items);
        if merged.None? {
          MergeFilesFails(sourceFiles, k);
          return None;
        }
        acc := merged.value;
    }
    assert sourceFiles[..|sourceFiles|] == sourceFiles;
    return Some(acc);
  }

  lemma {:induction false} MergeFilesFails(files: seq<ListedFile>, k: nat)
    requires k < |files| && MergeFiles([], files[..k + 1]).None?
    ensures MergeFiles([], files).None?
    decreases |files|
  {
    if k < |files| - 1 {
      assert files[..|files| - 1][..k + 1] == files[..k + 1];
      MergeFilesFails(files[..|files| - 1], k);
    } else {
      assert files[..k + 1] == files;
    }
  }
}
