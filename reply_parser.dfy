/**
 * The categorisation model's reply format and its parser: one `Category:<IDs>` line per
 * category, the IDs concatenated without separators. Parsing tolerates lines without a
 * colon and drops ID chunks that do not resolve; the result is a dict kept in insertion
 * order, modelled as an association list.
 */
module ReplyParser {
  import opened Wrappers
  import opened Text
  import opened Dicts
  import Base62

  /** A category name and its locations, in the order the dict yields them. */
  type CategoryMap = seq<(string, seq<string>)>

  function Concat(parts: seq<string>): string
  {
    if parts == [] then [] else parts[0] + Concat(parts[1..])
  }

  /** The slices ids[i:i + width] for i in range(0, len(ids), width). */
  function Chunks(s: string, width: nat): seq<string>
    requires width >= 1
  {
    if s == [] then []
    else if |s| <= width then [s]
    else [s[..width]] + Chunks(s[width..], width)
  }

  /** The chunks put back together are the string they were cut from. */
  lemma {:induction false} ChunksConcat(s: string, width: nat)
    requires width >= 1
    ensures Concat(Chunks(s, width)) == s
  {
    if s == [] {
    } else if |s| <= width {
      assert Concat([s]) == s + Concat([]);
    } else {
      ChunksConcat(s[width..], width);
      var r := Chunks(s, width);
      assert r[1..] == Chunks(s[width..], width);
      assert s[..width] + s[width..] == s;
    }
  }

  /** Every chunk is non-empty and at most width long, and only the last may be short. */
  lemma {:induction false} ChunksShape(s: string, width: nat)
    requires width >= 1
    ensures forall i :: 0 <= i < |Chunks(s, width)| ==> 1 <= |Chunks(s, width)[i]| <= width
    ensures forall i :: 0 <= i < |Chunks(s, width)| - 1 ==> |Chunks(s, width)[i]| == width
  {
    if |s| > width {
      ChunksShape(s[width..], width);
    }
  }

  /** id_to_location_map.get(id) is truthy: the ID is known and its location is not empty. */
  predicate Resolves(idToLocation: map<string, string>, id: string)
  {
    id in idToLocation && idToLocation[id] != ""
  }

  /** The locations of the chunks that resolve, in chunk order. */
  function Resolve(chunks: seq<string>, idToLocation: map<string, string>): seq<string>
  {
    if chunks == [] then []
    else
      (if Resolves(idToLocation, chunks[0]) then [idToLocation[chunks[0]]] else [])
      + Resolve(chunks[1..], idToLocation)
  }

  /** Every resolved location is a non-empty value of the ID map, and there are no more of them than chunks. */
  lemma {:induction false} ResolveValues(chunks: seq<string>, idToLocation: map<string, string>)
    ensures |Resolve(chunks, idToLocation)| <= |chunks|
    ensures forall l :: l in Resolve(chunks, idToLocation) ==> l != "" && l in idToLocation.Values
  {
    if chunks != [] {
      ResolveValues(chunks[1..], idToLocation);
    }
  }

  /** One reply line: None without a colon, else the trimmed name and the resolved locations. */
  function ParseLine(line: string, idToLocation: map<string, string>, idLength: nat): Option<(string, seq<string>)>
    requires idLength >= 1
  {
    match FindFirst(line, ":")
    case None => None
    case Some(j) =>
      Some((Strip(line[..j]), Resolve(Chunks(Strip(line[j + 1..]), idLength), idToLocation)))
  }

  /** An entry as the parser keeps it: a trimmed, colon-free name with a non-empty list of
      non-empty locations taken from the ID map. */
  predicate EntryOk(e: (string, seq<string>), idToLocation: map<string, string>)
  {
    && ':' !in e.0 && Strip(e.0) == e.0 && e.1 != []
    && forall l :: l in e.1 ==> l != "" && l in idToLocation.Values
  }

  /** What the parser keeps of a reply: distinct names, every entry as EntryOk says. */
  predicate WellFormed(m: CategoryMap, idToLocation: map<string, string>)
  {
    DistinctKeys(m) && forall e :: e in m ==> EntryOk(e, idToLocation)
  }

  lemma {:induction false} ParseLineOk(line: string, idToLocation: map<string, string>, idLength: nat)
    requires idLength >= 1
    ensures ParseLine(line, idToLocation, idLength).Some? && ParseLine(line, idToLocation, idLength).value.1 != [] ==>
      EntryOk(ParseLine(line, idToLocation, idLength).value, idToLocation)
  {
    if FindFirst(line, ":").None? {
      return;
    }
    var j := FindFirst(line, ":").value;
    var name := Strip(line[..j]);
    var locations := Resolve(Chunks(Strip(line[j + 1..]), idLength), idToLocation);
    assert ParseLine(line, idToLocation, idLength) == Some((name, locations));
    PartsOk(line, j, idToLocation, idLength);
  }

  /** The two halves of a line split at its first colon make an entry as EntryOk says, unless no ID resolves. */
  lemma PartsOk(line: string, j: nat, idToLocation: map<string, string>, idLength: nat)
    requires FindFirst(line, ":") == Some(j) && idLength >= 1
    ensures var locations := Resolve(Chunks(Strip(line[j + 1..]), idLength), idToLocation);
      locations != [] ==> EntryOk((Strip(line[..j]), locations), idToLocation)
  {
    NameOk(line, j);
    ResolveValues(Chunks(Strip(line[j + 1..]), idLength), idToLocation);
  }

  /** The name before the first colon, trimmed, holds no colon and is trimmed for good. */
  lemma NameOk(line: string, j: nat)
    requires FindFirst(line, ":") == Some(j)
    ensures ':' !in Strip(line[..j]) && Strip(Strip(line[..j])) == Strip(line[..j])
  {
    var name := Strip(line[..j]);
    BeforeFirstColon(line, j);
    StripOfChars(line[..j], Whitespace);
    StripOfEnds(line[..j], Whitespace);
    StripOfFixed(name, Whitespace);
  }

  lemma BeforeFirstColon(line: string, j: nat)
    requires FindFirst(line, ":") == Some(j)
    ensures j <= |line| && ':' !in line[..j]
  {
    forall k | 0 <= k < j ensures line[k] != ':' {
      assert !OccursAt(line, ":", k);
      assert line[k..k + 1] == [line[k]];
    }
  }

  /** One step of the loop over lines. */
  function Step(m: CategoryMap, line: string, idToLocation: map<string, string>, idLength: nat): CategoryMap
    requires idLength >= 1
  {
    match ParseLine(line, idToLocation, idLength)
    case None => m
    case Some(entry) => if entry.1 == [] then m else Put(m, entry.0, entry.1)
  }

  /** The category map after the loop has seen the given lines. */
  function ParseLines(lines: seq<string>, idToLocation: map<string, string>, idLength: nat): (r: CategoryMap)
    requires idLength >= 1
    ensures WellFormed(r, idToLocation)
  {
    if lines == [] then []
    else
      var prev := ParseLines(lines[..|lines| - 1], idToLocation, idLength);
      var line := lines[|lines| - 1];
      ParseLineOk(line, idToLocation, idLength);
      Step(prev, line, idToLocation, idLength)
  }

  lemma ParseLinesSnoc(lines: seq<string>, line: string, idToLocation: map<string, string>, idLength: nat)
    requires idLength >= 1
    ensures ParseLines(lines + [line], idToLocation, idLength)
            == Step(ParseLines(lines, idToLocation, idLength), line, idToLocation, idLength)
  {
    assert (lines + [line])[..|lines|] == lines;
  }

  /** parse_custom_format as a function of its inputs. */
  function ParseReply(rawText: string, idToLocation: map<string, string>, idLength: nat): CategoryMap
    requires idLength >= 1
  {
    ParseLines(Split(Strip(rawText), '\n'), idToLocation, idLength)
  }

  function Tail(s: string, i: nat): string
  {
    if i <= |s| then s[i..] else []
  }

  /** Resolving the chunks from index i on is resolving ids[i:i + width], then the chunks after it. */
  lemma ResolveFrom(s: string, i: nat, width: nat, idToLocation: map<string, string>)
    requires width >= 1 && i < |s|
    ensures var id := s[i..if i + width <= |s| then i + width else |s|];
      Resolve(Chunks(Tail(s, i), width), idToLocation)
      == (if Resolves(idToLocation, id) then [idToLocation[id]] else [])
         + Resolve(Chunks(Tail(s, i + width), width), idToLocation)
  {
    var rest := s[i..];
    assert Tail(s, i) == rest;
    var chunks := Chunks(rest, width);
    if |rest| <= width {
      assert chunks == [rest];
      assert s[i..|s|] == rest;
      assert Tail(s, i + width) == [];
      assert chunks[1..] == [];
    } else {
      assert chunks == [rest[..width]] + Chunks(rest[width..], width);
      assert rest[..width] == s[i..i + width];
      assert rest[width..] == Tail(s, i + width);
      assert chunks[1..] == Chunks(Tail(s, i + width), width);
      assert Resolve(chunks, idToLocation)
        == (if Resolves(idToLocation, chunks[0]) then [idToLocation[chunks[0]]] else [])
           + Resolve(chunks[1..], idToLocation);
    }
  }

  /** The loop invariant of ResolveChunks carried over one chunk. */
  lemma ResolveStep(s: string, i: nat, width: nat, idToLocation: map<string, string>, before: seq<string>, id: string)
    requires width >= 1 && i < |s| && id == s[i..if i + width <= |s| then i + width else |s|]
    requires before + Resolve(Chunks(Tail(s, i), width), idToLocation) == Resolve(Chunks(s, width), idToLocation)
    ensures id in idToLocation && idToLocation[id] != "" ==>
      (before + [idToLocation[id]]) + Resolve(Chunks(Tail(s, i + width), width), idToLocation)
      == Resolve(Chunks(s, width), idToLocation)
    ensures !(id in idToLocation && idToLocation[id] != "") ==>
      before + Resolve(Chunks(Tail(s, i + width), width), idToLocation)
      == Resolve(Chunks(s, width), idToLocation)
  {
    var here := if Resolves(idToLocation, id) then [idToLocation[id]] else [];
    ResolveFrom(s, i, width, idToLocation);
    AppendAssoc(before, here, Resolve(Chunks(Tail(s, i + width), width), idToLocation));
    assert before + [] == before;
  }

  /** The inner loop of parse_custom_format: resolve each fixed-width chunk of an ID string. */
  method ResolveChunks(idsString: string, idToLocationMap: map<string, string>, idLength: nat)
    returns (locations: seq<string>)
    requires idLength >= 1
    ensures locations == Resolve(Chunks(idsString, idLength), idToLocationMap)
  {
    locations := [];
    var i: nat := 0;
    assert Tail(idsString, 0) == idsString;
    while i < |idsString|
      invariant locations + Resolve(Chunks(Tail(idsString, i), idLength), idToLocationMap)
                == Resolve(Chunks(idsString, idLength), idToLocationMap)
    {
      var end := if i + idLength <= |idsString| then i + idLength else |idsString|;
      var seqId := idsString[i..end];
      ResolveStep(idsString, i, idLength, idToLocationMap, locations, seqId);
      if seqId in idToLocationMap && idToLocationMap[seqId] != "" {
        locations := locations + [idToLocationMap[seqId]];
      }
      var next := i + idLength;
      assert locations + Resolve(Chunks(Tail(idsString, next), idLength), idToLocationMap)
        == Resolve(Chunks(idsString, idLength), idToLocationMap);
      i := next;
    }
    assert Tail(idsString, i) == [];
    assert Resolve(Chunks(Tail(idsString, i), idLength), idToLocationMap) == [];
    assert locations + [] == locations;
  }

  /** The body of parse_custom_format's loop for one line. */
  method AddLine(categoryMap: CategoryMap, line: string, idToLocationMap: map<string, string>, idLength: nat)
    returns (next: CategoryMap)
    requires idLength >= 1
    ensures next == Step(categoryMap, line, idToLocationMap, idLength)
  {
    next := categoryMap;
    var colon := FindFirst(line, ":");
    if colon.Some? {
      var categoryName := Strip(line[..colon.value]);
      var idsString := Strip(line[colon.value + 1..]);
      var locations := ResolveChunks(idsString, idToLocationMap, idLength);
      StepParsed(categoryMap, line, idToLocationMap, idLength, colon.value);
      if locations != [] {
        next := Put(categoryMap, categoryName, locations);
      }
    } else {
      assert ParseLine(line, idToLocationMap, idLength) == None;
    }
  }

  /** A step on a line with a colon puts the resolved locations under the trimmed name, if any resolve. */
  lemma StepParsed(m: CategoryMap, line: string, idToLocation: map<string, string>, idLength: nat, j: nat)
    requires idLength >= 1 && FindFirst(line, ":") == Some(j)
    ensures j < |line|
    ensures var locations := Resolve(Chunks(Strip(line[j + 1..]), idLength), idToLocation);
      Step(m, line, idToLocation, idLength)
      == if locations == [] then m else Put(m, Strip(line[..j]), locations)
  {
    assert ParseLine(line, idToLocation, idLength)
      == Some((Strip(line[..j]), Resolve(Chunks(Strip(line[j + 1..]), idLength), idToLocation)));
  }

  /** parse_custom_format: a loop over the reply's lines that fills the category dict. */
  method ParseCustomFormat(rawText: string, idToLocationMap: map<string, string>, idLength: nat)
    returns (categoryMap: CategoryMap)
    requires idLength >= 1
    ensures categoryMap == ParseReply(rawText, idToLocationMap, idLength)
    ensures WellFormed(categoryMap, idToLocationMap)
  {
    categoryMap := [];
    var lines := Split(Strip(rawText), '\n');
    var k := 0;
    while k < |lines|
      invariant 0 <= k <= |lines|
      invariant categoryMap == ParseLines(lines[..k], idToLocationMap, idLength)
    {
      assert lines[..k + 1] == lines[..k] + [lines[k]];
      ParseLinesSnoc(lines[..k], lines[k], idToLocationMap, idLength);
      categoryMap := AddLine(categoryMap, lines[k], idToLocationMap, idLength);
      k := k + 1;
    }
    TakeAll(lines, k);
  }

  // ---------------------------------------------------------------------------
  // Properties of the parser

  /** A line that names a category and resolves at least one of its IDs. */
  predicate NamesCategory(line: string, idToLocation: map<string, string>, idLength: nat, name: string)
    requires idLength >= 1
  {
    var p := ParseLine(line, idToLocation, idLength);
    p.Some? && p.value.0 == name && p.value.1 != []
  }

  lemma NoColonNoParse(line: string, idToLocation: map<string, string>, idLength: nat)
    requires idLength >= 1 && ':' !in line
    ensures ParseLine(line, idToLocation, idLength).None?
  {
    FindCharNone(line, ':');
  }

  /** A line without a colon is skipped wherever it stands in the reply. */
  lemma {:induction false} ColonlessLineIgnored(a: seq<string>, line: string, b: seq<string>,
                                                idToLocation: map<string, string>, idLength: nat)
    requires idLength >= 1 && ':' !in line
    ensures ParseLines(a + [line] + b, idToLocation, idLength) == ParseLines(a + b, idToLocation, idLength)
  {
    if b == [] {
      assert a + [line] + b == a + [line];
      assert a + b == a;
      ParseLinesSnoc(a, line, idToLocation, idLength);
      NoColonNoParse(line, idToLocation, idLength);
    } else {
      var last := b[|b| - 1];
      var x, y := a + [line] + b[..|b| - 1], a + b[..|b| - 1];
      assert a + [line] + b == x + [last];
      assert a + b == y + [last];
      calc {
        ParseLines(x + [last], idToLocation, idLength);
        { ParseLinesSnoc(x, last, idToLocation, idLength); }
        Step(ParseLines(x, idToLocation, idLength), last, idToLocation, idLength);
        { ColonlessLineIgnored(a, line, b[..|b| - 1], idToLocation, idLength); }
        Step(ParseLines(y, idToLocation, idLength), last, idToLocation, idLength);
        { ParseLinesSnoc(y, last, idToLocation, idLength); }
        ParseLines(y + [last], idToLocation, idLength);
      }
    }
  }

  /** A category that several lines name keeps the list of the last line that resolved any ID. */
  lemma {:induction false} LastNonEmptyLineWins(lines: seq<string>, idToLocation: map<string, string>,
                                                idLength: nat, name: string, i: nat)
    requires idLength >= 1 && i < |lines|
    requires NamesCategory(lines[i], idToLocation, idLength, name)
    requires forall j :: i < j < |lines| ==> !NamesCategory(lines[j], idToLocation, idLength, name)
    ensures Get(ParseLines(lines, idToLocation, idLength), name)
            == Some(ParseLine(lines[i], idToLocation, idLength).value.1)
  {
    var prefix := lines[..|lines| - 1];
    if i < |lines| - 1 {
      LastNonEmptyLineWins(prefix, idToLocation, idLength, name, i);
    }
  }

  /** A category no line resolves an ID for is absent from the result. */
  lemma {:induction false} UnresolvedCategoryAbsent(lines: seq<string>, idToLocation: map<string, string>,
                                                    idLength: nat, name: string)
    requires idLength >= 1
    requires forall j :: 0 <= j < |lines| ==> !NamesCategory(lines[j], idToLocation, idLength, name)
    ensures Get(ParseLines(lines, idToLocation, idLength), name) == None
  {
    if lines != [] {
      UnresolvedCategoryAbsent(lines[..|lines| - 1], idToLocation, idLength, name);
    }
  }

  // ---------------------------------------------------------------------------
  // Round trip: rendering a category map in the reply format and parsing it back

  /** An ID the run handed out: the run's width, base-62 symbols, mapped to a non-empty location. */
  predicate ValidId(id: string, idToLocation: map<string, string>, idLength: nat)
  {
    |id| == idLength && Base62.AllBase62(id) && Resolves(idToLocation, id)
  }

  /** Neither end is whitespace, so Strip leaves the text as it is (StripOfFixed). */
  predicate Trimmed(s: string)
  {
    s == [] || (s[0] !in Whitespace && s[|s| - 1] !in Whitespace)
  }

  /** An entry the reply format can carry: a trimmed name without ':' or a line break,
      and a non-empty list of valid IDs. */
  predicate Renderable(e: (string, seq<string>), idToLocation: map<string, string>, idLength: nat)
  {
    && Trimmed(e.0) && ':' !in e.0 && '\n' !in e.0 && e.1 != []
    && forall i :: 0 <= i < |e.1| ==> ValidId(e.1[i], idToLocation, idLength)
  }

  /** name + ":" + the IDs concatenated */
  function RenderLine(e: (string, seq<string>)): string
  {
    e.0 + ":" + Concat(e.1)
  }

  function RenderLines(m: seq<(string, seq<string>)>): (r: seq<string>)
    ensures |r| == |m| && forall i :: 0 <= i < |m| ==> r[i] == RenderLine(m[i])
  {
    seq(|m|, i requires 0 <= i < |m| => RenderLine(m[i]))
  }

  /** The reply a model following the format would send for m: one line per entry. */
  function Render(m: seq<(string, seq<string>)>): string
  {
    Join(RenderLines(m), '\n')
  }

  /** The location of every ID, position by position (an unknown ID would give ""). */
  function ResolveIds(ids: seq<string>, idToLocation: map<string, string>): (r: seq<string>)
    ensures |r| == |ids|
    ensures forall i :: 0 <= i < |ids| && ids[i] in idToLocation ==> r[i] == idToLocation[ids[i]]
  {
    seq(|ids|, i requires 0 <= i < |ids| => if ids[i] in idToLocation then idToLocation[ids[i]] else "")
  }

  /** The same map with every ID replaced by its location. */
  function ResolvedMap(m: seq<(string, seq<string>)>, idToLocation: map<string, string>)
    : (r: CategoryMap)
    ensures |r| == |m|
    ensures forall i :: 0 <= i < |m| ==> r[i] == (m[i].0, ResolveIds(m[i].1, idToLocation))
  {
    seq(|m|, i requires 0 <= i < |m| => (m[i].0, ResolveIds(m[i].1, idToLocation)))
  }

  lemma Base62Plain(c: char)
    requires Base62.IsBase62Char(c)
    ensures c !in Whitespace && c != ':' && c != '\n'
  {
  }

  lemma {:induction false} ConcatLength(ids: seq<string>, idLength: nat)
    requires forall i :: 0 <= i < |ids| ==> |ids[i]| == idLength
    ensures |Concat(ids)| == idLength * |ids|
  {
    if ids != [] {
      ConcatLength(ids[1..], idLength);
    }
  }

  /** The concatenation holds only characters of its parts. */
  lemma {:induction false} ConcatBase62(ids: seq<string>)
    requires forall i :: 0 <= i < |ids| ==> Base62.AllBase62(ids[i])
    ensures Base62.AllBase62(Concat(ids))
  {
    if ids != [] {
      ConcatBase62(ids[1..]);
      var c := Concat(ids);
      var rest := Concat(ids[1..]);
      assert c == ids[0] + rest;
      forall k | 0 <= k < |c| ensures Base62.IsBase62Char(c[k]) {
        if k >= |ids[0]| {
          assert c[k] == rest[k - |ids[0]|];
        }
      }
    }
  }

  /** The concatenation ends with the end of its last non-empty part. */
  lemma {:induction false} ConcatLast(ids: seq<string>)
    requires ids != [] && ids[|ids| - 1] != []
    ensures Concat(ids) != [] && Concat(ids)[|Concat(ids)| - 1] == ids[|ids| - 1][|ids[|ids| - 1]| - 1]
  {
    if |ids| > 1 {
      ConcatLast(ids[1..]);
      assert ids[1..][|ids| - 2] == ids[|ids| - 1];
    }
  }

  /** Cutting the concatenation of width-long IDs gives the IDs back. */
  lemma {:induction false} ChunksOfConcat(ids: seq<string>, idLength: nat)
    requires idLength >= 1
    requires forall i :: 0 <= i < |ids| ==> |ids[i]| == idLength
    ensures Chunks(Concat(ids), idLength) == ids
  {
    if ids != [] {
      var c := Concat(ids);
      ConcatLength(ids[1..], idLength);
      assert c == ids[0] + Concat(ids[1..]);
      if |ids| == 1 {
        assert Concat(ids[1..]) == [];
        assert c == ids[0];
      } else {
        ChunksOfConcat(ids[1..], idLength);
        assert c[..idLength] == ids[0];
        assert c[idLength..] == Concat(ids[1..]);
        assert ids == [ids[0]] + ids[1..];
      }
    }
  }

  lemma {:induction false} ResolveValid(ids: seq<string>, idToLocation: map<string, string>, idLength: nat)
    requires forall i :: 0 <= i < |ids| ==> ValidId(ids[i], idToLocation, idLength)
    ensures Resolve(ids, idToLocation) == ResolveIds(ids, idToLocation)
  {
    if ids != [] {
      ResolveValid(ids[1..], idToLocation, idLength);
    }
  }

  /** A rendered line parses back into its name and the locations of its IDs. */
  lemma ParseRenderedLine(e: (string, seq<string>), idToLocation: map<string, string>, idLength: nat)
    requires idLength >= 1 && Renderable(e, idToLocation, idLength)
    ensures ParseLine(RenderLine(e), idToLocation, idLength) == Some((e.0, ResolveIds(e.1, idToLocation)))
  {
    var n, ids := e.0, e.1;
    var c := Concat(ids);
    var line := RenderLine(e);
    OccursAtChar(line, ':', |n|);
    ContainsAt(line, ":", |n|);
    var j := FindFirst(line, ":").value;
    OccursAtChar(line, ':', j);
    if j < |n| {
      assert false;
    }
    assert line[..j] == n;
    assert line[j + 1..] == c;
    StripOfFixed(n, Whitespace);
    ConcatBase62(ids);
    ConcatLength(ids, idLength);
    ConcatLast(ids);
    assert c[0] == ids[0][0];
    Base62Plain(c[0]);
    Base62Plain(c[|c| - 1]);
    StripOfFixed(c, Whitespace);
    ChunksOfConcat(ids, idLength);
    ResolveValid(ids, idToLocation, idLength);
  }

  lemma RenderLinesSnoc(m: seq<(string, seq<string>)>)
    requires m != []
    ensures RenderLines(m) == RenderLines(m[..|m| - 1]) + [RenderLine(m[|m| - 1])]
  {
  }

  lemma ResolvedMapSnoc(m: seq<(string, seq<string>)>, idToLocation: map<string, string>)
    requires m != []
    ensures ResolvedMap(m, idToLocation)
            == ResolvedMap(m[..|m| - 1], idToLocation) + [(m[|m| - 1].0, ResolveIds(m[|m| - 1].1, idToLocation))]
  {
  }

  lemma LastKeyFresh(m: seq<(string, seq<string>)>, idToLocation: map<string, string>)
    requires m != [] && DistinctKeys(m)
    ensures m[|m| - 1].0 !in Keys(ResolvedMap(m[..|m| - 1], idToLocation))
  {
  }

  lemma {:induction false} ParseRenderedLines(m: seq<(string, seq<string>)>, idToLocation: map<string, string>,
                                              idLength: nat)
    requires idLength >= 1 && DistinctKeys(m)
    requires forall i :: 0 <= i < |m| ==> Renderable(m[i], idToLocation, idLength)
    ensures ParseLines(RenderLines(m), idToLocation, idLength) == ResolvedMap(m, idToLocation)
  {
    if m != [] {
      var p := m[..|m| - 1];
      var e := m[|m| - 1];
      ParseRenderedLines(p, idToLocation, idLength);
      RenderLinesSnoc(m);
      ParseLinesSnoc(RenderLines(p), RenderLine(e), idToLocation, idLength);
      ParseRenderedLine(e, idToLocation, idLength);
      var prev := ResolvedMap(p, idToLocation);
      LastKeyFresh(m, idToLocation);
      ResolvedMapSnoc(m, idToLocation);
    }
  }

  lemma {:induction false} JoinEnds(parts: seq<string>, sep: char)
    requires |parts| >= 1
    ensures StartsWith(Join(parts, sep), parts[0])
    ensures EndsWith(Join(parts, sep), parts[|parts| - 1])
  {
    if |parts| > 1 {
      JoinEnds(parts[1..], sep);
      assert parts[1..][|parts| - 2] == parts[|parts| - 1];
    }
  }

  /** Round trip: parsing the rendered reply gives back every category with the locations of its IDs, in order. */
  lemma RenderParseRoundTrip(m: seq<(string, seq<string>)>, idToLocation: map<string, string>, idLength: nat)
    requires idLength >= 1 && DistinctKeys(m)
    requires forall i :: 0 <= i < |m| ==> Renderable(m[i], idToLocation, idLength)
    ensures ParseReply(Render(m), idToLocation, idLength) == ResolvedMap(m, idToLocation)
  {
    var lines := RenderLines(m);
    var text := Render(m);
    if m == [] {
      assert text == [];
      StripOfFixed(text, Whitespace);
      assert Split(text, '\n') == [[]];
      NoColonNoParse([], idToLocation, idLength);
      var none: seq<string> := [];
      assert none + [[]] == [[]];
      ParseLinesSnoc(none, [], idToLocation, idLength);
    } else {
      TextEnds(m, idToLocation, idLength);
      StripOfFixed(text, Whitespace);
      LinesUnbroken(m, idToLocation, idLength);
      SplitJoin(lines, '\n');
      ParseRenderedLines(m, idToLocation, idLength);
    }
  }

  /** The rendered text neither starts nor ends with whitespace. */
  lemma TextEnds(m: seq<(string, seq<string>)>, idToLocation: map<string, string>, idLength: nat)
    requires idLength >= 1 && m != []
    requires forall i :: 0 <= i < |m| ==> Renderable(m[i], idToLocation, idLength)
    ensures var text := Render(m); text != [] && text[0] !in Whitespace && text[|text| - 1] !in Whitespace
  {
    var text := Render(m);
    TextLastChar(m, idToLocation, idLength);
    Base62Plain(text[|text| - 1]);
    TextFirstChar(m, idToLocation, idLength);
    assert Renderable(m[0], idToLocation, idLength);
  }

  /** The rendered text ends with the last character of the last ID. */
  lemma TextLastChar(m: seq<(string, seq<string>)>, idToLocation: map<string, string>, idLength: nat)
    requires idLength >= 1 && m != []
    requires forall i :: 0 <= i < |m| ==> Renderable(m[i], idToLocation, idLength)
    ensures var text := Render(m); text != [] && Base62.IsBase62Char(text[|text| - 1])
  {
    var lines := RenderLines(m);
    var text := Render(m);
    var last := m[|m| - 1];
    var c := Concat(last.1);
    ConcatBase62(last.1);
    ConcatLast(last.1);
    var lastLine := lines[|lines| - 1];
    assert lastLine == last.0 + ":" + c;
    assert lastLine[|lastLine| - 1] == c[|c| - 1];
    JoinEnds(lines, '\n');
    assert text[|text| - 1] == lastLine[|lastLine| - 1];
  }

  /** The rendered text starts with the first name, or with its colon when that name is empty. */
  lemma TextFirstChar(m: seq<(string, seq<string>)>, idToLocation: map<string, string>, idLength: nat)
    requires idLength >= 1 && m != []
    requires forall i :: 0 <= i < |m| ==> Renderable(m[i], idToLocation, idLength)
    ensures var text := Render(m); text != [] && (if m[0].0 != [] then text[0] == m[0].0[0] else text[0] == ':')
  {
    var lines := RenderLines(m);
    var text := Render(m);
    TextLastChar(m, idToLocation, idLength);
    JoinEnds(lines, '\n');
    assert lines[0] == m[0].0 + ":" + Concat(m[0].1);
    assert text[0] == lines[0][0];
  }

  /** No rendered line holds a line break. */
  lemma LinesUnbroken(m: seq<(string, seq<string>)>, idToLocation: map<string, string>, idLength: nat)
    requires forall i :: 0 <= i < |m| ==> Renderable(m[i], idToLocation, idLength)
    ensures forall i :: 0 <= i < |m| ==> '\n' !in RenderLines(m)[i]
  {
    forall i | 0 <= i < |m| ensures '\n' !in RenderLines(m)[i] {
      var n, c := m[i].0, Concat(m[i].1);
      ConcatBase62(m[i].1);
      var line := RenderLine(m[i]);
      assert line == n + ":" + c;
      forall k | 0 <= k < |line| ensures line[k] != '\n' {
        if k > |n| {
          assert line[k] == c[k - |n| - 1];
          Base62Plain(c[k - |n| - 1]);
        } else if k < |n| {
          assert line[k] == n[k];
        }
      }
    }
  }
}
