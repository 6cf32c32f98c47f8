/**
 * The Python string operations the pipeline relies on, over strings as sequences of
 * code points: str.strip (with and without a character set), startswith/endswith,
 * the `in` substring test, str.find, str.replace, str.split on one separator, and
 * ASCII case folding.
 */
module Text {
  import opened Wrappers

  /** The characters str.isspace() accepts, which str.strip() removes by default. */
  const Whitespace: set<char> := {
    '\t', '\n', '\U{b}', '\U{c}', '\r', '\U{1c}', '\U{1d}', '\U{1e}', '\U{1f}', ' ',
    '\U{85}', '\U{a0}', '\U{1680}', '\U{2000}', '\U{2001}', '\U{2002}', '\U{2003}',
    '\U{2004}', '\U{2005}', '\U{2006}', '\U{2007}', '\U{2008}', '\U{2009}', '\U{200a}',
    '\U{2028}', '\U{2029}', '\U{202f}', '\U{205f}', '\U{3000}'
  }

  /** s.lstrip(cs): the suffix left after every leading character in cs is removed. */
  function TrimStartOf(s: string, cs: set<char>): (r: string)
    ensures |r| <= |s| && r == s[|s| - |r|..]
    ensures r == [] || r[0] !in cs
  {
    if s != [] && s[0] in cs then TrimStartOf(s[1..], cs) else s
  }

  /** Every character lstrip removes is in the set. */
  lemma {:induction false} TrimStartOfRemoved(s: string, cs: set<char>)
    ensures forall i :: 0 <= i < |s| - |TrimStartOf(s, cs)| ==> s[i] in cs
  {
    if s != [] && s[0] in cs {
      TrimStartOfRemoved(s[1..], cs);
      forall i | 1 <= i < |s| - |TrimStartOf(s, cs)| ensures s[i] in cs {
        assert s[i] == s[1..][i - 1];
      }
    }
  }

  /** s.rstrip(cs): the prefix left after every trailing character in cs is removed. */
  function TrimEndOf(s: string, cs: set<char>): (r: string)
    ensures |r| <= |s| && r == s[..|r|]
    ensures r == [] || r[|r| - 1] !in cs
  {
    if s != [] && s[|s| - 1] in cs then TrimEndOf(s[..|s| - 1], cs) else s
  }

  /** Every character rstrip removes is in the set. */
  lemma {:induction false} TrimEndOfRemoved(s: string, cs: set<char>)
    ensures forall i :: |TrimEndOf(s, cs)| <= i < |s| ==> s[i] in cs
  {
    if s != [] && s[|s| - 1] in cs {
      TrimEndOfRemoved(s[..|s| - 1], cs);
      forall i | |TrimEndOf(s, cs)| <= i < |s| - 1 ensures s[i] in cs {
        assert s[i] == s[..|s| - 1][i];
      }
    }
  }

  /** s.strip(cs) */
  function StripOf(s: string, cs: set<char>): string
  {
    TrimEndOf(TrimStartOf(s, cs), cs)
  }

  /** s.strip() */
  function Strip(s: string): string
  {
    StripOf(s, Whitespace)
  }

  /** What strip returns is a contiguous piece of its argument... */
  lemma StripOfIsSlice(s: string, cs: set<char>)
    ensures |s| - |TrimStartOf(s, cs)| + |StripOf(s, cs)| <= |s|
    ensures StripOf(s, cs) == s[|s| - |TrimStartOf(s, cs)|..|s| - |TrimStartOf(s, cs)| + |StripOf(s, cs)|]
  {
    var t := TrimStartOf(s, cs);
    var r := TrimEndOf(t, cs);
    var a := |s| - |t|;
    assert t == s[a..];
    assert r == t[..|r|];
    DropTake(s, a, |r|);
  }

  lemma DropTake<T>(s: seq<T>, a: nat, k: nat)
    requires a + k <= |s|
    ensures s[a..][..k] == s[a..a + k]
  {
  }

  lemma AppendAssoc<T>(a: seq<T>, b: seq<T>, c: seq<T>)
    ensures a + b + c == a + (b + c)
  {
  }

  lemma TakeAll<T>(s: seq<T>, k: nat)
    requires k == |s|
    ensures s[..k] == s
  {
  }

  /** ... that neither starts nor ends in the set. */
  lemma StripOfEnds(s: string, cs: set<char>)
    ensures var r := StripOf(s, cs); r == [] || (r[0] !in cs && r[|r| - 1] !in cs)
  {
    var t := TrimStartOf(s, cs);
    var r := TrimEndOf(t, cs);
    assert r != [] ==> r[0] == t[0];
  }

  /** strip leaves a string alone exactly when neither end is in the set. */
  lemma StripOfFixed(s: string, cs: set<char>)
    ensures StripOf(s, cs) == s <==> s == [] || (s[0] !in cs && s[|s| - 1] !in cs)
  {
    StripOfEnds(s, cs);
  }

  /** Any character of the stripped string is a character of the original. */
  lemma StripOfChars(s: string, cs: set<char>)
    ensures forall c :: c in StripOf(s, cs) ==> c in s
  {
    StripOfIsSlice(s, cs);
  }

  /** If s is p followed by anything and p starts and ends outside the set, s.strip(cs) starts with p. */
  lemma StripOfKeepsPrefix(p: string, q: string, cs: set<char>)
    requires p != [] && p[0] !in cs && p[|p| - 1] !in cs
    ensures StartsWith(StripOf(p + q, cs), p)
  {
    var s := p + q;
    assert TrimStartOf(s, cs) == s;
    var r := TrimEndOf(s, cs);
    TrimEndOfRemoved(s, cs);
    assert s[|p| - 1] !in cs;
    assert |r| >= |p|;
    assert r[..|p|] == s[..|p|];
  }

  predicate StartsWith(s: string, p: string)
  {
    |p| <= |s| && s[..|p|] == p
  }

  predicate EndsWith(s: string, p: string)
  {
    |p| <= |s| && s[|s| - |p|..] == p
  }

  /** p occurs in s starting at index j. */
  predicate OccursAt(s: string, p: string, j: nat)
  {
    j + |p| <= |s| && s[j..j + |p|] == p
  }

  /** s.find(p, i) as an Option: the index of the first occurrence of p in s at or after i. */
  function FindFrom(s: string, p: string, i: nat): (r: Option<nat>)
    requires i <= |s|
    ensures r.Some? ==> i <= r.value && OccursAt(s, p, r.value)
    ensures forall j :: i <= j && (r.None? || j < r.value) ==> !OccursAt(s, p, j)
    decreases |s| - i
  {
    if OccursAt(s, p, i) then Some(i)
    else if i == |s| then None
    else FindFrom(s, p, i + 1)
  }

  /** s.find(p) as an Option: the index of the first occurrence of p in s. */
  function FindFirst(s: string, p: string): Option<nat>
  {
    FindFrom(s, p, 0)
  }

  /** Python's `p in s`. */
  predicate Contains(s: string, p: string)
  {
    FindFirst(s, p).Some?
  }

  /** `p in s` holds exactly when p occurs somewhere in s. */
  lemma ContainsAt(s: string, p: string, j: nat)
    requires OccursAt(s, p, j)
    ensures Contains(s, p) && FindFirst(s, p).value <= j
  {
  }

  /** Every string contains the empty string. */
  lemma ContainsEmpty(s: string, p: string)
    requires p == []
    ensures Contains(s, p)
  {
    assert OccursAt(s, p, 0);
  }

  /** A piece of a piece of s is a piece of s. */
  lemma ContainsTransitive(a: string, b: string, c: string)
    requires Contains(a, b) && Contains(b, c)
    ensures Contains(a, c)
  {
    var i := FindFirst(a, b).value;
    var j := FindFirst(b, c).value;
    assert a[i + j..i + j + |c|] == b[j..j + |c|];
    ContainsAt(a, c, i + j);
  }

  /** s.strip(cs) is a piece of s. */
  lemma StripOfContained(s: string, cs: set<char>)
    ensures Contains(s, StripOf(s, cs))
  {
    StripOfIsSlice(s, cs);
    ContainsAt(s, StripOf(s, cs), |s| - |TrimStartOf(s, cs)|);
  }

  /** A one-character pattern occurs exactly where that character stands. */
  lemma OccursAtChar(s: string, c: char, j: nat)
    ensures OccursAt(s, [c], j) <==> j < |s| && s[j] == c
  {
    if j < |s| {
      assert s[j..j + 1] == [s[j]];
    }
  }

  /** s.find(c) fails exactly when c is not in s. */
  lemma FindCharNone(s: string, c: char)
    ensures FindFirst(s, [c]).None? <==> c !in s
  {
    if FindFirst(s, [c]).Some? {
      OccursAtChar(s, c, FindFirst(s, [c]).value);
    } else {
      forall j | 0 <= j < |s| ensures s[j] != c {
        OccursAtChar(s, c, j);
      }
    }
  }

  /** s.replace(pat, rep, 1) */
  function ReplaceFirst(s: string, pat: string, rep: string): string
  {
    match FindFirst(s, pat)
    case None => s
    case Some(k) => s[..k] + rep + s[k + |pat|..]
  }

  /** s.replace(pat, rep) for a non-empty pat: every occurrence, left to right, without overlap. */
  function ReplaceAll(s: string, pat: string, rep: string): string
    requires pat != []
    decreases |s|
  {
    match FindFirst(s, pat)
    case None => s
    case Some(k) => s[..k] + rep + ReplaceAll(s[k + |pat|..], pat, rep)
  }

  /** With no occurrence of the pattern, s.replace(pat, rep) is s. */
  lemma ReplaceAllAbsent(s: string, pat: string, rep: string)
    requires pat != [] && !Contains(s, pat)
    ensures ReplaceAll(s, pat, rep) == s
  {
  }

  /** An occurrence at the very start is replaced, and the replacement goes on after it. */
  lemma ReplaceAllLeading(s: string, pat: string, rep: string)
    requires pat != [] && StartsWith(s, pat)
    ensures ReplaceAll(s, pat, rep) == rep + ReplaceAll(s[|pat|..], pat, rep)
  {
    assert OccursAt(s, pat, 0);
    assert s[..0] + rep == rep;
  }

  /** '\n'.join(parts) for any separator character. */
  function Join(parts: seq<string>, sep: char): string
  {
    if parts == [] then []
    else if |parts| == 1 then parts[0]
    else parts[0] + [sep] + Join(parts[1..], sep)
  }

  /** s.split(sep) for a one-character separator: never empty, no piece holds sep, joining gives s back. */
  function Split(s: string, sep: char): (r: seq<string>)
    ensures |r| >= 1
    ensures forall i :: 0 <= i < |r| ==> sep !in r[i]
    ensures Join(r, sep) == s
  {
    if s == [] then [[]]
    else
      var rest := Split(s[1..], sep);
      if s[0] == sep then
        assert Join([[]] + rest, sep) == [sep] + Join(rest, sep);
        [[]] + rest
      else
        var r := [[s[0]] + rest[0]] + rest[1..];
        assert Join(r, sep) == [s[0]] + Join(rest, sep) by {
          if |rest| > 1 {
            assert Join(rest, sep) == rest[0] + [sep] + Join(rest[1..], sep);
            assert r[1..] == rest[1..];
          }
        }
        r
  }

  /** Splitting the join of separator-free pieces gives the pieces back. */
  lemma {:induction false} SplitJoin(parts: seq<string>, sep: char)
    requires |parts| >= 1
    requires forall i :: 0 <= i < |parts| ==> sep !in parts[i]
    ensures Split(Join(parts, sep), sep) == parts
  {
    if |parts| == 1 {
      SplitNoSep(parts[0], sep);
    } else {
      SplitJoin(parts[1..], sep);
      SplitAfterSep(parts[0], Join(parts[1..], sep), sep);
      assert Join(parts, sep) == parts[0] + [sep] + Join(parts[1..], sep);
      assert [parts[0]] + parts[1..] == parts;
    }
  }

  lemma {:induction false} SplitNoSep(s: string, sep: char)
    requires sep !in s
    ensures Split(s, sep) == [s]
  {
    if s != [] {
      SplitNoSep(s[1..], sep);
      assert [s[0]] + s[1..] == s;
    }
  }

  lemma {:induction false} SplitAfterSep(a: string, b: string, sep: char)
    requires sep !in a
    ensures Split(a + [sep] + b, sep) == [a] + Split(b, sep)
  {
    if a == [] {
      assert a + [sep] + b == [sep] + b;
      assert ([sep] + b)[1..] == b;
    } else {
      var t := a + [sep] + b;
      assert t[0] == a[0] && a[0] in a;
      assert t[1..] == a[1..] + [sep] + b;
      SplitAfterSep(a[1..], b, sep);
      SplitStep(t, sep);
      assert [a[0]] + a[1..] == a;
    }
  }

  /** A first character other than the separator joins the first piece of the rest. */
  lemma SplitStep(t: string, sep: char)
    requires t != [] && t[0] != sep
    ensures Split(t, sep) == [[t[0]] + Split(t[1..], sep)[0]] + Split(t[1..], sep)[1..]
  {
  }

  function LowerChar(c: char): char
  {
    if 'A' <= c <= 'Z' then (c as int + 32) as char else c
  }

  /** s.lower() on ASCII letters. */
  function Lower(s: string): (r: string)
    ensures |r| == |s| && forall i :: 0 <= i < |s| ==> r[i] == LowerChar(s[i])
  {
    seq(|s|, i requires 0 <= i < |s| => LowerChar(s[i]))
  }

  /** a.lower() == b.lower() */
  predicate EqualsIgnoreCase(a: string, b: string)
  {
    Lower(a) == Lower(b)
  }

  /** A case-insensitive endswith, as a regular expression anchored at the end with IGNORECASE sees it. */
  predicate EndsWithIgnoreCase(s: string, p: string)
  {
    |p| <= |s| && EqualsIgnoreCase(s[|s| - |p|..], p)
  }

  /** s.rfind(c) as an Option: the index of the last occurrence of c. */
  function LastIndexOf(s: string, c: char): (r: Option<nat>)
    ensures r.None? ==> c !in s
    ensures r.Some? ==> r.value < |s| && s[r.value] == c && c !in s[r.value + 1..]
  {
    if s == [] then None
    else if s[|s| - 1] == c then Some(|s| - 1)
    else
      var r := LastIndexOf(s[..|s| - 1], c);
      assert s == s[..|s| - 1] + [s[|s| - 1]];
      if r.Some? then
        assert s[r.value + 1..] == s[..|s| - 1][r.value + 1..] + [s[|s| - 1]];
        r
      else r
  }

  /** os.path.basename on a POSIX path: the part after the last '/'. */
  function Basename(path: string): (r: string)
    ensures EndsWith(path, r) && '/' !in r
    ensures |r| == |path| || path[|path| - |r| - 1] == '/'
  {
    match LastIndexOf(path, '/')
    case None => path
    case Some(k) => path[k + 1..]
  }

  /** os.path.splitext(name)[0] for a bare file name: everything before the last '.',
      unless only dots precede it (a leading-dot name has no extension). */
  function SplitExtRoot(name: string): (r: string)
    ensures StartsWith(name, r)
  {
    match LastIndexOf(name, '.')
    case None => name
    case Some(d) => if exists k :: 0 <= k < d && name[k] != '.' then name[..d] else name
  }

  /** A name ending in ".txt" with something other than dots before it loses exactly the ".txt". */
  lemma SplitExtTxt(name: string)
    requires EndsWith(name, ".txt")
    requires exists k :: 0 <= k < |name| - 4 && name[k] != '.'
    ensures SplitExtRoot(name) == name[..|name| - 4]
  {
    var d := |name| - 4;
    assert name[d] == '.';
    assert name[d + 1..] == "txt";
    var r := LastIndexOf(name, '.');
    assert r.Some?;
  }
}
