/**
 * Content search (src/fs_service/search/content.rs) and `escape_regex` (src/fs_service.rs): a
 * literal query is escaped, the matcher is case-insensitive, each matching line is reported with
 * its number, the byte offset of its first match and a snippet of bounded length around it.
 */
module ContentSearch {
  import opened Wrappers
  import opened Paths
  import opened FsTree
  import T = Text
  import G = PathGuard
  import S = FileSearch

  const SnippetMaxLength: nat := 200
  const SnippetBackwardChars: nat := 30

  /** The 15 characters `escape_regex` escapes. */
  const SpecialChars: seq<char> := ['.', '^', '$', '*', '+', '?', '(', ')', '[', ']', '{', '}', '\\', '|', '/']

  function EscapeChar(c: char): string {
    if c in SpecialChars then ['\\', c] else [c]
  }

  /** The escaped text: a backslash in front of every special character. */
  function Escaped(text: string): string {
    if |text| == 0 then "" else EscapeChar(text[0]) + Escaped(text[1..])
  }

  function CountSpecials(text: string): nat {
    if |text| == 0 then 0 else (if text[0] in SpecialChars then 1 else 0) + CountSpecials(text[1..])
  }

  lemma {:induction false} EscapedSnoc(text: string, c: char)
    ensures Escaped(text + [c]) == Escaped(text) + EscapeChar(c)
    decreases |text|
  {
    if |text| == 0 {
      assert (text + [c])[1..] == [];
    } else {
      assert (text + [c])[1..] == text[1..] + [c];
      EscapedSnoc(text[1..], c);
    }
  }

  /** The `for ch in text.chars()` loop of `escape_regex`. */
  method EscapeRegex(text: string) returns (escaped: string)
    ensures escaped == Escaped(text)
  {
    escaped := "";
    for i := 0 to |text|
      invariant escaped == Escaped(text[..i])
    {
      var ch := text[i];
      EscapedSnoc(text[..i], ch);
      assert text[..i + 1] == text[..i] + [ch];
      if ch in SpecialChars {
        escaped := escaped + "\\";
      }
      escaped := escaped + [ch];
    }
    assert text[..|text|] == text;
  }

  /** Escaping adds exactly one character per special character. */
  lemma {:induction false} EscapedLength(text: string)
    ensures |Escaped(text)| == |text| + CountSpecials(text)
    decreases |text|
  {
    if |text| > 0 {
      EscapedLength(text[1..]);
    }
  }

  /** Removing the backslash in front of every escaped special character. */
  function Unescape(s: string): string
    decreases |s|
  {
    if |s| == 0 then ""
    else if |s| >= 2 && s[0] == '\\' && s[1] in SpecialChars then [s[1]] + Unescape(s[2..])
    else [s[0]] + Unescape(s[1..])
  }

  /** Deleting the inserted backslashes gives the text back. */
  lemma {:induction false} UnescapeEscaped(text: string)
    ensures Unescape(Escaped(text)) == text
    decreases |text|
  {
    if |text| > 0 {
      var c := text[0];
      var rest := Escaped(text[1..]);
      UnescapeEscaped(text[1..]);
      if c in SpecialChars {
        var s := ['\\', c] + rest;
        assert s[2..] == rest;
      } else {
        var s := [c] + rest;
        assert s[1..] == rest;
        assert c != '\\';
      }
      assert text == [c] + text[1..];
    }
  }

  /** A text without special characters is its own escape. */
  lemma {:induction false} EscapedPlain(text: string)
    requires forall i :: 0 <= i < |text| ==> text[i] !in SpecialChars
    ensures Escaped(text) == text
    decreases |text|
  {
    if |text| > 0 {
      EscapedPlain(text[1..]);
      assert text == [text[0]] + text[1..];
    }
  }

  function Sat(a: nat, b: nat): nat {
    if a >= b then a - b else 0
  }

  /**
   * The char index of the first char boundary of `t` at a byte offset `>= d`, from `k` on; the
   * end of `t` when no char starts there.
   */
  function BoundaryFrom(t: string, d: nat, k: nat): (r: nat)
    requires k <= |t|
    decreases |t| - k
    ensures k <= r <= |t|
    ensures r < |t| ==> T.ByteLen(t[..r]) >= d
    ensures forall j :: k <= j < r ==> T.ByteLen(t[..j]) < d
  {
    if k == |t| || T.ByteLen(t[..k]) >= d then k else BoundaryFrom(t, d, k + 1)
  }

  /** The end of the snippet: `max` chars after its start, or the end of the line. */
  function SnippetEnd(t: string, start: nat, max: nat): (r: nat)
    requires start <= |t|
    ensures start <= r <= |t| && r - start <= max
    ensures r < |t| ==> r - start == max
  {
    if |t| - start > max then start + max else |t|
  }

  function Ellipsis(b: bool): string {
    if b then "..." else ""
  }

  /** `str::len() - str::trim_start().len()`: the bytes of leading whitespace. */
  function LeadingBytes(line: string): nat {
    T.ByteLen(T.LeadingWhitespace(line))
  }

  /** The snippet of `t` from char `sk` to char `ek`, with an ellipsis on each cut side. */
  function Window(t: string, sk: nat, ek: nat): (r: string)
    requires sk <= ek <= |t|
    ensures |r| == (ek - sk) + (if sk > 0 then 3 else 0) + (if ek < |t| then 3 else 0)
  {
    Ellipsis(sk > 0) + t[sk..ek] + Ellipsis(ek < |t|)
  }

  /**
   * `extract_snippet` as evidently intended: the match offset is taken relative to the trimmed
   * line without underflow, and the snippet starts at the first char boundary at or after
   * `backward` bytes before the match (the end of the line when there is none). Offsets are
   * bytes; the snippet is cut in chars. A byte offset is positive iff the char index is.
   */
  function ExtractSnippet(line: string, matchStart: nat, maxLength: Option<nat>, backward: Option<nat>)
    : (r: string)
    ensures var sk := SnippetStart(line, matchStart, backward);
      r == Window(T.Trim(line), sk, SnippetEnd(T.Trim(line), sk, MaxLength(maxLength)))
    ensures |r| <= MaxLength(maxLength) + 6
  {
    var sk := SnippetStart(line, matchStart, backward);
    Window(T.Trim(line), sk, SnippetEnd(T.Trim(line), sk, MaxLength(maxLength)))
  }

  function MaxLength(maxLength: Option<nat>): nat {
    if maxLength.Some? then maxLength.value else SnippetMaxLength
  }

  function Backward(backward: Option<nat>): nat {
    if backward.Some? then backward.value else SnippetBackwardChars
  }

  /** The char index the intended snippet starts at. */
  function SnippetStart(line: string, matchStart: nat, backward: Option<nat>): nat {
    BoundaryFrom(T.Trim(line), Sat(Sat(matchStart, LeadingBytes(line)), Backward(backward)), 0)
  }

  /**
   * `extract_snippet` as written; `None` where it panics: when the match starts inside the
   * leading whitespace (`match_result.start() - start_pos` underflows), or when no char starts
   * at or after the desired offset while that offset lies inside the trimmed line (the fallback
   * `desired_start.min(line.len())` is then not a char boundary, and slicing there panics).
   */
  function ExtractSnippetAsWritten(line: string, matchStart: nat, maxLength: Option<nat>,
                                   backward: Option<nat>): Option<string>
  {
    var t := T.Trim(line);
    var max := MaxLength(maxLength);
    if matchStart < LeadingBytes(line) then None
    else
      var desired := Sat(matchStart - LeadingBytes(line), Backward(backward));
      var found := BoundaryFrom(t, desired, 0);
      if found == |t| && desired < T.ByteLen(t) then None
      else Some(Window(t, found, SnippetEnd(t, found, max)))
  }

  /** Where the code as written does not panic, it gives the intended snippet. */
  lemma AsWrittenAgrees(line: string, matchStart: nat, maxLength: Option<nat>, backward: Option<nat>)
    requires ExtractSnippetAsWritten(line, matchStart, maxLength, backward).Some?
    ensures ExtractSnippetAsWritten(line, matchStart, maxLength, backward).value ==
      ExtractSnippet(line, matchStart, maxLength, backward)
  {
  }

  /**
   * The literal query `" x"` matches the line `"  x\n"` at byte 1, inside its two bytes of
   * leading whitespace: the code as written underflows, where the intended snippet is `"x"`.
   */
  lemma UnderflowExample()
    ensures ExtractSnippetAsWritten("  x\n", 1, None, None).None?
    ensures ExtractSnippet("  x\n", 1, None, None) == "x"
  {
    UnderflowLine();
    assert "x"[..0] == "";
    assert SnippetStart("  x\n", 1, None) == 0;
    assert "x"[0..1] == "x";
  }

  lemma UnderflowLine()
    ensures LeadingBytes("  x\n") == 2 && T.Trim("  x\n") == "x"
  {
    UnderflowTrimStart();
    assert T.LeadingWhitespace("  x\n") == "  ";
    assert T.ByteLen("  ") == 2 by {
      assert "  "[..1] == " ";
      assert " "[..0] == "";
    }
    assert T.TrimEnd("x\n") == "x" by {
      assert "x\n"[..1] == "x";
      assert T.TrimEnd("x") == "x";
    }
  }

  lemma UnderflowTrimStart()
    ensures T.TrimStart("  x\n") == "x\n"
  {
    assert "x\n"[0] == 'x' && !T.IsWhitespace('x');
    assert T.TrimStart("x\n") == "x\n";
    assert " x\n"[0] == ' ' && " x\n"[1..] == "x\n";
    assert T.TrimStart(" x\n") == "x\n";
    assert "  x\n"[0] == ' ' && "  x\n"[1..] == " x\n";
  }

  /**
   * A match 31 bytes into `"é"` followed by 30 spaces and a line break (the regex `(?m) $`):
   * 30 bytes back is byte 1, inside the two-byte `é`, where no char starts; the code as written
   * slices there and panics, where the intended snippet is `"..."`.
   */
  lemma BoundaryExample()
    ensures ExtractSnippetAsWritten("é" + T.Repeat(' ', 30) + "\n", 31, None, None).None?
    ensures ExtractSnippet("é" + T.Repeat(' ', 30) + "\n", 31, None, None) == "..."
  {
    var line := "é" + T.Repeat(' ', 30) + "\n";
    BoundaryLine();
    assert "é"[..0] == "";
    assert "é"[..1] == "é";
    assert BoundaryFrom("é", 1, 0) == 1;
    assert SnippetStart(line, 31, None) == 1;
  }

  lemma BoundaryLine()
    ensures LeadingBytes("é" + T.Repeat(' ', 30) + "\n") == 0
    ensures T.Trim("é" + T.Repeat(' ', 30) + "\n") == "é"
    ensures T.ByteLen("é") == 2
  {
    var tail := T.Repeat(' ', 30) + "\n";
    var line := "é" + tail;
    assert line[0] == 'é';
    assert T.TrimStart(line) == line;
    assert T.LeadingWhitespace(line) == "";
    assert forall i :: 0 <= i < |tail| ==> T.IsWhitespace(tail[i]);
    T.TrimEndAppendWhitespace("é", tail);
    assert T.TrimEnd("é") == "é";
    assert "é"[..0] == "";
  }

  /**
   * The regex engine: whether `RegexMatcherBuilder::new().case_insensitive(true).build(p)`
   * succeeds, and the byte offset of the leftmost case-insensitive match of `p` in a line.
   */
  datatype Regex = Regex(compiles: string -> bool, find: (string, string) -> Option<nat>)

  /** `ContentMatchResult`: 1-based line number, match offset and snippet. */
  datatype ContentMatch = ContentMatch(lineNumber: nat, startPos: nat, lineText: string)

  datatype FileSearchResult = FileSearchResult(path: Path, matches: seq<ContentMatch>)

  /** The pattern the matcher is built from: the query itself in regex mode, else its escape. */
  function SearchPattern(query: string, isRegex: Option<bool>): string {
    if isRegex == Some(true) then query else Escaped(query)
  }

  /** `m` reports a match on line `m.lineNumber` of `lines`: its offset and its snippet. */
  predicate ReportsLine(rx: Regex, pattern: string, lines: seq<string>, m: ContentMatch) {
    1 <= m.lineNumber <= |lines| &&
    rx.find(pattern, lines[m.lineNumber - 1]) == Some(m.startPos) &&
    m.lineText == ExtractSnippet(lines[m.lineNumber - 1], m.startPos, None, None)
  }

  /** The sink: one result per matching line, in order; line `k` of `lines` is number `k + 1`. */
  function LineMatches(rx: Regex, pattern: string, lines: seq<string>): seq<ContentMatch> {
    if |lines| == 0 then []
    else
      var k := |lines| - 1;
      LineMatches(rx, pattern, lines[..k]) + LastMatch(rx, pattern, lines, k)
  }

  /** The result for line `k`, if it matches. */
  function LastMatch(rx: Regex, pattern: string, lines: seq<string>, k: nat): seq<ContentMatch>
    requires k < |lines|
  {
    match rx.find(pattern, lines[k])
    case None => []
    case Some(start) => [ContentMatch(k + 1, start, ExtractSnippet(lines[k], start, None, None))]
  }

  /**
   * At most one result per line, and every result reports a real match: the line it names
   * matches at its offset, and its text is the snippet around that offset.
   */
  lemma {:induction false} LineMatchesReport(rx: Regex, pattern: string, lines: seq<string>)
    ensures |LineMatches(rx, pattern, lines)| <= |lines|
    ensures forall m :: m in LineMatches(rx, pattern, lines) ==> ReportsLine(rx, pattern, lines, m)
  {
    if |lines| > 0 {
      var k := |lines| - 1;
      var prev := LineMatches(rx, pattern, lines[..k]);
      var last := LastMatch(rx, pattern, lines, k);
      LineMatchesReport(rx, pattern, lines[..k]);
      ReportsPrefix(rx, pattern, lines, k, prev);
      assert forall m :: m in prev + last ==> m in prev || m in last;
    }
  }

  lemma ReportsPrefix(rx: Regex, pattern: string, lines: seq<string>, k: nat, ms: seq<ContentMatch>)
    requires k <= |lines|
    requires forall m :: m in ms ==> ReportsLine(rx, pattern, lines[..k], m)
    ensures forall m :: m in ms ==> ReportsLine(rx, pattern, lines, m)
  {
    forall m | m in ms ensures ReportsLine(rx, pattern, lines, m) {
      assert lines[..k][m.lineNumber - 1] == lines[m.lineNumber - 1];
    }
  }

  /** No result iff no line matches. */
  lemma {:induction false} LineMatchesEmpty(rx: Regex, pattern: string, lines: seq<string>)
    ensures LineMatches(rx, pattern, lines) == [] <==>
      forall k :: 0 <= k < |lines| ==> rx.find(pattern, lines[k]).None?
  {
    if |lines| > 0 {
      var k := |lines| - 1;
      LineMatchesEmpty(rx, pattern, lines[..k]);
      assert forall j :: 0 <= j < k ==> lines[..k][j] == lines[j];
      assert LineMatches(rx, pattern, lines) == LineMatches(rx, pattern, lines[..k]) + LastMatch(rx, pattern, lines, k);
      assert LastMatch(rx, pattern, lines, k) == [] <==> rx.find(pattern, lines[k]).None?;
    }
  }

  /**
   * The lines the searcher looks at: none when the contents hold a NUL byte (binary detection
   * quits, here as if the NUL were seen before the first line), else every line with its ending.
   */
  function SearchedLines(content: string): seq<string> {
    if '\0' in content then [] else T.LinesWithEndings(content)
  }

  /**
   * `content_search`. `content` is what reading the file gives (`None` when it cannot be read).
   * A pattern that does not compile fails before the file is read.
   */
  function ContentSearch(rx: Regex, query: string, path: Path, content: Option<string>, isRegex: Option<bool>)
    : (r: SResult<Option<FileSearchResult>>)
    ensures !rx.compiles(SearchPattern(query, isRegex)) ==> r == Err(InvalidRegex(SearchPattern(query, isRegex)))
    ensures rx.compiles(SearchPattern(query, isRegex)) && content.None? ==> r.Err? && r.error.Io?
    ensures r.Ok? ==> content.Some?
    ensures r.Ok? ==>
      (r.value.None? <==>
        forall k :: 0 <= k < |SearchedLines(content.value)| ==>
          rx.find(SearchPattern(query, isRegex), SearchedLines(content.value)[k]).None?)
    ensures r.Ok? && r.value.Some? ==> r.value.value.path == path && |r.value.value.matches| > 0
  {
    var pattern := SearchPattern(query, isRegex);
    if !rx.compiles(pattern) then Err(InvalidRegex(pattern))
    else if content.None? then Err(Io(IoKind.Other, path))
    else
      var matches := LineMatches(rx, pattern, SearchedLines(content.value));
      LineMatchesEmpty(rx, pattern, SearchedLines(content.value));
      if |matches| == 0 then Ok(None) else Ok(Some(FileSearchResult(path, matches)))
  }

  /** The searcher's loop over the lines, pushing a result for every matching one. */
  method SearchLines(rx: Regex, pattern: string, lines: seq<string>) returns (matches: seq<ContentMatch>)
    ensures matches == LineMatches(rx, pattern, lines)
  {
    matches := [];
    for k := 0 to |lines|
      invariant matches == LineMatches(rx, pattern, lines[..k])
    {
      assert lines[..k + 1][..k] == lines[..k];
      assert lines[..k + 1][k] == lines[k];
      var found := rx.find(pattern, lines[k]);
      if found.Some? {
        matches := matches + [ContentMatch(k + 1, found.value, ExtractSnippet(lines[k], found.value, None, None))];
      }
    }
    assert lines[..|lines|] == lines;
  }

  /** `filter_map(|entry| content_search(..).ok().and_then(|v| v))`: errors and no-match are dropped. */
  function Found(rx: Regex, query: string, isRegex: bool, entries: seq<Entry>): seq<FileSearchResult> {
    if |entries| == 0 then []
    else
      var e := entries[|entries| - 1];
      Found(rx, query, isRegex, entries[..|entries| - 1]) + Report(rx, query, isRegex, e)
  }

  /**
   * What `search_path` reads from an entry: a directory cannot be read as a file (an I/O error,
   * whatever the node carries), anything else gives its contents when they can be read.
   */
  function FileContent(e: Entry): (r: Option<string>)
    ensures e.node.kind == Dir ==> r.None?
    ensures e.node.kind != Dir ==> r == e.node.content
  {
    if e.node.kind == Dir then None else e.node.content
  }

  /** The search of one entry succeeded with a match, reported as `res`. */
  predicate Reports(rx: Regex, query: string, isRegex: bool, e: Entry, res: FileSearchResult) {
    ContentSearch(rx, query, e.path, FileContent(e), Some(isRegex)) == Ok(Some(res))
  }

  /** What one entry contributes: its result when the search found something, else nothing. */
  function Report(rx: Regex, query: string, isRegex: bool, e: Entry): (r: seq<FileSearchResult>)
    ensures forall res :: res in r <==> Reports(rx, query, isRegex, e, res)
  {
    match ContentSearch(rx, query, e.path, FileContent(e), Some(isRegex))
    case Ok(Some(res)) => [res]
    case _ => []
  }

  lemma ReportHas(rx: Regex, query: string, isRegex: bool, e: Entry, res: FileSearchResult)
    requires Reports(rx, query, isRegex, e, res)
    ensures res in Report(rx, query, isRegex, e)
  {
  }

  /** The results keep the walk's order: the results of `a + b` are those of `a`, then of `b`. */
  lemma {:induction false} FoundAppend(rx: Regex, query: string, isRegex: bool, a: seq<Entry>, b: seq<Entry>)
    ensures Found(rx, query, isRegex, a + b) == Found(rx, query, isRegex, a) + Found(rx, query, isRegex, b)
    decreases |b|
  {
    if |b| == 0 {
      assert a + b == a;
    } else {
      assert (a + b)[..|a + b| - 1] == a + b[..|b| - 1];
      assert (a + b)[|a + b| - 1] == b[|b| - 1];
      FoundAppend(rx, query, isRegex, a, b[..|b| - 1]);
    }
  }

  /** A result is reported iff the search of some entry succeeded with a match. */
  lemma {:induction false} FoundIff(rx: Regex, query: string, isRegex: bool, entries: seq<Entry>, res: FileSearchResult)
    ensures res in Found(rx, query, isRegex, entries) <==>
      exists i :: 0 <= i < |entries| && Reports(rx, query, isRegex, entries[i], res)
  {
    if res in Found(rx, query, isRegex, entries) {
      FoundOnlyReported(rx, query, isRegex, entries, res);
    }
    if exists i :: 0 <= i < |entries| && Reports(rx, query, isRegex, entries[i], res) {
      var i :| 0 <= i < |entries| && Reports(rx, query, isRegex, entries[i], res);
      ReportedFound(rx, query, isRegex, entries, i, res);
    }
  }

  lemma {:induction false} FoundOnlyReported(rx: Regex, query: string, isRegex: bool, entries: seq<Entry>,
                                             res: FileSearchResult)
    requires res in Found(rx, query, isRegex, entries)
    ensures exists i :: 0 <= i < |entries| && Reports(rx, query, isRegex, entries[i], res)
  {
    var k := |entries| - 1;
    var init := entries[..k];
    assert Found(rx, query, isRegex, entries) ==
      Found(rx, query, isRegex, init) + Report(rx, query, isRegex, entries[k]);
    if res in Found(rx, query, isRegex, init) {
      FoundOnlyReported(rx, query, isRegex, init, res);
      var i :| 0 <= i < |init| && Reports(rx, query, isRegex, init[i], res);
      assert init[i] == entries[i];
    } else {
      assert Reports(rx, query, isRegex, entries[k], res);
    }
  }

  lemma {:induction false} ReportedFound(rx: Regex, query: string, isRegex: bool, entries: seq<Entry>, i: nat,
                                         res: FileSearchResult)
    requires i < |entries| && Reports(rx, query, isRegex, entries[i], res)
    ensures res in Found(rx, query, isRegex, entries)
  {
    var k := |entries| - 1;
    var init := entries[..k];
    assert Found(rx, query, isRegex, entries) ==
      Found(rx, query, isRegex, init) + Report(rx, query, isRegex, entries[k]);
    if i < k {
      assert init[i] == entries[i];
      ReportedFound(rx, query, isRegex, init, i, res);
    } else {
      assert i == k;
      ReportHas(rx, query, isRegex, entries[k], res);
    }
  }

  /** With a pattern that does not compile every search fails, so nothing is reported. */
  lemma {:induction false} InvalidPatternFindsNothing(rx: Regex, query: string, isRegex: bool, entries: seq<Entry>)
    requires !rx.compiles(SearchPattern(query, Some(isRegex)))
    ensures Found(rx, query, isRegex, entries) == []
  {
    if |entries| > 0 {
      InvalidPatternFindsNothing(rx, query, isRegex, entries[..|entries| - 1]);
    }
  }

  /** `search_files_content`: the search's entries, each searched, errors and misses dropped. */
  function SearchFilesContent(h: G.Host, g: S.Globs, rx: Regex, allowed: seq<Path>, root: Path,
                              pattern: string, query: string, isRegex: bool,
                              excludes: Option<seq<string>>, minBytes: Option<nat>, maxBytes: Option<nat>,
                              tree: Option<Node>): (r: SResult<seq<FileSearchResult>>)
    ensures G.ValidatePath(h, root, allowed).Err? ==> r == Err(G.ValidatePath(h, root, allowed).error)
    ensures G.ValidatePath(h, root, allowed).Ok? ==> r.Ok?
  {
    var q := S.Query(root, pattern, if excludes.Some? then excludes.value else [], minBytes, maxBytes);
    var entries :- S.SearchFiles(h, g, S.Split, allowed, q, tree);
    Ok(Found(rx, query, isRegex, entries))
  }
}
