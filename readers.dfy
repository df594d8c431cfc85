/**
 * The line-slicing readers of src/fs_service.rs: `head_file`, `tail_file` and `read_file_lines`.
 * A file is read through a `BufReader` whose `read_until(b'\n')` returns the next line with its
 * ending; the model keeps that reader as an object with a position.
 */
module Readers {
  import opened Wrappers
  import opened Paths
  import T = Text
  import G = PathGuard

  /** The lines of a text, endings kept, a last partial line counted. */
  function Lines(s: string): seq<string> {
    T.LinesWithEndings(s)
  }

  function Min(a: nat, b: nat): nat {
    if a <= b then a else b
  }

  /** The first `n` lines, or all of them when there are fewer. */
  function Take(ls: seq<string>, n: nat): seq<string> {
    ls[..Min(n, |ls|)]
  }

  /** What one `read_until(b'\n')` returns: the next line with its `\n`, or nothing at the end. */
  function FirstLine(s: string): (r: string)
    ensures r <= s
    ensures r == "" <==> s == ""
  {
    if |s| == 0 then "" else s[..T.LineEnd(s, 0)]
  }

  /** Reading one line leaves the lines after it. */
  lemma LinesAfterFirst(s: string)
    requires s != ""
    ensures Lines(s) == [FirstLine(s)] + Lines(s[|FirstLine(s)|..])
  {
  }

  /** A buffered reader over a file's contents, positioned at `pos`. */
  class LineReader {
    const data: string
    var pos: nat

    predicate Valid()
      reads this
    {
      pos <= |data|
    }

    /** What is still to be read. */
    function Rest(): string
      reads this
      requires Valid()
    {
      data[pos..]
    }

    constructor (d: string)
      ensures data == d && pos == 0 && Valid()
    {
      data := d;
      pos := 0;
    }

    /** `seek(SeekFrom::Start(p))`. */
    method Seek(p: nat)
      requires p <= |data|
      modifies this
      ensures Valid() && pos == p
    {
      pos := p;
    }

    /** `read_until(b'\n', &mut line)`: the next line, ending included; empty at the end. */
    method ReadUntil() returns (line: string)
      requires Valid()
      modifies this
      ensures Valid()
      ensures line == FirstLine(old(Rest()))
      ensures old(Rest()) == line + Rest()
    {
      var rest := data[pos..];
      if |rest| == 0 {
        return "";
      }
      var k := T.LineEnd(rest, 0);
      line := rest[..k];
      assert data[pos + k..] == rest[k..];
      pos := pos + k;
    }
  }

  /**
   * Up to `n` lines read one `read_until` at a time, stopping at the end of the file: the loop of
   * `head_file`, and the final loops of `tail_file` and `read_file_lines`.
   */
  method ReadLines(reader: LineReader, n: nat) returns (result: string)
    requires reader.Valid()
    modifies reader
    ensures reader.Valid()
    ensures result == T.Concat(Take(Lines(old(reader.Rest())), n))
    ensures old(reader.Rest()) == result + reader.Rest()
  {
    var s := reader.Rest();
    var count := 0;
    result := "";
    while count < n
      invariant reader.Valid()
      invariant count <= n && count <= |Lines(s)|
      invariant result == T.Concat(Lines(s)[..count])
      invariant Lines(reader.Rest()) == Lines(s)[count..]
      invariant s == result + reader.Rest()
      decreases n - count
    {
      ghost var before := reader.Rest();
      var line := reader.ReadUntil();
      if line == "" {
        assert Lines(s)[count..] == [];
        break;
      }
      ReadStep(s, count, before, line);
      T.AppendAssoc(result, line, reader.Rest());
      result := result + line;
      count := count + 1;
    }
    assert Take(Lines(s), n) == Lines(s)[..count];
  }

  /** One turn of `ReadLines`: the line read is the next line of the text, and the rest follows it. */
  lemma ReadStep(s: string, count: nat, before: string, line: string)
    requires count <= |Lines(s)| && Lines(before) == Lines(s)[count..]
    requires line == FirstLine(before) && line != ""
    ensures count < |Lines(s)| && Lines(s)[count] == line
    ensures T.Concat(Lines(s)[..count + 1]) == T.Concat(Lines(s)[..count]) + line
    ensures Lines(before[|line|..]) == Lines(s)[count + 1..]
  {
    LinesAfterFirst(before);
    assert Lines(s)[count] == line;
    assert Lines(s)[..count + 1] == Lines(s)[..count] + [line];
    T.ConcatSnoc(Lines(s)[..count], line);
    assert Lines(s)[count + 1..] == Lines(s)[count..][1..];
  }

  /** All the remaining lines: the unbounded loop of `read_file_lines`. */
  method ReadToEnd(reader: LineReader) returns (result: string)
    requires reader.Valid()
    modifies reader
    ensures reader.Valid()
    ensures result == old(reader.Rest())
  {
    var s := reader.Rest();
    result := "";
    while true
      invariant reader.Valid()
      invariant s == result + reader.Rest()
      decreases |reader.Rest()|
    {
      var line := reader.ReadUntil();
      if line == "" {
        break;
      }
      result := result + line;
    }
  }

  // ---------------------------------------------------------------------------------------------
  // Lines put back together
  // ---------------------------------------------------------------------------------------------

  /** The end of the first line is where a `\n`, or the end of the text, first comes. */
  lemma {:induction false} LineEndAt(s: string, i: nat, m: nat)
    requires i < m <= |s|
    requires forall j :: i <= j < m - 1 ==> s[j] != '\n'
    requires s[m - 1] == '\n' || m == |s|
    ensures T.LineEnd(s, i) == m
    decreases m - i
  {
    if s[i] != '\n' && i != |s| - 1 {
      LineEndAt(s, i + 1, m);
    }
  }

  /** A sequence of lines, each ending in `\n` except perhaps the last, is read back unchanged. */
  lemma {:induction false} LinesOfConcat(ls: seq<string>)
    requires forall i :: 0 <= i < |ls| ==> T.IsLine(ls[i], i == |ls| - 1)
    ensures Lines(T.Concat(ls)) == ls
  {
    if |ls| > 0 {
      var x := ls[0];
      var tail := ls[1..];
      assert ls == [x] + tail;
      T.ConcatAppend([x], tail);
      assert T.Concat([x]) == x by {
        assert [x][..0] == [];
      }
      var t := T.Concat(tail);
      var s := x + t;
      assert forall i :: 0 <= i < |tail| ==> tail[i] == ls[i + 1];
      LinesOfConcat(tail);
      assert T.IsLine(x, |ls| == 1);
      if |ls| == 1 {
        assert tail == [];
      }
      LineEndAt(s, 0, |x|);
      assert s[..|x|] == x && s[|x|..] == t;
    }
  }

  /** The first `k` lines are still lines: each ends with `\n`, except that the `k`-th may lack it. */
  lemma LinesAreLines(ls: seq<string>, k: nat)
    requires forall i :: 0 <= i < |ls| ==> T.IsLine(ls[i], i == |ls| - 1)
    requires k <= |ls|
    ensures forall i :: 0 <= i < k ==> T.IsLine(ls[..k][i], i == k - 1)
  {
  }

  /** The text splits at every line boundary into the lines before and after it. */
  lemma LinesSplit(s: string, a: nat)
    requires a <= |Lines(s)|
    ensures s == T.Concat(Lines(s)[..a]) + T.Concat(Lines(s)[a..])
  {
    T.LinesWithEndingsSound(s);
    assert Lines(s) == Lines(s)[..a] + Lines(s)[a..];
    T.ConcatAppend(Lines(s)[..a], Lines(s)[a..]);
  }

  // ---------------------------------------------------------------------------------------------
  // head_file
  // ---------------------------------------------------------------------------------------------

  /** The first `n` lines of a text, endings kept. */
  function Head(s: string, n: nat): string {
    T.Concat(Take(Lines(s), n))
  }

  /**
   * The head is a prefix of the text, and read back it has exactly the first `min(n, L)` lines,
   * where `L` counts a trailing partial line.
   */
  lemma HeadIsFirstLines(s: string, n: nat)
    ensures Head(s, n) <= s
    ensures Lines(Head(s, n)) == Take(Lines(s), n)
    ensures |Lines(Head(s, n))| == Min(n, |Lines(s)|)
  {
    var k := Min(n, |Lines(s)|);
    LinesSplit(s, k);
    T.LinesWithEndingsSound(s);
    LinesAreLines(Lines(s), k);
    LinesOfConcat(Lines(s)[..k]);
  }

  /** Asking for at least as many lines as the text has gives the whole text. */
  lemma HeadWhole(s: string, n: nat)
    requires |Lines(s)| <= n
    ensures Head(s, n) == s
  {
    T.LinesWithEndingsSound(s);
    assert Take(Lines(s), n) == Lines(s);
  }

  /** `head_file`: the path is validated and the file read, then its first `n` lines returned. */
  function HeadFileResult(h: G.Host, allowed: seq<Path>, fs: Path -> SResult<string>, path: Path, n: nat)
    : SResult<string>
  {
    var valid :- G.ValidatePath(h, path, allowed);
    var s :- fs(valid);
    Ok(Head(s, n))
  }

  /** `head_file` with its read loop. `fs` gives what reading the file at a path yields. */
  method HeadFile(h: G.Host, allowed: seq<Path>, fs: Path -> SResult<string>, path: Path, n: nat)
    returns (r: SResult<string>)
    ensures r == HeadFileResult(h, allowed, fs, path, n)
  {
    var valid := G.ValidatePath(h, path, allowed);
    if valid.Err? {
      return Err(valid.error);
    }
    var file := fs(valid.value);
    if file.Err? {
      return Err(file.error);
    }
    var reader := new LineReader(file.value);
    var result := ReadLines(reader, n);
    return Ok(result);
  }

  // ---------------------------------------------------------------------------------------------
  // tail_file
  // ---------------------------------------------------------------------------------------------

  /** The size of the chunks the backward scan reads. */
  const ChunkSize: nat := 8192

  /** The positions of the `\n`s at or after `lo`, in the descending order the backward scan finds them. */
  function NewlinesFrom(s: string, lo: nat): (r: seq<nat>)
    decreases |s| - lo
    ensures forall i :: 0 <= i < |r| ==> lo <= r[i] < |s| && s[r[i]] == '\n'
  {
    if lo >= |s| then []
    else NewlinesFrom(s, lo + 1) + (if s[lo] == '\n' then [lo] else [])
  }

  /** `line_count`: the number of `\n`s, plus one for a last line without one. */
  function TailLineCount(s: string): nat
    requires |s| > 0
  {
    |NewlinesFrom(s, 0)| + (if s[|s| - 1] != '\n' then 1 else 0)
  }

  /**
   * `start_pos`, as the code computes it: 0 when the file has at most `n` lines, otherwise one past
   * the entry `line_count - n` of the descending `newline_positions`, or 1 when there is no such entry.
   */
  function TailStart(s: string, n: nat): (r: nat)
    requires |s| > 0
    ensures r <= |s|
  {
    var positions := NewlinesFrom(s, 0);
    var lineCount := TailLineCount(s);
    if lineCount <= n then 0
    else (if lineCount - n < |positions| then positions[lineCount - n] else 0) + 1
  }

  /** What `tail_file` returns: read forward from `start_pos`, at most `n` lines. */
  function Tail(s: string, n: nat): string {
    if |s| == 0 || n == 0 then "" else Head(s[TailStart(s, n)..], n)
  }

  function TailFileResult(h: G.Host, allowed: seq<Path>, fs: Path -> SResult<string>, path: Path, n: nat)
    : SResult<string>
  {
    var valid :- G.ValidatePath(h, path, allowed);
    var s :- fs(valid);
    Ok(Tail(s, n))
  }

  /**
   * `tail_file`: the backward scan in chunks collects the `\n` positions, the last byte decides
   * whether a partial line is counted, then the lines from `start_pos` are read forward.
   */
  method TailFile(h: G.Host, allowed: seq<Path>, fs: Path -> SResult<string>, path: Path, n: nat)
    returns (r: SResult<string>)
    ensures r == TailFileResult(h, allowed, fs, path, n)
  {
    var valid := G.ValidatePath(h, path, allowed);
    if valid.Err? {
      return Err(valid.error);
    }
    var file := fs(valid.value);
    if file.Err? {
      return Err(file.error);
    }
    var result := TailOf(file.value, n);
    return Ok(result);
  }

  /** The body of `tail_file` once the file is open. */
  method TailOf(s: string, n: nat) returns (result: string)
    ensures result == Tail(s, n)
  {
    if |s| == 0 || n == 0 {
      return "";
    }
    var startPos := StartPosition(s, n);
    var reader := new LineReader(s);
    reader.Seek(startPos);
    result := ReadLines(reader, n);
  }

  /** `line_count` and `start_pos`, from the backward scan. */
  method StartPosition(s: string, n: nat) returns (startPos: nat)
    requires |s| > 0
    ensures startPos == TailStart(s, n)
  {
    var positions, lineCount := ScanNewlines(s);
    if s[|s| - 1] != '\n' {
      lineCount := lineCount + 1;
    }
    startPos := if lineCount <= n then 0
      else (if lineCount - n < |positions| then positions[lineCount - n] else 0) + 1;
  }

  /** The backward scan of `tail_file`, chunk by chunk, each chunk from its end. */
  method ScanNewlines(s: string) returns (positions: seq<nat>, lineCount: nat)
    ensures positions == NewlinesFrom(s, 0) && lineCount == |positions|
  {
    lineCount := 0;
    var pos := |s|;
    positions := [];
    while pos > 0
      invariant 0 <= pos <= |s|
      invariant positions == NewlinesFrom(s, pos)
      invariant lineCount == |positions|
    {
      var readSize := Min(ChunkSize, pos);
      pos := pos - readSize;
      var i := readSize;
      while i > 0
        invariant 0 <= i <= readSize
        invariant positions == NewlinesFrom(s, pos + i)
        invariant lineCount == |positions|
      {
        i := i - 1;
        if s[pos + i] == '\n' {
          positions := positions + [pos + i];
          lineCount := lineCount + 1;
        }
      }
    }
  }

  /** Nothing is returned for `n == 0` or an empty file. */
  lemma TailNothing(s: string, n: nat)
    requires |s| == 0 || n == 0
    ensures Tail(s, n) == ""
  {
  }

  /** The number of `\n`s in a text. */
  function NewlineCount(s: string): nat {
    if |s| == 0 then 0 else (if s[0] == '\n' then 1 else 0) + NewlineCount(s[1..])
  }

  lemma {:induction false} NewlinesFromCount(s: string, lo: nat)
    requires lo <= |s|
    ensures |NewlinesFrom(s, lo)| == NewlineCount(s[lo..])
    decreases |s| - lo
  {
    if lo < |s| {
      NewlinesFromCount(s, lo + 1);
      assert s[lo..][1..] == s[lo + 1..];
    }
  }

  lemma {:induction false} NewlineCountAppend(a: string, b: string)
    ensures NewlineCount(a + b) == NewlineCount(a) + NewlineCount(b)
  {
    if |a| > 0 {
      assert (a + b)[1..] == a[1..] + b;
      NewlineCountAppend(a[1..], b);
    } else {
      assert a + b == b;
    }
  }

  /** A line holds one `\n` if it ends with one, and none otherwise. */
  lemma {:induction false} NewlineCountLine(x: string)
    requires forall j :: 0 <= j < |x| - 1 ==> x[j] != '\n'
    ensures NewlineCount(x) == if |x| > 0 && x[|x| - 1] == '\n' then 1 else 0
  {
    if |x| > 1 {
      NewlineCountLine(x[1..]);
    }
  }

  /** The text's lines are its `\n`s, plus one for a last line without one. */
  lemma {:induction false} LineCountIsNewlines(s: string)
    ensures |Lines(s)| == NewlineCount(s) + (if |s| > 0 && s[|s| - 1] != '\n' then 1 else 0)
    decreases |s|
  {
    if |s| > 0 {
      var k := T.LineEnd(s, 0);
      var x := s[..k];
      var t := s[k..];
      assert s == x + t;
      NewlineCountAppend(x, t);
      NewlineCountLine(x);
      LineCountIsNewlines(t);
      if |t| > 0 {
        assert s[|s| - 1] == t[|t| - 1];
      }
    }
  }

  /** `line_count` counts exactly the lines a line-oriented reader sees. */
  lemma TailLineCountIsLines(s: string)
    requires |s| > 0
    ensures TailLineCount(s) == |Lines(s)|
  {
    NewlinesFromCount(s, 0);
    assert s[0..] == s;
    LineCountIsNewlines(s);
  }

  /** A file with at most `n` lines is returned whole. */
  lemma TailWhole(s: string, n: nat)
    requires n > 0 && |Lines(s)| <= n
    ensures Tail(s, n) == s
  {
    if |s| > 0 {
      TailLineCountIsLines(s);
      assert s[0..] == s;
      HeadWhole(s, n);
    }
  }

  lemma ConcatTwo(a: string, b: string)
    ensures T.Concat([a, b]) == a + b
  {
    assert [a, b][..1] == [a];
    T.ConcatOne(a);
  }

  lemma ConcatThree(a: string, b: string, c: string)
    ensures T.Concat([a, b, c]) == a + b + c
  {
    assert [a, b, c][..2] == [a, b];
    ConcatTwo(a, b);
  }

  /** The lines of "a\nb\nc\n". */
  lemma ThreeLines()
    ensures Lines("a\nb\nc\n") == ["a\n", "b\n", "c\n"]
  {
    var ls := ["a\n", "b\n", "c\n"];
    ConcatThree("a\n", "b\n", "c\n");
    assert "a\n" + "b\n" + "c\n" == "a\nb\nc\n";
    assert forall i :: 0 <= i < |ls| ==> T.IsLine(ls[i], i == |ls| - 1);
    LinesOfConcat(ls);
  }

  lemma ThreeLinesNewlines()
    ensures NewlinesFrom("a\nb\nc\n", 0) == [5, 3, 1]
  {
    var s := "a\nb\nc\n";
    assert NewlinesFrom(s, 6) == [];
    assert NewlinesFrom(s, 5) == [5];
    assert NewlinesFrom(s, 4) == [5];
    assert NewlinesFrom(s, 3) == [5, 3];
    assert NewlinesFrom(s, 2) == [5, 3];
    assert NewlinesFrom(s, 1) == [5, 3, 1];
  }

  lemma ThreeLinesStart()
    ensures TailStart("a\nb\nc\n", 2) == 4
  {
    ThreeLinesNewlines();
    assert TailLineCount("a\nb\nc\n") == 3;
  }

  lemma LastLineHead()
    ensures Head("c\n", 2) == "c\n"
  {
    T.ConcatOne("c\n");
    LinesOfConcat(["c\n"]);
    assert Take(["c\n"], 2) == ["c\n"];
  }

  /**
   * `start_pos` is one line too far: for "a\nb\nc\n" and `n = 2` it is one past the `\n` at 3
   * (entry 1 of the descending positions), so only the last line comes back, not the last two.
   */
  lemma TailDescendingExample()
    ensures Tail("a\nb\nc\n", 2) == "c\n"
    ensures TailLines("a\nb\nc\n", 2) == "b\nc\n"
  {
    var s := "a\nb\nc\n";
    ThreeLinesStart();
    assert s[4..] == "c\n";
    LastLineHead();
    ThreeLines();
    var ls := ["a\n", "b\n", "c\n"];
    assert ls[1..] == ["b\n", "c\n"];
    ConcatTwo("b\n", "c\n");
  }

  /** The evidently intended tail: the last `min(n, L)` lines. */
  function TailLines(s: string, n: nat): string {
    var ls := Lines(s);
    T.Concat(ls[|ls| - Min(n, |ls|)..])
  }

  /** The intended tail is a suffix of the text, and read back it has exactly the last lines. */
  lemma TailLinesAreLastLines(s: string, n: nat)
    ensures exists p :: 0 <= p <= |s| && TailLines(s, n) == s[p..]
    ensures Lines(TailLines(s, n)) == Lines(s)[|Lines(s)| - Min(n, |Lines(s)|)..]
  {
    var ls := Lines(s);
    var a := |ls| - Min(n, |ls|);
    LinesSplit(s, a);
    var p := |T.Concat(ls[..a])|;
    assert TailLines(s, n) == s[p..];
    T.LinesWithEndingsSound(s);
    var suffix := ls[a..];
    assert forall i :: 0 <= i < |suffix| ==> suffix[i] == ls[a + i];
    LinesOfConcat(suffix);
  }

  /** The start `start_pos` evidently should have: the offset of line `L - min(n, L)`. */
  function IntendedStart(s: string, n: nat): (r: nat)
    ensures r <= |s|
  {
    var ls := Lines(s);
    LinesSplit(s, |ls| - Min(n, |ls|));
    |T.Concat(ls[..|ls| - Min(n, |ls|)])|
  }

  /** Read forward from the intended start, the code's read loop returns the intended tail. */
  lemma TailFromIntendedStart(s: string, n: nat)
    ensures Head(s[IntendedStart(s, n)..], n) == TailLines(s, n)
  {
    var ls := Lines(s);
    var a := |ls| - Min(n, |ls|);
    var pre := T.Concat(ls[..a]);
    LinesSplit(s, a);
    assert IntendedStart(s, n) == |pre|;
    assert s[|pre|..] == TailLines(s, n);
    TailLinesAreLastLines(s, n);
    assert Take(ls[a..], n) == ls[a..];
  }

  // ---------------------------------------------------------------------------------------------
  // read_file_lines
  // ---------------------------------------------------------------------------------------------

  /**
   * What `read_file_lines` returns: nothing for an empty file, a zero limit or an offset past the
   * end; otherwise the lines from `offset`, at most `limit` of them.
   */
  function FileLines(s: string, offset: nat, limit: Option<nat>): string {
    var ls := Lines(s);
    if |s| == 0 || limit == Some(0) || offset > |ls| then ""
    else
      match limit
      case None => T.Concat(ls[offset..])
      case Some(m) => T.Concat(Take(ls[offset..], m))
  }

  /**
   * The lines returned are a contiguous slice of the file, lines `offset` up to `offset + limit`
   * (or to the end), endings kept.
   */
  lemma FileLinesSlice(s: string, offset: nat, limit: Option<nat>)
    requires |s| > 0 && limit != Some(0) && offset <= |Lines(s)|
    ensures var ls := Lines(s);
      var b := if limit.None? then |ls| else Min(offset + limit.value, |ls|);
      offset <= b <= |ls| &&
      FileLines(s, offset, limit) == T.Concat(ls[offset..b]) &&
      exists p, q :: 0 <= p <= q <= |s| && FileLines(s, offset, limit) == s[p..q]
  {
    var ls := Lines(s);
    var b := if limit.None? then |ls| else Min(offset + limit.value, |ls|);
    if limit.Some? {
      assert Take(ls[offset..], limit.value) == ls[offset..b];
    } else {
      assert ls[offset..] == ls[offset..b];
    }
    assert FileLines(s, offset, limit) == T.Concat(ls[offset..b]);
    var p, q := SliceBounds(s, offset, b);
  }

  /** The lines `a` up to `b` of a text, put back together, are a contiguous piece of it. */
  lemma SliceBounds(s: string, a: nat, b: nat) returns (p: nat, q: nat)
    requires a <= b <= |Lines(s)|
    ensures p <= q <= |s| && T.Concat(Lines(s)[a..b]) == s[p..q]
  {
    var ls := Lines(s);
    LinesSplit(s, a);
    assert ls[a..] == ls[a..b] + ls[b..];
    T.ConcatAppend(ls[a..b], ls[b..]);
    var x, y, z := T.Concat(ls[..a]), T.Concat(ls[a..b]), T.Concat(ls[b..]);
    assert s == x + (y + z);
    p, q := |x|, |x| + |y|;
    Middle(x, y, z);
  }

  lemma Middle(x: string, y: string, z: string)
    ensures (x + (y + z))[|x|..|x| + |y|] == y
  {
  }

  function FileLinesResult(h: G.Host, allowed: seq<Path>, fs: Path -> SResult<string>, path: Path,
                           offset: nat, limit: Option<nat>): SResult<string>
  {
    var valid :- G.ValidatePath(h, path, allowed);
    var s :- fs(valid);
    Ok(FileLines(s, offset, limit))
  }

  /** `read_file_lines`: the skip loop, then the bounded or the unbounded read loop. */
  method ReadFileLines(h: G.Host, allowed: seq<Path>, fs: Path -> SResult<string>, path: Path,
                       offset: nat, limit: Option<nat>)
    returns (r: SResult<string>)
    ensures r == FileLinesResult(h, allowed, fs, path, offset, limit)
  {
    var valid := G.ValidatePath(h, path, allowed);
    if valid.Err? {
      return Err(valid.error);
    }
    var file := fs(valid.value);
    if file.Err? {
      return Err(file.error);
    }
    var result := FileLinesOf(file.value, offset, limit);
    return Ok(result);
  }

  /** The body of `read_file_lines` once the file is open. */
  method FileLinesOf(s: string, offset: nat, limit: Option<nat>) returns (result: string)
    ensures result == FileLines(s, offset, limit)
  {
    var reader := new LineReader(s);
    if |s| == 0 || limit == Some(0) {
      return "";
    }
    var skipped := SkipLines(reader, offset);
    if !skipped {
      return "";
    }
    match limit {
      case Some(m) =>
        result := ReadLines(reader, m);
      case None =>
        ghost var rest := reader.Rest();
        result := ReadToEnd(reader);
        T.LinesWithEndingsSound(rest);
    }
  }

  /** The skip loop: `offset` lines read and dropped; false when the file ends first. */
  method SkipLines(reader: LineReader, offset: nat) returns (skipped: bool)
    requires reader.Valid()
    modifies reader
    ensures reader.Valid()
    ensures skipped <==> offset <= |Lines(old(reader.Rest()))|
    ensures skipped ==> Lines(reader.Rest()) == Lines(old(reader.Rest()))[offset..]
  {
    ghost var s := reader.Rest();
    var i := 0;
    while i < offset
      invariant reader.Valid()
      invariant i <= offset && i <= |Lines(s)|
      invariant Lines(reader.Rest()) == Lines(s)[i..]
    {
      ghost var before := reader.Rest();
      var line := reader.ReadUntil();
      if line == "" {
        assert Lines(s)[i..] == [];
        return false;
      }
      LinesAfterFirst(before);
      assert Lines(s)[i + 1..] == Lines(s)[i..][1..];
      i := i + 1;
    }
    return true;
  }
}
