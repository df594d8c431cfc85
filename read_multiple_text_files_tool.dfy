/**
 * The `read_multiple_text_files` tool (src/tools/read_multiple_text_files.rs): every path is read
 * on its own, a failure becomes an error line in place of the content rather than failing the
 * call, and the per-path segments are joined, in the order the paths were given, by `\n---\n`.
 */
module ReadMultipleTextFilesTool {
  import opened Wrappers
  import opened Paths
  import T = Text
  import opened ToolResult

  const Separator: string := "\n---\n"

  /**
   * The segment of one path: `path:\n<content>\n`, or `path: Error - <error>` where `show` is the
   * error's `Display`.
   */
  function Segment(path: Path, content: SResult<string>, show: ServiceError -> string): string {
    if content.Ok? then path + ":\n" + content.value + "\n" else path + ": Error - " + show(content.error)
  }

  /** The segments, one per path and in the paths' order (`join_all` keeps the futures' order). */
  function Segments(paths: seq<Path>, read: Path -> SResult<string>, show: ServiceError -> string): (r: seq<string>)
    ensures |r| == |paths|
    ensures forall i :: 0 <= i < |paths| ==> r[i] == Segment(paths[i], read(paths[i]), show)
  {
    seq(|paths|, i requires 0 <= i < |paths| => Segment(paths[i], read(paths[i]), show))
  }

  /** `run_tool`: the joined segments as one text content; the call itself never fails. */
  function RunTool(paths: seq<Path>, read: Path -> SResult<string>, show: ServiceError -> string): (r: SResult<CallResult>)
    ensures r.Ok? && r.value.TextContent? && r.value.warning.None?
  {
    Ok(TextContent(T.Join(Segments(paths, read, show), Separator), None))
  }

  /** Every segment starts with its path and a colon. */
  lemma SegmentStartsWithPath(path: Path, content: SResult<string>, show: ServiceError -> string)
    ensures var s := Segment(path, content, show); |s| > |path| && s[..|path| + 1] == path + ":"
  {
    var s := Segment(path, content, show);
    if content.Ok? {
      assert s == (path + ":") + ("\n" + content.value + "\n");
    } else {
      assert s == (path + ":") + (" Error - " + show(content.error));
    }
  }

  /**
   * The character after the path's colon tells the two cases apart: a newline exactly when the
   * file was read, a space exactly when its read failed.
   */
  lemma SegmentTellsOutcome(path: Path, content: SResult<string>, show: ServiceError -> string)
    ensures var s := Segment(path, content, show); |s| > |path| + 1 && (s[|path| + 1] == '\n' <==> content.Ok?)
  {
    var s := Segment(path, content, show);
    if content.Ok? {
      assert s == path + ":\n" + (content.value + "\n");
      assert s[|path| + 1] == (path + ":\n")[|path| + 1];
    } else {
      assert s == path + ": " + ("Error - " + show(content.error));
      assert s[|path| + 1] == (path + ": ")[|path| + 1];
    }
  }

  /** A successful read is printed whole: the content follows `path:\n` and ends one newline early. */
  lemma ReadContentRecovered(path: Path, content: SResult<string>, show: ServiceError -> string)
    requires content.Ok?
    ensures var s := Segment(path, content, show); s[|path| + 2..|s| - 1] == content.value
  {
    var s := Segment(path, content, show);
    assert s == (path + ":\n") + content.value + "\n";
  }

  /**
   * Reading two batches of paths gives the texts of the batches joined by the separator: the
   * segments do not depend on each other.
   */
  lemma {:induction false} BatchesJoin(p1: seq<Path>, p2: seq<Path>, read: Path -> SResult<string>,
                                        show: ServiceError -> string)
    requires |p1| > 0 && |p2| > 0
    ensures RunTool(p1 + p2, read, show).value.text ==
      RunTool(p1, read, show).value.text + Separator + RunTool(p2, read, show).value.text
    decreases |p1|
  {
    var s1 := Segments(p1, read, show);
    var s2 := Segments(p2, read, show);
    assert Segments(p1 + p2, read, show) == s1 + s2;
    JoinAppend(s1, s2, Separator);
  }

  lemma {:induction false} JoinAppend(a: seq<string>, b: seq<string>, sep: string)
    requires |a| > 0 && |b| > 0
    ensures T.Join(a + b, sep) == T.Join(a, sep) + sep + T.Join(b, sep)
    decreases |a|
  {
    if |a| == 1 {
      assert a + b == [a[0]] + b;
      T.JoinCons(a[0], b, sep);
    } else {
      assert a + b == [a[0]] + (a[1..] + b);
      T.JoinCons(a[0], a[1..] + b, sep);
      JoinAppend(a[1..], b, sep);
      assert a == [a[0]] + a[1..];
      T.JoinCons(a[0], a[1..], sep);
    }
  }

  /** One path gives its segment alone, with no separator; no path gives the empty text. */
  lemma SingleAndNone(path: Path, read: Path -> SResult<string>, show: ServiceError -> string)
    ensures RunTool([path], read, show).value.text == Segment(path, read(path), show)
    ensures RunTool([], read, show).value.text == ""
  {
    assert Segments([path], read, show) == [Segment(path, read(path), show)];
  }
}
