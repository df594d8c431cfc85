/**
 * The `find_duplicate_files` tool (src/tools/find_duplicate_files.rs): the service's duplicate
 * groups, as numbered text blocks or as a JSON object keyed by the group index.
 */
module FindDuplicateFilesTool {
  import opened Wrappers
  import opened Paths
  import opened FsTree
  import T = Text
  import G = PathGuard
  import S = FileSearch
  import D = Duplicates
  import Readers
  import opened ToolResult

  const NoneFoundMessage: string := "No duplicate files were found."

  /** The text header. */
  function Header(n: nat): string {
    if n == 0 then NoneFoundMessage else "Found " + T.NatToString(n) + " sets of duplicate files:\n"
  }

  function FileLine(f: Path): string {
    "  " + f + "\n"
  }

  function FileLines(g: seq<Path>): (r: seq<string>)
    ensures |r| == |g| && forall i :: 0 <= i < |g| ==> r[i] == FileLine(g[i])
  {
    seq(|g|, i requires 0 <= i < |g| => FileLine(g[i]))
  }

  /** The title of group number `k` (counted from 1), printed after an empty line. */
  function Title(k: nat): string {
    "Duplicated Group " + T.NatToString(k) + ":\n"
  }

  /** The lines of group number `k`: an empty line, its title, then one line per file. */
  function GroupLines(k: nat, g: seq<Path>): seq<string> {
    ["\n", Title(k)] + FileLines(g)
  }

  /** The lines of all groups, numbered from 1 in order. */
  function BlockLines(gs: seq<seq<Path>>): seq<string> {
    if |gs| == 0 then [] else BlockLines(gs[..|gs| - 1]) + GroupLines(|gs|, gs[|gs| - 1])
  }

  /** The text form of the result. */
  function TextOutput(gs: seq<seq<Path>>): string {
    Header(|gs|) + T.Concat(BlockLines(gs))
  }

  /** The text branch of `format_output`: the header, then a block per group, a line per file. */
  method FormatText(gs: seq<seq<Path>>) returns (output: string)
    ensures output == TextOutput(gs)
  {
    output := Header(|gs|);
    var i := 0;
    while i < |gs|
      invariant i <= |gs|
      invariant output == Header(|gs|) + T.Concat(BlockLines(gs[..i]))
    {
      var files := FormatFiles(gs[i]);
      GroupStep(gs, i);
      var block := "\n" + Title(i + 1) + files;
      T.AppendAssoc(Header(|gs|), T.Concat(BlockLines(gs[..i])), block);
      output := output + block;
      i := i + 1;
    }
    assert gs[..i] == gs;
  }

  /** The inner loop: one indented line per file of the group. */
  method FormatFiles(group: seq<Path>) returns (s: string)
    ensures s == T.Concat(FileLines(group))
  {
    s := "";
    var j := 0;
    while j < |group|
      invariant j <= |group|
      invariant s == T.Concat(FileLines(group[..j]))
    {
      assert FileLines(group[..j + 1]) == FileLines(group[..j]) + [FileLine(group[j])];
      T.ConcatSnoc(FileLines(group[..j]), FileLine(group[j]));
      var line := "  " + group[j] + "\n";
      s := s + line;
      j := j + 1;
    }
    assert group[..j] == group;
  }

  lemma GroupStep(gs: seq<seq<Path>>, i: nat)
    requires i < |gs|
    ensures T.Concat(BlockLines(gs[..i + 1])) ==
      T.Concat(BlockLines(gs[..i])) + ("\n" + Title(i + 1) + T.Concat(FileLines(gs[i])))
  {
    assert gs[..i + 1][..i] == gs[..i];
    var pre := BlockLines(gs[..i]);
    var head := ["\n", Title(i + 1)];
    var files := FileLines(gs[i]);
    assert BlockLines(gs[..i + 1]) == pre + (head + files);
    T.ConcatAppend(pre, head + files);
    T.ConcatAppend(head, files);
    ConcatPair("\n", Title(i + 1));
  }

  lemma ConcatPair(a: string, b: string)
    ensures T.Concat([a, b]) == a + b
  {
    assert [a, b] == [a] + [b];
    T.ConcatSnoc([a], b);
    assert [a] == [] + [a];
    T.ConcatSnoc([], a);
  }

  lemma ConcatTwo(ls: seq<string>, a: string, b: string)
    ensures T.Concat(ls + [a, b]) == T.Concat(ls) + (a + b)
  {
    assert ls + [a, b] == (ls + [a]) + [b];
    T.ConcatSnoc(ls + [a], b);
    T.ConcatSnoc(ls, a);
  }

  /** With no group the text is the one sentence, with no newline. */
  lemma NothingFound()
    ensures TextOutput([]) == NoneFoundMessage
  {
  }

  lemma {:induction false} BlockLinesTerminated(gs: seq<seq<Path>>)
    requires forall i, j :: 0 <= i < |gs| && 0 <= j < |gs[i]| ==> '\n' !in gs[i][j]
    ensures Terminated(BlockLines(gs))
    decreases |gs|
  {
    if |gs| > 0 {
      var k := |gs| - 1;
      assert forall i :: 0 <= i < k ==> gs[..k][i] == gs[i];
      BlockLinesTerminated(gs[..k]);
      var g := gs[k];
      LineOf("Duplicated Group " + T.NatToString(k + 1) + ":");
      assert Title(k + 1) == "Duplicated Group " + T.NatToString(k + 1) + ":" + "\n";
      forall j | 0 <= j < |g| ensures T.IsLine(FileLines(g)[j], false) {
        LineOf("  " + g[j]);
        assert FileLines(g)[j] == "  " + g[j] + "\n";
      }
      assert T.IsLine("\n", false);
      TerminatedAppend(["\n", Title(k + 1)], FileLines(g));
      TerminatedAppend(BlockLines(gs[..k]), GroupLines(k + 1, g));
    }
  }

  /**
   * Read line by line, the text gives back the header and then, for each group in order, an empty
   * line, its number counted from 1 and one indented line per file of the group.
   */
  lemma TextOutputLines(gs: seq<seq<Path>>)
    requires |gs| > 0
    requires forall i, j :: 0 <= i < |gs| && 0 <= j < |gs[i]| ==> '\n' !in gs[i][j]
    ensures Readers.Lines(TextOutput(gs)) == [Header(|gs|)] + BlockLines(gs)
  {
    var n := |gs|;
    BlockLinesTerminated(gs);
    LineOf("Found " + T.NatToString(n) + " sets of duplicate files:");
    assert Header(n) == "Found " + T.NatToString(n) + " sets of duplicate files:" + "\n";
    TerminatedAppend([Header(n)], BlockLines(gs));
    T.ConcatAppend([Header(n)], BlockLines(gs));
    assert T.Concat([Header(n)]) == Header(n) by {
      assert [Header(n)][..0] == [];
    }
    ReadBack([Header(n)] + BlockLines(gs));
  }

  // ---------------------------------------------------------------------------------------------
  // The JSON branch: a `BTreeMap` from the index as a string to the group
  // ---------------------------------------------------------------------------------------------

  /** The map the insertion loop builds. */
  function GroupMap(gs: seq<seq<Path>>): map<string, seq<Path>> {
    if |gs| == 0 then map[] else GroupMap(gs[..|gs| - 1])[T.NatToString(|gs| - 1) := gs[|gs| - 1]]
  }

  /**
   * The keys are exactly the decimal indices "0" to "N-1", and each maps to the group at that
   * index. (A `BTreeMap` iterates its keys in string order, so "10" comes before "2".)
   */
  lemma {:induction false} GroupMapIff(gs: seq<seq<Path>>)
    ensures forall i :: 0 <= i < |gs| ==> T.NatToString(i) in GroupMap(gs) && GroupMap(gs)[T.NatToString(i)] == gs[i]
    ensures forall k :: k in GroupMap(gs) ==> exists i :: 0 <= i < |gs| && k == T.NatToString(i)
    decreases |gs|
  {
    if |gs| > 0 {
      var n := |gs| - 1;
      GroupMapIff(gs[..n]);
      forall i | 0 <= i < |gs|
        ensures T.NatToString(i) in GroupMap(gs) && GroupMap(gs)[T.NatToString(i)] == gs[i]
      {
        if i < n {
          DistinctKeys(i, n);
          assert gs[..n][i] == gs[i];
        }
      }
      forall k | k in GroupMap(gs) ensures exists i :: 0 <= i < |gs| && k == T.NatToString(i) {
        if k != T.NatToString(n) {
          assert k in GroupMap(gs[..n]);
        }
      }
    }
  }

  lemma DistinctKeys(i: nat, n: nat)
    requires i != n
    ensures T.NatToString(i) != T.NatToString(n)
  {
    T.NatToStringRoundTrip(i);
    T.NatToStringRoundTrip(n);
  }

  /** The ordering a `BTreeMap` with more than ten groups serializes in. */
  lemma KeyOrder()
    ensures T.LexLe("10", "2") && !T.LexLe("2", "10")
  {
    assert "10"[0] == '1' && "2"[0] == '2';
  }

  /** `format_output`. `toJson` is `serde_json::to_string_pretty` of the map. */
  method FormatOutput(gs: seq<seq<Path>>, format: OutputFormat, toJson: map<string, seq<Path>> -> string)
    returns (r: string)
    ensures format == Text ==> r == TextOutput(gs)
    ensures format == Json ==> r == toJson(GroupMap(gs))
  {
    if format == Text {
      r := FormatText(gs);
    } else {
      var m := map[];
      var i := 0;
      while i < |gs|
        invariant i <= |gs|
        invariant m == GroupMap(gs[..i])
      {
        assert gs[..i + 1][..i] == gs[..i];
        m := m[T.NatToString(i) := gs[i]];
        i := i + 1;
      }
      assert gs[..i] == gs;
      r := toJson(m);
    }
  }

  /** `min_bytes.or(Some(1))`: files of size 0 are left out unless the caller asks otherwise. */
  function MinBytesOrDefault(minBytes: Option<nat>): (r: Option<nat>)
    ensures minBytes.None? ==> r == Some(1)
    ensures minBytes.Some? ==> r == minBytes
  {
    if minBytes.Some? then minBytes else Some(1)
  }

  /**
   * `run_tool`: the service's three-stage search with the defaults filled in, then the output in
   * the requested format (text when none is given); a service error fails the call.
   */
  method RunTool(h: G.Host, g: S.Globs, allowed: seq<Path>, root: Path, tree: Option<Node>,
                 pattern: Option<string>, excludes: Option<seq<string>>,
                 minBytes: Option<nat>, maxBytes: Option<nat>, format: Option<OutputFormat>,
                 digest: string -> string, toJson: map<string, seq<Path>> -> string)
    returns (r: SResult<CallResult>)
    ensures var found := D.DuplicateFiles(h, g, allowed, root, tree, pattern, excludes,
                                          MinBytesOrDefault(minBytes), maxBytes, digest);
      (found.Err? ==> r == Err(found.error)) &&
      (found.Ok? && FormatOrDefault(format) == Text ==> r == Ok(TextContent(TextOutput(found.value), None))) &&
      (found.Ok? && FormatOrDefault(format) == Json ==> r == Ok(TextContent(toJson(GroupMap(found.value)), None)))
  {
    var found := D.FindDuplicateFiles(h, g, allowed, root, tree, pattern, excludes,
                                      MinBytesOrDefault(minBytes), maxBytes, digest);
    if found.Err? {
      return Err(found.error);
    }
    var content := FormatOutput(found.value, FormatOrDefault(format), toJson);
    return Ok(TextContent(content, None));
  }
}
