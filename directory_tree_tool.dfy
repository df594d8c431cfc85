/**
 * The `directory_tree` tool (src/tools/directory_tree.rs): runs the traversal with no `max_files`
 * bound and a counter starting at zero, refuses an empty listing, and flags a depth cut-off in the
 * result's metadata.
 */
module DirectoryTreeTool {
  import opened Wrappers
  import opened Paths
  import opened FsTree
  import A = Aggregate
  import opened ToolResult

  const NoEntriesMessage: string := "Could not find any entries"

  const DepthWarning: string :=
    "Incomplete listing: subdirectories beyond the maximum depth were skipped."

  /** The traversal the tool asks for: unlimited entries, counter at zero. */
  function TreeRun(th: A.TreeHost, allowed: seq<Path>, path: Path, tree: Option<Node>, maxDepth: Option<nat>)
    : A.Run
  {
    A.DirectoryTree(th, allowed, path, tree, maxDepth, None, 0)
  }

  /**
   * `DirectoryTreeTool::run_tool`. `toJson` is `serde_json::to_string_pretty` of the entries. The
   * counter test of the source is stated on the listing itself: with no `max_files` bound the counter
   * ends at the number of entries emitted, so the tool fails exactly when the listing is empty.
   */
  function RunTool(th: A.TreeHost, allowed: seq<Path>, path: Path, tree: Option<Node>, maxDepth: Option<nat>,
                   toJson: seq<A.JEntry> -> string): (r: SResult<CallResult>)
    ensures var run := TreeRun(th, allowed, path, tree, maxDepth);
      (run.result.Err? ==> r == Err(run.result.error)) &&
      (run.result.Ok? && run.result.value.entries == [] ==> r == Err(FromString(NoEntriesMessage))) &&
      (run.result.Ok? && run.result.value.entries != [] ==>
        r == Ok(TextContent(toJson(run.result.value.entries),
                            if run.result.value.reachedMaxDepth then Some(DepthWarning) else None)))
  {
    var run := TreeRun(th, allowed, path, tree, maxDepth);
    if run.result.Err? then Err(run.result.error)
    else
      CounterCountsEntries(th, allowed, path, tree, maxDepth);
      if run.count == 0 then Err(FromString(NoEntriesMessage))
      else
        var listing := run.result.value;
        Ok(TextContent(toJson(listing.entries), if listing.reachedMaxDepth then Some(DepthWarning) else None))
  }

  /** With no `max_files` bound and a counter from zero, the counter is the number of entries. */
  lemma CounterCountsEntries(th: A.TreeHost, allowed: seq<Path>, path: Path, tree: Option<Node>,
                             maxDepth: Option<nat>)
    requires TreeRun(th, allowed, path, tree, maxDepth).result.Ok?
    ensures var run := TreeRun(th, allowed, path, tree, maxDepth);
      run.count == A.Size(run.result.value.entries) &&
      (run.count == 0 <==> run.result.value.entries == [])
  {
    var run := TreeRun(th, allowed, path, tree, maxDepth);
    A.TreeFacts(th, allowed, path, tree.value, maxDepth, None, 0);
    SizeZero(run.result.value.entries);
  }

  /** Only an empty listing has no entries at any level. */
  lemma SizeZero(es: seq<A.JEntry>)
    ensures A.Size(es) == 0 <==> es == []
  {
  }

  /** The warning is there exactly when the traversal stopped at the depth limit. */
  lemma WarningIffDepthReached(th: A.TreeHost, allowed: seq<Path>, path: Path, tree: Option<Node>,
                               maxDepth: Option<nat>, toJson: seq<A.JEntry> -> string)
    requires RunTool(th, allowed, path, tree, maxDepth, toJson).Ok?
    ensures TreeRun(th, allowed, path, tree, maxDepth).result.Ok?
    ensures RunTool(th, allowed, path, tree, maxDepth, toJson).value.TextContent?
    ensures RunTool(th, allowed, path, tree, maxDepth, toJson).value.warning.Some? <==>
      TreeRun(th, allowed, path, tree, maxDepth).result.value.reachedMaxDepth
  {
  }

  /** A depth limit of zero lists a directory root with nothing in it, so the tool fails. */
  lemma DepthZeroFails(th: A.TreeHost, allowed: seq<Path>, path: Path, t: Node, toJson: seq<A.JEntry> -> string)
    requires TreeRun(th, allowed, path, Some(t), Some(0)).result.Ok?
    ensures RunTool(th, allowed, path, Some(t), Some(0), toJson) == Err(FromString(NoEntriesMessage))
  {
    A.TreeDepthZero(th, allowed, path, t, None, 0);
  }
}
