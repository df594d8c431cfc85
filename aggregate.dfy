/**
 * The tree aggregations of src/fs_service.rs: `directory_tree`, `find_empty_directories` and
 * `calculate_directory_size`. The last two walk with the monolithic `search_files_iter` of the same
 * file (the `glob::Pattern` engine).
 */
module Aggregate {
  import opened Wrappers
  import opened Paths
  import opened FsTree
  import G = PathGuard
  import S = FileSearch

  // ---------------------------------------------------------------------------------------------
  // directory_tree
  // ---------------------------------------------------------------------------------------------

  /**
   * One JSON entry of the tree: `name`, `type`, and a `children` key that is present when
   * `hasChildren` holds.
   */
  datatype JEntry = JEntry(name: string, kind: string, hasChildren: bool, children: seq<JEntry>)

  /** The array of entries and the `reached_max_depth` flag. */
  datatype Listing = Listing(entries: seq<JEntry>, reachedMaxDepth: bool)

  /** The result of a (recursive) call, and the shared counter after it. */
  datatype Run = Run(result: SResult<Listing>, count: nat)

  const RootNotDirectoryMessage: string := "Root path must be a directory"
  const InvalidPathMessage: string := "Invalid path"

  /**
   * What `directory_tree` asks of its environment beyond the guard: the error `fs::metadata`
   * raises for a path whose metadata cannot be read.
   */
  datatype TreeHost = TreeHost(guard: G.Host, metadataError: Path -> ServiceError)

  /**
   * `directory_tree(p, max_depth, max_files, count)` on the entry `n` found at `p`: the path is
   * validated, its metadata read, and it must be a directory; at depth 0 nothing is listed and the
   * flag is set.
   */
  function Tree(th: TreeHost, allowed: seq<Path>, p: Path, n: Node, maxDepth: Option<nat>,
                maxFiles: Option<nat>, count: nat): Run
    decreases n, 1
  {
    match G.ValidatePath(th.guard, p, allowed)
    case Err(e) => Run(Err(e), count)
    case Ok(valid) =>
      if n.size.None? then Run(Err(th.metadataError(valid)), count)
      else if n.kind != Dir then Run(Err(FromString(RootNotDirectoryMessage)), count)
      else if maxDepth == Some(0) then Run(Ok(Listing([], true)), count)
      else Children(th, allowed, valid, n, 0, maxDepth, maxFiles, Listing([], false), count)
  }

  /** `max_depth.map(|d| d - 1)`, for a depth that is not 0. */
  function NextDepth(maxDepth: Option<nat>): Option<nat> {
    match maxDepth
    case None => None
    case Some(d) => Some(if d == 0 then 0 else d - 1)
  }

  /** The loop over the children `i..` of the directory `n` at `valid`, from the listing so far. */
  function Children(th: TreeHost, allowed: seq<Path>, valid: Path, n: Node, i: nat, maxDepth: Option<nat>,
                    maxFiles: Option<nat>, acc: Listing, count: nat): Run
    decreases n, 0, |n.children| - i
  {
    if i >= |n.children| then Run(Ok(acc), count)
    else
      var c := n.children[i];
      var cp := Join(valid, c.name);
      if c.size.None? then Run(Err(th.metadataError(cp)), count)
      else
        match FileName(cp)
        case None => Run(Err(FromString(InvalidPathMessage)), count)
        case Some(name) =>
          var next := count + 1;
          if maxFiles.Some? && next > maxFiles.value then
            Children(th, allowed, valid, n, i + 1, maxDepth, maxFiles, acc, next)
          else if c.kind == Dir then
            var sub := Tree(th, allowed, cp, c, NextDepth(maxDepth), maxFiles, next);
            match sub.result
            case Err(e) => Run(Err(e), sub.count)
            case Ok(l) =>
              Children(th, allowed, valid, n, i + 1, maxDepth, maxFiles,
                       Listing(acc.entries + [JEntry(name, "directory", true, l.entries)],
                               acc.reachedMaxDepth || l.reachedMaxDepth),
                       sub.count)
          else
            Children(th, allowed, valid, n, i + 1, maxDepth, maxFiles,
                     Listing(acc.entries + [JEntry(name, "file", false, [])], acc.reachedMaxDepth), next)
  }

  /** `directory_tree` on the root, where `tree` is what is found there (`None`: nothing). */
  function DirectoryTree(th: TreeHost, allowed: seq<Path>, root: Path, tree: Option<Node>, maxDepth: Option<nat>,
                         maxFiles: Option<nat>, count: nat): Run
  {
    match tree
    case Some(t) => Tree(th, allowed, root, t, maxDepth, maxFiles, count)
    case None =>
      match G.ValidatePath(th.guard, root, allowed)
      case Err(e) => Run(Err(e), count)
      case Ok(valid) => Run(Err(th.metadataError(valid)), count)
  }

  /**
   * `directory_tree`, recursive, with its loop over the directory's children and the counter
   * threaded through every call.
   */
  method TreeMethod(th: TreeHost, allowed: seq<Path>, p: Path, n: Node, maxDepth: Option<nat>,
                    maxFiles: Option<nat>, count: nat)
    returns (r: SResult<Listing>, countOut: nat)
    ensures Run(r, countOut) == Tree(th, allowed, p, n, maxDepth, maxFiles, count)
    decreases n, 1
  {
    var v := G.ValidatePath(th.guard, p, allowed);
    if v.Err? {
      return Err(v.error), count;
    }
    var valid := v.value;
    if n.size.None? {
      return Err(th.metadataError(valid)), count;
    }
    if n.kind != Dir {
      return Err(FromString(RootNotDirectoryMessage)), count;
    }
    if maxDepth == Some(0) {
      return Ok(Listing([], true)), count;
    }
    assert Tree(th, allowed, p, n, maxDepth, maxFiles, count) ==
      Children(th, allowed, valid, n, 0, maxDepth, maxFiles, Listing([], false), count);
    r, countOut := ChildrenMethod(th, allowed, valid, n, maxDepth, maxFiles, count);
  }

  /** The loop of `directory_tree` over the children of the directory `n` at `valid`. */
  method ChildrenMethod(th: TreeHost, allowed: seq<Path>, valid: Path, n: Node, maxDepth: Option<nat>,
                        maxFiles: Option<nat>, count: nat)
    returns (r: SResult<Listing>, countOut: nat)
    ensures Run(r, countOut) == Children(th, allowed, valid, n, 0, maxDepth, maxFiles, Listing([], false), count)
    decreases n, 0, 1
  {
    var children: seq<JEntry> := [];
    var reached := false;
    countOut := count;
    var i := 0;
    while i < |n.children|
      invariant i <= |n.children|
      invariant Children(th, allowed, valid, n, i, maxDepth, maxFiles, Listing(children, reached), countOut) ==
                Children(th, allowed, valid, n, 0, maxDepth, maxFiles, Listing([], false), count)
    {
      var stop, children', reached', count' :=
        ChildStep(th, allowed, valid, n, i, maxDepth, maxFiles, children, reached, countOut);
      if stop.Some? {
        return stop.value.result, stop.value.count;
      }
      children, reached, countOut := children', reached', count';
      i := i + 1;
    }
    return Ok(Listing(children, reached)), countOut;
  }

  /**
   * One turn of the loop, on child `i`: the error that ends the loop (`stop`), or the entries, flag
   * and counter the next turn starts from.
   */
  method ChildStep(th: TreeHost, allowed: seq<Path>, valid: Path, n: Node, i: nat, maxDepth: Option<nat>,
                   maxFiles: Option<nat>, children: seq<JEntry>, reached: bool, count: nat)
    returns (stop: Option<Run>, children': seq<JEntry>, reached': bool, countOut: nat)
    requires i < |n.children|
    ensures var run := Children(th, allowed, valid, n, i, maxDepth, maxFiles, Listing(children, reached), count);
      (stop.Some? ==> stop.value == run && stop.value.result.Err?) &&
      (stop.None? ==>
        run == Children(th, allowed, valid, n, i + 1, maxDepth, maxFiles, Listing(children', reached'), countOut))
    decreases n, 0, 0
  {
    var c := n.children[i];
    var cp := Join(valid, c.name);
    if c.size.None? {
      return Some(Run(Err(th.metadataError(cp)), count)), children, reached, count;
    }
    var name := FileName(cp);
    if name.None? {
      return Some(Run(Err(FromString(InvalidPathMessage)), count)), children, reached, count;
    }
    var next := count + 1;
    if maxFiles.Some? && next > maxFiles.value {
      ChildrenSkip(th, allowed, valid, n, i, maxDepth, maxFiles, Listing(children, reached), count);
      return None, children, reached, next;
    }
    if c.kind == Dir {
      var sub, subCount := TreeMethod(th, allowed, cp, c, NextDepth(maxDepth), maxFiles, next);
      if sub.Err? {
        return Some(Run(Err(sub.error), subCount)), children, reached, subCount;
      }
      ChildrenDir(th, allowed, valid, n, i, maxDepth, maxFiles, Listing(children, reached), count);
      return None, children + [JEntry(name.value, "directory", true, sub.value.entries)],
        reached || sub.value.reachedMaxDepth, subCount;
    }
    ChildrenFile(th, allowed, valid, n, i, maxDepth, maxFiles, Listing(children, reached), count);
    return None, children + [JEntry(name.value, "file", false, [])], reached, next;
  }

  /** A child beyond `max_files` is counted and skipped. */
  lemma ChildrenSkip(th: TreeHost, allowed: seq<Path>, valid: Path, n: Node, i: nat, maxDepth: Option<nat>,
                     maxFiles: Option<nat>, acc: Listing, count: nat)
    requires i < |n.children| && n.children[i].size.Some? && FileName(Join(valid, n.children[i].name)).Some?
    requires maxFiles.Some? && count + 1 > maxFiles.value
    ensures Children(th, allowed, valid, n, i, maxDepth, maxFiles, acc, count) ==
      Children(th, allowed, valid, n, i + 1, maxDepth, maxFiles, acc, count + 1)
  {
  }

  /** A subdirectory within bounds is listed with its own tree. */
  lemma ChildrenDir(th: TreeHost, allowed: seq<Path>, valid: Path, n: Node, i: nat, maxDepth: Option<nat>,
                    maxFiles: Option<nat>, acc: Listing, count: nat)
    requires i < |n.children| && n.children[i].size.Some? && FileName(Join(valid, n.children[i].name)).Some?
    requires !(maxFiles.Some? && count + 1 > maxFiles.value) && n.children[i].kind == Dir
    requires Tree(th, allowed, Join(valid, n.children[i].name), n.children[i], NextDepth(maxDepth), maxFiles,
                  count + 1).result.Ok?
    ensures var c := n.children[i];
      var cp := Join(valid, c.name);
      var sub := Tree(th, allowed, cp, c, NextDepth(maxDepth), maxFiles, count + 1);
      Children(th, allowed, valid, n, i, maxDepth, maxFiles, acc, count) ==
      Children(th, allowed, valid, n, i + 1, maxDepth, maxFiles,
               Listing(acc.entries + [JEntry(FileName(cp).value, "directory", true, sub.result.value.entries)],
                       acc.reachedMaxDepth || sub.result.value.reachedMaxDepth),
               sub.count)
  {
  }

  /** A file (or other non-directory) within bounds is listed as a file. */
  lemma ChildrenFile(th: TreeHost, allowed: seq<Path>, valid: Path, n: Node, i: nat, maxDepth: Option<nat>,
                     maxFiles: Option<nat>, acc: Listing, count: nat)
    requires i < |n.children| && n.children[i].size.Some? && FileName(Join(valid, n.children[i].name)).Some?
    requires !(maxFiles.Some? && count + 1 > maxFiles.value) && n.children[i].kind != Dir
    ensures Children(th, allowed, valid, n, i, maxDepth, maxFiles, acc, count) ==
      Children(th, allowed, valid, n, i + 1, maxDepth, maxFiles,
               Listing(acc.entries + [JEntry(FileName(Join(valid, n.children[i].name)).value, "file", false, [])],
                       acc.reachedMaxDepth),
               count + 1)
  {
  }

  /** A successful loop got past child `i`: its metadata and name were read, its subtree listed. */
  lemma ChildOk(th: TreeHost, allowed: seq<Path>, valid: Path, n: Node, i: nat, maxDepth: Option<nat>,
                maxFiles: Option<nat>, acc: Listing, count: nat)
    requires i < |n.children| && Children(th, allowed, valid, n, i, maxDepth, maxFiles, acc, count).result.Ok?
    ensures n.children[i].size.Some? && FileName(Join(valid, n.children[i].name)).Some?
    ensures !(maxFiles.Some? && count + 1 > maxFiles.value) && n.children[i].kind == Dir ==>
      Tree(th, allowed, Join(valid, n.children[i].name), n.children[i], NextDepth(maxDepth), maxFiles,
           count + 1).result.Ok?
  {
  }

  /** At depth 0 a directory lists nothing, sets the flag and counts nothing. */
  lemma TreeDepthZero(th: TreeHost, allowed: seq<Path>, p: Path, n: Node, maxFiles: Option<nat>, count: nat)
    requires G.ValidatePath(th.guard, p, allowed).Ok? && n.size.Some? && n.kind == Dir
    ensures Tree(th, allowed, p, n, Some(0), maxFiles, count) == Run(Ok(Listing([], true)), count)
  {
  }

  /** A root that is not a directory is refused. */
  lemma TreeRootNotDirectory(th: TreeHost, allowed: seq<Path>, p: Path, n: Node, maxDepth: Option<nat>,
                             maxFiles: Option<nat>, count: nat)
    requires G.ValidatePath(th.guard, p, allowed).Ok? && n.size.Some? && n.kind != Dir
    ensures Tree(th, allowed, p, n, maxDepth, maxFiles, count).result == Err(FromString(RootNotDirectoryMessage))
  {
  }

  /** Directory entries, and only they, carry a `children` array, at every level. */
  predicate WellFormed(es: seq<JEntry>)
    decreases es
  {
    forall i :: 0 <= i < |es| ==> EntryWellFormed(es[i])
  }

  predicate EntryWellFormed(e: JEntry)
    decreases e
  {
    (e.kind == "directory" <==> e.hasChildren) &&
    (e.kind == "directory" || e.kind == "file") &&
    (!e.hasChildren ==> e.children == []) &&
    WellFormed(e.children)
  }

  /** The number of entries at every level. */
  function Size(es: seq<JEntry>): nat
    decreases es
  {
    if |es| == 0 then 0
    else Size(es[..|es| - 1]) + 1 + Size(es[|es| - 1].children)
  }

  lemma SizeSnoc(es: seq<JEntry>, e: JEntry)
    ensures Size(es + [e]) == Size(es) + 1 + Size(e.children)
  {
    assert (es + [e])[..|es|] == es;
  }

  lemma WellFormedSnoc(es: seq<JEntry>, e: JEntry)
    requires WellFormed(es) && EntryWellFormed(e)
    ensures WellFormed(es + [e])
  {
    var r := es + [e];
    forall i | 0 <= i < |r| ensures EntryWellFormed(r[i]) {
      if i < |es| {
        assert r[i] == es[i];
      }
    }
  }

  /** `max(0, m - c)`: how many more entries the `max_files` bound lets through. */
  function Room(m: nat, c: nat): nat {
    if c <= m then m - c else 0
  }

  /**
   * What every successful call guarantees: the entries are well formed; the counter only grows and
   * counts at least every entry emitted, exactly those when there is no `max_files`; and with
   * `max_files = m` the emitted entries fit in what the bound had left.
   */
  predicate RunFacts(maxFiles: Option<nat>, entries: seq<JEntry>, count: nat, countOut: nat) {
    WellFormed(entries) &&
    count + Size(entries) <= countOut &&
    (maxFiles.None? ==> countOut == count + Size(entries)) &&
    (maxFiles.Some? ==> Size(entries) + Room(maxFiles.value, countOut) <= Room(maxFiles.value, count))
  }

  lemma {:induction false} TreeFacts(th: TreeHost, allowed: seq<Path>, p: Path, n: Node, maxDepth: Option<nat>,
                                     maxFiles: Option<nat>, count: nat)
    requires Tree(th, allowed, p, n, maxDepth, maxFiles, count).result.Ok?
    ensures var run := Tree(th, allowed, p, n, maxDepth, maxFiles, count);
      RunFacts(maxFiles, run.result.value.entries, count, run.count)
    decreases n, 1
  {
    var valid := G.ValidatePath(th.guard, p, allowed).value;
    if maxDepth != Some(0) {
      ChildrenFacts(th, allowed, valid, n, 0, maxDepth, maxFiles, Listing([], false), count);
    }
  }

  lemma {:induction false} ChildrenFacts(th: TreeHost, allowed: seq<Path>, valid: Path, n: Node, i: nat,
                                         maxDepth: Option<nat>, maxFiles: Option<nat>, acc: Listing, count: nat)
    requires WellFormed(acc.entries)
    requires Children(th, allowed, valid, n, i, maxDepth, maxFiles, acc, count).result.Ok?
    ensures var run := Children(th, allowed, valid, n, i, maxDepth, maxFiles, acc, count);
      WellFormed(run.result.value.entries) &&
      Size(acc.entries) + count <= Size(run.result.value.entries) + count <= run.count + Size(acc.entries) &&
      (maxFiles.None? ==> run.count + Size(acc.entries) == count + Size(run.result.value.entries)) &&
      (maxFiles.Some? ==>
        Size(run.result.value.entries) + Room(maxFiles.value, run.count) <=
        Size(acc.entries) + Room(maxFiles.value, count))
    decreases n, 0, |n.children| - i, 1
  {
    if i < |n.children| {
      var c := n.children[i];
      var next := count + 1;
      if maxFiles.Some? && next > maxFiles.value {
        ChildSkipFacts(th, allowed, valid, n, i, maxDepth, maxFiles, acc, count);
      } else if c.kind == Dir {
        ChildDirFacts(th, allowed, valid, n, i, maxDepth, maxFiles, acc, count);
      } else {
        ChildFileFacts(th, allowed, valid, n, i, maxDepth, maxFiles, acc, count);
      }
    }
  }

  /** The step of `ChildrenFacts` for a child beyond the bound. */
  lemma {:induction false} ChildSkipFacts(th: TreeHost, allowed: seq<Path>, valid: Path, n: Node, i: nat,
                                          maxDepth: Option<nat>, maxFiles: Option<nat>, acc: Listing, count: nat)
    requires WellFormed(acc.entries)
    requires i < |n.children| && maxFiles.Some? && count + 1 > maxFiles.value
    requires Children(th, allowed, valid, n, i, maxDepth, maxFiles, acc, count).result.Ok?
    ensures var run := Children(th, allowed, valid, n, i, maxDepth, maxFiles, acc, count);
      WellFormed(run.result.value.entries) &&
      Size(acc.entries) + count <= Size(run.result.value.entries) + count <= run.count + Size(acc.entries) &&
      (maxFiles.None? ==> run.count + Size(acc.entries) == count + Size(run.result.value.entries)) &&
      (maxFiles.Some? ==>
        Size(run.result.value.entries) + Room(maxFiles.value, run.count) <=
        Size(acc.entries) + Room(maxFiles.value, count))
    decreases n, 0, |n.children| - i, 0
  {
    ChildOk(th, allowed, valid, n, i, maxDepth, maxFiles, acc, count);
    ChildrenSkip(th, allowed, valid, n, i, maxDepth, maxFiles, acc, count);
    ChildrenFacts(th, allowed, valid, n, i + 1, maxDepth, maxFiles, acc, count + 1);
  }

  /** The step of `ChildrenFacts` for a directory child within the bound. */
  lemma {:induction false} ChildDirFacts(th: TreeHost, allowed: seq<Path>, valid: Path, n: Node, i: nat,
                                         maxDepth: Option<nat>, maxFiles: Option<nat>, acc: Listing, count: nat)
    requires WellFormed(acc.entries)
    requires i < |n.children| && n.children[i].kind == Dir
    requires !(maxFiles.Some? && count + 1 > maxFiles.value)
    requires Children(th, allowed, valid, n, i, maxDepth, maxFiles, acc, count).result.Ok?
    ensures var run := Children(th, allowed, valid, n, i, maxDepth, maxFiles, acc, count);
      WellFormed(run.result.value.entries) &&
      Size(acc.entries) + count <= Size(run.result.value.entries) + count <= run.count + Size(acc.entries) &&
      (maxFiles.None? ==> run.count + Size(acc.entries) == count + Size(run.result.value.entries)) &&
      (maxFiles.Some? ==>
        Size(run.result.value.entries) + Room(maxFiles.value, run.count) <=
        Size(acc.entries) + Room(maxFiles.value, count))
    decreases n, 0, |n.children| - i, 0
  {
    var c := n.children[i];
    var cp := Join(valid, c.name);
    var name := FileName(cp).value;
    var next := count + 1;
    var run := Children(th, allowed, valid, n, i, maxDepth, maxFiles, acc, count);
    var sub := Tree(th, allowed, cp, c, NextDepth(maxDepth), maxFiles, next);
    var l := sub.result.value;
    var e := JEntry(name, "directory", true, l.entries);
    var acc' := Listing(acc.entries + [e], acc.reachedMaxDepth || l.reachedMaxDepth);
    ChildOk(th, allowed, valid, n, i, maxDepth, maxFiles, acc, count);
    ChildrenDir(th, allowed, valid, n, i, maxDepth, maxFiles, acc, count);
    TreeFacts(th, allowed, cp, c, NextDepth(maxDepth), maxFiles, next);
    SizeSnoc(acc.entries, e);
    WellFormedSnoc(acc.entries, e);
    ChildrenFacts(th, allowed, valid, n, i + 1, maxDepth, maxFiles, acc', sub.count);
  }

  /** The step of `ChildrenFacts` for a file child within the bound. */
  lemma {:induction false} ChildFileFacts(th: TreeHost, allowed: seq<Path>, valid: Path, n: Node, i: nat,
                                          maxDepth: Option<nat>, maxFiles: Option<nat>, acc: Listing, count: nat)
    requires WellFormed(acc.entries)
    requires i < |n.children| && n.children[i].kind != Dir
    requires !(maxFiles.Some? && count + 1 > maxFiles.value)
    requires Children(th, allowed, valid, n, i, maxDepth, maxFiles, acc, count).result.Ok?
    ensures var run := Children(th, allowed, valid, n, i, maxDepth, maxFiles, acc, count);
      WellFormed(run.result.value.entries) &&
      Size(acc.entries) + count <= Size(run.result.value.entries) + count <= run.count + Size(acc.entries) &&
      (maxFiles.None? ==> run.count + Size(acc.entries) == count + Size(run.result.value.entries)) &&
      (maxFiles.Some? ==>
        Size(run.result.value.entries) + Room(maxFiles.value, run.count) <=
        Size(acc.entries) + Room(maxFiles.value, count))
    decreases n, 0, |n.children| - i, 0
  {
    var c := n.children[i];
    var cp := Join(valid, c.name);
    var name := FileName(cp).value;
    var next := count + 1;
    var run := Children(th, allowed, valid, n, i, maxDepth, maxFiles, acc, count);
    var e := JEntry(name, "file", false, []);
    var acc' := Listing(acc.entries + [e], acc.reachedMaxDepth);
    ChildOk(th, allowed, valid, n, i, maxDepth, maxFiles, acc, count);
    ChildrenFile(th, allowed, valid, n, i, maxDepth, maxFiles, acc, count);
    SizeSnoc(acc.entries, e);
    assert Size(e.children) == 0;
    WellFormedSnoc(acc.entries, e);
    ChildrenFacts(th, allowed, valid, n, i + 1, maxDepth, maxFiles, acc', next);
  }

  // ---------------------------------------------------------------------------------------------
  // calculate_directory_size
  // ---------------------------------------------------------------------------------------------

  // The search every aggregation walks with: the all-files pattern, no exclusions, no size bounds.
  function AllQuery(root: Path, excludes: seq<string>): S.Query {
    S.Query(root, "**/*", excludes, None, None)
  }

  /**
   * `calculate_directory_size`: the search's entries, files only, summed over their readable
   * metadata lengths.
   */
  function DirectorySize(h: G.Host, g: S.Globs, allowed: seq<Path>, root: Path, tree: Option<Node>)
    : (r: SResult<nat>)
    ensures G.ValidatePath(h, root, allowed).Err? ==> r == Err(G.ValidatePath(h, root, allowed).error)
    ensures G.ValidatePath(h, root, allowed).Ok? ==> r.Ok?
  {
    var es :- S.SearchFiles(h, g, S.Monolithic, allowed, AllQuery(root, []), tree);
    Ok(FileSizeSum(es))
  }

  /** Each file of the sum had readable metadata: without size bounds the walk prunes the others. */
  lemma {:induction false} FileSizeSumCounts(es: seq<Entry>, e: Entry)
    requires e in es && e.node.kind == File && e.node.size.Some?
    ensures e.node.size.value <= FileSizeSum(es)
  {
    var k := |es| - 1;
    if es[k] != e {
      assert e in es[..k];
      FileSizeSumCounts(es[..k], e);
    }
  }

  /**
   * The total counts the size of every file the search yields (every one of them has readable
   * metadata), and nothing when no file is yielded.
   */
  lemma DirectorySizeCounts(h: G.Host, g: S.Globs, allowed: seq<Path>, root: Path, tree: Option<Node>)
    requires G.ValidatePath(h, root, allowed).Ok?
    ensures var es := S.SearchFiles(h, g, S.Monolithic, allowed, AllQuery(root, []), tree).value;
      forall e :: e in es && e.node.kind == File ==>
        e.node.size.Some? && e.node.size.value <= DirectorySize(h, g, allowed, root, tree).value
    ensures var es := S.SearchFiles(h, g, S.Monolithic, allowed, AllQuery(root, []), tree).value;
      (forall e :: e in es ==> e.node.kind != File) ==> DirectorySize(h, g, allowed, root, tree).value == 0
  {
    var es := S.SearchFiles(h, g, S.Monolithic, allowed, AllQuery(root, []), tree).value;
    forall e | e in es && e.node.kind == File
      ensures e.node.size.Some? && e.node.size.value <= FileSizeSum(es)
    {
      FileSizeSumCounts(es, e);
    }
    if forall e :: e in es ==> e.node.kind != File {
      NoFilesSumZero(es);
    }
  }

  /**
   * An account of the total that does not depend on the walk's order: over the tree, the readable
   * sizes of the files reached through entries `keep` accepts that `pick` also accepts.
   */
  function ReachedFileSize(p: Path, n: Node, keep: Entry -> bool, pick: Entry -> bool): nat
    decreases n, 1
  {
    if !keep(Entry(p, n)) then 0
    else FileSizeSum(if pick(Entry(p, n)) then [Entry(p, n)] else []) + ReachedChildrenSize(p, n, 0, keep, pick)
  }

  function ReachedChildrenSize(p: Path, n: Node, i: nat, keep: Entry -> bool, pick: Entry -> bool): nat
    decreases n, 0, |n.children| - i
  {
    if i >= |n.children| then 0
    else
      ReachedFileSize(Join(p, n.children[i].name), n.children[i], keep, pick) +
      ReachedChildrenSize(p, n, i + 1, keep, pick)
  }

  /** Summing the selected entries of the walk is summing over the tree. */
  lemma {:induction false} WalkFileSize(p: Path, n: Node, keep: Entry -> bool, pick: Entry -> bool)
    ensures FileSizeSum(S.Select(Walk(p, n, keep), pick)) == ReachedFileSize(p, n, keep, pick)
    decreases n, 1
  {
    if keep(Entry(p, n)) {
      var e := Entry(p, n);
      S.SelectAppend([e], WalkChildren(p, n, 0, keep), pick);
      FileSizeSumAppend(S.Select([e], pick), S.Select(WalkChildren(p, n, 0, keep), pick));
      WalkChildrenFileSize(p, n, 0, keep, pick);
    }
  }

  lemma {:induction false} WalkChildrenFileSize(p: Path, n: Node, i: nat, keep: Entry -> bool, pick: Entry -> bool)
    ensures FileSizeSum(S.Select(WalkChildren(p, n, i, keep), pick)) == ReachedChildrenSize(p, n, i, keep, pick)
    decreases n, 0, |n.children| - i
  {
    if i < |n.children| {
      var cp := Join(p, n.children[i].name);
      var w, rest := Walk(cp, n.children[i], keep), WalkChildren(p, n, i + 1, keep);
      S.SelectAppend(w, rest, pick);
      FileSizeSumAppend(S.Select(w, pick), S.Select(rest, pick));
      WalkFileSize(cp, n.children[i], keep, pick);
      WalkChildrenFileSize(p, n, i + 1, keep, pick);
    }
  }

  /**
   * The total is the sum over the tree at the validated root of the readable file sizes the search
   * keeps and yields, and nothing when nothing can be read there.
   */
  lemma DirectorySizeIsReachedTotal(h: G.Host, g: S.Globs, allowed: seq<Path>, root: Path, tree: Option<Node>)
    requires G.ValidatePath(h, root, allowed).Ok?
    ensures tree.None? ==> DirectorySize(h, g, allowed, root, tree) == Ok(0)
    ensures tree.Some? ==>
      DirectorySize(h, g, allowed, root, tree) ==
      Ok(ReachedFileSize(G.ValidatePath(h, root, allowed).value, tree.value,
                         (x: Entry) => S.KeepEntry(h, g, S.Monolithic, allowed, AllQuery(root, []), x),
                         (x: Entry) => S.Yield(g, S.Monolithic, AllQuery(root, []), x)))
  {
    if tree.Some? {
      WalkFileSize(G.ValidatePath(h, root, allowed).value, tree.value,
                   (x: Entry) => S.KeepEntry(h, g, S.Monolithic, allowed, AllQuery(root, []), x),
                   (x: Entry) => S.Yield(g, S.Monolithic, AllQuery(root, []), x));
    }
  }

  lemma {:induction false} NoFilesSumZero(es: seq<Entry>)
    requires forall e :: e in es ==> e.node.kind != File
    ensures FileSizeSum(es) == 0
  {
    if |es| > 0 {
      NoFilesSumZero(es[..|es| - 1]);
    }
  }

  // ---------------------------------------------------------------------------------------------
  // find_empty_directories
  // ---------------------------------------------------------------------------------------------

  /** `WalkDir::new(dir)` over the directory's subtree holds no file but system metadata files. */
  predicate OnlyMetadata(e: Entry, isSystemMetadata: string -> bool) {
    forall x :: x in Walk(e.path, e.node, (y: Entry) => true) && x.node.kind == File ==>
      isSystemMetadata(EntryName(x))
  }

  /** The paths of the directories among `es` whose subtrees hold only metadata files, in order. */
  function EmptyDirs(es: seq<Entry>, isSystemMetadata: string -> bool): seq<Path> {
    if |es| == 0 then []
    else
      var e := es[|es| - 1];
      EmptyDirs(es[..|es| - 1], isSystemMetadata) +
      (if e.node.kind == Dir && OnlyMetadata(e, isSystemMetadata) then [e.path] else [])
  }

  lemma EmptyDirsIff(es: seq<Entry>, isSystemMetadata: string -> bool, p: Path)
    ensures p in EmptyDirs(es, isSystemMetadata) <==>
      exists i :: 0 <= i < |es| && es[i].node.kind == Dir && OnlyMetadata(es[i], isSystemMetadata) && es[i].path == p
  {
    if p in EmptyDirs(es, isSystemMetadata) {
      EmptyDirsMember(es, isSystemMetadata, p);
    }
    if exists i :: 0 <= i < |es| && es[i].node.kind == Dir && OnlyMetadata(es[i], isSystemMetadata) && es[i].path == p {
      var i :| 0 <= i < |es| && es[i].node.kind == Dir && OnlyMetadata(es[i], isSystemMetadata) && es[i].path == p;
      EmptyDirsHas(es, isSystemMetadata, i);
    }
  }

  /** Every reported path is that of an entry that is a directory holding only metadata. */
  lemma {:induction false} EmptyDirsMember(es: seq<Entry>, isSystemMetadata: string -> bool, p: Path)
    requires p in EmptyDirs(es, isSystemMetadata)
    ensures exists i :: 0 <= i < |es| && es[i].node.kind == Dir && OnlyMetadata(es[i], isSystemMetadata) && es[i].path == p
  {
    var k := |es| - 1;
    var init := es[..k];
    if p in EmptyDirs(init, isSystemMetadata) {
      EmptyDirsMember(init, isSystemMetadata, p);
      var i :| 0 <= i < k && init[i].node.kind == Dir && OnlyMetadata(init[i], isSystemMetadata) && init[i].path == p;
      assert init[i] == es[i];
    } else {
      assert es[k].node.kind == Dir && OnlyMetadata(es[k], isSystemMetadata) && es[k].path == p;
    }
  }

  /** Every directory entry holding only metadata is reported. */
  lemma {:induction false} EmptyDirsHas(es: seq<Entry>, isSystemMetadata: string -> bool, i: nat)
    requires i < |es| && es[i].node.kind == Dir && OnlyMetadata(es[i], isSystemMetadata)
    ensures es[i].path in EmptyDirs(es, isSystemMetadata)
    decreases |es|
  {
    var k := |es| - 1;
    var init := es[..k];
    if i < k {
      assert init[i] == es[i];
      EmptyDirsHas(init, isSystemMetadata, i);
    }
  }

  /** `find_empty_directories`: the search's directories whose subtrees hold only metadata files. */
  function EmptyDirectories(h: G.Host, g: S.Globs, allowed: seq<Path>, root: Path, excludes: Option<seq<string>>,
                            tree: Option<Node>, isSystemMetadata: string -> bool): SResult<seq<Path>>
  {
    var es :- S.SearchFiles(h, g, S.Monolithic, allowed,
                            AllQuery(root, if excludes.Some? then excludes.value else []), tree);
    Ok(EmptyDirs(es, isSystemMetadata))
  }

  /**
   * A path is reported iff it is a directory the search yields (so not the root itself) whose whole
   * subtree holds no file other than system metadata files.
   */
  lemma EmptyDirectoriesIff(h: G.Host, g: S.Globs, allowed: seq<Path>, root: Path, excludes: Option<seq<string>>,
                            tree: Option<Node>, isSystemMetadata: string -> bool, p: Path)
    requires G.ValidatePath(h, root, allowed).Ok?
    ensures EmptyDirectories(h, g, allowed, root, excludes, tree, isSystemMetadata).Ok?
    ensures var q := AllQuery(root, if excludes.Some? then excludes.value else []);
      p in EmptyDirectories(h, g, allowed, root, excludes, tree, isSystemMetadata).value <==>
        exists e :: e in S.SearchFiles(h, g, S.Monolithic, allowed, q, tree).value &&
          e.node.kind == Dir && OnlyMetadata(e, isSystemMetadata) && e.path == p && !SamePath(root, p)
  {
    var q := AllQuery(root, if excludes.Some? then excludes.value else []);
    var es := S.SearchFiles(h, g, S.Monolithic, allowed, q, tree).value;
    EmptyDirsIff(es, isSystemMetadata, p);
    if exists i :: 0 <= i < |es| && es[i].node.kind == Dir && OnlyMetadata(es[i], isSystemMetadata) && es[i].path == p {
      var i :| 0 <= i < |es| && es[i].node.kind == Dir && OnlyMetadata(es[i], isSystemMetadata) && es[i].path == p;
      SearchedIsNotRoot(h, g, allowed, q, tree, es[i]);
    }
  }

  /** The search never yields its own root. */
  lemma SearchedIsNotRoot(h: G.Host, g: S.Globs, allowed: seq<Path>, q: S.Query, tree: Option<Node>, e: Entry)
    requires S.SearchFiles(h, g, S.Monolithic, allowed, q, tree).Ok?
    requires e in S.SearchFiles(h, g, S.Monolithic, allowed, q, tree).value
    ensures !SamePath(q.root, e.path)
  {
    assert S.Yield(g, S.Monolithic, q, e);
  }

  /** The loop of `find_empty_directories`, pushing onto `empty_dirs`. */
  method CollectEmptyDirs(es: seq<Entry>, isSystemMetadata: string -> bool) returns (emptyDirs: seq<Path>)
    ensures emptyDirs == EmptyDirs(es, isSystemMetadata)
  {
    emptyDirs := [];
    var i := 0;
    while i < |es|
      invariant i <= |es|
      invariant emptyDirs == EmptyDirs(es[..i], isSystemMetadata)
    {
      var e := es[i];
      assert es[..i + 1][..i] == es[..i];
      if e.node.kind == Dir && OnlyMetadata(e, isSystemMetadata) {
        emptyDirs := emptyDirs + [e.path];
      }
      i := i + 1;
    }
    assert es[..|es|] == es;
  }

  /** `find_empty_directories`. */
  method FindEmptyDirectories(h: G.Host, g: S.Globs, allowed: seq<Path>, root: Path, excludes: Option<seq<string>>,
                              tree: Option<Node>, isSystemMetadata: string -> bool)
    returns (r: SResult<seq<Path>>)
    ensures r == EmptyDirectories(h, g, allowed, root, excludes, tree, isSystemMetadata)
  {
    var walker := S.SearchFiles(h, g, S.Monolithic, allowed,
                                AllQuery(root, if excludes.Some? then excludes.value else []), tree);
    if walker.Err? {
      return Err(walker.error);
    }
    var emptyDirs := CollectEmptyDirs(walker.value, isSystemMetadata);
    return Ok(emptyDirs);
  }
}
