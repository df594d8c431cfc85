/**
 * `search_files_iter` and `search_files` (src/fs_service/search/files.rs, with the monolithic copy
 * in src/fs_service.rs): pattern normalisation, the pruning `filter_entry` predicate, the size
 * filter and the final name filter.
 */
module FileSearch {
  import opened Wrappers
  import opened Paths
  import opened FsTree
  import T = Text
  import G = PathGuard
  import L = Limits

  /**
   * The two glob engines: `glob_match::glob_match(pattern, text)`, and `glob::Pattern::new(pattern)`
   * followed by `matches(text)`, which is `None` when the pattern does not compile.
   */
  datatype Globs = Globs(globMatch: (string, string) -> bool, pattern: (string, string) -> Option<bool>)

  /** The split copy (`glob_match`) or the monolithic copy (`glob::Pattern`) of the search. */
  datatype Engine = Split | Monolithic

  /** A match in the engine's terms; a pattern that does not compile matches nothing. */
  predicate Matches(g: Globs, engine: Engine, pattern: string, text: string) {
    match engine
    case Split => g.globMatch(pattern, text)
    case Monolithic => g.pattern(pattern, text) == Some(true)
  }

  // The file-name pattern: lower-cased when it holds a `*`, otherwise the lower-cased substring
  // search "**/*p*". The result always holds a `*`, so normalising twice changes nothing.
  function NamePattern(pattern: string): (r: string)
    ensures '*' in r
    ensures forall i :: 0 <= i < |r| ==> !('A' <= r[i] <= 'Z')
    ensures '*' in pattern ==> r == T.Lower(pattern)
    ensures '*' !in pattern ==>
      |r| == |pattern| + 5 && r[..4] == "**/*" && r[|r| - 1] == '*' && r[4..|r| - 1] == T.Lower(pattern)
  {
    T.LowerIdempotent(pattern);
    if '*' in pattern then
      var i :| 0 <= i < |pattern| && pattern[i] == '*';
      assert T.Lower(pattern)[i] == '*';
      T.Lower(pattern)
    else
      var r := "**/*" + T.Lower(pattern) + "*";
      assert r[0] == '*';
      assert forall i :: 0 <= i < |r| ==> r[i] in "**/*" || r[i] in T.Lower(pattern) || r[i] == '*';
      r
  }

  lemma NamePatternIdempotent(pattern: string)
    ensures NamePattern(NamePattern(pattern)) == NamePattern(pattern)
  {
    var r := NamePattern(pattern);
    assert T.Lower(r) == r by {
      forall i | 0 <= i < |r| ensures T.Lower(r)[i] == r[i] { }
    }
  }

  /**
   * An exclude pattern: with a `*` it is used as given, except that the split copy strips one
   * leading `/`; without one it becomes the substring search `*p*`.
   */
  function ExcludePattern(engine: Engine, pattern: string): (r: string)
    ensures '*' in pattern ==> '*' in r
    ensures '*' in pattern && engine == Split && |pattern| > 0 && pattern[0] == '/' ==> "/" + r == pattern
    ensures '*' in pattern && (engine == Monolithic || |pattern| == 0 || pattern[0] != '/') ==> r == pattern
    ensures '*' !in pattern ==> r == "*" + pattern + "*"
  {
    if '*' in pattern then
      if engine == Split && "/" <= pattern then
        assert pattern == "/" + pattern[1..];
        assert pattern[0] != '*';
        pattern[1..]
      else pattern
    else "*" + pattern + "*"
  }

  /** `Path::strip_prefix`: the components after `base`, rendered with `/`. */
  function StripPrefix(p: Path, base: Path): Option<string> {
    var cs := Components(p);
    var bs := Components(base);
    if bs <= cs then Some(Render(cs[|bs|..])) else None
  }

  function Render(cs: seq<Component>): string {
    if |cs| == 0 then ""
    else
      var head := match cs[0] case RootDir => "" case CurDir => "." case ParentDir => ".." case Normal(n) => n;
      if |cs| == 1 then (if cs[0] == RootDir then "/" else head)
      else if cs[0] == RootDir then "/" + Render(cs[1..])
      else head + "/" + Render(cs[1..])
  }

  /** `full_path.strip_prefix(root_path).unwrap_or(full_path)`. */
  function RelativePath(full: Path, root: Path): string {
    match StripPrefix(full, root)
    case Some(r) => r
    case None => full
  }

  /** The search's parameters. */
  datatype Query = Query(root: Path, pattern: string, excludes: seq<string>,
                         minBytes: Option<nat>, maxBytes: Option<nat>)

  predicate Excluded(g: Globs, engine: Engine, excludes: seq<string>, relative: string) {
    exists i :: 0 <= i < |excludes| && Matches(g, engine, ExcludePattern(engine, excludes[i]), relative)
  }

  /** The size filter runs only when a bound is missing; unreadable metadata then excludes. */
  predicate SizeAdmits(q: Query, n: Node) {
    (q.minBytes.Some? && q.maxBytes.Some?) ||
    (n.size.Some? && L.FilesizeInRange(n.size.value, q.minBytes, q.maxBytes))
  }

  /** The `filter_entry` predicate: an entry it rejects is pruned with its subtree. */
  predicate KeepEntry(h: G.Host, g: Globs, engine: Engine, allowed: seq<Path>, q: Query, e: Entry) {
    G.ValidatePath(h, e.path, allowed).Ok? &&
    !Excluded(g, engine, q.excludes, RelativePath(e.path, q.root)) &&
    SizeAdmits(q, e.node)
  }

  /** The final `filter`: not the requested root itself, and the lower-cased name matches. */
  predicate Yield(g: Globs, engine: Engine, q: Query, e: Entry) {
    !SamePath(q.root, e.path) && Matches(g, engine, NamePattern(q.pattern), T.Lower(EntryName(e)))
  }

  function Select(es: seq<Entry>, f: Entry -> bool): (r: seq<Entry>)
    ensures forall e :: e in r <==> e in es && f(e)
    ensures |r| <= |es|
  {
    if |es| == 0 then [] else (if f(es[0]) then [es[0]] else []) + Select(es[1..], f)
  }

  /** Selecting from a concatenation selects from each part. */
  lemma {:induction false} SelectAppend(a: seq<Entry>, b: seq<Entry>, f: Entry -> bool)
    ensures Select(a + b, f) == Select(a, f) + Select(b, f)
  {
    if |a| == 0 {
      assert a + b == b;
    } else {
      assert (a + b)[0] == a[0];
      assert (a + b)[1..] == a[1..] + b;
      SelectAppend(a[1..], b, f);
    }
  }

  /**
   * `search_files_iter` / `search_files`. `tree` is what the filesystem holds at the validated root
   * (`None` when nothing can be read there, where `WalkDir` yields only an error).
   */
  function SearchFiles(h: G.Host, g: Globs, engine: Engine, allowed: seq<Path>, q: Query,
                       tree: Option<Node>): (r: SResult<seq<Entry>>)
    ensures G.ValidatePath(h, q.root, allowed).Err? ==> r == Err(G.ValidatePath(h, q.root, allowed).error)
    ensures G.ValidatePath(h, q.root, allowed).Ok? ==> r.Ok?
    ensures r.Ok? ==> forall e :: e in r.value ==>
      Yield(g, engine, q, e) && KeepEntry(h, g, engine, allowed, q, e)
  {
    var valid :- G.ValidatePath(h, q.root, allowed);
    match tree
    case None => Ok([])
    case Some(t) =>
      var keep := (e: Entry) => KeepEntry(h, g, engine, allowed, q, e);
      var walked := Walk(valid, t, keep);
      var r := Select(walked, (e: Entry) => Yield(g, engine, q, e));
      assert forall e :: e in r ==> keep(e) by {
        forall e | e in r ensures keep(e) {
          WalkIff(valid, t, e, keep);
          WalkKept(valid, t, e, keep);
        }
      }
      Ok(r)
  }

  /**
   * What the search yields, independently of the walk: exactly the entries reached from the
   * validated root through entries that all pass `filter_entry`, that the final filter accepts.
   */
  lemma SearchFilesIff(h: G.Host, g: Globs, engine: Engine, allowed: seq<Path>, q: Query, t: Node, e: Entry)
    requires G.ValidatePath(h, q.root, allowed).Ok?
    ensures e in SearchFiles(h, g, engine, allowed, q, Some(t)).value <==>
      Reaches(G.ValidatePath(h, q.root, allowed).value, t, e,
              (x: Entry) => KeepEntry(h, g, engine, allowed, q, x)) &&
      Yield(g, engine, q, e)
  {
    WalkIff(G.ValidatePath(h, q.root, allowed).value, t, e, (x: Entry) => KeepEntry(h, g, engine, allowed, q, x));
  }

  /**
   * Pruning: when `filter_entry` rejects a child of an entry, nothing inside that child's subtree
   * is yielded, whether or not it would pass on its own.
   */
  lemma {:induction false} PrunedChildYieldsNothing(p: Path, n: Node, i: nat, e: Entry, keep: Entry -> bool)
    requires i < |n.children|
    requires !keep(Entry(Join(p, n.children[i].name), n.children[i]))
    ensures e !in Walk(Join(p, n.children[i].name), n.children[i], keep)
  {
    WalkIff(Join(p, n.children[i].name), n.children[i], e, keep);
  }

  /** With both bounds given no entry is excluded for its size, not even one with unreadable metadata. */
  lemma BothBoundsSkipSizeFilter(q: Query, n: Node)
    requires q.minBytes.Some? && q.maxBytes.Some?
    ensures SizeAdmits(q, n)
  {
  }

  /** With a bound missing, an unreadable or out-of-range size excludes the entry. */
  lemma MissingBoundFiltersSize(q: Query, n: Node)
    requires q.minBytes.None? || q.maxBytes.None?
    ensures SizeAdmits(q, n) <==>
      n.size.Some? && (q.maxBytes.None? || n.size.value <= q.maxBytes.value) &&
      (q.minBytes.None? || n.size.value >= q.minBytes.value)
  {
  }
}
