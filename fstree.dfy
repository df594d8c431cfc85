/**
 * The filesystem as the core sees it: a tree of entries with a kind, readable-or-not metadata
 * (its length) and readable-or-not contents, walked in pre-order the way `walkdir::WalkDir` with
 * `filter_entry` walks it.
 */
module FsTree {
  import opened Wrappers
  import opened Paths

  /** What `file_type()` reports (links are followed, so a link reports its target's kind). */
  datatype Kind = File | Dir | Other

  /**
   * One filesystem entry. `size` is `metadata().len()`, absent when the metadata cannot be read;
   * `content` is the file's contents, absent when the file cannot be opened or read.
   */
  datatype Node = Node(name: string, kind: Kind, size: Option<nat>, content: Option<string>,
                       children: seq<Node>)

  /** A `walkdir::DirEntry`: the path the walk built and the entry found there. */
  datatype Entry = Entry(path: Path, node: Node)

  /** `DirEntry::file_name`: the last component, or the whole path when it has none. */
  function EntryName(e: Entry): string {
    match FileName(e.path)
    case Some(n) => n
    case None => e.path
  }

  /**
   * `WalkDir::new(p).into_iter().filter_entry(keep)`: the entry is yielded when `keep` accepts it,
   * then its children's walks in order; an entry `keep` rejects is skipped with its whole subtree.
   */
  function Walk(p: Path, n: Node, keep: Entry -> bool): seq<Entry>
    decreases n, 1, 0
  {
    if !keep(Entry(p, n)) then [] else [Entry(p, n)] + WalkChildren(p, n, 0, keep)
  }

  /** The walks of the children `i..` of `n`, concatenated. */
  function WalkChildren(p: Path, n: Node, i: nat, keep: Entry -> bool): seq<Entry>
    decreases n, 0, |n.children| - i
  {
    if i >= |n.children| then []
    else Walk(Join(p, n.children[i].name), n.children[i], keep) + WalkChildren(p, n, i + 1, keep)
  }

  /**
   * An independent description of what the walk yields: `e` is reached from `Entry(p, n)` along
   * a chain of parent-child steps every one of which `keep` accepts.
   */
  predicate Reaches(p: Path, n: Node, e: Entry, keep: Entry -> bool)
    decreases n
  {
    keep(Entry(p, n)) &&
    (e == Entry(p, n) ||
     exists i :: 0 <= i < |n.children| && Reaches(Join(p, n.children[i].name), n.children[i], e, keep))
  }

  /** The walk yields exactly the entries reached through accepted ancestors. */
  lemma {:induction false} WalkIff(p: Path, n: Node, e: Entry, keep: Entry -> bool)
    ensures e in Walk(p, n, keep) <==> Reaches(p, n, e, keep)
    decreases n, 1, 0
  {
    if keep(Entry(p, n)) {
      WalkChildrenIff(p, n, 0, e, keep);
    }
  }

  lemma {:induction false} WalkChildrenIff(p: Path, n: Node, i: nat, e: Entry, keep: Entry -> bool)
    ensures e in WalkChildren(p, n, i, keep) <==>
      exists j :: i <= j < |n.children| && Reaches(Join(p, n.children[j].name), n.children[j], e, keep)
    decreases n, 0, |n.children| - i
  {
    if i < |n.children| {
      WalkIff(Join(p, n.children[i].name), n.children[i], e, keep);
      WalkChildrenIff(p, n, i + 1, e, keep);
    }
  }

  /** Everything the walk yields is accepted by `keep`: a rejected entry is never yielded. */
  lemma {:induction false} WalkKept(p: Path, n: Node, e: Entry, keep: Entry -> bool)
    requires Reaches(p, n, e, keep)
    ensures keep(e)
    decreases n
  {
    if e != Entry(p, n) {
      var i :| 0 <= i < |n.children| && Reaches(Join(p, n.children[i].name), n.children[i], e, keep);
      WalkKept(Join(p, n.children[i].name), n.children[i], e, keep);
    }
  }

  /** The sum of the readable sizes of the file entries among `es`. */
  function FileSizeSum(es: seq<Entry>): nat {
    if |es| == 0 then 0
    else
      var e := es[|es| - 1];
      FileSizeSum(es[..|es| - 1]) + (if e.node.kind == File && e.node.size.Some? then e.node.size.value else 0)
  }

  lemma {:induction false} FileSizeSumAppend(a: seq<Entry>, b: seq<Entry>)
    ensures FileSizeSum(a + b) == FileSizeSum(a) + FileSizeSum(b)
    decreases |b|
  {
    if |b| == 0 {
      assert a + b == a;
    } else {
      assert (a + b)[..|a + b| - 1] == a + b[..|b| - 1];
      FileSizeSumAppend(a, b[..|b| - 1]);
    }
  }
}
