/**
 * The `list_directory_with_sizes` tool (src/tools/list_directory_with_sizes.rs): the directory's
 * entries sorted by file name, one line per directory or file, then a summary with the counts and
 * the total file size.
 */
module ListDirectoryWithSizesTool {
  import opened Wrappers
  import opened Paths
  import opened FsTree
  import T = Text
  import opened ToolResult

  // ---------------------------------------------------------------------------------------------
  // Sorting by file name (`sort_by_key(|a| a.file_name())`, a stable sort)
  // ---------------------------------------------------------------------------------------------

  predicate NameLe(a: Entry, b: Entry) {
    T.LexLe(EntryName(a), EntryName(b))
  }

  predicate SortedByName(es: seq<Entry>) {
    forall i, j :: 0 <= i < j < |es| ==> NameLe(es[i], es[j])
  }

  /** Inserts `x` after every entry whose name does not sort after it. */
  function Insert(x: Entry, s: seq<Entry>): (r: seq<Entry>)
    ensures |r| == |s| + 1
  {
    if |s| == 0 then [x]
    else if NameLe(s[0], x) then [s[0]] + Insert(x, s[1..])
    else [x] + s
  }

  /** The entries sorted by name, later entries inserted after equal names. */
  function ByName(es: seq<Entry>): (r: seq<Entry>)
    ensures |r| == |es|
  {
    if |es| == 0 then [] else Insert(es[|es| - 1], ByName(es[..|es| - 1]))
  }

  /** Inserting puts `x` between two halves of `s`. */
  lemma {:induction false} InsertSplits(x: Entry, s: seq<Entry>) returns (k: nat)
    ensures k <= |s| && Insert(x, s) == s[..k] + [x] + s[k..]
    decreases |s|
  {
    if |s| > 0 && NameLe(s[0], x) {
      var k' := InsertSplits(x, s[1..]);
      k := k' + 1;
      assert Insert(x, s) == [s[0]] + Insert(x, s[1..]);
      ConsSplit(s, x, k');
    } else {
      k := 0;
      assert s[..0] == [] && s[0..] == s;
    }
  }

  lemma ConsSplit<T>(s: seq<T>, x: T, k: nat)
    requires 0 < |s| && k < |s|
    ensures [s[0]] + (s[1..][..k] + [x] + s[1..][k..]) == s[..k + 1] + [x] + s[k + 1..]
  {
    assert s[..k + 1] == [s[0]] + s[1..][..k];
    assert s[k + 1..] == s[1..][k..];
  }

  lemma Regroup<T>(s: seq<T>, x: T, k: nat)
    requires k <= |s|
    ensures s[..k] + [x] + s[k..] == s[..k] + ([x] + s[k..])
    ensures s + [x] == s[..k] + (s[k..] + [x])
  {
    assert s == s[..k] + s[k..];
  }

  /** The inserted sequence holds `x` and the entries of `s`, and nothing else. */
  lemma InsertMultiset(x: Entry, s: seq<Entry>)
    ensures multiset(Insert(x, s)) == multiset(s) + multiset{x}
  {
    var k := InsertSplits(x, s);
    MultisetSplit(s, x, k);
  }

  lemma MultisetSplit<T>(s: seq<T>, x: T, k: nat)
    requires k <= |s|
    ensures multiset(s[..k] + [x] + s[k..]) == multiset(s) + multiset{x}
  {
    assert s == s[..k] + s[k..];
  }

  lemma MultisetSnoc<T>(s: seq<T>)
    requires |s| > 0
    ensures multiset(s) == multiset(s[..|s| - 1]) + multiset{s[|s| - 1]}
  {
    assert s == s[..|s| - 1] + [s[|s| - 1]];
  }

  lemma InsertMembers(x: Entry, s: seq<Entry>)
    ensures forall y :: y in Insert(x, s) ==> y == x || y in s
  {
    InsertMultiset(x, s);
    forall y | y in Insert(x, s) ensures y == x || y in s {
      assert y in multiset(Insert(x, s));
    }
  }

  /** Sorting is a permutation: the same entries, each as often as before. */
  lemma {:induction false} ByNamePermutation(es: seq<Entry>)
    ensures multiset(ByName(es)) == multiset(es)
    decreases |es|
  {
    if |es| > 0 {
      var init, x := es[..|es| - 1], es[|es| - 1];
      ByNamePermutation(init);
      InsertMultiset(x, ByName(init));
      MultisetSnoc(es);
    }
  }

  lemma {:induction false} InsertSorted(x: Entry, s: seq<Entry>)
    requires SortedByName(s)
    ensures SortedByName(Insert(x, s))
    decreases |s|, 1
  {
    if |s| > 0 && NameLe(s[0], x) {
      InsertAfterHead(x, s);
    } else if |s| > 0 {
      InsertAtHead(x, s);
    }
  }

  /** An entry that sorts after the head goes into the tail, behind the head. */
  lemma {:induction false} InsertAfterHead(x: Entry, s: seq<Entry>)
    requires SortedByName(s) && |s| > 0 && NameLe(s[0], x)
    ensures SortedByName(Insert(x, s))
    decreases |s|, 0
  {
    var t := s[1..];
    InsertSorted(x, t);
    InsertMembers(x, t);
    var r := Insert(x, s);
    assert r == [s[0]] + Insert(x, t);
    forall j | 0 < j < |r| ensures NameLe(r[0], r[j]) {
      var y := r[j];
      assert y in Insert(x, t);
      if y != x {
        var k :| 0 <= k < |t| && t[k] == y;
        assert s[k + 1] == y;
      }
    }
  }

  /** An entry that sorts before the head goes in front. */
  lemma {:induction false} InsertAtHead(x: Entry, s: seq<Entry>)
    requires SortedByName(s) && |s| > 0 && !NameLe(s[0], x)
    ensures SortedByName(Insert(x, s))
  {
    T.LexLeTotal(EntryName(x), EntryName(s[0]));
    var r := [x] + s;
    assert Insert(x, s) == r;
    forall j | 0 < j < |r| ensures NameLe(r[0], r[j]) {
      if j > 1 {
        T.LexLeTrans(EntryName(x), EntryName(s[0]), EntryName(s[j - 1]));
      }
    }
  }

  /** The sorted listing is in name order. */
  lemma {:induction false} ByNameSorted(es: seq<Entry>)
    ensures SortedByName(ByName(es))
    decreases |es|
  {
    if |es| > 0 {
      ByNameSorted(es[..|es| - 1]);
      InsertSorted(es[|es| - 1], ByName(es[..|es| - 1]));
    }
  }

  // ---------------------------------------------------------------------------------------------
  // The listing
  // ---------------------------------------------------------------------------------------------

  /**
   * `entry.path().is_dir()` and `is_file()`: the metadata (links followed) can be read and reports
   * kind `k`; an unreadable metadata makes both false (`unwrap_or(false)`).
   */
  predicate Is(e: Entry, k: Kind) {
    e.node.kind == k && e.node.size.Some?
  }

  /**
   * The output line of one entry; an entry that is neither a directory nor a file, including one
   * whose metadata cannot be read, prints nothing.
   */
  function Row(e: Entry, formatBytes: nat -> string): (r: string)
    ensures r == "" <==> !Is(e, Dir) && !Is(e, File)
    ensures Is(e, Dir) ==> 7 <= |r| && r[..7] == "[DIR]  "
    ensures Is(e, File) ==> 7 <= |r| && r[..7] == "[FILE] "
  {
    if Is(e, Dir) then "[DIR]  " + T.PadRight(EntryName(e), 30) + "\n"
    else if Is(e, File) then
      "[FILE] " + T.PadRight(EntryName(e), 30) + " " + T.PadLeft(formatBytes(e.node.size.value), 10) + "\n"
    else ""
  }

  function Rows(es: seq<Entry>, formatBytes: nat -> string): string {
    if |es| == 0 then "" else Rows(es[..|es| - 1], formatBytes) + Row(es[|es| - 1], formatBytes)
  }

  /** How many entries of `es` the listing reports as being of kind `k`. */
  function Count(es: seq<Entry>, k: Kind): nat {
    if |es| == 0 then 0 else Count(es[..|es| - 1], k) + (if Is(es[|es| - 1], k) then 1 else 0)
  }

  /** The two summary lines. */
  function Summary(files: nat, dirs: nat, total: nat, formatBytes: nat -> string): string {
    "\nTotal: " + T.NatToString(files) + " files, " + T.NatToString(dirs) + " directories\n" +
    "Total size: " + formatBytes(total) + "\n"
  }

  /** `format_directory_entries`: the rows of the sorted entries, then the summary. */
  function Listing(es: seq<Entry>, formatBytes: nat -> string): string {
    var sorted := ByName(es);
    Rows(sorted, formatBytes) + Summary(Count(sorted, File), Count(sorted, Dir), FileSizeSum(sorted), formatBytes)
  }

  /** `format_directory_entries`: the sort, then the loop with its three counters. */
  method FormatDirectoryEntries(entries: seq<Entry>, formatBytes: nat -> string) returns (output: string)
    ensures output == Listing(entries, formatBytes)
  {
    var sorted := ByName(entries);
    var fileCount, dirCount, totalSize;
    output, fileCount, dirCount, totalSize := EntryLines(sorted, formatBytes);
    var totals := "\nTotal: " + T.NatToString(fileCount) + " files, " + T.NatToString(dirCount) + " directories\n";
    var sizeLine := "Total size: " + formatBytes(totalSize) + "\n";
    SummaryPieces(fileCount, dirCount, totalSize, formatBytes, totals, sizeLine);
    ghost var rows := output;
    output := output + totals;
    output := output + sizeLine;
    assert output == rows + (totals + sizeLine);
  }

  lemma SummaryPieces(fileCount: nat, dirCount: nat, totalSize: nat, formatBytes: nat -> string,
                      totals: string, sizeLine: string)
    requires totals == "\nTotal: " + T.NatToString(fileCount) + " files, " + T.NatToString(dirCount) + " directories\n"
    requires sizeLine == "Total size: " + formatBytes(totalSize) + "\n"
    ensures totals + sizeLine == Summary(fileCount, dirCount, totalSize, formatBytes)
  {
  }

  /** The loop over the sorted entries: the rows, the file and directory counts and the size total. */
  method EntryLines(sorted: seq<Entry>, formatBytes: nat -> string)
    returns (output: string, fileCount: nat, dirCount: nat, totalSize: nat)
    ensures output == Rows(sorted, formatBytes)
    ensures fileCount == Count(sorted, File) && dirCount == Count(sorted, Dir)
    ensures totalSize == FileSizeSum(sorted)
  {
    fileCount, dirCount, totalSize, output := 0, 0, 0, "";
    var i := 0;
    while i < |sorted|
      invariant i <= |sorted|
      invariant output == Rows(sorted[..i], formatBytes)
      invariant fileCount == Count(sorted[..i], File) && dirCount == Count(sorted[..i], Dir)
      invariant totalSize == FileSizeSum(sorted[..i])
    {
      Step(sorted, i, formatBytes);
      output, fileCount, dirCount, totalSize := AddEntry(sorted[i], formatBytes, output, fileCount, dirCount, totalSize);
      i := i + 1;
    }
    assert sorted[..|sorted|] == sorted;
  }

  /** The loop body: a directory or a file adds its line and its counter updates, anything else nothing. */
  method AddEntry(e: Entry, formatBytes: nat -> string, output: string, fileCount: nat, dirCount: nat,
                  totalSize: nat)
    returns (output': string, fileCount': nat, dirCount': nat, totalSize': nat)
    ensures output' == output + Row(e, formatBytes)
    ensures fileCount' == fileCount + (if Is(e, File) then 1 else 0)
    ensures dirCount' == dirCount + (if Is(e, Dir) then 1 else 0)
    ensures totalSize' == totalSize + (if Is(e, File) then e.node.size.value else 0)
  {
    output', fileCount', dirCount', totalSize' := output, fileCount, dirCount, totalSize;
    if Is(e, Dir) {
      var line := "[DIR]  " + T.PadRight(EntryName(e), 30) + "\n";
      output' := output + line;
      dirCount' := dirCount + 1;
    } else if Is(e, File) {
      var fileSize := e.node.size.value;
      var line := "[FILE] " + T.PadRight(EntryName(e), 30) + " " + T.PadLeft(formatBytes(fileSize), 10) + "\n";
      output' := output + line;
      fileCount' := fileCount + 1;
      totalSize' := totalSize + fileSize;
    } else {
      assert output + Row(e, formatBytes) == output;
    }
  }

  /** One more entry adds its row and its share of each counter. */
  lemma Step(es: seq<Entry>, i: nat, formatBytes: nat -> string)
    requires i < |es|
    ensures Rows(es[..i + 1], formatBytes) == Rows(es[..i], formatBytes) + Row(es[i], formatBytes)
    ensures Count(es[..i + 1], File) == Count(es[..i], File) + (if Is(es[i], File) then 1 else 0)
    ensures Count(es[..i + 1], Dir) == Count(es[..i], Dir) + (if Is(es[i], Dir) then 1 else 0)
    ensures FileSizeSum(es[..i + 1]) == FileSizeSum(es[..i]) +
      (if es[i].node.kind == File && es[i].node.size.Some? then es[i].node.size.value else 0)
  {
    assert es[..i + 1][..i] == es[..i];
  }

  // ---------------------------------------------------------------------------------------------
  // What the summary reports, independently of the order the entries came in
  // ---------------------------------------------------------------------------------------------

  lemma {:induction false} CountAppend(a: seq<Entry>, b: seq<Entry>, k: Kind)
    ensures Count(a + b, k) == Count(a, k) + Count(b, k)
    decreases |b|
  {
    if |b| == 0 {
      assert a + b == a;
    } else {
      assert (a + b)[..|a + b| - 1] == a + b[..|b| - 1];
      CountAppend(a, b[..|b| - 1], k);
    }
  }

  lemma {:induction false} RowsAppend(a: seq<Entry>, b: seq<Entry>, formatBytes: nat -> string)
    ensures Rows(a + b, formatBytes) == Rows(a, formatBytes) + Rows(b, formatBytes)
    decreases |b|
  {
    if |b| == 0 {
      assert a + b == a;
    } else {
      var init, last := b[..|b| - 1], b[|b| - 1];
      assert (a + b)[..|a + b| - 1] == a + init;
      assert (a + b)[|a + b| - 1] == last;
      RowsAppend(a, init, formatBytes);
      var ra, ri, rl := Rows(a, formatBytes), Rows(init, formatBytes), Row(last, formatBytes);
      assert Rows(b, formatBytes) == ri + rl;
      assert Rows(a + b, formatBytes) == (ra + ri) + rl;
      T.SeqAssoc(ra, ri, rl);
    }
  }

  lemma {:induction false} InsertKeepsTotals(x: Entry, s: seq<Entry>)
    ensures Count(Insert(x, s), File) == Count(s + [x], File)
    ensures Count(Insert(x, s), Dir) == Count(s + [x], Dir)
    ensures FileSizeSum(Insert(x, s)) == FileSizeSum(s + [x])
  {
    var k := InsertSplits(x, s);
    var a, b := s[..k], s[k..];
    Regroup(s, x, k);
    CountMove(a, x, b, File);
    CountMove(a, x, b, Dir);
    SizeMove(a, x, b);
  }

  lemma CountMove(a: seq<Entry>, x: Entry, b: seq<Entry>, k: Kind)
    ensures Count(a + ([x] + b), k) == Count(a + (b + [x]), k)
  {
    CountAppend(a, [x] + b, k);
    CountAppend([x], b, k);
    CountAppend(a, b + [x], k);
    CountAppend(b, [x], k);
  }

  lemma SizeMove(a: seq<Entry>, x: Entry, b: seq<Entry>)
    ensures FileSizeSum(a + ([x] + b)) == FileSizeSum(a + (b + [x]))
  {
    FileSizeSumAppend(a, [x] + b);
    FileSizeSumAppend([x], b);
    FileSizeSumAppend(a, b + [x]);
    FileSizeSumAppend(b, [x]);
  }

  /** Sorting changes neither the counts nor the total. */
  lemma {:induction false} ByNameKeepsTotals(es: seq<Entry>)
    ensures Count(ByName(es), File) == Count(es, File)
    ensures Count(ByName(es), Dir) == Count(es, Dir)
    ensures FileSizeSum(ByName(es)) == FileSizeSum(es)
    decreases |es|
  {
    if |es| > 0 {
      var init := es[..|es| - 1];
      var x := es[|es| - 1];
      var sortedInit := ByName(init);
      ByNameKeepsTotals(init);
      InsertKeepsTotals(x, sortedInit);
      assert ByName(es) == Insert(x, sortedInit);
      assert (sortedInit + [x])[..|sortedInit|] == sortedInit;
    }
  }

  /**
   * The listing ends with the summary of the entries as given: the number of directories and of
   * files whose metadata can be read and the sum of those files' sizes, whatever order the entries
   * came in; everything before it is the rows of the entries in name order.
   */
  lemma ListingSummary(es: seq<Entry>, formatBytes: nat -> string)
    ensures Listing(es, formatBytes) ==
      Rows(ByName(es), formatBytes) + Summary(Count(es, File), Count(es, Dir), FileSizeSum(es), formatBytes)
    ensures SortedByName(ByName(es)) && multiset(ByName(es)) == multiset(es)
  {
    ByNamePermutation(es);
    ByNameKeepsTotals(es);
    ByNameSorted(es);
  }

  /**
   * An entry that is neither a directory nor a file, in particular one whose metadata cannot be
   * read, changes nothing in the listing: no row, no count, no size.
   */
  lemma UnlistedEntrySkipped(es: seq<Entry>, x: Entry, formatBytes: nat -> string)
    requires !Is(x, Dir) && !Is(x, File)
    ensures Listing(es + [x], formatBytes) == Listing(es, formatBytes)
  {
    assert (es + [x])[..|es|] == es;
    var s := ByName(es);
    assert ByName(es + [x]) == Insert(x, s);
    var k := InsertSplits(x, s);
    Regroup(s, x, k);
    RowsSkip(s[..k], x, s[k..], formatBytes);
    assert s[..k] + s[k..] == s;
    InsertKeepsTotals(x, s);
    CountAppend(s, [x], File);
    CountAppend(s, [x], Dir);
    FileSizeSumAppend(s, [x]);
    assert [x][..0] == [];
  }

  lemma RowsSkip(a: seq<Entry>, x: Entry, b: seq<Entry>, formatBytes: nat -> string)
    requires !Is(x, Dir) && !Is(x, File)
    ensures Rows(a + [x] + b, formatBytes) == Rows(a + b, formatBytes)
  {
    RowsAppend(a + [x], b, formatBytes);
    RowsAppend(a, [x], formatBytes);
    RowsAppend(a, b, formatBytes);
    assert [x][..0] == [];
    var ra, rx, rb := Rows(a, formatBytes), Rows([x], formatBytes), Rows(b, formatBytes);
    assert rx == "";
    assert Rows(a + [x], formatBytes) == ra + rx == ra;
  }

  /**
   * `run_tool`: `listed` is what `list_directory` returns for the path (its entries, or the error
   * that fails the call); the listing becomes the text of the result.
   */
  method RunTool(listed: SResult<seq<Entry>>, formatBytes: nat -> string) returns (r: SResult<CallResult>)
    ensures listed.Err? ==> r == Err(listed.error)
    ensures listed.Ok? ==> r == Ok(TextContent(Listing(listed.value, formatBytes), None))
  {
    if listed.Err? {
      return Err(listed.error);
    }
    var output := FormatDirectoryEntries(listed.value, formatBytes);
    return Ok(TextContent(output, None));
  }
}
