/**
 * `zip_directory` and `zip_files` (src/fs_service/archive/zip.rs): the checks made before the
 * archive is created, the selection of the directory's entries, the naming of each archive entry
 * and the message reported on success. The archive itself is the sequence of entries written to
 * it, in order.
 */
module Zip {
  import opened Wrappers
  import opened Paths
  import opened FsTree
  import T = Text
  import G = PathGuard

  /**
   * What zipping asks of its environment: `glob_match`, `Path::exists` on the target,
   * `write_zip_entry` (which reads the source file into the archive, and may fail), the archive's
   * length read back after `close` (absent when its metadata cannot be read) and `format_bytes`.
   */
  datatype ZipHost = ZipHost(
    globMatch: (string, string) -> bool,
    targetExists: Path -> bool,
    writeEntry: (string, Path) -> SResult<()>,
    archiveSize: Option<nat>,
    formatBytes: nat -> string)

  /** One archive entry: its name inside the archive and the file it was read from. */
  datatype ZipEntry = ZipEntry(name: string, source: Path)

  /**
   * The observable outcome of a call: its result, and the archive's entries when the archive was
   * created (`None` when an error was returned before `File::create`). An error raised while
   * writing leaves the archive with the entries written so far.
   */
  datatype Outcome = Outcome(result: SResult<string>, archive: Option<seq<ZipEntry>>)

  /** How far writing got: the entries written, and the error that stopped it, if any. */
  datatype Progress = Progress(written: seq<ZipEntry>, failure: Option<ServiceError>)

  const StartMismatchMessage: string := "Entry file path does not start with base input directory path."
  const EmptyInputMessage: string := "No file(s) to zip. The input files array is empty."
  const InvalidPathMessage: string := "Invalid path!"

  function ExistsMessage(target: string): string {
    "'" + target + "' already exists!"
  }

  /** The archive's size as reported, or "unknown" when its metadata cannot be read. */
  function SizeText(zh: ZipHost): string {
    match zh.archiveSize
    case Some(n) => zh.formatBytes(n)
    case None => "unknown"
  }

  /** The directory pattern: lower-cased, and wrapped as `*p*` when it holds no `*`. */
  function ZipPattern(pattern: string): (r: string)
    ensures '*' in pattern ==> r == T.Lower(pattern)
    ensures '*' !in pattern ==> r == "*" + T.Lower(pattern) + "*"
    ensures '*' in r
    ensures forall i :: 0 <= i < |r| ==> !('A' <= r[i] <= 'Z')
  {
    if '*' in pattern then
      var i :| 0 <= i < |pattern| && pattern[i] == '*';
      assert T.Lower(pattern)[i] == '*';
      T.Lower(pattern)
    else
      var r := "*" + T.Lower(pattern) + "*";
      assert r[0] == '*';
      assert forall i :: 0 <= i < |r| ==> r[i] == '*' || r[i] in T.Lower(pattern);
      r
  }

  // ---------------------------------------------------------------------------------------------
  // Entry naming
  // ---------------------------------------------------------------------------------------------

  /**
   * The name of an archive entry, as the code writes it: the entry's path with as many characters
   * removed as the input directory has, plus one for the separator.
   */
  function RelativeNameAsWritten(entry: string, dir: string): string
    requires |dir| < |entry|
  {
    entry[|dir| + 1..]
  }

  /**
   * The intended name: the entry's path with the input directory removed, then one separator when
   * one follows.
   */
  function RelativeName(entry: string, dir: string): (r: string)
    requires dir <= entry
    ensures |r| <= |entry| - |dir|
  {
    var rest := entry[|dir|..];
    if |rest| > 0 && rest[0] == '/' then rest[1..] else rest
  }

  /**
   * Below a non-empty directory, an entry reached by joining a relative path is named by that
   * relative path, with or without a trailing separator on the directory.
   */
  lemma RelativeNameOfJoin(dir: Path, rel: Path)
    requires dir != "" && !IsAbsolute(rel)
    ensures dir <= Join(dir, rel)
    ensures RelativeName(Join(dir, rel), dir) == rel
  {
    if dir[|dir| - 1] == '/' {
      assert Join(dir, rel)[|dir|..] == rel;
    } else {
      assert Join(dir, rel)[|dir|..] == "/" + rel;
      assert ("/" + rel)[1..] == rel;
    }
  }

  /** Without a trailing separator on the directory, the code's name is the intended one. */
  lemma AsWrittenAgreesWithoutTrailingSlash(dir: Path, rel: Path)
    requires dir != "" && dir[|dir| - 1] != '/' && !IsAbsolute(rel)
    ensures |dir| < |Join(dir, rel)|
    ensures RelativeNameAsWritten(Join(dir, rel), dir) == rel
  {
    assert Join(dir, rel) == dir + "/" + rel;
    assert Join(dir, rel)[|dir| + 1..] == rel;
  }

  /**
   * With the input directory given as `/d/`, the file `/d/ab` is archived as `b`: `PathBuf::join`
   * added no separator, yet the code skips one character for it.
   */
  lemma TrailingSlashDropsCharacter()
    ensures |"/d/"| < |Join("/d/", "ab")|
    ensures RelativeNameAsWritten(Join("/d/", "ab"), "/d/") == "b"
    ensures RelativeName(Join("/d/", "ab"), "/d/") == "ab"
  {
    assert Join("/d/", "ab") == "/d/ab";
    RelativeNameOfJoin("/d/", "ab");
  }

  // ---------------------------------------------------------------------------------------------
  // zip_directory
  // ---------------------------------------------------------------------------------------------

  /** What `WalkDir::new(dir)` yields when nothing is filtered; an unreadable root yields nothing. */
  function WalkedEntries(dir: Path, tree: Option<Node>): seq<Entry> {
    match tree
    case None => []
    case Some(t) => Walk(dir, t, (e: Entry) => true)
  }

  /** The `filter_map` over the walk: an entry is kept with its validated path. */
  predicate Selects(h: G.Host, zh: ZipHost, allowed: seq<Path>, dir: Path, pat: string, e: Entry) {
    var v := G.ValidatePath(h, e.path, allowed);
    v.Ok? && !SamePath(v.value, dir) && zh.globMatch(pat, v.value)
  }

  /** `c` is what the `filter_map` makes of the walked entry `e`. */
  predicate Picks(h: G.Host, zh: ZipHost, allowed: seq<Path>, dir: Path, pat: string, e: Entry, c: Entry) {
    Selects(h, zh, allowed, dir, pat, e) && c == Entry(G.ValidatePath(h, e.path, allowed).value, e.node)
  }

  /** What one walked entry contributes to the selection. */
  function Pick(h: G.Host, zh: ZipHost, allowed: seq<Path>, dir: Path, pat: string, e: Entry): (r: seq<Entry>)
    ensures forall c :: c in r <==> Picks(h, zh, allowed, dir, pat, e, c)
  {
    if Selects(h, zh, allowed, dir, pat, e) then [Entry(G.ValidatePath(h, e.path, allowed).value, e.node)] else []
  }

  lemma PickHas(h: G.Host, zh: ZipHost, allowed: seq<Path>, dir: Path, pat: string, e: Entry, c: Entry)
    requires Picks(h, zh, allowed, dir, pat, e, c)
    ensures c in Pick(h, zh, allowed, dir, pat, e)
  {
  }

  /** The validated, matching entries of the walk other than the directory itself, in walk order. */
  function Candidates(h: G.Host, zh: ZipHost, allowed: seq<Path>, dir: Path, pat: string, es: seq<Entry>)
    : seq<Entry>
  {
    if |es| == 0 then []
    else Candidates(h, zh, allowed, dir, pat, es[..|es| - 1]) + Pick(h, zh, allowed, dir, pat, es[|es| - 1])
  }

  /** An entry is a candidate iff it is what the filter made of some walked entry. */
  lemma {:induction false} CandidatesIff(h: G.Host, zh: ZipHost, allowed: seq<Path>, dir: Path, pat: string,
                                         es: seq<Entry>, c: Entry)
    ensures c in Candidates(h, zh, allowed, dir, pat, es) <==>
      exists i :: 0 <= i < |es| && Picks(h, zh, allowed, dir, pat, es[i], c)
  {
    if |es| > 0 {
      var k := |es| - 1;
      var init := es[..k];
      CandidatesIff(h, zh, allowed, dir, pat, init, c);
      assert Candidates(h, zh, allowed, dir, pat, es) ==
        Candidates(h, zh, allowed, dir, pat, init) + Pick(h, zh, allowed, dir, pat, es[k]);
      if c in Candidates(h, zh, allowed, dir, pat, es) && c !in Candidates(h, zh, allowed, dir, pat, init) {
        assert Picks(h, zh, allowed, dir, pat, es[k], c);
      }
      if exists i :: 0 <= i < |es| && Picks(h, zh, allowed, dir, pat, es[i], c) {
        var i :| 0 <= i < |es| && Picks(h, zh, allowed, dir, pat, es[i], c);
        if i < k {
          assert init[i] == es[i];
        } else {
          assert i == k;
          PickHas(h, zh, allowed, dir, pat, es[k], c);
        }
      }
    }
  }

  /**
   * How the writing loop names an entry: `AsWritten` is the code's slice, which skips one character
   * after the input directory; `Intended` is the path relative to the directory (see Findings).
   */
  datatype Naming = AsWritten | Intended

  /** The name of `entry` can be taken: it extends `dir`, and the code's slice stays in range. */
  predicate Nameable(rule: Naming, dir: string, entry: string) {
    dir <= entry && (rule == Intended || |dir| < |entry|)
  }

  function EntryName(rule: Naming, entry: string, dir: string): string
    requires Nameable(rule, dir, entry)
  {
    match rule
    case AsWritten => RelativeNameAsWritten(entry, dir)
    case Intended => RelativeName(entry, dir)
  }

  /** The panic of a slice that starts past the end of the entry's path, reported as a failure. */
  const SliceOutOfRangeMessage: string := "byte index out of range"

  /** One turn of the writing loop: directories are skipped, files are checked, named and written. */
  function DirStep(zh: ZipHost, rule: Naming, dir: Path, written: seq<ZipEntry>, c: Entry): Progress {
    if c.node.kind == Dir then Progress(written, None)
    else if !(dir <= c.path) then Progress(written, Some(Io(InvalidInput, StartMismatchMessage)))
    else if !Nameable(rule, dir, c.path) then Progress(written, Some(Internal(SliceOutOfRangeMessage)))
    else
      var name := EntryName(rule, c.path, dir);
      match zh.writeEntry(name, c.path)
      case Err(e) => Progress(written, Some(e))
      case Ok(_) => Progress(written + [ZipEntry(name, c.path)], None)
  }

  /** The writing loop over `cs`, stopping at the first error. */
  function WriteDir(zh: ZipHost, rule: Naming, dir: Path, cs: seq<Entry>): Progress {
    if |cs| == 0 then Progress([], None)
    else
      var p := WriteDir(zh, rule, dir, cs[..|cs| - 1]);
      if p.failure.Some? then p else DirStep(zh, rule, dir, p.written, cs[|cs| - 1])
  }

  /** A file of `cs` that the loop can archive: its path extends the directory and it can be written. */
  predicate Writable(zh: ZipHost, rule: Naming, dir: Path, c: Entry) {
    c.node.kind == Dir ||
    (Nameable(rule, dir, c.path) && zh.writeEntry(EntryName(rule, c.path, dir), c.path).Ok?)
  }

  /** Every non-directory of `cs` can be named. */
  predicate AllNameable(rule: Naming, dir: Path, cs: seq<Entry>) {
    forall i :: 0 <= i < |cs| && cs[i].node.kind != Dir ==> Nameable(rule, dir, cs[i].path)
  }

  /** The entries a loop that meets no error writes: every non-directory, named, in order. */
  function DirArchive(rule: Naming, dir: Path, cs: seq<Entry>): seq<ZipEntry>
    requires AllNameable(rule, dir, cs)
  {
    if |cs| == 0 then []
    else
      var c := cs[|cs| - 1];
      DirArchive(rule, dir, cs[..|cs| - 1]) +
        (if c.node.kind == Dir then [] else [ZipEntry(EntryName(rule, c.path, dir), c.path)])
  }

  /**
   * The loop succeeds iff every candidate can be archived, and then it writes exactly the
   * non-directory candidates, each named from its path and the directory, in walk order.
   */
  lemma {:induction false} WriteDirIff(zh: ZipHost, rule: Naming, dir: Path, cs: seq<Entry>)
    ensures WriteDir(zh, rule, dir, cs).failure.None? <==> forall i :: 0 <= i < |cs| ==> Writable(zh, rule, dir, cs[i])
    ensures WriteDir(zh, rule, dir, cs).failure.None? ==>
      AllNameable(rule, dir, cs) && WriteDir(zh, rule, dir, cs).written == DirArchive(rule, dir, cs)
  {
    if |cs| > 0 {
      var k := |cs| - 1;
      var init := cs[..k];
      WriteDirIff(zh, rule, dir, init);
      assert forall i :: 0 <= i < k ==> init[i] == cs[i];
      var p := WriteDir(zh, rule, dir, init);
      if p.failure.None? {
        assert WriteDir(zh, rule, dir, cs) == DirStep(zh, rule, dir, p.written, cs[k]);
      } else {
        assert !Writable(zh, rule, dir, cs[..k][k - 1]) || exists i :: 0 <= i < k && !Writable(zh, rule, dir, init[i]);
      }
    }
  }

  /** Once the loop has failed, later entries change nothing. */
  lemma {:induction false} WriteDirStopped(zh: ZipHost, rule: Naming, dir: Path, cs: seq<Entry>, k: nat)
    requires k <= |cs| && WriteDir(zh, rule, dir, cs[..k]).failure.Some?
    ensures WriteDir(zh, rule, dir, cs) == WriteDir(zh, rule, dir, cs[..k])
    decreases |cs| - k
  {
    if k < |cs| {
      assert cs[..k + 1][..k] == cs[..k];
      WriteDirStopped(zh, rule, dir, cs, k + 1);
    } else {
      assert cs[..k] == cs;
    }
  }

  /**
   * When a separator follows the directory in every file's path, the code's names are the
   * intended ones, and the two loops write the same archive.
   */
  lemma {:induction false} NamingsAgree(zh: ZipHost, dir: Path, cs: seq<Entry>)
    requires SeparatedBelow(dir, cs)
    ensures WriteDir(zh, AsWritten, dir, cs) == WriteDir(zh, Intended, dir, cs)
  {
    if |cs| > 0 {
      var k := |cs| - 1;
      assert forall i :: 0 <= i < k ==> cs[..k][i] == cs[i];
      NamingsAgree(zh, dir, cs[..k]);
      var c := cs[k];
      if c.node.kind != Dir {
        assert (dir + "/")[..|dir|] == dir;
        assert c.path[..|dir|] == dir;
        assert c.path[|dir|] == '/';
        assert EntryName(AsWritten, c.path, dir) == EntryName(Intended, c.path, dir);
      }
    }
  }

  /** A separator follows `dir` in the path of every non-directory of `cs`. */
  predicate SeparatedBelow(dir: Path, cs: seq<Entry>) {
    forall i :: 0 <= i < |cs| && cs[i].node.kind != Dir ==> dir + "/" <= cs[i].path
  }

  /** A collected entry is never the directory itself, so the code's slice stays in range. */
  lemma CandidatesNameable(h: G.Host, zh: ZipHost, allowed: seq<Path>, dir: Path, pat: string,
                           es: seq<Entry>, c: Entry)
    requires c in Candidates(h, zh, allowed, dir, pat, es) && dir <= c.path
    ensures Nameable(AsWritten, dir, c.path)
  {
    CandidatesIff(h, zh, allowed, dir, pat, es, c);
    var i :| 0 <= i < |es| && Picks(h, zh, allowed, dir, pat, es[i], c);
    assert c.path != dir;
    LongerThanProperPrefix(dir, c.path);
  }

  lemma LongerThanProperPrefix(a: string, b: string)
    requires a <= b && a != b
    ensures |a| < |b|
  {
  }

  function DirectoryMessage(inputDir: string, target: Path, size: string): string {
    "Successfully compressed '" + inputDir + "' directory into '" + target + "' (" + size + ")."
  }

  /**
   * `zip_directory`, with its entries named by `rule`: the directory and the target are validated,
   * an existing target is refused before anything is created, then the selected entries are
   * written.
   */
  function DirectoryOutcomeWith(rule: Naming, h: G.Host, zh: ZipHost, allowed: seq<Path>, inputDir: string,
                                pattern: string, targetZip: string, tree: Option<Node>): Outcome
  {
    match G.ValidatePath(h, inputDir, allowed)
    case Err(e) => Outcome(Err(e), None)
    case Ok(dir) =>
      match G.ValidatePath(h, targetZip, allowed)
      case Err(e) => Outcome(Err(e), None)
      case Ok(target) =>
        if zh.targetExists(target) then Outcome(Err(Io(AlreadyExists, ExistsMessage(targetZip))), None)
        else
          var p := WriteDir(zh, rule, dir, Candidates(h, zh, allowed, dir, ZipPattern(pattern), WalkedEntries(dir, tree)));
          match p.failure
          case Some(e) => Outcome(Err(e), Some(p.written))
          case None => Outcome(Ok(DirectoryMessage(inputDir, target, SizeText(zh))), Some(p.written))
  }

  /** `zip_directory` as written: entries are named by the code's slice. */
  function DirectoryOutcome(h: G.Host, zh: ZipHost, allowed: seq<Path>, inputDir: string, pattern: string,
                            targetZip: string, tree: Option<Node>): Outcome
  {
    DirectoryOutcomeWith(AsWritten, h, zh, allowed, inputDir, pattern, targetZip, tree)
  }

  /** An existing target is refused, and no archive is created. */
  lemma DirectoryExistingTarget(h: G.Host, zh: ZipHost, allowed: seq<Path>, inputDir: string, pattern: string,
                                targetZip: string, tree: Option<Node>)
    requires G.ValidatePath(h, inputDir, allowed).Ok? && G.ValidatePath(h, targetZip, allowed).Ok?
    requires zh.targetExists(G.ValidatePath(h, targetZip, allowed).value)
    ensures DirectoryOutcome(h, zh, allowed, inputDir, pattern, targetZip, tree) ==
      Outcome(Err(Io(AlreadyExists, ExistsMessage(targetZip))), None)
  {
  }

  /**
   * What a successful `zip_directory` archives: exactly the walked entries that are not
   * directories, pass validation, are not the directory itself and match the pattern, each under
   * the name `rule` gives it (the code's slice for `DirectoryOutcome`).
   */
  lemma DirectoryArchive(rule: Naming, h: G.Host, zh: ZipHost, allowed: seq<Path>, inputDir: string,
                         pattern: string, targetZip: string, tree: Option<Node>, w: ZipEntry)
    requires DirectoryOutcomeWith(rule, h, zh, allowed, inputDir, pattern, targetZip, tree).result.Ok?
    ensures G.ValidatePath(h, inputDir, allowed).Ok?
    ensures DirectoryOutcomeWith(rule, h, zh, allowed, inputDir, pattern, targetZip, tree).archive.Some?
    ensures
      var dir := G.ValidatePath(h, inputDir, allowed).value;
      var es := WalkedEntries(dir, tree);
      w in DirectoryOutcomeWith(rule, h, zh, allowed, inputDir, pattern, targetZip, tree).archive.value <==>
        exists i :: 0 <= i < |es| && Selects(h, zh, allowed, dir, ZipPattern(pattern), es[i]) &&
          es[i].node.kind != Dir &&
          var source := G.ValidatePath(h, es[i].path, allowed).value;
          Nameable(rule, dir, source) && w == ZipEntry(EntryName(rule, source, dir), source)
  {
    var dir := G.ValidatePath(h, inputDir, allowed).value;
    var es := WalkedEntries(dir, tree);
    var pat := ZipPattern(pattern);
    DirectoryWrites(rule, h, zh, allowed, inputDir, pattern, targetZip, tree);
    if w in DirArchive(rule, dir, Candidates(h, zh, allowed, dir, pat, es)) {
      ArchivedFromWalk(rule, h, zh, allowed, dir, pat, es, w);
    }
    if exists i :: 0 <= i < |es| && Selects(h, zh, allowed, dir, pat, es[i]) && es[i].node.kind != Dir &&
         var source := G.ValidatePath(h, es[i].path, allowed).value;
         Nameable(rule, dir, source) && w == ZipEntry(EntryName(rule, source, dir), source) {
      WalkArchived(rule, h, zh, allowed, dir, pat, es, w);
    }
  }

  /** A successful `zip_directory` wrote the whole of `DirArchive` of its candidates. */
  lemma DirectoryWrites(rule: Naming, h: G.Host, zh: ZipHost, allowed: seq<Path>, inputDir: string,
                        pattern: string, targetZip: string, tree: Option<Node>)
    requires DirectoryOutcomeWith(rule, h, zh, allowed, inputDir, pattern, targetZip, tree).result.Ok?
    ensures G.ValidatePath(h, inputDir, allowed).Ok?
    ensures var dir := G.ValidatePath(h, inputDir, allowed).value;
      var cs := Candidates(h, zh, allowed, dir, ZipPattern(pattern), WalkedEntries(dir, tree));
      AllNameable(rule, dir, cs) &&
      DirectoryOutcomeWith(rule, h, zh, allowed, inputDir, pattern, targetZip, tree).archive ==
        Some(DirArchive(rule, dir, cs))
  {
    var dir := G.ValidatePath(h, inputDir, allowed).value;
    WriteDirIff(zh, rule, dir, Candidates(h, zh, allowed, dir, ZipPattern(pattern), WalkedEntries(dir, tree)));
  }

  /**
   * When the validated directory is followed by a separator in every collected file's path, the
   * code's archive and message are those of the intended naming.
   */
  lemma DirectoryNamingsAgree(h: G.Host, zh: ZipHost, allowed: seq<Path>, inputDir: string, pattern: string,
                              targetZip: string, tree: Option<Node>)
    requires G.ValidatePath(h, inputDir, allowed).Ok?
    requires var dir := G.ValidatePath(h, inputDir, allowed).value;
      SeparatedBelow(dir, Candidates(h, zh, allowed, dir, ZipPattern(pattern), WalkedEntries(dir, tree)))
    ensures DirectoryOutcome(h, zh, allowed, inputDir, pattern, targetZip, tree) ==
      DirectoryOutcomeWith(Intended, h, zh, allowed, inputDir, pattern, targetZip, tree)
  {
    var dir := G.ValidatePath(h, inputDir, allowed).value;
    NamingsAgree(zh, dir, Candidates(h, zh, allowed, dir, ZipPattern(pattern), WalkedEntries(dir, tree)));
  }

  /** Every entry archived from the candidates comes from a selected, non-directory walked entry. */
  lemma ArchivedFromWalk(rule: Naming, h: G.Host, zh: ZipHost, allowed: seq<Path>, dir: Path, pat: string,
                         es: seq<Entry>, w: ZipEntry)
    requires AllNameable(rule, dir, Candidates(h, zh, allowed, dir, pat, es))
    requires w in DirArchive(rule, dir, Candidates(h, zh, allowed, dir, pat, es))
    ensures
      exists i :: 0 <= i < |es| && Selects(h, zh, allowed, dir, pat, es[i]) && es[i].node.kind != Dir &&
        var source := G.ValidatePath(h, es[i].path, allowed).value;
        Nameable(rule, dir, source) && w == ZipEntry(EntryName(rule, source, dir), source)
  {
    var cs := Candidates(h, zh, allowed, dir, pat, es);
    DirArchiveMember(rule, dir, cs, w);
    var j :| 0 <= j < |cs| && cs[j].node.kind != Dir && Nameable(rule, dir, cs[j].path) &&
      w == ZipEntry(EntryName(rule, cs[j].path, dir), cs[j].path);
    CandidatesIff(h, zh, allowed, dir, pat, es, cs[j]);
    var i :| 0 <= i < |es| && Picks(h, zh, allowed, dir, pat, es[i], cs[j]);
  }

  /** Every selected, non-directory walked entry is archived from the candidates. */
  lemma WalkArchived(rule: Naming, h: G.Host, zh: ZipHost, allowed: seq<Path>, dir: Path, pat: string,
                     es: seq<Entry>, w: ZipEntry)
    requires AllNameable(rule, dir, Candidates(h, zh, allowed, dir, pat, es))
    requires
      exists i :: 0 <= i < |es| && Selects(h, zh, allowed, dir, pat, es[i]) && es[i].node.kind != Dir &&
        var source := G.ValidatePath(h, es[i].path, allowed).value;
        Nameable(rule, dir, source) && w == ZipEntry(EntryName(rule, source, dir), source)
    ensures w in DirArchive(rule, dir, Candidates(h, zh, allowed, dir, pat, es))
  {
    var cs := Candidates(h, zh, allowed, dir, pat, es);
    var i :| 0 <= i < |es| && Selects(h, zh, allowed, dir, pat, es[i]) && es[i].node.kind != Dir &&
      var source := G.ValidatePath(h, es[i].path, allowed).value;
      Nameable(rule, dir, source) && w == ZipEntry(EntryName(rule, source, dir), source);
    var c := Entry(G.ValidatePath(h, es[i].path, allowed).value, es[i].node);
    assert Picks(h, zh, allowed, dir, pat, es[i], c);
    CandidatesIff(h, zh, allowed, dir, pat, es, c);
    var j :| 0 <= j < |cs| && cs[j] == c;
    DirArchiveHas(rule, dir, cs, j);
  }

  /** Every archived entry comes from a non-directory candidate, named by `rule`. */
  lemma {:induction false} DirArchiveMember(rule: Naming, dir: Path, cs: seq<Entry>, w: ZipEntry)
    requires AllNameable(rule, dir, cs)
    requires w in DirArchive(rule, dir, cs)
    ensures exists j ::
      0 <= j < |cs| && cs[j].node.kind != Dir && Nameable(rule, dir, cs[j].path) &&
      w == ZipEntry(EntryName(rule, cs[j].path, dir), cs[j].path)
  {
    var k := |cs| - 1;
    var init := cs[..k];
    assert forall i :: 0 <= i < k ==> init[i] == cs[i];
    if w in DirArchive(rule, dir, init) {
      DirArchiveMember(rule, dir, init, w);
      var j :| 0 <= j < k && init[j].node.kind != Dir && Nameable(rule, dir, init[j].path) &&
        w == ZipEntry(EntryName(rule, init[j].path, dir), init[j].path);
      assert init[j] == cs[j];
    } else {
      assert cs[k].node.kind != Dir && w == ZipEntry(EntryName(rule, cs[k].path, dir), cs[k].path);
    }
  }

  /** Every non-directory candidate is archived, named by `rule`. */
  lemma {:induction false} DirArchiveHas(rule: Naming, dir: Path, cs: seq<Entry>, j: nat)
    requires AllNameable(rule, dir, cs)
    requires j < |cs| && cs[j].node.kind != Dir
    ensures ZipEntry(EntryName(rule, cs[j].path, dir), cs[j].path) in DirArchive(rule, dir, cs)
    decreases |cs|
  {
    var k := |cs| - 1;
    var init := cs[..k];
    assert forall i :: 0 <= i < k ==> init[i] == cs[i];
    if j < k {
      DirArchiveHas(rule, dir, init, j);
    }
  }

  /** `zip_directory`, with its loop over the selected entries. */
  method ZipDirectory(h: G.Host, zh: ZipHost, allowed: seq<Path>, inputDir: string, pattern: string,
                      targetZip: string, tree: Option<Node>)
    returns (r: SResult<string>, archive: Option<seq<ZipEntry>>)
    ensures Outcome(r, archive) == DirectoryOutcome(h, zh, allowed, inputDir, pattern, targetZip, tree)
  {
    var valid := G.ValidatePath(h, inputDir, allowed);
    if valid.Err? {
      return Err(valid.error), None;
    }
    var dir := valid.value;
    var target := G.ValidatePath(h, targetZip, allowed);
    if target.Err? {
      return Err(target.error), None;
    }
    if zh.targetExists(target.value) {
      return Err(Io(AlreadyExists, ExistsMessage(targetZip))), None;
    }
    var entries := Candidates(h, zh, allowed, dir, ZipPattern(pattern), WalkedEntries(dir, tree));
    var progress := WriteEntries(zh, dir, entries);
    if progress.failure.Some? {
      return Err(progress.failure.value), Some(progress.written);
    }
    return Ok(DirectoryMessage(inputDir, target.value, SizeText(zh))), Some(progress.written);
  }

  /**
   * The writing loop of `zip_directory`: directories are skipped, and each file is named by the
   * code's slice, `&entry_str[input_dir_str.len() + 1..]`.
   */
  method WriteEntries(zh: ZipHost, dir: Path, entries: seq<Entry>) returns (progress: Progress)
    ensures progress == WriteDir(zh, AsWritten, dir, entries)
  {
    var written: seq<ZipEntry> := [];
    var i := 0;
    while i < |entries|
      invariant 0 <= i <= |entries|
      invariant WriteDir(zh, AsWritten, dir, entries[..i]) == Progress(written, None)
    {
      var c := entries[i];
      assert entries[..i + 1][..i] == entries[..i];
      if c.node.kind == Dir {
        i := i + 1;
        continue;
      }
      if !(dir <= c.path) {
        WriteDirStopped(zh, AsWritten, dir, entries, i + 1);
        return Progress(written, Some(Io(InvalidInput, StartMismatchMessage)));
      }
      if |c.path| <= |dir| {
        WriteDirStopped(zh, AsWritten, dir, entries, i + 1);
        return Progress(written, Some(Internal(SliceOutOfRangeMessage)));
      }
      var name := c.path[|dir| + 1..];
      var w := zh.writeEntry(name, c.path);
      if w.Err? {
        WriteDirStopped(zh, AsWritten, dir, entries, i + 1);
        return Progress(written, Some(w.error));
      }
      written := written + [ZipEntry(name, c.path)];
      i := i + 1;
    }
    assert entries[..|entries|] == entries;
    return Progress(written, None);
  }

  // ---------------------------------------------------------------------------------------------
  // zip_files
  // ---------------------------------------------------------------------------------------------

  /** `files[i]` is the first source that fails validation. */
  predicate FirstInvalid(h: G.Host, allowed: seq<Path>, files: seq<string>, i: int) {
    0 <= i < |files| && G.ValidatePath(h, files[i], allowed).Err? &&
    forall j :: 0 <= j < i ==> G.ValidatePath(h, files[j], allowed).Ok?
  }

  /** `collect::<Result<Vec<_>, _>>()` over the validated sources: all of them, or the first error. */
  function ValidateAll(h: G.Host, allowed: seq<Path>, files: seq<string>): SResult<seq<Path>> {
    if |files| == 0 then Ok([])
    else
      var p :- G.ValidatePath(h, files[0], allowed);
      var rest :- ValidateAll(h, allowed, files[1..]);
      Ok([p] + rest)
  }

  /** The collection succeeds exactly when every source validates, and then holds them all in order. */
  lemma ValidateAllOk(h: G.Host, allowed: seq<Path>, files: seq<string>)
    ensures var r := ValidateAll(h, allowed, files);
      (r.Ok? <==> forall i :: 0 <= i < |files| ==> G.ValidatePath(h, files[i], allowed).Ok?) &&
      (r.Ok? ==>
        |r.value| == |files| &&
        forall i :: 0 <= i < |files| ==> r.value[i] == G.ValidatePath(h, files[i], allowed).value)
  {
    ValidateAllSucceeds(h, allowed, files);
    if ValidateAll(h, allowed, files).Ok? {
      ValidateAllValues(h, allowed, files);
    }
  }

  lemma {:induction false} ValidateAllSucceeds(h: G.Host, allowed: seq<Path>, files: seq<string>)
    ensures ValidateAll(h, allowed, files).Ok? <==>
      forall i :: 0 <= i < |files| ==> G.ValidatePath(h, files[i], allowed).Ok?
    decreases |files|
  {
    if |files| > 0 {
      var rest := files[1..];
      ValidateAllSucceeds(h, allowed, rest);
      if forall i :: 0 <= i < |files| ==> G.ValidatePath(h, files[i], allowed).Ok? {
        assert G.ValidatePath(h, files[0], allowed).Ok?;
        forall i | 0 <= i < |rest| ensures G.ValidatePath(h, rest[i], allowed).Ok? {
          assert rest[i] == files[i + 1];
        }
      }
      if ValidateAll(h, allowed, files).Ok? {
        forall i | 0 <= i < |files| ensures G.ValidatePath(h, files[i], allowed).Ok? {
          if i > 0 {
            assert files[i] == rest[i - 1];
          }
        }
      }
    }
  }

  lemma {:induction false} ValidateAllValues(h: G.Host, allowed: seq<Path>, files: seq<string>)
    requires ValidateAll(h, allowed, files).Ok?
    ensures var ps := ValidateAll(h, allowed, files).value;
      |ps| == |files| &&
      forall i :: 0 <= i < |files| ==>
        G.ValidatePath(h, files[i], allowed).Ok? && ps[i] == G.ValidatePath(h, files[i], allowed).value
    decreases |files|
  {
    if |files| > 0 {
      ValidateAllValues(h, allowed, files[1..]);
      assert forall i :: 1 <= i < |files| ==> files[1..][i - 1] == files[i];
    }
  }

  /** A failed collection reports the error of the first source that fails validation. */
  lemma {:induction false} ValidateAllFirstError(h: G.Host, allowed: seq<Path>, files: seq<string>)
    ensures var r := ValidateAll(h, allowed, files);
      r.Err? ==> exists i :: FirstInvalid(h, allowed, files, i) && r.error == G.ValidatePath(h, files[i], allowed).error
    decreases |files|
  {
    if |files| > 0 && G.ValidatePath(h, files[0], allowed).Ok? {
      var rest := ValidateAll(h, allowed, files[1..]);
      if rest.Err? {
        ValidateAllFirstError(h, allowed, files[1..]);
        var i :| FirstInvalid(h, allowed, files[1..], i) && rest.error == G.ValidatePath(h, files[1..][i], allowed).error;
        assert forall j :: 0 <= j < i ==> files[1..][j] == files[j + 1];
        assert files[1..][i] == files[i + 1];
        assert FirstInvalid(h, allowed, files, i + 1);
      }
    } else if |files| > 0 {
      assert FirstInvalid(h, allowed, files, 0);
    }
  }

  /** One turn of the writing loop: the entry is named by the source's file name. */
  function FileStep(zh: ZipHost, written: seq<ZipEntry>, p: Path): Progress {
    match FileName(p)
    case None => Progress(written, Some(Io(InvalidInput, InvalidPathMessage)))
    case Some(name) =>
      match zh.writeEntry(name, p)
      case Err(e) => Progress(written, Some(e))
      case Ok(_) => Progress(written + [ZipEntry(name, p)], None)
  }

  function WriteFiles(zh: ZipHost, ps: seq<Path>): Progress {
    if |ps| == 0 then Progress([], None)
    else
      var p := WriteFiles(zh, ps[..|ps| - 1]);
      if p.failure.Some? then p else FileStep(zh, p.written, ps[|ps| - 1])
  }

  /** `w` names, one entry per source and in order, a prefix of `ps` after their file names. */
  predicate NamedAfter(w: seq<ZipEntry>, ps: seq<Path>) {
    |w| <= |ps| && forall i :: 0 <= i < |w| ==> w[i].source == ps[i] && FileName(ps[i]) == Some(w[i].name)
  }

  /** Every written entry is named by its source's file name, sources in input order. */
  lemma {:induction false} WriteFilesNames(zh: ZipHost, ps: seq<Path>)
    ensures NamedAfter(WriteFiles(zh, ps).written, ps)
    ensures WriteFiles(zh, ps).failure.None? ==> |WriteFiles(zh, ps).written| == |ps|
  {
    if |ps| > 0 {
      var k := |ps| - 1;
      WriteFilesNames(zh, ps[..k]);
      var p := WriteFiles(zh, ps[..k]);
      assert WriteFiles(zh, ps) == if p.failure.Some? then p else FileStep(zh, p.written, ps[k]);
      NamedAfterSnoc(p.written, ps, k);
      if p.failure.None? {
        FileStepNames(zh, p.written, ps[k]);
        if FileStep(zh, p.written, ps[k]).failure.None? {
          NamedAfterExtend(p.written, ps, k);
        }
      }
    }
  }

  /** Extending the sources keeps the naming. */
  lemma NamedAfterSnoc(w: seq<ZipEntry>, ps: seq<Path>, k: nat)
    requires k < |ps| && NamedAfter(w, ps[..k])
    ensures NamedAfter(w, ps)
  {
    forall i | 0 <= i < |w| ensures w[i].source == ps[i] && FileName(ps[i]) == Some(w[i].name) {
      assert ps[..k][i] == ps[i];
    }
  }

  /** An entry named after the next source extends the naming by one. */
  lemma NamedAfterExtend(w: seq<ZipEntry>, ps: seq<Path>, k: nat)
    requires k < |ps| && NamedAfter(w, ps[..k]) && |w| == k && FileName(ps[k]).Some?
    ensures NamedAfter(w + [ZipEntry(FileName(ps[k]).value, ps[k])], ps)
  {
    NamedAfterSnoc(w, ps, k);
    var w' := w + [ZipEntry(FileName(ps[k]).value, ps[k])];
    forall i | 0 <= i < |w'| ensures w'[i].source == ps[i] && FileName(ps[i]) == Some(w'[i].name) {
      if i < k {
        assert w'[i] == w[i];
      }
    }
  }

  /** One turn appends at most the entry named after its source, and appends it when it succeeds. */
  lemma FileStepNames(zh: ZipHost, written: seq<ZipEntry>, p: Path)
    ensures var q := FileStep(zh, written, p);
      (q.failure.Some? ==> q.written == written) &&
      (q.failure.None? ==> q.written == written + [ZipEntry(FileName(p).value, p)] && FileName(p).Some?)
  {
  }

  /** Once the loop has failed, later sources change nothing. */
  lemma {:induction false} WriteFilesStopped(zh: ZipHost, ps: seq<Path>, k: nat)
    requires k <= |ps| && WriteFiles(zh, ps[..k]).failure.Some?
    ensures WriteFiles(zh, ps) == WriteFiles(zh, ps[..k])
    decreases |ps| - k
  {
    if k < |ps| {
      assert ps[..k + 1][..k] == ps[..k];
      WriteFilesStopped(zh, ps, k + 1);
    } else {
      assert ps[..k] == ps;
    }
  }

  /** The success message: "file" for exactly one input, otherwise "files". */
  function FilesMessage(count: nat, target: Path, size: string): (r: string)
    ensures count == 1 ==> r == "Successfully compressed 1 file into '" + target + "' (" + size + ")."
    ensures count != 1 ==>
      r == "Successfully compressed " + T.NatToString(count) + " files into '" + target + "' (" + size + ")."
  {
    "Successfully compressed " + T.NatToString(count) + " " + (if count == 1 then "file" else "files") +
    " into '" + target + "' (" + size + ")."
  }

  /**
   * `zip_files`: an empty input is refused, the target is validated and must not exist, every
   * source is validated before the archive is created, then each is written under its file name.
   */
  function FilesOutcome(h: G.Host, zh: ZipHost, allowed: seq<Path>, files: seq<string>, targetZip: string)
    : Outcome
  {
    if |files| == 0 then Outcome(Err(Io(InvalidInput, EmptyInputMessage)), None)
    else
      match G.ValidatePath(h, targetZip, allowed)
      case Err(e) => Outcome(Err(e), None)
      case Ok(target) =>
        if zh.targetExists(target) then Outcome(Err(Io(AlreadyExists, ExistsMessage(targetZip))), None)
        else
          match ValidateAll(h, allowed, files)
          case Err(e) => Outcome(Err(e), None)
          case Ok(sources) =>
            var p := WriteFiles(zh, sources);
            match p.failure
            case Some(e) => Outcome(Err(e), Some(p.written))
            case None => Outcome(Ok(FilesMessage(|files|, target, SizeText(zh))), Some(p.written))
  }

  /** An empty input list is an error, and nothing is created. */
  lemma FilesEmptyInput(h: G.Host, zh: ZipHost, allowed: seq<Path>, targetZip: string)
    ensures FilesOutcome(h, zh, allowed, [], targetZip) == Outcome(Err(Io(InvalidInput, EmptyInputMessage)), None)
  {
  }

  /**
   * Preconditions come before the archive: when the target exists or any source fails validation,
   * the archive is not created; a source's error is reported only when the target was fine.
   */
  lemma FilesChecksFirst(h: G.Host, zh: ZipHost, allowed: seq<Path>, files: seq<string>, targetZip: string, i: nat)
    requires |files| > 0 && G.ValidatePath(h, targetZip, allowed).Ok?
    requires i < |files| && G.ValidatePath(h, files[i], allowed).Err?
    ensures FilesOutcome(h, zh, allowed, files, targetZip).archive.None?
    ensures FilesOutcome(h, zh, allowed, files, targetZip).result.Err?
    ensures zh.targetExists(G.ValidatePath(h, targetZip, allowed).value) ==>
      FilesOutcome(h, zh, allowed, files, targetZip).result.error == Io(AlreadyExists, ExistsMessage(targetZip))
  {
    ValidateAllOk(h, allowed, files);
  }

  /**
   * A successful `zip_files` archives every input, in order, each under its validated path's file
   * name, and its message counts the inputs.
   */
  lemma FilesArchive(h: G.Host, zh: ZipHost, allowed: seq<Path>, files: seq<string>, targetZip: string)
    requires FilesOutcome(h, zh, allowed, files, targetZip).result.Ok?
    ensures FilesOutcome(h, zh, allowed, files, targetZip).archive.Some?
    ensures var w := FilesOutcome(h, zh, allowed, files, targetZip).archive.value;
      |w| == |files| &&
      forall i :: 0 <= i < |files| ==>
        G.ValidatePath(h, files[i], allowed).Ok? &&
        w[i].source == G.ValidatePath(h, files[i], allowed).value && FileName(w[i].source) == Some(w[i].name)
    ensures FilesOutcome(h, zh, allowed, files, targetZip).result.value ==
      FilesMessage(|files|, G.ValidatePath(h, targetZip, allowed).value, SizeText(zh))
  {
    ValidateAllOk(h, allowed, files);
    WriteFilesNames(zh, ValidateAll(h, allowed, files).value);
  }

  /** `zip_files`, with its loop over the validated sources. */
  method ZipFiles(h: G.Host, zh: ZipHost, allowed: seq<Path>, files: seq<string>, targetZip: string)
    returns (r: SResult<string>, archive: Option<seq<ZipEntry>>)
    ensures Outcome(r, archive) == FilesOutcome(h, zh, allowed, files, targetZip)
  {
    if |files| == 0 {
      return Err(Io(InvalidInput, EmptyInputMessage)), None;
    }
    var target := G.ValidatePath(h, targetZip, allowed);
    if target.Err? {
      return Err(target.error), None;
    }
    if zh.targetExists(target.value) {
      return Err(Io(AlreadyExists, ExistsMessage(targetZip))), None;
    }
    var validated := ValidateAll(h, allowed, files);
    if validated.Err? {
      return Err(validated.error), None;
    }
    var progress := WriteSources(zh, validated.value);
    if progress.failure.Some? {
      return Err(progress.failure.value), Some(progress.written);
    }
    return Ok(FilesMessage(|files|, target.value, SizeText(zh))), Some(progress.written);
  }

  /** The writing loop of `zip_files`: each source under its file name, stopping at the first error. */
  method WriteSources(zh: ZipHost, sources: seq<Path>) returns (progress: Progress)
    ensures progress == WriteFiles(zh, sources)
  {
    var written: seq<ZipEntry> := [];
    var i := 0;
    while i < |sources|
      invariant 0 <= i <= |sources|
      invariant WriteFiles(zh, sources[..i]) == Progress(written, None)
    {
      var p := sources[i];
      assert sources[..i + 1][..i] == sources[..i];
      var name := FileName(p);
      if name.None? {
        WriteFilesStopped(zh, sources, i + 1);
        return Progress(written, Some(Io(InvalidInput, InvalidPathMessage)));
      }
      var w := zh.writeEntry(name.value, p);
      if w.Err? {
        WriteFilesStopped(zh, sources, i + 1);
        return Progress(written, Some(w.error));
      }
      written := written + [ZipEntry(name.value, p)];
      i := i + 1;
    }
    assert sources[..|sources|] == sources;
    return Progress(written, None);
  }
}
