/**
 * The allow-list path guard of `FileSystemService` (src/fs_service/core.rs): path validation,
 * client-root filtering, the gateway placeholder fix and the shared allow-list itself.
 */
module PathGuard {
  import opened Wrappers
  import opened Paths
  import T = Text

  /**
   * What the guard asks of its environment: the process's current directory and the helpers of the
   * unshown `utils` module (`expand_home`, `normalize_path`, `contains_symlink`) together with the
   * filesystem query `Path::is_dir`.
   */
  datatype Host = Host(
    cwd: Path,
    expandHome: Path -> Path,
    normalize: Path -> Path,
    isDir: Path -> bool,
    containsSymlink: Path -> SResult<bool>)

  const EmptyAllowListMessage: string :=
    "Allowed directories list is empty. Client did not provide any valid root directories."

  /** The requested path after home expansion, joined to the current directory when relative. */
  function AbsolutePath(h: Host, requested: Path): Path {
    var expanded := h.expandHome(requested);
    if IsAbsolute(expanded) then expanded else Join(h.cwd, expanded)
  }

  /** Some allowed directory, as given or normalised, is a component-wise prefix of the path. */
  predicate Admits(h: Host, allowed: seq<Path>, normalized: Path) {
    exists i :: 0 <= i < |allowed| &&
      (StartsWith(normalized, allowed[i]) || StartsWith(normalized, h.normalize(allowed[i])))
  }

  function DeniedMessage(symlink: bool, absolute: Path, allowed: seq<Path>): string {
    "Access denied - " + (if symlink then "a symlink target path" else "path") +
    " is outside allowed directories: " + absolute + " not in " + T.Join(allowed, ",\n")
  }

  /** `validate_path`: a lexical, component-wise allow-list check of the normalised absolute path. */
  function ValidatePath(h: Host, requested: Path, allowed: seq<Path>): (r: SResult<Path>)
    ensures |allowed| == 0 ==> r == Err(FromString(EmptyAllowListMessage))
    ensures r.Ok? <==> |allowed| > 0 && Admits(h, allowed, h.normalize(AbsolutePath(h, requested)))
    ensures r.Ok? ==> r.value == AbsolutePath(h, requested)
    ensures r.Err? && |allowed| > 0 ==>
      var abs := AbsolutePath(h, requested);
      match h.containsSymlink(abs)
      case Err(e) => r.error == e
      case Ok(link) => r.error == FromString(DeniedMessage(link, abs, allowed))
  {
    if |allowed| == 0 then Err(FromString(EmptyAllowListMessage))
    else
      var abs := AbsolutePath(h, requested);
      var normalized := h.normalize(abs);
      if Admits(h, allowed, normalized) then Ok(abs)
      else
        var link :- h.containsSymlink(abs);
        Err(FromString(DeniedMessage(link, abs, allowed)))
  }

  /** An empty allow-list rejects every request, whatever the host. */
  lemma EmptyAllowListRejectsAll(h: Host, requested: Path)
    ensures ValidatePath(h, requested, []).Err?
    ensures ValidatePath(h, requested, []).error.message == EmptyAllowListMessage
  {
  }

  /**
   * A relative request is resolved under the current directory, and that path is what is returned;
   * its components are the current directory's followed by the request's (less a leading `.`).
   */
  lemma {:induction false} RelativeRequestJoinsCwd(h: Host, requested: Path, allowed: seq<Path>)
    requires !IsAbsolute(h.expandHome(requested))
    requires ValidatePath(h, requested, allowed).Ok?
    ensures ValidatePath(h, requested, allowed).value == Join(h.cwd, h.expandHome(requested))
    ensures h.cwd != "" ==>
      Components(ValidatePath(h, requested, allowed).value) ==
        Components(h.cwd) + InnerComponents(h.expandHome(requested))
  {
    JoinComponents(h.cwd, h.expandHome(requested));
  }

  /**
   * The check is not a string-prefix test: when the only allowed directory is `base/m` and the
   * normalised request lies under a sibling `base/n` (`/allowed-evil` next to `/allowed`), the
   * request is denied whenever `base/m` normalises to itself.
   */
  lemma SiblingIsDenied(h: Host, requested: Path, base: Path, n: string, m: string, suffix: Path)
    requires ValidName(n) && ValidName(m) && n != m && !IsAbsolute(suffix)
    requires h.normalize(Join(base, m)) == Join(base, m)
    requires h.normalize(AbsolutePath(h, requested)) == Join(Join(base, n), suffix)
    ensures ValidatePath(h, requested, [Join(base, m)]).Err?
  {
    SiblingsDoNotStartWithEachOther(base, n, m, suffix);
  }

  /** An admitted request lies, component by component, under its allowed directory. */
  lemma AdmittedDescendantAdmitted(h: Host, requested: Path, allowed: seq<Path>, i: nat, name: string)
    requires i < |allowed| && ValidName(name)
    requires h.normalize(AbsolutePath(h, requested)) == Join(allowed[i], name)
    ensures ValidatePath(h, requested, allowed).Ok?
  {
    JoinNameComponents(allowed[i], name);
  }

  /**
   * The `.` that the gateway fix puts in the allow-list admits no absolute request by itself: a
   * normalised absolute path starts with `RootDir`, never with `CurDir`, so such a request is
   * admitted only through another entry or through what `normalize_path` makes of `.`.
   */
  lemma DotEntryAdmitsNoAbsolutePath(h: Host, requested: Path)
    requires IsAbsolute(h.normalize(AbsolutePath(h, requested)))
    requires h.normalize(".") == "."
    ensures ValidatePath(h, requested, ["."]).Err?
  {
    AbsoluteNotUnderCurDir(h.normalize(AbsolutePath(h, requested)));
  }

  /** `parse_file_path`: strips one leading `file://`, then trims. It never fails. */
  function ParseFilePath(input: string): (r: SResult<Path>)
    ensures r.Ok?
    ensures |r.value| == 0 || (!T.IsWhitespace(r.value[0]) && !T.IsWhitespace(r.value[|r.value| - 1]))
  {
    T.TrimmedEnds(StripUri(input));
    Ok(T.Trim(StripUri(input)))
  }

  /** `strip_prefix("file://")`, the input unchanged when it has no such prefix. */
  function StripUri(input: string): string {
    var uri := "file://";
    if uri <= input then input[|uri|..] else input
  }

  /** A `file://` URI and the bare path it names parse to the same path. */
  lemma ParseFileUri(p: string)
    requires !("file://" <= p)
    ensures ParseFilePath("file://" + p) == ParseFilePath(p) == Ok(T.Trim(p))
  {
    assert ("file://" + p)[7..] == p;
  }

  /** Some path of `r` has key `k`. */
  predicate HasKey<K(==)>(r: seq<Path>, key: Path -> K, k: K) {
    exists i :: 0 <= i < |r| && key(r[i]) == k
  }

  /**
   * Keeps the first of each set of paths with equal keys (a `HashSet` keeps the first value
   * inserted). `Path` equality is equality of `Components`, used as the key.
   */
  function Dedupe<K(==)>(ps: seq<Path>, key: Path -> K): (r: seq<Path>)
    ensures forall i :: 0 <= i < |r| ==> r[i] in ps
    ensures forall i, j :: 0 <= i < j < |r| ==> key(r[i]) != key(r[j])
    ensures forall p :: p in ps ==> HasKey(r, key, key(p))
    ensures |r| <= |ps|
  {
    if |ps| == 0 then []
    else
      var init := ps[..|ps| - 1];
      var rest := Dedupe(init, key);
      var last := ps[|ps| - 1];
      assert forall p :: p in ps ==> p in init || p == last;
      if HasKey(rest, key, key(last)) then rest
      else
        var r := rest + [last];
        assert key(r[|rest|]) == key(last);
        assert forall p :: p in init ==> HasKey(r, key, key(p)) by {
          forall p | p in init ensures HasKey(r, key, key(p)) {
            var i :| 0 <= i < |rest| && key(rest[i]) == key(p);
            assert r[i] == rest[i];
          }
        }
        r
  }

  /** The paths of `ps` that satisfy, or fail, `keep`. */
  function FilterPaths(ps: seq<Path>, f: Path -> bool, keep: bool): (r: seq<Path>)
    ensures forall p :: p in r <==> p in ps && f(p) == keep
    ensures |r| <= |ps|
  {
    if |ps| == 0 then [] else (if f(ps[0]) == keep then [ps[0]] else []) + FilterPaths(ps[1..], f, keep)
  }

  function Okays(rs: seq<SResult<Path>>): (r: seq<Path>)
    ensures forall p :: p in r <==> Ok(p) in rs
  {
    if |rs| == 0 then [] else (if rs[0].Ok? then [rs[0].value] else []) + Okays(rs[1..])
  }

  function ErrCount(rs: seq<SResult<Path>>): (n: nat)
    ensures n <= |rs|
    ensures n == 0 <==> forall i :: 0 <= i < |rs| ==> rs[i].Ok?
  {
    if |rs| == 0 then 0 else (if rs[0].Err? then 1 else 0) + ErrCount(rs[1..])
  }

  function MapPaths(ps: seq<Path>, f: Path -> Path): (r: seq<Path>)
    ensures |r| == |ps| && forall i :: 0 <= i < |ps| ==> r[i] == f(ps[i])
  {
    seq(|ps|, i requires 0 <= i < |ps| => f(ps[i]))
  }

  function MapParse(roots: seq<string>, parse: string -> SResult<Path>): (r: seq<SResult<Path>>)
    ensures |r| == |roots| && forall i :: 0 <= i < |roots| ==> r[i] == parse(roots[i])
  {
    seq(|roots|, i requires 0 <= i < |roots| => parse(roots[i]))
  }

  function SkippedWarning(n: nat): string {
    "Warning: skipped " + T.NatToString(n) + " invalid roots."
  }

  /**
   * `valid_roots`: parses each client root, expands it, and keeps the distinct directories; the
   * warning counts the unparsable roots plus the distinct non-directories. The parser is a
   * parameter; the service's own `ParseFilePath` never fails.
   */
  function ValidRoots(h: Host, roots: seq<string>, parse: string -> SResult<Path>)
    : (r: (seq<Path>, Option<string>))
    ensures forall i :: 0 <= i < |r.0| ==> h.isDir(r.0[i])
    ensures forall i, j :: 0 <= i < j < |r.0| ==> Components(r.0[i]) != Components(r.0[j])
    ensures forall i :: 0 <= i < |r.0| ==> ParsedRoot(h, roots, parse, r.0[i])
    ensures forall k :: (0 <= k < |roots| && parse(roots[k]).Ok? &&
      h.isDir(h.expandHome(parse(roots[k]).value))) ==>
      HasKey(r.0, Components, Components(h.expandHome(parse(roots[k]).value)))
    ensures r.1.Some? <==> Skipped(h, roots, parse) > 0
    ensures r.1.Some? ==> r.1.value == SkippedWarning(Skipped(h, roots, parse))
  {
    var skipped := Skipped(h, roots, parse);
    RootDirsFacts(h, roots, parse);
    (RootDirs(h, roots, parse), if skipped > 0 then Some(SkippedWarning(skipped)) else None)
  }

  /**
   * The number of skipped roots: those that do not parse, plus the distinct expanded roots that
   * are not directories.
   */
  function Skipped(h: Host, roots: seq<string>, parse: string -> SResult<Path>): nat {
    var parsed := MapParse(roots, parse);
    ErrCount(parsed) + |Dedupe(FilterPaths(MapPaths(Okays(parsed), h.expandHome), h.isDir, false), Components)|
  }

  /** The directories `valid_roots` keeps: distinct, directories, and every parsed directory. */
  function RootDirs(h: Host, roots: seq<string>, parse: string -> SResult<Path>): seq<Path> {
    Dedupe(FilterPaths(MapPaths(Okays(MapParse(roots, parse)), h.expandHome), h.isDir, true), Components)
  }

  lemma RootDirsFacts(h: Host, roots: seq<string>, parse: string -> SResult<Path>)
    ensures var r := RootDirs(h, roots, parse);
      (forall i :: 0 <= i < |r| ==> h.isDir(r[i])) &&
      (forall i, j :: 0 <= i < j < |r| ==> Components(r[i]) != Components(r[j])) &&
      (forall i :: 0 <= i < |r| ==> ParsedRoot(h, roots, parse, r[i])) &&
      (forall k :: (0 <= k < |roots| && parse(roots[k]).Ok? &&
        h.isDir(h.expandHome(parse(roots[k]).value))) ==>
        HasKey(r, Components, Components(h.expandHome(parse(roots[k]).value))))
  {
    var expanded := MapPaths(Okays(MapParse(roots, parse)), h.expandHome);
    var kept := FilterPaths(expanded, h.isDir, true);
    var r := Dedupe(kept, Components);
    assert r == RootDirs(h, roots, parse);
    ExpandedParsed(h, roots, parse);
    forall i | 0 <= i < |r| ensures h.isDir(r[i]) && ParsedRoot(h, roots, parse, r[i]) {
      assert r[i] in kept;
    }
    forall k | 0 <= k < |roots| && parse(roots[k]).Ok? && h.isDir(h.expandHome(parse(roots[k]).value))
      ensures HasKey(r, Components, Components(h.expandHome(parse(roots[k]).value)))
    {
      assert h.expandHome(parse(roots[k]).value) in kept;
    }
  }

  /** `p` is the expansion of some successfully parsed root. */
  predicate ParsedRoot(h: Host, roots: seq<string>, parse: string -> SResult<Path>, p: Path) {
    exists k :: 0 <= k < |roots| && parse(roots[k]).Ok? && p == h.expandHome(parse(roots[k]).value)
  }

  /** The expanded parsed roots are exactly the expansions of the roots that parse. */
  lemma ExpandedParsed(h: Host, roots: seq<string>, parse: string -> SResult<Path>)
    ensures var expanded := MapPaths(Okays(MapParse(roots, parse)), h.expandHome);
      (forall k :: 0 <= k < |roots| && parse(roots[k]).Ok? ==>
         h.expandHome(parse(roots[k]).value) in expanded) &&
      (forall p :: p in expanded ==> ParsedRoot(h, roots, parse, p))
  {
    var parsed := MapParse(roots, parse);
    var expanded := MapPaths(Okays(parsed), h.expandHome);
    forall k | 0 <= k < |roots| && parse(roots[k]).Ok?
      ensures h.expandHome(parse(roots[k]).value) in expanded
    {
      assert parsed[k] == parse(roots[k]);
      var p := parse(roots[k]).value;
      assert p in Okays(parsed);
      var j :| 0 <= j < |Okays(parsed)| && Okays(parsed)[j] == p;
      assert expanded[j] == h.expandHome(p);
    }
    forall q | q in expanded ensures ParsedRoot(h, roots, parse, q) {
      var j :| 0 <= j < |expanded| && expanded[j] == q;
      var p := Okays(parsed)[j];
      assert Ok(p) in parsed;
      var k :| 0 <= k < |parsed| && parsed[k] == Ok(p);
      assert parse(roots[k]) == Ok(p);
    }
  }

  /** With the service's own parser, the warning counts only the distinct non-directories. */
  lemma {:induction false} ServiceParserNeverErrs(roots: seq<string>)
    ensures ErrCount(MapParse(roots, ParseFilePath)) == 0
  {
    var parsed := MapParse(roots, ParseFilePath);
    assert forall i :: 0 <= i < |parsed| ==> parsed[i].Ok? by {
      forall i | 0 <= i < |parsed| ensures parsed[i].Ok? {
        assert parsed[i] == ParseFilePath(roots[i]);
      }
    }
  }

  const GatewayPlaceholder: string := "{{rust-mcp-filesystem.allowed_directories|volume-target|into}}"

  /** `fix_dockerhub_mcp_registry_gateway`: an entry holding the registry placeholder becomes `.`. */
  function FixGateway(input: string): (r: string)
    ensures !T.Contains(r, GatewayPlaceholder)
    ensures T.Contains(input, GatewayPlaceholder) ==> r == "."
    ensures !T.Contains(input, GatewayPlaceholder) ==> r == input
  {
    if T.Contains(input, GatewayPlaceholder) then
      assert !T.Contains(".", GatewayPlaceholder) by {
        if T.Contains(".", GatewayPlaceholder) { T.ContainsShorter(".", GatewayPlaceholder); }
      }
      "."
    else input
  }

  lemma FixGatewayIdempotent(input: string)
    ensures FixGateway(FixGateway(input)) == FixGateway(input)
  {
  }

  /** Entry `i` is the first configured entry that is not a directory, and `e` is its panic message. */
  predicate FirstNonDir(h: Host, dirs: seq<string>, e: ServiceError) {
    exists i :: 0 <= i < |dirs| && !h.isDir(h.expandHome(FixGateway(dirs[i]))) &&
      e == FromString("Error: " + FixGateway(dirs[i]) + " is not a directory") &&
      (forall j :: 0 <= j < i ==> h.isDir(h.expandHome(FixGateway(dirs[j]))))
  }

  /**
   * The allow-list `try_new` builds: each configured entry, gateway-fixed and home-expanded. The
   * first entry that is not a directory makes the constructor panic; the panic is the `Err` here.
   */
  function InitialDirs(h: Host, dirs: seq<string>): (r: SResult<seq<Path>>)
    ensures r.Ok? <==> forall i :: 0 <= i < |dirs| ==> h.isDir(h.expandHome(FixGateway(dirs[i])))
    ensures r.Ok? ==> |r.value| == |dirs|
    ensures r.Ok? ==> (forall i :: 0 <= i < |dirs| ==> r.value[i] == h.expandHome(FixGateway(dirs[i])))
    ensures r.Err? ==> FirstNonDir(h, dirs, r.error)
  {
    if |dirs| == 0 then Ok([])
    else
      var d := FixGateway(dirs[0]);
      var e := h.expandHome(d);
      if !h.isDir(e) then
        FirstNonDirHere(h, dirs);
        Err(FromString("Error: " + d + " is not a directory"))
      else
        match InitialDirs(h, dirs[1..])
        case Err(err) =>
          FirstNonDirLater(h, dirs, err);
          Err(err)
        case Ok(rest) =>
          assert forall i :: 1 <= i < |dirs| ==> dirs[i] == dirs[1..][i - 1];
          Ok([e] + rest)
  }

  lemma FirstNonDirHere(h: Host, dirs: seq<string>)
    requires |dirs| > 0 && !h.isDir(h.expandHome(FixGateway(dirs[0])))
    ensures FirstNonDir(h, dirs, FromString("Error: " + FixGateway(dirs[0]) + " is not a directory"))
  {
  }

  lemma FirstNonDirLater(h: Host, dirs: seq<string>, err: ServiceError)
    requires |dirs| > 0 && h.isDir(h.expandHome(FixGateway(dirs[0])))
    requires FirstNonDir(h, dirs[1..], err)
    ensures FirstNonDir(h, dirs, err)
  {
    var rest := dirs[1..];
    var i :| 0 <= i < |rest| && !h.isDir(h.expandHome(FixGateway(rest[i]))) &&
      err == FromString("Error: " + FixGateway(rest[i]) + " is not a directory") &&
      (forall j :: 0 <= j < i ==> h.isDir(h.expandHome(FixGateway(rest[j]))));
    assert dirs[i + 1] == rest[i];
    forall j | 0 <= j < i + 1 ensures h.isDir(h.expandHome(FixGateway(dirs[j]))) {
      if j > 0 {
        assert dirs[j] == rest[j - 1];
      }
    }
  }

  /** The service: the shared allow-list behind its lock. */
  class FileSystemService {
    var allowedPath: seq<Path>

    constructor (dirs: seq<Path>)
      ensures allowedPath == dirs
    {
      allowedPath := dirs;
    }

    /** `try_new`: a service over the checked configured entries, or the panic message. */
    static method TryNew(h: Host, dirs: seq<string>) returns (r: SResult<FileSystemService>)
      ensures r.Ok? <==> InitialDirs(h, dirs).Ok?
      ensures r.Ok? ==> fresh(r.value) && r.value.allowedPath == InitialDirs(h, dirs).value
      ensures r.Err? ==> r.error == InitialDirs(h, dirs).error
    {
      var init := InitialDirs(h, dirs);
      if init.Err? {
        return Err(init.error);
      }
      var s := new FileSystemService(init.value);
      return Ok(s);
    }

    /** `allowed_directories`: a snapshot of the current list. */
    method AllowedDirectories() returns (r: seq<Path>)
      ensures r == allowedPath
    {
      return allowedPath;
    }

    /** `update_allowed_paths`: replaces the list wholesale; nothing of the old list survives. */
    method UpdateAllowedPaths(roots: seq<Path>)
      modifies this
      ensures allowedPath == roots
    {
      allowedPath := roots;
    }

    /** `validate_path` against the service's current list. */
    method Validate(h: Host, requested: Path) returns (r: SResult<Path>)
      ensures r == ValidatePath(h, requested, allowedPath)
    {
      var allowed := AllowedDirectories();
      return ValidatePath(h, requested, allowed);
    }
  }
}
