/**
 * Paths as Rust's `PathBuf` holds them: a raw string. Comparison, prefix tests and hashing go by
 * the path's components (`Path::components`), as Rust's `PartialEq`, `Hash` and `starts_with` do.
 */
module Paths {
  import opened Text

  type Path = string

  /** A component of a Unix path. */
  datatype Component = RootDir | CurDir | ParentDir | Normal(name: string)

  /** `Path::is_absolute` on Unix: the path starts at the root. */
  predicate IsAbsolute(p: Path) {
    |p| > 0 && p[0] == '/'
  }

  /** Empty and `.` segments contribute nothing; `..` is a parent step. */
  function SegmentComponents(seg: string): seq<Component> {
    if seg == "" || seg == "." then [] else if seg == ".." then [ParentDir] else [Normal(seg)]
  }

  function SegmentsComponents(segs: seq<string>): seq<Component> {
    if |segs| == 0 then [] else SegmentComponents(segs[0]) + SegmentsComponents(segs[1..])
  }

  lemma {:induction false} SegmentsComponentsAppend(a: seq<string>, b: seq<string>)
    ensures SegmentsComponents(a + b) == SegmentsComponents(a) + SegmentsComponents(b)
    decreases |a|
  {
    if |a| == 0 {
      assert a + b == b;
    } else {
      assert (a + b)[0] == a[0];
      assert (a + b)[1..] == a[1..] + b;
      SegmentsComponentsAppend(a[1..], b);
    }
  }

  /** A relative path whose first segment is `.`, which `Path::components` keeps as `CurDir`. */
  predicate LeadingCurDir(p: Path) {
    p == "." || (|p| >= 2 && p[0] == '.' && p[1] == '/')
  }

  /** The components after the leading `RootDir` or `CurDir`: every `.` segment is dropped there. */
  function InnerComponents(p: Path): seq<Component> {
    SegmentsComponents(Split(p, '/'))
  }

  /**
   * `Path::components`: an absolute path starts with `RootDir`, a relative one whose first segment
   * is `.` starts with `CurDir`; empty and other `.` segments are dropped.
   */
  function Components(p: Path): seq<Component> {
    (if IsAbsolute(p) then [RootDir] else if LeadingCurDir(p) then [CurDir] else []) + InnerComponents(p)
  }

  /** An absolute path never starts with `.`: its first component is `RootDir`, not `CurDir`. */
  lemma AbsoluteNotUnderCurDir(p: Path)
    requires IsAbsolute(p)
    ensures Components(".") == [CurDir]
    ensures !StartsWith(p, ".")
  {
    assert Split(".", '/') == ["."] by { SplitNoSep(".", '/'); }
    assert SegmentsComponents(["."]) == SegmentComponents(".") + SegmentsComponents([]);
    assert Components(p)[0] == RootDir;
  }

  /** `Path::starts_with`: a component-wise prefix, not a string prefix. */
  predicate StartsWith(p: Path, base: Path) {
    Components(base) <= Components(p)
  }

  /** `Path == Path`: equal component sequences. */
  predicate SamePath(a: Path, b: Path) {
    Components(a) == Components(b)
  }

  /** `PathBuf::join` (`push`): an absolute `rel` replaces the base; otherwise one separator is
      inserted unless the base is empty or already ends with one. */
  function Join(base: Path, rel: Path): Path {
    if IsAbsolute(rel) then rel
    else if base == "" || base[|base| - 1] == '/' then base + rel
    else base + "/" + rel
  }

  /** A name an entry of a directory can have. */
  predicate ValidName(n: string) {
    n != "" && n != "." && n != ".." && '/' !in n
  }

  /** `Path::file_name`: the last component when it is a normal one. */
  function FileName(p: Path): (r: Wrappers.Option<string>)
    ensures r.Some? ==> |Components(p)| > 0 && Components(p)[|Components(p)| - 1] == Normal(r.value)
  {
    var cs := Components(p);
    if |cs| > 0 && cs[|cs| - 1].Normal? then Wrappers.Some(cs[|cs| - 1].name) else Wrappers.None
  }

  lemma {:induction false} NameComponents(n: string)
    requires ValidName(n)
    ensures Components(n) == [Normal(n)] == InnerComponents(n)
  {
    SplitNoSep(n, '/');
    assert !IsAbsolute(n) by { assert n[0] in n; }
    assert !LeadingCurDir(n) by { if |n| >= 2 { assert n[1] in n; } }
    assert SegmentsComponents([n]) == SegmentComponents(n) + SegmentsComponents([]);
  }

  lemma EmptyComponents()
    ensures SegmentsComponents([""]) == []
    ensures Components("") == []
  {
    assert [""][1..] == [];
  }

  /** The components of `a + "/" + b`: a leading `.` of `b` is no longer leading, and is dropped. */
  lemma {:induction false} SlashComponents(a: Path, b: Path)
    requires a != ""
    ensures Components(a + "/" + b) == Components(a) + InnerComponents(b)
  {
    var j := a + "/" + b;
    assert j == a + ['/'] + b;
    SplitAppend(a, b, '/');
    SegmentsComponentsAppend(Split(a, '/'), Split(b, '/'));
    assert j[0] == a[0];
    assert LeadingCurDir(j) == LeadingCurDir(a) by {
      if |a| >= 2 { assert j[1] == a[1]; } else { assert j[1] == '/'; }
    }
  }

  /** The components of `"/" + b`. */
  lemma {:induction false} RootSlashComponents(b: Path)
    ensures Components("/" + b) == Components("/") + InnerComponents(b)
  {
    assert Split("/", '/') == [""] + Split("", '/');
    EmptyComponents();
    assert ["", ""][1..] == [""];
    assert Components("/") == [RootDir];
    assert ("/" + b)[1..] == b;
    assert Split("/" + b, '/') == [""] + Split(b, '/');
  }

  /** A base that ends with a separator: `a + "/" + b`, where `a + "/"` has the components of `a`. */
  lemma {:induction false} TrailingSlashComponents(a: Path, b: Path)
    requires a != ""
    ensures Components((a + "/") + b) == Components(a + "/") + InnerComponents(b)
  {
    assert Components(a + "/") == Components(a) by {
      assert a + "/" + "" == a + "/";
      SlashComponents(a, "");
      EmptyComponents();
      assert Components(a) + [] == Components(a);
    }
    assert Components((a + "/") + b) == Components(a) + InnerComponents(b) by {
      SlashComponents(a, b);
    }
  }

  /**
   * Joining a relative path to a non-empty base appends its components, except a leading `CurDir`
   * (`/a` joined with `./b` is `/a/./b`, whose components are those of `/a/b`).
   */
  lemma {:induction false} JoinComponents(base: Path, rel: Path)
    requires !IsAbsolute(rel)
    ensures Components(Join(base, rel)) ==
      if base == "" then Components(rel) else Components(base) + InnerComponents(rel)
    ensures !LeadingCurDir(rel) ==> Components(rel) == InnerComponents(rel)
  {
    if base == "" {
      EmptyComponents();
      assert base + rel == rel;
    } else if base[|base| - 1] == '/' {
      var a := base[..|base| - 1];
      assert base == a + "/";
      if a == "" {
        RootSlashComponents(rel);
      } else {
        TrailingSlashComponents(a, rel);
      }
    } else {
      SlashComponents(base, rel);
    }
  }

  /** A child path starts with its parent, and its file name is the child's name. */
  lemma JoinNameComponents(base: Path, n: string)
    requires ValidName(n)
    ensures Components(Join(base, n)) == Components(base) + [Normal(n)]
    ensures StartsWith(Join(base, n), base)
    ensures FileName(Join(base, n)) == Wrappers.Some(n)
  {
    NameComponents(n);
    JoinComponents(base, n);
  }

  /** A sibling never passes for another sibling, however the names compare as strings
      (`/allowed-evil` does not start with `/allowed`). */
  lemma SiblingsDoNotStartWithEachOther(base: Path, n: string, m: string, suffix: Path)
    requires ValidName(n) && ValidName(m) && n != m && !IsAbsolute(suffix)
    ensures !StartsWith(Join(Join(base, n), suffix), Join(base, m))
  {
    JoinNameComponents(base, n);
    JoinNameComponents(base, m);
    JoinComponents(Join(base, n), suffix);
    var cb := Components(base);
    assert Components(Join(Join(base, n), suffix))[|cb|] == Normal(n);
    assert Components(Join(base, m))[|cb|] == Normal(m);
  }
}
