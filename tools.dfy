/**
 * The tool table (src/tools.rs): the variants `tool_box!` declares and the classification of the
 * tools that need write access to the filesystem.
 */
module Tools {
  import opened Wrappers

  /** One variant per tool in the `tool_box!` list, in declaration order. */
  datatype Tool =
    | ReadTextFile
    | CreateDirectory
    | DirectoryTree
    | EditFile
    | GetFileInfo
    | ListAllowedDirectories
    | ListDirectory
    | MoveFile
    | ReadMultipleTextFiles
    | SearchFiles
    | WriteFile
    | ZipFiles
    | UnzipFile
    | ZipDirectory
    | SearchFilesContent
    | ListDirectoryWithSizes
    | ReadMediaFile
    | ReadMultipleMediaFiles
    | HeadFile
    | TailFile
    | ReadFileLines
    | FindEmptyDirectories
    | CalculateDirectorySize
    | FindDuplicateFiles

  /** The declared tools, in the order of the `tool_box!` list. */
  const AllTools: seq<Tool> := [
    ReadTextFile, CreateDirectory, DirectoryTree, EditFile, GetFileInfo, ListAllowedDirectories,
    ListDirectory, MoveFile, ReadMultipleTextFiles, SearchFiles, WriteFile, ZipFiles, UnzipFile,
    ZipDirectory, SearchFilesContent, ListDirectoryWithSizes, ReadMediaFile, ReadMultipleMediaFiles,
    HeadFile, TailFile, ReadFileLines, FindEmptyDirectories, CalculateDirectorySize,
    FindDuplicateFiles]

  /** The tools that change files or directories. */
  const WriteTools: set<Tool> :=
    {CreateDirectory, MoveFile, WriteFile, EditFile, ZipFiles, UnzipFile, ZipDirectory}

  /** `FileSystemTools::require_write_access`: one exhaustive match over the tools. */
  function RequireWriteAccess(t: Tool): (r: bool)
    ensures r <==> t in WriteTools
  {
    match t
    case CreateDirectory | MoveFile | WriteFile | EditFile | ZipFiles | UnzipFile | ZipDirectory =>
      true
    case ReadTextFile | DirectoryTree | GetFileInfo | ListAllowedDirectories | ListDirectory
      | ReadMultipleTextFiles | SearchFilesContent | ListDirectoryWithSizes | ReadMediaFile
      | HeadFile | ReadMultipleMediaFiles | TailFile | ReadFileLines | FindEmptyDirectories
      | CalculateDirectorySize | FindDuplicateFiles | SearchFiles =>
      false
  }

  /** The place of each tool in the `tool_box!` list. */
  function Index(t: Tool): nat {
    match t
    case ReadTextFile => 0
    case CreateDirectory => 1
    case DirectoryTree => 2
    case EditFile => 3
    case GetFileInfo => 4
    case ListAllowedDirectories => 5
    case ListDirectory => 6
    case MoveFile => 7
    case ReadMultipleTextFiles => 8
    case SearchFiles => 9
    case WriteFile => 10
    case ZipFiles => 11
    case UnzipFile => 12
    case ZipDirectory => 13
    case SearchFilesContent => 14
    case ListDirectoryWithSizes => 15
    case ReadMediaFile => 16
    case ReadMultipleMediaFiles => 17
    case HeadFile => 18
    case TailFile => 19
    case ReadFileLines => 20
    case FindEmptyDirectories => 21
    case CalculateDirectorySize => 22
    case FindDuplicateFiles => 23
  }

  /** The list is the whole enumeration: 24 distinct tools, every variant among them. */
  lemma AllToolsExhaustive(t: Tool)
    ensures t in AllTools
    ensures |AllTools| == 24
    ensures forall i, j :: 0 <= i < j < |AllTools| ==> AllTools[i] != AllTools[j]
  {
    assert forall i :: 0 <= i < |AllTools| ==> Index(AllTools[i]) == i;
    assert Index(t) < |AllTools| && AllTools[Index(t)] == t;
  }

  /** Exactly seven of the 24 tools are classified as writing, the other seventeen as reading. */
  lemma {:induction false} WriteToolCount()
    ensures |WriteTools| == 7
    ensures |set i | 0 <= i < |AllTools| && RequireWriteAccess(AllTools[i])| == 7
  {
    WriteIndices();
    PlacesCount();
  }

  lemma PlacesCount()
    ensures |WritePlaces| == 7
  {
    var a: set<int> := {};
    assert |a + {1}| == 1;
    assert |a + {1} + {3}| == 2;
    assert |a + {1} + {3} + {7}| == 3;
    assert |a + {1} + {3} + {7} + {10}| == 4;
    assert |a + {1} + {3} + {7} + {10} + {11}| == 5;
    assert |a + {1} + {3} + {7} + {10} + {11} + {12}| == 6;
    assert |a + {1} + {3} + {7} + {10} + {11} + {12} + {13}| == 7;
    assert WritePlaces == a + {1} + {3} + {7} + {10} + {11} + {12} + {13};
  }

  lemma IndexOfAll()
    ensures forall i :: 0 <= i < |AllTools| ==> Index(AllTools[i]) == i
  {
  }

  /** The writing tools sit at the places `WritePlaces` of the list. */
  lemma WriteIndices()
    ensures (set i | 0 <= i < |AllTools| && RequireWriteAccess(AllTools[i])) == WritePlaces
  {
    IndexOfAll();
    var idx := set i | 0 <= i < |AllTools| && RequireWriteAccess(AllTools[i]);
    forall i | 0 <= i < |AllTools| ensures i in idx <==> i in WritePlaces {
      WriteToolPlace(AllTools[i]);
    }
  }

  /** The places of the writing tools in the `tool_box!` list. */
  const WritePlaces: set<int> := {1, 3, 7, 10, 11, 12, 13}

  lemma WriteToolPlace(t: Tool)
    ensures RequireWriteAccess(t) <==> Index(t) in WritePlaces
  {
    match t
    case _ =>
  }

  /**
   * The `read_only_hint` a tool's `#[mcp_tool]` attribute declares, where it declares one. Tools
   * whose attribute carries no hint have `None`.
   */
  function ReadOnlyHint(t: Tool): Option<bool> {
    match t
    case ReadTextFile | DirectoryTree | GetFileInfo | ReadMultipleTextFiles | SearchFiles
      | SearchFilesContent | ListDirectoryWithSizes | ReadMediaFile | ReadMultipleMediaFiles
      | TailFile | ReadFileLines | FindEmptyDirectories | CalculateDirectorySize
      | FindDuplicateFiles =>
      Some(true)
    case WriteFile =>
      Some(false)
    case _ =>
      None
  }

  /**
   * The classification agrees with every declared hint: a tool annotated read-only never needs
   * write access, and one annotated as not read-only does.
   */
  lemma {:induction false} HintsAgree(t: Tool)
    ensures ReadOnlyHint(t) == Some(true) ==> !RequireWriteAccess(t)
    ensures ReadOnlyHint(t) == Some(false) ==> RequireWriteAccess(t)
  {
    match t
    case WriteFile =>
    case _ =>
  }
}
