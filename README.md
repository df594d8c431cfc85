# rust-mcp-filesystem, modelled in Dafny

This project models the core of `rust-mcp-filesystem`, an MCP server that gives a client
sandboxed access to a set of allowed directories. The model covers these parts:

- **Path guard** (`PathGuard`, `Paths`). It holds the shared allow-list of `FileSystemService`.
  `validate_path` admits a request only below an allowed directory, compared component by
  component. It also models the parsing and filtering of client roots (`valid_roots`), the
  gateway-placeholder fix and `try_new`.
- **Edit engine** (`Edit`). `apply_file_edits` applies the edits in order. Each edit tries an
  exact replacement first, then a whitespace-trimmed window of lines with re-indentation. The
  module also models the all-or-nothing write, dry runs, the line-ending restore and the fenced
  diff.
- **Traversal and duplicates** (`FsTree`, `FileSearch`, `Duplicates`). This part covers the
  pruning walk of `search_files_iter` with its name, exclude and size filters, and the
  size, quick-hash and full-hash bucketing of `find_duplicate_files`.
- **Content search** (`ContentSearch`). This part covers `escape_regex`, `content_search`,
  `search_files_content` and the snippet window of `extract_snippet`.
- **Zip** (`Zip`). This part covers the checks made before an archive is created, entry
  selection, entry naming and the success messages of `zip_directory` and `zip_files`.
- **Readers and aggregation** (`Readers`, `Aggregate`, `Limits`). This part covers the readers
  `head_file`, `tail_file` and `read_file_lines`. It also covers `directory_tree`,
  `find_empty_directories`, `calculate_directory_size`, the size bounds and line-ending
  detection.
- **Access policy** (`Handler`, `Tools`). This part covers the read-only write gate, the
  roots-update decision, the startup message and the write classification of the 24 tools.
- **Tool formatters** (`DirectoryTreeTool`, `ListDirectoryWithSizesTool`,
  `FindDuplicateFilesTool`, `FindEmptyDirectoriesTool`, `SearchFilesContentTool`,
  `ReadMultipleTextFilesTool`, `ToolResult`). These cover the text and JSON outputs of the
  tools whose formatting does real work.

The model has these conventions:

- A path is a string. Equality, `starts_with` and hashing work on the Rust-style components
  (`Paths.Components`): a root, a leading `.` of a relative path, `..` and names. Empty and
  interior `.` segments are dropped, as `Path::components` drops them.
- The filesystem is an immutable tree of `FsTree.Node`s. Directories list their children, files
  carry a size and contents, and either may have unreadable metadata.
- The helpers of the `utils` module are function-valued parameters. So are the foreign
  libraries (glob matching, the regex engine, SHA-256, the unified diff, JSON serialisation) and
  the process environment (current directory, home expansion). Each is bundled in a small
  datatype (`PathGuard.Host`, `FileSearch.Globs`, `ContentSearch.Regex`, `Zip.ZipHost`,
  `Edit.TextTools`, ...).
- Methods with loops mirror the loops of the source. Each is proved equal to a specification
  function, and the properties are lemmas about those functions.

## Model

| member | source | states |
|---|---|---|
| PathGuard.ValidatePath | src/fs_service/core.rs:48-96 | an empty allow-list is refused with its fixed message; success holds iff some allowed directory is a component-wise prefix of the normalised absolute path; on success the absolute (not the normalised) path is returned; on failure the error comes from the symlink probe or names "a symlink target path" or "path" |
| PathGuard.EmptyAllowListRejectsAll | src/fs_service/core.rs:53-57 | with no allowed directory every request fails with the empty-list message |
| PathGuard.RelativeRequestJoinsCwd | src/fs_service/core.rs:59-95 | an admitted relative request comes back joined to the current directory; with a non-empty cwd its components are the cwd's followed by the request's own, a leading `.` of the request dropping out |
| PathGuard.DotEntryAdmitsNoAbsolutePath | src/fs_service/core.rs:70-77 | with `"."` as the only allowed directory (what the gateway fix leaves), no request whose normalised path is absolute is admitted: a rooted path does not start with the `.` component |
| PathGuard.SiblingIsDenied | src/fs_service/core.rs:70-77 | a path under `base/n` is refused by an allow-list holding only its sibling `base/m` (so `/allowed-evil` is not under `/allowed`) |
| PathGuard.AdmittedDescendantAdmitted | src/fs_service/core.rs:73-77 | a request that normalises to a child of an allowed directory is admitted |
| Paths.SiblingsDoNotStartWithEachOther | src/fs_service/core.rs:75-76 | component-wise `starts_with`: no path below `base/n` starts with a different sibling `base/m` |
| Paths.JoinComponents | src/fs_service/core.rs:66 | joining a relative path to a non-empty base appends its components, except a leading `.`, to the base's; joining to an empty base gives the relative path's own components |
| Paths.AbsoluteNotUnderCurDir | src/fs_service/core.rs:73-77 | `"."` is the single current-directory component, and no absolute path starts with it |
| Paths.JoinNameComponents | src/fs_service/core.rs:66 | joining one name adds exactly that component, the result starts with the base and its file name is the name |
| Paths.FileName | src/fs_service/archive/zip.rs:148-151 | a file name, when there is one, is the last component of the path |
| PathGuard.ParseFilePath | src/fs_service.rs:142-146 | root parsing never fails, and its result carries no surrounding whitespace |
| PathGuard.ParseFileUri | src/fs_service.rs:142-146 | a leading `file://` is stripped and the rest trimmed: `file://p` parses like `p` |
| PathGuard.Dedupe | src/fs_service/core.rs:106-112 | the `HashSet` collection: only input paths, no two with the same key, and every input's key kept |
| PathGuard.ValidRoots | src/fs_service/core.rs:98-126 | the roots are directories, pairwise distinct by components, each parsed and home-expanded from an input, and every parsed input that is a directory is represented; the warning is present iff some input was skipped, and then counts the parse errors plus the non-directories |
| PathGuard.RootDirsFacts | src/fs_service/core.rs:107-112 | the kept roots are distinct directories drawn from the parsed inputs, and every parsed directory input is kept |
| PathGuard.ExpandedParsed | src/fs_service/core.rs:99-111 | the expanded list holds exactly the home-expanded successful parses |
| PathGuard.ServiceParserNeverErrs | src/fs_service/core.rs:99-104 | with `parse_file_path` as the parser the error partition is always empty |
| PathGuard.FixGateway | src/fs_service/core.rs:134-140 | an input holding the gateway placeholder becomes `"."`, any other input is unchanged, and no result holds the placeholder |
| PathGuard.FixGatewayIdempotent | src/fs_service/core.rs:134-140 | applying the fix twice is applying it once |
| PathGuard.InitialDirs | src/fs_service/core.rs:20-31 | succeeds iff every configured entry, gateway-fixed and home-expanded, is a directory, and then lists those expansions in order; otherwise fails with the message for the first entry that is not a directory |
| PathGuard.FileSystemService.TryNew | src/fs_service/core.rs:20-36 | a fresh service whose list is the checked configuration, or the start-up failure |
| PathGuard.FileSystemService.constructor | src/fs_service/core.rs:33-35 | the service starts with exactly the given list |
| PathGuard.FileSystemService.AllowedDirectories | src/fs_service/core.rs:38-41 | returns the current list |
| PathGuard.FileSystemService.UpdateAllowedPaths | src/fs_service/core.rs:43-46 | the list becomes exactly the new roots: replaced, never merged |
| PathGuard.FileSystemService.Validate | src/fs_service/core.rs:48-52 | validation against the service's current list |
| Limits.FilesizeInRange | src/fs_service.rs:469-483 | true iff the size is within every bound given; true when neither is given |
| Limits.ValidateFileSize | src/fs_service.rs:485-502 | no bound, `Ok` without consulting metadata; a metadata error is passed on; otherwise `Ok` iff in range, with `FileTooLarge` taking precedence over `FileTooSmall` |
| Limits.DetectLineEnding | src/fs_service.rs:223-231 | `"\r\n"` when the text holds it, else `"\r"` when it holds a carriage return, else `"\n"` |
| FsTree.WalkIff | src/fs_service/search/files.rs:69-113 | the `filter_entry` walk yields exactly the entries reached through a chain of accepted ancestors: a rejected entry is pruned with its whole subtree |
| FsTree.WalkChildrenIff | src/fs_service/search/files.rs:69-113 | the walk of a directory's children yields exactly what is reached from one of them |
| FsTree.WalkKept | src/fs_service/search/files.rs:72-113 | every yielded entry passed the filter |
| FsTree.FileSizeSumAppend | src/fs_service.rs:1383-1396 | the size sum of a concatenation is the sum of the sums |
| FileSearch.NamePattern | src/fs_service/search/files.rs:62-67 | a pattern with `*` is lower-cased; one without becomes `"**/*" + lower(p) + "*"`; the result holds a `*` and no upper-case letter |
| FileSearch.NamePatternIdempotent | src/fs_service/search/files.rs:62-67 | normalising a normalised pattern changes nothing |
| FileSearch.ExcludePattern | src/fs_service/search/files.rs:88-94 | a pattern with `*` loses one leading `/` (the split copy only; the copy in src/fs_service.rs:687-691 keeps it); one without becomes `"*" + p + "*"` |
| FileSearch.Select | src/fs_service/search/files.rs:115-124 | the filter keeps exactly the entries satisfying the predicate |
| FileSearch.SearchFiles | src/fs_service/search/files.rs:25-127 | a root that fails validation fails the search with that error; otherwise the search succeeds and every yielded entry is not the root, has a lower-cased name matching the normalised pattern, validates, is not excluded and passes the size filter |
| FileSearch.SearchFilesIff | src/fs_service/search/files.rs:69-124 | an entry is yielded iff it is reached through entries that all validate, are not excluded (relative to the root) and pass the size filter, and it itself passes the name filter |
| FileSearch.PrunedChildYieldsNothing | src/fs_service/search/files.rs:76-112 | nothing below a rejected child is yielded |
| FileSearch.BothBoundsSkipSizeFilter | src/fs_service/search/files.rs:99 | with both bounds given the size filter excludes nothing |
| FileSearch.MissingBoundFiltersSize | src/fs_service/search/files.rs:99-110 | with a bound missing an entry passes iff its metadata is readable and its size is in range (directories included) |
| ContentSearch.EscapeRegex | src/fs_service.rs:1009-1025 | the push loop builds the escaped text: a backslash before each of the 15 special characters |
| ContentSearch.EscapedLength | src/fs_service.rs:1009-1025 | the escape is exactly one character longer per special character |
| ContentSearch.UnescapeEscaped | src/fs_service.rs:1009-1025 | deleting the inserted backslashes recovers the input |
| ContentSearch.EscapedPlain | src/fs_service.rs:1011-1022 | a text without special characters escapes to itself, so nothing else is touched |
| ContentSearch.BoundaryFrom | src/fs_service/search/content.rs:118-144 | the first char boundary at or after a byte offset: no earlier char starts there, and the one found does |
| ContentSearch.SnippetEnd | src/fs_service/search/content.rs:124-136 | the snippet end lies at most `max` chars after its start, and exactly `max` after it unless it is the end of the line |
| ContentSearch.Window | src/fs_service/search/content.rs:150-164 | the snippet's length is its slice plus three for each cut side: a leading `"..."` iff the start is positive, a trailing one iff the end is short of the trimmed line |
| ContentSearch.ExtractSnippet | src/fs_service/search/content.rs:96-165 | the snippet is the window of the trimmed line from the intended start (defaults 200 and 30) to the bounded end; it is at most `max_length + 6` chars |
| ContentSearch.AsWrittenAgrees | src/fs_service/search/content.rs:107-150 | wherever the code as written does not panic it returns the intended snippet |
| ContentSearch.UnderflowExample | src/fs_service/search/content.rs:114 | a match inside the leading whitespace underflows the code as written; the intended snippet is `"x"` |
| ContentSearch.BoundaryExample | src/fs_service/search/content.rs:118-150 | the fallback start lands inside a two-byte char, where the code as written panics; the intended snippet is `"..."` |
| ContentSearch.LineMatchesReport | src/fs_service/search/content.rs:68-81 | at most one result per line, each naming a 1-based line that matches at the reported offset with the snippet around it |
| ContentSearch.LineMatchesEmpty | src/fs_service/search/content.rs:68-85 | no result iff no line matches |
| ContentSearch.ContentSearch | src/fs_service/search/content.rs:44-88 | a pattern that does not compile is an error before the file is read; the literal query is escaped; an unreadable file is an I/O error; `Ok(None)` iff no line matches, otherwise the file's path with a non-empty list of matches |
| ContentSearch.SearchLines | src/fs_service/search/content.rs:68-81 | the sink loop pushes exactly the results of the matching lines, in order |
| ContentSearch.FileContent | src/fs_service/search/content.rs:68-70 | a directory gives no contents, so `search_path` fails on it whatever the node carries; any other entry gives its readable contents |
| ContentSearch.Report | src/fs_service/search/content.rs:189-193 | an entry contributes a result iff its search succeeded with a match |
| ContentSearch.FoundIff | src/fs_service/search/content.rs:188-194 | a result is reported iff some entry's search succeeded with it; errors and misses are dropped |
| ContentSearch.FoundAppend | src/fs_service/search/content.rs:188-194 | the results keep the walk's order |
| ContentSearch.InvalidPatternFindsNothing | src/fs_service/search/content.rs:188-194 | with a pattern that does not compile, every file's error is dropped and nothing is reported |
| ContentSearch.SearchFilesContent | src/fs_service/search/content.rs:168-196 | a root that fails validation is the error; otherwise the results of the searched entries |
| Zip.ZipPattern | src/fs_service/archive/zip.rs:45-49 | a pattern with `*` is lower-cased, one without becomes `"*" + lower(p) + "*"` |
| Zip.RelativeName | src/fs_service/archive/zip.rs:95 | the intended entry name, no longer than the entry's path minus the directory |
| Zip.RelativeNameOfJoin | src/fs_service/archive/zip.rs:95 | an entry reached by joining a relative path, with or without a trailing `/` on the directory, is named by that relative path |
| Zip.AsWrittenAgreesWithoutTrailingSlash | src/fs_service/archive/zip.rs:95 | without a trailing `/` on the directory the code's naming gives back the relative path |
| Zip.TrailingSlashDropsCharacter | src/fs_service/archive/zip.rs:95 | with the directory `/d/` the code names `/d/ab` as `"b"`, where the intended name is `"ab"` |
| Zip.CandidatesIff | src/fs_service/archive/zip.rs:53-72 | an entry is collected iff it is a walked entry that validates, is not the directory itself and matches the pattern, carried with its validated path |
| Zip.WriteDirIff | src/fs_service/archive/zip.rs:77-97 | for either naming (the code's slice or the intended relative name), the writing loop succeeds iff every collected file starts with the directory, can be named and can be written, and it then writes exactly the files, so named, in walk order; directories are skipped |
| Zip.WriteDirStopped | src/fs_service/archive/zip.rs:82-96 | the first error stops the loop: later entries change nothing |
| Zip.NamingsAgree | src/fs_service/archive/zip.rs:95 | when a `/` follows the directory in every file's path, the loop with the code's slice and the loop with the intended names have the same outcome |
| Zip.CandidatesNameable | src/fs_service/archive/zip.rs:53-72 | a collected entry that starts with the directory is longer than it (it is never the directory itself), so the slice at `len + 1` stays in range |
| Zip.DirectoryExistingTarget | src/fs_service/archive/zip.rs:37-43 | an existing target is refused with `AlreadyExists` and no archive is created |
| Zip.DirectoryArchive | src/fs_service/archive/zip.rs:22-111 | after a success, for either naming, an entry is in the archive iff it is a selected non-directory of the walk under the name that naming gives it (the code's slice for `zip_directory` as written) |
| Zip.DirectoryWrites | src/fs_service/archive/zip.rs:53-97 | after a success, for either naming, the archive holds the files of the collected entries, so named, in order |
| Zip.DirectoryNamingsAgree | src/fs_service/archive/zip.rs:22-111 | when a separator follows the validated directory in every collected file's path, `zip_directory` as written has the result and archive of the intended naming |
| Zip.DirArchiveMember | src/fs_service/archive/zip.rs:77-96 | every archived entry comes from a collected file, under the naming's name for it |
| Zip.DirArchiveHas | src/fs_service/archive/zip.rs:77-96 | every collected file is archived under the naming's name for it |
| Zip.ZipDirectory | src/fs_service/archive/zip.rs:16-112 | the method's result and archive are those of `DirectoryOutcome`, `zip_directory` as written, naming entries by the code's slice |
| Zip.WriteEntries | src/fs_service/archive/zip.rs:77-97 | the loop with its early returns and the slice `[input_dir_str.len() + 1..]` computes the code's writing progress |
| Zip.ValidateAllSucceeds | src/fs_service/archive/zip.rs:140-143 | collecting the validations succeeds iff every source validates |
| Zip.ValidateAllValues | src/fs_service/archive/zip.rs:140-143 | after success the collected paths are the validated sources, in order |
| Zip.ValidateAllFirstError | src/fs_service/archive/zip.rs:140-143 | a failure is the error of the first source that does not validate |
| Zip.WriteFilesNames | src/fs_service/archive/zip.rs:147-159 | every written entry is named by its source's file name, in order, and a loop without error writes one entry per source |
| Zip.WriteFilesStopped | src/fs_service/archive/zip.rs:147-159 | the first error stops the loop |
| Zip.FilesMessage | src/fs_service/archive/zip.rs:168-174 | the message says "1 file" when the count is 1, otherwise "N files" |
| Zip.FilesEmptyInput | src/fs_service/archive/zip.rs:121-127 | an empty input list is an `InvalidInput` error and no archive is created |
| Zip.FilesChecksFirst | src/fs_service/archive/zip.rs:128-143 | a source that fails validation fails the call before the archive is created (an existing target is reported first) |
| Zip.FilesArchive | src/fs_service/archive/zip.rs:114-176 | after a success the archive has one entry per input, in order, read from the validated source and named by its file name, and the message counts the inputs |
| Zip.ZipFiles | src/fs_service/archive/zip.rs:114-176 | the method's result and archive are those of the specification `FilesOutcome` |
| Zip.WriteSources | src/fs_service/archive/zip.rs:147-159 | the writing loop computes the specification's progress |
| Duplicates.KeysOf | src/fs_service/search/files.rs:163-166 | the keys of a `HashMap` filled by pushing: distinct, and exactly the keys of the elements |
| Duplicates.Members | src/fs_service/search/files.rs:163-236 | a bucket holds exactly the elements with its key, in push order |
| Duplicates.BigKeys | src/fs_service/search/files.rs:176-243 | a key survives a stage iff its bucket holds more than one element |
| Duplicates.BigKeysDistinct | src/fs_service/search/files.rs:172-178 | the surviving keys stay distinct |
| Duplicates.Buckets | src/fs_service/search/files.rs:172-178 | one bucket per key, each that key's members |
| Duplicates.BigGroupsShareKey | src/fs_service/search/files.rs:172-178 | every surviving bucket has at least two elements, all with the bucket's key |
| Duplicates.BigGroupsDisjoint | src/fs_service/search/files.rs:172-178 | no element is in two surviving buckets |
| Duplicates.BigGroupsSurvivors | src/fs_service/search/files.rs:172-178 | an element survives a stage iff another element shares its key |
| Duplicates.BigGroupsComplete | src/fs_service/search/files.rs:172-178 | two distinct elements with the same key end up in one bucket |
| Duplicates.GroupsShareFullHash | src/fs_service/search/files.rs:213-244 | every reported group has at least two files, all readable, with metadata, and with the same full hash |
| Duplicates.GroupsIdentical | src/fs_service/search/files.rs:213-244 | with an injective hash, the files of a group have identical contents |
| Duplicates.GroupsShareSize | src/fs_service/search/files.rs:148-246 | with an injective hash and recorded lengths that agree with the contents, the files of a group have the same size, although the quick-hash stage mixes sizes |
| Duplicates.GroupsDisjoint | src/fs_service/search/files.rs:240-244 | each file is in at most one group |
| Duplicates.ReportedShareSize | src/fs_service/search/files.rs:160-202 | a file that is hashed or reported has readable metadata and shares its size with another file |
| Duplicates.UniqueSizeNeverReported | src/fs_service/search/files.rs:171-178 | a file whose size is unique is never hashed and never reported |
| Duplicates.SameContentGrouped | src/fs_service/search/files.rs:181-238 | two distinct readable files of equal size and identical contents end up in the same group |
| Duplicates.GroupsMapBuckets | src/fs_service/search/files.rs:163-236 | the map that pushing builds holds exactly the keys seen, each with its bucket |
| Duplicates.PathGroups | src/fs_service/search/files.rs:162-166 | the groups are reported as the entries' paths, shape kept |
| Duplicates.Push | src/fs_service/search/files.rs:163-236 | `entry(k).or_default().push(x)` keeps the map equal to the buckets of everything pushed so far |
| Duplicates.Kept | src/fs_service/search/files.rs:172-244 | the filter over the map yields exactly the buckets of more than one element, in key order |
| Duplicates.Rebucket | src/fs_service/search/files.rs:182-238 | a hashing stage pushes every readable file of the surviving buckets, in order, into the next map |
| Duplicates.PushReadable | src/fs_service/search/files.rs:183-201 | files that cannot be read are skipped by `filter_map` |
| Duplicates.SizeBuckets | src/fs_service/search/files.rs:160-169 | the size map holds the buckets of the files with readable metadata |
| Duplicates.Stages | src/fs_service/search/files.rs:147-244 | the three stages compute the specification's groups |
| Duplicates.FindDuplicateFiles | src/fs_service/search/files.rs:132-247 | validates the root, searches with the pattern defaulting to `"**/*"`, keeps the files and returns the specification's groups |
| Edit.FirstWindowFrom | src/fs_service/io/edit.rs:96-106 | a window found from `i` on lies at or after `i` and matches line by line after trimming both sides |
| Edit.FirstWindowFromSpec | src/fs_service/io/edit.rs:96-161 | the window found is the smallest match: no earlier start matches, and none matches when nothing is found |
| Edit.Pad | src/fs_service/io/edit.rs:137-151 | the relative indent is made of the indent character only: a tab iff the original indent holds a tab, else a space |
| Edit.Reindent | src/fs_service/io/edit.rs:113-155 | one re-indented line per replacement line, in order |
| Edit.ReindentLineShape | src/fs_service/io/edit.rs:108-153 | a re-indented line starts with the original indent, keeps the line's text after its leading whitespace, and its indent is the original indent plus `max(0, new_indent - old_indent)` indent characters; the first line is the original indent followed by the trimmed line |
| Edit.ReindentLineNoBreak | src/fs_service/io/edit.rs:113-155 | re-indenting introduces no line break |
| Edit.ApplyEditExact | src/fs_service/io/edit.rs:60-66 | when the normalised old text occurs, exactly its first occurrence is replaced by the normalised new text |
| Edit.ApplyEditFallback | src/fs_service/io/edit.rs:68-171 | with no exact occurrence: more old lines than content lines is the "spans more lines" error; otherwise the edit succeeds iff some window matches, and fails with the "Could not find exact match" message |
| Edit.FallbackFacts | src/fs_service/io/edit.rs:84-171 | the same three outcomes for the line-window fallback on its own |
| Edit.FallbackLines | src/fs_service/io/edit.rs:96-159 | at the first matching window, the edited text's lines are the lines before it, the re-indented new lines, then the lines after it |
| Edit.FallbackSplice | src/fs_service/io/edit.rs:157-159 | at the first matching window the edit gives the spliced lines joined with `\n` |
| Edit.SpliceLines | src/fs_service/io/edit.rs:157-159 | splitting the joined splice gives back the spliced lines |
| Edit.ReindentNoNewline | src/fs_service/io/edit.rs:113-155 | none of the re-indented lines holds a line break |
| Edit.ApplyEditsAppend | src/fs_service/io/edit.rs:57-59 | edits are applied in order: the edits `a + b` apply `b` to the result of `a`, and an error in `a` is final |
| Edit.FailingEditAborts | src/fs_service/io/edit.rs:164-171 | the first failing edit's error is the result of the whole list |
| Edit.EditsStopped | src/fs_service/io/edit.rs:164-171 | once an edit has failed, later edits change nothing |
| Edit.CreateUnifiedDiff | src/fs_service/io/edit.rs:14-39 | the diff starts with `Index: ` and the file name (`file` when none is given), then a line of 68 `=` |
| Edit.FenceFrom | src/fs_service/io/edit.rs:181-184 | counting up from `k`, the count reached is the first whose run of backticks does not occur in the diff |
| Edit.FenceLength | src/fs_service/io/edit.rs:181-184 | the `while` loop gives the least `k >= 3` such that the diff holds no run of `k` backticks |
| Edit.FormatDiff | src/fs_service/io/edit.rs:185-190 | the reply is the diff between two fences of that length, which the diff does not contain |
| Edit.FileStore.constructor | src/fs_service/io/edit.rs:52 | the store starts with the given files |
| Edit.FileStore.FindWindow | src/fs_service/io/edit.rs:96-163 | the search loop returns the first matching window |
| Edit.FileStore.Step | src/fs_service/io/edit.rs:60-171 | one turn of the edit loop computes the specification's single edit |
| Edit.FileStore.EditAll | src/fs_service/io/edit.rs:57-172 | the edit loop computes the specification's sequential application, returning at the first failure |
| Edit.FileStore.ApplyFileEdits | src/fs_service/io/edit.rs:41-201 | the reply is the fenced diff of the normalised original against the edited text, the same with and without dry run; the store changes only when every edit succeeded and the call is not a dry run, and then only at the target (`save_to` or the file), which receives the edited text with each `\n` turned into the original's line ending |
| Readers.FirstLine | src/fs_service.rs:1209 | one `read_until(b'\n')` returns a prefix of what is left, empty exactly at the end |
| Readers.LinesAfterFirst | src/fs_service.rs:1206-1215 | the lines of a text are its first line read then the lines of the rest |
| Readers.LineReader.constructor | src/fs_service.rs:1201 | a new reader is positioned at the start of the file |
| Readers.LineReader.Seek | src/fs_service.rs:1282 | `seek(SeekFrom::Start(p))` moves the reader to `p` |
| Readers.LineReader.ReadUntil | src/fs_service.rs:1209 | the line returned is the next line, ending included, and what remains is what followed it |
| Readers.ReadLines | src/fs_service.rs:1206-1215 | the read loop returns exactly the first `min(n, L)` lines of what remained and leaves the reader just after them |
| Readers.ReadStep | src/fs_service.rs:1209-1214 | each non-empty read is the next line of the text, appended to the result |
| Readers.ReadToEnd | src/fs_service.rs:1352-1361 | the unbounded loop returns everything that remained |
| Readers.LinesOfConcat | src/fs_service.rs:1206-1215 | lines concatenated (each `\n`-terminated but perhaps the last) read back as the same lines |
| Readers.LinesSplit | src/fs_service.rs:1206-1215 | the text is the concatenation of its lines before and after any line boundary |
| Readers.HeadIsFirstLines | src/fs_service.rs:1194-1218 | the head is a prefix of the file and reads back as exactly its first `min(n, L)` lines |
| Readers.HeadWhole | src/fs_service.rs:1207-1212 | asking for at least as many lines as the file has returns the whole file |
| Readers.HeadFile | src/fs_service.rs:1194-1218 | `head_file` fails with the guard's or the read's error, otherwise returns the head |
| Readers.NewlinesFrom | src/fs_service.rs:1255-1259 | the collected positions are all positions of `\n` in the file |
| Readers.TailStart | src/fs_service.rs:1274-1279 | `start_pos` lies within the file |
| Readers.TailFile | src/fs_service.rs:1225-1302 | `tail_file` fails with the guard's or the read's error, otherwise returns the text read forward from `start_pos` |
| Readers.TailOf | src/fs_service.rs:1234-1301 | the body after opening computes the as-written tail |
| Readers.StartPosition | src/fs_service.rs:1263-1279 | `line_count` adds one for a last byte that is not `\n`, and `start_pos` is computed from it as the code does |
| Readers.ScanNewlines | src/fs_service.rs:1241-1261 | the chunked backward scan collects every `\n` position in descending order and counts them |
| Readers.TailNothing | src/fs_service.rs:1234-1237 | an empty file or `n == 0` gives the empty string |
| Readers.LineCountIsNewlines | src/fs_service.rs:1255-1271 | the number of lines is the number of `\n`s plus one for a partial last line |
| Readers.TailLineCountIsLines | src/fs_service.rs:1241-1272 | `line_count` equals the number of lines a line reader sees |
| Readers.TailWhole | src/fs_service.rs:1275-1276 | a file with at most `n` lines is returned whole |
| Readers.TailDescendingExample | src/fs_service.rs:1275-1279 | on `"a\nb\nc\n"` with `n = 2` the code returns `"c\n"`, not the last two lines |
| Readers.TailLinesAreLastLines | src/fs_service.rs:1220-1224 | the intended tail is a suffix of the file and reads back as exactly its last `min(n, L)` lines |
| Readers.TailFromIntendedStart | src/fs_service.rs:1281-1299 | read forward from the intended start, the code's read loop returns exactly the intended last lines |
| Readers.FileLinesSlice | src/fs_service.rs:1304-1365 | `read_file_lines` returns lines `offset` to `offset + limit` (or to the end) and that text is a contiguous piece of the file |
| Readers.ReadFileLines | src/fs_service.rs:1310-1365 | `read_file_lines` fails with the guard's or the read's error, otherwise returns the selected lines |
| Readers.FileLinesOf | src/fs_service.rs:1325-1362 | an empty file, a zero limit or an offset past the end gives nothing; otherwise the lines after the offset, bounded by the limit |
| Readers.SkipLines | src/fs_service.rs:1330-1337 | the skip loop succeeds iff the file has at least `offset` lines, and then leaves exactly the lines after them |
| Aggregate.TreeMethod | src/fs_service.rs:744-818 | the recursive method returns the specification's listing and the counter it leaves |
| Aggregate.ChildrenMethod | src/fs_service.rs:761-817 | the children loop computes the specification's listing from an empty one |
| Aggregate.ChildStep | src/fs_service.rs:772-811 | one turn of the loop: metadata, name, counter, the `max_files` skip, the recursive call and the push |
| Aggregate.ChildrenSkip | src/fs_service.rs:782-789 | an entry over the `max_files` bound is counted and skipped, and the loop goes on |
| Aggregate.ChildrenDir | src/fs_service.rs:791-811 | a directory child is listed with its subtree's entries and its flag is or-ed in |
| Aggregate.ChildrenFile | src/fs_service.rs:791-811 | a file child is listed as `"file"` with no `children` |
| Aggregate.ChildOk | src/fs_service.rs:773-804 | a successful loop read every child's metadata and name and listed every recursed subtree successfully |
| Aggregate.TreeDepthZero | src/fs_service.rs:764-816 | at depth 0 a directory lists nothing, sets `reached_max_depth` and leaves the counter unchanged |
| Aggregate.TreeRootNotDirectory | src/fs_service.rs:754-759 | a path that is not a directory is refused with "Root path must be a directory" |
| Aggregate.TreeFacts | src/fs_service.rs:744-818 | every successful tree is well formed (directories, and only they, carry `children`); the counter only grows, equals the count plus the entries emitted without `max_files`, and with `max_files` the emitted entries fit in what the bound had left |
| Aggregate.ChildrenFacts | src/fs_service.rs:761-812 | the same facts for the children loop from any point |
| Aggregate.DirectorySize | src/fs_service.rs:1383-1396 | the size fails exactly when the guard refuses the root, and otherwise succeeds |
| Aggregate.FileSizeSumCounts | src/fs_service.rs:1390-1393 | every file with readable metadata contributes its length to the sum |
| Aggregate.DirectorySizeCounts | src/fs_service.rs:1383-1396 | every file the search yields has readable metadata and its size is part of the total; with no file the total is 0 |
| Aggregate.WalkFileSize | src/fs_service.rs:1383-1396 | summing the readable file sizes of the walk's selected entries is summing them over the tree |
| Aggregate.DirectorySizeIsReachedTotal | src/fs_service.rs:1383-1396 | the total is the sum, over the tree at the validated root, of the readable sizes of the files reached through entries the walk keeps and that the final filter accepts; 0 when nothing can be read there |
| Aggregate.NoFilesSumZero | src/fs_service.rs:1387 | entries that are not files add nothing |
| Aggregate.EmptyDirsIff | src/fs_service.rs:1450-1461 | a path is collected iff it is that of an entry that is a directory whose subtree holds only system metadata files |
| Aggregate.EmptyDirsMember | src/fs_service.rs:1456-1459 | every collected path is such a directory |
| Aggregate.EmptyDirsHas | src/fs_service.rs:1450-1459 | every such directory is collected |
| Aggregate.EmptyDirectoriesIff | src/fs_service.rs:1431-1464 | a path is reported iff it is a directory the search yields, other than the root, whose whole subtree holds no file but system metadata files |
| Aggregate.SearchedIsNotRoot | src/fs_service.rs:1436-1445 | the search never yields an entry whose path equals the requested root string (for a relative request the walk starts at the absolute path, which can be yielded) |
| Aggregate.CollectEmptyDirs | src/fs_service.rs:1447-1461 | the loop collects exactly the specification's empty directories, in order |
| Aggregate.FindEmptyDirectories | src/fs_service.rs:1431-1464 | `find_empty_directories` fails with the search's error, otherwise returns the empty directories |
| Handler.ListedRoots | src/handler.rs:92-97 | a failed `list_roots` counts as an empty root list, a successful one gives its roots |
| Handler.ClientRoots | src/handler.rs:99-113 | the client's valid roots are directories, pairwise distinct by components |
| Handler.UpdateDecision | src/handler.rs:72-133 | a client without root support never changes the list and gets the server-args or cannot-operate notice; with root support the valid roots replace the list unless there are none and roots support is off; an update ends with the count notice |
| Handler.ClientDecision | src/handler.rs:99-130 | the list is replaced by the valid roots except when there are none and roots support is off; the skip warning comes first |
| Handler.DecisionIgnoresCurrent | src/handler.rs:115-125 | the new list does not depend on the old one: roots replace, they do not merge |
| Handler.ListFailureIsEmpty | src/handler.rs:92-125 | a failed `list_roots` empties the list with roots support on and keeps it with roots support off |
| Handler.EmptyRootsLockOut | src/handler.rs:99-125 | with roots support on, a client listing no root empties the allow-list, after which every path is refused |
| Handler.SubMessage | src/handler.rs:56-67 | the waiting notice exactly when the list is empty and roots support is on, otherwise the comma-joined directories |
| Handler.CommonMessageInjective | src/handler.rs:41-53 | two banners are equal iff both the mode and the roots-support setting agree |
| Handler.FileSystemHandler.constructor | src/handler.rs:25-29 | read-only is the negation of `allow_write`, roots support is `enable_roots` |
| Handler.FileSystemHandler.New | src/handler.rs:23-30 | building the handler fails exactly when the service cannot be built, with its error; otherwise the service holds the initial list |
| Handler.FileSystemHandler.AssertWriteAccess | src/handler.rs:32-38 | `NoWriteAccess` exactly in read-only mode |
| Handler.FileSystemHandler.HandleCallToolRequest | src/handler.rs:185-196 | an unparsed request fails with the parse error, a writing tool fails with `NoWriteAccess` in read-only mode before it runs, every other request goes to its runner |
| Handler.FileSystemHandler.StartupMessageNow | src/handler.rs:40-70 | the banner over the service's current list |
| Handler.FileSystemHandler.UpdateAllowedDirectories | src/handler.rs:72-133 | the notices are the decision's, and the service's list becomes the decided list or stays as it was |
| Handler.ReadOnlyNeverRunsWriteTools | src/handler.rs:193-196 | in read-only mode the answer to a writing tool is `NoWriteAccess` whatever the runner does |
| Handler.ReadToolsAlwaysRun | src/handler.rs:193-196 | a reading tool runs in both modes |
| Tools.RequireWriteAccess | src/tools.rs:81-108 | a tool needs write access iff it is one of the seven writing tools |
| Tools.AllToolsExhaustive | src/tools.rs:48-76 | the tool list holds 24 distinct tools and every variant |
| Tools.WriteToolCount | src/tools.rs:48-108 | exactly seven of the listed tools need write access |
| Tools.PlacesCount | src/tools.rs:52-64 | the writing tools occupy seven places of the list |
| Tools.WriteToolPlace | src/tools.rs:48-108 | a tool needs write access iff its place in the list is one of the writing places |
| Tools.HintsAgree | src/tools/write_file.rs:15 | a tool annotated read-only never needs write access, and one annotated as not read-only does |
| DirectoryTreeTool.RunTool | src/tools/directory_tree.rs:31-73 | a traversal error fails the call; an empty listing fails with "Could not find any entries"; otherwise the JSON of the entries, with the warning exactly when the depth limit was reached |
| DirectoryTreeTool.CounterCountsEntries | src/tools/directory_tree.rs:35-53 | with no `max_files` and a counter from zero the counter is the number of entries, zero iff the listing is empty |
| DirectoryTreeTool.SizeZero | src/tools/directory_tree.rs:49 | only an empty listing has no entries at any level |
| DirectoryTreeTool.WarningIffDepthReached | src/tools/directory_tree.rs:58-70 | a successful call carries the warning iff the traversal stopped at the depth limit |
| DirectoryTreeTool.DepthZeroFails | src/tools/directory_tree.rs:42-53 | a depth limit of zero makes the call fail as empty |
| ListDirectoryWithSizesTool.Insert | src/tools/list_directory_with_sizes.rs:46 | inserting adds one entry |
| ListDirectoryWithSizesTool.ByName | src/tools/list_directory_with_sizes.rs:46 | sorting keeps the number of entries |
| ListDirectoryWithSizesTool.InsertMultiset | src/tools/list_directory_with_sizes.rs:46 | inserting adds exactly that entry to the multiset |
| ListDirectoryWithSizesTool.ByNamePermutation | src/tools/list_directory_with_sizes.rs:46 | the sort is a permutation |
| ListDirectoryWithSizesTool.InsertSorted | src/tools/list_directory_with_sizes.rs:46 | inserting into a name-sorted list keeps it sorted |
| ListDirectoryWithSizesTool.ByNameSorted | src/tools/list_directory_with_sizes.rs:46 | the sort orders the entries by name |
| ListDirectoryWithSizesTool.Row | src/tools/list_directory_with_sizes.rs:53-69 | an entry prints a line iff `is_dir()` or `is_file()` holds, i.e. its metadata can be read and it is a directory (`[DIR]` line) or a file (`[FILE]` line); anything else, including an entry with unreadable metadata, prints nothing |
| ListDirectoryWithSizesTool.FormatDirectoryEntries | src/tools/list_directory_with_sizes.rs:34-81 | the sort and the loop compute the specification's listing |
| ListDirectoryWithSizesTool.SummaryPieces | src/tools/list_directory_with_sizes.rs:73-78 | the two `writeln!` calls form the summary |
| ListDirectoryWithSizesTool.EntryLines | src/tools/list_directory_with_sizes.rs:49-70 | the loop returns every row, the count of readable directories, the count of readable files and the sum of those files' sizes |
| ListDirectoryWithSizesTool.AddEntry | src/tools/list_directory_with_sizes.rs:53-69 | a readable directory adds its row and one to the directory count; a readable file adds its row, one to the file count and its size to the total; any other entry adds nothing |
| ListDirectoryWithSizesTool.InsertKeepsTotals | src/tools/list_directory_with_sizes.rs:46-68 | inserting does not change the counts or the total |
| ListDirectoryWithSizesTool.ByNameKeepsTotals | src/tools/list_directory_with_sizes.rs:46-68 | sorting changes neither the counts nor the total |
| ListDirectoryWithSizesTool.ListingSummary | src/tools/list_directory_with_sizes.rs:34-81 | the listing is the rows of the name-sorted permutation of the entries followed by the summary of the entries as given, in any order |
| ListDirectoryWithSizesTool.UnlistedEntrySkipped | src/tools/list_directory_with_sizes.rs:53-69 | an entry that is neither a readable directory nor a readable file leaves the whole listing unchanged: no row, no count, no size |
| ListDirectoryWithSizesTool.RunTool | src/tools/list_directory_with_sizes.rs:83-99 | a listing error fails the call, otherwise the text is the listing |
| FindDuplicateFilesTool.FileLines | src/tools/find_duplicate_files.rs:60-62 | one indented line per file, in order |
| FindDuplicateFilesTool.FormatText | src/tools/find_duplicate_files.rs:47-65 | the text loop produces the header and a numbered block per group |
| FindDuplicateFilesTool.FormatFiles | src/tools/find_duplicate_files.rs:60-62 | the inner loop produces one line per file |
| FindDuplicateFilesTool.NothingFound | src/tools/find_duplicate_files.rs:50-51 | with no group the text is the one sentence |
| FindDuplicateFilesTool.TextOutputLines | src/tools/find_duplicate_files.rs:47-65 | read back line by line, the text gives the header, then for each group in order an empty line, its number from 1 and its files |
| FindDuplicateFilesTool.GroupMapIff | src/tools/find_duplicate_files.rs:68-72 | the JSON map's keys are exactly "0" to "N-1", each mapping to the group at that index |
| FindDuplicateFilesTool.KeyOrder | src/tools/find_duplicate_files.rs:68 | in the map's string order "10" sorts before "2" |
| FindDuplicateFilesTool.FormatOutput | src/tools/find_duplicate_files.rs:42-78 | text gives the text form, JSON the serialised index map |
| FindDuplicateFilesTool.MinBytesOrDefault | src/tools/find_duplicate_files.rs:89 | an absent `min_bytes` becomes 1, a given one is kept |
| FindDuplicateFilesTool.RunTool | src/tools/find_duplicate_files.rs:80-104 | a service error fails the call, otherwise the groups in the requested format, text by default |
| FindEmptyDirectoriesTool.Noun | src/tools/find_empty_directories.rs:72-76 | "directory" exactly for one |
| FindEmptyDirectoriesTool.DirLines | src/tools/find_empty_directories.rs:81-83 | one indented line per directory, in order |
| FindEmptyDirectoriesTool.FormatOutput | src/tools/find_empty_directories.rs:58-92 | text gives the header and the directory lines, JSON the serialised list |
| FindEmptyDirectoriesTool.NothingFound | src/tools/find_empty_directories.rs:66-67 | with no directory the text is the one sentence |
| FindEmptyDirectoriesTool.TextOutputLines | src/tools/find_empty_directories.rs:63-85 | read back line by line, the text gives the header and then every directory in order |
| FindEmptyDirectoriesTool.RunTool | src/tools/find_empty_directories.rs:40-56 | a service error fails the call, otherwise the directories in the requested format, text by default |
| SearchFilesContentTool.MatchLines | src/tools/search_files_content.rs:54-61 | one line per match, in order |
| SearchFilesContentTool.FormatResult | src/tools/search_files_content.rs:43-68 | the loops produce a block per file: path, match lines, empty line |
| SearchFilesContentTool.FormatMatches | src/tools/search_files_content.rs:54-61 | the inner loop produces one line per match |
| SearchFilesContentTool.NothingFormatted | src/tools/search_files_content.rs:49-67 | no file gives no text |
| SearchFilesContentTool.FormattedLines | src/tools/search_files_content.rs:43-68 | read back line by line, the text gives each file's path, its matches in order and an empty line |
| SearchFilesContentTool.BlocksLength | src/tools/search_files_content.rs:49-65 | the text has one line per match plus two per file |
| SearchFilesContentTool.IsRegexOrDefault | src/tools/search_files_content.rs:73 | the search is a regex search only when the caller asks for one |
| SearchFilesContentTool.RunTool | src/tools/search_files_content.rs:69-98 | the call always succeeds: a service error and an empty result become error results, anything else the formatted text |
| ReadMultipleTextFilesTool.Segments | src/tools/read_multiple_text_files.rs:32-50 | one segment per path, in the paths' order |
| ReadMultipleTextFilesTool.RunTool | src/tools/read_multiple_text_files.rs:28-55 | the call never fails and returns one text content |
| ReadMultipleTextFilesTool.SegmentStartsWithPath | src/tools/read_multiple_text_files.rs:42-45 | every segment starts with its path and a colon |
| ReadMultipleTextFilesTool.SegmentTellsOutcome | src/tools/read_multiple_text_files.rs:42-45 | the character after the colon is a newline exactly when the read succeeded |
| ReadMultipleTextFilesTool.ReadContentRecovered | src/tools/read_multiple_text_files.rs:44 | a successful read's content is recovered whole from its segment |
| ReadMultipleTextFilesTool.BatchesJoin | src/tools/read_multiple_text_files.rs:50-54 | two batches of paths give their texts joined by the separator |
| ReadMultipleTextFilesTool.SingleAndNone | src/tools/read_multiple_text_files.rs:52-54 | one path gives its segment alone, no path the empty text |
| ToolResult.FormatOrDefault | src/tools/find_empty_directories.rs:50 | an absent output format means text |
| ToolResult.ReadBack | src/tools/find_empty_directories.rs:81-83 | lines printed with `writeln!` split back into the same lines |
| Text.TrimStart | src/fs_service/io/edit.rs:119 | the result is a suffix, starts with no whitespace, and everything dropped is whitespace |
| Text.TrimEnd | src/fs_service/io/edit.rs:70-76 | the result is a prefix, ends with no whitespace, and everything dropped is whitespace |
| Text.FindFrom | src/fs_service/io/edit.rs:63 | the first occurrence at or after the start, or none at all |
| Text.JoinSplit | src/fs_service/io/edit.rs:71-159 | splitting at a character and joining with it gives the text back |
| Text.SplitJoin | src/fs_service/io/edit.rs:71-159 | joining parts free of the character and splitting gives the parts back |
| Text.Lower | src/fs_service/search/files.rs:63-65 | ASCII lower-casing keeps the length and maps each character on its own |
| Text.LowerIdempotent | src/fs_service/search/files.rs:63-65 | lower-casing twice is lower-casing once, and leaves no upper-case ASCII letter |
| Text.NatToStringRoundTrip | src/tools/find_duplicate_files.rs:71 | a decimal rendering reads back as the number |
| Text.NatToStringInjective | src/tools/find_duplicate_files.rs:71 | different numbers render differently |
| Text.LexLeTotal | src/tools/find_duplicate_files.rs:68 | the map's key order is total |
| Text.LexLeAntisym | src/tools/find_duplicate_files.rs:68 | the map's key order is antisymmetric |
| Text.LexLeTrans | src/tools/find_duplicate_files.rs:68 | the map's key order is transitive |
| Text.PadRight | src/tools/list_directory_with_sizes.rs:54 | `{:<30}` pads to the width and keeps the text at the front |
| Text.PadLeft | src/tools/list_directory_with_sizes.rs:62 | `{:>10}` pads to the width and keeps the text at the end |
| Text.ByteLenAppend | src/fs_service/search/content.rs:107 | the UTF-8 length of a concatenation is the sum of the lengths |
| Text.LinesWithEndingsSound | src/fs_service.rs:1209 | the lines a line reader sees concatenate to the text, and each is one line |

## Left out

- Real I/O is not modelled. A file's contents, a directory's children and metadata reads come from the `FsTree.Node` tree or from parameters. An I/O error partway through a read, a failing `File::create`, and a failing archive `close()` or write are not modelled; the `write_zip_entry` parameter stands for the entry write.
- A short `read_exact` or `read` is not modelled: the quick hash is taken over the first `min(len, 4096)` characters of the contents.
- Bytes are characters (lossy UTF-8 decoding is the identity), except in snippet extraction, which works with the UTF-8 width of each character. A failing `to_str` on a non-UTF-8 path is not modelled.
- Symlinks are not modelled. The guard is the lexical prefix check the code makes, and the model claims no defence against a symlink escape.
- Concurrency is modelled sequentially: rayon's `par_iter` and `par_bridge`, `join_all`, the `tokio::spawn` in `update_allowed_directories` and the `RwLock` around the allow-list. The model says nothing about the atomicity of interleaved calls.
- `HashMap` iteration order is unspecified in the source. The model iterates in the order keys first appear, so the orders the duplicate stages produce are one valid order, not the only one.
- ListDirectoryWithSizesTool.ByName: the in-place `sort_by_key` is modelled as an insertion sort on a sequence, proved sorted and a permutation, not as an in-place array sort.
- JSON serialisation (`serde_json::to_string_pretty`), `format_bytes` and the `Display` of service errors are parameters. The key order of a `BTreeMap` is left to the serialiser, and the index map is stated as a map.
- `glob_match`, `glob::Pattern`, the regex engine, SHA-256, the `similar` diff and the `utils` helpers (`normalize_path`, `expand_home`, `contains_symlink`, `normalize_line_endings`, `is_system_metadata_file`, `write_zip_entry`) are function-valued parameters. Nothing is assumed about them beyond what each contract says.
- Handler.FileSystemHandler.HandleCallToolRequest: only the write gate is modelled. Dispatch to the individual tools is the `run` parameter, because the dispatch `match` names tool variants by older names.
- Handler.ClientRoots: the `Err(_err) => vec![]` arm of the roots update is not modelled. `valid_roots` parses with `parse_file_path`, which never fails, so that arm cannot be taken.
- `read_text_file`, which the batch reader calls, is the `read` parameter of `ReadMultipleTextFilesTool`.
- The monolithic copies in `src/fs_service.rs` of functions that also exist in the split files are not modelled separately. The exception is the `glob::Pattern` search engine (`FileSearch.Monolithic`), which `find_empty_directories` and `calculate_directory_size` use and which does not strip a leading `/` from exclude patterns.
- `write_file`, the thin single-call tools, the media readers, `unzip_file` (its entry names are joined to the target with no containment check), the server, the transport and the command-line parser are not part of this model.
- PathGuard.InitialDirs: the panic of `try_new` on a configured entry that is not a directory is modelled as an `Err` carrying the panic's message.
- Edit.FileStore.ApplyFileEdits: `save_to` is not validated against the allow-list, as in the source, and a failing write is not modelled.
- Readers.TailFile: the code's `start_pos` is modelled as written, so its contract does not promise the last `n` lines (see Findings). The promise is proved for the intended tail, `Readers.TailLines`.
- Aggregate.TreeMethod: walkdir's order of the children is the order of the node's `children` sequence, and walkdir entries that fail are not modelled.
- Readers.FileLinesOf: the capacity estimates (`String::with_capacity`) are dropped, since they do not change a result.
- ContentSearch.ContentSearch: a NUL byte anywhere in the file is treated as if it were seen before the first line, so no line of such a file is reported. The searcher detects binary data per buffer, so in a file larger than one buffer it can still report matches from buffers read before the one that holds the NUL. The sink also builds each snippet with the intended `ContentSearch.ExtractSnippet`, not with `extract_snippet` as written: on the inputs of the first two Findings rows the source panics (or, in a release build, returns `"..."`) where the model reports the intended snippet. Finally, one `find` of the regex parameter stands both for the searcher's decision that a line matches and for the sink's `matcher.find(line)?.unwrap()`. A disagreement between the two, which makes the `unwrap` panic, cannot be represented.
- Text.Lower: lower-casing is ASCII-only. Rust's Unicode `to_lowercase` also maps non-ASCII letters (`É` to `é`) and can change the length (`İ` becomes two characters); neither is modelled.
- FileSearch.NamePattern: the pattern and the entry names it is matched against (`FileSearch.Yield`) are lower-cased with the ASCII-only `Text.Lower`, so a non-ASCII name matches only case-sensitively.
- Zip.ZipPattern: only the pattern is lower-cased, with the ASCII-only `Text.Lower` where Rust's `to_lowercase` is Unicode. The validated paths it is matched against (`Zip.Selects`) are not lower-cased, as in the source, so a pattern with an upper-case letter such as `README` never matches `/d/README.md`.
- Zip.WriteEntries: the panic of the slice `[input_dir_str.len() + 1..]` when a path is no longer than the directory is modelled as an `Internal` error. `Zip.CandidatesNameable` shows that no collected entry reaches it.
- ListDirectoryWithSizesTool.FormatDirectoryEntries: the `metadata()?` error of a file is not modelled. `is_file()` has just read the same metadata, so that error needs the file to change in between. For a link to a file the source reports the link's own length (`DirEntry::metadata` does not follow links); symlinks are not modelled.
- ListDirectoryWithSizesTool.EntryLines: the `u64` total is an unbounded `nat`, so an overflow past 2^64 - 1 is not modelled.
- Aggregate.DirectorySize: the `u64` total is an unbounded `nat`, so an overflow past 2^64 - 1 is not modelled.
- Limits.DetectLineEnding: this is the copy in `src/fs_service.rs`. The `utils::detect_line_ending` that the edit engine imports is not part of this model and is taken to behave the same.
- PathGuard.ValidRoots: the roots are collected through a `HashSet`, whose order is unspecified. The model keeps the order in which the inputs first appear, so its list is one possible order, not the only one.

## Findings

| source | as written | input that shows it | evidently intended | confidence | as-written member | corrected member |
|---|---|---|---|---|---|---|
| src/fs_service/search/content.rs:107-114 | `match_result.start() - start_pos` is computed on `usize` and underflows when the match starts inside the line's leading whitespace: a debug build panics (the model's `None`), a release build wraps and returns `"..."` | the line `"  x\n"` with the literal query `" x"`, matched at byte 1 | the offset is taken relative to the trimmed line, saturating at 0, giving the snippet `"x"` | medium, not executed | ContentSearch.ExtractSnippetAsWritten, ContentSearch.UnderflowExample | ContentSearch.ExtractSnippet, ContentSearch.AsWrittenAgrees |
| src/fs_service/search/content.rs:118-150 | when no char boundary lies at or after `desired_start`, the fallback `desired_start.min(line.len())` can fall inside a multi-byte character, and slicing there panics | the line `"é"` plus 30 spaces plus `"\n"`, with the regex `(?m) $` matched at byte 31 | the snippet starts at the end of the trimmed line, giving `"..."` | medium, not executed | ContentSearch.ExtractSnippetAsWritten, ContentSearch.BoundaryExample | ContentSearch.ExtractSnippet, ContentSearch.AsWrittenAgrees |
| src/fs_service/archive/zip.rs:95 | the entry name always skips one character after the input directory, even when that directory already ends in a separator; `input_dir_str` is the path `validate_path` returns, which is not normalised, so a trailing `/` in the request stays | the request `/d/` for the directory and the file `/d/ab`, archived as `b` | the name is the path relative to the input directory, `ab` | high, not executed | Zip.RelativeNameAsWritten, Zip.TrailingSlashDropsCharacter, Zip.ZipDirectory | Zip.RelativeName, Zip.RelativeNameOfJoin, Zip.DirectoryNamingsAgree |
| src/fs_service.rs:1274-1279 | `start_pos` indexes the descending list of newline positions at `line_count - n`, and lands one line too far on this input | the file `"a\nb\nc\n"` with `n = 2` gives `"c\n"` | the last `min(n, L)` lines, `"b\nc\n"` | high, not executed | Readers.Tail, Readers.TailDescendingExample | Readers.TailLines, Readers.TailLinesAreLastLines, Readers.TailFromIntendedStart |
