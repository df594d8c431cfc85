/**
 * `apply_file_edits` and `create_unified_diff` (src/fs_service/io/edit.rs): edits are applied one
 * after another to the normalised content, each by exact first-occurrence replacement or, failing
 * that, by a whitespace-tolerant match of a window of lines that is then re-indented; the diff is
 * fenced with enough backticks, and the file is written once, after every edit has succeeded,
 * unless the call is a dry run.
 */
module Edit {
  import opened Wrappers
  import opened Paths
  import T = Text
  import G = PathGuard
  import L = Limits

  /** One requested edit: the text to find and the text to put in its place. */
  datatype EditOperation = EditOperation(oldText: string, newText: string)

  /**
   * The helpers the engine calls but does not define: `normalize_line_endings`, and the
   * `similar` unified diff of two texts under two header names (with context radius 4).
   */
  datatype TextTools = TextTools(normalizeLineEndings: string -> string,
                                 unifiedDiff: (string, string, string, string) -> string)

  /** The lines `content[i..i + |olds|]` equal `olds` line by line once both sides are trimmed. */
  predicate WindowMatches(olds: seq<string>, content: seq<string>, i: nat) {
    i + |olds| <= |content| && TrimmedEqual(olds, content[i..i + |olds|])
  }

  /** Two lists of lines that agree line by line once every line is trimmed. */
  predicate TrimmedEqual(a: seq<string>, b: seq<string>) {
    |a| == |b| && forall j :: 0 <= j < |a| ==> T.Trim(a[j]) == T.Trim(b[j])
  }

  /** The least start `>= i` of a matching window. */
  function FirstWindowFrom(olds: seq<string>, content: seq<string>, i: nat): (r: Option<nat>)
    decreases |content| - i
    ensures r.Some? ==> i <= r.value && WindowMatches(olds, content, r.value)
  {
    if i + |olds| > |content| then None
    else if WindowMatches(olds, content, i) then Some(i)
    else FirstWindowFrom(olds, content, i + 1)
  }

  /** The search finds no window before the one it returns; it fails only when none exists. */
  lemma {:induction false} FirstWindowFromSpec(olds: seq<string>, content: seq<string>, i: nat)
    ensures var r := FirstWindowFrom(olds, content, i);
      (r.Some? ==> forall j :: i <= j < r.value ==> !WindowMatches(olds, content, j)) &&
      (r.None? ==> forall j :: i <= j ==> !WindowMatches(olds, content, j))
    decreases |content| - i
  {
    if i + |olds| <= |content| && !WindowMatches(olds, content, i) {
      FirstWindowFromSpec(olds, content, i + 1);
      var r := FirstWindowFrom(olds, content, i + 1);
      forall j | i <= j && (r.None? || j < r.value) ensures !WindowMatches(olds, content, j) {
        if j > i {
          assert i + 1 <= j;
        }
      }
    }
  }

  /** The smallest index at which the old lines match, if any. */
  function FirstWindow(olds: seq<string>, content: seq<string>): Option<nat> {
    FirstWindowFrom(olds, content, 0)
  }

  /** The character the replacement is indented with: a tab iff the original indent holds one. */
  function IndentChar(originalIndent: string): char {
    if '\t' in originalIndent then '\t' else ' '
  }

  /**
   * Line `j` of the replacement: the first keeps the matched line's indent; a later one adds, in
   * the indent character, as many characters as its own indent is longer, in bytes, than the
   * indent of old line `j` (none when it is shorter, or when there is no old line `j`).
   */
  function ReindentLine(originalIndent: string, olds: seq<string>, j: nat, line: string): string {
    originalIndent + Pad(originalIndent, olds, j, line) + T.TrimStart(line)
  }

  /** The indent added after the original one: none on the first line. */
  function Pad(originalIndent: string, olds: seq<string>, j: nat, line: string): (r: string)
    ensures forall k :: 0 <= k < |r| ==> r[k] == IndentChar(originalIndent)
  {
    if j == 0 then ""
    else
      var oldIndent := if j < |olds| then T.LeadingWhitespace(olds[j]) else "";
      var newIndent := T.LeadingWhitespace(line);
      var relative := if T.ByteLen(newIndent) >= T.ByteLen(oldIndent)
                      then T.ByteLen(newIndent) - T.ByteLen(oldIndent) else 0;
      T.Repeat(IndentChar(originalIndent), relative)
  }

  function Reindent(originalIndent: string, olds: seq<string>, lines: seq<string>): (r: seq<string>)
    ensures |r| == |lines|
    ensures forall j :: 0 <= j < |lines| ==> r[j] == ReindentLine(originalIndent, olds, j, lines[j])
  {
    seq(|lines|, j requires 0 <= j < |lines| => ReindentLine(originalIndent, olds, j, lines[j]))
  }

  /**
   * Re-indenting changes only leading whitespace: a line of the replacement is the original
   * indent, then whitespace, then the new line with its own indent removed; with an indent and
   * a line free of line breaks the result holds none either.
   */
  lemma ReindentLineShape(originalIndent: string, olds: seq<string>, j: nat, line: string)
    requires forall k :: 0 <= k < |originalIndent| ==> T.IsWhitespace(originalIndent[k])
    ensures var r := ReindentLine(originalIndent, olds, j, line);
      originalIndent <= r &&
      T.TrimStart(r) == T.TrimStart(line) &&
      T.LeadingWhitespace(r) == originalIndent + Pad(originalIndent, olds, j, line)
    ensures j == 0 ==> ReindentLine(originalIndent, olds, j, line) == originalIndent + T.TrimStart(line)
  {
    var pad := Pad(originalIndent, olds, j, line);
    var ws := originalIndent + pad;
    var rest := T.TrimStart(line);
    var r := ReindentLine(originalIndent, olds, j, line);
    assert r == ws + rest;
    assert T.TrimStart(r) == rest by {
      WhitespaceAppend(originalIndent, pad);
      T.TrimStartAfterWhitespace(ws, line);
    }
    SplitAtRest(r, ws, rest);
    assert originalIndent <= r by {
      PrefixOfAppend(originalIndent, pad, rest);
    }
    if j == 0 {
      assert ws == originalIndent;
    }
  }

  /** With an indent and a line free of line breaks, the re-indented line holds none either. */
  lemma ReindentLineNoBreak(originalIndent: string, olds: seq<string>, j: nat, line: string)
    requires '\n' !in originalIndent && '\n' !in line
    ensures '\n' !in ReindentLine(originalIndent, olds, j, line)
  {
    var pad := Pad(originalIndent, olds, j, line);
    var rest := T.TrimStart(line);
    SuffixNoNewline(line, rest);
  }


  lemma PrefixOfAppend(a: string, b: string, c: string)
    ensures a <= (a + b) + c
  {
    assert ((a + b) + c)[..|a|] == a;
  }

  /** A text split as `ws + rest` where `rest` is its trimmed form has `ws` as its indent. */
  lemma SplitAtRest(r: string, ws: string, rest: string)
    requires r == ws + rest && T.TrimStart(r) == rest
    ensures T.LeadingWhitespace(r) == ws
  {
    var lw := T.LeadingWhitespace(r);
    assert lw + rest == ws + rest;
    assert |lw| == |ws|;
    assert lw == (lw + rest)[..|lw|];
  }

  /** The indent characters are whitespace, and so is an indent followed by them. */
  lemma WhitespaceAppend(indent: string, pad: string)
    requires forall k :: 0 <= k < |indent| ==> T.IsWhitespace(indent[k])
    requires forall k :: 0 <= k < |pad| ==> pad[k] == IndentChar(indent)
    ensures forall k :: 0 <= k < |indent + pad| ==> T.IsWhitespace((indent + pad)[k])
  {
    forall k | 0 <= k < |indent + pad| ensures T.IsWhitespace((indent + pad)[k]) {
      if k >= |indent| {
        assert (indent + pad)[k] == pad[k - |indent|];
      }
    }
  }

  lemma SuffixNoNewline(line: string, rest: string)
    requires |rest| <= |line| && rest == line[|line| - |rest|..]
    ensures '\n' !in line ==> '\n' !in rest
  {
    if '\n' in rest {
      var k :| 0 <= k < |rest| && rest[k] == '\n';
      assert line[|line| - |rest| + k] == '\n';
    }
  }

  /** The message of the fallback when the old text has more lines than the content. */
  function TooManyLinesMessage(oldLines: nat, contentLines: nat): string {
    "Cannot apply edit: the original text spans more lines (" + T.NatToString(oldLines) +
    ") than the file content (" + T.NatToString(contentLines) + ")."
  }

  function NoMatchMessage(oldText: string): string {
    "Could not find exact match for edit:\n" + oldText
  }

  /** The lines the fallback compares: the text without trailing whitespace, split at `\n`. */
  function Lines(s: string): (r: seq<string>)
    ensures |r| >= 1
  {
    T.Split(T.TrimEnd(s), '\n')
  }

  /** The fallback: the content with the first matching window replaced by re-indented lines. */
  function Splice(content: seq<string>, olds: seq<string>, i: nat, newText: string): string
    requires 1 <= |olds| && i + |olds| <= |content|
  {
    T.Join(SplicedLines(content, olds, i, newText), "\n")
  }

  /** The lines of the fallback's result: the window replaced by the re-indented new lines. */
  function SplicedLines(content: seq<string>, olds: seq<string>, i: nat, newText: string): seq<string>
    requires 1 <= |olds| && i + |olds| <= |content|
  {
    content[..i] + Reindent(T.LeadingWhitespace(content[i]), olds, T.Split(newText, '\n')) + content[i + |olds|..]
  }

  /** One edit applied to the current content (one turn of the `for edit in edits` loop). */
  function ApplyEdit(tt: TextTools, content: string, e: EditOperation): SResult<string> {
    var o := tt.normalizeLineEndings(e.oldText);
    var n := tt.normalizeLineEndings(e.newText);
    if T.Contains(content, o) then Ok(T.ReplaceFirst(content, o, n))
    else Fallback(content, o, n, e.oldText)
  }

  /** When the old text occurs, its first occurrence is replaced by the new text. */
  lemma ApplyEditExact(tt: TextTools, content: string, e: EditOperation)
    ensures var o := tt.normalizeLineEndings(e.oldText);
      var n := tt.normalizeLineEndings(e.newText);
      T.Contains(content, o) ==>
        var i := T.Find(content, o).value;
        T.OccursAt(content, o, i) && (forall j :: 0 <= j < i ==> !T.OccursAt(content, o, j)) &&
        ApplyEdit(tt, content, e) == Ok(content[..i] + n + content[i + |o|..])
  {
  }

  /**
   * When it does not, the fallback fails on an old text of more lines than the content, and
   * otherwise succeeds exactly when some window of lines matches once trimmed.
   */
  lemma ApplyEditFallback(tt: TextTools, content: string, e: EditOperation)
    ensures var o := tt.normalizeLineEndings(e.oldText);
      var r := ApplyEdit(tt, content, e);
      !T.Contains(content, o) ==>
        (|Lines(o)| > |Lines(content)| ==> r == Err(Internal(TooManyLinesMessage(|Lines(o)|, |Lines(content)|)))) &&
        (|Lines(o)| <= |Lines(content)| ==>
          (r.Ok? <==> exists i :: WindowMatches(Lines(o), Lines(content), i)) &&
          (r.Err? ==> r.error == Internal(NoMatchMessage(e.oldText))))
  {
    FallbackFacts(content, tt.normalizeLineEndings(e.oldText), tt.normalizeLineEndings(e.newText), e.oldText);
  }

  /** The whitespace-tolerant fallback, on the normalised old and new texts. */
  function Fallback(content: string, o: string, n: string, oldText: string): SResult<string> {
    var olds := Lines(o);
    var lines := Lines(content);
    if |olds| > |lines| then Err(Internal(TooManyLinesMessage(|olds|, |lines|)))
    else
      match FirstWindow(olds, lines)
      case None => Err(Internal(NoMatchMessage(oldText)))
      case Some(i) => Ok(Splice(lines, olds, i, n))
  }

  lemma FallbackFacts(content: string, o: string, n: string, oldText: string)
    ensures var r := Fallback(content, o, n, oldText);
      (|Lines(o)| > |Lines(content)| ==> r == Err(Internal(TooManyLinesMessage(|Lines(o)|, |Lines(content)|)))) &&
      (|Lines(o)| <= |Lines(content)| ==>
        (r.Ok? <==> exists i :: WindowMatches(Lines(o), Lines(content), i)) &&
        (r.Err? ==> r.error == Internal(NoMatchMessage(oldText))))
  {
    FirstWindowFromSpec(Lines(o), Lines(content), 0);
  }

  /**
   * The fallback's result, line by line: the lines before the first matching window and after
   * it are the content's own, and the window is replaced by one re-indented line per line of
   * the new text.
   */
  lemma FallbackLines(tt: TextTools, content: string, e: EditOperation, i: nat)
    requires !T.Contains(content, tt.normalizeLineEndings(e.oldText))
    requires FirstWindow(Lines(tt.normalizeLineEndings(e.oldText)), Lines(content)) == Some(i)
    ensures var olds := Lines(tt.normalizeLineEndings(e.oldText));
      var lines := Lines(content);
      var n := T.Split(tt.normalizeLineEndings(e.newText), '\n');
      var r := ApplyEdit(tt, content, e);
      1 <= |olds| && i + |olds| <= |lines| && r.Ok? &&
      T.Split(r.value, '\n') == SplicedLines(lines, olds, i, tt.normalizeLineEndings(e.newText)) &&
      SplicedLines(lines, olds, i, tt.normalizeLineEndings(e.newText)) ==
        lines[..i] + Reindent(T.LeadingWhitespace(lines[i]), olds, n) + lines[i + |olds|..]
  {
    var n := tt.normalizeLineEndings(e.newText);
    var olds := Lines(tt.normalizeLineEndings(e.oldText));
    var lines := Lines(content);
    FallbackSplice(tt, content, e, i);
    T.SplitPartsFree(T.TrimEnd(content), '\n');
    SpliceLines(lines, olds, i, n);
  }

  /** The fallback splices the re-indented new lines over the first matching window. */
  lemma FallbackSplice(tt: TextTools, content: string, e: EditOperation, i: nat)
    requires !T.Contains(content, tt.normalizeLineEndings(e.oldText))
    requires FirstWindow(Lines(tt.normalizeLineEndings(e.oldText)), Lines(content)) == Some(i)
    ensures var olds := Lines(tt.normalizeLineEndings(e.oldText));
      1 <= |olds| && i + |olds| <= |Lines(content)| &&
      ApplyEdit(tt, content, e) == Ok(Splice(Lines(content), olds, i, tt.normalizeLineEndings(e.newText)))
  {
    var o := tt.normalizeLineEndings(e.oldText);
    assert WindowMatches(Lines(o), Lines(content), i);
  }

  /** The spliced text splits back into the spliced lines. */
  lemma SpliceLines(lines: seq<string>, olds: seq<string>, i: nat, newText: string)
    requires 1 <= |olds| && i + |olds| <= |lines|
    requires forall k :: 0 <= k < |lines| ==> '\n' !in lines[k]
    ensures T.Split(Splice(lines, olds, i, newText), '\n') == SplicedLines(lines, olds, i, newText)
  {
    var n := T.Split(newText, '\n');
    var indent := T.LeadingWhitespace(lines[i]);
    var re := Reindent(indent, olds, n);
    var all := SplicedLines(lines, olds, i, newText);
    assert all == lines[..i] + re + lines[i + |olds|..];
    assert forall k :: 0 <= k < |all| ==> '\n' !in all[k] by {
      T.SplitPartsFree(newText, '\n');
      IndentNoNewline(lines[i]);
      ReindentNoNewline(indent, olds, n);
      NoSepConcat(lines[..i], re, lines[i + |olds|..]);
    }
    T.SplitJoin(all, '\n');
  }

  lemma IndentNoNewline(line: string)
    requires '\n' !in line
    ensures '\n' !in T.LeadingWhitespace(line)
    ensures forall k :: 0 <= k < |T.LeadingWhitespace(line)| ==> T.IsWhitespace(T.LeadingWhitespace(line)[k])
  {
    var indent := T.LeadingWhitespace(line);
    assert indent + T.TrimStart(line) == line;
    forall k | 0 <= k < |indent| ensures indent[k] != '\n' {
      assert indent[k] == line[k];
    }
  }

  lemma ReindentNoNewline(indent: string, olds: seq<string>, n: seq<string>)
    requires '\n' !in indent
    requires forall k :: 0 <= k < |indent| ==> T.IsWhitespace(indent[k])
    requires forall k :: 0 <= k < |n| ==> '\n' !in n[k]
    ensures forall j :: 0 <= j < |n| ==> '\n' !in Reindent(indent, olds, n)[j]
  {
    forall j | 0 <= j < |n| ensures '\n' !in Reindent(indent, olds, n)[j] {
      ReindentLineNoBreak(indent, olds, j, n[j]);
    }
  }

  lemma NoSepConcat(a: seq<string>, b: seq<string>, c: seq<string>)
    requires forall k :: 0 <= k < |a| ==> '\n' !in a[k]
    requires forall k :: 0 <= k < |b| ==> '\n' !in b[k]
    requires forall k :: 0 <= k < |c| ==> '\n' !in c[k]
    ensures forall k :: 0 <= k < |a + b + c| ==> '\n' !in (a + b + c)[k]
  {
    forall k | 0 <= k < |a + b + c| ensures '\n' !in (a + b + c)[k] {
      if k < |a| {
        assert (a + b + c)[k] == a[k];
      } else if k < |a| + |b| {
        assert (a + b + c)[k] == b[k - |a|];
      } else {
        assert (a + b + c)[k] == c[k - |a| - |b|];
      }
    }
  }

  /** The edits applied in order, each to the result of the ones before it. */
  function ApplyEdits(tt: TextTools, content: string, edits: seq<EditOperation>): SResult<string> {
    if |edits| == 0 then Ok(content)
    else
      var before :- ApplyEdits(tt, content, edits[..|edits| - 1]);
      ApplyEdit(tt, before, edits[|edits| - 1])
  }

  /**
   * Sequencing: applying `a + b` is applying `a`, then applying `b` to its result; a failure in
   * `a` is the failure of the whole list.
   */
  lemma {:induction false} ApplyEditsAppend(tt: TextTools, content: string, a: seq<EditOperation>, b: seq<EditOperation>)
    ensures ApplyEdits(tt, content, a + b) ==
      match ApplyEdits(tt, content, a)
      case Err(err) => Err(err)
      case Ok(m) => ApplyEdits(tt, m, b)
    decreases |b|
  {
    if |b| == 0 {
      assert a + b == a;
    } else {
      assert (a + b)[..|a + b| - 1] == a + b[..|b| - 1];
      assert (a + b)[|a + b| - 1] == b[|b| - 1];
      ApplyEditsAppend(tt, content, a, b[..|b| - 1]);
    }
  }

  /** An edit that fails on the content it meets makes the whole list fail with its error. */
  lemma FailingEditAborts(tt: TextTools, content: string, edits: seq<EditOperation>, k: nat)
    requires k < |edits|
    requires ApplyEdits(tt, content, edits[..k]).Ok?
    requires ApplyEdit(tt, ApplyEdits(tt, content, edits[..k]).value, edits[k]).Err?
    ensures ApplyEdits(tt, content, edits) ==
      Err(ApplyEdit(tt, ApplyEdits(tt, content, edits[..k]).value, edits[k]).error)
  {
    var pre := edits[..k + 1];
    var err := ApplyEdit(tt, ApplyEdits(tt, content, edits[..k]).value, edits[k]).error;
    assert ApplyEdits(tt, content, pre) == Err(err) by {
      assert pre[..k] == edits[..k];
      assert pre[k] == edits[k];
    }
    EditsStopped(tt, content, edits, k + 1);
  }

  /** Once an edit has failed, the later edits are not applied. */
  lemma {:induction false} EditsStopped(tt: TextTools, content: string, edits: seq<EditOperation>, k: nat)
    requires k <= |edits| && ApplyEdits(tt, content, edits[..k]).Err?
    ensures ApplyEdits(tt, content, edits) == ApplyEdits(tt, content, edits[..k])
    decreases |edits| - k
  {
    if k < |edits| {
      assert edits[..k + 1][..k] == edits[..k];
      EditsStopped(tt, content, edits, k + 1);
    } else {
      assert edits[..k] == edits;
    }
  }

  /** `create_unified_diff`: a header naming the file (default "file") above the patch. */
  function CreateUnifiedDiff(tt: TextTools, original: string, modified: string, filepath: Option<string>)
    : (r: string)
    ensures var name := if filepath.Some? then filepath.value else "file";
      |r| >= |name| + 77 && r[..|name| + 8] == "Index: " + name + "\n" &&
      r[|name| + 8..|name| + 77] == T.Repeat('=', 68) + "\n"
  {
    var name := if filepath.Some? then filepath.value else "file";
    var patch := tt.unifiedDiff(tt.normalizeLineEndings(original), tt.normalizeLineEndings(modified),
                                name + "\toriginal", name + "\tmodified");
    var r := "Index: " + name + "\n" + T.Repeat('=', 68) + "\n" + patch;
    assert r[..|name| + 8] == "Index: " + name + "\n";
    assert r[|name| + 8..|name| + 77] == T.Repeat('=', 68) + "\n";
    r
  }

  function Backticks(k: nat): string {
    T.Repeat('`', k)
  }

  /** The least fence length `>= k` whose run of backticks does not occur in `diff`. */
  function FenceFrom(diff: string, k: nat): (r: nat)
    decreases |diff| + 1 - k
    ensures r >= k && !T.Contains(diff, Backticks(r))
    ensures forall j :: k <= j < r ==> T.Contains(diff, Backticks(j))
  {
    if T.Contains(diff, Backticks(k)) then
      T.ContainsShorter(diff, Backticks(k));
      FenceFrom(diff, k + 1)
    else k
  }

  /** The fence of the formatted diff: at least three backticks, and the least run not in `diff`. */
  function Fence(diff: string): nat {
    FenceFrom(diff, 3)
  }

  /** The `while diff.contains(...)` loop that grows `num_backticks` from 3. */
  method FenceLength(diff: string) returns (k: nat)
    ensures k >= 3 && !T.Contains(diff, Backticks(k))
    ensures forall j :: 3 <= j < k ==> T.Contains(diff, Backticks(j))
    ensures k == Fence(diff)
  {
    k := 3;
    while T.Contains(diff, Backticks(k))
      invariant k >= 3 && FenceFrom(diff, k) == Fence(diff)
      invariant forall j :: 3 <= j < k ==> T.Contains(diff, Backticks(j))
      decreases |diff| + 1 - k
    {
      T.ContainsShorter(diff, Backticks(k));
      k := k + 1;
    }
  }

  /** The diff inside a fence of `Fence(diff)` backticks, tagged as a diff. */
  function FormatDiff(diff: string): (r: string)
    ensures var f := Backticks(Fence(diff));
      r == f + "diff\n" + diff + f + "\n\n" && !T.Contains(diff, f)
  {
    var f := Backticks(Fence(diff));
    f + "diff\n" + diff + f + "\n\n"
  }

  /** What the edit computes from the file: the validated path, the raw text and the result. */
  datatype Edited = Edited(valid: Path, raw: string, normalised: string, modified: string)

  /**
   * Validate, read, normalise and apply the edits. `files` is what reading each path would give;
   * a path it does not hold cannot be read.
   */
  function FileEdits(h: G.Host, tt: TextTools, allowed: seq<Path>, files: map<Path, string>,
                     path: Path, edits: seq<EditOperation>): SResult<Edited>
  {
    var valid :- G.ValidatePath(h, path, allowed);
    if valid !in files then Err(Io(NotFound, valid))
    else
      var raw := files[valid];
      var normalised := tt.normalizeLineEndings(raw);
      var modified :- ApplyEdits(tt, normalised, edits);
      Ok(Edited(valid, raw, normalised, modified))
  }

  /** The reply: the fenced diff from the normalised original to the edited text. */
  function Reply(tt: TextTools, ed: Edited): string {
    FormatDiff(CreateUnifiedDiff(tt, ed.normalised, ed.modified, Some(ed.valid)))
  }

  /** What is written: the edited text with every `\n` turned into the original's line ending. */
  function Written(ed: Edited): string {
    T.ReplaceChar(ed.modified, '\n', L.DetectLineEnding(ed.raw))
  }

  /** The files the service can read and write. */
  class FileStore {
    var files: map<Path, string>

    constructor(files: map<Path, string>)
      ensures this.files == files
    {
      this.files := files;
    }

    /**
     * One turn of the fallback: the window search of the inner `for i in 0..=max_start` loop,
     * stopping at the first window that matches.
     */
    static method FindWindow(olds: seq<string>, lines: seq<string>) returns (found: Option<nat>)
      requires |olds| <= |lines|
      ensures found == FirstWindow(olds, lines)
    {
      var maxStart := |lines| - |olds|;
      found := None;
      var i := 0;
      while i <= maxStart
        invariant 0 <= i <= maxStart + 1
        invariant FirstWindow(olds, lines) == FirstWindowFrom(olds, lines, i)
        decreases maxStart + 1 - i
      {
        if WindowMatches(olds, lines, i) {
          found := Some(i);
          return;
        }
        i := i + 1;
      }
    }

    /** One edit, as the body of the `for edit in edits` loop computes it. */
    static method Step(tt: TextTools, content: string, e: EditOperation) returns (r: SResult<string>)
      ensures r == ApplyEdit(tt, content, e)
    {
      var o := tt.normalizeLineEndings(e.oldText);
      var n := tt.normalizeLineEndings(e.newText);
      if T.Contains(content, o) {
        return Ok(T.ReplaceFirst(content, o, n));
      }
      var olds := Lines(o);
      var lines := Lines(content);
      if |olds| > |lines| {
        return Err(Internal(TooManyLinesMessage(|olds|, |lines|)));
      }
      var found := FindWindow(olds, lines);
      if found.None? {
        return Err(Internal(NoMatchMessage(e.oldText)));
      }
      return Ok(Splice(lines, olds, found.value, n));
    }

    /** The `for edit in edits` loop, which returns at the first edit that fails. */
    static method EditAll(tt: TextTools, content: string, edits: seq<EditOperation>) returns (r: SResult<string>)
      ensures r == ApplyEdits(tt, content, edits)
    {
      var modified := content;
      for i := 0 to |edits|
        invariant ApplyEdits(tt, content, edits[..i]) == Ok(modified)
      {
        assert edits[..i + 1][..i] == edits[..i];
        var next := Step(tt, modified, edits[i]);
        if next.Err? {
          FailingEditAborts(tt, content, edits, i);
          return Err(next.error);
        }
        modified := next.value;
      }
      assert edits[..|edits|] == edits;
      return Ok(modified);
    }

    /**
     * `apply_file_edits`: every edit must succeed before the single write; the diff is computed
     * before the dry-run flag is consulted, so the reply does not depend on it, and a dry run
     * writes nothing. The text goes to `saveTo` when given, otherwise back to the file.
     */
    method ApplyFileEdits(h: G.Host, tt: TextTools, allowed: seq<Path>, path: Path,
                          edits: seq<EditOperation>, dryRun: Option<bool>, saveTo: Option<Path>)
      returns (r: SResult<string>)
      modifies this
      ensures var fe := FileEdits(h, tt, allowed, old(files), path, edits);
        r == (if fe.Ok? then Ok(Reply(tt, fe.value)) else Err(fe.error))
      ensures var fe := FileEdits(h, tt, allowed, old(files), path, edits);
        files == if fe.Ok? && dryRun != Some(true)
                 then old(files)[(if saveTo.Some? then saveTo.value else fe.value.valid) := Written(fe.value)]
                 else old(files)
    {
      var valid := G.ValidatePath(h, path, allowed);
      if valid.Err? {
        return Err(valid.error);
      }
      if valid.value !in files {
        return Err(Io(NotFound, valid.value));
      }
      var raw := files[valid.value];
      var normalised := tt.normalizeLineEndings(raw);
      var edited := EditAll(tt, normalised, edits);
      if edited.Err? {
        return Err(edited.error);
      }
      var modified := edited.value;
      var ed := Edited(valid.value, raw, normalised, modified);
      var diff := CreateUnifiedDiff(tt, normalised, modified, Some(valid.value));
      var fence := FenceLength(diff);
      r := Ok(Backticks(fence) + "diff\n" + diff + Backticks(fence) + "\n\n");
      if dryRun != Some(true) {
        var target := if saveTo.Some? then saveTo.value else valid.value;
        files := files[target := Written(ed)];
      }
    }
  }
}
