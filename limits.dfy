/** Size limits and line-ending detection of src/fs_service.rs. */
module Limits {
  import opened Wrappers
  import T = Text

  /** `filesize_in_range`: no bounds admit everything; a present bound is inclusive. */
  function FilesizeInRange(size: nat, minBytes: Option<nat>, maxBytes: Option<nat>): (r: bool)
    ensures r <==> (maxBytes.None? || size <= maxBytes.value) && (minBytes.None? || size >= minBytes.value)
  {
    if minBytes.None? && maxBytes.None? then true
    else if maxBytes.Some? && size > maxBytes.value then false
    else if minBytes.Some? && size < minBytes.value then false
    else true
  }

  /**
   * `validate_file_size`. `metadataLen` is what reading the file's metadata would give; with no
   * bound it is not consulted. The upper bound is checked before the lower one.
   */
  function ValidateFileSize(metadataLen: SResult<nat>, minBytes: Option<nat>, maxBytes: Option<nat>)
    : (r: SResult<()>)
    ensures minBytes.None? && maxBytes.None? ==> r == Ok(())
    ensures (minBytes.Some? || maxBytes.Some?) && metadataLen.Err? ==> r == Err(metadataLen.error)
    ensures (minBytes.Some? || maxBytes.Some?) && metadataLen.Ok? ==>
      (r.Ok? <==> FilesizeInRange(metadataLen.value, minBytes, maxBytes))
    ensures r.Err? && metadataLen.Ok? && maxBytes.Some? && metadataLen.value > maxBytes.value ==>
      r.error == FileTooLarge(maxBytes.value)
    ensures r.Err? && metadataLen.Ok? && (maxBytes.None? || metadataLen.value <= maxBytes.value) ==>
      minBytes.Some? && r.error == FileTooSmall(minBytes.value)
  {
    if minBytes.None? && maxBytes.None? then Ok(())
    else
      var size :- metadataLen;
      if maxBytes.Some? && size > maxBytes.value then Err(FileTooLarge(maxBytes.value))
      else if minBytes.Some? && size < minBytes.value then Err(FileTooSmall(minBytes.value))
      else Ok(())
  }

  /** `detect_line_ending`: CRLF if present, else CR if present, else LF. */
  function DetectLineEnding(text: string): (r: string)
    ensures r == "\r\n" || r == "\r" || r == "\n"
    ensures T.Contains(text, "\r\n") ==> r == "\r\n"
    ensures r != "\n" ==> T.Contains(text, r)
    ensures r == "\n" <==> '\r' !in text
  {
    if T.Contains(text, "\r\n") then
      assert '\r' in text by {
        var i := T.Find(text, "\r\n").value;
        assert text[i] == "\r\n"[0];
      }
      "\r\n"
    else if '\r' in text then
      assert T.Contains(text, "\r") by {
        var i :| 0 <= i < |text| && text[i] == '\r';
        assert text[i..i + 1] == "\r";
        assert T.OccursAt(text, "\r", i);
        T.ContainsIff(text, "\r");
      }
      "\r"
    else
      "\n"
  }
}
