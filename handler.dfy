/**
 * The server handler's access-control policy (src/handler.rs): the read-only write gate in front of
 * tool dispatch, the decision of how client roots replace the allow-list, and the startup banner.
 */
module Handler {
  import opened Wrappers
  import opened Paths
  import G = PathGuard
  import Tools
  import T = Text

  /** The command-line arguments the handler is built from. */
  datatype Arguments = Arguments(allowedDirectories: seq<string>, allowWrite: bool, enableRoots: bool)

  /** What `update_allowed_directories` does: the new allow-list, if any, and its stderr notices. */
  datatype Update = Update(newList: Option<seq<Path>>, notices: seq<string>)

  const NoRootsNoDirsMessage: string :=
    "Server cannot operate: No allowed directories available. Server was started without " +
    "command-line directories and client does not support MCP roots protocol. Please either: " +
    "1) Start server with directory arguments, or 2) Use a client that supports MCP roots " +
    "protocol and provides valid root directories."

  const EmptyRootsNoDirsMessage: string :=
    "Server cannot operate: No allowed directories available. Server was started without " +
    "command-line directories and client provided empty roots. Please either: 1) Start server " +
    "with directory arguments, or 2) Use a client that supports MCP roots protocol and provides " +
    "valid root directories."

  const EmptyRootsKeepMessage: string :=
    "Client provided empty roots. Allowed directories passed from command-line will be used."

  // The short first piece lets the verifier see the first character, which tells this notice
  // apart from the directory list.
  const WaitingMessage: string :=
    "No " + "allowed directories is set - waiting for client to provide roots via MCP protocol..."

  const BannerPrefix: string := "Secure MCP Filesystem Server running in \""

  function DirectoryList(allowed: seq<Path>): string {
    T.Join(allowed, ",\n")
  }

  /** The notice for a client without root support that leaves the command-line list in force. */
  function ServerArgsMessage(allowed: seq<Path>): string {
    "Client does not support MCP Roots, using allowed directories set from server args:\n" +
    DirectoryList(allowed)
  }

  function UpdatedMessage(n: nat): string {
    "Updated allowed directories from MCP roots: " + T.NatToString(n) + " valid directories"
  }

  /** The roots the client listed; a failed `list_roots` counts as an empty list. */
  function ListedRoots(listed: SResult<seq<string>>): (r: seq<string>)
    ensures listed.Err? ==> r == []
    ensures listed.Ok? ==> r == listed.value
  {
    if listed.Ok? then listed.value else []
  }

  /**
   * The valid directories among the listed roots, and the skip warning. An empty root list is not
   * filtered at all. The service's `valid_roots` never fails here: its parser is `parse_file_path`,
   * which always succeeds, so the handler's error arm (an empty list) is never taken.
   */
  function ClientRoots(h: G.Host, listed: SResult<seq<string>>): (r: (seq<Path>, Option<string>))
    ensures forall i :: 0 <= i < |r.0| ==> h.isDir(r.0[i])
    ensures forall i, j :: 0 <= i < j < |r.0| ==> Components(r.0[i]) != Components(r.0[j])
  {
    var roots := ListedRoots(listed);
    if |roots| == 0 then ([], None) else G.ValidRoots(h, roots, G.ParseFilePath)
  }

  /**
   * The decision of `update_allowed_directories`. `supports` is the client's answer to
   * `client_supports_root_list` (absent counts as no); `current` is the list read before the
   * decision. A client without root support never changes the list. Otherwise the client's valid
   * roots replace the list wholesale, even when there are none, unless roots support is off on the
   * server side and the client offered no valid root.
   */
  function UpdateDecision(h: G.Host, supports: Option<bool>, rootsSupport: bool, current: seq<Path>,
                          listed: SResult<seq<string>>): (r: Update)
    ensures supports != Some(true) ==> r.newList == None
    ensures supports == Some(true) ==>
      (r.newList == None <==> |ClientRoots(h, listed).0| == 0 && !rootsSupport)
    ensures r.newList.Some? ==> r.newList.value == ClientRoots(h, listed).0
    ensures supports != Some(true) ==>
      r.notices == [if |current| > 0 then ServerArgsMessage(current) else NoRootsNoDirsMessage]
    ensures r.newList.Some? ==> |r.notices| > 0 && r.notices[|r.notices| - 1] == UpdatedMessage(|r.newList.value|)
  {
    if supports != Some(true) then
      Update(None, [if |current| > 0 then ServerArgsMessage(current) else NoRootsNoDirsMessage])
    else
      ClientDecision(rootsSupport, current, ClientRoots(h, listed))
  }

  /** The branch of a client with root support, given its valid roots and skip warning. */
  function ClientDecision(rootsSupport: bool, current: seq<Path>, client: (seq<Path>, Option<string>)): (r: Update)
    ensures r.newList == None <==> |client.0| == 0 && !rootsSupport
    ensures r.newList.Some? ==> r.newList.value == client.0
    ensures r.newList.Some? ==> |r.notices| > 0 && r.notices[|r.notices| - 1] == UpdatedMessage(|client.0|)
  {
    var warnings := if client.1.Some? then [client.1.value] else [];
    if |client.0| == 0 && !rootsSupport then
      Update(None, warnings + [if |current| == 0 then EmptyRootsNoDirsMessage else EmptyRootsKeepMessage])
    else
      Update(Some(client.0), warnings + [UpdatedMessage(|client.0|)])
  }

  /** The new list never depends on the old one: the update replaces, it does not merge. */
  lemma {:induction false} DecisionIgnoresCurrent(h: G.Host, supports: Option<bool>, rootsSupport: bool,
                                                 c1: seq<Path>, c2: seq<Path>, listed: SResult<seq<string>>)
    ensures UpdateDecision(h, supports, rootsSupport, c1, listed).newList ==
            UpdateDecision(h, supports, rootsSupport, c2, listed).newList
  {
    var d1 := UpdateDecision(h, supports, rootsSupport, c1, listed);
    var d2 := UpdateDecision(h, supports, rootsSupport, c2, listed);
    if supports == Some(true) {
      if d1.newList.Some? {
        assert d2.newList.Some?;
      }
    }
  }

  /**
   * A failed `list_roots` is an empty root list: with roots support on the list becomes empty,
   * with it off the list is kept.
   */
  lemma ListFailureIsEmpty(h: G.Host, rootsSupport: bool, current: seq<Path>, e: ServiceError)
    ensures UpdateDecision(h, Some(true), rootsSupport, current, Err(e)).newList ==
            (if rootsSupport then Some([]) else None)
  {
  }

  /**
   * With roots support on, a client that lists no valid root empties the allow-list, after which
   * every request is rejected.
   */
  lemma {:induction false} EmptyRootsLockOut(h: G.Host, current: seq<Path>, requested: Path)
    ensures UpdateDecision(h, Some(true), true, current, Ok([])).newList == Some([])
    ensures G.ValidatePath(h, requested, UpdateDecision(h, Some(true), true, current, Ok([])).newList.value).Err?
  {
    assert ClientRoots(h, Ok([])).0 == [];
    G.EmptyAllowListRejectsAll(h, requested);
  }

  function ModeWord(readonly: bool): string {
    if !readonly then "read/write" else "readonly"
  }

  function SupportWord(rootsSupport: bool): string {
    if rootsSupport then "with" else "without"
  }

  /** The first line of the banner. */
  function CommonMessage(readonly: bool, rootsSupport: bool): string {
    BannerPrefix + ModeWord(readonly) + "\" mode " + SupportWord(rootsSupport) + " \"MCP Roots\" support."
  }

  /** The second part of the banner: the waiting notice, or the allowed directories. */
  function SubMessage(allowed: seq<Path>, rootsSupport: bool): (r: string)
    ensures r == WaitingMessage <==> |allowed| == 0 && rootsSupport
    ensures r != WaitingMessage ==> r == "Allowed directories:\n" + DirectoryList(allowed)
  {
    if |allowed| == 0 && rootsSupport then WaitingMessage
    else
      var s := "Allowed directories:\n" + DirectoryList(allowed);
      assert s[0] == 'A' && WaitingMessage[0] == 'N';
      s
  }

  /** `startup_message`: the banner line, a newline, and the sub-message. */
  function StartupMessage(readonly: bool, rootsSupport: bool, allowed: seq<Path>): (r: string)
    ensures r == CommonMessage(readonly, rootsSupport) + "\n" + SubMessage(allowed, rootsSupport)
  {
    CommonMessage(readonly, rootsSupport) + "\n" + SubMessage(allowed, rootsSupport)
  }

  lemma ModeSeparates(ro1: bool, rs1: bool, ro2: bool, rs2: bool)
    requires ro1 != ro2
    ensures CommonMessage(ro1, rs1) != CommonMessage(ro2, rs2)
  {
    assert CommonMessage(ro1, rs1)[|BannerPrefix| + 4] == ModeWord(ro1)[4];
    assert CommonMessage(ro2, rs2)[|BannerPrefix| + 4] == ModeWord(ro2)[4];
  }

  lemma SupportSeparates(ro: bool, rs1: bool, rs2: bool)
    requires rs1 != rs2
    ensures CommonMessage(ro, rs1) != CommonMessage(ro, rs2)
  {
    var k := |BannerPrefix| + |ModeWord(ro)| + 7 + 4;
    assert CommonMessage(ro, rs1)[k] != CommonMessage(ro, rs2)[k];
  }

  /** The banner line tells both settings apart: different settings give different lines. */
  lemma {:induction false} CommonMessageInjective(ro1: bool, rs1: bool, ro2: bool, rs2: bool)
    ensures CommonMessage(ro1, rs1) == CommonMessage(ro2, rs2) <==> ro1 == ro2 && rs1 == rs2
  {
    if ro1 != ro2 {
      ModeSeparates(ro1, rs1, ro2, rs2);
    } else if rs1 != rs2 {
      SupportSeparates(ro1, rs1, rs2);
    }
  }

  /** The handler: its two settings, fixed at start-up, and the shared service. */
  class FileSystemHandler {
    const readonly: bool
    const mcpRootsSupport: bool
    const service: G.FileSystemService

    constructor (service: G.FileSystemService, args: Arguments)
      ensures this.service == service
      ensures readonly == !args.allowWrite && mcpRootsSupport == args.enableRoots
    {
      this.service := service;
      readonly := !args.allowWrite;
      mcpRootsSupport := args.enableRoots;
    }

    /** `FileSystemHandler::new`: fails exactly when the service cannot be built. */
    static method New(h: G.Host, args: Arguments) returns (r: SResult<FileSystemHandler>)
      ensures r.Ok? <==> G.InitialDirs(h, args.allowedDirectories).Ok?
      ensures r.Ok? ==> fresh(r.value) && fresh(r.value.service)
      ensures r.Ok? ==> r.value.readonly == !args.allowWrite && r.value.mcpRootsSupport == args.enableRoots
      ensures r.Ok? ==> r.value.service.allowedPath == G.InitialDirs(h, args.allowedDirectories).value
      ensures r.Err? ==> r.error == G.InitialDirs(h, args.allowedDirectories).error
    {
      var s := G.FileSystemService.TryNew(h, args.allowedDirectories);
      if s.Err? {
        return Err(s.error);
      }
      var handler := new FileSystemHandler(s.value, args);
      return Ok(handler);
    }

    /** `assert_write_access`: `NoWriteAccess` exactly in read-only mode. */
    function AssertWriteAccess(): (r: Result<(), ServiceError>)
      ensures r.Err? <==> readonly
      ensures r.Err? ==> r.error == NoWriteAccess
    {
      if readonly then Err(NoWriteAccess) else Ok(())
    }

    /**
     * `handle_call_tool_request`: a request that does not parse into a tool fails with the parse
     * error; a tool needing write access is refused in read-only mode before it runs; every other
     * tool goes to its runner.
     */
    function HandleCallToolRequest<R>(request: SResult<Tools.Tool>, run: Tools.Tool -> SResult<R>)
      : (r: SResult<R>)
      ensures request.Err? ==> r == Err(request.error)
      ensures request.Ok? && readonly && Tools.RequireWriteAccess(request.value) ==> r == Err(NoWriteAccess)
      ensures request.Ok? && !(readonly && Tools.RequireWriteAccess(request.value)) ==> r == run(request.value)
    {
      if request.Err? then Err(request.error)
      else if Tools.RequireWriteAccess(request.value) && AssertWriteAccess().Err? then
        Err(AssertWriteAccess().error)
      else run(request.value)
    }

    /** `startup_message` over the service's current list. */
    method StartupMessageNow() returns (r: string)
      ensures r == StartupMessage(readonly, mcpRootsSupport, service.allowedPath)
    {
      var allowed := service.AllowedDirectories();
      r := StartupMessage(readonly, mcpRootsSupport, allowed);
    }

    /**
     * `update_allowed_directories`: reads the list, decides, and replaces the service's list when
     * the decision says so; returns the stderr notices in order.
     */
    method UpdateAllowedDirectories(h: G.Host, supports: Option<bool>, listed: SResult<seq<string>>)
      returns (notices: seq<string>)
      modifies service
      ensures var d := UpdateDecision(h, supports, mcpRootsSupport, old(service.allowedPath), listed);
        notices == d.notices &&
        service.allowedPath == (if d.newList.Some? then d.newList.value else old(service.allowedPath))
    {
      var current := service.AllowedDirectories();
      var d := UpdateDecision(h, supports, mcpRootsSupport, current, listed);
      if d.newList.Some? {
        service.UpdateAllowedPaths(d.newList.value);
      }
      notices := d.notices;
    }
  }

  /** A read-only handler never runs a writing tool: its answer does not depend on the runner. */
  lemma ReadOnlyNeverRunsWriteTools<R>(hd: FileSystemHandler, t: Tools.Tool,
                                       run1: Tools.Tool -> SResult<R>, run2: Tools.Tool -> SResult<R>)
    requires hd.readonly && t in Tools.WriteTools
    ensures hd.HandleCallToolRequest(Ok(t), run1) == hd.HandleCallToolRequest(Ok(t), run2) == Err(NoWriteAccess)
  {
  }

  /** A tool that only reads is dispatched in either mode. */
  lemma ReadToolsAlwaysRun<R>(hd: FileSystemHandler, t: Tools.Tool, run: Tools.Tool -> SResult<R>)
    requires t !in Tools.WriteTools
    ensures hd.HandleCallToolRequest(Ok(t), run) == run(t)
  {
  }
}
