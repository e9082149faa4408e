/**
 * The request dispatcher (class StatusController): validates a parsed
 * request, dispatches on its action, and builds the response record.
 *
 * The request text and its JSON parsing are outside the model: a request
 * arrives already parsed (or as a parse error), and a response is a record,
 * not its serialised text.
 */
module StatusController {
  import opened Wrappers
  import opened GitStatus
  import opened Cache
  import opened GetStatusTiming
  import opened Ascii
  import opened Decimal

  /** The protocol version every response carries and every request must name. */
  const VERSION: nat := 1

  const INVALID_JSON: string := "Request must be valid JSON."
  const VERSION_MISSING: string := "'Version' must be specified."
  const VERSION_UNKNOWN: string := "Requested 'Version' unknown."
  const ACTION_MISSING: string := "'Action' must be specified."
  const ACTION_UNRECOGNIZED: string := "'Action' unrecognized."
  const PATH_MISSING: string := "'Path' must be specified."
  const NOT_A_REPOSITORY: string := "Requested 'Path' is not part of a git repository."
  const STATUS_FAILED: string := "Failed to retrieve status of git repository at provided 'Path'."
  const SHUTTING_DOWN: string := "Shutting down."

  // ---------------------------------------------------------------------------
  // Requests and responses
  // ---------------------------------------------------------------------------

  /** A JSON value, as the parser would produce it. */
  datatype Json =
    | JNull
    | JBool(b: bool)
    | JNumber(n: real)
    | JString(s: string)
    | JArray(items: seq<Json>)
    | JObject(members: map<string, Json>)

  /** The outcome of parsing the request text; `what` is the parse error's message. */
  datatype Request = Parsed(doc: Json) | ParseError(what: string)

  /**
   * A document that `document["key"]` can be applied to: an object, or null
   * (which becomes an empty object). On anything else the lookup throws.
   */
  predicate Subscriptable(doc: Json) {
    doc.JObject? || doc.JNull?
  }

  /** `document["key"]`: the member's value, or null when the member is absent. */
  function Member(doc: Json, key: string): (v: Json)
    requires Subscriptable(doc)
    ensures doc.JObject? && key in doc.members ==> v == doc.members[key]
    ensures doc.JNull? || key !in doc.members ==> v == JNull
  {
    if doc.JObject? && key in doc.members then doc.members[key] else JNull
  }

  datatype RenamedEntry = RenamedEntry(oldPath: string, newPath: string)

  datatype StashEntry = StashEntry(name: string, sha1Id: string, message: string)

  /** The status fields a GetStatus response reports. */
  datatype StatusReport = StatusReport(
    repoPath: string,
    workingDir: string,
    state: string,
    branch: string,
    upstream: string,
    upstreamGone: bool,
    aheadBy: int,
    behindBy: int,
    indexAdded: seq<string>,
    indexModified: seq<string>,
    indexTypeChange: seq<string>,
    indexRenamed: seq<RenamedEntry>,
    workingAdded: seq<string>,
    workingModified: seq<string>,
    workingDeleted: seq<string>,
    workingTypeChange: seq<string>,
    workingRenamed: seq<RenamedEntry>,
    workingUnreadable: seq<string>,
    ignored: seq<string>,
    conflicted: seq<string>,
    stashes: seq<StashEntry>)

  /** A response document, before serialisation. Timings are in nanoseconds. */
  datatype Response =
    | ErrorResponse(version: nat, error: string, exception: Option<string>)
    | StatusResponse(version: nat, path: string, report: StatusReport)
    | StatisticsResponse(
        version: nat,
        totalGetStatusRequests: uint64,
        averageNanosecondsInGetStatus: uint64,
        minimumNanosecondsInGetStatus: uint64,
        maximumNanosecondsInGetStatus: uint64,
        cacheStatistics: CacheStatistics)
    | ShutdownResponse(version: nat, result: string)

  /** What HandleRequest hands back: a response, or an exception that escapes it. */
  datatype Reply = Respond(response: Response) | Thrown

  /** The controller's state: timing statistics, the cache, and the shutdown event. */
  datatype ControllerState = ControllerState(timing: Timing, cache: CacheState, shutdownRequested: bool)

  function InitialState(): (s: ControllerState)
    ensures s.timing == GetStatusTiming.Initial()
    ensures s.cache == Cache.Empty()
    ensures !s.shutdownRequested
  {
    ControllerState(GetStatusTiming.Initial(), Cache.Empty(), false)
  }

  /**
   * CreateErrorResponse: a document carrying the protocol version and the
   * error, plus the exception's message when an exception was passed.
   */
  function CreateErrorResponse(error: string, exception: Option<string>): (r: Response)
    ensures r.ErrorResponse? && r.version == VERSION
    ensures r.error == error
    ensures r.exception == exception
  {
    ErrorResponse(VERSION, error, exception)
  }

  // ---------------------------------------------------------------------------
  // Building the status response
  // ---------------------------------------------------------------------------

  /** Each (old, new) pair becomes an {Old, New} entry, in the same order. */
  function RenamedEntries(pairs: seq<(string, string)>): (r: seq<RenamedEntry>)
    ensures |r| == |pairs|
    ensures forall i :: 0 <= i < |r| ==> r[i].oldPath == pairs[i].0 && r[i].newPath == pairs[i].1
    decreases |pairs|
  {
    if |pairs| == 0 then []
    else
      var last := pairs[|pairs| - 1];
      RenamedEntries(pairs[..|pairs| - 1]) + [RenamedEntry(last.0, last.1)]
  }

  /** Reads the rename pairs back out of the entries. */
  function RenamedPairs(entries: seq<RenamedEntry>): (r: seq<(string, string)>)
    ensures |r| == |entries|
    ensures forall i :: 0 <= i < |r| ==> r[i] == (entries[i].oldPath, entries[i].newPath)
  {
    seq(|entries|, i requires 0 <= i < |entries| => (entries[i].oldPath, entries[i].newPath))
  }

  /** No rename pair is lost, reordered or altered in the response. */
  lemma RenamedEntriesRoundTrip(pairs: seq<(string, string)>)
    ensures RenamedPairs(RenamedEntries(pairs)) == pairs
  {
  }

  /** The name of stash i: "stash@{" followed by i in decimal and "}". */
  function StashName(index: nat): (name: string)
    ensures |name| >= 9
    ensures name[..7] == "stash@{" && name[|name| - 1] == '}'
    ensures name[7..|name| - 1] == ToDecimal(index)
  {
    var name := "stash@{" + ToDecimal(index) + "}";
    assert name[7..|name| - 1] == ToDecimal(index);
    name
  }

  /** Recovers the stash index from a stash name, if it is one. */
  function ParseStashName(name: string): Option<nat> {
    if |name| >= 9 && name[..7] == "stash@{" && name[|name| - 1] == '}'
       && AllDigits(name[7..|name| - 1])
    then Some(DigitsValue(name[7..|name| - 1]))
    else None
  }

  /** A stash name identifies its stash: parsing it gives the index back. */
  lemma StashNameRoundTrip(index: nat)
    ensures ParseStashName(StashName(index)) == Some(index)
  {
    ToDecimalRoundTrip(index);
  }

  /** Each stash becomes a {Name, Sha1Id, Message} entry, in the same order. */
  function StashEntries(stashes: seq<Stash>): (r: seq<StashEntry>)
    ensures |r| == |stashes|
    ensures forall i :: 0 <= i < |r| ==>
              r[i] == StashEntry(StashName(stashes[i].index), stashes[i].sha1Id, stashes[i].message)
    decreases |stashes|
  {
    if |stashes| == 0 then []
    else
      var last := stashes[|stashes| - 1];
      StashEntries(stashes[..|stashes| - 1]) + [StashEntry(StashName(last.index), last.sha1Id, last.message)]
  }

  /** Every reported stash name reads back as the index of the stash at that position. */
  lemma {:induction false} StashEntriesNameIndices(stashes: seq<Stash>)
    ensures forall i :: 0 <= i < |stashes| ==>
              ParseStashName(StashEntries(stashes)[i].name) == Some(stashes[i].index)
  {
    forall i | 0 <= i < |stashes|
      ensures ParseStashName(StashEntries(stashes)[i].name) == Some(stashes[i].index)
    {
      StashNameRoundTrip(stashes[i].index);
    }
  }

  /**
   * The fields of a status snapshot that the response reports: every field
   * except the index deletions, with rename pairs as {Old, New} entries and
   * stashes as {Name, Sha1Id, Message} entries.
   */
  function Report(status: Status): (r: StatusReport)
    ensures r.repoPath == status.repositoryPath && r.workingDir == status.workingDirectory
    ensures r.state == status.state && r.branch == status.branch && r.upstream == status.upstream
    ensures r.upstreamGone == status.upstreamGone
    ensures r.aheadBy == status.aheadBy && r.behindBy == status.behindBy
    ensures r.indexAdded == status.indexAdded && r.indexModified == status.indexModified
    ensures r.indexTypeChange == status.indexTypeChange
    ensures RenamedPairs(r.indexRenamed) == status.indexRenamed
    ensures r.workingAdded == status.workingAdded && r.workingModified == status.workingModified
    ensures r.workingDeleted == status.workingDeleted && r.workingTypeChange == status.workingTypeChange
    ensures RenamedPairs(r.workingRenamed) == status.workingRenamed
    ensures r.workingUnreadable == status.workingUnreadable
    ensures r.ignored == status.ignored && r.conflicted == status.conflicted
    ensures |r.stashes| == |status.stashes|
    ensures forall i :: 0 <= i < |r.stashes| ==>
              && ParseStashName(r.stashes[i].name) == Some(status.stashes[i].index)
              && r.stashes[i].sha1Id == status.stashes[i].sha1Id
              && r.stashes[i].message == status.stashes[i].message
  {
    RenamedEntriesRoundTrip(status.indexRenamed);
    RenamedEntriesRoundTrip(status.workingRenamed);
    StashEntriesNameIndices(status.stashes);
    StatusReport(
      status.repositoryPath, status.workingDirectory, status.state,
      status.branch, status.upstream, status.upstreamGone,
      status.aheadBy, status.behindBy,
      status.indexAdded, status.indexModified, status.indexTypeChange,
      RenamedEntries(status.indexRenamed),
      status.workingAdded, status.workingModified, status.workingDeleted,
      status.workingTypeChange, RenamedEntries(status.workingRenamed),
      status.workingUnreadable, status.ignored, status.conflicted,
      StashEntries(status.stashes))
  }

  /** The index deletions do not reach the response: snapshots differing only there report alike. */
  lemma ReportOmitsIndexDeleted(status: Status, deleted: seq<string>)
    ensures Report(status.(indexDeleted := deleted)) == Report(status)
  {
  }

  // ---------------------------------------------------------------------------
  // The actions
  // ---------------------------------------------------------------------------

  /** The cache after a GetStatus request, and the response. */
  datatype StatusOutcome = StatusOutcome(cache: CacheState, response: Response)

  /**
   * GetStatus: the Path member must be a string, it must lie in a
   * repository (found by `discover`), and the cache must return a successful
   * status, checked in that order. The cache lookup happens, and may store a
   * failed result, before its outcome is checked.
   */
  function GetStatus(cache: CacheState, pathField: Json, discover: string -> Option<string>,
                     git: Provider): (r: StatusOutcome)
    ensures !pathField.JString? ==>
              r == StatusOutcome(cache, ErrorResponse(VERSION, PATH_MISSING, None))
    ensures pathField.JString? && discover(pathField.s).None? ==>
              r == StatusOutcome(cache, ErrorResponse(VERSION, NOT_A_REPOSITORY, None))
    ensures pathField.JString? && discover(pathField.s).Some? ==>
              var lookup := Cache.GetStatus(cache, discover(pathField.s).value, git);
              && r.cache == lookup.cache
              && (lookup.result.ok <==> r.response.StatusResponse?)
              && (!lookup.result.ok ==> r.response == ErrorResponse(VERSION, STATUS_FAILED, None))
              && (lookup.result.ok ==>
                    r.response == StatusResponse(VERSION, pathField.s, Report(lookup.result.status)))
  {
    if !pathField.JString? then
      StatusOutcome(cache, CreateErrorResponse(PATH_MISSING, None))
    else
      var path := pathField.s;
      match discover(path)
      case None => StatusOutcome(cache, CreateErrorResponse(NOT_A_REPOSITORY, None))
      case Some(repositoryPath) =>
        var lookup := Cache.GetStatus(cache, repositoryPath, git);
        if !lookup.result.ok then
          StatusOutcome(lookup.cache, CreateErrorResponse(STATUS_FAILED, None))
        else
          StatusOutcome(lookup.cache, StatusResponse(VERSION, path, Report(lookup.result.status)))
  }

  /** GetCacheStatistics: the timing figures and the cache counters. */
  function Statistics(s: ControllerState): (r: Response)
    ensures r.StatisticsResponse? && r.version == VERSION
    ensures r.totalGetStatusRequests == s.timing.totalCalls
    ensures r.minimumNanosecondsInGetStatus == s.timing.minNanoseconds
    ensures r.maximumNanosecondsInGetStatus == s.timing.maxNanoseconds
    ensures s.timing.totalCalls == 0 ==> r.averageNanosecondsInGetStatus == 0
    ensures s.timing.totalCalls != 0 ==>
              r.averageNanosecondsInGetStatus == s.timing.totalNanoseconds / s.timing.totalCalls
    ensures r.cacheStatistics == GetCacheStatistics(s.cache)
  {
    StatisticsResponse(VERSION, s.timing.totalCalls, AverageNanoseconds(s.timing),
                       s.timing.minNanoseconds, s.timing.maxNanoseconds,
                       GetCacheStatistics(s.cache))
  }

  // ---------------------------------------------------------------------------
  // HandleRequest
  // ---------------------------------------------------------------------------

  /** The new controller state and the reply. */
  datatype Handled = Handled(state: ControllerState, reply: Reply)

  /** The request passed every check before dispatch. */
  predicate Validated(request: Request) {
    && request.Parsed?
    && Subscriptable(request.doc)
    && Member(request.doc, "Version").JNumber?
    && Member(request.doc, "Version").n == 1.0
    && Member(request.doc, "Action").JString?
  }

  /** The action string of a validated request. */
  function ActionOf(request: Request): string
    requires Validated(request)
  {
    Member(request.doc, "Action").s
  }

  /**
   * HandleRequest: rejects the request at the first failing check (valid
   * JSON, Version a number, Version equal to 1, Action a string), then
   * compares the action case-insensitively with GetStatus, GetCacheStatistics
   * and Shutdown in that order. A GetStatus request records one timing
   * sample from the clock readings `start` (before the lookup) and `finish`
   * (after it), computed as the source computes it: the start reading minus
   * the finish reading, as an unsigned 64-bit value.
   */
  function HandleRequest(s: ControllerState, request: Request, discover: string -> Option<string>,
                         git: Provider, start: int, finish: int): (r: Handled)
    ensures r.reply.Thrown? <==> request.Parsed? && !Subscriptable(request.doc)
    ensures r.reply.Respond? && r.reply.response.ErrorResponse? ==>
              && r.reply.response.version == VERSION
              && (r.reply.response.exception.Some? <==> request.ParseError?)
    ensures !Validated(request) ==> r.state == s
    ensures r.state.timing ==
              if Validated(request) && StrCaseEqual(ActionOf(request), "GetStatus")
              then Record(s.timing, AsWrittenSample(start, finish))
              else s.timing
    ensures r.state.cache != s.cache ==> Validated(request) && StrCaseEqual(ActionOf(request), "GetStatus")
    ensures r.state.shutdownRequested != s.shutdownRequested ==>
              Validated(request) && StrCaseEqual(ActionOf(request), "Shutdown")
  {
    match request
    case ParseError(what) =>
      Handled(s, Respond(CreateErrorResponse(INVALID_JSON, Some(what))))
    case Parsed(doc) =>
      if !Subscriptable(doc) then
        Handled(s, Thrown)
      else
        var version := Member(doc, "Version");
        if !version.JNumber? then
          Handled(s, Respond(CreateErrorResponse(VERSION_MISSING, None)))
        else if version.n != 1.0 then
          Handled(s, Respond(CreateErrorResponse(VERSION_UNKNOWN, None)))
        else
          var actionField := Member(doc, "Action");
          if !actionField.JString? then
            Handled(s, Respond(CreateErrorResponse(ACTION_MISSING, None)))
          else
            var action := actionField.s;
            if StrCaseEqual(action, "GetStatus") then
              var outcome := GetStatus(s.cache, Member(doc, "Path"), discover, git);
              var timing := Record(s.timing, AsWrittenSample(start, finish));
              Handled(s.(cache := outcome.cache, timing := timing), Respond(outcome.response))
            else if StrCaseEqual(action, "GetCacheStatistics") then
              Handled(s, Respond(Statistics(s)))
            else if StrCaseEqual(action, "Shutdown") then
              Handled(s.(shutdownRequested := true), Respond(ShutdownResponse(VERSION, SHUTTING_DOWN)))
            else
              Handled(s, Respond(CreateErrorResponse(ACTION_UNRECOGNIZED, None)))
  }

  // ---------------------------------------------------------------------------
  // Reference definitions and the lemmas connecting them
  // ---------------------------------------------------------------------------

  /** The checks a request must pass, in the order the handler applies them. */
  datatype Check = ValidJson | VersionIsNumber | VersionIsOne | ActionIsString

  const CHECK_ORDER: seq<Check> := [ValidJson, VersionIsNumber, VersionIsOne, ActionIsString]

  function CheckError(c: Check): string {
    match c
    case ValidJson => INVALID_JSON
    case VersionIsNumber => VERSION_MISSING
    case VersionIsOne => VERSION_UNKNOWN
    case ActionIsString => ACTION_MISSING
  }

  /** Whether the request passes one check, judged on its own. */
  predicate Passes(request: Request, c: Check)
    requires request.Parsed? ==> Subscriptable(request.doc)
  {
    match c
    case ValidJson => request.Parsed?
    case VersionIsNumber => request.Parsed? && Member(request.doc, "Version").JNumber?
    case VersionIsOne => request.Parsed? && Member(request.doc, "Version") == JNumber(1.0)
    case ActionIsString => request.Parsed? && Member(request.doc, "Action").JString?
  }

  /**
   * A request failing check k while passing every earlier one is rejected
   * with check k's error, without touching the state; only the JSON check
   * attaches the parser's message.
   */
  lemma RejectedAtFirstFailingCheck(s: ControllerState, request: Request, discover: string -> Option<string>,
                                    git: Provider, start: int, finish: int, k: nat)
    requires request.Parsed? ==> Subscriptable(request.doc)
    requires k < |CHECK_ORDER|
    requires forall j :: 0 <= j < k ==> Passes(request, CHECK_ORDER[j])
    requires !Passes(request, CHECK_ORDER[k])
    ensures HandleRequest(s, request, discover, git, start, finish) ==
              Handled(s, Respond(ErrorResponse(VERSION, CheckError(CHECK_ORDER[k]),
                                               if k == 0 then Some(request.what) else None)))
  {
    if k > 0 {
      assert Passes(request, CHECK_ORDER[0]);
    }
    if k > 1 {
      assert Passes(request, CHECK_ORDER[1]);
    }
    if k > 2 {
      assert Passes(request, CHECK_ORDER[2]);
    }
  }

  /** Passing every check is the same as being validated. */
  lemma AllChecksPassedIsValidated(request: Request)
    requires request.Parsed? ==> Subscriptable(request.doc)
    ensures (forall j :: 0 <= j < |CHECK_ORDER| ==> Passes(request, CHECK_ORDER[j])) <==> Validated(request)
  {
    if forall j :: 0 <= j < |CHECK_ORDER| ==> Passes(request, CHECK_ORDER[j]) {
      assert Passes(request, CHECK_ORDER[0]);
      assert Passes(request, CHECK_ORDER[2]);
      assert Passes(request, CHECK_ORDER[3]);
    }
    if Validated(request) {
      forall j | 0 <= j < |CHECK_ORDER|
        ensures Passes(request, CHECK_ORDER[j])
      {
      }
    }
  }

  /** The action a name selects, defined by lower-casing its C-string prefix. */
  datatype Action = GetStatusAction | StatisticsAction | ShutdownAction | UnrecognizedAction

  function ActionNamed(name: string): Action {
    var key := LowerAll(CStr(name));
    if key == "getstatus" then GetStatusAction
    else if key == "getcachestatistics" then StatisticsAction
    else if key == "shutdown" then ShutdownAction
    else UnrecognizedAction
  }

  /** The case-insensitive comparison with a NUL-free name means equality with its lower-case form. */
  lemma StrCaseEqualLiteral(action: string, name: string, lower: string)
    requires NUL !in name
    requires |lower| == |name| && forall i :: 0 <= i < |name| ==> lower[i] == Lower(name[i])
    ensures StrCaseEqual(action, name) <==> LowerAll(CStr(action)) == lower
  {
    StrCaseEqualMeansLowerEqual(action, name);
    assert CStr(name) == name;
    assert LowerAll(name) == lower;
  }

  /** The source's sequence of case-insensitive comparisons selects ActionNamed's action. */
  lemma ComparisonsSelectActionNamed(action: string)
    ensures StrCaseEqual(action, "GetStatus") <==> ActionNamed(action) == GetStatusAction
    ensures !StrCaseEqual(action, "GetStatus") ==>
              (StrCaseEqual(action, "GetCacheStatistics") <==> ActionNamed(action) == StatisticsAction)
    ensures !StrCaseEqual(action, "GetStatus") && !StrCaseEqual(action, "GetCacheStatistics") ==>
              (StrCaseEqual(action, "Shutdown") <==> ActionNamed(action) == ShutdownAction)
  {
    StrCaseEqualLiteral(action, "GetStatus", "getstatus");
    StrCaseEqualLiteral(action, "GetCacheStatistics", "getcachestatistics");
    StrCaseEqualLiteral(action, "Shutdown", "shutdown");
  }

  /**
   * A validated request is answered according to the action its name
   * selects: a status lookup, the statistics, a shutdown, or the
   * unrecognised-action error.
   */
  lemma DispatchFollowsActionNamed(s: ControllerState, request: Request, discover: string -> Option<string>,
                                   git: Provider, start: int, finish: int)
    requires Validated(request)
    ensures var r := HandleRequest(s, request, discover, git, start, finish);
            match ActionNamed(ActionOf(request))
            case GetStatusAction =>
              var outcome := GetStatus(s.cache, Member(request.doc, "Path"), discover, git);
              r == Handled(s.(cache := outcome.cache, timing := Record(s.timing, AsWrittenSample(start, finish))),
                           Respond(outcome.response))
            case StatisticsAction => r == Handled(s, Respond(Statistics(s)))
            case ShutdownAction =>
              r == Handled(s.(shutdownRequested := true), Respond(ShutdownResponse(VERSION, SHUTTING_DOWN)))
            case UnrecognizedAction =>
              r == Handled(s, Respond(ErrorResponse(VERSION, ACTION_UNRECOGNIZED, None)))
  {
    ComparisonsSelectActionNamed(ActionOf(request));
  }

  /** Two validated requests differing only in the letter case of their action get the same answer. */
  lemma {:induction false} ActionMatchIgnoresCase(s: ControllerState, members: map<string, Json>, action1: string, action2: string,
                               discover: string -> Option<string>, git: Provider, start: int, finish: int)
    requires "Version" in members && members["Version"] == JNumber(1.0)
    requires LowerAll(CStr(action1)) == LowerAll(CStr(action2))
    ensures HandleRequest(s, Parsed(JObject(members["Action" := JString(action1)])), discover, git, start, finish)
         == HandleRequest(s, Parsed(JObject(members["Action" := JString(action2)])), discover, git, start, finish)
  {
    var request1 := Parsed(JObject(members["Action" := JString(action1)]));
    var request2 := Parsed(JObject(members["Action" := JString(action2)]));
    assert Validated(request1) && ActionOf(request1) == action1;
    assert Validated(request2) && ActionOf(request2) == action2;
    assert ActionNamed(action1) == ActionNamed(action2);
    assert Member(request1.doc, "Path") == Member(request2.doc, "Path");
    DispatchFollowsActionNamed(s, request1, discover, git, start, finish);
    DispatchFollowsActionNamed(s, request2, discover, git, start, finish);
  }

  /**
   * A GetStatus request for a path inside a repository whose status is not
   * cached asks the provider, and the response reports what it returned.
   */
  lemma GetStatusMissReportsProvider(s: ControllerState, members: map<string, Json>, path: string,
                                     repositoryPath: string, discover: string -> Option<string>,
                                     git: Provider, start: int, finish: int)
    requires "Version" in members && members["Version"] == JNumber(1.0)
    requires "Action" in members && members["Action"] == JString("GetStatus")
    requires "Path" in members && members["Path"] == JString(path)
    requires discover(path) == Some(repositoryPath)
    requires repositoryPath !in s.cache.entries
    requires git(repositoryPath).ok
    ensures var r := HandleRequest(s, Parsed(JObject(members)), discover, git, start, finish);
            && r.reply == Respond(StatusResponse(VERSION, path, Report(git(repositoryPath).status)))
            && r.state.cache.entries[repositoryPath] == git(repositoryPath)
            && r.state.cache.misses == s.cache.misses + 1
  {
    ComparisonsSelectActionNamed("GetStatus");
  }

  /** A request naming version 1 and the GetStatus action is validated and selects GetStatus. */
  lemma GetStatusRequestSelected(members: map<string, Json>)
    requires "Version" in members && members["Version"] == JNumber(1.0)
    requires "Action" in members && members["Action"] == JString("GetStatus")
    ensures Validated(Parsed(JObject(members)))
    ensures StrCaseEqual(ActionOf(Parsed(JObject(members))), "GetStatus")
  {
    StrCaseEqualMeansLowerEqual("GetStatus", "GetStatus");
  }

  /**
   * As written, the first GetStatus request, timed by the readings 0 and 1,
   * leaves the total, minimum and maximum at UINT64_MAX rather than at 1.
   */
  lemma OneTickGetStatusRecordedAsMax(members: map<string, Json>, discover: string -> Option<string>,
                                      git: Provider)
    requires "Version" in members && members["Version"] == JNumber(1.0)
    requires "Action" in members && members["Action"] == JString("GetStatus")
    ensures HandleRequest(InitialState(), Parsed(JObject(members)), discover, git, 0, 1).state.timing
            == Timing(UINT64_MAX, UINT64_MAX, UINT64_MAX, 1)
  {
    GetStatusRequestSelected(members);
    AsWrittenSampleOneTick();
    assert Record(GetStatusTiming.Initial(), UINT64_MAX) == Timing(UINT64_MAX, UINT64_MAX, UINT64_MAX, 1);
  }
}
