/**
 * The stateful core: a session (one embedded shell with its counter, history and
 * namespace) and the manager that maps session ids to sessions.
 *
 * The shell itself is opaque. One call of its `run_cell` is given to the session as a
 * `RunOutcome`: either the run completed, with what it printed, the formatted value of
 * its last expression, the error raised inside the cell and the namespace it left behind,
 * or an exception escaped the shell, which is taken to leave the namespace as it was.
 */
module Sessions {
  import opened Wrappers
  import opened Strings
  import opened AnsiCodes
  import opened History
  import opened Namespace

  datatype RunOutcome =
    | Completed(stdout: string, stderr: string, result: Option<string>, errorInExec: Option<string>, namespace: map<string, Value>)
    | Raised(message: string, traceback: string)

  /** What `execute` and `execute_expression_only` return, less the timing and memory figures. */
  datatype ExecutionResult = ExecutionResult(
    success: bool,
    executionCount: nat,
    stdout: string,
    stderr: string,
    result: Option<string>,
    error: Option<string>)

  /** The error raised inside a cell, with escape sequences removed from its text. */
  function CleanError(errorInExec: Option<string>): (e: Option<string>)
    ensures e.None? <==> errorInExec.None?
    ensures e.Some? ==> IsSubsequence(e.value, errorInExec.value)
  {
    match errorInExec
    case None => None
    case Some(text) => Some(RemoveAnsiCodes(text))
  }

  /** How an exception that escaped the shell is reported: a fixed prefix, the message, the traceback. */
  function EscapedErrorText(message: string, traceback: string): string {
    RemoveAnsiCodes("执行错误: " + message + "\n" + traceback)
  }

  /** The reasons the manager refuses a request. */
  datatype SessionError = AlreadyExists(id: string) | NotFound(id: string)
  {
    /** The text of the `ValueError` the manager raises. */
    function Message(): string {
      match this
      case AlreadyExists(id) => "Session " + id + " already exists"
      case NotFound(id) => "Session " + id + " not found"
    }
  }

  /** What `clear_variables` reports, less the memory figure. */
  datatype ClearReport = ClearReport(cleared: seq<string>, remainingVariables: nat)

  const ClearUsageError: string := "Must specify either variable_names or set clear_all=True"

  class Session {
    const sessionId: string
    const createdAt: string
    var lastUsed: string
    var executionCount: nat
    var history: seq<HistoryEntry>
    /** The shell's `user_ns`. */
    var userNs: map<string, Value>

    /** The history holds the records of the last (at most 100) runs, numbered up to the counter. */
    ghost predicate Valid()
      reads this
    {
      ConsecutiveHistory(history, executionCount)
    }

    /**
     * A fresh session. Its shell starts with the namespace the shell's own start-up and the
     * optional imports leave behind; those cells run outside `execute`, so they are not counted.
     */
    constructor (sessionId: string, now: string, startupNs: map<string, Value>)
      ensures Valid()
      ensures this.sessionId == sessionId && createdAt == now && lastUsed == now
      ensures executionCount == 0 && history == [] && userNs == startupNs
    {
      this.sessionId := sessionId;
      createdAt := now;
      lastUsed := now;
      executionCount := 0;
      history := [];
      userNs := startupNs;
    }

    /**
     * The bookkeeping after a completed run, shared by both ways of executing: count the run,
     * append its record, keep the last 100 records, and report the run.
     */
    method RecordRun(code: string, stdout: string, stderr: string, result: Option<string>,
                     error: Option<string>, namespace: map<string, Value>, now: string, elapsed: real)
      returns (res: ExecutionResult)
      requires Valid()
      modifies this
      ensures Valid()
      ensures executionCount == old(executionCount) + 1
      ensures var entry := HistoryEntry(executionCount, now, code, error.None?, elapsed, stdout, stderr, result, error);
        && history == Capped(old(history) + [entry])
        && history[|history| - 1] == entry
      ensures |history| <= MaxHistory
      ensures userNs == namespace && lastUsed == now
      ensures res == ExecutionResult(error.None?, executionCount, stdout, stderr, result, error)
    {
      executionCount := executionCount + 1;
      var entry := HistoryEntry(executionCount, now, code, error.None?, elapsed, stdout, stderr, result, error);
      AppendCappedKeepsConsecutive(history, executionCount - 1, entry);
      history := Capped(history + [entry]);
      userNs := namespace;
      lastUsed := now;
      res := ExecutionResult(error.None?, executionCount, stdout, stderr, result, error);
    }

    /**
     * What one run does to the session and what it reports, given how the shell's run went.
     * Either way the session is marked as used now. A completed run is counted and recorded
     * (without its printed output in expression-only mode, otherwise with escape sequences
     * removed from it); an exception that escapes the shell is reported with the unchanged
     * counter and leaves counter, history and namespace alone.
     */
    twostate predicate RanCell(code: string, expressionOnly: bool, run: RunOutcome, now: string, elapsed: real,
                               res: ExecutionResult)
      reads this
    {
      match run
      case Completed(out, err, result, errorInExec, namespace) =>
        var stdout := if expressionOnly then "" else RemoveAnsiCodes(out);
        var stderr := if expressionOnly then "" else RemoveAnsiCodes(err);
        var error := CleanError(errorInExec);
        var entry := HistoryEntry(executionCount, now, code, error.None?, elapsed, stdout, stderr, result, error);
        && lastUsed == now
        && executionCount == old(executionCount) + 1
        && history == Capped(old(history) + [entry])
        && history[|history| - 1] == entry
        && userNs == namespace
        && res == ExecutionResult(error.None?, executionCount, stdout, stderr, result, error)
      case Raised(message, traceback) =>
        && lastUsed == now
        && executionCount == old(executionCount) && history == old(history) && userNs == old(userNs)
        && res == ExecutionResult(false, executionCount, "", "", None, Some(EscapedErrorText(message, traceback)))
    }

    /** `execute`: run a cell with its printed output captured. */
    method Execute(code: string, run: RunOutcome, now: string, elapsed: real) returns (res: ExecutionResult)
      requires Valid()
      modifies this
      ensures Valid()
      ensures RanCell(code, false, run, now, elapsed, res)
    {
      lastUsed := now;
      match run
      case Completed(out, err, result, errorInExec, namespace) =>
        res := RecordRun(code, RemoveAnsiCodes(out), RemoveAnsiCodes(err), result, CleanError(errorInExec), namespace, now, elapsed);
      case Raised(message, traceback) =>
        res := ExecutionResult(false, executionCount, "", "", None, Some(EscapedErrorText(message, traceback)));
    }

    /**
     * `execute_expression_only`: the same bookkeeping, but nothing printed is captured, so the
     * record and the result carry empty output.
     */
    method ExecuteExpressionOnly(code: string, run: RunOutcome, now: string, elapsed: real) returns (res: ExecutionResult)
      requires Valid()
      modifies this
      ensures Valid()
      ensures RanCell(code, true, run, now, elapsed, res)
    {
      lastUsed := now;
      match run
      case Completed(_, _, result, errorInExec, namespace) =>
        res := RecordRun(code, "", "", result, CleanError(errorInExec), namespace, now, elapsed);
      case Raised(message, traceback) =>
        res := ExecutionResult(false, executionCount, "", "", None, Some(EscapedErrorText(message, traceback)));
    }

    /**
     * Binding a loaded DataFrame changes only its name in the namespace: the name asked for, or
     * the first `df_<stem>[_k]` that is not a user variable, which then replaces no binding.
     */
    twostate predicate BoundDataFrame(requested: Option<string>, stem: string, df: Value, name: string)
      reads this
    {
      && executionCount == old(executionCount) && history == old(history) && lastUsed == old(lastUsed)
      && userNs == old(userNs)[name := df]
      && (requested.Some? ==> name == requested.value)
      && (requested.None? ==>
            && name !in old(userNs)
            && exists k: nat :: name == DataFrameName(stem, k) &&
                 forall j :: 0 <= j < k ==> DataFrameName(stem, j) in UserVariables(old(userNs)))
    }

    /**
     * Bind a loaded DataFrame. A name the caller gives is used as it is (and may replace a
     * variable); otherwise the first free `df_<stem>[_k]` is chosen, which never replaces one.
     */
    method BindDataFrame(requested: Option<string>, stem: string, df: Value) returns (name: string)
      requires Valid()
      modifies this
      ensures Valid()
      ensures BoundDataFrame(requested, stem, df, name)
    {
      if requested.Some? {
        name := requested.value;
      } else {
        var variables := UserVariables(userNs);
        name := FreshDataFrameName(stem, variables.Keys);
        ghost var k: nat :| name == DataFrameName(stem, k);
        DataFrameNameIsUserVariable(stem, k);
      }
      userNs := userNs[name := df];
    }

    /**
     * Delete each listed name that is still bound when it is reached, and report those, in order.
     */
    method DeleteNames(names: seq<string>) returns (cleared: seq<string>)
      requires Valid()
      modifies this
      ensures Valid()
      ensures executionCount == old(executionCount) && history == old(history) && lastUsed == old(lastUsed)
      ensures userNs == old(userNs) - (set n | n in names)
      ensures cleared == ClearedNames(old(userNs), names)
    {
      cleared := [];
      var i := 0;
      while i < |names|
        invariant 0 <= i <= |names|
        invariant executionCount == old(executionCount) && history == old(history) && lastUsed == old(lastUsed)
        invariant userNs == old(userNs) - (set n | n in names[..i])
        invariant cleared + ClearedNames(userNs, names[i..]) == ClearedNames(old(userNs), names)
      {
        var name := names[i];
        assert names[i..][1..] == names[i + 1..];
        assert names[..i + 1] == names[..i] + [name];
        if name in userNs {
          userNs := userNs - {name};
          cleared := cleared + [name];
        }
        i := i + 1;
      }
      assert names[..i] == names;
    }

    /**
     * What `clear_variables` does to the session: with `clear_all`, every user variable that the
     * keep test does not spare is deleted and reported once; otherwise the listed names that are
     * bound are deleted and reported in order; with neither, an error and no change. The counter
     * and the history stay, and `remaining_variables` counts the user variables left.
     */
    twostate predicate ClearedVariables(variableNames: Option<seq<string>>, clearAll: bool, keepImports: bool,
                                        new r: Result<ClearReport, string>)
      reads this
    {
      && executionCount == old(executionCount) && history == old(history) && lastUsed == old(lastUsed)
      && (clearAll ==>
            && r.Ok?
            && userNs == old(userNs) - ClearAllTargets(old(userNs), keepImports)
            && (forall n :: n in r.value.cleared <==> n in ClearAllTargets(old(userNs), keepImports))
            && (forall i, j :: 0 <= i < j < |r.value.cleared| ==> r.value.cleared[i] != r.value.cleared[j])
            && r.value.remainingVariables == |UserVariables(userNs)|)
      && (!clearAll && variableNames.Some? && variableNames.value != [] ==>
            && userNs == old(userNs) - (set n | n in variableNames.value)
            && r == Ok(ClearReport(ClearedNames(old(userNs), variableNames.value), |UserVariables(userNs)|)))
      && (!clearAll && (variableNames.None? || variableNames.value == []) ==>
            r == Err(ClearUsageError) && userNs == old(userNs))
    }

    /**
     * `clear_variables`: with `clear_all`, every user variable except, when asked, the imported
     * modules; otherwise the listed names that are bound; with neither, an error and no change.
     */
    method ClearVariables(variableNames: Option<seq<string>>, clearAll: bool, keepImports: bool)
      returns (r: Result<ClearReport, string>)
      requires Valid()
      modifies this
      ensures Valid()
      ensures ClearedVariables(variableNames, clearAll, keepImports, r)
    {
      if clearAll {
        var toDelete: seq<string> := [];
        var pending := userNs.Keys;
        while pending != {}
          invariant pending <= userNs.Keys && userNs == old(userNs)
          invariant forall n :: n in toDelete <==> n in ClearAllTargets(userNs, keepImports) && n !in pending
          invariant forall n :: n in toDelete ==> n in userNs
          decreases pending
        {
          var name :| name in pending;
          if IsUserVariable(name) && !KeptOnClearAll(userNs[name], keepImports) {
            toDelete := toDelete + [name];
          }
          pending := pending - {name};
        }
        var cleared := DeleteNames(toDelete);
        ClearedNamesExactly(old(userNs), toDelete);
        assert (set n | n in toDelete) == ClearAllTargets(old(userNs), keepImports);
        r := Ok(ClearReport(cleared, |UserVariables(userNs)|));
      } else if variableNames.Some? && variableNames.value != [] {
        var cleared := DeleteNames(variableNames.value);
        r := Ok(ClearReport(cleared, |UserVariables(userNs)|));
      } else {
        r := Err(ClearUsageError);
      }
    }
  }

  /** The session id a creation request ends up with: the one asked for, or a generated `session_<hex>`. */
  function SessionIdFor(requested: Option<string>, generatedSuffix: string): string {
    match requested
    case Some(id) => id
    case None => "session_" + generatedSuffix
  }

  class SessionManager {
    var sessions: map<string, Session>

    /** Each session is filed under its own id and keeps its history consistent. */
    ghost predicate Valid()
      reads this, sessions.Values
    {
      forall id :: id in sessions ==> sessions[id].sessionId == id && sessions[id].Valid()
    }

    constructor ()
      ensures Valid() && sessions == map[]
    {
      sessions := map[];
    }

    /**
     * `create_session`: an id already in use is refused and nothing changes; otherwise a new
     * session is filed under it, the map grows by one, and the id is returned.
     */
    method CreateSession(requested: Option<string>, generatedSuffix: string, now: string, startupNs: map<string, Value>)
      returns (r: Result<string, SessionError>)
      requires Valid()
      modifies this
      ensures Valid()
      ensures var id := SessionIdFor(requested, generatedSuffix);
        && (id in old(sessions) ==> r == Err(AlreadyExists(id)) && sessions == old(sessions))
        && (id !in old(sessions) ==>
              && r == Ok(id)
              && id in sessions && fresh(sessions[id])
              && sessions == old(sessions)[id := sessions[id]]
              && |sessions| == |old(sessions)| + 1
              && sessions[id].executionCount == 0 && sessions[id].history == []
              && sessions[id].userNs == startupNs)
    {
      var id := SessionIdFor(requested, generatedSuffix);
      if id in sessions {
        return Err(AlreadyExists(id));
      }
      var session := new Session(id, now, startupNs);
      sessions := sessions[id := session];
      r := Ok(id);
    }

    /** `get_session`: the session filed under the id, or "not found"; the map is not changed. */
    method GetSession(id: string) returns (r: Result<Session, SessionError>)
      ensures r.Ok? <==> id in sessions
      ensures r.Ok? ==> r.value == sessions[id]
      ensures r.Err? ==> r.error == NotFound(id)
    {
      if id !in sessions {
        return Err(NotFound(id));
      }
      r := Ok(sessions[id]);
    }

    /** `delete_session`: true exactly when the id was filed; afterwards it is not, and every other entry stays. */
    method DeleteSession(id: string) returns (deleted: bool)
      requires Valid()
      modifies this
      ensures Valid()
      ensures deleted == (id in old(sessions))
      ensures sessions == old(sessions) - {id}
      ensures id !in sessions && forall other :: other != id && other in old(sessions) ==> other in sessions && sessions[other] == old(sessions)[other]
    {
      deleted := id in sessions;
      if deleted {
        sessions := sessions - {id};
      }
    }
  }
}
