/**
 * The tool functions that reach a session through the manager: each looks the id up first,
 * answers "Session <id> not found" for an unknown id, and otherwise delegates to the session.
 */
module Tools {
  import opened Wrappers
  import opened History
  import opened Namespace
  import opened Sessions

  /** `execute_code`: run a cell in the named session, in full or expression-only mode. */
  method ExecuteCode(manager: SessionManager, sessionId: string, code: string, expressionOnly: bool,
                     run: RunOutcome, now: string, elapsed: real)
    returns (r: Result<ExecutionResult, string>)
    requires manager.Valid()
    modifies manager.sessions.Values
    ensures manager.Valid()
    ensures sessionId !in manager.sessions ==> r == Err(NotFound(sessionId).Message())
    ensures sessionId in manager.sessions ==>
      r.Ok? && manager.sessions[sessionId].RanCell(code, expressionOnly, run, now, elapsed, r.value)
    ensures forall id :: id in manager.sessions && id != sessionId ==> unchanged(manager.sessions[id])
  {
    var found := manager.GetSession(sessionId);
    if found.Err? {
      return Err(found.error.Message());
    }
    var session := found.value;
    assert forall id :: id in manager.sessions && id != sessionId ==> manager.sessions[id] != session;
    var res;
    if expressionOnly {
      res := session.ExecuteExpressionOnly(code, run, now, elapsed);
    } else {
      res := session.Execute(code, run, now, elapsed);
    }
    r := Ok(res);
  }

  /** `get_execution_history`: a page of the named session's history. */
  function GetExecutionHistory(manager: SessionManager, sessionId: string, limit: int, includeOutput: bool)
    : (r: Result<HistoryPage, string>)
    reads manager, manager.sessions.Values
    ensures r.Err? <==> sessionId !in manager.sessions
    ensures r.Err? ==> r.error == NotFound(sessionId).Message()
    ensures r.Ok? ==> r.value.totalExecutions == |manager.sessions[sessionId].history|
  {
    if sessionId !in manager.sessions then Err(NotFound(sessionId).Message())
    else Ok(ExecutionHistory(manager.sessions[sessionId].history, limit, includeOutput))
  }

  /** What `get_session_status` reports, less the timestamps and memory figures. */
  datatype SessionStatus = SessionStatus(sessionId: string, executionCount: nat, variableSummary: VariableSummary)

  /** `get_session_status`: the named session's counter and its variables counted by kind. */
  method GetSessionStatus(manager: SessionManager, sessionId: string) returns (r: Result<SessionStatus, string>)
    ensures sessionId !in manager.sessions ==> r == Err(NotFound(sessionId).Message())
    ensures sessionId in manager.sessions ==>
      var s := manager.sessions[sessionId];
      var vars := UserVariables(s.userNs);
      && r.Ok?
      && r.value.sessionId == sessionId && r.value.executionCount == s.executionCount
      && r.value.variableSummary.Total() == |vars|
      && forall k :: r.value.variableSummary.Count(k) == |NamesOfKind(vars, vars.Keys, k)|
  {
    var found := manager.GetSession(sessionId);
    if found.Err? {
      return Err(found.error.Message());
    }
    var session := found.value;
    var summary := SummarizeVariables(UserVariables(session.userNs));
    r := Ok(SessionStatus(sessionId, session.executionCount, summary));
  }

  /**
   * The common part of `load_csv_file`, `load_excel_file` and `load_json_file`: find the
   * session, load the file (given here as its outcome), then bind the DataFrame under the
   * requested or a generated name.
   */
  method LoadDataFrame(manager: SessionManager, sessionId: string, requested: Option<string>, stem: string,
                       loaded: Result<Value, string>)
    returns (r: Result<string, string>)
    requires manager.Valid()
    modifies manager.sessions.Values
    ensures manager.Valid()
    ensures sessionId !in manager.sessions ==> r == Err(NotFound(sessionId).Message())
    ensures sessionId in manager.sessions && loaded.Err? ==>
      r == Err(loaded.error) && unchanged(manager.sessions[sessionId])
    ensures sessionId in manager.sessions && loaded.Ok? ==>
      r.Ok? && manager.sessions[sessionId].BoundDataFrame(requested, stem, loaded.value, r.value)
    ensures forall id :: id in manager.sessions && id != sessionId ==> unchanged(manager.sessions[id])
  {
    var found := manager.GetSession(sessionId);
    if found.Err? {
      return Err(found.error.Message());
    }
    var session := found.value;
    if loaded.Err? {
      return Err(loaded.error);
    }
    var name := session.BindDataFrame(requested, stem, loaded.value);
    r := Ok(name);
  }

  /** `clear_variables` on the named session. */
  method ClearSessionVariables(manager: SessionManager, sessionId: string, variableNames: Option<seq<string>>,
                               clearAll: bool, keepImports: bool)
    returns (r: Result<ClearReport, string>)
    requires manager.Valid()
    modifies manager.sessions.Values
    ensures manager.Valid()
    ensures sessionId !in manager.sessions ==> r == Err(NotFound(sessionId).Message())
    ensures sessionId in manager.sessions ==>
      manager.sessions[sessionId].ClearedVariables(variableNames, clearAll, keepImports, r)
    ensures forall id :: id in manager.sessions && id != sessionId ==> unchanged(manager.sessions[id])
  {
    var found := manager.GetSession(sessionId);
    if found.Err? {
      return Err(found.error.Message());
    }
    r := found.value.ClearVariables(variableNames, clearAll, keepImports);
  }
}
