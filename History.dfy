/**
 * The execution history a session keeps: one record per completed run, capped at the
 * most recent 100, and the page of it that `get_execution_history` returns.
 */
module History {
  import opened Wrappers

  /** The values a history record holds, as they appear in the returned dictionaries. */
  datatype Json = JNull | JBool(b: bool) | JInt(i: int) | JReal(x: real) | JStr(s: string)

  /** One history record, written after a run of the shell completed. */
  datatype HistoryEntry = HistoryEntry(
    executionCount: nat,
    timestamp: string,
    code: string,
    success: bool,
    executionTime: real,
    stdout: string,
    stderr: string,
    result: Option<string>,
    error: Option<string>)
  {
    /** The value the session stores under key k. */
    function Field(k: Key): Json {
      match k
      case ExecutionCountKey => JInt(executionCount)
      case TimestampKey => JStr(timestamp)
      case CodeKey => JStr(code)
      case SuccessKey => JBool(success)
      case ExecutionTimeKey => JReal(executionTime)
      case StdoutKey => JStr(stdout)
      case StderrKey => JStr(stderr)
      case ResultKey => OptionalText(result)
      case ErrorKey => OptionalText(error)
    }

    /** The record as the dictionary the session stores, key for key. */
    function AsRecord(): (rec: map<Key, Json>)
      ensures rec.Keys == RecordKeys
      ensures forall k :: k in rec ==> rec[k] == Field(k)
    {
      map k | k in RecordKeys :: Field(k)
    }
  }

  /** The keys of a history record. */
  datatype Key =
    | ExecutionCountKey | TimestampKey | CodeKey | SuccessKey | ExecutionTimeKey
    | StdoutKey | StderrKey | ResultKey | ErrorKey
  {
    /** The key as it is spelled in the returned dictionary. */
    function Name(): string {
      match this
      case ExecutionCountKey => "execution_count"
      case TimestampKey => "timestamp"
      case CodeKey => "code"
      case SuccessKey => "success"
      case ExecutionTimeKey => "execution_time"
      case StdoutKey => "stdout"
      case StderrKey => "stderr"
      case ResultKey => "result"
      case ErrorKey => "error"
    }
  }

  function OptionalText(t: Option<string>): Json {
    match t
    case None => JNull
    case Some(s) => JStr(s)
  }

  const RecordKeys: set<Key> :=
    {ExecutionCountKey, TimestampKey, CodeKey, SuccessKey, ExecutionTimeKey, StdoutKey, StderrKey, ResultKey, ErrorKey}

  /** The keys `get_execution_history` drops when the caller does not ask for output. */
  const OutputKeys: set<Key> := {StdoutKey, StderrKey, ResultKey}

  /** How many records a session keeps. */
  const MaxHistory: nat := 100

  /** After an append: a list longer than 100 is cut down to its last 100 elements. */
  function Capped<T>(h: seq<T>): (r: seq<T>)
    ensures |r| == if |h| > MaxHistory then MaxHistory else |h|
    ensures r == h[|h| - |r|..]
  {
    if |h| > MaxHistory then h[|h| - MaxHistory..] else h
  }

  /**
   * The history of a session that has completed `count` runs: at most 100 records, and they
   * are the records of the last runs, numbered consecutively up to `count`.
   */
  ghost predicate ConsecutiveHistory(h: seq<HistoryEntry>, count: nat) {
    && |h| <= MaxHistory
    && |h| <= count
    && forall i :: 0 <= i < |h| ==> h[i].executionCount == count - |h| + 1 + i
  }

  /**
   * Appending the record of run `count + 1` and capping keeps the history consecutive; the new
   * record is last, and the records kept are the most recent ones in their original order.
   */
  lemma {:induction false} AppendCappedKeepsConsecutive(h: seq<HistoryEntry>, count: nat, e: HistoryEntry)
    requires ConsecutiveHistory(h, count)
    requires e.executionCount == count + 1
    ensures var h' := Capped(h + [e]);
      && ConsecutiveHistory(h', count + 1)
      && h' != [] && h'[|h'| - 1] == e
      && h' == (h + [e])[|h| + 1 - |h'|..]
  {
    var full := h + [e];
    var h' := Capped(full);
    forall i | 0 <= i < |h'|
      ensures h'[i].executionCount == count + 1 - |h'| + 1 + i
    {
      var j := |full| - |h'| + i;
      assert h'[i] == full[j];
      if j < |h| {
        assert full[j] == h[j];
      }
    }
  }

  /** `history[-limit:] if limit > 0 else history`: the most recent `limit` records, or all of them. */
  function Recent<T>(h: seq<T>, limit: int): (r: seq<T>)
    ensures |r| == if 0 < limit < |h| then limit else |h|
    ensures r == h[|h| - |r|..]
  {
    if limit > 0 && limit < |h| then h[|h| - limit..] else h
  }

  /** A record without its captured output: every key except stdout, stderr and result. */
  function WithoutOutput(rec: map<Key, Json>): (r: map<Key, Json>)
    ensures r.Keys == rec.Keys - OutputKeys
    ensures forall k :: k in r ==> r[k] == rec[k]
  {
    map k | k in rec && k !in OutputKeys :: rec[k]
  }

  /** What `get_execution_history` returns for a session it found. */
  datatype HistoryPage = HistoryPage(history: seq<map<Key, Json>>, totalExecutions: nat)

  function ExecutionHistory(h: seq<HistoryEntry>, limit: int, includeOutput: bool): (page: HistoryPage)
    ensures page.totalExecutions == |h|
    ensures |page.history| == |Recent(h, limit)|
    ensures forall i :: 0 <= i < |page.history| ==>
      && page.history[i].Keys == ReturnedKeys(includeOutput)
      && forall k :: k in page.history[i] ==> page.history[i][k] == h[|h| - |page.history| + i].Field(k)
  {
    var recent := Recent(h, limit);
    HistoryPage(seq(|recent|, i requires 0 <= i < |recent| => ReturnedRecord(recent[i], includeOutput)), |h|)
  }

  /** The keys a returned record has: all of them, or all but the captured output. */
  function ReturnedKeys(includeOutput: bool): set<Key> {
    if includeOutput then RecordKeys else RecordKeys - OutputKeys
  }

  /** A record as returned: whole, or without its output. */
  function ReturnedRecord(e: HistoryEntry, includeOutput: bool): (rec: map<Key, Json>)
    ensures rec.Keys == ReturnedKeys(includeOutput)
    ensures forall k :: k in rec ==> rec[k] == e.Field(k)
  {
    if includeOutput then e.AsRecord() else WithoutOutput(e.AsRecord())
  }

  /**
   * Without output, each returned record keeps exactly the count, timestamp, code, success flag,
   * elapsed time and error of its run.
   */
  lemma BriefRecordKeys(h: seq<HistoryEntry>, limit: int, i: nat)
    requires i < |ExecutionHistory(h, limit, false).history|
    ensures ExecutionHistory(h, limit, false).history[i].Keys ==
      {ExecutionCountKey, TimestampKey, CodeKey, SuccessKey, ExecutionTimeKey, ErrorKey}
  {
  }

  /**
   * Paging a session's history: never more than 100 records in all, at most `limit` returned
   * for a positive limit, and the newest returned record carries the session's count.
   */
  lemma {:induction false} PageOfConsecutiveHistory(h: seq<HistoryEntry>, count: nat, limit: int, includeOutput: bool)
    requires ConsecutiveHistory(h, count)
    ensures var page := ExecutionHistory(h, limit, includeOutput);
      && page.totalExecutions <= MaxHistory
      && (limit > 0 ==> |page.history| <= limit)
      && (h != [] ==>
            && page.history != []
            && ExecutionCountKey in page.history[|page.history| - 1]
            && page.history[|page.history| - 1][ExecutionCountKey] == JInt(count))
  {
    if h != [] {
      NewestRecordCount(h, limit, includeOutput);
      assert h[|h| - 1].executionCount == count;
    }
  }

  /** The newest record on a page of a non-empty history is the newest run's, count included. */
  lemma NewestRecordCount(h: seq<HistoryEntry>, limit: int, includeOutput: bool)
    requires h != []
    ensures var page := ExecutionHistory(h, limit, includeOutput);
      && page.history != []
      && ExecutionCountKey in page.history[|page.history| - 1]
      && page.history[|page.history| - 1][ExecutionCountKey] == JInt(h[|h| - 1].executionCount)
  {
    var page := ExecutionHistory(h, limit, includeOutput);
    var n := |page.history|;
    assert n == |Recent(h, limit)| >= 1;
    assert ExecutionCountKey in ReturnedKeys(includeOutput);
    assert page.history[n - 1][ExecutionCountKey] == h[|h| - 1].Field(ExecutionCountKey);
  }
}
