# Session bookkeeping of the IPython data-analysis tool server, in Dafny

The server exposes interactive shell sessions, aimed at tabular data, as remote tools.
Most of it hands work to the embedded shell and to the DataFrame library. This project
models the bookkeeping the server does itself, around those two:

- **Escape-sequence removal** (`AnsiCodes`): `remove_ansi_codes` deletes the two-character
  `ESC Fe` form (section 5.3 of ECMA-48; the pattern leaves out `[`). It also deletes the
  control sequence `ESC [ P..P I..I F` (section 5.4 of ECMA-48). The model is the
  left-to-right scan that the substitution performs. The scan cuts the text into kept
  characters and removed runs.
- **The session registry** (`Sessions.SessionManager`): a map from session id to session,
  with create, get and delete.
- **Per-session execution bookkeeping** (`Sessions.Session`, `History`): each completed run
  raises `execution_count` by one and appends a record to a history. The history is cut back
  to its last 100 records. `get_execution_history` returns a page of it.
- **Namespace helpers** (`Namespace`): the user-variable filter of `get_variables` and the
  counting by kind in `get_session_status`. Also the `df_<stem>[_k]` name a loader picks,
  and the deletions of `clear_variables`.
- **Sampling arithmetic** (`Sampling`): the head/tail/random split of a "mixed" column
  sample and the number of values it yields. Also the truncation of long text.
- **Tool entry points** (`Tools`): the tools that look a session up by id and then delegate.

The shell is opaque. One call of `run_cell` is a `RunOutcome` parameter. Either the run
completed (printed output, formatted value, error raised inside the cell, namespace
afterwards) or an exception escaped the shell. These are parameters too: the clock
(`now`, `elapsed`), the generated part of a session id, a session's start-up namespace, a
file's stem and the outcome of loading a file. A namespace entry is a `Value`: an
identity, a type name and whether the object has a `__module__` attribute.

## Model

| member | source | states |
|---|---|---|
| `AnsiCodes.RemoveAnsiCodes` | DATA_MCP.py:130-136 | An empty text comes back unchanged. A text without ESC comes back unchanged. The result is always a subsequence of the input and no longer than it. The two lemmas below pin down what it removes. |
| `AnsiCodes.Scan` | DATA_MCP.py:135-136 | The pieces of the scan put back together give the input. Every removed piece is a whole escape sequence as defined by the two ECMA-48 forms. The scanner matches nothing at a kept character. |
| `AnsiCodes.MatchLengthSound` | DATA_MCP.py:135 | What the scanner matches at a position is an escape sequence of one of the two forms. |
| `AnsiCodes.MatchLengthComplete` | DATA_MCP.py:135 | If any prefix of the text is an escape sequence, the scanner matches exactly that prefix. The forms are prefix-free, so the pattern is deterministic. |
| `AnsiCodes.RemovedRunsAreEscapeSequences` | DATA_MCP.py:130-136 | For every text, empty included: every removed run is at least two characters long and begins with ESC, and the output is exactly the text outside the removed runs, in order. |
| `AnsiCodes.ScanWithoutEscape` | DATA_MCP.py:135-136 | When no ESC occurs, every character is kept. |
| `AnsiCodes.NotIdempotent` | DATA_MCP.py:130-136 | Removal is not idempotent. On `ESC ESC @ @`, a second pass removes what the first pass left. |
| `AnsiCodes.LeadingEscapeIsRemoved` | DATA_MCP.py:135-136 | An escape sequence at the front of a text is deleted whole. The rest of the text is cleaned as if it stood alone. |
| `AnsiCodes.LeadingNonEscapeIsKept` | DATA_MCP.py:135-136 | If no prefix of a non-empty text is an escape sequence, its first character is kept and the rest is cleaned on its own. Together with the previous row, this fixes the result for every text. |
| `AnsiCodes.KeptCharactersStartNoEscape` | DATA_MCP.py:135 | No prefix of the text from a kept character on is an escape sequence. The substitution misses no match. |
| `History.Capped` | DATA_MCP.py:304-308 | After an append, the history is cut to its last 100 records. The kept records are a suffix of the list, and a list of 100 or fewer is unchanged. |
| `History.AppendCappedKeepsConsecutive` | DATA_MCP.py:279-308 | Appending the record of run n+1 and capping keeps these facts: at most 100 records, numbered consecutively up to the counter, the new record last, and the most recent records kept in their original order. |
| `History.Recent` | DATA_MCP.py:1059 | A positive limit returns the last `min(limit, len)` records. Otherwise the whole history is returned. The result is always a suffix. |
| `History.WithoutOutput` | DATA_MCP.py:1063-1067 | A record without output has every key except `stdout`, `stderr` and `result`, each with its original value. |
| `History.ExecutionHistory` | DATA_MCP.py:1059-1072 | `total_executions` is the full history length. The page holds the `min(limit, len)` most recent records for a positive limit, else all of them. Record i has exactly the returned keys (all keys, or all but the output keys), each holding the value of the matching history entry. |
| `History.BriefRecordKeys` | DATA_MCP.py:1061-1067 | Without output, a returned record has exactly these keys: count, timestamp, code, success, execution time and error. |
| `History.PageOfConsecutiveHistory` | DATA_MCP.py:1059-1072 | For a session's history, `total_executions` is at most 100. A positive limit returns at most that many records. The newest returned record carries the session's count. |
| `History.NewestRecordCount` | DATA_MCP.py:1059-1072 | On a page of a non-empty history, the newest returned record has an `execution_count` key holding the count of the newest run. |
| `Namespace.UserVariables` | DATA_MCP.py:415-421 | A name is reported exactly when it is bound, does not start with `_` and is not one of `In`, `Out`, `get_ipython`, `exit`, `quit`. It is reported with its type name. |
| `Namespace.SummarizeVariables` | DATA_MCP.py:834-845 | Each kind's count equals the number of variables whose type name falls into that kind under the ordered tests. The five counts add up to the number of variables. |
| `Namespace.FreshDataFrameName` | DATA_MCP.py:1156-1163 | The chosen name is not an existing variable. It is `df_<stem>` if that is free, otherwise `df_<stem>_k` for the least free k. The loop terminates. |
| `Namespace.DataFrameNameInjective` | DATA_MCP.py:1156-1162 | Different counters produce different candidate names. This is what makes the naming loop terminate. |
| `Namespace.DataFrameNameIsUserVariable` | DATA_MCP.py:1159-1161 | Every candidate passes the user-variable filter. A name absent from `get_variables` is therefore absent from the namespace. |
| `Namespace.ClearedNamesExactly` | DATA_MCP.py:2205-2208 | The reported names are exactly the listed names that were bound, each reported once, forming a subsequence of the list. With a repeated name, the clause does not fix which listing its place follows. |
| `Namespace.KeepImportsDropsModulesAsWritten` | DATA_MCP.py:2191-2194 | The `keep_imports` test as written never keeps an imported module. The intended test does keep it. |
| `Namespace.KeptOnClearAllOnlyWithKeepImports` | DATA_MCP.py:2190-2195 | The corrected test keeps a variable only when `keep_imports` is set. It keeps a module exactly when `keep_imports` is set. |
| `Namespace.ClearAllAsWrittenAlsoDeletesModules` | DATA_MCP.py:2188-2195 | The clear-all deletion as written removes every name the corrected one removes. It also removes exactly the module-typed variables without a `__module__` attribute, so every imported module goes, even with `keep_imports`. |
| `Sampling.SplitMixed` | DATA_MCP.py:2069-2074 | With n = min(sample_size, total_count): head + tail + random = n, head ≥ tail ≥ random, and head − random ≤ 1. |
| `Sampling.MixedSampleSize` | DATA_MCP.py:2076-2088 | A "mixed" sample yields exactly min(sample_size, total_count) values, or none when sample_size ≤ 0. For a non-negative size, the head, tail and middle windows fit in the column without overlapping. |
| `Sampling.SliceTo` | DATA_MCP.py:2106 | Python's `s[:k]` is the prefix of length min(k, len) for k ≥ 0, and max(0, len + k) for negative k. |
| `Sampling.Truncate` | DATA_MCP.py:2104-2108 | A text no longer than the limit is unchanged. A longer text is cut to its first `limit` characters and gets a `...` suffix. For a non-negative limit the result is at most limit + 3 characters long. |
| `Sampling.Preview` | DATA_MCP.py:1888-1890 | A preview is the text if it has at most 200 characters. Otherwise it is the first 200 characters followed by `...`, 203 characters in all. |
| `Sessions.CleanError` | DATA_MCP.py:288-290 | An error text is present exactly when the cell raised. It is a subsequence of the raised error's text. |
| `Sessions.Session.constructor` | DATA_MCP.py:141-145 | A new session has counter 0, an empty history and the shell's start-up namespace. |
| `Sessions.Session.RecordRun` | DATA_MCP.py:354-387 | After a completed run, the counter grows by exactly 1 and the run's record is the last history entry, carrying that count. The history is the capped append and holds at most 100 records. |
| `Sessions.Session.Execute` | DATA_MCP.py:336-413 | `RanCell` with captured output. On every path the session's last-used time becomes now. A completed run raises the counter by one. Its record is the capped append, last in the history, and carries the output with escape sequences removed. The namespace becomes the shell's, and the result matches the record. If an exception escapes the shell, the counter, history and namespace are unchanged, and the result is a failure with the old count and the cleaned error text. |
| `Sessions.Session.ExecuteExpressionOnly` | DATA_MCP.py:262-334 | `RanCell` in expression-only mode. Same as `Execute`, including the last-used time on both paths, except that the record and the result carry empty stdout and stderr. |
| `Sessions.Session.BindDataFrame` | DATA_MCP.py:1154-1166 | `BoundDataFrame`. A requested name is used as given. Otherwise the least `df_<stem>[_k]` that is not a user variable is used, and it replaces no binding. Only that name changes in the namespace. The counter and history stay. |
| `Sessions.Session.DeleteNames` | DATA_MCP.py:2197-2208 | The namespace loses exactly the listed names. The reported names are the ones that were bound when reached, in list order. |
| `Sessions.Session.ClearVariables` | DATA_MCP.py:2183-2228 | `ClearedVariables`. With `clear_all`, exactly the user variables not spared by the corrected keep test are deleted, each reported once. With names, the listed bound names are deleted and reported in list order. With neither, the result is the usage error and nothing changes. `remaining_variables` counts the user variables left, and the counter and history stay. |
| `Sessions.SessionManager.constructor` | DATA_MCP.py:530-532 | The registry starts empty. |
| `Sessions.SessionManager.CreateSession` | DATA_MCP.py:534-545 | An id already in use gives "already exists" and leaves the map unchanged. Otherwise the id maps to a fresh session, the map grows by exactly one, and the id is returned. |
| `Sessions.SessionManager.GetSession` | DATA_MCP.py:547-552 | An absent id gives "not found". Otherwise the stored session is returned. The map is not changed. |
| `Sessions.SessionManager.DeleteSession` | DATA_MCP.py:554-560 | Returns true exactly when the id was present. Afterwards the id is absent and every other entry is unchanged. |
| `Tools.ExecuteCode` | DATA_MCP.py:991-1010 | An unknown id gives "Session <id> not found". Otherwise the named session makes the same change (its last-used time becomes now) and gives the same result as `Session.Execute`, or as `Session.ExecuteExpressionOnly` in expression-only mode. Every other session is unchanged. |
| `Tools.GetExecutionHistory` | DATA_MCP.py:1055-1072 | An unknown id gives "not found". Otherwise `total_executions` is the length of that session's history. |
| `Tools.GetSessionStatus` | DATA_MCP.py:818-845 | An unknown id gives "not found". Otherwise the result has the session's count and its variables counted by kind, with totals matching the variables. |
| `Tools.LoadDataFrame` | DATA_MCP.py:1147-1166 | An unknown id gives "not found". A failed load returns its error and leaves the session unchanged. Otherwise the session changes exactly as `Session.BindDataFrame` states: the requested name or the least free `df_<stem>[_k]`, with counter and history kept. Every other session is unchanged. |
| `Tools.ClearSessionVariables` | DATA_MCP.py:2176-2228 | An unknown id gives "not found". Otherwise the named session and the result are as `Session.ClearVariables` states, in all three cases. Every other session is unchanged. |

## Left out

- `run_cell`, output capture, the display formatters and `_format_result*` belong to the embedded shell. A run is the `RunOutcome` parameter.
- `Sessions.Session.Execute`: does not model an exception raised after `run_cell` returned and the counter was raised (DATA_MCP.py:354). The last fallback of `_format_result`, `str(result_obj)` at DATA_MCP.py:240, and `str(execution_result.error_in_exec)` at DATA_MCP.py:369 run the user's own `__str__`, which can raise; for example a cell that raises an exception class whose `__str__` raises. The source then returns a failure with the NEW count, appends no record, and keeps the namespace the cell left. After the next completed run the history numbering has a gap, so `Session.Valid()` (consecutive numbering) and the newest-record claim of `History.PageOfConsecutiveHistory` hold only for sessions where this never happened. The `Raised` outcome assumes that `run_cell` itself raised and left `user_ns` unchanged.
- `Sessions.Session.ExecuteExpressionOnly`: the same gap as `Execute`, through `_format_result_direct` falling back to `_format_result` (DATA_MCP.py:260, 240) and through `str(execution_result.error_in_exec)` at DATA_MCP.py:290, after the counter was raised at DATA_MCP.py:279. The `Raised` outcome assumes `user_ns` unchanged here too.
- DataFrame operations (`read_csv`, `read_excel`, `read_json`, `describe`, `sample`, `dtypes`, `memory_usage`, `isnull`) belong to the DataFrame library. A load is a `Result` parameter, and only the sizes of a sample are modelled, not which rows a random draw picks.
- `DataLoader.detect_encoding`, the engine choice in `load_excel` and the `os.path.exists` checks are file I/O.
- `Path(file_path).stem` is not computed. The stem is a parameter, because its handling of dots differs between Python versions.
- Memory readings, MB conversions, `round(...)`, the memory breakdown of `get_memory_info` and `list_dataframes`, and `memory_freed_mb` are floating-point values derived from the operating system.
- `datetime.now`, `time.time` and `uuid4` come from the environment. Their values are parameters. A generated session id is `session_` followed by the supplied suffix.
- Locks are not modelled; the registry is treated as sequential.
- `list_sessions`, `get_variable_info`, `get_dataframe_info`, `preview_dataframe` and `get_dataframe_summary` are not modelled beyond the 200-character preview. They are made of library calls and memory figures.
- The dictionary marshalling into `{"success": ..., "error": ...}` is transport glue. Error texts are kept as strings.
- `Strings.Lower` lowers ASCII letters only. The two tests that use it look for "function" and "module", and no non-ASCII character lowers to letters that could complete either word.
- `Sessions.Session.ClearVariables`: with `clear_all`, the order of the reported names is the namespace's insertion order in the source. The model reports the same set of names in an unspecified order.
- `Sessions.Session.ClearVariables`: with `clear_all` it deletes what the corrected keep test leaves, not what lines 2191-2194 delete. With `keep_imports` (the default), the code as written also deletes every imported module, because module objects have no `__module__` attribute. `Namespace.ClearAllTargetsAsWritten` gives that set, and `Namespace.ClearAllAsWrittenAlsoDeletesModules` states how it differs (see "## Findings").
- `Namespace.SummarizeVariables`: iterates over the variable names in an unspecified order, not the namespace's insertion order. The counts do not depend on the order.
- The sample-value conversion of `sample_column_data` (`None` for missing values, `str(value)` otherwise) and its `index` field are not modelled; only the truncation is.

## Findings

| source | as written | input that shows it | evidently intended | confidence | as-written member | corrected member |
|---|---|---|---|---|---|---|
| DATA_MCP.py:2191-2194 | With `keep_imports`, a variable is spared only if `hasattr(value, '__module__')` holds and its type name contains "module". | `clear_variables(session_id, clear_all=True, keep_imports=True)` on a session where `pd` is bound to the pandas module. Module objects have no `__module__` attribute, so `pd` is deleted. | `keep_imports` spares imported modules, as its comment and docstring say. | high (a property of Python module objects); not executed | `Namespace.KeepImportsDropsModulesAsWritten` (with `Namespace.KeptOnClearAllAsWritten` and `Namespace.ClearAllAsWrittenAlsoDeletesModules`) | `Namespace.KeptOnClearAllOnlyWithKeepImports` (with `Namespace.KeptOnClearAll`, used by `Sessions.Session.ClearVariables`) |
