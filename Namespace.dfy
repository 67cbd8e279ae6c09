/**
 * The helpers that read or change a session's namespace (the shell's `user_ns`): which
 * names count as user variables, how they are counted by kind, how a loaded DataFrame is
 * named, and which names `clear_variables` deletes.
 */
module Namespace {
  import opened Strings

  /**
   * An object bound in the namespace, seen only through what the helpers ask of it: an
   * identity, the name of its type, and whether it has a `__module__` attribute.
   */
  datatype Value = Value(handle: nat, typeName: string, hasModuleAttribute: bool)

  /** The shell's own names, which `get_variables` hides. */
  const ShellNames: set<string> := {"In", "Out", "get_ipython", "exit", "quit"}

  /** A name `get_variables` reports: not starting with '_' and not one of the shell's own. */
  predicate IsUserVariable(name: string) {
    !(|name| > 0 && name[0] == '_') && name !in ShellNames
  }

  /** `get_variables`: every user variable with the name of its type. */
  function UserVariables(ns: map<string, Value>): (vars: map<string, string>)
    ensures forall n :: n in vars <==> n in ns && IsUserVariable(n)
    ensures forall n :: n in vars ==> vars[n] == ns[n].typeName
  {
    map n | n in ns && IsUserVariable(n) :: ns[n].typeName
  }

  // ---------------------------------------------------------------------------
  // Counting variables by kind, as `get_session_status` reports them.

  datatype Kind = DataFrames | Lists | Scalars | Functions | Others

  /** The first test that a type name passes decides its kind. */
  function Classify(typeName: string): Kind {
    if Contains(typeName, "DataFrame") then DataFrames
    else if typeName in ["list", "tuple", "set"] then Lists
    else if typeName in ["int", "float", "str", "bool"] then Scalars
    else if Contains(Lower(typeName), "function") then Functions
    else Others
  }

  datatype VariableSummary = VariableSummary(dataframes: int, lists: int, scalars: int, functions: int, others: int)
  {
    function Count(k: Kind): int {
      match k
      case DataFrames => dataframes
      case Lists => lists
      case Scalars => scalars
      case Functions => functions
      case Others => others
    }

    function Total(): int {
      dataframes + lists + scalars + functions + others
    }

    /** One more variable of kind k. */
    function Add(k: Kind): (s: VariableSummary)
      ensures s.Count(k) == Count(k) + 1
      ensures forall k' :: k' != k ==> s.Count(k') == Count(k')
      ensures s.Total() == Total() + 1
    {
      match k
      case DataFrames => this.(dataframes := dataframes + 1)
      case Lists => this.(lists := lists + 1)
      case Scalars => this.(scalars := scalars + 1)
      case Functions => this.(functions := functions + 1)
      case Others => this.(others := others + 1)
    }
  }

  /** The names among `names` whose variable is of kind k. */
  ghost function NamesOfKind(vars: map<string, string>, names: set<string>, k: Kind): set<string> {
    set n | n in names && n in vars && Classify(vars[n]) == k
  }

  lemma NamesOfKindStep(vars: map<string, string>, done: set<string>, n: string, k: Kind)
    requires n in vars && n !in done
    ensures Classify(vars[n]) == k ==> NamesOfKind(vars, done + {n}, k) == NamesOfKind(vars, done, k) + {n}
    ensures Classify(vars[n]) != k ==> NamesOfKind(vars, done + {n}, k) == NamesOfKind(vars, done, k)
  {
  }

  lemma SummaryStep(vars: map<string, string>, done: set<string>, n: string, summary: VariableSummary)
    requires n in vars && n !in done
    requires forall k :: summary.Count(k) == |NamesOfKind(vars, done, k)|
    ensures forall k :: summary.Add(Classify(vars[n])).Count(k) == |NamesOfKind(vars, done + {n}, k)|
  {
    var kind := Classify(vars[n]);
    forall k ensures summary.Add(kind).Count(k) == |NamesOfKind(vars, done + {n}, k)| {
      NamesOfKindStep(vars, done, n, k);
    }
  }

  /**
   * The counting loop of `get_session_status`: each kind is counted once per variable of
   * that kind, and the five counts add up to the number of variables.
   */
  method SummarizeVariables(vars: map<string, string>) returns (summary: VariableSummary)
    ensures forall k :: summary.Count(k) == |NamesOfKind(vars, vars.Keys, k)|
    ensures summary.Total() == |vars|
  {
    summary := VariableSummary(0, 0, 0, 0, 0);
    var remaining := vars.Keys;
    ghost var done: set<string> := {};
    while remaining != {}
      invariant remaining !! done && remaining + done == vars.Keys
      invariant forall k :: summary.Count(k) == |NamesOfKind(vars, done, k)|
      invariant summary.Total() == |done|
      decreases remaining
    {
      var n :| n in remaining;
      assert n !in done && |done + {n}| == |done| + 1;
      SummaryStep(vars, done, n, summary);
      summary := summary.Add(Classify(vars[n]));
      remaining := remaining - {n};
      done := done + {n};
    }
    assert done == vars.Keys && |vars.Keys| == |vars|;
  }

  // ---------------------------------------------------------------------------
  // Naming a loaded DataFrame.

  /** The k-th candidate name for a file with the given stem: `df_<stem>`, then `df_<stem>_<k>`. */
  function DataFrameName(stem: string, k: nat): string {
    if k == 0 then "df_" + stem else "df_" + stem + "_" + NatToString(k)
  }

  /** Every candidate is a name `get_variables` would report, so it cannot hide behind the filter. */
  lemma DataFrameNameIsUserVariable(stem: string, k: nat)
    ensures IsUserVariable(DataFrameName(stem, k))
  {
    var name := DataFrameName(stem, k);
    assert name[0] == 'd' && name[..3] == "df_";
    assert |name| >= 3;
    assert name != "In" && name != "Out" && name != "exit" && name != "quit" by {
      assert "In"[0] != 'd' && "Out"[0] != 'd' && "exit"[0] != 'd' && "quit"[0] != 'd';
    }
    assert name != "get_ipython" by {
      assert "get_ipython"[0] != 'd';
    }
  }

  /** Different candidates are different names. */
  lemma {:induction false} DataFrameNameInjective(stem: string, j: nat, k: nat)
    requires DataFrameName(stem, j) == DataFrameName(stem, k)
    ensures j == k
  {
    var prefix := "df_" + stem + "_";
    if j != 0 && k != 0 {
      var a := DataFrameName(stem, j);
      assert a == prefix + NatToString(j) == prefix + NatToString(k);
      assert a[|prefix|..] == NatToString(j);
      assert a[|prefix|..] == (prefix + NatToString(k))[|prefix|..] == NatToString(k);
      NatToStringInjective(j, k);
    } else if j != 0 || k != 0 {
      DataFrameNameLength(stem, j);
      DataFrameNameLength(stem, k);
      assert false;
    }
  }

  lemma DataFrameNameLength(stem: string, k: nat)
    ensures |DataFrameName(stem, k)| == if k == 0 then 3 + |stem| else 4 + |stem| + |NatToString(k)|
  {
  }

  ghost predicate IsEarlierName(stem: string, name: string, n: nat) {
    exists j :: 0 <= j < n && name == DataFrameName(stem, j)
  }

  lemma NextNameIsNew(stem: string, tried: set<string>, n: nat)
    requires forall x :: x in tried ==> IsEarlierName(stem, x, n)
    ensures DataFrameName(stem, n) !in tried
  {
    if DataFrameName(stem, n) in tried {
      var j :| 0 <= j < n && DataFrameName(stem, n) == DataFrameName(stem, j);
      DataFrameNameInjective(stem, j, n);
    }
  }

  /**
   * The name the loaders give a DataFrame when the caller names none: the first candidate
   * that is not already a variable. The loop ends because each round rules out one more
   * of the finitely many existing names.
   */
  method FreshDataFrameName(stem: string, variables: set<string>) returns (name: string)
    ensures name !in variables
    ensures exists k: nat :: name == DataFrameName(stem, k) && forall j :: 0 <= j < k ==> DataFrameName(stem, j) in variables
  {
    name := "df_" + stem;
    var counter := 1;
    ghost var tried: set<string> := {};
    while name in variables
      invariant 1 <= counter
      invariant name == DataFrameName(stem, counter - 1)
      invariant forall j :: 0 <= j < counter - 1 ==> DataFrameName(stem, j) in variables
      invariant tried <= variables
      invariant forall x :: x in tried ==> IsEarlierName(stem, x, counter - 1)
      decreases variables - tried
    {
      NextNameIsNew(stem, tried, counter - 1);
      tried := tried + {name};
      name := "df_" + stem + "_" + NatToString(counter);
      counter := counter + 1;
      forall x | x in tried ensures IsEarlierName(stem, x, counter - 1) {
        if x != DataFrameName(stem, counter - 2) {
          var j :| 0 <= j < counter - 2 && x == DataFrameName(stem, j);
        }
      }
    }
  }

  // ---------------------------------------------------------------------------
  // Deleting names, as `clear_variables` does.

  /** The names a deletion over `names` reports, in order: each one that is still bound when reached. */
  function ClearedNames(ns: map<string, Value>, names: seq<string>): (cleared: seq<string>)
    decreases |names|
  {
    if names == [] then []
    else if names[0] in ns then [names[0]] + ClearedNames(ns - {names[0]}, names[1..])
    else ClearedNames(ns, names[1..])
  }

  /**
   * The reported names are exactly the listed names that were bound, each once, and they form a
   * subsequence of the list. (When a name is listed twice, which of its places the order follows
   * is not stated here; `ClearedNames` reports it at its first listing.)
   */
  lemma {:induction false} ClearedNamesExactly(ns: map<string, Value>, names: seq<string>)
    ensures var cleared := ClearedNames(ns, names);
      && (forall n :: n in cleared <==> n in names && n in ns)
      && (forall i, j :: 0 <= i < j < |cleared| ==> cleared[i] != cleared[j])
      && IsSubsequence(cleared, names)
    decreases |names|
  {
    if names != [] {
      var n := names[0];
      var rest := names[1..];
      assert forall m :: m in names <==> m == n || m in rest;
      if n in ns {
        ClearedNamesExactly(ns - {n}, rest);
        var tail := ClearedNames(ns - {n}, rest);
        assert n !in tail;
        assert forall i :: 1 <= i < |[n] + tail| ==> ([n] + tail)[i] == tail[i - 1];
        assert ([n] + tail)[1..] == tail;
      } else {
        ClearedNamesExactly(ns, rest);
      }
    }
  }

  /**
   * Keeping imports, as intended: with `keep_imports`, `clear_variables(clear_all=True)` spares
   * a variable whose type name contains "module" in any letter case.
   */
  predicate KeptOnClearAll(v: Value, keepImports: bool) {
    keepImports && Contains(Lower(v.typeName), "module")
  }

  /**
   * Keeping imports, as written: the type test only runs for an object that has a
   * `__module__` attribute.
   */
  predicate KeptOnClearAllAsWritten(v: Value, keepImports: bool) {
    keepImports && v.hasModuleAttribute && Contains(Lower(v.typeName), "module")
  }

  /**
   * What an imported module looks like to the test: its type is named `module` and, unlike a
   * function or a class, it has no `__module__` attribute.
   */
  predicate IsModuleObject(v: Value) {
    v.typeName == "module" && !v.hasModuleAttribute
  }

  lemma ModuleTypeNameContainsModule()
    ensures Contains(Lower("module"), "module")
  {
    assert Lower("module") == "module";
    assert IsPrefix("module", "module");
  }

  /** As written, `keep_imports` never spares an imported module, although it is meant to. */
  lemma KeepImportsDropsModulesAsWritten(v: Value)
    requires IsModuleObject(v)
    ensures !KeptOnClearAllAsWritten(v, true)
    ensures KeptOnClearAll(v, true)
  {
    ModuleTypeNameContainsModule();
  }

  /** The corrected test spares a variable only when asked to, and then exactly the module-typed ones. */
  lemma KeptOnClearAllOnlyWithKeepImports(v: Value, keepImports: bool)
    ensures KeptOnClearAll(v, keepImports) ==> keepImports
    ensures IsModuleObject(v) ==> (KeptOnClearAll(v, keepImports) <==> keepImports)
  {
    if IsModuleObject(v) {
      ModuleTypeNameContainsModule();
    }
  }

  /** The names `clear_variables(clear_all=True)` deletes, with the corrected keep test. */
  ghost function ClearAllTargets(ns: map<string, Value>, keepImports: bool): set<string> {
    set n | n in ns && IsUserVariable(n) && !KeptOnClearAll(ns[n], keepImports)
  }

  /** The names `clear_variables(clear_all=True)` deletes with the keep test as written. */
  ghost function ClearAllTargetsAsWritten(ns: map<string, Value>, keepImports: bool): set<string> {
    set n | n in ns && IsUserVariable(n) && !KeptOnClearAllAsWritten(ns[n], keepImports)
  }

  /**
   * The keep test as written deletes everything the corrected one deletes, and also the
   * module-typed variables that lack a `__module__` attribute, among them every imported module.
   */
  lemma ClearAllAsWrittenAlsoDeletesModules(ns: map<string, Value>, keepImports: bool)
    ensures ClearAllTargets(ns, keepImports) <= ClearAllTargetsAsWritten(ns, keepImports)
    ensures forall n :: n in ClearAllTargetsAsWritten(ns, keepImports) - ClearAllTargets(ns, keepImports) <==>
      n in ns && IsUserVariable(n) && KeptOnClearAll(ns[n], keepImports) && !ns[n].hasModuleAttribute
    ensures forall n :: n in ns && IsUserVariable(n) && IsModuleObject(ns[n]) ==>
      n in ClearAllTargetsAsWritten(ns, keepImports) && (keepImports ==> n !in ClearAllTargets(ns, keepImports))
  {
    ModuleTypeNameContainsModule();
  }
}
