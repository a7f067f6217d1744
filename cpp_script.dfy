/**
 CppScript: the script engine that replaces the Python one with a fixed
 table of native functions. The table maps a module name to a map from
 function name to callable; Init fills it once, and RunFunction looks a call
 up (module name case-insensitively, function name exactly) and runs it.

 The callables themselves are opaque: a ModuleFunction names one, and what
 running it does is the `call` parameter of RunFunction. Logging, including
 the `report_error` switch that only controls it, is left out.
 */
module CppScriptEngine {

  /** An engine value; `Empty` is what a default-constructed one holds. */
  datatype Parameter = Empty | Value(payload: int)

  /** The callables the table can hold: the two clock entry points. */
  datatype ModuleFunction = CreateClockButton | UpdateClock

  /** What running a callable did: a result, or a standard exception. */
  datatype Outcome = Returned(result: Parameter) | Threw(what: string)

  datatype Option<T> = None | Some(value: T)

  const CLOCK := "clock"
  const MAIN := "main"
  const GUICOMMON := "guicommon"

  /** `::tolower` in the C locale: only the ASCII capitals change. */
  predicate IsUpper(c: char)
  {
    'A' <= c <= 'Z'
  }

  function ToLower(c: char): (r: char)
    ensures !IsUpper(r)
    ensures IsUpper(c) ==> r as int == c as int + 32
    ensures !IsUpper(c) ==> r == c
  {
    if IsUpper(c) then (c as int + 32) as char else c
  }

  /** Two characters a case-insensitive comparison treats as equal. */
  predicate SameLetter(x: char, y: char)
  {
    x == y || (IsUpper(x) && y as int == x as int + 32) || (IsUpper(y) && x as int == y as int + 32)
  }

  /** Two names equal up to the case of their ASCII letters. */
  predicate EqualIgnoringCase(a: string, b: string)
  {
    |a| == |b| && forall i :: 0 <= i < |a| ==> SameLetter(a[i], b[i])
  }

  /** The module name as the lookup sees it: no capitals left, otherwise the same name. */
  function Lower(s: string): (r: string)
    ensures |r| == |s|
    ensures forall i :: 0 <= i < |r| ==> !IsUpper(r[i])
    ensures EqualIgnoringCase(s, r)
  {
    if s == [] then [] else [ToLower(s[0])] + Lower(s[1..])
  }

  /** Lowering a single character agrees with SameLetter, in both directions. */
  lemma ToLowerSame(x: char, y: char)
    ensures ToLower(x) == ToLower(y) <==> SameLetter(x, y)
  {
  }

  /** Lowering is idempotent. */
  lemma LowerIdempotent(s: string)
    ensures Lower(Lower(s)) == Lower(s)
  {
  }

  /** Two names lower to the same key exactly when they are equal ignoring case. */
  lemma {:induction false} LowerSameIff(a: string, b: string)
    ensures Lower(a) == Lower(b) <==> EqualIgnoringCase(a, b)
  {
    if |a| == |b| && a != [] {
      LowerSameIff(a[1..], b[1..]);
      ToLowerSame(a[0], b[0]);
      assert Lower(a) == [ToLower(a[0])] + Lower(a[1..]);
      assert Lower(b) == [ToLower(b[0])] + Lower(b[1..]);
      if EqualIgnoringCase(a, b) {
        assert EqualIgnoringCase(a[1..], b[1..]) by {
          forall i | 0 <= i < |a| - 1 ensures SameLetter(a[1..][i], b[1..][i]) {
            assert a[1..][i] == a[i + 1] && b[1..][i] == b[i + 1];
          }
        }
      }
      if Lower(a) == Lower(b) {
        assert Lower(a)[0] == Lower(b)[0] && Lower(a)[1..] == Lower(b)[1..];
        forall i | 0 <= i < |a| ensures SameLetter(a[i], b[i]) {
          if i > 0 {
            assert a[1..][i - 1] == a[i] && b[1..][i - 1] == b[i];
          }
        }
      }
    } else if |a| != |b| {
      assert |Lower(a)| != |Lower(b)|;
    }
  }

  /** The functions the clock module registers. */
  function ClockFunctions(): (fs: map<string, ModuleFunction>)
    ensures fs.Keys == {"CreateClockButton", "UpdateClock"}
    ensures fs["CreateClockButton"] == CreateClockButton && fs["UpdateClock"] == UpdateClock
  {
    map["CreateClockButton" := CreateClockButton, "UpdateClock" := UpdateClock]
  }

  /** What a found callable's outcome turns into: its result, or Empty if it threw. */
  function Caught(o: Outcome): (p: Parameter)
    ensures o.Threw? ==> p == Empty
    ensures o.Returned? ==> p == o.result
  {
    match o
    case Returned(result) => result
    case Threw(_) => Empty
  }

  class CppScript {
    var modules: map<string, map<string, ModuleFunction>>
    var initialized: bool

    /** A new engine: no modules, not initialized. */
    constructor ()
      ensures modules == map[] && !initialized
    {
      modules := map[];
      initialized := false;
    }

    /**
     Registers the three modules and sets the flag, once; a second call
     succeeds and changes nothing.
     */
    method Init() returns (ok: bool)
      modifies this
      ensures ok && initialized
      ensures old(initialized) ==> modules == old(modules)
      ensures !old(initialized) ==>
        modules == old(modules)[CLOCK := ClockFunctions()][MAIN := map[]][GUICOMMON := map[]]
    {
      if initialized {
        return true;
      }
      RegisterClockModule();
      RegisterMainModule();
      RegisterCommonModule();
      initialized := true;
      return true;
    }

    /** Installs (or replaces) the clock module with its two functions. */
    method RegisterClockModule()
      modifies this
      ensures modules == old(modules)[CLOCK := ClockFunctions()] && initialized == old(initialized)
      ensures CLOCK in modules && modules[CLOCK].Keys == {"CreateClockButton", "UpdateClock"}
    {
      var clockFunctions: map<string, ModuleFunction> := map[];
      clockFunctions := clockFunctions["CreateClockButton" := CreateClockButton];
      clockFunctions := clockFunctions["UpdateClock" := UpdateClock];
      modules := modules[CLOCK := clockFunctions];
    }

    /** Installs (or replaces) the main module, empty. */
    method RegisterMainModule()
      modifies this
      ensures modules == old(modules)[MAIN := map[]] && initialized == old(initialized)
    {
      modules := modules[MAIN := map[]];
    }

    /** Installs (or replaces) the guicommon module, empty. */
    method RegisterCommonModule()
      modifies this
      ensures modules == old(modules)[GUICOMMON := map[]] && initialized == old(initialized)
    {
      modules := modules[GUICOMMON := map[]];
    }

    /** Scripts are compiled in: loading one always succeeds and changes nothing. */
    method LoadScript(filename: string) returns (ok: bool)
      ensures ok
    {
      ok := true;
    }

    /** Executing source text is not supported: always fails. */
    method ExecString(text: string, feedback: bool) returns (ok: bool)
      ensures !ok
    {
      ok := false;
    }

    /** The callable a call would reach, if any. */
    function Lookup(moduleName: string, functionName: string): (f: Option<ModuleFunction>)
      reads this
      ensures f.Some? <==> Lower(moduleName) in modules && functionName in modules[Lower(moduleName)]
      ensures f.Some? ==> f.value == modules[Lower(moduleName)][functionName]
    {
      var key := Lower(moduleName);
      if key in modules && functionName in modules[key] then Some(modules[key][functionName]) else None
    }

    /**
     Runs `functionName` of `moduleName` on `params`. Before Init, for an
     unknown module or function, or when the callable throws, the result is
     an empty Parameter; otherwise it is what the callable returned.
     */
    function RunFunction(moduleName: string, functionName: string, params: seq<Parameter>,
                         call: (ModuleFunction, seq<Parameter>) -> Outcome): (r: Parameter)
      reads this
      ensures !initialized ==> r == Empty
      ensures Lookup(moduleName, functionName).None? ==> r == Empty
      ensures initialized && Lookup(moduleName, functionName).Some? ==>
        r == Caught(call(Lookup(moduleName, functionName).value, params))
    {
      if !initialized then Empty
      else
        var key := Lower(moduleName);
        if key !in modules then Empty
        else if functionName !in modules[key] then Empty
        else Caught(call(modules[key][functionName], params))
    }

    /** Whether the table is the one Init builds on a new engine. */
    ghost predicate HasDefaultTable()
      reads this
    {
      initialized && modules == map[CLOCK := ClockFunctions(), MAIN := map[], GUICOMMON := map[]]
    }
  }

  /** Init on a new engine builds exactly the three default modules. */
  method InitFresh() returns (e: CppScript)
    ensures e.HasDefaultTable()
  {
    e := new CppScript();
    var ok := e.Init();
    assert e.modules == map[CLOCK := ClockFunctions(), MAIN := map[], GUICOMMON := map[]];
  }

  /** Names equal ignoring case reach the same module: the result cannot tell them apart. */
  lemma CaseInsensitiveModule(e: CppScript, a: string, b: string, functionName: string,
                              params: seq<Parameter>, call: (ModuleFunction, seq<Parameter>) -> Outcome)
    requires EqualIgnoringCase(a, b)
    ensures e.RunFunction(a, functionName, params, call) == e.RunFunction(b, functionName, params, call)
  {
    LowerSameIff(a, b);
  }

  /**
   With the default table, a call reaches a callable exactly when the module
   is "clock" in any case and the function is one of its two names, spelled
   exactly; every other call yields Empty without running anything.
   */
  lemma DefaultDispatch(e: CppScript, moduleName: string, functionName: string)
    requires e.HasDefaultTable()
    ensures e.Lookup(moduleName, functionName).Some? <==>
      EqualIgnoringCase(moduleName, CLOCK) && functionName in {"CreateClockButton", "UpdateClock"}
    ensures e.Lookup(moduleName, functionName) == Some(UpdateClock) <==>
      EqualIgnoringCase(moduleName, CLOCK) && functionName == "UpdateClock"
  {
    LowerSameIff(moduleName, CLOCK);
    assert Lower(CLOCK) == CLOCK by {
      LowerIdempotent(CLOCK);
      assert Lower(CLOCK) == "clock";
    }
  }
}
