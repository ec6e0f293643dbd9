/**
 * The function registry of the interpreter: the list of defined functions
 * (kept in the source as a doubly linked list from start_function to
 * end_function), the function currently being defined (function_mode) and
 * the pending parameter list (function_parameters_mode) that definitions
 * and calls fill one symbol at a time.
 *
 * The linked list is a sequence in list order; function_mode is an index
 * into it. The symbols of the interpreter's symbol table that the pending
 * list points at are values of type Param.
 */
module Functions {
  import opened Wrappers

  /** The value types a parameter symbol can carry. */
  datatype Type = BoolType | IntType | FloatType | StringType

  /** The payload of a symbol; a declared parameter has none yet. */
  datatype Value = NoValue | BoolVal(b: bool) | IntVal(i: int) | FloatVal(f: real) | StringVal(s: string)

  /** A symbol in a parameter list: its secondary name (declared parameters only), type and value. */
  datatype Param = Param(secondaryName: Option<string>, ty: Type, value: Value)

  /** A defined function: its name, its declared parameters and the recorded body text. */
  datatype Function = Function(name: Option<string>, parameters: seq<Param>, body: string)

  /** What createCloneFromSymbol is asked to do for one parameter of a call. */
  datatype Binding = Binding(name: Option<string>, ty: Type, argument: Param)

  /** The index of the first function in list order whose name is present and equal to name. */
  function Find(fs: seq<Function>, name: string): (r: Option<nat>)
    ensures r.Some? ==> r.value < |fs| && fs[r.value].name == Some(name)
    ensures r.Some? ==> forall j :: 0 <= j < r.value ==> fs[j].name != Some(name)
    ensures r.None? ==> forall j :: 0 <= j < |fs| ==> fs[j].name != Some(name)
  {
    if fs == [] then None
    else if fs[0].name == Some(name) then Some(0)
    else match Find(fs[1..], name)
      case None => None
      case Some(k) => Some(k + 1)
  }

  /** No name occurs twice in the list. */
  ghost predicate UniqueNames(fs: seq<Function>) {
    forall i, j :: 0 <= i < j < |fs| && fs[i].name.Some? ==> fs[i].name != fs[j].name
  }

  /** In a list without repeated names, the function found under a name is the only one carrying it. */
  lemma FindUnique(fs: seq<Function>, name: string, k: nat)
    requires UniqueNames(fs) && k < |fs| && fs[k].name == Some(name)
    ensures Find(fs, name) == Some(k)
  {
    forall j | 0 <= j < k
      ensures fs[j].name != Some(name)
    {
      if fs[j].name.Some? {
        assert fs[j].name != fs[k].name;
      }
    }
    FindFirstMatch(fs, name, k);
  }

  /** Appending a function with a fresh name keeps the names unique and makes it findable at the end. */
  lemma {:induction false} AppendFresh(fs: seq<Function>, f: Function, name: string)
    requires UniqueNames(fs) && Find(fs, name).None? && f.name == Some(name)
    ensures UniqueNames(fs + [f])
    ensures Find(fs + [f], name) == Some(|fs|)
  {
    var gs := fs + [f];
    forall i, j | 0 <= i < j < |gs| && gs[i].name.Some?
      ensures gs[i].name != gs[j].name
    {
      if j == |fs| {
        assert gs[i] == fs[i];
      } else {
        assert gs[i] == fs[i] && gs[j] == fs[j];
      }
    }
    FindUnique(gs, name, |fs|);
  }

  /** Lookups of other names are not disturbed by appending a function. */
  lemma FindAppendOther(fs: seq<Function>, f: Function, other: string)
    requires f.name != Some(other)
    ensures Find(fs + [f], other) == Find(fs, other)
  {
    var gs := fs + [f];
    match Find(fs, other)
    case Some(k) =>
      forall j | 0 <= j < k
        ensures gs[j].name != Some(other)
      {
        assert gs[j] == fs[j];
      }
      assert gs[k] == fs[k];
      FindFirstMatch(gs, other, k);
    case None =>
      forall j | 0 <= j < |gs|
        ensures gs[j].name != Some(other)
      {
        if j < |fs| {
          assert gs[j] == fs[j];
        }
      }
      FindNoMatch(gs, other);
  }

  /** Blanking a body changes no name, so every lookup answers as before. */
  lemma FindBlankBody(fs: seq<Function>, k: nat, name: string)
    requires k < |fs|
    ensures Find(fs[k := fs[k].(body := "")], name) == Find(fs, name)
  {
    var gs := fs[k := fs[k].(body := "")];
    forall j | 0 <= j < |fs|
      ensures gs[j].name == fs[j].name
    {
    }
    match Find(fs, name)
    case Some(i) =>
      FindFirstMatch(gs, name, i);
    case None =>
      FindNoMatch(gs, name);
  }

  /** The registry's global state. */
  class Registry {
    /** start_function .. end_function, in list order. */
    var functions: seq<Function>
    /** function_mode: the function being defined, if any. */
    var mode: Option<nat>
    /** function_parameters_mode: the pending parameter list, if one has been started. */
    var pending: Option<seq<Param>>

    ghost predicate Valid()
      reads this
    {
      (mode.Some? ==> mode.value < |functions|) && UniqueNames(functions)
    }

    /** The empty registry the interpreter starts with. */
    constructor ()
      ensures Valid()
      ensures functions == [] && mode == None && pending == None
    {
      functions := [];
      mode := None;
      pending := None;
    }

    /** getFunction: a cursor walk from the start of the list to the first function with the name. */
    method GetFunction(name: string) returns (r: Option<nat>)
      ensures r.Some? ==> r.value < |functions| && functions[r.value].name == Some(name)
      ensures r.Some? ==> forall j :: 0 <= j < r.value ==> functions[j].name != Some(name)
      ensures r.None? ==> forall j :: 0 <= j < |functions| ==> functions[j].name != Some(name)
      ensures r == Find(functions, name)
    {
      var cursor := 0;
      while cursor < |functions|
        invariant 0 <= cursor <= |functions|
        invariant forall j :: 0 <= j < cursor ==> functions[j].name != Some(name)
      {
        if functions[cursor].name.Some? && functions[cursor].name.value == name {
          r := Some(cursor);
          FindFirstMatch(functions, name, cursor);
          return;
        }
        cursor := cursor + 1;
      }
      r := None;
      FindNoMatch(functions, name);
    }

    /**
     * startFunction: a known name becomes the function being defined with
     * its body blanked; a new name is appended with the pending parameters,
     * and the pending list is freed.
     */
    method StartFunction(name: string)
      requires Valid()
      requires Find(functions, name).None? ==> pending.Some?
      modifies this
      ensures Valid()
      ensures mode.Some? && functions[mode.value].name == Some(name)
      ensures old(Find(functions, name)).Some? ==>
                var k := old(Find(functions, name)).value;
                functions == old(functions)[k := old(functions)[k].(body := "")] &&
                mode == Some(k) && pending == old(pending)
      ensures old(Find(functions, name)).None? ==>
                functions == old(functions) + [Function(Some(name), old(pending).value, "")] &&
                mode == Some(|old(functions)|) && pending == None
      ensures forall other :: other != name ==> Find(functions, other) == old(Find(functions, other))
    {
      var found := GetFunction(name);
      mode := found;
      if found.Some? {
        var k := found.value;
        forall other {
          FindBlankBody(functions, k, other);
        }
        functions := functions[k := functions[k].(body := "")];
        return;
      }
      var f := Function(Some(name), pending.value, "");
      AppendFresh(functions, f, name);
      forall other | other != name {
        FindAppendOther(functions, f, other);
      }
      functions := functions + [f];
      mode := Some(|functions| - 1);
      FreeFunctionMode();
    }

    /** endFunction: leaves definition mode and frees the pending list, unless no function is being defined. */
    method EndFunction()
      requires Valid()
      modifies this`mode, this`pending
      ensures Valid()
      ensures old(mode).None? ==> mode == old(mode) && pending == old(pending)
      ensures old(mode).Some? ==> mode == None && pending == None
    {
      if mode.None? {
        return;
      }
      mode := None;
      FreeFunctionMode();
    }

    /** freeFunctionMode: drops the pending parameter list. */
    method FreeFunctionMode()
      modifies this`pending
      ensures pending == None
    {
      pending := None;
    }

    /** startFunctionParameters: a new, empty pending list. */
    method StartFunctionParameters()
      modifies this`pending
      ensures pending == Some([])
    {
      pending := Some([]);
    }

    /** addSymbolToFunctionParameters: appends one symbol, starting a pending list first if there is none. */
    method AddSymbolToFunctionParameters(sym: Param)
      modifies this`pending
      ensures pending == Some(PendingOr(old(pending)) + [sym])
    {
      if pending.None? {
        StartFunctionParameters();
        assert [] + [sym] == [sym];
      }
      pending := Some(pending.value + [sym]);
    }

    /** addFunctionParameter: a declared parameter, known by its secondary name and type. */
    method AddFunctionParameter(secondaryName: string, ty: Type)
      modifies this`pending
      ensures pending == Some(PendingOr(old(pending)) + [Param(Some(secondaryName), ty, NoValue)])
    {
      AddSymbolToFunctionParameters(Param(Some(secondaryName), ty, NoValue));
    }

    /** addFunctionCallParameterBool */
    method AddFunctionCallParameterBool(b: bool)
      modifies this`pending
      ensures pending == Some(PendingOr(old(pending)) + [Param(None, BoolType, BoolVal(b))])
    {
      AddSymbolToFunctionParameters(Param(None, BoolType, BoolVal(b)));
    }

    /** addFunctionCallParameterInt */
    method AddFunctionCallParameterInt(i: int)
      modifies this`pending
      ensures pending == Some(PendingOr(old(pending)) + [Param(None, IntType, IntVal(i))])
    {
      AddSymbolToFunctionParameters(Param(None, IntType, IntVal(i)));
    }

    /** addFunctionCallParameterFloat */
    method AddFunctionCallParameterFloat(f: real)
      modifies this`pending
      ensures pending == Some(PendingOr(old(pending)) + [Param(None, FloatType, FloatVal(f))])
    {
      AddSymbolToFunctionParameters(Param(None, FloatType, FloatVal(f)));
    }

    /** addFunctionCallParameterString */
    method AddFunctionCallParameterString(s: string)
      modifies this`pending
      ensures pending == Some(PendingOr(old(pending)) + [Param(None, StringType, StringVal(s))])
    {
      AddSymbolToFunctionParameters(Param(None, StringType, StringVal(s)));
    }

    /** addFunctionCallParameterSymbol, given the symbol getSymbol found for the name. */
    method AddFunctionCallParameterSymbol(sym: Param)
      modifies this`pending
      ensures pending == Some(PendingOr(old(pending)) + [sym])
    {
      AddSymbolToFunctionParameters(sym);
    }

    /**
     * callFunction, up to the body injection: pairs declared parameter i
     * with pending argument i, in order, then frees the pending list. A
     * function without parameters never reads the pending list, which may
     * then be absent.
     */
    method CallFunction(name: string) returns (bindings: seq<Binding>)
      requires Find(functions, name).Some?
      requires |functions[Find(functions, name).value].parameters| <= |PendingOr(pending)|
      modifies this`pending
      ensures var params := functions[Find(functions, name).value].parameters;
              |bindings| == |params| &&
              forall i :: 0 <= i < |params| ==>
                bindings[i] == Binding(params[i].secondaryName, params[i].ty, PendingOr(old(pending))[i])
      ensures pending == None
    {
      var found := GetFunction(name);
      var callee := functions[found.value];
      var args := PendingOr(pending);
      bindings := [];
      var i := 0;
      while i < |callee.parameters|
        invariant 0 <= i <= |callee.parameters|
        invariant |bindings| == i
        invariant forall j :: 0 <= j < i ==>
                    bindings[j] == Binding(callee.parameters[j].secondaryName, callee.parameters[j].ty, args[j])
      {
        var parameter := callee.parameters[i];
        bindings := bindings + [Binding(parameter.secondaryName, parameter.ty, args[i])];
        i := i + 1;
      }
      FreeFunctionMode();
    }
  }

  /** The pending list, or the empty list addSymbolToFunctionParameters starts when there is none. */
  function PendingOr(pending: Option<seq<Param>>): seq<Param> {
    if pending.Some? then pending.value else []
  }

  lemma FindFirstMatch(fs: seq<Function>, name: string, k: nat)
    requires k < |fs| && fs[k].name == Some(name)
    requires forall j :: 0 <= j < k ==> fs[j].name != Some(name)
    ensures Find(fs, name) == Some(k)
  {
  }

  lemma FindNoMatch(fs: seq<Function>, name: string)
    requires forall j :: 0 <= j < |fs| ==> fs[j].name != Some(name)
    ensures Find(fs, name) == None
  {
  }

  // ---------------------------------------------------------------------
  // The next pointer of the list's last node
  // ---------------------------------------------------------------------

  /**
   * Where getFunction's cursor walk ends: at a function carrying the name,
   * at the NULL end of the list, or at a next pointer that was never written.
   */
  datatype Walk = Hit(k: nat) | End | Unset

  /**
   * getFunction's walk from node i. Every next pointer but the last node's
   * is written by the append that follows; the last node's is written
   * exactly when lastLinked holds.
   */
  function WalkFrom(fs: seq<Function>, lastLinked: bool, name: string, i: nat): (r: Walk)
    requires i <= |fs|
    ensures r.Hit? ==> i <= r.k < |fs| && fs[r.k].name == Some(name)
    ensures r.Hit? ==> forall j :: i <= j < r.k ==> fs[j].name != Some(name)
    ensures !r.Hit? ==> forall j :: i <= j < |fs| ==> fs[j].name != Some(name)
    ensures r == Unset <==> (!r.Hit? && !lastLinked && i < |fs|)
    decreases |fs| - i
  {
    if i == |fs| then End
    else if fs[i].name == Some(name) then Hit(i)
    else if i == |fs| - 1 then (if lastLinked then End else Unset)
    else WalkFrom(fs, lastLinked, name, i + 1)
  }

  /**
   * startFunction's append as written: the new function goes at the end;
   * its next pointer is set to NULL only when the list was not empty, so
   * after the empty-list branch the last node is not linked.
   */
  function AppendAsWritten(fs: seq<Function>, f: Function): (r: (seq<Function>, bool))
    ensures |r.0| == |fs| + 1 && r.0[..|fs|] == fs && r.0[|fs|] == f
    ensures r.1 <==> fs != []
  {
    (fs + [f], fs != [])
  }

  /** startFunction's append as evidently intended: the new last node ends the list in both branches. */
  function AppendLinked(fs: seq<Function>, f: Function): (r: (seq<Function>, bool))
    ensures |r.0| == |fs| + 1 && r.0[..|fs|] == fs && r.0[|fs|] == f
    ensures r.1
  {
    (fs + [f], true)
  }

  /**
   * As written: after the first function f is defined in an empty
   * registry, looking up any name other than f's walks from f through its
   * unwritten next pointer, as the getFunction call of a second
   * startFunction with a new name does.
   */
  lemma SecondNewNameReadsUnsetNext(f: Function, name: string)
    ensures var (fs, linked) := AppendAsWritten([], f);
            WalkFrom(fs, linked, name, 0) == Unset <==> f.name != Some(name)
  {
  }

  /** With the last node linked to NULL, the walk finds exactly what Find finds. */
  lemma {:induction false} WalkLinked(fs: seq<Function>, name: string, i: nat)
    requires i <= |fs|
    requires forall j :: 0 <= j < i ==> fs[j].name != Some(name)
    ensures Find(fs, name).Some? ==> WalkFrom(fs, true, name, i) == Hit(Find(fs, name).value)
    ensures Find(fs, name).None? ==> WalkFrom(fs, true, name, i) == End
    decreases |fs| - i
  {
    if i == |fs| {
      FindNoMatch(fs, name);
    } else if fs[i].name == Some(name) {
      FindFirstMatch(fs, name, i);
    } else if i == |fs| - 1 {
      FindNoMatch(fs, name);
    } else {
      WalkLinked(fs, name, i + 1);
    }
  }

  /**
   * Corrected: after an append that links the new last node, the walk
   * never meets an unwritten pointer and agrees with Find, which
   * Registry.GetFunction implements.
   */
  lemma LinkedWalkIsFind(fs: seq<Function>, f: Function, name: string)
    ensures var (gs, linked) := AppendLinked(fs, f);
            WalkFrom(gs, linked, name, 0) != Unset &&
            (Find(gs, name).Some? ==> WalkFrom(gs, linked, name, 0) == Hit(Find(gs, name).value)) &&
            (Find(gs, name).None? ==> WalkFrom(gs, linked, name, 0) == End)
  {
    WalkLinked(fs + [f], name, 0);
  }
}
