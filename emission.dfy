/**
 * Whole-program properties of the emitted code: statement lists run from
 * their last statement to their first, the heap is filled contiguously from
 * HEAP_BASE with every word written once, every print statement contributes
 * exactly one PRNT, and HLT occurs exactly once, as the last instruction.
 */
module Emission {
  import opened Bytecode
  import opened Ast
  import opened Lowering
  import opened Layout

  // ---------------------------------------------------------------------
  // Statement order
  // ---------------------------------------------------------------------

  /**
   * compileStmtList compiles the last statement of a list first, in the
   * environment the list starts from, and the rest of the list after it.
   */
  lemma {:induction false} LastFirst(stmts: seq<Stmt>, s: Stmt, env: Env)
    requires StmtsOk(stmts + [s], env)
    ensures StmtOk(s, env) && StmtsOk(stmts, StmtEnv(s, env))
    ensures StmtsEnv(stmts + [s], env) == StmtsEnv(stmts, StmtEnv(s, env))
    ensures StmtsCode(stmts + [s], env) == StmtCode(s, env) + StmtsCode(stmts, StmtEnv(s, env))
  {
    var all := stmts + [s];
    if stmts == [] {
      assert all == [s];
      assert all[1..] == [];
    } else {
      assert all[0] == stmts[0];
      assert all[1..] == stmts[1..] + [s];
      LastFirst(stmts[1..], s, env);
      SeqAssoc(StmtCode(s, env), StmtsCode(stmts[1..], StmtEnv(s, env)),
               StmtCode(stmts[0], StmtsEnv(stmts[1..], StmtEnv(s, env))));
    }
  }

  // ---------------------------------------------------------------------
  // Heap stores and prints
  // ---------------------------------------------------------------------

  /** The number of print statements in a list. */
  function PrintCount(stmts: seq<Stmt>): nat {
    if stmts == [] then 0
    else (if stmts[0].PrintStmt? then 1 else 0) + PrintCount(stmts[1..])
  }

  /** The number of print statements over all files. */
  function FilesPrintCount(files: seq<seq<Stmt>>): nat {
    if files == [] then 0
    else FilesPrintCount(files[..|files| - 1]) + PrintCount(files[|files| - 1])
  }

  lemma AscendingAppend(s1: seq<int>, s2: seq<int>, a: int)
    requires Ascending(s1, a) && Ascending(s2, a + |s1|)
    ensures Ascending(s1 + s2, a)
  {
    forall j | 0 <= j < |s1 + s2|
      ensures (s1 + s2)[j] == a + j
    {
      if j >= |s1| {
        assert (s1 + s2)[j] == s2[j - |s1|];
      }
    }
  }

  lemma ExprObservations(e: Expr, symbols: map<string, Symbol>)
    requires Declared(e, symbols)
    ensures StoreAddrs(ExprCode(e, symbols)) == [] && Prints(ExprCode(e, symbols)) == 0
  {
    ExprCodeReadOnly(e, symbols);
    ReadOnlyObservations(ExprCode(e, symbols));
  }

  /**
   * A declaration writes exactly the heap words between the old and the new
   * cursor, in ascending order, prints nothing, and binds its name to the
   * slot that starts at the old cursor.
   */
  lemma DeclStores(d: Decl, env: Env)
    requires DeclOk(d, env)
    ensures env.heap <= DeclEnv(d, env).heap
    ensures |StoreAddrs(DeclCode(d, env))| == DeclEnv(d, env).heap - env.heap
    ensures Ascending(StoreAddrs(DeclCode(d, env)), env.heap)
    ensures Prints(DeclCode(d, env)) == 0
    ensures d.VarDecl? && V_BOOL <= ExprTag(d.init) <= V_STRING ==>
              var sym := DeclEnv(d, env).symbols[d.name];
              sym.addr == env.heap && sym.addr + Width(sym) == DeclEnv(d, env).heap
  {
    match d
    case VarDecl(x, e) =>
      ExprObservations(e, env.symbols);
      if V_BOOL <= ExprTag(e) <= V_STRING {
        var sym := DeclSymbol(e, env.heap);
        StoreCodeAddrs(sym.ty, sym.addr, sym.len);
        ObservationsAppend(ExprCode(e, env.symbols), StoreCode(sym.ty, sym.addr, sym.len));
      } else {
        ObservationsAppend(ExprCode(e, env.symbols), []);
      }
    case OtherDecl =>
  }

  /** One statement: its stores fill the heap it allocates; it prints once if it is a print. */
  lemma StmtStores(s: Stmt, env: Env)
    requires StmtOk(s, env)
    ensures env.heap <= StmtEnv(s, env).heap
    ensures |StoreAddrs(StmtCode(s, env))| == StmtEnv(s, env).heap - env.heap
    ensures Ascending(StoreAddrs(StmtCode(s, env)), env.heap)
    ensures Prints(StmtCode(s, env)) == if s.PrintStmt? then 1 else 0
  {
    match s
    case PrintStmt(e) =>
      ExprObservations(e, env.symbols);
      ObservationsAppend(ExprCode(e, env.symbols), [Print]);
      ObserveOne(Print);
    case DeclStmt(d) =>
      DeclStores(d, env);
    case OtherStmt =>
  }

  /**
   * A statement list fills the heap contiguously from the cursor it starts
   * at, each word once and in ascending order, and prints once per print
   * statement.
   */
  lemma {:induction false} StmtsStores(stmts: seq<Stmt>, env: Env)
    requires StmtsOk(stmts, env)
    ensures env.heap <= StmtsEnv(stmts, env).heap
    ensures |StoreAddrs(StmtsCode(stmts, env))| == StmtsEnv(stmts, env).heap - env.heap
    ensures Ascending(StoreAddrs(StmtsCode(stmts, env)), env.heap)
    ensures Prints(StmtsCode(stmts, env)) == PrintCount(stmts)
  {
    if stmts != [] {
      var mid := StmtsEnv(stmts[1..], env);
      StmtsStores(stmts[1..], env);
      StmtStores(stmts[0], mid);
      ObservationsAppend(StmtsCode(stmts[1..], env), StmtCode(stmts[0], mid));
      AscendingAppend(StoreAddrs(StmtsCode(stmts[1..], env)), StoreAddrs(StmtCode(stmts[0], mid)), env.heap);
    }
  }

  /** The same over the files, compiled in index order. */
  lemma {:induction false} FilesStores(files: seq<seq<Stmt>>, env: Env)
    requires FilesOk(files, env)
    ensures env.heap <= FilesEnv(files, env).heap
    ensures |StoreAddrs(FilesCode(files, env))| == FilesEnv(files, env).heap - env.heap
    ensures Ascending(StoreAddrs(FilesCode(files, env)), env.heap)
    ensures Prints(FilesCode(files, env)) == FilesPrintCount(files)
    decreases |files|
  {
    if files != [] {
      var before := files[..|files| - 1];
      var mid := FilesEnv(before, env);
      FilesStores(before, env);
      StmtsStores(files[|files| - 1], mid);
      ObservationsAppend(FilesCode(before, env), StmtsCode(files[|files| - 1], mid));
      AscendingAppend(StoreAddrs(FilesCode(before, env)), StoreAddrs(StmtsCode(files[|files| - 1], mid)), env.heap);
    }
  }

  /**
   * A compiled program writes the heap from HEAP_BASE upwards without gaps
   * and never writes a word twice; it prints once per print statement.
   */
  lemma ProgramStores(files: seq<seq<Stmt>>, symbols: map<string, Symbol>)
    requires FilesOk(files, InitEnv(symbols))
    ensures |StoreAddrs(ProgramCode(files, symbols))| == FilesEnv(files, InitEnv(symbols)).heap - HEAP_BASE
    ensures Ascending(StoreAddrs(ProgramCode(files, symbols)), HEAP_BASE)
    ensures forall i, j :: 0 <= i < j < |StoreAddrs(ProgramCode(files, symbols))| ==>
              StoreAddrs(ProgramCode(files, symbols))[i] < StoreAddrs(ProgramCode(files, symbols))[j]
    ensures Prints(ProgramCode(files, symbols)) == FilesPrintCount(files)
  {
    var env := InitEnv(symbols);
    FilesStores(files, env);
    ObservationsAppend(FilesCode(files, env), [Halt]);
    ObserveOne(Halt);
    assert StoreAddrs(ProgramCode(files, symbols)) == StoreAddrs(FilesCode(files, env));
  }

  // ---------------------------------------------------------------------
  // HLT
  // ---------------------------------------------------------------------

  predicate HaltFree(code: seq<Instr>) {
    forall i :: 0 <= i < |code| ==> !code[i].Halt?
  }

  lemma HaltFreeAppend(a: seq<Instr>, b: seq<Instr>)
    requires HaltFree(a) && HaltFree(b)
    ensures HaltFree(a + b)
  {
    forall i | 0 <= i < |a + b|
      ensures !(a + b)[i].Halt?
    {
      if i >= |a| {
        assert (a + b)[i] == b[i - |a|];
      }
    }
  }

  lemma {:induction false} StoreCharsHaltFree(h: int, k: nat)
    ensures HaltFree(StoreChars(h, k))
  {
    if k > 0 {
      StoreCharsHaltFree(h, k - 1);
      HaltFreeAppend(StoreChars(h, k - 1), [Pop(R0), Store(h + k - 1, R0)]);
    }
  }

  lemma DeclHaltFree(d: Decl, env: Env)
    requires DeclOk(d, env)
    ensures HaltFree(DeclCode(d, env))
  {
    match d
    case VarDecl(x, e) =>
      ExprCodeReadOnly(e, env.symbols);
      if V_BOOL <= ExprTag(e) <= V_STRING {
        var sym := DeclSymbol(e, env.heap);
        StoreCharsHaltFree(sym.addr + 2, sym.len);
        HaltFreeAppend([Store(sym.addr, R0), Store(sym.addr + 1, R1)], StoreChars(sym.addr + 2, sym.len));
        HaltFreeAppend(ExprCode(e, env.symbols), StoreCode(sym.ty, sym.addr, sym.len));
      } else {
        assert DeclCode(d, env) == ExprCode(e, env.symbols) + [];
      }
    case OtherDecl =>
  }

  lemma StmtHaltFree(s: Stmt, env: Env)
    requires StmtOk(s, env)
    ensures HaltFree(StmtCode(s, env))
  {
    match s
    case PrintStmt(e) =>
      ExprCodeReadOnly(e, env.symbols);
      HaltFreeAppend(ExprCode(e, env.symbols), [Print]);
    case DeclStmt(d) =>
      DeclHaltFree(d, env);
    case OtherStmt =>
  }

  lemma {:induction false} StmtsHaltFree(stmts: seq<Stmt>, env: Env)
    requires StmtsOk(stmts, env)
    ensures HaltFree(StmtsCode(stmts, env))
  {
    if stmts != [] {
      StmtsHaltFree(stmts[1..], env);
      StmtHaltFree(stmts[0], StmtsEnv(stmts[1..], env));
      HaltFreeAppend(StmtsCode(stmts[1..], env), StmtCode(stmts[0], StmtsEnv(stmts[1..], env)));
    }
  }

  lemma {:induction false} FilesHaltFree(files: seq<seq<Stmt>>, env: Env)
    requires FilesOk(files, env)
    ensures HaltFree(FilesCode(files, env))
    decreases |files|
  {
    if files != [] {
      var before := files[..|files| - 1];
      FilesHaltFree(before, env);
      StmtsHaltFree(files[|files| - 1], FilesEnv(before, env));
      HaltFreeAppend(FilesCode(before, env), StmtsCode(files[|files| - 1], FilesEnv(before, env)));
    }
  }

  /**
   * The program compile returns ends in HLT, its last word is the HLT
   * opcode, and no earlier instruction halts.
   */
  lemma HaltOnlyAtEnd(files: seq<seq<Stmt>>, symbols: map<string, Symbol>)
    requires FilesOk(files, InitEnv(symbols))
    ensures var code := ProgramCode(files, symbols);
            code[|code| - 1] == Halt &&
            (forall i :: 0 <= i < |code| - 1 ==> !code[i].Halt?)
    ensures var ws := Encode(ProgramCode(files, symbols));
            |ws| > 0 && ws[|ws| - 1] == HLT
  {
    var body := FilesCode(files, InitEnv(symbols));
    FilesHaltFree(files, InitEnv(symbols));
    var code := ProgramCode(files, symbols);
    forall i | 0 <= i < |code| - 1
      ensures !code[i].Halt?
    {
      assert code[i] == body[i];
    }
    EncodeSnoc(body, Halt);
  }
}
