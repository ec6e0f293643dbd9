/**
 * What the lowering engine emits, as pure functions of the syntax tree and
 * of the compilation environment (the symbol table and the heap cursor),
 * and the properties of that emitted code.
 *
 * The methods of module Compiler append exactly these instructions to the
 * program buffer; the functions here are their specification.
 */
module Lowering {
  import opened Bytecode
  import opened Ast

  /** initProgram: the heap cursor starts at twice USHRT_MAX. */
  const HEAP_BASE: int := 65535 * 2
  /** initProgram: the buffer holds USHRT_MAX * 32 words. */
  const CAPACITY: nat := 65535 * 32

  /** The compilation environment: the symbol table and the next free heap address. */
  datatype Env = Env(symbols: map<string, Symbol>, heap: int)

  /** A string character as the literal path encodes it: its code minus the code of '0'. */
  function Digit(c: char): int {
    c as int - '0' as int
  }

  function TagOf(ty: ValueType): int {
    match ty
    case BoolType => V_BOOL
    case IntType => V_INT
    case FloatType => V_FLOAT
    case StringType => V_STRING
  }

  function TypeOfTag(tag: int): (ty: ValueType)
    requires V_BOOL <= tag <= V_STRING
    ensures TagOf(ty) == tag
  {
    if tag == V_BOOL then BoolType
    else if tag == V_INT then IntType
    else if tag == V_FLOAT then FloatType
    else StringType
  }

  /** Heap words a symbol's slot takes: the tag, the payload words, one word per character. */
  function SlotWidth(ty: ValueType, len: nat): nat {
    match ty
    case BoolType => 2
    case IntType => 2
    case FloatType => 3
    case StringType => 2 + len
  }

  function Width(sym: Symbol): nat {
    SlotWidth(sym.ty, sym.len)
  }

  // ---------------------------------------------------------------------
  // Expressions (compileExpr)
  // ---------------------------------------------------------------------

  /** The shape tag compileExpr returns for a literal. */
  function LitTag(l: Literal): int {
    match l
    case BoolLit(_) => V_BOOL
    case IntLit(_) => V_INT
    case FloatLit(_, _) => V_FLOAT
    case StringLit(_) => V_STRING
    case OtherLit => 0
  }

  /**
   * The pushes for the characters s[i..], emitted from the last character
   * down to s[i], so that s[i] ends on top of the stack.
   */
  function PushChars(s: string, i: nat): seq<Instr>
    decreases |s| - i
  {
    if i >= |s| then []
    else PushChars(s, i + 1) + [LoadImm(R0, Digit(s[i])), Push(R0)]
  }

  function LitCode(l: Literal): seq<Instr> {
    match l
    case BoolLit(b) => [LoadImm(R0, V_BOOL), LoadImm(R1, if b then 1 else 0)]
    case IntLit(i) => [LoadImm(R0, V_INT), LoadImm(R1, i)]
    case FloatLit(ip, fr) => [LoadImm(R0, V_FLOAT), LoadImm(R1, ip), LoadImm(R2, fr)]
    case StringLit(s) => PushChars(s, 0) + [LoadImm(R0, V_STRING), LoadImm(R1, |s|)]
    case OtherLit => []
  }

  /**
   * The character loads of a string slot at address a with n characters,
   * for loop indices n down to i + 1; index k loads address a + 1 + k.
   */
  function LoadChars(a: int, n: nat, i: nat): seq<Instr>
    decreases n - i
  {
    if i >= n then []
    else LoadChars(a, n, i + 1) + [LoadAddr(R2, a + 2 + i), Push(R2)]
  }

  /** The loads an identifier reference emits for the symbol it names. */
  function LoadCode(sym: Symbol): seq<Instr> {
    var a := sym.addr;
    match sym.ty
    case BoolType => [LoadAddr(R0, a), LoadAddr(R1, a + 1)]
    case IntType => [LoadAddr(R0, a), LoadAddr(R1, a + 1)]
    case FloatType => [LoadAddr(R0, a), LoadAddr(R1, a + 1), LoadAddr(R2, a + 2)]
    case StringType => [LoadAddr(R0, a), LoadAddr(R1, a + 1)] + LoadChars(a, sym.len, 0)
  }

  function UnaryCode(op: UnaryOp): seq<Instr> {
    match op
    case Plus => [LoadImm(R3, 1), Mul(R1, R3)]
    case Minus => [LoadImm(R3, -1), Mul(R1, R3)]
    case Not => [LogicalNot(R1)]
    case Tilde => [BitwiseNot(R1)]
    case OtherOp => []
  }

  /** Every identifier in e names a symbol (compileExpr dereferences the lookup unchecked). */
  predicate Declared(e: Expr, symbols: map<string, Symbol>) {
    match e
    case Ident(x) => x in symbols
    case Unary(_, x) => Declared(x, symbols)
    case _ => true
  }

  /** The shape tag compileExpr returns; an identifier falls through to 0. */
  function ExprTag(e: Expr): int {
    match e
    case Lit(l) => LitTag(l)
    case Ident(_) => 0
    case Unary(_, x) => ExprTag(x)
    case OtherExpr => 0
  }

  /** The length of the string literal beneath any unary operators (0 if there is none). */
  function StrLen(e: Expr): nat {
    match e
    case Lit(StringLit(s)) => |s|
    case Unary(_, x) => StrLen(x)
    case _ => 0
  }

  function ExprCode(e: Expr, symbols: map<string, Symbol>): seq<Instr>
    requires Declared(e, symbols)
  {
    match e
    case Lit(l) => LitCode(l)
    case Ident(x) => LoadCode(symbols[x])
    case Unary(op, x) => ExprCode(x, symbols) + UnaryCode(op)
    case OtherExpr => []
  }

  // ---------------------------------------------------------------------
  // Declarations (compileDecl)
  // ---------------------------------------------------------------------

  /** The character stores of a string slot: k pops, the j-th stored at h + j. */
  function StoreChars(h: int, k: nat): seq<Instr> {
    if k == 0 then []
    else StoreChars(h, k - 1) + [Pop(R0), Store(h + k - 1, R0)]
  }

  function StoreCode(ty: ValueType, a: int, len: nat): seq<Instr> {
    match ty
    case BoolType => [Store(a, R0), Store(a + 1, R1)]
    case IntType => [Store(a, R0), Store(a + 1, R1)]
    case FloatType => [Store(a, R0), Store(a + 1, R1), Store(a + 2, R2)]
    case StringType => [Store(a, R0), Store(a + 1, R1)] + StoreChars(a + 2, len)
  }

  /** The symbol a declaration with initialiser e binds when the heap cursor is at heap. */
  function DeclSymbol(e: Expr, heap: int): Symbol
    requires V_BOOL <= ExprTag(e) <= V_STRING
  {
    var ty := TypeOfTag(ExprTag(e));
    Symbol(ty, heap, if ty == StringType then StrLen(e) else 0)
  }

  predicate DeclOk(d: Decl, env: Env) {
    match d
    case VarDecl(_, e) => Declared(e, env.symbols)
    case OtherDecl => true
  }

  function DeclEnv(d: Decl, env: Env): Env {
    match d
    case VarDecl(x, e) =>
      if V_BOOL <= ExprTag(e) <= V_STRING then
        var sym := DeclSymbol(e, env.heap);
        Env(env.symbols[x := sym], env.heap + Width(sym))
      else env
    case OtherDecl => env
  }

  function DeclCode(d: Decl, env: Env): seq<Instr>
    requires DeclOk(d, env)
  {
    match d
    case VarDecl(x, e) =>
      ExprCode(e, env.symbols) +
        if V_BOOL <= ExprTag(e) <= V_STRING then
          var sym := DeclSymbol(e, env.heap);
          StoreCode(sym.ty, sym.addr, sym.len)
        else []
    case OtherDecl => []
  }

  // ---------------------------------------------------------------------
  // Statements (compileStmt, compileStmtList, compile)
  // ---------------------------------------------------------------------

  predicate StmtOk(s: Stmt, env: Env) {
    match s
    case PrintStmt(e) => Declared(e, env.symbols)
    case DeclStmt(d) => DeclOk(d, env)
    case OtherStmt => true
  }

  function StmtEnv(s: Stmt, env: Env): Env {
    match s
    case DeclStmt(d) => DeclEnv(d, env)
    case _ => env
  }

  function StmtCode(s: Stmt, env: Env): seq<Instr>
    requires StmtOk(s, env)
  {
    match s
    case PrintStmt(e) => ExprCode(e, env.symbols) + [Print]
    case DeclStmt(d) => DeclCode(d, env)
    case OtherStmt => []
  }

  // A statement list is compiled from its last statement to its first:
  // stmts[1..] first (recursively, in the same reversed order), then stmts[0].

  function StmtsEnv(stmts: seq<Stmt>, env: Env): Env {
    if stmts == [] then env else StmtEnv(stmts[0], StmtsEnv(stmts[1..], env))
  }

  predicate StmtsOk(stmts: seq<Stmt>, env: Env) {
    stmts == [] || (StmtsOk(stmts[1..], env) && StmtOk(stmts[0], StmtsEnv(stmts[1..], env)))
  }

  function StmtsCode(stmts: seq<Stmt>, env: Env): seq<Instr>
    requires StmtsOk(stmts, env)
  {
    if stmts == [] then []
    else StmtsCode(stmts[1..], env) + StmtCode(stmts[0], StmtsEnv(stmts[1..], env))
  }

  // Files are compiled in index order: files[..n-1] first, then files[n-1].

  function FilesEnv(files: seq<seq<Stmt>>, env: Env): Env {
    if files == [] then env
    else StmtsEnv(files[|files| - 1], FilesEnv(files[..|files| - 1], env))
  }

  predicate FilesOk(files: seq<seq<Stmt>>, env: Env) {
    files == [] ||
    (FilesOk(files[..|files| - 1], env) &&
     StmtsOk(files[|files| - 1], FilesEnv(files[..|files| - 1], env)))
  }

  function FilesCode(files: seq<seq<Stmt>>, env: Env): seq<Instr>
    requires FilesOk(files, env)
  {
    if files == [] then []
    else
      var before := files[..|files| - 1];
      FilesCode(before, env) + StmtsCode(files[|files| - 1], FilesEnv(before, env))
  }

  /** The environment compile starts from: the given symbols and a fresh heap cursor. */
  function InitEnv(symbols: map<string, Symbol>): Env {
    Env(symbols, HEAP_BASE)
  }

  /** The whole program compile returns: every file's code, then HLT. */
  function ProgramCode(files: seq<seq<Stmt>>, symbols: map<string, Symbol>): seq<Instr>
    requires FilesOk(files, InitEnv(symbols))
  {
    FilesCode(files, InitEnv(symbols)) + [Halt]
  }

  // ---------------------------------------------------------------------
  // Code sizes: how far each construct moves `size`
  // ---------------------------------------------------------------------

  /** Words an identifier reference emits for a symbol. */
  function LoadSize(sym: Symbol): nat {
    match sym.ty
    case BoolType => 6
    case IntType => 6
    case FloatType => 9
    case StringType => 6 + 5 * sym.len
  }

  function UnarySize(op: UnaryOp): nat {
    match op
    case Plus => 6
    case Minus => 6
    case Not => 2
    case Tilde => 2
    case OtherOp => 0
  }

  /** Words compileExpr emits, counted construct by construct. */
  function ExprSize(e: Expr, symbols: map<string, Symbol>): nat
    requires Declared(e, symbols)
  {
    match e
    case Lit(BoolLit(_)) => 6
    case Lit(IntLit(_)) => 6
    case Lit(FloatLit(_, _)) => 9
    case Lit(StringLit(s)) => 5 * |s| + 6
    case Lit(OtherLit) => 0
    case Ident(x) => LoadSize(symbols[x])
    case Unary(op, x) => ExprSize(x, symbols) + UnarySize(op)
    case OtherExpr => 0
  }

  lemma PushCharsStep(s: string, i: nat)
    requires i < |s|
    ensures Encode(PushChars(s, i)) ==
            Encode(PushChars(s, i + 1)) + Words(LoadImm(R0, Digit(s[i]))) + Words(Push(R0))
  {
    EncodeSnoc2(PushChars(s, i + 1), LoadImm(R0, Digit(s[i])), Push(R0));
  }

  lemma {:induction false} PushCharsSize(s: string, i: nat)
    requires i <= |s|
    ensures |Encode(PushChars(s, i))| == 5 * (|s| - i)
    decreases |s| - i
  {
    if i < |s| {
      PushCharsStep(s, i);
      PushCharsSize(s, i + 1);
    }
  }

  lemma LoadCharsStep(a: int, n: nat, i: nat)
    requires i < n
    ensures Encode(LoadChars(a, n, i)) ==
            Encode(LoadChars(a, n, i + 1)) + Words(LoadAddr(R2, a + 2 + i)) + Words(Push(R2))
  {
    EncodeSnoc2(LoadChars(a, n, i + 1), LoadAddr(R2, a + 2 + i), Push(R2));
  }

  lemma {:induction false} LoadCharsSize(a: int, n: nat, i: nat)
    requires i <= n
    ensures |Encode(LoadChars(a, n, i))| == 5 * (n - i)
    decreases n - i
  {
    if i < n {
      LoadCharsStep(a, n, i);
      LoadCharsSize(a, n, i + 1);
    }
  }

  lemma StoreCharsStep(h: int, k: nat)
    requires 0 < k
    ensures Encode(StoreChars(h, k)) ==
            Encode(StoreChars(h, k - 1)) + Words(Pop(R0)) + Words(Store(h + k - 1, R0))
  {
    EncodeSnoc2(StoreChars(h, k - 1), Pop(R0), Store(h + k - 1, R0));
  }

  lemma {:induction false} StoreCharsSize(h: int, k: nat)
    ensures |Encode(StoreChars(h, k))| == 5 * k
  {
    if k > 0 {
      StoreCharsStep(h, k);
      StoreCharsSize(h, k - 1);
    }
  }

  lemma LitCodeSize(l: Literal)
    ensures |Encode(LitCode(l))| == ExprSize(Lit(l), map[])
  {
    match l
    case BoolLit(b) =>
      EncodePair(LoadImm(R0, V_BOOL), LoadImm(R1, if b then 1 else 0));
    case IntLit(i) =>
      EncodePair(LoadImm(R0, V_INT), LoadImm(R1, i));
    case FloatLit(ip, fr) =>
      EncodeTriple(LoadImm(R0, V_FLOAT), LoadImm(R1, ip), LoadImm(R2, fr));
    case StringLit(s) =>
      PushCharsSize(s, 0);
      EncodeAppend(PushChars(s, 0), [LoadImm(R0, V_STRING), LoadImm(R1, |s|)]);
      EncodePair(LoadImm(R0, V_STRING), LoadImm(R1, |s|));
    case OtherLit =>
  }

  lemma LoadCodeSize(sym: Symbol)
    ensures |Encode(LoadCode(sym))| == LoadSize(sym)
  {
    var a := sym.addr;
    EncodePair(LoadAddr(R0, a), LoadAddr(R1, a + 1));
    match sym.ty
    case StringType =>
      LoadCharsSize(a, sym.len, 0);
      EncodeAppend([LoadAddr(R0, a), LoadAddr(R1, a + 1)], LoadChars(a, sym.len, 0));
    case FloatType =>
      EncodeTriple(LoadAddr(R0, a), LoadAddr(R1, a + 1), LoadAddr(R2, a + 2));
    case _ =>
  }

  lemma UnaryCodeSize(op: UnaryOp)
    ensures |Encode(UnaryCode(op))| == UnarySize(op)
  {
    EncodePair(LoadImm(R3, 1), Mul(R1, R3));
    EncodePair(LoadImm(R3, -1), Mul(R1, R3));
    assert Encode([LogicalNot(R1)]) == Words(LogicalNot(R1)) + Encode([]);
    assert Encode([BitwiseNot(R1)]) == Words(BitwiseNot(R1)) + Encode([]);
  }

  /** The number of words compileExpr appends, for every expression. */
  lemma {:induction false} ExprCodeSize(e: Expr, symbols: map<string, Symbol>)
    requires Declared(e, symbols)
    ensures |Encode(ExprCode(e, symbols))| == ExprSize(e, symbols)
  {
    match e
    case Lit(l) =>
      LitCodeSize(l);
    case Ident(x) =>
      LoadCodeSize(symbols[x]);
    case Unary(op, x) =>
      ExprCodeSize(x, symbols);
      UnaryCodeSize(op);
      EncodeAppend(ExprCode(x, symbols), UnaryCode(op));
    case OtherExpr =>
  }

  // ---------------------------------------------------------------------
  // Suffixes and prefixes of what compile walks
  // ---------------------------------------------------------------------

  /** Every suffix of a compilable statement list compiles, to no more words than the whole. */
  lemma {:induction false} SuffixOk(stmts: seq<Stmt>, env: Env, j: nat)
    requires StmtsOk(stmts, env) && j <= |stmts|
    ensures StmtsOk(stmts[j..], env)
    ensures |Encode(StmtsCode(stmts[j..], env))| <= |Encode(StmtsCode(stmts, env))|
    decreases j
  {
    if j > 0 {
      SuffixOk(stmts[1..], env, j - 1);
      assert stmts[1..][j - 1..] == stmts[j..];
      EncodeAppend(StmtsCode(stmts[1..], env), StmtCode(stmts[0], StmtsEnv(stmts[1..], env)));
    }
  }

  /** Every prefix of a compilable file sequence compiles, to no more words than the whole. */
  lemma {:induction false} PrefixOk(files: seq<seq<Stmt>>, env: Env, j: nat)
    requires FilesOk(files, env) && j <= |files|
    ensures FilesOk(files[..j], env)
    ensures |Encode(FilesCode(files[..j], env))| <= |Encode(FilesCode(files, env))|
    decreases |files|
  {
    if j < |files| {
      var before := files[..|files| - 1];
      PrefixOk(before, env, j);
      assert before[..j] == files[..j];
      EncodeAppend(FilesCode(before, env), StmtsCode(files[|files| - 1], FilesEnv(before, env)));
    } else {
      assert files[..j] == files;
    }
  }

  /** One step of compileStmtList's walk: statement j joins the already compiled suffix after it. */
  lemma ListStep(stmts: seq<Stmt>, env: Env, j: nat)
    requires StmtsOk(stmts, env) && j < |stmts|
    ensures StmtsOk(stmts[j..], env) && StmtsOk(stmts[j + 1..], env)
    ensures StmtOk(stmts[j], StmtsEnv(stmts[j + 1..], env))
    ensures StmtsEnv(stmts[j..], env) == StmtEnv(stmts[j], StmtsEnv(stmts[j + 1..], env))
    ensures StmtsCode(stmts[j..], env) ==
            StmtsCode(stmts[j + 1..], env) + StmtCode(stmts[j], StmtsEnv(stmts[j + 1..], env))
    ensures |Encode(StmtsCode(stmts[j..], env))| ==
            |Encode(StmtsCode(stmts[j + 1..], env))| + |Encode(StmtCode(stmts[j], StmtsEnv(stmts[j + 1..], env)))|
    ensures |Encode(StmtsCode(stmts[j..], env))| <= |Encode(StmtsCode(stmts, env))|
  {
    SuffixOk(stmts, env, j);
    assert stmts[j..][1..] == stmts[j + 1..];
    EncodeAppend(StmtsCode(stmts[j + 1..], env), StmtCode(stmts[j], StmtsEnv(stmts[j + 1..], env)));
  }

  /** One step of compile's walk over the files: file i follows the files before it. */
  lemma FileStep(files: seq<seq<Stmt>>, env: Env, i: nat)
    requires FilesOk(files, env) && i < |files|
    ensures FilesOk(files[..i], env) && FilesOk(files[..i + 1], env)
    ensures StmtsOk(files[i], FilesEnv(files[..i], env))
    ensures FilesEnv(files[..i + 1], env) == StmtsEnv(files[i], FilesEnv(files[..i], env))
    ensures FilesCode(files[..i + 1], env) ==
            FilesCode(files[..i], env) + StmtsCode(files[i], FilesEnv(files[..i], env))
    ensures |Encode(FilesCode(files[..i + 1], env))| ==
            |Encode(FilesCode(files[..i], env))| + |Encode(StmtsCode(files[i], FilesEnv(files[..i], env)))|
    ensures |Encode(FilesCode(files[..i + 1], env))| <= |Encode(FilesCode(files, env))|
  {
    PrefixOk(files, env, i + 1);
    assert files[..i + 1][..i] == files[..i];
    EncodeAppend(FilesCode(files[..i], env), StmtsCode(files[i], FilesEnv(files[..i], env)));
  }
}
