/**
 * The lowering engine itself: the program buffer (an i64_array with its
 * size, capacity and heap cursor), the symbol table it binds declarations
 * in, and the compile functions, each appending words in place through
 * push_instr. Every method is specified by the functions of module
 * Lowering: it appends exactly their code and moves the environment
 * exactly as they say.
 */
module Compiler {
  import opened Bytecode
  import opened Ast
  import opened Lowering

  /** The growable word buffer: code at indices below size, heap addresses from heap upwards. */
  class Program {
    var arr: array<int>
    var size: nat
    var capacity: nat
    var heap: int
    /** The words emitted so far. */
    ghost var words: seq<int>

    ghost predicate Valid()
      reads this, arr
    {
      arr.Length == capacity && size <= capacity && words == arr[..size]
    }

    /** initProgram */
    constructor Init()
      ensures Valid() && fresh(arr)
      ensures size == 0 && capacity == CAPACITY && heap == HEAP_BASE
      ensures words == []
    {
      capacity := CAPACITY;
      arr := new int[CAPACITY];
      size := 0;
      heap := HEAP_BASE;
      words := [];
    }

    /** push_instr: writes at index size and moves size past it. */
    method PushInstr(el: int)
      requires Valid() && size < capacity
      modifies this`size, this`words, arr
      ensures Valid()
      ensures size == old(size) + 1 && arr[old(size)] == el
      ensures forall j :: 0 <= j < arr.Length && j != old(size) ==> arr[j] == old(arr[j])
      ensures words == old(words) + [el]
    {
      arr[size] := el;
      size := size + 1;
      words := words + [el];
    }

    /** One instruction's worth of push_instr calls: the opcode, then its operands. */
    method Emit(i: Instr)
      requires Valid() && size + |Bytecode.Words(i)| <= capacity
      modifies this`size, this`words, arr
      ensures Valid()
      ensures size == old(size) + |Bytecode.Words(i)|
      ensures words == old(words) + Bytecode.Words(i)
    {
      var ws := Bytecode.Words(i);
      PushInstr(ws[0]);
      if |ws| > 1 {
        PushInstr(ws[1]);
      }
      if |ws| > 2 {
        PushInstr(ws[2]);
      }
      assert words == old(words) + ws;
    }

    /** push_instr for every word of code, instruction by instruction, in order. */
    method EmitAll(code: seq<Instr>)
      requires Valid() && size + |Encode(code)| <= capacity
      modifies this`size, this`words, arr
      ensures Valid()
      ensures words == old(words) + Encode(code)
      decreases |code|
    {
      if code != [] {
        ghost var w0 := words;
        Emit(code[0]);
        EmitAll(code[1..]);
        SeqAssoc(w0, Bytecode.Words(code[0]), Encode(code[1..]));
      }
    }

    /** popProgram as written: reads the slot one past the last word, then shrinks. */
    method Pop() returns (el: int)
      requires Valid() && 0 < size < capacity
      modifies this`size, this`words
      ensures Valid()
      ensures el == arr[old(size)] && size == old(size) - 1
      ensures words == old(words)[..size]
    {
      el := arr[size];
      size := size - 1;
      words := words[..size];
    }

    /** popProgram as evidently intended: removes and returns the last word. */
    method PopLast() returns (el: int)
      requires Valid() && 0 < size
      modifies this`size, this`words
      ensures Valid()
      ensures el == old(words)[old(size) - 1]
      ensures words == old(words)[..old(size) - 1]
    {
      size := size - 1;
      el := arr[size];
      words := words[..size];
    }
  }

  /** Pushing 7 and 8, then popping twice with popProgram as written: the second pop returns 8, not 7. */
  method PopAsWrittenIsShifted() returns (second: int)
    ensures second == 8
  {
    var p := new Program.Init();
    p.PushInstr(7);
    p.PushInstr(8);
    var first := p.Pop();
    second := p.Pop();
  }

  /**
   * popProgram as written reads words that a later push_instr does not
   * overwrite: after pushing 7 and 8, popping twice and pushing 9, a pop
   * returns the stale 8 rather than 9.
   */
  method PopAsWrittenReadsStaleWord() returns (r: int)
    ensures r == 8
  {
    var p := new Program.Init();
    p.PushInstr(7);
    p.PushInstr(8);
    var first := p.Pop();
    var second := p.Pop();
    p.PushInstr(9);
    r := p.Pop();
  }

  /** The same pushes and pops with the corrected pop return the words last-in first-out. */
  method PopLastIsLifo() returns (first: int, second: int)
    ensures first == 8 && second == 7
  {
    var p := new Program.Init();
    p.PushInstr(7);
    p.PushInstr(8);
    first := p.PopLast();
    second := p.PopLast();
  }

  /** The symbol table, as far as the lowering engine reads and writes it. */
  class SymbolTable {
    var symbols: map<string, Symbol>

    constructor (initial: map<string, Symbol>)
      ensures symbols == initial
    {
      symbols := initial;
    }

    /** addSymbolBool/Int/Float/String followed by symbol->addr = program->heap. */
    method AddSymbol(name: string, sym: Symbol)
      modifies this
      ensures symbols == old(symbols)[name := sym]
    {
      symbols := symbols[name := sym];
    }
  }

  /** The character pushes of a string literal: LII R0 and PUSH R0 per character, last character first. */
  method PushStringChars(p: Program, s: string)
    requires p.Valid() && p.size + |Encode(PushChars(s, 0))| <= p.capacity
    modifies p`size, p`words, p.arr
    ensures p.Valid()
    ensures p.words == old(p.words) + Encode(PushChars(s, 0))
  {
    PushCharsSize(s, 0);
    ghost var w0 := p.words;
    var i := |s|;
    while i > 0
      invariant 0 <= i <= |s|
      invariant p.Valid()
      invariant p.words == w0 + Encode(PushChars(s, i))
      invariant p.size == |w0| + 5 * (|s| - i)
    {
      ghost var before := p.words;
      p.Emit(LoadImm(R0, Digit(s[i - 1])));
      p.Emit(Push(R0));
      EncodeExtend(w0, before, PushChars(s, i), LoadImm(R0, Digit(s[i - 1])), Push(R0));
      i := i - 1;
    }
  }

  /** The BasicLit_kind branch of compileExpr: loads the tag into R0 and the payload after it. */
  method CompileLiteral(p: Program, l: Literal) returns (tag: int)
    requires p.Valid()
    requires p.size + |Encode(LitCode(l))| <= p.capacity
    modifies p`size, p`words, p.arr
    ensures p.Valid()
    ensures p.words == old(p.words) + Encode(LitCode(l))
    ensures tag == LitTag(l)
  {
    match l
    case BoolLit(b) =>
      p.EmitAll([LoadImm(R0, V_BOOL), LoadImm(R1, if b then 1 else 0)]);
      tag := V_BOOL;
    case IntLit(i) =>
      p.EmitAll([LoadImm(R0, V_INT), LoadImm(R1, i)]);
      tag := V_INT;
    case FloatLit(ipart, frac) =>
      p.EmitAll([LoadImm(R0, V_FLOAT), LoadImm(R1, ipart), LoadImm(R2, frac)]);
      tag := V_FLOAT;
    case StringLit(s) =>
      var len := |s|;
      ghost var w0 := p.words;
      EncodeAppend(PushChars(s, 0), [LoadImm(R0, V_STRING), LoadImm(R1, len)]);
      PushStringChars(p, s);
      ghost var w1 := p.words;
      p.EmitAll([LoadImm(R0, V_STRING), LoadImm(R1, len)]);
      EncodeChain(w0, w1, p.words, PushChars(s, 0), [LoadImm(R0, V_STRING), LoadImm(R1, len)]);
      tag := V_STRING;
    case OtherLit =>
      tag := 0;
  }

  /**
   * The character loads of a string reference: LDI R2 and PUSH R2 per
   * character slot, walking addr down from the last slot to the first.
   */
  method LoadStringChars(p: Program, a: int, len: nat, addr0: int) returns (addr: int)
    requires p.Valid() && p.size + |Encode(LoadChars(a, len, 0))| <= p.capacity
    requires addr0 == a + 1 + len
    modifies p`size, p`words, p.arr
    ensures p.Valid()
    ensures p.words == old(p.words) + Encode(LoadChars(a, len, 0))
    ensures addr == a + 1
  {
    LoadCharsSize(a, len, 0);
    ghost var w0 := p.words;
    addr := addr0;
    var i := len;
    while i > 0
      invariant 0 <= i <= len
      invariant p.Valid()
      invariant addr == a + 1 + i
      invariant p.words == w0 + Encode(LoadChars(a, len, i))
      invariant p.size == |w0| + 5 * (len - i)
    {
      ghost var before := p.words;
      p.Emit(LoadAddr(R2, addr));
      addr := addr - 1;
      p.Emit(Push(R2));
      EncodeExtend(w0, before, LoadChars(a, len, i), LoadAddr(R2, a + 1 + i), Push(R2));
      i := i - 1;
    }
  }

  /** The Ident_kind branch of compileExpr, once getSymbol has found the symbol. */
  method CompileIdent(p: Program, sym: Symbol)
    requires p.Valid()
    requires p.size + |Encode(LoadCode(sym))| <= p.capacity
    modifies p`size, p`words, p.arr
    ensures p.Valid()
    ensures p.words == old(p.words) + Encode(LoadCode(sym))
  {
    var addr := sym.addr;
    match sym.ty
    case BoolType =>
      p.EmitAll([LoadAddr(R0, addr), LoadAddr(R1, addr + 1)]);
      addr := addr + 2;
    case IntType =>
      p.EmitAll([LoadAddr(R0, addr), LoadAddr(R1, addr + 1)]);
      addr := addr + 2;
    case FloatType =>
      p.EmitAll([LoadAddr(R0, addr), LoadAddr(R1, addr + 1), LoadAddr(R2, addr + 2)]);
      addr := addr + 3;
    case StringType =>
      ghost var w0 := p.words;
      EncodeAppend([LoadAddr(R0, addr), LoadAddr(R1, addr + 1)], LoadChars(sym.addr, sym.len, 0));
      p.EmitAll([LoadAddr(R0, addr), LoadAddr(R1, addr + 1)]);
      addr := addr + 2;
      ghost var w1 := p.words;
      // The characters are pushed last-first, so the walk starts at the last slot.
      addr := addr + sym.len - 1;
      addr := LoadStringChars(p, sym.addr, sym.len, addr);
      addr := addr + sym.len - 1;
      EncodeChain(w0, w1, p.words, [LoadAddr(R0, sym.addr), LoadAddr(R1, sym.addr + 1)],
                  LoadChars(sym.addr, sym.len, 0));
  }

  /** compileExpr: appends the expression's code and returns its shape tag. */
  method CompileExpr(p: Program, t: SymbolTable, e: Expr) returns (tag: int)
    requires p.Valid() && Declared(e, t.symbols)
    requires p.size + |Encode(ExprCode(e, t.symbols))| <= p.capacity
    modifies p`size, p`words, p.arr
    ensures p.Valid()
    ensures p.words == old(p.words) + Encode(ExprCode(e, t.symbols))
    ensures tag == ExprTag(e)
    decreases e
  {
    match e
    case Lit(l) =>
      tag := CompileLiteral(p, l);
    case Ident(x) =>
      CompileIdent(p, t.symbols[x]);
      tag := 0;
    case Unary(op, x) =>
      ghost var w0 := p.words;
      EncodeAppend(ExprCode(x, t.symbols), UnaryCode(op));
      var ty := CompileExpr(p, t, x);
      ghost var w1 := p.words;
      match op {
        case Plus =>
          p.EmitAll([LoadImm(R3, 1), Mul(R1, R3)]);
        case Minus =>
          p.EmitAll([LoadImm(R3, -1), Mul(R1, R3)]);
        case Not =>
          p.EmitAll([LogicalNot(R1)]);
        case Tilde =>
          p.EmitAll([BitwiseNot(R1)]);
        case OtherOp =>
          p.EmitAll([]);
      }
      EncodeChain(w0, w1, p.words, ExprCode(x, t.symbols), UnaryCode(op));
      tag := ty;
    case OtherExpr =>
      tag := 0;
  }

  /** The character stores of a string declaration: POP R0 and STI heap++ R0 per character. */
  method StoreStringChars(p: Program, len: nat)
    requires p.Valid() && p.size + |Encode(StoreChars(p.heap, len))| <= p.capacity
    modifies p`size, p`words, p`heap, p.arr
    ensures p.Valid()
    ensures p.words == old(p.words) + Encode(StoreChars(old(p.heap), len))
    ensures p.heap == old(p.heap) + len
  {
    StoreCharsSize(p.heap, len);
    ghost var w0 := p.words;
    ghost var h := p.heap;
    var i := len;
    while i > 0
      invariant 0 <= i <= len
      invariant p.Valid()
      invariant p.heap == h + (len - i)
      invariant p.words == w0 + Encode(StoreChars(h, len - i))
      invariant p.size == |w0| + 5 * (len - i)
    {
      ghost var before := p.words;
      p.Emit(Pop(R0));
      p.Emit(Store(p.heap, R0));
      EncodeExtend(w0, before, StoreChars(h, len - i), Pop(R0), Store(h + (len - i), R0));
      p.heap := p.heap + 1;
      i := i - 1;
    }
  }

  /** The stores of compileDecl for one value: its words from the registers, then a string's characters. */
  method CompileStore(p: Program, sym: Symbol)
    requires p.Valid() && sym.addr == p.heap
    requires p.size + |Encode(StoreCode(sym.ty, sym.addr, sym.len))| <= p.capacity
    modifies p`size, p`words, p`heap, p.arr
    ensures p.Valid()
    ensures p.words == old(p.words) + Encode(StoreCode(sym.ty, sym.addr, sym.len))
    ensures p.heap == old(p.heap) + Width(sym)
  {
    match sym.ty
    case BoolType =>
      p.EmitAll([Store(p.heap, R0), Store(p.heap + 1, R1)]);
      p.heap := p.heap + 2;
    case IntType =>
      p.EmitAll([Store(p.heap, R0), Store(p.heap + 1, R1)]);
      p.heap := p.heap + 2;
    case FloatType =>
      p.EmitAll([Store(p.heap, R0), Store(p.heap + 1, R1), Store(p.heap + 2, R2)]);
      p.heap := p.heap + 3;
    case StringType =>
      ghost var w0 := p.words;
      ghost var header := [Store(sym.addr, R0), Store(sym.addr + 1, R1)];
      assert StoreCode(sym.ty, sym.addr, sym.len) == header + StoreChars(sym.addr + 2, sym.len);
      EncodeAppend(header, StoreChars(sym.addr + 2, sym.len));
      p.EmitAll([Store(p.heap, R0), Store(p.heap + 1, R1)]);
      p.heap := p.heap + 2;
      ghost var w1 := p.words;
      StoreStringChars(p, sym.len);
      EncodeChain(w0, w1, p.words, header, StoreChars(sym.addr + 2, sym.len));
  }

  /** compileDecl: the initialiser's code, then a new symbol at the heap cursor and its stores. */
  method CompileDecl(p: Program, t: SymbolTable, d: Decl)
    requires p.Valid() && DeclOk(d, Env(t.symbols, p.heap))
    requires p.size + |Encode(DeclCode(d, Env(t.symbols, p.heap)))| <= p.capacity
    modifies p`size, p`words, p`heap, p.arr, t
    ensures p.Valid()
    ensures p.words == old(p.words) + Encode(DeclCode(d, old(Env(t.symbols, p.heap))))
    ensures Env(t.symbols, p.heap) == DeclEnv(d, old(Env(t.symbols, p.heap)))
  {
    match d
    case VarDecl(x, e) =>
      ghost var env := Env(t.symbols, p.heap);
      ghost var w0 := p.words;
      ghost var stores := if V_BOOL <= ExprTag(e) <= V_STRING then
        var sym := DeclSymbol(e, env.heap); StoreCode(sym.ty, sym.addr, sym.len) else [];
      EncodeAppend(ExprCode(e, env.symbols), stores);
      var tag := CompileExpr(p, t, e);
      ghost var w1 := p.words;
      if V_BOOL <= tag <= V_STRING {
        var ty := TypeOfTag(tag);
        var sym := Symbol(ty, p.heap, if ty == StringType then StrLen(e) else 0);
        t.AddSymbol(x, sym);
        CompileStore(p, sym);
      } else {
        assert Encode(stores) == [];
      }
      EncodeChain(w0, w1, p.words, ExprCode(e, env.symbols), stores);
    case OtherDecl =>
  }

  /** compileStmt: a print statement emits its expression and PRNT; a declaration goes to compileDecl. */
  method CompileStmt(p: Program, t: SymbolTable, s: Stmt)
    requires p.Valid() && StmtOk(s, Env(t.symbols, p.heap))
    requires p.size + |Encode(StmtCode(s, Env(t.symbols, p.heap)))| <= p.capacity
    modifies p`size, p`words, p`heap, p.arr, t
    ensures p.Valid()
    ensures p.words == old(p.words) + Encode(StmtCode(s, old(Env(t.symbols, p.heap))))
    ensures Env(t.symbols, p.heap) == StmtEnv(s, old(Env(t.symbols, p.heap)))
  {
    match s
    case PrintStmt(e) =>
      ghost var w0 := p.words;
      EncodeAppend(ExprCode(e, t.symbols), [Print]);
      var _ := CompileExpr(p, t, e);
      ghost var w1 := p.words;
      p.EmitAll([Print]);
      EncodeChain(w0, w1, p.words, ExprCode(e, t.symbols), [Print]);
    case DeclStmt(d) =>
      CompileDecl(p, t, d);
    case OtherStmt =>
  }

  /** compileStmtList: the list is walked from its last statement to its first. */
  method CompileStmtList(p: Program, t: SymbolTable, stmts: seq<Stmt>)
    requires p.Valid() && StmtsOk(stmts, Env(t.symbols, p.heap))
    requires p.size + |Encode(StmtsCode(stmts, Env(t.symbols, p.heap)))| <= p.capacity
    modifies p`size, p`words, p`heap, p.arr, t
    ensures p.Valid()
    ensures p.words == old(p.words) + Encode(StmtsCode(stmts, old(Env(t.symbols, p.heap))))
    ensures Env(t.symbols, p.heap) == StmtsEnv(stmts, old(Env(t.symbols, p.heap)))
  {
    ghost var env0 := Env(t.symbols, p.heap);
    ghost var w0 := p.words;
    var i := |stmts|;
    while i > 0
      invariant 0 <= i <= |stmts|
      invariant p.Valid()
      invariant StmtsOk(stmts[i..], env0)
      invariant p.words == w0 + Encode(StmtsCode(stmts[i..], env0))
      invariant Env(t.symbols, p.heap) == StmtsEnv(stmts[i..], env0)
    {
      ListStep(stmts, env0, i - 1);
      ghost var before := p.words;
      CompileStmt(p, t, stmts[i - 1]);
      EncodeChain(w0, before, p.words, StmtsCode(stmts[i..], env0),
                  StmtCode(stmts[i - 1], StmtsEnv(stmts[i..], env0)));
      i := i - 1;
    }
    assert stmts[0..] == stmts;
  }

  /**
   * compile: a fresh program, every file's statement list in order, then HLT.
   * The symbol table persists across files, and so does the heap cursor.
   */
  method Compile(t: SymbolTable, files: seq<seq<Stmt>>) returns (p: Program)
    requires FilesOk(files, InitEnv(t.symbols))
    requires |Encode(ProgramCode(files, t.symbols))| <= CAPACITY
    modifies t
    ensures fresh(p) && p.Valid()
    ensures p.words == Encode(ProgramCode(files, old(t.symbols)))
    ensures Env(t.symbols, p.heap) == FilesEnv(files, InitEnv(old(t.symbols)))
  {
    ghost var env0 := InitEnv(t.symbols);
    EncodeAppend(FilesCode(files, env0), [Halt]);
    p := new Program.Init();
    var i := 0;
    while i < |files|
      invariant 0 <= i <= |files|
      invariant fresh(p) && fresh(p.arr)
      invariant p.Valid() && p.capacity == CAPACITY
      invariant FilesOk(files[..i], env0)
      invariant p.words == Encode(FilesCode(files[..i], env0))
      invariant Env(t.symbols, p.heap) == FilesEnv(files[..i], env0)
    {
      FileStep(files, env0, i);
      ghost var before := p.words;
      CompileStmtList(p, t, files[i]);
      EncodeAppend(FilesCode(files[..i], env0), StmtsCode(files[i], FilesEnv(files[..i], env0)));
      i := i + 1;
    }
    assert files[..|files|] == files;
    p.EmitAll([Halt]);
  }
}
