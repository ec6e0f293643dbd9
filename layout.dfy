/**
 * Properties of the code the lowering engine emits: the exact order of the
 * per-character blocks, which instructions expressions may contain, where
 * declarations store and references load, how the heap cursor moves, and
 * where PRNT and HLT occur in a compiled program.
 */
module Layout {
  import opened Bytecode
  import opened Ast
  import opened Lowering

  // ---------------------------------------------------------------------
  // Observations on instruction sequences
  // ---------------------------------------------------------------------

  function StoreAddrOf(i: Instr): seq<int> {
    if i.Store? then [i.addr] else []
  }

  function LoadAddrOf(i: Instr): seq<int> {
    if i.LoadAddr? then [i.addr] else []
  }

  function PrintsOf(i: Instr): nat {
    if i.Print? then 1 else 0
  }

  /** The heap addresses STI instructions write, in emission order. */
  function StoreAddrs(code: seq<Instr>): seq<int> {
    if code == [] then [] else StoreAddrOf(code[0]) + StoreAddrs(code[1..])
  }

  /** The heap addresses LDI instructions read, in emission order. */
  function LoadAddrs(code: seq<Instr>): seq<int> {
    if code == [] then [] else LoadAddrOf(code[0]) + LoadAddrs(code[1..])
  }

  /** The number of PRNT instructions. */
  function Prints(code: seq<Instr>): nat {
    if code == [] then 0 else PrintsOf(code[0]) + Prints(code[1..])
  }

  lemma ObserveOne(x: Instr)
    ensures StoreAddrs([x]) == StoreAddrOf(x)
    ensures LoadAddrs([x]) == LoadAddrOf(x)
    ensures Prints([x]) == PrintsOf(x)
  {
    assert [x][1..] == [];
    assert StoreAddrOf(x) + [] == StoreAddrOf(x);
    assert LoadAddrOf(x) + [] == LoadAddrOf(x);
  }

  lemma ObservePair(x: Instr, y: Instr)
    ensures StoreAddrs([x, y]) == StoreAddrOf(x) + StoreAddrOf(y)
    ensures LoadAddrs([x, y]) == LoadAddrOf(x) + LoadAddrOf(y)
    ensures Prints([x, y]) == PrintsOf(x) + PrintsOf(y)
  {
    assert [x, y][1..] == [y];
    ObserveOne(y);
  }

  lemma ObserveTriple(x: Instr, y: Instr, z: Instr)
    ensures StoreAddrs([x, y, z]) == StoreAddrOf(x) + StoreAddrOf(y) + StoreAddrOf(z)
    ensures LoadAddrs([x, y, z]) == LoadAddrOf(x) + LoadAddrOf(y) + LoadAddrOf(z)
    ensures Prints([x, y, z]) == PrintsOf(x) + PrintsOf(y) + PrintsOf(z)
  {
    assert [x, y, z][1..] == [y, z];
    ObservePair(y, z);
    SeqAssoc(StoreAddrOf(x), StoreAddrOf(y), StoreAddrOf(z));
    SeqAssoc(LoadAddrOf(x), LoadAddrOf(y), LoadAddrOf(z));
  }

  lemma {:induction false} StoreAddrsAppend(a: seq<Instr>, b: seq<Instr>)
    ensures StoreAddrs(a + b) == StoreAddrs(a) + StoreAddrs(b)
  {
    if a == [] {
      assert a + b == b;
    } else {
      assert (a + b)[0] == a[0];
      assert (a + b)[1..] == a[1..] + b;
      StoreAddrsAppend(a[1..], b);
      SeqAssoc(StoreAddrOf(a[0]), StoreAddrs(a[1..]), StoreAddrs(b));
    }
  }

  lemma {:induction false} LoadAddrsAppend(a: seq<Instr>, b: seq<Instr>)
    ensures LoadAddrs(a + b) == LoadAddrs(a) + LoadAddrs(b)
  {
    if a == [] {
      assert a + b == b;
    } else {
      assert (a + b)[0] == a[0];
      assert (a + b)[1..] == a[1..] + b;
      LoadAddrsAppend(a[1..], b);
      SeqAssoc(LoadAddrOf(a[0]), LoadAddrs(a[1..]), LoadAddrs(b));
    }
  }

  lemma {:induction false} PrintsAppend(a: seq<Instr>, b: seq<Instr>)
    ensures Prints(a + b) == Prints(a) + Prints(b)
  {
    if a == [] {
      assert a + b == b;
    } else {
      assert (a + b)[0] == a[0];
      assert (a + b)[1..] == a[1..] + b;
      PrintsAppend(a[1..], b);
    }
  }

  lemma ObservationsAppend(a: seq<Instr>, b: seq<Instr>)
    ensures StoreAddrs(a + b) == StoreAddrs(a) + StoreAddrs(b)
    ensures LoadAddrs(a + b) == LoadAddrs(a) + LoadAddrs(b)
    ensures Prints(a + b) == Prints(a) + Prints(b)
  {
    StoreAddrsAppend(a, b);
    LoadAddrsAppend(a, b);
    PrintsAppend(a, b);
  }

  /** The j-th instruction pair of a sequence emitted two instructions per loop iteration. */
  function Pair(code: seq<Instr>, j: nat): seq<Instr>
    requires 2 * j + 2 <= |code|
  {
    code[2 * j..2 * j + 2]
  }

  lemma PairsSnoc(a: seq<Instr>, x: Instr, y: Instr, m: nat)
    requires |a| == 2 * m
    ensures forall j :: 0 <= j < m ==> Pair(a + [x, y], j) == Pair(a, j)
    ensures Pair(a + [x, y], m) == [x, y]
  {
    var b := a + [x, y];
    forall j | 0 <= j < m
      ensures Pair(b, j) == Pair(a, j)
    {
      assert b[2 * j..2 * j + 2] == a[2 * j..2 * j + 2];
    }
    assert b[2 * m..2 * m + 2] == [x, y];
  }

  // ---------------------------------------------------------------------
  // The per-character loops
  // ---------------------------------------------------------------------

  /**
   * A string literal's character pushes: block j (counting from 0) loads
   * the digit value of character |s| - 1 - j, so the last character is
   * pushed first.
   */
  lemma {:induction false} PushCharsLayout(s: string, i: nat)
    requires i <= |s|
    ensures |PushChars(s, i)| == 2 * (|s| - i)
    ensures forall j :: 0 <= j < |s| - i ==>
              Pair(PushChars(s, i), j) == [LoadImm(R0, Digit(s[|s| - 1 - j])), Push(R0)]
    decreases |s| - i
  {
    if i < |s| {
      PushCharsLayout(s, i + 1);
      PairsSnoc(PushChars(s, i + 1), LoadImm(R0, Digit(s[i])), Push(R0), |s| - i - 1);
    }
  }

  /**
   * A string reference's character loads: block j loads address
   * a + n + 1 - j, walking from the last character slot down to a + 2.
   */
  lemma {:induction false} LoadCharsLayout(a: int, n: nat, i: nat)
    requires i <= n
    ensures |LoadChars(a, n, i)| == 2 * (n - i)
    ensures forall j :: 0 <= j < n - i ==>
              Pair(LoadChars(a, n, i), j) == [LoadAddr(R2, a + n + 1 - j), Push(R2)]
    decreases n - i
  {
    if i < n {
      LoadCharsLayout(a, n, i + 1);
      PairsSnoc(LoadChars(a, n, i + 1), LoadAddr(R2, a + 2 + i), Push(R2), n - i - 1);
    }
  }

  /** A string declaration's character stores: block j pops into R0 and stores it at h + j. */
  lemma {:induction false} StoreCharsLayout(h: int, k: nat)
    ensures |StoreChars(h, k)| == 2 * k
    ensures forall j :: 0 <= j < k ==> Pair(StoreChars(h, k), j) == [Pop(R0), Store(h + j, R0)]
  {
    if k > 0 {
      StoreCharsLayout(h, k - 1);
      PairsSnoc(StoreChars(h, k - 1), Pop(R0), Store(h + k - 1, R0), k - 1);
    }
  }

  /**
   * The words of a literal: a bool or int literal is two LII triples
   * (the tag into R0, the value into R1, a bool as 1 or 0); a float adds its
   * fractional part into R2; a string is its character blocks, then its tag
   * and length.
   */
  lemma LiteralWords(l: Literal)
    ensures l.BoolLit? ==> Encode(LitCode(l)) == [LII, RegWord(R0), V_BOOL, LII, RegWord(R1), if l.b then 1 else 0]
    ensures l.IntLit? ==> Encode(LitCode(l)) == [LII, RegWord(R0), V_INT, LII, RegWord(R1), l.i]
    ensures l.FloatLit? ==>
              Encode(LitCode(l)) == [LII, RegWord(R0), V_FLOAT, LII, RegWord(R1), l.ipart, LII, RegWord(R2), l.frac]
    ensures l.StringLit? ==>
              Encode(LitCode(l)) == Encode(PushChars(l.s, 0)) + [LII, RegWord(R0), V_STRING, LII, RegWord(R1), |l.s|]
    ensures l.OtherLit? ==> Encode(LitCode(l)) == []
  {
    match l
    case BoolLit(b) =>
      EncodePair(LoadImm(R0, V_BOOL), LoadImm(R1, if b then 1 else 0));
    case IntLit(i) =>
      EncodePair(LoadImm(R0, V_INT), LoadImm(R1, i));
    case FloatLit(ip, fr) =>
      EncodeTriple(LoadImm(R0, V_FLOAT), LoadImm(R1, ip), LoadImm(R2, fr));
    case StringLit(s) =>
      EncodeAppend(PushChars(s, 0), [LoadImm(R0, V_STRING), LoadImm(R1, |s|)]);
      EncodePair(LoadImm(R0, V_STRING), LoadImm(R1, |s|));
    case OtherLit =>
  }

  // ---------------------------------------------------------------------
  // What expression code may contain
  // ---------------------------------------------------------------------

  /** Code that stores nothing, pops nothing, prints nothing and does not halt. */
  predicate ReadOnly(code: seq<Instr>) {
    forall i :: 0 <= i < |code| ==>
      !code[i].Store? && !code[i].Pop? && !code[i].Print? && !code[i].Halt?
  }

  lemma {:induction false} PushCharsReadOnly(s: string, i: nat)
    ensures ReadOnly(PushChars(s, i))
    decreases |s| - i
  {
    if i < |s| {
      PushCharsReadOnly(s, i + 1);
    }
  }

  lemma {:induction false} LoadCharsReadOnly(a: int, n: nat, i: nat)
    ensures ReadOnly(LoadChars(a, n, i))
    decreases n - i
  {
    if i < n {
      LoadCharsReadOnly(a, n, i + 1);
    }
  }

  /** Expression code only loads, pushes and computes in registers: it never writes the heap or prints. */
  lemma {:induction false} ExprCodeReadOnly(e: Expr, symbols: map<string, Symbol>)
    requires Declared(e, symbols)
    ensures ReadOnly(ExprCode(e, symbols))
  {
    match e
    case Lit(l) =>
      if l.StringLit? {
        PushCharsReadOnly(l.s, 0);
      }
    case Ident(x) =>
      LoadCharsReadOnly(symbols[x].addr, symbols[x].len, 0);
    case Unary(op, x) =>
      ExprCodeReadOnly(x, symbols);
    case OtherExpr =>
  }

  lemma {:induction false} ReadOnlyObservations(code: seq<Instr>)
    requires ReadOnly(code)
    ensures StoreAddrs(code) == [] && Prints(code) == 0
  {
    if code != [] {
      ReadOnlyObservations(code[1..]);
    }
  }

  // ---------------------------------------------------------------------
  // Where declarations store and references load
  // ---------------------------------------------------------------------

  /** s lists the addresses a, a + 1, a + 2, ... in that order. */
  predicate Ascending(s: seq<int>, a: int) {
    forall j :: 0 <= j < |s| ==> s[j] == a + j
  }

  lemma {:induction false} StoreCharsAddrs(h: int, k: nat)
    ensures |StoreAddrs(StoreChars(h, k))| == k && Ascending(StoreAddrs(StoreChars(h, k)), h)
    ensures LoadAddrs(StoreChars(h, k)) == [] && Prints(StoreChars(h, k)) == 0
  {
    if k > 0 {
      StoreCharsAddrs(h, k - 1);
      ObservationsAppend(StoreChars(h, k - 1), [Pop(R0), Store(h + k - 1, R0)]);
      ObservePair(Pop(R0), Store(h + k - 1, R0));
    }
  }

  /**
   * The stores of one declared value write its slot once each, from the
   * first address upwards, and read and print nothing.
   */
  lemma StoreCodeAddrs(ty: ValueType, a: int, len: nat)
    ensures |StoreAddrs(StoreCode(ty, a, len))| == SlotWidth(ty, len)
    ensures Ascending(StoreAddrs(StoreCode(ty, a, len)), a)
    ensures LoadAddrs(StoreCode(ty, a, len)) == [] && Prints(StoreCode(ty, a, len)) == 0
  {
    var head := [Store(a, R0), Store(a + 1, R1)];
    ObservePair(Store(a, R0), Store(a + 1, R1));
    match ty
    case StringType =>
      StoreCharsAddrs(a + 2, len);
      ObservationsAppend(head, StoreChars(a + 2, len));
    case FloatType =>
      ObserveTriple(Store(a, R0), Store(a + 1, R1), Store(a + 2, R2));
    case _ =>
  }

  /** s lists the addresses top, top - 1, top - 2, ... in that order. */
  predicate Descending(s: seq<int>, top: int) {
    forall j :: 0 <= j < |s| ==> s[j] == top - j
  }

  lemma {:induction false} LoadCharsAddrs(a: int, n: nat, i: nat)
    requires i <= n
    ensures |LoadAddrs(LoadChars(a, n, i))| == n - i
    ensures Descending(LoadAddrs(LoadChars(a, n, i)), a + n + 1)
    decreases n - i
  {
    if i < n {
      LoadCharsAddrs(a, n, i + 1);
      LoadAddrsAppend(LoadChars(a, n, i + 1), [LoadAddr(R2, a + 2 + i), Push(R2)]);
      ObservePair(LoadAddr(R2, a + 2 + i), Push(R2));
    }
  }

  lemma AscendingMembers(s: seq<int>, a: int)
    requires Ascending(s, a)
    ensures forall x :: x in s <==> a <= x < a + |s|
  {
    forall x | a <= x < a + |s|
      ensures x in s
    {
      assert s[x - a] == x;
    }
  }

  /** A reference to a symbol loads each word of its slot exactly once. */
  lemma LoadCodeAddrs(sym: Symbol)
    ensures |LoadAddrs(LoadCode(sym))| == Width(sym)
    ensures forall x :: x in LoadAddrs(LoadCode(sym)) <==> sym.addr <= x < sym.addr + Width(sym)
  {
    var a := sym.addr;
    var head := [LoadAddr(R0, a), LoadAddr(R1, a + 1)];
    ObservePair(LoadAddr(R0, a), LoadAddr(R1, a + 1));
    match sym.ty
    case StringType =>
      LoadCharsAddrs(a, sym.len, 0);
      LoadAddrsAppend(head, LoadChars(a, sym.len, 0));
      var chars := LoadAddrs(LoadChars(a, sym.len, 0));
      assert LoadAddrs(LoadCode(sym)) == [a, a + 1] + chars;
      forall x | a + 2 <= x < a + 2 + sym.len
        ensures x in chars
      {
        assert chars[a + sym.len + 1 - x] == x;
      }
    case FloatType =>
      ObserveTriple(LoadAddr(R0, a), LoadAddr(R1, a + 1), LoadAddr(R2, a + 2));
    case _ =>
  }

  /**
   * A reference to a symbol loads exactly the addresses a declaration of
   * that symbol stores to: as many loads as stores, and the same addresses.
   */
  lemma LoadsMatchStores(sym: Symbol)
    ensures |LoadAddrs(LoadCode(sym))| == |StoreAddrs(StoreCode(sym.ty, sym.addr, sym.len))|
    ensures forall x :: x in LoadAddrs(LoadCode(sym)) <==> x in StoreAddrs(StoreCode(sym.ty, sym.addr, sym.len))
  {
    StoreCodeAddrs(sym.ty, sym.addr, sym.len);
    AscendingMembers(StoreAddrs(StoreCode(sym.ty, sym.addr, sym.len)), sym.addr);
    LoadCodeAddrs(sym);
  }
}
