/**
 * The word-level instruction encoding the lowering engine emits: one opcode
 * word followed by its operand words (register ids, immediates, heap
 * addresses), all stored in the program buffer as 64-bit words.
 */
module Bytecode {
  import opened Wrappers

  // Opcode words. Their numeric values are fixed by a header that is not
  // part of this model; nothing here depends on them beyond being distinct.
  const LII: int := 0   // load immediate:     LII reg imm
  const LDI: int := 1   // load from heap:     LDI reg addr
  const STI: int := 2   // store to heap:      STI addr reg
  const PUSH: int := 3  // push register:      PUSH reg
  const POP: int := 4   // pop into register:  POP reg
  const PRNT: int := 5  // print the value held in the registers
  const MUL: int := 6   // multiply:           MUL dst src
  const LNOT: int := 7  // logical not:        LNOT reg
  const BNOT: int := 8  // bitwise not:        BNOT reg
  const HLT: int := 9   // halt

  // Shape tags returned by compileExpr and stored as the first word of a slot.
  const V_BOOL: int := 1
  const V_INT: int := 2
  const V_FLOAT: int := 3
  const V_STRING: int := 4

  /** The registers the lowering engine uses (the machine has R0..R15). */
  datatype Reg = R0 | R1 | R2 | R3

  function RegWord(r: Reg): int {
    match r
    case R0 => 0
    case R1 => 1
    case R2 => 2
    case R3 => 3
  }

  function RegOf(w: int): (r: Option<Reg>)
    ensures r.Some? <==> 0 <= w <= 3
    ensures r.Some? ==> RegWord(r.value) == w
  {
    if w == 0 then Some(R0)
    else if w == 1 then Some(R1)
    else if w == 2 then Some(R2)
    else if w == 3 then Some(R3)
    else None
  }

  /** One decoded instruction. */
  datatype Instr =
    | LoadImm(dst: Reg, imm: int)
    | LoadAddr(dst: Reg, addr: int)
    | Store(addr: int, src: Reg)
    | Push(src: Reg)
    | Pop(dst: Reg)
    | Print
    | Mul(dst: Reg, src: Reg)
    | LogicalNot(reg: Reg)
    | BitwiseNot(reg: Reg)
    | Halt

  /** The words push_instr appends for one instruction, opcode first. */
  function Words(i: Instr): seq<int> {
    match i
    case LoadImm(r, v) => [LII, RegWord(r), v]
    case LoadAddr(r, a) => [LDI, RegWord(r), a]
    case Store(a, r) => [STI, a, RegWord(r)]
    case Push(r) => [PUSH, RegWord(r)]
    case Pop(r) => [POP, RegWord(r)]
    case Print => [PRNT]
    case Mul(d, s) => [MUL, RegWord(d), RegWord(s)]
    case LogicalNot(r) => [LNOT, RegWord(r)]
    case BitwiseNot(r) => [BNOT, RegWord(r)]
    case Halt => [HLT]
  }

  /** The flat word stream of an instruction sequence. */
  function Encode(code: seq<Instr>): seq<int> {
    if code == [] then [] else Words(code[0]) + Encode(code[1..])
  }

  lemma {:induction false} EncodeAppend(a: seq<Instr>, b: seq<Instr>)
    ensures Encode(a + b) == Encode(a) + Encode(b)
  {
    if a != [] {
      assert (a + b)[1..] == a[1..] + b;
      EncodeAppend(a[1..], b);
    } else {
      assert a + b == b;
    }
  }

  lemma EncodePair(a: Instr, b: Instr)
    ensures Encode([a, b]) == Words(a) + Words(b)
  {
    assert [a, b][1..] == [b];
    assert [b][1..] == [];
    assert Encode([b]) == Words(b) + Encode([]);
    assert Encode([a, b]) == Words(a) + Encode([b]);
  }

  lemma EncodeTriple(a: Instr, b: Instr, c: Instr)
    ensures Encode([a, b, c]) == Words(a) + Words(b) + Words(c)
  {
    assert [a, b, c][1..] == [b, c];
    EncodePair(b, c);
    assert Encode([a, b, c]) == Words(a) + Encode([b, c]);
  }

  lemma EncodeSnoc(code: seq<Instr>, a: Instr)
    ensures Encode(code + [a]) == Encode(code) + Words(a)
  {
    EncodeAppend(code, [a]);
    assert Encode([a]) == Words(a) + Encode([]);
  }

  lemma EncodeSnoc2(code: seq<Instr>, a: Instr, b: Instr)
    ensures Encode(code + [a, b]) == Encode(code) + Words(a) + Words(b)
  {
    EncodeAppend(code, [a, b]);
    EncodePair(a, b);
  }

  /** Appending two instructions' words to an encoding extends the encoded sequence. */
  lemma EncodeExtend(w0: seq<int>, w: seq<int>, code: seq<Instr>, a: Instr, b: Instr)
    requires w == w0 + Encode(code)
    ensures w + Words(a) + Words(b) == w0 + Encode(code + [a, b])
  {
    EncodeSnoc2(code, a, b);
  }

  /** Two encoded stretches appended one after the other encode the concatenated code. */
  lemma EncodeChain(w0: seq<int>, w1: seq<int>, w2: seq<int>, c1: seq<Instr>, c2: seq<Instr>)
    requires w1 == w0 + Encode(c1) && w2 == w1 + Encode(c2)
    ensures w2 == w0 + Encode(c1 + c2)
    ensures |Encode(c1 + c2)| == |Encode(c1)| + |Encode(c2)|
  {
    EncodeAppend(c1, c2);
    SeqAssoc(w0, Encode(c1), Encode(c2));
  }

  lemma SeqAssoc<T>(w0: seq<T>, e1: seq<T>, e2: seq<T>)
    ensures (w0 + e1) + e2 == w0 + (e1 + e2)
  {
  }

  /** Reads one instruction from the front of a word stream, with the number of words it took. */
  function DecodeOne(ws: seq<int>): (r: Option<(Instr, nat)>)
    requires |ws| > 0
    ensures r.Some? ==> 1 <= r.value.1 <= |ws|
  {
    var op := ws[0];
    if op == PRNT then Some((Print, 1))
    else if op == HLT then Some((Halt, 1))
    else if |ws| < 2 then None
    else if op == PUSH then (var r :- RegOf(ws[1]); Some((Push(r), 2)))
    else if op == POP then (var r :- RegOf(ws[1]); Some((Pop(r), 2)))
    else if op == LNOT then (var r :- RegOf(ws[1]); Some((LogicalNot(r), 2)))
    else if op == BNOT then (var r :- RegOf(ws[1]); Some((BitwiseNot(r), 2)))
    else if |ws| < 3 then None
    else if op == LII then (var r :- RegOf(ws[1]); Some((LoadImm(r, ws[2]), 3)))
    else if op == LDI then (var r :- RegOf(ws[1]); Some((LoadAddr(r, ws[2]), 3)))
    else if op == STI then (var r :- RegOf(ws[2]); Some((Store(ws[1], r), 3)))
    else if op == MUL then (var d :- RegOf(ws[1]); var s :- RegOf(ws[2]); Some((Mul(d, s), 3)))
    else None
  }

  /** Splits a word stream back into instructions, positionally, by each opcode's arity. */
  function Decode(ws: seq<int>): Option<seq<Instr>>
    decreases |ws|
  {
    if ws == [] then Some([])
    else
      var (i, k) :- DecodeOne(ws);
      var rest :- Decode(ws[k..]);
      Some([i] + rest)
  }

  lemma DecodeOneWords(i: Instr, rest: seq<int>)
    ensures DecodeOne(Words(i) + rest) == Some((i, |Words(i)|))
  {
  }

  /** Decoding the emitted stream gives back exactly the instructions that were encoded. */
  lemma {:induction false} DecodeEncode(code: seq<Instr>)
    ensures Decode(Encode(code)) == Some(code)
  {
    if code != [] {
      var ws := Encode(code);
      DecodeOneWords(code[0], Encode(code[1..]));
      assert ws[|Words(code[0])|..] == Encode(code[1..]);
      DecodeEncode(code[1..]);
      assert [code[0]] + code[1..] == code;
    }
  }
}
