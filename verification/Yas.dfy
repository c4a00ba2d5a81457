/** The assembler: two passes over lines of tokens. */
module Yas {
  import opened Words
  import opened Memory
  import opened Isa
  import opened YoText

  // ---- the instruction table

  datatype ArgKind = R_ARG | M_ARG | I_ARG | NO_ARG

  /** The code byte is kept as its two halves. For an I_ARG, the hi field is the number of bytes. */
  datatype InstrDef = InstrDef(icode: Nibble, ifun: Nibble, bytes: nat, arg1: ArgKind, arg1pos: nat, arg1hi: nat,
                               arg2: ArgKind, arg2pos: nat, arg2hi: nat)

  /** HPACK */
  function Pack(hi: Nibble, lo: Nibble): Byte { 16 * hi + lo }

  /** `instruction_set` and `find_instr` */
  function FindInstr(name: string): Option<InstrDef> {
    match name
    case "nop" => Some(InstrDef(I_NOP, F_NONE, 1, NO_ARG, 0, 0, NO_ARG, 0, 0))
    case "halt" => Some(InstrDef(I_HALT, F_NONE, 1, NO_ARG, 0, 0, NO_ARG, 0, 0))
    case "rrmovq" => Some(InstrDef(I_RRMOVQ, F_NONE, 2, R_ARG, 1, 1, R_ARG, 1, 0))
    case "cmovle" => Some(InstrDef(I_RRMOVQ, C_LE, 2, R_ARG, 1, 1, R_ARG, 1, 0))
    case "cmovl" => Some(InstrDef(I_RRMOVQ, C_L, 2, R_ARG, 1, 1, R_ARG, 1, 0))
    case "cmove" => Some(InstrDef(I_RRMOVQ, C_E, 2, R_ARG, 1, 1, R_ARG, 1, 0))
    case "cmovne" => Some(InstrDef(I_RRMOVQ, C_NE, 2, R_ARG, 1, 1, R_ARG, 1, 0))
    case "cmovge" => Some(InstrDef(I_RRMOVQ, C_GE, 2, R_ARG, 1, 1, R_ARG, 1, 0))
    case "cmovg" => Some(InstrDef(I_RRMOVQ, C_G, 2, R_ARG, 1, 1, R_ARG, 1, 0))
    case "irmovq" => Some(InstrDef(I_IRMOVQ, F_NONE, 10, I_ARG, 2, 8, R_ARG, 1, 0))
    case "rmmovq" => Some(InstrDef(I_RMMOVQ, F_NONE, 10, R_ARG, 1, 1, M_ARG, 1, 0))
    case "mrmovq" => Some(InstrDef(I_MRMOVQ, F_NONE, 10, M_ARG, 1, 0, R_ARG, 1, 1))
    case "addq" => Some(InstrDef(I_ALU, A_ADD, 2, R_ARG, 1, 1, R_ARG, 1, 0))
    case "subq" => Some(InstrDef(I_ALU, A_SUB, 2, R_ARG, 1, 1, R_ARG, 1, 0))
    case "andq" => Some(InstrDef(I_ALU, A_AND, 2, R_ARG, 1, 1, R_ARG, 1, 0))
    case "xorq" => Some(InstrDef(I_ALU, A_XOR, 2, R_ARG, 1, 1, R_ARG, 1, 0))
    case "jmp" => Some(InstrDef(I_JMP, C_YES, 9, I_ARG, 1, 8, NO_ARG, 0, 0))
    case "jle" => Some(InstrDef(I_JMP, C_LE, 9, I_ARG, 1, 8, NO_ARG, 0, 0))
    case "jl" => Some(InstrDef(I_JMP, C_L, 9, I_ARG, 1, 8, NO_ARG, 0, 0))
    case "je" => Some(InstrDef(I_JMP, C_E, 9, I_ARG, 1, 8, NO_ARG, 0, 0))
    case "jne" => Some(InstrDef(I_JMP, C_NE, 9, I_ARG, 1, 8, NO_ARG, 0, 0))
    case "jge" => Some(InstrDef(I_JMP, C_GE, 9, I_ARG, 1, 8, NO_ARG, 0, 0))
    case "jg" => Some(InstrDef(I_JMP, C_G, 9, I_ARG, 1, 8, NO_ARG, 0, 0))
    case "call" => Some(InstrDef(I_CALL, F_NONE, 9, I_ARG, 1, 8, NO_ARG, 0, 0))
    case "ret" => Some(InstrDef(I_RET, F_NONE, 1, NO_ARG, 0, 0, NO_ARG, 0, 0))
    case "pushq" => Some(InstrDef(I_PUSHQ, F_NONE, 2, R_ARG, 1, 1, NO_ARG, 0, 0))
    case "popq" => Some(InstrDef(I_POPQ, F_NONE, 2, R_ARG, 1, 1, NO_ARG, 0, 0))
    case "iaddq" => Some(InstrDef(I_IADDQ, F_NONE, 10, I_ARG, 2, 8, R_ARG, 1, 0))
    case "pop2" => Some(InstrDef(I_POP2, F_NONE, 0, NO_ARG, 0, 0, NO_ARG, 0, 0))
    case ".byte" => Some(InstrDef(0, 0, 1, I_ARG, 0, 1, NO_ARG, 0, 0))
    case ".word" => Some(InstrDef(0, 0, 2, I_ARG, 0, 2, NO_ARG, 0, 0))
    case ".long" => Some(InstrDef(0, 0, 4, I_ARG, 0, 4, NO_ARG, 0, 0))
    case ".quad" => Some(InstrDef(0, 0, 8, I_ARG, 0, 8, NO_ARG, 0, 0))
    case _ => None
  }

  // ---- the forms of instructions

  datatype Shape = Bare | OneReg | RegReg | RegMem | MemReg | ImmReg | Dest | Data

  function ShapeOf(d: InstrDef): Shape {
    match (d.arg1, d.arg2)
    case (R_ARG, NO_ARG) => OneReg
    case (R_ARG, R_ARG) => RegReg
    case (R_ARG, M_ARG) => RegMem
    case (M_ARG, R_ARG) => MemReg
    case (I_ARG, R_ARG) => ImmReg
    case (I_ARG, NO_ARG) => if d.arg1pos == 0 then Data else Dest
    case _ => Bare
  }

  /** An entry has the size of its form, its operands where the form has them, and an operation code that the processor
      decodes by the same form. */
  predicate Consistent(d: InstrDef) {
    var icode := d.icode;
    match ShapeOf(d)
    case Bare => d.arg1 == NO_ARG && d.arg2 == NO_ARG && d.bytes <= 1 && !NeedRegids(icode) && !NeedImm(icode)
    case OneReg => d.bytes == 2 && d.arg1pos == 1 && d.arg1hi == 1 && NeedRegids(icode) && !NeedImm(icode)
    case RegReg =>
      && d.bytes == 2 && d.arg1pos == 1 && d.arg1hi == 1 && d.arg2pos == 1 && d.arg2hi == 0
      && NeedRegids(icode) && !NeedImm(icode)
    case RegMem =>
      d.bytes == 10 && d.arg1pos == 1 && d.arg1hi == 1 && d.arg2pos == 1 && NeedRegids(icode) && NeedImm(icode)
    case MemReg =>
      d.bytes == 10 && d.arg1pos == 1 && d.arg2pos == 1 && d.arg2hi == 1 && NeedRegids(icode) && NeedImm(icode)
    case ImmReg =>
      && d.bytes == 10 && d.arg1pos == 2 && d.arg1hi == 8 && d.arg2pos == 1 && d.arg2hi == 0
      && NeedRegids(icode) && NeedImm(icode)
    case Dest => d.bytes == 9 && d.arg1pos == 1 && d.arg1hi == 8 && !NeedRegids(icode) && NeedImm(icode)
    case Data => d.arg1hi == d.bytes && d.bytes in {1, 2, 4, 8}
  }

  /** THE TABLE FITS THE PROCESSOR: every entry is consistent. */
  lemma TableConsistent(name: string)
    requires FindInstr(name).Some?
    ensures Consistent(FindInstr(name).value)
  {
  }

  // ---- lines of tokens

  datatype Token = Ident(name: string) | Num(ival: Word) | Reg(name: string) | Instr(name: string) | Punct(cval: char) | Err

  /** A line of the source: its tokens and its text. */
  datatype Line = Line(tokens: seq<Token>, text: string)

  datatype Symbol = Symbol(name: string, pos: int)

  function Tok(tokens: seq<Token>, i: nat): Token { if i < |tokens| then tokens[i] else Err }

  const REG_NAMES: seq<string> :=
    ["%rax", "%rcx", "%rdx", "%rbx", "%rsp", "%rbp", "%rsi", "%rdi", "%r8", "%r9", "%r10", "%r11", "%r12", "%r13", "%r14"]

  /** `find_register` for the names that the scanner lets through; the scanner knows no others. */
  function RegisterFrom(name: string, i: nat): (r: Nibble)
    requires i <= 15
    decreases 15 - i
  {
    if i == 15 then 15 else if REG_NAMES[i] == name then i else RegisterFrom(name, i + 1)
  }

  predicate Known(tokens: seq<Token>) {
    forall i :: 0 <= i < |tokens| && tokens[i].Reg? ==> tokens[i].name in REG_NAMES
  }

  /** The address of the first symbol of the name. */
  function Lookup(symbols: seq<Symbol>, name: string): Option<int> {
    if symbols == [] then None
    else if symbols[0].name == name then Some(symbols[0].pos)
    else Lookup(symbols[1..], name)
  }

  // ---- what the operands of a line are

  /** A number or a label. */
  function NumberAt(tokens: seq<Token>, i: nat, symbols: seq<Symbol>): Option<int> {
    match Tok(tokens, i)
    case Num(ival) => Some(ival)
    case Ident(name) => Lookup(symbols, name)
    case _ => None
  }

  function RegisterAt(tokens: seq<Token>, i: nat): Option<Nibble> {
    match Tok(tokens, i)
    case Reg(name) => Some(RegisterFrom(name, 0))
    case _ => None
  }

  datatype MemOperand = MemOperand(disp: int, base: Nibble, next: nat)

  predicate Opens(tokens: seq<Token>, i: nat) { Tok(tokens, i) == Punct('(') }

  /** An optional displacement, then an optional register in parentheses. */
  function MemAt(tokens: seq<Token>, i: nat, symbols: seq<Symbol>): Option<MemOperand> {
    var shown := Tok(tokens, i).Num? || Tok(tokens, i).Ident?;
    var disp := if shown then NumberAt(tokens, i, symbols) else Some(0);
    var j := if shown then i + 1 else i;
    if disp.None? then None
    else if !Opens(tokens, j) then Some(MemOperand(disp.value, REG_NONE, j))
    else if RegisterAt(tokens, j + 1).None? || Tok(tokens, j + 2) != Punct(')') then None
    else Some(MemOperand(disp.value, RegisterAt(tokens, j + 1).value, j + 3))
  }

  datatype Operands = Operands(rA: Nibble, rB: Nibble, valC: int)

  predicate CommaAt(tokens: seq<Token>, i: nat) { Tok(tokens, i) == Punct(',') }

  /** The operands written from token i on, in the form of the instruction. What follows them is not looked at. */
  function OperandsAt(shape: Shape, tokens: seq<Token>, i: nat, symbols: seq<Symbol>): Option<Operands> {
    var r, n := RegisterAt(tokens, i), NumberAt(tokens, i, symbols);
    match shape
    case Bare => Some(Operands(REG_NONE, REG_NONE, 0))
    case OneReg => if r.Some? then Some(Operands(r.value, REG_NONE, 0)) else None
    case RegReg =>
      var r2 := RegisterAt(tokens, i + 2);
      if r.Some? && CommaAt(tokens, i + 1) && r2.Some? then Some(Operands(r.value, r2.value, 0)) else None
    case RegMem =>
      var m := MemAt(tokens, i + 2, symbols);
      if r.Some? && CommaAt(tokens, i + 1) && m.Some? then Some(Operands(r.value, m.value.base, m.value.disp)) else None
    case MemReg =>
      (match MemAt(tokens, i, symbols)
       case None => None
       case Some(m) =>
         var r2 := RegisterAt(tokens, m.next + 1);
         if CommaAt(tokens, m.next) && r2.Some? then Some(Operands(r2.value, m.base, m.disp)) else None)
    case ImmReg =>
      var r2 := RegisterAt(tokens, i + 2);
      if n.Some? && CommaAt(tokens, i + 1) && r2.Some? then Some(Operands(REG_NONE, r2.value, n.value)) else None
    case Dest => if n.Some? then Some(Operands(REG_NONE, REG_NONE, n.value)) else None
    case Data => if n.Some? then Some(Operands(REG_NONE, REG_NONE, n.value)) else None
  }

  /** The low n bytes of v, least significant first. */
  function LittleBytes(v: int, n: nat): (s: seq<Byte>)
    ensures |s| == n
    decreases n
  {
    if n == 0 then [] else [v % 256] + LittleBytes(v / 256, n - 1)
  }

  /** The code of an instruction with its operands. */
  function Image(d: InstrDef, o: Operands): seq<Byte> {
    var first, regs := [Pack(d.icode, d.ifun)], [Pack(o.rA, o.rB)];
    match ShapeOf(d)
    case Bare => if d.bytes == 0 then [] else first
    case OneReg => first + regs
    case RegReg => first + regs
    case RegMem => first + regs + LittleBytes(o.valC, 8)
    case MemReg => first + regs + LittleBytes(o.valC, 8)
    case ImmReg => first + regs + LittleBytes(o.valC, 8)
    case Dest => first + LittleBytes(o.valC, 8)
    case Data => LittleBytes(o.valC, d.bytes)
  }

  lemma ImageSize(d: InstrDef, o: Operands)
    requires Consistent(d)
    ensures |Image(d, o)| == d.bytes <= 10
  {
  }

  // ---- where the lines go

  /** Division as C does it. */
  function TruncDiv(a: int, b: int): int
    requires b > 0
  {
    if a >= 0 then a / b else -(-a / b)
  }

  /** A word as an int. */
  function ToInt(w: Word): int {
    var x := w % 0x1_0000_0000;
    if x < 0x8000_0000 then x else x - 0x1_0000_0000
  }

  /** A line without tokens; a line in error; or a line shown at an address, with the next line at another, and with the
      instruction, if there is one, at token at. */
  datatype Layout = NoTokens | Faulty | Placed(at: nat, shown: int, next: int, def: Option<InstrDef>)

  function LayoutFrom(tokens: seq<Token>, i: nat, pos: int): (l: Layout)
    ensures !l.NoTokens?
  {
    match Tok(tokens, i)
    case Instr(name) =>
      if name == ".pos" then
        match Tok(tokens, i + 1)
        case Num(ival) => Placed(i, ToInt(ival), ToInt(ival), None)
        case _ => Faulty
      else if name == ".align" then
        match Tok(tokens, i + 1)
        case Num(ival) =>
          var a := ToInt(ival);
          if a <= 0 then Faulty
          else
            var next := TruncDiv(pos + a - 1, a) * a;
            Placed(i, next, next, None)
        case _ => Faulty
      else
        (match FindInstr(name)
         case None => Faulty
         case Some(d) => Placed(i, pos, pos + d.bytes, Some(d)))
    case _ => Faulty
  }

  predicate Labelled(tokens: seq<Token>) { Tok(tokens, 0).Ident? && Tok(tokens, 1) == Punct(':') }

  function LayoutOf(tokens: seq<Token>, pos: int): Layout {
    if tokens == [] then NoTokens
    else if !tokens[0].Ident? then LayoutFrom(tokens, 0, pos)
    else if !Labelled(tokens) then Faulty
    else if |tokens| == 2 then Placed(2, pos, pos, None)
    else LayoutFrom(tokens, 2, pos)
  }

  function NextPos(tokens: seq<Token>, pos: int): int {
    match LayoutOf(tokens, pos)
    case Placed(_, _, next, _) => next
    case _ => pos
  }

  /** Where line i starts. */
  function PosOf(lines: seq<Line>, i: nat): int
    requires i <= |lines|
  {
    if i == 0 then 0 else NextPos(lines[i - 1].tokens, PosOf(lines, i - 1))
  }

  /** The labels of the first i lines, each with the address where its line starts. */
  function LabelsOf(lines: seq<Line>, i: nat): seq<Symbol>
    requires i <= |lines|
  {
    if i == 0 then []
    else
      LabelsOf(lines, i - 1)
      + if Labelled(lines[i - 1].tokens) then [Symbol(lines[i - 1].tokens[0].name, PosOf(lines, i - 1))] else []
  }

  /** The code of a line; None if it is in error. */
  function CodeOfLayout(tokens: seq<Token>, l: Layout, symbols: seq<Symbol>): Option<seq<Byte>> {
    match l
    case NoTokens => Some([])
    case Faulty => None
    case Placed(at, shown, next, def) =>
      if def.None? then Some([])
      else
        match OperandsAt(ShapeOf(def.value), tokens, at + 1, symbols)
        case None => None
        case Some(o) => Some(Image(def.value, o))
  }

  function CodeOf(tokens: seq<Token>, pos: int, symbols: seq<Symbol>): Option<seq<Byte>> {
    CodeOfLayout(tokens, LayoutOf(tokens, pos), symbols)
  }

  predicate LineGood(tokens: seq<Token>, pos: int, symbols: seq<Symbol>) {
    CodeOf(tokens, pos, symbols).Some? && (LayoutOf(tokens, pos).Placed? ==> LayoutOf(tokens, pos).shown <= 0xFFFF)
  }

  /** The line of output for a line of the source. */
  function Printed(line: Line, pos: int, symbols: seq<Symbol>): string
    requires LineGood(line.tokens, pos, symbols)
  {
    match LayoutOf(line.tokens, pos)
    case NoTokens => BlankLine(pos, line.text + "\n")
    case Placed(at, shown, _, _) =>
      var code := CodeOf(line.tokens, pos, symbols).value;
      CodeFits(line.tokens, pos, symbols);
      YoLine(shown, code, line.text + "\n")
  }

  lemma CodeFits(tokens: seq<Token>, pos: int, symbols: seq<Symbol>)
    requires CodeOf(tokens, pos, symbols).Some?
    ensures |CodeOf(tokens, pos, symbols).value| <= 10
  {
    match LayoutOf(tokens, pos)
    case Placed(at, _, _, def) =>
      if def.Some? {
        LayoutConsistent(tokens, pos);
        ImageSize(def.value, OperandsAt(ShapeOf(def.value), tokens, at + 1, symbols).value);
      }
    case _ =>
  }

  lemma LayoutConsistent(tokens: seq<Token>, pos: int)
    ensures var l := LayoutOf(tokens, pos); l.Placed? && l.def.Some? ==> Consistent(l.def.value)
  {
    hide Consistent, FindInstr;
    var i := if Labelled(tokens) then 2 else 0;
    if Tok(tokens, i).Instr? && FindInstr(Tok(tokens, i).name).Some? {
      TableConsistent(Tok(tokens, i).name);
    }
  }

  // ---- what taking one argument does to the code

  datatype Taken = Taken(code: seq<Byte>, tpos: nat)

  function SetNibble(b: Byte, hi: bool, r: Nibble): Byte { if hi then 16 * r + Lo4(b) else 16 * Hi4(b) + r }

  function PutAt(code: seq<Byte>, pos: nat, v: int, n: nat): (c: seq<Byte>)
    requires pos + n <= |code|
    ensures |c| == |code|
  {
    code[..pos] + LittleBytes(v, n) + code[pos + n..]
  }

  lemma PutAtStep(code: seq<Byte>, pos: nat, v: int, n: nat)
    requires 0 < n && pos + n <= |code|
    ensures PutAt(code, pos, v, n) == PutAt(code[pos := v % 256], pos + 1, v / 256, n - 1)
  {
  }

  /** Where an argument's bytes fit into the code buffer. */
  predicate ArgFits(kind: ArgKind, pos: nat, hi: nat) {
    match kind
    case R_ARG => pos < 10
    case M_ARG => pos + 9 <= 10
    case I_ARG => pos + hi <= 10
    case NO_ARG => true
  }

  function ArgAt(kind: ArgKind, pos: nat, hi: nat, tokens: seq<Token>, i: nat, symbols: seq<Symbol>, code: seq<Byte>): (r: Option<Taken>)
    requires |code| == 10 && ArgFits(kind, pos, hi)
    ensures r.Some? ==> |r.value.code| == 10
  {
    match kind
    case NO_ARG => Some(Taken(code, i))
    case R_ARG =>
      (match RegisterAt(tokens, i)
       case None => None
       case Some(r) => Some(Taken(code[pos := SetNibble(code[pos], hi != 0, r)], i + 1)))
    case I_ARG =>
      (match NumberAt(tokens, i, symbols)
       case None => None
       case Some(v) => Some(Taken(PutAt(code, pos, v, hi), i + 1)))
    case M_ARG =>
      (match MemAt(tokens, i, symbols)
       case None => None
       case Some(m) => Some(Taken(PutAt(code[pos := SetNibble(code[pos], false, m.base)], pos + 1, m.disp, 8), m.next)))
  }

  /** Both arguments, with the comma between them. */
  function ArgsAt(d: InstrDef, tokens: seq<Token>, i: nat, symbols: seq<Symbol>, code: seq<Byte>): (r: Option<seq<Byte>>)
    requires |code| == 10 && ArgFits(d.arg1, d.arg1pos, d.arg1hi) && ArgFits(d.arg2, d.arg2pos, d.arg2hi)
    ensures r.Some? ==> |r.value| == 10
  {
    match ArgAt(d.arg1, d.arg1pos, d.arg1hi, tokens, i, symbols, code)
    case None => None
    case Some(first) =>
      if d.arg2 == NO_ARG then Some(first.code)
      else if !CommaAt(tokens, first.tpos) then None
      else
        match ArgAt(d.arg2, d.arg2pos, d.arg2hi, tokens, first.tpos + 1, symbols, first.code)
        case None => None
        case Some(second) => Some(second.code)
  }

  /** The walk fails exactly if there are no such operands, and else leaves the code in the buffer. */
  ghost predicate Encodes(d: InstrDef, tokens: seq<Token>, i: nat, symbols: seq<Symbol>, code: seq<Byte>) {
    && |code| == 10 && ArgFits(d.arg1, d.arg1pos, d.arg1hi) && ArgFits(d.arg2, d.arg2pos, d.arg2hi)
    && var o, c := OperandsAt(ShapeOf(d), tokens, i, symbols), ArgsAt(d, tokens, i, symbols, code);
       && (c.Some? <==> o.Some?)
       && (c.Some? ==> d.bytes <= 10 && c.value[..d.bytes] == Image(d, o.value))
  }

  lemma RegistersEncode(d: InstrDef, tokens: seq<Token>, i: nat, symbols: seq<Symbol>, code: seq<Byte>)
    requires Consistent(d) && |code| == 10 && code[0] == Pack(d.icode, d.ifun) && code[1] == 0xFF
    requires ShapeOf(d) in {Bare, OneReg, RegReg}
    ensures Encodes(d, tokens, i, symbols, code)
  {
    hide NumberAt, MemAt, RegisterAt, CommaAt, LittleBytes, PutAt;
  }

  lemma NumbersEncode(d: InstrDef, tokens: seq<Token>, i: nat, symbols: seq<Symbol>, code: seq<Byte>)
    requires Consistent(d) && |code| == 10 && code[0] == Pack(d.icode, d.ifun) && code[1] == 0xFF
    requires ShapeOf(d) in {ImmReg, Dest, Data}
    ensures Encodes(d, tokens, i, symbols, code)
  {
    hide NumberAt, MemAt, RegisterAt, CommaAt, LittleBytes;
  }

  lemma PutWord(code: seq<Byte>, v: int)
    requires |code| == 10
    ensures PutAt(code, 2, v, 8) == [code[0], code[1]] + LittleBytes(v, 8)
  {
    hide LittleBytes;
    assert code[..2] == [code[0], code[1]] && code[10..] == [];
  }

  lemma BothNibbles(r: Nibble, base: Nibble)
    ensures SetNibble(SetNibble(0xFF, true, r), false, base) == Pack(r, base)
    ensures SetNibble(SetNibble(0xFF, false, base), true, r) == Pack(r, base)
  {
  }

  /** A register and a memory operand, in either order, fill the second byte and the rest of the buffer. */
  lemma MemoryCode(first: Byte, code: seq<Byte>, r: Nibble, m: MemOperand)
    requires |code| == 10 && code[0] == first && code[1] == 0xFF
    ensures var regs := code[1 := SetNibble(code[1], true, r)];
            PutAt(regs[1 := SetNibble(regs[1], false, m.base)], 2, m.disp, 8)
            == [first, Pack(r, m.base)] + LittleBytes(m.disp, 8)
    ensures var mem := PutAt(code[1 := SetNibble(code[1], false, m.base)], 2, m.disp, 8);
            mem[1 := SetNibble(mem[1], true, r)] == [first, Pack(r, m.base)] + LittleBytes(m.disp, 8)
  {
    hide LittleBytes, PutAt, SetNibble, Pack;
    BothNibbles(r, m.base);
    var regs := code[1 := SetNibble(code[1], true, r)];
    PutWord(regs[1 := SetNibble(regs[1], false, m.base)], m.disp);
    PutWord(code[1 := SetNibble(code[1], false, m.base)], m.disp);
  }

  lemma RegMemEncodes(d: InstrDef, tokens: seq<Token>, i: nat, symbols: seq<Symbol>, code: seq<Byte>)
    requires Consistent(d) && |code| == 10 && code[0] == Pack(d.icode, d.ifun) && code[1] == 0xFF
    requires ShapeOf(d) == RegMem
    ensures Encodes(d, tokens, i, symbols, code)
  {
    hide NumberAt, MemAt, RegisterAt, CommaAt, LittleBytes, PutAt, SetNibble;
    if RegisterAt(tokens, i).Some? && MemAt(tokens, i + 2, symbols).Some? {
      MemoryCode(Pack(d.icode, d.ifun), code, RegisterAt(tokens, i).value, MemAt(tokens, i + 2, symbols).value);
    }
  }

  lemma MemRegEncodes(d: InstrDef, tokens: seq<Token>, i: nat, symbols: seq<Symbol>, code: seq<Byte>)
    requires Consistent(d) && |code| == 10 && code[0] == Pack(d.icode, d.ifun) && code[1] == 0xFF
    requires ShapeOf(d) == MemReg
    ensures Encodes(d, tokens, i, symbols, code)
  {
    hide NumberAt, MemAt, RegisterAt, CommaAt, LittleBytes, PutAt, SetNibble;
    var m := MemAt(tokens, i, symbols);
    if m.Some? && RegisterAt(tokens, m.value.next + 1).Some? {
      MemoryCode(Pack(d.icode, d.ifun), code, RegisterAt(tokens, m.value.next + 1).value, m.value);
    }
  }

  /** TAKING THE ARGUMENTS ENCODES THE OPERANDS: the generic walk over the tokens fails exactly when they are not operands
      of the instruction's form, and otherwise leaves the instruction's code in the buffer. */
  lemma ArgsEncode(d: InstrDef, tokens: seq<Token>, i: nat, symbols: seq<Symbol>, code: seq<Byte>)
    requires Consistent(d) && |code| == 10 && code[0] == Pack(d.icode, d.ifun) && code[1] == 0xFF
    ensures Encodes(d, tokens, i, symbols, code)
  {
    hide Consistent, Encodes;
    match ShapeOf(d)
    case RegMem => RegMemEncodes(d, tokens, i, symbols, code);
    case MemReg => MemRegEncodes(d, tokens, i, symbols, code);
    case ImmReg => NumbersEncode(d, tokens, i, symbols, code);
    case Dest => NumbersEncode(d, tokens, i, symbols, code);
    case Data => NumbersEncode(d, tokens, i, symbols, code);
    case _ => RegistersEncode(d, tokens, i, symbols, code);
  }
}
