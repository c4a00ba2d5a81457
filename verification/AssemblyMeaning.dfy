/** What a line of assembly is: the bytes of every mnemonic, where the next line goes, and where control goes. */
module AssemblyMeaning {
  import Arith
  import opened Words
  import opened Memory
  import opened Isa
  import opened IsaTrace
  import opened IsaMeaning
  import opened YoText
  import opened Yas
  import opened Assembler
  import opened AssemblerCorrect

  // ---- registers

  /** What tells the names apart. */
  function Signature(name: string): int
    requires |name| >= 3
  {
    name[1] as int + 256 * name[2] as int + 65536 * (if |name| > 3 then name[3] as int else 0)
  }

  lemma Distinct(j: nat, n: nat)
    requires j < n < 15
    ensures REG_NAMES[j] != REG_NAMES[n]
  {
    var a, b := REG_NAMES[j], REG_NAMES[n];
    assert Signature(a) != Signature(b);
  }

  lemma {:induction false} FoundAt(i: nat, n: nat)
    requires i <= n < 15
    ensures RegisterFrom(REG_NAMES[n], i) == n
    decreases n - i
  {
    if i < n {
      Distinct(i, n);
      FoundAt(i + 1, n);
    }
  }

  /** The names of the registers in the order of their numbers. %rsp has the number that the stack instructions use. */
  lemma RegisterNumbers()
    ensures RegisterFrom("%rax", 0) == 0 && RegisterFrom("%rcx", 0) == 1 && RegisterFrom("%rdx", 0) == 2
    ensures RegisterFrom("%rbx", 0) == 3 && RegisterFrom("%rsp", 0) == 4 && RegisterFrom("%rbp", 0) == 5
    ensures RegisterFrom("%rsi", 0) == 6 && RegisterFrom("%rdi", 0) == 7 && RegisterFrom("%r8", 0) == 8
    ensures RegisterFrom("%r9", 0) == 9 && RegisterFrom("%r10", 0) == 10 && RegisterFrom("%r11", 0) == 11
    ensures RegisterFrom("%r12", 0) == 12 && RegisterFrom("%r13", 0) == 13 && RegisterFrom("%r14", 0) == 14
  {
    hide RegisterFrom;
    FoundAt(0, 0);
    FoundAt(0, 1);
    FoundAt(0, 2);
    FoundAt(0, 3);
    FoundAt(0, 4);
    FoundAt(0, 5);
    FoundAt(0, 6);
    FoundAt(0, 7);
    FoundAt(0, 8);
    FoundAt(0, 9);
    FoundAt(0, 10);
    FoundAt(0, 11);
    FoundAt(0, 12);
    FoundAt(0, 13);
    FoundAt(0, 14);
  }

  // ---- the bytes of every mnemonic

  /** Nothing, or a label with its colon. */
  predicate LabelPrefix(p: seq<Token>) { p == [] || (|p| == 2 && p[0].Ident? && p[1] == Punct(':')) }

  lemma TokIn(p: seq<Token>, body: seq<Token>, j: nat)
    ensures Tok(p + body, |p| + j) == Tok(body, j)
  {
  }

  /** A line with the mnemonic of d lies where it starts and leads on by the size of d. */
  lemma LayoutOfLine(p: seq<Token>, body: seq<Token>, name: string, pos: int, d: InstrDef)
    requires LabelPrefix(p) && body != [] && body[0] == Instr(name) && FindInstr(name) == Some(d)
    requires name != ".pos" && name != ".align"
    ensures LayoutOf(p + body, pos) == Placed(|p|, pos, pos + d.bytes, Some(d))
  {
    hide FindInstr;
    TokIn(p, body, 0);
  }

  /** The code of a line is that of its mnemonic with the operands behind it. */
  lemma CodeOfLine(p: seq<Token>, body: seq<Token>, name: string, pos: int, symbols: seq<Symbol>, d: InstrDef, o: Operands)
    requires LabelPrefix(p) && body != [] && body[0] == Instr(name) && FindInstr(name) == Some(d)
    requires name != ".pos" && name != ".align"
    requires OperandsAt(ShapeOf(d), p + body, |p| + 1, symbols) == Some(o)
    ensures CodeOf(p + body, pos, symbols) == Some(Image(d, o))
  {
    hide FindInstr, LayoutOf, OperandsAt, Image;
    LayoutOfLine(p, body, name, pos, d);
  }

  const BARE: map<string, Byte> := map["halt" := 0x00, "nop" := 0x10, "ret" := 0x90]

  const REG_REG: map<string, Byte> :=
    map["rrmovq" := 0x20, "cmovle" := 0x21, "cmovl" := 0x22, "cmove" := 0x23, "cmovne" := 0x24, "cmovge" := 0x25,
        "cmovg" := 0x26, "addq" := 0x60, "subq" := 0x61, "andq" := 0x62, "xorq" := 0x63]

  const ONE_REG: map<string, Byte> := map["pushq" := 0xA0, "popq" := 0xB0]

  const IMM_REG: map<string, Byte> := map["irmovq" := 0x30, "iaddq" := 0xC0]

  const DEST: map<string, Byte> :=
    map["jmp" := 0x70, "jle" := 0x71, "jl" := 0x72, "je" := 0x73, "jne" := 0x74, "jge" := 0x75, "jg" := 0x76, "call" := 0x80]

  const DATA: map<string, nat> := map[".byte" := 1, ".word" := 2, ".long" := 4, ".quad" := 8]

  /** `halt`, `nop`, `ret`; `pop2` has no code. */
  lemma BareCode(p: seq<Token>, name: string, pos: int, symbols: seq<Symbol>)
    requires LabelPrefix(p)
    ensures name in BARE ==> CodeOf(p + [Instr(name)], pos, symbols) == Some([BARE[name]])
    ensures name == "pop2" ==> CodeOf(p + [Instr(name)], pos, symbols) == Some([])
  {
    hide CodeOf;
    if name in BARE || name == "pop2" {
      var d := FindInstr(name).value;
      CodeOfLine(p, [Instr(name)], name, pos, symbols, d, Operands(REG_NONE, REG_NONE, 0));
    }
  }

  /** `addq rA, rB` and its like: the first register is in the upper half of the second byte. */
  lemma RegRegCode(p: seq<Token>, name: string, a: string, b: string, pos: int, symbols: seq<Symbol>)
    requires LabelPrefix(p) && name in REG_REG
    ensures CodeOf(p + [Instr(name), Reg(a), Punct(','), Reg(b)], pos, symbols)
         == Some([REG_REG[name], Pack(RegisterFrom(a, 0), RegisterFrom(b, 0))])
  {
    hide CodeOf, RegisterFrom;
    var body := [Instr(name), Reg(a), Punct(','), Reg(b)];
    var d := FindInstr(name).value;
    TokIn(p, body, 1);
    TokIn(p, body, 2);
    TokIn(p, body, 3);
    RegRegTable(name);
    CodeOfLine(p, body, name, pos, symbols, d, Operands(RegisterFrom(a, 0), RegisterFrom(b, 0), 0));
    TwoBytes(Pack(d.icode, d.ifun), Pack(RegisterFrom(a, 0), RegisterFrom(b, 0)));
  }

  lemma TwoBytes(a: Byte, b: Byte)
    ensures [a] + [b] == [a, b]
  {
  }

  lemma RegRegTable(name: string)
    requires name in REG_REG
    ensures FindInstr(name).Some?
    ensures var d := FindInstr(name).value; ShapeOf(d) == RegReg && Pack(d.icode, d.ifun) == REG_REG[name]
    ensures name != ".pos" && name != ".align"
  {
  }

  /** `pushq` and `popq`: the lower half of the second byte says that there is no other register. */
  lemma OneRegCode(p: seq<Token>, name: string, a: string, pos: int, symbols: seq<Symbol>)
    requires LabelPrefix(p) && name in ONE_REG
    ensures CodeOf(p + [Instr(name), Reg(a)], pos, symbols) == Some([ONE_REG[name], Pack(RegisterFrom(a, 0), 15)])
  {
    hide CodeOf, RegisterFrom;
    var body := [Instr(name), Reg(a)];
    var d := FindInstr(name).value;
    TokIn(p, body, 1);
    CodeOfLine(p, body, name, pos, symbols, d, Operands(RegisterFrom(a, 0), REG_NONE, 0));
    TwoBytes(Pack(d.icode, d.ifun), Pack(RegisterFrom(a, 0), 15));
  }

  /** A number, or a label with its address. */
  predicate Denotes(x: Token, symbols: seq<Symbol>, v: int) {
    (x.Num? && x.ival == v) || (x.Ident? && Lookup(symbols, x.name) == Some(v))
  }

  /** `irmovq V, rB` and `iaddq V, rB` */
  lemma ImmRegCode(p: seq<Token>, name: string, x: Token, v: int, b: string, pos: int, symbols: seq<Symbol>)
    requires LabelPrefix(p) && name in IMM_REG && IsWord(v) && Denotes(x, symbols, v)
    ensures CodeOf(p + [Instr(name), x, Punct(','), Reg(b)], pos, symbols)
         == Some([IMM_REG[name], Pack(15, RegisterFrom(b, 0))] + LittleBytes(v, 8))
  {
    hide CodeOf, RegisterFrom, LittleBytes, Lookup;
    var body := [Instr(name), x, Punct(','), Reg(b)];
    var d := FindInstr(name).value;
    TokIn(p, body, 1);
    TokIn(p, body, 2);
    TokIn(p, body, 3);
    CodeOfLine(p, body, name, pos, symbols, d, Operands(REG_NONE, RegisterFrom(b, 0), v));
    Joined(Pack(d.icode, d.ifun), Pack(15, RegisterFrom(b, 0)), LittleBytes(v, 8));
  }

  lemma Joined(a: Byte, b: Byte, c: seq<Byte>)
    ensures [a] + [b] + c == [a, b] + c
  {
  }

  /** `jmp`, the conditional jumps and `call` */
  lemma DestCode(p: seq<Token>, name: string, x: Token, v: int, pos: int, symbols: seq<Symbol>)
    requires LabelPrefix(p) && name in DEST && IsWord(v) && Denotes(x, symbols, v)
    ensures CodeOf(p + [Instr(name), x], pos, symbols) == Some([DEST[name]] + LittleBytes(v, 8))
  {
    hide CodeOf, LittleBytes, Lookup;
    var body := [Instr(name), x];
    DestTable(name);
    var d := FindInstr(name).value;
    TokIn(p, body, 1);
    CodeOfLine(p, body, name, pos, symbols, d, Operands(REG_NONE, REG_NONE, v));
  }

  lemma DestTable(name: string)
    requires name in DEST
    ensures FindInstr(name).Some?
    ensures var d := FindInstr(name).value; ShapeOf(d) == Dest && Pack(d.icode, d.ifun) == DEST[name]
    ensures name != ".pos" && name != ".align"
  {
  }

  /** The tokens of a memory operand: a displacement, a register in parentheses, or both. */
  function MemTokens(x: Option<Token>, base: Option<string>): seq<Token> {
    (if x.Some? then [x.value] else [])
    + if base.Some? then [Punct('('), Reg(base.value), Punct(')')] else []
  }

  function BaseOf(base: Option<string>): Nibble { if base.Some? then RegisterFrom(base.value, 0) else 15 }

  /** What a memory operand stands for, wherever it stands. */
  lemma MemOperandTold(tokens: seq<Token>, i: nat, symbols: seq<Symbol>, x: Option<Token>, v: int, base: Option<string>)
    requires x.Some? || base.Some?
    requires if x.Some? then Denotes(x.value, symbols, v) && IsWord(v) else v == 0
    requires forall j: nat :: j < |MemTokens(x, base)| ==> Tok(tokens, i + j) == MemTokens(x, base)[j]
    requires base.None? ==> Tok(tokens, i + 1) != Punct('(')
    ensures MemAt(tokens, i, symbols) == Some(MemOperand(v, BaseOf(base), i + |MemTokens(x, base)|))
  {
    hide RegisterFrom, Lookup;
    var ts := MemTokens(x, base);
    assert Tok(tokens, i) == ts[0];
    if base.Some? {
      var k := if x.Some? then 1 else 0;
      assert ts[k] == Punct('(') && ts[k + 1] == Reg(base.value) && ts[k + 2] == Punct(')');
      assert Tok(tokens, i + k) == ts[k] && Tok(tokens, i + (k + 1)) == ts[k + 1] && Tok(tokens, i + (k + 2)) == ts[k + 2];
    }
  }

  /** `rmmovq rA, D(rB)` */
  lemma StoreCode(p: seq<Token>, a: string, x: Option<Token>, v: int, base: Option<string>, pos: int, symbols: seq<Symbol>)
    requires LabelPrefix(p) && (x.Some? || base.Some?)
    requires if x.Some? then Denotes(x.value, symbols, v) && IsWord(v) else v == 0
    ensures CodeOf(p + ([Instr("rmmovq"), Reg(a), Punct(',')] + MemTokens(x, base)), pos, symbols)
         == Some([0x40, Pack(RegisterFrom(a, 0), BaseOf(base))] + LittleBytes(v, 8))
  {
    hide CodeOf, RegisterFrom, LittleBytes, Lookup, MemTokens, BaseOf, MemAt;
    var body := [Instr("rmmovq"), Reg(a), Punct(',')] + MemTokens(x, base);
    var tokens := p + body;
    var d := FindInstr("rmmovq").value;
    TokIn(p, body, 1);
    TokIn(p, body, 2);
    MemLength(x, base);
    forall j: nat | j < |MemTokens(x, base)|
      ensures Tok(tokens, |p| + 3 + j) == MemTokens(x, base)[j]
    {
      TokIn(p, body, 3 + j);
    }
    TokIn(p, body, 4);
    MemOperandTold(tokens, |p| + 3, symbols, x, v, base);
    CodeOfLine(p, body, "rmmovq", pos, symbols, d, Operands(RegisterFrom(a, 0), BaseOf(base), v));
    Joined(Pack(d.icode, d.ifun), Pack(RegisterFrom(a, 0), BaseOf(base)), LittleBytes(v, 8));
  }

  lemma MemLength(x: Option<Token>, base: Option<string>)
    requires x.Some? || base.Some?
    ensures |MemTokens(x, base)| == (if x.Some? then 1 else 0) + if base.Some? then 3 else 0
  {
  }

  /** `mrmovq D(rB), rA` */
  lemma LoadCode(p: seq<Token>, a: string, x: Option<Token>, v: int, base: Option<string>, pos: int, symbols: seq<Symbol>)
    requires LabelPrefix(p) && (x.Some? || base.Some?)
    requires if x.Some? then Denotes(x.value, symbols, v) && IsWord(v) else v == 0
    ensures CodeOf(p + ([Instr("mrmovq")] + MemTokens(x, base) + [Punct(','), Reg(a)]), pos, symbols)
         == Some([0x50, Pack(RegisterFrom(a, 0), BaseOf(base))] + LittleBytes(v, 8))
  {
    hide CodeOf, RegisterFrom, LittleBytes, Lookup, MemTokens, BaseOf, MemAt;
    var mem := MemTokens(x, base);
    var body := [Instr("mrmovq")] + mem + [Punct(','), Reg(a)];
    var tokens := p + body;
    var d := FindInstr("mrmovq").value;
    MemLength(x, base);
    forall j: nat | j < |mem|
      ensures Tok(tokens, |p| + 1 + j) == mem[j]
    {
      TokIn(p, body, 1 + j);
    }
    TokIn(p, body, 1 + |mem|);
    TokIn(p, body, 2 + |mem|);
    MemOperandTold(tokens, |p| + 1, symbols, x, v, base);
    CodeOfLine(p, body, "mrmovq", pos, symbols, d, Operands(RegisterFrom(a, 0), BaseOf(base), v));
    Joined(Pack(d.icode, d.ifun), Pack(RegisterFrom(a, 0), BaseOf(base)), LittleBytes(v, 8));
  }

  /** `.byte`, `.word`, `.long` and `.quad` store the low 1, 2, 4 and 8 bytes, the least significant first. */
  lemma DataCode(p: seq<Token>, name: string, x: Token, v: int, pos: int, symbols: seq<Symbol>)
    requires LabelPrefix(p) && name in DATA && IsWord(v) && Denotes(x, symbols, v)
    ensures CodeOf(p + [Instr(name), x], pos, symbols) == Some(LittleBytes(v, DATA[name]))
  {
    hide CodeOf, LittleBytes, Lookup;
    var body := [Instr(name), x];
    var d := FindInstr(name).value;
    TokIn(p, body, 1);
    CodeOfLine(p, body, name, pos, symbols, d, Operands(REG_NONE, REG_NONE, v));
  }

  /** Division by 256 takes off one digit. */
  lemma ByteOff(v: int, p: int)
    requires p > 0
    ensures v / (256 * p) == v / 256 / p
  {
    var y := v / 256;
    var q, r := y / p, y % p;
    assert v == (256 * p) * q + (256 * r + v % 256);
    Arith.Quotient(v, 256 * p, q, 256 * r + v % 256);
  }

  /** The bytes of a number, least significant first. */
  lemma {:induction false} BytesOfNumber(v: int, n: nat, k: nat)
    requires k < n
    ensures LittleBytes(v, n)[k] == v / Pow256(k) % 256
    decreases n
  {
    if k > 0 {
      BytesOfNumber(v / 256, n - 1, k - 1);
      ByteOff(v, Pow256(k - 1));
    }
  }

  // ---- where the next line goes

  /** Where the mnemonic of a line is, behind its label if it has one. */
  function Mnemonic(tokens: seq<Token>): nat { if Labelled(tokens) then 2 else 0 }

  predicate HasDirective(tokens: seq<Token>) {
    var t := Tok(tokens, Mnemonic(tokens));
    t == Instr(".pos") || t == Instr(".align")
  }

  ghost predicate GoodAt(lines: seq<Line>, k: nat)
    requires k < |lines|
  {
    LineGood(lines[k].tokens, PosOf(lines, k), LabelsOf(lines, |lines|))
  }

  /** NO GAPS: a line without `.pos` and `.align` is shown where it starts, and the next line starts where its code ends. */
  lemma NextLine(lines: seq<Line>, k: nat)
    requires k < |lines| && GoodAt(lines, k) && !HasDirective(lines[k].tokens)
    ensures lines[k].tokens != [] ==> ShownAt(lines, k) == PosOf(lines, k)
    ensures PosOf(lines, k + 1) == PosOf(lines, k) + |LineCode(lines, k)|
  {
    hide FindInstr, Image, OperandsAt, Consistent;
    var tokens, pos := lines[k].tokens, PosOf(lines, k);
    var l := LayoutOf(tokens, pos);
    LayoutConsistent(tokens, pos);
    if l.Placed? && l.def.Some? {
      ImageSize(l.def.value, OperandsAt(ShapeOf(l.def.value), tokens, l.at + 1, LabelsOf(lines, |lines|)).value);
    }
  }

  /** x is the 32-bit number in the low half of v. */
  predicate LowHalf(v: Word, x: int) {
    -0x8000_0000 <= x < 0x8000_0000 && (v - x) % 0x1_0000_0000 == 0
  }

  lemma PosLayout(t: seq<Token>, v: Word, pos: int)
    requires Tok(t, Mnemonic(t)) == Instr(".pos") && Tok(t, Mnemonic(t) + 1) == Num(v)
    ensures LayoutOf(t, pos) == Placed(Mnemonic(t), ToInt(v), ToInt(v), None)
  {
    hide FindInstr;
  }

  lemma AlignLayout(t: seq<Token>, v: Word, pos: int)
    requires Tok(t, Mnemonic(t)) == Instr(".align") && Tok(t, Mnemonic(t) + 1) == Num(v)
    ensures var a := ToInt(v);
            LayoutOf(t, pos) == if a <= 0 then Faulty
                                else Placed(Mnemonic(t), TruncDiv(pos + a - 1, a) * a, TruncDiv(pos + a - 1, a) * a, None)
  {
    hide FindInstr, TruncDiv;
  }

  /** What a line whose layout has no instruction is. */
  lemma WithoutCode(lines: seq<Line>, k: nat)
    requires k < |lines|
    ensures match LayoutOf(lines[k].tokens, PosOf(lines, k))
            case Placed(_, shown, next, None) =>
              PosOf(lines, k + 1) == next && ShownAt(lines, k) == shown && LineCode(lines, k) == []
            case Faulty => !GoodAt(lines, k)
            case _ => true
  {
    hide LayoutOf;
  }

  /** After `.pos v` the next line starts at v, cut down to 32 bits. */
  lemma PosLine(lines: seq<Line>, k: nat, v: Word)
    requires k < |lines| && GoodAt(lines, k)
    requires var t := lines[k].tokens; Tok(t, Mnemonic(t)) == Instr(".pos") && Tok(t, Mnemonic(t) + 1) == Num(v)
    ensures LowHalf(v, PosOf(lines, k + 1)) && ShownAt(lines, k) == PosOf(lines, k + 1) && LineCode(lines, k) == []
  {
    hide LayoutOf, PosOf, ShownAt, LineCode, GoodAt;
    PosLayout(lines[k].tokens, v, PosOf(lines, k));
    WithoutCode(lines, k);
  }

  /** After `.align a` the next line starts at the least multiple of a that is no smaller than the address, for addresses
      from 0 on; far below, at the least multiple that is no smaller than the address plus a - 1. */
  lemma AlignLine(lines: seq<Line>, k: nat, v: Word, a: int)
    requires k < |lines| && GoodAt(lines, k) && LowHalf(v, a)
    requires var t := lines[k].tokens; Tok(t, Mnemonic(t)) == Instr(".align") && Tok(t, Mnemonic(t) + 1) == Num(v)
    ensures a > 0 && PosOf(lines, k + 1) % a == 0 && ShownAt(lines, k) == PosOf(lines, k + 1) && LineCode(lines, k) == []
    ensures var low := if PosOf(lines, k) + a > 0 then PosOf(lines, k) else PosOf(lines, k) + a - 1;
            low <= PosOf(lines, k + 1) < low + a
  {
    hide LayoutOf, PosOf, ShownAt, LineCode, GoodAt, TruncDiv;
    AlignLayout(lines[k].tokens, v, PosOf(lines, k));
    WithoutCode(lines, k);
    LowHalfIs(v, a);
    RoundsUp(PosOf(lines, k), a);
  }

  lemma LowHalfIs(v: Word, a: int)
    requires LowHalf(v, a)
    ensures ToInt(v) == a
  {
  }

  lemma RoundsUp(pos: int, a: int)
    requires a > 0
    ensures var low := if pos + a > 0 then pos else pos + a - 1;
            low <= TruncDiv(pos + a - 1, a) * a < low + a
    ensures (TruncDiv(pos + a - 1, a) * a) % a == 0
  {
    var x := pos + a - 1;
    Arith.Multiple(TruncDiv(x, a), a);
    if x >= 0 {
      assert x == a * (x / a) + x % a;
    } else {
      assert -x == a * (-x / a) + -x % a;
    }
  }

  /** Lines without directives and without code take no room. */
  lemma {:induction false} EmptyLines(lines: seq<Line>, k: nat, j: nat)
    requires k <= j < |lines| && forall i :: k <= i < j ==> GoodAt(lines, i) && LineCode(lines, i) == []
    requires forall i :: k <= i < j ==> !HasDirective(lines[i].tokens)
    ensures PosOf(lines, j) == PosOf(lines, k)
    decreases j - k
  {
    hide PosOf, LineCode, GoodAt, HasDirective;
    if k < j {
      NextLine(lines, k);
      EmptyLines(lines, k + 1, j);
    }
  }

  /** The next line with code begins where the code of line k ends. */
  lemma NextCode(lines: seq<Line>, k: nat, j: nat)
    requires k < j < |lines| && forall i :: k <= i <= j ==> GoodAt(lines, i) && !HasDirective(lines[i].tokens)
    requires forall i :: k < i < j ==> LineCode(lines, i) == []
    requires lines[k].tokens != [] && lines[j].tokens != []
    ensures ShownAt(lines, j) == ShownAt(lines, k) + |LineCode(lines, k)|
  {
    hide PosOf, LineCode, GoodAt, HasDirective, ShownAt;
    NextLine(lines, k);
    EmptyLines(lines, k + 1, j);
    NextLine(lines, j);
  }

  // ---- the listing

  /** Behind the bar, every line of the listing repeats the line of the source; in front of it, a line without tokens has
      nothing. */
  lemma ListingTold(line: Line, pos: int, symbols: seq<Symbol>)
    requires LineGood(line.tokens, pos, symbols)
    ensures var l, s := LayoutOf(line.tokens, pos), Printed(line, pos, symbols);
            var bar := if (if l.Placed? then l.shown else pos) > 0xFFF then 29 else 28;
            && |s| >= bar && s[bar..] == "| " + line.text + "\n"
            && (line.tokens == [] ==> forall i :: 0 <= i < bar ==> s[i] == ' ')
  {
    hide YoLine, LayoutFrom;
    var text := line.text + "\n";
    Joins("| ", line.text, "\n");
    match LayoutOf(line.tokens, pos)
    case NoTokens =>
      var n := if pos > 0xFFF then 29 else 28;
      Cut(Spaces(n), "| " + text);
      forall i | 0 <= i < n
        ensures Spaces(n)[i] == ' '
      {
        AllSpaces(n, i);
      }
    case Placed(_, shown, _, _) =>
      CodeFits(line.tokens, pos, symbols);
      var code := CodeOf(line.tokens, pos, symbols).value;
      if shown > 0xFFF {
        WideColumnsTold(shown, code, text);
      } else {
        ColumnsTold(shown, code, text);
      }
  }

  lemma Joins(a: string, b: string, c: string)
    ensures a + (b + c) == a + b + c
  {
  }

  // ---- which lines are in error

  /** The first symbol of the name counts. */
  lemma {:induction false} LookupFirst(symbols: seq<Symbol>, name: string, j: nat)
    requires j < |symbols| && symbols[j].name == name && forall i :: 0 <= i < j ==> symbols[i].name != name
    ensures Lookup(symbols, name) == Some(symbols[j].pos)
    decreases j
  {
    if j > 0 {
      LookupFirst(symbols[1..], name, j - 1);
    }
  }

  lemma {:induction false} LookupNone(symbols: seq<Symbol>, name: string)
    requires forall i :: 0 <= i < |symbols| ==> symbols[i].name != name
    ensures Lookup(symbols, name) == None
  {
    if symbols != [] {
      LookupNone(symbols[1..], name);
    }
  }

  /** The form that belongs to a mnemonic. */
  function FormOf(name: string): Option<Shape> {
    match name
    case "halt" | "nop" | "ret" | "pop2" => Some(Bare)
    case "pushq" | "popq" => Some(OneReg)
    case "rrmovq" | "cmovle" | "cmovl" | "cmove" | "cmovne" | "cmovge" | "cmovg" => Some(RegReg)
    case "addq" | "subq" | "andq" | "xorq" => Some(RegReg)
    case "irmovq" | "iaddq" => Some(ImmReg)
    case "rmmovq" => Some(RegMem)
    case "mrmovq" => Some(MemReg)
    case "jmp" | "jle" | "jl" | "je" | "jne" | "jge" | "jg" | "call" => Some(Dest)
    case ".byte" | ".word" | ".long" | ".quad" => Some(Data)
    case _ => None
  }

  lemma FormsKnown(name: string)
    ensures FindInstr(name).Some? <==> FormOf(name).Some?
    ensures FindInstr(name).Some? ==> FormOf(name) == Some(ShapeOf(FindInstr(name).value))
    ensures FindInstr(name).Some? ==> name != ".pos" && name != ".align"
  {
  }

  /** Lines that are in error whatever the labels are. */
  ghost predicate Malformed(t: seq<Token>) {
    var i := Mnemonic(t);
    var x, y := Tok(t, i), Tok(t, i + 1);
    if t == [] || (Labelled(t) && |t| == 2) then false
    else if !x.Instr? then true
    else if x.name == ".pos" then !y.Num?
    else if x.name == ".align" then !y.Num? || exists a :: LowHalf(y.ival, a) && a <= 0
    else FormOf(x.name).None?
  }

  lemma LowHalfExists(v: Word)
    ensures LowHalf(v, ToInt(v))
  {
  }

  /** The layout of a line is faulty exactly if the line is malformed. */
  lemma FaultyIfMalformed(t: seq<Token>, pos: int)
    ensures LayoutOf(t, pos).Faulty? <==> Malformed(t)
  {
    hide FindInstr, FormOf, LowHalf, ToInt, TruncDiv;
    var y := Tok(t, Mnemonic(t) + 1);
    if y.Num? {
      LowHalfExists(y.ival);
      forall a | LowHalf(y.ival, a)
        ensures a == ToInt(y.ival)
      {
        LowHalfIs(y.ival, a);
      }
    }
    if Tok(t, Mnemonic(t)).Instr? {
      FormsKnown(Tok(t, Mnemonic(t)).name);
    }
  }

  /** A token that can be a number. */
  predicate Numeric(x: Token, symbols: seq<Symbol>) {
    x.Num? || (x.Ident? && exists j :: 0 <= j < |symbols| && symbols[j].name == x.name)
  }

  lemma NumericAt(t: seq<Token>, i: nat, symbols: seq<Symbol>)
    ensures NumberAt(t, i, symbols).Some? <==> Numeric(Tok(t, i), symbols)
  {
    hide Lookup;
    var x := Tok(t, i);
    if x.Ident? {
      if Numeric(x, symbols) {
        var j := FirstNamed(symbols, x.name);
        LookupFirst(symbols, x.name, j);
      } else {
        LookupNone(symbols, x.name);
      }
    }
  }

  lemma {:induction false} FirstNamed(symbols: seq<Symbol>, name: string) returns (j: nat)
    requires exists i :: 0 <= i < |symbols| && symbols[i].name == name
    ensures j < |symbols| && symbols[j].name == name && forall i :: 0 <= i < j ==> symbols[i].name != name
  {
    if symbols[0].name == name {
      j := 0;
    } else {
      var rest := FirstNamed(symbols[1..], name);
      j := rest + 1;
      forall i | 0 <= i < j
        ensures symbols[i].name != name
      {
        assert i > 0 ==> symbols[i] == symbols[1..][i - 1];
      }
    }
  }

  /** A memory operand: no displacement or a numeric one, and behind a parenthesis a register and the other one. */
  predicate MemoryOperand(t: seq<Token>, i: nat, symbols: seq<Symbol>) {
    var j := if Tok(t, i).Num? || Tok(t, i).Ident? then i + 1 else i;
    && (j == i || Numeric(Tok(t, i), symbols))
    && (Tok(t, j) == Punct('(') ==> Tok(t, j + 1).Reg? && Tok(t, j + 2) == Punct(')'))
  }

  lemma MemoryAt(t: seq<Token>, i: nat, symbols: seq<Symbol>)
    ensures MemAt(t, i, symbols).Some? <==> MemoryOperand(t, i, symbols)
    ensures MemAt(t, i, symbols).Some? ==> MemAt(t, i, symbols).value.next == i + MemoryLength(t, i)
  {
    hide NumberAt, Numeric;
    NumericAt(t, i, symbols);
  }

  /** How many tokens a memory operand has. */
  function MemoryLength(t: seq<Token>, i: nat): nat {
    var j := if Tok(t, i).Num? || Tok(t, i).Ident? then 1 else 0;
    if Tok(t, i + j) == Punct('(') then j + 3 else j
  }

  /** The operands that a mnemonic needs are there, with a comma between two. What follows them does not matter. */
  predicate HasOperands(t: seq<Token>, symbols: seq<Symbol>) {
    var i := Mnemonic(t);
    var a, comma, b := Tok(t, i + 1), Tok(t, i + 2) == Punct(','), Tok(t, i + 3);
    match if Tok(t, i).Instr? then FormOf(Tok(t, i).name) else None
    case Some(OneReg) => a.Reg?
    case Some(RegReg) => a.Reg? && comma && b.Reg?
    case Some(ImmReg) => Numeric(a, symbols) && comma && b.Reg?
    case Some(RegMem) => a.Reg? && comma && MemoryOperand(t, i + 3, symbols)
    case Some(MemReg) =>
      var n := i + 1 + MemoryLength(t, i + 1);
      MemoryOperand(t, i + 1, symbols) && Tok(t, n) == Punct(',') && Tok(t, n + 1).Reg?
    case Some(Dest) => Numeric(a, symbols)
    case Some(Data) => Numeric(a, symbols)
    case _ => true
  }

  /** WHICH LINES ASSEMBLE: exactly those that are not malformed and have the operands that their mnemonic needs. */
  lemma Assembles(t: seq<Token>, pos: int, symbols: seq<Symbol>)
    ensures CodeOf(t, pos, symbols).Some? <==> !Malformed(t) && HasOperands(t, symbols)
  {
    hide FindInstr, FormOf, Malformed, ShapeOf, MemAt, MemoryOperand, NumberAt, Numeric, Image, ToInt, TruncDiv;
    hide Lookup, RegisterFrom, MemoryLength;
    var i := Mnemonic(t);
    FaultyIfMalformed(t, pos);
    NumericAt(t, i + 1, symbols);
    MemoryAt(t, i + 1, symbols);
    MemoryAt(t, i + 3, symbols);
    if Tok(t, i).Instr? {
      FormsKnown(Tok(t, i).name);
    }
  }

  // ---- running what was written

  /** The source assembled without error, its output was loaded, and the processor is at line k. */
  ghost predicate RunsAt(lines: seq<Line>, output: seq<string>, m: Mem, k: nat, s: State)
    requires k < |lines|
  {
    && PrintedAll(lines, |lines|, LabelsOf(lines, |lines|), output) && NoOverlap(lines, |m|)
    && s.m == Load(m, output).m && s.pc == ShownAt(lines, k)
  }

  lemma AllGoodHere(lines: seq<Line>, output: seq<string>, k: nat)
    requires PrintedAll(lines, |lines|, LabelsOf(lines, |lines|), output) && k < |lines|
    ensures GoodAt(lines, k)
  {
    hide LineGood, Printed, PosOf, LabelsOf;
    assert |output| == |lines|;
    var shown := output[k];
  }

  /** The code of the line lies at the pc. */
  lemma LineAtPc(lines: seq<Line>, output: seq<string>, m: Mem, k: nat, s: State)
    requires k < |lines| && RunsAt(lines, output, m, k, s)
    ensures AtPc(s, LineCode(lines, k))
  {
    hide Load, NoOverlap, PrintedAll, ShownAt, LineCode;
    AllPrinted(lines, output);
    LoadsLines(m, lines, output, |lines|);
    assert output[..|lines|] == output;
    assert CodeThere(s.m, ShownAt(lines, k), LineCode(lines, k));
  }

  /** Code that ends in the bytes of a number has that number as its constant. */
  lemma ConstantPart(s: State, front: seq<Byte>, v: Word)
    requires AtPc(s, front + LittleBytes(v, 8))
    ensures AtPc(s, front) && ConstantAt(s, |front|, v)
  {
    hide GetWord, LittleBytes;
    var code, at := front + LittleBytes(v, 8), s.pc + |front|;
    assert s.m[s.pc..at] == s.m[s.pc..s.pc + |code|][..|front|] == front;
    assert s.m[at..at + 8] == s.m[s.pc..s.pc + |code|][|front|..] == LittleBytes(v, 8);
    WordThere(s.m, at, v);
  }

  /** A register of the table. */
  predicate IsRegister(name: string) { RegisterFrom(name, 0) < 15 }

  /** The source line `andq a, b`, assembled and loaded, leaves in b the product of every two bits: the bytes of a mnemonic
      and the meaning of the bytes fit together. */
  lemma AndqRuns(lines: seq<Line>, output: seq<string>, m: Mem, k: nat, s: State, p: seq<Token>, a: string, b: string)
    requires k < |lines| && RunsAt(lines, output, m, k, s) && LabelPrefix(p) && IsRegister(a) && IsRegister(b)
    requires lines[k].tokens == p + [Instr("andq"), Reg(a), Punct(','), Reg(b)]
    ensures GoesOn(s, 2) && forall j: nat :: j < 64 ==>
      var x, y := s.r[RegisterFrom(a, 0)], s.r[RegisterFrom(b, 0)];
      Bit(Next(s).r[RegisterFrom(b, 0)], j) == Bit(y, j) * Bit(x, j)
  {
    hide RegisterFrom, Bit, AtPc, CodeOf, RunsAt;
    RegRegCode(p, "andq", a, b, PosOf(lines, k), LabelsOf(lines, |lines|));
    LineAtPc(lines, output, m, k, s);
    AndStep(s, RegisterFrom(a, 0), RegisterFrom(b, 0));
  }

  /** A jump or a call that is taken, or a return. */
  predicate GoesElsewhere(s: State, d: InstrDef) {
    (d.icode == 7 && CondHolds(s.cc, d.ifun)) || d.icode == 8 || d.icode == 9
  }

  /** CONTROL FALLS THROUGH: an instruction that completes and does not go elsewhere leaves the processor at the next line
      with code, if no directive is between them. */
  lemma FallsThrough(lines: seq<Line>, output: seq<string>, m: Mem, k: nat, j: nat, d: InstrDef, o: Operands, s: State)
    requires k < j < |lines| && RunsAt(lines, output, m, k, s) && HasInstruction(lines, k, d, o) && IsWord(o.valC)
    requires StepState(s).stat == AOK && !GoesElsewhere(s, d)
    requires forall i :: k < i <= j ==> !HasDirective(lines[i].tokens)
    requires forall i :: k < i < j ==> LineCode(lines, i) == []
    requires lines[j].tokens != []
    ensures Next(s).pc == ShownAt(lines, j)
  {
    hide PrintedAll, NoOverlap, Load, ShownAt, LineCode, Executes, HasInstruction, HasDirective, StepState, GoodAt;
    WrittenIsRun(lines, output, m, k, d, o, s);
    PcAfter(s, d, o);
    InstructionCode(lines, k, d, o);
    ImageSize(d, o);
    NoDirective(lines, k, d, o);
    forall i | k <= i <= j
      ensures GoodAt(lines, i)
    {
      AllGoodHere(lines, output, i);
    }
    NextCode(lines, k, j);
  }

  lemma PcAfter(s: State, d: InstrDef, o: Operands)
    requires Executes(s, d, o) && StepState(s).stat == AOK && !GoesElsewhere(s, d)
    ensures Next(s).pc == s.pc + d.bytes
  {
    hide StepState, CondHolds, ComputeAlu, ComputeCC, GetWord, SetWord, Wrap;
  }

  lemma NoDirective(lines: seq<Line>, k: nat, d: InstrDef, o: Operands)
    requires k < |lines| && HasInstruction(lines, k, d, o)
    ensures !HasDirective(lines[k].tokens) && lines[k].tokens != []
  {
    hide FindInstr, OperandsAt, TruncDiv, ToInt;
  }

  /** JUMPS LAND: with distinct labels, a jump that is taken, or a call, to the label of line t leaves the processor where
      line t is shown, unless that line is a directive that moves away. */
  lemma JumpsLand(lines: seq<Line>, output: seq<string>, m: Mem, k: nat, t: nat, d: InstrDef, o: Operands, s: State)
    requires k < |lines| && t < |lines| && RunsAt(lines, output, m, k, s)
    requires HasInstruction(lines, k, d, o) && IsWord(o.valC)
    requires StepState(s).stat == AOK && ((d.icode == 7 && CondHolds(s.cc, d.ifun)) || d.icode == 8)
    requires DistinctLabels(lines) && Labelled(lines[t].tokens) && !MovesAway(lines[t].tokens, PosOf(lines, t))
    requires var x := lines[k].tokens; Tok(x, Mnemonic(x) + 1) == lines[t].tokens[0]
    ensures Next(s).pc == ShownAt(lines, t)
  {
    hide PrintedAll, NoOverlap, Load, ShownAt, Executes, HasInstruction, StepState, GoodAt, DistinctLabels, MovesAway;
    hide Labelled, PosOf, LabelsOf, Lookup;
    WrittenIsRun(lines, output, m, k, d, o, s);
    PcJumped(s, d, o);
    LabelResolves(lines, |lines|, t);
    DestOperand(lines, k, d, o);
    LabelName(lines[t].tokens);
    AllGoodHere(lines, output, t);
    ShownAtStart(lines, t);
  }

  lemma LabelName(tokens: seq<Token>)
    requires Labelled(tokens)
    ensures tokens != [] && tokens[0].Ident?
  {
  }

  lemma PcJumped(s: State, d: InstrDef, o: Operands)
    requires Executes(s, d, o) && StepState(s).stat == AOK && ((d.icode == 7 && CondHolds(s.cc, d.ifun)) || d.icode == 8)
    ensures Next(s).pc == o.valC
  {
    hide StepState, CondHolds, ComputeAlu, ComputeCC, GetWord, SetWord, Wrap;
  }

  /** The number of a jump or call whose operand is a name. */
  lemma DestOperand(lines: seq<Line>, k: nat, d: InstrDef, o: Operands)
    requires k < |lines| && HasInstruction(lines, k, d, o) && (d.icode == 7 || d.icode == 8)
    ensures var x := lines[k].tokens;
            var target := Tok(x, Mnemonic(x) + 1);
            target.Ident? ==> Lookup(LabelsOf(lines, |lines|), target.name) == Some(o.valC)
  {
    hide FindInstr, TruncDiv, ToInt, Lookup, LabelsOf, PosOf;
    LayoutConsistent(lines[k].tokens, PosOf(lines, k));
  }

  lemma ShownAtStart(lines: seq<Line>, t: nat)
    requires t < |lines| && GoodAt(lines, t) && lines[t].tokens != [] && !MovesAway(lines[t].tokens, PosOf(lines, t))
    ensures ShownAt(lines, t) == PosOf(lines, t)
  {
    hide FindInstr, TruncDiv, ToInt, MovesAway, PosOf, LabelsOf, LayoutFrom;
    ShownWhereItStarts(lines[t].tokens, PosOf(lines, t));
  }

  /** The number of bytes loaded is that of all code; it is 0, which the simulators take for no code at all, exactly if no
      line has code. */
  lemma LoadedCount(lines: seq<Line>, output: seq<string>, m: Mem)
    requires PrintedAll(lines, |lines|, LabelsOf(lines, |lines|), output) && NoOverlap(lines, |m|)
    ensures Load(m, output).count == CodeSize(lines, |lines|)
    ensures Load(m, output).count == 0 <==> forall k :: 0 <= k < |lines| ==> LineCode(lines, k) == []
  {
    hide Load, NoOverlap, PrintedAll, ShownAt, LineCode, CodeSize;
    AllPrinted(lines, output);
    LoadsLines(m, lines, output, |lines|);
    assert output[..|lines|] == output;
    CodeSizeZero(lines, |lines|);
  }

  lemma {:induction false} CodeSizeZero(lines: seq<Line>, n: nat)
    requires n <= |lines|
    ensures CodeSize(lines, n) == 0 <==> forall k :: 0 <= k < n ==> LineCode(lines, k) == []
  {
    hide LineCode;
    if n > 0 {
      CodeSizeZero(lines, n - 1);
    }
  }
}
