/** From source lines to running code: what the assembler prints, loaded into memory, is what the processor decodes. */
module AssemblerCorrect {
  import Arith
  import opened Words
  import opened Memory
  import opened Isa
  import opened YoText
  import opened Yas
  import opened Assembler

  // ---- names

  /** What a condition's suffix says about b compared with a. */
  predicate Says(suffix: string, b: int, a: int) {
    match suffix
    case "le" => b <= a
    case "l" => b < a
    case "e" => b == a
    case "ne" => b != a
    case "ge" => b >= a
    case "g" => b > a
    case _ => false
  }

  const SUFFIXES: set<string> := {"le", "l", "e", "ne", "ge", "g"}

  lemma SuffixName(prefix: string, suffix: string)
    requires suffix in SUFFIXES && (prefix == "j" || prefix == "cmov")
    ensures FindInstr(prefix + suffix).Some?
    ensures FindInstr(prefix + suffix).value.icode == if prefix == "j" then I_JMP else I_RRMOVQ
    ensures forall b: Word, a: Word :: SignedCompare(FindInstr(prefix + suffix).value.ifun, b, a) <==> Says(suffix, b, a)
  {
    if prefix == "j" {
      assert "j" + "le" == "jle" && "j" + "l" == "jl" && "j" + "e" == "je" && "j" + "ne" == "jne"
          && "j" + "ge" == "jge" && "j" + "g" == "jg";
    } else {
      assert "cmov" + "le" == "cmovle" && "cmov" + "l" == "cmovl" && "cmov" + "e" == "cmove" && "cmov" + "ne" == "cmovne"
          && "cmov" + "ge" == "cmovge" && "cmov" + "g" == "cmovg";
    }
  }

  /** NAMES MEAN WHAT THEY SAY: after `subq a, b`, a conditional jump or move is taken exactly if b compares with a as its
      name says, for all 64-bit values. */
  lemma ConditionNames(prefix: string, suffix: string, a: Word, b: Word)
    requires suffix in SUFFIXES && (prefix == "j" || prefix == "cmov")
    ensures FindInstr(prefix + suffix).Some? && FindInstr("subq").Some?
    ensures CondHolds(ComputeCC(FindInstr("subq").value.ifun, a, b), FindInstr(prefix + suffix).value.ifun)
            <==> Says(suffix, b, a)
  {
    hide ComputeCC, CondHolds;
    SuffixName(prefix, suffix);
    SubFlagsDecideComparison(a, b, FindInstr(prefix + suffix).value.ifun);
  }

  // ---- labels

  predicate DistinctLabels(lines: seq<Line>) {
    forall i, j :: 0 <= i < j < |lines| && Labelled(lines[i].tokens) && Labelled(lines[j].tokens) ==>
      lines[i].tokens[0] != lines[j].tokens[0]
  }

  lemma {:induction false} LookupAppended(a: seq<Symbol>, b: seq<Symbol>, name: string)
    ensures Lookup(a + b, name) == if Lookup(a, name).Some? then Lookup(a, name) else Lookup(b, name)
  {
    if a == [] {
      assert a + b == b;
    } else {
      assert (a + b)[1..] == a[1..] + b;
      LookupAppended(a[1..], b, name);
    }
  }

  lemma {:induction false} NotYetDefined(lines: seq<Line>, i: nat, name: string)
    requires i <= |lines|
    requires forall j :: 0 <= j < i && Labelled(lines[j].tokens) ==> lines[j].tokens[0].name != name
    ensures Lookup(LabelsOf(lines, i), name) == None
  {
    hide LayoutOf, NextPos, PosOf;
    if i > 0 {
      NotYetDefined(lines, i - 1, name);
      LookupAppended(LabelsOf(lines, i - 1), NewLabel(lines[i - 1].tokens, PosOf(lines, i - 1)), name);
    }
  }

  /** LABELS RESOLVE: with distinct labels, the second pass finds for every label the address at which its line starts. */
  lemma {:induction false} LabelResolves(lines: seq<Line>, n: nat, i: nat)
    requires i < n <= |lines| && DistinctLabels(lines) && Labelled(lines[i].tokens)
    ensures Lookup(LabelsOf(lines, n), lines[i].tokens[0].name) == Some(PosOf(lines, i))
    decreases n
  {
    hide LayoutOf, NextPos, PosOf;
    var name := lines[i].tokens[0].name;
    LookupAppended(LabelsOf(lines, n - 1), NewLabel(lines[n - 1].tokens, PosOf(lines, n - 1)), name);
    if i < n - 1 {
      LabelResolves(lines, n - 1, i);
    } else {
      NotYetDefined(lines, i, name);
    }
  }

  /** The line is a `.pos` for another address, or an `.align` for a multiple that the address is not. Below 0 the division
      rounds the wrong way, and only `.align 1` keeps the address. */
  predicate MovesAway(tokens: seq<Token>, pos: int) {
    var i := if Labelled(tokens) then 2 else 0;
    match Tok(tokens, i + 1)
    case Num(ival) =>
      var v := ToInt(ival);
      || (Tok(tokens, i) == Instr(".pos") && v != pos)
      || (Tok(tokens, i) == Instr(".align") && v > 0 && (pos % v != 0 || (pos < 0 && v > 1)))
    case _ => false
  }

  /** A line is shown where it starts, so that its label is its own address, exactly unless it is a directive that names
      another address. */
  lemma ShownWhereItStarts(tokens: seq<Token>, pos: int)
    requires LayoutOf(tokens, pos).Placed?
    ensures LayoutOf(tokens, pos).shown == pos <==> !MovesAway(tokens, pos)
  {
    hide FindInstr, TruncDiv;
    var i := if Labelled(tokens) then 2 else 0;
    match Tok(tokens, i + 1)
    case Num(ival) =>
      if ToInt(ival) > 0 {
        AlignKeeps(pos, ToInt(ival));
      }
    case _ =>
  }

  lemma AlignKeeps(pos: int, a: int)
    requires a > 0
    ensures TruncDiv(pos + a - 1, a) * a == pos <==> pos % a == 0 && (pos >= 0 || a == 1)
  {
    var q, r := pos / a, pos % a;
    assert pos == a * q + r;
    if pos + a - 1 >= 0 {
      if r == 0 {
        Arith.Quotient(pos + a - 1, a, q, a - 1);
        assert q * a == pos;
        assert pos < 0 ==> q < 0 && a * q <= -a;
      } else {
        assert TruncDiv(pos + a - 1, a) * a != pos by {
          Arith.Multiple(TruncDiv(pos + a - 1, a), a);
        }
      }
    } else {
      var x := -(pos + a - 1);
      Arith.Multiple(TruncDiv(pos + a - 1, a), a);
      if r == 0 {
        var s := if a == 1 then 0 else 1;
        var k := if a == 1 then -q else -q - 1;
        assert x == a * k + s;
        Arith.Quotient(x, a, k, s);
        assert a > 1 ==> (-k) * a == pos + a;
      }
    }
  }

  // ---- loading

  /** Where line k's code goes, and the code. */
  function ShownAt(lines: seq<Line>, k: nat): int
    requires k < |lines|
  {
    match LayoutOf(lines[k].tokens, PosOf(lines, k))
    case Placed(_, shown, _, _) => shown
    case _ => 0
  }

  function LineCode(lines: seq<Line>, k: nat): seq<Byte>
    requires k < |lines|
  {
    var c := CodeOf(lines[k].tokens, PosOf(lines, k), LabelsOf(lines, |lines|));
    if c.Some? then c.value else []
  }

  /** The code of every line fits the memory, and no two lines share a byte. */
  predicate NoOverlap(lines: seq<Line>, size: nat) {
    && (forall k :: 0 <= k < |lines| ==> 0 <= ShownAt(lines, k) && ShownAt(lines, k) + |LineCode(lines, k)| <= size)
    && (forall j, k :: 0 <= j < k < |lines| ==>
          || LineCode(lines, j) == [] || LineCode(lines, k) == []
          || ShownAt(lines, j) + |LineCode(lines, j)| <= ShownAt(lines, k)
          || ShownAt(lines, k) + |LineCode(lines, k)| <= ShownAt(lines, j))
  }

  predicate CodeThere(m: seq<Byte>, pos: int, code: seq<Byte>) {
    0 <= pos && pos + |code| <= |m| && m[pos..pos + |code|] == code
  }

  lemma {:induction false} StoredThere(m: seq<Byte>, pos: nat, code: seq<Byte>)
    requires pos + |code| <= |m|
    ensures Stored(m, pos, code) == Loaded(m[..pos] + code + m[pos + |code|..], |code|, true)
    decreases |code|
  {
    if code == [] {
      assert m[..pos] + code + m[pos..] == m;
    } else {
      var m' := m[pos := code[0]];
      StoredThere(m', pos + 1, code[1..]);
      assert m'[..pos + 1] + code[1..] + m'[pos + 1 + |code[1..]|..] == m[..pos] + code + m[pos + |code|..];
    }
  }

  lemma {:induction false} LoadSnoc(m: seq<Byte>, lines: seq<string>, last: string)
    requires Load(m, lines).ok
    ensures var r, r1 := Load(m, lines), LoadLine(Load(m, lines).m, last);
            Load(m, lines + [last]) == Loaded(r1.m, r.count + r1.count, r1.ok)
    decreases |lines|
  {
    hide LoadLine;
    if lines == [] {
      assert [last][1..] == [];
      assert lines + [last] == [last];
    } else {
      assert (lines + [last])[1..] == lines[1..] + [last];
      LoadSnoc(LoadLine(m, lines[0]).m, lines[1..], last);
    }
  }

  /** A printed line stores its code and nothing else. */
  lemma PrintedLoads(m: seq<Byte>, line: Line, pos: int, symbols: seq<Symbol>)
    requires LineGood(line.tokens, pos, symbols)
    requires var l, c := LayoutOf(line.tokens, pos), CodeOf(line.tokens, pos, symbols).value;
             l.Placed? ==> 0 <= l.shown && l.shown + |c| <= |m|
    ensures var l, c := LayoutOf(line.tokens, pos), CodeOf(line.tokens, pos, symbols).value;
            var r := LoadLine(m, Printed(line, pos, symbols));
            r.ok && |r.m| == |m| && r.count == |c| && (l.NoTokens? ==> r.m == m && c == [])
            && (l.Placed? ==> r.m == m[..l.shown] + c + m[l.shown + |c|..])
  {
    hide ReadLine, YoLine, BlankLine, Stored, LayoutFrom;
    var l, c := LayoutOf(line.tokens, pos), CodeOf(line.tokens, pos, symbols).value;
    match l
    case NoTokens => BlankSkipped(pos, line.text + "\n");
    case Placed(_, shown, _, _) =>
      CodeFits(line.tokens, pos, symbols);
      ReadsWhatWasPrinted(shown, c, line.text + "\n");
      StoredThere(m, shown, c);
  }

  /** How many bytes of code the first i lines have. */
  function CodeSize(lines: seq<Line>, i: nat): nat
    requires i <= |lines|
  {
    if i == 0 then 0 else CodeSize(lines, i - 1) + |LineCode(lines, i - 1)|
  }

  /** After i lines, the code of all of them is in memory, and the bytes are counted. */
  lemma {:induction false} LoadsLines(m: seq<Byte>, lines: seq<Line>, output: seq<string>, i: nat)
    requires i <= |lines| == |output| && PrintedAll(lines, |lines|, LabelsOf(lines, |lines|), output) && NoOverlap(lines, |m|)
    ensures Load(m, output[..i]).ok && Load(m, output[..i]).count == CodeSize(lines, i)
    ensures forall k :: 0 <= k < i ==> CodeThere(Load(m, output[..i]).m, ShownAt(lines, k), LineCode(lines, k))
  {
    hide LineGood, Printed, LoadLine, CodeOf, LayoutOf, PrintedAll, LabelsOf, NoOverlap, ShownAt, LineCode, CodeThere;
    if i > 0 {
      LoadsLines(m, lines, output, i - 1);
      OneMoreLine(m, lines, output, i);
      var m1, m2 := Load(m, output[..i - 1]).m, Load(m, output[..i]).m;
      forall k | 0 <= k < i
        ensures CodeThere(m2, ShownAt(lines, k), LineCode(lines, k))
      {
        if k < i - 1 {
          StillThere(m1, m2, lines, k, i - 1);
        }
      }
    }
  }

  lemma OneMoreLine(m: seq<Byte>, lines: seq<Line>, output: seq<string>, i: nat)
    requires 0 < i <= |lines| == |output| && PrintedAll(lines, |lines|, LabelsOf(lines, |lines|), output)
    requires NoOverlap(lines, |m|) && Load(m, output[..i - 1]).ok
    ensures var r1, r2, a, c := Load(m, output[..i - 1]), Load(m, output[..i]), ShownAt(lines, i - 1), LineCode(lines, i - 1);
            && r2.ok && r2.count == r1.count + |c| && 0 <= a && a + |c| <= |m| && r2.m == r1.m[..a] + c + r1.m[a + |c|..]
            && CodeThere(r2.m, a, c)
  {
    hide LineGood, Printed, Load, LoadLine, CodeOf, LayoutOf, PrintedAll, LabelsOf, NoOverlap, ShownAt, LineCode;
    assert output[..i] == output[..i - 1] + [output[i - 1]];
    LoadSnoc(m, output[..i - 1], output[i - 1]);
    LineLoads(Load(m, output[..i - 1]).m, lines, output, i - 1);
  }

  lemma LineLoads(m1: seq<Byte>, lines: seq<Line>, output: seq<string>, k: nat)
    requires k < |lines| == |output| && PrintedAll(lines, |lines|, LabelsOf(lines, |lines|), output) && NoOverlap(lines, |m1|)
    ensures var r, a, c := LoadLine(m1, output[k]), ShownAt(lines, k), LineCode(lines, k);
            r.ok && r.count == |c| && 0 <= a && a + |c| <= |m1| && r.m == m1[..a] + c + m1[a + |c|..]
  {
    hide Printed, LoadLine, LayoutOf;
    var text := output[k];
    assert text == Printed(lines[k], PosOf(lines, k), LabelsOf(lines, |lines|));
    assert 0 <= ShownAt(lines, k) && ShownAt(lines, k) + |LineCode(lines, k)| <= |m1|;
    PrintedLoads(m1, lines[k], PosOf(lines, k), LabelsOf(lines, |lines|));
    assert m1[..0] + [] + m1[0..] == m1;
  }

  lemma StillThere(m1: seq<Byte>, m2: seq<Byte>, lines: seq<Line>, k: nat, j: nat)
    requires k < j < |lines| && |m2| == |m1| && NoOverlap(lines, |m1|)
    requires CodeThere(m1, ShownAt(lines, k), LineCode(lines, k))
    requires var a, c := ShownAt(lines, j), LineCode(lines, j);
             0 <= a && a + |c| <= |m1| && m2 == m1[..a] + c + m1[a + |c|..]
    ensures CodeThere(m2, ShownAt(lines, k), LineCode(lines, k))
  {
    hide ShownAt, LineCode;
    var p, c := ShownAt(lines, k), LineCode(lines, k);
    forall i | p <= i < p + |c|
      ensures m2[i] == m1[i]
    {
    }
    assert m2[p..p + |c|] == m1[p..p + |c|];
  }

  // ---- decoding

  lemma {:induction false} LittleOfBytes(m: seq<Byte>, pos: nat, n: nat, v: int)
    requires pos + n <= |m| && m[pos..pos + n] == LittleBytes(v, n)
    ensures Little(m, pos, n) == v % Pow256(n)
    decreases n
  {
    if n > 0 {
      var rest := LittleBytes(v / 256, n - 1);
      assert m[pos] == m[pos..pos + n][0] == v % 256;
      assert m[pos + 1..pos + n] == m[pos..pos + n][1..] == rest;
      LittleOfBytes(m, pos + 1, n - 1, v / 256);
      DivModNest(v, Pow256(n - 1));
    }
  }

  lemma WordThere(m: Mem, pos: nat, v: Word)
    requires pos + 8 <= |m| && m[pos..pos + 8] == LittleBytes(v, 8)
    ensures GetWord(m, pos) == Some(v)
  {
    hide Little, LittleBytes, Pow256, Wrap;
    LittleOfBytes(m, pos, 8, v);
    EightBytes();
    WrapOfMod(v);
  }

  lemma PackedHalves(hi: Nibble, lo: Nibble)
    ensures Hi4(Pack(hi, lo)) == hi && Lo4(Pack(hi, lo)) == lo
  {
    NibblePair(hi, lo);
  }

  /** The operands as the processor sees them. */
  function RegIds(d: InstrDef, o: Operands): Option<Byte> {
    Some(if NeedRegids(d.icode) then Pack(o.rA, o.rB) else 0xFF)
  }

  predicate IsWord(v: int) { -TWO63 <= v < TWO63 }

  function Immediate(d: InstrDef, o: Operands): Option<Word>
    requires IsWord(o.valC)
  {
    Some(if NeedImm(d.icode) then o.valC else 0)
  }

  /** Where the parts of the code are. */
  lemma ImageParts(d: InstrDef, o: Operands)
    requires Consistent(d) && ShapeOf(d) != Data && d.bytes > 0
    ensures var c := Image(d, o);
            && |c| == d.bytes == 1 + (if NeedRegids(d.icode) then 1 else 0) + (if NeedImm(d.icode) then 8 else 0)
            && c[0] == Pack(d.icode, d.ifun)
            && (NeedRegids(d.icode) ==> c[1] == Pack(o.rA, o.rB))
            && (NeedImm(d.icode) ==> c[d.bytes - 8..] == LittleBytes(o.valC, 8))
  {
    hide LittleBytes, NeedRegids, NeedImm;
    var f, r, v := [Pack(d.icode, d.ifun)], [Pack(o.rA, o.rB)], LittleBytes(o.valC, 8);
    assert (f + r + v)[2..] == v && (f + v)[1..] == v;
  }

  /** A step executes the instruction with the registers and the number of its operands, and goes on after it. */
  predicate Executes(s: State, d: InstrDef, o: Operands) {
    && IsWord(o.valC) && IsWord(s.pc + d.bytes)
    && StepState(s) == Execute(s, d.icode, d.ifun, RegIds(d, o), Immediate(d, o), s.pc + d.bytes)
  }

  /** DECODING INVERTS ASSEMBLING: a step of the processor at the code of an instruction executes that instruction with the
      registers and the number that were written, and goes on after it. */
  lemma CodeDecodes(s: State, d: InstrDef, o: Operands)
    requires Consistent(d) && ShapeOf(d) != Data && d.bytes > 0 && IsWord(o.valC)
    requires CodeThere(s.m, s.pc, Image(d, o))
    ensures Executes(s, d, o)
  {
    hide Image, Execute, LittleBytes, Consistent;
    var c := Image(d, o);
    ImageParts(d, o);
    assert s.m[s.pc] == s.m[s.pc..s.pc + |c|][0];
    PackedHalves(d.icode, d.ifun);
    if NeedRegids(d.icode) {
      assert s.m[s.pc + 1] == s.m[s.pc..s.pc + |c|][1];
    }
    if NeedImm(d.icode) {
      var at := s.pc + d.bytes - 8;
      assert s.m[at..at + 8] == s.m[s.pc..s.pc + |c|][d.bytes - 8..];
      WordThere(s.m, at, o.valC);
    }
    SmallWraps(s.pc);
  }

  lemma SmallWraps(pc: Word)
    ensures pc + 10 < TWO63 ==> Wrap(pc + 1) == pc + 1 && Wrap(pc + 2) == pc + 2 && Wrap(Wrap(pc + 1) + 1) == pc + 2
    ensures pc + 10 < TWO63 ==> Wrap(Wrap(pc + 1) + 8) == pc + 9 && Wrap(pc + 2 + 8) == pc + 10
  {
  }

  /** The instruction on a line, if there is one, with its operands. */
  ghost predicate HasInstruction(lines: seq<Line>, k: nat, d: InstrDef, o: Operands)
    requires k < |lines|
  {
    var l := LayoutOf(lines[k].tokens, PosOf(lines, k));
    && l.Placed? && l.def == Some(d) && ShapeOf(d) != Data && d.bytes > 0
    && OperandsAt(ShapeOf(d), lines[k].tokens, l.at + 1, LabelsOf(lines, |lines|)) == Some(o)
  }

  /** WHAT IS WRITTEN IS WHAT RUNS: assemble any source without errors whose code fits the memory without overlaps, load
      the printed text, and let the processor come to the address at which a line was shown: it executes the instruction
      of that line. */
  lemma WrittenIsRun(lines: seq<Line>, output: seq<string>, m: Mem, k: nat, d: InstrDef, o: Operands, s: State)
    requires PrintedAll(lines, |lines|, LabelsOf(lines, |lines|), output) && NoOverlap(lines, |m|)
    requires k < |lines| && HasInstruction(lines, k, d, o) && IsWord(o.valC)
    requires s.m == Load(m, output).m && s.pc == ShownAt(lines, k)
    ensures Load(m, output).ok && Executes(s, d, o)
  {
    hide Load, NoOverlap, PrintedAll, ShownAt, LineCode, HasInstruction, Executes, CodeThere;
    AllPrinted(lines, output);
    LoadsLines(m, lines, output, |lines|);
    assert output[..|lines|] == output;
    InstructionCode(lines, k, d, o);
    CodeDecodes(s, d, o);
  }

  lemma AllPrinted(lines: seq<Line>, output: seq<string>)
    requires PrintedAll(lines, |lines|, LabelsOf(lines, |lines|), output)
    ensures |output| == |lines|
  {
  }

  lemma InstructionCode(lines: seq<Line>, k: nat, d: InstrDef, o: Operands)
    requires k < |lines| && HasInstruction(lines, k, d, o)
    ensures Consistent(d) && ShapeOf(d) != Data && d.bytes > 0 && LineCode(lines, k) == Image(d, o)
  {
    hide Consistent, Image, LayoutOf, OperandsAt;
    LayoutConsistent(lines[k].tokens, PosOf(lines, k));
  }
}
