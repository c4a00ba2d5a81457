/** The assembler's state and how it is changed, line by line and pass by pass. */
module Assembler {
  import opened Words
  import opened Memory
  import opened Isa
  import opened YoText
  import opened Yas

  class Assembler {
    var pass: nat
    var bytepos: int
    var symbols: seq<Symbol>
    var hitError: bool
    var tokens: seq<Token>
    var tpos: nat
    const code: array<Byte>
    var output: seq<string>

    constructor ()
      ensures fresh(code) && code.Length == 10
      ensures pass == 1 && bytepos == 0 && symbols == [] && !hitError && output == []
    {
      pass, bytepos, symbols, hitError, tokens, tpos, output := 1, 0, [], false, [], 0, [];
      code := new Byte[10](_ => 0);
    }

    /** `find_symbol` */
    method FindSymbol(name: string) returns (pos: int)
      modifies this`hitError
      ensures match Lookup(symbols, name)
              case None => hitError && pos == -1
              case Some(p) => hitError == old(hitError) && pos == p
    {
      for i := 0 to |symbols|
        invariant hitError == old(hitError) && Lookup(symbols, name) == Lookup(symbols[i..], name)
      {
        assert symbols[i..][1..] == symbols[i + 1..];
        if symbols[i].name == name {
          return symbols[i].pos;
        }
      }
      hitError := true;
      return -1;
    }

    /** `get_reg` */
    method GetReg(codepos: nat, hi: bool)
      requires code.Length == 10 && codepos < 10
      modifies this`tpos, this`hitError, code
      ensures match RegisterAt(tokens, old(tpos))
              case None => hitError
              case Some(r) => hitError == old(hitError) && tpos == old(tpos) + 1 &&
                              code[..] == old(code[..])[codepos := SetNibble(old(code[codepos]), hi, r)]
    {
      if !Tok(tokens, tpos).Reg? {
        hitError := true;
        return;
      }
      var rval := RegisterFrom(Tok(tokens, tpos).name, 0);
      code[codepos] := SetNibble(code[codepos], hi, rval);
      tpos := tpos + 1;
    }

    /** The loop that stores a number byte by byte. */
    method PutBytesAt(codepos: nat, bytes: nat, val: int)
      requires code.Length == 10 && codepos + bytes <= 10
      modifies code
      ensures code[..] == PutAt(old(code[..]), codepos, val, bytes)
    {
      hide PutAt;
      var v := val;
      for i := 0 to bytes
        invariant PutAt(code[..], codepos + i, v, bytes - i) == PutAt(old(code[..]), codepos, val, bytes)
      {
        PutAtStep(code[..], codepos + i, v, bytes - i);
        ghost var before := code[..];
        code[codepos + i] := v % 256;
        assert code[..] == before[codepos + i := v % 256];
        v := v / 256;
      }
      NothingPut(code[..], codepos + bytes, v);
    }

    lemma NothingPut(c: seq<Byte>, pos: nat, v: int)
      requires pos <= |c|
      ensures PutAt(c, pos, v, 0) == c
    {
    }

    /** `get_num` */
    method GetNum(codepos: nat, bytes: nat)
      requires code.Length == 10 && codepos + bytes <= 10
      modifies this`tpos, this`hitError, code
      ensures match NumberAt(tokens, old(tpos), symbols)
              case None => hitError
              case Some(v) => hitError == old(hitError) && tpos == old(tpos) + 1 &&
                              code[..] == PutAt(old(code[..]), codepos, v, bytes)
    {
      var val: int := 0;
      if Tok(tokens, tpos).Num? {
        val := Tok(tokens, tpos).ival;
      } else if Tok(tokens, tpos).Ident? {
        val := FindSymbol(Tok(tokens, tpos).name);
      } else {
        hitError := true;
        return;
      }
      PutBytesAt(codepos, bytes, val);
      tpos := tpos + 1;
    }

    /** What `get_mem` reads. */
    method ReadMem() returns (ok: bool, val: int, rval: Nibble)
      modifies this`tpos, this`hitError
      ensures match MemAt(tokens, old(tpos), symbols)
              case None => hitError
              case Some(m) => ok && hitError == old(hitError) && MemOperand(val, rval, tpos) == m
    {
      hide RegisterFrom, Lookup;
      ok, val, rval := true, 0, REG_NONE;
      if Tok(tokens, tpos).Num? {
        val := Tok(tokens, tpos).ival;
        tpos := tpos + 1;
      } else if Tok(tokens, tpos).Ident? {
        val := FindSymbol(Tok(tokens, tpos).name);
        tpos := tpos + 1;
      }
      if Tok(tokens, tpos).Punct? {
        if Tok(tokens, tpos).cval == '(' {
          tpos := tpos + 1;
          if !Tok(tokens, tpos).Reg? {
            hitError := true;
            return false, val, rval;
          }
          rval := RegisterFrom(Tok(tokens, tpos).name, 0);
          tpos := tpos + 1;
          if Tok(tokens, tpos) != Punct(')') {
            hitError := true;
            return false, val, rval;
          }
          tpos := tpos + 1;
        }
      }
    }

    /** `get_mem` */
    method GetMem(codepos: nat)
      requires code.Length == 10 && codepos + 9 <= 10
      modifies this`tpos, this`hitError, code
      ensures match ArgAt(M_ARG, codepos, 0, tokens, old(tpos), symbols, old(code[..]))
              case None => hitError
              case Some(t) => hitError == old(hitError) && tpos == t.tpos && code[..] == t.code
    {
      hide MemAt, PutAt;
      var ok, val, rval := ReadMem();
      if !ok {
        return;
      }
      ghost var before := code[..];
      code[codepos] := SetNibble(code[codepos], false, rval);
      assert code[..] == before[codepos := SetNibble(before[codepos], false, rval)];
      PutBytesAt(codepos + 1, 8, val);
    }

    /** One argument of an instruction. */
    method GetArg(kind: ArgKind, pos: nat, hi: nat)
      requires code.Length == 10 && ArgFits(kind, pos, hi)
      modifies this`tpos, this`hitError, code
      ensures match ArgAt(kind, pos, hi, tokens, old(tpos), symbols, old(code[..]))
              case None => hitError
              case Some(t) => hitError == old(hitError) && tpos == t.tpos && code[..] == t.code
    {
      match kind
      case R_ARG => GetReg(pos, hi != 0);
      case M_ARG => GetMem(pos);
      case I_ARG => GetNum(pos, hi);
      case NO_ARG =>
    }

    /** The arguments of an instruction; comma tells whether the comma between them was there. */
    method GetArgs(d: InstrDef) returns (comma: bool)
      requires code.Length == 10 && ArgFits(d.arg1, d.arg1pos, d.arg1hi) && ArgFits(d.arg2, d.arg2pos, d.arg2hi)
      modifies this`tpos, this`hitError, code
      ensures match ArgsAt(d, tokens, old(tpos), symbols, old(code[..]))
              case None => hitError
              case Some(c) => comma && hitError == old(hitError) && code[..] == c
    {
      hide ArgAt, ArgFits;
      comma := true;
      GetArg(d.arg1, d.arg1pos, d.arg1hi);
      if d.arg2 != NO_ARG {
        if Tok(tokens, tpos) != Punct(',') {
          hitError := true;
          return false;
        }
        tpos := tpos + 1;
        GetArg(d.arg2, d.arg2pos, d.arg2hi);
      }
    }

    /** `print_code` into the output; an address past 0xFFFF ends the run with an error. */
    method Print(text: string, pos: int, bcount: nat)
      requires code.Length == 10 && bcount <= 10
      modifies this`output, this`hitError
      ensures tokens == [] ==> output == old(output) + [BlankLine(pos, text + "\n")] && hitError == old(hitError)
      ensures tokens != [] && pos <= 0xFFFF ==>
                output == old(output) + [YoLine(pos, code[..bcount], text + "\n")] && hitError == old(hitError)
      ensures tokens != [] && pos > 0xFFFF ==> hitError
    {
      hide YoLine, BlankLine;
      var ok, line := PrintCode(pos, tokens != [], code[..bcount], text + "\n");
      if ok {
        output := output + [line];
      } else {
        hitError := true;
      }
    }

    /** The second pass over an instruction. */
    method Encode(d: InstrDef, text: string, savebytepos: int)
      requires code.Length == 10 && Consistent(d) && tokens != []
      modifies this`tpos, this`hitError, this`output, code
      ensures var o := OperandsAt(ShapeOf(d), tokens, old(tpos), symbols);
              && hitError == (old(hitError) || o.None? || savebytepos > 0xFFFF)
              && (o.Some? && savebytepos <= 0xFFFF ==>
                    |Image(d, o.value)| <= 10 && output == old(output) + [YoLine(savebytepos, Image(d, o.value), text + "\n")])
    {
      hide OperandsAt, Image, ArgsAt, ArgFits, YoLine, Consistent;
      code[0] := Pack(d.icode, d.ifun);
      code[1] := 0xFF;
      ArgsEncode(d, tokens, tpos, symbols, code[..]);
      SizeFits(d);
      ghost var o := OperandsAt(ShapeOf(d), tokens, tpos, symbols);
      if o.Some? { ImageSize(d, o.value); }
      var comma := GetArgs(d);
      if comma {
        Print(text, savebytepos, d.bytes);
      }
    }

    lemma SizeFits(d: InstrDef)
      requires Consistent(d)
      ensures d.bytes <= 10
    {
    }

    /** `finish_line` from the token of the instruction on. */
    method FinishFrom(text: string)
      requires code.Length == 10 && tokens != []
      modifies this`bytepos, this`tpos, this`hitError, this`output, code
      ensures var l := LayoutFrom(tokens, old(tpos), old(bytepos));
              && bytepos == (if l.Placed? then l.next else old(bytepos))
              && (pass <= 1 ==> output == old(output) && hitError == (old(hitError) || l.Faulty?))
              && (pass > 1 ==> FinishedFrom(tokens, l, symbols, text, old(hitError), old(output), hitError, output))
    {
      hide FindInstr, Consistent, OperandsAt, YoLine, Image;
      var savebytepos := bytepos;
      if !Tok(tokens, tpos).Instr? {
        hitError := true;
        return;
      }
      var name := Tok(tokens, tpos).name;
      if name == ".pos" {
        tpos := tpos + 1;
        if !Tok(tokens, tpos).Num? {
          hitError := true;
          return;
        }
        bytepos := ToInt(Tok(tokens, tpos).ival);
        if pass > 1 {
          Print(text, bytepos, 0);
          assert code[..0] == [];
        }
        return;
      }
      if name == ".align" {
        tpos := tpos + 1;
        if !Tok(tokens, tpos).Num? || ToInt(Tok(tokens, tpos).ival) <= 0 {
          hitError := true;
          return;
        }
        var a := ToInt(Tok(tokens, tpos).ival);
        bytepos := TruncDiv(bytepos + a - 1, a) * a;
        if pass > 1 {
          Print(text, bytepos, 0);
          assert code[..0] == [];
        }
        return;
      }
      var instr := FindInstr(name);
      tpos := tpos + 1;
      if instr == None {
        hitError := true;
        if pass > 1 {
          Print(text, savebytepos, 0);
        }
        return;
      }
      TableConsistent(name);
      bytepos := bytepos + instr.value.bytes;
      if pass > 1 {
        Encode(instr.value, text, savebytepos);
      }
    }

    /** `finish_line`: the first pass collects labels and moves the address on, the second prints. */
    method FinishLine(line: Line)
      requires code.Length == 10 && Known(line.tokens)
      modifies this, code
      ensures pass == old(pass) && bytepos == NextPos(line.tokens, old(bytepos))
      ensures pass <= 1 ==>
                && output == old(output) && hitError == (old(hitError) || LayoutOf(line.tokens, old(bytepos)).Faulty?)
                && symbols == old(symbols) + NewLabel(line.tokens, old(bytepos))
      ensures pass > 1 ==>
                && symbols == old(symbols) && hitError == (old(hitError) || !LineGood(line.tokens, old(bytepos), symbols))
                && (LineGood(line.tokens, old(bytepos), symbols) ==>
                      output == old(output) + [Printed(line, old(bytepos), symbols)])
    {
      hide OperandsAt, YoLine, BlankLine, LayoutFrom, CodeOfLayout;
      WithoutInstruction(line.tokens, bytepos, symbols);
      tokens := line.tokens;
      tpos := 0;
      if tokens == [] {
        if pass > 1 {
          Print(line.text, bytepos, 0);
        }
        return;
      }
      if Tok(tokens, 0).Ident? {
        if Tok(tokens, 1) != Punct(':') {
          hitError := true;
          return;
        }
        if pass <= 1 {
          symbols := symbols + [Symbol(Tok(tokens, 0).name, bytepos)];
        }
        tpos := 2;
        if |tokens| == 2 {
          if pass > 1 {
            Print(line.text, bytepos, 0);
            assert code[..0] == [];
          }
          return;
        }
      }
      FinishFrom(line.text);
    }

    lemma WithoutInstruction(tokens: seq<Token>, pos: int, symbols: seq<Symbol>)
      ensures CodeOfLayout(tokens, Placed(2, pos, pos, None), symbols) == Some([])
      ensures CodeOfLayout(tokens, NoTokens, symbols) == Some([]) && CodeOfLayout(tokens, Faulty, symbols) == None
    {
    }
  }

  function NewLabel(tokens: seq<Token>, pos: int): seq<Symbol> {
    if Labelled(tokens) then [Symbol(tokens[0].name, pos)] else []
  }

  /** What the second pass makes of a line whose layout is l. */
  predicate FinishedFrom(tokens: seq<Token>, l: Layout, symbols: seq<Symbol>, text: string,
                         error: bool, output: seq<string>, error': bool, output': seq<string>)
  {
    var code := CodeOfLayout(tokens, l, symbols);
    var good := code.Some? && l.Placed? && l.shown <= 0xFFFF;
    && error' == (error || !good)
    && (good ==> |code.value| <= 10 && output' == output + [YoLine(l.shown, code.value, text + "\n")])
  }

  // ---- both passes

  /** Every line can be assembled where it comes to lie. */
  ghost predicate AllGood(lines: seq<Line>) {
    forall i {:trigger lines[i]} :: 0 <= i < |lines| ==> LineGood(lines[i].tokens, PosOf(lines, i), LabelsOf(lines, |lines|))
  }

  /** What the second pass has printed after i lines. */
  predicate PrintedAll(lines: seq<Line>, i: nat, symbols: seq<Symbol>, output: seq<string>)
    requires i <= |lines|
  {
    |output| == i && forall k {:trigger output[k]} :: 0 <= k < i ==>
      LineGood(lines[k].tokens, PosOf(lines, k), symbols) && output[k] == Printed(lines[k], PosOf(lines, k), symbols)
  }

  predicate AllKnown(lines: seq<Line>) { forall i :: 0 <= i < |lines| ==> Known(lines[i].tokens) }

  /** The two passes of `main`. They succeed exactly when every line can be assembled; then BOTH PASSES AGREE: a line is
      printed at the address at which the first pass put its labels. */
  method Assemble(lines: seq<Line>) returns (ok: bool, output: seq<string>)
    requires AllKnown(lines)
    ensures ok <==> AllGood(lines)
    ensures ok ==> PrintedAll(lines, |lines|, LabelsOf(lines, |lines|), output)
  {
    hide LineGood, Printed;
    var asm := new Assembler();
    FirstPass(asm, lines);
    if asm.hitError {
      ghost var i :| 0 <= i < |lines| && LayoutOf(lines[i].tokens, PosOf(lines, i)).Faulty?;
      FaultyNotGood(lines[i].tokens, PosOf(lines, i), LabelsOf(lines, |lines|));
      return false, [];
    }
    asm.pass := 2;
    asm.bytepos := 0;
    SecondPass(asm, lines);
    return !asm.hitError, asm.output;
  }

  lemma FaultyNotGood(tokens: seq<Token>, pos: int, symbols: seq<Symbol>)
    requires LayoutOf(tokens, pos).Faulty?
    ensures !LineGood(tokens, pos, symbols)
  {
  }

  method FirstPass(asm: Assembler, lines: seq<Line>)
    requires asm.code.Length == 10 && AllKnown(lines)
    requires asm.pass == 1 && asm.bytepos == 0 && asm.symbols == [] && !asm.hitError && asm.output == []
    modifies asm, asm.code
    ensures asm.symbols == LabelsOf(lines, |lines|) && asm.output == [] && asm.pass == 1
    ensures asm.hitError <==> exists i :: 0 <= i < |lines| && LayoutOf(lines[i].tokens, PosOf(lines, i)).Faulty?
  {
    hide LineGood, Printed, LayoutOf, Labelled;
    for i := 0 to |lines|
      invariant asm.pass == 1 && asm.bytepos == PosOf(lines, i) && asm.symbols == LabelsOf(lines, i) && asm.output == []
      invariant asm.hitError <==> exists k :: 0 <= k < i && LayoutOf(lines[k].tokens, PosOf(lines, k)).Faulty?
    {
      asm.FinishLine(lines[i]);
    }
  }

  method SecondPass(asm: Assembler, lines: seq<Line>)
    requires asm.code.Length == 10 && AllKnown(lines)
    requires asm.pass == 2 && asm.bytepos == 0 && asm.symbols == LabelsOf(lines, |lines|) && !asm.hitError && asm.output == []
    modifies asm, asm.code
    ensures asm.hitError <==> !AllGood(lines)
    ensures !asm.hitError ==> PrintedAll(lines, |lines|, LabelsOf(lines, |lines|), asm.output)
  {
    hide LineGood, Printed, LayoutOf, Labelled;
    ghost var symbols := LabelsOf(lines, |lines|);
    for i := 0 to |lines|
      invariant asm.pass == 2 && asm.bytepos == PosOf(lines, i) && asm.symbols == symbols
      invariant asm.hitError <==> exists k {:trigger lines[k]} :: 0 <= k < i && !LineGood(lines[k].tokens, PosOf(lines, k), symbols)
      invariant !asm.hitError ==> PrintedAll(lines, i, symbols, asm.output)
    {
      asm.FinishLine(lines[i]);
    }
  }
}
