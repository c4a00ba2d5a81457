/** The text format between the assembler and the simulators: how a line of code is printed, and how it is read back. */
module YoText {
  import Arith
  import opened Words
  import opened Memory

  function HexDigit(d: int): char
    requires 0 <= d < 16
  {
    if d < 10 then '0' + d as char else 'a' + (d - 10) as char
  }

  /** The len least significant hex digits of value, most significant first. */
  function Hex(value: int, len: nat): (s: string)
    ensures |s| == len
    decreases len
  {
    if len == 0 then "" else Hex(value / 16, len - 1) + [HexDigit(value % 16)]
  }

  function CodeHex(code: seq<Byte>): (s: string)
    ensures |s| == 2 * |code|
  {
    if code == [] then "" else Hex(code[0], 2) + CodeHex(code[1..])
  }

  function Spaces(n: nat): (s: string)
    ensures |s| == n
  {
    if n == 0 then "" else " " + Spaces(n - 1)
  }

  /** The line printed for code at an address; of a negative one, it has the last digits in two's complement. */
  function YoLine(pos: int, code: seq<Byte>, text: string): string
    requires pos <= 0xFFFF && |code| <= 10
  {
    if pos > 0xFFF then "0x" + (Hex(pos, 4) + (":" + (CodeHex(code) + (Spaces(22 - 2 * |code|) + ("| " + text)))))
    else "0x" + (Hex(pos, 3) + (": " + (CodeHex(code) + (Spaces(21 - 2 * |code|) + ("| " + text)))))
  }

  /** The line printed for a line without tokens. */
  function BlankLine(pos: int, text: string): string {
    Spaces(if pos > 0xFFF then 29 else 28) + ("| " + text)
  }

  // ---- reading

  predicate IsSpace(c: char) { c == ' ' || '\t' <= c <= '\r' }

  predicate IsXDigit(c: char) { '0' <= c <= '9' || 'A' <= c <= 'F' || 'a' <= c <= 'f' }

  function HexToDigit(c: char): (d: int)
    requires IsXDigit(c)
    ensures 0 <= d < 16
  {
    if '0' <= c <= '9' then c as int - '0' as int
    else if 'A' <= c <= 'F' then c as int - 'A' as int + 10
    else c as int - 'a' as int + 10
  }

  function SkipSpaces(s: string): (r: string)
    ensures |r| <= |s|
  {
    if s != "" && IsSpace(s[0]) then SkipSpaces(s[1..]) else s
  }

  /** The number at the front of s, continued from acc, and what follows it. */
  function Number(s: string, acc: nat): (r: (nat, string))
    ensures |r.1| <= |s|
    decreases |s|
  {
    if s != "" && IsXDigit(s[0]) then Number(s[1..], 16 * acc + HexToDigit(s[0])) else (acc, s)
  }

  /** The bytes at the front of s. */
  function Bytes(s: string): seq<Byte> {
    if |s| < 2 || !IsXDigit(s[0]) || !IsXDigit(s[1]) then []
    else [(16 * HexToDigit(s[0]) + HexToDigit(s[1])) as Byte] + Bytes(s[2..])
  }

  datatype Record = Skipped | NoColon | Code(pos: nat, code: seq<Byte>)

  /** What `load_mem` makes of a line. */
  function ReadLine(buf: string): Record {
    var s := SkipSpaces(buf);
    if |s| < 2 || s[0] != '0' || (s[1] != 'x' && s[1] != 'X') then Skipped
    else
      var (pos, rest) := Number(s[2..], 0);
      var t := SkipSpaces(rest);
      if t == "" || t[0] != ':' then NoColon
      else Code(pos, Bytes(SkipSpaces(t[1..])))
  }

  datatype Loaded = Loaded(m: seq<Byte>, count: nat, ok: bool)

  /** Storing code at pos, up to the first byte that has no place. */
  function Stored(m: seq<Byte>, pos: nat, code: seq<Byte>): (r: Loaded)
    ensures |r.m| == |m|
    decreases |code|
  {
    if code == [] then Loaded(m, 0, true)
    else if pos >= |m| then Loaded(m, 0, false)
    else
      var r := Stored(m[pos := code[0]], pos + 1, code[1..]);
      Loaded(r.m, r.count + 1, r.ok)
  }

  function LoadLine(m: seq<Byte>, buf: string): (r: Loaded)
    ensures |r.m| == |m|
  {
    match ReadLine(buf)
    case Skipped => Loaded(m, 0, true)
    case NoColon => Loaded(m, 0, false)
    case Code(pos, code) => Stored(m, pos, code)
  }

  /** `load_mem` on all lines; it stops at the first faulty one. */
  function Load(m: seq<Byte>, lines: seq<string>): (r: Loaded)
    ensures |r.m| == |m|
    decreases |lines|
  {
    if lines == [] then Loaded(m, 0, true)
    else
      var r := LoadLine(m, lines[0]);
      if !r.ok then r
      else
        var rest := Load(r.m, lines[1..]);
        Loaded(rest.m, r.count + rest.count, rest.ok)
  }

  // ---- what is printed is read back

  lemma DigitRoundTrip(d: int)
    requires 0 <= d < 16
    ensures IsXDigit(HexDigit(d)) && HexToDigit(HexDigit(d)) == d
  {
  }

  function Pow16(n: nat): (p: nat)
    ensures p > 0
  {
    if n == 0 then 1 else 16 * Pow16(n - 1)
  }

  /** Reading digits one by one adds them to what was read before. */
  lemma {:induction false} NumberOfHex(v: nat, len: nat, rest: string, acc: nat)
    requires v < Pow16(len)
    ensures Number(Hex(v, len) + rest, acc) == Number(rest, acc * Pow16(len) + v)
    decreases len
  {
    if len == 0 {
      assert Hex(v, 0) + rest == rest;
    } else {
      hide Number, HexDigit, HexToDigit, IsXDigit, Hex, Pow16;
      var last := [HexDigit(v % 16)];
      LastDigit(v, len);
      Assoc(Hex(v / 16, len - 1), last, rest);
      NumberOfHex(v / 16, len - 1, last + rest, acc);
      NumberStep(v % 16, rest, acc * Pow16(len - 1) + v / 16);
      Horner(acc, v, Pow16(len - 1));
    }
  }

  lemma LastDigit(v: nat, len: nat)
    requires 0 < len && v < Pow16(len)
    ensures Hex(v, len) == Hex(v / 16, len - 1) + [HexDigit(v % 16)]
    ensures Pow16(len) == 16 * Pow16(len - 1) && v / 16 < Pow16(len - 1)
  {
  }

  lemma NumberStep(d: int, rest: string, acc: nat)
    requires 0 <= d < 16
    ensures Number([HexDigit(d)] + rest, acc) == Number(rest, 16 * acc + d)
  {
    DigitRoundTrip(d);
    assert ([HexDigit(d)] + rest)[1..] == rest;
  }

  lemma Horner(acc: nat, v: nat, p: nat)
    ensures 16 * (acc * p + v / 16) + v % 16 == acc * (16 * p) + v
  {
  }

  lemma NumberEnds(s: string, acc: nat)
    requires s == "" || !IsXDigit(s[0])
    ensures Number(s, acc) == (acc, s)
  {
  }

  lemma HexByte(b: Byte)
    ensures Hex(b, 2) == [HexDigit(b / 16), HexDigit(b % 16)]
  {
    assert 0 <= b / 16 < 16 && b / 16 % 16 == b / 16;
    assert Hex(b, 2) == Hex(b / 16, 1) + [HexDigit(b % 16)];
    assert Hex(b / 16, 1) == "" + [HexDigit(b / 16)];
  }

  lemma Assoc(a: string, b: string, c: string)
    ensures (a + b) + c == a + (b + c)
  {
  }

  lemma BytesStep(b: Byte, rest: string)
    ensures Bytes(Hex(b, 2) + rest) == [b] + Bytes(rest)
  {
    HexByte(b);
    DigitRoundTrip(b / 16);
    DigitRoundTrip(b % 16);
    hide Hex, HexDigit, HexToDigit, IsXDigit;
    assert (Hex(b, 2) + rest)[2..] == rest;
  }

  lemma {:induction false} BytesOfHex(code: seq<Byte>, rest: string)
    requires rest == "" || !IsXDigit(rest[0])
    ensures Bytes(CodeHex(code) + rest) == code
  {
    if code == [] {
      assert CodeHex(code) + rest == rest;
    } else {
      hide Hex, Bytes;
      var b := code[0];
      Assoc(Hex(b, 2), CodeHex(code[1..]), rest);
      BytesStep(b, CodeHex(code[1..]) + rest);
      BytesOfHex(code[1..], rest);
    }
  }

  lemma {:induction false} SkipsSpaces(n: nat, rest: string)
    ensures SkipSpaces(Spaces(n) + rest) == SkipSpaces(rest)
  {
    if n == 0 {
      assert Spaces(n) + rest == rest;
    } else {
      assert (Spaces(n) + rest)[1..] == Spaces(n - 1) + rest;
      SkipsSpaces(n - 1, rest);
    }
  }

  lemma NoSpaces(s: string)
    requires s != "" && !IsSpace(s[0])
    ensures SkipSpaces(s) == s
  {
  }

  lemma HexStarts(v: nat, len: nat)
    requires len > 0
    ensures IsXDigit(Hex(v, len)[0])
    decreases len
  {
    DigitRoundTrip(v % 16);
    if len > 1 {
      HexStarts(v / 16, len - 1);
    }
  }

  /** THE TEXT IS READ BACK: the line printed for code at an address below 0x10000 reads as that code at that address,
      whatever the text after the bar. */
  lemma ReadsWhatWasPrinted(pos: int, code: seq<Byte>, text: string)
    requires 0 <= pos <= 0xFFFF && |code| <= 10
    ensures ReadLine(YoLine(pos, code, text)) == Code(pos, code)
  {
    hide Hex, CodeHex, ReadLine, Spaces;
    FitsDigits(pos);
    if pos > 0xFFF {
      ReadsField(pos, 4, ":", code, 22 - 2 * |code|, text);
    } else {
      ReadsField(pos, 3, ": ", code, 21 - 2 * |code|, text);
    }
  }

  lemma ReadsField(pos: nat, n: nat, colon: string, code: seq<Byte>, pad: nat, text: string)
    requires pos < Pow16(n) && (colon == ":" || colon == ": ")
    ensures ReadLine("0x" + (Hex(pos, n) + (colon + (CodeHex(code) + (Spaces(pad) + ("| " + text)))))) == Code(pos, code)
  {
    hide Hex, CodeHex, Number, Bytes, SkipSpaces, Spaces, ReadLine, IsXDigit, Pow16;
    var after := Spaces(pad) + ("| " + text);
    var tail := colon + (CodeHex(code) + after);
    ColonFirst(colon, CodeHex(code) + after);
    NumberOfHex(pos, n, tail, 0);
    NumberEnds(tail, pos);
    ReadPieces(Hex(pos, n), tail, pos);
    AfterCode(pad, text);
    CodeReads(code, after, tail[1..]);
  }

  lemma ColonFirst(colon: string, body: string)
    requires colon == ":" || colon == ": "
    ensures var s := colon + body;
            s != "" && s[0] == ':' && !IsXDigit(s[0]) && (s[1..] == body || s[1..] == " " + body)
  {
  }

  lemma FitsDigits(pos: nat)
    requires pos <= 0xFFFF
    ensures pos < Pow16(if pos > 0xFFF then 4 else 3)
  {
    assert Pow16(4) == 0x1_0000;
    assert Pow16(3) == 0x1000;
  }

  lemma ReadPieces(digits: string, tail: string, pos: nat)
    requires Number(digits + tail, 0) == (pos, tail) && tail != "" && tail[0] == ':'
    ensures ReadLine("0x" + (digits + tail)) == Code(pos, Bytes(SkipSpaces(tail[1..])))
  {
    hide Number, Bytes;
    var s := "0x" + (digits + tail);
    assert s[2..] == digits + tail;
    NoSpaces(s);
    NoSpaces(tail);
  }

  lemma AfterCode(n: nat, text: string)
    ensures var after := Spaces(n) + ("| " + text);
            after != "" && !IsXDigit(after[0]) && (n == 0 ==> after[0] == '|')
    ensures var end := SkipSpaces(Spaces(n) + ("| " + text)); end != "" && !IsXDigit(end[0])
  {
    SkipsSpaces(n, "| " + text);
    NoSpaces("| " + text);
  }

  /** Code, or none, after the colon. */
  lemma CodeReads(code: seq<Byte>, after: string, s: string)
    requires s == CodeHex(code) + after || s == " " + (CodeHex(code) + after)
    requires after != "" && !IsXDigit(after[0]) && SkipSpaces(after) != "" && !IsXDigit(SkipSpaces(after)[0])
    ensures Bytes(SkipSpaces(s)) == code
  {
    hide Hex, Bytes;
    var body := CodeHex(code) + after;
    assert (" " + body)[1..] == body;
    assert SkipSpaces(s) == SkipSpaces(body);
    if code == [] {
      assert body == after;
      BytesOfHex([], SkipSpaces(after));
      assert CodeHex([]) + SkipSpaces(after) == SkipSpaces(after);
    } else {
      HexStarts(code[0], 2);
      assert body[0] == Hex(code[0], 2)[0];
      assert !IsSpace(body[0]);
      NoSpaces(body);
      BytesOfHex(code, after);
    }
  }

  /** A line without tokens is skipped. */
  lemma BlankSkipped(pos: int, text: string)
    ensures ReadLine(BlankLine(pos, text)) == Skipped
  {
    hide Spaces;
    var n := if pos > 0xFFF then 29 else 28;
    SkipsSpaces(n, "| " + text);
    NoSpaces("| " + text);
  }

  // ---- the characters of a line

  const DIGITS: string := "0123456789abcdef"

  lemma DigitTold(d: int)
    requires 0 <= d < 16
    ensures HexDigit(d) == DIGITS[d]
  {
  }

  /** Digits are read in both cases. */
  lemma EitherCase(k: nat)
    requires k < 6
    ensures IsXDigit('A' + k as char) && HexToDigit('A' + k as char) == 10 + k == HexToDigit('a' + k as char)
  {
  }

  lemma Shifted(v: int, p: int)
    requires p > 0
    ensures v / (16 * p) == v / 16 / p
  {
    var y := v / 16;
    var q, r := y / p, y % p;
    assert v == (16 * p) * q + (16 * r + v % 16);
    Arith.Quotient(v, 16 * p, q, 16 * r + v % 16);
  }

  /** Every digit of a number. */
  lemma {:induction false} DigitsTold(v: int, len: nat, k: nat)
    requires k < len
    ensures Hex(v, len)[len - 1 - k] == DIGITS[v / Pow16(k) % 16]
    decreases len
  {
    hide HexDigit;
    DigitTold(v % 16);
    if k > 0 {
      DigitsTold(v / 16, len - 1, k - 1);
      Shifted(v, Pow16(k - 1));
    }
  }

  /** Every byte of the code has two digits. */
  lemma {:induction false} CodeTold(code: seq<Byte>, k: nat)
    requires k < |code|
    ensures CodeHex(code)[2 * k] == DIGITS[code[k] / 16] && CodeHex(code)[2 * k + 1] == DIGITS[code[k] % 16]
  {
    hide Hex, HexDigit;
    if k == 0 {
      HexByte(code[0]);
      DigitTold(code[0] / 16);
      DigitTold(code[0] % 16);
    } else {
      CodeTold(code[1..], k - 1);
      var a, b := Hex(code[0], 2), CodeHex(code[1..]);
      assert (a + b)[2 * k] == b[2 * (k - 1)] && (a + b)[2 * k + 1] == b[2 * (k - 1) + 1];
    }
  }

  lemma {:induction false} AllSpaces(n: nat, k: nat)
    requires k < n
    ensures Spaces(n)[k] == ' '
  {
    if k > 0 {
      AllSpaces(n - 1, k - 1);
    }
  }

  /** The columns of a line: the code from column 7 on, behind three digits of the address, a colon and a space, and the
      text behind a bar in column 28. */
  lemma ColumnsTold(pos: int, code: seq<Byte>, text: string)
    requires pos <= 0xFFF && |code| <= 10
    ensures var s, n := YoLine(pos, code, text), 7 + 2 * |code|;
            && |s| >= 28 && s[..2] == "0x" && s[2..5] == Hex(pos, 3) && s[5..7] == ": " && s[7..n] == CodeHex(code)
            && s[28..] == "| " + text && forall i :: n <= i < 28 ==> s[i] == ' '
  {
    hide Hex, CodeHex, YoLine, Row;
    IsRow(pos, code, text);
    Columns(Hex(pos, 3), ": ", CodeHex(code), 21 - 2 * |code|, text);
  }

  /** Above 0xFFF the address has four digits, and the bar is in column 29. */
  lemma WideColumnsTold(pos: int, code: seq<Byte>, text: string)
    requires 0xFFF < pos <= 0xFFFF && |code| <= 10
    ensures var s, n := YoLine(pos, code, text), 7 + 2 * |code|;
            && |s| >= 29 && s[..2] == "0x" && s[2..6] == Hex(pos, 4) && s[6..7] == ":" && s[7..n] == CodeHex(code)
            && s[29..] == "| " + text && forall i :: n <= i < 29 ==> s[i] == ' '
  {
    hide Hex, CodeHex, YoLine, Row;
    IsRow(pos, code, text);
    Columns(Hex(pos, 4), ":", CodeHex(code), 22 - 2 * |code|, text);
  }

  function Row(digits: string, colon: string, code: string, n: nat, text: string): string {
    "0x" + (digits + (colon + (code + (Spaces(n) + ("| " + text)))))
  }

  lemma IsRow(pos: int, code: seq<Byte>, text: string)
    requires pos <= 0xFFFF && |code| <= 10
    ensures YoLine(pos, code, text) ==
            if pos > 0xFFF then Row(Hex(pos, 4), ":", CodeHex(code), 22 - 2 * |code|, text)
            else Row(Hex(pos, 3), ": ", CodeHex(code), 21 - 2 * |code|, text)
  {
  }

  lemma Columns(digits: string, colon: string, code: string, n: nat, text: string)
    ensures var s := Row(digits, colon, code, n, text);
            var a, b := 2 + |digits|, 2 + |digits| + |colon|;
            && |s| >= b + |code| + n && s[..2] == "0x" && s[2..a] == digits && s[a..b] == colon
            && s[b..b + |code|] == code && s[b + |code| + n..] == "| " + text
            && forall i :: b + |code| <= i < b + |code| + n ==> s[i] == ' '
  {
    hide Spaces;
    var after := "| " + text;
    Cut("0x", digits + (colon + (code + (Spaces(n) + after))));
    Cut(digits, colon + (code + (Spaces(n) + after)));
    Cut(colon, code + (Spaces(n) + after));
    Cut(code, Spaces(n) + after);
    forall i | 0 <= i < n
      ensures Spaces(n)[i] == ' '
    {
      AllSpaces(n, i);
    }
  }

  lemma Cut(a: string, b: string)
    ensures (a + b)[..|a|] == a && (a + b)[|a|..] == b
  {
  }

  // ---- printing in place

  /** s with t written over it from off on. */
  function Splice(s: string, off: nat, t: string): string
    requires off + |t| <= |s|
  {
    s[..off] + t + s[off + |t|..]
  }

  /** `hexstuff` */
  method HexStuff(dest: array<char>, off: nat, value: int, len: nat)
    requires off + len <= dest.Length
    modifies dest
    ensures dest[..] == Splice(old(dest[..]), off, Hex(value, len))
  {
    var v := value;
    for i := 0 to len
      invariant dest[..off + len - i] == old(dest[..])[..off + len - i]
      invariant dest[off + len..] == old(dest[..])[off + len..]
      invariant Hex(value, len) == Hex(v, len - i) + dest[off + len - i..off + len]
    {
      ghost var digits := dest[off + len - i..off + len];
      Assoc(Hex(v / 16, len - i - 1), [HexDigit(v % 16)], digits);
      dest[off + len - i - 1] := HexDigit(v % 16);
      assert dest[off + len - i - 1..off + len] == [HexDigit(v % 16)] + digits;
      v := v / 16;
    }
  }

  /** The line while its code is filled in: seven characters, the code so far, and pad spaces left. */
  function Field(prefix: string, code: seq<Byte>, pad: nat): string {
    prefix + (CodeHex(code) + (Spaces(pad) + "| "))
  }

  lemma {:induction false} CodeHexSnoc(code: seq<Byte>, b: Byte)
    ensures CodeHex(code + [b]) == CodeHex(code) + Hex(b, 2)
  {
    hide Hex;
    if code == [] {
      assert code + [b] == [b];
      assert CodeHex([b]) == Hex(b, 2) + "";
    } else {
      assert (code + [b])[1..] == code[1..] + [b];
      CodeHexSnoc(code[1..], b);
      Assoc(Hex(code[0], 2), CodeHex(code[1..]), Hex(b, 2));
    }
  }

  lemma SpliceIn(a: string, b: string, c: string, t: string)
    requires |t| == |b|
    ensures |a| + |t| <= |a + (b + c)| && Splice(a + (b + c), |a|, t) == a + (t + c)
  {
  }

  lemma FieldStep(prefix: string, code: seq<Byte>, b: Byte, pad: nat)
    requires pad >= 2
    ensures |prefix| + 2 * |code| + 2 <= |Field(prefix, code, pad)|
    ensures Splice(Field(prefix, code, pad), |prefix| + 2 * |code|, Hex(b, 2)) == Field(prefix, code + [b], pad - 2)
  {
    hide Hex, CodeHex, Splice;
    var rest := Spaces(pad - 2) + "| ";
    assert Spaces(pad) == "  " + Spaces(pad - 2) by {
      assert Spaces(pad) == " " + (" " + Spaces(pad - 2));
      Assoc(" ", " ", Spaces(pad - 2));
    }
    Assoc("  ", Spaces(pad - 2), "| ");
    Assoc(prefix, CodeHex(code), "  " + rest);
    SpliceIn(prefix + CodeHex(code), "  ", rest, Hex(b, 2));
    Assoc(prefix, CodeHex(code), Hex(b, 2) + rest);
    Assoc(CodeHex(code), Hex(b, 2), rest);
    CodeHexSnoc(code, b);
  }

  /** Where the code goes, for an address. */
  function Prefix(pos: int): (s: string)
    ensures |s| == 7
  {
    if pos > 0xFFF then "0x" + (Hex(pos, 4) + ":") else "0x" + (Hex(pos, 3) + ": ")
  }

  function Template(pos: int): string {
    if pos > 0xFFF then "0x" + ("0000" + (":" + (Spaces(22) + "| "))) else "0x" + ("000" + (":" + (Spaces(22) + "| ")))
  }

  lemma AddressIn(pos: int)
    ensures var n := if pos > 0xFFF then 4 else 3;
            2 + n <= |Template(pos)|
            && Splice(Template(pos), 2, Hex(pos, n)) == Field(Prefix(pos), [], if pos > 0xFFF then 22 else 21)
  {
    hide Hex, Splice, Spaces;
    if pos > 0xFFF {
      DigitsIn("0000", Hex(pos, 4), ":", Spaces(22) + "| ");
      EmptyField(Prefix(pos), 22);
    } else {
      OneSpaceMore(21);
      Assoc(" ", Spaces(21), "| ");
      Assoc(":", " ", Spaces(21) + "| ");
      assert ":" + " " == ": ";
      DigitsIn("000", Hex(pos, 3), ": ", Spaces(21) + "| ");
      EmptyField(Prefix(pos), 21);
    }
  }

  lemma OneSpaceMore(n: nat)
    ensures Spaces(n + 1) == " " + Spaces(n)
  {
  }

  lemma EmptyField(prefix: string, pad: nat)
    ensures Field(prefix, [], pad) == prefix + (Spaces(pad) + "| ")
  {
    hide Spaces;
    assert CodeHex([]) + (Spaces(pad) + "| ") == Spaces(pad) + "| ";
  }

  lemma DigitsIn(zeros: string, digits: string, colon: string, rest: string)
    requires |digits| == |zeros|
    ensures 2 + |digits| <= |"0x" + (zeros + (colon + rest))|
    ensures Splice("0x" + (zeros + (colon + rest)), 2, digits) == "0x" + (digits + colon) + rest
  {
    hide Splice;
    SpliceIn("0x", zeros, colon + rest, digits);
    PrefixFirst(digits, colon, rest);
  }

  lemma PrefixFirst(digits: string, colon: string, rest: string)
    ensures "0x" + (digits + (colon + rest)) == "0x" + (digits + colon) + rest
  {
    Assoc(digits, colon, rest);
    Assoc("0x", digits + colon, rest);
  }

  lemma LineDone(pos: int, code: seq<Byte>, text: string)
    requires pos <= 0xFFFF && |code| <= 10
    ensures Field(Prefix(pos), code, (if pos > 0xFFF then 22 else 21) - 2 * |code|) + text == YoLine(pos, code, text)
  {
    hide Field, YoLine, Prefix;
    if pos > 0xFFF {
      FarLineDone(pos, code, text);
    } else {
      NearLineDone(pos, code, text);
    }
  }

  lemma FarLineDone(pos: int, code: seq<Byte>, text: string)
    requires 0xFFF < pos <= 0xFFFF && |code| <= 10
    ensures Field(Prefix(pos), code, 22 - 2 * |code|) + text == YoLine(pos, code, text)
  {
    hide Hex, CodeHex, Spaces;
    FieldThenText(Hex(pos, 4), ":", CodeHex(code), Spaces(22 - 2 * |code|), text);
  }

  lemma NearLineDone(pos: int, code: seq<Byte>, text: string)
    requires pos <= 0xFFF && |code| <= 10
    ensures Field(Prefix(pos), code, 21 - 2 * |code|) + text == YoLine(pos, code, text)
  {
    hide Hex, CodeHex, Spaces;
    FieldThenText(Hex(pos, 3), ": ", CodeHex(code), Spaces(21 - 2 * |code|), text);
  }

  lemma FieldThenText(digits: string, colon: string, code: string, pad: string, text: string)
    ensures "0x" + (digits + colon) + (code + (pad + "| ")) + text
         == "0x" + (digits + (colon + (code + (pad + ("| " + text)))))
  {
    var front := "0x" + (digits + colon);
    Assoc(pad, "| ", text);
    Assoc(code, pad + "| ", text);
    Assoc(front, code + (pad + "| "), text);
    PrefixFirst(digits, colon, code + (pad + ("| " + text)));
  }

  /** The loop of `print_code` over the code bytes. */
  method FillCode(outstring: array<char>, ghost prefix: string, ghost pad: nat, code: seq<Byte>)
    requires |prefix| == 7 && 2 * |code| <= pad && outstring[..] == Field(prefix, [], pad)
    modifies outstring
    ensures outstring[..] == Field(prefix, code, pad - 2 * |code|)
  {
    hide Hex, Splice, Field;
    for i := 0 to |code|
      invariant outstring[..] == Field(prefix, code[..i], pad - 2 * i)
    {
      FieldStep(prefix, code[..i], code[i], pad - 2 * i);
      HexStuff(outstring, 7 + 2 * i, code[i], 2);
      assert code[..i + 1] == code[..i] + [code[i]];
    }
    assert code[..|code|] == code;
  }

  /** The address written into the empty line. */
  method FillAddress(pos: int) returns (outstring: array<char>)
    ensures fresh(outstring) && outstring[..] == Field(Prefix(pos), [], if pos > 0xFFF then 22 else 21)
  {
    hide Hex, Splice, Template, Prefix, Field;
    var template := Template(pos);
    outstring := new char[|template|](i requires 0 <= i < |template| => template[i]);
    assert outstring[..] == template;
    AddressIn(pos);
    HexStuff(outstring, 2, pos, if pos > 0xFFF then 4 else 3);
  }

  /** `print_code`; an address past 0xFFFF is an error. */
  method PrintCode(pos: int, tokens: bool, code: seq<Byte>, text: string) returns (ok: bool, line: string)
    requires |code| <= 10
    ensures ok <==> !tokens || pos <= 0xFFFF
    ensures ok ==> line == if tokens then YoLine(pos, code, text) else BlankLine(pos, text)
  {
    ok, line := true, "";
    if !tokens {
      line := Spaces(if pos > 0xFFF then 29 else 28) + ("| " + text);
      return;
    }
    if pos > 0xFFFF {
      ok := false;
      return;
    }
    hide Hex, CodeHex, Spaces, Field, YoLine;
    var outstring := FillAddress(pos);
    FillCode(outstring, Prefix(pos), if pos > 0xFFF then 22 else 21, code);
    LineDone(pos, code, text);
    line := outstring[..] + text;
  }

  // ---- reading in place

  /** The character at i; a C string ends with a zero. */
  function At(s: string, i: nat): char { if i < |s| then s[i] else '\0' }

  /** The loops of `load_mem` that skip white space. */
  method SkipFrom(buf: string, start: nat) returns (cpos: nat)
    requires start <= |buf|
    ensures start <= cpos <= |buf| && buf[cpos..] == SkipSpaces(buf[start..])
  {
    cpos := start;
    while IsSpace(At(buf, cpos))
      invariant start <= cpos <= |buf| && SkipSpaces(buf[cpos..]) == SkipSpaces(buf[start..])
      decreases |buf| - cpos
    {
      assert buf[cpos..][1..] == buf[cpos + 1..];
      cpos := cpos + 1;
    }
  }

  /** The loop of `load_mem` that reads the address. */
  method ReadAddress(buf: string, start: nat) returns (bytepos: nat, cpos: nat)
    requires start <= |buf|
    ensures start <= cpos <= |buf| && Number(buf[start..], 0) == (bytepos, buf[cpos..])
  {
    bytepos, cpos := 0, start;
    while IsXDigit(At(buf, cpos))
      invariant start <= cpos <= |buf| && Number(buf[cpos..], bytepos) == Number(buf[start..], 0)
      decreases |buf| - cpos
    {
      assert buf[cpos..][1..] == buf[cpos + 1..];
      bytepos := bytepos * 16 + HexToDigit(At(buf, cpos));
      cpos := cpos + 1;
    }
  }

  /** The loop of `load_mem` that stores the code. */
  method StoreCode(m: array<Byte>, buf: string, start: nat, pos: nat) returns (ok: bool, count: nat)
    requires start <= |buf|
    modifies m
    ensures Loaded(m[..], count, ok) == Stored(old(m[..]), pos, Bytes(buf[start..]))
  {
    var cpos: nat, bytepos: nat := start, pos;
    count, ok := 0, true;
    ghost var all := Stored(m[..], pos, Bytes(buf[start..]));
    while IsXDigit(At(buf, cpos)) && IsXDigit(At(buf, cpos + 1))
      invariant start <= cpos <= |buf| && ok
      invariant var rest := Stored(m[..], bytepos, Bytes(buf[cpos..]));
                all == Loaded(rest.m, count + rest.count, rest.ok)
      decreases |buf| - cpos
    {
      assert buf[cpos..][2..] == buf[cpos + 2..];
      var byte: Byte := HexToDigit(At(buf, cpos)) * 16 + HexToDigit(At(buf, cpos + 1));
      assert Bytes(buf[cpos..]) == [byte] + Bytes(buf[cpos + 2..]);
      if bytepos >= m.Length {
        ok := false;
        return;
      }
      assert ([byte] + Bytes(buf[cpos + 2..]))[1..] == Bytes(buf[cpos + 2..]);
      ghost var before := m[..];
      m[bytepos] := byte;
      assert m[..] == before[bytepos := byte];
      bytepos, cpos, count := bytepos + 1, cpos + 2, count + 1;
    }
  }

  /** `load_mem`: nothing is reported as read when a line is faulty. */
  method LoadMem(m: array<Byte>, lines: seq<string>) returns (byteCnt: nat)
    modifies m
    ensures var r := Load(old(m[..]), lines);
            m[..] == r.m && byteCnt == if r.ok then r.count else 0
  {
    hide ReadLine, Stored;
    byteCnt := 0;
    ghost var all := Load(m[..], lines);
    for i := 0 to |lines|
      invariant var rest := Load(m[..], lines[i..]);
                all == Loaded(rest.m, byteCnt + rest.count, rest.ok)
    {
      assert lines[i..][1..] == lines[i + 1..];
      var ok, count := OneLine(m, lines[i]);
      if !ok {
        return 0;
      }
      byteCnt := byteCnt + count;
    }
  }

  /** The body of the loop of `load_mem`. */
  method OneLine(m: array<Byte>, buf: string) returns (ok: bool, count: nat)
    modifies m
    ensures Loaded(m[..], count, ok) == LoadLine(old(m[..]), buf)
  {
    hide Number, Bytes, SkipSpaces, Stored;
    ok, count := true, 0;
    var cpos := SkipFrom(buf, 0);
    assert buf[0..] == buf;
    if At(buf, cpos) != '0' || (At(buf, cpos + 1) != 'x' && At(buf, cpos + 1) != 'X') {
      return;
    }
    assert buf[cpos..][2..] == buf[cpos + 2..];
    var bytepos;
    bytepos, cpos := ReadAddress(buf, cpos + 2);
    cpos := SkipFrom(buf, cpos);
    if At(buf, cpos) != ':' {
      ok := false;
      return;
    }
    assert buf[cpos..][1..] == buf[cpos + 1..];
    cpos := SkipFrom(buf, cpos + 1);
    ok, count := StoreCode(m, buf, cpos, bytepos);
  }
}
