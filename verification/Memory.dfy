/** The byte-addressed memory of the simulators, and the register file kept in the same kind of store. */
module Memory {
  import Arith
  import opened Words

  const MAX_MEM: int := 0x7fff_ffff

  /** `mem_rec`: its length is a C int. */
  type Mem = m: seq<Byte> | |m| <= MAX_MEM

  function GetByte(m: Mem, pos: Word): Option<Byte> {
    if pos < 0 || pos >= |m| then None else Some(m[pos])
  }

  /** The unsigned little-endian value of the n bytes starting at pos. */
  function Little(m: seq<Byte>, pos: nat, n: nat): nat
    requires pos + n <= |m|
    decreases n
  {
    if n == 0 then 0 else m[pos] + 256 * Little(m, pos + 1, n - 1)
  }

  function GetWord(m: Mem, pos: Word): Option<Word> {
    if pos < 0 || pos + 8 > |m| then None else Some(Wrap(Little(m, pos, 8)))
  }

  /** Store the low n bytes of v from pos on. */
  function PutBytes(m: seq<Byte>, pos: nat, n: nat, v: int): (m': seq<Byte>)
    requires pos + n <= |m|
    ensures |m'| == |m|
    ensures forall i :: 0 <= i < |m| && !(pos <= i < pos + n) ==> m'[i] == m[i]
    decreases n
  {
    if n == 0 then m else PutBytes(m[pos := v % 256], pos + 1, n - 1, v / 256)
  }

  function SetWord(m: Mem, pos: Word, v: Word): Option<Mem> {
    if pos < 0 || pos + 8 > |m| then None else Some(PutBytes(m, pos, 8, v))
  }

  function Pow256(n: nat): (p: nat)
    ensures p > 0
  {
    if n == 0 then 1 else 256 * Pow256(n - 1)
  }

  lemma {:induction false} LittleDependsOnRange(m: seq<Byte>, m': seq<Byte>, pos: nat, n: nat)
    requires pos + n <= |m| && pos + n <= |m'|
    requires forall i :: pos <= i < pos + n ==> m[i] == m'[i]
    ensures Little(m, pos, n) == Little(m', pos, n)
    decreases n
  {
    if n > 0 {
      LittleDependsOnRange(m, m', pos + 1, n - 1);
    }
  }

  lemma {:induction false} LittleZeros(m: seq<Byte>, pos: nat, n: nat)
    requires pos + n <= |m| && forall i :: pos <= i < pos + n ==> m[i] == 0
    ensures Little(m, pos, n) == 0
    decreases n
  {
    if n > 0 {
      LittleZeros(m, pos + 1, n - 1);
    }
  }

  /** Reading back n stored bytes gives the stored value modulo 256^n. */
  lemma {:induction false} LittleOfPut(m: seq<Byte>, pos: nat, n: nat, v: int)
    requires pos + n <= |m|
    ensures Little(PutBytes(m, pos, n, v), pos, n) == v % Pow256(n)
    decreases n
  {
    if n == 0 {
    } else {
      var m1 := m[pos := v % 256];
      LittleOfPut(m1, pos + 1, n - 1, v / 256);
      var p := Pow256(n - 1);
      DivModNest(v, p);
    }
  }

  lemma DivModNest(v: int, p: int)
    requires p > 0
    ensures v % (256 * p) == v % 256 + 256 * ((v / 256) % p)
  {
    var q, r := v / 256, v % 256;
    var a, b := q / p, q % p;
    assert v == 256 * (a * p + b) + r;
    assert 256 * (a * p + b) == a * (256 * p) + 256 * b;
    var w := 256 * b + r;
    assert 0 <= w < 256 * p;
    Arith.Quotient(v, 256 * p, a, w);
  }

  /** `set_word_val` then `get_word_val` at the same address returns the word stored, whatever its sign. */
  lemma {:induction false} WordRoundTrip(m: Mem, pos: Word, v: Word)
    ensures var w := SetWord(m, pos, v);
            (w.Some? <==> GetWord(m, pos).Some?) &&
            (w.Some? ==> |w.value| == |m| && GetWord(w.value, pos) == Some(v))
  {
    hide Little, PutBytes, Pow256, Wrap;
    if !(pos < 0 || pos + 8 > |m|) {
      LittleOfPut(m, pos, 8, v);
      EightBytes();
      WrapOfMod(v);
    }
  }

  lemma EightBytes()
    ensures Pow256(8) == TWO64
  {
    assert Pow256(2) == 0x1_0000;
    assert Pow256(4) == 0x1_0000_0000;
    assert Pow256(6) == 0x1_0000_0000_0000;
  }

  lemma WrapOfMod(v: Word)
    ensures Wrap(v % TWO64) == v
  {
  }

  /** A store leaves every word that shares no byte with it alone. */
  lemma {:induction false} WordFrame(m: Mem, pos: Word, v: Word, other: Word)
    requires other + 8 <= pos || pos + 8 <= other
    ensures SetWord(m, pos, v).Some? ==> GetWord(SetWord(m, pos, v).value, other) == GetWord(m, other)
  {
    if SetWord(m, pos, v).Some? && 0 <= other && other + 8 <= |m| {
      LittleDependsOnRange(m, SetWord(m, pos, v).value, other, 8);
    }
  }

  /** A byte as an integer. */
  function ByteAt(m: Mem, i: int): int
    requires 0 <= i < |m|
  {
    m[i]
  }

  /** A word lies in memory with its least significant byte first. */
  lemma LittleEndian(m: Mem, pos: Word)
    requires GetWord(m, pos).Some?
    ensures Unsigned(GetWord(m, pos).value)
            == ByteAt(m, pos) + 0x100 * ByteAt(m, pos + 1) + 0x1_0000 * ByteAt(m, pos + 2) + 0x100_0000 * ByteAt(m, pos + 3)
               + 0x1_0000_0000 * ByteAt(m, pos + 4) + 0x100_0000_0000 * ByteAt(m, pos + 5)
               + 0x1_0000_0000_0000 * ByteAt(m, pos + 6) + 0x100_0000_0000_0000 * ByteAt(m, pos + 7)
  {
    assert Little(m, pos + 6, 2) == ByteAt(m, pos + 6) + 0x100 * ByteAt(m, pos + 7);
    assert Little(m, pos + 4, 4) == ByteAt(m, pos + 4) + 0x100 * (ByteAt(m, pos + 5) + 0x100 * Little(m, pos + 6, 2));
    assert Little(m, pos + 2, 6) == ByteAt(m, pos + 2) + 0x100 * (ByteAt(m, pos + 3) + 0x100 * Little(m, pos + 4, 4));
    assert Little(m, pos, 8) == ByteAt(m, pos) + 0x100 * (ByteAt(m, pos + 1) + 0x100 * Little(m, pos + 2, 6));
    UnsignedWrap(Little(m, pos, 8));
  }

  // ---- the register file

  const REG_RSP: Nibble := 4
  const REG_NONE: Nibble := 15

  type Regs = r: seq<Word> | |r| == 15 witness [0, 0, 0, 0, 0, 0, 0, 0, 0, 0, 0, 0, 0, 0, 0]

  predicate RegValid(id: Nibble) { id < REG_NONE }

  function GetReg(r: Regs, id: Nibble): Word {
    if id >= REG_NONE then 0 else r[id]
  }

  function SetReg(r: Regs, id: Nibble, v: Word): Regs {
    if id >= REG_NONE then r else r[id := v]
  }

  /** The registers held in a 128-byte register memory: register id occupies bytes 8*id .. 8*id+7. */
  function RegsOf(b: seq<Byte>): Regs
    requires |b| == 128
  {
    seq(15, i requires 0 <= i < 15 => Wrap(Little(b, 8 * i, 8)))
  }

  /** Writing a word of the register memory writes that register and no other. */
  lemma {:induction false} RegisterMemory(b: seq<Byte>, id: Nibble, v: Word)
    requires |b| == 128 && RegValid(id)
    ensures |PutBytes(b, 8 * id, 8, v)| == 128
    ensures RegsOf(PutBytes(b, 8 * id, 8, v)) == SetReg(RegsOf(b), id, v)
  {
    var b' := PutBytes(b, 8 * id, 8, v);
    forall i | 0 <= i < 15
      ensures RegsOf(b')[i] == SetReg(RegsOf(b), id, v)[i]
    {
      if i == id {
        WordRoundTrip(b, 8 * id, v);
      } else {
        WordFrame(b, 8 * id, v, 8 * i);
      }
    }
  }
}
