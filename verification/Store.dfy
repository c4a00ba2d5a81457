/** Memory and register access in place, on byte arrays. */
module Store {
  import opened Words
  import opened Memory

  lemma {:induction false} LittleGrows(m: seq<Byte>, pos: nat, n: nat)
    requires pos + n + 1 <= |m|
    ensures Little(m, pos, n + 1) == Little(m, pos, n) + Pow256(n) * m[pos + n]
    decreases n
  {
    if n == 0 {
      assert Little(m, pos, 1) == m[pos] + 256 * Little(m, pos + 1, 0);
    } else {
      LittleGrows(m, pos + 1, n - 1);
      assert Pow256(n) == 256 * Pow256(n - 1);
      var p, b := Pow256(n - 1), m[pos + n];
      assert 256 * (p * b) == (256 * p) * b;
    }
  }

  /** `get_byte_val` */
  method GetByteVal(m: array<Byte>, pos: Word) returns (ok: bool, val: Byte)
    requires m.Length <= MAX_MEM
    ensures ok == GetByte(m[..], pos).Some?
    ensures ok ==> val == GetByte(m[..], pos).value
  {
    if pos < 0 || pos >= m.Length {
      return false, 0;
    }
    return true, m[pos];
  }

  /** `get_word_val`: the bytes are disjoint, so or-ing one in is adding it. */
  method GetWordVal(m: array<Byte>, pos: Word) returns (ok: bool, val: Word)
    requires m.Length <= MAX_MEM
    ensures ok == GetWord(m[..], pos).Some?
    ensures ok ==> val == GetWord(m[..], pos).value
  {
    if pos < 0 || pos + 8 > m.Length {
      return false, 0;
    }
    var bits: nat := 0;
    var scale: int := 1;
    for i := 0 to 8
      invariant bits == Little(m[..], pos, i)
      invariant scale == Pow256(i)
    {
      LittleGrows(m[..], pos, i);
      bits := bits + scale * m[pos + i];
      scale := 256 * scale;
    }
    return true, Wrap(bits);
  }

  /** `set_word_val` */
  method SetWordVal(m: array<Byte>, pos: Word, val: Word) returns (ok: bool)
    requires m.Length <= MAX_MEM
    modifies m
    ensures ok == SetWord(old(m[..]), pos, val).Some?
    ensures m[..] == if ok then SetWord(old(m[..]), pos, val).value else old(m[..])
  {
    if pos < 0 || pos + 8 > m.Length {
      return false;
    }
    var rest: int := val;
    for i := 0 to 8
      invariant PutBytes(m[..], pos + i, 8 - i, rest) == PutBytes(old(m[..]), pos, 8, val)
    {
      ghost var before := m[..];
      var b: Byte := rest % 256;
      m[pos + i] := b;
      assert m[..] == before[pos + i := b];
      rest := rest / 256;
    }
    return true;
  }

  /** `get_reg_val` on the register memory. */
  method GetRegVal(r: array<Byte>, id: Nibble) returns (val: Word)
    requires r.Length == 128
    ensures val == GetReg(RegsOf(r[..]), id)
  {
    if id >= REG_NONE {
      return 0;
    }
    var ok;
    ok, val := GetWordVal(r, id * 8);
    assert r[..][8 * id..] == r[..][id * 8..];
  }

  /** `set_reg_val` on the register memory. */
  method SetRegVal(r: array<Byte>, id: Nibble, val: Word)
    requires r.Length == 128
    modifies r
    ensures RegsOf(r[..]) == SetReg(old(RegsOf(r[..])), id, val)
  {
    hide Little, PutBytes, RegsOf;
    if id < REG_NONE {
      RegisterMemory(r[..], id, val);
      var _ := SetWordVal(r, id * 8, val);
    }
  }
}
