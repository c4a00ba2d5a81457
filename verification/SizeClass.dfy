/** Size classes: the index of the most significant bit, found without a loop. */
module SizeClass {

  const N_LISTS: nat := 16

  type U32 = x: int | 0 <= x < 0x1_0000_0000

  /** `msb_index`: smear the top bit downwards, then count the ones in parallel. */
  function MsbIndex(x: bv32): bv32 {
    var x1 := x | (x >> 1);
    var x2 := x1 | (x1 >> 2);
    var x3 := x2 | (x2 >> 4);
    var x4 := x3 | (x3 >> 8);
    var x5 := x4 | (x4 >> 16);
    var c1 := x5 - ((x5 >> 1) & 0x55555555);
    var c2 := (c1 & 0x33333333) + ((c1 >> 2) & 0x33333333);
    var c3 := (c2 + (c2 >> 4)) & 0x0f0f0f0f;
    var c4 := c3 + (c3 >> 8);
    var c5 := c4 + (c4 >> 16);
    (c5 & 0x3f) - 1
  }

  /** The largest k with 2^k <= x. */
  function FloorLog2(x: nat): nat
    requires x > 0
  {
    if x == 1 then 0 else 1 + FloorLog2(x / 2)
  }

  /** `GET_CLASS_BY_SIZE` */
  function ClassOf(size: nat): (c: nat)
    requires size > 0
    ensures c < N_LISTS
  {
    var msb := FloorLog2(size);
    if msb < N_LISTS - 1 then msb else N_LISTS - 1
  }

  lemma MsbOfEven(y: bv32)
    requires 0 < y < 0x8000_0000
    ensures MsbIndex(y << 1) == 1 + MsbIndex(y) && MsbIndex(y) < 31
  {
  }

  lemma MsbOfOdd(y: bv32)
    requires 0 < y < 0x8000_0000
    ensures MsbIndex((y << 1) | 1) == 1 + MsbIndex(y) && MsbIndex(y) < 31
  {
  }

  lemma ZeroWord() returns (w: bv32)
    ensures w as int == 0
  {
    w := 0;
  }

  lemma OneWord() returns (w: bv32)
    ensures w as int == 1 && MsbIndex(w) as int == 0
  {
    w := 1;
  }

  lemma EvenAsInt(y: bv32)
    requires y < 0x8000_0000
    ensures (y << 1) as int == 2 * (y as int)
  {
  }

  lemma OddAsInt(y: bv32)
    requires y < 0x8000_0000
    ensures ((y << 1) | 1) as int == 2 * (y as int) + 1
  {
  }

  lemma IncAsInt(y: bv32)
    requires y < 32
    ensures (1 + y) as int == 1 + y as int
  {
  }

  lemma SmallEnough(y: bv32, n: int)
    requires y as int == n && 0 < n < 0x8000_0000
    ensures 0 < y < 0x8000_0000
  {
  }

  /** Doubling a word, possibly adding one, doubles its value and moves its top bit up by one. */
  lemma Shifted(y: bv32, n: int, odd: bool) returns (w: bv32)
    requires y as int == n && 0 < n < 0x8000_0000
    ensures w as int == 2 * n + (if odd then 1 else 0)
    ensures MsbIndex(w) as int == 1 + MsbIndex(y) as int
  {
    hide MsbIndex;
    SmallEnough(y, n);
    if odd {
      OddAsInt(y);
      MsbOfOdd(y);
      w := (y << 1) | 1;
    } else {
      EvenAsInt(y);
      MsbOfEven(y);
      w := y << 1;
    }
    IncAsInt(MsbIndex(y));
  }

  /** A word with a given value. */
  lemma {:induction false} BitsExist(x: U32) returns (w: bv32)
    ensures w as int == x
    ensures x > 0 ==> MsbIndex(w) as int == FloorLog2(x)
    decreases x
  {
    hide MsbIndex;
    if x == 0 {
      w := ZeroWord();
    } else if x == 1 {
      w := OneWord();
    } else {
      var y := BitsExist(x / 2);
      w := Shifted(y, x / 2, x % 2 == 1);
    }
  }

  lemma BackAndForth(w: bv32)
    ensures (w as int) as bv32 == w
  {
  }

  /** `msb_index` IS FLOOR(LOG2), for every nonzero 32-bit word. */
  lemma MsbIsFloorLog2(x: U32)
    requires x > 0
    ensures MsbIndex(x as bv32) as int == FloorLog2(x)
  {
    hide MsbIndex;
    var w := BitsExist(x);
    BackAndForth(w);
  }

  lemma {:induction false} FloorLog2Monotone(x: nat, y: nat)
    requires 0 < x <= y
    ensures FloorLog2(x) <= FloorLog2(y)
  {
    if x > 1 {
      FloorLog2Monotone(x / 2, y / 2);
    }
  }

  /** A smaller size never lands in a higher class. */
  lemma ClassMonotone(x: nat, y: nat)
    requires 0 < x <= y
    ensures ClassOf(x) <= ClassOf(y)
  {
    FloorLog2Monotone(x, y);
  }

  /** Block sizes, at least 16 bytes, land in classes 4 to 15. */
  lemma ClassRange(x: nat)
    requires 16 <= x
    ensures 4 <= ClassOf(x) <= 15
  {
    assert FloorLog2(16) == 4;
    FloorLog2Monotone(16, x);
  }
}
