/** The proxy's object cache: slots with eviction of the least touched entry, bounded in the sum of their sizes. */
module ObjectCache {

  const MAX_CACHE_SIZE: nat := 1049000
  const MAX_OBJECT_SIZE: nat := 102400

  datatype Slot = Free | Used(key: string, data: string, touched: nat)

  datatype Result = NotFound | Found(data: string)

  function SizeOf(x: Slot): nat { if x.Used? then |x.data| else 0 }

  /** The sum of the sizes of the entries. */
  function Total(slots: seq<Slot>): nat {
    if slots == [] then 0 else SizeOf(slots[0]) + Total(slots[1..])
  }

  function UsedCount(slots: seq<Slot>): nat {
    if slots == [] then 0 else (if slots[0].Used? then 1 else 0) + UsedCount(slots[1..])
  }

  lemma {:induction false} SlotUpdated(slots: seq<Slot>, i: nat, x: Slot)
    requires i < |slots|
    ensures Total(slots[i := x]) == Total(slots) - SizeOf(slots[i]) + SizeOf(x)
    ensures UsedCount(slots[i := x])
         == UsedCount(slots) - (if slots[i].Used? then 1 else 0) + (if x.Used? then 1 else 0)
    ensures SizeOf(slots[i]) <= Total(slots) && (slots[i].Used? ==> UsedCount(slots) > 0)
  {
    if i == 0 {
      assert slots[i := x][1..] == slots[1..];
    } else {
      assert slots[i := x][1..] == slots[1..][i - 1 := x];
      SlotUpdated(slots[1..], i - 1, x);
    }
  }

  lemma {:induction false} SlotAppended(slots: seq<Slot>, x: Slot)
    ensures Total(slots + [x]) == Total(slots) + SizeOf(x)
    ensures UsedCount(slots + [x]) == UsedCount(slots) + (if x.Used? then 1 else 0)
  {
    if slots == [] {
      assert slots + [x] == [x];
    } else {
      assert (slots + [x])[1..] == slots[1..] + [x];
      SlotAppended(slots[1..], x);
    }
  }

  lemma {:induction false} SomeUsed(slots: seq<Slot>) returns (i: nat)
    requires Total(slots) > 0
    ensures i < |slots| && slots[i].Used?
  {
    if slots[0].Used? {
      i := 0;
    } else {
      i := SomeUsed(slots[1..]);
      i := i + 1;
    }
  }

  /** Every entry has been touched at least once. */
  predicate Touched(slots: seq<Slot>) {
    forall i :: 0 <= i < |slots| && slots[i].Used? ==> slots[i].touched > 0
  }

  predicate Empty(slots: seq<Slot>) { forall i :: 0 <= i < |slots| ==> slots[i].Free? }

  // ---- eviction

  /** i is the least touched entry, the first one on a tie. */
  predicate IsVictim(slots: seq<Slot>, i: nat) {
    && i < |slots| && slots[i].Used?
    && forall j :: 0 <= j < |slots| && slots[j].Used? ==>
         slots[i].touched <= slots[j].touched && (slots[i].touched == slots[j].touched ==> i <= j)
  }

  /** The slots without the entry at i; a trailing slot goes with its entry. */
  function Without(slots: seq<Slot>, i: nat): seq<Slot>
    requires i < |slots|
  {
    if i == |slots| - 1 then slots[..i] else slots[i := Free]
  }

  lemma WithoutCounts(slots: seq<Slot>, i: nat)
    requires i < |slots| && slots[i].Used?
    ensures Total(Without(slots, i)) == Total(slots) - |slots[i].data|
    ensures UsedCount(Without(slots, i)) == UsedCount(slots) - 1
    ensures |slots[i].data| <= Total(slots)
  {
    SlotUpdated(slots, i, Free);
    if i == |slots| - 1 {
      assert slots == slots[..i] + [slots[i]];
      SlotAppended(slots[..i], slots[i]);
    }
  }

  /** out is in with its victims removed one by one, until size more bytes fit. */
  ghost predicate RoomMade(slots: seq<Slot>, size: nat, out: seq<Slot>)
    decreases UsedCount(slots)
  {
    if Total(slots) + size <= MAX_CACHE_SIZE then out == slots
    else
      exists i: nat {:trigger IsVictim(slots, i)} ::
        i < |slots| && IsVictim(slots, i) && Shrinks(slots, i) && RoomMade(Without(slots, i), size, out)
  }

  predicate Shrinks(slots: seq<Slot>, i: nat)
    requires i < |slots|
  {
    UsedCount(Without(slots, i)) < UsedCount(slots)
  }

  /** The entry at j is in slots but not in out. */
  predicate Gone(slots: seq<Slot>, out: seq<Slot>, j: nat) {
    j < |slots| && slots[j].Used? && !(j < |out| && out[j].Used?)
  }

  /** What stays is as it was, and what was evicted is touched no more than what stays. */
  ghost predicate EvictedFairly(slots: seq<Slot>, out: seq<Slot>) {
    && |out| <= |slots|
    && (forall k :: 0 <= k < |out| && out[k].Used? ==> out[k] == slots[k])
    && (forall j: nat, k: nat :: k < |out| && out[k].Used? && Gone(slots, out, j) ==> slots[j].touched <= out[k].touched)
  }

  lemma FairStep(slots: seq<Slot>, i: nat, out: seq<Slot>)
    requires IsVictim(slots, i) && EvictedFairly(Without(slots, i), out)
    ensures EvictedFairly(slots, out)
  {
    var rest := Without(slots, i);
    forall k | 0 <= k < |out| && out[k].Used?
      ensures out[k] == slots[k]
    {
      assert out[k] == rest[k];
    }
    forall j: nat, k: nat | k < |out| && out[k].Used? && Gone(slots, out, j)
      ensures slots[j].touched <= out[k].touched
    {
      if j != i {
        assert Gone(rest, out, j) && rest[j] == slots[j];
      }
    }
  }

  lemma {:induction false} MadeFairly(slots: seq<Slot>, size: nat, out: seq<Slot>)
    requires RoomMade(slots, size, out)
    ensures EvictedFairly(slots, out) && Total(out) + size <= MAX_CACHE_SIZE && Total(out) <= Total(slots)
    decreases UsedCount(slots)
  {
    hide EvictedFairly, IsVictim;
    if Total(slots) + size > MAX_CACHE_SIZE {
      var i: nat :| i < |slots| && IsVictim(slots, i) && Shrinks(slots, i) && RoomMade(Without(slots, i), size, out);
      VictimCounts(slots, i);
      MadeFairly(Without(slots, i), size, out);
      FairStep(slots, i, out);
    } else {
      NothingGone(slots);
    }
  }

  lemma VictimCounts(slots: seq<Slot>, i: nat)
    requires IsVictim(slots, i)
    ensures i < |slots| && Total(Without(slots, i)) <= Total(slots) && UsedCount(Without(slots, i)) < UsedCount(slots)
  {
    WithoutCounts(slots, i);
  }

  lemma NothingGone(slots: seq<Slot>)
    ensures EvictedFairly(slots, slots)
  {
  }

  /** NO MORE THAN NEEDED: if anything was evicted, keeping one of the evicted entries, the last victim, would have left
      too little room. */
  lemma {:induction false} LastVictimNeeded(slots: seq<Slot>, size: nat, out: seq<Slot>) returns (j: nat)
    requires RoomMade(slots, size, out) && Total(slots) + size > MAX_CACHE_SIZE
    ensures Gone(slots, out, j) && Total(out) + |slots[j].data| + size > MAX_CACHE_SIZE
    decreases UsedCount(slots)
  {
    var i: nat :| i < |slots| && IsVictim(slots, i) && Shrinks(slots, i) && RoomMade(Without(slots, i), size, out);
    var rest := Without(slots, i);
    WithoutCounts(slots, i);
    MadeFairly(rest, size, out);
    if Total(rest) + size <= MAX_CACHE_SIZE {
      j := i;
    } else {
      j := LastVictimNeeded(rest, size, out);
    }
  }

  lemma RoomEnough(slots: seq<Slot>, size: nat, out: seq<Slot>)
    requires RoomMade(slots, size, out)
    ensures Total(out) + size <= MAX_CACHE_SIZE
  {
    hide EvictedFairly;
    MadeFairly(slots, size, out);
  }

  /** Of two entries touched equally often, the one in front goes first. */
  lemma {:induction false} FrontGoesFirst(slots: seq<Slot>, size: nat, out: seq<Slot>, j: nat, k: nat)
    requires RoomMade(slots, size, out) && j < k < |slots| && slots[j].Used? && slots[k].Used?
    requires slots[j].touched == slots[k].touched && Gone(slots, out, k)
    ensures Gone(slots, out, j)
    decreases UsedCount(slots)
  {
    if Total(slots) + size > MAX_CACHE_SIZE {
      var i: nat :| i < |slots| && IsVictim(slots, i) && Shrinks(slots, i) && RoomMade(Without(slots, i), size, out);
      var rest := Without(slots, i);
      MadeFairly(rest, size, out);
      if i != j {
        assert i != k;
        FrontGoesFirst(rest, size, out, j, k);
      }
    }
  }

  /** The entry goes into the first free slot, or into a new one. */
  function Placed(slots: seq<Slot>, x: Slot): (out: seq<Slot>) {
    if slots == [] then [x]
    else if slots[0].Free? then [x] + slots[1..]
    else [slots[0]] + Placed(slots[1..], x)
  }

  lemma {:induction false} PlacedAt(slots: seq<Slot>, x: Slot) returns (i: nat)
    ensures i <= |slots| && (forall j :: 0 <= j < i ==> slots[j].Used?)
    ensures Placed(slots, x) == if i < |slots| then slots[i := x] else slots + [x]
    ensures i < |slots| ==> slots[i].Free?
    ensures Total(Placed(slots, x)) == Total(slots) + SizeOf(x)
  {
    if slots == [] || slots[0].Free? {
      i := 0;
    } else {
      var k := PlacedAt(slots[1..], x);
      i := k + 1;
      assert slots == [slots[0]] + slots[1..];
    }
  }

  /** `write_cache_entry`: an object that is too large changes nothing; otherwise room is made and the entry placed. */
  ghost predicate Written(slots: seq<Slot>, key: string, data: string, out: seq<Slot>) {
    if |data| > MAX_OBJECT_SIZE then out == slots
    else exists room: seq<Slot> :: RoomMade(slots, |data|, room) && out == Placed(room, Used(key, data, 1))
  }

  /** After a write, the new entry is there, everything else there was there before, and the bound holds. */
  lemma WriteKeeps(slots: seq<Slot>, key: string, data: string, out: seq<Slot>)
    requires Written(slots, key, data, out) && Touched(slots) && Total(slots) <= MAX_CACHE_SIZE
    ensures Touched(out) && Total(out) <= MAX_CACHE_SIZE
    ensures |data| <= MAX_OBJECT_SIZE ==> Used(key, data, 1) in out
    ensures forall x :: x in out && x.Used? ==> x in slots || x == Used(key, data, 1)
  {
    if |data| <= MAX_OBJECT_SIZE {
      var room: seq<Slot> :| RoomMade(slots, |data|, room) && out == Placed(room, Used(key, data, 1));
      MadeFairly(slots, |data|, room);
      var i := PlacedAt(room, Used(key, data, 1));
      assert out[i] == Used(key, data, 1);
      forall j | 0 <= j < |out| && out[j].Used? && j != i
        ensures out[j] in slots && out[j].touched > 0
      {
        assert out[j] == room[j] == slots[j];
      }
    }
  }

  /** The two bounds of the cache: objects of more than 102400 bytes are never stored, all others are, and everything stored
      has at most 1049000 bytes. */
  lemma BoundsTold(slots: seq<Slot>, key: string, data: string, out: seq<Slot>)
    requires Written(slots, key, data, out) && Touched(slots) && Total(slots) <= MAX_CACHE_SIZE
    ensures Total(out) <= 1049000
    ensures if |data| > 102400 then out == slots else Used(key, data, 1) in out
    ensures |data| <= 102400 && Total(slots) + |data| <= 1049000 ==> Total(out) == Total(slots) + |data|
  {
    hide Touched, Placed;
    WriteKeeps(slots, key, data, out);
    if |data| <= MAX_OBJECT_SIZE && Total(slots) + |data| <= MAX_CACHE_SIZE {
      var i := PlacedAt(slots, Used(key, data, 1));
    }
  }

  // ---- reading

  /** The first entry with the key. */
  function Lookup(slots: seq<Slot>, key: string): (r: Result) {
    if slots == [] then NotFound
    else if slots[0].Used? && slots[0].key == key then Found(slots[0].data)
    else Lookup(slots[1..], key)
  }

  /** The slots with the first entry of the key touched once more. */
  function TouchedFirst(slots: seq<Slot>, key: string): seq<Slot> {
    if slots == [] then []
    else if slots[0].Used? && slots[0].key == key then [slots[0].(touched := slots[0].touched + 1)] + slots[1..]
    else [slots[0]] + TouchedFirst(slots[1..], key)
  }

  predicate NoneBefore(slots: seq<Slot>, key: string, i: nat) {
    i <= |slots| && forall j :: 0 <= j < i ==> !(slots[j].Used? && slots[j].key == key)
  }

  /** Slot i is the first that can answer. */
  lemma {:induction false} LookupAt(slots: seq<Slot>, key: string, i: nat)
    requires NoneBefore(slots, key, i)
    ensures i == |slots| ==> Lookup(slots, key) == NotFound
    ensures i < |slots| && slots[i].Used? && slots[i].key == key ==> Lookup(slots, key) == Found(slots[i].data)
  {
    if i > 0 {
      assert NoneBefore(slots[1..], key, i - 1);
      LookupAt(slots[1..], key, i - 1);
    }
  }

  lemma {:induction false} TouchedAt(slots: seq<Slot>, key: string, i: nat)
    requires NoneBefore(slots, key, i) && (i < |slots| ==> slots[i].Used? && slots[i].key == key)
    ensures TouchedFirst(slots, key)
         == if i < |slots| then slots[i := slots[i].(touched := slots[i].touched + 1)] else slots
  {
    if i > 0 {
      assert NoneBefore(slots[1..], key, i - 1);
      TouchedAt(slots[1..], key, i - 1);
      assert slots == [slots[0]] + slots[1..];
    }
  }

  /** The entries in front of the first free slot. */
  function FrontEntries(slots: seq<Slot>): seq<Slot> {
    if slots == [] || slots[0].Free? then [] else [slots[0]] + FrontEntries(slots[1..])
  }

  lemma {:induction false} PlacedSeen(room: seq<Slot>, key: string, data: string)
    ensures Lookup(Placed(room, Used(key, data, 1)), key) == Found(data)
            <==> Lookup(FrontEntries(room), key) in {NotFound, Found(data)}
  {
    if room != [] && room[0].Used? {
      PlacedSeen(room[1..], key, data);
    }
  }

  /** Which entries are evicted is determined. */
  lemma {:induction false} OneRoom(slots: seq<Slot>, size: nat, room: seq<Slot>, other: seq<Slot>)
    requires RoomMade(slots, size, room) && RoomMade(slots, size, other)
    ensures room == other
    decreases UsedCount(slots)
  {
    if Total(slots) + size > MAX_CACHE_SIZE {
      var i: nat :| i < |slots| && IsVictim(slots, i) && Shrinks(slots, i) && RoomMade(Without(slots, i), size, room);
      var j: nat :| j < |slots| && IsVictim(slots, j) && Shrinks(slots, j) && RoomMade(Without(slots, j), size, other);
      assert i == j;
      OneRoom(Without(slots, i), size, room, other);
    }
  }

  /** WHEN A WRITE IS SEEN: the next read of its key finds what was written exactly when, after the eviction, no entry in
      front of the first free slot has the key with other data; if nothing needs to be evicted, that is told by the cache
      before the write. An object that is too large is found only if it was there. */
  lemma WriteSeenUnlessBehind(slots: seq<Slot>, key: string, data: string, out: seq<Slot>)
    requires Written(slots, key, data, out)
    ensures |data| > MAX_OBJECT_SIZE ==> Lookup(out, key) == Lookup(slots, key)
    ensures |data| <= MAX_OBJECT_SIZE ==>
              forall room: seq<Slot> :: RoomMade(slots, |data|, room) ==>
                (Lookup(out, key) == Found(data) <==> Lookup(FrontEntries(room), key) in {NotFound, Found(data)})
    ensures |data| <= MAX_OBJECT_SIZE && Total(slots) + |data| <= MAX_CACHE_SIZE ==>
              (Lookup(out, key) == Found(data) <==> Lookup(FrontEntries(slots), key) in {NotFound, Found(data)})
  {
    if |data| <= MAX_OBJECT_SIZE {
      var made: seq<Slot> :| RoomMade(slots, |data|, made) && out == Placed(made, Used(key, data, 1));
      PlacedSeen(made, key, data);
      forall room: seq<Slot> | RoomMade(slots, |data|, room)
        ensures room == made
      {
        OneRoom(slots, |data|, room, made);
      }
    }
  }

  /** THE LATEST WRITE IS NOT ALWAYS THE ONE READ: writing a key again leaves the old entry, and the slot further in front
      answers. */
  lemma SecondWriteUnseen(key: string) returns (one: seq<Slot>, two: seq<Slot>)
    ensures Written([], key, "a", one) && Written(one, key, "b", two) && Lookup(two, key) == Found("a")
  {
    one := [Used(key, "a", 1)];
    two := [Used(key, "a", 1), Used(key, "b", 1)];
    assert RoomMade([], 1, []) && Placed([], Used(key, "a", 1)) == one;
    assert Total(one) == 1;
    assert RoomMade(one, 1, one);
    assert Placed(one, Used(key, "b", 1)) == two by {
      assert one[1..] == [];
    }
  }

  class Cache {
    var entries: seq<Slot>
    var totalSize: nat

    ghost predicate Valid()
      reads this
    {
      Touched(entries) && totalSize == Total(entries) <= MAX_CACHE_SIZE
    }

    /** `init_cache` */
    constructor ()
      ensures Valid() && entries == []
    {
      entries := [];
      totalSize := 0;
    }

    /** `evict_cache_entry_` removes the least touched entry, if there is one. */
    method Evict()
      requires Touched(entries) && totalSize == Total(entries)
      modifies this
      ensures Touched(entries) && totalSize == Total(entries)
      ensures if Empty(old(entries)) then entries == old(entries)
              else exists i: nat {:trigger IsVictim(old(entries), i)} ::
                     && i < |old(entries)| && IsVictim(old(entries), i) && Shrinks(old(entries), i)
                     && entries == Without(old(entries), i)
    {
      var evictIndex, minTouch := 0, 0;
      for i := 0 to |entries|
        invariant minTouch == 0 ==> forall j :: 0 <= j < i ==> entries[j].Free?
        invariant minTouch != 0 ==> evictIndex < i && entries[evictIndex].Used? && entries[evictIndex].touched == minTouch
        invariant minTouch != 0 ==> forall j :: 0 <= j < i && entries[j].Used? ==>
                                      minTouch <= entries[j].touched && (minTouch == entries[j].touched ==> evictIndex <= j)
        invariant entries == old(entries) && totalSize == old(totalSize)
      {
        if entries[i].Free? {
          continue;
        }
        if minTouch == 0 || entries[i].touched < minTouch {
          evictIndex := i;
          minTouch := entries[i].touched;
        }
      }
      if minTouch == 0 {
        return;
      }
      assert IsVictim(entries, evictIndex);
      WithoutCounts(entries, evictIndex);
      totalSize := totalSize - |entries[evictIndex].data|;
      entries := if evictIndex == |entries| - 1 then entries[..evictIndex] else entries[evictIndex := Free];
    }

    /** The eviction loop of `write_cache_entry`. */
    method MakeRoom(size: nat)
      requires Valid() && size <= MAX_CACHE_SIZE
      modifies this
      ensures Valid() && RoomMade(old(entries), size, entries)
    {
      ghost var slots := entries;
      while totalSize + size > MAX_CACHE_SIZE
        invariant Touched(entries) && totalSize == Total(entries) <= MAX_CACHE_SIZE
        invariant forall out: seq<Slot> :: RoomMade(entries, size, out) ==> RoomMade(slots, size, out)
        decreases UsedCount(entries)
      {
        ghost var used := SomeUsed(entries);
        ghost var before := entries;
        Evict();
        ghost var i: nat :| i < |before| && IsVictim(before, i) && Shrinks(before, i) && entries == Without(before, i);
        WithoutCounts(before, i);
      }
      assert RoomMade(entries, size, entries);
    }

    /** The placing loop of `write_cache_entry`. */
    method Place(entry: Slot)
      requires Valid() && entry.Used? && entry.touched > 0 && totalSize + SizeOf(entry) <= MAX_CACHE_SIZE
      modifies this
      ensures entries == Placed(old(entries), entry) && totalSize == old(totalSize) + |entry.data|
      ensures totalSize == Total(entries)
    {
      ghost var room := entries;
      var foundPlace := false;
      var i := 0;
      while i < |entries|
        invariant 0 <= i <= |room| && entries == room && !foundPlace && totalSize == old(totalSize)
        invariant forall j :: 0 <= j < i ==> room[j].Used?
      {
        if entries[i].Used? {
          i := i + 1;
          continue;
        }
        foundPlace := true;
        entries := entries[i := entry];
        break;
      }
      if !foundPlace {
        entries := entries + [entry];
      }
      PlacedFirst(room, entry, i);
      totalSize := totalSize + |entry.data|;
    }

    /** `write_cache_entry` */
    method Write(key: string, data: string)
      requires Valid()
      modifies this
      ensures Valid() && Written(old(entries), key, data, entries)
    {
      hide RoomMade, Touched, Placed;
      if |data| > MAX_OBJECT_SIZE {
        return;
      }
      ghost var slots := entries;
      MakeRoom(|data|);
      RoomEnough(slots, |data|, entries);
      Place(Used(key, data, 1));
      WriteKeeps(slots, key, data, entries);
    }

    /** What `read_cache_entry` does between its two critical sections. */
    method Read(key: string, increaseTouch: bool) returns (r: Result)
      requires Valid()
      modifies this
      ensures Valid() && r == Lookup(old(entries), key)
      ensures entries == if increaseTouch then TouchedFirst(old(entries), key) else old(entries)
    {
      r := NotFound;
      var i := 0;
      while i < |entries|
        invariant 0 <= i <= |entries| && entries == old(entries) && totalSize == old(totalSize) && r == NotFound
        invariant NoneBefore(entries, key, i)
      {
        if entries[i].Free? || entries[i].key != key {
          i := i + 1;
          continue;
        }
        LookupAt(entries, key, i);
        TouchedAt(entries, key, i);
        r := Found(entries[i].data);
        if increaseTouch {
          SlotUpdated(entries, i, entries[i].(touched := entries[i].touched + 1));
          entries := entries[i := entries[i].(touched := entries[i].touched + 1)];
        }
        return;
      }
      LookupAt(entries, key, i);
      TouchedAt(entries, key, i);
    }
  }

  lemma {:induction false} PlacedFirst(slots: seq<Slot>, x: Slot, i: nat)
    requires i <= |slots| && (forall j :: 0 <= j < i ==> slots[j].Used?) && (i < |slots| ==> slots[i].Free?)
    ensures Placed(slots, x) == if i < |slots| then slots[i := x] else slots + [x]
    ensures Total(Placed(slots, x)) == Total(slots) + SizeOf(x)
  {
    var k := PlacedAt(slots, x);
  }
}
