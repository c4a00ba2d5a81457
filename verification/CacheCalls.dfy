/** The calls of the object cache followed through every interleaving: which arguments a thread works with, and which reads
    count as touches. */
module CacheCalls {
  import opened ObjectCache
  import opened ReadersWriters

  /** What the events tell of a thread: its last call, and whether in that call it was the one to raise the reader count
      from 0 to 1. */
  datatype Note = Note(call: Event, first: bool)

  ghost function Noted(notes: seq<Note>, s: State, e: Event): seq<Note>
    requires Enabled(s, e) && |notes| == |s.threads|
  {
    var t := e.thread;
    if !e.Go? then notes[t := Note(e, false)]
    else if s.threads[t].Counting? then notes[t := notes[t].(first := Next(s, e).readcnt == 1)]
    else notes
  }

  ghost function NotesAfter(notes: seq<Note>, s: State, run: seq<Event>): seq<Note>
    requires Legal(s, run) && |notes| == |s.threads|
    decreases run
  {
    if run == [] then notes else NotesAfter(Noted(notes, s, run[0]), Next(s, run[0]), run[1..])
  }

  predicate Reads(note: Note, key: string) { note.call.Read? && note.call.key == key }

  predicate Writes(note: Note, key: string, data: string) {
    note.call.Write? && note.call.key == key && note.call.data == data
  }

  /** The thread works with the arguments of its call, and means to count a touch exactly if it was first in. */
  predicate Knows(pc: Pc, note: Note) {
    match pc
    case Entering(key) => Reads(note, key)
    case Counting(key, _) => Reads(note, key)
    case First(key) => Reads(note, key) && note.first
    case Opened(key, touch) => Reads(note, key) && touch == note.first
    case Scanning(key, touch, _, _) => Reads(note, key) && touch == note.first
    case Touching(key, _, _, _) => Reads(note, key) && note.first
    case Copying(key, _, _) => Reads(note, key)
    case Finished(key, _, _) => Reads(note, key)
    case Writing(key, data, _) => Writes(note, key, data)
    case Wrote(key, data, _) => Writes(note, key, data)
    case _ => true
  }

  predicate AllKnow(s: State, notes: seq<Note>) {
    |notes| == |s.threads| && forall t :: 0 <= t < |notes| ==> Knows(s.threads[t], notes[t])
  }

  lemma KnowsKept(s: State, e: Event, notes: seq<Note>)
    requires Enabled(s, e) && AllKnow(s, notes)
    ensures AllKnow(Next(s, e), Noted(notes, s, e))
  {
    hide Total, HasVictim, Placed;
    var s', notes' := Next(s, e), Noted(notes, s, e);
    forall t | 0 <= t < |notes'|
      ensures Knows(s'.threads[t], notes'[t])
    {
      assert Knows(s.threads[t], notes[t]);
    }
  }

  /** EVERY CALL WORKS WITH ITS OWN ARGUMENTS: in every run, a thread inside a read or a write has the key, and the data, that
      the call was given, and of the readers exactly those that raised the reader count from 0 to 1 are to count a touch. */
  lemma {:induction false} ArgumentsKept(s: State, run: seq<Event>, notes: seq<Note>)
    requires Legal(s, run) && AllKnow(s, notes)
    ensures AllKnow(After(s, run), NotesAfter(notes, s, run))
    decreases run
  {
    hide Next, Enabled, Knows, Noted;
    if run != [] {
      KnowsKept(s, run[0], notes);
      SameLength(s, run[0], notes);
      ArgumentsKept(Next(s, run[0]), run[1..], Noted(notes, s, run[0]));
    }
  }

  lemma SameLength(s: State, e: Event, notes: seq<Note>)
    requires Enabled(s, e) && |notes| == |s.threads|
    ensures |Noted(notes, s, e)| == |Next(s, e).threads|
  {
    hide Total, HasVictim, Placed;
  }

  // ---- counting touches

  /** Slot i holds an entry. */
  predicate Holding(slots: seq<Slot>, i: nat) { i < |slots| && slots[i].Used? }

  /** The event ends a hit on slot i by a reader that was first in. */
  predicate FirstHit(s: State, e: Event, note: Note, i: nat) {
    && e.Go? && e.thread < |s.threads| && s.threads[e.thread].Copying? && note.first && note.call.Read?
    && i < |s.slots| && NoneBefore(s.slots, note.call.key, i) && Matches(s.slots[i], note.call.key)
  }

  /** The hits on slot i by readers that were first in, since its entry was placed, one event later. */
  ghost function HitsNext(h: nat, s: State, e: Event, notes: seq<Note>, i: nat): nat
    requires Enabled(s, e) && |notes| == |s.threads|
  {
    if !Holding(Next(s, e).slots, i) then 0 else h + One(FirstHit(s, e, notes[e.thread], i))
  }

  ghost function HitsAfter(h: nat, s: State, run: seq<Event>, notes: seq<Note>, i: nat): nat
    requires Legal(s, run) && |notes| == |s.threads|
    decreases run
  {
    if run == [] then h
    else HitsAfter(HitsNext(h, s, run[0], notes, i), Next(s, run[0]), run[1..], Noted(notes, s, run[0]), i)
  }

  /** A reader that was first in has touched slot i and copies its data. */
  predicate Copies(pc: Pc, note: Note, i: nat) { pc.Copying? && pc.i == i && note.first }

  function Copiers(threads: seq<Pc>, notes: seq<Note>, i: nat): nat
    requires |threads| == |notes|
  {
    if threads == [] then 0 else One(Copies(threads[0], notes[0], i)) + Copiers(threads[1..], notes[1..], i)
  }

  lemma {:induction false} CopiersUpdate(threads: seq<Pc>, notes: seq<Note>, i: nat, t: nat, pc: Pc, note: Note)
    requires t < |threads| == |notes|
    ensures Copiers(threads[t := pc], notes[t := note], i) + One(Copies(threads[t], notes[t], i))
         == Copiers(threads, notes, i) + One(Copies(pc, note, i))
  {
    hide Copies;
    if t == 0 {
      assert threads[t := pc][1..] == threads[1..] && notes[t := note][1..] == notes[1..];
    } else {
      assert threads[t := pc][1..] == threads[1..][t - 1 := pc] && notes[t := note][1..] == notes[1..][t - 1 := note];
      CopiersUpdate(threads[1..], notes[1..], i, t - 1, pc, note);
    }
  }

  lemma {:induction false} NoCopiers(threads: seq<Pc>, notes: seq<Note>, i: nat)
    requires |threads| == |notes| && forall t :: 0 <= t < |threads| ==> !threads[t].Copying?
    ensures Copiers(threads, notes, i) == 0
  {
    if threads != [] {
      NoCopiers(threads[1..], notes[1..], i);
    }
  }

  /** The touches of the entry in slot i are 1 for its placing, one for every hit by a reader that was first in, and one for
      every such reader that is just copying. */
  predicate Account(s: State, notes: seq<Note>, i: nat, h: nat)
    requires |notes| == |s.threads|
  {
    if Holding(s.slots, i) then s.slots[i].touched == 1 + h + Copiers(s.threads, notes, i) else h == 0
  }

  /** A step of thread t changes its own program counter and note only. */
  lemma OnlyOwn(s: State, e: Event, notes: seq<Note>)
    requires Enabled(s, e) && |notes| == |s.threads|
    ensures var t, s', notes' := e.thread, Next(s, e), Noted(notes, s, e);
            && |s'.threads| == |s.threads| == |notes'|
            && s'.threads == s.threads[t := s'.threads[t]] && notes' == notes[t := notes'[t]]
  {
    hide Total, HasVictim, Placed;
  }

  lemma AccountKept(s: State, e: Event, notes: seq<Note>, i: nat, h: nat)
    requires Inv(s) && Enabled(s, e) && AllKnow(s, notes) && Account(s, notes, i, h)
    ensures |Noted(notes, s, e)| == |Next(s, e).threads|
    ensures Account(Next(s, e), Noted(notes, s, e), i, HitsNext(h, s, e, notes, i))
  {
    hide Inv, Knows, Next, Noted;
    OnlyOwn(s, e, notes);
    if e.Go? && s.threads[e.thread].Writing? {
      WritingAccount(s, e.thread, notes, i, h);
    } else if e.Go? && s.threads[e.thread].Touching? {
      TouchingAccount(s, e.thread, notes, i, h);
    } else if e.Go? && s.threads[e.thread].Copying? {
      CopyingAccount(s, e.thread, notes, i, h);
    } else {
      OtherAccount(s, e, notes, i, h);
    }
  }

  lemma OtherAccount(s: State, e: Event, notes: seq<Note>, i: nat, h: nat)
    requires Enabled(s, e) && AllKnow(s, notes) && Account(s, notes, i, h)
    requires !(e.Go? && (s.threads[e.thread].Writing? || s.threads[e.thread].Touching? || s.threads[e.thread].Copying?))
    ensures |Noted(notes, s, e)| == |Next(s, e).threads| && Next(s, e).slots == s.slots
    ensures Account(Next(s, e), Noted(notes, s, e), i, HitsNext(h, s, e, notes, i))
  {
    hide Total, HasVictim, Placed, Copiers;
    OnlyOwn(s, e, notes);
    var t, s', notes' := e.thread, Next(s, e), Noted(notes, s, e);
    assert Knows(s.threads[t], notes[t]);
    CopiersUpdate(s.threads, notes, i, t, s'.threads[t], notes'[t]);
  }

  lemma TouchingAccount(s: State, t: nat, notes: seq<Note>, i: nat, h: nat)
    requires Inv(s) && Enabled(s, Go(t)) && AllKnow(s, notes) && Account(s, notes, i, h) && s.threads[t].Touching?
    ensures |Noted(notes, s, Go(t))| == |Next(s, Go(t)).threads|
    ensures Account(Next(s, Go(t)), Noted(notes, s, Go(t)), i, HitsNext(h, s, Go(t), notes, i))
  {
    hide Total, HasVictim, Placed, Copiers, Locked, Stored;
    assert Knows(s.threads[t], notes[t]);
    assert ThreadOk(s.slots, s.log, s.threads[t]);
    CopiersUpdate(s.threads, notes, i, t, Next(s, Go(t)).threads[t], notes[t]);
    assert notes[t := notes[t]] == notes;
  }

  lemma CopyingAccount(s: State, t: nat, notes: seq<Note>, i: nat, h: nat)
    requires Inv(s) && Enabled(s, Go(t)) && AllKnow(s, notes) && Account(s, notes, i, h) && s.threads[t].Copying?
    ensures |Noted(notes, s, Go(t))| == |Next(s, Go(t)).threads|
    ensures Account(Next(s, Go(t)), Noted(notes, s, Go(t)), i, HitsNext(h, s, Go(t), notes, i))
  {
    hide Total, HasVictim, Placed, Copiers, Locked, Stored;
    assert Knows(s.threads[t], notes[t]);
    assert ThreadOk(s.slots, s.log, s.threads[t]);
    var k := s.threads[t].i;
    assert FirstHit(s, Go(t), notes[t], i) <==> notes[t].first && i == k;
    CopiersUpdate(s.threads, notes, i, t, Next(s, Go(t)).threads[t], notes[t]);
    assert notes[t := notes[t]] == notes;
  }

  lemma WritingAccount(s: State, t: nat, notes: seq<Note>, i: nat, h: nat)
    requires Inv(s) && Enabled(s, Go(t)) && |notes| == |s.threads| && Account(s, notes, i, h) && s.threads[t].Writing?
    ensures |Noted(notes, s, Go(t))| == |Next(s, Go(t)).threads|
    ensures Account(Next(s, Go(t)), Noted(notes, s, Go(t)), i, HitsNext(h, s, Go(t), notes, i))
  {
    hide Copiers, Locked, Stored, ThreadOk, Total, IsVictim;
    forall u | 0 <= u < |s.threads|
      ensures !s.threads[u].Copying?
    {
      if u != t {
        Exclusion(s, t, u);
      }
    }
    NoCopiers(s.threads, notes, i);
    NoCopiers(Next(s, Go(t)).threads, notes, i);
    var key, data := s.threads[t].key, s.threads[t].data;
    if Total(s.slots) + |data| > MAX_CACHE_SIZE {
      var k := EvictedShape(s.slots);
    } else {
      var k := PlacedAt(s.slots, Used(key, data, 1));
    }
  }

  lemma {:induction false} AccountsKept(s: State, run: seq<Event>, notes: seq<Note>, i: nat, h: nat)
    requires Inv(s) && Legal(s, run) && AllKnow(s, notes) && Account(s, notes, i, h)
    ensures |NotesAfter(notes, s, run)| == |After(s, run).threads|
    ensures Account(After(s, run), NotesAfter(notes, s, run), i, HitsAfter(h, s, run, notes, i))
    decreases run
  {
    hide Inv, Next, Enabled, Account, Noted, HitsNext;
    if run != [] {
      InvKept(s, run[0]);
      KnowsKept(s, run[0], notes);
      AccountKept(s, run[0], notes, i, h);
      AccountsKept(Next(s, run[0]), run[1..], Noted(notes, s, run[0]), i, HitsNext(h, s, run[0], notes, i));
    }
  }

  /** WHAT COUNTS AS A TOUCH: in every run of any number of threads, an entry has been touched once for its placing and once
      for every hit, since then, by a reader that raised the reader count from 0 to 1, finished or copying. */
  lemma TouchesCounted(threads: nat, run: seq<Event>, notes: seq<Note>, i: nat)
    requires Legal(Init(threads), run) && |notes| == threads
    ensures var s, notes' := After(Init(threads), run), NotesAfter(notes, Init(threads), run);
            && |notes'| == |s.threads|
            && (Holding(s.slots, i) ==>
                  s.slots[i].touched == 1 + HitsAfter(0, Init(threads), run, notes, i) + Copiers(s.threads, notes', i))
  {
    hide Inv, Next, Enabled;
    InitOk(threads);
    AccountsKept(Init(threads), run, notes, i, 0);
  }

  /** NO OTHER READER COUNTS: a step of a reader changes the slots only if it was first in, and then only the touches of the
      entry with its key. */
  lemma OnlyFirstTouches(s: State, e: Event, notes: seq<Note>)
    requires Inv(s) && Enabled(s, e) && AllKnow(s, notes)
    requires !(e.Go? && s.threads[e.thread].Writing?)
    ensures Next(s, e).slots != s.slots ==>
              && notes[e.thread].first && notes[e.thread].call.Read?
              && Next(s, e).slots == TouchedFirst(s.slots, notes[e.thread].call.key)
  {
    hide Total, HasVictim, Placed, Locked, Stored, TouchedFirst;
    assert Knows(s.threads[e.thread], notes[e.thread]);
    assert ThreadOk(s.slots, s.log, s.threads[e.thread]);
    if e.Go? && s.threads[e.thread].Touching? {
      TouchedAt(s.slots, s.threads[e.thread].key, s.threads[e.thread].i);
    }
  }

  // ---- a read on its own

  ghost function Went(s: State, t: nat, k: nat): State
    requires Legal(s, seq(k, _ => Go(t)))
  {
    After(s, seq(k, _ => Go(t)))
  }

  lemma GoOnce(s: State, t: nat, k: nat)
    requires Enabled(s, Go(t)) && Legal(Next(s, Go(t)), seq(k, _ => Go(t)))
    ensures Legal(s, seq(k + 1, _ => Go(t))) && Went(s, t, k + 1) == Went(Next(s, Go(t)), t, k)
  {
    var run := seq(k + 1, _ => Go(t));
    assert run[0] == Go(t) && run[1..] == seq(k, _ => Go(t));
  }

  /** The scan of a lone reader that is first in. */
  lemma {:induction false} LoneScan(s: State, t: nat, key: string, i: nat) returns (k: nat)
    requires t < |s.threads| && s.threads[t].Scanning? && s.threads[t].key == key && s.threads[t].touch
    requires s.threads[t].i == i && NoneBefore(s.slots, key, i)
    ensures Legal(s, seq(k, _ => Go(t)))
    ensures var s' := Went(s, t, k);
            && s' == s.(slots := TouchedFirst(s.slots, key), threads := s'.threads)
            && s'.threads == s.threads[t := Finished(key, Lookup(s.slots, key), s.threads[t].seen)]
    decreases |s.slots| - i
  {
    hide TouchedFirst, Lookup;
    var s1 := Next(s, Go(t));
    if i == |s.slots| {
      LookupAt(s.slots, key, i);
      TouchedAt(s.slots, key, i);
      GoOnce(s, t, 0);
      k := 1;
    } else if Matches(s.slots[i], key) {
      LookupAt(s.slots, key, i);
      TouchedAt(s.slots, key, i);
      var s2 := Next(s1, Go(t));
      var s3 := Next(s2, Go(t));
      GoOnce(s2, t, 0);
      GoOnce(s1, t, 1);
      GoOnce(s, t, 2);
      k := 3;
    } else {
      var n := LoneScan(s1, t, key, i + 1);
      GoOnce(s, t, n);
      k := n + 1;
    }
  }

  lemma {:induction false} GoMore(s: State, t: nat, n: nat, m: nat)
    requires Legal(s, seq(n, _ => Go(t))) && Legal(Went(s, t, n), seq(m, _ => Go(t)))
    ensures Legal(s, seq(n + m, _ => Go(t))) && Went(s, t, n + m) == Went(Went(s, t, n), t, m)
    decreases n
  {
    hide Next, Enabled;
    if n > 0 {
      var run := seq(n, _ => Go(t));
      assert run[0] == Go(t) && run[1..] == seq(n - 1, _ => Go(t));
      GoMore(Next(s, Go(t)), t, n - 1, m);
      GoOnce(s, t, n - 1 + m);
    }
  }

  ghost predicate Goes(s: State, t: nat, s': State) { Enabled(s, Go(t)) && Next(s, Go(t)) == s' }

  /** The steps at the gate and at the exit. */
  lemma GateSteps(s: State, t: nat, key: string)
    requires t < |s.threads|
    ensures s.threads[t] == Entering(key) ==> Goes(s, t, s.(threads := s.threads[t := Counting(key, s.readcnt)]))
    ensures s.threads[t] == Counting(key, 0) ==> Goes(s, t, s.(readcnt := 1, threads := s.threads[t := First(key)]))
    ensures s.threads[t] == First(key) && s.w > 0 ==>
              Goes(s, t, s.(w := s.w - 1, threads := s.threads[t := Opened(key, true)]))
    ensures s.threads[t] == Opened(key, true) ==>
              Goes(s, t, s.(mutex := s.mutex + 1, threads := s.threads[t := Scanning(key, true, 0, s.slots)]))
  {
    hide Total, HasVictim, Placed;
  }

  lemma ExitSteps(s: State, t: nat)
    requires t < |s.threads|
    ensures s.threads[t].Finished? && s.mutex > 0 ==> Goes(s, t, s.(mutex := s.mutex - 1, threads := s.threads[t := Leaving]))
    ensures s.threads[t].Leaving? ==> Goes(s, t, s.(threads := s.threads[t := Uncounting(s.readcnt)]))
    ensures s.threads[t] == Uncounting(1) ==> Goes(s, t, s.(readcnt := 0, threads := s.threads[t := Last]))
    ensures s.threads[t].Last? ==> Goes(s, t, s.(w := s.w + 1, threads := s.threads[t := Closed]))
    ensures s.threads[t].Closed? ==> Goes(s, t, s.(mutex := s.mutex + 1, threads := s.threads[t := Outside]))
  {
    hide Total, HasVictim, Placed;
  }

  lemma Twice(threads: seq<Pc>, t: nat, a: Pc, b: Pc)
    requires t < |threads|
    ensures threads[t := a][t := b] == threads[t := b]
  {
  }

  /** The four steps that let a lone reader in. */
  lemma LoneEntry(s: State, t: nat, key: string)
    requires t < |s.threads| && s.threads[t] == Entering(key) && s.readcnt == 0 && s.w > 0
    ensures Legal(s, seq(4, _ => Go(t)))
    ensures Went(s, t, 4) == s.(mutex := s.mutex + 1, w := s.w - 1, readcnt := 1,
                                threads := s.threads[t := Scanning(key, true, 0, s.slots)])
  {
    hide Next, Enabled;
    var c, f, o := Counting(key, 0), First(key), Opened(key, true);
    var s1 := s.(threads := s.threads[t := c]);
    var s2 := s1.(readcnt := 1, threads := s.threads[t := f]);
    var s3 := s2.(w := s.w - 1, threads := s.threads[t := o]);
    Twice(s.threads, t, c, f);
    Twice(s.threads, t, f, o);
    Twice(s.threads, t, o, Scanning(key, true, 0, s.slots));
    GateSteps(s, t, key);
    GateSteps(s1, t, key);
    GateSteps(s2, t, key);
    GateSteps(s3, t, key);
    GoOnce(s3, t, 0);
    GoOnce(s2, t, 1);
    GoOnce(s1, t, 2);
    GoOnce(s, t, 3);
  }

  /** The five steps that let it out. */
  lemma LoneExit(s: State, t: nat)
    requires t < |s.threads| && s.threads[t].Finished? && s.readcnt == 1 && s.mutex > 0
    ensures Legal(s, seq(5, _ => Go(t)))
    ensures Went(s, t, 5) == s.(w := s.w + 1, readcnt := 0, threads := s.threads[t := Outside])
  {
    hide Next, Enabled;
    var s1 := s.(mutex := s.mutex - 1, threads := s.threads[t := Leaving]);
    var s2 := s1.(threads := s.threads[t := Uncounting(1)]);
    var s3 := s2.(readcnt := 0, threads := s.threads[t := Last]);
    var s4 := s3.(w := s.w + 1, threads := s.threads[t := Closed]);
    Twice(s.threads, t, Leaving, Uncounting(1));
    Twice(s.threads, t, Uncounting(1), Last);
    Twice(s.threads, t, Last, Closed);
    Twice(s.threads, t, Closed, Outside);
    ExitSteps(s, t);
    ExitSteps(s1, t);
    ExitSteps(s2, t);
    ExitSteps(s3, t);
    ExitSteps(s4, t);
    GoOnce(s4, t, 0);
    GoOnce(s3, t, 1);
    GoOnce(s2, t, 2);
    GoOnce(s1, t, 3);
    GoOnce(s, t, 4);
  }

  /** A READ ON ITS OWN: while no other call is going on, a read of a key comes to its end, and all it leaves behind is one
      more touch of the entry that answers. */
  lemma LoneRead(s: State, t: nat, key: string) returns (k: nat)
    requires t < |s.threads| && s.threads[t].Outside? && s.mutex > 0 && s.w > 0 && s.readcnt == 0
    ensures Enabled(s, Read(t, key)) && Legal(Next(s, Read(t, key)), seq(k, _ => Go(t)))
    ensures Went(Next(s, Read(t, key)), t, k) == s.(slots := TouchedFirst(s.slots, key))
  {
    hide Legal, After, Went, TouchedFirst, Lookup;
    var s0 := Next(s, Read(t, key));
    LoneEntry(s0, t, key);
    var s1 := Went(s0, t, 4);
    var n := LoneScan(s1, t, key, 0);
    var s2 := Went(s1, t, n);
    LoneExit(s2, t);
    GoMore(s0, t, 4, n);
    GoMore(s0, t, 4 + n, 5);
    k := 4 + n + 5;
    assert Went(s2, t, 5).threads == s.threads;
  }

  // ---- a write on its own

  /** The steps of a writer until its entry is in its place. */
  lemma {:induction false} LoneWriter(s: State, t: nat) returns (k: nat)
    requires Inv(s) && t < |s.threads| && s.threads[t].Writing?
    ensures Legal(s, seq(k, _ => Go(t))) && Inv(Went(s, t, k))
    ensures var s', pc := Went(s, t, k), s.threads[t];
            s' == s.(slots := s'.slots, log := s.log + {(pc.key, pc.data)},
                     threads := s.threads[t := Wrote(pc.key, pc.data, pc.seen)])
    decreases UsedCount(s.slots)
  {
    hide Inv, Placed, Evicted, Total, HasVictim, UsedCount;
    OnlySemaphoresBlock(s, t);
    InvKept(s, Go(t));
    EvictionEnds(s, t);
    var s1, pc := Next(s, Go(t)), s.threads[t];
    if Total(s.slots) + |pc.data| > MAX_CACHE_SIZE {
      assert s1.threads == s.threads;
      var n := LoneWriter(s1, t);
      GoOnce(s, t, n);
      k := n + 1;
    } else {
      GoOnce(s, t, 0);
      k := 1;
    }
  }

  lemma WroteWhat(s: State, t: nat)
    requires Inv(s) && t < |s.threads| && s.threads[t].Wrote?
    ensures Written(s.threads[t].seen, s.threads[t].key, s.threads[t].data, s.slots)
  {
    assert ThreadOk(s.slots, s.log, s.threads[t]);
  }

  /** A WRITE ON ITS OWN: while no other call is going on, the write of an object of up to 102400 bytes comes to its end,
      and leaves the entries as after that write; a larger one is over at once and leaves everything as it is. */
  lemma LoneWrite(s: State, t: nat, key: string, data: string) returns (k: nat)
    requires Inv(s) && t < |s.threads| && s.threads[t].Outside? && s.w > 0
    ensures Enabled(s, Write(t, key, data)) && Legal(Next(s, Write(t, key, data)), seq(k, _ => Go(t)))
    ensures var s' := Went(Next(s, Write(t, key, data)), t, k);
            && Written(s.slots, key, data, s'.slots)
            && s' == s.(slots := s'.slots, log := if |data| > 102400 then s.log else s.log + {(key, data)})
  {
    hide Inv, Written, Legal, After, Went;
    var s0 := Next(s, Write(t, key, data));
    if |data| > 102400 {
      k := 0;
      NoSteps(s, t);
      TooLarge(s.slots, key, data);
    } else {
      InvKept(s, Write(t, key, data));
      var n := LoneWriter(s0, t);
      var s1 := Went(s0, t, n);
      WroteWhat(s1, t);
      var s2 := Next(s1, Go(t));
      NoSteps(s2, t);
      GoOnce(s1, t, 0);
      GoMore(s0, t, n, 1);
      k := n + 1;
      assert s2.threads == s.threads;
    }
  }

  lemma NoSteps(s: State, t: nat)
    ensures Legal(s, seq(0, _ => Go(t))) && Went(s, t, 0) == s
  {
  }

  lemma TooLarge(slots: seq<Slot>, key: string, data: string)
    requires |data| > 102400
    ensures Written(slots, key, data, slots)
  {
  }

  /** Between the calls the semaphores are free: a read can start, and so can a write. */
  lemma QuietCache(s: State)
    requires Inv(s) && forall t :: 0 <= t < |s.threads| ==> s.threads[t].Outside?
    ensures s.mutex == 1 && s.w == 1 && s.readcnt == 0
  {
    hide Stored, ThreadOk;
    NoneCounted(s.threads, Lock);
    NoneCounted(s.threads, Counted);
    NoneCounted(s.threads, WaitsForW);
    NoneCounted(s.threads, LastOut);
    NoneCounted(s.threads, Writer);
  }

  lemma {:induction false} NoneCounted(threads: seq<Pc>, c: Kind)
    requires forall t :: 0 <= t < |threads| ==> threads[t].Outside?
    ensures Count(threads, c) == 0
  {
    if threads != [] {
      NoneCounted(threads[1..], c);
    }
  }
}
