/** The locking of the object cache, for any number of threads and every interleaving of their steps. Each step below is
    one semaphore operation or one access to shared memory, except that under the lock w a writer evicts an entry in one
    step and places its entry in one step. */
module ReadersWriters {
  import opened ObjectCache

  /** Where a thread is. seen is the cache as a reader or writer found it when it got in: no step depends on it. */
  datatype Pc =
    | Outside
    // read_cache_entry
    | Entering(key: string)                                              // has mutex
    | Counting(key: string, n: nat)                                      // has mutex, has loaded readcnt
    | First(key: string)                                                 // has mutex, has stored readcnt 1, must P(w)
    | Opened(key: string, touch: bool)                                   // has mutex
    | Scanning(key: string, touch: bool, i: nat, seen: seq<Slot>)        // looks at slot i
    | Touching(key: string, i: nat, n: nat, seen: seq<Slot>)             // has loaded touched of slot i
    | Copying(key: string, i: nat, seen: seq<Slot>)                      // copies the data of slot i
    | Finished(key: string, result: Result, seen: seq<Slot>)
    | Leaving                                                            // has mutex
    | Uncounting(n: nat)                                                 // has mutex, has loaded readcnt
    | Last                                                               // has mutex, has stored readcnt 0, must V(w)
    | Closed                                                             // has mutex
    // write_cache_entry
    | Writing(key: string, data: string, seen: seq<Slot>)                // has w
    | Wrote(key: string, data: string, seen: seq<Slot>)                  // has w

  datatype Event = Read(thread: nat, key: string) | Write(thread: nat, key: string, data: string) | Go(thread: nat)

  /** log is all that was ever written. */
  datatype State = State(slots: seq<Slot>, mutex: nat, w: nat, readcnt: nat, threads: seq<Pc>, log: set<(string, string)>)

  function Init(threads: nat): State {
    State([], 1, 1, 0, seq(threads, _ => Outside), {})
  }

  /** The steps a thread can make without waiting and without touching memory that is not there. */
  ghost predicate Enabled(s: State, e: Event) {
    && e.thread < |s.threads|
    && var pc := s.threads[e.thread];
       match e
       case Read(_, _) => pc.Outside? && s.mutex > 0
       case Write(_, _, data) => pc.Outside? && (s.w > 0 || |data| > MAX_OBJECT_SIZE)
       case Go(_) =>
         match pc {
           case Outside => false
           case First(_) => s.w > 0
           case Finished(_, _, _) => s.mutex > 0
           case Touching(_, i, _, _) => i < |s.slots| && s.slots[i].Used?
           case Copying(_, i, _) => i < |s.slots| && s.slots[i].Used?
           case Uncounting(n) => n > 0
           case Writing(_, data, _) => Total(s.slots) + |data| > MAX_CACHE_SIZE ==> HasVictim(s.slots)
           case _ => true
         }
  }

  ghost predicate HasVictim(slots: seq<Slot>) { exists i :: IsVictim(slots, i) }

  ghost function Evicted(slots: seq<Slot>): seq<Slot>
    requires HasVictim(slots)
  {
    var i :| IsVictim(slots, i);
    Without(slots, i)
  }

  ghost function Next(s: State, e: Event): State
    requires Enabled(s, e)
  {
    var t := e.thread;
    match e
    case Read(_, key) => s.(mutex := s.mutex - 1, threads := s.threads[t := Entering(key)])
    case Write(_, key, data) =>
      if |data| > MAX_OBJECT_SIZE then s
      else s.(w := s.w - 1, threads := s.threads[t := Writing(key, data, s.slots)])
    case Go(_) => Moved(s, t)
  }

  ghost function Moved(s: State, t: nat): State
    requires Enabled(s, Go(t))
  {
    match s.threads[t]
    case Entering(key) => s.(threads := s.threads[t := Counting(key, s.readcnt)])
    case Counting(key, n) =>
      s.(readcnt := n + 1, threads := s.threads[t := if n + 1 == 1 then First(key) else Opened(key, false)])
    case First(key) => s.(w := s.w - 1, threads := s.threads[t := Opened(key, true)])
    case Opened(key, touch) => s.(mutex := s.mutex + 1, threads := s.threads[t := Scanning(key, touch, 0, s.slots)])
    case Scanning(key, touch, i, seen) =>
      s.(threads := s.threads[t :=
           if i >= |s.slots| then Finished(key, NotFound, seen)
           else if s.slots[i].Free? || s.slots[i].key != key then Scanning(key, touch, i + 1, seen)
           else if touch then Touching(key, i, s.slots[i].touched, seen)
           else Copying(key, i, seen)])
    case Touching(key, i, n, seen) =>
      s.(slots := s.slots[i := s.slots[i].(touched := n + 1)], threads := s.threads[t := Copying(key, i, seen)])
    case Copying(key, i, seen) => s.(threads := s.threads[t := Finished(key, Found(s.slots[i].data), seen)])
    case Finished(_, _, _) => s.(mutex := s.mutex - 1, threads := s.threads[t := Leaving])
    case Leaving => s.(threads := s.threads[t := Uncounting(s.readcnt)])
    case Uncounting(n) => s.(readcnt := n - 1, threads := s.threads[t := if n - 1 == 0 then Last else Closed])
    case Last => s.(w := s.w + 1, threads := s.threads[t := Closed])
    case Closed => s.(mutex := s.mutex + 1, threads := s.threads[t := Outside])
    case Writing(key, data, seen) =>
      if Total(s.slots) + |data| > MAX_CACHE_SIZE then s.(slots := Evicted(s.slots))
      else s.(slots := Placed(s.slots, Used(key, data, 1)), log := s.log + {(key, data)},
              threads := s.threads[t := Wrote(key, data, seen)])
    case Wrote(_, _, _) => s.(w := s.w + 1, threads := s.threads[t := Outside])
  }

  ghost predicate Legal(s: State, run: seq<Event>)
    decreases run
  {
    run == [] || (Enabled(s, run[0]) && Legal(Next(s, run[0]), run[1..]))
  }

  ghost function After(s: State, run: seq<Event>): State
    requires Legal(s, run)
    decreases run
  {
    if run == [] then s else After(Next(s, run[0]), run[1..])
  }

  // ---- counting threads

  datatype Kind = Lock | Counted | WaitsForW | LastOut | Writer | Toucher

  predicate Is(pc: Pc, k: Kind) {
    match k
    case Lock => pc.Entering? || pc.Counting? || pc.First? || pc.Opened? || pc.Leaving? || pc.Uncounting?
                 || pc.Last? || pc.Closed?
    case Counted => pc.First? || pc.Opened? || Inside(pc) || pc.Finished? || pc.Leaving? || pc.Uncounting?
    case WaitsForW => pc.First?
    case LastOut => pc.Last?
    case Writer => pc.Writing? || pc.Wrote?
    case Toucher => (pc.Opened? && pc.touch) || (pc.Scanning? && pc.touch) || pc.Touching?
  }

  /** The thread reads the entries. */
  predicate Inside(pc: Pc) { pc.Scanning? || pc.Touching? || pc.Copying? }

  function One(b: bool): nat { if b then 1 else 0 }

  function Count(threads: seq<Pc>, k: Kind): nat {
    if threads == [] then 0 else One(Is(threads[0], k)) + Count(threads[1..], k)
  }

  lemma {:induction false} CountUpdate(threads: seq<Pc>, t: nat, pc: Pc, k: Kind)
    requires t < |threads|
    ensures Count(threads[t := pc], k) == Count(threads, k) - One(Is(threads[t], k)) + One(Is(pc, k))
    ensures One(Is(threads[t], k)) <= Count(threads, k)
  {
    hide Is;
    if t == 0 {
      assert threads[t := pc][1..] == threads[1..];
    } else {
      assert threads[t := pc][1..] == threads[1..][t - 1 := pc];
      CountUpdate(threads[1..], t - 1, pc, k);
    }
  }

  /** Two threads of a kind make the count at least 2. */
  lemma CountTwo(threads: seq<Pc>, t: nat, u: nat, k: Kind)
    requires t < |threads| && u < |threads| && t != u && Is(threads[t], k) && Is(threads[u], k)
    ensures Count(threads, k) >= 2
  {
    CountUpdate(threads, t, Outside, k);
    CountUpdate(threads[t := Outside], u, Outside, k);
  }

  /** Which kinds include which. */
  lemma {:induction false} KindsOverlap(threads: seq<Pc>)
    ensures Count(threads, WaitsForW) + Count(threads, LastOut) <= Count(threads, Lock)
    ensures Count(threads, WaitsForW) + Count(threads, Toucher) <= Count(threads, Counted)
  {
    if threads != [] {
      KindsOverlap(threads[1..]);
    }
  }

  lemma {:induction false} CountNone(n: nat, k: Kind)
    ensures Count(seq(n, _ => Outside), k) == 0
  {
    if n > 0 {
      assert seq(n, _ => Outside)[1..] == seq(n - 1, _ => Outside);
      CountNone(n - 1, k);
    }
  }

  lemma {:induction false} SomeThread(threads: seq<Pc>, k: Kind) returns (u: nat)
    requires Count(threads, k) > 0
    ensures u < |threads| && Is(threads[u], k)
  {
    if Is(threads[0], k) {
      u := 0;
    } else {
      u := SomeThread(threads[1..], k);
      u := u + 1;
    }
  }

  // ---- the locks

  /** The readers hold w as a group: from the first one's P(w) to the last one's V(w). */
  predicate Group(s: State) {
    (s.readcnt > 0 && Count(s.threads, WaitsForW) == 0) || Count(s.threads, LastOut) > 0
  }

  predicate CountLoaded(s: State, pc: Pc) {
    (pc.Counting? ==> pc.n == s.readcnt) && (pc.Uncounting? ==> pc.n == s.readcnt)
  }

  predicate Locked(s: State) {
    Numbers(s) && forall t :: 0 <= t < |s.threads| ==> CountLoaded(s, s.threads[t])
  }

  predicate Numbers(s: State) {
    && s.mutex + Count(s.threads, Lock) == 1
    && s.readcnt == Count(s.threads, Counted)
    && s.w + Count(s.threads, Writer) + One(Group(s)) == 1
    && (Count(s.threads, WaitsForW) > 0 ==> s.readcnt == 1)
    && (Count(s.threads, LastOut) > 0 ==> s.readcnt == 0)
    && Count(s.threads, Toucher) <= 1
  }

  lemma Updates(threads: seq<Pc>, t: nat, pc: Pc)
    requires t < |threads|
    ensures var threads', was := threads[t := pc], threads[t];
            && Count(threads', Lock) == Count(threads, Lock) - One(Is(was, Lock)) + One(Is(pc, Lock))
            && Count(threads', Counted) == Count(threads, Counted) - One(Is(was, Counted)) + One(Is(pc, Counted))
            && Count(threads', WaitsForW) == Count(threads, WaitsForW) - One(Is(was, WaitsForW)) + One(Is(pc, WaitsForW))
            && Count(threads', LastOut) == Count(threads, LastOut) - One(Is(was, LastOut)) + One(Is(pc, LastOut))
            && Count(threads', Writer) == Count(threads, Writer) - One(Is(was, Writer)) + One(Is(pc, Writer))
            && Count(threads', Toucher) == Count(threads, Toucher) - One(Is(was, Toucher)) + One(Is(pc, Toucher))
    ensures var was := threads[t];
            && One(Is(was, Lock)) <= Count(threads, Lock) && One(Is(was, Counted)) <= Count(threads, Counted)
            && One(Is(was, WaitsForW)) <= Count(threads, WaitsForW) && One(Is(was, LastOut)) <= Count(threads, LastOut)
            && One(Is(was, Writer)) <= Count(threads, Writer) && One(Is(was, Toucher)) <= Count(threads, Toucher)
  {
    hide Is, Count;
    CountUpdate(threads, t, pc, Lock);
    CountUpdate(threads, t, pc, Counted);
    CountUpdate(threads, t, pc, WaitsForW);
    CountUpdate(threads, t, pc, LastOut);
    CountUpdate(threads, t, pc, Writer);
    CountUpdate(threads, t, pc, Toucher);
  }

  predicate AtGate(pc: Pc) { pc.Entering? || pc.Counting? || pc.First? || pc.Opened? }

  predicate AtExit(pc: Pc) { pc.Finished? || pc.Leaving? || pc.Uncounting? || pc.Last? || pc.Closed? }

  lemma CallNumbers(s: State, e: Event)
    requires Locked(s) && Enabled(s, e)
    requires !e.Go?
    ensures Numbers(Next(s, e))
  {
    hide Count, Total, HasVictim, Placed;
    var s', t := Next(s, e), e.thread;
    assert CountLoaded(s, s.threads[t]);
    Updates(s.threads, t, s'.threads[t]);
    assert s'.threads == s.threads[t := s'.threads[t]];
    KindsOverlap(s.threads);
    KindsOverlap(s'.threads);
  }

  lemma GateNumbers(s: State, e: Event)
    requires Locked(s) && Enabled(s, e)
    requires e.Go? && AtGate(s.threads[e.thread])
    ensures Numbers(Next(s, e))
  {
    hide Count, Total, HasVictim, Placed;
    var s', t := Next(s, e), e.thread;
    assert CountLoaded(s, s.threads[t]);
    Updates(s.threads, t, s'.threads[t]);
    assert s'.threads == s.threads[t := s'.threads[t]];
    KindsOverlap(s.threads);
    Updates(s.threads, t, Outside);
    KindsOverlap(s.threads[t := Outside]);
    KindsOverlap(s'.threads);
  }

  lemma ExitNumbers(s: State, e: Event)
    requires Locked(s) && Enabled(s, e)
    requires e.Go? && AtExit(s.threads[e.thread])
    ensures Numbers(Next(s, e))
  {
    hide Count, Total, HasVictim, Placed;
    var s', t := Next(s, e), e.thread;
    assert CountLoaded(s, s.threads[t]);
    Updates(s.threads, t, s'.threads[t]);
    assert s'.threads == s.threads[t := s'.threads[t]];
    KindsOverlap(s.threads);
    KindsOverlap(s'.threads);
  }

  lemma ReadNumbers(s: State, e: Event)
    requires Locked(s) && Enabled(s, e)
    requires e.Go? && Inside(s.threads[e.thread])
    ensures Numbers(Next(s, e))
  {
    hide Count, Total, HasVictim, Placed;
    var s', t := Next(s, e), e.thread;
    assert CountLoaded(s, s.threads[t]);
    Updates(s.threads, t, s'.threads[t]);
    assert s'.threads == s.threads[t := s'.threads[t]];
    KindsOverlap(s.threads);
    KindsOverlap(s'.threads);
  }

  lemma WriteNumbers(s: State, e: Event)
    requires Locked(s) && Enabled(s, e)
    requires e.Go? && Is(s.threads[e.thread], Writer)
    ensures Numbers(Next(s, e))
  {
    hide Count, Total, HasVictim, Placed;
    var s', t := Next(s, e), e.thread;
    assert CountLoaded(s, s.threads[t]);
    Updates(s.threads, t, s'.threads[t]);
    assert s'.threads == s.threads[t := s'.threads[t]];
    KindsOverlap(s.threads);
    KindsOverlap(s'.threads);
  }

  lemma NumbersKept(s: State, e: Event)
    requires Locked(s) && Enabled(s, e)
    ensures Numbers(Next(s, e))
  {
    hide Locked, Numbers, Next;
    if !e.Go? {
      CallNumbers(s, e);
    } else if AtGate(s.threads[e.thread]) {
      GateNumbers(s, e);
    } else if AtExit(s.threads[e.thread]) {
      ExitNumbers(s, e);
    } else if Inside(s.threads[e.thread]) {
      ReadNumbers(s, e);
    } else {
      WriteNumbers(s, e);
    }
  }

  lemma LockedKept(s: State, e: Event)
    requires Locked(s) && Enabled(s, e)
    ensures Locked(Next(s, e))
  {
    NumbersKept(s, e);
    LoadedKept(s, e);
  }

  lemma LoadedKept(s: State, e: Event)
    requires Locked(s) && Enabled(s, e)
    ensures forall t :: 0 <= t < |s.threads| ==> CountLoaded(Next(s, e), Next(s, e).threads[t])
  {
    hide Count, Total, HasVictim;
    var s', t := Next(s, e), e.thread;
    forall u | 0 <= u < |s.threads|
      ensures CountLoaded(s', s'.threads[u])
    {
      assert CountLoaded(s, s.threads[u]);
      if u != t && Is(s.threads[u], Lock) && Is(s.threads[t], Lock) {
        CountTwo(s.threads, t, u, Lock);
      }
    }
  }

  // ---- the entries

  /** The same entries, apart from how often they were touched. */
  predicate SameEntry(x: Slot, y: Slot) {
    if x.Used? then y.Used? && x.key == y.key && x.data == y.data else y.Free?
  }

  predicate SameEntries(a: seq<Slot>, b: seq<Slot>) {
    |a| == |b| && forall i :: 0 <= i < |a| ==> SameEntry(a[i], b[i])
  }

  predicate Matches(x: Slot, key: string) { x.Used? && x.key == key }

  /** A thread inside looks at the entries it found when it got in. */
  ghost predicate ThreadOk(slots: seq<Slot>, log: set<(string, string)>, pc: Pc) {
    match pc
    case Scanning(key, _, i, seen) => SameEntries(slots, seen) && NoneBefore(slots, key, i)
    case Touching(key, i, n, seen) =>
      SameEntries(slots, seen) && NoneBefore(slots, key, i) && i < |slots| && Matches(slots[i], key) && slots[i].touched == n
    case Copying(key, i, seen) =>
      SameEntries(slots, seen) && NoneBefore(slots, key, i) && i < |slots| && Matches(slots[i], key)
    case Finished(key, result, seen) => result == Lookup(seen, key) && (result.Found? ==> (key, result.data) in log)
    case Writing(_, data, seen) => |data| <= MAX_OBJECT_SIZE && RoomPath(seen, |data|, slots)
    case Wrote(key, data, seen) => Written(seen, key, data, slots)
    case _ => true
  }

  /** slots is on the way from seen to where size more bytes fit. */
  ghost predicate RoomPath(seen: seq<Slot>, size: nat, slots: seq<Slot>) {
    forall out: seq<Slot> :: RoomMade(slots, size, out) ==> RoomMade(seen, size, out)
  }

  /** The entries stay within the bound, have been touched, and were written by someone. */
  predicate Stored(slots: seq<Slot>, log: set<(string, string)>) {
    && Touched(slots) && Total(slots) <= MAX_CACHE_SIZE
    && forall i :: 0 <= i < |slots| && slots[i].Used? ==> (slots[i].key, slots[i].data) in log
  }

  ghost predicate Inv(s: State) {
    && Locked(s) && Stored(s.slots, s.log)
    && forall t :: 0 <= t < |s.threads| ==> ThreadOk(s.slots, s.log, s.threads[t])
  }

  /** EXCLUSION: while one thread writes, no other thread writes or reads; of the threads that read at most one
      counts a touch. */
  lemma Exclusion(s: State, t: nat, u: nat)
    requires Locked(s) && t < |s.threads| && u < |s.threads| && t != u
    ensures Is(s.threads[t], Writer) ==> !Is(s.threads[u], Writer) && !Inside(s.threads[u])
    ensures !(Is(s.threads[t], Toucher) && Is(s.threads[u], Toucher))
  {
    if Is(s.threads[t], Writer) {
      if Is(s.threads[u], Writer) {
        CountTwo(s.threads, t, u, Writer);
      }
      InsideHoldsW(s, u);
      CountUpdate(s.threads, t, Outside, Writer);
    }
    if Is(s.threads[t], Toucher) && Is(s.threads[u], Toucher) {
      CountTwo(s.threads, t, u, Toucher);
    }
  }

  lemma InsideHoldsW(s: State, u: nat)
    requires Locked(s) && u < |s.threads|
    ensures Inside(s.threads[u]) ==> Group(s)
  {
    if Inside(s.threads[u]) {
      var without := s.threads[u := Outside];
      CountUpdate(s.threads, u, Outside, Counted);
      CountUpdate(s.threads, u, Outside, WaitsForW);
      KindsOverlap(without);
    }
  }

  lemma StoredKept(s: State, e: Event)
    requires Inv(s) && Enabled(s, e)
    ensures Stored(Next(s, e).slots, Next(s, e).log)
  {
    hide Locked, Stored;
    var t := e.thread;
    assert ThreadOk(s.slots, s.log, s.threads[t]);
    if e.Go? && s.threads[t].Touching? {
      TouchStored(s.slots, s.log, s.threads[t].i);
    } else if e.Go? && s.threads[t].Writing? {
      WriteStored(s.slots, s.log, s.threads[t].key, s.threads[t].data);
    }
  }

  lemma TouchStored(slots: seq<Slot>, log: set<(string, string)>, i: nat)
    requires Stored(slots, log) && i < |slots| && slots[i].Used?
    ensures Stored(slots[i := slots[i].(touched := slots[i].touched + 1)], log)
  {
    SlotUpdated(slots, i, slots[i].(touched := slots[i].touched + 1));
  }

  lemma WriteStored(slots: seq<Slot>, log: set<(string, string)>, key: string, data: string)
    requires Stored(slots, log)
    ensures HasVictim(slots) ==> Stored(Evicted(slots), log)
    ensures Total(slots) + |data| <= MAX_CACHE_SIZE ==>
              Stored(Placed(slots, Used(key, data, 1)), log + {(key, data)})
  {
    if HasVictim(slots) {
      var _ := EvictedShape(slots);
    }
    var i := PlacedAt(slots, Used(key, data, 1));
  }

  lemma EvictedShape(slots: seq<Slot>) returns (i: nat)
    requires HasVictim(slots)
    ensures IsVictim(slots, i) && Evicted(slots) == Without(slots, i)
    ensures Total(Evicted(slots)) <= Total(slots) && Shrinks(slots, i)
    ensures |Evicted(slots)| <= |slots|
    ensures forall j :: 0 <= j < |Evicted(slots)| && Evicted(slots)[j].Used? ==> Evicted(slots)[j] == slots[j]
  {
    i :| IsVictim(slots, i) && Evicted(slots) == Without(slots, i);
    WithoutCounts(slots, i);
  }

  /** What a step of thread t does to the slots leaves every other thread's view in order. */
  lemma OthersOk(s: State, e: Event, u: nat)
    requires Inv(s) && Enabled(s, e) && u < |s.threads| && u != e.thread
    ensures ThreadOk(Next(s, e).slots, Next(s, e).log, s.threads[u])
  {
    var t := e.thread;
    assert ThreadOk(s.slots, s.log, s.threads[u]) && ThreadOk(s.slots, s.log, s.threads[t]);
    Exclusion(s, t, u);
    Exclusion(s, u, t);
  }

  lemma ReaderOk(s: State, t: nat)
    requires Inv(s) && Enabled(s, Go(t)) && !s.threads[t].Writing?
    ensures ThreadOk(Next(s, Go(t)).slots, Next(s, Go(t)).log, Next(s, Go(t)).threads[t])
  {
    hide Total, Placed, HasVictim, RoomPath, Locked, Written, Touched;
    assert ThreadOk(s.slots, s.log, s.threads[t]);
    match s.threads[t] {
      case Scanning(key, _, i, seen) =>
        if i >= |s.slots| {
          SameLookup(s.slots, seen, key, i);
        }
      case Copying(key, i, seen) =>
        SameLookup(s.slots, seen, key, i);
      case _ =>
    }
  }

  lemma WriterOk(s: State, t: nat)
    requires Inv(s) && Enabled(s, Go(t)) && s.threads[t].Writing?
    ensures ThreadOk(Next(s, Go(t)).slots, Next(s, Go(t)).log, Next(s, Go(t)).threads[t])
  {
    hide Locked, Stored;
    assert ThreadOk(s.slots, s.log, s.threads[t]);
    var data, seen := s.threads[t].data, s.threads[t].seen;
    if Total(s.slots) + |data| > MAX_CACHE_SIZE {
      var i := EvictedShape(s.slots);
      forall out: seq<Slot> | RoomMade(Evicted(s.slots), |data|, out)
        ensures RoomMade(seen, |data|, out)
      {
        assert IsVictim(s.slots, i) && Shrinks(s.slots, i);
        assert RoomMade(s.slots, |data|, out);
      }
    } else {
      assert RoomMade(s.slots, |data|, s.slots);
    }
  }

  lemma SameLookup(slots: seq<Slot>, seen: seq<Slot>, key: string, i: nat)
    requires SameEntries(slots, seen) && NoneBefore(slots, key, i)
    ensures i == |slots| ==> Lookup(seen, key) == NotFound
    ensures i < |slots| && Matches(slots[i], key) ==> Lookup(seen, key) == Found(slots[i].data)
  {
    forall j | 0 <= j < i
      ensures !Matches(seen[j], key)
    {
      assert !Matches(slots[j], key) && SameEntry(slots[j], seen[j]);
    }
    LookupAt(seen, key, i);
    assert i < |slots| ==> SameEntry(slots[i], seen[i]);
  }

  /** Every step keeps the invariant. */
  lemma InvKept(s: State, e: Event)
    requires Inv(s) && Enabled(s, e)
    ensures Inv(Next(s, e))
  {
    hide Locked, Stored, ThreadOk, Is;
    LockedKept(s, e);
    StoredKept(s, e);
    var s', t := Next(s, e), e.thread;
    forall u | 0 <= u < |s'.threads|
      ensures ThreadOk(s'.slots, s'.log, s'.threads[u])
    {
      if u != t {
        OthersOk(s, e, u);
      } else if e.Go? {
        if s.threads[t].Writing? { WriterOk(s, t); } else { ReaderOk(s, t); }
      } else {
        CallOk(s, e);
      }
    }
  }

  lemma CallOk(s: State, e: Event)
    requires Inv(s) && Enabled(s, e) && !e.Go?
    ensures ThreadOk(Next(s, e).slots, Next(s, e).log, Next(s, e).threads[e.thread])
  {
    assert ThreadOk(s.slots, s.log, s.threads[e.thread]);
  }

  // ---- every run

  lemma InitOk(threads: nat)
    ensures Inv(Init(threads))
  {
    CountNone(threads, Lock);
    CountNone(threads, Counted);
    CountNone(threads, WaitsForW);
    CountNone(threads, LastOut);
    CountNone(threads, Writer);
    CountNone(threads, Toucher);
  }

  /** The invariant holds throughout every run of any number of threads. */
  lemma {:induction false} RunKeepsInv(s: State, run: seq<Event>)
    requires Inv(s) && Legal(s, run)
    ensures Inv(After(s, run))
    decreases run
  {
    hide Inv, Next;
    if run != [] {
      InvKept(s, run[0]);
      RunKeepsInv(Next(s, run[0]), run[1..]);
    }
  }

  /** SAFETY OF EVERY RUN: writers exclude everybody, at most one reader counts touches, the sizes never sum to more than
      the bound, and what a reader returns is what the cache held when it got in, and was written under that key. */
  lemma EveryRunIsSafe(threads: nat, run: seq<Event>, t: nat, u: nat)
    requires Legal(Init(threads), run) && t < threads && u < threads && t != u
    ensures var s := After(Init(threads), run);
            && |s.threads| == threads && Total(s.slots) <= MAX_CACHE_SIZE
            && (Is(s.threads[t], Writer) ==> !Is(s.threads[u], Writer) && !Inside(s.threads[u]))
            && !(Is(s.threads[t], Toucher) && Is(s.threads[u], Toucher))
            && (s.threads[t].Finished? ==>
                  s.threads[t].result == Lookup(s.threads[t].seen, s.threads[t].key)
                  && (s.threads[t].result.Found? ==> (s.threads[t].key, s.threads[t].result.data) in s.log))
            && (s.threads[t].Wrote? ==> Written(s.threads[t].seen, s.threads[t].key, s.threads[t].data, s.slots))
  {
    hide Locked, Is;
    var s := After(Init(threads), run);
    InitOk(threads);
    RunKeepsInv(Init(threads), run);
    SameThreads(Init(threads), run);
    Exclusion(s, t, u);
    assert ThreadOk(s.slots, s.log, s.threads[t]);
  }

  lemma {:induction false} SameThreads(s: State, run: seq<Event>)
    requires Legal(s, run)
    ensures |After(s, run).threads| == |s.threads|
    decreases run
  {
    if run != [] {
      SameThreads(Next(s, run[0]), run[1..]);
    }
  }

  /** While a reader is inside, no step of any thread changes what the entries are. */
  lemma InsideFrozen(s: State, e: Event, t: nat)
    requires Inv(s) && Enabled(s, e) && t < |s.threads| && Inside(s.threads[t])
    ensures SameEntries(Next(s, e).slots, s.slots)
  {
    hide Locked, Stored;
    assert ThreadOk(s.slots, s.log, s.threads[e.thread]);
    if e.thread != t {
      Exclusion(s, e.thread, t);
    }
  }

  /** A THREAD ONLY EVER WAITS FOR A SEMAPHORE: no entry it goes to is missing, and a writer that needs room always finds
      something to evict. */
  lemma OnlySemaphoresBlock(s: State, t: nat)
    requires Inv(s) && t < |s.threads| && !s.threads[t].Outside?
    ensures Enabled(s, Go(t)) || (s.threads[t].First? && s.w == 0) || (s.threads[t].Finished? && s.mutex == 0)
  {
    assert ThreadOk(s.slots, s.log, s.threads[t]) && CountLoaded(s, s.threads[t]);
    CountUpdate(s.threads, t, Outside, Counted);
    if s.threads[t].Writing? && Total(s.slots) + |s.threads[t].data| > MAX_CACHE_SIZE {
      var i := SomeUsed(s.slots);
      VictimExists(s.slots, i);
    }
  }

  lemma {:induction false} VictimExists(slots: seq<Slot>, i: nat)
    requires i < |slots| && slots[i].Used?
    ensures HasVictim(slots)
    decreases slots[i].touched, i
  {
    if !IsVictim(slots, i) {
      var j :| 0 <= j < |slots| && slots[j].Used?
               && (slots[j].touched < slots[i].touched || (slots[j].touched == slots[i].touched && j < i));
      VictimExists(slots, j);
    }
  }

  /** NO DEADLOCK: while some thread is inside a call, some thread inside can go on. */
  lemma SomeoneCanGo(s: State, t: nat) returns (u: nat)
    requires Inv(s) && t < |s.threads| && !s.threads[t].Outside?
    ensures u < |s.threads| && !s.threads[u].Outside? && Enabled(s, Go(u))
  {
    hide Enabled, Stored, ThreadOk;
    u := t;
    if s.threads[u].Finished? && s.mutex == 0 {
      u := SomeThread(s.threads, Lock);
    }
    if s.threads[u].First? && s.w == 0 {
      CountUpdate(s.threads, u, Outside, Lock);
      CountUpdate(s.threads, u, Outside, WaitsForW);
      CountUpdate(s.threads, u, Outside, LastOut);
      KindsOverlap(s.threads[u := Outside]);
      u := SomeThread(s.threads, Writer);
    }
    OnlySemaphoresBlock(s, u);
  }

  /** Every eviction leaves fewer entries, so a writer comes to an end. */
  lemma EvictionEnds(s: State, t: nat)
    requires Inv(s) && t < |s.threads| && s.threads[t].Writing? && Enabled(s, Go(t))
    ensures var s' := Next(s, Go(t)); s'.threads[t].Wrote? || UsedCount(s'.slots) < UsedCount(s.slots)
  {
    hide Locked, Stored;
    if Total(s.slots) + |s.threads[t].data| > MAX_CACHE_SIZE {
      var _ := EvictedShape(s.slots);
    }
  }
}
