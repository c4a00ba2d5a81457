/** The bounded buffer guarded by three semaphores, for any number of threads and every interleaving of their steps. */
module Sbuf {
  import Arith

  /** Where a thread is: between which two steps of `sbuf_insert` or `sbuf_remove`. */
  datatype Pc =
    | Outside
    | HasSlot(item: int)      // after P(slots)
    | Inserting(item: int)    // after P(mutex)
    | Inserted                // after the store, before V(mutex)
    | Announcing              // after V(mutex), before V(items)
    | HasItem                 // after P(items)
    | Removing                // after P(mutex)
    | Removed(item: int)      // after the load, before V(mutex)
    | Returning(item: int)    // after V(mutex), before V(slots)

  /** The next step of a thread; only the first one of a call is a choice. */
  datatype Event = Insert(thread: nat, item: int) | Remove(thread: nat) | Go(thread: nat)

  /** The shared buffer, the threads, and what has been stored and taken so far. */
  datatype State = State(buf: seq<int>, front: nat, rear: nat, mutex: nat, slots: nat, items: nat,
                         threads: seq<Pc>, stored: seq<int>, taken: seq<int>)

  function Init(n: nat, threads: nat): State {
    State(seq(n, _ => 0), 0, 0, 1, n, 0, seq(threads, _ => Outside), [], [])
  }

  predicate Enabled(s: State, e: Event) {
    && e.thread < |s.threads|
    && match e
       case Insert(t, _) => s.threads[t].Outside? && s.slots > 0
       case Remove(t) => s.threads[t].Outside? && s.items > 0
       case Go(t) =>
         match s.threads[t] {
           case Outside => false
           case HasSlot(_) => s.mutex > 0
           case HasItem => s.mutex > 0
           case Inserting(_) => |s.buf| > 0
           case Removing => |s.buf| > 0
           case _ => true
         }
  }

  function Next(s: State, e: Event): State
    requires Enabled(s, e)
  {
    var t := e.thread;
    match e
    case Insert(_, item) => s.(slots := s.slots - 1, threads := s.threads[t := HasSlot(item)])
    case Remove(_) => s.(items := s.items - 1, threads := s.threads[t := HasItem])
    case Go(_) =>
      match s.threads[t] {
        case HasSlot(item) => s.(mutex := s.mutex - 1, threads := s.threads[t := Inserting(item)])
        case Inserting(item) =>
          s.(rear := s.rear + 1, buf := s.buf[(s.rear + 1) % |s.buf| := item],
             stored := s.stored + [item], threads := s.threads[t := Inserted])
        case Inserted => s.(mutex := s.mutex + 1, threads := s.threads[t := Announcing])
        case Announcing => s.(items := s.items + 1, threads := s.threads[t := Outside])
        case HasItem => s.(mutex := s.mutex - 1, threads := s.threads[t := Removing])
        case Removing =>
          var item := s.buf[(s.front + 1) % |s.buf|];
          s.(front := s.front + 1, taken := s.taken + [item], threads := s.threads[t := Removed(item)])
        case Removed(item) => s.(mutex := s.mutex + 1, threads := s.threads[t := Returning(item)])
        case Returning(_) => s.(slots := s.slots + 1, threads := s.threads[t := Outside])
      }
  }

  predicate Legal(s: State, run: seq<Event>)
    decreases run
  {
    run == [] || (Enabled(s, run[0]) && Legal(Next(s, run[0]), run[1..]))
  }

  function After(s: State, run: seq<Event>): State
    requires Legal(s, run)
    decreases run
  {
    if run == [] then s else After(Next(s, run[0]), run[1..])
  }

  // ---- counting threads

  /** The claims a thread holds on the buffer. */
  datatype Claim = Slot | Unannounced | Item | Unreturned | Lock

  predicate Holds(pc: Pc, c: Claim) {
    match c
    case Slot => pc.HasSlot? || pc.Inserting?
    case Unannounced => pc.Inserted? || pc.Announcing?
    case Item => pc.HasItem? || pc.Removing?
    case Unreturned => pc.Removed? || pc.Returning?
    case Lock => pc.Inserting? || pc.Inserted? || pc.Removing? || pc.Removed?
  }

  function Count(threads: seq<Pc>, c: Claim): nat {
    if threads == [] then 0 else (if Holds(threads[0], c) then 1 else 0) + Count(threads[1..], c)
  }

  lemma {:induction false} CountUpdate(threads: seq<Pc>, t: nat, pc: Pc, c: Claim)
    requires t < |threads|
    ensures Count(threads[t := pc], c)
         == Count(threads, c) - (if Holds(threads[t], c) then 1 else 0) + (if Holds(pc, c) then 1 else 0)
    ensures Holds(threads[t], c) ==> Count(threads, c) > 0
  {
    if t == 0 {
      assert threads[t := pc][1..] == threads[1..];
    } else {
      assert threads[t := pc][1..] == threads[1..][t - 1 := pc];
      CountUpdate(threads[1..], t - 1, pc, c);
    }
  }

  lemma {:induction false} CountNone(n: nat, c: Claim)
    ensures Count(seq(n, _ => Outside), c) == 0
  {
    if n > 0 {
      assert seq(n, _ => Outside)[1..] == seq(n - 1, _ => Outside);
      CountNone(n - 1, c);
    }
  }

  // ---- what every step keeps

  /** The semaphores account for every slot and every item. */
  predicate Balanced(s: State) {
    && s.mutex + Count(s.threads, Lock) == 1
    && s.front <= s.rear
    && s.slots + Count(s.threads, Slot) + (s.rear - s.front) + Count(s.threads, Unreturned) == |s.buf|
    && s.items + Count(s.threads, Unannounced) + Count(s.threads, Item) == s.rear - s.front
  }

  /** The buffer holds, at their places, the items stored and not yet taken; what was taken is what was stored first. */
  predicate Queued(s: State) {
    && |s.stored| == s.rear && s.front <= s.rear <= s.front + |s.buf|
    && s.taken == s.stored[..s.front]
    && forall i :: s.front <= i < s.rear ==> 0 < |s.buf| && s.buf[(i + 1) % |s.buf|] == s.stored[i]
  }

  lemma BalancedKept(s: State, e: Event)
    requires Balanced(s) && Enabled(s, e)
    ensures Balanced(Next(s, e))
  {
    var pc := Next(s, e).threads[e.thread];
    CountUpdate(s.threads, e.thread, pc, Slot);
    CountUpdate(s.threads, e.thread, pc, Unannounced);
    CountUpdate(s.threads, e.thread, pc, Item);
    CountUpdate(s.threads, e.thread, pc, Unreturned);
    CountUpdate(s.threads, e.thread, pc, Lock);
  }

  lemma QueuedKept(s: State, e: Event)
    requires Balanced(s) && Queued(s) && Enabled(s, e)
    ensures Queued(Next(s, e))
  {
    if e.Go? && s.threads[e.thread].Inserting? {
      StoringKeeps(s, e);
    } else if e.Go? && s.threads[e.thread].Removing? {
      LoadingKeeps(s, e);
    }
  }

  lemma StoringKeeps(s: State, e: Event)
    requires Balanced(s) && Queued(s) && Enabled(s, e) && e.Go? && s.threads[e.thread].Inserting?
    ensures Queued(Next(s, e))
  {
    var t, s' := e.thread, Next(s, e);
    CountUpdate(s.threads, t, Outside, Slot);
    var n := |s.buf|;
    forall i | s'.front <= i < s'.rear
      ensures s'.buf[(i + 1) % n] == s'.stored[i]
    {
      if i < s.rear {
        Arith.DifferentRemainders(i + 1, s.rear + 1, n);
      }
    }
  }

  lemma LoadingKeeps(s: State, e: Event)
    requires Balanced(s) && Queued(s) && Enabled(s, e) && e.Go? && s.threads[e.thread].Removing?
    ensures Queued(Next(s, e))
  {
    var t, s' := e.thread, Next(s, e);
    CountUpdate(s.threads, t, Outside, Item);
    assert s.buf[(s.front + 1) % |s.buf|] == s.stored[s.front];
    assert s'.taken == s.stored[..s.front + 1];
  }

  lemma InitKeeps(n: nat, threads: nat)
    ensures Balanced(Init(n, threads)) && Queued(Init(n, threads))
  {
    CountNone(threads, Slot);
    CountNone(threads, Unannounced);
    CountNone(threads, Item);
    CountNone(threads, Unreturned);
    CountNone(threads, Lock);
  }

  /** THE BUFFER IS A BOUNDED QUEUE: in every run of any number of threads, never more than n items are in it, no
      unread slot is overwritten, slots, items and the claims in flight add up to n, and what was taken is a prefix of
      what was stored. */
  lemma {:induction false} BufferIsQueue(s: State, run: seq<Event>)
    requires Balanced(s) && Queued(s) && Legal(s, run)
    ensures var s' := After(s, run); Balanced(s') && Queued(s') && |s'.buf| == |s.buf|
    decreases run
  {
    if run != [] {
      BalancedKept(s, run[0]);
      QueuedKept(s, run[0]);
      BufferIsQueue(Next(s, run[0]), run[1..]);
    }
  }

  lemma RunFromStart(n: nat, threads: nat, run: seq<Event>)
    requires Legal(Init(n, threads), run)
    ensures var s := After(Init(n, threads), run);
            && s.front <= s.rear <= s.front + n && s.taken <= s.stored && |s.stored| - |s.taken| <= n
            && s.slots + s.items + Count(s.threads, Slot) + Count(s.threads, Unannounced)
               + Count(s.threads, Item) + Count(s.threads, Unreturned) == n
  {
    InitKeeps(n, threads);
    BufferIsQueue(Init(n, threads), run);
  }

  // ---- what goes in and what comes out

  function One(b: bool): nat { if b then 1 else 0 }

  /** How often calls of `sbuf_insert` were given v. */
  function Given(run: seq<Event>, v: int): nat {
    if run == [] then 0 else One(run[0].Insert? && run[0].item == v) + Given(run[1..], v)
  }

  /** The event ends a call of `sbuf_remove` that returns v. */
  predicate Returns(s: State, e: Event, v: int)
    requires Enabled(s, e)
  {
    e.Go? && s.threads[e.thread].Returning? && s.threads[e.thread].item == v
  }

  /** How often calls of `sbuf_remove` have returned v. */
  function Returned(s: State, run: seq<Event>, v: int): nat
    requires Legal(s, run)
    decreases run
  {
    if run == [] then 0 else One(Returns(s, run[0], v)) + Returned(Next(s, run[0]), run[1..], v)
  }

  /** How often v occurs. */
  function Times(l: seq<int>, v: int): nat {
    if l == [] then 0 else Times(l[..|l| - 1], v) + One(l[|l| - 1] == v)
  }

  /** The call has been given v and has not stored it yet. */
  predicate Brings(pc: Pc, v: int) { (pc.HasSlot? || pc.Inserting?) && pc.item == v }

  /** The call has taken v and not returned it yet. */
  predicate Takes(pc: Pc, v: int) { (pc.Removed? || pc.Returning?) && pc.item == v }

  function Bringing(threads: seq<Pc>, v: int): nat {
    if threads == [] then 0 else One(Brings(threads[0], v)) + Bringing(threads[1..], v)
  }

  function Taking(threads: seq<Pc>, v: int): nat {
    if threads == [] then 0 else One(Takes(threads[0], v)) + Taking(threads[1..], v)
  }

  lemma {:induction false} WayUpdate(threads: seq<Pc>, t: nat, pc: Pc, v: int)
    requires t < |threads|
    ensures Bringing(threads[t := pc], v) + One(Brings(threads[t], v)) == Bringing(threads, v) + One(Brings(pc, v))
    ensures Taking(threads[t := pc], v) + One(Takes(threads[t], v)) == Taking(threads, v) + One(Takes(pc, v))
  {
    if t == 0 {
      assert threads[t := pc][1..] == threads[1..];
    } else {
      assert threads[t := pc][1..] == threads[1..][t - 1 := pc];
      WayUpdate(threads[1..], t - 1, pc, v);
    }
  }

  lemma {:induction false} NothingOnTheWay(n: nat, v: int)
    ensures Bringing(seq(n, _ => Outside), v) == 0 && Taking(seq(n, _ => Outside), v) == 0
  {
    if n > 0 {
      assert seq(n, _ => Outside)[1..] == seq(n - 1, _ => Outside);
      NothingOnTheWay(n - 1, v);
    }
  }

  lemma TimesAdded(l: seq<int>, x: int, v: int)
    ensures Times(l + [x], v) == Times(l, v) + One(x == v)
  {
    assert (l + [x])[..|l|] == l;
  }

  lemma StepConserves(s: State, e: Event, v: int)
    requires Enabled(s, e)
    ensures var s' := Next(s, e);
            && Times(s'.stored, v) + Bringing(s'.threads, v)
               == Times(s.stored, v) + Bringing(s.threads, v) + One(e.Insert? && e.item == v)
            && Taking(s'.threads, v) + One(Returns(s, e, v)) + Times(s.taken, v) == Taking(s.threads, v) + Times(s'.taken, v)
  {
    hide Times, Bringing, Taking;
    var s', t := Next(s, e), e.thread;
    WayUpdate(s.threads, t, s'.threads[t], v);
    assert s'.threads == s.threads[t := s'.threads[t]];
    if e.Go? && s.threads[t].Inserting? {
      TimesAdded(s.stored, s.threads[t].item, v);
    } else if e.Go? && s.threads[t].Removing? {
      TimesAdded(s.taken, s.buf[(s.front + 1) % |s.buf|], v);
    }
  }

  lemma {:induction false} RunConserves(s: State, run: seq<Event>, v: int)
    requires Legal(s, run)
    ensures var s' := After(s, run);
            && Times(s'.stored, v) + Bringing(s'.threads, v) == Times(s.stored, v) + Bringing(s.threads, v) + Given(run, v)
            && Taking(s'.threads, v) + Returned(s, run, v) + Times(s.taken, v) == Taking(s.threads, v) + Times(s'.taken, v)
    decreases run
  {
    hide Times, Bringing, Taking, Next, Enabled, Returns;
    if run != [] {
      StepConserves(s, run[0], v);
      RunConserves(Next(s, run[0]), run[1..], v);
    }
  }

  /** NO ITEM IS LOST OR MADE UP: in every run, every value was given to calls of `sbuf_insert` as often as it was stored or
      is still on the way in, and was taken as often as calls of `sbuf_remove` returned it or are about to. */
  lemma ItemsConserved(n: nat, threads: nat, run: seq<Event>, v: int)
    requires Legal(Init(n, threads), run)
    ensures var s := After(Init(n, threads), run);
            && Given(run, v) == Times(s.stored, v) + Bringing(s.threads, v)
            && Times(s.taken, v) == Returned(Init(n, threads), run, v) + Taking(s.threads, v)
  {
    NothingOnTheWay(threads, v);
    RunConserves(Init(n, threads), run, v);
  }

  // ---- which item each call handles

  /** What is known of a thread from the events alone: the item its last insertion was given, and the value of rear or front
      at its last access to the buffer. */
  datatype Note = Note(item: int, place: int)

  function Noted(notes: seq<Note>, s: State, e: Event): seq<Note>
    requires Enabled(s, e) && |notes| == |s.threads|
  {
    var t := e.thread;
    if e.Insert? then notes[t := Note(e.item, -1)]
    else if e.Go? && s.threads[t].Inserting? then notes[t := notes[t].(place := s.rear)]
    else if e.Go? && s.threads[t].Removing? then notes[t := notes[t].(place := s.front)]
    else notes
  }

  function NotesAfter(notes: seq<Note>, s: State, run: seq<Event>): seq<Note>
    requires Legal(s, run) && |notes| == |s.threads|
    decreases run
  {
    if run == [] then notes else NotesAfter(Noted(notes, s, run[0]), Next(s, run[0]), run[1..])
  }

  /** The thread carries the item that its call is about. */
  predicate Carries(s: State, pc: Pc, note: Note) {
    match pc
    case HasSlot(item) => item == note.item
    case Inserting(item) => item == note.item
    case Inserted => 0 <= note.place < |s.stored| && s.stored[note.place] == note.item
    case Announcing => 0 <= note.place < |s.stored| && s.stored[note.place] == note.item
    case Removed(item) => 0 <= note.place < s.front <= |s.stored| && item == s.stored[note.place]
    case Returning(item) => 0 <= note.place < s.front <= |s.stored| && item == s.stored[note.place]
    case _ => true
  }

  predicate AllCarry(s: State, notes: seq<Note>) {
    |notes| == |s.threads| && forall t :: 0 <= t < |notes| ==> Carries(s, s.threads[t], notes[t])
  }

  lemma CarriesKept(s: State, e: Event, notes: seq<Note>)
    requires Balanced(s) && Queued(s) && Enabled(s, e) && AllCarry(s, notes)
    ensures AllCarry(Next(s, e), Noted(notes, s, e))
  {
    var s', notes' := Next(s, e), Noted(notes, s, e);
    CountUpdate(s.threads, e.thread, Outside, Item);
    forall t | 0 <= t < |notes'|
      ensures Carries(s', s'.threads[t], notes'[t])
    {
      assert Carries(s, s.threads[t], notes[t]);
    }
  }

  lemma {:induction false} RunCarries(s: State, run: seq<Event>, notes: seq<Note>)
    requires Balanced(s) && Queued(s) && Legal(s, run) && AllCarry(s, notes)
    ensures AllCarry(After(s, run), NotesAfter(notes, s, run))
    decreases run
  {
    if run != [] {
      BalancedKept(s, run[0]);
      QueuedKept(s, run[0]);
      CarriesKept(s, run[0], notes);
      RunCarries(Next(s, run[0]), run[1..], Noted(notes, s, run[0]));
    }
  }

  /** EACH CALL HANDLES ITS OWN ITEM: in every run, a call of `sbuf_insert` carries the item it was given and stores it at the
      position that its own store advanced rear over, and a call of `sbuf_remove` returns the item stored at the position
      that its own load advanced front over. */
  lemma EachCallItsItem(n: nat, threads: nat, run: seq<Event>, notes: seq<Note>)
    requires Legal(Init(n, threads), run) && |notes| == threads
    ensures AllCarry(After(Init(n, threads), run), NotesAfter(notes, Init(n, threads), run))
  {
    InitKeeps(n, threads);
    RunCarries(Init(n, threads), run, notes);
  }

  /** A store never hits the slot of an item that has not been taken. */
  lemma StoresIntoFreeSlot(s: State, t: nat, i: nat)
    requires Balanced(s) && Enabled(s, Go(t)) && s.threads[t].Inserting? && s.front <= i < s.rear
    ensures (i + 1) % |s.buf| != (s.rear + 1) % |s.buf|
  {
    CountUpdate(s.threads, t, Outside, Slot);
    Arith.DifferentRemainders(i + 1, s.rear + 1, |s.buf|);
  }

  /** NO DEADLOCK: while some thread is inside a call, some thread inside can go on. */
  lemma SomeoneCanGo(s: State, t: nat)
    requires Balanced(s) && t < |s.threads| && !s.threads[t].Outside?
    ensures exists u {:trigger Go(u)} :: 0 <= u < |s.threads| && Enabled(s, Go(u))
  {
    if s.mutex > 0 || !(s.threads[t].HasSlot? || s.threads[t].HasItem?) {
      BufferNotEmpty(s, t);
      assert Enabled(s, Go(t));
    } else {
      var u := Holder(s.threads, Lock);
      BufferNotEmpty(s, u);
      assert Enabled(s, Go(u));
    }
  }

  lemma BufferNotEmpty(s: State, t: nat)
    requires Balanced(s) && t < |s.threads|
    ensures s.threads[t].Inserting? || s.threads[t].Removing? ==> |s.buf| > 0
  {
    CountUpdate(s.threads, t, Outside, Slot);
    CountUpdate(s.threads, t, Outside, Item);
  }

  lemma {:induction false} Holder(threads: seq<Pc>, c: Claim) returns (u: nat)
    requires Count(threads, c) > 0
    ensures u < |threads| && Holds(threads[u], c)
  {
    if Holds(threads[0], c) {
      u := 0;
    } else {
      u := Holder(threads[1..], c);
      u := u + 1;
    }
  }

  // ---- calls on their own

  predicate Quiet(s: State) { forall t :: 0 <= t < |s.threads| ==> s.threads[t].Outside? }

  lemma {:induction false} NothingHeld(threads: seq<Pc>, c: Claim)
    requires forall t :: 0 <= t < |threads| ==> threads[t].Outside?
    ensures Count(threads, c) == 0
  {
    if threads != [] {
      NothingHeld(threads[1..], c);
    }
  }

  /** Between the calls, an insertion can start exactly if fewer than n items are in the buffer, a removal exactly if one is. */
  lemma QuietBuffer(s: State, t: nat, item: int)
    requires Balanced(s) && Queued(s) && Quiet(s) && t < |s.threads|
    ensures s.mutex == 1
    ensures Enabled(s, Insert(t, item)) <==> |s.stored| - |s.taken| < |s.buf|
    ensures Enabled(s, Remove(t)) <==> |s.stored| - |s.taken| > 0
  {
    NothingHeld(s.threads, Slot);
    NothingHeld(s.threads, Unannounced);
    NothingHeld(s.threads, Item);
    NothingHeld(s.threads, Unreturned);
    NothingHeld(s.threads, Lock);
  }

  lemma GoOnce(s: State, e: Event, rest: seq<Event>)
    requires Enabled(s, e) && Legal(Next(s, e), rest)
    ensures Legal(s, [e] + rest) && After(s, [e] + rest) == After(Next(s, e), rest)
  {
    assert ([e] + rest)[1..] == rest;
  }

  /** A call and four steps of its thread. */
  function CallOf(e: Event): seq<Event> {
    var go := Go(e.thread);
    [e] + ([go] + ([go] + ([go] + ([go] + []))))
  }

  lemma FiveSteps(s: State, e: Event)
    requires Enabled(s, e)
    requires var s1, go := Next(s, e), Go(e.thread);
             && Enabled(s1, go) && Enabled(Next(s1, go), go) && Enabled(Next(Next(s1, go), go), go)
             && Enabled(Next(Next(Next(s1, go), go), go), go)
    ensures var s1, go := Next(s, e), Go(e.thread);
            Legal(s, CallOf(e)) && After(s, CallOf(e)) == Next(Next(Next(Next(s1, go), go), go), go)
  {
    hide Enabled, Next;
    var s1, go := Next(s, e), Go(e.thread);
    var s2 := Next(s1, go);
    var s3 := Next(s2, go);
    var s4 := Next(s3, go);
    GoOnce(s4, go, []);
    GoOnce(s3, go, [go] + []);
    GoOnce(s2, go, [go] + ([go] + []));
    GoOnce(s1, go, [go] + ([go] + ([go] + [])));
    GoOnce(s, e, [go] + ([go] + ([go] + ([go] + []))));
  }

  /** AN INSERTION ON ITS OWN comes to its end, and leaves the item in the slot behind the last one. */
  lemma LoneInsert(s: State, t: nat, item: int)
    requires Balanced(s) && Queued(s) && t < |s.threads| && s.threads[t].Outside? && s.slots > 0 && s.mutex > 0
    ensures 0 < |s.buf| && Legal(s, CallOf(Insert(t, item)))
    ensures After(s, CallOf(Insert(t, item)))
         == s.(slots := s.slots - 1, items := s.items + 1, rear := s.rear + 1, stored := s.stored + [item],
               buf := s.buf[(|s.stored| + 1) % |s.buf| := item])
  {
    hide Legal, After, Balanced;
    HasRoom(s);
    var s1 := Next(s, Insert(t, item));
    var s2 := Next(s1, Go(t));
    var s3 := Next(s2, Go(t));
    var s4 := Next(s3, Go(t));
    var s5 := Next(s4, Go(t));
    FiveSteps(s, Insert(t, item));
    assert s5.threads == s.threads;
  }

  lemma HasRoom(s: State)
    requires Balanced(s) && (s.slots > 0 || s.items > 0)
    ensures 0 < |s.buf|
    ensures s.items > 0 ==> s.front < s.rear
  {
  }

  /** A REMOVAL ON ITS OWN comes to its end, and returns the item stored longest ago of those not taken. */
  lemma LoneRemove(s: State, t: nat)
    requires Balanced(s) && Queued(s) && t < |s.threads| && s.threads[t].Outside? && s.items > 0 && s.mutex > 0
    ensures |s.taken| < |s.stored| && Legal(s, CallOf(Remove(t)))
    ensures After(s, CallOf(Remove(t)))
         == s.(slots := s.slots + 1, items := s.items - 1, front := s.front + 1, taken := s.stored[..|s.taken| + 1])
    ensures Returned(s, CallOf(Remove(t)), s.stored[|s.taken|]) == 1
  {
    hide Legal, After, Balanced, Returned;
    HasRoom(s);
    var item := s.stored[s.front];
    assert s.buf[(s.front + 1) % |s.buf|] == item;
    var s1 := Next(s, Remove(t));
    var s2 := Next(s1, Go(t));
    var s3 := Next(s2, Go(t));
    var s4 := Next(s3, Go(t));
    var s5 := Next(s4, Go(t));
    FiveSteps(s, Remove(t));
    assert s5.threads == s.threads;
    assert s.stored[..s.front] + [item] == s.stored[..s.front + 1];
    ReturnedOnce(s, Remove(t), s1, s2, s3, s4, s5, item);
  }

  lemma ReturnedStep(s: State, e: Event, rest: seq<Event>, v: int)
    requires Enabled(s, e) && Legal(Next(s, e), rest)
    ensures Legal(s, [e] + rest)
    ensures Returned(s, [e] + rest, v) == One(Returns(s, e, v)) + Returned(Next(s, e), rest, v)
  {
    assert ([e] + rest)[1..] == rest;
  }

  lemma ReturnedOnce(s: State, e: Event, s1: State, s2: State, s3: State, s4: State, s5: State, v: int)
    requires e.Remove? && Enabled(s, e) && s1 == Next(s, e) && Enabled(s1, Go(e.thread)) && s2 == Next(s1, Go(e.thread))
    requires Enabled(s2, Go(e.thread)) && s3 == Next(s2, Go(e.thread)) && Enabled(s3, Go(e.thread))
    requires s4 == Next(s3, Go(e.thread)) && Enabled(s4, Go(e.thread)) && s5 == Next(s4, Go(e.thread))
    requires s1.threads[e.thread].HasItem? && s2.threads[e.thread].Removing? && s3.threads[e.thread].Removed?
    requires s4.threads[e.thread] == Returning(v)
    ensures Legal(s, CallOf(e)) && Returned(s, CallOf(e), v) == 1
  {
    hide Enabled, Next, Legal, Returned;
    var go := Go(e.thread);
    NothingReturned(s5, v);
    ReturnedStep(s4, go, [], v);
    ReturnedStep(s3, go, [go] + [], v);
    ReturnedStep(s2, go, [go] + ([go] + []), v);
    ReturnedStep(s1, go, [go] + ([go] + ([go] + [])), v);
    ReturnedStep(s, e, [go] + ([go] + ([go] + ([go] + []))), v);
  }

  lemma NothingReturned(s: State, v: int)
    ensures Legal(s, []) && Returned(s, [], v) == 0
  {
  }
}
