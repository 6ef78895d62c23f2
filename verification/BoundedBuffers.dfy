/** The bounded buffer over three semaphores, with any number of producers and consumers: the
    semaphores take and give units atomically, everything else is one memory access a step. */
module BoundedBuffers {
  import opened Common

  /** Where a thread is inside put or get; the argument of put and the local `out` of get are
      kept with it. */
  datatype Pc<T> =
    | Outside
    | PutEmpty(t: T) | PutLock(t: T) | PutStore(t: T) | PutCount(t: T) | PutUnlock | PutSignal
    | GetFull | GetLock | GetRead | GetHead(out: T) | GetCount(out: T) | GetUnlock(out: T) | GetSignal(out: T)

  /** The fields of the buffer and the counts of its semaphores; the threads; and the history:
      who holds the lock, the values counted in and the values counted out, in order. */
  datatype State<T> = State(
    N: nat, data: seq<T>, head: nat, n: nat, nEmpty: nat, nFull: nat, lock: nat,
    threads: seq<Pc<T>>, owner: int, put: seq<T>, got: seq<T>)

  datatype Event<T> = Put(t: T) | Get | Go

  /** Refused: the thread must wait for a semaphore.  Broken: a division by zero or an index
      outside the array. */
  datatype Outcome<T> = Went(s: State<T>) | Refused | Broken

  const NOBODY: int := -1

  ghost predicate Initial<T>(s: State<T>)
  {
    && s.N < WORD && |s.data| == s.N && s.head == s.n == 0
    && s.nEmpty == s.N && s.nFull == 0 && s.lock == 1
    && s.owner == NOBODY && s.put == s.got == []
    && forall t: nat | t < |s.threads| :: s.threads[t] == Outside
  }

  function Step<T>(s: State<T>, t: nat, e: Event<T>): Outcome<T>
    requires t < |s.threads|
  {
    match e
    case Put(x) => if s.threads[t].Outside? then Went(At(s, t, PutEmpty(x))) else Refused
    case Get => if s.threads[t].Outside? then Went(At(s, t, GetFull)) else Refused
    case Go => Advance(s, t)
  }

  function At<T>(s: State<T>, t: nat, pc: Pc<T>): State<T>
    requires t < |s.threads|
  {
    s.(threads := s.threads[t := pc])
  }

  function Advance<T>(s: State<T>, t: nat): Outcome<T>
    requires t < |s.threads|
  {
    match s.threads[t]
    case Outside => Refused
    case PutEmpty(x) => if s.nEmpty == 0 then Refused else Went(At(s, t, PutLock(x)).(nEmpty := s.nEmpty - 1))
    case PutLock(x) => if s.lock == 0 then Refused else Went(At(s, t, PutStore(x)).(lock := s.lock - 1, owner := t))
    case PutStore(x) =>
      if s.N == 0 || Slot(s.head, s.n, s.N) >= |s.data| then Broken
      else Went(At(s, t, PutCount(x)).(data := s.data[Slot(s.head, s.n, s.N) := x]))
    case PutCount(x) => Went(At(s, t, PutUnlock).(n := (s.n + 1) % WORD, put := s.put + [x]))
    case PutUnlock => Went(At(s, t, PutSignal).(lock := s.lock + 1, owner := NOBODY))
    case PutSignal => Went(At(s, t, Outside).(nFull := s.nFull + 1))
    case GetFull => if s.nFull == 0 then Refused else Went(At(s, t, GetLock).(nFull := s.nFull - 1))
    case GetLock => if s.lock == 0 then Refused else Went(At(s, t, GetRead).(lock := s.lock - 1, owner := t))
    case GetRead => if s.head >= |s.data| then Broken else Went(At(s, t, GetHead(s.data[s.head])))
    case GetHead(out) => if s.N == 0 then Broken else Went(At(s, t, GetCount(out)).(head := Slot(s.head, 1, s.N)))
    case GetCount(out) => Went(At(s, t, GetUnlock(out)).(n := (s.n + WORD - 1) % WORD, got := s.got + [out]))
    case GetUnlock(out) => Went(At(s, t, GetSignal(out)).(lock := s.lock + 1, owner := NOBODY))
    case GetSignal(out) => Went(At(s, t, Outside).(nEmpty := s.nEmpty + 1))
  }

  /** `(head + k) % N` in unsigned words. */
  function Slot(head: nat, k: nat, N: nat): nat
    requires N > 0
  {
    (head + k) % WORD % N
  }

  /** The sum of two positions of the ring is never cut off exactly when N is at most 2^31. */
  lemma SlotIsExact(N: nat)
    requires 0 < N < WORD
    ensures (forall head: nat, k: nat | head < N && k < N :: Slot(head, k, N) == Place(head, k, N)) <==> N <= WORD / 2
  {
    if N <= WORD / 2 {
      forall head: nat, k: nat | head < N && k < N ensures Slot(head, k, N) == Place(head, k, N) {
        assert (head + k) % WORD == head + k;
      }
    } else {
      var k := WORD - (N - 1);
      assert (N - 1 + k) % WORD == 0;
      assert Slot(N - 1, k, N) == 0;
      assert (N - 1 + k) == WORD && WORD == N + (WORD - N) && 0 < WORD - N < N;
      RemainderOnce(WORD, N);
    }
  }

  lemma RemainderOnce(a: nat, N: nat)
    requires N < a < 2 * N
    ensures a % N == a - N
  {
  }

  // ----- counting threads -----

  /** The thread owns a full slot: it may take a value out, or has put one in and not said so. */
  predicate ClaimsFull<T>(pc: Pc<T>)
  {
    pc.GetLock? || pc.GetRead? || pc.GetHead? || pc.GetCount? || pc.PutUnlock? || pc.PutSignal?
  }

  /** The thread owns an empty slot. */
  predicate ClaimsEmpty<T>(pc: Pc<T>)
  {
    pc.PutLock? || pc.PutStore? || pc.PutCount? || pc.GetUnlock? || pc.GetSignal?
  }

  predicate HasLock<T>(pc: Pc<T>)
  {
    || pc.PutStore? || pc.PutCount? || pc.PutUnlock?
    || pc.GetRead? || pc.GetHead? || pc.GetCount? || pc.GetUnlock?
  }

  function Count<T>(threads: seq<Pc<T>>, f: Pc<T> -> bool): nat
  {
    if threads == [] then 0 else Count(threads[..|threads| - 1], f) + Ind(f(threads[|threads| - 1]))
  }

  function Ind(b: bool): nat { if b then 1 else 0 }

  lemma {:induction false} CountAt<T>(threads: seq<Pc<T>>, f: Pc<T> -> bool, t: nat, pc: Pc<T>)
    requires t < |threads|
    ensures Count(threads[t := pc], f) + Ind(f(threads[t])) == Count(threads, f) + Ind(f(pc))
  {
    var m := |threads| - 1;
    if t < m {
      CountAt(threads[..m], f, t, pc);
      assert threads[t := pc][..m] == threads[..m][t := pc];
    } else {
      assert threads[t := pc][..m] == threads[..m];
    }
  }

  lemma {:induction false} CountNone<T>(threads: seq<Pc<T>>, f: Pc<T> -> bool)
    requires forall t | 0 <= t < |threads| :: !f(threads[t])
    ensures Count(threads, f) == 0
  {
    if threads != [] { CountNone(threads[..|threads| - 1], f); }
  }

  lemma {:induction false} CountSome<T>(threads: seq<Pc<T>>, f: Pc<T> -> bool, t: nat)
    requires t < |threads| && f(threads[t])
    ensures Count(threads, f) > 0
  {
    if t < |threads| - 1 { CountSome(threads[..|threads| - 1], f, t); }
  }

  // ----- the invariant -----

  /** The k-th position from `head` in a ring of N. */
  function Place(head: nat, k: nat, N: nat): nat
    requires N > 0
  {
    (head + k) % N
  }

  /** The values waiting in the ring, from `head` on. */
  function Window<T>(s: State<T>, n: nat): seq<T>
    requires s.N > 0 && |s.data| == s.N
  {
    seq(n, i requires 0 <= i => s.data[Place(s.head, i, s.N)])
  }

  /** The units of the two counting semaphores and the claims of the threads. */
  ghost predicate UnitsOk<T>(s: State<T>)
  {
    && s.nFull + Count(s.threads, ClaimsFull) == s.n
    && s.nEmpty + Count(s.threads, ClaimsEmpty) + s.n == s.N
  }

  ghost predicate LockOk<T>(s: State<T>)
  {
    && -1 <= s.owner < |s.threads| && s.lock == (if s.owner == NOBODY then 1 else 0)
    && forall t: nat {:trigger s.threads[t]} | t < |s.threads| :: HasLock(s.threads[t]) <==> s.owner == t
  }

  /** What was put is what was got followed by what is in the ring; the thread with the lock may
      be half way through a change. */
  ghost predicate ContentsOk<T>(s: State<T>)
  {
    && s.N < WORD && |s.data| == s.N && (s.N > 0 ==> s.head < s.N)
    && (s.N == 0 ==> s.put == s.got == [])
    && (s.N > 0 && s.n <= s.N ==>
      var pc := if 0 <= s.owner < |s.threads| then s.threads[s.owner] else Outside;
      match pc
      case GetCount(out) => s.n > 0 && s.put == s.got + [out] + Window(s, s.n - 1)
      case GetHead(out) => s.n > 0 && out == s.data[s.head] && s.put == s.got + Window(s, s.n)
      case PutCount(x) => s.n < s.N && s.data[Place(s.head, s.n, s.N)] == x && s.put == s.got + Window(s, s.n)
      case _ => s.put == s.got + Window(s, s.n))
  }

  ghost predicate Inv<T>(s: State<T>)
  {
    UnitsOk(s) && LockOk(s) && ContentsOk(s)
  }

  lemma InitialInv<T>(s: State<T>)
    requires Initial(s)
    ensures Inv(s)
  {
    CountNone(s.threads, ClaimsFull);
    CountNone(s.threads, ClaimsEmpty);
  }

  /** The two claims of a thread bound n away from 0 and N. */
  lemma ClaimsBound<T>(s: State<T>, t: nat)
    requires UnitsOk(s) && t < |s.threads|
    ensures s.n <= s.N
    ensures ClaimsFull(s.threads[t]) ==> 0 < s.n
    ensures ClaimsEmpty(s.threads[t]) ==> s.n < s.N
  {
    if ClaimsFull(s.threads[t]) { CountSome(s.threads, ClaimsFull, t); }
    if ClaimsEmpty(s.threads[t]) { CountSome(s.threads, ClaimsEmpty, t); }
  }

  lemma OnlyOwnPc<T>(s: State<T>, t: nat, e: Event<T>)
    requires t < |s.threads| && Step(s, t, e).Went?
    ensures var s' := Step(s, t, e).s;
      s'.N == s.N && |s'.threads| == |s.threads| && s'.threads == s.threads[t := s'.threads[t]]
  {
  }

  /** What one step of a thread moves between the semaphores, n and its own claims. */
  lemma StepMoves<T>(s: State<T>, t: nat, e: Event<T>)
    requires t < |s.threads| && Step(s, t, e).Went? && s.n <= s.N < WORD
    requires ClaimsFull(s.threads[t]) ==> 0 < s.n
    requires ClaimsEmpty(s.threads[t]) ==> s.n < s.N
    ensures var s' := Step(s, t, e).s;
      && t < |s'.threads|
      && s'.nFull + Ind(ClaimsFull(s'.threads[t])) + s.n == s.nFull + Ind(ClaimsFull(s.threads[t])) + s'.n
      && s'.nEmpty + Ind(ClaimsEmpty(s'.threads[t])) + s'.n == s.nEmpty + Ind(ClaimsEmpty(s.threads[t])) + s.n
  {
    match s.threads[t]
    case Outside =>
    case PutEmpty(_) =>
    case PutCount(_) => assert (s.n + 1) % WORD == s.n + 1;
    case PutSignal =>
    case GetFull =>
    case GetCount(_) => assert (s.n + WORD - 1) % WORD == s.n - 1;
    case GetSignal(_) =>
    case _ =>
  }

  lemma UnitsKept<T>(s: State<T>, t: nat, e: Event<T>)
    requires Inv(s) && t < |s.threads| && Step(s, t, e).Went?
    ensures UnitsOk(Step(s, t, e).s)
  {
    ClaimsBound(s, t);
    OnlyOwnPc(s, t, e);
    StepMoves(s, t, e);
    var s' := Step(s, t, e).s;
    CountAt(s.threads, ClaimsFull, t, s'.threads[t]);
    CountAt(s.threads, ClaimsEmpty, t, s'.threads[t]);
  }

  lemma LockKept<T>(s: State<T>, t: nat, e: Event<T>)
    requires Inv(s) && t < |s.threads| && Step(s, t, e).Went?
    ensures LockOk(Step(s, t, e).s)
  {
    var s' := Step(s, t, e).s;
    LockMoves(s, t, e);
    forall u: nat | u < |s'.threads| ensures HasLock(s'.threads[u]) <==> s'.owner == u {
      assert u != t ==> s'.threads[u] == s.threads[u];
    }
  }

  lemma LockMoves<T>(s: State<T>, t: nat, e: Event<T>)
    requires LockOk(s) && t < |s.threads| && Step(s, t, e).Went?
    ensures var s' := Step(s, t, e).s;
      && |s'.threads| == |s.threads| && s'.threads == s.threads[t := s'.threads[t]]
      && (s'.owner == s.owner || (s.owner == NOBODY && s'.owner == t) || (s.owner == t && s'.owner == NOBODY))
      && (HasLock(s'.threads[t]) <==> s'.owner == t)
      && s'.lock == (if s'.owner == NOBODY then 1 else 0)
  {
    assert HasLock(s.threads[t]) <==> s.owner == t;
    match s.threads[t]
    case Outside =>
    case PutLock(_) =>
    case PutUnlock =>
    case GetLock =>
    case GetUnlock(_) =>
    case _ =>
  }

  /** The first free slot holds no value still to be read. */
  lemma FreeSlot(head: nat, n: nat, i: nat, N: nat)
    requires head < N && i < n < N
    ensures Place(head, i, N) != Place(head, n, N)
  {
    Wrap(head, i, N);
    Wrap(head, n, N);
  }

  lemma Wrap(head: nat, k: nat, N: nat)
    requires head < N && k <= N
    ensures (head + k) % N == if head + k < N then head + k else head + k - N
  {
    if head + k >= N {
      assert head + k - N < N;
      assert (head + k) % N == (head + k - N) % N;
    }
  }

  // ----- the contents of the ring -----

  lemma WindowGrows<T>(s: State<T>, n: nat)
    requires 0 < s.N == |s.data| && s.head < s.N && n < s.N
    ensures Window(s, n + 1) == Window(s, n) + [s.data[Place(s.head, n, s.N)]]
  {
  }

  /** Storing in the first free slot leaves the waiting values alone. */
  lemma WindowKept<T>(s: State<T>, x: T)
    requires 0 < s.N == |s.data| && s.head < s.N && s.n < s.N
    ensures Window(s.(data := s.data[Place(s.head, s.n, s.N) := x]), s.n) == Window(s, s.n)
  {
    forall i: nat | i < s.n ensures Place(s.head, i, s.N) != Place(s.head, s.n, s.N) {
      FreeSlot(s.head, s.n, i, s.N);
    }
  }

  lemma NextPlace(head: nat, i: nat, N: nat)
    requires head < N && i < N
    ensures Place(Place(head, 1, N), i, N) == Place(head, i + 1, N)
  {
    Wrap(head, 1, N);
    Wrap(Place(head, 1, N), i, N);
    Wrap(head, i + 1, N);
  }

  /** Moving head on drops the first of the waiting values. */
  lemma WindowMoves<T>(s: State<T>)
    requires 0 < s.N == |s.data| && s.head < s.N && 0 < s.n <= s.N
    ensures Window(s, s.n) == [s.data[s.head]] + Window(s.(head := Place(s.head, 1, s.N)), s.n - 1)
  {
    var s1 := s.(head := Place(s.head, 1, s.N));
    forall i: nat | i < s.n - 1 ensures Place(s1.head, i, s.N) == Place(s.head, i + 1, s.N) {
      NextPlace(s.head, i, s.N);
    }
    Wrap(s.head, 0, s.N);
    var w := Window(s, s.n);
    assert w[0] == s.data[s.head];
    assert w[1..] == Window(s1, s.n - 1);
  }

  lemma StoreKept<T>(s: State<T>, t: nat)
    requires Inv(s) && s.N <= WORD / 2 && t < |s.threads| && s.threads[t].PutStore?
    ensures Advance(s, t).Went? && ContentsOk(Advance(s, t).s)
  {
    ClaimsBound(s, t);
    SlotIsExact(s.N);
    WindowKept(s, s.threads[t].t);
  }

  lemma CountInKept<T>(s: State<T>, t: nat)
    requires Inv(s) && t < |s.threads| && s.threads[t].PutCount?
    ensures ContentsOk(Advance(s, t).s)
  {
    ClaimsBound(s, t);
    WindowGrows(s, s.n);
    assert s.n + 1 < WORD;
  }

  lemma HeadKept<T>(s: State<T>, t: nat)
    requires Inv(s) && s.N <= WORD / 2 && t < |s.threads| && s.threads[t].GetHead?
    ensures Advance(s, t).Went? && ContentsOk(Advance(s, t).s)
  {
    ClaimsBound(s, t);
    NextIsExact(s.head, s.N);
    HeadContents(s, t);
  }

  lemma NextIsExact(head: nat, N: nat)
    requires head < N <= WORD / 2
    ensures Slot(head, 1, N) == Place(head, 1, N) < N
  {
    assert (head + 1) % WORD == head + 1;
    Wrap(head, 1, N);
  }

  lemma HeadContents<T>(s: State<T>, t: nat)
    requires LockOk(s) && ContentsOk(s) && t < |s.threads| && s.threads[t].GetHead? && s.n <= s.N && 0 < s.N
    requires Slot(s.head, 1, s.N) == Place(s.head, 1, s.N) < s.N
    ensures Advance(s, t).Went? && ContentsOk(Advance(s, t).s)
  {
    assert s.owner == t;
    WindowMoves(s);
    var s' := Advance(s, t).s;
    assert Window(s', s.n - 1) == Window(s.(head := Place(s.head, 1, s.N)), s.n - 1);
    assert s.got + ([s.data[s.head]] + Window(s', s.n - 1)) == s.got + [s.data[s.head]] + Window(s', s.n - 1);
  }

  lemma CountOutKept<T>(s: State<T>, t: nat)
    requires Inv(s) && t < |s.threads| && s.threads[t].GetCount?
    ensures ContentsOk(Advance(s, t).s)
  {
    ClaimsBound(s, t);
    assert (s.n + WORD - 1) % WORD == s.n - 1;
  }

  lemma OtherKept<T>(s: State<T>, t: nat, e: Event<T>)
    requires Inv(s) && t < |s.threads| && Step(s, t, e).Went?
    requires var pc := s.threads[t]; !pc.PutStore? && !pc.PutCount? && !pc.GetHead? && !pc.GetCount?
    ensures ContentsOk(Step(s, t, e).s)
  {
    ClaimsBound(s, t);
    LockMoves(s, t, e);
    SameRing(s, t, e);
  }

  lemma SameRing<T>(s: State<T>, t: nat, e: Event<T>)
    requires t < |s.threads| && Step(s, t, e).Went?
    requires var pc := s.threads[t]; !pc.PutStore? && !pc.PutCount? && !pc.GetHead? && !pc.GetCount?
    ensures var s' := Step(s, t, e).s;
      && s'.N == s.N && s'.data == s.data && s'.head == s.head && s'.n == s.n && s'.put == s.put && s'.got == s.got
      && (s'.threads[t].GetHead? ==> s.threads[t].GetRead? && s.head < |s.data| && s'.threads[t].out == s.data[s.head])
      && !s'.threads[t].GetCount? && !s'.threads[t].PutCount?
  {
  }

  /** Every step of every thread keeps the invariant, and none divides by zero or leaves the
      array. */
  lemma StepKeeps<T>(s: State<T>, t: nat, e: Event<T>)
    requires Inv(s) && s.N <= WORD / 2 && t < |s.threads|
    ensures !Step(s, t, e).Broken?
    ensures Step(s, t, e).Went? ==> Inv(Step(s, t, e).s)
  {
    ClaimsBound(s, t);
    if e == Go {
      match s.threads[t]
      case PutStore(_) => StoreKept(s, t);
      case PutCount(_) => CountInKept(s, t);
      case GetHead(_) => HeadKept(s, t);
      case GetCount(_) => CountOutKept(s, t);
      case _ =>
    }
    if Step(s, t, e).Went? {
      UnitsKept(s, t, e);
      LockKept(s, t, e);
      var pc := s.threads[t];
      if !pc.PutStore? && !pc.PutCount? && !pc.GetHead? && !pc.GetCount? { OtherKept(s, t, e); }
    }
  }

  // ----- every run -----

  function Run<T>(s: State<T>, events: seq<(nat, Event<T>)>): Outcome<T>
  {
    if events == [] then Went(s)
    else
      match Run(s, events[..|events| - 1])
      case Went(s1) =>
        var (t, e) := events[|events| - 1];
        if t >= |s1.threads| || Step(s1, t, e).Refused? then Went(s1) else Step(s1, t, e)
      case _ => Broken
  }

  /** A buffer of at most 2^31 slots, none at all included, keeps the invariant on every run. */
  lemma {:induction false} RunKeeps<T>(s: State<T>, events: seq<(nat, Event<T>)>)
    requires Initial(s) && s.N <= WORD / 2
    ensures Run(s, events).Went? && Inv(Run(s, events).s) && Run(s, events).s.N == s.N
  {
    if events == [] {
      InitialInv(s);
    } else {
      RunKeeps(s, events[..|events| - 1]);
      var s1 := Run(s, events[..|events| - 1]).s;
      var (t, e) := events[|events| - 1];
      if t < |s1.threads| {
        StepKeeps(s1, t, e);
        if Step(s1, t, e).Went? { SameSize(s1, t, e); }
      }
    }
  }

  lemma SameSize<T>(s: State<T>, t: nat, e: Event<T>)
    requires t < |s.threads| && Step(s, t, e).Went?
    ensures Step(s, t, e).s.N == s.N
  {
  }

  /** The values counted out are the first of the values counted in, in the same order, and n
      of them are still in the ring, up to the one whose count is being taken down. */
  lemma FirstInFirstOut<T>(s: State<T>, events: seq<(nat, Event<T>)>)
    requires Initial(s) && s.N <= WORD / 2
    ensures Run(s, events).Went?
    ensures var r := Run(s, events).s; r.got <= r.put && |r.put| == |r.got| + r.n && r.n <= r.N
  {
    RunKeeps(s, events);
    var r := Run(s, events).s;
    assert r.n <= r.N;
  }

  /** Each slot is either counted by a semaphore or claimed by exactly one thread under way. */
  lemma SlotsAreConserved<T>(s: State<T>, events: seq<(nat, Event<T>)>)
    requires Initial(s) && s.N <= WORD / 2
    ensures Run(s, events).Went?
    ensures var r := Run(s, events).s;
      && r.nEmpty + r.nFull + Count(r.threads, ClaimsEmpty) + Count(r.threads, ClaimsFull) == s.N
      && r.n == r.nFull + Count(r.threads, ClaimsFull)
  {
    RunKeeps(s, events);
  }

  /** A put never overwrites a value still to be read. */
  lemma NoOverwrite<T>(s: State<T>, events: seq<(nat, Event<T>)>, t: nat, i: nat)
    requires Initial(s) && s.N <= WORD / 2
    requires Run(s, events).Went? && t < |Run(s, events).s.threads| && Run(s, events).s.threads[t].PutStore?
    requires i < Run(s, events).s.n
    ensures var r := Run(s, events).s;
      r.N > 0 && r.head < r.N && Slot(r.head, r.n, r.N) != Place(r.head, i, r.N)
  {
    RunKeeps(s, events);
    var r := Run(s, events).s;
    ClaimsBound(r, t);
    SlotIsExact(r.N);
    FreeSlot(r.head, r.n, i, r.N);
  }

  /** What a get is about to return is the next value in line. */
  lemma GetReturnsNext<T>(s: State<T>, t: nat)
    requires Inv(s) && t < |s.threads| && s.threads[t].GetCount?
    ensures |s.got| < |s.put| && s.threads[t].out == s.put[|s.got|]
    ensures Advance(s, t).s.threads[t] == GetUnlock(s.threads[t].out) && Advance(s, t).s.got == s.got + [s.put[|s.got|]]
  {
    ClaimsBound(s, t);
  }

  /** No two threads are between lock.down and lock.up. */
  lemma OneAtATime<T>(s: State<T>, t: nat, u: nat)
    requires Inv(s) && t < |s.threads| && u < |s.threads| && HasLock(s.threads[t]) && HasLock(s.threads[u])
    ensures t == u && s.lock == 0
  {
  }
}
