/** When the threads of a bounded buffer wait, and what a call of put or get does when no other
    thread interferes. */
module BufferCalls {
  import opened Common
  import opened BoundedBuffers

  /** A thread waits only for a unit of the semaphore it has come to. */
  predicate MustWait<T>(s: State<T>, t: nat)
    requires t < |s.threads|
  {
    match s.threads[t]
    case PutEmpty(_) => s.nEmpty == 0
    case GetFull => s.nFull == 0
    case PutLock(_) => s.lock == 0
    case GetLock => s.lock == 0
    case _ => false
  }

  /** A thread inside put or get has a next step exactly unless it must wait; one outside can
      always call either. */
  lemma StepHappens<T>(s: State<T>, t: nat, x: T)
    requires Inv(s) && s.N <= WORD / 2 && t < |s.threads|
    ensures Step(s, t, Go).Went? <==> s.threads[t] != Outside && !MustWait(s, t)
    ensures Step(s, t, Put(x)).Went? <==> s.threads[t] == Outside
    ensures Step(s, t, Get).Went? <==> s.threads[t] == Outside
  {
    CanGo(s, t);
  }

  lemma SlotInRing(head: nat, k: nat, N: nat)
    requires N > 0
    ensures Slot(head, k, N) < N
  {
  }

  /** When no thread can go on, each that is inside put waits because the buffer is full, and each
      inside get because it is empty: there is no deadlock, and no call waits for anything else. */
  lemma StuckOnlyOnContents<T>(s: State<T>, t: nat)
    requires Inv(s) && s.N <= WORD / 2 && t < |s.threads|
    requires forall u: nat {:trigger s.threads[u]} | u < |s.threads| :: s.threads[u] == Outside || !Step(s, u, Go).Went?
    ensures s.threads[t] == Outside || (s.threads[t].PutEmpty? && s.n == s.N) || (s.threads[t].GetFull? && s.n == 0)
  {
    forall u: nat | u < |s.threads| ensures s.threads[u] == Outside || MustWait(s, u) {
      if s.threads[u] != Outside { CanGo(s, u); }
    }
    OwnerIsFree(s);
    CountNone(s.threads, ClaimsFull);
    CountNone(s.threads, ClaimsEmpty);
  }

  lemma CanGo<T>(s: State<T>, u: nat)
    requires Inv(s) && s.N <= WORD / 2 && u < |s.threads|
    ensures Step(s, u, Go).Went? <==> s.threads[u] != Outside && !MustWait(s, u)
  {
    ClaimsBound(s, u);
    if s.N > 0 { SlotInRing(s.head, s.n, s.N); }
    assert HasLock(s.threads[u]) <==> s.owner == u;
  }

  /** The owner of the lock never waits, so when all wait the lock is free. */
  lemma OwnerIsFree<T>(s: State<T>)
    requires LockOk(s)
    requires forall u: nat {:trigger s.threads[u]} | u < |s.threads| :: s.threads[u] == Outside || MustWait(s, u)
    ensures s.lock == 1
    ensures forall u: nat {:trigger s.threads[u]} | u < |s.threads| ::
              s.threads[u] == Outside || s.threads[u].PutEmpty? || s.threads[u].GetFull?
  {
    assert s.owner >= 0 ==> HasLock(s.threads[s.owner]);
  }

  // ----- whole calls -----

  /** Thread `t` takes `n` steps of its own. */
  ghost function Steps<T>(s: State<T>, t: nat, n: nat): Outcome<T>
    decreases n
  {
    if n == 0 then Went(s)
    else if t >= |s.threads| then Refused
    else
      match Step(s, t, Go)
      case Went(s1) => Steps(s1, t, n - 1)
      case other => other
  }

  /** Thread `t` comes from `s` to `s'` when no other interferes. */
  ghost predicate Comes<T>(s: State<T>, t: nat, s': State<T>)
  {
    exists n: nat :: Steps(s, t, n) == Went(s')
  }

  lemma StepComes<T>(s: State<T>, t: nat, s1: State<T>, s2: State<T>)
    requires t < |s.threads| && Step(s, t, Go) == Went(s1) && (s1 == s2 || Comes(s1, t, s2))
    ensures Comes(s, t, s2)
  {
    assert Steps(s1, t, 0) == Went(s1);
    var n: nat :| Steps(s1, t, n) == Went(s2);
    assert Steps(s, t, n + 1) == Went(s2);
  }

  /** Only the last of two updates of a thread matters. */
  lemma LastUpdate<T>(threads: seq<Pc<T>>, t: nat)
    requires t < |threads|
    ensures forall a: Pc<T>, b: Pc<T> {:trigger threads[t := a][t := b]} :: threads[t := a][t := b] == threads[t := b]
  {
  }

  /** put with room takes an empty slot, stores its value at the first free place of the ring,
      counts it and gives a full slot; it leaves the lock free. */
  lemma PutAlone<T>(s: State<T>, t: nat, x: T)
    requires Inv(s) && s.N <= WORD / 2 && t < |s.threads| && s.threads[t] == Outside && s.nEmpty > 0 && s.lock == 1
    ensures s.N > 0 && Place(s.head, s.n, s.N) < |s.data| && Step(s, t, Put(x)).Went?
    ensures Comes(Step(s, t, Put(x)).s, t,
              s.(data := s.data[Place(s.head, s.n, s.N) := x], n := s.n + 1, nEmpty := s.nEmpty - 1, nFull := s.nFull + 1,
                 put := s.put + [x]))
  {
    SlotIsExact(s.N);
    LastUpdate(s.threads, t);
    var place := Place(s.head, s.n, s.N);
    var s0 := At(s, t, PutEmpty(x));
    var s1 := At(s, t, PutLock(x)).(nEmpty := s.nEmpty - 1);
    var s2 := At(s, t, PutStore(x)).(nEmpty := s.nEmpty - 1, lock := 0, owner := t);
    PutFromStore(s2, t, x, place);
    assert s2.(threads := s2.threads[t := Outside]).threads == s.threads;
    var s6 := s.(data := s.data[place := x], n := s.n + 1, nEmpty := s.nEmpty - 1, nFull := s.nFull + 1, put := s.put + [x]);
    StepComes(s1, t, s2, s6);
    StepComes(s0, t, s1, s6);
  }

  lemma PutFromStore<T>(s: State<T>, t: nat, x: T, place: nat)
    requires t < |s.threads| && s.threads[t] == PutStore(x) && s.lock == 0 && s.N > 0 && s.n < s.N < WORD
    requires place == Slot(s.head, s.n, s.N) < |s.data|
    ensures Comes(s, t, s.(data := s.data[place := x], n := s.n + 1, nFull := s.nFull + 1, lock := 1, owner := NOBODY,
                           put := s.put + [x], threads := s.threads[t := Outside]))
  {
    LastUpdate(s.threads, t);
    var data := s.data[place := x];
    var s1 := At(s, t, PutCount(x)).(data := data);
    var s2 := At(s, t, PutUnlock).(data := data, n := s.n + 1, put := s.put + [x]);
    var s3 := At(s, t, PutSignal).(data := data, n := s.n + 1, put := s.put + [x], lock := 1, owner := NOBODY);
    var s4 := At(s, t, Outside).(data := data, n := s.n + 1, put := s.put + [x], lock := 1, owner := NOBODY, nFull := s.nFull + 1);
    StepComes(s3, t, s4, s4);
    StepComes(s2, t, s3, s4);
    StepComes(s1, t, s2, s4);
    StepComes(s, t, s1, s4);
  }

  /** get with a value there takes a full slot, takes the first value out of the ring, counts it
      down and gives an empty slot; it leaves the lock free. */
  lemma GetAlone<T>(s: State<T>, t: nat)
    requires Inv(s) && s.N <= WORD / 2 && t < |s.threads| && s.threads[t] == Outside && s.nFull > 0 && s.lock == 1
    ensures 0 < s.n && 0 < s.N && s.head < |s.data| && |s.got| < |s.put| && s.data[s.head] == s.put[|s.got|]
    ensures Step(s, t, Get).Went?
    ensures Comes(Step(s, t, Get).s, t,
              s.(head := Place(s.head, 1, s.N), n := s.n - 1, nFull := s.nFull - 1, nEmpty := s.nEmpty + 1,
                 got := s.got + [s.put[|s.got|]]))
  {
    FirstInLine(s);
    LastUpdate(s.threads, t);
    var s0 := At(s, t, GetFull);
    var s1 := At(s, t, GetLock).(nFull := s.nFull - 1);
    var s2 := At(s, t, GetRead).(nFull := s.nFull - 1, lock := 0, owner := t);
    NextIsExact(s.head, s.N);
    GetFromRead(s2, t, s.data[s.head]);
    assert s2.threads[t := Outside] == s.threads;
    var s7 := s.(head := Place(s.head, 1, s.N), n := s.n - 1, nFull := s.nFull - 1, nEmpty := s.nEmpty + 1,
                 got := s.got + [s.data[s.head]]);
    StepComes(s1, t, s2, s7);
    StepComes(s0, t, s1, s7);
  }

  lemma FirstInLine<T>(s: State<T>)
    requires Inv(s) && s.nFull > 0 && s.lock == 1
    ensures 0 < s.n && 0 < s.N && s.head < |s.data| && |s.got| < |s.put| && s.data[s.head] == s.put[|s.got|]
  {
    FreeRing(s);
    FirstOfWindow(s);
  }

  /** With the lock free the ring holds what has been put and not got. */
  lemma FreeRing<T>(s: State<T>)
    requires Inv(s) && s.nFull > 0 && s.lock == 1
    ensures 0 < s.n <= s.N == |s.data| && s.head < s.N && s.put == s.got + Window(s, s.n)
  {
    assert s.owner == NOBODY;
  }

  lemma FirstOfWindow<T>(s: State<T>)
    requires 0 < s.n <= s.N == |s.data| && s.head < s.N && s.put == s.got + Window(s, s.n)
    ensures |s.got| < |s.put| && s.data[s.head] == s.put[|s.got|]
  {
    assert Window(s, s.n)[0] == s.data[Place(s.head, 0, s.N)];
  }

  lemma GetFromRead<T>(s: State<T>, t: nat, out: T)
    requires t < |s.threads| && s.threads[t] == GetRead && s.lock == 0 && s.N > 0 && 0 < s.n <= s.N < WORD
    requires s.head < |s.data| && s.data[s.head] == out
    ensures Comes(s, t, s.(head := Slot(s.head, 1, s.N), n := s.n - 1, nEmpty := s.nEmpty + 1, lock := 1, owner := NOBODY,
                           got := s.got + [out], threads := s.threads[t := Outside]))
  {
    LastUpdate(s.threads, t);
    var head := Slot(s.head, 1, s.N);
    var s1 := At(s, t, GetHead(out));
    var s2 := At(s, t, GetCount(out)).(head := head);
    var s3 := At(s, t, GetUnlock(out)).(head := head, n := s.n - 1, got := s.got + [out]);
    var s4 := At(s, t, GetSignal(out)).(head := head, n := s.n - 1, got := s.got + [out], lock := 1, owner := NOBODY);
    var s5 := At(s, t, Outside).(head := head, n := s.n - 1, got := s.got + [out], lock := 1, owner := NOBODY,
                                 nEmpty := s.nEmpty + 1);
    StepComes(s4, t, s5, s5);
    StepComes(s3, t, s4, s5);
    StepComes(s2, t, s3, s5);
    StepComes(s1, t, s2, s5);
    StepComes(s, t, s1, s5);
  }
}
