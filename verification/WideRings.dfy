/** The exact size up to which the index arithmetic of the bounded buffer works: beyond 2^31
    slots a value that was never read can be overwritten, whatever the number of threads.  (So
    large a buffer fits no heap of the kernel; the bound is one of the arithmetic alone.) */
module WideRings {
  import opened Common
  import opened BoundedBuffers

  /** Thread t is about to store, and the slot it will use holds a value still to be read. */
  ghost predicate Overwrites(s: State<int>, t: nat)
  {
    && t < |s.threads| && s.threads[t].PutStore? && 0 < s.N
    && exists i: nat :: i < s.n && Slot(s.head, s.n, s.N) == Place(s.head, i, s.N)
  }

  /** Thread 0 is outside put and get, with `n` values in the ring from `head` on and every unit
      with its semaphore. */
  predicate Quiet(s: State<int>, N: nat, head: nat, n: nat)
  {
    && 0 < s.N == N == |s.data| && s.head == head < N && s.n == n <= N < WORD
    && |s.threads| > 0 && s.threads[0].Outside? && s.lock == 1 && s.nFull == n && s.nEmpty == N - n
  }

  ghost predicate Reaches(s: State<int>, s': State<int>)
  {
    exists events :: Run(s, events) == Went(s')
  }

  /** What one event makes of an outcome. */
  function Then(o: Outcome<int>, t: nat, e: Event<int>): Outcome<int>
  {
    if !o.Went? then Broken
    else if t >= |o.s.threads| || Step(o.s, t, e).Refused? then o
    else Step(o.s, t, e)
  }

  lemma RunLast(s: State<int>, events: seq<(nat, Event<int>)>, before: seq<(nat, Event<int>)>, t: nat, e: Event<int>)
    requires events == before + [(t, e)]
    ensures Run(s, events) == Then(Run(s, before), t, e)
  {
    assert events[..|events| - 1] == before;
  }

  lemma {:induction false} RunThen(s: State<int>, a: seq<(nat, Event<int>)>, b: seq<(nat, Event<int>)>)
    requires Run(s, a).Went?
    ensures Run(s, a + b) == Run(Run(s, a).s, b)
  {
    if b == [] {
      assert a + b == a;
    } else {
      var first := b[..|b| - 1];
      var (t, e) := b[|b| - 1];
      RunThen(s, a, first);
      assert b == first + [(t, e)] && a + b == (a + first) + [(t, e)];
      RunLast(s, a + b, a + first, t, e);
      RunLast(Run(s, a).s, b, first, t, e);
    }
  }

  lemma ReachesThen(s: State<int>, s1: State<int>, s2: State<int>)
    requires Reaches(s, s1) && Reaches(s1, s2)
    ensures Reaches(s, s2)
  {
    var a :| Run(s, a) == Went(s1);
    var b :| Run(s1, b) == Went(s2);
    RunThen(s, a, b);
    assert Run(s, a + b) == Went(s2);
  }

  lemma OneStep(s: State<int>, e: Event<int>, s': State<int>)
    requires |s.threads| > 0 && Step(s, 0, e) == Went(s')
    ensures Reaches(s, s')
  {
    var events := [(0, e)];
    assert events[..0] == [];
    assert Run(s, events[..0]) == Went(s);
    assert Run(s, events) == Went(s');
  }

  lemma TwoSteps(s: State<int>, e: Event<int>, s1: State<int>, s2: State<int>)
    requires |s.threads| > 0 && Step(s, 0, e) == Went(s1)
    requires |s1.threads| > 0 && Step(s1, 0, Go) == Went(s2)
    ensures Reaches(s, s2)
  {
    OneStep(s, e, s1);
    OneStep(s1, Go, s2);
    ReachesThen(s, s1, s2);
  }

  /** Thread 0 between lock.down and its store. */
  predicate Storing(s: State<int>, N: nat, head: nat, n: nat)
  {
    && 0 < s.N == N == |s.data| && s.head == head < N && s.n == n < N < WORD
    && |s.threads| > 0 && s.threads[0] == PutStore(0) && s.lock == 0 && s.nFull == n && s.nEmpty == N - n - 1
  }

  /** The first three steps of a put. */
  lemma PutBegins(s: State<int>, N: nat, head: nat, n: nat) returns (s': State<int>)
    requires Quiet(s, N, head, n) && n < N
    ensures Reaches(s, s') && Storing(s', N, head, n)
  {
    var s1 := At(s, 0, PutEmpty(0));
    var s2 := At(s1, 0, PutLock(0)).(nEmpty := s.nEmpty - 1);
    s' := At(s2, 0, PutStore(0)).(lock := 0, owner := 0);
    TwoSteps(s, Put(0), s1, s2);
    OneStep(s2, Go, s');
    ReachesThen(s, s2, s');
  }

  lemma SlotInRange(head: nat, k: nat, N: nat)
    requires N > 0
    ensures Slot(head, k, N) < N
  {
  }

  lemma PutEnds(s: State<int>, N: nat, head: nat, n: nat) returns (s': State<int>)
    requires Storing(s, N, head, n)
    ensures Reaches(s, s') && Quiet(s', N, head, n + 1)
  {
    SlotInRange(head, n, N);
    assert (n + 1) % WORD == n + 1;
    var s1 := At(s, 0, PutCount(0)).(data := s.data[Slot(s.head, s.n, s.N) := 0]);
    var s2 := At(s1, 0, PutUnlock).(n := n + 1, put := s.put + [0]);
    var s3 := At(s2, 0, PutSignal).(lock := 1, owner := NOBODY);
    s' := At(s3, 0, Outside).(nFull := s.nFull + 1);
    TwoSteps(s, Go, s1, s2);
    TwoSteps(s2, Go, s3, s');
    ReachesThen(s, s2, s');
  }

  lemma OnePut(s: State<int>, N: nat, head: nat, n: nat) returns (s': State<int>)
    requires Quiet(s, N, head, n) && n < N
    ensures Reaches(s, s') && Quiet(s', N, head, n + 1)
  {
    var s1 := PutBegins(s, N, head, n);
    s' := PutEnds(s1, N, head, n);
    ReachesThen(s, s1, s');
  }

  lemma NextSlot(head: nat, N: nat)
    requires head + 1 < N < WORD
    ensures Slot(head, 1, N) == head + 1
  {
    assert (head + 1) % WORD == head + 1;
    Wrap(head, 1, N);
  }

  lemma SlotOfWord(head: nat, n: nat, N: nat)
    requires head + n == WORD && N > 0
    ensures Slot(head, n, N) == 0
  {
    assert (head + n) % WORD == 0;
  }

  /** Thread 0 between its read and its move of head, with the ring's one value. */
  predicate Moving(s: State<int>, N: nat, head: nat, x: int)
  {
    && 1 < s.N == N == |s.data| && s.head == head && head + 1 < N < WORD && s.n == 1
    && |s.threads| > 0 && s.threads[0] == GetHead(x) && s.lock == 0 && s.nFull == 0 && s.nEmpty == N - 1
  }

  /** A get up to the move of head. */
  lemma GetBegins(s: State<int>, N: nat, head: nat) returns (s': State<int>)
    requires Quiet(s, N, head, 1) && head + 1 < N
    ensures Reaches(s, s') && Moving(s', N, head, s.data[head])
  {
    var s1 := At(s, 0, GetFull);
    var s2 := At(s1, 0, GetLock).(nFull := 0);
    var s3 := At(s2, 0, GetRead).(lock := 0, owner := 0);
    s' := At(s3, 0, GetHead(s.data[head]));
    TwoSteps(s, Get, s1, s2);
    TwoSteps(s2, Go, s3, s');
    ReachesThen(s, s2, s');
  }

  lemma GetEnds(s: State<int>, N: nat, head: nat, x: int) returns (s': State<int>)
    requires Moving(s, N, head, x)
    ensures Reaches(s, s') && Quiet(s', N, head + 1, 0)
  {
    var s1 := At(s, 0, GetCount(x)).(head := head + 1);
    NextSlot(head, N);
    assert (1 + WORD - 1) % WORD == 0;
    var s2 := At(s1, 0, GetUnlock(x)).(n := 0, got := s.got + [x]);
    var s3 := At(s2, 0, GetSignal(x)).(lock := 1, owner := NOBODY);
    s' := At(s3, 0, Outside).(nEmpty := s.nEmpty + 1);
    TwoSteps(s, Go, s1, s2);
    TwoSteps(s2, Go, s3, s');
    ReachesThen(s, s2, s');
  }

  lemma OneGet(s: State<int>, N: nat, head: nat) returns (s': State<int>)
    requires Quiet(s, N, head, 1) && head + 1 < N
    ensures Reaches(s, s') && Quiet(s', N, head + 1, 0)
  {
    var s1 := GetBegins(s, N, head);
    s' := GetEnds(s1, N, head, s.data[head]);
    ReachesThen(s, s1, s');
  }

  /** Put and get by turns move head on. */
  lemma {:induction false} HeadTo(s: State<int>, N: nat, head: nat) returns (s': State<int>)
    requires Quiet(s, N, 0, 0) && head < N
    ensures Reaches(s, s') && Quiet(s', N, head, 0)
  {
    if head == 0 {
      s' := s;
      assert Run(s, []) == Went(s);
    } else {
      var s1 := HeadTo(s, N, head - 1);
      var s2 := OnePut(s1, N, head - 1, 0);
      s' := OneGet(s2, N, head - 1);
      ReachesThen(s, s1, s2);
      ReachesThen(s, s2, s');
    }
  }

  lemma {:induction false} FillTo(s: State<int>, N: nat, head: nat, n: nat) returns (s': State<int>)
    requires Quiet(s, N, head, 0) && n <= N
    ensures Reaches(s, s') && Quiet(s', N, head, n)
  {
    if n == 0 {
      s' := s;
      assert Run(s, []) == Went(s);
    } else {
      var s1 := FillTo(s, N, head, n - 1);
      s' := OnePut(s1, N, head, n - 1);
      ReachesThen(s, s1, s');
    }
  }

  lemma InitialIsQuiet(s: State<int>)
    requires Initial(s) && |s.threads| > 0 && s.N > 0
    ensures Quiet(s, s.N, 0, 0)
  {
  }

  /** Thread 0 alone moves head to the last slot, fills the ring as far as it takes, and is about
      to store once more. */
  lemma DriveTo(s: State<int>, N: nat, n: nat) returns (s': State<int>)
    requires Quiet(s, N, 0, 0) && n < N
    ensures Reaches(s, s') && Storing(s', N, N - 1, n)
  {
    var s1 := HeadTo(s, N, N - 1);
    var s2 := FillTo(s1, N, N - 1, n);
    ReachesThen(s, s1, s2);
    s' := PutBegins(s2, N, N - 1, n);
    ReachesThen(s, s2, s');
  }

  /** With any threads at all, a buffer of more than 2^31 slots can be driven to overwrite an
      unread value: thread 0 alone does it, while the others stay outside. */
  lemma WideRingFails(s: State<int>)
    requires Initial(s) && |s.threads| > 0 && s.N > WORD / 2
    ensures exists s' :: Reaches(s, s') && Overwrites(s', 0)
  {
    InitialIsQuiet(s);
    var s' := DriveTo(s, s.N, WORD - s.N + 1);
    FullRingOverwrites(s', s.N);
  }

  lemma FullRingOverwrites(s: State<int>, N: nat)
    requires WORD / 2 < N < WORD && Storing(s, N, N - 1, WORD - N + 1)
    ensures Overwrites(s, 0)
  {
    SlotOfWord(s.head, s.n, N);
    Wrap(s.head, 1, N);
    assert Slot(s.head, s.n, s.N) == Place(s.head, 1, s.N);
  }

  /** Whatever the number of producers and consumers, if there are any: no run brings any thread
      to overwrite an unread value if and only if there are at most 2^31 slots. */
  lemma SafeExactlyUpToHalf(s: State<int>)
    requires Initial(s)
    ensures (forall s', t: nat :: Reaches(s, s') ==> !Overwrites(s', t)) <==> s.N <= WORD / 2 || |s.threads| == 0
  {
    if s.N <= WORD / 2 {
      forall s', t: nat | Reaches(s, s') ensures !Overwrites(s', t) {
        NarrowRingWorks(s, s', t);
      }
    } else if |s.threads| == 0 {
      forall s', t: nat | Reaches(s, s') ensures !Overwrites(s', t) {
        var events :| Run(s, events) == Went(s');
        NobodyRuns(s, events);
      }
    } else {
      WideRingFails(s);
    }
  }

  lemma NarrowRingWorks(s: State<int>, s': State<int>, t: nat)
    requires Initial(s) && s.N <= WORD / 2 && Reaches(s, s')
    ensures !Overwrites(s', t)
  {
    var events :| Run(s, events) == Went(s');
    RunKeeps(s, events);
    if t < |s'.threads| && s'.threads[t].PutStore? {
      forall i: nat | i < s'.n ensures 0 < s'.N ==> Slot(s'.head, s'.n, s'.N) != Place(s'.head, i, s'.N) {
        NoOverwrite(s, events, t, i);
      }
    }
  }

  lemma {:induction false} NobodyRuns(s: State<int>, events: seq<(nat, Event<int>)>)
    requires |s.threads| == 0
    ensures Run(s, events) == Went(s)
  {
    if events != [] {
      NobodyRuns(s, events[..|events| - 1]);
      var (t, e) := events[|events| - 1];
      assert t >= |s.threads|;
    }
  }
}
