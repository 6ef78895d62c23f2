/** When the threads of the reusable barrier can go on, and what an arrival does when no other
    thread interferes. */
module BarrierCalls {
  import opened Common
  import opened Barriers
  import opened BarrierSteps
  import opened BarrierRuns

  /** A thread must wait exactly while it sleeps, or for the lock. */
  lemma StepHappens(s: State, t: nat)
    requires Inv(s) && t < |s.threads|
    ensures var pc := s.threads[t].pc;
      Step(s, t).Went? <==> !pc.Parked? && !pc.Handed? && (pc.Enter? || pc.Switching? || pc.Relock? ==> !s.taken)
  {
    NeverBroken(s, t);
    assert ThreadOk(s, t);
  }

  ghost predicate Moves(s: State, t: nat)
  {
    t < |s.threads| && Step(s, t).Went? && Step(s, t).s.threads != s.threads
  }

  lemma HandedUnderLock(s: State, t: nat)
    requires Inv(s) && t < |s.threads|
    ensures s.threads[t].pc.Handed? ==> s.taken
  {
    assert ThreadOk(s, t);
    assert s.threads[t].pc.Handed? ==> ThreadOk(s, s.threads[t].pc.giver);
  }

  /** As long as some thread does not sleep, some thread gets on. */
  lemma SomeoneMoves(s: State, t: nat)
    requires Inv(s) && t < |s.threads| && !s.threads[t].pc.Parked?
    ensures exists u: nat :: Moves(s, u)
  {
    HandedUnderLock(s, t);
    var u := if s.taken then s.owner.value else t;
    assert ThreadOk(s, u);
    StepHappens(s, u);
    StepChanges(s, u);
    assert Moves(s, u);
  }

  /** A step never leaves the thread where it was. */
  lemma StepChanges(s: State, t: nat)
    requires t < |s.threads| && WakeOk(s, t) && Step(s, t).Went?
    ensures |Step(s, t).s.threads| == |s.threads| && Step(s, t).s.threads[t].pc != s.threads[t].pc
  {
    match s.threads[t].pc
    case Drain(_) => assert s.queue != [] && s.queue[0] < |s.threads| && s.queue[0] == t ==> t in s.queue;
    case _ =>
  }

  function Below(n: nat): (s: set<nat>)
    ensures |s| == n && forall t: nat :: t in s <==> t < n
  {
    if n == 0 then {} else Below(n - 1) + {n - 1}
  }

  /** With at least as many threads as the barrier counts, they can never all be asleep. */
  lemma EnoughGoOn(s: State)
    requires Inv(s) && |s.threads| >= s.initial
    ensures exists u: nat :: Moves(s, u)
  {
    if t: nat :| t < |s.threads| && !s.threads[t].pc.Parked? {
      SomeoneMoves(s, t);
    } else {
      AllAsleep(s);
    }
  }

  lemma AllAsleep(s: State)
    requires Inv(s) && s.threads != []
    ensures (forall t: nat | t < |s.threads| :: s.threads[t].pc.Parked?) ==> |s.threads| < s.initial
  {
    if forall t: nat | t < |s.threads| :: s.threads[t].pc.Parked? {
      FreeLock(s);
      forall t | t in Below(|s.threads|) ensures t in s.arrived[s.epoch] {
        assert ThreadOk(s, t);
      }
      FewerElements(Below(|s.threads|), s.arrived[s.epoch]);
    }
  }

  /** Nobody who sleeps holds the lock. */
  lemma FreeLock(s: State)
    requires Inv(s) && forall t: nat | t < |s.threads| :: s.threads[t].pc.Parked?
    ensures !s.taken && OwnerPc(s) == Outside && s.count > 0
  {
    assert s.owner.Some? ==> ThreadOk(s, s.owner.value);
  }

  // ----- whole calls -----

  /** Some schedule leads from `s` to `s'`. */
  ghost predicate Comes(s: State, s': State)
  {
    exists schedule :: Run(s, schedule) == Went(s')
  }

  lemma {:induction false} RunThen(s: State, a: seq<nat>, b: seq<nat>, s1: State)
    requires Run(s, a) == Went(s1)
    ensures Run(s, a + b) == Run(s1, b)
    decreases |b|
  {
    if b == [] {
      assert a + b == a;
    } else {
      RunThen(s, a, b[..|b| - 1], s1);
      assert (a + b)[..|a + b| - 1] == a + b[..|b| - 1];
      assert (a + b)[|a + b| - 1] == b[|b| - 1];
    }
  }

  lemma ComesThen(s: State, s1: State, s2: State)
    requires Comes(s, s1) && Comes(s1, s2)
    ensures Comes(s, s2)
  {
    var a :| Run(s, a) == Went(s1);
    var b :| Run(s1, b) == Went(s2);
    RunThen(s, a, b, s1);
  }

  lemma OneStep(s: State, t: nat, s1: State)
    requires t < |s.threads| && Step(s, t) == Went(s1)
    ensures Comes(s, s1)
  {
    assert Run(s, []) == Went(s);
    assert [t][..|[t]| - 1] == [];
    assert Run(s, [t]) == Went(s1);
  }

  lemma StepComes(s: State, t: nat, s1: State, s2: State)
    requires t < |s.threads| && Step(s, t) == Went(s1) && (s1 == s2 || Comes(s1, s2))
    ensures Comes(s, s2)
  {
    OneStep(s, t, s1);
    if s1 != s2 { ComesThen(s, s1, s2); }
  }

  lemma LastUpdate(threads: seq<Thread>, t: nat)
    requires t < |threads|
    ensures forall a: Thread, b: Thread {:trigger threads[t := a][t := b]} :: threads[t := a][t := b] == threads[t := b]
  {
  }

  ghost predicate CanArrive(s: State, t: nat)
  {
    t < |s.threads| && s.threads[t] == Thread(Outside, true) && !s.taken && s.owner == None && s.epoch < |s.arrived|
  }

  /** The thread holds the lock and has been counted. */
  function Counted(s: State, t: nat, pc: Pc): State
    requires t < |s.threads| && s.epoch < |s.arrived| && s.count > 0
  {
    s.(taken := true, owner := Some(t), was := false, count := s.count - 1,
       arrived := s.arrived[s.epoch := s.arrived[s.epoch] + {t}], threads := s.threads[t := Thread(pc, false)])
  }

  /** From the call of sync to the test of the count. */
  lemma Arrives(s: State, t: nat)
    requires CanArrive(s, t) && s.count > 0
    ensures Comes(s, Counted(s, t, Test(s.epoch)))
  {
    LastUpdate(s.threads, t);
    var s1 := At(s, t, Enter);
    var s2 := s.(taken := true, owner := Some(t), was := false, threads := s.threads[t := Thread(Arrive, false)]);
    var s3 := Counted(s, t, Test(s.epoch));
    StepComes(s2, t, s3, s3);
    StepComes(s1, t, s2, s3);
    StepComes(s, t, s1, s3);
  }

  /** The state after an arrival that does not complete the round: the thread sleeps, last in the
      queue, and the lock is free. */
  function Asleep(s: State, t: nat): State
    requires t < |s.threads| && s.epoch < |s.arrived| && s.count > 0
  {
    s.(was := true, count := s.count - 1, arrived := s.arrived[s.epoch := s.arrived[s.epoch] + {t}],
       queue := s.queue + [t], threads := s.threads[t := Thread(Parked(s.epoch), true)])
  }

  /** An arrival that does not complete the round goes to sleep. */
  lemma ArrivalSleeps(s: State, t: nat)
    requires CanArrive(s, t) && s.count > 1
    ensures Comes(s, Asleep(s, t))
  {
    Arrives(s, t);
    WaitsToSleep(s, t);
    ComesThen(s, Counted(s, t, Test(s.epoch)), Asleep(s, t));
  }

  lemma WaitsToSleep(s: State, t: nat)
    requires CanArrive(s, t) && s.count > 1
    ensures Comes(Counted(s, t, Test(s.epoch)), Asleep(s, t))
  {
    LastUpdate(s.threads, t);
    var r := s.epoch;
    var s1, s2, s3 := Counted(s, t, Loop(r)), Counted(s, t, Wait(r)), Counted(s, t, Release(r, s.signals));
    SleepsFromRelease(s3, t, r);
    StepComes(s2, t, s3, Asleep(s, t));
    StepComes(s1, t, s2, Asleep(s, t));
    StepComes(Counted(s, t, Test(r)), t, s1, Asleep(s, t));
  }

  lemma SleepsFromRelease(s: State, t: nat, r: nat)
    requires t < |s.threads| && s.threads[t] == Thread(Release(r, s.signals), false) && s.taken && s.owner == Some(t) && !s.was
    ensures Comes(s, s.(taken := false, owner := None, was := true, queue := s.queue + [t],
                        threads := s.threads[t := Thread(Parked(r), true)]))
  {
    LastUpdate(s.threads, t);
    var s1 := s.(taken := false, owner := None, threads := s.threads[t := Thread(Switching(r, s.signals), true)]);
    var s2 := s.(was := true, threads := s.threads[t := Thread(Recheck(r, s.signals), true)]);
    var s3 := s.(was := true, queue := s.queue + [t], threads := s.threads[t := Thread(Queued(r), true)]);
    var s4 := s.(taken := false, owner := None, was := true, queue := s.queue + [t],
                 threads := s.threads[t := Thread(Parked(r), true)]);
    StepComes(s3, t, s4, s4);
    StepComes(s2, t, s3, s4);
    StepComes(s1, t, s2, s4);
    StepComes(s, t, s1, s4);
  }

  /** The callback of block, when a signal has come in between: the thread does not sleep. */
  lemma MissedReturns(s: State, t: nat, r: nat, seen: nat)
    requires t < |s.threads| && s.threads[t] == Thread(Switching(r, seen), true) && !s.taken && s.owner == None && s.signals > seen
    ensures Comes(s, s.(was := true, threads := s.threads[t := Thread(Ready(r), true)]))
  {
    LastUpdate(s.threads, t);
    var s1 := s.(taken := true, owner := Some(t), was := true, threads := s.threads[t := Thread(Recheck(r, seen), true)]);
    var s2 := At(s1, t, Missed(r));
    var s3 := s.(was := true, threads := s.threads[t := Thread(Scheduling(r), true)]);
    var s4 := s.(was := true, threads := s.threads[t := Thread(Ready(r), true)]);
    StepComes(s3, t, s4, s4);
    StepComes(s2, t, s3, s4);
    StepComes(s1, t, s2, s4);
    StepComes(s, t, s1, s4);
  }

  /** A thread that was woken returns: it takes the lock once more, finds its round over and frees
      the lock. */
  lemma WokenReturns(s: State, t: nat, r: nat)
    requires t < |s.threads| && s.threads[t] == Thread(Ready(r), true) && !s.taken && s.owner == None && r < s.epoch
    ensures Comes(s, s.(was := false, threads := s.threads[t := Thread(Outside, true)]))
  {
    LastUpdate(s.threads, t);
    var s1 := At(s, t, Relock(r));
    var s2 := s.(taken := true, owner := Some(t), was := false, threads := s.threads[t := Thread(Loop(r), false)]);
    var s4 := s.(was := false, threads := s.threads[t := Thread(Outside, true)]);
    LoopLeaves(s2, t, r);
    StepComes(s1, t, s2, s4);
    StepComes(s, t, s1, s4);
  }

  lemma LoopLeaves(s: State, t: nat, r: nat)
    requires t < |s.threads| && s.threads[t] == Thread(Loop(r), false) && s.taken && !s.was && r < s.epoch
    ensures Comes(s, s.(taken := false, owner := None, threads := s.threads[t := Thread(Outside, true)]))
  {
    LastUpdate(s.threads, t);
    var s1, s2 := At(s, t, Leave(r)), s.(taken := false, owner := None, threads := s.threads[t := Thread(Outside, true)]);
    StepComes(s1, t, s2, s2);
    StepComes(s, t, s1, s2);
  }

  // ----- too few threads -----

  /** The first `k` threads sleep in round 0, and the others have not arrived. */
  ghost predicate PartlyAsleep(r: State, s: State, k: nat)
  {
    && |r.threads| == |s.threads| && k <= |r.threads| && r.initial == s.initial
    && !r.taken && r.owner == None && r.epoch == 0 && |r.arrived| == 1 && r.count == s.initial - k
    && (forall t: nat {:trigger r.threads[t]} | t < |r.threads| ::
          if t < k then r.threads[t].pc.Parked? else r.threads[t] == Thread(Outside, true))
  }

  lemma OneMoreSleeps(q: State, s: State, k: nat)
    requires PartlyAsleep(q, s, k) && k < |s.threads| < s.initial
    ensures CanArrive(q, k) && q.count > 1 && PartlyAsleep(Asleep(q, k), s, k + 1)
  {
  }

  lemma {:induction false} FirstSleep(s: State, k: nat) returns (r: State)
    requires Initial(s) && k <= |s.threads| < s.initial
    ensures Comes(s, r) && PartlyAsleep(r, s, k)
  {
    if k == 0 {
      r := s;
      assert Run(s, []) == Went(s);
    } else {
      var q := FirstSleep(s, k - 1);
      OneMoreSleeps(q, s, k - 1);
      ArrivalSleeps(q, k - 1);
      r := Asleep(q, k - 1);
      ComesThen(s, q, r);
    }
  }

  /** With fewer threads than the barrier counts there is a run after which all sleep and none can
      ever go on. */
  lemma TooFewSleep(s: State) returns (r: State)
    requires Initial(s) && 0 < |s.threads| < s.initial
    ensures Comes(s, r) && |r.threads| == |s.threads| && forall t: nat {:trigger Moves(r, t)} :: !Moves(r, t)
  {
    r := FirstSleep(s, |s.threads|);
    forall t: nat ensures !Moves(r, t) { }
  }

  /** After this run some thread can go on. */
  ghost predicate GoesOn(s: State, schedule: seq<nat>)
  {
    Run(s, schedule).Went? && exists u: nat :: Moves(Run(s, schedule).s, u)
  }

  /** Some thread can go on after every run if and only if there are at least as many threads as
      the barrier counts. */
  lemma NeverAllAsleepExactly(s: State)
    requires Initial(s) && s.initial > 0 && |s.threads| > 0
    ensures (forall schedule :: GoesOn(s, schedule)) <==> |s.threads| >= s.initial
  {
    if |s.threads| >= s.initial {
      forall schedule ensures GoesOn(s, schedule) {
        RunKeeps(s, schedule);
        SameThreads(s, schedule);
        EnoughGoOn(Run(s, schedule).s);
      }
    } else {
      var r := TooFewSleep(s);
      var schedule :| Run(s, schedule) == Went(r);
      assert !GoesOn(s, schedule);
    }
  }

  lemma {:induction false} SameThreads(s: State, schedule: seq<nat>)
    requires Run(s, schedule).Went?
    ensures |Run(s, schedule).s.threads| == |s.threads|
  {
    if schedule != [] {
      SameThreads(s, schedule[..|schedule| - 1]);
      var s1, t := Run(s, schedule[..|schedule| - 1]).s, schedule[|schedule| - 1];
      if t < |s1.threads| && Step(s1, t).Went? { StepThreads(s1, t); }
    }
  }

  lemma StepThreads(s: State, t: nat)
    requires t < |s.threads| && Step(s, t).Went?
    ensures |Step(s, t).s.threads| == |s.threads|
  {
  }

  // ----- the last arrival -----

  /** A sleeping thread made ready. */
  function Wakened(th: Thread): Thread
  {
    if th.pc.Parked? then Thread(Ready(th.pc.round), th.on) else th
  }

  function Woken(threads: seq<Thread>, q: seq<nat>): seq<Thread>
  {
    seq(|threads|, u requires 0 <= u < |threads| => if u in q then Wakened(threads[u]) else threads[u])
  }

  ghost predicate CanDrain(s: State, t: nat, r: nat)
  {
    && t < |s.threads| && s.threads[t] == Thread(Drain(r), false) && s.taken && t !in s.queue
    && (forall i | 0 <= i < |s.queue| :: s.queue[i] < |s.threads| && s.threads[s.queue[i]].pc.Parked?)
    && (forall i, j | 0 <= i < j < |s.queue| :: s.queue[i] != s.queue[j])
  }

  /** After one turn of the loop of notifyAll the first of the queue is ready. */
  function OneWoken(s: State, t: nat, r: nat): State
    requires t < |s.threads| && s.queue != [] && s.queue[0] < |s.threads|
  {
    var next := s.queue[0];
    s.(threads := s.threads[next := Wakened(s.threads[next])], queue := s.queue[1..])
  }

  function OnePopped(s: State, t: nat, r: nat): State
    requires t < |s.threads| && s.queue != [] && s.queue[0] < |s.threads| && s.threads[s.queue[0]].pc.Parked?
  {
    var next := s.queue[0];
    var th := s.threads[next];
    s.(threads := s.threads[t := Thread(Wake(r, next), false)][next := Thread(Handed(th.pc.round, t), th.on)],
       queue := s.queue[1..])
  }

  lemma Pops(s: State, t: nat, r: nat)
    requires CanDrain(s, t, r) && s.queue != []
    ensures Step(s, t) == Went(OnePopped(s, t, r))
  {
    assert s.queue[0] in s.queue;
  }

  lemma Wakes(s: State, t: nat, r: nat)
    requires CanDrain(s, t, r) && s.queue != []
    ensures Step(OnePopped(s, t, r), t) == Went(OneWoken(s, t, r))
  {
    var next := s.queue[0];
    assert next in s.queue;
    TwoUpdates(s.threads, t, Thread(Wake(r, next), false), next, OnePopped(s, t, r).threads[next], Wakened(s.threads[next]));
  }

  lemma TwoUpdates(threads: seq<Thread>, t: nat, a: Thread, w: nat, b: Thread, c: Thread)
    requires t < |threads| && w < |threads| && t != w
    ensures threads[t := a][w := b][t := threads[t]][w := c] == threads[w := c]
  {
  }

  lemma OneTurnKeeps(s: State, t: nat, r: nat)
    requires CanDrain(s, t, r) && s.queue != []
    ensures CanDrain(OneWoken(s, t, r), t, r)
  {
    assert s.queue[0] in s.queue;
    var q := s.queue[1..];
    assert forall i | 0 <= i < |q| :: q[i] == s.queue[i + 1];
  }

  function AllWoken(s: State, t: nat, r: nat): State
    requires t < |s.threads|
  {
    s.(threads := Woken(s.threads, s.queue)[t := Thread(Leave(r), false)], queue := [])
  }

  lemma WokenMore(s: State, t: nat, r: nat)
    requires CanDrain(s, t, r) && s.queue != []
    ensures AllWoken(OneWoken(s, t, r), t, r) == AllWoken(s, t, r)
  {
    assert s.queue[0] in s.queue;
    assert s.queue == [s.queue[0]] + s.queue[1..];
    var a, b := AllWoken(OneWoken(s, t, r), t, r).threads, AllWoken(s, t, r).threads;
    assert |a| == |b| && forall u | 0 <= u < |a| :: a[u] == b[u];
  }

  lemma {:induction false} LoopWakes(s: State, t: nat, r: nat)
    requires CanDrain(s, t, r)
    ensures Comes(s, AllWoken(s, t, r))
    decreases |s.queue|
  {
    if s.queue == [] {
      assert Woken(s.threads, []) == s.threads;
      StepComes(s, t, At(s, t, Leave(r)), AllWoken(s, t, r));
    } else {
      OneTurnKeeps(s, t, r);
      LoopWakes(OneWoken(s, t, r), t, r);
      WokenMore(s, t, r);
      Wakes(s, t, r);
      StepComes(OnePopped(s, t, r), t, OneWoken(s, t, r), AllWoken(s, t, r));
      Pops(s, t, r);
      StepComes(s, t, OnePopped(s, t, r), AllWoken(s, t, r));
    }
  }

  /** The state after the arrival that completes the round: a new round has begun, every sleeping
      thread is ready, and the lock is free. */
  function Opened(s: State, t: nat): State
    requires t < |s.threads| && s.epoch < |s.arrived|
  {
    s.(was := false, count := s.initial, epoch := s.epoch + 1, signals := s.signals + 1, queue := [],
       arrived := s.arrived[s.epoch := s.arrived[s.epoch] + {t}] + [{}],
       threads := Woken(s.threads, s.queue))
  }

  /** The arrival that completes the round wakes all and returns. */
  lemma LastArrivalOpens(s: State, t: nat)
    requires Inv(s) && CanArrive(s, t) && s.count == 1
    ensures Comes(s, Opened(s, t))
  {
    SleepersAreParked(s, t);
    Arrives(s, t);
    OpensToLeave(s, t);
    LeavesOpen(s, t);
    ComesThen(s, Counted(s, t, Test(s.epoch)), Leaving(s, t));
    ComesThen(s, Leaving(s, t), Opened(s, t));
  }

  lemma SleepersAreParked(s: State, t: nat)
    requires Inv(s) && CanArrive(s, t)
    ensures t !in s.queue
    ensures forall i | 0 <= i < |s.queue| :: s.queue[i] < |s.threads| && s.threads[s.queue[i]].pc.Parked?
    ensures forall i, j | 0 <= i < j < |s.queue| :: s.queue[i] != s.queue[j]
  {
    assert ThreadOk(s, t);
    forall i | 0 <= i < |s.queue| ensures s.queue[i] < |s.threads| && s.threads[s.queue[i]].pc.Parked? {
      assert s.queue[i] in s.queue && ThreadOk(s, s.queue[i]);
    }
  }

  /** All are woken, and the thread is about to free the lock. */
  function Leaving(s: State, t: nat): State
    requires t < |s.threads| && s.epoch < |s.arrived|
  {
    Opened(s, t).(taken := true, owner := Some(t), threads := Woken(s.threads, s.queue)[t := Thread(Leave(s.epoch), false)])
  }

  /** The new round has begun, and nobody has been woken yet. */
  function Opening(s: State, t: nat): State
    requires t < |s.threads| && s.epoch < |s.arrived|
  {
    Opened(s, t).(taken := true, owner := Some(t), queue := s.queue, threads := s.threads[t := Thread(Drain(s.epoch), false)])
  }

  lemma Opens(s: State, t: nat)
    requires CanArrive(s, t) && s.count == 1
    ensures Comes(Counted(s, t, Test(s.epoch)), Opening(s, t))
  {
    LastUpdate(s.threads, t);
    var r := s.epoch;
    var s0, s1 := Counted(s, t, Test(r)), Counted(s, t, Open(r));
    var s2 := s0.(epoch := r + 1, count := s.initial, arrived := s0.arrived + [{}], threads := s.threads[t := Thread(Notify(r), false)]);
    StepComes(s2, t, Opening(s, t), Opening(s, t));
    StepComes(s1, t, s2, Opening(s, t));
    StepComes(s0, t, s1, Opening(s, t));
  }

  lemma OpensToLeave(s: State, t: nat)
    requires CanArrive(s, t) && s.count == 1 && t !in s.queue
    requires forall i | 0 <= i < |s.queue| :: s.queue[i] < |s.threads| && s.threads[s.queue[i]].pc.Parked?
    requires forall i, j | 0 <= i < j < |s.queue| :: s.queue[i] != s.queue[j]
    ensures Comes(Counted(s, t, Test(s.epoch)), Leaving(s, t))
  {
    Opens(s, t);
    LoopWakes(Opening(s, t), t, s.epoch);
    SameWoken(s, t, Thread(Drain(s.epoch), false), Thread(Leave(s.epoch), false));
    ComesThen(Counted(s, t, Test(s.epoch)), Opening(s, t), Leaving(s, t));
  }

  lemma SameWoken(s: State, t: nat, a: Thread, b: Thread)
    requires t < |s.threads| && t !in s.queue
    ensures Woken(s.threads[t := a], s.queue)[t := b] == Woken(s.threads, s.queue)[t := b]
  {
  }

  lemma LeavesOpen(s: State, t: nat)
    requires CanArrive(s, t) && t !in s.queue
    ensures Comes(Leaving(s, t), Opened(s, t))
  {
    var a, b := Woken(s.threads, s.queue)[t := Thread(Leave(s.epoch), false)][t := Thread(Outside, true)], Woken(s.threads, s.queue);
    assert |a| == |b| && forall u | 0 <= u < |a| :: a[u] == b[u];
    OneStep(Leaving(s, t), t, Opened(s, t));
  }
}
