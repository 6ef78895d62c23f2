/** Which steps of the condition variable can happen, that its threads are never stuck, and what
    a call of wait or notify does when no other thread interferes. */
module ConditionCalls {
  import opened Common
  import opened Conditions

  /** A thread must wait exactly while it sleeps, or for the lock. */
  lemma StepHappens(s: State, base: seq<bool>, t: nat, e: Event)
    requires Inv(s) && FlagsOk(s, base) && t < |s.threads|
    ensures var pc := s.threads[t];
      Step(s, t, e).Refused? <==> pc.Parked? || pc.Handed? || ((pc.Enter? || pc.Away? || pc.Ready?) && s.taken)
  {
    assert ThreadOk(s, t) && FlagOk(s, base, t);
  }

  ghost predicate Moves(s: State, t: nat)
  {
    t < |s.threads| && Step(s, t, Go).Went? && Step(s, t, Go).s.threads != s.threads
  }

  /** As long as some thread is not asleep in the queue, some thread gets on: a thread that is
      popped or wants the lock never waits for nothing. */
  lemma SomeoneMoves(s: State, base: seq<bool>, t: nat)
    requires Inv(s) && FlagsOk(s, base) && t < |s.threads| && !s.threads[t].Parked?
    ensures exists u: nat :: Moves(s, u)
  {
    HandedUnderLock(s, t);
    if s.taken { OwnerMoves(s, base, s.owner.value); } else { FreeThreadMoves(s, base, t); }
  }

  lemma HandedUnderLock(s: State, t: nat)
    requires Inv(s) && t < |s.threads|
    ensures s.threads[t].Handed? ==> s.taken
  {
    assert ThreadOk(s, t);
    assert s.threads[t].Handed? ==> ThreadOk(s, s.threads[t].giver);
  }

  lemma OwnerMoves(s: State, base: seq<bool>, u: nat)
    requires Inv(s) && FlagsOk(s, base) && s.owner == Some(u)
    ensures Moves(s, u)
  {
    assert ThreadOk(s, u);
    StepHappens(s, base, u, Go);
    NeverBroken(s, base, u, Go);
    StepChanges(s, u);
  }

  /** A step never leaves the thread where it was. */
  lemma StepChanges(s: State, t: nat)
    requires t < |s.threads| && ThreadOk(s, t) && Step(s, t, Go).Went?
    ensures |Step(s, t, Go).s.threads| == |s.threads| && Step(s, t, Go).s.threads[t] != s.threads[t]
  {
    match s.threads[t]
    case Drain(_, _) => assert s.queue != [] && s.queue[0] < |s.threads| && s.queue[0] == t ==> t in s.queue;
    case _ =>
  }

  lemma FreeThreadMoves(s: State, base: seq<bool>, t: nat)
    requires Inv(s) && FlagsOk(s, base) && t < |s.threads| && !s.taken && !s.threads[t].Parked? && !s.threads[t].Handed?
    ensures Moves(s, t)
  {
    StepHappens(s, base, t, Go);
    NeverBroken(s, base, t, Go);
    assert ThreadOk(s, t);
    StepChanges(s, t);
  }

  // ----- whole calls -----

  /** Thread `t` takes `n` steps of its own. */
  ghost function Steps(s: State, t: nat, n: nat): Outcome
    decreases n
  {
    if n == 0 then Went(s)
    else if t >= |s.threads| then Refused
    else
      match Step(s, t, Go)
      case Went(s1) => Steps(s1, t, n - 1)
      case other => other
  }

  /** Thread `t` comes from `s` to `s'` when no other interferes. */
  ghost predicate Comes(s: State, t: nat, s': State)
  {
    exists n: nat :: Steps(s, t, n) == Went(s')
  }

  lemma StepComes(s: State, t: nat, s1: State, s2: State)
    requires t < |s.threads| && Step(s, t, Go) == Went(s1) && (s1 == s2 || Comes(s1, t, s2))
    ensures Comes(s, t, s2)
  {
    assert Steps(s1, t, 0) == Went(s1);
    var n: nat :| Steps(s1, t, n) == Went(s2);
    assert Steps(s, t, n + 1) == Went(s2);
  }

  lemma LastUpdate(threads: seq<Pc>, t: nat)
    requires t < |threads|
    ensures forall a: Pc, b: Pc {:trigger threads[t := a][t := b]} :: threads[t := a][t := b] == threads[t := b]
  {
  }

  /** wait with no notify in between: the thread lets go of the lock and sleeps, last in the queue;
      the lock is free and its interrupts are on. */
  lemma WaitSleeps(s: State, base: seq<bool>, t: nat)
    requires Inv(s) && FlagsOk(s, base) && t < |s.threads| && s.threads[t] == Locked && base[t]
    ensures Step(s, t, Wait).Went?
    ensures Comes(Step(s, t, Wait).s, t,
              s.(taken := false, owner := None, was := true, on := s.on[t := true], queue := s.queue + [t],
                 arrived := s.arrived + [t], threads := s.threads[t := Parked(s.epoch)]))
  {
    assert ThreadOk(s, t) && FlagOk(s, base, t);
    LastUpdate(s.threads, t);
    var s0 := At(s, t, Release(s.epoch));
    var free := s.(taken := false, owner := None, on := s.on[t := true]);
    var s1 := At(free, t, Away(s.epoch));
    FromAway(s1, t, s.epoch);
    StepComes(s0, t, s1,
              s.(taken := false, owner := None, was := true, on := s.on[t := true], queue := s.queue + [t],
                 arrived := s.arrived + [t], threads := s.threads[t := Parked(s.epoch)]));
  }

  /** The callback of block, when no signal has come in between. */
  lemma FromAway(s: State, t: nat, seen: nat)
    requires t < |s.threads| && s.threads[t] == Away(seen) && !s.taken && s.owner == None && s.epoch == seen
    ensures Comes(s, t, s.(was := true, queue := s.queue + [t], arrived := s.arrived + [t], threads := s.threads[t := Parked(seen)]))
  {
    LastUpdate(s.threads, t);
    var s1 := At(s, t, Recheck(seen)).(taken := true, owner := Some(t), was := true);
    var s2 := At(s1, t, Queued(seen)).(queue := s.queue + [t], arrived := s.arrived + [t]);
    var s3 := At(s2, t, Parked(seen)).(taken := false, owner := None);
    StepComes(s2, t, s3, s3);
    StepComes(s1, t, s2, s3);
    StepComes(s, t, s1, s3);
  }

  /** The callback of block, when a signal has come in between: the thread does not sleep. */
  lemma MissedReturns(s: State, t: nat, seen: nat)
    requires t < |s.threads| && s.threads[t] == Away(seen) && !s.taken && s.owner == None && s.epoch > seen
    ensures Comes(s, t, s.(was := true, threads := s.threads[t := Ready]))
  {
    LastUpdate(s.threads, t);
    var s1 := At(s, t, Recheck(seen)).(taken := true, owner := Some(t), was := true);
    var s2 := At(s1, t, Missed(seen));
    var s3 := At(s2, t, Scheduling).(taken := false, owner := None);
    var s4 := At(s3, t, Ready);
    StepComes(s3, t, s4, s4);
    StepComes(s2, t, s3, s4);
    StepComes(s1, t, s2, s4);
    StepComes(s, t, s1, s4);
  }

  /** A thread that was woken gets the lock back, as soon as it is free. */
  lemma WokenRelocks(s: State, base: seq<bool>, t: nat)
    requires Inv(s) && FlagsOk(s, base) && t < |s.threads| && s.threads[t] == Ready && !s.taken
    ensures base[t] && Step(s, t, Go)
         == Went(s.(taken := true, owner := Some(t), was := false, on := s.on[t := false], threads := s.threads[t := Locked]))
  {
    assert FlagOk(s, base, t);
  }

  // ----- notify -----

  /** The threads in `q` are ready. */
  function Woken(threads: seq<Pc>, q: seq<nat>): seq<Pc>
  {
    seq(|threads|, u requires 0 <= u < |threads| => if u in q then Ready else threads[u])
  }

  function Least(a: nat, b: nat): nat { if a <= b then a else b }

  /** What the rest of notify's loop leaves: the first `k` of the queue are ready. */
  function Drained(s: State, t: nat, limit: nat, woken: nat, k: nat): State
    requires t < |s.threads| && k <= |s.queue| && s.notices != []
  {
    s.(threads := Woken(s.threads, s.queue[..k])[t := Locked], queue := s.queue[k..], popped := s.popped + s.queue[..k],
       notices := s.notices[|s.notices| - 1 := Notice(limit, woken + k)])
  }

  ghost predicate CanDrain(s: State, t: nat, limit: nat, woken: nat)
  {
    && t < |s.threads| && s.threads[t] == Drain(limit, woken) && s.taken && woken <= limit && t !in s.queue
    && s.notices != [] && s.notices[|s.notices| - 1] == Notice(limit, woken)
    && (forall i | 0 <= i < |s.queue| :: s.queue[i] < |s.threads|)
    && (forall i, j | 0 <= i < j < |s.queue| :: s.queue[i] != s.queue[j])
  }

  /** The state after one turn of the loop: the first of the queue is ready. */
  function OneWoken(s: State, t: nat, limit: nat, woken: nat): State
    requires t < |s.threads| && s.queue != [] && s.queue[0] < |s.threads| && s.notices != []
  {
    s.(threads := s.threads[t := Drain(limit, woken + 1)][s.queue[0] := Ready], queue := s.queue[1..],
       popped := s.popped + [s.queue[0]], notices := s.notices[|s.notices| - 1 := Notice(limit, woken + 1)])
  }

  /** The state in the middle of a turn: the first of the queue is popped. */
  function OnePopped(s: State, t: nat, limit: nat, woken: nat): State
    requires t < |s.threads| && s.queue != [] && s.queue[0] < |s.threads| && s.notices != []
  {
    s.(threads := s.threads[t := Wake(limit, woken + 1, s.queue[0])][s.queue[0] := Handed(t)], queue := s.queue[1..],
       popped := s.popped + [s.queue[0]], notices := s.notices[|s.notices| - 1 := Notice(limit, woken + 1)])
  }

  lemma Pops(s: State, t: nat, limit: nat, woken: nat)
    requires CanDrain(s, t, limit, woken) && woken < limit && s.queue != []
    ensures Step(s, t, Go) == Went(OnePopped(s, t, limit, woken))
  {
  }

  lemma Wakes(s: State, t: nat, limit: nat, woken: nat)
    requires CanDrain(s, t, limit, woken) && woken < limit && s.queue != []
    ensures Step(OnePopped(s, t, limit, woken), t, Go) == Went(OneWoken(s, t, limit, woken))
  {
    var next := s.queue[0];
    assert next in s.queue;
    TwoUpdates(s.threads, t, Wake(limit, woken + 1, next), next, Handed(t), Drain(limit, woken + 1));
  }

  lemma OneTurn(s: State, t: nat, limit: nat, woken: nat, s': State)
    requires CanDrain(s, t, limit, woken) && woken < limit && s.queue != []
    requires Comes(OneWoken(s, t, limit, woken), t, s')
    ensures Comes(s, t, s')
  {
    Wakes(s, t, limit, woken);
    StepComes(OnePopped(s, t, limit, woken), t, OneWoken(s, t, limit, woken), s');
    Pops(s, t, limit, woken);
    StepComes(s, t, OnePopped(s, t, limit, woken), s');
  }

  lemma TwoUpdates(threads: seq<Pc>, t: nat, a: Pc, w: nat, b: Pc, c: Pc)
    requires t < |threads| && w < |threads| && t != w
    ensures threads[t := a][w := b][t := c][w := Ready] == threads[t := c][w := Ready]
  {
  }

  lemma OneTurnKeeps(s: State, t: nat, limit: nat, woken: nat)
    requires CanDrain(s, t, limit, woken) && woken < limit && s.queue != []
    ensures CanDrain(OneWoken(s, t, limit, woken), t, limit, woken + 1)
  {
    assert s.queue[0] in s.queue;
    var q := s.queue[1..];
    assert forall i | 0 <= i < |q| :: q[i] == s.queue[i + 1];
  }

  lemma DrainedMore(s: State, t: nat, limit: nat, woken: nat, k: nat)
    requires CanDrain(s, t, limit, woken) && woken < limit && k < |s.queue|
    ensures Drained(OneWoken(s, t, limit, woken), t, limit, woken + 1, k) == Drained(s, t, limit, woken, k + 1)
  {
    assert s.queue[0] in s.queue;
    assert s.queue[..k + 1] == [s.queue[0]] + s.queue[1..][..k];
    assert s.queue[1..][k..] == s.queue[k + 1..];
    var a := Woken(OneWoken(s, t, limit, woken).threads, s.queue[1..][..k])[t := Locked];
    var b := Woken(s.threads, s.queue[..k + 1])[t := Locked];
    assert |a| == |b| && forall u | 0 <= u < |a| :: a[u] == b[u];
  }

  lemma LoopEnds(s: State, t: nat, limit: nat, woken: nat)
    requires CanDrain(s, t, limit, woken) && (woken == limit || s.queue == [])
    ensures Comes(s, t, Drained(s, t, limit, woken, 0))
  {
    assert s.queue[..0] == [] && s.queue[0..] == s.queue && s.popped + [] == s.popped;
    assert Woken(s.threads, []) == s.threads;
    StepComes(s, t, At(s, t, Locked), Drained(s, t, limit, woken, 0));
  }

  lemma LoopStep(s: State, t: nat, limit: nat, woken: nat, k: nat)
    requires CanDrain(s, t, limit, woken) && woken < limit && k < |s.queue|
    requires Comes(OneWoken(s, t, limit, woken), t, Drained(OneWoken(s, t, limit, woken), t, limit, woken + 1, k))
    ensures Comes(s, t, Drained(s, t, limit, woken, k + 1))
  {
    DrainedMore(s, t, limit, woken, k);
    OneTurn(s, t, limit, woken, Drained(s, t, limit, woken, k + 1));
  }

  lemma {:induction false} LoopWakes(s: State, t: nat, limit: nat, woken: nat, k: nat)
    requires CanDrain(s, t, limit, woken) && k == Least(limit - woken, |s.queue|)
    ensures Comes(s, t, Drained(s, t, limit, woken, k))
    decreases k
  {
    if k == 0 {
      LoopEnds(s, t, limit, woken);
    } else {
      OneTurnKeeps(s, t, limit, woken);
      LoopWakes(OneWoken(s, t, limit, woken), t, limit, woken + 1, k - 1);
      LoopStep(s, t, limit, woken, k - 1);
    }
  }

  lemma SameWoken(threads: seq<Pc>, t: nat, a: Pc, q: seq<nat>)
    requires t < |threads| && t !in q
    ensures Woken(threads[t := a], q)[t := threads[t]] == Woken(threads, q)
  {
  }

  /** notify wakes exactly the first `limit` threads of the queue, or all if there are fewer, and
      keeps the lock; the epoch moves on by one. */
  lemma NotifyWakes(s: State, t: nat, limit: nat)
    requires Inv(s) && t < |s.threads| && s.threads[t] == Locked
    ensures Step(s, t, Notify(limit)).Went?
    ensures var k := Least(limit, |s.queue|);
      Comes(Step(s, t, Notify(limit)).s, t,
            s.(threads := Woken(s.threads, s.queue[..k]), queue := s.queue[k..], popped := s.popped + s.queue[..k],
               epoch := s.epoch + 1, notices := s.notices + [Notice(limit, k)]))
  {
    assert ThreadOk(s, t);
    var s0 := Step(s, t, Notify(limit)).s;
    var k := Least(limit, |s.queue|);
    LoopWakes(s0, t, limit, 0, k);
    assert t !in s.queue[..k];
    SameWoken(s.threads, t, Drain(limit, 0), s.queue[..k]);
    assert (s.notices + [Notice(limit, 0)])[|s.notices| := Notice(limit, k)] == s.notices + [Notice(limit, k)];
  }
}
