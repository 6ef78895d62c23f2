/** The reusable barrier over the Mesa condition variable, for any number of threads and rounds,
    one memory access or lock operation at a time. */
module Barriers {
  import opened Common

  /** Where a thread is inside sync.  `round` is the local `t` of sync, `seen` the local
      old_epoch of Condition::wait.  From Switching to Scheduling the thread's context is saved
      and the callback of block runs on its behalf. */
  datatype Pc =
    | Outside | Enter | Arrive
    | Test(round: nat) | Open(round: nat) | Notify(round: nat) | Drain(round: nat) | Wake(round: nat, next: nat)
    | Loop(round: nat) | Wait(round: nat) | Release(round: nat, seen: nat) | Switching(round: nat, seen: nat)
    | Recheck(round: nat, seen: nat) | Queued(round: nat) | Parked(round: nat) | Handed(round: nat, giver: nat)
    | Missed(round: nat) | Scheduling(round: nat)
    | Ready(round: nat) | Relock(round: nat) | Leave(round: nat)

  /** `on`: the interrupt flag of the thread. */
  datatype Thread = Thread(pc: Pc, on: bool)

  /** The lock (`taken`, `was`), the condition (`signals` is its epoch) and the barrier; the
      threads; and the history: who holds the lock, and the threads that arrived in each round. */
  datatype State = State(
    taken: bool, was: bool, signals: nat, queue: seq<nat>,
    initial: nat, count: nat, epoch: nat,
    threads: seq<Thread>, owner: Option<nat>, arrived: seq<set<nat>>)

  /** Broken: an ASSERT of sync or wait fails. */
  datatype Outcome = Went(s: State) | Refused | Broken

  predicate Initial(s: State)
  {
    && !s.taken && s.owner == None && s.signals == 0 && s.queue == []
    && s.count == s.initial && s.epoch == 0 && s.arrived == [{}]
    && forall t: nat | t < |s.threads| :: s.threads[t] == Thread(Outside, true)
  }

  function At(s: State, t: nat, pc: Pc): (s': State)
    requires t < |s.threads|
    ensures |s'.threads| == |s.threads| && s'.threads[t] == Thread(pc, s.threads[t].on)
  {
    s.(threads := s.threads[t := s.threads[t].(pc := pc)])
  }

  /** The thread takes the lock for itself: interrupts go off and `was` remembers them. */
  function Lock(s: State, t: nat, pc: Pc): Outcome
    requires t < |s.threads|
  {
    if s.taken then Refused
    else Went(s.(taken := true, owner := Some(t), was := !s.threads[t].on, threads := s.threads[t := Thread(pc, false)]))
  }

  function Unlock(s: State, t: nat, pc: Pc): State
    requires t < |s.threads|
  {
    s.(taken := false, owner := None, threads := s.threads[t := Thread(pc, !s.was || s.threads[t].on)])
  }

  /** The callback takes the lock with interrupts already off, on the target's stack. */
  function CallbackLock(s: State, t: nat, pc: Pc): Outcome
    requires t < |s.threads|
  {
    if s.taken then Refused else Went(At(s, t, pc).(taken := true, owner := Some(t), was := true))
  }

  /** Its unlock must not turn interrupts on: broken if it would. */
  function CallbackUnlock(s: State, t: nat, pc: Pc): Outcome
    requires t < |s.threads|
  {
    if s.was then Went(At(s, t, pc).(taken := false, owner := None)) else Broken
  }

  function Step(s: State, t: nat): Outcome
    requires t < |s.threads|
  {
    match s.threads[t].pc
    case Outside => Went(At(s, t, Enter))
    case Enter => Lock(s, t, Arrive)
    case Arrive => OnArrive(s, t)
    case Test(r) => Went(At(s, t, if s.count == 0 then Open(r) else Loop(r)))
    case Open(r) => Went(At(s, t, Notify(r)).(epoch := s.epoch + 1, count := s.initial, arrived := s.arrived + [{}]))
    case Notify(r) => if s.taken then Went(At(s, t, Drain(r)).(signals := s.signals + 1)) else Broken
    case Drain(r) => OnDrain(s, t, r)
    case Wake(r, next) => OnWake(s, t, r, next)
    case Loop(r) => Went(At(s, t, if s.epoch <= r then Wait(r) else Leave(r)))
    case Wait(r) => if s.taken && !s.threads[t].on then Went(At(s, t, Release(r, s.signals))) else Broken
    case Release(r, seen) => Went(Unlock(s, t, Switching(r, seen)))
    case Switching(r, seen) => CallbackLock(s, t, Recheck(r, seen))
    case Recheck(r, seen) => OnRecheck(s, t, r, seen)
    case Queued(r) => CallbackUnlock(s, t, Parked(r))
    case Missed(r) => CallbackUnlock(s, t, Scheduling(r))
    case Scheduling(r) => Went(At(s, t, Ready(r)))
    case Parked(_) => Refused
    case Handed(_, _) => Refused
    case Ready(r) => if s.threads[t].on then Went(At(s, t, Relock(r))) else Broken
    case Relock(r) => Lock(s, t, Loop(r))
    case Leave(_) => Went(Unlock(s, t, Outside))
  }

  function OnArrive(s: State, t: nat): Outcome
    requires t < |s.threads|
  {
    if s.count == 0 || s.epoch >= |s.arrived| then Broken
    else Went(At(s, t, Test(s.epoch)).(count := s.count - 1, arrived := s.arrived[s.epoch := s.arrived[s.epoch] + {t}]))
  }

  /** One turn of the loop of notifyAll. */
  function OnDrain(s: State, t: nat, r: nat): Outcome
    requires t < |s.threads|
  {
    if s.queue == [] then (if s.taken then Went(At(s, t, Leave(r))) else Broken)
    else
      var next := s.queue[0];
      if next >= |s.threads| || !s.threads[next].pc.Parked? then Broken
      else Went(At(At(s, t, Wake(r, next)), next, Handed(s.threads[next].pc.round, t)).(queue := s.queue[1..]))
  }

  function OnWake(s: State, t: nat, r: nat, next: nat): Outcome
    requires t < |s.threads|
  {
    if next >= |s.threads| || !s.threads[next].pc.Handed? then Broken
    else Went(At(At(s, t, Drain(r)), next, Ready(s.threads[next].pc.round)))
  }

  function OnRecheck(s: State, t: nat, r: nat, seen: nat): Outcome
    requires t < |s.threads|
  {
    if s.signals == seen then Went(At(s, t, Queued(r)).(queue := s.queue + [t]))
    else if s.signals > seen then Went(At(s, t, Missed(r)))
    else Broken
  }

  // ----- the invariant -----

  function RoundOf(pc: Pc): Option<nat>
  {
    if pc.Outside? || pc.Enter? || pc.Arrive? then None else Some(pc.round)
  }

  /** The thread's own code holds the lock. */
  predicate HoldsOwn(pc: Pc)
  {
    || pc.Arrive? || pc.Test? || pc.Open? || pc.Notify? || pc.Drain? || pc.Wake?
    || pc.Loop? || pc.Wait? || pc.Release? || pc.Leave?
  }

  /** The callback run for the thread holds it. */
  predicate HoldsCallback(pc: Pc)
  {
    pc.Recheck? || pc.Queued? || pc.Missed?
  }

  /** The owner has opened a new round and may not have woken everyone of the last. */
  predicate Notifies(pc: Pc)
  {
    pc.Notify? || pc.Drain? || pc.Wake?
  }

  function OwnerPc(s: State): Pc
  {
    if s.owner.Some? && s.owner.value < |s.threads| then s.threads[s.owner.value].pc else Outside
  }

  /** A thread past its wait, or never to wait: its round is over. */
  predicate Released(pc: Pc)
  {
    pc.Handed? || pc.Missed? || pc.Scheduling? || pc.Ready? || pc.Relock? || pc.Leave? || Notifies(pc)
  }

  ghost predicate LockOk(s: State, t: nat)
    requires t < |s.threads|
  {
    var pc, on := s.threads[t].pc, s.threads[t].on;
    && (HoldsOwn(pc) || HoldsCallback(pc) <==> s.owner == Some(t))
    && on == !HoldsOwn(pc)
    && (HoldsOwn(pc) ==> !s.was) && (HoldsCallback(pc) ==> s.was)
  }

  ghost predicate RoundOk(s: State, t: nat)
    requires t < |s.threads| && s.epoch < |s.arrived|
  {
    var pc := s.threads[t].pc;
    && (t in s.arrived[s.epoch] <==> RoundOf(pc) == Some(s.epoch))
    && (RoundOf(pc).Some? ==> pc.round <= s.epoch)
    && (Released(pc) ==> pc.round < s.epoch)
    && (Notifies(pc) ==> pc.round + 1 == s.epoch)
    && (pc.Test? || pc.Open? || pc.Wait? || pc.Queued? ==> pc.round == s.epoch)
    && (pc.Release? || pc.Switching? || pc.Recheck? ==> pc.seen == pc.round)
    && (pc.Release? ==> pc.round == s.epoch)
    && (pc.Parked? ==> pc.round == s.epoch || Notifies(OwnerPc(s)))
    && (pc.Open? ==> s.count == 0)
  }

  ghost predicate WakeOk(s: State, t: nat)
    requires t < |s.threads|
  {
    var pc := s.threads[t].pc;
    && (pc.Queued? || pc.Parked? <==> t in s.queue)
    && (pc.Queued? ==> s.owner == Some(t))
    && (pc.Handed? ==> pc.giver < |s.threads| && s.threads[pc.giver].pc.Wake? && s.threads[pc.giver].pc.next == t)
    && (pc.Wake? ==> pc.next < |s.threads| && s.threads[pc.next].pc.Handed? && s.threads[pc.next].pc.giver == t)
  }

  ghost predicate ThreadOk(s: State, t: nat)
    requires t < |s.threads| && s.epoch < |s.arrived|
  {
    LockOk(s, t) && RoundOk(s, t) && WakeOk(s, t)
  }

  ghost predicate CountsOk(s: State)
  {
    && |s.arrived| == s.epoch + 1 && |s.arrived[s.epoch]| + s.count == s.initial
    && (forall r: nat | r < s.epoch :: |s.arrived[r]| == s.initial)
    && (s.count == 0 ==> OwnerPc(s).Test? || OwnerPc(s).Open?)
    && (Notifies(OwnerPc(s)) ==> s.arrived[s.epoch] == {})
    && s.signals + (if OwnerPc(s).Notify? then 1 else 0) == s.epoch
  }

  ghost predicate QueueOk(s: State)
  {
    && (forall i | 0 <= i < |s.queue| :: s.queue[i] < |s.threads|)
    && (forall i, j | 0 <= i < j < |s.queue| :: s.queue[i] != s.queue[j])
  }

  ghost predicate Inv(s: State)
  {
    && (s.taken <==> s.owner.Some?) && (s.owner.Some? ==> s.owner.value < |s.threads|)
    && s.initial > 0 && CountsOk(s) && QueueOk(s)
    && forall t: nat {:trigger ThreadOk(s, t)} | t < |s.threads| :: ThreadOk(s, t)
  }

  lemma InitialInv(s: State)
    requires Initial(s) && s.initial > 0
    ensures Inv(s)
  {
    forall t: nat | t < |s.threads| ensures ThreadOk(s, t) { }
  }
}
