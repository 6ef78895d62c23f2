/** The Mesa condition variable by itself: any threads waiting and notifying, with any limits,
    one memory access or lock operation at a time. */
module Conditions {
  import opened Common

  /** Where a thread is.  `seen` is the local old_epoch of wait; `woken` counts the turns of
      notify's loop.  From Away to Scheduling the thread's context is saved and the callback of
      block runs on its behalf. */
  datatype Pc =
    | Outside | Enter | Locked
    | Release(seen: nat) | Away(seen: nat)
    | Recheck(seen: nat) | Queued(seen: nat) | Parked(seen: nat) | Handed(giver: nat)
    | Missed(seen: nat) | Scheduling | Ready
    | Drain(limit: nat, woken: nat) | Wake(limit: nat, woken: nat, next: nat)

  /** One call of notify: its limit and how many threads it has taken from the queue. */
  datatype Notice = Notice(limit: nat, woken: nat)

  /** The lock (`taken`, `was`), the epoch and the queue; the threads and their interrupt flags;
      and the history: who holds the lock, the threads that queued and those popped, in order,
      and every call of notify. */
  datatype State = State(
    taken: bool, was: bool, on: seq<bool>, epoch: nat, queue: seq<nat>, threads: seq<Pc>,
    owner: Option<nat>, arrived: seq<nat>, popped: seq<nat>, notices: seq<Notice>)

  /** What a thread holding the lock does next. */
  datatype Event = Wait | Notify(limit: nat) | Go

  /** Broken: an ASSERT of wait or notify fails, on the lock, the epochs or the interrupt flag,
      or the callback of block turns interrupts on. */
  datatype Outcome = Went(s: State) | Refused | Broken

  predicate Initial(s: State)
  {
    && !s.taken && s.owner == None && s.epoch == 0 && s.queue == [] && s.arrived == s.popped == [] && s.notices == []
    && |s.on| == |s.threads| && forall t: nat | t < |s.threads| :: s.threads[t] == Outside
  }

  /** The interrupt flag of a thread. */
  predicate Flag(s: State, t: nat)
  {
    t < |s.on| && s.on[t]
  }

  function SetFlag(s: State, t: nat, on: bool): State
  {
    if t < |s.on| then s.(on := s.on[t := on]) else s
  }

  function At(s: State, t: nat, pc: Pc): (s': State)
    requires t < |s.threads|
    ensures |s'.threads| == |s.threads| && s'.threads[t] == pc
  {
    s.(threads := s.threads[t := pc])
  }

  /** The thread takes the lock for itself: interrupts go off and `was` remembers them. */
  function Lock(s: State, t: nat, pc: Pc): Outcome
    requires t < |s.threads|
  {
    if s.taken then Refused
    else Went(SetFlag(At(s, t, pc).(taken := true, owner := Some(t), was := !Flag(s, t)), t, false))
  }

  function Unlock(s: State, t: nat, pc: Pc): State
    requires t < |s.threads|
  {
    SetFlag(At(s, t, pc).(taken := false, owner := None), t, !s.was || Flag(s, t))
  }

  /** The callback takes the lock with interrupts already off, on the target's stack. */
  function CallbackLock(s: State, t: nat, pc: Pc): Outcome
    requires t < |s.threads|
  {
    if s.taken then Refused else Went(At(s, t, pc).(taken := true, owner := Some(t), was := true))
  }

  /** Its unlock must not turn interrupts on: broken if it would. */
  function CallbackUnlock(s: State, t: nat, pc: Pc): Outcome
    requires t < |s.threads|
  {
    if s.was then Went(At(s, t, pc).(taken := false, owner := None)) else Broken
  }

  function Step(s: State, t: nat, e: Event): Outcome
    requires t < |s.threads|
  {
    match s.threads[t]
    case Outside => Went(At(s, t, Enter))
    case Enter => Lock(s, t, Locked)
    case Locked =>
      (match e
       case Wait => if s.taken && !Flag(s, t) then Went(At(s, t, Release(s.epoch))) else Broken
       case Notify(limit) =>
         if s.taken
         then Went(At(s, t, Drain(limit, 0)).(epoch := s.epoch + 1, notices := s.notices + [Notice(limit, 0)]))
         else Broken
       case Go => Went(Unlock(s, t, Outside)))
    case Release(seen) => Went(Unlock(s, t, Away(seen)))
    case Away(seen) => CallbackLock(s, t, Recheck(seen))
    case Recheck(seen) =>
      if s.epoch == seen then Went(At(s, t, Queued(seen)).(queue := s.queue + [t], arrived := s.arrived + [t]))
      else if s.epoch > seen then Went(At(s, t, Missed(seen)))
      else Broken
    case Queued(seen) => CallbackUnlock(s, t, Parked(seen))
    case Missed(_) => CallbackUnlock(s, t, Scheduling)
    case Scheduling => Went(At(s, t, Ready))
    case Parked(_) => Refused
    case Handed(_) => Refused
    case Ready => if Flag(s, t) then Lock(s, t, Locked) else Broken
    case Drain(limit, woken) => OnDrain(s, t, limit, woken)
    case Wake(limit, woken, next) =>
      if next < |s.threads| then Went(At(At(s, t, Drain(limit, woken)), next, Ready)) else Broken
  }

  /** One turn of notify's loop. */
  function OnDrain(s: State, t: nat, limit: nat, woken: nat): Outcome
    requires t < |s.threads|
  {
    if woken >= limit || s.queue == [] then (if s.taken then Went(At(s, t, Locked)) else Broken)
    else
      var next := s.queue[0];
      if next >= |s.threads| || s.notices == [] then Broken
      else Went(At(At(s, t, Wake(limit, woken + 1, next)), next, Handed(t)).(
          queue := s.queue[1..], popped := s.popped + [next],
          notices := s.notices[|s.notices| - 1 := Notice(limit, woken + 1)]))
  }

  // ----- the invariant -----

  predicate Holds(pc: Pc)
  {
    pc.Locked? || pc.Release? || pc.Recheck? || pc.Queued? || pc.Missed? || pc.Drain? || pc.Wake?
  }

  predicate Notifies(pc: Pc)
  {
    pc.Drain? || pc.Wake?
  }

  function OwnerPc(s: State): Pc
  {
    if s.owner.Some? && s.owner.value < |s.threads| then s.threads[s.owner.value] else Outside
  }

  /** The j-th notify took as many threads as it was allowed to, or is still at it. */
  predicate Used(s: State, j: nat)
  {
    j < |s.notices| && (s.notices[j].woken == s.notices[j].limit || (j == |s.notices| - 1 && Notifies(OwnerPc(s))))
  }

  ghost predicate UsedSince(s: State, seen: nat)
  {
    forall j: nat {:trigger Used(s, j)} | seen <= j < s.epoch :: Used(s, j)
  }

  ghost predicate ThreadOk(s: State, t: nat)
    requires t < |s.threads|
  {
    var pc := s.threads[t];
    && (Holds(pc) <==> s.owner == Some(t))
    && (pc.Release? || pc.Queued? ==> pc.seen == s.epoch)
    && (pc.Away? || pc.Recheck? ==> pc.seen <= s.epoch)
    && (pc.Missed? ==> pc.seen < s.epoch)
    && (pc.Parked? ==> pc.seen <= s.epoch && UsedSince(s, pc.seen))
    && (pc.Queued? || pc.Parked? <==> t in s.queue)
    && (pc.Handed? ==> pc.giver < |s.threads| && s.threads[pc.giver].Wake? && s.threads[pc.giver].next == t)
    && (pc.Wake? ==> pc.next < |s.threads| && s.threads[pc.next] == Handed(t))
    && (Notifies(pc) ==> s.notices != [] && s.notices[|s.notices| - 1] == Notice(pc.limit, pc.woken) && pc.woken <= pc.limit)
  }

  ghost predicate QueueOk(s: State)
  {
    && (forall i | 0 <= i < |s.queue| :: s.queue[i] < |s.threads|)
    && (forall i, j | 0 <= i < j < |s.queue| :: s.queue[i] != s.queue[j])
    && s.arrived == s.popped + s.queue && |s.notices| == s.epoch
  }

  ghost predicate Inv(s: State)
  {
    && (s.taken <==> s.owner.Some?) && (s.owner.Some? ==> s.owner.value < |s.threads|) && QueueOk(s)
    && forall t: nat {:trigger ThreadOk(s, t)} | t < |s.threads| :: ThreadOk(s, t)
  }

  // ----- frames -----

  ghost predicate OnlyThread(s: State, s': State, t: nat)
  {
    && |s'.threads| == |s.threads|
    && forall u: nat {:trigger s'.threads[u]} | u < |s.threads| && u != t :: s'.threads[u] == s.threads[u]
  }

  /** A step of `t` that pops and notifies nobody. */
  ghost predicate Quietly(s: State, s': State, t: nat)
    requires t < |s.threads|
  {
    && OnlyThread(s, s', t) && s'.epoch == s.epoch && s'.notices == s.notices && s'.popped == s.popped
    && (s'.owner == s.owner || (s.owner in {None, Some(t)} && s'.owner in {None, Some(t)}))
    && !s.threads[t].Wake? && !s.threads[t].Handed? && !s'.threads[t].Wake? && !s'.threads[t].Handed?
    && (Notifies(OwnerPc(s)) ==> Notifies(OwnerPc(s')))
  }

  lemma OtherThread(s: State, s': State, t: nat, u: nat)
    requires Inv(s) && t < |s.threads| && u < |s.threads| && u != t
    requires Quietly(s, s', t) && (u in s'.queue <==> u in s.queue)
    ensures ThreadOk(s', u)
  {
    assert ThreadOk(s, u) && ThreadOk(s, t);
    var pc := s.threads[u];
    assert s'.threads[u] == pc;
    if pc.Parked? { StillUsed(s, s', pc.seen); }
    assert pc.Handed? ==> pc.giver != t && s'.threads[pc.giver] == s.threads[pc.giver];
    assert pc.Wake? ==> pc.next != t && s'.threads[pc.next] == s.threads[pc.next];
  }

  lemma StillUsed(s: State, s': State, seen: nat)
    requires UsedSince(s, seen) && s'.epoch == s.epoch && s'.notices == s.notices
    requires Notifies(OwnerPc(s)) ==> Notifies(OwnerPc(s'))
    ensures UsedSince(s', seen)
  {
    forall j: nat | seen <= j < s'.epoch ensures Used(s', j) { assert Used(s, j); }
  }

  predicate Plain(pc: Pc)
  {
    !pc.Locked? && !pc.Recheck? && !pc.Drain? && !pc.Wake?
  }

  lemma PlainFacts(s: State, t: nat, e: Event, s': State)
    requires Inv(s) && t < |s.threads| && Step(s, t, e) == Went(s')
    requires Plain(s.threads[t]) || (s.threads[t].Locked? && !e.Notify?)
    ensures Quietly(s, s', t) && s'.queue == s.queue && s'.arrived == s.arrived
    ensures (s'.taken <==> s'.owner.Some?) && (s'.owner.Some? ==> s'.owner.value < |s'.threads|)
  {
    assert ThreadOk(s, t);
  }

  lemma PlainSelf(s: State, t: nat, e: Event, s': State)
    requires Inv(s) && t < |s.threads| && Step(s, t, e) == Went(s')
    requires Plain(s.threads[t]) || (s.threads[t].Locked? && !e.Notify?)
    ensures t < |s'.threads| && ThreadOk(s', t)
  {
    assert ThreadOk(s, t);
    match s.threads[t]
    case Queued(seen) => assert UsedSince(s', seen);
    case Enter =>
    case Release(_) =>
    case Away(_) =>
    case Missed(_) =>
    case Ready =>
    case _ =>
  }

  lemma PlainStep(s: State, t: nat, e: Event, s': State)
    requires Inv(s) && t < |s.threads| && Step(s, t, e) == Went(s')
    requires Plain(s.threads[t]) || (s.threads[t].Locked? && !e.Notify?)
    ensures Inv(s')
  {
    PlainFacts(s, t, e, s');
    PlainSelf(s, t, e, s');
    forall u: nat | u < |s'.threads| ensures ThreadOk(s', u) {
      if u != t { OtherThread(s, s', t, u); }
    }
  }

  lemma QueueStep(s: State, t: nat, e: Event, s': State)
    requires Inv(s) && t < |s.threads| && s.threads[t].Recheck? && Step(s, t, e) == Went(s')
    ensures Inv(s')
  {
    assert ThreadOk(s, t);
    if s'.queue != s.queue { assert s'.queue[|s.queue|] == t; }
    forall u: nat | u < |s'.threads| ensures ThreadOk(s', u) {
      if u != t { OtherThread(s, s', t, u); }
    }
  }

  /** A new notify: the threads in the queue are about to use it. */
  lemma NotifyStep(s: State, t: nat, limit: nat, s': State)
    requires Inv(s) && t < |s.threads| && s.threads[t].Locked? && Step(s, t, Notify(limit)) == Went(s')
    ensures Inv(s')
  {
    assert ThreadOk(s, t);
    forall u: nat | u < |s'.threads| ensures ThreadOk(s', u) {
      assert ThreadOk(s, u);
      if u != t {
        assert s'.threads[u] == s.threads[u];
        if s.threads[u].Parked? { NewNotice(s, s', s.threads[u].seen); }
      }
    }
  }

  lemma NewNotice(s: State, s': State, seen: nat)
    requires UsedSince(s, seen) && |s.notices| == s.epoch && s'.epoch == s.epoch + 1
    requires |s'.notices| == s'.epoch && s'.notices[..s.epoch] == s.notices && Notifies(OwnerPc(s')) && !Notifies(OwnerPc(s))
    ensures UsedSince(s', seen)
  {
    forall j: nat | seen <= j < s'.epoch ensures Used(s', j) {
      if j < s.epoch {
        assert Used(s, j);
        assert s'.notices[..s.epoch][j] == s.notices[j];
      }
    }
  }

  /** A turn of the loop, or its end: it ends early only if the queue is empty. */
  lemma DrainStep(s: State, t: nat, e: Event, s': State)
    requires Inv(s) && t < |s.threads| && s.threads[t].Drain? && Step(s, t, e) == Went(s')
    ensures Inv(s')
  {
    if s.threads[t].woken >= s.threads[t].limit || s.queue == [] { EndStep(s, t, e, s'); } else { PopStep(s, t, e, s'); }
  }

  lemma EndStep(s: State, t: nat, e: Event, s': State)
    requires Inv(s) && t < |s.threads| && s.threads[t].Drain? && Step(s, t, e) == Went(s')
    requires s.threads[t].woken >= s.threads[t].limit || s.queue == []
    ensures Inv(s')
  {
    assert ThreadOk(s, t);
    forall u: nat | u < |s'.threads| ensures ThreadOk(s', u) {
      assert ThreadOk(s, u);
      if u != t {
        assert s'.threads[u] == s.threads[u];
        if s.threads[u].Parked? { EndNotice(s, s', t, s.threads[u].seen); }
      }
    }
  }

  lemma PopStep(s: State, t: nat, e: Event, s': State)
    requires Inv(s) && t < |s.threads| && s.threads[t].Drain? && Step(s, t, e) == Went(s')
    requires s.threads[t].woken < s.threads[t].limit && s.queue != []
    ensures Inv(s')
  {
    assert ThreadOk(s, t);
    var next := s.queue[0];
    assert next in s.queue && s.queue == [next] + s'.queue;
    assert ThreadOk(s, next);
    assert next !in s'.queue;
    forall u: nat | u < |s'.threads| ensures ThreadOk(s', u) {
      PopThread(s, t, e, s', u);
    }
  }

  lemma EndNotice(s: State, s': State, t: nat, seen: nat)
    requires t < |s.threads| && s.threads[t].Drain? && ThreadOk(s, t) && s.threads[t].woken >= s.threads[t].limit
    requires UsedSince(s, seen) && s'.notices == s.notices && s'.epoch == s.epoch
    ensures UsedSince(s', seen)
  {
    forall j: nat | seen <= j < s'.epoch ensures Used(s', j) { assert Used(s, j); }
  }

  lemma PopThread(s: State, t: nat, e: Event, s': State, u: nat)
    requires Inv(s) && t < |s.threads| && s.threads[t].Drain? && Step(s, t, e) == Went(s') && u < |s.threads|
    requires s.queue != [] && s.queue[0] < |s.threads| && s.queue == [s.queue[0]] + s'.queue && s.queue[0] !in s'.queue
    ensures |s'.threads| == |s.threads| && ThreadOk(s', u)
  {
    var next := s.queue[0];
    assert ThreadOk(s, t) && ThreadOk(s, u) && ThreadOk(s, next) && next in s.queue;
    assert u != next ==> (u in s.queue <==> u in s'.queue);
    if u != t && u != next {
      assert s'.threads[u] == s.threads[u];
      if s.threads[u].Parked? {
        forall j: nat | s.threads[u].seen <= j < s'.epoch ensures Used(s', j) { assert Used(s, j); }
      }
    }
  }

  lemma WakeStep(s: State, t: nat, e: Event, s': State)
    requires Inv(s) && t < |s.threads| && s.threads[t].Wake? && Step(s, t, e) == Went(s')
    ensures Inv(s')
  {
    assert ThreadOk(s, t);
    var next := s.threads[t].next;
    assert ThreadOk(s, next);
    forall u: nat | u < |s'.threads| ensures ThreadOk(s', u) {
      assert ThreadOk(s, u);
      if u != t && u != next {
        assert s'.threads[u] == s.threads[u];
        if s.threads[u].Parked? { StillUsed(s, s', s.threads[u].seen); }
      }
    }
  }

  lemma StepKeeps(s: State, t: nat, e: Event, s': State)
    requires Inv(s) && t < |s.threads| && Step(s, t, e) == Went(s')
    ensures Inv(s')
  {
    var pc := s.threads[t];
    if pc.Locked? && e.Notify? { NotifyStep(s, t, e.limit, s'); }
    else if pc.Recheck? { QueueStep(s, t, e, s'); }
    else if pc.Drain? { DrainStep(s, t, e, s'); }
    else if pc.Wake? { WakeStep(s, t, e, s'); }
    else { PlainStep(s, t, e, s'); }
  }

  // ----- the interrupt flags -----

  /** The callback of block holds the lock for the thread. */
  predicate HoldsCallback(pc: Pc)
  {
    pc.Recheck? || pc.Queued? || pc.Missed?
  }

  /** The thread is inside wait. */
  predicate InWait(pc: Pc)
  {
    || pc.Release? || pc.Away? || pc.Recheck? || pc.Queued? || pc.Parked? || pc.Handed?
    || pc.Missed? || pc.Scheduling? || pc.Ready?
  }

  /** `base` has the flags with which the threads came. */
  ghost predicate FlagOk(s: State, base: seq<bool>, t: nat)
    requires t < |s.threads| && t < |base|
  {
    var pc := s.threads[t];
    && Flag(s, t) == (base[t] && !(Holds(pc) && !HoldsCallback(pc)))
    && (Holds(pc) ==> s.was == (HoldsCallback(pc) || !base[t]))
    && (InWait(pc) ==> base[t])
  }

  ghost predicate FlagsOk(s: State, base: seq<bool>)
  {
    |s.on| == |s.threads| == |base| && forall t: nat {:trigger FlagOk(s, base, t)} | t < |s.threads| :: FlagOk(s, base, t)
  }

  /** The step calls wait with interrupts off. */
  predicate BadWait(s: State, base: seq<bool>, t: nat, e: Event)
    requires t < |s.threads| && t < |base|
  {
    s.threads[t].Locked? && e.Wait? && !base[t]
  }

  lemma FlagsKept(s: State, base: seq<bool>, t: nat, e: Event, s': State)
    requires Inv(s) && FlagsOk(s, base) && t < |s.threads| && Step(s, t, e) == Went(s') && !BadWait(s, base, t, e)
    ensures FlagsOk(s', base)
  {
    OwnFlag(s, base, t, e, s');
    forall u: nat | u < |s'.threads| ensures FlagOk(s', base, u) {
      if u != t { OtherFlag(s, base, t, e, s', u); }
    }
  }

  /** The thread's own flag follows its hold on the lock. */
  lemma OwnFlag(s: State, base: seq<bool>, t: nat, e: Event, s': State)
    requires Inv(s) && FlagsOk(s, base) && t < |s.threads| && Step(s, t, e) == Went(s') && !BadWait(s, base, t, e)
    ensures |s'.threads| == |s.threads| && |s'.on| == |s.on| && FlagOk(s', base, t)
    ensures s'.was == s.was || !s.taken
  {
    assert ThreadOk(s, t) && FlagOk(s, base, t);
    var pc := s.threads[t];
    if pc.Wake? {
      assert ThreadOk(s, pc.next);
    } else if pc.Drain? {
      if s.queue != [] { assert s.queue[0] in s.queue && ThreadOk(s, s.queue[0]); }
    } else {
      PlainFlag(s, base, t, e, s');
    }
  }

  lemma PlainFlag(s: State, base: seq<bool>, t: nat, e: Event, s': State)
    requires t < |s.threads| == |s.on| == |base| && FlagOk(s, base, t) && Step(s, t, e) == Went(s')
    requires (Holds(s.threads[t]) ==> s.taken) && !BadWait(s, base, t, e)
    requires !s.threads[t].Wake? && !s.threads[t].Drain?
    ensures |s'.threads| == |s.threads| && |s'.on| == |s.on| && FlagOk(s', base, t)
    ensures s'.was == s.was || !s.taken
  {
    match s.threads[t]
    case Outside =>
    case Enter =>
    case Locked =>
    case Release(_) =>
    case Away(_) =>
    case Recheck(_) =>
    case Queued(_) =>
    case Missed(_) =>
    case Scheduling =>
    case Ready =>
    case _ =>
  }

  /** No other thread starts or stops holding the lock. */
  lemma OtherFlag(s: State, base: seq<bool>, t: nat, e: Event, s': State, u: nat)
    requires Inv(s) && FlagsOk(s, base) && t < |s.threads| && Step(s, t, e) == Went(s') && u < |s.threads| && u != t
    requires |s'.threads| == |s.threads| && (s'.was == s.was || !s.taken)
    ensures FlagOk(s', base, u)
  {
    assert ThreadOk(s, t) && ThreadOk(s, u) && FlagOk(s, base, u);
    var pc := s.threads[t];
    if pc.Wake? {
      assert ThreadOk(s, pc.next);
    } else if pc.Drain? {
      if s.queue != [] { assert s.queue[0] in s.queue && ThreadOk(s, s.queue[0]); }
    } else {
      NotTouched(s, t, e, s', u);
    }
  }

  lemma LockTouches(s: State, t: nat, pc: Pc, u: nat)
    requires t < |s.threads| && u < |s.threads| && u != t
    ensures Lock(s, t, pc).Went? ==> Untouched(s, Lock(s, t, pc).s, u)
    ensures Untouched(s, Unlock(s, t, pc), u)
  {
  }

  lemma CallbackTouches(s: State, t: nat, pc: Pc, u: nat)
    requires t < |s.threads| && u < |s.threads| && u != t
    ensures CallbackLock(s, t, pc).Went? ==> Untouched(s, CallbackLock(s, t, pc).s, u)
    ensures CallbackUnlock(s, t, pc).Went? ==> Untouched(s, CallbackUnlock(s, t, pc).s, u)
  {
  }

  predicate Untouched(s: State, s': State, u: nat)
    requires u < |s.threads|
  {
    |s'.threads| == |s.threads| && s'.threads[u] == s.threads[u] && Flag(s', u) == Flag(s, u)
  }

  lemma NotTouched(s: State, t: nat, e: Event, s': State, u: nat)
    requires t < |s.threads| && Step(s, t, e) == Went(s') && u < |s.threads| && u != t
    requires !s.threads[t].Wake? && !s.threads[t].Drain?
    ensures Untouched(s, s', u)
  {
    match s.threads[t]
    case Enter => LockTouches(s, t, Locked, u);
    case Ready => LockTouches(s, t, Locked, u);
    case Locked => LockTouches(s, t, Outside, u);
    case Release(seen) => LockTouches(s, t, Away(seen), u);
    case Away(seen) => CallbackTouches(s, t, Recheck(seen), u);
    case Queued(seen) => CallbackTouches(s, t, Parked(seen), u);
    case Missed(_) => CallbackTouches(s, t, Scheduling, u);
    case _ =>
  }

  lemma NeverBroken(s: State, base: seq<bool>, t: nat, e: Event)
    requires Inv(s) && FlagsOk(s, base) && t < |s.threads|
    ensures !Step(s, t, e).Broken?
  {
    assert ThreadOk(s, t) && FlagOk(s, base, t);
  }

  // ----- every run -----

  function Run(s: State, events: seq<(nat, Event)>): Outcome
  {
    if events == [] then Went(s)
    else
      match Run(s, events[..|events| - 1])
      case Went(s1) =>
        var (t, e) := events[|events| - 1];
        if t >= |s1.threads| || Step(s1, t, e).Refused? then Went(s1) else Step(s1, t, e)
      case _ => Broken
  }

  /** A run that fails no ASSERT keeps the invariant, whatever the interrupt flags. */
  lemma {:induction false} RunInv(s: State, events: seq<(nat, Event)>)
    requires Initial(s) && Run(s, events).Went?
    ensures Inv(Run(s, events).s)
  {
    if events == [] {
      forall t: nat | t < |s.threads| ensures ThreadOk(s, t) { }
    } else {
      RunInv(s, events[..|events| - 1]);
      var s1 := Run(s, events[..|events| - 1]).s;
      var (t, e) := events[|events| - 1];
      if t < |s1.threads| && Step(s1, t, e).Went? { StepKeeps(s1, t, e, Step(s1, t, e).s); }
    }
  }

  /** Every thread that calls wait in this run came with interrupts on. */
  predicate WaitsWithInterrupts(s: State, events: seq<(nat, Event)>)
  {
    if events == [] then true
    else
      var before, (t, e) := events[..|events| - 1], events[|events| - 1];
      && WaitsWithInterrupts(s, before)
      && (Run(s, before).Went? && t < |Run(s, before).s.threads| && t < |s.on| ==> !BadWait(Run(s, before).s, s.on, t, e))
  }

  /** A run in which every caller of wait has interrupts on fails no ASSERT, on the lock, the
      epochs or the interrupt flag, and no callback turns interrupts on. */
  lemma {:induction false} RunKeeps(s: State, events: seq<(nat, Event)>)
    requires Initial(s) && WaitsWithInterrupts(s, events)
    ensures Run(s, events).Went? && Inv(Run(s, events).s) && FlagsOk(Run(s, events).s, s.on)
  {
    if events == [] {
      forall t: nat | t < |s.threads| ensures ThreadOk(s, t) && FlagOk(s, s.on, t) { }
    } else {
      RunKeeps(s, events[..|events| - 1]);
      var s1 := Run(s, events[..|events| - 1]).s;
      var (t, e) := events[|events| - 1];
      if t < |s1.threads| {
        NeverBroken(s1, s.on, t, e);
        if Step(s1, t, e).Went? {
          StepKeeps(s1, t, e, Step(s1, t, e).s);
          FlagsKept(s1, s.on, t, e, Step(s1, t, e).s);
        }
      }
    }
  }

  /** No signal is missed or wasted: whenever the lock is free, a thread asleep in the queue has
      seen no notify since it let go of the lock, but for those that woke as many others as
      their limit allowed. */
  lemma NoSignalWasted(s: State, events: seq<(nat, Event)>, t: nat, j: nat)
    requires Initial(s) && Run(s, events).Went?
    requires var r := Run(s, events).s; t < |r.threads| && r.threads[t].Parked? && !r.taken && r.threads[t].seen <= j < r.epoch
    ensures var r := Run(s, events).s; j < |r.notices| && r.notices[j].woken == r.notices[j].limit
  {
    RunInv(s, events);
    var r := Run(s, events).s;
    assert ThreadOk(r, t);
    assert Used(r, j);
  }

  /** The sleeping threads are exactly those in the queue, and they are woken in the order in
      which they queued. */
  lemma WokenInOrder(s: State, events: seq<(nat, Event)>, t: nat)
    requires Initial(s) && Run(s, events).Went? && t < |Run(s, events).s.threads|
    ensures var r := Run(s, events).s;
      && (r.threads[t].Queued? || r.threads[t].Parked? <==> t in r.queue)
      && r.popped <= r.arrived && r.arrived[|r.popped|..] == r.queue
  {
    RunInv(s, events);
    assert ThreadOk(Run(s, events).s, t);
  }

  /** A thread whose signal came before it was queued does not go to sleep. */
  lemma EarlySignalIsSeen(s: State, events: seq<(nat, Event)>, t: nat, e: Event)
    requires Initial(s) && Run(s, events).Went? && t < |Run(s, events).s.threads|
    requires var r := Run(s, events).s; r.threads[t].Recheck? && r.threads[t].seen != r.epoch
    ensures var r := Run(s, events).s; Step(r, t, e).Went? && Step(r, t, e).s.threads[t].Missed?
  {
    RunInv(s, events);
    assert ThreadOk(Run(s, events).s, t);
  }

  // ----- callers with interrupts off -----

  /** What one event makes of an outcome. */
  function Then(o: Outcome, t: nat, e: Event): Outcome
  {
    if !o.Went? then Broken
    else if t >= |o.s.threads| || Step(o.s, t, e).Refused? then o
    else Step(o.s, t, e)
  }

  lemma RunThen(s: State, events: seq<(nat, Event)>, t: nat, e: Event)
    ensures Run(s, events + [(t, e)]) == Then(Run(s, events), t, e)
  {
    var longer := events + [(t, e)];
    assert longer[..|longer| - 1] == events;
  }

  /** One event after another. */
  lemma OneMore(s: State, events: seq<(nat, Event)>, s1: State, t: nat, e: Event) returns (longer: seq<(nat, Event)>)
    requires Run(s, events) == Went(s1) && t < |s1.threads| && !Step(s1, t, e).Refused?
    ensures Run(s, longer) == Step(s1, t, e)
  {
    longer := events + [(t, e)];
    RunThen(s, events, t, e);
  }

  /** Thread t has let go of the lock inside wait, with interrupts off; thread u is outside. */
  predicate Waiting(s: State, t: nat, u: nat, epoch: nat)
  {
    && t < |s.threads| && u < |s.threads| && t != u && s.threads[t] == Away(0) && s.threads[u] == Outside
    && !s.taken && s.queue == [] && s.epoch == epoch && !Flag(s, t)
  }

  lemma WaitPhase(s: State, t: nat, u: nat) returns (events: seq<(nat, Event)>, s': State)
    requires Initial(s) && t < |s.threads| && u < |s.threads| && t != u && !s.on[t]
    ensures Run(s, events) == Went(s') && Waiting(s', t, u, 0)
  {
    events := [];
    events := OneMore(s, events, s, t, Go);
    var s1 := Step(s, t, Go).s;
    events := OneMore(s, events, s1, t, Go);
    var s2 := Step(s1, t, Go).s;
    assert s2.threads[t] == Locked && s2.was;
    events := OneMore(s, events, s2, t, Wait);
    var s3 := Step(s2, t, Wait).s;
    events := OneMore(s, events, s3, t, Go);
    s' := Step(s3, t, Go).s;
  }

  /** u has the lock while t is in wait. */
  predicate Notifying(s: State, t: nat, u: nat, epoch: nat)
  {
    && t < |s.threads| && u < |s.threads| && t != u && s.threads[t] == Away(0) && s.threads[u] == Locked
    && s.taken && s.queue == [] && s.epoch == epoch && !Flag(s, t)
  }

  lemma EnterPhase(s: State, before: seq<(nat, Event)>, s0: State, t: nat, u: nat) returns (events: seq<(nat, Event)>, s': State)
    requires Run(s, before) == Went(s0) && Waiting(s0, t, u, 0)
    ensures Run(s, events) == Went(s') && Notifying(s', t, u, 0)
  {
    events := OneMore(s, before, s0, u, Go);
    var s1 := Step(s0, u, Go).s;
    events := OneMore(s, events, s1, u, Go);
    s' := Step(s1, u, Go).s;
  }

  /** u notifies before the callback of t has looked at the epoch. */
  lemma NotifyPhase(s: State, before: seq<(nat, Event)>, s0: State, t: nat, u: nat) returns (events: seq<(nat, Event)>, s': State)
    requires Run(s, before) == Went(s0) && Notifying(s0, t, u, 0)
    ensures Run(s, events) == Went(s') && Notifying(s', t, u, 1)
  {
    events := OneMore(s, before, s0, u, Notify(1));
    var s1 := Step(s0, u, Notify(1)).s;
    assert s1.threads[u] == Drain(1, 0);
    events := OneMore(s, events, s1, u, Go);
    s' := Step(s1, u, Go).s;
  }

  lemma LeavePhase(s: State, before: seq<(nat, Event)>, s0: State, t: nat, u: nat) returns (events: seq<(nat, Event)>, s': State)
    requires Run(s, before) == Went(s0) && Notifying(s0, t, u, 1)
    ensures Run(s, events) == Went(s') && Waiting(s', t, u, 1)
  {
    events := OneMore(s, before, s0, u, Go);
    s' := Step(s0, u, Go).s;
  }

  /** The callback finds that the epoch has moved on. */
  lemma MissPhase(s: State, before: seq<(nat, Event)>, s0: State, t: nat, u: nat) returns (events: seq<(nat, Event)>, s': State)
    requires Run(s, before) == Went(s0) && Waiting(s0, t, u, 1)
    ensures Run(s, events) == Went(s') && t < |s'.threads| && s'.threads[t] == Missed(0) && s'.was && !Flag(s', t)
  {
    events := OneMore(s, before, s0, t, Go);
    var s1 := Step(s0, t, Go).s;
    events := OneMore(s, events, s1, t, Go);
    s' := Step(s1, t, Go).s;
  }

  /** t comes back from block with interrupts off. */
  lemma WakePhase(s: State, before: seq<(nat, Event)>, s0: State, t: nat) returns (events: seq<(nat, Event)>)
    requires Run(s, before) == Went(s0) && t < |s0.threads| && s0.threads[t] == Missed(0) && s0.was && !Flag(s0, t)
    ensures Run(s, events) == Broken
  {
    events := OneMore(s, before, s0, t, Go);
    var s1 := Step(s0, t, Go).s;
    events := OneMore(s, events, s1, t, Go);
    var s2 := Step(s1, t, Go).s;
    assert s2.threads[t] == Ready && !Flag(s2, t);
    events := OneMore(s, events, s2, t, Go);
  }

  /** A thread that is alone: if it waits, it is never woken. */
  ghost predicate Alone(s: State)
  {
    |s.threads| == 1 && Inv(s) &&
    var pc := s.threads[0];
    && !pc.Missed? && !pc.Scheduling? && !pc.Ready? && !pc.Handed? && !pc.Wake?
    && (Holds(pc) && !HoldsCallback(pc) ==> !Flag(s, 0)) && (HoldsCallback(pc) ==> s.was)
    && (pc.Away? || pc.Recheck? ==> pc.seen == s.epoch)
    && (!pc.Queued? && !pc.Parked? ==> s.queue == [])
  }

  lemma AloneStep(s: State, e: Event)
    requires Alone(s)
    ensures !Step(s, 0, e).Broken?
    ensures Step(s, 0, e).Went? ==> Alone(Step(s, 0, e).s)
  {
    assert ThreadOk(s, 0);
    if Step(s, 0, e).Went? {
      StepKeeps(s, 0, e, Step(s, 0, e).s);
      AloneShape(s, e);
    }
  }

  lemma AloneShape(s: State, e: Event)
    requires Alone(s) && ThreadOk(s, 0) && Step(s, 0, e).Went? && Inv(Step(s, 0, e).s)
    ensures Alone(Step(s, 0, e).s)
  {
    match s.threads[0]
    case Enter =>
    case Locked =>
    case Release(_) =>
    case Away(_) =>
    case Recheck(_) =>
    case Queued(_) =>
    case Drain(_, _) =>
    case _ =>
  }

  lemma AloneStart(s: State)
    requires Initial(s) && |s.threads| == 1
    ensures Alone(s)
  {
    assert Run(s, []) == Went(s);
    RunInv(s, []);
  }

  lemma AloneAfter(s: State, t: nat, e: Event)
    requires Alone(s)
    ensures var o := if t >= |s.threads| || Step(s, t, e).Refused? then Went(s) else Step(s, t, e);
      o.Went? && Alone(o.s)
  {
    if t < |s.threads| { AloneStep(s, e); }
  }

  lemma {:induction false} AloneRuns(s: State, events: seq<(nat, Event)>)
    requires Initial(s) && |s.threads| == 1
    ensures Run(s, events).Went? && Alone(Run(s, events).s)
  {
    if events == [] {
      AloneStart(s);
    } else {
      AloneRuns(s, events[..|events| - 1]);
      var (t, e) := events[|events| - 1];
      AloneAfter(Run(s, events[..|events| - 1]).s, t, e);
    }
  }

  lemma {:induction false} NobodyRuns(s: State, events: seq<(nat, Event)>)
    requires |s.threads| == 0
    ensures Run(s, events) == Went(s)
  {
    if events != [] {
      NobodyRuns(s, events[..|events| - 1]);
      var (t, e) := events[|events| - 1];
      assert t >= |s.threads|;
    }
  }

  lemma {:induction false} AllOn(s: State, events: seq<(nat, Event)>)
    requires forall t: nat | t < |s.on| :: s.on[t]
    ensures WaitsWithInterrupts(s, events)
  {
    if events != [] {
      AllOn(s, events[..|events| - 1]);
      var (t, e) := events[|events| - 1];
      assert t < |s.on| ==> s.on[t];
    }
  }

  /** When any thread may wait and notify, every ASSERT holds on every run if and only if all
      threads come with interrupts on, or there is nobody to wake a waiter. */
  lemma AssertsHoldExactly(s: State)
    requires Initial(s)
    ensures (forall events :: Run(s, events).Went?) <==> (forall t: nat | t < |s.on| :: s.on[t]) || |s.threads| <= 1
  {
    if |s.threads| <= 1 {
      forall events ensures Run(s, events).Went? {
        if |s.threads| == 1 { AloneRuns(s, events); } else { NobodyRuns(s, events); }
      }
    } else if t: nat :| t < |s.on| && !s.on[t] {
      OffBreaks(s, t);
    } else {
      forall events ensures Run(s, events).Went? {
        AllOn(s, events);
        RunKeeps(s, events);
      }
    }
  }

  /** The input on which wait fails: a caller with interrupts off, and another thread that
      notifies. */
  lemma OffBreaks(s: State, t: nat)
    requires Initial(s) && |s.threads| > 1 && t < |s.threads| && !s.on[t]
    ensures !forall events :: Run(s, events).Went?
  {
    var u := if t == 0 then 1 else 0;
    var events, s1 := WaitPhase(s, t, u);
    events, s1 := EnterPhase(s, events, s1, t, u);
    events, s1 := NotifyPhase(s, events, s1, t, u);
    events, s1 := LeavePhase(s, events, s1, t, u);
    events, s1 := MissPhase(s, events, s1, t, u);
    events := WakePhase(s, events, s1, t);
    assert !Run(s, events).Went?;
  }
}
