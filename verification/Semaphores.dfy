/** The counting semaphore with direct hand-off: any number of threads in down and up at once,
    interleaved at the granularity of the lock, the count, the wait queue and the hand-off. */
module Semaphores {
  import opened Common

  const COUNT_LIMIT: nat := 0x1_0000_0000_0000_0000

  /** Where a thread is inside down or up.  From Queued on, a blocked thread's own code does not
      run: the callback of block queues it, an up pops it and then schedules it. */
  datatype Pc =
    | Outside
    | DownLock | DownTest | DownUnlock
    | Blocking | Queued | Parked | Handed(giver: nat) | Scheduled
    | UpLock | UpTest | UpUnlock(popped: Option<nat>) | UpWake(next: nat)

  /** `on`: the interrupt flag the thread runs with.  `was`: the local `was` of down and up.
      `entry`: the flag at the last call, kept for the record. */
  datatype Thread = Thread(pc: Pc, on: bool, was: bool, entry: bool)

  /** The fields of the semaphore, the threads, and the history of the run: the thread holding
      the lock, the initial count, the ups and granted downs so far, the threads that queued and
      those popped, in order, and the grants not yet given back.  With `strict` a thread calls
      up only to give back a grant, as BlockingLock is used. */
  datatype State = State(
    count: nat, taken: bool, waiting: seq<nat>, threads: seq<Thread>,
    owner: Option<nat>, init: nat, ups: nat, granted: nat,
    arrived: seq<nat>, popped: seq<nat>, inside: multiset<nat>, strict: bool)

  datatype Event = CallDown | CallUp | Flip | Go

  predicate Initial(s: State)
  {
    && s.count == s.init < COUNT_LIMIT && !s.taken && s.waiting == [] && s.owner == None
    && s.ups == s.granted == 0 && s.arrived == s.popped == [] && s.inside == multiset{}
    && forall t: nat | t < |s.threads| :: s.threads[t].pc == Outside
  }

  /** No step changes the initial count or forgets an up. */
  predicate Grows(s: State, s': State)
  {
    s'.init == s.init && s'.strict == s.strict && s'.ups >= s.ups && |s'.threads| == |s.threads|
  }

  function At(s: State, t: nat, pc: Pc): (s': State)
    requires t < |s.threads|
    ensures Grows(s, s')
  {
    s.(threads := s.threads[t := s.threads[t].(pc := pc)])
  }

  function Call(s: State, t: nat, pc: Pc): (s': State)
    requires t < |s.threads|
    ensures Grows(s, s')
  {
    s.(threads := s.threads[t := s.threads[t].(pc := pc, entry := s.threads[t].on)])
  }

  function Unlock(s: State): State
  {
    s.(taken := false, owner := None)
  }

  /** The lock's spin loop: nothing changes while it is taken. */
  function Lock(s: State, t: nat, pc: Pc): (s': State)
    requires t < |s.threads|
    ensures Grows(s, s')
  {
    if s.taken then s
    else s.(taken := true, owner := Some(t), threads := s.threads[t := s.threads[t].(pc := pc, on := false, was := !s.threads[t].on)])
  }

  /** Back in the caller with the interrupt flag as `was` says. */
  function Back(s: State, t: nat): (s': State)
    requires t < |s.threads|
    ensures Grows(s, s')
  {
    s.(threads := s.threads[t := s.threads[t].(pc := Outside, on := !s.threads[t].was)])
  }

  /** The state after the next step of thread `t`; None if it has none now. */
  function Step(s: State, t: nat, e: Event): (r: Option<State>)
    requires t < |s.threads|
    ensures r.Some? ==> Grows(s, r.value)
  {
    var pc := s.threads[t].pc;
    match e
    case Go => if pc == Outside then None else Advance(s, t)
    case CallDown => if pc != Outside then None else Some(Call(s, t, DownLock))
    case CallUp => if pc != Outside || (s.strict && t !in s.inside) then None else Some(Call(s, t, UpLock))
    case Flip =>
      if pc != Outside then None
      else Some(s.(threads := s.threads[t := s.threads[t].(on := !s.threads[t].on)]))
  }

  function Advance(s: State, t: nat): (r: Option<State>)
    requires t < |s.threads|
    ensures r.Some? ==> Grows(s, r.value)
  {
    match s.threads[t].pc
    case DownLock => Some(Lock(s, t, DownTest))
    case DownTest =>
      Some(if s.count > 0
           then At(s, t, DownUnlock).(count := s.count - 1, granted := s.granted + 1, inside := s.inside + multiset{t})
           else At(s, t, Blocking))
    case DownUnlock => Some(Unlock(Back(s, t)))
    case Blocking => Some(At(s, t, Queued).(waiting := s.waiting + [t], arrived := s.arrived + [t]))
    case Queued => Some(Unlock(At(s, t, Parked)))
    case Scheduled => Some(Back(s, t))
    case UpLock => Some(Lock(s, t, UpTest))
    case UpTest => Some(UpTested(s, t))
    case UpUnlock(popped) =>
      if popped.None? then Some(Unlock(Back(s, t)))
      else Some(Unlock(s.(threads := s.threads[t := s.threads[t].(pc := UpWake(popped.value), on := !s.threads[t].was)])))
    case UpWake(next) => if next < |s.threads| then Some(At(At(s, t, Outside), next, Scheduled)) else None
    case _ => None
  }

  /** up under the lock: hand the unit to the first waiter, or count it. */
  function UpTested(s: State, t: nat): (s': State)
    requires t < |s.threads|
    ensures Grows(s, s')
  {
    var s1 := s.(ups := s.ups + 1, inside := s.inside - multiset{t});
    if s.waiting == [] || s.waiting[0] >= |s.threads|
    then At(s1, t, UpUnlock(None)).(count := (s.count + 1) % COUNT_LIMIT)
    else
      var next := s.waiting[0];
      At(At(s1, t, UpUnlock(Some(next))), next, Handed(t)).(
        waiting := s.waiting[1..], popped := s.popped + [next],
        granted := s.granted + 1, inside := s1.inside + multiset{next})
  }

  // ----- the invariant -----

  predicate Holds(pc: Pc)
  {
    pc.DownTest? || pc.DownUnlock? || pc.Blocking? || pc.Queued? || pc.UpTest? || pc.UpUnlock?
  }

  /** The thread `pc` has popped and not yet scheduled. */
  function Carries(pc: Pc): Option<nat>
  {
    if pc.UpUnlock? then pc.popped else if pc.UpWake? then Some(pc.next) else None
  }

  /** A down that has got its unit and has not returned. */
  predicate Granted(pc: Pc)
  {
    pc.DownUnlock? || pc.Handed? || pc.Scheduled?
  }

  ghost predicate ThreadOk(s: State, t: nat)
    requires t < |s.threads|
  {
    var th := s.threads[t];
    && (Holds(th.pc) <==> s.owner == Some(t))
    && (Holds(th.pc) || th.pc.Parked? || th.pc.Handed? || th.pc.Scheduled? ==> !th.on)
    && (th.pc.Queued? || th.pc.Parked? <==> t in s.waiting)
    && (th.pc.Blocking? ==> s.count == 0)
    && (th.pc.Handed? ==> th.pc.giver < |s.threads| && th.pc.giver != t && Carries(s.threads[th.pc.giver].pc) == Some(t))
    && (Carries(th.pc).Some? ==> Carries(th.pc).value < |s.threads| && s.threads[Carries(th.pc).value].pc == Handed(t))
    && (s.strict && (th.pc.UpLock? || th.pc.UpTest? || Granted(th.pc)) ==> t in s.inside)
    && (if th.pc.DownLock? || th.pc.UpLock? || th.pc.UpWake? then th.on == th.entry
        else th.pc.Outside? || th.was == !th.entry)
  }

  ghost predicate QueueOk(s: State)
  {
    && (s.taken <==> s.owner.Some?) && (s.owner.Some? ==> s.owner.value < |s.threads|)
    && (s.waiting != [] ==> s.count == 0)
    && (forall i | 0 <= i < |s.waiting| :: s.waiting[i] < |s.threads|)
    && (forall i, j | 0 <= i < j < |s.waiting| :: s.waiting[i] != s.waiting[j])
    && s.arrived == s.popped + s.waiting
  }

  ghost predicate CountOk(s: State)
  {
    && s.init + s.ups == s.count + s.granted
    && (s.strict ==> s.granted == s.ups + |s.inside|)
  }

  ghost predicate Inv(s: State)
  {
    QueueOk(s) && CountOk(s) && forall t: nat {:trigger ThreadOk(s, t)} | t < |s.threads| :: ThreadOk(s, t)
  }

  /** Steps that leave the lock's owner, the queue and the count alone, and other threads' pcs. */
  ghost predicate OnlyThread(s: State, s': State, t: nat)
  {
    && |s'.threads| == |s.threads| && s'.waiting == s.waiting && s'.strict == s.strict
    && forall u: nat {:trigger s'.threads[u]} | u < |s.threads| && u != t :: s'.threads[u] == s.threads[u]
  }

  lemma OnlyThreadKeeps(s: State, s': State, t: nat, u: nat)
    requires Inv(s) && OnlyThread(s, s', t) && t < |s.threads| && u < |s.threads| && u != t
    requires s'.owner == s.owner || (s.owner in {None, Some(t)} && s'.owner in {None, Some(t)})
    requires s'.count == s.count || (s.owner == Some(t))
    requires Carries(s'.threads[t].pc) == Carries(s.threads[t].pc)
    requires s.strict && u in s.inside ==> u in s'.inside
    requires s'.threads[t].pc.Handed? == s.threads[t].pc.Handed? == false
    ensures ThreadOk(s', u)
  {
    assert ThreadOk(s, u) && ThreadOk(s, t);
    assert s'.threads[u] == s.threads[u];
    var pc := s.threads[u].pc;
    assert pc.Handed? ==> s'.threads[pc.giver].pc == s.threads[pc.giver].pc || pc.giver == t;
    assert Carries(pc).Some? ==> Carries(pc).value != t && s'.threads[Carries(pc).value] == s.threads[Carries(pc).value];
  }

  /** The steps of one thread that neither queue, pop nor schedule. */
  predicate Plain(pc: Pc)
  {
    !pc.Blocking? && !pc.UpTest? && !pc.UpWake?
  }

  lemma PlainStep(s: State, t: nat, e: Event, s': State)
    requires Inv(s) && t < |s.threads| && Step(s, t, e) == Some(s') && Plain(s.threads[t].pc)
    ensures Inv(s')
  {
    PlainSelf(s, t, e, s');
    PlainFrame(s, t, e, s');
    forall u: nat | u < |s.threads| ensures ThreadOk(s', u) {
      if u != t { OnlyThreadKeeps(s, s', t, u); }
    }
  }

  lemma PlainFrame(s: State, t: nat, e: Event, s': State)
    requires Inv(s) && t < |s.threads| && Step(s, t, e) == Some(s') && Plain(s.threads[t].pc)
    ensures OnlyThread(s, s', t) && (s'.inside == s.inside || s'.inside == s.inside + multiset{t})
    ensures s'.owner == s.owner || (s.owner in {None, Some(t)} && s'.owner in {None, Some(t)})
    ensures s'.count == s.count || s.owner == Some(t)
    ensures Carries(s'.threads[t].pc) == Carries(s.threads[t].pc)
    ensures s'.threads[t].pc.Handed? == s.threads[t].pc.Handed? == false
  {
    assert ThreadOk(s, t);
    match s.threads[t].pc
    case Outside =>
    case DownLock =>
    case DownTest =>
    case DownUnlock =>
    case Queued =>
    case Scheduled =>
    case UpLock =>
    case UpUnlock(_) =>
    case _ =>
  }

  lemma PlainSelf(s: State, t: nat, e: Event, s': State)
    requires Inv(s) && t < |s.threads| && Step(s, t, e) == Some(s') && Plain(s.threads[t].pc)
    ensures QueueOk(s') && CountOk(s') && ThreadOk(s', t)
  {
    var pc := s.threads[t].pc;
    if pc.Outside? { CallSelf(s, t, e, s'); }
    else if pc.DownLock? || pc.UpLock? { LockSelf(s, t, s'); }
    else if pc.DownTest? { TakeUnit(s, t, s'); }
    else { LeaveSelf(s, t, s'); }
  }

  lemma CallSelf(s: State, t: nat, e: Event, s': State)
    requires Inv(s) && t < |s.threads| && Step(s, t, e) == Some(s') && s.threads[t].pc.Outside?
    ensures QueueOk(s') && CountOk(s') && ThreadOk(s', t)
  {
    assert ThreadOk(s, t);
  }

  lemma LockSelf(s: State, t: nat, s': State)
    requires Inv(s) && t < |s.threads| && Step(s, t, Go) == Some(s') && (s.threads[t].pc.DownLock? || s.threads[t].pc.UpLock?)
    ensures QueueOk(s') && CountOk(s') && ThreadOk(s', t)
  {
    assert ThreadOk(s, t);
  }

  lemma LeaveSelf(s: State, t: nat, s': State)
    requires Inv(s) && t < |s.threads| && Step(s, t, Go) == Some(s')
    requires var pc := s.threads[t].pc; pc.DownUnlock? || pc.Queued? || pc.Scheduled? || pc.UpUnlock?
    ensures QueueOk(s') && CountOk(s') && ThreadOk(s', t)
  {
    assert ThreadOk(s, t);
    assert s.threads[t].pc.UpUnlock? ==> Carries(s.threads[t].pc) != Some(t);
  }

  lemma TakeUnit(s: State, t: nat, s': State)
    requires Inv(s) && t < |s.threads| && s.threads[t].pc.DownTest? && Step(s, t, Go) == Some(s')
    ensures QueueOk(s') && CountOk(s') && ThreadOk(s', t)
  {
    assert ThreadOk(s, t);
  }

  /** The callback of block puts the thread in the queue. */
  lemma QueueStep(s: State, t: nat, s': State)
    requires Inv(s) && t < |s.threads| && s.threads[t].pc.Blocking? && Step(s, t, Go) == Some(s')
    ensures Inv(s')
  {
    assert ThreadOk(s, t);
    assert s'.waiting[|s.waiting|] == t;
    forall u: nat | u < |s.threads| ensures ThreadOk(s', u) {
      assert ThreadOk(s, u);
      if u != t {
        OnlyThreadKeeps(s, s'.(waiting := s.waiting), t, u);
        assert u in s'.waiting <==> u in s.waiting;
      }
    }
  }

  /** up with nobody waiting. */
  lemma CountStep(s: State, t: nat, s': State)
    requires Inv(s) && t < |s.threads| && s.threads[t].pc.UpTest? && Step(s, t, Go) == Some(s')
    requires s.waiting == [] && s.init + s.ups + 1 < COUNT_LIMIT
    ensures Inv(s')
  {
    assert ThreadOk(s, t);
    assert ThreadOk(s', t);
    forall u: nat | u < |s.threads| ensures ThreadOk(s', u) {
      assert ThreadOk(s, u);
      if u != t { OnlyThreadKeeps(s, s', t, u); }
    }
  }

  /** up with a waiter: the unit goes to the first in line. */
  lemma HandOffStep(s: State, t: nat, s': State)
    requires Inv(s) && t < |s.threads| && s.threads[t].pc.UpTest? && Step(s, t, Go) == Some(s') && s.waiting != []
    ensures Inv(s') && s'.count == s.count && s'.ups == s.ups + 1 && s'.granted == s.granted + 1
    ensures var next := s.waiting[0];
      && next < |s.threads| && s.threads[next].pc.Parked? && s'.threads[next].pc == Handed(t)
      && s'.threads[t].pc == UpUnlock(Some(next)) && s.waiting == [next] + s'.waiting
  {
    HandOffFacts(s, t, s');
    assert ThreadOk(s, t) && ThreadOk(s, s.waiting[0]);
    HandOffQueue(s, t, s');
    forall u: nat | u < |s.threads| ensures ThreadOk(s', u) {
      HandOffThread(s, t, s', u);
    }
  }

  lemma HandOffFacts(s: State, t: nat, s': State)
    requires Inv(s) && t < |s.threads| && s.threads[t].pc.UpTest? && UpTested(s, t) == s' && s.waiting != []
    ensures s'.count == s.count && s'.ups == s.ups + 1 && s'.granted == s.granted + 1
    ensures var next := s.waiting[0];
      && next < |s.threads| && s.threads[next].pc.Parked? && next < |s'.threads| && s'.threads[next].pc == Handed(t)
      && s'.threads[t].pc == UpUnlock(Some(next)) && s.waiting == [next] + s'.waiting
  {
    var next := s.waiting[0];
    assert next in s.waiting;
    assert ThreadOk(s, t) && ThreadOk(s, next);
  }

  lemma HandOffQueue(s: State, t: nat, s': State)
    requires Inv(s) && t < |s.threads| && s.threads[t].pc.UpTest? && UpTested(s, t) == s'
    requires s.waiting != [] && s.waiting[0] < |s.threads| && ThreadOk(s, t)
    ensures QueueOk(s') && CountOk(s') && (s'.taken <==> s'.owner.Some?)
  {
    assert s.waiting == [s.waiting[0]] + s'.waiting;
  }

  lemma HandOffThread(s: State, t: nat, s': State, u: nat)
    requires Inv(s) && t < |s.threads| && s.threads[t].pc.UpTest? && Step(s, t, Go) == Some(s') && s.waiting != []
    requires u < |s.threads|
    ensures ThreadOk(s', u)
  {
    var next := s.waiting[0];
    assert s.waiting == [next] + s'.waiting;
    assert next in s.waiting && next !in s'.waiting;
    assert ThreadOk(s, t) && ThreadOk(s, next) && ThreadOk(s, u);
    if u != next {
      assert u in s.waiting <==> u in s'.waiting;
      if u != t { HandOffOther(s, t, s', u); }
    }
  }

  lemma HandOffOther(s: State, t: nat, s': State, u: nat)
    requires t < |s.threads| && s.threads[t].pc.UpTest? && UpTested(s, t) == s' && s.waiting != [] && s.waiting[0] < |s.threads|
    requires u < |s.threads| && u != t && u != s.waiting[0] && s.threads[s.waiting[0]].pc.Parked?
    requires ThreadOk(s, t) && ThreadOk(s, u) && (u in s.waiting <==> u in s'.waiting)
    ensures ThreadOk(s', u)
  {
    assert s'.threads[u] == s.threads[u];
  }

  /** schedule makes the popped thread runnable. */
  lemma WakeStep(s: State, t: nat, s': State)
    requires Inv(s) && t < |s.threads| && s.threads[t].pc.UpWake? && Step(s, t, Go) == Some(s')
    ensures Inv(s')
  {
    assert ThreadOk(s, t);
    var next := s.threads[t].pc.next;
    assert next != t && ThreadOk(s, next);
    assert s' == s.(threads := s'.threads) && |s'.threads| == |s.threads|;
    forall u: nat | u < |s.threads| ensures ThreadOk(s', u) {
      assert ThreadOk(s, u);
      if u != t && u != next { WakeOther(s, t, s', next, u); }
    }
  }

  lemma WakeOther(s: State, t: nat, s': State, next: nat, u: nat)
    requires t < |s.threads| && s.threads[t].pc == UpWake(next) && next < |s.threads| && next != t
    requires s' == At(At(s, t, Outside), next, Scheduled) && s.threads[next].pc == Handed(t)
    requires u < |s.threads| && u != t && u != next && ThreadOk(s, u)
    ensures ThreadOk(s', u)
  {
    assert s'.threads[u] == s.threads[u];
  }

  /** Every step of every thread keeps the invariant, as long as the count cannot wrap. */
  lemma StepKeeps(s: State, t: nat, e: Event, s': State)
    requires Inv(s) && t < |s.threads| && Step(s, t, e) == Some(s') && s'.init + s'.ups < COUNT_LIMIT
    ensures Inv(s')
  {
    var pc := s.threads[t].pc;
    if pc.Blocking? { QueueStep(s, t, s'); }
    else if pc.UpTest? {
      if s.waiting == [] { CountStep(s, t, s'); } else { HandOffStep(s, t, s'); }
    }
    else if pc.UpWake? { WakeStep(s, t, s'); }
    else { PlainStep(s, t, e, s'); }
  }
}
