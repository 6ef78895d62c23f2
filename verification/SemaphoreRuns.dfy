/** What the semaphore promises on every interleaving, and that it is an atomic semaphore. */
module SemaphoreRuns {
  import opened Common
  import opened Semaphores

  /** Events that cannot happen are skipped. */
  function After(s: State, t: nat, e: Event): State
  {
    if t < |s.threads| && Step(s, t, e).Some? then Step(s, t, e).value else s
  }

  function Run(s: State, events: seq<(nat, Event)>): State
  {
    if events == [] then s
    else
      var (t, e) := events[|events| - 1];
      After(Run(s, events[..|events| - 1]), t, e)
  }

  lemma AfterGrows(s: State, t: nat, e: Event)
    ensures Grows(s, After(s, t, e))
  {
  }

  lemma AfterKeeps(s: State, t: nat, e: Event)
    requires Inv(s) && After(s, t, e).init + After(s, t, e).ups < COUNT_LIMIT
    ensures Inv(After(s, t, e))
  {
    if t < |s.threads| && Step(s, t, e).Some? {
      StepKeeps(s, t, e, Step(s, t, e).value);
    }
  }

  lemma InitialInv(s: State)
    requires Initial(s)
    ensures Inv(s)
  {
    forall t: nat | t < |s.threads| ensures ThreadOk(s, t) { }
  }

  /** As long as the initial value and the ups stay below 2^64, the width of the count, every
      run keeps the invariant. */
  lemma {:induction false} RunKeeps(s: State, events: seq<(nat, Event)>)
    requires Initial(s) && Run(s, events).init + Run(s, events).ups < COUNT_LIMIT
    ensures Inv(Run(s, events))
  {
    if events == [] {
      InitialInv(s);
    } else {
      var s1 := Run(s, events[..|events| - 1]);
      var (t, e) := events[|events| - 1];
      AfterGrows(s1, t, e);
      RunKeeps(s, events[..|events| - 1]);
      AfterKeeps(s1, t, e);
    }
  }

  /** Units are conserved: the initial value and the ups are the count and the granted downs. */
  lemma UnitsAreConserved(s: State, events: seq<(nat, Event)>)
    requires Initial(s) && Run(s, events).init + Run(s, events).ups < COUNT_LIMIT
    ensures var r := Run(s, events); r.init + r.ups == r.count + r.granted
  {
    RunKeeps(s, events);
  }

  /** Nobody sleeps while there are units; the queue is exactly the sleeping threads; and units
      are handed over in the order in which the threads queued. */
  lemma FirstComeFirstServed(s: State, events: seq<(nat, Event)>)
    requires Initial(s) && Run(s, events).init + Run(s, events).ups < COUNT_LIMIT
    ensures var r := Run(s, events);
      && (r.waiting != [] ==> r.count == 0)
      && (forall t: nat {:trigger r.threads[t]} | t < |r.threads| :: r.threads[t].pc.Queued? || r.threads[t].pc.Parked? <==> t in r.waiting)
      && r.popped <= r.arrived && r.arrived[|r.popped|..] == r.waiting
  {
    RunKeeps(s, events);
    var r := Run(s, events);
    forall t: nat | t < |r.threads| ensures r.threads[t].pc.Queued? || r.threads[t].pc.Parked? <==> t in r.waiting {
      assert ThreadOk(r, t);
    }
  }

  /** A popped thread is never lost: exactly one up holds it, and schedules it next. */
  lemma PoppedIsScheduled(s: State, t: nat)
    requires Inv(s) && t < |s.threads| && s.threads[t].pc.Handed?
    ensures exists u: nat :: u < |s.threads| && Carries(s.threads[u].pc) == Some(t)
    ensures forall u: nat, v: nat | u < |s.threads| && v < |s.threads| && Carries(s.threads[u].pc) == Carries(s.threads[v].pc) == Some(t) :: u == v
    ensures forall u: nat | u < |s.threads| && s.threads[u].pc == UpWake(t) ::
      Step(s, u, Go).Some? && Step(s, u, Go).value.threads[t].pc.Scheduled?
  {
    assert ThreadOk(s, t);
    forall u: nat | u < |s.threads| && Carries(s.threads[u].pc) == Some(t) ensures s.threads[t].pc.giver == u {
      assert ThreadOk(s, u);
    }
  }

  /** The lock's critical sections exclude one another and run with interrupts off. */
  lemma LockExcludes(s: State, t: nat, u: nat)
    requires Inv(s) && t < |s.threads| && u < |s.threads| && Holds(s.threads[t].pc)
    ensures s.taken && !s.threads[t].on
    ensures Holds(s.threads[u].pc) ==> t == u
  {
    assert ThreadOk(s, t) && ThreadOk(s, u);
  }

  /** down and up return with the interrupt flag they were called with. */
  lemma FlagIsRestored(s: State, t: nat, e: Event, s': State)
    requires Inv(s) && t < |s.threads| && Step(s, t, e) == Some(s')
    requires s.threads[t].pc != Outside && t < |s'.threads| && s'.threads[t].pc == Outside
    ensures s'.threads[t].on == s.threads[t].entry == s'.threads[t].entry
  {
    assert ThreadOk(s, t);
    OnlyReturns(s, t, s');
    ReturnFlag(s, t, s');
  }

  predicate Returns(pc: Pc)
  {
    pc.DownUnlock? || pc.Scheduled? || (pc.UpUnlock? && pc.popped.None?) || pc.UpWake?
  }

  lemma OnlyReturns(s: State, t: nat, s': State)
    requires t < |s.threads| && s.threads[t].pc != Outside && Advance(s, t) == Some(s')
    requires t < |s'.threads| && s'.threads[t].pc == Outside
    ensures Returns(s.threads[t].pc)
  {
    match s.threads[t].pc
    case DownLock =>
    case DownTest =>
    case UpLock =>
    case UpTest =>
    case Blocking =>
    case Queued =>
    case _ =>
  }

  lemma ReturnFlag(s: State, t: nat, s': State)
    requires t < |s.threads| && ThreadOk(s, t) && Advance(s, t) == Some(s') && Returns(s.threads[t].pc)
    requires t < |s'.threads|
    ensures s'.threads[t].on == s.threads[t].entry == s'.threads[t].entry
  {
    var pc := s.threads[t].pc;
    if pc.UpWake? { assert pc.next != t; } else { BackFlag(s, t); }
  }

  lemma BackFlag(s: State, t: nat)
    requires t < |s.threads| && s.threads[t].was == !s.threads[t].entry
    ensures var s' := Back(s, t);
      && s'.threads[t].on == s.threads[t].entry == s'.threads[t].entry && Unlock(s').threads == s'.threads
  {
  }

  /** A thread of a BlockingLock that has got the lock and not yet given it back: it is on its
      way out of lock, in its critical section, or on its way into unlock. */
  predicate HasLock(s: State, t: nat)
    requires t < |s.threads|
  {
    var pc := s.threads[t].pc;
    Granted(pc) || pc.UpLock? || pc.UpTest? || (pc.Outside? && t in s.inside)
  }

  /** A semaphore of 1 whose ups only give back what downs got is a mutual-exclusion lock; one
      of n admits n threads. */
  lemma AtMostInit(s: State, events: seq<(nat, Event)>, t: nat, u: nat)
    requires Initial(s) && s.strict && Run(s, events).init + Run(s, events).ups < COUNT_LIMIT
    requires t < |Run(s, events).threads| && u < |Run(s, events).threads|
    ensures var r := Run(s, events);
      && r.count + |r.inside| == s.init
      && (s.init == 1 && HasLock(r, t) && HasLock(r, u) ==> t == u)
  {
    RunKeeps(s, events);
    RunConstants(s, events);
    HoldersAreInside(Run(s, events), t);
    HoldersAreInside(Run(s, events), u);
    AtMostOne(Run(s, events).inside, t, u);
  }

  lemma HoldersAreInside(s: State, t: nat)
    requires Inv(s) && s.strict && t < |s.threads|
    ensures HasLock(s, t) ==> t in s.inside
    ensures s.count + |s.inside| == s.init
  {
    assert ThreadOk(s, t);
  }

  lemma AtMostOne(m: multiset<nat>, t: nat, u: nat)
    ensures |m| <= 1 && t in m && u in m ==> t == u
  {
    var m1 := m - multiset{t};
    assert t in m ==> |m1| == |m| - 1;
    assert u in m && u != t ==> u in m1;
    assert u in m1 ==> |m1| > 0;
  }

  lemma {:induction false} RunConstants(s: State, events: seq<(nat, Event)>)
    ensures Run(s, events).init == s.init && Run(s, events).strict == s.strict
  {
    if events != [] {
      RunConstants(s, events[..|events| - 1]);
      var (t, e) := events[|events| - 1];
      AfterGrows(Run(s, events[..|events| - 1]), t, e);
    }
  }

  // ----- the atomic semaphore -----

  /** `wants`: the threads inside down that have not got their unit. */
  datatype Atomic = Atomic(tokens: nat, wants: set<nat>)

  datatype Op = Want(t: nat) | Take(t: nat) | Give

  function Apply(a: Atomic, op: Op): Option<Atomic>
  {
    match op
    case Want(t) => if t in a.wants then None else Some(a.(wants := a.wants + {t}))
    case Take(t) => if t in a.wants && a.tokens > 0 then Some(Atomic(a.tokens - 1, a.wants - {t})) else None
    case Give => Some(a.(tokens := a.tokens + 1))
  }

  function ApplyAll(a: Atomic, ops: seq<Op>): Option<Atomic>
    decreases |ops|
  {
    if ops == [] then Some(a)
    else if Apply(a, ops[0]).None? then None
    else ApplyAll(Apply(a, ops[0]).value, ops[1..])
  }

  predicate Wants(pc: Pc)
  {
    pc.DownLock? || pc.DownTest? || pc.Blocking? || pc.Queued? || pc.Parked?
  }

  function Abstract(s: State): Atomic
  {
    Atomic(s.count, set t: nat | t < |s.threads| && Wants(s.threads[t].pc))
  }

  /** The atomic operations one step amounts to: a hand-off gives a unit and takes it at once. */
  function Meaning(s: State, t: nat, e: Event): seq<Op>
    requires t < |s.threads|
  {
    var pc := s.threads[t].pc;
    if e == CallDown then [Want(t)]
    else if e == Go && pc.DownTest? && s.count > 0 then [Take(t)]
    else if e == Go && pc.UpTest? then (if s.waiting == [] then [Give] else [Give, Take(s.waiting[0])])
    else []
  }

  /** Each step of the locked implementation is a few steps of the atomic semaphore, mostly
      none; and a down returns only once its unit was taken. */
  lemma StepIsAtomic(s: State, t: nat, e: Event, s': State)
    requires Inv(s) && t < |s.threads| && Step(s, t, e) == Some(s') && s'.init + s'.ups < COUNT_LIMIT
    ensures ApplyAll(Abstract(s), Meaning(s, t, e)) == Some(Abstract(s'))
    ensures t < |s'.threads| && (s'.threads[t].pc == Outside ==> t !in Abstract(s').wants)
  {
    AfterGrows(s, t, e);
    assert ThreadOk(s, t);
    var a, a' := Abstract(s), Abstract(s');
    assert ApplyAll(a', []) == Some(a');
    if Meaning(s, t, e) == [] {
      SameWants(s, t, e, s');
    } else if s.threads[t].pc.UpTest? {
      UpIsAtomic(s, t, s');
    } else {
      OwnOpIsAtomic(s, t, e, s');
    }
  }

  lemma OwnOpIsAtomic(s: State, t: nat, e: Event, s': State)
    requires t < |s.threads| && Step(s, t, e) == Some(s')
    requires e == CallDown || (e == Go && s.threads[t].pc.DownTest? && s.count > 0)
    ensures ApplyAll(Abstract(s), Meaning(s, t, e)) == Some(Abstract(s'))
  {
    var a, a' := Abstract(s), Abstract(s');
    assert ApplyAll(a', []) == Some(a');
    assert a'.wants == if e == CallDown then a.wants + {t} else a.wants - {t};
  }

  lemma SameWants(s: State, t: nat, e: Event, s': State)
    requires Inv(s) && t < |s.threads| && Step(s, t, e) == Some(s') && Meaning(s, t, e) == []
    ensures Abstract(s') == Abstract(s)
  {
    AfterGrows(s, t, e);
    assert ThreadOk(s, t);
    if Plain(s.threads[t].pc) { PlainFrame(s, t, e, s'); }
    forall u: nat | u < |s.threads| ensures u in Abstract(s').wants <==> u in Abstract(s).wants {
      if u == t { if e == Go { OwnWant(s, t, s'); } }
      else if !Plain(s.threads[t].pc) { OtherWant(s, t, s', u); }
    }
    SameCount(s, t, e, s');
  }

  lemma SameCount(s: State, t: nat, e: Event, s': State)
    requires t < |s.threads| && Step(s, t, e) == Some(s') && Meaning(s, t, e) == []
    ensures s'.count == s.count
  {
  }

  lemma OwnWant(s: State, t: nat, s': State)
    requires t < |s.threads| && ThreadOk(s, t) && Step(s, t, Go) == Some(s') && Meaning(s, t, Go) == []
    ensures t < |s'.threads| && (Wants(s'.threads[t].pc) <==> Wants(s.threads[t].pc))
  {
    var pc := s.threads[t].pc;
    assert pc.UpWake? ==> pc.next != t;
  }

  lemma OtherWant(s: State, t: nat, s': State, u: nat)
    requires Inv(s) && t < |s.threads| && Step(s, t, Go) == Some(s') && u < |s.threads| && u != t
    requires s.threads[t].pc.Blocking? || s.threads[t].pc.UpWake?
    ensures u < |s'.threads| && (Wants(s'.threads[u].pc) <==> Wants(s.threads[u].pc))
  {
    assert ThreadOk(s, t);
  }

  lemma UpIsAtomic(s: State, t: nat, s': State)
    requires Inv(s) && t < |s.threads| && s.threads[t].pc.UpTest? && Step(s, t, Go) == Some(s') && s'.init + s'.ups < COUNT_LIMIT
    ensures ApplyAll(Abstract(s), Meaning(s, t, Go)) == Some(Abstract(s'))
  {
    assert ThreadOk(s, t);
    if s.waiting == [] {
      CountIsGive(s, t, s');
    } else {
      assert s.waiting[0] in s.waiting;
      assert ThreadOk(s, s.waiting[0]);
      HandOffWants(s, t, s', s.waiting[0]);
      HandOffIsTake(Abstract(s), Abstract(s'), s.waiting[0]);
    }
  }

  lemma CountIsGive(s: State, t: nat, s': State)
    requires t < |s.threads| && s.threads[t].pc.UpTest? && UpTested(s, t) == s' && s.waiting == [] && s.count + 1 < COUNT_LIMIT
    ensures ApplyAll(Abstract(s), [Give]) == Some(Abstract(s'))
  {
    assert Abstract(s').wants == Abstract(s).wants;
    assert ApplyAll(Abstract(s'), []) == Some(Abstract(s'));
    assert [Give][1..] == [];
  }

  lemma HandOffIsTake(a: Atomic, a': Atomic, next: nat)
    requires next in a.wants && a' == Atomic(a.tokens, a.wants - {next})
    ensures ApplyAll(a, [Give, Take(next)]) == Some(a')
  {
    assert ApplyAll(a', []) == Some(a');
    assert [Give, Take(next)][1..] == [Take(next)];
    var a1 := Apply(a, Give).value;
    assert ApplyAll(a1, [Take(next)]) == ApplyAll(a', []);
  }

  lemma HandOffWants(s: State, t: nat, s': State, next: nat)
    requires t < |s.threads| && s.threads[t].pc.UpTest? && s.waiting != [] && next == s.waiting[0] < |s.threads|
    requires UpTested(s, t) == s' && Wants(s.threads[next].pc)
    ensures next in Abstract(s).wants && Abstract(s') == Atomic(s.count, Abstract(s).wants - {next})
  {
    assert Abstract(s').wants == Abstract(s).wants - {next};
  }

  /** The atomic operations a whole run amounts to. */
  function RunMeaning(s: State, events: seq<(nat, Event)>): seq<Op>
  {
    if events == [] then []
    else
      var before := events[..|events| - 1];
      var (t, e) := events[|events| - 1];
      RunMeaning(s, before) + AfterMeaning(Run(s, before), t, e)
  }

  lemma {:induction false} ApplyAllThen(a: Atomic, x: seq<Op>, y: seq<Op>)
    requires ApplyAll(a, x).Some?
    ensures ApplyAll(a, x + y) == ApplyAll(ApplyAll(a, x).value, y)
    decreases |x|
  {
    if x == [] {
      assert x + y == y;
    } else {
      assert (x + y)[1..] == x[1..] + y;
      ApplyAllThen(Apply(a, x[0]).value, x[1..], y);
    }
  }

  /** Every run of the locked implementation is a run of the atomic semaphore. */
  lemma {:induction false} RunIsAtomic(s: State, events: seq<(nat, Event)>)
    requires Initial(s) && Run(s, events).init + Run(s, events).ups < COUNT_LIMIT
    ensures ApplyAll(Abstract(s), RunMeaning(s, events)) == Some(Abstract(Run(s, events)))
  {
    if events != [] {
      var before := events[..|events| - 1];
      var (t, e) := events[|events| - 1];
      var s1 := Run(s, before);
      AfterGrows(s1, t, e);
      RunKeeps(s, before);
      RunIsAtomic(s, before);
      AfterIsAtomic(s1, t, e);
      ApplyAllThen(Abstract(s), RunMeaning(s, before), AfterMeaning(s1, t, e));
    }
  }

  function AfterMeaning(s: State, t: nat, e: Event): seq<Op>
  {
    if t < |s.threads| && Step(s, t, e).Some? then Meaning(s, t, e) else []
  }

  lemma AfterIsAtomic(s: State, t: nat, e: Event)
    requires Inv(s) && After(s, t, e).init + After(s, t, e).ups < COUNT_LIMIT
    ensures ApplyAll(Abstract(s), AfterMeaning(s, t, e)) == Some(Abstract(After(s, t, e)))
  {
    if t < |s.threads| && Step(s, t, e).Some? {
      StepIsAtomic(s, t, e, Step(s, t, e).value);
    }
  }
}
