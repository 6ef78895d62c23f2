/** What holds on every run: any number of cores and threads, any interleaving of the cores'
    steps and timer interrupts. */
module SchedulerSafety {
  import opened SchedulerSpec
  import opened SchedulerInv
  import opened SchedulerSteps

  lemma InitialOk(s: State)
    requires Initial(s)
    ensures Ok(s)
  {
    var loc: Locations := map[];
    forall p ensures PlaceOk(s, loc, p) {
      assert At(s, p) == [];
    }
    forall c: nat | c < |s.cores| ensures CoreOk(s, c) {
    }
    assert Inv(s, loc);
  }

  /** No run breaks an ASSERT or switches to a context that was not saved. */
  lemma {:induction false} RunIsSafe(s: State, events: seq<(nat, Event)>)
    requires Ok(s)
    ensures Run(s, events).Went? && Ok(Run(s, events).s)
  {
    if events != [] {
      RunIsSafe(s, events[..|events| - 1]);
      var s1 := Run(s, events[..|events| - 1]).s;
      var (c, e) := events[|events| - 1];
      if c < |s1.cores| {
        EventIsSafe(s1, c, e);
      }
    }
  }

  lemma EventIsSafe(s: State, c: nat, e: Event)
    requires Ok(s) && c < |s.cores|
    ensures !Step(s, c, e).Broken?
    ensures Step(s, c, e).Went? ==> Ok(Step(s, c, e).s)
  {
    var loc :| Inv(s, loc);
    NeverBroken(s, loc, c, e);
    if Step(s, c, e).Went? {
      StepKeeps(s, Step(s, c, e).s, loc, c, e);
    }
  }

  predicate IsAt(s: State, p: Place, i: nat, t: Tcb)
  {
    i < |At(s, p)| && At(s, p)[i] == t
  }

  /** Every thread that exists is in exactly one place: one core, the ready queue, one wait
      queue, the zombies, or in transit. */
  lemma OnePlace(s: State, t: Tcb)
    requires Ok(s) && t in s.live
    ensures exists p, i :: IsAt(s, p, i, t) && forall q, j :: IsAt(s, q, j, t) ==> q == p && j == i
  {
    var loc :| Inv(s, loc);
    assert Placed(s, loc, t);
    var p := loc[t];
    var i :| 0 <= i < |At(s, p)| && At(s, p)[i] == t;
    forall q, j | IsAt(s, q, j, t) ensures q == p && j == i {
      assert PlaceOk(s, loc, q);
      AtPlace(s, loc, q, j);
    }
    assert IsAt(s, p, i, t);
  }

  /** No place holds a thread that does not exist. */
  lemma NoGhosts(s: State, p: Place, i: nat)
    requires Ok(s) && i < |At(s, p)|
    ensures At(s, p)[i] in s.live
  {
    var loc :| Inv(s, loc);
    assert PlaceOk(s, loc, p);
    AtPlace(s, loc, p, i);
  }

  /** No two cores use one stack. */
  lemma OneStackEach(s: State, c: nat, d: nat)
    requires Ok(s) && c < |s.cores| && d < |s.cores| && c != d
    ensures s.cores[c].esp != s.cores[d].esp
  {
    var loc :| Inv(s, loc);
    assert CoreOk(s, c) && CoreOk(s, d);
    CoreThreads(s, loc, c);
    CoreThreads(s, loc, d);
  }

  /** A thread that can be picked, woken or deleted has a saved context, and no core is using
      its stack or about to. */
  lemma OffCoreIsSaved(s: State, p: Place, i: nat, c: nat)
    requires Ok(s) && i < |At(s, p)| && c < |s.cores| && (p.Ready? || p.Waiting? || p.Zombies? || p.Hand?)
    ensures At(s, p)[i] in s.ctx && s.cores[c].esp != At(s, p)[i] && s.cores[c].active != At(s, p)[i]
    ensures Picked(s.cores[c].pc) ==> s.cores[c].pc.next != At(s, p)[i]
  {
    var loc :| Inv(s, loc);
    assert PlaceOk(s, loc, p) && CoreOk(s, c);
    AtPlace(s, loc, p, i);
    CoreThreads(s, loc, c);
  }

  /** current() is the thread whose stack is in use, everywhere but between the update of
      activeThreads and the switch of stacks. */
  lemma CurrentIsRight(s: State, c: nat)
    requires Ok(s) && c < |s.cores|
    ensures s.cores[c].active == s.cores[c].esp <==> !(s.cores[c].pc.Block? && s.cores[c].pc.at in {Save, Mask, ClearMe, ClearNext, Switch})
  {
    var loc :| Inv(s, loc);
    assert CoreOk(s, c);
  }

  /** An idle thread never leaves its core; when it looks for work in vain its interrupts are
      on, so a timer can get through. */
  lemma IdleStaysHome(s: State, c: nat, d: nat)
    requires Ok(s) && c < |s.cores| && (s.cores[c].esp == Idle(d) || s.cores[c].active == Idle(d))
    ensures c == d
    ensures var k := s.cores[c]; k.pc.Block? && k.pc.at == Pick && k.esp.Idle? ==> k.on
  {
    var loc :| Inv(s, loc);
    assert CoreOk(s, c);
  }

  /** Once block has set the flag, a timer interrupt changes nothing until the switch is over. */
  lemma TimerIsHarmlessInBlock(s: State, c: nat)
    requires Ok(s) && c < |s.cores| && s.cores[c].on && s.cores[c].pc != Running(false)
    ensures Step(s, c, Timer) == Went(s)
  {
    var loc :| Inv(s, loc);
    assert CoreOk(s, c);
  }

  /** A call of block returns with no_preempt set if and only if it was a yield that found
      nothing ready; whenever it has switched to another thread and back, the flag is clear. */
  lemma FlagAfterBlock(s: State, c: nat, stay: bool)
    requires Ok(s) && c < |s.cores| && !s.cores[c].pc.Running? && Step(s, c, Advance(stay)).Went?
    requires var s' := Step(s, c, Advance(stay)).s; c < |s'.cores| && s'.cores[c].pc.Running?
    ensures var s', pc := Step(s, c, Advance(stay)).s, s.cores[c].pc;
      s'.cores[c].esp in s'.noPreempt <==> pc.Block? && pc.at == Pick && pc.call.Yield? && s.ready == []
  {
    var loc :| Inv(s, loc);
    assert CoreOk(s, c);
    if s.cores[c].pc.Block? { OnlyPickReturns(s, c); }
  }

  /** Of the stages of block only the pick can return. */
  lemma OnlyPickReturns(s: State, c: nat)
    requires c < |s.cores| && s.cores[c].pc.Block? && CoreOk(s, c) && OnBlock(s, c, s.cores[c]).Went?
    requires var s' := OnBlock(s, c, s.cores[c]).s; c < |s'.cores| && s'.cores[c].pc.Running?
    ensures var s', pc := OnBlock(s, c, s.cores[c]).s, s.cores[c].pc;
      s'.cores[c].esp in s'.noPreempt && pc.at == Pick && pc.call.Yield? && s.ready == []
  {
    match s.cores[c].pc.at
    case SetFlag =>
    case Restore =>
    case Pick =>
    case Publish =>
    case Switch =>
    case _ =>
  }

  /** The same on every run, from the state in which the kernel starts. */
  lemma FlagAfterBlockOnRuns(s: State, events: seq<(nat, Event)>, c: nat, stay: bool)
    requires Initial(s) && Run(s, events).Went? && c < |Run(s, events).s.cores|
    requires var r := Run(s, events).s;
      !r.cores[c].pc.Running? && Step(r, c, Advance(stay)).Went? && c < |Step(r, c, Advance(stay)).s.cores|
      && Step(r, c, Advance(stay)).s.cores[c].pc.Running?
    ensures var r := Run(s, events).s; var s', pc := Step(r, c, Advance(stay)).s, r.cores[c].pc;
      s'.cores[c].esp in s'.noPreempt <==> pc.Block? && pc.at == Pick && pc.call.Yield? && r.ready == []
  {
    InitialOk(s);
    RunIsSafe(s, events);
    FlagAfterBlock(Run(s, events).s, c, stay);
  }

  /** A yield that finds nothing ready does return, and from then on the timer does not preempt
      this thread. */
  lemma YieldAlone(s: State, c: nat)
    requires Ok(s) && c < |s.cores| && s.ready == []
    requires var p := s.cores[c].pc; p.Block? && p.at == Pick && p.call.Yield?
    ensures var s' := SetCore(s, c, s.cores[c].(pc := Running(s.cores[c].pc.irq)));
      && Step(s, c, Advance(true)) == Went(s') && s'.cores[c].active in s'.noPreempt
      && (s'.cores[c].on ==> Step(s', c, Timer) == Went(s'))
  {
    var loc :| Inv(s, loc);
    assert CoreOk(s, c);
  }

  /** A saved context stays as it was saved until it is restored, or its thread is deleted. */
  lemma ContextIsKept(s: State, c: nat, e: Event, t: Tcb)
    requires Ok(s) && c < |s.cores| && Step(s, c, e).Went? && t in s.ctx
    ensures var s' := Step(s, c, e).s;
      || (t in s'.ctx && s'.ctx[t] == s.ctx[t])
      || (|s'.cores| == |s.cores| && s'.cores[c].esp == t && s'.cores[c].pc.Switched? && s'.cores[c].pc.saved == s.ctx[t])
      || (t in s.hand && s.hand[t] == Held(s.cores[c].esp, true) && t !in s'.live)
  {
    var loc :| Inv(s, loc);
    assert CoreOk(s, c) && CtxOk(s, t);
    assert Placed(s, loc, t) || t.Idle?;
    if e.Advance? && s.cores[c].pc.Block? {
      BlockKeepsContext(s, c, t);
    } else {
      assert e.Spawn? ==> t != Work(s.nextId);
    }
  }

  lemma BlockKeepsContext(s: State, c: nat, t: Tcb)
    requires c < |s.cores| && s.cores[c].pc.Block? && CoreOk(s, c) && OnBlock(s, c, s.cores[c]).Went? && t in s.ctx
    ensures var s' := OnBlock(s, c, s.cores[c]).s;
      || (t in s'.ctx && s'.ctx[t] == s.ctx[t])
      || (|s'.cores| == |s.cores| && s'.cores[c].esp == t && s'.cores[c].pc.Switched? && s'.cores[c].pc.saved == s.ctx[t])
  {
  }

  /** The ready queue is served in order: an event leaves it alone, puts one thread at its end,
      or takes its first, which is then the next thread of that core. */
  lemma ReadyInOrder(s: State, c: nat, e: Event)
    requires c < |s.cores| && Step(s, c, e).Went?
    ensures var s' := Step(s, c, e).s;
      || s'.ready == s.ready
      || (exists t :: s'.ready == s.ready + [t])
      || (s.ready != [] && s'.ready == s.ready[1..] && c < |s'.cores| && Picked(s'.cores[c].pc) && s'.cores[c].pc.next == s.ready[0])
  {
    var k := s.cores[c];
    if e.Schedule? {
      assert Step(s, c, e).s.ready == s.ready + [e.t];
    } else if e.Advance? && k.pc.Switched? && k.pc.prev.Work? && Step(s, c, e).s.ready != s.ready {
      assert Step(s, c, e).s.ready == s.ready + [k.pc.prev];
    } else if e.Advance? && k.pc.Block? && k.pc.at == Pick && s.ready != [] {
      assert Step(s, c, e).s.ready == s.ready[1..];
    }
  }

  // ----- a thread that is parked -----

  /** A parked thread stays in its wait queue until another takes it as the first of the queue;
      meanwhile none of its own code runs, by OffCoreIsSaved. */
  lemma ParkedStays(s: State, c: nat, e: Event, t: Tcb, q: nat)
    requires Ok(s) && c < |s.cores| && Step(s, c, e).Went? && t in WaitQueue(s, q)
    ensures var s' := Step(s, c, e).s;
      || t in WaitQueue(s', q)
      || (e == TakeWaiting(q) && WaitQueue(s, q)[0] == t && t in s'.hand && s'.hand[t] == Held(s.cores[c].esp, false))
  {
    var s' := Step(s, c, e).s;
    if e.TakeWaiting? {
      assert e.q == q ==> WaitQueue(s, q) == [WaitQueue(s, q)[0]] + WaitQueue(s', q);
    } else if e.Advance? {
      QueuesGrow(s, c, e.stay, q);
    }
  }

  /** Nothing that block and the switch do takes a thread from a wait queue. */
  lemma QueuesGrow(s: State, c: nat, stay: bool, q: nat)
    requires c < |s.cores| && OnAdvance(s, c, s.cores[c], stay).Went?
    ensures WaitQueue(s, q) <= WaitQueue(OnAdvance(s, c, s.cores[c], stay).s, q)
  {
    if s.cores[c].pc.Block? { BlockKeepsQueues(s, c); }
  }

  lemma BlockKeepsQueues(s: State, c: nat)
    requires c < |s.cores| && s.cores[c].pc.Block? && OnBlock(s, c, s.cores[c]).Went?
    ensures OnBlock(s, c, s.cores[c]).s.waiting == s.waiting
  {
  }

  /** A thread taken from a queue stays in hand until its holder schedules it: then it is last in
      the ready queue. */
  lemma HeldStays(s: State, c: nat, e: Event, t: Tcb)
    requires Ok(s) && c < |s.cores| && Step(s, c, e).Went? && t in s.hand && !s.hand[t].doomed
    ensures var s' := Step(s, c, e).s;
      || (t in s'.hand && s'.hand[t] == s.hand[t])
      || (e == Schedule(t) && s.cores[c].esp == s.hand[t].holder && s'.ready == s.ready + [t])
  {
    var loc :| Inv(s, loc);
    if e.TakeWaiting? {
      if WaitQueue(s, e.q) != [] { NotInHand(s, loc, Waiting(e.q)); }
    } else if e.TakeZombie? {
      if s.zombies != [] { NotInHand(s, loc, Zombies); }
    } else if e.Spawn? {
      HeldIsInHand(s, loc, t);
      HeldExists(s, loc, t);
    } else if e.Timer? || e.Iret? || e.Advance? {
      OnlyRunningTakes(s, c, e, t);
    }
  }

  lemma HeldExists(s: State, loc: Locations, t: Tcb)
    requires Inv(s, loc) && t in s.hand
    ensures t != Work(s.nextId)
  {
    assert PlaceOk(s, loc, Hand(t));
    AtPlace(s, loc, Hand(t), 0);
    assert Placed(s, loc, t);
  }

  // ----- a thread that has stopped -----

  /** `t` existed and has stopped. */
  predicate Dead(s: State, t: Tcb)
  {
    t.Work? && t.id < s.nextId && (t in s.zombies || t !in s.live || (t in s.hand && s.hand[t].doomed))
  }

  lemma BlockTakesNone(s: State, c: nat)
    requires c < |s.cores| && s.cores[c].pc.Block? && OnBlock(s, c, s.cores[c]).Went?
    ensures var s' := OnBlock(s, c, s.cores[c]).s;
      s'.hand == s.hand && s'.live == s.live && s'.nextId == s.nextId && s'.zombies == s.zombies
  {
  }

  /** Inside block and in the timer handler no zombie is taken and nothing in hand changes. */
  lemma OnlyRunningTakes(s: State, c: nat, e: Event, t: Tcb)
    requires c < |s.cores| && Step(s, c, e).Went? && (e.Timer? || e.Iret? || e.Advance?)
    ensures var s' := Step(s, c, e).s;
      s'.hand == s.hand && s'.live == s.live && s'.nextId == s.nextId && (t in s.zombies ==> t in s'.zombies)
  {
    if e.Advance? && s.cores[c].pc.Block? { BlockTakesNone(s, c); }
  }

  lemma DeadStays(s: State, c: nat, e: Event, t: Tcb)
    requires Ok(s) && c < |s.cores| && Step(s, c, e).Went? && Dead(s, t)
    ensures Dead(Step(s, c, e).s, t)
  {
    if e.Timer? || e.Iret? || e.Advance? {
      OnlyRunningTakes(s, c, e, t);
    } else {
      DeadStaysRunning(s, Step(s, c, e).s, c, e, t);
    }
  }

  lemma DeadStaysRunning(s: State, s': State, c: nat, e: Event, t: Tcb)
    requires Ok(s) && c < |s.cores| && OnRunning(s, c, s.cores[c], e) == Went(s') && Dead(s, t)
    ensures Dead(s', t)
  {
    if e.TakeWaiting? {
      var loc :| Inv(s, loc);
      var w := WaitQueue(s, e.q);
      NotInHand(s, loc, Waiting(e.q));
      assert PlaceOk(s, loc, Waiting(e.q)) && PlaceOk(s, loc, Zombies);
      AtPlace(s, loc, Waiting(e.q), 0);
      assert t in s.live && t in s.hand ==> t != w[0];
    }
  }

  /** A thread that has stopped never executes again, whatever the run. */
  lemma {:induction false} DeadNeverRuns(s: State, events: seq<(nat, Event)>, t: Tcb, c: nat)
    requires Ok(s) && Dead(s, t) && Run(s, events).Went? && c < |Run(s, events).s.cores|
    ensures Dead(Run(s, events).s, t) && Run(s, events).s.cores[c].esp != t
  {
    RunIsSafe(s, events);
    DeadOnRun(s, events, t);
    DeadIsOffCore(Run(s, events).s, t, c);
  }

  lemma {:induction false} DeadOnRun(s: State, events: seq<(nat, Event)>, t: Tcb)
    requires Ok(s) && Dead(s, t) && Run(s, events).Went?
    ensures Dead(Run(s, events).s, t)
  {
    if events != [] {
      var before := events[..|events| - 1];
      RunIsSafe(s, before);
      DeadOnRun(s, before, t);
      var s1 := Run(s, before).s;
      var (c, e) := events[|events| - 1];
      if c < |s1.cores| && Step(s1, c, e).Went? {
        DeadStays(s1, c, e, t);
      }
    }
  }

  lemma DeadIsOffCore(s: State, t: Tcb, c: nat)
    requires Ok(s) && Dead(s, t) && c < |s.cores|
    ensures s.cores[c].esp != t
  {
    if t in s.zombies {
      var i :| 0 <= i < |At(s, Zombies)| && At(s, Zombies)[i] == t;
      OffCoreIsSaved(s, Zombies, i, c);
    } else if t !in s.live {
      if s.cores[c].esp.Work? { NoGhosts(s, OnCore(c), 0); }
    } else {
      OffCoreIsSaved(s, Hand(t), 0, c);
    }
  }
}
