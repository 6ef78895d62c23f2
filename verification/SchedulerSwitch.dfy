/** When an event can happen, and what one whole call of block comes to when no other core
    interferes. */
module SchedulerSwitch {
  import opened SchedulerSpec
  import opened SchedulerInv
  import opened SchedulerSteps
  import opened SchedulerSafety

  // ----- when events happen -----

  /** Inside block there is always a next step. */
  lemma BlockNeverSticks(s: State, c: nat, stay: bool)
    requires Ok(s) && c < |s.cores| && !s.cores[c].pc.Running?
    ensures Step(s, c, Advance(stay)).Went?
  {
    EventIsSafe(s, c, Advance(stay));
  }

  /** The timer gets through exactly when interrupts are on; it preempts exactly a thread that is
      not an idle one and whose no_preempt is clear, and otherwise changes nothing. */
  lemma TimerPreempts(s: State, c: nat)
    requires Ok(s) && c < |s.cores|
    ensures Step(s, c, Timer).Went? <==> s.cores[c].on
    ensures s.cores[c].on ==>
      var s', me := Step(s, c, Timer).s, s.cores[c].active;
      if me.Work? && me !in s.noPreempt
      then s'.cores == s.cores[c := Core(false, me, s.cores[c].esp, ReadMe(Yield, true, true))] && s' == s.(cores := s'.cores)
      else s' == s
    ensures s.cores[c].on && s.cores[c].active.Work? && s.cores[c].active !in s.noPreempt ==> s.cores[c].pc == Running(false)
  {
    EventIsSafe(s, c, Timer);
  }

  /** The event moves one thread from the head of `from` to the end of `to`, and nothing else. */
  ghost predicate Moves(s: State, s': State, from: Place, to: Place)
  {
    && At(s, from) != [] && At(s', from) == At(s, from)[1..] && At(s', to) == At(s, to) + [At(s, from)[0]]
    && s'.cores == s.cores && s'.ctx == s.ctx && s'.noPreempt == s.noPreempt && s'.live == s.live
    && forall p {:trigger SamePlace(s, s', p)} | p != from && p != to :: SamePlace(s, s', p)
  }

  /** A running thread can take from a wait queue or the zombies exactly if there is a thread in
      it, and schedule exactly what it holds: each moves one thread, first come first served. */
  lemma QueueEvents(s: State, c: nat, q: nat, t: Tcb)
    requires Ok(s) && c < |s.cores| && s.cores[c].pc == Running(false)
    ensures Step(s, c, TakeWaiting(q)).Went? <==> WaitQueue(s, q) != []
    ensures Step(s, c, TakeZombie).Went? <==> s.zombies != []
    ensures Step(s, c, Schedule(t)).Went? <==> t in s.hand && s.hand[t] == Held(s.cores[c].esp, false)
    ensures WaitQueue(s, q) != [] ==> Moves(s, Step(s, c, TakeWaiting(q)).s, Waiting(q), Hand(WaitQueue(s, q)[0]))
    ensures s.zombies != [] ==> Moves(s, Step(s, c, TakeZombie).s, Zombies, Hand(s.zombies[0]))
    ensures Step(s, c, Schedule(t)).Went? ==> Moves(s, Step(s, c, Schedule(t)).s, Hand(t), Ready)
  {
    if WaitQueue(s, q) != [] { TakenIsHeld(s, c, q); }
    if s.zombies != [] { ZombieIsHeld(s, c); }
    if Step(s, c, Schedule(t)).Went? { ScheduledIsReady(s, c, t); }
  }

  lemma TakenIsHeld(s: State, c: nat, q: nat)
    requires Ok(s) && c < |s.cores| && s.cores[c].pc == Running(false) && WaitQueue(s, q) != []
    ensures Step(s, c, TakeWaiting(q)).Went?
    ensures Moves(s, Step(s, c, TakeWaiting(q)).s, Waiting(q), Hand(WaitQueue(s, q)[0]))
  {
    var loc :| Inv(s, loc);
    NotInHand(s, loc, Waiting(q));
    var s' := Step(s, c, TakeWaiting(q)).s;
    forall p | p != Waiting(q) && p != Hand(WaitQueue(s, q)[0]) ensures SamePlace(s, s', p) {
    }
  }

  lemma ZombieIsHeld(s: State, c: nat)
    requires Ok(s) && c < |s.cores| && s.cores[c].pc == Running(false) && s.zombies != []
    ensures Step(s, c, TakeZombie).Went? && Moves(s, Step(s, c, TakeZombie).s, Zombies, Hand(s.zombies[0]))
  {
    var loc :| Inv(s, loc);
    NotInHand(s, loc, Zombies);
    var s' := Step(s, c, TakeZombie).s;
    forall p | p != Zombies && p != Hand(s.zombies[0]) ensures SamePlace(s, s', p) {
    }
  }

  lemma ScheduledIsReady(s: State, c: nat, t: Tcb)
    requires c < |s.cores| && s.cores[c].pc == Running(false) && t in s.hand && s.hand[t] == Held(s.cores[c].esp, false)
    ensures Step(s, c, Schedule(t)).Went? && Moves(s, Step(s, c, Schedule(t)).s, Hand(t), Ready)
  {
    var s' := Step(s, c, Schedule(t)).s;
    forall p | p != Hand(t) && p != Ready ensures SamePlace(s, s', p) {
    }
  }

  /** A running thread can always make a thread: it is a new one, held by its maker, and starts
      with interrupts on and its no_preempt clear.  It can delete exactly the zombies it holds. */
  lemma ThreadsComeAndGo(s: State, c: nat, t: Tcb)
    requires Ok(s) && c < |s.cores| && s.cores[c].pc == Running(false)
    ensures var n := Work(s.nextId);
      && n !in s.live && Step(s, c, Spawn).Went?
      && var s' := Step(s, c, Spawn).s;
      s'.live == s.live + {n} && n in s'.hand && s'.hand[n] == Held(s.cores[c].esp, false)
      && n in s'.ctx && s'.ctx[n] == Ctx(true, false) && n !in s'.noPreempt && s'.cores == s.cores && s'.ready == s.ready
    ensures Step(s, c, Delete(t)).Went? <==> t in s.hand && s.hand[t] == Held(s.cores[c].esp, true)
    ensures Step(s, c, Delete(t)).Went? ==> Step(s, c, Delete(t)).s.live == s.live - {t}
  {
    var loc :| Inv(s, loc);
    assert Work(s.nextId) in s.live ==> Placed(s, loc, Work(s.nextId));
  }

  /** A running thread can call block, an idle one only to stop and with interrupts on; block
      begins by turning them off. */
  lemma BlockIsCalled(s: State, c: nat, call: Call)
    requires c < |s.cores| && s.cores[c].pc == Running(false)
    ensures Step(s, c, Enter(call)).Went? <==> s.cores[c].esp.Work? || (!call.Park? && s.cores[c].on)
    ensures Step(s, c, Enter(call)).Went? ==>
      var k := s.cores[c];
      Step(s, c, Enter(call)).s == SetCore(s, c, Core(false, k.active, k.esp, ReadMe(call, false, !k.on)))
  {
  }

  /** The end of the timer handler turns interrupts on and goes on with the thread. */
  lemma HandlerEnds(s: State, c: nat)
    requires Ok(s) && c < |s.cores|
    ensures Step(s, c, Iret).Went? <==> s.cores[c].pc == Running(true)
    ensures Step(s, c, Iret).Went? ==>
      var k := s.cores[c];
      !k.on && Step(s, c, Iret).s == SetCore(s, c, Core(true, k.active, k.esp, Running(false)))
  {
    var loc :| Inv(s, loc);
    assert CoreOk(s, c);
  }

  // ----- one whole call of block -----

  /** Core `c` takes `n` steps of block, and no other core any. */
  ghost function Steps(s: State, c: nat, stay: bool, n: nat): Outcome
    decreases n
  {
    if n == 0 then Went(s)
    else if c >= |s.cores| then Refused
    else
      match Step(s, c, Advance(stay))
      case Went(s1) => Steps(s1, c, stay, n - 1)
      case other => other
  }

  /** Core `c` comes from `s` to `s'` when no other core interferes. */
  ghost predicate Comes(s: State, c: nat, stay: bool, s': State)
  {
    exists n: nat :: Steps(s, c, stay, n) == Went(s')
  }

  lemma FirstOfSteps(s: State, c: nat, stay: bool, n: nat, o: Outcome)
    requires c < |s.cores| && n > 0 && o == Step(s, c, Advance(stay))
    ensures Steps(s, c, stay, n) == if o.Went? then Steps(o.s, c, stay, n - 1) else o
  {
  }

  lemma {:induction false} StepsThen(s: State, c: nat, stay: bool, m: nat, n: nat, s1: State)
    requires Steps(s, c, stay, m) == Went(s1)
    ensures Steps(s, c, stay, m + n) == Steps(s1, c, stay, n)
    decreases m
  {
    if m > 0 {
      var o := Step(s, c, Advance(stay));
      FirstOfSteps(s, c, stay, m, o);
      FirstOfSteps(s, c, stay, m + n, o);
      StepsThen(o.s, c, stay, m - 1, n, s1);
    }
  }

  lemma ComesThen(s: State, c: nat, stay: bool, s1: State, s2: State)
    requires Comes(s, c, stay, s1) && Comes(s1, c, stay, s2)
    ensures Comes(s, c, stay, s2)
  {
    var m: nat :| Steps(s, c, stay, m) == Went(s1);
    var n: nat :| Steps(s1, c, stay, n) == Went(s2);
    StepsThen(s, c, stay, m, n, s1);
  }

  /** One step, and what comes after it. */
  lemma StepComes(s: State, c: nat, stay: bool, s1: State, s2: State)
    requires c < |s.cores| && Step(s, c, Advance(stay)) == Went(s1) && (s1 == s2 || Comes(s1, c, stay, s2))
    ensures Comes(s, c, stay, s2)
  {
    assert Steps(s1, c, stay, 0) == Went(s1);
    var n: nat :| Steps(s1, c, stay, n) == Went(s2);
    assert Steps(s, c, stay, n + 1) == Went(s2);
  }

  /** The state `s` with core `c`, the flags, the contexts and the ready queue replaced. */
  function With(s: State, c: nat, k: Core, flags: set<Tcb>, ctx: map<Tcb, Ctx>, ready: seq<Tcb>): State
    requires c < |s.cores|
  {
    s.(cores := s.cores[c := k], noPreempt := flags, ctx := ctx, ready := ready)
  }

  /** The thread that a call of block switches to, and what is left in the ready queue. */
  predicate Target(s: State, c: nat, t: Tcb, rest: seq<Tcb>)
    requires c < |s.cores| && s.cores[c].pc.ReadMe?
  {
    if s.ready != [] then t == s.ready[0] && rest == s.ready[1..]
    else rest == [] && t == Idle(c) && s.cores[c].esp.Work? && !s.cores[c].pc.call.Yield?
  }

  lemma TargetIsSaved(s: State, c: nat, t: Tcb, rest: seq<Tcb>)
    requires Ok(s) && c < |s.cores| && s.cores[c].pc.ReadMe? && Target(s, c, t, rest)
    ensures t in s.ctx && t != s.cores[c].esp && s.cores[c].active == s.cores[c].esp && !s.cores[c].on
  {
    var loc :| Inv(s, loc);
    assert CoreOk(s, c);
    if s.ready != [] {
      assert PlaceOk(s, loc, Ready);
      OffCoreIsSaved(s, Ready, 0, c);
    }
  }

  /** From the call to the pick. */
  lemma ToPick(s: State, c: nat, stay: bool, call: Call, irq: bool, was: bool, me: Tcb)
    requires c < |s.cores| && s.cores[c] == Core(false, me, me, ReadMe(call, irq, was))
    ensures Comes(s, c, stay,
               With(s, c, Core(!was, me, me, Block(Pick, call, irq, was, c, me, me)), s.noPreempt + {me}, s.ctx, s.ready))
  {
    var s1 := With(s, c, Core(false, me, me, Block(SetFlag, call, irq, was, c, me, me)), s.noPreempt, s.ctx, s.ready);
    var s2 := With(s, c, Core(false, me, me, Block(Restore, call, irq, was, c, me, me)), s.noPreempt + {me}, s.ctx, s.ready);
    var s3 := With(s, c, Core(!was, me, me, Block(Pick, call, irq, was, c, me, me)), s.noPreempt + {me}, s.ctx, s.ready);
    StepComes(s2, c, stay, s3, s3);
    StepComes(s1, c, stay, s2, s3);
    StepComes(s, c, stay, s1, s3);
  }

  /** The pick. */
  lemma PickTarget(s: State, c: nat, stay: bool, call: Call, irq: bool, was: bool, me: Tcb, flags: set<Tcb>, t: Tcb, rest: seq<Tcb>)
    requires c < |s.cores| && s.cores[c] == Core(!was, me, me, Block(Pick, call, irq, was, c, me, me)) && s.noPreempt == flags
    requires if s.ready != [] then t == s.ready[0] && rest == s.ready[1..]
             else rest == [] && t == Idle(c) && me.Work? && !call.Yield?
    ensures Comes(s, c, stay,
               With(s, c, Core(!was, me, me, Block(FlagNext, call, irq, was, c, me, t)), flags, s.ctx, rest))
  {
    var s1 := With(s, c, Core(!was, me, me, Block(FlagNext, call, irq, was, c, me, t)), flags, s.ctx, rest);
    StepComes(s, c, stay, s1, s1);
  }

  /** The target's flag, and activeThreads. */
  lemma ToSave(s: State, c: nat, stay: bool, call: Call, irq: bool, was: bool, me: Tcb, t: Tcb)
    requires c < |s.cores| && s.cores[c] == Core(!was, me, me, Block(FlagNext, call, irq, was, c, me, t))
    ensures Comes(s, c, stay,
               With(s, c, Core(!was, t, me, Block(Save, call, irq, was, c, me, t)), s.noPreempt + {t}, s.ctx, s.ready))
  {
    var flags := s.noPreempt + {t};
    var s1 := With(s, c, Core(!was, me, me, Block(Publish, call, irq, was, c, me, t)), flags, s.ctx, s.ready);
    var s2 := With(s, c, Core(!was, t, me, Block(Save, call, irq, was, c, me, t)), flags, s.ctx, s.ready);
    StepComes(s1, c, stay, s2, s2);
    StepComes(s, c, stay, s1, s2);
  }

  /** The context is saved, and interrupts are masked. */
  lemma ToClear(s: State, c: nat, stay: bool, call: Call, irq: bool, was: bool, me: Tcb, t: Tcb)
    requires c < |s.cores| && s.cores[c] == Core(!was, t, me, Block(Save, call, irq, was, c, me, t))
    ensures Comes(s, c, stay,
               With(s, c, Core(false, t, me, Block(ClearMe, call, irq, was, c, me, t)), s.noPreempt,
                      s.ctx[me := Ctx(!was, irq)], s.ready))
  {
    var ctx := s.ctx[me := Ctx(!was, irq)];
    var s1 := With(s, c, Core(!was, t, me, Block(Mask, call, irq, was, c, me, t)), s.noPreempt, ctx, s.ready);
    var s2 := With(s, c, Core(false, t, me, Block(ClearMe, call, irq, was, c, me, t)), s.noPreempt, ctx, s.ready);
    StepComes(s1, c, stay, s2, s2);
    StepComes(s, c, stay, s1, s2);
  }

  /** Both flags are cleared. */
  lemma ToSwitch(s: State, c: nat, stay: bool, call: Call, irq: bool, was: bool, me: Tcb, t: Tcb)
    requires c < |s.cores| && s.cores[c] == Core(false, t, me, Block(ClearMe, call, irq, was, c, me, t))
    ensures Comes(s, c, stay,
               With(s, c, Core(false, t, me, Block(Switch, call, irq, was, c, me, t)), s.noPreempt - {me} - {t}, s.ctx, s.ready))
  {
    var s1 := With(s, c, Core(false, t, me, Block(ClearNext, call, irq, was, c, me, t)), s.noPreempt - {me}, s.ctx, s.ready);
    var s2 := With(s, c, Core(false, t, me, Block(Switch, call, irq, was, c, me, t)), s.noPreempt - {me} - {t}, s.ctx, s.ready);
    StepComes(s1, c, stay, s2, s2);
    StepComes(s, c, stay, s1, s2);
  }

  /** The queues after the callback: the thread that was switched out is last in the one its call
      names. */
  function PutAway(s: State, call: Call, prev: Tcb, stay: bool): State
  {
    var last := IfWork(prev);
    s.(ready := s.ready + (if call.Yield? || (call.Park? && !stay) then last else []),
       zombies := s.zombies + (if call.Stop? then last else []),
       waiting := if call.Park? && stay && prev.Work? then s.waiting[call.q := WaitQueue(s, call.q) + last] else s.waiting)
  }

  /** The switch of stacks, the callback and the return. */
  lemma ToReturn(s: State, c: nat, stay: bool, call: Call, irq: bool, was: bool, me: Tcb, t: Tcb)
    requires c < |s.cores| && s.cores[c] == Core(false, t, me, Block(Switch, call, irq, was, c, me, t)) && t in s.ctx
    ensures Comes(s, c, stay,
               PutAway(With(s, c, Core(s.ctx[t].flag, t, t, Running(s.ctx[t].irq)), s.noPreempt, s.ctx - {t}, s.ready),
                         call, me, stay))
  {
    var saved, ctx := s.ctx[t], s.ctx - {t};
    var s1 := With(s, c, Core(false, t, t, Switched(call, me, saved)), s.noPreempt, ctx, s.ready);
    var s2 := PutAway(With(s, c, Core(false, t, t, Return(saved)), s.noPreempt, ctx, s.ready), call, me, stay);
    var s3 := PutAway(With(s, c, Core(saved.flag, t, t, Running(saved.irq)), s.noPreempt, ctx, s.ready), call, me, stay);
    StepComes(s2, c, stay, s3, s3);
    StepComes(s1, c, stay, s2, s3);
    StepComes(s, c, stay, s1, s3);
  }

  lemma ToPublished(s: State, c: nat, stay: bool, call: Call, irq: bool, was: bool, me: Tcb, t: Tcb, rest: seq<Tcb>)
    requires c < |s.cores| && s.cores[c] == Core(false, me, me, ReadMe(call, irq, was))
    requires if s.ready != [] then t == s.ready[0] && rest == s.ready[1..]
             else rest == [] && t == Idle(c) && me.Work? && !call.Yield?
    ensures Comes(s, c, stay,
               With(s, c, Core(!was, t, me, Block(Save, call, irq, was, c, me, t)), s.noPreempt + {me} + {t}, s.ctx, rest))
  {
    var flags := s.noPreempt + {me};
    ToPick(s, c, stay, call, irq, was, me);
    var s3 := With(s, c, Core(!was, me, me, Block(Pick, call, irq, was, c, me, me)), flags, s.ctx, s.ready);
    PickTarget(s3, c, stay, call, irq, was, me, flags, t, rest);
    var s4 := With(s, c, Core(!was, me, me, Block(FlagNext, call, irq, was, c, me, t)), flags, s.ctx, rest);
    ToSave(s4, c, stay, call, irq, was, me, t);
    var s6 := With(s, c, Core(!was, t, me, Block(Save, call, irq, was, c, me, t)), flags + {t}, s.ctx, rest);
    ComesThen(s3, c, stay, s4, s6);
    ComesThen(s, c, stay, s3, s6);
  }

  lemma FromPublished(s: State, c: nat, stay: bool, call: Call, irq: bool, was: bool, me: Tcb, t: Tcb)
    requires c < |s.cores| && s.cores[c] == Core(!was, t, me, Block(Save, call, irq, was, c, me, t)) && t in s.ctx && t != me
    ensures Comes(s, c, stay,
               PutAway(With(s, c, Core(s.ctx[t].flag, t, t, Running(s.ctx[t].irq)), s.noPreempt - {me} - {t},
                              s.ctx[me := Ctx(!was, irq)] - {t}, s.ready), call, me, stay))
  {
    var ctx := s.ctx[me := Ctx(!was, irq)];
    ToClear(s, c, stay, call, irq, was, me, t);
    var s2 := With(s, c, Core(false, t, me, Block(ClearMe, call, irq, was, c, me, t)), s.noPreempt, ctx, s.ready);
    ToSwitch(s2, c, stay, call, irq, was, me, t);
    var s4 := With(s, c, Core(false, t, me, Block(Switch, call, irq, was, c, me, t)), s.noPreempt - {me} - {t}, ctx, s.ready);
    ToReturn(s4, c, stay, call, irq, was, me, t);
    var s7 := PutAway(With(s, c, Core(s.ctx[t].flag, t, t, Running(s.ctx[t].irq)), s.noPreempt - {me} - {t}, ctx - {t}, s.ready),
                      call, me, stay);
    ComesThen(s2, c, stay, s4, s7);
    ComesThen(s, c, stay, s2, s7);
  }

  /** One whole call of block, when no other core interferes and there is a thread to switch to:
      it comes to run the first ready thread, or its idle thread if there is
      none, with the interrupt flag and in the place in which that thread was switched out; the
      caller has its context saved with the flag and the place of its call and is last in the queue
      its call names; both flags are clear; and nothing else has changed. */
  lemma BlockSwitches(s: State, c: nat, stay: bool, t: Tcb, rest: seq<Tcb>)
    requires Ok(s) && c < |s.cores| && s.cores[c].pc.ReadMe? && Target(s, c, t, rest)
    ensures t in s.ctx && t != s.cores[c].esp
    ensures var me, pc := s.cores[c].esp, s.cores[c].pc;
      Comes(s, c, stay,
            PutAway(With(s, c, Core(s.ctx[t].flag, t, t, Running(s.ctx[t].irq)), s.noPreempt - {me} - {t},
                         s.ctx[me := Ctx(!pc.was, pc.irq)] - {t}, rest),
                    pc.call, me, stay))
  {
    TargetIsSaved(s, c, t, rest);
    var me, call, irq, was := s.cores[c].esp, s.cores[c].pc.call, s.cores[c].pc.irq, s.cores[c].pc.was;
    ToPublished(s, c, stay, call, irq, was, me, t, rest);
    var s6 := With(s, c, Core(!was, t, me, Block(Save, call, irq, was, c, me, t)), s.noPreempt + {me} + {t}, s.ctx, rest);
    FromPublished(s6, c, stay, call, irq, was, me, t);
    assert s.noPreempt + {me} + {t} - {me} - {t} == s.noPreempt - {me} - {t};
    ComesThen(s, c, stay, s6,
              PutAway(With(s, c, Core(s.ctx[t].flag, t, t, Running(s.ctx[t].irq)), s.noPreempt - {me} - {t},
                           s.ctx[me := Ctx(!was, irq)] - {t}, rest), call, me, stay));
  }
}
