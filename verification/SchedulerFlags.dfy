/** Interrupt flags across block: a thread leaves block as it entered it, on every run, however
    many switches lie between. */
module SchedulerFlags {
  import opened SchedulerSpec
  import opened SchedulerInv
  import opened SchedulerSteps
  import opened SchedulerSafety

  /** For each thread, the interrupt flag and the place (timer handler or thread) with which it
      last entered block; a new thread counts as having entered with interrupts on. */
  type Entered = map<Tcb, Ctx>

  /** The core enters block with this event. */
  ghost predicate Enters(s: State, s': State, c: nat)
    requires c < |s.cores|
  {
    c < |s'.cores| && s.cores[c].pc.Running? && s'.cores[c].pc.ReadMe?
  }

  /** What is noted of an event that leads from `s` to `s'`: the timer handler runs with interrupts
      off. */
  ghost function Noted(s: State, s': State, c: nat, e: Event, ent: Entered): Entered
    requires c < |s.cores|
  {
    if Enters(s, s', c) then ent[s.cores[c].esp := Ctx(s.cores[c].on && !e.Timer?, e.Timer?)]
    else if e.Spawn? then ent[Work(s.nextId) := Ctx(true, false)]
    else ent
  }

  ghost predicate CoreNoted(k: Core, ent: Entered)
  {
    match k.pc
    case Running(_) => true
    case ReadMe(_, irq, was) => k.esp in ent && ent[k.esp] == Ctx(!was, irq)
    case Block(_, _, irq, was, _, _, _) => k.esp in ent && ent[k.esp] == Ctx(!was, irq)
    case Switched(_, _, saved) => k.esp in ent && ent[k.esp] == saved
    case Return(saved) => k.esp in ent && ent[k.esp] == saved
  }

  ghost predicate CtxNoted(s: State, ent: Entered, t: Tcb)
    requires t in s.ctx
  {
    t in ent && ent[t] == s.ctx[t]
  }

  ghost predicate AllNoted(s: State, ent: Entered)
  {
    && (forall c: nat {:trigger s.cores[c]} | c < |s.cores| :: CoreNoted(s.cores[c], ent))
    && (forall t {:trigger CtxNoted(s, ent, t)} | t in s.ctx :: CtxNoted(s, ent, t))
  }

  // ----- one event -----

  /** Inside block nothing is noted, and what the core and the contexts know stays true. */
  lemma AdvanceNoted(s: State, s': State, c: nat, stay: bool, ent: Entered)
    requires Ok(s) && c < |s.cores| && AllNoted(s, ent) && Step(s, c, Advance(stay)) == Went(s')
    ensures AllNoted(s', ent)
  {
    var loc :| Inv(s, loc);
    assert CoreOk(s, c);
    if s.cores[c].pc.Block? {
      BlockNoted(s, s', c, ent);
    } else {
      forall t | t in s'.ctx ensures CtxNoted(s', ent, t) { assert CtxNoted(s, ent, t); }
    }
  }

  lemma BlockNoted(s: State, s': State, c: nat, ent: Entered)
    requires c < |s.cores| && s.cores[c].pc.Block? && CoreOk(s, c) && AllNoted(s, ent)
    requires OnBlock(s, c, s.cores[c]) == Went(s')
    ensures AllNoted(s', ent)
  {
    BlockOneCore(s, s', c);
    BlockCoreNoted(s, s', c, ent);
    forall t | t in s'.ctx ensures CtxNoted(s', ent, t) {
      BlockCtxNoted(s, s', c, ent, t);
    }
  }

  /** A stage other than the switch keeps the thread, the place and the saved answer of
      Interrupts::disable, unless it returns. */
  lemma StageKeeps(s: State, s': State, c: nat)
    requires c < |s.cores| && s.cores[c].pc.Block? && s.cores[c].pc.coreId == c && s.cores[c].pc.at != Switch
    requires OnBlock(s, c, s.cores[c]) == Went(s')
    ensures |s'.cores| == |s.cores| && s'.cores[c].esp == s.cores[c].esp
    ensures var p, p' := s.cores[c].pc, s'.cores[c].pc; p'.Running? || (p'.Block? && p'.irq == p.irq && p'.was == p.was)
  {
    match s.cores[c].pc.at
    case Pick =>
    case Publish =>
      var k := s.cores[c];
      assert s'.cores == s.cores[c := k.(pc := k.pc.(at := Save), active := k.pc.next)];
    case _ =>
  }

  /** The switch hands the saved context on. */
  lemma SwitchKeeps(s: State, s': State, c: nat)
    requires c < |s.cores| && s.cores[c].pc.Block? && s.cores[c].pc.at == Switch && OnBlock(s, c, s.cores[c]) == Went(s')
    ensures |s'.cores| == |s.cores| && s.cores[c].pc.next in s.ctx
    ensures var p, k' := s.cores[c].pc, s'.cores[c]; k'.esp == p.next && k'.pc == Switched(p.call, p.me, s.ctx[p.next])
  {
  }

  lemma BlockCoreNoted(s: State, s': State, c: nat, ent: Entered)
    requires c < |s.cores| && s.cores[c].pc.Block? && s.cores[c].pc.coreId == c && AllNoted(s, ent)
    requires OnBlock(s, c, s.cores[c]) == Went(s')
    ensures c < |s'.cores| && CoreNoted(s'.cores[c], ent)
  {
    assert CoreNoted(s.cores[c], ent);
    if s.cores[c].pc.at == Switch {
      SwitchKeeps(s, s', c);
      assert CtxNoted(s, ent, s.cores[c].pc.next);
    } else {
      StageKeeps(s, s', c);
    }
  }

  lemma BlockCtxNoted(s: State, s': State, c: nat, ent: Entered, t: Tcb)
    requires c < |s.cores| && s.cores[c].pc.Block? && CoreOk(s, c) && AllNoted(s, ent)
    requires OnBlock(s, c, s.cores[c]) == Went(s') && t in s'.ctx
    ensures CtxNoted(s', ent, t)
  {
    assert CoreNoted(s.cores[c], ent);
    assert t in s.ctx ==> CtxNoted(s, ent, t);
  }

  lemma BlockOneCore(s: State, s': State, c: nat)
    requires c < |s.cores| && s.cores[c].pc.Block? && CoreOk(s, c) && OnBlock(s, c, s.cores[c]) == Went(s')
    ensures OnlyCore(s, s', c)
  {
  }

  /** Entering block: no other core uses the thread's stack, and it has no saved context. */
  lemma EntryNoted(s: State, s': State, c: nat, e: Event, ent: Entered)
    requires Ok(s) && c < |s.cores| && AllNoted(s, ent) && Step(s, c, e) == Went(s') && Enters(s, s', c)
    ensures AllNoted(s', Noted(s, s', c, e, ent))
  {
    var loc :| Inv(s, loc);
    assert CoreOk(s, c);
    var ent' := Noted(s, s', c, e, ent);
    forall t | t in s'.ctx ensures CtxNoted(s', ent', t) { assert CtxNoted(s, ent, t); }
    forall d: nat | d < |s'.cores| ensures CoreNoted(s'.cores[d], ent') {
      if d != c { OneStackEach(s, c, d); }
    }
  }

  /** A new thread is on no core. */
  lemma SpawnNoted(s: State, s': State, c: nat, ent: Entered)
    requires Ok(s) && c < |s.cores| && AllNoted(s, ent) && Step(s, c, Spawn) == Went(s')
    ensures AllNoted(s', ent[Work(s.nextId) := Ctx(true, false)])
  {
    var loc :| Inv(s, loc);
    var t := Work(s.nextId);
    forall u | u in s'.ctx ensures CtxNoted(s', ent[t := Ctx(true, false)], u) {
      assert u != t ==> CtxNoted(s, ent, u);
    }
    forall d: nat | d < |s.cores| ensures s.cores[d].esp != t {
      CoreThreads(s, loc, d);
      assert s.cores[d].esp.Work? ==> Placed(s, loc, s.cores[d].esp);
    }
  }

  lemma OtherNoted(s: State, s': State, c: nat, e: Event, ent: Entered)
    requires c < |s.cores| && AllNoted(s, ent) && Step(s, c, e) == Went(s')
    requires !e.Advance? && !e.Spawn? && !Enters(s, s', c)
    ensures AllNoted(s', ent)
  {
    forall t | t in s'.ctx ensures CtxNoted(s', ent, t) { assert CtxNoted(s, ent, t); }
  }

  lemma StepNoted(s: State, s': State, c: nat, e: Event, ent: Entered)
    requires Ok(s) && c < |s.cores| && AllNoted(s, ent) && Step(s, c, e) == Went(s')
    ensures AllNoted(s', Noted(s, s', c, e, ent))
  {
    if Enters(s, s', c) {
      EntryNoted(s, s', c, e, ent);
    } else if e.Spawn? {
      SpawnNoted(s, s', c, ent);
    } else if e.Advance? {
      AdvanceNoted(s, s', c, e.stay, ent);
    } else {
      OtherNoted(s, s', c, e, ent);
    }
  }

  // ----- runs -----

  ghost function EnteredOn(s: State, events: seq<(nat, Event)>): Entered
  {
    if events == [] then map[]
    else
      var before := events[..|events| - 1];
      var (c, e) := events[|events| - 1];
      var ent := EnteredOn(s, before);
      match Run(s, before)
      case Went(s1) =>
        if c < |s1.cores| && Step(s1, c, e).Went? then Noted(s1, Step(s1, c, e).s, c, e, ent) else ent
      case _ => ent
  }

  lemma {:induction false} RunNoted(s: State, events: seq<(nat, Event)>)
    requires Initial(s)
    ensures Run(s, events).Went? && Ok(Run(s, events).s) && AllNoted(Run(s, events).s, EnteredOn(s, events))
  {
    InitialOk(s);
    RunIsSafe(s, events);
    if events != [] {
      var before := events[..|events| - 1];
      var (c, e) := events[|events| - 1];
      RunNoted(s, before);
      var s1 := Run(s, before).s;
      if c < |s1.cores| && Step(s1, c, e).Went? {
        StepNoted(s1, Step(s1, c, e).s, c, e, EnteredOn(s, before));
      }
    }
  }

  /** The core leaves block with this event. */
  ghost predicate Leaves(s: State, s': State, c: nat)
    requires c < |s.cores|
  {
    c < |s'.cores| && !s.cores[c].pc.Running? && s'.cores[c].pc.Running?
  }

  lemma LeavesAsNoted(s: State, s': State, c: nat, e: Event, ent: Entered)
    requires Ok(s) && c < |s.cores| && AllNoted(s, ent) && Step(s, c, e) == Went(s') && Leaves(s, s', c)
    ensures var k := s'.cores[c]; k.esp in ent && Ctx(k.on, k.pc.irq) == ent[k.esp]
  {
    var loc :| Inv(s, loc);
    assert CoreOk(s, c) && CoreNoted(s.cores[c], ent);
    if e.Advance? && s.cores[c].pc.Block? { OnlyPickReturns(s, c); }
  }

  /** On every run: when a core leaves block, the thread it goes on with has the interrupt flag,
      and is in the place, with which that very thread entered block, be it by a switch or by a
      yield that returns at once; a thread never run before starts with interrupts on. */
  lemma ReturnsAsEntered(s: State, events: seq<(nat, Event)>, c: nat, e: Event)
    requires Initial(s) && Run(s, events).Went? && c < |Run(s, events).s.cores|
    requires var r := Run(s, events).s; Step(r, c, e).Went? && Leaves(r, Step(r, c, e).s, c)
    ensures var k := Step(Run(s, events).s, c, e).s.cores[c];
      k.esp in EnteredOn(s, events) && Ctx(k.on, k.pc.irq) == EnteredOn(s, events)[k.esp]
  {
    RunNoted(s, events);
    var r := Run(s, events).s;
    LeavesAsNoted(r, Step(r, c, e).s, c, e, EnteredOn(s, events));
  }
}
