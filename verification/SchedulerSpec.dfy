/** The block protocol of the scheduler as a machine over cores, one instruction group at a
    time: the stages of block and of the context switch, timer interrupts between any two of
    them, and the queue operations of running threads. */
module SchedulerSpec {

  /** The idle thread of a core, or a thread with its own stack. */
  datatype Tcb = Idle(core: nat) | Work(id: nat)

  /** What block was called for: yield, stop, or parking in wait queue `q` (Semaphore::down and
      Condition::wait). */
  datatype Call = Yield | Stop | Park(q: nat)

  /** The next thing a core does inside block, after the local variables are set. */
  datatype Stage = SetFlag | Restore | Pick | FlagNext | Publish | Save | Mask | ClearMe | ClearNext | Switch

  /** `irq`: inside the timer handler.  `was`: the saved answer of Interrupts::disable. */
  datatype Phase =
    | Running(irq: bool)
    | ReadMe(call: Call, irq: bool, was: bool)
    | Block(at: Stage, call: Call, irq: bool, was: bool, coreId: nat, me: Tcb, next: Tcb)
    | Switched(call: Call, prev: Tcb, saved: Ctx)
    | Return(saved: Ctx)

  /** A suspended context: the interrupt flag popf will restore, and whether the thread was
      switched out inside the timer handler. */
  datatype Ctx = Ctx(flag: bool, irq: bool)

  /** `on`: the interrupt flag.  `active`: the core's entry in activeThreads.  `esp`: the thread
      whose stack the core uses. */
  datatype Core = Core(on: bool, active: Tcb, esp: Tcb, pc: Phase)

  /** Who holds, in a local variable, a thread it has made or taken from a queue; `doomed` if
      the thread is being deleted. */
  datatype Held = Held(holder: Tcb, doomed: bool)

  datatype State = State(
    cores: seq<Core>,
    ready: seq<Tcb>,
    zombies: seq<Tcb>,
    waiting: map<nat, seq<Tcb>>,
    hand: map<Tcb, Held>,
    ctx: map<Tcb, Ctx>,
    noPreempt: set<Tcb>,
    live: set<Tcb>,
    nextId: nat)

  /** The events of one core.  `stay`: whether the callback of Park finds that it must really
      wait (Condition::wait schedules the thread at once when the epoch has moved on). */
  datatype Event =
    | Timer
    | Iret
    | SetInterrupts(on: bool)
    | Enter(call: Call)
    | Advance(stay: bool)
    | TakeWaiting(q: nat)
    | Schedule(t: Tcb)
    | Spawn
    | TakeZombie
    | Delete(t: Tcb)

  /** A refused event is one the core cannot do now.  Broken: a failed ASSERT, a context
      switch to a thread with no saved context, or a preemption inside a context switch. */
  datatype Outcome = Went(s: State) | Refused | Broken

  function WaitQueue(s: State, q: nat): seq<Tcb>
  {
    if q in s.waiting then s.waiting[q] else []
  }

  function SetCore(s: State, c: nat, k: Core): State
    requires c < |s.cores|
  {
    s.(cores := s.cores[c := k])
  }

  function Step(s: State, c: nat, e: Event): Outcome
    requires c < |s.cores|
  {
    var k := s.cores[c];
    match e
    case Timer => if k.on then OnTimer(s, c, k) else Refused
    case Iret => if k.pc == Running(true) then Went(SetCore(s, c, k.(on := true, pc := Running(false)))) else Refused
    case Advance(stay) => OnAdvance(s, c, k, stay)
    case _ => if k.pc == Running(false) then OnRunning(s, c, k, e) else Refused
  }

  /** apitHandler, entered with interrupts off; its yield begins with Interrupts::protect. */
  function OnTimer(s: State, c: nat, k: Core): Outcome
    requires c < |s.cores|
  {
    if k.active.Idle? || k.active in s.noPreempt then Went(s)
    else if k.pc == Running(false) then Went(SetCore(s, c, k.(on := false, pc := ReadMe(Yield, true, true))))
    else Broken
  }

  /** What a thread does outside block. */
  function OnRunning(s: State, c: nat, k: Core, e: Event): Outcome
    requires c < |s.cores|
  {
    match e
    case SetInterrupts(on) => Went(SetCore(s, c, k.(on := on)))
    case Enter(call) =>
      if k.esp.Idle? && (call.Park? || !k.on) then Refused
      else Went(SetCore(s, c, k.(on := false, pc := ReadMe(call, false, !k.on))))
    case TakeWaiting(q) =>
      var w := WaitQueue(s, q);
      if w == [] then Refused
      else Went(s.(waiting := s.waiting[q := w[1..]], hand := s.hand[w[0] := Held(k.esp, false)]))
    case TakeZombie =>
      if s.zombies == [] then Refused
      else Went(s.(zombies := s.zombies[1..], hand := s.hand[s.zombies[0] := Held(k.esp, true)]))
    case Schedule(t) =>
      if t in s.hand && s.hand[t] == Held(k.esp, false)
      then Went(s.(ready := s.ready + [t], hand := s.hand - {t}))
      else Refused
    case Delete(t) =>
      if t in s.hand && s.hand[t] == Held(k.esp, true)
      then Went(s.(hand := s.hand - {t}, live := s.live - {t}, ctx := s.ctx - {t}))
      else Refused
    case Spawn =>
      var t := Work(s.nextId);
      Went(s.(nextId := s.nextId + 1, live := s.live + {t}, ctx := s.ctx[t := Ctx(true, false)],
              noPreempt := s.noPreempt - {t}, hand := s.hand[t := Held(k.esp, false)]))
    case _ => Refused
  }

  /** The next instruction group of block and gheith_contextSwitch. */
  function OnAdvance(s: State, c: nat, k: Core, stay: bool): Outcome
    requires c < |s.cores|
  {
    match k.pc
    case Running(_) => Refused
    case ReadMe(call, irq, was) => Went(SetCore(s, c, k.(pc := Block(SetFlag, call, irq, was, c, k.active, k.active))))
    case Block(_, _, _, _, _, _, _) => OnBlock(s, c, k)
    case Switched(call, prev, saved) =>
      Went(Callback(SetCore(s, c, k.(pc := Return(saved))), call, prev, stay))
    case Return(saved) => Went(SetCore(s, c, k.(on := saved.flag, pc := Running(saved.irq))))
  }

  function OnBlock(s: State, c: nat, k: Core): Outcome
    requires c < |s.cores| && k.pc.Block?
  {
    var p := k.pc;
    match p.at
    case SetFlag => Went(SetCore(s, c, k.(pc := p.(at := Restore))).(noPreempt := s.noPreempt + {p.me}))
    case Restore => Went(SetCore(s, c, k.(on := !p.was, pc := p.(at := Pick))))
    case Pick => OnPick(s, c, k)
    case FlagNext => Went(SetCore(s, c, k.(pc := p.(at := Publish))).(noPreempt := s.noPreempt + {p.next}))
    case Publish =>
      var cores := s.cores[c := k.(pc := p.(at := Save))];
      if p.coreId < |cores| then Went(s.(cores := cores[p.coreId := cores[p.coreId].(active := p.next)])) else Broken
    case Save => Went(SetCore(s, c, k.(pc := p.(at := Mask))).(ctx := s.ctx[p.me := Ctx(k.on, p.irq)]))
    case Mask => Went(SetCore(s, c, k.(on := false, pc := p.(at := ClearMe))))
    case ClearMe => Went(SetCore(s, c, k.(pc := p.(at := ClearNext))).(noPreempt := s.noPreempt - {p.me}))
    case ClearNext => Went(SetCore(s, c, k.(pc := p.(at := Switch))).(noPreempt := s.noPreempt - {p.next}))
    case Switch =>
      if p.next in s.ctx
      then Went(SetCore(s, c, k.(esp := p.next, pc := Switched(p.call, p.me, s.ctx[p.next]))).(ctx := s.ctx - {p.next}))
      else Broken
  }

  /** readyQ.remove and what follows when it finds nothing. */
  function OnPick(s: State, c: nat, k: Core): Outcome
    requires c < |s.cores| && k.pc.Block?
  {
    var p := k.pc;
    if s.ready != []
    then Went(SetCore(s, c, k.(pc := p.(at := FlagNext, next := s.ready[0]))).(ready := s.ready[1..]))
    else if p.call.Yield? then Went(SetCore(s, c, k.(pc := Running(p.irq))))
    else if p.me.Idle?
    then if p.coreId == c && k.on && p.me == Idle(p.coreId) && p.me == k.active then Went(s) else Broken
    else Went(SetCore(s, c, k.(pc := p.(at := FlagNext, next := Idle(p.coreId)))))
  }

  /** The function passed to block, run on the target's stack. */
  function Callback(s: State, call: Call, prev: Tcb, stay: bool): State
  {
    if prev.Idle? then s
    else
      match call
      case Yield => s.(ready := s.ready + [prev])
      case Stop => s.(zombies := s.zombies + [prev])
      case Park(q) =>
        if stay then s.(waiting := s.waiting[q := WaitQueue(s, q) + [prev]])
        else s.(ready := s.ready + [prev])
  }

  /** threadsInit: every core runs its idle thread. */
  predicate Initial(s: State)
  {
    && (forall c: nat | c < |s.cores| ::
      s.cores[c].pc == Running(false) && s.cores[c].active == s.cores[c].esp == Idle(c))
    && s.ready == s.zombies == [] && s.waiting == map[] && s.hand == map[] && s.ctx == map[]
    && s.live == {} && s.nextId == 0 && (forall t | t in s.noPreempt :: t.Idle?)
  }

  /** A run: any sequence of events of any cores; those that cannot happen are skipped. */
  function Run(s: State, events: seq<(nat, Event)>): Outcome
  {
    if events == [] then Went(s)
    else
      match Run(s, events[..|events| - 1])
      case Went(s1) =>
        var (c, e) := events[|events| - 1];
        if c >= |s1.cores| then Went(s1)
        else
          (match Step(s1, c, e)
           case Went(s2) => Went(s2)
           case Refused => Went(s1)
           case Broken => Broken)
      case Refused => Refused
      case Broken => Broken
  }
}
