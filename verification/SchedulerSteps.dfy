/** Every event keeps the invariant, and none is ever broken. */
module SchedulerSteps {
  import opened SchedulerSpec
  import opened SchedulerInv

  // ----- the stages of block that move no thread -----

  lemma Untouched(s: State, s': State, a: Tcb)
    requires s'.ctx == s.ctx && s'.noPreempt == s.noPreempt
    ensures OnlyTouches(s, s', a, a)
  {
  }

  lemma KeepsCtx(s: State, s': State, loc: Locations)
    requires Inv(s, loc) && s'.ctx == s.ctx && s'.live == s.live
    ensures StillSaved(s, s', loc) && (forall t {:trigger CtxOk(s', t)} | t in s'.ctx :: CtxOk(s', t))
  {
    forall t | t in s'.ctx ensures CtxOk(s', t) { assert CtxOk(s, t); }
  }

  predicate SameQueues(s: State, s': State)
  {
    && s'.ready == s.ready && s'.zombies == s.zombies && s'.waiting == s.waiting && s'.hand == s.hand
    && s'.live == s.live && s'.nextId == s.nextId
  }

  /** The threads on, next on and switched out from core `c`. */
  function Threads(k: Core): (seq<Tcb>, seq<Tcb>, seq<Tcb>)
  {
    (IfWork(k.esp), if Picked(k.pc) then IfWork(k.pc.next) else [], if k.pc.Switched? then IfWork(k.pc.prev) else [])
  }

  lemma SamePlaces(s: State, s': State, c: nat)
    requires c < |s.cores| && OnlyCore(s, s', c) && SameQueues(s, s') && Threads(s'.cores[c]) == Threads(s.cores[c])
    ensures forall p {:trigger SamePlace(s, s', p)} :: SamePlace(s, s', p)
  {
    forall p ensures SamePlace(s, s', p) {
      match p
      case OnCore(d) => if d < |s.cores| && d != c { assert s'.cores[d] == s.cores[d]; }
      case Next(d) => if d < |s.cores| && d != c { assert s'.cores[d] == s.cores[d]; }
      case Left(d) => if d < |s.cores| && d != c { assert s'.cores[d] == s.cores[d]; }
      case _ =>
    }
  }

  /** A step of core `c` that changes only the core's own record. */
  lemma CoreStep(s: State, loc: Locations, c: nat, k: Core)
    requires Inv(s, loc) && c < |s.cores| && Threads(k) == Threads(s.cores[c])
    requires CoreOk(SetCore(s, c, k), c)
    ensures Inv(SetCore(s, c, k), loc)
  {
    var s' := SetCore(s, c, k);
    SamePlaces(s, s', c);
    KeepsCtx(s, s', loc);
    Untouched(s, s', Idle(c));
    NoMove(s, s', loc, c, Idle(c), Idle(c));
  }

  /** A step that also sets or clears the no_preempt flag of one of its threads. */
  lemma FlagStep(s: State, s': State, loc: Locations, c: nat, t: Tcb)
    requires Inv(s, loc) && c < |s.cores| == |s'.cores| && s' == SetCore(s, c, s'.cores[c]).(noPreempt := s'.noPreempt)
    requires Threads(s'.cores[c]) == Threads(s.cores[c]) && Owned(loc, c, t)
    requires s'.noPreempt == s.noPreempt + {t} || s'.noPreempt == s.noPreempt - {t}
    requires CoreOk(s', c)
    ensures Inv(s', loc)
  {
    SamePlaces(s, s', c);
    KeepsCtx(s, s', loc);
    assert OnlyTouches(s, s', t, t);
    NoMove(s, s', loc, c, t, t);
  }

  /** The thread executing on a core, and the one about to, are that core's own. */
  lemma OwnThreads(s: State, loc: Locations, c: nat)
    requires Inv(s, loc) && c < |s.cores|
    ensures Owned(loc, c, s.cores[c].esp)
    ensures Picked(s.cores[c].pc) ==> Owned(loc, c, s.cores[c].pc.next)
    ensures s.cores[c].pc.Switched? ==> Owned(loc, c, s.cores[c].pc.prev)
  {
    assert CoreOk(s, c);
    CoreThreads(s, loc, c);
  }

  lemma SaveStep(s: State, s': State, loc: Locations, c: nat)
    requires Inv(s, loc) && c < |s.cores| && s.cores[c].pc.Block? && s.cores[c].pc.at == Save
    requires OnBlock(s, c, s.cores[c]) == Went(s')
    ensures Inv(s', loc)
    ensures var k := s.cores[c]; k.esp !in s.ctx && s'.ctx == s.ctx[k.esp := Ctx(k.on, k.pc.irq)]
  {
    var k := s.cores[c];
    var me := k.pc.me;
    assert CoreOk(s, c);
    OwnThreads(s, loc, c);
    CoreThreads(s, loc, c);
    SamePlaces(s, s', c);
    forall t | t in s'.ctx ensures CtxOk(s', t) { if t != me { assert CtxOk(s, t); } }
    assert OnlyTouches(s, s', me, me);
    assert CoreOk(s', c);
    NoMove(s, s', loc, c, me, me);
  }

  /** The four stages that set or clear a no_preempt flag. */
  lemma FlagStage(s: State, s': State, loc: Locations, c: nat)
    requires Inv(s, loc) && c < |s.cores| && s.cores[c].pc.Block?
    requires s.cores[c].pc.at in {SetFlag, FlagNext, ClearMe, ClearNext}
    requires OnBlock(s, c, s.cores[c]) == Went(s')
    ensures Inv(s', loc)
    ensures var k := s.cores[c];
      match k.pc.at
      case SetFlag => s'.noPreempt == s.noPreempt + {k.esp}
      case FlagNext => s'.noPreempt == s.noPreempt + {k.pc.next} && k.esp in s.noPreempt
      case ClearMe => s'.noPreempt == s.noPreempt - {k.esp} && !k.on
      case _ => s'.noPreempt == s.noPreempt - {k.pc.next} && !k.on
  {
    var k := s.cores[c];
    var t := if k.pc.at in {SetFlag, ClearMe} then k.pc.me else k.pc.next;
    OwnThreads(s, loc, c);
    assert CoreOk(s, c);
    assert CoreOk(s', c);
    FlagStep(s, s', loc, c, t);
  }

  /** The three that change only the core's own record. */
  lemma CoreStage(s: State, s': State, loc: Locations, c: nat)
    requires Inv(s, loc) && c < |s.cores| && s.cores[c].pc.Block?
    requires s.cores[c].pc.at in {Restore, Publish, Mask}
    requires OnBlock(s, c, s.cores[c]) == Went(s')
    ensures Inv(s', loc)
  {
    assert CoreOk(s, c);
    assert s' == SetCore(s, c, s'.cores[c]);
    assert CoreOk(s', c);
    CoreStep(s, loc, c, s'.cores[c]);
  }

  // ----- the picks, the switch and the callback -----

  lemma PickStep(s: State, s': State, loc: Locations, c: nat)
    requires Inv(s, loc) && c < |s.cores| && s.cores[c].pc.Block? && s.cores[c].pc.at == Pick
    requires OnBlock(s, c, s.cores[c]) == Went(s')
    ensures exists loc' :: Inv(s', loc')
  {
    var k := s.cores[c];
    assert CoreOk(s, c);
    if s.ready != [] {
      TakeReady(s, s', loc, c);
    } else if s' != s {
      NothingReady(s, s', loc, c);
    }
  }

  lemma NothingReady(s: State, s': State, loc: Locations, c: nat)
    requires Inv(s, loc) && c < |s.cores| && s.cores[c].pc.Block? && s.cores[c].pc.at == Pick && s.ready == [] && s' != s
    requires OnBlock(s, c, s.cores[c]) == Went(s')
    ensures Inv(s', loc)
  {
    assert CoreOk(s, c);
    NothingReadyCore(s, s', c);
    CoreStep(s, loc, c, s'.cores[c]);
  }

  lemma NothingReadyCore(s: State, s': State, c: nat)
    requires c < |s.cores| && s.cores[c].pc.Block? && s.cores[c].pc.at == Pick && s.ready == [] && s' != s
    requires OnBlock(s, c, s.cores[c]) == Went(s') && CoreOk(s, c)
    ensures |s'.cores| == |s.cores| && s' == SetCore(s, c, s'.cores[c]) && CoreOk(s', c)
    ensures Threads(s'.cores[c]) == Threads(s.cores[c])
  {
    if s.cores[c].pc.call.Yield? { YieldReturns(s, s', c); } else { PickIdle(s, s', c); }
  }

  lemma YieldReturns(s: State, s': State, c: nat)
    requires c < |s.cores| && s.cores[c].pc.Block? && s.cores[c].pc.at == Pick && s.ready == [] && s.cores[c].pc.call.Yield?
    requires OnPick(s, c, s.cores[c]) == Went(s') && CoreOk(s, c)
    ensures |s'.cores| == |s.cores| && s' == SetCore(s, c, s'.cores[c]) && CoreOk(s', c)
    ensures Threads(s'.cores[c]) == Threads(s.cores[c])
  {
  }

  lemma PickIdle(s: State, s': State, c: nat)
    requires c < |s.cores| && s.cores[c].pc.Block? && s.cores[c].pc.at == Pick && s.ready == [] && s' != s
    requires !s.cores[c].pc.call.Yield? && OnPick(s, c, s.cores[c]) == Went(s') && CoreOk(s, c)
    ensures |s'.cores| == |s.cores| && s' == SetCore(s, c, s'.cores[c]) && CoreOk(s', c)
    ensures Threads(s'.cores[c]) == Threads(s.cores[c])
  {
  }

  lemma TakeReady(s: State, s': State, loc: Locations, c: nat)
    requires Inv(s, loc) && c < |s.cores| && s.cores[c].pc.Block? && s.cores[c].pc.at == Pick && s.ready != []
    requires OnBlock(s, c, s.cores[c]) == Went(s')
    ensures Inv(s', loc[s.ready[0] := Next(c)])
  {
    var t := s.ready[0];
    assert CoreOk(s, c);
    assert PlaceOk(s, loc, Ready);
    AtPlace(s, loc, Ready, 0);
    CoreThreads(s, loc, c);
    TakeReadyCore(s, s', c);
    forall p | p != Ready && p != Next(c) ensures SamePlace(s, s', p) {
      OtherPlace(s, s', c, p);
    }
    OneMove(s, s', loc, c, t, Ready, Next(c));
  }

  lemma TakeReadyCore(s: State, s': State, c: nat)
    requires c < |s.cores| && s.cores[c].pc.Block? && s.cores[c].pc.at == Pick && s.ready != []
    requires OnBlock(s, c, s.cores[c]) == Went(s') && CoreOk(s, c)
    requires s.ready[0].Work? && s.ready[0] in s.ctx && s.ready[0] != s.cores[c].pc.me
    ensures OnlyCore(s, s', c) && CoreOk(s', c)
    ensures At(s, Ready) == [s.ready[0]] + At(s', Ready) && At(s, Next(c)) == [] && At(s', Next(c)) == [s.ready[0]]
  {
  }

  /** The places that are not at core `c` and not queues. */
  lemma OtherPlace(s: State, s': State, c: nat, p: Place)
    requires c < |s.cores| && OnlyCore(s, s', c)
    requires p.Hand? ==> s'.hand == s.hand
    requires p.Ready? ==> s'.ready == s.ready
    requires p.Zombies? ==> s'.zombies == s.zombies
    requires p.Waiting? ==> WaitQueue(s, p.q) == WaitQueue(s', p.q)
    requires p == OnCore(c) ==> Threads(s'.cores[c]).0 == Threads(s.cores[c]).0
    requires p == Next(c) ==> Threads(s'.cores[c]).1 == Threads(s.cores[c]).1
    requires p == Left(c) ==> Threads(s'.cores[c]).2 == Threads(s.cores[c]).2
    ensures SamePlace(s, s', p)
  {
    match p
    case OnCore(d) => if d < |s.cores| && d != c { assert s'.cores[d] == s.cores[d]; }
    case Next(d) => if d < |s.cores| && d != c { assert s'.cores[d] == s.cores[d]; }
    case Left(d) => if d < |s.cores| && d != c { assert s'.cores[d] == s.cores[d]; }
    case _ =>
  }

  /** Where the callback puts the thread switched out. */
  function Target(call: Call, stay: bool): Place
  {
    match call
    case Yield => Ready
    case Stop => Zombies
    case Park(q) => if stay then Waiting(q) else Ready
  }

  lemma CallbackStep(s: State, s': State, loc: Locations, c: nat, stay: bool)
    requires Inv(s, loc) && c < |s.cores| && s.cores[c].pc.Switched?
    requires OnAdvance(s, c, s.cores[c], stay) == Went(s')
    ensures var pc := s.cores[c].pc;
      Inv(s', if pc.prev.Idle? then loc else loc[pc.prev := Target(pc.call, stay)])
  {
    var k := s.cores[c];
    assert CoreOk(s, c);
    CoreThreads(s, loc, c);
    if k.pc.prev.Idle? {
      CoreStep(s, loc, c, s'.cores[c]);
    } else {
      var to := Target(k.pc.call, stay);
      forall p | p != Left(c) && p != to ensures SamePlace(s, s', p) {
        OtherPlace(s, s', c, p);
      }
      CallbackCore(s, s', c, stay);
      OneMove(s, s', loc, c, k.pc.prev, Left(c), to);
    }
  }

  lemma CallbackCore(s: State, s': State, c: nat, stay: bool)
    requires c < |s.cores| && s.cores[c].pc.Switched? && s.cores[c].pc.prev.Work?
    requires OnAdvance(s, c, s.cores[c], stay) == Went(s') && CoreOk(s, c)
    ensures OnlyCore(s, s', c) && s'.ctx == s.ctx && s'.noPreempt == s.noPreempt && s'.live == s.live && s'.nextId == s.nextId
    ensures CoreOk(s', c)
    ensures var to := Target(s.cores[c].pc.call, stay);
      At(s', to) == At(s, to) + [s.cores[c].pc.prev] && At(s, Left(c)) == [s.cores[c].pc.prev] && At(s', Left(c)) == []
  {
  }

  /** The switch of stacks: the thread switched out is in transit, the target on the core. */
  function SwitchLoc(loc: Locations, c: nat, me: Tcb, next: Tcb): Locations
  {
    var loc1 := if me.Work? then loc[me := Left(c)] else loc;
    if next.Work? then loc1[next := OnCore(c)] else loc1
  }

  lemma SwitchStep(s: State, s': State, loc: Locations, c: nat)
    requires Inv(s, loc) && c < |s.cores| && s.cores[c].pc.Block? && s.cores[c].pc.at == Switch
    requires OnBlock(s, c, s.cores[c]) == Went(s')
    ensures Inv(s', SwitchLoc(loc, c, s.cores[c].esp, s.cores[c].pc.next))
    ensures |s'.cores| == |s.cores| && s'.cores[c].esp == s.cores[c].pc.next
  {
    var k := s.cores[c];
    var me, next := k.pc.me, k.pc.next;
    var loc' := SwitchLoc(loc, c, me, next);
    assert CoreOk(s, c);
    OwnThreads(s, loc, c);
    CoreThreads(s, loc, c);
    forall p ensures PlaceOk(s', loc', p) {
      SwitchPlace(s, s', loc, c, p);
    }
    forall t | t in s.live ensures Placed(s', loc', t) {
      SwitchPlaced(s, s', loc, c, t);
    }
    SwitchCores(s, s', loc, c);
    assert Inv(s', loc');
  }

  lemma SwitchCores(s: State, s': State, loc: Locations, c: nat)
    requires Inv(s, loc) && c < |s.cores| && s.cores[c].pc.Block? && s.cores[c].pc.at == Switch
    requires OnBlock(s, c, s.cores[c]) == Went(s')
    ensures forall d: nat {:trigger CoreOk(s', d)} | d < |s'.cores| :: CoreOk(s', d)
    ensures forall t {:trigger CtxOk(s', t)} | t in s'.ctx :: CtxOk(s', t)
  {
    var next := s.cores[c].pc.next;
    assert CoreOk(s, c);
    OwnThreads(s, loc, c);
    assert CtxOk(s, next);
    SwitchCore(s, s', c);
    assert OnlyTouches(s, s', next, next);
    forall d: nat | d < |s.cores| ensures CoreOk(s', d) {
      if d != c { OtherCore(s, s', loc, c, d, next, next); }
    }
    forall t | t in s'.ctx ensures CtxOk(s', t) { assert CtxOk(s, t); }
  }

  lemma SwitchCore(s: State, s': State, c: nat)
    requires c < |s.cores| && s.cores[c].pc.Block? && s.cores[c].pc.at == Switch && CoreOk(s, c)
    requires OnBlock(s, c, s.cores[c]) == Went(s') && CtxOk(s, s.cores[c].pc.next)
    ensures OnlyCore(s, s', c) && CoreOk(s', c)
  {
  }

  lemma SwitchPlace(s: State, s': State, loc: Locations, c: nat, p: Place)
    requires Inv(s, loc) && c < |s.cores| && s.cores[c].pc.Block? && s.cores[c].pc.at == Switch
    requires OnBlock(s, c, s.cores[c]) == Went(s')
    ensures PlaceOk(s', SwitchLoc(loc, c, s.cores[c].pc.me, s.cores[c].pc.next), p)
  {
    var k := s.cores[c];
    var me, next := k.pc.me, k.pc.next;
    var loc' := SwitchLoc(loc, c, me, next);
    assert CoreOk(s, c);
    CoreThreads(s, loc, c);
    if p !in {OnCore(c), Next(c), Left(c)} {
      assert PlaceOk(s, loc, p);
      OtherPlace(s, s', c, p);
      ElsewhereOk(s, s', loc, loc', p, me, next);
    }
  }

  /** A place that keeps its threads, when only `me` and `next` move. */
  lemma ElsewhereOk(s: State, s': State, loc: Locations, loc': Locations, p: Place, me: Tcb, next: Tcb)
    requires PlaceOk(s, loc, p) && SamePlace(s, s', p) && s'.live == s.live && s'.ctx == s.ctx - {next}
    requires me.Work? ==> me in loc && loc[me] != p
    requires next.Work? ==> next in loc && loc[next] != p
    requires forall t {:trigger t in loc'} | t != me && t != next && t in loc :: t in loc' && loc'[t] == loc[t]
    ensures PlaceOk(s', loc', p)
  {
    forall i | 0 <= i < |At(s', p)| ensures Here(s', loc', p, At(s', p)[i]) {
      AtPlace(s, loc, p, i);
      assert At(s', p)[i] != me && At(s', p)[i] != next;
    }
  }

  lemma SwitchPlaced(s: State, s': State, loc: Locations, c: nat, t: Tcb)
    requires Inv(s, loc) && c < |s.cores| && s.cores[c].pc.Block? && s.cores[c].pc.at == Switch
    requires OnBlock(s, c, s.cores[c]) == Went(s') && t in s.live
    ensures Placed(s', SwitchLoc(loc, c, s.cores[c].pc.me, s.cores[c].pc.next), t)
  {
    var k := s.cores[c];
    var me, next := k.pc.me, k.pc.next;
    assert CoreOk(s, c);
    assert Placed(s, loc, t);
    if t == next {
      assert At(s', OnCore(c)) == [t];
    } else if t == me {
      assert At(s', Left(c)) == [t];
    } else {
      assert At(s, loc[t]) != [] && loc[t] !in {OnCore(c), Next(c), Left(c)};
      OtherPlace(s, s', c, loc[t]);
    }
  }

  // ----- the queue operations of a running thread -----

  /** A thread that is elsewhere is not in hand. */
  lemma NotInHand(s: State, loc: Locations, p: Place)
    requires Inv(s, loc) && At(s, p) != [] && !p.Hand?
    ensures At(s, p)[0] !in s.hand
  {
    assert PlaceOk(s, loc, p);
    AtPlace(s, loc, p, 0);
    HeldIsInHand(s, loc, At(s, p)[0]);
  }

  lemma HeldIsInHand(s: State, loc: Locations, t: Tcb)
    requires Inv(s, loc)
    ensures t in s.hand ==> t in loc && loc[t] == Hand(t)
  {
    if t in s.hand {
      assert PlaceOk(s, loc, Hand(t));
      AtPlace(s, loc, Hand(t), 0);
    }
  }

  lemma TakeWaitingStep(s: State, s': State, loc: Locations, c: nat, q: nat)
    requires Inv(s, loc) && c < |s.cores| && s.cores[c].pc == Running(false)
    requires OnRunning(s, c, s.cores[c], TakeWaiting(q)) == Went(s')
    ensures Inv(s', loc[WaitQueue(s, q)[0] := Hand(WaitQueue(s, q)[0])])
  {
    var t := WaitQueue(s, q)[0];
    NotInHand(s, loc, Waiting(q));
    assert CoreOk(s, c);
    forall p | p != Waiting(q) && p != Hand(t) ensures SamePlace(s, s', p) { }
    OneMove(s, s', loc, c, t, Waiting(q), Hand(t));
  }

  lemma TakeZombieStep(s: State, s': State, loc: Locations, c: nat)
    requires Inv(s, loc) && c < |s.cores| && s.cores[c].pc == Running(false)
    requires OnRunning(s, c, s.cores[c], TakeZombie) == Went(s')
    ensures Inv(s', loc[s.zombies[0] := Hand(s.zombies[0])])
  {
    var t := s.zombies[0];
    NotInHand(s, loc, Zombies);
    assert CoreOk(s, c);
    forall p | p != Zombies && p != Hand(t) ensures SamePlace(s, s', p) { }
    OneMove(s, s', loc, c, t, Zombies, Hand(t));
  }

  lemma ScheduleStep(s: State, s': State, loc: Locations, c: nat, t: Tcb)
    requires Inv(s, loc) && c < |s.cores| && s.cores[c].pc == Running(false)
    requires OnRunning(s, c, s.cores[c], Schedule(t)) == Went(s')
    ensures Inv(s', loc[t := Ready])
  {
    assert CoreOk(s, c);
    forall p | p != Ready && p != Hand(t) ensures SamePlace(s, s', p) { }
    OneMove(s, s', loc, c, t, Hand(t), Ready);
  }

  lemma SpawnStep(s: State, s': State, loc: Locations, c: nat)
    requires Inv(s, loc) && c < |s.cores| && s.cores[c].pc == Running(false)
    requires OnRunning(s, c, s.cores[c], Spawn) == Went(s')
    ensures exists loc' :: Inv(s', loc')
  {
    var t := Work(s.nextId);
    var loc' := loc[t := Hand(t)];
    assert t in s.live ==> Placed(s, loc, t);
    forall p ensures PlaceOk(s', loc', p) {
      assert PlaceOk(s, loc, p);
      if p != Hand(t) {
        assert SamePlace(s, s', p);
        forall i | 0 <= i < |At(s', p)| ensures Here(s', loc', p, At(s', p)[i]) { AtPlace(s, loc, p, i); }
      }
    }
    forall u | u in s'.live ensures Placed(s', loc', u) {
      if u != t {
        assert Placed(s, loc, u);
        assert SamePlace(s, s', loc[u]);
      }
    }
    assert OnlyTouches(s, s', t, t);
    assert t !in loc;
    forall d: nat | d < |s.cores| ensures CoreOk(s', d) {
      SpawnCore(s, s', loc, d, t);
    }
    forall u | u in s'.ctx ensures CtxOk(s', u) { if u != t { assert CtxOk(s, u); } }
    assert Inv(s', loc');
  }

  /** No core works on a thread that has no place. */
  lemma SpawnCore(s: State, s': State, loc: Locations, d: nat, t: Tcb)
    requires Inv(s, loc) && d < |s.cores| && s'.cores == s.cores && OnlyTouches(s, s', t, t)
    requires t.Work? && (t in loc ==> loc[t].Hand?)
    ensures CoreOk(s', d)
  {
    OtherCore(s, s', loc, d + 1, d, t, t);
  }

  lemma DeleteStep(s: State, s': State, loc: Locations, c: nat, t: Tcb)
    requires Inv(s, loc) && c < |s.cores| && s.cores[c].pc == Running(false)
    requires OnRunning(s, c, s.cores[c], Delete(t)) == Went(s')
    ensures exists loc' :: Inv(s', loc')
  {
    var loc' := loc - {t};
    assert PlaceOk(s, loc, Hand(t));
    AtPlace(s, loc, Hand(t), 0);
    assert loc[t] == Hand(t);
    forall p ensures PlaceOk(s', loc', p) {
      assert PlaceOk(s, loc, p);
      if p != Hand(t) {
        assert SamePlace(s, s', p);
        forall i | 0 <= i < |At(s', p)| ensures Here(s', loc', p, At(s', p)[i]) { AtPlace(s, loc, p, i); }
      }
    }
    forall u | u in s'.live ensures Placed(s', loc', u) {
      assert Placed(s, loc, u);
      assert SamePlace(s, s', loc[u]);
    }
    assert OnlyTouches(s, s', t, t);
    forall d: nat | d < |s.cores| ensures CoreOk(s', d) {
      SpawnCore(s, s', loc, d, t);
    }
    forall u | u in s'.ctx ensures CtxOk(s', u) { assert CtxOk(s, u); }
    assert Inv(s', loc');
  }

  // ----- all events -----

  ghost predicate Ok(s: State)
  {
    exists loc :: Inv(s, loc)
  }

  lemma RunningKeeps(s: State, s': State, loc: Locations, c: nat, e: Event)
    requires Inv(s, loc) && c < |s.cores| && s.cores[c].pc == Running(false)
    requires OnRunning(s, c, s.cores[c], e) == Went(s')
    ensures Ok(s')
  {
    match e
    case TakeWaiting(q) => TakeWaitingStep(s, s', loc, c, q);
    case TakeZombie => TakeZombieStep(s, s', loc, c);
    case Schedule(t) => ScheduleStep(s, s', loc, c, t);
    case Spawn => SpawnStep(s, s', loc, c);
    case Delete(t) => DeleteStep(s, s', loc, c, t);
    case SetInterrupts(_) => OwnStep(s, s', loc, c, e);
    case Enter(_) => OwnStep(s, s', loc, c, e);
    case _ =>
  }

  lemma OwnStep(s: State, s': State, loc: Locations, c: nat, e: Event)
    requires Inv(s, loc) && c < |s.cores| && s.cores[c].pc == Running(false) && (e.SetInterrupts? || e.Enter?)
    requires OnRunning(s, c, s.cores[c], e) == Went(s')
    ensures Inv(s', loc)
  {
    assert CoreOk(s, c);
    CoreStep(s, loc, c, s'.cores[c]);
  }

  /** The first step of block and the last. */
  lemma EndStep(s: State, s': State, loc: Locations, c: nat, stay: bool)
    requires Inv(s, loc) && c < |s.cores| && (s.cores[c].pc.ReadMe? || s.cores[c].pc.Return?)
    requires OnAdvance(s, c, s.cores[c], stay) == Went(s')
    ensures Inv(s', loc)
  {
    assert CoreOk(s, c);
    assert s' == SetCore(s, c, s'.cores[c]);
    assert CoreOk(s', c);
    CoreStep(s, loc, c, s'.cores[c]);
  }

  lemma AdvanceKeeps(s: State, s': State, loc: Locations, c: nat, stay: bool)
    requires Inv(s, loc) && c < |s.cores|
    requires OnAdvance(s, c, s.cores[c], stay) == Went(s')
    ensures Ok(s')
  {
    match s.cores[c].pc
    case ReadMe(_, _, _) => EndStep(s, s', loc, c, stay);
    case Switched(_, _, _) => CallbackStep(s, s', loc, c, stay);
    case Return(_) => EndStep(s, s', loc, c, stay);
    case Block(at, _, _, _, _, _, _) =>
      if at == Pick { PickStep(s, s', loc, c); }
      else if at == Save { SaveStep(s, s', loc, c); }
      else if at == Switch { SwitchStep(s, s', loc, c); }
      else if at in {Restore, Publish, Mask} { CoreStage(s, s', loc, c); }
      else { FlagStage(s, s', loc, c); }
  }

  /** Every event of every core keeps the invariant. */
  lemma StepKeeps(s: State, s': State, loc: Locations, c: nat, e: Event)
    requires Inv(s, loc) && c < |s.cores| && Step(s, c, e) == Went(s')
    ensures Ok(s')
  {
    assert CoreOk(s, c);
    match e
    case Timer => if s' != s { CoreStep(s, loc, c, s'.cores[c]); }
    case Iret => CoreStep(s, loc, c, s'.cores[c]);
    case Advance(stay) => AdvanceKeeps(s, s', loc, c, stay);
    case _ => RunningKeeps(s, s', loc, c, e);
  }

  /** No ASSERT of block fails, no switch is made to a thread without a saved context, and the
      timer never preempts a thread that is inside a context switch. */
  lemma NeverBroken(s: State, loc: Locations, c: nat, e: Event)
    requires Inv(s, loc) && c < |s.cores|
    ensures !Step(s, c, e).Broken?
  {
    assert CoreOk(s, c);
  }
}
