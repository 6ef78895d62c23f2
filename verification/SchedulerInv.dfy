/** Where each thread is, what each core knows in the middle of block, and that every event of
    every core keeps both. */
module SchedulerInv {
  import opened SchedulerSpec

  /** The places a thread can be: in the hand of one other, or in one of the queues; the last three are its core's stack, picked but not yet
      switched to, and switched out with the callback still to run. */
  datatype Place = Ready | Zombies | Waiting(q: nat) | Hand(t: Tcb) | OnCore(c: nat) | Next(c: nat) | Left(c: nat)

  function IfWork(t: Tcb): seq<Tcb>
  {
    if t.Work? then [t] else []
  }

  /** A thread has been picked and its stack is not yet in use. */
  predicate Picked(pc: Phase)
  {
    pc.Block? && pc.at !in {SetFlag, Restore, Pick}
  }

  function At(s: State, p: Place): seq<Tcb>
  {
    match p
    case Ready => s.ready
    case Zombies => s.zombies
    case Waiting(q) => WaitQueue(s, q)
    case Hand(t) => if t in s.hand then [t] else []
    case OnCore(c) => if c < |s.cores| then IfWork(s.cores[c].esp) else []
    case Next(c) => if c < |s.cores| && Picked(s.cores[c].pc) then IfWork(s.cores[c].pc.next) else []
    case Left(c) => if c < |s.cores| && s.cores[c].pc.Switched? then IfWork(s.cores[c].pc.prev) else []
  }

  type Locations = map<Tcb, Place>

  /** `t` is at `p`; off the cores it has a saved context. */
  ghost predicate Here(s: State, loc: Locations, p: Place, t: Tcb)
  {
    t.Work? && t in s.live && t in loc && loc[t] == p && (p.OnCore? || t in s.ctx)
  }

  ghost predicate PlaceOk(s: State, loc: Locations, p: Place)
  {
    && (forall i {:trigger At(s, p)[i]} | 0 <= i < |At(s, p)| :: Here(s, loc, p, At(s, p)[i]))
    && (forall i, j {:trigger At(s, p)[i], At(s, p)[j]} | 0 <= i < j < |At(s, p)| :: At(s, p)[i] != At(s, p)[j])
  }

  ghost predicate Placed(s: State, loc: Locations, t: Tcb)
  {
    t.Work? && t.id < s.nextId && t in loc && t in At(s, loc[t])
  }

  predicate After(at: Stage, first: set<Stage>)
  {
    at !in first
  }

  /** What holds of the core, and of the flags and contexts of the threads it works on, at each
      stage. */
  ghost predicate CoreOk(s: State, c: nat)
    requires c < |s.cores|
  {
    var k := s.cores[c];
    && (k.esp.Idle? ==> k.esp == Idle(c))
    && (k.esp != Idle(c) ==> Idle(c) in s.ctx)
    && (Idle(c) in s.ctx ==> s.ctx[Idle(c)] == Ctx(true, false))
    && match k.pc
       case Running(irq) => k.active == k.esp && k.esp !in s.ctx && (irq ==> !k.on && k.esp.Work?)
       case ReadMe(call, irq, was) =>
         k.active == k.esp && k.esp !in s.ctx && !k.on && (irq ==> was) && (k.esp.Idle? ==> !was && !call.Park?)
       case Block(at, call, irq, was, coreId, me, next) => BlockOk(s, c)
       case Switched(call, prev, saved) =>
         && k.active == k.esp && k.esp !in s.ctx && !k.on && SavedOk(k.esp, saved) && k.esp !in s.noPreempt
         && prev != k.esp && prev in s.ctx && (prev.Idle? ==> prev == Idle(c))
       case Return(saved) =>
         k.active == k.esp && k.esp !in s.ctx && !k.on && SavedOk(k.esp, saved) && k.esp !in s.noPreempt
  }

  /** An idle thread was switched out with interrupts on; no thread was switched out inside the
      timer handler with interrupts on. */
  predicate SavedOk(t: Tcb, saved: Ctx)
  {
    (t.Idle? ==> saved == Ctx(true, false)) && (saved.irq ==> !saved.flag)
  }

  ghost predicate BlockOk(s: State, c: nat)
    requires c < |s.cores| && s.cores[c].pc.Block?
  {
    var k, p := s.cores[c], s.cores[c].pc;
    var r := Rank(p.at);
    && p.me == k.esp && p.coreId == c && (p.irq ==> p.was)
    && (p.me.Idle? ==> !p.was && !p.irq && !p.call.Park?)
    && k.active == (if r <= Rank(Publish) then p.me else p.next)
    && (r <= Rank(Restore) || r >= Rank(ClearMe) ==> !k.on)
    && (Rank(Pick) <= r < Rank(ClearMe) ==> k.on == !p.was)
    && (Rank(Restore) <= r <= Rank(ClearMe) ==> p.me in s.noPreempt)
    && (Rank(Publish) <= r <= Rank(ClearNext) ==> p.next in s.noPreempt)
    && (r > Rank(ClearNext) ==> p.next !in s.noPreempt)
    && (p.me in s.ctx <==> r > Rank(Save))
    && (p.me in s.ctx ==> s.ctx[p.me] == Ctx(!p.was, p.irq))
    && (r > Rank(Pick) ==> p.next != p.me && p.next in s.ctx && (p.next.Idle? ==> p.next == Idle(c)))
  }

  function Rank(at: Stage): nat
  {
    match at
    case SetFlag => 0 case Restore => 1 case Pick => 2 case FlagNext => 3 case Publish => 4
    case Save => 5 case Mask => 6 case ClearMe => 7 case ClearNext => 8 case Switch => 9
  }

  ghost predicate Inv(s: State, loc: Locations)
  {
    && (forall p {:trigger PlaceOk(s, loc, p)} :: PlaceOk(s, loc, p))
    && (forall t {:trigger Placed(s, loc, t)} | t in s.live :: Placed(s, loc, t))
    && (forall c: nat {:trigger CoreOk(s, c)} | c < |s.cores| :: CoreOk(s, c))
    && (forall t {:trigger CtxOk(s, t)} | t in s.ctx :: CtxOk(s, t))
    && (forall t | t in loc :: t in s.live)
  }

  ghost predicate CtxOk(s: State, t: Tcb)
    requires t in s.ctx
  {
    && SavedOk(t, s.ctx[t])
    && (t.Work? ==> t in s.live)
  }

  // ----- frames -----

  /** A thread whose flags and saved context only core `c` may change. */
  ghost predicate Owned(loc: Locations, c: nat, t: Tcb)
  {
    t == Idle(c) || (t.Work? && (t in loc ==> loc[t] in {OnCore(c), Next(c), Left(c)} || loc[t].Hand?))
  }

  ghost predicate SameFlags(s: State, s': State, t: Tcb)
  {
    && (t in s.noPreempt <==> t in s'.noPreempt)
    && (t in s.ctx <==> t in s'.ctx)
    && (t in s.ctx ==> s'.ctx[t] == s.ctx[t])
  }

  ghost predicate OnlyTouches(s: State, s': State, a: Tcb, b: Tcb)
  {
    forall t {:trigger SameFlags(s, s', t)} | t != a && t != b :: SameFlags(s, s', t)
  }

  ghost predicate OnlyCore(s: State, s': State, c: nat)
  {
    |s'.cores| == |s.cores| && forall d: nat {:trigger s'.cores[d]} | d < |s.cores| && d != c :: s'.cores[d] == s.cores[d]
  }

  lemma AtPlace(s: State, loc: Locations, p: Place, i: nat)
    requires PlaceOk(s, loc, p) && i < |At(s, p)|
    ensures Here(s, loc, p, At(s, p)[i])
  {
  }

  lemma OtherCore(s: State, s': State, loc: Locations, c: nat, d: nat, a: Tcb, b: Tcb)
    requires Inv(s, loc) && OnlyCore(s, s', c) && c != d && d < |s.cores|
    requires OnlyTouches(s, s', a, b) && Owned(loc, c, a) && Owned(loc, c, b)
    ensures CoreOk(s', d)
  {
    var k := s.cores[d];
    assert CoreOk(s, d) && s'.cores[d] == k;
    OthersFlags(s, s', loc, c, d, a, b);
  }

  lemma OthersFlags(s: State, s': State, loc: Locations, c: nat, d: nat, a: Tcb, b: Tcb)
    requires Inv(s, loc) && c != d && d < |s.cores|
    requires OnlyTouches(s, s', a, b) && Owned(loc, c, a) && Owned(loc, c, b)
    ensures var k := s.cores[d];
      && SameFlags(s, s', Idle(d)) && SameFlags(s, s', k.esp)
      && (Picked(k.pc) ==> SameFlags(s, s', k.pc.next))
      && (k.pc.Switched? ==> SameFlags(s, s', k.pc.prev))
  {
    var k := s.cores[d];
    assert CoreOk(s, d);
    CoreThreads(s, loc, d);
    assert k.esp != a && k.esp != b;
    assert Picked(k.pc) ==> k.pc.next != a && k.pc.next != b;
    assert k.pc.Switched? ==> k.pc.prev != a && k.pc.prev != b;
  }

  lemma CoreThreads(s: State, loc: Locations, d: nat)
    requires Inv(s, loc) && d < |s.cores|
    ensures var k := s.cores[d];
      && (k.esp.Work? ==> Here(s, loc, OnCore(d), k.esp))
      && (Picked(k.pc) && k.pc.next.Work? ==> Here(s, loc, Next(d), k.pc.next))
      && (k.pc.Switched? && k.pc.prev.Work? ==> Here(s, loc, Left(d), k.pc.prev))
  {
    var k := s.cores[d];
    assert PlaceOk(s, loc, OnCore(d)) && PlaceOk(s, loc, Next(d)) && PlaceOk(s, loc, Left(d));
    if k.esp.Work? { AtPlace(s, loc, OnCore(d), 0); }
    if Picked(k.pc) && k.pc.next.Work? { AtPlace(s, loc, Next(d), 0); }
    if k.pc.Switched? && k.pc.prev.Work? { AtPlace(s, loc, Left(d), 0); }
  }

  ghost predicate SamePlace(s: State, s': State, p: Place)
  {
    At(s', p) == At(s, p)
  }

  /** Threads with no saved context stay on a core; those that lose theirs are on one. */
  ghost predicate StillSaved(s: State, s': State, loc: Locations)
  {
    forall t {:trigger t in s'.ctx} | t in s.ctx && t in loc && !loc[t].OnCore? :: t in s'.ctx
  }

  /** An event of core `c` that moves no thread. */
  lemma NoMove(s: State, s': State, loc: Locations, c: nat, a: Tcb, b: Tcb)
    requires Inv(s, loc) && c < |s.cores| && OnlyCore(s, s', c) && s'.live == s.live && s'.nextId == s.nextId
    requires OnlyTouches(s, s', a, b) && Owned(loc, c, a) && Owned(loc, c, b)
    requires forall p {:trigger SamePlace(s, s', p)} :: SamePlace(s, s', p)
    requires StillSaved(s, s', loc) && CoreOk(s', c) && (forall t {:trigger CtxOk(s', t)} | t in s'.ctx :: CtxOk(s', t))
    ensures Inv(s', loc)
  {
    forall p ensures PlaceOk(s', loc, p) {
      assert SamePlace(s, s', p) && PlaceOk(s, loc, p);
      forall i | 0 <= i < |At(s', p)| ensures Here(s', loc, p, At(s', p)[i]) {
        AtPlace(s, loc, p, i);
      }
    }
    forall t | t in s.live ensures Placed(s', loc, t) {
      assert Placed(s, loc, t) && SamePlace(s, s', loc[t]);
    }
    forall d: nat | d < |s.cores| ensures CoreOk(s', d) {
      if d != c { OtherCore(s, s', loc, c, d, a, b); }
    }
  }

  /** An event of core `c` that moves thread `t` from the head of `from` to the tail of `to`. */
  lemma OneMove(s: State, s': State, loc: Locations, c: nat, t: Tcb, from: Place, to: Place)
    requires Inv(s, loc) && c < |s.cores| && OnlyCore(s, s', c) && s'.live == s.live && s'.nextId == s.nextId
    requires s'.ctx == s.ctx && s'.noPreempt == s.noPreempt
    requires from != to && At(s, from) == [t] + At(s', from) && At(s', to) == At(s, to) + [t] && !from.OnCore? && !to.OnCore?
    requires forall p {:trigger SamePlace(s, s', p)} | p != from && p != to :: SamePlace(s, s', p)
    requires CoreOk(s', c)
    ensures Inv(s', loc[t := to])
  {
    var loc' := loc[t := to];
    assert At(s, from)[0] == t;
    assert PlaceOk(s, loc, from) && PlaceOk(s, loc, to);
    AtPlace(s, loc, from, 0);
    forall p ensures PlaceOk(s', loc', p) {
      assert PlaceOk(s, loc, p);
      assert p != from && p != to ==> SamePlace(s, s', p);
      MovedPlace(s, s', loc, t, from, to, p);
    }
    forall u | u in s.live ensures Placed(s', loc', u) {
      assert Placed(s, loc, u);
      MovedThread(s, s', loc, t, from, to, u);
    }
    CoresKept(s, s', loc, c);
  }

  /** Flags and contexts as before: the other cores are as before. */
  lemma CoresKept(s: State, s': State, loc: Locations, c: nat)
    requires Inv(s, loc) && c < |s.cores| && OnlyCore(s, s', c) && s'.live == s.live
    requires s'.ctx == s.ctx && s'.noPreempt == s.noPreempt && CoreOk(s', c)
    ensures forall d: nat {:trigger CoreOk(s', d)} | d < |s'.cores| :: CoreOk(s', d)
    ensures forall u {:trigger CtxOk(s', u)} | u in s'.ctx :: CtxOk(s', u)
  {
    forall d: nat | d < |s'.cores| ensures CoreOk(s', d) {
      if d != c { OtherCore(s, s', loc, c, d, Idle(c), Idle(c)); }
    }
    forall u | u in s'.ctx ensures CtxOk(s', u) { assert CtxOk(s, u); }
  }

  lemma MovedPlace(s: State, s': State, loc: Locations, t: Tcb, from: Place, to: Place, p: Place)
    requires from != to && At(s, from) == [t] + At(s', from) && At(s', to) == At(s, to) + [t] && !from.OnCore?
    requires p != from && p != to ==> SamePlace(s, s', p)
    requires PlaceOk(s, loc, from) && PlaceOk(s, loc, to) && PlaceOk(s, loc, p) && s'.ctx == s.ctx && s'.live == s.live
    ensures PlaceOk(s', loc[t := to], p)
  {
    AtPlace(s, loc, from, 0);
    assert At(s, from)[0] == t;
    if p == from {
      HeadTaken(s, s', loc, t, from, to);
    } else if p == to {
      TailPut(s, s', loc, t, to);
    } else {
      forall i | 0 <= i < |At(s', p)| ensures Here(s', loc[t := to], p, At(s', p)[i]) {
        AtPlace(s, loc, p, i);
      }
    }
  }

  lemma HeadTaken(s: State, s': State, loc: Locations, t: Tcb, from: Place, to: Place)
    requires from != to && At(s, from) == [t] + At(s', from)
    requires PlaceOk(s, loc, from) && s'.ctx == s.ctx && s'.live == s.live
    ensures PlaceOk(s', loc[t := to], from)
  {
    forall i | 0 <= i < |At(s', from)| ensures Here(s', loc[t := to], from, At(s', from)[i]) {
      AtPlace(s, loc, from, i + 1);
      assert At(s, from)[0] != At(s, from)[i + 1];
    }
    forall i, j | 0 <= i < j < |At(s', from)| ensures At(s', from)[i] != At(s', from)[j] {
      assert At(s, from)[i + 1] != At(s, from)[j + 1];
    }
  }

  lemma TailPut(s: State, s': State, loc: Locations, t: Tcb, to: Place)
    requires t in loc && loc[t] != to && At(s', to) == At(s, to) + [t] && t.Work? && t in s.live && t in s.ctx
    requires PlaceOk(s, loc, to) && s'.ctx == s.ctx && s'.live == s.live
    ensures PlaceOk(s', loc[t := to], to)
  {
    forall i | 0 <= i < |At(s', to)| ensures Here(s', loc[t := to], to, At(s', to)[i]) {
      if i < |At(s, to)| { AtPlace(s, loc, to, i); }
    }
    forall i, j | 0 <= i < j < |At(s', to)| ensures At(s', to)[i] != At(s', to)[j] {
      AtPlace(s, loc, to, i);
      assert At(s', to)[i] == At(s, to)[i];
    }
  }

  lemma MovedThread(s: State, s': State, loc: Locations, t: Tcb, from: Place, to: Place, u: Tcb)
    requires Placed(s, loc, u) && s'.nextId == s.nextId && from != to
    requires At(s, from) == [t] + At(s', from) && At(s', to) == At(s, to) + [t]
    requires forall p {:trigger SamePlace(s, s', p)} | p != from && p != to :: SamePlace(s, s', p)
    ensures u == t || u.Work? ==> Placed(s', loc[t := to], u)
  {
    if u == t {
      assert At(s', to)[|At(s, to)|] == t;
    } else if loc[u] != from && loc[u] != to {
      assert SamePlace(s, s', loc[u]);
    }
  }
}
