/** The spin lock that turns interrupts off, with any number of cores, one access at a time. */
module Locks {
  import opened Common

  /** Where a core is in lock or unlock.  `w` is the local wasDisabled: of the attempt in
      progress, or read back from the lock by unlock. */
  datatype Pc =
    | Outside
    | Disable | Exchange(w: bool) | Record(w: bool) | GiveUp(w: bool)
    | Inside
    | ReadBack | Clear(w: bool) | Restore(w: bool)

  /** `on`: the interrupt flag.  `entry`: the flag at the last call of lock, for the record. */
  datatype Core = Core(pc: Pc, on: bool, entry: bool)

  /** `taken` and `was` are the fields of the lock; `owner`, for the record, is the core whose
      exchange got it. */
  datatype State = State(taken: bool, was: bool, cores: seq<Core>, owner: Option<nat>)

  datatype Event = Call | Flip | Go

  predicate Initial(s: State)
  {
    !s.taken && s.owner == None && forall c: nat | c < |s.cores| :: s.cores[c].pc == Outside
  }

  function With(s: State, c: nat, k: Core): (s': State)
    requires c < |s.cores|
    ensures |s'.cores| == |s.cores|
  {
    s.(cores := s.cores[c := k])
  }

  /** The next state; a core outside may flip its flag or call lock, one inside may call unlock. */
  function Step(s: State, c: nat, e: Event): State
    requires c < |s.cores|
  {
    var k := s.cores[c];
    match k.pc
    case Outside =>
      (match e
       case Call => With(s, c, k.(pc := Disable, entry := k.on))
       case Flip => With(s, c, k.(on := !k.on))
       case Go => s)
    case Inside => if e == Call then With(s, c, k.(pc := ReadBack)) else s
    case _ => if e == Go then Advance(s, c) else s
  }

  function Advance(s: State, c: nat): State
    requires c < |s.cores|
  {
    var k := s.cores[c];
    match k.pc
    case Outside => s
    case Inside => s
    case Disable => With(s, c, k.(pc := Exchange(!k.on), on := false))
    case Exchange(w) =>
      if s.taken then With(s, c, k.(pc := GiveUp(w)))
      else With(s, c, k.(pc := Record(w))).(taken := true, owner := Some(c))
    case Record(w) => With(s, c, k.(pc := Inside)).(was := w)
    case GiveUp(w) => With(s, c, k.(pc := Disable, on := !w || k.on))
    case ReadBack => With(s, c, k.(pc := Clear(s.was)))
    case Clear(w) => With(s, c, k.(pc := Restore(w))).(taken := false, owner := None)
    case Restore(w) => With(s, c, k.(pc := Outside, on := !w || k.on))
  }

  /** The core has the lock. */
  predicate Has(pc: Pc)
  {
    pc.Record? || pc.Inside? || pc.ReadBack? || pc.Clear?
  }

  ghost predicate CoreOk(s: State, c: nat)
    requires c < |s.cores|
  {
    var k := s.cores[c];
    && (Has(k.pc) <==> s.owner == Some(c))
    && (k.pc.Disable? ==> k.on == k.entry)
    && (!k.pc.Outside? && !k.pc.Disable? ==> !k.on)
    && (k.pc.Exchange? || k.pc.Record? || k.pc.GiveUp? || k.pc.Clear? || k.pc.Restore? ==> k.pc.w == !k.entry)
    && (k.pc.Inside? || k.pc.ReadBack? ==> s.was == !k.entry)
  }

  ghost predicate Inv(s: State)
  {
    && (s.taken <==> s.owner.Some?) && (s.owner.Some? ==> s.owner.value < |s.cores|)
    && forall c: nat {:trigger CoreOk(s, c)} | c < |s.cores| :: CoreOk(s, c)
  }

  lemma StepKeeps(s: State, c: nat, e: Event)
    requires Inv(s) && c < |s.cores|
    ensures Inv(Step(s, c, e)) && |Step(s, c, e).cores| == |s.cores|
  {
    var s' := Step(s, c, e);
    assert CoreOk(s, c);
    forall d: nat | d < |s'.cores| ensures CoreOk(s', d) {
      assert CoreOk(s, d);
    }
  }

  function Run(s: State, events: seq<(nat, Event)>): State
  {
    if events == [] then s
    else
      var s1 := Run(s, events[..|events| - 1]);
      var (c, e) := events[|events| - 1];
      if c < |s1.cores| then Step(s1, c, e) else s1
  }

  lemma {:induction false} RunKeeps(s: State, events: seq<(nat, Event)>)
    requires Initial(s)
    ensures Inv(Run(s, events)) && |Run(s, events).cores| == |s.cores|
  {
    if events == [] {
      forall c: nat | c < |s.cores| ensures CoreOk(s, c) { }
    } else {
      RunKeeps(s, events[..|events| - 1]);
      var (c, e) := events[|events| - 1];
      if c < |s.cores| { StepKeeps(Run(s, events[..|events| - 1]), c, e); }
    }
  }

  /** On every run at most one core has the lock, and its interrupts are off. */
  lemma OneAtATime(s: State, events: seq<(nat, Event)>, c: nat, d: nat)
    requires Initial(s) && c < |s.cores| && d < |s.cores|
    ensures var r := Run(s, events);
      && |r.cores| == |s.cores|
      && (Has(r.cores[c].pc) && Has(r.cores[d].pc) ==> c == d)
      && (Has(r.cores[c].pc) ==> !r.cores[c].on && r.taken)
      && (r.taken ==> exists o: nat :: o < |r.cores| && Has(r.cores[o].pc))
  {
    RunKeeps(s, events);
    var r := Run(s, events);
    assert CoreOk(r, c) && CoreOk(r, d);
    if r.taken { assert CoreOk(r, r.owner.value); }
  }

  /** On every run unlock gives a core back the interrupt flag it called lock with, however
      often its attempts failed and whoever held the lock in between. */
  lemma FlagIsRestored(s: State, events: seq<(nat, Event)>, c: nat)
    requires Initial(s) && c < |s.cores| && c < |Run(s, events).cores|
    requires Run(s, events).cores[c].pc.Restore?
    ensures var r := Run(s, events);
      Step(r, c, Go).cores[c].pc == Outside && Step(r, c, Go).cores[c].on == r.cores[c].entry
  {
    RunKeeps(s, events);
    assert CoreOk(Run(s, events), c);
  }

  /** While it spins, a core runs with its own flag between attempts. */
  lemma SpinsWithItsFlag(s: State, events: seq<(nat, Event)>, c: nat)
    requires Initial(s) && c < |s.cores| && c < |Run(s, events).cores| && Run(s, events).cores[c].pc.Disable?
    ensures Run(s, events).cores[c].on == Run(s, events).cores[c].entry
  {
    RunKeeps(s, events);
    assert CoreOk(Run(s, events), c);
  }

  // ----- whole calls -----

  /** Core `c` comes from `s` to `s'` in three steps of its own. */
  ghost predicate Three(s: State, c: nat, s': State)
  {
    c < |s.cores| && var s1 := Step(s, c, Go); c < |s1.cores| && var s2 := Step(s1, c, Go); c < |s2.cores| && s' == Step(s2, c, Go)
  }

  /** A call of lock that finds the lock free takes it: interrupts are off, and the lock keeps the
      flag of the caller. */
  lemma FreeLockIsTaken(s: State, c: nat)
    requires c < |s.cores| && s.cores[c].pc == Outside && !s.taken
    ensures var on := s.cores[c].on;
      Three(Step(s, c, Call), c, State(true, !on, s.cores[c := Core(Inside, false, on)], Some(c)))
  {
    var on := s.cores[c].on;
    var s1 := s.(cores := s.cores[c := Core(Disable, on, on)]);
    var s2 := s.(cores := s.cores[c := Core(Exchange(!on), false, on)]);
    var s3 := s.(cores := s.cores[c := Core(Record(!on), false, on)], taken := true, owner := Some(c));
    assert Step(s, c, Call) == s1;
    assert Step(s1, c, Go) == s2;
    assert Step(s2, c, Go) == s3;
    assert Step(s3, c, Go) == State(true, !on, s.cores[c := Core(Inside, false, on)], Some(c));
  }

  /** An attempt that finds the lock taken changes nothing: the core is back before it, with its
      flag. */
  lemma TakenLockIsSpunOn(s: State, c: nat)
    requires Inv(s) && c < |s.cores| && s.cores[c].pc == Disable && s.taken
    ensures Three(s, c, s)
  {
    var k := s.cores[c];
    assert CoreOk(s, c);
    var s1 := With(s, c, Core(Exchange(!k.on), false, k.entry));
    var s2 := With(s, c, Core(GiveUp(!k.on), false, k.entry));
    assert Step(s, c, Go) == s1;
    assert Step(s1, c, Go) == s2;
    assert Step(s2, c, Go) == s;
  }

  /** A call of unlock frees the lock and gives the core the flag with which it called lock. */
  lemma UnlockFrees(s: State, c: nat)
    requires Inv(s) && c < |s.cores| && s.cores[c].pc == Inside
    ensures var entry := s.cores[c].entry;
      Three(Step(s, c, Call), c, State(false, s.was, s.cores[c := Core(Outside, entry, entry)], None))
  {
    var k := s.cores[c];
    assert CoreOk(s, c);
    var s1 := With(s, c, Core(ReadBack, false, k.entry));
    var s2 := With(s, c, Core(Clear(s.was), false, k.entry));
    var s3 := With(s, c, Core(Restore(s.was), false, k.entry)).(taken := false, owner := None);
    assert Step(s, c, Call) == s1;
    assert Step(s1, c, Go) == s2;
    assert Step(s2, c, Go) == s3;
    assert Step(s3, c, Go) == State(false, s.was, s.cores[c := Core(Outside, k.entry, k.entry)], None);
  }

  /** A taken lock is always on its way to be freed: its owner can take a step, or is inside and
      can call unlock. */
  lemma OwnerCanGo(s: State)
    requires Inv(s) && s.taken
    ensures s.owner.Some? && s.owner.value < |s.cores|
    ensures var c := s.owner.value; Step(s, c, if s.cores[c].pc == Inside then Call else Go) != s
  {
    assert CoreOk(s, s.owner.value);
  }
}
