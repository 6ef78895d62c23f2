/** Which steps of the semaphore can happen, that its threads are never stuck, and what a call
    of down or up does when no other thread interferes. */
module SemaphoreCalls {
  import opened Common
  import opened Semaphores

  /** A thread inside down or up always has a next step, unless it waits for an up; one outside
      can always call down, and up unless it has nothing to give back. */
  lemma StepHappens(s: State, t: nat)
    requires Inv(s) && t < |s.threads|
    ensures var pc := s.threads[t].pc;
      && (Step(s, t, Go).Some? <==> !pc.Outside? && !pc.Parked? && !pc.Handed?)
      && (Step(s, t, CallDown).Some? <==> pc.Outside?)
      && (Step(s, t, CallUp).Some? <==> pc.Outside? && (s.strict ==> t in s.inside))
  {
    assert ThreadOk(s, t);
  }

  ghost predicate Moves(s: State, t: nat)
  {
    t < |s.threads| && Step(s, t, Go).Some? && Step(s, t, Go).value.threads != s.threads
  }

  /** As long as some thread is inside down or up and not parked for want of units, some thread
      gets on: the semaphore is free of deadlock. */
  lemma SomeoneMoves(s: State, t: nat)
    requires Inv(s) && t < |s.threads| && !s.threads[t].pc.Outside? && !s.threads[t].pc.Parked?
    ensures exists u: nat :: Moves(s, u)
  {
    assert ThreadOk(s, t);
    if s.taken {
      var u := s.owner.value;
      OwnerMoves(s, u);
    } else if s.threads[t].pc.Handed? {
      var u := s.threads[t].pc.giver;
      assert ThreadOk(s, u);
      assert Moves(s, u);
    } else {
      FreeThreadMoves(s, t);
    }
  }

  lemma OwnerMoves(s: State, u: nat)
    requires Inv(s) && s.owner == Some(u)
    ensures Moves(s, u)
  {
    assert ThreadOk(s, u);
    match s.threads[u].pc
    case DownTest =>
    case DownUnlock =>
    case Blocking =>
    case Queued =>
    case UpTest =>
    case UpUnlock(_) =>
    case _ =>
  }

  lemma FreeThreadMoves(s: State, t: nat)
    requires Inv(s) && t < |s.threads| && !s.taken
    requires !s.threads[t].pc.Outside? && !s.threads[t].pc.Parked? && !s.threads[t].pc.Handed?
    ensures Moves(s, t)
  {
    assert ThreadOk(s, t);
    match s.threads[t].pc
    case DownLock =>
    case UpLock =>
    case Scheduled =>
    case UpWake(_) =>
    case _ =>
  }

  // ----- whole calls -----

  /** Thread `t` takes `n` steps of its own. */
  ghost function Steps(s: State, t: nat, n: nat): Option<State>
    decreases n
  {
    if n == 0 then Some(s)
    else if t >= |s.threads| || Step(s, t, Go).None? then None
    else Steps(Step(s, t, Go).value, t, n - 1)
  }

  /** Thread `t` comes from `s` to `s'` when no other interferes. */
  ghost predicate Comes(s: State, t: nat, s': State)
  {
    exists n: nat :: Steps(s, t, n) == Some(s')
  }

  lemma StepComes(s: State, t: nat, s1: State, s2: State)
    requires t < |s.threads| && Step(s, t, Go) == Some(s1) && (s1 == s2 || Comes(s1, t, s2))
    ensures Comes(s, t, s2)
  {
    assert Steps(s1, t, 0) == Some(s1);
    var n: nat :| Steps(s1, t, n) == Some(s2);
    assert Steps(s, t, n + 1) == Some(s2);
  }

  /** Only the last of two updates of a thread matters. */
  lemma LastUpdate(threads: seq<Thread>, t: nat)
    requires t < |threads|
    ensures forall a: Thread, b: Thread {:trigger threads[t := a][t := b]} :: threads[t := a][t := b] == threads[t := b]
  {
  }

  /** Two threads replaced. */
  function Both(threads: seq<Thread>, t: nat, a: Thread, w: nat, b: Thread): seq<Thread>
    requires t < |threads| && w < |threads|
  {
    threads[t := a][w := b]
  }

  lemma BothUpdates(threads: seq<Thread>, t: nat, a: Thread, w: nat, b: Thread)
    requires t < |threads| && w < |threads| && t != w
    ensures forall c: Thread :: Both(threads, t, a, w, b)[t := c] == Both(threads, t, c, w, b)
    ensures forall c: Thread :: Both(threads, t, a, w, b)[w := c] == Both(threads, t, a, w, c)
    ensures Both(threads, t, a, w, b)[t] == a && Both(threads, t, a, w, b)[w] == b
  {
  }

  /** The state with thread `t` replaced and the lock free. */
  function Free(s: State, t: nat, th: Thread): State
    requires t < |s.threads|
  {
    s.(threads := s.threads[t := th], taken := false, owner := None)
  }

  function Held(s: State, t: nat, th: Thread): State
    requires t < |s.threads|
  {
    s.(threads := s.threads[t := th], taken := true, owner := Some(t))
  }

  /** down with a unit there takes it and returns at once. */
  lemma DownTakes(s: State, t: nat)
    requires Inv(s) && t < |s.threads| && s.threads[t].pc.Outside? && !s.taken && s.count > 0
    ensures Step(s, t, CallDown).Some?
    ensures var f := s.threads[t].on;
      Comes(Step(s, t, CallDown).value, t,
            Free(s, t, Thread(Outside, f, !f, f)).(
              count := s.count - 1, granted := s.granted + 1, inside := s.inside + multiset{t}))
  {
    LastUpdate(s.threads, t);
    var f := s.threads[t].on;
    var s0 := Free(s, t, Thread(DownLock, f, s.threads[t].was, f));
    var s1 := Held(s, t, Thread(DownTest, false, !f, f));
    var s2 := Held(s, t, Thread(DownUnlock, false, !f, f)).(
      count := s.count - 1, granted := s.granted + 1, inside := s.inside + multiset{t});
    var s3 := Free(s2, t, Thread(Outside, f, !f, f));
    StepComes(s2, t, s3, s3);
    StepComes(s1, t, s2, s3);
    StepComes(s0, t, s1, s3);
  }

  /** down with no unit there joins the queue at its end and parks, and leaves the lock free. */
  lemma DownParks(s: State, t: nat)
    requires Inv(s) && t < |s.threads| && s.threads[t].pc.Outside? && !s.taken && s.count == 0
    ensures Step(s, t, CallDown).Some?
    ensures var f := s.threads[t].on;
      Comes(Step(s, t, CallDown).value, t,
            Free(s, t, Thread(Parked, false, !f, f)).(waiting := s.waiting + [t], arrived := s.arrived + [t]))
  {
    LastUpdate(s.threads, t);
    var f := s.threads[t].on;
    var s0 := Free(s, t, Thread(DownLock, f, s.threads[t].was, f));
    var s1 := Held(s, t, Thread(DownTest, false, !f, f));
    var s2 := Held(s, t, Thread(Blocking, false, !f, f));
    var s3 := Held(s, t, Thread(Queued, false, !f, f)).(waiting := s.waiting + [t], arrived := s.arrived + [t]);
    var s4 := Free(s3, t, Thread(Parked, false, !f, f));
    StepComes(s3, t, s4, s4);
    StepComes(s2, t, s3, s4);
    StepComes(s1, t, s2, s4);
    StepComes(s0, t, s1, s4);
  }

  /** up with nobody waiting counts the unit. */
  lemma UpCounts(s: State, t: nat)
    requires Inv(s) && t < |s.threads| && s.threads[t].pc.Outside? && !s.taken && (s.strict ==> t in s.inside)
    requires s.waiting == [] && s.count + 1 < COUNT_LIMIT
    ensures Step(s, t, CallUp).Some?
    ensures var f := s.threads[t].on;
      Comes(Step(s, t, CallUp).value, t,
            Free(s, t, Thread(Outside, f, !f, f)).(count := s.count + 1, ups := s.ups + 1, inside := s.inside - multiset{t}))
  {
    LastUpdate(s.threads, t);
    var f := s.threads[t].on;
    var s1 := Held(s, t, Thread(UpTest, false, !f, f));
    var s2 := Held(s, t, Thread(UpUnlock(None), false, !f, f)).(
      count := s.count + 1, ups := s.ups + 1, inside := s.inside - multiset{t});
    var s3 := Free(s2, t, Thread(Outside, f, !f, f));
    StepComes(s2, t, s3, s3);
    StepComes(s1, t, s2, s3);
    FirstOfUp(s, t, f, s3);
  }

  /** The fields after a unit has been given by `t` to the first in line. */
  function Given(s: State, t: nat): State
    requires s.waiting != []
  {
    s.(ups := s.ups + 1, waiting := s.waiting[1..], popped := s.popped + [s.waiting[0]], granted := s.granted + 1,
       inside := s.inside - multiset{t} + multiset{s.waiting[0]})
  }

  /** The end of up: the lock is freed, and the popped thread is scheduled. */
  lemma Schedules(s: State, t: nat, w: nat, f: bool, threads: seq<Thread>, b: Thread)
    requires t < |threads| && w < |threads| && w != t && |threads| == |s.threads|
    requires s.threads == Both(threads, t, Thread(UpUnlock(Some(w)), false, !f, f), w, b)
    ensures Comes(s, t, s.(threads := Both(threads, t, Thread(Outside, f, !f, f), w, b.(pc := Scheduled)),
                           taken := false, owner := None))
  {
    var s3 := s.(threads := Both(threads, t, Thread(UpWake(w), f, !f, f), w, b), taken := false, owner := None);
    var s4 := s.(threads := Both(threads, t, Thread(Outside, f, !f, f), w, b.(pc := Scheduled)), taken := false, owner := None);
    BothUpdates(threads, t, Thread(UpUnlock(Some(w)), false, !f, f), w, b);
    BothUpdates(threads, t, Thread(UpWake(w), f, !f, f), w, b);
    BothUpdates(threads, t, Thread(Outside, f, !f, f), w, b);
    StepComes(s3, t, s4, s4);
    StepComes(s, t, s3, s4);
  }

  /** From the test under the lock to the end of up, with somebody waiting. */
  lemma HandsOver(s: State, t: nat, w: nat, f: bool, b: Thread)
    requires t < |s.threads| && w < |s.threads| && w != t && s.waiting != [] && w == s.waiting[0]
    requires s.threads[t] == Thread(UpTest, false, !f, f) && s.threads[w] == b && s.taken && s.owner == Some(t)
    ensures Comes(s, t, Given(s, t).(threads := Both(s.threads, t, Thread(Outside, f, !f, f), w, b.(pc := Scheduled)),
                                     taken := false, owner := None))
  {
    var s2 := Given(s, t).(threads := Both(s.threads, t, Thread(UpUnlock(Some(w)), false, !f, f), w, b.(pc := Handed(t))));
    Schedules(s2, t, w, f, s.threads, b.(pc := Handed(t)));
    StepComes(s, t, s2, Given(s, t).(threads := Both(s.threads, t, Thread(Outside, f, !f, f), w, b.(pc := Scheduled)),
                                     taken := false, owner := None));
  }

  /** up with somebody waiting gives the unit to the first in line, who can return from down with
      the flag of its call, and leaves the count alone. */
  lemma UpHandsOver(s: State, t: nat, w: nat)
    requires Inv(s) && t < |s.threads| && s.threads[t].pc.Outside? && !s.taken && (s.strict ==> t in s.inside)
    requires s.waiting != [] && w == s.waiting[0]
    ensures w < |s.threads| && w != t && Step(s, t, CallUp).Some?
    ensures var f := s.threads[t].on;
      Comes(Step(s, t, CallUp).value, t,
            Given(s, t).(threads := Both(s.threads, t, Thread(Outside, f, !f, f), w, s.threads[w].(pc := Scheduled))))
  {
    assert w in s.waiting;
    assert ThreadOk(s, t) && ThreadOk(s, w);
    var f := s.threads[t].on;
    HandsOver(Held(s, t, Thread(UpTest, false, !f, f)), t, w, f, s.threads[w]);
    SameBoth(s.threads, t, Thread(UpTest, false, !f, f), Thread(Outside, f, !f, f), w, s.threads[w].(pc := Scheduled));
    FirstOfUp(s, t, f, Given(s, t).(threads := Both(s.threads, t, Thread(Outside, f, !f, f), w, s.threads[w].(pc := Scheduled))));
  }

  /** up takes the lock first. */
  lemma FirstOfUp(s: State, t: nat, f: bool, s': State)
    requires t < |s.threads| && s.threads[t].pc.Outside? && !s.taken && (s.strict ==> t in s.inside) && s.threads[t].on == f
    requires Comes(Held(s, t, Thread(UpTest, false, !f, f)), t, s')
    ensures Step(s, t, CallUp).Some? && Comes(Step(s, t, CallUp).value, t, s')
  {
    var s0 := s.(threads := s.threads[t := Thread(UpLock, f, s.threads[t].was, f)]);
    LastUpdate(s.threads, t);
    StepComes(s0, t, Held(s, t, Thread(UpTest, false, !f, f)), s');
  }

  lemma SameBoth(threads: seq<Thread>, t: nat, x: Thread, a: Thread, w: nat, b: Thread)
    requires t < |threads| && w < |threads|
    ensures Both(threads[t := x], t, a, w, b) == Both(threads, t, a, w, b)
  {
    LastUpdate(threads, t);
  }

  /** Who has been given a unit and scheduled returns with the flag of its call. */
  lemma ScheduledReturns(s: State, w: nat)
    requires Inv(s) && w < |s.threads| && s.threads[w].pc.Scheduled?
    ensures var entry := s.threads[w].entry;
      Step(s, w, Go) == Some(s.(threads := s.threads[w := Thread(Outside, entry, !entry, entry)]))
  {
    assert ThreadOk(s, w);
  }
}
