/** What the reusable barrier promises on every run. */
module BarrierRuns {
  import opened Common
  import opened Barriers
  import opened BarrierSteps

  /** A run takes the next step of one thread after another; a thread that must wait is
      skipped. */
  function Run(s: State, schedule: seq<nat>): Outcome
  {
    if schedule == [] then Went(s)
    else
      match Run(s, schedule[..|schedule| - 1])
      case Went(s1) =>
        var t := schedule[|schedule| - 1];
        if t >= |s1.threads| || Step(s1, t).Refused? then Went(s1) else Step(s1, t)
      case _ => Broken
  }

  lemma {:induction false} RunKeeps(s: State, schedule: seq<nat>)
    requires Initial(s) && s.initial > 0
    ensures Run(s, schedule).Went? && Inv(Run(s, schedule).s) && Run(s, schedule).s.initial == s.initial
  {
    if schedule == [] {
      InitialInv(s);
    } else {
      RunKeeps(s, schedule[..|schedule| - 1]);
      var s1 := Run(s, schedule[..|schedule| - 1]).s;
      var t := schedule[|schedule| - 1];
      if t < |s1.threads| {
        NeverBroken(s1, t);
        if Step(s1, t).Went? {
          StepKeeps(s1, t, Step(s1, t).s);
          SameSize(s1, t);
        }
      }
    }
  }

  lemma SameSize(s: State, t: nat)
    requires t < |s.threads| && Step(s, t).Went?
    ensures Step(s, t).s.initial == s.initial
  {
  }

  /** No thread leaves round r before the initial count of distinct threads arrived in it. */
  lemma NobodyLeavesEarly(s: State, schedule: seq<nat>, t: nat)
    requires Initial(s) && s.initial > 0
    requires Run(s, schedule).Went? && t < |Run(s, schedule).s.threads| && Run(s, schedule).s.threads[t].pc.Leave?
    ensures var r := Run(s, schedule).s;
      var round := r.threads[t].pc.round;
      round < |r.arrived| && |r.arrived[round]| == s.initial
  {
    RunKeeps(s, schedule);
    assert ThreadOk(Run(s, schedule).s, t);
  }

  /** The count still missing is the number of distinct threads inside the current round. */
  lemma CountIsMissing(s: State, schedule: seq<nat>)
    requires Initial(s) && s.initial > 0
    ensures Run(s, schedule).Went?
    ensures var r := Run(s, schedule).s;
      && r.count == s.initial - |Inside(r)|
      && (forall t: nat | t < |r.threads| :: t in Inside(r) <==> RoundOf(r.threads[t].pc) == Some(r.epoch))
      && (forall i: nat | i < r.epoch :: i < |r.arrived| && |r.arrived[i]| == s.initial)
  {
    RunKeeps(s, schedule);
    var r := Run(s, schedule).s;
    forall t: nat | t < |r.threads| ensures t in Inside(r) <==> RoundOf(r.threads[t].pc) == Some(r.epoch) {
      assert ThreadOk(r, t);
    }
  }

  function Inside(s: State): set<nat>
  {
    if s.epoch < |s.arrived| then s.arrived[s.epoch] else {}
  }

  /** Whenever the lock is free, the threads in the condition's queue are all of the current
      round and are not enough to end it, and barrier and condition are at the same epoch: no
      wake-up was lost. */
  lemma NoLostWakeup(s: State, schedule: seq<nat>, t: nat)
    requires Initial(s) && s.initial > 0
    requires Run(s, schedule).Went? && !Run(s, schedule).s.taken && t in Run(s, schedule).s.queue
    ensures var r := Run(s, schedule).s;
      && t < |r.threads| && r.threads[t].pc == Parked(r.epoch)
      && r.count > 0 && r.signals == r.epoch && t in Inside(r)
  {
    RunKeeps(s, schedule);
    var r := Run(s, schedule).s;
    var i :| 0 <= i < |r.queue| && r.queue[i] == t;
    assert r.queue[i] < |r.threads|;
    assert ThreadOk(r, t);
  }

  /** A thread that wakes finds its round over: here wait has no false positives, and one wait
      is enough. */
  lemma WokenIsReleased(s: State, schedule: seq<nat>, t: nat)
    requires Initial(s) && s.initial > 0
    requires Run(s, schedule).Went? && t < |Run(s, schedule).s.threads|
    requires var pc := Run(s, schedule).s.threads[t].pc; pc.Ready? || pc.Relock? || pc.Handed? || pc.Scheduling?
    ensures Run(s, schedule).s.threads[t].pc.round < Run(s, schedule).s.epoch
  {
    RunKeeps(s, schedule);
    assert ThreadOk(Run(s, schedule).s, t);
  }

  /** sync returns with interrupts on, as it was called. */
  lemma InterruptsAreBack(s: State, schedule: seq<nat>, t: nat)
    requires Initial(s) && s.initial > 0
    requires Run(s, schedule).Went? && t < |Run(s, schedule).s.threads| && Run(s, schedule).s.threads[t].pc.Outside?
    ensures Run(s, schedule).s.threads[t].on
  {
    RunKeeps(s, schedule);
    assert ThreadOk(Run(s, schedule).s, t);
  }

  /** A barrier works exactly if its count is not 0: with 0 the first thread to arrive fails
      the ASSERT. */
  lemma WorksExactlyFromOne(s: State)
    requires Initial(s) && |s.threads| > 0
    ensures (forall schedule :: Run(s, schedule).Went?) <==> s.initial > 0
  {
    if s.initial > 0 {
      forall schedule ensures Run(s, schedule).Went? { RunKeeps(s, schedule); }
    } else {
      ZeroFails(s);
    }
  }

  lemma ZeroFails(s: State)
    requires Initial(s) && |s.threads| > 0 && s.initial == 0
    ensures Run(s, [0, 0, 0]).Broken?
  {
    var s1 := Step(s, 0).s;
    var s2 := Step(s1, 0).s;
    assert Run(s, []) == Went(s);
    assert [0][..|[0]| - 1] == [];
    assert Run(s, [0]) == Went(s1);
    assert [0, 0][..|[0, 0]| - 1] == [0];
    assert s1.threads[0].pc == Enter && !s1.taken;
    assert Run(s, [0, 0]) == Went(s2);
    assert [0, 0, 0][..|[0, 0, 0]| - 1] == [0, 0];
    assert s2.threads[0].pc == Arrive && Step(s2, 0).Broken?;
  }
}
