/** Every step of sync, wait, notifyAll and the callback keeps the barrier's invariant. */
module BarrierSteps {
  import opened Common
  import opened Barriers

  // ----- the other threads -----

  ghost predicate OnlyThread(s: State, s': State, t: nat)
  {
    && |s'.threads| == |s.threads|
    && forall u: nat {:trigger s'.threads[u]} | u < |s.threads| && u != t :: s'.threads[u] == s.threads[u]
  }

  /** A step of `t` as the other threads see it: the lock may change hands between `t` and
      nobody; the thread that notifies stays in its loop while anyone is queued. */
  ghost predicate Quietly(s: State, s': State, t: nat)
    requires t < |s.threads|
  {
    && OnlyThread(s, s', t) && s'.epoch == s.epoch && s'.initial == s.initial
    && (s'.owner == s.owner || (s.owner in {None, Some(t)} && s'.owner in {None, Some(t)}))
    && (s'.was == s.was || s.owner in {None, Some(t)})
    && (s'.count == s.count || s.owner == Some(t))
    && !s.threads[t].pc.Wake? && !s.threads[t].pc.Handed? && !s'.threads[t].pc.Wake? && !s'.threads[t].pc.Handed?
    && (Notifies(OwnerPc(s)) ==> Notifies(OwnerPc(s')) || s.queue == [])
  }

  ghost predicate SameFor(s: State, s': State, u: nat)
    requires s.epoch < |s.arrived| && s'.epoch < |s'.arrived|
  {
    && (u in s'.queue <==> u in s.queue)
    && (u in s'.arrived[s'.epoch] <==> u in s.arrived[s.epoch])
  }

  lemma OtherThread(s: State, s': State, t: nat, u: nat)
    requires Inv(s) && t < |s.threads| && u < |s.threads| && u != t && s'.epoch < |s'.arrived|
    requires Quietly(s, s', t) && SameFor(s, s', u)
    ensures ThreadOk(s', u)
  {
    assert ThreadOk(s, u) && ThreadOk(s, t);
    assert s'.threads[u] == s.threads[u];
    var pc := s.threads[u].pc;
    assert pc.Handed? ==> pc.giver != t && s'.threads[pc.giver] == s.threads[pc.giver];
    assert pc.Wake? ==> pc.next != t && s'.threads[pc.next] == s.threads[pc.next];
  }

  lemma Assemble(s: State, s': State, t: nat)
    requires Inv(s) && t < |s.threads| && Quietly(s, s', t) && s'.epoch < |s'.arrived|
    requires forall u: nat {:trigger SameFor(s, s', u)} | u < |s.threads| && u != t :: SameFor(s, s', u)
    requires ThreadOk(s', t) && CountsOk(s') && QueueOk(s')
    requires (s'.taken <==> s'.owner.Some?) && (s'.owner.Some? ==> s'.owner.value < |s'.threads|)
    ensures Inv(s')
  {
    forall u: nat | u < |s'.threads| ensures ThreadOk(s', u) {
      if u != t {
        assert SameFor(s, s', u);
        OtherThread(s, s', t, u);
      }
    }
  }

  // ----- steps that change neither the queue nor the epoch nor the arrivals -----

  /** All but arriving, opening a round, queueing, popping and scheduling a popped thread. */
  predicate Plain(pc: Pc)
  {
    !pc.Arrive? && !pc.Open? && !pc.Recheck? && !pc.Drain? && !pc.Wake?
  }

  lemma PlainFacts(s: State, t: nat, s': State)
    requires Inv(s) && t < |s.threads| && Plain(s.threads[t].pc) && Step(s, t) == Went(s')
    ensures Quietly(s, s', t) && s'.queue == s.queue && s'.arrived == s.arrived && s'.count == s.count
    ensures (s'.taken <==> s'.owner.Some?) && (s'.owner.Some? ==> s'.owner.value < |s'.threads|)
  {
    assert ThreadOk(s, t);
  }

  lemma PlainCounts(s: State, t: nat, s': State)
    requires Inv(s) && t < |s.threads| && Plain(s.threads[t].pc) && Step(s, t) == Went(s')
    ensures CountsOk(s')
  {
    assert ThreadOk(s, t);
    PlainFacts(s, t, s');
  }

  lemma PlainSelf(s: State, t: nat, s': State)
    requires Inv(s) && t < |s.threads| && Plain(s.threads[t].pc) && Step(s, t) == Went(s')
    ensures s'.epoch < |s'.arrived| && t < |s'.threads| && ThreadOk(s', t)
  {
    assert ThreadOk(s, t);
    PlainFacts(s, t, s');
  }

  lemma PlainStep(s: State, t: nat, s': State)
    requires Inv(s) && t < |s.threads| && Plain(s.threads[t].pc) && Step(s, t) == Went(s')
    ensures Inv(s')
  {
    PlainFacts(s, t, s');
    PlainCounts(s, t, s');
    PlainSelf(s, t, s');
    forall u: nat | u < |s.threads| && u != t ensures SameFor(s, s', u) { }
    Assemble(s, s', t);
  }

  // ----- arriving, opening, queueing, popping, scheduling -----

  lemma ArriveStep(s: State, t: nat, s': State)
    requires Inv(s) && t < |s.threads| && s.threads[t].pc.Arrive? && Step(s, t) == Went(s')
    ensures Inv(s')
  {
    assert ThreadOk(s, t);
    assert s'.arrived[s'.epoch] == s.arrived[s.epoch] + {t};
    forall u: nat | u < |s.threads| && u != t ensures SameFor(s, s', u) { }
    Assemble(s, s', t);
  }

  lemma QueueStep(s: State, t: nat, s': State)
    requires Inv(s) && t < |s.threads| && s.threads[t].pc.Recheck? && Step(s, t) == Went(s')
    ensures Inv(s')
  {
    assert ThreadOk(s, t);
    if s'.queue != s.queue { assert s'.queue[|s.queue|] == t; }
    forall u: nat | u < |s.threads| && u != t ensures SameFor(s, s', u) { }
    Assemble(s, s', t);
  }

  /** The last to arrive opens the next round: everyone who has arrived is now in a past one. */
  lemma OpenStep(s: State, t: nat, s': State)
    requires Inv(s) && t < |s.threads| && s.threads[t].pc.Open? && Step(s, t) == Went(s')
    ensures Inv(s')
  {
    assert ThreadOk(s, t);
    forall u: nat | u < |s'.threads| ensures ThreadOk(s', u) {
      assert ThreadOk(s, u);
      OpenThread(s, t, s', u);
    }
  }

  lemma OpenThread(s: State, t: nat, s': State, u: nat)
    requires t < |s.threads| && s.threads[t].pc.Open? && Step(s, t) == Went(s') && u < |s.threads|
    requires |s.arrived| == s.epoch + 1 && ThreadOk(s, t) && ThreadOk(s, u) && s.owner == Some(t)
    ensures s'.epoch < |s'.arrived| && u < |s'.threads| && ThreadOk(s', u)
  {
    assert s'.arrived[s'.epoch] == {};
    assert u != t ==> s'.threads[u] == s.threads[u];
  }

  lemma DrainStep(s: State, t: nat, s': State)
    requires Inv(s) && t < |s.threads| && s.threads[t].pc.Drain? && Step(s, t) == Went(s')
    ensures Inv(s')
  {
    assert ThreadOk(s, t);
    if s.queue == [] {
      forall u: nat | u < |s.threads| && u != t ensures SameFor(s, s', u) { }
      Assemble(s, s', t);
    } else {
      var next := s.queue[0];
      assert next in s.queue && s.queue == [next] + s'.queue;
      assert ThreadOk(s, next);
      assert next !in s'.queue;
      forall u: nat | u < |s'.threads| ensures ThreadOk(s', u) {
        assert ThreadOk(s, u);
        PopThread(s, t, s', u);
      }
    }
  }

  lemma PopThread(s: State, t: nat, s': State, u: nat)
    requires t < |s.threads| && s.threads[t].pc.Drain? && Step(s, t) == Went(s') && u < |s.threads|
    requires |s.arrived| == s.epoch + 1 && ThreadOk(s, t) && ThreadOk(s, u) && s.owner == Some(t)
    requires s.queue != [] && s.queue[0] < |s.threads| && ThreadOk(s, s.queue[0]) && s.queue[0] !in s'.queue
    requires s.queue == [s.queue[0]] + s'.queue && s.arrived[s.epoch] == {}
    ensures |s'.threads| == |s.threads| && s'.epoch == s.epoch && s'.arrived == s.arrived && ThreadOk(s', u)
  {
    var next := s.queue[0];
    assert u != next ==> (u in s.queue <==> u in s'.queue);
    assert u != t && u != next ==> s'.threads[u] == s.threads[u];
  }

  lemma WakeStep(s: State, t: nat, s': State)
    requires Inv(s) && t < |s.threads| && s.threads[t].pc.Wake? && Step(s, t) == Went(s')
    ensures Inv(s')
  {
    assert ThreadOk(s, t);
    var next := s.threads[t].pc.next;
    assert ThreadOk(s, next);
    forall u: nat | u < |s'.threads| ensures ThreadOk(s', u) {
      assert ThreadOk(s, u);
      assert u != t && u != next ==> s'.threads[u] == s.threads[u];
    }
  }

  lemma StepKeeps(s: State, t: nat, s': State)
    requires Inv(s) && t < |s.threads| && Step(s, t) == Went(s')
    ensures Inv(s')
  {
    match s.threads[t].pc
    case Arrive => ArriveStep(s, t, s');
    case Open(_) => OpenStep(s, t, s');
    case Recheck(_, _) => QueueStep(s, t, s');
    case Drain(_) => DrainStep(s, t, s');
    case Wake(_, _) => WakeStep(s, t, s');
    case _ => PlainStep(s, t, s');
  }

  /** No ASSERT of sync, wait or notify fails, and no callback turns interrupts on. */
  lemma NeverBroken(s: State, t: nat)
    requires Inv(s) && t < |s.threads|
    ensures !Step(s, t).Broken?
  {
    assert ThreadOk(s, t);
    var pc := s.threads[t].pc;
    if pc.Drain? && s.queue != [] {
      assert s.queue[0] in s.queue;
      assert ThreadOk(s, s.queue[0]);
    }
  }
}
