/** The three counts of the bounded buffer are atomic semaphores: whatever the buffer does to
    them, the semaphore of SemaphoreRuns can do. */
module BufferSemaphores {
  import opened Common
  import B = BoundedBuffers
  import S = SemaphoreRuns

  datatype Which = Empty | Full | Lock

  /** The count of one of the semaphores. */
  function Tokens<T>(s: B.State<T>, q: Which): nat
  {
    match q
    case Empty => s.nEmpty
    case Full => s.nFull
    case Lock => s.lock
  }

  /** The thread is inside down of that semaphore. */
  predicate Wants<T>(pc: B.Pc<T>, q: Which)
  {
    match q
    case Empty => pc.PutEmpty?
    case Full => pc.GetFull?
    case Lock => pc.PutLock? || pc.GetLock?
  }

  function Abstract<T>(s: B.State<T>, q: Which): S.Atomic
  {
    S.Atomic(Tokens(s, q), set t: nat | t < |s.threads| && Wants(s.threads[t], q))
  }

  /** The operations on that semaphore that one step of thread t amounts to. */
  function Ops<T>(s: B.State<T>, t: nat, s': B.State<T>, q: Which): seq<S.Op>
    requires t < |s.threads| && t < |s'.threads|
  {
    if !Wants(s.threads[t], q) && Wants(s'.threads[t], q) then [S.Want(t)]
    else if Wants(s.threads[t], q) && !Wants(s'.threads[t], q) then [S.Take(t)]
    else if Tokens(s', q) > Tokens(s, q) then [S.Give]
    else []
  }

  /** The step takes a unit, gives one, or leaves the count alone. */
  predicate Moves(before: nat, after: nat, wanted: bool, wants: bool)
  {
    if wanted && !wants then before > 0 && after == before - 1
    else after == before || (after == before + 1 && !wanted && !wants)
  }

  lemma OneThread<T>(s: B.State<T>, t: nat, e: B.Event<T>, s': B.State<T>)
    requires t < |s.threads| && B.Step(s, t, e) == B.Went(s')
    ensures |s'.threads| == |s.threads| && s'.threads == s.threads[t := s'.threads[t]]
  {
  }

  lemma CountMoves<T>(s: B.State<T>, t: nat, e: B.Event<T>, s': B.State<T>, q: Which)
    requires t < |s.threads| && B.Step(s, t, e) == B.Went(s') && t < |s'.threads|
    ensures Moves(Tokens(s, q), Tokens(s', q), Wants(s.threads[t], q), Wants(s'.threads[t], q))
  {
    match s.threads[t]
    case Outside =>
    case PutEmpty(_) =>
    case PutLock(_) =>
    case PutUnlock =>
    case PutSignal =>
    case GetFull =>
    case GetLock =>
    case GetUnlock(_) =>
    case GetSignal(_) =>
    case _ =>
  }

  /** Each step of the buffer is at most one operation of each of its three semaphores, and one
      the atomic semaphore allows: in particular it takes a unit only where there is one. */
  lemma BufferUsesAtomic<T>(s: B.State<T>, t: nat, e: B.Event<T>, s': B.State<T>, q: Which)
    requires t < |s.threads| && B.Step(s, t, e) == B.Went(s')
    ensures t < |s'.threads| && S.ApplyAll(Abstract(s, q), Ops(s, t, s', q)) == Some(Abstract(s', q))
  {
    OneThread(s, t, e, s');
    CountMoves(s, t, e, s', q);
    var a, a' := Abstract(s, q), Abstract(s', q);
    assert a'.wants == if Wants(s'.threads[t], q) then a.wants + {t} else a.wants - {t};
    assert Wants(s.threads[t], q) == Wants(s'.threads[t], q) ==> a'.wants == a.wants;
    assert S.ApplyAll(a', []) == Some(a');
  }

  /** The operations on that semaphore that a whole run amounts to. */
  function RunOps<T>(s: B.State<T>, events: seq<(nat, B.Event<T>)>, q: Which): seq<S.Op>
  {
    if events == [] || !B.Run(s, events[..|events| - 1]).Went? then []
    else
      var (t, e) := events[|events| - 1];
      RunOps(s, events[..|events| - 1], q) + LastOps(B.Run(s, events[..|events| - 1]).s, t, e, q)
  }

  function LastOps<T>(s: B.State<T>, t: nat, e: B.Event<T>, q: Which): seq<S.Op>
  {
    if t >= |s.threads| || !B.Step(s, t, e).Went? || t >= |B.Step(s, t, e).s.threads| then []
    else Ops(s, t, B.Step(s, t, e).s, q)
  }

  /** Every run of the buffer is, for each of its semaphores, a run of the atomic semaphore. */
  lemma {:induction false} BufferRunsAtomic<T>(s: B.State<T>, events: seq<(nat, B.Event<T>)>, q: Which)
    requires B.Run(s, events).Went?
    ensures S.ApplyAll(Abstract(s, q), RunOps(s, events, q)) == Some(Abstract(B.Run(s, events).s, q))
  {
    if events != [] {
      var before := events[..|events| - 1];
      var (t, e) := events[|events| - 1];
      BufferRunsAtomic(s, before, q);
      var s1 := B.Run(s, before).s;
      LastIsAtomic(s1, t, e, q);
      S.ApplyAllThen(Abstract(s, q), RunOps(s, before, q), LastOps(s1, t, e, q));
    }
  }

  lemma LastIsAtomic<T>(s: B.State<T>, t: nat, e: B.Event<T>, q: Which)
    requires t >= |s.threads| || !B.Step(s, t, e).Broken?
    ensures var s' := if t < |s.threads| && B.Step(s, t, e).Went? then B.Step(s, t, e).s else s;
      S.ApplyAll(Abstract(s, q), LastOps(s, t, e, q)) == Some(Abstract(s', q))
  {
    if t < |s.threads| && B.Step(s, t, e).Went? {
      BufferUsesAtomic(s, t, e, B.Step(s, t, e).s, q);
    } else {
      assert S.ApplyAll(Abstract(s, q), []) == Some(Abstract(s, q));
    }
  }
}
