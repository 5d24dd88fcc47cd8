/** The parallel check queue: one master and any number of workers, one atomic step per critical section. */
module CheckQueue {
  import opened Arithmetic
  import opened Common

  // A verification; `ok` is what evaluating it returns.
  datatype Check = Check(id: nat, ok: bool)

  // Where a thread stands between two critical sections. A running thread holds its batch and the
  // value of fAllOk it saw when taking it.
  datatype Thread = Absent | Waiting(notified: bool) | Running(batch: seq<Check>, fOk: bool)

  const MASTER: nat := 0

  // The checks added and accounted for since the last result.
  datatype Ledger = Ledger(added: multiset<Check>, done: multiset<Check>)

  const BLANK := Ledger(multiset{}, multiset{})

  function Hand(l: Ledger, cs: seq<Check>): Ledger {
    l.(added := l.added + multiset(cs))
  }

  function Settle(l: Ledger, cs: seq<Check>): Ledger {
    l.(done := l.done + multiset(cs))
  }

  // The shared fields and the threads.
  datatype State = State(queue: seq<Check>, nIdle: int, nTotal: int, fAllOk: bool, nTodo: int, nBatchSize: nat,
                         threads: seq<Thread>, ledger: Ledger)

  // --- Sums over the threads ---

  function Batch(t: Thread): multiset<Check> {
    if t.Running? then multiset(t.batch) else multiset{}
  }

  function Held(ts: seq<Thread>): multiset<Check> {
    if ts == [] then multiset{} else Held(ts[..|ts| - 1]) + Batch(ts[|ts| - 1])
  }

  function Count(ts: seq<Thread>, p: Thread -> bool): (n: nat)
    ensures n <= |ts|
  {
    if ts == [] then 0 else Count(ts[..|ts| - 1], p) + if p(ts[|ts| - 1]) then 1 else 0
  }

  predicate IsWaiting(t: Thread) { t.Waiting? }
  predicate IsPresent(t: Thread) { !t.Absent? }
  predicate IsAbsent(t: Thread) { t.Absent? }
  predicate IsNotified(t: Thread) { t.Waiting? && t.notified }

  lemma Regroup<T>(a: multiset<T>, b: multiset<T>, c: multiset<T>)
    ensures a + b + c == a + c + b && |a + b| == |a| + |b|
  {
  }

  lemma HeldLast(ts: seq<Thread>)
    requires ts != []
    ensures Held(ts) == Held(ts[..|ts| - 1]) + Batch(ts[|ts| - 1])
  {
  }

  lemma FillLast(ts: seq<Thread>, t: Thread)
    requires ts != [] && !ts[|ts| - 1].Running?
    ensures Held(ts[|ts| - 1 := t]) == Held(ts) + Batch(t)
  {
    hide Held;
    var n := |ts| - 1;
    HeldLast(ts);
    HeldLast(ts[n := t]);
    assert ts[n := t][..n] == ts[..n];
    Unit(Held(ts[..n]));
  }

  // A thread that held nothing takes t's batch.
  lemma {:induction false} HeldFill(ts: seq<Thread>, i: nat, t: Thread)
    requires i < |ts| && !ts[i].Running?
    ensures Held(ts[i := t]) == Held(ts) + Batch(t)
  {
    hide Held, Batch;
    var n := |ts| - 1;
    if i == n {
      FillLast(ts, t);
    } else {
      HeldLast(ts);
      HeldLast(ts[i := t]);
      assert ts[i := t][..n] == ts[..n][i := t];
      HeldFill(ts[..n], i, t);
      Regroup(Held(ts[..n]), Batch(t), Batch(ts[n]));
    }
  }

  lemma HeldDrop(ts: seq<Thread>, i: nat)
    requires i < |ts|
    ensures Held(ts) == Held(ts[i := Absent]) + Batch(ts[i])
  {
    HeldFill(ts[i := Absent], i, ts[i]);
    assert ts[i := Absent][i := ts[i]] == ts;
  }

  // Replacing a thread without a batch by another without one.
  lemma HeldSame(ts: seq<Thread>, i: nat, t: Thread)
    requires i < |ts| && !ts[i].Running? && !t.Running?
    ensures Held(ts[i := t]) == Held(ts)
  {
    HeldFill(ts, i, t);
    Unit(Held(ts));
  }

  lemma {:induction false} CountUpdate(ts: seq<Thread>, i: nat, t: Thread, p: Thread -> bool)
    requires i < |ts|
    ensures Count(ts[i := t], p) == Count(ts, p) - (if p(ts[i]) then 1 else 0) + (if p(t) then 1 else 0)
  {
    var n := |ts| - 1;
    if i == n {
      assert ts[i := t][..n] == ts[..n];
    } else {
      assert ts[i := t][..n] == ts[..n][i := t];
      CountUpdate(ts[..n], i, t, p);
    }
  }

  lemma {:induction false} HeldBy(ts: seq<Thread>, i: nat)
    requires i < |ts|
    ensures Batch(ts[i]) <= Held(ts)
  {
    if i < |ts| - 1 {
      HeldBy(ts[..|ts| - 1], i);
    }
  }

  lemma {:induction false} SomeRunning(ts: seq<Thread>)
    requires Held(ts) != multiset{}
    ensures exists i :: 0 <= i < |ts| && ts[i].Running?
  {
    var n := |ts| - 1;
    if !ts[n].Running? {
      SomeRunning(ts[..n]);
      var i :| 0 <= i < n && ts[..n][i].Running?;
      assert ts[i].Running?;
    }
  }

  // --- The steps ---

  function AllOk(cs: seq<Check>): bool { forall i :: 0 <= i < |cs| ==> cs[i].ok }

  lemma Parts(size: nat, d: nat, n: nat)
    requires d >= 1
    ensures n <= size / d ==> n * d <= size
    ensures n >= size / d ==> size < (n + 1) * d
  {
    var q := size / d;
    assert size == q * d + size % d;
    Dist(q, 1, d);
    if n <= q {
      MulMono(n, q, d);
    }
    if n >= q {
      MulMono(q + 1, n + 1, d);
    }
  }

  // How many checks a thread takes from a non-empty queue: a fair part of it, but no more than a batch and at least one.
  function Share(s: State): (n: nat)
    requires s.queue != [] && 0 <= s.nTotal && 0 <= s.nIdle
    ensures 1 <= n <= |s.queue|
    ensures n == 1 || (n <= s.nBatchSize && n * (s.nTotal + s.nIdle + 1) <= |s.queue|)
    ensures n >= s.nBatchSize || |s.queue| < (n + 1) * (s.nTotal + s.nIdle + 1)
  {
    Quotient(|s.queue|, s.nTotal + s.nIdle + 1);
    Parts(|s.queue|, s.nTotal + s.nIdle + 1, Max(1, Min(s.nBatchSize, |s.queue| / (s.nTotal + s.nIdle + 1))));
    Max(1, Min(s.nBatchSize, |s.queue| / (s.nTotal + s.nIdle + 1)))
  }

  // Popping n checks off the back, last one first.
  function Popped(q: seq<Check>, n: nat): (r: seq<Check>)
    requires n <= |q|
    ensures |r| == n
  {
    if n == 0 then [] else [q[|q| - 1]] + Popped(q[..|q| - 1], n - 1)
  }

  lemma Rejoin<T>(q: seq<T>, a: seq<T>, b: seq<T>)
    requires |q| > 0 && multiset(q[..|q| - 1]) == multiset(a) + multiset(b)
    ensures multiset(q) == multiset(a) + multiset([q[|q| - 1]] + b)
  {
    assert q == q[..|q| - 1] + [q[|q| - 1]];
  }

  lemma {:induction false} PoppedSplits(q: seq<Check>, n: nat)
    requires n <= |q|
    ensures multiset(q) == multiset(q[..|q| - n]) + multiset(Popped(q, n))
  {
    if n == 0 {
      assert q[..|q|] == q;
    } else {
      var rest := q[..|q| - 1];
      PoppedSplits(rest, n - 1);
      assert rest[..|rest| - (n - 1)] == q[..|q| - n];
      Rejoin(q, q[..|q| - n], Popped(rest, n - 1));
    }
  }

  lemma {:induction false} PoppedMore(q: seq<Check>, n: nat)
    requires n < |q|
    ensures Popped(q, n + 1) == Popped(q, n) + [q[|q| - 1 - n]]
  {
    if n > 0 {
      PoppedMore(q[..|q| - 1], n - 1);
    }
  }

  predicate Startable(s: State) {
    0 <= s.nTotal && 0 <= s.nIdle
  }

  // Thread i goes round the inner loop with the lock held: it leaves with the result, waits, or takes a batch.
  function Proceed(s: State, i: nat): (State, Outcome)
    requires i < |s.threads| && Startable(s)
  {
    if s.queue == [] then
      if i == MASTER && s.nTodo == 0 then
        (s.(nTotal := s.nTotal - 1, fAllOk := true, threads := s.threads[i := Absent], ledger := BLANK),
         Result(s.fAllOk))
      else (s.(nIdle := s.nIdle + 1, threads := s.threads[i := Waiting(false)]), Nothing)
    else
      var n := Share(s);
      (s.(queue := s.queue[..|s.queue| - n], threads := s.threads[i := Running(Popped(s.queue, n), s.fAllOk)]), Nothing)
  }

  datatype Outcome = Nothing | Result(fRet: bool)

  function Entered(s: State): State {
    s.(nTotal := s.nTotal + 1)
  }

  function Woken(s: State, i: nat): State
    requires i < |s.threads|
  {
    s.(nIdle := s.nIdle - 1, threads := s.threads[i := Absent])
  }

  function Notified(ts: seq<Thread>, i: nat): seq<Thread>
    requires i < |ts|
  {
    if ts[i].Waiting? then ts[i := Waiting(true)] else ts
  }

  // Thread i has evaluated its batch.
  function Accounted(s: State, i: nat): State
    requires i < |s.threads| && s.threads[i].Running?
  {
    var t := s.threads[i];
    var fOk := t.fOk && AllOk(t.batch);
    var nTodo := s.nTodo - |t.batch|;
    var ts := s.threads[i := Absent];
    s.(fAllOk := s.fAllOk && fOk, nTodo := nTodo, ledger := Settle(s.ledger, t.batch),
       threads := if nTodo == 0 && i != MASTER then Notified(ts, MASTER) else ts)
  }

  function AllNotified(ts: seq<Thread>): (r: seq<Thread>) {
    seq(|ts|, i requires 0 <= i < |ts| => if i != MASTER && ts[i].Waiting? then Waiting(true) else ts[i])
  }

  // One check wakes one worker, `k`, that is blocked if any is; several wake them all.
  function Added(s: State, cs: seq<Check>, k: nat): State
    requires k < |s.threads|
  {
    s.(queue := s.queue + cs, nTodo := s.nTodo + |cs|, ledger := Hand(s.ledger, cs),
       threads := if |cs| == 1 then (if k == MASTER then s.threads else Notified(s.threads, k))
                  else if |cs| > 1 then AllNotified(s.threads) else s.threads)
  }

  predicate Blocked(t: Thread) { t.Waiting? && !t.notified }

  // The worker notify_one picks: one that is blocked, or nobody (written as the master) when none is.
  predicate MayWake(ts: seq<Thread>, k: nat) {
    k < |ts| && if k == MASTER then forall j :: 1 <= j < |ts| ==> !Blocked(ts[j]) else Blocked(ts[k])
  }

  /** New checks reach the workers: several leave none of them asleep, one wakes one sleeper if there is any. */
  lemma AddWakes(s: State, cs: seq<Check>, k: nat)
    requires MayWake(s.threads, k)
    ensures var ts := Added(s, cs, k).threads;
            && |ts| == |s.threads| && ts[MASTER] == s.threads[MASTER]
            && (|cs| > 1 ==> forall i :: 1 <= i < |ts| ==> !Blocked(ts[i]))
            && (|cs| == 1 ==> (exists i :: 1 <= i < |ts| && Blocked(s.threads[i])) ==>
                  k != MASTER && Blocked(s.threads[k]) && !Blocked(ts[k]) && forall i :: 0 <= i < |ts| && i != k ==> ts[i] == s.threads[i])
            && (cs == [] ==> ts == s.threads)
  {
  }

  datatype Step = Add(cs: seq<Check>, k: nat) | Enter(i: nat) | Finish(i: nat) | Wake(i: nat)

  // Waking is always possible for a waiting thread: condition variables may wake spuriously.
  predicate Enabled(s: State, step: Step) {
    match step
    case Add(cs, k) => |s.threads| > 0 && s.threads[MASTER].Absent? && MayWake(s.threads, k)
    case Enter(i) => i < |s.threads| && s.threads[i].Absent?
    case Finish(i) => i < |s.threads| && s.threads[i].Running?
    case Wake(i) => i < |s.threads| && s.threads[i].Waiting?
  }

  function Next(s: State, step: Step): (State, Outcome)
    requires Enabled(s, step) && Inv(s)
  {
    match step
    case Add(cs, k) => (Added(s, cs, k), Nothing)
    case Enter(i) => Proceed(Entered(s), i)
    case Finish(i) => Proceed(Accounted(s, i), i)
    case Wake(i) => CountOne(s.threads, i, IsWaiting); Proceed(Woken(s, i), i)
  }

  lemma {:induction false} CountOne(ts: seq<Thread>, i: nat, p: Thread -> bool)
    requires i < |ts| && p(ts[i])
    ensures Count(ts, p) >= 1
  {
    if i < |ts| - 1 {
      CountOne(ts[..|ts| - 1], i, p);
    }
  }

  // --- The invariant ---

  predicate Books(s: State, ts: seq<Thread>) {
    && s.nTodo == |s.queue| + |Held(ts)|
    && s.ledger.added == multiset(s.queue) + Held(ts) + s.ledger.done
    && s.nIdle == Count(ts, IsWaiting)
  }

  predicate Honest(s: State) {
    && (s.fAllOk <==> forall c :: c in s.ledger.done ==> c.ok)
    && forall i :: 0 <= i < |s.threads| && s.threads[i].Running? ==> s.threads[i].batch != [] && (s.fAllOk ==> s.threads[i].fOk)
  }

  // A waiting master has left the queue empty, and unless it has been notified somebody still has work.
  predicate NoLostWakeup(s: State) {
    && |s.threads| > 0
    && (s.threads[MASTER].Waiting? ==> s.queue == [])
    && (Blocked(s.threads[MASTER]) ==> s.nTodo > 0)
  }

  predicate Inv(s: State) {
    Books(s, s.threads) && s.nTotal == Count(s.threads, IsPresent) && Honest(s) && NoLostWakeup(s)
  }

  // Thread i is inside its critical section.
  predicate Inside(s: State, i: nat) {
    && i < |s.threads| && s.threads[i].Absent?
    && Books(s, s.threads) && s.nTotal == Count(s.threads, IsPresent) + 1 && Honest(s) && NoLostWakeup(s)
  }

  // --- Every step keeps the invariant ---

  lemma EnterInside(s: State, i: nat)
    requires Inv(s) && i < |s.threads| && s.threads[i].Absent?
    ensures Inside(Entered(s), i)
  {
    hide Held, Count;
  }

  lemma WakeInside(s: State, i: nat)
    requires Inv(s) && i < |s.threads| && s.threads[i].Waiting?
    ensures Inside(Woken(s, i), i)
  {
    hide Held, Count;
    HeldSame(s.threads, i, Absent);
    CountUpdate(s.threads, i, Absent, IsWaiting);
    CountUpdate(s.threads, i, Absent, IsPresent);
  }

  lemma NotifyKeeps(ts: seq<Thread>, i: nat)
    requires i < |ts|
    ensures Held(Notified(ts, i)) == Held(ts)
    ensures Count(Notified(ts, i), IsWaiting) == Count(ts, IsWaiting)
    ensures Count(Notified(ts, i), IsPresent) == Count(ts, IsPresent)
  {
    hide Held, Count;
    if ts[i].Waiting? {
      HeldSame(ts, i, Waiting(true));
      CountUpdate(ts, i, Waiting(true), IsWaiting);
      CountUpdate(ts, i, Waiting(true), IsPresent);
    }
  }

  lemma {:induction false} NotifyAllKeeps(ts: seq<Thread>)
    ensures Held(AllNotified(ts)) == Held(ts)
    ensures Count(AllNotified(ts), IsWaiting) == Count(ts, IsWaiting)
    ensures Count(AllNotified(ts), IsPresent) == Count(ts, IsPresent)
  {
    hide Held, Count;
    var all := AllNotified(ts);
    if ts == [] {
      assert all == ts;
    } else {
      var n := |ts| - 1;
      assert all[..n] == AllNotified(ts[..n]);
      NotifyAllKeeps(ts[..n]);
      LastAdds(ts);
      LastAdds(all);
    }
  }

  // What the last thread adds.
  lemma LastAdds(ts: seq<Thread>)
    requires ts != []
    ensures var n := |ts| - 1;
            && Held(ts) == Held(ts[..n]) + Batch(ts[n])
            && Count(ts, IsWaiting) == Count(ts[..n], IsWaiting) + (if IsWaiting(ts[n]) then 1 else 0)
            && Count(ts, IsPresent) == Count(ts[..n], IsPresent) + (if IsPresent(ts[n]) then 1 else 0)
  {
  }

  lemma BadOneIn(done: multiset<Check>, cs: seq<Check>)
    ensures (forall c :: c in done + multiset(cs) ==> c.ok) <==> (forall c :: c in done ==> c.ok) && AllOk(cs)
  {
    if !AllOk(cs) {
      var i :| 0 <= i < |cs| && !cs[i].ok;
      assert cs[i] in done + multiset(cs);
    }
    if c :| c in done && !c.ok {
      assert c in done + multiset(cs);
    }
  }

  // Moving a batch from the held to the done.
  lemma MoveDone<T>(q: multiset<T>, held: multiset<T>, held': multiset<T>, batch: multiset<T>, done: multiset<T>)
    requires held == held' + batch
    ensures q + held + done == q + held' + (done + batch) && |held| == |held'| + |batch|
  {
  }

  // Moving a batch from the queue to the held.
  lemma MoveHeld<T>(q: multiset<T>, q': multiset<T>, held: multiset<T>, batch: multiset<T>, done: multiset<T>)
    requires q == q' + batch
    ensures q + held + done == q' + (held + batch) + done && |held + batch| == |held| + |batch|
  {
  }

  lemma MoreQueued<T>(q: seq<T>, cs: seq<T>, held: multiset<T>, done: multiset<T>)
    ensures multiset(q) + held + done + multiset(cs) == multiset(q + cs) + held + done
  {
  }

  lemma AccountInside(s: State, i: nat)
    requires Inv(s) && i < |s.threads| && s.threads[i].Running?
    ensures Inside(Accounted(s, i), i)
  {
    hide Held, Count, AllOk;
    var t := s.threads[i];
    var ts := s.threads[i := Absent];
    HeldDrop(s.threads, i);
    MoveDone(multiset(s.queue), Held(s.threads), Held(ts), multiset(t.batch), s.ledger.done);
    CountUpdate(s.threads, i, Absent, IsWaiting);
    CountUpdate(s.threads, i, Absent, IsPresent);
    NotifyKeeps(ts, MASTER);
    BadOneIn(s.ledger.done, t.batch);
  }

  lemma ProceedKeeps(s: State, i: nat)
    requires Inside(s, i)
    ensures Inv(Proceed(s, i).0)
    ensures var ret := Proceed(s, i).1;
            ret.Result? ==> (ret.fRet <==> forall c :: c in s.ledger.added ==> c.ok)
    ensures Proceed(s, i).1.Result? ==> Proceed(s, i).0.ledger.added == multiset{}
  {
    hide Held, Count;
    if s.queue == [] {
      if i == MASTER && s.nTodo == 0 {
        assert Held(s.threads) == multiset{};
        assert s.ledger.added == s.ledger.done;
        forall j | 0 <= j < |s.threads| ensures !s.threads[j].Running? {
          HeldBy(s.threads, j);
        }
        assert s.threads[i := Absent] == s.threads;
      } else {
        WaitKeeps(s, i);
      }
    } else {
      TakeKeeps(s, i);
    }
  }

  lemma WaitKeeps(s: State, i: nat)
    requires Inside(s, i) && s.queue == [] && (i == MASTER ==> s.nTodo != 0)
    ensures Inv(Proceed(s, i).0)
  {
    hide Held, Count;
    HeldSame(s.threads, i, Waiting(false));
    CountUpdate(s.threads, i, Waiting(false), IsWaiting);
    CountUpdate(s.threads, i, Waiting(false), IsPresent);
  }

  lemma TakeKeeps(s: State, i: nat)
    requires Inside(s, i) && s.queue != []
    ensures Inv(Proceed(s, i).0)
  {
    hide Held, Count, Popped, Max, Min;
    var n := Share(s);
    var t := Running(Popped(s.queue, n), s.fAllOk);
    PoppedSplits(s.queue, n);
    HeldFill(s.threads, i, t);
    MoveHeld(multiset(s.queue), multiset(s.queue[..|s.queue| - n]), Held(s.threads), multiset(t.batch), s.ledger.done);
    CountUpdate(s.threads, i, t, IsWaiting);
    CountUpdate(s.threads, i, t, IsPresent);
  }

  lemma AddKeeps(s: State, cs: seq<Check>, k: nat)
    requires Inv(s) && Enabled(s, Add(cs, k))
    ensures Inv(Added(s, cs, k))
  {
    hide Held, Count;
    NotifyKeeps(s.threads, k);
    NotifyAllKeeps(s.threads);
    hide MayWake;
    MoreQueued(s.queue, cs, Held(s.threads), s.ledger.done);
  }

  /** Every step keeps the invariant, and a result is true exactly when every check added since the last one is. */
  lemma StepKeeps(s: State, step: Step)
    requires Inv(s) && Enabled(s, step)
    ensures Inv(Next(s, step).0)
    ensures var (t, ret) := Next(s, step);
            && (ret.Result? ==> !step.Add? && step.i == MASTER && t.ledger.added == multiset{})
            && (ret.Result? ==> (ret.fRet <==> forall c :: c in s.ledger.added ==> c.ok))
            && (ret.Nothing? ==> t.ledger.added == if step.Add? then s.ledger.added + multiset(step.cs) else s.ledger.added)
  {
    hide Inv, Inside, Added;
    match step
    case Add(cs, k) =>
      AddKeeps(s, cs, k);
      AddedTotal(s, cs, k);
    case Enter(i) => EnterInside(s, i); ProceedKeeps(Entered(s), i);
    case Finish(i) => AccountInside(s, i); ProceedKeeps(Accounted(s, i), i);
    case Wake(i) => WakeInside(s, i); ProceedKeeps(Woken(s, i), i);
  }

  lemma AddedTotal(s: State, cs: seq<Check>, k: nat)
    requires k < |s.threads|
    ensures Added(s, cs, k).ledger.added == s.ledger.added + multiset(cs)
  {
  }

  // --- Whole runs ---

  function Initial(workers: nat, nBatchSize: nat): State {
    State([], 0, 0, true, 0, nBatchSize, seq(workers + 1, i => Absent), BLANK)
  }

  lemma {:induction false} NobodyYet(ts: seq<Thread>)
    requires forall i :: 0 <= i < |ts| ==> ts[i].Absent?
    ensures Held(ts) == multiset{} && Count(ts, IsWaiting) == 0 && Count(ts, IsPresent) == 0
  {
    if ts != [] {
      NobodyYet(ts[..|ts| - 1]);
    }
  }

  lemma InitialInv(workers: nat, nBatchSize: nat)
    ensures Inv(Initial(workers, nBatchSize))
  {
    hide Held, Count;
    NobodyYet(Initial(workers, nBatchSize).threads);
  }

  ghost predicate Admissible(s: State, steps: seq<Step>)
    requires Inv(s)
    decreases |steps|
  {
    steps == [] ||
    (Enabled(s, steps[0]) && (StepKeeps(s, steps[0]); Admissible(Next(s, steps[0]).0, steps[1..])))
  }

  // What the master observes: the checks it hands over and the results it gets.
  datatype Event = Handed(cs: seq<Check>) | Returned(fRet: bool)

  function Observed(step: Step, ret: Outcome): seq<Event> {
    if step.Add? then [Handed(step.cs)] else if ret.Result? then [Returned(ret.fRet)] else []
  }

  ghost function Trace(s: State, steps: seq<Step>): seq<Event>
    requires Inv(s) && Admissible(s, steps)
    decreases |steps|
  {
    if steps == [] then []
    else
      StepKeeps(s, steps[0]);
      var (t, ret) := Next(s, steps[0]);
      Observed(steps[0], ret) + Trace(t, steps[1..])
  }

  // The sequential meaning: each result is the conjunction of exactly the checks handed over since the previous one.
  ghost predicate Faithful(tr: seq<Event>, pending: multiset<Check>) {
    tr == [] ||
    match tr[0]
    case Handed(cs) => Faithful(tr[1..], pending + multiset(cs))
    case Returned(fRet) => (fRet <==> forall c :: c in pending ==> c.ok) && Faithful(tr[1..], multiset{})
  }

  /** In every interleaving every result is right, whatever ran before it. */
  lemma {:induction false} RunFaithful(s: State, steps: seq<Step>)
    requires Inv(s) && Admissible(s, steps)
    ensures Faithful(Trace(s, steps), s.ledger.added)
    decreases |steps|
  {
    if steps != [] {
      hide Inv, Enabled, Next, Faithful;
      StepKeeps(s, steps[0]);
      var (t, ret) := Next(s, steps[0]);
      RunFaithful(t, steps[1..]);
      FaithfulStep(steps[0], ret, Trace(t, steps[1..]), s.ledger.added, t.ledger.added);
    }
  }

  lemma FaithfulStep(step: Step, ret: Outcome, rest: seq<Event>, pending: multiset<Check>, pending': multiset<Check>)
    requires Faithful(rest, pending')
    requires ret.Result? ==> !step.Add? && pending' == multiset{} && (ret.fRet <==> forall c :: c in pending ==> c.ok)
    requires ret.Nothing? ==> pending' == if step.Add? then pending + multiset(step.cs) else pending
    ensures Faithful(Observed(step, ret) + rest, pending)
  {
    var o := Observed(step, ret);
    if o == [] {
      assert o + rest == rest;
    } else {
      assert (o + rest)[0] == o[0] && (o + rest)[1..] == rest;
    }
  }

  // --- Nobody waits for ever ---

  /** A waiting master has a notification pending, or some worker is running and can take its next step. */
  lemma MasterNotStuck(s: State)
    requires Inv(s) && s.threads[MASTER].Waiting?
    ensures s.threads[MASTER].notified || exists i :: 1 <= i < |s.threads| && Enabled(s, Finish(i))
  {
    if !s.threads[MASTER].notified {
      assert Held(s.threads) != multiset{};
      SomeRunning(s.threads);
      var i :| 0 <= i < |s.threads| && s.threads[i].Running?;
      assert Enabled(s, Finish(i));
    }
  }

  // A spurious wake-up with nothing to do.
  predicate Idle(s: State, step: Step) {
    step.Wake? && step.i < |s.threads| && Blocked(s.threads[step.i]) && s.queue == []
  }

  datatype Measure = Measure(nTodo: int, queued: nat, absent: nat, notified: nat)

  function Remaining(s: State): Measure {
    Measure(s.nTodo, |s.queue|, Count(s.threads, IsAbsent), Count(s.threads, IsNotified))
  }

  predicate Less(a: Measure, b: Measure) {
    a.nTodo < b.nTodo || (a.nTodo == b.nTodo && (a.queued < b.queued || (a.queued == b.queued
    && (a.absent < b.absent || (a.absent == b.absent && a.notified < b.notified)))))
  }

  lemma ProceedShrinks(s: State, i: nat)
    requires Inside(s, i)
    ensures var (t, ret) := Proceed(s, i);
            && t.nTodo == s.nTodo && |t.queue| <= |s.queue| && (|t.queue| == |s.queue| ==> s.queue == [])
            && (ret.Nothing? ==> Count(t.threads, IsAbsent) == Count(s.threads, IsAbsent) - 1)
            && (ret.Nothing? ==> Count(t.threads, IsNotified) == Count(s.threads, IsNotified))
  {
    hide Held, Count, Popped, Max, Min, Honest, NoLostWakeup;
    var (t, ret) := Proceed(s, i);
    if ret.Nothing? {
      assert t.threads == s.threads[i := t.threads[i]];
      CountUpdate(s.threads, i, t.threads[i], IsAbsent);
      CountUpdate(s.threads, i, t.threads[i], IsNotified);
    }
  }

  /** A step of a session returns the result, brings its end nearer, or is an idle wake-up that changes nothing. */
  lemma Progress(s: State, step: Step)
    requires Inv(s) && Enabled(s, step) && !step.Add?
    ensures var (t, ret) := Next(s, step);
            if Idle(s, step) then t == s && ret.Nothing? else ret.Result? || Less(Remaining(t), Remaining(s))
  {
    hide Inside, Held, Count, Popped, Share;
    match step
    case Enter(i) =>
      EnterInside(s, i);
      ProceedShrinks(Entered(s), i);
    case Finish(i) =>
      AccountInside(s, i);
      ProceedShrinks(Accounted(s, i), i);
    case Wake(i) =>
      WakeInside(s, i);
      ProceedShrinks(Woken(s, i), i);
      CountUpdate(s.threads, i, Absent, IsAbsent);
      CountUpdate(s.threads, i, Absent, IsNotified);
      if Idle(s, step) {
        IdleIsNothing(s, i);
      }
  }

  lemma IdleIsNothing(s: State, i: nat)
    requires Inv(s) && Enabled(s, Wake(i)) && Idle(s, Wake(i))
    ensures Next(s, Wake(i)) == (s, Nothing)
  {
    assert s.threads[i := Absent][i := Waiting(false)] == s.threads;
  }

  predicate Useful(s: State, step: Step) {
    Enabled(s, step) && !step.Add? && !Idle(s, step)
  }

  lemma SomethingUseful(s: State) returns (step: Step)
    requires Inv(s) && MasterPresent(s)
    ensures Useful(s, step)
  {
    if s.threads[MASTER].Running? {
      step := Finish(MASTER);
    } else if s.threads[MASTER].notified {
      step := Wake(MASTER);
    } else {
      MasterNotStuck(s);
      var i :| 1 <= i < |s.threads| && Enabled(s, Finish(i));
      step := Finish(i);
    }
  }

  // The steps h lead from s0 to s.
  ghost predicate Reaches(s0: State, h: seq<Step>, s: State) {
    if h == [] then s == s0
    else exists r :: Reaches(s0, h[..|h| - 1], r) && Inv(r) && Enabled(r, h[|h| - 1]) && Next(r, h[|h| - 1]).0 == s
  }

  /** Under any scheduler that keeps taking steps that are not idle, a waiting master gets its result. */
  method Drain(s0: State, schedule: seq<Step> -> Step) returns (fRet: bool)
    requires Inv(s0) && MasterPresent(s0)
    requires forall h, s, step {:trigger Reaches(s0, h, s), Useful(s, step)} :: Reaches(s0, h, s) && Useful(s, step) ==> Useful(s, schedule(h))
    ensures fRet <==> forall c :: c in s0.ledger.added ==> c.ok
  {
    hide Inv, Enabled, Next, Idle, Remaining;
    var s := s0;
    var h: seq<Step> := [];
    while true
      invariant Reaches(s0, h, s)
      invariant Inv(s) && MasterPresent(s) && s.ledger.added == s0.ledger.added
      decreases Remaining(s).nTodo, Remaining(s).queued, Remaining(s).absent, Remaining(s).notified
    {
      ghost var w := SomethingUseful(s);
      var step := schedule(h);
      StepKeeps(s, step);
      Progress(s, step);
      OnlyResultLeaves(s, step);
      Floor(s);
      var (t, ret) := Next(s, step);
      if ret.Result? {
        return ret.fRet;
      }
      assert (h + [step])[..|h|] == h;
      s, h := t, h + [step];
    }
  }

  predicate MasterPresent(s: State) { s.threads != [] && !s.threads[MASTER].Absent? }

  lemma Floor(s: State)
    requires Inv(s)
    ensures Remaining(s).nTodo >= 0
  {
  }

  lemma OnlyResultLeaves(s: State, step: Step)
    requires Inv(s) && Enabled(s, step) && !step.Add? && MasterPresent(s)
    ensures var (t, ret) := Next(s, step); ret.Nothing? ==> MasterPresent(t)
  {
    hide Inv, Held, Count, Popped, Share, Startable;
  }

  // --- The queue itself ---

  class Queue {
    var queue: seq<Check>
    var nIdle: int
    var nTotal: int
    var fAllOk: bool
    var nTodo: int
    const nBatchSize: nat
    // What each thread keeps in the locals of its loop between two critical sections.
    var threads: seq<Thread>
    ghost var ledger: Ledger

    ghost function Current(): State
      reads this
    {
      State(queue, nIdle, nTotal, fAllOk, nTodo, nBatchSize, threads, ledger)
    }

    constructor (nBatchSizeIn: nat, workers: nat)
      ensures Current() == Initial(workers, nBatchSizeIn) && Inv(Current())
    {
      nIdle, nTotal, fAllOk, nTodo, nBatchSize := 0, 0, true, 0, nBatchSizeIn;
      queue, threads := [], seq(workers + 1, i => Absent);
      ledger := BLANK;
      InitialInv(workers, nBatchSizeIn);
    }

    method Add(vChecks: seq<Check>, k: nat)
      requires Inv(Current()) && Enabled(Current(), Step.Add(vChecks, k))
      modifies this
      ensures Current() == Added(old(Current()), vChecks, k) && Inv(Current())
    {
      hide Inv, Hand, AllNotified;
      AddKeeps(Current(), vChecks, k);
      queue := PushAll(queue, vChecks);
      nTodo := nTodo + |vChecks|;
      if |vChecks| == 1 {
        if k != MASTER {
          threads := Notified(threads, k);
        }
      } else if |vChecks| > 1 {
        threads := AllNotified(threads);
      }
      ledger := Hand(ledger, vChecks);
    }

    // The rest of the critical section of thread i, after the clean-up.
    method GoOn(i: nat) returns (ret: Outcome)
      requires Inside(Current(), i)
      modifies this
      ensures (Current(), ret) == Proceed(old(Current()), i) && Inv(Current())
    {
      hide Inv, Inside, Share, Popped;
      ghost var s := Current();
      ProceedKeeps(s, i);
      CanStart(s, i);
      if queue == [] {
        if i == MASTER && nTodo == 0 {
          nTotal := nTotal - 1;
          ret := Result(fAllOk);
          fAllOk := true;
          threads := threads[i := Absent];
          ledger := BLANK;
        } else {
          nIdle := nIdle + 1;
          threads := threads[i := Waiting(false)];
          ret := Nothing;
        }
      } else {
        var nNow := Share(State(queue, nIdle, nTotal, fAllOk, nTodo, nBatchSize, threads, BLANK));
        ShareOf(Current());
        var vChecks;
        queue, vChecks := TakeBatch(queue, nNow);
        threads := threads[i := Running(vChecks, fAllOk)];
        ret := Nothing;
      }
    }

    method Enter(i: nat) returns (ret: Outcome)
      requires Inv(Current()) && Enabled(Current(), Step.Enter(i))
      modifies this
      ensures (Current(), ret) == Next(old(Current()), Step.Enter(i)) && Inv(Current())
    {
      hide Inv, Inside, Proceed;
      EnterInside(Current(), i);
      nTotal := nTotal + 1;
      ret := GoOn(i);
    }

    method Wake(i: nat) returns (ret: Outcome)
      requires Inv(Current()) && Enabled(Current(), Step.Wake(i))
      modifies this
      ensures (Current(), ret) == Next(old(Current()), Step.Wake(i)) && Inv(Current())
    {
      hide Inv, Inside, Proceed;
      WakeInside(Current(), i);
      nIdle := nIdle - 1;
      threads := threads[i := Absent];
      ret := GoOn(i);
    }

    // Evaluate a batch outside the lock, then account for it.
    method Finish(i: nat) returns (ret: Outcome)
      requires Inv(Current()) && Enabled(Current(), Step.Finish(i))
      modifies this
      ensures (Current(), ret) == Next(old(Current()), Step.Finish(i)) && Inv(Current())
    {
      hide Inv, Inside, Proceed, AllOk, Settle;
      ghost var s := Current();
      AccountInside(s, i);
      var vChecks := threads[i].batch;
      var fOk := Evaluate(vChecks, threads[i].fOk);
      fAllOk := fAllOk && fOk;
      nTodo := nTodo - |vChecks|;
      threads := threads[i := Absent];
      if nTodo == 0 && i != MASTER {
        threads := Notified(threads, MASTER);
      }
      ledger := Settle(ledger, vChecks);
      assert Current() == Accounted(s, i);
      ret := GoOn(i);
    }

    method Execute(step: Step) returns (ret: Outcome)
      requires Inv(Current()) && Enabled(Current(), step)
      modifies this
      ensures (Current(), ret) == Next(old(Current()), step) && Inv(Current())
    {
      hide Inv, Enabled, Proceed, Added, Entered, Accounted, Woken;
      match step
      case Add(cs, k) => Add(cs, k); ret := Nothing;
      case Enter(i) => ret := Enter(i);
      case Finish(i) => ret := Finish(i);
      case Wake(i) => ret := Wake(i);
    }
  }

  lemma CanStart(s: State, i: nat)
    requires Inside(s, i)
    ensures Startable(s) && i < |s.threads|
  {
  }

  // The share does not depend on the ledger.
  lemma ShareOf(s: State)
    requires s.queue != [] && 0 <= s.nTotal && 0 <= s.nIdle
    ensures Share(s.(ledger := BLANK)) == Share(s)
  {
  }

  method PushAll(queue: seq<Check>, vChecks: seq<Check>) returns (q: seq<Check>)
    ensures q == queue + vChecks
  {
    q := queue;
    for i := 0 to |vChecks|
      invariant q == queue + vChecks[..i]
    {
      q := q + [vChecks[i]];
    }
  }

  method TakeBatch(queue: seq<Check>, nNow: nat) returns (q: seq<Check>, vChecks: seq<Check>)
    requires nNow <= |queue|
    ensures q == queue[..|queue| - nNow] && vChecks == Popped(queue, nNow)
  {
    q, vChecks := queue, [];
    for j := 0 to nNow
      invariant q == queue[..|queue| - j] && vChecks == Popped(queue, j)
    {
      PoppedMore(queue, j);
      vChecks := vChecks + [q[|q| - 1]];
      q := q[..|q| - 1];
    }
  }

  method Evaluate(vChecks: seq<Check>, fOk0: bool) returns (fOk: bool)
    ensures fOk == (fOk0 && AllOk(vChecks))
  {
    fOk := fOk0;
    for j := 0 to |vChecks|
      invariant fOk == (fOk0 && AllOk(vChecks[..j]))
    {
      if fOk {
        fOk := vChecks[j].ok;
      }
    }
    assert vChecks[..|vChecks|] == vChecks;
  }

  /** Any interleaving of a fresh queue, from any number of workers: what the master observes is faithful. */
  method Run(nBatchSize: nat, workers: nat, steps: seq<Step>) returns (events: seq<Event>)
    requires (InitialInv(workers, nBatchSize); Admissible(Initial(workers, nBatchSize), steps))
    ensures Faithful(events, multiset{})
  {
    hide Inv, Enabled, Next, Faithful, Initial;
    InitialInv(workers, nBatchSize);
    StartsBlank(workers, nBatchSize);
    ghost var s0 := Initial(workers, nBatchSize);
    var q := new Queue(nBatchSize, workers);
    RunFaithful(s0, steps);
    events := [];
    for n := 0 to |steps|
      invariant Inv(q.Current()) && Admissible(q.Current(), steps[n..])
      invariant events + Trace(q.Current(), steps[n..]) == Trace(s0, steps)
    {
      ghost var s := q.Current();
      assert steps[n..][0] == steps[n] && steps[n..][1..] == steps[n + 1..];
      var ret := q.Execute(steps[n]);
      var o := Observed(steps[n], ret);
      assert events + (o + Trace(q.Current(), steps[n + 1..])) == (events + o) + Trace(q.Current(), steps[n + 1..]);
      events := events + o;
    }
    assert events + [] == events;
  }

  lemma StartsBlank(workers: nat, nBatchSize: nat)
    ensures Initial(workers, nBatchSize).ledger.added == multiset{}
  {
  }
}
