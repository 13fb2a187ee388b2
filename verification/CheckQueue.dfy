/**
 * The parallel check queue (src/checkqueue.h): one master adds checks and then joins a pool of
 * workers until every check is done. The protocol is a state machine: each step is one critical section of
 * one thread, one check evaluated outside the lock, or a wake-up, and any thread may move next. Thread 0 is
 * the master. A check is a value, and `eval` says what it returns; no thread asks the queue to stop.
 */
module CheckQueue {
  import opened Wrappers
  import opened Powers
  import opened Multisets

  type Check = nat

  datatype Env = Env(eval: Check -> bool, batchSize: nat)

  /**
   * Where a thread stands whenever the lock is free. Outside and Notifying are for a master that is not
   * waiting; a blocked thread is inside its condition variable, a woken one has left it but does not
   * hold the lock yet.
   */
  datatype Thread =
    | Outside
    | Notifying(all: bool)
    | Ready
    | Busy(batch: seq<Check>, run: nat, ok: bool)
    | Blocked
    | Woken

  /** A finished Wait: what had been added since the one before, and what it returned. */
  datatype Verdict = Verdict(checks: multiset<Check>, result: bool)

  /**
   * The shared fields, the threads, and a record of the run: the checks added since the last Wait
   * returned, those of them that are finished, and the verdicts so far.
   */
  datatype State = State(
    queue: seq<Check>, nIdle: int, nTotal: int, allOk: bool, nTodo: int, threads: seq<Thread>,
    added: multiset<Check>, finished: multiset<Check>, verdicts: seq<Verdict>)

  datatype Step =
    | Add(checks: seq<Check>)
    | Notify(worker: nat)
    | CallWait
    | Enter(thread: nat)
    | Evaluate(thread: nat)
    | WakeSpuriously(thread: nat)

  // ---------------------------------------------------------------------------------------
  // Steps

  predicate MayEnter(t: Thread) {
    t.Ready? || t.Woken? || (t.Busy? && t.run == |t.batch|)
  }

  predicate Enabled(s: State, step: Step)
    requires |s.threads| > 0
  {
    match step
    case Add(_) => s.threads[0].Outside?
    case Notify(w) =>
      && s.threads[0].Notifying?
      && (!s.threads[0].all ==>
            (0 < w < |s.threads| && s.threads[w].Blocked?) || forall i | 0 < i < |s.threads| :: !s.threads[i].Blocked?)
    case CallWait => s.threads[0].Outside?
    case Enter(t) => t < |s.threads| && MayEnter(s.threads[t])
    case Evaluate(t) => t < |s.threads| && s.threads[t].Busy? && s.threads[t].run < |s.threads[t].batch|
    case WakeSpuriously(t) => t < |s.threads| && s.threads[t].Blocked?
  }

  /** How many checks a thread takes at once. */
  function BatchSize(env: Env, queued: int, nTotal: int, nIdle: int): int
    requires nTotal + nIdle + 1 > 0
  {
    Max(1, Min(env.batchSize, queued / (nTotal + nIdle + 1)))
  }

  /** The checks at the back of the queue, last first. */
  function Taken(queue: seq<Check>, n: nat): (r: seq<Check>)
    requires n <= |queue|
    ensures |r| == n
  {
    seq(n, i requires 0 <= i < n => queue[|queue| - 1 - i])
  }

  function Woke(t: Thread): Thread {
    if t.Blocked? then Woken else t
  }

  function WakeWorkers(ts: seq<Thread>): (r: seq<Thread>)
    ensures |r| == |ts| && forall i | 0 <= i < |ts| :: r[i] == if i == 0 then ts[i] else Woke(ts[i])
  {
    seq(|ts|, i requires 0 <= i < |ts| => if i == 0 then ts[i] else Woke(ts[i]))
  }

  /** The clean-up a thread does on entering: it hands in its batch, joins the pool, or stops being idle. */
  function Cleaned(s: State, t: nat): State
    requires t < |s.threads| && |s.threads| > 0 && MayEnter(s.threads[t])
  {
    match s.threads[t]
    case Busy(batch, _, ok) =>
      var todo := s.nTodo - |batch|;
      s.(allOk := s.allOk && ok, nTodo := todo, finished := s.finished + multiset(batch),
         threads := if todo == 0 && t != 0 then s.threads[t := Ready][0 := Woke(s.threads[0])]
                    else s.threads[t := Ready])
    case Ready => s.(nTotal := s.nTotal + 1)
    case Woken => s.(nIdle := s.nIdle - 1, threads := s.threads[t := Ready])
  }

  /** What a thread does once it has cleaned up: return, wait, or take a batch. */
  function Proceeded(env: Env, s: State, t: nat): State
    requires t < |s.threads| && s.nTotal + s.nIdle + 1 > 0
    requires s.queue != [] ==> BatchSize(env, |s.queue|, s.nTotal, s.nIdle) <= |s.queue|
  {
    if s.queue == [] then
      if t == 0 && s.nTodo == 0 then
        s.(nTotal := s.nTotal - 1, allOk := true, threads := s.threads[t := Outside],
           verdicts := s.verdicts + [Verdict(s.added, s.allOk)], added := multiset{}, finished := multiset{})
      else
        s.(nIdle := s.nIdle + 1, threads := s.threads[t := Blocked])
    else
      var n := BatchSize(env, |s.queue|, s.nTotal, s.nIdle);
      s.(queue := s.queue[..|s.queue| - n], threads := s.threads[t := Busy(Taken(s.queue, n), 0, s.allOk)])
  }

  /** The state after a step. */
  function Next(env: Env, s: State, step: Step): State
    requires |s.threads| > 0 && Enabled(s, step) && s.nTotal >= 0 && s.nIdle >= 0
    requires step.Enter? && s.threads[step.thread].Woken? ==> s.nIdle >= 1
  {
    match step
    case Add(checks) =>
      if checks == [] then s else
        s.(queue := s.queue + checks, nTodo := s.nTodo + |checks|, added := s.added + multiset(checks),
           threads := s.threads[0 := Notifying(|checks| != 1)])
    case Notify(w) =>
      if s.threads[0].all then s.(threads := WakeWorkers(s.threads)[0 := Outside])
      else if 0 < w < |s.threads| then s.(threads := s.threads[w := Woke(s.threads[w])][0 := Outside])
      else s.(threads := s.threads[0 := Outside])
    case CallWait => s.(threads := s.threads[0 := Ready])
    case Enter(t) =>
      var c := Cleaned(s, t);
      BatchFits(env, |c.queue|, c.nTotal, c.nIdle);
      Proceeded(env, c, t)
    case Evaluate(t) =>
      var b := s.threads[t];
      s.(threads := s.threads[t := b.(run := b.run + 1, ok := b.ok && env.eval(b.batch[b.run]))])
    case WakeSpuriously(t) => s.(threads := s.threads[t := Woken])
  }

  /** A batch never exceeds the queue. */
  lemma BatchFits(env: Env, queued: int, nTotal: int, nIdle: int)
    requires nTotal >= 0 && nIdle >= 0
    ensures queued >= 1 ==> 1 <= BatchSize(env, queued, nTotal, nIdle) <= queued
    ensures BatchSize(env, queued, nTotal, nIdle) <= Max(1, env.batchSize)
  {
    var k := nTotal + nIdle + 1;
    if queued >= 1 {
      QuotientNatural(queued, k);
      DivideFits(queued, k);
    }
  }

  // ---------------------------------------------------------------------------------------
  // Sums over the threads

  function Idle(ts: seq<Thread>): nat {
    if ts == [] then 0 else IdleAt(ts[0]) + Idle(ts[1..])
  }

  function IdleAt(t: Thread): nat {
    if t.Blocked? || t.Woken? then 1 else 0
  }

  function Active(ts: seq<Thread>): nat {
    if ts == [] then 0 else ActiveAt(ts[0]) + Active(ts[1..])
  }

  function ActiveAt(t: Thread): nat {
    if t.Blocked? || t.Woken? || t.Busy? then 1 else 0
  }

  function InFlight(ts: seq<Thread>): multiset<Check> {
    if ts == [] then multiset{} else BatchAt(ts[0]) + InFlight(ts[1..])
  }

  function BatchAt(t: Thread): multiset<Check> {
    if t.Busy? then multiset(t.batch) else multiset{}
  }

  lemma {:induction false} IdleUpdate(ts: seq<Thread>, i: nat, t: Thread)
    requires i < |ts|
    ensures Idle(ts[i := t]) + IdleAt(ts[i]) == Idle(ts) + IdleAt(t)
  {
    if i == 0 {
      assert ts[i := t][1..] == ts[1..];
    } else {
      assert ts[i := t][1..] == ts[1..][i - 1 := t];
      IdleUpdate(ts[1..], i - 1, t);
    }
  }

  lemma {:induction false} ActiveUpdate(ts: seq<Thread>, i: nat, t: Thread)
    requires i < |ts|
    ensures Active(ts[i := t]) + ActiveAt(ts[i]) == Active(ts) + ActiveAt(t)
  {
    if i == 0 {
      assert ts[i := t][1..] == ts[1..];
    } else {
      assert ts[i := t][1..] == ts[1..][i - 1 := t];
      ActiveUpdate(ts[1..], i - 1, t);
    }
  }

  lemma {:induction false} InFlightUpdate(ts: seq<Thread>, i: nat, t: Thread)
    requires i < |ts|
    ensures InFlight(ts[i := t]) + BatchAt(ts[i]) == InFlight(ts) + BatchAt(t)
  {
    if i == 0 {
      assert ts[i := t][1..] == ts[1..];
    } else {
      hide BatchAt;
      assert ts[i := t][1..] == ts[1..][i - 1 := t];
      InFlightUpdate(ts[1..], i - 1, t);
      WithMore(BatchAt(ts[0]), InFlight(ts[1..][i - 1 := t]), BatchAt(ts[i]), InFlight(ts[1..]), BatchAt(t));
    }
  }

  /** The counts and batches that a change of one thread leaves. */
  lemma SumsUpdate(ts: seq<Thread>, i: nat, t: Thread)
    requires i < |ts|
    ensures Idle(ts[i := t]) == Idle(ts) - IdleAt(ts[i]) + IdleAt(t)
    ensures Active(ts[i := t]) == Active(ts) - ActiveAt(ts[i]) + ActiveAt(t)
    ensures InFlight(ts[i := t]) + BatchAt(ts[i]) == InFlight(ts) + BatchAt(t)
    ensures BatchAt(ts[i]) == BatchAt(t) ==> InFlight(ts[i := t]) == InFlight(ts)
  {
    IdleUpdate(ts, i, t);
    ActiveUpdate(ts, i, t);
    InFlightUpdate(ts, i, t);
    if BatchAt(ts[i]) == BatchAt(t) {
      assert InFlight(ts[i := t]) == InFlight(ts[i := t]) + BatchAt(t) - BatchAt(t);
    }
  }

  /** Threads that differ only in being blocked or woken have the same sums. */
  lemma {:induction false} SumsWoken(ts: seq<Thread>, us: seq<Thread>)
    requires |us| == |ts| && forall i | 0 <= i < |ts| :: us[i] == ts[i] || us[i] == Woke(ts[i])
    ensures Idle(us) == Idle(ts) && Active(us) == Active(ts) && InFlight(us) == InFlight(ts)
  {
    if ts != [] {
      SumsWoken(ts[1..], us[1..]);
    }
  }

  /** Something in flight is in some thread's batch. */
  lemma {:induction false} Holder(ts: seq<Thread>) returns (t: nat)
    requires |InFlight(ts)| > 0
    ensures t < |ts| && ts[t].Busy? && |ts[t].batch| > 0
  {
    if |BatchAt(ts[0])| > 0 {
      t := 0;
    } else {
      t := Holder(ts[1..]);
      t := t + 1;
    }
  }

  lemma {:induction false} InFlightHolds(ts: seq<Thread>, t: nat)
    requires t < |ts| && ts[t].Busy?
    ensures multiset(ts[t].batch) <= InFlight(ts)
  {
    if t > 0 {
      InFlightHolds(ts[1..], t - 1);
    }
  }

  lemma {:induction false} HeldIsCounted(ts: seq<Thread>, t: nat)
    requires t < |ts| && ts[t].Busy?
    ensures |ts[t].batch| <= |InFlight(ts)|
  {
    if t > 0 {
      HeldIsCounted(ts[1..], t - 1);
    }
  }

  // ---------------------------------------------------------------------------------------
  // What every step keeps

  ghost predicate AllTrue(env: Env, checks: multiset<Check>) {
    forall c | c in checks :: env.eval(c)
  }

  ghost predicate ShapeOf(t: Thread) {
    t.Busy? ==> t.run <= |t.batch| && t.batch != []
  }

  ghost predicate Shape(ts: seq<Thread>) {
    && |ts| > 0
    && (forall i | 0 < i < |ts| :: !ts[i].Outside? && !ts[i].Notifying?)
    && (forall i | 0 <= i < |ts| :: ShapeOf(ts[i]))
  }

  /** The counters count the threads; `inside` is 1 while a thread is in its critical section. */
  ghost predicate Counts(nIdle: int, nTotal: int, ts: seq<Thread>, inside: nat) {
    nIdle == Idle(ts) && nTotal == Active(ts) + inside
  }

  /** Every check added is queued, in flight or finished, and those not finished are counted. */
  ghost predicate Conserved(nTodo: int, queue: seq<Check>, flying: multiset<Check>, added: multiset<Check>,
                            finished: multiset<Check>) {
    nTodo == |queue| + |flying| && added == finished + multiset(queue) + flying
  }

  /** A batch that claims success evaluated to true so far; one that does not has a failed check behind it. */
  ghost predicate HonestThread(env: Env, t: Thread, failed: bool) {
    t.Busy? ==>
      && (t.ok ==> forall i | 0 <= i < t.run && i < |t.batch| :: env.eval(t.batch[i]))
      && (!t.ok ==> failed)
  }

  ghost predicate HonestThreads(env: Env, ts: seq<Thread>, failed: bool) {
    forall i | 0 <= i < |ts| :: HonestThread(env, ts[i], failed)
  }

  ghost predicate HonestFlag(env: Env, allOk: bool, finished: multiset<Check>, added: multiset<Check>) {
    (allOk ==> AllTrue(env, finished)) && (!allOk ==> !AllTrue(env, added))
  }

  /** Each Wait returned true exactly when every check added since the one before evaluates to true. */
  ghost predicate Judged(env: Env, verdicts: seq<Verdict>) {
    forall i | 0 <= i < |verdicts| :: verdicts[i].result <==> AllTrue(env, verdicts[i].checks)
  }

  /** A blocked master waits for checks that others hold. */
  ghost predicate Fed(ts: seq<Thread>, queue: seq<Check>, nTodo: int) {
    |ts| > 0 && ts[0].Blocked? ==> queue == [] && nTodo > 0
  }

  ghost predicate Inv(env: Env, s: State, inside: nat) {
    && |s.threads| > 0 && Shape(s.threads)
    && Counts(s.nIdle, s.nTotal, s.threads, inside)
    && Conserved(s.nTodo, s.queue, InFlight(s.threads), s.added, s.finished)
    && HonestThreads(env, s.threads, !AllTrue(env, s.added))
    && HonestFlag(env, s.allOk, s.finished, s.added)
    && Judged(env, s.verdicts)
    && Fed(s.threads, s.queue, s.nTodo)
  }

  /** What a change of one thread keeps by itself. */
  lemma ThreadChanges(env: Env, ts: seq<Thread>, t: nat, x: Thread, failed: bool)
    requires Shape(ts) && HonestThreads(env, ts, failed) && t < |ts|
    requires ShapeOf(x) && HonestThread(env, x, failed) && (t > 0 ==> !x.Outside? && !x.Notifying?)
    ensures Shape(ts[t := x]) && HonestThreads(env, ts[t := x], failed)
  {
    hide ShapeOf, HonestThread;
  }

  lemma ThreadsWake(env: Env, ts: seq<Thread>, us: seq<Thread>, failed: bool)
    requires Shape(ts) && HonestThreads(env, ts, failed)
    requires |us| == |ts| && forall i | 0 <= i < |ts| :: us[i] == ts[i] || us[i] == Woke(ts[i])
    ensures Shape(us) && HonestThreads(env, us, failed)
  {
    forall i | 0 <= i < |us| ensures ShapeOf(us[i]) && HonestThread(env, us[i], failed) {
      assert ShapeOf(ts[i]) && HonestThread(env, ts[i], failed);
    }
  }

  lemma FewerFailures(env: Env, a: multiset<Check>, b: multiset<Check>)
    requires a <= b && AllTrue(env, b)
    ensures AllTrue(env, a)
  {
    forall c | c in a ensures env.eval(c) {
      assert b[c] >= a[c];
    }
  }

  /** A batch that ran to its end adds only true checks to the finished ones, or there is a failure. */
  lemma BatchHandedIn(env: Env, b: Thread, allOk: bool, finished: multiset<Check>, added: multiset<Check>)
    requires b.Busy? && b.run == |b.batch| && HonestThread(env, b, !AllTrue(env, added))
    requires HonestFlag(env, allOk, finished, added)
    ensures HonestFlag(env, allOk && b.ok, finished + multiset(b.batch), added)
  {
    if allOk && b.ok {
      forall x | x in finished + multiset(b.batch) ensures env.eval(x) {
        if x in multiset(b.batch) {
          assert x in b.batch;
        }
      }
    }
  }

  lemma Handed(nTodo: int, queue: seq<Check>, flying: multiset<Check>, added: multiset<Check>,
               finished: multiset<Check>,
               batch: seq<Check>, flying': multiset<Check>)
    requires Conserved(nTodo, queue, flying, added, finished) && flying' + multiset(batch) == flying
    ensures Conserved(nTodo - |batch|, queue, flying', added, finished + multiset(batch))
  {
    assert |flying| == |flying'| + |batch|;
  }

  lemma ReadyIsFine(env: Env, failed: bool)
    ensures ShapeOf(Ready) && HonestThread(env, Ready, failed) && ShapeOf(Blocked) && HonestThread(env, Blocked, failed)
    ensures ShapeOf(Outside) && HonestThread(env, Outside, failed) && ShapeOf(Woken) && HonestThread(env, Woken, failed)
    ensures forall all :: ShapeOf(Notifying(all)) && HonestThread(env, Notifying(all), failed)
  {
  }

  lemma ThreadIsHonest(env: Env, ts: seq<Thread>, t: nat, failed: bool)
    requires HonestThreads(env, ts, failed) && Shape(ts) && t < |ts|
    ensures HonestThread(env, ts[t], failed) && ShapeOf(ts[t])
  {
  }

  lemma TodoIsNatural(nTodo: int, queue: seq<Check>, flying: multiset<Check>, added: multiset<Check>,
                      finished: multiset<Check>)
    requires Conserved(nTodo, queue, flying, added, finished)
    ensures nTodo >= |queue| && nTodo >= |flying|
  {
  }

  /** Handing in a batch. */
  lemma HandedIn(env: Env, s: State, t: nat)
    requires Inv(env, s, 0) && t < |s.threads| && s.threads[t].Busy? && MayEnter(s.threads[t])
    ensures Inv(env, Cleaned(s, t), 1)
  {
    hide Shape, Conserved, HonestThreads, HonestFlag, Judged, Idle, Active, InFlight, AllTrue, HonestThread;
    var b, ts, failed, c := s.threads[t], s.threads[t := Ready], !AllTrue(env, s.added), Cleaned(s, t);
    SumsUpdate(s.threads, t, Ready);
    ReadyIsFine(env, failed);
    ThreadChanges(env, s.threads, t, Ready, failed);
    SumsWoken(ts, c.threads);
    ThreadsWake(env, ts, c.threads, failed);
    ThreadIsHonest(env, s.threads, t, failed);
    BatchHandedIn(env, b, s.allOk, s.finished, s.added);
    assert InFlight(c.threads) + multiset(b.batch) == InFlight(s.threads);
    Handed(s.nTodo, s.queue, InFlight(s.threads), s.added, s.finished, b.batch, InFlight(c.threads));
    TodoIsNatural(c.nTodo, c.queue, InFlight(c.threads), c.added, c.finished);
  }

  /** Joining the pool, or stopping to be idle. */
  lemma JoinedIn(env: Env, s: State, t: nat)
    requires Inv(env, s, 0) && t < |s.threads| && (s.threads[t].Ready? || s.threads[t].Woken?)
    ensures Inv(env, Cleaned(s, t), 1) && (s.threads[t].Woken? ==> s.nIdle >= 1)
  {
    hide Shape, Conserved, HonestThreads, HonestFlag, Judged, Idle, Active, InFlight, AllTrue, HonestThread;
    var failed := !AllTrue(env, s.added);
    SumsUpdate(s.threads, t, Ready);
    ReadyIsFine(env, failed);
    ThreadChanges(env, s.threads, t, Ready, failed);
    assert s.threads[t].Ready? ==> s.threads[t := Ready] == s.threads;
  }

  lemma CleanedKeepsInv(env: Env, s: State, t: nat)
    requires Inv(env, s, 0) && t < |s.threads| && MayEnter(s.threads[t])
    ensures var c := Cleaned(s, t);
            Inv(env, c, 1) && t < |c.threads| && c.threads[t].Ready? && (s.threads[t].Woken? ==> s.nIdle >= 1)
  {
    hide Inv;
    if s.threads[t].Busy? {
      HandedIn(env, s, t);
    } else {
      JoinedIn(env, s, t);
    }
  }

  /** With nothing left to do no thread holds a batch. */
  lemma NothingHeld(env: Env, ts: seq<Thread>, failed: bool)
    requires Shape(ts) && |InFlight(ts)| == 0
    ensures HonestThreads(env, ts, failed)
  {
    forall i | 0 <= i < |ts| ensures !ts[i].Busy? {
      assert ShapeOf(ts[i]);
      if ts[i].Busy? {
        HeldIsCounted(ts, i);
      }
    }
  }

  /** Wait returns when nothing is queued and nothing in flight, so everything added is finished. */
  lemma ReturnKeepsInv(env: Env, s: State)
    requires Inv(env, s, 1) && s.threads[0].Ready? && s.queue == [] && s.nTodo == 0
    ensures Inv(env, Proceeded(env, s, 0), 0)
  {
    hide Shape, HonestThreads, Idle, Active, InFlight, AllTrue, HonestThread;
    var p := Proceeded(env, s, 0);
    SumsUpdate(s.threads, 0, Outside);
    ReadyIsFine(env, !AllTrue(env, s.added));
    ThreadChanges(env, s.threads, 0, Outside, !AllTrue(env, s.added));
    assert InFlight(s.threads) == multiset{};
    assert s.added == s.finished;
    NothingHeld(env, p.threads, !AllTrue(env, p.added));
    NothingFails(env);
  }

  lemma NothingFails(env: Env)
    ensures AllTrue(env, multiset{})
  {
  }

  lemma BlockKeepsInv(env: Env, s: State, t: nat)
    requires Inv(env, s, 1) && t < |s.threads| && s.threads[t].Ready? && s.queue == [] && (t != 0 || s.nTodo != 0)
    ensures Inv(env, Proceeded(env, s, t), 0)
  {
    hide Shape, Conserved, HonestThreads, HonestFlag, Judged, Idle, Active, InFlight, AllTrue, HonestThread;
    SumsUpdate(s.threads, t, Blocked);
    ReadyIsFine(env, !AllTrue(env, s.added));
    ThreadChanges(env, s.threads, t, Blocked, !AllTrue(env, s.added));
    TodoIsNatural(s.nTodo, s.queue, InFlight(s.threads), s.added, s.finished);
  }

  /** Taking a batch moves checks from the queue to a thread. */
  lemma TakeKeepsInv(env: Env, s: State, t: nat)
    requires Inv(env, s, 1) && t < |s.threads| && s.threads[t].Ready? && s.queue != []
    ensures BatchSize(env, |s.queue|, s.nTotal, s.nIdle) <= |s.queue|
    ensures Inv(env, Proceeded(env, s, t), 0)
  {
    hide Shape, Conserved, HonestThreads, Judged, Idle, Active, InFlight, AllTrue, Taken, BatchSize;
    BatchFits(env, |s.queue|, s.nTotal, s.nIdle);
    var n := BatchSize(env, |s.queue|, s.nTotal, s.nIdle);
    var x := Busy(Taken(s.queue, n), 0, s.allOk);
    SumsUpdate(s.threads, t, x);
    ThreadChanges(env, s.threads, t, x, !AllTrue(env, s.added));
    var p := Proceeded(env, s, t);
    Dequeued(s.nTodo, s.queue, InFlight(s.threads), s.added, s.finished, n, InFlight(p.threads));
  }

  lemma Dequeued(nTodo: int, queue: seq<Check>, flying: multiset<Check>, added: multiset<Check>,
                 finished: multiset<Check>,
                 n: nat, flying': multiset<Check>)
    requires Conserved(nTodo, queue, flying, added, finished) && n <= |queue|
    requires flying' == flying + multiset(Taken(queue, n))
    ensures Conserved(nTodo, queue[..|queue| - n], flying', added, finished)
  {
    hide Taken;
    TakenChecks(queue, n);
    var left, taken := multiset(queue[..|queue| - n]), multiset(Taken(queue, n));
    assert finished + left + (flying + taken) == finished + (left + taken) + flying;
  }

  lemma {:induction false} TakenChecks(queue: seq<Check>, n: nat)
    requires n <= |queue|
    ensures multiset(queue[..|queue| - n]) + multiset(Taken(queue, n)) == multiset(queue)
  {
    if n == 0 {
      assert queue[..|queue|] == queue;
    } else {
      TakenChecks(queue, n - 1);
      var x := queue[|queue| - n];
      assert queue[..|queue| - (n - 1)] == queue[..|queue| - n] + [x];
      assert Taken(queue, n) == Taken(queue, n - 1) + [x];
    }
  }

  lemma EnterKeepsInv(env: Env, s: State, t: nat)
    requires Inv(env, s, 0) && Enabled(s, Enter(t)) && s.nTotal >= 0 && s.nIdle >= 0
    ensures s.threads[t].Woken? ==> s.nIdle >= 1
    ensures Inv(env, Next(env, s, Enter(t)), 0)
  {
    hide Inv, Proceeded, Cleaned;
    CleanedKeepsInv(env, s, t);
    var c := Cleaned(s, t);
    CountsAreNatural(env, c, 1);
    if c.queue != [] {
      TakeKeepsInv(env, c, t);
    } else if t == 0 && c.nTodo == 0 {
      ReturnKeepsInv(env, c);
    } else {
      BlockKeepsInv(env, c, t);
    }
  }

  lemma CountsAreNatural(env: Env, s: State, inside: nat)
    requires Inv(env, s, inside)
    ensures s.nTotal >= 0 && s.nIdle >= 0 && |s.threads| > 0
  {
  }

  lemma AddKeepsInv(env: Env, s: State, checks: seq<Check>)
    requires Inv(env, s, 0) && Enabled(s, Add(checks)) && s.nTotal >= 0 && s.nIdle >= 0
    ensures Inv(env, Next(env, s, Add(checks)), 0)
  {
    hide Shape, HonestThreads, Idle, Active, InFlight, AllTrue, HonestThread, Judged;
    if checks != [] {
      var x, n := Notifying(|checks| != 1), Next(env, s, Add(checks));
      SumsUpdate(s.threads, 0, x);
      ReadyIsFine(env, !AllTrue(env, s.added));
      ThreadChanges(env, s.threads, 0, x, !AllTrue(env, s.added));
      assert s.added <= n.added;
      StillFailed(env, n.threads, s.added, n.added);
      assert multiset(s.queue + checks) == multiset(s.queue) + multiset(checks);
    }
  }

  /** Adding checks does not undo a failure. */
  lemma StillFailed(env: Env, ts: seq<Thread>, added: multiset<Check>, more: multiset<Check>)
    requires added <= more && HonestThreads(env, ts, !AllTrue(env, added))
    ensures HonestThreads(env, ts, !AllTrue(env, more)) && (!AllTrue(env, added) ==> !AllTrue(env, more))
  {
    if AllTrue(env, more) {
      FewerFailures(env, added, more);
    }
    forall i | 0 <= i < |ts| ensures HonestThread(env, ts[i], !AllTrue(env, more)) {
      assert HonestThread(env, ts[i], !AllTrue(env, added));
    }
  }

  lemma NotifyKeepsInv(env: Env, s: State, w: nat)
    requires Inv(env, s, 0) && Enabled(s, Notify(w)) && s.nTotal >= 0 && s.nIdle >= 0
    ensures Inv(env, Next(env, s, Notify(w)), 0)
  {
    hide Shape, Conserved, HonestThreads, HonestFlag, Judged, Idle, Active, InFlight, AllTrue, HonestThread;
    var woken := if s.threads[0].all then WakeWorkers(s.threads)
                 else if 0 < w < |s.threads| then s.threads[w := Woke(s.threads[w])] else s.threads;
    SumsWoken(s.threads, woken);
    SumsUpdate(woken, 0, Outside);
    ThreadsWake(env, s.threads, woken, !AllTrue(env, s.added));
    ReadyIsFine(env, !AllTrue(env, s.added));
    ThreadChanges(env, woken, 0, Outside, !AllTrue(env, s.added));
  }

  lemma EvaluateKeepsInv(env: Env, s: State, t: nat)
    requires Inv(env, s, 0) && Enabled(s, Evaluate(t)) && s.nTotal >= 0 && s.nIdle >= 0
    ensures Inv(env, Next(env, s, Evaluate(t)), 0)
  {
    hide Shape, HonestThreads, HonestFlag, Judged, Idle, Active, InFlight;
    var b, failed := s.threads[t], !AllTrue(env, s.added);
    var c := b.batch[b.run];
    var x := b.(run := b.run + 1, ok := b.ok && env.eval(c));
    SumsUpdate(s.threads, t, x);
    InFlightHolds(s.threads, t);
    assert c in multiset(b.batch) && c in s.added;
    ThreadIsHonest(env, s.threads, t, failed);
    ThreadChanges(env, s.threads, t, x, failed);
  }

  /** A wake-up, or the master entering Wait. */
  lemma MoveKeepsInv(env: Env, s: State, t: nat, x: Thread)
    requires Inv(env, s, 0) && t < |s.threads|
    requires (s.threads[t].Blocked? && x.Woken?) || (t == 0 && s.threads[t].Outside? && x.Ready?)
    ensures Inv(env, s.(threads := s.threads[t := x]), 0)
  {
    hide Shape, Conserved, HonestThreads, HonestFlag, Judged, Idle, Active, InFlight, AllTrue, HonestThread;
    SumsUpdate(s.threads, t, x);
    ReadyIsFine(env, !AllTrue(env, s.added));
    ThreadChanges(env, s.threads, t, x, !AllTrue(env, s.added));
  }

  /** Every step of every thread keeps the invariant. */
  lemma StepKeepsInv(env: Env, s: State, step: Step)
    requires Inv(env, s, 0) && Enabled(s, step)
    ensures s.nTotal >= 0 && s.nIdle >= 0 && (step.Enter? && s.threads[step.thread].Woken? ==> s.nIdle >= 1)
    ensures Inv(env, Next(env, s, step), 0)
  {
    hide Inv, Proceeded, Cleaned;
    CountsAreNatural(env, s, 0);
    match step
    case Add(checks) => AddKeepsInv(env, s, checks);
    case Notify(w) => NotifyKeepsInv(env, s, w);
    case CallWait => MoveKeepsInv(env, s, 0, Ready);
    case Enter(t) => EnterKeepsInv(env, s, t);
    case Evaluate(t) => EvaluateKeepsInv(env, s, t);
    case WakeSpuriously(t) => MoveKeepsInv(env, s, t, Woken);
  }

  // ---------------------------------------------------------------------------------------
  // Runs

  /** The queue right after its workers were started satisfies the invariant, whatever the checks return. */
  function Started(workers: nat): (s: State)
    ensures |s.threads| == workers + 1 && s.threads[0].Outside? && s.queue == [] && s.verdicts == []
    ensures forall env :: Inv(env, s, 0)
  {
    var ts := [Outside] + seq(workers, _ => Ready);
    QuietIsFine(ts);
    State([], 0, 0, true, 0, ts, multiset{}, multiset{}, [])
  }

  lemma QuietIsFine(ts: seq<Thread>)
    requires |ts| > 0 && ts[0].Outside? && forall i | 0 < i < |ts| :: ts[i].Ready?
    ensures forall env :: Inv(env, State([], 0, 0, true, 0, ts, multiset{}, multiset{}, []), 0)
  {
    QuietSums(ts);
  }

  lemma {:induction false} QuietSums(ts: seq<Thread>)
    requires forall i | 0 <= i < |ts| :: ts[i].Outside? || ts[i].Ready?
    ensures Idle(ts) == 0 && Active(ts) == 0 && InFlight(ts) == multiset{}
  {
    if ts != [] {
      QuietSums(ts[1..]);
    }
  }

  /** The steps can be taken one after the other: each is enabled where it is taken. */
  ghost predicate CanRun(env: Env, s: State, steps: seq<Step>)
    requires Inv(env, s, 0)
    decreases |steps|
  {
    hide Inv, Next;
    steps != [] ==>
      && Enabled(s, steps[0])
      && (StepKeepsInv(env, s, steps[0]); CanRun(env, Next(env, s, steps[0]), steps[1..]))
  }

  /** The state after the steps. The invariant holds there because it did at the start and no step loses it. */
  ghost function Ran(env: Env, s: State, steps: seq<Step>): (r: State)
    requires Inv(env, s, 0) && CanRun(env, s, steps)
    ensures Inv(env, r, 0)
    decreases |steps|
  {
    hide Inv, Next;
    if steps == [] then s else
      StepKeepsInv(env, s, steps[0]);
      Ran(env, Next(env, s, steps[0]), steps[1..])
  }

  /**
   * After any interleaving of enabled steps from the start the counters are exact, no check is lost or
   * invented, and each Wait returned true exactly when every check added since the one before evaluates to true.
   */
  lemma EveryRunIsRight(env: Env, workers: nat, steps: seq<Step>)
    requires CanRun(env, Started(workers), steps)
    ensures var r := Ran(env, Started(workers), steps);
            && r.nTodo == |r.queue| + |InFlight(r.threads)|
            && r.nIdle == Idle(r.threads) && r.nTotal == Active(r.threads)
            && r.added == r.finished + multiset(r.queue) + InFlight(r.threads)
            && (forall i | 0 <= i < |r.verdicts| ::
                  r.verdicts[i].result <==> forall c | c in r.verdicts[i].checks :: env.eval(c))
  {
    hide InFlight, Idle, Active, Ran, CanRun;
    var r := Ran(env, Started(workers), steps);
    assert Inv(env, r, 0);
    forall i | 0 <= i < |r.verdicts|
      ensures r.verdicts[i].result <==> forall c | c in r.verdicts[i].checks :: env.eval(c)
    {
      assert r.verdicts[i].result <==> AllTrue(env, r.verdicts[i].checks);
    }
  }

  /** A blocked master that no one has woken yet waits for a worker that holds a batch. */
  lemma BlockedMasterHasHelp(env: Env, s: State) returns (worker: nat)
    requires Inv(env, s, 0) && s.threads[0].Blocked?
    ensures 0 < worker < |s.threads| && s.threads[worker].Busy? && s.threads[worker].batch != []
  {
    worker := Holder(s.threads);
  }

  /** A step that does work: a critical section or an evaluation, not a call or a wake-up. */
  predicate Works(step: Step) {
    step.Enter? || step.Evaluate?
  }

  /** The master is inside Wait. */
  predicate Waiting(s: State) {
    |s.threads| > 0 && !s.threads[0].Outside? && !s.threads[0].Notifying?
  }

  /** While the master waits, some thread can work. */
  lemma NoDeadlock(env: Env, s: State) returns (step: Step)
    requires Inv(env, s, 0) && Waiting(s)
    ensures Works(step) && Enabled(s, step)
  {
    var t := 0;
    if s.threads[0].Blocked? {
      t := BlockedMasterHasHelp(env, s);
    }
    assert ShapeOf(s.threads[t]);
    step := if MayEnter(s.threads[t]) then Enter(t) else Evaluate(t);
  }

  function RankAt(t: Thread): nat {
    match t
    case Busy(batch, run, _) => 3 + 2 * Max(0, |batch| - run)
    case Ready => 1
    case Woken => 1
    case _ => 0
  }

  function RankSum(ts: seq<Thread>): nat {
    if ts == [] then 0 else RankAt(ts[0]) + RankSum(ts[1..])
  }

  lemma {:induction false} RankUpdate(ts: seq<Thread>, i: nat, t: Thread)
    requires i < |ts|
    ensures RankSum(ts[i := t]) + RankAt(ts[i]) == RankSum(ts) + RankAt(t)
  {
    if i == 0 {
      assert ts[i := t][1..] == ts[1..];
    } else {
      assert ts[i := t][1..] == ts[1..][i - 1 := t];
      RankUpdate(ts[1..], i - 1, t);
    }
  }

  /** The work left. */
  function Rank(s: State): nat {
    6 * |s.queue| + RankSum(s.threads)
  }

  lemma CleanedRank(s: State, t: nat)
    requires t < |s.threads| && MayEnter(s.threads[t])
    ensures var c := Cleaned(s, t);
            && c.queue == s.queue && |c.threads| == |s.threads| && c.threads[t].Ready?
            && RankSum(c.threads) <= RankSum(s.threads)
  {
    hide RankSum;
    RankUpdate(s.threads, t, Ready);
    if t != 0 {
      RankUpdate(s.threads[t := Ready], 0, Woke(s.threads[0]));
    }
    if s.threads[t].Ready? {
      assert s.threads[t := Ready] == s.threads;
    }
  }

  /** Every step that does work leaves less of it. */
  lemma WorkLessens(env: Env, s: State, step: Step)
    requires Inv(env, s, 0) && |s.threads| > 0 && Enabled(s, step) && Works(step)
    requires s.nTotal >= 0 && s.nIdle >= 0 && (step.Enter? && s.threads[step.thread].Woken? ==> s.nIdle >= 1)
    ensures Rank(Next(env, s, step)) < Rank(s)
  {
    hide RankSum, Inv, Cleaned, BatchSize, Taken;
    match step
    case Enter(t) =>
      CleanedRank(s, t);
      CleanedKeepsInv(env, s, t);
      var c := Cleaned(s, t);
      CountsAreNatural(env, c, 1);
      BatchFits(env, |c.queue|, c.nTotal, c.nIdle);
      RankUpdate(c.threads, t, Proceeded(env, c, t).threads[t]);
    case Evaluate(t) =>
      RankUpdate(s.threads, t, Next(env, s, step).threads[t]);
  }

  /** A step of work or a spurious wake-up: what can happen while the master waits. */
  predicate Goes(step: Step) {
    Works(step) || step.WakeSpuriously?
  }

  function Wakeups(steps: seq<Step>): nat {
    if steps == [] then 0 else (if steps[0].WakeSpuriously? then 1 else 0) + Wakeups(steps[1..])
  }

  /** A spurious wake-up costs one more step, the one in which the thread finds nothing to do. */
  lemma WakeupCosts(env: Env, s: State, step: Step)
    requires Inv(env, s, 0) && Enabled(s, step) && step.WakeSpuriously? && s.nTotal >= 0 && s.nIdle >= 0
    ensures Rank(Next(env, s, step)) == Rank(s) + 1
  {
    hide RankSum, Inv;
    RankUpdate(s.threads, step.thread, Woken);
  }

  /**
   * However the threads are scheduled, the steps they can take without a new call of the master are bounded by
   * the work there is and twice the spurious wake-ups.
   */
  lemma {:induction false} WaitIsBounded(env: Env, s: State, steps: seq<Step>)
    requires Inv(env, s, 0) && CanRun(env, s, steps) && forall i | 0 <= i < |steps| :: Goes(steps[i])
    ensures |steps| <= Rank(s) + 2 * Wakeups(steps)
    decreases |steps|
  {
    hide Inv, Rank, Next;
    if steps != [] {
      CountsAreNatural(env, s, 0);
      StepKeepsInv(env, s, steps[0]);
      if Works(steps[0]) {
        WorkLessens(env, s, steps[0]);
      } else {
        WakeupCosts(env, s, steps[0]);
      }
      WaitIsBounded(env, Next(env, s, steps[0]), steps[1..]);
    }
  }

  /** The master still waits for the checks it has added, or has returned once, with a verdict on just these. */
  ghost predicate Awaited(added: multiset<Check>, verdicts: seq<Verdict>, r: State) {
    if Waiting(r) then
      r.added == added && r.verdicts == verdicts
    else
      && |r.threads| > 0 && r.threads[0].Outside?
      && |r.verdicts| == |verdicts| + 1 && r.verdicts[..|verdicts|] == verdicts
      && r.verdicts[|verdicts|].checks == added
  }

  lemma CleanedAwaits(added: multiset<Check>, verdicts: seq<Verdict>, s: State, t: nat)
    requires t < |s.threads| && MayEnter(s.threads[t]) && Awaited(added, verdicts, s)
    ensures Awaited(added, verdicts, Cleaned(s, t))
    ensures t < |Cleaned(s, t).threads| && (t == 0 ==> Waiting(Cleaned(s, t)))
  {
  }

  lemma ProceededAwaits(env: Env, added: multiset<Check>, verdicts: seq<Verdict>, s: State, t: nat)
    requires t < |s.threads| && Awaited(added, verdicts, s) && (t == 0 ==> Waiting(s))
    requires s.nTotal >= 0 && s.nIdle >= 0
    requires s.queue != [] ==> BatchSize(env, |s.queue|, s.nTotal, s.nIdle) <= |s.queue|
    ensures Awaited(added, verdicts, Proceeded(env, s, t))
  {
    hide BatchSize, Taken;
  }

  lemma StepAwaits(env: Env, added: multiset<Check>, verdicts: seq<Verdict>, s: State, step: Step)
    requires |s.threads| > 0 && Awaited(added, verdicts, s) && Enabled(s, step) && Goes(step)
    requires s.nTotal >= 0 && s.nIdle >= 0 && (step.Enter? && s.threads[step.thread].Woken? ==> s.nIdle >= 1)
    ensures Awaited(added, verdicts, Next(env, s, step))
  {
    if step.Enter? {
      hide Awaited, Proceeded, BatchSize;
      var c := Cleaned(s, step.thread);
      BatchFits(env, |c.queue|, c.nTotal, c.nIdle);
      CleanedAwaits(added, verdicts, s, step.thread);
      ProceededAwaits(env, added, verdicts, c, step.thread);
    }
  }

  lemma {:induction false} RunAwaits(env: Env, added: multiset<Check>, verdicts: seq<Verdict>, s: State,
                                     steps: seq<Step>)
    requires Inv(env, s, 0) && CanRun(env, s, steps) && forall i | 0 <= i < |steps| :: Goes(steps[i])
    requires Awaited(added, verdicts, s)
    ensures Awaited(added, verdicts, Ran(env, s, steps))
    decreases |steps|
  {
    hide Inv, Next, Awaited;
    if steps != [] {
      StepKeepsInv(env, s, steps[0]);
      StepAwaits(env, added, verdicts, s, steps[0]);
      RunAwaits(env, added, verdicts, Next(env, s, steps[0]), steps[1..]);
    }
  }

  /** Wait has returned, once, and its result says whether all the checks added before it evaluate to true. */
  ghost predicate Returned(env: Env, s: State, r: State) {
    && |r.threads| > 0 && r.threads[0].Outside?
    && |r.verdicts| == |s.verdicts| + 1 && r.verdicts[..|s.verdicts|] == s.verdicts
    && r.verdicts[|s.verdicts|].checks == s.added
    && (r.verdicts[|s.verdicts|].result <==> forall c | c in s.added :: env.eval(c))
  }

  /** Wherever the threads cannot go on working, the master's Wait has returned, with the right verdict. */
  lemma WaitReturns(env: Env, s: State, steps: seq<Step>)
    requires Inv(env, s, 0) && CanRun(env, s, steps) && forall i | 0 <= i < |steps| :: Goes(steps[i])
    requires Waiting(s)
    ensures !Waiting(Ran(env, s, steps)) ==> Returned(env, s, Ran(env, s, steps))
    ensures (forall step | Works(step) :: !Enabled(Ran(env, s, steps), step)) ==> Returned(env, s, Ran(env, s, steps))
  {
    hide CanRun, Ran, Shape, Conserved, Counts, HonestThreads, HonestFlag, Fed;
    var r := Ran(env, s, steps);
    RunAwaits(env, s.added, s.verdicts, s, steps);
    if Waiting(r) {
      var step := NoDeadlock(env, r);
    } else {
      assert r.verdicts[|s.verdicts|].result <==> AllTrue(env, r.verdicts[|s.verdicts|].checks);
    }
  }

  /** And from any state in which the master waits, working on reaches that point within the bound. */
  lemma {:induction false} WaitCanReturn(env: Env, s: State) returns (steps: seq<Step>)
    requires Inv(env, s, 0) && Waiting(s)
    ensures CanRun(env, s, steps) && Returned(env, s, Ran(env, s, steps))
    ensures |steps| <= Rank(s) && forall i | 0 <= i < |steps| :: Works(steps[i])
  {
    steps := WorkOn(env, s);
    WaitReturns(env, s, steps);
  }

  lemma {:induction false} WorkOn(env: Env, s: State) returns (steps: seq<Step>)
    requires Inv(env, s, 0)
    ensures CanRun(env, s, steps) && !Waiting(Ran(env, s, steps))
    ensures |steps| <= Rank(s) && forall i | 0 <= i < |steps| :: Works(steps[i])
    decreases Rank(s)
  {
    hide Inv, Next, Rank;
    steps := [];
    if Waiting(s) {
      var step := NoDeadlock(env, s);
      CountsAreNatural(env, s, 0);
      StepKeepsInv(env, s, step);
      WorkLessens(env, s, step);
      var t := Next(env, s, step);
      var rest := WorkOn(env, t);
      steps := [step] + rest;
      assert steps[1..] == rest;
    }
  }

  // ---------------------------------------------------------------------------------------
  // What the calls of the master achieve

  /** The checks passed to Add in a run. */
  function Submitted(steps: seq<Step>): multiset<Check> {
    if steps == [] then multiset{} else SubmittedAt(steps[0]) + Submitted(steps[1..])
  }

  function SubmittedAt(step: Step): multiset<Check> {
    if step.Add? then multiset(step.checks) else multiset{}
  }

  /** The checks that the verdicts so far speak of. */
  function Covered(verdicts: seq<Verdict>): multiset<Check> {
    if verdicts == [] then multiset{} else Covered(verdicts[..|verdicts| - 1]) + verdicts[|verdicts| - 1].checks
  }

  lemma StepSubmits(env: Env, s: State, step: Step)
    requires |s.threads| > 0 && Enabled(s, step) && s.nTotal >= 0 && s.nIdle >= 0
    requires step.Enter? && s.threads[step.thread].Woken? ==> s.nIdle >= 1
    ensures var n := Next(env, s, step);
            Covered(n.verdicts) + n.added == Covered(s.verdicts) + s.added + SubmittedAt(step)
  {
    hide BatchSize, Taken, Covered;
    if step.Enter? {
      hide Cleaned, Proceeded;
      var c := Cleaned(s, step.thread);
      BatchFits(env, |c.queue|, c.nTotal, c.nIdle);
      CleanedCovers(s, step.thread);
      ProceededCovers(env, c, step.thread);
    }
  }

  lemma CleanedCovers(s: State, t: nat)
    requires t < |s.threads| && MayEnter(s.threads[t])
    ensures Cleaned(s, t).verdicts == s.verdicts && Cleaned(s, t).added == s.added && t < |Cleaned(s, t).threads|
  {
  }

  lemma ProceededCovers(env: Env, s: State, t: nat)
    requires t < |s.threads| && s.nTotal + s.nIdle + 1 > 0
    requires s.queue != [] ==> BatchSize(env, |s.queue|, s.nTotal, s.nIdle) <= |s.queue|
    ensures var n := Proceeded(env, s, t); Covered(n.verdicts) + n.added == Covered(s.verdicts) + s.added
  {
    hide BatchSize, Taken;
    assert (s.verdicts + [Verdict(s.added, s.allOk)])[..|s.verdicts|] == s.verdicts;
  }

  /** Over any run every check passed to Add is covered by one verdict, or still awaits the next. */
  lemma {:induction false} EveryCheckIsCovered(env: Env, s: State, steps: seq<Step>)
    requires Inv(env, s, 0) && CanRun(env, s, steps)
    ensures var r := Ran(env, s, steps);
            Covered(r.verdicts) + r.added == Covered(s.verdicts) + s.added + Submitted(steps)
    decreases |steps|
  {
    hide Inv, Next, Covered;
    if steps != [] {
      CountsAreNatural(env, s, 0);
      StepKeepsInv(env, s, steps[0]);
      StepSubmits(env, s, steps[0]);
      EveryCheckIsCovered(env, Next(env, s, steps[0]), steps[1..]);
    }
  }

  /** The worker that a notification of one is to reach: a blocked one, if there is any. */
  lemma Notified(s: State) returns (w: nat)
    requires |s.threads| > 0 && s.threads[0].Notifying?
    ensures Enabled(s, Notify(w))
  {
    if i :| 0 < i < |s.threads| && s.threads[i].Blocked? {
      w := i;
    } else {
      w := 0;
    }
  }

  /** The master adds checks, notifies the workers and is about to wait; nobody else moves. */
  lemma CallsEffect(env: Env, s: State, checks: seq<Check>, w: nat)
    requires Inv(env, s, 0) && s.threads[0].Outside? && checks != [] && s.nTotal >= 0 && s.nIdle >= 0
    ensures var a := Next(env, s, Add(checks));
            && |a.threads| > 0 && a.threads[0].Notifying? && a.nTotal >= 0 && a.nIdle >= 0
            && (Enabled(a, Notify(w)) ==>
                  var n := Next(env, a, Notify(w));
                  && |n.threads| > 0 && n.threads[0].Outside? && n.nTotal >= 0 && n.nIdle >= 0
                  && var r := Next(env, n, CallWait);
                     Waiting(r) && r.added == s.added + multiset(checks) && r.verdicts == s.verdicts)
  {
    hide Inv;
    CountsAreNatural(env, s, 0);
  }

  /**
   * Whenever the master is not waiting it can add checks, notify the workers and wait, and by working on its Wait
   * returns, with the verdict on just the checks added since the one before.
   */
  lemma CallsComplete(env: Env, s: State, checks: seq<Check>) returns (w: nat, rest: seq<Step>)
    requires Inv(env, s, 0) && s.threads[0].Outside? && checks != []
    ensures CanRun(env, s, [Add(checks), Notify(w), CallWait] + rest)
    ensures forall i | 0 <= i < |rest| :: Works(rest[i])
    ensures var r := Ran(env, s, [Add(checks), Notify(w), CallWait] + rest);
            && |r.threads| > 0 && r.threads[0].Outside?
            && |r.verdicts| == |s.verdicts| + 1 && r.verdicts[..|s.verdicts|] == s.verdicts
            && r.verdicts[|s.verdicts|].checks == s.added + multiset(checks)
            && (r.verdicts[|s.verdicts|].result <==> forall c | c in s.added + multiset(checks) :: env.eval(c))
  {
    hide Inv, Next, CanRun, Ran;
    CountsAreNatural(env, s, 0);
    StepKeepsInv(env, s, Add(checks));
    var added := Next(env, s, Add(checks));
    CallsEffect(env, s, checks, 0);
    w := Notified(added);
    CallsEffect(env, s, checks, w);
    StepKeepsInv(env, added, Notify(w));
    var notified := Next(env, added, Notify(w));
    StepKeepsInv(env, notified, CallWait);
    var waiting := Next(env, notified, CallWait);
    rest := WaitCanReturn(env, waiting);
    RunFirst(env, notified, CallWait, rest);
    RunFirst(env, added, Notify(w), [CallWait] + rest);
    RunFirst(env, s, Add(checks), [Notify(w)] + ([CallWait] + rest));
    assert [Add(checks)] + ([Notify(w)] + ([CallWait] + rest)) == [Add(checks), Notify(w), CallWait] + rest;
  }

  lemma RunFirst(env: Env, s: State, step: Step, rest: seq<Step>)
    requires Inv(env, s, 0) && Enabled(s, step) && s.nTotal >= 0 && s.nIdle >= 0 && !step.Enter?
    requires Inv(env, Next(env, s, step), 0) && CanRun(env, Next(env, s, step), rest)
    ensures CanRun(env, s, [step] + rest) && Ran(env, s, [step] + rest) == Ran(env, Next(env, s, step), rest)
  {
    hide Inv, Next;
    assert ([step] + rest)[1..] == rest;
  }

  /** Queued checks are not left alone: with no notification under way, some worker is not blocked. */
  ghost predicate Awake(s: State) {
    |s.threads| > 1 && s.queue != [] && !s.threads[0].Notifying? ==> exists i :: IsAwake(s.threads, i)
  }

  predicate IsAwake(ts: seq<Thread>, i: int) {
    0 < i < |ts| && !ts[i].Blocked?
  }

  lemma StepKeepsAwake(env: Env, s: State, step: Step)
    requires |s.threads| > 0 && Enabled(s, step) && s.nTotal >= 0 && s.nIdle >= 0 && Awake(s)
    requires step.Enter? && s.threads[step.thread].Woken? ==> s.nIdle >= 1
    ensures |Next(env, s, step).threads| == |s.threads| && Awake(Next(env, s, step))
  {
    hide BatchSize, Taken;
    if step.Enter? {
      EnterKeepsAwake(env, s, step.thread);
    } else {
      var n := Next(env, s, step);
      if |s.threads| > 1 && n.queue != [] && !n.threads[0].Notifying? {
        if step.Notify? {
          var w := step.worker;
          assert IsAwake(n.threads, if s.threads[0].all || w == 0 || w >= |s.threads| then 1 else w);
        } else {
          var i :| IsAwake(s.threads, i);
          assert IsAwake(n.threads, i);
        }
      }
    }
  }

  lemma EnterKeepsAwake(env: Env, s: State, t: nat)
    requires |s.threads| > 0 && Enabled(s, Enter(t)) && s.nTotal >= 0 && s.nIdle >= 0 && Awake(s)
    requires s.threads[t].Woken? ==> s.nIdle >= 1
    ensures |Next(env, s, Enter(t)).threads| == |s.threads| && Awake(Next(env, s, Enter(t)))
  {
    hide BatchSize, Taken;
    var c, n := Cleaned(s, t), Next(env, s, Enter(t));
    BatchFits(env, |c.queue|, c.nTotal, c.nIdle);
    if |s.threads| > 1 && n.queue != [] && !n.threads[0].Notifying? {
      var i :| IsAwake(s.threads, i);
      assert IsAwake(n.threads, i);
    }
  }

  /** No wake-up is lost: in every run from the start, checks that are queued have a worker that is not blocked. */
  lemma {:induction false} RunKeepsAwake(env: Env, s: State, steps: seq<Step>)
    requires Inv(env, s, 0) && CanRun(env, s, steps) && Awake(s)
    ensures Awake(Ran(env, s, steps)) && |Ran(env, s, steps).threads| == |s.threads|
    decreases |steps|
  {
    hide Inv, Next, Awake;
    if steps != [] {
      CountsAreNatural(env, s, 0);
      StepKeepsInv(env, s, steps[0]);
      StepKeepsAwake(env, s, steps[0]);
      RunKeepsAwake(env, Next(env, s, steps[0]), steps[1..]);
    }
  }

  /** So the workers by themselves can empty the queue, wherever the master stands, unless it is yet to notify them. */
  lemma {:induction false} WorkersDrain(env: Env, s: State) returns (steps: seq<Step>)
    requires Inv(env, s, 0) && Awake(s) && |s.threads| > 1 && !s.threads[0].Notifying?
    ensures CanRun(env, s, steps) && Ran(env, s, steps).queue == [] && |steps| <= Rank(s)
    ensures forall i | 0 <= i < |steps| :: Works(steps[i]) && steps[i].thread > 0
    decreases Rank(s)
  {
    hide Inv, Rank, Cleaned, Proceeded;
    steps := [];
    if s.queue != [] {
      var i :| IsAwake(s.threads, i);
      CountsAreNatural(env, s, 0);
      WorkerShape(env, s, i);
      var step := if MayEnter(s.threads[i]) then Enter(i) else Evaluate(i);
      StepKeepsInv(env, s, step);
      StepKeepsAwake(env, s, step);
      WorkLessens(env, s, step);
      WorkKeepsMaster(env, s, step);
      var rest := WorkersDrain(env, Next(env, s, step));
      steps := [step] + rest;
      assert steps[1..] == rest;
    }
  }

  lemma WorkerShape(env: Env, s: State, i: nat)
    requires Inv(env, s, 0) && 0 < i < |s.threads| && !s.threads[i].Blocked?
    ensures MayEnter(s.threads[i]) || (s.threads[i].Busy? && s.threads[i].run < |s.threads[i].batch|)
  {
    assert ShapeOf(s.threads[i]);
  }

  lemma WorkKeepsMaster(env: Env, s: State, step: Step)
    requires |s.threads| > 0 && Enabled(s, step) && s.nTotal >= 0 && s.nIdle >= 0 && Works(step) && step.thread > 0
    requires step.Enter? && s.threads[step.thread].Woken? ==> s.nIdle >= 1
    ensures Next(env, s, step).threads[0] == s.threads[0] || Next(env, s, step).threads[0] == Woke(s.threads[0])
  {
    hide BatchSize, Taken;
    if step.Enter? {
      var c := Cleaned(s, step.thread);
      BatchFits(env, |c.queue|, c.nTotal, c.nIdle);
    }
  }

  /** Adding several checks leaves no worker blocked; adding one leaves no more than all but one. */
  lemma NotifyWakes(env: Env, s: State, w: nat)
    requires |s.threads| > 0 && Enabled(s, Notify(w)) && s.nTotal >= 0 && s.nIdle >= 0
    ensures var n := Next(env, s, Notify(w));
            && n.threads[0].Outside? && |n.threads| == |s.threads|
            && (s.threads[0].all ==> forall i | 0 < i < |n.threads| :: !n.threads[i].Blocked?)
            && (!s.threads[0].all && w < |s.threads| && s.threads[w].Blocked? ==>
                  n.threads[w].Woken? && forall i | 0 < i < |n.threads| && i != w :: n.threads[i] == s.threads[i])
            && (!s.threads[0].all && !(0 < w < |s.threads| && s.threads[w].Blocked?) ==>
                  forall i | 0 < i < |n.threads| :: !n.threads[i].Blocked?)
  {
  }

  /** A worker wakes the master exactly when it hands in the last checks. */
  lemma LastWakesMaster(env: Env, s: State, t: nat)
    requires Inv(env, s, 0) && 0 < t < |s.threads| && MayEnter(s.threads[t]) && s.threads[0].Blocked?
    ensures Cleaned(s, t).threads[0].Woken? <==> s.threads[t].Busy? && |s.threads[t].batch| == s.nTodo
    ensures Cleaned(s, t).threads[0].Woken? || Cleaned(s, t).threads[0].Blocked?
  {
    hide Inv;
  }

  /**
   * A batch is a single check, or at most what every thread could take from the queue at once; it is no smaller than
   * the batch size and that share allow.
   */
  lemma BatchShares(env: Env, queued: nat, nTotal: nat, nIdle: nat)
    ensures var n, threads := BatchSize(env, queued, nTotal, nIdle), nTotal + nIdle + 1;
            && n >= 1 && (n > 1 ==> n <= env.batchSize && n * threads <= queued)
            && (n < env.batchSize ==> (n + 1) * threads > queued)
  {
    var threads := nTotal + nIdle + 1;
    var q := queued / threads;
    Quotient(queued, threads);
    QuotientNatural(queued, threads);
    Distribute(q, 1, threads);
    var n := BatchSize(env, queued, nTotal, nIdle);
    ScaleUp(if n > 1 then n else 0, q, threads);
    ScaleUp(q + 1, if n < env.batchSize then n + 1 else q + 1, threads);
  }
}
