/** The worker-pool protocol: a task ring and a shutdown flag guarded by a lock, a counting
    semaphore that carries one token per task, and workers that wait, grab and run.

    `Shared` is what the lock guards, with the two critical sections as functions; `Pool` is the
    whole system, stepped one atomic action at a time in any interleaving. */
module ThreadPool {
  import opened Arithmetic
  import opened Wrappers

  type Task = int

  datatype Shutdown = Running | Immediate | Graceful

  datatype Shared = Shared(queue: seq<Task>, head: nat, tail: nat, count: int, shutdown: Shutdown)
  {
    predicate Valid() {
      0 < |queue| && head < |queue| && tail < |queue|
    }
  }

  const QM_EFULL: int := 3

  datatype AddReply = Full | Dropped | Queued
  {
    /** What the caller of threadpool_add is told. */
    function Code(): int {
      if Full? then -QM_EFULL else 0
    }
  }

  /** threadpool_add between lock and unlock. A pool that is shutting down drops the task, and the
      caller is told 0 all the same. */
  function Add(s: Shared, task: Task): (Shared, AddReply)
    requires s.Valid()
  {
    if s.count == |s.queue| then (s, Full)
    else if s.shutdown != Running then (s, Dropped)
    else (s.(queue := s.queue[s.tail := task], tail := (s.tail + 1) % |s.queue|, count := s.count + 1), Queued)
  }

  /** A worker's second critical section: leave, or take the task at the head without looking at count. */
  function Grab(s: Shared): (Shared, Option<Task>)
    requires s.Valid()
  {
    if s.shutdown == Immediate || (s.shutdown == Graceful && s.count == 0) then (s, None)
    else (s.(head := (s.head + 1) % |s.queue|, count := s.count - 1), Some(s.queue[s.head]))
  }

  /** While shutting down a task is dropped, which the caller of add cannot tell from success. */
  lemma ShutdownDrops(task: Task)
    ensures var s := Shared([0, 0], 0, 0, 0, Graceful); Add(s, task) == (s, Dropped) && Dropped.Code() == 0
  {
  }

  // ---------------------------------------------------------------- the critical sections in place

  class ThreadPool {
    var queue: array<Task>
    var head: nat
    var tail: nat
    var count: int
    var shutdown: Shutdown

    ghost function Guarded(): Shared
      reads this, queue
    {
      Shared(queue[..], head, tail, count, shutdown)
    }

    constructor (queueSize: nat)
      requires queueSize > 0
      ensures Guarded().Valid() && |Guarded().queue| == queueSize
      ensures head == tail == 0 && count == 0 && shutdown == Running && fresh(queue)
    {
      queue := new Task[queueSize];
      head, tail, count, shutdown := 0, 0, 0, Running;
    }

    /** The critical section of threadpool_add: an error exactly for a full ring, a signal to send exactly
        for a task that was stored. */
    method AddLocked(task: Task) returns (ret: int, notify: bool)
      requires Guarded().Valid()
      modifies this, queue
      ensures queue == old(queue) && Guarded().Valid()
      ensures var (s, reply) := Add(old(Guarded()), task);
              Guarded() == s && ret == reply.Code() && (notify <==> reply == Queued)
      ensures ret == if old(count) == queue.Length then -QM_EFULL else 0
      ensures notify <==> old(count) != queue.Length && old(shutdown) == Running
      ensures !notify ==> Guarded() == old(Guarded())
      ensures notify ==> queue[..] == old(queue[..])[old(tail) := task] && count == old(count) + 1
      ensures notify ==> tail == (old(tail) + 1) % queue.Length && head == old(head) && shutdown == Running
    {
      var next := (tail + 1) % queue.Length;
      if count == queue.Length {
        return -QM_EFULL, false;
      }
      if shutdown != Running {
        return 0, false;
      }
      queue[tail] := task;
      tail := next;
      count := count + 1;
      return 0, true;
    }

    /** A worker's first critical section: its flag is set when it finds the ring empty, and never reset. */
    method CheckLocked(waits: bool) returns (waits': bool)
      ensures waits' <==> waits || (count == 0 && shutdown == Running)
    {
      waits' := waits;
      if count == 0 && shutdown == Running {
        waits' := true;
      }
    }

    method GrabLocked() returns (task: Option<Task>)
      requires Guarded().Valid()
      modifies this
      ensures queue == old(queue) && (Guarded(), task) == Grab(old(Guarded())) && Guarded().Valid()
      ensures task.None? <==> old(shutdown) == Immediate || (old(shutdown) == Graceful && old(count) == 0)
      ensures task.None? ==> Guarded() == old(Guarded())
      ensures task.Some? ==>
                && task.value == old(queue[head]) && queue[..] == old(queue[..]) && count == old(count) - 1
                && head == (old(head) + 1) % queue.Length && tail == old(tail) && shutdown == old(shutdown)
    {
      if shutdown == Immediate || (shutdown == Graceful && count == 0) {
        return None;
      }
      task := Some(queue[head]);
      head := (head + 1) % queue.Length;
      count := count - 1;
    }
  }

  // ---------------------------------------------------------------- the protocol

  /** Where a worker is: before its first lock, blocked on the semaphore, between the semaphore and
      its second lock (having consumed a token or not), running a task, or gone. */
  datatype Pc = Checking | Waiting | Ready(token: bool) | Working | Exited

  /** `waits` is the worker's local flag, which is never reset. */
  datatype Worker = Worker(pc: Pc, waits: bool)

  /** `unsent` counts callers of add between unlock and signal, `wakeups` the signals destroy has yet
      to send. The last four fields are history: tasks queued and tasks grabbed, in order; workers
      that grabbed or left without a token; and whether a grab ever found the ring empty. */
  datatype Pool = Pool(
    shared: Shared, tokens: nat, workers: seq<Worker>, unsent: nat, wakeups: nat,
    added: seq<Task>, taken: seq<Task>, skips: nat, underflow: bool)

  datatype Step =
    | AddTask(task: Task)
    | SendSignal
    | Check(w: nat)
    | WaitOk(w: nat)
    | WaitFails(w: nat)
    | GrabTask(w: nat)
    | FinishTask(w: nat)
    | Destroy(graceful: bool)
    | SendWakeup

  function SetPc(p: Pool, w: nat, pc: Pc): Pool
    requires w < |p.workers|
  {
    p.(workers := p.workers[w := p.workers[w].(pc := pc)])
  }

  predicate Enabled(p: Pool, step: Step) {
    match step
    case AddTask(_) => true
    case SendSignal => p.unsent > 0
    case Check(w) => w < |p.workers| && p.workers[w].pc == Checking
    case WaitOk(w) => w < |p.workers| && p.workers[w].pc == Waiting && p.tokens > 0
    case WaitFails(w) => w < |p.workers| && p.workers[w].pc == Waiting
    case GrabTask(w) => w < |p.workers| && p.workers[w].pc.Ready?
    case FinishTask(w) => w < |p.workers| && p.workers[w].pc == Working
    case Destroy(_) => p.shared.shutdown == Running
    case SendWakeup => p.wakeups > 0
  }

  function Apply(p: Pool, step: Step): Pool
    requires p.shared.Valid() && Enabled(p, step)
  {
    match step
    case AddTask(task) =>
      var (s, reply) := Add(p.shared, task);
      if reply == Queued then p.(shared := s, unsent := p.unsent + 1, added := p.added + [task]) else p
    case SendSignal => p.(unsent := p.unsent - 1, tokens := p.tokens + 1)
    case Check(w) =>
      var waits := p.workers[w].waits || (p.shared.count == 0 && p.shared.shutdown == Running);
      p.(workers := p.workers[w := Worker(if waits then Waiting else Ready(false), waits)])
    case WaitOk(w) => SetPc(p, w, Ready(true)).(tokens := p.tokens - 1)
    case WaitFails(w) => SetPc(p, w, Checking)
    case GrabTask(w) =>
      var (s, task) := Grab(p.shared);
      var skips := p.skips + if p.workers[w].pc.token then 0 else 1;
      if task.None? then SetPc(p, w, Exited).(skips := skips)
      else SetPc(p, w, Working).(shared := s, taken := p.taken + [task.value], skips := skips,
                                 underflow := p.underflow || p.shared.count <= 0)
    case FinishTask(w) => SetPc(p, w, Checking)
    case Destroy(graceful) =>
      p.(shared := p.shared.(shutdown := if graceful then Graceful else Immediate), wakeups := |p.workers|)
    case SendWakeup => p.(wakeups := p.wakeups - 1, tokens := p.tokens + 1)
  }

  // ---------------------------------------------------------------- counting workers

  function Sum(ws: seq<Worker>, weight: Worker -> nat): nat {
    if ws == [] then 0 else weight(ws[0]) + Sum(ws[1..], weight)
  }

  lemma {:induction false} SumUpdate(ws: seq<Worker>, i: nat, w: Worker, weight: Worker -> nat)
    requires i < |ws|
    ensures Sum(ws[i := w], weight) == Sum(ws, weight) - weight(ws[i]) + weight(w)
  {
    if i > 0 {
      SumUpdate(ws[1..], i - 1, w, weight);
      assert ws[i := w][1..] == ws[1..][i - 1 := w];
    } else {
      assert ws[i := w][1..] == ws[1..];
    }
  }

  function HasToken(w: Worker): nat {
    if w.pc == Ready(true) then 1 else 0
  }

  function IsAlive(w: Worker): nat {
    if w.pc == Exited then 0 else 1
  }

  function Held(p: Pool): nat {
    Sum(p.workers, HasToken)
  }

  function Alive(p: Pool): nat {
    Sum(p.workers, IsAlive)
  }

  /** Exits still owed once the pool is shutting down. */
  function Owed(p: Pool): nat {
    if p.shared.shutdown == Running then 0 else Alive(p)
  }

  // ---------------------------------------------------------------- the invariant

  /** The tasks of the ring from head on, as many as count says. */
  function Pending(s: Shared): (tasks: seq<Task>)
    requires s.Valid()
    ensures |tasks| == if 0 < s.count <= |s.queue| then s.count else 0
    ensures forall i :: 0 <= i < |tasks| ==> tasks[i] == s.queue[Slot(s.head, i, |s.queue|)]
  {
    if 0 < s.count <= |s.queue| then
      seq(s.count, i requires 0 <= i < s.count => s.queue[Slot(s.head, i, |s.queue|)])
    else []
  }

  /** The ring is a queue as long as no grab has found it empty. */
  predicate RingInv(p: Pool) {
    && p.shared.Valid() && p.shared.count == |p.added| - |p.taken|
    && (!p.underflow ==>
          && 0 <= p.shared.count <= |p.shared.queue|
          && p.shared.tail == Slot(p.shared.head, p.shared.count, |p.shared.queue|)
          && p.added == p.taken + Pending(p.shared))
  }

  /** Tokens sent or held, and signals still to be sent, pay for the pending tasks, the skipped
      tokens, and after shutdown the workers that must still leave. */
  predicate Accounts(p: Pool) {
    p.tokens + Held(p) + p.unsent + p.wakeups == p.shared.count + p.skips + Owed(p)
  }

  predicate WorkersInv(p: Pool) {
    && (forall w :: 0 <= w < |p.workers| ==>
          && (p.workers[w].pc == Waiting || p.workers[w].pc == Ready(true) ==> p.workers[w].waits)
          && (p.workers[w].pc == Exited ==> p.shared.shutdown != Running))
    && (p.shared.shutdown == Running ==> p.wakeups == 0)
    && (p.shared.shutdown == Immediate ==> p.shared.count + p.skips >= 0)
    && (p.shared.shutdown == Graceful ==>
          forall w :: 0 <= w < |p.workers| && p.workers[w].pc == Exited ==> p.shared.count == 0)
  }

  predicate Inv(p: Pool) {
    RingInv(p) && Accounts(p) && WorkersInv(p)
  }

  /** A pool as threadpool_create leaves it. */
  predicate Fresh(p: Pool) {
    && p.shared.Valid() && p.shared.head == p.shared.tail == 0 && p.shared.count == 0 && p.shared.shutdown == Running
    && p.tokens == p.unsent == p.wakeups == p.skips == 0 && p.added == p.taken == [] && !p.underflow
    && forall w :: 0 <= w < |p.workers| ==> p.workers[w] == Worker(Checking, false)
  }

  // ---------------------------------------------------------------- every step keeps it

  lemma {:induction false} SumAll(ws: seq<Worker>, weight: Worker -> nat, each: nat)
    requires forall w :: 0 <= w < |ws| ==> weight(ws[w]) == each
    ensures Sum(ws, weight) == |ws| * each
  {
    if ws != [] {
      SumAll(ws[1..], weight, each);
    }
  }

  lemma FreshInv(p: Pool)
    requires Fresh(p)
    ensures Inv(p)
  {
    SumAll(p.workers, HasToken, 0);
  }

  predicate RingOk(s: Shared) {
    s.Valid() && 0 <= s.count <= |s.queue| && s.tail == Slot(s.head, s.count, |s.queue|)
  }

  /** Adding puts the task at the end of the pending ones. */
  lemma AddAppends(s: Shared, task: Task)
    requires RingOk(s) && Add(s, task).1 == Queued
    ensures RingOk(Add(s, task).0) && Pending(Add(s, task).0) == Pending(s) + [task]
  {
    var t, n := Add(s, task).0, |s.queue|;
    assert t.tail == Slot(s.tail, 1, n) == Slot(s.head, s.count + 1, n) by { SlotIsMod(s.tail, 1, n); }
    forall i | 0 <= i < s.count ensures Slot(s.head, i, n) != s.tail {
    }
    forall i | 0 <= i < |Pending(t)| ensures Pending(t)[i] == (Pending(s) + [task])[i] {
      assert Slot(s.head, i, n) == Slot(t.head, i, n);
    }
  }

  /** Grabbing from a ring that holds something takes the first pending task. */
  lemma GrabTakesFirst(s: Shared)
    requires RingOk(s) && s.count > 0 && Grab(s).1.Some?
    ensures RingOk(Grab(s).0) && Pending(s) == [Grab(s).1.value] + Pending(Grab(s).0)
  {
    var t, n := Grab(s).0, |s.queue|;
    assert t.head == Slot(s.head, 1, n) by { SlotIsMod(s.head, 1, n); }
    assert s.head == Slot(s.head, 0, n);
    forall i | 0 <= i < s.count ensures Slot(t.head, i, n) == Slot(s.head, i + 1, n) {
    }
    assert Slot(t.head, s.count - 1, n) == Slot(s.head, s.count, n);
    forall i | 0 <= i < |Pending(s)| ensures Pending(s)[i] == ([s.queue[s.head]] + Pending(t))[i] {
      if i > 0 {
        assert Slot(t.head, i - 1, n) == Slot(s.head, i, n);
      }
    }
  }

  lemma RingStep(p: Pool, step: Step)
    requires Inv(p) && Enabled(p, step)
    ensures RingInv(Apply(p, step))
  {
    hide Pending;
    var s, q := p.shared, Apply(p, step);
    if !q.underflow {
      if step.AddTask? {
        if Add(s, step.task).1 == Queued {
          AddAppends(s, step.task);
          assert p.taken + (Pending(s) + [step.task]) == (p.taken + Pending(s)) + [step.task];
        }
      } else if step.GrabTask? {
        if Grab(s).1.Some? {
          GrabTakesFirst(s);
          var task := Grab(s).1.value;
          assert p.taken + ([task] + Pending(q.shared)) == (p.taken + [task]) + Pending(q.shared);
        }
      } else if step.Destroy? {
        SamePending(s, q.shared);
      }
    }
  }

  lemma SamePending(s: Shared, t: Shared)
    requires s.Valid() && t == s.(shutdown := t.shutdown)
    ensures Pending(t) == Pending(s)
  {
  }

  lemma AccountsStep(p: Pool, step: Step)
    requires Inv(p) && Enabled(p, step)
    ensures Accounts(Apply(p, step))
  {
    hide Sum, Pending;
    if step.Check? || step.WaitOk? || step.WaitFails? || step.GrabTask? || step.FinishTask? {
      var w := Apply(p, step).workers[step.w];
      assert Apply(p, step).workers == p.workers[step.w := w];
      SumUpdate(p.workers, step.w, w, HasToken);
      SumUpdate(p.workers, step.w, w, IsAlive);
    } else if step.Destroy? {
      SumAll(p.workers, IsAlive, 1);
    }
  }

  lemma WorkersStep(p: Pool, step: Step)
    requires Inv(p) && Enabled(p, step)
    ensures WorkersInv(Apply(p, step))
  {
  }

  lemma StepKeepsInv(p: Pool, step: Step)
    requires Inv(p) && Enabled(p, step)
    ensures Inv(Apply(p, step))
  {
    RingStep(p, step);
    AccountsStep(p, step);
    WorkersStep(p, step);
  }

  // ---------------------------------------------------------------- runs

  predicate Possible(p: Pool, run: seq<Step>)
    requires Inv(p)
    decreases |run|
  {
    run == [] || (Enabled(p, run[0]) && (StepKeepsInv(p, run[0]); Possible(Apply(p, run[0]), run[1..])))
  }

  function After(p: Pool, run: seq<Step>): (q: Pool)
    requires Inv(p) && Possible(p, run)
    ensures Inv(q)
    decreases |run|
  {
    if run == [] then p
    else
      StepKeepsInv(p, run[0]);
      After(Apply(p, run[0]), run[1..])
  }

  lemma {:induction false} RunOneMore(p: Pool, run: seq<Step>, step: Step)
    requires Inv(p) && Possible(p, run) && Enabled(After(p, run), step)
    ensures Possible(p, run + [step]) && After(p, run + [step]) == Apply(After(p, run), step)
    decreases |run|
  {
    if run == [] {
      StepKeepsInv(p, step);
      assert run + [step] == [step] && [step][1..] == [];
    } else {
      StepKeepsInv(p, run[0]);
      RunOneMore(Apply(p, run[0]), run[1..], step);
      assert (run + [step])[1..] == run[1..] + [step];
    }
  }

  /** What the caller of add is told, in every state a run can reach: the error exactly when as many tasks
      are accepted and not yet taken as the ring holds, and success otherwise; the task is then accepted,
      last, unless the pool is shutting down, when nothing happens at all. */
  lemma AddAnswers(p: Pool, run: seq<Step>, task: Task)
    requires Inv(p) && Possible(p, run)
    ensures var q := After(p, run);
            var code, r := Add(q.shared, task).1.Code(), Apply(q, AddTask(task));
            && (code == -QM_EFULL <==> |q.added| - |q.taken| == |q.shared.queue|)
            && (code == 0 <==> |q.added| - |q.taken| != |q.shared.queue|)
            && (if code == 0 && q.shared.shutdown == Running
                then r.added == q.added + [task] && r.unsent == q.unsent + 1 else r == q)
  {
    hide Possible, After, Pending, Accounts, WorkersInv;
  }

  /** An accepted task is not forgotten: while one is pending in a running pool, a signal is under way, a
      token is free, or a worker holds one. */
  lemma PendingIsPaid(p: Pool, run: seq<Step>)
    requires Inv(p) && Possible(p, run)
    ensures var q := After(p, run);
            q.shared.shutdown == Running && |q.added| > |q.taken| ==>
              q.unsent > 0 || q.tokens > 0 || exists w :: 0 <= w < |q.workers| && q.workers[w].pc == Ready(true)
  {
    hide Possible, After, Pending;
    var q := After(p, run);
    if forall w :: 0 <= w < |q.workers| ==> q.workers[w].pc != Ready(true) {
      SumAll(q.workers, HasToken, 0);
    }
  }

  /** A worker that has checked waits exactly if it ever found a running pool empty. */
  lemma WaitsIff(p: Pool, w: nat)
    requires Inv(p) && Enabled(p, Check(w))
    ensures var q := Apply(p, Check(w));
            && (q.workers[w].pc == Waiting <==>
                p.workers[w].waits || (|p.added| == |p.taken| && p.shared.shutdown == Running))
            && (q.workers[w].pc != Waiting ==> q.workers[w].pc == Ready(false))
            && q == p.(workers := p.workers[w := q.workers[w]])
  {
  }

  // ---------------------------------------------------------------- workers that parked first

  /** Every worker has found the ring empty once, so each of its grabs is paid for by a token. */
  predicate Parked(p: Pool) {
    && p.skips == 0 && !p.underflow
    && forall w :: 0 <= w < |p.workers| ==> p.workers[w].waits && p.workers[w].pc != Ready(false)
  }

  lemma {:induction false} SumAtLeast(ws: seq<Worker>, weight: Worker -> nat, w: nat)
    requires w < |ws|
    ensures Sum(ws, weight) >= weight(ws[w])
  {
    if w > 0 {
      SumAtLeast(ws[1..], weight, w - 1);
    }
  }

  lemma ParkedStep(p: Pool, step: Step)
    requires Inv(p) && Parked(p) && Enabled(p, step)
    ensures Parked(Apply(p, step))
  {
    if step.GrabTask? {
      SumAtLeast(p.workers, HasToken, step.w);
    }
  }

  lemma {:induction false} ParkedRun(p: Pool, run: seq<Step>)
    requires Inv(p) && Parked(p) && Possible(p, run)
    ensures Parked(After(p, run))
    decreases |run|
  {
    if run != [] {
      ParkedStep(p, run[0]);
      StepKeepsInv(p, run[0]);
      ParkedRun(Apply(p, run[0]), run[1..]);
    }
  }

  /** Nothing has been added, sent or shut down yet. */
  predicate Idle(p: Pool) {
    && Inv(p) && p.shared.shutdown == Running && p.shared.count == 0
    && p.tokens == p.unsent == p.skips == 0 && !p.underflow
    && forall w :: 0 <= w < |p.workers| ==> p.workers[w].pc == Checking || p.workers[w].pc == Waiting
  }

  lemma {:induction false} IdleRun(p: Pool, run: seq<Step>)
    requires Idle(p) && Possible(p, run) && (forall i :: 0 <= i < |run| ==> !run[i].AddTask? && !run[i].Destroy?)
    ensures Idle(After(p, run))
    decreases |run|
  {
    if run != [] {
      StepKeepsInv(p, run[0]);
      assert !run[0].AddTask? && !run[0].Destroy?;
      IdleRun(Apply(p, run[0]), run[1..]);
    }
  }

  /** Token accounting: if every worker parks before the first add, then in every interleaving from
      there on the tokens in flight are exactly the pending tasks (plus, after shutdown, the exits
      owed), no worker grabs from an empty ring, and tasks are grabbed once each in the order added. */
  lemma ParkedPoolIsFair(p: Pool, warmup: seq<Step>, run: seq<Step>)
    requires Fresh(p) && Inv(p) && Possible(p, warmup)
    requires forall i :: 0 <= i < |warmup| ==> !warmup[i].AddTask? && !warmup[i].Destroy?
    requires forall w :: 0 <= w < |After(p, warmup).workers| ==> After(p, warmup).workers[w].waits
    requires Possible(After(p, warmup), run)
    ensures var q := After(After(p, warmup), run);
            && q.tokens + Held(q) + q.unsent + q.wakeups == q.shared.count + Owed(q)
            && 0 <= q.shared.count <= |q.shared.queue|
            && q.shared.tail == (q.shared.head + q.shared.count) % |q.shared.queue|
            && q.added == q.taken + Pending(q.shared) && |Pending(q.shared)| == q.shared.count
            && !q.underflow
  {
    hide Possible, After;
    IdleRun(p, warmup);
    var start := After(p, warmup);
    ParkedRun(start, run);
    var q := After(start, run);
    SlotIsMod(q.shared.head, q.shared.count, |q.shared.queue|);
  }

  // ---------------------------------------------------------------- exactly when the ring can underflow

  ghost predicate NeverUnderflows(p: Pool)
    requires Inv(p)
  {
    forall run: seq<Step> :: Possible(p, run) ==> !After(p, run).underflow
  }

  /** A worker that has not parked can take a task without its token, so that a token is left over. */
  lemma TokenLeftOver(p: Pool, w: nat) returns (run: seq<Step>)
    requires Idle(p) && w < |p.workers| && !p.workers[w].waits
    ensures Possible(p, run)
    ensures var q := After(p, run);
            && q.tokens == 1 && q.shared.count == 0 && q.shared.shutdown == Running && |q.workers| == |p.workers|
            && q.workers[w] == Worker(Checking, false)
  {
    run := [];
    var q := p;
    run, q := Extend(p, run, q, AddTask(0));
    assert q.shared.count == 1 && q.unsent == 1 && q.workers == p.workers;
    run, q := Extend(p, run, q, Check(w));
    assert q.workers[w] == Worker(Ready(false), false);
    run, q := Extend(p, run, q, GrabTask(w));
    assert q.shared.count == 0 && q.unsent == 1 && q.workers[w].pc == Working;
    run, q := Extend(p, run, q, FinishTask(w));
    run, q := Extend(p, run, q, SendSignal);
  }

  /** The leftover token then wakes it on an empty ring. */
  lemma UnderflowRun(p: Pool, w: nat) returns (run: seq<Step>)
    requires Idle(p) && w < |p.workers| && !p.workers[w].waits
    ensures Possible(p, run)
    ensures var q := After(p, run); q.underflow && q.shared.count == -1 && q.shared.shutdown == Running
  {
    run := TokenLeftOver(p, w);
    var q := After(p, run);
    run, q := Extend(p, run, q, Check(w));
    assert q.workers[w].pc == Waiting && q.tokens == 1 && q.shared.count == 0;
    run, q := Extend(p, run, q, WaitOk(w));
    run, q := Extend(p, run, q, GrabTask(w));
  }

  lemma UnparkedUnderflows(p: Pool, w: nat)
    requires Idle(p) && w < |p.workers| && !p.workers[w].waits
    ensures !NeverUnderflows(p)
  {
    hide Possible, After;
    var run := UnderflowRun(p, w);
    assert Possible(p, run) && After(p, run).underflow;
  }

  lemma Extend(p: Pool, run: seq<Step>, q: Pool, step: Step) returns (run': seq<Step>, q': Pool)
    requires Inv(p) && Possible(p, run) && After(p, run) == q && Enabled(q, step)
    ensures run' == run + [step] && Possible(p, run') && q' == After(p, run') == Apply(q, step)
  {
    RunOneMore(p, run, step);
    run', q' := run + [step], Apply(q, step);
  }

  /** From an idle pool, no interleaving ever grabs from the empty ring if and only if every worker
      has already parked once. */
  lemma UnderflowIff(p: Pool)
    requires Idle(p)
    ensures NeverUnderflows(p) <==> forall w :: 0 <= w < |p.workers| ==> p.workers[w].waits
  {
    if forall w :: 0 <= w < |p.workers| ==> p.workers[w].waits {
      forall run: seq<Step> | Possible(p, run) ensures !After(p, run).underflow {
        ParkedRun(p, run);
      }
    } else {
      var w :| 0 <= w < |p.workers| && !p.workers[w].waits;
      UnparkedUnderflows(p, w);
    }
  }

  // ---------------------------------------------------------------- shutdown

  /** A shutdown that gets done: immediate, or graceful on a count that has not gone below zero. */
  predicate ShuttingDown(p: Pool) {
    Inv(p) && (p.shared.shutdown == Immediate || (p.shared.shutdown == Graceful && p.shared.count >= 0))
  }

  /** Under graceful destroy a worker leaves only when as many tasks have been taken as were accepted, and
      unless the ring has underflowed these are the accepted ones in their order. */
  lemma GracefulExit(p: Pool, w: nat)
    requires Inv(p) && p.shared.shutdown == Graceful && w < |p.workers| && p.workers[w].pc == Exited
    ensures |p.taken| == |p.added| && (!p.underflow ==> p.taken == p.added)
  {
    assert p.shared.count == 0;
    assert p.taken + [] == p.taken;
  }

  lemma {:induction false} WaiterHoldsNothing(ws: seq<Worker>, w: nat)
    requires w < |ws| && ws[w].pc == Waiting
    ensures Sum(ws, IsAlive) >= Sum(ws, HasToken) + 1
  {
    if w > 0 {
      WaiterHoldsNothing(ws[1..], w - 1);
    } else {
      AliveCoversTokens(ws[1..]);
    }
  }

  lemma {:induction false} AliveCoversTokens(ws: seq<Worker>)
    ensures Sum(ws, IsAlive) >= Sum(ws, HasToken)
  {
    if ws != [] {
      AliveCoversTokens(ws[1..]);
    }
  }

  /** Once all signals are sent, no worker is left waiting without a token, in either kind of shutdown. */
  lemma NoWorkerStuck(p: Pool, w: nat)
    requires ShuttingDown(p) && p.unsent == p.wakeups == 0
    requires w < |p.workers| && p.workers[w].pc == Waiting
    ensures p.tokens > 0
  {
    WaiterHoldsNothing(p.workers, w);
  }

  /** Steps that get a shutdown done: everything but refused adds and failing waits. */
  predicate Progress(step: Step) {
    !step.AddTask? && !step.WaitFails? && !step.Destroy?
  }

  function Distance(w: Worker): nat {
    match w.pc
    case Working => 4 case Checking => 3 case Waiting => 2 case Ready(_) => 1 case Exited => 0
  }

  function Remaining(p: Pool): nat {
    5 * (if p.shared.count > 0 then p.shared.count else 0) + Sum(p.workers, Distance) + p.unsent + p.wakeups
  }

  lemma DrainStep(p: Pool, step: Step)
    requires ShuttingDown(p) && Enabled(p, step) && Progress(step)
    ensures ShuttingDown(Apply(p, step)) && Remaining(Apply(p, step)) < Remaining(p)
  {
    StepKeepsInv(p, step);
    if !step.SendSignal? && !step.SendWakeup? {
      var w := Apply(p, step).workers[step.w];
      assert Apply(p, step).workers == p.workers[step.w := w];
      SumUpdate(p.workers, step.w, w, Distance);
    }
  }

  predicate AllExited(p: Pool) {
    forall w :: 0 <= w < |p.workers| ==> p.workers[w].pc == Exited
  }

  /** Shutdown finishes: a run of such steps is no longer than `Remaining`, and when none is left to
      take every worker has exited, which is what threadpool_destroy waits for. */
  lemma {:induction false} ShutdownFinishes(p: Pool, run: seq<Step>)
    requires ShuttingDown(p) && Possible(p, run) && (forall i :: 0 <= i < |run| ==> Progress(run[i]))
    ensures |run| <= Remaining(p)
    ensures ShuttingDown(After(p, run))
    ensures (forall step: Step :: Progress(step) ==> !Enabled(After(p, run), step)) ==> AllExited(After(p, run))
    decreases |run|
  {
    if run == [] {
      if forall step: Step :: Progress(step) ==> !Enabled(p, step) {
        AllLeft(p);
      }
    } else {
      assert Progress(run[0]);
      DrainStep(p, run[0]);
      ShutdownFinishes(Apply(p, run[0]), run[1..]);
    }
  }

  ghost predicate CanFinish(p: Pool)
    requires Inv(p)
  {
    exists run: seq<Step> :: Possible(p, run) && AllExited(After(p, run))
  }

  lemma {:induction false} FinishingRun(p: Pool) returns (run: seq<Step>)
    requires ShuttingDown(p)
    ensures Possible(p, run) && AllExited(After(p, run))
    decreases Remaining(p)
  {
    if step: Step :| Progress(step) && Enabled(p, step) {
      DrainStep(p, step);
      var rest := FinishingRun(Apply(p, step));
      run := [step] + rest;
      assert run[0] == step && run[1..] == rest;
    } else {
      AllLeft(p);
      run := [];
    }
  }

  /** A graceful shutdown on a negative count: the workers wait for zero, and every grab leads away from it. */
  lemma {:induction false} NeverLeaves(p: Pool, run: seq<Step>)
    requires Inv(p) && p.shared.shutdown == Graceful && p.shared.count < 0 && Possible(p, run)
    ensures var q := After(p, run);
            q.shared.count < 0 && forall w :: 0 <= w < |q.workers| ==> q.workers[w].pc != Exited
    ensures |After(p, run).workers| == |p.workers|
    decreases |run|
  {
    if run != [] {
      StepKeepsInv(p, run[0]);
      NeverLeaves(Apply(p, run[0]), run[1..]);
    }
  }

  /** Shutdown can finish, and then must, exactly when it is immediate or the count is not below zero;
      otherwise no run ever gets a single worker to leave. */
  lemma ShutdownIff(p: Pool)
    requires Inv(p) && p.shared.shutdown != Running && p.workers != []
    ensures CanFinish(p) <==> p.shared.shutdown == Immediate || p.shared.count >= 0
  {
    if p.shared.shutdown == Immediate || p.shared.count >= 0 {
      var run := FinishingRun(p);
      assert Possible(p, run) && AllExited(After(p, run));
    } else {
      forall run: seq<Step> | Possible(p, run) ensures !AllExited(After(p, run)) {
        NeverLeaves(p, run);
        assert After(p, run).workers[0].pc != Exited;
      }
    }
  }

  /** That happens: a worker that had not parked empties the ring below zero, and graceful destroy hangs. */
  lemma GracefulHangs(p: Pool, w: nat) returns (run: seq<Step>)
    requires Idle(p) && w < |p.workers| && !p.workers[w].waits
    ensures Possible(p, run) && After(p, run).shared.shutdown == Graceful && !CanFinish(After(p, run))
  {
    hide Possible, After;
    run := UnderflowRun(p, w);
    var q := After(p, run);
    run, q := Extend(p, run, q, Destroy(true));
    SameWorkers(p, run);
    ShutdownIff(q);
  }

  lemma {:induction false} SameWorkers(p: Pool, run: seq<Step>)
    requires Inv(p) && Possible(p, run)
    ensures |After(p, run).workers| == |p.workers|
    decreases |run|
  {
    if run != [] {
      StepKeepsInv(p, run[0]);
      SameWorkers(Apply(p, run[0]), run[1..]);
    }
  }

  lemma AllLeft(p: Pool)
    requires ShuttingDown(p) && forall step: Step :: Progress(step) ==> !Enabled(p, step)
    ensures AllExited(p)
  {
    assert !Enabled(p, SendSignal) && !Enabled(p, SendWakeup);
    forall w | 0 <= w < |p.workers| ensures p.workers[w].pc == Exited {
      assert !Enabled(p, Check(w)) && !Enabled(p, GrabTask(w)) && !Enabled(p, FinishTask(w)) && !Enabled(p, WaitOk(w));
      if p.workers[w].pc == Waiting {
        NoWorkerStuck(p, w);
      }
    }
  }
}
