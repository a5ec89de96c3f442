/** The protocol of the bounded task pool as a transition system: any number of
    worker threads and of submitting threads, one mutex, two condition
    variables.  A critical section is one atomic step, up to the point where it
    waits or returns. */
module PoolProtocol {

  type Task = nat

  /** Idle: about to lock the mutex; Parked: waiting on cv_; Woken: notified,
      still has to get the mutex and to check the condition again. */
  datatype Worker = Idle | Parked | Woken | Running(task: Task) | Exited

  /** A submitting thread with the tasks it still has to submit.  Free: about to
      lock the mutex; Waiting: on user_cv_; Notified: has to check again. */
  datatype Phase = Free | Waiting | Notified
  datatype Submitter = Submitter(todo: seq<Task>, phase: Phase)

  /** The thread that calls Stop. */
  datatype Stopper = NotCalled | StopWaiting | StopNotified | Joining | Returned

  /** submitted, taken and finished record which tasks were queued, dequeued and
      completed, in that order. */
  datatype Pool = Pool(
    closing: bool, outstanding: nat, q: seq<Task>,
    workers: seq<Worker>, users: seq<Submitter>, stopper: Stopper,
    submitted: seq<Task>, taken: seq<Task>, finished: seq<Task>)

  // ---------------------------------------------------------------- counting

  ghost function Sum<T>(s: seq<T>, f: T -> nat): nat {
    if s == [] then 0 else Sum(s[..|s| - 1], f) + f(s[|s| - 1])
  }

  lemma {:induction false} SumUpdate<T>(s: seq<T>, f: T -> nat, i: nat, x: T)
    requires i < |s|
    ensures Sum(s[i := x], f) == Sum(s, f) - f(s[i]) + f(x)
  {
    var s' := s[i := x];
    if i == |s| - 1 {
      assert s'[..|s| - 1] == s[..|s| - 1];
    } else {
      assert s'[..|s| - 1] == s[..|s| - 1][i := x];
      SumUpdate(s[..|s| - 1], f, i, x);
    }
  }

  /** A positive sum has a positive summand. */
  lemma {:induction false} SumWitness<T>(s: seq<T>, f: T -> nat) returns (i: nat)
    requires Sum(s, f) > 0
    ensures i < |s| && f(s[i]) > 0
  {
    if f(s[|s| - 1]) > 0 {
      i := |s| - 1;
    } else {
      i := SumWitness(s[..|s| - 1], f);
    }
  }

  ghost function WokenWorker(w: Worker): nat { if w.Woken? then 1 else 0 }
  ghost function NotifiedUser(u: Submitter): nat { if u.phase.Notified? then 1 else 0 }

  /** How often task x occurs in a record, is running, or is still to be submitted. */
  ghost function Occurs(s: seq<Task>, x: Task): nat {
    if s == [] then 0 else Occurs(s[..|s| - 1], x) + if s[|s| - 1] == x then 1 else 0
  }

  ghost function RunningCount(ws: seq<Worker>, x: Task): nat {
    if ws == [] then 0 else RunningCount(ws[..|ws| - 1], x) + Runs(ws[|ws| - 1], x)
  }

  ghost function Runs(w: Worker, x: Task): nat {
    if w.Running? && w.task == x then 1 else 0
  }

  ghost function TodoCount(us: seq<Submitter>, x: Task): nat {
    if us == [] then 0 else TodoCount(us[..|us| - 1], x) + Occurs(us[|us| - 1].todo, x)
  }

  lemma OccursPush(s: seq<Task>, y: Task, x: Task)
    ensures Occurs(s + [y], x) == Occurs(s, x) + if y == x then 1 else 0
  {
    assert (s + [y])[..|s|] == s;
  }

  lemma {:induction false} OccursPop(s: seq<Task>, x: Task)
    requires s != []
    ensures Occurs(s, x) == Occurs(s[1..], x) + if s[0] == x then 1 else 0
  {
    if |s| > 1 {
      OccursPop(s[..|s| - 1], x);
      assert s[..|s| - 1][1..] == s[1..][..|s| - 2];
    }
  }

  lemma {:induction false} RunningUpdate(ws: seq<Worker>, i: nat, v: Worker, x: Task)
    requires i < |ws|
    ensures RunningCount(ws[i := v], x) == RunningCount(ws, x) - Runs(ws[i], x) + Runs(v, x)
  {
    var ws' := ws[i := v];
    if i == |ws| - 1 {
      assert ws'[..|ws| - 1] == ws[..|ws| - 1];
    } else {
      assert ws'[..|ws| - 1] == ws[..|ws| - 1][i := v];
      RunningUpdate(ws[..|ws| - 1], i, v, x);
    }
  }

  lemma {:induction false} TodoUpdate(us: seq<Submitter>, i: nat, v: Submitter, x: Task)
    requires i < |us|
    ensures TodoCount(us[i := v], x) == TodoCount(us, x) - Occurs(us[i].todo, x) + Occurs(v.todo, x)
  {
    var us' := us[i := v];
    if i == |us| - 1 {
      assert us'[..|us| - 1] == us[..|us| - 1];
    } else {
      assert us'[..|us| - 1] == us[..|us| - 1][i := v];
      TodoUpdate(us[..|us| - 1], i, v, x);
    }
  }

  // ------------------------------------------------------------------- steps

  ghost predicate SomeParked(ws: seq<Worker>) {
    exists w :: 0 <= w < |ws| && ws[w].Parked?
  }

  /** cv_.notify_one(): some parked worker, if there is one, is woken. */
  ghost predicate NotifyWorker(ws: seq<Worker>, ws': seq<Worker>) {
    if SomeParked(ws) then exists w :: WakesWorker(ws, w, ws') else ws' == ws
  }

  ghost predicate WakesWorker(ws: seq<Worker>, w: int, ws': seq<Worker>) {
    0 <= w < |ws| && ws[w].Parked? && ws' == ws[w := Woken]
  }

  /** cv_.notify_all() */
  ghost function AllWoken(ws: seq<Worker>): (ws': seq<Worker>)
    ensures |ws'| == |ws|
  {
    seq(|ws|, w requires 0 <= w < |ws| => if ws[w].Parked? then Woken else ws[w])
  }

  ghost predicate SomeUserWaits(us: seq<Submitter>, stopper: Stopper) {
    stopper.StopWaiting? || exists i :: 0 <= i < |us| && us[i].phase.Waiting?
  }

  /** user_cv_.notify_one(): submitters and the stopping thread wait on the same
      variable. */
  ghost predicate NotifyUser(us: seq<Submitter>, stopper: Stopper, us': seq<Submitter>, stopper': Stopper) {
    if SomeUserWaits(us, stopper) then
      || (stopper.StopWaiting? && stopper' == StopNotified && us' == us)
      || (stopper' == stopper && exists i :: WakesUser(us, i, us'))
    else us' == us && stopper' == stopper
  }

  ghost predicate WakesUser(us: seq<Submitter>, i: int, us': seq<Submitter>) {
    0 <= i < |us| && us[i].phase.Waiting? && us' == us[i := Submitter(us[i].todo, Notified)]
  }

  /** Submit by thread i, from locking the mutex to unlocking or waiting. */
  ghost predicate SubmitStep(s: Pool, i: nat, s': Pool) {
    && i < |s.users| && s.users[i].todo != [] && !s.users[i].phase.Waiting?
    && var task, rest := s.users[i].todo[0], s.users[i].todo[1..];
       if s.outstanding <= |s.workers| then
         && NotifyWorker(s.workers, s'.workers)
         && s' == s.(q := s.q + [task], outstanding := s.outstanding + 1, submitted := s.submitted + [task],
                     users := s.users[i := Submitter(rest, Free)], workers := s'.workers)
       else s' == s.(users := s.users[i := Submitter(s.users[i].todo, Waiting)])
  }

  /** One round of ThreadLoop by worker w, up to the call of the task. */
  ghost predicate WorkerStep(s: Pool, w: nat, s': Pool) {
    && w < |s.workers| && (s.workers[w].Idle? || s.workers[w].Woken?)
    && if s.closing then s' == s.(workers := s.workers[w := Exited])
       else if s.q == [] then s' == s.(workers := s.workers[w := Parked])
       else
         && s.outstanding > 0
         && NotifyUser(s.users, s.stopper, s'.users, s'.stopper)
         && s' == s.(q := s.q[1..], outstanding := s.outstanding - 1, taken := s.taken + [s.q[0]],
                     workers := s.workers[w := Running(s.q[0])], users := s'.users, stopper := s'.stopper)
  }

  /** The task of worker w returns. */
  ghost predicate FinishStep(s: Pool, w: nat, s': Pool) {
    && w < |s.workers| && s.workers[w].Running?
    && s' == s.(workers := s.workers[w := Idle], finished := s.finished + [s.workers[w].task])
  }

  ghost predicate AllSubmitted(s: Pool) {
    forall i :: 0 <= i < |s.users| ==> s.users[i].todo == [] && s.users[i].phase.Free?
  }

  /** The locked part of Stop.  All calls of Submit have to be finished. */
  ghost predicate StopStep(s: Pool, s': Pool) {
    && ((s.stopper.NotCalled? && AllSubmitted(s)) || s.stopper.StopNotified?)
    && if s.outstanding == 0
       then s' == s.(closing := true, workers := AllWoken(s.workers), stopper := Joining)
       else s' == s.(stopper := StopWaiting)
  }

  /** The last worker is joined. */
  ghost predicate JoinStep(s: Pool, s': Pool) {
    && s.stopper.Joining? && (forall w :: 0 <= w < |s.workers| ==> s.workers[w].Exited?)
    && s' == s.(stopper := Returned)
  }

  /** A waiting thread wakes up without having been notified. */
  ghost predicate SpuriousStep(s: Pool, s': Pool) {
    || (exists w :: WakesWorker(s.workers, w, s'.workers) && s' == s.(workers := s'.workers))
    || (exists i :: WakesUser(s.users, i, s'.users) && s' == s.(users := s'.users))
    || (s.stopper.StopWaiting? && s' == s.(stopper := StopNotified))
  }

  ghost predicate RealStep(s: Pool, s': Pool) {
    || (exists i: nat :: SubmitStep(s, i, s'))
    || (exists w: nat :: WorkerStep(s, w, s'))
    || (exists w: nat :: FinishStep(s, w, s'))
    || StopStep(s, s')
    || JoinStep(s, s')
  }

  /** The constructed pool, with what the submitters are going to submit. */
  ghost predicate Init(s: Pool) {
    && !s.closing && s.outstanding == 0 && s.q == [] && s.stopper == NotCalled
    && |s.workers| > 0 && (forall w :: 0 <= w < |s.workers| ==> s.workers[w] == Idle)
    && (forall i :: 0 <= i < |s.users| ==> s.users[i].phase == Free)
    && s.submitted == s.taken == s.finished == []
  }

  // --------------------------------------------------------------- invariant

  /** No wakeup is lost: a waiting submitter has reason to wait or a successor
      that will find room, a parked worker has nothing to do that no woken
      worker will do, a waiting Stop has something to wait for. */
  ghost predicate NoLostWakeup(s: Pool) {
    && (forall i :: 0 <= i < |s.users| && s.users[i].phase.Waiting? ==>
          s.outstanding + Sum(s.users, NotifiedUser) >= |s.workers| + 1)
    && (forall w :: 0 <= w < |s.workers| && s.workers[w].Parked? ==> |s.q| <= Sum(s.workers, WokenWorker))
    && (s.stopper.StopWaiting? ==> s.outstanding > 0)
  }

  /** The queue is what was submitted and not yet taken, first in first out, and
      never longer than one task per thread and one more. */
  ghost predicate QueueInv(s: Pool) {
    && |s.workers| > 0
    && s.outstanding == |s.q| <= |s.workers| + 1
    && s.submitted == s.taken + s.q
  }

  /** Stop follows all calls of Submit; closing starts with an empty queue; no
      worker leaves before, none parks after. */
  ghost predicate ClosingInv(s: Pool) {
    && (!s.stopper.NotCalled? ==> AllSubmitted(s))
    && (forall i :: 0 <= i < |s.users| && s.users[i].todo == [] ==> s.users[i].phase.Free?)
    && (s.closing <==> s.stopper.Joining? || s.stopper.Returned?)
    && (s.closing ==> s.q == [] && forall w :: 0 <= w < |s.workers| ==> !s.workers[w].Parked?)
    && (!s.closing ==> forall w :: 0 <= w < |s.workers| ==> !s.workers[w].Exited?)
    && (s.stopper.Returned? ==> forall w :: 0 <= w < |s.workers| ==> s.workers[w].Exited?)
  }

  /** Every task taken from the queue is running or finished. */
  ghost predicate TasksKept(s: Pool) {
    forall x :: Occurs(s.taken, x) == RunningCount(s.workers, x) + Occurs(s.finished, x)
  }

  ghost predicate Inv(s: Pool) {
    QueueInv(s) && ClosingInv(s) && NoLostWakeup(s) && TasksKept(s)
  }

  lemma {:induction false} NothingRuns(ws: seq<Worker>, x: Task)
    requires forall w :: 0 <= w < |ws| ==> !ws[w].Running?
    ensures RunningCount(ws, x) == 0
  {
    if ws != [] {
      NothingRuns(ws[..|ws| - 1], x);
    }
  }

  lemma InitInv(s: Pool)
    requires Init(s)
    ensures Inv(s)
  {
    forall x {
      NothingRuns(s.workers, x);
    }
  }

  /** Waking one worker: one more is woken, the rest stays. */
  lemma NotifyWorkerEffect(ws: seq<Worker>, ws': seq<Worker>)
    requires NotifyWorker(ws, ws')
    ensures |ws'| == |ws|
    ensures Sum(ws', WokenWorker) == Sum(ws, WokenWorker) + if SomeParked(ws) then 1 else 0
    ensures forall w :: 0 <= w < |ws| ==> ws'[w] == ws[w] || (ws[w].Parked? && ws'[w].Woken?)
    ensures forall x :: RunningCount(ws', x) == RunningCount(ws, x)
  {
    if SomeParked(ws) {
      var w :| WakesWorker(ws, w, ws');
      SumUpdate(ws, WokenWorker, w, Woken);
      forall x
        ensures RunningCount(ws', x) == RunningCount(ws, x)
      {
        RunningUpdate(ws, w, Woken, x);
      }
    }
  }

  lemma NotifyUserEffect(us: seq<Submitter>, st: Stopper, us': seq<Submitter>, st': Stopper)
    requires NotifyUser(us, st, us', st')
    ensures |us'| == |us|
    ensures forall i :: 0 <= i < |us| ==> us'[i].todo == us[i].todo
    ensures forall i :: 0 <= i < |us| ==> us'[i] == us[i] || (us[i].phase.Waiting? && us'[i].phase.Notified?)
    ensures st' == st || (st.StopWaiting? && st'.StopNotified?)
    ensures st' == st ==> Sum(us', NotifiedUser) == Sum(us, NotifiedUser) + if SomeUserWaits(us, st) then 1 else 0
    ensures st' != st ==> us' == us
    ensures st'.StopWaiting? ==> us' != us
  {
    if st' == st && SomeUserWaits(us, st) {
      var i :| WakesUser(us, i, us');
      SumUpdate(us, NotifiedUser, i, us'[i]);
    }
  }

  // -------------------------------------------- every step keeps the invariant

  /** Neither assertion on closing_ in Submit can fail. */
  lemma SubmitKeepsInv(s: Pool, i: nat, s': Pool)
    requires Inv(s) && SubmitStep(s, i, s')
    ensures !s.closing && Inv(s')
  {
    assert s.stopper.NotCalled?;
    SumUpdate(s.users, NotifiedUser, i, s'.users[i]);
    if s.outstanding <= |s.workers| {
      NotifyWorkerEffect(s.workers, s'.workers);
    }
  }

  lemma MovedTask(s: Pool, w: nat, v: Worker)
    requires w < |s.workers|
    ensures forall x :: RunningCount(s.workers[w := v], x)
                        == RunningCount(s.workers, x) - Runs(s.workers[w], x) + Runs(v, x)
  {
    forall x {
      RunningUpdate(s.workers, w, v, x);
    }
  }

  lemma RecordPush(s: seq<Task>, y: Task)
    ensures forall x :: Occurs(s + [y], x) == Occurs(s, x) + if y == x then 1 else 0
  {
    forall x {
      OccursPush(s, y, x);
    }
  }

  lemma WorkerKeepsWakeups(s: Pool, w: nat, s': Pool)
    requires Inv(s) && WorkerStep(s, w, s')
    ensures NoLostWakeup(s') && ClosingInv(s')
  {
    SumUpdate(s.workers, WokenWorker, w, s'.workers[w]);
    if !s.closing && s.q != [] {
      NotifyUserEffect(s.users, s.stopper, s'.users, s'.stopper);
    }
  }

  lemma WorkerKeepsInv(s: Pool, w: nat, s': Pool)
    requires Inv(s) && WorkerStep(s, w, s')
    ensures Inv(s')
  {
    WorkerKeepsWakeups(s, w, s');
    MovedTask(s, w, s'.workers[w]);
    if !s.closing && s.q != [] {
      RecordPush(s.taken, s.q[0]);
      assert s.taken + s.q == s.taken + [s.q[0]] + s.q[1..];
    }
  }

  lemma FinishKeepsInv(s: Pool, w: nat, s': Pool)
    requires Inv(s) && FinishStep(s, w, s')
    ensures Inv(s')
  {
    SumUpdate(s.workers, WokenWorker, w, Idle);
    MovedTask(s, w, Idle);
    RecordPush(s.finished, s.workers[w].task);
  }

  lemma {:induction false} AllWokenRuns(ws: seq<Worker>, x: Task)
    ensures RunningCount(AllWoken(ws), x) == RunningCount(ws, x)
  {
    if ws != [] {
      AllWokenRuns(ws[..|ws| - 1], x);
      assert AllWoken(ws)[..|ws| - 1] == AllWoken(ws[..|ws| - 1]);
    }
  }

  /** The pool is closed only when its queue is empty. */
  lemma StopKeepsInv(s: Pool, s': Pool)
    requires Inv(s) && StopStep(s, s')
    ensures Inv(s') && (s'.closing ==> s'.q == [] && !s.closing)
  {
    forall x {
      AllWokenRuns(s.workers, x);
    }
  }

  lemma JoinKeepsInv(s: Pool, s': Pool)
    requires Inv(s) && JoinStep(s, s')
    ensures Inv(s')
  {
  }

  lemma SpuriousKeepsInv(s: Pool, s': Pool)
    requires Inv(s) && SpuriousStep(s, s')
    ensures Inv(s')
  {
    if w :| WakesWorker(s.workers, w, s'.workers) && s' == s.(workers := s'.workers) {
      SumUpdate(s.workers, WokenWorker, w, Woken);
      MovedTask(s, w, Woken);
    } else if i :| WakesUser(s.users, i, s'.users) && s' == s.(users := s'.users) {
      SumUpdate(s.users, NotifiedUser, i, s'.users[i]);
    }
  }

  lemma StepKeepsInv(s: Pool, s': Pool)
    requires Inv(s) && (RealStep(s, s') || SpuriousStep(s, s'))
    ensures Inv(s')
  {
    if i: nat :| SubmitStep(s, i, s') {
      SubmitKeepsInv(s, i, s');
    } else if w: nat :| WorkerStep(s, w, s') {
      WorkerKeepsInv(s, w, s');
    } else if w: nat :| FinishStep(s, w, s') {
      FinishKeepsInv(s, w, s');
    } else if StopStep(s, s') {
      StopKeepsInv(s, s');
    } else if JoinStep(s, s') {
      JoinKeepsInv(s, s');
    } else {
      SpuriousKeepsInv(s, s');
    }
  }
}
