/** What runs of the task pool amount to: nobody waits for ever, and when Stop
    returns every task has been completed exactly once. */
module PoolLiveness {
  import opened PoolProtocol

  // ------------------------------------------------------------- no deadlock

  lemma CanNotifyWorker(ws: seq<Worker>) returns (ws': seq<Worker>)
    ensures NotifyWorker(ws, ws')
  {
    ws' := ws;
    if SomeParked(ws) {
      var w :| 0 <= w < |ws| && ws[w].Parked?;
      ws' := ws[w := Woken];
      assert WakesWorker(ws, w, ws');
    }
  }

  lemma CanNotifyUser(us: seq<Submitter>, st: Stopper) returns (us': seq<Submitter>, st': Stopper)
    ensures NotifyUser(us, st, us', st')
  {
    us', st' := us, st;
    if st.StopWaiting? {
      st' := StopNotified;
    } else if i :| 0 <= i < |us| && us[i].phase.Waiting? {
      us' := us[i := Submitter(us[i].todo, Notified)];
      assert WakesUser(us, i, us');
    }
  }

  lemma CanWork(s: Pool, w: nat) returns (s': Pool)
    requires Inv(s) && w < |s.workers| && (s.workers[w].Idle? || s.workers[w].Woken?)
    ensures WorkerStep(s, w, s')
  {
    if s.closing {
      s' := s.(workers := s.workers[w := Exited]);
    } else if s.q == [] {
      s' := s.(workers := s.workers[w := Parked]);
    } else {
      var us', st' := CanNotifyUser(s.users, s.stopper);
      s' := s.(q := s.q[1..], outstanding := s.outstanding - 1, taken := s.taken + [s.q[0]],
               workers := s.workers[w := Running(s.q[0])], users := us', stopper := st');
    }
  }

  lemma CanSubmit(s: Pool, i: nat) returns (s': Pool)
    requires i < |s.users| && s.users[i].todo != [] && !s.users[i].phase.Waiting?
    ensures SubmitStep(s, i, s')
  {
    if s.outstanding <= |s.workers| {
      var ws' := CanNotifyWorker(s.workers);
      s' := s.(q := s.q + [s.users[i].todo[0]], outstanding := s.outstanding + 1,
               submitted := s.submitted + [s.users[i].todo[0]],
               users := s.users[i := Submitter(s.users[i].todo[1..], Free)], workers := ws');
    } else {
      s' := s.(users := s.users[i := Submitter(s.users[i].todo, Waiting)]);
    }
  }

  lemma CanStop(s: Pool) returns (s': Pool)
    requires (s.stopper.NotCalled? && AllSubmitted(s)) || s.stopper.StopNotified?
    ensures StopStep(s, s')
  {
    s' := if s.outstanding == 0 then s.(closing := true, workers := AllWoken(s.workers), stopper := Joining)
          else s.(stopper := StopWaiting);
  }

  /** All workers parked means an empty queue, which leaves nobody waiting. */
  lemma {:induction false} NoneWoken(ws: seq<Worker>)
    requires forall w :: 0 <= w < |ws| ==> ws[w].Parked?
    ensures Sum(ws, WokenWorker) == 0
  {
    if ws != [] {
      NoneWoken(ws[..|ws| - 1]);
    }
  }

  lemma QuietUsers(s: Pool)
    requires Inv(s) && s.outstanding == 0
    requires forall i :: 0 <= i < |s.users| && s.users[i].todo != [] ==> s.users[i].phase.Waiting?
    ensures AllSubmitted(s)
  {
    if i :| 0 <= i < |s.users| && s.users[i].todo != [] {
      var j := SumWitness(s.users, NotifiedUser);
      assert false;
    }
  }

  /** No deadlock: as long as Stop has not returned, some thread can go on
      without a spurious wakeup. */
  lemma NoDeadlock(s: Pool) returns (s': Pool)
    requires Inv(s) && !s.stopper.Returned?
    ensures RealStep(s, s')
  {
    if w: nat :| w < |s.workers| && s.workers[w].Running? {
      s' := s.(workers := s.workers[w := Idle], finished := s.finished + [s.workers[w].task]);
      assert FinishStep(s, w, s');
    } else if w: nat :| w < |s.workers| && (s.workers[w].Idle? || s.workers[w].Woken?) {
      s' := CanWork(s, w);
    } else if s.closing {
      s' := s.(stopper := Returned);
      assert JoinStep(s, s');
    } else if i: nat :| i < |s.users| && s.users[i].todo != [] && !s.users[i].phase.Waiting? {
      s' := CanSubmit(s, i);
    } else {
      NoneWoken(s.workers);
      assert s.workers[0].Parked?;
      QuietUsers(s);
      s' := CanStop(s);
    }
  }

  // ----------------------------------------------------------------- progress

  ghost function WorkerCost(w: Worker): nat {
    match w
    case Running(_) => 2
    case Idle => 1
    case Woken => 1
    case _ => 0
  }

  ghost function UserCost(u: Submitter): nat {
    5 * |u.todo| + if u.todo == [] || u.phase.Waiting? then 0 else 1
  }

  ghost function StopCost(s: Pool): nat {
    match s.stopper
    case NotCalled => |s.workers| + 4
    case StopWaiting => |s.workers| + 2
    case StopNotified => |s.workers| + 3
    case Joining => 1
    case Returned => 0
  }

  /** How many steps can still be made. */
  ghost function Measure(s: Pool): nat {
    3 * |s.q| + Sum(s.workers, WorkerCost) + Sum(s.users, UserCost) + StopCost(s)
  }

  lemma WakeCost(ws: seq<Worker>, ws': seq<Worker>)
    requires NotifyWorker(ws, ws')
    ensures |ws'| == |ws| && Sum(ws', WorkerCost) <= Sum(ws, WorkerCost) + 1
  {
    if SomeParked(ws) {
      var w :| WakesWorker(ws, w, ws');
      SumUpdate(ws, WorkerCost, w, Woken);
    }
  }

  lemma WakeUserCost(us: seq<Submitter>, i: nat, us': seq<Submitter>)
    requires WakesUser(us, i, us')
    ensures Sum(us', UserCost) <= Sum(us, UserCost) + 1
  {
    SumUpdate(us, UserCost, i, us'[i]);
  }

  lemma {:induction false} AllWokenCost(ws: seq<Worker>)
    ensures Sum(AllWoken(ws), WorkerCost) <= Sum(ws, WorkerCost) + |ws|
  {
    if ws != [] {
      AllWokenCost(ws[..|ws| - 1]);
      assert AllWoken(ws)[..|ws| - 1] == AllWoken(ws[..|ws| - 1]);
    }
  }

  lemma SubmitDecreases(s: Pool, i: nat, s': Pool)
    requires Inv(s) && SubmitStep(s, i, s')
    ensures Measure(s') < Measure(s)
  {
    SumUpdate(s.users, UserCost, i, s'.users[i]);
    if s.outstanding <= |s.workers| {
      WakeCost(s.workers, s'.workers);
    }
  }

  lemma WorkDecreases(s: Pool, w: nat, s': Pool)
    requires Inv(s) && WorkerStep(s, w, s')
    ensures Measure(s') < Measure(s)
  {
    SumUpdate(s.workers, WorkerCost, w, s'.workers[w]);
    if !s.closing && s.q != [] && s'.users != s.users {
      var i :| WakesUser(s.users, i, s'.users);
      WakeUserCost(s.users, i, s'.users);
      assert s'.stopper == s.stopper;
    }
  }

  /** Every step that is not a spurious wakeup is progress. */
  lemma StepDecreases(s: Pool, s': Pool)
    requires Inv(s) && RealStep(s, s')
    ensures Measure(s') < Measure(s)
  {
    if i: nat :| SubmitStep(s, i, s') {
      SubmitDecreases(s, i, s');
    } else if w: nat :| WorkerStep(s, w, s') {
      WorkDecreases(s, w, s');
    } else if w: nat :| FinishStep(s, w, s') {
      SumUpdate(s.workers, WorkerCost, w, Idle);
    } else if StopStep(s, s') {
      AllWokenCost(s.workers);
    }
  }

  lemma SpuriousCost(s: Pool, s': Pool)
    requires SpuriousStep(s, s')
    ensures Measure(s') <= Measure(s) + 1
  {
    if w :| WakesWorker(s.workers, w, s'.workers) && s' == s.(workers := s'.workers) {
      SumUpdate(s.workers, WorkerCost, w, Woken);
    } else if i :| WakesUser(s.users, i, s'.users) && s' == s.(users := s'.users) {
      WakeUserCost(s.users, i, s'.users);
    }
  }

  // --------------------------------------------------------------- whole runs

  /** A run in which step i is a spurious wakeup just if spurious[i]. */
  ghost predicate PoolRun(ss: seq<Pool>, spurious: seq<bool>) {
    && |ss| == |spurious| + 1 && Init(ss[0])
    && forall i {:trigger spurious[i]} :: 0 <= i < |spurious| ==>
         if spurious[i] then SpuriousStep(ss[i], ss[i + 1]) else RealStep(ss[i], ss[i + 1])
  }

  ghost function Spuriously(spurious: seq<bool>): nat {
    if spurious == [] then 0
    else Spuriously(spurious[..|spurious| - 1]) + if spurious[|spurious| - 1] then 1 else 0
  }

  /** Tasks are neither lost nor invented on their way into the queue. */
  ghost function Count(s: Pool, x: Task): nat {
    TodoCount(s.users, x) + Occurs(s.submitted, x)
  }

  lemma StepKeepsCount(s: Pool, s': Pool, x: Task)
    requires Inv(s) && (RealStep(s, s') || SpuriousStep(s, s'))
    ensures Count(s', x) == Count(s, x)
  {
    if i: nat :| SubmitStep(s, i, s') {
      TodoUpdate(s.users, i, s'.users[i], x);
      OccursPop(s.users[i].todo, x);
      OccursPush(s.submitted, s.users[i].todo[0], x);
    } else if s'.users != s.users {
      var i :| WakesUser(s.users, i, s'.users);
      TodoUpdate(s.users, i, s'.users[i], x);
    }
  }

  /** Safety over whole runs, and a bound on their length: without spurious
      wakeups, as many steps as the initial measure; every spurious wakeup
      allows two more steps, itself and the check that follows. */
  lemma {:induction false} RunInvariant(ss: seq<Pool>, spurious: seq<bool>, i: nat)
    requires PoolRun(ss, spurious) && i <= |spurious|
    ensures Inv(ss[i])
    ensures i + Measure(ss[i]) <= Measure(ss[0]) + 2 * Spuriously(spurious[..i])
    ensures forall x :: Count(ss[i], x) == TodoCount(ss[0].users, x)
  {
    if i == 0 {
      InitInv(ss[0]);
    } else {
      RunInvariant(ss, spurious, i - 1);
      var s, s' := ss[i - 1], ss[i];
      assert spurious[..i][..i - 1] == spurious[..i - 1];
      assert if spurious[i - 1] then SpuriousStep(s, s') else RealStep(s, s');
      hide Inv, SpuriousStep, RealStep, Measure, Count, Init;
      StepKeepsInv(s, s');
      if spurious[i - 1] {
        SpuriousCost(s, s');
      } else {
        StepDecreases(s, s');
      }
      forall x {
        StepKeepsCount(s, s', x);
      }
    }
  }

  lemma {:induction false} NothingLeft(us: seq<Submitter>, x: Task)
    requires forall i :: 0 <= i < |us| ==> us[i].todo == []
    ensures TodoCount(us, x) == 0
  {
    if us != [] {
      NothingLeft(us[..|us| - 1], x);
    }
  }

  /** When Stop has returned, every task that anybody wanted to submit has been
      completed exactly as often as it was submitted, and the tasks were started
      in the order in which they were queued. */
  lemma StopMeansDone(ss: seq<Pool>, spurious: seq<bool>)
    requires PoolRun(ss, spurious) && ss[|spurious|].stopper.Returned?
    ensures var s := ss[|spurious|];
            s.taken == s.submitted && forall x :: Occurs(s.finished, x) == TodoCount(ss[0].users, x)
  {
    RunInvariant(ss, spurious, |spurious|);
    var s := ss[|spurious|];
    assert s.taken + s.q == s.taken;
    forall x
      ensures Occurs(s.finished, x) == TodoCount(ss[0].users, x)
    {
      NothingRuns(s.workers, x);
      NothingLeft(s.users, x);
    }
  }

  /** Every run can be continued until Stop returns, and with only so many
      spurious wakeups it cannot go on for ever without that: a run that cannot
      make a real step any more has completed every task. */
  lemma RunsEnd(ss: seq<Pool>, spurious: seq<bool>)
    requires PoolRun(ss, spurious)
    requires forall s' :: !RealStep(ss[|spurious|], s')
    ensures ss[|spurious|].stopper.Returned?
    ensures |spurious| <= Measure(ss[0]) + 2 * Spuriously(spurious)
    ensures forall x :: Occurs(ss[|spurious|].finished, x) == TodoCount(ss[0].users, x)
  {
    RunInvariant(ss, spurious, |spurious|);
    assert spurious[..|spurious|] == spurious;
    if !ss[|spurious|].stopper.Returned? {
      var s' := NoDeadlock(ss[|spurious|]);
      assert false;
    }
    StopMeansDone(ss, spurious);
  }
}
