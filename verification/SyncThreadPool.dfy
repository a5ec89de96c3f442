/** The task pool with its mutable fields.  Each method is what one thread does
    between getting the mutex and giving it up, and is one step of the protocol. */
module SyncThreadPools {
  import opened PoolProtocol

  class SyncThreadPool {
    var closing: bool
    var outstanding: nat
    var q: seq<Task>
    var workers: seq<Worker>
    var users: seq<Submitter>
    var stopper: Stopper
    ghost var submitted: seq<Task>
    ghost var taken: seq<Task>
    ghost var finished: seq<Task>

    ghost function View(): Pool
      reads this
    {
      Pool(closing, outstanding, q, workers, users, stopper, submitted, taken, finished)
    }

    /** Starts the threads; users are the callers to come. */
    constructor (concurrency: nat, users: seq<Submitter>)
      requires concurrency > 0 && forall i :: 0 <= i < |users| ==> users[i].phase.Free?
      ensures Init(View()) && |workers| == concurrency && this.users == users
    {
      closing, outstanding, q, stopper := false, 0, [], NotCalled;
      workers := seq(concurrency, _ => Idle);
      this.users := users;
      submitted, taken, finished := [], [], [];
    }

    /** cv_.notify_one() */
    method NotifyOneWorker()
      modifies `workers
      ensures NotifyWorker(old(workers), workers)
    {
      if w :| 0 <= w < |workers| && workers[w].Parked? {
        workers := workers[w := Woken];
        assert WakesWorker(old(workers), w, workers);
      }
    }

    /** cv_.notify_all() */
    method NotifyAllWorkers()
      modifies `workers
      ensures workers == AllWoken(old(workers))
    {
      var i := 0;
      while i < |workers|
        invariant 0 <= i <= |workers| == |old(workers)|
        invariant forall w :: 0 <= w < |workers| ==>
                    workers[w] == if w < i then AllWoken(old(workers))[w] else old(workers)[w]
      {
        if workers[i].Parked? {
          workers := workers[i := Woken];
        }
        i := i + 1;
      }
    }

    /** user_cv_.notify_one(): whoever waits, a submitter or the stopping thread. */
    method NotifyOneUser()
      modifies `users, `stopper
      ensures NotifyUser(old(users), old(stopper), users, stopper)
    {
      var stop: bool := *;
      if i :| 0 <= i < |users| && users[i].phase.Waiting? && !(stop && stopper.StopWaiting?) {
        users := users[i := Submitter(users[i].todo, Notified)];
        assert WakesUser(old(users), i, users);
      } else if stopper.StopWaiting? {
        stopper := StopNotified;
      }
    }

    /** Submit, called by thread i, with the first task it has left. */
    method Submit(i: nat)
      requires Inv(View()) && i < |users| && users[i].todo != [] && !users[i].phase.Waiting?
      modifies this
      ensures SubmitStep(old(View()), i, View()) && Inv(View())
      ensures |users| == |old(users)| && !old(closing) &&
              var todo := old(users)[i].todo;
              if |old(q)| > |workers| then q == old(q) && users[i] == Submitter(todo, Waiting)
              else q == old(q) + [todo[0]] && users[i] == Submitter(todo[1..], Free)
    {
      ghost var s := View();
      assert !closing by {
        assert s.stopper.NotCalled?;
      }
      if outstanding <= |workers| {
        var fun := users[i].todo[0];
        q := q + [fun];
        submitted := submitted + [fun];
        outstanding := outstanding + 1;
        NotifyOneWorker();
        users := users[i := Submitter(users[i].todo[1..], Free)];
      } else {
        users := users[i := Submitter(users[i].todo, Waiting)];
      }
      SubmitKeepsInv(s, i, View());
    }

    /** ThreadLoop of worker w, up to waiting, returning or running a task. */
    method ThreadLoop(w: nat)
      requires Inv(View()) && w < |workers| && (workers[w].Idle? || workers[w].Woken?)
      modifies this
      ensures WorkerStep(old(View()), w, View()) && Inv(View())
      ensures |workers| == |old(workers)| &&
              if old(closing) then workers[w].Exited? && q == old(q)
              else if old(q) == [] then workers[w].Parked? && q == old(q)
              else workers[w] == Running(old(q)[0]) && q == old(q)[1..]
    {
      ghost var s := View();
      if closing {
        workers := workers[w := Exited];
      } else if q == [] {
        workers := workers[w := Parked];
      } else {
        var task := q[0];
        q := q[1..];
        taken := taken + [task];
        outstanding := outstanding - 1;
        NotifyOneUser();
        workers := workers[w := Running(task)];
      }
      WorkerKeepsInv(s, w, View());
    }

    /** The task worker w runs comes to its end. */
    method TaskReturns(w: nat)
      requires Inv(View()) && w < |workers| && workers[w].Running?
      modifies `workers, `finished
      ensures FinishStep(old(View()), w, View()) && Inv(View())
    {
      ghost var s := View();
      finished := finished + [workers[w].task];
      workers := workers[w := Idle];
      FinishKeepsInv(s, w, View());
    }

    /** The locked part of Stop. */
    method Stop()
      requires Inv(View()) && ((stopper.NotCalled? && AllSubmitted(View())) || stopper.StopNotified?)
      modifies this
      ensures StopStep(old(View()), View()) && Inv(View())
      ensures q == old(q) && closing == (q == []) && stopper == if q == [] then Joining else StopWaiting
    {
      ghost var s := View();
      if outstanding == 0 {
        closing := true;
        NotifyAllWorkers();
        stopper := Joining;
      } else {
        stopper := StopWaiting;
      }
      StopKeepsInv(s, View());
    }

    /** Joining the threads, which ends Stop. */
    method Join()
      requires Inv(View()) && stopper.Joining? && forall w :: 0 <= w < |workers| ==> workers[w].Exited?
      modifies `stopper
      ensures JoinStep(old(View()), View()) && Inv(View())
    {
      ghost var s := View();
      stopper := Returned;
      JoinKeepsInv(s, View());
    }
  }
}
