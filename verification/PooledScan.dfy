/** The walk of module ScanDirectory and the task pool running at the same time:
    every interleaving of the steps of both. */
module PooledScan {
  import opened Basics
  import opened Paths
  import opened ScanDb
  import opened ScanDirectory
  import opened PoolProtocol
  import opened PoolLiveness

  /** The walking thread, which is the pool's only submitter, is in the middle of
      listing dir; es is what is left of it.  Task number x of the pool is to
      hash and pass on files[x]; passed holds the tasks that have done so. */
  datatype ScanState = ScanState(
    calls: seq<Call>, stack: seq<Todo>, dir: Path, handle: Handle, es: seq<Listed>,
    files: seq<Job>, passed: set<Task>, pool: Pool)

  /** The numbers from i to n - 1. */
  ghost function Tasks(i: nat, n: nat): (s: seq<Task>)
    requires i <= n
    ensures |s| == n - i && forall j :: 0 <= j < |s| ==> s[j] == i + j
  {
    seq(n - i, j requires 0 <= j => i + j)
  }

  /** How many files the walk will submit. */
  ghost function FileCount(e: Entry): nat
    decreases e, 1
  {
    match e
    case Folder(_, entries) => if Browsable(e) then FileCountAll(entries) else 0
    case Regular(_) => 1
    case _ => 0
  }

  ghost function FileCountAll(es: seq<Listed>): nat
    decreases es, 0
  {
    if Ended(es) then 0 else FileCount(es[0].entry) + FileCountAll(es[1..])
  }

  ghost function FileCountOn(stack: seq<Todo>): nat {
    if stack == [] then 0 else FileCountOn(stack[..|stack| - 1]) + FileCount(stack[|stack| - 1].entry)
  }

  // ------------------------------------------------------------------- steps

  /** The directory on top of the stack is opened, or skipped if that fails. */
  ghost predicate OpenStep(s: ScanState, s': ScanState) {
    && s.es == [] && s.stack != []
    && var t, rest := s.stack[|s.stack| - 1], s.stack[..|s.stack| - 1];
       && t.entry.Folder? && (t.parent.Some? ==> t.path != [])
       && if Browsable(t.entry)
          then s' == s.(calls := s.calls + [Opening(t)], stack := rest, dir := t.path, handle := |s.calls|,
                        es := t.entry.entries)
          else s' == s.(stack := rest, dir := t.path)
  }

  /** An entry that is no regular file is visited. */
  ghost predicate VisitStep(s: ScanState, s': ScanState) {
    && !Ended(s.es) && !s.es[0].entry.Regular?
    && s' == s.(stack := s.stack + Pushed(s.dir, s.handle, s.es[0]), es := s.es[1..])
  }

  /** The iterator fails. */
  ghost predicate GiveUpStep(s: ScanState, s': ScanState) {
    s.es != [] && Ended(s.es) && s' == s.(es := [])
  }

  /** A regular file is submitted, or the walk has to wait for room in the queue. */
  ghost predicate RegularStep(s: ScanState, s': ScanState) {
    && !Ended(s.es) && s.es[0].entry.Regular?
    && SubmitStep(s.pool, 0, s'.pool)
    && if s.pool.outstanding <= |s.pool.workers|
       then s' == s.(files := s.files + Submitted(s.dir, s.handle, s.es[0]), es := s.es[1..], pool := s'.pool)
       else s' == s.(pool := s'.pool)
  }

  /** A running task passes its file on, unless hashing failed or the checksum is
      zero; that is before it returns. */
  ghost predicate PassStep(s: ScanState, w: nat, s': ScanState) {
    && w < |s.pool.workers| && s.pool.workers[w].Running?
    && var x := s.pool.workers[w].task;
       && x < |s.files| && x !in s.passed && s.files[x].path != []
       && s' == s.(passed := s.passed + {x}, calls := s.calls + CallsFor(s.files[x]))
  }

  ghost function CallsFor(j: Job): seq<Call>
    requires j.path != []
  {
    if j.info.Some? && j.info.value.sum != 0 then [File(j.path[|j.path| - 1], j.parent, j.info.value)] else []
  }

  ghost predicate ReturnStep(s: ScanState, w: nat, s': ScanState) {
    && FinishStep(s.pool, w, s'.pool) && s.pool.workers[w].task in s.passed
    && s' == s.(pool := s'.pool)
  }

  /** The pool is stopped by its destructor, after the walk. */
  ghost predicate EndStep(s: ScanState, s': ScanState) {
    && s.stack == [] && s.es == [] && (StopStep(s.pool, s'.pool) || JoinStep(s.pool, s'.pool))
    && s' == s.(pool := s'.pool)
  }

  ghost predicate TakeStep(s: ScanState, w: nat, s': ScanState) {
    WorkerStep(s.pool, w, s'.pool) && s' == s.(pool := s'.pool)
  }

  ghost predicate RealScanStep(s: ScanState, s': ScanState) {
    || OpenStep(s, s') || VisitStep(s, s') || GiveUpStep(s, s') || RegularStep(s, s') || EndStep(s, s')
    || (exists w: nat :: PassStep(s, w, s'))
    || (exists w: nat :: ReturnStep(s, w, s'))
    || (exists w: nat :: TakeStep(s, w, s'))
  }

  ghost predicate SpuriousScanStep(s: ScanState, s': ScanState) {
    SpuriousStep(s.pool, s'.pool) && s' == s.(pool := s'.pool)
  }

  ghost predicate ScanInit(s: ScanState, root: Path, fs: Entry) {
    && fs.Folder? && s.calls == [] && s.stack == [Todo(root, fs, None)] && s.es == [] && s.dir == root
    && s.files == [] && s.passed == {}
    && Init(s.pool) && |s.pool.users| == 1 && s.pool.users[0].todo == Tasks(0, FileCount(fs))
  }

  // --------------------------------------------------------------- invariant

  /** The submitted files that are not passed on yet. */
  ghost function Pending(files: seq<Job>, passed: set<Task>): seq<Job> {
    if files == [] then []
    else
      var n := |files| - 1;
      Pending(files[..n], passed) + if n in passed then [] else [files[n]]
  }

  /** Walk and pool agree on what is submitted; nothing returns before it is
      passed on; the pool is stopped after the walk. */
  ghost predicate Coupled(s: ScanState, fs: Entry) {
    && Inv(s.pool) && |s.pool.users| == 1
    && |s.files| + FileCountAll(s.es) + FileCountOn(s.stack) == FileCount(fs)
    && s.pool.users[0].todo == Tasks(|s.files|, FileCount(fs))
    && s.pool.submitted == Tasks(0, |s.files|)
    && (forall x :: x in s.passed ==> x < |s.files|)
    && (forall x :: x in s.pool.finished ==> x in s.passed)
    && (!s.pool.stopper.NotCalled? ==> s.stack == [] && s.es == [])
  }

  /** Nothing is lost and nothing is invented. */
  ghost predicate InBalance(s: ScanState, root: Path, fs: Entry) {
    && Balanced(s.calls, s.stack, Pending(s.files, s.passed), s.dir, s.es, root, fs)
    && (s.es != [] ==> IsAt(s.calls, s.handle, s.dir))
  }

  // ------------------------------------------------------- tasks and records

  lemma {:induction false} OccursTasks(n: nat, x: Task)
    ensures Occurs(Tasks(0, n), x) == if x < n then 1 else 0
  {
    if n > 0 {
      OccursTasks(n - 1, x);
      assert Tasks(0, n)[..n - 1] == Tasks(0, n - 1);
    } else {
      assert Tasks(0, 0) == [];
    }
  }

  lemma {:induction false} OccursIn(s: seq<Task>, x: Task)
    ensures Occurs(s, x) > 0 <==> x in s
  {
    if s != [] {
      OccursIn(s[..|s| - 1], x);
      assert x in s <==> x in s[..|s| - 1] || x == s[|s| - 1];
    }
  }

  lemma {:induction false} OccursAppend(a: seq<Task>, b: seq<Task>, x: Task)
    ensures Occurs(a + b, x) == Occurs(a, x) + Occurs(b, x)
  {
    if b == [] {
      assert a + b == a;
    } else {
      OccursAppend(a, b[..|b| - 1], x);
      assert (a + b)[..|a + b| - 1] == a + b[..|b| - 1];
    }
  }

  lemma {:induction false} RunningAtLeast(ws: seq<Worker>, w: nat)
    requires w < |ws| && ws[w].Running?
    ensures RunningCount(ws, ws[w].task) > 0
  {
    if w < |ws| - 1 {
      RunningAtLeast(ws[..|ws| - 1], w);
    }
  }

  /** What runs was submitted. */
  lemma RunningWasSubmitted(s: ScanState, fs: Entry, w: nat)
    requires Coupled(s, fs) && w < |s.pool.workers| && s.pool.workers[w].Running?
    ensures s.pool.workers[w].task < |s.files|
  {
    var x := s.pool.workers[w].task;
    RunningAtLeast(s.pool.workers, w);
    OccursAppend(s.pool.taken, s.pool.q, x);
    OccursTasks(|s.files|, x);
  }

  /** When Stop has returned, all files are passed on. */
  lemma AllPassed(s: ScanState, fs: Entry)
    requires Coupled(s, fs) && s.pool.stopper.Returned?
    ensures forall x: nat :: x < |s.files| ==> x in s.passed
    ensures s.stack == [] && s.es == []
  {
    assert s.pool.taken + s.pool.q == s.pool.taken;
    forall x: nat | x < |s.files|
      ensures x in s.passed
    {
      NothingRuns(s.pool.workers, x);
      OccursTasks(|s.files|, x);
      OccursIn(s.pool.finished, x);
    }
  }

  lemma {:induction false} PendingSame(files: seq<Job>, passed: set<Task>, passed': set<Task>)
    requires forall x: nat :: x < |files| ==> (x in passed <==> x in passed')
    ensures Pending(files, passed) == Pending(files, passed')
  {
    if files != [] {
      PendingSame(files[..|files| - 1], passed, passed');
    }
  }

  lemma {:induction false} NonePending(files: seq<Job>, passed: set<Task>)
    requires forall x: nat :: x < |files| ==> x in passed
    ensures Pending(files, passed) == []
  {
    if files != [] {
      NonePending(files[..|files| - 1], passed);
    }
  }

  lemma PendingSubmit(files: seq<Job>, passed: set<Task>, j: Job)
    requires |files| !in passed
    ensures Pending(files + [j], passed) == Pending(files, passed) + [j]
  {
    assert (files + [j])[..|files|] == files;
  }

  /** Passing a file on removes it from what is pending. */
  lemma {:induction false} PendingPass(files: seq<Job>, passed: set<Task>, x: Task) returns (k: nat)
    requires x < |files| && x !in passed
    ensures var ps := Pending(files, passed);
            k < |ps| && ps[k] == files[x] && Pending(files, passed + {x}) == ps[..k] + ps[k + 1..]
  {
    var n := |files| - 1;
    var ps, qs := Pending(files, passed), Pending(files[..n], passed);
    if x == n {
      k := |ps| - 1;
      PendingSame(files[..n], passed, passed + {x});
      assert ps[k + 1..] == [];
    } else {
      k := PendingPass(files[..n], passed, x);
      assert ps[..k] + ps[k + 1..] == qs[..k] + qs[k + 1..] + if n in passed then [] else [files[n]];
    }
  }

  // ------------------------------------------ every step keeps the invariant

  /** The steps of the pool that do not concern the walk. */
  lemma PoolAside(p: Pool, p': Pool)
    requires Inv(p)
    requires || SpuriousStep(p, p') || StopStep(p, p') || JoinStep(p, p')
             || exists w: nat :: WorkerStep(p, w, p')
    ensures Inv(p') && p'.submitted == p.submitted && p'.finished == p.finished && |p'.users| == |p.users|
    ensures forall i :: 0 <= i < |p.users| ==> p'.users[i].todo == p.users[i].todo
    ensures !p'.stopper.NotCalled? && p.stopper.NotCalled? ==> StopStep(p, p')
  {
    StepKeepsInv(p, p');
    if w: nat :| WorkerStep(p, w, p') {
      if !p.closing && p.q != [] {
        NotifyUserEffect(p.users, p.stopper, p'.users, p'.stopper);
      }
    } else if i :| WakesUser(p.users, i, p'.users) && p' == p.(users := p'.users) {
    }
  }

  lemma AsideKeeps(s: ScanState, s': ScanState, fs: Entry)
    requires Coupled(s, fs) && (SpuriousScanStep(s, s') || EndStep(s, s') || exists w: nat :: TakeStep(s, w, s'))
    ensures Coupled(s', fs)
    ensures s' == s.(pool := s'.pool)
  {
    PoolAside(s.pool, s'.pool);
  }

  lemma ReturnKeeps(s: ScanState, w: nat, s': ScanState, fs: Entry)
    requires Coupled(s, fs) && ReturnStep(s, w, s')
    ensures Coupled(s', fs)
  {
    FinishKeepsInv(s.pool, w, s'.pool);
  }

  lemma PassKeeps(s: ScanState, w: nat, s': ScanState, root: Path, fs: Entry)
    requires Coupled(s, fs) && InBalance(s, root, fs) && PassStep(s, w, s')
    ensures Coupled(s', fs) && InBalance(s', root, fs)
  {
    PassKeepsBalance(s, w, s', root, fs);
    hide InBalance, Inv;
  }

  lemma PassKeepsBalance(s: ScanState, w: nat, s': ScanState, root: Path, fs: Entry)
    requires InBalance(s, root, fs) && PassStep(s, w, s')
    ensures InBalance(s', root, fs)
  {
    var x := s.pool.workers[w].task;
    var jobs := Pending(s.files, s.passed);
    assert s' == s.(passed := s.passed + {x}, calls := s.calls + CallsFor(s.files[x]));
    hide PassStep, Balanced, Pending, IsAt;
    var k := PendingPass(s.files, s.passed, x);
    JobDone(s.calls, s.stack, jobs, s.dir, s.es, root, fs, k);
    var job := s.files[x];
    if job.info.Some? && job.info.value.sum != 0 {
      StaysAt(s.calls, CallsFor(job)[0], s.handle, s.dir);
    } else {
      assert s.calls + [] == s.calls;
    }
  }

  lemma StaysAt(calls: seq<Call>, c: Call, handle: Handle, dir: Path)
    requires WellFormed(calls) && !c.Root? && IsDir(calls, c.parent)
    ensures IsAt(calls, handle, dir) ==> IsAt(calls + [c], handle, dir)
  {
    BuiltNext(calls, c);
  }

  lemma CountPush(stack: seq<Todo>, dir: Path, handle: Handle, l: Listed)
    requires !l.entry.Regular?
    ensures FileCountOn(stack + Pushed(dir, handle, l)) == FileCountOn(stack) + FileCount(l.entry)
  {
    if l.entry.Folder? {
      assert (stack + Pushed(dir, handle, l))[..|stack|] == stack;
    } else {
      assert stack + Pushed(dir, handle, l) == stack;
    }
  }

  lemma VisitStepKeeps(s: ScanState, s': ScanState, root: Path, fs: Entry)
    requires Coupled(s, fs) && InBalance(s, root, fs) && VisitStep(s, s')
    ensures Coupled(s', fs) && InBalance(s', root, fs)
  {
    var jobs := Pending(s.files, s.passed);
    VisitKeeps(s.calls, s.stack, jobs, s.dir, s.es, root, fs, s.handle);
    assert jobs + Submitted(s.dir, s.handle, s.es[0]) == jobs;
    CountPush(s.stack, s.dir, s.handle, s.es[0]);
  }

  lemma GiveUpKeeps(s: ScanState, s': ScanState, root: Path, fs: Entry)
    requires Coupled(s, fs) && InBalance(s, root, fs) && GiveUpStep(s, s')
    ensures Coupled(s', fs) && InBalance(s', root, fs)
  {
    EndKeeps(s.calls, s.stack, Pending(s.files, s.passed), s.dir, s.es, root, fs);
  }

  lemma OpenStepKeeps(s: ScanState, s': ScanState, root: Path, fs: Entry)
    requires Coupled(s, fs) && InBalance(s, root, fs) && OpenStep(s, s')
    ensures Coupled(s', fs) && InBalance(s', root, fs)
  {
    OpenKeeps(s.calls, s.stack, Pending(s.files, s.passed), s.dir, root, fs);
  }

  lemma RegularStepKeeps(s: ScanState, s': ScanState, root: Path, fs: Entry)
    requires Coupled(s, fs) && InBalance(s, root, fs) && RegularStep(s, s')
    ensures Coupled(s', fs) && InBalance(s', root, fs)
  {
    RegularStepKeepsCoupled(s, s', fs);
    if s.pool.outstanding <= |s.pool.workers| {
      RegularStepKeepsBalance(s, s', root, fs);
    }
  }

  lemma SubmitEffect(p: Pool, p': Pool)
    requires Inv(p) && SubmitStep(p, 0, p')
    ensures |p'.users| == |p.users| && p'.finished == p.finished && p'.stopper == p.stopper && p.stopper.NotCalled?
    ensures var moved := if p.outstanding <= |p.workers| then 1 else 0;
            && p'.users[0].todo == p.users[0].todo[moved..]
            && p'.submitted == p.submitted + p.users[0].todo[..moved]
  {
    assert p.submitted + p.users[0].todo[..0] == p.submitted;
  }

  lemma RegularStepKeepsCoupled(s: ScanState, s': ScanState, fs: Entry)
    requires Coupled(s, fs) && RegularStep(s, s')
    ensures Coupled(s', fs)
  {
    SubmitKeepsInv(s.pool, 0, s'.pool);
    SubmitEffect(s.pool, s'.pool);
    hide Inv, SubmitStep;
    if s.pool.outstanding <= |s.pool.workers| {
      assert FileCount(s.es[0].entry) == 1;
      NextTask(|s.files|, FileCount(fs));
    }
  }

  lemma RegularStepKeepsBalance(s: ScanState, s': ScanState, root: Path, fs: Entry)
    requires Coupled(s, fs) && InBalance(s, root, fs) && RegularStep(s, s') && s.pool.outstanding <= |s.pool.workers|
    ensures InBalance(s', root, fs)
  {
    hide Inv, SubmitStep;
    var jobs := Pending(s.files, s.passed);
    var job := Submitted(s.dir, s.handle, s.es[0])[0];
    VisitKeeps(s.calls, s.stack, jobs, s.dir, s.es, root, fs, s.handle);
    assert s.stack + Pushed(s.dir, s.handle, s.es[0]) == s.stack;
    assert s'.files == s.files + [job] && jobs + Submitted(s.dir, s.handle, s.es[0]) == jobs + [job];
    PendingSubmit(s.files, s.passed, job);
  }

  lemma NextTask(i: nat, n: nat)
    requires i < n
    ensures Tasks(i, n)[0] == i && Tasks(i, n)[1..] == Tasks(i + 1, n)
    ensures Tasks(0, i) + [i] == Tasks(0, i + 1)
  {
  }

  lemma ScanStepKeeps(s: ScanState, s': ScanState, root: Path, fs: Entry)
    requires Coupled(s, fs) && InBalance(s, root, fs) && (RealScanStep(s, s') || SpuriousScanStep(s, s'))
    ensures Coupled(s', fs) && InBalance(s', root, fs)
  {
    hide Coupled, InBalance, OpenStep, VisitStep, GiveUpStep, RegularStep, EndStep, PassStep, ReturnStep, TakeStep,
         SpuriousScanStep;
    if OpenStep(s, s') {
      OpenStepKeeps(s, s', root, fs);
    } else if VisitStep(s, s') {
      VisitStepKeeps(s, s', root, fs);
    } else if GiveUpStep(s, s') {
      GiveUpKeeps(s, s', root, fs);
    } else if RegularStep(s, s') {
      RegularStepKeeps(s, s', root, fs);
    } else if w: nat :| PassStep(s, w, s') {
      PassKeeps(s, w, s', root, fs);
    } else {
      PoolStepKeeps(s, s', root, fs);
    }
  }

  lemma PoolStepKeeps(s: ScanState, s': ScanState, root: Path, fs: Entry)
    requires Coupled(s, fs) && InBalance(s, root, fs)
    requires || EndStep(s, s') || SpuriousScanStep(s, s')
             || (exists w: nat :: ReturnStep(s, w, s')) || (exists w: nat :: TakeStep(s, w, s'))
    ensures Coupled(s', fs) && InBalance(s', root, fs)
  {
    hide Coupled, Balanced;
    if w: nat :| ReturnStep(s, w, s') {
      ReturnKeeps(s, w, s', fs);
    } else {
      AsideKeeps(s, s', fs);
    }
  }

  lemma StateStarts(s: ScanState, root: Path, fs: Entry)
    requires ScanInit(s, root, fs)
    ensures Coupled(s, fs) && InBalance(s, root, fs)
  {
    InitInv(s.pool);
    WalkStarts(root, fs);
    assert FileCountOn([Todo(root, fs, None)]) == FileCount(fs) by {
      assert [Todo(root, fs, None)][..0] == [];
    }
  }

  /** A run of walk and pool in which step i is a spurious wakeup just if spurious[i]. */
  ghost predicate ScanRun(ss: seq<ScanState>, spurious: seq<bool>, root: Path, fs: Entry) {
    && |ss| == |spurious| + 1 && ScanInit(ss[0], root, fs)
    && forall i {:trigger spurious[i]} :: 0 <= i < |spurious| ==>
         if spurious[i] then SpuriousScanStep(ss[i], ss[i + 1]) else RealScanStep(ss[i], ss[i + 1])
  }

  lemma {:induction false} ScanRunKeeps(ss: seq<ScanState>, spurious: seq<bool>, root: Path, fs: Entry, i: nat)
    requires ScanRun(ss, spurious, root, fs) && i <= |spurious|
    ensures Coupled(ss[i], fs) && InBalance(ss[i], root, fs)
  {
    if i == 0 {
      StateStarts(ss[0], root, fs);
    } else {
      ScanRunKeeps(ss, spurious, root, fs, i - 1);
      assert if spurious[i - 1] then SpuriousScanStep(ss[i - 1], ss[i]) else RealScanStep(ss[i - 1], ss[i]);
      hide *;
      ScanStepKeeps(ss[i - 1], ss[i], root, fs);
    }
  }

  /** Whatever the interleaving: when the pool has been stopped, which ends the
      scan, exactly the filtered tree is built, and the pool was not stopped
      before the walk was over. */
  lemma ScanBuildsTree(ss: seq<ScanState>, spurious: seq<bool>, root: Path, fs: Entry)
    requires ScanRun(ss, spurious, root, fs) && ss[|spurious|].pool.stopper.Returned?
    ensures CallsOk(ss[|spurious|].calls) && BuildsTree(ss[|spurious|].calls, root, fs)
    ensures forall x :: Built(ss[|spurious|].calls, x) == Wanted(root, fs, x)
  {
    ScanRunKeeps(ss, spurious, root, fs, |spurious|);
    var s := ss[|spurious|];
    AllPassed(s, fs);
    NonePending(s.files, s.passed);
    WantedBuilds(s.calls, root, fs);
  }

  // ---------------------------------------------------------------- liveness

  lemma NoFileLeft(s: ScanState, fs: Entry)
    requires Coupled(s, fs) && s.stack == [] && s.es == []
    ensures s.pool.users[0].todo == []
  {
  }

  lemma FileLeft(s: ScanState, fs: Entry)
    requires Coupled(s, fs) && !Ended(s.es) && s.es[0].entry.Regular?
    ensures s.pool.users[0].todo != [] && s.pool.stopper.NotCalled? && !s.pool.closing
  {
    assert FileCount(s.es[0].entry) == 1;
  }

  /** A worker with a task can go on. */
  lemma WorkerGoesOn(s: ScanState, root: Path, fs: Entry, w: nat) returns (s': ScanState)
    requires Coupled(s, fs) && InBalance(s, root, fs) && w < |s.pool.workers| && s.pool.workers[w].Running?
    ensures RealScanStep(s, s')
  {
    var x := s.pool.workers[w].task;
    if x in s.passed {
      s' := s.(pool := s.pool.(workers := s.pool.workers[w := Idle], finished := s.pool.finished + [x]));
      assert ReturnStep(s, w, s');
    } else {
      RunningWasSubmitted(s, fs, w);
      var k := PendingPass(s.files, s.passed, x);
      s' := s.(passed := s.passed + {x}, calls := s.calls + CallsFor(s.files[x]));
      assert PassStep(s, w, s');
    }
  }

  /** The pool can go on by itself, unless it is the walk's turn to submit. */
  lemma PoolGoesOn(s: ScanState, root: Path, fs: Entry) returns (s': ScanState)
    requires Coupled(s, fs) && InBalance(s, root, fs) && !s.pool.stopper.Returned?
    requires s.pool.users[0].todo == [] || s.pool.users[0].phase.Waiting?
    requires s.pool.users[0].todo == [] ==> s.stack == [] && s.es == []
    ensures RealScanStep(s, s')
  {
    var p' := NoDeadlock(s.pool);
    hide Coupled, InBalance, Inv, WorkerStep, StopStep, JoinStep, OpenStep, VisitStep, GiveUpStep,
         RegularStep, PassStep;
    if w: nat :| FinishStep(s.pool, w, p') {
      s' := WorkerGoesOn(s, root, fs, w);
    } else if w: nat :| WorkerStep(s.pool, w, p') {
      s' := s.(pool := p');
      assert TakeStep(s, w, s');
    } else {
      EndIsTimely(s, fs, p');
      s' := s.(pool := p');
      assert EndStep(s, s');
    }
  }

  /** Where the walk cannot submit, only the end of the scan remains. */
  lemma EndIsTimely(s: ScanState, fs: Entry, p': Pool)
    requires Coupled(s, fs)
    requires s.pool.users[0].todo == [] || s.pool.users[0].phase.Waiting?
    requires s.pool.users[0].todo == [] ==> s.stack == [] && s.es == []
    requires StopStep(s.pool, p') || JoinStep(s.pool, p') || exists i: nat :: SubmitStep(s.pool, i, p')
    ensures StopStep(s.pool, p') || JoinStep(s.pool, p')
    ensures s.stack == [] && s.es == []
  {
    if i: nat :| SubmitStep(s.pool, i, p') {
      assert false;
    }
  }

  /** No deadlock: as long as Stop has not returned, the walk or the pool can go
      on without a spurious wakeup. */
  lemma ScanGoesOn(s: ScanState, root: Path, fs: Entry) returns (s': ScanState)
    requires Coupled(s, fs) && InBalance(s, root, fs) && !s.pool.stopper.Returned?
    ensures RealScanStep(s, s')
  {
    if s.es != [] && Ended(s.es) {
      s' := s.(es := []);
    } else if s.es != [] && !s.es[0].entry.Regular? {
      s' := s.(stack := s.stack + Pushed(s.dir, s.handle, s.es[0]), es := s.es[1..]);
    } else if s.es != [] {
      FileLeft(s, fs);
      if s.pool.users[0].phase.Waiting? {
        s' := PoolGoesOn(s, root, fs);
      } else {
        var p' := CanSubmit(s.pool, 0);
        s' := if s.pool.outstanding <= |s.pool.workers|
              then s.(files := s.files + Submitted(s.dir, s.handle, s.es[0]), es := s.es[1..], pool := p')
              else s.(pool := p');
      }
    } else if s.stack != [] {
      OpenKeeps(s.calls, s.stack, Pending(s.files, s.passed), s.dir, root, fs);
      var t, rest := s.stack[|s.stack| - 1], s.stack[..|s.stack| - 1];
      s' := if Browsable(t.entry)
            then s.(calls := s.calls + [Opening(t)], stack := rest, dir := t.path, handle := |s.calls|,
                    es := t.entry.entries)
            else s.(stack := rest, dir := t.path);
    } else {
      NoFileLeft(s, fs);
      s' := PoolGoesOn(s, root, fs);
    }
  }

  // ----------------------------------------------------------------- progress

  ghost function Effort(e: Entry): nat
    decreases e, 1
  {
    if e.Folder? then 1 + EffortAll(e.entries) else 0
  }

  ghost function EffortAll(es: seq<Listed>): nat
    decreases es, 0
  {
    if es == [] then 0 else 1 + Effort(es[0].entry) + EffortAll(es[1..])
  }

  ghost function EffortOn(stack: seq<Todo>): nat {
    if stack == [] then 0 else EffortOn(stack[..|stack| - 1]) + Effort(stack[|stack| - 1].entry)
  }

  /** The submitted or still to be submitted files that are not passed on. */
  ghost function ToPass(s: ScanState, fs: Entry): nat {
    |set x: nat | x < FileCount(fs) && x !in s.passed|
  }

  /** How many steps can still be made. */
  ghost function ScanMeasure(s: ScanState, fs: Entry): nat {
    EffortOn(s.stack) + EffortAll(s.es) + Measure(s.pool) + ToPass(s, fs)
  }

  lemma EffortPush(stack: seq<Todo>, dir: Path, handle: Handle, l: Listed)
    ensures EffortOn(stack + Pushed(dir, handle, l)) == EffortOn(stack) + Effort(l.entry)
  {
    if l.entry.Folder? {
      assert (stack + Pushed(dir, handle, l))[..|stack|] == stack;
    } else {
      assert stack + Pushed(dir, handle, l) == stack;
    }
  }

  lemma PassIsProgress(s: ScanState, w: nat, s': ScanState, fs: Entry)
    requires Coupled(s, fs) && PassStep(s, w, s')
    ensures ScanMeasure(s', fs) < ScanMeasure(s, fs)
  {
    var x := s.pool.workers[w].task;
    var before := set y: nat | y < FileCount(fs) && y !in s.passed;
    var after := set y: nat | y < FileCount(fs) && y !in s'.passed;
    assert after == before - {x} && x in before;
  }

  lemma WalkIsProgress(s: ScanState, s': ScanState, fs: Entry)
    requires OpenStep(s, s') || VisitStep(s, s') || GiveUpStep(s, s')
    ensures ScanMeasure(s', fs) < ScanMeasure(s, fs)
  {
    if VisitStep(s, s') {
      EffortPush(s.stack, s.dir, s.handle, s.es[0]);
    }
    assert ToPass(s', fs) == ToPass(s, fs);
  }

  lemma PoolIsProgress(s: ScanState, s': ScanState, fs: Entry)
    requires Coupled(s, fs)
    requires || RegularStep(s, s') || EndStep(s, s')
             || (exists w: nat :: ReturnStep(s, w, s')) || (exists w: nat :: TakeStep(s, w, s'))
    ensures ScanMeasure(s', fs) < ScanMeasure(s, fs)
  {
    assert RealStep(s.pool, s'.pool);
    StepDecreases(s.pool, s'.pool);
    assert ToPass(s', fs) == ToPass(s, fs);
  }

  /** Every step that is not a spurious wakeup is progress, so that a scan ends. */
  lemma ScanStepDecreases(s: ScanState, s': ScanState, fs: Entry)
    requires Coupled(s, fs) && RealScanStep(s, s')
    ensures ScanMeasure(s', fs) < ScanMeasure(s, fs)
  {
    if OpenStep(s, s') || VisitStep(s, s') || GiveUpStep(s, s') {
      WalkIsProgress(s, s', fs);
    } else if w: nat :| PassStep(s, w, s') {
      PassIsProgress(s, w, s', fs);
    } else {
      PoolIsProgress(s, s', fs);
    }
  }

  lemma SpuriousScanCost(s: ScanState, s': ScanState, fs: Entry)
    requires SpuriousScanStep(s, s')
    ensures ScanMeasure(s', fs) <= ScanMeasure(s, fs) + 1
  {
    SpuriousCost(s.pool, s'.pool);
    assert ToPass(s', fs) == ToPass(s, fs);
  }

  lemma {:induction false} ScanIsBounded(ss: seq<ScanState>, spurious: seq<bool>, root: Path, fs: Entry, i: nat)
    requires ScanRun(ss, spurious, root, fs) && i <= |spurious|
    ensures i + ScanMeasure(ss[i], fs) <= ScanMeasure(ss[0], fs) + 2 * Spuriously(spurious[..i])
  {
    if i > 0 {
      ScanIsBounded(ss, spurious, root, fs, i - 1);
      ScanRunKeeps(ss, spurious, root, fs, i - 1);
      assert spurious[..i][..i - 1] == spurious[..i - 1];
      assert if spurious[i - 1] then SpuriousScanStep(ss[i - 1], ss[i]) else RealScanStep(ss[i - 1], ss[i]);
      hide ScanRun, ScanMeasure, SpuriousScanStep, RealScanStep, Coupled, InBalance;
      if spurious[i - 1] {
        SpuriousScanCost(ss[i - 1], ss[i], fs);
      } else {
        ScanStepDecreases(ss[i - 1], ss[i], fs);
      }
    }
  }

  /** A scan does not go on for ever, and it ends only with the whole tree built. */
  lemma ScanEnds(ss: seq<ScanState>, spurious: seq<bool>, root: Path, fs: Entry)
    requires ScanRun(ss, spurious, root, fs)
    ensures |spurious| <= ScanMeasure(ss[0], fs) + 2 * Spuriously(spurious)
    ensures (forall s' :: !RealScanStep(ss[|spurious|], s')) ==>
              && CallsOk(ss[|spurious|].calls) && BuildsTree(ss[|spurious|].calls, root, fs)
              && forall x :: Built(ss[|spurious|].calls, x) == Wanted(root, fs, x)
  {
    ScanIsBounded(ss, spurious, root, fs, |spurious|);
    assert spurious[..|spurious|] == spurious;
    ScanRunKeeps(ss, spurious, root, fs, |spurious|);
    hide RealScanStep, Coupled, InBalance;
    if forall s' :: !RealScanStep(ss[|spurious|], s') {
      if !ss[|spurious|].pool.stopper.Returned? {
        var s' := ScanGoesOn(ss[|spurious|], root, fs);
        assert false;
      }
      ScanBuildsTree(ss, spurious, root, fs);
    }
  }
}
