/** Walking a directory while a pool computes the checksums of its files. */
module ScanDirectory {
  import opened Basics
  import opened Paths
  import opened ScanDb

  /** What the file system holds.  A folder may refuse to be listed; hashing a
      regular file may fail; looking at an entry may fail altogether; so may
      moving on to an entry, which is then Lost, and all after it. */
  datatype Entry =
    | Folder(readable: bool, entries: seq<Listed>)
    | Regular(info: Option<FileInfo>)
    | Symlink
    | Special
    | Broken
    | Lost

  datatype Listed = Listed(name: Name, entry: Entry)

  /** What the tree that is built consists of. */
  datatype Item = DirItem(path: Path) | FileItem(path: Path, info: FileInfo)

  predicate Ended(es: seq<Listed>) {
    es == [] || es[0].entry.Lost?
  }

  /** The listing of folder e can be started, which includes reading its first entry. */
  predicate Browsable(e: Entry)
    requires e.Folder?
  {
    e.readable && (e.entries == [] || !Ended(e.entries))
  }

  /** How often item x belongs to the tree of entry e at path: the filter that
      drops links, special files, what cannot be read and files with a zero
      checksum. */
  ghost function Wanted(path: Path, e: Entry, x: Item): nat
    decreases e, 1
  {
    match e
    case Folder(readable, entries) =>
      if Browsable(e) then One(x == DirItem(path)) + WantedAll(path, entries, x) else 0
    case Regular(info) => if info.Some? && info.value.sum != 0 then One(x == FileItem(path, info.value)) else 0
    case _ => 0
  }

  ghost function WantedAll(path: Path, es: seq<Listed>, x: Item): nat
    decreases es, 0
  {
    if Ended(es) then 0 else Wanted(path + [es[0].name], es[0].entry, x) + WantedAll(path, es[1..], x)
  }

  ghost function One(b: bool): nat {
    if b then 1 else 0
  }

  // ----------------------------------------------------------- what is wanted

  /** Neither es[i] nor an entry before it is lost. */
  ghost predicate Reachable(es: seq<Listed>, i: nat) {
    i < |es| && forall j :: 0 <= j <= i ==> !es[j].entry.Lost?
  }

  /** x is what entry e at path contributes itself: a directory that can be listed
      and whose first entry, if any, can be read; a file that was hashed and has a
      checksum other than zero. */
  ghost predicate Contributes(path: Path, e: Entry, x: Item) {
    || (e.Folder? && e.readable && !(e.entries != [] && e.entries[0].entry.Lost?) && x == DirItem(path))
    || (e.Regular? && e.info.Some? && e.info.value.sum != 0 && x == FileItem(path, e.info.value))
  }

  /** From e at path, the entries with the numbers of at lead to what contributes x. */
  ghost predicate LeadsTo(path: Path, e: Entry, at: seq<nat>, x: Item)
    decreases |at|
  {
    if at == [] then Contributes(path, e, x)
    else
      && e.Folder? && e.readable && Reachable(e.entries, at[0])
      && LeadsTo(path + [e.entries[at[0]].name], e.entries[at[0]].entry, at[1..], x)
  }

  ghost predicate InTree(path: Path, e: Entry, x: Item) {
    exists at :: LeadsTo(path, e, at, x)
  }

  lemma {:induction false} EntryIsWanted(path: Path, es: seq<Listed>, i: nat, x: Item)
    requires Reachable(es, i)
    ensures Wanted(path + [es[i].name], es[i].entry, x) <= WantedAll(path, es, x)
    decreases i
  {
    assert !es[0].entry.Lost?;
    if i > 0 {
      assert Reachable(es[1..], i - 1);
      EntryIsWanted(path, es[1..], i - 1, x);
    }
  }

  /** What a folder asks for: itself and all that its entries before a lost one ask
      for; nothing if it cannot be listed or its first entry is lost. */
  lemma WantedOfFolder(path: Path, readable: bool, es: seq<Listed>, i: nat, x: Item)
    ensures readable && (es != [] ==> !es[0].entry.Lost?) ==> Wanted(path, Folder(readable, es), DirItem(path)) > 0
    ensures readable && Reachable(es, i) ==>
              Wanted(path + [es[i].name], es[i].entry, x) <= Wanted(path, Folder(readable, es), x)
    ensures !readable || (es != [] && es[0].entry.Lost?) ==> Wanted(path, Folder(readable, es), x) == 0
  {
    if Reachable(es, i) {
      EntryIsWanted(path, es, i, x);
      assert !es[0].entry.Lost?;
    }
  }

  lemma {:induction false} WantedLeads(path: Path, e: Entry, x: Item) returns (at: seq<nat>)
    requires Wanted(path, e, x) > 0
    ensures LeadsTo(path, e, at, x)
    decreases e, 1
  {
    at := [];
    if !Contributes(path, e, x) {
      var i;
      i, at := WantedAllLeads(path, e.entries, x);
      var way := [i] + at;
      assert way[1..] == at;
      at := way;
    }
  }

  lemma {:induction false} WantedAllLeads(path: Path, es: seq<Listed>, x: Item) returns (i: nat, at: seq<nat>)
    requires WantedAll(path, es, x) > 0
    ensures Reachable(es, i) && LeadsTo(path + [es[i].name], es[i].entry, at, x)
    decreases es, 0
  {
    if Wanted(path + [es[0].name], es[0].entry, x) > 0 {
      i := 0;
      at := WantedLeads(path + [es[0].name], es[0].entry, x);
    } else {
      i, at := WantedAllLeads(path, es[1..], x);
      assert es[1..][i] == es[i + 1];
      forall j | 0 <= j <= i + 1
        ensures !es[j].entry.Lost?
      {
        assert j > 0 ==> es[j] == es[1..][j - 1];
      }
      i := i + 1;
    }
  }

  lemma {:induction false} LeadsToWanted(path: Path, e: Entry, at: seq<nat>, x: Item)
    requires LeadsTo(path, e, at, x)
    ensures Wanted(path, e, x) > 0
    decreases |at|
  {
    if at != [] {
      LeadsToWanted(path + [e.entries[at[0]].name], e.entries[at[0]].entry, at[1..], x);
      EntryIsWanted(path, e.entries, at[0], x);
      assert !e.entries[0].entry.Lost?;
    }
  }

  /** The filtered tree: an item is asked for exactly if it is contributed by some
      entry that is reached through folders that can be listed and entries none of
      which, nor one before it, is lost. */
  lemma WantedExactly(path: Path, e: Entry, x: Item)
    ensures Wanted(path, e, x) > 0 <==> InTree(path, e, x)
  {
    if Wanted(path, e, x) > 0 {
      var at := WantedLeads(path, e, x);
    }
    if at :| LeadsTo(path, e, at, x) {
      LeadsToWanted(path, e, at, x);
    }
  }

  /** What was built is the filtered tree, and no part of it twice if names are
      unique. */
  ghost predicate BuildsTree(calls: seq<Call>, root: Path, fs: Entry)
    requires CallsOk(calls)
  {
    && (forall x :: Built(calls, x) > 0 <==> InTree(root, fs, x))
    && (NamesUnique(fs) ==> forall x :: Built(calls, x) <= 1)
  }

  lemma WantedBuilds(calls: seq<Call>, root: Path, fs: Entry)
    requires CallsOk(calls) && forall x :: Built(calls, x) == Wanted(root, fs, x)
    ensures BuildsTree(calls, root, fs)
  {
    forall x
      ensures Built(calls, x) > 0 <==> InTree(root, fs, x)
    {
      WantedExactly(root, fs, x);
    }
    if NamesUnique(fs) {
      forall x
        ensures Built(calls, x) <= 1
      {
        WantedOnce(root, fs, x);
      }
    }
  }

  // ------------------------------------------------------------ what was built

  ghost predicate CallsOk(calls: seq<Call>) {
    calls == [] || WellFormed(calls)
  }

  ghost function ItemOf(calls: seq<Call>, i: nat): Item
    requires WellFormed(calls) && i < |calls|
  {
    if calls[i].File? then FileItem(PathOf(calls, i), calls[i].info) else DirItem(PathOf(calls, i))
  }

  /** How often item x was built by the first i calls. */
  ghost function BuiltBy(calls: seq<Call>, i: nat, x: Item): nat
    requires WellFormed(calls) && i <= |calls|
  {
    if i == 0 then 0 else BuiltBy(calls, i - 1, x) + One(ItemOf(calls, i - 1) == x)
  }

  ghost function Built(calls: seq<Call>, x: Item): nat
    requires CallsOk(calls)
  {
    if calls == [] then 0 else BuiltBy(calls, |calls|, x)
  }

  lemma {:induction false} BuiltByExtend(calls: seq<Call>, c: Call, i: nat, x: Item)
    requires WellFormed(calls) && WellFormed(calls + [c]) && i <= |calls|
    ensures BuiltBy(calls + [c], i, x) == BuiltBy(calls, i, x)
  {
    if i > 0 {
      BuiltByExtend(calls, c, i - 1, x);
      PathOfExtend(calls, c, i - 1);
    }
  }

  lemma BuiltNext(calls: seq<Call>, c: Call)
    requires WellFormed(calls) && !c.Root? && IsDir(calls, c.parent)
    ensures WellFormed(calls + [c])
    ensures forall h :: 0 <= h < |calls| ==> PathOf(calls + [c], h) == PathOf(calls, h)
    ensures forall h: nat :: IsDir(calls, h) ==> IsDir(calls + [c], h)
    ensures forall x :: Built(calls + [c], x) == Built(calls, x)
              + One(x == if c.File? then FileItem(NewPath(calls, c), c.info) else DirItem(NewPath(calls, c)))
  {
    OneMore(calls, c);
    forall x
      ensures Built(calls + [c], x) == Built(calls, x)
                + One(x == if c.File? then FileItem(NewPath(calls, c), c.info) else DirItem(NewPath(calls, c)))
    {
      BuiltOneMore(calls, c, x);
    }
    hide WellFormed, PathOf, Built, NewPath, One;
  }

  lemma BuiltOneMore(calls: seq<Call>, c: Call, x: Item)
    requires WellFormed(calls) && !c.Root? && IsDir(calls, c.parent)
    ensures WellFormed(calls + [c])
    ensures Built(calls + [c], x) == Built(calls, x)
              + One(x == if c.File? then FileItem(NewPath(calls, c), c.info) else DirItem(NewPath(calls, c)))
  {
    OneMore(calls, c);
    assert calls != [];
    hide WellFormed, PathOf;
    BuiltByExtend(calls, c, |calls|, x);
  }

  // ---------------------------------------------------------- what is still owed

  /** A directory waiting on the stack, with the handle of its parent. */
  datatype Todo = Todo(path: Path, entry: Entry, parent: Option<Handle>)

  /** A submitted task: hash the file and pass it on. */
  datatype Job = Job(path: Path, info: Option<FileInfo>, parent: Handle)

  ghost function OwedDirs(stack: seq<Todo>, x: Item): nat {
    if stack == [] then 0
    else OwedDirs(stack[..|stack| - 1], x) + Wanted(stack[|stack| - 1].path, stack[|stack| - 1].entry, x)
  }

  ghost function OwedJobs(jobs: seq<Job>, x: Item): nat {
    if jobs == [] then 0
    else OwedJobs(jobs[..|jobs| - 1], x) + Wanted(jobs[|jobs| - 1].path, Regular(jobs[|jobs| - 1].info), x)
  }

  ghost predicate Beneath(calls: seq<Call>, path: Path, parent: Handle) {
    WellFormed(calls) && IsDir(calls, parent) && path != [] && PathOf(calls, parent) == path[..|path| - 1]
  }

  ghost predicate PlacesOk(calls: seq<Call>, stack: seq<Todo>, jobs: seq<Job>) {
    && CallsOk(calls)
    && (calls == [] ==> jobs == [])
    && (forall i :: 0 <= i < |stack| ==>
          if stack[i].parent.Some? then Beneath(calls, stack[i].path, stack[i].parent.value)
          else calls == [] && |stack| == 1)
    && (forall i :: 0 <= i < |stack| ==> stack[i].entry.Folder?)
    && (forall i :: 0 <= i < |jobs| ==> Beneath(calls, jobs[i].path, jobs[i].parent))
  }

  /** Nothing is lost and nothing is invented: what was built, what the stack and
      the jobs will build, and what the entries in hand will build is together
      what the file system asks for. */
  ghost predicate Balanced(calls: seq<Call>, stack: seq<Todo>, jobs: seq<Job>, dir: Path, es: seq<Listed>,
                           root: Path, fs: Entry) {
    && PlacesOk(calls, stack, jobs)
    && forall x :: Built(calls, x) + OwedDirs(stack, x) + OwedJobs(jobs, x) + WantedAll(dir, es, x)
                   == Wanted(root, fs, x)
  }

  lemma {:induction false} OwedJobsRemove(jobs: seq<Job>, k: nat, x: Item)
    requires k < |jobs|
    ensures OwedJobs(jobs, x) == OwedJobs(jobs[..k] + jobs[k + 1..], x) + Wanted(jobs[k].path, Regular(jobs[k].info), x)
  {
    if k == |jobs| - 1 {
      assert jobs[..k] + jobs[k + 1..] == jobs[..k];
    } else {
      var js := jobs[..|jobs| - 1];
      OwedJobsRemove(js, k, x);
      var rest := jobs[..k] + jobs[k + 1..];
      assert rest[..|rest| - 1] == js[..k] + js[k + 1..];
    }
  }

  /** Everything stays where it is when a call is added. */
  lemma PlacesStay(calls: seq<Call>, c: Call, stack: seq<Todo>, jobs: seq<Job>)
    requires PlacesOk(calls, stack, jobs) && WellFormed(calls) && !c.Root? && IsDir(calls, c.parent)
    ensures PlacesOk(calls + [c], stack, jobs)
  {
    BuiltNext(calls, c);
  }

  lemma JobDone(calls: seq<Call>, stack: seq<Todo>, jobs: seq<Job>, dir: Path, es: seq<Listed>,
                root: Path, fs: Entry, k: nat)
    requires Balanced(calls, stack, jobs, dir, es, root, fs) && k < |jobs|
    ensures WellFormed(calls) && IsDir(calls, jobs[k].parent) && jobs[k].path != []
    ensures var job, rest := jobs[k], jobs[..k] + jobs[k + 1..];
            if job.info.Some? && job.info.value.sum != 0
            then Balanced(calls + [File(job.path[|job.path| - 1], job.parent, job.info.value)], stack, rest,
                          dir, es, root, fs)
            else Balanced(calls, stack, rest, dir, es, root, fs)
  {
    var job, rest := jobs[k], jobs[..k] + jobs[k + 1..];
    forall x
      ensures OwedJobs(jobs, x) == OwedJobs(rest, x) + Wanted(job.path, Regular(job.info), x)
    {
      OwedJobsRemove(jobs, k, x);
    }
    assert PlacesOk(calls, stack, rest);
    if job.info.Some? && job.info.value.sum != 0 {
      var c := File(job.path[|job.path| - 1], job.parent, job.info.value);
      assert NewPath(calls, c) == job.path;
      BuiltNext(calls, c);
      PlacesStay(calls, c, stack, rest);
    }
  }

  /** The directory in hand stays a directory with its path. */
  ghost predicate StillThere(before: seq<Call>, after: seq<Call>) {
    WellFormed(before) ==>
      && WellFormed(after) && |before| <= |after|
      && forall h: nat :: IsDir(before, h) ==> IsDir(after, h) && PathOf(after, h) == PathOf(before, h)
  }

  lemma StillThereNext(calls: seq<Call>, c: Call)
    requires WellFormed(calls) && !c.Root? && IsDir(calls, c.parent)
    ensures StillThere(calls, calls + [c])
  {
    BuiltNext(calls, c);
  }

  lemma StillThereTransitive(a: seq<Call>, b: seq<Call>, c: seq<Call>)
    requires StillThere(a, b) && StillThere(b, c)
    ensures StillThere(a, c)
  {
  }

  /** Some job is done, at any time and in any order: it calls File unless hashing
      failed or the checksum is zero. */
  method RunJob(processor: Processor, jobs0: seq<Job>, ghost stack: seq<Todo>, ghost dir: Path,
                ghost es: seq<Listed>, ghost root: Path, ghost fs: Entry)
      returns (jobs: seq<Job>)
    requires jobs0 != [] && Balanced(processor.calls, stack, jobs0, dir, es, root, fs)
    modifies processor
    ensures Balanced(processor.calls, stack, jobs, dir, es, root, fs) && |jobs| == |jobs0| - 1
    ensures StillThere(old(processor.calls), processor.calls)
  {
    hide Balanced;
    var k :| 0 <= k < |jobs0|;
    var job := jobs0[k];
    jobs := jobs0[..k] + jobs0[k + 1..];
    JobDone(processor.calls, stack, jobs0, dir, es, root, fs, k);
    if job.info.Some? && job.info.value.sum != 0 {
      StillThereNext(processor.calls, File(job.path[|job.path| - 1], job.parent, job.info.value));
      processor.AddFile(job.path[|job.path| - 1], job.parent, job.info.value);
    }
  }

  /** The pool runs as many jobs as it likes. */
  method RunSomeJobs(processor: Processor, jobs0: seq<Job>, ghost stack: seq<Todo>, ghost dir: Path,
                     ghost es: seq<Listed>, ghost root: Path, ghost fs: Entry)
      returns (jobs: seq<Job>)
    requires Balanced(processor.calls, stack, jobs0, dir, es, root, fs)
    modifies processor
    ensures Balanced(processor.calls, stack, jobs, dir, es, root, fs)
    ensures StillThere(old(processor.calls), processor.calls)
  {
    jobs := jobs0;
    var more: bool := *;
    while jobs != [] && more
      invariant Balanced(processor.calls, stack, jobs, dir, es, root, fs)
      invariant StillThere(old(processor.calls), processor.calls)
      decreases |jobs|
    {
      hide *;
      ghost var before := processor.calls;
      jobs := RunJob(processor, jobs, stack, dir, es, root, fs);
      StillThereTransitive(old(processor.calls), before, processor.calls);
      more := *;
    }
  }

  // ------------------------------------------------------------------ the walk

  ghost predicate IsAt(calls: seq<Call>, handle: Handle, dir: Path) {
    WellFormed(calls) && IsDir(calls, handle) && PathOf(calls, handle) == dir
  }

  /** What one entry adds to the stack, and what to the pool. */
  function Pushed(dir: Path, handle: Handle, l: Listed): seq<Todo> {
    if l.entry.Folder? then [Todo(dir + [l.name], l.entry, Some(handle))] else []
  }

  function Submitted(dir: Path, handle: Handle, l: Listed): seq<Job> {
    if l.entry.Regular? then [Job(dir + [l.name], l.entry.info, handle)] else []
  }

  lemma OwedPush(stack: seq<Todo>, t: Todo, jobs: seq<Job>, j: Job, x: Item)
    ensures OwedDirs(stack + [t], x) == OwedDirs(stack, x) + Wanted(t.path, t.entry, x)
    ensures OwedJobs(jobs + [j], x) == OwedJobs(jobs, x) + Wanted(j.path, Regular(j.info), x)
  {
    assert (stack + [t])[..|stack|] == stack && (jobs + [j])[..|jobs|] == jobs;
  }

  lemma VisitKeeps(calls: seq<Call>, stack: seq<Todo>, jobs: seq<Job>, dir: Path, es: seq<Listed>,
                   root: Path, fs: Entry, handle: Handle)
    requires Balanced(calls, stack, jobs, dir, es, root, fs) && !Ended(es) && IsAt(calls, handle, dir)
    ensures Balanced(calls, stack + Pushed(dir, handle, es[0]), jobs + Submitted(dir, handle, es[0]),
                     dir, es[1..], root, fs)
  {
    var l := es[0];
    var path := dir + [l.name];
    assert Beneath(calls, path, handle);
    var stack', jobs' := stack + Pushed(dir, handle, l), jobs + Submitted(dir, handle, l);
    assert PlacesOk(calls, stack', jobs');
    forall x
      ensures OwedDirs(stack', x) + OwedJobs(jobs', x)
              == OwedDirs(stack, x) + OwedJobs(jobs, x) + Wanted(path, l.entry, x)
    {
      if l.entry.Folder? {
        OwedPush(stack, Todo(path, l.entry, Some(handle)), jobs, Job(path, None, handle), x);
        assert jobs' == jobs;
      } else if l.entry.Regular? {
        OwedPush(stack, Todo(path, l.entry, Some(handle)), jobs, Job(path, l.entry.info, handle), x);
        assert stack' == stack;
      } else {
        assert stack' == stack && jobs' == jobs;
      }
    }
  }

  /** Nothing is expected of the entries that a failing iterator does not reach. */
  lemma EndKeeps(calls: seq<Call>, stack: seq<Todo>, jobs: seq<Job>, dir: Path, es: seq<Listed>, root: Path, fs: Entry)
    requires Balanced(calls, stack, jobs, dir, es, root, fs) && Ended(es)
    ensures Balanced(calls, stack, jobs, dir, [], root, fs)
  {
    assert forall x :: WantedAll(dir, es, x) == WantedAll(dir, [], x) == 0;
  }

  /** The call for the directory on top of the stack. */
  function Opening(t: Todo): Call
    requires t.parent.Some? ==> t.path != []
  {
    if t.parent.Some? then Dir(t.path[|t.path| - 1], t.parent.value) else Root(t.path)
  }

  lemma OpenKeeps(calls: seq<Call>, stack: seq<Todo>, jobs: seq<Job>, dir: Path, root: Path, fs: Entry)
    requires Balanced(calls, stack, jobs, dir, [], root, fs) && stack != []
    ensures var t, rest := stack[|stack| - 1], stack[..|stack| - 1];
            && t.entry.Folder? && (t.parent.Some? ==> t.path != [])
            && (!Browsable(t.entry) ==> Balanced(calls, rest, jobs, t.path, [], root, fs))
            && (Browsable(t.entry) ==>
                  && Balanced(calls + [Opening(t)], rest, jobs, t.path, t.entry.entries, root, fs)
                  && IsAt(calls + [Opening(t)], |calls|, t.path))
  {
    var t, rest := stack[|stack| - 1], stack[..|stack| - 1];
    if t.parent.None? {
      assert calls == [] && rest == [];
      assert WellFormed([Root(t.path)]);
    } else {
      var c := Opening(t);
      assert NewPath(calls, c) == t.path;
      BuiltNext(calls, c);
      assert PlacesOk(calls, rest, jobs);
      PlacesStay(calls, c, rest, jobs);
    }
    if Browsable(t.entry) {
      OpenedBuilds(calls, t);
    }
  }

  lemma OpenedBuilds(calls: seq<Call>, t: Todo)
    requires t.parent.Some? ==> Beneath(calls, t.path, t.parent.value)
    requires t.parent.None? ==> calls == []
    ensures WellFormed(calls + [Opening(t)]) && CallsOk(calls)
    ensures forall x :: Built(calls + [Opening(t)], x) == Built(calls, x) + One(x == DirItem(t.path))
  {
    if t.parent.None? {
      var cs := [Root(t.path)];
      assert calls + [Opening(t)] == cs && WellFormed(cs) && ItemOf(cs, 0) == DirItem(t.path);
      forall x
        ensures Built(cs, x) == One(x == DirItem(t.path))
      {
        assert BuiltBy(cs, 1, x) == BuiltBy(cs, 0, x) + One(ItemOf(cs, 0) == x);
      }
    } else {
      BuiltNext(calls, Opening(t));
      assert NewPath(calls, Opening(t)) == t.path;
    }
  }

  /** Lists one directory; meanwhile the pool is at work. */
  method ListDir(processor: Processor, t: Todo, stack0: seq<Todo>, jobs0: seq<Job>, handle: Handle,
                 ghost root: Path, ghost fs: Entry)
      returns (stack: seq<Todo>, jobs: seq<Job>)
    requires t.entry.Folder? && Balanced(processor.calls, stack0, jobs0, t.path, t.entry.entries, root, fs)
    requires IsAt(processor.calls, handle, t.path)
    modifies processor
    ensures Balanced(processor.calls, stack, jobs, t.path, [], root, fs)
    ensures StackSize(stack) <= StackSize(stack0) + SizeAll(t.entry.entries)
  {
    stack, jobs := stack0, jobs0;
    var es := t.entry.entries;
    while !Ended(es)
      invariant Balanced(processor.calls, stack, jobs, t.path, es, root, fs) && IsAt(processor.calls, handle, t.path)
      invariant StackSize(stack) + SizeAll(es) <= StackSize(stack0) + SizeAll(t.entry.entries)
      decreases |es|
    {
      hide Balanced;
      ghost var before := processor.calls;
      jobs := RunSomeJobs(processor, jobs, stack, t.path, es, root, fs);
      assert StillThere(before, processor.calls);
      VisitKeeps(processor.calls, stack, jobs, t.path, es, root, fs, handle);
      SizePush(stack, t.path, handle, es[0]);
      stack := stack + Pushed(t.path, handle, es[0]);
      jobs := jobs + Submitted(t.path, handle, es[0]);
      es := es[1..];
    }
    EndKeeps(processor.calls, stack, jobs, t.path, es, root, fs);
  }

  ghost function Size(e: Entry): nat
    decreases e, 1
  {
    if e.Folder? then 1 + SizeAll(e.entries) else 0
  }

  ghost function SizeAll(es: seq<Listed>): nat
    decreases es, 0
  {
    if es == [] then 0 else Size(es[0].entry) + SizeAll(es[1..])
  }

  ghost function StackSize(stack: seq<Todo>): nat {
    if stack == [] then 0 else StackSize(stack[..|stack| - 1]) + Size(stack[|stack| - 1].entry)
  }

  lemma SizePush(stack: seq<Todo>, dir: Path, handle: Handle, l: Listed)
    ensures StackSize(stack + Pushed(dir, handle, l)) <= StackSize(stack) + Size(l.entry)
  {
    if l.entry.Folder? {
      assert (stack + Pushed(dir, handle, l))[..|stack|] == stack;
    } else {
      assert stack + Pushed(dir, handle, l) == stack;
    }
  }

  lemma OwedSingle(t: Todo, x: Item)
    ensures OwedDirs([t], x) == Wanted(t.path, t.entry, x)
  {
    assert [t][..0] == [];
  }

  lemma WalkStarts(root: Path, fs: Entry)
    requires fs.Folder?
    ensures Balanced([], [Todo(root, fs, None)], [], root, [], root, fs)
  {
    hide OwedDirs, Wanted;
    forall x {
      OwedSingle(Todo(root, fs, None), x);
    }
  }

  /** The walk from root.  Whatever the pool does when, the tree that is built is
      the filtered one, and all of it is built in the end. */
  method Walk(root: Path, fs: Entry, processor: Processor)
    requires fs.Folder? && processor.calls == []
    modifies processor
    ensures CallsOk(processor.calls) && BuildsTree(processor.calls, root, fs)
    ensures forall x :: Built(processor.calls, x) == Wanted(root, fs, x)
  {
    hide BuildsTree;
    var dirsToProcess := [Todo(root, fs, None)];
    var jobs: seq<Job> := [];
    ghost var dir := root;
    WalkStarts(root, fs);
    while dirsToProcess != []
      invariant Balanced(processor.calls, dirsToProcess, jobs, dir, [], root, fs)
      decreases StackSize(dirsToProcess)
    {
      hide Balanced;
      var t := dirsToProcess[|dirsToProcess| - 1];
      OpenKeeps(processor.calls, dirsToProcess, jobs, dir, root, fs);
      dirsToProcess := dirsToProcess[..|dirsToProcess| - 1];
      dir := t.path;
      if Browsable(t.entry) {
        var handle;
        if t.parent.Some? {
          handle := processor.AddDir(t.path[|t.path| - 1], t.parent.value);
        } else {
          handle := processor.RootDir(t.path);
        }
        dirsToProcess, jobs := ListDir(processor, t, dirsToProcess, jobs, handle, root, fs);
      }
      jobs := RunSomeJobs(processor, jobs, dirsToProcess, dir, [], root, fs);
    }
    // The pool is stopped: what is left is done, in any order.
    while jobs != []
      invariant Balanced(processor.calls, [], jobs, dir, [], root, fs)
      decreases |jobs|
    {
      jobs := RunJob(processor, jobs, [], dir, [], root, fs);
    }
    WantedBuilds(processor.calls, root, fs);
  }

  // ------------------------------------------------------- everything just once

  /** No directory holds two entries of the same name. */
  ghost predicate NamesUnique(e: Entry)
    decreases e, 1
  {
    e.Folder? ==> NamesUniqueIn(e.entries)
  }

  ghost predicate NamesUniqueIn(es: seq<Listed>)
    decreases es, 0
  {
    es != [] ==>
      && NamesUnique(es[0].entry) && NamesUniqueIn(es[1..])
      && forall i :: 0 < i < |es| ==> es[i].name != es[0].name
  }

  lemma {:induction false} WantedBelow(path: Path, e: Entry, x: Item)
    requires Wanted(path, e, x) > 0
    ensures IsPrefix(path, x.path) && (x.path == path || e.Folder?)
    decreases e, 1
  {
    if e.Folder? && WantedAll(path, e.entries, x) > 0 {
      var i := WantedAmong(path, e.entries, x);
    }
  }

  lemma {:induction false} WantedAmong(path: Path, es: seq<Listed>, x: Item) returns (i: nat)
    requires WantedAll(path, es, x) > 0
    ensures i < |es| && IsPrefix(path + [es[i].name], x.path)
    decreases es, 0
  {
    if Wanted(path + [es[0].name], es[0].entry, x) > 0 {
      WantedBelow(path + [es[0].name], es[0].entry, x);
      i := 0;
    } else {
      var j := WantedAmong(path, es[1..], x);
      i := j + 1;
    }
  }

  /** With unique names, every directory and every file is built at most once. */
  lemma {:induction false} WantedOnce(path: Path, e: Entry, x: Item)
    requires NamesUnique(e)
    ensures Wanted(path, e, x) <= 1
    decreases e, 1
  {
    if e.Folder? {
      WantedOnceIn(path, e.entries, x);
      if x == DirItem(path) && WantedAll(path, e.entries, x) > 0 {
        var i := WantedAmong(path, e.entries, x);
      }
    }
  }

  lemma NameAfter(path: Path, name: Name, p: Path)
    requires IsPrefix(path + [name], p)
    ensures |path| < |p| && p[|path|] == name
  {
    assert (path + [name])[|path|] == name;
  }

  lemma {:induction false} WantedOnceIn(path: Path, es: seq<Listed>, x: Item)
    requires NamesUniqueIn(es)
    ensures WantedAll(path, es, x) <= 1
    decreases es, 0
  {
    if es != [] {
      WantedOnce(path + [es[0].name], es[0].entry, x);
      WantedOnceIn(path, es[1..], x);
      if Wanted(path + [es[0].name], es[0].entry, x) > 0 && WantedAll(path, es[1..], x) > 0 {
        WantedBelow(path + [es[0].name], es[0].entry, x);
        var i := WantedAmong(path, es[1..], x);
        NameAfter(path, es[0].name, x.path);
        NameAfter(path, es[1..][i].name, x.path);
        assert false;
      }
    }
  }
}
