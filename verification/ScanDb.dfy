/** Turning a flat table of files into calls that build a directory tree. */
module ScanDb {
  import opened Basics
  import opened Paths

  type Handle = nat

  /** The calls a processor receives.  A directory's handle is the number of the
      call that created it. */
  datatype Call =
    | Root(path: Path)
    | Dir(name: Name, parent: Handle)
    | File(name: Name, parent: Handle, info: FileInfo)

  class Processor {
    var calls: seq<Call>

    constructor ()
      ensures calls == []
    {
      calls := [];
    }

    method RootDir(path: Path) returns (handle: Handle)
      modifies this
      ensures handle == |old(calls)| && calls == old(calls) + [Root(path)]
    {
      handle := |calls|;
      calls := calls + [Root(path)];
    }

    method AddDir(name: Name, parent: Handle) returns (handle: Handle)
      modifies this
      ensures handle == |old(calls)| && calls == old(calls) + [Dir(name, parent)]
    {
      handle := |calls|;
      calls := calls + [Dir(name, parent)];
    }

    method AddFile(name: Name, parent: Handle, info: FileInfo)
      modifies this
      ensures calls == old(calls) + [File(name, parent, info)]
    {
      calls := calls + [File(name, parent, info)];
    }
  }

  // ------------------------------------------------------- what the calls mean

  ghost predicate IsDir(calls: seq<Call>, h: Handle) {
    h < |calls| && !calls[h].File?
  }

  /** The first call creates the root, every other one refers to a directory
      that was created before. */
  ghost predicate WellFormed(calls: seq<Call>) {
    && calls != [] && calls[0].Root?
    && forall i :: 0 < i < |calls| ==> !calls[i].Root? && calls[i].parent < i && IsDir(calls, calls[i].parent)
  }

  /** The path of the directory with handle h, joined from the root down. */
  ghost function PathOf(calls: seq<Call>, h: Handle): Path
    requires WellFormed(calls) && h < |calls|
    decreases h
  {
    if calls[h].Root? then calls[h].path else PathOf(calls, calls[h].parent) + [calls[h].name]
  }

  lemma {:induction false} PathOfExtend(calls: seq<Call>, c: Call, h: Handle)
    requires WellFormed(calls) && WellFormed(calls + [c]) && h < |calls|
    ensures PathOf(calls + [c], h) == PathOf(calls, h)
    decreases h
  {
    if !calls[h].Root? {
      PathOfExtend(calls, c, calls[h].parent);
    }
  }

  ghost function Parent(p: Path): Path
    requires p != []
  {
    p[..|p| - 1]
  }

  /** root is the greatest common prefix of the parents of ps. */
  ghost predicate IsMeet(root: Path, ps: set<Path>) {
    forall q: Path :: IsPrefix(q, root) <==> UnderAll(q, ps)
  }

  ghost predicate UnderAll(q: Path, ps: set<Path>) {
    forall p :: p in ps ==> p != [] && IsPrefix(q, Parent(p))
  }

  /** The directories under the root path that lead to the files of done. */
  ghost predicate Needed(root: Path, done: set<Path>, q: Path) {
    IsPrefix(root, q) && exists p :: p in done && p != [] && IsPrefix(q, Parent(p))
  }

  /** The memo of directories holds exactly the directories created so far. */
  ghost predicate IsMemo(calls: seq<Call>, created: map<Path, Handle>) {
    && WellFormed(calls)
    && (forall q :: q in created ==> IsDir(calls, created[q]) && PathOf(calls, created[q]) == q)
    && (forall h :: IsDir(calls, h) ==> PathOf(calls, h) in created && created[PathOf(calls, h)] == h)
    && calls[0].path in created
  }

  /** Every file of done, and no other, was passed on once, under its path. */
  ghost predicate FilesAre(calls: seq<Call>, db: map<Path, FileInfo>, done: set<Path>) {
    && WellFormed(calls)
    && (forall i :: 0 <= i < |calls| && calls[i].File? ==>
          PathOf(calls, i) in done && PathOf(calls, i) in db && calls[i].info == db[PathOf(calls, i)])
    && (forall i, j :: 0 <= i < j < |calls| && calls[i].File? && calls[j].File? ==>
          PathOf(calls, i) != PathOf(calls, j))
    && (forall p :: p in done ==> exists i :: IsFileOf(calls, i, p))
  }

  /** The outcome: a well-formed tree in which every directory occurs once and is
      needed for some file, every needed directory occurs, and the files are
      exactly those of the table. */
  ghost predicate Rebuilds(calls: seq<Call>, db: map<Path, FileInfo>) {
    && FilesAre(calls, db, db.Keys)
    && (forall g, h :: IsDir(calls, g) && IsDir(calls, h) && PathOf(calls, g) == PathOf(calls, h) ==> g == h)
    && (forall h :: IsDir(calls, h) ==> Needed(calls[0].path, db.Keys, PathOf(calls, h)))
    && (forall q :: Needed(calls[0].path, db.Keys, q) ==> exists h :: IsDir(calls, h) && PathOf(calls, h) == q)
    && IsMeet(calls[0].path, db.Keys)
  }

  // ----------------------------------------------------- what one call changes

  lemma OneMore(calls: seq<Call>, c: Call)
    requires WellFormed(calls) && !c.Root? && c.parent < |calls| && IsDir(calls, c.parent)
    ensures WellFormed(calls + [c])
    ensures forall h :: 0 <= h < |calls| ==> PathOf(calls + [c], h) == PathOf(calls, h)
    ensures PathOf(calls + [c], |calls|) == PathOf(calls, c.parent) + [c.name]
  {
    var calls' := calls + [c];
    forall i | 0 < i < |calls'|
      ensures !calls'[i].Root? && calls'[i].parent < i && IsDir(calls', calls'[i].parent)
    {
      assert i < |calls| ==> IsDir(calls, calls[i].parent);
    }
    forall h | 0 <= h < |calls|
      ensures PathOf(calls', h) == PathOf(calls, h)
    {
      PathOfExtend(calls, c, h);
    }
  }

  ghost function NewPath(calls: seq<Call>, c: Call): Path
    requires WellFormed(calls) && !c.Root? && c.parent < |calls|
  {
    PathOf(calls, c.parent) + [c.name]
  }

  lemma MemoAfterDir(calls: seq<Call>, created: map<Path, Handle>, c: Call)
    requires IsMemo(calls, created)
    requires c.Dir? && IsDir(calls, c.parent) && NewPath(calls, c) !in created
    ensures IsMemo(calls + [c], created[NewPath(calls, c) := |calls|])
  {
    OneMore(calls, c);
    var calls' := calls + [c];
    forall h: nat | IsDir(calls', h) && h < |calls|
      ensures PathOf(calls', h) in created && created[PathOf(calls', h)] == h
    {
      assert IsDir(calls, h);
    }
  }

  lemma MemoAfterFile(calls: seq<Call>, created: map<Path, Handle>, c: Call)
    requires IsMemo(calls, created) && c.File? && IsDir(calls, c.parent)
    ensures IsMemo(calls + [c], created)
  {
    OneMore(calls, c);
    var calls' := calls + [c];
    forall h: nat | IsDir(calls', h)
      ensures PathOf(calls', h) in created && created[PathOf(calls', h)] == h
    {
      assert IsDir(calls, h);
    }
  }

  ghost predicate IsFileOf(calls: seq<Call>, i: nat, p: Path)
    requires WellFormed(calls)
  {
    i < |calls| && calls[i].File? && PathOf(calls, i) == p
  }

  lemma FilesAfterDir(calls: seq<Call>, db: map<Path, FileInfo>, done: set<Path>, c: Call)
    requires FilesAre(calls, db, done) && c.Dir? && IsDir(calls, c.parent)
    ensures FilesAre(calls + [c], db, done)
  {
    OneMore(calls, c);
    forall p | p in done
      ensures exists i :: IsFileOf(calls + [c], i, p)
    {
      var i :| IsFileOf(calls, i, p);
      assert IsFileOf(calls + [c], i, p);
    }
  }

  lemma FilesAfterFile(calls: seq<Call>, db: map<Path, FileInfo>, done: set<Path>, c: Call)
    requires FilesAre(calls, db, done) && c.File? && IsDir(calls, c.parent)
    requires NewPath(calls, c) in db && NewPath(calls, c) !in done && c.info == db[NewPath(calls, c)]
    ensures FilesAre(calls + [c], db, done + {NewPath(calls, c)})
  {
    OneMore(calls, c);
    assert IsFileOf(calls + [c], |calls|, NewPath(calls, c));
    forall p | p in done
      ensures exists i :: IsFileOf(calls + [c], i, p)
    {
      var i :| IsFileOf(calls, i, p);
      assert IsFileOf(calls + [c], i, p);
    }
  }

  // ---------------------------------------------------------------- the scan

  /** The directories created are those needed for done, and some on the way to dir. */
  ghost predicate DirsAre(created: map<Path, Handle>, root: Path, done: set<Path>, dir: Path) {
    && (forall q :: Needed(root, done, q) ==> q in created)
    && (forall q :: q in created ==> Needed(root, done, q) || (IsPrefix(root, q) && IsPrefix(q, dir)))
  }

  /** The files of done are passed on. */
  ghost predicate Partial(calls: seq<Call>, created: map<Path, Handle>, db: map<Path, FileInfo>, done: set<Path>,
                          root: Path) {
    && IsMemo(calls, created) && FilesAre(calls, db, done) && calls[0].path == root
    && DirsAre(created, root, done, root)
  }

  /** In addition, the first k components of dir are created. */
  ghost predicate OnTheWay(calls: seq<Call>, created: map<Path, Handle>, db: map<Path, FileInfo>, done: set<Path>,
                           root: Path, dir: Path, k: nat) {
    && IsMemo(calls, created) && FilesAre(calls, db, done) && calls[0].path == root
    && IsPrefix(root, dir) && |root| <= k <= |dir| && DirsAre(created, root, done, dir)
    && forall j :: |root| <= j <= k ==> dir[..j] in created
  }

  lemma WayStarts(calls: seq<Call>, created: map<Path, Handle>, db: map<Path, FileInfo>, done: set<Path>,
                  root: Path, dir: Path)
    requires Partial(calls, created, db, done, root) && IsPrefix(root, dir)
    ensures OnTheWay(calls, created, db, done, root, dir, |root|)
    ensures root in created && dir[..|root|] == root
  {
    assert dir[..|root|] == root;
  }

  lemma WayContinues(calls: seq<Call>, created: map<Path, Handle>, db: map<Path, FileInfo>, done: set<Path>,
                     root: Path, dir: Path, k: nat)
    requires OnTheWay(calls, created, db, done, root, dir, k) && k < |dir|
    ensures dir[..k] in created && dir[..k + 1] == dir[..k] + [dir[k]]
    ensures dir[..k + 1] in created ==> OnTheWay(calls, created, db, done, root, dir, k + 1)
    ensures dir[..k + 1] !in created ==>
              OnTheWay(calls + [Dir(dir[k], created[dir[..k]])], created[dir[..k + 1] := |calls|],
                       db, done, root, dir, k + 1)
  {
    hide *;
    WayParts(calls, created, db, done, root, dir, k);
    if dir[..k + 1] !in created {
      var c := Dir(dir[k], created[dir[..k]]);
      MemoAfterDir(calls, created, c);
      FilesAfterDir(calls, db, done, c);
      IsOnTheWay(calls + [c], created[dir[..k + 1] := |calls|], db, done, root, dir, k + 1);
    } else {
      IsOnTheWay(calls, created, db, done, root, dir, k + 1);
    }
  }

  lemma WayParts(calls: seq<Call>, created: map<Path, Handle>, db: map<Path, FileInfo>, done: set<Path>,
                 root: Path, dir: Path, k: nat)
    requires OnTheWay(calls, created, db, done, root, dir, k) && k < |dir|
    ensures IsMemo(calls, created) && FilesAre(calls, db, done)
    ensures calls != [] && calls[0].Root? && calls[0].path == root
    ensures WellFormed(calls) && IsPrefix(root, dir) && |root| <= k
    ensures dir[..k] in created && dir[..k + 1] == dir[..k] + [dir[k]]
    ensures created[dir[..k]] < |calls| && IsDir(calls, created[dir[..k]])
    ensures NewPath(calls, Dir(dir[k], created[dir[..k]])) == dir[..k + 1]
    ensures forall j :: |root| <= j <= k ==> dir[..j] in created
    ensures DirsAre(created, root, done, dir) && DirsAre(created[dir[..k + 1] := |calls|], root, done, dir)
  {
    assert IsPrefix(root, dir[..k + 1]) && IsPrefix(dir[..k + 1], dir);
  }

  lemma IsOnTheWay(calls: seq<Call>, created: map<Path, Handle>, db: map<Path, FileInfo>, done: set<Path>,
                   root: Path, dir: Path, k: nat)
    requires IsMemo(calls, created) && FilesAre(calls, db, done) && calls[0].path == root
    requires IsPrefix(root, dir) && |root| <= k <= |dir| && DirsAre(created, root, done, dir)
    requires forall j :: |root| <= j <= k ==> dir[..j] in created
    ensures OnTheWay(calls, created, db, done, root, dir, k)
  {
  }

  /** Walks from the root down to dir, creating what is missing. */
  method MakeDirs(processor: Processor, created0: map<Path, Handle>, root: Path, dir: Path,
                  ghost db: map<Path, FileInfo>, ghost done: set<Path>)
      returns (created: map<Path, Handle>, handle: Handle)
    requires Partial(processor.calls, created0, db, done, root) && IsPrefix(root, dir)
    modifies processor
    ensures OnTheWay(processor.calls, created, db, done, root, dir, |dir|)
    ensures dir in created && handle == created[dir]
  {
    WayStarts(processor.calls, created0, db, done, root, dir);
    assert |root| <= |dir|;
    hide Partial, OnTheWay;
    created := created0;
    var parent := root;
    handle := created[root];
    for k := |root| to |dir|
      invariant OnTheWay(processor.calls, created, db, done, root, dir, k)
      invariant parent == dir[..k] && parent in created && handle == created[parent]
    {
      var toInsert := parent + [dir[k]];
      WayContinues(processor.calls, created, db, done, root, dir, k);
      if toInsert !in created {
        var h := processor.AddDir(dir[k], handle);
        created := created[toInsert := h];
      }
      parent := toInsert;
      handle := created[parent];
    }
    assert dir[..|dir|] == dir;
  }

  lemma FileStep(calls: seq<Call>, created: map<Path, Handle>, db: map<Path, FileInfo>, done: set<Path>,
                 root: Path, p: Path)
    requires p != [] && p in db && p !in done && Parent(p) in created
    requires OnTheWay(calls, created, db, done, root, Parent(p), |Parent(p)|)
    ensures Partial(calls + [File(p[|p| - 1], created[Parent(p)], db[p])], created, db, done + {p}, root)
  {
    hide *;
    FileParts(calls, created, db, done, root, p);
    NeededNext(created, root, done, p);
    var c := File(p[|p| - 1], created[Parent(p)], db[p]);
    MemoAfterFile(calls, created, c);
    FilesAfterFile(calls, db, done, c);
    IsPartial(calls + [c], created, db, done + {p}, root);
  }

  lemma FileParts(calls: seq<Call>, created: map<Path, Handle>, db: map<Path, FileInfo>, done: set<Path>,
                  root: Path, p: Path)
    requires p != [] && p in db && Parent(p) in created
    requires OnTheWay(calls, created, db, done, root, Parent(p), |Parent(p)|)
    ensures IsMemo(calls, created) && FilesAre(calls, db, done)
    ensures calls != [] && calls[0].Root? && calls[0].path == root
    ensures WellFormed(calls) && created[Parent(p)] < |calls| && IsDir(calls, created[Parent(p)])
    ensures NewPath(calls, File(p[|p| - 1], created[Parent(p)], db[p])) == p
    ensures IsPrefix(root, Parent(p)) && DirsAre(created, root, done, Parent(p))
    ensures forall j :: |root| <= j <= |Parent(p)| ==> Parent(p)[..j] in created
  {
    hide DirsAre, FilesAre;
    assert NewPath(calls, File(p[|p| - 1], created[Parent(p)], db[p])) == p;
  }

  lemma IsPartial(calls: seq<Call>, created: map<Path, Handle>, db: map<Path, FileInfo>, done: set<Path>, root: Path)
    requires IsMemo(calls, created) && FilesAre(calls, db, done) && calls[0].path == root
    requires DirsAre(created, root, done, root)
    ensures Partial(calls, created, db, done, root)
  {
  }

  lemma NeededNext(created: map<Path, Handle>, root: Path, done: set<Path>, p: Path)
    requires p != [] && IsPrefix(root, Parent(p)) && DirsAre(created, root, done, Parent(p))
    requires forall j :: |root| <= j <= |Parent(p)| ==> Parent(p)[..j] in created
    ensures DirsAre(created, root, done + {p}, root)
  {
    forall q | Needed(root, done + {p}, q)
      ensures q in created
    {
      var f :| f in done + {p} && f != [] && IsPrefix(q, Parent(f));
      if f == p {
        assert q == Parent(p)[..|q|];
      } else {
        assert Needed(root, done, q);
      }
    }
    forall q | q in created
      ensures Needed(root, done + {p}, q) || (IsPrefix(root, q) && IsPrefix(q, root))
    {
      if Needed(root, done, q) {
        var f :| f in done && f != [] && IsPrefix(q, Parent(f));
        assert f in done + {p};
      } else {
        assert p in done + {p};
      }
    }
  }

  /** The greatest common prefix of all parent directories. */
  method CommonRoot(db: map<Path, FileInfo>) returns (root: Path)
    requires db != map[] && forall p :: p in db ==> p != []
    ensures IsMeet(root, db.Keys)
  {
    var first :| first in db;
    root := first[..|first| - 1];
    var rest := db.Keys;
    while rest != {}
      invariant rest <= db.Keys
      invariant IsMeet(root, {first} + (db.Keys - rest))
    {
      var p :| p in rest;
      ghost var before, ps := root, {first} + (db.Keys - rest);
      root := CommonPathPrefix(root, p[..|p| - 1]);
      rest := rest - {p};
      assert {first} + (db.Keys - rest) == ps + {p};
      MeetNext(before, ps, p, root);
    }
    assert {first} + (db.Keys - rest) == db.Keys;
  }

  lemma MeetNext(before: Path, ps: set<Path>, p: Path, root: Path)
    requires IsMeet(before, ps) && p != []
    requires forall q: Path :: IsPrefix(q, root) <==> IsPrefix(q, before) && IsPrefix(q, Parent(p))
    ensures IsMeet(root, ps + {p})
  {
    forall q: Path
      ensures IsPrefix(q, root) <==> UnderAll(q, ps + {p})
    {
      assert UnderAll(q, ps + {p}) <==> UnderAll(q, ps) && IsPrefix(q, Parent(p));
    }
  }

  /** Passes on one file, after the directories that lead to it. */
  method ScanFile(processor: Processor, created0: map<Path, Handle>, root: Path, p: Path,
                  db: map<Path, FileInfo>, ghost done: set<Path>)
      returns (created: map<Path, Handle>)
    requires p in db && p !in done && IsMeet(root, db.Keys)
    requires Partial(processor.calls, created0, db, done, root)
    modifies processor
    ensures Partial(processor.calls, created, db, done + {p}, root)
  {
    hide Partial, OnTheWay;
    MeetBelow(root, db.Keys, p);
    var handle;
    created, handle := MakeDirs(processor, created0, root, p[..|p| - 1], db, done);
    FileStep(processor.calls, created, db, done, root, p);
    processor.AddFile(p[|p| - 1], handle, db[p]);
  }

  /** Passes on all files, in any order. */
  method ScanFiles(processor: Processor, created0: map<Path, Handle>, root: Path, db: map<Path, FileInfo>)
      returns (created: map<Path, Handle>)
    requires IsMeet(root, db.Keys) && Partial(processor.calls, created0, db, {}, root)
    modifies processor
    ensures Partial(processor.calls, created, db, db.Keys, root)
  {
    hide *;
    created := created0;
    var rest := db.Keys;
    ghost var done: set<Path> := {};
    while rest != {}
      invariant rest !! done && rest + done == db.Keys
      invariant Partial(processor.calls, created, db, done, root)
    {
      var p :| p in rest;
      created := ScanFile(processor, created, root, p, db, done);
      rest, done := rest - {p}, done + {p};
    }
    assert done == db.Keys;
  }

  /** Rebuilds the tree of the table, which may be visited in any order. */
  method Scan(db: map<Path, FileInfo>, processor: Processor)
    requires forall p :: p in db ==> p != []
    requires processor.calls == []
    modifies processor
    ensures if db == map[] then processor.calls == [] else Rebuilds(processor.calls, db)
    ensures db != map[] ==> HasTheDirs(processor.calls, db)
    ensures db != map[] ==> forall p: Path :: p in db ==> exists i: nat :: IsFileOf(processor.calls, i, p)
    ensures db != map[] ==> forall i: nat, p: Path :: IsFileOf(processor.calls, i, p) ==>
                              p in db && processor.calls[i].info == db[p]
  {
    hide *;
    if db == map[] {
      return;
    }
    var root := CommonRoot(db);
    var handle := processor.RootDir(root);
    ScanStarts(root, db);
    assert processor.calls == [Root(root)] && handle == 0;
    var created := ScanFiles(processor, map[root := handle], root, db);
    ScanComplete(processor.calls, created, root, db);
    FilesAreTheTable(processor.calls, db);
    DirsOfTable(processor.calls, db);
  }

  lemma ScanStarts(root: Path, db: map<Path, FileInfo>)
    ensures Partial([Root(root)], map[root := 0], db, {}, root)
  {
    assert PathOf([Root(root)], 0) == root && IsPrefix(root, root);
  }

  lemma MeetBelow(root: Path, ps: set<Path>, p: Path)
    requires IsMeet(root, ps) && p in ps
    ensures p != [] && IsPrefix(root, Parent(p))
  {
    assert IsPrefix(root, root);
    assert UnderAll(root, ps);
  }

  lemma ScanComplete(calls: seq<Call>, created: map<Path, Handle>, root: Path, db: map<Path, FileInfo>)
    requires db != map[] && (forall p :: p in db ==> p != []) && IsMeet(root, db.Keys)
    requires Partial(calls, created, db, db.Keys, root)
    ensures Rebuilds(calls, db)
  {
    var p :| p in db.Keys;
    assert IsPrefix(root, root) && IsPrefix(root, Parent(p));
    assert Needed(root, db.Keys, root);
    forall h | IsDir(calls, h)
      ensures Needed(root, db.Keys, PathOf(calls, h))
    {
      assert PathOf(calls, h) in created;
    }
    forall q | Needed(root, db.Keys, q)
      ensures exists h :: IsDir(calls, h) && PathOf(calls, h) == q
    {
      assert IsDir(calls, created[q]);
    }
  }

  /** The table can be read back from the calls. */
  lemma FilesAreTheTable(calls: seq<Call>, db: map<Path, FileInfo>)
    requires Rebuilds(calls, db)
    ensures WellFormed(calls) && forall p: Path :: p in db ==> exists i: nat :: IsFileOf(calls, i, p)
    ensures forall i: nat, p: Path :: IsFileOf(calls, i, p) ==> p in db && calls[i].info == db[p]
  {
    assert forall p :: p in db <==> p in db.Keys;
  }

  ghost predicate HasDir(calls: seq<Call>, q: Path) {
    WellFormed(calls) && exists h :: IsDir(calls, h) && PathOf(calls, h) == q
  }

  /** q is a directory above the file p. */
  ghost predicate IsAbove(q: Path, p: Path) {
    |q| < |p| && p[..|q|] == q
  }

  ghost predicate AboveAll(q: Path, db: map<Path, FileInfo>) {
    forall p :: p in db ==> IsAbove(q, p)
  }

  ghost predicate AboveSome(q: Path, db: map<Path, FileInfo>) {
    exists p :: p in db && IsAbove(q, p)
  }

  /** The outcome in terms of the table's paths alone: the root is the lowest
      directory above all files, and a directory was created exactly if it lies at
      or below the root and above some file. */
  ghost predicate HasTheDirs(calls: seq<Call>, db: map<Path, FileInfo>) {
    && calls != [] && calls[0].Root?
    && (forall q: Path :: AboveAll(q, db) <==> IsPrefix(q, calls[0].path))
    && (forall q: Path :: HasDir(calls, q) <==> IsPrefix(calls[0].path, q) && AboveSome(q, db))
  }

  lemma AboveIsPrefix(q: Path, p: Path)
    requires p != []
    ensures IsAbove(q, p) <==> IsPrefix(q, Parent(p))
  {
    if IsAbove(q, p) {
      assert Parent(p)[..|q|] == q;
    }
  }

  lemma RootIsAbove(root: Path, db: map<Path, FileInfo>, q: Path)
    requires IsMeet(root, db.Keys)
    ensures AboveAll(q, db) <==> IsPrefix(q, root)
    ensures Needed(root, db.Keys, q) <==> IsPrefix(root, q) && AboveSome(q, db)
  {
    assert IsPrefix(root, root) && UnderAll(root, db.Keys);
    assert IsPrefix(q, root) <==> UnderAll(q, db.Keys);
    forall p | p in db
      ensures p in db.Keys && p != [] && (IsAbove(q, p) <==> IsPrefix(q, Parent(p)))
    {
      AboveIsPrefix(q, p);
    }
    hide IsAbove, IsPrefix;
  }

  lemma DirIsNeeded(calls: seq<Call>, db: map<Path, FileInfo>, q: Path)
    requires Rebuilds(calls, db)
    ensures HasDir(calls, q) <==> Needed(calls[0].path, db.Keys, q)
  {
  }

  lemma DirsOfTable(calls: seq<Call>, db: map<Path, FileInfo>)
    requires Rebuilds(calls, db)
    ensures HasTheDirs(calls, db)
  {
    var root := calls[0].path;
    assert IsMeet(root, db.Keys);
    hide IsMeet, Rebuilds, IsPrefix, Needed, AboveAll, AboveSome, HasDir;
    forall q: Path
      ensures AboveAll(q, db) <==> IsPrefix(q, root)
      ensures HasDir(calls, q) <==> IsPrefix(root, q) && AboveSome(q, db)
    {
      RootIsAbove(root, db, q);
      DirIsNeeded(calls, db, q);
    }
  }

  /** Whatever the order in which the table was visited, the same root and the
      same directories come out. */
  lemma OrderDoesNotMatter(calls1: seq<Call>, calls2: seq<Call>, db: map<Path, FileInfo>, q: Path)
    requires Rebuilds(calls1, db) && Rebuilds(calls2, db)
    ensures calls1[0] == calls2[0]
    ensures HasDir(calls1, q) <==> HasDir(calls2, q)
  {
    var r1, r2 := calls1[0].path, calls2[0].path;
    assert IsPrefix(r1, r1) && IsPrefix(r2, r2);
    assert UnderAll(r1, db.Keys) && UnderAll(r2, db.Keys);
    assert IsPrefix(r1, r2) && IsPrefix(r2, r1);
    assert HasDir(calls1, q) <==> Needed(r1, db.Keys, q);
    assert HasDir(calls2, q) <==> Needed(r2, db.Keys, q);
  }
}
