/** Two checksum caches, by path and by inode, used by any number of threads at
    once.  Every critical section is one step. */
module HashCache {
  import opened Basics

  type Inode = nat
  type Bytes = seq<bv8>

  datatype Stat = Stat(id: Inode, size: nat, mtime: int)

  /** A file system that does not change: the paths that can be opened, and the
      bytes of every inode.  Several paths may share an inode. */
  datatype World = World(stat: map<FilePath, Stat>, content: map<Inode, Bytes>, sha: Bytes -> Cksum)
  {
    ghost predicate Valid() {
      forall p :: p in stat ==> stat[p].id in content
    }
  }

  /** The checksum of a file's bytes; zero for an empty file. */
  ghost function TrueSum(w: World, id: Inode): Cksum
    requires id in w.content
  {
    if w.content[id] == [] then 0 else w.sha(w.content[id])
  }

  /** What hashing without any cache returns; opening may fail. */
  ghost function Uncached(w: World, p: FilePath): Option<FileInfo>
    requires w.Valid()
  {
    if p in w.stat then Some(FileInfo(w.stat[p].size, w.stat[p].mtime, TrueSum(w, w.stat[p].id))) else None
  }

  /** A hash function that is fed piece by piece: feeding two pieces is feeding
      both at once, and sha is the hash of all that was fed. */
  ghost predicate Streams<Context(!new)>(sha: Bytes -> Cksum, init: Context, update: (Context, Bytes) -> Context,
                                         final: Context -> Cksum) {
    && (forall c, a, b :: update(update(c, a), b) == update(c, a + b))
    && forall a {:trigger sha(a)} :: a != [] ==> final(update(init, a)) == sha(a)
  }

  /** Reads a file in pieces of whatever size and hashes them on the way; the
      read that reaches failsAt bytes fails, and so does the whole. */
  method HashBytes<Context(!new)>(content: Bytes, failsAt: Option<nat>, ghost sha: Bytes -> Cksum,
                                  init: Context, update: (Context, Bytes) -> Context, final: Context -> Cksum)
      returns (sum: Option<Cksum>)
    requires Streams(sha, init, update, final)
    ensures sum == if failsAt.Some? && failsAt.value <= |content| then None
                   else Some(if content == [] then 0 else sha(content))
  {
    var context, rest, size := init, content, 0;
    ghost var hashed: Bytes := [];
    while true
      invariant hashed + rest == content && size == |hashed|
      invariant context == if hashed == [] then init else update(init, hashed)
      invariant failsAt.Some? ==> size <= failsAt.value
      decreases |rest|
    {
      if failsAt == Some(size) {
        return None;
      }
      if rest == [] {
        break;
      }
      var res :| 0 < res <= |rest| && (failsAt.Some? ==> size + res <= failsAt.value);
      var piece := rest[..res];
      assert hashed == [] ==> hashed + piece == piece;
      assert hashed + piece + rest[res..] == content;
      context := update(context, piece);
      hashed := hashed + piece;
      rest := rest[res..];
      size := size + res;
    }
    assert hashed == content;
    sum := Some(if size != 0 then final(context) else 0);
  }

  /** Where a call is: about to look up the path; about to look up the inode;
      reading the file, which may fail; about to store the checksum for the inode; about to store
      it for the path; finished. */
  datatype Query =
    | Asked(path: FilePath)
    | Missed(path: FilePath)
    | Reading(path: FilePath)
    | Hashed(path: FilePath, sum: Cksum)
    | Known(path: FilePath, sum: Cksum)
    | Answered(path: FilePath, result: Option<FileInfo>)
    | Failed(path: FilePath)

  datatype Caches = Caches(byPath: map<FilePath, FileInfo>, byInode: map<Inode, Cksum>, calls: seq<Query>)

  ghost predicate Matches(i: FileInfo, s: Stat) {
    i.size == s.size && i.mtime == s.mtime
  }

  ghost predicate LookupStep(w: World, s: Caches, t: nat, s': Caches)
    requires t < |s.calls| && s.calls[t].Asked?
  {
    var p := s.calls[t].path;
    s' == s.(calls := s.calls[t :=
      if p !in w.stat then Answered(p, None)
      else if p in s.byPath && Matches(s.byPath[p], w.stat[p]) then Answered(p, Some(s.byPath[p]))
      else Missed(p)])
  }

  ghost predicate InodeLookupStep(w: World, s: Caches, t: nat, s': Caches)
    requires t < |s.calls| && s.calls[t].Missed? && s.calls[t].path in w.stat
  {
    var p := s.calls[t].path;
    var id := w.stat[p].id;
    s' == s.(calls := s.calls[t := if id in s.byInode then Known(p, s.byInode[id]) else Reading(p)])
  }

  ghost predicate ReadStep(w: World, s: Caches, t: nat, s': Caches)
    requires w.Valid() && t < |s.calls| && s.calls[t].Reading? && s.calls[t].path in w.stat
  {
    var p := s.calls[t].path;
    s' == s.(calls := s.calls[t := Hashed(p, TrueSum(w, w.stat[p].id))])
  }

  /** Reading fails: the exception leaves both caches as they are. */
  ghost predicate ReadFailsStep(s: Caches, t: nat, s': Caches)
    requires t < |s.calls| && s.calls[t].Reading?
  {
    s' == s.(calls := s.calls[t := Failed(s.calls[t].path)])
  }

  /** An inode that is already there keeps its checksum. */
  ghost predicate InodeStoreStep(w: World, s: Caches, t: nat, s': Caches)
    requires t < |s.calls| && s.calls[t].Hashed? && s.calls[t].path in w.stat
  {
    var p, sum := s.calls[t].path, s.calls[t].sum;
    var id := w.stat[p].id;
    s' == s.(calls := s.calls[t := Known(p, sum)],
             byInode := if id in s.byInode then s.byInode else s.byInode[id := sum])
  }

  ghost predicate PathStoreStep(w: World, s: Caches, t: nat, s': Caches)
    requires t < |s.calls| && s.calls[t].Known? && s.calls[t].path in w.stat
  {
    var p := s.calls[t].path;
    var info := FileInfo(w.stat[p].size, w.stat[p].mtime, s.calls[t].sum);
    s' == s.(calls := s.calls[t := Answered(p, Some(info))], byPath := s.byPath[p := info])
  }

  ghost predicate CacheStep(w: World, s: Caches, s': Caches)
    requires w.Valid()
  {
    exists t: nat :: StepOf(w, s, t, s')
  }

  ghost predicate StepOf(w: World, s: Caches, t: nat, s': Caches)
    requires w.Valid()
  {
    && t < |s.calls|
    && (s.calls[t].Asked? || s.calls[t].path in w.stat)
    && match s.calls[t]
       case Asked(_) => LookupStep(w, s, t, s')
       case Missed(_) => InodeLookupStep(w, s, t, s')
       case Reading(_) => ReadStep(w, s, t, s') || ReadFailsStep(s, t, s')
       case Hashed(_, _) => InodeStoreStep(w, s, t, s')
       case Known(_, _) => PathStoreStep(w, s, t, s')
       case Answered(_, _) => false
       case Failed(_) => false
  }

  /** An entry whose size and modification time are those of the file has the
      file's checksum; others are never used. */
  ghost predicate Trustworthy(w: World, byPath: map<FilePath, FileInfo>)
    requires w.Valid()
  {
    forall p :: p in byPath && p in w.stat && Matches(byPath[p], w.stat[p]) ==> Some(byPath[p]) == Uncached(w, p)
  }

  ghost predicate CallOk(w: World, c: Query)
    requires w.Valid()
  {
    match c
    case Asked(_) => true
    case Missed(p) => p in w.stat
    case Reading(p) => p in w.stat
    case Hashed(p, sum) => p in w.stat && sum == TrueSum(w, w.stat[p].id)
    case Known(p, sum) => p in w.stat && sum == TrueSum(w, w.stat[p].id)
    case Answered(p, result) => result == Uncached(w, p)
    case Failed(p) => p in w.stat
  }

  ghost predicate InodesOk(w: World, byInode: map<Inode, Cksum>) {
    forall id :: id in byInode ==> id in w.content && byInode[id] == TrueSum(w, id)
  }

  ghost predicate CachesOk(w: World, s: Caches)
    requires w.Valid()
  {
    && Trustworthy(w, s.byPath)
    && InodesOk(w, s.byInode)
    && (forall t :: 0 <= t < |s.calls| ==> CallOk(w, s.calls[t]))
  }

  lemma StepKeepsCaches(w: World, s: Caches, t: nat, s': Caches)
    requires w.Valid() && CachesOk(w, s) && StepOf(w, s, t, s')
    ensures Trustworthy(w, s'.byPath) && InodesOk(w, s'.byInode)
  {
    assert CallOk(w, s.calls[t]);
  }

  lemma StepKeepsCalls(w: World, s: Caches, t: nat, s': Caches)
    requires w.Valid() && CachesOk(w, s) && StepOf(w, s, t, s')
    ensures |s'.calls| == |s.calls| && s'.calls == s.calls[t := s'.calls[t]] && CallOk(w, s'.calls[t])
  {
    assert CallOk(w, s.calls[t]);
  }

  lemma CacheStepKeeps(w: World, s: Caches, s': Caches)
    requires w.Valid() && CachesOk(w, s) && CacheStep(w, s, s')
    ensures CachesOk(w, s')
  {
    var t: nat :| StepOf(w, s, t, s');
    StepKeepsCaches(w, s, t, s');
    StepKeepsCalls(w, s, t, s');
    hide StepOf, CallOk;
  }

  ghost predicate CacheRun(w: World, ss: seq<Caches>)
    requires w.Valid()
  {
    && ss != []
    && ss[0].byInode == map[] && (forall t :: 0 <= t < |ss[0].calls| ==> ss[0].calls[t].Asked?)
    && forall i {:trigger Next(w, ss, i)} :: 0 <= i < |ss| - 1 ==> Next(w, ss, i)
  }

  ghost predicate Next(w: World, ss: seq<Caches>, i: nat)
    requires w.Valid() && i + 1 < |ss|
  {
    CacheStep(w, ss[i], ss[i + 1])
  }

  /** What is cached stays cached: the answer of every call that returned one, and
      the checksum of every inode a call knows. */
  ghost predicate Stored(w: World, s: Caches) {
    forall t :: 0 <= t < |s.calls| ==> IsStored(w, s, s.calls[t])
  }

  ghost predicate IsStored(w: World, s: Caches, c: Query) {
    match c
    case Answered(p, result) => result.Some? ==> p in s.byPath && s.byPath[p] == result.value
    case Known(p, sum) => p in w.stat && w.stat[p].id in s.byInode && s.byInode[w.stat[p].id] == sum
    case _ => true
  }

  lemma StaysStored(w: World, s: Caches, t: nat, s': Caches, c: Query)
    requires w.Valid() && CachesOk(w, s) && StepOf(w, s, t, s') && CallOk(w, c) && IsStored(w, s, c)
    ensures IsStored(w, s', c)
  {
    assert CallOk(w, s.calls[t]);
  }

  lemma StepIsStored(w: World, s: Caches, t: nat, s': Caches)
    requires w.Valid() && CachesOk(w, s) && Stored(w, s) && StepOf(w, s, t, s')
    ensures |s'.calls| == |s.calls| && IsStored(w, s', s'.calls[t])
  {
    assert CallOk(w, s.calls[t]) && IsStored(w, s, s.calls[t]);
  }

  lemma CacheStepStores(w: World, s: Caches, s': Caches)
    requires w.Valid() && CachesOk(w, s) && Stored(w, s) && CacheStep(w, s, s')
    ensures Stored(w, s')
  {
    var t: nat :| StepOf(w, s, t, s');
    StepKeepsCalls(w, s, t, s');
    StepIsStored(w, s, t, s');
    hide StepOf, CallOk, IsStored;
    forall u | 0 <= u < |s'.calls|
      ensures IsStored(w, s', s'.calls[u])
    {
      if u != t {
        StaysStored(w, s, t, s', s.calls[u]);
      }
    }
  }

  /** sum is the checksum of the bytes at path p, zero if there are none. */
  ghost predicate IsSumAt(w: World, p: FilePath, sum: Cksum)
    requires w.Valid() && p in w.stat
  {
    var bytes := w.content[w.stat[p].id];
    if bytes == [] then sum == 0 else sum == w.sha(bytes)
  }

  /** Entries with the size and the modification time of the file have its checksum. */
  ghost predicate FreshAreRight(w: World, byPath: map<FilePath, FileInfo>)
    requires w.Valid()
  {
    forall p :: p in byPath && p in w.stat && byPath[p].size == w.stat[p].size && byPath[p].mtime == w.stat[p].mtime ==>
      IsSumAt(w, p, byPath[p].sum)
  }

  lemma TrustworthyExactly(w: World, byPath: map<FilePath, FileInfo>)
    requires w.Valid()
    ensures Trustworthy(w, byPath) <==> FreshAreRight(w, byPath)
  {
    if FreshAreRight(w, byPath) {
      forall p | p in byPath && p in w.stat && Matches(byPath[p], w.stat[p])
        ensures Some(byPath[p]) == Uncached(w, p)
      {
        assert IsSumAt(w, p, byPath[p].sum);
      }
    }
  }

  /** The answer for path p: none if it cannot be opened, else its size, its
      modification time and its checksum. */
  ghost predicate IsRightAnswer(w: World, p: FilePath, result: Option<FileInfo>)
    requires w.Valid()
  {
    && (result.Some? <==> p in w.stat)
    && (result.Some? ==>
          && result.value.size == w.stat[p].size && result.value.mtime == w.stat[p].mtime
          && IsSumAt(w, p, result.value.sum))
  }

  /** The caches are transparent: started from entries that can be trusted, every
      call returns what hashing without a cache would, under any interleaving of
      lookups, computations and insertions; the entries that are left can be
      trusted by the next run, and every answer is among them. */
  lemma {:induction false} CachesAreTransparent(w: World, ss: seq<Caches>, i: nat)
    requires w.Valid() && CacheRun(w, ss) && FreshAreRight(w, ss[0].byPath) && i < |ss|
    ensures CachesOk(w, ss[i]) && Stored(w, ss[i])
    ensures forall t :: 0 <= t < |ss[i].calls| && ss[i].calls[t].Answered? ==>
              IsRightAnswer(w, ss[i].calls[t].path, ss[i].calls[t].result)
    ensures FreshAreRight(w, ss[i].byPath)
  {
    TrustworthyExactly(w, ss[0].byPath);
    if i > 0 {
      CachesAreTransparent(w, ss, i - 1);
      assert Next(w, ss, i - 1);
      CacheStepKeeps(w, ss[i - 1], ss[i]);
      CacheStepStores(w, ss[i - 1], ss[i]);
    }
    TrustworthyExactly(w, ss[i].byPath);
    assert forall t :: 0 <= t < |ss[i].calls| ==> CallOk(w, ss[i].calls[t]);
  }

  /** The caches are used: once a call for a path has been answered, another one
      gets the same answer from its first lookup; and while a call knows the
      checksum of an inode, no other one for that inode has to read it. */
  lemma CachesAreUsed(w: World, s: Caches, t: nat, u: nat, s': Caches)
    requires w.Valid() && CachesOk(w, s) && Stored(w, s) && StepOf(w, s, u, s') && t < |s.calls|
    ensures s.calls[t].Answered? && s.calls[u] == Asked(s.calls[t].path) ==>
              s'.calls[u] == s.calls[t]
    ensures s.calls[t].Known? && s.calls[u].Missed? && s.calls[t].path in w.stat
            && w.stat[s.calls[t].path].id == w.stat[s.calls[u].path].id ==>
              s'.calls[u] == Known(s.calls[u].path, s.calls[t].sum)
  {
    assert CallOk(w, s.calls[t]) && IsStored(w, s, s.calls[t]);
    assert CallOk(w, s.calls[u]);
  }
}
