/** Comparing two directories by their paths and checksums. */
module DirCompare {
  import opened Basics
  import opened DiffReport

  /** A table of files with an index by path and an index by checksum. */
  class PathHashes {
    var byPath: Listing
    var byHash: map<Cksum, seq<FilePath>>

    /** Both indices hold the same files. */
    ghost predicate Valid()
      reads this
    {
      && (forall p :: p in byPath ==> byPath[p] in byHash)
      && forall h :: h in byHash ==> byHash[h] != [] && AreTheHolders(byHash[h], byPath, h)
    }

    constructor ()
      ensures Valid() && byPath == map[]
    {
      byPath, byHash := map[], map[];
    }

    /** The index by path is unique: a path that is already there is left alone. */
    method Insert(path: FilePath, hash: Cksum)
      requires Valid()
      modifies this
      ensures Valid()
      ensures byPath == if path in old(byPath) then old(byPath) else old(byPath)[path := hash]
    {
      if path !in byPath {
        ghost var m, index := byPath, byHash;
        byPath := byPath[path := hash];
        byHash := byHash[hash := (if hash in byHash then byHash[hash] else []) + [path]];
        forall h | h in byHash
          ensures byHash[h] != [] && AreTheHolders(byHash[h], byPath, h)
        {
          if h in index {
            assert AreTheHolders(index[h], m, h);
            assert forall p :: HasHash(byPath, p, h) <==> HasHash(m, p, h) || (p == path && h == hash);
            assert !HasHash(m, path, h) && path !in index[h];
            assert forall i :: 0 <= i < |index[h]| ==> index[h][i] in index[h];
          } else {
            assert forall p :: HasHash(byPath, p, h) <==> p == path;
          }
        }
      }
    }

    method GetPathsForHash(hash: Cksum) returns (res: seq<FilePath>)
      requires Valid()
      ensures AreTheHolders(res, byPath, hash)
      ensures res == [] <==> !SomeHas(byPath, hash)
    {
      res := [];
      if hash in byHash {
        var range := byHash[hash];
        for i := 0 to |range|
          invariant res == range[..i]
        {
          res := res + [range[i]];
        }
        assert res == range;
        assert range[0] in range && HasHash(byPath, range[0], hash);
      } else {
        assert forall p :: p in byPath ==> byPath[p] != hash;
      }
    }
  }

  /** Where the events go. */
  class CompareOutputStream {
    var events: seq<Event>

    constructor ()
      ensures events == []
    {
      events := [];
    }

    method Emit(e: Event)
      modifies this
      ensures events == old(events) + [e]
    {
      events := events + [e];
    }
  }

  /** The paths of done, all of which one of the loops has seen, are reported. */
  ghost predicate ReportOf(m1: Listing, m2: Listing, skipRenames: bool, done: set<FilePath>, es: seq<Event>) {
    && (forall i :: 0 <= i < |es| ==> IsEventFor(m1, m2, skipRenames, es[i]) && es[i].f in done)
    && (forall i, j :: 0 <= i < j < |es| ==> es[i].f != es[j].f)
    && (forall p :: p in done && !Silent(m1, m2, skipRenames, p) ==> IsAbout(es, p))
  }

  lemma ReportStart(m1: Listing, m2: Listing, skipRenames: bool)
    ensures ReportOf(m1, m2, skipRenames, {}, [])
  {
  }

  lemma ReportOne(m1: Listing, m2: Listing, skipRenames: bool, done: set<FilePath>, es: seq<Event>, e: Event)
    requires ReportOf(m1, m2, skipRenames, done, es) && e.f !in done && IsEventFor(m1, m2, skipRenames, e)
    ensures ReportOf(m1, m2, skipRenames, done + {e.f}, es + [e])
  {
    var ds := es + [e];
    assert ds[|es|] == e;
    forall p | p in done && !Silent(m1, m2, skipRenames, p)
      ensures IsAbout(ds, p)
    {
      var i :| 0 <= i < |es| && es[i].f == p;
      assert ds[i].f == p;
    }
  }

  lemma ReportNone(m1: Listing, m2: Listing, skipRenames: bool, done: set<FilePath>, es: seq<Event>, p: FilePath)
    requires ReportOf(m1, m2, skipRenames, done, es) && Silent(m1, m2, skipRenames, p)
    ensures ReportOf(m1, m2, skipRenames, done + {p}, es)
  {
  }

  /** Every path gets either its event or none. */
  lemma EventMeansNotSilent(m1: Listing, m2: Listing, skipRenames: bool, e: Event)
    requires IsEventFor(m1, m2, skipRenames, e)
    ensures !Silent(m1, m2, skipRenames, e.f)
  {
    if e.CopiedFrom? {
      assert IsKeptSource(m1, m2, e.f, e.candidates[0]);
    }
  }

  lemma ReportComplete(m1: Listing, m2: Listing, skipRenames: bool, es: seq<Event>)
    requires ReportOf(m1, m2, skipRenames, m1.Keys + m2.Keys, es)
    ensures IsReport(m1, m2, skipRenames, es)
  {
    forall p | p in m1 || p in m2
      ensures IsAbout(es, p) <==> !Silent(m1, m2, skipRenames, p)
    {
      if i :| 0 <= i < |es| && es[i].f == p {
        EventMeansNotSilent(m1, m2, skipRenames, es[i]);
      }
    }
  }

  /** The event for a path of the first directory. */
  method CompareOld(hashes1: PathHashes, hashes2: PathHashes, skipRenames: bool, p1: FilePath)
      returns (e: Option<Event>)
    requires hashes1.Valid() && hashes2.Valid() && p1 in hashes1.byPath
    ensures e.Some? ==> e.value.f == p1 && IsEventFor(hashes1.byPath, hashes2.byPath, skipRenames, e.value)
    ensures e.None? ==> Silent(hashes1.byPath, hashes2.byPath, skipRenames, p1)
    ensures if e.Some? then Says(hashes1.byPath, hashes2.byPath, skipRenames, e.value)
            else !DeservesEvent(hashes1.byPath, hashes2.byPath, skipRenames, p1)
  {
    hide Says, DeservesEvent;
    e := None;
    var h1 := hashes1.byPath[p1];
    if p1 in hashes2.byPath {
      var h2 := hashes2.byPath[p1];
      if h1 != h2 {
        var ps := hashes1.GetPathsForHash(h2);
        if ps != [] {
          e := Some(OverwrittenBy(p1, ps));
        } else {
          e := Some(ContentChanged(p1));
        }
      }
    } else {
      var ps := hashes2.GetPathsForHash(h1);
      if ps != [] {
        if !skipRenames {
          e := Some(RenameTo(p1, ps));
        }
      } else {
        e := Some(Removed(p1));
      }
    }
    if e.Some? {
      EventSays(hashes1.byPath, hashes2.byPath, skipRenames, e.value);
    } else {
      SilentExactly(hashes1.byPath, hashes2.byPath, skipRenames, p1);
    }
  }

  /** The event for a path that only the second directory has. */
  method CompareNew(hashes1: PathHashes, hashes2: PathHashes, skipRenames: bool, p2: FilePath)
      returns (e: Option<Event>)
    requires hashes1.Valid() && hashes2.Valid() && p2 in hashes2.byPath && p2 !in hashes1.byPath
    ensures e.Some? ==> e.value.f == p2 && IsEventFor(hashes1.byPath, hashes2.byPath, skipRenames, e.value)
    ensures e.None? ==> Silent(hashes1.byPath, hashes2.byPath, skipRenames, p2)
    ensures if e.Some? then Says(hashes1.byPath, hashes2.byPath, skipRenames, e.value)
            else !DeservesEvent(hashes1.byPath, hashes2.byPath, skipRenames, p2)
  {
    hide Says, DeservesEvent;
    e := None;
    var h2 := hashes2.byPath[p2];
    var ps := hashes1.GetPathsForHash(h2);
    if ps != [] {
      var ps2: seq<FilePath> := [];
      for i := 0 to |ps|
        invariant forall c :: c in ps2 <==> c in ps[..i] && c in hashes2.byPath
        invariant Distinct(ps2)
      {
        if ps[i] in hashes2.byPath {
          assert ps[i] !in ps[..i];
          assert forall j :: 0 <= j < |ps2| ==> ps2[j] in ps2;
          ps2 := ps2 + [ps[i]];
        }
      }
      assert ps[..|ps|] == ps;
      assert forall c :: c in ps2 <==> IsKeptSource(hashes1.byPath, hashes2.byPath, p2, c);
      assert forall c :: IsKeptSource(hashes1.byPath, hashes2.byPath, p2, c) ==> c in ps2;
      if ps2 != [] {
        e := Some(CopiedFrom(p2, ps2));
      }
    } else {
      e := Some(NewFile(p2));
    }
    if e.Some? {
      EventSays(hashes1.byPath, hashes2.byPath, skipRenames, e.value);
    } else {
      SilentExactly(hashes1.byPath, hashes2.byPath, skipRenames, p2);
    }
  }

  /** The loop over the paths of the first directory. */
  method CompareAllOld(hashes1: PathHashes, hashes2: PathHashes, skipRenames: bool, stream: CompareOutputStream)
      returns (ghost es: seq<Event>)
    requires hashes1.Valid() && hashes2.Valid()
    modifies stream
    ensures stream.events == old(stream.events) + es
    ensures ReportOf(hashes1.byPath, hashes2.byPath, skipRenames, hashes1.byPath.Keys, es)
  {
    ghost var m1, m2 := hashes1.byPath, hashes2.byPath;
    es := [];
    var rest := hashes1.byPath.Keys;
    ReportStart(m1, m2, skipRenames);
    assert m1.Keys - rest == {};
    hide ReportOf, IsEventFor, Silent;
    while rest != {}
      invariant rest <= m1.Keys
      invariant stream.events == old(stream.events) + es
      invariant ReportOf(m1, m2, skipRenames, m1.Keys - rest, es)
    {
      var p1 :| p1 in rest;
      var e := CompareOld(hashes1, hashes2, skipRenames, p1);
      assert m1.Keys - rest + {p1} == m1.Keys - (rest - {p1});
      if e.Some? {
        stream.Emit(e.value);
        ReportOne(m1, m2, skipRenames, m1.Keys - rest, es, e.value);
        es := es + [e.value];
      } else {
        ReportNone(m1, m2, skipRenames, m1.Keys - rest, es, p1);
      }
      rest := rest - {p1};
    }
    assert m1.Keys - rest == m1.Keys;
  }

  /** The comparison.  The paths are visited in no particular order. */
  method Compare(hashes1: PathHashes, hashes2: PathHashes, skipRenames: bool, stream: CompareOutputStream)
      returns (ghost es: seq<Event>)
    requires hashes1.Valid() && hashes2.Valid()
    modifies stream
    ensures stream.events == old(stream.events) + es
    ensures IsReport(hashes1.byPath, hashes2.byPath, skipRenames, es)
    ensures forall i :: 0 <= i < |es| ==> Says(hashes1.byPath, hashes2.byPath, skipRenames, es[i])
    ensures forall p :: (exists i :: 0 <= i < |es| && es[i].f == p)
                   <==> DeservesEvent(hashes1.byPath, hashes2.byPath, skipRenames, p)
  {
    hide ReportOf, IsEventFor, Silent, IsReport, Says, DeservesEvent;
    ghost var m1, m2 := hashes1.byPath, hashes2.byPath;
    es := CompareAllOld(hashes1, hashes2, skipRenames, stream);
    var rest := hashes2.byPath.Keys;
    ghost var done := m1.Keys;
    while rest != {}
      invariant rest <= m2.Keys && done == m1.Keys + (m2.Keys - rest)
      invariant stream.events == old(stream.events) + es
      invariant ReportOf(m1, m2, skipRenames, done, es)
    {
      var p2 :| p2 in rest;
      rest := rest - {p2};
      if p2 in hashes1.byPath {
        continue;
      }
      var e := CompareNew(hashes1, hashes2, skipRenames, p2);
      if e.Some? {
        stream.Emit(e.value);
        ReportOne(m1, m2, skipRenames, done, es, e.value);
        es := es + [e.value];
      } else {
        ReportNone(m1, m2, skipRenames, done, es, p2);
      }
      done := done + {p2};
    }
    assert done == m1.Keys + m2.Keys;
    ReportComplete(m1, m2, skipRenames, es);
    ReportSays(m1, m2, skipRenames, es);
  }
}
