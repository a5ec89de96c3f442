/** What the comparison of two directories reports, and what the report means.
    A directory is a map from paths to checksums. */
module DiffReport {
  import opened Basics

  type Listing = map<FilePath, Cksum>

  datatype Event =
    | OverwrittenBy(f: FilePath, candidates: seq<FilePath>)
    | CopiedFrom(f: FilePath, candidates: seq<FilePath>)
    | RenameTo(f: FilePath, candidates: seq<FilePath>)
    | ContentChanged(f: FilePath)
    | Removed(f: FilePath)
    | NewFile(f: FilePath)

  ghost predicate HasHash(m: Listing, p: FilePath, h: Cksum) {
    p in m && m[p] == h
  }

  ghost predicate SomeHas(m: Listing, h: Cksum) {
    exists p :: HasHash(m, p, h)
  }

  /** The paths of m with checksum h, in any order, each once. */
  ghost predicate AreTheHolders(ps: seq<FilePath>, m: Listing, h: Cksum) {
    (forall p :: p in ps <==> HasHash(m, p, h)) && Distinct(ps)
  }

  ghost predicate Distinct(ps: seq<FilePath>) {
    forall i, j :: 0 <= i < j < |ps| ==> ps[i] != ps[j]
  }

  /** A source for the new path p that is still there in the second directory. */
  ghost predicate IsKeptSource(m1: Listing, m2: Listing, p: FilePath, c: FilePath)
    requires p in m2
  {
    HasHash(m1, c, m2[p]) && c in m2
  }

  /** e is the event the comparison emits for the path it is about. */
  ghost predicate IsEventFor(m1: Listing, m2: Listing, skipRenames: bool, e: Event) {
    match e
    case OverwrittenBy(f, cs) => f in m1 && f in m2 && m1[f] != m2[f] && cs != [] && AreTheHolders(cs, m1, m2[f])
    case ContentChanged(f) => f in m1 && f in m2 && m1[f] != m2[f] && !SomeHas(m1, m2[f])
    case RenameTo(f, cs) => f in m1 && f !in m2 && !skipRenames && cs != [] && AreTheHolders(cs, m2, m1[f])
    case Removed(f) => f in m1 && f !in m2 && !SomeHas(m2, m1[f])
    case CopiedFrom(f, cs) => f !in m1 && f in m2 && cs != [] && Distinct(cs)
                           && forall c :: c in cs <==> IsKeptSource(m1, m2, f, c)
    case NewFile(f) => f !in m1 && f in m2 && !SomeHas(m1, m2[f])
  }

  /** No event is emitted for path p: it did not change, or it is new and all
      files it may come from are gone, or it was renamed and renames are skipped. */
  ghost predicate Silent(m1: Listing, m2: Listing, skipRenames: bool, p: FilePath) {
    || (p in m1 && p in m2 && m1[p] == m2[p])
    || (p !in m1 && p in m2 && SomeHas(m1, m2[p]) && forall c :: !IsKeptSource(m1, m2, p, c))
    || (p in m1 && p !in m2 && SomeHas(m2, m1[p]) && skipRenames)
  }

  ghost predicate IsAbout(es: seq<Event>, p: FilePath) {
    exists i :: 0 <= i < |es| && es[i].f == p
  }

  /** The report: for every path that is not silent exactly one event, the right one. */
  ghost predicate IsReport(m1: Listing, m2: Listing, skipRenames: bool, es: seq<Event>) {
    && (forall i :: 0 <= i < |es| ==> IsEventFor(m1, m2, skipRenames, es[i]))
    && (forall i, j :: 0 <= i < j < |es| ==> es[i].f != es[j].f)
    && (forall p :: p in m1 || p in m2 ==> (IsAbout(es, p) <==> !Silent(m1, m2, skipRenames, p)))
  }

  // ------------------------------------------------- which event for which path

  /** cs are the paths of m with checksum h, each once. */
  ghost predicate ListsAll(cs: seq<FilePath>, m: Listing, h: Cksum) {
    && (forall i, j :: 0 <= i < j < |cs| ==> cs[i] != cs[j])
    && forall c :: c in cs <==> c in m && m[c] == h
  }

  /** What the kind of event e says about its path, and which candidates it names. */
  ghost predicate Says(m1: Listing, m2: Listing, skipRenames: bool, e: Event) {
    if e.f !in m1 then
      && e.f in m2
      && (e.NewFile? <==> m2[e.f] !in m1.Values)
      && (!e.NewFile? ==>
            && e.CopiedFrom? && e.candidates != []
            && (forall i, j :: 0 <= i < j < |e.candidates| ==> e.candidates[i] != e.candidates[j])
            && forall c :: c in e.candidates <==> c in m1 && m1[c] == m2[e.f] && c in m2)
    else if e.f !in m2 then
      && (e.Removed? <==> m1[e.f] !in m2.Values)
      && (!e.Removed? ==> e.RenameTo? && !skipRenames && ListsAll(e.candidates, m2, m1[e.f]))
    else
      && m1[e.f] != m2[e.f]
      && (e.ContentChanged? <==> m2[e.f] !in m1.Values)
      && (!e.ContentChanged? ==> e.OverwrittenBy? && ListsAll(e.candidates, m1, m2[e.f]))
  }

  /** Path p has an event: it changed, it is gone (with its content, if renames
      are skipped), or it is new and, unless its content is new as well, some file
      with that content is still there. */
  ghost predicate DeservesEvent(m1: Listing, m2: Listing, skipRenames: bool, p: FilePath) {
    || (p in m1 && p in m2 && m1[p] != m2[p])
    || (p in m1 && p !in m2 && (skipRenames ==> m1[p] !in m2.Values))
    || (p !in m1 && p in m2 && (m2[p] in m1.Values ==> exists c :: c in m1 && m1[c] == m2[p] && c in m2))
  }

  lemma HasValue(m: Listing, h: Cksum)
    ensures SomeHas(m, h) <==> h in m.Values
  {
    if p :| HasHash(m, p, h) {
      assert m[p] in m.Values;
    }
    if h in m.Values {
      var p :| p in m && m[p] == h;
      assert HasHash(m, p, h);
    }
  }

  lemma EventSays(m1: Listing, m2: Listing, skipRenames: bool, e: Event)
    requires IsEventFor(m1, m2, skipRenames, e)
    ensures Says(m1, m2, skipRenames, e)
  {
    if e.f in m1 {
      HasValue(m2, m1[e.f]);
    }
    if e.f in m2 {
      HasValue(m1, m2[e.f]);
    }
    if !e.ContentChanged? && !e.NewFile? && !e.Removed? {
      var c := e.candidates[0];
      assert c in e.candidates;
      assert e.CopiedFrom? ==> IsKeptSource(m1, m2, e.f, c);
      assert e.RenameTo? || HasHash(m1, c, m2[e.f]);
      assert e.RenameTo? ==> HasHash(m2, c, m1[e.f]);
    }
    assert e.CopiedFrom? ==> forall c :: c in e.candidates <==> IsKeptSource(m1, m2, e.f, c);
  }

  lemma SilentExactly(m1: Listing, m2: Listing, skipRenames: bool, p: FilePath)
    requires p in m1 || p in m2
    ensures Silent(m1, m2, skipRenames, p) <==> !DeservesEvent(m1, m2, skipRenames, p)
  {
    if p in m1 {
      HasValue(m2, m1[p]);
    }
    if p in m2 {
      HasValue(m1, m2[p]);
      assert forall c :: IsKeptSource(m1, m2, p, c) <==> c in m1 && m1[c] == m2[p] && c in m2;
    }
  }

  /** What a report says, in terms of the two directories alone: which paths have
      an event, that they have just one, of which kind it is and whom it names. */
  lemma ReportSays(m1: Listing, m2: Listing, skipRenames: bool, es: seq<Event>)
    requires IsReport(m1, m2, skipRenames, es)
    ensures forall i :: 0 <= i < |es| ==> Says(m1, m2, skipRenames, es[i])
    ensures forall i, j :: 0 <= i < j < |es| ==> es[i].f != es[j].f
    ensures forall p :: (exists i :: 0 <= i < |es| && es[i].f == p) <==> DeservesEvent(m1, m2, skipRenames, p)
  {
    forall i | 0 <= i < |es|
      ensures Says(m1, m2, skipRenames, es[i]) && (es[i].f in m1 || es[i].f in m2)
    {
      EventSays(m1, m2, skipRenames, es[i]);
    }
    hide Says;
    forall p
      ensures IsAbout(es, p) <==> DeservesEvent(m1, m2, skipRenames, p)
    {
      if p in m1 || p in m2 {
        SilentExactly(m1, m2, skipRenames, p);
      }
    }
  }

  // ------------------------------------------------------------------ replay

  /** What is known of a file after some events: its checksum, or only that its
      content was not seen in the first directory. */
  type Known = Option<Cksum>

  /** What event e does, sources being files of the first directory. */
  ghost function Apply(m1: Listing, st: map<FilePath, Known>, e: Event): map<FilePath, Known> {
    match e
    case OverwrittenBy(f, cs) => if cs != [] && cs[0] in m1 then st[f := Some(m1[cs[0]])] else st
    case CopiedFrom(f, cs) => if cs != [] && cs[0] in m1 then st[f := Some(m1[cs[0]])] else st
    case RenameTo(f, cs) => if f in m1 then (st - {f}) + (map c | c in cs :: Some(m1[f])) else st
    case ContentChanged(f) => st[f := None]
    case NewFile(f) => st[f := None]
    case Removed(f) => st - {f}
  }

  ghost function Replay(m1: Listing, es: seq<Event>): map<FilePath, Known> {
    if es == [] then map p | p in m1 :: Some(m1[p])
    else Apply(m1, Replay(m1, es[..|es| - 1]), es[|es| - 1])
  }

  /** The second directory, as far as it can be made of the first. */
  ghost function Goal(m1: Listing, m2: Listing): map<FilePath, Known> {
    map p | p in m2 :: if SomeHas(m1, m2[p]) then Some(m2[p]) else None
  }

  ghost predicate Touches(e: Event, p: FilePath) {
    e.f == p || (e.RenameTo? && p in e.candidates)
  }

  ghost predicate AgreeAt(st: map<FilePath, Known>, g: map<FilePath, Known>, p: FilePath) {
    (p in st <==> p in g) && (p in st ==> st[p] == g[p])
  }

  /** An event brings every path it touches to its goal, whatever was there, and
      leaves all others alone; so no two events are in conflict. */
  lemma EventReachesGoal(m1: Listing, m2: Listing, skipRenames: bool, st: map<FilePath, Known>, e: Event, p: FilePath)
    requires IsEventFor(m1, m2, skipRenames, e)
    ensures Touches(e, p) ==> AgreeAt(Apply(m1, st, e), Goal(m1, m2), p)
    ensures !Touches(e, p) ==> AgreeAt(Apply(m1, st, e), st, p)
  {
    match e
    case OverwrittenBy(f, cs) => assert cs[0] in cs;
    case CopiedFrom(f, cs) => assert cs[0] in cs && IsKeptSource(m1, m2, f, cs[0]);
    case RenameTo(f, cs) =>
      assert HasHash(m1, f, m1[f]);
      if p in cs {
        assert HasHash(m2, p, m1[f]);
      }
    case _ =>
  }

  ghost predicate TouchedBy(es: seq<Event>, p: FilePath) {
    exists i :: 0 <= i < |es| && Touches(es[i], p)
  }

  lemma {:induction false} ReplayOne(m1: Listing, m2: Listing, skipRenames: bool, es: seq<Event>, p: FilePath)
    requires forall i :: 0 <= i < |es| ==> IsEventFor(m1, m2, skipRenames, es[i])
    ensures TouchedBy(es, p) ==> AgreeAt(Replay(m1, es), Goal(m1, m2), p)
    ensures !TouchedBy(es, p) ==> AgreeAt(Replay(m1, es), Replay(m1, []), p)
  {
    if es != [] {
      var ds, e := es[..|es| - 1], es[|es| - 1];
      ReplayOne(m1, m2, skipRenames, ds, p);
      EventReachesGoal(m1, m2, skipRenames, Replay(m1, ds), e, p);
      assert TouchedBy(es, p) <==> TouchedBy(ds, p) || Touches(e, p) by {
        if i :| 0 <= i < |es| && Touches(es[i], p) {
          assert i < |ds| ==> ds[i] == es[i];
        }
        if i :| 0 <= i < |ds| && Touches(ds[i], p) {
          assert es[i] == ds[i];
        }
      }
    }
  }

  /** A new path for which nothing is emitted is a candidate of the rename that
      the other loop emits for a file it may come from. */
  lemma SilentIsRenamed(m1: Listing, m2: Listing, es: seq<Event>, p: FilePath)
    requires IsReport(m1, m2, false, es) && p !in m1 && p in m2 && Silent(m1, m2, false, p)
    ensures exists i :: 0 <= i < |es| && es[i].RenameTo? && p in es[i].candidates
  {
    var c :| HasHash(m1, c, m2[p]);
    assert !IsKeptSource(m1, m2, p, c);
    assert HasHash(m2, p, m1[c]);
    assert IsAbout(es, c);
    var i :| 0 <= i < |es| && es[i].f == c;
    assert IsEventFor(m1, m2, false, es[i]);
  }

  lemma ReplayAgrees(m1: Listing, m2: Listing, es: seq<Event>, p: FilePath)
    requires IsReport(m1, m2, false, es)
    ensures AgreeAt(Replay(m1, es), Goal(m1, m2), p)
  {
    ReplayOne(m1, m2, false, es, p);
    if (p in m1 || p in m2) && !TouchedBy(es, p) {
      assert !IsAbout(es, p);
      if p !in m1 {
        SilentIsRenamed(m1, m2, es, p);
      } else {
        assert HasHash(m1, p, m2[p]);
      }
    }
  }

  lemma SameMap(st: map<FilePath, Known>, g: map<FilePath, Known>)
    requires forall p :: AgreeAt(st, g, p)
    ensures st == g
  {
    assert forall p :: p in st ==> AgreeAt(st, g, p);
    assert forall p :: p in g ==> AgreeAt(st, g, p);
  }

  /** Replaying the report over the first directory gives the second one: all its
      paths and no others, with its checksum on every path whose content occurs
      in the first directory. */
  lemma ReplayReconstructs(m1: Listing, m2: Listing, es: seq<Event>)
    requires IsReport(m1, m2, false, es)
    ensures Replay(m1, es) == Goal(m1, m2)
  {
    forall p
      ensures AgreeAt(Replay(m1, es), Goal(m1, m2), p)
    {
      ReplayAgrees(m1, m2, es, p);
    }
    SameMap(Replay(m1, es), Goal(m1, m2));
  }

  /** The paths without a known checksum are those reported as changed or new. */
  lemma UnknownMeansUnseen(m1: Listing, m2: Listing, es: seq<Event>, p: FilePath)
    requires IsReport(m1, m2, false, es) && p in m2
    ensures (exists i :: 0 <= i < |es| && es[i].f == p && (es[i].ContentChanged? || es[i].NewFile?))
       <==> Goal(m1, m2)[p] == None
  {
    if !SomeHas(m1, m2[p]) {
      assert p in m1 ==> (HasHash(m1, p, m1[p]) && m1[p] != m2[p]);
      assert IsAbout(es, p);
      var i :| 0 <= i < |es| && es[i].f == p;
      CandidatesHaveIt(m1, m2, false, es[i]);
    }
  }

  /** A file that was overwritten or copied has a content of the first directory. */
  lemma CandidatesHaveIt(m1: Listing, m2: Listing, skipRenames: bool, e: Event)
    requires IsEventFor(m1, m2, skipRenames, e)
    ensures e.OverwrittenBy? || e.CopiedFrom? ==> SomeHas(m1, m2[e.f])
  {
    if e.OverwrittenBy? || e.CopiedFrom? {
      assert e.candidates[0] in e.candidates;
      assert e.CopiedFrom? ==> IsKeptSource(m1, m2, e.f, e.candidates[0]);
      assert HasHash(m1, e.candidates[0], m2[e.f]);
    }
  }

  ghost predicate ReportsNew(e: Event, p: FilePath) {
    e == NewFile(p) || (e.CopiedFrom? && e.f == p) || (e.RenameTo? && p in e.candidates)
  }

  /** A path that only the second directory has is reported: as new, as a copy,
      or as what something was renamed to. */
  lemma NewPathsAreReported(m1: Listing, m2: Listing, es: seq<Event>, p: FilePath)
    requires IsReport(m1, m2, false, es) && p !in m1 && p in m2
    ensures exists i :: 0 <= i < |es| && ReportsNew(es[i], p)
  {
    if Silent(m1, m2, false, p) {
      SilentIsRenamed(m1, m2, es, p);
    } else {
      var i :| 0 <= i < |es| && es[i].f == p;
      assert IsEventFor(m1, m2, false, es[i]);
    }
  }

  /** Nothing is reported exactly for equal directories. */
  lemma EmptyReport(m1: Listing, m2: Listing, es: seq<Event>)
    requires IsReport(m1, m2, false, es)
    ensures es == [] <==> m1 == m2
  {
    if es == [] {
      forall p | p in m1 || p in m2
        ensures p in m1 && p in m2 && m1[p] == m2[p]
      {
        assert !IsAbout(es, p);
        if p !in m1 {
          SilentIsRenamed(m1, m2, es, p);
        }
      }
    } else {
      assert IsEventFor(m1, m2, false, es[0]);
      assert IsAbout(es, es[0].f);
    }
  }

  /** With renames skipped, the report still suffices exactly when nothing was
      renamed. */
  lemma SkippingRenames(m1: Listing, m2: Listing, es: seq<Event>)
    requires IsReport(m1, m2, true, es)
    ensures Replay(m1, es) == Goal(m1, m2) <==> forall p :: p in m1 && p !in m2 ==> !SomeHas(m2, m1[p])
  {
    if p :| p in m1 && p !in m2 && SomeHas(m2, m1[p]) {
      ReplayOne(m1, m2, true, es, p);
      assert Silent(m1, m2, true, p) && !IsAbout(es, p);
      forall i | 0 <= i < |es|
        ensures !Touches(es[i], p)
      {
        assert IsEventFor(m1, m2, true, es[i]);
      }
      assert p in Replay(m1, []);
    } else {
      forall i | 0 <= i < |es|
        ensures IsEventFor(m1, m2, false, es[i])
      {
        assert IsEventFor(m1, m2, true, es[i]);
      }
      assert forall p :: p in m1 || p in m2 ==> (Silent(m1, m2, true, p) <==> Silent(m1, m2, false, p));
      assert IsReport(m1, m2, false, es);
      ReplayReconstructs(m1, m2, es);
    }
  }

  // --------------------------------------------------------------- one rename

  ghost function Before(): Listing {
    map["a" := 1]
  }

  ghost function After(): Listing {
    map["b" := 1]
  }

  lemma AllTheSame(ps: seq<FilePath>, p: FilePath)
    requires ps != [] && Distinct(ps) && forall i :: 0 <= i < |ps| ==> ps[i] == p
    ensures ps == [p]
  {
    assert ps[0] == ps[|ps| - 1] == p;
  }

  lemma NoEventButRename(skipRenames: bool, e: Event)
    ensures IsEventFor(Before(), After(), skipRenames, e) ==> !skipRenames && e == RenameTo("a", ["b"])
  {
    assert HasHash(Before(), "a", 1) && HasHash(After(), "b", 1) && "a"[0] != "b"[0];
    if e.RenameTo? && IsEventFor(Before(), After(), skipRenames, e) {
      var cs := e.candidates;
      assert e.f == "a";
      assert forall i :: 0 <= i < |cs| ==> cs[i] in cs && HasHash(After(), cs[i], 1);
      assert forall i :: 0 <= i < |cs| ==> cs[i] == "b";
      AllTheSame(cs, "b");
    } else if e.CopiedFrom? && e.candidates != [] {
      assert e.candidates[0] in e.candidates;
    }
  }

  lemma OnlyRenames()
    ensures Silent(Before(), After(), true, "a") && Silent(Before(), After(), true, "b")
    ensures !Silent(Before(), After(), false, "a") && Silent(Before(), After(), false, "b")
    ensures IsEventFor(Before(), After(), false, RenameTo("a", ["b"]))
    ensures SomeHas(After(), Before()["a"])
  {
    assert HasHash(Before(), "a", 1) && HasHash(After(), "b", 1);
  }

  /** A renamed file is lost when renames are skipped: nothing is reported, and
      the directories differ. */
  lemma RenameIsLost(es: seq<Event>)
    ensures IsReport(Before(), After(), true, [])
    ensures IsReport(Before(), After(), true, es) ==> es == [] && Replay(Before(), es) != Goal(Before(), After())
  {
    OnlyRenames();
    hide Silent, IsEventFor, Replay, Goal, SomeHas;
    if IsReport(Before(), After(), true, es) {
      SkippingRenames(Before(), After(), es);
      if es != [] {
        NoEventButRename(true, es[0]);
      }
    }
  }

  /** It is found otherwise. */
  lemma RenameIsFound(es: seq<Event>)
    requires IsReport(Before(), After(), false, es)
    ensures es == [RenameTo("a", ["b"])] && Replay(Before(), es) == Goal(Before(), After())
  {
    OnlyRenames();
    hide Silent, IsEventFor, Replay, Goal, SomeHas;
    ReplayReconstructs(Before(), After(), es);
    assert IsAbout(es, "a");
    forall i | 0 <= i < |es|
      ensures es[i] == RenameTo("a", ["b"])
    {
      NoEventButRename(false, es[i]);
    }
    assert forall i, j :: 0 <= i < j < |es| ==> es[i].f != es[j].f;
    assert Distinct(seq(|es|, i requires 0 <= i < |es| => es[i].f));
    AllTheSame(seq(|es|, i requires 0 <= i < |es| => es[i].f), "a");
  }
}
