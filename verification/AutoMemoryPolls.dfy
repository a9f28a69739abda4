/** Runs that show each way an ingest raises, and one that looks as if it would and does not. */
module AutoMemoryPolls {
  import opened Options
  import Lists
  import opened RowIds
  import opened AutoMemory
  import opened AutoMemoryRuns
  import opened AutoMemoryTheorems
  import opened AutoMemoryPaths
  import opened AutoMemoryRefusals
  import Sorting

  // ---------------------------------------------------------------- what a document holds

  /** Live document `d` stands where `file` was, and its current revision has that content, read from `disk`. */
  predicate Holds(db: Db, d: DocId, file: File, disk: Disk) {
    && d in db.docs && db.docs[d].at == file.at && db.docs[d].sourcePath == file.sourcePath
    && db.docs[d].state == Active
    && db.docs[d].current.Some? && db.docs[d].current.value in db.revisions
    && var revision := db.revisions[db.docs[d].current.value];
    revision.document == d && revision.hash == Digest(file.text) && revision.disk == Some(disk)
  }

  lemma DeletionKeeps(db: Db, gone: set<RevId>, e: DocId, file: File, disk: Disk)
    requires Holds(db, e, file, disk) && db.docs[e].current.value !in gone
    ensures Holds(WithoutRevisions(db, gone), e, file, disk)
  {
  }

  /** A current revision is never pruned, whichever document is. */
  lemma PruneKeepsHeld(db: Db, d: DocId, retention: Retention, now: int, e: DocId, file: File, disk: Disk)
    requires d in db.docs && Holds(db, e, file, disk)
    ensures Holds(PruneDocument(db, d, retention, now), e, file, disk)
  {
    PrunableIsUnprotected(db, d, retention, now);
    hide Prunable;
    assert db.docs[e].current.value !in RevisionsOf(db, d) - Protected(db.docs[d]);
    hide RevisionsOf;
    hide Protected;
    DeletionKeeps(db, Prunable(db, d, retention, now), e, file, disk);
    hide WithoutRevisions;
    hide Holds;
  }

  lemma IndexKeepsHeld(db: Db, d: DocId, changed: bool, e: DocId, file: File, disk: Disk)
    requires d in db.docs && Holds(db, e, file, disk)
    ensures Holds(Indexed(db, d, changed), e, file, disk)
  {
    hide Fitting;
    hide CurrentTargets;
  }

  lemma ExtendedHolds(db: Db, d: DocId, begun: Db, p: Poll, e: DocId, file: File, disk: Disk)
    requires d in begun.docs && begun.docs[d].at == p.file.at && !RepeatsTarget(p.file)
    requires Holds(IngestRevision(begun, d, p.file, p.now), e, file, disk)
    ensures Holds(Extended(db, d, begun, p).0, e, file, disk)
  {
    var grown := IngestRevision(begun, d, p.file, p.now);
    GrownIsIndexable(begun, d, p);
    IndexKeepsHeld(grown, d, true, e, file, disk);
    hide IngestRevision;
    hide Holds;
    hide Indexed;
    hide Indexable;
    PruneKeepsHeld(Indexed(grown, d, true), d, p.retention, p.now, e, file, disk);
    hide PruneDocument;
  }

  /** The links of an index are in place, unless it has none. */
  predicate HasLinks(db: Db, d: DocId)
    requires d in db.docs
  {
    db.docs[d].at.path == INDEX_LOGICAL_PATH ==> !Unindexed(db, d) || CurrentTargets(db, d) == []
  }

  lemma LinkedIndex(db: Db, d: DocId)
    requires d in db.docs && db.docs[d].current.Some? && CurrentTargets(db, d) != []
    ensures Fitting(CurrentTargets(db, d)) > 0
    ensures var t := CurrentTargets(db, d)[0];
            IndexRow(d, db.docs[d].current.value, t) in WithLinks(db, d, Fitting(CurrentTargets(db, d))).index
  {
    var targets := CurrentTargets(db, d);
    hide CurrentTargets;
    var k := Fitting(targets);
    assert targets[..0] == [];
    assert targets[..k][0] == targets[0];
  }

  lemma ExtendedLinks(db: Db, d: DocId, begun: Db, p: Poll)
    requires d in begun.docs && begun.docs[d].at == p.file.at && !RepeatsTarget(p.file)
    requires Holds(IngestRevision(begun, d, p.file, p.now), d, p.file, p.file.disk)
    ensures var after := Extended(db, d, begun, p).0; d in after.docs && HasLinks(after, d)
  {
    var grown := IngestRevision(begun, d, p.file, p.now);
    ExtendedHolds(db, d, begun, p, d, p.file, p.file.disk);
    GrownIsIndexable(begun, d, p);
    var after := Extended(db, d, begun, p).0;
    HeldTargets(grown, d, p.file, p.file.disk);
    HeldTargets(after, d, p.file, p.file.disk);
    assert grown.docs[d].at == p.file.at && grown.docs[d].current.Some?;
    hide CurrentTargets;
    hide IngestRevision;
    if p.file.at.path == INDEX_LOGICAL_PATH && p.file.text.targets != [] {
      hide Indexable;
      FirstRow(grown, d, p.retention, p.now);
      hide Indexed;
      hide PruneDocument;
      hide Holds;
    }
  }

  lemma FirstRow(db: Db, d: DocId, retention: Retention, now: int)
    requires d in db.docs && db.docs[d].current.Some? && CurrentTargets(db, d) != []
    requires db.docs[d].at.path == INDEX_LOGICAL_PATH
    ensures !Unindexed(PruneDocument(Indexed(db, d, true), d, retention, now), d)
  {
    LinkedIndex(db, d);
    var indexed, row := Indexed(db, d, true), IndexRow(d, db.docs[d].current.value, CurrentTargets(db, d)[0]);
    hide CurrentTargets;
    assert row in indexed.index && indexed.docs == db.docs;
    hide Indexed;
    RowSurvives(indexed, d, retention, now, row);
    hide PruneDocument;
  }

  lemma RowSurvives(db: Db, d: DocId, retention: Retention, now: int, row: IndexRow)
    requires d in db.docs && row in db.index && db.docs[d].current == Some(row.revision)
    ensures row in PruneDocument(db, d, retention, now).index
  {
    PrunableIsUnprotected(db, d, retention, now);
    hide Prunable;
  }

  lemma HeldTargets(db: Db, d: DocId, file: File, disk: Disk)
    requires Holds(db, d, file, disk)
    ensures CurrentTargets(db, d) == file.text.targets
  {
  }

  /** Reading the same file again finds the document untouched exactly if it was not touched. */
  lemma HeldStamp(db: Db, d: DocId, held: File, disk: Disk, file: File)
    requires Holds(db, d, held, disk)
    ensures SameStamp(db, d, file) ==> held.at.path == file.at.path
    ensures held.sourcePath == file.sourcePath && held.at == file.at && disk == file.disk ==> SameStamp(db, d, file)
  {
  }

  lemma UntouchedIs(db: Db, d: DocId, file: File)
    requires d in db.docs && SameStamp(db, d, file) && forall x :: x in db.docs && SameStamp(db, x, file) ==> x == d
    requires db.revisions[db.docs[d].current.value].disk == Some(file.disk)
    ensures Untouched(db, file) == Some(d)
  {
    var same := set x: DocId | x in db.docs && SameStamp(db, x, file);
    assert d in same;
    hide SameStamp;
  }

  lemma RefreshIsIdle(db: Db, d: DocId, kept: bool)
    requires d in db.docs && HasLinks(db, d)
    ensures Refreshed(db, d, kept) == (db, Committed(d))
  {
    var targets := CurrentTargets(db, d);
    hide CurrentTargets;
    if targets == [] {
      assert Rebuilds(db, d, false) ==> WithLinks(db, d, Fitting(targets)).index == db.index;
    }
  }

  /** Which renames a held document can be the source of. */
  lemma HeldMoves(db: Db, d: DocId, held: File, disk: Disk, file: File)
    requires Holds(db, d, held, disk)
    ensures RenameSource(db, d, file) <==>
              held.at.repository == file.at.repository && held.at.path != file.at.path && held.text == file.text
  {
  }

  // ---------------------------------------------------------------- small worlds

  /** An ingest at a path that is free and was never used, of content that did not move there. */
  lemma NewIngest(db: Db, p: Poll)
    requires Untouched(db, p.file).None? && !Moved(db, p.file, p.files) && !RepeatsTarget(p.file)
    requires !Occupied(db, p.file.at) && forall d :: !CreatedAt(db, d, p.file.at)
    ensures var d, after := NextId(db.docs), Ingest(db, p).0;
            && after.docs.Keys == db.docs.Keys + {d}
            && Holds(after, d, p.file, p.file.disk) && CreatedAt(after, d, p.file.at) && HasLinks(after, d)
            && (forall e, file, disk :: Holds(db, e, file, disk) ==> Holds(after, e, file, disk))
  {
    var d, begun := NextId(db.docs), NewDocument(db, p.file);
    assert begun.docs[d].at == p.file.at;
    VacantIs(db, p);
    NewHolds(db, p);
    NewDocumentAdds(db, p);
    ExtendedRaises(db, d, begun, p);
    hide *;
    ExtendedHolds(db, d, begun, p, d, p.file, p.file.disk);
    ExtendedLinks(db, d, begun, p);
    forall e, file, disk | Holds(db, e, file, disk) ensures Holds(Ingest(db, p).0, e, file, disk) {
      OthersHold(db, p, e, file, disk);
      ExtendedHolds(db, d, begun, p, e, file, disk);
    }
  }

  lemma NewHolds(db: Db, p: Poll)
    ensures var d := NextId(db.docs);
            Holds(IngestRevision(NewDocument(db, p.file), d, p.file, p.now), d, p.file, p.file.disk)
  {
    hide LastNumber;
  }

  lemma OthersHold(db: Db, p: Poll, e: DocId, file: File, disk: Disk)
    requires Holds(db, e, file, disk)
    ensures Holds(IngestRevision(NewDocument(db, p.file), NextId(db.docs), p.file, p.now), e, file, disk)
  {
    hide LastNumber;
  }

  lemma NewDocumentAdds(db: Db, p: Poll)
    requires !RepeatsTarget(p.file)
    ensures var d, begun := NextId(db.docs), NewDocument(db, p.file);
            var after := Extended(db, d, begun, p).0;
            after.docs.Keys == db.docs.Keys + {d} && CreatedAt(after, d, p.file.at)
  {
    NewDocumentIs(db, p.file);
    hide *;
    ExtendedDocs(db, NextId(db.docs), NewDocument(db, p.file), p);
    ExtendedRaises(db, NextId(db.docs), NewDocument(db, p.file), p);
    AddedPlace(db, p.file, Extended(db, NextId(db.docs), NewDocument(db, p.file), p).0);
  }

  lemma NewDocumentIs(db: Db, file: File)
    ensures NextId(db.docs) in NewDocument(db, file).docs && NewDocument(db, file).docs[NextId(db.docs)].at == file.at
  {
    hide NextId;
  }

  lemma AddedPlace(db: Db, file: File, after: Db)
    requires SamePlaces(NewDocument(db, file), after)
    ensures after.docs.Keys == db.docs.Keys + {NextId(db.docs)} && CreatedAt(after, NextId(db.docs), file.at)
  {
    hide NextId;
  }

  lemma PollStep(w: World, p: Poll)
    requires Reachable(w)
    ensures Reachable(Next(w, IngestFile(p))) && Next(w, IngestFile(p)).db == Ingest(w.db, p).0
  {
    ReachableNext(w, IngestFile(p));
    hide Reachable;
    hide Ingest;
  }

  lemma NothingYet(file: File, files: set<string>)
    ensures var db := INITIAL.db;
            Untouched(db, file).None? && !Moved(db, file, files) && !Occupied(db, file.at)
            && forall d :: !CreatedAt(db, d, file.at)
  {
  }

  /** A world with one file in it. */
  lemma OneDocument(a: File, retention: Retention) returns (w: World, d: DocId)
    requires !RepeatsTarget(a)
    ensures Reachable(w) && w.db.docs.Keys == {d} && Holds(w.db, d, a, a.disk) && CreatedAt(w.db, d, a.at)
    ensures a.at.path != INDEX_LOGICAL_PATH ==> w.db.index == {}
  {
    var p := Poll(a, {}, retention, 0, false);
    d, w := NextId(INITIAL.db.docs), Next(INITIAL, IngestFile(p));
    InitialIsReachable();
    PollStep(INITIAL, p);
    NothingYet(a, {});
    NewIngest(INITIAL.db, p);
    if a.at.path != INDEX_LOGICAL_PATH {
      IndexIsLeftAlone(INITIAL.db, p);
    }
    hide *;
  }

  /** Away from the index path an ingest only loses link rows, through pruning. */
  lemma IndexIsLeftAlone(db: Db, p: Poll)
    requires Untouched(db, p.file).None? && !Moved(db, p.file, p.files) && p.file.at.path != INDEX_LOGICAL_PATH
    requires !Occupied(db, p.file.at) && forall d :: !CreatedAt(db, d, p.file.at)
    ensures Ingest(db, p).0.index <= db.index
  {
    VacantIs(db, p);
    hide Ingest;
    hide Prunable;
    hide LastNumber;
    hide NextId;
    hide CurrentTargets;
  }

  /** A world with two files in it, at different paths. */
  lemma TwoDocuments(a: File, b: File, files: set<string>, retention: Retention) returns (w: World, d: DocId, e: DocId)
    requires !RepeatsTarget(a) && !RepeatsTarget(b) && a.at.path != b.at.path
    requires a.text != b.text || a.sourcePath in files
    ensures Reachable(w) && w.db.docs.Keys == {d, e} && d != e && HasLinks(w.db, e)
    ensures Holds(w.db, d, a, a.disk) && Holds(w.db, e, b, b.disk)
  {
    hide HasLinks;
    hide Ingest;
    hide Next;
    hide Reachable;
    var p := Poll(b, files, retention, 0, false);
    var start;
    start, d := OneDocument(a, retention);
    e, w := NextId(start.db.docs), Next(start, IngestFile(p));
    PollStep(start, p);
    HeldMoves(start.db, d, a, a.disk, b);
    HeldStamp(start.db, d, a, a.disk, b);
    assert Untouched(start.db, b).None? && !Moved(start.db, b, files) && !Occupied(start.db, b.at);
    assert forall x :: !CreatedAt(start.db, x, b.at);
    hide Holds;
    hide RepeatsTarget;
    NewIngest(start.db, p);
  }

  // ---------------------------------------------------------------- the runs

  /** The very first ingest is refused exactly if it is an index that links a target twice. */
  lemma FirstIngestIsRefusedIff(p: Poll)
    ensures Reachable(INITIAL)
    ensures Ingest(INITIAL.db, p) == (INITIAL.db, Raised(RepeatedTarget)) <==> RepeatsTarget(p.file)
  {
    InitialIsReachable();
    NothingYet(p.file, p.files);
    VacantRaises(INITIAL.db, p);
    hide Ingest;
    hide RepeatsTarget;
  }

  /** Two tracked files with the same content, the first of which vanishes: reading the second again is accepted
      exactly if it was not touched on disk, and otherwise refused as if the first had moved onto it. */
  lemma TwinIsAcceptedIffUntouched(a: File, b: File, files: set<string>, later: Poll, retention: Retention)
    returns (w: World, e: DocId)
    requires !RepeatsTarget(a) && !RepeatsTarget(b)
    requires a.at.repository == b.at.repository && a.at.path != b.at.path && a.text == b.text
    requires a.sourcePath in files && a.sourcePath !in later.files && later.file == b.(disk := later.file.disk)
    ensures Reachable(w)
    ensures Ingest(w.db, later)
         == if later.file.disk == b.disk then (w.db, Committed(e)) else (w.db, Raised(UniqueViolation))
  {
    hide Ingest;
    hide Reachable;
    hide HasLinks;
    var d;
    w, d, e := TwoDocuments(a, b, files, retention);
    HeldStamp(w.db, d, a, a.disk, later.file);
    HeldStamp(w.db, e, b, b.disk, later.file);
    if later.file.disk == b.disk {
      UntouchedIs(w.db, e, later.file);
      RefreshIsIdle(w.db, e, later.kept);
      UntouchedIngest(w.db, later);
    } else {
      assert Untouched(w.db, later.file).None?;
      OntoOther(w, d, a, e, b, later);
    }
  }

  lemma UntouchedIngest(db: Db, p: Poll)
    requires Untouched(db, p.file).Some?
    ensures Ingest(db, p) == Refreshed(db, Untouched(db, p.file).value, p.kept)
  {
    hide Untouched;
    hide Refreshed;
  }

  /** The content of a vanished file turns up, read anew, where another document stands. */
  lemma OntoOther(w: World, d: DocId, a: File, e: DocId, b: File, p: Poll)
    requires Reachable(w) && w.db.docs.Keys == {d, e} && d != e
    requires Holds(w.db, d, a, a.disk) && Holds(w.db, e, b, b.disk) && Untouched(w.db, p.file).None?
    requires p.file.at == b.at && p.file.text == a.text && a.sourcePath !in p.files
    requires a.at.repository == b.at.repository && a.at.path != b.at.path
    ensures Ingest(w.db, p) == (w.db, Raised(UniqueViolation))
  {
    HeldMoves(w.db, d, a, a.disk, p.file);
    HeldMoves(w.db, e, b, b.disk, p.file);
    hide RenameSource;
    hide Untouched;
    hide Reachable;
    assert MovesFrom(w.db, d, p.file, p.files);
    assert Stands(w.db, e, p.file.at);
    hide Ingest;
    MovedRaises(w.db, d, p);
  }

  /** Any file `a` whose content is saved over another tracked file `b`, and which is gone: the ingest is refused. */
  lemma SavedOverIsRefused(a: File, b: File, saved: Poll, retention: Retention) returns (w: World)
    requires !RepeatsTarget(a) && !RepeatsTarget(b)
    requires a.at.repository == b.at.repository && a.at.path != b.at.path && a.text != b.text
    requires saved.file.at == b.at && saved.file.text == a.text && saved.file.disk != b.disk
    requires a.sourcePath !in saved.files
    ensures Reachable(w)
    ensures Ingest(w.db, saved) == (w.db, Raised(UniqueViolation))
  {
    hide Ingest;
    hide Reachable;
    hide HasLinks;
    var d, e;
    w, d, e := TwoDocuments(a, b, {}, retention);
    HeldStamp(w.db, d, a, a.disk, saved.file);
    assert Untouched(w.db, saved.file).None?;
    OntoOther(w, d, a, e, b, saved);
  }

  /** The world after file `a` moved to `b`, whether or not its links could be rebuilt there. */
  lemma MovedWorld(a: File, p: Poll, retention: Retention) returns (start: World, w: World, d: DocId)
    requires !RepeatsTarget(a) && a.sourcePath !in p.files
    requires a.at.repository == p.file.at.repository && a.at.path != p.file.at.path && a.text == p.file.text
    ensures Reachable(start) && start.db.docs.Keys == {d} && Stands(start.db, d, a.at) && CreatedAt(start.db, d, a.at)
    ensures Untouched(start.db, p.file).None? && !Occupied(start.db, p.file.at)
    ensures MovesFrom(start.db, d, p.file, p.files)
    ensures a.at.path != INDEX_LOGICAL_PATH ==> start.db.index == {}
    ensures Reachable(w) && w.db == Ingest(start.db, p).0 && w.db.docs == MovedTo(start.db, d, p.file)
    ensures Holds(w.db, d, p.file, a.disk)
  {
    hide Ingest;
    hide Reachable;
    hide Next;
    start, d := OneDocument(a, retention);
    w := Next(start, IngestFile(p));
    PollStep(start, p);
    HeldMoves(start.db, d, a, a.disk, p.file);
    HeldStamp(start.db, d, a, a.disk, p.file);
    ReachablePlaces(start);
    IngestDocs(start.db, p);
    MovedHolds(start.db, d, a, p);
    hide PlacesOk;
    hide RenameSource;
    hide Holds;
  }

  lemma MovedHolds(db: Db, d: DocId, a: File, p: Poll)
    requires Holds(db, d, a, a.disk) && a.text == p.file.text && RenameSource(db, d, p.file)
    requires Untouched(db, p.file).None? && MovesFrom(db, d, p.file, p.files) && !Occupied(db, p.file.at)
    ensures Holds(Ingest(db, p).0, d, p.file, a.disk)
  {
    assert d in db.docs;
    hide *;
    MovedIs(db, d, p);
    LandedHeld(db, d, a, p);
    RefreshKeepsHeld(Landed(db, d, p), d, p.kept, d, p.file, a.disk);
  }

  lemma LandedHeld(db: Db, d: DocId, a: File, p: Poll)
    requires Holds(db, d, a, a.disk) && a.text == p.file.text && RenameSource(db, d, p.file)
    ensures d in db.docs && Holds(Landed(db, d, p), d, p.file, a.disk)
  {
    RenamedHeld(db, d, a, p);
    hide RenameTo;
    PruneKeepsHeld(RenameTo(db, d, p.file, p.now), d, p.retention, p.now, d, p.file, a.disk);
    hide PruneDocument;
  }

  lemma RenamedHeld(db: Db, d: DocId, a: File, p: Poll)
    requires Holds(db, d, a, a.disk) && a.text == p.file.text
    ensures d in db.docs && d in RenameTo(db, d, p.file, p.now).docs
    ensures Holds(RenameTo(db, d, p.file, p.now), d, p.file, a.disk)
  {
    hide LastNumber;
  }

  lemma RefreshKeepsHeld(db: Db, d: DocId, kept: bool, e: DocId, file: File, disk: Disk)
    requires d in db.docs && Holds(db, e, file, disk)
    ensures Holds(Refreshed(db, d, kept).0, e, file, disk)
  {
    IndexKeepsHeld(db, d, false, e, file, disk);
    hide Holds;
    hide Indexed;
    hide Indexable;
  }

  /** Any file `a` that moved to `b`: what is then read at the old path is refused for its identity exactly unless it
      moves back, which it does when it has the old content and the moved file is gone. */
  lemma OldPathIsRefused(a: File, p: Poll, again: Poll, retention: Retention) returns (w: World)
    requires !RepeatsTarget(a) && a.sourcePath !in p.files && again.file.at == a.at
    requires a.at.repository == p.file.at.repository && a.at.path != p.file.at.path && a.text == p.file.text
    ensures Reachable(w)
    ensures Ingest(w.db, again).1 == Raised(UniqueViolation) <==>
              again.file.text != a.text || p.file.sourcePath in again.files
  {
    hide Ingest;
    hide Reachable;
    hide MovedTo;
    var start, d;
    start, w, d := MovedWorld(a, p, retention);
    RenameStrandsOldPath(start, d, p, again);
    HeldMoves(w.db, d, p.file, a.disk, again.file);
    HeldStamp(w.db, d, p.file, a.disk, again.file);
    assert w.db.docs.Keys == {d} by { MovedStands(start.db, d, p.file, w.db); }
    assert Moved(w.db, again.file, again.files) <==> MovesFrom(w.db, d, again.file, again.files);
  }

  lemma LandedUnindexed(db: Db, d: DocId, p: Poll)
    requires d in db.docs && db.index == {}
    ensures Landed(db, d, p).index == {} && Unindexed(Landed(db, d, p), d)
  {
    hide Prunable;
    hide LastNumber;
    hide NextId;
  }

  /** The document has a link row with this target. */
  ghost predicate LinksTo(db: Db, d: DocId, t: string) {
    exists row :: row in db.index && row.document == d && row.target == t
  }

  lemma LinksCutShort(db: Db, d: DocId, t: string)
    requires d in db.docs && db.index == {} && CurrentTargets(db, d) != []
    ensures var targets := CurrentTargets(db, d);
            LinksTo(WithLinks(db, d, Fitting(targets)), d, t) <==> t in targets[..Fitting(targets)]
  {
    var targets := CurrentTargets(db, d);
    assert db.docs[d].current.Some?;
    hide CurrentTargets;
    var k := Fitting(targets);
    if t in targets[..k] {
      assert IndexRow(d, db.docs[d].current.value, t) in WithLinks(db, d, k).index;
    }
  }

  /** What is there after the move onto the index path: nothing, or the links up to the first repeat. */
  lemma LinksAfterMove(db: Db, d: DocId, p: Poll)
    requires d in db.docs && db.index == {} && RenameSource(db, d, p.file) && RepeatsTarget(p.file)
    ensures var landed, targets := Landed(db, d, p), p.file.text.targets;
            var after := if p.kept then Indexed(landed, d, false) else landed;
            && Unindexed(landed, d)
            && (forall t :: LinksTo(after, d, t) <==> p.kept && t in targets[..Fitting(targets)])
            && (Unindexed(after, d) <==> !p.kept)
  {
    var landed, targets := Landed(db, d, p), p.file.text.targets;
    LandedUnindexed(db, d, p);
    LandedContent(db, d, p);
    assert targets != [] && landed.docs[d].at.path == INDEX_LOGICAL_PATH;
    hide *;
    forall t ensures LinksTo(WithLinks(landed, d, Fitting(targets)), d, t) <==> t in targets[..Fitting(targets)] {
      LinksCutShort(landed, d, t);
    }
    RebuiltLinks(landed, d);
    forall t ensures !LinksTo(landed, d, t) { NothingLinked(landed, d, t); }
  }

  lemma NothingLinked(db: Db, d: DocId, t: string)
    requires Unindexed(db, d)
    ensures !LinksTo(db, d, t)
  {
  }

  lemma RebuiltLinks(db: Db, d: DocId)
    requires d in db.docs && db.docs[d].at.path == INDEX_LOGICAL_PATH && Unindexed(db, d) && CurrentTargets(db, d) != []
    ensures Indexed(db, d, false) == WithLinks(db, d, Fitting(CurrentTargets(db, d)))
    ensures !Unindexed(Indexed(db, d, false), d)
  {
    HasCurrent(db, d);
    LinkedIndex(db, d);
    hide CurrentTargets;
    hide WithLinks;
  }

  lemma HasCurrent(db: Db, d: DocId)
    requires d in db.docs && CurrentTargets(db, d) != []
    ensures db.docs[d].current.Some?
  {
  }

  /** The only document, polled again from the same file: with the stamp it had or another, the links decide. */
  lemma PolledAgain(w: World, d: DocId, held: File, disk: Disk, later: Poll)
    requires Reachable(w) && w.db.docs.Keys == {d} && Holds(w.db, d, held, disk) && RepeatsTarget(held)
    requires later.file.at == held.at && later.file.text == held.text
    ensures Ingest(w.db, later).1 == if Unindexed(w.db, d) then Raised(RepeatedTarget) else Committed(d)
  {
    HeldTargets(w.db, d, held, disk);
    HeldMoves(w.db, d, held, disk, later.file);
    ReachablePlaces(w);
    hide Reachable;
    hide Ingest;
    hide Untouched;
    assert CannotBeIndexed(w.db, d) <==> Unindexed(w.db, d);
    if Untouched(w.db, later.file).Some? {
      UntouchedRaises(w.db, later, d);
      UntouchedIngest(w.db, later);
    } else {
      assert !Moved(w.db, later.file, later.files) && Stands(w.db, d, later.file.at);
      assert SameContent(w.db, d, later.file);
      FoundRaises(w.db, d, later);
      FoundIs(w.db, d, later);
    }
    hide PlacesOk;
    hide Unindexed;
    hide Indexed;
    hide Indexable;
  }

  /** Any file with a repeated link target that moves onto the index path: the ingest raises, and the move stays. If
      what it had written is committed later, the links up to the first repeat are there and the next poll of the file
      passes; if not, none is there and the next poll raises as well. */
  lemma MoveOntoIndexStays(a: File, p: Poll, later: Poll, retention: Retention)
    returns (w: World, after: World, d: DocId)
    requires a.at.path != INDEX_LOGICAL_PATH && RepeatsTarget(p.file) && a.sourcePath !in p.files
    requires a.at.repository == p.file.at.repository && a.text == p.file.text
    requires later.file.at == p.file.at && later.file.text == p.file.text
    ensures Reachable(w) && Stands(w.db, d, a.at) && Ingest(w.db, p) == (after.db, Raised(RepeatedTarget))
    ensures Reachable(after) && Stands(after.db, d, p.file.at)
    ensures forall t :: LinksTo(after.db, d, t) <==>
              p.kept && t in p.file.text.targets[..Fitting(p.file.text.targets)]
    ensures Ingest(after.db, later).1 == if p.kept then Committed(d) else Raised(RepeatedTarget)
  {
    assert !RepeatsTarget(a);
    w, after, d := MovedWorld(a, p, retention);
    assert RenameSource(w.db, d, p.file);
    assert w.db.index == {} && p.file.at.path == INDEX_LOGICAL_PATH;
    hide *;
    MovedStands(w.db, d, p.file, after.db);
    MovedRaises(w.db, d, p);
    LinksAfterMove(w.db, d, p);
    PolledAgain(after, d, p.file, a.disk, later);
  }

  lemma MovedStands(db: Db, d: DocId, file: File, after: Db)
    requires d in db.docs && after.docs == MovedTo(db, d, file)
    ensures after.docs.Keys == db.docs.Keys && Stands(after, d, file.at)
  {
  }
}
