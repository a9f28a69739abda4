/** Every link row names a document and one of its revisions, over any run. */
module AutoMemoryIndex {
  import opened Options
  import opened RowIds
  import opened AutoMemory
  import opened AutoMemoryRuns
  import opened AutoMemoryTheorems
  import opened AutoMemoryPaths
  import opened AutoMemoryRefusals
  import opened AutoMemoryRecords
  import Lists
  import Sorting

  ghost predicate IndexOk(db: Db) {
    forall row :: row in db.index ==> row.document in db.docs && Owns(db, row.document, row.revision)
  }

  /** Documents and the owners of revisions stay, and no link row is added. */
  predicate KeepsOwners(db: Db, after: Db) {
    && db.docs.Keys <= after.docs.Keys && after.index <= db.index
    && forall r :: r in db.revisions ==> r in after.revisions && after.revisions[r].document == db.revisions[r].document
  }

  lemma OwnersKept(db: Db, after: Db)
    requires IndexOk(db) && KeepsOwners(db, after)
    ensures IndexOk(after)
  {
  }

  /** Deleting revisions takes their link rows along. */
  lemma PruneIndexOk(db: Db, d: DocId, retention: Retention, now: int)
    requires IndexOk(db)
    ensures IndexOk(PruneDocument(db, d, retention, now))
  {
    hide Prunable;
  }

  /** New rows are those of a current revision. */
  lemma IndexedIndexOk(db: Db, d: DocId, changed: bool)
    requires IndexOk(db) && d in db.docs && (db.docs[d].current.Some? ==> Owns(db, d, db.docs[d].current.value))
    ensures IndexOk(Indexed(db, d, changed))
  {
    hide Fitting;
    hide CurrentTargets;
  }

  lemma RefreshedIndexOk(db: Db, d: DocId, kept: bool)
    requires IndexOk(db) && d in db.docs && (db.docs[d].current.Some? ==> Owns(db, d, db.docs[d].current.value))
    ensures IndexOk(Refreshed(db, d, kept).0)
  {
    IndexedIndexOk(db, d, false);
    hide Indexed;
    hide Indexable;
    hide IndexOk;
  }

  lemma GrownKeepsOwners(begun: Db, d: DocId, p: Poll)
    requires d in begun.docs
    ensures var grown := IngestRevision(begun, d, p.file, p.now);
            && KeepsOwners(begun, grown) && d in grown.docs
            && grown.docs[d].current.Some? && Owns(grown, d, grown.docs[d].current.value)
  {
    hide LastNumber;
    hide Largest;
  }

  lemma ExtendedIndexOk(db: Db, d: DocId, begun: Db, p: Poll)
    requires IndexOk(db) && KeepsOwners(db, begun) && d in begun.docs
    ensures IndexOk(Extended(db, d, begun, p).0)
  {
    var grown := IngestRevision(begun, d, p.file, p.now);
    OwnersKept(db, begun);
    GrownKeepsOwners(begun, d, p);
    OwnersKept(begun, grown);
    IndexedIndexOk(grown, d, true);
    hide IngestRevision;
    hide Indexed;
    hide Indexable;
    hide IndexOk;
    hide KeepsOwners;
    PruneIndexOk(Indexed(grown, d, true), d, p.retention, p.now);
    hide PruneDocument;
  }

  /** The document points at a revision of its own. */
  predicate CurrentOwned(db: Db, d: DocId) {
    d in db.docs && db.docs[d].current.Some? && Owns(db, d, db.docs[d].current.value)
  }

  lemma RenameKeepsOwners(db: Db, d: DocId, p: Poll)
    requires CurrentOwned(db, d)
    ensures var moved := RenameTo(db, d, p.file, p.now); KeepsOwners(db, moved) && CurrentOwned(moved, d)
  {
    hide LastNumber;
    hide Largest;
  }

  lemma PruneKeepsOwned(db: Db, d: DocId, retention: Retention, now: int)
    requires CurrentOwned(db, d)
    ensures CurrentOwned(PruneDocument(db, d, retention, now), d)
  {
    PrunableIsUnprotected(db, d, retention, now);
    hide Prunable;
  }

  lemma LandedIndexOk(db: Db, d: DocId, p: Poll)
    requires IndexOk(db) && CurrentOwned(db, d)
    ensures d in db.docs && IndexOk(Landed(db, d, p)) && CurrentOwned(Landed(db, d, p), d)
  {
    var moved := RenameTo(db, d, p.file, p.now);
    RenameKeepsOwners(db, d, p);
    OwnersKept(db, moved);
    hide RenameTo;
    PruneIndexOk(moved, d, p.retention, p.now);
    PruneKeepsOwned(moved, d, p.retention, p.now);
    hide PruneDocument;
    hide IndexOk;
    hide KeepsOwners;
    hide Owns;
  }

  lemma WrittenIndexOk(db: Db, d: DocId, written: Db)
    requires IndexOk(db) && KeepsOwners(db, written) && d in written.docs
    requires written.docs[d].current.Some? ==> Owns(written, d, written.docs[d].current.value)
    ensures IndexOk(Written(db, d, written, false).0)
  {
    OwnersKept(db, written);
    IndexedIndexOk(written, d, false);
    hide Indexed;
    hide Indexable;
    hide IndexOk;
  }

  lemma OwnedCurrent(db: Db, d: DocId)
    requires CurrentOwned(db, d)
    ensures d in db.docs && db.docs[d].current.Some? && Owns(db, d, db.docs[d].current.value)
  {
  }

  lemma MovedIndexOk(db: Db, d: DocId, p: Poll)
    requires IndexOk(db) && CurrentOwned(db, d) && Untouched(db, p.file).None?
    requires d in db.docs && MovesFrom(db, d, p.file, p.files)
    ensures IndexOk(Ingest(db, p).0)
  {
    hide *;
    MovedIs(db, d, p);
    LandedIndexOk(db, d, p);
    OwnedCurrent(Landed(db, d, p), d);
    RefreshedIndexOk(Landed(db, d, p), d, p.kept);
  }

  lemma SeenKeepsOwners(db: Db, d: DocId, p: Poll)
    requires CurrentOwned(db, d)
    ensures KeepsOwners(db, Seen(db, d, p.file)) && CurrentOwned(Seen(db, d, p.file), d)
  {
  }

  lemma FoundIndexOk(db: Db, d: DocId, p: Poll)
    requires IndexOk(db) && CurrentOwned(db, d) && Untouched(db, p.file).None?
    requires PlacesOk(db) && !Moved(db, p.file, p.files) && Stands(db, d, p.file.at)
    ensures IndexOk(Ingest(db, p).0)
  {
    hide *;
    OwnedCurrent(db, d);
    FoundIs(db, d, p);
    SeenKeepsOwners(db, d, p);
    OwnedCurrent(Seen(db, d, p.file), d);
    if SameContent(db, d, p.file) {
      WrittenIndexOk(db, d, Seen(db, d, p.file));
    } else {
      ExtendedIndexOk(db, d, Seen(db, d, p.file), p);
    }
  }

  lemma NewKeepsOwners(db: Db, p: Poll)
    ensures KeepsOwners(db, NewDocument(db, p.file)) && NextId(db.docs) in NewDocument(db, p.file).docs
  {
    hide NextId;
  }

  lemma VacantIndexOk(db: Db, p: Poll)
    requires IndexOk(db) && Untouched(db, p.file).None? && !Moved(db, p.file, p.files) && !Occupied(db, p.file.at)
    ensures IndexOk(Ingest(db, p).0)
  {
    hide *;
    VacantIs(db, p);
    NewKeepsOwners(db, p);
    ExtendedIndexOk(db, NextId(db.docs), NewDocument(db, p.file), p);
  }

  lemma CurrentsAreOwned(w: World, d: DocId)
    requires Reachable(w) && d in w.db.docs
    ensures CurrentOwned(w.db, d)
  {
    EveryReachableWorldIsOk(w);
    assert DocOk(w.db, d);
    hide NodesOk;
    hide PromotionOk;
  }

  lemma IngestIndexOk(w: World, p: Poll)
    requires Reachable(w) && IndexOk(w.db)
    ensures IndexOk(Ingest(w.db, p).0)
  {
    var db := w.db;
    ReachablePlaces(w);
    hide Reachable;
    hide IndexOk;
    hide PlacesOk;
    hide CurrentOwned;
    hide Ingest;
    if Untouched(db, p.file).Some? {
      var d := Untouched(db, p.file).value;
      UntouchedIs(db, p);
      CurrentsAreOwned(w, d);
      OwnedCurrent(db, d);
      hide *;
      RefreshedIndexOk(db, d, p.kept);
    } else if Moved(db, p.file, p.files) {
      var d :| d in db.docs && MovesFrom(db, d, p.file, p.files);
      hide *;
      CurrentsAreOwned(w, d);
      MovedIndexOk(db, d, p);
    } else if Occupied(db, p.file.at) {
      var d :| d in db.docs && Stands(db, d, p.file.at);
      hide *;
      CurrentsAreOwned(w, d);
      FoundIndexOk(db, d, p);
    } else {
      hide *;
      VacantIndexOk(db, p);
    }
  }

  lemma TombstoneKeepsOwners(db: Db, d: DocId, now: int)
    ensures KeepsOwners(db, Tombstone(db, d, now).0)
  {
    hide Linked;
    hide LastNumber;
    hide Largest;
  }

  lemma AbsentKeepsOwners(db: Db, d: DocId, confirmPolls: int, now: int)
    ensures KeepsOwners(db, ReconcileMissing(db, d, confirmPolls, now).0)
  {
    if d in db.docs {
      TombstoneKeepsOwners(MarkUnavailable(db, d), d, now);
    }
    hide Tombstone;
  }

  lemma PublishKeepsOwners(db: Db, r: RevId, vectors: bool)
    ensures KeepsOwners(db, Publish(db, r, vectors).0)
  {
    hide Linked;
    hide ChunkLinks;
  }

  lemma StepIndexOk(w: World, step: Step)
    requires Reachable(w) && IndexOk(w.db) && Enabled(w, step)
    ensures IndexOk(Next(w, step).db)
  {
    var after := Next(w, step).db;
    hide IndexOk;
    match step
    case IngestFile(p) =>
      IngestIndexOk(w, p);
      IngestStepIs(w, p);
      hide Ingest;
    case Absent(d, confirmPolls, now) =>
      AbsentKeepsOwners(w.db, d, confirmPolls, now);
      hide ReconcileMissing;
      OwnersKept(w.db, after);
    case Prune(d, retention, now) =>
      PruneIndexOk(w.db, d, retention, now);
      hide PruneDocument;
    case PublishResult(r, vectors) =>
      PublishKeepsOwners(w.db, r, vectors);
      hide Publish;
      OwnersKept(w.db, after);
    case _ =>
      assert KeepsOwners(w.db, after);
      OwnersKept(w.db, after);
  }

  lemma {:induction false} RunIndexOk(from: World, steps: seq<Step>, to: World)
    requires Reachable(from) && IndexOk(from.db) && Run(from, steps, to)
    ensures IndexOk(to.db)
    decreases |steps|
  {
    hide Reachable;
    hide IndexOk;
    hide Next;
    hide Enabled;
    if steps != [] {
      StepIndexOk(from, steps[0]);
      ReachableNext(from, steps[0]);
      RunIndexOk(Next(from, steps[0]), steps[1..], to);
    }
  }

  /** In every reachable state each link row names a document and a revision of it that is still there. */
  lemma LinkRowsNeverDangle(w: World)
    requires Reachable(w)
    ensures IndexOk(w.db)
  {
    var steps :| Run(INITIAL, steps, w);
    InitialIsReachable();
    hide Reachable;
    RunIndexOk(INITIAL, steps, w);
  }

  // ---------------------------------------------------------------- which rows an ingest leaves

  /** The row is one of document `d`'s current revision. */
  predicate IsCurrentLink(db: Db, d: DocId, row: IndexRow)
    requires d in db.docs
  {
    row.document == d && db.docs[d].current == Some(row.revision) && row.target in CurrentTargets(db, d)
  }

  /** A rebuild leaves the rows of every other document, and exactly the current links of this one. */
  lemma IndexedRows(db: Db, d: DocId, changed: bool, row: IndexRow)
    requires d in db.docs && db.docs[d].current.Some? && Indexable(db, d, changed)
    ensures row in Indexed(db, d, changed).index <==>
              if Rebuilds(db, d, changed) && row.document == d then IsCurrentLink(db, d, row) else row in db.index
  {
    var targets := CurrentTargets(db, d);
    if Rebuilds(db, d, changed) {
      AllFit(targets);
      hide CurrentTargets;
      assert targets[..Fitting(targets)] == targets;
    }
  }

  lemma RepeatIsNotDistinct(targets: seq<string>, k: nat)
    requires k < |targets| && targets[k] in targets[..k]
    ensures !Lists.Distinct(targets)
  {
    var i :| 0 <= i < k && targets[..k][i] == targets[k];
    assert targets[i] == targets[k];
  }

  lemma AllFit(targets: seq<string>)
    ensures Lists.Distinct(targets) ==> Fitting(targets) == |targets|
  {
    var k := Fitting(targets);
    hide Lists.Distinct;
    if k < |targets| {
      RepeatIsNotDistinct(targets, k);
    }
  }

  /** Pruning a document takes link rows only with their revisions. */
  lemma PrunedRows(db: Db, d: DocId, retention: Retention, now: int, row: IndexRow)
    requires IndexOk(db)
    ensures var after := PruneDocument(db, d, retention, now);
            row in after.index <==> row in db.index && row.revision in after.revisions
  {
    hide Prunable;
  }

  /** A new revision of an index puts exactly the links of its content in place of the document's rows; every other
      row stays unless its revision is pruned. */
  lemma ExtendedRows(db: Db, d: DocId, begun: Db, p: Poll, row: IndexRow)
    requires IndexOk(db) && KeepsOwners(db, begun) && begun.index == db.index && d in begun.docs
    requires begun.docs[d].at == p.file.at && Extended(db, d, begun, p).1.Committed?
    ensures var after := Extended(db, d, begun, p).0;
            && d in after.docs
            && (p.file.at.path == "MEMORY.md" && row.document == d ==>
                  (row in after.index <==>
                     after.docs[d].current == Some(row.revision) && row.target in p.file.text.targets))
            && (!(p.file.at.path == "MEMORY.md" && row.document == d) ==>
                  (row in after.index <==> row in db.index && row.revision in after.revisions))
  {
    var grown := IngestRevision(begun, d, p.file, p.now);
    hide *;
    OwnersKept(db, begun);
    GrownKeepsOwners(begun, d, p);
    OwnersKept(begun, grown);
    GrownTargets(begun, d, p);
    ExtendedGrown(db, d, begun, p);
    IndexedThenPruned(grown, d, p, row);
  }

  lemma ExtendedGrown(db: Db, d: DocId, begun: Db, p: Poll)
    requires d in begun.docs && Extended(db, d, begun, p).1.Committed?
    requires d in IngestRevision(begun, d, p.file, p.now).docs
    ensures var grown := IngestRevision(begun, d, p.file, p.now);
            && Indexable(grown, d, true)
            && Extended(db, d, begun, p).0 == PruneDocument(Indexed(grown, d, true), d, p.retention, p.now)
  {
    hide IngestRevision;
    hide Indexed;
    hide Indexable;
    hide PruneDocument;
  }

  lemma IndexedThenPruned(grown: Db, d: DocId, p: Poll, row: IndexRow)
    requires IndexOk(grown) && CurrentOwned(grown, d) && Indexable(grown, d, true)
    ensures var after := PruneDocument(Indexed(grown, d, true), d, p.retention, p.now);
            && d in after.docs && after.docs[d] == grown.docs[d]
            && (row in after.index <==>
                  if grown.docs[d].at.path == "MEMORY.md" && row.document == d then IsCurrentLink(grown, d, row)
                  else row in grown.index && row.revision in after.revisions)
  {
    var indexed := Indexed(grown, d, true);
    IndexedIndexOk(grown, d, true);
    IndexedRows(grown, d, true, row);
    IndexKeepsDocs(grown, d, true);
    IndexedRevisions(grown, d, true);
    assert CurrentOwned(indexed, d);
    PrunedRows(indexed, d, p.retention, p.now, row);
    PruneKeepsOwned(indexed, d, p.retention, p.now);
    PruneKeepsDocs(indexed, d, p.retention, p.now);
    hide Indexed;
    hide Indexable;
    hide PruneDocument;
    hide IndexOk;
    hide CurrentTargets;
  }

  lemma IndexedRevisions(db: Db, d: DocId, changed: bool)
    requires d in db.docs
    ensures Indexed(db, d, changed).revisions == db.revisions
  {
    hide Fitting;
    hide CurrentTargets;
  }

  lemma GrownTargets(begun: Db, d: DocId, p: Poll)
    requires d in begun.docs
    ensures var grown := IngestRevision(begun, d, p.file, p.now);
            && d in grown.docs && CurrentTargets(grown, d) == p.file.text.targets && grown.index == begun.index
            && grown.docs[d].at == begun.docs[d].at
  {
    hide LastNumber;
    hide Largest;
  }

  // ---------------------------------------------------------------- which files are taken for untouched

  /** An active document whose own file this is, read at the same time and size. */
  predicate Stamped(db: Db, d: DocId, file: File) {
    && d in db.docs && db.docs[d].state == Active
    && db.docs[d].sourcePath == file.sourcePath && db.docs[d].at.path == file.at.path
    && (file.declared ==> db.docs[d].at.repository == file.at.repository)
    && db.docs[d].current.Some? && db.docs[d].current.value in db.revisions
    && match db.revisions[db.docs[d].current.value].disk
       case None => false
       case Some(disk) => disk.mtime == file.disk.mtime && disk.size == file.disk.size
  }

  /** A file is taken for untouched exactly if the first document with its stamp was read from the same content. */
  lemma UntouchedIff(db: Db, file: File, d: DocId)
    ensures Untouched(db, file) == Some(d) <==>
              && Stamped(db, d, file) && (forall e :: e in db.docs && Stamped(db, e, file) ==> d <= e)
              && db.revisions[db.docs[d].current.value].disk.value.source == file.disk.source
  {
    var same := set e: DocId | e in db.docs && SameStamp(db, e, file);
    forall e | e in db.docs ensures SameStamp(db, e, file) <==> Stamped(db, e, file) {}
    assert forall e :: e in same <==> e in db.docs && Stamped(db, e, file);
    hide SameStamp;
    hide Stamped;
    if same != {} {
      var least := Sorting.Least(same, (a: nat, b: nat) => a < b);
      assert Stamped(db, least, file) && forall e :: e in same ==> least <= e;
    }
  }
}
