/** What a successful ingest records, and that everything recorded waits to be enriched. */
module AutoMemoryRecords {
  import opened Options
  import Lists
  import opened RowIds
  import opened AutoMemory
  import opened AutoMemoryRuns
  import opened AutoMemoryTheorems
  import opened AutoMemoryPaths
  import opened AutoMemoryRefusals
  import Sorting

  // ---------------------------------------------------------------- one new revision

  /** The document has a revision that was counted. */
  predicate HasNumber(db: Db, d: DocId) {
    exists x :: x in db.revisions && db.revisions[x].document == d && db.revisions[x].number > 0
  }

  /** Document `d` stands at the file's path with the file's content as its current revision, and that revision waits
      in the queue with the document pending; the probe's is ready at once and has no queue row. */
  predicate Recorded(db: Db, after: Db, d: DocId, p: Poll) {
    && d in after.docs && after.docs[d].current.Some? && after.docs[d].current.value in after.revisions
    && var doc, r := after.docs[d], after.docs[d].current.value;
    && doc.at == p.file.at && doc.sourcePath == p.file.sourcePath && doc.state == Active
    && r !in db.revisions
    && after.revisions[r] == Revision(d, after.revisions[r].number, Digest(p.file.text), after.revisions[r].kind,
                                      p.file.chunks, Some(p.file.disk), p.now)
    && (forall x :: x in db.revisions && db.revisions[x].document == d ==>
          db.revisions[x].number < after.revisions[r].number)
    && (after.revisions[r].kind == if HasNumber(db, d) then Update else Create)
    && ((forall x :: x in db.revisions ==> db.revisions[x].document != d) ==> after.revisions[r].number == 1)
    && (if p.file.at.repository == PROBE_REPOSITORY then r !in after.queue && doc.projection == Ready
        else r in after.queue && after.queue[r] == QueueRow(Waiting, 0) && doc.projection == Pending)
  }

  /** `begun` is `db` with document `d` inserted or touched for this file. */
  predicate Begun(db: Db, begun: Db, d: DocId, p: Poll) {
    && d in begun.docs && begun == db.(docs := begun.docs)
    && begun.docs[d].at == p.file.at && begun.docs[d].sourcePath == p.file.sourcePath && begun.docs[d].state == Active
    && (forall r :: r in db.queue ==> r in db.revisions)
  }

  lemma NoNumber(db: Db, d: DocId)
    requires forall x :: x in db.revisions ==> db.revisions[x].document != d
    ensures LastNumber(db, d) == 0
  {
    assert RevisionsOf(db, d) == {};
  }

  lemma CountedIff(db: Db, d: DocId)
    ensures LastNumber(db, d) > 0 <==> HasNumber(db, d)
  {
    if HasNumber(db, d) {
      var x :| x in db.revisions && db.revisions[x].document == d && db.revisions[x].number > 0;
      assert x in RevisionsOf(db, d);
    }
  }

  lemma SameCount(db: Db, other: Db, d: DocId)
    requires db.revisions == other.revisions
    ensures HasNumber(db, d) == HasNumber(other, d)
  {
  }

  lemma GrownRecords(db: Db, begun: Db, d: DocId, p: Poll)
    requires Begun(db, begun, d, p)
    ensures Recorded(db, IngestRevision(begun, d, p.file, p.now), d, p)
  {
    if forall x :: x in db.revisions ==> db.revisions[x].document != d {
      NoNumber(begun, d);
    }
    CountedIff(begun, d);
    SameCount(db, begun, d);
    hide HasNumber;
    assert forall x :: x in RevisionsOf(begun, d) <==> x in db.revisions && db.revisions[x].document == d;
    hide RevisionsOf;
    hide LastNumber;
    hide Largest;
  }

  lemma IndexKeepsRecorded(db: Db, after: Db, d: DocId, p: Poll)
    requires Recorded(db, after, d, p)
    ensures d in after.docs && Recorded(db, Indexed(after, d, true), d, p)
  {
    hide Fitting;
    hide CurrentTargets;
  }

  lemma PruneKeepsRecorded(db: Db, after: Db, d: DocId, p: Poll)
    requires Recorded(db, after, d, p)
    ensures Recorded(db, PruneDocument(after, d, p.retention, p.now), d, p)
  {
    PrunableIsUnprotected(after, d, p.retention, p.now);
    hide Prunable;
    assert after.docs[d].current.value !in RevisionsOf(after, d) - Protected(after.docs[d]);
    hide RevisionsOf;
    hide Protected;
    DeletionKeepsRecorded(db, after, Prunable(after, d, p.retention, p.now), d, p);
  }

  lemma DeletionKeepsRecorded(db: Db, after: Db, gone: set<RevId>, d: DocId, p: Poll)
    requires Recorded(db, after, d, p) && after.docs[d].current.value !in gone
    ensures Recorded(db, WithoutRevisions(after, gone), d, p)
  {
  }

  lemma ExtendedRecords(db: Db, begun: Db, d: DocId, p: Poll)
    requires Begun(db, begun, d, p) && Extended(db, d, begun, p).1.Committed?
    ensures Extended(db, d, begun, p).1 == Committed(d) && Recorded(db, Extended(db, d, begun, p).0, d, p)
  {
    var grown := IngestRevision(begun, d, p.file, p.now);
    GrownRecords(db, begun, d, p);
    hide IngestRevision;
    IndexKeepsRecorded(db, grown, d, p);
    PruneKeepsRecorded(db, Indexed(grown, d, true), d, p);
    hide Recorded;
    hide Indexed;
    hide Indexable;
    hide PruneDocument;
  }

  // ---------------------------------------------------------------- pointers that stay

  /** Every document that was there keeps its pointers and its projection mark. */
  predicate SamePointersFor(db: Db, after: Db, d: DocId) {
    d in db.docs ==>
      && d in after.docs && after.docs[d].current == db.docs[d].current && after.docs[d].active == db.docs[d].active
      && after.docs[d].projection == db.docs[d].projection
  }

  lemma GrownOthers(begun: Db, d: DocId, p: Poll, e: DocId)
    requires d in begun.docs && e != d
    ensures var docs := IngestRevision(begun, d, p.file, p.now).docs;
            (e in docs <==> e in begun.docs) && (e in docs ==> docs[e] == begun.docs[e])
  {
    hide LastNumber;
    hide NextId;
  }

  lemma ExtendedOthers(db: Db, begun: Db, d: DocId, p: Poll, e: DocId)
    requires d in begun.docs && e != d && Undisturbed(db, begun, e)
    ensures Undisturbed(db, Extended(db, d, begun, p).0, e)
  {
    GrownOthers(begun, d, p, e);
    ExtendedIs(db, d, begun, p);
    hide Extended;
    hide IngestRevision;
  }

  /** The content is new here: read anew, not moved here, and not what the document here already has. */
  predicate IsNew(db: Db, p: Poll) {
    && Untouched(db, p.file).None? && !Moved(db, p.file, p.files)
    && forall d :: d in db.docs && Stands(db, d, p.file.at) ==> !SameContent(db, d, p.file)
  }

  /** Nothing happened to a document's pointers, and it is not a new one. */
  predicate Undisturbed(db: Db, after: Db, e: DocId) {
    SamePointersFor(db, after, e) && (e in after.docs ==> e in db.docs)
  }

  ghost predicate RecordsOnlyNew(db: Db, after: Db, result: Outcome<DocId, MemoryError>, p: Poll) {
    if result.Committed? && IsNew(db, p) then
      && Recorded(db, after, result.value, p)
      && (forall d :: Stands(db, d, p.file.at) ==> result.value == d)
      && forall e :: e != result.value ==> Undisturbed(db, after, e)
    else forall e :: Undisturbed(db, after, e)
  }

  lemma RecordsIs(db: Db, after: Db, result: Outcome<DocId, MemoryError>, p: Poll)
    ensures RecordsOnlyNew(db, after, result, p) <==>
              if result.Committed? && IsNew(db, p) then
                && Recorded(db, after, result.value, p)
                && (forall d :: Stands(db, d, p.file.at) ==> result.value == d)
                && forall e :: e != result.value ==> Undisturbed(db, after, e)
              else forall e :: Undisturbed(db, after, e)
  {
    hide Recorded;
    hide IsNew;
    hide Stands;
    hide Undisturbed;
  }

  /** Main result: a successful ingest of new content records it for the document it answers, which is the one that
      stands here if there is one, and moves no other document's pointers; any other ingest moves none at all. */
  lemma IngestRecords(w: World, p: Poll)
    requires Reachable(w)
    ensures RecordsOnlyNew(w.db, Ingest(w.db, p).0, Ingest(w.db, p).1, p)
  {
    ReachablePlaces(w);
    EveryReachableWorldIsOk(w);
    assert forall r :: r in w.db.queue ==> r in w.db.revisions;
    hide *;
    var db := w.db;
    RecordsIs(db, Ingest(db, p).0, Ingest(db, p).1, p);
    if Untouched(db, p.file).Some? {
      UntouchedPointers(db, p);
    } else if Moved(db, p.file, p.files) {
      MovedPointers(db, p);
    } else if Occupied(db, p.file.at) {
      FoundRecords(db, p);
    } else {
      VacantRecords(db, p);
    }
  }

  lemma SameDocsPointers(db: Db, after: Db)
    requires after.docs == db.docs
    ensures forall e :: Undisturbed(db, after, e)
  {
  }

  lemma UntouchedPointers(db: Db, p: Poll)
    requires Untouched(db, p.file).Some?
    ensures !IsNew(db, p)
    ensures forall e :: Undisturbed(db, Ingest(db, p).0, e)
  {
    UntouchedDocs(db, p);
    hide Ingest;
    hide Untouched;
    SameDocsPointers(db, Ingest(db, p).0);
  }

  lemma MovedPointers(db: Db, p: Poll)
    requires PlacesOk(db) && Untouched(db, p.file).None? && Moved(db, p.file, p.files)
    ensures !IsNew(db, p)
    ensures forall e :: Undisturbed(db, Ingest(db, p).0, e)
  {
    var d :| d in db.docs && MovesFrom(db, d, p.file, p.files);
    IngestDocs(db, p);
    assert !IsNew(db, p);
    hide *;
    if Occupied(db, p.file.at) {
      SameDocsPointers(db, Ingest(db, p).0);
    } else {
      MovedDocsPointers(db, d, p.file, Ingest(db, p).0);
    }
  }

  lemma MovedDocsPointers(db: Db, d: DocId, file: File, after: Db)
    requires d in db.docs && after.docs == MovedTo(db, d, file)
    ensures forall e :: Undisturbed(db, after, e)
  {
  }

  lemma SeenBegins(db: Db, d: DocId, p: Poll)
    requires Stands(db, d, p.file.at) && forall r :: r in db.queue ==> r in db.revisions
    ensures Begun(db, Seen(db, d, p.file), d, p)
    ensures forall e :: Undisturbed(db, Seen(db, d, p.file), e)
  {
  }

  lemma FoundRecords(db: Db, p: Poll)
    requires PlacesOk(db) && Untouched(db, p.file).None? && !Moved(db, p.file, p.files) && Occupied(db, p.file.at)
    requires forall r :: r in db.queue ==> r in db.revisions
    ensures RecordsOnlyNew(db, Ingest(db, p).0, Ingest(db, p).1, p)
  {
    var d :| d in db.docs && Stands(db, d, p.file.at);
    var seen := Seen(db, d, p.file);
    FoundIs(db, d, p);
    SeenBegins(db, d, p);
    forall e | Stands(db, e, p.file.at) ensures e == d { OnePerPlace(db, d, e, p.file.at); }
    assert IsNew(db, p) <==> !SameContent(db, d, p.file);
    hide *;
    RecordsIs(db, Ingest(db, p).0, Ingest(db, p).1, p);
    if SameContent(db, d, p.file) {
      WrittenDocs(db, d, seen, false);
      PointersOf(db, seen, Ingest(db, p).0);
    } else if Extended(db, d, seen, p).1.Committed? {
      ExtendedRecords(db, seen, d, p);
      forall e | e != d
        ensures Undisturbed(db, Ingest(db, p).0, e)
      {
        ExtendedOthers(db, seen, d, p, e);
      }
    } else {
      ExtendedIs(db, d, seen, p);
      SameDocsPointers(db, Ingest(db, p).0);
    }
  }

  lemma PointersOf(db: Db, seen: Db, after: Db)
    requires after.docs in {db.docs, seen.docs}
    requires forall e :: Undisturbed(db, seen, e)
    ensures forall e :: Undisturbed(db, after, e)
  {
    forall e ensures Undisturbed(db, after, e) {
      assert Undisturbed(db, seen, e);
    }
  }

  lemma NewBegins(db: Db, p: Poll)
    requires forall r :: r in db.queue ==> r in db.revisions
    ensures var d, begun := NextId(db.docs), NewDocument(db, p.file);
            && Begun(db, begun, d, p)
            && forall e :: e != d ==> Undisturbed(db, begun, e)
  {
    hide NextId;
  }

  lemma VacantRecords(db: Db, p: Poll)
    requires Untouched(db, p.file).None? && !Moved(db, p.file, p.files) && !Occupied(db, p.file.at)
    requires forall r :: r in db.queue ==> r in db.revisions
    ensures RecordsOnlyNew(db, Ingest(db, p).0, Ingest(db, p).1, p)
  {
    var d, begun := NextId(db.docs), NewDocument(db, p.file);
    VacantIs(db, p);
    NewBegins(db, p);
    NobodyStands(db, p.file.at);
    assert IsNew(db, p);
    hide *;
    RecordsIs(db, Ingest(db, p).0, Ingest(db, p).1, p);
    if exists x :: CreatedAt(db, x, p.file.at) {
      SameDocsPointers(db, Ingest(db, p).0);
    } else if Extended(db, d, begun, p).1.Committed? {
      ExtendedRecords(db, begun, d, p);
      forall e | e != d
        ensures Undisturbed(db, Ingest(db, p).0, e)
      {
        ExtendedOthers(db, begun, d, p, e);
      }
    } else {
      ExtendedIs(db, d, begun, p);
      SameDocsPointers(db, Ingest(db, p).0);
    }
  }

  lemma NobodyStands(db: Db, at: Identity)
    requires !Occupied(db, at)
    ensures forall d :: !Stands(db, d, at)
  {
  }

  // ---------------------------------------------------------------- everything recorded is queued

  predicate HoldsContent(db: Db, r: Option<RevId>) {
    r.Some? && r.value in db.revisions && db.revisions[r.value].hash.Digest?
  }

  /** The current content of a document is in the queue, unless it is the probe's. */
  predicate QueuedOk(db: Db, d: DocId)
    requires d in db.docs
  {
    db.docs[d].at.repository != PROBE_REPOSITORY && HoldsContent(db, db.docs[d].current) ==>
      db.docs[d].current.value in db.queue
  }

  ghost predicate AllQueued(db: Db) {
    forall d :: d in db.docs ==> QueuedOk(db, d)
  }

  /** No revision loses its queue row but with the revision itself. */
  predicate QueueKept(db: Db, after: Db) {
    forall r :: r in db.queue && r in after.revisions ==> r in after.queue
  }

  lemma KeptThrough(db: Db, mid: Db, after: Db)
    requires db.queue.Keys <= mid.queue.Keys && QueueKept(mid, after)
    ensures QueueKept(db, after)
  {
  }

  lemma PruneKept(db: Db, d: DocId, retention: Retention, now: int)
    ensures QueueKept(db, PruneDocument(db, d, retention, now))
  {
    hide Prunable;
  }

  lemma IndexedQueue(db: Db, d: DocId, changed: bool)
    requires d in db.docs
    ensures Indexed(db, d, changed).queue == db.queue
  {
    hide Fitting;
    hide CurrentTargets;
  }

  lemma RefreshedKept(db: Db, d: DocId, kept: bool)
    requires d in db.docs
    ensures Refreshed(db, d, kept).0.queue == db.queue
  {
    IndexedQueue(db, d, false);
    hide Indexed;
    hide Indexable;
  }

  lemma LandedKept(db: Db, d: DocId, p: Poll)
    requires d in db.docs
    ensures QueueKept(db, Landed(db, d, p))
  {
    assert RenameTo(db, d, p.file, p.now).queue == db.queue by {
      hide LastNumber;
      hide NextId;
    }
    PruneKept(RenameTo(db, d, p.file, p.now), d, p.retention, p.now);
    hide RenameTo;
    hide PruneDocument;
  }

  lemma GrownQueue(begun: Db, d: DocId, p: Poll)
    requires d in begun.docs
    ensures begun.queue.Keys <= IngestRevision(begun, d, p.file, p.now).queue.Keys
  {
    hide LastNumber;
    hide NextId;
  }

  lemma SameKept(db: Db)
    ensures QueueKept(db, db)
  {
  }

  lemma ExtendedKept(db: Db, d: DocId, begun: Db, p: Poll)
    requires d in begun.docs && begun.queue == db.queue && forall r :: r in db.queue ==> r in db.revisions
    ensures QueueKept(db, Extended(db, d, begun, p).0)
  {
    var grown := IngestRevision(begun, d, p.file, p.now);
    GrownQueue(begun, d, p);
    IndexedQueue(grown, d, true);
    PruneKept(Indexed(grown, d, true), d, p.retention, p.now);
    SameKept(db);
    hide IngestRevision;
    hide Indexed;
    hide Indexable;
    hide PruneDocument;
  }

  lemma IngestKept(w: World, p: Poll)
    requires Reachable(w)
    ensures QueueKept(w.db, Ingest(w.db, p).0)
  {
    var db := w.db;
    ReachablePlaces(w);
    EveryReachableWorldIsOk(w);
    assert forall r :: r in db.queue ==> r in db.revisions;
    SameKept(db);
    hide Reachable;
    hide Ok;
    hide PlacesOk;
    if Untouched(db, p.file).Some? {
      RefreshedKept(db, Untouched(db, p.file).value, p.kept);
      UntouchedIs(db, p);
      hide *;
      SameQueueKept(db, Ingest(db, p).0);
    } else if Moved(db, p.file, p.files) {
      var d :| d in db.docs && MovesFrom(db, d, p.file, p.files);
      hide *;
      MovedIs(db, d, p);
      LandedKept(db, d, p);
      RefreshedKept(Landed(db, d, p), d, p.kept);
      RefreshKeepsRevisions(Landed(db, d, p), d, p.kept);
      KeptOnTo(db, Landed(db, d, p), Ingest(db, p).0);
    } else if Occupied(db, p.file.at) {
      var d :| d in db.docs && Stands(db, d, p.file.at);
      hide Ingest;
      FoundIs(db, d, p);
      assert Seen(db, d, p.file).queue == db.queue;
      hide *;
      if SameContent(db, d, p.file) {
        WrittenKept(db, d, Seen(db, d, p.file), false);
        SameQueueKept(db, Ingest(db, p).0);
      } else {
        ExtendedKept(db, d, Seen(db, d, p.file), p);
      }
    } else {
      assert NewDocument(db, p.file).queue == db.queue;
      VacantIs(db, p);
      hide *;
      if exists d :: CreatedAt(db, d, p.file.at) {
        SameQueueKept(db, Ingest(db, p).0);
      } else {
        ExtendedKept(db, NextId(db.docs), NewDocument(db, p.file), p);
      }
    }
  }

  lemma UntouchedIs(db: Db, p: Poll)
    requires Untouched(db, p.file).Some?
    ensures Ingest(db, p) == Refreshed(db, Untouched(db, p.file).value, p.kept)
  {
    hide Untouched;
    hide Refreshed;
  }

  lemma SameQueueKept(db: Db, after: Db)
    requires after.queue == db.queue
    ensures QueueKept(db, after)
  {
  }

  lemma RefreshKeepsRevisions(db: Db, d: DocId, kept: bool)
    requires d in db.docs
    ensures Refreshed(db, d, kept).0.revisions == db.revisions
  {
    hide Fitting;
    hide CurrentTargets;
  }

  lemma KeptOnTo(db: Db, mid: Db, after: Db)
    requires after == db || (QueueKept(db, mid) && after.queue == mid.queue && after.revisions == mid.revisions)
    ensures QueueKept(db, after)
  {
  }

  lemma WrittenKept(db: Db, d: DocId, written: Db, changed: bool)
    requires d in written.docs && written.queue == db.queue
    ensures Written(db, d, written, changed).0.queue == db.queue
  {
    IndexedQueue(written, d, changed);
    hide Indexed;
    hide Indexable;
  }

  // ---------------------------------------------------------------- every step

  /** The document's pointer is where it was, or at a removal. */
  predicate PointerStays(db: Db, after: Db, d: DocId)
    requires d in after.docs
  {
    || (d in db.docs && after.docs[d].current == db.docs[d].current)
    || !HoldsContent(after, after.docs[d].current)
  }

  lemma StaysQueued(db: Db, after: Db, d: DocId)
    requires DbOk(db) && PlacesOk(db) && PlacesKept(db, after) && Grows(db, after) && QueueKept(db, after)
    requires d in after.docs && PointerStays(db, after, d) && (d in db.docs ==> QueuedOk(db, d))
    ensures QueuedOk(after, d)
  {
    if d in db.docs && after.docs[d].current == db.docs[d].current {
      assert DocOk(db, d) && PointerAdvances(db, after, d);
    }
    hide DocOk;
    hide LinkOk;
    hide RevisionOk;
    hide Settled;
  }

  lemma TombstonePointers(db: Db, d: DocId, now: int, e: DocId)
    requires e in Tombstone(db, d, now).0.docs
    ensures PointerStays(db, Tombstone(db, d, now).0, e)
    ensures Tombstone(db, d, now).0.queue == db.queue
  {
    hide Linked;
    hide LastNumber;
    hide NextId;
  }

  lemma AbsentPointers(db: Db, d: DocId, confirmPolls: int, now: int, e: DocId)
    requires e in ReconcileMissing(db, d, confirmPolls, now).0.docs
    ensures PointerStays(db, ReconcileMissing(db, d, confirmPolls, now).0, e)
    ensures ReconcileMissing(db, d, confirmPolls, now).0.queue == db.queue
  {
    if d in db.docs {
      var marked := MarkUnavailable(db, d);
      if e in Tombstone(marked, d, now).0.docs {
        TombstonePointers(marked, d, now, e);
      }
    }
    hide Tombstone;
  }

  lemma PublishPointers(db: Db, r: RevId, vectors: bool)
    ensures var after := Publish(db, r, vectors).0;
            && after.queue.Keys == db.queue.Keys && after.docs.Keys == db.docs.Keys
            && forall d :: d in db.docs ==> after.docs[d].current == db.docs[d].current
  {
    hide Linked;
    hide ChunkLinks;
  }

  /** Every step but an ingest keeps queue rows with their revisions, and moves pointers only to removals. */
  lemma QuietStep(w: World, step: Step, e: DocId)
    requires Enabled(w, step) && !step.IngestFile? && e in Next(w, step).db.docs
    ensures QueueKept(w.db, Next(w, step).db) && PointerStays(w.db, Next(w, step).db, e)
  {
    match step
    case Absent(d, confirmPolls, now) =>
      AbsentPointers(w.db, d, confirmPolls, now, e);
      hide ReconcileMissing;
    case Prune(d, retention, now) =>
      PruneKept(w.db, d, retention, now);
      hide Prunable;
    case PublishResult(r, vectors) =>
      PublishPointers(w.db, r, vectors);
      hide Publish;
    case _ =>
  }

  lemma StepQueued(w: World, step: Step)
    requires Reachable(w) && AllQueued(w.db) && Enabled(w, step)
    ensures AllQueued(Next(w, step).db)
  {
    var after := Next(w, step).db;
    EveryReachableWorldIsOk(w);
    ReachablePlaces(w);
    StepSound(w, step);
    StepPlaces(w, step);
    assert DbOk(w.db) && Grows(w.db, after);
    forall d | d in after.docs ensures QueuedOk(after, d) {
      assert d in w.db.docs ==> QueuedOk(w.db, d);
      hide *;
      if step.IngestFile? {
        IngestStepIs(w, step.poll);
        IngestRecords(w, step.poll);
        RecordsFor(w.db, after, Ingest(w.db, step.poll).1, step.poll, d);
        IngestKept(w, step.poll);
        IngestQueued(w.db, step.poll, d);
      } else {
        QuietStep(w, step, d);
        StaysQueued(w.db, after, d);
      }
    }
  }

  lemma RecordsFor(db: Db, after: Db, result: Outcome<DocId, MemoryError>, p: Poll, d: DocId)
    requires RecordsOnlyNew(db, after, result, p)
    ensures || (result.Committed? && d == result.value && Recorded(db, after, d, p))
            || Undisturbed(db, after, d)
  {
    hide Recorded;
    hide Undisturbed;
    hide IsNew;
  }

  lemma IngestStepIs(w: World, p: Poll)
    ensures Enabled(w, IngestFile(p)) && Next(w, IngestFile(p)).db == Ingest(w.db, p).0
  {
    hide Ingest;
  }

  lemma IngestQueued(db: Db, p: Poll, d: DocId)
    requires DbOk(db) && PlacesOk(db) && PlacesKept(db, Ingest(db, p).0) && Grows(db, Ingest(db, p).0)
    requires d in Ingest(db, p).0.docs && (d in db.docs ==> QueuedOk(db, d)) && QueueKept(db, Ingest(db, p).0)
    requires var (after, result) := Ingest(db, p);
             || (result.Committed? && d == result.value && Recorded(db, after, d, p))
             || Undisturbed(db, after, d)
    ensures QueuedOk(Ingest(db, p).0, d)
  {
    var after := Ingest(db, p).0;
    hide Ingest;
    if Undisturbed(db, after, d) {
      hide QueuedOk;
      StaysQueued(db, after, d);
    } else {
      hide DbOk;
      hide PlacesOk;
      hide PlacesKept;
      hide Grows;
    }
  }

  lemma {:induction false} RunQueued(from: World, steps: seq<Step>, to: World)
    requires Reachable(from) && AllQueued(from.db) && Run(from, steps, to)
    ensures AllQueued(to.db)
    decreases |steps|
  {
    hide Reachable;
    hide AllQueued;
    hide Next;
    hide Enabled;
    if steps != [] {
      StepQueued(from, steps[0]);
      ReachableNext(from, steps[0]);
      RunQueued(Next(from, steps[0]), steps[1..], to);
    }
  }

  /** In every reachable state, each document whose current revision holds content has that revision in the queue,
      unless it is the probe's. */
  lemma CurrentContentIsQueued(w: World)
    requires Reachable(w)
    ensures AllQueued(w.db)
  {
    var steps :| Run(INITIAL, steps, w);
    InitialIsReachable();
    hide Reachable;
    RunQueued(INITIAL, steps, w);
  }
}
