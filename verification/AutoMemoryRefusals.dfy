/** Which ingests raise, what they leave behind, and runs that show each way. */
module AutoMemoryRefusals {
  import opened Options
  import Lists
  import opened RowIds
  import opened AutoMemory
  import opened AutoMemoryRuns
  import opened AutoMemoryTheorems
  import opened AutoMemoryPaths
  import Sorting

  // ---------------------------------------------------------------- the cases

  /** Document `d` was created at `at` and now stands elsewhere. */
  predicate CreatedAndLeft(db: Db, d: DocId, at: Identity) {
    CreatedAt(db, d, at) && !Stands(db, d, at)
  }

  /** The content moved here from a vanished file while this path has a document of its own; or it did not move, no
      document stands here, and the one created here has moved away. */
  predicate IdentityTaken(db: Db, p: Poll) {
    if Moved(db, p.file, p.files) then Occupied(db, p.file.at)
    else !Occupied(db, p.file.at) && exists d :: d in db.docs && CreatedAndLeft(db, d, p.file.at)
  }

  /** Content that is not new here is linked only if no link row is left, for a moved document after pruning. */
  predicate LinksAreDue(db: Db, p: Poll) {
    if Moved(db, p.file, p.files) then exists d :: d in db.docs && MovesFrom(db, d, p.file, p.files)
                                                && Unindexed(Landed(db, d, p), d)
    else forall d :: d in db.docs && Stands(db, d, p.file.at) && SameContent(db, d, p.file) ==> Unindexed(db, d)
  }

  /** An index without link rows whose current revision repeats a target. */
  predicate CannotBeIndexed(db: Db, d: DocId)
    requires d in db.docs
  {
    && db.docs[d].at.path == INDEX_LOGICAL_PATH && Unindexed(db, d) && !Lists.Distinct(CurrentTargets(db, d))
  }

  lemma IndexableIff(db: Db, d: DocId)
    requires d in db.docs
    ensures Indexable(db, d, false) <==> !CannotBeIndexed(db, d)
  {
    hide Unindexed;
    hide CurrentTargets;
  }

  lemma GrownIsIndexable(begun: Db, d: DocId, p: Poll)
    requires d in begun.docs && begun.docs[d].at == p.file.at
    ensures Indexable(IngestRevision(begun, d, p.file, p.now), d, true) <==> !RepeatsTarget(p.file)
  {
    hide LastNumber;
    hide NextId;
    hide Lists.Distinct;
  }

  lemma ExtendedRaises(db: Db, d: DocId, begun: Db, p: Poll)
    requires d in begun.docs && begun.docs[d].at == p.file.at
    ensures var (after, result) := Extended(db, d, begun, p);
            && (result.Raised? <==> RepeatsTarget(p.file))
            && (result.Raised? ==> (after, result) == (db, Raised(RepeatedTarget)))
  {
    GrownIsIndexable(begun, d, p);
    hide IngestRevision;
    hide PruneDocument;
    hide Indexed;
    hide Indexable;
    hide RepeatsTarget;
  }

  lemma UntouchedRaises(db: Db, p: Poll, d: DocId)
    requires Untouched(db, p.file) == Some(d)
    ensures var (after, result) := Ingest(db, p);
            && (result.Raised? <==> CannotBeIndexed(db, d))
            && (result.Raised? ==>
                  result == Raised(RepeatedTarget) && after == if p.kept then Indexed(db, d, false) else db)
  {
    IndexableIff(db, d);
    hide Untouched;
    hide Indexed;
    hide Indexable;
    hide CannotBeIndexed;
  }

  lemma HashKept(db: Db, gone: set<RevId>, r: RevId)
    requires r in db.revisions && r !in gone
    ensures HashOf(WithoutRevisions(db, gone), Some(r)) == HashOf(db, Some(r))
  {
  }

  lemma LandedContent(db: Db, d: DocId, p: Poll)
    requires d in db.docs && RenameSource(db, d, p.file)
    ensures var landed := Landed(db, d, p);
            landed.docs[d].at == p.file.at && CurrentTargets(landed, d) == p.file.text.targets
  {
    var moved := RenameTo(db, d, p.file, p.now);
    assert moved.docs[d].at == p.file.at && HashOf(moved, moved.docs[d].current) == Some(Digest(p.file.text));
    hide RenameTo;
    hide RenameSource;
    PrunableIsUnprotected(moved, d, p.retention, p.now);
    hide Prunable;
    HashKept(moved, Prunable(moved, d, p.retention, p.now), moved.docs[d].current.value);
  }

  lemma MovedRaises(db: Db, d: DocId, p: Poll)
    requires Untouched(db, p.file).None? && d in db.docs && MovesFrom(db, d, p.file, p.files)
    ensures var (after, result) := Ingest(db, p);
            && (Occupied(db, p.file.at) ==> (after, result) == (db, Raised(UniqueViolation)))
            && (!Occupied(db, p.file.at) ==>
                  && (result.Raised? <==> RepeatsTarget(p.file) && Unindexed(Landed(db, d, p), d))
                  && (result.Raised? ==>
                        && result == Raised(RepeatedTarget)
                        && after == if p.kept then Indexed(Landed(db, d, p), d, false) else Landed(db, d, p)))
  {
    assert RenameSource(db, d, p.file);
    MovedIs(db, d, p);
    LandedContent(db, d, p);
    hide Landed;
    hide Ingest;
    hide Untouched;
    hide MovesFrom;
    hide RenameSource;
    hide Occupied;
    IndexableIff(Landed(db, d, p), d);
    hide Indexed;
    hide Indexable;
    hide Unindexed;
    hide CurrentTargets;
  }

  lemma FoundRaises(db: Db, d: DocId, p: Poll)
    requires PlacesOk(db) && Untouched(db, p.file).None? && !Moved(db, p.file, p.files) && Stands(db, d, p.file.at)
    ensures var (after, result) := Ingest(db, p);
            && (result.Raised? <==> RepeatsTarget(p.file) && (SameContent(db, d, p.file) ==> Unindexed(db, d)))
            && (result.Raised? ==> (after, result) == (db, Raised(RepeatedTarget)))
  {
    var seen := Seen(db, d, p.file);
    FoundIs(db, d, p);
    hide PlacesOk;
    hide Ingest;
    hide Untouched;
    hide Moved;
    if SameContent(db, d, p.file) {
      assert CurrentTargets(seen, d) == p.file.text.targets;
      assert Unindexed(seen, d) <==> Unindexed(db, d);
      hide SameContent;
      hide CurrentTargets;
      IndexableIff(seen, d);
      hide Indexed;
      hide Indexable;
      hide Unindexed;
    } else {
      ExtendedRaises(db, d, seen, p);
      hide Extended;
    }
  }

  lemma VacantRaises(db: Db, p: Poll)
    requires Untouched(db, p.file).None? && !Moved(db, p.file, p.files) && !Occupied(db, p.file.at)
    ensures var (after, result) := Ingest(db, p);
            && ((exists d :: CreatedAt(db, d, p.file.at)) ==> (after, result) == (db, Raised(UniqueViolation)))
            && ((forall d :: !CreatedAt(db, d, p.file.at)) ==>
                  && (result.Raised? <==> RepeatsTarget(p.file))
                  && (result.Raised? ==> (after, result) == (db, Raised(RepeatedTarget))))
  {
    VacantIs(db, p);
    ExtendedRaises(db, NextId(db.docs), NewDocument(db, p.file), p);
    hide Ingest;
    hide Extended;
    hide RepeatsTarget;
  }

  // ---------------------------------------------------------------- the exact condition

  /** An ingest raises exactly in these cases. A file taken for untouched raises if its index has no link rows and
      repeats a target. Any other raises if the identity is taken, or if it is an index that repeats a target whose
      links are due. */
  lemma IngestRefusedIff(w: World, p: Poll)
    requires Reachable(w)
    ensures var same, result := Untouched(w.db, p.file), Ingest(w.db, p).1;
            && (result == Raised(UniqueViolation) <==> same.None? && IdentityTaken(w.db, p))
            && (result == Raised(RepeatedTarget) <==>
                  if same.Some? then CannotBeIndexed(w.db, same.value)
                  else !IdentityTaken(w.db, p) && RepeatsTarget(p.file) && LinksAreDue(w.db, p))
            && (result.Raised? ==> result.error in {UniqueViolation, RepeatedTarget})
    ensures forall d, e :: Stands(w.db, d, p.file.at) && Stands(w.db, e, p.file.at) ==> d == e
    ensures forall d, e :: CreatedAt(w.db, d, p.file.at) && CreatedAt(w.db, e, p.file.at) ==> d == e
  {
    ReachablePlaces(w);
    hide Reachable;
    if Untouched(w.db, p.file).Some? {
      UntouchedRaises(w.db, p, Untouched(w.db, p.file).value);
      hide *;
    } else {
      ReadRaises(w.db, p);
      hide *;
    }
    forall d, e | Stands(w.db, d, p.file.at) && Stands(w.db, e, p.file.at) ensures d == e {
      OnePerPlace(w.db, d, e, p.file.at);
    }
    forall d, e | CreatedAt(w.db, d, p.file.at) && CreatedAt(w.db, e, p.file.at) ensures d == e {
      OnePerPlace(w.db, d, e, p.file.at);
    }
  }

  lemma OnePerPlace(db: Db, d: DocId, e: DocId, at: Identity)
    requires PlacesOk(db)
    ensures Stands(db, d, at) && Stands(db, e, at) ==> d == e
    ensures CreatedAt(db, d, at) && CreatedAt(db, e, at) ==> d == e
  {
  }

  lemma ReadRaises(db: Db, p: Poll)
    requires PlacesOk(db) && Untouched(db, p.file).None?
    ensures var result := Ingest(db, p).1;
            && (result == Raised(UniqueViolation) <==> IdentityTaken(db, p))
            && (result == Raised(RepeatedTarget) <==>
                  !IdentityTaken(db, p) && RepeatsTarget(p.file) && LinksAreDue(db, p))
            && (result.Raised? ==> result.error in {UniqueViolation, RepeatedTarget})
  {
    hide Ingest;
    hide PlacesOk;
    hide Untouched;
    hide RepeatsTarget;
    hide Landed;
    hide Unindexed;
    hide SameContent;
    if Moved(db, p.file, p.files) {
      var d :| d in db.docs && MovesFrom(db, d, p.file, p.files);
      MovedRaises(db, d, p);
      OnlyMove(db, p);
    } else if Occupied(db, p.file.at) {
      var d :| d in db.docs && Stands(db, d, p.file.at);
      FoundRaises(db, d, p);
      forall e | e in db.docs && Stands(db, e, p.file.at) ensures e == d { OnePerPlace(db, d, e, p.file.at); }
    } else {
      VacantRaises(db, p);
      forall d | CreatedAt(db, d, p.file.at) ensures CreatedAndLeft(db, d, p.file.at) {
        assert !Stands(db, d, p.file.at);
      }
    }
  }

  lemma OnlyMove(db: Db, p: Poll)
    ensures forall d, e ::
              d in db.docs && e in db.docs && MovesFrom(db, d, p.file, p.files) && MovesFrom(db, e, p.file, p.files) ==>
              d == e
  {
  }

  /** What an ingest that raised leaves: nothing, but for a move, which was committed before its links were rebuilt,
      and for link rows that someone commits later. */
  lemma RaisedLeaves(w: World, p: Poll)
    requires Reachable(w) && Ingest(w.db, p).1.Raised?
    ensures var same, after := Untouched(w.db, p.file), Ingest(w.db, p).0;
            if same.Some? then after == if p.kept then Indexed(w.db, same.value, false) else w.db
            else if Moved(w.db, p.file, p.files) && !Occupied(w.db, p.file.at) then
              exists d :: d in w.db.docs && MovesFrom(w.db, d, p.file, p.files)
                && after.docs == MovedTo(w.db, d, p.file)
                && after == if p.kept then Indexed(Landed(w.db, d, p), d, false) else Landed(w.db, d, p)
            else after == w.db
  {
    var db := w.db;
    ReachablePlaces(w);
    hide Reachable;
    hide Ingest;
    hide Indexed;
    hide PlacesOk;
    hide Untouched;
    hide Landed;
    if Untouched(db, p.file).Some? {
      UntouchedRaises(db, p, Untouched(db, p.file).value);
    } else if Moved(db, p.file, p.files) {
      var d :| d in db.docs && MovesFrom(db, d, p.file, p.files);
      MovedRaises(db, d, p);
      IngestDocs(db, p);
    } else if Occupied(db, p.file.at) {
      var d :| d in db.docs && Stands(db, d, p.file.at);
      FoundRaises(db, d, p);
    } else {
      VacantRaises(db, p);
    }
  }

  /** After a document is renamed away from the path it was created at, its old identity refuses everything there
      that is read and is not itself a rename from a vanished file. */
  lemma RenameStrandsOldPath(w: World, d: DocId, p: Poll, again: Poll)
    requires Reachable(w) && Untouched(w.db, p.file).None?
    requires d in w.db.docs && MovesFrom(w.db, d, p.file, p.files) && !Occupied(w.db, p.file.at)
    requires Stands(w.db, d, again.file.at) && CreatedAt(w.db, d, again.file.at)
    ensures var after := Ingest(w.db, p).0;
            && Stands(after, d, p.file.at) && !Occupied(after, again.file.at)
            && (Ingest(after, again).1 == Raised(UniqueViolation) <==>
                  Untouched(after, again.file).None? && !Moved(after, again.file, again.files))
  {
    var after := Ingest(w.db, p).0;
    ReachablePlaces(w);
    IngestDocs(w.db, p);
    hide Ingest;
    hide Untouched;
    assert after.docs == MovedTo(w.db, d, p.file);
    Vacated(w.db, d, again.file.at, p.file, after);
    assert Reachable(Next(w, IngestFile(p))) && Next(w, IngestFile(p)).db == after by {
      ReachableNext(w, IngestFile(p));
    }
    hide Reachable;
    hide PlacesOk;
    IngestRefusedIff(Next(w, IngestFile(p)), again);
    hide Next;
    hide Moved;
    hide MovesFrom;
    hide LinksAreDue;
    hide CannotBeIndexed;
    assert CreatedAndLeft(after, d, again.file.at);
  }

  lemma Vacated(db: Db, d: DocId, at: Identity, file: File, after: Db)
    requires PlacesOk(db) && Stands(db, d, at) && CreatedAt(db, d, at) && !Occupied(db, file.at)
    requires after.docs == MovedTo(db, d, file)
    ensures Stands(after, d, file.at) && CreatedAt(after, d, at) && !Occupied(after, at)
    ensures !Stands(after, d, at)
  {
    assert !Stands(db, d, file.at);
    forall x | x in after.docs ensures !Stands(after, x, at) {}
  }
}
