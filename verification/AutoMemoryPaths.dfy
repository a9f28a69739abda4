/** Where documents stand and where they were created, and what one ingest does, case by case. */
module AutoMemoryPaths {
  import opened Options
  import opened RowIds
  import opened AutoMemory
  import opened AutoMemoryRuns
  import opened AutoMemoryTheorems
  import Sorting

  // ---------------------------------------------------------------- every path has one document

  /** No two documents share a path or an identity, and a document never leaves its repository. */
  ghost predicate PlacesOk(db: Db) {
    && (forall d, e :: d in db.docs && e in db.docs && d != e ==>
          db.docs[d].at != db.docs[e].at && db.docs[d].uuid != db.docs[e].uuid)
    && (forall d :: d in db.docs ==> db.docs[d].at.repository == db.docs[d].uuid.repository)
  }

  /** Documents stay what they were created as. */
  predicate SameIdentities(db: Db, after: Db) {
    forall d :: d in db.docs ==> d in after.docs && after.docs[d].uuid == db.docs[d].uuid
  }

  predicate SamePlaces(db: Db, after: Db) {
    && after.docs.Keys == db.docs.Keys
    && forall d :: d in db.docs ==> after.docs[d].uuid == db.docs[d].uuid && after.docs[d].at == db.docs[d].at
  }

  ghost predicate PlacesKept(db: Db, after: Db) {
    PlacesOk(after) && SameIdentities(db, after)
  }

  /** Document `d` is the only live one with this content at another path, and its file is gone. */
  predicate MovesFrom(db: Db, d: DocId, file: File, files: set<string>) {
    && RenameSource(db, d, file)
    && (forall e :: e in db.docs && RenameSource(db, e, file) ==> e == d)
    && db.docs[d].sourcePath !in files
  }

  predicate Moved(db: Db, file: File, files: set<string>) {
    exists d :: d in db.docs && MovesFrom(db, d, file, files)
  }

  predicate Stands(db: Db, d: DocId, at: Identity) {
    d in db.docs && db.docs[d].at == at
  }

  predicate Occupied(db: Db, at: Identity) {
    exists d :: d in db.docs && Stands(db, d, at)
  }

  predicate CreatedAt(db: Db, d: DocId, at: Identity) {
    d in db.docs && db.docs[d].uuid == at
  }

  lemma OnlySource(db: Db, d: DocId, file: File)
    ensures RenameSources(db, file) == {d} <==>
              RenameSource(db, d, file) && forall e :: e in db.docs && RenameSource(db, e, file) ==> e == d
  {
    var sources := RenameSources(db, file);
    assert forall e :: e in sources <==> e in db.docs && RenameSource(db, e, file);
    assert RenameSource(db, d, file) ==> d in db.docs;
    hide RenameSource;
    hide RenameSources;
    if sources == {d} {
      assert d in sources;
      forall e | e in db.docs && RenameSource(db, e, file) ensures e == d { assert e in sources; }
    }
    if RenameSource(db, d, file) && forall e :: e in db.docs && RenameSource(db, e, file) ==> e == d {
      assert forall e :: e in sources <==> e == d;
    }
  }

  lemma OccupiedIff(db: Db, at: Identity)
    ensures Occupied(db, at) <==> DocsAt(db, at) != {}
  {
    if Occupied(db, at) {
      var d :| d in db.docs && Stands(db, d, at);
      assert d in DocsAt(db, at);
    }
    if DocsAt(db, at) != {} {
      var d :| d in DocsAt(db, at);
      assert Stands(db, d, at);
    }
  }

  /** The plan for content that moved here. */
  lemma MovedPlan(db: Db, d: DocId, file: File, files: set<string>, now: int)
    requires d in db.docs && MovesFrom(db, d, file, files)
    ensures PlanIngest(db, file, files, now)
         == if Occupied(db, file.at) then Refuse(UniqueViolation) else Move(d, RenameTo(db, d, file, now))
  {
    OnlySource(db, d, file);
    OccupiedIff(db, file.at);
    var sources := RenameSources(db, file);
    assert sources == {d} && db.docs[d].sourcePath !in files;
    hide *;
    MovedPlanIs(db, d, file, files, now);
  }

  lemma MovedPlanIs(db: Db, d: DocId, file: File, files: set<string>, now: int)
    requires d in db.docs && RenameSources(db, file) == {d} && db.docs[d].sourcePath !in files
    ensures PlanIngest(db, file, files, now)
         == if DocsAt(db, file.at) != {} then Refuse(UniqueViolation) else Move(d, RenameTo(db, d, file, now))
  {
    hide RenameSources;
    hide RenameSource;
    hide DocsAt;
    hide RenameTo;
    hide IngestRevision;
    hide NextId;
    hide Sorting.Least;
    assert |RenameSources(db, file)| == 1 && TheOnly(RenameSources(db, file)) == d;
  }

  function NewDocument(db: Db, file: File): Db {
    db.(docs := db.docs[NextId(db.docs) := Document(file.at, file.at, file.sourcePath, None, None, Active, Pending)])
  }

  function Seen(db: Db, d: DocId, file: File): Db
    requires d in db.docs
  {
    db.(docs := db.docs[d := db.docs[d].(sourcePath := file.sourcePath, state := Active)])
  }

  predicate SameContent(db: Db, d: DocId, file: File)
    requires d in db.docs
  {
    HashOf(db, db.docs[d].current) == Some(Digest(file.text))
  }

  function FoundPlan(db: Db, d: DocId, file: File, now: int): Plan
    requires d in db.docs
  {
    if SameContent(db, d, file) then Touch(d, Seen(db, d, file))
    else Add(d, IngestRevision(Seen(db, d, file), d, file, now))
  }

  lemma SingleSourceMoves(db: Db, file: File, files: set<string>)
    ensures |RenameSources(db, file)| == 1 && db.docs[TheOnly(RenameSources(db, file))].sourcePath !in files ==>
              Moved(db, file, files)
  {
    var sources := RenameSources(db, file);
    if |sources| == 1 && db.docs[TheOnly(sources)].sourcePath !in files {
      var d := TheOnly(sources);
      OnlySource(db, d, file);
      assert d in sources && sources == {d};
      hide RenameSource;
      hide RenameSources;
    }
  }

  /** The plan for content that did not move here. */
  lemma UnmovedPlan(db: Db, file: File, files: set<string>, now: int)
    requires !Moved(db, file, files)
    ensures var plan := PlanIngest(db, file, files, now);
            if Occupied(db, file.at) then
              exists d :: Stands(db, d, file.at) && plan == FoundPlan(db, d, file, now)
            else if exists d :: CreatedAt(db, d, file.at) then plan == Refuse(UniqueViolation)
            else plan == Add(NextId(db.docs), IngestRevision(NewDocument(db, file), NextId(db.docs), file, now))
  {
    var sources := RenameSources(db, file);
    OccupiedIff(db, file.at);
    SingleSourceMoves(db, file, files);
    hide Moved;
    hide RenameSources;
    hide RenameTo;
    hide IngestRevision;
    hide NextId;
    hide Occupied;
    if DocsAt(db, file.at) != {} {
      var d := Sorting.Least(DocsAt(db, file.at), (a: nat, b: nat) => a < b);
      assert Stands(db, d, file.at);
    } else {
      forall d | d in db.docs && db.docs[d].uuid == file.at ensures CreatedAt(db, d, file.at) {}
      forall d | CreatedAt(db, d, file.at) ensures d in db.docs && db.docs[d].uuid == file.at {}
    }
  }

  lemma SamePlacesKept(db: Db, after: Db)
    requires PlacesOk(db) && SamePlaces(db, after)
    ensures PlacesKept(db, after)
  {
  }

  lemma AddedDocs(db: Db, d: DocId, file: File, now: int)
    requires d in db.docs
    ensures SamePlaces(db, IngestRevision(db, d, file, now))
    ensures RenameTo(db, d, file, now).docs == MovedTo(db, d, file)
  {
    hide LastNumber;
    hide NextId;
  }

  lemma MovePlaces(db: Db, d: DocId, file: File, after: Db)
    requires PlacesOk(db) && d in db.docs && RenameSource(db, d, file) && !Occupied(db, file.at)
    requires after.docs == MovedTo(db, d, file)
    ensures PlacesKept(db, after)
  {
    forall e | e in db.docs ensures db.docs[e].at != file.at { assert !Stands(db, e, file.at); }
  }

  lemma NewPlaces(db: Db, file: File, after: Db)
    requires PlacesOk(db) && !Occupied(db, file.at) && forall e :: !CreatedAt(db, e, file.at)
    requires SamePlaces(NewDocument(db, file), after)
    ensures PlacesKept(db, after)
  {
    forall e | e in db.docs ensures db.docs[e].at != file.at && db.docs[e].uuid != file.at {
      assert !Stands(db, e, file.at) && !CreatedAt(db, e, file.at);
    }
    hide Occupied;
    var d := NextId(db.docs);
    hide NextId;
    assert after.docs[d].at == after.docs[d].uuid == file.at;
    NewPlaceOk(db, d, file.at, after);
  }

  lemma NewPlaceOk(db: Db, d: DocId, at: Identity, after: Db)
    requires PlacesOk(db) && d !in db.docs && after.docs.Keys == db.docs.Keys + {d}
    requires forall e :: e in db.docs ==> db.docs[e].at != at && db.docs[e].uuid != at
    requires forall e :: e in db.docs ==> after.docs[e].uuid == db.docs[e].uuid && after.docs[e].at == db.docs[e].at
    requires after.docs[d].at == after.docs[d].uuid == at
    ensures PlacesKept(db, after)
  {
  }

  function MovedTo(db: Db, d: DocId, file: File): map<DocId, Document>
    requires d in db.docs
  {
    db.docs[d := db.docs[d].(at := file.at, sourcePath := file.sourcePath, state := Active)]
  }

  function Landed(db: Db, d: DocId, p: Poll): (after: Db)
    requires d in db.docs
    ensures d in after.docs
  {
    PruneDocument(RenameTo(db, d, p.file, p.now), d, p.retention, p.now)
  }

  lemma LandedDocs(db: Db, d: DocId, p: Poll)
    requires d in db.docs
    ensures Landed(db, d, p).docs == MovedTo(db, d, p.file)
  {
    hide PruneDocument;
    hide RenameTo;
    AddedDocs(db, d, p.file, p.now);
    PruneKeepsDocs(RenameTo(db, d, p.file, p.now), d, p.retention, p.now);
  }

  // ---------------------------------------------------------------- one ingest, case by case

  lemma MovedIs(db: Db, d: DocId, p: Poll)
    requires Untouched(db, p.file).None? && d in db.docs && MovesFrom(db, d, p.file, p.files)
    ensures Ingest(db, p) == if Occupied(db, p.file.at) then (db, Raised(UniqueViolation))
                             else Refreshed(Landed(db, d, p), d, p.kept)
  {
    MovedPlan(db, d, p.file, p.files, p.now);
    hide PlanIngest;
    hide PruneDocument;
    hide RenameTo;
    hide Refreshed;
    hide Occupied;
    hide MovesFrom;
    hide Untouched;
  }

  /** The document that stands here is the one that is found. */
  lemma FoundIs(db: Db, d: DocId, p: Poll)
    requires PlacesOk(db) && Untouched(db, p.file).None? && !Moved(db, p.file, p.files) && Stands(db, d, p.file.at)
    ensures SameContent(db, d, p.file) ==> Ingest(db, p) == Written(db, d, Seen(db, d, p.file), false)
    ensures !SameContent(db, d, p.file) ==> Ingest(db, p) == Extended(db, d, Seen(db, d, p.file), p)
  {
    var plan := PlanIngest(db, p.file, p.files, p.now);
    assert Occupied(db, p.file.at) by { assert Stands(db, d, p.file.at); }
    UnmovedPlan(db, p.file, p.files, p.now);
    var e :| Stands(db, e, p.file.at) && plan == FoundPlan(db, e, p.file, p.now);
    assert e == d;
    hide PlacesOk;
    hide PlanIngest;
    hide PruneDocument;
    hide IngestRevision;
    hide SameContent;
    hide Indexed;
    hide Indexable;
    hide Untouched;
  }

  /** `begun` with a new revision of document `d`, its links, and what is then pruned. */
  function Extended(db: Db, d: DocId, begun: Db, p: Poll): (Db, Outcome<DocId, MemoryError>)
    requires d in begun.docs
  {
    var (after, result) := Written(db, d, IngestRevision(begun, d, p.file, p.now), true);
    (if result.Committed? then PruneDocument(after, d, p.retention, p.now) else db, result)
  }

  lemma VacantIs(db: Db, p: Poll)
    requires Untouched(db, p.file).None? && !Moved(db, p.file, p.files) && !Occupied(db, p.file.at)
    ensures Ingest(db, p) == if exists d :: CreatedAt(db, d, p.file.at) then (db, Raised(UniqueViolation))
                             else Extended(db, NextId(db.docs), NewDocument(db, p.file), p)
  {
    UnmovedPlan(db, p.file, p.files, p.now);
    hide PlanIngest;
    hide PruneDocument;
    hide IngestRevision;
    hide NextId;
    hide Indexed;
    hide Indexable;
    hide Untouched;
    hide Occupied;
    hide Moved;
  }

  // ---------------------------------------------------------------- what they do to places

  lemma RefreshedDocs(db: Db, d: DocId, kept: bool)
    requires d in db.docs
    ensures Refreshed(db, d, kept).0.docs == db.docs
  {
    IndexKeepsDocs(db, d, false);
    hide Indexed;
    hide Indexable;
  }

  lemma WrittenDocs(db: Db, d: DocId, written: Db, changed: bool)
    requires d in written.docs
    ensures var (after, result) := Written(db, d, written, changed);
            after.docs == if result.Committed? then written.docs else db.docs
  {
    IndexKeepsDocs(written, d, changed);
    hide Indexed;
    hide Indexable;
  }

  lemma ExtendedIs(db: Db, d: DocId, begun: Db, p: Poll)
    requires d in begun.docs
    ensures var (after, result) := Extended(db, d, begun, p);
            if result.Committed? then after.docs == IngestRevision(begun, d, p.file, p.now).docs else after == db
  {
    var grown := IngestRevision(begun, d, p.file, p.now);
    hide IngestRevision;
    hide PruneDocument;
    hide Indexed;
    hide Indexable;
    IndexKeepsDocs(grown, d, true);
    PruneKeepsDocs(Indexed(grown, d, true), d, p.retention, p.now);
  }

  lemma ExtendedDocs(db: Db, d: DocId, begun: Db, p: Poll)
    requires d in begun.docs
    ensures var (after, result) := Extended(db, d, begun, p);
            if result.Committed? then SamePlaces(begun, after) else after == db
  {
    var grown := IngestRevision(begun, d, p.file, p.now);
    AddedDocs(begun, d, p.file, p.now);
    ExtendedIs(db, d, begun, p);
    hide Extended;
    hide IngestRevision;
  }

  /** What an ingest does to the documents' places. */
  lemma IngestDocs(db: Db, p: Poll)
    requires PlacesOk(db)
    ensures var (after, result) := Ingest(db, p);
            && (Untouched(db, p.file).Some? ==> after.docs == db.docs)
            && (Untouched(db, p.file).None? ==>
                  && (forall d :: d in db.docs && MovesFrom(db, d, p.file, p.files) ==>
                        after.docs == if Occupied(db, p.file.at) then db.docs else MovedTo(db, d, p.file))
                  && (!Moved(db, p.file, p.files) ==>
                        || SamePlaces(db, after)
                        || (&& !Occupied(db, p.file.at) && (forall d :: !CreatedAt(db, d, p.file.at))
                            && SamePlaces(NewDocument(db, p.file), after))))
  {
    hide *;
    if Untouched(db, p.file).Some? {
      UntouchedDocs(db, p);
    } else {
      forall d | d in db.docs && MovesFrom(db, d, p.file, p.files)
        ensures Ingest(db, p).0.docs == if Occupied(db, p.file.at) then db.docs else MovedTo(db, d, p.file)
      {
        MovedIs(db, d, p);
        LandedDocs(db, d, p);
        RefreshedDocs(Landed(db, d, p), d, p.kept);
      }
      if !Moved(db, p.file, p.files) {
        UnmovedDocs(db, p);
      }
    }
  }

  lemma UntouchedDocs(db: Db, p: Poll)
    requires Untouched(db, p.file).Some?
    ensures Ingest(db, p).0.docs == db.docs
  {
    hide Untouched;
    hide Refreshed;
    RefreshedDocs(db, Untouched(db, p.file).value, p.kept);
  }

  lemma UnmovedDocs(db: Db, p: Poll)
    requires PlacesOk(db) && Untouched(db, p.file).None? && !Moved(db, p.file, p.files)
    ensures var after := Ingest(db, p).0;
            || SamePlaces(db, after)
            || (&& !Occupied(db, p.file.at) && (forall d :: !CreatedAt(db, d, p.file.at))
                && SamePlaces(NewDocument(db, p.file), after))
  {
    assert SamePlaces(db, db);
    hide PlacesOk;
    hide Ingest;
    hide Extended;
    if Occupied(db, p.file.at) {
      var d :| d in db.docs && Stands(db, d, p.file.at);
      FoundDocs(db, d, p);
    } else {
      VacantIs(db, p);
      ExtendedDocs(db, NextId(db.docs), NewDocument(db, p.file), p);
      hide SamePlaces;
      hide Occupied;
    }
  }

  lemma FoundDocs(db: Db, d: DocId, p: Poll)
    requires PlacesOk(db) && Untouched(db, p.file).None? && !Moved(db, p.file, p.files) && Stands(db, d, p.file.at)
    ensures SamePlaces(db, Ingest(db, p).0)
  {
    var seen := Seen(db, d, p.file);
    assert SamePlaces(db, seen) && SamePlaces(db, db);
    FoundIs(db, d, p);
    hide *;
    if SameContent(db, d, p.file) {
      WrittenDocs(db, d, seen, false);
      SameDocsPlaces(db, seen, Ingest(db, p).0);
    } else {
      ExtendedDocs(db, d, seen, p);
      SamePlacesTransitive(db, seen, Ingest(db, p).0);
    }
  }

  lemma SameDocsPlaces(db: Db, other: Db, after: Db)
    requires SamePlaces(db, other) && after.docs in {db.docs, other.docs}
    ensures SamePlaces(db, after)
  {
  }

  lemma IngestPlaces(db: Db, p: Poll)
    requires PlacesOk(db)
    ensures PlacesKept(db, Ingest(db, p).0)
  {
    var after := Ingest(db, p).0;
    IngestDocs(db, p);
    SamePlacesKept(db, db);
    hide Ingest;
    hide PlacesKept;
    hide PlacesOk;
    hide Occupied;
    hide RenameSource;
    hide Untouched;
    if Untouched(db, p.file).Some? {
      assert SamePlaces(db, after);
    }
    if SamePlaces(db, after) {
      SamePlacesKept(db, after);
    } else if Moved(db, p.file, p.files) {
      var d :| d in db.docs && MovesFrom(db, d, p.file, p.files);
      if !Occupied(db, p.file.at) {
        MovePlaces(db, d, p.file, after);
      }
    } else {
      NewPlaces(db, p.file, after);
    }
  }

  lemma TombstonePlaces(db: Db, d: DocId, now: int)
    ensures SamePlaces(db, Tombstone(db, d, now).0)
  {
    hide Linked;
    hide LastNumber;
    hide NextId;
  }

  lemma AbsentPlaces(db: Db, d: DocId, confirmPolls: int, now: int)
    ensures SamePlaces(db, ReconcileMissing(db, d, confirmPolls, now).0)
  {
    hide Tombstone;
    if d in db.docs {
      var marked := MarkUnavailable(db, d);
      assert SamePlaces(db, marked) && SamePlaces(db, db);
      TombstonePlaces(marked, d, now);
      SamePlacesTransitive(db, marked, Tombstone(marked, d, now).0);
      hide SamePlaces;
      hide MarkUnavailable;
    }
  }

  lemma SamePlacesTransitive(a: Db, b: Db, c: Db)
    requires SamePlaces(a, b) && SamePlaces(b, c)
    ensures SamePlaces(a, c)
  {
  }

  lemma PublishPlaces(db: Db, r: RevId, vectors: bool)
    ensures SamePlaces(db, Publish(db, r, vectors).0)
  {
    hide Linked;
    hide ChunkLinks;
  }

  lemma StepPlaces(w: World, step: Step)
    requires PlacesOk(w.db) && Enabled(w, step)
    ensures PlacesKept(w.db, Next(w, step).db)
  {
    if step.IngestFile? {
      IngestPlaces(w.db, step.poll);
    } else {
      assert SamePlaces(w.db, Next(w, step).db) by {
        hide Prunable;
        hide Publish;
        hide ReconcileMissing;
        match step
        case Absent(d, confirmPolls, now) => AbsentPlaces(w.db, d, confirmPolls, now);
        case PublishResult(r, vectors) => PublishPlaces(w.db, r, vectors);
        case _ =>
      }
      SamePlacesKept(w.db, Next(w, step).db);
    }
  }

  lemma {:induction false} RunPlaces(from: World, steps: seq<Step>, to: World)
    requires PlacesOk(from.db) && Run(from, steps, to)
    ensures PlacesKept(from.db, to.db)
    decreases |steps|
  {
    hide PlacesOk;
    hide Next;
    hide Enabled;
    if steps != [] {
      StepPlaces(from, steps[0]);
      RunPlaces(Next(from, steps[0]), steps[1..], to);
    }
  }

  lemma ReachablePlaces(w: World)
    requires Reachable(w)
    ensures PlacesOk(w.db)
  {
    var steps :| Run(INITIAL, steps, w);
    RunPlaces(INITIAL, steps, w);
  }

  /** Over any run, a document keeps the identity of the path it was created under, whatever path it moves to. */
  lemma IdentityIsBirthplace(w: World, steps: seq<Step>, to: World, d: DocId)
    requires Reachable(w) && Run(w, steps, to) && d in w.db.docs
    ensures d in to.db.docs && to.db.docs[d].uuid == w.db.docs[d].uuid
  {
    ReachablePlaces(w);
    RunPlaces(w, steps, to);
  }

  /** A new document's identity is the path it is created at. */
  lemma BornWhereItStands(w: World, step: Step, d: DocId)
    requires Reachable(w) && Enabled(w, step) && d in Next(w, step).db.docs && d !in w.db.docs
    ensures step.IngestFile? && Next(w, step).db.docs[d].at == Next(w, step).db.docs[d].uuid == step.poll.file.at
  {
    if step.IngestFile? {
      ReachablePlaces(w);
      IngestBirth(w.db, step.poll, d);
    } else {
      assert SamePlaces(w.db, Next(w, step).db) by {
        hide Prunable;
        hide Publish;
        hide ReconcileMissing;
        match step
        case Absent(x, confirmPolls, now) => AbsentPlaces(w.db, x, confirmPolls, now);
        case PublishResult(r, vectors) => PublishPlaces(w.db, r, vectors);
        case _ =>
      }
    }
  }

  lemma IngestBirth(db: Db, p: Poll, x: DocId)
    requires PlacesOk(db) && x !in db.docs && x in Ingest(db, p).0.docs
    ensures var doc := Ingest(db, p).0.docs[x]; doc.at == doc.uuid == p.file.at
  {
    IngestDocs(db, p);
    hide Ingest;
    hide PlacesOk;
    hide MovesFrom;
    hide Occupied;
    hide Untouched;
  }
}
