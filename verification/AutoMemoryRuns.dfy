/** What every history of ingests, renames, absences, claims, late results and failures keeps. */
module AutoMemoryRuns {
  import opened Options
  import opened RowIds
  import opened AutoMemory

  // ---------------------------------------------------------------- histories

  /** A revision that became the active one, with the number and chunks it had. */
  datatype Promotion = Promotion(document: DocId, revision: RevId, number: nat, chunks: nat)

  datatype World = World(db: Db, claimed: set<RevId>, log: seq<Promotion>)

  /** One transaction. `Label` and `Unlabel` are the classifier linking topics to a node. A worker may
      publish or fail a revision it claimed at any later point, any number of times. */
  datatype Step =
    | IngestFile(poll: Poll)
    | Absent(d: DocId, confirmPolls: int, now: int)
    | Prune(d: DocId, retention: Retention, now: int)
    | Claim(revs: set<RevId>)
    | PublishResult(r: RevId, vectors: bool)
    | Fail(r: RevId)
    | Label(k: Node)
    | Unlabel(k: Node)

  predicate Enabled(w: World, step: Step) {
    match step
    case Claim(revs) => forall r :: r in revs ==> Claimable(w.db, r)
    case PublishResult(r, _) => r in w.claimed
    case Fail(r) => r in w.claimed
    case Label(k) => k in w.db.nodes
    case _ => true
  }

  function Next(w: World, step: Step): World
    requires Enabled(w, step)
  {
    match step
    case IngestFile(poll) => w.(db := Ingest(w.db, poll).0)
    case Absent(d, confirmPolls, now) => w.(db := ReconcileMissing(w.db, d, confirmPolls, now).0)
    case Prune(d, retention, now) => w.(db := PruneDocument(w.db, d, retention, now))
    case Claim(revs) => w.(db := ClaimRevisions(w.db, revs), claimed := w.claimed + revs)
    case PublishResult(r, vectors) =>
      var (db, result) := Publish(w.db, r, vectors);
      w.(db := db,
         log := if result.Committed? && result.value.Some? then w.log + [PromotionOf(w.db, r)] else w.log)
    case Fail(r) => w.(db := MarkFailed(w.db, r))
    case Label(k) => w.(db := w.db.(labelled := w.db.labelled + {k}))
    case Unlabel(k) => w.(db := w.db.(labelled := w.db.labelled - {k}))
  }

  function PromotionOf(db: Db, r: RevId): Promotion {
    if r in db.revisions then Promotion(db.revisions[r].document, r, db.revisions[r].number, db.revisions[r].chunks)
    else Promotion(0, r, 0, 0)
  }

  const INITIAL := World(Db(map[], map[], map[], {}, {}, {}, {}), {}, [])

  ghost predicate Run(from: World, steps: seq<Step>, to: World)
    decreases |steps|
  {
    if steps == [] then from == to
    else Enabled(from, steps[0]) && Run(Next(from, steps[0]), steps[1..], to)
  }

  ghost predicate Reachable(w: World) {
    exists steps :: Run(INITIAL, steps, w)
  }

  // ---------------------------------------------------------------- invariants

  /** A document with revisions points at one of them, and its active revision is never ahead of it. */
  predicate DocOk(db: Db, d: DocId)
    requires d in db.docs
  {
    var doc := db.docs[d];
    && doc.current.Some? && Owns(db, d, doc.current.value)
    && (doc.active.Some? ==>
          && Owns(db, d, doc.active.value)
          && doc.active.value <= doc.current.value
          && db.revisions[doc.active.value].number <= db.revisions[doc.current.value].number)
  }

  predicate Owns(db: Db, d: DocId, r: RevId) {
    r in db.revisions && db.revisions[r].document == d
  }

  predicate RevisionOk(db: Db, r: RevId)
    requires r in db.revisions
  {
    && db.revisions[r].document in db.docs
    && (r in db.queue ==> Ingested(db, r))
  }

  /** A revision an ingest added, which the current pointer of its document has reached. */
  predicate Ingested(db: Db, r: RevId)
    requires r in db.revisions && db.revisions[r].document in db.docs
  {
    && db.revisions[r].kind in {Create, Update}
    && db.docs[db.revisions[r].document].current.Some?
    && r <= db.docs[db.revisions[r].document].current.value
  }

  /** Ids that reached the queue lie at or below a current pointer, so they are never given out again. */
  predicate Settled(db: Db, r: RevId) {
    exists d :: d in db.docs && db.docs[d].current.Some? && r <= db.docs[d].current.value
  }

  /** Chunk links lead from the active revision's node to exactly that revision's chunks. */
  predicate LinkOk(db: Db, k: Node, c: Chunk) {
    && k.document in db.docs
    && db.docs[k.document].active == Some(k.revision)
    && c.revision == k.revision && c.revision in db.revisions && c.ordinal < db.revisions[c.revision].chunks
  }

  ghost predicate DbOk(db: Db) {
    && (forall d :: d in db.docs ==> DocOk(db, d))
    && (forall r :: r in db.revisions ==> RevisionOk(db, r))
    && (forall r :: r in db.queue ==> r in db.revisions && Settled(db, r))
    && (forall l: (Node, Chunk) :: l in db.links <==> LinkOk(db, l.0, l.1))
  }

  /** A promotion never ran ahead of its document's current revision. */
  predicate PromotionOk(db: Db, p: Promotion) {
    && p.document in db.docs && db.docs[p.document].current.Some?
    && db.docs[p.document].current.value in db.revisions
    && p.revision <= db.docs[p.document].current.value
    && p.number <= db.revisions[db.docs[p.document].current.value].number
    && (p.revision in db.revisions ==> db.revisions[p.revision].document == p.document
                                       && db.revisions[p.revision].number == p.number
                                       && db.revisions[p.revision].chunks == p.chunks)
  }

  predicate Promoted(log: seq<Promotion>, k: Node) {
    exists i :: 0 <= i < |log| && log[i].document == k.document && log[i].revision == k.revision
  }

  predicate Latest(log: seq<Promotion>, k: Node) {
    forall i :: 0 <= i < |log| && log[i].document == k.document ==> log[i].revision <= k.revision
  }

  /** Enriched with no chunk to be found by. */
  predicate Unfindable(log: seq<Promotion>, k: Node) {
    exists i :: 0 <= i < |log| && log[i].document == k.document && log[i].revision == k.revision && log[i].chunks == 0
  }

  predicate IsActive(db: Db, k: Node) {
    k.document in db.docs && db.docs[k.document].active == Some(k.revision)
  }

  /** The nodes there are, exactly: each document's active revision, and whatever could not be found
      when it was superseded or tombstoned. */
  ghost predicate NodesOk(db: Db, log: seq<Promotion>) {
    && (forall k: Node :: k in db.nodes <==> IsActive(db, k) || Unfindable(log, k))
    && (forall k: Node :: IsActive(db, k) ==> Promoted(log, k) && Latest(log, k))
    && (forall k :: k in db.labelled ==> k in db.nodes)
  }

  predicate ClaimedOk(db: Db, r: RevId) {
    && Settled(db, r)
    && (r in db.revisions ==> db.revisions[r].document in db.docs && Ingested(db, r))
  }

  ghost predicate Ok(w: World) {
    && DbOk(w.db)
    && NodesOk(w.db, w.log)
    && (forall i :: 0 <= i < |w.log| ==> PromotionOk(w.db, w.log[i]))
    && (forall i, j :: 0 <= i < j < |w.log| && w.log[i].document == w.log[j].document ==>
          w.log[i].number <= w.log[j].number && w.log[i].revision <= w.log[j].revision)
    && (forall r :: r in w.claimed ==> ClaimedOk(w.db, r))
  }

  // ---------------------------------------------------------------- what one transaction keeps

  /** Revisions are kept, deleted, or added under ids above every present one; a current pointer stays or
      moves to a larger id with a larger number; no document disappears. */
  predicate Evolves(db: Db, after: Db) {
    && (forall d :: d in db.docs ==> d in after.docs && PointerAdvances(db, after, d))
    && (forall r :: r in after.revisions ==> SameOrNew(db, after, r))
  }

  predicate SameOrNew(db: Db, after: Db, r: RevId)
    requires r in after.revisions
  {
    if r in db.revisions then after.revisions[r] == db.revisions[r]
    else forall x :: x in db.revisions ==> x < r
  }

  predicate PointerAdvances(db: Db, after: Db, d: DocId)
    requires d in db.docs && d in after.docs
  {
    var c, c' := db.docs[d].current, after.docs[d].current;
    c.Some? && c.value in db.revisions ==>
      && c'.Some? && c'.value in after.revisions
      && (c' == c ==> after.revisions[c.value] == db.revisions[c.value])
      && (c' != c ==> c'.value > c.value && after.revisions[c'.value].number > db.revisions[c.value].number)
  }

  lemma EvolvesKeepsSettled(db: Db, after: Db, r: RevId)
    requires DbOk(db) && Evolves(db, after) && Settled(db, r)
    ensures Settled(after, r)
  {
    var d :| d in db.docs && db.docs[d].current.Some? && r <= db.docs[d].current.value;
    assert DocOk(db, d) && PointerAdvances(db, after, d);
  }

  /** A settled id that is still in use names the revision it always named. */
  lemma SettledIsNotReused(db: Db, after: Db, r: RevId)
    requires DbOk(db) && Evolves(db, after) && Settled(db, r) && r in after.revisions
    ensures r in db.revisions && after.revisions[r] == db.revisions[r]
  {
    var d :| d in db.docs && db.docs[d].current.Some? && r <= db.docs[d].current.value;
    assert DocOk(db, d) && SameOrNew(db, after, r);
  }

  lemma EvolvesKeepsClaimed(db: Db, after: Db, r: RevId)
    requires DbOk(db) && Evolves(db, after) && ClaimedOk(db, r)
    ensures ClaimedOk(after, r)
  {
    EvolvesKeepsSettled(db, after, r);
    if r in after.revisions {
      SettledIsNotReused(db, after, r);
      var d := db.revisions[r].document;
      assert DocOk(db, d) && PointerAdvances(db, after, d);
    }
  }

  lemma EvolvesKeepsIngested(db: Db, after: Db, r: RevId)
    requires DbOk(db) && Evolves(db, after) && r in db.queue && r in after.revisions
    ensures r in db.revisions && after.revisions[r] == db.revisions[r] && RevisionOk(after, r)
  {
    assert RevisionOk(db, r) && Settled(db, r);
    SettledIsNotReused(db, after, r);
    var d := db.revisions[r].document;
    assert DocOk(db, d) && PointerAdvances(db, after, d);
  }

  lemma EvolvesKeepsPromotion(db: Db, after: Db, p: Promotion)
    requires DbOk(db) && Evolves(db, after) && PromotionOk(db, p)
    ensures PromotionOk(after, p)
  {
    assert DocOk(db, p.document) && PointerAdvances(db, after, p.document);
    if p.revision in after.revisions {
      SettledIsNotReused(db, after, p.revision);
    }
  }

  /** Nodes, their chunk links and the active pointers are as they were. */
  predicate SameProjection(db: Db, after: Db) {
    && after.nodes == db.nodes && after.links == db.links && after.labelled == db.labelled
    && (forall d :: d in after.docs ==> after.docs[d].active == if d in db.docs then db.docs[d].active else None)
    && (forall d :: d in db.docs ==> d in after.docs)
  }

  lemma SameProjectionKeepsNodes(db: Db, after: Db, log: seq<Promotion>)
    requires NodesOk(db, log) && SameProjection(db, after)
    ensures NodesOk(after, log)
  {
    forall k: Node ensures IsActive(after, k) == IsActive(db, k) {
    }
  }

  /** A transaction that appends or deletes revisions and moves current pointers forward, no more. */
  ghost predicate Reshapes(db: Db, after: Db) {
    && Evolves(db, after) && SameProjection(db, after)
    && (forall d :: d in db.docs && db.docs[d].active.Some? ==> db.docs[d].active.value in after.revisions)
    && (forall d :: d in after.docs ==> after.docs[d].current.Some? && Owns(after, d, after.docs[d].current.value))
    && (forall r :: r in after.revisions ==> RevisionOk(after, r))
    && (forall r :: r in after.queue ==> r in after.revisions && Settled(after, r))
  }

  lemma ReshapedDocOk(db: Db, after: Db, d: DocId)
    requires DbOk(db) && Reshapes(db, after) && d in after.docs
    ensures DocOk(after, d)
  {
    if d in db.docs {
      assert DocOk(db, d) && PointerAdvances(db, after, d);
      var c, c' := db.docs[d].current.value, after.docs[d].current.value;
      assert SameOrNew(db, after, c');
      if after.docs[d].active.Some? {
        assert SameOrNew(db, after, after.docs[d].active.value);
      }
    }
  }

  lemma ReshapedLinkOk(db: Db, after: Db, k: Node, c: Chunk)
    requires DbOk(db) && Reshapes(db, after)
    ensures LinkOk(after, k, c) <==> LinkOk(db, k, c)
  {
    if k.document in db.docs && db.docs[k.document].active.Some? {
      assert DocOk(db, k.document);
      assert SameOrNew(db, after, db.docs[k.document].active.value);
    }
  }

  lemma ReshapesIsOk(db: Db, after: Db)
    requires DbOk(db) && Reshapes(db, after)
    ensures DbOk(after)
  {
    hide LinkOk;
    hide DocOk;
    forall d | d in after.docs ensures DocOk(after, d) { ReshapedDocOk(db, after, d); }
    forall l: (Node, Chunk) ensures l in after.links <==> LinkOk(after, l.0, l.1) {
      ReshapedLinkOk(db, after, l.0, l.1);
    }
  }

  /** `after` has one revision more, in front of everything, and document `d` points at it. */
  predicate Appends(db: Db, after: Db, d: DocId, rev: RevId) {
    && rev in after.revisions && after.revisions == db.revisions[rev := after.revisions[rev]]
    && (forall x :: x in db.revisions ==> x < rev)
    && after.revisions[rev].document == d
    && (forall x :: x in RevisionsOf(db, d) ==> db.revisions[x].number < after.revisions[rev].number)
    && after.docs.Keys == db.docs.Keys + {d}
    && (forall x :: x in db.docs && x != d ==> after.docs[x].current == db.docs[x].current)
    && (|| after.queue == db.queue
        || (after.revisions[rev].kind in {Create, Update} && after.queue == db.queue[rev := QueueRow(Waiting, 0)]))
  }

  lemma AppendEvolves(db: Db, after: Db, d: DocId, rev: RevId)
    requires DbOk(db) && Appends(db, after, d, rev)
    requires after.docs[d].current == Some(rev) || (d in db.docs && after.docs[d].current == db.docs[d].current)
    ensures Evolves(db, after)
  {
    hide RevisionOk;
    hide LinkOk;
    hide Settled;
    forall x | x in db.docs ensures PointerAdvances(db, after, x) {
      assert DocOk(db, x);
      assert x == d ==> db.docs[d].current.value in RevisionsOf(db, d);
    }
  }

  lemma AppendedRevisionOk(db: Db, after: Db, d: DocId, rev: RevId, r: RevId)
    requires DbOk(db) && Appends(db, after, d, rev) && Evolves(db, after) && r in after.revisions
    requires after.docs[d].current == Some(rev) || after.queue == db.queue
    ensures RevisionOk(after, r)
  {
    hide LinkOk;
    hide Settled;
    hide PointerAdvances;
    assert rev !in db.queue;
    if r != rev {
      assert RevisionOk(db, r);
      if r in db.queue {
        EvolvesKeepsIngested(db, after, r);
      }
    }
  }

  lemma AppendedQueueOk(db: Db, after: Db, d: DocId, rev: RevId, r: RevId)
    requires DbOk(db) && Appends(db, after, d, rev) && Evolves(db, after) && r in after.queue
    requires after.docs[d].current == Some(rev) || after.queue == db.queue
    ensures r in after.revisions && Settled(after, r)
  {
    hide LinkOk;
    hide PointerAdvances;
    hide Evolves;
    if r in db.queue {
      EvolvesKeepsSettled(db, after, r);
    } else {
      assert r == rev;
    }
  }

  lemma AppendReshapes(db: Db, after: Db, d: DocId, rev: RevId)
    requires DbOk(db) && Appends(db, after, d, rev) && SameProjection(db, after)
    requires after.docs[d].current == Some(rev)
             || (d in db.docs && after.docs[d].current == db.docs[d].current && after.queue == db.queue)
    ensures Reshapes(db, after)
  {
    AppendEvolves(db, after, d, rev);
    hide LinkOk;
    hide Evolves;
    hide RevisionOk;
    hide Settled;
    forall x | x in after.docs ensures after.docs[x].current.Some? && Owns(after, x, after.docs[x].current.value) {
      assert x in db.docs ==> DocOk(db, x);
    }
    forall x | x in db.docs && db.docs[x].active.Some? ensures db.docs[x].active.value in after.revisions {
      assert DocOk(db, x);
    }
    forall r | r in after.revisions ensures RevisionOk(after, r) { AppendedRevisionOk(db, after, d, rev, r); }
    forall r | r in after.queue ensures r in after.revisions && Settled(after, r) {
      AppendedQueueOk(db, after, d, rev, r);
    }
  }

  // ---------------------------------------------------------------- pruning

  lemma PrunableIsUnprotected(db: Db, d: DocId, retention: Retention, now: int)
    requires d in db.docs
    ensures Prunable(db, d, retention, now) <= RevisionsOf(db, d) - Protected(db.docs[d])
  {
    hide Popped;
  }

  lemma ActiveLinksSurvive(db: Db, d: DocId, gone: set<RevId>)
    requires DbOk(db) && d in db.docs && gone <= RevisionsOf(db, d) - Protected(db.docs[d])
    ensures WithoutRevisions(db, gone).links == db.links
  {
    forall l | l in db.links ensures l.1.revision !in gone {
      assert LinkOk(db, l.0, l.1) && DocOk(db, l.0.document);
    }
  }

  lemma PruneReshapes(db: Db, d: DocId, gone: set<RevId>)
    requires DbOk(db) && d in db.docs && gone <= RevisionsOf(db, d) - Protected(db.docs[d])
    ensures Reshapes(db, WithoutRevisions(db, gone))
  {
    var after := WithoutRevisions(db, gone);
    ActiveLinksSurvive(db, d, gone);
    hide LinkOk;
    forall x | x in db.docs
      ensures PointerAdvances(db, after, x) && Owns(after, x, db.docs[x].current.value)
      ensures db.docs[x].active.Some? ==> db.docs[x].active.value in after.revisions
    {
      assert DocOk(db, x);
    }
    forall r | r in after.revisions ensures RevisionOk(after, r) { assert RevisionOk(db, r); }
    forall r | r in after.queue ensures r in after.revisions && Settled(after, r) { assert Settled(db, r); }
  }

  lemma PruneKeeps(db: Db, d: DocId, retention: Retention, now: int)
    requires DbOk(db)
    ensures var after := PruneDocument(db, d, retention, now);
            DbOk(after) && Evolves(db, after) && SameProjection(db, after)
  {
    if d in db.docs {
      PrunableIsUnprotected(db, d, retention, now);
      PruneReshapes(db, d, Prunable(db, d, retention, now));
      ReshapesIsOk(db, PruneDocument(db, d, retention, now));
    } else {
      forall x | x in db.docs ensures PointerAdvances(db, db, x) {}
    }
  }

  // ---------------------------------------------------------------- transactions that leave the projection alone

  /** A transaction, or part of one, that neither publishes nor withdraws. */
  ghost predicate Quiet(db: Db, after: Db) {
    DbOk(after) && Evolves(db, after) && SameProjection(db, after)
  }

  lemma QuietOk(w: World, after: Db)
    requires Ok(w) && Quiet(w.db, after)
    ensures Ok(w.(db := after))
  {
    hide PromotionOk;
    hide Evolves;
    hide DbOk;
    SameProjectionKeepsNodes(w.db, after, w.log);
    HistoryKept(w, after);
  }

  lemma HistoryKept(w: World, after: Db)
    requires Ok(w) && DbOk(after) && Evolves(w.db, after)
    ensures forall i :: 0 <= i < |w.log| ==> PromotionOk(after, w.log[i])
    ensures forall r :: r in w.claimed ==> ClaimedOk(after, r)
  {
    hide NodesOk;
    hide PromotionOk;
    hide ClaimedOk;
    forall i | 0 <= i < |w.log| ensures PromotionOk(after, w.log[i]) {
      EvolvesKeepsPromotion(w.db, after, w.log[i]);
    }
    forall r | r in w.claimed ensures ClaimedOk(after, r) {
      EvolvesKeepsClaimed(w.db, after, r);
    }
  }

  /** Revisions, queued ids and current pointers are untouched. */
  predicate SamePointers(db: Db, after: Db) {
    && after.docs.Keys == db.docs.Keys && after.revisions == db.revisions && after.queue.Keys == db.queue.Keys
    && (forall d :: d in db.docs ==> after.docs[d].current == db.docs[d].current)
  }

  lemma SamePointersKeep(db: Db, after: Db)
    requires DbOk(db) && SamePointers(db, after)
    ensures Evolves(db, after)
    ensures forall r :: r in after.revisions ==> RevisionOk(after, r)
    ensures forall r :: r in after.queue ==> r in after.revisions && Settled(after, r)
  {
    hide LinkOk;
    forall d | d in db.docs ensures PointerAdvances(db, after, d) { assert DocOk(db, d); }
    forall r | r in after.revisions ensures RevisionOk(after, r) { assert RevisionOk(db, r); }
    forall r | r in after.queue ensures r in after.revisions && Settled(after, r) { assert Settled(db, r); }
  }

  /** Changing only states, paths, projection marks, queue marks or labels of live nodes. */
  lemma MarksAreQuiet(db: Db, after: Db)
    requires DbOk(db) && SamePointers(db, after)
    requires forall d :: d in db.docs ==> after.docs[d].active == db.docs[d].active
    requires after.nodes == db.nodes && after.links == db.links && after.labelled == db.labelled
    ensures Quiet(db, after)
  {
    SamePointersKeep(db, after);
    hide LinkOk;
    hide Evolves;
    hide RevisionOk;
    hide Settled;
    forall d | d in db.docs
      ensures Owns(after, d, db.docs[d].current.value)
      ensures db.docs[d].active.Some? ==> db.docs[d].active.value in after.revisions
    {
      assert DocOk(db, d);
    }
    ReshapesIsOk(db, after);
  }

  /** `before` is `db` with document `d` inserted, or found and touched. */
  predicate Opens(db: Db, before: Db, d: DocId) {
    && before.docs.Keys == db.docs.Keys + {d}
    && before == db.(docs := before.docs)
    && (forall x :: x in db.docs ==>
          before.docs[x].current == db.docs[x].current && before.docs[x].active == db.docs[x].active)
    && (d !in db.docs ==> before.docs[d].active.None?)
  }

  lemma IngestRevisionAppends(db: Db, before: Db, d: DocId, file: File, now: int)
    requires Opens(db, before, d)
    ensures var after, rev := IngestRevision(before, d, file, now), NextId(db.revisions);
            Appends(db, after, d, rev) && SameProjection(db, after) && after.docs[d].current == Some(rev)
  {
    hide Largest;
    assert forall x :: x in RevisionsOf(db, d) ==> x in RevisionsOf(before, d);
  }

  lemma IngestRevisionKeeps(db: Db, before: Db, d: DocId, file: File, now: int)
    requires DbOk(db) && Opens(db, before, d)
    ensures Quiet(db, IngestRevision(before, d, file, now))
  {
    IngestRevisionAppends(db, before, d, file, now);
    AppendKeeps(db, IngestRevision(before, d, file, now), d, NextId(db.revisions));
  }

  lemma AppendKeeps(db: Db, after: Db, d: DocId, rev: RevId)
    requires DbOk(db) && Appends(db, after, d, rev) && SameProjection(db, after)
    requires after.docs[d].current == Some(rev)
             || (d in db.docs && after.docs[d].current == db.docs[d].current && after.queue == db.queue)
    ensures Quiet(db, after)
  {
    AppendReshapes(db, after, d, rev);
    hide *;
    ReshapesIsOk(db, after);
    ReshapesIsQuiet(db, after);
  }

  lemma ReshapesIsQuiet(db: Db, after: Db)
    requires Reshapes(db, after) && DbOk(after)
    ensures Quiet(db, after)
  {
  }

  lemma RenameAppends(db: Db, d: DocId, file: File, now: int)
    requires d in db.docs
    ensures var after, rev := RenameTo(db, d, file, now), NextId(db.revisions);
            && Appends(db, after, d, rev) && SameProjection(db, after)
            && after.docs[d].current == db.docs[d].current && after.queue == db.queue
  {
    hide Largest;
    var moved := db.(docs := db.docs[d := db.docs[d].(at := file.at, sourcePath := file.sourcePath, state := Active)]);
    assert forall x :: x in RevisionsOf(db, d) ==> x in RevisionsOf(moved, d);
  }

  lemma RenameKeeps(db: Db, d: DocId, file: File, now: int)
    requires DbOk(db) && d in db.docs
    ensures Quiet(db, RenameTo(db, d, file, now))
  {
    RenameAppends(db, d, file, now);
    AppendKeeps(db, RenameTo(db, d, file, now), d, NextId(db.revisions));
  }

  lemma FoundKeeps(db: Db, d: DocId, file: File, now: int)
    requires DbOk(db) && d in db.docs
    ensures var seen := db.(docs := db.docs[d := db.docs[d].(sourcePath := file.sourcePath, state := Active)]);
            Quiet(db, seen) && Quiet(db, IngestRevision(seen, d, file, now))
  {
    var seen := db.(docs := db.docs[d := db.docs[d].(sourcePath := file.sourcePath, state := Active)]);
    assert Opens(db, seen, d);
    hide DbOk;
    MarksAreQuiet(db, seen);
    IngestRevisionKeeps(db, seen, d, file, now);
  }

  lemma NewDocumentKeeps(db: Db, file: File, now: int)
    requires DbOk(db)
    ensures var d := NextId(db.docs);
            var doc := Document(file.at, file.at, file.sourcePath, None, None, Active, Pending);
            Quiet(db, IngestRevision(db.(docs := db.docs[d := doc]), d, file, now))
  {
    hide Largest;
    var d := NextId(db.docs);
    var doc := Document(file.at, file.at, file.sourcePath, None, None, Active, Pending);
    assert Opens(db, db.(docs := db.docs[d := doc]), d);
    hide DbOk;
    IngestRevisionKeeps(db, db.(docs := db.docs[d := doc]), d, file, now);
  }

  lemma PlanKeeps(db: Db, file: File, files: set<string>, now: int)
    requires DbOk(db)
    ensures var plan := PlanIngest(db, file, files, now);
            && (plan.Move? ==> Quiet(db, plan.moved) && plan.document in plan.moved.docs)
            && (plan.Touch? ==> Quiet(db, plan.touched) && plan.document in plan.touched.docs)
            && (plan.Add? ==> Quiet(db, plan.added) && plan.document in plan.added.docs)
  {
    var sources, here := RenameSources(db, file), DocsAt(db, file.at);
    hide IngestRevision;
    hide RenameTo;
    hide Sorting.Least;
    hide NextId;
    hide DbOk;
    hide Quiet;
    if |sources| == 1 {
      RenameKeeps(db, TheOnly(sources), file, now);
    }
    if here == {} {
      NewDocumentKeeps(db, file, now);
    } else {
      FoundKeeps(db, Sorting.Least(here, (a: nat, b: nat) => a < b), file, now);
    }
  }

  /** The world after a transaction is in order, every current pointer stayed or advanced, and an id that
      was ever queued still names what it named, if anything. */
  ghost predicate Sound(w: World, after: World) {
    Ok(after) && Grows(w.db, after.db)
  }

  ghost predicate Grows(db: Db, after: Db) {
    && (forall d :: d in db.docs ==> d in after.docs && PointerAdvances(db, after, d))
    && (forall r :: Settled(db, r) ==> SettledKept(db, after, r))
  }

  predicate SettledKept(db: Db, after: Db, r: RevId) {
    Settled(after, r) && (r in after.revisions ==> r in db.revisions && after.revisions[r] == db.revisions[r])
  }

  lemma EvolvesGrows(db: Db, after: Db)
    requires DbOk(db) && Evolves(db, after)
    ensures Grows(db, after)
  {
    hide Settled;
    hide PointerAdvances;
    hide SameOrNew;
    forall r | Settled(db, r) ensures SettledKept(db, after, r) {
      EvolvesKeepsSettled(db, after, r);
      if r in after.revisions {
        SettledIsNotReused(db, after, r);
      }
    }
  }

  lemma QuietSound(w: World, after: Db)
    requires Ok(w) && Quiet(w.db, after)
    ensures Sound(w, w.(db := after))
  {
    QuietOk(w, after);
    EvolvesGrows(w.db, after);
  }

  lemma SoundTransitive(a: World, b: World, c: World)
    requires Sound(a, b) && Sound(b, c)
    ensures Sound(a, c)
  {
    hide Ok;
    hide Settled;
    forall d | d in a.db.docs ensures d in c.db.docs && PointerAdvances(a.db, c.db, d) {
      assert PointerAdvances(a.db, b.db, d) && PointerAdvances(b.db, c.db, d);
    }
    forall r | Settled(a.db, r) ensures SettledKept(a.db, c.db, r) {
      assert SettledKept(a.db, b.db, r) && SettledKept(b.db, c.db, r);
    }
  }

  lemma StillSound(w: World)
    requires Ok(w)
    ensures Sound(w, w)
  {
  }

  lemma IndexIsQuiet(db: Db, d: DocId, changed: bool)
    requires DbOk(db) && d in db.docs
    ensures Quiet(db, Indexed(db, d, changed))
  {
    MarksAreQuiet(db, Indexed(db, d, changed));
    hide Fitting;
    hide Quiet;
  }

  lemma IndexSound(w: World, d: DocId, changed: bool)
    requires Ok(w) && d in w.db.docs
    ensures Sound(w, w.(db := Indexed(w.db, d, changed)))
  {
    IndexIsQuiet(w.db, d, changed);
    hide Indexed;
    QuietSound(w, Indexed(w.db, d, changed));
  }

  lemma RefreshSound(w: World, d: DocId, kept: bool)
    requires Ok(w) && d in w.db.docs
    ensures Sound(w, w.(db := Refreshed(w.db, d, kept).0))
  {
    hide Indexed;
    hide Indexable;
    hide Sound;
    hide Ok;
    StillSound(w);
    IndexSound(w, d, false);
  }

  lemma PruneKeepsDocs(db: Db, d: DocId, retention: Retention, now: int)
    ensures PruneDocument(db, d, retention, now).docs == db.docs
  {
    hide Prunable;
  }

  lemma IndexKeepsDocs(db: Db, d: DocId, changed: bool)
    requires d in db.docs
    ensures Indexed(db, d, changed).docs == db.docs
  {
    hide Fitting;
  }

  /** The part of an ingest that follows its plan. */
  lemma PlannedSound(w: World, plan: Plan, p: Poll)
    requires Ok(w)
    requires plan.Move? ==> Quiet(w.db, plan.moved) && plan.document in plan.moved.docs
    requires plan.Touch? ==> Quiet(w.db, plan.touched) && plan.document in plan.touched.docs
    requires plan.Add? ==> Quiet(w.db, plan.added) && plan.document in plan.added.docs
    ensures Sound(w, w.(db := Carried(w.db, plan, p).0))
  {
    hide PruneDocument;
    hide Sound;
    hide Ok;
    hide Quiet;
    hide Refreshed;
    hide Indexed;
    hide Indexable;
    StillSound(w);
    match plan
    case Refuse(_) =>
    case Move(d, moved) =>
      var mid, pruned := w.(db := moved), w.(db := PruneDocument(moved, d, p.retention, p.now));
      QuietSound(w, moved);
      SoundIsOk(w, mid);
      PruneSound(mid, d, p.retention, p.now);
      SoundIsOk(mid, pruned);
      PruneKeepsDocs(moved, d, p.retention, p.now);
      RefreshSound(pruned, d, p.kept);
      SoundTransitive(w, mid, pruned);
      SoundTransitive(w, pruned, w.(db := Refreshed(pruned.db, d, p.kept).0));
    case Touch(d, touched) =>
      var mid := w.(db := touched);
      QuietSound(w, touched);
      SoundIsOk(w, mid);
      IndexSound(mid, d, false);
      SoundTransitive(w, mid, w.(db := Indexed(touched, d, false)));
    case Add(d, added) =>
      var mid, indexed := w.(db := added), w.(db := Indexed(added, d, true));
      QuietSound(w, added);
      SoundIsOk(w, mid);
      IndexSound(mid, d, true);
      SoundTransitive(w, mid, indexed);
      SoundIsOk(w, indexed);
      PruneSound(indexed, d, p.retention, p.now);
      SoundTransitive(w, indexed, w.(db := PruneDocument(indexed.db, d, p.retention, p.now)));
  }

  lemma IngestSound(w: World, p: Poll)
    requires Ok(w)
    ensures Sound(w, w.(db := Ingest(w.db, p).0))
  {
    PlanKeeps(w.db, p.file, p.files, p.now);
    hide PlanIngest;
    hide Sound;
    hide Ok;
    hide Quiet;
    hide Refreshed;
    hide Carried;
    hide Untouched;
    PlannedSound(w, PlanIngest(w.db, p.file, p.files, p.now), p);
    if Untouched(w.db, p.file).Some? {
      RefreshSound(w, Untouched(w.db, p.file).value, p.kept);
    }
  }

  lemma SoundIsOk(w: World, after: World)
    requires Sound(w, after)
    ensures Ok(after)
  {
  }

  lemma PruneSound(w: World, d: DocId, retention: Retention, now: int)
    requires Ok(w)
    ensures Sound(w, w.(db := PruneDocument(w.db, d, retention, now)))
  {
    PruneKeeps(w.db, d, retention, now);
    QuietSound(w, PruneDocument(w.db, d, retention, now));
  }

  // ---------------------------------------------------------------- withdrawing and publishing

  lemma LinkedIffChunks(db: Db, d: DocId)
    requires DbOk(db) && d in db.docs && db.docs[d].active.Some?
    ensures Linked(db, db.docs[d].active.value) <==> db.revisions[db.docs[d].active.value].chunks > 0
  {
    var a := db.docs[d].active.value;
    assert DocOk(db, d);
    if db.revisions[a].chunks > 0 {
      var l: (Node, Chunk) := (Node(d, a), Chunk(a, 0));
      assert LinkOk(db, l.0, l.1) && l in db.links;
    }
    if Linked(db, a) {
      var l :| l in db.links && l.1.revision == a;
      assert LinkOk(db, l.0, l.1);
    }
  }

  lemma WithdrawLinksOk(db: Db, d: DocId, k: Node, c: Chunk)
    requires DbOk(db) && d in db.docs && db.docs[d].active.Some?
    ensures (k, c) in Withdraw(db, d).links <==> LinkOk(Withdraw(db, d), k, c)
  {
    LinkedIffChunks(db, d);
    var l := (k, c);
    assert l in db.links <==> LinkOk(db, l.0, l.1);
  }

  lemma WithdrawDbOk(db: Db, d: DocId)
    requires DbOk(db) && d in db.docs && db.docs[d].active.Some?
    ensures DbOk(Withdraw(db, d)) && Evolves(db, Withdraw(db, d))
  {
    hide LinkOk;
    hide Linked;
    hide Evolves;
    hide RevisionOk;
    hide Settled;
    var after := Withdraw(db, d);
    SamePointersKeep(db, after);
    forall x | x in db.docs ensures DocOk(after, x) { assert DocOk(db, x); }
    forall l: (Node, Chunk) ensures l in after.links <==> LinkOk(after, l.0, l.1) {
      WithdrawLinksOk(db, d, l.0, l.1);
    }
  }

  lemma WithdrawNodesOk(w: World, d: DocId)
    requires Ok(w) && d in w.db.docs && w.db.docs[d].active.Some?
    ensures NodesOk(Withdraw(w.db, d), w.log)
  {
    var db, after, a := w.db, Withdraw(w.db, d), w.db.docs[d].active.value;
    LinkedIffChunks(db, d);
    assert DocOk(db, d);
    assert IsActive(db, Node(d, a));
    var i :| 0 <= i < |w.log| && w.log[i].document == d && w.log[i].revision == a;
    assert PromotionOk(db, w.log[i]);
    assert Unfindable(w.log, Node(d, a)) ==> db.revisions[a].chunks == 0 by {
      if Unfindable(w.log, Node(d, a)) {
        var j :| 0 <= j < |w.log| && w.log[j].document == d && w.log[j].revision == a && w.log[j].chunks == 0;
        assert PromotionOk(db, w.log[j]);
      }
    }
    hide DbOk;
    hide PromotionOk;
    forall k: Node ensures k in after.nodes <==> IsActive(after, k) || Unfindable(w.log, k) {
      assert k in db.nodes <==> IsActive(db, k) || Unfindable(w.log, k);
    }
    forall k: Node | IsActive(after, k) ensures Promoted(w.log, k) {
      assert IsActive(db, k);
    }
  }

  lemma WithdrawOk(w: World, d: DocId)
    requires Ok(w) && d in w.db.docs && w.db.docs[d].active.Some?
    ensures Sound(w, w.(db := Withdraw(w.db, d)))
  {
    hide Withdraw;
    hide DbOk;
    hide NodesOk;
    hide PromotionOk;
    hide ClaimedOk;
    hide Evolves;
    WithdrawDbOk(w.db, d);
    WithdrawNodesOk(w, d);
    HistoryKept(w, Withdraw(w.db, d));
    EvolvesGrows(w.db, Withdraw(w.db, d));
  }

  lemma BuriedAppends(db: Db, d: DocId, now: int)
    requires d in db.docs
    ensures var after, rev := Buried(db, d, now), NextId(db.revisions);
            Appends(db, after, d, rev) && SameProjection(db, after) && after.docs[d].current == Some(rev)
  {
    hide Largest;
  }

  lemma BuriedSound(w: World, d: DocId, now: int)
    requires Ok(w) && d in w.db.docs
    ensures Sound(w, w.(db := Buried(w.db, d, now)))
  {
    BuriedAppends(w.db, d, now);
    AppendKeeps(w.db, Buried(w.db, d, now), d, NextId(w.db.revisions));
    QuietSound(w, Buried(w.db, d, now));
  }

  lemma TombstoneSound(w: World, d: DocId, now: int)
    requires Ok(w)
    ensures Sound(w, w.(db := Tombstone(w.db, d, now).0))
  {
    hide Buried;
    hide Withdraw;
    hide Ok;
    hide Sound;
    hide Linked;
    StillSound(w);
    if d in w.db.docs && w.db.docs[d].state != Tombstoned {
      BuriedSound(w, d, now);
      if w.db.docs[d].active.Some? {
        var mid := w.(db := Withdraw(w.db, d));
        WithdrawOk(w, d);
        SoundIsOk(w, mid);
        SoundKeepsDocs(w, mid, d);
        BuriedSound(mid, d, now);
        SoundTransitive(w, mid, w.(db := Buried(mid.db, d, now)));
      }
    }
  }

  lemma SoundKeepsDocs(w: World, after: World, d: DocId)
    requires Sound(w, after) && d in w.db.docs
    ensures d in after.db.docs
  {
  }

  lemma MarkedSound(w: World, d: DocId)
    requires Ok(w) && d in w.db.docs
    ensures Sound(w, w.(db := MarkUnavailable(w.db, d)))
  {
    MarksAreQuiet(w.db, MarkUnavailable(w.db, d));
    hide MarkUnavailable;
    QuietSound(w, MarkUnavailable(w.db, d));
  }

  lemma AbsentSound(w: World, d: DocId, confirmPolls: int, now: int)
    requires Ok(w)
    ensures Sound(w, w.(db := ReconcileMissing(w.db, d, confirmPolls, now).0))
  {
    hide Ok;
    hide Sound;
    hide Tombstone;
    hide MarkUnavailable;
    StillSound(w);
    if d in w.db.docs {
      var marked := w.(db := MarkUnavailable(w.db, d));
      MarkedSound(w, d);
      SoundIsOk(w, marked);
      TombstoneSound(marked, d, now);
      SoundTransitive(w, marked, w.(db := Tombstone(marked.db, d, now).0));
    }
  }

  /** Only the document's own current revision is ever activated, with nothing else active. */
  ghost predicate CanActivate(db: Db, r: RevId) {
    && r in db.revisions && db.revisions[r].document in db.docs
    && var doc := db.docs[db.revisions[r].document];
    doc.current == Some(r) && (doc.active.None? || doc.active == Some(r))
  }

  lemma ActivateLinksOk(db: Db, r: RevId, k: Node, c: Chunk)
    requires DbOk(db) && CanActivate(db, r)
    ensures (k, c) in Activate(db, r).links <==> LinkOk(Activate(db, r), k, c)
  {
    var l := (k, c);
    assert l in db.links <==> LinkOk(db, l.0, l.1);
  }

  lemma ActivateDocsOk(db: Db, r: RevId)
    requires DbOk(db) && CanActivate(db, r)
    ensures SamePointers(db, Activate(db, r))
    ensures forall d :: d in db.docs ==> DocOk(Activate(db, r), d)
  {
    hide LinkOk;
    hide RevisionOk;
    hide ChunkLinks;
    hide Settled;
    forall d | d in db.docs ensures DocOk(Activate(db, r), d) { assert DocOk(db, d); }
  }

  lemma ActivateDbOk(db: Db, r: RevId)
    requires DbOk(db) && CanActivate(db, r)
    ensures DbOk(Activate(db, r)) && Evolves(db, Activate(db, r))
  {
    hide LinkOk;
    hide Activate;
    hide DocOk;
    hide Evolves;
    hide RevisionOk;
    hide Settled;
    var after := Activate(db, r);
    ActivateDocsOk(db, r);
    SamePointersKeep(db, after);
    forall l: (Node, Chunk) ensures l in after.links <==> LinkOk(after, l.0, l.1) {
      ActivateLinksOk(db, r, l.0, l.1);
    }
  }

  ghost predicate NothingElseIsActive(db: Db, r: RevId)
    requires r in db.revisions
  {
    forall k: Node :: k.document == db.revisions[r].document && IsActive(db, k) ==> k.revision == r
  }

  lemma NothingElseActive(db: Db, r: RevId)
    requires CanActivate(db, r)
    ensures NothingElseIsActive(db, r)
  {
  }

  lemma ActivateNodesOk(db: Db, r: RevId, log: seq<Promotion>)
    requires NodesOk(db, log) && CanActivate(db, r)
    requires NothingElseIsActive(db, r) && Latest(log, Node(db.revisions[r].document, r))
    ensures NodesOk(Activate(db, r), log + [PromotionOf(db, r)])
  {
    var after, p := Activate(db, r), PromotionOf(db, r);
    var log' := log + [p];
    var own := Node(p.document, r);
    hide ChunkLinks;
    assert log'[|log|] == p && forall i :: 0 <= i < |log| ==> log'[i] == log[i];
    assert forall k: Node :: Promoted(log, k) ==> Promoted(log', k);
    assert forall k: Node :: Unfindable(log, k) ==> Unfindable(log', k);
    assert forall k: Node :: Unfindable(log', k) ==> Unfindable(log, k) || k == own;
    assert Promoted(log', own);
    forall k: Node ensures IsActive(after, k) <==> IsActive(db, k) || k == own {
    }
    assert forall k: Node :: k.document != p.document && Latest(log, k) ==> Latest(log', k);
    assert Latest(log', own);
    forall k: Node ensures k in after.nodes <==> IsActive(after, k) || Unfindable(log', k) {
      assert k in db.nodes <==> IsActive(db, k) || Unfindable(log, k);
    }
  }

  lemma PromotionFollows(w: World, r: RevId)
    requires Ok(w) && CanActivate(w.db, r)
    ensures var p := PromotionOf(w.db, r);
            && PromotionOk(Activate(w.db, r), p)
            && forall i :: 0 <= i < |w.log| && w.log[i].document == p.document ==>
                 w.log[i].number <= p.number && w.log[i].revision <= p.revision
  {
    hide ChunkLinks;
    hide DbOk;
    hide NodesOk;
    forall i | 0 <= i < |w.log| && w.log[i].document == w.db.revisions[r].document
      ensures w.log[i].number <= w.db.revisions[r].number && w.log[i].revision <= r
    {
      assert PromotionOk(w.db, w.log[i]);
    }
  }

  lemma PromotionIsLatest(w: World, r: RevId)
    requires r in w.db.revisions
    requires var p := PromotionOf(w.db, r);
             forall i :: 0 <= i < |w.log| && w.log[i].document == p.document ==>
               w.log[i].number <= p.number && w.log[i].revision <= p.revision
    ensures Latest(w.log, Node(w.db.revisions[r].document, r))
  {
  }

  lemma ActivateSound(w: World, r: RevId)
    requires Ok(w) && CanActivate(w.db, r)
    ensures Sound(w, w.(db := Activate(w.db, r), log := w.log + [PromotionOf(w.db, r)]))
  {
    hide Activate;
    hide DbOk;
    hide NodesOk;
    hide PromotionOk;
    hide PromotionOf;
    hide Settled;
    NothingElseActive(w.db, r);
    ActivateDbOk(w.db, r);
    EvolvesGrows(w.db, Activate(w.db, r));
    PromotionFollows(w, r);
    PromotionIsLatest(w, r);
    ActivateNodesOk(w.db, r, w.log);
    HistoryKept(w, Activate(w.db, r));
    hide ClaimedOk;
    hide Grows;
    hide Evolves;
    var next := w.(db := Activate(w.db, r), log := w.log + [PromotionOf(w.db, r)]);
    assert forall i :: 0 <= i < |w.log| ==> next.log[i] == w.log[i];
  }

  lemma DoneSound(w: World, r: RevId)
    requires Ok(w)
    ensures Sound(w, w.(db := WithDone(w.db, r)))
  {
    MarksAreQuiet(w.db, WithDone(w.db, r));
    QuietSound(w, WithDone(w.db, r));
  }

  /** The old active node goes first. */
  lemma SupersedeSound(w: World, r: RevId)
    requires Ok(w) && r in w.db.revisions && w.db.revisions[r].document in w.db.docs
    requires var doc := w.db.docs[w.db.revisions[r].document];
             doc.current == Some(r) && doc.active.Some? && doc.active.value != r
    ensures var db := Activate(Withdraw(w.db, w.db.revisions[r].document), r);
            Sound(w, w.(db := db, log := w.log + [PromotionOf(w.db, r)]))
  {
    var d := w.db.revisions[r].document;
    var mid := w.(db := Withdraw(w.db, d));
    hide Ok;
    hide Sound;
    hide Activate;
    hide Linked;
    WithdrawOk(w, d);
    SoundIsOk(w, mid);
    ActivateSound(mid, r);
    SoundTransitive(w, mid, mid.(db := Activate(mid.db, r), log := mid.log + [PromotionOf(mid.db, r)]));
  }

  lemma PublishSound(w: World, r: RevId, vectors: bool)
    requires Ok(w) && r in w.claimed
    ensures Sound(w, Next(w, PublishResult(r, vectors)))
  {
    hide Sound;
    hide Activate;
    hide Withdraw;
    hide WithDone;
    hide Linked;
    hide PromotionOf;
    hide NodesOk;
    StillSound(w);
    DoneSound(w, r);
    if r in w.db.revisions && w.db.revisions[r].document in w.db.docs {
      var d := w.db.revisions[r].document;
      assert DocOk(w.db, d);
      hide Ok;
      var doc := w.db.docs[d];
      if doc.current == Some(r) && doc.active.Some? && doc.active.value != r {
        SupersedeSound(w, r);
      } else if doc.current == Some(r) {
        ActivateSound(w, r);
      }
    }
  }

  lemma StepSound(w: World, step: Step)
    requires Ok(w) && Enabled(w, step)
    ensures Sound(w, Next(w, step))
  {
    match step
    case IngestFile(poll) => IngestSound(w, poll);
    case Absent(d, confirmPolls, now) => AbsentSound(w, d, confirmPolls, now);
    case Prune(d, retention, now) => PruneSound(w, d, retention, now);
    case Claim(revs) => ClaimSound(w, revs);
    case PublishResult(r, vectors) => PublishSound(w, r, vectors);
    case Fail(r) =>
      MarksAreQuiet(w.db, MarkFailed(w.db, r));
      QuietSound(w, MarkFailed(w.db, r));
    case Label(k) => LabelSound(w, w.db.labelled + {k});
    case Unlabel(k) => LabelSound(w, w.db.labelled - {k});
  }

  lemma ClaimIsQuiet(db: Db, revs: set<RevId>)
    requires DbOk(db)
    ensures Quiet(db, ClaimRevisions(db, revs)) && ClaimRevisions(db, revs).queue.Keys == db.queue.Keys
  {
    hide DbOk;
    hide Quiet;
    MarksAreQuiet(db, ClaimRevisions(db, revs));
  }

  lemma QueuedIsClaimed(db: Db, r: RevId)
    requires DbOk(db) && r in db.queue
    ensures ClaimedOk(db, r)
  {
    assert RevisionOk(db, r);
  }

  lemma ClaimSound(w: World, revs: set<RevId>)
    requires Ok(w) && forall r :: r in revs ==> Claimable(w.db, r)
    ensures Sound(w, w.(db := ClaimRevisions(w.db, revs), claimed := w.claimed + revs))
  {
    hide NodesOk;
    hide DbOk;
    hide ClaimRevisions;
    hide PromotionOk;
    hide ClaimedOk;
    hide Evolves;
    hide Grows;
    var after := ClaimRevisions(w.db, revs);
    ClaimIsQuiet(w.db, revs);
    QuietSound(w, after);
    forall r | r in revs ensures ClaimedOk(after, r) {
      assert r in after.queue;
      QueuedIsClaimed(after, r);
    }
  }

  lemma LabelSound(w: World, labelled: set<Node>)
    requires Ok(w) && labelled <= w.db.nodes
    ensures Sound(w, w.(db := w.db.(labelled := labelled)))
  {
    var after := w.db.(labelled := labelled);
    assert forall k: Node :: IsActive(after, k) == IsActive(w.db, k);
    hide NodesOk;
    MarksAreQuiet(w.db, w.db);
    forall d | d in after.docs ensures DocOk(after, d) { assert DocOk(w.db, d); }
  }
}
