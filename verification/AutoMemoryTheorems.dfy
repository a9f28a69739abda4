/** What whole histories of the auto-memory tables guarantee, and where the code falls short. */
module AutoMemoryTheorems {
  import opened Options
  import Lists
  import opened RowIds
  import opened AutoMemory
  import opened AutoMemoryRuns
  import Sorting

  // ---------------------------------------------------------------- every history is in order

  lemma {:induction false} RunSound(from: World, steps: seq<Step>, to: World)
    requires Ok(from) && Run(from, steps, to)
    ensures Sound(from, to) && from.log <= to.log && from.claimed <= to.claimed
    decreases |steps|
  {
    hide Sound;
    if steps == [] {
      StillSound(from);
    } else {
      var mid := Next(from, steps[0]);
      StepSound(from, steps[0]);
      SoundIsOk(from, mid);
      RunSound(mid, steps[1..], to);
      SoundTransitive(from, mid, to);
      hide Ok;
      LogGrows(from, steps[0]);
    }
  }

  lemma LogGrows(w: World, step: Step)
    requires Enabled(w, step)
    ensures w.log <= Next(w, step).log && w.claimed <= Next(w, step).claimed
  {
    hide Publish;
  }

  lemma EveryReachableWorldIsOk(w: World)
    requires Reachable(w)
    ensures Ok(w)
  {
    var steps :| Run(INITIAL, steps, w);
    assert Ok(INITIAL) by {
      forall k: Node ensures k !in INITIAL.db.nodes && !IsActive(INITIAL.db, k) && !Unfindable(INITIAL.log, k) {}
    }
    RunSound(INITIAL, steps, w);
  }

  // ---------------------------------------------------------------- pointers only go forward

  /** A document's current pointer never disappears, and when it differs it names a larger revision number. */
  lemma CurrentNumberOnlyGrows(w: World, steps: seq<Step>, later: World, d: DocId)
    requires Reachable(w) && Run(w, steps, later) && d in w.db.docs
    ensures d in later.db.docs
    ensures w.db.docs[d].current.Some? && later.db.docs[d].current.Some?
    ensures var c, c' := w.db.docs[d].current.value, later.db.docs[d].current.value;
            && c in w.db.revisions && c' in later.db.revisions
            && (c == c' ==> later.db.revisions[c] == w.db.revisions[c])
            && (c != c' ==> w.db.revisions[c].number < later.db.revisions[c'].number)
  {
    EveryReachableWorldIsOk(w);
    RunSound(w, steps, later);
    assert DocOk(w.db, d);
  }

  /** Active revisions may be withdrawn, but the next one never has a smaller number. */
  lemma ActiveNumberNeverGoesBack(w: World, steps: seq<Step>, later: World, d: DocId)
    requires Reachable(w) && Run(w, steps, later) && d in w.db.docs && w.db.docs[d].active.Some?
    requires d in later.db.docs && later.db.docs[d].active.Some?
    ensures var a, a' := w.db.docs[d].active.value, later.db.docs[d].active.value;
            a in w.db.revisions && a' in later.db.revisions && w.db.revisions[a].number <= later.db.revisions[a'].number
  {
    EveryReachableWorldIsOk(w);
    RunSound(w, steps, later);
    hide Grows;
    hide Ok;
    SoundIsOk(w, later);
    var i := PromotedAt(w, d);
    assert later.log[i] == w.log[i];
    ActiveIsNewest(later, d, i);
  }

  lemma ActiveIsNewest(w: World, d: DocId, i: nat)
    requires Ok(w) && d in w.db.docs && w.db.docs[d].active.Some? && i < |w.log| && w.log[i].document == d
    ensures var a := w.db.docs[d].active.value; a in w.db.revisions && w.log[i].number <= w.db.revisions[a].number
  {
    var a := w.db.docs[d].active.value;
    var j := PromotedAt(w, d);
    hide DbOk;
    assert IsActive(w.db, Node(d, a)) && Latest(w.log, Node(d, a));
    assert PromotionOk(w.db, w.log[i]);
  }

  lemma PromotedAt(w: World, d: DocId) returns (i: nat)
    requires Ok(w) && d in w.db.docs && w.db.docs[d].active.Some?
    ensures var a := w.db.docs[d].active.value;
            && a in w.db.revisions && i < |w.log|
            && w.log[i] == Promotion(d, a, w.db.revisions[a].number, w.db.revisions[a].chunks)
  {
    var a := w.db.docs[d].active.value;
    assert IsActive(w.db, Node(d, a)) && DocOk(w.db, d);
    i :| 0 <= i < |w.log| && w.log[i].document == d && w.log[i].revision == a;
    assert PromotionOk(w.db, w.log[i]);
  }

  // ---------------------------------------------------------------- late results

  /** A worker's revision that its document has moved past, or that pruning has removed. */
  predicate Overtaken(w: World, r: RevId) {
    && r in w.claimed
    && (r in w.db.revisions && w.db.revisions[r].document in w.db.docs ==>
          w.db.docs[w.db.revisions[r].document].current != Some(r))
  }

  lemma OvertakenStays(w: World, steps: seq<Step>, later: World, r: RevId)
    requires Ok(w) && Run(w, steps, later) && Overtaken(w, r)
    ensures Overtaken(later, r)
  {
    RunSound(w, steps, later);
    hide NodesOk;
    assert ClaimedOk(w.db, r) && ClaimedOk(later.db, r);
    if r in later.db.revisions {
      assert SettledKept(w.db, later.db, r);
      var d := w.db.revisions[r].document;
      assert DocOk(w.db, d) && PointerAdvances(w.db, later.db, d);
    }
  }

  /** However late the result of a superseded, tombstoned or pruned revision arrives, it changes no document,
      node, link or label: at most it retires its own queue row. */
  lemma LateResultChangesNothing(w: World, steps: seq<Step>, later: World, r: RevId, vectors: bool)
    requires Reachable(w) && Run(w, steps, later) && Overtaken(w, r)
    ensures var (after, result) := Publish(later.db, r, vectors);
            && result in {Committed(None), Raised(NoSuchRevision)}
            && after == later.db.(queue := after.queue)
            && (forall x :: x in later.db.queue && x != r ==> x in after.queue && after.queue[x] == later.db.queue[x])
  {
    EveryReachableWorldIsOk(w);
    OvertakenStays(w, steps, later, r);
    RunSound(w, steps, later);
    OvertakenIsDiscarded(later, r, vectors);
  }

  lemma OvertakenIsDiscarded(w: World, r: RevId, vectors: bool)
    requires Ok(w) && Overtaken(w, r)
    ensures var (after, result) := Publish(w.db, r, vectors);
            && result in {Committed(None), Raised(NoSuchRevision)}
            && after == w.db.(queue := after.queue)
            && (forall x :: x in w.db.queue && x != r ==> x in after.queue && after.queue[x] == w.db.queue[x])
  {
    hide NodesOk;
    hide PromotionOk;
    if r in w.db.revisions {
      assert RevisionOk(w.db, r) && DocOk(w.db, w.db.revisions[r].document);
    }
  }

  // ---------------------------------------------------------------- which nodes exist

  /** The knowledge nodes are each document's active revision, plus exactly the ones that were enriched
      from no chunk and could not be found when they were superseded or tombstoned. */
  lemma NodesAreActiveOrUnfindable(w: World)
    requires Reachable(w)
    ensures forall k :: k in w.db.nodes <==> IsActive(w.db, k) || Unfindable(w.log, k)
    ensures forall l: (Node, Chunk) :: l in w.db.links <==> LinkOk(w.db, l.0, l.1)
  {
    EveryReachableWorldIsOk(w);
  }

  /** One projection per document holds exactly when every chunkless promotion is still the active one. */
  lemma OneProjectionIffNoStray(w: World)
    requires Reachable(w)
    ensures (forall k :: k in w.db.nodes <==> IsActive(w.db, k)) <==>
            (forall i :: 0 <= i < |w.log| && w.log[i].chunks == 0 ==>
               IsActive(w.db, Node(w.log[i].document, w.log[i].revision)))
  {
    EveryReachableWorldIsOk(w);
    hide DbOk;
    hide IsActive;
    hide PromotionOk;
    if forall i :: 0 <= i < |w.log| && w.log[i].chunks == 0 ==>
         IsActive(w.db, Node(w.log[i].document, w.log[i].revision))
    {
      forall k ensures k in w.db.nodes <==> IsActive(w.db, k) {
        assert k == Node(k.document, k.revision);
      }
    } else {
      var i :| 0 <= i < |w.log| && w.log[i].chunks == 0 && !IsActive(w.db, Node(w.log[i].document, w.log[i].revision));
      assert Unfindable(w.log, Node(w.log[i].document, w.log[i].revision));
    }
  }

  // ---------------------------------------------------------------- publishing and burying

  predicate HasChunks(db: Db, r: Option<RevId>) {
    r.Some? && r.value in db.revisions && db.revisions[r.value].chunks > 0
  }

  /** A claimed revision's result is published exactly when it is the document's current revision and the
      node it replaces, if that can be found, can be deleted together with its vector. */
  lemma PublishesIffCurrent(w: World, r: RevId, vectors: bool)
    requires Reachable(w) && r in w.claimed && r in w.db.revisions
    ensures w.db.revisions[r].document in w.db.docs
    ensures var d := w.db.revisions[r].document;
            var doc, (after, result) := w.db.docs[d], Publish(w.db, r, vectors);
            && (result == Committed(Some(Node(d, r))) <==>
                  && doc.current == Some(r)
                  && (doc.active in {None, Some(r)} || vectors || !HasChunks(w.db, doc.active)))
            && (result == Committed(Some(Node(d, r))) ==> after.docs[d].active == Some(r) && Node(d, r) in after.nodes)
  {
    EveryReachableWorldIsOk(w);
    assert RevisionOk(w.db, r);
    var d := w.db.revisions[r].document;
    assert DocOk(w.db, d);
    if w.db.docs[d].active.Some? {
      LinkedIffChunks(w.db, d);
    }
    hide Linked;
    hide NodesOk;
    hide PromotionOk;
    hide ChunkLinks;
  }

  /** Burying a document raises exactly when its projection was made from chunks and has been labelled since:
      the labels of the node are never removed first. Otherwise the projection is withdrawn. */
  lemma TombstoneRaisesIffLabelled(w: World, d: DocId, now: int)
    requires Reachable(w) && d in w.db.docs && w.db.docs[d].state != Tombstoned
    ensures var doc, (after, result) := w.db.docs[d], Tombstone(w.db, d, now);
            && (result.Raised? <==>
                  HasChunks(w.db, doc.active) && Node(d, doc.active.value) in w.db.labelled)
            && (result.Raised? ==> after == w.db)
            && (result.Committed? ==>
                  && after.docs[d].state == Tombstoned && after.docs[d].active.None?
                  && NumberOf(after, after.docs[d].current) > NumberOf(w.db, doc.current)
                  && (doc.active.Some? ==>
                        (Node(d, doc.active.value) in after.nodes <==> !HasChunks(w.db, doc.active))))
  {
    EveryReachableWorldIsOk(w);
    assert DocOk(w.db, d);
    var doc := w.db.docs[d];
    if doc.active.Some? {
      LinkedIffChunks(w.db, d);
      assert IsActive(w.db, Node(d, doc.active.value));
      WithdrawnIs(w.db, d);
      BuriedIs(Withdraw(w.db, d), d, now);
    }
    BuriedIs(w.db, d, now);
    hide Linked;
    hide NodesOk;
    hide PromotionOk;
    hide Buried;
    hide Withdraw;
  }

  lemma WithdrawnIs(db: Db, d: DocId)
    requires d in db.docs && db.docs[d].active.Some?
    ensures var after, k := Withdraw(db, d), Node(d, db.docs[d].active.value);
            && after.docs == db.docs[d := db.docs[d].(active := None)] && after.revisions == db.revisions
            && (k in after.nodes <==> k in db.nodes && !Linked(db, k.revision))
  {
    hide Linked;
  }

  /** Burying a document moves its pointer to a new revision with a larger number, and touches no node. */
  lemma BuriedIs(db: Db, d: DocId, now: int)
    requires d in db.docs
    ensures var after := Buried(db, d, now);
            && d in after.docs && after.docs[d].state == Tombstoned && after.docs[d].active == db.docs[d].active
            && after.nodes == db.nodes
            && (db.docs[d].current.Some? && Owns(db, d, db.docs[d].current.value) ==>
                  NumberOf(after, after.docs[d].current) > NumberOf(db, db.docs[d].current))
  {
    hide Largest;
    assert db.docs[d].current.Some? && Owns(db, d, db.docs[d].current.value) ==>
      db.docs[d].current.value in RevisionsOf(db, d);
  }

  // ---------------------------------------------------------------- absence

  /** A document whose file is missing is only marked unavailable the first time, if more than one absence is asked
      for, and is otherwise buried, unless that raises; one that is buried already stays as it is. */
  lemma AbsenceIsConfirmed(db: Db, d: DocId, confirmPolls: int, now: int)
    requires d in db.docs
    ensures var (after, result) := ReconcileMissing(db, d, confirmPolls, now);
            match db.docs[d].state
            case Tombstoned => after == db && result == Committed(true)
            case Active =>
              if confirmPolls > 1
              then after == db.(docs := db.docs[d := db.docs[d].(state := Unavailable)]) && result == Committed(false)
              else BuriedOrRefused(db, d, now, after, result)
            case Unavailable => BuriedOrRefused(db, d, now, after, result)
  {
    var marked := MarkUnavailable(db, d);
    TombstoneBuries(marked, d, now);
    hide Tombstone;
    hide Buried;
    hide Withdraw;
  }

  /** The document is buried, or nothing happened. */
  predicate BuriedOrRefused(db: Db, d: DocId, now: int, after: Db, result: Outcome<bool, MemoryError>)
    requires d in db.docs
  {
    if result.Raised? then after == db && result.error == ForeignKeyViolation
    else
      && result.value && d in after.docs && after.docs[d].state == Tombstoned && after.docs[d].projection == Stale
      && after.docs[d].active.None? && after.docs[d].at == db.docs[d].at
      && after.docs[d].current.Some? && after.docs[d].current.value in after.revisions
      && after.docs[d].current.value !in db.revisions
      && var removal := after.revisions[after.docs[d].current.value];
      removal.document == d && removal.hash == NoContent && removal.kind == Remove && removal.createdAt == now
  }

  lemma TombstoneBuries(db: Db, d: DocId, now: int)
    requires d in db.docs && db.docs[d].state == Unavailable
    ensures var (after, result) := Tombstone(db, d, now);
            if result.Raised? then result.error == ForeignKeyViolation
            else
              && d in after.docs && after.docs[d].state == Tombstoned && after.docs[d].projection == Stale
              && after.docs[d].active.None? && after.docs[d].at == db.docs[d].at
              && after.docs[d].current.Some? && after.docs[d].current.value in after.revisions
              && after.docs[d].current.value !in db.revisions
              && var removal := after.revisions[after.docs[d].current.value];
              removal.document == d && removal.hash == NoContent && removal.kind == Remove && removal.createdAt == now
  {
    hide Linked;
    hide LastNumber;
    hide NextId;
  }

  // ---------------------------------------------------------------- failing

  /** `times` failures of one revision, one after the other. */
  function FailedTimes(db: Db, r: RevId, times: nat): Db {
    if times == 0 then db else MarkFailed(FailedTimes(db, r, times - 1), r)
  }

  /** However often enriching a revision fails, nodes, links, labels, revisions and pointers stay; its queue row is
      charged once each time and given up exactly from the fifth charge on; and only the document it is current for
      is marked, as stale when it still has a projection and as failed when it has none. */
  lemma {:induction false} FailuresKeepTheProjection(db: Db, r: RevId, times: nat)
    requires times > 0
    ensures var after := FailedTimes(db, r, times);
            && after == db.(queue := after.queue, docs := after.docs)
            && after.queue.Keys == db.queue.Keys
            && (forall x :: x in db.queue && x != r ==> after.queue[x] == db.queue[x])
            && (r in db.queue ==>
                  && after.queue[r].retries == db.queue[r].retries + times
                  && after.queue[r].status == (if db.queue[r].retries + times >= 5 then GivenUp else Waiting))
            && after.docs.Keys == db.docs.Keys
            && (forall d :: d in db.docs ==>
                  after.docs[d] == if db.docs[d].current != Some(r) then db.docs[d]
                                   else db.docs[d].(projection := if db.docs[d].active.Some? then Stale else Failed))
  {
    if times > 1 {
      FailuresKeepTheProjection(db, r, times - 1);
    }
  }

  // ---------------------------------------------------------------- pruning

  predicate Young(db: Db, r: RevId, retention: Retention, now: int) {
    r in db.revisions && db.revisions[r].createdAt >= now - retention.maxAgeMs
  }

  /** Pruning spares the current and active revisions, keeps what is young until the count bound bites, and
      then drops the lowest numbers first. */
  lemma PruneKeepsTheNewest(db: Db, d: DocId, retention: Retention, now: int)
    requires d in db.docs
    ensures var before, after := RevisionsOf(db, d), RevisionsOf(PruneDocument(db, d, retention, now), d);
            && after <= before && before * Protected(db.docs[d]) <= after
            && (forall r :: r in after - Protected(db.docs[d]) ==> Young(db, r, retention, now))
            && (|after| > retention.maxCount ==> after <= Protected(db.docs[d]))
            && (forall r :: r in before - after && Young(db, r, retention, now) ==>
                  && |after| >= retention.maxCount
                  && forall k :: k in after - Protected(db.docs[d]) ==> NumberOf(db, Some(r)) <= NumberOf(db, Some(k)))
  {
    PruneByParts(db, d, retention, now);
    PrunedSize(db, d, retention, now);
    hide PruneDocument;
    hide Protected;
    hide Prunable;
    hide Popped;
    hide RevisionsOf;
    hide Surviving;
    hide Aged;
    hide Excess;
    hide NumberOf;
    forall r, k
      | r in Popped(db, d, retention, now)
        && k in Surviving(db, d, retention, now) - Lists.Elements(Popped(db, d, retention, now))
      ensures NumberOf(db, Some(r)) <= NumberOf(db, Some(k))
    {
      PoppedComeFirst(db, d, retention, now, r, k);
    }
  }

  /** The revisions of a document are the protected ones, the aged ones, and the rest. */
  lemma PruneByParts(db: Db, d: DocId, retention: Retention, now: int)
    requires d in db.docs
    ensures var before, aged := RevisionsOf(db, d), Aged(db, d, retention, now);
            var rest := Surviving(db, d, retention, now);
            && before == before * Protected(db.docs[d]) + aged + rest
            && aged !! Protected(db.docs[d]) && rest !! Protected(db.docs[d]) && aged !! rest
            && (forall r :: r in aged ==> !Young(db, r, retention, now))
            && (forall r :: r in rest ==> Young(db, r, retention, now))
            && RevisionsOf(PruneDocument(db, d, retention, now), d) == before - Prunable(db, d, retention, now)
            && Prunable(db, d, retention, now) == aged + Lists.Elements(Popped(db, d, retention, now))
  {
    hide Popped;
    hide Lists.Elements;
    hide Lists.Distinct;
    hide Protected;
  }

  lemma ByNumberIsAnOrder(db: Db, r: RevId, k: RevId)
    ensures Sorting.StrictTotal(ByNumber(db))
    ensures ByNumber(db)(r, k) ==> NumberOf(db, Some(r)) <= NumberOf(db, Some(k))
  {
  }

  lemma PoppedAre(db: Db, d: DocId, retention: Retention, now: int)
    requires d in db.docs && Sorting.StrictTotal(ByNumber(db))
    ensures Popped(db, d, retention, now)
            == Sorting.FirstFew(Surviving(db, d, retention, now), ByNumber(db), Excess(db, d, retention, now))
  {
  }

  lemma PoppedComeFirst(db: Db, d: DocId, retention: Retention, now: int, r: RevId, k: RevId)
    requires d in db.docs && r in Popped(db, d, retention, now)
    requires k in Surviving(db, d, retention, now) && k !in Popped(db, d, retention, now)
    ensures NumberOf(db, Some(r)) <= NumberOf(db, Some(k))
  {
    hide *;
    ByNumberIsAnOrder(db, r, k);
    PoppedAre(db, d, retention, now);
    Sorting.PickedComeFirst(Surviving(db, d, retention, now), ByNumber(db), Excess(db, d, retention, now), r, k);
  }

  lemma PrunedSize(db: Db, d: DocId, retention: Retention, now: int)
    requires d in db.docs
    ensures var left := |RevisionsOf(db, d) - Prunable(db, d, retention, now)|;
            && (Popped(db, d, retention, now) != [] ==> left >= retention.maxCount)
            && (left > retention.maxCount ==>
                  Surviving(db, d, retention, now) <= Lists.Elements(Popped(db, d, retention, now)))
  {
    hide *;
    ByNumberIsAnOrder(db, 0, 0);
    PoppedAre(db, d, retention, now);
    PruneByParts(db, d, retention, now);
    ExcessIs(db, d, retention, now);
    PoppedFit(RevisionsOf(db, d), Aged(db, d, retention, now), Surviving(db, d, retention, now),
              Popped(db, d, retention, now), Excess(db, d, retention, now), retention.maxCount);
  }

  lemma PoppedFit(before: set<RevId>, aged: set<RevId>, rest: set<RevId>, popped: seq<RevId>, excess: nat,
                  maxCount: nat)
    requires aged + rest <= before && aged !! rest && Lists.Distinct(popped) && Lists.Elements(popped) <= rest
    requires excess == if |before| - |aged| - maxCount > 0 then |before| - |aged| - maxCount else 0
    requires |popped| == if |rest| < excess then |rest| else excess
    ensures var left := |before - (aged + Lists.Elements(popped))|;
            && (popped != [] ==> left >= maxCount)
            && (left > maxCount ==> rest <= Lists.Elements(popped))
  {
    hide *;
    Lists.ElementCount(popped);
    var taken := Lists.Elements(popped);
    assert |aged + taken| == |aged| + |taken|;
    assert before == (before - (aged + taken)) + (aged + taken);
    if |rest| <= excess {
      assert rest == taken + (rest - taken);
      assert |rest - taken| == 0;
    }
  }

  // ---------------------------------------------------------------- a stray node, and a document that stays

  /** A blank file has no chunks: ingest it, enrich it, remove it, and its node outlives the document. */
  lemma BlankFileLeavesStray(file: File, retention: Retention) returns (w: World, k: Node)
    requires file.chunks == 0 && file.at.repository != PROBE_REPOSITORY && !RepeatsTarget(file)
    ensures Reachable(w) && k in w.db.nodes && !IsActive(w.db, k)
  {
    hide Next;
    hide Enabled;
    hide Run;
    hide Projected;
    var d, r, w3 := EnrichedFile(file, retention);
    BuriedBlank(w3, d, r, 0);
    w, k := Next(w3, Absent(d, 1, 0)), Node(d, r);
    ReachableNext(w3, Absent(d, 1, 0));
  }

  /** Any file with chunks, ingested, enriched and labelled, cannot be removed again. */
  lemma LabelledFileStays(file: File, retention: Retention, now: int) returns (w: World, d: DocId)
    requires file.chunks > 0 && file.at.repository != PROBE_REPOSITORY && !RepeatsTarget(file)
    ensures Reachable(w) && ReconcileMissing(w.db, d, 1, now) == (w.db, Raised(ForeignKeyViolation))
  {
    hide Next;
    hide Run;
    hide ReconcileMissing;
    var r, w3;
    d, r, w3 := EnrichedFile(file, retention);
    w := Next(w3, Label(Node(d, r)));
    ReachableNext(w3, Label(Node(d, r)));
    LabelledRaises(w3, d, r, file.chunks, now);
  }

  lemma ReachableNext(w: World, step: Step)
    requires Reachable(w) && Enabled(w, step)
    ensures Reachable(Next(w, step))
  {
    var steps :| Run(INITIAL, steps, w);
    hide Next;
    hide Enabled;
    RunExtends(INITIAL, steps, w, step);
  }

  lemma {:induction false} RunExtends(from: World, steps: seq<Step>, w: World, step: Step)
    requires Run(from, steps, w) && Enabled(w, step)
    ensures Run(from, steps + [step], Next(w, step))
    decreases |steps|
  {
    hide Next;
    hide Enabled;
    if steps == [] {
      assert Run(Next(w, step), [], Next(w, step));
      assert (steps + [step])[1..] == [];
    } else {
      RunExtends(Next(from, steps[0]), steps[1..], w, step);
      assert (steps + [step])[1..] == steps[1..] + [step];
    }
  }

  lemma InitialIsReachable()
    ensures Reachable(INITIAL)
  {
    assert Run(INITIAL, [], INITIAL);
  }

  predicate Fresh(db: Db, d: DocId, r: RevId, chunks: nat) {
    && d in db.docs && db.docs[d].current == Some(r) && db.docs[d].active.None? && db.docs[d].state == Active
    && r in db.revisions && db.revisions[r].document == d && db.revisions[r].chunks == chunks
    && r in db.queue && db.queue[r].status == Waiting && db.links == {}
  }

  predicate Projected(db: Db, d: DocId, r: RevId, chunks: nat) {
    && d in db.docs && db.docs[d].active == Some(r) && db.docs[d].state == Active
    && Node(d, r) in db.nodes && db.links == ChunkLinks(Node(d, r), chunks)
  }

  lemma FirstIngest(file: File, retention: Retention) returns (d: DocId, r: RevId)
    requires file.at.repository != PROBE_REPOSITORY && !RepeatsTarget(file)
    ensures Enabled(INITIAL, IngestFile(Poll(file, {}, retention, 0, false)))
    ensures Fresh(Next(INITIAL, IngestFile(Poll(file, {}, retention, 0, false))).db, d, r, file.chunks)
  {
    var db := INITIAL.db;
    d, r := NextId(db.docs), NextId(db.revisions);
    assert RenameSources(db, file) == {} && DocsAt(db, file.at) == {};
    var doc := Document(file.at, file.at, file.sourcePath, None, None, Active, Pending);
    var added := IngestRevision(db.(docs := db.docs[d := doc]), d, file, 0);
    assert PlanIngest(db, file, {}, 0) == Add(d, added) && Untouched(db, file).None?;
    assert Fresh(added, d, r, file.chunks) && CurrentTargets(added, d) == file.text.targets;
    assert added.docs[d].at == file.at;
    hide IngestRevision;
    hide PlanIngest;
    FreshWritten(db, added, d, r, file, retention);
  }

  lemma FreshWritten(db: Db, added: Db, d: DocId, r: RevId, file: File, retention: Retention)
    requires PlanIngest(db, file, {}, 0) == Add(d, added) && Untouched(db, file).None?
    requires Fresh(added, d, r, file.chunks) && added.docs[d].at == file.at
    requires CurrentTargets(added, d) == file.text.targets && !RepeatsTarget(file)
    ensures Fresh(Ingest(db, Poll(file, {}, retention, 0, false)).0, d, r, file.chunks)
  {
    assert Indexable(added, d, true);
    hide *;
    AddedIs(db, Poll(file, {}, retention, 0, false), d, added);
    FreshIndexed(added, d, r, file.chunks);
    FreshPruned(Indexed(added, d, true), d, r, file.chunks, retention);
  }

  lemma FreshIndexed(db: Db, d: DocId, r: RevId, chunks: nat)
    requires Fresh(db, d, r, chunks)
    ensures d in db.docs && Fresh(Indexed(db, d, true), d, r, chunks)
  {
    hide Fitting;
    hide CurrentTargets;
  }

  lemma FreshPruned(db: Db, d: DocId, r: RevId, chunks: nat, retention: Retention)
    requires Fresh(db, d, r, chunks)
    ensures Fresh(PruneDocument(db, d, retention, 0), d, r, chunks)
  {
    PrunableIsUnprotected(db, d, retention, 0);
    hide Prunable;
    assert r !in Prunable(db, d, retention, 0);
  }

  /** What an ingest does that adds a revision. */
  lemma AddedIs(db: Db, p: Poll, d: DocId, added: Db)
    requires Untouched(db, p.file).None? && PlanIngest(db, p.file, p.files, p.now) == Add(d, added)
    ensures d in added.docs
    ensures Ingest(db, p)
         == if Indexable(added, d, true)
            then (PruneDocument(Indexed(added, d, true), d, p.retention, p.now), Committed(d))
            else (db, Raised(RepeatedTarget))
  {
    hide PlanIngest;
    hide PruneDocument;
    hide Untouched;
    hide Indexed;
    hide Indexable;
  }

  lemma EnrichedFile(file: File, retention: Retention) returns (d: DocId, r: RevId, w: World)
    requires file.at.repository != PROBE_REPOSITORY && !RepeatsTarget(file)
    ensures Reachable(w) && Projected(w.db, d, r, file.chunks)
  {
    hide Next;
    hide Enabled;
    hide Run;
    hide Fresh;
    hide Projected;
    d, r := FirstIngest(file, retention);
    var ingest := IngestFile(Poll(file, {}, retention, 0, false));
    var w1 := Next(INITIAL, ingest);
    Enriched(w1, d, r, file.chunks);
    InitialIsReachable();
    ReachableNext(INITIAL, ingest);
    var w2 := Next(w1, Claim({r}));
    ReachableNext(w1, Claim({r}));
    w := Next(w2, PublishResult(r, true));
    ReachableNext(w2, PublishResult(r, true));
  }

  lemma Enriched(w: World, d: DocId, r: RevId, chunks: nat)
    requires Fresh(w.db, d, r, chunks)
    ensures Enabled(w, Claim({r})) && Enabled(Next(w, Claim({r})), PublishResult(r, true))
    ensures Projected(Next(Next(w, Claim({r})), PublishResult(r, true)).db, d, r, chunks)
  {
    var claimed := ClaimRevisions(w.db, {r});
    assert claimed.docs[d].current == Some(r) && claimed.docs[d].active.None?;
    hide ChunkLinks;
  }

  lemma BuriedBlank(w: World, d: DocId, r: RevId, chunks: nat)
    requires Projected(w.db, d, r, chunks) && chunks == 0
    ensures Enabled(w, Absent(d, 1, 0))
    ensures var db := Next(w, Absent(d, 1, 0)).db; Node(d, r) in db.nodes && !IsActive(db, Node(d, r))
  {
    hide Largest;
    assert !Linked(MarkUnavailable(w.db, d), r);
  }

  lemma LabelledRaises(w: World, d: DocId, r: RevId, chunks: nat, now: int)
    requires Projected(w.db, d, r, chunks) && chunks > 0
    ensures Enabled(w, Label(Node(d, r)))
    ensures var db := Next(w, Label(Node(d, r))).db;
            ReconcileMissing(db, d, 1, now) == (db, Raised(ForeignKeyViolation))
  {
    hide Largest;
    var db := Next(w, Label(Node(d, r))).db;
    var l: (Node, Chunk) := (Node(d, r), Chunk(r, 0));
    assert l in db.links && Linked(MarkUnavailable(db, d), r);
    hide Buried;
    hide Withdraw;
    hide ChunkLinks;
    hide Linked;
  }
}
