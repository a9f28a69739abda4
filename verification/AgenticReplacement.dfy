/** Re-enrichment replaces a segment's node instead of adding another. */
module AgenticReplacement {
  import opened Options
  import Lists
  import opened Agentic
  import opened AgenticRuns

  // ---------------------------------------------------------------- one publication

  /** Nothing about node `m` changed. */
  ghost predicate SameNode(db: Db, after: Db, m: NodeId) {
    && m in db.nodes && m in after.nodes && after.nodes[m] == db.nodes[m]
    && (m in after.vectors <==> m in db.vectors)
    && (forall l: (NodeId, SegId) :: l.0 == m ==> (l in after.links <==> l in db.links))
    && (forall l: (NodeId, Label) :: l.0 == m ==> (l in after.labels <==> l in db.labels))
  }

  /** `after` is `db` with node `n` of the batch in place of the nodes it replaces. */
  ghost predicate Replaced(db: Db, after: Db, n: NodeId, within: set<SegId>, labels: set<Label>) {
    && (within != {} ==> Prior(after, within) == {n})
    && n in after.nodes && after.nodes[n] == Observation && n !in after.vectors
    && (forall s :: (n, s) in after.links <==> s in within)
    && (forall l :: (n, l) in after.labels <==> l in labels)
    && (forall m :: m in db.nodes && m !in Prior(db, within) ==> m != n && SameNode(db, after, m))
    && (forall m :: m in after.nodes ==> m == n || (m in db.nodes && m !in Prior(db, within)))
  }

  /** The observation nodes linked only within the batch are replaced by the new one; every other node,
      whatever its type, keeps its links, labels and vector; and nothing dangles. */
  lemma WriteReplaces(db: Db, ids: seq<SegId>, hashes: Hashes, labels: set<Label>, vectorsReachable: bool)
    requires Intact(db)
    ensures var (after, result) := Write(db, ids, hashes, labels, vectorsReachable);
            result.Committed? && result.value.Some? ==>
              Intact(after) && Replaced(db, after, result.value.value, Lists.Elements(ids), labels)
  {
    WriteIntact(db, ids, hashes, labels, vectorsReachable);
    hide Prior;
    hide NextNode;
    hide Changed;
    hide WithWatermarks;
    hide Intact;
    hide WithNode;
    hide WithoutNodes;
    hide Replaced;
    if Aligned(ids, hashes) {
      var within := Lists.Elements(ids);
      var cleared := WithoutNodes(db, Prior(db, within));
      var added := WithNode(cleared, within, labels);
      ReplacedByNew(db, within, labels);
      WatermarksOnly(WithEnriched(added, within), ids, hashes);
      ReplacedIgnoresRows(db, added, WithWatermarks(WithEnriched(added, within), ids, hashes), NextNode(cleared),
                          within, labels);
    }
  }

  lemma ReplacedIgnoresRows(db: Db, added: Db, after: Db, n: NodeId, within: set<SegId>, labels: set<Label>)
    requires Replaced(db, added, n, within, labels)
    requires after == added.(segments := after.segments, queue := after.queue)
    ensures Replaced(db, after, n, within, labels)
  {
    assert Prior(after, within) == Prior(added, within) by {
      forall m ensures m in Prior(after, within) <==> m in Prior(added, within) { SamePrior(added, after, within, m); }
    }
    hide Prior;
    forall m | m in db.nodes && m !in Prior(db, within) ensures SameNode(db, after, m) {
      assert SameNode(db, added, m);
    }
  }

  lemma ReplacedByNew(db: Db, within: set<SegId>, labels: set<Label>)
    requires Intact(db)
    ensures var cleared := WithoutNodes(db, Prior(db, within));
            Replaced(db, WithNode(cleared, within, labels), NextNode(cleared), within, labels)
  {
    var cleared := WithoutNodes(db, Prior(db, within));
    var after, n := WithNode(cleared, within, labels), NextNode(cleared);
    ClearedIsIntact(db, within);
    NewNodeStandsAlone(cleared, within, labels);
    forall m: NodeId | m in db.nodes && m !in Prior(db, within) ensures m != n && SameNode(db, after, m) {
      OthersAreKept(db, within, labels, m);
    }
    assert n !in cleared.nodes && after.nodes == cleared.nodes[n := Observation];
    assert cleared.nodes == db.nodes - Prior(db, within) && after.vectors == cleared.vectors;
    hide *;
    OnlyNewWithin(db, cleared, after, within, n);
    ReplacedIf(db, after, n, within, labels);
  }

  lemma ReplacedIf(db: Db, after: Db, n: NodeId, within: set<SegId>, labels: set<Label>)
    requires within != {} ==> Prior(after, within) == {n}
    requires after.nodes == (db.nodes - Prior(db, within))[n := Observation] && n !in after.vectors
    requires forall s :: (n, s) in after.links <==> s in within
    requires forall l :: (n, l) in after.labels <==> l in labels
    requires forall m :: m in db.nodes && m !in Prior(db, within) ==> m != n && SameNode(db, after, m)
    ensures Replaced(db, after, n, within, labels)
  {
    hide Prior;
    hide SameNode;
  }

  lemma OthersAreKept(db: Db, within: set<SegId>, labels: set<Label>, m: NodeId)
    requires m in db.nodes && m !in Prior(db, within)
    ensures var cleared := WithoutNodes(db, Prior(db, within));
            m != NextNode(cleared) && SameNode(db, WithNode(cleared, within, labels), m)
  {
    hide Prior;
    hide NextNode;
  }

  lemma SamePrior(db: Db, after: Db, within: set<SegId>, m: NodeId)
    requires m in db.nodes <==> m in after.nodes
    requires m in db.nodes ==> after.nodes[m] == db.nodes[m]
    requires forall s :: (m, s) in after.links <==> (m, s) in db.links
    ensures m in Prior(after, within) <==> m in Prior(db, within)
  {
    hide Prior;
    assert forall s :: Observes(after, m, s) <==> Observes(db, m, s);
    assert (forall l :: l in after.links && l.0 == m ==> l.1 in within) <==>
             (forall s :: (m, s) in after.links ==> s in within);
    assert (forall l :: l in db.links && l.0 == m ==> l.1 in within) <==>
             (forall s :: (m, s) in db.links ==> s in within);
  }

  lemma ClearedIsIntact(db: Db, within: set<SegId>)
    requires Intact(db)
    ensures Intact(WithoutNodes(db, Prior(db, within)))
  {
    hide Prior;
  }

  lemma NewNodeStandsAlone(db: Db, within: set<SegId>, labels: set<Label>)
    requires Intact(db)
    ensures var after, n := WithNode(db, within, labels), NextNode(db);
            && n !in db.vectors
            && (forall s :: (n, s) in after.links <==> s in within)
            && (forall l :: (n, l) in after.labels <==> l in labels)
            && (forall l :: l in after.links && l.0 != n <==> l in db.links)
            && (forall l :: l in after.labels && l.0 != n <==> l in db.labels)
  {
    hide NextNode;
  }

  lemma OnlyNewWithin(db: Db, cleared: Db, after: Db, within: set<SegId>, n: NodeId)
    requires cleared == WithoutNodes(db, Prior(db, within)) && n !in cleared.nodes
    requires after.nodes == cleared.nodes[n := Observation]
    requires forall s :: (n, s) in after.links <==> s in within
    requires forall l :: l in after.links && l.0 != n <==> l in cleared.links
    ensures within != {} ==> Prior(after, within) == {n}
  {
    hide Prior;
    if within != {} {
      var s :| s in within;
      assert Observes(after, n, s);
      assert forall l :: l in after.links && l.0 == n ==> l == (n, l.1);
      forall m: NodeId | m in cleared.nodes ensures m !in Prior(after, within) {
        SamePrior(db, after, within, m);
      }
      forall m ensures m in Prior(after, within) <==> m == n {
        assert m in Prior(after, within) ==> m in after.nodes;
      }
    }
  }

  lemma {:induction false} WatermarksClose(db: Db, ids: seq<SegId>, hashes: seq<Option<Hash>>, s: SegId)
    requires |hashes| == |ids| && s in db.segments
    requires forall i :: 0 <= i < |ids| && ids[i] == s ==> hashes[i] == db.segments[s].hash
    ensures var after := WithWatermarks(db, ids, Some(hashes));
            && s in after.segments
            && after.segments[s] == if s in ids && db.segments[s].hash.Some?
                                    then db.segments[s].(watermark := db.segments[s].hash) else db.segments[s]
    decreases |ids|
  {
    if ids != [] {
      var k := |ids| - 1;
      WatermarksClose(db, ids[..k], hashes[..k], s);
      assert ids == ids[..k] + [ids[k]];
      hide WithWatermarks;
    }
  }

  /** A publication moves the watermark of exactly its members that have content, to the content their rows hold now;
      a write that publishes nothing moves none. */
  lemma WriteClosesCurrent(db: Db, ids: seq<SegId>, hashes: seq<Option<Hash>>, labels: set<Label>,
                           vectorsReachable: bool, s: SegId)
    requires |hashes| == |ids| && s in db.segments
    ensures var (after, result) := Write(db, ids, Some(hashes), labels, vectorsReachable);
            && s in after.segments && after.segments[s].hash == db.segments[s].hash
            && after.segments[s].watermark
               == if result.Committed? && result.value.Some? && s in ids && db.segments[s].hash.Some?
                  then db.segments[s].hash else db.segments[s].watermark
  {
    hide Prior;
    hide NextNode;
    hide WithWatermarks;
    var within := Lists.Elements(ids);
    var cleared := WithoutNodes(db, Prior(db, within));
    var enriched := WithEnriched(WithNode(cleared, within, labels), within);
    if !Changed(db, ids, Some(hashes)) {
      forall i | 0 <= i < |ids| && ids[i] == s ensures hashes[i] == db.segments[s].hash {
        assert IsCurrent(db, ids[i], hashes[i]);
      }
      assert s in enriched.segments && enriched.segments[s].hash == db.segments[s].hash
        && enriched.segments[s].watermark == db.segments[s].watermark;
      WatermarksClose(enriched, ids, hashes, s);
    }
    hide WithNode;
    hide WithEnriched;
    hide WithoutNodes;
    hide Changed;
  }

  // ---------------------------------------------------------------- a batch that changed

  /** A batch any of whose members changed since it was read publishes nothing and charges nothing: its
      processing rows wait again, with the retries they had, and no other row moves. */
  lemma ChangedBatchIsReleased(db: Db, ids: seq<SegId>, hashes: seq<Option<Hash>>, labels: set<Label>,
                               vectorsReachable: bool)
    requires |hashes| == |ids|
    ensures var (after, result) := Write(db, ids, Some(hashes), labels, vectorsReachable);
            (exists i :: 0 <= i < |ids| && !IsCurrent(db, ids[i], hashes[i])) <==> result == Committed(None)
    ensures (exists i :: 0 <= i < |ids| && !IsCurrent(db, ids[i], hashes[i])) ==>
              var after := Write(db, ids, Some(hashes), labels, vectorsReachable).0;
              && after == MarkFailed(db, ids, Some(hashes)).0
              && after == db.(queue := after.queue) && after.queue.Keys == db.queue.Keys
              && forall s :: s in db.queue ==>
                   if s in ids && db.queue[s].status == Processing
                   then after.queue[s] == db.queue[s].(status := Waiting, lockedAt := None)
                   else after.queue[s] == db.queue[s]
  {
    hide WithWatermarks;
    hide Prior;
    hide NextNode;
    assert Changed(db, ids, Some(hashes)) <==> exists i :: 0 <= i < |ids| && !IsCurrent(db, ids[i], hashes[i]);
  }

  // ---------------------------------------------------------------- one segment, one node

  /** The node the last publication for a segment minted. */
  function LastPublished(log: seq<Handled>, s: SegId): Option<NodeId> {
    if log == [] then None
    else
      var h := log[|log| - 1];
      if h.how.Enriched? && h.claim.segment == s then Some(h.how.node) else LastPublished(log[..|log| - 1], s)
  }

  /** Claiming hands out one segment at a time. */
  predicate OneByOne(step: Step) {
    step.Publish? ==> |step.batch| == 1
  }

  /** The observation node of a segment is the one its last publication minted, and belongs to it alone. */
  ghost predicate OneEach(w: World) {
    && (forall n: NodeId, s: SegId :: Observes(w.db, n, s) <==> LastPublished(w.log, s) == Some(n))
    && (forall n: NodeId, s: SegId, t: SegId :: Observes(w.db, n, s) && Observes(w.db, n, t) ==> s == t)
  }

  lemma {:induction false} QuietLog(log: seq<Handled>, more: seq<Handled>, s: SegId)
    requires forall i :: 0 <= i < |more| ==> !more[i].how.Enriched?
    ensures LastPublished(log + more, s) == LastPublished(log, s)
    decreases |more|
  {
    if more == [] {
      assert log + more == log;
    } else {
      var k := |more| - 1;
      QuietLog(log, more[..k], s);
      assert (log + more)[..|log| + k] == log + more[..k];
    }
  }

  lemma QuietKeepsOneEach(w: World, after: Db, more: seq<Handled>)
    requires OneEach(w)
    requires forall n, s :: Observes(after, n, s) <==> Observes(w.db, n, s)
    requires forall i :: 0 <= i < |more| ==> !more[i].how.Enriched?
    ensures OneEach(w.(db := after, log := w.log + more))
  {
    hide Observes;
    forall s: SegId ensures LastPublished(w.log + more, s) == LastPublished(w.log, s) { QuietLog(w.log, more, s); }
    hide LastPublished;
  }

  lemma WriteOneObserves(w: World, c: Claim, after: Db, n: NodeId, labels: set<Label>, m: NodeId, t: SegId)
    requires OneEach(w) && Replaced(w.db, after, n, {c.segment}, labels)
    ensures Observes(after, m, t) <==> if t == c.segment then m == n else Observes(w.db, m, t)
  {
    var db, within := w.db, {c.segment};
    hide LastPublished;
    if Observes(db, m, c.segment) {
      forall l | l in db.links && l.0 == m ensures l.1 in within { assert Observes(db, m, l.1); }
      assert m in Prior(db, within);
    }
    hide Prior;
    assert (n, t) in after.links <==> t in within;
    if m in db.nodes && m !in Prior(db, within) {
      assert SameNode(db, after, m);
      assert (m, t) in after.links <==> (m, t) in db.links;
    }
    if m in Prior(db, within) {
      assert Observes(db, m, c.segment);
      assert Observes(db, m, t) ==> t == c.segment;
    }
  }

  lemma WriteObservation(db: Db, ids: seq<SegId>, hashes: Hashes, labels: set<Label>, vectorsReachable: bool)
    ensures var (after, result) := Write(db, ids, hashes, labels, vectorsReachable);
            !(result.Committed? && result.value.Some?) ==> after == db.(queue := after.queue)
  {
    hide Prior;
    hide NextNode;
    hide Changed;
    hide WithWatermarks;
  }

  lemma PublishOneEach(w: World, c: Claim, labels: set<Label>, vectorsReachable: bool)
    requires Intact(w.db) && OneEach(w)
    ensures OneEach(PublishNext(w, [c], labels, vectorsReachable))
  {
    var ids := IdsOf([c]);
    var (after, result) := Write(w.db, ids, HashesOf([c]), labels, vectorsReachable);
    WriteReplaces(w.db, ids, HashesOf([c]), labels, vectorsReachable);
    WriteObservation(w.db, ids, HashesOf([c]), labels, vectorsReachable);
    assert ids == [c.segment] && Lists.Elements(ids) == {c.segment};
    hide Write;
    hide Intact;
    if result.Committed? && result.value.Some? {
      PublishedOneEach(w, c, after, result.value.value, labels);
    } else {
      QuietKeepsOneEach(w, after, []);
      assert w.log + [] == w.log;
    }
  }

  lemma PublishedOneEach(w: World, c: Claim, after: Db, n: NodeId, labels: set<Label>)
    requires OneEach(w) && Replaced(w.db, after, n, {c.segment}, labels)
    ensures OneEach(w.(db := after, log := w.log + AllHandled([c], Enriched(n))))
  {
    var log := w.log + AllHandled([c], Enriched(n));
    assert log[..|log| - 1] == w.log && log[|log| - 1] == Handled(c, Enriched(n));
    assert forall s :: (n, s) in after.links ==> s == c.segment;
    forall m, t ensures Observes(after, m, t) <==> if t == c.segment then m == n else Observes(w.db, m, t) {
      WriteOneObserves(w, c, after, n, labels, m, t);
    }
    hide Replaced;
    assert forall s :: Observes(after, n, s) ==> s == c.segment;
    hide Observes;
  }

  lemma MintOneEach(w: World, kind: NodeType, segments: set<SegId>, labels: set<Label>)
    requires Intact(w.db) && OneEach(w) && Enabled(w, Mint(kind, segments, labels))
    ensures OneEach(Next(w, Mint(kind, segments, labels)))
  {
    var after := Minted(w.db, kind, segments, labels);
    forall n, s ensures Observes(after, n, s) <==> Observes(w.db, n, s) {
      MintedObserves(w.db, kind, segments, labels, n, s);
    }
    hide Minted;
    QuietKeepsOneEach(w, after, []);
    assert w.log + [] == w.log;
  }

  lemma MintedObserves(db: Db, kind: NodeType, segments: set<SegId>, labels: set<Label>, n: NodeId, s: SegId)
    requires Intact(db) && (kind == Observation ==> segments == {})
    ensures Observes(Minted(db, kind, segments, labels), n, s) <==> Observes(db, n, s)
  {
    hide NextNode;
  }

  lemma SameNodesOneEach(w: World, after: Db)
    requires OneEach(w) && after.nodes == w.db.nodes && after.links == w.db.links
    ensures OneEach(w.(db := after))
  {
    assert forall n, s :: Observes(after, n, s) <==> Observes(w.db, n, s);
    QuietKeepsOneEach(w, after, []);
    assert w.log + [] == w.log;
  }

  lemma SkipOneEach(w: World, c: Claim)
    requires OneEach(w) && c in w.read
    ensures OneEach(Next(w, Skip(c)))
  {
    assert forall n, s :: Observes(SkipOne(w.db, c), n, s) <==> Observes(w.db, n, s);
    QuietKeepsOneEach(w, SkipOne(w.db, c), [Handled(c, NotWorthIt)]);
  }

  lemma GiveUpOneEach(w: World, batch: seq<Claim>)
    requires OneEach(w)
    ensures OneEach(GiveUpNext(w, batch))
  {
    var db := MarkFailed(w.db, IdsOf(batch), HashesOf(batch)).0;
    FailEachFrom(w.db, batch, 0);
    assert forall n, s :: Observes(db, n, s) <==> Observes(w.db, n, s);
    hide MarkFailed;
    hide OneEach;
    hide Exhausted;
    hide Changed;
    QuietKeepsOneEach(w, db, Exhausted(db, batch));
    QuietKeepsOneEach(w, db, []);
    assert w.log + [] == w.log;
  }

  lemma StepOneEach(w: World, step: Step)
    requires Ok(w) && OneEach(w) && Enabled(w, step) && OneByOne(step)
    ensures OneEach(Next(w, step))
  {
    hide OneEach;
    match step
    case Skip(c) => SkipOneEach(w, c);
    case Publish(batch, labels, vectorsReachable) =>
      assert batch == [batch[0]];
      PublishOneEach(w, batch[0], labels, vectorsReachable);
    case GiveUp(batch) => GiveUpOneEach(w, batch);
    case Mint(kind, segments, labels) => MintOneEach(w, kind, segments, labels);
    case Read(_) => SameNodesOneEach(w, w.db); ReadOneEach(w, step);
    case _ =>
      hide PickedIn;
      SameNodesOneEach(w, Next(w, step).db);
  }

  lemma ReadOneEach(w: World, step: Step)
    requires OneEach(w) && Enabled(w, step) && step.Read?
    ensures OneEach(Next(w, step))
  {
  }

  lemma {:induction false} RunOneEach(from: World, steps: seq<Step>, to: World)
    requires Ok(from) && OneEach(from) && Run(from, steps, to)
    requires forall i :: 0 <= i < |steps| ==> OneByOne(steps[i])
    ensures OneEach(to)
    decreases |steps|
  {
    hide OneEach;
    hide Ok;
    if steps != [] {
      StepOk(from, steps[0]);
      StepOneEach(from, steps[0]);
      RunOneEach(Next(from, steps[0]), steps[1..], to);
    }
  }

  /** As long as batches hold one segment, a segment has at most one observation node: the one its last
      publication minted. */
  lemma OneNodePerSegment(steps: seq<Step>, w: World, s: SegId)
    requires Run(INITIAL, steps, w) && forall i :: 0 <= i < |steps| ==> OneByOne(steps[i])
    ensures forall n: NodeId :: Observes(w.db, n, s) <==> LastPublished(w.log, s) == Some(n)
    ensures forall m, n :: Observes(w.db, m, s) && Observes(w.db, n, s) ==> m == n
  {
    assert OneEach(INITIAL) by {
      assert forall n, t :: !Observes(INITIAL.db, n, t);
    }
    RunOneEach(INITIAL, steps, w);
  }

  /** Batches that overlap do accrete: the earlier node also covers a segment that is not re-enriched. */
  lemma OverlappingBatchesAccrete(db: Db, a: SegId, b: SegId, labels: set<Label>)
    requires Intact(db) && a in db.segments && b in db.segments && a != b
    ensures var (mid, first) := Write(db, [a, b], None, labels, true);
            var (after, second) := Write(mid, [a], None, labels, true);
            && first.Committed? && first.value.Some? && second.Committed? && second.value.Some?
            && first.value.value != second.value.value
            && Observes(after, first.value.value, a) && Observes(after, second.value.value, a)
  {
    hide Write;
    hide Prior;
    var (mid, first) := Write(db, [a, b], None, labels, true);
    WriteCommits(db, [a, b], labels);
    WriteReplaces(db, [a, b], None, labels, true);
    var m := first.value.value;
    assert Lists.Elements([a, b]) == {a, b} && Lists.Elements([a]) == {a};
    assert (m, b) in mid.links && (m, a) in mid.links;
    var (after, second) := Write(mid, [a], None, labels, true);
    WriteCommits(mid, [a], labels);
    WriteReplaces(mid, [a], None, labels, true);
    assert m !in Prior(mid, {a});
    assert SameNode(mid, after, m);
  }

  lemma WriteCommits(db: Db, ids: seq<SegId>, labels: set<Label>)
    requires Linkable(db, ids)
    ensures var (after, result) := Write(db, ids, None, labels, true);
            result.Committed? && result.value.Some? && after.segments.Keys == db.segments.Keys
  {
    hide Prior;
    hide NextNode;
  }

  // ---------------------------------------------------------------- the duplicate guard

  /** Node `n` is a workflow outcome that links the segment. */
  predicate OutcomeLinks(db: Db, n: NodeId, s: SegId) {
    (n, s) in db.links && n in db.nodes && db.nodes[n] == ChangeOutcome
  }

  /** "Already enriched" promises a node of the segment's own. Any link satisfies the guard, so a claim that passes
      it has no such node exactly if all its segment's links come from workflow outcomes. Where no outcome links the
      segment the guard is right: the links there are lead to one node, the one its last publication minted. */
  lemma DroppedIsProjectedIff(steps: seq<Step>, w: World, c: Claim)
    requires Run(INITIAL, steps, w) && forall i :: 0 <= i < |steps| ==> OneByOne(steps[i])
    requires LooksEnriched(w.db, c)
    ensures (forall n :: !Observes(w.db, n, c.segment)) <==>
              forall n :: (n, c.segment) in w.db.links ==> OutcomeLinks(w.db, n, c.segment)
    ensures (forall n :: !OutcomeLinks(w.db, n, c.segment)) ==>
              && LastPublished(w.log, c.segment).Some?
              && forall n :: (n, c.segment) in w.db.links <==> n == LastPublished(w.log, c.segment).value
  {
    OneNodePerSegment(steps, w, c.segment);
    RunOk(INITIAL, steps, w);
    forall n | (n, c.segment) in w.db.links
      ensures Observes(w.db, n, c.segment) <==> !OutcomeLinks(w.db, n, c.segment)
    {
    }
    var l :| l in w.db.links && l.1 == c.segment;
    assert (l.0, c.segment) in w.db.links;
  }

  /** A segment that was skipped, and that a workflow outcome happens to link, is dropped without ever
      having had a node. */
  lemma DroppedWithoutNode(h: Hash) returns (steps: seq<Step>, w: World, c: Claim)
    ensures Run(INITIAL, steps, w) && forall i :: 0 <= i < |steps| ==> OneByOne(steps[i])
    ensures LooksEnriched(w.db, c) && 0 in w.db.segments && c == ReadClaim(w.db, 0) == Claim(0, Some(h), Some(h))
    ensures forall n :: !Observes(w.db, n, 0)
  {
    var read := Claim(0, Some(h), None);
    var s1, s2, s3, s4 := Upsert(0, "", 0, Some(h)), Read(0), Skip(read), Mint(ChangeOutcome, {0}, {});
    var w1, w2, w3 := Next(INITIAL, s1), ReadWorld(h), SkippedWorld(h);
    w := Next(w3, s4);
    c := ReadClaim(w.db, 0);
    steps := [s1, s2, s3, s4];
    OutcomeLinked(w3);
    OutcomeStep(h);
    hide *;
    ReadSteps(h);
    SkipStep(h);
    RunOfFour(INITIAL, s1, w1, s2, w2, s3, w3, s4, w);
  }

  lemma RunOfFour(a: World, s: Step, b: World, t: Step, c: World, u: Step, d: World, v: Step, e: World)
    requires Enabled(a, s) && Enabled(b, t) && Enabled(c, u) && Enabled(d, v)
    requires b == Next(a, s) && c == Next(b, t) && d == Next(c, u) && e == Next(d, v)
    ensures Run(a, [s, t, u, v], e)
  {
    hide Next;
    hide Enabled;
    assert Run(e, [], e);
    assert Run(d, [v], e) by { assert [v][1..] == []; }
    assert Run(c, [u, v], e) by { assert [u, v][1..] == [v]; }
    assert Run(b, [t, u, v], e) by { assert [t, u, v][1..] == [u, v]; }
    assert [s, t, u, v][1..] == [t, u, v];
  }

  lemma OutcomeStep(h: Hash)
    ensures Enabled(SkippedWorld(h), Mint(ChangeOutcome, {0}, {}))
    ensures var w := Next(SkippedWorld(h), Mint(ChangeOutcome, {0}, {}));
            0 in w.db.segments && ReadClaim(w.db, 0) == Claim(0, Some(h), Some(h))
  {
    hide NextNode;
  }

  lemma ReadSteps(h: Hash)
    ensures Enabled(INITIAL, Upsert(0, "", 0, Some(h)))
    ensures Enabled(Next(INITIAL, Upsert(0, "", 0, Some(h))), Read(0))
    ensures Next(Next(INITIAL, Upsert(0, "", 0, Some(h))), Read(0)) == ReadWorld(h)
  {
  }

  lemma SkipStep(h: Hash)
    ensures Enabled(ReadWorld(h), Skip(Claim(0, Some(h), None)))
    ensures Next(ReadWorld(h), Skip(Claim(0, Some(h), None))) == SkippedWorld(h)
  {
  }

  function ReadWorld(h: Hash): World {
    World(Db(map[0 := Segment("", 0, Some(h), None, false)], map[], map[], {}, {}, {}), {Claim(0, Some(h), None)}, [])
  }

  function SkippedWorld(h: Hash): World {
    World(Db(map[0 := Segment("", 0, Some(h), Some(h), true)], map[], map[], {}, {}, {}),
          {Claim(0, Some(h), None)}, [Handled(Claim(0, Some(h), None), NotWorthIt)])
  }

  lemma OutcomeLinked(w: World)
    requires w.db.links == {} && w.db.nodes == map[]
    ensures var db := Minted(w.db, ChangeOutcome, {0}, {}); HasNode(db, 0) && forall n :: !Observes(db, n, 0)
  {
    hide NextNode;
    assert (NextNode(w.db), 0) in Minted(w.db, ChangeOutcome, {0}, {}).links;
  }
}
