/** What every history of claims, overwrites, publications and failures keeps. */
module AgenticRuns {
  import opened Options
  import Lists
  import opened Agentic

  // ---------------------------------------------------------------- histories

  datatype How = Enriched(node: NodeId) | NotWorthIt | GivenUp
  datatype Handled = Handled(claim: Claim, how: How)

  /** `read` is everything workers read of segments, `log` the content they dealt with. */
  datatype World = World(db: Db, read: set<Claim>, log: seq<Handled>)

  /** One transaction. A worker may act on what it read at any later point, any number of times, without
      still holding the row. `Upsert` and `Requeue` are the daemon, which rewrites content whenever it
      likes; `Mint` is any other writer of nodes, of which only the workflow enricher links segments. */
  datatype Step =
    | ClaimIn(cwd: string, limit: int, staleBefore: int, now: int)
    | Read(s: SegId)
    | Drop(c: Claim)
    | Skip(c: Claim)
    | Publish(batch: seq<Claim>, labels: set<Label>, vectorsReachable: bool)
    | GiveUp(batch: seq<Claim>)
    | Upsert(s: SegId, cwd: string, startTime: int, hash: Option<Hash>)
    | Requeue(s: SegId, row: QueueRow)
    | Mint(kind: NodeType, segments: set<SegId>, labels: set<Label>)
    | Embed(n: NodeId)
    | Annotate(n: NodeId, l: Label)

  predicate Enabled(w: World, step: Step) {
    match step
    case Read(s) => s in w.db.segments
    case Drop(c) => c in w.read
    case Skip(c) => c in w.read
    case Publish(batch, _, _) => forall i :: 0 <= i < |batch| ==> batch[i] in w.read
    case GiveUp(batch) => forall i :: 0 <= i < |batch| ==> batch[i] in w.read
    case Requeue(s, _) => s in w.db.segments
    case Mint(kind, segments, _) => segments <= w.db.segments.Keys && (kind == Observation ==> segments == {})
    case Embed(n) => n in w.db.nodes
    case Annotate(n, _) => n in w.db.nodes
    case _ => true
  }

  function IdsOf(batch: seq<Claim>): (r: seq<SegId>)
    ensures |r| == |batch| && forall i :: 0 <= i < |batch| ==> r[i] == batch[i].segment
  {
    seq(|batch|, i requires 0 <= i < |batch| => batch[i].segment)
  }

  function HashesOf(batch: seq<Claim>): (r: Hashes)
    ensures r.Some? && |r.value| == |batch| && forall i :: 0 <= i < |batch| ==> r.value[i] == batch[i].hash
  {
    Some(seq(|batch|, i requires 0 <= i < |batch| => batch[i].hash))
  }

  function AllHandled(batch: seq<Claim>, how: How): (r: seq<Handled>)
    ensures |r| == |batch| && forall i :: 0 <= i < |batch| ==> r[i] == Handled(batch[i], how)
  {
    seq(|batch|, i requires 0 <= i < |batch| => Handled(batch[i], how))
  }

  /** The members of a failed batch whose retries ran out. */
  function Exhausted(db: Db, batch: seq<Claim>): (r: seq<Handled>)
    ensures forall h :: h in r <==> h.how == GivenUp && h.claim in batch && HasFailed(db, h.claim.segment)
  {
    if batch == [] then []
    else
      var k := |batch| - 1;
      assert batch == batch[..k] + [batch[k]];
      Exhausted(db, batch[..k]) + if HasFailed(db, batch[k].segment) then [Handled(batch[k], GivenUp)] else []
  }

  predicate HasFailed(db: Db, s: SegId) {
    s in db.queue && db.queue[s].status == Failed
  }

  function PublishNext(w: World, batch: seq<Claim>, labels: set<Label>, vectorsReachable: bool): World {
    var (db, result) := Write(w.db, IdsOf(batch), HashesOf(batch), labels, vectorsReachable);
    w.(db := db,
       log := if result.Committed? && result.value.Some?
              then w.log + AllHandled(batch, Enriched(result.value.value))
              else w.log)
  }

  function GiveUpNext(w: World, batch: seq<Claim>): World {
    var db := MarkFailed(w.db, IdsOf(batch), HashesOf(batch)).0;
    w.(db := db, log := if Changed(w.db, IdsOf(batch), HashesOf(batch)) then w.log else w.log + Exhausted(db, batch))
  }

  function Upserted(db: Db, s: SegId, cwd: string, startTime: int, hash: Option<Hash>): Db {
    db.(segments := db.segments[s :=
          if s in db.segments then db.segments[s].(cwd := cwd, startTime := startTime, hash := hash)
          else Segment(cwd, startTime, hash, None, false)])
  }

  function Minted(db: Db, kind: NodeType, segments: set<SegId>, labels: set<Label>): Db {
    var n := NextNode(db);
    db.(nodes := db.nodes[n := kind], links := db.links + (set s | s in segments :: (n, s)),
        labels := db.labels + (set l | l in labels :: (n, l)))
  }

  function Next(w: World, step: Step): World
    requires Enabled(w, step)
  {
    match step
    case ClaimIn(cwd, limit, staleBefore, now) => w.(db := ClaimGroup(w.db, cwd, limit, staleBefore, now).0)
    case Read(s) => w.(read := w.read + {ReadClaim(w.db, s)})
    case Drop(c) => w.(db := DropOne(w.db, c))
    case Skip(c) => w.(db := SkipOne(w.db, c), log := w.log + [Handled(c, NotWorthIt)])
    case Publish(batch, labels, vectorsReachable) => PublishNext(w, batch, labels, vectorsReachable)
    case GiveUp(batch) => GiveUpNext(w, batch)
    case Upsert(s, cwd, startTime, hash) => w.(db := Upserted(w.db, s, cwd, startTime, hash))
    case Requeue(s, row) => w.(db := w.db.(queue := w.db.queue[s := row]))
    case Mint(kind, segments, labels) => w.(db := Minted(w.db, kind, segments, labels))
    case Embed(n) => w.(db := w.db.(vectors := w.db.vectors + {n}))
    case Annotate(n, l) => w.(db := w.db.(labels := w.db.labels + {(n, l)}))
  }

  const INITIAL := World(Db(map[], map[], map[], {}, {}, {}), {}, [])

  ghost predicate Run(from: World, steps: seq<Step>, to: World)
    decreases |steps|
  {
    if steps == [] then from == to
    else Enabled(from, steps[0]) && Run(Next(from, steps[0]), steps[1..], to)
  }

  // ---------------------------------------------------------------- invariants

  /** Every link row, label and vector names a live node, and every link an existing segment. */
  ghost predicate Intact(db: Db) {
    && (forall l :: l in db.links ==> l.0 in db.nodes && l.1 in db.segments)
    && (forall l :: l in db.labels ==> l.0 in db.nodes)
    && db.vectors <= db.nodes.Keys
  }

  /** The content a watermark stands for was read by a worker and dealt with. */
  predicate Earned(log: seq<Handled>, s: SegId, h: Hash) {
    exists i :: 0 <= i < |log| && log[i].claim.segment == s && log[i].claim.hash == Some(h)
  }

  ghost predicate Ok(w: World) {
    && Intact(w.db)
    && (forall i :: 0 <= i < |w.log| ==> w.log[i].claim in w.read)
    && (forall s :: s in w.db.segments && w.db.segments[s].watermark.Some? ==>
          Earned(w.log, s, w.db.segments[s].watermark.value))
  }

  lemma EarnedStays(log: seq<Handled>, more: seq<Handled>, s: SegId, h: Hash)
    requires Earned(log, s, h)
    ensures Earned(log + more, s, h)
  {
    var i :| 0 <= i < |log| && log[i].claim.segment == s && log[i].claim.hash == Some(h);
    assert (log + more)[i] == log[i];
  }

  lemma EarnedNow(log: seq<Handled>, more: seq<Handled>, i: nat, s: SegId, h: Hash)
    requires i < |more| && more[i].claim.segment == s && more[i].claim.hash == Some(h)
    ensures Earned(log + more, s, h)
  {
    assert (log + more)[|log| + i] == more[i];
  }

  /** A watermark is kept, or moves to the hash of a batch member. */
  predicate WatermarkFrom(db: Db, after: Db, more: seq<Handled>, s: SegId) {
    s in after.segments && after.segments[s].watermark.Some? ==>
      || (s in db.segments && after.segments[s].watermark == db.segments[s].watermark)
      || exists i :: 0 <= i < |more| && more[i].claim.segment == s && more[i].claim.hash == after.segments[s].watermark
  }

  lemma OkNext(w: World, after: Db, more: seq<Handled>)
    requires Ok(w) && Intact(after)
    requires forall i :: 0 <= i < |more| ==> more[i].claim in w.read
    requires forall s :: WatermarkFrom(w.db, after, more, s)
    ensures Ok(w.(db := after, log := w.log + more))
  {
    hide Intact;
    var next := w.(db := after, log := w.log + more);
    forall s | s in after.segments && after.segments[s].watermark.Some?
      ensures Earned(next.log, s, after.segments[s].watermark.value)
    {
      var h := after.segments[s].watermark.value;
      assert WatermarkFrom(w.db, after, more, s);
      if s in w.db.segments && after.segments[s].watermark == w.db.segments[s].watermark {
        EarnedStays(w.log, more, s, h);
      } else {
        var i :| 0 <= i < |more| && more[i].claim.segment == s && more[i].claim.hash == after.segments[s].watermark;
        EarnedNow(w.log, more, i, s, h);
      }
    }
  }

  lemma {:induction false} WatermarksFrom(db: Db, batch: seq<Claim>, s: SegId)
    ensures var after := WithWatermarks(db, IdsOf(batch), HashesOf(batch));
            && after == db.(segments := after.segments) && after.segments.Keys == db.segments.Keys
            && (s in db.segments && after.segments[s].watermark != db.segments[s].watermark ==>
                  exists i :: 0 <= i < |batch| && batch[i].segment == s && batch[i].hash == after.segments[s].watermark)
    decreases |batch|
  {
    if batch != [] {
      var k := |batch| - 1;
      assert IdsOf(batch)[..k] == IdsOf(batch[..k]);
      assert HashesOf(batch).value[..k] == HashesOf(batch[..k]).value;
      WatermarksFrom(db, batch[..k], s);
    }
  }

  lemma WriteWatermarks(db: Db, batch: seq<Claim>, labels: set<Label>, vectorsReachable: bool, s: SegId)
    ensures var (after, result) := Write(db, IdsOf(batch), HashesOf(batch), labels, vectorsReachable);
            && after.segments.Keys == db.segments.Keys
            && (result.Committed? && result.value.Some? ==>
                  WatermarkFrom(db, after, AllHandled(batch, Enriched(result.value.value)), s))
            && (!(result.Committed? && result.value.Some?) ==> after.segments == db.segments)
  {
    hide Prior;
    hide WithoutNodes;
    hide NextNode;
    hide WithNode;
    hide Changed;
    hide WithWatermarks;
    var within := Lists.Elements(IdsOf(batch));
    var cleared := WithoutNodes(db, Prior(db, within));
    SegmentsKept(db, within, labels);
    WatermarksFrom(WithEnriched(WithNode(cleared, within, labels), within), batch, s);
  }

  lemma SegmentsKept(db: Db, within: set<SegId>, labels: set<Label>)
    ensures var cleared := WithoutNodes(db, Prior(db, within));
            cleared.segments == db.segments && WithNode(cleared, within, labels).segments == db.segments
  {
    hide Prior;
    hide NextNode;
  }

  lemma WriteIntact(db: Db, ids: seq<SegId>, hashes: Hashes, labels: set<Label>, vectorsReachable: bool)
    requires Intact(db)
    ensures Intact(Write(db, ids, hashes, labels, vectorsReachable).0)
  {
    hide Prior;
    hide NextNode;
    hide Changed;
    hide WithWatermarks;
    if Aligned(ids, hashes) {
      var within := Lists.Elements(ids);
      var cleared := WithoutNodes(db, Prior(db, within));
      assert Intact(cleared);
      if Linkable(db, ids) {
        assert Intact(WithNode(cleared, within, labels));
      }
      var enriched := WithEnriched(WithNode(cleared, within, labels), within);
      WatermarksOnly(enriched, ids, hashes);
    }
  }

  lemma {:induction false} WatermarksOnly(db: Db, ids: seq<SegId>, hashes: Hashes)
    requires Aligned(ids, hashes)
    ensures var after := WithWatermarks(db, ids, hashes);
            after == db.(segments := after.segments) && after.segments.Keys == db.segments.Keys
    decreases |ids|
  {
    if hashes.Some? && ids != [] {
      var k := |ids| - 1;
      WatermarksOnly(db, ids[..k], Some(hashes.value[..k]));
    }
  }

  lemma PublishOk(w: World, batch: seq<Claim>, labels: set<Label>, vectorsReachable: bool)
    requires Ok(w) && Enabled(w, Publish(batch, labels, vectorsReachable))
    ensures Ok(PublishNext(w, batch, labels, vectorsReachable))
  {
    var (after, result) := Write(w.db, IdsOf(batch), HashesOf(batch), labels, vectorsReachable);
    WriteIntact(w.db, IdsOf(batch), HashesOf(batch), labels, vectorsReachable);
    hide Write;
    var more := if result.Committed? && result.value.Some? then AllHandled(batch, Enriched(result.value.value)) else [];
    forall s ensures WatermarkFrom(w.db, after, more, s) {
      WriteWatermarks(w.db, batch, labels, vectorsReachable, s);
    }
    OkNext(w, after, more);
    assert w.log + [] == w.log;
  }

  // ---------------------------------------------------------------- failure

  /** Failing never touches nodes, and closes a watermark only on a member it gave up on. */
  predicate FailsQuietly(db: Db, after: Db) {
    after == db.(queue := after.queue, segments := after.segments) && after.segments.Keys == db.segments.Keys
    && after.queue.Keys == db.queue.Keys
  }

  predicate Names(batch: seq<Claim>, s: SegId) {
    exists b :: b in batch && b.segment == s
  }

  function FailBatch(db: Db, batch: seq<Claim>): Db {
    FailEach(db, IdsOf(batch), HashesOf(batch))
  }

  lemma FailBatchLast(db: Db, batch: seq<Claim>)
    requires batch != []
    ensures var k := |batch| - 1;
            FailBatch(db, batch) == FailOne(FailBatch(db, batch[..k]), batch[k].segment, batch[k].hash)
  {
    var k := |batch| - 1;
    assert IdsOf(batch)[..k] == IdsOf(batch[..k]);
    assert HashesOf(batch).value[..k] == HashesOf(batch[..k]).value;
  }

  lemma {:induction false} FailEachFrom(db: Db, batch: seq<Claim>, s: SegId)
    ensures var after := FailBatch(db, batch);
            && FailsQuietly(db, after)
            && (s in db.segments && after.segments[s].watermark != db.segments[s].watermark ==>
                  && HasFailed(after, s)
                  && exists i :: 0 <= i < |batch| && batch[i].segment == s
                       && batch[i].hash == after.segments[s].watermark)
    decreases |batch|
  {
    if batch != [] {
      var k := |batch| - 1;
      FailBatchLast(db, batch);
      FailEachFrom(db, batch[..k], s);
      FailedIffExhausted(db, batch[..k], s);
      hide FailBatch;
    }
  }

  /** Once out of retries a row stays out of them, however often the same batch names it. */
  lemma {:induction false} FailedIffExhausted(db: Db, batch: seq<Claim>, s: SegId)
    ensures var after := FailBatch(db, batch);
            && (s in after.queue <==> s in db.queue)
            && (s in after.queue && Names(batch, s) ==>
                  (after.queue[s].status == Failed <==> after.queue[s].retries >= after.queue[s].maxRetries))
    decreases |batch|
  {
    if batch != [] {
      var k := |batch| - 1;
      FailBatchLast(db, batch);
      assert batch == batch[..k] + [batch[k]];
      FailedIffExhausted(db, batch[..k], s);
      hide FailBatch;
    }
  }

  lemma GiveUpOk(w: World, batch: seq<Claim>)
    requires Ok(w) && Enabled(w, GiveUp(batch))
    ensures Ok(GiveUpNext(w, batch))
  {
    var after := MarkFailed(w.db, IdsOf(batch), HashesOf(batch)).0;
    hide FailEach;
    if Changed(w.db, IdsOf(batch), HashesOf(batch)) {
      OkNext(w, after, []);
      assert w.log + [] == w.log;
    } else {
      var more := Exhausted(after, batch);
      FailEachFrom(w.db, batch, 0);
      hide Changed;
      hide Exhausted;
      forall s ensures WatermarkFrom(w.db, after, more, s) {
        FailEachFrom(w.db, batch, s);
        if s in w.db.segments && after.segments[s].watermark != w.db.segments[s].watermark {
          var i :| 0 <= i < |batch| && batch[i].segment == s && batch[i].hash == after.segments[s].watermark;
          assert Handled(batch[i], GivenUp) in more;
        }
      }
      OkNext(w, after, more);
    }
  }

  // ---------------------------------------------------------------- every step

  lemma RetireOk(w: World, c: Claim)
    requires Ok(w) && c in w.read
    ensures Ok(Next(w, Drop(c))) && Ok(Next(w, Skip(c)))
  {
    var skipped, more := SkipOne(w.db, c), [Handled(c, NotWorthIt)];
    forall s ensures WatermarkFrom(w.db, skipped, more, s) {
      assert more[0].claim == c;
    }
    OkNext(w, skipped, more);
  }

  lemma MintOk(w: World, kind: NodeType, segments: set<SegId>, labels: set<Label>)
    requires Ok(w) && Enabled(w, Mint(kind, segments, labels))
    ensures Ok(Next(w, Mint(kind, segments, labels)))
  {
    hide NextNode;
  }

  lemma QueueOnlyOk(w: World, queue: map<SegId, QueueRow>)
    requires Ok(w)
    ensures Ok(w.(db := w.db.(queue := queue)))
  {
  }

  lemma UpsertOk(w: World, s: SegId, cwd: string, startTime: int, hash: Option<Hash>)
    requires Ok(w)
    ensures Ok(w.(db := Upserted(w.db, s, cwd, startTime, hash)))
  {
  }

  lemma StepOk(w: World, step: Step)
    requires Ok(w) && Enabled(w, step)
    ensures Ok(Next(w, step)) && w.log <= Next(w, step).log
  {
    match step
    case ClaimIn(cwd, limit, staleBefore, now) =>
      QueueOnlyOk(w, ClaimGroup(w.db, cwd, limit, staleBefore, now).0.queue);
    case Read(_) =>
    case Drop(c) => RetireOk(w, c);
    case Skip(c) => RetireOk(w, c);
    case Publish(batch, labels, vectorsReachable) =>
      PublishOk(w, batch, labels, vectorsReachable);
      hide Write;
    case GiveUp(batch) =>
      GiveUpOk(w, batch);
      hide MarkFailed;
    case Upsert(s, cwd, startTime, hash) => UpsertOk(w, s, cwd, startTime, hash);
    case Requeue(s, row) => QueueOnlyOk(w, w.db.queue[s := row]);
    case Mint(kind, segments, labels) => MintOk(w, kind, segments, labels);
    case Embed(_) =>
    case Annotate(_, _) =>
  }

  lemma {:induction false} RunOk(from: World, steps: seq<Step>, to: World)
    requires Ok(from) && Run(from, steps, to)
    ensures Ok(to) && from.log <= to.log
    decreases |steps|
  {
    hide Ok;
    if steps != [] {
      StepOk(from, steps[0]);
      RunOk(Next(from, steps[0]), steps[1..], to);
    }
  }

  // ---------------------------------------------------------------- watermarks are earned

  /** Whatever the daemon overwrites and whenever workers act, a watermark always stands for content that a
      worker read and then published, skipped or gave up on; and every link, label and vector names a live node. */
  lemma WatermarksAreEarned(steps: seq<Step>, w: World)
    requires Run(INITIAL, steps, w)
    ensures forall s :: s in w.db.segments && w.db.segments[s].watermark.Some? ==>
              exists i :: 0 <= i < |w.log| && w.log[i].claim in w.read
                          && w.log[i].claim.segment == s && w.log[i].claim.hash == w.db.segments[s].watermark
    ensures Intact(w.db)
  {
    RunOk(INITIAL, steps, w);
  }

  /** A claim dropped as already enriched, if its row has not changed since it was read, was indeed dealt with. */
  lemma DroppedWasHandled(steps: seq<Step>, w: World, c: Claim)
    requires Run(INITIAL, steps, w) && c.segment in w.db.segments && c == ReadClaim(w.db, c.segment)
    requires LooksEnriched(w.db, c)
    ensures Earned(w.log, c.segment, c.hash.value)
  {
    RunOk(INITIAL, steps, w);
  }

  /** Giving up closes the watermark on exactly the members whose retries ran out. */
  lemma GiveUpClosesExactly(db: Db, batch: seq<Claim>, c: Claim)
    requires !Changed(db, IdsOf(batch), HashesOf(batch)) && c in batch && c.hash.Some?
    ensures c.segment in db.segments && db.segments[c.segment].hash == c.hash
    ensures var after := MarkFailed(db, IdsOf(batch), HashesOf(batch)).0;
            && c.segment in after.segments && after.segments[c.segment].hash == c.hash
            && after.segments[c.segment].watermark
               == if HasFailed(after, c.segment) then c.hash else db.segments[c.segment].watermark
  {
    var i :| 0 <= i < |batch| && batch[i] == c;
    assert IsCurrent(db, IdsOf(batch)[i], HashesOf(batch).value[i]);
    CurrentMembers(db, batch);
    GaveUpOrNot(db, batch, c);
  }

  lemma CurrentMembers(db: Db, batch: seq<Claim>)
    requires !Changed(db, IdsOf(batch), HashesOf(batch))
    ensures forall c :: c in batch ==> IsCurrent(db, c.segment, c.hash)
  {
    forall c | c in batch ensures IsCurrent(db, c.segment, c.hash) {
      var i :| 0 <= i < |batch| && batch[i] == c;
      assert IsCurrent(db, IdsOf(batch)[i], HashesOf(batch).value[i]);
    }
  }

  lemma {:induction false} GaveUpOrNot(db: Db, batch: seq<Claim>, c: Claim)
    requires forall b :: b in batch ==> IsCurrent(db, b.segment, b.hash)
    requires IsCurrent(db, c.segment, c.hash) && c.hash.Some?
    ensures var after := FailBatch(db, batch);
            && IsCurrent(after, c.segment, c.hash)
            && after.segments[c.segment].watermark
               == if Names(batch, c.segment) && HasFailed(after, c.segment) then c.hash
                 else db.segments[c.segment].watermark
    decreases |batch|
  {
    if batch != [] {
      var k := |batch| - 1;
      FailBatchLast(db, batch);
      assert batch == batch[..k] + [batch[k]];
      assert Names(batch, c.segment) <==> Names(batch[..k], c.segment) || batch[k].segment == c.segment;
      GaveUpOrNot(db, batch[..k], c);
      FailedIffExhausted(db, batch[..k], c.segment);
      hide FailBatch;
      hide Names;
      assert batch[k].segment == c.segment ==> batch[k].hash == c.hash;
    }
  }
}
