/** Enriching agentic session segments: claims, the content-hash watermark, node replacement and failure.

    Hashes are collision-free; node ids are SQLite row ids, so a deleted id may be given out again. The
    segments of this model are those of the Claude-like harnesses that carry no probe tag. */
module Agentic {
  import opened Options
  import Lists
  import opened RowIds
  import Sorting

  type SegId = nat
  type NodeId = nat
  type Hash = string

  // ---------------------------------------------------------------- tables

  datatype Segment = Segment(cwd: string, startTime: int, hash: Option<Hash>, watermark: Option<Hash>, enriched: bool)

  datatype Status = Waiting | Processing | Done | Failed | Skipped
  datatype QueueRow = QueueRow(id: nat, status: Status, retries: nat, maxRetries: nat, lockedAt: Option<int>)

  datatype NodeType = Observation | ChangeOutcome

  /** A row of one of the other `knowledge_node_*` tables. */
  datatype Label = Label(table: string, key: nat)

  /** `links` is knowledge_node_agentic_sessions; `vectors` the node ids that have an embedding. */
  datatype Db = Db(
    segments: map<SegId, Segment>,
    queue: map<SegId, QueueRow>,
    nodes: map<NodeId, NodeType>,
    links: set<(NodeId, SegId)>,
    labels: set<(NodeId, Label)>,
    vectors: set<NodeId>)

  /** What a worker read of a segment after claiming it. */
  datatype Claim = Claim(segment: SegId, hash: Option<Hash>, watermark: Option<Hash>)

  datatype AgenticError = LengthMismatch | VectorsUnreachable | ConstraintViolation

  // ---------------------------------------------------------------- claiming

  predicate Claimable(db: Db, s: SegId, cwd: string, staleBefore: int) {
    && s in db.queue && s in db.segments && db.segments[s].cwd == cwd
    && (|| db.queue[s].status == Waiting
        || (db.queue[s].status == Processing && LockedSince(db.queue[s]) <= staleBefore))
  }

  function LockedSince(row: QueueRow): int {
    if row.lockedAt.Some? then row.lockedAt.value else 0
  }

  function ClaimableIn(db: Db, cwd: string, staleBefore: int): set<SegId> {
    set s | s in db.queue && Claimable(db, s, cwd, staleBefore)
  }

  function StartOf(db: Db, s: SegId): int {
    if s in db.segments then db.segments[s].startTime else 0
  }

  function QueueIdOf(db: Db, s: SegId): nat {
    if s in db.queue then db.queue[s].id else 0
  }

  function Earliest(db: Db): (SegId, SegId) -> bool {
    (a: SegId, b: SegId) =>
      || StartOf(db, a) < StartOf(db, b)
      || (StartOf(db, a) == StartOf(db, b)
          && (QueueIdOf(db, a) < QueueIdOf(db, b) || (QueueIdOf(db, a) == QueueIdOf(db, b) && a < b)))
  }

  /** A negative limit is SQLite's way of saying no limit. */
  function PickedIn(db: Db, cwd: string, limit: int, staleBefore: int): (r: seq<SegId>)
    ensures forall s :: s in r ==> Claimable(db, s, cwd, staleBefore)
    ensures Lists.Distinct(r)
    ensures limit >= 0 ==> |r| <= limit
    ensures limit < 0 || |r| < limit ==> forall s :: Claimable(db, s, cwd, staleBefore) ==> s in r
  {
    var found := ClaimableIn(db, cwd, staleBefore);
    assert forall s :: Claimable(db, s, cwd, staleBefore) ==> s in found;
    Sorting.FirstFew(found, Earliest(db), if limit < 0 then |found| else limit)
  }

  function WithLocked(db: Db, picked: set<SegId>, now: int): Db {
    db.(queue := map s | s in db.queue ::
          if s in picked then db.queue[s].(status := Processing, lockedAt := Some(now)) else db.queue[s])
  }

  function ClaimGroup(db: Db, cwd: string, limit: int, staleBefore: int, now: int): (Db, seq<SegId>) {
    var picked := PickedIn(db, cwd, limit, staleBefore);
    (WithLocked(db, Lists.Elements(picked), now), picked)
  }

  /** One working directory after the other, until the budget is spent; a negative budget never is. */
  function ClaimGroups(db: Db, groups: seq<string>, budget: int, staleBefore: int, now: int): (Db, seq<SegId>)
    decreases |groups|
  {
    if groups == [] || budget == 0 then (db, [])
    else
      var (claimed, picked) := ClaimGroup(db, groups[0], budget, staleBefore, now);
      var (after, more) := ClaimGroups(claimed, groups[1..], Left(budget, |picked|), staleBefore, now);
      (after, picked + more)
  }

  function Left(budget: int, spent: nat): int {
    if budget > 0 then budget - spent else budget
  }

  function ReadClaim(db: Db, s: SegId): Claim
    requires s in db.segments
  {
    Claim(s, db.segments[s].hash, db.segments[s].watermark)
  }

  // ---------------------------------------------------------------- already enriched, or not worth enriching

  /** Any link counts, whatever type of node it comes from. */
  predicate HasNode(db: Db, s: SegId) {
    exists l :: l in db.links && l.1 == s
  }

  predicate LooksEnriched(db: Db, c: Claim) {
    c.hash.Some? && c.hash == c.watermark && HasNode(db, c.segment)
  }

  /** Take a row out of the queue and mark its segment handled. */
  function Retired(db: Db, s: SegId, status: Status): Db {
    db.(queue := if s in db.queue then db.queue[s := db.queue[s].(status := status, lockedAt := None)] else db.queue,
        segments := if s in db.segments then db.segments[s := db.segments[s].(enriched := true)] else db.segments)
  }

  function WithWatermark(db: Db, s: SegId, h: Option<Hash>): Db {
    if s in db.segments && h.Some? then db.(segments := db.segments[s := db.segments[s].(watermark := h)]) else db
  }

  function DropOne(db: Db, c: Claim): Db {
    if LooksEnriched(db, c) then Retired(db, c.segment, Done) else db
  }

  /** The watermark follows only if the row still holds the content the verdict was about. */
  function SkipOne(db: Db, c: Claim): Db {
    var retired := Retired(db, c.segment, Skipped);
    if IsCurrent(db, c.segment, c.hash) then WithWatermark(retired, c.segment, c.hash) else retired
  }

  predicate IsCurrent(db: Db, s: SegId, h: Option<Hash>) {
    s in db.segments && db.segments[s].hash == h
  }

  function DropEnriched(db: Db, claims: seq<Claim>): (Db, seq<Claim>) {
    if claims == [] then (db, [])
    else
      var (before, kept) := DropEnriched(db, claims[..|claims| - 1]);
      var c := claims[|claims| - 1];
      (DropOne(before, c), if LooksEnriched(before, c) then kept else kept + [c])
  }

  function SkipIneligible(db: Db, claims: seq<Claim>, eligible: set<SegId>): (Db, seq<Claim>) {
    if claims == [] then (db, [])
    else
      var (before, kept) := SkipIneligible(db, claims[..|claims| - 1], eligible);
      var c := claims[|claims| - 1];
      if c.segment in eligible then (before, kept + [c]) else (SkipOne(before, c), kept)
  }

  // ---------------------------------------------------------------- releasing a batch that was overtaken

  type Hashes = Option<seq<Option<Hash>>>

  predicate Aligned(ids: seq<SegId>, hashes: Hashes) {
    hashes.Some? ==> |hashes.value| == |ids|
  }

  predicate Changed(db: Db, ids: seq<SegId>, hashes: Hashes)
    requires Aligned(ids, hashes)
  {
    hashes.Some? && exists i :: 0 <= i < |ids| && !IsCurrent(db, ids[i], hashes.value[i])
  }

  function Released(db: Db, ids: set<SegId>): Db {
    db.(queue := map s | s in db.queue ::
          if s in ids && db.queue[s].status == Processing
          then db.queue[s].(status := Waiting, lockedAt := None) else db.queue[s])
  }

  // ---------------------------------------------------------------- replacing and writing nodes

  predicate Observes(db: Db, n: NodeId, s: SegId) {
    (n, s) in db.links && n in db.nodes && db.nodes[n] == Observation
  }

  /** Observation nodes with a link into `ids` and none out of it. */
  function Prior(db: Db, ids: set<SegId>): (r: set<NodeId>)
    ensures forall n :: n in r <==>
      (exists s :: s in ids && Observes(db, n, s)) && (forall l :: l in db.links && l.0 == n ==> l.1 in ids)
  {
    set n | n in db.nodes
            && (exists s :: s in ids && Observes(db, n, s))
            && (forall l :: l in db.links && l.0 == n ==> l.1 in ids)
  }

  function WithoutNodes(db: Db, gone: set<NodeId>): Db {
    db.(nodes := db.nodes - gone,
        links := (set l | l in db.links && l.0 !in gone),
        labels := (set l | l in db.labels && l.0 !in gone),
        vectors := db.vectors - gone)
  }

  function NextNode(db: Db): (k: NodeId)
    ensures k !in db.nodes
  {
    NextId(db.nodes)
  }

  function WithNode(db: Db, ids: set<SegId>, labels: set<Label>): Db {
    var n := NextNode(db);
    db.(nodes := db.nodes[n := Observation],
        links := db.links + (set s | s in ids :: (n, s)),
        labels := db.labels + (set l | l in labels :: (n, l)))
  }

  function WithEnriched(db: Db, ids: set<SegId>): Db {
    db.(segments := map s | s in db.segments ::
          if s in ids then db.segments[s].(enriched := true) else db.segments[s],
        queue := map s | s in db.queue :: if s in ids then db.queue[s].(status := Done) else db.queue[s])
  }

  function WithWatermarks(db: Db, ids: seq<SegId>, hashes: Hashes): Db
    requires Aligned(ids, hashes)
    decreases |ids|
  {
    if hashes.None? || ids == [] then db
    else
      var k := |ids| - 1;
      WithWatermark(WithWatermarks(db, ids[..k], Some(hashes.value[..k])), ids[k], hashes.value[k])
  }

  /** The links of a new node: each segment must exist and be named once. */
  predicate Linkable(db: Db, ids: seq<SegId>) {
    (forall i :: 0 <= i < |ids| ==> ids[i] in db.segments) && Lists.Distinct(ids)
  }

  function Write(db: Db, ids: seq<SegId>, hashes: Hashes, labels: set<Label>, vectorsReachable: bool)
    : (Db, Outcome<Option<NodeId>, AgenticError>)
  {
    var within := Lists.Elements(ids);
    if !Aligned(ids, hashes) then (db, Raised(LengthMismatch))
    else if Changed(db, ids, hashes) then (Released(db, within), Committed(None))
    else if Prior(db, within) != {} && !vectorsReachable then (db, Raised(VectorsUnreachable))
    else if !Linkable(db, ids) then (db, Raised(ConstraintViolation))
    else
      var cleared := WithoutNodes(db, Prior(db, within));
      (WithWatermarks(WithEnriched(WithNode(cleared, within, labels), within), ids, hashes),
       Committed(Some(NextNode(cleared))))
  }

  // ---------------------------------------------------------------- failure

  function Retried(row: QueueRow): QueueRow {
    row.(retries := row.retries + 1, lockedAt := None,
         status := if row.retries + 1 >= row.maxRetries then Failed else Waiting)
  }

  /** Giving up on content counts as handling it, so the watermark closes on it. */
  function FailOne(db: Db, s: SegId, h: Option<Hash>): Db {
    var charged := if s in db.queue then db.(queue := db.queue[s := Retried(db.queue[s])]) else db;
    if h.Some? && IsCurrent(db, s, h) && s in charged.queue && charged.queue[s].status == Failed
    then WithWatermark(charged, s, h) else charged
  }

  function FailEach(db: Db, ids: seq<SegId>, hashes: Hashes): Db
    requires Aligned(ids, hashes)
    decreases |ids|
  {
    if ids == [] then db
    else
      var k := |ids| - 1;
      var rest := if hashes.Some? then Some(hashes.value[..k]) else None;
      FailOne(FailEach(db, ids[..k], rest), ids[k], if hashes.Some? then hashes.value[k] else None)
  }

  function MarkFailed(db: Db, ids: seq<SegId>, hashes: Hashes): (Db, Outcome<(), AgenticError>) {
    if !Aligned(ids, hashes) then (db, Raised(LengthMismatch))
    else if Changed(db, ids, hashes) then (Released(db, Lists.Elements(ids)), Committed(()))
    else (FailEach(db, ids, hashes), Committed(()))
  }
}
