/** Claude auto-memory: documents, their revisions, and the one knowledge node that projects each.

    Revision ids are SQLite row ids, so the next one is the largest present plus one. A document's UUID
    is derived from the repository and path it was created under, a node's from the document and
    revision it projects; digests are collision-free and modelled by the text they digest. */
module AutoMemory {
  import opened Options
  import Lists
  import opened RowIds
  import Sorting

  type DocId = nat
  type RevId = nat

  const MAX_RETRIES: nat := 5
  const PROBE_REPOSITORY := "hippo/__hippo_probe__"
  const INDEX_LOGICAL_PATH := "MEMORY.md"

  // ---------------------------------------------------------------- tables

  /** A redacted text, and the target paths of the links in it, in order. */
  datatype Text = Text(body: string, targets: seq<string>)

  /** The revision that records a removal stores an empty hash. */
  datatype Hash = NoContent | Digest(text: Text)

  /** A file as it is on disk: modification time, size, and content before redaction. */
  datatype Disk = Disk(mtime: int, size: nat, source: string)
  datatype ChangeKind = Create | Update | Rename | Remove
  datatype Revision = Revision(
    document: DocId,
    number: nat,
    hash: Hash,
    kind: ChangeKind,
    chunks: nat,
    disk: Option<Disk>,
    createdAt: int)

  datatype DocState = Active | Unavailable | Tombstoned
  datatype Projection = Pending | Processing | Ready | Failed | Stale
  datatype Identity = Identity(repository: string, path: string)

  datatype Document = Document(
    uuid: Identity,
    at: Identity,
    sourcePath: string,
    current: Option<RevId>,
    active: Option<RevId>,
    state: DocState,
    projection: Projection)

  datatype QueueStatus = Waiting | Working | Done | GivenUp
  datatype QueueRow = QueueRow(status: QueueStatus, retries: nat)

  datatype Node = Node(document: DocId, revision: RevId)
  datatype Chunk = Chunk(revision: RevId, ordinal: nat)

  /** A row of memory_document_links, by its unique key. */
  datatype IndexRow = IndexRow(document: DocId, revision: RevId, target: string)

  /** `labelled` are the nodes that rows of knowledge_node_entities point at; `index` are the link rows. */
  datatype Db = Db(
    docs: map<DocId, Document>,
    revisions: map<RevId, Revision>,
    queue: map<RevId, QueueRow>,
    nodes: set<Node>,
    links: set<(Node, Chunk)>,
    labelled: set<Node>,
    index: set<IndexRow>)

  datatype Retention = Retention(maxCount: nat, maxAgeMs: int)

  datatype MemoryError = UniqueViolation | RepeatedTarget | ForeignKeyViolation | NoSuchRevision | VectorsUnreachable

  // ---------------------------------------------------------------- revision numbers

  function RevisionsOf(db: Db, d: DocId): set<RevId> {
    set r | r in db.revisions && db.revisions[r].document == d
  }

  /** `MAX(revision_number)` of a document, 0 when it has none. */
  function LastNumber(db: Db, d: DocId): (n: nat)
    ensures forall r :: r in RevisionsOf(db, d) ==> db.revisions[r].number <= n
  {
    var numbers := set r | r in RevisionsOf(db, d) :: db.revisions[r].number;
    assert forall r :: r in RevisionsOf(db, d) ==> db.revisions[r].number in numbers;
    Largest(numbers)
  }

  function NumberOf(db: Db, r: Option<RevId>): int {
    if r.Some? && r.value in db.revisions then db.revisions[r.value].number else 0
  }

  // ---------------------------------------------------------------- pruning

  function Protected(doc: Document): set<RevId> {
    (if doc.current.Some? then {doc.current.value} else {}) + (if doc.active.Some? then {doc.active.value} else {})
  }

  function ByNumber(db: Db): (RevId, RevId) -> bool {
    (a: RevId, b: RevId) =>
      NumberOf(db, Some(a)) < NumberOf(db, Some(b)) || (NumberOf(db, Some(a)) == NumberOf(db, Some(b)) && a < b)
  }

  function Aged(db: Db, d: DocId, retention: Retention, now: int): set<RevId>
    requires d in db.docs
  {
    set r | r in RevisionsOf(db, d) - Protected(db.docs[d]) && db.revisions[r].createdAt < now - retention.maxAgeMs
  }

  function Surviving(db: Db, d: DocId, retention: Retention, now: int): set<RevId>
    requires d in db.docs
  {
    RevisionsOf(db, d) - Protected(db.docs[d]) - Aged(db, d, retention, now)
  }

  function Excess(db: Db, d: DocId, retention: Retention, now: int): nat
    requires d in db.docs
  {
    var excess := |RevisionsOf(db, d)| - |Aged(db, d, retention, now)| - retention.maxCount;
    if excess > 0 then excess else 0
  }

  lemma ExcessIs(db: Db, d: DocId, retention: Retention, now: int)
    requires d in db.docs
    ensures var over := |RevisionsOf(db, d)| - |Aged(db, d, retention, now)| - retention.maxCount;
            Excess(db, d, retention, now) == if over > 0 then over else 0
  {
  }

  /** The oldest of the rest, until the count fits. */
  function Popped(db: Db, d: DocId, retention: Retention, now: int): (r: seq<RevId>)
    requires d in db.docs
    ensures forall x :: x in r ==> x in Surviving(db, d, retention, now)
    ensures Lists.Distinct(r)
  {
    Sorting.FirstFew(Surviving(db, d, retention, now), ByNumber(db), Excess(db, d, retention, now))
  }

  function Prunable(db: Db, d: DocId, retention: Retention, now: int): set<RevId>
    requires d in db.docs
  {
    Aged(db, d, retention, now) + Lists.Elements(Popped(db, d, retention, now))
  }

  /** Deleting revisions cascades to their chunks, chunk links, queue rows and link rows. */
  function WithoutRevisions(db: Db, gone: set<RevId>): Db {
    db.(revisions := db.revisions - gone,
        queue := db.queue - gone,
        links := (set l | l in db.links && l.1.revision !in gone),
        index := set row | row in db.index && row.revision !in gone)
  }

  function PruneDocument(db: Db, d: DocId, retention: Retention, now: int): Db {
    if d in db.docs then WithoutRevisions(db, Prunable(db, d, retention, now)) else db
  }

  // ---------------------------------------------------------------- ingest

  /** `declared` when the source is configured with its repository, so that it need not be derived. */
  datatype File = File(
    at: Identity,
    declared: bool,
    sourcePath: string,
    disk: Disk,
    text: Text,
    chunks: nat)

  predicate RenameSource(db: Db, d: DocId, file: File) {
    && d in db.docs
    && db.docs[d].at.repository == file.at.repository
    && db.docs[d].at.path != file.at.path
    && db.docs[d].current.Some? && db.docs[d].current.value in db.revisions
    && db.revisions[db.docs[d].current.value].hash == Digest(file.text)
    && db.docs[d].state != Tombstoned
  }

  function RenameSources(db: Db, file: File): set<DocId> {
    set d | d in db.docs && RenameSource(db, d, file)
  }

  function DocsAt(db: Db, at: Identity): set<DocId> {
    set d | d in db.docs && db.docs[d].at == at
  }

  function WithRevision(db: Db, d: DocId, hash: Hash, kind: ChangeKind, chunks: nat, disk: Option<Disk>,
                        now: int): Db
  {
    db.(revisions := db.revisions[NextId(db.revisions) :=
          Revision(d, LastNumber(db, d) + 1, hash, kind, chunks, disk, now)])
  }

  /** The rename revision is recorded, but the current pointer does not move to it. */
  function RenameTo(db: Db, d: DocId, file: File, now: int): Db
    requires d in db.docs
  {
    var moved := db.docs[d].(at := file.at, sourcePath := file.sourcePath, state := Active);
    WithRevision(db.(docs := db.docs[d := moved]), d, Digest(file.text), Rename, 0, None, now)
  }

  function IngestRevision(db: Db, d: DocId, file: File, now: int): Db
    requires d in db.docs
  {
    var rev := NextId(db.revisions);
    var kind := if LastNumber(db, d) == 0 then Create else Update;
    var probe := file.at.repository == PROBE_REPOSITORY;
    var added := WithRevision(db, d, Digest(file.text), kind, file.chunks, Some(file.disk), now);
    added.(queue := if probe then added.queue else added.queue[rev := QueueRow(Waiting, 0)],
           docs := added.docs[d := added.docs[d].(
             current := Some(rev), projection := if probe then Ready else Pending)])
  }

  /** What an ingest of a file that was read is about to do: refuse, move a document here, only touch the one that is
      here, or add a revision. */
  datatype Plan =
    | Refuse(error: MemoryError)
    | Move(document: DocId, moved: Db)
    | Touch(document: DocId, touched: Db)
    | Add(document: DocId, added: Db)

  function PlanIngest(db: Db, file: File, files: set<string>, now: int): (plan: Plan)
    ensures plan.Move? ==> plan.document in plan.moved.docs
    ensures plan.Touch? ==> plan.document in plan.touched.docs
    ensures plan.Add? ==> plan.document in plan.added.docs
  {
    var sources, here := RenameSources(db, file), DocsAt(db, file.at);
    if |sources| == 1 && db.docs[TheOnly(sources)].sourcePath !in files then
      if here != {} then Refuse(UniqueViolation)
      else Move(TheOnly(sources), RenameTo(db, TheOnly(sources), file, now))
    else if here == {} then
      if exists d :: d in db.docs && db.docs[d].uuid == file.at then Refuse(UniqueViolation)
      else
        var d := NextId(db.docs);
        var doc := Document(file.at, file.at, file.sourcePath, None, None, Active, Pending);
        Add(d, IngestRevision(db.(docs := db.docs[d := doc]), d, file, now))
    else
      var d := Sorting.Least(here, (a: nat, b: nat) => a < b);
      var seen := db.(docs := db.docs[d := db.docs[d].(sourcePath := file.sourcePath, state := Active)]);
      if HashOf(db, db.docs[d].current) == Some(Digest(file.text)) then Touch(d, seen)
      else Add(d, IngestRevision(seen, d, file, now))
  }

  /** One reading of a file. `files` are the source paths that still exist on disk; `kept` tells whether what is
      written outside a transaction before an error is committed later, and matters only then. */
  datatype Poll = Poll(file: File, files: set<string>, retention: Retention, now: int, kept: bool)

  /** An index that links one target twice. */
  predicate RepeatsTarget(file: File) {
    file.at.path == INDEX_LOGICAL_PATH && !Lists.Distinct(file.text.targets)
  }

  // ---------------------------------------------------------------- files that were not touched

  /** The document's own file, with the time and size its current revision was read at. */
  predicate SameStamp(db: Db, d: DocId, file: File)
    requires d in db.docs
  {
    var doc := db.docs[d];
    && doc.sourcePath == file.sourcePath && doc.at.path == file.at.path
    && (file.declared ==> doc.at.repository == file.at.repository)
    && doc.state == Active
    && doc.current.Some? && doc.current.value in db.revisions
    && var disk := db.revisions[doc.current.value].disk;
    disk.Some? && disk.value.mtime == file.disk.mtime && disk.value.size == file.disk.size
  }

  /** The document an ingest takes for unchanged, without looking at paths or renames again. */
  function Untouched(db: Db, file: File): (r: Option<DocId>)
    ensures r.Some? ==> r.value in db.docs && SameStamp(db, r.value, file)
                        && db.revisions[db.docs[r.value].current.value].disk == Some(file.disk)
  {
    var same := set d: DocId | d in db.docs && SameStamp(db, d, file);
    if same == {} then None
    else
      var d := Sorting.Least(same, (a: nat, b: nat) => a < b);
      if db.revisions[db.docs[d].current.value].disk.value.source == file.disk.source then Some(d) else None
  }

  // ---------------------------------------------------------------- index links

  predicate Unindexed(db: Db, d: DocId) {
    forall row :: row in db.index ==> row.document != d
  }

  /** Only an index has its links rebuilt: when its content changed, and when it has none. */
  predicate Rebuilds(db: Db, d: DocId, changed: bool)
    requires d in db.docs
  {
    db.docs[d].at.path == INDEX_LOGICAL_PATH && (changed || Unindexed(db, d))
  }

  function CurrentTargets(db: Db, d: DocId): seq<string>
    requires d in db.docs
  {
    var hash := HashOf(db, db.docs[d].current);
    if hash.Some? && hash.value.Digest? then hash.value.text.targets else []
  }

  /** How many rows go in before one repeats the target of another. */
  function Fitting(targets: seq<string>): (k: nat)
    ensures k <= |targets| && Lists.Distinct(targets[..k])
    ensures k == |targets| || targets[k] in targets[..k]
  {
    if targets == [] then 0
    else
      var last := |targets| - 1;
      var k := Fitting(targets[..last]);
      assert targets[..last][..k] == targets[..k];
      if k == last && targets[last] !in targets[..last] then |targets| else k
  }

  /** The first `count` links of the current revision in place of the rows there were. */
  function WithLinks(db: Db, d: DocId, count: nat): Db
    requires d in db.docs && count <= |CurrentTargets(db, d)|
  {
    if db.docs[d].current.None? then db
    else
      db.(index := (set row | row in db.index && row.document != d)
                   + (set t | t in CurrentTargets(db, d)[..count] :: IndexRow(d, db.docs[d].current.value, t)))
  }

  /** The unique key of the link rows rejects a repeated target. */
  predicate Indexable(db: Db, d: DocId, changed: bool)
    requires d in db.docs
  {
    Rebuilds(db, d, changed) ==> Lists.Distinct(CurrentTargets(db, d))
  }

  function Indexed(db: Db, d: DocId, changed: bool): Db
    requires d in db.docs
  {
    if Rebuilds(db, d, changed) then WithLinks(db, d, Fitting(CurrentTargets(db, d))) else db
  }

  /** Links are rebuilt outside any transaction of their own; when that raises, whoever goes on with the connection
      commits the rows written so far, and whoever closes it does not. */
  function Refreshed(db: Db, d: DocId, kept: bool): (Db, Outcome<DocId, MemoryError>)
    requires d in db.docs
  {
    if Indexable(db, d, false) then (Indexed(db, d, false), Committed(d))
    else (if kept then Indexed(db, d, false) else db, Raised(RepeatedTarget))
  }

  /** A transaction that ends with the index links: it commits with them or not at all. */
  function Written(db: Db, d: DocId, written: Db, changed: bool): (Db, Outcome<DocId, MemoryError>)
    requires d in written.docs
  {
    if Indexable(written, d, changed) then (Indexed(written, d, changed), Committed(d))
    else (db, Raised(RepeatedTarget))
  }

  function Carried(db: Db, plan: Plan, p: Poll): (Db, Outcome<DocId, MemoryError>)
    requires plan.Move? ==> plan.document in plan.moved.docs
    requires plan.Touch? ==> plan.document in plan.touched.docs
    requires plan.Add? ==> plan.document in plan.added.docs
  {
    match plan
    case Refuse(error) => (db, Raised(error))
    case Move(d, moved) => Refreshed(PruneDocument(moved, d, p.retention, p.now), d, p.kept)
    case Touch(d, touched) => Written(db, d, touched, false)
    case Add(d, added) =>
      var (after, result) := Written(db, d, added, true);
      (if result.Committed? then PruneDocument(after, d, p.retention, p.now) else db, result)
  }

  /** One file. */
  function Ingest(db: Db, p: Poll): (Db, Outcome<DocId, MemoryError>) {
    var same := Untouched(db, p.file);
    if same.Some? then Refreshed(db, same.value, p.kept)
    else Carried(db, PlanIngest(db, p.file, p.files, p.now), p)
  }

  function HashOf(db: Db, r: Option<RevId>): Option<Hash> {
    if r.Some? && r.value in db.revisions then Some(db.revisions[r.value].hash) else None
  }

  // ---------------------------------------------------------------- tombstones and absence

  /** The node found through the chunk links of a revision, if any chunk leads to one. */
  predicate Linked(db: Db, r: RevId) {
    exists l :: l in db.links && l.1.revision == r
  }

  function WithoutNode(db: Db, k: Node): Db {
    db.(nodes := db.nodes - {k}, links := (set l | l in db.links && l.0 != k), labelled := db.labelled - {k})
  }

  /** Drop the active revision's node, if its chunk links lead to it, and the pointer. */
  function Withdraw(db: Db, d: DocId): Db
    requires d in db.docs && db.docs[d].active.Some?
  {
    var a := db.docs[d].active.value;
    var cleared := if Linked(db, a) then WithoutNode(db, Node(d, a)) else db;
    cleared.(docs := db.docs[d := db.docs[d].(active := None)])
  }

  function Buried(db: Db, d: DocId, now: int): Db
    requires d in db.docs
  {
    var rev := NextId(db.revisions);
    var added := WithRevision(db, d, NoContent, Remove, 0, None, now);
    added.(docs := added.docs[d := added.docs[d].(state := Tombstoned, projection := Stale, current := Some(rev))])
  }

  /** Deleting a node that entity rows still point at violates their foreign key. */
  function Tombstone(db: Db, d: DocId, now: int): (r: (Db, Outcome<(), MemoryError>))
    ensures r.1.Raised? ==> r.0 == db
  {
    if d !in db.docs || db.docs[d].state == Tombstoned then (db, Committed(()))
    else if db.docs[d].active.None? then (Buried(db, d, now), Committed(()))
    else
      var a := db.docs[d].active.value;
      if Linked(db, a) && Node(d, a) in db.labelled then (db, Raised(ForeignKeyViolation))
      else (Buried(Withdraw(db, d), d, now), Committed(()))
  }

  function MarkUnavailable(db: Db, d: DocId): Db
    requires d in db.docs
  {
    db.(docs := db.docs[d := db.docs[d].(state := Unavailable)])
  }

  /** A missing source is first marked unavailable and tombstoned when it is still missing later. */
  function ReconcileMissing(db: Db, d: DocId, confirmPolls: int, now: int): (Db, Outcome<bool, MemoryError>) {
    if d !in db.docs then (db, Committed(false))
    else if db.docs[d].state == Tombstoned then (db, Committed(true))
    else
      var marked := MarkUnavailable(db, d);
      if db.docs[d].state == Active && confirmPolls > 1 then (marked, Committed(false))
      else
        var (after, result) := Tombstone(marked, d, now);
        if result.Raised? then (db, Raised(result.error)) else (after, Committed(true))
  }

  // ---------------------------------------------------------------- enrichment

  predicate Claimable(db: Db, r: RevId) {
    r in db.queue && db.queue[r].status in {Waiting, Working}
  }

  function ClaimRevisions(db: Db, revs: set<RevId>): Db {
    db.(queue := map r | r in db.queue :: if r in revs then db.queue[r].(status := Working) else db.queue[r],
        docs := map d | d in db.docs ::
          if db.docs[d].current.Some? && db.docs[d].current.value in revs
          then db.docs[d].(projection := Processing) else db.docs[d])
  }

  function WithDone(db: Db, r: RevId): Db {
    if r in db.queue then db.(queue := db.queue[r := db.queue[r].(status := Done)]) else db
  }

  function ChunkLinks(k: Node, chunks: nat): set<(Node, Chunk)> {
    set i | 0 <= i < chunks :: (k, Chunk(k.revision, i))
  }

  /** Mint or reuse the node of revision `r`, link it to its chunks, and make the revision active. */
  function Activate(db: Db, r: RevId): Db
    requires r in db.revisions && db.revisions[r].document in db.docs
  {
    var d := db.revisions[r].document;
    var k := Node(d, r);
    WithDone(db, r).(
      nodes := db.nodes + {k},
      links := (set l | l in db.links && l.0 != k) + ChunkLinks(k, db.revisions[r].chunks),
      docs := db.docs[d := db.docs[d].(active := Some(r), projection := Ready)])
  }

  /** Publish the result of enriching revision `r`, unless the document has moved on. */
  function Publish(db: Db, r: RevId, vectors: bool): (Db, Outcome<Option<Node>, MemoryError>) {
    if r !in db.revisions || db.revisions[r].document !in db.docs then (db, Raised(NoSuchRevision))
    else
      var d := db.revisions[r].document;
      var doc := db.docs[d];
      if doc.current.Some? && doc.current.value != r then (WithDone(db, r), Committed(None))
      else if doc.active.Some? && doc.active.value != r then
        if Linked(db, doc.active.value) && !vectors then (db, Raised(VectorsUnreachable))
        else (Activate(Withdraw(db, d), r), Committed(Some(Node(d, r))))
      else (Activate(db, r), Committed(Some(Node(d, r))))
  }

  function MarkFailed(db: Db, r: RevId): Db {
    db.(queue := if r in db.queue
                 then db.queue[r := QueueRow(if db.queue[r].retries + 1 >= MAX_RETRIES then GivenUp else Waiting,
                                             db.queue[r].retries + 1)]
                 else db.queue,
        docs := map d | d in db.docs ::
          if db.docs[d].current == Some(r)
          then db.docs[d].(projection := if db.docs[d].active.None? then Failed else Stale) else db.docs[d])
  }
}
