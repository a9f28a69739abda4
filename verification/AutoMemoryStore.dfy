/** The auto-memory tables as the source changes them: one method per transaction, statement by
    statement, each proved against the state it must leave behind. */
module AutoMemoryStore {
  import opened Options
  import Lists
  import opened RowIds
  import opened AutoMemory
  import AutoMemoryRuns
  import Sorting

  lemma SortedIsDistinct(db: Db, s: set<RevId>)
    ensures Sorting.StrictTotal(ByNumber(db)) && Lists.Distinct(Sorting.Sorted(s, ByNumber(db)))
  {
  }

  /** Popping stopped either because the count fits or because nothing was left to pop. */
  lemma PrunedAre(db: Db, d: DocId, retention: Retention, now: int, aged: seq<RevId>, k: nat, deletable: seq<RevId>)
    requires d in db.docs && Lists.Elements(aged) == Aged(db, d, retention, now)
    requires Sorting.StrictTotal(ByNumber(db))
    requires var sorted := Sorting.Sorted(Surviving(db, d, retention, now), ByNumber(db));
             k <= |sorted| && deletable == aged + sorted[..k]
             && k == if |sorted| < Excess(db, d, retention, now) then |sorted| else Excess(db, d, retention, now)
    ensures Lists.Elements(deletable) == Prunable(db, d, retention, now)
  {
  }

  lemma PoppedArePrunable(db: Db, d: DocId, retention: Retention, now: int,
                          aged: seq<RevId>, rest: seq<RevId>, deletable: seq<RevId>)
    requires d in db.docs && Lists.Distinct(aged) && Lists.Elements(aged) == Aged(db, d, retention, now)
    requires Sorting.StrictTotal(ByNumber(db))
    requires rest == Sorting.Sorted(Surviving(db, d, retention, now), ByNumber(db))
    requires var over := |RevisionsOf(db, d)| - |aged| - retention.maxCount;
             deletable == aged + rest[..if over <= 0 then 0 else if |rest| < over then |rest| else over]
    ensures Lists.Elements(deletable) == Prunable(db, d, retention, now)
  {
    hide *;
    Lists.ElementCount(aged);
    ExcessIs(db, d, retention, now);
    var excess := Excess(db, d, retention, now);
    PrunedAre(db, d, retention, now, aged, if |rest| < excess then |rest| else excess, deletable);
  }

  /** The revisions too old to keep, in the order they were made. */
  method FindAged(db: Db, d: DocId, retention: Retention, now: int) returns (deletable: seq<RevId>)
    requires d in db.docs
    ensures Lists.Distinct(deletable) && Lists.Elements(deletable) == Aged(db, d, retention, now)
  {
    hide Sorting.StrictTotal;
    hide Sorting.Sorted;
    SortedIsDistinct(db, RevisionsOf(db, d));
    var found := Sorting.Sorted(RevisionsOf(db, d), ByNumber(db));
    var kept := Protected(db.docs[d]);
    deletable := [];
    for i := 0 to |found|
      invariant Lists.Distinct(deletable)
      invariant forall r :: r in deletable <==> r in found[..i] && r in Aged(db, d, retention, now)
    {
      assert found[..i + 1] == found[..i] + [found[i]] && found[i] !in found[..i];
      assert found[i] in RevisionsOf(db, d);
      if found[i] !in kept && db.revisions[found[i]].createdAt < now - retention.maxAgeMs {
        deletable := deletable + [found[i]];
      }
    }
    assert found[..|found|] == found;
  }

  /** Drop the oldest of what is left while more than the bound would remain. */
  method PopOldest(aged: seq<RevId>, rest: seq<RevId>, total: nat, maxCount: nat) returns (deletable: seq<RevId>)
    ensures var over := total - |aged| - maxCount;
            deletable == aged + rest[..if over <= 0 then 0 else if |rest| < over then |rest| else over]
  {
    hide *;
    deletable := aged;
    var surviving := rest;
    ghost var k := 0;
    while total - |deletable| > maxCount && surviving != []
      invariant 0 <= k <= |rest| && surviving == rest[k..]
      invariant deletable == aged + rest[..k]
      invariant k == 0 || k <= total - |aged| - maxCount
      decreases |surviving|
    {
      assert rest[..k + 1] == rest[..k] + [rest[k]];
      deletable := deletable + [surviving[0]];
      surviving := surviving[1..];
      k := k + 1;
    }
  }

  method FindDeletable(db: Db, d: DocId, retention: Retention, now: int) returns (deletable: seq<RevId>)
    requires d in db.docs
    ensures Lists.Elements(deletable) == Prunable(db, d, retention, now)
  {
    hide *;
    var aged := FindAged(db, d, retention, now);
    SortedIsDistinct(db, Surviving(db, d, retention, now));
    var rest := Sorting.Sorted(Surviving(db, d, retention, now), ByNumber(db));
    deletable := PopOldest(aged, rest, |RevisionsOf(db, d)|, retention.maxCount);
    PoppedArePrunable(db, d, retention, now, aged, rest, deletable);
  }

  lemma LinkLeadsToActive(db: Db, d: DocId, k: Node)
    requires AutoMemoryRuns.DbOk(db) && d in db.docs && db.docs[d].active.Some?
    requires exists l :: l in db.links && l.1.revision == db.docs[d].active.value && l.0 == k
    ensures k == Node(d, db.docs[d].active.value)
  {
    var l :| l in db.links && l.1.revision == db.docs[d].active.value && l.0 == k;
    assert AutoMemoryRuns.LinkOk(db, l.0, l.1);
    assert AutoMemoryRuns.DocOk(db, d) && AutoMemoryRuns.DocOk(db, k.document);
  }

  lemma LastNumberByRevisions(db: Db, other: Db, d: DocId)
    requires db.revisions == other.revisions
    ensures LastNumber(db, d) == LastNumber(other, d)
  {
    hide Largest;
    assert RevisionsOf(db, d) == RevisionsOf(other, d);
    assert (set r | r in RevisionsOf(db, d) :: db.revisions[r].number)
        == (set r | r in RevisionsOf(other, d) :: other.revisions[r].number);
  }

  function Minted(db: Db, r: RevId, k: Node): Db
    requires r in db.revisions
  {
    db.(nodes := db.nodes + {k}, links := (set l | l in db.links && l.0 != k) + ChunkLinks(k, db.revisions[r].chunks))
  }

  lemma MintedKeeps(db: Db, r: RevId, k: Node)
    requires r in db.revisions
    ensures var minted := Minted(db, r, k); minted == db.(nodes := minted.nodes, links := minted.links)
  {
  }

  /** Minting the new node first neither hides nor adds a way to the old one. */
  lemma MintedLinks(db: Db, d: DocId, r: RevId)
    requires AutoMemoryRuns.DbOk(db) && d in db.docs && db.docs[d].active.Some? && db.docs[d].active.value != r
    requires r in db.revisions
    ensures var a, minted := db.docs[d].active.value, Minted(db, r, Node(d, r));
            && (Linked(minted, a) <==> Linked(db, a))
            && (forall l :: l in minted.links && l.1.revision == a ==> l.0 == Node(d, a))
            && (if Linked(db, a) then WithoutNode(minted, Node(d, a)).links else minted.links) ==
               (set l | l in Withdraw(db, d).links && l.0 != Node(d, r))
                 + ChunkLinks(Node(d, r), db.revisions[r].chunks)
  {
    var a, minted := db.docs[d].active.value, Minted(db, r, Node(d, r));
    forall l | l in db.links && l.1.revision == a ensures l.0 == Node(d, a) {
      LinkLeadsToActive(db, d, l.0);
    }
    forall l | l in db.links && l.0 == Node(d, a) ensures l.1.revision == a {
      assert AutoMemoryRuns.LinkOk(db, l.0, l.1);
    }
    assert forall l :: l in ChunkLinks(Node(d, r), db.revisions[r].chunks) ==> l.0 == Node(d, r) && l.1.revision == r;
    assert !Linked(db, a) ==> forall l :: l in db.links ==> l.0 != Node(d, a);
  }

  lemma ActivatedAre(db: Db, from: Db, now: Db, d: DocId, r: RevId)
    requires AutoMemoryRuns.DbOk(db) && r in db.revisions && db.revisions[r].document == d && d in db.docs
    requires if db.docs[d].active in {None, Some(r)} then from == db && now == Minted(db, r, Node(d, r))
             else && from == Withdraw(db, d)
                  && now == if Linked(Minted(db, r, Node(d, r)), db.docs[d].active.value)
                            then WithoutNode(Minted(db, r, Node(d, r)), Node(d, db.docs[d].active.value))
                            else Minted(db, r, Node(d, r))
    ensures r in from.revisions && from.revisions[r].document == d && d in from.docs
    ensures Activate(from, r)
            == WithDone(now, r).(docs := now.docs[d := now.docs[d].(active := Some(r), projection := Ready)])
  {
    hide AutoMemoryRuns.DbOk;
    hide ChunkLinks;
    if db.docs[d].active !in {None, Some(r)} {
      var a := db.docs[d].active.value;
      MintedLinks(db, d, r);
      hide Linked;
      assert now.nodes == from.nodes + {Node(d, r)};
      assert now.links == Activate(from, r).links;
      assert now.docs[d := now.docs[d].(active := Some(r), projection := Ready)] == Activate(from, r).docs;
    }
  }

  function RowsOf(d: DocId, r: RevId, targets: seq<string>): set<IndexRow> {
    set t | t in targets :: IndexRow(d, r, t)
  }

  lemma FittingEnds(targets: seq<string>)
    ensures Fitting(targets) == |targets| <==> Lists.Distinct(targets)
  {
    var k := Fitting(targets);
    assert targets[..|targets|] == targets;
    if k < |targets| {
      var i :| 0 <= i < k && targets[..k][i] == targets[k];
      assert targets[i] == targets[k];
    }
  }

  lemma RepeatStays(targets: seq<string>, i: nat, n: nat)
    requires i < n <= |targets| && targets[i] in targets[..i]
    ensures !Lists.Distinct(targets[..n])
  {
    var j :| 0 <= j < i && targets[..i][j] == targets[i];
    assert targets[..n][j] == targets[..n][i];
  }

  /** The first repeat is where the insertion stops. */
  lemma FittingStops(targets: seq<string>, i: nat)
    requires i < |targets| && Lists.Distinct(targets[..i]) && targets[i] in targets[..i]
    ensures Fitting(targets) == i && !Lists.Distinct(targets)
  {
    var k := Fitting(targets);
    RepeatStays(targets, i, |targets|);
    assert targets[..|targets|] == targets;
    hide Lists.Distinct;
    if k > i {
      RepeatStays(targets, i, k);
    } else if k < i {
      RepeatStays(targets, k, i);
    }
  }

  lemma MarkedIsValid(db: Db, d: DocId)
    requires AutoMemoryRuns.DbOk(db) && d in db.docs
    ensures AutoMemoryRuns.DbOk(MarkUnavailable(db, d))
  {
    AutoMemoryRuns.MarksAreQuiet(db, MarkUnavailable(db, d));
  }

  class Store {
    var docs: map<DocId, Document>
    var revisions: map<RevId, Revision>
    var queue: map<RevId, QueueRow>
    var nodes: set<Node>
    var links: set<(Node, Chunk)>
    var labelled: set<Node>
    var index: set<IndexRow>

    constructor ()
      ensures State() == AutoMemoryRuns.INITIAL.db && Valid()
    {
      docs, revisions, queue, nodes, links, labelled, index := map[], map[], map[], {}, {}, {}, {};
    }

    function State(): Db
      reads this
    {
      Db(docs, revisions, queue, nodes, links, labelled, index)
    }

    ghost predicate Valid()
      reads this
    {
      AutoMemoryRuns.DbOk(State())
    }

    // -------------------------------------------------------------- pruning

    method DeleteRevisions(gone: set<RevId>)
      modifies this`revisions, this`queue, this`links, this`index
      ensures State() == WithoutRevisions(old(State()), gone)
    {
      revisions, queue := revisions - gone, queue - gone;
      links := set l | l in links && l.1.revision !in gone;
      index := set row | row in index && row.revision !in gone;
    }

    method Prune(d: DocId, retention: Retention, now: int)
      modifies this`revisions, this`queue, this`links, this`index
      ensures State() == PruneDocument(old(State()), d, retention, now)
    {
      hide Prunable;
      hide Lists.Elements;
      hide WithoutRevisions;
      if d !in docs {
        return;
      }
      var deletable := FindDeletable(State(), d, retention, now);
      DeleteRevisions(Lists.Elements(deletable));
    }

    // -------------------------------------------------------------- ingest

    method AddRevision(d: DocId, hash: Hash, kind: ChangeKind, chunks: nat, disk: Option<Disk>, now: int)
      returns (rev: RevId)
      modifies this`revisions
      ensures rev == NextId(old(revisions)) && State() == WithRevision(old(State()), d, hash, kind, chunks, disk, now)
    {
      var number := LastNumber(State(), d) + 1;
      rev := NextId(revisions);
      revisions := revisions[rev := Revision(d, number, hash, kind, chunks, disk, now)];
    }

    /** A document whose current content is the file's, in the same repository, and whose own file is gone. */
    method TryResolveRename(file: File, files: set<string>, now: int)
      returns (result: Outcome<Option<DocId>, MemoryError>)
      modifies this`docs, this`revisions
      ensures var db, sources := old(State()), RenameSources(old(State()), file);
              if |sources| == 1 && db.docs[TheOnly(sources)].sourcePath !in files then
                if DocsAt(db, file.at) != {} then result == Raised(UniqueViolation) && State() == db
                else result == Committed(Some(TheOnly(sources))) && State() == RenameTo(db, TheOnly(sources), file, now)
              else result == Committed(None) && State() == db
      ensures result.Committed? && result.value.Some? ==> result.value.value in docs
    {
      hide LastNumber;
      hide NextId;
      var sources := RenameSources(State(), file);
      if |sources| != 1 {
        return Committed(None);
      }
      var d := TheOnly(sources);
      if docs[d].sourcePath in files {
        return Committed(None);
      }
      if DocsAt(State(), file.at) != {} {
        return Raised(UniqueViolation);
      }
      docs := docs[d := docs[d].(at := file.at, sourcePath := file.sourcePath, state := Active)];
      var _ := AddRevision(d, Digest(file.text), Rename, 0, None, now);
      result := Committed(Some(d));
    }

    method AddContent(d: DocId, file: File, now: int)
      requires d in docs
      modifies this`docs, this`revisions, this`queue
      ensures d in docs && State() == IngestRevision(old(State()), d, file, now)
    {
      hide LastNumber;
      hide NextId;
      var kind := if LastNumber(State(), d) == 0 then Create else Update;
      var rev := AddRevision(d, Digest(file.text), kind, file.chunks, Some(file.disk), now);
      var projection := Ready;
      if file.at.repository != PROBE_REPOSITORY {
        queue := queue[rev := QueueRow(Waiting, 0)];
        projection := Pending;
      }
      docs := docs[d := docs[d].(current := Some(rev), projection := projection)];
    }

    /** Rebuild the link rows of an index if they are due. Stops at the first repeated target, with the rows before
        it written. */
    method RebuildLinks(d: DocId, changed: bool) returns (ok: bool)
      requires d in docs
      modifies this`index
      ensures ok <==> Indexable(old(State()), d, changed)
      ensures State() == Indexed(old(State()), d, changed)
    {
      hide Fitting;
      if docs[d].at.path != INDEX_LOGICAL_PATH {
        return true;
      }
      if !changed && exists row :: row in index && row.document == d {
        return true;
      }
      if docs[d].current.None? {
        return true;
      }
      ghost var was := State();
      var r, targets := docs[d].current.value, CurrentTargets(State(), d);
      index := set row | row in index && row.document != d;
      hide CurrentTargets;
      for i := 0 to |targets|
        invariant Lists.Distinct(targets[..i])
        invariant index == (set row | row in was.index && row.document != d) + RowsOf(d, r, targets[..i])
      {
        if IndexRow(d, r, targets[i]) in index {
          FittingStops(targets, i);
          return false;
        }
        assert targets[..i + 1] == targets[..i] + [targets[i]];
        index := index + {IndexRow(d, r, targets[i])};
      }
      assert targets[..|targets|] == targets;
      FittingEnds(targets);
      ok := true;
    }

    /** Outside a transaction of its own. */
    method RefreshLinks(d: DocId, kept: bool) returns (result: Outcome<DocId, MemoryError>)
      requires d in docs
      modifies this`index
      ensures (State(), result) == Refreshed(old(State()), d, kept)
    {
      hide Indexed;
      hide Indexable;
      var was := index;
      var ok := RebuildLinks(d, false);
      if ok {
        return Committed(d);
      }
      if !kept {
        index := was;
      }
      result := Raised(RepeatedTarget);
    }

    /** The document whose own file has the time and size its current revision was read at, if its content has not
        changed either. */
    method FindUntouched(file: File) returns (same: Option<DocId>)
      ensures same == Untouched(State(), file)
    {
      var stamped := set d: DocId | d in docs && SameStamp(State(), d, file);
      if stamped == {} {
        return None;
      }
      var d := Sorting.Least(stamped, (a: nat, b: nat) => a < b);
      assert SameStamp(State(), d, file);
      if revisions[docs[d].current.value].disk.value.source != file.disk.source {
        return None;
      }
      same := Some(d);
    }

    /** Skip a file that was not touched; otherwise move, insert or touch the document, add a revision when the content
        differs, bring the index links up to date, and prune. */
    method IngestFile(file: File, files: set<string>, retention: Retention, now: int, kept: bool)
      returns (result: Outcome<DocId, MemoryError>)
      modifies this`docs, this`revisions, this`queue, this`links, this`index
      ensures (State(), result) == Ingest(old(State()), Poll(file, files, retention, now, kept))
    {
      hide IngestRevision;
      hide RenameTo;
      hide PruneDocument;
      hide NextId;
      hide RenameSources;
      hide Untouched;
      hide Refreshed;
      hide Indexed;
      hide Indexable;
      var same := FindUntouched(file);
      if same.Some? {
        result := RefreshLinks(same.value, kept);
        return;
      }
      var renamed := TryResolveRename(file, files, now);
      if renamed.Raised? {
        return Raised(renamed.error);
      }
      if renamed.value.Some? {
        Prune(renamed.value.value, retention, now);
        result := RefreshLinks(renamed.value.value, kept);
        return;
      }
      var added;
      result, added := IngestContent(file, files, now);
      if added {
        Prune(result.value, retention, now);
      }
    }

    /** The transaction for a file that did not move here: all of it, or nothing. */
    method IngestContent(file: File, ghost files: set<string>, now: int)
      returns (result: Outcome<DocId, MemoryError>, added: bool)
      requires var sources := RenameSources(State(), file);
               |sources| != 1 || docs[TheOnly(sources)].sourcePath in files
      modifies this`docs, this`revisions, this`queue, this`index
      ensures match PlanIngest(old(State()), file, files, now)
              case Refuse(error) => State() == old(State()) && result == Raised(error) && !added
              case Move(_, _) => false
              case Touch(d, touched) => !added && (State(), result) == Written(old(State()), d, touched, false)
              case Add(d, more) =>
                added == result.Committed? && (State(), result) == Written(old(State()), d, more, true)
    {
      hide IngestRevision;
      hide RenameTo;
      hide NextId;
      hide RenameSources;
      hide Indexed;
      hide Indexable;
      var wasDocs, wasRevisions, wasQueue, wasIndex := docs, revisions, queue, index;
      var here := DocsAt(State(), file.at);
      var d;
      var changed := true;
      if here == {} {
        if exists d :: d in docs && docs[d].uuid == file.at {
          return Raised(UniqueViolation), false;
        }
        d := NextId(docs);
        docs := docs[d := Document(file.at, file.at, file.sourcePath, None, None, Active, Pending)];
      } else {
        d := Sorting.Least(here, (a: nat, b: nat) => a < b);
        changed := HashOf(State(), docs[d].current) != Some(Digest(file.text));
        docs := docs[d := docs[d].(sourcePath := file.sourcePath, state := Active)];
      }
      if changed {
        AddContent(d, file, now);
      }
      ghost var written := State();
      var ok := RebuildLinks(d, changed);
      if !ok {
        docs, revisions, queue, index := wasDocs, wasRevisions, wasQueue, wasIndex;
        return Raised(RepeatedTarget), false;
      }
      result, added := Committed(d), changed;
    }

    // -------------------------------------------------------------- tombstones and absence

    /** Any node that a chunk of the revision leads to. */
    method FindNode(r: RevId) returns (k: Option<Node>)
      ensures k.Some? <==> Linked(State(), r)
      ensures k.Some? ==> exists l :: l in links && l.1.revision == r && l.0 == k.value
    {
      var found := set l | l in links && l.1.revision == r;
      assert forall l :: l in links && l.1.revision == r ==> l in found;
      if found == {} {
        return None;
      }
      var l :| l in found;
      k := Some(l.0);
    }

    /** The node goes with its links, by cascade. No cascade covers its labels: publication deletes them itself, and
        a tombstone gets here only when there are none. */
    method DeleteNode(k: Node)
      modifies this`nodes, this`links, this`labelled
      ensures State() == WithoutNode(old(State()), k)
    {
      links := set l | l in links && l.0 != k;
      labelled := labelled - {k};
      nodes := nodes - {k};
    }

    method TombstoneDocument(d: DocId, now: int) returns (result: Outcome<(), MemoryError>)
      requires Valid()
      modifies this`docs, this`revisions, this`nodes, this`links, this`labelled
      ensures (State(), result) == Tombstone(old(State()), d, now)
    {
      hide LastNumber;
      hide NextId;
      if d !in docs || docs[d].state == Tombstoned {
        return Committed(());
      }
      if docs[d].active.Some? {
        var k := FindNode(docs[d].active.value);
        if k.Some? {
          LinkLeadsToActive(State(), d, k.value);
          if k.value in labelled {
            return Raised(ForeignKeyViolation);
          }
          DeleteNode(k.value);
        }
      }
      hide Linked;
      ghost var cleared := State().(docs := docs[d := docs[d].(active := None)]);
      assert cleared == if old(docs)[d].active.Some? then Withdraw(old(State()), d) else old(State());
      LastNumberByRevisions(State(), cleared, d);
      var rev := AddRevision(d, NoContent, Remove, 0, None, now);
      docs := docs[d := docs[d].(state := Tombstoned, active := None, projection := Stale, current := Some(rev))];
      assert docs == cleared.docs[
        d := cleared.docs[d].(state := Tombstoned, projection := Stale, current := Some(rev))];
      result := Committed(());
    }

    method ReconcileMissingSource(d: DocId, confirmPolls: int, now: int) returns (result: Outcome<bool, MemoryError>)
      requires Valid()
      modifies this`docs, this`revisions, this`nodes, this`links, this`labelled
      ensures (State(), result) == ReconcileMissing(old(State()), d, confirmPolls, now)
    {
      hide Tombstone;
      hide AutoMemoryRuns.DbOk;
      if d !in docs {
        return Committed(false);
      }
      if docs[d].state == Tombstoned {
        return Committed(true);
      }
      var was := docs;
      docs := docs[d := docs[d].(state := Unavailable)];
      if was[d].state == Active && confirmPolls > 1 {
        return Committed(false);
      }
      MarkedIsValid(old(State()), d);
      var buried := TombstoneDocument(d, now);
      if buried.Raised? {
        docs := was;
        return Raised(buried.error);
      }
      result := Committed(true);
    }

    // -------------------------------------------------------------- enrichment

    method ClaimPending(revs: set<RevId>)
      modifies this`queue, this`docs
      ensures State() == ClaimRevisions(old(State()), revs)
    {
      queue := map r | r in queue :: if r in revs then queue[r].(status := Working) else queue[r];
      docs := map d | d in docs ::
        if docs[d].current.Some? && docs[d].current.value in revs then docs[d].(projection := Processing) else docs[d];
    }

    method RetireQueueRow(r: RevId)
      modifies this`queue
      ensures State() == WithDone(old(State()), r)
    {
      if r in queue {
        queue := queue[r := queue[r].(status := Done)];
      }
    }

    method DeleteSuperseded(a: RevId, vectors: bool, ghost k: Node) returns (reachable: bool)
      requires forall l :: l in links && l.1.revision == a ==> l.0 == k
      modifies this`nodes, this`links, this`labelled
      ensures reachable <==> !Linked(old(State()), a) || vectors
      ensures State() == if Linked(old(State()), a) && vectors then WithoutNode(old(State()), k) else old(State())
    {
      var previous := FindNode(a);
      if previous.None? {
        return true;
      }
      if !vectors {
        return false;
      }
      DeleteNode(previous.value);
      reachable := true;
    }

    method Mint(r: RevId, k: Node)
      requires r in revisions
      modifies this`nodes, this`links
      ensures State() == Minted(old(State()), r, k)
    {
      nodes := nodes + {k};
      links := set l | l in links && l.0 != k;
      links := links + ChunkLinks(k, revisions[r].chunks);
    }

    /** The new node is minted and linked before the one it supersedes is looked up and deleted. */
    method PublishResult(r: RevId, vectors: bool) returns (result: Outcome<Option<Node>, MemoryError>)
      requires Valid()
      modifies this`docs, this`queue, this`nodes, this`links, this`labelled
      ensures (State(), result) == Publish(old(State()), r, vectors)
    {
      hide AutoMemoryRuns.DbOk;
      hide ChunkLinks;
      hide Linked;
      hide Minted;
      hide Withdraw;
      hide WithDone;
      hide Activate;
      hide WithoutNode;
      if r !in revisions || revisions[r].document !in docs {
        return Raised(NoSuchRevision);
      }
      var d := revisions[r].document;
      if docs[d].current.Some? && docs[d].current.value != r {
        RetireQueueRow(r);
        return Committed(None);
      }
      var k := Node(d, r);
      var wasNodes, wasLinks := nodes, links;
      Mint(r, k);
      ghost var from := old(State());
      if docs[d].active.Some? && docs[d].active.value != r {
        MintedLinks(old(State()), d, r);
        var reachable := DeleteSuperseded(docs[d].active.value, vectors, Node(d, docs[d].active.value));
        if !reachable {
          MintedKeeps(old(State()), r, k);
          nodes, links := wasNodes, wasLinks;
          return Raised(VectorsUnreachable);
        }
        from := Withdraw(old(State()), d);
      }
      ActivatedAre(old(State()), from, State(), d, r);
      RetireQueueRow(r);
      docs := docs[d := docs[d].(active := Some(r), projection := Ready)];
      result := Committed(Some(k));
    }

    method MarkEnrichmentFailed(r: RevId)
      modifies this`queue, this`docs
      ensures State() == MarkFailed(old(State()), r)
    {
      if r in queue {
        var retries := queue[r].retries + 1;
        queue := queue[r := QueueRow(if retries >= MAX_RETRIES then GivenUp else Waiting, retries)];
      }
      docs := map d | d in docs ::
        if docs[d].current == Some(r) then docs[d].(projection := if docs[d].active.None? then Failed else Stale)
        else docs[d];
    }
  }
}
