/** The resumable backfill job: one page per call, an external cursor, and a frozen high watermark.

    Node ids are SQLite row ids: a new node gets one more than the largest id present, so ids of
    deleted nodes can come back, with a fresh UUID. */
module ClassificationBackfill {
  import opened Options
  import opened Lists
  import opened Classification
  import opened ClassificationReplay
  import Sorting
  import ClassificationStore

  type Uuid = string

  datatype Cursor = Cursor(
    recipe: Recipe,
    highWatermark: nat,
    highWatermarkUuid: Option<Uuid>,
    afterId: nat,
    complete: bool)

  /** `used` are the UUIDs given out so far; `visited` is which node `enqueue_node` was called on under which
      recipe. */
  datatype Job = Job(db: Db, used: set<Uuid>, visited: set<(Uuid, Recipe)>, cursor: Option<Cursor>)

  datatype Report = Report(previousAfterId: nat, afterId: nat, scanned: nat, queued: nat, complete: bool)
  datatype BackfillError = LimitOutOfRange | CursorMismatch

  function Uuids(db: Db): map<NodeId, Uuid> {
    map id | id in db.nodes :: db.nodes[id].uuid
  }

  function Ids(nodes: map<NodeId, Uuid>, after: nat): set<NodeId> {
    set id | id in nodes && id > after
  }

  function IdsUpTo(nodes: map<NodeId, Uuid>, after: nat, last: nat): set<NodeId> {
    set id | id in nodes && after < id <= last
  }

  function ById(): (NodeId, NodeId) -> bool {
    (a: NodeId, b: NodeId) => a < b
  }

  function Boundary(nodes: map<NodeId, Uuid>, id: NodeId): Option<Uuid> {
    if id in nodes then Some(nodes[id]) else None
  }

  /** The largest id present, or 0; node ids start at one. */
  function LastId(nodes: map<NodeId, Uuid>): (last: NodeId)
    ensures forall id :: id in nodes ==> id <= last
    ensures last in nodes || (last == 0 && nodes == map[])
  {
    if nodes == map[] then 0
    else
      var more := (a: NodeId, b: NodeId) => a > b;
      assert nodes.Keys != {};
      Sorting.Least(nodes.Keys, more)
  }

  function StartCursor(nodes: map<NodeId, Uuid>, recipe: Recipe): Cursor {
    var last := LastId(nodes);
    Cursor(recipe, last, Boundary(nodes, last), 0, false)
  }

  predicate CursorFits(nodes: map<NodeId, Uuid>, c: Cursor) {
    c.afterId <= c.highWatermark && Boundary(nodes, c.highWatermark) == c.highWatermarkUuid
  }

  /** `classification.backfill`: the inner page is bounded only by a count. */
  function InnerPage(nodes: map<NodeId, Uuid>, after: nat, count: nat): seq<NodeId> {
    Sorting.FirstFew(Ids(nodes, after), ById(), count)
  }

  function Count(nodes: map<NodeId, Uuid>, c: Cursor, limit: nat): nat {
    var open := |IdsUpTo(nodes, c.afterId, c.highWatermark)|;
    if open < limit then open else limit
  }

  function Advanced(nodes: map<NodeId, Uuid>, c: Cursor, page: seq<NodeId>): Cursor {
    var after := if page == [] then c.afterId else page[|page| - 1];
    c.(afterId := after, complete := IdsUpTo(nodes, after, c.highWatermark) == {})
  }

  function Visits(nodes: map<NodeId, Uuid>, page: seq<NodeId>, recipe: Recipe): set<(Uuid, Recipe)> {
    set id | id in page && id in nodes :: (nodes[id], recipe)
  }

  /** What a call works from: the cursor file, or a new cursor when there is none. */
  function CursorFor(job: Job, recipe: Recipe): Cursor {
    if job.cursor.Some? then job.cursor.value else StartCursor(Uuids(job.db), recipe)
  }

  predicate CursorRefused(job: Job, recipe: Recipe) {
    job.cursor.Some? && (job.cursor.value.recipe != recipe || !CursorFits(Uuids(job.db), job.cursor.value))
  }

  function PageFor(job: Job, recipe: Recipe, limit: nat): seq<NodeId> {
    var nodes, c := Uuids(job.db), CursorFor(job, recipe);
    InnerPage(nodes, c.afterId, Count(nodes, c, limit))
  }

  /** One call. `published` is false when the process stops between the commit and the cursor write. */
  function RunPage(job: Job, recipe: Recipe, limit: int, now: int, published: bool)
    : (Job, Outcome<Report, BackfillError>)
  {
    if !(1 <= limit <= 1000) then (job, Raised(LimitOutOfRange))
    else if CursorRefused(job, recipe) then (job, Raised(CursorMismatch))
    else
      var c, page := CursorFor(job, recipe), PageFor(job, recipe, limit);
      var (db, queued) := EnqueueEach(job.db, page, recipe, now);
      var next := Advanced(Uuids(job.db), c, page);
      (Job(db, job.used, job.visited + Visits(Uuids(job.db), page, recipe),
           if published then Some(next) else job.cursor),
       Committed(Report(c.afterId, next.afterId, |page|, queued, next.complete)))
  }

  // ---------------------------------------------------------------- the page

  lemma CardinalityGap(small: set<NodeId>, big: set<NodeId>)
    requires small <= big
    ensures |small| <= |big|
    ensures |small| == |big| ==> small == big
  {
    assert big == small + (big - small);
  }

  /** Everything still open up to the watermark comes before a row behind the watermark. */
  lemma OpenComesFirst(nodes: map<NodeId, Uuid>, after: nat, last: nat, count: nat, k: nat)
    requires k < |InnerPage(nodes, after, count)|
    ensures InnerPage(nodes, after, count)[k] > last ==> |IdsUpTo(nodes, after, last)| <= k
  {
    hide Sorting.FirstFew;
    var page, open, less := InnerPage(nodes, after, count), IdsUpTo(nodes, after, last), ById();
    var before := Elements(page[..k]);
    assert forall i, j :: 0 <= i < j < |page| ==> less(page[i], page[j]);
    assert forall x :: x in Ids(nodes, after) && x !in page ==> less(page[k], x);
    if page[k] > last {
      forall x | x in open ensures x in before {
        assert x in Ids(nodes, after);
        var j :| 0 <= j < |page| && page[j] == x;
        assert page[..k][j] == x;
      }
      CardinalityGap(open, before);
      ElementCount(page[..k]);
    }
  }

  /** A page that is bounded only by how many nodes are open never crosses the watermark, and it
      takes every open node up to its last one. */
  lemma PageStaysBelowWatermark(nodes: map<NodeId, Uuid>, c: Cursor, limit: nat)
    requires c.afterId <= c.highWatermark
    ensures var page := InnerPage(nodes, c.afterId, Count(nodes, c, limit));
            var next := Advanced(nodes, c, page);
            && (forall id :: id in page ==> id in nodes && c.afterId < id <= c.highWatermark)
            && c.afterId <= next.afterId <= c.highWatermark
            && (page != [] ==> c.afterId < next.afterId)
            && (forall id :: id in nodes && c.afterId < id <= next.afterId ==> id in page)
  {
    hide Sorting.FirstFew;
    var count := Count(nodes, c, limit);
    var page := InnerPage(nodes, c.afterId, count);
    var open := IdsUpTo(nodes, c.afterId, c.highWatermark);
    var less := ById();
    CardinalityGap(open, Ids(nodes, c.afterId));
    assert |page| <= |open|;
    forall k | 0 <= k < |page| ensures page[k] in nodes && c.afterId < page[k] <= c.highWatermark {
      assert page[k] in page;
      OpenComesFirst(nodes, c.afterId, c.highWatermark, count, k);
    }
    if page != [] {
      var last := |page| - 1;
      assert page[last] in page;
      assert forall id :: id in Ids(nodes, c.afterId) && id !in page ==> less(page[last], id);
      assert forall id :: id in nodes && c.afterId < id <= page[last] ==> id in Ids(nodes, c.afterId);
    }
  }

  /** The nodes of the job's population that come before `n` and are still to be visited. */
  function StillBefore(nodes: map<NodeId, Uuid>, c: Cursor, n: NodeId): set<NodeId> {
    set m | m in nodes && c.afterId < m < n
  }

  /** The page is exactly the next nodes up to the watermark, at most `limit`. */
  lemma PageTakesTheNextFew(nodes: map<NodeId, Uuid>, c: Cursor, limit: nat, n: NodeId)
    ensures n in InnerPage(nodes, c.afterId, Count(nodes, c, limit)) <==>
              n in nodes && c.afterId < n <= c.highWatermark && |StillBefore(nodes, c, n)| < limit
  {
    hide Sorting.FirstFew;
    var open, before := IdsUpTo(nodes, c.afterId, c.highWatermark), StillBefore(nodes, c, n);
    if n in Ids(nodes, c.afterId) {
      Sorting.PickedIffFewPrecede(Ids(nodes, c.afterId), ById(), Count(nodes, c, limit), n);
      assert Sorting.Preceding(Ids(nodes, c.afterId), ById(), n) == before;
      if n <= c.highWatermark {
        CardinalityGap(before, open);
        assert n in open && n !in before;
      } else {
        CardinalityGap(open, before);
      }
    }
  }

  // ---------------------------------------------------------------- runs

  /** `Work` is any other transaction of the queue: it leaves the nodes' ids and UUIDs alone. `NewCursor` removes
      the cursor file. */
  datatype Step =
    | Insert(uuid: Uuid, evidence: Option<string>)
    | Delete(id: NodeId)
    | Work(db: Db)
    | NewCursor
    | Page(recipe: Recipe, limit: int, now: int, published: bool)

  function Next(job: Job, step: Step): Job {
    match step
    case Insert(uuid, evidence) =>
      if uuid in job.used then job
      else
        var id := LastId(Uuids(job.db)) + 1;
        job.(db := job.db.(nodes := job.db.nodes[id := Node(uuid, evidence)]), used := job.used + {uuid})
    case Delete(id) =>
      job.(db := Unlinked(job.db, id).(nodes := job.db.nodes - {id}, rows := job.db.rows - {id}))
    case Work(db) => if Uuids(db) == Uuids(job.db) then job.(db := db) else job
    case NewCursor => job.(cursor := None)
    case Page(recipe, limit, now, published) => RunPage(job, recipe, limit, now, published).0
  }

  /** Any finite history of inserts, deletions, other work, pages and interrupted pages from a fresh corpus. */
  function After(steps: seq<Step>): Job {
    if steps == [] then Job(Db(map[], map[], map[], {}, 0), {}, {}, None)
    else Next(After(steps[..|steps| - 1]), steps[|steps| - 1])
  }

  /** While the boundary node is still the one the cursor froze, all ids up to `afterId` are done. */
  ghost predicate Ok(job: Job) {
    var nodes := Uuids(job.db);
    && 0 !in nodes
    && (forall id :: id in nodes ==> nodes[id] in job.used)
    && (job.cursor.Some? ==>
          var c := job.cursor.value;
          && c.afterId <= c.highWatermark
          && (c.highWatermark == 0 <==> c.highWatermarkUuid.None?)
          && (c.highWatermarkUuid.Some? ==> c.highWatermarkUuid.value in job.used)
          && (CursorFits(nodes, c) ==> Done(job, c.recipe, c.afterId)))
  }

  predicate Done(job: Job, recipe: Recipe, last: nat) {
    var nodes := Uuids(job.db);
    forall id :: id in nodes && id <= last ==> (nodes[id], recipe) in job.visited
  }

  lemma InsertOk(job: Job, uuid: Uuid, evidence: Option<string>)
    requires Ok(job)
    ensures Ok(Next(job, Insert(uuid, evidence)))
  {
    hide Sorting.Least;
    var after := Next(job, Insert(uuid, evidence));
    if uuid !in job.used {
      var nodes, id := Uuids(job.db), LastId(Uuids(job.db)) + 1;
      hide LastId;
      assert id !in nodes && Uuids(after.db) == nodes[id := uuid];
    }
  }

  lemma DeleteOk(job: Job, id: NodeId)
    requires Ok(job)
    ensures Ok(Next(job, Delete(id)))
  {
    assert Uuids(Next(job, Delete(id)).db) == Uuids(job.db) - {id};
  }

  lemma PageKeepsNodes(db: Db, page: seq<NodeId>, recipe: Recipe, now: int)
    ensures Uuids(EnqueueEach(db, page, recipe, now).0) == Uuids(db)
  {
    PageTouchesOnly(db, page, recipe, now, 0);
    hide EnqueueEach;
  }

  lemma PageOk(job: Job, recipe: Recipe, limit: int, now: int, published: bool)
    requires Ok(job)
    ensures var (after, result) := RunPage(job, recipe, limit, now, published);
            && Ok(after)
            && (result.Committed? ==>
                  && Uuids(job.db) == Uuids(after.db)
                  && result.value.previousAfterId <= result.value.afterId
                  && (result.value.scanned > 0 ==> result.value.previousAfterId < result.value.afterId)
                  && (result.value.complete && published ==>
                        after.cursor.Some? && Done(after, recipe, after.cursor.value.highWatermark))
                  && (job.cursor.Some? ==>
                        && result.value.previousAfterId == job.cursor.value.afterId
                        && result.value.afterId <= job.cursor.value.highWatermark
                        && after.cursor.Some?
                        && after.cursor.value.highWatermark == job.cursor.value.highWatermark
                        && job.cursor.value.afterId <= after.cursor.value.afterId))
  {
    hide Sorting.Least;
    hide InnerPage;
    hide EnqueueEach;
    var nodes, c := Uuids(job.db), CursorFor(job, recipe);
    if 1 <= limit <= 1000 && !CursorRefused(job, recipe) {
      PageStaysBelowWatermark(nodes, c, limit);
      var (after, result) := RunPage(job, recipe, limit, now, published);
      var page := PageFor(job, recipe, limit);
      PageKeepsNodes(job.db, page, recipe, now);
      var next := Advanced(nodes, c, page);
      assert CursorFits(nodes, c) && c.recipe == recipe;
      assert Done(job, recipe, c.afterId);
      forall id | id in nodes && id <= next.afterId ensures (nodes[id], recipe) in after.visited {
        if id > c.afterId { assert id in page; }
      }
      assert next.complete ==> forall id :: id in nodes && id <= c.highWatermark ==>
        id <= next.afterId || id in IdsUpTo(nodes, next.afterId, c.highWatermark);
    }
  }

  lemma {:induction false} EveryHistoryIsOk(steps: seq<Step>)
    ensures Ok(After(steps))
  {
    if steps != [] {
      var before := After(steps[..|steps| - 1]);
      EveryHistoryIsOk(steps[..|steps| - 1]);
      match steps[|steps| - 1]
      case Insert(uuid, evidence) => InsertOk(before, uuid, evidence);
      case Delete(id) => DeleteOk(before, id);
      case Work(db) =>
      case NewCursor =>
      case Page(recipe, limit, now, published) => PageOk(before, recipe, limit, now, published);
    }
  }

  /** Main result: whatever was inserted, deleted, replayed or cut short before, when a call writes a complete
      cursor every node the job froze and that still exists has been enqueued under the cursor's recipe. */
  lemma CompleteMeansVisited(steps: seq<Step>, recipe: Recipe, limit: int, now: int)
    ensures var (after, result) := RunPage(After(steps), recipe, limit, now, true);
            result.Committed? && result.value.complete ==>
              after.cursor.Some? && Done(after, recipe, after.cursor.value.highWatermark)
  {
    EveryHistoryIsOk(steps);
    PageOk(After(steps), recipe, limit, now, true);
  }

  /** The cursor never moves back, never passes its watermark, and every non-empty page advances it. */
  lemma CursorOnlyAdvances(steps: seq<Step>, step: Step)
    requires After(steps).cursor.Some? && !step.NewCursor?
    ensures var c, d := After(steps).cursor.value, Next(After(steps), step).cursor;
            && d.Some?
            && d.value.highWatermark == c.highWatermark
            && c.afterId <= d.value.afterId <= c.highWatermark
    ensures step.Page? ==>
              var result := RunPage(After(steps), step.recipe, step.limit, step.now, step.published).1;
              result.Committed? && result.value.scanned > 0 ==>
                result.value.previousAfterId < result.value.afterId <= After(steps).cursor.value.highWatermark
  {
    EveryHistoryIsOk(steps);
    if step.Page? {
      PageOk(After(steps), step.recipe, step.limit, step.now, step.published);
      assert Ok(Next(After(steps), step));
    }
    hide RunPage;
  }

  /** A call cut short before its cursor write is replayed over the same nodes to the same cursor and report, but
      for the queued count. It leaves the tables as the first pass did exactly if that pass had to skip no node. */
  lemma InterruptedPageIsReplayed(job: Job, recipe: Recipe, limit: int, now: int, later: int)
    ensures var (cut, first) := RunPage(job, recipe, limit, now, false);
            var (again, second) := RunPage(cut, recipe, limit, later, true);
            var once := RunPage(job, recipe, limit, now, true).0;
            && cut.db == once.db && again.cursor == once.cursor && again.visited == once.visited
            && (first.Raised? ==> second == first && again == once)
            && (first.Committed? ==>
                  var page := PageFor(job, recipe, limit);
                  && second == Committed(first.value.(queued := |Displaced(job.db, page, recipe)|))
                  && (again.db == once.db <==> forall n :: n in page ==> !WillSkip(job.db, n, recipe)))
  {
    hide InnerPage;
    hide Sorting.Least;
    hide WillSkip;
    hide Displaced;
    hide EnqueueEach;
    if 1 <= limit <= 1000 && !CursorRefused(job, recipe) {
      var page := PageFor(job, recipe, limit);
      PageIsDistinct(job, recipe, limit);
      PageKeepsNodes(job.db, page, recipe, now);
      ReplayedPage(job.db, page, recipe, now, later);
    }
  }

  lemma PageIsDistinct(job: Job, recipe: Recipe, limit: nat)
    ensures Distinct(PageFor(job, recipe, limit))
    ensures forall n :: n in PageFor(job, recipe, limit) ==> n in job.db.nodes
  {
    hide Sorting.FirstFew;
  }

  lemma NoVisits(nodes: map<NodeId, Uuid>, recipe: Recipe)
    ensures Visits(nodes, [], recipe) == {}
  {
  }

  lemma VisitNext(nodes: map<NodeId, Uuid>, page: seq<NodeId>, i: nat, recipe: Recipe)
    requires i < |page| && page[i] in nodes
    ensures Visits(nodes, page[..i + 1], recipe) == Visits(nodes, page[..i], recipe) + {(nodes[page[i]], recipe)}
  {
    assert page[..i + 1] == page[..i] + [page[i]];
  }

  lemma EnqueueNext(db: Db, page: seq<NodeId>, i: nat, recipe: Recipe, now: int)
    requires i < |page|
    ensures var (before, queued) := EnqueueEach(db, page[..i], recipe, now);
            var (after, one) := EnqueueNode(before, page[i], true, recipe, now);
            EnqueueEach(db, page[..i + 1], recipe, now) == (after, if one then queued + 1 else queued)
  {
    hide EnqueueNode;
    assert page[..i + 1][..i] == page[..i];
  }

  // ---------------------------------------------------------------- the command itself

  class BackfillCommand {
    const store: ClassificationStore.Store
    var used: set<Uuid>
    var visited: set<(Uuid, Recipe)>
    var cursor: Option<Cursor>

    constructor (store: ClassificationStore.Store)
      ensures this.store == store && used == {} && visited == {} && cursor == None
    {
      this.store, used, visited, cursor := store, {}, {}, None;
    }

    function State(): Job
      reads this, store
    {
      Job(store.State(), used, visited, cursor)
    }

    method Page(recipe: Recipe, limit: int, now: int, published: bool)
      returns (result: Outcome<Report, BackfillError>)
      modifies this`visited, this`cursor, store
      ensures (State(), result) == RunPage(old(State()), recipe, limit, now, published)
    {
      hide InnerPage;
      hide Visits;
      hide EnqueueEach;
      hide EnqueueNode;
      if !(1 <= limit <= 1000) {
        return Raised(LimitOutOfRange);
      }
      ghost var was := State();
      var nodes := Uuids(store.State());
      if cursor.Some? && (cursor.value.recipe != recipe || !CursorFits(nodes, cursor.value)) {
        return Raised(CursorMismatch);
      }
      var c := if cursor.Some? then cursor.value else StartCursor(nodes, recipe);
      var page := InnerPage(nodes, c.afterId, Count(nodes, c, limit));
      PageIsDistinct(was, recipe, limit);
      var queued := 0;
      NoVisits(nodes, recipe);
      EnqueueNone(was.db, recipe, now);
      for i := 0 to |page|
        invariant visited == was.visited + Visits(nodes, page[..i], recipe) && cursor == was.cursor
        invariant (store.State(), queued) == EnqueueEach(was.db, page[..i], recipe, now)
      {
        VisitNext(nodes, page, i, recipe);
        EnqueueNext(was.db, page, i, recipe, now);
        assert page[i] in page;
        var one := store.Enqueue(page[i], true, recipe, now);
        queued := queued + if one then 1 else 0;
        visited := visited + {(nodes[page[i]], recipe)};
      }
      assert page[..|page|] == page;
      var next := Advanced(nodes, c, page);
      if published {
        cursor := Some(next);
      }
      result := Committed(Report(c.afterId, next.afterId, |page|, queued, next.complete));
    }
  }

  lemma EnqueueNone(db: Db, recipe: Recipe, now: int)
    ensures EnqueueEach(db, [], recipe, now) == (db, 0)
  {
  }
}
