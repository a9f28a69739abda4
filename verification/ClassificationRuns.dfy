/** What every interleaving of writers, workers, crashes, edits and operators keeps. */
module ClassificationRuns {
  import opened Options
  import opened Lists
  import opened Classification

  // ---------------------------------------------------------------- histories

  datatype Publication = Publication(claim: Claim, nouls: Probabilities)

  /** The database with what happened to it: every claim handed out, every result published. */
  datatype World = World(db: Db, issued: set<Claim>, log: seq<Publication>)

  /** One committed transaction. A crashed, overtaken or late worker is one whose `Apply` or `Fail`
      never happens or happens at any later point, any number of times. `Edit` changes a node
      without telling the queue; `Reenrich` rewrites a node, wipes its links and enqueues it at once. */
  datatype Step =
    | Insert(n: NodeId, uuid: string, evidence: Option<string>)
    | Edit(n: NodeId, evidence: Option<string>)
    | Delete(n: NodeId)
    | SourceTakes(t: Topic)
    | SourceReleases(t: Topic)
    | Enqueue(n: NodeId, enabled: bool, recipe: Recipe, now: int)
    | Reenrich(n: NodeId, evidence: Option<string>, taken: set<Topic>, enabled: bool, recipe: Recipe, now: int)
    | ClaimBatch(recipe: Recipe, limit: int, now: int)
    | Apply(work: Claim, response: Response, recipe: Recipe, now: int)
    | Fail(work: Claim, error: string, transient: bool, retryAfterMs: int, consumeAttempt: bool, now: int)
    | Retry(requeued: set<NodeId>, errors: set<string>, recipe: Recipe, now: int)

  /** A failed row an operator may ask again for: never published, still describing its node. */
  predicate Retriable(db: Db, n: NodeId, errors: set<string>, recipe: Recipe) {
    && n in db.rows
    && db.rows[n].status == Failed
    && db.rows[n].error.Some? && db.rows[n].error.value in errors
    && db.rows[n].recipe == recipe
    && db.rows[n].appliedRevision.None?
    && StillDescribes(db, n)
  }

  predicate StillDescribes(db: Db, n: NodeId)
    requires n in db.rows
  {
    var read := ReadNode(db, n);
    read.Evidence? && read.uuid == db.rows[n].nodeUuid && Of(read.evidence) == db.rows[n].desiredInput
  }

  function Reset(row: Row, now: int): Row {
    row.(status := Pending, attempts := 0, nextAttemptAt := 0, leaseToken := None,
         leaseExpiresAt := None, error := None, enqueuedAt := now, updatedAt := now)
  }

  function WithReset(db: Db, requeued: set<NodeId>, now: int): Db {
    db.(rows := map n | n in db.rows :: if n in requeued then Reset(db.rows[n], now) else db.rows[n])
  }

  /** The node's content is replaced, its links of every kind go, and source entities take names that are free. */
  function Rewritten(db: Db, n: NodeId, evidence: Option<string>, taken: set<Topic>): Db
    requires n in db.nodes
  {
    Unlinked(db, n).(nodes := db.nodes[n := db.nodes[n].(evidence := evidence)],
                     entities := db.entities + (map t | t in taken && t !in db.entities :: Source))
  }

  predicate Enabled(w: World, step: Step) {
    match step
    case Insert(n, _, _) => n !in w.db.nodes
    case Edit(n, _) => n in w.db.nodes
    case Delete(n) => n in w.db.nodes
    case Reenrich(n, _, _, _, _, _) => n in w.db.nodes
    case SourceTakes(t) => t !in w.db.entities
    case SourceReleases(t) => t in w.db.entities && w.db.entities[t] == Source
    case Apply(work, _, _, _) => work in w.issued
    case Fail(work, _, _, _, _, _) => work in w.issued && work.attempts >= 1
    case Retry(requeued, errors, recipe, _) => forall n :: n in requeued ==> Retriable(w.db, n, errors, recipe)
    case _ => true
  }

  function Next(w: World, step: Step): World
    requires Enabled(w, step)
  {
    match step
    case Insert(n, uuid, e) => w.(db := w.db.(nodes := w.db.nodes[n := Node(uuid, e)]))
    case Edit(n, e) => w.(db := w.db.(nodes := w.db.nodes[n := w.db.nodes[n].(evidence := e)]))
    case Delete(n) =>
      w.(db := Unlinked(w.db, n).(nodes := w.db.nodes - {n}, rows := w.db.rows - {n}))
    case SourceTakes(t) => w.(db := w.db.(entities := w.db.entities[t := Source]))
    case SourceReleases(t) => w.(db := w.db.(entities := w.db.entities - {t}))
    case Enqueue(n, enabled, recipe, now) => w.(db := EnqueueNode(w.db, n, enabled, recipe, now).0)
    case Reenrich(n, evidence, taken, enabled, recipe, now) =>
      w.(db := EnqueueNode(Rewritten(w.db, n, evidence, taken), n, enabled, recipe, now).0)
    case ClaimBatch(recipe, limit, now) =>
      var (db, result) := ClaimWork(w.db, recipe, limit, now);
      World(db, w.issued + (if result.Committed? then Elements(result.value) else {}), w.log)
    case Apply(work, response, recipe, now) =>
      var (db, result) := ApplyResult(w.db, work, response, recipe, now);
      World(db, w.issued,
            if result == Committed(true) then w.log + [Publication(work, response.nouls)] else w.log)
    case Fail(work, error, transient, retryAfterMs, consumeAttempt, now) =>
      w.(db := FailWork(w.db, work, error, transient, retryAfterMs, consumeAttempt, now))
    case Retry(requeued, _, _, now) => w.(db := WithReset(w.db, requeued, now))
  }

  const INITIAL := World(Db(map[], map[], map[], {}, 0), {}, [])

  ghost predicate Run(from: World, steps: seq<Step>, to: World)
    decreases |steps|
  {
    if steps == [] then from == to
    else Enabled(from, steps[0]) && Run(Next(from, steps[0]), steps[1..], to)
  }

  ghost predicate Reachable(w: World) {
    exists steps :: Run(INITIAL, steps, w)
  }

  // ---------------------------------------------------------------- invariants

  /** A published row holds what the classifier's answer selects. */
  predicate WellPublished(row: Row) {
    && row.appliedInput == Some(row.desiredInput)
    && row.appliedRecipe == Some(row.recipe)
    && row.desiredInput.Of?
    && ValidNouls(row.probabilities, row.recipe)
    && row.accepted == Accepted(row.recipe, row.probabilities)
    && row.returnedModel.Some?
    && StripJev(row.returnedModel.value) == StripJev(row.recipe.modelId)
  }

  predicate RowShape(row: Row) {
    && row.requestedRevision >= 1
    && (row.leaseToken.Some? <==> row.status == Processing)
    && (row.leaseExpiresAt.Some? <==> row.status == Processing)
    && (row.appliedRevision == if row.status == Ready then Some(row.requestedRevision) else None)
    && (row.status == Ready ==> WellPublished(row))
    && (row.desiredInput == Unparsable ==> row.status == Skipped)
    && (row.status == Processing ==> row.attempts >= 1)
    && row.attempts <= MAX_ATTEMPTS
  }

  /** The labels linked to a node are the accepted ones while it is ready, and none otherwise. */
  predicate LinksMatch(db: Db, n: NodeId) {
    Owned(db, n) == if n in db.rows && db.rows[n].status == Ready then Elements(db.rows[n].accepted) else {}
  }

  predicate RowOk(db: Db, n: NodeId) {
    && LinksMatch(db, n)
    && (n in db.rows ==>
          && RowShape(db.rows[n])
          && (db.rows[n].leaseToken.Some? ==> db.rows[n].leaseToken.value < db.nextToken))
  }

  ghost predicate DbOk(db: Db) {
    forall n: NodeId :: RowOk(db, n)
  }

  /** While a row is leased under a claim's token, the row is the one the claim describes. */
  predicate LeaseOk(db: Db, c: Claim) {
    && c.token < db.nextToken
    && 1 <= c.attempts <= MAX_ATTEMPTS
    && (forall n :: n in db.rows && db.rows[n].leaseToken == Some(c.token) ==>
          && n == c.nodeId
          && db.rows[n].nodeUuid == c.nodeUuid
          && db.rows[n].requestedRevision == c.revision
          && db.rows[n].desiredInput == Of(c.evidence)
          && db.rows[n].recipe == c.recipe
          && db.rows[n].attempts == c.attempts)
  }

  /** No row is leased under this token, and none ever will be again. */
  predicate Dead(db: Db, t: Token) {
    && t < db.nextToken
    && forall n :: n in db.rows ==> db.rows[n].leaseToken != Some(t)
  }

  predicate Backed(row: Row, n: NodeId, p: Publication) {
    && p.claim.nodeId == n
    && p.claim.nodeUuid == row.nodeUuid
    && p.claim.revision == row.requestedRevision
    && row.desiredInput == Of(p.claim.evidence)
    && row.recipe == p.claim.recipe
    && row.probabilities == p.nouls
  }

  ghost predicate Ok(w: World) {
    && DbOk(w.db)
    && (forall c :: c in w.issued ==> LeaseOk(w.db, c))
    && (forall c, d :: c in w.issued && d in w.issued && c.token == d.token ==> c == d)
    && (forall i :: 0 <= i < |w.log| ==> w.log[i].claim in w.issued && Dead(w.db, w.log[i].claim.token))
    && (forall i, j :: 0 <= i < j < |w.log| ==> w.log[i].claim.token != w.log[j].claim.token)
    && (forall n :: n in w.db.rows && w.db.rows[n].status == Ready ==>
          exists i :: 0 <= i < |w.log| && Backed(w.db.rows[n], n, w.log[i]))
  }

  // ---------------------------------------------------------------- what one transaction keeps

  /** Leases are kept as they are, dropped, or granted under tokens never seen before. */
  predicate KeepsLeases(db: Db, after: Db) {
    && db.nextToken <= after.nextToken
    && forall n :: n in after.rows && after.rows[n].leaseToken.Some? ==>
         || after.rows[n].leaseToken.value >= db.nextToken
         || (n in db.rows && SameWork(db.rows[n], after.rows[n]) && db.rows[n].attempts == after.rows[n].attempts
             && db.rows[n].leaseToken == after.rows[n].leaseToken)
  }

  predicate SameWork(row: Row, after: Row) {
    && row.nodeUuid == after.nodeUuid
    && row.requestedRevision == after.requestedRevision
    && row.desiredInput == after.desiredInput
    && row.recipe == after.recipe
  }

  /** No row becomes ready, and a row that stays ready keeps its result. */
  predicate KeepsReady(db: Db, after: Db) {
    forall n :: n in after.rows && after.rows[n].status == Ready ==>
      && n in db.rows && db.rows[n].status == Ready
      && SameWork(db.rows[n], after.rows[n])
      && db.rows[n].probabilities == after.rows[n].probabilities
  }

  ghost predicate Keeps(db: Db, after: Db) {
    DbOk(after) && KeepsLeases(db, after) && KeepsReady(db, after)
  }

  lemma KeepsTransitive(a: Db, b: Db, c: Db)
    requires KeepsLeases(a, b) && KeepsLeases(b, c) && KeepsReady(a, b) && KeepsReady(b, c)
    ensures KeepsLeases(a, c) && KeepsReady(a, c)
  {
  }

  lemma KeepsClaims(db: Db, after: Db, c: Claim)
    requires KeepsLeases(db, after) && LeaseOk(db, c)
    ensures LeaseOk(after, c)
  {
  }

  /** A lease that is lost stays lost. */
  lemma KeepsDead(db: Db, after: Db, t: Token)
    requires KeepsLeases(db, after) && Dead(db, t)
    ensures Dead(after, t)
  {
  }

  /** A transaction that leaves a node's row and labels alone leaves them in order. */
  lemma FrameRow(db: Db, after: Db, m: NodeId)
    requires RowOk(db, m) && db.nextToken <= after.nextToken
    requires m in db.rows <==> m in after.rows
    requires m in db.rows ==> after.rows[m] == db.rows[m]
    requires Owned(after, m) == Owned(db, m)
    ensures RowOk(after, m)
  {
  }

  ghost predicate OthersOk(db: Db, n: NodeId) {
    forall m: NodeId :: m != n ==> RowOk(db, m)
  }

  /** Asking again puts a node's row and labels in order, whatever they were. */
  lemma RequeuedKeeps(db: Db, n: NodeId, uuid: string, input: Fingerprint, recipe: Recipe,
                      enabled: bool, error: Option<string>, now: int)
    requires OthersOk(db, n) && (input == Unparsable ==> error.Some?)
    ensures Keeps(db, Requeued(db, n, uuid, input, recipe, enabled, error, now))
  {
    var after := Requeued(db, n, uuid, input, recipe, enabled, error, now);
    forall m: NodeId ensures RowOk(after, m) {
      assert m != n ==> RowOk(db, m);
      assert Owned(after, m) == if m == n then {} else Owned(db, m);
    }
  }

  /** A ready row whose labels were wiped gets them back. */
  lemma RestoredKeeps(db: Db, n: NodeId)
    requires OthersOk(db, n) && n in db.rows && RowShape(db.rows[n]) && db.rows[n].status == Ready
    ensures Keeps(db, WithMemberships(db, n, db.rows[n].accepted))
  {
    var after := WithMemberships(db, n, db.rows[n].accepted);
    MembershipsKeepRows(db, n, db.rows[n].accepted);
    hide WithMemberships;
    hide RowShape;
    assert db.rows == db.rows[n := db.rows[n]];
    assert db.rows[n].leaseToken.None? by { assert RowShape(db.rows[n]); ReadyHasNoLease(db.rows[n]); }
    MembershipsKeep(db, after, n, db.rows[n].accepted);
  }

  lemma ReadyHasNoLease(row: Row)
    requires RowShape(row) && row.status == Ready
    ensures row.leaseToken.None?
  {
  }

  lemma EnqueueKeeps(db: Db, n: NodeId, enabled: bool, recipe: Recipe, now: int)
    requires DbOk(db)
    ensures Keeps(db, EnqueueNode(db, n, enabled, recipe, now).0)
  {
    assert RowOk(db, n);
    EnqueueRestores(db, n, enabled, recipe, now);
    hide EnqueueNode;
    hide RowOk;
  }

  /** One call puts a node in order if the others are, its row is, and its labels are too unless the row is ready. */
  lemma EnqueueRestores(db: Db, n: NodeId, enabled: bool, recipe: Recipe, now: int)
    requires OthersOk(db, n)
    requires n in db.rows ==> RowShape(db.rows[n])
    requires if n in db.rows && db.rows[n].status == Ready then n in db.nodes || RowOk(db, n) else RowOk(db, n)
    ensures Keeps(db, EnqueueNode(db, n, enabled, recipe, now).0)
  {
    hide RowShape;
    hide RowOk;
    hide WithMemberships;
    hide Requeued;
    hide TopicsFree;
    if RowOk(db, n) { UntouchedKeeps(db, n); }
    if n in db.rows && db.rows[n].status == Ready { RestoredKeeps(db, n); }
    match ReadNode(db, n)
    case Absent =>
    case Unreadable(uuid) =>
      RequeuedKeeps(db, n, uuid, Unparsable, recipe, enabled, Some(INVALID_CONTENT), now);
    case Evidence(uuid, e) =>
      RequeuedKeeps(db, n, uuid, Of(e), recipe, enabled, None, now);
      RequeuedKeeps(db, n, uuid, Of(e), recipe, enabled, Some(TOPIC_TAKEN), now);
  }

  lemma UntouchedKeeps(db: Db, n: NodeId)
    requires OthersOk(db, n) && RowOk(db, n)
    ensures Keeps(db, db)
  {
  }

  /** Wiping a node's links and enqueueing it in one transaction leaves it in order. */
  lemma ReenrichKeeps(db: Db, n: NodeId, evidence: Option<string>, taken: set<Topic>, enabled: bool,
                      recipe: Recipe, now: int)
    requires DbOk(db) && n in db.nodes
    ensures Keeps(db, EnqueueNode(Rewritten(db, n, evidence, taken), n, enabled, recipe, now).0)
  {
    var mid := Rewritten(db, n, evidence, taken);
    forall m: NodeId ensures Owned(mid, m) == if m == n then {} else Owned(db, m) {
    }
    assert RowOk(db, n);
    forall m: NodeId | m != n ensures RowOk(mid, m) {
      FrameRow(db, mid, m);
    }
    hide Rewritten;
    EnqueueRestores(mid, n, enabled, recipe, now);
    hide EnqueueNode;
  }

  lemma ExhaustedKeeps(db: Db, now: int)
    requires DbOk(db)
    ensures Keeps(db, WithExhaustedFailed(db, now))
  {
    var after := WithExhaustedFailed(db, now);
    forall m: NodeId ensures RowOk(after, m) {
      assert RowOk(db, m) && Owned(after, m) == Owned(db, m);
    }
  }

  /** Enqueueing a row that is still waiting either leaves it alone or moves it to a new revision. */
  lemma EnqueueWaiting(db: Db, n: NodeId, recipe: Recipe, now: int)
    requires n in db.rows && db.rows[n].status in {Pending, Processing} && db.rows[n].recipe == recipe
    ensures var after := EnqueueNode(db, n, true, recipe, now).0;
            after == db || (n in after.rows && after.rows[n].requestedRevision == db.rows[n].requestedRevision + 1)
  {
  }

  /** Only row `n` changes, its node's labels do not, and the new row is in order. */
  lemma RowChangeKeeps(db: Db, after: Db, n: NodeId)
    requires DbOk(db) && db.nextToken <= after.nextToken
    requires after.links == db.links && n in after.rows && after.rows == db.rows[n := after.rows[n]]
    requires RowShape(after.rows[n])
    requires Owned(db, n) == if after.rows[n].status == Ready then Elements(after.rows[n].accepted) else {}
    requires after.rows[n].leaseToken.Some? ==> after.rows[n].leaseToken.value < after.nextToken
    ensures DbOk(after)
  {
    forall m: NodeId ensures RowOk(after, m) {
      assert RowOk(db, m) && Owned(after, m) == Owned(db, m);
      if m != n {
        FrameRow(db, after, m);
      }
    }
  }

  lemma LeaseKeeps(db: Db, after: Db, n: NodeId, c: Claim, now: int)
    requires DbOk(db) && n in db.rows && db.rows[n].status in {Pending, Processing}
    requires db.rows[n].attempts < MAX_ATTEMPTS
    requires after == db.(nextToken := db.nextToken + 1,
                          rows := db.rows[n := Leased(db.rows[n], db.nextToken, now)])
    requires Of(c.evidence) == db.rows[n].desiredInput
    requires c == Claim(n, db.rows[n].nodeUuid, db.rows[n].requestedRevision, c.evidence, db.rows[n].recipe,
                        db.nextToken, db.rows[n].attempts + 1)
    ensures Keeps(db, after) && LeaseOk(after, c)
  {
    assert RowOk(db, n);
    RowChangeKeeps(db, after, n);
    forall m | m in after.rows && m != n ensures after.rows[m].leaseToken != Some(c.token) {
      assert RowOk(db, m);
    }
  }

  lemma SpentKeeps(db: Db)
    requires DbOk(db)
    ensures Keeps(db, db.(nextToken := db.nextToken + 1))
  {
    var after := db.(nextToken := db.nextToken + 1);
    forall m: NodeId ensures RowOk(after, m) {
      assert Owned(after, m) == Owned(db, m);
      FrameRow(db, after, m);
    }
  }

  lemma NotClaimedKeeps(db: Db, mid: Db, after: Db)
    requires Keeps(db, mid) && after in {mid, mid.(nextToken := mid.nextToken + 1)}
    ensures Keeps(db, after)
  {
    hide DbOk;
    SpentKeeps(mid);
    if after != mid {
      KeepsTransitive(db, mid, after);
    }
    hide KeepsLeases;
    hide KeepsReady;
  }

  lemma ClaimOneKeeps(db: Db, n: NodeId, row: Row, recipe: Recipe, now: int)
    requires DbOk(db)
    requires n in db.rows && db.rows[n] == row && Claimable(row, recipe, now)
    ensures var (after, claimed) := ClaimOne(db, n, row, recipe, now);
            && Keeps(db, after)
            && (claimed.Some? ==>
                  && db.nextToken <= claimed.value.token
                  && LeaseOk(after, claimed.value))
            && (forall m :: m != n && m in db.rows ==> m in after.rows && after.rows[m] == db.rows[m])
  {
    EnqueueKeeps(db, n, true, recipe, now);
    EnqueueWaiting(db, n, recipe, now);
    EnqueueChangesOneRow(db, n, true, recipe, now);
    hide EnqueueNode;
    hide DbOk;
    hide KeepsLeases;
    hide KeepsReady;
    hide LeaseOk;
    var mid := EnqueueNode(db, n, true, recipe, now).0;
    var (after, claimed) := ClaimOne(db, n, row, recipe, now);
    if claimed.Some? {
      LeaseKeeps(db, after, n, claimed.value, now);
    } else {
      NotClaimedKeeps(db, mid, after);
    }
  }

  predicate Ascending(claims: seq<Claim>) {
    forall i, j :: 0 <= i < j < |claims| ==> claims[i].token < claims[j].token
  }

  ghost predicate FreshClaims(db: Db, after: Db, claims: seq<Claim>) {
    Ascending(claims) && forall c :: c in claims ==> db.nextToken <= c.token && LeaseOk(after, c)
  }

  lemma ClaimsKept(db: Db, before: Db, after: Db, claims: seq<Claim>, claimed: Option<Claim>)
    requires Keeps(db, before) && Keeps(before, after) && FreshClaims(db, before, claims)
    requires claimed.Some? ==> before.nextToken <= claimed.value.token && LeaseOk(after, claimed.value)
    ensures Keeps(db, after)
    ensures FreshClaims(db, after, if claimed.Some? then claims + [claimed.value] else claims)
  {
    hide DbOk;
    KeepsTransitive(db, before, after);
    forall c | c in claims ensures LeaseOk(after, c) && c.token < before.nextToken { KeepsClaims(before, after, c); }
    assert db.nextToken <= before.nextToken;
    hide KeepsLeases;
    hide KeepsReady;
    hide LeaseOk;
  }

  lemma {:induction false} ClaimEachKeeps(db: Db, found: map<NodeId, Row>, picked: seq<NodeId>, recipe: Recipe,
                                          now: int)
    requires DbOk(db) && Distinct(picked)
    requires forall n :: n in picked ==>
               n in found && n in db.rows && db.rows[n] == found[n] && Claimable(found[n], recipe, now)
    ensures var (after, claims) := ClaimEach(db, found, picked, recipe, now);
            && Keeps(db, after)
            && FreshClaims(db, after, claims)
            && (forall m :: m in db.rows && m !in picked ==> m in after.rows && after.rows[m] == db.rows[m])
    decreases |picked|
  {
    hide ClaimOne;
    hide DbOk;
    hide Claimable;
    if picked != [] {
      var last := |picked| - 1;
      var n := picked[last];
      assert picked == picked[..last] + [n] && n !in picked[..last];
      ClaimEachKeeps(db, found, picked[..last], recipe, now);
      var (before, claims) := ClaimEach(db, found, picked[..last], recipe, now);
      var (after, claimed) := ClaimOne(before, n, found[n], recipe, now);
      hide KeepsLeases;
      hide KeepsReady;
      hide FreshClaims;
      ClaimOneKeeps(before, n, found[n], recipe, now);
      ClaimsKept(db, before, after, claims, claimed);
    }
  }

  lemma ClaimKeeps(db: Db, recipe: Recipe, limit: int, now: int)
    requires DbOk(db)
    ensures var (after, result) := ClaimWork(db, recipe, limit, now);
            && Keeps(db, after)
            && (result.Committed? ==>
                  && Ascending(result.value)
                  && forall c :: c in result.value ==> db.nextToken <= c.token && LeaseOk(after, c))
  {
    if 1 <= limit <= 100 {
      ExhaustedKeeps(db, now);
      var ready := WithExhaustedFailed(db, now);
      var picked := Picked(ready, recipe, limit, now);
      ClaimEachKeeps(ready, ready.rows, picked, recipe, now);
      KeepsTransitive(db, ready, ClaimEach(ready, ready.rows, picked, recipe, now).0);
    }
  }

  lemma PublishedShape(row: Row, p: Probabilities, model: string, now: int)
    requires RowShape(row) && row.desiredInput.Of? && ValidNouls(p, row.recipe)
    requires StripJev(model) == StripJev(row.recipe.modelId)
    ensures RowShape(PublishedRow(row, Accepted(row.recipe, p), p, model, now))
  {
  }

  lemma MembershipsKeep(db: Db, after: Db, n: NodeId, topics: seq<Topic>)
    requires OthersOk(db, n) && n in db.rows
    requires after == WithMemberships(db, n, topics).(rows := after.rows)
    requires n in after.rows && after.rows == db.rows[n := after.rows[n]]
    requires RowShape(after.rows[n]) && after.rows[n].leaseToken.None?
    requires after.rows[n].status == Ready && after.rows[n].accepted == topics
    ensures DbOk(after)
  {
    forall m: NodeId ensures RowOk(after, m) {
      OwnedAfter(db, n, topics, m);
      assert Owned(after, m) == Owned(WithMemberships(db, n, topics), m);
      if m != n {
        FrameRow(db, after, m);
      }
    }
  }

  lemma ApplyKeeps(db: Db, work: Claim, response: Response, recipe: Recipe, now: int)
    requires DbOk(db) && LeaseOk(db, work)
    ensures var (after, result) := ApplyResult(db, work, response, recipe, now);
            && DbOk(after) && KeepsLeases(db, after)
            && (result != Committed(true) ==> after == db)
            && (result == Committed(true) ==>
                  && response.Answers?
                  && !Dead(db, work.token) && Dead(after, work.token)
                  && work.nodeId in after.rows
                  && Backed(after.rows[work.nodeId], work.nodeId, Publication(work, response.nouls))
                  && forall n :: n in after.rows && n != work.nodeId ==> n in db.rows && after.rows[n] == db.rows[n])
  {
    hide Accepted;
    hide WithMemberships;
    hide StripJev;
    hide RowOk;
    hide RowShape;
    hide ValidNouls;
    var (after, result) := ApplyResult(db, work, response, recipe, now);
    if result == Committed(true) {
      MembershipsKeepRows(db, work.nodeId, Accepted(recipe, response.nouls));
      ApplyKeepsOk(db, work, response, recipe, now);
    }
    hide DbOk;
  }

  lemma ApplyKeepsOk(db: Db, work: Claim, response: Response, recipe: Recipe, now: int)
    requires DbOk(db) && ApplyResult(db, work, response, recipe, now).1 == Committed(true)
    ensures DbOk(ApplyResult(db, work, response, recipe, now).0)
  {
    hide Accepted;
    hide WithMemberships;
    hide StripJev;
    var n, after := work.nodeId, ApplyResult(db, work, response, recipe, now).0;
    var topics := Accepted(recipe, response.nouls);
    MembershipsKeepRows(db, n, topics);
    assert RowOk(db, n);
    PublishedShape(db.rows[n], response.nouls, response.model, now);
    hide RowOk;
    hide RowShape;
    hide DbOk;
    assert OthersOk(db, n) by { DbIsOk(db, n); }
    MembershipsKeep(db, after, n, topics);
  }

  lemma DbIsOk(db: Db, n: NodeId)
    requires DbOk(db)
    ensures OthersOk(db, n)
  {
  }

  lemma FailKeeps(db: Db, work: Claim, error: string, transient: bool, retryAfterMs: int,
                  consumeAttempt: bool, now: int)
    requires DbOk(db) && LeaseOk(db, work)
    ensures Keeps(db, FailWork(db, work, error, transient, retryAfterMs, consumeAttempt, now))
  {
    hide Owned;
    hide Truncated;
    hide Pow2;
    hide WellPublished;
    var after := FailWork(db, work, error, transient, retryAfterMs, consumeAttempt, now);
    assert RowOk(db, work.nodeId);
    if after != db {
      RowChangeKeeps(db, after, work.nodeId);
    }
  }

  lemma RetryKeeps(db: Db, requeued: set<NodeId>, errors: set<string>, recipe: Recipe, now: int)
    requires DbOk(db)
    requires forall n :: n in requeued ==> Retriable(db, n, errors, recipe)
    ensures Keeps(db, WithReset(db, requeued, now))
  {
    var after := WithReset(db, requeued, now);
    forall m: NodeId ensures RowOk(after, m) {
      assert RowOk(db, m) && Owned(after, m) == Owned(db, m);
    }
  }

  lemma EnvironmentKeeps(w: World, step: Step)
    requires DbOk(w.db) && Enabled(w, step)
    requires step.Insert? || step.Edit? || step.Delete? || step.SourceTakes? || step.SourceReleases?
    ensures Keeps(w.db, Next(w, step).db)
  {
    hide RowShape;
    var db, after := w.db, Next(w, step).db;
    forall m: NodeId ensures RowOk(after, m) {
      assert RowOk(db, m);
      assert Owned(after, m) == if step.Delete? && m == step.n then {} else Owned(db, m);
    }
  }

  // ---------------------------------------------------------------- every step, every run

  lemma BackingKept(db: Db, after: Db, log: seq<Publication>)
    requires KeepsReady(db, after)
    requires forall n :: n in db.rows && db.rows[n].status == Ready ==>
               exists i :: 0 <= i < |log| && Backed(db.rows[n], n, log[i])
    ensures forall n :: n in after.rows && after.rows[n].status == Ready ==>
              exists i :: 0 <= i < |log| && Backed(after.rows[n], n, log[i])
  {
    forall n | n in after.rows && after.rows[n].status == Ready
      ensures exists i :: 0 <= i < |log| && Backed(after.rows[n], n, log[i])
    {
      var i :| 0 <= i < |log| && Backed(db.rows[n], n, log[i]);
      assert Backed(after.rows[n], n, log[i]);
    }
  }

  lemma QueueStepKeeps(w: World, step: Step)
    requires Ok(w) && Enabled(w, step) && !step.Apply? && !step.ClaimBatch?
    ensures Keeps(w.db, Next(w, step).db) && Next(w, step) == w.(db := Next(w, step).db)
  {
    match step
    case Enqueue(n, enabled, recipe, now) => EnqueueKeeps(w.db, n, enabled, recipe, now);
    case Reenrich(n, evidence, taken, enabled, recipe, now) =>
      ReenrichKeeps(w.db, n, evidence, taken, enabled, recipe, now);
    case Fail(work, error, transient, retryAfterMs, consumeAttempt, now) =>
      FailKeeps(w.db, work, error, transient, retryAfterMs, consumeAttempt, now);
    case Retry(requeued, errors, recipe, now) => RetryKeeps(w.db, requeued, errors, recipe, now);
    case _ => EnvironmentKeeps(w, step);
  }

  /** Keeping leases keeps every promise about the claims and publications made so far. */
  lemma HistoryKept(w: World, after: Db)
    requires Ok(w) && KeepsLeases(w.db, after)
    ensures forall c :: c in w.issued ==> LeaseOk(after, c)
    ensures forall i :: 0 <= i < |w.log| ==> Dead(after, w.log[i].claim.token)
  {
    forall c | c in w.issued ensures LeaseOk(after, c) { KeepsClaims(w.db, after, c); }
    forall i | 0 <= i < |w.log| ensures Dead(after, w.log[i].claim.token) {
      KeepsDead(w.db, after, w.log[i].claim.token);
    }
  }

  lemma ClaimStepOk(w: World, recipe: Recipe, limit: int, now: int)
    requires Ok(w)
    ensures var next := Next(w, ClaimBatch(recipe, limit, now));
            Ok(next) && KeepsLeases(w.db, next.db)
  {
    hide ClaimWork;
    hide DbOk;
    var next := Next(w, ClaimBatch(recipe, limit, now));
    ClaimKeeps(w.db, recipe, limit, now);
    var (after, result) := ClaimWork(w.db, recipe, limit, now);
    HistoryKept(w, after);
    BackingKept(w.db, after, w.log);
    forall c, d | c in next.issued && d in next.issued && c.token == d.token ensures c == d {
      if c !in w.issued && d !in w.issued {
        var i :| 0 <= i < |result.value| && result.value[i] == c;
        var j :| 0 <= j < |result.value| && result.value[j] == d;
        assert i == j;
      }
    }
  }

  lemma PublicationBacks(w: World, after: Db, p: Publication)
    requires Ok(w) && p.claim.nodeId in after.rows
    requires Backed(after.rows[p.claim.nodeId], p.claim.nodeId, p)
    requires forall n :: n in after.rows && n != p.claim.nodeId ==> n in w.db.rows && after.rows[n] == w.db.rows[n]
    ensures forall n :: n in after.rows && after.rows[n].status == Ready ==>
              exists i :: 0 <= i < |w.log + [p]| && Backed(after.rows[n], n, (w.log + [p])[i])
  {
    var log := w.log + [p];
    forall n | n in after.rows && after.rows[n].status == Ready
      ensures exists i :: 0 <= i < |log| && Backed(after.rows[n], n, log[i])
    {
      if n == p.claim.nodeId {
        assert log[|w.log|] == p;
      } else {
        var i :| 0 <= i < |w.log| && Backed(w.db.rows[n], n, w.log[i]);
        assert log[i] == w.log[i];
      }
    }
  }

  lemma ApplyStepOk(w: World, work: Claim, response: Response, recipe: Recipe, now: int)
    requires Ok(w) && work in w.issued
    ensures var next := Next(w, Apply(work, response, recipe, now));
            Ok(next) && KeepsLeases(w.db, next.db)
  {
    hide ApplyResult;
    hide Dead;
    hide LeaseOk;
    hide Backed;
    hide DbOk;
    hide KeepsLeases;
    ApplyKeeps(w.db, work, response, recipe, now);
    var (after, result) := ApplyResult(w.db, work, response, recipe, now);
    if result == Committed(true) {
      HistoryKept(w, after);
      var p := Publication(work, response.nouls);
      PublicationBacks(w, after, p);
      assert forall i :: 0 <= i < |w.log| ==> w.log[i].claim.token != work.token;
    }
  }

  lemma QueueStepOk(w: World, step: Step)
    requires Ok(w) && Enabled(w, step) && !step.Apply? && !step.ClaimBatch?
    ensures Ok(Next(w, step)) && KeepsLeases(w.db, Next(w, step).db)
    ensures w.issued <= Next(w, step).issued
  {
    QueueStepKeeps(w, step);
    hide Next;
    hide Enabled;
    hide DbOk;
    hide LeaseOk;
    hide Dead;
    hide Backed;
    var after := Next(w, step).db;
    HistoryKept(w, after);
    BackingKept(w.db, after, w.log);
    hide KeepsLeases;
    hide KeepsReady;
  }

  lemma StepOk(w: World, step: Step)
    requires Ok(w) && Enabled(w, step)
    ensures Ok(Next(w, step)) && KeepsLeases(w.db, Next(w, step).db)
    ensures w.issued <= Next(w, step).issued
  {
    hide Ok;
    hide KeepsLeases;
    match step
    case ClaimBatch(recipe, limit, now) => ClaimStepOk(w, recipe, limit, now);
    case Apply(work, response, recipe, now) => ApplyStepOk(w, work, response, recipe, now);
    case _ => QueueStepOk(w, step);
  }

  lemma {:induction false} RunOk(from: World, steps: seq<Step>, to: World)
    requires Ok(from) && Run(from, steps, to)
    ensures Ok(to) && from.issued <= to.issued
    ensures forall t :: Dead(from.db, t) ==> Dead(to.db, t)
    decreases |steps|
  {
    if steps != [] {
      var mid := Next(from, steps[0]);
      StepOk(from, steps[0]);
      RunOk(mid, steps[1..], to);
      forall t | Dead(from.db, t) ensures Dead(to.db, t) { KeepsDead(from.db, mid.db, t); }
    }
  }

  /** Main invariant: whatever the workers, writers and operators did, every row is in order. */
  lemma EveryReachableRowIsOk(w: World)
    requires Reachable(w)
    ensures Ok(w)
  {
    var steps :| Run(INITIAL, steps, w);
    forall n: NodeId ensures RowOk(INITIAL.db, n) {
      assert Owned(INITIAL.db, n) == {};
    }
    RunOk(INITIAL, steps, w);
  }

  // ---------------------------------------------------------------- main theorems

  /** A claim is settled by its lease: once no row is leased under its token, no later moment of
      any run lets it publish or fail anything. */
  lemma LostLeaseStaysLost(w: World, c: Claim, steps: seq<Step>, later: World)
    requires Reachable(w) && c in w.issued && Dead(w.db, c.token) && Run(w, steps, later)
    ensures Dead(later.db, c.token)
    ensures forall response, recipe, now ::
              ApplyResult(later.db, c, response, recipe, now).0 == later.db
              && ApplyResult(later.db, c, response, recipe, now).1 != Committed(true)
    ensures forall error, transient, retryAfterMs, consume, now :: c.attempts >= 1 ==>
              FailWork(later.db, c, error, transient, retryAfterMs, consume, now) == later.db
  {
    EveryReachableRowIsOk(w);
    RunOk(w, steps, later);
  }

  /** Over any run each claim publishes at most once, and never after it failed or was overtaken. */
  lemma EachClaimPublishesOnce(w: World)
    requires Reachable(w)
    ensures forall i, j :: 0 <= i < j < |w.log| ==> w.log[i].claim != w.log[j].claim
    ensures forall i :: 0 <= i < |w.log| ==> w.log[i].claim in w.issued && Dead(w.db, w.log[i].claim.token)
  {
    EveryReachableRowIsOk(w);
  }

  /** Taking over a row under a new lease ends every older claim on it. */
  lemma OvertakenClaimIsDead(w: World, c: Claim, d: Claim)
    requires Reachable(w) && c in w.issued && d in w.issued && c != d && c.nodeId == d.nodeId
    requires d.nodeId in w.db.rows && w.db.rows[d.nodeId].leaseToken == Some(d.token)
    ensures Dead(w.db, c.token)
  {
    EveryReachableRowIsOk(w);
    assert LeaseOk(w.db, c) && LeaseOk(w.db, d);
  }

  lemma EnqueueChangesOneRow(db: Db, n: NodeId, enabled: bool, recipe: Recipe, now: int)
    ensures var after := EnqueueNode(db, n, enabled, recipe, now).0;
            && after.nextToken == db.nextToken
            && (after.rows != db.rows ==>
                  n in after.rows && after.rows[n].leaseToken.None? && after.rows == db.rows[n := after.rows[n]])
  {
    hide WithMemberships;
    hide IsCurrent;
    MembershipsKeepRows(db, n, if n in db.rows then db.rows[n].accepted else []);
  }

  lemma MembershipsKeepRows(db: Db, n: NodeId, topics: seq<Topic>)
    ensures var after := WithMemberships(db, n, topics);
            after.rows == db.rows && after.nodes == db.nodes && after.nextToken == db.nextToken
  {
  }

  /** So does every enqueue that changes the row: a moved revision, input, recipe or switch. */
  lemma RequeuedClaimIsDead(w: World, c: Claim, enabled: bool, recipe: Recipe, now: int)
    requires Reachable(w) && c in w.issued
    ensures var after := EnqueueNode(w.db, c.nodeId, enabled, recipe, now).0;
            after.rows != w.db.rows ==> Dead(after, c.token)
  {
    EveryReachableRowIsOk(w);
    hide EnqueueNode;
    assert LeaseOk(w.db, c);
    EnqueueChangesOneRow(w.db, c.nodeId, enabled, recipe, now);
  }

  /** Failing a claim ends it. If it was dead already nothing changes; otherwise its row keeps the work it asks for,
      and waits again exactly if the failure is transient and an attempt is left or refunded. */
  lemma FailedClaimEnds(w: World, c: Claim, error: string, transient: bool, retryAfterMs: int, consumeAttempt: bool,
                        now: int)
    requires Reachable(w) && c in w.issued && c.attempts >= 1
    ensures var after := FailWork(w.db, c, error, transient, retryAfterMs, consumeAttempt, now);
            && Dead(after, c.token)
            && (Dead(w.db, c.token) ==> after == w.db)
            && (!Dead(w.db, c.token) ==>
                  && c.nodeId in w.db.rows && c.nodeId in after.rows
                  && var row, failed := w.db.rows[c.nodeId], after.rows[c.nodeId];
                  && after == w.db.(rows := w.db.rows[c.nodeId := failed])
                  && SameWork(row, failed)
                  && failed.attempts == row.attempts - (if consumeAttempt then 0 else 1)
                  && failed.status == (if transient && (row.attempts < MAX_ATTEMPTS || !consumeAttempt) then Pending
                                       else Failed)
                  && failed.nextAttemptAt >= now + retryAfterMs
                  && failed.nextAttemptAt >= now + 1000 * Pow2(row.attempts - 1)
                  && forall later :: Claimable(failed, row.recipe, later) <==>
                       failed.status == Pending && failed.nextAttemptAt <= later)
  {
    EveryReachableRowIsOk(w);
    hide Reachable;
    assert LeaseOk(w.db, c);
    hide Pow2;
    hide Truncated;
    hide DbOk;
    hide Backed;
  }

  predicate LiveLease(db: Db, c: Claim, now: int) {
    && c.nodeId in db.rows
    && db.rows[c.nodeId].leaseToken == Some(c.token)
    && db.rows[c.nodeId].leaseExpiresAt.Some? && db.rows[c.nodeId].leaseExpiresAt.value > now
  }

  /** A worker's claim publishes exactly when its lease is live and unexpired, the node still reads
      as it did when it was claimed, and no topic name belongs to someone else. */
  lemma PublishesExactlyWhenCurrent(w: World, c: Claim, response: Response, now: int)
    requires Reachable(w) && c in w.issued
    ensures ApplyResult(w.db, c, response, c.recipe, now).1 == Committed(true) <==>
            && ValidResponse(response, c.recipe)
            && LiveLease(w.db, c, now)
            && ReadNode(w.db, c.nodeId) == Evidence(c.nodeUuid, c.evidence)
            && TopicsFree(w.db, Accepted(c.recipe, response.nouls))
  {
    EveryReachableRowIsOk(w);
    assert LeaseOk(w.db, c);
    assert RowOk(w.db, c.nodeId);
  }

  /** No label is ever shown that was not computed for exactly the node's present evidence under
      exactly the reader's recipe, and all the best ones of that answer are shown. */
  lemma ShownTopicsAreEarned(w: World, n: NodeId, recipe: Recipe)
    requires Reachable(w)
    requires CurrentTopics(w.db, n, recipe).Some?
    ensures exists i :: 0 <= i < |w.log|
              && w.log[i].claim.nodeId == n
              && ReadNode(w.db, n) == Evidence(w.log[i].claim.nodeUuid, w.log[i].claim.evidence)
              && w.log[i].claim.recipe == recipe
              && Shows(CurrentTopics(w.db, n, recipe).value, Accepted(recipe, w.log[i].nouls), w.log[i].nouls)
  {
    EveryReachableRowIsOk(w);
    assert RowOk(w.db, n);
    hide Reachable;
    hide Accepted;
    hide ValidNouls;
    ReadRowIsCurrent(w.db, n, recipe);
    hide CurrentTopics;
    hide DbOk;
    hide LeaseOk;
    hide Dead;
    var row := w.db.rows[n];
    var i :| 0 <= i < |w.log| && Backed(row, n, w.log[i]);
    assert WellPublished(row) && row.recipe == recipe;
    hide Shows;
  }

  /** What is shown is the stored answer of a row that is current for the node as it reads now. */
  lemma ReadRowIsCurrent(db: Db, n: NodeId, recipe: Recipe)
    requires CurrentTopics(db, n, recipe).Some?
    ensures n in db.rows && ReadNode(db, n).Evidence?
    ensures IsCurrent(db.rows[n], ReadNode(db, n).uuid, ReadNode(db, n).evidence, recipe)
    ensures Shows(CurrentTopics(db, n, recipe).value, db.rows[n].accepted, db.rows[n].probabilities)
  {
    hide ValidNouls;
    hide IsCurrent;
    hide Owned;
  }

  predicate Shows(shown: Probabilities, accepted: seq<Topic>, nouls: Probabilities) {
    && shown.Keys == Elements(accepted)
    && (forall t :: t in shown ==> t in nouls && shown[t] == nouls[t])
  }

  lemma ReaderAgrees(db: Db, n: NodeId, uuid: string, evidence: string, recipe: Recipe)
    requires RowOk(db, n) && n in db.rows && ReadNode(db, n) == Evidence(uuid, evidence)
    requires IsCurrent(db.rows[n], uuid, evidence, recipe)
    ensures var read := CurrentTopics(db, n, recipe);
            read.Some? && Shows(read.value, db.rows[n].accepted, db.rows[n].probabilities)
  {
    AcceptedIsTheBest(recipe, db.rows[n].probabilities);
  }

  /** The reader's own checks of stored data never hide a current result. */
  lemma CurrentRowsAreShown(w: World, n: NodeId, recipe: Recipe)
    requires Reachable(w) && n in w.db.rows
    requires ReadNode(w.db, n).Evidence?
    requires IsCurrent(w.db.rows[n], ReadNode(w.db, n).uuid, ReadNode(w.db, n).evidence, recipe)
    ensures CurrentTopics(w.db, n, recipe).Some?
  {
    EveryReachableRowIsOk(w);
    var read := ReadNode(w.db, n);
    ReaderAgrees(w.db, n, read.uuid, read.evidence, recipe);
  }

  lemma PublishedIsCurrent(db: Db, c: Claim, response: Response, now: int)
    requires LeaseOk(db, c) && ApplyResult(db, c, response, c.recipe, now).1 == Committed(true)
    ensures var after := ApplyResult(db, c, response, c.recipe, now).0;
            && response.Answers? && c.nodeId in after.rows
            && ReadNode(after, c.nodeId) == Evidence(c.nodeUuid, c.evidence)
            && IsCurrent(after.rows[c.nodeId], c.nodeUuid, c.evidence, c.recipe)
            && after.rows[c.nodeId].accepted == Accepted(c.recipe, response.nouls)
            && after.rows[c.nodeId].probabilities == response.nouls
  {
    MembershipsKeepRows(db, c.nodeId, Accepted(c.recipe, response.nouls));
    hide Accepted;
    hide WithMemberships;
    hide TopicsFree;
    hide StripJev;
  }

  /** What a publication stores is what a reader gets back. */
  lemma PublishedResultReadsBack(w: World, c: Claim, response: Response, now: int)
    requires Reachable(w) && c in w.issued
    requires ApplyResult(w.db, c, response, c.recipe, now).1 == Committed(true)
    ensures var after := ApplyResult(w.db, c, response, c.recipe, now).0;
            var read := CurrentTopics(after, c.nodeId, c.recipe);
            read.Some? && Shows(read.value, Accepted(c.recipe, response.nouls), response.nouls)
  {
    EveryReachableRowIsOk(w);
    assert DbOk(w.db) && LeaseOk(w.db, c);
    hide *;
    PublishedIsCurrent(w.db, c, response, now);
    ApplyKeeps(w.db, c, response, c.recipe, now);
    var after := ApplyResult(w.db, c, response, c.recipe, now).0;
    assert RowOk(after, c.nodeId) by { RowIsOk(after, c.nodeId); }
    ReaderAgrees(after, c.nodeId, c.nodeUuid, c.evidence, c.recipe);
  }

  lemma RowIsOk(db: Db, n: NodeId)
    requires DbOk(db)
    ensures RowOk(db, n)
  {
  }

  /** Re-enriching a node to the same evidence wipes its labels and gets them back in the same transaction, exactly
      if no source entity holds one of their names by then; otherwise nothing is shown. */
  lemma ReenrichedReadsTheSame(db: Db, n: NodeId, taken: set<Topic>, enabled: bool, recipe: Recipe, now: int)
    requires n in db.nodes && CurrentTopics(db, n, recipe).Some?
    ensures var mid := Rewritten(db, n, db.nodes[n].evidence, taken);
            var after := EnqueueNode(mid, n, enabled, recipe, now).0;
            CurrentTopics(after, n, recipe)
            == if TopicsFree(mid, db.rows[n].accepted) then CurrentTopics(db, n, recipe) else None
  {
    ReadRowIsCurrent(db, n, recipe);
    var mid := Rewritten(db, n, db.nodes[n].evidence, taken);
    var topics := db.rows[n].accepted;
    assert ReadNode(mid, n) == ReadNode(db, n);
    OwnedAfter(mid, n, topics, n);
    MembershipsKeepRows(mid, n, topics);
    CurrentIsWhatIsRead(db, WithMemberships(mid, n, topics), n, recipe);
    assert Owned(db, n) == Elements(topics);
    hide TopicsFree;
    hide WithMemberships;
    hide Owned;
    hide Rewritten;
    hide IsCurrent;
    if TopicsFree(mid, topics) {
      assert EnqueueNode(mid, n, enabled, recipe, now).0 == WithMemberships(mid, n, topics);
    } else {
      DisplacedReadsNothing(mid, n, enabled, recipe, now);
    }
    hide EnqueueNode;
    hide CurrentTopics;
  }

  lemma CurrentIsWhatIsRead(db: Db, after: Db, n: NodeId, recipe: Recipe)
    requires n in db.rows && n in after.rows && after.rows[n] == db.rows[n]
    requires ReadNode(after, n) == ReadNode(db, n) && Owned(after, n) == Owned(db, n)
    ensures CurrentTopics(after, n, recipe) == CurrentTopics(db, n, recipe)
  {
    hide Owned;
    hide IsCurrent;
    hide ReadNode;
  }

  lemma DisplacedReadsNothing(db: Db, n: NodeId, enabled: bool, recipe: Recipe, now: int)
    requires n in db.rows && ReadNode(db, n).Evidence? && !TopicsFree(db, db.rows[n].accepted)
    requires IsCurrent(db.rows[n], ReadNode(db, n).uuid, ReadNode(db, n).evidence, recipe)
    ensures CurrentTopics(EnqueueNode(db, n, enabled, recipe, now).0, n, recipe).None?
  {
    hide TopicsFree;
    hide Owned;
    hide ValidNouls;
    assert EnqueueNode(db, n, enabled, recipe, now).0.rows[n].status != Ready;
  }

  // ---------------------------------------------------------------- merging two nodes

  /** The merge migration: the labels of the loser go to the survivor, and the loser goes with its row. */
  function Merged(db: Db, loser: NodeId, survivor: NodeId): Db {
    db.(nodes := db.nodes - {loser}, rows := db.rows - {loser},
        links := Unlinked(db, loser).links + (set t | t in Owned(db, loser) :: (survivor, t)))
  }

  lemma MergedOwned(db: Db, loser: NodeId, survivor: NodeId, n: NodeId)
    requires loser != survivor
    ensures Owned(Merged(db, loser, survivor), n)
         == if n == loser then {} else if n == survivor then Owned(db, n) + Owned(db, loser) else Owned(db, n)
  {
    var after := Merged(db, loser, survivor);
    forall t ensures t in Owned(after, n) <==> (n, t) in after.links {}
    forall t ensures t in Owned(db, n) <==> (n, t) in db.links {}
    hide Owned;
    assert forall t :: (n, t) in after.links <==>
      n != loser && ((n, t) in db.links || (n == survivor && t in Owned(db, loser)));
  }

  lemma MergedOthersOk(db: Db, loser: NodeId, survivor: NodeId)
    requires DbOk(db) && loser != survivor
    ensures OthersOk(Merged(db, loser, survivor), survivor)
  {
    var after := Merged(db, loser, survivor);
    forall n: NodeId | n != survivor ensures RowOk(after, n) {
      assert RowOk(db, n);
      MergedOwned(db, loser, survivor, n);
      if n != loser {
        FrameRow(db, after, n);
      }
    }
  }

  lemma MergedSurvivor(db: Db, loser: NodeId, survivor: NodeId)
    requires DbOk(db) && loser != survivor
    ensures var after := Merged(db, loser, survivor);
            && (survivor in after.rows <==> survivor in db.rows) && (survivor in db.nodes ==> survivor in after.nodes)
            && (survivor in db.rows ==> after.rows[survivor] == db.rows[survivor] && RowShape(db.rows[survivor]))
            && (LinksMatch(after, survivor) <==> Owned(db, loser) <= Owned(db, survivor))
            && (RowOk(after, survivor) <==> Owned(db, loser) <= Owned(db, survivor))
  {
    assert RowOk(db, survivor);
    MergedOwned(db, loser, survivor, survivor);
    hide Owned;
    hide RowShape;
    hide DbOk;
  }

  lemma DbOkIff(db: Db, n: NodeId)
    requires OthersOk(db, n)
    ensures DbOk(db) <==> RowOk(db, n)
  {
    hide RowOk;
  }

  /** Merging keeps every row in order exactly if the survivor had all of the loser's labels. Otherwise nothing is
      shown for the survivor, and if its row is ready the next enqueue puts it in order again. */
  lemma MergeKeepsOrderIff(db: Db, loser: NodeId, survivor: NodeId, enabled: bool, recipe: Recipe, now: int)
    requires DbOk(db) && loser != survivor && survivor in db.nodes
    ensures var after := Merged(db, loser, survivor);
            && (DbOk(after) <==> Owned(db, loser) <= Owned(db, survivor))
            && (!(Owned(db, loser) <= Owned(db, survivor)) ==> CurrentTopics(after, survivor, recipe).None?)
            && (survivor in db.rows && db.rows[survivor].status == Ready ==>
                  DbOk(EnqueueNode(after, survivor, enabled, recipe, now).0))
  {
    hide *;
    var after := Merged(db, loser, survivor);
    MergedOthersOk(db, loser, survivor);
    MergedSurvivor(db, loser, survivor);
    DbOkIff(after, survivor);
    if !(Owned(db, loser) <= Owned(db, survivor)) {
      MismatchIsHidden(after, survivor, recipe);
    }
    if survivor in db.rows && db.rows[survivor].status == Ready {
      EnqueueRestores(after, survivor, enabled, recipe, now);
      KeepsIsOk(after, EnqueueNode(after, survivor, enabled, recipe, now).0);
    }
  }

  lemma KeepsIsOk(db: Db, after: Db)
    requires Keeps(db, after)
    ensures DbOk(after)
  {
    hide DbOk;
  }

  lemma MismatchIsHidden(db: Db, n: NodeId, recipe: Recipe)
    requires !LinksMatch(db, n)
    ensures CurrentTopics(db, n, recipe).None?
  {
    hide Owned;
    hide ValidNouls;
  }
}
