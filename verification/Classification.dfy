/** The topic-classification queue: one row per knowledge node, leased to workers by token.

    Fingerprints are collision-free digests, so a stored fingerprint is modelled by the value
    it digests; lease tokens are UUIDs, so they are modelled by a counter that never repeats. */
module Classification {
  import opened Options
  import opened Lists
  import Names
  import Sorting

  const MAX_ATTEMPTS: nat := 3
  const LEASE_MS: int := 60_000
  const DEFAULT_THRESHOLD := 0.8
  const LEASE_EXHAUSTED := "lease attempts exhausted"
  const TOPIC_TAKEN := "topic identity belongs to a source entity"
  const INVALID_CONTENT := "invalid node content"
  const DISABLED := "classification disabled"

  type NodeId = nat
  type Token = nat
  type Topic = string
  type Probabilities = map<Topic, real>

  // ---------------------------------------------------------------- rows and tables

  datatype Recipe = Recipe(
    topics: map<Topic, string>,
    modelId: string,
    taxonomyVersion: string,
    thresholds: map<Topic, real>,
    publishTopics: Option<seq<Topic>>,
    maxTopics: nat)

  /** The bounded evidence a classifier sees, or the mark stored for content that does not parse. */
  datatype Fingerprint = Of(evidence: string) | Unparsable

  /** `evidence == None` when the node's content does not parse. */
  datatype Node = Node(uuid: string, evidence: Option<string>)

  datatype Status = Pending | Processing | Ready | Failed | Skipped

  datatype Row = Row(
    nodeUuid: string,
    requestedRevision: nat,
    desiredInput: Fingerprint,
    recipe: Recipe,
    status: Status,
    error: Option<string>,
    attempts: nat,
    nextAttemptAt: int,
    leaseToken: Option<Token>,
    leaseExpiresAt: Option<int>,
    appliedRevision: Option<nat>,
    appliedInput: Option<Fingerprint>,
    appliedRecipe: Option<Recipe>,
    accepted: seq<Topic>,
    probabilities: Probabilities,
    returnedModel: Option<string>,
    enqueuedAt: int,
    updatedAt: int)

  /** Who holds the entity that carries a topic's canonical name. */
  datatype Owner = Classifier | Source

  /** `links` are the classifier-owned memberships only. */
  datatype Db = Db(
    nodes: map<NodeId, Node>,
    rows: map<NodeId, Row>,
    entities: map<Topic, Owner>,
    links: set<(NodeId, Topic)>,
    nextToken: Token)

  datatype Claim = Claim(
    nodeId: NodeId,
    nodeUuid: string,
    revision: nat,
    evidence: string,
    recipe: Recipe,
    token: Token,
    attempts: nat)

  datatype Response = Malformed | Answers(model: string, nouls: Probabilities)

  datatype ApplyError = InvalidResponse | TopicOwnership
  datatype ClaimError = InvalidLimit

  // ---------------------------------------------------------------- reading a node

  datatype Reading = Absent | Unreadable(uuid: string) | Evidence(uuid: string, evidence: string)

  function ReadNode(db: Db, n: NodeId): Reading {
    if n !in db.nodes then Absent
    else
      match db.nodes[n].evidence
      case None => Unreadable(db.nodes[n].uuid)
      case Some(e) => Evidence(db.nodes[n].uuid, e)
  }

  // ---------------------------------------------------------------- choosing topics

  function Threshold(recipe: Recipe, t: Topic): real {
    if t in recipe.thresholds then recipe.thresholds[t] else DEFAULT_THRESHOLD
  }

  predicate Publishable(recipe: Recipe, t: Topic) {
    match recipe.publishTopics
    case None => t in recipe.topics
    case Some(listed) => t in listed
  }

  function Eligible(recipe: Recipe, p: Probabilities): set<Topic> {
    set t | t in p && Publishable(recipe, t) && p[t] >= Threshold(recipe, t)
  }

  function Margin(recipe: Recipe, p: Probabilities, t: Topic): real {
    (if t in p then p[t] else 0.0) - Threshold(recipe, t)
  }

  /** Larger margin first, ties by name. */
  predicate Precedes(recipe: Recipe, p: Probabilities, a: Topic, b: Topic) {
    || Margin(recipe, p, a) > Margin(recipe, p, b)
    || (Margin(recipe, p, a) == Margin(recipe, p, b) && Names.Before(a, b))
  }

  function ByMargin(recipe: Recipe, p: Probabilities): (Topic, Topic) -> bool {
    (a, b) => Precedes(recipe, p, a, b)
  }

  lemma ByMarginOrders(recipe: Recipe, p: Probabilities)
    ensures Sorting.StrictTotal(ByMargin(recipe, p))
  {
    var less := ByMargin(recipe, p);
    forall a ensures !less(a, a) { Names.Irreflexive(a); }
    forall a, b, c | less(a, b) && less(b, c) ensures less(a, c) {
      if Names.Before(a, b) && Names.Before(b, c) {
        Names.Transitive(a, b, c);
      }
    }
    forall a, b ensures a == b || less(a, b) || less(b, a) { Names.Total(a, b); }
  }

  function Accepted(recipe: Recipe, p: Probabilities): seq<Topic> {
    ByMarginOrders(recipe, p);
    Sorting.FirstFew(Eligible(recipe, p), ByMargin(recipe, p), recipe.maxTopics)
  }

  /** What the cap keeps: eligible topics only, without repeats, as many as allowed, and never a
      topic that ranks behind one it leaves out. */
  lemma AcceptedIsTheBest(recipe: Recipe, p: Probabilities)
    ensures var kept := Accepted(recipe, p);
            && (forall t :: t in kept ==> t in Eligible(recipe, p))
            && Distinct(kept)
            && |kept| <= recipe.maxTopics
            && (|kept| < recipe.maxTopics ==> forall t :: t in Eligible(recipe, p) ==> t in kept)
            && (forall i, j :: 0 <= i < j < |kept| ==> Precedes(recipe, p, kept[i], kept[j]))
            && (forall t, u :: t in kept && u in Eligible(recipe, p) && u !in kept
                  ==> Precedes(recipe, p, t, u))
  {
    ByMarginOrders(recipe, p);
    var less, kept := ByMargin(recipe, p), Accepted(recipe, p);
    forall i, j | 0 <= i < j < |kept| ensures Precedes(recipe, p, kept[i], kept[j]) {
      assert less(kept[i], kept[j]);
    }
    forall t, u | t in kept && u in Eligible(recipe, p) && u !in kept
      ensures Precedes(recipe, p, t, u)
    {
      var i :| 0 <= i < |kept| && kept[i] == t;
      assert less(kept[i], u);
    }
  }

  // ---------------------------------------------------------------- memberships

  function Owned(db: Db, n: NodeId): set<Topic> {
    set l | l in db.links && l.0 == n :: l.1
  }

  predicate TopicsFree(db: Db, topics: seq<Topic>) {
    forall t :: t in topics && t in db.entities ==> db.entities[t] == Classifier
  }

  function Unlinked(db: Db, n: NodeId): Db {
    db.(links := set l | l in db.links && l.0 != n)
  }

  function WithMemberships(db: Db, n: NodeId, topics: seq<Topic>): Db {
    if Owned(db, n) == Elements(topics) then db
    else
      db.(links := Unlinked(db, n).links + (set t | t in topics :: (n, t)),
          entities := db.entities + (map t | t in topics :: Classifier))
  }

  lemma OwnedAfter(db: Db, n: NodeId, topics: seq<Topic>, m: NodeId)
    ensures Owned(WithMemberships(db, n, topics), m) == if m == n then Elements(topics) else Owned(db, m)
  {
    var after := WithMemberships(db, n, topics);
    if Owned(db, n) != Elements(topics) {
      forall t ensures t in Owned(after, m) <==> (m, t) in after.links {}
      forall t ensures t in Owned(db, m) <==> (m, t) in db.links {}
      assert forall t :: (m, t) in after.links <==> if m == n then t in topics else (m, t) in db.links;
      hide Owned;
      assert Owned(after, m) == if m == n then Elements(topics) else Owned(db, m);
    }
  }

  // ---------------------------------------------------------------- enqueue_node

  function StripJev(model: string): string {
    if "jev-" <= model then model[4..] else model
  }

  predicate IsCurrent(row: Row, uuid: string, evidence: string, recipe: Recipe) {
    && row.status == Ready
    && row.nodeUuid == uuid
    && row.appliedRevision == Some(row.requestedRevision)
    && row.desiredInput == Of(evidence)
    && row.appliedInput == Some(row.desiredInput)
    && row.recipe == recipe
    && row.appliedRecipe == Some(recipe)
    && StripJev(if row.returnedModel.Some? then row.returnedModel.value else "")
       == StripJev(recipe.modelId)
  }

  function FreshRow(uuid: string, revision: nat, input: Fingerprint, recipe: Recipe,
                    status: Status, error: Option<string>, now: int): Row
  {
    Row(uuid, revision, input, recipe, status, error, 0, 0, None, None, None, None, None, [],
        map[], None, now, now)
  }

  /** The row is already what this call would ask for. */
  predicate Unchanged(row: Row, uuid: string, input: Fingerprint, recipe: Recipe, enabled: bool) {
    && row.nodeUuid == uuid
    && row.desiredInput == input
    && row.recipe == recipe
    && (if enabled then row.status in {Pending, Processing, Failed} else row.status == Skipped)
  }

  /** The last part of `enqueue_node`: invalidate whatever was there and ask again. */
  function Requeued(db: Db, n: NodeId, uuid: string, input: Fingerprint, recipe: Recipe,
                    enabled: bool, error: Option<string>, now: int): Db
  {
    var revision := if n in db.rows then db.rows[n].requestedRevision + 1 else 1;
    var status := if enabled && error.None? then Pending else Skipped;
    var text := if error.Some? then error else if enabled then None else Some(DISABLED);
    Unlinked(db, n).(rows := db.rows[n := FreshRow(uuid, revision, input, recipe, status, text, now)])
  }

  function EnqueueNode(db: Db, n: NodeId, enabled: bool, recipe: Recipe, now: int): (Db, bool) {
    if !enabled && n !in db.rows then (db, false)
    else
      match ReadNode(db, n)
      case Absent => (db, false)
      case Unreadable(uuid) =>
        if n in db.rows && Unchanged(db.rows[n], uuid, Unparsable, recipe, enabled) then (db, false)
        else (Requeued(db, n, uuid, Unparsable, recipe, enabled, Some(INVALID_CONTENT), now), false)
      case Evidence(uuid, e) =>
        var current := n in db.rows && IsCurrent(db.rows[n], uuid, e, recipe);
        if current && TopicsFree(db, db.rows[n].accepted) then
          (WithMemberships(db, n, db.rows[n].accepted), false)
        else
          var error := if current then Some(TOPIC_TAKEN) else None;
          if n in db.rows && Unchanged(db.rows[n], uuid, Of(e), recipe, enabled) then (db, false)
          else (Requeued(db, n, uuid, Of(e), recipe, enabled, error, now), enabled && error.None?)
  }

  // ---------------------------------------------------------------- claim

  predicate Exhausted(row: Row, now: int) {
    && row.status == Processing
    && row.leaseExpiresAt.Some? && row.leaseExpiresAt.value <= now
    && row.attempts >= MAX_ATTEMPTS
  }

  function WithExhaustedFailed(db: Db, now: int): Db {
    db.(rows := map n | n in db.rows ::
          if Exhausted(db.rows[n], now)
          then db.rows[n].(status := Failed, leaseToken := None, leaseExpiresAt := None,
                           error := Some(LEASE_EXHAUSTED), updatedAt := now)
          else db.rows[n])
  }

  predicate Claimable(row: Row, recipe: Recipe, now: int) {
    && row.recipe == recipe
    && row.attempts < MAX_ATTEMPTS
    && (|| (row.status == Pending && row.nextAttemptAt <= now)
        || (row.status == Processing && row.leaseExpiresAt.Some? && row.leaseExpiresAt.value <= now))
  }

  function EnqueuedAt(rows: map<NodeId, Row>, n: NodeId): int {
    if n in rows then rows[n].enqueuedAt else 0
  }

  function OldestFirst(rows: map<NodeId, Row>): (NodeId, NodeId) -> bool {
    (a: NodeId, b: NodeId) => EnqueuedAt(rows, a) < EnqueuedAt(rows, b)
                              || (EnqueuedAt(rows, a) == EnqueuedAt(rows, b) && a < b)
  }

  function Picked(db: Db, recipe: Recipe, limit: nat, now: int): (picked: seq<NodeId>)
    ensures |picked| <= limit
    ensures Distinct(picked)
    ensures forall n :: n in picked ==> n in db.rows && Claimable(db.rows[n], recipe, now)
  {
    var candidates := set n | n in db.rows && Claimable(db.rows[n], recipe, now);
    var less := OldestFirst(db.rows);
    assert Sorting.StrictTotal(less);
    Sorting.FirstFew(candidates, less, limit)
  }

  function Leased(row: Row, token: Token, now: int): Row {
    row.(status := Processing, attempts := row.attempts + 1, leaseToken := Some(token),
         leaseExpiresAt := Some(now + LEASE_MS), updatedAt := now)
  }

  /** One turn of the claim loop; `row` is what the query returned for `n`. */
  function ClaimOne(db: Db, n: NodeId, row: Row, recipe: Recipe, now: int): (Db, Option<Claim>) {
    var after := EnqueueNode(db, n, true, recipe, now).0;
    match ReadNode(after, n)
    case Absent => (after, None)
    case Unreadable(_) => (after, None)
    case Evidence(uuid, e) =>
      if uuid != row.nodeUuid || Of(e) != row.desiredInput then (after, None)
      else
        var token := after.nextToken;
        var spent := after.(nextToken := token + 1);
        if && n in after.rows
           && after.rows[n].requestedRevision == row.requestedRevision
           && after.rows[n].recipe == recipe
           && after.rows[n].status in {Pending, Processing}
        then
          (spent.(rows := after.rows[n := Leased(after.rows[n], token, now)]),
           Some(Claim(n, uuid, row.requestedRevision, e, recipe, token, row.attempts + 1)))
        else (spent, None)
  }

  function ClaimEach(db: Db, found: map<NodeId, Row>, picked: seq<NodeId>, recipe: Recipe, now: int)
    : (Db, seq<Claim>)
    requires forall n :: n in picked ==> n in found
  {
    if picked == [] then (db, [])
    else
      var last := |picked| - 1;
      var (before, claims) := ClaimEach(db, found, picked[..last], recipe, now);
      var (after, claimed) := ClaimOne(before, picked[last], found[picked[last]], recipe, now);
      (after, if claimed.Some? then claims + [claimed.value] else claims)
  }

  function ClaimWork(db: Db, recipe: Recipe, limit: int, now: int): (Db, Outcome<seq<Claim>, ClaimError>) {
    if !(1 <= limit <= 100) then (db, Raised(InvalidLimit))
    else
      var ready := WithExhaustedFailed(db, now);
      var picked := Picked(ready, recipe, limit, now);
      var (after, claims) := ClaimEach(ready, ready.rows, picked, recipe, now);
      (after, Committed(claims))
  }

  // ---------------------------------------------------------------- apply_result

  predicate ValidNouls(p: Probabilities, recipe: Recipe) {
    && p.Keys == recipe.topics.Keys
    && forall t :: t in p ==> 0.0 <= p[t] <= 1.0
  }

  predicate ValidResponse(response: Response, recipe: Recipe) {
    && response.Answers?
    && 1 <= |recipe.topics| <= 100
    && StripJev(response.model) == StripJev(recipe.modelId)
    && ValidNouls(response.nouls, recipe)
  }

  predicate Matches(db: Db, work: Claim, recipe: Recipe, now: int) {
    && work.nodeId in db.rows
    && var row := db.rows[work.nodeId];
    && row.nodeUuid == work.nodeUuid
    && row.requestedRevision == work.revision
    && row.desiredInput == Of(work.evidence)
    && row.recipe == recipe
    && row.leaseToken == Some(work.token)
    && row.status == Processing
    && row.leaseExpiresAt.Some? && row.leaseExpiresAt.value > now
    && work.recipe == recipe
    && ReadNode(db, work.nodeId) == Evidence(work.nodeUuid, work.evidence)
  }

  function PublishedRow(row: Row, accepted: seq<Topic>, p: Probabilities, model: string, now: int): Row {
    row.(status := Ready, appliedRevision := Some(row.requestedRevision),
         appliedInput := Some(row.desiredInput), appliedRecipe := Some(row.recipe),
         accepted := accepted, probabilities := p, returnedModel := Some(model), error := None,
         leaseToken := None, leaseExpiresAt := None, updatedAt := now)
  }

  function ApplyResult(db: Db, work: Claim, response: Response, recipe: Recipe, now: int)
    : (Db, Outcome<bool, ApplyError>)
  {
    if !ValidResponse(response, recipe) then (db, Raised(InvalidResponse))
    else if !Matches(db, work, recipe, now) then (db, Committed(false))
    else
      var accepted := Accepted(recipe, response.nouls);
      if !TopicsFree(db, accepted) then (db, Raised(TopicOwnership))
      else
        var linked := WithMemberships(db, work.nodeId, accepted);
        var row := PublishedRow(db.rows[work.nodeId], accepted, response.nouls, response.model, now);
        (linked.(rows := db.rows[work.nodeId := row]), Committed(true))
  }

  // ---------------------------------------------------------------- _fail

  function Pow2(n: nat): nat {
    if n == 0 then 1 else 2 * Pow2(n - 1)
  }

  function Truncated(text: string): string {
    if |text| <= 160 then text else text[..160]
  }

  /** The worker calls this with a claim it was given, so `attempts` is at least one. */
  function FailWork(db: Db, work: Claim, error: string, transient: bool, retryAfterMs: int,
                    consumeAttempt: bool, now: int): Db
    requires work.attempts >= 1
  {
    if && work.nodeId in db.rows
       && db.rows[work.nodeId].leaseToken == Some(work.token)
       && db.rows[work.nodeId].requestedRevision == work.revision
    then
      var attempts := if consumeAttempt then work.attempts else work.attempts - 1;
      var backoff := 1000 * Pow2(work.attempts - 1);
      db.(rows := db.rows[work.nodeId := db.rows[work.nodeId].(
            status := if transient && attempts < MAX_ATTEMPTS then Pending else Failed,
            attempts := attempts,
            nextAttemptAt := now + (if retryAfterMs > backoff then retryAfterMs else backoff),
            leaseToken := None, leaseExpiresAt := None, error := Some(Truncated(error)),
            updatedAt := now)])
    else db
  }

  // ---------------------------------------------------------------- current_topics

  /** The labels a reader is shown for one node, or nothing. */
  function CurrentTopics(db: Db, n: NodeId, recipe: Recipe): Option<Probabilities> {
    if n !in db.rows then None
    else
      match ReadNode(db, n)
      case Absent => None
      case Unreadable(_) => None
      case Evidence(uuid, e) =>
        var row := db.rows[n];
        if !IsCurrent(row, uuid, e, recipe) then None
        else if !ValidNouls(row.probabilities, recipe) then None
        else if |row.accepted| > recipe.maxTopics || !Distinct(row.accepted) then None
        else if Elements(row.accepted) != Owned(db, n) then None
        else if exists t :: t in row.accepted &&
                  (|| t !in row.probabilities
                   || row.probabilities[t] < Threshold(recipe, t)
                   || (recipe.publishTopics.Some? && t !in recipe.publishTopics.value))
        then None
        else Some(map t | t in row.accepted :: row.probabilities[t])
  }
}
