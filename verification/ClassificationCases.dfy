/** What the classifier's answers, the enqueue of a node and the reader of its labels come to, case by case. */
module ClassificationCases {
  import opened Options
  import opened Lists
  import opened Classification
  import opened ClassificationRuns
  import Names

  // ---------------------------------------------------------------- which topics are kept

  /** What a topic needs to be kept: its own threshold, or eight tenths. */
  function Needed(recipe: Recipe, t: Topic): real {
    if t in recipe.thresholds then recipe.thresholds[t] else 0.8
  }

  predicate MayBeKept(recipe: Recipe, p: Probabilities, t: Topic) {
    t in p && p[t] >= Needed(recipe, t)
    && match recipe.publishTopics
       case Some(listed) => t in listed
       case None => t in recipe.topics
  }

  /** Larger surplus first, ties by name. */
  predicate Outranks(recipe: Recipe, p: Probabilities, t: Topic, u: Topic) {
    && t in p && u in p
    && var a, b := p[t] - Needed(recipe, t), p[u] - Needed(recipe, u);
    a > b || (a == b && NamedBefore(t, u))
  }

  predicate NamedBefore(t: Topic, u: Topic) {
    exists k :: 0 <= k <= |t| && k <= |u| && t[..k] == u[..k]
                && (if k == |t| then k < |u| else k < |u| && t[k] < u[k])
  }

  lemma {:induction false} BeforeIff(t: Topic, u: Topic)
    ensures Names.Before(t, u) <==> NamedBefore(t, u)
  {
    if Names.Before(t, u) {
      if t == [] || t[0] < u[0] {
        assert t[..0] == u[..0];
      } else {
        BeforeIff(t[1..], u[1..]);
        var k :| 0 <= k <= |t[1..]| && k <= |u[1..]| && t[1..][..k] == u[1..][..k]
                 && (if k == |t[1..]| then k < |u[1..]| else k < |u[1..]| && t[1..][k] < u[1..][k]);
        assert t[..k + 1] == [t[0]] + t[1..][..k] && u[..k + 1] == [u[0]] + u[1..][..k];
      }
    }
    if NamedBefore(t, u) {
      var k :| 0 <= k <= |t| && k <= |u| && t[..k] == u[..k] && (if k == |t| then k < |u| else k < |u| && t[k] < u[k]);
      if k > 0 {
        assert t[..k][0] == u[..k][0] && t[1..][..k - 1] == t[..k][1..] == u[..k][1..] == u[1..][..k - 1];
        assert k - 1 < |t[1..]| ==> t[1..][k - 1] == t[k] && u[1..][k - 1] == u[k];
        BeforeIff(t[1..], u[1..]);
      }
    }
  }

  /** The accepted topics are the first `maxTopics` of those that may be kept, in rank order. */
  lemma KeepsTheFirstRanked(recipe: Recipe, p: Probabilities)
    ensures var kept := Accepted(recipe, p);
            && (forall t :: t in kept ==> MayBeKept(recipe, p, t))
            && (forall i, j :: 0 <= i < j < |kept| ==> Outranks(recipe, p, kept[i], kept[j]))
            && (forall t, u :: t in kept && MayBeKept(recipe, p, u) && u !in kept ==> Outranks(recipe, p, t, u))
            && |kept| <= recipe.maxTopics
            && (|kept| < recipe.maxTopics ==> forall t :: MayBeKept(recipe, p, t) ==> t in kept)
  {
    var kept := Accepted(recipe, p);
    AcceptedIsTheBest(recipe, p);
    forall t ensures t in Eligible(recipe, p) <==> MayBeKept(recipe, p, t) { EligibleIff(recipe, p, t); }
    hide Accepted;
    hide Eligible;
    hide MayBeKept;
    forall i, j | 0 <= i < j < |kept| ensures Outranks(recipe, p, kept[i], kept[j]) {
      assert kept[i] in kept && kept[j] in kept;
      OutranksIff(recipe, p, kept[i], kept[j]);
    }
    forall t, u | t in kept && MayBeKept(recipe, p, u) && u !in kept
      ensures Outranks(recipe, p, t, u)
    {
      OutranksIff(recipe, p, t, u);
    }
  }

  lemma EligibleIff(recipe: Recipe, p: Probabilities, t: Topic)
    ensures t in Eligible(recipe, p) <==> MayBeKept(recipe, p, t)
  {
  }

  lemma OutranksIff(recipe: Recipe, p: Probabilities, t: Topic, u: Topic)
    requires MayBeKept(recipe, p, t) && MayBeKept(recipe, p, u)
    ensures Precedes(recipe, p, t, u) <==> Outranks(recipe, p, t, u)
  {
    BeforeIff(t, u);
    hide Names.Before;
    hide NamedBefore;
  }

  /** A model answers under its own name or with the service's prefix. */
  lemma PrefixIsStripped(model: string)
    ensures StripJev("jev-" + model) == model
    ensures !(|model| >= 4 && model[..4] == "jev-") ==> StripJev(model) == model
  {
    assert ("jev-" + model)[4..] == model;
  }

  // ---------------------------------------------------------------- asking for a node

  /** The row already asks for this evidence of this node under this recipe. */
  predicate AsksFor(row: Row, uuid: string, input: Fingerprint, recipe: Recipe) {
    row.nodeUuid == uuid && row.desiredInput == input && row.recipe == recipe
  }

  /** A row that needs no new request: waiting, leased or failed while work is wanted, skipped while it is not. */
  predicate Stands(row: Row, enabled: bool) {
    match row.status
    case Ready => false
    case Skipped => !enabled
    case _ => enabled
  }

  function Asked(db: Db, n: NodeId, uuid: string, input: Fingerprint, recipe: Recipe, status: Status,
                 error: Option<string>, now: int): Row
  {
    var revision := if n in db.rows then db.rows[n].requestedRevision + 1 else 1;
    Row(uuid, revision, input, recipe, status, error, 0, 0, None, None, None, None, None, [], map[], None, now, now)
  }

  /** Nothing is linked any more, and the row asks anew. */
  predicate AsksAnew(db: Db, after: Db, n: NodeId, uuid: string, input: Fingerprint, recipe: Recipe, status: Status,
                     error: Option<string>, now: int)
  {
    && n in after.rows && after.rows[n] == Asked(db, n, uuid, input, recipe, status, error, now)
    && Owned(after, n) == {}
  }

  predicate NamesAreFree(db: Db, topics: seq<Topic>) {
    forall t :: t in topics && t in db.entities ==> db.entities[t] == Classifier
  }

  /** One enqueue of a node whose content does not parse. */
  predicate UnreadableAsked(db: Db, after: Db, queued: bool, n: NodeId, uuid: string, enabled: bool, recipe: Recipe,
                            now: int)
  {
    && !queued
    && if n in db.rows && AsksFor(db.rows[n], uuid, Unparsable, recipe) && Stands(db.rows[n], enabled) then after == db
       else AsksAnew(db, after, n, uuid, Unparsable, recipe, Skipped, Some("invalid node content"), now)
  }

  /** One enqueue of a node that reads `e`: nothing if the row stands; its labels restored if its answer is current and
      their names are free; and otherwise a new request, skipped if a name is taken or work is not wanted. */
  predicate EvidenceAsked(db: Db, after: Db, queued: bool, n: NodeId, uuid: string, e: string, enabled: bool,
                          recipe: Recipe, now: int)
  {
    if n in db.rows && AsksFor(db.rows[n], uuid, Of(e), recipe) && Stands(db.rows[n], enabled) then
      after == db && !queued
    else if n in db.rows && AsksFor(db.rows[n], uuid, Of(e), recipe) && db.rows[n].status == Ready then
      && !queued
      && if NamesAreFree(db, db.rows[n].accepted)
         then after.rows == db.rows && Owned(after, n) == Elements(db.rows[n].accepted)
         else AsksAnew(db, after, n, uuid, Of(e), recipe, Skipped, Some("topic identity belongs to a source entity"),
                       now)
    else
      && queued == enabled
      && AsksAnew(db, after, n, uuid, Of(e), recipe, if enabled then Pending else Skipped,
                  if enabled then None else Some("classification disabled"), now)
  }

  /** The whole effect of one enqueue on the node's own row and labels, in every reachable state. */
  lemma EnqueueAsks(w: World, n: NodeId, enabled: bool, recipe: Recipe, now: int)
    requires Reachable(w)
    ensures var db, (after, queued) := w.db, EnqueueNode(w.db, n, enabled, recipe, now);
            if n !in db.nodes || (!enabled && n !in db.rows) then after == db && !queued
            else match db.nodes[n].evidence
                 case None => UnreadableAsked(db, after, queued, n, db.nodes[n].uuid, enabled, recipe, now)
                 case Some(e) => EvidenceAsked(db, after, queued, n, db.nodes[n].uuid, e, enabled, recipe, now)
  {
    EveryReachableRowIsOk(w);
    assert RowOk(w.db, n);
    assert n in w.db.rows ==> RowShape(w.db.rows[n]);
    hide Reachable;
    hide Ok;
    hide RowOk;
    hide EvidenceAsked;
    hide UnreadableAsked;
    if n !in w.db.nodes || (!enabled && n !in w.db.rows) {
    } else if w.db.nodes[n].evidence.None? {
      hide RowShape;
      UnreadableEnqueue(w.db, n, enabled, recipe, now);
      hide EnqueueNode;
    } else {
      EvidenceEnqueue(w.db, n, enabled, recipe, now);
      hide EnqueueNode;
    }
  }

  lemma UnchangedIff(row: Row, uuid: string, input: Fingerprint, recipe: Recipe, enabled: bool)
    ensures Unchanged(row, uuid, input, recipe, enabled) <==> AsksFor(row, uuid, input, recipe) && Stands(row, enabled)
  {
  }

  lemma RequeuedAsks(db: Db, n: NodeId, uuid: string, input: Fingerprint, recipe: Recipe, enabled: bool,
                     error: Option<string>, now: int)
    ensures AsksAnew(db, Requeued(db, n, uuid, input, recipe, enabled, error, now), n, uuid, input, recipe,
                     if enabled && error.None? then Pending else Skipped,
                     if error.Some? then error else if enabled then None else Some("classification disabled"), now)
  {
    RequeuedOwns(db, n, uuid, input, recipe, enabled, error, now);
    hide Owned;
  }

  lemma UnreadableEnqueue(db: Db, n: NodeId, enabled: bool, recipe: Recipe, now: int)
    requires n in db.nodes && db.nodes[n].evidence.None? && (enabled || n in db.rows)
    ensures var (after, queued) := EnqueueNode(db, n, enabled, recipe, now);
            UnreadableAsked(db, after, queued, n, db.nodes[n].uuid, enabled, recipe, now)
  {
    var uuid := db.nodes[n].uuid;
    RequeuedAsks(db, n, uuid, Unparsable, recipe, enabled, Some(INVALID_CONTENT), now);
    if n in db.rows {
      UnchangedIff(db.rows[n], uuid, Unparsable, recipe, enabled);
    }
    hide AsksAnew;
    hide Requeued;
    hide Unchanged;
    hide AsksFor;
    hide Stands;
  }

  lemma EvidenceEnqueue(db: Db, n: NodeId, enabled: bool, recipe: Recipe, now: int)
    requires n in db.nodes && db.nodes[n].evidence.Some? && (enabled || n in db.rows)
    requires n in db.rows ==> RowShape(db.rows[n])
    ensures var (after, queued) := EnqueueNode(db, n, enabled, recipe, now);
            EvidenceAsked(db, after, queued, n, db.nodes[n].uuid, db.nodes[n].evidence.value, enabled, recipe, now)
  {
    var uuid, e := db.nodes[n].uuid, db.nodes[n].evidence.value;
    if n in db.rows {
      CurrentIff(db, n, recipe);
    }
    hide *;
    if n in db.rows && IsCurrent(db.rows[n], uuid, e, recipe) {
      CurrentEnqueue(db, n, uuid, e, enabled, recipe, now);
    } else {
      OtherEnqueue(db, n, uuid, e, enabled, recipe, now);
    }
  }

  lemma CurrentEnqueue(db: Db, n: NodeId, uuid: string, e: string, enabled: bool, recipe: Recipe, now: int)
    requires n in db.nodes && db.nodes[n] == Node(uuid, Some(e)) && n in db.rows
    requires IsCurrent(db.rows[n], uuid, e, recipe)
    requires AsksFor(db.rows[n], uuid, Of(e), recipe) && db.rows[n].status == Ready
    ensures var (after, queued) := EnqueueNode(db, n, enabled, recipe, now);
            EvidenceAsked(db, after, queued, n, uuid, e, enabled, recipe, now)
  {
    var topics := db.rows[n].accepted;
    RequeuedAsks(db, n, uuid, Of(e), recipe, enabled, Some(TOPIC_TAKEN), now);
    UnchangedIff(db.rows[n], uuid, Of(e), recipe, enabled);
    OwnedAfter(db, n, topics, n);
    MembershipsKeepRows(db, n, topics);
    assert TopicsFree(db, topics) <==> NamesAreFree(db, topics);
    hide AsksAnew;
    hide Requeued;
    hide Unchanged;
    hide IsCurrent;
    hide AsksFor;
    hide TopicsFree;
    hide NamesAreFree;
    hide Owned;
    hide WithMemberships;
  }

  lemma OtherEnqueue(db: Db, n: NodeId, uuid: string, e: string, enabled: bool, recipe: Recipe, now: int)
    requires n in db.nodes && db.nodes[n] == Node(uuid, Some(e)) && (enabled || n in db.rows)
    requires n in db.rows ==> !IsCurrent(db.rows[n], uuid, e, recipe)
    requires n in db.rows ==> !(AsksFor(db.rows[n], uuid, Of(e), recipe) && db.rows[n].status == Ready)
    ensures var (after, queued) := EnqueueNode(db, n, enabled, recipe, now);
            EvidenceAsked(db, after, queued, n, uuid, e, enabled, recipe, now)
  {
    RequeuedAsks(db, n, uuid, Of(e), recipe, enabled, None, now);
    if n in db.rows {
      UnchangedIff(db.rows[n], uuid, Of(e), recipe, enabled);
    }
    hide AsksAnew;
    hide Requeued;
    hide Unchanged;
    hide IsCurrent;
    hide AsksFor;
    hide Stands;
  }

  lemma RequeuedOwns(db: Db, n: NodeId, uuid: string, input: Fingerprint, recipe: Recipe, enabled: bool,
                     error: Option<string>, now: int)
    ensures Owned(Requeued(db, n, uuid, input, recipe, enabled, error, now), n) == {}
  {
  }

  lemma CurrentIff(db: Db, n: NodeId, recipe: Recipe)
    requires n in db.rows && RowShape(db.rows[n])
    ensures forall uuid, e :: IsCurrent(db.rows[n], uuid, e, recipe) <==>
              AsksFor(db.rows[n], uuid, Of(e), recipe) && db.rows[n].status == Ready
  {
    hide ValidNouls;
    hide Accepted;
    hide StripJev;
  }

  // ---------------------------------------------------------------- publishing an answer

  /** An answer by the recipe's model that gives every one of its topics, and no other, a share. */
  ghost predicate WellAnswered(response: Response, recipe: Recipe) {
    && response.Answers? && 1 <= |recipe.topics| <= 100
    && StripJev(response.model) == StripJev(recipe.modelId)
    && (forall t :: t in response.nouls <==> t in recipe.topics)
    && (forall t :: t in response.nouls ==> 0.0 <= response.nouls[t] <= 1.0)
  }

  /** The claim's row is still leased to it, in time, for what it was claimed for, and its node reads the same. */
  predicate StillLeased(db: Db, work: Claim, recipe: Recipe, now: int) {
    && work.recipe == recipe
    && work.nodeId in db.nodes && db.nodes[work.nodeId] == Node(work.nodeUuid, Some(work.evidence))
    && work.nodeId in db.rows
    && var row := db.rows[work.nodeId];
    && AsksFor(row, work.nodeUuid, Of(work.evidence), recipe) && row.requestedRevision == work.revision
    && row.status == Processing && row.leaseToken == Some(work.token)
    && row.leaseExpiresAt.Some? && now < row.leaseExpiresAt.value
  }

  /** Which way an answer goes, and the row and labels it leaves when it is published. */
  lemma ApplyGoes(db: Db, work: Claim, response: Response, recipe: Recipe, now: int)
    ensures var (after, result), n := ApplyResult(db, work, response, recipe, now), work.nodeId;
            if !WellAnswered(response, recipe) then after == db && result == Raised(InvalidResponse)
            else if !StillLeased(db, work, recipe, now) then after == db && result == Committed(false)
            else
              var kept, row := Accepted(recipe, response.nouls), db.rows[n];
              if !NamesAreFree(db, kept) then after == db && result == Raised(TopicOwnership)
              else
                && result == Committed(true) && after.nodes == db.nodes && Owned(after, n) == Elements(kept)
                && (forall m :: m != n ==> Owned(after, m) == Owned(db, m))
                && after.rows == db.rows[n := row.(
                     status := Ready, appliedRevision := Some(work.revision), appliedInput := Some(Of(work.evidence)),
                     appliedRecipe := Some(recipe), accepted := kept, probabilities := response.nouls,
                     returnedModel := Some(response.model), error := None, leaseToken := None, leaseExpiresAt := None,
                     updatedAt := now)]
  {
    AnsweredIff(response, recipe);
    LeasedIff(db, work, recipe, now);
    if response.Answers? {
      var n, kept := work.nodeId, Accepted(recipe, response.nouls);
      assert TopicsFree(db, kept) <==> NamesAreFree(db, kept);
      LinkedOnly(db, n, kept, PublishedRow(if n in db.rows then db.rows[n] else Asked(db, n, "", Unparsable, recipe,
                                             Skipped, None, now), kept, response.nouls, response.model, now));
    }
    hide Accepted;
    hide ValidResponse;
    hide WellAnswered;
    hide Matches;
    hide TopicsFree;
    hide NamesAreFree;
    hide Owned;
    hide WithMemberships;
  }

  lemma AnsweredIff(response: Response, recipe: Recipe)
    ensures ValidResponse(response, recipe) <==> WellAnswered(response, recipe)
  {
    hide StripJev;
    if response.Answers? {
      SameKeys(response.nouls, recipe.topics);
    }
  }

  lemma LeasedIff(db: Db, work: Claim, recipe: Recipe, now: int)
    ensures Matches(db, work, recipe, now) <==> StillLeased(db, work, recipe, now)
  {
  }

  lemma LinkedOnly(db: Db, n: NodeId, topics: seq<Topic>, row: Row)
    ensures var after := WithMemberships(db, n, topics).(rows := db.rows[n := row]);
            && after.nodes == db.nodes && Owned(after, n) == Elements(topics)
            && forall m :: m != n ==> Owned(after, m) == Owned(db, m)
  {
    var linked := WithMemberships(db, n, topics);
    var after := linked.(rows := db.rows[n := row]);
    MembershipsKeepRows(db, n, topics);
    LabelsOfRows(linked, after);
    forall m ensures Owned(after, m) == if m == n then Elements(topics) else Owned(db, m) {
      OwnedAfter(db, n, topics, m);
    }
    hide WithMemberships;
    hide Owned;
  }

  lemma SameKeys<V, W>(a: map<Topic, V>, b: map<Topic, W>)
    ensures a.Keys == b.Keys <==> forall t :: t in a <==> t in b
  {
  }

  lemma LabelsOfRows(db: Db, after: Db)
    ensures after.links == db.links ==> forall m :: Owned(after, m) == Owned(db, m)
  {
  }

  // ---------------------------------------------------------------- giving a claim back

  /** A second after the first attempt, doubled after each other, or what the service asks for if that is longer. */
  function DelayAfter(attempts: nat, retryAfterMs: int): int {
    var backoff := if attempts <= 1 then 1000 else if attempts == 2 then 2000 else 4000;
    if retryAfterMs > backoff then retryAfterMs else backoff
  }

  /** The row a failed claim leaves, field by field, in every reachable state. */
  lemma FailGoes(w: World, c: Claim, error: string, transient: bool, retryAfterMs: int, consumeAttempt: bool, now: int)
    requires Reachable(w) && c in w.issued && c.attempts >= 1
    ensures var after, n := FailWork(w.db, c, error, transient, retryAfterMs, consumeAttempt, now), c.nodeId;
            if n in w.db.rows && w.db.rows[n].leaseToken == Some(c.token) then
              var row := w.db.rows[n];
              var left := if consumeAttempt then row.attempts else row.attempts - 1;
              && left >= 0
              && after == w.db.(rows := w.db.rows[n := row.(
                   status := if transient && left < 3 then Pending else Failed, attempts := left,
                   nextAttemptAt := now + DelayAfter(row.attempts, retryAfterMs),
                   leaseToken := None, leaseExpiresAt := None,
                   error := Some(if |error| > 160 then error[..160] else error), updatedAt := now)])
            else after == w.db
  {
    EveryReachableRowIsOk(w);
    assert LeaseOk(w.db, c);
    hide Reachable;
    hide Ok;
    assert Pow2(0) == 1 && Pow2(1) == 2 && Pow2(2) == 4;
    hide Pow2;
  }

  // ---------------------------------------------------------------- reading labels

  /** The published answer of a row is the one for the node as it reads now, under this recipe and model. */
  predicate AnswersNow(row: Row, uuid: string, evidence: string, recipe: Recipe) {
    && row.status == Ready && AsksFor(row, uuid, Of(evidence), recipe)
    && row.appliedRevision == Some(row.requestedRevision) && row.appliedInput == Some(Of(evidence))
    && row.appliedRecipe == Some(recipe)
    && StripJev(if row.returnedModel.Some? then row.returnedModel.value else "") == StripJev(recipe.modelId)
  }

  /** The reader shows labels exactly if the row answers for the node now, its probabilities are the recipe's topics
      with shares, and its accepted topics are distinct, within the cap, over their thresholds, publishable, and the
      very topics the node is linked to; it then shows them with their probabilities. */
  lemma ReaderShowsIff(db: Db, n: NodeId, recipe: Recipe)
    ensures var shown := CurrentTopics(db, n, recipe);
            && (shown.Some? <==>
                  && n in db.rows && n in db.nodes && db.nodes[n].evidence.Some?
                  && var row := db.rows[n];
                  && AnswersNow(row, db.nodes[n].uuid, db.nodes[n].evidence.value, recipe)
                  && row.probabilities.Keys == recipe.topics.Keys
                  && (forall t :: t in row.probabilities ==> 0.0 <= row.probabilities[t] <= 1.0)
                  && |row.accepted| <= recipe.maxTopics && Distinct(row.accepted)
                  && (forall t :: t in row.accepted <==> (n, t) in db.links)
                  && (forall t :: t in row.accepted ==>
                        && t in row.probabilities && row.probabilities[t] >= Needed(recipe, t)
                        && (recipe.publishTopics.Some? ==> t in recipe.publishTopics.value)))
            && (shown.Some? ==>
                  && (forall t :: t in shown.value <==> t in db.rows[n].accepted)
                  && (forall t :: t in shown.value ==>
                        t in db.rows[n].probabilities && shown.value[t] == db.rows[n].probabilities[t]))
  {
    if n in db.rows {
      OwnsIff(db, n, db.rows[n].accepted);
    }
    hide Owned;
    hide Distinct;
    hide StripJev;
  }

  lemma OwnsIff(db: Db, n: NodeId, topics: seq<Topic>)
    ensures Elements(topics) == Owned(db, n) <==> forall t :: t in topics <==> (n, t) in db.links
  {
    assert forall t :: t in Owned(db, n) <==> (n, t) in db.links;
    hide Owned;
  }
}
