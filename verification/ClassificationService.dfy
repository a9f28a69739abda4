/** From a due row to the labels a reader shows, and from a failed row back to a due one. */
module ClassificationService {
  import opened Options
  import opened Lists
  import opened Classification
  import opened ClassificationRuns
  import opened ClassificationClaims

  // ---------------------------------------------------------------- asking for a failed row again

  /** A row that is asked for again is due from then on, behind everything queued before, with all its attempts left
      and the same input; no other row changes. */
  lemma RetriedRowIsDue(db: Db, who: set<NodeId>, now: int, n: NodeId, later: nat)
    ensures var after := WithReset(db, who, now);
            && after == db.(rows := after.rows) && (n in after.rows <==> n in db.rows)
            && (n in db.rows && n !in who ==> after.rows[n] == db.rows[n])
            && (n in db.rows && n in who ==>
                  && Due(after.rows[n], db.rows[n].recipe, later)
                  && after.rows[n].attempts == 0 && after.rows[n].error.None?
                  && after.rows[n].leaseToken.None? && after.rows[n].leaseExpiresAt.None?
                  && after.rows[n].enqueuedAt == after.rows[n].updatedAt == now
                  && after.rows[n].requestedRevision == db.rows[n].requestedRevision
                  && (StillDescribes(db, n) <==> StillDescribes(after, n)))
  {
  }

  // ---------------------------------------------------------------- from a due row to its labels

  lemma ReachableNext(w: World, step: Step)
    requires Reachable(w) && Enabled(w, step)
    ensures Reachable(Next(w, step))
  {
    var steps :| Run(INITIAL, steps, w);
    RunOneMore(INITIAL, steps, w, step);
  }

  lemma {:induction false} RunOneMore(from: World, steps: seq<Step>, w: World, step: Step)
    requires Run(from, steps, w) && Enabled(w, step)
    ensures Run(from, steps + [step], Next(w, step))
    decreases |steps|
  {
    hide Next;
    hide Enabled;
    if steps == [] {
      assert Run(Next(w, step), [], Next(w, step)) && ([step])[1..] == [];
    } else {
      RunOneMore(Next(from, steps[0]), steps[1..], w, step);
      assert (steps + [step])[1..] == steps[1..] + [step];
    }
  }

  /** The claim holds its node under the recipe for the next minute, and says what the node says. */
  predicate Holds(db: Db, c: Claim, n: NodeId, recipe: Recipe, now: int) {
    && c.nodeId == n && c.recipe == recipe
    && n in db.rows && db.rows[n].leaseToken == Some(c.token) && db.rows[n].leaseExpiresAt == Some(now + 60_000)
    && ReadNode(db, n) == Evidence(c.nodeUuid, c.evidence)
  }

  lemma ClaimStepIs(w: World, recipe: Recipe, limit: int, now: int)
    ensures Enabled(w, ClaimBatch(recipe, limit, now))
    ensures var next, (db, result) := Next(w, ClaimBatch(recipe, limit, now)), ClaimWork(w.db, recipe, limit, now);
            next.db == db && (result.Committed? ==> forall c :: c in result.value ==> c in next.issued)
  {
    hide ClaimWork;
  }

  lemma LeasedHolds(db: Db, after: Db, c: Claim, recipe: Recipe, now: int)
    requires c.nodeId in db.rows && c.nodeId in after.rows && after.nodes == db.nodes
    requires db.rows[c.nodeId].recipe == recipe && StillDescribes(db, c.nodeId)
    requires LeasedTo(db.rows[c.nodeId], after.rows[c.nodeId], c, now)
    ensures Holds(after, c, c.nodeId, recipe, now)
  {
  }

  /** One claim of work issues a claim that holds each node in reach whose evidence is still the one asked about. */
  lemma DueWorkIsIssued(w: World, n: NodeId, recipe: Recipe, limit: nat, now: int)
    requires 1 <= limit <= 100 && InReach(w.db, n, recipe, limit, now) && StillDescribes(w.db, n)
    ensures Enabled(w, ClaimBatch(recipe, limit, now))
    ensures var next := Next(w, ClaimBatch(recipe, limit, now));
            exists c :: c in next.issued && Holds(next.db, c, n, recipe, now)
  {
    var (after, result) := ClaimWork(w.db, recipe, limit, now);
    ClaimStepIs(w, recipe, limit, now);
    ClaimServesTheFirstDue(w.db, recipe, limit, now);
    assert Dealt(w.db, after, result.value, n, recipe, limit, now);
    assert n in w.db.rows && w.db.rows[n].recipe == recipe;
    hide *;
    ServedHolds(w.db, after, result.value, n, recipe, limit, now);
  }

  lemma ServedHolds(db: Db, after: Db, claims: seq<Claim>, n: NodeId, recipe: Recipe, limit: nat, now: int)
    requires n in db.rows && db.rows[n].recipe == recipe && after.nodes == db.nodes
    requires InReach(db, n, recipe, limit, now) && StillDescribes(db, n)
    requires Dealt(db, after, claims, n, recipe, limit, now)
    ensures exists c :: c in claims && Holds(after, c, n, recipe, now)
  {
    hide InReach;
    hide LeasedTo;
    hide StillDescribes;
    hide Holds;
    hide Owned;
    hide Superseded;
    assert Served(db, after, claims, n, recipe, now);
    var c :| c in claims && c.nodeId == n && LeasedTo(db.rows[n], after.rows[n], c, now);
    LeasedHolds(db, after, c, recipe, now);
  }

  /** What a reader finds after the worker has answered for its claim. */
  predicate ShownAfter(w: World, c: Claim, response: Response, recipe: Recipe, at: int)
    requires response.Answers?
  {
    && c in w.issued
    && var read := CurrentTopics(Next(w, Step.Apply(c, response, recipe, at)).db, c.nodeId, recipe);
    read.Some? && Shows(read.value, Accepted(recipe, response.nouls), response.nouls)
  }

  /** Main result: in every reachable state a node in reach, unedited and answered for validly within the minute, ends
      with exactly the accepted topics shown, unless one of their names is taken. */
  lemma DueWorkIsShown(w: World, n: NodeId, recipe: Recipe, limit: nat, now: int, response: Response, at: int)
    requires Reachable(w) && 1 <= limit <= 100 && InReach(w.db, n, recipe, limit, now) && StillDescribes(w.db, n)
    requires at < now + 60_000 && ValidResponse(response, recipe)
    ensures Enabled(w, ClaimBatch(recipe, limit, now))
    ensures var next := Next(w, ClaimBatch(recipe, limit, now));
            TopicsFree(next.db, Accepted(recipe, response.nouls)) ==>
              exists c: Claim :: c.nodeId == n && ShownAfter(next, c, response, recipe, at)
  {
    DueWorkIsIssued(w, n, recipe, limit, now);
    ReachableNext(w, ClaimBatch(recipe, limit, now));
    hide *;
    var next := Next(w, ClaimBatch(recipe, limit, now));
    if TopicsFree(next.db, Accepted(recipe, response.nouls)) {
      var c :| c in next.issued && Holds(next.db, c, n, recipe, now);
      HeldIsLive(next.db, c, n, recipe, now, at);
      PublishesExactlyWhenCurrent(next, c, response, at);
      PublishedResultReadsBack(next, c, response, at);
      ApplyStepIs(next, c, response, recipe, at);
      assert ShownAfter(next, c, response, recipe, at);
    }
  }

  lemma HeldIsLive(db: Db, c: Claim, n: NodeId, recipe: Recipe, now: int, at: int)
    requires Holds(db, c, n, recipe, now) && at < now + 60_000
    ensures c.nodeId == n && c.recipe == recipe && LiveLease(db, c, at)
    ensures ReadNode(db, n) == Evidence(c.nodeUuid, c.evidence)
  {
    hide ReadNode;
  }

  lemma ApplyStepIs(w: World, c: Claim, response: Response, recipe: Recipe, at: int)
    requires c in w.issued && c.recipe == recipe && response.Answers?
    requires var read := CurrentTopics(ApplyResult(w.db, c, response, recipe, at).0, c.nodeId, recipe);
             read.Some? && Shows(read.value, Accepted(recipe, response.nouls), response.nouls)
    ensures ShownAfter(w, c, response, recipe, at)
  {
    hide CurrentTopics;
    hide Shows;
    hide Accepted;
    hide ApplyResult;
  }
}
