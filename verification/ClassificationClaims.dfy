/** What one claim of work does to every row, and which claims it hands out. */
module ClassificationClaims {
  import opened Options
  import opened Lists
  import opened Classification
  import opened ClassificationRuns
  import opened ClassificationReplay
  import Sorting

  // ---------------------------------------------------------------- who is due, and in what order

  predicate LeaseOver(row: Row, now: int) {
    row.leaseExpiresAt.Some? && row.leaseExpiresAt.value <= now
  }

  /** Work of this recipe with an attempt left: waiting and no longer delayed, or leased and overdue. */
  predicate Due(row: Row, recipe: Recipe, now: int) {
    && row.recipe == recipe && row.attempts < 3
    && match row.status
       case Pending => row.nextAttemptAt <= now
       case Processing => LeaseOver(row, now)
       case _ => false
  }

  /** Overdue with no attempt left, whatever its recipe. */
  predicate Spent(row: Row, now: int) {
    row.status == Processing && LeaseOver(row, now) && row.attempts >= 3
  }

  /** Queued earlier, or at the same time under a lower node id. */
  predicate QueuedBefore(db: Db, m: NodeId, n: NodeId)
    requires m in db.rows && n in db.rows
  {
    db.rows[m].enqueuedAt < db.rows[n].enqueuedAt || (db.rows[m].enqueuedAt == db.rows[n].enqueuedAt && m < n)
  }

  function Ahead(db: Db, n: NodeId, recipe: Recipe, now: int): set<NodeId>
    requires n in db.rows
  {
    set m | m in db.rows && Due(db.rows[m], recipe, now) && QueuedBefore(db, m, n)
  }

  /** Due, and among the first `limit` rows that are. */
  predicate InReach(db: Db, n: NodeId, recipe: Recipe, limit: nat, now: int) {
    n in db.rows && Due(db.rows[n], recipe, now) && |Ahead(db, n, recipe, now)| < limit
  }

  // ---------------------------------------------------------------- what becomes of a row

  /** The row is leased for a minute under the claim's own token, and the claim is a copy of what it asks for. */
  predicate LeasedTo(row: Row, after: Row, c: Claim, now: int) {
    && after == row.(status := Processing, attempts := row.attempts + 1, leaseToken := Some(c.token),
                     leaseExpiresAt := Some(now + 60_000), updatedAt := now)
    && c.nodeUuid == row.nodeUuid && c.revision == row.requestedRevision && Of(c.evidence) == row.desiredInput
    && c.recipe == row.recipe && c.attempts == row.attempts + 1
  }

  /** A row in reach whose node no longer reads as the row says is asked for anew. */
  function Superseded(row: Row, reading: Reading, recipe: Recipe, now: int): Row {
    match reading
    case Absent => row
    case Unreadable(uuid) =>
      if row.nodeUuid == uuid && row.desiredInput == Unparsable then row
      else FreshRow(uuid, row.requestedRevision + 1, Unparsable, recipe, Skipped, Some(INVALID_CONTENT), now)
    case Evidence(uuid, e) => FreshRow(uuid, row.requestedRevision + 1, Of(e), recipe, Pending, None, now)
  }

  function GivenUp(row: Row, now: int): Row {
    row.(status := Failed, leaseToken := None, leaseExpiresAt := None, error := Some(LEASE_EXHAUSTED), updatedAt := now)
  }

  // ---------------------------------------------------------------- one turn of the loop

  lemma EnqueueDue(db: Db, n: NodeId, recipe: Recipe, now: int)
    requires n in db.rows && db.rows[n].status in {Pending, Processing} && db.rows[n].recipe == recipe
    ensures var after := EnqueueNode(db, n, true, recipe, now).0;
            && n in after.rows && ReadNode(after, n) == ReadNode(db, n)
            && after.rows[n] == if StillDescribes(db, n) then db.rows[n]
                                else Superseded(db.rows[n], ReadNode(db, n), recipe, now)
  {
    hide WithMemberships;
    hide TopicsFree;
  }

  lemma ClaimOneIs(db: Db, n: NodeId, recipe: Recipe, now: int)
    requires n in db.rows && db.rows[n].status in {Pending, Processing} && db.rows[n].recipe == recipe
    ensures var row, (after, claimed) := db.rows[n], ClaimOne(db, n, db.rows[n], recipe, now);
            && n in after.rows && after.nodes == db.nodes && db.nextToken <= after.nextToken
            && (forall m :: m != n ==> SameFor(db, after, m))
            && (if StillDescribes(db, n) then
                  && claimed.Some? && claimed.value.nodeId == n && db.nextToken <= claimed.value.token < after.nextToken
                  && LeasedTo(row, after.rows[n], claimed.value, now)
                else claimed.None? && after.rows[n] == Superseded(row, ReadNode(db, n), recipe, now))
  {
    EnqueueDue(db, n, recipe, now);
    EnqueueTouchesOnly(db, n, true, recipe, now);
    var mid := EnqueueNode(db, n, true, recipe, now).0;
    hide EnqueueNode;
    hide Superseded;
    var (after, claimed) := ClaimOne(db, n, db.rows[n], recipe, now);
    forall m | m != n ensures SameFor(db, after, m) {
      TouchedElsewhere(db, mid, n, m);
      LeaseElsewhere(mid, after, m, n);
      SameForTransitive(db, mid, after, m);
    }
    hide SameFor;
    hide TouchesOnly;
  }

  lemma LeaseElsewhere(db: Db, after: Db, m: NodeId, n: NodeId)
    requires m != n && after.nodes == db.nodes && after.links == db.links && after.entities == db.entities
    requires after.rows == db.rows || (n in after.rows && after.rows == db.rows[n := after.rows[n]])
    ensures SameFor(db, after, m)
  {
    assert Owned(after, m) == Owned(db, m);
  }

  // ---------------------------------------------------------------- the whole loop

  /** What the loop has done with row `n` of its list. */
  predicate Served(db: Db, after: Db, claims: seq<Claim>, n: NodeId, recipe: Recipe, now: int)
    requires n in db.rows && n in after.rows
  {
    if StillDescribes(db, n) then
      exists c :: c in claims && c.nodeId == n && db.nextToken <= c.token && LeasedTo(db.rows[n], after.rows[n], c, now)
    else (forall c :: c in claims ==> c.nodeId != n)
         && after.rows[n] == Superseded(db.rows[n], ReadNode(db, n), recipe, now)
  }

  /** Claims come in the order of the list. */
  predicate InOrder(claims: seq<Claim>, less: (NodeId, NodeId) -> bool) {
    forall i, j :: 0 <= i < j < |claims| ==> less(claims[i].nodeId, claims[j].nodeId)
  }

  lemma ServedStays(db: Db, before: Db, after: Db, claims: seq<Claim>, claimed: Option<Claim>, m: NodeId,
                    n: NodeId, recipe: Recipe, now: int)
    requires m in db.rows && m in before.rows && Served(db, before, claims, m, recipe, now)
    requires SameFor(before, after, m) && m != n && (claimed.Some? ==> claimed.value.nodeId == n)
    ensures m in after.rows
    ensures Served(db, after, if claimed.Some? then claims + [claimed.value] else claims, m, recipe, now)
  {
    hide LeasedTo;
    hide Superseded;
    var all := if claimed.Some? then claims + [claimed.value] else claims;
    if StillDescribes(db, m) {
      var c :| c in claims && c.nodeId == m && db.nextToken <= c.token
               && LeasedTo(db.rows[m], before.rows[m], c, now);
      assert c in all;
    }
  }

  lemma ServedNow(db: Db, before: Db, after: Db, claims: seq<Claim>, claimed: Option<Claim>, n: NodeId,
                  recipe: Recipe, now: int)
    requires n in db.rows && n in before.rows && SameFor(db, before, n) && n in after.rows
    requires before.nodes == db.nodes && db.nextToken <= before.nextToken && forall c :: c in claims ==> c.nodeId != n
    requires if StillDescribes(before, n) then
               && claimed.Some? && claimed.value.nodeId == n && before.nextToken <= claimed.value.token
               && LeasedTo(before.rows[n], after.rows[n], claimed.value, now)
             else claimed.None? && after.rows[n] == Superseded(before.rows[n], ReadNode(before, n), recipe, now)
    ensures Served(db, after, if claimed.Some? then claims + [claimed.value] else claims, n, recipe, now)
  {
    hide LeasedTo;
    hide Superseded;
    assert StillDescribes(before, n) <==> StillDescribes(db, n);
    if claimed.Some? {
      assert claimed.value in claims + [claimed.value];
    }
  }

  lemma {:induction false} ClaimEachServes(db: Db, found: map<NodeId, Row>, picked: seq<NodeId>, recipe: Recipe,
                                           now: int, less: (NodeId, NodeId) -> bool)
    requires Distinct(picked) && Sorting.Ascending(less, picked)
    requires forall n :: n in picked ==>
               && n in found && n in db.rows && db.rows[n] == found[n]
               && found[n].status in {Pending, Processing} && found[n].recipe == recipe
    ensures var (after, claims) := ClaimEach(db, found, picked, recipe, now);
            && after.nodes == db.nodes && db.nextToken <= after.nextToken
            && (forall m :: m !in picked ==> SameFor(db, after, m))
            && (forall n :: n in picked ==> n in after.rows && Served(db, after, claims, n, recipe, now))
            && (forall c :: c in claims ==> c.nodeId in picked)
            && InOrder(claims, less)
    decreases |picked|
  {
    hide ClaimOne;
    hide Served;
    hide SameFor;
    if picked == [] {
      forall m ensures SameFor(db, db, m) { SameForItself(db, m); }
    } else {
      var last := |picked| - 1;
      var n, init := picked[last], picked[..last];
      assert picked == init + [n] && n !in init;
      ClaimEachServes(db, found, init, recipe, now, less);
      var (before, claims) := ClaimEach(db, found, init, recipe, now);
      var (after, claimed) := ClaimOne(before, n, found[n], recipe, now);
      RowIs(db, before, n);
      ClaimOneIs(before, n, recipe, now);
      ServedNow(db, before, after, claims, claimed, n, recipe, now);
      forall m | m in init
        ensures m in after.rows && Served(db, after, ClaimEach(db, found, picked, recipe, now).1, m, recipe, now)
      {
        ServedStays(db, before, after, claims, claimed, m, n, recipe, now);
      }
      forall m | m !in picked ensures SameFor(db, after, m) {
        SameForTransitive(db, before, after, m);
      }
      InOrderNext(picked, claims, claimed, less);
      hide InOrder;
      hide StillDescribes;
      hide LeasedTo;
      hide Superseded;
      hide Sorting.Ascending;
      hide Distinct;
    }
  }

  lemma InOrderNext(picked: seq<NodeId>, claims: seq<Claim>, claimed: Option<Claim>, less: (NodeId, NodeId) -> bool)
    requires picked != [] && Sorting.Ascending(less, picked) && InOrder(claims, less)
    requires forall c :: c in claims ==> c.nodeId in picked[..|picked| - 1]
    requires claimed.Some? ==> claimed.value.nodeId == picked[|picked| - 1]
    ensures InOrder(if claimed.Some? then claims + [claimed.value] else claims, less)
  {
    var last := |picked| - 1;
    forall c | c in claims ensures less(c.nodeId, picked[last]) {
      var i :| 0 <= i < last && picked[..last][i] == c.nodeId;
      assert picked[i] == c.nodeId;
    }
  }

  lemma RowIs(db: Db, after: Db, n: NodeId)
    requires SameFor(db, after, n) && n in db.rows
    ensures n in after.rows && after.rows[n] == db.rows[n]
  {
  }

  // ---------------------------------------------------------------- the claim itself

  lemma FailedFirst(db: Db, recipe: Recipe, now: int, n: NodeId)
    ensures var ready := WithExhaustedFailed(db, now);
            && ready.nodes == db.nodes && (n in ready.rows <==> n in db.rows) && Owned(ready, n) == Owned(db, n)
            && (n in db.rows ==>
                  && ready.rows[n] == (if Spent(db.rows[n], now) then GivenUp(db.rows[n], now) else db.rows[n])
                  && (Claimable(ready.rows[n], recipe, now) <==> Due(db.rows[n], recipe, now)))
  {
  }

  lemma CandidateIff(db: Db, recipe: Recipe, now: int, m: NodeId)
    ensures m in Candidates(WithExhaustedFailed(db, now), recipe, now) <==> m in db.rows && Due(db.rows[m], recipe, now)
  {
    FailedFirst(db, recipe, now, m);
    hide WithExhaustedFailed;
    hide Claimable;
    hide Due;
  }

  lemma PrecedesIff(db: Db, recipe: Recipe, now: int, m: NodeId, n: NodeId)
    requires m in db.rows && n in db.rows && Due(db.rows[m], recipe, now) && Due(db.rows[n], recipe, now)
    ensures OldestFirst(WithExhaustedFailed(db, now).rows)(m, n) <==> QueuedBefore(db, m, n)
  {
    FailedFirst(db, recipe, now, m);
    FailedFirst(db, recipe, now, n);
    hide WithExhaustedFailed;
  }

  lemma AheadIs(db: Db, recipe: Recipe, now: int, n: NodeId)
    requires n in db.rows && Due(db.rows[n], recipe, now)
    ensures var ready := WithExhaustedFailed(db, now);
            Sorting.Preceding(Candidates(ready, recipe, now), OldestFirst(ready.rows), n) == Ahead(db, n, recipe, now)
  {
    var ready := WithExhaustedFailed(db, now);
    var preceding := Sorting.Preceding(Candidates(ready, recipe, now), OldestFirst(ready.rows), n);
    assert forall m :: m in Ahead(db, n, recipe, now) <==>
             m in db.rows && Due(db.rows[m], recipe, now) && QueuedBefore(db, m, n);
    hide *;
    forall m ensures m in preceding <==> m in Ahead(db, n, recipe, now) {
      CandidateIff(db, recipe, now, m);
      if m in db.rows && Due(db.rows[m], recipe, now) {
        PrecedesIff(db, recipe, now, m, n);
      }
    }
  }

  lemma PickedAreInReach(db: Db, recipe: Recipe, limit: nat, now: int, n: NodeId)
    ensures n in Picked(WithExhaustedFailed(db, now), recipe, limit, now) <==> InReach(db, n, recipe, limit, now)
  {
    var ready := WithExhaustedFailed(db, now);
    var candidates, less := Candidates(ready, recipe, now), OldestFirst(ready.rows);
    CandidateIff(db, recipe, now, n);
    PickedIs(ready, recipe, limit, now);
    hide OldestFirst;
    hide Candidates;
    hide WithExhaustedFailed;
    hide Picked;
    hide Due;
    hide Ahead;
    hide Sorting.Preceding;
    hide Sorting.FirstFew;
    hide Sorting.StrictTotal;
    if n in candidates {
      Sorting.PickedIffFewPrecede(candidates, less, limit, n);
      AheadIs(db, recipe, now, n);
    }
  }

  function Candidates(db: Db, recipe: Recipe, now: int): set<NodeId> {
    set n | n in db.rows && Claimable(db.rows[n], recipe, now)
  }

  lemma PickedIs(db: Db, recipe: Recipe, limit: nat, now: int)
    ensures var less := OldestFirst(db.rows);
            && Sorting.StrictTotal(less)
            && Picked(db, recipe, limit, now) == Sorting.FirstFew(Candidates(db, recipe, now), less, limit)
            && Sorting.Ascending(less, Picked(db, recipe, limit, now))
  {
    assert Candidates(db, recipe, now) == set n | n in db.rows && Claimable(db.rows[n], recipe, now);
    hide Claimable;
    hide Sorting.FirstFew;
  }

  /** A row in reach is served; an overdue one with no attempt left fails; any other is left as it is. */
  predicate Dealt(db: Db, after: Db, claims: seq<Claim>, n: NodeId, recipe: Recipe, limit: nat, now: int)
    requires n in db.rows
  {
    && n in after.rows
    && if InReach(db, n, recipe, limit, now) then Served(db, after, claims, n, recipe, now)
       else && Owned(after, n) == Owned(db, n)
            && after.rows[n] == if Spent(db.rows[n], now) then GivenUp(db.rows[n], now) else db.rows[n]
  }

  lemma ServedSince(db: Db, ready: Db, after: Db, claims: seq<Claim>, n: NodeId, recipe: Recipe, now: int)
    requires n in db.rows && n in ready.rows && ready.rows[n] == db.rows[n] && n in after.rows
    requires ready.nodes == db.nodes && ready.nextToken == db.nextToken && Served(ready, after, claims, n, recipe, now)
    ensures Served(db, after, claims, n, recipe, now)
  {
    hide LeasedTo;
    hide Superseded;
  }

  lemma LeftAlone(db: Db, after: Db, claims: seq<Claim>, n: NodeId, recipe: Recipe, limit: nat, now: int)
    requires n in db.rows && !InReach(db, n, recipe, limit, now) && SameFor(WithExhaustedFailed(db, now), after, n)
    ensures Dealt(db, after, claims, n, recipe, limit, now)
  {
    FailedFirst(db, recipe, now, n);
    hide WithExhaustedFailed;
    hide InReach;
    hide Served;
    hide Owned;
    hide Spent;
  }

  lemma PickedSet(db: Db, recipe: Recipe, limit: nat, now: int)
    ensures var picked := Picked(WithExhaustedFailed(db, now), recipe, limit, now);
            forall n :: n in picked <==> InReach(db, n, recipe, limit, now)
  {
    hide InReach;
    hide Picked;
    forall n
      ensures n in Picked(WithExhaustedFailed(db, now), recipe, limit, now) <==> InReach(db, n, recipe, limit, now)
    {
      PickedAreInReach(db, recipe, limit, now, n);
    }
  }

  lemma FoundRow(db: Db, recipe: Recipe, limit: nat, now: int, n: NodeId)
    requires InReach(db, n, recipe, limit, now)
    ensures var ready := WithExhaustedFailed(db, now);
            && n in ready.rows && ready.rows[n] == db.rows[n]
            && db.rows[n].status in {Pending, Processing} && db.rows[n].recipe == recipe
  {
    FailedFirst(db, recipe, now, n);
    hide WithExhaustedFailed;
    hide Ahead;
  }

  /** Main result: one claim of work, row by row. Exactly the first `limit` due rows are reached. Each of them whose
      node still reads as it did is leased for a minute, and its claim handed out, in queue order; each other is asked
      for anew. */
  lemma ClaimServesTheFirstDue(db: Db, recipe: Recipe, limit: nat, now: int)
    requires 1 <= limit <= 100
    ensures var (after, result) := ClaimWork(db, recipe, limit, now);
            && result.Committed? && after.nodes == db.nodes
            && (forall n :: n in db.rows ==> Dealt(db, after, result.value, n, recipe, limit, now))
            && (forall n :: n in after.rows ==> n in db.rows)
            && (forall c :: c in result.value ==> InReach(db, c.nodeId, recipe, limit, now))
            && InQueueOrder(db, result.value)
  {
    var ready := WithExhaustedFailed(db, now);
    var picked, less := Picked(ready, recipe, limit, now), OldestFirst(ready.rows);
    var (after, claims) := ClaimEach(ready, ready.rows, picked, recipe, now);
    PickedIs(ready, recipe, limit, now);
    PickedSet(db, recipe, limit, now);
    ReadyKeeps(db, now);
    forall n | n in picked
      ensures n in ready.rows && ready.rows[n].status in {Pending, Processing} && ready.rows[n].recipe == recipe
    {
      FoundRow(db, recipe, limit, now, n);
    }
    assert (after, Committed(claims)) == ClaimWork(db, recipe, limit, now);
    hide *;
    ClaimEachServes(ready, ready.rows, picked, recipe, now, less);
    forall n | n in db.rows ensures Dealt(db, after, claims, n, recipe, limit, now) {
      if n in picked {
        FoundRow(db, recipe, limit, now, n);
        ServedSince(db, ready, after, claims, n, recipe, now);
        ReachedIsDealt(db, after, claims, n, recipe, limit, now);
      } else {
        LeftAlone(db, after, claims, n, recipe, limit, now);
      }
    }
    forall n | n in after.rows ensures n in db.rows {
      if n in picked { FoundRow(db, recipe, limit, now, n); } else { RowsSame(ready, after, n); }
    }
    ClaimsInQueueOrder(db, claims, recipe, limit, now);
  }

  predicate InQueueOrder(db: Db, claims: seq<Claim>)
    requires forall c :: c in claims ==> c.nodeId in db.rows
  {
    forall i, j :: 0 <= i < j < |claims| ==> QueuedBefore(db, claims[i].nodeId, claims[j].nodeId)
  }

  lemma ClaimsInQueueOrder(db: Db, claims: seq<Claim>, recipe: Recipe, limit: nat, now: int)
    requires InOrder(claims, OldestFirst(WithExhaustedFailed(db, now).rows))
    requires forall c :: c in claims ==> InReach(db, c.nodeId, recipe, limit, now)
    ensures forall c :: c in claims ==> c.nodeId in db.rows
    ensures InQueueOrder(db, claims)
  {
    forall c | c in claims ensures c.nodeId in db.rows { FoundRow(db, recipe, limit, now, c.nodeId); }
    hide WithExhaustedFailed;
    hide Ahead;
    hide Due;
    forall i, j | 0 <= i < j < |claims| ensures QueuedBefore(db, claims[i].nodeId, claims[j].nodeId) {
      assert claims[i] in claims && claims[j] in claims;
      FoundRow(db, recipe, limit, now, claims[i].nodeId);
      FoundRow(db, recipe, limit, now, claims[j].nodeId);
      OrderIs(db, WithExhaustedFailed(db, now), claims, i, j, OldestFirst(WithExhaustedFailed(db, now).rows));
    }
  }

  lemma ReachedIsDealt(db: Db, after: Db, claims: seq<Claim>, n: NodeId, recipe: Recipe, limit: nat, now: int)
    requires n in db.rows && n in after.rows && InReach(db, n, recipe, limit, now)
    requires Served(db, after, claims, n, recipe, now)
    ensures Dealt(db, after, claims, n, recipe, limit, now)
  {
    hide InReach;
    hide Served;
  }

  lemma ReadyKeeps(db: Db, now: int)
    ensures var ready := WithExhaustedFailed(db, now);
            ready.nodes == db.nodes && ready.nextToken == db.nextToken && ready.rows.Keys == db.rows.Keys
  {
  }

  lemma RowsSame(db: Db, after: Db, n: NodeId)
    requires SameFor(db, after, n)
    ensures n in after.rows <==> n in db.rows
  {
  }

  lemma OrderIs(db: Db, ready: Db, claims: seq<Claim>, i: nat, j: nat, less: (NodeId, NodeId) -> bool)
    requires i < j < |claims| && less == OldestFirst(ready.rows) && InOrder(claims, less)
    requires claims[i].nodeId in db.rows && claims[j].nodeId in db.rows
    requires forall k :: k in {i, j} ==>
               claims[k].nodeId in ready.rows && ready.rows[claims[k].nodeId] == db.rows[claims[k].nodeId]
    ensures QueuedBefore(db, claims[i].nodeId, claims[j].nodeId)
  {
    assert less(claims[i].nodeId, claims[j].nodeId);
    assert i in {i, j} && j in {i, j};
  }

  /** In every reachable state, a lease that is not overdue is never taken away by a claim. */
  lemma LiveLeaseIsKept(w: World, c: Claim, recipe: Recipe, limit: int, now: int)
    requires Reachable(w) && LiveLease(w.db, c, now)
    ensures LiveLease(ClaimWork(w.db, recipe, limit, now).0, c, now)
  {
    var n := c.nodeId;
    EveryReachableRowIsOk(w);
    assert RowOk(w.db, n);
    assert w.db.rows[n].status == Processing && !LeaseOver(w.db.rows[n], now);
    assert !Due(w.db.rows[n], recipe, now) && !Spent(w.db.rows[n], now);
    hide Reachable;
    hide Ok;
    hide RowOk;
    if 1 <= limit <= 100 {
      ClaimServesTheFirstDue(w.db, recipe, limit, now);
      hide ClaimWork;
      assert Dealt(w.db, ClaimWork(w.db, recipe, limit, now).0, ClaimWork(w.db, recipe, limit, now).1.value, n, recipe,
                   limit, now);
      hide Served;
      hide Owned;
      hide Due;
      hide LeaseOver;
    }
  }
}
