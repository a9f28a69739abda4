/** The classification tables as the source changes them: one method per transaction, statement by
    statement, each proved against the state it must leave behind. */
module ClassificationStore {
  import opened Options
  import opened Lists
  import opened Classification

  class Store {
    var nodes: map<NodeId, Node>
    var rows: map<NodeId, Row>
    var entities: map<Topic, Owner>
    var links: set<(NodeId, Topic)>
    var nextToken: Token

    constructor ()
      ensures State() == Db(map[], map[], map[], {}, 0)
    {
      nodes, rows, entities, links, nextToken := map[], map[], map[], {}, 0;
    }

    function State(): Db
      reads this
    {
      Db(nodes, rows, entities, links, nextToken)
    }

    method RemoveMemberships(n: NodeId)
      modifies this`links
      ensures State() == Unlinked(old(State()), n)
    {
      links := set l | l in links && l.0 != n;
    }

    /** Refuses a topic whose name a source entity holds before touching anything. */
    method ReplaceMemberships(n: NodeId, topics: seq<Topic>) returns (free: bool)
      modifies this`links, this`entities
      ensures free <==> TopicsFree(old(State()), topics)
      ensures State() == if free then WithMemberships(old(State()), n, topics) else old(State())
    {
      for i := 0 to |topics|
        invariant forall k :: 0 <= k < i && topics[k] in entities ==> entities[topics[k]] == Classifier
      {
        if topics[i] in entities && entities[topics[i]] != Classifier {
          return false;
        }
      }
      free := true;
      if Owned(State(), n) == Elements(topics) {
        return;
      }
      RemoveMemberships(n);
      LinkAll(n, topics);
    }

    method LinkAll(n: NodeId, topics: seq<Topic>)
      modifies this`links, this`entities
      ensures links == old(links) + set t | t in topics :: (n, t)
      ensures entities == old(entities) + map t | t in topics :: Classifier
    {
      for i := 0 to |topics|
        invariant forall l :: l in links <==> l in old(links) || (l.0 == n && l.1 in topics[..i])
        invariant forall t :: t in entities <==> t in old(entities) || t in topics[..i]
        invariant forall t :: t in entities ==> entities[t] == if t in topics[..i] then Classifier else old(entities)[t]
      {
        entities := entities[topics[i] := Classifier];
        links := links + {(n, topics[i])};
      }
    }

    method Enqueue(n: NodeId, enabled: bool, recipe: Recipe, now: int) returns (queued: bool)
      modifies this`rows, this`links, this`entities
      ensures (State(), queued) == EnqueueNode(old(State()), n, enabled, recipe, now)
    {
      if !enabled && n !in rows {
        return false;
      }
      var uuid, input;
      var error: Option<string> := None;
      match ReadNode(State(), n) {
        case Absent =>
          return false;
        case Unreadable(u) =>
          uuid, input, error := u, Unparsable, Some(INVALID_CONTENT);
        case Evidence(u, e) =>
          uuid, input := u, Of(e);
          if n in rows && IsCurrent(rows[n], u, e, recipe) {
            var free := ReplaceMemberships(n, rows[n].accepted);
            if free {
              return false;
            }
            error := Some(TOPIC_TAKEN);
          }
      }
      if n in rows && Unchanged(rows[n], uuid, input, recipe, enabled) {
        return false;
      }
      RemoveMemberships(n);
      var revision := if n in rows then rows[n].requestedRevision + 1 else 1;
      var status := if enabled && error.None? then Pending else Skipped;
      var text := if error.Some? then error else if enabled then None else Some(DISABLED);
      rows := rows[n := FreshRow(uuid, revision, input, recipe, status, text, now)];
      queued := status == Pending;
    }

    method ClaimRow(n: NodeId, row: Row, recipe: Recipe, now: int) returns (claimed: Option<Claim>)
      modifies this`rows, this`links, this`entities, this`nextToken
      ensures (State(), claimed) == ClaimOne(old(State()), n, row, recipe, now)
    {
      var _ := Enqueue(n, true, recipe, now);
      var read := ReadNode(State(), n);
      if !read.Evidence? || read.uuid != row.nodeUuid || Of(read.evidence) != row.desiredInput {
        return None;
      }
      var token := nextToken;
      nextToken := nextToken + 1;
      if && n in rows
         && rows[n].requestedRevision == row.requestedRevision
         && rows[n].recipe == recipe
         && rows[n].status in {Pending, Processing}
      {
        rows := rows[n := Leased(rows[n], token, now)];
        return Some(Claim(n, read.uuid, row.requestedRevision, read.evidence, recipe, token, row.attempts + 1));
      }
      return None;
    }

    method FailExhausted(now: int)
      modifies this`rows
      ensures State() == WithExhaustedFailed(old(State()), now)
    {
      rows := WithExhaustedFailed(State(), now).rows;
    }

    method ClaimPending(recipe: Recipe, limit: int, now: int) returns (result: Outcome<seq<Claim>, ClaimError>)
      modifies this`rows, this`links, this`entities, this`nextToken
      ensures (State(), result) == ClaimWork(old(State()), recipe, limit, now)
    {
      if !(1 <= limit <= 100) {
        return Raised(InvalidLimit);
      }
      hide ClaimOne;
      hide ClaimEach;
      hide Picked;
      hide Claimable;
      hide WithExhaustedFailed;
      FailExhausted(now);
      ghost var ready := State();
      var found := rows;
      var picked := Picked(State(), recipe, limit, now);
      var claims: seq<Claim> := [];
      ClaimNone(ready, found, recipe, now);
      for i := 0 to |picked|
        invariant (State(), claims) == ClaimEach(ready, found, picked[..i], recipe, now)
      {
        ClaimEachNext(ready, found, picked, i, recipe, now);
        var claimed := ClaimRow(picked[i], found[picked[i]], recipe, now);
        if claimed.Some? {
          claims := claims + [claimed.value];
        }
      }
      assert picked[..|picked|] == picked;
      result := Committed(claims);
    }

    method Apply(work: Claim, response: Response, recipe: Recipe, now: int)
      returns (result: Outcome<bool, ApplyError>)
      modifies this`rows, this`links, this`entities
      ensures (State(), result) == ApplyResult(old(State()), work, response, recipe, now)
    {
      if !ValidResponse(response, recipe) {
        return Raised(InvalidResponse);
      }
      if !Matches(State(), work, recipe, now) {
        return Committed(false);
      }
      var accepted := Accepted(recipe, response.nouls);
      var free := ReplaceMemberships(work.nodeId, accepted);
      if !free {
        return Raised(TopicOwnership);
      }
      rows := rows[work.nodeId := PublishedRow(rows[work.nodeId], accepted, response.nouls, response.model, now)];
      result := Committed(true);
    }

    method Fail(work: Claim, error: string, transient: bool, retryAfterMs: int, consumeAttempt: bool, now: int)
      requires work.attempts >= 1
      modifies this`rows
      ensures State() == FailWork(old(State()), work, error, transient, retryAfterMs, consumeAttempt, now)
    {
      var attempts := if consumeAttempt then work.attempts else work.attempts - 1;
      var status := if transient && attempts < MAX_ATTEMPTS then Pending else Failed;
      var backoff := 1000 * Pow2(work.attempts - 1);
      var delay := if retryAfterMs > backoff then retryAfterMs else backoff;
      var n := work.nodeId;
      if n in rows && rows[n].leaseToken == Some(work.token) && rows[n].requestedRevision == work.revision {
        rows := rows[n := rows[n].(status := status, attempts := attempts, nextAttemptAt := now + delay,
                                   leaseToken := None, leaseExpiresAt := None,
                                   error := Some(Truncated(error)), updatedAt := now)];
      }
    }
  }

  lemma ClaimNone(db: Db, found: map<NodeId, Row>, recipe: Recipe, now: int)
    ensures ClaimEach(db, found, [], recipe, now) == (db, [])
  {
  }

  lemma ClaimEachNext(db: Db, found: map<NodeId, Row>, picked: seq<NodeId>, i: nat, recipe: Recipe, now: int)
    requires i < |picked| && forall n :: n in picked ==> n in found
    ensures var (before, claims) := ClaimEach(db, found, picked[..i], recipe, now);
            var (after, claimed) := ClaimOne(before, picked[i], found[picked[i]], recipe, now);
            ClaimEach(db, found, picked[..i + 1], recipe, now)
            == (after, if claimed.Some? then claims + [claimed.value] else claims)
  {
    hide ClaimOne;
    assert picked[..i + 1][..i] == picked[..i];
  }
}
