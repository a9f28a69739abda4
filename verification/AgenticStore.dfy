/** The agentic tables as the source changes them: one method per transaction, statement by statement,
    each proved against the state it must leave behind. */
module AgenticStore {
  import opened Options
  import Lists
  import opened Agentic

  class Store {
    var segments: map<SegId, Segment>
    var queue: map<SegId, QueueRow>
    var nodes: map<NodeId, NodeType>
    var links: set<(NodeId, SegId)>
    var labels: set<(NodeId, Label)>
    var vectors: set<NodeId>

    constructor ()
      ensures State() == Db(map[], map[], map[], {}, {}, {})
    {
      segments, queue, nodes, links, labels, vectors := map[], map[], map[], {}, {}, {};
    }

    function State(): Db
      reads this
    {
      Db(segments, queue, nodes, links, labels, vectors)
    }

    // -------------------------------------------------------------- claiming

    method LockGroup(cwd: string, limit: int, staleBefore: int, now: int) returns (picked: seq<SegId>)
      modifies this`queue
      ensures (State(), picked) == ClaimGroup(old(State()), cwd, limit, staleBefore, now)
    {
      hide PickedIn;
      picked := PickedIn(State(), cwd, limit, staleBefore);
      var locked := Lists.Elements(picked);
      queue := map s | s in queue ::
        if s in locked then queue[s].(status := Processing, lockedAt := Some(now)) else queue[s];
    }

    method ClaimPending(groups: seq<string>, maxClaimBatch: Option<int>, staleBefore: int, now: int)
      returns (claimed: seq<SegId>)
      modifies this`queue
      ensures (State(), claimed) ==
              ClaimGroups(old(State()), groups, if maxClaimBatch.Some? then maxClaimBatch.value else -1,
                          staleBefore, now)
    {
      hide ClaimGroup;
      var remaining := if maxClaimBatch.Some? then maxClaimBatch.value else -1;
      ghost var budget := remaining;
      claimed := [];
      var i := 0;
      assert groups[0..] == groups && [] + ClaimGroups(State(), groups, budget, staleBefore, now).1
                                      == ClaimGroups(State(), groups, budget, staleBefore, now).1;
      while i < |groups| && remaining != 0
        invariant 0 <= i <= |groups|
        invariant var (after, more) := ClaimGroups(State(), groups[i..], remaining, staleBefore, now);
                  (after, claimed + more) == ClaimGroups(old(State()), groups, budget, staleBefore, now)
      {
        ghost var (after, more) := ClaimGroups(State(), groups[i..], remaining, staleBefore, now);
        var picked := LockGroup(groups[i], remaining, staleBefore, now);
        if remaining > 0 {
          remaining := remaining - |picked|;
        }
        assert groups[i..][1..] == groups[i + 1..];
        ghost var rest := ClaimGroups(State(), groups[i + 1..], remaining, staleBefore, now);
        assert more == picked + rest.1 && after == rest.0;
        assert claimed + (picked + rest.1) == (claimed + picked) + rest.1;
        claimed := claimed + picked;
        i := i + 1;
      }
      assert claimed + [] == claimed;
    }

    method Retire(s: SegId, status: Status)
      modifies this`segments, this`queue
      ensures State() == Retired(old(State()), s, status)
    {
      if s in queue {
        queue := queue[s := queue[s].(status := status, lockedAt := None)];
      }
      if s in segments {
        segments := segments[s := segments[s].(enriched := true)];
      }
    }

    method DropAlreadyEnriched(claims: seq<Claim>) returns (kept: seq<Claim>)
      modifies this`segments, this`queue
      ensures (State(), kept) == DropEnriched(old(State()), claims)
    {
      hide Retired;
      kept := [];
      for i := 0 to |claims|
        invariant (State(), kept) == DropEnriched(old(State()), claims[..i])
      {
        assert claims[..i + 1][..i] == claims[..i];
        var c := claims[i];
        if c.hash.Some? && c.hash == c.watermark && HasNode(State(), c.segment) {
          Retire(c.segment, Done);
        } else {
          kept := kept + [c];
        }
      }
      assert claims[..|claims|] == claims;
    }

    method SkipNotEligible(claims: seq<Claim>, eligible: set<SegId>) returns (kept: seq<Claim>)
      modifies this`segments, this`queue
      ensures (State(), kept) == SkipIneligible(old(State()), claims, eligible)
    {
      kept := [];
      for i := 0 to |claims|
        invariant (State(), kept) == SkipIneligible(old(State()), claims[..i], eligible)
      {
        assert claims[..i + 1][..i] == claims[..i];
        var c := claims[i];
        if c.segment in eligible {
          kept := kept + [c];
        } else {
          Retire(c.segment, Skipped);
          if c.hash.Some? && c.segment in segments && segments[c.segment].hash == c.hash {
            segments := segments[c.segment := segments[c.segment].(watermark := c.hash)];
          }
        }
      }
      assert claims[..|claims|] == claims;
    }

    // -------------------------------------------------------------- writing

    method ReleaseChanged(ids: seq<SegId>, hashes: Hashes) returns (stale: bool)
      requires Aligned(ids, hashes)
      modifies this`queue
      ensures stale <==> Changed(old(State()), ids, hashes)
      ensures State() == if stale then Released(old(State()), Lists.Elements(ids)) else old(State())
    {
      if hashes.None? {
        return false;
      }
      stale := false;
      for i := 0 to |ids|
        invariant stale <==> exists k :: 0 <= k < i && !IsCurrent(State(), ids[k], hashes.value[k])
      {
        if !IsCurrent(State(), ids[i], hashes.value[i]) {
          stale := true;
        }
      }
      if stale {
        var batch := Lists.Elements(ids);
        queue := map s | s in queue ::
          if s in batch && queue[s].status == Processing
          then queue[s].(status := Waiting, lockedAt := None) else queue[s];
      }
    }

    method ReplacePrior(within: set<SegId>, vectorsReachable: bool) returns (reachable: bool)
      modifies this`nodes, this`links, this`labels, this`vectors
      ensures reachable <==> Prior(old(State()), within) == {} || vectorsReachable
      ensures State() == if reachable then WithoutNodes(old(State()), Prior(old(State()), within)) else old(State())
    {
      hide Prior;
      var prior := Prior(State(), within);
      if prior == {} {
        assert WithoutNodes(State(), {}) == State();
        return true;
      }
      if !vectorsReachable {
        return false;
      }
      var rest := prior;
      assert WithoutNodes(State(), {}) == State();
      hide WithoutNodes;
      while rest != {}
        invariant rest <= prior
        invariant State() == WithoutNodes(old(State()), prior - rest)
        decreases rest
      {
        var n :| n in rest;
        DeleteNode(n);
        DeletedTwice(old(State()), prior - rest, n);
        assert prior - (rest - {n}) == (prior - rest) + {n};
        rest := rest - {n};
      }
      assert prior - rest == prior;
      reachable := true;
    }

    /** Links first, then the vector, then the node. */
    method DeleteNode(n: NodeId)
      modifies this`nodes, this`links, this`labels, this`vectors
      ensures State() == WithoutNodes(old(State()), {n})
    {
      links := set l | l in links && l.0 != n;
      labels := set l | l in labels && l.0 != n;
      vectors := vectors - {n};
      nodes := nodes - {n};
    }

    /** Fails on a missing segment or a repeated one, with some rows already inserted. */
    method LinkSegments(n: NodeId, ids: seq<SegId>) returns (linked: bool)
      requires forall l :: l in links ==> l.0 != n
      modifies this`links
      ensures linked <==> Linkable(old(State()), ids)
      ensures linked ==> links == old(links) + set s | s in Lists.Elements(ids) :: (n, s)
    {
      for i := 0 to |ids|
        invariant forall k :: 0 <= k < i ==> ids[k] in segments
        invariant Lists.Distinct(ids[..i])
        invariant forall l :: l in links <==> l in old(links) || (l.0 == n && l.1 in ids[..i])
      {
        if ids[i] !in segments || (n, ids[i]) in links {
          assert (n, ids[i]) in links ==> ids[i] in ids[..i];
          return false;
        }
        links := links + {(n, ids[i])};
        assert ids[..i + 1] == ids[..i] + [ids[i]];
      }
      assert ids[..|ids|] == ids;
      linked := true;
    }

    method MarkWatermarks(ids: seq<SegId>, hashes: Hashes)
      requires Aligned(ids, hashes)
      modifies this`segments
      ensures State() == WithWatermarks(old(State()), ids, hashes)
    {
      if hashes.None? {
        return;
      }
      for i := 0 to |ids|
        invariant State() == WithWatermarks(old(State()), ids[..i], Some(hashes.value[..i]))
      {
        assert ids[..i + 1][..i] == ids[..i] && hashes.value[..i + 1][..i] == hashes.value[..i];
        if hashes.value[i].Some? && ids[i] in segments {
          segments := segments[ids[i] := segments[ids[i]].(watermark := hashes.value[i])];
        }
      }
      assert ids[..|ids|] == ids && hashes.value[..|ids|] == hashes.value;
    }

    method WriteNode(ids: seq<SegId>, hashes: Hashes, entities: set<Label>, vectorsReachable: bool)
      returns (result: Outcome<Option<NodeId>, AgenticError>)
      requires forall l :: l in links ==> l.0 in nodes
      modifies this
      ensures (State(), result) == Write(old(State()), ids, hashes, entities, vectorsReachable)
    {
      if !Aligned(ids, hashes) {
        return Raised(LengthMismatch);
      }
      hide Prior;
      hide WithWatermarks;
      hide Changed;
      hide NextNode;
      hide Linkable;
      var stale := ReleaseChanged(ids, hashes);
      if stale {
        return Committed(None);
      }
      var within := Lists.Elements(ids);
      var was := State();
      var reachable := ReplacePrior(within, vectorsReachable);
      if !reachable {
        return Raised(VectorsUnreachable);
      }
      var n := NextNode(State());
      nodes := nodes[n := Observation];
      LinkableIn(was, State(), ids);
      var linked := LinkSegments(n, ids);
      if !linked {
        nodes, links, labels, vectors := was.nodes, was.links, was.labels, was.vectors;
        return Raised(ConstraintViolation);
      }
      labels := labels + set l | l in entities :: (n, l);
      segments := map s | s in segments :: if s in within then segments[s].(enriched := true) else segments[s];
      queue := map s | s in queue :: if s in within then queue[s].(status := Done) else queue[s];
      assert State() == WithEnriched(WithNode(WithoutNodes(was, Prior(was, within)), within, entities), within);
      MarkWatermarks(ids, hashes);
      result := Committed(Some(n));
    }

    // -------------------------------------------------------------- failure

    method FailSegment(s: SegId, h: Option<Hash>)
      modifies this`queue, this`segments
      ensures State() == FailOne(old(State()), s, h)
    {
      if s in queue {
        var retries := queue[s].retries + 1;
        var status := if retries >= queue[s].maxRetries then Failed else Waiting;
        queue := queue[s := queue[s].(retries := retries, lockedAt := None, status := status)];
      }
      if h.Some? && s in segments && segments[s].hash == h && s in queue && queue[s].status == Failed {
        segments := segments[s := segments[s].(watermark := h)];
      }
    }

    method MarkQueueFailed(ids: seq<SegId>, hashes: Hashes) returns (result: Outcome<(), AgenticError>)
      modifies this`queue, this`segments
      ensures (State(), result) == MarkFailed(old(State()), ids, hashes)
    {
      if !Aligned(ids, hashes) {
        return Raised(LengthMismatch);
      }
      hide FailOne;
      hide Changed;
      var stale := ReleaseChanged(ids, hashes);
      if stale {
        return Committed(());
      }
      for i := 0 to |ids|
        invariant State() == FailEach(old(State()), ids[..i], if hashes.Some? then Some(hashes.value[..i]) else None)
      {
        assert ids[..i + 1][..i] == ids[..i];
        assert hashes.Some? ==> hashes.value[..i + 1][..i] == hashes.value[..i];
        FailSegment(ids[i], if hashes.Some? then hashes.value[i] else None);
      }
      assert ids[..|ids|] == ids && (hashes.Some? ==> hashes.value[..|ids|] == hashes.value);
      result := Committed(());
    }
  }

  lemma LinkableIn(db: Db, other: Db, ids: seq<SegId>)
    requires other.segments == db.segments
    ensures Linkable(other, ids) <==> Linkable(db, ids)
  {
  }

  lemma DeletedTwice(db: Db, gone: set<NodeId>, n: NodeId)
    ensures WithoutNodes(WithoutNodes(db, gone), {n}) == WithoutNodes(db, gone + {n})
  {
  }

  // ---------------------------------------------------------------- the claim budget

  /** A segment of one of the groups that is free to be claimed. */
  predicate ClaimableAny(db: Db, groups: seq<string>, staleBefore: int, s: SegId) {
    exists g :: g in groups && Claimable(db, s, g, staleBefore)
  }

  /** Claiming takes each free segment at most once, never more than the budget, and stops short of the
      budget only when nothing free is left. */
  lemma {:induction false} ClaimsFitTheBudget(db: Db, groups: seq<string>, budget: int, staleBefore: int, now: int)
    requires Lists.Distinct(groups)
    ensures var (after, claimed) := ClaimGroups(db, groups, budget, staleBefore, now);
            && Lists.Distinct(claimed)
            && (forall s :: s in claimed ==> ClaimableAny(db, groups, staleBefore, s))
            && (budget >= 0 ==> |claimed| <= budget)
            && (budget < 0 || |claimed| < budget ==>
                  forall s :: ClaimableAny(db, groups, staleBefore, s) ==> s in claimed)
            && after == WithLocked(db, Lists.Elements(claimed), now)
    decreases |groups|
  {
    hide PickedIn;
    hide Claimable;
    hide ClaimableAny;
    if groups == [] || budget == 0 {
      assert WithLocked(db, {}, now).queue == db.queue;
      if groups == [] { NoGroupNoClaim(db, staleBefore); }
    } else {
      var picked, rest := PickedIn(db, groups[0], budget, staleBefore), groups[1..];
      var mid := WithLocked(db, Lists.Elements(picked), now);
      hide WithLocked;
      var more := ClaimGroups(mid, rest, Left(budget, |picked|), staleBefore, now).1;
      assert groups == [groups[0]] + rest;
      ClaimsFitTheBudget(mid, rest, Left(budget, |picked|), staleBefore, now);
      hide ClaimGroups;
      GroupThenRest(db, mid, groups, picked, more, budget, staleBefore, now);
      LockedTwice(db, picked, more, now);
    }
  }

  lemma NoGroupNoClaim(db: Db, staleBefore: int)
    ensures forall s :: !ClaimableAny(db, [], staleBefore, s)
  {
  }

  lemma GroupThenRest(db: Db, mid: Db, groups: seq<string>, picked: seq<SegId>, more: seq<SegId>,
                      budget: int, staleBefore: int, now: int)
    requires groups != [] && Lists.Distinct(groups) && Lists.Distinct(picked) && Lists.Distinct(more)
    requires mid == WithLocked(db, Lists.Elements(picked), now)
    requires forall s :: s in picked ==> Claimable(db, s, groups[0], staleBefore)
    requires forall s :: s in more ==> ClaimableAny(mid, groups[1..], staleBefore, s)
    ensures Lists.Distinct(picked + more)
    ensures forall s :: s in picked + more ==> ClaimableAny(db, groups, staleBefore, s)
    ensures forall s :: ClaimableAny(db, groups, staleBefore, s) <==>
              Claimable(db, s, groups[0], staleBefore) || ClaimableAny(mid, groups[1..], staleBefore, s)
  {
    var rest := groups[1..];
    assert forall g :: g in groups <==> g == groups[0] || g in rest;
    assert groups[0] !in rest;
    forall s, g | g in rest ensures Claimable(mid, s, g, staleBefore) <==> Claimable(db, s, g, staleBefore) {
      OtherGroupUntouched(db, picked, groups[0], staleBefore, now, s, g);
    }
    forall s | s in more ensures s !in picked {
      var g :| g in rest && Claimable(mid, s, g, staleBefore);
      OneGroupOnly(db, s, g, groups[0], staleBefore);
    }
    Lists.DistinctConcat(picked, more);
    hide Claimable;
    forall s ensures ClaimableAny(db, groups, staleBefore, s) <==>
              Claimable(db, s, groups[0], staleBefore) || ClaimableAny(mid, rest, staleBefore, s)
    {
      assert groups[0] in groups;
      if ClaimableAny(db, groups, staleBefore, s) {
        var g :| g in groups && Claimable(db, s, g, staleBefore);
        assert g in rest ==> Claimable(mid, s, g, staleBefore);
      }
      if ClaimableAny(mid, rest, staleBefore, s) {
        var g :| g in rest && Claimable(mid, s, g, staleBefore);
        assert Claimable(db, s, g, staleBefore);
      }
    }
    assert forall s :: s in more ==> ClaimableAny(mid, rest, staleBefore, s);
  }

  lemma OneGroupOnly(db: Db, s: SegId, g: string, h: string, staleBefore: int)
    requires Claimable(db, s, g, staleBefore) && g != h
    ensures !Claimable(db, s, h, staleBefore)
  {
  }

  lemma OtherGroupUntouched(db: Db, picked: seq<SegId>, cwd: string, staleBefore: int, now: int, s: SegId, g: string)
    requires g != cwd && forall p :: p in picked ==> Claimable(db, p, cwd, staleBefore)
    ensures Claimable(WithLocked(db, Lists.Elements(picked), now), s, g, staleBefore) <==>
            Claimable(db, s, g, staleBefore)
  {
  }

  lemma LockedTwice(db: Db, picked: seq<SegId>, more: seq<SegId>, now: int)
    ensures WithLocked(WithLocked(db, Lists.Elements(picked), now), Lists.Elements(more), now)
         == WithLocked(db, Lists.Elements(picked + more), now)
  {
  }
}
