/** What each transaction on agentic segments does to every row, said from the rows before it. */
module AgenticOutcomes {
  import opened Options
  import Lists
  import opened Agentic
  import Sorting

  // ---------------------------------------------------------------- claiming

  /** Waiting, or held by someone whose lock went stale. */
  predicate Free(row: QueueRow, staleBefore: int) {
    match row.status
    case Waiting => true
    case Processing => if row.lockedAt.Some? then row.lockedAt.value <= staleBefore else 0 <= staleBefore
    case _ => false
  }

  predicate FreeIn(db: Db, s: SegId, cwd: string, staleBefore: int) {
    s in db.queue && s in db.segments && db.segments[s].cwd == cwd && Free(db.queue[s], staleBefore)
  }

  /** Started earlier, or at the same time and queued earlier. */
  predicate Sooner(db: Db, a: SegId, b: SegId)
    requires a in db.queue && b in db.queue && a in db.segments && b in db.segments
  {
    || db.segments[a].startTime < db.segments[b].startTime
    || (db.segments[a].startTime == db.segments[b].startTime
        && (db.queue[a].id < db.queue[b].id || (db.queue[a].id == db.queue[b].id && a < b)))
  }

  function SoonerIn(db: Db, s: SegId, cwd: string, staleBefore: int): set<SegId>
    requires FreeIn(db, s, cwd, staleBefore)
  {
    set m | m in db.queue && FreeIn(db, m, cwd, staleBefore) && Sooner(db, m, s)
  }

  lemma FreeIff(db: Db, s: SegId, cwd: string, staleBefore: int)
    ensures s in ClaimableIn(db, cwd, staleBefore) <==> FreeIn(db, s, cwd, staleBefore)
  {
  }

  lemma EarliestIsAnOrder(db: Db)
    ensures Sorting.StrictTotal(Earliest(db))
  {
  }

  lemma EarliestIs(db: Db, a: SegId, b: SegId)
    requires a in db.queue && b in db.queue && a in db.segments && b in db.segments
    ensures Earliest(db)(a, b) <==> Sooner(db, a, b)
  {
  }

  lemma SoonerIs(db: Db, s: SegId, cwd: string, staleBefore: int)
    requires FreeIn(db, s, cwd, staleBefore)
    ensures Sorting.Preceding(ClaimableIn(db, cwd, staleBefore), Earliest(db), s) == SoonerIn(db, s, cwd, staleBefore)
  {
    var preceding := Sorting.Preceding(ClaimableIn(db, cwd, staleBefore), Earliest(db), s);
    assert forall m :: m in SoonerIn(db, s, cwd, staleBefore) <==>
             m in db.queue && FreeIn(db, m, cwd, staleBefore) && Sooner(db, m, s);
    assert s in db.queue && s in db.segments;
    hide SoonerIn;
    hide Earliest;
    hide ClaimableIn;
    hide Sooner;
    hide Free;
    forall m ensures m in preceding <==> m in SoonerIn(db, s, cwd, staleBefore) {
      FreeIff(db, m, cwd, staleBefore);
      if FreeIn(db, m, cwd, staleBefore) {
        EarliestIs(db, m, s);
      }
    }
  }

  lemma PickedInIs(db: Db, cwd: string, limit: int, staleBefore: int)
    ensures Sorting.StrictTotal(Earliest(db))
    ensures var found := ClaimableIn(db, cwd, staleBefore);
            PickedIn(db, cwd, limit, staleBefore)
            == Sorting.FirstFew(found, Earliest(db), if limit < 0 then |found| else limit)
  {
    EarliestIsAnOrder(db);
    hide Sorting.FirstFew;
  }

  /** A claim in one directory takes exactly the free segments that fewer than `limit` others there come before, all
      of them without a limit; it locks their queue rows now, and no other row changes. */
  lemma GroupTakesTheEarliest(db: Db, cwd: string, limit: int, staleBefore: int, now: int, s: SegId)
    ensures var (after, picked) := ClaimGroup(db, cwd, limit, staleBefore, now);
            && (s in picked <==>
                  FreeIn(db, s, cwd, staleBefore) && (limit < 0 || |SoonerIn(db, s, cwd, staleBefore)| < limit))
            && after == db.(queue := after.queue) && (s in after.queue <==> s in db.queue)
            && (s in db.queue ==>
                  after.queue[s] == if s in picked then db.queue[s].(status := Processing, lockedAt := Some(now))
                                    else db.queue[s])
  {
    var found := ClaimableIn(db, cwd, staleBefore);
    PickedInIs(db, cwd, limit, staleBefore);
    FreeIff(db, s, cwd, staleBefore);
    hide PickedIn;
    hide Sorting.FirstFew;
    hide ClaimableIn;
    if s in found {
      SoonerIs(db, s, cwd, staleBefore);
      Sorting.PickedIffFewPrecede(found, Earliest(db), if limit < 0 then |found| else limit, s);
      if limit < 0 {
        FewerPrecede(found, Earliest(db), s);
      }
    }
    hide Sorting.Preceding;
    hide Sorting.StrictTotal;
    hide Free;
    hide SoonerIn;
  }

  lemma FewerPrecede(found: set<SegId>, less: (SegId, SegId) -> bool, s: SegId)
    requires Sorting.StrictTotal(less) && s in found
    ensures |Sorting.Preceding(found, less, s)| < |found|
  {
    Sorting.Ordered(less, s, s, s);
    var before := Sorting.Preceding(found, less, s);
    hide Sorting.StrictTotal;
    hide Sorting.Preceding;
    Sorting.SubsetCount(before + {s}, found);
  }

  // ---------------------------------------------------------------- already enriched

  ghost function Unless(claims: seq<Claim>, drop: Claim -> bool): seq<Claim> {
    if claims == [] then []
    else
      var last := claims[|claims| - 1];
      Unless(claims[..|claims| - 1], drop) + if drop(last) then [] else [last]
  }

  /** The content is the one the watermark stands for, and the segment has a link. */
  ghost predicate Known(db: Db, c: Claim) {
    c.hash.Some? && c.watermark == c.hash && exists n :: (n, c.segment) in db.links
  }

  ghost predicate Drops(db: Db, claims: seq<Claim>, s: SegId) {
    exists c :: c in claims && c.segment == s && Known(db, c)
  }

  lemma KnownIff(db: Db, c: Claim)
    ensures LooksEnriched(db, c) <==> Known(db, c)
  {
    if LooksEnriched(db, c) {
      var l :| l in db.links && l.1 == c.segment;
      assert (l.0, c.segment) in db.links;
    }
    if Known(db, c) {
      var n :| (n, c.segment) in db.links;
      var l := (n, c.segment);
      assert l in db.links && l.1 == c.segment;
    }
  }

  /** A row taken out of the queue, or left as it is. */
  predicate Closed(db: Db, after: Db, s: SegId, closed: bool, status: Status) {
    && (s in after.queue <==> s in db.queue)
    && (s in db.queue ==>
          after.queue[s] == if closed then db.queue[s].(status := status, lockedAt := None) else db.queue[s])
    && (s in after.segments <==> s in db.segments)
  }

  /** Dropping what is already enriched keeps exactly the other claims, in order. Queue rows of what is dropped end
      done and unlocked, its segments are marked enriched, and nothing else changes. */
  lemma {:induction false} DropKeepsTheOthers(db: Db, claims: seq<Claim>, s: SegId)
    ensures var (after, kept) := DropEnriched(db, claims);
            && kept == Unless(claims, (c: Claim) => Known(db, c))
            && after == db.(queue := after.queue, segments := after.segments)
            && Closed(db, after, s, Drops(db, claims, s), Done)
            && (s in db.segments ==>
                  after.segments[s] == if Drops(db, claims, s) then db.segments[s].(enriched := true)
                                       else db.segments[s])
  {
    if claims != [] {
      var c, init := claims[|claims| - 1], claims[..|claims| - 1];
      assert claims == init + [c];
      DropKeepsTheOthers(db, init, s);
      KnownIff(DropEnriched(db, init).0, c);
      assert Known(DropEnriched(db, init).0, c) <==> Known(db, c);
      assert Drops(db, claims, s) <==> Drops(db, init, s) || (c.segment == s && Known(db, c));
      hide LooksEnriched;
      hide Known;
      hide Drops;
    }
  }

  // ---------------------------------------------------------------- not worth enriching

  predicate Refuses(claims: seq<Claim>, eligible: set<SegId>, s: SegId) {
    s !in eligible && exists c :: c in claims && c.segment == s
  }

  /** The content the row holds now is the content a claim was about. */
  predicate Judged(db: Db, claims: seq<Claim>, s: SegId)
    requires s in db.segments
  {
    db.segments[s].hash.Some? && exists c :: c in claims && c.segment == s && c.hash == db.segments[s].hash
  }

  /** Skipping keeps exactly the eligible claims, in order. Queue rows of the others end skipped and unlocked, their
      segments are marked enriched and closed on the content they hold if that was judged; nothing else changes. */
  lemma {:induction false} SkipKeepsTheEligible(db: Db, claims: seq<Claim>, eligible: set<SegId>, s: SegId)
    ensures var (after, kept) := SkipIneligible(db, claims, eligible);
            && kept == Unless(claims, (c: Claim) => c.segment !in eligible)
            && after == db.(queue := after.queue, segments := after.segments)
            && Closed(db, after, s, Refuses(claims, eligible, s), Skipped)
            && (s in db.segments ==>
                  after.segments[s]
                  == if !Refuses(claims, eligible, s) then db.segments[s]
                     else if Judged(db, claims, s)
                     then db.segments[s].(enriched := true, watermark := db.segments[s].hash)
                     else db.segments[s].(enriched := true))
  {
    if claims != [] {
      var c, init := claims[|claims| - 1], claims[..|claims| - 1];
      assert claims == init + [c];
      SkipKeepsTheEligible(db, init, eligible, s);
      RefusesNext(init, c, eligible, s);
      if s in db.segments {
        JudgedNext(db, init, c, s);
      }
      hide Refuses;
      hide Judged;
    }
  }

  lemma RefusesNext(claims: seq<Claim>, c: Claim, eligible: set<SegId>, s: SegId)
    ensures Refuses(claims + [c], eligible, s) <==> Refuses(claims, eligible, s) || (c.segment == s && s !in eligible)
    ensures s in eligible ==> !Refuses(claims, eligible, s)
  {
  }

  lemma JudgedNext(db: Db, claims: seq<Claim>, c: Claim, s: SegId)
    requires s in db.segments
    ensures Judged(db, claims + [c], s) <==>
              Judged(db, claims, s) || (c.segment == s && db.segments[s].hash.Some? && c.hash == db.segments[s].hash)
    ensures (forall d :: d in claims ==> d.segment != s) ==> !Judged(db, claims, s)
  {
  }

  // ---------------------------------------------------------------- failing

  /** The same batch failing `times` times, one after the other. */
  function FailedTimes(db: Db, ids: seq<SegId>, hashes: Hashes, times: nat): Db {
    if times == 0 then db else MarkFailed(FailedTimes(db, ids, hashes, times - 1), ids, hashes).0
  }

  predicate RunsOut(row: QueueRow, charges: nat) {
    row.retries + charges >= row.maxRetries
  }

  /** The row and the segment after some charges: failed and closed on its content exactly from the last retry on. */
  predicate Charged(db: Db, after: Db, s: SegId, charges: nat, attempted: bool) {
    && (s in after.queue <==> s in db.queue) && (s in after.segments <==> s in db.segments)
    && (s in db.queue ==>
          after.queue[s] == if charges == 0 then db.queue[s]
                            else db.queue[s].(retries := db.queue[s].retries + charges, lockedAt := None,
                                              status := if RunsOut(db.queue[s], charges) then Failed else Waiting))
    && (s in db.segments ==>
          after.segments[s] == if charges > 0 && attempted && db.segments[s].hash.Some?
                                  && s in db.queue && RunsOut(db.queue[s], charges)
                               then db.segments[s].(watermark := db.segments[s].hash) else db.segments[s])
  }

  lemma FailOneCharges(db: Db, s: SegId, h: Option<Hash>, attempted: bool, m: SegId)
    requires if attempted then IsCurrent(db, s, h) else h.None?
    ensures var after := FailOne(db, s, h);
            && after == db.(queue := after.queue, segments := after.segments)
            && Charged(db, after, m, if m == s then 1 else 0, attempted)
  {
  }

  lemma {:induction false} FailEachCharges(db: Db, ids: seq<SegId>, hashes: Hashes, s: SegId)
    requires Aligned(ids, hashes) && !Changed(db, ids, hashes) && Lists.Distinct(ids)
    ensures var after := FailEach(db, ids, hashes);
            && after == db.(queue := after.queue, segments := after.segments)
            && Charged(db, after, s, if s in ids then 1 else 0, hashes.Some?)
    decreases |ids|
  {
    if ids != [] {
      var k := |ids| - 1;
      var rest := if hashes.Some? then Some(hashes.value[..k]) else None;
      var before, h := FailEach(db, ids[..k], rest), if hashes.Some? then hashes.value[k] else None;
      assert ids == ids[..k] + [ids[k]] && ids[k] !in ids[..k];
      FailEachCharges(db, ids[..k], rest, s);
      FailEachCharges(db, ids[..k], rest, ids[k]);
      assert hashes.Some? ==> IsCurrent(db, ids[k], h);
      FailOneCharges(before, ids[k], h, hashes.Some?, s);
      hide FailOne;
    }
  }

  /** However often an unchanged batch of distinct segments fails: each queued member is charged once each time and
      unlocked, failed exactly from its last retry on and waiting before; its watermark closes on its content exactly
      then, if the caller says what was attempted; and no other row changes. */
  lemma {:induction false} FailuresChargeTheBatch(db: Db, ids: seq<SegId>, hashes: Hashes, times: nat, s: SegId)
    requires Aligned(ids, hashes) && !Changed(db, ids, hashes) && Lists.Distinct(ids)
    ensures var after := FailedTimes(db, ids, hashes, times);
            && after == db.(queue := after.queue, segments := after.segments)
            && !Changed(after, ids, hashes)
            && Charged(db, after, s, if s in ids then times else 0, hashes.Some?)
  {
    if times > 0 {
      var before := FailedTimes(db, ids, hashes, times - 1);
      FailuresChargeTheBatch(db, ids, hashes, times - 1, s);
      FailEachCharges(before, ids, hashes, s);
      var after := FailedTimes(db, ids, hashes, times);
      assert after == FailEach(before, ids, hashes);
      forall i | 0 <= i < |ids| && hashes.Some? ensures IsCurrent(after, ids[i], hashes.value[i]) {
        FailEachCharges(before, ids, hashes, ids[i]);
        assert IsCurrent(before, ids[i], hashes.value[i]);
      }
      hide FailEach;
    }
  }

  // ---------------------------------------------------------------- writing

  /** Some node of the batch would be replaced. */
  ghost predicate Replaces(db: Db, ids: seq<SegId>) {
    exists n: NodeId, s: SegId :: s in ids && Observes(db, n, s) && forall t: SegId :: (n, t) in db.links ==> t in ids
  }

  lemma ReplacesIff(db: Db, ids: seq<SegId>)
    ensures Replaces(db, ids) <==> Prior(db, Lists.Elements(ids)) != {}
  {
    var within := Lists.Elements(ids);
    var prior := Prior(db, within);
    hide Prior;
    if Replaces(db, ids) {
      var n: NodeId, s: SegId :|
        s in ids && Observes(db, n, s) && forall t: SegId :: (n, t) in db.links ==> t in ids;
      forall l | l in db.links && l.0 == n ensures l.1 in within { assert (n, l.1) in db.links; }
      assert n in prior;
    }
    if prior != {} {
      var n :| n in prior;
      var s :| s in within && Observes(db, n, s);
      forall t: SegId | (n, t) in db.links ensures t in ids { assert (n, t).1 in within; }
      assert s in ids && Observes(db, n, s);
    }
  }

  /** Which way a write goes: released if a member changed, else refused if it cannot delete the vectors of what it
      replaces, else refused if a member is missing or named twice, else published. */
  lemma WriteGoes(db: Db, ids: seq<SegId>, hashes: Hashes, labels: set<Label>, vectorsReachable: bool)
    requires Aligned(ids, hashes)
    ensures var result := Write(db, ids, hashes, labels, vectorsReachable).1;
            if hashes.Some? && exists i :: 0 <= i < |ids| && !IsCurrent(db, ids[i], hashes.value[i])
            then result == Committed(None)
            else if Replaces(db, ids) && !vectorsReachable then result == Raised(VectorsUnreachable)
            else if (exists i :: 0 <= i < |ids| && ids[i] !in db.segments) || !Lists.Distinct(ids)
            then result == Raised(ConstraintViolation)
            else result.Committed? && result.value.Some?
  {
    ReplacesIff(db, ids);
    hide Prior;
    hide Replaces;
    hide WithWatermarks;
    hide Lists.Distinct;
  }

  /** A publication ends its members' queue rows and marks their segments enriched; no other row or segment changes,
      and if nothing is published no segment does. */
  lemma WriteFinishesTheBatch(db: Db, ids: seq<SegId>, hashes: Hashes, labels: set<Label>, vectorsReachable: bool,
                              s: SegId)
    requires Aligned(ids, hashes)
    ensures var (after, result) := Write(db, ids, hashes, labels, vectorsReachable);
            var published := result.Committed? && result.value.Some?;
            && (s in after.queue <==> s in db.queue) && (s in after.segments <==> s in db.segments)
            && (published && s in db.queue ==>
                  after.queue[s] == if s in ids then db.queue[s].(status := Done) else db.queue[s])
            && (s in db.segments ==>
                  after.segments[s].(watermark := None)
                  == if published && s in ids then db.segments[s].(enriched := true, watermark := None)
                     else db.segments[s].(watermark := None))
  {
    hide Prior;
    hide NextNode;
    hide Changed;
    hide WithWatermarks;
    if Aligned(ids, hashes) {
      var within := Lists.Elements(ids);
      var cleared := WithoutNodes(db, Prior(db, within));
      WatermarksOnlyMove(WithEnriched(WithNode(cleared, within, labels), within), ids, hashes, s);
    }
  }

  lemma {:induction false} WatermarksOnlyMove(db: Db, ids: seq<SegId>, hashes: Hashes, s: SegId)
    requires Aligned(ids, hashes)
    ensures var after := WithWatermarks(db, ids, hashes);
            && after.queue == db.queue && (s in after.segments <==> s in db.segments)
            && (s in db.segments ==> after.segments[s].(watermark := None) == db.segments[s].(watermark := None))
    decreases |ids|
  {
    if hashes.Some? && ids != [] {
      WatermarksOnlyMove(db, ids[..|ids| - 1], Some(hashes.value[..|ids| - 1]), s);
    }
  }
}
