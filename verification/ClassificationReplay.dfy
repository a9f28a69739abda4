/** Asking for the same node twice, and replaying a whole backfill page. */
module ClassificationReplay {
  import opened Options
  import opened Lists
  import opened Classification

  // ---------------------------------------------------------------- one node

  /** A call for the node would find nothing to do. */
  predicate Settled(db: Db, n: NodeId, enabled: bool, recipe: Recipe) {
    match ReadNode(db, n)
    case Absent => true
    case Unreadable(uuid) =>
      if n in db.rows then Unchanged(db.rows[n], uuid, Unparsable, recipe, enabled) else !enabled
    case Evidence(uuid, e) =>
      if n !in db.rows then !enabled
      else if IsCurrent(db.rows[n], uuid, e, recipe) && TopicsFree(db, db.rows[n].accepted)
      then Owned(db, n) == Elements(db.rows[n].accepted)
      else Unchanged(db.rows[n], uuid, Of(e), recipe, enabled)
  }

  predicate SkippedRow(db: Db, n: NodeId) {
    n in db.rows && db.rows[n].status == Skipped
  }

  /** What a call may touch: the node's own row and links, and classifier names nobody held. */
  ghost predicate TouchesOnly(db: Db, after: Db, n: NodeId) {
    && after.nodes == db.nodes && after.nextToken == db.nextToken
    && (forall m :: m != n ==> (m in after.rows <==> m in db.rows) && (m in db.rows ==> after.rows[m] == db.rows[m]))
    && (forall m :: m != n ==> Owned(after, m) == Owned(db, m))
    && (forall topics :: TopicsFree(after, topics) <==> TopicsFree(db, topics))
  }

  lemma FreeWith(db: Db, n: NodeId, topics: seq<Topic>, others: seq<Topic>)
    requires TopicsFree(db, topics)
    ensures TopicsFree(WithMemberships(db, n, topics), others) <==> TopicsFree(db, others)
  {
  }

  lemma MembershipsTouchOnly(db: Db, n: NodeId, topics: seq<Topic>)
    requires TopicsFree(db, topics)
    ensures TouchesOnly(db, WithMemberships(db, n, topics), n)
  {
    forall m | m != n ensures Owned(WithMemberships(db, n, topics), m) == Owned(db, m) { OwnedAfter(db, n, topics, m); }
    forall others ensures TopicsFree(WithMemberships(db, n, topics), others) <==> TopicsFree(db, others) {
      FreeWith(db, n, topics, others);
    }
    hide TopicsFree;
    hide Owned;
  }

  lemma RequeueTouchesOnly(db: Db, n: NodeId, uuid: string, input: Fingerprint, recipe: Recipe,
                           enabled: bool, error: Option<string>, now: int)
    ensures TouchesOnly(db, Requeued(db, n, uuid, input, recipe, enabled, error, now), n)
  {
    hide FreshRow;
  }

  lemma EnqueueTouchesOnly(db: Db, n: NodeId, enabled: bool, recipe: Recipe, now: int)
    ensures TouchesOnly(db, EnqueueNode(db, n, enabled, recipe, now).0, n)
  {
    hide TouchesOnly;
    hide Requeued;
    hide WithMemberships;
    hide Unchanged;
    hide IsCurrent;
    assert TouchesOnly(db, db, n) by { TouchesNothing(db, n); }
    forall uuid, input, error: Option<string>
      ensures TouchesOnly(db, Requeued(db, n, uuid, input, recipe, enabled, error, now), n)
    {
      RequeueTouchesOnly(db, n, uuid, input, recipe, enabled, error, now);
    }
    if n in db.rows && TopicsFree(db, db.rows[n].accepted) {
      MembershipsTouchOnly(db, n, db.rows[n].accepted);
    }
  }

  lemma TouchesNothing(db: Db, n: NodeId)
    ensures TouchesOnly(db, db, n)
  {
  }

  /** A call does nothing exactly when the node is settled; otherwise it shows on the node's row or links. */
  lemma IdleIffSettled(db: Db, n: NodeId, enabled: bool, recipe: Recipe, now: int)
    ensures var after := EnqueueNode(db, n, enabled, recipe, now).0;
            && (after == db <==> Settled(db, n, enabled, recipe))
            && (after != db ==>
                  n in after.rows && (n !in db.rows || after.rows[n] != db.rows[n] || Owned(after, n) != Owned(db, n)))
  {
    hide Unchanged;
    hide IsCurrent;
    hide TopicsFree;
    if n in db.rows {
      OwnedAfter(db, n, db.rows[n].accepted, n);
    }
    hide Owned;
  }

  lemma RequeuedSettles(db: Db, n: NodeId, uuid: string, input: Fingerprint, recipe: Recipe,
                        enabled: bool, error: Option<string>, now: int)
    requires match ReadNode(db, n)
             case Absent => false
             case Unreadable(u) => u == uuid && input == Unparsable
             case Evidence(u, e) => u == uuid && input == Of(e)
    ensures var after := Requeued(db, n, uuid, input, recipe, enabled, error, now);
            Settled(after, n, enabled, recipe) <==> !(enabled && SkippedRow(after, n))
  {
    hide Owned;
    hide TopicsFree;
  }

  lemma RestoredSettles(db: Db, n: NodeId, enabled: bool, recipe: Recipe)
    requires n in db.rows && TopicsFree(db, db.rows[n].accepted)
    requires ReadNode(db, n).Evidence? && IsCurrent(db.rows[n], ReadNode(db, n).uuid, ReadNode(db, n).evidence, recipe)
    ensures var after := WithMemberships(db, n, db.rows[n].accepted);
            Settled(after, n, enabled, recipe) && !SkippedRow(after, n)
  {
    var topics := db.rows[n].accepted;
    OwnedAfter(db, n, topics, n);
    FreeWith(db, n, topics, topics);
    hide Owned;
    hide TopicsFree;
  }

  lemma UnchangedIsSettled(row: Row, uuid: string, input: Fingerprint, recipe: Recipe, enabled: bool)
    requires Unchanged(row, uuid, input, recipe, enabled)
    ensures row.status != Ready && !(enabled && row.status == Skipped)
  {
  }

  /** After a call the node is settled, unless the call was to leave work and could only skip it. */
  lemma SettledUnlessSkipped(db: Db, n: NodeId, enabled: bool, recipe: Recipe, now: int)
    ensures var after := EnqueueNode(db, n, enabled, recipe, now).0;
            Settled(after, n, enabled, recipe) <==> !(enabled && n in db.nodes && SkippedRow(after, n))
  {
    hide Requeued;
    hide WithMemberships;
    hide Unchanged;
    hide TopicsFree;
    hide Owned;
    var after := EnqueueNode(db, n, enabled, recipe, now).0;
    IdleIffSettled(db, n, enabled, recipe, now);
    match ReadNode(db, n)
    case Absent =>
    case Unreadable(uuid) =>
      RequeuedSettles(db, n, uuid, Unparsable, recipe, enabled, Some(INVALID_CONTENT), now);
      if n in db.rows && Unchanged(db.rows[n], uuid, Unparsable, recipe, enabled) {
        UnchangedIsSettled(db.rows[n], uuid, Unparsable, recipe, enabled);
      }
    case Evidence(uuid, e) =>
      RequeuedSettles(db, n, uuid, Of(e), recipe, enabled, None, now);
      RequeuedSettles(db, n, uuid, Of(e), recipe, enabled, Some(TOPIC_TAKEN), now);
      if n in db.rows {
        if IsCurrent(db.rows[n], uuid, e, recipe) && TopicsFree(db, db.rows[n].accepted) {
          RestoredSettles(db, n, enabled, recipe);
        }
        if Unchanged(db.rows[n], uuid, Of(e), recipe, enabled) {
          UnchangedIsSettled(db.rows[n], uuid, Of(e), recipe, enabled);
        }
      }
  }

  /** The node's content does not parse, or its result is current but a source entity holds one of its topics. */
  predicate WillSkip(db: Db, n: NodeId, recipe: Recipe) {
    match ReadNode(db, n)
    case Absent => false
    case Unreadable(uuid) => !(n in db.rows && Unchanged(db.rows[n], uuid, Unparsable, recipe, true))
    case Evidence(uuid, e) =>
      n in db.rows && IsCurrent(db.rows[n], uuid, e, recipe) && !TopicsFree(db, db.rows[n].accepted)
  }

  lemma SkipsIff(db: Db, n: NodeId, recipe: Recipe, now: int)
    requires n in db.nodes
    ensures SkippedRow(EnqueueNode(db, n, true, recipe, now).0, n) <==> WillSkip(db, n, recipe)
  {
    hide TopicsFree;
    hide Owned;
  }

  /** Asking twice with the same arguments leaves the tables as asking once does, exactly unless work was wanted
      and the first call had to skip it; the second call queues work exactly if it was skipped for its topics. */
  lemma EnqueueTwice(db: Db, n: NodeId, enabled: bool, recipe: Recipe, now: int, later: int)
    ensures var once := EnqueueNode(db, n, enabled, recipe, now).0;
            var (twice, queued) := EnqueueNode(once, n, enabled, recipe, later);
            && (twice == once <==> !(enabled && WillSkip(db, n, recipe)))
            && (queued <==> enabled && WillSkip(db, n, recipe) && ReadNode(db, n).Evidence?)
  {
    SettledUnlessSkipped(db, n, enabled, recipe, now);
    var once := EnqueueNode(db, n, enabled, recipe, now).0;
    if enabled && n in db.nodes {
      SkipsIff(db, n, recipe, now);
    }
    EnqueueTouchesOnly(db, n, enabled, recipe, now);
    IdleIffSettled(once, n, enabled, recipe, later);
    QueuesIff(once, n, enabled, recipe, later);
    hide EnqueueNode;
    hide Unchanged;
    hide TopicsFree;
    hide Owned;
  }

  /** A settled node is never queued; one whose row was skipped is, if its content can be read. */
  lemma QueuesIff(db: Db, n: NodeId, enabled: bool, recipe: Recipe, now: int)
    ensures var queued := EnqueueNode(db, n, enabled, recipe, now).1;
            && (queued ==> enabled && ReadNode(db, n).Evidence? && !Settled(db, n, enabled, recipe))
            && (enabled && ReadNode(db, n).Evidence? && SkippedRow(db, n) ==> queued)
  {
    hide TopicsFree;
    hide Owned;
  }

  function RevisionOf(db: Db, n: NodeId): nat {
    if n in db.rows then db.rows[n].requestedRevision else 0
  }

  /** The same node asked for `times` times over. */
  function EnqueueTimes(db: Db, n: NodeId, recipe: Recipe, now: int, times: nat): Db {
    if times == 0 then db else EnqueueNode(EnqueueTimes(db, n, recipe, now, times - 1), n, true, recipe, now).0
  }

  /** A row that was asked for content that does not parse is a skipped one. */
  predicate UnparsableIsSkipped(db: Db, n: NodeId) {
    n in db.rows && db.rows[n].desiredInput == Unparsable ==> db.rows[n].status == Skipped
  }

  lemma UnreadableIsSkipped(db: Db, n: NodeId, recipe: Recipe, now: int)
    requires n in db.nodes && db.nodes[n].evidence.None? && UnparsableIsSkipped(db, n)
    ensures var after := EnqueueNode(db, n, true, recipe, now).0;
            && after.nodes == db.nodes && SkippedRow(after, n) && UnparsableIsSkipped(after, n)
            && RevisionOf(after, n) == RevisionOf(db, n) + 1
  {
    hide WithMemberships;
    hide IsCurrent;
    hide TopicsFree;
  }

  /** Content that does not parse is skipped at every call, each time under a new revision, whatever row there was. */
  lemma {:induction false} UnreadableIsSkippedAgain(db: Db, n: NodeId, recipe: Recipe, now: int, times: nat)
    requires n in db.nodes && db.nodes[n].evidence.None? && UnparsableIsSkipped(db, n)
    ensures var after := EnqueueTimes(db, n, recipe, now, times);
            && after.nodes == db.nodes && UnparsableIsSkipped(after, n)
            && (times > 0 ==> SkippedRow(after, n))
            && RevisionOf(after, n) == RevisionOf(db, n) + times
  {
    hide EnqueueNode;
    hide SkippedRow;
    hide RevisionOf;
    hide UnparsableIsSkipped;
    if times > 0 {
      UnreadableIsSkippedAgain(db, n, recipe, now, times - 1);
      UnreadableIsSkipped(EnqueueTimes(db, n, recipe, now, times - 1), n, recipe, now);
    }
  }

  /** A current result whose topic name was taken is skipped by the first call and queued by the second. */
  lemma TakenTopicIsQueuedAgain(db: Db, n: NodeId, recipe: Recipe, now: int, later: int)
    requires n in db.rows && ReadNode(db, n).Evidence? && !TopicsFree(db, db.rows[n].accepted)
    requires IsCurrent(db.rows[n], ReadNode(db, n).uuid, ReadNode(db, n).evidence, recipe)
    ensures var (once, first) := EnqueueNode(db, n, true, recipe, now);
            var (twice, second) := EnqueueNode(once, n, true, recipe, later);
            && !first && n in once.rows && once.rows[n].status == Skipped
            && second && n in twice.rows && twice.rows[n].status == Pending
            && twice.rows[n].requestedRevision == once.rows[n].requestedRevision + 1
  {
    hide TopicsFree;
  }

  // ---------------------------------------------------------------- a whole page

  /** `classification.backfill`: every id in turn, counting what was queued. */
  function EnqueueEach(db: Db, page: seq<NodeId>, recipe: Recipe, now: int): (Db, nat) {
    if page == [] then (db, 0)
    else
      var (before, queued) := EnqueueEach(db, page[..|page| - 1], recipe, now);
      var (after, one) := EnqueueNode(before, page[|page| - 1], true, recipe, now);
      (after, if one then queued + 1 else queued)
  }

  /** The nodes of a page whose rows were skipped although their content can be read. */
  function Recoverable(db: Db, page: seq<NodeId>): set<NodeId> {
    set n | n in page && SkippedRow(db, n) && ReadNode(db, n).Evidence?
  }

  /** Nothing about node `m` or what it depends on changed. */
  ghost predicate SameFor(db: Db, after: Db, m: NodeId) {
    && after.nodes == db.nodes
    && (m in after.rows <==> m in db.rows) && (m in db.rows ==> after.rows[m] == db.rows[m])
    && Owned(after, m) == Owned(db, m)
    && (forall topics :: TopicsFree(after, topics) <==> TopicsFree(db, topics))
  }

  lemma TouchedElsewhere(db: Db, after: Db, n: NodeId, m: NodeId)
    requires TouchesOnly(db, after, n) && m != n
    ensures SameFor(db, after, m)
  {
  }

  lemma SameForSettled(db: Db, after: Db, m: NodeId, recipe: Recipe)
    requires SameFor(db, after, m)
    ensures Settled(after, m, true, recipe) <==> Settled(db, m, true, recipe)
    ensures SkippedRow(after, m) <==> SkippedRow(db, m)
    ensures WillSkip(after, m, recipe) <==> WillSkip(db, m, recipe)
    ensures ReadNode(after, m) == ReadNode(db, m)
  {
    hide Owned;
    hide TopicsFree;
  }

  lemma SameForTransitive(a: Db, b: Db, c: Db, m: NodeId)
    requires SameFor(a, b, m) && SameFor(b, c, m)
    ensures SameFor(a, c, m)
  {
    hide Owned;
    hide TopicsFree;
  }

  lemma {:induction false} PageTouchesOnly(db: Db, page: seq<NodeId>, recipe: Recipe, now: int, m: NodeId)
    ensures var after := EnqueueEach(db, page, recipe, now).0;
            after.nodes == db.nodes && (m !in page ==> SameFor(db, after, m))
  {
    hide SameFor;
    if page == [] {
      assert SameFor(db, db, m) by { SameForItself(db, m); }
    } else {
      var n, init := page[|page| - 1], page[..|page| - 1];
      var before := EnqueueEach(db, init, recipe, now).0;
      PageTouchesOnly(db, init, recipe, now, m);
      EnqueueTouchesOnly(before, n, true, recipe, now);
      hide EnqueueNode;
      assert page == init + [n];
      if m != n {
        TouchedElsewhere(before, EnqueueNode(before, n, true, recipe, now).0, n, m);
        if m !in init {
          SameForTransitive(db, before, EnqueueNode(before, n, true, recipe, now).0, m);
        }
      }
    }
  }

  lemma SameForItself(db: Db, m: NodeId)
    ensures SameFor(db, db, m)
  {
  }

  /** After a page, each of its nodes is settled exactly unless it had to be skipped. */
  lemma {:induction false} PageSettles(db: Db, page: seq<NodeId>, recipe: Recipe, now: int)
    requires Distinct(page) && forall n :: n in page ==> n in db.nodes
    ensures var after := EnqueueEach(db, page, recipe, now).0;
            forall n :: n in page ==>
              && (SkippedRow(after, n) <==> WillSkip(db, n, recipe))
              && (Settled(after, n, true, recipe) <==> !SkippedRow(after, n))
  {
    if page != [] {
      var last, init := page[|page| - 1], page[..|page| - 1];
      assert page == init + [last] && last in page;
      var before := EnqueueEach(db, init, recipe, now).0;
      var after := EnqueueNode(before, last, true, recipe, now).0;
      PageSettles(db, init, recipe, now);
      PageTouchesOnly(db, init, recipe, now, last);
      SameForSettled(db, before, last, recipe);
      SettledUnlessSkipped(before, last, true, recipe, now);
      SkipsIff(before, last, recipe, now);
      EnqueueTouchesOnly(before, last, true, recipe, now);
      hide EnqueueNode;
      hide Settled;
      hide WillSkip;
      hide SkippedRow;
      hide TouchesOnly;
      hide SameFor;
      assert after == EnqueueEach(db, page, recipe, now).0;
      forall n | n in page
        ensures SkippedRow(after, n) <==> WillSkip(db, n, recipe)
        ensures Settled(after, n, true, recipe) <==> !SkippedRow(after, n)
      {
        if n != last {
          TouchedElsewhere(before, after, last, n);
          SameForSettled(before, after, n, recipe);
        }
      }
    }
  }

  lemma RecoverableNext(db: Db, page: seq<NodeId>, last: NodeId)
    requires last !in page
    ensures |Recoverable(db, page + [last])|
         == |Recoverable(db, page)| + if SkippedRow(db, last) && ReadNode(db, last).Evidence? then 1 else 0
  {
    assert Recoverable(db, page + [last])
        == Recoverable(db, page) + if SkippedRow(db, last) && ReadNode(db, last).Evidence? then {last} else {};
  }

  /** A page does nothing exactly when none of its nodes was skipped, and queues what was skipped but can be read. */
  lemma {:induction false} PageIdleIffSettled(db: Db, page: seq<NodeId>, recipe: Recipe, now: int)
    requires Distinct(page) && forall n :: n in page ==> (Settled(db, n, true, recipe) <==> !SkippedRow(db, n))
    ensures var (after, queued) := EnqueueEach(db, page, recipe, now);
            && (after == db <==> forall n :: n in page ==> !SkippedRow(db, n))
            && queued == |Recoverable(db, page)|
            && forall n :: n in page && SkippedRow(db, n) ==>
                 n in after.rows && (after.rows[n] != db.rows[n] || Owned(after, n) != Owned(db, n))
  {
    if page != [] {
      var last, init := page[|page| - 1], page[..|page| - 1];
      assert page == init + [last] && last !in init;
      PageIdleIffSettled(db, init, recipe, now);
      var before := EnqueueEach(db, init, recipe, now).0;
      PageTouchesOnly(db, init, recipe, now, last);
      SameForSettled(db, before, last, recipe);
      IdleIffSettled(before, last, true, recipe, now);
      QueuesIff(before, last, true, recipe, now);
      EnqueueTouchesOnly(before, last, true, recipe, now);
      hide EnqueueNode;
      hide Settled;
      hide Owned;
      hide TopicsFree;
      hide WillSkip;
      RecoverableNext(db, init, last);
      hide Recoverable;
    }
  }

  /** The nodes of a page that can be read but have to be skipped for their topics. */
  function Displaced(db: Db, page: seq<NodeId>, recipe: Recipe): set<NodeId> {
    set n | n in page && WillSkip(db, n, recipe) && ReadNode(db, n).Evidence?
  }

  lemma SkippedIsDisplaced(db: Db, once: Db, page: seq<NodeId>, recipe: Recipe)
    requires once.nodes == db.nodes && forall n :: n in page ==> (SkippedRow(once, n) <==> WillSkip(db, n, recipe))
    ensures Recoverable(once, page) == Displaced(db, page, recipe)
  {
    hide WillSkip;
    hide SkippedRow;
  }

  /** A page replayed after its commit comes to the same tables exactly if the first pass had to skip none of its
      nodes; the replay asks for the skipped ones again, and queues those whose content can be read. */
  lemma ReplayedPage(db: Db, page: seq<NodeId>, recipe: Recipe, now: int, later: int)
    requires Distinct(page) && forall n :: n in page ==> n in db.nodes
    ensures var once := EnqueueEach(db, page, recipe, now).0;
            var (twice, queued) := EnqueueEach(once, page, recipe, later);
            && (twice == once <==> forall n :: n in page ==> !WillSkip(db, n, recipe))
            && queued == |Displaced(db, page, recipe)|
  {
    var once := EnqueueEach(db, page, recipe, now).0;
    PageSettles(db, page, recipe, now);
    PageIdleIffSettled(once, page, recipe, later);
    PageTouchesOnly(db, page, recipe, now, 0);
    hide EnqueueEach;
    hide WillSkip;
    hide Settled;
    hide SkippedRow;
    hide Displaced;
    hide Recoverable;
    SkippedIsDisplaced(db, once, page, recipe);
  }
}
