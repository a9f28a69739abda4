/** Operator retry: ask again for failed rows, oldest first, stepping over rows whose node moved on. */
module ClassificationRetry {
  import opened Options
  import opened Classification
  import opened ClassificationStore
  import opened ClassificationRuns
  import Sorting

  const RETRYABLE: set<string> := {"HTTPStatusError", LEASE_EXHAUSTED}

  datatype RetryError = UnsupportedReason | LimitOutOfRange
  datatype Tally = Tally(selected: nat, requeued: nat)

  /** What the query selects, before looking at the node. */
  predicate Listed(db: Db, n: NodeId, errors: set<string>, recipe: Recipe) {
    && n in db.rows
    && db.rows[n].status == Failed
    && db.rows[n].error.Some? && db.rows[n].error.value in errors
    && db.rows[n].recipe == recipe
    && db.rows[n].appliedRevision.None?
  }

  function UpdatedAt(db: Db, n: NodeId): int {
    if n in db.rows then db.rows[n].updatedAt else 0
  }

  predicate Earlier(db: Db, a: NodeId, b: NodeId) {
    UpdatedAt(db, a) < UpdatedAt(db, b) || (UpdatedAt(db, a) == UpdatedAt(db, b) && a < b)
  }

  function ByUpdate(db: Db): (NodeId, NodeId) -> bool {
    (a: NodeId, b: NodeId) => Earlier(db, a, b)
  }

  predicate PastKey(db: Db, n: NodeId, key: Option<(int, NodeId)>) {
    key.None? || UpdatedAt(db, n) > key.value.0 || (UpdatedAt(db, n) == key.value.0 && n > key.value.1)
  }

  /** `page` is the next page of listed rows behind the moving key. */
  ghost predicate IsPage(db: Db, page: seq<NodeId>, errors: set<string>, recipe: Recipe, key: Option<(int, NodeId)>) {
    && (forall n :: n in page ==> Listed(db, n, errors, recipe) && PastKey(db, n, key))
    && (forall i, j :: 0 <= i < j < |page| ==> Earlier(db, page[i], page[j]))
    && (forall n, i :: Listed(db, n, errors, recipe) && PastKey(db, n, key) && n !in page && 0 <= i < |page|
          ==> Earlier(db, page[i], n))
    && (page == [] ==> forall n :: Listed(db, n, errors, recipe) ==> !PastKey(db, n, key))
  }

  method SelectPage(db: Db, errors: set<string>, recipe: Recipe, key: Option<(int, NodeId)>, room: nat)
    returns (page: seq<NodeId>)
    requires room > 0
    ensures |page| <= room && IsPage(db, page, errors, recipe, key)
  {
    var less := ByUpdate(db);
    assert Sorting.StrictTotal(less);
    var candidates := set n | n in db.rows && Listed(db, n, errors, recipe) && PastKey(db, n, key);
    page := Sorting.FirstFew(candidates, less, room);
    assert forall i, j :: 0 <= i < j < |page| ==> less(page[i], page[j]);
    assert forall n, i :: n in candidates && n !in page && 0 <= i < |page| ==> less(page[i], n);
    assert page == [] ==> candidates == {};
    assert forall n :: Listed(db, n, errors, recipe) && PastKey(db, n, key) ==> n in candidates;
  }

  /** The operator's request is met by the earliest-updated rows that still describe their node. */
  ghost predicate RetriesFirst(db: Db, who: set<NodeId>, errors: set<string>, recipe: Recipe, limit: nat) {
    && (forall n :: n in who ==> Retriable(db, n, errors, recipe))
    && |who| <= limit
    && (|who| < limit ==> forall n :: Retriable(db, n, errors, recipe) ==> n in who)
    && (forall m, n :: m in who && Retriable(db, n, errors, recipe) && n !in who ==> Earlier(db, m, n))
  }

  /** There is only one such choice. */
  lemma RetriesFirstIsUnique(db: Db, a: set<NodeId>, b: set<NodeId>, errors: set<string>, recipe: Recipe, limit: nat)
    requires RetriesFirst(db, a, errors, recipe, limit) && RetriesFirst(db, b, errors, recipe, limit)
    ensures a == b
  {
    if exists m :: m in a && m !in b {
      var m :| m in a && m !in b;
      assert forall n :: n in b && n !in a ==> Earlier(db, m, n) && Earlier(db, n, m);
      Smaller(b, a, m);
    } else if n :| n in b && n !in a {
      Smaller(a, b, n);
    }
  }

  lemma Smaller(small: set<NodeId>, big: set<NodeId>, x: NodeId)
    requires small <= big && x in big && x !in small
    ensures |small| < |big|
  {
    assert small <= big - {x};
    Within(small, big - {x});
  }

  lemma Within(small: set<NodeId>, big: set<NodeId>)
    requires small <= big
    ensures |small| <= |big|
  {
    assert big == small + (big - small);
  }

  /** A failed row of this recipe that was given up for one of these reasons, never had a result, and still asks for
      what its node says. */
  predicate MayRetry(db: Db, n: NodeId, errors: set<string>, recipe: Recipe) {
    && n in db.rows && n in db.nodes
    && var row, node := db.rows[n], db.nodes[n];
    && row.status == Failed && row.recipe == recipe && row.appliedRevision == None
    && (match row.error case Some(why) => why in errors case None => false)
    && (match node.evidence case Some(e) => row.desiredInput == Of(e) case None => false) && row.nodeUuid == node.uuid
  }

  predicate TriedBefore(db: Db, m: NodeId, n: NodeId)
    requires m in db.rows && n in db.rows
  {
    db.rows[m].updatedAt < db.rows[n].updatedAt || (db.rows[m].updatedAt == db.rows[n].updatedAt && m < n)
  }

  function TriedEarlier(db: Db, n: NodeId, errors: set<string>, recipe: Recipe): set<NodeId>
    requires n in db.rows
  {
    set m | m in db.rows && MayRetry(db, m, errors, recipe) && TriedBefore(db, m, n)
  }

  lemma MayRetryIff(db: Db, n: NodeId, errors: set<string>, recipe: Recipe)
    ensures MayRetry(db, n, errors, recipe) <==> Retriable(db, n, errors, recipe)
  {
  }

  lemma FirstAreFirst(db: Db, candidates: set<NodeId>, errors: set<string>, recipe: Recipe, limit: nat,
                      less: (NodeId, NodeId) -> bool)
    requires forall n :: n in candidates <==> Retriable(db, n, errors, recipe)
    requires Sorting.StrictTotal(less) && forall m, n :: less(m, n) <==> Earlier(db, m, n)
    ensures RetriesFirst(db, Lists.Elements(Sorting.FirstFew(candidates, less, limit)), errors, recipe, limit)
  {
    hide Retriable;
    hide Earlier;
    hide Sorting.StrictTotal;
    hide Sorting.FirstFew;
    var few := Sorting.FirstFew(candidates, less, limit);
    Lists.ElementCount(few);
    forall m, n | m in Lists.Elements(few) && Retriable(db, n, errors, recipe) && n !in Lists.Elements(few)
      ensures Earlier(db, m, n)
    {
      var i :| 0 <= i < |few| && few[i] == m;
      assert n in candidates && n !in few;
      assert less(few[i], n);
    }
  }

  /** Such a choice takes exactly the rows that may be retried and that fewer than `limit` others were tried before. */
  lemma RetriesTheEarliest(db: Db, who: set<NodeId>, errors: set<string>, recipe: Recipe, limit: nat, n: NodeId)
    requires RetriesFirst(db, who, errors, recipe, limit)
    ensures n in who <==>
              MayRetry(db, n, errors, recipe) && |TriedEarlier(db, n, errors, recipe)| < limit
  {
    var less := ByUpdate(db);
    assert Sorting.StrictTotal(less) && forall m, n :: less(m, n) <==> Earlier(db, m, n);
    MayRetryIff(db, n, errors, recipe);
    if Retriable(db, n, errors, recipe) {
      var candidates := set m | m in db.rows && Retriable(db, m, errors, recipe);
      assert forall m :: m in candidates <==> Retriable(db, m, errors, recipe);
      PrecedingAre(db, candidates, less, n, errors, recipe);
      assert n in candidates;
      hide *;
      FirstAreFirst(db, candidates, errors, recipe, limit, less);
      RetriesFirstIsUnique(db, who, Lists.Elements(Sorting.FirstFew(candidates, less, limit)), errors, recipe, limit);
      Sorting.PickedIffFewPrecede(candidates, less, limit, n);
    } else {
      NotRetried(db, who, errors, recipe, limit, n);
    }
  }

  lemma NotRetried(db: Db, who: set<NodeId>, errors: set<string>, recipe: Recipe, limit: nat, n: NodeId)
    requires RetriesFirst(db, who, errors, recipe, limit) && !Retriable(db, n, errors, recipe)
    ensures n !in who
  {
    hide Retriable;
  }

  lemma PrecedingAre(db: Db, candidates: set<NodeId>, less: (NodeId, NodeId) -> bool, n: NodeId, errors: set<string>,
                     recipe: Recipe)
    requires n in db.rows && forall m :: m in candidates <==> Retriable(db, m, errors, recipe)
    requires forall m, n :: less(m, n) <==> Earlier(db, m, n)
    ensures Sorting.Preceding(candidates, less, n) == TriedEarlier(db, n, errors, recipe)
  {
    forall m ensures m in Sorting.Preceding(candidates, less, n) <==> m in TriedEarlier(db, n, errors, recipe) {
      MayRetryIff(db, m, errors, recipe);
      hide Retriable;
      hide MayRetry;
      hide Sorting.Preceding;
    }
  }

  method ResetIfCurrent(store: Store, n: NodeId, now: int) returns (reset: bool)
    requires n in store.rows
    modifies store`rows
    ensures reset <==> StillDescribes(old(store.State()), n)
    ensures store.rows == if reset then old(store.rows)[n := Reset(old(store.rows)[n], now)] else old(store.rows)
  {
    var read := ReadNode(store.State(), n);
    if !read.Evidence? || read.uuid != store.rows[n].nodeUuid || Of(read.evidence) != store.rows[n].desiredInput {
      return false;
    }
    store.rows := store.rows[n := Reset(store.rows[n], now)];
    return true;
  }

  lemma ResetOneMore(db: Db, who: set<NodeId>, n: NodeId, now: int)
    requires n in db.rows && n !in who
    ensures n in WithReset(db, who, now).rows && WithReset(db, who, now).rows[n] == db.rows[n]
    ensures StillDescribes(WithReset(db, who, now), n) == StillDescribes(db, n)
    ensures WithReset(db, who + {n}, now)
         == WithReset(db, who, now).(rows := WithReset(db, who, now).rows[n := Reset(db.rows[n], now)])
  {
  }

  method RetryPage(store: Store, page: seq<NodeId>, now: int, ghost db: Db, ghost before: Option<(int, NodeId)>,
                   ghost errors: set<string>, ghost recipe: Recipe, ghost done: set<NodeId>)
    returns (key: (int, NodeId), count: nat, ghost who: set<NodeId>)
    requires page != [] && PageOf(db, page, before, errors, recipe)
    requires store.State() == WithReset(db, done, now)
    requires forall n :: n in done <==> Retriable(db, n, errors, recipe) && !PastKey(db, n, before)
    modifies store`rows
    ensures store.State() == WithReset(db, who, now)
    ensures forall n :: n in who <==> Retriable(db, n, errors, recipe) && !PastKey(db, n, Some(key))
    ensures Some(key) == KeyAt(db, page, |page|, before)
    ensures |who| == |done| + count && count <= |page|
  {
    hide WithReset;
    hide StillDescribes;
    hide Earlier;
    key, count, who := (0, page[0]), 0, done;
    for i := 0 to |page|
      invariant |who| == |done| + count && count <= i
      invariant store.State() == WithReset(db, who, now)
      invariant i > 0 ==> Some(key) == KeyAt(db, page, i, before)
      invariant forall n :: n in who <==>
                Retriable(db, n, errors, recipe) && !PastKey(db, n, KeyAt(db, page, i, before))
    {
      var n := page[i];
      NextOnPage(db, page, i, before, errors, recipe);
      assert n in page && Listed(db, n, errors, recipe) && n !in who;
      ResetOneMore(db, who, n, now);
      key := (store.rows[n].updatedAt, n);
      var reset := ResetIfCurrent(store, n, now);
      if reset {
        who := who + {n};
        count := count + 1;
      }
    }
  }

  method RetryFailed(store: Store, errors: set<string>, recipe: Recipe, limit: int, now: int)
    returns (result: Outcome<Tally, RetryError>, ghost who: set<NodeId>)
    modifies store`rows
    ensures result == Raised(UnsupportedReason) <==> errors == {} || !(errors <= RETRYABLE)
    ensures result == Raised(LimitOutOfRange) <==> errors != {} && errors <= RETRYABLE && !(1 <= limit <= 100)
    ensures result.Raised? ==> store.State() == old(store.State())
    ensures result.Committed? ==>
              && RetriesFirst(old(store.State()), who, errors, recipe, limit)
              && store.State() == WithReset(old(store.State()), who, now)
              && result.value.requeued == |who| <= result.value.selected
  {
    who := {};
    if errors == {} || !(errors <= RETRYABLE) {
      return Raised(UnsupportedReason), who;
    }
    if !(1 <= limit <= 100) {
      return Raised(LimitOutOfRange), who;
    }
    ghost var db := store.State();
    var selected, requeued := 0, 0;
    var key: Option<(int, NodeId)> := None;
    ghost var ahead := set n | n in db.rows;
    while requeued < limit
      invariant requeued == |who| <= limit && requeued <= selected
      invariant store.State() == WithReset(db, who, now)
      invariant forall n :: n in who <==> Retriable(db, n, errors, recipe) && !PastKey(db, n, key)
      invariant ahead == set n | n in db.rows && PastKey(db, n, key)
      decreases ahead
    {
      ghost var before := key;
      ghost var before' := ahead;
      var page := SelectPage(store.State(), errors, recipe, key, limit - requeued);
      PageMeaning(db, who, now, page, key, errors, recipe);
      if page == [] {
        break;
      }
      var last, count;
      last, count, who := RetryPage(store, page, now, db, before, errors, recipe, who);
      selected, requeued, key := selected + |page|, requeued + count, Some(last);
      ahead := set n | n in db.rows && PastKey(db, n, key);
      KeyMoves(db, page, before, errors, recipe);
      assert page[0] in page && page[0] in before' && page[0] !in ahead;
    }
    return Committed(Tally(selected, requeued)), who;
  }

  /** The moving key after `i` rows of a page. */
  ghost function KeyAt(db: Db, page: seq<NodeId>, i: nat, before: Option<(int, NodeId)>): Option<(int, NodeId)>
    requires i <= |page|
  {
    if i == 0 then before else Some((UpdatedAt(db, page[i - 1]), page[i - 1]))
  }

  /** A page read while `who` is already reset, in terms of the rows as they were at the start. */
  ghost predicate PageOf(db: Db, page: seq<NodeId>, before: Option<(int, NodeId)>, errors: set<string>,
                         recipe: Recipe) {
    && (forall n :: n in page ==> Listed(db, n, errors, recipe) && PastKey(db, n, before))
    && (forall i, j :: 0 <= i < j < |page| ==> Earlier(db, page[i], page[j]))
    && (forall n, i :: Retriable(db, n, errors, recipe) && PastKey(db, n, before) && n !in page && 0 <= i < |page|
          ==> Earlier(db, page[i], n))
  }

  lemma PageMeaning(db: Db, who: set<NodeId>, now: int, page: seq<NodeId>, key: Option<(int, NodeId)>,
                    errors: set<string>, recipe: Recipe)
    requires IsPage(WithReset(db, who, now), page, errors, recipe, key)
    requires forall n :: n in who <==> Retriable(db, n, errors, recipe) && !PastKey(db, n, key)
    ensures PageOf(db, page, key, errors, recipe) && forall n :: n in page ==> n !in who
    ensures page == [] ==> forall n :: Retriable(db, n, errors, recipe) ==> n in who
  {
    var current := WithReset(db, who, now);
    forall n | n in page ensures n !in who && Listed(db, n, errors, recipe) && PastKey(db, n, key) {
      SeenAfterReset(db, who, now, n, errors, recipe);
    }
    forall i, j | 0 <= i < j < |page| ensures Earlier(db, page[i], page[j]) {
      assert page[i] in page && page[j] in page;
      SeenAfterReset(db, who, now, page[i], errors, recipe);
      SeenAfterReset(db, who, now, page[j], errors, recipe);
    }
    forall n | Retriable(db, n, errors, recipe) && PastKey(db, n, key)
      ensures n !in who && Listed(current, n, errors, recipe) && PastKey(current, n, key)
    {
      SeenAfterReset(db, who, now, n, errors, recipe);
    }
    forall n, i | Retriable(db, n, errors, recipe) && PastKey(db, n, key) && n !in page && 0 <= i < |page|
      ensures Earlier(db, page[i], n)
    {
      assert page[i] in page;
      SeenAfterReset(db, who, now, page[i], errors, recipe);
      SeenAfterReset(db, who, now, n, errors, recipe);
    }
  }

  /** Reset rows leave the list; the others are listed with the key they had. */
  lemma SeenAfterReset(db: Db, who: set<NodeId>, now: int, n: NodeId, errors: set<string>, recipe: Recipe)
    ensures var current := WithReset(db, who, now);
            && (Listed(current, n, errors, recipe) <==> Listed(db, n, errors, recipe) && n !in who)
            && (n !in who ==> UpdatedAt(current, n) == UpdatedAt(db, n))
  {
  }

  lemma KeyMoves(db: Db, page: seq<NodeId>, before: Option<(int, NodeId)>, errors: set<string>, recipe: Recipe)
    requires page != [] && PageOf(db, page, before, errors, recipe)
    ensures !PastKey(db, page[0], KeyAt(db, page, |page|, before))
    ensures forall n :: PastKey(db, n, KeyAt(db, page, |page|, before)) ==> PastKey(db, n, before)
  {
    assert |page| > 1 ==> Earlier(db, page[0], page[|page| - 1]);
    assert page[|page| - 1] in page;
  }

  /** The only row still to be considered up to the next key is the page's next row. */
  lemma NextOnPage(db: Db, page: seq<NodeId>, i: nat, before: Option<(int, NodeId)>, errors: set<string>,
                   recipe: Recipe)
    requires i < |page| && PageOf(db, page, before, errors, recipe)
    ensures PastKey(db, page[i], KeyAt(db, page, i, before))
    ensures !PastKey(db, page[i], KeyAt(db, page, i + 1, before))
    ensures forall n :: PastKey(db, n, KeyAt(db, page, i + 1, before)) ==> PastKey(db, n, KeyAt(db, page, i, before))
    ensures forall n :: (Retriable(db, n, errors, recipe) && PastKey(db, n, KeyAt(db, page, i, before))
              && !PastKey(db, n, KeyAt(db, page, i + 1, before))) ==> n == page[i]
  {
    assert i > 0 ==> Earlier(db, page[i - 1], page[i]);
    forall n | Retriable(db, n, errors, recipe) && PastKey(db, n, KeyAt(db, page, i, before))
               && !PastKey(db, n, KeyAt(db, page, i + 1, before))
      ensures n == page[i]
    {
      assert i > 0 ==> PastKey(db, page[i - 1], before);
      assert PastKey(db, n, before);
      assert n in page;
      var j :| 0 <= j < |page| && page[j] == n;
      assert j < i - 1 ==> Earlier(db, page[j], page[i - 1]);
      assert i < j ==> Earlier(db, page[i], page[j]);
    }
  }
}
