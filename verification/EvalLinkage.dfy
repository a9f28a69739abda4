/** Attributing the disappearance of a flagged line to a commit.

    One path and one line are fixed: at each commit the file is missing, holds the line, or does not. What git
    answers (the merge base, the walked commits, ancestry) is given. */
module EvalLinkage {
  import opened Options

  type Commit = nat

  datatype File = Missing | Clean | Flagged | Unreadable
  datatype Info = Info(parents: seq<Commit>, file: File, time: int)

  /** `above` holds, for each commit, its ancestors and itself; `refs` are the tips of the local and
      remote-tracking branches. */
  datatype Repo = Repo(commits: map<Commit, Info>, above: map<Commit, set<Commit>>, head: Commit, refs: seq<Commit>)

  datatype Review = Review(headSha: Commit, startedMs: int)

  datatype Reason =
    | FileDeletedAtHead
    | NoSharedHistory
    | NoCommitBeforeReview
    | NoWalkedCommitRemovedIt
    | NothingTouchesPath
    | OnlyTouchedBeforeReview
    | ReviewedBranchExists
    | LineOnARef

  /** An open finding, with or without a reason, or the commit that is taken to have addressed it. */
  datatype Verdict = StillThere | Open(reason: Reason) | Observed(commit: Commit) | Inferred(commit: Commit)

  datatype GitError = ObjectUnavailable

  function FileAt(repo: Repo, c: Commit): File {
    if c in repo.commits then repo.commits[c].file else Unreadable
  }

  function ParentsOf(repo: Repo, c: Commit): seq<Commit> {
    if c in repo.commits then repo.commits[c].parents else []
  }

  function TimeOf(repo: Repo, c: Commit): int {
    if c in repo.commits then repo.commits[c].time else 0
  }

  predicate IsAncestor(repo: Repo, a: Commit, c: Commit) {
    c in repo.above && a in repo.above[c]
  }

  // ---------------------------------------------------------------- where the walk starts

  datatype Start = Nowhere(reason: Reason) | From(start: Commit, guarded: bool)

  /** `base` is the merge base of the reviewed commit and HEAD, `before` HEAD's last commit before the review. */
  function WalkStart(repo: Repo, review: Review, base: Option<Commit>, before: Option<Commit>): Start {
    if review.headSha in repo.commits then
      if base.None? then Nowhere(NoSharedHistory) else From(base.value, base.value != review.headSha)
    else if before.None? then Nowhere(NoCommitBeforeReview)
    else From(before.value, false)
  }

  /** Everything one walk looks at. */
  datatype Walk = Walk(repo: Repo, review: Review, start: Commit, guarded: bool, walked: seq<Commit>)

  // ---------------------------------------------------------------- what counts as a fix

  predicate Early(w: Walk, c: Commit) {
    TimeOf(w.repo, c) * 1000 < w.review.startedMs
  }

  /** A commit known, before step `i`, to hold the line. */
  predicate Holder(w: Walk, i: nat, c: Commit)
    requires i <= |w.walked|
  {
    FileAt(w.repo, c) == Flagged && (c == w.start || c in w.walked[..i])
  }

  predicate SomeParentHolds(w: Walk, c: Commit) {
    exists p :: p in ParentsOf(w.repo, c) && FileAt(w.repo, p) == Flagged
  }

  predicate NoParentHasFile(w: Walk, c: Commit) {
    forall p :: p in ParentsOf(w.repo, c) ==> FileAt(w.repo, p) == Missing
  }

  /** The step takes the line away: from a parent, or by recreating a file a holder had. */
  predicate Removes(w: Walk, i: nat)
    requires i < |w.walked|
  {
    var c := w.walked[i];
    && FileAt(w.repo, c) == Clean
    && (|| SomeParentHolds(w, c)
        || (NoParentHasFile(w, c)
            && exists h :: h in [w.start] + w.walked && Holder(w, i, h) && IsAncestor(w.repo, h, c)))
  }

  /** The line was present somewhere before step `i`, and no removal before the review has cancelled that. */
  predicate Seen(w: Walk, i: nat)
    requires i <= |w.walked|
  {
    if i == 0 then FileAt(w.repo, w.start) == Flagged
    else
      var c := w.walked[i - 1];
      || FileAt(w.repo, c) == Flagged
      || (Seen(w, i - 1) && !(w.guarded && Early(w, c) && Removes(w, i - 1)))
  }

  predicate Fix(w: Walk, i: nat)
    requires i < |w.walked|
  {
    Seen(w, i) && Removes(w, i) && !(w.guarded && Early(w, w.walked[i]))
  }

  /** An object the step needs is not stored locally. */
  predicate Stuck(w: Walk, i: nat)
    requires i < |w.walked|
  {
    var c := w.walked[i];
    || FileAt(w.repo, c) == Unreadable
    || (FileAt(w.repo, c) == Clean && Seen(w, i)
        && exists p :: p in ParentsOf(w.repo, c) && FileAt(w.repo, p) == Unreadable)
  }

  /** The first step that ends the walk, `|walked|` if none does. */
  function FirstStop(w: Walk, i: nat): (r: nat)
    requires i <= |w.walked|
    ensures i <= r <= |w.walked|
    ensures forall j :: i <= j < r ==> !Fix(w, j) && !Stuck(w, j)
    ensures r < |w.walked| ==> Fix(w, r) || Stuck(w, r)
    decreases |w.walked| - i
  {
    if i == |w.walked| || Stuck(w, i) || Fix(w, i) then i else FirstStop(w, i + 1)
  }

  predicate LateTouch(w: Walk, c: Commit) {
    FileAt(w.repo, c) != Missing && !Early(w, c)
  }

  /** The first walked commit, not before the review, that has the file. */
  function FirstTouch(w: Walk, i: nat): (r: nat)
    requires i <= |w.walked|
    ensures i <= r <= |w.walked|
    ensures forall j :: i <= j < r ==> !LateTouch(w, w.walked[j])
    ensures r < |w.walked| ==> LateTouch(w, w.walked[r])
    decreases |w.walked| - i
  {
    if i == |w.walked| || LateTouch(w, w.walked[i]) then i else FirstTouch(w, i + 1)
  }

  predicate BranchRemains(w: Walk) {
    exists r :: r in w.repo.refs && IsAncestor(w.repo, w.review.headSha, r)
  }

  /** The first ref tip, in order, that holds the line or cannot be read; `|refs|` if none. */
  function FirstRef(repo: Repo, i: nat): (r: nat)
    requires i <= |repo.refs|
    ensures i <= r <= |repo.refs|
    ensures forall j :: i <= j < r ==> FileAt(repo, repo.refs[j]) !in {Flagged, Unreadable}
    ensures r < |repo.refs| ==> FileAt(repo, repo.refs[r]) in {Flagged, Unreadable}
    decreases |repo.refs| - i
  {
    if i == |repo.refs| || FileAt(repo, repo.refs[i]) in {Flagged, Unreadable} then i else FirstRef(repo, i + 1)
  }

  function Infer(w: Walk): Outcome<Verdict, GitError> {
    if forall c :: c in w.walked ==> FileAt(w.repo, c) == Missing then Committed(Open(NothingTouchesPath))
    else if FirstTouch(w, 0) == |w.walked| then Committed(Open(OnlyTouchedBeforeReview))
    else if w.guarded && BranchRemains(w) then Committed(Open(ReviewedBranchExists))
    else
      var r := FirstRef(w.repo, 0);
      if r == |w.repo.refs| then Committed(Inferred(w.walked[FirstTouch(w, 0)]))
      else if FileAt(w.repo, w.repo.refs[r]) == Flagged then Committed(Open(LineOnARef))
      else Raised(ObjectUnavailable)
  }

  function WalkVerdict(w: Walk): Outcome<Verdict, GitError> {
    var stop := FirstStop(w, 0);
    if FileAt(w.repo, w.start) == Unreadable then Raised(ObjectUnavailable)
    else if stop < |w.walked| then
      if Stuck(w, stop) then Raised(ObjectUnavailable) else Committed(Observed(w.walked[stop]))
    else if Seen(w, |w.walked|) then Committed(Open(NoWalkedCommitRemovedIt))
    else Infer(w)
  }

  /** `walked` gives, for each start, the commits between it and HEAD that touch the path, oldest first. */
  function FindChange(repo: Repo, review: Review, base: Option<Commit>, before: Option<Commit>,
                      walked: Commit -> seq<Commit>)
    : Outcome<Verdict, GitError>
  {
    match FileAt(repo, repo.head)
    case Unreadable => Raised(ObjectUnavailable)
    case Missing => Committed(Open(FileDeletedAtHead))
    case Flagged => Committed(StillThere)
    case Clean =>
      match WalkStart(repo, review, base, before)
      case Nowhere(reason) => Committed(Open(reason))
      case From(start, guarded) => WalkVerdict(Walk(repo, review, start, guarded, walked(start)))
  }

  // ---------------------------------------------------------------- the walk as the source does it

  /** The first ref tip that settles the matter. */
  method ScanRefs(repo: Repo) returns (r: nat)
    ensures r == FirstRef(repo, 0)
  {
    r := 0;
    while r < |repo.refs| && FileAt(repo, repo.refs[r]) !in {Flagged, Unreadable}
      invariant 0 <= r <= |repo.refs| && FirstRef(repo, 0) == FirstRef(repo, r)
    {
      r := r + 1;
    }
  }

  method InferCommit(w: Walk, touched: bool, firstTouch: Option<Commit>) returns (result: Outcome<Verdict, GitError>)
    requires touched <==> exists c :: c in w.walked && FileAt(w.repo, c) != Missing
    requires firstTouch.None? <==> FirstTouch(w, 0) == |w.walked|
    requires firstTouch.Some? ==> firstTouch.value == w.walked[FirstTouch(w, 0)]
    ensures result == Infer(w)
  {
    hide FirstTouch;
    if !touched {
      return Committed(Open(NothingTouchesPath));
    }
    if firstTouch.None? {
      return Committed(Open(OnlyTouchedBeforeReview));
    }
    if w.guarded && BranchRemains(w) {
      return Committed(Open(ReviewedBranchExists));
    }
    var r := ScanRefs(w.repo);
    if r < |w.repo.refs| {
      return if FileAt(w.repo, w.repo.refs[r]) == Flagged
             then Committed(Open(LineOnARef))
             else Raised(ObjectUnavailable);
    }
    result := Committed(Inferred(firstTouch.value));
  }

  /** What the loop has gathered before step `i`. */
  ghost predicate Gathered(w: Walk, i: nat, seen: bool, holders: seq<Commit>, touched: bool,
                           firstTouch: Option<Commit>) {
    && i <= |w.walked|
    && FirstStop(w, 0) == FirstStop(w, i)
    && seen == Seen(w, i)
    && (forall h :: h in holders <==> Holder(w, i, h))
    && (touched <==> exists c :: c in w.walked[..i] && FileAt(w.repo, c) != Missing)
    && (if firstTouch.None? then FirstTouch(w, 0) == FirstTouch(w, i)
        else FirstTouch(w, 0) < i && firstTouch.value == w.walked[FirstTouch(w, 0)])
  }

  lemma GatheredNext(w: Walk, i: nat, seen: bool, holders: seq<Commit>, touched: bool, firstTouch: Option<Commit>)
    requires i < |w.walked| && Gathered(w, i, seen, holders, touched, firstTouch)
    requires !Stuck(w, i) && !Fix(w, i)
    ensures var c := w.walked[i];
            var file := FileAt(w.repo, c);
            Gathered(w, i + 1, file == Flagged || (seen && !Removes(w, i)),
                     if file == Flagged then holders + [c] else holders,
                     touched || file != Missing, if firstTouch.None? && LateTouch(w, c) then Some(c) else firstTouch)
  {
    hide Removes;
    hide SomeParentHolds;
    hide NoParentHasFile;
    var c := w.walked[i];
    assert w.walked[..i + 1] == w.walked[..i] + [c];
  }

  lemma GatheredAtStart(w: Walk)
    ensures var seen := FileAt(w.repo, w.start) == Flagged;
            Gathered(w, 0, seen, if seen then [w.start] else [], false, None)
  {
  }

  method WalkCommits(w: Walk) returns (result: Outcome<Verdict, GitError>)
    ensures result == WalkVerdict(w)
  {
    if FileAt(w.repo, w.start) == Unreadable {
      return Raised(ObjectUnavailable);
    }
    var seen := FileAt(w.repo, w.start) == Flagged;
    var holders := if seen then [w.start] else [];
    var touched, firstTouch := false, None;
    GatheredAtStart(w);
    hide Removes;
    hide Seen;
    hide Infer;
    hide FirstTouch;
    hide Holder;
    for i := 0 to |w.walked|
      invariant Gathered(w, i, seen, holders, touched, firstTouch)
    {
      var c := w.walked[i];
      var file := FileAt(w.repo, c);
      if file == Unreadable {
        return Raised(ObjectUnavailable);
      }
      if file == Clean && seen && exists p :: p in ParentsOf(w.repo, c) && FileAt(w.repo, p) == Unreadable {
        return Raised(ObjectUnavailable);
      }
      assert !Stuck(w, i);
      RemovalIs(w, i, holders);
      if file == Clean && seen {
        var parents := exists p :: p in ParentsOf(w.repo, c) && FileAt(w.repo, p) != Missing;
        var removed := if parents then SomeParentHolds(w, c) else exists h :: h in holders && IsAncestor(w.repo, h, c);
        if removed && !(w.guarded && TimeOf(w.repo, c) * 1000 < w.review.startedMs) {
          return Committed(Observed(c));
        }
        assert !Fix(w, i);
        GatheredNext(w, i, seen, holders, touched, firstTouch);
        seen := !removed;
      } else {
        assert !Fix(w, i);
        GatheredNext(w, i, seen, holders, touched, firstTouch);
      }
      if file == Flagged {
        seen := true;
        holders := holders + [c];
      }
      if file != Missing {
        touched := true;
        if firstTouch.None? && TimeOf(w.repo, c) * 1000 >= w.review.startedMs {
          firstTouch := Some(c);
        }
      }
    }
    assert w.walked[..|w.walked|] == w.walked;
    if seen {
      return Committed(Open(NoWalkedCommitRemovedIt));
    }
    NoTouchLeft(w);
    result := InferCommit(w, touched, firstTouch);
  }

  lemma NoTouchLeft(w: Walk)
    ensures FirstTouch(w, |w.walked|) == |w.walked|
  {
  }

  lemma RemovalIs(w: Walk, i: nat, holders: seq<Commit>)
    requires i < |w.walked| && forall h :: h in holders <==> Holder(w, i, h)
    ensures var c := w.walked[i];
            Removes(w, i) <==>
              FileAt(w.repo, c) == Clean &&
              if exists p :: p in ParentsOf(w.repo, c) && FileAt(w.repo, p) != Missing then SomeParentHolds(w, c)
              else exists h :: h in holders && IsAncestor(w.repo, h, c)
  {
    var c := w.walked[i];
    forall h | h in holders ensures h in [w.start] + w.walked {
      assert h in w.walked[..i] ==> h in w.walked;
    }
  }

  // ---------------------------------------------------------------- what a verdict guarantees

  /** From `a` up to `c` through parents, in at least one step. */
  ghost predicate Descends(repo: Repo, a: Commit, c: Commit) {
    exists path: seq<Commit> ::
      && |path| >= 2 && path[0] == a && path[|path| - 1] == c
      && forall i :: 0 < i < |path| ==> path[i - 1] in ParentsOf(repo, path[i])
  }

  /** The given ancestry is that of the commit graph. */
  ghost predicate Honest(repo: Repo) {
    forall a, c :: c in repo.commits ==> (IsAncestor(repo, a, c) <==> a == c || Descends(repo, a, c))
  }

  lemma ParentDescends(repo: Repo, p: Commit, c: Commit)
    requires p in ParentsOf(repo, c)
    ensures Descends(repo, p, c)
  {
    var path := [p, c];
    assert |path| >= 2 && path[0] == p && path[|path| - 1] == c;
    assert forall i :: 0 < i < |path| ==> path[i - 1] in ParentsOf(repo, path[i]);
  }

  lemma RemovalDescends(w: Walk, i: nat)
    requires Honest(w.repo) && i < |w.walked| && Removes(w, i)
    ensures exists h :: FileAt(w.repo, h) == Flagged && Descends(w.repo, h, w.walked[i])
  {
    var c := w.walked[i];
    hide Descends;
    if SomeParentHolds(w, c) {
      var p :| p in ParentsOf(w.repo, c) && FileAt(w.repo, p) == Flagged;
      ParentDescends(w.repo, p, c);
    } else {
      var h :| h in [w.start] + w.walked && Holder(w, i, h) && IsAncestor(w.repo, h, c);
      assert FileAt(w.repo, h) == Flagged && Descends(w.repo, h, c);
    }
  }

  /** A commit reported as the observed fix has the file without the line, descends from a commit that had the
      line, is the first walked commit that fixes it, and on a divergent branch is not older than the review;
      and HEAD still has the file without the line. */
  lemma ObservedFixIsReal(repo: Repo, review: Review, base: Option<Commit>, before: Option<Commit>,
                          walked: Commit -> seq<Commit>, c: Commit)
    requires Honest(repo) && FindChange(repo, review, base, before, walked) == Committed(Observed(c))
    ensures FileAt(repo, repo.head) == Clean && FileAt(repo, c) == Clean
    ensures exists h :: FileAt(repo, h) == Flagged && Descends(repo, h, c)
    ensures WalkStart(repo, review, base, before).From?
    ensures var from := WalkStart(repo, review, base, before);
            var w := Walk(repo, review, from.start, from.guarded, walked(from.start));
            && (exists i :: 0 <= i < |w.walked| && w.walked[i] == c && Fix(w, i)
                            && forall j :: 0 <= j < i ==> !Fix(w, j))
            && (from.guarded ==> TimeOf(repo, c) * 1000 >= review.startedMs)
  {
    var from := WalkStart(repo, review, base, before);
    var w := Walk(repo, review, from.start, from.guarded, walked(from.start));
    var i := FirstStop(w, 0);
    hide Infer;
    assert Fix(w, i) && w.walked[i] == c;
    RemovalDescends(w, i);
  }

  /** Read off the walk alone: the line was never at the start nor in any walked commit. */
  predicate NeverHeld(w: Walk) {
    FileAt(w.repo, w.start) != Flagged && forall c :: c in w.walked ==> FileAt(w.repo, c) != Flagged
  }

  lemma {:induction false} UnguardedSeen(w: Walk, i: nat)
    requires !w.guarded && i <= |w.walked|
    ensures Seen(w, i) <==>
            FileAt(w.repo, w.start) == Flagged || exists j :: 0 <= j < i && FileAt(w.repo, w.walked[j]) == Flagged
  {
    if i > 0 {
      UnguardedSeen(w, i - 1);
    }
  }

  /** A commit given only by inference is the first walked one, not before the review, that has the file; the
      walk never held the line, or only up to a removal before the review; no branch tip holds it; and on a
      divergent branch no branch contains the reviewed commit any more. */
  lemma InferredFixIsGuarded(repo: Repo, review: Review, base: Option<Commit>, before: Option<Commit>,
                             walked: Commit -> seq<Commit>, c: Commit)
    requires FindChange(repo, review, base, before, walked) == Committed(Inferred(c))
    ensures FileAt(repo, repo.head) == Clean
    ensures WalkStart(repo, review, base, before).From?
    ensures var from := WalkStart(repo, review, base, before);
            var w := Walk(repo, review, from.start, from.guarded, walked(from.start));
            && (exists i :: 0 <= i < |w.walked| && w.walked[i] == c && LateTouch(w, c)
                            && forall j :: 0 <= j < i ==> !LateTouch(w, w.walked[j]))
            && (forall r :: r in repo.refs ==> FileAt(repo, r) != Flagged)
            && (from.guarded ==> forall r :: r in repo.refs ==> !IsAncestor(repo, review.headSha, r))
            && (!from.guarded ==> NeverHeld(w))
            && !Seen(w, |w.walked|)
  {
    var from := WalkStart(repo, review, base, before);
    var w := Walk(repo, review, from.start, from.guarded, walked(from.start));
    if !from.guarded {
      UnguardedSeen(w, |w.walked|);
    }
    var i := FirstTouch(w, 0);
    assert w.walked[i] == c;
    assert FirstRef(repo, 0) == |repo.refs|;
  }

  /** The job's entry point. A finding stays open exactly while HEAD holds the line or lacks the file, or for a
      stated reason; a commit is named only if HEAD has the file without the line, and then either it took the
      line from a commit above it, or no branch tip holds the line any more. */
  method FindFix(repo: Repo, review: Review, base: Option<Commit>, before: Option<Commit>,
                 walked: Commit -> seq<Commit>)
    returns (result: Outcome<Verdict, GitError>)
    ensures result == FindChange(repo, review, base, before, walked)
    ensures result == Committed(StillThere) <==> FileAt(repo, repo.head) == Flagged
    ensures result == Committed(Open(FileDeletedAtHead)) <==> FileAt(repo, repo.head) == Missing
    ensures result.Raised? ==> exists c :: FileAt(repo, c) == Unreadable
    ensures forall c :: result == Committed(Observed(c)) && Honest(repo) ==>
              FileAt(repo, c) == Clean && exists h :: FileAt(repo, h) == Flagged && Descends(repo, h, c)
    ensures forall c :: result == Committed(Inferred(c)) ==> forall r :: r in repo.refs ==> FileAt(repo, r) != Flagged
  {
    hide Honest;
    hide Descends;
    hide WalkVerdict;
    hide Fix;
    hide Seen;
    forall c | FindChange(repo, review, base, before, walked) == Committed(Observed(c)) && Honest(repo)
      ensures FileAt(repo, c) == Clean && exists h :: FileAt(repo, h) == Flagged && Descends(repo, h, c)
    {
      ObservedFixIsReal(repo, review, base, before, walked, c);
    }
    forall c | FindChange(repo, review, base, before, walked) == Committed(Inferred(c))
      ensures forall r :: r in repo.refs ==> FileAt(repo, r) != Flagged
    {
      InferredFixIsGuarded(repo, review, base, before, walked, c);
    }
    match FileAt(repo, repo.head) {
      case Unreadable => return Raised(ObjectUnavailable);
      case Missing => return Committed(Open(FileDeletedAtHead));
      case Flagged => return Committed(StillThere);
      case Clean =>
        match WalkStart(repo, review, base, before) {
          case Nowhere(reason) => return Committed(Open(reason));
          case From(start, guarded) =>
            var w := Walk(repo, review, start, guarded, walked(start));
            VerdictsAre(w);
            result := WalkCommits(w);
        }
    }
  }

  lemma VerdictsAre(w: Walk)
    ensures WalkVerdict(w) !in {Committed(StillThere), Committed(Open(FileDeletedAtHead))}
    ensures WalkVerdict(w).Raised? ==> exists c :: FileAt(w.repo, c) == Unreadable
  {
  }

  // ---------------------------------------------------------------- linear histories

  /** `chain` runs from the start of the walk to HEAD through only parents; the walk lists, by position in it,
      at least every commit whose file differs from its parent's. */
  ghost predicate Linear(w: Walk, chain: seq<Commit>, at: seq<nat>) {
    && chain != [] && chain[0] == w.start && chain[|chain| - 1] == w.repo.head
    && (forall k :: 0 < k < |chain| ==> ParentsOf(w.repo, chain[k]) == [chain[k - 1]])
    && (forall k :: 0 <= k < |chain| ==> FileAt(w.repo, chain[k]) != Unreadable)
    && |at| == |w.walked|
    && (forall i :: 0 <= i < |at| ==> 0 < at[i] < |chain| && w.walked[i] == chain[at[i]])
    && (forall i, j :: 0 <= i < j < |at| ==> at[i] < at[j])
    && (forall k :: 0 < k < |chain| && FileAt(w.repo, chain[k]) != FileAt(w.repo, chain[k - 1]) ==> k in at)
  }

  /** Position `k` is the first to hold the line. */
  predicate FirstHeld(w: Walk, chain: seq<Commit>, k: nat) {
    k < |chain| && FileAt(w.repo, chain[k]) == Flagged && forall q :: 0 <= q < k ==> FileAt(w.repo, chain[q]) != Flagged
  }

  /** Position `m` is the first after `k` with the file but not the line. */
  predicate FirstClean(w: Walk, chain: seq<Commit>, k: nat, m: nat) {
    k < m < |chain| && FileAt(w.repo, chain[m]) == Clean && forall q :: k <= q < m ==> FileAt(w.repo, chain[q]) != Clean
  }

  lemma ChainDescends(repo: Repo, chain: seq<Commit>, k: nat, m: nat)
    requires forall q :: 0 < q < |chain| ==> ParentsOf(repo, chain[q]) == [chain[q - 1]]
    requires k < m < |chain|
    ensures Descends(repo, chain[k], chain[m])
  {
    var path := chain[k..m + 1];
    assert |path| >= 2 && path[0] == chain[k] && path[|path| - 1] == chain[m];
    forall i | 0 < i < |path| ensures path[i - 1] in ParentsOf(repo, path[i]) {
      assert path[i] == chain[k + i] && path[i - 1] == chain[k + i - 1];
    }
  }

  lemma HeldIsWalked(w: Walk, chain: seq<Commit>, at: seq<nat>, k: nat) returns (j: nat)
    requires Linear(w, chain, at) && FirstHeld(w, chain, k) && k > 0
    ensures j < |at| && at[j] == k && w.walked[j] == chain[k]
  {
    assert FileAt(w.repo, chain[k - 1]) != Flagged;
    assert k in at;
    j :| 0 <= j < |at| && at[j] == k;
  }

  predicate HeldBelow(w: Walk, chain: seq<Commit>, n: nat) {
    exists q :: 0 <= q < n && q < |chain| && FileAt(w.repo, chain[q]) == Flagged
  }

  lemma SeenOnChain(w: Walk, chain: seq<Commit>, at: seq<nat>, i: nat)
    requires Linear(w, chain, at) && !w.guarded && i < |at|
    ensures Seen(w, i) <==> HeldBelow(w, chain, at[i])
  {
    UnguardedSeen(w, i);
    hide Seen;
    if HeldBelow(w, chain, at[i]) {
      var q :| 0 <= q < at[i] && q < |chain| && FileAt(w.repo, chain[q]) == Flagged;
      var k := FirstHeldBelow(w, chain, q);
      if k > 0 {
        var j := HeldIsWalked(w, chain, at, k);
        AtIsOrdered(w, chain, at, j, i);
      }
    }
    if j: nat :| j < i && FileAt(w.repo, w.walked[j]) == Flagged {
      assert FileAt(w.repo, chain[at[j]]) == Flagged && at[j] < at[i];
    }
  }

  lemma AtIsOrdered(w: Walk, chain: seq<Commit>, at: seq<nat>, j: nat, i: nat)
    requires Linear(w, chain, at) && i < |at| && j < |at|
    ensures at[j] < at[i] <==> j < i
  {
    assert i < j ==> at[i] < at[j];
    assert j < i ==> at[j] < at[i];
  }

  lemma FirstHeldBelow(w: Walk, chain: seq<Commit>, q: nat) returns (k: nat)
    requires q < |chain| && FileAt(w.repo, chain[q]) == Flagged
    ensures k <= q && FirstHeld(w, chain, k)
  {
    k := 0;
    while FileAt(w.repo, chain[k]) != Flagged
      invariant 0 <= k <= q && forall p :: 0 <= p < k ==> FileAt(w.repo, chain[p]) != Flagged
      decreases q - k
    {
      k := k + 1;
    }
  }

  lemma FirstCleanAbove(w: Walk, chain: seq<Commit>, k: nat) returns (m: nat)
    requires k < |chain| && FileAt(w.repo, chain[k]) == Flagged && FileAt(w.repo, chain[|chain| - 1]) == Clean
    ensures FirstClean(w, chain, k, m)
  {
    m := k;
    while FileAt(w.repo, chain[m]) != Clean
      invariant k <= m < |chain| && forall p :: k <= p < m ==> FileAt(w.repo, chain[p]) != Clean
      decreases |chain| - m
    {
      m := m + 1;
    }
  }

  /** On a linear, readable history that contains the reviewed commit, a finding whose line is gone at HEAD
      is attributed by observation exactly when some commit since the start held the line, and then to the
      first commit after that whose file exists without it. */
  lemma LinearHistoryIsExact(w: Walk, chain: seq<Commit>, at: seq<nat>)
    requires Honest(w.repo) && Linear(w, chain, at) && !w.guarded && FileAt(w.repo, w.repo.head) == Clean
    ensures (exists c :: WalkVerdict(w) == Committed(Observed(c))) <==>
            (exists k :: 0 <= k < |chain| && FileAt(w.repo, chain[k]) == Flagged)
    ensures forall k: nat, m: nat :: FirstHeld(w, chain, k) && FirstClean(w, chain, k, m) ==>
              WalkVerdict(w) == Committed(Observed(chain[m]))
  {
    forall k: nat, m: nat | FirstHeld(w, chain, k) && FirstClean(w, chain, k, m)
      ensures WalkVerdict(w) == Committed(Observed(chain[m]))
    {
      FirstCleanIsFix(w, chain, at, k, m);
    }
    if exists k :: 0 <= k < |chain| && FileAt(w.repo, chain[k]) == Flagged {
      var q :| 0 <= q < |chain| && FileAt(w.repo, chain[q]) == Flagged;
      var k := FirstHeldBelow(w, chain, q);
      var m := FirstCleanAbove(w, chain, k);
      assert WalkVerdict(w) == Committed(Observed(chain[m]));
    } else {
      NothingHeldNothingSeen(w, chain, at);
    }
  }

  lemma NothingHeldNothingSeen(w: Walk, chain: seq<Commit>, at: seq<nat>)
    requires Linear(w, chain, at) && !w.guarded
    requires forall k :: 0 <= k < |chain| ==> FileAt(w.repo, chain[k]) != Flagged
    ensures forall c :: WalkVerdict(w) != Committed(Observed(c))
  {
    hide Infer;
    var i := FirstStop(w, 0);
    if i < |w.walked| {
      SeenOnChain(w, chain, at, i);
    }
    InferNeverObserves(w);
  }

  lemma InferNeverObserves(w: Walk)
    ensures forall c :: Infer(w) != Committed(Observed(c))
  {
  }

  lemma FirstCleanIsFix(w: Walk, chain: seq<Commit>, at: seq<nat>, k: nat, m: nat)
    requires Honest(w.repo) && Linear(w, chain, at) && !w.guarded
    requires FirstHeld(w, chain, k) && FirstClean(w, chain, k, m)
    ensures WalkVerdict(w) == Committed(Observed(chain[m]))
  {
    hide Infer;
    assert FileAt(w.repo, chain[m - 1]) != Clean;
    assert m in at;
    var i :| 0 <= i < |at| && at[i] == m;
    CleanAfterHeldIsFix(w, chain, at, k, m, i);
    forall j | 0 <= j < i ensures !Fix(w, j) {
      EarlierIsNoFix(w, chain, at, k, m, j);
    }
    forall j | 0 <= j <= i ensures !Stuck(w, j) {
      assert ParentsOf(w.repo, chain[at[j]]) == [chain[at[j] - 1]];
    }
    assert FirstStop(w, 0) == i;
    assert FileAt(w.repo, chain[0]) != Unreadable;
  }

  lemma EarlierIsNoFix(w: Walk, chain: seq<Commit>, at: seq<nat>, k: nat, m: nat, j: nat)
    requires Linear(w, chain, at) && !w.guarded && j < |at| && at[j] < m
    requires FirstHeld(w, chain, k) && FirstClean(w, chain, k, m)
    ensures !Fix(w, j)
  {
    SeenOnChain(w, chain, at, j);
    hide Seen;
    assert at[j] > k ==> FileAt(w.repo, chain[at[j]]) != Clean;
    assert at[j] == k ==> FileAt(w.repo, chain[at[j]]) == Flagged;
  }

  lemma CleanAfterHeldIsFix(w: Walk, chain: seq<Commit>, at: seq<nat>, k: nat, m: nat, i: nat)
    requires Honest(w.repo) && Linear(w, chain, at) && !w.guarded
    requires FirstHeld(w, chain, k) && FirstClean(w, chain, k, m) && i < |at| && at[i] == m
    ensures Fix(w, i)
  {
    SeenOnChain(w, chain, at, i);
    hide Seen;
    var c, p := chain[m], chain[m - 1];
    assert w.walked[i] == c && ParentsOf(w.repo, c) == [p];
    if FileAt(w.repo, p) == Flagged {
      assert p in ParentsOf(w.repo, c);
      assert SomeParentHolds(w, c);
    } else {
      assert FileAt(w.repo, p) == Missing;
      ChainDescends(w.repo, chain, k, m);
      hide Descends;
      HeldIsHolder(w, chain, at, k, i);
      assert IsAncestor(w.repo, chain[k], c);
      assert NoParentHasFile(w, c);
    }
  }

  lemma HeldIsHolder(w: Walk, chain: seq<Commit>, at: seq<nat>, k: nat, i: nat)
    requires Linear(w, chain, at) && FirstHeld(w, chain, k) && i < |at| && k < at[i]
    ensures Holder(w, i, chain[k]) && chain[k] in [w.start] + w.walked
  {
    if k > 0 {
      var j := HeldIsWalked(w, chain, at, k);
      AtIsOrdered(w, chain, at, j, i);
      assert w.walked[..i][j] == chain[k];
      assert w.walked[j] in w.walked;
    }
  }

  // ---------------------------------------------------------------- such histories exist

  /** Commit 2 removes the line that its parent 1 holds, and is HEAD. */
  const FIXED: Repo :=
    Repo(map[1 := Info([], Flagged, 10), 2 := Info([1], Clean, 20)], map[1 := {1}, 2 := {1, 2}], 2, [2])

  lemma OnlyFromOne(path: seq<Commit>)
    requires |path| >= 2 && forall i :: 0 < i < |path| ==> path[i - 1] in ParentsOf(FIXED, path[i])
    ensures path[0] == 1 && path[|path| - 1] == 2
  {
    assert path[1 - 1] in ParentsOf(FIXED, path[1]);
    assert path[|path| - 2] in ParentsOf(FIXED, path[|path| - 1]);
  }

  lemma FixedIsHonest()
    ensures Honest(FIXED)
  {
    forall a, c | c in FIXED.commits ensures IsAncestor(FIXED, a, c) <==> a == c || Descends(FIXED, a, c) {
      if Descends(FIXED, a, c) {
        var path :| |path| >= 2 && path[0] == a && path[|path| - 1] == c
                    && forall i :: 0 < i < |path| ==> path[i - 1] in ParentsOf(FIXED, path[i]);
        OnlyFromOne(path);
      }
      ParentDescends(FIXED, 1, 2);
    }
  }

  /** The two commits are a linear history, and the removal is the verdict. */
  lemma FixedIsLinear()
    ensures var w := Walk(FIXED, Review(1, 0), 1, false, [2]);
            && Honest(w.repo) && Linear(w, [1, 2], [1]) && FileAt(w.repo, w.repo.head) == Clean
            && WalkVerdict(w) == Committed(Observed(2))
            && FindChange(FIXED, Review(1, 0), Some(1), None, _ => [2]) == Committed(Observed(2))
  {
    FixedIsHonest();
    var w := Walk(FIXED, Review(1, 0), 1, false, [2]);
    hide Honest;
    assert Linear(w, [1, 2], [1]);
    assert FirstHeld(w, [1, 2], 0) && FirstClean(w, [1, 2], 0, 1);
    LinearHistoryIsExact(w, [1, 2], [1]);
  }
}
