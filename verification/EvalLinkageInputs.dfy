/** The verdict on a vanished line, from the review, the commits and the branches it was given. */
module EvalLinkageInputs {
  import opened Options
  import opened EvalLinkage

  // ---------------------------------------------------------------- which history is judged

  /** HEAD decides first; then a review whose commit is here is judged from the merge base, guarded exactly if that is
      another commit, and one whose commit is gone from HEAD's last commit before the review, unguarded. */
  lemma JudgedFrom(repo: Repo, review: Review, base: Option<Commit>, before: Option<Commit>,
                   walked: Commit -> seq<Commit>)
    ensures var verdict := FindChange(repo, review, base, before, walked);
            && (FileAt(repo, repo.head) == Unreadable ==> verdict == Raised(ObjectUnavailable))
            && (FileAt(repo, repo.head) == Missing ==> verdict == Committed(Open(FileDeletedAtHead)))
            && (FileAt(repo, repo.head) == Flagged ==> verdict == Committed(StillThere))
            && (FileAt(repo, repo.head) == Clean && review.headSha in repo.commits && base.None? ==>
                  verdict == Committed(Open(NoSharedHistory)))
            && (FileAt(repo, repo.head) == Clean && review.headSha in repo.commits && base == Some(review.headSha) ==>
                  verdict == WalkVerdict(Walk(repo, review, review.headSha, false, walked(review.headSha))))
            && (forall b :: FileAt(repo, repo.head) == Clean && review.headSha in repo.commits
                            && base == Some(b) && b != review.headSha ==>
                  verdict == WalkVerdict(Walk(repo, review, b, true, walked(b))))
            && (FileAt(repo, repo.head) == Clean && review.headSha !in repo.commits && before.None? ==>
                  verdict == Committed(Open(NoCommitBeforeReview)))
            && (forall b :: FileAt(repo, repo.head) == Clean && review.headSha !in repo.commits && before == Some(b) ==>
                  verdict == WalkVerdict(Walk(repo, review, b, false, walked(b))))
  {
    hide WalkVerdict;
  }

  /** A review of a commit that HEAD does not contain: a commit observed to fix it is not older than the review, and a
      commit is inferred only once no branch contains the reviewed one. */
  lemma DivergentReviewIsGuarded(repo: Repo, review: Review, b: Commit, before: Option<Commit>,
                                 walked: Commit -> seq<Commit>, c: Commit)
    requires review.headSha in repo.commits && b != review.headSha
    ensures var verdict := FindChange(repo, review, Some(b), before, walked);
            && (verdict == Committed(Observed(c)) ==>
                  c in repo.commits && repo.commits[c].time * 1000 >= review.startedMs)
            && (verdict == Committed(Inferred(c)) ==>
                  forall r :: r in repo.refs ==> !(r in repo.above && review.headSha in repo.above[r]))
  {
    JudgedFrom(repo, review, Some(b), before, walked);
    hide FindChange;
    var w := Walk(repo, review, b, true, walked(b));
    if WalkVerdict(w) == Committed(Observed(c)) {
      hide Infer;
      assert Fix(w, FirstStop(w, 0));
      hide Removes;
    }
    if WalkVerdict(w) == Committed(Inferred(c)) {
      assert !BranchRemains(w);
      forall r | r in repo.refs ensures !IsAncestor(repo, review.headSha, r) {}
    }
  }

  // ---------------------------------------------------------------- when the line was there

  /** The line is there after step `i` of the walk: some commit held it, and no removal that was too early on a
      divergent branch came after the last that did. */
  predicate HeldUntil(w: Walk, i: nat)
    requires i <= |w.walked|
  {
    || (FileAt(w.repo, w.start) == Flagged && forall k :: 0 <= k < i ==> !Cancels(w, k))
    || exists h :: 0 <= h < i && FileAt(w.repo, w.walked[h]) == Flagged && forall k :: h < k < i ==> !Cancels(w, k)
  }

  predicate Cancels(w: Walk, k: nat)
    requires k < |w.walked|
  {
    w.guarded && TimeOf(w.repo, w.walked[k]) * 1000 < w.review.startedMs && Removes(w, k)
  }

  lemma HeldNext(w: Walk, i: nat)
    requires 0 < i <= |w.walked|
    ensures HeldUntil(w, i) <==>
              FileAt(w.repo, w.walked[i - 1]) == Flagged || (HeldUntil(w, i - 1) && !Cancels(w, i - 1))
  {
    hide Cancels;
    if FileAt(w.repo, w.walked[i - 1]) != Flagged && HeldUntil(w, i - 1) && !Cancels(w, i - 1) {
      if FileAt(w.repo, w.start) == Flagged && forall k :: 0 <= k < i - 1 ==> !Cancels(w, k) {
        assert forall k :: 0 <= k < i ==> !Cancels(w, k);
      } else {
        var h :|
          0 <= h < i - 1 && FileAt(w.repo, w.walked[h]) == Flagged && forall k :: h < k < i - 1 ==> !Cancels(w, k);
        assert forall k :: h < k < i ==> !Cancels(w, k);
      }
    }
  }

  lemma {:induction false} SeenIffHeld(w: Walk, i: nat)
    requires i <= |w.walked|
    ensures Seen(w, i) <==> HeldUntil(w, i)
  {
    hide Removes;
    if i > 0 {
      SeenIffHeld(w, i - 1);
      HeldNext(w, i);
      hide HeldUntil;
    }
  }

  // ---------------------------------------------------------------- what each verdict says

  /** A step that takes the line away: the line was there, the file is there without it, a parent had it or the file
      is new over all parents and some ancestor on the walk held it, and it is not too early for a divergent branch. */
  predicate TakesLine(w: Walk, i: nat)
    requires i < |w.walked|
  {
    var c := w.walked[i];
    && HeldUntil(w, i) && FileAt(w.repo, c) == Clean
    && (|| (exists p :: p in ParentsOf(w.repo, c) && FileAt(w.repo, p) == Flagged)
        || ((forall p :: p in ParentsOf(w.repo, c) ==> FileAt(w.repo, p) == Missing) && HeldAbove(w, i, c)))
    && (w.guarded ==> TimeOf(w.repo, c) * 1000 >= w.review.startedMs)
  }

  /** Some commit that the walk knows to hold the line before step `i` is an ancestor of `c`. */
  predicate HeldAbove(w: Walk, i: nat, c: Commit)
    requires i <= |w.walked|
  {
    || (FileAt(w.repo, w.start) == Flagged && IsAncestor(w.repo, w.start, c))
    || exists h :: 0 <= h < i && FileAt(w.repo, w.walked[h]) == Flagged && IsAncestor(w.repo, w.walked[h], c)
  }

  lemma HeldAboveIff(w: Walk, i: nat, c: Commit)
    requires i <= |w.walked|
    ensures HeldAbove(w, i, c) <==>
              exists h :: h in [w.start] + w.walked && Holder(w, i, h) && IsAncestor(w.repo, h, c)
  {
    hide IsAncestor;
    hide FileAt;
    if exists h :: h in [w.start] + w.walked && Holder(w, i, h) && IsAncestor(w.repo, h, c) {
      var h :| h in [w.start] + w.walked && Holder(w, i, h) && IsAncestor(w.repo, h, c);
      if h != w.start {
        var k :| 0 <= k < i && w.walked[..i][k] == h;
        assert w.walked[k] == h;
      }
    }
    if HeldAbove(w, i, c) {
      if FileAt(w.repo, w.start) == Flagged && IsAncestor(w.repo, w.start, c) {
        assert w.start in [w.start] + w.walked && Holder(w, i, w.start);
      } else {
        var h :| 0 <= h < i && FileAt(w.repo, w.walked[h]) == Flagged && IsAncestor(w.repo, w.walked[h], c);
        assert w.walked[h] == w.walked[..i][h] && ([w.start] + w.walked)[h + 1] == w.walked[h];
        assert Holder(w, i, w.walked[h]);
      }
    }
  }

  lemma FixIffTakesLine(w: Walk, i: nat)
    requires i < |w.walked|
    ensures Fix(w, i) <==> TakesLine(w, i)
  {
    SeenIffHeld(w, i);
    HeldAboveIff(w, i, w.walked[i]);
    hide HeldUntil;
    hide HeldAbove;
    hide Seen;
    hide Holder;
    hide IsAncestor;
    hide FileAt;
    hide TimeOf;
  }

  /** A step that needs an object that cannot be read, before any that takes the line away, stops the walk. */
  lemma NothingUnreadableIsSkipped(w: Walk, i: nat)
    requires i < |w.walked| && forall j :: 0 <= j < i ==> !TakesLine(w, j)
    requires || FileAt(w.repo, w.walked[i]) == Unreadable
             || (FileAt(w.repo, w.walked[i]) == Clean && HeldUntil(w, i)
                 && exists p :: p in ParentsOf(w.repo, w.walked[i]) && FileAt(w.repo, p) == Unreadable)
    ensures WalkVerdict(w) == Raised(ObjectUnavailable)
  {
    SeenIffHeld(w, i);
    assert Stuck(w, i);
    forall j | 0 <= j < i ensures !Fix(w, j) { FixIffTakesLine(w, j); }
    hide Fix;
    hide TakesLine;
    hide HeldUntil;
    hide Stuck;
    hide Infer;
  }

  /** So does an unreadable object where the walk starts, before any step; and nothing is raised unless the start, a
      walked commit, a parent of one or a branch tip cannot be read. */
  lemma OnlyUnreadableRaises(w: Walk)
    ensures FileAt(w.repo, w.start) == Unreadable ==> WalkVerdict(w) == Raised(ObjectUnavailable)
    ensures WalkVerdict(w).Raised? ==>
              || FileAt(w.repo, w.start) == Unreadable
              || (exists x :: x in w.walked && FileAt(w.repo, x) == Unreadable)
              || (exists x, p :: x in w.walked && p in ParentsOf(w.repo, x) && FileAt(w.repo, p) == Unreadable)
              || exists r :: r in w.repo.refs && FileAt(w.repo, r) == Unreadable
  {
    if WalkVerdict(w).Raised? && FileAt(w.repo, w.start) != Unreadable {
      var stop := FirstStop(w, 0);
      if stop < |w.walked| {
        assert w.walked[stop] in w.walked && Stuck(w, stop);
      } else {
        InfersExactly(w, w.start);
        hide Infer;
      }
    }
  }

  /** Where every object can be read, a walk observes exactly the first commit that takes the line away. */
  lemma ObservesTheFirst(w: Walk, c: Commit)
    requires FileAt(w.repo, w.start) != Unreadable
    requires forall x :: x in w.walked ==>
               && FileAt(w.repo, x) != Unreadable
               && forall p :: p in ParentsOf(w.repo, x) ==> FileAt(w.repo, p) != Unreadable
    ensures WalkVerdict(w) == Committed(Observed(c)) <==>
              exists i :: 0 <= i < |w.walked| && w.walked[i] == c && TakesLine(w, i)
                          && forall j :: 0 <= j < i ==> !TakesLine(w, j)
    ensures (forall i :: 0 <= i < |w.walked| ==> !TakesLine(w, i)) ==>
              WalkVerdict(w) == if HeldUntil(w, |w.walked|) then Committed(Open(NoWalkedCommitRemovedIt)) else Infer(w)
  {
    forall i | 0 <= i < |w.walked| ensures (Fix(w, i) <==> TakesLine(w, i)) && !Stuck(w, i) {
      FixIffTakesLine(w, i);
      NeverStuck(w, i);
    }
    SeenIffHeld(w, |w.walked|);
    InferNeverObserves(w, c);
    hide *;
    VerdictOf(w, c);
  }

  lemma NeverStuck(w: Walk, i: nat)
    requires i < |w.walked| && FileAt(w.repo, w.walked[i]) != Unreadable
    requires forall p :: p in ParentsOf(w.repo, w.walked[i]) ==> FileAt(w.repo, p) != Unreadable
    ensures !Stuck(w, i)
  {
  }

  lemma VerdictOf(w: Walk, c: Commit)
    requires FileAt(w.repo, w.start) != Unreadable && Infer(w) != Committed(Observed(c))
    requires forall i :: 0 <= i < |w.walked| ==> (Fix(w, i) <==> TakesLine(w, i)) && !Stuck(w, i)
    requires Seen(w, |w.walked|) <==> HeldUntil(w, |w.walked|)
    ensures WalkVerdict(w) == Committed(Observed(c)) <==>
              exists i :: 0 <= i < |w.walked| && w.walked[i] == c && TakesLine(w, i)
                          && forall j :: 0 <= j < i ==> !TakesLine(w, j)
    ensures (forall i :: 0 <= i < |w.walked| ==> !TakesLine(w, i)) ==>
              WalkVerdict(w) == if HeldUntil(w, |w.walked|) then Committed(Open(NoWalkedCommitRemovedIt)) else Infer(w)
  {
    hide Infer;
    hide Fix;
    hide TakesLine;
    hide Stuck;
    hide HeldUntil;
    hide Seen;
    hide FileAt;
    var stop := FirstStop(w, 0);
    if stop < |w.walked| {
      assert TakesLine(w, stop) && forall j :: 0 <= j < stop ==> !TakesLine(w, j);
    }
  }

  lemma InferNeverObserves(w: Walk, c: Commit)
    ensures Infer(w) != Committed(Observed(c))
  {
  }

  /** Once the line is not there any more, a commit is named exactly in this case: it is the first walked one that has
      the file and is not older than the review, no branch contains a reviewed commit that HEAD does not, and no
      branch tip holds the line or cannot be read. Every other answer names what is in the way. */
  lemma InfersExactly(w: Walk, c: Commit)
    ensures Infer(w) == Committed(Inferred(c)) <==>
              && (exists i :: 0 <= i < |w.walked| && w.walked[i] == c && InTime(w, c)
                              && forall j :: 0 <= j < i ==> !InTime(w, w.walked[j]))
              && (w.guarded ==> forall r :: r in w.repo.refs ==> !IsAncestor(w.repo, w.review.headSha, r))
              && (forall r :: r in w.repo.refs ==> FileAt(w.repo, r) in {Missing, Clean})
    ensures Infer(w) == Committed(Open(NothingTouchesPath)) <==>
              forall x :: x in w.walked ==> FileAt(w.repo, x) == Missing
    ensures Infer(w) == Committed(Open(OnlyTouchedBeforeReview)) <==>
              (exists x :: x in w.walked && FileAt(w.repo, x) != Missing) && forall x :: x in w.walked ==> !InTime(w, x)
    ensures Infer(w) == Committed(Open(ReviewedBranchExists)) <==>
              && (exists x :: x in w.walked && InTime(w, x))
              && w.guarded && exists r :: r in w.repo.refs && IsAncestor(w.repo, w.review.headSha, r)
    ensures Infer(w) == Committed(Open(LineOnARef)) ==> exists r :: r in w.repo.refs && FileAt(w.repo, r) == Flagged
    ensures Infer(w).Raised? ==> exists r :: r in w.repo.refs && FileAt(w.repo, r) == Unreadable
  {
    var first := FirstTouch(w, 0);
    forall i | 0 <= i < |w.walked| ensures LateTouch(w, w.walked[i]) <==> InTime(w, w.walked[i]) {}
    if first < |w.walked| {
      assert w.walked[first] in w.walked && InTime(w, w.walked[first]);
    } else {
      forall x | x in w.walked ensures !InTime(w, x) {
        var i :| 0 <= i < |w.walked| && w.walked[i] == x;
      }
    }
    RefsSettle(w.repo);
    hide LateTouch;
    hide IsAncestor;
  }

  predicate InTime(w: Walk, c: Commit) {
    FileAt(w.repo, c) != Missing
    && (if c in w.repo.commits then w.repo.commits[c].time else 0) * 1000 >= w.review.startedMs
  }

  lemma RefsSettle(repo: Repo)
    ensures var r := FirstRef(repo, 0);
            && (r == |repo.refs| <==> forall x :: x in repo.refs ==> FileAt(repo, x) in {Missing, Clean})
            && (r < |repo.refs| ==> repo.refs[r] in repo.refs && FileAt(repo, repo.refs[r]) in {Flagged, Unreadable})
  {
    var r := FirstRef(repo, 0);
    if r == |repo.refs| {
      forall x | x in repo.refs ensures FileAt(repo, x) in {Missing, Clean} {
        var i :| 0 <= i < |repo.refs| && repo.refs[i] == x;
        var file := FileAt(repo, repo.refs[i]);
        assert file.Missing? || file.Clean? || file.Flagged? || file.Unreadable?;
      }
    }
  }
}
