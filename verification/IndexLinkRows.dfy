/** How each link row is resolved, from the documents and the graph as they are when its turn comes. */
module IndexLinkRows {
  import opened Options
  import opened RowIds
  import opened IndexLinks
  import opened IndexLinkTable
  import AutoMemory
  import Lists

  // ---------------------------------------------------------------- what a path stands for

  /** An active document of the repository under this path. */
  predicate Answers(docs: Documents, repository: string, path: string, d: DocId) {
    d in docs && docs[d].active && docs[d].repository == repository && docs[d].logicalPath == path
  }

  ghost predicate OnlyAnswer(docs: Documents, repository: string, path: string, d: DocId) {
    Answers(docs, repository, path, d) && forall e :: Answers(docs, repository, path, e) ==> e == d
  }

  ghost predicate NoAnswer(docs: Documents, repository: string, path: string) {
    forall d :: !Answers(docs, repository, path, d)
  }

  ghost predicate SeveralAnswers(docs: Documents, repository: string, path: string) {
    exists d: DocId, e: DocId :: d != e && Answers(docs, repository, path, d) && Answers(docs, repository, path, e)
  }

  /** A link may be followed to another document that does not lead back and from which no two walks meet. */
  ghost predicate Followable(edges: set<Edge>, source: DocId, d: DocId) {
    d != source && !Reaches(edges, d, source) && !Rejoins(edges, d)
  }

  lemma MatchingCounts(docs: Documents, repository: string, path: string)
    ensures var targets := Matching(docs, repository, path);
            && (|targets| == 0 <==> NoAnswer(docs, repository, path))
            && (|targets| > 1 <==> SeveralAnswers(docs, repository, path))
            && (forall d: DocId :: OnlyAnswer(docs, repository, path, d) <==> |targets| == 1 && TheOnly(targets) == d)
  {
    var targets := Matching(docs, repository, path);
    assert forall d :: d in targets <==> Answers(docs, repository, path, d);
    hide Matching;
    hide Answers;
    if |targets| == 1 {
      SingletonElement(targets);
    }
    if targets != {} {
      var d :| d in targets;
      if |targets| > 1 {
        assert |targets - {d}| > 0;
        var e :| e in targets - {d};
        assert d != e && Answers(docs, repository, path, d) && Answers(docs, repository, path, e);
      }
    }
    forall d: DocId | OnlyAnswer(docs, repository, path, d) ensures |targets| == 1 && TheOnly(targets) == d {
      assert targets == {d};
    }
    if SeveralAnswers(docs, repository, path) {
      var d: DocId, e: DocId :| d != e && Answers(docs, repository, path, d) && Answers(docs, repository, path, e);
      TwoElements(targets, d, e);
    }
  }

  lemma TwoElements(s: set<nat>, a: nat, b: nat)
    requires a in s && b in s && a != b
    ensures |s| > 1
  {
    assert |s| == |s - {a}| + 1 && b in s - {a};
  }

  // ---------------------------------------------------------------- rebuilding

  /** The row a rebuild inserts for an href: external exactly if the href is elsewhere, unresolved exactly if no active
      document answers, ambiguous exactly if several do; the only one is its target unless it is the source itself,
      and the row is resolved exactly if it may be followed, circular otherwise. */
  ghost predicate Classified(docs: Documents, edges: set<Edge>, source: DocId, repository: string, href: Href,
                             row: Link)
  {
    && row.source == source && row.targetPath == href.path
    && (row.resolution == External <==> href.Elsewhere?)
    && (row.resolution == Unresolved <==> href.Inside? && NoAnswer(docs, repository, href.path))
    && (row.resolution == Ambiguous <==> href.Inside? && SeveralAnswers(docs, repository, href.path))
    && (forall d: DocId :: href.Inside? && OnlyAnswer(docs, repository, href.path, d) ==>
          && row.resolution == (if Followable(edges, source, d) then Resolved else Circular)
          && row.target == (if d == source then None else Some(d)))
    && (row.target.Some? ==> href.Inside? && OnlyAnswer(docs, repository, href.path, row.target.value))
    && (row.resolution in {Resolved, Circular} ==>
          href.Inside? && exists d: DocId :: OnlyAnswer(docs, repository, href.path, d))
  }

  lemma ResolveClassifies(docs: Documents, edges: set<Edge>, source: DocId, repository: string, href: Href)
    ensures Classified(docs, edges, source, repository, href, Resolve(docs, edges, source, repository, href))
  {
    MatchingCounts(docs, repository, href.path);
    hide Matching;
    hide NoAnswer;
    hide SeveralAnswers;
    hide OnlyAnswer;
    hide Reaches;
    hide Rejoins;
    var targets := Matching(docs, repository, href.path);
    if |targets| == 1 {
      assert OnlyAnswer(docs, repository, href.path, TheOnly(targets));
    }
  }

  /** The rows a rebuild appends, each classified against the rows before it. */
  lemma {:induction false} AppendedRows(links: seq<Link>, docs: Documents, source: DocId, repository: string,
                                        hrefs: seq<Href>, i: nat)
    requires i < |hrefs|
    ensures var after := AppendAll(links, docs, source, repository, hrefs);
            && |after| == |links| + |hrefs| && links <= after
            && Classified(docs, Edges(after[..|links| + i]), source, repository, hrefs[i], after[|links| + i])
  {
    var n := |hrefs| - 1;
    var before := AppendAll(links, docs, source, repository, hrefs[..n]);
    var after := AppendAll(links, docs, source, repository, hrefs);
    hide Classified;
    hide Edges;
    hide Resolve;
    if n > 0 {
      AppendedRows(links, docs, source, repository, hrefs[..n], if i < n then i else 0);
    }
    assert |before| == |links| + n && links <= before;
    if i < n {
      assert after[..|links| + i] == before[..|links| + i];
    } else {
      assert after[..|links| + i] == before;
      ResolveClassifies(docs, Edges(before), source, repository, hrefs[n]);
    }
  }

  /** Main result: rebuilding an index with distinct targets keeps the rows of every other document, in order, and puts
      one row per href behind them, each classified against the graph of the rows before it. */
  lemma RebuildClassifies(links: seq<Link>, docs: Documents, source: DocId, repository: string, hrefs: seq<Href>,
                          i: nat)
    requires Lists.Distinct(Paths(hrefs)) && i < |hrefs|
    ensures var (after, result) := Reconciled(links, docs, source, AutoMemory.INDEX_LOGICAL_PATH, repository, hrefs);
            var k := |after| - |hrefs|;
            && result == Committed(|hrefs|) && k >= 0
            && (forall l :: l in after[..k] <==> l in links && l.source != source)
            && Classified(docs, Edges(after[..k + i]), source, repository, hrefs[i], after[k + i])
  {
    AppendedRows(Without(links, source), docs, source, repository, hrefs, i);
    hide Classified;
    hide AppendAll;
    hide Edges;
    hide Lists.Distinct;
  }

  /** Only an index is rebuilt, and only if its hrefs have distinct targets; otherwise no row changes. */
  lemma OnlyTheIndexIsRebuilt(links: seq<Link>, docs: Documents, source: DocId, logicalPath: string,
                              repository: string, hrefs: seq<Href>)
    ensures var (after, result) := Reconciled(links, docs, source, logicalPath, repository, hrefs);
            && (logicalPath != "MEMORY.md" ==> after == links && result == Committed(0))
            && (logicalPath == "MEMORY.md" ==>
                  (result.Raised? <==> exists i, j :: 0 <= i < j < |hrefs| && hrefs[i].path == hrefs[j].path))
            && (result.Raised? ==> after == links && result.error == DuplicateTarget)
  {
    var paths := Paths(hrefs);
    hide Paths;
    hide AppendAll;
    if !Lists.Distinct(paths) {
      var i, j :| 0 <= i < j < |paths| && paths[i] == paths[j];
      assert hrefs[i].path == hrefs[j].path;
    }
    if exists i, j :: 0 <= i < j < |hrefs| && hrefs[i].path == hrefs[j].path {
      var i, j :| 0 <= i < j < |hrefs| && hrefs[i].path == hrefs[j].path;
      assert paths[i] == paths[j];
    }
  }

  // ---------------------------------------------------------------- retrying

  /** Still unresolved, of a document of this repository, with the file there. */
  predicate Retries(docs: Documents, repository: string, present: set<string>, row: Link) {
    && row.resolution == Unresolved && row.source in docs && docs[row.source].repository == repository
    && row.targetPath in present
  }

  /** What a retry makes of a row: nothing unless it is due; then unresolved exactly if nobody answers, ambiguous
      exactly if several do, and else a row to the only one, resolved exactly if that may be followed. */
  ghost predicate Settled(docs: Documents, edges: set<Edge>, repository: string, present: set<string>, row: Link,
                          after: Link)
  {
    if !Retries(docs, repository, present, row) then after == row
    else
      && after.source == row.source && after.targetPath == row.targetPath
      && (after.resolution == Unresolved <==> NoAnswer(docs, repository, row.targetPath))
      && (after.resolution == Ambiguous <==> SeveralAnswers(docs, repository, row.targetPath))
      && (after.resolution in {Unresolved, Ambiguous} ==> after.target == row.target)
      && forall d: DocId :: OnlyAnswer(docs, repository, row.targetPath, d) ==>
           after.target == Some(d)
           && after.resolution == if Followable(edges, row.source, d) then Resolved else Circular
  }

  lemma ResettledSettles(docs: Documents, links: seq<Link>, repository: string, present: set<string>, i: nat)
    requires i < |links|
    ensures Settled(docs, Edges(links), repository, present, links[i], Resettled(docs, links, repository, present, i))
  {
    MatchingCounts(docs, repository, links[i].targetPath);
    hide Matching;
    hide NoAnswer;
    hide SeveralAnswers;
    hide OnlyAnswer;
    hide Reaches;
    hide Rejoins;
    hide Edges;
    var targets := Matching(docs, repository, links[i].targetPath);
    if |targets| == 1 {
      assert OnlyAnswer(docs, repository, links[i].targetPath, TheOnly(targets));
    }
  }

  lemma {:induction false} LaterTurnsKeep(links: seq<Link>, docs: Documents, repository: string, present: set<string>,
                                          n: nat, m: nat)
    requires n <= m <= |links|
    ensures var early, late := RetriedUpTo(links, docs, repository, present, n),
                               RetriedUpTo(links, docs, repository, present, m);
            late[..n] == early[..n] && late[m..] == links[m..]
    decreases m
  {
    hide Resettled;
    if m > n {
      LaterTurnsKeep(links, docs, repository, present, n, m - 1);
    } else if n > 0 {
      LaterTurnsKeep(links, docs, repository, present, n - 1, n - 1);
    }
  }

  /** Main result: every row is settled in turn, against the graph of the rows settled before it and the others as
      they were. */
  lemma RetrySettles(links: seq<Link>, docs: Documents, repository: string, present: set<string>, i: nat)
    requires i < |links|
    ensures var after := RetriedUpTo(links, docs, repository, present, |links|);
            Settled(docs, Edges(after[..i] + links[i..]), repository, present, links[i], after[i])
  {
    var after := RetriedUpTo(links, docs, repository, present, |links|);
    var before := RetriedUpTo(links, docs, repository, present, i);
    var now := RetriedUpTo(links, docs, repository, present, i + 1);
    LaterTurnsKeep(links, docs, repository, present, i, i);
    LaterTurnsKeep(links, docs, repository, present, i, |links|);
    LaterTurnsKeep(links, docs, repository, present, i + 1, |links|);
    ResettledSettles(docs, before, repository, present, i);
    hide Resettled;
    assert now == before[i := Resettled(docs, before, repository, present, i)];
    assert after[..i + 1][i] == now[..i + 1][i];
    hide RetriedUpTo;
    hide Settled;
    hide Edges;
    assert before == before[..i] + before[i..] == after[..i] + links[i..];
    assert before[i] == before[i..][0] == links[i];
  }

  /** So no row stays unresolved whose file is there and whose document is there once. */
  lemma NothingDueIsLeft(links: seq<Link>, docs: Documents, repository: string, present: set<string>, i: nat, d: DocId)
    requires i < |links|
    ensures var after := RetriedUpTo(links, docs, repository, present, |links|);
            !(Retries(docs, repository, present, after[i]) && OnlyAnswer(docs, repository, after[i].targetPath, d))
  {
    RetrySettles(links, docs, repository, present, i);
    hide RetriedUpTo;
    hide Followable;
    hide Edges;
  }
}
