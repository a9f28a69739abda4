/** The link rows of MEMORY.md documents and the two transactions that resolve them. */
module IndexLinkTable {
  import opened Options
  import opened RowIds
  import opened IndexLinks
  import AutoMemory
  import Lists

  datatype Resolution = Resolved | Unresolved | External | Ambiguous | Circular
  datatype Link = Link(source: DocId, target: Option<DocId>, targetPath: string, resolution: Resolution)
  datatype Document = Document(repository: string, logicalPath: string, active: bool)
  type Documents = map<DocId, Document>

  /** A link's text after path resolution: outside the memory directory, or a file name inside it. */
  datatype Href = Elsewhere(path: string) | Inside(path: string)

  datatype ReconcileError = DuplicateTarget

  // ---------------------------------------------------------------- the resolved graph

  predicate IsEdge(link: Link) {
    link.resolution == Resolved && link.target.Some?
  }

  function Edges(links: seq<Link>): set<Edge> {
    set i | 0 <= i < |links| && IsEdge(links[i]) :: (links[i].source, links[i].target.value)
  }

  function EdgeOf(link: Link): set<Edge> {
    if IsEdge(link) then {(link.source, link.target.value)} else {}
  }

  lemma EdgesOfAppend(links: seq<Link>, link: Link)
    ensures Edges(links + [link]) == Edges(links) + EdgeOf(link)
  {
    var all := links + [link];
    forall e ensures e in Edges(all) <==> e in Edges(links) + EdgeOf(link) {
      if e in Edges(links) {
        var i :| 0 <= i < |links| && IsEdge(links[i]) && e == (links[i].source, links[i].target.value);
        assert all[i] == links[i];
      }
      if e in EdgeOf(link) {
        assert all[|links|] == link;
      }
    }
  }

  lemma EdgesOfUpdate(links: seq<Link>, i: nat, link: Link)
    requires i < |links|
    ensures Edges(links[i := link]) <= Edges(links) + EdgeOf(link)
  {
  }

  function Without(links: seq<Link>, source: DocId): (kept: seq<Link>)
    ensures forall l :: l in kept <==> l in links && l.source != source
  {
    if links == [] then []
    else if links[0].source == source then Without(links[1..], source)
    else [links[0]] + Without(links[1..], source)
  }

  lemma EdgesOfFewer(links: seq<Link>, fewer: seq<Link>)
    requires forall l :: l in fewer ==> l in links
    ensures Edges(fewer) <= Edges(links)
  {
    forall e | e in Edges(fewer) ensures e in Edges(links) {
      var i :| 0 <= i < |fewer| && IsEdge(fewer[i]) && e == (fewer[i].source, fewer[i].target.value);
      assert fewer[i] in links;
    }
  }

  // ---------------------------------------------------------------- resolving one link

  function Matching(docs: Documents, repository: string, path: string): set<DocId> {
    set d | d in docs && docs[d].repository == repository && docs[d].logicalPath == path && docs[d].active
  }

  ghost function Resolve(docs: Documents, edges: set<Edge>, source: DocId, repository: string, href: Href): Link {
    match href
    case Elsewhere(path) => Link(source, None, path, External)
    case Inside(path) =>
      var targets := Matching(docs, repository, path);
      if |targets| > 1 then Link(source, None, path, Ambiguous)
      else if |targets| == 0 then Link(source, None, path, Unresolved)
      else
        var t := TheOnly(targets);
        if t == source then Link(source, None, path, Circular)
        else if CycleAnswer(edges, source, t) then Link(source, Some(t), path, Circular)
        else Link(source, Some(t), path, Resolved)
  }

  ghost function Resettled(docs: Documents, links: seq<Link>, repository: string, present: set<string>, i: nat): Link
    requires i < |links|
  {
    var link := links[i];
    if link.resolution != Unresolved || link.source !in docs || docs[link.source].repository != repository then link
    else if link.targetPath !in present then link
    else
      var targets := Matching(docs, repository, link.targetPath);
      if |targets| != 1 then link.(resolution := if |targets| > 1 then Ambiguous else Unresolved)
      else
        var t := TheOnly(targets);
        link.(target := Some(t),
              resolution := if t != link.source && !CycleAnswer(Edges(links), link.source, t)
                            then Resolved else Circular)
  }

  // ---------------------------------------------------------------- the two transactions

  ghost function AppendAll(links: seq<Link>, docs: Documents, source: DocId, repository: string,
                           hrefs: seq<Href>): seq<Link> {
    if hrefs == [] then links
    else
      var n := |hrefs| - 1;
      var before := AppendAll(links, docs, source, repository, hrefs[..n]);
      before + [Resolve(docs, Edges(before), source, repository, hrefs[n])]
  }

  function Paths(hrefs: seq<Href>): (r: seq<string>)
    ensures |r| == |hrefs| && forall i :: 0 <= i < |r| ==> r[i] == hrefs[i].path
  {
    seq(|hrefs|, i requires 0 <= i < |hrefs| => hrefs[i].path)
  }

  /** Rebuild one document's links; the unique target path per revision rejects a repeated target. What an ingest
      that raised leaves behind, if anything, is a rebuild with the hrefs before the repeat. */
  ghost function Reconciled(links: seq<Link>, docs: Documents, source: DocId, logicalPath: string, repository: string,
                            hrefs: seq<Href>): (seq<Link>, Outcome<nat, ReconcileError>)
  {
    if logicalPath != AutoMemory.INDEX_LOGICAL_PATH then (links, Committed(0))
    else if !Lists.Distinct(Paths(hrefs)) then (links, Raised(DuplicateTarget))
    else (AppendAll(Without(links, source), docs, source, repository, hrefs), Committed(|hrefs|))
  }

  /** Re-resolve the first `n` rows in turn. */
  ghost function RetriedUpTo(links: seq<Link>, docs: Documents, repository: string, present: set<string>,
                             n: nat): (r: seq<Link>)
    requires n <= |links|
    ensures |r| == |links|
  {
    if n == 0 then links
    else
      var before := RetriedUpTo(links, docs, repository, present, n - 1);
      before[n - 1 := Resettled(docs, before, repository, present, n - 1)]
  }

  lemma AddingResolvedKeeps(edges: set<Edge>, all: set<Edge>, link: Link)
    requires Acyclic(edges) && all <= edges + EdgeOf(link)
    requires IsEdge(link) ==> !CycleAnswer(edges, link.source, link.target.value)
    ensures Acyclic(all)
  {
    if IsEdge(link) {
      NewEdgeKeepsAcyclic(edges, link.source, link.target.value);
    }
    FewerEdges(edges + EdgeOf(link), all);
  }

  lemma {:induction false} AppendAllKeeps(links: seq<Link>, docs: Documents, source: DocId, repository: string,
                                          hrefs: seq<Href>)
    requires Acyclic(Edges(links))
    ensures Acyclic(Edges(AppendAll(links, docs, source, repository, hrefs)))
    decreases |hrefs|
  {
    hide Edges;
    hide Acyclic;
    hide CycleAnswer;
    if hrefs != [] {
      var n := |hrefs| - 1;
      AppendAllKeeps(links, docs, source, repository, hrefs[..n]);
      var before := AppendAll(links, docs, source, repository, hrefs[..n]);
      var link := Resolve(docs, Edges(before), source, repository, hrefs[n]);
      EdgesOfAppend(before, link);
      AddingResolvedKeeps(Edges(before), Edges(before + [link]), link);
    }
  }

  lemma {:induction false} RetryKeeps(links: seq<Link>, docs: Documents, repository: string, present: set<string>,
                                      n: nat)
    requires n <= |links| && Acyclic(Edges(links))
    ensures Acyclic(Edges(RetriedUpTo(links, docs, repository, present, n)))
  {
    hide Edges;
    hide Acyclic;
    hide CycleAnswer;
    if n > 0 {
      RetryKeeps(links, docs, repository, present, n - 1);
      var before := RetriedUpTo(links, docs, repository, present, n - 1);
      var link := Resettled(docs, before, repository, present, n - 1);
      if link == before[n - 1] {
        assert before[n - 1 := link] == before;
      } else {
        EdgesOfUpdate(before, n - 1, link);
        AddingResolvedKeeps(Edges(before), Edges(before[n - 1 := link]), link);
      }
    }
  }

  // ---------------------------------------------------------------- runs

  /** Documents come, go and change state freely; deleting a revision drops its link rows and deleting
      a document clears the rows that point at it. */
  datatype Step =
    | SetDocuments(docs: Documents)
    | DropRow(i: nat)
    | ClearTarget(i: nat)
    | Reconcile(source: DocId, logicalPath: string, repository: string, hrefs: seq<Href>)
    | Retry(repository: string, present: set<string>)

  datatype Table = Table(docs: Documents, links: seq<Link>)

  ghost function Next(t: Table, step: Step): Table {
    match step
    case SetDocuments(docs) => t.(docs := docs)
    case DropRow(i) => if i < |t.links| then t.(links := t.links[..i] + t.links[i + 1..]) else t
    case ClearTarget(i) => if i < |t.links| then t.(links := t.links[i := t.links[i].(target := None)]) else t
    case Reconcile(source, path, repository, hrefs) =>
      t.(links := Reconciled(t.links, t.docs, source, path, repository, hrefs).0)
    case Retry(repository, present) =>
      t.(links := RetriedUpTo(t.links, t.docs, repository, present, |t.links|))
  }

  ghost function After(steps: seq<Step>): Table {
    if steps == [] then Table(map[], [])
    else Next(After(steps[..|steps| - 1]), steps[|steps| - 1])
  }

  lemma StepKeeps(t: Table, step: Step)
    requires Acyclic(Edges(t.links))
    ensures Acyclic(Edges(Next(t, step).links))
  {
    hide Acyclic;
    hide Edges;
    hide AppendAll;
    match step
    case SetDocuments(docs) =>
    case DropRow(i) =>
      if i < |t.links| {
        EdgesOfFewer(t.links, t.links[..i] + t.links[i + 1..]);
        FewerEdges(Edges(t.links), Edges(Next(t, step).links));
      }
    case ClearTarget(i) =>
      if i < |t.links| {
        EdgesOfUpdate(t.links, i, t.links[i].(target := None));
        FewerEdges(Edges(t.links), Edges(Next(t, step).links));
      }
    case Reconcile(source, path, repository, hrefs) =>
      EdgesOfFewer(t.links, Without(t.links, source));
      FewerEdges(Edges(t.links), Edges(Without(t.links, source)));
      AppendAllKeeps(Without(t.links, source), t.docs, source, repository, hrefs);
    case Retry(repository, present) => RetryKeeps(t.links, t.docs, repository, present, |t.links|);
  }

  /** Main result: no history of document changes, rebuilds and retries ever closes a cycle. */
  lemma {:induction false} ResolvedLinksNeverCycle(steps: seq<Step>)
    ensures Acyclic(Edges(After(steps).links))
  {
    if steps == [] {
      var none := Edges(After(steps).links);
      assert none == {};
      forall p | IsWalk(none, p) && |p| > 1 ensures p[0] != Last(p) { Climbs(none, p); }
    } else {
      ResolvedLinksNeverCycle(steps[..|steps| - 1]);
      StepKeeps(After(steps[..|steps| - 1]), steps[|steps| - 1]);
    }
  }

  // ---------------------------------------------------------------- the transactions as they run

  class LinkTable {
    var docs: Documents
    var links: seq<Link>

    function State(): Table
      reads this
    {
      Table(docs, links)
    }

    method ClassifyLink(source: DocId, repository: string, href: Href) returns (link: Link)
      ensures link == Resolve(docs, Edges(links), source, repository, href)
    {
      hide CycleAnswer;
      if href.Elsewhere? {
        return Link(source, None, href.path, External);
      }
      var targets := Matching(docs, repository, href.path);
      if |targets| > 1 {
        return Link(source, None, href.path, Ambiguous);
      }
      if |targets| == 1 {
        var t := TheOnly(targets);
        if t == source {
          return Link(source, None, href.path, Circular);
        }
        var cycle := WouldCreateCycle(Edges(links), source, t);
        return Link(source, Some(t), href.path, if cycle then Circular else Resolved);
      }
      return Link(source, None, href.path, Unresolved);
    }

    method ReconcileIndexLinks(source: DocId, logicalPath: string, repository: string, hrefs: seq<Href>)
      returns (result: Outcome<nat, ReconcileError>)
      modifies this`links
      ensures (links, result) == Reconciled(old(links), docs, source, logicalPath, repository, hrefs)
    {
      if logicalPath != AutoMemory.INDEX_LOGICAL_PATH {
        return Committed(0);
      }
      if !Lists.Distinct(Paths(hrefs)) {
        return Raised(DuplicateTarget);
      }
      links := Without(links, source);
      ghost var start := links;
      for i := 0 to |hrefs|
        invariant links == AppendAll(start, docs, source, repository, hrefs[..i])
      {
        assert hrefs[..i + 1][..i] == hrefs[..i];
        var link := ClassifyLink(source, repository, hrefs[i]);
        links := links + [link];
      }
      assert hrefs[..|hrefs|] == hrefs;
      result := Committed(|hrefs|);
    }

    method RetryUnresolvedLinks(repository: string, present: set<string>)
      modifies this`links
      ensures links == RetriedUpTo(old(links), docs, repository, present, |old(links)|)
    {
      for i := 0 to |links|
        invariant |links| == |old(links)|
        invariant links == RetriedUpTo(old(links), docs, repository, present, i)
      {
        var link := links[i];
        if link.resolution == Unresolved && link.source in docs && docs[link.source].repository == repository
           && link.targetPath in present
        {
          var targets := Matching(docs, repository, link.targetPath);
          if |targets| != 1 {
            link := link.(resolution := if |targets| > 1 then Ambiguous else Unresolved);
          } else {
            var t, resolution := TheOnly(targets), Circular;
            if t != link.source {
              var cycle := WouldCreateCycle(Edges(links), link.source, t);
              if !cycle {
                resolution := Resolved;
              }
            }
            link := link.(target := Some(t), resolution := resolution);
          }
        }
        links := links[i := link];
      }
    }
  }
}
