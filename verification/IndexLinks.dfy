/** Links between memory documents: the graph of links marked resolved never contains a cycle. */
module IndexLinks {
  import opened Options

  type DocId = nat
  type Edge = (DocId, DocId)
  type Walk = seq<DocId>

  // ---------------------------------------------------------------- walks

  ghost predicate IsWalk(edges: set<Edge>, p: Walk) {
    |p| > 0 && forall i :: 0 <= i < |p| - 1 ==> (p[i], p[i + 1]) in edges
  }

  function Last(p: Walk): DocId
    requires |p| > 0
  {
    p[|p| - 1]
  }

  ghost predicate Leads(edges: set<Edge>, p: Walk, from: DocId, to: DocId) {
    IsWalk(edges, p) && p[0] == from && Last(p) == to
  }

  ghost predicate Reaches(edges: set<Edge>, from: DocId, to: DocId) {
    exists p :: Leads(edges, p, from, to)
  }

  ghost predicate Acyclic(edges: set<Edge>) {
    forall p :: IsWalk(edges, p) && |p| > 1 ==> p[0] != Last(p)
  }

  /** Two different ways to get from a document to the same place. */
  ghost predicate Rejoins(edges: set<Edge>, from: DocId) {
    exists p, q, to :: p != q && Leads(edges, p, from, to) && Leads(edges, q, from, to)
  }

  lemma Join(edges: set<Edge>, p: Walk, q: Walk)
    requires IsWalk(edges, p) && IsWalk(edges, q) && Last(p) == q[0]
    ensures Leads(edges, p + q[1..], p[0], Last(q))
  {
    var r := p + q[1..];
    forall i | 0 <= i < |r| - 1 ensures (r[i], r[i + 1]) in edges {
      if i >= |p| - 1 {
        assert r[i] == q[i - (|p| - 1)] && r[i + 1] == q[i - (|p| - 1) + 1];
      }
    }
    assert Last(r) == Last(q);
  }

  lemma FewerEdges(edges: set<Edge>, fewer: set<Edge>)
    requires fewer <= edges && Acyclic(edges)
    ensures Acyclic(fewer)
  {
    forall p | IsWalk(fewer, p) && |p| > 1 ensures p[0] != Last(p) {
      assert IsWalk(edges, p);
    }
  }

  /** A walk that may use a new edge either does not, or leads to its tail and on from its head. */
  lemma {:induction false} WalkWithNewEdge(edges: set<Edge>, s: DocId, t: DocId, p: Walk)
    returns (used: bool, toTail: Walk, fromHead: Walk)
    requires IsWalk(edges + {(s, t)}, p)
    ensures !used ==> IsWalk(edges, p)
    ensures used ==> Leads(edges, toTail, p[0], s) && Leads(edges, fromHead, t, Last(p))
    decreases |p|
  {
    used, toTail, fromHead := false, [], [];
    if |p| > 1 {
      var rest := p[1..];
      assert IsWalk(edges + {(s, t)}, rest) by {
        forall i | 0 <= i < |rest| - 1 ensures (rest[i], rest[i + 1]) in edges + {(s, t)} {
          assert (p[i + 1], p[i + 2]) in edges + {(s, t)};
        }
      }
      used, toTail, fromHead := WalkWithNewEdge(edges, s, t, rest);
      assert (p[0], p[1]) in edges + {(s, t)};
      if (p[0], p[1]) in edges {
        if used {
          Join(edges, [p[0], p[1]], toTail);
          toTail := [p[0], p[1]] + toTail[1..];
        } else {
          forall i | 0 <= i < |p| - 1 ensures (p[i], p[i + 1]) in edges {
            assert i > 0 ==> p[i] == rest[i - 1] && p[i + 1] == rest[i];
          }
        }
      } else {
        toTail := [s];
        fromHead := if used then fromHead else rest;
        used := true;
      }
    }
  }

  lemma NewEdgeKeepsAcyclic(edges: set<Edge>, s: DocId, t: DocId)
    requires Acyclic(edges) && !Reaches(edges, t, s)
    ensures Acyclic(edges + {(s, t)})
  {
    forall p | IsWalk(edges + {(s, t)}, p) && |p| > 1 ensures p[0] != Last(p) {
      var used, toTail, fromHead := WalkWithNewEdge(edges, s, t, p);
      if used && p[0] == Last(p) {
        Join(edges, fromHead, toTail);
      }
    }
  }

  /** Conversely, an edge back to a document it is reachable from closes a cycle. */
  lemma BackEdgeClosesCycle(edges: set<Edge>, s: DocId, t: DocId)
    requires Reaches(edges, t, s)
    ensures !Acyclic(edges + {(s, t)})
  {
    var p :| Leads(edges, p, t, s);
    var all := edges + {(s, t)};
    assert IsWalk(all, p) && IsWalk(all, [s, t]);
    Join(all, [s, t], p);
    assert |[s, t] + p[1..]| > 1;
  }

  // ---------------------------------------------------------------- _would_create_cycle

  /** What the search answers: the source is met, or some document is met twice. */
  ghost predicate CycleAnswer(edges: set<Edge>, source: DocId, target: DocId) {
    Reaches(edges, target, source) || Rejoins(edges, target)
  }

  function Children(edges: set<Edge>, n: DocId): set<DocId> {
    set e | e in edges && e.0 == n :: e.1
  }

  function Heads(edges: set<Edge>): set<DocId> {
    set e | e in edges :: e.1
  }

  lemma ChildrenAreHeads(edges: set<Edge>, n: DocId)
    ensures Children(edges, n) <= Heads(edges)
  {
  }

  /** The walks by which the search met each expanded document. */
  type Found = map<DocId, Walk>

  ghost predicate FoundOk(edges: set<Edge>, target: DocId, found: Found) {
    forall n :: n in found ==> Leads(edges, found[n], target, n)
  }

  /** A walk is the target alone, or extends the one that met its second-last document. */
  ghost predicate Extends(target: DocId, found: Found, p: Walk) {
    p == [target] || (|p| > 1 && p[|p| - 2] in found && found[p[|p| - 2]] == p[..|p| - 1])
  }

  /** One more step from any expanded document is waiting or already expanded by that same walk. */
  ghost predicate Expanded(edges: set<Edge>, target: DocId, found: Found, waiting: seq<Walk>) {
    && Met(found, waiting, [target])
    && forall n, m :: n in found && (n, m) in edges ==> Met(found, waiting, found[n] + [m])
  }

  ghost predicate Met(found: Found, waiting: seq<Walk>, p: Walk)
    requires |p| > 0
  {
    p in waiting || (Last(p) in found && found[Last(p)] == p)
  }

  ghost predicate WaitingOk(edges: set<Edge>, target: DocId, found: Found, frontier: seq<DocId>, waiting: seq<Walk>) {
    && |waiting| == |frontier|
    && (forall i :: 0 <= i < |waiting| ==>
          && Leads(edges, waiting[i], target, frontier[i])
          && Extends(target, found, waiting[i])
          && (frontier[i] in found ==> waiting[i] != found[frontier[i]]))
    && (forall i, j :: 0 <= i < j < |waiting| ==> waiting[i] != waiting[j])
  }

  /** With nothing waiting, every walk from the target is one the search took. */
  lemma {:induction false} AllWalksFound(edges: set<Edge>, target: DocId, found: Found, p: Walk)
    requires Expanded(edges, target, found, []) && IsWalk(edges, p) && p[0] == target
    ensures Last(p) in found && found[Last(p)] == p
    decreases |p|
  {
    if |p| == 1 {
      assert p == [target] && Met(found, [], p);
    } else {
      var front := p[..|p| - 1];
      AllWalksFound(edges, target, found, front);
      assert (front[|front| - 1], Last(p)) in edges;
      assert Met(found, [], front + [Last(p)]);
      assert p == front + [Last(p)];
    }
  }

  method AnyOrder(s: set<DocId>) returns (r: seq<DocId>)
    ensures forall x :: x in r <==> x in s
    ensures forall i, j :: 0 <= i < j < |r| ==> r[i] != r[j]
  {
    r := [];
    var rest := s;
    while rest != {}
      invariant forall x :: x in r <==> x in s && x !in rest
      invariant rest <= s
      invariant forall i, j :: 0 <= i < j < |r| ==> r[i] != r[j]
    {
      var x :| x in rest;
      rest, r := rest - {x}, r + [x];
    }
  }

  function Steps(p: Walk, next: seq<DocId>): (r: seq<Walk>)
    ensures |r| == |next| && forall i :: 0 <= i < |next| ==> r[i] == p + [next[i]]
  {
    seq(|next|, i requires 0 <= i < |next| => p + [next[i]])
  }

  /** What holds while `current`, first met by walk `p`, is being expanded to its children `next`. */
  ghost predicate Expanding(edges: set<Edge>, target: DocId, found: Found, frontier: seq<DocId>, waiting: seq<Walk>,
                            current: DocId, p: Walk, next: seq<DocId>)
  {
    && FoundOk(edges, target, found) && Expanded(edges, target, found, waiting + [p])
    && WaitingOk(edges, target, found, frontier + [current], waiting + [p])
    && (forall n :: n in found ==> Extends(target, found, found[n]))
    && current !in found
    && (forall m :: m in next <==> (current, m) in edges)
    && (forall i, j :: 0 <= i < j < |next| ==> next[i] != next[j])
  }

  lemma OldWalks(edges: set<Edge>, target: DocId, found: Found, frontier: seq<DocId>, waiting: seq<Walk>,
                 current: DocId, p: Walk)
    requires WaitingOk(edges, target, found, frontier + [current], waiting + [p])
    ensures WaitingOk(edges, target, found, frontier, waiting)
    ensures Leads(edges, p, target, current) && Extends(target, found, p)
    ensures forall i :: 0 <= i < |waiting| ==> waiting[i] != p
  {
    hide Leads;
    hide Extends;
    var all, ends := waiting + [p], frontier + [current];
    assert all[|waiting|] == p && ends[|waiting|] == current;
    forall i | 0 <= i < |waiting|
      ensures Leads(edges, waiting[i], target, frontier[i]) && Extends(target, found, waiting[i])
      ensures waiting[i] != p && (frontier[i] in found ==> waiting[i] != found[frontier[i]])
    {
      assert all[i] == waiting[i] && ends[i] == frontier[i];
    }
    forall i, j | 0 <= i < j < |waiting| ensures waiting[i] != waiting[j] {
      assert all[i] == waiting[i] && all[j] == waiting[j];
    }
  }

  lemma MeetsStay(found: Found, waiting: seq<Walk>, current: DocId, p: Walk, next: seq<DocId>, q: Walk)
    requires |p| > 0 && |q| > 0 && Last(p) == current && current !in found && Met(found, waiting + [p], q)
    ensures Met(found[current := p], waiting + Steps(p, next), q)
  {
    if q in waiting + [p] && q != p {
      assert q in waiting;
    }
  }

  lemma ExpandMeets(edges: set<Edge>, target: DocId, found: Found, frontier: seq<DocId>, waiting: seq<Walk>,
                    current: DocId, p: Walk, next: seq<DocId>)
    requires Expanding(edges, target, found, frontier, waiting, current, p, next)
    ensures Expanded(edges, target, found[current := p], waiting + Steps(p, next))
  {
    hide Met;
    var found', waiting' := found[current := p], waiting + Steps(p, next);
    OldWalks(edges, target, found, frontier, waiting, current, p);
    MeetsStay(found, waiting, current, p, next, [target]);
    forall n, m | n in found' && (n, m) in edges ensures Met(found', waiting', found'[n] + [m]) {
      if n == current {
        var i :| 0 <= i < |next| && next[i] == m;
        assert waiting'[|waiting| + i] == p + [m];
        InWaiting(found', waiting', p + [m]);
      } else {
        assert Met(found, waiting + [p], found[n] + [m]);
        MeetsStay(found, waiting, current, p, next, found[n] + [m]);
      }
    }
  }

  lemma InWaiting(found: Found, waiting: seq<Walk>, q: Walk)
    requires |q| > 0 && q in waiting
    ensures Met(found, waiting, q)
  {
  }

  /** A child's walk is a walk, is recorded as an extension, and is not one the search took before. */
  lemma NewWalk(edges: set<Edge>, target: DocId, found: Found, current: DocId, p: Walk, m: DocId)
    requires Leads(edges, p, target, current) && (current, m) in edges && current !in found
    requires forall n :: n in found ==> Extends(target, found, found[n])
    ensures Leads(edges, p + [m], target, m) && Extends(target, found[current := p], p + [m])
    ensures m in found[current := p] ==> found[current := p][m] != p + [m]
    ensures !Extends(target, found, p + [m])
  {
    var q := p + [m];
    assert q[..|q| - 1] == p && q[|q| - 2] == current;
    assert IsWalk(edges, q);
  }

  lemma NewWalksDiffer(before: seq<Walk>, p: Walk, next: seq<DocId>)
    requires forall i, j :: 0 <= i < j < |before| ==> before[i] != before[j]
    requires forall i, j :: 0 <= i < j < |next| ==> next[i] != next[j]
    requires forall i, k :: 0 <= i < |before| && 0 <= k < |next| ==> before[i] != p + [next[k]]
    ensures var all := before + Steps(p, next); forall i, j :: 0 <= i < j < |all| ==> all[i] != all[j]
  {
    var added := Steps(p, next);
    forall i, j | 0 <= i < j < |added| ensures added[i] != added[j] {
      assert added[i][|p|] == next[i] && added[j][|p|] == next[j];
    }
  }

  lemma ExpandWaits(edges: set<Edge>, target: DocId, found: Found, frontier: seq<DocId>, waiting: seq<Walk>,
                    current: DocId, p: Walk, next: seq<DocId>)
    requires Expanding(edges, target, found, frontier, waiting, current, p, next)
    ensures WaitingOk(edges, target, found[current := p], frontier + next, waiting + Steps(p, next))
  {
    var found', waiting', ends := found[current := p], waiting + Steps(p, next), frontier + next;
    hide Leads;
    OldWalks(edges, target, found, frontier, waiting, current, p);
    assert forall q :: Extends(target, found, q) ==> Extends(target, found', q);
    hide Extends;
    forall k | 0 <= k < |next|
      ensures Leads(edges, p + [next[k]], target, next[k]) && Extends(target, found', p + [next[k]])
      ensures next[k] in found' ==> found'[next[k]] != p + [next[k]]
      ensures !Extends(target, found, p + [next[k]])
    {
      assert next[k] in next;
      NewWalk(edges, target, found, current, p, next[k]);
    }
    NewWalksDiffer(waiting, p, next);
    forall i | 0 <= i < |waiting'|
      ensures Leads(edges, waiting'[i], target, ends[i]) && Extends(target, found', waiting'[i])
      ensures ends[i] in found' ==> waiting'[i] != found'[ends[i]]
    {
      if i >= |waiting| {
        assert waiting'[i] == p + [next[i - |waiting|]];
      }
    }
  }

  ghost predicate Searching(edges: set<Edge>, target: DocId, found: Found, frontier: seq<DocId>, waiting: seq<Walk>) {
    && FoundOk(edges, target, found)
    && Expanded(edges, target, found, waiting)
    && WaitingOk(edges, target, found, frontier, waiting)
    && forall n :: n in found ==> Extends(target, found, found[n])
  }

  lemma SearchStart(edges: set<Edge>, target: DocId)
    ensures Searching(edges, target, map[], [target], [[target]])
  {
    assert [target] in [[target]];
  }

  lemma SearchStep(edges: set<Edge>, target: DocId, found: Found, frontier: seq<DocId>, waiting: seq<Walk>,
                   current: DocId, p: Walk, next: seq<DocId>)
    requires Searching(edges, target, found, frontier + [current], waiting + [p]) && current !in found
    requires forall m :: m in next <==> m in Children(edges, current)
    requires forall i, j :: 0 <= i < j < |next| ==> next[i] != next[j]
    ensures Searching(edges, target, found[current := p], frontier + next, waiting + Steps(p, next))
  {
    hide Leads;
    hide Expanded;
    hide WaitingOk;
    assert forall m :: (current, m) in edges ==> m in Children(edges, current);
    ExpandMeets(edges, target, found, frontier, waiting, current, p, next);
    ExpandWaits(edges, target, found, frontier, waiting, current, p, next);
    OldWalks(edges, target, found, frontier, waiting, current, p);
    assert forall q :: Extends(target, found, q) ==> Extends(target, found[current := p], q);
  }

  /** Meeting the source, or a document met before, is a reason to answer yes. */
  lemma SearchHit(edges: set<Edge>, source: DocId, target: DocId, found: Found, frontier: seq<DocId>,
                  waiting: seq<Walk>,
                  i: nat)
    requires Searching(edges, target, found, frontier, waiting) && i < |frontier|
    requires frontier[i] == source || frontier[i] in found
    ensures CycleAnswer(edges, source, target)
  {
    assert Leads(edges, waiting[i], target, frontier[i]);
    if frontier[i] in found {
      assert Leads(edges, found[frontier[i]], target, frontier[i]);
    }
  }

  /** Running out of work is a proof that there is none. */
  lemma SearchDone(edges: set<Edge>, source: DocId, target: DocId, found: Found, waiting: seq<Walk>)
    requires Searching(edges, target, found, [], waiting) && source !in found
    ensures !CycleAnswer(edges, source, target)
  {
    assert waiting == [];
    forall p | IsWalk(edges, p) && p[0] == target ensures Last(p) in found && found[Last(p)] == p {
      AllWalksFound(edges, target, found, p);
    }
  }

  /** The search, exactly: it always stops, and says no only for a target from which the source is
      out of reach and no document can be reached in two ways. */
  method WouldCreateCycle(edges: set<Edge>, source: DocId, target: DocId) returns (cycle: bool)
    ensures cycle <==> CycleAnswer(edges, source, target)
  {
    var seen, frontier := {source}, [target];
    ghost var found: Found := map[];
    ghost var waiting: seq<Walk> := [[target]];
    ghost var universe := {source, target} + Heads(edges);
    hide *;
    SearchStart(edges, target);
    while frontier != []
      invariant seen == found.Keys + {source} && source !in found
      invariant Searching(edges, target, found, frontier, waiting) && |waiting| == |frontier|
      invariant seen <= universe && forall n :: n in frontier ==> n in universe
      decreases universe - seen
    {
      var last := |frontier| - 1;
      var current := frontier[last];
      if current in seen {
        SearchHit(edges, source, target, found, frontier, waiting, last);
        return true;
      }
      ghost var p := waiting[last];
      assert frontier == frontier[..last] + [current] && waiting == waiting[..last] + [p];
      ChildrenAreHeads(edges, current);
      var next := AnyOrder(Children(edges, current));
      SearchStep(edges, target, found, frontier[..last], waiting[..last], current, p, next);
      seen := seen + {current};
      found := found[current := p];
      waiting := waiting[..last] + Steps(p, next);
      frontier := frontier[..last] + next;
    }
    SearchDone(edges, source, target, found, waiting);
    return false;
  }

  // ---------------------------------------------------------------- exactness of the answer

  lemma NoIsExact(edges: set<Edge>, source: DocId, target: DocId)
    requires Acyclic(edges) && !CycleAnswer(edges, source, target)
    ensures Acyclic(edges + {(source, target)})
  {
    NewEdgeKeepsAcyclic(edges, source, target);
  }

  /** A yes is right exactly when the source really is in reach; otherwise it only saw a rejoin. */
  lemma YesIsRightIffReachable(edges: set<Edge>, source: DocId, target: DocId)
    requires Acyclic(edges) && CycleAnswer(edges, source, target)
    ensures !Acyclic(edges + {(source, target)}) <==> Reaches(edges, target, source)
    ensures !Reaches(edges, target, source) ==> Rejoins(edges, target)
  {
    if Reaches(edges, target, source) {
      BackEdgeClosesCycle(edges, source, target);
    } else {
      NewEdgeKeepsAcyclic(edges, source, target);
    }
  }

  /** A diamond below the target is refused although linking to it closes no cycle. */
  lemma DiamondIsRefused()
    ensures var diamond := {(1, 2), (1, 3), (2, 4), (3, 4)};
            && CycleAnswer(diamond, 0, 1)
            && Acyclic(diamond + {(0, 1)})
  {
    var diamond: set<Edge> := {(1, 2), (1, 3), (2, 4), (3, 4)};
    assert Leads(diamond, [1, 2, 4], 1, 4) && Leads(diamond, [1, 3, 4], 1, 4);
    assert [1, 2, 4][1] != [1, 3, 4][1];
    forall p | IsWalk(diamond + {(0, 1)}, p) && |p| > 1 ensures p[0] != Last(p) {
      Climbs(diamond + {(0, 1)}, p);
    }
  }

  lemma {:induction false} Climbs(edges: set<Edge>, p: Walk)
    requires IsWalk(edges, p) && forall e :: e in edges ==> e.0 < e.1
    ensures |p| > 1 ==> p[0] < Last(p)
    decreases |p|
  {
    if |p| > 1 {
      assert (p[|p| - 2], p[|p| - 1]) in edges;
      Climbs(edges, p[..|p| - 1]);
    }
  }
}
