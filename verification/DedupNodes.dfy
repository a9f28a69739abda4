/** The knowledge-node merge migration: nodes with the same content, embedding text and type become one. */
module DedupNodes {
  import opened Options
  import Sorting

  type NodeId = nat
  type LinkKey = nat
  type Links = set<(NodeId, LinkKey)>

  /** The three identity columns; NULLs count as equal. */
  datatype Node = Node(content: string, embedText: Option<string>, kind: string)

  /** The vec0 table may not exist, or exist on a connection that cannot query it. */
  datatype Vectors = NoTable | Unreachable(hidden: set<NodeId>) | Available(ids: set<NodeId>)

  /** `links` holds each `knowledge_node_*` table under its name. */
  datatype Db = Db(nodes: map<NodeId, Node>, links: map<string, Links>, vectors: Vectors)

  datatype DedupError = VectorsUnreachable | ForeignKeyCheckFailed

  // ---------------------------------------------------------------- what the migration computes

  function ClassOf(db: Db, n: NodeId): set<NodeId>
    requires n in db.nodes
  {
    set m | m in db.nodes && db.nodes[m] == db.nodes[n]
  }

  /** The smallest id with the same identity. */
  function Survivor(db: Db, n: NodeId): (s: NodeId)
    requires n in db.nodes
    ensures s in db.nodes && db.nodes[s] == db.nodes[n] && s <= n
    ensures forall m :: m in db.nodes && db.nodes[m] == db.nodes[n] ==> s <= m
  {
    assert n in ClassOf(db, n);
    var smaller := (a: nat, b: nat) => a < b;
    var s := Sorting.Least(ClassOf(db, n), smaller);
    assert forall m :: m in db.nodes && db.nodes[m] == db.nodes[n] ==> m in ClassOf(db, n);
    s
  }

  predicate Loser(db: Db, n: NodeId) {
    n in db.nodes && Survivor(db, n) != n
  }

  function Losers(db: Db): set<NodeId> {
    set n | n in db.nodes && Loser(db, n)
  }

  function Home(db: Db, gone: set<NodeId>, n: NodeId): NodeId {
    if n in gone && n in db.nodes then Survivor(db, n) else n
  }

  function Moved(db: Db, gone: set<NodeId>, rows: Links): Links {
    set l | l in rows :: (Home(db, gone, l.0), l.1)
  }

  function WithoutVectors(vectors: Vectors, gone: set<NodeId>): Vectors {
    if vectors.Available? then Available(vectors.ids - gone) else vectors
  }

  /** The losers in `gone` have been folded into their survivors. */
  function Folded(db: Db, gone: set<NodeId>): Db {
    Db(db.nodes - gone, map t | t in db.links :: Moved(db, gone, db.links[t]), WithoutVectors(db.vectors, gone))
  }

  predicate Dangling(db: Db) {
    exists t, l :: t in db.links && l in db.links[t] && l.0 !in db.nodes
  }

  function Dedup(db: Db): (Db, Outcome<(), DedupError>) {
    if Losers(db) == {} then (db, Committed(()))
    else if db.vectors.Unreachable? then (db, Raised(VectorsUnreachable))
    else if Dangling(Folded(db, Losers(db))) then (db, Raised(ForeignKeyCheckFailed))
    else (Folded(db, Losers(db)), Committed(()))
  }

  // ---------------------------------------------------------------- the main results

  lemma SurvivorsSurvive(db: Db, n: NodeId)
    requires n in db.nodes
    ensures Survivor(db, Survivor(db, n)) == Survivor(db, n) && !Loser(db, Survivor(db, n))
  {
  }

  /** No survivor is itself a loser. */
  lemma NoChains(db: Db)
    ensures forall n :: n in Losers(db) ==> Survivor(db, n) !in Losers(db)
  {
    forall n | n in Losers(db) ensures Survivor(db, n) !in Losers(db) {
      SurvivorsSurvive(db, n);
    }
  }

  /** The keys a link table gives to the nodes of one identity. */
  function KeysOf(db: Db, table: string, identity: Node): set<LinkKey>
    requires table in db.links
  {
    set l | l in db.links[table] && l.0 in db.nodes && db.nodes[l.0] == identity :: l.1
  }

  predicate VectorsLive(db: Db) {
    db.vectors.Available? ==> db.vectors.ids <= db.nodes.Keys
  }

  /** After a successful run identities are pairwise distinct and none is lost, each table gives every
      identity exactly the union of the keys its nodes had, no vector is left without a node, and a second
      run finds nothing to do. */
  lemma DedupKeepsEveryLink(db: Db)
    requires Dedup(db).1.Committed?
    ensures var after := Dedup(db).0;
            && (forall m, n :: m in after.nodes && n in after.nodes && after.nodes[m] == after.nodes[n] ==> m == n)
            && (forall n :: n in after.nodes ==> n in db.nodes && after.nodes[n] == db.nodes[n])
            && (forall n :: n in db.nodes ==> exists m :: m in after.nodes && after.nodes[m] == db.nodes[n])
            && after.links.Keys == db.links.Keys
            && (forall t, identity :: t in db.links ==> KeysOf(after, t, identity) == KeysOf(db, t, identity))
            && (VectorsLive(db) ==> VectorsLive(after))
            && Losers(after) == {} && Dedup(after) == (after, Committed(()))
  {
    var after := Dedup(db).0;
    if Losers(db) != {} {
      FoldedIsDistinct(db);
      forall t, identity | t in db.links ensures KeysOf(after, t, identity) == KeysOf(db, t, identity) {
        KeysAreKept(db, t, identity);
      }
    } else {
      forall n | n in db.nodes ensures Survivor(db, n) == n { assert n !in Losers(db); }
    }
  }

  /** The nodes that stay are those with the least id of their identity; a reachable vector table loses the vectors of
      the others and of nothing else, and any other vector table is left alone. */
  lemma TheLeastStay(db: Db)
    requires Dedup(db).1.Committed?
    ensures var after := Dedup(db).0;
            && (forall n :: n in after.nodes <==>
                  n in db.nodes && forall m :: m in db.nodes && db.nodes[m] == db.nodes[n] ==> n <= m)
            && (db.vectors.Available? ==>
                  && after.vectors.Available?
                  && forall n :: n in after.vectors.ids <==>
                       n in db.vectors.ids && (n in db.nodes ==> n in after.nodes))
            && (!db.vectors.Available? ==> after.vectors == db.vectors)
  {
    assert forall n :: n in Losers(db) <==> n in db.nodes && Survivor(db, n) != n;
    forall n | n in db.nodes
      ensures Survivor(db, n) == n <==> forall m :: m in db.nodes && db.nodes[m] == db.nodes[n] ==> n <= m
    {
      var s := Survivor(db, n);
      assert s in db.nodes && db.nodes[s] == db.nodes[n];
    }
    hide Survivor;
    hide Moved;
    hide Dangling;
  }

  lemma FoldedIsDistinct(db: Db)
    ensures var after := Folded(db, Losers(db));
            && (forall m, n :: m in after.nodes && n in after.nodes && after.nodes[m] == after.nodes[n] ==> m == n)
            && (forall n :: n in db.nodes ==> exists m :: m in after.nodes && after.nodes[m] == db.nodes[n])
            && Losers(after) == {}
  {
    hide Survivor;
    hide Moved;
    var after := Folded(db, Losers(db));
    forall n | n in db.nodes ensures Survivor(db, n) in after.nodes && after.nodes[Survivor(db, n)] == db.nodes[n] {
      SurvivorsSurvive(db, n);
    }
    forall m, n | m in after.nodes && n in after.nodes && after.nodes[m] == after.nodes[n] ensures m == n {
      assert m !in Losers(db) && n !in Losers(db);
    }
  }

  lemma KeysAreKept(db: Db, t: string, identity: Node)
    requires t in db.links
    ensures KeysOf(Folded(db, Losers(db)), t, identity) == KeysOf(db, t, identity)
  {
    hide Survivor;
    var gone, after := Losers(db), Folded(db, Losers(db));
    forall k | k in KeysOf(db, t, identity) ensures k in KeysOf(after, t, identity) {
      var l :| l in db.links[t] && l.0 in db.nodes && db.nodes[l.0] == identity && l.1 == k;
      SurvivorsSurvive(db, l.0);
      var moved := (Home(db, gone, l.0), k);
      assert moved in after.links[t] && moved.0 in after.nodes && after.nodes[moved.0] == identity;
    }
    forall k | k in KeysOf(after, t, identity) ensures k in KeysOf(db, t, identity) {
      var moved :| moved in after.links[t] && moved.0 in after.nodes && after.nodes[moved.0] == identity
        && moved.1 == k;
      var l :| l in db.links[t] && moved == (Home(db, gone, l.0), l.1);
      assert l.0 in db.nodes && db.nodes[l.0] == identity;
    }
  }

  /** A run is refused exactly when there is something to merge and either the vectors cannot be deleted with
      their nodes, or some link row already names a node that does not exist. */
  lemma RefusedIff(db: Db)
    ensures Dedup(db).1.Raised? <==> Losers(db) != {} && (db.vectors.Unreachable? || Dangling(db))
    ensures Dedup(db).1.Raised? ==> Dedup(db).0 == db
  {
    hide Survivor;
    hide Losers;
    DanglingIsKept(db);
  }

  lemma DanglingIsKept(db: Db)
    ensures Dangling(Folded(db, Losers(db))) <==> Dangling(db)
  {
    hide Survivor;
    var gone, after := Losers(db), Folded(db, Losers(db));
    if Dangling(db) {
      var t, l :| t in db.links && l in db.links[t] && l.0 !in db.nodes;
      assert (Home(db, gone, l.0), l.1) in after.links[t];
    }
    if Dangling(after) {
      var t, moved :| t in after.links && moved in after.links[t] && moved.0 !in after.nodes;
      var l :| l in db.links[t] && moved == (Home(db, gone, l.0), l.1);
      assert l.0 in db.nodes ==> Home(db, gone, l.0) in after.nodes by {
        if l.0 in db.nodes { SurvivorsSurvive(db, l.0); }
      }
    }
  }

  // ---------------------------------------------------------------- the tables

  class Tables {
    var nodes: map<NodeId, Node>
    var links: map<string, Links>
    var vectors: Vectors

    constructor (db: Db)
      ensures State() == db
    {
      nodes, links, vectors := db.nodes, db.links, db.vectors;
    }

    function State(): Db
      reads this
    {
      Db(nodes, links, vectors)
    }

    /** In every link table, give the survivor the loser's keys it lacks and drop the loser's rows. */
    method MoveLinks(loser: NodeId, survivor: NodeId)
      requires loser != survivor
      modifies this`links
      ensures links == map t | t in old(links) :: MovedOne(old(links)[t], loser, survivor)
    {
      var rest := links.Keys;
      while rest != {}
        invariant rest <= links.Keys == old(links).Keys
        invariant forall t :: t in links ==>
                    links[t] == if t in rest then old(links)[t] else MovedOne(old(links)[t], loser, survivor)
        decreases rest
      {
        var t :| t in rest;
        var united := links[t] + set l | l in links[t] && l.0 == loser :: (survivor, l.1);
        links := links[t := set l | l in united && l.0 != loser];
        assert links[t] == MovedOne(old(links)[t], loser, survivor);
        rest := rest - {t};
      }
    }

    method FoldOne(loser: NodeId, survivor: NodeId)
      requires loser != survivor
      modifies this
      ensures State() == Db(old(nodes) - {loser}, map t | t in old(links) :: MovedOne(old(links)[t], loser, survivor),
                            WithoutVectors(old(vectors), {loser}))
    {
      MoveLinks(loser, survivor);
      if vectors.Available? {
        vectors := Available(vectors.ids - {loser});
      }
      nodes := nodes - {loser};
    }

    /** The pairs come in no particular order. */
    method Run() returns (result: Outcome<(), DedupError>)
      modifies this
      ensures (State(), result) == Dedup(old(State()))
    {
      hide Survivor;
      hide Losers;
      hide Folded;
      var db := State();
      var losers := Losers(db);
      if losers == {} {
        return Committed(());
      }
      if vectors.Unreachable? {
        return Raised(VectorsUnreachable);
      }
      var rest := losers;
      NothingFolded(db);
      assert losers - rest == {};
      while rest != {}
        invariant rest <= losers && State() == Folded(db, losers - rest)
        decreases rest
      {
        var loser :| loser in rest;
        LosersAre(db, loser);
        var survivor := Survivor(db, loser);
        FoldNext(db, losers - rest, loser);
        FoldOne(loser, survivor);
        assert losers - (rest - {loser}) == (losers - rest) + {loser};
        rest := rest - {loser};
      }
      assert losers - rest == losers;
      if exists t, l :: t in links && l in links[t] && l.0 !in nodes {
        nodes, links, vectors := db.nodes, db.links, db.vectors;
        return Raised(ForeignKeyCheckFailed);
      }
      result := Committed(());
    }
  }

  function MovedOne(rows: Links, loser: NodeId, survivor: NodeId): Links {
    set l | l in rows :: (if l.0 == loser then survivor else l.0, l.1)
  }

  lemma LosersAre(db: Db, n: NodeId)
    ensures n in Losers(db) <==> Loser(db, n)
  {
  }

  lemma NothingFolded(db: Db)
    ensures Folded(db, {}) == db
  {
    hide Survivor;
    forall t | t in db.links ensures Moved(db, {}, db.links[t]) == db.links[t] {
      forall l | l in db.links[t] ensures l in Moved(db, {}, db.links[t]) { assert l == (Home(db, {}, l.0), l.1); }
    }
    assert Folded(db, {}).links == db.links && Folded(db, {}).nodes == db.nodes;
  }

  lemma FoldNext(db: Db, gone: set<NodeId>, n: NodeId)
    requires gone <= Losers(db) && Loser(db, n) && n !in gone
    ensures var mid, s := Folded(db, gone), Survivor(db, n);
            && s != n
            && Folded(db, gone + {n}) == Db(mid.nodes - {n}, map t | t in mid.links :: MovedOne(mid.links[t], n, s),
                                            WithoutVectors(mid.vectors, {n}))
  {
    hide Survivor;
    var mid, s := Folded(db, gone), Survivor(db, n);
    forall t | t in db.links ensures Moved(db, gone + {n}, db.links[t]) == MovedOne(mid.links[t], n, s) {
      MoveNext(db, gone, n, db.links[t]);
    }
    assert Folded(db, gone + {n}).nodes == mid.nodes - {n};
    assert WithoutVectors(db.vectors, gone + {n}) == WithoutVectors(mid.vectors, {n});
  }

  lemma MoveNext(db: Db, gone: set<NodeId>, n: NodeId, rows: Links)
    requires gone <= Losers(db) && Loser(db, n) && n !in gone
    ensures Moved(db, gone + {n}, rows) == MovedOne(Moved(db, gone, rows), n, Survivor(db, n))
  {
    hide Survivor;
    var s := Survivor(db, n);
    forall l | l in rows
      ensures Home(db, gone + {n}, l.0) == if Home(db, gone, l.0) == n then s else Home(db, gone, l.0)
    {
      if l.0 in db.nodes { SurvivorsSurvive(db, l.0); }
    }
    var mid := Moved(db, gone, rows);
    forall x | x in Moved(db, gone + {n}, rows) ensures x in MovedOne(mid, n, s) {
      var l :| l in rows && x == (Home(db, gone + {n}, l.0), l.1);
      var m := (Home(db, gone, l.0), l.1);
      assert m in mid && x == (if m.0 == n then s else m.0, m.1);
    }
    forall x | x in MovedOne(mid, n, s) ensures x in Moved(db, gone + {n}, rows) {
      var m :| m in mid && x == (if m.0 == n then s else m.0, m.1);
      var l :| l in rows && m == (Home(db, gone, l.0), l.1);
      assert x == (Home(db, gone + {n}, l.0), l.1);
    }
  }
}
