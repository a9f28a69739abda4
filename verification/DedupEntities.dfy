/** The entity merge migration: rows whose recomputed key agrees become one, and stale rows are rebranded.

    The canonicalization rules are parameters. A placeholder canonical embeds a fresh token and the row id,
    so it is modelled as a value no row can hold otherwise. */
module DedupEntities {
  import opened Options
  import Sorting

  type EntityId = nat
  type NodeId = nat

  datatype Canonical = Null | Plain(text: string) | Parked(id: EntityId)
  datatype Entity = Entity(kind: string, name: string, canonical: Canonical, createdAt: int)

  /** `links` is knowledge_node_entities; `pinned` are the entities other tables refer to. */
  datatype Db = Db(entities: map<EntityId, Entity>, links: set<(NodeId, EntityId)>, pinned: set<EntityId>)

  /** How a name is canonicalized and displayed, by entity type. */
  datatype Rules = Rules(resolve: (string, string) -> string, display: (string, string) -> string)

  datatype Key = Key(kind: string, canonical: string)

  // ---------------------------------------------------------------- constraints

  predicate Clash(a: Entity, b: Entity) {
    a.kind == b.kind && a.canonical == b.canonical && a.canonical != Null
  }

  /** UNIQUE (type, canonical), under which NULLs are all distinct. */
  predicate Unique(db: Db) {
    UniqueRows(db.entities)
  }

  predicate UniqueRows(rows: map<EntityId, Entity>) {
    forall a, b :: a in rows && b in rows && a != b ==> !Clash(rows[a], rows[b])
  }

  predicate Linked(db: Db) {
    forall l :: l in db.links ==> l.1 in db.entities
  }

  predicate Unparked(db: Db) {
    forall e :: e in db.entities ==> !db.entities[e].canonical.Parked?
  }

  // ---------------------------------------------------------------- what the migration computes

  function KeyOf(rules: Rules, row: Entity): Key {
    Key(row.kind, rules.resolve(row.kind, row.name))
  }

  function CreatedAt(db: Db, e: EntityId): int {
    if e in db.entities then db.entities[e].createdAt else 0
  }

  function Older(db: Db): (EntityId, EntityId) -> bool {
    (a: EntityId, b: EntityId) =>
      CreatedAt(db, a) < CreatedAt(db, b) || (CreatedAt(db, a) == CreatedAt(db, b) && a < b)
  }

  function ClassOf(rules: Rules, db: Db, k: Key): set<EntityId> {
    set e | e in db.entities && KeyOf(rules, db.entities[e]) == k
  }

  /** The row that stands for `e` afterwards: the oldest with the same recomputed key. */
  function Keeper(rules: Rules, db: Db, e: EntityId): (k: EntityId)
    requires e in db.entities
    ensures k in db.entities && KeyOf(rules, db.entities[k]) == KeyOf(rules, db.entities[e])
    ensures forall o :: o in db.entities && KeyOf(rules, db.entities[o]) == KeyOf(rules, db.entities[e]) ==>
              o == k || Older(db)(k, o)
  {
    var others := ClassOf(rules, db, KeyOf(rules, db.entities[e]));
    assert e in others;
    Sorting.Least(others, Older(db))
  }

  predicate Dupe(rules: Rules, db: Db, e: EntityId) {
    e in db.entities && Keeper(rules, db, e) != e
  }

  function Fixed(rules: Rules, row: Entity): Entity {
    row.(name := rules.display(row.kind, row.name), canonical := Plain(rules.resolve(row.kind, row.name)))
  }

  function Deduped(rules: Rules, db: Db): Db
    requires Linked(db)
  {
    db.(entities := map e | e in db.entities && !Dupe(rules, db, e) :: Fixed(rules, db.entities[e]),
        links := set l | l in db.links :: (l.0, Keeper(rules, db, l.1)))
  }

  /** The row that stays is the oldest of those whose type and recomputed name agree, by age and then by id; and rows
      without a canonical never stand in each other's way. */
  lemma OldestStays(rules: Rules, db: Db, e: EntityId, o: EntityId)
    requires e in db.entities && o in db.entities && db.entities[e].kind == db.entities[o].kind
    requires rules.resolve(db.entities[e].kind, db.entities[e].name)
          == rules.resolve(db.entities[o].kind, db.entities[o].name)
    ensures var k := Keeper(rules, db, e);
            && k == Keeper(rules, db, o)
            && (db.entities[k].createdAt < db.entities[o].createdAt
                || (db.entities[k].createdAt == db.entities[o].createdAt && k <= o))
    ensures db.entities[e].canonical == Null ==> !Clash(db.entities[e], db.entities[o])
  {
    var k, j := Keeper(rules, db, e), Keeper(rules, db, o);
    hide Keeper;
    assert KeyOf(rules, db.entities[k]) == KeyOf(rules, db.entities[j]) == KeyOf(rules, db.entities[o]);
    assert k == j || (Older(db)(k, j) && Older(db)(j, k));
  }

  // ---------------------------------------------------------------- the main results

  lemma KeeperIsShared(rules: Rules, db: Db, a: EntityId, b: EntityId)
    requires a in db.entities && b in db.entities
    ensures KeyOf(rules, db.entities[a]) == KeyOf(rules, db.entities[b]) <==>
            Keeper(rules, db, a) == Keeper(rules, db, b)
    ensures Keeper(rules, db, Keeper(rules, db, a)) == Keeper(rules, db, a)
  {
    hide Keeper;
    hide KeyOf;
    var k, j := Keeper(rules, db, a), Keeper(rules, db, b);
    OlderIsOneWay(db, k, j);
    OlderIsOneWay(db, k, Keeper(rules, db, k));
  }

  lemma OlderIsOneWay(db: Db, a: EntityId, b: EntityId)
    ensures !(Older(db)(a, b) && Older(db)(b, a))
  {
  }

  /** A node's stored keys. */
  function StoredKeys(db: Db, n: NodeId): set<(string, Canonical)>
    requires Linked(db)
  {
    set l | l in db.links && l.0 == n :: (db.entities[l.1].kind, db.entities[l.1].canonical)
  }

  /** The keys the current rules give to what a node is linked to. */
  function RecomputedKeys(rules: Rules, db: Db, n: NodeId): set<(string, Canonical)>
    requires Linked(db)
  {
    set l | l in db.links && l.0 == n ::
      (KeyOf(rules, db.entities[l.1]).kind, Plain(KeyOf(rules, db.entities[l.1]).canonical))
  }

  /** Afterwards every row stores the key the rules give it, no two rows share one, and each node is linked
      to exactly the keys its old links stand for. */
  lemma DedupedIsCanonical(rules: Rules, db: Db)
    requires Linked(db)
    ensures var after := Deduped(rules, db);
            && Linked(after) && Unique(after) && Unparked(after)
            && (forall n :: StoredKeys(after, n) == RecomputedKeys(rules, db, n))
            && (forall e :: e in after.entities ==>
                  && e in db.entities && after.entities[e] == Fixed(rules, db.entities[e]))
            && (forall e :: e in db.entities ==>
                  exists k :: k in after.entities && KeyOf(rules, db.entities[e]) == KeyOf(rules, db.entities[k]))
  {
    var after := Deduped(rules, db);
    hide Keeper;
    forall e | e in db.entities ensures Keeper(rules, db, e) in after.entities {
      KeeperIsShared(rules, db, e, e);
    }
    forall a, b | a in after.entities && b in after.entities && a != b
      ensures !Clash(after.entities[a], after.entities[b])
    {
      KeeperIsShared(rules, db, a, b);
    }
    forall n ensures StoredKeys(after, n) == RecomputedKeys(rules, db, n) {
      KeysAreKept(rules, db, after, n);
    }
  }

  lemma KeysAreKept(rules: Rules, db: Db, after: Db, n: NodeId)
    requires Linked(db) && after == Deduped(rules, db) && Linked(after)
    ensures StoredKeys(after, n) == RecomputedKeys(rules, db, n)
  {
    hide Keeper;
    forall l | l in db.links && l.0 == n
      ensures var k := Keeper(rules, db, l.1);
              (n, k) in after.links && k in after.entities
              && after.entities[k] == Fixed(rules, db.entities[k])
    {
      assert (l.0, Keeper(rules, db, l.1)) in after.links;
    }
    forall x | x in RecomputedKeys(rules, db, n) ensures x in StoredKeys(after, n) {
      var l :| l in db.links && l.0 == n
               && x == (KeyOf(rules, db.entities[l.1]).kind, Plain(KeyOf(rules, db.entities[l.1]).canonical));
      var k := (n, Keeper(rules, db, l.1));
      assert k in after.links && x == (after.entities[k.1].kind, after.entities[k.1].canonical);
    }
    forall x | x in StoredKeys(after, n) ensures x in RecomputedKeys(rules, db, n) {
      var k :| k in after.links && k.0 == n && x == (after.entities[k.1].kind, after.entities[k.1].canonical);
      var l :| l in db.links && k == (l.0, Keeper(rules, db, l.1));
      assert x == (KeyOf(rules, db.entities[l.1]).kind, Plain(KeyOf(rules, db.entities[l.1]).canonical));
    }
  }

  /** A second run changes nothing exactly when canonicalizing and displaying a displayed name changes nothing. */
  lemma SecondRunIsIdle(rules: Rules, db: Db)
    requires Linked(db)
    ensures var after := Deduped(rules, db);
            && Linked(after)
            && (Deduped(rules, after) == after <==>
                  forall e :: e in after.entities ==> Fixed(rules, after.entities[e]) == after.entities[e])
  {
    hide *;
    DedupedIsCanonical(rules, db);
    var after := Deduped(rules, db);
    StableIffFixed(rules, after);
  }

  lemma StableIffFixed(rules: Rules, db: Db)
    requires Linked(db) && Unique(db)
    ensures Deduped(rules, db) == db <==>
            forall e :: e in db.entities ==> Fixed(rules, db.entities[e]) == db.entities[e]
  {
    hide Keeper;
    var after := Deduped(rules, db);
    if forall e :: e in db.entities ==> Fixed(rules, db.entities[e]) == db.entities[e] {
      forall e | e in db.entities ensures Keeper(rules, db, e) == e {
        var k := Keeper(rules, db, e);
        assert Fixed(rules, db.entities[k]) == db.entities[k] && Fixed(rules, db.entities[e]) == db.entities[e];
        assert Clash(db.entities[k], db.entities[e]);
      }
      assert after.entities == db.entities;
      assert after.links == db.links by {
        forall l | l in db.links ensures l in after.links { assert l == (l.0, Keeper(rules, db, l.1)); }
      }
    }
    if after == db {
      forall e | e in db.entities ensures Fixed(rules, db.entities[e]) == db.entities[e] {
        assert e in after.entities;
      }
    }
  }
}
