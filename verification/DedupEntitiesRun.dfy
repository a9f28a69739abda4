/** The entity merge migration statement by statement. Every statement checks the constraints SQLite would
    check; the run shows that none of them is ever violated, except by a row other tables still refer to. */
module DedupEntitiesRun {
  import opened Options
  import Lists
  import opened DedupEntities
  import Sorting

  datatype EntityError = ForeignKeyViolation | UniqueViolation

  // ---------------------------------------------------------------- intermediate states

  /** The duplicates in `gone` have been folded into their keepers. */
  function Merged(rules: Rules, db: Db, gone: set<EntityId>): Db
    requires Linked(db)
  {
    db.(entities := db.entities - gone,
        links := set l | l in db.links :: (l.0, if l.1 in gone then Keeper(rules, db, l.1) else l.1))
  }

  function MergedOne(db: Db, dupe: EntityId, keep: EntityId): Db {
    db.(entities := db.entities - {dupe},
        links := set l | l in db.links :: (l.0, if l.1 == dupe then keep else l.1))
  }

  lemma MergeNext(rules: Rules, db: Db, gone: set<EntityId>, dupe: EntityId)
    requires Linked(db) && Dupe(rules, db, dupe) && dupe !in gone && forall e :: e in gone ==> Dupe(rules, db, e)
    ensures MergedOne(Merged(rules, db, gone), dupe, Keeper(rules, db, dupe)) == Merged(rules, db, gone + {dupe})
  {
    hide Keeper;
    var mid, keep := Merged(rules, db, gone), Keeper(rules, db, dupe);
    forall l | l in db.links
      ensures (if l.1 in gone then Keeper(rules, db, l.1) else l.1) == dupe <==> l.1 == dupe
    {
      KeeperIsShared(rules, db, l.1, l.1);
    }
    MergedTwice(rules, db, gone, dupe);
    assert mid.entities - {dupe} == db.entities - (gone + {dupe});
  }

  lemma MergedTwice(rules: Rules, db: Db, gone: set<EntityId>, dupe: EntityId)
    requires Linked(db) && dupe in db.entities
    requires forall l :: l in db.links ==>
               ((if l.1 in gone then Keeper(rules, db, l.1) else l.1) == dupe <==> l.1 == dupe)
    requires dupe !in gone
    ensures MergedOne(Merged(rules, db, gone), dupe, Keeper(rules, db, dupe)).links
            == Merged(rules, db, gone + {dupe}).links
  {
    hide Keeper;
    var mid, keep := Merged(rules, db, gone), Keeper(rules, db, dupe);
    var left, right := MergedOne(mid, dupe, keep).links, Merged(rules, db, gone + {dupe}).links;
    forall x | x in left ensures x in right {
      var m :| m in mid.links && x == (m.0, if m.1 == dupe then keep else m.1);
      var l :| l in db.links && m == (l.0, if l.1 in gone then Keeper(rules, db, l.1) else l.1);
      assert x == (l.0, if l.1 in gone + {dupe} then Keeper(rules, db, l.1) else l.1);
    }
    forall x | x in right ensures x in left {
      var l :| l in db.links && x == (l.0, if l.1 in gone + {dupe} then Keeper(rules, db, l.1) else l.1);
      var m := (l.0, if l.1 in gone then Keeper(rules, db, l.1) else l.1);
      assert m in mid.links && x == (m.0, if m.1 == dupe then keep else m.1);
    }
  }

  // ---------------------------------------------------------------- grouping

  /** The members of a group, oldest first. */
  ghost predicate Group(rules: Rules, db: Db, k: Key, members: seq<EntityId>) {
    && members != [] && Lists.Distinct(members)
    && (forall e :: e in members <==> e in db.entities && KeyOf(rules, db.entities[e]) == k)
    && (forall e :: e in members ==> Keeper(rules, db, e) == members[0])
  }

  ghost predicate Grouping(rules: Rules, db: Db, order: seq<Key>, groups: map<Key, seq<EntityId>>) {
    && Lists.Distinct(order)
    && (forall k :: k in order <==> k in groups)
    && (forall k :: k in groups ==> Group(rules, db, k, groups[k]))
    && (forall e :: e in db.entities ==> KeyOf(rules, db.entities[e]) in groups)
  }

  ghost predicate GroupedSoFar(rules: Rules, db: Db, seen: seq<EntityId>, order: seq<Key>,
                               groups: map<Key, seq<EntityId>>) {
    && Lists.Distinct(order)
    && (forall k :: k in order <==> k in groups)
    && (forall e :: e in seen ==> e in db.entities && KeyOf(rules, db.entities[e]) in groups)
    && (forall k :: k in groups ==> groups[k] != [] && Sorting.Ascending(Older(db), groups[k]))
    && (forall k, e :: k in groups ==>
          (e in groups[k] <==> e in seen && e in db.entities && KeyOf(rules, db.entities[e]) == k))
  }

  method GroupRows(rules: Rules, db: Db) returns (order: seq<Key>, groups: map<Key, seq<EntityId>>)
    ensures Grouping(rules, db, order, groups)
  {
    hide *;
    OlderIsAnOrder(db);
    var rows := Sorting.Sorted(db.entities.Keys, Older(db));
    order, groups := GroupInOrder(rules, db, rows);
    AllGrouped(rules, db, rows, order, groups);
  }

  method GroupInOrder(rules: Rules, db: Db, rows: seq<EntityId>)
    returns (order: seq<Key>, groups: map<Key, seq<EntityId>>)
    requires (forall i :: 0 <= i < |rows| ==> rows[i] in db.entities) && Sorting.Ascending(Older(db), rows)
    ensures GroupedSoFar(rules, db, rows, order, groups)
  {
    hide *;
    order, groups := [], map[];
    NoRowsYet(rules, db);
    for i := 0 to |rows|
      invariant GroupedSoFar(rules, db, rows[..i], order, groups)
    {
      var k := KeyOf(rules, db.entities[rows[i]]);
      NextRow(rules, db, rows, i, order, groups);
      ghost var was := groups;
      if k !in groups {
        order := order + [k];
        groups := groups[k := []];
      }
      groups := groups[k := groups[k] + [rows[i]]];
      assert groups == was[k := (if k in was then was[k] else []) + [rows[i]]];
    }
    assert rows[..|rows|] == rows;
  }

  lemma OlderIsAnOrder(db: Db)
    ensures Sorting.StrictTotal(Older(db))
  {
  }

  lemma NoRowsYet(rules: Rules, db: Db)
    ensures GroupedSoFar(rules, db, [], [], map[])
  {
  }

  lemma NextRow(rules: Rules, db: Db, rows: seq<EntityId>, i: nat, order: seq<Key>, groups: map<Key, seq<EntityId>>)
    requires i < |rows| && (forall j :: 0 <= j < |rows| ==> rows[j] in db.entities)
             && Sorting.Ascending(Older(db), rows)
    requires GroupedSoFar(rules, db, rows[..i], order, groups)
    ensures var k := KeyOf(rules, db.entities[rows[i]]);
            var order' := if k in groups then order else order + [k];
            var before := if k in groups then groups[k] else [];
            GroupedSoFar(rules, db, rows[..i + 1], order', groups[k := before + [rows[i]]])
  {
    hide Older;
    hide KeyOf;
    var k := KeyOf(rules, db.entities[rows[i]]);
    var before := if k in groups then groups[k] else [];
    assert Sorting.Ascending(Older(db), before);
    forall a | a in before ensures Older(db)(a, rows[i]) {
      assert k in groups && a in rows[..i];
      EarlierIsLess(Older(db), rows, i, a);
    }
    AscendingSnoc(Older(db), before, rows[i]);
    Single(k);
    if k !in groups {
      Lists.DistinctConcat(order, [k]);
    }
    hide Sorting.Ascending;
    hide Lists.Distinct;
    var seen, after, longer := rows[..i + 1], groups[k := before + [rows[i]]], before + [rows[i]];
    assert forall e :: e in seen <==> e in rows[..i] || e == rows[i] by { assert seen == rows[..i] + [rows[i]]; }
    forall e ensures e in longer <==> e in seen && e in db.entities && KeyOf(rules, db.entities[e]) == k {
      assert k !in groups ==> e in rows[..i] ==> KeyOf(rules, db.entities[e]) in groups;
    }
  }

  lemma EarlierIsLess(less: (EntityId, EntityId) -> bool, rows: seq<EntityId>, i: nat, a: EntityId)
    requires i < |rows| && Sorting.Ascending(less, rows) && a in rows[..i]
    ensures less(a, rows[i])
  {
    var j :| 0 <= j < i && rows[..i][j] == a;
    assert rows[j] == a;
  }

  lemma AscendingSnoc(less: (EntityId, EntityId) -> bool, before: seq<EntityId>, last: EntityId)
    requires Sorting.Ascending(less, before) && forall a :: a in before ==> less(a, last)
    ensures Sorting.Ascending(less, before + [last])
  {
    var longer := before + [last];
    forall x, y | 0 <= x < y < |longer| ensures less(longer[x], longer[y]) {
      assert y == |before| ==> longer[x] in before;
    }
  }

  lemma AllGrouped(rules: Rules, db: Db, rows: seq<EntityId>, order: seq<Key>, groups: map<Key, seq<EntityId>>)
    requires (forall e :: e in rows <==> e in db.entities) && GroupedSoFar(rules, db, rows, order, groups)
    ensures Grouping(rules, db, order, groups)
  {
    hide KeyOf;
    forall k | k in groups ensures Group(rules, db, k, groups[k]) {
      OldestKeeps(rules, db, k, groups[k]);
    }
  }

  lemma OldestKeeps(rules: Rules, db: Db, k: Key, members: seq<EntityId>)
    requires members != [] && Sorting.Ascending(Older(db), members)
    requires forall e :: e in members <==> e in db.entities && KeyOf(rules, db.entities[e]) == k
    ensures Group(rules, db, k, members)
  {
    hide KeyOf;
    hide Keeper;
    hide Older;
    forall e | e in members ensures Keeper(rules, db, e) == members[0] {
      var kept := Keeper(rules, db, e);
      assert members[0] in members && kept in members;
      var i :| 0 <= i < |members| && members[i] == kept;
      OlderIsOneWay(db, kept, members[0]);
    }
    forall i, j | 0 <= i < j < |members| ensures members[i] != members[j] {
      OlderIsOneWay(db, members[i], members[j]);
      assert Older(db)(members[i], members[j]);
    }
  }

  /** Dropping the conflicting links first loses nothing. */
  lemma RepointedLinks(db: Db, dupe: EntityId, keep: EntityId)
    requires dupe != keep
    ensures var kept := set l | l in db.links && !(l.1 == dupe && (l.0, keep) in db.links);
            && (forall l :: l in kept && l.1 == dupe ==> (l.0, keep) !in kept)
            && (set l | l in kept :: (l.0, if l.1 == dupe then keep else l.1)) == MergedOne(db, dupe, keep).links
            && (forall l :: l in MergedOne(db, dupe, keep).links ==> l.1 != dupe)
  {
    var kept := set l | l in db.links && !(l.1 == dupe && (l.0, keep) in db.links);
    var moved := set l | l in kept :: (l.0, if l.1 == dupe then keep else l.1);
    forall l | l in db.links ensures (l.0, if l.1 == dupe then keep else l.1) in moved {
      if l !in kept {
        var other := (l.0, keep);
        assert other in kept && (l.0, keep) == (other.0, if other.1 == dupe then keep else other.1);
      }
    }
  }

  // ---------------------------------------------------------------- the tables

  /** `trace` is the entity rows as each statement that wrote them left them. */
  class Tables {
    var entities: map<EntityId, Entity>
    var links: set<(NodeId, EntityId)>
    const pinned: set<EntityId>
    ghost var trace: seq<map<EntityId, Entity>>

    constructor (db: Db)
      ensures State() == db && trace == []
    {
      entities, links, pinned, trace := db.entities, db.links, db.pinned, [];
    }

    /** The unique constraint holds now and held after every statement so far. */
    ghost predicate Clean()
      reads this
    {
      UniqueRows(entities) && forall i :: 0 <= i < |trace| ==> UniqueRows(trace[i])
    }

    function State(): Db
      reads this
    {
      Db(entities, links, pinned)
    }

    /** Links of the duplicate that the survivor has as well. */
    method DeleteConflicting(dupe: EntityId, keep: EntityId)
      modifies this`links
      ensures links == set l | l in old(links) && !(l.1 == dupe && (l.0, keep) in old(links))
    {
      links := set l | l in links && !(l.1 == dupe && (l.0, keep) in links);
    }

    /** Fails on the primary key if a node is linked to both. */
    method Repoint(dupe: EntityId, keep: EntityId) returns (ok: bool)
      modifies this`links
      ensures ok <==> forall l :: l in old(links) && l.1 == dupe ==> (l.0, keep) !in old(links)
      ensures links == if ok then set l | l in old(links) :: (l.0, if l.1 == dupe then keep else l.1) else old(links)
    {
      if exists l :: l in links && l.1 == dupe && (l.0, keep) in links {
        return false;
      }
      links := set l | l in links :: (l.0, if l.1 == dupe then keep else l.1);
      ok := true;
    }

    /** Fails on a foreign key while any row refers to the entity. */
    method DeleteEntity(e: EntityId) returns (ok: bool)
      requires Clean()
      modifies this`entities, this`trace
      ensures Clean() && trace == old(trace) + if ok then [entities] else []
      ensures ok <==> e !in pinned && forall l :: l in links ==> l.1 != e
      ensures entities == if ok then old(entities) - {e} else old(entities)
    {
      if e in pinned || exists l :: l in links && l.1 == e {
        return false;
      }
      entities := entities - {e};
      trace := trace + [entities];
      ok := true;
    }

    /** Fails on UNIQUE (type, canonical) if another row holds the new pair. */
    method UpdateEntity(e: EntityId, row: Entity) returns (ok: bool)
      requires Clean()
      modifies this`entities, this`trace
      ensures Clean() && trace == old(trace) + if ok then [entities] else []
      ensures ok <==> forall o :: o in old(entities) && o != e ==> !Clash(old(entities)[o], row)
      ensures entities == if ok then old(entities)[e := row] else old(entities)
    {
      if exists o :: o in entities && o != e && Clash(entities[o], row) {
        return false;
      }
      entities := entities[e := row];
      trace := trace + [entities];
      ok := true;
    }

    /** Folding one duplicate into its survivor fails only if another table still refers to it. */
    method Merge(dupe: EntityId, keep: EntityId) returns (ok: bool)
      requires dupe != keep && Clean()
      modifies this`entities, this`links, this`trace
      ensures Clean() && old(trace) <= trace
      ensures ok <==> dupe !in pinned
      ensures ok ==> State() == MergedOne(old(State()), dupe, keep)
    {
      DeleteConflicting(dupe, keep);
      var repointed := Repoint(dupe, keep);
      assert repointed && links == MergedOne(old(State()), dupe, keep).links by {
        RepointedLinks(old(State()), dupe, keep);
      }
      ok := DeleteEntity(dupe);
    }

    /** Every younger member of a group, one after the other. */
    method MergeGroup(rules: Rules, ghost db: Db, k: Key, members: seq<EntityId>, ghost before: set<EntityId>)
      returns (ok: bool, ghost gone: set<EntityId>)
      requires Linked(db) && Group(rules, db, k, members) && State() == Merged(rules, db, before) && before !! db.pinned
      requires forall e :: e in before ==> Dupe(rules, db, e) && KeyOf(rules, db.entities[e]) != k
      requires Clean()
      modifies this`entities, this`links, this`trace
      ensures Clean() && old(trace) <= trace
      ensures if ok then
                State() == Merged(rules, db, gone) && gone !! db.pinned && Folded(rules, db, before, members, gone)
              else exists e :: e in db.pinned && Dupe(rules, db, e)
    {
      hide KeyOf;
      hide Keeper;
      hide Merged;
      hide MergedOne;
      gone := before;
      MergedKeepsPinned(rules, db, before);
      for j := 1 to |members|
        invariant State() == Merged(rules, db, gone) && gone !! db.pinned
        invariant forall e :: e in gone <==> e in before || e in members[1..j]
        invariant Clean() && old(trace) <= trace
      {
        var dupe := members[j];
        YoungerIsDupe(rules, db, k, members, j);
        MergeNext(rules, db, gone, dupe);
        ok := Merge(dupe, members[0]);
        if !ok {
          return;
        }
        gone := gone + {dupe};
        assert members[1..j + 1] == members[1..j] + [members[j]];
      }
      ok := true;
      assert members == [members[0]] + members[1..|members|];
      FoldedAll(rules, db, k, before, members, gone);
    }

    method MergeAll(rules: Rules, ghost db: Db, groups: map<Key, seq<EntityId>>, merges: seq<Key>)
      returns (ok: bool, ghost gone: set<EntityId>)
      requires State() == db && Linked(db) && Lists.Distinct(merges)
      requires forall k :: k in merges ==> k in groups && Group(rules, db, k, groups[k])
      requires Clean()
      modifies this`entities, this`links, this`trace
      ensures Clean() && old(trace) <= trace
      ensures if ok then
                && State() == Merged(rules, db, gone) && gone !! db.pinned
                && (forall e :: e in gone <==> Dupe(rules, db, e) && KeyOf(rules, db.entities[e]) in merges)
              else exists e :: e in db.pinned && Dupe(rules, db, e)
    {
      hide KeyOf;
      hide Keeper;
      hide Dupe;
      gone := {};
      assert State() == Merged(rules, db, {}) by { MergedNothing(rules, db); }
      hide Merged;
      for i := 0 to |merges|
        invariant State() == Merged(rules, db, gone) && gone !! db.pinned
        invariant FoldedKeys(rules, db, gone, merges[..i])
        invariant Clean() && old(trace) <= trace
      {
        ghost var before := gone;
        assert merges[i] !in merges[..i];
        ok, gone := MergeGroup(rules, db, merges[i], groups[merges[i]], gone);
        if !ok {
          return;
        }
        FoldedNext(rules, db, before, gone, merges, i, groups[merges[i]]);
      }
      assert merges[..|merges|] == merges;
      ok := true;
    }

    /** Phase one: every row about to change steps aside to a canonical nothing else can hold. */
    method ParkAll(ghost rows: map<EntityId, Entity>, finals: seq<EntityId>)
      requires entities == rows && Lists.Distinct(finals)
      requires forall e :: e in rows ==> !rows[e].canonical.Parked?
      requires forall i :: 0 <= i < |finals| ==> finals[i] in rows
      requires Clean()
      modifies this`entities, this`trace
      ensures Clean() && old(trace) <= trace && |trace| == |old(trace)| + |finals|
      ensures entities == WithParked(rows, finals)
    {
      assert WithParked(rows, []) == rows;
      for i := 0 to |finals|
        invariant entities == WithParked(rows, finals[..i])
        invariant Clean() && old(trace) <= trace && |trace| == |old(trace)| + i
      {
        var e := finals[i];
        assert finals[..i + 1] == finals[..i] + [e] && e !in finals[..i];
        var parked := UpdateEntity(e, entities[e].(canonical := Parked(e)));
        assert parked;
        assert entities == WithParked(rows, finals[..i + 1]);
      }
      assert finals[..|finals|] == finals;
    }

    /** Phase two: the final values cannot meet a row that has not stepped aside. */
    method SettleAll(rules: Rules, ghost rows: map<EntityId, Entity>, names: map<EntityId, Entity>,
                     finals: seq<EntityId>)
      requires entities == WithParked(rows, finals) && Lists.Distinct(finals) && names == rows
      requires forall i :: 0 <= i < |finals| ==> finals[i] in rows
      requires forall a, b :: a in rows && b in rows && a != b ==> KeyOf(rules, rows[a]) != KeyOf(rules, rows[b])
      requires forall e :: e in rows && e !in finals ==> Fixed(rules, rows[e]) == rows[e]
      requires Clean()
      modifies this`entities, this`trace
      ensures Clean() && old(trace) <= trace && |trace| == |old(trace)| + |finals|
      ensures entities == map e | e in rows :: Fixed(rules, rows[e])
    {
      hide KeyOf;
      assert WithSettled(rules, rows, finals, []) == entities;
      hide Fixed;
      hide WithSettled;
      hide Clash;
      for i := 0 to |finals|
        invariant entities == WithSettled(rules, rows, finals, finals[..i])
        invariant Clean() && old(trace) <= trace && |trace| == |old(trace)| + i
      {
        var e := finals[i];
        assert finals[..i + 1] == finals[..i] + [e] && e !in finals[..i] && e in finals;
        SettledFits(rules, rows, finals, finals[..i], e);
        var row := names[e];
        var settled := UpdateEntity(e, Fixed(rules, row));
        assert settled;
        SettledNext(rules, rows, finals, finals[..i], e);
      }
      assert finals[..|finals|] == finals;
      AllSettled(rules, rows, finals);
    }

    /** The whole migration in one transaction. */
    method Run(rules: Rules) returns (result: Outcome<(), EntityError>)
      requires Linked(State()) && Unparked(State()) && Clean()
      modifies this`entities, this`links, this`trace
      ensures Clean() && old(trace) <= trace
      ensures result.Raised? <==> exists e :: e in pinned && Dupe(rules, old(State()), e)
      ensures State() == if result.Raised? then old(State()) else Deduped(rules, old(State()))
    {
      var db := State();
      hide KeyOf;
      hide Keeper;
      hide Merged;
      hide Deduped;
      hide Fixed;
      hide Group;
      hide Grouping;
      hide Dupe;
      hide Clash;
      hide Unique;
      hide Heads;
      hide WithParked;
      hide Lists.Distinct;
      var order, groups := GroupRows(rules, db);
      var merges, rebrands := Plan(rules, db, order, groups);
      GroupsOf(rules, db, order, groups);
      var merged, gone := MergeAll(rules, db, groups, merges);
      if !merged {
        entities, links := db.entities, db.links;
        return Raised(ForeignKeyViolation);
      }
      AllFolded(rules, db, order, groups, merges, gone);
      var finals := Heads(groups, merges) + rebrands;
      FinalsFit(rules, db, order, groups, merges, rebrands);
      ghost var rows := entities;
      MergedRows(rules, db, gone);
      var names := entities;
      ParkAll(rows, finals);
      SettleAll(rules, rows, names, finals);
      MergedIsDeduped(rules, db, gone, State());
      result := Committed(());
    }
  }

  function Heads(groups: map<Key, seq<EntityId>>, keys: seq<Key>): (r: seq<EntityId>)
    requires forall k :: k in keys ==> k in groups && groups[k] != []
    ensures |r| == |keys| && forall i :: 0 <= i < |keys| ==> r[i] == groups[keys[i]][0]
  {
    seq(|keys|, i requires 0 <= i < |keys| => groups[keys[i]][0])
  }

  function WithParked(rows: map<EntityId, Entity>, parked: seq<EntityId>): map<EntityId, Entity> {
    map e | e in rows :: if e in parked then rows[e].(canonical := Parked(e)) else rows[e]
  }

  function WithSettled(rules: Rules, rows: map<EntityId, Entity>, parked: seq<EntityId>, settled: seq<EntityId>)
    : map<EntityId, Entity>
  {
    map e | e in rows ::
      if e in settled then Fixed(rules, rows[e])
      else if e in parked then rows[e].(canonical := Parked(e)) else rows[e]
  }

  lemma SettledNext(rules: Rules, rows: map<EntityId, Entity>, parked: seq<EntityId>, settled: seq<EntityId>,
                    e: EntityId)
    requires e in rows
    ensures WithSettled(rules, rows, parked, settled)[e := Fixed(rules, rows[e])]
            == WithSettled(rules, rows, parked, settled + [e])
  {
    hide Fixed;
  }

  lemma AllSettled(rules: Rules, rows: map<EntityId, Entity>, finals: seq<EntityId>)
    requires forall e :: e in rows && e !in finals ==> Fixed(rules, rows[e]) == rows[e]
    ensures WithSettled(rules, rows, finals, finals) == map e | e in rows :: Fixed(rules, rows[e])
  {
    hide Fixed;
  }

  lemma SettledFits(rules: Rules, rows: map<EntityId, Entity>, parked: seq<EntityId>, settled: seq<EntityId>,
                    e: EntityId)
    requires e in rows && e in parked
    requires forall a, b :: a in rows && b in rows && a != b ==> KeyOf(rules, rows[a]) != KeyOf(rules, rows[b])
    requires forall o :: o in rows && o !in parked ==> Fixed(rules, rows[o]) == rows[o]
    ensures forall o :: o in rows && o != e ==>
            !Clash(WithSettled(rules, rows, parked, settled)[o], Fixed(rules, rows[e]))
  {
    forall o | o in rows && o != e ensures !Clash(WithSettled(rules, rows, parked, settled)[o], Fixed(rules, rows[e])) {
      assert KeyOf(rules, rows[o]) != KeyOf(rules, rows[e]);
    }
  }

  lemma GroupsOf(rules: Rules, db: Db, order: seq<Key>, groups: map<Key, seq<EntityId>>)
    requires Grouping(rules, db, order, groups)
    ensures forall k :: k in groups ==> Group(rules, db, k, groups[k])
  {
  }

  lemma DupesHaveElders(rules: Rules, db: Db, k: Key, members: seq<EntityId>)
    requires Group(rules, db, k, members)
    ensures forall e :: e in members && Dupe(rules, db, e) ==> |members| > 1
  {
    hide KeyOf;
    hide Keeper;
    if |members| == 1 {
      assert members == [members[0]];
    }
  }

  lemma AllFolded(rules: Rules, db: Db, order: seq<Key>, groups: map<Key, seq<EntityId>>, merges: seq<Key>,
                  gone: set<EntityId>)
    requires Grouping(rules, db, order, groups)
    requires forall k :: k in merges <==> k in groups && |groups[k]| > 1
    requires forall e :: e in gone <==> Dupe(rules, db, e) && KeyOf(rules, db.entities[e]) in merges
    ensures forall e :: e in gone <==> Dupe(rules, db, e)
  {
    hide KeyOf;
    hide Keeper;
    forall e | Dupe(rules, db, e) ensures KeyOf(rules, db.entities[e]) in merges {
      var k := KeyOf(rules, db.entities[e]);
      assert Group(rules, db, k, groups[k]) && e in groups[k];
      DupesHaveElders(rules, db, k, groups[k]);
    }
  }

  /** The rows to rewrite are survivors, each once, and every survivor left out is up to date already. */
  lemma FinalsFit(rules: Rules, db: Db, order: seq<Key>, groups: map<Key, seq<EntityId>>, merges: seq<Key>,
                  rebrands: seq<EntityId>)
    requires Grouping(rules, db, order, groups)
    requires Lists.Distinct(merges) && forall k :: k in merges <==> k in groups && |groups[k]| > 1
    requires Lists.Distinct(rebrands)
    requires forall e :: e in rebrands <==>
               e in db.entities && groups[KeyOf(rules, db.entities[e])] == [e]
               && Fixed(rules, db.entities[e]) != db.entities[e]
    ensures forall k :: k in merges ==> k in groups && groups[k] != []
    ensures var finals := Heads(groups, merges) + rebrands;
            && Lists.Distinct(finals)
            && (forall i :: 0 <= i < |finals| ==> finals[i] in db.entities && !Dupe(rules, db, finals[i]))
            && (forall e :: e in db.entities && !Dupe(rules, db, e) && e !in finals ==>
                  Fixed(rules, db.entities[e]) == db.entities[e])
  {
    hide KeyOf;
    hide Keeper;
    hide Fixed;
    assert forall k :: k in groups ==> Group(rules, db, k, groups[k]);
    var heads := Heads(groups, merges);
    forall i | 0 <= i < |heads|
      ensures heads[i] in db.entities && KeyOf(rules, db.entities[heads[i]]) == merges[i]
              && Keeper(rules, db, heads[i]) == heads[i]
    {
      assert merges[i] in groups && heads[i] in groups[merges[i]];
    }
    forall x | x in rebrands ensures x !in heads && !Dupe(rules, db, x) {
      var k := KeyOf(rules, db.entities[x]);
      assert x in groups[k] && k !in merges;
    }
    Lists.DistinctConcat(heads, rebrands);
    forall e | e in db.entities && !Dupe(rules, db, e) && e !in heads + rebrands
      ensures Fixed(rules, db.entities[e]) == db.entities[e]
    {
      SurvivorLeftOut(rules, db, groups, merges, rebrands, e);
    }
  }

  lemma HeadsHold(groups: map<Key, seq<EntityId>>, keys: seq<Key>)
    requires forall k :: k in keys ==> k in groups && groups[k] != []
    ensures forall k :: k in keys ==> groups[k][0] in Heads(groups, keys)
  {
    forall k | k in keys ensures groups[k][0] in Heads(groups, keys) {
      var i :| 0 <= i < |keys| && keys[i] == k;
      assert Heads(groups, keys)[i] == groups[k][0];
    }
  }

  lemma SurvivorLeftOut(rules: Rules, db: Db, groups: map<Key, seq<EntityId>>, merges: seq<Key>,
                        rebrands: seq<EntityId>, e: EntityId)
    requires e in db.entities && !Dupe(rules, db, e) && KeyOf(rules, db.entities[e]) in groups
    requires Group(rules, db, KeyOf(rules, db.entities[e]), groups[KeyOf(rules, db.entities[e])])
    requires forall k :: k in merges <==> k in groups && |groups[k]| > 1
    requires forall k :: k in merges ==> groups[k] != []
    requires e !in Heads(groups, merges) && e !in rebrands
    requires groups[KeyOf(rules, db.entities[e])] == [e] && Fixed(rules, db.entities[e]) != db.entities[e] ==>
             e in rebrands
    ensures Fixed(rules, db.entities[e]) == db.entities[e]
  {
    hide KeyOf;
    hide Keeper;
    hide Fixed;
    var k := KeyOf(rules, db.entities[e]);
    var members := groups[k];
    assert e in members && members[0] == e;
    HeadsHold(groups, merges);
    assert |members| <= 1 ==> members == [e];
  }

  lemma MergedRows(rules: Rules, db: Db, gone: set<EntityId>)
    requires Linked(db) && Unparked(db) && forall e :: e in gone <==> Dupe(rules, db, e)
    ensures var rows := Merged(rules, db, gone).entities;
            && rows == (map e | e in db.entities && !Dupe(rules, db, e) :: db.entities[e])
            && (forall a, b :: a in rows && b in rows && a != b ==> KeyOf(rules, rows[a]) != KeyOf(rules, rows[b]))
            && (forall e :: e in rows ==> !rows[e].canonical.Parked?)
  {
    hide KeyOf;
    hide Keeper;
    var rows := Merged(rules, db, gone).entities;
    forall a, b | a in rows && b in rows && a != b ensures KeyOf(rules, rows[a]) != KeyOf(rules, rows[b]) {
      KeeperIsShared(rules, db, a, b);
    }
  }

  lemma MergedIsDeduped(rules: Rules, db: Db, gone: set<EntityId>, after: Db)
    requires Linked(db) && forall e :: e in gone <==> Dupe(rules, db, e)
    requires var mid := Merged(rules, db, gone);
             after == mid.(entities := map e | e in mid.entities :: Fixed(rules, mid.entities[e]))
    ensures after == Deduped(rules, db)
  {
    hide Keeper;
    hide Fixed;
    assert after.entities == Deduped(rules, db).entities;
    forall l | l in db.links
      ensures (l.0, if l.1 in gone then Keeper(rules, db, l.1) else l.1) == (l.0, Keeper(rules, db, l.1)) {
      assert Dupe(rules, db, l.1) <==> Keeper(rules, db, l.1) != l.1;
    }
    MappedAlike(rules, db, gone);
  }

  lemma MappedAlike(rules: Rules, db: Db, gone: set<EntityId>)
    requires Linked(db)
    requires forall l :: l in db.links ==>
             (if l.1 in gone then Keeper(rules, db, l.1) else l.1) == Keeper(rules, db, l.1)
    ensures Merged(rules, db, gone).links == Deduped(rules, db).links
  {
    hide Keeper;
    var left, right := Merged(rules, db, gone).links, Deduped(rules, db).links;
    forall x | x in left ensures x in right {
      var l :| l in db.links && x == (l.0, if l.1 in gone then Keeper(rules, db, l.1) else l.1);
      assert x == (l.0, Keeper(rules, db, l.1));
    }
    forall x | x in right ensures x in left {
      var l :| l in db.links && x == (l.0, Keeper(rules, db, l.1));
      assert x == (l.0, if l.1 in gone then Keeper(rules, db, l.1) else l.1);
    }
  }

  /** Without stepping aside first, a lone row whose new canonical another row still stores would collide,
      although the final state has no collision. */
  lemma OnePassCollides(kind: string, x: string, y: string, z: string)
    requires x != y && y != z && x != z
    ensures var rules, db := ChainRules(y, z), ChainDb(kind, x, y);
            && Unique(db) && Linked(db) && Unique(Deduped(rules, db))
            && Clash(Fixed(rules, db.entities[1]), db.entities[2])
  {
    assert Unique(ChainDb(kind, x, y)) && Linked(ChainDb(kind, x, y));
    assert Clash(Fixed(ChainRules(y, z), ChainDb(kind, x, y).entities[1]), ChainDb(kind, x, y).entities[2]);
    assert 1 in ChainDb(kind, x, y).entities && 2 in ChainDb(kind, x, y).entities;
    hide *;
    DedupedIsCanonical(ChainRules(y, z), ChainDb(kind, x, y));
  }

  /** Row 1 is to take the canonical that row 2 is to give up. */
  function ChainDb(kind: string, x: string, y: string): Db {
    Db(map[1 := Entity(kind, "a", Plain(x), 1), 2 := Entity(kind, "b", Plain(y), 2)], {}, {})
  }

  function ChainRules(y: string, z: string): Rules {
    Rules((_, name) => if name == "a" then y else z, (_, name) => name)
  }

  // ---------------------------------------------------------------- what to rewrite

  /** The lone rows that no longer store what the rules give, and the groups of several, among `keys`. */
  ghost predicate Planned(rules: Rules, db: Db, groups: map<Key, seq<EntityId>>, keys: seq<Key>, merges: seq<Key>,
                          rebrands: seq<EntityId>)
    requires forall e :: e in db.entities ==> KeyOf(rules, db.entities[e]) in groups
  {
    && Lists.Distinct(merges) && (forall k :: k in merges <==> k in keys && k in groups && |groups[k]| > 1)
    && Lists.Distinct(rebrands)
    && (forall e :: e in rebrands <==>
          && e in db.entities && KeyOf(rules, db.entities[e]) in keys
          && groups[KeyOf(rules, db.entities[e])] == [e] && Fixed(rules, db.entities[e]) != db.entities[e])
  }

  lemma PlanNext(rules: Rules, db: Db, order: seq<Key>, groups: map<Key, seq<EntityId>>, i: nat, merges: seq<Key>,
                 rebrands: seq<EntityId>)
    requires Grouping(rules, db, order, groups) && i < |order|
    requires Planned(rules, db, groups, order[..i], merges, rebrands)
    ensures order[i] in groups && groups[order[i]] != [] && groups[order[i]][0] in db.entities
    ensures var k, e := order[i], groups[order[i]][0];
            if |groups[k]| > 1 then Planned(rules, db, groups, order[..i + 1], merges + [k], rebrands)
            else if Fixed(rules, db.entities[e]) != db.entities[e]
            then Planned(rules, db, groups, order[..i + 1], merges, rebrands + [e])
            else Planned(rules, db, groups, order[..i + 1], merges, rebrands)
  {
    hide KeyOf;
    hide Keeper;
    hide Fixed;
    var k := order[i];
    assert order[..i + 1] == order[..i] + [k] && k !in order[..i];
    assert Group(rules, db, k, groups[k]);
    FirstOfGroup(rules, db, k, groups[k]);
    hide Group;
    hide Lists.Distinct;
    Lists.DistinctConcat(merges, [k]);
    Lists.DistinctConcat(rebrands, [groups[k][0]]);
    assert Lists.Distinct([k]) && Lists.Distinct([groups[k][0]]) by { Single(k); Single(groups[k][0]); }
  }

  lemma Single<T>(x: T)
    ensures Lists.Distinct([x])
  {
  }

  lemma FirstOfGroup(rules: Rules, db: Db, k: Key, members: seq<EntityId>)
    requires Group(rules, db, k, members)
    ensures members[0] in db.entities && KeyOf(rules, db.entities[members[0]]) == k
    ensures forall e :: e in db.entities && KeyOf(rules, db.entities[e]) == k ==> e in members
    ensures |members| == 1 ==> members == [members[0]]
  {
    hide KeyOf;
    hide Keeper;
    assert members[0] in members;
  }

  /** Groups to merge, and lone rows that no longer store what the rules give them. */
  method Plan(rules: Rules, db: Db, order: seq<Key>, groups: map<Key, seq<EntityId>>)
    returns (merges: seq<Key>, rebrands: seq<EntityId>)
    requires Grouping(rules, db, order, groups)
    ensures Lists.Distinct(merges) && forall k :: k in merges <==> k in groups && |groups[k]| > 1
    ensures Lists.Distinct(rebrands)
    ensures forall e :: e in rebrands <==>
              e in db.entities && groups[KeyOf(rules, db.entities[e])] == [e]
              && Fixed(rules, db.entities[e]) != db.entities[e]
  {
    hide KeyOf;
    hide Fixed;
    hide Group;
    merges, rebrands := [], [];
    for i := 0 to |order|
      invariant Planned(rules, db, groups, order[..i], merges, rebrands)
    {
      PlanNext(rules, db, order, groups, i, merges, rebrands);
      hide Planned;
      var k := order[i];
      var e := groups[k][0];
      if |groups[k]| > 1 {
        merges := merges + [k];
      } else if Fixed(rules, db.entities[e]) != db.entities[e] {
        rebrands := rebrands + [e];
      }
    }
    assert order[..|order|] == order;
  }

  ghost predicate Folded(rules: Rules, db: Db, before: set<EntityId>, members: seq<EntityId>, gone: set<EntityId>) {
    forall e :: e in gone <==> e in before || (e in members && Dupe(rules, db, e))
  }

  ghost predicate FoldedKeys(rules: Rules, db: Db, gone: set<EntityId>, keys: seq<Key>) {
    forall e :: e in gone <==> Dupe(rules, db, e) && KeyOf(rules, db.entities[e]) in keys
  }

  lemma FoldedNext(rules: Rules, db: Db, before: set<EntityId>, gone: set<EntityId>, merges: seq<Key>, i: nat,
                   members: seq<EntityId>)
    requires i < |merges| && FoldedKeys(rules, db, before, merges[..i])
    requires Group(rules, db, merges[i], members) && Folded(rules, db, before, members, gone)
    ensures FoldedKeys(rules, db, gone, merges[..i + 1])
  {
    hide KeyOf;
    hide Keeper;
    assert merges[..i + 1] == merges[..i] + [merges[i]];
  }

  lemma YoungerIsDupe(rules: Rules, db: Db, k: Key, members: seq<EntityId>, j: nat)
    requires Group(rules, db, k, members) && 1 <= j < |members|
    ensures Dupe(rules, db, members[j]) && Keeper(rules, db, members[j]) == members[0] != members[j]
    ensures members[j] !in members[1..j] && KeyOf(rules, db.entities[members[j]]) == k
  {
    hide KeyOf;
    hide Keeper;
    assert members[j] in members;
  }

  lemma FoldedAll(rules: Rules, db: Db, k: Key, before: set<EntityId>, members: seq<EntityId>, gone: set<EntityId>)
    requires Group(rules, db, k, members) && forall e :: e in gone <==> e in before || e in members[1..]
    ensures Folded(rules, db, before, members, gone)
  {
    hide KeyOf;
    hide Keeper;
    forall e | e in members ensures Dupe(rules, db, e) <==> e in members[1..] {
      assert members == [members[0]] + members[1..];
      if e in members[1..] {
        var j :| 0 <= j < |members[1..]| && members[1..][j] == e;
        assert members[j + 1] == e;
      }
    }
    assert forall e :: e in members[1..] ==> e in members;
  }

  lemma MergedNothing(rules: Rules, db: Db)
    requires Linked(db)
    ensures Merged(rules, db, {}) == db
  {
    hide Keeper;
    var same := Merged(rules, db, {});
    forall l | l in db.links ensures l in same.links { assert l == (l.0, l.1); }
  }

  lemma MergedKeepsPinned(rules: Rules, db: Db, gone: set<EntityId>)
    requires Linked(db)
    ensures Merged(rules, db, gone).pinned == db.pinned
  {
  }
}
