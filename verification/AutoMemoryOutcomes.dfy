/** What claiming, publishing and burying do to every row, said from the rows before it. */
module AutoMemoryOutcomes {
  import opened Options
  import opened RowIds
  import opened AutoMemory

  // ---------------------------------------------------------------- claiming

  /** Claiming marks the claimed rows as worked on and their documents, where they are current, as processing; it
      changes nothing else. Only waiting and taken rows can be claimed. */
  lemma ClaimMarks(db: Db, revs: set<RevId>, r: RevId, d: DocId)
    ensures var after := ClaimRevisions(db, revs);
            && after == db.(queue := after.queue, docs := after.docs)
            && (r in after.queue <==> r in db.queue) && (d in after.docs <==> d in db.docs)
            && (r in db.queue ==>
                  after.queue[r] == if r in revs then QueueRow(Working, db.queue[r].retries) else db.queue[r])
            && (d in db.docs ==>
                  after.docs[d] == if exists x :: x in revs && db.docs[d].current == Some(x)
                                   then db.docs[d].(projection := Processing) else db.docs[d])
    ensures Claimable(db, r) <==> r in db.queue && db.queue[r].status != Done && db.queue[r].status != GivenUp
  {
  }

  // ---------------------------------------------------------------- publishing

  predicate HasLink(db: Db, r: RevId) {
    exists l :: l in db.links && l.1.revision == r
  }

  /** The node that a publication replaces, if its chunk links lead to it. */
  predicate Replaces(db: Db, d: DocId, r: RevId, k: Node)
    requires d in db.docs
  {
    var active := db.docs[d].active;
    active.Some? && active.value != r && k == Node(d, active.value) && HasLink(db, active.value)
  }

  /** Everything a publication leaves. */
  ghost predicate Published(db: Db, after: Db, d: DocId, r: RevId)
    requires d in db.docs && r in db.revisions
  {
    var own := Node(d, r);
    && after.revisions == db.revisions && after.index == db.index
    && after.docs == db.docs[d := db.docs[d].(active := Some(r), projection := Ready)]
    && after.queue == (if r in db.queue then db.queue[r := QueueRow(Done, db.queue[r].retries)] else db.queue)
    && (forall k :: k in after.nodes <==> k == own || (k in db.nodes && !Replaces(db, d, r, k)))
    && (forall k :: k in after.labelled <==> k in db.labelled && !Replaces(db, d, r, k))
    && (forall k: Node, c: Chunk :: (k, c) in after.links <==>
          if k == own then c.revision == r && c.ordinal < db.revisions[r].chunks
          else (k, c) in db.links && !Replaces(db, d, r, k))
  }

  /** Which way a publication goes: refused without its revision, retired without a change to any document if its
      document has moved on, refused if it cannot delete the vector of the node it replaces, and else published. */
  lemma PublishGoes(db: Db, r: RevId, vectors: bool)
    ensures var (after, result) := Publish(db, r, vectors);
            if r !in db.revisions || db.revisions[r].document !in db.docs then
              after == db && result == Raised(NoSuchRevision)
            else
              var d := db.revisions[r].document;
              if db.docs[d].current.Some? && db.docs[d].current != Some(r) then
                && result == Committed(None)
                && after == if r in db.queue then db.(queue := db.queue[r := QueueRow(Done, db.queue[r].retries)])
                            else db
              else if !vectors && exists k :: Replaces(db, d, r, k) then
                after == db && result == Raised(VectorsUnreachable)
              else result == Committed(Some(Node(d, r))) && Published(db, after, d, r)
  {
    hide ChunkLinks;
    hide Published;
    if r in db.revisions && db.revisions[r].document in db.docs {
      var d := db.revisions[r].document;
      LinkedIff(db, d);
      assert (exists k :: Replaces(db, d, r, k)) <==>
             db.docs[d].active.Some? && db.docs[d].active.value != r && HasLink(db, db.docs[d].active.value) by {
        SomeReplaced(db, d, r);
      }
      hide Replaces;
      hide HasLink;
      hide Linked;
      hide Activate;
      hide Withdraw;
      if !(db.docs[d].current.Some? && db.docs[d].current != Some(r)) {
        if db.docs[d].active.Some? && db.docs[d].active.value != r {
          SupersedePublishes(db, d, r);
        } else {
          ActivatePublishes(db, d, r);
        }
      }
    }
  }

  lemma LinkedIff(db: Db, d: DocId)
    ensures forall a :: Linked(db, a) <==> HasLink(db, a)
  {
  }

  lemma SomeReplaced(db: Db, d: DocId, r: RevId)
    requires d in db.docs
    ensures (exists k :: Replaces(db, d, r, k)) <==>
              db.docs[d].active.Some? && db.docs[d].active.value != r && HasLink(db, db.docs[d].active.value)
  {
    hide HasLink;
    if db.docs[d].active.Some? && db.docs[d].active.value != r && HasLink(db, db.docs[d].active.value) {
      assert Replaces(db, d, r, Node(d, db.docs[d].active.value));
    }
  }

  lemma ChunkLinksAre(k: Node, chunks: nat)
    ensures forall n: Node, c: Chunk ::
              (n, c) in ChunkLinks(k, chunks) <==> n == k && c.revision == k.revision && c.ordinal < chunks
  {
    forall n: Node, c: Chunk
      ensures (n, c) in ChunkLinks(k, chunks) <==> n == k && c.revision == k.revision && c.ordinal < chunks
    {
      if n == k && c.revision == k.revision && c.ordinal < chunks {
        assert (n, c) == (k, Chunk(k.revision, c.ordinal));
      }
    }
  }

  lemma ActivatePublishes(db: Db, d: DocId, r: RevId)
    requires r in db.revisions && db.revisions[r].document == d && d in db.docs && db.docs[d].active in {None, Some(r)}
    ensures Published(db, Activate(db, r), d, r)
  {
    ChunkLinksAre(Node(d, r), db.revisions[r].chunks);
    hide ChunkLinks;
    hide HasLink;
  }

  lemma SupersedePublishes(db: Db, d: DocId, r: RevId)
    requires r in db.revisions && db.revisions[r].document == d && d in db.docs
    requires db.docs[d].active.Some? && db.docs[d].active.value != r
    ensures Published(db, Activate(Withdraw(db, d), r), d, r)
  {
    var a := db.docs[d].active.value;
    ChunkLinksAre(Node(d, r), db.revisions[r].chunks);
    LinkedIff(db, d);
    hide ChunkLinks;
    hide HasLink;
    hide Linked;
  }

  // ---------------------------------------------------------------- burying

  /** Burying withdraws the active node its chunk links lead to, with those links, and adds a removal; it raises exactly
      if that node is still labelled, and does nothing for what is buried already. */
  lemma TombstoneGoes(db: Db, d: DocId, now: int)
    ensures var (after, result) := Tombstone(db, d, now);
            if d !in db.docs || db.docs[d].state == Tombstoned then after == db && result == Committed(())
            else
              var active := db.docs[d].active;
              var found := active.Some? && HasLink(db, active.value);
              if found && Node(d, active.value) in db.labelled then after == db && result == Raised(ForeignKeyViolation)
              else
                var r := NextId(db.revisions);
                && result == Committed(()) && after.queue == db.queue && after.index == db.index
                && (forall k :: k in after.nodes <==> k in db.nodes && !(found && k == Node(d, active.value)))
                && (forall l :: l in after.links <==> l in db.links && !(found && l.0 == Node(d, active.value)))
                && after.labelled == db.labelled
                && after.docs == db.docs[d := db.docs[d].(state := Tombstoned, projection := Stale,
                                                          current := Some(r), active := None)]
                && r in after.revisions && after.revisions == db.revisions[r := after.revisions[r]]
                && after.revisions[r] == Revision(d, after.revisions[r].number, NoContent, Remove, 0, None, now)
                && forall x :: x in db.revisions && db.revisions[x].document == d ==>
                     db.revisions[x].number < after.revisions[r].number
  {
    if d in db.docs {
      LinkedIff(db, d);
      NumbersBelow(db, d);
      if db.docs[d].active.Some? {
        WithdrawnIs(db, d);
        SameNumbers(db, Withdraw(db, d), d);
      }
    }
    hide HasLink;
    hide Linked;
    hide LastNumber;
    hide NextId;
    hide Withdraw;
  }

  lemma WithdrawnIs(db: Db, d: DocId)
    requires d in db.docs && db.docs[d].active.Some?
    ensures var k, after := Node(d, db.docs[d].active.value), Withdraw(db, d);
            && after.docs == db.docs[d := db.docs[d].(active := None)]
            && after.revisions == db.revisions && after.queue == db.queue && after.index == db.index
            && (forall n :: n in after.nodes <==> n in db.nodes && !(Linked(db, k.revision) && n == k))
            && (forall l :: l in after.links <==> l in db.links && !(Linked(db, k.revision) && l.0 == k))
            && after.labelled == if Linked(db, k.revision) then db.labelled - {k} else db.labelled
  {
    hide Linked;
  }

  lemma NumbersBelow(db: Db, d: DocId)
    ensures forall x :: x in db.revisions && db.revisions[x].document == d ==>
              db.revisions[x].number <= LastNumber(db, d)
  {
    forall x | x in db.revisions && db.revisions[x].document == d
      ensures db.revisions[x].number <= LastNumber(db, d)
    {
      assert x in RevisionsOf(db, d);
    }
    hide LastNumber;
  }

  lemma SameNumbers(db: Db, other: Db, d: DocId)
    requires db.revisions == other.revisions
    ensures LastNumber(db, d) == LastNumber(other, d)
  {
    hide Largest;
    assert RevisionsOf(db, d) == RevisionsOf(other, d);
    assert (set r | r in RevisionsOf(db, d) :: db.revisions[r].number)
        == (set r | r in RevisionsOf(other, d) :: other.revisions[r].number);
  }
}
