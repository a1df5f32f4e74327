/** The pager refines a simple store: a map from pages to contents, and a set of clusters that a
    write error has made unreadable. PagerExact shows that it does so no further. Page `i` of cluster
    `k` of object `o` is page `k * cs + i` of the object. */
module PagerStore {
  import opened Division
  import opened PagingSegments
  import opened Slots
  import opened Pager
  import opened PagerInvariant
  import opened PagerSteps
  import opened PagerRuns

  datatype Store = Store(contents: map<(nat, nat, nat), Content>, bad: set<(nat, nat)>)

  /** What a step means to the store. */
  datatype Action =
    | Quiet
    | Stored(obj: nat, k: nat, off: nat, data: seq<Content>)
    | Taken(obj: nat, k: nat, off: nat, data: seq<Content>)
    | Missing(obj: nat, k: nat, off: nat, len: nat)
    | Broken(obj: nat, k: nat, off: nat, len: nat)
    | Unread(obj: nat, k: nat, off: nat, len: nat)
    | Ruined(obj: nat, k: nat)
    | Gone(obj: nat)

  predicate InChunk(p: (nat, nat, nat), o: nat, k: nat, off: nat, len: nat) {
    p.0 == o && p.1 == k && off <= p.2 < off + len
  }

  function Put(a: Store, o: nat, k: nat, off: nat, data: seq<Content>): Store {
    a.(contents := a.contents + (map i: nat | off <= i < off + |data| :: (o, k, i) := data[i - off]))
  }

  function Drop(a: Store, o: nat, k: nat, off: nat, len: nat): Store {
    a.(contents := map p | p in a.contents && !InChunk(p, o, k, off, len) :: a.contents[p])
  }

  /** The abstract store: writing stores, supplying takes out, and a read of a page with nothing
      stored is told so. An error ruins the whole cluster, for good: no read of it succeeds that has
      not its data already, and what is written to it is lost. */
  ghost predicate Allowed(a: Store, act: Action, a': Store) {
    match act
    case Quiet => a' == a
    case Stored(o, k, off, data) => a' == if (o, k) in a.bad then a else Put(a, o, k, off, data)
    case Taken(o, k, off, data) =>
      && (forall i: nat :: off <= i < off + |data| ==> (o, k, i) in a.contents && a.contents[(o, k, i)] == data[i - off])
      && a' == Drop(a, o, k, off, |data|)
    case Missing(o, k, off, len) =>
      len > 0 && (o, k) !in a.bad && (forall i: nat :: off <= i < off + len ==> (o, k, i) !in a.contents) && a' == a
    case Broken(o, k, off, len) => len > 0 && (o, k) in a.bad && a' == a
    case Unread(o, k, off, len) => len > 0 && (forall i: nat :: off <= i < off + len ==> (o, k, i) in a.contents) && a' == a
    case Ruined(o, k) => a' == a.(bad := a.bad + {(o, k)})
    case Gone(o) =>
      && a'.bad == (set b | b in a.bad && b.0 != o)
      && a'.contents == map p | p in a.contents && p.0 != o :: a.contents[p]
  }

  ghost function ActionOf(s: State, e: Event): Action
    requires Enabled(s, e)
  {
    match e
    case Destroy(o) => Gone(o)
    case WriteDone(id, error) =>
      var op := s.ops[id];
      if error == 0 then Stored(op.obj, op.k, op.off, op.data) else Ruined(op.obj, op.k)
    case FailMark(o, page, cnt, error) =>
      if Ent(Next(s, e).0, o, page / s.cs).error then Ruined(o, page / s.cs) else Quiet
    case ReadMap(id, o, page, cnt) =>
      (match Next(s, e).1
       case Unavailable(o2, k, off, len) => Missing(o2, k, off, len)
       case DataError(o2, k, off, len) => Broken(o2, k, off, len)
       case Silent => Quiet
       case Supplied(_, _, _, _) => Quiet)
    case ReadFail(id) => Unread(s.ops[id].obj, s.ops[id].k, s.ops[id].off, s.ops[id].len)
    case Supply(id) =>
      var op := s.ops[id];
      Taken(op.obj, op.k, op.off, op.got.value)
    case _ => Quiet
  }

  /** A write error on the cluster gives it back. */
  predicate GivesBack(s: State, o: nat, k: nat) { Ent(s, o, k).IsMapped() && Ent(s, o, k).entry != 0 }

  /** A write error that gives a cluster back comes when no other transfer of it has still to go to the disk. */
  ghost predicate Clean(s: State, e: Event)
    requires Enabled(s, e)
  {
    match e
    case WriteDone(id, error) =>
      error > 0 && GivesBack(s, s.ops[id].obj, s.ops[id].k) ==>
        forall id2 :: id2 in s.ops && id2 != id && AtEntry(s, id2, s.ops[id].obj, s.ops[id].k) ==> s.ops[id2].Settled()
    case FailMark(o, page, cnt, error) =>
      GivesBack(s, o, page / s.cs) ==> forall id :: id in s.ops && AtEntry(s, id, o, page / s.cs) ==> s.ops[id].Settled()
    case _ => true
  }

  predicate AtEntry(s: State, id: nat, o: nat, k: nat)
    requires id in s.ops
  {
    s.ops[id].obj == o && s.ops[id].k == k
  }

  // ---- The refinement relation ----

  ghost predicate BeingWritten(s: State, o: nat, k: nat, i: nat) {
    exists id :: id in s.ops && s.ops[id].Writing? && s.ops[id].Owns(o, k, i)
  }

  ghost predicate Stores(s: State, o: nat, k: nat, i: nat) {
    Ent(s, o, k).IsMapped() && i in Ent(s, o, k).bmap
  }

  /** A page that is not being written, of a cluster not ruined, is stored exactly when its valid bit is
      set, and its content is what the disk holds in its place. */
  ghost predicate PageAgrees(s: State, a: Store, o: nat, k: nat, i: nat) {
    Ent(s, o, k).error || PageHeld(s, a, o, k, i)
  }

  ghost predicate PageHeld(s: State, a: Store, o: nat, k: nat, i: nat) {
    && ((o, k, i) in a.contents <==> Stores(s, o, k, i))
    && (Stores(s, o, k, i) ==>
          var at := (Ent(s, o, k).Location(), i);
          at in s.disk && a.contents[(o, k, i)] == s.disk[at])
  }

  ghost predicate PagesAgree(s: State, a: Store) {
    forall o: nat, k: nat, i: nat :: !BeingWritten(s, o, k, i) ==> PageAgrees(s, a, o, k, i)
  }

  ghost predicate ErrorsAgree(s: State, a: Store) {
    forall o: nat, k: nat :: Ent(s, o, k).error <==> (o, k) in a.bad
  }

  /** The data of an issued write is on the disk, while its cluster is its own; the data of a finished
      device read is the store's. On a ruined cluster only one that was lost has still to be written or
      read, and what has still to be read there is the store's. */
  ghost predicate OpAgrees(s: State, a: Store, op: Op) {
    var e := Ent(s, op.obj, op.k);
    && (op.Writing? && op.issued && !e.error ==>
          forall i: nat :: op.off <= i < op.off + |op.data| ==> (op.at, i) in s.disk && s.disk[(op.at, i)] == op.data[i - op.off])
    && (op.Reading? && op.got.Some? ==> |op.got.value| == op.len)
    && (op.Reading? && op.got.Some? ==>
          forall i: nat :: op.off <= i < op.off + op.len ==>
            (op.obj, op.k, i) in a.contents && a.contents[(op.obj, op.k, i)] == op.got.value[i - op.off])
    && (e.error && !op.Settled() ==> op.at.cl == 0 && (op.Reading? ==> OpStored(s, a, op)))
  }

  /** The pages of a transfer are stored, with the contents that the disk holds in its place. */
  ghost predicate OpStored(s: State, a: Store, op: Op) {
    forall i: nat :: op.off <= i < op.off + op.Len() ==>
      (op.obj, op.k, i) in a.contents && (op.at, i) in s.disk && a.contents[(op.obj, op.k, i)] == s.disk[(op.at, i)]
  }

  ghost predicate OpsAgree(s: State, a: Store) {
    forall id :: id in s.ops ==> OpAgrees(s, a, s.ops[id])
  }

  ghost predicate Refines(s: State, a: Store) {
    PagesAgree(s, a) && ErrorsAgree(s, a) && OpsAgree(s, a)
  }

  // ---- Steps that the store does not see ----

  /** An entry that stores the same pages in the same cluster. */
  ghost predicate StoresSame(e: Entry, e2: Entry) {
    || e2 == e
    || (e.IsMapped() && e2.IsMapped() && e2.Location() == e.Location() && e2.bmap == e.bmap)
    || (e == CLEAR && e2.IsMapped() && e2.bmap == {})
  }

  ghost predicate Unseen(s: State, s': State) {
    && (forall o: nat, k: nat :: StoresSame(Ent(s, o, k), Ent(s', o, k)))
    && s'.disk == s.disk
    && (forall id :: id in s.ops ==> id in s'.ops && SameExtent(s'.ops[id], s.ops[id]))
  }

  lemma WritersKept(s: State, s': State, o: nat, k: nat, i: nat)
    requires forall id :: id in s.ops ==> id in s'.ops && SameExtent(s'.ops[id], s.ops[id])
    ensures BeingWritten(s, o, k, i) ==> BeingWritten(s', o, k, i)
  {
    if BeingWritten(s, o, k, i) {
      var id :| id in s.ops && s.ops[id].Writing? && s.ops[id].Owns(o, k, i);
      assert s'.ops[id].Writing? && s'.ops[id].Owns(o, k, i);
    }
  }

  lemma UnseenPages(s: State, s': State, a: Store)
    requires PagesAgree(s, a) && ErrorsAgree(s, a) && Unseen(s, s')
    ensures PagesAgree(s', a) && ErrorsAgree(s', a)
  {
    forall o: nat, k: nat, i: nat | !BeingWritten(s', o, k, i) ensures PageAgrees(s', a, o, k, i) {
      assert StoresSame(Ent(s, o, k), Ent(s', o, k));
      WritersKept(s, s', o, k, i);
      assert PageAgrees(s, a, o, k, i);
    }
    forall o: nat, k: nat ensures Ent(s', o, k).error <==> (o, k) in a.bad {
      assert StoresSame(Ent(s, o, k), Ent(s', o, k));
    }
  }

  lemma UnseenOps(s: State, s': State, a: Store)
    requires OpsAgree(s, a) && Unseen(s, s') && s'.ops == s.ops
    ensures OpsAgree(s', a)
  {
    forall id | id in s'.ops ensures OpAgrees(s', a, s'.ops[id]) {
      assert OpAgrees(s, a, s.ops[id]);
      assert StoresSame(Ent(s, s.ops[id].obj, s.ops[id].k), Ent(s', s.ops[id].obj, s.ops[id].k));
    }
  }

  lemma CreateRefines(s: State, a: Store, o: nat, size: nat)
    requires Refines(s, a) && o !in s.objs && size > 0
    ensures Refines(Created(s, o, size), a)
  {
    var s' := Created(s, o, size);
    assert forall k: nat :: Lookup(s'.objs[o], k) == CLEAR;
    forall o2: nat, k: nat ensures Ent(s', o2, k) == Ent(s, o2, k) {
    }
    UnseenPages(s, s', a);
    UnseenOps(s, s', a);
  }

  lemma WriteMapRefines(s: State, a: Store, id: nat, o: nat, page: nat, data: seq<Content>, space: Option<Loc>, out: Outcome)
    requires Inv(s) && Refines(s, a) && o in s.objs && id !in s.ops && data != []
    requires space.Some? ==> InRange(s, space.value) && !IsUsed(s, space.value)
    requires Effect(s.objs[o], page / s.cs, ClmapEntry(Ent(s, o, page / s.cs), s.cs, page % s.cs, Alloc, |data|, 0, space), out)
    ensures Refines(WriteRound(s, id, o, page, data, space, out), a)
  {
    var k, off := page / s.cs, page % s.cs;
    var s1 := Entered(s, o, space, out);
    var e := Ent(s, o, k);
    assert EntryOk(s, e);
    EnteredKeeps(s, o, k, off, |data|, space, out);
    AllocCases(e, s.cs, off, |data|, space, k, s.objs[o], out);
    EnteredUnseen(s, s1, o, k);
    UnseenPages(s, s1, a);
    UnseenOps(s, s1, a);
    if out.reply.Found? {
      EnteredFound(e, s.cs, off, |data|, space, k, s.objs[o], out);
      NewOpRefines(s1, WriteRound(s, id, o, page, data, space, out), a, id);
    }
  }

  lemma EnteredUnseen(s: State, s1: State, o: nat, k: nat)
    requires OnlyEntry(s, s1, o, k) && StoresSame(Ent(s, o, k), Ent(s1, o, k)) && s1.disk == s.disk && s1.ops == s.ops
    ensures Unseen(s, s1)
  {
    forall o2: nat, k2: nat ensures StoresSame(Ent(s, o2, k2), Ent(s1, o2, k2)) {
      assert (o2, k2) != (o, k) ==> Ent(s1, o2, k2) == Ent(s, o2, k2);
    }
  }

  /** A transfer that has only just been mapped has moved no data. */
  lemma NewOpRefines(s: State, s': State, a: Store, id: nat)
    requires Refines(s, a) && id !in s.ops && id in s'.ops && s' == s.(ops := s.ops[id := s'.ops[id]])
    requires var op := s'.ops[id]; (op.Writing? ==> !op.issued) && (op.Reading? ==> op.got.None?) && !Ent(s, op.obj, op.k).error
    ensures Refines(s', a)
  {
    assert forall o: nat, k: nat :: Ent(s', o, k) == Ent(s, o, k);
    UnseenPages(s, s', a);
    forall id2 | id2 in s'.ops ensures OpAgrees(s', a, s'.ops[id2]) {
      assert id2 != id ==> OpAgrees(s, a, s.ops[id2]);
    }
  }

  // ---- The device ----

  /** The place of a transfer is nobody else's, if its entry is mapped or has lost its cluster. */
  lemma PlaceIsOwn(s: State, id: nat, o: nat, k: nat)
    requires Inv(s) && id in s.ops && (Ent(s, s.ops[id].obj, s.ops[id].k).error ==> s.ops[id].at.cl == 0)
    ensures var e := Ent(s, s.ops[id].obj, s.ops[id].k); e.error || (e.IsMapped() && e.Location() == s.ops[id].at)
    ensures Ent(s, o, k).IsMapped() && Ent(s, o, k).Location() == s.ops[id].at ==> (o, k) == (s.ops[id].obj, s.ops[id].k)
  {
    assert OpBacked(s, s.ops[id]) && EntryOk(s, Ent(s, o, k));
  }

  lemma IssueRefines(s: State, a: Store, id: nat)
    requires Inv(s) && Refines(s, a) && Enabled(s, Issue(id))
    ensures Refines(Issued(s, id), a)
  {
    var s' := Issued(s, id);
    assert OpAgrees(s, a, s.ops[id]);
    assert forall o: nat, k: nat :: Ent(s', o, k) == Ent(s, o, k);
    forall o: nat, k: nat, i: nat | !BeingWritten(s', o, k, i) ensures PageAgrees(s', a, o, k, i) {
      PlaceIsOwn(s, id, o, k);
      IssuePage(s, a, id, o, k, i);
    }
    forall id2 | id2 in s'.ops ensures OpAgrees(s', a, s'.ops[id2]) {
      IssueOp(s, a, id, id2);
    }
  }

  lemma IssuePage(s: State, a: Store, id: nat, o: nat, k: nat, i: nat)
    requires PagesAgree(s, a) && id in s.ops && s.ops[id].Writing? && !BeingWritten(Issued(s, id), o, k, i)
    requires Ent(s, o, k).IsMapped() && Ent(s, o, k).Location() == s.ops[id].at ==> (o, k) == (s.ops[id].obj, s.ops[id].k)
    ensures PageAgrees(Issued(s, id), a, o, k, i)
  {
    var s', op := Issued(s, id), s.ops[id];
    WritersKept(s, s', o, k, i);
    assert s'.ops[id].Writing? && s'.ops[id].Owns(o, k, i) == op.Owns(o, k, i);
    assert PageAgrees(s, a, o, k, i);
    assert Ent(s', o, k) == Ent(s, o, k);
  }

  /** Two outstanding transfers touch different places on the disk. */
  ghost predicate DiskApart(op: Op, op2: Op) {
    op.at != op2.at || op.off + op.Len() <= op2.off || op2.off + op2.Len() <= op.off
  }

  lemma PlacesApart(s: State, id: nat, id2: nat)
    requires Inv(s) && id in s.ops && id2 in s.ops && id != id2
    requires Ent(s, s.ops[id].obj, s.ops[id].k).error ==> s.ops[id].at.cl == 0
    requires Ent(s, s.ops[id2].obj, s.ops[id2].k).error ==> s.ops[id2].at.cl == 0
    ensures DiskApart(s.ops[id], s.ops[id2])
  {
    assert !Overlap(s.ops[id], s.ops[id2]);
    PlaceIsOwn(s, id, s.ops[id2].obj, s.ops[id2].k);
    PlaceIsOwn(s, id2, s.ops[id].obj, s.ops[id].k);
    assert OpBacked(s, s.ops[id]) && OpBacked(s, s.ops[id2]);
  }

  lemma IssueOp(s: State, a: Store, id: nat, id2: nat)
    requires Inv(s) && OpsAgree(s, a) && Enabled(s, Issue(id)) && id2 in s.ops
    ensures OpAgrees(Issued(s, id), a, Issued(s, id).ops[id2])
  {
    var op2 := s.ops[id2];
    assert OpAgrees(s, a, s.ops[id]) && OpAgrees(s, a, op2);
    if id2 != id && (Ent(s, op2.obj, op2.k).error ==> op2.at.cl == 0) {
      PlacesApart(s, id, id2);
    }
    IssueKeepsOp(s, a, id, id2);
  }

  lemma IssueKeepsOp(s: State, a: Store, id: nat, id2: nat)
    requires id in s.ops && s.ops[id].Writing? && id2 in s.ops && OpAgrees(s, a, s.ops[id2])
    requires var op2 := s.ops[id2]; id2 != id && (Ent(s, op2.obj, op2.k).error ==> op2.at.cl == 0) ==> DiskApart(s.ops[id], op2)
    ensures OpAgrees(Issued(s, id), a, Issued(s, id).ops[id2])
  {
    assert Ent(Issued(s, id), s.ops[id2].obj, s.ops[id2].k) == Ent(s, s.ops[id2].obj, s.ops[id2].k);
  }

  lemma ReadDeviceRefines(s: State, a: Store, id: nat)
    requires Inv(s) && Refines(s, a) && Enabled(s, ReadDevice(id))
    ensures Refines(DeviceRead(s, id), a)
  {
    var s' := DeviceRead(s, id);
    assert forall o: nat, k: nat :: Ent(s', o, k) == Ent(s, o, k);
    UnseenPages(s, s', a);
    ReadStores(s, a, id);
    ReadOps(s, a, id);
  }

  lemma ReadOps(s: State, a: Store, id: nat)
    requires OpsAgree(s, a) && id in s.ops && s.ops[id].Reading? && s.ops[id].got.None? && OnDisk(s, s.ops[id].at, s.ops[id].off, s.ops[id].len)
    requires OpStored(s, a, s.ops[id])
    ensures OpsAgree(DeviceRead(s, id), a)
  {
    var s' := DeviceRead(s, id);
    forall id2 | id2 in s'.ops ensures OpAgrees(s', a, s'.ops[id2]) {
      assert OpAgrees(s, a, s.ops[id2]);
      assert Ent(s', s.ops[id2].obj, s.ops[id2].k) == Ent(s, s.ops[id2].obj, s.ops[id2].k);
    }
  }

  /** While a read has still to be made its pages are stored, and the disk holds their contents in the place
      it reads, whether or not a write error has hit their cluster. */
  lemma ReadStores(s: State, a: Store, id: nat)
    requires Inv(s) && Refines(s, a) && id in s.ops && s.ops[id].Reading? && s.ops[id].got.None?
    ensures OpStored(s, a, s.ops[id])
  {
    var op := s.ops[id];
    assert OpAgrees(s, a, op);
    if !Ent(s, op.obj, op.k).error {
      forall i: nat | op.off <= i < op.off + op.Len()
        ensures (op.obj, op.k, i) in a.contents && (op.at, i) in s.disk && a.contents[(op.obj, op.k, i)] == s.disk[(op.at, i)]
      {
        ReadPageAgrees(s, a, id, i);
      }
    }
  }

  /** No write overlaps an outstanding read. */
  lemma ReadsNotWritten(s: State, id: nat, i: nat)
    requires OpsApart(s) && id in s.ops && s.ops[id].Reading? && s.ops[id].off <= i < s.ops[id].off + s.ops[id].len
    ensures !BeingWritten(s, s.ops[id].obj, s.ops[id].k, i)
  {
    forall id2 | id2 in s.ops && s.ops[id2].Writing? ensures !s.ops[id2].Owns(s.ops[id].obj, s.ops[id].k, i) {
      assert !Overlap(s.ops[id], s.ops[id2]);
    }
  }

  lemma ReadPageAgrees(s: State, a: Store, id: nat, i: nat)
    requires Inv(s) && Refines(s, a) && id in s.ops && s.ops[id].Reading?
    requires var op := s.ops[id]; op.off <= i < op.off + op.len && !Ent(s, op.obj, op.k).error
    ensures var op := s.ops[id]; PageHeld(s, a, op.obj, op.k, i) && Stores(s, op.obj, op.k, i)
    ensures var op := s.ops[id]; Ent(s, op.obj, op.k).Location() == op.at && (op.at, i) in s.disk
  {
    var op := s.ops[id];
    assert OpBacked(s, op);
    assert i in Pages(op.off, op.off + op.Len());
    ReadsNotWritten(s, id, i);
    assert PageAgrees(s, a, op.obj, op.k, i);
  }

  /** A mapped read can always go to the device: its pages are there. */
  lemma ReadIsOnDisk(s: State, a: Store, id: nat)
    requires Inv(s) && Refines(s, a) && id in s.ops && s.ops[id].Reading? && s.ops[id].got.None?
    ensures OnDisk(s, s.ops[id].at, s.ops[id].off, s.ops[id].len)
  {
    ReadStores(s, a, id);
  }

  // ---- Transfers that end without a trace ----

  /** A read that fails, or any transfer of a ruined cluster that completes. */
  lemma EndedRefines(s: State, a: Store, id: nat, s': State)
    requires Refines(s, a) && id in s.ops && (s.ops[id].Reading? || Ent(s, s.ops[id].obj, s.ops[id].k).error)
    requires s'.ops == s.ops - {id} && s'.disk == s.disk && forall o: nat, k: nat :: Ent(s', o, k) == Ent(s, o, k)
    ensures Refines(s', a)
  {
    forall o: nat, k: nat, i: nat | !BeingWritten(s', o, k, i) ensures PageAgrees(s', a, o, k, i) {
      if s.ops[id].Reading? || !s.ops[id].Owns(o, k, i) {
        WritersAfterEnd(s, s', id, o, k, i);
        assert PageAgrees(s, a, o, k, i);
      }
    }
    forall o: nat, k: nat ensures Ent(s', o, k).error <==> (o, k) in a.bad {
      assert Ent(s, o, k).error <==> (o, k) in a.bad;
    }
    forall id2 | id2 in s'.ops ensures OpAgrees(s', a, s'.ops[id2]) {
      assert OpAgrees(s, a, s.ops[id2]);
    }
  }

  // ---- A write that completes ----

  /** After transfer `id` ends, only its own pages cease to be under a write. */
  lemma WritersAfterEnd(s: State, s': State, id: nat, o: nat, k: nat, i: nat)
    requires id in s.ops && s'.ops == s.ops - {id} && (s.ops[id].Reading? || !s.ops[id].Owns(o, k, i))
    ensures BeingWritten(s, o, k, i) ==> BeingWritten(s', o, k, i)
  {
    if BeingWritten(s, o, k, i) {
      var id2 :| id2 in s.ops && s.ops[id2].Writing? && s.ops[id2].Owns(o, k, i);
      assert id2 in s'.ops && s'.ops[id2].Owns(o, k, i);
    }
  }

  ghost predicate DoneEffect(s: State, id: nat, s': State)
    requires id in s.ops
  {
    var op := s.ops[id];
    && OnlyEntry(s, s', op.obj, op.k) && s'.disk == s.disk && s'.ops == s.ops - {id}
    && Ent(s, op.obj, op.k).IsMapped() && Ent(s, op.obj, op.k).Location() == op.at
    && Ent(s', op.obj, op.k) == Ent(s, op.obj, op.k).(bmap := Ent(s, op.obj, op.k).bmap + Pages(op.off, op.off + op.Len()))
  }

  lemma DonePages(s: State, a: Store, id: nat, s': State)
    requires id in s.ops && s.ops[id].Writing? && s.ops[id].issued && DoneEffect(s, id, s')
    requires PagesAgree(s, a) && OpAgrees(s, a, s.ops[id])
    ensures var op := s.ops[id]; PagesAgree(s', Put(a, op.obj, op.k, op.off, op.data))
  {
    var op := s.ops[id];
    var a' := Put(a, op.obj, op.k, op.off, op.data);
    forall o: nat, k: nat, i: nat | !BeingWritten(s', o, k, i) ensures PageAgrees(s', a', o, k, i) {
      if !op.Owns(o, k, i) {
        WritersAfterEnd(s, s', id, o, k, i);
        assert PageAgrees(s, a, o, k, i);
        assert (o, k) != (op.obj, op.k) ==> Ent(s', o, k) == Ent(s, o, k);
      } else {
        assert i in Pages(op.off, op.off + op.Len());
      }
    }
  }

  lemma DoneOps(s: State, a: Store, id: nat, s': State)
    requires id in s.ops && s.ops[id].Writing? && DoneEffect(s, id, s') && OpsAgree(s, a) && OpsApart(s)
    ensures var op := s.ops[id]; OpsAgree(s', Put(a, op.obj, op.k, op.off, op.data))
  {
    var op := s.ops[id];
    var a' := Put(a, op.obj, op.k, op.off, op.data);
    forall id2 | id2 in s'.ops ensures OpAgrees(s', a', s'.ops[id2]) {
      var op2 := s.ops[id2];
      assert OpAgrees(s, a, op2) && !Overlap(op, op2);
      assert (op2.obj, op2.k) != (op.obj, op.k) ==> Ent(s', op2.obj, op2.k) == Ent(s, op2.obj, op2.k);
    }
  }

  lemma DoneErrors(s: State, a: Store, id: nat, s': State)
    requires id in s.ops && DoneEffect(s, id, s') && ErrorsAgree(s, a)
    ensures var op := s.ops[id]; op.Writing? ==> ErrorsAgree(s', Put(a, op.obj, op.k, op.off, op.data))
  {
    var op := s.ops[id];
    forall o: nat, k: nat ensures Ent(s', o, k).error <==> (o, k) in a.bad {
      assert (o, k) != (op.obj, op.k) ==> Ent(s', o, k) == Ent(s, o, k);
      assert Ent(s, o, k).error <==> (o, k) in a.bad;
    }
  }

  /** The entry after a successful completion. */
  lemma DoneEntry(e: Entry, cs: nat, off: nat, len: nat, k: nat, t: Table, out: Outcome)
    requires off < cs && len > 0 && e == Lookup(t, k) && e.IsMapped()
    requires Effect(t, k, ClmapEntry(e, cs, off, Find, len, 0, None), out)
    ensures Lookup(out.table, k) == e.(bmap := e.bmap + Pages(off, off + len)) && out.freed == None
  {
  }

  lemma DoneRefines(s: State, a: Store, id: nat)
    requires Inv(s) && Refines(s, a) && Enabled(s, WriteDone(id, 0)) && !Ent(s, s.ops[id].obj, s.ops[id].k).error
    ensures Refines(Next(s, WriteDone(id, 0)).0, Put(a, s.ops[id].obj, s.ops[id].k, s.ops[id].off, s.ops[id].data))
  {
    var op := s.ops[id];
    var s' := Next(s, WriteDone(id, 0)).0;
    PlaceIsOwn(s, id, op.obj, op.k);
    assert OpShape(s, op) && OpAgrees(s, a, op);
    ClmapEffect(s.objs[op.obj], s.cs, op.page, Find, |op.data|, 0, NOMEM, None);
    var out := CompleteCall(s, op.obj, op.page, |op.data|, 0);
    DoneEntry(Ent(s, op.obj, op.k), s.cs, op.off, |op.data|, op.k, s.objs[op.obj], out);
    EntAfter(s, op.obj, op.k, out.table, s');
    DonePages(s, a, id, s');
    DoneOps(s, a, id, s');
    DoneErrors(s, a, id, s');
  }

  // ---- A write that fails ----

  function Fail(a: Store, o: nat, k: nat): Store { a.(bad := a.bad + {(o, k)}) }

  /** An entry goes into error, and transfers of its cluster may end. Those that remain are settled, or
      the cluster is lost and not given back. */
  lemma FailRefines(s: State, a: Store, s': State, o: nat, k: nat)
    requires Inv(s) && Refines(s, a) && !Ent(s, o, k).error && s'.disk == s.disk
    requires OnlyEntry(s, s', o, k) && Ent(s', o, k).error
    requires forall id :: id in s'.ops ==> id in s.ops && s'.ops[id] == s.ops[id]
    requires forall id :: id in s.ops && id !in s'.ops ==> AtEntry(s, id, o, k)
    requires forall id :: id in s'.ops && AtEntry(s', id, o, k) && !s'.ops[id].Settled() ==> s'.ops[id].at.cl == 0
    ensures Refines(s', Fail(a, o, k))
  {
    var a' := Fail(a, o, k);
    forall o2: nat, k2: nat, i: nat | !BeingWritten(s', o2, k2, i) ensures PageAgrees(s', a', o2, k2, i) {
      if (o2, k2) != (o, k) {
        WritersElsewhere(s, s', o, k, o2, k2, i);
        assert PageAgrees(s, a, o2, k2, i);
        assert Ent(s', o2, k2) == Ent(s, o2, k2);
      }
    }
    forall o2: nat, k2: nat ensures Ent(s', o2, k2).error <==> (o2, k2) in a'.bad {
      assert (o2, k2) != (o, k) ==> Ent(s', o2, k2) == Ent(s, o2, k2);
      assert Ent(s, o2, k2).error <==> (o2, k2) in a.bad;
    }
    forall id | id in s'.ops ensures OpAgrees(s', a', s'.ops[id]) {
      FailOp(s, a, s', o, k, id);
    }
  }

  lemma WritersElsewhere(s: State, s': State, o: nat, k: nat, o2: nat, k2: nat, i: nat)
    requires (o2, k2) != (o, k)
    requires forall id :: id in s'.ops ==> id in s.ops && s'.ops[id] == s.ops[id]
    requires forall id :: id in s.ops && id !in s'.ops ==> AtEntry(s, id, o, k)
    ensures BeingWritten(s, o2, k2, i) ==> BeingWritten(s', o2, k2, i)
  {
    if BeingWritten(s, o2, k2, i) {
      var id :| id in s.ops && s.ops[id].Writing? && s.ops[id].Owns(o2, k2, i);
      assert id in s'.ops && s'.ops[id].Owns(o2, k2, i);
    }
  }

  lemma FailOp(s: State, a: Store, s': State, o: nat, k: nat, id: nat)
    requires Inv(s) && Refines(s, a) && !Ent(s, o, k).error && s'.disk == s.disk
    requires OnlyEntry(s, s', o, k) && Ent(s', o, k).error && id in s'.ops && id in s.ops && s'.ops[id] == s.ops[id]
    requires AtEntry(s', id, o, k) && !s'.ops[id].Settled() ==> s'.ops[id].at.cl == 0
    ensures OpAgrees(s', Fail(a, o, k), s'.ops[id])
  {
    var op := s.ops[id];
    assert OpAgrees(s, a, op);
    if (op.obj, op.k) == (o, k) {
      if op.Reading? && op.got.None? {
        ReadStores(s, a, id);
      }
    } else {
      assert Ent(s', op.obj, op.k) == Ent(s, op.obj, op.k);
    }
  }

  /** The places of the transfers that a write error leaves behind, when it comes cleanly. */
  lemma CleanPlaces(s: State, o: nat, k: nat, id: nat)
    requires Inv(s) && id in s.ops && AtEntry(s, id, o, k) && !Ent(s, o, k).error && !GivesBack(s, o, k)
    ensures s.ops[id].at.cl == 0
  {
    assert OpBacked(s, s.ops[id]);
  }

  lemma ErrorDoneRefines(s: State, a: Store, id: nat, error: nat)
    requires Inv(s) && Refines(s, a) && Enabled(s, WriteDone(id, error)) && error > 0 && Clean(s, WriteDone(id, error))
    requires !Ent(s, s.ops[id].obj, s.ops[id].k).error
    ensures Refines(Next(s, WriteDone(id, error)).0, Fail(a, s.ops[id].obj, s.ops[id].k))
  {
    var op := s.ops[id];
    var s' := Next(s, WriteDone(id, error)).0;
    PlaceIsOwn(s, id, op.obj, op.k);
    assert OpShape(s, op);
    ClmapEffect(s.objs[op.obj], s.cs, op.page, Find, |op.data|, error, NOMEM, None);
    var out := CompleteCall(s, op.obj, op.page, |op.data|, error);
    FailEntry(Ent(s, op.obj, op.k), s.cs, op.off, |op.data|, error, op.k, s.objs[op.obj], out);
    EntAfter(s, op.obj, op.k, out.table, s');
    forall id2 | id2 in s'.ops && AtEntry(s', id2, op.obj, op.k) && !s'.ops[id2].Settled() ensures s'.ops[id2].at.cl == 0 {
      assert AtEntry(s, id2, op.obj, op.k);
      CleanPlaces(s, op.obj, op.k, id2);
    }
    FailRefines(s, a, s', op.obj, op.k);
  }

  /** A transfer of a cluster that is ruined already completes, well or not. */
  lemma RuinedDoneRefines(s: State, a: Store, id: nat, error: nat)
    requires Inv(s) && Refines(s, a) && Enabled(s, WriteDone(id, error)) && Ent(s, s.ops[id].obj, s.ops[id].k).error
    ensures Refines(Next(s, WriteDone(id, error)).0, a)
  {
    var op := s.ops[id];
    var s' := Next(s, WriteDone(id, error)).0;
    assert OpShape(s, op);
    ClmapEffect(s.objs[op.obj], s.cs, op.page, Find, |op.data|, error, NOMEM, None);
    var out := CompleteCall(s, op.obj, op.page, |op.data|, error);
    EntAfter(s, op.obj, op.k, out.table, s');
    forall o: nat, k: nat ensures Ent(s', o, k) == Ent(s, o, k) {
      assert (o, k) != (op.obj, op.k) ==> Ent(s', o, k) == Ent(s, o, k);
    }
    EndedRefines(s, a, id, s');
  }

  /** A failed completion leaves the entry in error, unless there is no slot for it. */
  lemma FailEntry(e: Entry, cs: nat, off: nat, len: nat, error: nat, k: nat, t: Table, out: Outcome)
    requires off < cs && len > 0 && error > 0 && e == Lookup(t, k) && (e.IsClr() ==> e == CLEAR)
    requires Effect(t, k, ClmapEntry(e, cs, off, Find, len, error, None), out)
    ensures Lookup(out.table, k).error || (e == CLEAR && Lookup(out.table, k) == CLEAR)
  {
  }

  lemma FailMarkRefines(s: State, a: Store, o: nat, page: nat, cnt: nat, error: nat)
    requires Inv(s) && Refines(s, a) && Enabled(s, FailMark(o, page, cnt, error)) && Clean(s, FailMark(o, page, cnt, error))
    ensures var s' := Next(s, FailMark(o, page, cnt, error)).0;
      Refines(s', if Ent(s', o, page / s.cs).error then Fail(a, o, page / s.cs) else a)
  {
    var k := page / s.cs;
    var s' := Next(s, FailMark(o, page, cnt, error)).0;
    ClmapEffect(s.objs[o], s.cs, page, Find, cnt, error, NOMEM, None);
    var out := CompleteCall(s, o, page, cnt, error);
    assert EntryOk(s, Ent(s, o, k));
    FailEntry(Ent(s, o, k), s.cs, page % s.cs, cnt, error, k, s.objs[o], out);
    EntAfter(s, o, k, out.table, s');
    if Ent(s', o, k).error && !Ent(s, o, k).error {
      forall id | id in s'.ops && AtEntry(s', id, o, k) && !s'.ops[id].Settled() ensures s'.ops[id].at.cl == 0 {
        assert AtEntry(s, id, o, k);
        CleanPlaces(s, o, k, id);
      }
      FailRefines(s, a, s', o, k);
    } else {
      EnteredUnseen(s, s', o, k);
      UnseenPages(s, s', a);
      UnseenOps(s, s', a);
      assert Ent(s, o, k).error ==> Fail(a, o, k) == a;
    }
  }

  // ---- A read that is answered ----

  lemma SupplyStores(s: State, id: nat, s': State, i: nat)
    requires Inv(s) && id in s.ops && s.ops[id].Reading? && SupplyEffect(s, id, s')
    requires Ent(s, s.ops[id].obj, s.ops[id].k).IsMapped()
    ensures var op := s.ops[id];
      && (Stores(s', op.obj, op.k, i) <==> Stores(s, op.obj, op.k, i) && !(op.off <= i < op.off + op.len))
      && (Stores(s', op.obj, op.k, i) ==> Ent(s', op.obj, op.k).Location() == Ent(s, op.obj, op.k).Location())
  {
    var op := s.ops[id];
    assert EntryOk(s, Ent(s, op.obj, op.k));
    assert i in Pages(op.off, op.off + op.Len()) <==> op.off <= i < op.off + op.len;
    var e := ClearPages(Ent(s, op.obj, op.k), op.off, op.len);
    assert i in e.bmap ==> i in e.alloc;
  }

  lemma SupplyPage(s: State, a: Store, id: nat, s': State, o: nat, k: nat, i: nat)
    requires id in s.ops && s.ops[id].Reading? && PagesAgree(s, a) && OpsApart(s)
    requires s'.ops == s.ops - {id} && s'.disk == s.disk && !BeingWritten(s', o, k, i)
    requires var op := s.ops[id]; OnlyEntry(s, s', op.obj, op.k) && Ent(s, op.obj, op.k).IsMapped()
    requires var op := s.ops[id];
      && (Stores(s', op.obj, op.k, i) <==> Stores(s, op.obj, op.k, i) && !(op.off <= i < op.off + op.len))
      && (Stores(s', op.obj, op.k, i) ==> Ent(s', op.obj, op.k).Location() == Ent(s, op.obj, op.k).Location())
    ensures var op := s.ops[id]; PageAgrees(s', Drop(a, op.obj, op.k, op.off, op.len), o, k, i)
  {
    var op := s.ops[id];
    if !op.Owns(o, k, i) {
      WritersAfterEnd(s, s', id, o, k, i);
    } else {
      ReadsNotWritten(s, id, i);
    }
    assert PageAgrees(s, a, o, k, i);
    assert (o, k) != (op.obj, op.k) ==> Ent(s', o, k) == Ent(s, o, k);
  }

  lemma SupplyOps(s: State, a: Store, id: nat, s': State)
    requires id in s.ops && s.ops[id].Reading? && OpsAgree(s, a) && OpsApart(s) && s'.ops == s.ops - {id} && s'.disk == s.disk
    requires var op := s.ops[id]; OnlyEntry(s, s', op.obj, op.k) && Ent(s', op.obj, op.k).error == Ent(s, op.obj, op.k).error
    ensures var op := s.ops[id]; OpsAgree(s', Drop(a, op.obj, op.k, op.off, op.len))
  {
    var op := s.ops[id];
    var a' := Drop(a, op.obj, op.k, op.off, op.len);
    forall id2 | id2 in s'.ops ensures OpAgrees(s', a', s'.ops[id2]) {
      var op2 := s.ops[id2];
      assert OpAgrees(s, a, op2) && !Overlap(op, op2);
      assert (op2.obj, op2.k) != (op.obj, op.k) ==> Ent(s', op2.obj, op2.k) == Ent(s, op2.obj, op2.k);
    }
  }

  lemma SupplyPages(s: State, a: Store, id: nat, s': State)
    requires Inv(s) && PagesAgree(s, a) && id in s.ops && s.ops[id].Reading? && SupplyEffect(s, id, s')
    requires var op := s.ops[id]; Ent(s, op.obj, op.k).IsMapped() || (Ent(s, op.obj, op.k).error && Ent(s', op.obj, op.k).error)
    ensures var op := s.ops[id]; PagesAgree(s', Drop(a, op.obj, op.k, op.off, op.len))
  {
    var op := s.ops[id];
    forall o: nat, k: nat, i: nat | !BeingWritten(s', o, k, i)
      ensures PageAgrees(s', Drop(a, op.obj, op.k, op.off, op.len), o, k, i)
    {
      if Ent(s, op.obj, op.k).IsMapped() {
        SupplyStores(s, id, s', i);
        SupplyPage(s, a, id, s', o, k, i);
      } else if (o, k) != (op.obj, op.k) {
        WritersAfterEnd(s, s', id, o, k, i);
        assert PageAgrees(s, a, o, k, i) && Ent(s', o, k) == Ent(s, o, k);
      }
    }
  }

  lemma SameErrors(s: State, s': State, a: Store, a': Store, o: nat, k: nat)
    requires ErrorsAgree(s, a) && a'.bad == a.bad && OnlyEntry(s, s', o, k) && Ent(s, o, k).error == Ent(s', o, k).error
    ensures ErrorsAgree(s', a')
  {
    forall o2: nat, k2: nat ensures Ent(s', o2, k2).error <==> (o2, k2) in a'.bad {
      assert (o2, k2) != (o, k) ==> Ent(s', o2, k2) == Ent(s, o2, k2);
      assert Ent(s, o2, k2).error <==> (o2, k2) in a.bad;
    }
  }

  /** What is supplied is what the store holds. */
  lemma SupplyTakes(s: State, a: Store, op: Op)
    requires OpAgrees(s, a, op) && op.Reading? && op.got.Some?
    ensures Allowed(a, Taken(op.obj, op.k, op.off, op.got.value), Drop(a, op.obj, op.k, op.off, op.len))
  {
  }

  lemma SupplyRefines(s: State, a: Store, id: nat)
    requires Inv(s) && Refines(s, a) && Enabled(s, Supply(id))
    ensures var op := s.ops[id];
      && Refines(Next(s, Supply(id)).0, Drop(a, op.obj, op.k, op.off, op.len))
      && Allowed(a, Taken(op.obj, op.k, op.off, op.got.value), Drop(a, op.obj, op.k, op.off, op.len))
  {
    var op := s.ops[id];
    var s' := Next(s, Supply(id)).0;
    SupplyKeeps(s, id);
    UnmapOutcome(s, id);
    assert OpBacked(s, op);
    assert OpAgrees(s, a, op);
    SupplyPages(s, a, id, s');
    SupplyOps(s, a, id, s');
    SameErrors(s, s', a, Drop(a, op.obj, op.k, op.off, op.len), op.obj, op.k);
    SupplyTakes(s, a, op);
  }

  // ---- A read that starts ----

  /** Pages found unset in the bitmap are not in the store, if no write covers them. */
  lemma UnsetMissing(s: State, a: Store, o: nat, page: nat, cnt: nat, n: nat)
    requires s.cs > 0 && PagesAgree(s, a) && ChunkFree(s, o, page, cnt) && n <= Chunk(s.cs, page, cnt) && !Ent(s, o, page / s.cs).error
    requires forall i: nat :: page % s.cs <= i < page % s.cs + n ==> !Stores(s, o, page / s.cs, i)
    ensures forall i: nat :: page % s.cs <= i < page % s.cs + n ==> (o, page / s.cs, i) !in a.contents
  {
    var k := page / s.cs;
    forall i: nat | page % s.cs <= i < page % s.cs + n ensures (o, k, i) !in a.contents {
      assert !Owned(s, o, k, i);
      assert !BeingWritten(s, o, k, i);
      assert PageAgrees(s, a, o, k, i);
    }
  }

  lemma RunUnset(bmap: set<nat>, off: nat, limit: nat, i: nat)
    requires off <= i < off + Run(Shift(bmap, off), false, 0, limit)
    ensures i !in bmap
  {
    assert i - off !in Shift(bmap, off);
  }

  lemma ReadMapRefines(s: State, a: Store, id: nat, o: nat, page: nat, cnt: nat)
    requires Inv(s) && Refines(s, a) && Enabled(s, ReadMap(id, o, page, cnt))
    ensures var e := ReadMap(id, o, page, cnt);
      Refines(Next(s, e).0, a) && Allowed(a, ActionOf(s, e), a)
  {
    ClmapEffect(s.objs[o], s.cs, page, Find, 0, 0, NOMEM, None);
    ReadRoundRefines(s, a, id, o, page, cnt, Clmap(s.objs[o], s.cs, page, Find, 0, 0, NOMEM, None));
  }

  ghost predicate ReadAnswer(s: State, a: Store, o: nat, k: nat, out: Output) {
    match out
    case Silent => true
    case Unavailable(o2, k2, off, len) =>
      && (o2, k2) == (o, k) && len > 0 && (o, k) !in a.bad
      && forall i: nat :: off <= i < off + len ==> (o, k, i) !in a.contents
    case DataError(o2, k2, off, len) => (o2, k2) == (o, k) && len > 0 && (o, k) in a.bad
    case Supplied(_, _, _, _) => false
  }

  lemma ReadRoundRefines(s: State, a: Store, id: nat, o: nat, page: nat, cnt: nat, out: Outcome)
    requires Inv(s) && Refines(s, a) && o in s.objs && id !in s.ops && cnt > 0 && ChunkFree(s, o, page, cnt)
    requires Effect(s.objs[o], page / s.cs, ClmapEntry(Ent(s, o, page / s.cs), s.cs, page % s.cs, Find, 0, 0, None), out)
    ensures Refines(ReadRound(s, id, o, page, cnt, out.reply).0, a)
    ensures ReadAnswer(s, a, o, page / s.cs, ReadRound(s, id, o, page, cnt, out.reply).1)
  {
    var k, off := page / s.cs, page % s.cs;
    var e := Ent(s, o, k);
    assert EntryOk(s, e);
    ReadFound(e, s.cs, off, cnt, k, s.objs[o], out);
    assert e.error <==> (o, k) in a.bad;
    if out.reply.Found? {
      if 0 in out.reply.bmap {
        NewOpRefines(s, ReadRound(s, id, o, page, cnt, out.reply).0, a, id);
      } else {
        var n := Run(out.reply.bmap, false, 0, Min(cnt, out.reply.numpages));
        forall i: nat | off <= i < off + n ensures !Stores(s, o, k, i) {
          RunUnset(e.bmap, off, Min(cnt, s.cs - off), i);
        }
        UnsetMissing(s, a, o, page, cnt, n);
      }
    } else if !e.error {
      UnsetMissing(s, a, o, page, cnt, Chunk(s.cs, page, cnt));
    }
  }

  // ---- An object that is destroyed ----

  function Without(a: Store, o: nat): Store {
    Store(map p | p in a.contents && p.0 != o :: a.contents[p], set b | b in a.bad && b.0 != o)
  }

  lemma DestroyRefines(s: State, a: Store, o: nat)
    requires Inv(s) && Refines(s, a) && Enabled(s, Destroy(o))
    ensures Refines(Destroyed(s, o), Without(a, o))
  {
    DestroyUses(s, o);
    DestroyPages(s, a, o, Destroyed(s, o));
    DestroyOps(s, a, o, Destroyed(s, o));
  }

  ghost predicate OnlyObject(s: State, s': State, o: nat) {
    && (forall o2: nat, k: nat :: Ent(s', o2, k) == if o2 == o then CLEAR else Ent(s, o2, k))
    && s'.ops == s.ops && s'.disk == s.disk
  }

  lemma DestroyPages(s: State, a: Store, o: nat, s': State)
    requires PagesAgree(s, a) && ErrorsAgree(s, a) && OnlyObject(s, s', o)
    ensures PagesAgree(s', Without(a, o)) && ErrorsAgree(s', Without(a, o))
  {
    forall o2: nat, k: nat, i: nat | !BeingWritten(s', o2, k, i) ensures PageAgrees(s', Without(a, o), o2, k, i) {
      WritersKept(s, s', o2, k, i);
      assert PageAgrees(s, a, o2, k, i);
      assert Ent(s', o2, k) == if o2 == o then CLEAR else Ent(s, o2, k);
    }
    forall o2: nat, k: nat ensures Ent(s', o2, k).error <==> (o2, k) in Without(a, o).bad {
      assert Ent(s, o2, k).error <==> (o2, k) in a.bad;
      assert Ent(s', o2, k) == if o2 == o then CLEAR else Ent(s, o2, k);
    }
  }

  lemma DestroyOps(s: State, a: Store, o: nat, s': State)
    requires OpsAgree(s, a) && OnlyObject(s, s', o) && forall id :: id in s.ops ==> s.ops[id].obj != o
    ensures OpsAgree(s', Without(a, o))
  {
    forall id | id in s'.ops ensures OpAgrees(s', Without(a, o), s'.ops[id]) {
      assert OpAgrees(s, a, s.ops[id]);
    }
  }

  // ---- Every step, every run ----

  /** The store after a step. */
  ghost function After(a: Store, act: Action): Store {
    match act
    case Stored(o, k, off, data) => if (o, k) in a.bad then a else Put(a, o, k, off, data)
    case Taken(o, k, off, data) => Drop(a, o, k, off, |data|)
    case Ruined(o, k) => Fail(a, o, k)
    case Gone(o) => Without(a, o)
    case _ => a
  }

  lemma WriteMapStep(s: State, a: Store, id: nat, o: nat, page: nat, data: seq<Content>, mem: Memory, space: Option<Loc>)
    requires Inv(s) && Refines(s, a) && Enabled(s, WriteMap(id, o, page, data, mem, space))
    ensures Refines(Next(s, WriteMap(id, o, page, data, mem, space)).0, a)
  {
    ClmapEffect(s.objs[o], s.cs, page, Alloc, |data|, 0, mem, space);
    WriteMapRefines(s, a, id, o, page, data, space, Clmap(s.objs[o], s.cs, page, Alloc, |data|, 0, mem, space));
  }

  lemma WriteDoneStep(s: State, a: Store, id: nat, error: nat)
    requires Inv(s) && Refines(s, a) && Enabled(s, WriteDone(id, error)) && Clean(s, WriteDone(id, error))
    ensures var e := WriteDone(id, error);
      Allowed(a, ActionOf(s, e), After(a, ActionOf(s, e))) && Refines(Next(s, e).0, After(a, ActionOf(s, e)))
  {
    if error == 0 {
      StoredStep(s, a, id);
    } else {
      FailedStep(s, a, id, error);
    }
  }

  lemma StoredStep(s: State, a: Store, id: nat)
    requires Inv(s) && Refines(s, a) && Enabled(s, WriteDone(id, 0))
    ensures var op := s.ops[id]; Refines(Next(s, WriteDone(id, 0)).0, After(a, Stored(op.obj, op.k, op.off, op.data)))
  {
    assert Ent(s, s.ops[id].obj, s.ops[id].k).error <==> (s.ops[id].obj, s.ops[id].k) in a.bad;
    if Ent(s, s.ops[id].obj, s.ops[id].k).error {
      RuinedDoneRefines(s, a, id, 0);
    } else {
      DoneRefines(s, a, id);
    }
  }

  lemma FailedStep(s: State, a: Store, id: nat, error: nat)
    requires Inv(s) && Refines(s, a) && error > 0 && Enabled(s, WriteDone(id, error)) && Clean(s, WriteDone(id, error))
    ensures Refines(Next(s, WriteDone(id, error)).0, Fail(a, s.ops[id].obj, s.ops[id].k))
  {
    assert Ent(s, s.ops[id].obj, s.ops[id].k).error <==> (s.ops[id].obj, s.ops[id].k) in a.bad;
    if Ent(s, s.ops[id].obj, s.ops[id].k).error {
      RuinedDoneRefines(s, a, id, error);
      FailAgain(a, s.ops[id].obj, s.ops[id].k);
    } else {
      ErrorDoneRefines(s, a, id, error);
    }
  }

  lemma FailAgain(a: Store, o: nat, k: nat)
    requires (o, k) in a.bad
    ensures Fail(a, o, k) == a
  {
    assert a.bad + {(o, k)} == a.bad;
  }

  lemma ReadFailStep(s: State, a: Store, id: nat)
    requires Inv(s) && Refines(s, a) && Enabled(s, ReadFail(id))
    ensures Allowed(a, ActionOf(s, ReadFail(id)), a) && Refines(Next(s, ReadFail(id)).0, a)
  {
    ReadStores(s, a, id);
    assert OpShape(s, s.ops[id]);
    EndedRefines(s, a, id, Next(s, ReadFail(id)).0);
  }

  lemma SupplyStep(s: State, a: Store, id: nat)
    requires Inv(s) && Refines(s, a) && Enabled(s, Supply(id))
    ensures var e := Supply(id);
      Allowed(a, ActionOf(s, e), After(a, ActionOf(s, e))) && Refines(Next(s, e).0, After(a, ActionOf(s, e)))
  {
    SupplyRefines(s, a, id);
    assert OpAgrees(s, a, s.ops[id]);
  }

  /** Every step is a step of the store, but for a write error that does not come cleanly. */
  lemma StepRefines(s: State, a: Store, e: Event)
    requires Inv(s) && Refines(s, a) && Enabled(s, e) && Clean(s, e)
    ensures Allowed(a, ActionOf(s, e), After(a, ActionOf(s, e)))
    ensures Refines(Next(s, e).0, After(a, ActionOf(s, e)))
  {
    match e
    case Create(o, size) => CreateRefines(s, a, o, size);
    case Destroy(o) => DestroyRefines(s, a, o);
    case WriteMap(id, o, page, data, mem, space) => WriteMapStep(s, a, id, o, page, data, mem, space);
    case Issue(id) => IssueRefines(s, a, id);
    case WriteDone(id, error) => WriteDoneStep(s, a, id, error);
    case FailMark(o, page, cnt, error) => FailMarkRefines(s, a, o, page, cnt, error);
    case _ => ReadingRefines(s, a, e);
  }

  lemma ReadingRefines(s: State, a: Store, e: Event)
    requires Inv(s) && Refines(s, a) && Enabled(s, e) && (e.ReadMap? || e.ReadDevice? || e.ReadFail? || e.Supply?)
    ensures Allowed(a, ActionOf(s, e), After(a, ActionOf(s, e)))
    ensures Refines(Next(s, e).0, After(a, ActionOf(s, e)))
  {
    match e
    case ReadMap(id, o, page, cnt) => ReadMapRefines(s, a, id, o, page, cnt);
    case ReadDevice(id) => ReadDeviceRefines(s, a, id);
    case ReadFail(id) => ReadFailStep(s, a, id);
    case Supply(id) => SupplyStep(s, a, id);
  }

  /** A path on which every write error comes cleanly, and spares a page of what is being read. */
  ghost predicate CleanPath(states: seq<State>, events: seq<Event>) {
    SparedPath(states, events) && forall i :: 0 <= i < |events| ==> Clean(states[i], events[i])
  }

  /** A path of the store, step by step beside one of the pager. */
  ghost predicate Tracks(stores: seq<Store>, states: seq<State>, events: seq<Event>) {
    && |stores| == |states| == |events| + 1
    && forall i :: 0 <= i < |events| ==> StoreStep(stores[i], states[i], events[i], stores[i + 1])
  }

  ghost predicate StoreStep(a: Store, s: State, e: Event, a': Store) {
    Enabled(s, e) && Allowed(a, ActionOf(s, e), a')
  }

  lemma InitialRefines(s: State)
    requires Initial(s)
    ensures Refines(s, Store(map[], {}))
  {
    assert forall o: nat, k: nat :: Ent(s, o, k) == CLEAR;
  }

  lemma {:induction false} PathsRefine(states: seq<State>, events: seq<Event>, a: Store) returns (stores: seq<Store>)
    requires CleanPath(states, events) && Inv(states[0]) && Refines(states[0], a)
    ensures Tracks(stores, states, events) && stores[0] == a
    ensures forall i :: 0 <= i < |states| ==> Refines(states[i], stores[i])
  {
    if events == [] {
      stores := [a];
    } else {
      var n := |events| - 1;
      Prefix(states, events);
      var before := PathsRefine(states[..n + 1], events[..n], a);
      PathsKeep(states, events);
      stores := before + [After(before[n], ActionOf(states[n], events[n]))];
      PathExtends(before, states, events);
    }
  }

  lemma Prefix(states: seq<State>, events: seq<Event>)
    requires CleanPath(states, events) && events != []
    ensures var n := |events| - 1; CleanPath(states[..n + 1], events[..n])
  {
    var n := |events| - 1;
    assert forall i :: 0 <= i < n ==> states[..n + 1][i] == states[i] && events[..n][i] == events[i];
  }

  lemma PathExtends(before: seq<Store>, states: seq<State>, events: seq<Event>)
    requires events != [] && CleanPath(states, events) && |before| == |events|
    requires var n := |events| - 1; Tracks(before, states[..n + 1], events[..n])
    requires forall i :: 0 <= i < |events| ==> Refines(states[..|events|][i], before[i])
    requires Inv(states[|events| - 1])
    ensures var n := |events| - 1;
      var stores := before + [After(before[n], ActionOf(states[n], events[n]))];
      Tracks(stores, states, events) && forall i :: 0 <= i < |states| ==> Refines(states[i], stores[i])
  {
    var n := |events| - 1;
    var a' := After(before[n], ActionOf(states[n], events[n]));
    assert states[..|events|][n] == states[n];
    StepFollows(states[n], before[n], events[n], states[n + 1]);
    forall i | 0 <= i < n ensures StoreStep(before[i], states[i], events[i], before[i + 1]) {
      assert states[..n + 1][i] == states[i] && events[..n][i] == events[i];
      assert StoreStep(before[i], states[..n + 1][i], events[..n][i], before[i + 1]);
    }
    Append(before, states, events, a');
    forall i | 0 <= i < |before| ensures Refines(states[i], before[i]) {
      assert states[..|events|][i] == states[i];
    }
    AppendRefined(before, states, a');
  }

  lemma StepFollows(s: State, a: Store, e: Event, s': State)
    requires Inv(s) && Refines(s, a) && Enabled(s, e) && Spared(s, e) && Clean(s, e) && s' == Next(s, e).0
    ensures StoreStep(a, s, e, After(a, ActionOf(s, e))) && Refines(s', After(a, ActionOf(s, e)))
  {
    StepRefines(s, a, e);
  }

  lemma Append(before: seq<Store>, states: seq<State>, events: seq<Event>, a': Store)
    requires |before| == |events| == |states| - 1 && events != []
    requires forall i :: 0 <= i < |events| - 1 ==> StoreStep(before[i], states[i], events[i], before[i + 1])
    requires StoreStep(before[|events| - 1], states[|events| - 1], events[|events| - 1], a')
    ensures var stores := before + [a'];
      forall i :: 0 <= i < |events| ==> StoreStep(stores[i], states[i], events[i], stores[i + 1])
  {
    var stores := before + [a'];
    forall i | 0 <= i < |events| ensures StoreStep(stores[i], states[i], events[i], stores[i + 1]) {
      assert i < |events| - 1 ==> StoreStep(before[i], states[i], events[i], before[i + 1]);
    }
  }

  lemma AppendRefined(before: seq<Store>, states: seq<State>, a': Store)
    requires |before| == |states| - 1 && Refines(states[|before|], a')
    requires forall i :: 0 <= i < |before| ==> Refines(states[i], before[i])
    ensures var stores := before + [a']; forall i :: 0 <= i < |states| ==> Refines(states[i], stores[i])
  {
    var stores := before + [a'];
    forall i | 0 <= i < |states| ensures Refines(states[i], stores[i]) {
      assert i < |before| ==> Refines(states[i], before[i]);
    }
  }

  /** Over every such run, on any number of objects and segments, the pager behaves as the store: a read
      supplies what was last written and takes it out, and a page with nothing stored is reported
      unavailable. */
  lemma RunsRefine(states: seq<State>, events: seq<Event>) returns (stores: seq<Store>)
    requires IsRun(states, events) && CleanPath(states, events)
    ensures Tracks(stores, states, events) && stores[0] == Store(map[], {})
    ensures forall i :: 0 <= i < |states| ==> Refines(states[i], stores[i])
  {
    InitialInv(states[0]);
    InitialRefines(states[0]);
    stores := PathsRefine(states, events, Store(map[], {}));
  }
}
