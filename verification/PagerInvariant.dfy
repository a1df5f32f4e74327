/** What every step of the pager keeps, write errors included: no cluster is shared, every set bit
    is accounted for, and no cluster is freed twice. */
module PagerInvariant {
  import opened PagingSegments
  import opened Slots
  import opened Pager

  /** A mapped entry names a cluster in use; its valid pages were allocated, and it has some. An
      entry with a write error holds a non-zero error code. */
  ghost predicate EntryOk(s: State, e: Entry) {
    && (e.IsClr() ==> e == CLEAR)
    && (e.error ==> e.entry != 0)
    && (e.IsMapped() ==>
          && InRange(s, e.Location()) && IsUsed(s, e.Location()) && e.Location() !in s.lost
          && e.bmap <= e.alloc <= Pages(0, s.cs) && e.alloc != {})
  }

  ghost predicate EntriesOk(s: State) {
    forall o: nat, k: nat :: EntryOk(s, Ent(s, o, k))
  }

  /** No two entries, of the same or of different objects, name the same cluster. */
  ghost predicate Apart(s: State) {
    forall o: nat, k: nat, o2: nat, k2: nat :: (o, k) != (o2, k2) && Ent(s, o, k).IsMapped() && Ent(s, o2, k2).IsMapped() ==>
      Ent(s, o, k).Location() != Ent(s, o2, k2).Location()
  }

  ghost predicate Held(s: State, loc: Loc) {
    exists o: nat, k: nat :: Ent(s, o, k).IsMapped() && Ent(s, o, k).Location() == loc
  }

  /** Every set bit is a mapped cluster, or a cluster 0 that a write error did not give back. */
  ghost predicate Accounted(s: State) {
    && (forall loc: Loc :: IsUsed(s, loc) ==> loc in s.lost || Held(s, loc))
    && (forall loc: Loc :: loc in s.lost ==> loc.cl == 0 && InRange(s, loc) && IsUsed(s, loc))
  }

  ghost predicate Shapes(s: State) {
    && s.cs > 0
    && (forall o :: o in s.objs ==> WellFormed(s.objs[o]))
    && (forall p: nat :: p < |s.segs| ==> s.segs[p].ncls <= VSM_ENTRY_NULL)
  }

  ghost predicate OpShape(s: State, op: Op) {
    && op.obj in s.objs && 0 < op.Len() && op.off + op.Len() <= s.cs
    && op.k == op.page / s.cs && op.off == op.page % s.cs
  }

  /** The pages of an outstanding transfer stay allocated, in the cluster it was mapped to, unless
      a write error has hit that cluster; then the cluster was given back, or is a lost one. */
  ghost predicate OpBacked(s: State, op: Op) {
    var e := Ent(s, op.obj, op.k);
    || (e.error && (op.at.cl == 0 ==> op.at in s.lost))
    || (&& e.IsMapped() && e.Location() == op.at && Pages(op.off, op.off + op.Len()) <= e.alloc
        && (op.Reading? ==> Pages(op.off, op.off + op.Len()) <= e.bmap))
  }

  ghost predicate OpsOk(s: State) {
    forall id :: id in s.ops ==> OpShape(s, s.ops[id]) && OpBacked(s, s.ops[id])
  }

  ghost predicate Overlap(a: Op, b: Op) {
    a.obj == b.obj && a.k == b.k && a.off < b.off + b.Len() && b.off < a.off + a.Len()
  }

  ghost predicate OpsApart(s: State) {
    forall id, id2 :: id in s.ops && id2 in s.ops && id != id2 ==> !Overlap(s.ops[id], s.ops[id2])
  }

  ghost predicate ReadingAt(s: State, id: nat, o: nat, k: nat) {
    id in s.ops && s.ops[id].Reading? && s.ops[id].obj == o && s.ops[id].k == k
  }

  /** An allocated page that no outstanding read covers. */
  ghost predicate Spare(s: State, o: nat, k: nat, q: nat) {
    q in Ent(s, o, k).alloc && forall id :: ReadingAt(s, id, o, k) ==> !s.ops[id].Owns(o, k, q)
  }

  /** In a cluster with a write error, the reads that were already under way do not cover every
      allocated page; so unmapping their pages never empties the entry. */
  ghost predicate ErrorsSpare(s: State) {
    forall id, o: nat, k: nat :: ReadingAt(s, id, o, k) && Ent(s, o, k).error ==> exists q: nat :: Spare(s, o, k, q)
  }

  /** Transfers on a lost cluster are all of the entry that lost it. */
  ghost predicate LostApart(s: State) {
    forall id, id2 :: id in s.ops && id2 in s.ops && s.ops[id].at == s.ops[id2].at && s.ops[id].at in s.lost ==>
      s.ops[id].obj == s.ops[id2].obj && s.ops[id].k == s.ops[id2].k
  }

  /** The part of the invariant about entries and bitmaps. */
  ghost predicate StoreOk(s: State) {
    Shapes(s) && EntriesOk(s) && Apart(s) && Accounted(s)
  }

  /** The part about outstanding transfers. */
  ghost predicate TransfersOk(s: State) {
    OpsOk(s) && OpsApart(s) && ErrorsSpare(s) && LostApart(s)
  }

  ghost predicate Inv(s: State) {
    StoreOk(s) && TransfersOk(s)
  }

  // ---- Changes of one entry ----

  /** At most the entry of cluster `k` of object `o` differs. */
  ghost predicate OnlyEntry(s: State, s': State, o: nat, k: nat) {
    forall o2: nat, k2: nat :: (o2, k2) != (o, k) ==> Ent(s', o2, k2) == Ent(s, o2, k2)
  }

  /** At most the use of cluster `loc` differs. */
  ghost predicate OnlyLoc(s: State, s': State, loc: Loc) {
    && |s'.segs| == |s.segs| && (forall p: nat :: p < |s.segs| ==> s'.segs[p].ncls == s.segs[p].ncls)
    && (forall l: Loc :: l != loc ==> (IsUsed(s', l) <==> IsUsed(s, l)) && (l in s'.lost <==> l in s.lost))
  }

  /** One entry and the one cluster it names may change together. */
  lemma LocalChange(s: State, s': State, o: nat, k: nat, loc: Loc)
    requires StoreOk(s) && Shapes(s') && s'.cs == s.cs && OnlyEntry(s, s', o, k) && OnlyLoc(s, s', loc)
    requires Ent(s, o, k).IsMapped() ==> Ent(s, o, k).Location() == loc
    requires Ent(s', o, k).IsMapped() ==> Ent(s', o, k).Location() == loc
    requires !Ent(s, o, k).IsMapped() && Ent(s', o, k).IsMapped() ==> !IsUsed(s, loc)
    requires EntryOk(s', Ent(s', o, k))
    requires IsUsed(s', loc) ==> loc in s'.lost || Ent(s', o, k).IsMapped() || (!Ent(s, o, k).IsMapped() && IsUsed(s, loc))
    requires loc in s'.lost ==> loc in s.lost || (loc.cl == 0 && IsUsed(s', loc) && InRange(s', loc) && Ent(s, o, k).IsMapped())
    requires loc in s.lost ==> loc in s'.lost
    requires loc in s.lost ==> IsUsed(s', loc)
    requires !Ent(s, o, k).IsMapped() && !Ent(s', o, k).IsMapped() ==> (IsUsed(s', loc) <==> IsUsed(s, loc)) && (loc in s'.lost <==> loc in s.lost)
    ensures StoreOk(s')
  {
    OthersElsewhere(s, s', o, k, loc);
    LocalEntries(s, s', o, k, loc);
    LocalApart(s, s', o, k, loc);
    LocalAccounted(s, s', o, k, loc);
  }

  /** No other entry names the cluster, unless neither this entry did nor does. */
  lemma OthersElsewhere(s: State, s': State, o: nat, k: nat, loc: Loc)
    requires StoreOk(s)
    requires Ent(s, o, k).IsMapped() ==> Ent(s, o, k).Location() == loc
    requires !Ent(s, o, k).IsMapped() && Ent(s', o, k).IsMapped() ==> !IsUsed(s, loc)
    ensures Ent(s, o, k).IsMapped() || Ent(s', o, k).IsMapped() ==>
              forall o2: nat, k2: nat :: (o2, k2) != (o, k) && Ent(s, o2, k2).IsMapped() ==> Ent(s, o2, k2).Location() != loc
  {
    if Ent(s, o, k).IsMapped() || Ent(s', o, k).IsMapped() {
      forall o2: nat, k2: nat | (o2, k2) != (o, k) && Ent(s, o2, k2).IsMapped()
        ensures Ent(s, o2, k2).Location() != loc
      {
        assert EntryOk(s, Ent(s, o2, k2));
      }
    }
  }

  lemma LocalEntries(s: State, s': State, o: nat, k: nat, loc: Loc)
    requires EntriesOk(s) && s'.cs == s.cs && OnlyEntry(s, s', o, k) && OnlyLoc(s, s', loc)
    requires EntryOk(s', Ent(s', o, k))
    requires Ent(s, o, k).IsMapped() || Ent(s', o, k).IsMapped() ==>
              forall o2: nat, k2: nat :: (o2, k2) != (o, k) && Ent(s, o2, k2).IsMapped() ==> Ent(s, o2, k2).Location() != loc
    requires !Ent(s, o, k).IsMapped() && !Ent(s', o, k).IsMapped() ==> (IsUsed(s', loc) <==> IsUsed(s, loc)) && (loc in s'.lost <==> loc in s.lost)
    ensures EntriesOk(s')
  {
    forall o2: nat, k2: nat ensures EntryOk(s', Ent(s', o2, k2)) {
      if (o2, k2) != (o, k) {
        assert EntryOk(s, Ent(s, o2, k2));
      }
    }
  }

  lemma LocalApart(s: State, s': State, o: nat, k: nat, loc: Loc)
    requires Apart(s) && OnlyEntry(s, s', o, k)
    requires Ent(s', o, k).IsMapped() ==> Ent(s', o, k).Location() == loc
    requires Ent(s, o, k).IsMapped() || Ent(s', o, k).IsMapped() ==>
              forall o2: nat, k2: nat :: (o2, k2) != (o, k) && Ent(s, o2, k2).IsMapped() ==> Ent(s, o2, k2).Location() != loc
    ensures Apart(s')
  {
  }

  lemma LocalAccounted(s: State, s': State, o: nat, k: nat, loc: Loc)
    requires Accounted(s) && OnlyEntry(s, s', o, k) && OnlyLoc(s, s', loc)
    requires Ent(s, o, k).IsMapped() ==> Ent(s, o, k).Location() == loc
    requires Ent(s', o, k).IsMapped() ==> Ent(s', o, k).Location() == loc
    requires IsUsed(s', loc) ==> loc in s'.lost || Ent(s', o, k).IsMapped() || (!Ent(s, o, k).IsMapped() && IsUsed(s, loc))
    requires loc in s'.lost ==> loc in s.lost || (loc.cl == 0 && IsUsed(s', loc) && InRange(s', loc))
    requires loc in s.lost ==> loc in s'.lost && IsUsed(s', loc)
    ensures Accounted(s')
  {
    forall l: Loc | IsUsed(s', l) && l !in s'.lost ensures Held(s', l) {
      if l == loc && Ent(s', o, k).IsMapped() {
        assert Ent(s', o, k).Location() == l;
      } else {
        assert IsUsed(s, l) && l !in s.lost;
        var o2: nat, k2: nat :| Ent(s, o2, k2).IsMapped() && Ent(s, o2, k2).Location() == l;
        assert (o2, k2) != (o, k);
        assert Ent(s', o2, k2).IsMapped() && Ent(s', o2, k2).Location() == l;
      }
    }
  }

  // ---- Storing a table back ----

  lemma EntAfter(s: State, o: nat, k: nat, t: Table, s': State)
    requires o in s.objs && WellFormed(t) && forall i: nat :: i != k ==> Lookup(t, i) == Lookup(s.objs[o], i)
    requires s'.objs == s.objs[o := t] && s'.cs == s.cs && Shapes(s)
    ensures OnlyEntry(s, s', o, k) && Ent(s', o, k) == Lookup(t, k)
    ensures forall o2 :: o2 in s'.objs ==> WellFormed(s'.objs[o2])
  {
  }

  /** Every entry, every bitmap and the lost clusters are the same; objects may have been added. */
  ghost predicate SameEnts(s: State, s': State) {
    && (forall o: nat, k: nat :: Ent(s', o, k) == Ent(s, o, k))
    && s.objs.Keys <= s'.objs.Keys && s'.segs == s.segs && s'.lost == s.lost && s'.cs == s.cs && Shapes(s')
  }

  lemma SameStore(s: State, s': State)
    requires StoreOk(s) && SameEnts(s, s')
    ensures StoreOk(s')
  {
    forall o: nat, k: nat ensures EntryOk(s', Ent(s', o, k)) {
      assert EntryOk(s, Ent(s, o, k));
    }
    forall loc: Loc | IsUsed(s', loc) && loc !in s'.lost ensures Held(s', loc) {
      assert IsUsed(s, loc);
      var o: nat, k: nat :| Ent(s, o, k).IsMapped() && Ent(s, o, k).Location() == loc;
      assert Ent(s', o, k).IsMapped() && Ent(s', o, k).Location() == loc;
    }
  }

  // ---- Changes of the set of transfers ----

  /** Spare pages survive when no read is added and no allocated page of a failed cluster goes. */
  lemma SparesKept(s: State, s': State)
    requires ErrorsSpare(s)
    requires forall o: nat, k: nat :: Ent(s', o, k).error ==> forall id :: ReadingAt(s', id, o, k) ==>
               ReadingAt(s, id, o, k) && Ent(s, o, k).error && Ent(s, o, k).alloc <= Ent(s', o, k).alloc
    requires forall id :: id in s'.ops && id in s.ops && s'.ops[id].Reading? ==>
               s'.ops[id].off == s.ops[id].off && s'.ops[id].Len() == s.ops[id].Len()
    ensures ErrorsSpare(s')
  {
    forall id, o: nat, k: nat | ReadingAt(s', id, o, k) && Ent(s', o, k).error
      ensures exists q: nat :: Spare(s', o, k, q)
    {
      assert ReadingAt(s, id, o, k);
      var q: nat :| Spare(s, o, k, q);
      forall id2 | ReadingAt(s', id2, o, k) ensures !s'.ops[id2].Owns(o, k, q) {
        assert ReadingAt(s, id2, o, k);
      }
      assert Spare(s', o, k, q);
    }
  }

  ghost predicate SameExtent(a: Op, b: Op) {
    && a.obj == b.obj && a.page == b.page && a.k == b.k && a.off == b.off
    && a.at == b.at && a.Len() == b.Len() && a.Reading? == b.Reading?
  }

  /** No transfer is added, and those that remain keep their extent. */
  ghost predicate NoNewOps(s: State, s': State) {
    forall id :: id in s'.ops ==> id in s.ops && SameExtent(s'.ops[id], s.ops[id])
  }

  lemma FewerOps(s: State, s': State)
    requires OpsApart(s) && NoNewOps(s, s')
    ensures OpsApart(s')
    ensures forall id, o: nat, k: nat :: ReadingAt(s', id, o, k) ==> ReadingAt(s, id, o, k)
  {
    forall a, b | a in s'.ops && b in s'.ops && a != b ensures !Overlap(s'.ops[a], s'.ops[b]) {
      assert SameExtent(s'.ops[a], s.ops[a]) && SameExtent(s'.ops[b], s.ops[b]);
      assert !Overlap(s.ops[a], s.ops[b]);
    }
    forall id, o: nat, k: nat | ReadingAt(s', id, o, k) ensures ReadingAt(s, id, o, k) {
      assert SameExtent(s'.ops[id], s.ops[id]);
    }
  }

  /** Transfers that end or change only their progress. */
  lemma EndOrAdvance(s: State, s': State)
    requires Inv(s) && NoNewOps(s, s') && SameEnts(s, s')
    ensures Inv(s')
  {
    SameStore(s, s');
    FewerOps(s, s');
    SparesKept(s, s');
    forall id | id in s'.ops ensures OpShape(s', s'.ops[id]) && OpBacked(s', s'.ops[id]) {
      assert SameExtent(s'.ops[id], s.ops[id]);
      assert OpShape(s, s.ops[id]) && OpBacked(s, s.ops[id]);
    }
    FewerLost(s, s');
  }

  lemma FewerLost(s: State, s': State)
    requires LostApart(s) && NoNewOps(s, s') && s'.lost == s.lost
    ensures LostApart(s')
  {
    forall a, b | a in s'.ops && b in s'.ops && s'.ops[a].at == s'.ops[b].at && s'.ops[a].at in s'.lost
      ensures s'.ops[a].obj == s'.ops[b].obj && s'.ops[a].k == s'.ops[b].k
    {
      assert SameExtent(s'.ops[a], s.ops[a]) && SameExtent(s'.ops[b], s.ops[b]);
    }
  }

  /** A new transfer on a mapped entry that does not overlap the others. */
  lemma AddOp(s: State, s': State, id: nat, op: Op)
    requires Inv(s) && id !in s.ops && OpShape(s, op) && OpBacked(s, op) && !Ent(s, op.obj, op.k).error
    requires forall id2 :: id2 in s.ops ==> !Overlap(op, s.ops[id2])
    requires s' == s.(ops := s.ops[id := op])
    ensures Inv(s')
  {
    assert SameEnts(s, s');
    SameStore(s, s');
    AddOpReads(s, s', id, op);
    SparesKept(s, s');
    AddOpOk(s, s', id, op);
    assert EntryOk(s, Ent(s, op.obj, op.k));
    assert op.at !in s.lost;
  }

  lemma AddOpReads(s: State, s': State, id: nat, op: Op)
    requires id !in s.ops && s'.ops == s.ops[id := op] && s'.objs == s.objs && !Ent(s, op.obj, op.k).error
    ensures forall o: nat, k: nat, id2 :: Ent(s', o, k).error && ReadingAt(s', id2, o, k) ==> ReadingAt(s, id2, o, k)
  {
    forall o: nat, k: nat, id2 | Ent(s', o, k).error && ReadingAt(s', id2, o, k)
      ensures ReadingAt(s, id2, o, k)
    {
      assert (o, k) != (op.obj, op.k);
    }
  }

  lemma AddOpOk(s: State, s': State, id: nat, op: Op)
    requires OpsOk(s) && OpsApart(s) && id !in s.ops && OpShape(s, op) && OpBacked(s, op)
    requires forall id2 :: id2 in s.ops ==> !Overlap(op, s.ops[id2])
    requires s'.ops == s.ops[id := op] && s'.objs == s.objs && s'.cs == s.cs && s'.lost == s.lost
    ensures OpsOk(s') && OpsApart(s')
  {
    forall id2 | id2 in s'.ops ensures OpShape(s', s'.ops[id2]) && OpBacked(s', s'.ops[id2]) {
      assert id2 != id ==> OpShape(s, s.ops[id2]) && OpBacked(s, s.ops[id2]);
    }
  }

  // ---- Entries that grow, fail or shrink ----

  /** Entry `e` becomes `e2`, which still names the same cluster and has at least the same pages. */
  ghost predicate Grows(e: Entry, e2: Entry) {
    e.IsMapped() ==> e2.IsMapped() && e2.Location() == e.Location() && e.alloc <= e2.alloc && e.bmap <= e2.bmap
  }

  /** Pages are added to a mapped entry, or a clear entry is given a cluster. */
  lemma GrowKeepsTransfers(s: State, s': State, o: nat, k: nat)
    requires TransfersOk(s) && s'.ops == s.ops && s'.cs == s.cs && s'.lost == s.lost
    requires OnlyEntry(s, s', o, k) && s.objs.Keys <= s'.objs.Keys
    requires !Ent(s, o, k).error && !Ent(s', o, k).error && Grows(Ent(s, o, k), Ent(s', o, k))
    ensures TransfersOk(s')
  {
    forall id | id in s'.ops ensures OpShape(s', s'.ops[id]) && OpBacked(s', s'.ops[id]) {
      assert OpShape(s, s.ops[id]) && OpBacked(s, s.ops[id]);
      var op := s.ops[id];
      assert (op.obj, op.k) != (o, k) ==> Ent(s', op.obj, op.k) == Ent(s, op.obj, op.k);
    }
    forall o2: nat, k2: nat, id | Ent(s', o2, k2).error && ReadingAt(s', id, o2, k2)
      ensures ReadingAt(s, id, o2, k2) && Ent(s, o2, k2).error && Ent(s, o2, k2).alloc <= Ent(s', o2, k2).alloc
    {
      assert (o2, k2) != (o, k);
    }
    SparesKept(s, s');
  }

  /** What a write error does to the lost clusters: one numbered 0 is not given back. */
  ghost predicate Loses(s: State, s': State, e: Entry) {
    s'.lost == if e.IsMapped() && e.entry == 0 then s.lost + {e.Location()} else s.lost
  }

  /** A write error hits an entry: allowed while its allocated pages are not all being read. */
  lemma FailKeepsTransfers(s: State, s': State, o: nat, k: nat)
    requires Inv(s) && s'.ops == s.ops && s'.cs == s.cs && !Ent(s, o, k).error && Loses(s, s', Ent(s, o, k))
    requires OnlyEntry(s, s', o, k) && s.objs.Keys <= s'.objs.Keys
    requires Ent(s', o, k).error && Ent(s', o, k).alloc == Ent(s, o, k).alloc
    requires (forall id :: !ReadingAt(s, id, o, k)) || exists q: nat :: Spare(s, o, k, q)
    ensures TransfersOk(s')
  {
    forall id | id in s'.ops ensures OpShape(s', s'.ops[id]) && OpBacked(s', s'.ops[id]) {
      assert OpShape(s, s.ops[id]) && OpBacked(s, s.ops[id]);
      var op := s.ops[id];
      assert (op.obj, op.k) != (o, k) ==> Ent(s', op.obj, op.k) == Ent(s, op.obj, op.k);
    }
    FailKeepsLost(s, s', o, k);
    forall id, o2: nat, k2: nat | ReadingAt(s', id, o2, k2) && Ent(s', o2, k2).error
      ensures exists q: nat :: Spare(s', o2, k2, q)
    {
      assert ReadingAt(s, id, o2, k2);
      if (o2, k2) != (o, k) {
        assert Ent(s', o2, k2) == Ent(s, o2, k2);
      }
      var q: nat :| Spare(s, o2, k2, q);
      forall id2 | ReadingAt(s', id2, o2, k2) ensures !s'.ops[id2].Owns(o2, k2, q) {
        assert ReadingAt(s, id2, o2, k2);
      }
      assert Spare(s', o2, k2, q);
    }
  }

  lemma FailKeepsLost(s: State, s': State, o: nat, k: nat)
    requires Inv(s) && s'.ops == s.ops && Loses(s, s', Ent(s, o, k))
    ensures LostApart(s')
  {
    forall id, id2 | id in s.ops && id2 in s.ops && s.ops[id].at == s.ops[id2].at && s.ops[id].at in s'.lost
      ensures s.ops[id].obj == s.ops[id2].obj && s.ops[id].k == s.ops[id2].k
    {
      if s.ops[id].at !in s.lost {
        OnLost(s, id, o, k);
        OnLost(s, id2, o, k);
      }
    }
  }

  /** A transfer on the cluster of a mapped entry is that entry's, if the cluster is numbered 0. */
  lemma OnLost(s: State, id: nat, o: nat, k: nat)
    requires Inv(s) && id in s.ops && Ent(s, o, k).IsMapped() && s.ops[id].at == Ent(s, o, k).Location() && s.ops[id].at.cl == 0
    ensures s.ops[id].obj == o && s.ops[id].k == k
  {
    assert OpBacked(s, s.ops[id]) && EntryOk(s, Ent(s, o, k));
  }
}
