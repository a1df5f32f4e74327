/** Every step of the pager keeps the invariant. */
module PagerSteps {
  import opened Division
  import opened PagingSegments
  import opened Slots
  import opened Pager
  import opened PagerInvariant

  // ---- Bitmap updates ----

  lemma MarkOnly(s: State, s': State, loc: Loc)
    requires InRange(s, loc) && s'.segs == Mark(s.segs, loc) && s'.lost == s.lost
    ensures OnlyLoc(s, s', loc) && IsUsed(s', loc) && InRange(s', loc)
  {
  }

  lemma UnmarkOnly(s: State, s': State, loc: Loc)
    requires InRange(s, loc) && s'.segs == Unmark(s.segs, Some(loc)) && s'.lost == s.lost
    ensures OnlyLoc(s, s', loc) && !IsUsed(s', loc) && InRange(s', loc)
  {
  }

  lemma ShapesAfter(s: State, s': State, o: nat, k: nat, t: Table)
    requires Shapes(s) && o in s.objs && WellFormed(t)
    requires forall i: nat :: i != k ==> Lookup(t, i) == Lookup(s.objs[o], i)
    requires s'.objs == s.objs[o := t] && s'.cs == s.cs
    requires |s'.segs| == |s.segs| && forall p: nat :: p < |s.segs| ==> s'.segs[p].ncls == s.segs[p].ncls
    ensures Shapes(s') && OnlyEntry(s, s', o, k) && Ent(s', o, k) == Lookup(t, k) && s.objs.Keys <= s'.objs.Keys
  {
  }

  // ---- Changing one entry ----

  /** Storing a table back changes one entry; if that entry is the same too, nothing has changed. */
  lemma NothingChanged(s: State, s': State, o: nat, k: nat, t: Table)
    requires Inv(s) && o in s.objs && WellFormed(t) && s' == s.(objs := s.objs[o := t])
    requires forall i: nat :: i != k ==> Lookup(t, i) == Lookup(s.objs[o], i)
    requires Lookup(t, k) == Lookup(s.objs[o], k)
    ensures SameEnts(s, s') && Inv(s')
  {
    ShapesAfter(s, s', o, k, t);
    forall o2: nat, k2: nat ensures Ent(s', o2, k2) == Ent(s, o2, k2) {
      assert (o2, k2) != (o, k) ==> Ent(s', o2, k2) == Ent(s, o2, k2);
    }
    EndOrAdvance(s, s');
  }

  /** A clear entry is given a cluster that was not in use, and some pages. */
  lemma Claimed(s: State, s': State, o: nat, k: nat, t: Table, loc: Loc)
    requires Inv(s) && o in s.objs && WellFormed(t)
    requires forall i: nat :: i != k ==> Lookup(t, i) == Lookup(s.objs[o], i)
    requires s' == s.(objs := s.objs[o := t], segs := Mark(s.segs, loc))
    requires InRange(s, loc) && !IsUsed(s, loc)
    requires Ent(s, o, k) == CLEAR && Lookup(t, k).IsMapped() && Lookup(t, k).Location() == loc
    requires Lookup(t, k).bmap == {} && {} != Lookup(t, k).alloc <= Pages(0, s.cs)
    ensures Inv(s')
  {
    MarkOnly(s, s', loc);
    ShapesAfter(s, s', o, k, t);
    assert loc !in s.lost;
    LocalChange(s, s', o, k, loc);
    GrowKeepsTransfers(s, s', o, k);
  }

  /** A mapped entry gets more allocated or more valid pages. */
  lemma Grown(s: State, s': State, o: nat, k: nat, t: Table)
    requires Inv(s) && o in s.objs && WellFormed(t)
    requires forall i: nat :: i != k ==> Lookup(t, i) == Lookup(s.objs[o], i)
    requires s' == s.(objs := s.objs[o := t])
    requires Ent(s, o, k).IsMapped() && !Lookup(t, k).error && Grows(Ent(s, o, k), Lookup(t, k))
    requires Lookup(t, k).bmap <= Lookup(t, k).alloc <= Pages(0, s.cs)
    ensures Inv(s')
  {
    ShapesAfter(s, s', o, k, t);
    var loc := Ent(s, o, k).Location();
    assert EntryOk(s, Ent(s, o, k));
    LocalChange(s, s', o, k, loc);
    GrowKeepsTransfers(s, s', o, k);
  }

  /** A write error hits an entry: a mapped one gives its cluster back, unless it is cluster 0. */
  lemma Failing(s: State, s': State, o: nat, k: nat, t: Table)
    requires Inv(s) && o in s.objs && WellFormed(t)
    requires forall i: nat :: i != k ==> Lookup(t, i) == Lookup(s.objs[o], i)
    requires var e := Ent(s, o, k); !e.error && Lookup(t, k).error && Lookup(t, k).alloc == e.alloc && Lookup(t, k).entry != 0
    requires var e := Ent(s, o, k);
      s' == s.(objs := s.objs[o := t],
               segs := if e.IsMapped() && e.entry != 0 then Unmark(s.segs, Some(e.Location())) else s.segs,
               lost := if e.IsMapped() && e.entry == 0 then s.lost + {e.Location()} else s.lost)
    requires (forall id :: !ReadingAt(s, id, o, k)) || exists q: nat :: Spare(s, o, k, q)
    ensures Inv(s')
  {
    var e := Ent(s, o, k);
    var loc := if e.IsMapped() then e.Location() else Loc(0, 0);
    assert EntryOk(s, e);
    if e.IsMapped() && e.entry != 0 {
      UnmarkOnly(s, s', loc);
    }
    ShapesAfter(s, s', o, k, t);
    LocalChange(s, s', o, k, loc);
    FailKeepsTransfers(s, s', o, k);
  }

  // ---- The pages of a finished read leave the store ----

  /** The pages of other transfers are disjoint from those of `op`, so they stay allocated. */
  lemma OthersBacked(s: State, s': State, id: nat)
    requires OpsOk(s) && OpsApart(s) && id in s.ops && s'.ops == s.ops - {id} && s'.cs == s.cs && s'.lost == s.lost
    requires var op := s.ops[id]; OnlyEntry(s, s', op.obj, op.k)
    requires s.objs.Keys <= s'.objs.Keys
    requires var op := s.ops[id]; var e, e2 := Ent(s, op.obj, op.k), Ent(s', op.obj, op.k);
      (e.error ==> e2.error)
      && (e.IsMapped() ==> e2 == ClearPages(e, op.off, op.Len()) || (e2 == CLEAR && ClearPages(e, op.off, op.Len()).alloc == {}))
    ensures OpsOk(s') && OpsApart(s')
  {
    var op := s.ops[id];
    forall id2 | id2 in s'.ops ensures OpShape(s', s'.ops[id2]) && OpBacked(s', s'.ops[id2]) {
      var op2 := s.ops[id2];
      assert OpShape(s, op2) && OpBacked(s, op2);
      if (op2.obj, op2.k) == (op.obj, op.k) {
        assert !Overlap(op, op2);
        assert Pages(op2.off, op2.off + op2.Len()) !! Pages(op.off, op.off + op.Len());
        assert op2.off in Pages(op2.off, op2.off + op2.Len());
        var e := Ent(s, op.obj, op.k);
        if e.IsMapped() {
          assert op2.off in ClearPages(e, op.off, op.Len()).alloc;
        }
      } else {
        assert Ent(s', op2.obj, op2.k) == Ent(s, op2.obj, op2.k);
      }
    }
  }

  /** A spare page of a failed cluster is not among the pages of the read that ends. */
  lemma SparesAfterRead(s: State, s': State, id: nat)
    requires ErrorsSpare(s) && id in s.ops && s.ops[id].Reading? && s'.ops == s.ops - {id}
    requires var op := s.ops[id]; OnlyEntry(s, s', op.obj, op.k)
    requires var op := s.ops[id]; var e, e2 := Ent(s, op.obj, op.k), Ent(s', op.obj, op.k);
      e2.error ==> e.error && e2.alloc == e.alloc - Pages(op.off, op.off + op.Len())
    ensures ErrorsSpare(s')
  {
    var op := s.ops[id];
    forall id2, o: nat, k: nat | ReadingAt(s', id2, o, k) && Ent(s', o, k).error
      ensures exists q: nat :: Spare(s', o, k, q)
    {
      assert ReadingAt(s, id2, o, k);
      if (o, k) != (op.obj, op.k) {
        assert Ent(s', o, k) == Ent(s, o, k);
      } else {
        assert ReadingAt(s, id, o, k);
      }
      var q: nat :| Spare(s, o, k, q);
      forall id3 | ReadingAt(s', id3, o, k) ensures !s'.ops[id3].Owns(o, k, q) {
        assert ReadingAt(s, id3, o, k);
      }
      assert Spare(s', o, k, q);
    }
  }

  /** The entry that ps_clunmap leaves behind a read, whether or not a write error came between. */
  lemma UnmapOutcome(s: State, id: nat)
    requires Inv(s) && id in s.ops && s.ops[id].Reading?
    ensures var op := s.ops[id];
      var e := Ent(s, op.obj, op.k);
      var (e2, freed) := UnmapEntry(e, op.off, op.len);
      && !e.IsClr()
      && (e.error ==> freed == [] && e2 == ClearPages(e, op.off, op.len))
      && (e.IsMapped() && freed != [] ==> freed == [op.at] && e2 == CLEAR && ClearPages(e, op.off, op.len).alloc == {})
      && (e.IsMapped() && freed == [] ==> e2 == ClearPages(e, op.off, op.len) && e2.alloc != {})
  {
    var op := s.ops[id];
    var e := Ent(s, op.obj, op.k);
    assert OpBacked(s, op) && EntryOk(s, e);
    if e.error {
      assert ReadingAt(s, id, op.obj, op.k);
      var q: nat :| Spare(s, op.obj, op.k, q);
      assert q in ClearPages(e, op.off, op.len).alloc;
    }
  }

  lemma UnmarkShort(segs: seq<Seg>, loc: Loc)
    ensures UnmarkAll(segs, []) == segs
    ensures UnmarkAll(segs, [loc]) == Unmark(segs, Some(loc))
    ensures |Unmark(segs, Some(loc))| == |segs|
    ensures forall p: nat :: p < |segs| ==> Unmark(segs, Some(loc))[p].ncls == segs[p].ncls
  {
    assert [loc][..0] == [];
  }

  /** What ps_clunmap does behind a read, in terms of the entry and the bitmaps. */
  ghost predicate SupplyEffect(s: State, id: nat, s': State)
    requires id in s.ops
  {
    var op := s.ops[id];
    var eo := UnmapEntry(Ent(s, op.obj, op.k), op.off, op.Len());
    && Shapes(s') && s'.cs == s.cs && OnlyEntry(s, s', op.obj, op.k) && s.objs.Keys <= s'.objs.Keys
    && Ent(s', op.obj, op.k) == eo.0 && s'.lost == s.lost && s'.ops == s.ops - {id} && s'.disk == s.disk
    && s'.segs == (if eo.1 == [] then s.segs else Unmark(s.segs, Some(op.at)))
  }

  lemma SupplyEffectHolds(s: State, id: nat, u: Unmapped)
    requires Inv(s) && id in s.ops && s.ops[id].Reading?
    requires var op := s.ops[id]; UnmapEffect(s.objs[op.obj], op.k, UnmapEntry(Ent(s, op.obj, op.k), op.off, op.len), u)
    ensures SupplyEffect(s, id, Supplying(s, id, u))
  {
    var op := s.ops[id];
    assert OpShape(s, op);
    UnmapOutcome(s, id);
    UnmarkShort(s.segs, op.at);
    ShapesAfter(s, Supplying(s, id, u), op.obj, op.k, u.table);
  }

  lemma SupplyStoreOk(s: State, id: nat, s': State)
    requires Inv(s) && id in s.ops && s.ops[id].Reading? && SupplyEffect(s, id, s')
    ensures StoreOk(s')
  {
    var op := s.ops[id];
    var e := Ent(s, op.obj, op.k);
    UnmapOutcome(s, id);
    assert EntryOk(s, e) && OpBacked(s, op);
    if UnmapEntry(e, op.off, op.len).1 != [] {
      UnmarkOnly(s, s', op.at);
    }
    LocalChange(s, s', op.obj, op.k, if e.IsMapped() then op.at else Loc(0, 0));
  }

  lemma UnmapCallEffect(s: State, id: nat)
    requires StoreOk(s) && OpsOk(s) && id in s.ops && s.ops[id].Reading?
    ensures var op := s.ops[id];
      UnmapEffect(s.objs[op.obj], op.k, UnmapEntry(Ent(s, op.obj, op.k), op.off, op.len), UnmapCall(s, op))
  {
    var op := s.ops[id];
    assert OpShape(s, op);
    ReadNotClear(s, id);
    UnmapCallIs(s, op);
  }

  lemma UnmapCallIs(s: State, op: Op)
    requires s.cs > 0 && op.obj in s.objs && WellFormed(s.objs[op.obj])
    requires op.Len() > 0 && op.off + op.Len() <= s.cs && op.off == op.page % s.cs && op.k == op.page / s.cs
    requires op.k < |s.objs[op.obj]| && s.objs[op.obj][op.k].Some? && !s.objs[op.obj][op.k].value.IsClr()
    ensures UnmapEffect(s.objs[op.obj], op.k, UnmapEntry(Lookup(s.objs[op.obj], op.k), op.off, op.Len()), UnmapCall(s, op))
  {
    ClunmapEffect(s.objs[op.obj], s.cs, op.page, op.Len());
  }

  lemma ReadNotClear(s: State, id: nat)
    requires StoreOk(s) && OpsOk(s) && id in s.ops && s.ops[id].Reading?
    ensures var op := s.ops[id]; op.obj in s.objs && op.k < |s.objs[op.obj]| && s.objs[op.obj][op.k].Some?
    ensures var op := s.ops[id]; !s.objs[op.obj][op.k].value.IsClr()
  {
    assert OpShape(s, s.ops[id]) && OpBacked(s, s.ops[id]);
  }

  /** Supplying data takes its pages out of the store, and the cluster with the last of them. */
  lemma SupplyKeeps(s: State, id: nat)
    requires Inv(s) && Enabled(s, Supply(id))
    ensures Inv(Next(s, Supply(id)).0) && SupplyEffect(s, id, Next(s, Supply(id)).0)
  {
    UnmapCallEffect(s, id);
    var u := UnmapCall(s, s.ops[id]);
    SupplyEffectHolds(s, id, u);
    UnmapOutcome(s, id);
    SupplyStoreOk(s, id, Supplying(s, id, u));
    OthersBacked(s, Supplying(s, id, u), id);
    SparesAfterRead(s, Supplying(s, id, u), id);
  }

  // ---- The steps of a write ----

  /** ps_clmap for a write changes nothing, or adds pages to a mapped entry, or gives a clear entry
      the cluster claimed and those pages. */
  lemma AllocCases(e: Entry, cs: nat, off: nat, cnt: nat, space: Option<Loc>, k: nat, t: Table, out: Outcome)
    requires off < cs && cnt > 0 && e == Lookup(t, k) && (e.IsClr() ==> e == CLEAR)
    requires space.Some? ==> space.value.cl < VSM_ENTRY_NULL
    requires Effect(t, k, ClmapEntry(e, cs, off, Alloc, cnt, 0, space), out)
    ensures var e2 := Lookup(out.table, k);
      var pages := Pages(off, Min(off + cnt, cs));
      var took := out.asked && space.Some?;
      || (e2 == e && !took)
      || (e.IsMapped() && !took && e2 == e.(alloc := e.alloc + pages))
      || (e == CLEAR && took && e2 == Entry(space.value.cl, space.value.ps, false, {}, pages))
  {
  }

  lemma EnteredKeeps(s: State, o: nat, k: nat, off: nat, cnt: nat, space: Option<Loc>, out: Outcome)
    requires Inv(s) && o in s.objs && off < s.cs && cnt > 0
    requires space.Some? ==> InRange(s, space.value) && !IsUsed(s, space.value)
    requires Effect(s.objs[o], k, ClmapEntry(Ent(s, o, k), s.cs, off, Alloc, cnt, 0, space), out)
    ensures Inv(Entered(s, o, space, out)) && OnlyEntry(s, Entered(s, o, space, out), o, k)
    ensures Ent(Entered(s, o, space, out), o, k) == Lookup(out.table, k)
  {
    var e := Ent(s, o, k);
    assert EntryOk(s, e);
    WrittenPages(off, cnt, s.cs);
    AllocCases(e, s.cs, off, cnt, space, k, s.objs[o], out);
    StoreEntered(s, o, k, Pages(off, Min(off + cnt, s.cs)), space, out);
    EntAfter(s, o, k, out.table, Entered(s, o, space, out));
  }

  lemma StoreEntered(s: State, o: nat, k: nat, pages: set<nat>, space: Option<Loc>, out: Outcome)
    requires Inv(s) && o in s.objs && {} != pages <= Pages(0, s.cs) && WellFormed(out.table)
    requires space.Some? ==> InRange(s, space.value) && !IsUsed(s, space.value)
    requires forall i: nat :: i != k ==> Lookup(out.table, i) == Lookup(s.objs[o], i)
    requires var e, e2 := Ent(s, o, k), Lookup(out.table, k);
      var took := out.asked && space.Some?;
      || (e2 == e && !took)
      || (e.IsMapped() && !took && e2 == e.(alloc := e.alloc + pages))
      || (e == CLEAR && took && e2 == Entry(space.value.cl, space.value.ps, false, {}, pages))
    ensures Inv(Entered(s, o, space, out))
  {
    var e, e2 := Ent(s, o, k), Lookup(out.table, k);
    assert EntryOk(s, e);
    var s1 := Entered(s, o, space, out);
    if e2 == e && !(out.asked && space.Some?) {
      NothingChanged(s, s1, o, k, out.table);
    } else if e.IsMapped() {
      Grown(s, s1, o, k, out.table);
    } else {
      Claimed(s, s1, o, k, out.table, space.value);
    }
  }

  /** A write that is mapped: its pages are allocated in the cluster named. */
  lemma EnteredFound(e: Entry, cs: nat, off: nat, cnt: nat, space: Option<Loc>, k: nat, t: Table, out: Outcome)
    requires off < cs && cnt > 0 && e == Lookup(t, k) && (e.IsClr() ==> e == CLEAR)
    requires space.Some? ==> space.value.cl < VSM_ENTRY_NULL
    requires Effect(t, k, ClmapEntry(e, cs, off, Alloc, cnt, 0, space), out)
    requires out.reply.Found?
    ensures var e2 := Lookup(out.table, k);
      && e2.IsMapped() && e2.Location() == out.reply.at && !e.error
      && Pages(off, off + Min(cnt, cs - off)) <= e2.alloc && Grows(e, e2) && e2.bmap == e.bmap
  {
    WrittenPages(off, cnt, cs);
  }

  lemma WriteRoundKeeps(s: State, id: nat, o: nat, page: nat, data: seq<Content>, space: Option<Loc>, out: Outcome)
    requires Inv(s) && o in s.objs && id !in s.ops && data != [] && ChunkFree(s, o, page, |data|)
    requires space.Some? ==> InRange(s, space.value) && !IsUsed(s, space.value)
    requires Effect(s.objs[o], page / s.cs, ClmapEntry(Ent(s, o, page / s.cs), s.cs, page % s.cs, Alloc, |data|, 0, space), out)
    ensures Inv(WriteRound(s, id, o, page, data, space, out))
  {
    EnteredKeeps(s, o, page / s.cs, page % s.cs, |data|, space, out);
    if out.reply.Found? {
      RoundIs(s, id, o, page, data, space, out);
      StartFound(s, id, RoundOp(s.cs, o, page, data, out.reply.at), |data|, space, out);
    }
  }

  function RoundOp(cs: nat, o: nat, page: nat, data: seq<Content>, at: Loc): (op: Op)
    requires cs > 0 && data != []
    ensures op.Writing? && op.obj == o && op.page == page && op.k == page / cs && op.off == page % cs && op.at == at
    ensures op.Len() == Chunk(cs, page, |data|)
  {
    Writing(o, page, page / cs, page % cs, data[..Chunk(cs, page, |data|)], at, false)
  }

  lemma RoundIs(s: State, id: nat, o: nat, page: nat, data: seq<Content>, space: Option<Loc>, out: Outcome)
    requires s.cs > 0 && data != [] && out.reply.Found?
    ensures WriteRound(s, id, o, page, data, space, out) ==
            Entered(s, o, space, out).(ops := s.ops[id := RoundOp(s.cs, o, page, data, out.reply.at)])
  {
  }

  lemma StartFound(s: State, id: nat, op: Op, cnt: nat, space: Option<Loc>, out: Outcome)
    requires Inv(s) && op.obj in s.objs && op.Writing? && id !in s.ops && cnt > 0 && ChunkFree(s, op.obj, op.page, cnt)
    requires space.Some? ==> InRange(s, space.value)
    requires op.k == op.page / s.cs && op.off == op.page % s.cs && op.Len() == Chunk(s.cs, op.page, cnt)
    requires Effect(s.objs[op.obj], op.k, ClmapEntry(Ent(s, op.obj, op.k), s.cs, op.off, Alloc, cnt, 0, space), out)
    requires out.reply.Found? && op.at == out.reply.at && Inv(Entered(s, op.obj, space, out))
    requires Ent(Entered(s, op.obj, space, out), op.obj, op.k) == Lookup(out.table, op.k)
    ensures Inv(Entered(s, op.obj, space, out).(ops := s.ops[id := op]))
  {
    FoundBacked(s, op.obj, op, cnt, space, out);
    StartWrite(s, Entered(s, op.obj, space, out), id, op.obj, op.page, cnt, op);
  }

  lemma StartWrite(s: State, s1: State, id: nat, o: nat, page: nat, cnt: nat, op: Op)
    requires OpsOk(s) && s.cs > 0 && id !in s.ops && ChunkFree(s, o, page, cnt)
    requires op.obj == o && op.k == page / s.cs && op.off == page % s.cs && 0 < op.Len() <= Chunk(s.cs, page, cnt)
    requires Inv(s1) && s1.ops == s.ops && OpShape(s1, op) && OpBacked(s1, op) && !Ent(s1, o, op.k).error
    ensures Inv(s1.(ops := s.ops[id := op]))
  {
    ChunkDisjoint(s, o, page, cnt, op);
    AddOp(s1, s1.(ops := s.ops[id := op]), id, op);
  }

  lemma FoundBacked(s: State, o: nat, op: Op, cnt: nat, space: Option<Loc>, out: Outcome)
    requires Inv(s) && o in s.objs && op.obj == o && op.Writing? && cnt > 0
    requires space.Some? ==> InRange(s, space.value)
    requires op.k == op.page / s.cs && op.off == op.page % s.cs && op.Len() == Chunk(s.cs, op.page, cnt)
    requires Effect(s.objs[o], op.k, ClmapEntry(Ent(s, o, op.k), s.cs, op.off, Alloc, cnt, 0, space), out)
    requires out.reply.Found? && op.at == out.reply.at
    requires Ent(Entered(s, o, space, out), o, op.k) == Lookup(out.table, op.k)
    ensures var s1 := Entered(s, o, space, out);
      OpShape(s1, op) && OpBacked(s1, op) && !Ent(s1, o, op.k).error
  {
    assert EntryOk(s, Ent(s, o, op.k));
    EnteredFound(Ent(s, o, op.k), s.cs, op.off, cnt, space, op.k, s.objs[o], out);
  }

  lemma WrittenPages(off: nat, size: nat, cs: nat)
    requires off < cs && size > 0
    ensures Pages(off, Min(off + size, cs)) == Pages(off, off + Min(size, cs - off))
    ensures off in Pages(off, Min(off + size, cs))
    ensures Pages(off, Min(off + size, cs)) <= Pages(0, cs)
  {
  }

  lemma ChunkDisjoint(s: State, o: nat, page: nat, cnt: nat, op: Op)
    requires OpsOk(s) && s.cs > 0 && ChunkFree(s, o, page, cnt)
    requires op.obj == o && op.k == page / s.cs && op.off == page % s.cs && 0 < op.Len() <= Chunk(s.cs, page, cnt)
    ensures forall id2 :: id2 in s.ops ==> !Overlap(op, s.ops[id2])
  {
    forall id2 | id2 in s.ops ensures !Overlap(op, s.ops[id2]) {
      var b := s.ops[id2];
      assert OpShape(s, b);
      if Overlap(op, b) {
        var i := if op.off > b.off then op.off else b.off;
        assert b.Owns(o, op.k, i);
        assert Owned(s, o, op.k, i);
      }
    }
  }

  /** A successful completion: the pages written become valid. */
  lemma DoneKeeps(s: State, id: nat, out: Outcome)
    requires Inv(s) && id in s.ops && s.ops[id].Writing?
    requires var op := s.ops[id];
      Effect(s.objs[op.obj], op.k, ClmapEntry(Ent(s, op.obj, op.k), s.cs, op.off, Find, |op.data|, 0, None), out)
    ensures var op := s.ops[id]; Inv(Completion(s, op.obj, Ent(s, op.obj, op.k), 0, out))
  {
    var op := s.ops[id];
    assert OpShape(s, op) && OpBacked(s, op);
    var e := Ent(s, op.obj, op.k);
    assert EntryOk(s, e);
    var s1 := Completion(s, op.obj, e, 0, out);
    if e.error {
      NothingChanged(s, s1, op.obj, op.k, out.table);
    } else {
      Grown(s, s1, op.obj, op.k, out.table);
    }
  }

  /** A failed completion, of a mapped transfer or of pages that could not be mapped. */
  lemma ErrorKeeps(s: State, o: nat, k: nat, off: nat, cnt: nat, error: nat, out: Outcome)
    requires Inv(s) && o in s.objs && off < s.cs && cnt > 0 && 0 < error < VSM_ENTRY_RANGE
    requires Ent(s, o, k).error || (forall id :: !ReadingAt(s, id, o, k)) || exists q: nat :: Spare(s, o, k, q)
    requires Effect(s.objs[o], k, ClmapEntry(Ent(s, o, k), s.cs, off, Find, cnt, error, None), out)
    ensures Inv(Completion(s, o, Ent(s, o, k), error, out))
  {
    var e := Ent(s, o, k);
    assert EntryOk(s, e);
    var s1 := Completion(s, o, e, error, out);
    if Lookup(out.table, k) == e {
      NothingChanged(s, s1, o, k, out.table);
    } else {
      Failing(s, s1, o, k, out.table);
    }
  }

  /** The first page of an outstanding write is allocated and not covered by any read. */
  lemma WritersSpare(s: State, id: nat)
    requires Inv(s) && id in s.ops && s.ops[id].Writing? && Ent(s, s.ops[id].obj, s.ops[id].k).IsMapped()
    ensures Spare(s, s.ops[id].obj, s.ops[id].k, s.ops[id].off)
  {
    var op := s.ops[id];
    assert OpShape(s, op) && OpBacked(s, op);
    assert op.off in Pages(op.off, op.off + op.Len());
    forall id2 | ReadingAt(s, id2, op.obj, op.k) ensures !s.ops[id2].Owns(op.obj, op.k, op.off) {
      assert !Overlap(op, s.ops[id2]);
    }
  }

  lemma WriteDoneKeeps(s: State, id: nat, error: nat)
    requires Inv(s) && Enabled(s, WriteDone(id, error))
    ensures Inv(Next(s, WriteDone(id, error)).0)
  {
    var op := s.ops[id];
    assert OpShape(s, op) && OpBacked(s, op);
    ClmapEffect(s.objs[op.obj], s.cs, op.page, Find, |op.data|, error, NOMEM, None);
    var out := CompleteCall(s, op.obj, op.page, |op.data|, error);
    if error == 0 {
      DoneKeeps(s, id, out);
    } else {
      if !Ent(s, op.obj, op.k).error {
        WritersSpare(s, id);
      }
      ErrorKeeps(s, op.obj, op.k, op.off, |op.data|, error, out);
    }
    EndTransfer(Completion(s, op.obj, Ent(s, op.obj, op.k), error, out), id);
  }

  lemma EndTransfer(s: State, id: nat)
    requires Inv(s)
    ensures Inv(s.(ops := s.ops - {id}))
  {
    EndOrAdvance(s, s.(ops := s.ops - {id}));
  }

  // ---- The steps of a read ----

  /** A read that is mapped covers valid pages only. */
  lemma ReadFound(e: Entry, cs: nat, off: nat, cnt: nat, k: nat, t: Table, out: Outcome)
    requires off < cs && cnt > 0 && e == Lookup(t, k) && (e.IsClr() ==> e == CLEAR)
    requires Effect(t, k, ClmapEntry(e, cs, off, Find, 0, 0, None), out)
    ensures Lookup(out.table, k) == e
    ensures out.reply.Found? <==> e.IsMapped()
    ensures out.reply.Found? ==>
              out.reply.at == e.Location() && out.reply.numpages == cs - off && out.reply.bmap == Shift(e.bmap, off)
    ensures !out.reply.Found? ==> out.reply == Failed(if e.error then e.entry else 0)
  {
  }

  /** The run of valid pages found in the shifted bitmap is a run of valid pages of the cluster. */
  lemma RunOfValid(bmap: set<nat>, off: nat, limit: nat)
    ensures Pages(off, off + Run(Shift(bmap, off), true, 0, limit)) <= bmap
    ensures limit > 0 && 0 in Shift(bmap, off) ==> Run(Shift(bmap, off), true, 0, limit) > 0
  {
    var n := Run(Shift(bmap, off), true, 0, limit);
    forall i: nat | i in Pages(off, off + n) ensures i in bmap {
      assert i - off in Shift(bmap, off);
    }
  }

  lemma ReadRoundKeeps(s: State, id: nat, o: nat, page: nat, cnt: nat, out: Outcome)
    requires Inv(s) && o in s.objs && id !in s.ops && cnt > 0 && ChunkFree(s, o, page, cnt)
    requires Effect(s.objs[o], page / s.cs, ClmapEntry(Ent(s, o, page / s.cs), s.cs, page % s.cs, Find, 0, 0, None), out)
    ensures Inv(ReadRound(s, id, o, page, cnt, out.reply).0)
  {
    var k, off := page / s.cs, page % s.cs;
    var e := Ent(s, o, k);
    assert EntryOk(s, e);
    ReadFound(e, s.cs, off, cnt, k, s.objs[o], out);
    if out.reply.Found? && 0 in out.reply.bmap {
      ReadFoundKeeps(s, id, o, page, cnt, out.reply);
    }
  }

  lemma ReadFoundKeeps(s: State, id: nat, o: nat, page: nat, cnt: nat, reply: Reply)
    requires Inv(s) && o in s.objs && id !in s.ops && cnt > 0 && ChunkFree(s, o, page, cnt)
    requires reply.Found? && 0 in reply.bmap && Ent(s, o, page / s.cs).IsMapped()
    requires var e, off := Ent(s, o, page / s.cs), page % s.cs;
             reply.at == e.Location() && reply.numpages == s.cs - off && reply.bmap == Shift(e.bmap, off)
    ensures Inv(ReadRound(s, id, o, page, cnt, reply).0)
  {
    var n := Run(reply.bmap, true, 0, Min(cnt, reply.numpages));
    var op := Reading(o, page, page / s.cs, page % s.cs, n, reply.at, None);
    RunOfValid(Ent(s, o, page / s.cs).bmap, page % s.cs, Min(cnt, reply.numpages));
    StartRead(s, id, page, cnt, op);
  }

  lemma StartRead(s: State, id: nat, page: nat, cnt: nat, op: Op)
    requires Inv(s) && op.obj in s.objs && op.Reading? && id !in s.ops && ChunkFree(s, op.obj, page, cnt)
    requires op.page == page && op.k == page / s.cs && op.off == page % s.cs && 0 < op.Len() <= Chunk(s.cs, page, cnt)
    requires var e := Ent(s, op.obj, op.k); e.IsMapped() && op.at == e.Location() && Pages(op.off, op.off + op.Len()) <= e.bmap
    ensures Inv(s.(ops := s.ops[id := op]))
  {
    assert EntryOk(s, Ent(s, op.obj, op.k));
    ChunkDisjoint(s, op.obj, page, cnt, op);
    AddOp(s, s.(ops := s.ops[id := op]), id, op);
  }

  // ---- Objects come and go ----

  lemma CreateKeeps(s: State, o: nat, size: nat)
    requires Inv(s) && o !in s.objs && size > 0
    ensures Inv(Created(s, o, size))
  {
    var s' := Created(s, o, size);
    var t := s'.objs[o];
    assert WellFormed(t) && forall k: nat :: Lookup(t, k) == CLEAR;
    forall o2: nat, k2: nat ensures Ent(s', o2, k2) == Ent(s, o2, k2) {
    }
    EndOrAdvance(s, s');
  }

  /** The list of an object's clusters has exactly the clusters of its mapped entries. */
  lemma {:induction false} MappedLocsAre(t: Table, loc: Loc)
    ensures loc in MappedLocs(t) <==> exists k: nat :: k < |t| && Lookup(t, k).IsMapped() && Lookup(t, k).Location() == loc
  {
    if t != [] {
      var n := |t| - 1;
      MappedLocsAre(t[..n], loc);
      assert forall k: nat :: k < n ==> Lookup(t[..n], k) == Lookup(t, k);
      if loc in MappedLocs(t) && loc !in MappedLocs(t[..n]) {
        assert Lookup(t, n).IsMapped() && Lookup(t, n).Location() == loc;
      }
    }
  }

  /** Each of them once, when no two entries share a cluster. */
  lemma {:induction false} MappedLocsDistinct(t: Table)
    requires forall k: nat, l: nat :: k < l < |t| && Lookup(t, k).IsMapped() && Lookup(t, l).IsMapped() ==>
               Lookup(t, k).Location() != Lookup(t, l).Location()
    ensures forall i, j :: 0 <= i < j < |MappedLocs(t)| ==> MappedLocs(t)[i] != MappedLocs(t)[j]
  {
    if t != [] {
      var n := |t| - 1;
      assert forall k: nat :: k < n ==> Lookup(t[..n], k) == Lookup(t, k);
      MappedLocsDistinct(t[..n]);
      if Lookup(t, n).IsMapped() {
        MappedLocsAre(t[..n], Lookup(t, n).Location());
        assert MappedLocs(t) == MappedLocs(t[..n]) + [Lookup(t, n).Location()];
      }
    }
  }

  lemma {:induction false} UnmarkAllUsed(segs: seq<Seg>, freed: seq<Loc>)
    ensures |UnmarkAll(segs, freed)| == |segs|
    ensures forall p: nat :: p < |segs| ==> UnmarkAll(segs, freed)[p].ncls == segs[p].ncls
    ensures forall p: nat, c: nat :: p < |segs| ==>
              (c in UnmarkAll(segs, freed)[p].used <==> c in segs[p].used && Loc(p, c) !in freed)
  {
    if freed != [] {
      var n := |freed| - 1;
      UnmarkAllUsed(segs, freed[..n]);
      assert freed == freed[..n] + [freed[n]];
      var mid := UnmarkAll(segs, freed[..n]);
      forall p: nat, c: nat | p < |segs|
        ensures c in UnmarkAll(segs, freed)[p].used <==> c in segs[p].used && Loc(p, c) !in freed
      {
        assert c in mid[p].used <==> c in segs[p].used && Loc(p, c) !in freed[..n];
      }
    }
  }

  lemma DestroyUses(s: State, o: nat)
    requires Inv(s) && o in s.objs
    ensures var s' := Destroyed(s, o);
      && (forall loc: Loc :: InRange(s', loc) <==> InRange(s, loc))
      && (forall loc: Loc :: IsUsed(s', loc) <==> IsUsed(s, loc) && loc !in MappedLocs(s.objs[o]))
      && (forall o2: nat, k: nat :: Ent(s', o2, k) == if o2 == o then CLEAR else Ent(s, o2, k))
  {
    var s' := Destroyed(s, o);
    UnmarkAllUsed(s.segs, MappedLocs(s.objs[o]));
    forall loc: Loc ensures IsUsed(s', loc) <==> IsUsed(s, loc) && loc !in MappedLocs(s.objs[o]) {
      assert loc == Loc(loc.ps, loc.cl);
    }
  }

  /** Destroying an object gives back its clusters and touches no other object's. */
  lemma DestroyKeeps(s: State, o: nat)
    requires Inv(s) && Enabled(s, Destroy(o))
    ensures Inv(Destroyed(s, o))
  {
    DestroyUses(s, o);
    DestroyStoreOk(s, o);
    DestroyTransfersOk(s, o);
  }

  lemma DestroyStoreOk(s: State, o: nat)
    requires Inv(s) && o in s.objs
    ensures StoreOk(Destroyed(s, o))
  {
    var s' := Destroyed(s, o);
    var locs := MappedLocs(s.objs[o]);
    DestroyUses(s, o);
    UnmarkAllUsed(s.segs, locs);
    forall o2: nat, k: nat ensures EntryOk(s', Ent(s', o2, k)) {
      assert EntryOk(s, Ent(s, o2, k));
      if o2 != o && Ent(s, o2, k).IsMapped() {
        var loc := Ent(s, o2, k).Location();
        forall k2: nat | k2 < |s.objs[o]| && Lookup(s.objs[o], k2).IsMapped()
          ensures Lookup(s.objs[o], k2).Location() != loc
        {
          assert Lookup(s.objs[o], k2) == Ent(s, o, k2);
        }
        MappedLocsAre(s.objs[o], loc);
      }
    }
    forall loc: Loc | loc in s'.lost ensures IsUsed(s', loc) {
      NotLost(s, o, loc);
    }
    forall loc: Loc | IsUsed(s', loc) && loc !in s'.lost ensures Held(s', loc) {
      assert IsUsed(s, loc);
      var o2: nat, k: nat :| Ent(s, o2, k).IsMapped() && Ent(s, o2, k).Location() == loc;
      MappedLocsAre(s.objs[o], loc);
      assert o2 != o;
      assert Ent(s', o2, k) == Ent(s, o2, k);
    }
  }

  lemma NotLost(s: State, o: nat, loc: Loc)
    requires Inv(s) && o in s.objs && loc in s.lost
    ensures loc !in MappedLocs(s.objs[o])
  {
    forall k: nat | k < |s.objs[o]| && Lookup(s.objs[o], k).IsMapped()
      ensures Lookup(s.objs[o], k).Location() != loc
    {
      assert EntryOk(s, Ent(s, o, k));
    }
    MappedLocsAre(s.objs[o], loc);
  }

  lemma DestroyTransfersOk(s: State, o: nat)
    requires Inv(s) && Enabled(s, Destroy(o))
    ensures TransfersOk(Destroyed(s, o))
  {
    var s' := Destroyed(s, o);
    DestroyUses(s, o);
    forall id | id in s'.ops ensures OpShape(s', s'.ops[id]) && OpBacked(s', s'.ops[id]) {
      assert OpShape(s, s.ops[id]) && OpBacked(s, s.ops[id]);
    }
    SparesKept(s, s');
  }
}
