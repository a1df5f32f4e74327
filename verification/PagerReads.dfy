/** A read of the pager from its mapping to its answer: whatever else happens, the pages under it stay stored, and
    what it is supplied is what the store held when it was mapped. */
module PagerReads {
  import G = Pager
  import GI = PagerInvariant
  import GR = PagerRuns
  import GS = PagerStore

  /** A step of the pager adds at most the transfer it names, ends at most the one it names, and leaves the extent
      of all others, and the data of those that write. */
  ghost predicate OpsStep(ops: map<nat, G.Op>, ops': map<nat, G.Op>, e: G.Event) {
    && (forall id :: id in ops' && id !in ops ==>
          (e.WriteMap? && e.id == id && ops'[id].Writing? && ops'[id].obj == e.obj) ||
          (e.ReadMap? && e.id == id && ops'[id].Reading? && ops'[id].obj == e.obj))
    && (forall id :: id in ops && id in ops' ==> Alike(ops'[id], ops[id]))
    && (forall id :: id in ops && id !in ops' ==>
          (e.WriteDone? && e.id == id && ops[id].Writing?) || ((e.Supply? || e.ReadFail?) && e.id == id && ops[id].Reading?))
    && (e.WriteDone? || e.Supply? || e.ReadFail? ==> e.id !in ops')
  }

  ghost predicate Alike(op: G.Op, op2: G.Op) {
    GI.SameExtent(op, op2) && (op.Writing? ==> op.data == op2.data)
  }

  lemma StepOps(g: G.State, e: G.Event)
    requires G.Enabled(g, e)
    ensures OpsStep(g.ops, G.Next(g, e).0.ops, e)
  {
  }

  /** An action on other pages leaves what is stored in this one. */
  lemma ActionLeaves(a: GS.Store, act: GS.Action, o: nat, k: nat, i: nat)
    requires (o, k, i) in a.contents
    requires act.Stored? || act.Taken? ==> !GS.InChunk((o, k, i), act.obj, act.k, act.off, |act.data|)
    requires act.Gone? ==> act.obj != o
    ensures (o, k, i) in GS.After(a, act).contents && GS.After(a, act).contents[(o, k, i)] == a.contents[(o, k, i)]
  {
  }

  /** No step but its own acts on the pages under a read. */
  lemma ActsElsewhere(g: G.State, e: G.Event, id: nat, i: nat)
    requires GI.Inv(g) && G.Enabled(g, e) && id in g.ops && g.ops[id].Reading? && !(e.Supply? && e.id == id)
    requires g.ops[id].off <= i < g.ops[id].off + g.ops[id].len
    requires e.Supply? ==> |g.ops[e.id].got.value| == g.ops[e.id].len
    ensures var act, op := GS.ActionOf(g, e), g.ops[id];
            && (act.Stored? || act.Taken? ==> !GS.InChunk((op.obj, op.k, i), act.obj, act.k, act.off, |act.data|))
            && (act.Gone? ==> act.obj != op.obj)
  {
    if (e.WriteDone? || e.Supply?) && e.id != id {
      assert !GI.Overlap(g.ops[e.id], g.ops[id]);
    }
  }

  /** A read whose pages are all stored. */
  ghost predicate Covered(g: G.State, a: GS.Store, id: nat, op: G.Op) {
    && id in g.ops && GI.SameExtent(g.ops[id], op) && op.Reading?
    && forall i: nat :: op.off <= i < op.off + op.len ==> (op.obj, op.k, i) in a.contents
  }

  /** The contents of the pages of `op` are the same. */
  ghost predicate SamePages(a: GS.Store, b: GS.Store, op: G.Op) {
    forall i: nat :: op.off <= i < op.off + op.Len() && (op.obj, op.k, i) in a.contents ==>
      (op.obj, op.k, i) in b.contents && b.contents[(op.obj, op.k, i)] == a.contents[(op.obj, op.k, i)]
  }

  /** The event does not end the transfer. */
  predicate Spares(e: G.Event, id: nat) { !((e.Supply? || e.ReadFail?) && e.id == id) }

  /** The pages under a read stay stored as they are, whatever step comes, until it is answered or fails. */
  lemma ReadPagesStay(g: G.State, a: GS.Store, e: G.Event, id: nat)
    requires GI.Inv(g) && GS.OpsAgree(g, a) && G.Enabled(g, e) && id in g.ops && g.ops[id].Reading?
    requires Spares(e, id)
    ensures id in G.Next(g, e).0.ops && GI.SameExtent(G.Next(g, e).0.ops[id], g.ops[id])
    ensures SamePages(a, GS.After(a, GS.ActionOf(g, e)), g.ops[id])
  {
    OpStays(g, e, id);
    var op, a' := g.ops[id], GS.After(a, GS.ActionOf(g, e));
    forall i: nat | op.off <= i < op.off + op.Len() && (op.obj, op.k, i) in a.contents
      ensures (op.obj, op.k, i) in a'.contents && a'.contents[(op.obj, op.k, i)] == a.contents[(op.obj, op.k, i)]
    {
      PageStays(g, a, e, id, i);
    }
  }

  lemma OpStays(g: G.State, e: G.Event, id: nat)
    requires G.Enabled(g, e) && id in g.ops && g.ops[id].Reading? && Spares(e, id)
    ensures id in G.Next(g, e).0.ops && GI.SameExtent(G.Next(g, e).0.ops[id], g.ops[id])
  {
    StepOps(g, e);
    assert id in G.Next(g, e).0.ops && Alike(G.Next(g, e).0.ops[id], g.ops[id]);
  }

  lemma PageStays(g: G.State, a: GS.Store, e: G.Event, id: nat, i: nat)
    requires GI.Inv(g) && GS.OpsAgree(g, a) && G.Enabled(g, e) && id in g.ops && g.ops[id].Reading? && !(e.Supply? && e.id == id)
    requires var op := g.ops[id]; op.off <= i < op.off + op.len && (op.obj, op.k, i) in a.contents
    ensures var p, b := (g.ops[id].obj, g.ops[id].k, i), GS.After(a, GS.ActionOf(g, e)).contents;
            p in b && b[p] == a.contents[p]
  {
    if e.Supply? {
      assert GS.OpAgrees(g, a, g.ops[e.id]);
    }
    ActsElsewhere(g, e, id, i);
    ActionLeaves(a, GS.ActionOf(g, e), g.ops[id].obj, g.ops[id].k, i);
  }

  lemma ReadOn(g: G.State, a: GS.Store, e: G.Event, id: nat, op: G.Op)
    requires GI.Inv(g) && GS.OpsAgree(g, a) && G.Enabled(g, e) && Covered(g, a, id, op) && Spares(e, id)
    ensures Covered(G.Next(g, e).0, GS.After(a, GS.ActionOf(g, e)), id, op) && SamePages(a, GS.After(a, GS.ActionOf(g, e)), op)
  {
    ReadPagesStay(g, a, e, id);
    StillCovered(g, G.Next(g, e).0, a, GS.After(a, GS.ActionOf(g, e)), id, op);
  }

  lemma StillCovered(g: G.State, g': G.State, a: GS.Store, a': GS.Store, id: nat, op: G.Op)
    requires Covered(g, a, id, op) && SamePages(a, a', g.ops[id]) && id in g'.ops && GI.SameExtent(g'.ops[id], g.ops[id])
    ensures Covered(g', a', id, op) && SamePages(a, a', op)
  {
  }

  /** From the moment a read has been mapped, along any clean path of the pager to its answer: what is supplied is
      what the store held at that moment. */
  lemma SuppliedAsMapped(states: seq<G.State>, events: seq<G.Event>, a: GS.Store, id: nat, op: G.Op)
    requires GS.CleanPath(states, events) && GI.Inv(states[0]) && GS.Refines(states[0], a) && Covered(states[0], a, id, op)
    requires forall i :: 0 <= i < |events| ==> Spares(events[i], id)
    requires G.Enabled(states[|events|], G.Supply(id))
    ensures SuppliedFrom(states[|events|], a, id, op)
  {
    SuppliedLater(states, events, 0, a, id, op);
  }

  /** The read is under way beside the store. */
  ghost predicate Reads(g: G.State, a: GS.Store, id: nat, op: G.Op) {
    GI.Inv(g) && GS.Refines(g, a) && Covered(g, a, id, op)
  }

  lemma {:induction false} SuppliedLater(states: seq<G.State>, events: seq<G.Event>, n: nat, a: GS.Store, id: nat, op: G.Op)
    requires GS.CleanPath(states, events) && n <= |events| && Reads(states[n], a, id, op)
    requires forall i :: n <= i < |events| ==> Spares(events[i], id)
    requires G.Enabled(states[|events|], G.Supply(id))
    ensures SuppliedFrom(states[|events|], a, id, op)
    decreases |events| - n
  {
    if n == |events| {
      SuppliedNow(states[n], a, id, op);
    } else {
      var a' := NextReads(states, events, n, a, id, op);
      SuppliedLater(states, events, n + 1, a', id, op);
      FromEarlier(states[|events|], a, a', id, op);
    }
  }

  lemma SuppliedNow(g: G.State, a: GS.Store, id: nat, op: G.Op)
    requires Reads(g, a, id, op) && G.Enabled(g, G.Supply(id))
    ensures SuppliedFrom(g, a, id, op)
  {
    assert GS.OpAgrees(g, a, g.ops[id]);
  }

  lemma NextReads(states: seq<G.State>, events: seq<G.Event>, n: nat, a: GS.Store, id: nat, op: G.Op) returns (a': GS.Store)
    requires GS.CleanPath(states, events) && n < |events| && Reads(states[n], a, id, op) && Spares(events[n], id)
    ensures Reads(states[n + 1], a', id, op) && SamePages(a, a', op)
    ensures forall i: nat :: op.off <= i < op.off + op.len ==> (op.obj, op.k, i) in a.contents
  {
    a' := GS.After(a, GS.ActionOf(states[n], events[n]));
    ReadOnce(states[n], a, events[n], states[n + 1], id, op);
  }

  lemma ReadOnce(g: G.State, a: GS.Store, e: G.Event, g': G.State, id: nat, op: G.Op)
    requires GI.Inv(g) && GS.Refines(g, a) && G.Enabled(g, e) && GR.Spared(g, e) && GS.Clean(g, e) && g' == G.Next(g, e).0
    requires Covered(g, a, id, op) && Spares(e, id)
    ensures var a' := GS.After(a, GS.ActionOf(g, e)); GI.Inv(g') && GS.Refines(g', a') && Covered(g', a', id, op) && SamePages(a, a', op)
  {
    GS.StepFollows(g, a, e, g');
    GR.StepKeeps(g, e);
    ReadOn(g, a, e, id, op);
  }

  /** What the read has got is what the store holds in its pages. */
  ghost predicate SuppliedFrom(g: G.State, a: GS.Store, id: nat, op: G.Op) {
    && id in g.ops && g.ops[id].Reading? && g.ops[id].got.Some? && op.Reading? && |g.ops[id].got.value| == op.len
    && forall i: nat :: op.off <= i < op.off + op.len ==>
         (op.obj, op.k, i) in a.contents && g.ops[id].got.value[i - op.off] == a.contents[(op.obj, op.k, i)]
  }

  lemma FromEarlier(g: G.State, a: GS.Store, a': GS.Store, id: nat, op: G.Op)
    requires SuppliedFrom(g, a', id, op) && SamePages(a, a', op)
    requires forall i: nat :: op.off <= i < op.off + op.len ==> (op.obj, op.k, i) in a.contents
    ensures SuppliedFrom(g, a, id, op)
  {
  }

  /** A read as it has just been mapped has all its pages in the store. */
  lemma MappedCovered(g: G.State, a: GS.Store, id: nat)
    requires GI.Inv(g) && GS.Refines(g, a) && id in g.ops && g.ops[id].Reading? && g.ops[id].got.None?
    ensures Covered(g, a, id, g.ops[id])
  {
    GS.ReadStores(g, a, id);
  }

  lemma JustMapped(g: G.State, id: nat, o: nat, page: nat, cnt: nat)
    requires G.Enabled(g, G.ReadMap(id, o, page, cnt)) && id in G.Next(g, G.ReadMap(id, o, page, cnt)).0.ops
    ensures var op := G.Next(g, G.ReadMap(id, o, page, cnt)).0.ops[id]; op.Reading? && op.got.None? && op.obj == o
  {
  }
}
