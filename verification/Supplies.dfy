/** What data requests are supplied, over every run of protocol and pager together. A read must wait for earlier writes
    because the kernel may ask for a page on the heels of a write of the same page (dp_memory_object.c:89-97): what it
    is supplied is the data of the last-numbered write of the page below it, or of a later one. */
module Supplies {
  import opened Slots
  import opened Together
  import G = Pager
  import GI = PagerInvariant
  import GR = PagerRuns
  import GS = PagerStore
  import R = PagerReads

  /** Write errors come cleanly: what PagerExact proves to be necessary. */
  ghost predicate Clean(s: State, e: Step)
    requires Enabled(s, e)
  {
    EventOf(s, e).Some? ==> GR.Spared(s.g, EventOf(s, e).value) && GS.Clean(s.g, EventOf(s, e).value)
  }

  ghost predicate CleanRun(states: seq<State>, steps: seq<Step>) {
    IsRun(states, steps) && forall i :: 0 <= i < |steps| ==> Clean(states[i], steps[i])
  }

  /** The pager takes part in a step of both by the event in it. */
  ghost function StoreAfter(s: State, a: GS.Store, e: Step): GS.Store {
    if EventOf(s, e).Some? && G.Enabled(s.g, EventOf(s, e).value) then GS.After(a, GS.ActionOf(s.g, EventOf(s, e).value)) else a
  }

  lemma NextPager(s: State, e: Step)
    requires Enabled(s, e)
    ensures Next(s, e).g == if EventOf(s, e).Some? then G.Next(s.g, EventOf(s, e).value).0 else s.g
    ensures Next(s, e).obj == s.obj
  {
  }

  lemma PagerFollows(s: State, a: GS.Store, e: Step)
    requires Enabled(s, e) && Clean(s, e) && GI.Inv(s.g) && GS.Refines(s.g, a)
    ensures GI.Inv(Next(s, e).g) && GS.Refines(Next(s, e).g, StoreAfter(s, a, e))
  {
    NextPager(s, e);
    if EventOf(s, e).Some? {
      GR.StepKeeps(s.g, EventOf(s, e).value);
      GS.StepRefines(s.g, a, EventOf(s, e).value);
    }
  }

  // ---- Which transfer stored a page ----

  /** Transfer `t` stored page `i` of cluster `c`, and none after it has. */
  ghost predicate Latest(sent: seq<Transfer>, t: nat, c: nat, i: nat) {
    && t < |sent| && sent[t].Covers(c, i) && sent[t].fate.Stored?
    && forall u: nat :: t < u < |sent| && sent[u].Covers(c, i) ==> !sent[u].fate.Stored?
  }

  type Contents = map<(nat, nat, nat), G.Content>

  /** The store has the pages on record, with the contents of the transfers on record. */
  ghost predicate Recorded(obj: nat, sent: seq<Transfer>, last: map<(nat, nat), nat>, contents: Contents) {
    forall c: nat, i: nat :: OnRecord(obj, sent, last, contents, c, i)
  }

  ghost predicate OnRecord(obj: nat, sent: seq<Transfer>, last: map<(nat, nat), nat>, contents: Contents, c: nat, i: nat) {
    && ((obj, c, i) in contents <==> (c, i) in last)
    && ((c, i) in last ==>
          var t := last[(c, i)];
          Latest(sent, t, c, i) && contents[(obj, c, i)] == sent[t].data[i - sent[t].off])
  }

  /** A page is not sent again before it is back. */
  ghost predicate Alternates(sent: seq<Transfer>) {
    forall t: nat, u: nat, c: nat, i: nat :: t < u < |sent| && sent[t].Covers(c, i) && sent[u].Covers(c, i) ==> !sent[t].fate.Out?
  }

  ghost predicate History(s: State, a: GS.Store) {
    Recorded(s.obj, s.sent, s.last, a.contents) && Alternates(s.sent)
  }

  /** The two agree on the pages of the object. */
  ghost predicate SameFor(obj: nat, a: Contents, b: Contents) {
    forall c: nat, i: nat :: ((obj, c, i) in b <==> (obj, c, i) in a) && ((obj, c, i) in a && (obj, c, i) in b ==> b[(obj, c, i)] == a[(obj, c, i)])
  }

  lemma SameRecorded(obj: nat, sent: seq<Transfer>, last: map<(nat, nat), nat>, a: Contents, b: Contents)
    requires Recorded(obj, sent, last, a) && SameFor(obj, a, b)
    ensures Recorded(obj, sent, last, b)
  {
    forall c: nat, i: nat ensures OnRecord(obj, sent, last, b, c, i) {
      assert OnRecord(obj, sent, last, a, c, i);
    }
  }

  lemma SentRecorded(obj: nat, sent: seq<Transfer>, last: map<(nat, nat), nat>, a: Contents, t: Transfer)
    requires Recorded(obj, sent, last, a) && t.fate.Out?
    ensures Recorded(obj, sent + [t], last, a)
  {
    forall c: nat, i: nat ensures OnRecord(obj, sent + [t], last, a, c, i) {
      assert OnRecord(obj, sent, last, a, c, i);
    }
  }

  lemma SentAlternates(sent: seq<Transfer>, t: Transfer)
    requires Alternates(sent)
    requires forall u: nat, c: nat, i: nat :: u < |sent| && sent[u].Covers(c, i) && t.Covers(c, i) ==> !sent[u].fate.Out?
    ensures Alternates(sent + [t])
  {
    var sent' := sent + [t];
    forall v: nat, u: nat, c: nat, i: nat | v < u < |sent'| && sent'[v].Covers(c, i) && sent'[u].Covers(c, i) ensures !sent'[v].fate.Out? {
      assert u < |sent| ==> sent'[u] == sent[u];
    }
  }

  /** The pages of a new transfer are not those of one that is out. */
  lemma NewApart(s: State, e: G.Event, t: Transfer)
    requires OpsLinked(s.g.ops, s.obj, s.sent) && G.Enabled(s.g, e) && e.WriteMap? && e.obj == s.obj
    requires e.id in G.Next(s.g, e).0.ops && OpIs(G.Next(s.g, e).0.ops, e.obj, e.id, t)
    ensures forall u: nat, c: nat, i: nat :: u < |s.sent| && s.sent[u].Covers(c, i) && t.Covers(c, i) ==> !s.sent[u].fate.Out?
  {
    SendOps(s.g, e);
    forall u: nat, c: nat, i: nat | u < |s.sent| && s.sent[u].Covers(c, i) && t.Covers(c, i) ensures !s.sent[u].fate.Out? {
      if s.sent[u].fate.Out? {
        OutOwned(s, u, c, i);
      }
    }
  }

  lemma OutOwned(s: State, u: nat, c: nat, i: nat)
    requires OpsLinked(s.g.ops, s.obj, s.sent) && u < |s.sent| && s.sent[u].fate.Out? && s.sent[u].Covers(c, i)
    ensures G.Owned(s.g, s.obj, c, i)
  {
    assert OpIs(s.g.ops, s.obj, WriteId(u), s.sent[u]);
    assert s.g.ops[WriteId(u)].Owns(s.obj, c, i);
  }

  lemma SendHistory(s: State, a: GS.Store, k: nat, page: nat, data: seq<G.Content>, mem: Memory, space: Option<Loc>, async: bool)
    requires OpsLinked(s.g.ops, s.obj, s.sent) && History(s, a) && Enabled(s, Send(k, page, data, mem, space, async))
    ensures History(Next(s, Send(k, page, data, mem, space, async)), a)
  {
    var e := SendEvent(s, page, data, mem, space);
    if e.id in G.Next(s.g, e).0.ops {
      var t := SentTransfer(s, k, e, async);
      NewApart(s, e, t);
      SentRecorded(s.obj, s.sent, s.last, a.contents, t);
      SentAlternates(s.sent, t);
    }
  }

  // ---- A transfer that completes ----

  lemma DoneAlternates(sent: seq<Transfer>, n: nat, fate: Fate)
    requires Alternates(sent) && n < |sent| && !fate.Out?
    ensures Alternates(sent[n := sent[n].(fate := fate)])
  {
    var sent' := sent[n := sent[n].(fate := fate)];
    forall t: nat, u: nat, c: nat, i: nat | t < u < |sent'| && sent'[t].Covers(c, i) && sent'[u].Covers(c, i) ensures !sent'[t].fate.Out? {
      assert sent[t].Covers(c, i) && sent[u].Covers(c, i);
    }
  }

  lemma LostRecorded(obj: nat, sent: seq<Transfer>, last: map<(nat, nat), nat>, a: Contents, n: nat)
    requires Recorded(obj, sent, last, a) && n < |sent| && sent[n].fate.Out?
    ensures Recorded(obj, sent[n := sent[n].(fate := Lost)], last, a)
  {
    var sent' := sent[n := sent[n].(fate := Lost)];
    forall c: nat, i: nat ensures OnRecord(obj, sent', last, a, c, i) {
      assert OnRecord(obj, sent, last, a, c, i);
    }
  }

  /** The store after a transfer of the object has stored its pages. */
  ghost predicate PutFor(obj: nat, t: Transfer, a: Contents, b: Contents) {
    forall c: nat, i: nat :: PutPage(obj, t, a, b, c, i)
  }

  ghost predicate PutPage(obj: nat, t: Transfer, a: Contents, b: Contents, c: nat, i: nat) {
    && ((obj, c, i) in b <==> (obj, c, i) in a || t.Covers(c, i))
    && (t.Covers(c, i) ==> b[(obj, c, i)] == t.data[i - t.off])
    && (!t.Covers(c, i) && (obj, c, i) in a ==> b[(obj, c, i)] == a[(obj, c, i)])
  }

  lemma StampIs(last: map<(nat, nat), nat>, t: Transfer, n: nat, c: nat, i: nat)
    ensures (c, i) in Stamp(last, t, n) <==> (c, i) in last || t.Covers(c, i)
    ensures t.Covers(c, i) ==> (c, i) in Stamp(last, t, n) && Stamp(last, t, n)[(c, i)] == n
    ensures !t.Covers(c, i) && (c, i) in last ==> (c, i) in Stamp(last, t, n) && Stamp(last, t, n)[(c, i)] == last[(c, i)]
  {
  }

  lemma StoredRecorded(obj: nat, sent: seq<Transfer>, last: map<(nat, nat), nat>, a: Contents, b: Contents, n: nat)
    requires Recorded(obj, sent, last, a) && Alternates(sent) && n < |sent| && sent[n].fate.Out? && PutFor(obj, sent[n], a, b)
    ensures Recorded(obj, sent[n := sent[n].(fate := Stored)], Stamp(last, sent[n], n), b)
  {
    var sent', last' := sent[n := sent[n].(fate := Stored)], Stamp(last, sent[n], n);
    forall c: nat, i: nat ensures OnRecord(obj, sent', last', b, c, i) {
      assert OnRecord(obj, sent, last, a, c, i) && PutPage(obj, sent[n], a, b, c, i);
      StampIs(last, sent[n], n, c, i);
      StoredPage(sent, n, if (c, i) in last then last[(c, i)] else n, c, i);
    }
  }

  lemma StoredPage(sent: seq<Transfer>, n: nat, t: nat, c: nat, i: nat)
    requires Alternates(sent) && n < |sent| && sent[n].fate.Out?
    ensures sent[n].Covers(c, i) ==> Latest(sent[n := sent[n].(fate := Stored)], n, c, i)
    ensures !sent[n].Covers(c, i) && Latest(sent, t, c, i) ==> Latest(sent[n := sent[n].(fate := Stored)], t, c, i)
  {
    var sent' := sent[n := sent[n].(fate := Stored)];
    assert forall u: nat :: n < u < |sent| ==> !(sent[n].Covers(c, i) && sent[u].Covers(c, i));
    assert forall u: nat :: u < |sent| && u != n ==> sent'[u] == sent[u];
  }

  lemma PutIs(a: GS.Store, obj: nat, t: Transfer)
    ensures PutFor(obj, t, a.contents, GS.Put(a, obj, t.cluster, t.off, t.data).contents)
  {
    forall c: nat, i: nat ensures PutPage(obj, t, a.contents, GS.Put(a, obj, t.cluster, t.off, t.data).contents, c, i) {
    }
  }

  /** Whether the transfer is stored depends on the error that the store knows of. */
  lemma DoneContents(s: State, a: GS.Store, n: nat, error: nat)
    requires OpsLinked(s.g.ops, s.obj, s.sent) && GS.ErrorsAgree(s.g, a) && Enabled(s, Finish(n, error))
    ensures var b := StoreAfter(s, a, Finish(n, error)).contents;
            if FateOf(s, n, error).Stored? then PutFor(s.obj, s.sent[n], a.contents, b) else b == a.contents
  {
    var t := s.sent[n];
    DoneStore(s, a, n, error);
    PutIs(a, s.obj, t);
  }

  lemma DoneStore(s: State, a: GS.Store, n: nat, error: nat)
    requires OpsLinked(s.g.ops, s.obj, s.sent) && GS.ErrorsAgree(s.g, a) && Enabled(s, Finish(n, error))
    ensures var b, t := StoreAfter(s, a, Finish(n, error)), s.sent[n];
            if FateOf(s, n, error).Stored? then b == GS.Put(a, s.obj, t.cluster, t.off, t.data) else b.contents == a.contents
  {
    assert OpIs(s.g.ops, s.obj, WriteId(n), s.sent[n]);
    assert G.Ent(s.g, s.obj, s.sent[n].cluster).error <==> (s.obj, s.sent[n].cluster) in a.bad;
  }

  lemma FinishHistory(s: State, a: GS.Store, n: nat, error: nat)
    requires OpsLinked(s.g.ops, s.obj, s.sent) && GS.ErrorsAgree(s.g, a) && History(s, a) && Enabled(s, Finish(n, error))
    ensures History(Next(s, Finish(n, error)), StoreAfter(s, a, Finish(n, error)))
  {
    var b := StoreAfter(s, a, Finish(n, error)).contents;
    DoneContents(s, a, n, error);
    DoneAlternates(s.sent, n, FateOf(s, n, error));
    if FateOf(s, n, error).Stored? {
      StoredRecorded(s.obj, s.sent, s.last, a.contents, b, n);
    } else {
      LostRecorded(s.obj, s.sent, s.last, a.contents, n);
    }
  }

  // ---- Steps of the pager ----

  /** What a step made for others does to the pages of the object: a supply takes them out, nothing else is done. */
  lemma ForeignContents(s: State, a: GS.Store, e: G.Event)
    requires OpsLinked(s.g.ops, s.obj, s.sent) && GS.OpsAgree(s.g, a) && Enabled(s, Page(e)) && !(e.Supply? && s.g.ops[e.id].obj == s.obj)
    ensures SameFor(s.obj, a.contents, GS.After(a, GS.ActionOf(s.g, e)).contents)
  {
    assert e.WriteDone? ==> !IsSent(s.sent, e.id);
  }

  lemma SupplyContents(s: State, a: GS.Store, id: nat)
    requires GS.OpsAgree(s.g, a) && G.Enabled(s.g, G.Supply(id)) && s.g.ops[id].obj == s.obj
    ensures var b, op := GS.After(a, GS.ActionOf(s.g, G.Supply(id))).contents, s.g.ops[id];
            forall c: nat, i: nat ::
              && ((s.obj, c, i) in b <==> (s.obj, c, i) in a.contents && !op.Owns(s.obj, c, i))
              && ((s.obj, c, i) in b ==> b[(s.obj, c, i)] == a.contents[(s.obj, c, i)])
  {
    assert GS.OpAgrees(s.g, a, s.g.ops[id]);
  }

  lemma TakenRecorded(obj: nat, sent: seq<Transfer>, last: map<(nat, nat), nat>, a: Contents, b: Contents, op: G.Op)
    requires Recorded(obj, sent, last, a) && op.obj == obj
    requires forall c: nat, i: nat :: (obj, c, i) in b <==> (obj, c, i) in a && !op.Owns(obj, c, i)
    requires forall c: nat, i: nat :: (obj, c, i) in b ==> b[(obj, c, i)] == a[(obj, c, i)]
    ensures Recorded(obj, sent, Unstamp(last, op), b)
  {
    forall c: nat, i: nat ensures OnRecord(obj, sent, Unstamp(last, op), b, c, i) {
      assert OnRecord(obj, sent, last, a, c, i);
    }
  }

  lemma PageHistory(s: State, a: GS.Store, e: G.Event)
    requires OpsLinked(s.g.ops, s.obj, s.sent) && GS.OpsAgree(s.g, a) && History(s, a) && Enabled(s, Page(e))
    ensures History(Next(s, Page(e)), StoreAfter(s, a, Page(e)))
  {
    if e.Supply? && s.g.ops[e.id].obj == s.obj {
      SupplyContents(s, a, e.id);
      TakenRecorded(s.obj, s.sent, s.last, a.contents, StoreAfter(s, a, Page(e)).contents, s.g.ops[e.id]);
    } else {
      ForeignContents(s, a, e);
      SameRecorded(s.obj, s.sent, s.last, a.contents, StoreAfter(s, a, Page(e)).contents);
    }
  }

  lemma StepHistory(s: State, a: GS.Store, e: Step)
    requires OpsLinked(s.g.ops, s.obj, s.sent) && GS.Refines(s.g, a) && History(s, a) && Enabled(s, e)
    ensures History(Next(s, e), StoreAfter(s, a, e))
  {
    match e
    case Serve(pe) =>
    case Send(k, page, data, mem, space, async) => SendHistory(s, a, k, page, data, mem, space, async);
    case Finish(n, error) => FinishHistory(s, a, n, error);
    case Fetch(k, id, page, cnt) => FetchHistory(s, a, k, id, page, cnt);
    case Free(k) => FreeHistory(s, a, k);
    case Page(ge) => PageHistory(s, a, ge);
  }

  lemma FetchHistory(s: State, a: GS.Store, k: nat, id: nat, page: nat, cnt: nat)
    requires History(s, a) && Enabled(s, Fetch(k, id, page, cnt))
    ensures History(Next(s, Fetch(k, id, page, cnt)), StoreAfter(s, a, Fetch(k, id, page, cnt)))
  {
    assert StoreAfter(s, a, Fetch(k, id, page, cnt)) == a;
  }

  lemma FreeHistory(s: State, a: GS.Store, k: nat)
    requires History(s, a) && Enabled(s, Free(k))
    ensures History(Next(s, Free(k)), StoreAfter(s, a, Free(k)))
  {
  }

  // ---- Every run ----

  /** What holds beside a store. */
  ghost predicate Good(s: State, a: GS.Store) {
    Inv(s) && GI.Inv(s.g) && GS.Refines(s.g, a) && History(s, a)
  }

  lemma StepGood(s: State, a: GS.Store, e: Step)
    requires Good(s, a) && Enabled(s, e) && Clean(s, e)
    ensures Good(Next(s, e), StoreAfter(s, a, e))
  {
    StepKeeps(s, e);
    PagerFollows(s, a, e);
    StepHistory(s, a, e);
  }

  lemma InitialGood(s: State)
    requires Initial(s)
    ensures Good(s, GS.Store(map[], {}))
  {
    InitialInv(s);
    GR.InitialInv(s.g);
    GS.InitialRefines(s.g);
  }

  /** The store after `n` steps of a run. */
  ghost function StoreAt(states: seq<State>, steps: seq<Step>, n: nat): GS.Store
    requires n < |states| == |steps| + 1
  {
    if n == 0 then GS.Store(map[], {}) else StoreAfter(states[n - 1], StoreAt(states, steps, n - 1), steps[n - 1])
  }

  lemma {:induction false} RunsGood(states: seq<State>, steps: seq<Step>, n: nat)
    requires CleanRun(states, steps) && n < |states|
    ensures Good(states[n], StoreAt(states, steps, n))
  {
    if n == 0 {
      InitialGood(states[0]);
    } else {
      RunsGood(states, steps, n - 1);
      OneStep(states, steps, n - 1);
      StepGood(states[n - 1], StoreAt(states, steps, n - 1), steps[n - 1]);
    }
  }

  lemma OneStep(states: seq<State>, steps: seq<Step>, n: nat)
    requires CleanRun(states, steps) && n < |steps|
    ensures Enabled(states[n], steps[n]) && Clean(states[n], steps[n]) && states[n + 1] == Next(states[n], steps[n])
  {
  }

  // ---- From a fetch to its supply ----

  predicate Ends(e: Step, id: nat) {
    e.Page? && (e.event.Supply? || e.event.ReadFail?) && e.event.id == id
  }

  lemma FetchOn(s: State, a: GS.Store, e: Step, id: nat, op: G.Op)
    requires Good(s, a) && Enabled(s, e) && R.Covered(s.g, a, id, op) && !Ends(e, id)
    ensures R.Covered(Next(s, e).g, StoreAfter(s, a, e), id, op) && R.SamePages(a, StoreAfter(s, a, e), op)
  {
    NextPager(s, e);
    if EventOf(s, e).Some? {
      R.ReadOn(s.g, a, EventOf(s, e).value, id, op);
    }
  }

  /** The read is out after `n` steps of the run, with its pages stored as they were in `a`. */
  ghost predicate StillOut(states: seq<State>, steps: seq<Step>, a: GS.Store, n: nat, id: nat, op: G.Op)
    requires n < |states| == |steps| + 1
  {
    R.Covered(states[n].g, StoreAt(states, steps, n), id, op) && R.SamePages(a, StoreAt(states, steps, n), op)
  }

  lemma OutOnce(states: seq<State>, steps: seq<Step>, a: GS.Store, n: nat, id: nat, op: G.Op)
    requires CleanRun(states, steps) && n < |steps| && !Ends(steps[n], id) && StillOut(states, steps, a, n, id, op)
    ensures StillOut(states, steps, a, n + 1, id, op)
  {
    var b, c := StoreAt(states, steps, n), StoreAt(states, steps, n + 1);
    RunsGood(states, steps, n);
    OneStep(states, steps, n);
    FetchOn(states[n], b, steps[n], id, op);
    assert c == StoreAfter(states[n], b, steps[n]);
    PagesSame(a, b, c, op);
  }

  lemma {:induction false} FetchesOn(states: seq<State>, steps: seq<Step>, a: GS.Store, m: nat, n: nat, id: nat, op: G.Op)
    requires CleanRun(states, steps) && m <= n < |states| && StillOut(states, steps, a, m, id, op)
    requires forall i :: m <= i < n ==> !Ends(steps[i], id)
    ensures StillOut(states, steps, a, n, id, op)
    decreases n - m
  {
    if m < n {
      OutOnce(states, steps, a, m, id, op);
      FetchesOn(states, steps, a, m + 1, n, id, op);
    }
  }

  lemma PagesSame(a: GS.Store, b: GS.Store, c: GS.Store, op: G.Op)
    requires R.SamePages(a, b, op) && R.SamePages(b, c, op)
    ensures R.SamePages(a, c, op)
  {
  }

  /** The transfers that a read with number `k` is supplied from: of every page it got the data of the transfer that
      stored it last, and no transfer of a write numbered below `k` was out by then. */
  ghost predicate SuppliedBy(s: State, k: nat, op: G.Op, last: map<(nat, nat), nat>) {
    && (forall u: nat :: u < |s.sent| && s.sent[u].writer < k ==> !s.sent[u].fate.Out?)
    && op.Reading? && op.got.Some? && |op.got.value| == op.len
    && forall i: nat :: op.off <= i < op.off + op.len ==>
         && (op.k, i) in last && Latest(s.sent, last[(op.k, i)], op.k, i)
         && op.got.value[i - op.off] == s.sent[last[(op.k, i)]].data[i - s.sent[last[(op.k, i)]].off]
  }

  /** Over every run of both, with any transfers of this and of other objects in between: what data request `k` is
      supplied is the data of the transfers that had stored its pages last when it mapped them, and those of the
      writes below `k` were all over. */
  lemma RequestSupplied(states: seq<State>, steps: seq<Step>, m: nat, n: nat, k: nat, id: nat, page: nat, cnt: nat)
    requires CleanRun(states, steps) && m < n < |states| && steps[m] == Fetch(k, id, page, cnt) && id in states[m + 1].g.ops
    requires forall i :: m < i < n ==> !Ends(steps[i], id)
    requires G.Enabled(states[n].g, G.Supply(id))
    ensures SuppliedBy(states[m], k, states[n].g.ops[id], states[m].last)
  {
    FetchRun(states, steps, m, n, k, id, page, cnt);
    RecordedAt(states, steps, m);
    RecordedAt(states, steps, n);
    Supplied(states[m], StoreAt(states, steps, m), states[n], StoreAt(states, steps, n), k, id, states[m + 1].g.ops[id]);
  }

  lemma RecordedAt(states: seq<State>, steps: seq<Step>, n: nat)
    requires CleanRun(states, steps) && n < |states|
    ensures Recorded(states[n].obj, states[n].sent, states[n].last, StoreAt(states, steps, n).contents)
    ensures GS.OpsAgree(states[n].g, StoreAt(states, steps, n))
  {
    RunsGood(states, steps, n);
  }

  /** From step `m` on, which maps it, the read has its pages as they were stored before. */
  lemma FetchRun(states: seq<State>, steps: seq<Step>, m: nat, n: nat, k: nat, id: nat, page: nat, cnt: nat)
    requires CleanRun(states, steps) && m < n < |states| && steps[m] == Fetch(k, id, page, cnt) && id in states[m + 1].g.ops
    requires forall i :: m < i < n ==> !Ends(steps[i], id)
    ensures states[m + 1].g.ops[id].obj == states[m].obj
    ensures R.Covered(states[m + 1].g, StoreAt(states, steps, m), id, states[m + 1].g.ops[id])
    ensures StillOut(states, steps, StoreAt(states, steps, m), n, id, states[m + 1].g.ops[id])
    ensures forall u: nat :: u < |states[m].sent| && states[m].sent[u].writer < k ==> !states[m].sent[u].fate.Out?
  {
    RunsGood(states, steps, m);
    OneStep(states, steps, m);
    FetchStarts(states[m], StoreAt(states, steps, m), k, id, page, cnt);
    FetchesOn(states, steps, StoreAt(states, steps, m), m + 1, n, id, states[m + 1].g.ops[id]);
  }

  lemma Supplied(s: State, a: GS.Store, s': State, b: GS.Store, k: nat, id: nat, op: G.Op)
    requires Recorded(s.obj, s.sent, s.last, a.contents) && R.Covered(s'.g, b, id, op) && R.SamePages(a, b, op) && op.obj == s.obj
    requires forall i: nat :: op.off <= i < op.off + op.len ==> (op.obj, op.k, i) in a.contents
    requires GS.OpsAgree(s'.g, b) && G.Enabled(s'.g, G.Supply(id))
    requires forall u: nat :: u < |s.sent| && s.sent[u].writer < k ==> !s.sent[u].fate.Out?
    ensures SuppliedBy(s, k, s'.g.ops[id], s.last)
  {
    assert GS.OpAgrees(s'.g, b, s'.g.ops[id]);
    GotFrom(s, a, b, k, op, s'.g.ops[id]);
  }

  lemma FetchStarts(s: State, a: GS.Store, k: nat, id: nat, page: nat, cnt: nat)
    requires Good(s, a) && Enabled(s, Fetch(k, id, page, cnt)) && id in Next(s, Fetch(k, id, page, cnt)).g.ops
    ensures var s' := Next(s, Fetch(k, id, page, cnt));
            && StoreAfter(s, a, Fetch(k, id, page, cnt)) == a && R.Covered(s'.g, a, id, s'.g.ops[id]) && s'.g.ops[id].obj == s.obj
    ensures forall u: nat :: u < |s.sent| && s.sent[u].writer < k ==> !s.sent[u].fate.Out?
  {
    EarlierWritesOver(s, k);
    GS.ReadMapRefines(s.g, a, id, s.obj, page, cnt);
    GR.ReadMapKeeps(s.g, id, s.obj, page, cnt);
    R.JustMapped(s.g, id, s.obj, page, cnt);
    R.MappedCovered(Next(s, Fetch(k, id, page, cnt)).g, a, id);
  }

  lemma GotFrom(s: State, a: GS.Store, b: GS.Store, k: nat, op: G.Op, op2: G.Op)
    requires Recorded(s.obj, s.sent, s.last, a.contents) && R.SamePages(a, b, op) && GI.SameExtent(op2, op) && op.Reading? && op.obj == s.obj
    requires forall i: nat :: op.off <= i < op.off + op.len ==> (op.obj, op.k, i) in a.contents
    requires op2.got.Some? && |op2.got.value| == op2.len
    requires forall i: nat :: op2.off <= i < op2.off + op2.len ==>
               (op2.obj, op2.k, i) in b.contents && b.contents[(op2.obj, op2.k, i)] == op2.got.value[i - op2.off]
    requires forall u: nat :: u < |s.sent| && s.sent[u].writer < k ==> !s.sent[u].fate.Out?
    ensures SuppliedBy(s, k, op2, s.last)
  {
    forall i: nat | op2.off <= i < op2.off + op2.len
      ensures (op2.k, i) in s.last && Latest(s.sent, s.last[(op2.k, i)], op2.k, i)
      ensures op2.got.value[i - op2.off] == s.sent[s.last[(op2.k, i)]].data[i - s.sent[s.last[(op2.k, i)]].off]
    {
      assert (s.obj, op.k, i) in a.contents && OnRecord(s.obj, s.sent, s.last, a.contents, op.k, i);
    }
  }

  // ---- In the order of the requests ----

  /** What the kernel sees to: it sends a page again only when it has it back, so writes of one page come in order. */
  ghost predicate InOrder(sent: seq<Transfer>) {
    forall t: nat, u: nat, c: nat, i: nat :: t < u < |sent| && sent[t].Covers(c, i) && sent[u].Covers(c, i) ==> sent[t].writer <= sent[u].writer
  }

  /** Then the data supplied for a page is that of the last-numbered of the writes below `k` that were stored there, or
      of a later write. */
  lemma LastWriteSupplied(states: seq<State>, steps: seq<Step>, m: nat, n: nat, k: nat, id: nat, page: nat, cnt: nat, i: nat)
    requires CleanRun(states, steps) && m < n < |states| && steps[m] == Fetch(k, id, page, cnt) && id in states[m + 1].g.ops
    requires forall j :: m < j < n ==> !Ends(steps[j], id)
    requires G.Enabled(states[n].g, G.Supply(id)) && InOrder(states[m].sent)
    requires states[n].g.ops[id].off <= i < states[n].g.ops[id].off + states[n].g.ops[id].Len()
    ensures LastBelow(states[m].sent, k, states[n].g.ops[id], i)
  {
    RequestSupplied(states, steps, m, n, k, id, page, cnt);
    SuppliedLast(states[m], k, states[n].g.ops[id], states[m].last, i);
  }

  lemma SuppliedLast(s: State, k: nat, op: G.Op, last: map<(nat, nat), nat>, i: nat)
    requires SuppliedBy(s, k, op, last) && InOrder(s.sent) && op.off <= i < op.off + op.len
    ensures LastBelow(s.sent, k, op, i)
  {
    assert Latest(s.sent, last[(op.k, i)], op.k, i);
    LatestBelow(s.sent, k, op, i, last[(op.k, i)]);
  }

  /** The content of page `i` is the data of a write, and all stored writes of the page below `k` have no higher number. */
  ghost predicate LastBelow(sent: seq<Transfer>, k: nat, op: G.Op, i: nat)
    requires op.Reading? && op.got.Some? && op.off <= i < op.off + op.len
  {
    |op.got.value| == op.len &&
    exists t: nat :: t < |sent| && sent[t].Covers(op.k, i) && sent[t].fate.Stored?
      && op.got.value[i - op.off] == sent[t].data[i - sent[t].off]
      && forall u: nat :: u < |sent| && sent[u].Covers(op.k, i) && sent[u].writer < k ==> sent[u].fate.Lost? || sent[u].writer <= sent[t].writer
  }

  lemma LatestBelow(sent: seq<Transfer>, k: nat, op: G.Op, i: nat, t: nat)
    requires op.Reading? && op.got.Some? && op.off <= i < op.off + op.len == op.off + |op.got.value|
    requires Latest(sent, t, op.k, i) && InOrder(sent) && op.got.value[i - op.off] == sent[t].data[i - sent[t].off]
    requires forall u: nat :: u < |sent| && sent[u].writer < k ==> !sent[u].fate.Out?
    ensures LastBelow(sent, k, op, i)
  {
    forall u: nat | u < |sent| && sent[u].Covers(op.k, i) && sent[u].writer < k ensures sent[u].fate.Lost? || sent[u].writer <= sent[t].writer {
      assert sent[u].fate.Stored? ==> u <= t;
    }
  }

  /** Pages said to be unavailable have not been stored, or have been supplied since. */
  ghost predicate Truly(last: map<(nat, nat), nat>, out: G.Output) {
    out.Unavailable? ==> out.len > 0 && forall i: nat :: out.off <= i < out.off + out.len ==> (out.k, i) !in last
  }

  /** What a request is told is so. */
  lemma RequestUnavailable(states: seq<State>, steps: seq<Step>, m: nat, k: nat, id: nat, page: nat, cnt: nat)
    requires CleanRun(states, steps) && m < |steps| && steps[m] == Fetch(k, id, page, cnt)
    ensures Truly(states[m].last, G.Next(states[m].g, G.ReadMap(id, states[m].obj, page, cnt)).1)
  {
    RunsGood(states, steps, m);
    OneStep(states, steps, m);
    Told(states[m], StoreAt(states, steps, m), id, page, cnt);
  }

  lemma Told(s: State, a: GS.Store, id: nat, page: nat, cnt: nat)
    requires Recorded(s.obj, s.sent, s.last, a.contents) && GI.Inv(s.g) && GS.Refines(s.g, a) && G.Enabled(s.g, G.ReadMap(id, s.obj, page, cnt))
    ensures Truly(s.last, G.Next(s.g, G.ReadMap(id, s.obj, page, cnt)).1)
  {
    GS.ReadMapRefines(s.g, a, id, s.obj, page, cnt);
    AnswersObject(s.g, id, s.obj, page, cnt);
    assert forall c: nat, i: nat :: (c, i) in s.last && (s.obj, c, i) !in a.contents ==> !OnRecord(s.obj, s.sent, s.last, a.contents, c, i);
  }

  lemma AnswersObject(g: G.State, id: nat, o: nat, page: nat, cnt: nat)
    requires G.Enabled(g, G.ReadMap(id, o, page, cnt))
    ensures var out := G.Next(g, G.ReadMap(id, o, page, cnt)).1; out.Unavailable? ==> out.obj == o
  {
  }
}
