/** The pager's invariant over every run of interleaved steps, write errors included. One kind of step
    can break it, and exactly when is said here: a write error that was recorded for pages of a cluster
    whose allocated pages are all being read. */
module PagerRuns {
  import opened PagingSegments
  import opened Slots
  import opened Pager
  import opened PagerInvariant
  import opened PagerSteps

  ghost predicate Initial(s: State) {
    && s.cs > 0 && s.objs == map[] && s.ops == map[] && s.lost == {}
    && forall p: nat :: p < |s.segs| ==> s.segs[p].used == {} && s.segs[p].ncls <= VSM_ENTRY_NULL
  }

  lemma InitialInv(s: State)
    requires Initial(s)
    ensures Inv(s)
  {
    assert forall o: nat, k: nat :: Ent(s, o, k) == CLEAR;
  }

  lemma WriteMapKeeps(s: State, id: nat, o: nat, page: nat, data: seq<Content>, mem: Memory, space: Option<Loc>)
    requires Inv(s) && Enabled(s, WriteMap(id, o, page, data, mem, space))
    ensures Inv(Next(s, WriteMap(id, o, page, data, mem, space)).0)
  {
    ClmapEffect(s.objs[o], s.cs, page, Alloc, |data|, 0, mem, space);
    WriteRoundKeeps(s, id, o, page, data, space, Clmap(s.objs[o], s.cs, page, Alloc, |data|, 0, mem, space));
  }

  /** A write error on a cluster leaves it an allocated page that is not being read, unless there are
      no reads of it, or it is in error already. A completed write has such a page: its own. */
  ghost predicate Spared(s: State, e: Event)
    requires Enabled(s, e)
  {
    match e
    case FailMark(o, page, cnt, error) =>
      var k := page / s.cs;
      Ent(s, o, k).error || (forall id :: !ReadingAt(s, id, o, k)) || exists q: nat :: Spare(s, o, k, q)
    case _ => true
  }

  /** Recording an error for pages that did not reach the device keeps the invariant exactly then. */
  lemma FailMarkKeepsIff(s: State, o: nat, page: nat, cnt: nat, error: nat)
    requires Inv(s) && Enabled(s, FailMark(o, page, cnt, error))
    ensures Inv(Next(s, FailMark(o, page, cnt, error)).0) <==> Spared(s, FailMark(o, page, cnt, error))
  {
    var e := FailMark(o, page, cnt, error);
    var out := CompleteCall(s, o, page, cnt, error);
    ClmapEffect(s.objs[o], s.cs, page, Find, cnt, error, NOMEM, None);
    if Spared(s, e) {
      ErrorKeeps(s, o, page / s.cs, page % s.cs, cnt, error, out);
    } else {
      FailMarkOutcome(s, o, page, cnt, error);
      NoSpares(s, Next(s, e).0, o, page / s.cs);
    }
  }

  /** The entry of a cluster that is being read goes into error with its pages, and keeps its transfers. */
  lemma FailMarkOutcome(s: State, o: nat, page: nat, cnt: nat, error: nat)
    requires Inv(s) && Enabled(s, FailMark(o, page, cnt, error)) && !Spared(s, FailMark(o, page, cnt, error))
    ensures var s' := Next(s, FailMark(o, page, cnt, error)).0;
            var e := Ent(s, o, page / s.cs);
            && e.IsMapped() && Ent(s', o, page / s.cs) == SetErr(e, error) && OnlyEntry(s, s', o, page / s.cs)
            && s'.ops == s.ops && s'.disk == s.disk && s'.cs == s.cs && s'.objs.Keys == s.objs.Keys
            && forall o2 :: o2 in s'.objs ==> WellFormed(s'.objs[o2])
  {
    var k := page / s.cs;
    var id :| ReadingAt(s, id, o, k);
    assert OpBacked(s, s.ops[id]);
    var out := CompleteCall(s, o, page, cnt, error);
    ClmapEffect(s.objs[o], s.cs, page, Find, cnt, error, NOMEM, None);
    EntAfter(s, o, k, out.table, Next(s, FailMark(o, page, cnt, error)).0);
  }

  lemma NoSpares(s: State, s': State, o: nat, k: nat)
    requires (exists id :: ReadingAt(s, id, o, k)) && (forall q: nat :: !Spare(s, o, k, q)) && s'.ops == s.ops
    requires Ent(s', o, k).error && Ent(s', o, k).alloc == Ent(s, o, k).alloc
    ensures !ErrorsSpare(s')
  {
    var id :| ReadingAt(s, id, o, k);
    assert ReadingAt(s', id, o, k);
    forall q: nat ensures !Spare(s', o, k, q) {
      if Spare(s', o, k, q) {
        forall id2 | ReadingAt(s, id2, o, k) ensures !s.ops[id2].Owns(o, k, q) {
          assert ReadingAt(s', id2, o, k);
        }
        assert Spare(s, o, k, q);
      }
    }
  }

  lemma ReadMapKeeps(s: State, id: nat, o: nat, page: nat, cnt: nat)
    requires Inv(s) && Enabled(s, ReadMap(id, o, page, cnt))
    ensures Inv(Next(s, ReadMap(id, o, page, cnt)).0)
  {
    ClmapEffect(s.objs[o], s.cs, page, Find, 0, 0, NOMEM, None);
    ReadRoundKeeps(s, id, o, page, cnt, Clmap(s.objs[o], s.cs, page, Find, 0, 0, NOMEM, None));
  }

  lemma IssueKeeps(s: State, id: nat)
    requires Inv(s) && Enabled(s, Issue(id))
    ensures Inv(Issued(s, id))
  {
    SameEntries(s, Issued(s, id));
    EndOrAdvance(s, Issued(s, id));
  }

  lemma ReadDeviceKeeps(s: State, id: nat)
    requires Inv(s) && Enabled(s, ReadDevice(id))
    ensures Inv(DeviceRead(s, id))
  {
    SameEntries(s, DeviceRead(s, id));
    EndOrAdvance(s, DeviceRead(s, id));
  }

  lemma SameEntries(s: State, s': State)
    requires Shapes(s) && s'.objs == s.objs && s'.segs == s.segs && s'.lost == s.lost && s'.cs == s.cs
    ensures SameEnts(s, s')
  {
  }

  /** Every step keeps the invariant, but for an error that leaves a cluster no spare page. */
  lemma StepKeeps(s: State, e: Event)
    requires Inv(s) && Enabled(s, e) && Spared(s, e)
    ensures Inv(Next(s, e).0)
  {
    match e
    case Create(o, size) => CreateKeeps(s, o, size);
    case Destroy(o) => DestroyKeeps(s, o);
    case WriteMap(id, o, page, data, mem, space) => WriteMapKeeps(s, id, o, page, data, mem, space);
    case Issue(id) => IssueKeeps(s, id);
    case WriteDone(id, error) => WriteDoneKeeps(s, id, error);
    case FailMark(o, page, cnt, error) => FailMarkKeepsIff(s, o, page, cnt, error);
    case ReadMap(id, o, page, cnt) => ReadMapKeeps(s, id, o, page, cnt);
    case ReadDevice(id) => ReadDeviceKeeps(s, id);
    case ReadFail(id) => EndTransfer(s, id);
    case Supply(id) => SupplyKeeps(s, id);
  }

  ghost predicate Leads(s: State, e: Event, s': State) {
    Enabled(s, e) && Next(s, e).0 == s'
  }

  /** A run from any state. */
  ghost predicate IsPath(states: seq<State>, events: seq<Event>) {
    && |states| == |events| + 1
    && forall i :: 0 <= i < |events| ==> Enabled(states[i], events[i]) && states[i + 1] == Next(states[i], events[i]).0
  }

  ghost predicate IsRun(states: seq<State>, events: seq<Event>) {
    IsPath(states, events) && Initial(states[0])
  }

  ghost predicate SparedPath(states: seq<State>, events: seq<Event>) {
    IsPath(states, events) && forall i :: 0 <= i < |events| ==> Spared(states[i], events[i])
  }

  /** Along every path, on any number of objects and segments. */
  lemma {:induction false} PathsKeep(states: seq<State>, events: seq<Event>)
    requires SparedPath(states, events) && Inv(states[0])
    ensures forall i :: 0 <= i < |states| ==> Inv(states[i])
  {
    if events != [] {
      var n := |events| - 1;
      PathsKeep(states[..n + 1], events[..n]);
      assert states[n] == states[..n + 1][n];
      StepKeeps(states[n], events[n]);
      forall i | 0 <= i < |states| ensures Inv(states[i]) {
        assert i <= n ==> states[i] == states[..n + 1][i];
      }
    }
  }

  /** In every reachable state of every run. */
  lemma RunsKeep(states: seq<State>, events: seq<Event>)
    requires IsRun(states, events) && SparedPath(states, events)
    ensures forall i :: 0 <= i < |states| ==> Inv(states[i])
  {
    InitialInv(states[0]);
    PathsKeep(states, events);
  }

  /** A write error gives a cluster back exactly if the entry names one with a number other than 0;
      and then that one, which is in use. */
  lemma ErrorFreesHeld(s: State, o: nat, page: nat, cnt: nat, error: nat)
    requires Inv(s) && Live(s, o) && cnt > 0
    ensures var e, freed := Ent(s, o, page / s.cs), CompleteCall(s, o, page, cnt, error).freed;
      && (freed.Some? <==> error > 0 && e.IsMapped() && e.entry != 0)
      && (freed.Some? ==> IsUsed(s, freed.value) && e.Location() == freed.value)
  {
    ClmapEffect(s.objs[o], s.cs, page, Find, cnt, error, NOMEM, None);
    assert EntryOk(s, Ent(s, o, page / s.cs));
  }

  /** A read gives back nothing, or the cluster it read from, still in use; unless a write error has hit
      the cluster and the read covers all its allocated pages. Exactly then the error code is taken for
      the number of a cluster. */
  lemma ReadFreesHeldIff(s: State, id: nat)
    requires StoreOk(s) && OpsOk(s) && id in s.ops && s.ops[id].Reading?
    ensures var op := s.ops[id];
            var e, freed := Ent(s, op.obj, op.k), UnmapCall(s, op).freed;
            var all := e.error && e.alloc <= Pages(op.off, op.off + op.len);
      && ((freed == [] || (freed == [op.at] && IsUsed(s, op.at) && !e.error)) <==> !all)
      && (all ==> freed == [Loc(e.psindex, e.entry)])
  {
    var op := s.ops[id];
    var e := Ent(s, op.obj, op.k);
    UnmapCallEffect(s, id);
    assert OpBacked(s, op) && EntryOk(s, e);
    assert ClearPages(e, op.off, op.len).alloc == {} <==> e.alloc <= Pages(op.off, op.off + op.len);
  }

  /** Under the invariant that does not happen. */
  lemma ReadFreesHeld(s: State, id: nat)
    requires Inv(s) && id in s.ops && s.ops[id].Reading?
    ensures var freed := UnmapCall(s, s.ops[id]).freed;
      freed == [] || (freed == [s.ops[id].at] && IsUsed(s, s.ops[id].at) && !Ent(s, s.ops[id].obj, s.ops[id].k).error)
  {
    ReadFreesHeldIff(s, id);
    UnmapOutcome(s, id);
  }
}
