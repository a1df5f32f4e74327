/** That the two conditions on write errors are exact. From a state in which an error does not come
    cleanly there is a way on, without any further error, on which the pager stops behaving as a store;
    and from one in which it spares no page of what is being read, a way on which an error code is taken
    for the number of a cluster. */
module PagerExact {
  import opened Division
  import opened PagingSegments
  import opened Slots
  import opened Pager
  import opened PagerInvariant
  import opened PagerSteps
  import opened PagerRuns
  import opened PagerStore

  predicate IsError(e: Event) { e.FailMark? || (e.WriteDone? && e.error > 0) }

  ghost predicate ErrorFree(states: seq<State>, events: seq<Event>) {
    IsPath(states, events) && forall i :: 0 <= i < |events| ==> !IsError(events[i])
  }

  lemma ErrorFreeIsClean(states: seq<State>, events: seq<Event>)
    requires ErrorFree(states, events)
    ensures CleanPath(states, events)
  {
  }

  lemma PathCons(s: State, e: Event, states: seq<State>, events: seq<Event>)
    requires Enabled(s, e) && !IsError(e) && ErrorFree(states, events) && states[0] == Next(s, e).0
    ensures ErrorFree([s] + states, [e] + events)
  {
    var ss, es := [s] + states, [e] + events;
    forall i | 0 <= i < |es| ensures Enabled(ss[i], es[i]) && ss[i + 1] == Next(ss[i], es[i]).0 && !IsError(es[i]) {
      assert i > 0 ==> ss[i] == states[i - 1] && es[i] == events[i - 1] && ss[i + 1] == states[i];
    }
  }

  // ---- Ways on which no store follows ----

  ghost predicate Untracked(a: Store, states: seq<State>, events: seq<Event>) {
    forall stores :: Tracks(stores, states, events) ==> stores[0] != a
  }

  /** Some way on from here, without any error, is not that of the store. */
  ghost predicate Doomed(s: State, a: Store) {
    exists states, events :: ErrorFree(states, events) && states[0] == s && Untracked(a, states, events)
  }

  /** An action leaves the store only one way. */
  lemma AllowedAfter(a: Store, act: Action, a': Store)
    requires Allowed(a, act, a')
    ensures a' == After(a, act)
  {
  }

  lemma DoomedStep(s: State, a: Store, e: Event)
    requires Enabled(s, e) && !IsError(e) && Doomed(Next(s, e).0, After(a, ActionOf(s, e)))
    ensures Doomed(s, a)
  {
    var a1 := After(a, ActionOf(s, e));
    var states, events :| ErrorFree(states, events) && states[0] == Next(s, e).0 && Untracked(a1, states, events);
    PathCons(s, e, states, events);
    var ss, es := [s] + states, [e] + events;
    forall stores | Tracks(stores, ss, es) ensures stores[0] != a {
      if stores[0] == a {
        TracksTail(stores, s, e, states, events);
      }
    }
  }

  lemma TracksTail(stores: seq<Store>, s: State, e: Event, states: seq<State>, events: seq<Event>)
    requires Enabled(s, e) && Tracks(stores, [s] + states, [e] + events)
    ensures Tracks(stores[1..], states, events) && stores[1..][0] == After(stores[0], ActionOf(s, e))
  {
    var ss, es := [s] + states, [e] + events;
    assert StoreStep(stores[0], ss[0], es[0], stores[1]);
    AllowedAfter(stores[0], ActionOf(s, e), stores[1]);
    forall i | 0 <= i < |events| ensures StoreStep(stores[1..][i], states[i], events[i], stores[1..][i + 1]) {
      assert StoreStep(stores[i + 1], ss[i + 1], es[i + 1], stores[i + 2]);
    }
  }

  lemma DoomedNow(s: State, a: Store, e: Event)
    requires Enabled(s, e) && !IsError(e) && forall a' :: !Allowed(a, ActionOf(s, e), a')
    ensures Doomed(s, a)
  {
    var states, events := [s, Next(s, e).0], [e];
    assert ErrorFree(states, events);
    forall stores | Tracks(stores, states, events) ensures stores[0] != a {
      assert StoreStep(stores[0], states[0], events[0], stores[1]);
    }
  }

  /** Where the pager refines the store it is not doomed. */
  lemma NotDoomed(s: State, a: Store)
    requires Inv(s) && Refines(s, a)
    ensures !Doomed(s, a)
  {
    forall states, events | ErrorFree(states, events) && states[0] == s ensures !Untracked(a, states, events) {
      ErrorFreeIsClean(states, events);
      var stores := PathsRefine(states, events, a);
    }
  }

  // ---- An object that takes the cluster given back ----

  ghost function Bound(xs: set<nat>): (b: nat)
    ensures forall x :: x in xs ==> x < b
  {
    if xs == {} then 0
    else
      var x :| x in xs;
      var r := Bound(xs - {x});
      assert forall y :: y in xs ==> y == x || y in xs - {x};
      if x < r then r else x + 1
  }

  lemma Fresh(xs: set<nat>) returns (n: nat)
    ensures n !in xs
  {
    n := Bound(xs);
  }

  const MEM: Memory := Memory(true, true, true)

  /** The entry of the newcomer's only cluster, with one page written or not. */
  function Mine(at: Loc, p: nat, written: bool): Entry {
    Entry(at.cl, at.ps, false, if written then {p} else {}, {p})
  }

  function Taker(o: nat, p: nat, x: Content, at: Loc, issued: bool): Op { Writing(o, p, 0, p, [x], at, issued) }

  /** There is room for the newcomer: object `o`, with transfer `id`, takes cluster `at` to write page `p`. */
  ghost predicate Room(s: State, o: nat, id: nat, at: Loc, p: nat) {
    && p < s.cs && o !in s.objs && id !in s.ops && InRange(s, at) && !IsUsed(s, at) && at.cl < VSM_ENTRY_NULL
    && forall id2 :: id2 in s.ops ==> s.ops[id2].obj != o
  }

  /** The state once the newcomer has written `x` to its page. */
  function WithPage(s: State, o: nat, at: Loc, p: nat, x: Content): State {
    s.(objs := s.objs[o := [Some(Mine(at, p, true))]], segs := Mark(s.segs, at), disk := s.disk[(at, p) := x])
  }

  function Claiming(s: State, o: nat, id: nat, at: Loc, p: nat, x: Content): State {
    s.(objs := s.objs[o := [Some(Mine(at, p, false))]], segs := Mark(s.segs, at), ops := s.ops[id := Taker(o, p, x, at, false)])
  }

  lemma SmallPage(p: nat, cs: nat)
    requires p < cs
    ensures p / cs == 0 && p % cs == p
  {
  }

  lemma Claims(s: State, o: nat, id: nat, at: Loc, p: nat, x: Content)
    requires Room(s, o, id, at, p)
    ensures Enabled(s, Create(o, 1)) && Enabled(Created(s, o, 1), WriteMap(id, o, p, [x], MEM, Some(at)))
    ensures Next(Created(s, o, 1), WriteMap(id, o, p, [x], MEM, Some(at))).0 == Claiming(s, o, id, at, p, x)
  {
    var s1 := Created(s, o, 1);
    SmallPage(p, s.cs);
    assert s1.objs[o] == [Some(CLEAR)];
    assert ChunkFree(s1, o, p, 1);
    assert {} + Pages(p, Min(p + 1, s.cs)) == {p};
    var out := Clmap([Some(CLEAR)], s.cs, p, Alloc, 1, 0, MEM, Some(at));
    assert out.table == [Some(Mine(at, p, false))] && out.asked && out.reply.Found? && out.reply.at == at;
    assert [x][..1] == [x];
    assert s1.objs[o := out.table] == s.objs[o := out.table];
  }

  /** The device has the write, and the completion makes the page valid. */
  lemma Writes(s: State, o: nat, id: nat, at: Loc, p: nat, x: Content)
    requires Room(s, o, id, at, p)
    ensures var t := Claiming(s, o, id, at, p, x);
            && Enabled(t, Issue(id)) && Enabled(Issued(t, id), WriteDone(id, 0))
            && Next(Issued(t, id), WriteDone(id, 0)).0 == WithPage(s, o, at, p, x)
            && ActionOf(Issued(t, id), WriteDone(id, 0)) == Stored(o, 0, p, [x])
  {
    var t := Claiming(s, o, id, at, p, x);
    IssueOne(t, id, x);
    SmallPage(p, s.cs);
    assert {} + Pages(p, p + 1) == {p};
    var out := Clmap([Some(Mine(at, p, false))], s.cs, p, Find, 1, 0, NOMEM, None);
    assert out.table == [Some(Mine(at, p, true))] && out.freed == None;
    assert t.objs[o := out.table] == s.objs[o := out.table];
    assert t.ops[id := Taker(o, p, x, at, true)] - {id} == s.ops;
  }

  lemma IssueOne(s: State, id: nat, x: Content)
    requires id in s.ops && s.ops[id].Writing? && s.ops[id].data == [x]
    ensures var op := s.ops[id];
      Issued(s, id) == s.(disk := s.disk[(op.at, op.off) := x], ops := s.ops[id := op.(issued := true)])
  {
    var op := s.ops[id];
    assert [x][..0] == [];
    assert WriteDisk(s.disk, op.at, op.off, []) == s.disk;
    assert WriteDisk(s.disk, op.at, op.off, [x]) == s.disk[(op.at, op.off) := x];
  }

  /** Whatever is doomed once the newcomer has written its page is doomed before. */
  lemma TakenDooms(s: State, a: Store, o: nat, id: nat, at: Loc, p: nat, x: Content)
    requires Room(s, o, id, at, p) && (o, 0) !in a.bad && Doomed(WithPage(s, o, at, p, x), Put(a, o, 0, p, [x]))
    ensures Doomed(s, a)
  {
    Claims(s, o, id, at, p, x);
    WrittenDooms(s, a, o, id, at, p, x);
    DoomedStep(Created(s, o, 1), a, WriteMap(id, o, p, [x], MEM, Some(at)));
    DoomedStep(s, a, Create(o, 1));
  }

  lemma WrittenDooms(s: State, a: Store, o: nat, id: nat, at: Loc, p: nat, x: Content)
    requires Room(s, o, id, at, p) && (o, 0) !in a.bad && Doomed(WithPage(s, o, at, p, x), Put(a, o, 0, p, [x]))
    ensures Doomed(Claiming(s, o, id, at, p, x), a)
  {
    Writes(s, o, id, at, p, x);
    var t := Claiming(s, o, id, at, p, x);
    DoomedStep(Issued(t, id), a, WriteDone(id, 0));
    DoomedStep(t, a, Issue(id));
  }

  // ---- A write that is still to go to the disk ----

  /** The late write goes over the newcomer's page, which is then supplied with the wrong content. */
  lemma LateWrite(s: State, a: Store, o: nat, id: nat, at: Loc, p: nat, x: Content, late: nat)
    requires Room(s, o, id, at, p) && late in s.ops && s.ops[late].Writing? && !s.ops[late].issued
    requires s.ops[late].at == at && s.ops[late].off == p && s.ops[late].data != [] && s.ops[late].data[0] != x
    ensures Doomed(WithPage(s, o, at, p, x), Put(a, o, 0, p, [x]))
  {
    var b := Put(a, o, 0, p, [x]);
    var s1 := WithPage(s, o, at, p, x);
    var s2 := Issued(s1, late);
    var y := s.ops[late].data[0];
    assert (at, p) in s2.disk && s2.disk[(at, p)] == y;
    assert b.contents[(o, 0, p)] == x;
    WrongPageDooms(s2, b, o, id, at, p, y);
    DoomedStep(s1, b, Issue(late));
  }

  /** The newcomer's page is not on the disk as it was stored. */
  lemma WrongPageDooms(s: State, b: Store, o: nat, id: nat, at: Loc, p: nat, y: Content)
    requires p < s.cs && at.cl < VSM_ENTRY_NULL && o in s.objs && s.objs[o] == [Some(Mine(at, p, true))] && id !in s.ops
    requires (at, p) in s.disk && s.disk[(at, p)] == y && forall id2 :: id2 in s.ops ==> s.ops[id2].obj != o
    requires (o, 0, p) in b.contents && b.contents[(o, 0, p)] != y
    ensures Doomed(s, b)
  {
    ReadsBack(s, o, id, at, p, y);
    var op := Reading(o, p, 0, p, 1, at, None);
    var s1 := s.(ops := s.ops[id := op]);
    var s2 := s.(ops := s.ops[id := op.(got := Some([y]))]);
    WrongContent(b, o, 0, p, [y], 0);
    DoomedNow(s2, b, Supply(id));
    DoomedStep(s1, b, ReadDevice(id));
    DoomedStep(s, b, ReadMap(id, o, p, 1));
  }

  lemma WrongContent(b: Store, o: nat, k: nat, off: nat, data: seq<Content>, i: nat)
    requires i < |data| && ((o, k, off + i) in b.contents ==> b.contents[(o, k, off + i)] != data[i])
    ensures forall b' :: !Allowed(b, Taken(o, k, off, data), b')
  {
    forall b' ensures !Allowed(b, Taken(o, k, off, data), b') {
      var j := off + i;
      assert j - off == i;
    }
  }

  /** The newcomer's page, read back as far as the device: it has what is on the disk. */
  lemma ReadsBack(s: State, o: nat, id: nat, at: Loc, p: nat, y: Content)
    requires p < s.cs && at.cl < VSM_ENTRY_NULL && o in s.objs && s.objs[o] == [Some(Mine(at, p, true))] && id !in s.ops
    requires (at, p) in s.disk && s.disk[(at, p)] == y && forall id2 :: id2 in s.ops ==> s.ops[id2].obj != o
    ensures var op := Reading(o, p, 0, p, 1, at, None);
            var s1 := s.(ops := s.ops[id := op]);
            var s2 := s.(ops := s.ops[id := op.(got := Some([y]))]);
            && Enabled(s, ReadMap(id, o, p, 1)) && Next(s, ReadMap(id, o, p, 1)) == (s1, Silent)
            && Enabled(s1, ReadDevice(id)) && Next(s1, ReadDevice(id)).0 == s2
            && Enabled(s2, Supply(id)) && ActionOf(s2, Supply(id)) == Taken(o, 0, p, [y])
  {
    MapsBack(s, o, id, at, p);
    DeviceBack(s.(ops := s.ops[id := Reading(o, p, 0, p, 1, at, None)]), id, y);
  }

  lemma MapsBack(s: State, o: nat, id: nat, at: Loc, p: nat)
    requires p < s.cs && at.cl < VSM_ENTRY_NULL && o in s.objs && s.objs[o] == [Some(Mine(at, p, true))] && id !in s.ops
    requires forall id2 :: id2 in s.ops ==> s.ops[id2].obj != o
    ensures Enabled(s, ReadMap(id, o, p, 1))
    ensures Next(s, ReadMap(id, o, p, 1)) == (s.(ops := s.ops[id := Reading(o, p, 0, p, 1, at, None)]), Silent)
  {
    SmallPage(p, s.cs);
    assert ChunkFree(s, o, p, 1);
    assert Shift({p}, p) == {0};
    var out := Clmap([Some(Mine(at, p, true))], s.cs, p, Find, 0, 0, NOMEM, None);
    assert out.reply.bmap == {0} && out.reply.at == at;
    assert Run({0}, true, 0, 1) == 1;
  }

  lemma DeviceBack(s: State, id: nat, y: Content)
    requires s.cs > 0 && id in s.ops && s.ops[id].Reading? && s.ops[id].got.None? && s.ops[id].len == 1
    requires (s.ops[id].at, s.ops[id].off) in s.disk && s.disk[(s.ops[id].at, s.ops[id].off)] == y
    ensures Enabled(s, ReadDevice(id))
    ensures Next(s, ReadDevice(id)).0 == s.(ops := s.ops[id := s.ops[id].(got := Some([y]))])
  {
    var op := s.ops[id];
    assert OnDisk(s, op.at, op.off, 1);
    var got := seq(1, j requires 0 <= j < 1 => s.disk[(op.at, op.off + j)]);
    assert got[0] == y;
    assert got == [y];
  }

  // ---- A read that is still to go to the disk ----

  /** The late read gets the newcomer's page instead of its own. */
  lemma LateRead(s: State, a: Store, o: nat, at: Loc, p: nat, x: Content, late: nat)
    requires s.cs > 0 && late in s.ops && s.ops[late].Reading? && s.ops[late].got.None? && s.ops[late].obj in s.objs && s.ops[late].obj != o
    requires s.ops[late].at == at && s.ops[late].off == p && s.ops[late].len > 0 && OnDisk(s, at, p, s.ops[late].len)
    requires var op := s.ops[late]; (op.obj, op.k, p) in a.contents && a.contents[(op.obj, op.k, p)] != x
    ensures Doomed(WithPage(s, o, at, p, x), Put(a, o, 0, p, [x]))
  {
    var b := Put(a, o, 0, p, [x]);
    var s1 := WithPage(s, o, at, p, x);
    var op := s.ops[late];
    assert OnDisk(s1, at, p, op.len);
    var s2 := DeviceRead(s1, late);
    var got := s2.ops[late].got.value;
    assert got[0] == s1.disk[(at, p + 0)] == x;
    WrongContent(b, op.obj, op.k, p, got, 0);
    DoomedNow(s2, b, Supply(late));
    DoomedStep(s1, b, ReadDevice(late));
  }

  // ---- Clean is exact ----

  /** The entry that a write error hits. */
  ghost function Target(s: State, e: Event): (nat, nat)
    requires Enabled(s, e) && IsError(e)
  {
    if e.FailMark? then (e.obj, e.page / s.cs) else (s.ops[e.id].obj, s.ops[e.id].k)
  }

  /** A write error gives the cluster of its entry back and leaves the other transfers. */
  lemma GivenBack(s: State, e: Event)
    requires Inv(s) && Enabled(s, e) && IsError(e) && GivesBack(s, Target(s, e).0, Target(s, e).1)
    ensures var s', at := Next(s, e).0, Ent(s, Target(s, e).0, Target(s, e).1).Location();
      && s'.cs == s.cs && s'.disk == s.disk && s'.objs.Keys == s.objs.Keys && InRange(s', at) && !IsUsed(s', at)
      && s'.ops == (if e.FailMark? then s.ops else s.ops - {e.id}) && at.cl < VSM_ENTRY_NULL
      && Ent(s', Target(s, e).0, Target(s, e).1).error
  {
    var (o, k) := Target(s, e);
    assert EntryOk(s, Ent(s, o, k));
    if e.WriteDone? {
      assert OpShape(s, s.ops[e.id]);
      ErrorOutcome(s, Next(s, e).0, o, s.ops[e.id].page, |s.ops[e.id].data|, e.error);
    } else {
      ErrorOutcome(s, Next(s, e).0, o, e.page, e.cnt, e.error);
    }
  }

  lemma ErrorOutcome(s: State, s': State, o: nat, page: nat, cnt: nat, error: nat)
    requires Inv(s) && Live(s, o) && cnt > 0 && 0 < error < VSM_ENTRY_RANGE && GivesBack(s, o, page / s.cs)
    requires var done := Completion(s, o, Ent(s, o, page / s.cs), error, CompleteCall(s, o, page, cnt, error));
             s'.segs == done.segs && s'.objs == done.objs
    ensures var at := Ent(s, o, page / s.cs).Location(); InRange(s', at) && !IsUsed(s', at)
    ensures s'.objs.Keys == s.objs.Keys && Ent(s', o, page / s.cs).error
  {
    var e := Ent(s, o, page / s.cs);
    assert EntryOk(s, e);
    ClmapEffect(s.objs[o], s.cs, page, Find, cnt, error, NOMEM, None);
    var out := CompleteCall(s, o, page, cnt, error);
    assert out.freed == Some(e.Location());
    Unmarked(s, s', e.Location());
  }

  lemma Unmarked(s: State, s': State, at: Loc)
    requires InRange(s, at) && s'.segs == Unmark(s.segs, Some(at))
    ensures InRange(s', at) && !IsUsed(s', at)
  {
  }

  /** A transfer of the cluster given back that has still to go to the disk. */
  ghost predicate Late(s: State, s': State, o: nat, k: nat, late: nat) {
    && late in s.ops && late in s'.ops && s'.ops[late] == s.ops[late] && AtEntry(s, late, o, k) && !s.ops[late].Settled()
    && Ent(s, o, k).IsMapped() && s'.cs == s.cs && s'.disk == s.disk && s'.objs.Keys == s.objs.Keys
    && forall id :: id in s'.ops ==> id in s.ops && s'.ops[id] == s.ops[id]
  }

  lemma LateDooms(s: State, a: Store, s': State, o: nat, k: nat, late: nat)
    requires Inv(s) && Refines(s, a) && Late(s, s', o, k, late)
    requires var at := Ent(s, o, k).Location(); InRange(s', at) && !IsUsed(s', at) && at.cl < VSM_ENTRY_NULL
    ensures Doomed(s', Fail(a, o, k))
  {
    LatePlace(s, s', o, k, late);
    if s.ops[late].Writing? {
      LateWriting(s, a, s', o, k, late);
    } else {
      LateReading(s, a, s', o, k, late);
    }
  }

  lemma LateWriting(s: State, a: Store, s': State, o: nat, k: nat, late: nat)
    requires Inv(s) && Refines(s, a) && Late(s, s', o, k, late) && s.ops[late].Writing? && s.ops[late].data != []
    requires s.ops[late].off < s.cs
    requires var at := s.ops[late].at; InRange(s', at) && !IsUsed(s', at) && at.cl < VSM_ENTRY_NULL
    ensures Doomed(s', Fail(a, o, k))
  {
    var o2, id := NewRoom(s, a, s', o, k, late);
    LateWriteDooms(s', Fail(a, o, k), o2, id, late);
  }

  lemma LateReading(s: State, a: Store, s': State, o: nat, k: nat, late: nat)
    requires Inv(s) && Refines(s, a) && Late(s, s', o, k, late) && s.ops[late].Reading?
    requires s.ops[late].at == Ent(s, o, k).Location() && s.ops[late].off < s.cs
    requires var at := s.ops[late].at; InRange(s', at) && !IsUsed(s', at) && at.cl < VSM_ENTRY_NULL
    ensures Doomed(s', Fail(a, o, k))
  {
    var o2, id := NewRoom(s, a, s', o, k, late);
    LateReadDooms(s, a, s', o, k, late, o2, id);
  }

  /** There is room for another object that gets the same cluster. */
  lemma NewRoom(s: State, a: Store, s': State, o: nat, k: nat, late: nat) returns (o2: nat, id: nat)
    requires Inv(s) && Refines(s, a) && Late(s, s', o, k, late) && s.ops[late].off < s.cs
    requires var at := s.ops[late].at; InRange(s', at) && !IsUsed(s', at) && at.cl < VSM_ENTRY_NULL
    ensures Room(s', o2, id, s.ops[late].at, s.ops[late].off) && (o2, 0) !in a.bad && o2 != o
  {
    o2 := FreshObject(s, s', a);
    id := Fresh(s'.ops.Keys);
  }

  lemma LatePlace(s: State, s': State, o: nat, k: nat, late: nat)
    requires Inv(s) && Late(s, s', o, k, late)
    ensures var op := s.ops[late]; op.at == Ent(s, o, k).Location() && op.off < s.cs && op.Len() > 0
  {
    assert OpShape(s, s.ops[late]) && OpBacked(s, s.ops[late]);
  }

  lemma LateWriteDooms(s: State, b: Store, o: nat, id: nat, late: nat)
    requires late in s.ops && s.ops[late].Writing? && !s.ops[late].issued && s.ops[late].data != []
    requires Room(s, o, id, s.ops[late].at, s.ops[late].off) && (o, 0) !in b.bad
    ensures Doomed(s, b)
  {
    var op := s.ops[late];
    LateWrite(s, b, o, id, op.at, op.off, op.data[0] + 1, late);
    TakenDooms(s, b, o, id, op.at, op.off, op.data[0] + 1);
  }

  lemma LateReadDooms(s: State, a: Store, s': State, o: nat, k: nat, late: nat, o2: nat, id: nat)
    requires Inv(s) && Refines(s, a) && Late(s, s', o, k, late) && s.ops[late].Reading? && s.ops[late].at == Ent(s, o, k).Location()
    requires Room(s', o2, id, s.ops[late].at, s.ops[late].off) && (o2, 0) !in a.bad && o2 != o
    ensures Doomed(s', Fail(a, o, k))
  {
    var op, b := s.ops[late], Fail(a, o, k);
    assert OpShape(s, op);
    ReadStores(s, a, late);
    var x := a.contents[(o, k, op.off)] + 1;
    LateRead(s', b, o2, op.at, op.off, x, late);
    TakenDooms(s', b, o2, id, op.at, op.off, x);
  }

  lemma UncleanLate(s: State, e: Event) returns (late: nat)
    requires Inv(s) && Enabled(s, e) && !Clean(s, e)
    ensures var (o, k), s' := Target(s, e), Next(s, e).0;
            var at := Ent(s, o, k).Location();
      && GivesBack(s, o, k) && Late(s, s', o, k, late) && InRange(s', at) && !IsUsed(s', at) && at.cl < VSM_ENTRY_NULL
      && Ent(s', o, k).error
  {
    late := Unsettled(s, e);
    GivenBack(s, e);
  }

  lemma Unsettled(s: State, e: Event) returns (late: nat)
    requires Enabled(s, e) && !Clean(s, e)
    ensures IsError(e) && GivesBack(s, Target(s, e).0, Target(s, e).1)
    ensures late in s.ops && AtEntry(s, late, Target(s, e).0, Target(s, e).1) && !s.ops[late].Settled() && (e.WriteDone? ==> late != e.id)
  {
    var (o, k) := Target(s, e);
    if e.FailMark? {
      late :| late in s.ops && AtEntry(s, late, o, k) && !s.ops[late].Settled();
    } else {
      late :| late in s.ops && late != e.id && AtEntry(s, late, o, k) && !s.ops[late].Settled();
    }
  }

  /** An error that does not come cleanly dooms the pager: a transfer of the cluster given back has still to
      go to the disk, and by then another object may have its page there. */
  lemma UncleanDooms(s: State, a: Store, e: Event)
    requires Inv(s) && Refines(s, a) && Enabled(s, e) && !Clean(s, e)
    ensures Doomed(Next(s, e).0, After(a, ActionOf(s, e)))
  {
    var (o, k) := Target(s, e);
    var late := UncleanLate(s, e);
    LateDooms(s, a, Next(s, e).0, o, k, late);
    RuinsTarget(s, a, e);
  }

  lemma RuinsTarget(s: State, a: Store, e: Event)
    requires Enabled(s, e) && IsError(e) && Ent(Next(s, e).0, Target(s, e).0, Target(s, e).1).error
    ensures After(a, ActionOf(s, e)) == Fail(a, Target(s, e).0, Target(s, e).1)
  {
  }

  lemma FreshObject(s: State, s': State, a: Store) returns (o: nat)
    requires Inv(s) && Refines(s, a) && s'.objs.Keys == s.objs.Keys && forall id :: id in s'.ops ==> id in s.ops && s'.ops[id] == s.ops[id]
    ensures o !in s'.objs && o !in s.objs && (o, 0) !in a.bad && forall id :: id in s'.ops ==> s'.ops[id].obj != o
  {
    o := Fresh(s'.objs.Keys);
    assert Ent(s, o, 0) == CLEAR;
    forall id | id in s'.ops ensures s'.ops[id].obj != o {
      assert OpShape(s, s.ops[id]);
    }
  }

  /** A step of a pager that refines the store either comes cleanly, and then every way on without errors is
      the store's; or it does not, and then some such way is not. */
  lemma CleanIff(s: State, a: Store, e: Event)
    requires Inv(s) && Refines(s, a) && Enabled(s, e) && Spared(s, e)
    ensures Clean(s, e) <==> !Doomed(Next(s, e).0, After(a, ActionOf(s, e)))
  {
    if Clean(s, e) {
      StepRefines(s, a, e);
      StepKeeps(s, e);
      NotDoomed(Next(s, e).0, After(a, ActionOf(s, e)));
    } else {
      UncleanDooms(s, a, e);
    }
  }

  // ---- Spared is exact ----

  /** The reply to read `id` frees a cluster whose number is the error code in the entry. */
  ghost predicate FreesCode(s: State, id: nat) {
    && id in s.ops && s.ops[id].Reading? && Enabled(s, Supply(id))
    && var op := s.ops[id];
       var e := Ent(s, op.obj, op.k);
       e.error && UnmapCall(s, op).freed == [Loc(e.psindex, e.entry)]
  }

  /** Some way on from here, without any error, comes to that. */
  ghost predicate Exposed(s: State) {
    exists states, events, id :: ErrorFree(states, events) && states[0] == s && FreesCode(states[|events|], id)
  }

  lemma ExposedNow(s: State, id: nat)
    requires FreesCode(s, id)
    ensures Exposed(s)
  {
    var states, events: seq<Event> := [s], [];
    assert ErrorFree(states, events) && FreesCode(states[|events|], id);
  }

  lemma ExposedStep(s: State, e: Event)
    requires Enabled(s, e) && !IsError(e) && Exposed(Next(s, e).0)
    ensures Exposed(s)
  {
    var states, events, id :| ErrorFree(states, events) && states[0] == Next(s, e).0 && FreesCode(states[|events|], id);
    PathCons(s, e, states, events);
    var ss, es := [s] + states, [e] + events;
    assert ss[|es|] == states[|events|];
  }

  lemma NotExposed(s: State)
    requires Inv(s)
    ensures !Exposed(s)
  {
    forall states, events, id | ErrorFree(states, events) && states[0] == s ensures !FreesCode(states[|events|], id) {
      ErrorFreeIsClean(states, events);
      PathsKeep(states, events);
      if FreesCode(states[|events|], id) {
        ReadFreesHeld(states[|events|], id);
      }
    }
  }

  /** A cluster in error whose allocated pages are all being read; every read of it can be made. */
  ghost predicate Covered(s: State, o: nat, k: nat) {
    && s.cs > 0 && o in s.objs && WellFormed(s.objs[o]) && Ent(s, o, k).error && Ent(s, o, k).alloc != {}
    && (forall q: nat :: q in Ent(s, o, k).alloc ==> exists id :: ReadingAt(s, id, o, k) && s.ops[id].Owns(o, k, q))
    && (forall id :: ReadingAt(s, id, o, k) ==> OpShape(s, s.ops[id]) && (s.ops[id].got.Some? || OnDisk(s, s.ops[id].at, s.ops[id].off, s.ops[id].len)))
  }

  /** The reads are answered one after the other, and the last takes the code for a cluster. */
  lemma CoveredExposes(s: State, o: nat, k: nat)
    requires Covered(s, o, k)
    ensures Exposed(s)
    decreases |s.ops|, 1
  {
    var q: nat :| q in Ent(s, o, k).alloc;
    var id :| ReadingAt(s, id, o, k) && s.ops[id].Owns(o, k, q);
    if s.ops[id].got.Some? {
      AnsweredExposes(s, o, k, id);
    } else {
      GotCovered(s, o, k, id);
      AnsweredExposes(DeviceRead(s, id), o, k, id);
      ExposedStep(s, ReadDevice(id));
    }
  }

  lemma GotCovered(s: State, o: nat, k: nat, id: nat)
    requires Covered(s, o, k) && ReadingAt(s, id, o, k) && s.ops[id].got.None?
    ensures Enabled(s, ReadDevice(id)) && Covered(DeviceRead(s, id), o, k) && ReadingAt(DeviceRead(s, id), id, o, k)
    ensures |DeviceRead(s, id).ops| == |s.ops| && DeviceRead(s, id).ops[id].got.Some?
  {
    var t := DeviceRead(s, id);
    assert t.ops.Keys == s.ops.Keys;
    CardinalOfKeys(s.ops, t.ops);
    assert Ent(t, o, k) == Ent(s, o, k);
    forall q: nat | q in Ent(t, o, k).alloc ensures exists id2 :: ReadingAt(t, id2, o, k) && t.ops[id2].Owns(o, k, q) {
      var id2 :| ReadingAt(s, id2, o, k) && s.ops[id2].Owns(o, k, q);
      assert ReadingAt(t, id2, o, k) && t.ops[id2].Owns(o, k, q);
    }
    forall id2 | ReadingAt(t, id2, o, k)
      ensures OpShape(t, t.ops[id2]) && (t.ops[id2].got.Some? || OnDisk(t, t.ops[id2].at, t.ops[id2].off, t.ops[id2].len))
    {
      assert ReadingAt(s, id2, o, k);
    }
  }

  lemma CardinalOfKeys(a: map<nat, Op>, b: map<nat, Op>)
    requires a.Keys == b.Keys
    ensures |a| == |b|
  {
    assert |a| == |a.Keys| && |b| == |b.Keys|;
  }

  lemma AnsweredExposes(s: State, o: nat, k: nat, id: nat)
    requires Covered(s, o, k) && ReadingAt(s, id, o, k) && s.ops[id].got.Some?
    ensures Exposed(s)
    decreases |s.ops|, 0
  {
    var op := s.ops[id];
    var e := Ent(s, o, k);
    UnmapCallIs(s, op);
    if ClearPages(e, op.off, op.len).alloc == {} {
      assert FreesCode(s, id);
      ExposedNow(s, id);
    } else {
      var t := Next(s, Supply(id)).0;
      LessCovered(s, o, k, id, t);
      CoveredExposes(t, o, k);
      ExposedStep(s, Supply(id));
    }
  }

  lemma LessCovered(s: State, o: nat, k: nat, id: nat, t: State)
    requires Covered(s, o, k) && ReadingAt(s, id, o, k) && Enabled(s, Supply(id)) && t == Next(s, Supply(id)).0
    requires var op := s.ops[id];
             && UnmapEffect(s.objs[o], k, UnmapEntry(Ent(s, o, k), op.off, op.len), UnmapCall(s, op))
             && ClearPages(Ent(s, o, k), op.off, op.len).alloc != {}
    ensures Covered(t, o, k) && |t.ops| < |s.ops|
  {
    var op := s.ops[id];
    assert Ent(t, o, k) == ClearPages(Ent(s, o, k), op.off, op.len);
    assert t.ops == s.ops - {id};
    FewerKeys(s.ops, id);
    forall q: nat | q in Ent(t, o, k).alloc ensures exists id2 :: ReadingAt(t, id2, o, k) && t.ops[id2].Owns(o, k, q) {
      var id2 :| ReadingAt(s, id2, o, k) && s.ops[id2].Owns(o, k, q);
      assert q !in Pages(op.off, op.off + op.len);
      assert ReadingAt(t, id2, o, k) && t.ops[id2].Owns(o, k, q);
    }
    forall id2 | ReadingAt(t, id2, o, k)
      ensures OpShape(t, t.ops[id2]) && (t.ops[id2].got.Some? || OnDisk(t, t.ops[id2].at, t.ops[id2].off, t.ops[id2].len))
    {
      assert ReadingAt(s, id2, o, k);
    }
  }

  lemma FewerKeys(m: map<nat, Op>, id: nat)
    requires id in m
    ensures |m - {id}| < |m|
  {
    assert (m - {id}).Keys == m.Keys - {id};
    assert |m| == |m.Keys| && |m - {id}| == |(m - {id}).Keys|;
  }

  /** An error that spares no page: all allocated pages of the cluster are being read, and each read can be made. */
  lemma UnsparedExposes(s: State, a: Store, e: Event)
    requires Inv(s) && Refines(s, a) && Enabled(s, e) && !Spared(s, e)
    ensures Exposed(Next(s, e).0)
  {
    var k := e.page / s.cs;
    FailMarkOutcome(s, e.obj, e.page, e.cnt, e.error);
    var t := Next(s, e).0;
    forall q: nat | q in Ent(t, e.obj, k).alloc ensures exists id :: ReadingAt(t, id, e.obj, k) && t.ops[id].Owns(e.obj, k, q) {
      assert !Spare(s, e.obj, k, q);
      var id :| ReadingAt(s, id, e.obj, k) && s.ops[id].Owns(e.obj, k, q);
      assert ReadingAt(t, id, e.obj, k);
    }
    forall id | ReadingAt(t, id, e.obj, k)
      ensures OpShape(t, t.ops[id]) && (t.ops[id].got.Some? || OnDisk(t, t.ops[id].at, t.ops[id].off, t.ops[id].len))
    {
      assert OpShape(s, s.ops[id]);
      if t.ops[id].got.None? {
        ReadIsOnDisk(s, a, id);
        assert OnDisk(t, t.ops[id].at, t.ops[id].off, t.ops[id].len);
      }
    }
    assert EntryOk(s, Ent(s, e.obj, k));
    CoveredExposes(t, e.obj, k);
  }

  /** A step of a pager in order spares a page of what is being read, and then no way on without errors takes
      an error code for a cluster; or it does not, and then some such way does. */
  lemma SparedIff(s: State, a: Store, e: Event)
    requires Inv(s) && Refines(s, a) && Enabled(s, e)
    ensures Spared(s, e) <==> !Exposed(Next(s, e).0)
  {
    if Spared(s, e) {
      StepKeeps(s, e);
      NotExposed(Next(s, e).0);
    } else {
      UnsparedExposes(s, a, e);
    }
  }
}
