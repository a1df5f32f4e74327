/** kget_space by any number of threads, each with the region it has mapped while it held no lock. The
    steps are the stretches between taking a lock and dropping it, or calling the kernel. */
module KallocRuns {
  import opened Kalloc

  type Thread = nat

  /** `flying`: the region each thread has mapped and neither added nor given back yet. */
  datatype State = State(space: Space, blocks: map<nat, Block>, flying: map<Thread, nat>)

  datatype Step =
    | MapFor(t: Thread, region: nat)  // the kernel maps a region
    | CarveFor(t: Thread, k: nat)     // there is room in the tail
    | InstallFor(t: Thread, k: nat)   // there is not, and the region is added and carved from
    | ReturnFor(t: Thread)            // the region was not needed
    | Switch(a: nat)                  // a block goes on its free list, or comes off it

  ghost predicate Initial(s: State) {
    && s.space.page > 0 && s.space.page % 4 == 0 && s.blocks == map[] && s.flying == map[]
    && s.space == Space(s.space.page, s.space.page, s.space.page, {}, map[], 0)
  }

  /** All space is accounted for, and the regions in flight are those of the threads, one each. */
  ghost predicate Inv(s: State) {
    SpaceOk(s.space, s.blocks) && s.flying.Values == s.space.flight && OneEach(s.flying)
  }

  ghost predicate OneEach(flying: map<Thread, nat>) {
    forall t, u :: t in flying && u in flying && t != u ==> flying[t] != flying[u]
  }

  ghost predicate Enabled(s: State, e: Step) {
    match e
    case MapFor(t, region) => t !in s.flying && Unused(s.space.owner, region, s.space.page)
    case CarveFor(t, k) => k < KLIST_MAX && s.space.from + Size(k) <= s.space.to
    case InstallFor(t, k) => t in s.flying && k < KLIST_MAX && Size(k) <= s.space.page && s.space.from + Size(k) > s.space.to
    case ReturnFor(t) => t in s.flying
    case Switch(a) => a in s.blocks
  }

  ghost function Carved(s: Space, size: nat): Space {
    s.(from := s.from + size, owner := Paint(s.owner, s.from, s.from + size, InBlock(s.from)))
  }

  ghost function Mapped(s: Space, region: nat): Space {
    s.(owner := Paint(s.owner, region, region + s.page, Flight(region)), flight := s.flight + {region})
  }

  /** The rest of the tail is wasted if the region does not follow it. */
  ghost function Discarded(s: Space, region: nat): Space {
    if region == s.to || s.from > s.to then s else s.(from := s.to, owner := Paint(s.owner, s.from, s.to, Waste), wasted := s.wasted + (s.to - s.from))
  }

  ghost function Added(s: Space, region: nat): Space {
    s.(from := if region == s.to then s.from else region, to := region + s.page,
       owner := Paint(s.owner, region, region + s.page, Tail), flight := s.flight - {region})
  }

  ghost function Next(s: State, e: Step): State
    requires Enabled(s, e)
  {
    match e
    case MapFor(t, q) =>
      s.(space := Mapped(s.space, q), flying := s.flying[t := q])
    case CarveFor(t, k) => s.(space := Carved(s.space, Size(k)), blocks := s.blocks[s.space.from := Block(k, false)])
    case InstallFor(t, k) =>
      var added := Added(Discarded(s.space, s.flying[t]), s.flying[t]);
      State(Carved(added, Size(k)), s.blocks[added.from := Block(k, false)], s.flying - {t})
    case ReturnFor(t) =>
      s.(space := s.space.(owner := Without(s.space.owner, s.flying[t]), flight := s.space.flight - {s.flying[t]}),
         flying := s.flying - {t})
    case Switch(a) => s.(blocks := s.blocks[a := Block(s.blocks[a].list, !s.blocks[a].free)])
  }

  lemma InitialInv(s: State)
    requires Initial(s)
    ensures Inv(s)
  {
    assert Wasted(s.space.owner) == {};
  }

  /** A thread gives up its region: those of the others are left. */
  lemma FlyingWithout(s: State, t: Thread)
    requires Inv(s) && t in s.flying
    ensures (s.flying - {t}).Values == s.space.flight - {s.flying[t]}
  {
    var rest := s.flying - {t};
    forall q | q in s.space.flight && q != s.flying[t] ensures q in rest.Values {
      var u :| u in s.flying && s.flying[u] == q;
      assert u in rest && rest[u] == q;
    }
    forall q | q in rest.Values ensures q in s.space.flight && q != s.flying[t] {
      var u :| u in rest && rest[u] == q;
      assert u in s.flying && s.flying[u] == q && q in s.flying.Values;
    }
  }

  lemma DiscardedKeeps(s: Space, blocks: map<nat, Block>, q: nat)
    requires SpaceOk(s, blocks) && q in s.flight
    ensures var d := Discarded(s, q);
            SpaceOk(d, blocks) && d.flight == s.flight && d.page == s.page && d.to == s.to && (q == d.to || d.from == d.to)
  {
    if q != s.to {
      DiscardKeeps(s, blocks, Discarded(s, q).owner);
    }
  }

  lemma AddedKeeps(d: Space, blocks: map<nat, Block>, q: nat)
    requires SpaceOk(d, blocks) && q in d.flight && (q == d.to || d.from == d.to)
    ensures var a := Added(d, q);
            SpaceOk(a, blocks) && a.flight == d.flight - {q} && a.from + d.page <= a.to
  {
    InstallKeeps(d, blocks, q, Added(d, q).owner);
  }

  lemma InstalledKeeps(s: Space, blocks: map<nat, Block>, q: nat, k: nat)
    requires SpaceOk(s, blocks) && q in s.flight && k < KLIST_MAX && Size(k) <= s.page
    ensures var a := Added(Discarded(s, q), q);
            SpaceOk(Carved(a, Size(k)), blocks[a.from := Block(k, false)]) && Carved(a, Size(k)).flight == s.flight - {q}
  {
    DiscardedKeeps(s, blocks, q);
    AddedKeeps(Discarded(s, q), blocks, q);
    CarvedKeeps(Added(Discarded(s, q), q), blocks, k, Carved(Added(Discarded(s, q), q), Size(k)));
  }

  lemma CarvedKeeps(s: Space, blocks: map<nat, Block>, k: nat, c: Space)
    requires SpaceOk(s, blocks) && k < KLIST_MAX && s.from + Size(k) <= s.to && c == Carved(s, Size(k))
    ensures SpaceOk(c, blocks[s.from := Block(k, false)])
  {
    CarveKeeps(s, blocks, k, c.owner);
    assert s.(from := s.from + Size(k), owner := c.owner) == c;
  }

  lemma SpaceMapped(s: Space, blocks: map<nat, Block>, q: nat)
    requires SpaceOk(s, blocks) && Unused(s.owner, q, s.page)
    ensures SpaceOk(Mapped(s, q), blocks) && q !in s.flight
  {
    var m := Mapped(s, q);
    MapKeeps(s, blocks, q, m.owner);
    assert m == s.(owner := m.owner, flight := s.flight + {q});
  }

  lemma MapForKeeps(s: State, t: Thread, q: nat)
    requires Inv(s) && Enabled(s, MapFor(t, q))
    ensures Inv(Next(s, MapFor(t, q)))
  {
    SpaceMapped(s.space, s.blocks, q);
    AddedValues(s.flying, t, q);
    AddedEach(s.flying, t, q);
  }

  lemma InstallForKeeps(s: State, t: Thread, k: nat)
    requires Inv(s) && Enabled(s, InstallFor(t, k))
    ensures Inv(Next(s, InstallFor(t, k)))
  {
    InstalledKeeps(s.space, s.blocks, s.flying[t], k);
    FlyingWithout(s, t);
  }

  lemma ReturnForKeeps(s: State, t: Thread)
    requires Inv(s) && Enabled(s, ReturnFor(t))
    ensures Inv(Next(s, ReturnFor(t)))
  {
    ReturnKeeps(s.space, s.blocks, s.flying[t]);
    FlyingWithout(s, t);
  }

  lemma SwitchKeeps(s: State, a: nat)
    requires Inv(s) && Enabled(s, Switch(a))
    ensures Inv(Next(s, Switch(a)))
  {
  }

  /** Every step of every thread keeps all space accounted for and every region its thread's. */
  lemma StepKeeps(s: State, e: Step)
    requires Inv(s) && Enabled(s, e)
    ensures Inv(Next(s, e))
  {
    match e
    case MapFor(t, q) => MapForKeeps(s, t, q);
    case CarveFor(t, k) => CarvedKeeps(s.space, s.blocks, k, Next(s, e).space);
    case InstallFor(t, k) => InstallForKeeps(s, t, k);
    case ReturnFor(t) => ReturnForKeeps(s, t);
    case Switch(a) => SwitchKeeps(s, a);
  }

  lemma AddedEach(flying: map<Thread, nat>, t: Thread, q: nat)
    requires q !in flying.Values && OneEach(flying)
    ensures OneEach(flying[t := q])
  {
    forall u | u in flying ensures flying[u] != q {
      assert flying[u] in flying.Values;
    }
  }

  lemma AddedValues(flying: map<Thread, nat>, t: Thread, q: nat)
    requires t !in flying
    ensures flying[t := q].Values == flying.Values + {q}
  {
    var r := flying[t := q];
    assert r[t] == q;
    forall x | x in flying.Values ensures x in r.Values {
      var u :| u in flying && flying[u] == x;
      assert r[u] == x;
    }
  }

  ghost predicate IsRun(states: seq<State>, steps: seq<Step>) {
    && |states| == |steps| + 1 && Initial(states[0])
    && forall i :: 0 <= i < |steps| ==> Enabled(states[i], steps[i]) && states[i + 1] == Next(states[i], steps[i])
  }

  /** Over every interleaving of any number of threads. */
  lemma RunsKeep(states: seq<State>, steps: seq<Step>)
    requires IsRun(states, steps)
    ensures forall i :: 0 <= i < |states| ==> Inv(states[i])
  {
    InitialInv(states[0]);
    for n := 0 to |steps|
      invariant forall i :: 0 <= i <= n ==> Inv(states[i])
    {
      StepKeeps(states[n], steps[n]);
    }
  }

  predicate ActsFor(e: Step, t: Thread) { !e.Switch? && e.t == t }

  /** A region in flight stays its thread's, byte by byte, whatever the others do; it overlaps no other such
      region, no block and not the tail. */
  lemma FlightStays(s: State, e: Step, t: Thread)
    requires Inv(s) && Enabled(s, e) && t in s.flying && !ActsFor(e, t)
    ensures var r, q := Next(s, e), s.flying[t];
            && t in r.flying && r.flying[t] == q
            && forall b: nat :: q <= b < q + s.space.page ==> b in r.space.owner && r.space.owner[b] == Flight(q)
  {
    StepKeeps(s, e);
    FlyingKept(s, e, t);
    FlightBytes(Next(s, e).space, Next(s, e).blocks, s.flying[t]);
  }

  lemma FlyingKept(s: State, e: Step, t: Thread)
    requires Enabled(s, e) && t in s.flying && !ActsFor(e, t)
    ensures var r := Next(s, e); t in r.flying && r.flying[t] == s.flying[t] && r.space.page == s.space.page && s.flying[t] in r.flying.Values
  {
    assert Next(s, e).flying[t] in Next(s, e).flying.Values;
  }

  lemma FlightBytes(s: Space, blocks: map<nat, Block>, q: nat)
    requires SpaceOk(s, blocks) && q in s.flight
    ensures forall b: nat :: q <= b < q + s.page ==> b in s.owner && s.owner[b] == Flight(q)
  {
  }
}
