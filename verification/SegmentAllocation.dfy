/** Threads that share all paging segments: each chooses a segment and takes one off its count (ps_select_segment), and
    later claims the lowest clear bit of its bitmap (the search of ps_allocate_cluster); clusters are given back in
    between, and full priorities reset. For each segment alone this is a run of SegmentRuns. */
module SegmentAllocation {
  import opened PagingSegments
  import opened SegmentTables
  import R = SegmentRuns
  import G = Pager
  import Slots

  type Thread = nat

  datatype Bitmap = Bitmap(ncls: nat, used: set<nat>)

  /** `waiting`: for threads between their choice and their claim, the segment chosen. */
  datatype State = State(segs: seq<Segment>, select: seq<int>, maps: seq<Bitmap>, waiting: map<Thread, nat>)

  datatype Event =
    | Choose(t: Thread, shift: nat, r: Selection, select: seq<int>)
    | Claim(t: Thread, cluster: nat)
    | Free(index: nat, cluster: nat)
    | Reset(priority: nat)

  ghost predicate Shaped(s: State) {
    && |s.maps| == |s.segs| && |s.select| == BS_MAXPRI + 1
    && forall t :: t in s.waiting ==> s.waiting[t] < |s.segs|
  }

  ghost predicate Enabled(s: State, e: Event) {
    && Shaped(s)
    && match e
       case Choose(t, shift, r, select) =>
         t !in s.waiting && |select| == BS_MAXPRI + 1 && Chooses(s.segs, s.select, shift, r, Left(s.segs, r), select)
       case Claim(t, c) => t in s.waiting && R.IsLowestClear(s.maps[s.waiting[t]].used, c)
       case Free(i, c) => i < |s.segs| && c < s.maps[i].ncls && c in s.maps[i].used
       case Reset(p) => p <= BS_MAXPRI
  }

  /** The counts after a choice. */
  function Left(segs: seq<Segment>, r: Selection): seq<Segment> {
    if r.Selected? && r.index < |segs| && segs[r.index].clcount > 0 then Taken(segs, r.index) else segs
  }

  function WithUsed(maps: seq<Bitmap>, i: nat, used: set<nat>): seq<Bitmap>
    requires i < |maps|
  {
    maps[i := maps[i].(used := used)]
  }

  ghost function Next(s: State, e: Event): State
    requires Enabled(s, e)
  {
    match e
    case Choose(t, shift, r, select) =>
      s.(segs := Left(s.segs, r), select := select, waiting := if r.Selected? then s.waiting[t := r.index] else s.waiting)
    case Claim(t, c) =>
      var i := s.waiting[t];
      s.(maps := WithUsed(s.maps, i, s.maps[i].used + {c}), waiting := s.waiting - {t})
    case Free(i, c) =>
      s.(segs := s.segs[i := s.segs[i].(clcount := s.segs[i].clcount + 1)],
         maps := WithUsed(s.maps, i, s.maps[i].used - {c}))
    case Reset(p) => s.(select := if s.select[p] == BS_FULLPRI then s.select[p := 0] else s.select)
  }

  // ---- One segment ----

  function Waiters(waiting: map<Thread, nat>, i: nat): set<Thread> {
    set t | t in waiting && waiting[t] == i
  }

  /** What segment `i` alone goes through. */
  function Alone(s: State, i: nat): R.State
    requires i < |s.segs| == |s.maps|
  {
    var m := s.maps[i];
    R.State(m.ncls, m.used, s.segs[i].clcount, Waiters(s.waiting, i), m.used * Below(m.ncls))
  }

  function EventAt(s: State, e: Event): R.Event
    requires Shaped(s) && (e.Claim? ==> e.t in s.waiting) && !e.Reset?
  {
    match e
    case Choose(t, shift, r, select) => R.Reserve(t)
    case Claim(t, c) => R.Claim(t, c)
    case Free(i, c) => R.Free(c)
  }

  /** The segment an event is about, if any. */
  function Place(s: State, e: Event): int {
    match e
    case Choose(t, shift, r, select) => if r.Selected? then r.index else -1
    case Claim(t, c) => if t in s.waiting then s.waiting[t] else -1
    case Free(i, c) => i
    case Reset(_) => -1
  }

  ghost predicate Conserved(s: State) {
    Shaped(s) && forall i: nat :: i < |s.segs| ==> R.Conserved(Alone(s, i))
  }

  /** At its segment the step is one of that segment alone, and elsewhere nothing happens. */
  ghost predicate Projects(s: State, e: Event, i: nat)
    requires Enabled(s, e) && i < |s.segs|
  {
    && Shaped(Next(s, e)) && |Next(s, e).segs| == |s.segs|
    && if i == Place(s, e) then R.Step(Alone(s, i), EventAt(s, e), Alone(Next(s, e), i)) else Alone(Next(s, e), i) == Alone(s, i)
  }

  lemma StepProjects(s: State, e: Event, i: nat)
    requires Enabled(s, e) && Conserved(s) && i < |s.segs|
    ensures Projects(s, e, i)
  {
    match e
    case Choose(t, shift, r, select) => ChooseProjects(s, e, i);
    case Claim(t, c) =>
      WaitersAfter(s, e, i);
      if i == Place(s, e) {
        ClaimProjects(s, t, c);
      }
    case Free(j, c) => FreeProjects(s, e, i);
    case Reset(p) =>
  }

  lemma ChooseProjects(s: State, e: Event, i: nat)
    requires Enabled(s, e) && e.Choose? && i < |s.segs|
    ensures Projects(s, e, i)
  {
    WaitersAfter(s, e, i);
  }

  lemma FreeProjects(s: State, e: Event, i: nat)
    requires Enabled(s, e) && e.Free? && i < |s.segs|
    ensures Projects(s, e, i)
  {
    WaitersAfter(s, e, i);
    if i == e.index {
      assert (s.maps[i].used - {e.cluster}) * Below(s.maps[i].ncls) == s.maps[i].used * Below(s.maps[i].ncls) - {e.cluster};
    }
  }

  lemma ClaimProjects(s: State, t: Thread, c: nat)
    requires Enabled(s, Claim(t, c)) && Conserved(s)
    ensures var i := s.waiting[t]; R.Step(Alone(s, i), R.Claim(t, c), Alone(Next(s, Claim(t, c)), i))
  {
    var i := s.waiting[t];
    var d := R.ClaimFinds(Alone(s, i), t);
    assert d == c;
    WaitersAfter(s, Claim(t, c), i);
  }

  lemma WaitersAfter(s: State, e: Event, i: nat)
    requires Enabled(s, e) && i < |s.segs|
    ensures var w, w' := Waiters(s.waiting, i), Waiters(Next(s, e).waiting, i);
            w' == if i != Place(s, e) || e.Free? then w else if e.Choose? then w + {e.t} else w - {e.t}
  {
  }

  lemma StepConserves(s: State, e: Event)
    requires Conserved(s) && Enabled(s, e)
    ensures Conserved(Next(s, e))
  {
    var s' := Next(s, e);
    forall i: nat | i < |s.segs| ensures |s'.segs| == |s.segs| == |s'.maps| && R.Conserved(Alone(s', i)) {
      StepProjects(s, e, i);
      if i == Place(s, e) {
        R.StepConserves(Alone(s, i), EventAt(s, e), Alone(s', i));
      }
    }
    assert Shaped(s');
  }

  /** Segments as they are added: all clusters clear, and the padding of the bitmaps arbitrary. */
  lemma InitialConserved(s: State)
    requires Shaped(s) && s.waiting == map[]
    requires forall i: nat :: i < |s.segs| ==> s.maps[i].used !! Below(s.maps[i].ncls) && s.segs[i].clcount == s.maps[i].ncls
    ensures Conserved(s)
  {
    forall i: nat | i < |s.segs| ensures R.Conserved(Alone(s, i)) {
      assert Waiters(s.waiting, i) == {};
      assert Below(s.maps[i].ncls) - s.maps[i].used == Below(s.maps[i].ncls);
    }
  }

  ghost predicate Legal(s: State, es: seq<Event>)
    decreases |es|
  {
    es == [] || (Enabled(s, es[0]) && Legal(Next(s, es[0]), es[1..]))
  }

  ghost function After(s: State, es: seq<Event>): State
    requires Legal(s, es)
    decreases |es|
  {
    if es == [] then s else After(Next(s, es[0]), es[1..])
  }

  /** Over every interleaving, in every segment the clear clusters are those counted and those spoken for. */
  lemma {:induction false} RunsConserve(s: State, es: seq<Event>)
    requires Conserved(s) && Legal(s, es)
    ensures Conserved(After(s, es))
    decreases |es|
  {
    if es != [] {
      StepConserves(s, es[0]);
      RunsConserve(Next(s, es[0]), es[1..]);
    }
  }

  // ---- What an allocation answers ----

  /** The clear clusters of segment `i` that no waiting thread will take. */
  function Spare(s: State, i: nat): int
    requires i < |s.segs| == |s.maps|
  {
    |Below(s.maps[i].ncls) - s.maps[i].used| - |Waiters(s.waiting, i)|
  }

  /** With several segments an allocation is refused only if no segment large enough, of any priority, has a clear
      cluster left that is not spoken for; and one that is served gets such a segment. */
  lemma RefusedIff(s: State, t: Thread, shift: nat, r: Selection, select: seq<int>)
    requires Conserved(s) && |s.segs| > 1 && Enabled(s, Choose(t, shift, r, select)) && !r.BadIndex?
    requires forall i :: 0 <= i < |s.segs| ==> s.segs[i].priority <= BS_MAXPRI
    ensures r.NoSpace? <==> forall i: nat :: i < |s.segs| && !s.segs[i].goingAway && s.segs[i].clshift >= shift ==> Spare(s, i) == 0
    ensures r.Selected? ==> !s.segs[r.index].goingAway && s.segs[r.index].clshift >= shift && Spare(s, r.index) > 0
  {
    forall i: nat | i < |s.segs| ensures Spare(s, i) == s.segs[i].clcount {
      assert R.Conserved(Alone(s, i));
    }
    if r.NoSpace? {
      NoneServes(s.segs, shift);
    }
  }

  lemma NoneServes(segs: seq<Segment>, shift: nat)
    requires NoneAbove(segs, -1, shift) && forall i :: 0 <= i < |segs| ==> segs[i].priority <= BS_MAXPRI
    ensures forall i: nat :: i < |segs| && !segs[i].goingAway && segs[i].clshift >= shift ==> segs[i].clcount == 0
  {
    forall i: nat | i < |segs| && !segs[i].goingAway && segs[i].clshift >= shift ensures segs[i].clcount == 0 {
      assert NoneAt(segs, segs[i].priority, shift);
      assert !Eligible(segs[i], segs[i].priority, shift);
    }
  }

  /** The segments as the pager sees them. */
  ghost predicate SameSpace(s: State, g: G.State) {
    && |g.segs| == |s.maps|
    && forall i: nat :: i < |s.maps| ==> g.segs[i].ncls == s.maps[i].ncls && g.segs[i].used == s.maps[i].used * Below(s.maps[i].ncls)
  }

  /** What a thread that has chosen a segment is going to claim is always there, is one of the free clusters that the
      pager may be given, and is the lowest of its segment; when it has been claimed the two agree again. */
  lemma ClaimServes(s: State, g: G.State, t: Thread) returns (c: nat)
    requires Conserved(s) && SameSpace(s, g) && t in s.waiting
    ensures Enabled(s, Claim(t, c))
    ensures var at := Slots.Loc(s.waiting[t], c);
            && G.InRange(g, at) && !G.IsUsed(g, at) && (forall d: nat :: d < c ==> G.IsUsed(g, Slots.Loc(at.ps, d)))
            && SameSpace(Next(s, Claim(t, c)), g.(segs := G.Mark(g.segs, at)))
  {
    var i := s.waiting[t];
    c := R.ClaimFinds(Alone(s, i), t);
  }

  /** A cluster given back is given back to both. */
  lemma FreeServes(s: State, g: G.State, at: Slots.Loc)
    requires Shaped(s) && SameSpace(s, g) && G.InRange(g, at) && G.IsUsed(g, at)
    ensures Enabled(s, Free(at.ps, at.cl))
    ensures SameSpace(Next(s, Free(at.ps, at.cl)), g.(segs := G.Unmark(g.segs, Slots.Some(at))))
  {
  }
}
