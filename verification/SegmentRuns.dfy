/** Threads that share one paging segment. Reserving a cluster (in ps_select_segment), claiming
    one (the search of ps_allocate_cluster) and giving one back (ps_deallocate_cluster) are
    separate critical sections, so they interleave freely; the methods of class PagingSegment
    perform exactly these steps on the real bitmap. */
module SegmentRuns {
  import opened PagingSegments

  type Thread = nat

  /** `reserved`: threads between their reservation and their claim. `held`: claimed clusters. */
  datatype State = State(ncls: nat, used: set<nat>, clcount: nat, reserved: set<Thread>, held: set<nat>)

  datatype Event = Reserve(t: Thread) | Claim(t: Thread, cluster: nat) | Free(cluster: nat)

  /** The bitmap starts with every cluster clear; padding bits are arbitrary. */
  ghost predicate Initial(s: State) {
    s.used !! Below(s.ncls) && s.clcount == s.ncls && s.reserved == {} && s.held == {}
  }

  /** First fit: the lowest bit that is clear, wherever the end of the segment is. */
  ghost predicate IsLowestClear(used: set<nat>, c: nat) {
    c !in used && forall d: nat :: d < c ==> d in used
  }

  ghost predicate Step(s: State, e: Event, s': State) {
    match e
    case Reserve(t) =>
      && s.clcount > 0 && t !in s.reserved
      && s' == s.(clcount := s.clcount - 1, reserved := s.reserved + {t})
    case Claim(t, c) =>
      && t in s.reserved && IsLowestClear(s.used, c)
      && s' == s.(used := s.used + {c}, reserved := s.reserved - {t}, held := s.held + {c})
    case Free(c) =>
      && c in s.held
      && s' == s.(used := s.used - {c}, clcount := s.clcount + 1, held := s.held - {c})
  }

  /** Clear bits below `ncls` are the counted ones plus the reservations not yet claimed. */
  ghost predicate Conserved(s: State) {
    && |Below(s.ncls) - s.used| == s.clcount + |s.reserved|
    && s.held == s.used * Below(s.ncls)
  }

  lemma InitialConserved(s: State)
    requires Initial(s)
    ensures Conserved(s)
  {
    assert Below(s.ncls) - s.used == Below(s.ncls);
  }

  /** A thread that holds a reservation always finds a cluster: below `ncls`, held by nobody. */
  lemma ClaimFinds(s: State, t: Thread) returns (c: nat)
    requires Conserved(s) && t in s.reserved
    ensures IsLowestClear(s.used, c)
    ensures c < s.ncls && c !in s.held
  {
    assert |s.reserved| > 0 by { assert s.reserved != {}; }
    assert Below(s.ncls) - s.used != {};
    c := 0;
    while c in s.used
      invariant c <= s.ncls
      invariant forall d: nat :: d < c ==> d in s.used
      decreases s.ncls - c
    {
      if c == s.ncls {
        LowestIsReal(s.used, s.ncls, c);
        assert false;
      }
      c := c + 1;
    }
    LowestIsReal(s.used, s.ncls, c);
  }

  lemma ClaimConserves(s: State, t: Thread, c: nat)
    requires Conserved(s) && t in s.reserved && c < s.ncls && c !in s.used
    ensures Conserved(s.(used := s.used + {c}, reserved := s.reserved - {t}, held := s.held + {c}))
  {
    assert Below(s.ncls) - (s.used + {c}) == (Below(s.ncls) - s.used) - {c};
  }

  lemma FreeConserves(s: State, c: nat)
    requires Conserved(s) && c in s.held
    ensures Conserved(s.(used := s.used - {c}, clcount := s.clcount + 1, held := s.held - {c}))
  {
    assert Below(s.ncls) - (s.used - {c}) == (Below(s.ncls) - s.used) + {c};
  }

  /** Every step keeps the count, and a claim never returns a cluster that is out of range or held. */
  lemma StepConserves(s: State, e: Event, s': State)
    requires Conserved(s) && Step(s, e, s')
    ensures Conserved(s')
    ensures e.Claim? ==> e.cluster < s.ncls && e.cluster !in s.held
  {
    match e
    case Reserve(t) =>
    case Claim(t, c) =>
      var d := ClaimFinds(s, t);
      assert d == c;
      ClaimConserves(s, t, c);
    case Free(c) => FreeConserves(s, c);
  }

  ghost predicate IsRun(states: seq<State>, events: seq<Event>) {
    && |states| == |events| + 1
    && Initial(states[0])
    && forall i :: 0 <= i < |events| ==> Step(states[i], events[i], states[i + 1])
  }

  lemma {:induction false} Reached(states: seq<State>, events: seq<Event>, i: nat)
    requires IsRun(states, events) && i <= |events|
    ensures Conserved(states[i]) && states[i].ncls == states[0].ncls
  {
    if i == 0 {
      InitialConserved(states[0]);
    } else {
      Reached(states, events, i - 1);
      StepConserves(states[i - 1], events[i - 1], states[i - 1 + 1]);
    }
  }

  /** Over every interleaving of any number of threads: the count is conserved at every moment,
      and every claim gets a cluster of the segment that no thread holds. */
  lemma RunsConserve(states: seq<State>, events: seq<Event>)
    requires IsRun(states, events)
    ensures forall i :: 0 <= i < |states| ==> Conserved(states[i]) && states[i].ncls == states[0].ncls
    ensures forall i :: 0 <= i < |events| && events[i].Claim? ==>
              events[i].cluster < states[0].ncls && events[i].cluster !in states[i].held
  {
    forall i | 0 <= i < |states| ensures Conserved(states[i]) && states[i].ncls == states[0].ncls {
      Reached(states, events, i);
    }
    forall i | 0 <= i < |events| && events[i].Claim?
      ensures events[i].cluster < states[0].ncls && events[i].cluster !in states[i].held
    {
      StepConserves(states[i], events[i], states[i + 1]);
    }
  }

  /** ps_deallocate_cluster checks only the range. Applied to an in-range cluster it keeps the
      count of clear bits exactly when that cluster was really in use. */
  lemma FreeKeepsCountIff(s: State, c: nat)
    requires Conserved(s) && c < s.ncls
    ensures |Below(s.ncls) - (s.used - {c})| == (s.clcount + 1) + |s.reserved| <==> c in s.used
  {
    if c in s.used {
      assert Below(s.ncls) - (s.used - {c}) == (Below(s.ncls) - s.used) + {c};
    } else {
      assert s.used - {c} == s.used;
    }
  }
}
