/** The table of paging segments and the round-robin choice of ps_select_segment
    (dp_backing_store.c:1001-1089), with ps_enter (643-671). Segments are never removed, so the
    used slots are 0 .. count-1; of each segment the table keeps the four fields the choice reads. */
module SegmentTables {

  const MAX_NUM_PAGING_SEGMENTS: nat := 31
  const BS_MAXPRI: nat := 4
  const BS_NOPRI: int := -1
  const BS_FULLPRI: int := -2

  datatype Segment = Segment(priority: nat, clshift: nat, clcount: nat, goingAway: bool)

  /** `BadIndex`: the scan of a priority left at BS_FULLPRI begins at index -1, outside the table. */
  datatype Selection = Selected(index: nat) | NoSpace | BadIndex(priority: nat)

  /** A segment that can serve a request of cluster shift `shift` at priority `p`. */
  predicate Eligible(s: Segment, p: nat, shift: nat) {
    s.priority == p && !s.goingAway && s.clcount > 0 && s.clshift >= shift
  }

  predicate NoneAt(segs: seq<Segment>, p: nat, shift: nat) {
    forall i :: 0 <= i < |segs| ==> !Eligible(segs[i], p, shift)
  }

  /** No eligible segment at any priority above `p`. */
  predicate NoneAbove(segs: seq<Segment>, p: int, shift: nat) {
    forall q: nat :: p < q <= BS_MAXPRI ==> NoneAt(segs, q, shift)
  }

  /** The table after one cluster of segment `i` has been reserved. */
  function Taken(segs: seq<Segment>, i: nat): seq<Segment>
    requires i < |segs| && segs[i].clcount > 0
  {
    segs[i := segs[i].(clcount := segs[i].clcount - 1)]
  }

  /** The k-th index visited by a scan that starts after `start` in a table of `n` entries. */
  function Cyclic(start: nat, k: nat, n: nat): nat
    requires start < n && k < n
  {
    if start + 1 + k < n then start + 1 + k else start + 1 + k - n
  }

  /** The position at which a scan that starts after `start` reaches index `i`. */
  function VisitOf(start: nat, i: nat, n: nat): (k: nat)
    requires start < n && i < n
    ensures k < n && Cyclic(start, k, n) == i
  {
    if i > start then i - start - 1 else i + n - start - 1
  }

  /** The scan order is a permutation of the table that ends at the last segment used. */
  lemma CyclicOrder(start: nat, n: nat)
    requires start < n
    ensures forall k: nat :: k < n ==> Cyclic(start, k, n) < n && VisitOf(start, Cyclic(start, k, n), n) == k
    ensures Cyclic(start, n - 1, n) == start
  {
  }

  /** `i` is the first eligible segment at priority `p` in cyclic order after the last one used, and
      the marks change accordingly: higher priorities in use become full, lower ones are untouched. */
  ghost predicate RoundRobin(segs: seq<Segment>, before: seq<int>, after: seq<int>, p: nat, i: nat, shift: nat)
    requires |before| == |after| == BS_MAXPRI + 1 && p <= BS_MAXPRI && i < |segs|
  {
    && 0 <= before[p] < |segs| && after[p] == i
    && (forall k: nat :: k < VisitOf(before[p], i, |segs|) ==> !Eligible(segs[Cyclic(before[p], k, |segs|)], p, shift))
    && (forall q: nat :: q < p ==> after[q] == before[q])
    && (forall q: nat :: p < q <= BS_MAXPRI ==> (after[q] == if before[q] == BS_NOPRI then BS_NOPRI else BS_FULLPRI))
  }

  lemma FirstVisited(segs: seq<Segment>, start: nat, visited: seq<nat>, i: nat, p: nat, shift: nat)
    requires start < |segs| && i < |segs| && visited != [] && |visited| <= |segs|
    requires forall k :: 0 <= k < |visited| ==> visited[k] == Cyclic(start, k, |segs|)
    requires visited[|visited| - 1] == i
    requires forall k :: 0 <= k < |visited| - 1 ==> visited[k] < |segs| && !Eligible(segs[visited[k]], p, shift)
    ensures forall k: nat :: k < VisitOf(start, i, |segs|) ==> !Eligible(segs[Cyclic(start, k, |segs|)], p, shift)
  {
    forall k: nat | k < VisitOf(start, i, |segs|) ensures !Eligible(segs[Cyclic(start, k, |segs|)], p, shift) {
      assert VisitOf(start, i, |segs|) == |visited| - 1;
      assert visited[k] == Cyclic(start, k, |segs|);
    }
  }

  /** What ps_select_segment may answer, and how it leaves the table. */
  ghost predicate Chooses(segs: seq<Segment>, select: seq<int>, shift: nat, r: Selection, segs': seq<Segment>, select': seq<int>)
    requires |select| == |select'| == BS_MAXPRI + 1
  {
    match r
    case Selected(i) =>
      && i < |segs| && segs[i].clcount > 0 && !segs[i].goingAway && segs' == Taken(segs, i)
      && (|segs| > 1 ==>
            var p := segs[i].priority;
            p <= BS_MAXPRI && Eligible(segs[i], p, shift) && NoneAbove(segs, p, shift) && RoundRobin(segs, select, select', p, i, shift))
    case NoSpace =>
      segs' == segs && if |segs| == 1 then segs[0].goingAway || segs[0].clcount == 0 else NoneAbove(segs, -1, shift)
    case BadIndex(_) =>
      segs' == segs && |segs| > 1 && exists p: nat :: p <= BS_MAXPRI && select[p] == BS_FULLPRI && NoneAbove(segs, p, shift)
  }

  // ---- The intended choice ----

  /** What the marks are meant to say: a priority marked full starts again at index 0, as it does when a cluster of
      it is given back. */
  function Restarted(select: seq<int>): (r: seq<int>)
    ensures |r| == |select| && forall p :: 0 <= p < |r| ==> r[p] != BS_FULLPRI
  {
    seq(|select|, p requires 0 <= p < |select| => if select[p] == BS_FULLPRI then 0 else select[p])
  }

  /** A segment chosen from the marks as they are is the one that is meant. */
  lemma ChosenAsMeant(segs: seq<Segment>, select: seq<int>, after: seq<int>, after2: seq<int>, i: nat, i2: nat, shift: nat)
    requires |select| == |after| == |after2| == BS_MAXPRI + 1 && i < |segs| && i2 < |segs|
    requires segs[i].priority <= BS_MAXPRI && RoundRobin(segs, select, after, segs[i].priority, i, shift)
    requires segs[i2].priority <= BS_MAXPRI && RoundRobin(segs, Restarted(select), after2, segs[i2].priority, i2, shift)
    requires Eligible(segs[i], segs[i].priority, shift) && NoneAbove(segs, segs[i].priority, shift)
    requires Eligible(segs[i2], segs[i2].priority, shift) && NoneAbove(segs, segs[i2].priority, shift)
    ensures i == i2
  {
    var p, n := segs[i].priority, |segs|;
    assert segs[i2].priority == p by {
      assert !NoneAt(segs, p, shift) && !NoneAt(segs, segs[i2].priority, shift);
    }
    assert Cyclic(select[p], VisitOf(select[p], i, n), n) == i && Cyclic(select[p], VisitOf(select[p], i2, n), n) == i2;
  }

  class SegmentTable {
    var segs: seq<Segment>
    var select: seq<int>

    ghost predicate Valid()
      reads this
    {
      && |segs| <= MAX_NUM_PAGING_SEGMENTS && |select| == BS_MAXPRI + 1
      && (forall i :: 0 <= i < |segs| ==> segs[i].priority <= BS_MAXPRI)
      && (forall p: nat :: p <= BS_MAXPRI ==> BS_FULLPRI <= select[p] && (select[p] >= 0 ==> select[p] < |segs|))
      && (forall p: nat :: p <= BS_MAXPRI && select[p] == BS_NOPRI ==>
            forall i :: 0 <= i < |segs| ==> segs[i].priority != p)
    }

    constructor ()
      ensures Valid() && segs == []
      ensures forall p: nat :: p <= BS_MAXPRI ==> select[p] == BS_NOPRI
    {
      segs := [];
      select := [BS_NOPRI, BS_NOPRI, BS_NOPRI, BS_NOPRI, BS_NOPRI];
    }

    /** ps_enter: the first free slot. A priority seen for the first time starts at index 0, but a
        priority marked full stays marked full although the new segment has space. */
    method Enter(ps: Segment) returns (ok: bool)
      requires Valid() && ps.priority <= BS_MAXPRI
      modifies this
      ensures Valid()
      ensures ok == (|old(segs)| < MAX_NUM_PAGING_SEGMENTS)
      ensures segs == if ok then old(segs) + [ps] else old(segs)
      ensures ok && old(select)[ps.priority] == BS_NOPRI ==> select == old(select)[ps.priority := 0]
      ensures !ok || old(select)[ps.priority] != BS_NOPRI ==> select == old(select)
    {
      ok := |segs| < MAX_NUM_PAGING_SEGMENTS;
      if ok {
        segs := segs + [ps];
        if select[ps.priority] == BS_NOPRI {
          select := select[ps.priority := 0];
        }
      }
    }

    /** The part of ps_deallocate_cluster under the segment's lock: one more free cluster. */
    method GiveBack(i: nat)
      requires Valid() && i < |segs|
      modifies this
      ensures Valid() && select == old(select)
      ensures segs == old(segs)[i := old(segs)[i].(clcount := old(segs)[i].clcount + 1)]
    {
      segs := segs[i := segs[i].(clcount := segs[i].clcount + 1)];
    }

    /** The part under the list's lock, which other threads may come before: a full priority is reset. */
    method ResetFull(p: nat)
      requires Valid() && p <= BS_MAXPRI && segs != []
      modifies this
      ensures Valid() && segs == old(segs)
      ensures select == if old(select)[p] == BS_FULLPRI then old(select)[p := 0] else old(select)
    {
      if select[p] == BS_FULLPRI {
        select := select[p := 0];
      }
    }

    /** The inner loop of ps_select_segment at priority `p`; `visited` is the order in which the
        indices were examined. */
    method ScanPriority(p: nat, shift: nat) returns (found: Selection, ghost visited: seq<nat>)
      requires Valid() && p <= BS_MAXPRI && 0 <= select[p]
      modifies this
      ensures Valid()
      ensures |visited| <= |segs| == |old(segs)| && old(select)[p] < |segs|
      ensures forall k :: 0 <= k < |visited| ==> visited[k] == Cyclic(old(select)[p], k, |segs|)
      ensures found.NoSpace? || found.Selected?
      ensures found.NoSpace? ==> |visited| == |segs| && NoneAt(segs, p, shift)
      ensures found.NoSpace? ==> segs == old(segs) && select == old(select)[p := BS_FULLPRI]
      ensures found.Selected? ==> found.index < |old(segs)| && Eligible(old(segs)[found.index], p, shift)
      ensures found.Selected? ==> segs == Taken(old(segs), found.index) && select == old(select)[p := found.index]
      ensures found.Selected? ==> visited != [] && visited[|visited| - 1] == found.index
      ensures found.Selected? ==> forall k :: 0 <= k < |visited| - 1 ==>
                visited[k] < |old(segs)| && !Eligible(old(segs)[visited[k]], p, shift)
    {
      var start := select[p];
      var j := start + 1;
      visited := [];
      while true
        invariant |visited| < |segs| && segs == old(segs) && select == old(select)
        invariant j == if start + 1 + |visited| <= |segs| then start + 1 + |visited| else start + 1 + |visited| - |segs|
        invariant forall k :: 0 <= k < |visited| ==> visited[k] == Cyclic(start, k, |segs|)
        invariant forall k :: 0 <= k < |visited| ==> !Eligible(segs[visited[k]], p, shift)
        decreases |segs| - |visited|
      {
        if j > |segs| - 1 {
          j := 0;
        }
        assert j == Cyclic(start, |visited|, |segs|);
        visited := visited + [j];
        if segs[j].priority == p && !segs[j].goingAway && segs[j].clcount != 0 && segs[j].clshift >= shift {
          segs := Taken(segs, j);
          select := select[p := j];
          return Selected(j), visited;
        }
        if j == start {
          assert |visited| == |segs|;
          forall i | 0 <= i < |segs| ensures !Eligible(segs[i], p, shift) {
            assert visited[VisitOf(start, i, |segs|)] == i;
          }
          select := select[p := BS_FULLPRI];
          return NoSpace, visited;
        }
        j := j + 1;
      }
    }

    /** ps_select_segment. With one segment it is taken if it has a free cluster, whatever its
        cluster size; otherwise priorities are tried from the highest down. */
    method Select(shift: nat) returns (r: Selection)
      requires Valid()
      modifies this
      ensures Valid()
      ensures Chooses(old(segs), old(select), shift, r, segs, select)
      ensures |segs| > 1 && r.NoSpace? ==>
                forall p: nat :: p <= BS_MAXPRI ==> (select[p] == if old(select)[p] == BS_NOPRI then BS_NOPRI else BS_FULLPRI)
      ensures |segs| > 1 ==> (r.BadIndex? <==> exists p: nat :: p <= BS_MAXPRI && old(select)[p] == BS_FULLPRI
                                                              && NoneAbove(old(segs), p, shift))
    {
      if |segs| == 1 {
        if segs[0].goingAway || segs[0].clcount == 0 {
          return NoSpace;
        }
        segs := Taken(segs, 0);
        return Selected(0);
      }
      if |segs| == 0 {
        return NoSpace;
      }
      var i: int := BS_MAXPRI;
      while i >= 0
        invariant -1 <= i <= BS_MAXPRI
        invariant Valid() && segs == old(segs)
        invariant NoneAbove(segs, i, shift)
        invariant forall q: nat :: q <= i ==> select[q] == old(select)[q]
        invariant forall q: nat :: i < q <= BS_MAXPRI ==> old(select)[q] != BS_FULLPRI
        invariant forall q: nat :: i < q <= BS_MAXPRI ==>
                    (select[q] == if old(select)[q] == BS_NOPRI then BS_NOPRI else BS_FULLPRI)
      {
        if select[i] == BS_FULLPRI {
          return BadIndex(i);
        }
        if select[i] != BS_NOPRI {
          ghost var visited;
          r, visited := ScanPriority(i, shift);
          if r.Selected? {
            FirstVisited(old(segs), old(select)[i], visited, r.index, i, shift);
            forall p: nat | p <= BS_MAXPRI && old(select)[p] == BS_FULLPRI
              ensures !NoneAbove(old(segs), p, shift)
            {
              assert p < i && !NoneAt(old(segs), i, shift);
            }
            return;
          }
        }
        i := i - 1;
      }
      return NoSpace;
    }
  }

  /** A table of several exhausted segments: the first request is refused, and the next one leaves
      the table, because the refusal marked the priorities full. */
  method RefusedTwice(t: SegmentTable, shift: nat) returns (first: Selection, second: Selection)
    requires t.Valid() && |t.segs| > 1 && NoneAbove(t.segs, -1, shift)
    requires forall p: nat :: p <= BS_MAXPRI ==> t.select[p] != BS_FULLPRI
    modifies t
    ensures first == NoSpace && second.BadIndex?
  {
    ghost var p := t.segs[0].priority;
    forall i | 0 <= i < |t.segs| ensures !Eligible(t.segs[i], t.segs[i].priority, shift) {
      assert NoneAt(t.segs, t.segs[i].priority, shift);
    }
    first := t.Select(shift);
    assert t.select[p] == BS_FULLPRI && NoneAbove(t.segs, p, shift);
    second := t.Select(shift);
  }

  /** A segment added while its priority is marked full does not clear the mark, so a later request
      that gets down to that priority still leaves the table. */
  method AddedWhileFull(t: SegmentTable, ps: Segment, shift: nat) returns (ok: bool, r: Selection)
    requires t.Valid() && 1 <= |t.segs| < MAX_NUM_PAGING_SEGMENTS && ps.priority <= BS_MAXPRI
    requires t.select[ps.priority] == BS_FULLPRI && NoneAbove(t.segs, ps.priority, shift)
    modifies t
    ensures ok && r.BadIndex?
  {
    ok := t.Enter(ps);
    assert NoneAbove(t.segs, ps.priority, shift) by {
      forall q: nat, i | ps.priority < q <= BS_MAXPRI && 0 <= i < |t.segs|
        ensures !Eligible(t.segs[i], q, shift)
      {
        assert NoneAt(old(t.segs), q, shift);
      }
    }
    r := t.Select(shift);
  }

  /** The intended choice: with several segments one is found exactly if there is one that can serve the request, and
      the table is never left. */
  method SelectAsMeant(t: SegmentTable, shift: nat) returns (r: Selection)
    requires t.Valid() && |t.segs| > 1
    modifies t
    ensures t.Valid() && !r.BadIndex? && (r.NoSpace? <==> NoneAbove(old(t.segs), -1, shift))
    ensures r.Selected? ==> r.index < |old(t.segs)| && var p := old(t.segs)[r.index].priority;
              && Eligible(old(t.segs)[r.index], p, shift) && NoneAbove(old(t.segs), p, shift)
              && RoundRobin(old(t.segs), Restarted(old(t.select)), t.select, p, r.index, shift) && t.segs == Taken(old(t.segs), r.index)
  {
    t.select := Restarted(t.select);
    ghost var segs := t.segs;
    r := t.Select(shift);
    if r.Selected? {
      assert !NoneAt(segs, segs[r.index].priority, shift);
    }
  }
}
