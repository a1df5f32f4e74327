/** ps_clunmap on any range of pages: what becomes of every entry, and which clusters are given back. A
    page is known by its cluster `k` and its place `off` there. */
module Unmapping {
  import opened Division
  import opened Slots

  /** The pages of cluster `c` among `len` pages from page `off` of cluster `k` on. */
  function Within(cs: nat, k: nat, off: nat, len: nat, c: nat): set<nat>
    requires off < cs
    decreases c - k
  {
    if c < k then {}
    else if c == k then Pages(off, Min(off + len, cs))
    else if len <= cs - off then {}
    else Within(cs, k + 1, 0, len - (cs - off), c)
  }

  /** An entry that loses some pages, and the cluster given back when it has no allocated one left. */
  function Less(e: Entry, pages: set<nat>): (Entry, seq<Loc>) {
    if e.IsClr() || pages == {} then (e, [])
    else
      var r := e.(bmap := e.bmap - pages, alloc := e.alloc - pages);
      if r.alloc == {} then (CLEAR, [e.Location()]) else (r, [])
  }

  /** The loop comes from cluster `k` to cluster `c`: no indirect block on the way is missing. */
  ghost predicate Reached(s: Table, k: nat, c: nat) {
    forall j: nat :: k <= j <= c ==> j < |s| && s[j].Some?
  }

  /** The clusters given back, one cluster of the object after the other. */
  function Freed(s: Table, cs: nat, k: nat, off: nat, len: nat): seq<Loc>
    requires off < cs
    decreases len
  {
    if len == 0 || k >= |s| || s[k].None? then []
    else
      var done := Less(s[k].value, Pages(off, Min(off + len, cs))).1;
      if len <= cs - off then done else done + Freed(s, cs, k + 1, 0, len - (cs - off))
  }

  /** The loop, a cluster at a time. */
  function UnmapAt(s: Table, cs: nat, k: nat, off: nat, len: nat): Unmapped
    requires off < cs
    decreases len
  {
    if len == 0 || k >= |s| || s[k].None? then Unmapped(s, [])
    else
      var e := Less(s[k].value, Pages(off, Min(off + len, cs)));
      if len <= cs - off then Unmapped(s[k := Some(e.0)], e.1)
      else
        var rest := UnmapAt(s[k := Some(e.0)], cs, k + 1, 0, len - (cs - off));
        Unmapped(rest.table, e.1 + rest.freed)
  }

  // ---- The loop is that of the source ----

  lemma NextPage(cs: nat, page: nat, n: nat)
    requires cs > 0 && page % cs + n <= cs
    ensures page % cs + n < cs ==> (page + n) / cs == page / cs && (page + n) % cs == page % cs + n
    ensures page % cs + n == cs ==> (page + n) / cs == page / cs + 1 && (page + n) % cs == 0
  {
    if page % cs + n < cs {
      DivModUnique(page + n, cs, page / cs, page % cs + n);
    } else {
      Regrouped(page / cs, cs);
      DivModUnique(page + n, cs, page / cs + 1, 0);
    }
  }

  lemma Regrouped(q: nat, cs: nat)
    ensures q * cs + cs == (q + 1) * cs
  {
  }

  /** Passing over one page of a clear entry leaves what there was to do. */
  lemma ClearSkipped(s: Table, cs: nat, k: nat, off: nat, len: nat)
    requires off < cs && len > 0 && k < |s| && s[k].Some? && s[k].value.IsClr()
    ensures UnmapAt(s, cs, k, off, len) == if off + 1 < cs then UnmapAt(s, cs, k, off + 1, len - 1) else UnmapAt(s, cs, k + 1, 0, len - 1)
  {
    assert s[k := Some(s[k].value)] == s;
    assert Less(s[k].value, Pages(off, Min(off + len, cs))) == (s[k].value, []);
    if off + 1 < cs && len > 1 {
      assert Less(s[k].value, Pages(off + 1, Min(off + 1 + (len - 1), cs))) == (s[k].value, []);
    }
  }

  lemma {:induction false} ClunmapIs(s: Table, cs: nat, page: nat, len: nat)
    requires cs > 0 && (len > 0 ==> (page + len - 1) / cs < |s|)
    ensures Clunmap(s, cs, page, len) == UnmapAt(s, cs, page / cs, page % cs, len)
    decreases len, 1
  {
    if len > 0 {
      DivMonotone(page, page + len - 1, cs);
      if s[page / cs].Some? {
        if s[page / cs].value.IsClr() {
          ClearRound(s, cs, page, len, page / cs, page % cs);
        } else {
          EntryRound(s, cs, page, len, page / cs, page % cs);
        }
      }
    }
  }

  lemma {:induction false} ClearRound(s: Table, cs: nat, page: nat, len: nat, k: nat, off: nat)
    requires cs > 0 && len > 0 && (page + len - 1) / cs < |s| && k == page / cs < |s| && off == page % cs
    requires s[k].Some? && s[k].value.IsClr()
    ensures Clunmap(s, cs, page, len) == UnmapAt(s, cs, k, off, len)
    decreases len, 0
  {
    NextPage(cs, page, 1);
    ClearSkipped(s, cs, k, off, len);
    if off + 1 < cs {
      NextIs(s, cs, page + 1, len - 1, k, off + 1);
    } else {
      NextIs(s, cs, page + 1, len - 1, k + 1, 0);
    }
  }

  lemma {:induction false} EntryRound(s: Table, cs: nat, page: nat, len: nat, k: nat, off: nat)
    requires cs > 0 && len > 0 && (page + len - 1) / cs < |s| && k == page / cs < |s| && off == page % cs
    requires s[k].Some? && !s[k].value.IsClr()
    ensures Clunmap(s, cs, page, len) == UnmapAt(s, cs, k, off, len)
    decreases len, 0
  {
    if len <= cs - off {
      LastRound(s, cs, page, len, k, off);
    } else {
      var n := cs - off;
      var e := Less(s[k].value, Pages(off, off + n));
      NextPage(cs, page, n);
      RoundIs(s, cs, page, len, k, off, n, e, s[k := Some(e.0)]);
      NextIs(s[k := Some(e.0)], cs, page + n, len - n, k + 1, 0);
      UnmapRound(s, cs, k, off, len, n, e, s[k := Some(e.0)]);
    }
  }

  lemma LastRound(s: Table, cs: nat, page: nat, len: nat, k: nat, off: nat)
    requires cs > 0 && 0 < len <= cs - off && (page + len - 1) / cs < |s| && k == page / cs < |s| && off == page % cs
    requires s[k].Some? && !s[k].value.IsClr()
    ensures Clunmap(s, cs, page, len) == UnmapAt(s, cs, k, off, len)
  {
    var e := Less(s[k].value, Pages(off, off + len));
    RoundIs(s, cs, page, len, k, off, len, e, s[k := Some(e.0)]);
    UnmapRound(s, cs, k, off, len, len, e, s[k := Some(e.0)]);
  }

  lemma UnmapRound(s: Table, cs: nat, k: nat, off: nat, len: nat, n: nat, e: (Entry, seq<Loc>), s1: Table)
    requires off < cs && len > 0 && k < |s| && s[k].Some? && n == Min(cs - off, len)
    requires e == Less(s[k].value, Pages(off, off + n)) && s1 == s[k := Some(e.0)]
    ensures len <= cs - off ==> UnmapAt(s, cs, k, off, len) == Unmapped(s1, e.1)
    ensures len > cs - off ==>
              var rest := UnmapAt(s1, cs, k + 1, 0, len - n); UnmapAt(s, cs, k, off, len) == Unmapped(rest.table, e.1 + rest.freed)
  {
    assert Min(off + len, cs) == off + n;
  }

  lemma {:induction false} NextIs(s: Table, cs: nat, page: nat, len: nat, k: nat, off: nat)
    requires cs > 0 && page / cs == k && page % cs == off && (len > 0 ==> (page + len - 1) / cs < |s|)
    ensures Clunmap(s, cs, page, len) == UnmapAt(s, cs, k, off, len)
    decreases len, 2
  {
    ClunmapIs(s, cs, page, len);
  }

  /** One round of the source's loop on an entry that is not clear. */
  lemma RoundIs(s: Table, cs: nat, page: nat, len: nat, k: nat, off: nat, n: nat, e: (Entry, seq<Loc>), s1: Table)
    requires cs > 0 && len > 0 && (page + len - 1) / cs < |s| && k == page / cs < |s| && off == page % cs && n == Min(cs - off, len)
    requires s[k].Some? && !s[k].value.IsClr() && e == Less(s[k].value, Pages(off, off + n)) && s1 == s[k := Some(e.0)]
    ensures var rest := Clunmap(s1, cs, page + n, len - n); Clunmap(s, cs, page, len) == Unmapped(rest.table, e.1 + rest.freed)
  {
    assert off in Pages(off, off + n);
  }

  // ---- What it does ----

  lemma UnmapAtIs(s: Table, cs: nat, k: nat, off: nat, len: nat)
    requires off < cs
    ensures var r := UnmapAt(s, cs, k, off, len);
            && |r.table| == |s| && r.freed == Freed(s, cs, k, off, len)
            && forall c: nat :: c < |s| ==>
                 r.table[c] == if k <= c && Reached(s, k, c) then Some(Less(s[c].value, Within(cs, k, off, len, c)).0) else s[c]
  {
    UnmapFreed(s, cs, k, off, len);
    var r := UnmapAt(s, cs, k, off, len).table;
    forall c: nat | c < |s|
      ensures r[c] == if k <= c && Reached(s, k, c) then Some(Less(s[c].value, Within(cs, k, off, len, c)).0) else s[c]
    {
      UnmapEntry(s, cs, k, off, len, c);
    }
  }

  lemma {:induction false} UnmapFreed(s: Table, cs: nat, k: nat, off: nat, len: nat)
    requires off < cs
    ensures var r := UnmapAt(s, cs, k, off, len); |r.table| == |s| && r.freed == Freed(s, cs, k, off, len)
    decreases len
  {
    if len > 0 && k < |s| && s[k].Some? && len > cs - off {
      var s1 := s[k := Some(Less(s[k].value, Pages(off, Min(off + len, cs))).0)];
      UnmapFreed(s1, cs, k + 1, 0, len - (cs - off));
      FreedAfter(s, s1, cs, k + 1, 0, len - (cs - off));
    }
  }

  /** What becomes of the entry of cluster `c`. */
  ghost predicate EntryIs(s: Table, cs: nat, k: nat, off: nat, len: nat, c: nat)
    requires off < cs && c < |s|
  {
    var r := UnmapAt(s, cs, k, off, len).table;
    |r| == |s| && r[c] == if k <= c && Reached(s, k, c) then Some(Less(s[c].value, Within(cs, k, off, len, c)).0) else s[c]
  }

  lemma {:induction false} UnmapEntry(s: Table, cs: nat, k: nat, off: nat, len: nat, c: nat)
    requires off < cs && c < |s|
    ensures EntryIs(s, cs, k, off, len, c)
    decreases len
  {
    if len > 0 && k < |s| && s[k].Some? && len > cs - off {
      var e := Less(s[k].value, Pages(off, Min(off + len, cs)));
      var s1 := s[k := Some(e.0)];
      UnmapEntry(s1, cs, k + 1, 0, len - (cs - off), c);
      EarlierEntry(s, s1, cs, k, off, len, c, e);
    } else {
      LastEntry(s, cs, k, off, len, c);
    }
  }

  lemma LastEntry(s: Table, cs: nat, k: nat, off: nat, len: nat, c: nat)
    requires off < cs && c < |s| && (len <= cs - off || k >= |s| || s[k].None?)
    ensures EntryIs(s, cs, k, off, len, c)
  {
    NothingLater(s, cs, k, off, len);
  }

  lemma EarlierEntry(s: Table, s1: Table, cs: nat, k: nat, off: nat, len: nat, c: nat, e: (Entry, seq<Loc>))
    requires off < cs && c < |s| && len > cs - off && k < |s| && s[k].Some?
    requires e == Less(s[k].value, Pages(off, Min(off + len, cs))) && s1 == s[k := Some(e.0)] && EntryIs(s1, cs, k + 1, 0, len - (cs - off), c)
    ensures EntryIs(s, cs, k, off, len, c)
  {
    if k < c {
      ReachedOn(s, s1, k, c);
    }
  }

  lemma ReachedOn(s: Table, s1: Table, k: nat, c: nat)
    requires k < c < |s| == |s1| && s[k].Some? && forall j: nat :: k < j < |s| ==> s1[j] == s[j]
    ensures Reached(s1, k + 1, c) <==> Reached(s, k, c)
  {
    if Reached(s1, k + 1, c) {
      forall j: nat | k <= j <= c ensures j < |s| && s[j].Some? {
        assert j > k ==> s1[j].Some?;
      }
    }
  }

  lemma {:induction false} FreedAfter(s: Table, s1: Table, cs: nat, k: nat, off: nat, len: nat)
    requires off < cs && |s1| == |s| && forall j: nat :: k <= j < |s| ==> s1[j] == s[j]
    ensures Freed(s1, cs, k, off, len) == Freed(s, cs, k, off, len)
    decreases len
  {
    if len > cs - off && k < |s| && s[k].Some? {
      FreedAfter(s, s1, cs, k + 1, 0, len - (cs - off));
    }
  }

  /** A range that ends in its first cluster, or is stopped there, does nothing to later ones. */
  lemma NothingLater(s: Table, cs: nat, k: nat, off: nat, len: nat)
    requires off < cs && (len <= cs - off || k >= |s| || s[k].None?)
    ensures forall c: nat :: k < c < |s| && Reached(s, k, c) ==> Less(s[c].value, Within(cs, k, off, len, c)).0 == s[c].value
    ensures len == 0 ==> Pages(off, Min(off + len, cs)) == {}
  {
    forall c: nat | k < c < |s| && Reached(s, k, c) ensures Less(s[c].value, Within(cs, k, off, len, c)).0 == s[c].value {
      assert k < |s| && s[k].Some?;
    }
  }

  /** For every range: each entry that the loop comes to loses exactly its pages of the range, all others stay
      as they are, and the clusters with no allocated page left are given back in order. */
  lemma ClunmapAll(s: Table, cs: nat, page: nat, len: nat)
    requires cs > 0 && (len > 0 ==> (page + len - 1) / cs < |s|)
    ensures var r, k, off := Clunmap(s, cs, page, len), page / cs, page % cs;
            && |r.table| == |s| && r.freed == Freed(s, cs, k, off, len)
            && forall c: nat :: c < |s| ==>
                 r.table[c] == if k <= c && Reached(s, k, c) then Some(Less(s[c].value, Within(cs, k, off, len, c)).0) else s[c]
  {
    ClunmapIs(s, cs, page, len);
    UnmapAtIs(s, cs, page / cs, page % cs, len);
  }
}
