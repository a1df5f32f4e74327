/** The page table of a memory object as one flat sequence of slots (default_pager_internal.h,
    struct vs_map and the VSM macros; dp_backing_store.c, ps_map_extend, ps_clmap, ps_clunmap).
    Offsets and sizes are in pages, and a bitmap of the pages of a cluster is a set of page
    numbers. The class VsMap implements these functions on the real two-level structure. */
module Slots {
  import opened Division

  const CLMAP_ENTRIES: nat := 64
  const VSM_ENTRY_NULL: nat := 0x7fffff
  const VSM_ENTRY_RANGE: nat := 0x800000

  datatype Option<T> = None | Some(value: T)

  /** A cluster of a paging segment. */
  datatype Loc = Loc(ps: nat, cl: nat)

  datatype Entry = Entry(entry: nat, psindex: nat, error: bool, bmap: set<nat>, alloc: set<nat>)
  {
    predicate IsClr() { entry == VSM_ENTRY_NULL && !error }

    /** The entry names a cluster. */
    predicate IsMapped() { !IsClr() && !error }

    function Location(): Loc { Loc(psindex, entry) }
  }

  const CLEAR: Entry := Entry(VSM_ENTRY_NULL, 0, false, {}, {})

  /** The entry field is 23 bits wide. */
  function SetClOff(e: Entry, cluster: nat): Entry {
    e.(entry := cluster % VSM_ENTRY_RANGE)
  }

  function SetErr(e: Entry, error: nat): Entry {
    e.(error := true, entry := error % VSM_ENTRY_RANGE)
  }

  /** A cluster number survives the 23-bit field, and does not look clear, exactly below the reserved value. */
  lemma ClusterNumberLimit(cluster: nat)
    ensures SetClOff(CLEAR, cluster).IsMapped() && SetClOff(CLEAR, cluster).entry == cluster <==> cluster < VSM_ENTRY_NULL
  {
  }

  /** The pages lo .. hi-1 of a cluster. */
  function Pages(lo: nat, hi: nat): (s: set<nat>)
    ensures forall i: nat :: i in s <==> lo <= i < hi
  {
    if lo >= hi then {} else Pages(lo, hi - 1) + {hi - 1}
  }

  /** CLMAP_SHIFT: the bitmap of the pages from `off` on, renumbered from 0. */
  function Shift(pages: set<nat>, off: nat): (s: set<nat>)
    ensures forall i: nat :: i in s <==> i + off in pages
  {
    set p | p in pages && p >= off :: p - off
  }

  // ---- The flat table ----

  /** A slot is absent when its indirect block has not been allocated. */
  type Table = seq<Option<Entry>>

  /** What a lookup sees: an absent slot, or one past the end, reads as clear. */
  function Lookup(s: Table, k: nat): Entry {
    if k < |s| && s[k].Some? then s[k].value else CLEAR
  }

  predicate BlockPresent(s: Table, b: nat) {
    b * CLMAP_ENTRIES < |s| && s[b * CLMAP_ENTRIES].Some?
  }

  predicate Indirect(size: nat) { size > CLMAP_ENTRIES }

  function Blocks(size: nat): nat
    requires size > 0
  {
    (size - 1) / CLMAP_ENTRIES + 1
  }

  /** A direct map has every slot; an indirect one has whole blocks. */
  ghost predicate WellFormed(s: Table) {
    && |s| > 0
    && (!Indirect(|s|) ==> forall k :: 0 <= k < |s| ==> s[k].Some?)
    && forall k: nat :: k < |s| ==> (s[k].Some? <==> BlockPresent(s, k / CLMAP_ENTRIES))
  }

  /** The table grown to `n` slots: new slots of an allocated block are clear, the others absent. */
  function Extended(s: Table, n: nat): (r: Table)
    ensures |r| == if n > |s| then n else |s|
  {
    if n <= |s| then s
    else s + seq(n - |s|, i requires 0 <= i => if BlockPresent(s, (|s| + i) / CLMAP_ENTRIES) then Some(CLEAR) else None)
  }

  /** The table after the indirect block of slot `k` has been allocated and cleared. */
  function WithBlock(s: Table, k: nat): (r: Table)
    ensures |r| == |s|
  {
    seq(|s|, i requires 0 <= i < |s| =>
      if i / CLMAP_ENTRIES == k / CLMAP_ENTRIES && s[i].None? then Some(CLEAR) else s[i])
  }

  /** Growing the table is invisible to lookups. */
  lemma ExtendedKeepsLookups(s: Table, n: nat)
    requires WellFormed(s)
    ensures WellFormed(Extended(s, n))
    ensures forall i: nat :: Lookup(Extended(s, n), i) == Lookup(s, i)
  {
    var r := Extended(s, n);
    assert !Indirect(|s|) ==> BlockPresent(s, 0);
    forall i: nat | i < |r| ensures r[i].Some? <==> BlockPresent(r, i / CLMAP_ENTRIES) {
      assert i / CLMAP_ENTRIES * CLMAP_ENTRIES / CLMAP_ENTRIES == i / CLMAP_ENTRIES;
    }
  }

  /** So is allocating an indirect block. */
  lemma WithBlockKeepsLookups(s: Table, k: nat)
    requires WellFormed(s)
    ensures WellFormed(WithBlock(s, k))
    ensures forall i: nat :: Lookup(WithBlock(s, k), i) == Lookup(s, i)
    ensures k < |s| ==> WithBlock(s, k)[k].Some?
  {
    var w := WithBlock(s, k);
    forall i: nat | i < |w| ensures w[i].Some? <==> BlockPresent(w, i / CLMAP_ENTRIES) {
      assert i / CLMAP_ENTRIES * CLMAP_ENTRIES / CLMAP_ENTRIES == i / CLMAP_ENTRIES;
    }
  }

  // ---- ps_clmap ----

  datatype Flag = Find | Alloc

  /** Which of the allocations that ps_clmap may make succeed. */
  datatype Memory = Memory(whole: bool, page: bool, block: bool)

  datatype Reply =
    | Failed(error: nat)                                    // (vm_offset_t) -1, with clmap.cl_error
    | Completed                                             // 0: a write completion was recorded
    | Found(at: Loc, first: nat, numpages: nat, bmap: set<nat>, alloc: set<nat>)

  /** `asked`: ps_allocate_cluster was called. `freed`: the cluster given back, if any. */
  datatype EntryOutcome = EntryOutcome(entry: Entry, reply: Reply, asked: bool, freed: Option<Loc>)
  datatype Outcome = Outcome(table: Table, reply: Reply, asked: bool, freed: Option<Loc>)

  /** The end of ps_clmap, on an entry that names a cluster; `off` is the page within the cluster. */
  function Finish(e: Entry, cs: nat, off: nat, flag: Flag, size: nat, error: nat, asked: bool): EntryOutcome
    requires off < cs
  {
    var e1 := if flag.Alloc? then e.(alloc := e.alloc + Pages(off, Min(off + size, cs))) else e;
    if size > 0 && flag.Find? then
      if error == 0 then EntryOutcome(e1.(bmap := e1.bmap + Pages(off, off + size)), Completed, asked, None)
      else EntryOutcome(SetErr(e1, error), Completed, asked, if e1.entry != 0 then Some(e1.Location()) else None)
    else EntryOutcome(e1, Found(e1.Location(), off, cs - off, Shift(e.bmap, off), Shift(e1.alloc, off)), asked, None)
  }

  /** ps_clmap on the entry of the wanted cluster; `space` is what ps_allocate_cluster returns. */
  function ClmapEntry(e: Entry, cs: nat, off: nat, flag: Flag, size: nat, error: nat, space: Option<Loc>): EntryOutcome
    requires off < cs
  {
    if e.error then EntryOutcome(e, Failed(e.entry), false, None)
    else if e.IsClr() then
      if flag.Find? then EntryOutcome(if error != 0 then SetErr(e, error) else e, Failed(0), false, None)
      else if space.None? then EntryOutcome(e, Failed(0), true, None)
      else Finish(SetClOff(CLEAR, space.value.cl).(psindex := space.value.ps), cs, off, flag, size, error, true)
    else Finish(e, cs, off, flag, size, error, false)
  }

  predicate ExtendSucceeds(size: nat, n: nat, mem: Memory)
    requires 0 < size < n
  {
    if !Indirect(n) then mem.whole
    else if Indirect(size) then Blocks(n) == Blocks(size) || mem.whole
    else mem.whole && mem.page
  }

  /** The table after the growth that ps_clmap attempts before it looks at slot `k`. */
  function Reach(s: Table, k: nat, flag: Flag, mem: Memory): (r: Table)
    requires |s| > 0
    ensures |r| >= |s|
  {
    if flag.Find? || (k >= |s| && !ExtendSucceeds(|s|, k + 1, mem)) then s
    else
      var s1 := Extended(s, k + 1);
      if s1[k].None? && mem.block then WithBlock(s1, k) else s1
  }

  /** ps_clmap: page `page` of an object with clusters of `cs` pages. */
  function Clmap(s: Table, cs: nat, page: nat, flag: Flag, size: nat, error: nat, mem: Memory, space: Option<Loc>): Outcome
    requires cs > 0 && |s| > 0
  {
    var k := page / cs;
    var s1 := Reach(s, k, flag, mem);
    if k < |s1| && s1[k].Some? then
      var o := ClmapEntry(s1[k].value, cs, page % cs, flag, size, error, space);
      Outcome(s1[k := Some(o.entry)], o.reply, o.asked, o.freed)
    else Outcome(s1, Failed(0), false, None)
  }

  // ---- ps_clunmap ----

  datatype Unmapped = Unmapped(table: Table, freed: seq<Loc>)

  /** ps_clunmap of `len` pages from `page` on; `freed` lists the clusters given back, in order. */
  function Clunmap(s: Table, cs: nat, page: nat, len: nat): (r: Unmapped)
    requires cs > 0 && (len > 0 ==> (page + len - 1) / cs < |s|)
    ensures |r.table| == |s|
    decreases len
  {
    if len == 0 then Unmapped(s, [])
    else
      DivMonotone(page, page + len - 1, cs);
      var k := page / cs;
      if s[k].None? then Unmapped(s, [])
      else if s[k].value.IsClr() then Clunmap(s, cs, page + 1, len - 1)
      else
        var off := page % cs;
        var n := Min(cs - off, len);
        var e := ClearPages(s[k].value, off, n);
        if e.alloc == {} then
          var rest := Clunmap(s[k := Some(CLEAR)], cs, page + n, len - n);
          Unmapped(rest.table, [e.Location()] + rest.freed)
        else Clunmap(s[k := Some(e)], cs, page + n, len - n)
  }

  function ClearPages(e: Entry, off: nat, n: nat): Entry {
    e.(bmap := e.bmap - Pages(off, off + n), alloc := e.alloc - Pages(off, off + n))
  }

  // ---- ps_vstruct_dealloc ----

  /** The clusters of an object in slot order: every mapped entry, once. */
  function MappedLocs(s: Table): seq<Loc> {
    if s == [] then []
    else
      var n := |s| - 1;
      MappedLocs(s[..n]) + (if Lookup(s, n).IsMapped() then [Lookup(s, n).Location()] else [])
  }

  // ---- What the operations do to lookups ----

  /** The outcome `o` of ps_clmap on slot `k` of a table: it changes at most that slot's entry, and
      as `eo` says; or it finds no slot (a lookup) or no memory (an allocation) and changes no entry. */
  ghost predicate Effect(s: Table, k: nat, eo: EntryOutcome, o: Outcome) {
    && WellFormed(o.table)
    && (forall i: nat :: i != k ==> Lookup(o.table, i) == Lookup(s, i))
    && (|| EntryOutcome(Lookup(o.table, k), o.reply, o.asked, o.freed) == eo
        || (Lookup(s, k) == CLEAR == Lookup(o.table, k) && o.reply == Failed(0) && !o.asked && o.freed == None))
  }

  lemma ClmapEffect(s: Table, cs: nat, page: nat, flag: Flag, size: nat, error: nat, mem: Memory, space: Option<Loc>)
    requires cs > 0 && WellFormed(s)
    ensures Effect(s, page / cs, ClmapEntry(Lookup(s, page / cs), cs, page % cs, flag, size, error, space),
                   Clmap(s, cs, page, flag, size, error, mem, space))
  {
    var k := page / cs;
    var s1 := Reach(s, k, flag, mem);
    ExtendedKeepsLookups(s, k + 1);
    if !(flag.Find? || (k >= |s| && !ExtendSucceeds(|s|, k + 1, mem))) {
      WithBlockKeepsLookups(Extended(s, k + 1), k);
    }
    assert WellFormed(s1) && forall i: nat :: Lookup(s1, i) == Lookup(s, i);
    if k < |s1| && s1[k].Some? {
      var eo := ClmapEntry(s1[k].value, cs, page % cs, flag, size, error, space);
      PutKeepsWellFormed(s1, k, eo.entry);
    }
  }

  lemma PutKeepsWellFormed(s: Table, k: nat, e: Entry)
    requires WellFormed(s) && k < |s| && s[k].Some?
    ensures WellFormed(s[k := Some(e)])
    ensures forall i: nat :: i != k ==> Lookup(s[k := Some(e)], i) == Lookup(s, i)
    ensures Lookup(s[k := Some(e)], k) == e
  {
    var r := s[k := Some(e)];
    forall i: nat | i < |r| ensures r[i].Some? <==> BlockPresent(r, i / CLMAP_ENTRIES) {
      assert s[i].Some? <==> BlockPresent(s, i / CLMAP_ENTRIES);
      assert BlockPresent(r, i / CLMAP_ENTRIES) <==> BlockPresent(s, i / CLMAP_ENTRIES);
    }
  }

  /** The entry left by ps_clunmap of pages within one cluster, and the cluster given back. */
  function UnmapEntry(e: Entry, off: nat, n: nat): (Entry, seq<Loc>) {
    if e.IsClr() then (e, [])
    else
      var e' := ClearPages(e, off, n);
      if e'.alloc == {} then (CLEAR, [e'.Location()]) else (e', [])
  }

  /** The outcome of ps_clunmap of pages within the cluster of slot `k`. */
  ghost predicate UnmapEffect(s: Table, k: nat, eo: (Entry, seq<Loc>), u: Unmapped) {
    && WellFormed(u.table)
    && (forall i: nat :: i != k ==> Lookup(u.table, i) == Lookup(s, i))
    && (Lookup(u.table, k), u.freed) == eo
  }

  lemma ClunmapEffect(s: Table, cs: nat, page: nat, len: nat)
    requires WellFormed(s) && cs > 0 && len > 0 && page % cs + len <= cs
    requires page / cs < |s| && s[page / cs].Some? && !s[page / cs].value.IsClr()
    ensures (page + len - 1) / cs == page / cs
    ensures UnmapEffect(s, page / cs, UnmapEntry(Lookup(s, page / cs), page % cs, len), Clunmap(s, cs, page, len))
  {
    SameCluster(page, len - 1, cs);
    var k := page / cs;
    var e := ClearPages(s[k].value, page % cs, len);
    var e' := if e.alloc == {} then CLEAR else e;
    PutKeepsWellFormed(s, k, e');
    ClunmapOne(s, cs, page, len);
  }

  lemma ClunmapOne(s: Table, cs: nat, page: nat, len: nat)
    requires cs > 0 && len > 0 && page % cs + len <= cs
    requires page / cs < |s| && s[page / cs].Some? && !s[page / cs].value.IsClr()
    requires (page + len - 1) / cs == page / cs
    ensures var e := ClearPages(s[page / cs].value, page % cs, len);
      Clunmap(s, cs, page, len) == if e.alloc == {} then Unmapped(s[page / cs := Some(CLEAR)], [e.Location()])
                                   else Unmapped(s[page / cs := Some(e)], [])
  {
    assert Min(cs - page % cs, len) == len;
  }

  /** Page `page + j` lies in the cluster of `page`, `j` pages further. */
  lemma SameCluster(page: nat, j: nat, cs: nat)
    requires cs > 0 && page % cs + j < cs
    ensures (page + j) / cs == page / cs && (page + j) % cs == page % cs + j
  {
    DivModUnique(page + j, cs, page / cs, page % cs + j);
  }
}
