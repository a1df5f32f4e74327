/** The page table of one memory object (dp_backing_store.c): a flat array of entries up to 64
    clusters, and above that an array of pointers to blocks of 64 entries, each allocated when
    it is first needed. Every method is proved against the flat table of module Slots. */
module VsMaps {
  import opened Slots
  import opened Division

  /** clusters_committed; module Committed shows that it is the sum of the sizes of all objects. */
  class Totals {
    var committed: int

    constructor ()
      ensures committed == 0
    {
      committed := 0;
    }
  }

  const ENTRY_BYTES: nat := 8
  const POINTER_BYTES: nat := 4

  class VsMap {
    const cs: nat
    const totals: Totals
    var size: nat
    var indirect: bool
    var dirmap: array?<Entry>
    var indmap: array?<array?<Entry>>
    ghost var table: Table
    ghost var Repr: set<object>

    ghost predicate Valid()
      reads this, Repr
    {
      && this in Repr && (totals as object) !in Repr && cs > 0
      && |table| == size > 0 && indirect == Indirect(size)
      && (!indirect ==> DirectOk())
      && (indirect ==> IndirectOk())
    }

    ghost predicate DirectOk()
      reads this, Repr
    {
      && dirmap != null && dirmap in Repr && dirmap.Length == size == |table|
      && forall k: nat :: k < size ==> table[k] == Some(dirmap[k])
    }

    ghost predicate IndirectOk()
      reads this, Repr
    {
      && indmap != null && indmap in Repr && size == |table| && size > 0 && indmap.Length == Blocks(size)
      && (forall b: nat :: b < indmap.Length && indmap[b] != null ==> indmap[b] in Repr && indmap[b].Length == CLMAP_ENTRIES)
      && (forall b: nat, c: nat :: b < c < indmap.Length && indmap[b] != null ==> indmap[b] != indmap[c])
      && (forall b: nat, j: nat :: b < indmap.Length && j < CLMAP_ENTRIES ==>
            SlotOk(b, j))
    }

    /** Entry `j` of block `b` agrees with the flat table. */
    ghost predicate SlotOk(b: nat, j: nat)
      requires indmap != null && indmap in Repr && b < indmap.Length && j < CLMAP_ENTRIES
      requires indmap[b] != null ==> indmap[b] in Repr && indmap[b].Length == CLMAP_ENTRIES
      reads this, Repr
    {
      if indmap[b] == null then SlotAbsent(b, j) else SlotIs(b, j, indmap[b][j])
    }

    ghost predicate SlotAbsent(b: nat, j: nat)
      reads this
    {
      b * CLMAP_ENTRIES + j < |table| ==> table[b * CLMAP_ENTRIES + j] == None
    }

    /** Entry `j` of block `b`; the entries of the last block beyond the object's size are clear. */
    ghost predicate SlotIs(b: nat, j: nat, e: Entry)
      reads this
    {
      if b * CLMAP_ENTRIES + j < |table| then table[b * CLMAP_ENTRIES + j] == Some(e) else e == CLEAR
    }

    lemma ValidWellFormed()
      requires Valid()
      ensures WellFormed(table)
    {
      if indirect {
        forall k: nat | k < |table| ensures table[k].Some? <==> BlockPresent(table, k / CLMAP_ENTRIES) {
          var b := k / CLMAP_ENTRIES;
          assert b < indmap.Length;
          assert SlotOk(b, k % CLMAP_ENTRIES);
          assert SlotOk(b, 0);
        }
      }
    }

    /** ps_vstruct_create for an object of `size` clusters, when its memory can be had. */
    constructor (size: nat, cs: nat, totals: Totals)
      requires size > 0 && cs > 0
      modifies totals
      ensures Valid() && fresh(Repr)
      ensures this.cs == cs && this.totals == totals
      ensures |table| == size && forall k: nat :: Lookup(table, k) == CLEAR
      ensures forall k: nat :: k < size ==> table[k] == if Indirect(size) then None else Some(CLEAR)
      ensures totals.committed == old(totals.committed) + size
    {
      this.size := size;
      this.cs := cs;
      this.totals := totals;
      this.indirect := Indirect(size);
      if Indirect(size) {
        indmap := new array?<Entry>[Blocks(size)](_ => null);
        dirmap := null;
      } else {
        indmap := null;
        dirmap := new Entry[size](_ => CLEAR);
      }
      table := seq(size, _ => if Indirect(size) then None else Some(CLEAR));
      new;
      Repr := {this};
      if indirect { Repr := Repr + {indmap}; } else { Repr := Repr + {dirmap}; }
      totals.committed := totals.committed + size;
    }

    /** Read the entry of slot `k`, if its block is allocated. */
    method Get(k: nat) returns (e: Option<Entry>)
      requires Valid() && k < size
      ensures e == table[k]
    {
      if indirect {
        var b := k / CLMAP_ENTRIES;
        assert b < indmap.Length;
        assert SlotOk(b, k % CLMAP_ENTRIES);
        if indmap[b] == null {
          return None;
        }
        return Some(indmap[b][k % CLMAP_ENTRIES]);
      }
      return Some(dirmap[k]);
    }

    /** Store into the entry of slot `k`. */
    method Put(k: nat, e: Entry)
      requires Valid() && k < size && table[k].Some?
      modifies Repr
      ensures Valid() && Repr == old(Repr)
      ensures table == old(table)[k := Some(e)]
      ensures size == old(size)
    {
      if indirect {
        var b, j := k / CLMAP_ENTRIES, k % CLMAP_ENTRIES;
        assert b < indmap.Length;
        assert SlotOk(b, j);
        indmap[b][j] := e;
        table := table[k := Some(e)];
        forall c: nat, l: nat | c < indmap.Length && l < CLMAP_ENTRIES
          ensures SlotOk(c, l)
        {
          assert old(SlotOk(c, l));
        }
      } else {
        dirmap[k] := e;
        table := table[k := Some(e)];
      }
    }

    /** ps_map_extend: grow the map to `newSize` clusters. `freed` is the byte size handed to kfree
        with the old map, computed from the object's size as the source does. */
    method Extend(newSize: nat, mem: Memory) returns (ok: bool, freed: nat)
      requires Valid()
      modifies Repr, totals
      ensures Valid() && fresh(Repr - old(Repr))
      ensures ok == (newSize <= old(size) || ExtendSucceeds(old(size), newSize, mem))
      ensures table == if ok then Extended(old(table), newSize) else old(table)
      ensures !ok ==> unchanged(old(Repr))
      ensures totals.committed == old(totals.committed) + (size - old(size))
      ensures freed > 0 ==> (freed == if old(indirect) then POINTER_BYTES * old(indmap.Length) else ENTRY_BYTES * old(dirmap.Length))
      ensures freed == 0 ==> indmap == old(indmap) && dirmap == old(dirmap)
      ensures freed > 0 <==> ok && newSize > old(size) && !(old(indirect) && Blocks(newSize) == Blocks(old(size)))
    {
      freed := 0;
      if size >= newSize {
        return true, 0;
      }
      if Indirect(newSize) {
        if indirect && Blocks(newSize) == Blocks(size) {
          GrowInPlace(newSize);
          return true, 0;
        }
        if !mem.whole {
          return false, 0;
        }
        if indirect {
          freed := POINTER_BYTES * Blocks(size);
          GrowPointers(newSize);
        } else {
          if !mem.page {
            return false, 0;
          }
          freed := ENTRY_BYTES * size;
          DirectToIndirect(newSize);
        }
      } else {
        if !mem.whole {
          return false, 0;
        }
        freed := ENTRY_BYTES * size;
        GrowDirect(newSize);
      }
      ok := true;
    }

    /** bs_commit and the new size, with the flat table that goes with them. */
    method SetSize(newSize: nat)
      requires newSize > size && (totals as object) != this
      modifies this`size, this`table, totals
      ensures size == newSize && table == Extended(old(table), newSize)
      ensures totals.committed == old(totals.committed) + (size - old(size))
    {
      totals.committed := totals.committed + (newSize - size);
      size := newSize;
      table := Extended(table, newSize);
    }

    method GrowInPlace(newSize: nat)
      requires Valid() && indirect && newSize > size && Blocks(newSize) == Blocks(size)
      modifies this`size, this`table, totals
      ensures Valid()
      ensures table == Extended(old(table), newSize)
      ensures totals.committed == old(totals.committed) + (size - old(size))
    {
      ValidWellFormed();
      SetSize(newSize);
      forall b: nat, j: nat | b < indmap.Length && j < CLMAP_ENTRIES
        ensures SlotOk(b, j)
      {
        NewSlot(old(table), newSize, b, j);
        assert old(SlotOk(b, 0));
        assert old(SlotOk(b, j));
      }
    }

    method GrowPointers(newSize: nat)
      requires Valid() && indirect && newSize > size
      modifies this, totals
      ensures Valid() && fresh(Repr - old(Repr))
      ensures table == Extended(old(table), newSize)
      ensures totals.committed == old(totals.committed) + (size - old(size))
    {
      ValidWellFormed();
      BlocksMonotone(size, newSize);
      var newMap := new array?<Entry>[Blocks(newSize)](_ => null);
      var i := 0;
      while i < indmap.Length
        invariant 0 <= i <= indmap.Length
        invariant forall b: nat :: b < newMap.Length ==> newMap[b] == if b < i then indmap[b] else null
        modifies newMap
      {
        newMap[i] := indmap[i];
        i := i + 1;
      }
      label copied:
      SetSize(newSize);
      indmap := newMap;
      Repr := Repr + {newMap};
      forall b: nat, j: nat | b < indmap.Length && j < CLMAP_ENTRIES
        ensures SlotOk(b, j)
      {
        NewSlot(old(table), newSize, b, j);
        if b < old(indmap.Length) {
          assert old(SlotOk(b, 0));
          assert old(SlotOk(b, j));
        }
      }
    }

    method GrowDirect(newSize: nat)
      requires Valid() && !indirect && newSize > size && !Indirect(newSize)
      modifies this, totals
      ensures Valid() && fresh(Repr - old(Repr))
      ensures table == Extended(old(table), newSize)
      ensures totals.committed == old(totals.committed) + (size - old(size))
    {
      ValidWellFormed();
      var newMap := CopyEntries(newSize);
      SetSize(newSize);
      dirmap := newMap;
      Repr := Repr + {newMap};
      forall k: nat | k < size ensures table[k] == Some(dirmap[k]) {
        assert k >= old(size) ==> k / CLMAP_ENTRIES == 0 && BlockPresent(old(table), 0);
      }
    }

    method DirectToIndirect(newSize: nat)
      requires Valid() && !indirect && newSize > size && Indirect(newSize)
      modifies this, totals
      ensures Valid() && fresh(Repr - old(Repr))
      ensures table == Extended(old(table), newSize)
      ensures totals.committed == old(totals.committed) + (size - old(size))
    {
      ValidWellFormed();
      var newMap := new array?<Entry>[Blocks(newSize)](_ => null);
      var page := CopyEntries(CLMAP_ENTRIES);
      newMap[0] := page;
      forall b: nat, j: nat | b < newMap.Length && j < CLMAP_ENTRIES
        ensures FirstIndirect(table, newSize, b, j)
      {
        FirstIndirectHolds(table, newSize, b, j);
      }
      Install(newSize, newMap, page);
    }

    /** Switch to an indirect map whose only block is `page`. */
    method Install(newSize: nat, newMap: array<array?<Entry>>, page: array<Entry>)
      requires Valid() && !indirect && newSize > size && Indirect(newSize)
      requires newMap != page as object && newMap != this as object && page != this as object
      requires newMap != totals as object && page != totals as object
      requires newMap.Length == Blocks(newSize) && newMap[0] == page && page.Length == CLMAP_ENTRIES
      requires forall b: nat :: 0 < b < newMap.Length ==> newMap[b] == null
      requires forall k: nat :: k < CLMAP_ENTRIES ==> page[k] == if k < size then table[k].value else CLEAR
      requires forall b: nat, j: nat :: b < newMap.Length && j < CLMAP_ENTRIES ==> FirstIndirect(table, newSize, b, j)
      modifies this, totals
      ensures Valid() && Repr == old(Repr) + {newMap, page}
      ensures table == Extended(old(table), newSize)
      ensures totals.committed == old(totals.committed) + (size - old(size))
    {
      SetSize(newSize);
      indirect := true;
      indmap := newMap;
      Repr := Repr + {newMap, page};
      forall b: nat, j: nat | b < indmap.Length && j < CLMAP_ENTRIES
        ensures SlotOk(b, j)
      {
        assert FirstIndirect(old(table), newSize, b, j);
      }
    }

    /** Copy the direct map into a larger array and clear the rest of it. */
    method CopyEntries(n: nat) returns (copy: array<Entry>)
      requires Valid() && !indirect && n >= size
      ensures fresh(copy) && copy.Length == n
      ensures forall k: nat :: k < n ==> copy[k] == if k < size then table[k].value else CLEAR
    {
      copy := new Entry[n](_ => CLEAR);
      var i := 0;
      while i < size
        invariant 0 <= i <= size
        invariant forall k: nat :: k < i ==> copy[k] == dirmap[k]
        invariant forall k: nat :: size <= k < n ==> copy[k] == CLEAR
        modifies copy
      {
        copy[i] := dirmap[i];
        i := i + 1;
      }
    }

    /** ps_clmap's allocation of an indirect block: 64 clear entries. */
    method AllocateBlock(k: nat)
      requires Valid() && k < size && table[k].None?
      modifies Repr
      ensures Valid() && fresh(Repr - old(Repr)) && size == old(size)
      ensures table == WithBlock(old(table), k) && table[k].Some?
    {
      var b0 := k / CLMAP_ENTRIES;
      assert b0 < indmap.Length;
      assert SlotOk(b0, k % CLMAP_ENTRIES);
      var page := new Entry[CLMAP_ENTRIES](_ => CLEAR);
      indmap[b0] := page;
      Repr := Repr + {page};
      table := WithBlock(table, k);
      forall b: nat, j: nat | b < indmap.Length && j < CLMAP_ENTRIES
        ensures SlotOk(b, j)
      {
        assert old(SlotOk(b, j));
        assert (b * CLMAP_ENTRIES + j) / CLMAP_ENTRIES == b;
      }
    }

    /** ps_clmap. `space` is what ps_allocate_cluster returns if it is called (`asked`); `freed` is
        the cluster passed to ps_deallocate_cluster, if any. */
    method MapCluster(page: nat, flag: Flag, size0: nat, error: nat, mem: Memory, space: Option<Loc>)
      returns (reply: Reply, asked: bool, freed: Option<Loc>)
      requires Valid()
      modifies Repr, totals
      ensures Valid() && fresh(Repr - old(Repr))
      ensures Outcome(table, reply, asked, freed) == Clmap(old(table), cs, page, flag, size0, error, mem, space)
      ensures totals.committed == old(totals.committed) + (size - old(size))
    {
      var k := page / cs;
      var present := ReachSlot(k, flag, mem);
      if !present {
        return Failed(0), false, None;
      }
      var slot := Get(k);
      var o := UpdateEntry(slot.value, page % cs, flag, size0, error, space);
      Put(k, o.entry);
      return o.reply, o.asked, o.freed;
    }

    /** The first half of ps_clmap: extend the map and allocate the indirect block, unless this is
        only a lookup or memory runs out. */
    method ReachSlot(k: nat, flag: Flag, mem: Memory) returns (present: bool)
      requires Valid()
      modifies Repr, totals
      ensures Valid() && fresh(Repr - old(Repr))
      ensures table == Reach(old(table), k, flag, mem)
      ensures present == (k < size && table[k].Some?)
      ensures totals.committed == old(totals.committed) + (size - old(size))
    {
      if k >= size {
        if flag.Find? {
          return false;
        }
        var ok, bytes := Extend(k + 1, mem);
        if !ok {
          return false;
        }
      }
      var slot := Get(k);
      if slot.None? {
        if flag.Find? || !mem.block {
          return false;
        }
        ValidWellFormed();
        AllocateBlock(k);
      }
      return true;
    }

    /** The rest of ps_clmap, on the entry found: errors, allocation, and the two page bitmaps. */
    method UpdateEntry(entry: Entry, off: nat, flag: Flag, size0: nat, error: nat, space: Option<Loc>)
      returns (o: EntryOutcome)
      requires off < cs
      ensures o == ClmapEntry(entry, cs, off, flag, size0, error, space)
    {
      var e := entry;
      var asked := false;
      if e.error {
        return EntryOutcome(e, Failed(e.entry), false, None);
      } else if e.IsClr() {
        if flag.Find? {
          if error != 0 {
            e := SetErr(e, error);
          }
          return EntryOutcome(e, Failed(0), false, None);
        }
        asked := true;
        if space.None? {
          return EntryOutcome(e, Failed(0), true, None);
        }
        e := SetClOff(CLEAR, space.value.cl);
        e := e.(psindex := space.value.ps);
      }
      var bmap := e.bmap;
      if flag.Alloc? {
        var alloc := PagesFrom(e.alloc, off, cs, size0);
        e := e.(alloc := alloc);
      }
      if size0 > 0 && flag.Find? {
        if error == 0 {
          var valid := PagesFrom(e.bmap, off, off + size0, size0);
          return EntryOutcome(e.(bmap := valid), Completed, asked, None);
        }
        var was := e.Location();
        e := SetErr(e, error);
        return EntryOutcome(e, Completed, asked, if was.cl != 0 then Some(was) else None);
      }
      return EntryOutcome(e, Found(e.Location(), off, cs - off, Shift(bmap, off), Shift(e.alloc, off)), asked, None);
    }

    /** The bit-setting loops of ps_clmap: pages from `off` on, `size0` of them, but none from `limit` on. */
    method PagesFrom(pages: set<nat>, off: nat, limit: nat, size0: nat) returns (r: set<nat>)
      requires off <= limit
      ensures r == pages + Pages(off, Min(off + size0, limit))
    {
      r := pages;
      var i := off;
      var left := size0;
      while left > 0 && i < limit
        invariant off <= i <= limit && i + left == off + size0
        invariant r == pages + Pages(off, i)
      {
        r := r + {i};
        i := i + 1;
        left := left - 1;
      }
    }

    /** The bit-clearing loop of ps_clunmap. */
    method ClearRange(e0: Entry, off: nat, n: nat) returns (e: Entry)
      ensures e == ClearPages(e0, off, n)
    {
      e := e0;
      var i := 0;
      while i < n
        invariant 0 <= i <= n
        invariant e == ClearPages(e0, off, i)
      {
        e := e.(bmap := e.bmap - {off + i}, alloc := e.alloc - {off + i});
        i := i + 1;
      }
    }

    /** One round of the loop of ps_clunmap: it advances by `n` pages, or stops (`n` is 0) at a
        missing indirect block. */
    method UnmapRound(page: nat, len: nat) returns (n: nat, gone: seq<Loc>)
      requires Valid() && len > 0 && (page + len - 1) / cs < size
      modifies Repr
      ensures Valid() && Repr == old(Repr) && size == old(size) && n <= len
      ensures n == 0 ==> Clunmap(old(table), cs, page, len) == Unmapped(table, [])
      ensures n > 0 ==> (Clunmap(old(table), cs, page, len) ==
                (var rest := Clunmap(table, cs, page + n, len - n); Unmapped(rest.table, gone + rest.freed)))
    {
      DivMonotone(page, page + len - 1, cs);
      var k := page / cs;
      var slot := Get(k);
      if slot.None? {
        return 0, [];
      }
      if slot.value.IsClr() {
        return 1, [];
      }
      n := Min(cs - page % cs, len);
      var e := ClearRange(slot.value, page % cs, n);
      if e.alloc == {} {
        Put(k, CLEAR);
        gone := [e.Location()];
      } else {
        Put(k, e);
        gone := [];
      }
    }

    /** ps_clunmap. `freed` lists the clusters passed to ps_deallocate_cluster. */
    method UnmapClusters(page: nat, len: nat) returns (freed: seq<Loc>)
      requires Valid() && (len > 0 ==> (page + len - 1) / cs < size)
      modifies Repr
      ensures Valid() && Repr == old(Repr) && size == old(size)
      ensures Unmapped(table, freed) == Clunmap(old(table), cs, page, len)
    {
      freed := [];
      var p: nat, left: nat := page, len;
      while left > 0
        invariant Valid() && Repr == old(Repr) && size == old(size)
        invariant p + left == page + len
        invariant Clunmap(old(table), cs, page, len) ==
                  (var rest := Clunmap(table, cs, p, left); Unmapped(rest.table, freed + rest.freed))
      {
        var n, gone := UnmapRound(p, left);
        if n == 0 {
          return;
        }
        assert forall rest: seq<Loc> :: freed + (gone + rest) == freed + gone + rest;
        freed := freed + gone;
        p, left := p + n, left - n;
      }
    }

    /** ps_dealloc_vsmap on one array of entries that starts at slot `first`. */
    method FreeEntries(entries: array<Entry>, n: nat, first: nat, freed0: seq<Loc>) returns (freed: seq<Loc>)
      requires n <= entries.Length && freed0 == MappedLocs(table[..Min(first, |table|)])
      requires forall j: nat :: j < n ==> if first + j < |table| then table[first + j] == Some(entries[j]) else entries[j] == CLEAR
      ensures freed == MappedLocs(table[..Min(first + n, |table|)])
    {
      freed := freed0;
      var j := 0;
      while j < n
        invariant 0 <= j <= n
        invariant freed == MappedLocs(table[..Min(first + j, |table|)])
      {
        if !entries[j].IsClr() && !entries[j].error {
          freed := freed + [entries[j].Location()];
        }
        MappedLocsStep(table, first + j);
        j := j + 1;
      }
    }

    /** ps_vstruct_dealloc: every block of entries that exists is scanned to its end, also beyond
        the object's size, and each cluster of the object is given back once. */
    method Dealloc() returns (freed: seq<Loc>)
      requires Valid()
      modifies totals
      ensures freed == MappedLocs(table)
      ensures totals.committed == old(totals.committed) - size
    {
      freed := [];
      if indirect {
        var b := 0;
        while b < indmap.Length
          invariant 0 <= b <= indmap.Length
          invariant freed == MappedLocs(table[..Min(b * CLMAP_ENTRIES, size)])
          invariant totals.committed == old(totals.committed)
        {
          if indmap[b] != null {
            forall j: nat | j < CLMAP_ENTRIES ensures SlotIs(b, j, indmap[b][j]) {
              assert SlotOk(b, j);
            }
            freed := FreeEntries(indmap[b], CLMAP_ENTRIES, b * CLMAP_ENTRIES, freed);
          } else {
            forall k: nat | b * CLMAP_ENTRIES <= k < Min((b + 1) * CLMAP_ENTRIES, size) ensures table[k].None? {
              var j := k - b * CLMAP_ENTRIES;
              assert SlotOk(b, j);
            }
            AbsentLocs(table, Min(b * CLMAP_ENTRIES, size), Min((b + 1) * CLMAP_ENTRIES, size));
          }
          b := b + 1;
        }
      } else {
        freed := FreeEntries(dirmap, size, 0, freed);
      }
      assert table[..size] == table;
      totals.committed := totals.committed - size;
    }
  }

  lemma MappedLocsStep(s: Table, k: nat)
    ensures MappedLocs(s[..Min(k + 1, |s|)]) == MappedLocs(s[..Min(k, |s|)]) +
              (if Lookup(s, k).IsMapped() then [Lookup(s, k).Location()] else [])
  {
    if k < |s| {
      assert s[..k + 1][..k] == s[..k];
    }
  }

  lemma {:induction false} AbsentLocs(s: Table, lo: nat, hi: nat)
    requires lo <= hi <= |s|
    requires forall k: nat :: lo <= k < hi ==> s[k].None?
    ensures MappedLocs(s[..hi]) == MappedLocs(s[..lo])
  {
    if lo < hi {
      AbsentLocs(s, lo, hi - 1);
      assert s[..hi][..hi - 1] == s[..hi - 1];
    }
  }

  lemma BlocksMonotone(a: nat, b: nat)
    requires 0 < a <= b
    ensures Blocks(a) <= Blocks(b)
  {
  }

  /** The slots of a direct table grown into an indirect one: they fill the first block, and the
      other blocks are absent. */
  ghost predicate FirstIndirect(s: Table, n: nat, b: nat, j: nat)
    requires CLMAP_ENTRIES <= n && |s| <= n && forall k :: 0 <= k < |s| ==> s[k].Some?
  {
    var k := b * CLMAP_ENTRIES + j;
    if b == 0 then j < n ==> Extended(s, n)[j] == Some(if j < |s| then s[j].value else CLEAR)
    else k < n ==> Extended(s, n)[k] == None
  }

  lemma FirstIndirectHolds(s: Table, n: nat, b: nat, j: nat)
    requires WellFormed(s) && !Indirect(|s|) && Indirect(n) && j < CLMAP_ENTRIES
    ensures FirstIndirect(s, n, b, j)
  {
    NewSlot(s, n, 0, j);
    NewSlot(s, n, b, j);
  }

  /** The slot that entry `j` of block `b` holds after growth. */
  lemma NewSlot(s: Table, n: nat, b: nat, j: nat)
    requires WellFormed(s) && n > |s| && j < CLMAP_ENTRIES
    ensures var k := b * CLMAP_ENTRIES + j;
      k / CLMAP_ENTRIES == b && (|s| <= k < n ==> Extended(s, n)[k] == if BlockPresent(s, b) then Some(CLEAR) else None)
    ensures var k := b * CLMAP_ENTRIES + j; k < |s| ==> Extended(s, n)[k] == s[k]
  {
  }
}
