/** A paging segment (dp_backing_store.c): a bitmap of clusters with a search hint and a
    count of free clusters that is taken in two steps, first reserved and later claimed. */
module PagingSegments {
  import opened Bits

  /** RMAPSIZE: the bytes needed for `n` bits. */
  function Howmany(n: nat): (r: nat)
    ensures NBBY * r - NBBY < n <= NBBY * r
  {
    (n + NBBY - 1) / NBBY
  }

  /** The cluster numbers of a segment of `n` clusters. */
  function Below(n: nat): (s: set<nat>)
    ensures forall c: nat :: c in s <==> c < n
    ensures |s| == n
  {
    if n == 0 then {} else Below(n - 1) + {n - 1}
  }

  class PagingSegment {
    const ncls: nat
    const clshift: nat
    const priority: nat
    const bmap: array<bv8>
    var clcount: nat
    var hint: nat
    var goingAway: bool
    /** Clusters reserved by ps_select_segment and not yet claimed by the bitmap search. */
    ghost var reserved: nat

    /** All bits set in the bitmap; the padding bits of the last byte are included. */
    ghost function Used(): set<nat>
      reads bmap
    {
      UsedBits(bmap[..])
    }

    ghost function Free(): set<nat>
      reads bmap
    {
      Below(ncls) - Used()
    }

    ghost predicate Valid()
      reads this, bmap
    {
      && bmap.Length == Howmany(ncls)
      && |Free()| == clcount + reserved
      && hint <= bmap.Length
      && (forall b: nat :: b < hint ==> bmap[b] == BYTEMASK)
    }

    /** default_pager_add_segment: the bitmap memory is whatever kalloc returned, and only the
        bits of real clusters are cleared. */
    constructor (ncls: nat, clshift: nat, priority: nat)
      ensures Valid() && fresh(bmap)
      ensures this.ncls == ncls && this.clshift == clshift && this.priority == priority
      ensures clcount == ncls && reserved == 0 && !goingAway
      ensures Free() == Below(ncls)
    {
      this.ncls := ncls;
      this.clshift := clshift;
      this.priority := priority;
      bmap := new bv8[Howmany(ncls)];
      clcount := ncls;
      hint := 0;
      goingAway := false;
      reserved := 0;
      new;
      ClearAll();
    }

    method ClearAll()
      requires bmap.Length == Howmany(ncls)
      modifies bmap
      ensures Free() == Below(ncls)
    {
      var i := 0;
      while i < ncls
        invariant 0 <= i <= ncls
        invariant forall c: nat :: c < i ==> c !in Used()
      {
        Clrbit(i);
        i := i + 1;
      }
      assert Free() == Below(ncls);
    }

    /** The setbit macro on the segment's bitmap. */
    method Setbit(i: nat)
      requires i < NBBY * bmap.Length
      modifies bmap
      ensures Used() == old(Used()) + {i}
      ensures forall b: nat :: b < bmap.Length && b != i / NBBY ==> bmap[b] == old(bmap[b])
    {
      WithBitUsed(bmap[..], i, true);
      ghost var next := WithBit(bmap[..], i, true);
      bmap[i / NBBY] := SetBit(bmap[i / NBBY], i % NBBY);
      assert bmap[..] == next;
    }

    /** The clrbit macro on the segment's bitmap. */
    method Clrbit(i: nat)
      requires i < NBBY * bmap.Length
      modifies bmap
      ensures Used() == old(Used()) - {i}
      ensures forall b: nat :: b < bmap.Length && b != i / NBBY ==> bmap[b] == old(bmap[b])
    {
      WithBitUsed(bmap[..], i, false);
      ghost var next := WithBit(bmap[..], i, false);
      bmap[i / NBBY] := ClrBit(bmap[i / NBBY], i % NBBY);
      assert bmap[..] == next;
    }

    /** The part of ps_select_segment done under the segment lock. */
    method Reserve() returns (ok: bool)
      requires Valid()
      modifies this`clcount, this`reserved
      ensures Valid()
      ensures ok == (old(clcount) > 0)
      ensures ok ==> clcount == old(clcount) - 1 && reserved == old(reserved) + 1
      ensures !ok ==> clcount == old(clcount) && reserved == old(reserved)
    {
      ok := clcount != 0;
      if ok {
        clcount := clcount - 1;
        reserved := reserved + 1;
      }
    }

    /** The bitmap scan: whole bytes from the hint on, then the bits of the first byte that is
        not full. It finds the lowest clear bit of the whole bitmap. */
    method FirstClear() returns (byteNum: nat, bitNum: nat)
      requires Valid() && Free() != {}
      ensures byteNum < bmap.Length && bitNum < NBBY
      ensures !Isset(bmap[byteNum], bitNum)
      ensures forall b: nat :: b < byteNum ==> bmap[b] == BYTEMASK
      ensures forall k: nat :: k < bitNum ==> Isset(bmap[byteNum], k)
    {
      byteNum := hint;
      bitNum := 0;
      while byteNum < bmap.Length && bmap[byteNum] == BYTEMASK
        invariant hint <= byteNum <= bmap.Length
        invariant forall b: nat :: b < byteNum ==> bmap[b] == BYTEMASK
      {
        byteNum := byteNum + 1;
      }
      AllFull(bmap[..]);
      assert byteNum < bmap.Length;
      FullByte(bmap[byteNum]);
      while Isset(bmap[byteNum], bitNum)
        invariant bitNum < NBBY
        invariant forall k: nat :: k < bitNum ==> Isset(bmap[byteNum], k)
        decreases NBBY - bitNum
      {
        bitNum := bitNum + 1;
      }
    }

    /** The search of ps_allocate_cluster, run under the segment lock by a thread that holds a
        reservation: first fit over the whole bitmap, although it starts at the hint. */
    method Claim() returns (cluster: nat)
      requires Valid() && reserved > 0
      modifies this`hint, this`reserved, bmap
      ensures Valid()
      ensures reserved == old(reserved) - 1
      ensures cluster < ncls && cluster !in old(Used())
      ensures forall c: nat :: c < cluster ==> c in old(Used())
      ensures Used() == old(Used()) + {cluster}
    {
      var byteNum, bitNum := FirstClear();
      hint := byteNum;
      cluster := byteNum * NBBY + bitNum;
      LowestClear(bmap[..], byteNum, bitNum);
      LowestIsReal(Used(), ncls, cluster);
      ghost var freeBefore := Free();
      Setbit(cluster);
      reserved := reserved - 1;
      assert Free() == freeBefore - {cluster};
    }

    /** ps_deallocate_cluster: a cluster is given back; a number out of range is a panic. The segment stays
        in order exactly if the cluster was in use. */
    method Deallocate(cluster: nat) returns (ok: bool)
      requires Valid()
      modifies this`hint, this`clcount, bmap
      ensures ok == (cluster < ncls)
      ensures Valid() <==> (ok ==> cluster in old(Used()))
      ensures ok ==> clcount == old(clcount) + 1 && Used() == old(Used()) - {cluster}
      ensures !ok ==> clcount == old(clcount) && Used() == old(Used())
    {
      if cluster >= ncls {
        return false;
      }
      ghost var before := Used();
      FreeCount(ncls, before, cluster);
      Unset(cluster);
      clcount := clcount + 1;
      ok := true;
    }

    /** The bit is cleared, and the hint goes down to it. */
    method Unset(cluster: nat)
      requires bmap.Length == Howmany(ncls) && cluster < ncls && hint <= bmap.Length
      requires forall b: nat :: b < hint ==> bmap[b] == BYTEMASK
      modifies this`hint, bmap
      ensures Used() == old(Used()) - {cluster} && hint <= bmap.Length
      ensures forall b: nat :: b < hint ==> bmap[b] == BYTEMASK
    {
      Clrbit(cluster);
      if cluster / NBBY < hint {
        hint := cluster / NBBY;
      }
    }
  }

  /** If some real cluster is free then the lowest clear bit is a real cluster: the padding bits
      of the last byte cannot be returned, whatever they hold. */
  lemma LowestIsReal(used: set<nat>, ncls: nat, low: nat)
    requires Below(ncls) - used != {}
    requires forall c: nat :: c < low ==> c in used
    ensures low < ncls
  {
    var free :| free in Below(ncls) - used;
  }

  /** Clearing the bit of a cluster makes one more free, if it was in use. */
  lemma FreeCount(ncls: nat, used: set<nat>, cluster: nat)
    requires cluster < ncls
    ensures |Below(ncls) - (used - {cluster})| == |Below(ncls) - used| + (if cluster in used then 1 else 0)
  {
    if cluster in used {
      assert Below(ncls) - (used - {cluster}) == (Below(ncls) - used) + {cluster};
    } else {
      assert used - {cluster} == used;
    }
  }

  lemma AllFull(bm: seq<bv8>)
    ensures (forall b: nat :: b < |bm| ==> bm[b] == BYTEMASK) ==> forall c: nat :: c < NBBY * |bm| ==> c in UsedBits(bm)
  {
    forall c: nat | c < NBBY * |bm| ensures bm[c / NBBY] == BYTEMASK ==> c in UsedBits(bm) {
      FullByte(bm[c / NBBY]);
      assert bm[c / NBBY] == BYTEMASK ==> BitOf(bm, c);
    }
  }

  /** The position the scan stops at is the lowest clear bit of the bitmap. */
  lemma LowestClear(bm: seq<bv8>, byteNum: nat, bitNum: nat)
    requires byteNum < |bm| && bitNum < NBBY
    requires !Isset(bm[byteNum], bitNum)
    requires forall b: nat :: b < byteNum ==> bm[b] == BYTEMASK
    requires forall k: nat :: k < bitNum ==> Isset(bm[byteNum], k)
    ensures byteNum * NBBY + bitNum !in UsedBits(bm)
    ensures forall c: nat :: c < byteNum * NBBY + bitNum ==> c in UsedBits(bm)
  {
    var n := byteNum * NBBY + bitNum;
    assert n / NBBY == byteNum && n % NBBY == bitNum;
    forall c: nat | c < n ensures c in UsedBits(bm) {
      FullByte(bm[c / NBBY]);
      assert BitOf(bm, c);
    }
  }
}
