/** How a file lies in an image that mkminix.py builds: its blocks in zones one after the other, and the
    pointers that lead to them. */
module MinixFiles {
  import opened Bytes
  import opened Division
  import opened PathNames
  import opened MinixReader

  /** A file written: its inode, and the zones from `start` up to `end` that its data and pointers are in. */
  datatype Written = Written(ino: nat, mode: nat, data: seq<Byte>, start: nat, end: nat)

  function Blocks(len: nat): nat { (len + BS - 1) / BS }

  /** Byte `o` of the inode table starts the slot of inode `n`. */
  function Slot(sb: Super, n: nat): nat { (2 + sb.imapBlocks + sb.zmapBlocks) * BS + n * 32 - 32 }

  function Ptr(s: Image, z: nat, i: nat): nat
    requires (z + 1) * BS <= |s| && i < NINDIR
  {
    U16(s, z * BS + 2 * i)
  }

  /** Zone `z` lists the zones from `first` on, as far as there are `count`. */
  ghost predicate Lists(s: Image, z: nat, first: nat, count: nat) {
    (z + 1) * BS <= |s| && count <= NINDIR && forall i: nat :: i < count ==> Ptr(s, z, i) == first + i
  }

  /** How many blocks of a file of `k` blocks its `j`-th doubly indirect zone has. */
  function Share(k: nat, j: nat): nat {
    if k <= NDADDR + NINDIR + NINDIR * j then 0 else Min(NINDIR, k - NDADDR - NINDIR - NINDIR * j)
  }

  /** The zone numbers of an inode lead to `k` zones from `start` on, by pointers in the zones after those,
      below `end`. */
  ghost predicate Leads(s: Image, zones: seq<nat>, start: nat, k: nat, end: nat) {
    && |zones| == 9 && 0 < start && start + k <= end && end * BS <= |s|
    && (forall b: nat :: b < NDADDR && b < k ==> zones[b] == start + b)
    && (k > NDADDR ==> start + k <= zones[7] < end && Lists(s, zones[7], start + NDADDR, Min(NINDIR, k - NDADDR)))
    && (k > NDADDR + NINDIR ==> start + k <= zones[8] < end && Doubly(s, zones[8], start, k, end))
  }

  ghost predicate Doubly(s: Image, z: nat, start: nat, k: nat, end: nat) {
    && (z + 1) * BS <= |s| && k <= NDADDR + NINDIR + NINDIR * NINDIR
    && forall j: nat :: j < NINDIR && Share(k, j) > 0 ==>
         && start + k <= Ptr(s, z, j) < end
         && Lists(s, Ptr(s, z, j), start + NDADDR + NINDIR + NINDIR * j, Share(k, j))
  }

  ghost predicate FileOk(s: Image, sb: Super, f: Written) {
    && f.ino > 0 && Slot(sb, f.ino) + 32 <= |s|
    && (var i := InodeAt(s, Slot(sb, f.ino));
        i.mode == f.mode && i.size == |f.data| && Leads(s, i.zones, f.start, Blocks(|f.data|), f.end))
    && s[f.start * BS..f.start * BS + |f.data|] == f.data
  }

  // ---- Reading it back ----

  lemma SlotIs(sb: Super, n: nat)
    requires n > 0
    ensures InodeOffset(sb, n) == Slot(sb, n)
  {
  }

  lemma PointerIs(s: Image, z: nat, first: nat, count: nat, i: nat)
    requires Lists(s, z, first, count) && i < count && z > 0
    ensures Pointer(s, Zone(z), i) == Zone(first + i)
  {
    assert Ptr(s, z, i) == first + i;
  }

  lemma ShareOf(k: nat, i: nat)
    requires NDADDR + NINDIR + i < k <= NDADDR + NINDIR + NINDIR * NINDIR
    ensures i / NINDIR < NINDIR && i % NINDIR < Share(k, i / NINDIR)
    ensures NINDIR * (i / NINDIR) + i % NINDIR == i
  {
  }

  /** Block `b` of the file is in the `b`-th of its zones: direct, single and double indirect. */
  lemma BlockMapIs(s: Image, zones: seq<nat>, start: nat, k: nat, end: nat, b: nat)
    requires Leads(s, zones, start, k, end) && b < k
    ensures BlockMap(s, zones, b) == Zone(start + b)
  {
    if NDADDR <= b < NDADDR + NINDIR {
      PointerIs(s, zones[7], start + NDADDR, Min(NINDIR, k - NDADDR), b - NDADDR);
    } else if NDADDR + NINDIR <= b {
      DoublyIs(s, zones[8], start, k, end, b - NDADDR - NINDIR);
    }
  }

  lemma DoublyIs(s: Image, z: nat, start: nat, k: nat, end: nat, i: nat)
    requires Doubly(s, z, start, k, end) && z > 0 && start > 0 && NDADDR + NINDIR + i < k
    ensures Pointer(s, Pointer(s, Zone(z), i / NINDIR), i % NINDIR) == Zone(start + NDADDR + NINDIR + i)
  {
    ShareOf(k, i);
    var j := i / NINDIR;
    assert Share(k, j) > 0;
    PointerIs(s, Ptr(s, z, j), start + NDADDR + NINDIR + NINDIR * j, Share(k, j), i % NINDIR);
  }

  /** Every byte of the file reads back as it was written. */
  lemma ReadsBack(s: Image, sb: Super, f: Written, pos: nat)
    requires FileOk(s, sb, f) && pos < |f.data| && |s| <= 0x1_0000 * BS
    ensures Lblkno(pos) == pos / BS && BlockMap(s, InodeAt(s, Slot(sb, f.ino)).zones, pos / BS) == Zone(f.start + pos / BS)
    ensures ReadByte(s, InodeAt(s, Slot(sb, f.ino)), pos) == Success(f.data[pos])
  {
    ReadsLed(s, InodeAt(s, Slot(sb, f.ino)), f.start, f.end, f.data, pos);
  }

  lemma ReadsLed(s: Image, ino: Inode, start: nat, end: nat, data: seq<Byte>, pos: nat)
    requires |ino.zones| == 9 && ino.size == |data| && Leads(s, ino.zones, start, Blocks(|data|), end) && |s| <= 0x1_0000 * BS
    requires pos < |data| && start * BS + |data| <= |s| && s[start * BS..start * BS + |data|] == data
    ensures Lblkno(pos) == pos / BS && BlockMap(s, ino.zones, pos / BS) == Zone(start + pos / BS)
    ensures ReadByte(s, ino, pos) == Success(data[pos])
  {
    BlockMapIs(s, ino.zones, start, Blocks(|data|), end, pos / BS);
    DataAtBlock(s, start, data, pos);
  }

  lemma DataAtBlock(s: Image, start: nat, data: seq<Byte>, pos: nat)
    requires pos < |data| && start * BS + |data| <= |s| && s[start * BS..start * BS + |data|] == data
    requires (start + pos / BS + 1) * BS <= |s|
    ensures s[(start + pos / BS) * BS..(start + pos / BS + 1) * BS][pos % BS] == data[pos]
  {
    var b := pos / BS;
    assert s[start * BS..start * BS + |data|][pos] == s[start * BS + pos];
    assert s[(start + b) * BS..(start + b + 1) * BS][pos % BS] == s[(start + b) * BS + pos % BS];
  }

  // ---- Writing elsewhere ----

  /** The bytes from `lo` up to `hi` are the same. */
  ghost predicate SameWithin(a: Image, b: Image, lo: nat, hi: nat) {
    |a| == |b| && forall o: nat :: lo <= o < hi && o < |a| ==> a[o] == b[o]
  }

  lemma ListsKept(s: Image, r: Image, z: nat, first: nat, count: nat, lo: nat, hi: nat)
    requires Lists(s, z, first, count) && SameWithin(s, r, lo * BS, hi * BS) && lo <= z < hi
    ensures Lists(r, z, first, count)
  {
    forall i: nat | i < count ensures Ptr(r, z, i) == first + i {
      assert Ptr(s, z, i) == first + i;
    }
  }

  /** The pointers stay as long as the zones after the data are not written to; a small file has none. */
  lemma LeadsKept(s: Image, r: Image, zones: seq<nat>, start: nat, k: nat, end: nat)
    requires Leads(s, zones, start, k, end) && |r| == |s| && (k > NDADDR ==> SameWithin(s, r, (start + k) * BS, end * BS))
    ensures Leads(r, zones, start, k, end)
  {
    if k > NDADDR {
      ListsKept(s, r, zones[7], start + NDADDR, Min(NINDIR, k - NDADDR), start + k, end);
    }
    if k > NDADDR + NINDIR {
      DoublyKept(s, r, zones[8], start, k, end);
    }
  }

  lemma DoublyKept(s: Image, r: Image, z: nat, start: nat, k: nat, end: nat)
    requires Doubly(s, z, start, k, end) && SameWithin(s, r, (start + k) * BS, end * BS) && start + k <= z < end
    ensures Doubly(r, z, start, k, end)
  {
    forall j: nat | j < NINDIR && Share(k, j) > 0
      ensures start + k <= Ptr(r, z, j) < end
      ensures Lists(r, Ptr(r, z, j), start + NDADDR + NINDIR + NINDIR * j, Share(k, j))
    {
      assert Ptr(r, z, j) == Ptr(s, z, j);
      ListsKept(s, r, Ptr(s, z, j), start + NDADDR + NINDIR + NINDIR * j, Share(k, j), start + k, end);
    }
  }

  lemma InodeKept(s: Image, r: Image, o: nat)
    requires o + 32 <= |s| && SameWithin(s, r, o, o + 32)
    ensures InodeAt(r, o) == InodeAt(s, o)
  {
    assert forall i :: 0 <= i < 9 ==> ZonesAt(r, o)[i] == ZonesAt(s, o)[i];
  }

  /** A file keeps its contents as long as its slot and its zones are not written to. */
  lemma FileKept(s: Image, r: Image, sb: Super, f: Written)
    requires FileOk(s, sb, f) && SameWithin(s, r, Slot(sb, f.ino), Slot(sb, f.ino) + 32) && SameWithin(s, r, f.start * BS, f.end * BS)
    ensures FileOk(r, sb, f)
  {
    InodeKept(s, r, Slot(sb, f.ino));
    LeadsKept(s, r, InodeAt(s, Slot(sb, f.ino)).zones, f.start, Blocks(|f.data|), f.end);
    assert r[f.start * BS..f.start * BS + |f.data|] == s[f.start * BS..f.start * BS + |f.data|];
  }
}
