/** The Minix image writer (mkminix.py): bitmaps, inodes, zones and indirect zones written into one
    array of bytes. */
module MinixWriter {
  import opened Division
  import opened Bytes
  import opened PathNames
  import opened MinixFiles
  import opened MinixReader

  const NINODES: nat := 480
  const INOSZ: nat := 32

  // ---- Bits ----

  /** (b >> k) & 1. */
  predicate Bit(b: nat, k: nat) { if k == 0 then b % 2 == 1 else Bit(b / 2, k - 1) }

  /** b | (1 << k). */
  function Or(b: nat, k: nat): (r: nat)
    ensures b <= r
  {
    if k == 0 then (if b % 2 == 1 then b else b + 1) else 2 * Or(b / 2, k - 1) + b % 2
  }

  lemma {:induction false} OrBit(b: nat, k: nat, j: nat)
    ensures Bit(Or(b, k), j) <==> j == k || Bit(b, j)
  {
    if k > 0 && j > 0 {
      OrBit(b / 2, k - 1, j - 1);
    }
  }

  lemma OrByte(b: nat, k: nat)
    requires b < 256 && k < 8
    ensures Or(b, k) < 256
  {
    OrBound(b, k, 8);
    assert Two(2) == 4 && Two(4) == 16 && Two(6) == 64;
  }

  function Two(k: nat): nat { if k == 0 then 1 else 2 * Two(k - 1) }

  lemma {:induction false} OrBound(b: nat, k: nat, m: nat)
    requires b < Two(m) && k < m
    ensures Or(b, k) < Two(m)
  {
    if k > 0 {
      OrBound(b / 2, k - 1, m - 1);
    }
  }

  /** Bit `i` of the map that starts at byte `base`. */
  predicate BitAt(s: seq<Byte>, base: nat, i: nat)
    requires base + i / 8 < |s|
  {
    Bit(s[base + i / 8], i % 8)
  }

  /** Of the first `limit` bits those up to `k` are set: bit 0, which is reserved, and what is in use. */
  ghost predicate MapOk(s: seq<Byte>, base: nat, limit: nat, k: nat) {
    base + (limit + 7) / 8 <= |s| && forall i: nat :: i < limit ==> (BitAt(s, base, i) <==> i <= k)
  }

  method SetBit(d: array<Byte>, base: nat, i: nat)
    requires base + i / 8 < d.Length
    modifies d
    ensures SameOutside(old(d[..]), d[..], base + i / 8, base + i / 8 + 1)
    ensures d[base + i / 8] == Or(old(d[base + i / 8]), i % 8)
  {
    OrByte(d[base + i / 8], i % 8);
    d[base + i / 8] := Or(d[base + i / 8], i % 8);
  }

  lemma SetBitIs(s: seq<Byte>, r: seq<Byte>, base: nat, i: nat, j: nat)
    requires base + i / 8 < |s| && base + j / 8 < |s| && SameOutside(s, r, base + i / 8, base + i / 8 + 1)
    requires r[base + i / 8] == Or(s[base + i / 8], i % 8)
    ensures BitAt(r, base, j) <==> j == i || BitAt(s, base, j)
  {
    OrBit(s[base + i / 8], i % 8, j % 8);
  }

  /** The first clear bit from 1 on is set; 0 if there is none below `limit`. */
  method AllocBit(d: array<Byte>, base: nat, limit: nat, ghost k: nat) returns (i: nat)
    requires limit > 0 && k < limit && MapOk(d[..], base, limit, k)
    modifies d
    ensures i == if k + 1 < limit then k + 1 else 0
    ensures SameOutside(old(d[..]), d[..], base, base + (limit + 7) / 8)
    ensures MapOk(d[..], base, limit, if i == 0 then k else i)
    ensures i == 0 ==> d[..] == old(d[..])
  {
    i := 1;
    while i < limit
      invariant 1 <= i <= limit && i <= k + 1 && d[..] == old(d[..])
    {
      assert BitAt(d[..], base, i) <==> i <= k;
      if !Bit(d[base + i / 8], i % 8) {
        ghost var was := d[..];
        SetBit(d, base, i);
        forall j: nat | j < limit ensures BitAt(d[..], base, j) <==> j <= i {
          SetBitIs(was, d[..], base, i, j);
        }
        return;
      }
      i := i + 1;
    }
    i := 0;
  }

  // ---- Numbers in the image ----

  /** struct.pack('<H', v). */
  function Pack16(v: nat): (b: seq<Byte>)
    requires v < 0x1_0000
    ensures |b| == 2
  {
    [v % 256, v / 256]
  }

  /** struct.pack('<I', v). */
  function Pack32(v: nat): (b: seq<Byte>)
    requires v < 0x1_0000_0000
    ensures |b| == 4
  {
    Pack16(v % 0x1_0000) + Pack16(v / 0x1_0000)
  }

  lemma Unpack16(s: seq<Byte>, o: nat, v: nat)
    requires v < 0x1_0000 && o + 2 <= |s| && s[o..o + 2] == Pack16(v)
    ensures U16(s, o) == v
  {
    assert s[o] == s[o..o + 2][0] && s[o + 1] == s[o..o + 2][1];
  }

  method Put16(d: array<Byte>, o: nat, v: nat)
    requires v < 0x1_0000 && o + 2 <= d.Length
    modifies d
    ensures U16(d[..], o) == v && SameOutside(old(d[..]), d[..], o, o + 2)
  {
    d[o], d[o + 1] := v % 256, v / 256;
  }

  // ---- The image ----

  function ZmapBlocks(nzones: nat): nat { (nzones + 1 + 8191) / 8192 }

  function FirstZone(nzones: nat): nat { 2 + 1 + ZmapBlocks(nzones) + 15 }

  /** How many zones the map can give out. */
  function Room(nzones: nat): int { nzones - FirstZone(nzones) - 1 }

  /** The zones a file of `k` blocks needs, with its indirect zones. */
  function Need(k: nat): nat {
    k + (if k > NDADDR then 1 else 0) + (if k > NDADDR + NINDIR then Parts(k - NDADDR - NINDIR) + 1 else 0)
  }

  function Parts(n: nat): nat { (n + NINDIR - 1) / NINDIR }

  function SuperOf(nzones: nat): Super { Super(1, ZmapBlocks(nzones)) }

  const IMAP: nat := 2 * BS
  const ZMAP: nat := 3 * BS

  function Itab(nzones: nat): nat { ZMAP + ZmapBlocks(nzones) * BS }

  /** The image has a superblock, and its maps say that `inos` inodes and `zones` zones are in use. */
  ghost predicate ImageOk(s: seq<Byte>, nzones: nat, inos: nat, zones: nat) {
    && 1440 <= nzones <= 65535 && |s| == nzones * BS
    && U16(s, BS + 4) == 1 && U16(s, BS + 6) == ZmapBlocks(nzones) && U16(s, BS + 16) == MAGIC
    && inos <= NINODES && zones < nzones - FirstZone(nzones)
    && MapOk(s, IMAP, NINODES + 1, inos) && MapOk(s, ZMAP, nzones - FirstZone(nzones), zones)
  }

  lemma MapKept(s: seq<Byte>, r: seq<Byte>, base: nat, limit: nat, k: nat)
    requires MapOk(s, base, limit, k) && SameWithin(s, r, base, base + (limit + 7) / 8)
    ensures MapOk(r, base, limit, k)
  {
    forall i: nat | i < limit ensures BitAt(r, base, i) <==> i <= k {
      assert BitAt(s, base, i) <==> i <= k;
    }
  }

  /** Writing inodes or zones leaves the superblock and the maps alone. */
  lemma ImageKept(s: seq<Byte>, r: seq<Byte>, nzones: nat, inos: nat, zones: nat)
    requires ImageOk(s, nzones, inos, zones) && |r| == |s| && SameWithin(s, r, BS, Itab(nzones))
    ensures ImageOk(r, nzones, inos, zones)
  {
    MapKept(s, r, IMAP, NINODES + 1, inos);
    MapKept(s, r, ZMAP, nzones - FirstZone(nzones), zones);
  }

  /** A map of zeros in which bit 0 has been set. */
  lemma EmptyMap(s: seq<Byte>, r: seq<Byte>, base: nat, limit: nat)
    requires limit > 0 && base + (limit + 7) / 8 <= |s| && SameOutside(s, r, base, base + 1) && r[base] == Or(s[base], 0)
    requires forall o: nat :: base <= o < base + (limit + 7) / 8 ==> s[o] == 0
    ensures MapOk(r, base, limit, 0)
  {
    forall i: nat | i < limit ensures BitAt(r, base, i) <==> i <= 0 {
      SetBitIs(s, r, base, 0, i);
      NoBits(i % 8);
    }
  }

  lemma {:induction false} NoBits(k: nat)
    ensures !Bit(0, k)
  {
    if k > 0 { NoBits(k - 1); }
  }

  /** The superblock. */
  method WriteSuper(d: array<Byte>, nzones: nat)
    requires 1440 <= nzones <= 65535 && d.Length == nzones * BS
    modifies d
    ensures U16(d[..], BS + 4) == 1 && U16(d[..], BS + 6) == ZmapBlocks(nzones) && U16(d[..], BS + 16) == MAGIC
    ensures SameOutside(old(d[..]), d[..], BS, BS + 18)
  {
    Put16(d, BS, NINODES);
    Put16(d, BS + 2, nzones);
    Put16(d, BS + 4, 1);
    Put16(d, BS + 6, ZmapBlocks(nzones));
    Put16(d, BS + 8, FirstZone(nzones));
    Put16(d, BS + 10, 0);
    Put16(d, BS + 12, 0x1C00);
    Put16(d, BS + 14, 0x1008);
    Put16(d, BS + 16, MAGIC);
  }

  /** Bit 0 of each map. */
  method ReserveBits(d: array<Byte>, nzones: nat)
    requires 1440 <= nzones <= 65535 && d.Length == nzones * BS
    requires forall o: nat :: IMAP <= o < Itab(nzones) ==> d[o] == 0
    modifies d
    ensures MapOk(d[..], IMAP, NINODES + 1, 0) && MapOk(d[..], ZMAP, nzones - FirstZone(nzones), 0)
    ensures SameOutside(old(d[..]), d[..], IMAP, Itab(nzones))
  {
    ghost var s := d[..];
    SetBit(d, IMAP, 0);
    EmptyMap(s, d[..], IMAP, NINODES + 1);
    ghost var s2 := d[..];
    SetBit(d, ZMAP, 0);
    EmptyMap(s2, d[..], ZMAP, nzones - FirstZone(nzones));
    MapKept(s2, d[..], IMAP, NINODES + 1, 0);
  }

  class Writer {
    const nzones: nat
    const d: array<Byte>
    ghost var inos: nat
    ghost var zones: nat

    ghost predicate Valid()
      reads this, d
    {
      ImageOk(d[..], nzones, inos, zones)
    }

    /** The empty image: a superblock, and maps with bit 0 set. */
    constructor (nzones: nat)
      requires 1440 <= nzones <= 65535
      ensures Valid() && fresh(d) && this.nzones == nzones && inos == 0 && zones == 0
    {
      this.nzones := nzones;
      d := new Byte[nzones * BS](_ => 0);
      inos, zones := 0, 0;
      new;
      WriteSuper(d, nzones);
      ReserveBits(d, nzones);
    }

    /** The number of the next zone to be allocated. */
    ghost function Next(): nat
      reads this
    {
      FirstZone(nzones) + zones
    }

    method AllocIno() returns (r: Result<nat>)
      requires Valid()
      modifies d, this`inos
      ensures Valid() && SameOutside(old(d[..]), d[..], IMAP, ZMAP)
      ensures if old(inos) < NINODES then inos == old(inos) + 1 && r == Success(inos) else r.Failure? && inos == old(inos)
    {
      ghost var was := d[..];
      var i := AllocBit(d, IMAP, NINODES + 1, inos);
      MapKept(was, d[..], ZMAP, nzones - FirstZone(nzones), zones);
      if i == 0 {
        return Failure(Other(4));
      }
      inos := i;
      r := Success(i);
    }

    method AllocZone() returns (r: Result<nat>)
      requires Valid()
      modifies d, this`zones
      ensures Valid() && SameOutside(old(d[..]), d[..], ZMAP, Itab(nzones))
      ensures if old(zones) < Room(nzones) then zones == old(zones) + 1 && r == Success(old(Next()))
              else r.Failure? && zones == old(zones)
    {
      ghost var was := d[..];
      var i := AllocBit(d, ZMAP, nzones - FirstZone(nzones), zones);
      MapKept(was, d[..], IMAP, NINODES + 1, inos);
      if i == 0 {
        return Failure(Other(5));
      }
      zones := i;
      r := Success(i + FirstZone(nzones) - 1);
    }

    /** A fresh zone that starts with the given bytes. */
    method WriteZone(bytes: seq<Byte>) returns (r: Result<nat>)
      requires Valid() && |bytes| <= BS
      modifies d, this`zones
      ensures Valid() && SameWithin(old(d[..]), d[..], Itab(nzones), old(Next()) * BS) && (r.Success? <==> old(zones) < Room(nzones))
      ensures r.Success? ==> r.value == old(Next()) && Next() == old(Next()) + 1 && d[..][r.value * BS..r.value * BS + |bytes|] == bytes
    {
      r := AllocZone();
      if r.Success? {
        ghost var before := d[..];
        Copy(d, r.value * BS, bytes);
        ImageKept(before, d[..], nzones, inos, zones);
      }
    }

    /** write_indirect: a fresh zone that lists the given zones. */
    method WriteIndirect(zs: seq<nat>) returns (r: Result<nat>)
      requires Valid() && |zs| <= NINDIR && forall i :: 0 <= i < |zs| ==> zs[i] < 0x1_0000
      modifies d, this`zones
      ensures Valid() && SameWithin(old(d[..]), d[..], Itab(nzones), old(Next()) * BS) && (r.Success? <==> old(zones) < Room(nzones))
      ensures r.Success? ==> r.value == old(Next()) && Next() == old(Next()) + 1
      ensures r.Success? ==> forall i: nat :: i < |zs| ==> Ptr(d[..], r.value, i) == zs[i]
    {
      var blk := Block(zs);
      r := WriteZone(blk);
      if r.Success? {
        BlockPtrs(d[..], r.value, blk, zs);
      }
    }

    /** One block of the data goes to the next zone. */
    method WriteBlock(data: seq<Byte>, i: nat, ghost w: nat) returns (r: Result<nat>)
      requires Valid() && i < Blocks(|data|) && w >= FirstZone(nzones) && Next() == w + i && DataAt(d[..], w, data, Min(i * BS, |data|))
      modifies d, this`zones
      ensures Valid() && SameWithin(old(d[..]), d[..], Itab(nzones), old(Next()) * BS) && (r.Success? <==> old(zones) < Room(nzones))
      ensures r.Success? ==> r.value == old(Next()) && Next() == old(Next()) + 1 && DataAt(d[..], w, data, Min((i + 1) * BS, |data|))
    {
      ghost var before := d[..];
      r := WriteZone(data[i * BS..Min((i + 1) * BS, |data|)]);
      if r.Success? {
        DataGrows(before, d[..], w, i, data);
      }
    }

    /** The data zones of a file: one after the other, each a block of the data. */
    method WriteZones(data: seq<Byte>) returns (r: Result<seq<nat>>)
      requires Valid()
      modifies d, this`zones
      ensures Valid() && SameWithin(old(d[..]), d[..], Itab(nzones), old(Next()) * BS)
      ensures r.Success? <==> old(zones) + Blocks(|data|) <= Room(nzones)
      ensures r.Success? ==> Next() == old(Next()) + Blocks(|data|) && Consecutive(r.value, old(Next()), Blocks(|data|))
      ensures r.Success? ==> DataAt(d[..], old(Next()), data, |data|)
    {
      var nblk := Blocks(|data|);
      var zs: seq<nat> := [];
      ghost var w, was := Next(), d[..];
      while |zs| < nblk
        invariant Valid() && |zs| <= nblk && Next() == w + |zs| && Consecutive(zs, w, |zs|)
        invariant SameWithin(was, d[..], Itab(nzones), w * BS)
        invariant DataAt(d[..], w, data, Min(|zs| * BS, |data|))
        decreases nblk - |zs|
      {
        var z := WriteBlock(data, |zs|, w);
        if z.Failure? {
          return Failure(z.error);
        }
        zs := zs + [z.value];
      }
      r := Success(zs);
    }

    /** An indirect zone lists the next share of `rest`. */
    method WriteShare(rest: seq<nat>, inds: seq<nat>, ghost w: nat, ghost first: nat) returns (r: Result<nat>)
      requires Valid() && NINDIR * |inds| < |rest| && Next() == w + |inds| && Consecutive(inds, w, |inds|)
      requires Consecutive(rest, first, |rest|) && first + |rest| <= 0x1_0000 && ListAll(d[..], inds, first, |rest|) && w >= FirstZone(nzones)
      modifies d, this`zones
      ensures Valid() && SameWithin(old(d[..]), d[..], Itab(nzones), old(Next()) * BS) && (r.Success? <==> old(zones) < Room(nzones))
      ensures r.Success? ==> r.value == old(Next()) && Next() == old(Next()) + 1 && ListAll(d[..], inds + [r.value], first, |rest|)
    {
      ghost var before := d[..];
      var i := NINDIR * |inds|;
      r := WriteIndirect(rest[i..Min(i + NINDIR, |rest|)]);
      if r.Success? {
        ListMore(before, d[..], inds, w, first, rest, r.value);
      }
    }

    /** The doubly indirect part: indirect zones for `rest`, and a zone that lists those. */
    method WriteDouble(rest: seq<nat>, ghost start: nat, ghost k: nat) returns (r: Result<nat>)
      requires Valid() && 0 < |rest| == k - NDADDR - NINDIR && k <= 65535 && start + k <= Next()
      requires Consecutive(rest, start + NDADDR + NINDIR, |rest|) && start >= FirstZone(nzones)
      modifies d, this`zones
      ensures Valid() && SameWithin(old(d[..]), d[..], Itab(nzones), old(Next()) * BS)
      ensures r.Success? <==> old(zones) + Parts(|rest|) + 1 <= Room(nzones)
      ensures r.Success? ==> Next() == old(Next()) + Parts(|rest|) + 1 && old(Next()) <= r.value < Next() && Doubly(d[..], r.value, start, k, Next())
    {
      var inds: seq<nat> := [];
      var i := 0;
      ghost var w, was := Next(), d[..];
      while i < |rest|
        invariant Valid() && i == NINDIR * |inds| < |rest| + NINDIR && Next() == w + |inds| && Consecutive(inds, w, |inds|)
        invariant SameWithin(was, d[..], Itab(nzones), w * BS)
        invariant ListAll(d[..], inds, start + NDADDR + NINDIR, |rest|)
        decreases |rest| - i
      {
        var iz := WriteShare(rest, inds, w, start + NDADDR + NINDIR);
        if iz.Failure? {
          return iz;
        }
        inds := inds + [iz.value];
        i := i + NINDIR;
      }
      ghost var before := d[..];
      r := WriteIndirect(inds);
      if r.Success? {
        ListAllKept(before, d[..], inds, w, start + NDADDR + NINDIR, |rest|);
        DoublyListed(d[..], r.value, inds, start, k, Next());
      }
    }

    /** set_inode. */
    method SetInode(n: nat, mode: nat, size: nat, direct: seq<nat>, indirect: nat, dbl: nat, nlinks: Byte, time: nat)
      requires Valid() && 0 < n <= NINODES && mode < 0x1_0000 && size < 0x1_0000_0000 && time < 0x1_0000_0000
      requires indirect < 0x1_0000 && dbl < 0x1_0000 && forall i :: 0 <= i < |direct| ==> direct[i] < 0x1_0000
      modifies d
      ensures Valid() && SameOutside(old(d[..]), d[..], Slot(SuperOf(nzones), n), Slot(SuperOf(nzones), n) + 32)
      ensures InodeAt(d[..], Slot(SuperOf(nzones), n)) == Inode(mode, size, ZoneNumbers(direct, indirect, dbl))
    {
      ghost var before := d[..];
      var o := Itab(nzones) + (n - 1) * INOSZ;
      var slot := SlotBytes(mode, size, time, nlinks, ZoneNumbers(direct, indirect, dbl));
      Copy(d, o, slot);
      ImageKept(before, d[..], nzones, inos, zones);
      SlotRead(d[..], o, mode, size, time, nlinks, ZoneNumbers(direct, indirect, dbl));
    }

    /** write_file: data and pointers in fresh zones, and a fresh inode. */
    method WriteFile(data: seq<Byte>, mode: nat, time: nat) returns (r: Result<nat>, ghost f: Written)
      requires Valid() && mode < 0x1_0000 && time < 0x1_0000_0000
      modifies d, this`inos, this`zones
      ensures Valid()
      ensures r.Success? <==> old(inos) < NINODES && old(zones) + Need(Blocks(|data|)) <= Room(nzones)
      ensures r.Success? ==>
        && inos == old(inos) + 1 && Next() == old(Next()) + Need(Blocks(|data|)) && f == Written(inos, mode, data, old(Next()), Next())
        && r.value == inos && FileOk(d[..], SuperOf(nzones), f)
        && SameWithin(old(d[..]), d[..], Itab(nzones), Slot(SuperOf(nzones), inos))
        && SameWithin(old(d[..]), d[..], FirstZone(nzones) * BS, old(Next()) * BS)
    {
      f := Written(1, mode, data, 0, 0);
      ghost var w := Next();
      var zs := WriteZones(data);
      if zs.Failure? {
        return Failure(zs.error), f;
      }
      ghost var s1 := d[..];
      var n := AllocIno();
      if n.Failure? {
        return Failure(n.error), f;
      }
      assert SameWithin(s1, d[..], FirstZone(nzones) * BS, Next() * BS);
      r := CloseFile(zs.value, n.value, data, mode, time, w, s1);
      f := Written(n.value, mode, data, w, Next());
    }

    /** The pointers and the inode of a file whose data is in the given zones. */
    method CloseFile(zs: seq<nat>, n: nat, data: seq<Byte>, mode: nat, time: nat, ghost w: nat, ghost s1: seq<Byte>) returns (r: Result<nat>)
      requires Valid() && 0 < n <= NINODES && mode < 0x1_0000 && time < 0x1_0000_0000
      requires FirstZone(nzones) <= w && w + |zs| == Next() && Consecutive(zs, w, |zs|) && |zs| == Blocks(|data|)
      requires DataAt(s1, w, data, |data|) && SameWithin(s1, d[..], FirstZone(nzones) * BS, Next() * BS) && |s1| == nzones * BS
      modifies d, this`zones
      ensures Valid() && (r.Success? <==> old(zones) + Need(|zs|) - |zs| <= Room(nzones))
      ensures r.Success? ==> r.value == n && Next() == old(Next()) + Need(|zs|) - |zs| && FileOk(d[..], SuperOf(nzones), Written(n, mode, data, w, Next()))
      ensures r.Success? ==> SameWithin(old(d[..]), d[..], Itab(nzones), Slot(SuperOf(nzones), n))
      ensures r.Success? ==> SameWithin(old(d[..]), d[..], FirstZone(nzones) * BS, old(Next()) * BS)
    {
      var t := WriteTree(zs, w);
      if t.Failure? {
        return Failure(t.error);
      }
      ghost var s2 := d[..];
      SetInode(n, mode, |data|, zs[..Min(NDADDR, |zs|)], t.value.0, t.value.1, 1, time);
      FileWritten(s1, s2, d[..], nzones, Written(n, mode, data, w, Next()), zs, t.value.0, t.value.1);
      r := Success(n);
    }

    /** The pointers to the zones beyond the direct ones. */
    method WriteTree(zs: seq<nat>, ghost w: nat) returns (r: Result<(nat, nat)>)
      requires Valid() && FirstZone(nzones) <= w && w + |zs| == Next() && Consecutive(zs, w, |zs|)
      modifies d, this`zones
      ensures Valid() && SameWithin(old(d[..]), d[..], Itab(nzones), old(Next()) * BS)
      ensures r.Success? <==> old(zones) + Need(|zs|) - |zs| <= Room(nzones)
      ensures r.Success? ==> Next() == old(Next()) + Need(|zs|) - |zs| && r.value.0 < 0x1_0000 && r.value.1 < 0x1_0000 && Beyond(d[..], w, |zs|, Next(), r.value.0, r.value.1)
    {
      var k := |zs|;
      if k <= NDADDR {
        return Success((0, 0));
      }
      var single := WriteIndirect(zs[NDADDR..NDADDR + Min(NINDIR, k - NDADDR)]);
      if single.Failure? {
        return Failure(single.error);
      }
      SingleListed(d[..], zs, w, single.value);
      if k <= NDADDR + NINDIR {
        return Success((single.value, 0));
      }
      ghost var before := d[..];
      var dbl := WriteDouble(zs[NDADDR + NINDIR..], w, k);
      if dbl.Failure? {
        return Failure(dbl.error);
      }
      ListsKept(before, d[..], single.value, w + NDADDR, NINDIR, w, single.value + 1);
      r := Success((single.value, dbl.value));
    }
  }

  /** What a file of `k` blocks needs beyond its direct zones. */
  ghost predicate Beyond(s: seq<Byte>, w: nat, k: nat, end: nat, single: nat, dbl: nat) {
    && (k > NDADDR ==> w + k <= single < end && Lists(s, single, w + NDADDR, Min(NINDIR, k - NDADDR)))
    && (k > NDADDR + NINDIR ==> w + k <= dbl < end && Doubly(s, dbl, w, k, end))
  }

  lemma SingleListed(s: seq<Byte>, zs: seq<nat>, w: nat, z: nat)
    requires |zs| > NDADDR && Consecutive(zs, w, |zs|) && (z + 1) * BS <= |s|
    requires var part := zs[NDADDR..NDADDR + Min(NINDIR, |zs| - NDADDR)]; forall i: nat :: i < |part| ==> Ptr(s, z, i) == part[i]
    ensures Lists(s, z, w + NDADDR, Min(NINDIR, |zs| - NDADDR))
  {
    var part := zs[NDADDR..NDADDR + Min(NINDIR, |zs| - NDADDR)];
    forall i: nat | i < |part| ensures Ptr(s, z, i) == w + NDADDR + i {
      assert part[i] == zs[NDADDR + i];
    }
  }

  /** The inode and the pointers of a file lead to its data. */
  lemma FileWritten(s1: seq<Byte>, s2: seq<Byte>, s: seq<Byte>, nzones: nat, f: Written, zs: seq<nat>, single: nat, dbl: nat)
    requires 0 < f.ino <= NINODES && FirstZone(nzones) <= f.start && f.end <= nzones && |s| == |s2| == |s1| == nzones * BS
    requires Consecutive(zs, f.start, Blocks(|f.data|)) && f.start + |zs| <= f.end
    requires DataAt(s1, f.start, f.data, |f.data|) && SameWithin(s1, s2, FirstZone(nzones) * BS, (f.start + |zs|) * BS)
    requires Beyond(s2, f.start, |zs|, f.end, single, dbl)
    requires SameOutside(s2, s, Slot(SuperOf(nzones), f.ino), Slot(SuperOf(nzones), f.ino) + 32)
    requires InodeAt(s, Slot(SuperOf(nzones), f.ino)) == Inode(f.mode, |f.data|, ZoneNumbers(zs[..Min(NDADDR, |zs|)], single, dbl))
    ensures FileOk(s, SuperOf(nzones), f)
  {
    var k := |zs|;
    var z := ZoneNumbers(zs[..Min(NDADDR, k)], single, dbl);
    assert s[f.start * BS..f.start * BS + |f.data|] == s1[f.start * BS..f.start * BS + |f.data|];
    assert Leads(s2, z, f.start, k, f.end);
    LeadsKept(s2, s, z, f.start, k, f.end);
  }

  /** i_zone: seven direct zones, as far as there are any, and the two indirect ones. */
  function ZoneNumbers(direct: seq<nat>, indirect: nat, dbl: nat): (z: seq<nat>)
    ensures |z| == 9
  {
    seq(7, i requires 0 <= i < 7 => if i < |direct| then direct[i] else 0) + [indirect, dbl]
  }

  ghost predicate All16(z: seq<nat>) { forall i :: 0 <= i < |z| ==> z[i] < 0x1_0000 }

  function PackAll(z: seq<nat>): (b: seq<Byte>)
    requires All16(z)
    ensures |b| == 2 * |z|
  {
    if z == [] then [] else PackAll(z[..|z| - 1]) + Pack16(z[|z| - 1])
  }

  lemma {:induction false} PackAllAt(z: seq<nat>, i: nat)
    requires All16(z) && i < |z|
    ensures PackAll(z)[2 * i..2 * i + 2] == Pack16(z[i])
  {
    if i < |z| - 1 {
      PackAllAt(z[..|z| - 1], i);
      assert PackAll(z)[2 * i..2 * i + 2] == PackAll(z[..|z| - 1])[2 * i..2 * i + 2];
    }
  }

  /** An inode as mkminix.py packs it; the reader takes the link count for the group. */
  function SlotBytes(mode: nat, size: nat, time: nat, nlinks: Byte, z: seq<nat>): (b: seq<Byte>)
    requires mode < 0x1_0000 && size < 0x1_0000_0000 && time < 0x1_0000_0000 && |z| == 9 && All16(z)
    ensures |b| == 32
  {
    Pack16(mode) + Pack16(0) + Pack32(size) + Pack32(time) + [nlinks, 0] + PackAll(z)
  }

  lemma SlotRead(s: seq<Byte>, o: nat, mode: nat, size: nat, time: nat, nlinks: Byte, z: seq<nat>)
    requires mode < 0x1_0000 && size < 0x1_0000_0000 && time < 0x1_0000_0000 && |z| == 9 && All16(z)
    requires o + 32 <= |s| && s[o..o + 32] == SlotBytes(mode, size, time, nlinks, z)
    ensures InodeAt(s, o) == Inode(mode, size, z)
  {
    var b := SlotBytes(mode, size, time, nlinks, z);
    Part(s, o, b, 0, 2);
    Unpack16(s, o, mode);
    assert Pack32(size)[0..2] == Pack16(size % 0x1_0000) && Pack32(size)[2..4] == Pack16(size / 0x1_0000);
    assert b[4..6] == Pack16(size % 0x1_0000) && b[6..8] == Pack16(size / 0x1_0000);
    Part(s, o, b, 4, 2);
    Unpack16(s, o + 4, size % 0x1_0000);
    Part(s, o, b, 6, 2);
    Unpack16(s, o + 6, size / 0x1_0000);
    forall i: nat | i < 9 ensures U16(s, o + 14 + 2 * i) == z[i] {
      PackAllAt(z, i);
      Part(s, o, b, 14 + 2 * i, 2);
      assert b[14..] == PackAll(z);
      assert b[14 + 2 * i..14 + 2 * i + 2] == b[14..][2 * i..2 * i + 2];
      Unpack16(s, o + 14 + 2 * i, z[i]);
    }
    assert ZonesAt(s, o) == z;
  }

  lemma Part(s: seq<Byte>, o: nat, b: seq<Byte>, i: nat, len: nat)
    requires o + |b| <= |s| && s[o..o + |b|] == b && i + len <= |b|
    ensures s[o + i..o + i + len] == b[i..i + len]
  {
    var x, y := s[o + i..o + i + len], b[i..i + len];
    forall k | 0 <= k < len ensures x[k] == y[k] {
      assert s[o..o + |b|][i + k] == b[i + k];
    }
  }

  /** Zone `inds[j]` lists the `j`-th part of the zones from `first` on. */
  ghost predicate ListAll(s: seq<Byte>, inds: seq<nat>, first: nat, count: nat) {
    forall j: nat :: j < |inds| ==> NINDIR * j < count && Lists(s, inds[j], first + NINDIR * j, Min(NINDIR, count - NINDIR * j))
  }

  lemma ListAllKept(s: seq<Byte>, r: seq<Byte>, inds: seq<nat>, w: nat, first: nat, count: nat)
    requires ListAll(s, inds, first, count) && Consecutive(inds, w, |inds|) && SameWithin(s, r, w * BS, (w + |inds|) * BS)
    ensures ListAll(r, inds, first, count)
  {
    forall j: nat | j < |inds| ensures Lists(r, inds[j], first + NINDIR * j, Min(NINDIR, count - NINDIR * j)) {
      ListsKept(s, r, inds[j], first + NINDIR * j, Min(NINDIR, count - NINDIR * j), w, w + |inds|);
    }
  }

  lemma ListMore(s: seq<Byte>, r: seq<Byte>, inds: seq<nat>, w: nat, first: nat, rest: seq<nat>, z: nat)
    requires ListAll(s, inds, first, |rest|) && Consecutive(inds, w, |inds|) && SameWithin(s, r, w * BS, (w + |inds|) * BS)
    requires Consecutive(rest, first, |rest|) && NINDIR * |inds| < |rest| && (z + 1) * BS <= |r|
    requires var part := rest[NINDIR * |inds|..Min(NINDIR * |inds| + NINDIR, |rest|)]; forall i: nat :: i < |part| ==> Ptr(r, z, i) == part[i]
    ensures ListAll(r, inds + [z], first, |rest|)
  {
    ListAllKept(s, r, inds, w, first, |rest|);
    var part := rest[NINDIR * |inds|..Min(NINDIR * |inds| + NINDIR, |rest|)];
    assert forall i: nat :: i < |part| ==> part[i] == rest[NINDIR * |inds| + i];
  }

  lemma DoublyListed(s: seq<Byte>, z: nat, inds: seq<nat>, start: nat, k: nat, end: nat)
    requires (z + 1) * BS <= |s| && k <= NDADDR + NINDIR + NINDIR * NINDIR && |inds| <= NINDIR
    requires NDADDR + NINDIR < k && k - NDADDR - NINDIR <= NINDIR * |inds|
    requires ListAll(s, inds, start + NDADDR + NINDIR, k - NDADDR - NINDIR)
    requires forall i: nat :: i < |inds| ==> Ptr(s, z, i) == inds[i] && start + k <= inds[i] < end
    ensures Doubly(s, z, start, k, end)
  {
  }

  ghost predicate Consecutive(zs: seq<nat>, first: nat, n: nat) {
    |zs| == n && forall i :: 0 <= i < n ==> zs[i] == first + i
  }

  /** The first `m` bytes of the data are in the zones from `w` on. */
  ghost predicate DataAt(s: seq<Byte>, w: nat, data: seq<Byte>, m: nat) {
    m <= |data| && w * BS + m <= |s| && s[w * BS..w * BS + m] == data[..m]
  }

  lemma DataGrows(before: seq<Byte>, now: seq<Byte>, w: nat, i: nat, data: seq<Byte>)
    requires i < Blocks(|data|) && (w + i + 1) * BS <= |now| && DataAt(before, w, data, i * BS) && SameWithin(before, now, w * BS, (w + i) * BS)
    requires var part := data[i * BS..Min((i + 1) * BS, |data|)]; now[(w + i) * BS..(w + i) * BS + |part|] == part
    ensures DataAt(now, w, data, Min((i + 1) * BS, |data|))
  {
    var m := Min((i + 1) * BS, |data|);
    assert now[w * BS..w * BS + i * BS] == before[w * BS..w * BS + i * BS];
    assert now[w * BS..w * BS + m] == now[w * BS..w * BS + i * BS] + now[(w + i) * BS..(w + i) * BS + (m - i * BS)];
    assert data[..m] == data[..i * BS] + data[i * BS..m];
  }

  /** The contents of an indirect block. */
  method Block(zs: seq<nat>) returns (b: seq<Byte>)
    requires |zs| <= NINDIR && forall i :: 0 <= i < |zs| ==> zs[i] < 0x1_0000
    ensures |b| == BS && forall i: nat :: i < |zs| ==> U16(b, 2 * i) == zs[i]
  {
    var blk := new Byte[BS](_ => 0);
    var i := 0;
    while i < |zs|
      invariant 0 <= i <= |zs| && forall j: nat :: j < i ==> U16(blk[..], 2 * j) == zs[j]
    {
      Put16(blk, 2 * i, zs[i]);
      i := i + 1;
    }
    b := blk[..];
  }

  lemma BlockPtrs(s: seq<Byte>, z: nat, blk: seq<Byte>, zs: seq<nat>)
    requires (z + 1) * BS <= |s| && |blk| == BS && s[z * BS..z * BS + BS] == blk && |zs| <= NINDIR
    requires forall i: nat :: i < |zs| ==> U16(blk, 2 * i) == zs[i]
    ensures forall i: nat :: i < |zs| ==> Ptr(s, z, i) == zs[i]
  {
    forall i: nat | i < |zs| ensures Ptr(s, z, i) == zs[i] {
      assert blk[2 * i] == s[z * BS + 2 * i] && blk[2 * i + 1] == s[z * BS + 2 * i + 1];
      assert U16(blk, 2 * i) == zs[i];
    }
  }
}
