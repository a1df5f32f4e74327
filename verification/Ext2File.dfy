/** The open ext2 file and its cache of one index block per level (ext2fs.c:198-477). Regions of memory
    obtained from the kernel are named by numbers other than 0, and no number is used twice. */
module Ext2Files {
  import opened Bytes
  import opened Division
  import opened Ext2Blocks

  datatype Load = Loaded | NotThere | Broken | Wild

  datatype Reading = Refused | DeviceError | AtZero | Got(direct: bool, off: nat, count: nat)

  function Outcome(e: Load, got: Reading): Reading {
    match e
    case Loaded => got
    case NotThere => Refused
    case Broken => DeviceError
    case Wild => AtZero
  }

  datatype Fetched = Data(region: nat) | Failed | Null

  ghost function Nonzero(s: seq<nat>): set<nat> {
    set i | 0 <= i < |s| && s[i] != 0 :: s[i]
  }

  lemma NonzeroUpdate(s: seq<nat>, i: nat, x: nat)
    requires i < |s| && x !in s && forall l, m :: 0 <= l < m < |s| && s[l] != 0 ==> s[l] != s[m]
    ensures Nonzero(s[i := x]) == Nonzero(s) - {s[i]} + (if x == 0 then {} else {x})
  {
    forall id | id in Nonzero(s) && id != s[i] ensures id in Nonzero(s[i := x]) {
      var l :| 0 <= l < |s| && s[l] == id;
      assert s[i := x][l] == id;
    }
    if x != 0 {
      assert s[i := x][i] == x;
    }
  }

  /** A level of the cache holds nothing, or in `region` the contents of the block it names. */
  ghost predicate SlotHolds(disk: Disk, memory: map<nat, seq<Byte>>, number: nat, region: nat) {
    if number == EMPTY then region == 0
    else region != 0 && region in memory && number in disk && memory[region] == disk[number]
  }

  class Ext2File {
    const disk: Disk
    const n: nat
    const nindir: seq<int>
    const blk: array<nat>
    const blkno: array<nat>
    const recSize: nat
    /** bg_inode_table of each group, and the number of inodes in a group. */
    const tables: seq<nat>
    const perGroup: nat
    var block: seq<nat>
    var size: nat
    var buf: nat
    var bufBlkno: int
    var memory: map<nat, seq<Byte>>
    var next: nat

    ghost predicate Valid()
      reads this, blk, blkno
    {
      && n >= INODE_WORDS && recSize > 0 && perGroup > 0 && DiskOk(disk, n) && |block| == NDADDR + NIADDR
      && blk.Length == NIADDR && blkno.Length == NIADDR && blk != blkno
      && |nindir| == NIADDR && (forall l :: 0 <= l < NIADDR ==> nindir[l] == Capacity(n, l + 1))
      && next > 0 && (forall id :: id in memory ==> 0 < id < next)
      && (forall l :: 0 <= l < NIADDR ==> SlotHolds(disk, memory, blkno[l], blk[l]))
      && (forall l, m :: 0 <= l < m < NIADDR && blk[l] != 0 ==> blk[l] != blk[m])
    }

    /** Regions that no level of the cache holds. */
    ghost function Others(): set<nat>
      reads this, blk
    {
      memory.Keys - Nonzero(blk[..])
    }

    /** A file just opened: nothing is cached, and the table of mount_fs is made. */
    constructor (disk: Disk, n: nat, recSize: nat, tables: seq<nat>, perGroup: nat)
      requires INODE_WORDS <= n <= 1024 && DiskOk(disk, n) && recSize > 0 && perGroup > 0
      ensures Valid() && fresh(blk) && fresh(blkno) && this.disk == disk && this.n == n && this.recSize == recSize
      ensures size == buf == 0 && bufBlkno == -1 && this.tables == tables && this.perGroup == perGroup
      ensures memory == map[] && blkno[..] == [EMPTY, EMPTY, EMPTY]
    {
      this.disk := disk;
      this.n := n;
      this.recSize := recSize;
      this.tables, this.perGroup := tables, perGroup;
      size, buf, bufBlkno := 0, 0, -1;
      nindir := [Nindir(n, 0), Nindir(n, 1), Nindir(n, 2)];
      blk := new nat[NIADDR](_ => 0);
      blkno := new nat[NIADDR](_ => EMPTY);
      block := seq(NDADDR + NIADDR, _ => 0);
      memory := map[];
      next := 1;
      Powers(n);
      CubeBelow(n);
      NindirBelow(n);
    }

    /** device_read of one block into memory the kernel allocates. */
    method DeviceRead(bad: set<nat>, b: nat) returns (ok: bool, region: nat)
      requires Valid()
      modifies this`memory, this`next
      ensures Valid()
      ensures ok <==> Readable(disk, bad, b)
      ensures ok ==> region != 0 && region !in old(memory) && region !in Nonzero(blk[..]) && memory == old(memory)[region := disk[b]]
      ensures !ok ==> memory == old(memory)
    {
      ok := Readable(disk, bad, b);
      region := 0;
      if ok {
        region := next;
        memory := memory[region := disk[b]];
        next := next + 1;
      }
    }

    /** vm_deallocate: what it frees is allocated, so nothing is freed twice. */
    method Deallocate(region: nat)
      requires Valid() && region in memory && region !in Nonzero(blk[..])
      modifies this`memory
      ensures Valid() && memory == old(memory) - {region} && Others() == old(Others()) - {region}
    {
      assert forall l :: 0 <= l < NIADDR ==> blk[..][l] == blk[l];
      memory := memory - {region};
    }

    /** One round of the descent: the data of index block `p` from the cache of its level, or read into
        it; `replaced` is the region that was there before, 0 if none. */
    method Fetch(bad: set<nat>, level: nat, p: nat) returns (f: Fetched, replaced: nat)
      requires Valid() && level < NIADDR
      modifies this`memory, this`next, blk, blkno
      ensures Valid() && blk[..] == old(blk[..])[level := blk[level]] && blkno[..] == old(blkno[..])[level := blkno[level]]
      ensures f.Null? <==> p == EMPTY && old(blkno[level]) == EMPTY
      ensures f.Data? ==> p in disk && blkno[level] == p && blk[level] == f.region && f.region in memory && memory[f.region] == disk[p]
      ensures f.Failed? ==> !Readable(disk, bad, p) && old(blkno[level]) != p
      ensures old(blk[..]) != blk[..] ==> blk[level] !in old(memory)
      ensures forall id :: id in old(memory) ==> id in memory && memory[id] == old(memory)[id]
      ensures !f.Data? ==> blk[level] == old(blk[level]) && blkno[level] == old(blkno[level]) && memory == old(memory)
      ensures f.Data? && old(blkno[level]) == p ==> memory == old(memory) && blk[level] == old(blk[level]) && replaced == 0
      ensures f.Data? && old(blkno[level]) != p ==>
        Readable(disk, bad, p) && replaced == old(blk[level]) && replaced != blk[level]
      ensures Others() == old(Others()) + (if replaced == 0 then {} else {replaced})
    {
      replaced := 0;
      if blkno[level] == p {
        if blk[level] == 0 {
          return Null, 0;
        }
        return Data(blk[level]), 0;
      }
      var ok, region := DeviceRead(bad, p);
      if !ok {
        return Failed, 0;
      }
      replaced := blk[level];
      assert blk[..] == old(blk[..]) && forall l :: 0 <= l < NIADDR ==> blk[..][l] == blk[l];
      NonzeroUpdate(blk[..], level, region);
      blkno[level] := p;
      blk[level] := region;
      assert blk[..] == old(blk[..])[level := region];
      f := Data(region);
    }

    /** Frees the regions that were replaced, each once. */
    method FreeReplaced(olddata: seq<nat>)
      requires Valid() && |olddata| == NIADDR && Nonzero(olddata) <= Others()
      requires forall l, m :: 0 <= l < m < NIADDR && olddata[l] != 0 ==> olddata[l] != olddata[m]
      modifies this`memory
      ensures Valid() && Others() == old(Others()) - Nonzero(olddata)
      ensures forall id :: id in memory ==> id in old(memory) && memory[id] == old(memory)[id]
    {
      var idx: nat := 0;
      while idx < NIADDR
        invariant idx <= NIADDR && Valid()
        invariant Others() == old(Others()) - Nonzero(olddata[..idx])
        invariant forall id :: id in memory ==> id in old(memory) && memory[id] == old(memory)[id]
      {
        assert olddata[idx] == 0 || olddata[idx] !in Nonzero(olddata[..idx]);
        assert Nonzero(olddata[..idx + 1]) == Nonzero(olddata[..idx]) + (if olddata[idx] == 0 then {} else {olddata[idx]}) by {
          NonzeroSnoc(olddata, idx);
        }
        if olddata[idx] != 0 {
          assert olddata[idx] in Nonzero(olddata) && olddata[idx] in Others();
          Deallocate(olddata[idx]);
        }
        idx := idx + 1;
      }
      assert olddata[..NIADDR] == olddata;
    }

    /** Half-way down: the walk goes on as the whole walk would, and the regions replaced so far are the
        only new ones that the cache does not hold. */
    ghost predicate Descending(before: Cached, now: Descent, olddata: seq<nat>)
      reads this, blk, blkno
    {
      && Valid() && now.fb < Capacity(n, now.depth) && now.depth <= NIADDR
      && Untouched(before.held, blkno[..], now.depth) && Untouched(before.regions, blk[..], now.depth)
      && ReplacedIn(before.regions, blk[..], olddata, now.depth) && KeptApart(before.regions, blk[..])
      && (forall id :: id in before.regions && id != 0 ==> id in before.memory)
      && (forall id :: id in before.memory ==> id in memory && memory[id] == before.memory[id])
      && Others() == before.others + Nonzero(olddata)
    }

    /** One round of the loop. */
    method Round(bad: set<nat>, d: Descent, olddata: seq<nat>, ghost before: Cached)
      returns (f: Fetched, e: Descent, newdata: seq<nat>)
      requires Descending(before, d, olddata) && d.depth > 0 && d.p != 0
      modifies this`memory, this`next, blk, blkno
      ensures f.Data? ==> Descending(before, e, newdata) && e.depth == d.depth - 1
      ensures f.Data? ==> Walk(disk, bad, n, e.depth, e.p, e.fb, before.held) == Walk(disk, bad, n, d.depth, d.p, d.fb, before.held)
      ensures !f.Data? ==> Descending(before, d, olddata) && newdata == olddata
      ensures f.Null? ==> Walk(disk, bad, n, d.depth, d.p, d.fb, before.held) == NullRead
      ensures f.Failed? ==> Walk(disk, bad, n, d.depth, d.p, d.fb, before.held) == Unreadable
    {
      var level: nat := d.depth - 1;
      ghost var now := blk[..];
      var replaced;
      f, replaced := Fetch(bad, level, d.p);
      newdata := olddata;
      e := d;
      if f.Data? {
        var c := if level > 0 then nindir[level - 1] else 1;
        assert c == Capacity(n, level) && d.fb < c * n;
        e := Descent(level, Word(memory[f.region], Quotient(d.fb, c, n)), Remainder(d.fb, c, n));
        NonzeroFill(olddata, level, replaced);
        newdata := olddata[level := replaced];
        ReplacedRound(before.regions, now, olddata, level, blk[level], replaced);
      } else {
        assert blk[..] == now;
      }
    }

    /** The descent from the tree whose root has number `p0`: it finds what the walk finds. A region is
        lost only if it cannot reach its end, and then each of those it has replaced is. */
    method Descend(bad: set<nat>, top: nat, p0: nat, fb0: nat) returns (r: Mapped)
      requires Valid() && top < NIADDR && fb0 < Capacity(n, top + 1)
      modifies this`memory, this`next, blk, blkno
      ensures Valid() && r == Walk(disk, bad, n, top + 1, p0, fb0, old(blkno[..]))
      ensures r.Block? ==> Others() == old(Others())
      ensures !r.Block? ==> Others() == old(Others()) + (Nonzero(old(blk[..])) - Nonzero(blk[..]))
      ensures forall id :: id in old(Others()) ==> id in memory && memory[id] == old(memory)[id]
    {
      var d := Descent(top + 1, p0, fb0);
      var olddata: seq<nat> := [0, 0, 0];
      ghost var before := Cached(blkno[..], blk[..], memory, Others());
      assert Nonzero(olddata) == {};
      while d.depth > 0 && d.p != 0
        invariant Descending(before, d, olddata)
        invariant Walk(disk, bad, n, d.depth, d.p, d.fb, before.held) == Walk(disk, bad, n, top + 1, p0, fb0, before.held)
        decreases d.depth
      {
        var f, e, newdata := Round(bad, d, olddata, before);
        if !f.Data? {
          ReplacedRegions(before.regions, blk[..], olddata, d.depth);
          return if f.Null? then NullRead else Unreadable;
        }
        d, olddata := e, newdata;
      }
      ReplacedRegions(before.regions, blk[..], olddata, d.depth);
      FreeReplaced(olddata);
      r := Block(d.p);
    }

    /** block_map: the entry of the file's block list, through the cache. */
    method BlockMap(bad: set<nat>, fileBlock: nat) returns (r: Lookup)
      requires Valid()
      modifies this`memory, this`next, blk, blkno
      ensures Valid() && r == Find(disk, bad, n, block, fileBlock, old(blkno[..]))
      ensures r.NotInFile? || r.m.Block? ==> Others() == old(Others())
      ensures r.Maps? && !r.m.Block? ==> Others() == old(Others()) + (Nonzero(old(blk[..])) - Nonzero(blk[..]))
      ensures forall id :: id in old(Others()) ==> id in memory && memory[id] == old(memory)[id]
    {
      if fileBlock < NDADDR {
        return Maps(Block(block[fileBlock]));
      }
      var fb: nat := fileBlock - NDADDR;
      var level: nat := 0;
      while level < NIADDR
        invariant level <= NIADDR
        invariant FindFrom(disk, bad, n, block, 0, fileBlock - NDADDR, blkno[..]) == FindFrom(disk, bad, n, block, level, fb, blkno[..])
      {
        if fb < nindir[level] {
          break;
        }
        fb := fb - nindir[level];
        level := level + 1;
      }
      if level == NIADDR {
        return NotInFile;
      }
      var m := Descend(bad, level, block[level + NDADDR], fb);
      r := Maps(m);
    }

    /** free_file_buffers. */
    method FreeFileBuffers()
      requires Valid() && (buf != 0 ==> buf in Others())
      modifies this, blk, blkno
      ensures Valid() && blkno[..] == [EMPTY, EMPTY, EMPTY] && buf == 0 && bufBlkno == -1
      ensures block == old(block) && size == old(size) && memory.Keys == old(Others()) - {old(buf)}
    {
      var level: nat := 0;
      while level < NIADDR
        invariant level <= NIADDR && Valid() && Others() == old(Others())
        invariant forall l :: 0 <= l < level ==> blkno[l] == EMPTY
        invariant buf == old(buf) && block == old(block) && size == old(size)
      {
        ghost var now := blk[..];
        NonzeroDrop(now, level);
        if blk[level] != 0 {
          memory := memory - {blk[level]};
          blk[level] := 0;
        }
        blkno[level] := EMPTY;
        assert blk[..] == now[level := 0];
        level := level + 1;
      }
      assert blkno[..] == [EMPTY, EMPTY, EMPTY];
      assert forall l :: 0 <= l < NIADDR ==> blk[..][l] == 0;
      if buf != 0 {
        Deallocate(buf);
        buf := 0;
      }
      bufBlkno := -1;
    }

    /** read_inode: the inode is decoded from its place in the table of its group, and nothing of another
        one stays in the caches. On a device error everything stays as it is. */
    method ReadInode(bad: set<nat>, ino: nat) returns (ok: bool)
      requires Valid() && (buf != 0 ==> buf in Others()) && ino > 0 && (ino - 1) / perGroup < |tables|
      modifies this, blk, blkno
      ensures Valid() && (ok <==> Readable(disk, bad, InodeBlock(tables, perGroup, n, ino)))
      ensures ok ==> var w := Words(disk[InodeBlock(tables, perGroup, n, ino)], n);
                     size == InodeSize(w, InodeSlot(n, ino)) && block == InodePointers(w, InodeSlot(n, ino))
      ensures ok ==> blkno[..] == [EMPTY, EMPTY, EMPTY] && buf == 0 && bufBlkno == -1 && memory.Keys == old(Others()) - {old(buf)}
      ensures !ok ==> memory == old(memory) && block == old(block) && size == old(size) && blkno[..] == old(blkno[..])
    {
      var b := InodeBlock(tables, perGroup, n, ino);
      var raw;
      ok, raw := DeviceRead(bad, b);
      if !ok {
        return;
      }
      var w := Words(memory[raw], n);
      size, block := InodeSize(w, InodeSlot(n, ino)), InodePointers(w, InodeSlot(n, ino));
      assert forall l :: 0 <= l < NIADDR ==> blk[..][l] == blk[l];
      Deallocate(raw);
      FreeFileBuffers();
    }

    // ---- The data block cache ----

    /** A region in the data cache holds the block the cache names. */
    ghost predicate Sound()
      requires Valid()
      reads this, blk, blkno
    {
      && (buf != 0 ==> buf in Others() && bufBlkno >= 0)
      && (buf != 0 ==> HasBlock(disk, n, block, bufBlkno) && memory[buf] == BlockBytes(disk, n, block, bufBlkno))
    }

    /** The data cache names a block but has no region: the address it gives is that of nothing. */
    predicate Stale()
      reads this
    {
      bufBlkno >= 0 && buf == 0
    }

    /** The device fails on the data block of index `fb`, which is neither a hole nor held. */
    ghost predicate DataFails(bad: set<nat>, fb: nat)
      requires Valid()
      reads this, blk, blkno
    {
      var r := Find(disk, bad, n, block, fb, blkno[..]);
      fb != bufBlkno && r.Maps? && r.m.Block? && r.m.number != 0 && !Readable(disk, bad, r.m.number)
    }

    /** The data cache is filled with block `number` of the device, or with zeros for a hole. */
    method FillBuffer(bad: set<nat>, fb: nat, number: nat) returns (ok: bool)
      requires Valid() && (buf != 0 ==> buf in Others())
      modifies this`memory, this`next, this`buf, this`bufBlkno
      ensures Valid() && (ok <==> number == 0 || Readable(disk, bad, number))
      ensures ok ==> bufBlkno == fb && buf in Others() && Others() == old(Others()) - {old(buf)} + {buf}
      ensures ok ==> buf != 0 && memory[buf] == if number == 0 then Zeros(4 * n) else disk[number]
      ensures !ok ==> buf == 0 && bufBlkno == old(bufBlkno) && Others() == old(Others()) - {old(buf)}
    {
      if buf != 0 {
        Deallocate(buf);
        buf := 0;
      }
      assert forall l :: 0 <= l < NIADDR ==> blk[..][l] == blk[l];
      if number == 0 {
        buf := next;
        memory := memory[buf := Zeros(4 * n)];
        next := next + 1;
      } else {
        var region;
        ok, region := DeviceRead(bad, number);
        if !ok {
          return;
        }
        buf := region;
      }
      ok := true;
      bufBlkno := fb;
    }

    /** The buffered half of buf_read_file: the data cache comes to hold block `fb`. It is left stale
        exactly when it was or the device fails on the block in place of one that was held; a stale
        cache gives a wild address for its block, and recovers with the next block loaded. */
    method LoadBlock(bad: set<nat>, fb: nat) returns (e: Load)
      requires Valid() && Sound()
      modifies this`memory, this`next, this`buf, this`bufBlkno, blk, blkno
      ensures Valid() && Sound()
      ensures Stale() <==> !e.Loaded? && (old(Stale()) || (old(DataFails(bad, fb)) && old(bufBlkno) >= 0))
      ensures e.Loaded? ==> bufBlkno == fb && buf != 0
      ensures bad == {} && HasBlock(disk, n, block, fb) ==> (e.Loaded? <==> !(old(Stale()) && old(bufBlkno) == fb))
      ensures e.NotThere? ==> fb >= |BlockList(disk, n, block)|
      ensures e.Loaded? ==> Others() == old(Others()) - {old(buf)} + {buf}
    {
      if fb != bufBlkno {
        FoundBytes(disk, bad, n, block, fb, blkno[..]);
        FindIsList(disk, bad, n, block, fb, blkno[..]);
        var m := BlockMap(bad, fb);
        if m.NotInFile? {
          return NotThere;
        }
        if !m.m.Block? {
          return if m.m.Unreadable? then Broken else Wild;
        }
        var ok := FillBuffer(bad, fb, m.m.number);
        if !ok {
          return Broken;
        }
      }
      e := if buf != 0 then Loaded else Wild;
    }

    // ---- Reading ----

    /** The caller's buffer takes a whole block: it is there, large enough and aligned, and so is the offset. */
    predicate IntoCaller(offset: nat, addr: nat, room: nat)
      requires n > 0 && recSize > 0
    {
      Blkoff(n, offset) == 0 && addr != 0 && room >= 4 * n && addr % recSize == 0
    }

    /** The direct half of buf_read_file. */
    method ReadInto(bad: set<nat>, fb: nat, dst: array<Byte>, at: nat) returns (e: Load, hole: bool)
      requires Valid() && Sound() && at + 4 * n <= dst.Length && (dst as object) !in {blk, blkno}
      modifies this`memory, this`next, blk, blkno, dst
      ensures Valid() && Sound()
      ensures SameOutside(old(dst[..]), dst[..], at, at + 4 * n)
      ensures e.Loaded? ==> HasBlock(disk, n, block, fb) && dst[at..at + 4 * n] == BlockBytes(disk, n, block, fb)
      ensures e.Loaded? ==> (hole <==> IsHole(disk, n, block, fb))
      ensures bad == {} && HasBlock(disk, n, block, fb) ==> e.Loaded?
      ensures e.NotThere? ==> fb >= |BlockList(disk, n, block)|
    {
      FoundBytes(disk, bad, n, block, fb, blkno[..]);
      FindIsList(disk, bad, n, block, fb, blkno[..]);
      hole := false;
      var m := BlockMap(bad, fb);
      if m.NotInFile? {
        return NotThere, hole;
      }
      if !m.m.Block? {
        return if m.m.Unreadable? then Broken else Wild, hole;
      }
      hole := m.m.number == 0;
      if hole {
        Copy(dst, at, Zeros(4 * n));
      } else if Readable(disk, bad, m.m.number) {
        Copy(dst, at, disk[m.m.number]);
      } else {
        return Broken, hole;
      }
      e := Loaded;
    }

    /** What one call delivers: up to the end of the block or of the file, but all of a hole that is
        read straight into the caller's buffer. */
    ghost function StepSize(offset: nat, direct: bool): nat
      requires Valid() && offset < size
      reads this, blk, blkno
    {
      if direct && IsHole(disk, n, block, Lblkno(n, offset)) then 4 * n
      else Min(4 * n - Blkoff(n, offset), size - offset)
    }

    /** buf_read_file: where the bytes at `offset` are, and how many. The caller's buffer has `room`
        bytes from index `at` of `dst` on, the first at address `addr`; a null address asks for the data buffer. */
    method BufReadFile(bad: set<nat>, offset: nat, dst: array<Byte>, at: nat, addr: nat, room: nat) returns (r: Reading)
      requires Valid() && Sound() && at + room <= dst.Length && (dst as object) !in {blk, blkno}
      modifies this`memory, this`next, this`buf, this`bufBlkno, blk, blkno, dst
      ensures Valid() && Sound()
      ensures SameOutside(old(dst[..]), dst[..], at, at + room)
      ensures r.Got? ==> offset < size && HasBlock(disk, n, block, Lblkno(n, offset)) && r.direct == IntoCaller(offset, addr, room)
      ensures r.Got? ==> r.count == StepSize(offset, r.direct) && 0 < r.count <= 4 * n - Blkoff(n, offset)
      ensures r.Got? && r.direct ==> dst[at..at + 4 * n] == BlockBytes(disk, n, block, Lblkno(n, offset))
      ensures r.Got? && !r.direct ==> buf != 0 && r.off == Blkoff(n, offset) && bufBlkno == Lblkno(n, offset) && dst[..] == old(dst[..])
      ensures offset >= size ==> r.Refused?
      ensures bad == {} && offset < size && HasBlock(disk, n, block, Lblkno(n, offset)) ==>
        (r.Got? <==> IntoCaller(offset, addr, room) || !(old(Stale()) && old(bufBlkno) == Lblkno(n, offset)))
      ensures bad == {} && !old(Stale()) && (offset < size ==> HasBlock(disk, n, block, Lblkno(n, offset))) ==> !Stale()
      ensures r.Refused? ==> offset >= size || Lblkno(n, offset) >= |BlockList(disk, n, block)|
    {
      if offset >= size {
        return Refused;
      }
      var off, fb := Blkoff(n, offset), Lblkno(n, offset);
      if off != 0 || addr == 0 || room < 4 * n || addr % recSize != 0 {
        var e := LoadBlock(bad, fb);
        r := Outcome(e, Got(false, off, Min(4 * n - off, size - offset)));
      } else {
        var e, hole := ReadInto(bad, fb, dst, at);
        r := Outcome(e, Got(true, 0, if hole then 4 * n else Min(4 * n, size - offset)));
      }
    }

    /** The bytes of the file as far as its block list goes. */
    ghost function File(): seq<Cell>
      requires Valid()
      reads this, blk, blkno
    {
      Contents(disk, n, block)
    }

    /** The next `len` bytes of the block in which `offset` lies. */
    ghost function Piece(offset: nat, len: nat): seq<Byte>
      requires Valid() && HasBlock(disk, n, block, Lblkno(n, offset)) && Blkoff(n, offset) + len <= 4 * n
      reads this, blk, blkno
    {
      BlockBytes(disk, n, block, Lblkno(n, offset))[Blkoff(n, offset)..Blkoff(n, offset) + len]
    }

    /** The bytes that buf_read_file has found are put in place, unless they are there already. */
    method Deliver(r: Reading, offset: nat, dst: array<Byte>, at: nat, csize: nat)
      requires Valid() && HasBlock(disk, n, block, Lblkno(n, offset)) && Blkoff(n, offset) + csize <= 4 * n
      requires r.Got? && at + csize <= dst.Length && (dst as object) !in {blk, blkno, this}
      requires if r.direct then dst[at..at + csize] == Piece(offset, csize)
               else buf in memory && r.off + csize <= |memory[buf]| && memory[buf][r.off..r.off + csize] == Piece(offset, csize)
      modifies dst
      ensures FilledWith(File(), offset, dst[..], at, at + csize) && SameOutside(old(dst[..]), dst[..], at, at + csize)
    {
      ghost var bytes := Piece(offset, csize);
      StepIsPart(disk, n, block, offset, csize);
      if !r.direct {
        Copy(dst, at, memory[buf][r.off..r.off + csize]);
      }
      assert dst[..][at..at + csize] == bytes;
      PartFills(File(), offset, dst[..], at, at + csize);
    }

    /** buf_read_file, and where the bytes are that it has found. */
    method Locate(bad: set<nat>, offset: nat, dst: array<Byte>, at: nat, addr: nat, room: nat) returns (r: Reading, csize: nat)
      requires Valid() && Sound() && at + room <= dst.Length && room > 0 && (dst as object) !in {blk, blkno, this}
      modifies this`memory, this`next, this`buf, this`bufBlkno, blk, blkno, dst
      ensures Valid() && Sound() && csize <= room && SameOutside(old(dst[..]), dst[..], at, at + room)
      ensures r.Got? ==> offset < size && csize == Min(room, StepSize(offset, IntoCaller(offset, addr, room))) > 0
      ensures r.Got? ==> HasBlock(disk, n, block, Lblkno(n, offset)) && Blkoff(n, offset) + csize <= 4 * n
      ensures r.Got? ==> if r.direct then dst[at..at + csize] == Piece(offset, csize)
                         else buf in memory && r.off + csize <= |memory[buf]| && memory[buf][r.off..r.off + csize] == Piece(offset, csize)
      ensures offset >= size ==> r.Refused?
      ensures bad == {} && !old(Stale()) && (offset < size ==> HasBlock(disk, n, block, Lblkno(n, offset))) ==>
        !Stale() && (offset < size ==> r.Got?)
    {
      csize := 0;
      r := BufReadFile(bad, offset, dst, at, addr, room);
      if r.Got? {
        csize := Min(room, r.count);
        if r.direct {
          FirstOf(dst[..], at, 4 * n, csize);
        }
      }
    }

    /** One round of ext2fs_read_file: the next bytes, wherever they were delivered, are in place; and
        what the round says about the rest of the read. */
    method ReadStep(bad: set<nat>, ghost file: seq<Cell>, ghost hole: bool, offset: nat, dst: array<Byte>, at: nat, addr: nat, room: nat)
      returns (r: Reading, csize: nat)
      requires Valid() && Sound() && at + room <= dst.Length && room > 0 && (dst as object) !in {blk, blkno, this}
      requires file == File() && hole == EndsInHole()
      modifies this`memory, this`next, this`buf, this`bufBlkno, blk, blkno, dst
      ensures Valid() && Sound() && csize <= room && SameOutside(old(dst[..]), dst[..], at, at + room)
      ensures r.Got? ==> csize > 0 && FilledWith(file, offset, dst[..], at, at + csize)
      ensures r.Got? ==> (Succeeds(n, recSize, size, hole, offset + csize, addr + csize, room - csize) <==> Succeeds(n, recSize, size, hole, offset, addr, room))
      ensures bad == {} && !old(Stale()) && AllKnown(file, size) ==> !Stale() && (!r.Got? ==> !Succeeds(n, recSize, size, hole, offset, addr, room))
    {
      if offset < size && AllKnown(file, size) {
        KnownHasBlock(disk, n, block, offset);
      }
      r, csize := Locate(bad, offset, dst, at, addr, room);
      if r.Got? {
        Deliver(r, offset, dst, at, csize);
        StepSucceeds(n, recSize, size, hole, offset, addr, room, IsHole(disk, n, block, Lblkno(n, offset)), csize);
      } else {
        PastTheFile(n, recSize, size, hole, offset, addr, room);
      }
    }

    ghost predicate EndsInHole()
      requires Valid()
      reads this, blk, blkno
    {
      IsHole(disk, n, block, Lblkno(n, size))
    }

    /** Between two rounds: what has been read is in place, and the read will succeed if it would have
        from the start. */
    ghost predicate Midway(t: Task, dst: array<Byte>, off: nat, at: nat, left: nat)
      reads this, blk, blkno, dst
    {
      && Valid() && Sound() && t.file == File() && t.hole == EndsInHole() && (dst as object) !in {blk, blkno, this}
      && t.start <= at && at + left == t.end <= dst.Length && off == t.offset + (at - t.start)
      && FilledWith(t.file, t.offset, dst[..], t.start, at) && SameOutside(t.buffer, dst[..], t.start, t.end)
      && (t.whole ==> t.bad == {} && !Stale() && AllKnown(t.file, size))
      && (Succeeds(n, recSize, size, t.hole, off, t.base + at, left) <==> t.succeeds)
    }

    method ReadRound(bad: set<nat>, ghost t: Task, off: nat, dst: array<Byte>, at: nat, addr: nat, left: nat)
      returns (r: Reading, off2: nat, at2: nat, left2: nat)
      requires Midway(t, dst, off, at, left) && left > 0 && bad == t.bad && addr == t.base + at
      modifies this`memory, this`next, this`buf, this`bufBlkno, blk, blkno, dst
      ensures Valid() && Sound() && SameOutside(t.buffer, dst[..], t.start, t.end)
      ensures r.Got? ==> left2 < left && Midway(t, dst, off2, at2, left2)
      ensures !r.Got? ==> (t.whole ==> !Stale() && !t.succeeds)
    {
      ghost var before := dst[..];
      var csize;
      r, csize := ReadStep(bad, t.file, t.hole, off, dst, at, addr, left);
      off2, at2, left2 := off + csize, at + csize, left - csize;
      if r.Got? {
        FillGrows(t.file, t.offset, before, dst[..], t.start, at, at + csize, t.end);
      }
    }

    /** The loop of ext2fs_read_file. */
    method ReadRounds(bad: set<nat>, ghost t: Task, offset: nat, dst: array<Byte>, base: nat, start: nat, size: nat) returns (r: Reading)
      requires Midway(t, dst, offset, start, size) && bad == t.bad && base == t.base && start == t.start
      modifies this`memory, this`next, this`buf, this`bufBlkno, blk, blkno, dst
      ensures Valid() && Sound() && SameOutside(t.buffer, dst[..], t.start, t.end)
      ensures r.Got? ==> FilledWith(t.file, t.offset, dst[..], t.start, t.end)
      ensures t.whole ==> !Stale() && (r.Got? <==> t.succeeds)
    {
      var off, at, left := offset, start, size;
      r := Got(false, 0, 0);
      while left != 0
        invariant Midway(t, dst, off, at, left) && r.Got?
        decreases left
      {
        r, off, at, left := ReadRound(bad, t, off, dst, at, base + at, left);
        if !r.Got? {
          return;
        }
      }
    }

    /** ext2fs_read_file: the caller's buffer, whose first byte has address `base`, is filled from index
        `start`. What is read is the file's, whichever way it comes. On a whole device a read succeeds
        exactly when it stays within the file, or ends with the block the file ends in and that block
        is a hole it can take at once. */
    method ReadFile(bad: set<nat>, offset: nat, dst: array<Byte>, base: nat, start: nat, size: nat) returns (r: Reading)
      requires Valid() && Sound() && start + size <= dst.Length && (dst as object) !in {blk, blkno, this}
      modifies this`memory, this`next, this`buf, this`bufBlkno, blk, blkno, dst
      ensures Valid() && Sound() && SameOutside(old(dst[..]), dst[..], start, start + size)
      ensures r.Got? ==> FilledWith(File(), offset, dst[..], start, start + size)
      ensures bad == {} && !old(Stale()) && AllKnown(File(), this.size) ==>
        !Stale() && (r.Got? <==> Succeeds(n, recSize, this.size, EndsInHole(), offset, base + start, size))
    {
      ghost var t := Task(File(), EndsInHole(), bad, bad == {} && !Stale() && AllKnown(File(), this.size),
                          Succeeds(n, recSize, this.size, EndsInHole(), offset, base + start, size), dst[..], offset, base, start, start + size);
      r := ReadRounds(bad, t, offset, dst, base, start, size);
    }
  }

  /** A whole read, for its proof: what it reads from, whether nothing can fail, whether it will succeed,
      the caller's buffer before, and what was asked for. */
  datatype Task = Task(file: seq<Cell>, hole: bool, bad: set<nat>, whole: bool, succeeds: bool,
                       buffer: seq<Byte>, offset: nat, base: nat, start: nat, end: nat)

  /** What there was at the start: the block numbers and regions of the cache, level by level, all
      memory, and the regions the cache did not hold. */
  datatype Cached = Cached(held: seq<nat>, regions: seq<nat>, memory: map<nat, seq<Byte>>, others: set<nat>)

  /** A place on the way down: the levels left, the block number found and the index below it. */
  datatype Descent = Descent(depth: nat, p: nat, fb: nat)

  ghost predicate Untouched(before: seq<nat>, now: seq<nat>, depth: nat) {
    |before| == |now| == NIADDR && forall l :: 0 <= l < NIADDR && l < depth ==> now[l] == before[l]
  }

  /** The regions of two levels are different, also when one of them is the one replaced. */
  ghost predicate KeptApart(before: seq<nat>, now: seq<nat>) {
    && |before| == |now|
    && (forall l, m :: 0 <= l < m < |before| && before[l] != 0 ==> before[l] != before[m])
    && (forall l, m :: 0 <= l < |before| && 0 <= m < |now| && l != m && before[l] != 0 ==> before[l] != now[m])
  }

  lemma NonzeroSnoc(s: seq<nat>, i: nat)
    requires i < |s|
    ensures Nonzero(s[..i + 1]) == Nonzero(s[..i]) + (if s[i] == 0 then {} else {s[i]})
  {
    assert forall l :: 0 <= l < i ==> s[..i + 1][l] == s[..i][l];
    assert s[..i + 1][i] == s[i];
  }

  lemma NonzeroFill(s: seq<nat>, i: nat, x: nat)
    requires i < |s| && s[i] == 0
    ensures Nonzero(s[i := x]) == Nonzero(s) + (if x == 0 then {} else {x})
  {
    assert forall l :: 0 <= l < |s| && l != i ==> s[i := x][l] == s[l];
    assert s[i := x][i] == x;
  }

  /** `olddata` lists, level by level, the regions of `before` that `now` no longer has. */
  ghost predicate ReplacedIn(before: seq<nat>, now: seq<nat>, olddata: seq<nat>, depth: nat) {
    && |before| == |now| == |olddata| == NIADDR
    && forall l :: 0 <= l < |now| ==> olddata[l] == if now[l] == before[l] || l < depth then 0 else before[l]
  }

  lemma ReplacedRegions(before: seq<nat>, now: seq<nat>, olddata: seq<nat>, depth: nat)
    requires ReplacedIn(before, now, olddata, depth) && KeptApart(before, now) && Untouched(before, now, depth)
    ensures Nonzero(olddata) == Nonzero(before) - Nonzero(now)
    ensures forall l, m :: 0 <= l < m < |olddata| && olddata[l] != 0 ==> olddata[l] != olddata[m]
  {
    forall id | id in Nonzero(before) - Nonzero(now) ensures id in Nonzero(olddata) {
      var l :| 0 <= l < |before| && before[l] == id;
      assert now[l] != id;
      assert olddata[l] == id;
    }
    forall id | id in Nonzero(olddata) ensures id in Nonzero(before) - Nonzero(now) {
      var l :| 0 <= l < |olddata| && olddata[l] == id;
      assert before[l] == id;
    }
  }

  lemma ReplacedRound(before: seq<nat>, now: seq<nat>, olddata: seq<nat>, level: nat, region: nat, replaced: nat)
    requires level < NIADDR && ReplacedIn(before, now, olddata, level + 1) && KeptApart(before, now) && Untouched(before, now, level + 1)
    requires (region == now[level] && replaced == 0) || (region !in before && replaced == now[level])
    ensures ReplacedIn(before, now[level := region], olddata[level := replaced], level)
    ensures KeptApart(before, now[level := region]) && Untouched(before, now[level := region], level)
  {
  }

  lemma NonzeroDrop(s: seq<nat>, i: nat)
    requires i < |s| && forall l, m :: 0 <= l < m < |s| && s[l] != 0 ==> s[l] != s[m]
    ensures Nonzero(s[i := 0]) == Nonzero(s) - {s[i]}
  {
    forall id | id in Nonzero(s) && id != s[i] ensures id in Nonzero(s[i := 0]) {
      var l :| 0 <= l < |s| && s[l] == id;
      assert s[i := 0][l] == id;
    }
  }

  // ---- Where a read ends ----

  /** The read of `count` bytes into address `addr` stays within the file, or its last step starts at
      the last block, which is a hole, and takes the whole of it. */
  ghost predicate Succeeds(n: nat, recSize: nat, size: nat, endsInHole: bool, offset: nat, addr: nat, count: nat)
    requires n > 0 && recSize > 0
  {
    || count == 0 || offset + count <= size
    || (var last := Start(n, Lblkno(n, size));
        last < size && offset <= last && offset + count == last + 4 * n && endsInHole
        && addr + (last - offset) != 0 && (addr + (last - offset)) % recSize == 0)
  }

  lemma FirstOf(s: seq<Byte>, at: nat, m: nat, c: nat)
    requires at + m <= |s| && c <= m
    ensures s[at..at + m][0..c] == s[at..at + c]
  {
  }

  lemma PastTheFile(n: nat, recSize: nat, size: nat, endsInHole: bool, offset: nat, addr: nat, count: nat)
    requires n > 0 && recSize > 0 && count > 0
    ensures offset >= size ==> !Succeeds(n, recSize, size, endsInHole, offset, addr, count)
  {
  }

  /** A step keeps what is left as possible or impossible as it was. */
  lemma StepSucceeds(n: nat, recSize: nat, size: nat, endsInHole: bool, offset: nat, addr: nat, count: nat, hole: bool, csize: nat)
    requires n > 0 && recSize > 0 && offset < size && count > 0
    requires Lblkno(n, offset) == Lblkno(n, size) ==> hole == endsInHole
    requires var direct := Blkoff(n, offset) == 0 && addr != 0 && count >= 4 * n && addr % recSize == 0;
             csize == Min(count, if direct && hole then 4 * n else Min(4 * n - Blkoff(n, offset), size - offset))
    ensures Succeeds(n, recSize, size, endsInHole, offset + csize, addr + csize, count - csize)
            <==> Succeeds(n, recSize, size, endsInHole, offset, addr, count)
  {
    var fb, lb := Lblkno(n, offset), Lblkno(n, size);
    Position(n, offset);
    Position(n, size);
    DivMonotone(offset, size, 4 * n);
    if fb < lb {
      StartMonotone(n, fb + 1, lb);
    }
  }
}
